/** `generateComment` (src/main.js; the older main.js has the same text
    with a different reports directory): the text of the comment posted back
    on the issue. Whether a report file exists is a predicate parameter. */
module Report {
  import opened Wrappers
  import opened Text
  import opened Records

  const NoUrlComment := "Could not find URL"
  const PassMark := "\U{2705}"
  const FailMark := "\U{274C}"

  /** What `@` becomes in a run's label, a zero-width space after it, so a
      label such as `lighthouse@4.0.0` is not rendered as a mail address. */
  const MailGuard := "@&#8203;"

  /** `type.replace('@', '@&#8203;')`: only the first `@` is guarded. */
  function GuardMailLink(t: string): string {
    ReplaceFirst(t, "@", MailGuard)
  }

  /** Reading a guarded label back: the first guarded `@` loses its marker. */
  function UnguardMailLink(g: string): string {
    ReplaceFirst(g, MailGuard, "@")
  }

  /** `IndexOf` finds an occurrence exactly when it is the first one. */
  lemma IndexOfIsFirst(s: string, p: string, i: nat)
    requires OccursAt(s, i, p)
    requires forall k :: 0 <= k < i ==> !OccursAt(s, k, p)
    ensures IndexOf(s, p, 0) == Some(i)
  {
  }

  /** Guarding a label and reading it back gives the label. */
  lemma {:induction false} MailGuardRoundTrip(t: string)
    ensures UnguardMailLink(GuardMailLink(t)) == t
  {
    match IndexOf(t, "@", 0)
    case None =>
      assert GuardMailLink(t) == t;
      forall k | 0 <= k && k + |MailGuard| <= |t|
        ensures !OccursAt(t, k, MailGuard)
      {
        assert !OccursAt(t, k, "@");
        assert t[k..k + 1] == [t[k]];
        assert t[k..k + |MailGuard|][0] == t[k];
      }
    case Some(i) =>
      var g := GuardMailLink(t);
      assert g == t[..i] + MailGuard + t[i + 1..];
      assert OccursAt(g, i, MailGuard) by { assert g[i..i + |MailGuard|] == MailGuard; }
      forall k | 0 <= k < i
        ensures !OccursAt(g, k, MailGuard)
      {
        assert !OccursAt(t, k, "@");
        assert t[k..k + 1] == [t[k]];
        assert g[k] == t[k];
      }
      IndexOfIsFirst(g, MailGuard, i);
      assert UnguardMailLink(g) == g[..i] + "@" + g[i + |MailGuard|..];
      assert g[..i] == t[..i];
      assert g[i + |MailGuard|..] == t[i + 1..];
      assert t[i..i + 1] == "@";
      assert t == t[..i] + "@" + t[i + 1..];
  }

  /** `getUrlIfExists(text, file)`: a markdown link to the uploaded file, or
      nothing when the file was not written. */
  function LinkIfExists(text: string, file: string, surgeDomain: string, fileExists: string -> bool): Option<string> {
    if fileExists(file) then Some("[" + text + "](http://" + surgeDomain + "/" + file + ")") else None
  }

  /** `[htmlUrl, jsonUrl, outputUrl].filter(Boolean)`. */
  function Links(typeName: string, surgeDomain: string, fileExists: string -> bool): seq<string> {
    var candidates := [
      LinkIfExists("html", typeName + ".report.html", surgeDomain, fileExists),
      LinkIfExists("json", typeName + ".report.json", surgeDomain, fileExists),
      LinkIfExists("output", typeName + ".output.txt", surgeDomain, fileExists)
    ];
    (if candidates[0].Some? then [candidates[0].value] else [])
    + (if candidates[1].Some? then [candidates[1].value] else [])
    + (if candidates[2].Some? then [candidates[2].value] else [])
  }

  /** One line of the per-run summary: the pass or fail mark, the links to
      the files that exist, and the guarded label. */
  function RunLine(success: bool, typeName: string, surgeDomain: string, fileExists: string -> bool): string {
    (if success then PassMark else FailMark) + " " + Join(" ", Links(typeName, surgeDomain, fileExists))
      + " " + GuardMailLink(typeName)
  }

  function Header(url: string, surgeDomain: string): string {
    "I ran Lighthouse for " + url + ", here's what I found.\n\n[index](http://" + surgeDomain + ")\n"
  }

  /** `generateComment` throws a TypeError when a run has no `type`, since
      `type.replace` is then called on `undefined`. */
  datatype CommentError = TypeOfUndefined

  predicate AllTyped(runs: seq<SummaryItem>) {
    forall i :: 0 <= i < |runs| ==> runs[i].typeName.Some?
  }

  function RunLines(runs: seq<SummaryItem>, surgeDomain: string, fileExists: string -> bool): (lines: seq<string>)
    requires AllTyped(runs)
    ensures |lines| == |runs|
  {
    seq(|runs|, i requires 0 <= i < |runs| => RunLine(runs[i].success, runs[i].typeName.value, surgeDomain, fileExists))
  }

  /** `generateComment({url, runs, surgeDomain})`. Without a URL the comment
      is the fixed "Could not find URL", whatever the runs are. With one, it
      fails exactly when some run has no `type`; otherwise it is the header
      naming the URL and the index page, then one line per run. */
  function GenerateComment(url: Option<string>, runs: seq<SummaryItem>, surgeDomain: string, fileExists: string -> bool)
    : (r: Result<string, CommentError>)
    ensures url.None? ==> r == Success(NoUrlComment)
    ensures url.Some? ==> (r.Failure? <==> !AllTyped(runs))
    ensures url.Some? && r.Success? ==> StartsWith(r.value, Header(url.value, surgeDomain))
  {
    if url.None? then Success(NoUrlComment)
    else if !AllTyped(runs) then Failure(TypeOfUndefined)
    else
      var h := Header(url.value, surgeDomain);
      var c := h + Join("\n", RunLines(runs, surgeDomain, fileExists));
      assert c[..|h|] == h;
      Success(c)
  }

  /** Every part of a join occurs in the joined text. */
  lemma {:induction false} JoinContainsParts(sep: string, parts: seq<string>, i: nat)
    requires i < |parts|
    ensures exists k :: OccursAt(Join(sep, parts), k, parts[i])
  {
    var j := Join(sep, parts);
    if |parts| == 1 {
      assert OccursAt(j, 0, parts[0]) by { assert j[0..|parts[0]|] == parts[0]; }
    } else if i == 0 {
      assert OccursAt(j, 0, parts[0]) by { assert j[0..|parts[0]|] == parts[0]; }
    } else {
      JoinContainsParts(sep, parts[1..], i - 1);
      var rest := Join(sep, parts[1..]);
      var k :| OccursAt(rest, k, parts[1..][i - 1]);
      OccursAfter(parts[0] + sep, rest, k, parts[i]);
    }
  }

  /** When every run has a label, the comment holds one line for each run,
      marked pass or fail by the run's success. */
  lemma CommentListsEveryRun(url: string, runs: seq<SummaryItem>, surgeDomain: string, fileExists: string -> bool, i: nat)
    requires AllTyped(runs) && i < |runs|
    ensures GenerateComment(Some(url), runs, surgeDomain, fileExists).Success?
    ensures Includes(GenerateComment(Some(url), runs, surgeDomain, fileExists).value,
                     RunLine(runs[i].success, runs[i].typeName.value, surgeDomain, fileExists))
  {
    var h := Header(url, surgeDomain);
    var lines := RunLines(runs, surgeDomain, fileExists);
    var body := Join("\n", lines);
    var c := GenerateComment(Some(url), runs, surgeDomain, fileExists).value;
    assert c == h + body;
    JoinContainsParts("\n", lines, i);
    var k :| OccursAt(body, k, lines[i]);
    OccursAfter(h, body, k, lines[i]);
  }

  /** A run's line starts with the pass mark exactly when the run succeeded. */
  lemma RunLineMarksSuccess(success: bool, typeName: string, surgeDomain: string, fileExists: string -> bool)
    ensures StartsWith(RunLine(success, typeName, surgeDomain, fileExists), PassMark) <==> success
  {
    var line := RunLine(success, typeName, surgeDomain, fileExists);
    assert line[..1] == (if success then PassMark else FailMark);
  }

  /** A run's line links its HTML report exactly when that file exists. */
  lemma RunLineLinksExistingReport(success: bool, typeName: string, surgeDomain: string, fileExists: string -> bool)
    ensures fileExists(typeName + ".report.html") <==>
      Links(typeName, surgeDomain, fileExists) != [] &&
      Links(typeName, surgeDomain, fileExists)[0] == "[html](http://" + surgeDomain + "/" + typeName + ".report.html)"
  {
    var links := Links(typeName, surgeDomain, fileExists);
    if !fileExists(typeName + ".report.html") && links != [] {
      assert links[0][1] == 'j' || links[0][1] == 'o';
    }
  }
}
