/** Extracting the target URL from a comment: `parseComment` in both
    entrypoints, which run the regular expression `http[^\s]*` on the comment. The older one
    (main.js) returns the match as it is; the newer one (src/main.js) also
    refuses a match that mentions `localhost`. */
module CommentParse {
  import opened Wrappers
  import opened Text

  const UrlPrefix := "http"
  const Localhost := "localhost"

  /** Where `[^\s]*` stops when it starts at `j`: the first whitespace
      character at or after `j`, or the end of the text. */
  function RunEnd(s: string, j: nat): (e: nat)
    requires j <= |s|
    ensures j <= e <= |s|
    ensures e == |s| || IsSpace(s[e])
    ensures forall k :: j <= k < e ==> !IsSpace(s[k])
    decreases |s| - j
  {
    if j == |s| || IsSpace(s[j]) then j else RunEnd(s, j + 1)
  }

  /** `u` is what the regular expression matches in `s`, at index `i`: `u` sits at
      `i`, it starts with "http" and holds no whitespace, it runs up to the
      next whitespace or the end, and "http" occurs nowhere before `i`. */
  ghost predicate IsUrlMatch(s: string, i: int, u: string) {
    && OccursAt(s, i, u)
    && StartsWith(u, UrlPrefix)
    && NoSpace(u)
    && (i + |u| == |s| || IsSpace(s[i + |u|]))
    && forall k :: 0 <= k < i ==> !OccursAt(s, k, UrlPrefix)
  }

  /** The older `parseComment` (main.js): the regular expression's match,
      or None when "http" occurs nowhere in the comment. */
  function FirstUrl(s: string): (r: Option<string>)
    ensures r.None? <==> forall k :: !OccursAt(s, k, UrlPrefix)
    ensures r.Some? ==> exists i :: IsUrlMatch(s, i, r.value)
  {
    match IndexOf(s, UrlPrefix, 0)
    case None => None
    case Some(i) =>
      RunMatches(s, i);
      Some(s[i..RunEnd(s, i + |UrlPrefix|)])
  }

  /** The run of non-whitespace starting at the first "http" is the match. */
  lemma RunMatches(s: string, i: nat)
    requires OccursAt(s, i, UrlPrefix)
    requires forall k :: 0 <= k < i ==> !OccursAt(s, k, UrlPrefix)
    ensures IsUrlMatch(s, i, s[i..RunEnd(s, i + |UrlPrefix|)])
  {
    var e := RunEnd(s, i + |UrlPrefix|);
    var u := s[i..e];
    assert OccursAt(s, i, u);
    assert StartsWith(u, UrlPrefix) by { assert u[..|UrlPrefix|] == s[i..i + |UrlPrefix|]; }
    assert NoSpace(u) by {
      forall k | 0 <= k < |u| ensures !IsSpace(u[k]) {
        assert u[k] == s[i + k];
        if k >= |UrlPrefix| {
          assert !IsSpace(s[i + k]);
        } else {
          assert s[i..i + |UrlPrefix|][k] == s[i + k];
        }
      }
    }
  }

  /** The regular expression has at most one match in a text. */
  lemma UrlMatchUnique(s: string, i: int, u: string, j: int, v: string)
    requires IsUrlMatch(s, i, u) && IsUrlMatch(s, j, v)
    ensures i == j && u == v
  {
    assert OccursAt(s, i, UrlPrefix) by { assert s[i..i + |UrlPrefix|] == u[..|UrlPrefix|]; }
    assert OccursAt(s, j, UrlPrefix) by { assert s[j..j + |UrlPrefix|] == v[..|UrlPrefix|]; }
    assert forall k :: i <= k < i + |u| ==> s[k] == u[k - i];
    assert forall k :: j <= k < j + |v| ==> s[k] == v[k - j];
  }

  /** The older `parseComment` returns exactly the regular expression's match. */
  lemma FirstUrlIsTheMatch(s: string, u: string)
    ensures FirstUrl(s) == Some(u) <==> exists i :: IsUrlMatch(s, i, u)
  {
    if i :| IsUrlMatch(s, i, u) {
      assert OccursAt(s, i, UrlPrefix) by { assert s[i..i + |UrlPrefix|] == u[..|UrlPrefix|]; }
      var j :| IsUrlMatch(s, j, FirstUrl(s).value);
      UrlMatchUnique(s, i, u, j, FirstUrl(s).value);
    }
  }

  /** The newer `parseComment` (src/main.js): the match, unless it
      mentions "localhost"; a later clean URL in the same comment is never
      tried. */
  function ParseComment(s: string): (r: Option<string>)
    ensures r.Some? <==> FirstUrl(s).Some? && !Includes(FirstUrl(s).value, Localhost)
    ensures r.Some? ==> r == FirstUrl(s)
  {
    var url := FirstUrl(s);
    if url.Some? && Includes(url.value, Localhost) then None else url
  }

  /** The first match alone decides the newer `parseComment`: it is returned
      when it does not mention "localhost", and nothing is returned when it
      does, whatever follows it in the comment. */
  lemma FirstMatchDecides(s: string, i: int, u: string)
    requires IsUrlMatch(s, i, u)
    ensures ParseComment(s) == (if Includes(u, Localhost) then None else Some(u))
  {
    FirstUrlIsTheMatch(s, u);
  }

  /** A URL the newer `parseComment` returns starts with "http", holds no
      whitespace, does not mention "localhost" and is a contiguous part of
      the comment. */
  lemma ParsedUrlShape(s: string)
    requires ParseComment(s).Some?
    ensures StartsWith(ParseComment(s).value, UrlPrefix)
    ensures NoSpace(ParseComment(s).value)
    ensures !Includes(ParseComment(s).value, Localhost)
    ensures exists i :: OccursAt(s, i, ParseComment(s).value)
  {
  }
}
