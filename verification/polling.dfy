/** The comment-polling cursor. The newer entrypoint (src/main.js) fetches
    one page of at most 100 comments updated since the cursor, keeps the
    trigger comments, and moves the cursor to each comment after its run.
    The older one (main.js) re-queries from the new cursor until a page is
    empty. The issue tracker is a function from a cursor to the page it
    returns; the cursor file is an optional timestamp. */
module Polling {
  import opened Wrappers
  import opened Text

  /** `per_page: 100`. */
  const PerPage: nat := 100

  /** The initial cursor, 2018-12-17T01:01:01Z in seconds since the epoch. */
  const DefaultSince: nat := 1545008461

  /** The phrase `/LH Runner Go!/i` looks for. */
  const TriggerPhrase := "LH Runner Go!"

  /** A comment as the issue tracker lists it; `updated_at` is a timestamp. */
  datatype Comment = Comment(id: nat, body: string, issueUrl: string, updatedAt: nat)

  /** `saveState()`: writes the cursor to the state file, except in a dry run. */
  function SaveState(file: Option<nat>, since: nat, dryRun: bool): Option<nat> {
    if dryRun then file else Some(since)
  }

  /** `loadState()`: the saved cursor, or the default when there is no file. */
  function LoadState(file: Option<nat>): nat {
    file.GetOr(DefaultSince)
  }

  /** Loading after saving gives the saved cursor, and a dry run leaves what
      a later load sees unchanged; with no file the default cursor is used. */
  lemma SaveLoadRoundTrip(file: Option<nat>, since: nat, dryRun: bool)
    ensures LoadState(SaveState(file, since, dryRun)) == (if dryRun then LoadState(file) else since)
    ensures dryRun ==> SaveState(file, since, dryRun) == file
    ensures LoadState(None) == DefaultSince
  {
  }

  /** `/LH Runner Go!/i.test(body)`. The phrase is ASCII, and under the
      `i` flag a character outside ASCII never matches an ASCII one, so
      folding ASCII letters decides the match. */
  predicate IsTrigger(body: string) {
    Includes(FoldString(body), FoldString(TriggerPhrase))
  }

  lemma {:induction false} FoldStringIdempotent(s: string)
    ensures FoldString(FoldString(s)) == FoldString(s)
  {
    var f := FoldString(s);
    forall i | 0 <= i < |s|
      ensures FoldString(f)[i] == f[i]
    {
      assert f[i] == FoldCase(s[i]);
    }
  }

  /** The match ignores case: a comment and its folded text trigger alike,
      and the phrase itself triggers. */
  lemma TriggerIgnoresCase(body: string)
    ensures IsTrigger(FoldString(body)) == IsTrigger(body)
    ensures IsTrigger(TriggerPhrase)
  {
    FoldStringIdempotent(body);
    var p := FoldString(TriggerPhrase);
    assert OccursAt(p, 0, p) by { assert p[0..|p|] == p; }
  }

  /** `filter(c => c.updated_at != state.since)`. */
  function NotAt(page: seq<Comment>, since: nat): seq<Comment>
  {
    if |page| == 0 then []
    else (if page[0].updatedAt != since then [page[0]] else []) + NotAt(page[1..], since)
  }

  /** The comments whose body `matches` accepts, in order. */
  function Keep(cs: seq<Comment>, matches: string -> bool): seq<Comment>
  {
    if |cs| == 0 then []
    else (if matches(cs[0].body) then [cs[0]] else []) + Keep(cs[1..], matches)
  }

  /** The trigger comments, in order. */
  function Triggers(cs: seq<Comment>): seq<Comment>
  {
    Keep(cs, IsTrigger)
  }

  lemma {:induction false} NotAtMembers(page: seq<Comment>, since: nat)
    ensures forall c :: c in NotAt(page, since) <==> c in page && c.updatedAt != since
  {
    if |page| > 0 {
      NotAtMembers(page[1..], since);
      assert forall c :: c in page <==> c == page[0] || c in page[1..];
    }
  }

  lemma {:induction false} KeepMembers(cs: seq<Comment>, matches: string -> bool)
    ensures forall c :: c in Keep(cs, matches) <==> c in cs && matches(c.body)
  {
    if |cs| > 0 {
      KeepMembers(cs[1..], matches);
      assert forall c :: c in cs <==> c == cs[0] || c in cs[1..];
    }
  }

  lemma TriggersMembers(cs: seq<Comment>)
    ensures forall c :: c in Triggers(cs) <==> c in cs && IsTrigger(c.body)
  {
    KeepMembers(cs, IsTrigger);
  }

  lemma {:induction false} KeepNone(cs: seq<Comment>, matches: string -> bool)
    requires forall i :: 0 <= i < |cs| ==> !matches(cs[i].body)
    ensures Keep(cs, matches) == []
  {
    if |cs| > 0 {
      assert forall i :: 0 <= i < |cs[1..]| ==> cs[1..][i] == cs[i + 1];
      KeepNone(cs[1..], matches);
    }
  }

  lemma {:induction false} KeepAppend(a: seq<Comment>, b: seq<Comment>, matches: string -> bool)
    ensures Keep(a + b, matches) == Keep(a, matches) + Keep(b, matches)
  {
    if |a| == 0 {
      assert a + b == b;
    } else {
      var head := if matches(a[0].body) then [a[0]] else [];
      assert (a + b)[0] == a[0];
      assert (a + b)[1..] == a[1..] + b;
      KeepAppend(a[1..], b, matches);
      calc {
        Keep(a + b, matches);
        head + Keep(a[1..] + b, matches);
        head + (Keep(a[1..], matches) + Keep(b, matches));
        (head + Keep(a[1..], matches)) + Keep(b, matches);
      }
    }
  }

  /** `findComments()` on the page the tracker returned: the comments not
      updated exactly at the cursor whose body holds the trigger phrase. */
  function FindComments(page: seq<Comment>, since: nat): seq<Comment> {
    Triggers(NotAt(page, since))
  }

  /** `findComments` keeps exactly the comments of the page that are not
      updated at the cursor and hold the phrase, in page order. */
  lemma FindCommentsKeeps(page: seq<Comment>, since: nat)
    ensures forall c :: c in FindComments(page, since) <==> c in page && c.updatedAt != since && IsTrigger(c.body)
  {
    NotAtMembers(page, since);
    TriggersMembers(NotAt(page, since));
  }

  /** What `runForComments(comments)` did: the cursor and state file after
      it, the comments whose driver call returned, the comment whose driver
      call threw (which ends the loop and the program), and the cursor values
      written. */
  datatype Batch = Batch(since: nat, file: Option<nat>, completed: seq<Comment>, thrownBy: Option<Comment>,
                         saves: seq<nat>)

  function UpdatedAts(cs: seq<Comment>): seq<nat> {
    seq(|cs|, i requires 0 <= i < |cs| => cs[i].updatedAt)
  }

  /** `runForComments(comments)` (src/main.js:293-308): drives the comments
      in order; after each driver call that returns, the cursor becomes that
      comment's `updated_at` and is saved. The first driver call that throws
      ends the loop. */
  function RunForComments(comments: seq<Comment>, since: nat, file: Option<nat>, dryRun: bool,
                          completes: Comment -> bool): Batch
    decreases |comments|
  {
    if |comments| == 0 then Batch(since, file, [], None, [])
    else if !completes(comments[0]) then Batch(since, file, [], Some(comments[0]), [])
    else
      var c, tail := comments[0], comments[1..];
      var rest := RunForComments(tail, c.updatedAt, SaveState(file, c.updatedAt, dryRun), dryRun, completes);
      Batch(rest.since, rest.file, [c] + rest.completed, rest.thrownBy,
            (if dryRun then [] else [c.updatedAt]) + rest.saves)
  }

  /** The comments driven to completion are a prefix of the batch, each of
      whose driver calls returned; the loop either finishes the batch or
      stops at the next comment, whose driver call threw. */
  lemma {:induction false} RunForCommentsPrefix(comments: seq<Comment>, since: nat, file: Option<nat>, dryRun: bool,
                                                completes: Comment -> bool)
    ensures var b := RunForComments(comments, since, file, dryRun, completes);
      && |b.completed| <= |comments| && b.completed == comments[..|b.completed|]
      && (forall i :: 0 <= i < |b.completed| ==> completes(b.completed[i]))
      && (b.thrownBy.None? ==> b.completed == comments)
      && (b.thrownBy.Some? ==>
            |b.completed| < |comments| && b.thrownBy.value == comments[|b.completed|] && !completes(b.thrownBy.value))
    decreases |comments|
  {
    if |comments| > 0 && completes(comments[0]) {
      var c, tail := comments[0], comments[1..];
      var file' := SaveState(file, c.updatedAt, dryRun);
      RunForCommentsPrefix(tail, c.updatedAt, file', dryRun, completes);
      var rest := RunForComments(tail, c.updatedAt, file', dryRun, completes);
      assert comments == [c] + tail;
      assert comments[..1 + |rest.completed|] == [c] + tail[..|rest.completed|];
    }
  }

  /** After `runForComments` the cursor is the `updated_at` of the last
      comment whose driver call returned, unchanged when there is none. */
  lemma {:induction false} RunForCommentsCursor(comments: seq<Comment>, since: nat, file: Option<nat>, dryRun: bool,
                                                completes: Comment -> bool)
    ensures var b := RunForComments(comments, since, file, dryRun, completes);
      b.since == (if b.completed == [] then since else b.completed[|b.completed| - 1].updatedAt)
    decreases |comments|
  {
    if |comments| > 0 && completes(comments[0]) {
      var c, tail := comments[0], comments[1..];
      RunForCommentsCursor(tail, c.updatedAt, SaveState(file, c.updatedAt, dryRun), dryRun, completes);
    }
  }

  /** One save is made per comment whose driver call returned, with that
      comment's `updated_at`, and none in a dry run. */
  lemma {:induction false} RunForCommentsSaves(comments: seq<Comment>, since: nat, file: Option<nat>, dryRun: bool,
                                               completes: Comment -> bool)
    ensures var b := RunForComments(comments, since, file, dryRun, completes);
      b.saves == (if dryRun then [] else UpdatedAts(b.completed))
    decreases |comments|
  {
    if |comments| > 0 && completes(comments[0]) {
      var c, tail := comments[0], comments[1..];
      RunForCommentsSaves(tail, c.updatedAt, SaveState(file, c.updatedAt, dryRun), dryRun, completes);
      var rest := RunForComments(tail, c.updatedAt, SaveState(file, c.updatedAt, dryRun), dryRun, completes);
      assert UpdatedAts([c] + rest.completed) == [c.updatedAt] + UpdatedAts(rest.completed);
    }
  }

  /** The state file ends up holding the `updated_at` of the last comment
      whose driver call returned, except in a dry run or when there is none. */
  lemma {:induction false} RunForCommentsFile(comments: seq<Comment>, since: nat, file: Option<nat>, dryRun: bool,
                                              completes: Comment -> bool)
    ensures var b := RunForComments(comments, since, file, dryRun, completes);
      b.file == (if dryRun || b.completed == [] then file else Some(b.completed[|b.completed| - 1].updatedAt))
    decreases |comments|
  {
    if |comments| > 0 && completes(comments[0]) {
      var c, tail := comments[0], comments[1..];
      RunForCommentsFile(tail, c.updatedAt, SaveState(file, c.updatedAt, dryRun), dryRun, completes);
    }
  }

  /** The loop stops at a throwing driver call exactly when some comment's
      call throws, and that is the first such comment. */
  lemma RunForCommentsStopsAtFirstThrow(comments: seq<Comment>, since: nat, file: Option<nat>, dryRun: bool,
                                        completes: Comment -> bool)
    ensures var b := RunForComments(comments, since, file, dryRun, completes);
      && (b.thrownBy.Some? <==> exists i :: 0 <= i < |comments| && !completes(comments[i]))
      && |b.completed| <= |comments|
      && forall i :: 0 <= i < |b.completed| ==> completes(comments[i])
  {
    var b := RunForComments(comments, since, file, dryRun, completes);
    RunForCommentsPrefix(comments, since, file, dryRun, completes);
    if b.thrownBy.None? {
      assert forall i :: 0 <= i < |comments| ==> completes(comments[i]) by {
        assert b.completed == comments;
      }
    }
    assert forall i :: 0 <= i < |b.completed| ==> comments[i] == b.completed[i];
  }

  /** One run of the newer entrypoint (src/main.js:310-348) as far as
      comments go: load the cursor, fetch and filter the page, drive the
      comments, then save the cursor unless a driver call threw. */
  datatype CycleResult = CycleResult(file: Option<nat>, driven: seq<Comment>, failed: bool)

  function SourceCycle(file: Option<nat>, fetch: nat -> seq<Comment>, dryRun: bool, completes: Comment -> bool)
    : CycleResult
  {
    var since := LoadState(file);
    var b := RunForComments(FindComments(fetch(since), since), since, file, dryRun, completes);
    if b.thrownBy.Some? then CycleResult(b.file, b.completed + [b.thrownBy.value], true)
    else CycleResult(SaveState(b.file, b.since, dryRun), b.completed, false)
  }

  /** A run of the newer entrypoint leaves the state file alone in a dry
      run; when no driver call throws it drives exactly the comments
      `findComments` returned and leaves the cursor at the last of them,
      unchanged when there were none. */
  lemma SourceCycleSpec(file: Option<nat>, fetch: nat -> seq<Comment>, dryRun: bool, completes: Comment -> bool)
    ensures var r := SourceCycle(file, fetch, dryRun, completes);
      && (dryRun ==> r.file == file)
      && (!r.failed ==> r.driven == FindComments(fetch(LoadState(file)), LoadState(file)))
      && (!dryRun && !r.failed ==>
            LoadState(r.file) == (if r.driven == [] then LoadState(file) else r.driven[|r.driven| - 1].updatedAt))
  {
    var since := LoadState(file);
    var comments := FindComments(fetch(since), since);
    RunForCommentsPrefix(comments, since, file, dryRun, completes);
    RunForCommentsCursor(comments, since, file, dryRun, completes);
    RunForCommentsFile(comments, since, file, dryRun, completes);
  }

  /** `n` runs of the newer entrypoint, one after the other, each starting
      from the state file the previous one left; a failed run stops them. */
  function SourceCycles(n: nat, file: Option<nat>, fetch: nat -> seq<Comment>, dryRun: bool,
                        completes: Comment -> bool): CycleResult
  {
    if n == 0 then CycleResult(file, [], false)
    else
      var r := SourceCycle(file, fetch, dryRun, completes);
      if r.failed then r
      else
        var rest := SourceCycles(n - 1, r.file, fetch, dryRun, completes);
        CycleResult(rest.file, r.driven + rest.driven, rest.failed)
  }

  /** A run that moves the cursor past every fetched comment, as the older
      entrypoint does after a page (main.js:381-383): the cursor ends at the
      last fetched comment, whether or not it was a trigger. */
  function CorrectedCycle(file: Option<nat>, fetch: nat -> seq<Comment>, dryRun: bool, completes: Comment -> bool)
    : CycleResult
  {
    var since := LoadState(file);
    var page := NotAt(fetch(since), since);
    var b := RunForComments(Triggers(page), since, file, dryRun, completes);
    if b.thrownBy.Some? then CycleResult(b.file, b.completed + [b.thrownBy.value], true)
    else CycleResult(SaveState(b.file, if page == [] then b.since else page[|page| - 1].updatedAt, dryRun), b.completed, false)
  }

  /** Corrected, a run that no driver call interrupts drives the same
      comments as before, but leaves the cursor at the last comment of the
      page after the cursor, trigger or not. */
  lemma CorrectedCycleSpec(file: Option<nat>, fetch: nat -> seq<Comment>, dryRun: bool, completes: Comment -> bool)
    ensures var r := CorrectedCycle(file, fetch, dryRun, completes);
      var page := NotAt(fetch(LoadState(file)), LoadState(file));
      && (dryRun ==> r.file == file)
      && (!r.failed ==> r.driven == Triggers(page))
      && (!dryRun && !r.failed ==>
            LoadState(r.file) == (if page == [] then LoadState(file) else page[|page| - 1].updatedAt))
  {
    var since := LoadState(file);
    var page := NotAt(fetch(since), since);
    RunForCommentsPrefix(Triggers(page), since, file, dryRun, completes);
    RunForCommentsFile(Triggers(page), since, file, dryRun, completes);
  }

  /** The comment history the tracker holds, in `updated_at` order.
      Timestamps have a resolution of one second, so comments may share
      one. */
  predicate Sorted(store: seq<Comment>) {
    forall i, j :: 0 <= i < j < |store| ==> UpdatedAt(store, i) <= UpdatedAt(store, j)
  }

  /** A history in `updated_at` order in which no two comments share a
      timestamp. */
  predicate Ascending(store: seq<Comment>) {
    forall i, j :: 0 <= i < j < |store| ==> UpdatedAt(store, i) < UpdatedAt(store, j)
  }

  /** The `updated_at` of the comment at index `i` of the history. */
  function UpdatedAt(store: seq<Comment>, i: nat): nat
    requires i < |store|
  {
    store[i].updatedAt
  }

  /** The index of the first comment updated at `t` or later. */
  function First(store: seq<Comment>, t: nat): (k: nat)
    ensures k <= |store|
    ensures forall i :: 0 <= i < k ==> store[i].updatedAt < t
    ensures k < |store| ==> store[k].updatedAt >= t
  {
    FirstFrom(store, t, 0)
  }

  /** The index of the first comment at or after `from` updated at `t` or
      later. */
  function FirstFrom(store: seq<Comment>, t: nat, from: nat): (k: nat)
    requires from <= |store|
    ensures from <= k <= |store|
    ensures forall i :: from <= i < k ==> store[i].updatedAt < t
    ensures k < |store| ==> store[k].updatedAt >= t
    decreases |store| - from
  {
    if from == |store| || store[from].updatedAt >= t then from
    else FirstFrom(store, t, from + 1)
  }

  /** An index with the two properties of `First` is it. */
  lemma FirstUnique(store: seq<Comment>, t: nat, m: nat)
    requires m <= |store|
    requires forall i :: 0 <= i < m ==> store[i].updatedAt < t
    requires m < |store| ==> store[m].updatedAt >= t
    ensures First(store, t) == m
  {
  }

  function Min(a: nat, b: nat): nat {
    if a < b then a else b
  }

  /** The index just after the page the tracker returns for `since: t`. */
  function PageEnd(store: seq<Comment>, t: nat): nat {
    Min(First(store, t) + PerPage, |store|)
  }

  /** The page the tracker returns for `since: t`, `sort: updated`,
      `direction: asc`, `per_page: 100`: the first comments updated at `t`
      or later. */
  function StorePage(store: seq<Comment>, t: nat): seq<Comment> {
    var k := First(store, t);
    store[k..Min(k + PerPage, |store|)]
  }

  function StoreFetch(store: seq<Comment>): nat -> seq<Comment> {
    (t: nat) => StorePage(store, t)
  }

  /** The latest `updated_at` of the history. */
  function Horizon(store: seq<Comment>): nat {
    if |store| == 0 then 0 else store[|store| - 1].updatedAt
  }

  /** The pages a tracker returns never go back before the cursor nor past
      the horizon; this bounds the older entrypoint's recursion. */
  ghost predicate Bounded(fetch: nat -> seq<Comment>, horizon: nat) {
    forall t: nat, i :: 0 <= i < |fetch(t)| ==> t <= fetch(t)[i].updatedAt <= horizon
  }

  lemma StoreBounded(store: seq<Comment>)
    requires Sorted(store)
    ensures Bounded(StoreFetch(store), Horizon(store))
  {
    forall t: nat, i | 0 <= i < |StoreFetch(store)(t)|
      ensures t <= StoreFetch(store)(t)[i].updatedAt <= Horizon(store)
    {
      var k := First(store, t);
      assert StoreFetch(store)(t)[i] == store[k + i];
      if k + i < |store| - 1 {
        assert UpdatedAt(store, k + i) <= UpdatedAt(store, |store| - 1);
      }
      if i > 0 {
        assert UpdatedAt(store, k) <= UpdatedAt(store, k + i);
      }
    }
  }

  /** After dropping the comment updated exactly at the cursor, a page of an
      ascending history is the run of comments updated after the cursor, up
      to the end of the page. */
  lemma PageAfterCursor(store: seq<Comment>, t: nat)
    requires Ascending(store)
    ensures First(store, t) <= First(store, t + 1) <= First(store, t) + 1
    ensures First(store, t + 1) <= Min(First(store, t) + PerPage, |store|)
    ensures NotAt(StorePage(store, t), t) == store[First(store, t + 1)..Min(First(store, t) + PerPage, |store|)]
  {
    var k := First(store, t);
    if k < |store| && store[k].updatedAt == t {
      PageStartsAtCursor(store, t);
    } else {
      PageStartsAfterCursor(store, t);
    }
  }

  lemma PageStartsAtCursor(store: seq<Comment>, t: nat)
    requires Ascending(store)
    requires First(store, t) < |store| && store[First(store, t)].updatedAt == t
    ensures First(store, t + 1) == First(store, t) + 1
    ensures NotAt(StorePage(store, t), t) == store[First(store, t) + 1..Min(First(store, t) + PerPage, |store|)]
  {
    var k := First(store, t);
    var e := Min(k + PerPage, |store|);
    if k + 1 < |store| {
      assert UpdatedAt(store, k) < UpdatedAt(store, k + 1);
    }
    FirstUnique(store, t + 1, k + 1);
    var tail := store[k + 1..e];
    assert StorePage(store, t) == [store[k]] + tail;
    forall i | 0 <= i < |tail|
      ensures tail[i].updatedAt != t
    {
      assert tail[i] == store[k + 1 + i];
      assert UpdatedAt(store, k) < UpdatedAt(store, k + 1 + i);
    }
    NotAtNone(tail, t);
  }

  lemma PageStartsAfterCursor(store: seq<Comment>, t: nat)
    requires Ascending(store)
    requires First(store, t) == |store| || store[First(store, t)].updatedAt != t
    ensures First(store, t + 1) == First(store, t)
    ensures NotAt(StorePage(store, t), t) == StorePage(store, t)
  {
    var k := First(store, t);
    var page := StorePage(store, t);
    FirstUnique(store, t + 1, k);
    forall i | 0 <= i < |page|
      ensures page[i].updatedAt != t
    {
      assert page[i] == store[k + i];
      if i > 0 {
        assert UpdatedAt(store, k) < UpdatedAt(store, k + i);
      }
    }
    NotAtNone(page, t);
  }

  /** When a page holds a comment after the cursor, its last comment is
      after the cursor and the comments after that one start where the page
      ends. */
  lemma NextCursor(store: seq<Comment>, since: nat)
    requires Ascending(store)
    requires First(store, since + 1) < Min(First(store, since) + PerPage, |store|)
    ensures var e := Min(First(store, since) + PerPage, |store|);
      && store[e - 1].updatedAt > since
      && First(store, store[e - 1].updatedAt + 1) == e
  {
    var j := First(store, since + 1);
    var e := Min(First(store, since) + PerPage, |store|);
    var next := store[e - 1].updatedAt;
    assert next > since by {
      if j < e - 1 {
        assert UpdatedAt(store, j) < UpdatedAt(store, e - 1);
      }
    }
    forall i | 0 <= i < e
      ensures store[i].updatedAt < next + 1
    {
      if i < e - 1 {
        assert UpdatedAt(store, i) < UpdatedAt(store, e - 1);
      }
    }
    if e < |store| {
      assert UpdatedAt(store, e - 1) < UpdatedAt(store, e);
    }
    FirstUnique(store, next + 1, e);
  }

  lemma {:induction false} NotAtNone(cs: seq<Comment>, t: nat)
    requires forall i :: 0 <= i < |cs| ==> cs[i].updatedAt != t
    ensures NotAt(cs, t) == cs
  {
    if |cs| > 0 {
      assert forall i :: 0 <= i < |cs[1..]| ==> cs[1..][i] == cs[i + 1];
      NotAtNone(cs[1..], t);
    }
  }

  /** As written, a cycle whose fetched page holds no trigger comment leaves
      the cursor where it was, so every later cycle fetches the same page
      again and drives nothing, whatever comes after that page. */
  lemma {:induction false} SourceCursorStalls(fetch: nat -> seq<Comment>, since: nat, n: nat, completes: Comment -> bool)
    requires FindComments(fetch(since), since) == []
    ensures SourceCycles(n, Some(since), fetch, false, completes) == CycleResult(Some(since), [], false)
  {
    if n > 0 {
      var r := SourceCycle(Some(since), fetch, false, completes);
      SourceCycleSpec(Some(since), fetch, false, completes);
      assert r == CycleResult(Some(since), [], false);
      SourceCursorStalls(fetch, since, n - 1, completes);
    }
  }

  /** A history of 100 comments without the phrase followed by one with it. */
  function StallHistory(): seq<Comment> {
    seq(101, i requires 0 <= i < 101 => Comment(i, if i == 100 then TriggerPhrase else "", "", i + 1))
  }

  /** With the cursor before that history, no number of cycles ever drives
      the trigger comment, although it is after the cursor. */
  lemma StallExample(n: nat, completes: Comment -> bool)
    ensures IsTrigger(StallHistory()[100].body) && StallHistory()[100].updatedAt > 0
    ensures SourceCycles(n, Some(0), StoreFetch(StallHistory()), false, completes).driven == []
  {
    var store := StallHistory();
    TriggerIgnoresCase("");
    assert First(store, 0) == 0;
    var page := StorePage(store, 0);
    assert page == store[0..100];
    assert !IsTrigger("") by {
      assert |FoldString(TriggerPhrase)| > 0;
    }
    NotAtNone(page, 0);
    KeepNone(page, IsTrigger);
    SourceCursorStalls(StoreFetch(store), 0, n, completes);
  }

  /** Corrected, a cycle moves the cursor forward whenever the history holds
      a comment after it, and every trigger comment the cursor moves past
      has been driven: nothing is skipped. */
  lemma CorrectedCycleAdvances(store: seq<Comment>, since: nat, completes: Comment -> bool)
    requires Ascending(store) && First(store, since + 1) < |store|
    ensures var r := CorrectedCycle(Some(since), StoreFetch(store), false, completes);
      !r.failed ==>
        && LoadState(r.file) > since
        && r.driven == Triggers(store[First(store, since + 1)..First(store, LoadState(r.file) + 1)])
  {
    CorrectedCycleSpec(Some(since), StoreFetch(store), false, completes);
    AdvancesPastPage(store, since, CorrectedCycle(Some(since), StoreFetch(store), false, completes));
  }

  /** A run that, unless it fails, drives the triggers of the page after the
      cursor and leaves the cursor at the page's last comment has moved the
      cursor forward, over exactly the comments it looked at. */
  lemma AdvancesPastPage(store: seq<Comment>, since: nat, r: CycleResult)
    requires Ascending(store) && First(store, since + 1) < |store|
    requires var page := NotAt(StoreFetch(store)(since), since);
      !r.failed ==> r.driven == Triggers(page) && LoadState(r.file) == (if page == [] then since else page[|page| - 1].updatedAt)
    ensures !r.failed ==>
      && LoadState(r.file) > since
      && r.driven == Triggers(store[First(store, since + 1)..First(store, LoadState(r.file) + 1)])
  {
    var c, e, next := FetchAhead(store, since);
    if !r.failed {
      assert LoadState(r.file) == next;
      assert First(store, LoadState(r.file) + 1) == e;
    }
  }

  /** What the older `runForComments` did: the cursor, the state file and
      the comments handed to the driver. */
  datatype Scan = Scan(since: nat, file: Option<nat>, dispatched: seq<Comment>)

  /** The loop over one page of the older `runForComments` (main.js:368-379):
      each trigger comment is handed to the driver and moves the cursor to
      its own `updated_at`, which is saved; other comments change nothing. */
  function PageLoop(comments: seq<Comment>, since: nat, file: Option<nat>, dryRun: bool): (p: Scan)
    ensures p.dispatched == Triggers(comments)
    ensures p.since == (if p.dispatched == [] then since else p.dispatched[|p.dispatched| - 1].updatedAt)
    decreases |comments|
  {
    if |comments| == 0 then Scan(since, file, [])
    else
      var c := comments[0];
      TriggersCons(comments);
      if IsTrigger(c.body) then
        var rest := PageLoop(comments[1..], c.updatedAt, SaveState(file, c.updatedAt, dryRun), dryRun);
        Scan(rest.since, rest.file, [c] + rest.dispatched)
      else PageLoop(comments[1..], since, file, dryRun)
  }

  lemma TriggersCons(cs: seq<Comment>)
    requires |cs| > 0
    ensures Triggers(cs) == (if IsTrigger(cs[0].body) then [cs[0]] else []) + Triggers(cs[1..])
  {
  }

  /** The page loop saves the cursor after each trigger comment, so the
      state file ends holding the cursor, except in a dry run or when the
      page has no trigger. */
  lemma {:induction false} PageLoopFile(comments: seq<Comment>, since: nat, file: Option<nat>, dryRun: bool)
    ensures var p := PageLoop(comments, since, file, dryRun);
      p.file == (if dryRun || p.dispatched == [] then file else Some(p.since))
    decreases |comments|
  {
    if |comments| > 0 {
      var c := comments[0];
      if IsTrigger(c.body) {
        PageLoopFile(comments[1..], c.updatedAt, SaveState(file, c.updatedAt, dryRun), dryRun);
      } else {
        PageLoopFile(comments[1..], since, file, dryRun);
      }
    }
  }

  /** The older `runForComments` (main.js:355-386): fetch the page from the
      cursor, drop the comment at the cursor, run the page loop, then move
      the cursor to the last fetched comment, trigger or not, save it and
      fetch again; it stops only at a page with nothing after the cursor. */
  function LegacyScan(fetch: nat -> seq<Comment>, horizon: nat, since: nat, file: Option<nat>, dryRun: bool)
    : (r: Scan)
    requires Bounded(fetch, horizon)
    ensures since <= r.since
    ensures NotAt(fetch(r.since), r.since) == []
    decreases if since <= horizon then horizon - since else 0
  {
    var comments := NotAt(fetch(since), since);
    if |comments| == 0 then Scan(since, file, [])
    else
      var last := comments[|comments| - 1];
      LastAfterCursor(fetch, horizon, since);
      var p := PageLoop(comments, since, file, dryRun);
      var rest := LegacyScan(fetch, horizon, last.updatedAt, SaveState(p.file, last.updatedAt, dryRun), dryRun);
      Scan(rest.since, rest.file, p.dispatched + rest.dispatched)
  }

  /** The last comment of a page after dropping the one at the cursor is
      after the cursor and not after the horizon. */
  lemma LastAfterCursor(fetch: nat -> seq<Comment>, horizon: nat, since: nat)
    requires Bounded(fetch, horizon) && NotAt(fetch(since), since) != []
    ensures var c := NotAt(fetch(since), since);
      since < c[|c| - 1].updatedAt <= horizon
  {
    var c := NotAt(fetch(since), since);
    NotAtMembers(fetch(since), since);
    assert c[|c| - 1] in c;
  }

  /** A dry run of the older scan leaves the state file as it was. */
  lemma {:induction false} LegacyScanDryRun(fetch: nat -> seq<Comment>, horizon: nat, since: nat, file: Option<nat>)
    requires Bounded(fetch, horizon)
    ensures LegacyScan(fetch, horizon, since, file, true).file == file
    decreases if since <= horizon then horizon - since else 0
  {
    var comments := NotAt(fetch(since), since);
    if |comments| > 0 {
      var last := comments[|comments| - 1];
      LastAfterCursor(fetch, horizon, since);
      PageLoopFile(comments, since, file, true);
      LegacyScanDryRun(fetch, horizon, last.updatedAt, file);
    }
  }

  /** Every comment the older scan hands the driver holds the phrase and is
      updated after the starting cursor and not after the horizon. */
  lemma {:induction false} LegacyScanDispatched(fetch: nat -> seq<Comment>, horizon: nat, since: nat, file: Option<nat>,
                                                dryRun: bool)
    requires Bounded(fetch, horizon)
    ensures forall c :: c in LegacyScan(fetch, horizon, since, file, dryRun).dispatched ==>
      IsTrigger(c.body) && since < c.updatedAt <= horizon
    decreases if since <= horizon then horizon - since else 0
  {
    var comments := NotAt(fetch(since), since);
    if |comments| > 0 {
      var last := comments[|comments| - 1];
      LastAfterCursor(fetch, horizon, since);
      var p := PageLoop(comments, since, file, dryRun);
      var file' := SaveState(p.file, last.updatedAt, dryRun);
      LegacyScanDispatched(fetch, horizon, last.updatedAt, file', dryRun);
      NotAtMembers(fetch(since), since);
      TriggersMembers(comments);
      var r := LegacyScan(fetch, horizon, since, file, dryRun);
      assert r.dispatched == p.dispatched + LegacyScan(fetch, horizon, last.updatedAt, file', dryRun).dispatched;
      forall c | c in fetch(since)
        ensures since <= c.updatedAt <= horizon
      {
        var i :| 0 <= i < |fetch(since)| && fetch(since)[i] == c;
      }
    }
  }

  /** A scan from a cursor with no comment after it dispatches nothing. */
  lemma LegacyScanAtEnd(store: seq<Comment>, since: nat, file: Option<nat>, dryRun: bool)
    requires Ascending(store) && First(store, since + 1) == |store|
    ensures Bounded(StoreFetch(store), Horizon(store))
    ensures LegacyScan(StoreFetch(store), Horizon(store), since, file, dryRun).dispatched == []
  {
    StoreBounded(store);
    PageAfterCursor(store, since);
    var k, j := First(store, since), First(store, since + 1);
    assert StoreFetch(store)(since) == StorePage(store, since);
    assert NotAt(StoreFetch(store)(since), since) == store[j..Min(k + PerPage, |store|)];
  }

  /** The comments after the cursor on its page, when there are any: they
      run to the end of the page, and the next cursor is the last of them. */
  lemma PageAhead(store: seq<Comment>, since: nat)
    requires Ascending(store) && First(store, since + 1) < |store|
    ensures First(store, since + 1) < PageEnd(store, since)
    ensures NotAt(StorePage(store, since), since) == store[First(store, since + 1)..PageEnd(store, since)]
    ensures since < store[PageEnd(store, since) - 1].updatedAt <= Horizon(store)
    ensures First(store, store[PageEnd(store, since) - 1].updatedAt + 1) == PageEnd(store, since)
  {
    PageAfterCursor(store, since);
    var e := PageEnd(store, since);
    NextCursor(store, since);
    if e < |store| {
      assert UpdatedAt(store, e - 1) < UpdatedAt(store, |store| - 1);
    }
  }

  /** `PageAhead` for the page the tracker serves: the comments after the
      cursor are `store[j..e]`, and the cursor moves to the last of them, past
      which the first comment is `store[e]`. */
  lemma FetchAhead(store: seq<Comment>, since: nat) returns (c: seq<Comment>, e: nat, next: nat)
    requires Ascending(store) && First(store, since + 1) < |store|
    ensures c == NotAt(StoreFetch(store)(since), since)
    ensures e == PageEnd(store, since) && First(store, since + 1) < e <= |store|
    ensures c == store[First(store, since + 1)..e]
    ensures |c| > 0 && next == c[|c| - 1].updatedAt
    ensures since < next <= Horizon(store)
    ensures First(store, next + 1) == e
  {
    PageAhead(store, since);
    var j := First(store, since + 1);
    e := PageEnd(store, since);
    c := NotAt(StoreFetch(store)(since), since);
    assert StoreFetch(store)(since) == StorePage(store, since);
    LastOfSlice(store, j, e);
    next := c[|c| - 1].updatedAt;
  }

  /** The triggers of a suffix are those of its first part, then the rest. */
  lemma TriggersSplit(s: seq<Comment>, j: nat, e: nat)
    requires j <= e <= |s|
    ensures Triggers(s[j..]) == Triggers(s[j..e]) + Triggers(s[e..])
  {
    SliceSplit(s, j, e);
    KeepAppend(s[j..e], s[e..], IsTrigger);
  }

  lemma SliceSplit(s: seq<Comment>, j: nat, e: nat)
    requires j <= e <= |s|
    ensures s[j..] == s[j..e] + s[e..]
  {
  }

  lemma LastOfSlice(s: seq<Comment>, j: nat, e: nat)
    requires j < e <= |s|
    ensures s[j..e][|s[j..e]| - 1] == s[e - 1]
  {
  }

  /** One step of the older scan: a page with comments after the cursor
      dispatches its triggers, then the scan continues from its last
      comment with the state file the page loop left, saved again. */
  lemma LegacyScanUnfold(fetch: nat -> seq<Comment>, horizon: nat, since: nat, file: Option<nat>, dryRun: bool)
    requires Bounded(fetch, horizon) && NotAt(fetch(since), since) != []
    ensures var c := NotAt(fetch(since), since);
      var next := c[|c| - 1].updatedAt;
      && since < next <= horizon
      && LegacyScan(fetch, horizon, since, file, dryRun).dispatched
        == Triggers(c) + LegacyScan(fetch, horizon, next, SaveState(PageLoop(c, since, file, dryRun).file, next, dryRun), dryRun).dispatched
  {
    LastAfterCursor(fetch, horizon, since);
  }

  /** On a history of comments in `updated_at` order, the older scan hands
      the driver exactly the trigger comments updated after the cursor, in
      order, each once. */
  lemma {:induction false} LegacyScanComplete(store: seq<Comment>, since: nat, file: Option<nat>, dryRun: bool)
    requires Ascending(store)
    ensures Bounded(StoreFetch(store), Horizon(store))
    ensures LegacyScan(StoreFetch(store), Horizon(store), since, file, dryRun).dispatched
      == Triggers(store[First(store, since + 1)..])
    decreases if since <= Horizon(store) then Horizon(store) - since else 0
  {
    var j := First(store, since + 1);
    if j == |store| {
      LegacyScanAtEnd(store, since, file, dryRun);
    } else {
      StoreBounded(store);
      var c, e, next := FetchAhead(store, since);
      var fetch, horizon := StoreFetch(store), Horizon(store);
      LegacyScanUnfold(fetch, horizon, since, file, dryRun);
      var file' := SaveState(PageLoop(c, since, file, dryRun).file, next, dryRun);
      LegacyScanComplete(store, next, file', dryRun);
      TriggersSplit(store, j, e);
    }
  }

  /** A history of 100 comments without the phrase, updated at seconds 1 to
      100, followed by a trigger comment updated in the same second as the
      one before it. */
  function TiedHistory(): seq<Comment> {
    seq(101, i requires 0 <= i < 101 => Comment(i, if i == 100 then TriggerPhrase else "", "", if i == 100 then 100 else i + 1))
  }

  lemma TiedSorted()
    ensures Sorted(TiedHistory())
  {
  }

  /** From the cursor 0 the whole first page is after the cursor and holds
      no trigger; its last comment is updated at 100. */
  lemma TiedFirstPage()
    ensures var c := NotAt(StoreFetch(TiedHistory())(0), 0);
      Triggers(c) == [] && |c| == 100 && c[99].updatedAt == 100
  {
    var store := TiedHistory();
    FirstUnique(store, 0, 0);
    var page := StorePage(store, 0);
    assert page == store[0..100];
    assert !IsTrigger("") by {
      assert |FoldString(TriggerPhrase)| > 0;
    }
    NotAtNone(page, 0);
    KeepNone(page, IsTrigger);
  }

  /** From the cursor 100 the page holds the two comments updated at 100,
      and both are dropped with the cursor. */
  lemma TiedLaterPage()
    ensures NotAt(StoreFetch(TiedHistory())(100), 100) == []
  {
    var store := TiedHistory();
    FirstUnique(store, 100, 99);
    var later := StorePage(store, 100);
    assert later == [store[99], store[100]];
    assert later[1..] == [store[100]];
    assert NotAt(later[1..][1..], 100) == [];
  }

  /** When a comment shares its timestamp with the last comment of a full
      page, the older scan never hands it to the driver: the next page
      starts at that timestamp and the comment is dropped with the one at
      the cursor. */
  lemma TiedTriggerLost(file: Option<nat>, dryRun: bool)
    ensures Sorted(TiedHistory()) && Bounded(StoreFetch(TiedHistory()), Horizon(TiedHistory()))
    ensures IsTrigger(TiedHistory()[100].body) && TiedHistory()[100].updatedAt > 0
    ensures LegacyScan(StoreFetch(TiedHistory()), Horizon(TiedHistory()), 0, file, dryRun).dispatched == []
  {
    var store := TiedHistory();
    TiedSorted();
    StoreBounded(store);
    TriggerIgnoresCase("");
    TiedFirstPage();
    TiedLaterPage();
    LegacyScanUnfold(StoreFetch(store), Horizon(store), 0, file, dryRun);
  }
}
