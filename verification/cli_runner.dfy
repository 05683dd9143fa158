/** The command-line backend (src/runners/cli.js): one Lighthouse run per
    configured version, each spawned as a process whose promise is raced
    by `attemptRun`, collected in version order. */
module CliRunner {
  import opened Wrappers
  import opened Text
  import opened Records
  import opened Utils

  /** What spawning the Lighthouse CLI for one version does. */
  datatype Spawn =
      /** `execFile` threw synchronously. The throw happens inside the
          promise executor, so the process promise rejects with it. */
    | SpawnThrows(err: Thrown)
      /** The process exited in time. The promise resolves with
          `{output, lhr}`: the captured output, and the report read back
          after a clean exit (null after a failed one). */
    | Exits(output: string, lhr: Option<Lhr>)
      /** The process is still running when the timer fires. */
    | Hangs

  /** `${version}`: a version that is `undefined` prints as "undefined". */
  function VersionText(v: Option<string>): string {
    match v
    case Some(s) => s
    case None => "undefined"
  }

  /** The label `runSingle` gives a version's run. */
  function CliType(v: Option<string>): string {
    "lighthouse@" + VersionText(v)
  }

  /** How the process promise and the timer race. */
  function SpawnRace(spawn: Spawn): Race {
    match spawn
    case SpawnThrows(err) => RejectsFirst(err)
    case Exits(output, lhr) => ResolvesFirst(Payload(None, output, lhr))
    case Hangs => TimerFirst
  }

  /** The spawn threw a value without text (`null` or `undefined`), so
      `err.toString()` in `attemptRun` throws and `runSingle` rejects. */
  predicate Dropped(spawn: Spawn) {
    spawn.SpawnThrows? && ErrorText(spawn.err).None?
  }

  /** `runSingle(url, version)`: the settlement of `attemptRun` over the
      process promise, with `cancel` as the hook. `cancel` kills the process
      when one was started and does nothing otherwise, so it never throws. */
  function RunSingle(v: Option<string>, spawn: Spawn): (a: Attempt)
    ensures a.settlement.Rejected? <==> Dropped(spawn)
    ensures a.settlement.Returned? ==> a.settlement.run.typeName == CliType(v)
    ensures a.cancelCalls == (if spawn.Exits? then 0 else 1)
    ensures spawn.Exits? ==>
      a.settlement.run.output == spawn.output && a.settlement.run.lhr == spawn.lhr
    ensures spawn.Hangs? ==>
      a.settlement.run == RunRecord(CliType(v), "Error: timed out run for " + CliType(v), None)
    ensures spawn.SpawnThrows? && !Dropped(spawn) ==>
      a.settlement.run == RunRecord(CliType(v), ErrorText(spawn.err).value, None)
  {
    AttemptRun(CliType(v), SpawnRace(spawn), Some(Cancels))
  }

  /** The versions whose `runSingle` did not reject, in order. */
  function Kept(versions: seq<Option<string>>, spawns: seq<Spawn>): (k: seq<Option<string>>)
    requires |spawns| == |versions|
    ensures |k| <= |versions|
    ensures |k| == |versions| <==> forall j :: 0 <= j < |spawns| ==> !Dropped(spawns[j])
  {
    if |versions| == 0 then []
    else
      var n := |versions| - 1;
      Kept(versions[..n], spawns[..n]) + (if Dropped(spawns[n]) then [] else [versions[n]])
  }

  /** The records `cli.run` collects, as a recursive definition. */
  function CliRuns(versions: seq<Option<string>>, spawns: seq<Spawn>): seq<RunRecord>
    requires |spawns| == |versions|
  {
    if |versions| == 0 then []
    else
      var n := |versions| - 1;
      var single := RunSingle(versions[n], spawns[n]);
      CliRuns(versions[..n], spawns[..n]) + (if single.settlement.Returned? then [single.settlement.run] else [])
  }

  /** How many times `cancel` was awaited: once for every process that did
      not exit in time. */
  function CancelCount(spawns: seq<Spawn>): nat {
    if |spawns| == 0 then 0
    else CancelCount(spawns[..|spawns| - 1]) + (if spawns[|spawns| - 1].Exits? then 0 else 1)
  }

  function TypeNames(runs: seq<RunRecord>): seq<string> {
    seq(|runs|, i requires 0 <= i < |runs| => runs[i].typeName)
  }

  function CliTypes(versions: seq<Option<string>>): seq<string> {
    seq(|versions|, i requires 0 <= i < |versions| => CliType(versions[i]))
  }

  /** The records of `cli.run`: a version whose `runSingle` rejects is
      skipped; every other version yields exactly one record labelled with
      its version, in version order; a successful record is the report of a
      process that exited. */
  lemma CliRunsSpec(versions: seq<Option<string>>, spawns: seq<Spawn>)
    requires |spawns| == |versions|
    ensures |CliRuns(versions, spawns)| == |Kept(versions, spawns)|
    ensures TypeNames(CliRuns(versions, spawns)) == CliTypes(Kept(versions, spawns))
    ensures forall i :: 0 <= i < |CliRuns(versions, spawns)| && WasRunSuccessful(CliRuns(versions, spawns)[i].lhr) ==>
      exists j :: 0 <= j < |spawns| && spawns[j] == Exits(CliRuns(versions, spawns)[i].output, CliRuns(versions, spawns)[i].lhr)
  {
    CliRunsLabels(versions, spawns);
    CliRunsFromExits(versions, spawns);
  }

  /** One record per kept version, labelled with that version, in order. */
  lemma {:induction false} CliRunsLabels(versions: seq<Option<string>>, spawns: seq<Spawn>)
    requires |spawns| == |versions|
    ensures TypeNames(CliRuns(versions, spawns)) == CliTypes(Kept(versions, spawns))
  {
    if |versions| > 0 {
      var n := |versions| - 1;
      var vs, ss := versions[..n], spawns[..n];
      CliRunsLabels(vs, ss);
      var before := CliRuns(vs, ss);
      var kept := Kept(vs, ss);
      var runs := CliRuns(versions, spawns);
      if !Dropped(spawns[n]) {
        assert TypeNames(runs) == TypeNames(before) + [CliType(versions[n])];
        assert CliTypes(kept + [versions[n]]) == CliTypes(kept) + [CliType(versions[n])];
      } else {
        assert runs == before;
      }
    }
  }

  /** Every successful record is the output and report of a process that
      exited. */
  lemma {:induction false} CliRunsFromExits(versions: seq<Option<string>>, spawns: seq<Spawn>)
    requires |spawns| == |versions|
    ensures forall i :: 0 <= i < |CliRuns(versions, spawns)| && WasRunSuccessful(CliRuns(versions, spawns)[i].lhr) ==>
      exists j :: 0 <= j < |spawns| && spawns[j] == Exits(CliRuns(versions, spawns)[i].output, CliRuns(versions, spawns)[i].lhr)
  {
    if |versions| > 0 {
      var n := |versions| - 1;
      var vs, ss := versions[..n], spawns[..n];
      CliRunsFromExits(vs, ss);
      var before := CliRuns(vs, ss);
      var runs := CliRuns(versions, spawns);
      forall i | 0 <= i < |runs| && WasRunSuccessful(runs[i].lhr)
        ensures exists j :: 0 <= j < |spawns| && spawns[j] == Exits(runs[i].output, runs[i].lhr)
      {
        if i < |before| {
          assert runs[i] == before[i];
          var j :| 0 <= j < |ss| && ss[j] == Exits(before[i].output, before[i].lhr);
          assert spawns[j] == ss[j];
        } else {
          assert spawns[n] == Exits(runs[i].output, runs[i].lhr);
        }
      }
    }
  }

  /** `cli.run(url, {versions})`: runs every version in order and collects
      the records described by `CliRunsSpec`; `cancel` is awaited once for
      every version whose process did not exit in time. */
  method Run(versions: seq<Option<string>>, spawns: seq<Spawn>) returns (runs: seq<RunRecord>, cancels: nat)
    requires |spawns| == |versions|
    ensures runs == CliRuns(versions, spawns)
    ensures |runs| <= |versions|
    ensures |runs| == |versions| <==> forall j :: 0 <= j < |spawns| ==> !Dropped(spawns[j])
    ensures TypeNames(runs) == CliTypes(Kept(versions, spawns))
    ensures cancels == CancelCount(spawns)
    ensures forall i :: 0 <= i < |runs| && WasRunSuccessful(runs[i].lhr) ==>
      exists j :: 0 <= j < |spawns| && spawns[j] == Exits(runs[i].output, runs[i].lhr)
  {
    runs, cancels := [], 0;
    var i := 0;
    while i < |versions|
      invariant 0 <= i <= |versions|
      invariant runs == CliRuns(versions[..i], spawns[..i])
      invariant cancels == CancelCount(spawns[..i])
    {
      assert versions[..i + 1][..i] == versions[..i];
      assert spawns[..i + 1][..i] == spawns[..i];
      var single := RunSingle(versions[i], spawns[i]);
      if single.settlement.Returned? {
        runs := runs + [single.settlement.run];
      }
      cancels := cancels + single.cancelCalls;
      i := i + 1;
    }
    assert versions[..i] == versions;
    assert spawns[..i] == spawns;
    CliRunsSpec(versions, spawns);
  }
}
