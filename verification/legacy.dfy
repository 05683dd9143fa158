/** The older entrypoint's `driver` (main.js:232-314): for a comment holding
    a URL it runs a fixed list of backends one after the other (lh-master,
    two published CLI versions, PSI) with no timeout and no error handling,
    then posts the comment. Shell commands, processes and HTTP are
    abstracted into their outcomes. */
module Legacy {
  import opened Wrappers
  import opened Text
  import opened Records
  import opened CommentParse
  import opened Report
  import Dispatch

  /** The published versions the older driver runs, in order. */
  const LegacyVersions := ["4.0.0-beta", "3.2.1"]

  /** How a process spawned by the older `execCLI` ends. The call has no
      timeout and no cancel hook. */
  datatype Exec =
      /** The process exited with an error: the record has no result. */
    | ExitsWithError(output: string)
      /** The process exited cleanly: the report it wrote is read back as the
          result. */
    | ExitsCleanly(output: string, lhr: Lhr)
      /** `execFile` threw inside the promise executor: the promise rejects. */
    | SpawnThrows
      /** The process never exits: the promise never settles. */
    | NeverExits

  predicate Ended(x: Exec) {
    x.ExitsWithError? || x.ExitsCleanly?
  }

  /** How the PSI request goes: it rejects (a failed request or a body that
      is not JSON), it never answers (`getContent` has no timeout), or it
      responds with a body whose `lighthouseResult` may be missing. */
  datatype PsiOutcome = PsiRejects | PsiHangs | PsiResponds(body: string, lhr: Option<Lhr>)

  /** What the backends do when the older driver calls them. */
  datatype LegacyEnv = LegacyEnv(
    /** The output of `git rev-parse HEAD` in lh-master, None when one of
        the shell steps before it (clone, clean, pull, yarn, rev-parse)
        throws. */
    masterHead: Option<string>,
    masterExec: Exec,
    /** The processes of the two published versions, in order. */
    betaExec: Exec,
    stableExec: Exec,
    psi: PsiOutcome)

  /** `execCLI(type, ...)` once the process has exited. */
  function ExecRecord(typeName: string, x: Exec): (r: RunRecord)
    requires Ended(x)
    ensures r.typeName == typeName && r.output == x.output
    ensures r.lhr.Some? <==> x.ExitsCleanly?
  {
    match x
    case ExitsWithError(output) => RunRecord(typeName, output, None)
    case ExitsCleanly(output, lhr) => RunRecord(typeName, output, Some(lhr))
  }

  /** `runCLI({version})`: labelled `lighthouse@<version>`. */
  function CliRecord(version: string, x: Exec): RunRecord
    requires Ended(x)
  {
    ExecRecord("lighthouse@" + version, x)
  }

  /** `runPSI` once the request has responded: the body is the output. */
  function PsiRecord(body: string, lhr: Option<Lhr>): RunRecord {
    RunRecord("PSI", body, lhr)
  }

  /** What one call of the older driver does. */
  datatype LegacyRun =
      /** No URL in the comment: the one comment posted. */
    | NoUrl(notice: string)
      /** A backend threw or rejected; the driver's promise rejects and no
          comment is posted. */
    | Rejected
      /** A backend never settled; neither does the driver, and no comment
          is posted. */
    | Unsettled
      /** All backends ran: the runs in order, the summary and the comment. */
    | Reported(runs: seq<RunRecord>, summary: seq<SummaryItem>, comment: Result<string, CommentError>)

  function Entries(runs: seq<RunRecord>): (es: seq<Entry>)
    ensures |es| == |runs|
    ensures forall i :: 0 <= i < |runs| ==> es[i] == Record(runs[i])
  {
    seq(|runs|, i requires 0 <= i < |runs| => Record(runs[i]))
  }

  /** The runs the older driver pushes when every backend settles without
      throwing, given the sha lh-master is checked out at. */
  function LegacyRuns(head: string, env: LegacyEnv): seq<RunRecord>
    requires Ended(env.masterExec) && Ended(env.betaExec) && Ended(env.stableExec)
    requires env.psi.PsiResponds?
  {
    [ExecRecord(Dispatch.MasterLabel(head), env.masterExec),
     CliRecord(LegacyVersions[0], env.betaExec),
     CliRecord(LegacyVersions[1], env.stableExec),
     PsiRecord(env.psi.body, env.psi.lhr)]
  }

  /** `driver({issue, commentText, surgeDomain})` of the older entrypoint:
      each backend is awaited in turn, and the first one that throws or
      never settles decides the driver's fate. */
  function LegacyDriver(commentText: string, env: LegacyEnv, surgeDomain: string, fileExists: string -> bool)
    : LegacyRun
  {
    var url := FirstUrl(commentText);
    if url.None? then NoUrl(NoUrlComment)
    else if env.masterHead.None? then Rejected
    else if !Ended(env.masterExec) then Halt(env.masterExec)
    else if !Ended(env.betaExec) then Halt(env.betaExec)
    else if !Ended(env.stableExec) then Halt(env.stableExec)
    else if env.psi.PsiRejects? then Rejected
    else if env.psi.PsiHangs? then Unsettled
    else
      var runs := LegacyRuns(env.masterHead.value, env);
      var summary := Summary(Entries(runs));
      Reported(runs, summary, GenerateComment(url, summary, surgeDomain, fileExists))
  }

  /** The driver's fate when it awaits a process that did not exit. */
  function Halt(x: Exec): LegacyRun
    requires !Ended(x)
  {
    if x.SpawnThrows? then Rejected else Unsettled
  }

  /** How one awaited step of the older driver ends. */
  datatype Step = Done | Throws | Pending

  function ExecStep(x: Exec): Step {
    match x
    case SpawnThrows => Throws
    case NeverExits => Pending
    case _ => Done
  }

  function PsiStep(p: PsiOutcome): Step {
    match p
    case PsiRejects => Throws
    case PsiHangs => Pending
    case PsiResponds(_, _) => Done
  }

  /** The driver's awaited steps in order: lh-master (its shell steps, then
      its process), the two published versions, PSI. */
  function Steps(env: LegacyEnv): seq<Step> {
    [if env.masterHead.None? then Throws else ExecStep(env.masterExec),
     ExecStep(env.betaExec), ExecStep(env.stableExec), PsiStep(env.psi)]
  }

  /** Step `i` is the first one that did not finish, and it ended as `s`. */
  predicate FirstStop(steps: seq<Step>, i: int, s: Step) {
    0 <= i < |steps| && steps[i] == s && forall j :: 0 <= j < i ==> steps[j] == Done
  }

  function RunTypes(runs: seq<RunRecord>): seq<string> {
    seq(|runs|, i requires 0 <= i < |runs| => runs[i].typeName)
  }

  /** The older driver posts "Could not find URL" exactly when the comment
      holds no "http". Otherwise it reports exactly when every step
      finishes, rejects exactly when the first step that does not finish
      throws, and never settles exactly when that step never ends. */
  lemma LegacyDriverOutcome(commentText: string, env: LegacyEnv, surgeDomain: string, fileExists: string -> bool)
    ensures var d := LegacyDriver(commentText, env, surgeDomain, fileExists);
      && (d.NoUrl? <==> forall k :: !OccursAt(commentText, k, UrlPrefix))
      && (d.NoUrl? ==> d.notice == "Could not find URL")
      && (d.Reported? <==> FirstUrl(commentText).Some? && forall i :: 0 <= i < 4 ==> Steps(env)[i] == Done)
      && (d.Rejected? <==> FirstUrl(commentText).Some? && exists i :: FirstStop(Steps(env), i, Throws))
      && (d.Unsettled? <==> FirstUrl(commentText).Some? && exists i :: FirstStop(Steps(env), i, Pending))
  {
    var steps := Steps(env);
    var d := LegacyDriver(commentText, env, surgeDomain, fileExists);
    if FirstUrl(commentText).Some? && !d.Reported? {
      var i := if steps[0] != Done then 0 else if steps[1] != Done then 1 else if steps[2] != Done then 2 else 3;
      assert FirstStop(steps, i, steps[i]);
      forall i', s' | FirstStop(steps, i', s') && s' != Done ensures i' == i && s' == steps[i] {
      }
    }
  }

  /** When it reports, the older driver has run lh-master (labelled with the
      first six characters of its sha), then `lighthouse@4.0.0-beta`, then
      `lighthouse@3.2.1`, then PSI. */
  lemma LegacyRunOrder(commentText: string, env: LegacyEnv, surgeDomain: string, fileExists: string -> bool)
    requires LegacyDriver(commentText, env, surgeDomain, fileExists).Reported?
    ensures RunTypes(LegacyDriver(commentText, env, surgeDomain, fileExists).runs)
      == ["lighthouse@master-" + Dispatch.Sha6(env.masterHead.value), "lighthouse@4.0.0-beta", "lighthouse@3.2.1", "PSI"]
  {
    LegacyRunLabels(env.masterHead.value, env);
  }

  lemma LegacyRunLabels(head: string, env: LegacyEnv)
    requires Ended(env.masterExec) && Ended(env.betaExec) && Ended(env.stableExec)
    requires env.psi.PsiResponds?
    ensures RunTypes(LegacyRuns(head, env))
      == ["lighthouse@master-" + Dispatch.Sha6(head), "lighthouse@4.0.0-beta", "lighthouse@3.2.1", "PSI"]
  {
    var runs := LegacyRuns(head, env);
    assert "lighthouse@" + LegacyVersions[0] == "lighthouse@4.0.0-beta";
    assert "lighthouse@" + LegacyVersions[1] == "lighthouse@3.2.1";
    assert RunTypes(runs) == [runs[0].typeName, runs[1].typeName, runs[2].typeName, runs[3].typeName];
  }

  /** When it reports, the summary marks a run successful exactly when
      `wasRunSuccessfull` holds for it, and the comment is posted with one
      line per run. */
  lemma LegacyReportLists(commentText: string, env: LegacyEnv, surgeDomain: string, fileExists: string -> bool, i: nat)
    requires LegacyDriver(commentText, env, surgeDomain, fileExists).Reported?
    requires i < 4
    ensures var d := LegacyDriver(commentText, env, surgeDomain, fileExists);
      && |d.summary| == |d.runs| == 4
      && d.summary[i] == SummaryItem(WasRunSuccessful(d.runs[i].lhr), Some(d.runs[i].typeName))
      && d.comment.Success?
      && Includes(d.comment.value, RunLine(d.summary[i].success, d.runs[i].typeName, surgeDomain, fileExists))
  {
    var d := LegacyDriver(commentText, env, surgeDomain, fileExists);
    var url := FirstUrl(commentText).value;
    assert AllTyped(d.summary);
    CommentListsEveryRun(url, d.summary, surgeDomain, fileExists, i);
  }

  /** A CLI or lh-master run succeeds exactly when its process exited
      cleanly with a report that carries no fatal runtime error. */
  lemma LegacyExecSuccess(typeName: string, x: Exec)
    requires Ended(x)
    ensures WasRunSuccessful(ExecRecord(typeName, x).lhr) <==>
      x.ExitsCleanly? && (x.lhr.runtimeError.None? || x.lhr.runtimeError.value.code == Some(NoErrorCode))
  {
  }
}
