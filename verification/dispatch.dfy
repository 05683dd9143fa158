/** The run dispatcher of src/main.js: the registry of backends built from
    the truthy entries of `runSettings`, the `driver` loop that calls every
    registered backend in declaration order and flattens what it returns,
    the success summary, and the comment that reports it. What each backend
    does when called is an input (`results`), so the dispatcher is modelled
    independently of processes, HTTP and browsers. */
module Dispatch {
  import opened Wrappers
  import opened Text
  import opened Records
  import opened Utils
  import opened CliRunner
  import opened CommentParse
  import opened Report

  /** The keys of `runSettings`, each naming a module under src/runners. */
  datatype Backend = Cli | Psi | Master | DevTools | Extension

  /** The value of a `runSettings` entry: the settings object handed to the
      backend's `run`, or a plain flag. */
  datatype Setting =
    | CliSetting(versions: seq<Option<string>>)
    | PsiSetting(key: string)
    | Flag(on: bool)

  /** `runSettings`, in declaration order. */
  function RunSettings(cliVersions: seq<Option<string>>, psiKey: string): seq<(Backend, Setting)> {
    [(Cli, CliSetting(cliVersions)), (Psi, PsiSetting(psiKey)),
     (Master, Flag(true)), (DevTools, Flag(false)), (Extension, Flag(true))]
  }

  /** `Boolean(value)`: every settings object is truthy; a flag is its value. */
  predicate Truthy(s: Setting) {
    !s.Flag? || s.on
  }

  /** `truthyRunners`: the keys whose value is truthy, in declaration order.
      These are the backends whose module is loaded. */
  function Registry(settings: seq<(Backend, Setting)>): (r: seq<Backend>)
    ensures forall b :: b in r <==> exists i :: 0 <= i < |settings| && settings[i].0 == b && Truthy(settings[i].1)
  {
    if |settings| == 0 then []
    else
      var rest := Registry(settings[1..]);
      assert forall i :: 1 <= i < |settings| ==> settings[i] == settings[1..][i - 1];
      (if Truthy(settings[0].1) then [settings[0].0] else []) + rest
  }

  /** With the configured settings, every backend but DevTools is loaded. */
  lemma DefaultRegistry(cliVersions: seq<Option<string>>, psiKey: string)
    ensures Registry(RunSettings(cliVersions, psiKey)) == [Cli, Psi, Master, Extension]
  {
    var s := RunSettings(cliVersions, psiKey);
    assert Registry(s[4..]) == [Extension] by {
      assert s[4..][1..] == s[5..];
    }
    assert Registry(s[3..]) == [Extension] by {
      assert s[3..][1..] == s[4..];
    }
    assert Registry(s[2..]) == [Master, Extension] by {
      assert s[2..][1..] == s[3..];
    }
    assert Registry(s[1..]) == [Psi, Master, Extension] by {
      assert s[1..][1..] == s[2..];
    }
  }

  /** What `await runner.run(url, settings)` gives the driver. */
  datatype RunnerResult =
      /** An array: `cli.run` resolves with its list of records. */
    | Many(entries: seq<Entry>)
      /** A single truthy value. */
    | One(entry: Entry)
      /** `undefined`, `null` or another falsy value. */
    | Falsy
      /** `run` throws or its promise rejects. */
    | Throws

  /** The entries a result adds to `runs`: an array element-wise, a single
      truthy value once, nothing otherwise. */
  function Contribution(r: RunnerResult): seq<Entry> {
    match r
    case Many(es) => es
    case One(e) => [e]
    case Falsy => []
    case Throws => []
  }

  /** Reference for the `driver` loop: the runs collected from the settings
      in order, skipping keys with no loaded runner. */
  function Collect(settings: seq<(Backend, Setting)>, registry: seq<Backend>,
                   results: ((Backend, Setting)) -> RunnerResult): seq<Entry>
  {
    if |settings| == 0 then []
    else
      Contributed(settings[0], registry, results) + Collect(settings[1..], registry, results)
  }

  /** What entry `entry` adds to the runs: nothing unless its runner is loaded. */
  function Contributed(entry: (Backend, Setting), registry: seq<Backend>,
                       results: ((Backend, Setting)) -> RunnerResult): seq<Entry> {
    if entry.0 in registry then Contribution(results(entry)) else []
  }

  /** The backends whose `run` the loop calls, in the order it calls them. */
  function Invoked(settings: seq<(Backend, Setting)>, registry: seq<Backend>): (r: seq<Backend>)
    ensures forall b :: b in r <==> b in registry && exists i :: 0 <= i < |settings| && settings[i].0 == b
  {
    if |settings| == 0 then []
    else
      var rest := Invoked(settings[1..], registry);
      assert forall i :: 1 <= i < |settings| ==> settings[i] == settings[1..][i - 1];
      (if settings[0].0 in registry then [settings[0].0] else []) + rest
  }

  /** Collecting over consecutive parts of the settings concatenates the runs. */
  lemma {:induction false} CollectAppend(a: seq<(Backend, Setting)>, b: seq<(Backend, Setting)>, registry: seq<Backend>,
                                         results: ((Backend, Setting)) -> RunnerResult)
    ensures Collect(a + b, registry, results) == Collect(a, registry, results) + Collect(b, registry, results)
  {
    if |a| == 0 {
      assert a + b == b;
    } else {
      assert (a + b)[0] == a[0];
      assert (a + b)[1..] == a[1..] + b;
      CollectAppend(a[1..], b, registry, results);
    }
  }

  lemma {:induction false} InvokedAppend(a: seq<(Backend, Setting)>, b: seq<(Backend, Setting)>, registry: seq<Backend>)
    ensures Invoked(a + b, registry) == Invoked(a, registry) + Invoked(b, registry)
  {
    if |a| == 0 {
      assert a + b == b;
    } else {
      assert (a + b)[0] == a[0];
      assert (a + b)[1..] == a[1..] + b;
      InvokedAppend(a[1..], b, registry);
    }
  }

  /** The runs are, in order, those collected before entry `i`, then what
      entry `i` contributes (nothing when its runner is not loaded, nothing
      when it throws or gives a falsy value), then those collected after it:
      a failing runner never stops the later ones. */
  lemma CollectAt(settings: seq<(Backend, Setting)>, registry: seq<Backend>,
                  results: ((Backend, Setting)) -> RunnerResult, i: nat)
    requires i < |settings|
    ensures Collect(settings, registry, results)
      == Collect(settings[..i], registry, results)
       + Contributed(settings[i], registry, results)
       + Collect(settings[i + 1..], registry, results)
  {
    assert settings == settings[..i] + [settings[i]] + settings[i + 1..];
    CollectAppend(settings[..i] + [settings[i]], settings[i + 1..], registry, results);
    CollectAppend(settings[..i], [settings[i]], registry, results);
  }

  /** Every collected entry satisfies `P` when every contribution's entries do. */
  lemma {:induction false} CollectKeeps(settings: seq<(Backend, Setting)>, registry: seq<Backend>,
                                        results: ((Backend, Setting)) -> RunnerResult, P: Entry -> bool)
    requires forall i, e :: 0 <= i < |settings| && e in Contribution(results(settings[i])) ==> P(e)
    ensures forall e :: e in Collect(settings, registry, results) ==> P(e)
  {
    if |settings| > 0 {
      assert forall i :: 1 <= i < |settings| ==> settings[i] == settings[1..][i - 1];
      CollectKeeps(settings[1..], registry, results, P);
    }
  }

  /** The `driver` loop (src/main.js:176-193): visits the settings in
      declaration order, calls the loaded runners and appends what they
      return; a throwing runner is logged and skipped. */
  method Dispatch(settings: seq<(Backend, Setting)>, registry: seq<Backend>,
                  results: ((Backend, Setting)) -> RunnerResult)
    returns (runs: seq<Entry>, invoked: seq<Backend>)
    ensures runs == Collect(settings, registry, results)
    ensures invoked == Invoked(settings, registry)
    ensures forall b :: b in invoked <==> b in registry && exists i :: 0 <= i < |settings| && settings[i].0 == b
  {
    runs, invoked := [], [];
    var i := 0;
    while i < |settings|
      invariant 0 <= i <= |settings|
      invariant runs == Collect(settings[..i], registry, results)
      invariant invoked == Invoked(settings[..i], registry)
    {
      DispatchStep(settings, registry, results, i);
      var (backend, _) := settings[i];
      if backend in registry {
        invoked := invoked + [backend];
        var result := results(settings[i]);
        match result {
          case Many(es) => runs := runs + es;
          case One(e) => runs := runs + [e];
          case Falsy =>
          case Throws =>
        }
      }
      i := i + 1;
    }
    assert settings[..i] == settings;
  }

  /** One more entry of the settings adds its contribution to the runs, and
      its backend to the invoked ones when its runner is loaded. */
  lemma DispatchStep(settings: seq<(Backend, Setting)>, registry: seq<Backend>,
                     results: ((Backend, Setting)) -> RunnerResult, i: nat)
    requires i < |settings|
    ensures Collect(settings[..i + 1], registry, results)
      == Collect(settings[..i], registry, results) + Contributed(settings[i], registry, results)
    ensures Invoked(settings[..i + 1], registry)
      == Invoked(settings[..i], registry) + (if settings[i].0 in registry then [settings[i].0] else [])
  {
    var last := [settings[i]];
    assert settings[..i + 1] == settings[..i] + last;
    CollectAppend(settings[..i], last, registry, results);
    InvokedAppend(settings[..i], last, registry);
    CollectOne(settings[i], registry, results);
    InvokedOne(settings[i], registry);
  }

  lemma CollectOne(entry: (Backend, Setting), registry: seq<Backend>, results: ((Backend, Setting)) -> RunnerResult)
    ensures Collect([entry], registry, results) == Contributed(entry, registry, results)
  {
    assert [entry][1..] == [];
    assert Contributed(entry, registry, results) + [] == Contributed(entry, registry, results);
  }

  lemma InvokedOne(entry: (Backend, Setting), registry: seq<Backend>)
    ensures Invoked([entry], registry) == (if entry.0 in registry then [entry.0] else [])
  {
    assert [entry][1..] == [];
  }

  /** What one `driver` call does: which runners it invokes, the runs it
      collects, the summary it writes and the comment it posts (a failure
      when `generateComment` throws). */
  datatype DriverRun = DriverRun(invoked: seq<Backend>, runs: seq<Entry>, summary: seq<SummaryItem>,
                                 comment: Result<string, CommentError>)

  /** `driver({issue, commentText, surgeDomain})` (src/main.js:161-234).
      Without a URL in the comment no runner is invoked and the one comment
      posted is "Could not find URL". With one, every loaded runner is
      invoked, the summary has one item per run, and the comment fails
      exactly when some run is not a run record (and so has no `type`). */
  function Driver(commentText: string, settings: seq<(Backend, Setting)>, registry: seq<Backend>,
                  results: ((Backend, Setting)) -> RunnerResult, surgeDomain: string, fileExists: string -> bool)
    : (d: DriverRun)
    ensures ParseComment(commentText).None? ==>
      d.invoked == [] && d.runs == [] && d.summary == [] && d.comment == Success(NoUrlComment)
    ensures ParseComment(commentText).Some? ==>
      d.invoked == Invoked(settings, registry) && d.runs == Collect(settings, registry, results)
    ensures |d.summary| == |d.runs|
    ensures forall i :: 0 <= i < |d.runs| ==> d.summary[i].success == EntrySucceeded(d.runs[i])
    ensures ParseComment(commentText).Some? ==>
      (d.comment.Failure? <==> exists i :: 0 <= i < |d.runs| && d.runs[i].ProcessHandle?)
  {
    var url := ParseComment(commentText);
    if url.None? then
      DriverRun([], [], [], GenerateComment(None, [], surgeDomain, fileExists))
    else
      var runs := Collect(settings, registry, results);
      var summary := Summary(runs);
      assert AllTyped(summary) <==> forall i :: 0 <= i < |runs| ==> !runs[i].ProcessHandle?;
      DriverRun(Invoked(settings, registry), runs, summary, GenerateComment(url, summary, surgeDomain, fileExists))
  }

  /** What the backends do when called, abstracted from processes, HTTP and
      browsers. */
  datatype Environment = Environment(
    /** The outcome of spawning the Lighthouse CLI for the `i`-th version. */
    cliSpawn: nat -> Spawn,
    /** How the PSI request settles against the timer. */
    psiRace: Race,
    /** The output of `git rev-parse HEAD` in lh-master, None when it throws. */
    masterHead: Option<string>,
    /** The outcome of spawning the lh-master CLI. */
    masterSpawn: Spawn,
    /** The extension's label `Extension@<version>-<chrome version>`. */
    extensionLabel: string,
    /** How the extension run settles against the timer. */
    extensionRace: Race,
    /** The extension's cancel hook, which closes the browser. */
    extensionCancel: CancelHook)

  /** The spawn outcomes of the configured versions, in order. */
  function CliSpawns(env: Environment, versions: seq<Option<string>>): (s: seq<Spawn>)
    ensures |s| == |versions|
  {
    seq(|versions|, i requires 0 <= i < |versions| => env.cliSpawn(i))
  }

  /** `cli.run`: an array of records; it never throws. */
  function CliResult(env: Environment, versions: seq<Option<string>>): RunnerResult {
    var runs := CliRuns(versions, CliSpawns(env, versions));
    Many(seq(|runs|, i requires 0 <= i < |runs| => Record(runs[i])))
  }

  /** A backend wrapped in `attemptRun`: its record, or a throw when
      `attemptRun` itself rejects. */
  function Attempted(typeName: string, race: Race, cancel: Option<CancelHook>): (r: RunnerResult)
    ensures r.One? <==> AttemptRun(typeName, race, cancel).settlement.Returned?
    ensures r.One? ==> r.entry == Record(AttemptRun(typeName, race, cancel).settlement.run)
    ensures !r.Many? && !r.Falsy?
  {
    var a := AttemptRun(typeName, race, cancel);
    if a.settlement.Returned? then One(Record(a.settlement.run)) else Throws
  }

  /** `substr(0, 6)`: at most the first six characters. */
  function Sha6(head: string): (s: string)
    ensures |s| <= 6 && StartsWith(head, s)
    ensures |head| >= 6 ==> |s| == 6
  {
    if |head| <= 6 then head else head[..6]
  }

  /** `lighthouse@master-<sha>`, the label of the lh-master run. */
  function MasterLabel(head: string): string {
    "lighthouse@master-" + Sha6(head)
  }

  /** `master.run` as written (src/runners/master.js:17-31): it throws when
      `git rev-parse` fails, and otherwise returns the `{promise, cancel}`
      pair of `execCLI` itself, which the driver pushes as one run. */
  function MasterAsWritten(env: Environment): (r: RunnerResult)
    ensures r.Throws? <==> env.masterHead.None?
    ensures r.One? ==> r.entry.ProcessHandle?
  {
    if env.masterHead.None? then Throws else One(ProcessHandle)
  }

  /** `master.run` with the pair wrapped in `attemptRun`, as `runSingle`
      does for the published versions (src/runners/cli.js:34). */
  function MasterCorrected(env: Environment): (r: RunnerResult)
    ensures r.Throws? <==> env.masterHead.None? || Dropped(env.masterSpawn)
    ensures r.One? ==> r.entry.Record? && r.entry.run.typeName == MasterLabel(env.masterHead.value)
  {
    match env.masterHead
    case None => Throws
    case Some(head) =>
      var single := RunSingle(Some("master-" + Sha6(head)), env.masterSpawn);
      if single.settlement.Rejected? then Throws else One(Record(single.settlement.run))
  }

  /** What each backend gives the driver, with lh-master as written or
      corrected. DevTools has no module, so it is never called. */
  function SourceResults(env: Environment, masterFixed: bool): ((Backend, Setting)) -> RunnerResult {
    (entry: (Backend, Setting)) => SourceResult(env, masterFixed, entry)
  }

  function SourceResult(env: Environment, masterFixed: bool, entry: (Backend, Setting)): RunnerResult {
    match entry.0
    case Cli => if entry.1.CliSetting? then CliResult(env, entry.1.versions) else Falsy
    case Psi => Attempted("PSI", env.psiRace, None)
    case Master => if masterFixed then MasterCorrected(env) else MasterAsWritten(env)
    case DevTools => Falsy
    case Extension => Attempted(env.extensionLabel, env.extensionRace, Some(env.extensionCancel))
  }

  /** With lh-master as written, every comment holding a URL fails to be
      reported once `git rev-parse` succeeds: the driver throws in
      `generateComment`, because the master entry has no `type`. */
  lemma MasterAsWrittenBreaksComment(commentText: string, cliVersions: seq<Option<string>>, psiKey: string,
                                     env: Environment, surgeDomain: string, fileExists: string -> bool)
    requires ParseComment(commentText).Some? && env.masterHead.Some?
    ensures Driver(commentText, RunSettings(cliVersions, psiKey), Registry(RunSettings(cliVersions, psiKey)),
                   SourceResults(env, false), surgeDomain, fileExists).comment.Failure?
  {
    var settings := RunSettings(cliVersions, psiKey);
    DefaultRegistry(cliVersions, psiKey);
    assert SourceResults(env, false)(settings[2]) == One(ProcessHandle);
    HandleBreaksComment(commentText, settings, Registry(settings), SourceResults(env, false), surgeDomain, fileExists, 2);
  }

  /** A loaded runner that gives the driver something other than a run
      record makes `generateComment` throw. */
  lemma HandleBreaksComment(commentText: string, settings: seq<(Backend, Setting)>, registry: seq<Backend>,
                            results: ((Backend, Setting)) -> RunnerResult, surgeDomain: string,
                            fileExists: string -> bool, i: nat)
    requires ParseComment(commentText).Some?
    requires i < |settings| && settings[i].0 in registry && results(settings[i]) == One(ProcessHandle)
    ensures Driver(commentText, settings, registry, results, surgeDomain, fileExists).comment.Failure?
  {
    CollectAt(settings, registry, results, i);
    var runs := Collect(settings, registry, results);
    var before := Collect(settings[..i], registry, results);
    assert Contributed(settings[i], registry, results) == [ProcessHandle];
    assert runs[|before|] == ProcessHandle;
  }

  /** With lh-master corrected, every run is a labelled record, so a comment
      holding a URL is always reported, whichever runners are loaded. */
  lemma MasterCorrectedCommentSucceeds(commentText: string, cliVersions: seq<Option<string>>, psiKey: string,
                                       registry: seq<Backend>, env: Environment, surgeDomain: string,
                                       fileExists: string -> bool)
    requires ParseComment(commentText).Some?
    ensures Driver(commentText, RunSettings(cliVersions, psiKey), registry,
                   SourceResults(env, true), surgeDomain, fileExists).comment.Success?
  {
    var settings := RunSettings(cliVersions, psiKey);
    var results := SourceResults(env, true);
    forall i, e | 0 <= i < |settings| && e in Contribution(results(settings[i]))
      ensures e.Record?
    {
      assert results(settings[i]) == SourceResult(env, true, settings[i]);
      CorrectedResultRecords(env, settings[i]);
    }
    RecordsKeepComment(commentText, settings, registry, results, surgeDomain, fileExists);
  }

  /** Corrected, every backend gives the driver only run records. */
  lemma CorrectedResultRecords(env: Environment, entry: (Backend, Setting))
    ensures forall e :: e in Contribution(SourceResult(env, true, entry)) ==> e.Record?
  {
    if entry.0 == Cli && entry.1.CliSetting? {
      var runs := CliRuns(entry.1.versions, CliSpawns(env, entry.1.versions));
      assert Contribution(SourceResult(env, true, entry)) == seq(|runs|, k requires 0 <= k < |runs| => Record(runs[k]));
    }
  }

  /** When every runner gives the driver only run records, a comment
      holding a URL is reported. */
  lemma RecordsKeepComment(commentText: string, settings: seq<(Backend, Setting)>, registry: seq<Backend>,
                           results: ((Backend, Setting)) -> RunnerResult, surgeDomain: string,
                           fileExists: string -> bool)
    requires ParseComment(commentText).Some?
    requires forall i, e :: 0 <= i < |settings| && e in Contribution(results(settings[i])) ==> e.Record?
    ensures Driver(commentText, settings, registry, results, surgeDomain, fileExists).comment.Success?
  {
    CollectKeeps(settings, registry, results, (e: Entry) => e.Record?);
    var runs := Collect(settings, registry, results);
    forall i | 0 <= i < |runs|
      ensures !runs[i].ProcessHandle?
    {
      assert runs[i] in runs;
    }
  }

  const ExampleComment := "https://example.com"
  const ExampleUrl := "https://example.com"

  lemma ExampleUrlIsMatch()
    ensures IsUrlMatch(ExampleComment, 0, ExampleUrl)
  {
    var u := ExampleUrl;
    assert u[..|UrlPrefix|] == UrlPrefix;
    forall k | 0 <= k < |u| ensures !IsSpace(u[k]) { }
    assert OccursAt(u, 0, u) by { assert u[0..|u|] == u; }
  }

  lemma ExampleUrlNotLocal()
    ensures !Includes(ExampleUrl, Localhost)
  {
    var u := ExampleUrl;
    forall k | 0 <= k && k + |Localhost| <= |u|
      ensures !OccursAt(u, k, Localhost)
    {
      assert u[k..k + |Localhost|][0] == u[k];
      assert u[k..k + |Localhost|][1] == u[k + 1];
    }
  }

  /** The example comment asks for its URL. */
  lemma ExampleCommentUrl()
    ensures ParseComment(ExampleComment) == Some(ExampleUrl)
  {
    ExampleUrlIsMatch();
    ExampleUrlNotLocal();
    FirstMatchDecides(ExampleComment, 0, ExampleUrl);
  }

  /** The example's backends: CLI 3.2.1 succeeds, the PSI request fails with
      a network error, and lh-master (corrected) times out. */
  predicate ExampleEnvironment(env: Environment, lhr: Lhr, network: string) {
    && env.cliSpawn(0) == Exits("", Some(lhr))
    && env.psiRace == RejectsFirst(ErrorObject("Error", network)) && network != ""
    && env.masterHead == Some("abcdef0123") && env.masterSpawn == Hangs
  }

  const ExampleSettings := RunSettings([Some("3.2.1")], "key")
  const ExampleRegistry := [Cli, Psi, Master]
  const MasterName := "lighthouse@master-abcdef"
  const MasterTimeout := "Error: timed out run for " + MasterName

  lemma ExampleCliResult(env: Environment, lhr: Lhr, network: string)
    requires ExampleEnvironment(env, lhr, network)
    ensures SourceResults(env, true)(ExampleSettings[0]) == Many([Record(RunRecord("lighthouse@3.2.1", "", Some(lhr)))])
  {
    var spawns := CliSpawns(env, [Some("3.2.1")]);
    assert spawns == [Exits("", Some(lhr))];
    assert [Some("3.2.1")][..0] == [] && spawns[..0] == [];
    assert RunSingle(Some("3.2.1"), spawns[0]).settlement.run == RunRecord("lighthouse@3.2.1", "", Some(lhr));
    assert CliRuns([Some("3.2.1")], spawns) == [RunRecord("lighthouse@3.2.1", "", Some(lhr))];
  }

  lemma ExamplePsiResult(env: Environment, lhr: Lhr, network: string)
    requires ExampleEnvironment(env, lhr, network)
    ensures SourceResults(env, true)(ExampleSettings[1]) == One(Record(RunRecord("PSI", "Error: " + network, None)))
  {
  }

  /** Corrected, an lh-master run that hangs yields the timeout record
      labelled with the first six characters of the checked-out sha. */
  lemma MasterCorrectedTimeout(env: Environment)
    requires env.masterHead.Some? && env.masterSpawn == Hangs
    ensures var name := MasterLabel(env.masterHead.value);
      MasterCorrected(env) == One(Record(RunRecord(name, "Error: timed out run for " + name, None)))
  {
    var v := Some("master-" + Sha6(env.masterHead.value));
    assert CliType(v) == MasterLabel(env.masterHead.value);
  }

  lemma ExampleMasterCorrected(env: Environment)
    requires env.masterHead == Some("abcdef0123") && env.masterSpawn == Hangs
    ensures MasterCorrected(env) == One(Record(RunRecord(MasterName, MasterTimeout, None)))
  {
    MasterCorrectedTimeout(env);
    assert Sha6("abcdef0123") == "abcdef0123"[..6] == "abcdef";
    assert MasterLabel(env.masterHead.value) == MasterName;
  }

  lemma ExampleMasterResult(env: Environment)
    requires env.masterHead == Some("abcdef0123") && env.masterSpawn == Hangs
    ensures SourceResults(env, true)(ExampleSettings[2]) == One(Record(RunRecord(MasterName, MasterTimeout, None)))
  {
    assert SourceResults(env, true)(ExampleSettings[2]) == MasterCorrected(env);
    ExampleMasterCorrected(env);
  }

  /** The runs of the example scenario, in order: CLI 3.2.1's report, the
      PSI run whose output is the network error, and the lh-master run whose
      output says it timed out. */
  function ExampleRunList(lhr: Lhr, network: string): seq<Entry> {
    [Record(RunRecord("lighthouse@3.2.1", "", Some(lhr))),
     Record(RunRecord("PSI", "Error: " + network, None)),
     Record(RunRecord(MasterName, MasterTimeout, None))]
  }

  /** The runs of the example scenario, in order. */
  lemma ExampleRuns(env: Environment, lhr: Lhr, network: string)
    requires ExampleEnvironment(env, lhr, network)
    ensures Collect(ExampleSettings, ExampleRegistry, SourceResults(env, true))
      == ExampleRunList(lhr, network)
  {
    var results := SourceResults(env, true);
    CollectFive(ExampleSettings, ExampleRegistry, results);
    ExampleLoadedRuns(env, lhr, network);
    ExampleSkippedRuns(results);
  }

  /** The three loaded runners each contribute one record. */
  lemma ExampleLoadedRuns(env: Environment, lhr: Lhr, network: string)
    requires ExampleEnvironment(env, lhr, network)
    ensures var r, results := ExampleRunList(lhr, network), SourceResults(env, true);
      && Contributed(ExampleSettings[0], ExampleRegistry, results) == [r[0]]
      && Contributed(ExampleSettings[1], ExampleRegistry, results) == [r[1]]
      && Contributed(ExampleSettings[2], ExampleRegistry, results) == [r[2]]
  {
    ExampleCliResult(env, lhr, network);
    ExamplePsiResult(env, lhr, network);
    ExampleMasterResult(env);
  }

  /** DevTools and the extension are not in the example's registry, so
      they contribute nothing. */
  lemma ExampleSkippedRuns(results: ((Backend, Setting)) -> RunnerResult)
    ensures Contributed(ExampleSettings[3], ExampleRegistry, results) == []
    ensures Contributed(ExampleSettings[4], ExampleRegistry, results) == []
  {
  }

  /** The runs collected from five settings, entry by entry. */
  lemma CollectFive(settings: seq<(Backend, Setting)>, registry: seq<Backend>,
                    results: ((Backend, Setting)) -> RunnerResult)
    requires |settings| == 5
    ensures Collect(settings, registry, results)
      == Contributed(settings[0], registry, results) + (Contributed(settings[1], registry, results)
       + (Contributed(settings[2], registry, results) + (Contributed(settings[3], registry, results)
       + Contributed(settings[4], registry, results))))
  {
    var s := settings;
    assert Collect(s[4..], registry, results) == Contributed(s[4], registry, results) by {
      assert s[4..][1..] == s[5..];
      assert Contributed(s[4], registry, results) + [] == Contributed(s[4], registry, results);
    }
    assert Collect(s[3..], registry, results) == Contributed(s[3], registry, results) + Collect(s[4..], registry, results) by {
      assert s[3..][1..] == s[4..];
    }
    assert Collect(s[2..], registry, results) == Contributed(s[2], registry, results) + Collect(s[3..], registry, results) by {
      assert s[2..][1..] == s[3..];
    }
    assert Collect(s[1..], registry, results) == Contributed(s[1], registry, results) + Collect(s[2..], registry, results) by {
      assert s[1..][1..] == s[2..];
    }
  }

  lemma ExampleSummary(lhr: Lhr, network: string)
    requires lhr.runtimeError.None?
    ensures Summary(ExampleRunList(lhr, network)) == [SummaryItem(true, Some("lighthouse@3.2.1")), SummaryItem(false, Some("PSI")),
          SummaryItem(false, Some(MasterName))]
  {
  }

  /** In the example scenario the driver collects exactly the three runs,
      in order, the summary marks only the CLI run as successful, and the
      comment is posted. */
  lemma ExampleScenario(env: Environment, lhr: Lhr, network: string, surgeDomain: string, fileExists: string -> bool)
    requires lhr.runtimeError.None? && ExampleEnvironment(env, lhr, network)
    ensures var d := Driver(ExampleComment, ExampleSettings, ExampleRegistry, SourceResults(env, true), surgeDomain, fileExists);
      && d.summary == [SummaryItem(true, Some("lighthouse@3.2.1")), SummaryItem(false, Some("PSI")),
                       SummaryItem(false, Some(MasterName))]
      && d.runs == ExampleRunList(lhr, network)
      && d.comment.Success?
  {
    ExampleCommentUrl();
    ExampleRuns(env, lhr, network);
    ExampleSummary(lhr, network);
    MasterCorrectedCommentSucceeds(ExampleComment, [Some("3.2.1")], "key", ExampleRegistry, env, surgeDomain, fileExists);
  }
  /** Whether a loaded runner has a `oneTimeSetup` hook, and how it went. */
  datatype SetupOutcome = NoSetupHook | SetupSucceeds | SetupThrows

  /** The runners whose `oneTimeSetup` threw, in registry order. */
  function SetupFailures(registry: seq<Backend>, setup: Backend -> SetupOutcome): (f: seq<Backend>)
    ensures forall b :: b in f <==> b in registry && setup(b) == SetupThrows
  {
    if |registry| == 0 then []
    else
      var rest := SetupFailures(registry[1..], setup);
      assert forall b :: b in registry <==> b == registry[0] || b in registry[1..];
      (if setup(registry[0]) == SetupThrows then [registry[0]] else []) + rest
  }

  /** The setup loop as written (src/main.js:326-335): a failed setup is
      logged, and `delete runner[type]` removes a property of the runner's
      module rather than its registry entry, so the registry the driver
      sees keeps every loaded runner. */
  function RegistryAfterSetupAsWritten(registry: seq<Backend>, setup: Backend -> SetupOutcome): (r: seq<Backend>)
    ensures |r| == |registry|
    ensures forall b :: b in r <==> b in registry
  {
    registry
  }

  /** The setup loop as evidently intended: a runner whose setup threw is
      removed from the registry; the others keep their order. */
  function RegistryAfterSetup(registry: seq<Backend>, setup: Backend -> SetupOutcome): (r: seq<Backend>)
    ensures |r| + |SetupFailures(registry, setup)| == |registry|
    ensures forall b :: b in r <==> b in registry && setup(b) != SetupThrows
  {
    if |registry| == 0 then []
    else
      var rest := RegistryAfterSetup(registry[1..], setup);
      assert forall b :: b in registry <==> b == registry[0] || b in registry[1..];
      (if setup(registry[0]) == SetupThrows then [] else [registry[0]]) + rest
  }

  /** As written, a runner whose setup threw is still invoked by the driver. */
  lemma FailedSetupStillDispatched(settings: seq<(Backend, Setting)>, registry: seq<Backend>,
                                   setup: Backend -> SetupOutcome, i: nat)
    requires i < |settings| && settings[i].0 in registry && setup(settings[i].0) == SetupThrows
    ensures settings[i].0 in SetupFailures(registry, setup)
    ensures settings[i].0 in Invoked(settings, RegistryAfterSetupAsWritten(registry, setup))
  {
  }

  /** Corrected, the driver invokes exactly the loaded runners whose setup
      did not throw. */
  lemma CorrectedSetupSkipsFailed(settings: seq<(Backend, Setting)>, registry: seq<Backend>,
                                  setup: Backend -> SetupOutcome, b: Backend)
    ensures b in Invoked(settings, RegistryAfterSetup(registry, setup)) <==>
      b in registry && setup(b) != SetupThrows && exists i :: 0 <= i < |settings| && settings[i].0 == b
  {
  }
}
