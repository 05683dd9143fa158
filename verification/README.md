# lh-issue-runner harness, modelled in Dafny

lh-issue-runner watches the Lighthouse issue tracker. When an issue carries the
`needs-lh-runner` label, or a comment says "LH Runner Go!", it takes the first
URL of the text. It runs that URL through several Lighthouse backends: published
CLI versions, a checkout of Lighthouse master, the PageSpeed Insights (PSI) API
and the Chrome extension. It then uploads the reports and posts a summary
comment back on the issue.

This project models the harness logic between the I/O calls. It covers two
entrypoints: the newer `src/main.js`, with its runners under `src/runners`, and
the older single-file `main.js`.

- `wrappers.dfy`: `Option` and `Result`.
- `text.dfy`: string search, join, ASCII case folding and decimal printing and parsing. These are the primitives the JavaScript gets from `String.prototype`.
- `records.dfy` (module `Records`): run records `{type, output, lhr}` and the values a backend can throw. It also holds `wasRunSuccessfull` and the success summary.
- `utils.dfy` (module `Utils`): `attemptRun`. The race between the operation and the 60-second timer is a datatype, so there are no real timers.
- `cli_runner.dfy` (module `CliRunner`): `cli.run` and `runSingle`.
- `comment_parse.dfy` (module `CommentParse`): both versions of `parseComment`, stated against a declarative description of what `/http[^\s]*/` matches.
- `report.dfy` (module `Report`): `generateComment`. Whether a report file exists is a predicate parameter.
- `versions.dfy` (module `Versions`): `getCliVersions` on the already-parsed list of published versions.
- `dispatch.dfy` (module `Dispatch`):
  - the registry built from `runSettings`;
  - the `driver` loop, summary and comment;
  - the master runner as written and as corrected;
  - the one-time setup loop.
- `polling.dfy` (module `Polling`): the comment-polling cursor.
  - State: `loadState`/`saveState` and the `DRY_RUN` guard.
  - Newer entrypoint: `findComments` and `runForComments`, one page per process run.
  - Older entrypoint: the recursive `runForComments`, checked against a comment history in `updated_at` order.
- `legacy.dfy` (module `Legacy`): the older `driver`, with its fixed run list.

Each backend's behaviour when called is an input: a spawn outcome, a race outcome, or a git head that may be missing. This keeps processes, HTTP and browsers out of the model. A run of the issue tracker is a function from a cursor to the page it returns.

Behaviour of the code that the model keeps, with the lines that show it:

- A runner whose `oneTimeSetup` throws stays in dispatch. The `catch` at src/main.js:330-333 deletes `runner[type]`, a property of the runner module, not the registry entry. See Findings.
- Newer entrypoint:
  - The driver call at src/main.js:303 is awaited outside any `try`. A call that throws ends the loop, and the cursor stays before that comment. The comment at src/main.js:304 says the state is saved only once work was done. The older entrypoint does not await the driver (main.js:374), so there a failing dispatch never holds the cursor back.
  - `findComments` reads one page of 100 comments per process run. The comment at src/main.js:282 says it does not paginate. The cursor moves only to driven comments, so a full page without a trigger is read again on every run (see Findings). The older entrypoint moves the cursor to the page's last comment and fetches again after every non-empty page (main.js:381-385).
- `master.run` returns `execCLI`'s raw `{promise, cancel}` pair (src/runners/master.js:21), so the master entry has no `type` and the comment fails. The dispatch example uses the corrected runner, whose hung run is reported as `lighthouse@master-<sha6>`.

## Model

| member | source | states |
|---|---|---|
| Records.WasRunSuccessful | src/main.js:151-159 | A run succeeds iff its `lhr` is present and has no runtime error, or one whose code is `NO_ERROR` |
| Records.FailureIffMissingOrFatal | main.js:222-230 | The older copy's reading: a run fails iff `lhr` is missing or has a runtime error whose code is not `NO_ERROR`; a missing code counts as fatal |
| Records.Summary | src/main.js:200-209 | One `{success, type}` pair per run, in run order, with `success` equal to `wasRunSuccessfull` of that run and `type` the run's label |
| Records.SummaryAppend | src/main.js:200-209 | The summary of concatenated run lists is the concatenation of their summaries |
| Records.SummarySuccessNeedsResult | src/main.js:151-159 | A pair marks success only for a run record with a Lighthouse result; a raw process handle is a failure with no type |
| Utils.TimeoutError | src/utils.js:75-77 | The timer's error prints as "Error: timed out run for <type>" |
| Utils.AttemptRun | src/utils.js:70-100 | When the operation resolves first: its output and lhr, its label unless the payload sets `type`, and no cancel. On every other path: cancel exactly once if supplied. A failure record has the label and a null lhr. A throw or rejection gives the error text, and a timeout gives the timeout text. It rejects iff a non-success path meets a throwing cancel hook or an error that cannot be stringified |
| Utils.SuccessOnlyWhenResolved | src/utils.js:83-98 | A record that counts as a success comes only from an operation that resolved first with a result, and cancel was not called |
| Utils.TimeoutOutputNamesLabel | src/utils.js:75-98 | A timed-out run is returned, not thrown, and its output contains the backend's label |
| Utils.SyncAndAsyncFailureAgree | src/utils.js:71-98 | A synchronous throw and a rejection of the same value give the same settlement and cancel count, since `.catch(cancelTimeout)` passes the rejection through |
| CliRunner.RunSingle | src/runners/cli.js:19-35 | `runSingle` rejects iff `execFile` threw a value with no text; a throw inside the promise executor rejects the process promise, and `attemptRun` turns it into a record. A record is labelled `lighthouse@<version>`. `cancel` is awaited iff the process did not exit in time. An exited process's output and report are kept, a hung one yields the timeout record, and a spawn error yields its text |
| CliRunner.Kept | src/runners/cli.js:7-14 | At most one kept version per configured version; all are kept iff no `runSingle` rejects |
| CliRunner.CliRuns | src/runners/cli.js:4-17 | Defines the records `cli.run` collects: one per version whose `runSingle` settles, in version order. `CliRunsSpec` states their count, labels and origin |
| CliRunner.CliRunsSpec | src/runners/cli.js:4-17 | `cli.run` gives one record per kept version, labelled with that version in version order, and every successful record is the output and report of a process that exited |
| CliRunner.CliRunsLabels | src/runners/cli.js:7-20 | The labels of `cli.run`'s records are `lighthouse@<v>` for the kept versions, in order |
| CliRunner.CliRunsFromExits | src/runners/cli.js:21-34 | A successful record equals the outcome of some version's process that exited |
| CliRunner.Run | src/runners/cli.js:4-17 | The loop collects at most one record per version, all versions iff no `runSingle` rejects, with version labels in order. `cancel` is awaited once per process that did not exit in time, and successful records come from exited processes |
| CommentParse.RunEnd | src/main.js:115 | `[^\s]*` stops at the first whitespace at or after its start, or at the end |
| CommentParse.FirstUrl | main.js:95-98 | The older `parseComment`: None iff "http" occurs nowhere; otherwise a regular-expression match of the comment |
| CommentParse.RunMatches | src/main.js:115-116 | The run of non-whitespace from the first "http" is a match: it starts with "http", holds no whitespace and is maximal |
| CommentParse.UrlMatchUnique | src/main.js:115 | The regular expression matches at most once: two matches have the same index and text |
| CommentParse.FirstUrlIsTheMatch | main.js:95-98 | The older `parseComment` returns `u` iff `u` is the regular expression's match |
| CommentParse.ParseComment | src/main.js:114-123 | The newer `parseComment` returns the match iff there is one and it does not contain "localhost" |
| CommentParse.FirstMatchDecides | src/main.js:114-123 | The first match alone decides: it is returned unless it mentions "localhost", in which case the result is null, whatever URL follows |
| CommentParse.ParsedUrlShape | src/main.js:115-122 | A returned URL starts with "http", has no whitespace, does not mention "localhost" and occurs contiguously in the comment |
| Report.MailGuardRoundTrip | src/main.js:144-145 | Guarding the first `@` of a label with a zero-width space can be undone exactly |
| Report.RunLines | src/main.js:138-147 | One summary line per run |
| Report.GenerateComment | src/main.js:125-149 | Without a URL the comment is "Could not find URL". With one, it throws iff some run has no `type`, and otherwise starts with the header naming the URL and the index link |
| Report.CommentListsEveryRun | src/main.js:138-148 | When every run has a label the comment is produced, and it contains each run's line |
| Report.RunLine | src/main.js:138-146 | Defines one summary line: the mark, the links to existing files, the guarded label. `RunLineMarksSuccess` and `RunLineLinksExistingReport` state its parts |
| Report.LinkIfExists | src/main.js:130-136 | Defines `getUrlIfExists`: a markdown link to the uploaded file, or nothing when the file was not written. `RunLineLinksExistingReport` states its effect on a line |
| Report.RunLineMarksSuccess | src/main.js:138-146 | A run's line starts with the pass mark iff the run succeeded |
| Report.RunLineLinksExistingReport | src/main.js:130-143 | A run's line starts its links with the HTML report link iff that report file exists |
| Versions.MajorOfSpec | src/main.js:53 | The major is the dot-free prefix of the version, followed by a dot unless it is the whole version |
| Versions.LastOfMajor | src/main.js:51-55 | `lastVersionOfMajor` maps each major to the last listed version with that major; later versions overwrite earlier ones |
| Versions.LastWithMajorTextSpec | src/main.js:51-55 | The reference lookup finds none iff no version has the major, and otherwise the last listed one that has it |
| Versions.CliVersions | src/main.js:42-62 | Defines `getCliVersions` on the parsed list: the last version of the highest major, then of that major minus one. `CliVersionsListed` and `LatestTwoMajors` state what it returns |
| Versions.CliVersionsListed | src/main.js:57-61 | For any list, `getCliVersions` returns two entries, each a listed version or undefined |
| Versions.MaxOfSemver | src/main.js:57 | With numeric majors, `Math.max` over them is finite and is the highest major |
| Versions.MaxIsHighest | src/main.js:57 | `Math.max` of the majors equals the given highest major |
| Versions.LookupByNumber | src/main.js:58-61 | Indexing the map with `String(n)` finds the last version whose major is the number `n` |
| Versions.LastWithMajorFound | src/main.js:59 | A major that some version has is found |
| Versions.LatestTwoMajors | src/main.js:42-62 | `getCliVersions` returns [last version of the highest major, last version of that major minus one, or undefined], and the first is always present |
| Dispatch.Registry | src/main.js:24-27 | A backend is loaded iff its `runSettings` value is truthy |
| Dispatch.DefaultRegistry | src/main.js:12-27 | With the configured settings the loaded runners are cli, psi, master and extension, in that order |
| Dispatch.Invoked | src/main.js:177-184 | The driver calls a backend iff it is loaded and has a settings entry |
| Dispatch.Collect | src/main.js:176-193 | Defines the runs the `driver` loop collects, entry by entry over the settings. `CollectAt`, `CollectAppend` and `CollectKeeps` state its shape |
| Dispatch.CollectAppend | src/main.js:176-193 | The runs of consecutive parts of the settings are concatenated |
| Dispatch.CollectAt | src/main.js:176-193 | The runs are: those collected before entry `i`, then entry `i`'s contribution, then those after it. A throwing, falsy or unloaded runner contributes nothing and does not stop later ones |
| Dispatch.CollectKeeps | src/main.js:176-193 | Any property every contribution's entries have holds for every collected run |
| Dispatch.DispatchStep | src/main.js:177-193 | One more settings entry appends its contribution to the runs, and its backend to the calls when loaded |
| Dispatch.Dispatch | src/main.js:176-193 | The loop's runs are the declaration-order flattening of the results: arrays element-wise, single values once, falsy and thrown values dropped. It calls exactly the loaded backends |
| Dispatch.Driver | src/main.js:161-234 | With no URL, nothing is invoked and the one comment is "Could not find URL". With one, every loaded runner is invoked and the summary has one pair per run. The comment fails iff some run is a raw process handle |
| Dispatch.Attempted | src/runners/psi.js:5-18 | A backend wrapped in `attemptRun` gives the driver exactly its record, or throws when `attemptRun` rejects |
| Dispatch.Sha6 | src/runners/master.js:19 | `substr(0, 6)`: a prefix of the sha of length six, or the whole sha when shorter |
| Dispatch.MasterAsWritten | src/runners/master.js:17-31 | Master throws iff `git rev-parse` fails, and otherwise gives the driver a raw `{promise, cancel}` pair |
| Dispatch.MasterCorrected | src/runners/master.js:17-31 | Master wrapped in `attemptRun`: it throws iff rev-parse fails or the spawn throws a value with no text, and otherwise gives a record labelled `lighthouse@master-<sha6>` |
| Dispatch.HandleBreaksComment | src/main.js:138-148 | A loaded runner that returns a raw handle makes the comment fail |
| Dispatch.MasterAsWrittenBreaksComment | src/runners/master.js:21-30 | As written, with a URL and a working git checkout, the driver's comment always fails |
| Dispatch.CorrectedResultRecords | src/utils.js:88-98 | Corrected, every backend contributes only run records |
| Dispatch.RecordsKeepComment | src/main.js:138-148 | When every contribution is a run record, a comment with a URL is produced |
| Dispatch.MasterCorrectedCommentSucceeds | src/runners/master.js:17-31 | Corrected, a comment with a URL is produced whichever runners are loaded |
| Dispatch.MasterCorrectedTimeout | src/utils.js:75-98 | A hung master run becomes the timeout record labelled `lighthouse@master-<sha6>` |
| Dispatch.ExampleCommentUrl | src/main.js:114-123 | The comment "https://example.com" asks for that URL |
| Dispatch.ExampleRuns | src/main.js:176-193 | In the example scenario the runs are CLI 3.2.1's report, the PSI network error and the master timeout, in that order |
| Dispatch.ExampleSummary | src/main.js:200-209 | The example's summary marks only the CLI run successful |
| Dispatch.ExampleScenario | src/main.js:161-234 | The example's driver call collects those three runs and that summary, and posts its comment |
| Dispatch.SetupFailures | src/main.js:326-335 | The runners whose setup threw are exactly the loaded ones whose hook throws |
| Dispatch.RegistryAfterSetupAsWritten | src/main.js:326-335 | As written, the registry after setup holds every loaded runner |
| Dispatch.RegistryAfterSetup | src/main.js:326-335 | Corrected, the registry after setup holds exactly the loaded runners whose setup did not throw, and its size accounts for the failures |
| Dispatch.FailedSetupStillDispatched | src/main.js:332 | As written, a runner whose setup threw is still invoked by the driver |
| Dispatch.CorrectedSetupSkipsFailed | src/main.js:326-335 | Corrected, the driver invokes a backend iff it is loaded, has a settings entry and its setup did not throw |
| Polling.SaveState | src/main.js:70-73 | Defines `saveState` on the state file: the cursor, or the file unchanged in a dry run. `SaveLoadRoundTrip` states the round trip |
| Polling.LoadState | src/main.js:64-68 | Defines `loadState`: the saved cursor, or the default without a file. `SaveLoadRoundTrip` states the round trip |
| Polling.SaveLoadRoundTrip | src/main.js:64-73 | Loading after saving gives the saved cursor. A dry run leaves the state file unchanged. With no file the cursor is the default |
| Polling.IsTrigger | src/main.js:289 | Defines `/LH Runner Go!/i.test(body)` by folding ASCII case. `TriggerIgnoresCase` states that case does not matter |
| Polling.TriggerIgnoresCase | src/main.js:289 | The phrase test ignores case, and the phrase itself triggers |
| Polling.NotAtMembers | src/main.js:289 | The filter keeps exactly the comments not updated at the cursor |
| Polling.KeepMembers | src/main.js:289 | The body filter keeps exactly the comments whose body matches |
| Polling.TriggersMembers | main.js:369 | The trigger filter keeps exactly the comments holding the phrase |
| Polling.FindComments | src/main.js:281-290 | Defines `findComments` on the fetched page: drop the comments at the cursor, keep those holding the phrase. `FindCommentsKeeps` states its contents |
| Polling.FindCommentsKeeps | src/main.js:281-290 | `findComments` keeps exactly the page's comments not updated at the cursor that hold the phrase |
| Polling.RunForComments | src/main.js:293-308 | Defines the newer `runForComments` loop: drive each comment in order, then move and save the cursor, stopping at the first call that throws. The `RunForComments*` rows state its properties |
| Polling.RunForCommentsPrefix | src/main.js:293-308 | The driven comments are a prefix of the batch, each with a returning driver call. The loop finishes the batch, or stops at the next comment, whose call threw |
| Polling.RunForCommentsCursor | src/main.js:298-307 | After the loop the cursor is the `updated_at` of the last comment whose call returned, unchanged if none did |
| Polling.RunForCommentsSaves | src/main.js:304-306 | One save per returned comment, with its `updated_at`, in order; none in a dry run |
| Polling.RunForCommentsFile | src/main.js:304-306 | The state file ends at the last returned comment's `updated_at`, unchanged in a dry run or when nothing returned |
| Polling.RunForCommentsStopsAtFirstThrow | src/main.js:298-307 | The loop stops at a throw iff some comment's call throws, and every earlier comment returned |
| Polling.SourceCycle | src/main.js:310-348 | Defines one process run of the newer entrypoint's comment path: load, fetch one page, filter, drive. `SourceCycleSpec` states its result |
| Polling.SourceCycleSpec | src/main.js:310-348 | A process run leaves the file alone in a dry run. Unless a call throws, it drives exactly `findComments`' result and leaves the cursor at the last of them, or unchanged if there are none |
| Polling.SourceCursorStalls | src/main.js:281-308 | If the fetched page holds no trigger, every later run fetches the same page and drives nothing |
| Polling.StallExample | src/main.js:281-290 | 100 comments without the phrase followed by a trigger: no number of runs ever drives the trigger |
| Polling.CorrectedCycleSpec | main.js:381-383 | Corrected, a run drives the same triggers and leaves the cursor at the last fetched comment after the cursor |
| Polling.AdvancesPastPage | main.js:381-383 | A run that ends at the page's last comment moves the cursor forward, over exactly the comments it looked at |
| Polling.CorrectedCycleAdvances | main.js:381-385 | Corrected, a run moves the cursor forward whenever a later comment exists, and drives every trigger it moves past |
| Polling.PageAfterCursor | main.js:356-362 | Without the comment at the cursor, a page of an ascending history is the run of comments after the cursor up to the page end |
| Polling.PageLoop | main.js:368-379 | The older page loop dispatches exactly the triggers, in order, and leaves the cursor at the last of them |
| Polling.PageLoopFile | main.js:375-377 | The page loop leaves the file at the cursor, unchanged in a dry run or without triggers |
| Polling.LegacyScan | main.js:355-386 | The older scan never moves the cursor back, and it stops at a cursor whose filtered page is empty |
| Polling.LegacyScanUnfold | main.js:368-385 | One page step dispatches the page's triggers, then continues from the page's last comment |
| Polling.LegacyScanDryRun | main.js:52-55 | A dry-run scan leaves the state file as it was |
| Polling.LegacyScanDispatched | main.js:362-379 | Every dispatched comment holds the phrase and is after the starting cursor and not after the last comment |
| Polling.LegacyScanAtEnd | main.js:381 | A scan from a cursor with no later comment dispatches nothing |
| Polling.LegacyScanComplete | main.js:355-386 | On a history whose timestamps are distinct and ascending, the older scan dispatches exactly the trigger comments after the cursor, in order, each once |
| Polling.TiedTriggerLost | main.js:362-385 | On a sorted history in which a trigger comment shares its second with the last comment of a full page, the older scan dispatches nothing: the next page starts at that second, and the `!= since` filter drops the trigger |
| Legacy.ExecRecord | main.js:127-156 | The older `execCLI`'s record of an exited process keeps the label and output, and has a result iff the process exited cleanly |
| Legacy.LegacyDriver | main.js:232-314 | Defines the older `driver`: no URL gives the notice; otherwise master, the two published versions and PSI are awaited in turn, and the first that throws or never settles decides the outcome. `LegacyDriverOutcome` states it |
| Legacy.LegacyDriverOutcome | main.js:232-264 | The older driver posts "Could not find URL" iff the comment holds no "http". Otherwise it reports iff every awaited step (master's shell steps and process, the two versions' processes, PSI) finishes. It rejects iff the first step that does not finish throws, and never settles iff that step never ends; the processes and the request have no timeout |
| Legacy.LegacyRunLabels | main.js:249-264 | The older run list is labelled master, 4.0.0-beta, 3.2.1, PSI, in that order |
| Legacy.LegacyRunOrder | main.js:249-264 | When the older driver reports, its runs are master (`lighthouse@master-<sha6>`), then `lighthouse@4.0.0-beta`, then `lighthouse@3.2.1`, then PSI |
| Legacy.LegacyReportLists | main.js:232-314 | When it reports: four runs and four summary pairs, each marked by `wasRunSuccessfull`, and a comment that is produced and lists every run's line |
| Legacy.LegacyExecSuccess | main.js:222-230 | A CLI run of the older driver succeeds iff its process exited cleanly with a report free of fatal errors |

## Left out

- Issue-tracker calls (listing issues and comments, posting comments, removing labels), the surge upload, `getContent`, `rimraf`, report and `index.html` writes. These are I/O. A page fetch is a function parameter and file existence is a predicate.
- `execCLI` process spawning, stdout/stderr capture and `kill` (src/utils.js:8-44). A spawn is an abstract outcome: `execFile` throws inside the promise executor, the process exits with output and an optional report, or it hangs. The older `execCLI` (main.js:127-156) has the same outcomes, with no timer to end a hang.
- The `JSON.parse` of the written report in both `execCLI`s (src/utils.js:21, main.js:139). A throw there escapes the callback and is not modelled; a clean exit yields the parsed report.
- src/runners/extension.js: browser automation, download, unzip and manifest patching. Its run is an `attemptRun` race with a cancel hook and a label.
- src/runners/psi.js and the older `runPSI`: the HTTP request, `JSON.parse` and the report write. Their run is a race outcome, or "responds with a body and an optional result".
- src/runners/master.js: the git and yarn shell-outs. Only their outcome is modelled: the head sha, or a throw.
- The DevTools runner: it has no module, is disabled in `runSettings`, and is commented out in the older driver.
- Real timers and `Promise.race` (src/utils.js:74-86). Which side settles first is data.
- The older driver call is not awaited (main.js:374). Its completion order relative to the cursor writes is not modelled, and the older scan's dispatches are the comments handed to the driver.
- `runForIssues`: label-triggered issues and label removal are tracker I/O around the same `driver`.
- `JSON.parse` of npm's version list and of the state file, token and environment reading, and the `process.exit` delay.
- Timestamps are natural numbers, in seconds since the epoch, compared exactly as the JavaScript compares the `updated_at` strings.
- Polling.LegacyScanComplete: stated for a history with distinct timestamps. Timestamps have one-second resolution, and the older scan loses a comment that shares its second with the last comment of a full page, as `TiedTriggerLost` shows. `LegacyScan` also requires that pages never pass the history's last comment, for termination.
- Polling.CorrectedCycleAdvances: stated for a history with distinct timestamps. With ties, moving the cursor to the page's last comment loses the same comments as the older scan.
- Polling.AdvancesPastPage: stated for a history with distinct timestamps, for the same reason.
- Versions.LatestTwoMajors: stated for majors written as canonical decimals. `CliVersionsListed` covers any list. `Number(...)` is modelled only as far as digit strings (the empty string reads as 0) and NaN.
- `/LH Runner Go!/i` is decided by folding ASCII letters. The phrase is ASCII and the test has no `u` flag.

## Findings

| source | as written | input that shows it | evidently intended | confidence | as-written member | corrected member |
|---|---|---|---|---|---|---|
| src/main.js:332 | `delete runner[type]` removes a property of the runner module, not its registry entry | an extension whose `oneTimeSetup` throws | a runner whose setup failed is not dispatched | high; not executed | Dispatch.FailedSetupStillDispatched | Dispatch.CorrectedSetupSkipsFailed |
| src/runners/master.js:21 | `master.run` returns `execCLI`'s raw `{promise, cancel}`, which the driver pushes as a run with no `type`; `generateComment` then calls `type.replace` on undefined | any comment with a URL once `git rev-parse` succeeds | wrap the pair in `attemptRun`, as `runSingle` does at src/runners/cli.js:34 | high; not executed | Dispatch.MasterAsWrittenBreaksComment | Dispatch.MasterCorrectedCommentSucceeds |
| src/main.js:281-308 | the cursor moves only to driven comments, so a page of 100 comments without the phrase is fetched again on every run | 100 comments without the phrase, then one with it | move the cursor past every fetched comment, as main.js:381-383 does | medium; not executed | Polling.StallExample | Polling.CorrectedCycleAdvances |
