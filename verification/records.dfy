/** The records the harness passes around: a backend's Lighthouse result,
    the normalized run record `{type, output, lhr}`, the entries of a
    run-set, the success summary, and the values JavaScript code can throw. */
module Records {
  import opened Wrappers

  /** A value a backend throws or rejects with. `err.toString()` is defined
      for an `Error` object and for any other non-nullish value; it throws
      for `null` and `undefined`. */
  datatype Thrown =
    | ErrorObject(name: string, message: string)
    | OtherValue(text: string)
    | Nullish

  /** `err.toString()`, or None when that call itself throws. For an `Error`
      this is `Error.prototype.toString` (section 19.5.3.4 of ECMA-262,
      9th edition). */
  function ErrorText(e: Thrown): Option<string> {
    match e
    case ErrorObject(name, message) =>
      if name == "" then Some(message)
      else if message == "" then Some(name)
      else Some(name + ": " + message)
    case OtherValue(text) => Some(text)
    case Nullish => None
  }

  /** The `runtimeError` of a Lighthouse result; its `code` may be missing. */
  datatype RuntimeError = RuntimeError(code: Option<string>)

  /** The part of a Lighthouse result (`lhr`) the harness reads. */
  datatype Lhr = Lhr(runtimeError: Option<RuntimeError>)

  /** A normalized run `{type, output, lhr}`; `typeName` is the `type` field and
      a null `lhr` is None. */
  datatype RunRecord = RunRecord(typeName: string, output: string, lhr: Option<Lhr>)

  const NoErrorCode := "NO_ERROR"

  /** `wasRunSuccessfull`: a run counts as a success exactly when it has a
      Lighthouse result, and that result carries no runtime error or one
      whose code is `NO_ERROR`. */
  function WasRunSuccessful(lhr: Option<Lhr>): (ok: bool)
    ensures ok <==> lhr.Some? && (lhr.value.runtimeError.None? || lhr.value.runtimeError.value.code == Some(NoErrorCode))
  {
    if lhr.None? then false
    else if lhr.value.runtimeError.Some? && lhr.value.runtimeError.value.code != Some(NoErrorCode) then false
    else true
  }

  /** The negative reading the older entrypoint's copy is written in: a run
      fails exactly when its result is missing or it carries a runtime error
      whose code is not `NO_ERROR` (a missing code counts as not `NO_ERROR`). */
  lemma FailureIffMissingOrFatal(lhr: Option<Lhr>)
    ensures !WasRunSuccessful(lhr) <==>
      (lhr.None? || (lhr.value.runtimeError.Some? && lhr.value.runtimeError.value.code != Some(NoErrorCode)))
  {
  }

  /** One element of the `runs` array the dispatcher builds: a run record, or
      the raw `{promise, cancel}` pair a backend returned without wrapping it
      (it has neither `type`, `output` nor `lhr`). */
  datatype Entry = Record(run: RunRecord) | ProcessHandle

  function EntryType(e: Entry): Option<string> {
    match e
    case Record(r) => Some(r.typeName)
    case ProcessHandle => None
  }

  function EntrySucceeded(e: Entry): bool {
    match e
    case Record(r) => WasRunSuccessful(r.lhr)
    case ProcessHandle => WasRunSuccessful(None)
  }

  /** One `{success, type}` pair of `summary.json`; a missing `type` is None. */
  datatype SummaryItem = SummaryItem(success: bool, typeName: Option<string>)

  /** The success summary: one pair per run, in run order. */
  function Summary(runs: seq<Entry>): (s: seq<SummaryItem>)
    ensures |s| == |runs|
    ensures forall i :: 0 <= i < |runs| ==>
      s[i].typeName == EntryType(runs[i]) && (s[i].success <==> EntrySucceeded(runs[i]))
  {
    seq(|runs|, i requires 0 <= i < |runs| => SummaryItem(EntrySucceeded(runs[i]), EntryType(runs[i])))
  }

  /** The summary of a concatenation of run lists is the concatenation of
      their summaries, so each backend's pairs stay together and in order. */
  lemma SummaryAppend(a: seq<Entry>, b: seq<Entry>)
    ensures Summary(a + b) == Summary(a) + Summary(b)
  {
  }

  /** A summary pair marks success only for a run record whose Lighthouse
      result is present; a raw process handle is always a failure. */
  lemma SummarySuccessNeedsResult(runs: seq<Entry>, i: nat)
    requires i < |runs|
    ensures Summary(runs)[i].success ==> runs[i].Record? && runs[i].run.lhr.Some?
    ensures runs[i].ProcessHandle? ==> !Summary(runs)[i].success && Summary(runs)[i].typeName.None?
  {
  }
}
