/** `attemptRun` (src/utils.js): runs a backend's asynchronous operation
    against a 60-second timer and turns every outcome into a run record
    `{type, output, lhr}`. The race itself is not modelled with timers: the
    caller says which side settled first. */
module Utils {
  import opened Wrappers
  import opened Text
  import opened Records

  /** The bound of the timer, in milliseconds. */
  const TimeoutMillis: nat := 60 * 1000

  /** The object a backend's operation resolves with, `{output, lhr}`; a
      `type` key in it is `typeKey`, which the spread in `attemptRun` lets
      override it. */
  datatype Payload = Payload(typeKey: Option<string>, output: string, lhr: Option<Lhr>)

  /** How the race between the operation and the timer went. */
  datatype Race =
      /** Calling the operation threw before it returned a promise. */
    | ThrowsSync(err: Thrown)
      /** The operation's promise resolved before the timer fired. */
    | ResolvesFirst(value: Payload)
      /** The operation's promise rejected before the timer fired. The
          `.catch(cancelTimeout)` attached to it runs while `cancelTimeout`
          is still undefined, so it passes the rejection on unchanged. */
    | RejectsFirst(err: Thrown)
      /** The timer fired first; whatever the operation does later is ignored. */
    | TimerFirst

  /** What the backend's `cancel` hook does when `attemptRun` awaits it. */
  datatype CancelHook = Cancels | CancelThrows(err: Thrown)

  /** Why the promise `attemptRun` returns rejects: the cancel hook threw, or
      the caught value was `null`/`undefined` so `err.toString()` threw. */
  datatype Rejection = CancelFailed(err: Thrown) | StringifyFailed

  datatype Settlement = Returned(run: RunRecord) | Rejected(reason: Rejection)

  /** What `attemptRun` settles with, and how many times it called `cancel`. */
  datatype Attempt = Attempt(settlement: Settlement, cancelCalls: nat)

  /** The error the timer rejects with: `new Error("timed out run for <type>")`. */
  function TimeoutError(typeName: string): (e: Thrown)
    ensures ErrorText(e) == Some("Error: timed out run for " + typeName)
  {
    assert "Error" + ": " + ("timed out run for " + typeName) == "Error: timed out run for " + typeName;
    ErrorObject("Error", "timed out run for " + typeName)
  }

  /** The value the `catch` block receives on a path other than success. */
  function Caught(typeName: string, race: Race): Thrown
    requires !race.ResolvesFirst?
  {
    match race
    case ThrowsSync(e) => e
    case RejectsFirst(e) => e
    case TimerFirst => TimeoutError(typeName)
  }

  predicate CancelMayThrow(cancel: Option<CancelHook>) {
    cancel.Some? && cancel.value.CancelThrows?
  }

  /** `attemptRun(type, fn, cancel)`. On success the timer is cleared and the
      payload is spread after `type`. On every other path the cancel hook,
      when given, is awaited once, and the caught value's text becomes the
      output with a null `lhr`. */
  function AttemptRun(typeName: string, race: Race, cancel: Option<CancelHook>): (a: Attempt)
    // success: the payload's fields, the label unless the payload overrides it, no cancel
    ensures race.ResolvesFirst? ==>
      && a.cancelCalls == 0
      && a.settlement.Returned?
      && a.settlement.run.output == race.value.output
      && a.settlement.run.lhr == race.value.lhr
      && a.settlement.run.typeName == (if race.value.typeKey.Some? then race.value.typeKey.value else typeName)
    // every failure path: cancel exactly once when supplied, never otherwise
    ensures !race.ResolvesFirst? ==> a.cancelCalls == (if cancel.Some? then 1 else 0)
    // a record from a failure path has the label and no Lighthouse result
    ensures !race.ResolvesFirst? && a.settlement.Returned? ==>
      a.settlement.run.typeName == typeName && a.settlement.run.lhr.None?
    // a thrown or rejected error becomes the output text
    ensures (race.ThrowsSync? || race.RejectsFirst?) && !CancelMayThrow(cancel) && ErrorText(race.err).Some? ==>
      a.settlement == Returned(RunRecord(typeName, ErrorText(race.err).value, None))
    // a timeout becomes "Error: timed out run for <type>"
    ensures race.TimerFirst? && !CancelMayThrow(cancel) ==>
      a.settlement == Returned(RunRecord(typeName, "Error: timed out run for " + typeName, None))
    // it never rejects, except when the cancel hook throws or the error has no text
    ensures a.settlement.Rejected? <==>
      !race.ResolvesFirst? && (CancelMayThrow(cancel) || ErrorText(Caught(typeName, race)).None?)
  {
    match race
    case ResolvesFirst(p) =>
      Attempt(Returned(RunRecord(p.typeKey.GetOr(typeName), p.output, p.lhr)), 0)
    case _ =>
      var calls := if cancel.Some? then 1 else 0;
      if cancel.Some? && cancel.value.CancelThrows? then
        Attempt(Rejected(CancelFailed(cancel.value.err)), calls)
      else
        match ErrorText(Caught(typeName, race))
        case None => Attempt(Rejected(StringifyFailed), calls)
        case Some(text) => Attempt(Returned(RunRecord(typeName, text, None)), calls)
  }

  /** A run from `attemptRun` can be a success only when the operation
      resolved first with a Lighthouse result; a timeout or an error is
      always a failure. */
  lemma SuccessOnlyWhenResolved(typeName: string, race: Race, cancel: Option<CancelHook>)
    requires AttemptRun(typeName, race, cancel).settlement.Returned?
    requires WasRunSuccessful(AttemptRun(typeName, race, cancel).settlement.run.lhr)
    ensures race.ResolvesFirst? && race.value.lhr.Some?
    ensures AttemptRun(typeName, race, cancel).cancelCalls == 0
  {
  }

  /** The output of a timed-out run names the backend's label. */
  lemma TimeoutOutputNamesLabel(typeName: string, cancel: Option<CancelHook>)
    requires !CancelMayThrow(cancel)
    ensures AttemptRun(typeName, TimerFirst, cancel).settlement.Returned?
    ensures Includes(AttemptRun(typeName, TimerFirst, cancel).settlement.run.output, typeName)
  {
    var out := AttemptRun(typeName, TimerFirst, cancel).settlement.run.output;
    var k := |"Error: timed out run for "|;
    assert OccursAt(out, k, typeName) by {
      assert out[k..k + |typeName|] == typeName;
    }
  }

  /** A synchronous throw and an asynchronous rejection with the same value
      are indistinguishable to the caller. */
  lemma SyncAndAsyncFailureAgree(typeName: string, err: Thrown, cancel: Option<CancelHook>)
    ensures AttemptRun(typeName, ThrowsSync(err), cancel) == AttemptRun(typeName, RejectsFirst(err), cancel)
  {
  }
}
