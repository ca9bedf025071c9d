/**
 The bookkeeping of one background loop: the fields the server keeps for it, the
 places that write them, and the health status derived from them. Every value
 `View` below is a snapshot of the fields of a `LoopRecord`.
 */
module LoopState {
  import opened Common

  datatype Outcome = Success | Failed | Stalled | Skipped

  /** How the promise of one attempt's work ended. */
  datatype WorkResult = Value | Nothing | StoppedError | OtherError

  /** What the deadline wrapper around the work reported, if it reported yet. */
  datatype Verdict = Undecided | FromWork(result: WorkResult) | DeadlineHit | StopHit

  datatype Status = StatusStopping | StatusStalled | StatusFailing | StatusOk

  datatype View = View(
    intervalMs: nat,
    deadlineMs: nat,
    registeredAt: nat,
    progressAt: nat,
    lastStartedAt: Option<nat>,
    lastCompletedAt: Option<nat>,
    lastSuccessAt: Option<nat>,
    lastDurationMs: Option<int>,
    consecutiveFailures: nat,
    timeouts: nat,
    running: bool,
    stalled: bool,
    stopped: bool)

  function Registered(intervalMs: nat, deadlineMs: nat, now: nat): View {
    View(intervalMs, deadlineMs, now, now, None, None, None, None, 0, 0, false, false, false)
  }

  function Begun(s: View, now: nat): View {
    s.(running := true, lastStartedAt := Some(now))
  }

  function Recorded(s: View, outcome: Outcome, started: nat, now: nat): View {
    var t := s.(lastCompletedAt := Some(now), lastDurationMs := Some(now - started), progressAt := now);
    match outcome
    case Success => t.(lastSuccessAt := Some(now), consecutiveFailures := 0)
    case Skipped => t.(lastSuccessAt := Some(now), consecutiveFailures := 0)
    case Failed => t.(consecutiveFailures := s.consecutiveFailures + 1)
    case Stalled =>
      t.(consecutiveFailures := s.consecutiveFailures + 1, timeouts := s.timeouts + 1, stalled := true)
  }

  function SettledLate(s: View, now: nat): View {
    if s.stalled then s.(running := false, stalled := false, progressAt := now)
    else s.(running := false)
  }

  /** The outcome of a decided attempt, before a stop is taken into account. */
  function OutcomeOf(v: Verdict): Outcome {
    match v
    case FromWork(Value) => Success
    case FromWork(Nothing) => Skipped
    case FromWork(StoppedError) => Skipped
    case DeadlineHit => Stalled
    case _ => Failed
  }

  /** A stop is not progress: such an attempt is not recorded at all. */
  predicate Cancelled(v: Verdict, stopAborted: bool) {
    v == FromWork(StoppedError) || (OutcomeOf(v) == Failed && stopAborted)
  }

  /** Whether the in-flight guard outlives the attempt, until its work settles. */
  predicate AwaitsSettlement(v: Verdict, stopAborted: bool) {
    v == DeadlineHit || Cancelled(v, stopAborted)
  }

  function Finished(s: View, v: Verdict, stopAborted: bool, started: nat, now: nat): View {
    if Cancelled(v, stopAborted) then s
    else
      var t := Recorded(s, OutcomeOf(v), started, now);
      if v == DeadlineHit then t else t.(running := false)
  }

  function StatusAt(s: View, now: nat): Status {
    if s.stopped then StatusStopping
    else if s.stalled || now - s.progressAt >= s.deadlineMs + s.intervalMs then StatusStalled
    else if s.consecutiveFailures > 0 then StatusFailing
    else StatusOk
  }

  /** The fields of one registered loop, written in place. */
  class LoopRecord {
    const intervalMs: nat
    const deadlineMs: nat
    const registeredAt: nat
    var progressAt: nat
    var lastStartedAt: Option<nat>
    var lastCompletedAt: Option<nat>
    var lastSuccessAt: Option<nat>
    var lastDurationMs: Option<int>
    var consecutiveFailures: nat
    var timeouts: nat
    var running: bool
    var stalled: bool
    var stopped: bool

    ghost function Fields(): View
      reads this
    {
      View(intervalMs, deadlineMs, registeredAt, progressAt, lastStartedAt, lastCompletedAt, lastSuccessAt,
           lastDurationMs, consecutiveFailures, timeouts, running, stalled, stopped)
    }

    constructor (intervalMs: nat, deadlineMs: nat, now: nat)
      ensures Fields() == Registered(intervalMs, deadlineMs, now)
    {
      this.intervalMs, this.deadlineMs, registeredAt, progressAt := intervalMs, deadlineMs, now, now;
      lastStartedAt, lastCompletedAt, lastSuccessAt, lastDurationMs := None, None, None, None;
      consecutiveFailures, timeouts := 0, 0;
      running, stalled, stopped := false, false, false;
    }

    /** One timer tick; `began` says whether it started an attempt. */
    method Tick(now: nat) returns (began: bool)
      modifies this
      ensures began <==> !old(stopped) && !old(running)
      ensures Fields() == if began then Begun(old(Fields()), now) else old(Fields())
    {
      if stopped { return false; }
      if running { return false; }
      running := true;
      lastStartedAt := Some(now);
      return true;
    }

    /** `metricsThrow` stands for a metrics or logging call that throws half way. */
    method Record(outcome: Outcome, started: nat, now: nat, metricsThrow: bool) returns (threw: bool)
      modifies this
      ensures Fields() == Recorded(old(Fields()), outcome, started, now)
      ensures threw == metricsThrow
    {
      lastCompletedAt := Some(now);
      lastDurationMs := Some(now - started);
      progressAt := now;
      if outcome == Success || outcome == Skipped {
        lastSuccessAt := Some(now);
        consecutiveFailures := 0;
      } else {
        consecutiveFailures := consecutiveFailures + 1;
        if outcome == Stalled {
          timeouts := timeouts + 1;
          stalled := true;
          if metricsThrow { return true; }
        }
      }
      return metricsThrow;
    }

    method Settle(now: nat, metricsThrow: bool) returns (threw: bool)
      modifies this
      ensures Fields() == SettledLate(old(Fields()), now)
      ensures threw <==> metricsThrow && old(stalled)
      ensures !running && !stalled && progressAt == (if old(stalled) then now else old(progressAt))
      ensures consecutiveFailures == old(consecutiveFailures) && timeouts == old(timeouts)
    {
      running := false;
      if !stalled { return false; }
      stalled := false;
      progressAt := now;
      return metricsThrow;
    }

    /** The tail of an attempt, once the deadline wrapper has reported. */
    method Finish(v: Verdict, stopAborted: bool, started: nat, now: nat, metricsThrow: bool)
      returns (settleLater: bool)
      requires v != Undecided
      modifies this
      ensures settleLater == AwaitsSettlement(v, stopAborted)
      ensures Fields() == Finished(old(Fields()), v, stopAborted, started, now)
      // A value, or nothing to do, is a success.
      ensures v == FromWork(Value) || v == FromWork(Nothing) ==>
                && consecutiveFailures == 0 && lastSuccessAt == Some(now)
                && timeouts == old(timeouts) && !running && !settleLater
      // An error of the work is a failure, unless a stop had aborted it.
      ensures v == FromWork(OtherError) && !stopAborted ==>
                && consecutiveFailures == old(consecutiveFailures) + 1 && lastSuccessAt == old(lastSuccessAt)
                && timeouts == old(timeouts) && stalled == old(stalled) && !running && !settleLater
      // A deadline is a failure and a stall, and the guard stays up.
      ensures v == DeadlineHit ==>
                && consecutiveFailures == old(consecutiveFailures) + 1 && lastSuccessAt == old(lastSuccessAt)
                && timeouts == old(timeouts) + 1 && stalled && running == old(running) && settleLater
      // Either way the end is on record.
      ensures (|| v == DeadlineHit || v == FromWork(Value) || v == FromWork(Nothing)
               || (v == FromWork(OtherError) && !stopAborted)) ==>
                lastCompletedAt == Some(now) && lastDurationMs == Some(now - started) && progressAt == now
      // What a stop cut short is not recorded at all.
      ensures v == FromWork(StoppedError) || (stopAborted && (v == FromWork(OtherError) || v == StopHit)) ==>
                Fields() == old(Fields()) && settleLater
    {
      var outcome: Outcome;
      match v {
        case FromWork(r) =>
          outcome := if r == Value then Success else if r == OtherError then Failed else Skipped;
        case DeadlineHit => outcome := Stalled;
        case StopHit => outcome := Failed;
      }
      var cancelled := v == FromWork(StoppedError) || (outcome == Failed && stopAborted);
      if cancelled { outcome := Skipped; }
      if !cancelled {
        // A throwing report is swallowed, so the guard below is released either way.
        var _ := Record(outcome, started, now, metricsThrow);
      }
      settleLater := outcome == Stalled || cancelled;
      if !settleLater { running := false; }
    }

    method Stop()
      modifies this
      ensures Fields() == old(Fields()).(stopped := true)
    {
      stopped := true;
    }

    method Health(now: nat) returns (status: Status)
      ensures status == StatusAt(Fields(), now)
      ensures status == StatusStopping <==> stopped
      ensures status == StatusStalled <==> !stopped && (stalled || progressAt + deadlineMs + intervalMs <= now)
      ensures status == StatusFailing || status == StatusOk ==> (status == StatusFailing <==> consecutiveFailures > 0)
    {
      status :=
        if stopped then StatusStopping
        else if stalled || now - progressAt >= deadlineMs + intervalMs then StatusStalled
        else if consecutiveFailures > 0 then StatusFailing
        else StatusOk;
    }
  }
}
