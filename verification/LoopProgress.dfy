/** What the background loops do get done: attempts begin, leases are granted, silence is noticed. */
module LoopProgress {
  import opened Common
  import opened LoopState
  import opened LoopSystem

  // ----- attempts -----

  /** A tick begins an attempt exactly when the loop is neither stopped nor guarded; nothing else does. */
  lemma AttemptBeginsExactly(w: World, act: Action, l: nat)
    requires Enabled(w, act) && l < |w.loops|
    ensures var p, p' := w.loops[l], Apply(w, act).loops[l];
            && |p'.attempts| == |p.attempts| + (if act == Tick(l) && !p.view.stopped && !p.view.running then 1 else 0)
            && (|p'.attempts| > |p.attempts| ==>
                  p'.view.running && p'.view.lastStartedAt == Some(w.store.now)
                  && p'.attempts[|p.attempts|] == NewAttempt(w.store.now))
  {
  }

  /** The work's next `n` stretches when nothing fails and nobody else writes. */
  function Undisturbed(cx: Context, s: Store, t: Task, n: nat): Step
    decreases n
  {
    if n == 0 then Step(t, s, 0)
    else
      var first := WorkStep(cx, s, t, Proceed);
      var rest := Undisturbed(cx, first.store, first.task, n - 1);
      Step(rest.task, rest.store, first.bodies + rest.bodies)
  }

  lemma FirstStretch(cx: Context, s: Store, t: Task, n: nat)
    requires n > 0
    ensures var first := WorkStep(cx, s, t, Proceed);
            var rest := Undisturbed(cx, first.store, first.task, n - 1);
            Undisturbed(cx, s, t, n) == Step(rest.task, rest.store, first.bodies + rest.bodies)
  {
  }

  /** Nobody else holds an unexpired lease. */
  predicate Free(s: Store, me: Holder) {
    s.bucket.None? || s.bucket.value.record.holder == me || s.bucket.value.record.expiresAt <= s.now
  }

  /** The stretches an undisturbed acquisition takes. */
  function AcquireSteps(s: Store, me: Holder): nat {
    if s.bucket.None? then 1 else if Free(s, me) then 4 else 3
  }

  lemma NoStretch(cx: Context, s: Store, t: Task)
    ensures Undisturbed(cx, s, t, 0) == Step(t, s, 0)
  {
  }

  /** From the judgement of a record that is still there. */
  lemma JudgedExactly(cx: Context, s: Store, t: Task, expiresAt: nat)
    requires s.bucket.Some? && t.phase == Judging(expiresAt, s.bucket.value)
    ensures Undisturbed(cx, s, t, if Free(s, cx.me) then 2 else 1) ==
            if Free(s, cx.me) then Step(t.(phase := Granted), Put(s, LockRecord(cx.me, expiresAt)), 0)
            else Step(t.(phase := Refused), s, 0)
  {
    hide Undisturbed;
    var next := WorkStep(cx, s, t, Proceed).task;
    if Free(s, cx.me) {
      assert next == t.(phase := Swapping(expiresAt, s.bucket.value.etag));
      FirstStretch(cx, s, t, 2);
      FirstStretch(cx, s, next, 1);
      NoStretch(cx, Put(s, LockRecord(cx.me, expiresAt)), t.(phase := Granted));
    } else {
      FirstStretch(cx, s, t, 1);
      NoStretch(cx, s, next);
    }
  }

  /** An undisturbed acquisition is granted if and only if the lease is free, and then the object names the attempt. */
  lemma LeaseIsGrantedExactly(cx: Context, s: Store, t: Task, expiresAt: nat)
    requires t.phase == Creating(expiresAt)
    ensures Undisturbed(cx, s, t, AcquireSteps(s, cx.me)) ==
            if Free(s, cx.me) then Step(t.(phase := Granted), Put(s, LockRecord(cx.me, expiresAt)), 0)
            else Step(t.(phase := Refused), s, 0)
  {
    hide Undisturbed;
    var n := AcquireSteps(s, cx.me);
    FirstStretch(cx, s, t, n);
    if s.bucket.None? {
      NoStretch(cx, Put(s, LockRecord(cx.me, expiresAt)), t.(phase := Granted));
    } else {
      var reading := t.(phase := ReadingLease(expiresAt));
      FirstStretch(cx, s, reading, n - 1);
      JudgedExactly(cx, s, t.(phase := Judging(expiresAt, s.bucket.value)), expiresAt);
    }
  }

  /** Entering the acquisition, and running once it is granted. */
  lemma FreeLeaseRuns(cx: Context, s: Store, t: Task)
    requires cx.opts.leased && !cx.opts.hasShouldRun && !cx.stopped && !t.aborted && t.phase == Queued && Free(s, cx.me)
    ensures var expiresAt := s.now + Ttl(cx.opts, t, s.now);
            Undisturbed(cx, s, t, AcquireSteps(s, cx.me) + 2) ==
            Step(t.(phase := Running, acquired := true), Put(s, LockRecord(cx.me, expiresAt)), 2)
  {
    hide Undisturbed;
    var expiresAt, n := s.now + Ttl(cx.opts, t, s.now), AcquireSteps(s, cx.me);
    var creating := t.(phase := Creating(expiresAt));
    FirstStretch(cx, s, t, n + 2);
    LeaseIsGrantedExactly(cx, s, creating, expiresAt);
    Stretches(cx, s, creating, n, 1);
    var held := Put(s, LockRecord(cx.me, expiresAt));
    FirstStretch(cx, held, t.(phase := Granted), 1);
    NoStretch(cx, held, t.(phase := Running, acquired := true));
  }

  lemma {:induction false} Stretches(cx: Context, s: Store, t: Task, m: nat, n: nat)
    ensures var first := Undisturbed(cx, s, t, m);
            var rest := Undisturbed(cx, first.store, first.task, n);
            Undisturbed(cx, s, t, m + n) == Step(rest.task, rest.store, first.bodies + rest.bodies)
    decreases m
  {
    hide WorkStep;
    if m > 0 {
      var first := WorkStep(cx, s, t, Proceed);
      Stretches(cx, first.store, first.task, m - 1, n);
    }
  }

  /** Before `run`: a declined check and a refused lease leave nothing to do, and a stop ends the attempt. */
  lemma SetupDecidesResult(cx: Context, s: Store, t: Task, c: Choice)
    requires !t.aborted
    ensures t.phase == CheckingShouldRun && c == Decline ==>
              WorkStep(cx, s, t, c) == Step(t.(phase := Settled(Nothing)), s, 0)
    ensures t.phase == CheckingShouldRun && c == Throw ==>
              WorkStep(cx, s, t, c) == Step(t.(phase := Settled(OtherError)), s, 0)
    ensures t.phase == Refused ==> WorkStep(cx, s, t, c) == Step(t.(phase := Settled(Nothing)), s, 0)
    ensures t.phase == Queued && cx.stopped && (cx.opts.hasShouldRun || cx.opts.leased) ==>
              WorkStep(cx, s, t, c) == Step(t.(phase := Settled(StoppedError)), s, 0)
    ensures t.phase == CheckingShouldRun && c == Proceed && !cx.stopped ==>
              var u := WorkStep(cx, s, t, c);
              u.bodies == 1 && u.task.phase ==
                (if cx.opts.leased then Creating(s.now + Ttl(cx.opts, t, s.now)) else Running)
    ensures t.phase == Queued && !cx.stopped ==>
              var u := WorkStep(cx, s, t, c);
              u.bodies == 1 && u.task.phase ==
                (if cx.opts.hasShouldRun then CheckingShouldRun
                 else if cx.opts.leased then Creating(s.now + Ttl(cx.opts, t, s.now)) else Running)
  {
  }

  /** An aborted attempt begins no step and, once it has awaited anything, no `run`. */
  lemma AbortedBeginsNothing(cx: Context, s: Store, t: Task, c: Choice)
    requires t.aborted && (t.phase == Queued ==> cx.opts.leased || cx.opts.hasShouldRun)
    ensures WorkStep(cx, s, t, c).bodies == 0
  {
  }

  /** A lease is asked for until the attempt's deadline, or for a millisecond if that has passed. */
  lemma LeaseEndsWithTheDeadline(opts: Options, t: Task, now: nat)
    requires t.started <= now
    ensures var deadline := t.started + opts.deadlineMs;
            now + Ttl(opts, t, now) == if now < deadline then deadline else now + 1
  {
  }

  /** How `run` ends decides the result of the work: a value, its own error, or the stop. */
  lemma RunDecidesResult(cx: Context, s: Store, t: Task, c: Choice)
    requires t.phase == Running && c != BeginStep
    ensures var u := WorkStep(cx, s, t, c).task;
            && (u.phase.Releasing? <==> cx.opts.leased && !t.aborted) && (u.phase.Releasing? || u.phase.Settled?)
            && (c == Proceed ==> u.phase.result == Value)
            && (c == Throw ==> u.phase.result == OtherError)
            && (c == ThrowStopped ==> u.phase.result == if cx.stopped then StoppedError else OtherError)
  {
  }

  /** A holder's undisturbed release leaves an expired record of its own, and its work settles with `run`'s result. */
  lemma ReleaseFreesTheLease(cx: Context, s: Store, t: Task, r: WorkResult)
    requires t.phase == Releasing(r) && t.release == ReadingBack && !t.aborted && !t.releaseFailed
    requires s.bucket.Some? && s.bucket.value.record.holder == cx.me
    ensures var read := ReleaseStep(cx, s, t, Proceed);
            var compared := ReleaseStep(cx, read.store, read.task, Proceed);
            var done := ReleaseStep(cx, compared.store, compared.task, Proceed);
            && done.store == Put(s, LockRecord(cx.me, s.now)) && done.task.release == Returned
            && (forall other :: Free(done.store, other))
            && WorkStep(cx, done.store, done.task, Proceed).task == done.task.(phase := Settled(r))
  {
    var read := ReleaseStep(cx, s, t, Proceed);
    assert read == Step(t.(release := Comparing(s.bucket.value)), s, 0);
    var compared := ReleaseStep(cx, s, read.task, Proceed);
    assert compared == Step(t.(release := Expiring(s.bucket.value.etag, s.now)), s, 0);
  }

  /**
   A stop aborts the attempts of a loop that asks for it and decides those still undecided; it leaves
   the attempts of other loops to finish. A deadline aborts an undecided attempt and decides it.
   */
  lemma AbortsExactly(w: World, act: Action, l: nat, i: nat)
    requires Enabled(w, act) && InRange(w, l, i) && !act.Work? && !act.Release?
    ensures InRange(Apply(w, act), l, i)
    ensures var p, a, a' := w.loops[l], w.loops[l].attempts[i], Apply(w, act).loops[l].attempts[i];
            var stops := act == Stop(l) && p.opts.abortOnStop;
            && (a'.task.aborted <==> a.task.aborted || stops || act == Expire(l, i))
            && a'.verdict == (if stops && a.verdict == Undecided then StopHit
                              else if act == Expire(l, i) then DeadlineHit
                              else if act == Decide(l, i) then FromWork(a.task.phase.result) else a.verdict)
            && a'.task.phase == a.task.phase
    ensures act.Expire? ==>
              var a := w.loops[act.loop].attempts[act.index];
              a.verdict == Undecided && a.task.started + w.loops[act.loop].opts.deadlineMs <= w.store.now
    ensures Apply(w, act).loops[l].view.stopped <==> w.loops[l].view.stopped || act == Stop(l)
  {
  }

  // ----- silence -----

  /** The action ends an attempt of the loop or settles abandoned work of it. */
  predicate Reports(act: Action, l: nat) {
    (act.Finish? || act.SettleLate?) && act.loop == l
  }

  lemma StepKeepsProgress(w: World, act: Action, l: nat)
    requires Enabled(w, act) && l < |w.loops| && w.loops[l].view.progressAt <= w.store.now
    ensures var w' := Apply(w, act);
            && l < |w'.loops| && w.store.now <= w'.store.now && w'.loops[l].view.progressAt <= w'.store.now
            && (!Reports(act, l) ==> w'.loops[l].view.progressAt == w.loops[l].view.progressAt)
            && w'.loops[l].view.intervalMs == w.loops[l].view.intervalMs
            && w'.loops[l].view.deadlineMs == w.loops[l].view.deadlineMs
  {
    hide WorkStep, ReleaseStep;
    StepKeepsClock(w, act);
    var p := w.loops[l];
    if act.Finish? && act.loop == l {
      FinishProgress(p, act.index, w.store.now);
    } else if act.SettleLate? && act.loop == l {
      SettleProgress(p, act.index, w.store.now);
    }
    hide FinishedLoop, SettledLoop;
  }

  lemma FinishProgress(p: Loop, i: nat, now: nat)
    requires i < |p.attempts| && p.view.progressAt <= now
    ensures var v := FinishedLoop(p, i, now).view;
            v.progressAt <= now && v.intervalMs == p.view.intervalMs && v.deadlineMs == p.view.deadlineMs
  {
  }

  lemma SettleProgress(p: Loop, i: nat, now: nat)
    requires i < |p.attempts| && p.view.progressAt <= now
    ensures var v := SettledLoop(p, i, now).view;
            v.progressAt <= now && v.intervalMs == p.view.intervalMs && v.deadlineMs == p.view.deadlineMs
  {
  }

  lemma StepKeepsClock(w: World, act: Action)
    requires Enabled(w, act)
    ensures Apply(w, act).store.now == w.store.now + if act.Advance? then act.ms else 0
  {
  }

  lemma {:induction false} ProgressIsPast(run: seq<World>, acts: seq<Action>, k: nat, l: nat)
    requires IsRun(run, acts) && k < |run| && l < |run[0].loops|
    ensures l < |run[k].loops| && run[k].loops[l].view.progressAt <= run[k].store.now
  {
    hide Apply, Enabled;
    if k == 0 {
      assert Fresh(run[0].loops[l], run[0].store.now);
    } else {
      ProgressIsPast(run, acts, k - 1, l);
      StepKeepsProgress(run[k - 1], acts[k - 1], l);
    }
  }

  lemma {:induction false} SilenceKeepsProgress(run: seq<World>, acts: seq<Action>, j: nat, k: nat, l: nat)
    requires IsRun(run, acts) && j <= k < |run| && l < |run[0].loops|
    requires forall n | j <= n < k :: !Reports(acts[n], l)
    ensures l < |run[j].loops| && l < |run[k].loops|
    ensures var v, v' := run[j].loops[l].view, run[k].loops[l].view;
            v'.progressAt == v.progressAt && v'.intervalMs == v.intervalMs && v'.deadlineMs == v.deadlineMs
  {
    hide Apply, Enabled;
    ProgressIsPast(run, acts, j, l);
    if j < k {
      SilenceKeepsProgress(run, acts, j, k - 1, l);
      ProgressIsPast(run, acts, k - 1, l);
      StepKeepsProgress(run[k - 1], acts[k - 1], l);
    }
  }

  /** A loop that reports nothing for its deadline plus its interval is reported stalled, unless it is stopped. */
  lemma SilentLoopIsReportedStalled(run: seq<World>, acts: seq<Action>, j: nat, k: nat, l: nat)
    requires IsRun(run, acts) && j <= k < |run| && l < |run[0].loops| && l < |run[k].loops|
    requires forall n | j <= n < k :: !Reports(acts[n], l)
    requires var v := run[k].loops[l].view;
             run[k].store.now >= run[j].store.now + v.deadlineMs + v.intervalMs
    ensures var v := run[k].loops[l].view;
            StatusAt(v, run[k].store.now) == if v.stopped then StatusStopping else StatusStalled
  {
    SilenceKeepsProgress(run, acts, j, k, l);
    ProgressIsPast(run, acts, j, l);
  }
}
