/** Safety of the background loops over every run: the shared lease and the in-flight guard. */
module LoopSafety {
  import opened Common
  import opened LoopState
  import opened LoopSystem

  // ----- the lease -----

  ghost predicate TagSound(s: Store, seen: Stored) {
    seen.etag < s.nextTag && (TagMatches(s, seen.etag) ==> s.bucket.value == seen)
  }

  /** What the lease object says about one attempt, whatever the other replicas do. */
  ghost predicate LeaseInv(s: Store, opts: Options, me: Holder, t: Task) {
    && t.started <= s.now
    && (t.phase.Creating? || t.phase.ReadingLease? || t.phase.CreatingAgain? || t.phase.Judging? || t.phase.Swapping?
        ==> opts.leased && t.phase.expiresAt >= Deadline(opts, t))
    && (t.phase.Judging? ==> TagSound(s, t.phase.seen))
    && (t.phase.Swapping? ==> t.phase.etag < s.nextTag)
    && (t.phase.Swapping? && TagMatches(s, t.phase.etag) ==>
          s.bucket.value.record.holder == me || s.bucket.value.record.expiresAt <= s.now)
    && (opts.leased && (t.phase.Granted? || t.phase.Running?) && s.now < Deadline(opts, t) ==>
          Holds(s, me, Deadline(opts, t)))
    && (t.release != NotIssued ==> t.phase.Releasing? || t.phase.Settled?)
    && (t.release.Comparing? ==> TagSound(s, t.release.seen))
    && (t.release.Expiring? ==> t.release.etag < s.nextTag)
    && (t.release.Expiring? && TagMatches(s, t.release.etag) ==> s.bucket.value.record.holder == me)
    && (t.phase.Granted? || t.phase.Releasing? ==> opts.leased)
    && (opts.leased && (t.phase.Running? || t.phase.Releasing?) ==> t.acquired)
    && (t.phase.Releasing? ==> t.release != NotIssued)
    && (t.acquired ==> opts.leased && (t.phase.Running? || t.phase.Releasing? || t.phase.Settled?))
    && (t.acquired && t.phase.Settled? ==> t.release.Returned? || t.aborted)
    && ReleaseInv(s, me, t)
  }

  ghost predicate Names(s: Store, me: Holder) {
    s.bucket.Some? && s.bucket.value.record.holder == me
  }

  /** While the release runs, a record of ours is the one it has read; afterwards it has expired. */
  ghost predicate ReleaseInv(s: Store, me: Holder, t: Task) {
    Names(s, me) ==>
      && (t.release.Comparing? ==> TagMatches(s, t.release.seen.etag) && t.release.seen.record.holder == me)
      && (t.release.Expiring? ==> TagMatches(s, t.release.etag) && t.release.at <= s.now)
      && (t.release.Returned? && !t.releaseFailed && !t.aborted ==> s.bucket.value.record.expiresAt <= s.now)
  }

  ghost predicate Holds(s: Store, me: Holder, until: nat) {
    s.bucket.Some? && s.bucket.value.record.holder == me && s.bucket.value.record.expiresAt >= until
  }

  ghost predicate StoreInv(s: Store) {
    s.bucket.Some? ==> s.bucket.value.etag < s.nextTag
  }

  ghost predicate AllLeaseInv(w: World) {
    && StoreInv(w.store)
    && forall l: nat, i: nat | InRange(w, l, i) ::
          LeaseInv(w.store, w.loops[l].opts, Of(l, i), w.loops[l].attempts[i].task)
  }

  /** The lock's contract: a lease that has not expired is only ever rewritten by its own holder. */
  ghost predicate LockContract(s: Store, s': Store, actor: Holder) {
    s'.now == s.now && s.nextTag <= s'.nextTag &&
    (s'.bucket == s.bucket ||
     (s'.bucket.Some? && s'.bucket.value.etag == s.nextTag && s'.nextTag > s.nextTag
      && s'.bucket.value.record.holder == actor
      && (s.bucket.Some? ==> s.bucket.value.record.holder == actor || s.bucket.value.record.expiresAt <= s.now)))
  }

  lemma WriteKeepsLease(cx: Context, s: Store, t: Task, c: Choice, lands: bool, otherwise: Phase)
    requires StoreInv(s) && LeaseInv(s, cx.opts, cx.me, t)
    requires t.phase.Creating? || t.phase.CreatingAgain? || t.phase.Swapping?
    requires otherwise == Refused || otherwise == ReadingLease(t.phase.expiresAt)
    requires lands ==>
          s.bucket.None? || s.bucket.value.record.holder == cx.me || s.bucket.value.record.expiresAt <= s.now
    ensures StepSound(cx, s, WriteLease(cx, s, t, c, t.phase.expiresAt, lands, otherwise))
  {
  }

  ghost predicate StepSound(cx: Context, s: Store, r: Step) {
    StoreInv(r.store) && LeaseInv(r.store, cx.opts, cx.me, r.task) && LockContract(s, r.store, cx.me)
  }

  lemma EnterRunKeepsLease(cx: Context, s: Store, t: Task)
    requires StoreInv(s) && LeaseInv(s, cx.opts, cx.me, t)
    requires t.phase.Granted? || (!cx.opts.leased && (t.phase.Queued? || t.phase.CheckingShouldRun?))
    ensures StepSound(cx, s, EnterRun(cx, s, if t.phase.Granted? then t.(acquired := true) else t))
  {
  }

  lemma EnterLeaseKeepsLease(cx: Context, s: Store, t: Task)
    requires StoreInv(s) && LeaseInv(s, cx.opts, cx.me, t) && (t.phase.Queued? || t.phase.CheckingShouldRun?)
    ensures StepSound(cx, s, EnterLease(cx, s, t))
  {
    if !cx.opts.leased { EnterRunKeepsLease(cx, s, t); }
  }

  lemma RunKeepsLease(cx: Context, s: Store, t: Task, c: Choice)
    requires StoreInv(s) && LeaseInv(s, cx.opts, cx.me, t) && t.phase.Running?
    ensures StepSound(cx, s, RunAdvanced(cx, s, t, c))
  {
  }

  lemma ReadKeepsLease(cx: Context, s: Store, t: Task, c: Choice)
    requires StoreInv(s) && LeaseInv(s, cx.opts, cx.me, t)
    ensures t.phase.ReadingLease? ==> StepSound(cx, s, ReadLease(s, t, c, t.phase.expiresAt))
    ensures t.phase.Judging? ==> StepSound(cx, s, JudgeLease(cx, s, t, c, t.phase.expiresAt, t.phase.seen))
  {
  }

  lemma AcquireReturnedKeepsLease(cx: Context, s: Store, t: Task)
    requires StoreInv(s) && LeaseInv(s, cx.opts, cx.me, t) && (t.phase.Granted? || t.phase.Refused?)
    ensures StepSound(cx, s, AcquireReturned(cx, s, t, t.phase.Granted?))
  {
    if t.phase.Granted? { EnterRunKeepsLease(cx, s, t); }
  }

  lemma QueuedKeepsLease(cx: Context, s: Store, t: Task, c: Choice)
    requires StoreInv(s) && LeaseInv(s, cx.opts, cx.me, t) && (t.phase.Queued? || t.phase.CheckingShouldRun?)
    ensures StepSound(cx, s, WorkStep(cx, s, t, c))
  {
    hide EnterLease;
    EnterLeaseKeepsLease(cx, s, t);
  }

  lemma ReleasingKeepsLease(cx: Context, s: Store, t: Task, c: Choice)
    requires StoreInv(s) && LeaseInv(s, cx.opts, cx.me, t) && (t.phase.Releasing? || t.phase.Settled?)
    ensures StepSound(cx, s, WorkStep(cx, s, t, c))
  {
  }

  /** Every stretch of work keeps the invariant of its own attempt and obeys the lock's contract. */
  lemma WorkStepKeepsLease(cx: Context, s: Store, t: Task, c: Choice)
    requires StoreInv(s) && LeaseInv(s, cx.opts, cx.me, t)
    ensures StepSound(cx, s, WorkStep(cx, s, t, c))
  {
    hide LeaseInv, StepSound, EnterLease, WriteLease, ReadLease, JudgeLease, AcquireReturned, RunAdvanced;
    match t.phase
    case Queued => QueuedKeepsLease(cx, s, t, c);
    case CheckingShouldRun => QueuedKeepsLease(cx, s, t, c);
    case Creating(e) => WriteKeepsLease(cx, s, t, c, s.bucket.None?, ReadingLease(e));
    case ReadingLease(e) => ReadKeepsLease(cx, s, t, c);
    case CreatingAgain(e) => WriteKeepsLease(cx, s, t, c, s.bucket.None?, Refused);
    case Judging(e, seen) => ReadKeepsLease(cx, s, t, c);
    case Swapping(e, etag) => SwapMayLand(cx, s, t); WriteKeepsLease(cx, s, t, c, TagMatches(s, etag), Refused);
    case Granted => AcquireReturnedKeepsLease(cx, s, t);
    case Refused => AcquireReturnedKeepsLease(cx, s, t);
    case Running => RunKeepsLease(cx, s, t, c);
    case Releasing(r) => ReleasingKeepsLease(cx, s, t, c);
    case Settled(_) => ReleasingKeepsLease(cx, s, t, c);
  }

  lemma SwapMayLand(cx: Context, s: Store, t: Task)
    requires LeaseInv(s, cx.opts, cx.me, t) && t.phase.Swapping?
    ensures TagMatches(s, t.phase.etag) ==>
          s.bucket.value.record.holder == cx.me || s.bucket.value.record.expiresAt <= s.now
  {
  }

  lemma ReleaseStepKeepsLease(cx: Context, s: Store, t: Task, c: Choice)
    requires StoreInv(s) && LeaseInv(s, cx.opts, cx.me, t)
    ensures StepSound(cx, s, ReleaseStep(cx, s, t, c))
  {
  }

  lemma OthersKeepLease(s: Store, s': Store, actor: Holder, opts: Options, me: Holder, t: Task)
    requires LockContract(s, s', actor) && me != actor
    requires StoreInv(s) && LeaseInv(s, opts, me, t)
    ensures LeaseInv(s', opts, me, t)
  {
  }

  /** The attempts that an action may touch keep their own part of the invariant. */
  lemma StepKeepsAllLeases(w: World, l: nat, i: nat, r: Step)
    requires AllLeaseInv(w) && InRange(w, l, i)
    requires StepSound(ContextOf(w, l, i), w.store, r)
    ensures AllLeaseInv(AfterStep(w, l, i, r))
  {
    var w' := AfterStep(w, l, i, r);
    forall m: nat, j: nat | InRange(w', m, j)
      ensures LeaseInv(w'.store, w'.loops[m].opts, Of(m, j), w'.loops[m].attempts[j].task)
    {
      if m != l || j != i {
        assert InRange(w, m, j) && w'.loops[m].attempts[j] == w.loops[m].attempts[j];
        OthersKeepLease(w.store, r.store, Of(l, i), w.loops[m].opts, Of(m, j), w.loops[m].attempts[j].task);
      }
    }
  }

  /** Actions that leave the bucket alone change only flags the lease does not depend on. */
  lemma BookkeepingKeepsLeases(w: World, w': World)
    requires AllLeaseInv(w) && w'.store == w.store.(now := w'.store.now) && w'.store.now >= w.store.now
    requires |w'.loops| == |w.loops|
    requires forall l: nat | l < |w.loops| :: w'.loops[l].opts == w.loops[l].opts
    requires forall l: nat, i: nat | InRange(w', l, i) ::
               if InRange(w, l, i)
               then SameWork(w.loops[l].attempts[i].task, w'.loops[l].attempts[i].task)
               else w'.loops[l].attempts[i].task == NewAttempt(w.store.now).task
    ensures AllLeaseInv(w')
  {
    forall l: nat, i: nat | InRange(w', l, i)
      ensures LeaseInv(w'.store, w'.loops[l].opts, Of(l, i), w'.loops[l].attempts[i].task)
    {
      if InRange(w, l, i) {
        assert SameWork(w.loops[l].attempts[i].task, w'.loops[l].attempts[i].task);
        assert LeaseInv(w.store, w.loops[l].opts, Of(l, i), w.loops[l].attempts[i].task);
      }
    }
  }

  ghost predicate SameWork(t: Task, u: Task) {
    u == t.(aborted := u.aborted) && (t.aborted ==> u.aborted)
  }

  lemma ActionKeepsLeases(w: World, act: Action)
    requires AllLeaseInv(w) && Enabled(w, act)
    ensures AllLeaseInv(Apply(w, act))
  {
    match act
    case Work(l, i, c) =>
      WorkStepKeepsLease(ContextOf(w, l, i), w.store, w.loops[l].attempts[i].task, c);
      StepKeepsAllLeases(w, l, i, WorkStep(ContextOf(w, l, i), w.store, w.loops[l].attempts[i].task, c));
    case Release(l, i, c) =>
      ReleaseStepKeepsLease(ContextOf(w, l, i), w.store, w.loops[l].attempts[i].task, c);
      StepKeepsAllLeases(w, l, i, ReleaseStep(ContextOf(w, l, i), w.store, w.loops[l].attempts[i].task, c));
    case Advance(_) => BookkeepingKeepsLeases(w, Apply(w, act));
    case Tick(_) => BookkeepingKeepsLeases(w, Apply(w, act));
    case Stop(_) => BookkeepingKeepsLeases(w, Apply(w, act));
    case Expire(_, _) => AttemptBookkeepingKeepsLeases(w, act);
    case Decide(_, _) => AttemptBookkeepingKeepsLeases(w, act);
    case Finish(_, _) => AttemptBookkeepingKeepsLeases(w, act);
    case SettleLate(_, _) => AttemptBookkeepingKeepsLeases(w, act);
  }

  lemma AttemptBookkeepingKeepsLeases(w: World, act: Action)
    requires AllLeaseInv(w) && Enabled(w, act)
    requires act.Expire? || act.Decide? || act.Finish? || act.SettleLate?
    ensures AllLeaseInv(Apply(w, act))
  {
    BookkeepingKeepsLeases(w, Apply(w, act));
  }

  lemma {:induction false} RunKeepsLeases(run: seq<World>, acts: seq<Action>, k: nat)
    requires IsRun(run, acts) && k < |run|
    ensures AllLeaseInv(run[k])
  {
    if k > 0 {
      RunKeepsLeases(run, acts, k - 1);
      ActionKeepsLeases(run[k - 1], acts[k - 1]);
    }
  }

  ghost predicate InsideRunInTime(w: World, l: nat, i: nat) {
    && InRange(w, l, i) && w.loops[l].opts.leased && w.loops[l].attempts[i].task.phase.Running?
    && w.store.now < Deadline(w.loops[l].opts, w.loops[l].attempts[i].task)
  }

  /**
   In every run, at most one attempt over all replicas is inside `run` before its own deadline,
   and the lease object names it with an expiry that covers that deadline.
   */
  lemma AtMostOneLeaseHolderRuns(run: seq<World>, acts: seq<Action>, k: nat, l: nat, i: nat, m: nat, j: nat)
    requires IsRun(run, acts) && k < |run|
    requires InsideRunInTime(run[k], l, i)
    ensures Holds(run[k].store, Of(l, i), Deadline(run[k].loops[l].opts, run[k].loops[l].attempts[i].task))
    ensures InsideRunInTime(run[k], m, j) ==> m == l && j == i
  {
    RunKeepsLeases(run, acts, k);
  }

  /** No action ends a lease early except one taken by the attempt that holds it. */
  lemma UnexpiredLeaseIsOnlyRewrittenByItsHolder(run: seq<World>, acts: seq<Action>, k: nat)
    requires IsRun(run, acts) && k < |acts|
    requires run[k].store.bucket.Some? && run[k].store.bucket.value.record.expiresAt > run[k].store.now
    requires run[k + 1].store.bucket != run[k].store.bucket
    ensures acts[k].Work? || acts[k].Release?
    ensures run[k].store.bucket.value.record.holder == Of(acts[k].loop, acts[k].index)
  {
    RunKeepsLeases(run, acts, k);
    var w := run[k];
    match acts[k]
    case Work(l, i, c) => WorkStepKeepsLease(ContextOf(w, l, i), w.store, w.loops[l].attempts[i].task, c);
    case Release(l, i, c) => ReleaseStepKeepsLease(ContextOf(w, l, i), w.store, w.loops[l].attempts[i].task, c);
    case _ =>
  }

  /**
   A lease whose acquire step completed is given back by its own attempt, or that attempt was
   aborted: work that has settled waited for its release call to return, and from then on the lease
   object holds no unexpired record of the attempt, unless a bucket operation of the call failed.
   The call is only ever issued by an attempt that is not aborted.
   */
  lemma AcquiredLeasesAreReleased(run: seq<World>, acts: seq<Action>, k: nat, l: nat, i: nat)
    requires IsRun(run, acts) && k < |run| && InRange(run[k], l, i)
    ensures var t := run[k].loops[l].attempts[i].task;
            && (t.acquired && t.phase.Settled? ==> t.release.Returned? || t.aborted)
            && (t.release.Returned? && !t.releaseFailed && !t.aborted ==>
                  !(Names(run[k].store, Of(l, i)) && run[k].store.bucket.value.record.expiresAt > run[k].store.now))
    ensures k < |acts| && run[k].loops[l].attempts[i].task.release == NotIssued && InRange(run[k + 1], l, i)
            && run[k + 1].loops[l].attempts[i].task.release != NotIssued ==>
              !run[k].loops[l].attempts[i].task.aborted && acts[k].Work? && acts[k].loop == l && acts[k].index == i
  {
    RunKeepsLeases(run, acts, k);
    if k < |acts| {
      assert run[k + 1] == Apply(run[k], acts[k]);
    }
  }

  // ----- the in-flight guard -----

  function Trailing(log: seq<Outcome>): nat {
    if log == [] || log[|log| - 1] == Success || log[|log| - 1] == Skipped then 0
    else 1 + Trailing(log[..|log| - 1])
  }

  function Stalls(log: seq<Outcome>): nat {
    if log == [] then 0 else Stalls(log[..|log| - 1]) + if log[|log| - 1] == Stalled then 1 else 0
  }

  ghost predicate AttemptInv(p: Loop, a: Attempt, last: bool) {
    && (!last ==> a.finished && !a.settleDue)
    && (a.finished && !a.settleDue ==> a.task.phase.Settled?)
    && (a.settleDue ==> a.finished)
    && (a.finished ==> a.verdict != Undecided)
    && (a.verdict.FromWork? ==> a.task.phase == Settled(a.verdict.result))
    && (a.verdict == StopHit ==> p.stopAborted)
    && ((a.task.phase.Settled? || a.task.phase.Releasing?) && a.task.phase.result == StoppedError ==> p.view.stopped)
  }

  ghost predicate LoopInv(p: Loop) {
    var n := |p.attempts|;
    && (forall i | 0 <= i < n :: AttemptInv(p, p.attempts[i], i == n - 1))
    && (p.view.running <==> n > 0 && (!p.attempts[n - 1].finished || p.attempts[n - 1].settleDue))
    && (p.view.stalled <==> n > 0 && p.attempts[n - 1].settleDue && p.attempts[n - 1].verdict == DeadlineHit)
    && (p.stopAborted ==> p.view.stopped)
    && p.view.intervalMs == p.opts.intervalMs && p.view.deadlineMs == p.opts.deadlineMs
    && p.view.consecutiveFailures == Trailing(p.log) && p.view.timeouts == Stalls(p.log)
  }

  lemma TickKeepsLoop(p: Loop, now: nat)
    requires LoopInv(p)
    ensures LoopInv(Ticked(p, now))
  {
    var q := Ticked(p, now);
    forall i | 0 <= i < |q.attempts| ensures AttemptInv(q, q.attempts[i], i == |q.attempts| - 1) {
      if i < |p.attempts| {
        assert AttemptInv(p, p.attempts[i], i == |p.attempts| - 1);
      }
    }
  }

  lemma StopKeepsLoop(p: Loop)
    requires LoopInv(p)
    ensures LoopInv(Stopped(p))
  {
    var q := Stopped(p);
    forall i | 0 <= i < |q.attempts| ensures AttemptInv(q, q.attempts[i], i == |q.attempts| - 1) {
      assert AttemptInv(p, p.attempts[i], i == |p.attempts| - 1);
    }
  }

  /** Work, release, deadline and decision steps: the attempt's bookkeeping flags stay as they are. */
  lemma AttemptStepKeepsLoop(p: Loop, i: nat, a: Attempt, bodies: nat)
    requires LoopInv(p) && i < |p.attempts|
    requires a.finished == p.attempts[i].finished && a.settleDue == p.attempts[i].settleDue
    requires a.finished ==> a.verdict == p.attempts[i].verdict
    requires AttemptInv(p, a, i == |p.attempts| - 1)
    ensures LoopInv(p.(attempts := p.attempts[i := a], bodies := bodies))
  {
    var q := p.(attempts := p.attempts[i := a], bodies := bodies);
    forall j | 0 <= j < |q.attempts| ensures AttemptInv(q, q.attempts[j], j == |q.attempts| - 1) {
      assert AttemptInv(p, p.attempts[j], j == |p.attempts| - 1);
    }
  }

  lemma FinishKeepsLoop(p: Loop, i: nat, now: nat)
    requires LoopInv(p) && i < |p.attempts| && p.attempts[i].verdict != Undecided && !p.attempts[i].finished
    ensures LoopInv(FinishedLoop(p, i, now))
  {
    var q := FinishedLoop(p, i, now);
    assert AttemptInv(p, p.attempts[i], i == |p.attempts| - 1);
    assert i == |p.attempts| - 1;
    assert |q.log| > |p.log| ==> q.log[..|q.log| - 1] == p.log;
    forall j | 0 <= j < |q.attempts| ensures AttemptInv(q, q.attempts[j], j == |q.attempts| - 1) {
      assert AttemptInv(p, p.attempts[j], j == |p.attempts| - 1);
    }
  }

  lemma SettleKeepsLoop(p: Loop, i: nat, now: nat)
    requires LoopInv(p) && i < |p.attempts| && p.attempts[i].settleDue && p.attempts[i].task.phase.Settled?
    ensures LoopInv(SettledLoop(p, i, now))
  {
    var q := SettledLoop(p, i, now);
    assert AttemptInv(p, p.attempts[i], i == |p.attempts| - 1);
    forall j | 0 <= j < |q.attempts| ensures AttemptInv(q, q.attempts[j], j == |q.attempts| - 1) {
      assert AttemptInv(p, p.attempts[j], j == |p.attempts| - 1);
    }
  }

  /** A task only ends as stopped in a loop that is stopped. */
  ghost predicate EndsAsStopped(cx: Context, t: Task) {
    (t.phase.Settled? || t.phase.Releasing?) && t.phase.result == StoppedError ==> cx.stopped
  }

  lemma EnteringEnds(cx: Context, s: Store, t: Task)
    ensures EndsAsStopped(cx, EnterLease(cx, s, t).task) && EnterLease(cx, s, t).task.started == t.started
    ensures EndsAsStopped(cx, EnterRun(cx, s, t).task) && EnterRun(cx, s, t).task.started == t.started
    ensures EndsAsStopped(cx, EnterStep(cx, s, t, CheckingShouldRun).task)
  {
  }

  lemma RunAdvancedEnds(cx: Context, s: Store, t: Task, c: Choice)
    requires t.phase.Running?
    ensures EndsAsStopped(cx, RunAdvanced(cx, s, t, c).task) && RunAdvanced(cx, s, t, c).task.started == t.started
  {
  }

  ghost predicate GoesOn(cx: Context, t: Task, u: Task) {
    EndsAsStopped(cx, u) && u.started == t.started
  }

  lemma QueuedGoesOn(cx: Context, s: Store, t: Task, c: Choice)
    requires t.phase.Queued? || t.phase.CheckingShouldRun?
    ensures GoesOn(cx, t, WorkStep(cx, s, t, c).task)
  {
    hide EnterLease, EnterRun;
    EnteringEnds(cx, s, t);
  }

  lemma AcquiringGoesOn(cx: Context, s: Store, t: Task, c: Choice)
    requires || t.phase.Creating? || t.phase.ReadingLease? || t.phase.CreatingAgain?
             || t.phase.Judging? || t.phase.Swapping?
    ensures GoesOn(cx, t, WorkStep(cx, s, t, c).task)
  {
  }

  lemma AcquiredGoesOn(cx: Context, s: Store, t: Task, c: Choice)
    requires t.phase.Granted? || t.phase.Refused?
    ensures GoesOn(cx, t, WorkStep(cx, s, t, c).task)
  {
    hide EnterLease, EnterRun;
    EnteringEnds(cx, s, t.(acquired := true));
  }

  /** Settled work stays settled, and only a stopped loop makes work end with the stop error. */
  lemma WorkStepSettlesOnce(cx: Context, s: Store, t: Task, c: Choice)
    requires EndsAsStopped(cx, t)
    ensures var u := WorkStep(cx, s, t, c).task;
            (t.phase.Settled? ==> u == t) && EndsAsStopped(cx, u) && u.started == t.started
  {
    hide EnterLease, EnterRun, EnterStep, RunAdvanced, WriteLease, ReadLease, JudgeLease, AcquireReturned;
    match t.phase
    case Queued => QueuedGoesOn(cx, s, t, c);
    case CheckingShouldRun => QueuedGoesOn(cx, s, t, c);
    case Creating(_) => AcquiringGoesOn(cx, s, t, c);
    case ReadingLease(_) => AcquiringGoesOn(cx, s, t, c);
    case CreatingAgain(_) => AcquiringGoesOn(cx, s, t, c);
    case Judging(_, _) => AcquiringGoesOn(cx, s, t, c);
    case Swapping(_, _) => AcquiringGoesOn(cx, s, t, c);
    case Granted => AcquiredGoesOn(cx, s, t, c);
    case Refused => AcquiredGoesOn(cx, s, t, c);
    case Running => RunAdvancedEnds(cx, s, t, c);
    case Releasing(_) =>
    case Settled(_) =>
  }

  lemma ReleaseStepKeepsPhase(cx: Context, s: Store, t: Task, c: Choice)
    ensures var u := ReleaseStep(cx, s, t, c).task;
            u.phase == t.phase && u.started == t.started
  {
  }

  ghost predicate AllLoopInv(w: World) {
    forall l | 0 <= l < |w.loops| :: LoopInv(w.loops[l])
  }

  lemma ActionKeepsLoops(w: World, act: Action)
    requires AllLoopInv(w) && Enabled(w, act)
    ensures AllLoopInv(Apply(w, act))
  {
    match act
    case Advance(_) =>
    case Tick(l) => TickKeepsLoop(w.loops[l], w.store.now);
    case Stop(l) => StopKeepsLoop(w.loops[l]);
    case Work(_, _, _) => AttemptActionKeepsLoops(w, act);
    case Release(_, _, _) => AttemptActionKeepsLoops(w, act);
    case Expire(_, _) => AttemptActionKeepsLoops(w, act);
    case Decide(_, _) => AttemptActionKeepsLoops(w, act);
    case Finish(l, i) => FinishKeepsLoop(w.loops[l], i, w.store.now);
    case SettleLate(l, i) => SettleKeepsLoop(w.loops[l], i, w.store.now);
  }

  lemma AttemptActionKeepsLoops(w: World, act: Action)
    requires AllLoopInv(w) && Enabled(w, act) && (act.Work? || act.Release? || act.Expire? || act.Decide?)
    ensures AllLoopInv(Apply(w, act))
    ensures var p, q, i := w.loops[act.loop], Apply(w, act).loops[act.loop], act.index;
            && SameAttemptFlags(p, q, i)
            && (q.attempts[i].verdict == DeadlineHit ==> MayBeLate(p, i, w.store.now))
  {
    var p, i := w.loops[act.loop], act.index;
    var p' := Apply(w, act).loops[act.loop];
    assert AttemptInv(p, p.attempts[i], i == |p.attempts| - 1);
    if act.Work? {
      WorkStepSettlesOnce(ContextOf(w, act.loop, i), w.store, p.attempts[i].task, act.choice);
    } else if act.Release? {
      ReleaseStepKeepsPhase(ContextOf(w, act.loop, i), w.store, p.attempts[i].task, act.choice);
    }
    hide WorkStep, ReleaseStep, LoopInv;
    AttemptStepKeepsLoop(p, i, p'.attempts[i], p'.bodies);
  }

  ghost predicate MayBeLate(p: Loop, i: nat, now: nat)
    requires i < |p.attempts|
  {
    var a := p.attempts[i];
    a.verdict == DeadlineHit || (a.verdict == Undecided && now >= Deadline(p.opts, a.task))
  }

  /** The action changed one attempt's work or verdict, and none of the loop's fields. */
  ghost predicate SameAttemptFlags(p: Loop, q: Loop, i: nat) {
    && i < |p.attempts|
    && q == p.(attempts := q.attempts, bodies := q.bodies)
    && |q.attempts| == |p.attempts| && q.attempts == p.attempts[i := q.attempts[i]]
    && q.attempts[i].task.started == p.attempts[i].task.started
    && q.attempts[i].finished == p.attempts[i].finished && q.attempts[i].settleDue == p.attempts[i].settleDue
  }

  lemma {:induction false} RunKeepsLoops(run: seq<World>, acts: seq<Action>, k: nat)
    requires IsRun(run, acts) && k < |run|
    ensures AllLoopInv(run[k])
  {
    if k == 0 {
      forall l | 0 <= l < |run[0].loops| ensures LoopInv(run[0].loops[l]) {
        assert Fresh(run[0].loops[l], run[0].store.now);
      }
    } else {
      RunKeepsLoops(run, acts, k - 1);
      ActionKeepsLoops(run[k - 1], acts[k - 1]);
    }
  }

  /**
   In every interleaving a loop has at most one attempt with unsettled work, the guard is down
   only when no work is unsettled, and a stalled loop still holds the guard.
   */
  lemma WorkNeverOverlaps(run: seq<World>, acts: seq<Action>, k: nat, l: nat, i: nat, j: nat)
    requires IsRun(run, acts) && k < |run| && InRange(run[k], l, i) && InRange(run[k], l, j)
    ensures var p := run[k].loops[l];
            && (p.view.stalled ==> p.view.running)
            && (!p.attempts[i].task.phase.Settled? ==> p.view.running)
            && (!p.attempts[i].task.phase.Settled? && !p.attempts[j].task.phase.Settled? ==> i == j)
  {
    RunKeepsLoops(run, acts, k);
    var p := run[k].loops[l];
    assert LoopInv(p);
    assert AttemptInv(p, p.attempts[i], i == |p.attempts| - 1);
    assert AttemptInv(p, p.attempts[j], j == |p.attempts| - 1);
  }

  /** Once a loop is stopped it begins no attempt, no step body and no `run` call, in any continuation. */
  lemma {:induction false} StoppedLoopBeginsNothing(run: seq<World>, acts: seq<Action>, k: nat, n: nat, l: nat)
    requires IsRun(run, acts) && k <= n < |run| && l < |run[k].loops| && run[k].loops[l].view.stopped
    ensures l < |run[n].loops| && run[n].loops[l].view.stopped
    ensures |run[n].loops[l].attempts| == |run[k].loops[l].attempts|
    ensures run[n].loops[l].bodies == run[k].loops[l].bodies
  {
    if k < n {
      StoppedLoopBeginsNothing(run, acts, k, n - 1, l);
      assert run[n] == Apply(run[n - 1], acts[n - 1]);
    }
  }

  // ----- health -----

  /** The failure counters are exact functions of the recorded outcomes. */
  lemma CountersAreExact(run: seq<World>, acts: seq<Action>, k: nat, l: nat)
    requires IsRun(run, acts) && k < |run| && l < |run[k].loops|
    ensures run[k].loops[l].view.consecutiveFailures == Trailing(run[k].loops[l].log)
    ensures run[k].loops[l].view.timeouts == Stalls(run[k].loops[l].log)
  {
    RunKeepsLoops(run, acts, k);
    assert LoopInv(run[k].loops[l]);
  }

  /**
   A stop, and the end of an attempt that a stop cut short or that failed after the stop signal,
   leave the record of outcomes alone.
   */
  lemma StopIsNotAnOutcome(run: seq<World>, acts: seq<Action>, k: nat, l: nat)
    requires IsRun(run, acts) && k < |acts| && l < |run[k].loops|
    requires acts[k] == Stop(l) ||
             (acts[k].Finish? && acts[k].loop == l &&
              (run[k].loops[l].attempts[acts[k].index].verdict == StopHit ||
               Cancelled(run[k].loops[l].attempts[acts[k].index].verdict, run[k].loops[l].stopAborted)))
    ensures l < |run[k + 1].loops|
    ensures var v, v' := run[k].loops[l].view, run[k + 1].loops[l].view;
            v' == v.(stopped := v'.stopped) && run[k + 1].loops[l].log == run[k].loops[l].log
  {
    RunKeepsLoops(run, acts, k);
    assert run[k + 1] == Apply(run[k], acts[k]);
    var p := run[k].loops[l];
    assert LoopInv(p);
    if acts[k].Finish? {
      assert AttemptInv(p, p.attempts[acts[k].index], acts[k].index == |p.attempts| - 1);
    }
  }

  /**
   What is recorded, by what the work did: the end of an attempt adds one outcome unless a stop cut it
   short. The outcome is a stall exactly when the deadline was hit first, a failure exactly when the
   work ended in an error, a success when it gave a value and skipped when there was nothing to do.
   No other action touches the record.
   */
  lemma RecordedOutcomeIsTheWorks(run: seq<World>, acts: seq<Action>, k: nat, l: nat)
    requires IsRun(run, acts) && k < |acts| && l < |run[k].loops|
    ensures l < |run[k + 1].loops|
    ensures var p, p' := run[k].loops[l], run[k + 1].loops[l];
            if !(acts[k].Finish? && acts[k].loop == l) then p'.log == p.log
            else
              var a := p.attempts[acts[k].index];
              var phase := a.task.phase;
              if a.verdict == StopHit || a.verdict == FromWork(StoppedError) ||
                 (a.verdict == FromWork(OtherError) && p.stopAborted)
              then p'.log == p.log
              else
                && |p'.log| == |p.log| + 1 && p'.log[..|p.log|] == p.log
                && var last := p'.log[|p.log|];
                && (last == Outcome.Stalled <==> a.verdict == DeadlineHit)
                && (last == Failed <==> a.verdict != DeadlineHit && phase == Settled(OtherError))
                && (last == Success <==> a.verdict != DeadlineHit && phase == Settled(Value))
                && (last == Skipped <==> a.verdict != DeadlineHit && phase == Settled(Nothing))
  {
    RunKeepsLoops(run, acts, k);
    assert run[k + 1] == Apply(run[k], acts[k]);
    var p := run[k].loops[l];
    assert LoopInv(p);
    if acts[k].Finish? && acts[k].loop == l {
      assert AttemptInv(p, p.attempts[acts[k].index], acts[k].index == |p.attempts| - 1);
    }
  }

  /** The deadline ended the attempt, but its work has not settled. */
  ghost predicate Abandoned(a: Attempt) {
    a.finished && a.verdict == DeadlineHit && !a.task.phase.Settled?
  }

  /**
   What health says about the history: an unstopped loop whose abandoned work is unsettled is stalled;
   a failing one last recorded a failure, and one that is well did not.
   */
  lemma HealthTellsTheHistory(run: seq<World>, acts: seq<Action>, k: nat, l: nat, i: nat)
    requires IsRun(run, acts) && k < |run| && InRange(run[k], l, i)
    ensures var p := run[k].loops[l];
            var status, log := StatusAt(p.view, run[k].store.now), p.log;
            && (status == StatusStopping <==> p.view.stopped)
            && (Abandoned(p.attempts[i]) && !p.view.stopped ==> status == StatusStalled)
            && (status == StatusFailing ==> log != [] && log[|log| - 1] in {Failed, Outcome.Stalled})
            && (status == StatusOk ==> log == [] || log[|log| - 1] in {Success, Skipped})
  {
    RunKeepsLoops(run, acts, k);
    var p := run[k].loops[l];
    assert LoopInv(p);
    assert AttemptInv(p, p.attempts[i], i == |p.attempts| - 1);
  }

  /** Ticks come every interval, and the loop's attempts are over before their deadline. */
  ghost predicate Punctual(w: World, act: Action, l: nat)
    requires l < |w.loops|
  {
    act.Advance? ==>
      var p := w.loops[l];
      && w.store.now + act.ms <= p.nextTick
      && (p.view.running && p.attempts != [] ==>
            w.store.now + act.ms < p.attempts[|p.attempts| - 1].task.started + p.opts.deadlineMs)
  }

  ghost predicate PunctualInv(p: Loop, now: nat) {
    && LoopInv(p)
    && (p.view.stopped || InTime(p, now))
  }

  ghost predicate InTime(p: Loop, now: nat)
    requires LoopInv(p)
  {
    && now <= p.nextTick <= now + p.opts.intervalMs
    && !p.view.stalled && p.view.progressAt <= now
    && (!p.view.running ==> p.nextTick <= p.view.progressAt + p.opts.intervalMs)
    && (p.view.running ==>
          var a := p.attempts[|p.attempts| - 1];
          a.verdict != DeadlineHit && !a.settleDue
          && now < a.task.started + p.opts.deadlineMs && a.task.started <= p.view.progressAt + p.opts.intervalMs)
  }

  lemma PunctualStep(w: World, act: Action, l: nat)
    requires l < |w.loops| && AllLoopInv(w) && Enabled(w, act) && Punctual(w, act, l)
    requires w.loops[l].opts.deadlineMs > 0
    requires PunctualInv(w.loops[l], w.store.now)
    ensures var w' := Apply(w, act); l < |w'.loops| && PunctualInv(w'.loops[l], w'.store.now)
  {
    var p := w.loops[l];
    if act.Advance? || act.loop != l {
    } else if act.Tick? || act.Stop? {
      PunctualTickOrStop(p, w.store.now);
    } else if act.Finish? || act.SettleLate? {
      PunctualEnd(p, act.index, w.store.now);
    } else {
      PunctualAttemptAction(w, act);
    }
  }

  lemma AttemptActionKeepsClock(w: World, act: Action)
    requires Enabled(w, act) && (act.Work? || act.Release? || act.Expire? || act.Decide?)
    ensures Apply(w, act).store.now == w.store.now && |Apply(w, act).loops| == |w.loops|
  {
  }

  lemma PunctualAttemptAction(w: World, act: Action)
    requires AllLoopInv(w) && Enabled(w, act) && (act.Work? || act.Release? || act.Expire? || act.Decide?)
    requires PunctualInv(w.loops[act.loop], w.store.now)
    ensures PunctualInv(Apply(w, act).loops[act.loop], w.store.now) && Apply(w, act).store.now == w.store.now
  {
    AttemptActionKeepsLoops(w, act);
    AttemptActionKeepsClock(w, act);
    assert LoopInv(Apply(w, act).loops[act.loop]);
    hide Apply, LoopInv, InTime;
    PunctualAttempt(w.loops[act.loop], Apply(w, act).loops[act.loop], act.index, w.store.now);
  }

  lemma PunctualTickOrStop(p: Loop, now: nat)
    requires PunctualInv(p, now) && p.opts.deadlineMs > 0
    ensures PunctualInv(Ticked(p, now), now) && PunctualInv(Stopped(p), now)
  {
    TickKeepsLoop(p, now);
    StopKeepsLoop(p);
  }

  lemma PunctualAttempt(p: Loop, q: Loop, i: nat, now: nat)
    requires PunctualInv(p, now) && SameAttemptFlags(p, q, i) && LoopInv(q)
    requires q.attempts[i].verdict == DeadlineHit ==> MayBeLate(p, i, now)
    ensures PunctualInv(q, now)
  {
    assert AttemptInv(p, p.attempts[i], i == |p.attempts| - 1);
  }

  lemma PunctualFinish(p: Loop, i: nat, now: nat)
    requires PunctualInv(p, now) && i < |p.attempts| && p.attempts[i].verdict != Undecided && !p.attempts[i].finished
    requires LoopInv(FinishedLoop(p, i, now))
    ensures PunctualInv(FinishedLoop(p, i, now), now)
  {
    assert AttemptInv(p, p.attempts[i], i == |p.attempts| - 1);
    hide AttemptInv;
    var q := FinishedLoop(p, i, now);
    if !q.view.stopped { assert InTime(q, now); }
  }

  lemma PunctualSettle(p: Loop, i: nat, now: nat)
    requires PunctualInv(p, now) && i < |p.attempts| && p.attempts[i].settleDue && p.attempts[i].task.phase.Settled?
    requires LoopInv(SettledLoop(p, i, now))
    ensures PunctualInv(SettledLoop(p, i, now), now)
  {
    assert AttemptInv(p, p.attempts[i], i == |p.attempts| - 1);
    hide AttemptInv;
  }

  lemma PunctualEnd(p: Loop, i: nat, now: nat)
    requires PunctualInv(p, now) && i < |p.attempts|
    ensures p.attempts[i].verdict != Undecided && !p.attempts[i].finished ==> PunctualInv(FinishedLoop(p, i, now), now)
    ensures p.attempts[i].settleDue && p.attempts[i].task.phase.Settled? ==> PunctualInv(SettledLoop(p, i, now), now)
  {
    assert LoopInv(p);
    hide LoopInv, InTime, FinishedLoop, SettledLoop, PunctualInv;
    if p.attempts[i].verdict != Undecided && !p.attempts[i].finished {
      FinishKeepsLoop(p, i, now);
      PunctualFinish(p, i, now);
    }
    if p.attempts[i].settleDue && p.attempts[i].task.phase.Settled? {
      SettleKeepsLoop(p, i, now);
      PunctualSettle(p, i, now);
    }
  }

  lemma {:induction false} PunctualRun(run: seq<World>, acts: seq<Action>, l: nat, k: nat)
    requires IsRun(run, acts) && k < |run| && l < |run[0].loops| && run[0].loops[l].opts.deadlineMs > 0
    requires forall n | 0 <= n < k :: l < |run[n].loops| && Punctual(run[n], acts[n], l)
    ensures l < |run[k].loops| && run[k].loops[l].opts == run[0].loops[l].opts
    ensures PunctualInv(run[k].loops[l], run[k].store.now)
  {
    RunKeepsLoops(run, acts, k);
    if k == 0 {
      assert Fresh(run[0].loops[l], run[0].store.now);
    } else {
      PunctualRun(run, acts, l, k - 1);
      RunKeepsLoops(run, acts, k - 1);
      PunctualStep(run[k - 1], acts[k - 1], l);
    }
  }

  /** A punctual, unstopped loop is never reported stalled, at any instant of any run. */
  lemma PunctualLoopIsNeverReportedStalled(run: seq<World>, acts: seq<Action>, l: nat, k: nat)
    requires IsRun(run, acts) && k < |run| && l < |run[0].loops| && run[0].loops[l].opts.deadlineMs > 0
    requires forall n | 0 <= n < k :: l < |run[n].loops| && Punctual(run[n], acts[n], l)
    ensures l < |run[k].loops| && StatusAt(run[k].loops[l].view, run[k].store.now) != StatusStalled
  {
    PunctualRun(run, acts, l, k);
  }
}
