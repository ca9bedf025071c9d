/**
 Any number of background loops, on any number of replicas, sharing one lease object in a
 bucket. One `Action` is one uninterrupted stretch of code: a timer callback, the effect of a
 bucket operation, or the code between two awaits. A run is any sequence of enabled actions.
 */
module LoopSystem {
  import opened Common
  import opened LoopState

  // ----- the lease object -----

  /** Every attempt draws a fresh holder id; `Outside` stands for any other writer's record. */
  datatype Holder = Outside(id: nat) | Of(loop: nat, index: nat)

  datatype LockRecord = LockRecord(holder: Holder, expiresAt: nat)

  datatype Stored = Stored(record: LockRecord, etag: nat)

  /** The clock and the bucket, which all replicas share. */
  datatype Store = Store(now: nat, bucket: Option<Stored>, nextTag: nat)

  function Put(s: Store, r: LockRecord): Store {
    s.(bucket := Some(Stored(r, s.nextTag)), nextTag := s.nextTag + 1)
  }

  predicate TagMatches(s: Store, etag: nat) {
    s.bucket.Some? && s.bucket.value.etag == etag
  }

  // ----- one attempt -----

  datatype Options = Options(intervalMs: nat, deadlineMs: nat, abortOnStop: bool, leased: bool, hasShouldRun: bool)

  /** Where the work of an attempt stands. The acquiring phases carry the record's expiry. */
  datatype Phase =
    | Queued
    | CheckingShouldRun
    | Creating(expiresAt: nat)
    | ReadingLease(expiresAt: nat)
    | CreatingAgain(expiresAt: nat)
    | Judging(expiresAt: nat, seen: Stored)
    | Swapping(expiresAt: nat, etag: nat)
    | Granted
    | Refused
    | Running
    | Releasing(result: WorkResult)
    | Settled(result: WorkResult)

  /** The release call, which keeps going even when the work stops waiting for it. */
  datatype ReleaseCall = NotIssued | ReadingBack | Comparing(seen: Stored) | Expiring(etag: nat, at: nat) | Returned

  /** The work of one attempt, as its own code sees it. `releaseFailed`: the release met a bucket error. */
  datatype Task = Task(started: nat, phase: Phase, aborted: bool, acquired: bool, release: ReleaseCall,
                       releaseFailed: bool)

  /** `settleDue`: the attempt is over but its guard waits for the work to settle. */
  datatype Attempt = Attempt(task: Task, verdict: Verdict, finished: bool, settleDue: bool)

  datatype Context = Context(opts: Options, stopped: bool, me: Holder)

  /** How the awaited operation turns out. `ThrowApplied` is a write that lands but reports an error. */
  datatype Choice = Proceed | Decline | BeginStep | ThrowStopped | Throw | ThrowApplied

  /** `bodies` counts the step bodies and `run` calls that this stretch of code begins. */
  datatype Step = Step(task: Task, store: Store, bodies: nat)

  function Deadline(opts: Options, t: Task): nat {
    t.started + opts.deadlineMs
  }

  function Ttl(opts: Options, t: Task, now: nat): nat {
    Max(1, opts.deadlineMs - (now - t.started))
  }

  function At(t: Task, s: Store, phase: Phase): Step {
    Step(t.(phase := phase), s, 0)
  }

  /** The `finally` block: the lease is given back only while the attempt is not aborted. */
  function LeaveRun(cx: Context, s: Store, t: Task, r: WorkResult): Step {
    if cx.opts.leased && !t.aborted then Step(t.(phase := Releasing(r), release := ReadingBack), s, 0)
    else At(t, s, Settled(r))
  }

  function EnterRun(cx: Context, s: Store, t: Task): Step {
    if cx.stopped then LeaveRun(cx, s, t, StoppedError) else Step(t.(phase := Running), s, 1)
  }

  /** The guard in front of every step: an aborted attempt or a stopped loop begins no further step. */
  function EnterStep(cx: Context, s: Store, t: Task, phase: Phase): Step {
    if t.aborted then At(t, s, Settled(OtherError))
    else if cx.stopped then At(t, s, Settled(StoppedError))
    else Step(t.(phase := phase), s, 1)
  }

  function EnterLease(cx: Context, s: Store, t: Task): Step {
    if cx.opts.leased then EnterStep(cx, s, t, Creating(s.now + Ttl(cx.opts, t, s.now))) else EnterRun(cx, s, t)
  }

  function ShouldRunAnswered(cx: Context, s: Store, t: Task, c: Choice): Step {
    if c == Throw || t.aborted then At(t, s, Settled(OtherError))
    else if c == Decline then At(t, s, Settled(Nothing))
    else EnterLease(cx, s, t)
  }

  /** A conditional write of our record; `lands` is its precondition. */
  function WriteLease(cx: Context, s: Store, t: Task, c: Choice, expiresAt: nat, lands: bool, otherwise: Phase): Step {
    var s' := if lands && c != Throw then Put(s, LockRecord(cx.me, expiresAt)) else s;
    At(t, s', if c == Throw || c == ThrowApplied then Settled(OtherError) else if lands then Granted else otherwise)
  }

  function ReadLease(s: Store, t: Task, c: Choice, expiresAt: nat): Step {
    At(t, s,
       if c == Throw then Settled(OtherError)
       else if s.bucket.None? then CreatingAgain(expiresAt)
       else Judging(expiresAt, s.bucket.value))
  }

  function JudgeLease(cx: Context, s: Store, t: Task, c: Choice, expiresAt: nat, seen: Stored): Step {
    At(t, s,
       if c == Throw then Settled(OtherError)
       else if seen.record.holder != cx.me && seen.record.expiresAt > s.now then Refused
       else Swapping(expiresAt, seen.etag))
  }

  function AcquireReturned(cx: Context, s: Store, t: Task, granted: bool): Step {
    if t.aborted then At(t, s, Settled(OtherError))
    else if granted then EnterRun(cx, s, t.(acquired := true))
    else At(t, s, Settled(Nothing))
  }

  function RunAdvanced(cx: Context, s: Store, t: Task, c: Choice): Step {
    if c == BeginStep then Step(t, s, if t.aborted || cx.stopped then 0 else 1)
    else
      LeaveRun(cx, s, t,
               if c == ThrowStopped && cx.stopped then StoppedError
               else if c == Throw || c == ThrowStopped then OtherError else Value)
  }

  /** The work of an attempt advances by one stretch of code. */
  function WorkStep(cx: Context, s: Store, t: Task, c: Choice): Step {
    match t.phase
    case Queued => if cx.opts.hasShouldRun then EnterStep(cx, s, t, CheckingShouldRun) else EnterLease(cx, s, t)
    case CheckingShouldRun => ShouldRunAnswered(cx, s, t, c)
    case Creating(e) => WriteLease(cx, s, t, c, e, s.bucket.None?, ReadingLease(e))
    case ReadingLease(e) => ReadLease(s, t, c, e)
    case CreatingAgain(e) => WriteLease(cx, s, t, c, e, s.bucket.None?, Refused)
    case Judging(e, seen) => JudgeLease(cx, s, t, c, e, seen)
    case Swapping(e, etag) => WriteLease(cx, s, t, c, e, TagMatches(s, etag), Refused)
    case Granted => AcquireReturned(cx, s, t, true)
    case Refused => AcquireReturned(cx, s, t, false)
    case Running => RunAdvanced(cx, s, t, c)
    case Releasing(r) => if t.release.Returned? || t.aborted then At(t, s, Settled(r)) else Step(t, s, 0)
    case Settled(_) => Step(t, s, 0)
  }

  function ReleaseReturned(t: Task, s: Store, failed: bool): Step {
    Step(t.(release := Returned, releaseFailed := failed), s, 0)
  }

  /** The release call advances by one stretch of code. */
  function ReleaseStep(cx: Context, s: Store, t: Task, c: Choice): Step {
    match t.release
    case ReadingBack =>
      if c == Throw then ReleaseReturned(t, s, true)
      else if s.bucket.None? then ReleaseReturned(t, s, false)
      else Step(t.(release := Comparing(s.bucket.value)), s, 0)
    case Comparing(seen) =>
      if t.aborted || seen.record.holder != cx.me then ReleaseReturned(t, s, false)
      else Step(t.(release := Expiring(seen.etag, s.now)), s, 0)
    case Expiring(etag, at) =>
      ReleaseReturned(t, if c != Throw && TagMatches(s, etag) then Put(s, LockRecord(cx.me, at)) else s, c == Throw)
    case NotIssued => Step(t, s, 0)
    case Returned => Step(t, s, 0)
  }

  // ----- the whole system -----

  /** `log` is the history of recorded outcomes and `bodies` the number of bodies begun so far. */
  datatype Loop = Loop(opts: Options, view: View, attempts: seq<Attempt>, stopAborted: bool, nextTick: nat,
                       log: seq<Outcome>, bodies: nat)

  datatype World = World(store: Store, loops: seq<Loop>)

  datatype Action =
    | Advance(ms: nat)
    | Tick(loop: nat)
    | Stop(loop: nat)
    | Work(loop: nat, index: nat, choice: Choice)
    | Release(loop: nat, index: nat, choice: Choice)
    | Expire(loop: nat, index: nat)
    | Decide(loop: nat, index: nat)
    | Finish(loop: nat, index: nat)
    | SettleLate(loop: nat, index: nat)

  function NewAttempt(now: nat): Attempt {
    Attempt(Task(now, Queued, false, false, NotIssued, false), Undecided, false, false)
  }

  function Ticked(p: Loop, now: nat): Loop {
    var q := p.(nextTick := now + p.opts.intervalMs);
    if p.view.stopped || p.view.running then q
    else q.(view := Begun(p.view, now), attempts := p.attempts + [NewAttempt(now)])
  }

  function AbortedByStop(a: Attempt): Attempt {
    a.(task := a.task.(aborted := true), verdict := if a.verdict == Undecided then StopHit else a.verdict)
  }

  function Stopped(p: Loop): Loop {
    var q := p.(view := p.view.(stopped := true));
    if p.opts.abortOnStop then
      q.(stopAborted := true,
         attempts := seq(|p.attempts|, i requires 0 <= i < |p.attempts| => AbortedByStop(p.attempts[i])))
    else q
  }

  function Expired(a: Attempt): Attempt {
    a.(task := a.task.(aborted := true), verdict := DeadlineHit)
  }

  function FinishedLoop(p: Loop, i: nat, now: nat): Loop
    requires i < |p.attempts|
  {
    var a := p.attempts[i];
    p.(view := Finished(p.view, a.verdict, p.stopAborted, a.task.started, now),
       log := if Cancelled(a.verdict, p.stopAborted) then p.log else p.log + [OutcomeOf(a.verdict)],
       attempts := p.attempts[i := a.(finished := true, settleDue := AwaitsSettlement(a.verdict, p.stopAborted))])
  }

  function SettledLoop(p: Loop, i: nat, now: nat): Loop
    requires i < |p.attempts|
  {
    p.(view := SettledLate(p.view, now), attempts := p.attempts[i := p.attempts[i].(settleDue := false)])
  }

  predicate InRange(w: World, l: nat, i: nat) {
    l < |w.loops| && i < |w.loops[l].attempts|
  }

  predicate Enabled(w: World, act: Action) {
    match act
    case Advance(_) => true
    case Tick(l) => l < |w.loops|
    case Stop(l) => l < |w.loops|
    case Work(l, i, _) => InRange(w, l, i)
    case Release(l, i, _) => InRange(w, l, i)
    case Expire(l, i) =>
      InRange(w, l, i) &&
      var a := w.loops[l].attempts[i];
      a.verdict == Undecided && w.store.now >= Deadline(w.loops[l].opts, a.task)
    case Decide(l, i) =>
      InRange(w, l, i) && w.loops[l].attempts[i].verdict == Undecided && w.loops[l].attempts[i].task.phase.Settled?
    case Finish(l, i) =>
      InRange(w, l, i) && w.loops[l].attempts[i].verdict != Undecided && !w.loops[l].attempts[i].finished
    case SettleLate(l, i) =>
      InRange(w, l, i) && w.loops[l].attempts[i].settleDue && w.loops[l].attempts[i].task.phase.Settled?
  }

  function WithAttempt(w: World, l: nat, i: nat, a: Attempt): World
    requires InRange(w, l, i)
  {
    w.(loops := w.loops[l := w.loops[l].(attempts := w.loops[l].attempts[i := a])])
  }

  function ContextOf(w: World, l: nat, i: nat): Context
    requires InRange(w, l, i)
  {
    Context(w.loops[l].opts, w.loops[l].view.stopped, Of(l, i))
  }

  function AfterStep(w: World, l: nat, i: nat, r: Step): World
    requires InRange(w, l, i)
  {
    var p := w.loops[l];
    var attempts := p.attempts[i := p.attempts[i].(task := r.task)];
    World(r.store, w.loops[l := p.(attempts := attempts, bodies := p.bodies + r.bodies)])
  }

  function Apply(w: World, act: Action): World
    requires Enabled(w, act)
  {
    match act
    case Advance(ms) => w.(store := w.store.(now := w.store.now + ms))
    case Tick(l) => w.(loops := w.loops[l := Ticked(w.loops[l], w.store.now)])
    case Stop(l) => w.(loops := w.loops[l := Stopped(w.loops[l])])
    case Work(l, i, c) => AfterStep(w, l, i, WorkStep(ContextOf(w, l, i), w.store, w.loops[l].attempts[i].task, c))
    case Release(l, i, c) =>
      AfterStep(w, l, i, ReleaseStep(ContextOf(w, l, i), w.store, w.loops[l].attempts[i].task, c))
    case Expire(l, i) => WithAttempt(w, l, i, Expired(w.loops[l].attempts[i]))
    case Decide(l, i) =>
      var a := w.loops[l].attempts[i];
      WithAttempt(w, l, i, a.(verdict := FromWork(a.task.phase.result)))
    case Finish(l, i) => w.(loops := w.loops[l := FinishedLoop(w.loops[l], i, w.store.now)])
    case SettleLate(l, i) => w.(loops := w.loops[l := SettledLoop(w.loops[l], i, w.store.now)])
  }

  /** Freshly registered loops; the lease object may hold anyone's old record. */
  ghost predicate Init(w: World) {
    && (w.store.bucket.Some? ==>
          w.store.bucket.value.record.holder.Outside? && w.store.bucket.value.etag < w.store.nextTag)
    && forall l | 0 <= l < |w.loops| :: Fresh(w.loops[l], w.store.now)
  }

  ghost predicate Fresh(p: Loop, now: nat) {
    && p.view == Registered(p.opts.intervalMs, p.opts.deadlineMs, now)
    && p.attempts == [] && !p.stopAborted && p.log == [] && p.bodies == 0 && p.nextTick == now
  }

  /** `run` lists the worlds visited by taking `acts` one after another. */
  ghost predicate IsRun(run: seq<World>, acts: seq<Action>) {
    && |run| == |acts| + 1
    && Init(run[0])
    && forall k | 0 <= k < |acts| :: Enabled(run[k], acts[k]) && run[k + 1] == Apply(run[k], acts[k])
  }
}
