/**
 `mapWithConcurrency`: workers that share `next` and `results`. A step is what one worker does
 between two awaits, and a run is any interleaving of such steps. Each call of `fn` is named by the
 index it was given; `outcome(i)` is how the call on item `i` settles.
 */
module WorkerPool {
  import opened Common

  // ----- the pool size -----

  datatype Number = NaN | PositiveInfinity | NegativeInfinity | Finite(value: real)

  /** `Math.max(1, Math.min(requested, n))`, with `NaN` replaced by 1, as an array length. */
  function PoolSize(concurrency: Number, n: nat): (pool: nat)
    ensures 1 <= pool <= Max(1, n)
    ensures concurrency.NaN? || concurrency.NegativeInfinity? ==> pool == 1
    ensures concurrency.PositiveInfinity? ==> pool == Max(1, n)
    ensures concurrency.Finite? && concurrency.value < 1.0 ==> pool == 1
    ensures concurrency.Finite? && 1.0 <= concurrency.value ==> pool as real <= concurrency.value
    ensures concurrency.Finite? && 1.0 <= concurrency.value < n as real ==> concurrency.value < (pool + 1) as real
  {
    var requested := if concurrency.NaN? then Finite(1.0) else concurrency;
    match requested
    case PositiveInfinity => Max(1, n)
    case NegativeInfinity => 1
    case Finite(c) =>
      var capped := if c < n as real then c else n as real;
      (if 1.0 < capped then capped else 1.0).Floor
  }

  // ----- steps -----

  datatype Worker = Unstarted | Awaiting(index: nat) | Returned | Failed(index: nat)

  /** One call of `fn`, by its item and the worker that made it. */
  datatype Call = Call(index: nat, worker: nat)

  /** The shared variables, where each worker stands, and the calls made so far. */
  datatype State<R> = State(next: nat, workers: seq<Worker>, results: seq<Option<R>>, calls: seq<Call>)

  type Outcomes<!R> = nat -> Result<R>

  function Start<R>(n: nat, pool: nat): State<R> {
    State(0, seq(pool, _ => Unstarted), seq(n, _ => None), [])
  }

  /** The `while` head: take the next index and call `fn`, or return. */
  function Advance<R>(s: State<R>, w: nat): State<R>
    requires w < |s.workers|
  {
    if s.next < |s.results| then
      s.(next := s.next + 1, workers := s.workers[w := Awaiting(s.next)], calls := s.calls + [Call(s.next, w)])
    else s.(workers := s.workers[w := Returned])
  }

  predicate Enabled<R>(s: State<R>, w: nat) {
    w < |s.workers| && (s.workers[w].Unstarted? || s.workers[w].Awaiting?)
  }

  /** One worker starts, or resumes because its call has settled. */
  function Step<R>(s: State<R>, w: nat, outcome: Outcomes<R>): State<R>
    requires Enabled(s, w)
  {
    if s.workers[w].Unstarted? then Advance(s, w)
    else
      var i := s.workers[w].index;
      if outcome(i).Err? then s.(workers := s.workers[w := Failed(i)])
      else if i < |s.results| then Advance(s.(results := s.results[i := Some(outcome(i).value)]), w)
      else s
  }

  ghost predicate IsRun<R(!new)>(run: seq<State<R>>, picks: seq<nat>, n: nat, pool: nat, outcome: Outcomes<R>) {
    && |run| == |picks| + 1
    && run[0] == Start(n, pool)
    && forall k | 0 <= k < |picks| :: Enabled(run[k], picks[k]) && run[k + 1] == Step(run[k], picks[k], outcome)
  }

  // ----- the invariant -----

  /** The call on item `i` has not settled. */
  predicate InFlight<R>(s: State<R>, i: nat)
    requires i < |s.calls|
  {
    var w := s.calls[i].worker;
    w < |s.workers| && s.workers[w] == Awaiting(i)
  }

  /** Call `i` is on item `i`, and its worker is waiting for it, has stored its value, or died of it. */
  ghost predicate CallInv<R>(s: State<R>, i: nat, outcome: Outcomes<R>)
    requires i < |s.calls| == s.next <= |s.results|
  {
    var c := s.calls[i];
    && c.index == i && c.worker < |s.workers|
    && (s.results[i].Some? ==> outcome(i) == Ok(s.results[i].value) && !InFlight(s, i))
    && (InFlight(s, i) || s.results[i].Some? || (outcome(i).Err? && s.workers[c.worker] == Failed(i)))
  }

  ghost predicate WorkerInv<R>(s: State<R>, w: nat, outcome: Outcomes<R>)
    requires w < |s.workers|
  {
    match s.workers[w]
    case Unstarted => true
    case Returned => s.next == |s.results|
    case Awaiting(i) => i < |s.calls| && s.calls[i].worker == w
    case Failed(i) => i < |s.calls| && s.calls[i].worker == w && outcome(i).Err?
  }

  ghost predicate Inv<R>(s: State<R>, n: nat, pool: nat, outcome: Outcomes<R>) {
    && |s.results| == n && |s.workers| == pool && |s.calls| == s.next <= n
    && (forall i | 0 <= i < s.next :: CallInv(s, i, outcome))
    && (forall i | s.next <= i < n :: s.results[i].None?)
    && (forall w | 0 <= w < pool :: WorkerInv(s, w, outcome))
  }

  lemma StepKeeps<R(!new)>(s: State<R>, w: nat, n: nat, pool: nat, outcome: Outcomes<R>)
    requires Inv(s, n, pool, outcome) && Enabled(s, w)
    ensures Inv(Step(s, w, outcome), n, pool, outcome)
  {
    var t := Step(s, w, outcome);
    assert WorkerInv(s, w, outcome);
    forall i | 0 <= i < t.next ensures CallInv(t, i, outcome) {
      if i < s.next { assert CallInv(s, i, outcome); }
    }
    forall v | 0 <= v < pool ensures WorkerInv(t, v, outcome) {
      assert WorkerInv(s, v, outcome);
    }
  }

  lemma {:induction false} RunKeeps<R(!new)>(run: seq<State<R>>, picks: seq<nat>, n: nat, pool: nat,
                                             outcome: Outcomes<R>, k: nat)
    requires IsRun(run, picks, n, pool, outcome) && k < |run|
    ensures Inv(run[k], n, pool, outcome)
    ensures Remaining(run[k]) == pool + n - k
  {
    if k == 0 {
      AllBusy(pool);
    } else {
      RunKeeps(run, picks, n, pool, outcome, k - 1);
      assert WorkerInv(run[k - 1], picks[k - 1], outcome);
      StepKeeps(run[k - 1], picks[k - 1], n, pool, outcome);
      StepCounts(run[k - 1], picks[k - 1], outcome);
    }
  }

  // ----- how long a run can be -----

  function Busy(workers: seq<Worker>): nat {
    if workers == [] then 0 else (if workers[0].Unstarted? || workers[0].Awaiting? then 1 else 0) + Busy(workers[1..])
  }

  /** A bound on the steps left, exact when no call fails. */
  ghost function Remaining<R>(s: State<R>): int {
    Busy(s.workers) + |s.results| - s.next
  }

  lemma {:induction false} AllBusy(pool: nat)
    ensures Busy(seq(pool, _ => Unstarted)) == pool
  {
    if pool > 0 {
      AllBusy(pool - 1);
      assert seq(pool, _ => Unstarted)[1..] == seq(pool - 1, _ => Unstarted);
    }
  }

  lemma {:induction false} BusyUpdate(workers: seq<Worker>, w: nat, x: Worker)
    requires w < |workers|
    ensures Busy(workers[w := x]) == Busy(workers) - Busy([workers[w]]) + Busy([x])
  {
    if w == 0 {
      assert workers[w := x][1..] == workers[1..];
    } else {
      BusyUpdate(workers[1..], w - 1, x);
      assert workers[w := x][1..] == workers[1..][w - 1 := x];
    }
  }

  lemma StepCounts<R(!new)>(s: State<R>, w: nat, outcome: Outcomes<R>)
    requires Enabled(s, w) && (s.workers[w].Awaiting? ==> s.workers[w].index < |s.results|)
    ensures Remaining(Step(s, w, outcome)) == Remaining(s) - 1
  {
    hide Busy;
    assert Step(s, w, outcome).workers == s.workers[w := Step(s, w, outcome).workers[w]];
    BusyUpdate(s.workers, w, Step(s, w, outcome).workers[w]);
    OneIsBusy(s.workers[w]);
    OneIsBusy(Step(s, w, outcome).workers[w]);
  }

  lemma OneIsBusy(x: Worker)
    ensures Busy([x]) == if x.Unstarted? || x.Awaiting? then 1 else 0
  {
  }

  lemma {:induction false} IdleMeansZero(workers: seq<Worker>)
    ensures Busy(workers) == 0 <==> forall w | 0 <= w < |workers| :: workers[w].Returned? || workers[w].Failed?
  {
    if workers != [] {
      IdleMeansZero(workers[1..]);
      assert forall w | 0 < w < |workers| :: workers[w] == workers[1..][w - 1];
    }
  }

  // ----- main results -----

  /** The items whose calls have not settled. */
  ghost function Unsettled<R>(s: State<R>): set<nat> {
    set i: nat | i < |s.calls| && InFlight(s, i)
  }

  lemma {:induction false} UnsettledBelow<R(!new)>(s: State<R>, n: nat, pool: nat, outcome: Outcomes<R>, k: nat)
    requires Inv(s, n, pool, outcome) && k <= pool
    ensures |set i: nat | i < |s.calls| && InFlight(s, i) && s.calls[i].worker < k| <= k
  {
    var some := set i: nat | i < |s.calls| && InFlight(s, i) && s.calls[i].worker < k;
    if k > 0 {
      UnsettledBelow(s, n, pool, outcome, k - 1);
      var fewer := set i: nat | i < |s.calls| && InFlight(s, i) && s.calls[i].worker < k - 1;
      var last := s.workers[k - 1];
      if last.Awaiting? {
        assert some <= fewer + {last.index};
        CardinalityMonotone(some, fewer + {last.index});
      } else {
        assert some == fewer;
      }
    } else {
      assert some == {};
    }
  }

  lemma {:induction false} CardinalityMonotone(a: set<nat>, b: set<nat>)
    requires a <= b
    ensures |a| <= |b|
  {
    if a != {} {
      var x :| x in a;
      CardinalityMonotone(a - {x}, b - {x});
    }
  }

  /**
   In every state of every interleaving: the calls made so far are on items 0, 1, 2, ... each once,
   at most `pool` of them have not settled, and a stored result is the value of the call on that item.
   */
  lemma CallsAreOnceAndBounded<R(!new)>(run: seq<State<R>>, picks: seq<nat>, n: nat, pool: nat, outcome: Outcomes<R>,
                                        k: nat)
    requires IsRun(run, picks, n, pool, outcome) && k < |run|
    ensures |run[k].calls| <= n && forall i | 0 <= i < |run[k].calls| :: run[k].calls[i].index == i
    ensures |Unsettled(run[k])| <= pool
    ensures |run[k].results| == n
    ensures forall i | 0 <= i < n && run[k].results[i].Some? ::
              i < |run[k].calls| && outcome(i) == Ok(run[k].results[i].value) && i !in Unsettled(run[k])
  {
    RunKeeps(run, picks, n, pool, outcome, k);
    var s := run[k];
    UnsettledBelow(s, n, pool, outcome, pool);
    forall i | 0 <= i < |s.calls| ensures s.calls[i].index == i && s.calls[i].worker < pool {
      assert CallInv(s, i, outcome);
    }
    forall i | 0 <= i < n && s.results[i].Some?
      ensures i < |s.calls| && outcome(i) == Ok(s.results[i].value) && i !in Unsettled(s)
    {
      assert i < s.next && CallInv(s, i, outcome);
    }
    assert Unsettled(s) == set i: nat | i < |s.calls| && InFlight(s, i) && s.calls[i].worker < pool;
  }

  /** What `Promise.all` over the workers reports: it rejects when a worker fails. */
  ghost predicate Resolved<R>(s: State<R>) {
    forall w | 0 <= w < |s.workers| :: s.workers[w].Returned?
  }

  ghost predicate Rejected<R>(s: State<R>) {
    exists w :: 0 <= w < |s.workers| && s.workers[w].Failed?
  }

  lemma ResolvedHasAll<R(!new)>(s: State<R>, n: nat, pool: nat, outcome: Outcomes<R>)
    requires Inv(s, n, pool, outcome) && pool > 0 && Resolved(s)
    ensures |s.calls| == n
    ensures forall i | 0 <= i < n :: outcome(i).Ok? && s.results[i] == Some(outcome(i).value)
  {
    assert WorkerInv(s, 0, outcome);
    forall i | 0 <= i < n ensures outcome(i).Ok? && s.results[i] == Some(outcome(i).value) {
      assert CallInv(s, i, outcome);
    }
  }

  lemma RejectedHasCause<R(!new)>(s: State<R>, n: nat, pool: nat, outcome: Outcomes<R>)
    requires Inv(s, n, pool, outcome) && Rejected(s)
    ensures exists i :: 0 <= i < n && outcome(i).Err?
  {
    var w :| 0 <= w < |s.workers| && s.workers[w].Failed?;
    assert WorkerInv(s, w, outcome);
  }

  /** What holds once no worker can move: the map's verdict, its results and the calls it made. */
  ghost predicate Settled<R(!new)>(s: State<R>, n: nat, outcome: Outcomes<R>) {
    && (Resolved(s) <==> forall i | 0 <= i < n :: outcome(i).Ok?)
    && (Rejected(s) <==> exists i :: 0 <= i < n && outcome(i).Err?)
    && (Resolved(s) ==>
          |s.calls| == n == |s.results| && forall i | 0 <= i < n :: s.results[i] == Some(outcome(i).value))
    && (|s.calls| < n ==> forall w | 0 <= w < |s.workers| :: s.workers[w].Failed?)
  }

  lemma IdleIsSettled<R(!new)>(s: State<R>, n: nat, pool: nat, outcome: Outcomes<R>)
    requires Inv(s, n, pool, outcome) && pool > 0 && Busy(s.workers) == 0
    ensures Settled(s, n, outcome)
  {
    IdleMeansZero(s.workers);
    forall w | 0 <= w < pool && |s.calls| < n ensures s.workers[w].Failed? { assert WorkerInv(s, w, outcome); }
    if Resolved(s) { ResolvedHasAll(s, n, pool, outcome); }
    if Rejected(s) { RejectedHasCause(s, n, pool, outcome); }
  }

  /**
   Every run stops within `pool + n` steps, whatever the interleaving. Once no worker can move, the
   map has resolved exactly when every call succeeds, with every result in input order; otherwise it
   has rejected, and an item was skipped only if every worker failed.
   */
  lemma MapSettles<R(!new)>(run: seq<State<R>>, picks: seq<nat>, n: nat, pool: nat, outcome: Outcomes<R>)
    requires IsRun(run, picks, n, pool, outcome) && pool > 0
    ensures |picks| <= pool + n
    ensures (forall w: nat :: !Enabled(run[|picks|], w)) ==> Settled(run[|picks|], n, outcome)
  {
    var s := run[|picks|];
    RunKeeps(run, picks, n, pool, outcome, |picks|);
    if forall w: nat :: !Enabled(s, w) {
      forall w: nat | w < |s.workers| ensures s.workers[w].Returned? || s.workers[w].Failed? { assert !Enabled(s, w); }
      IdleMeansZero(s.workers);
      IdleIsSettled(s, n, pool, outcome);
    }
  }

  lemma StartKeeps<R(!new)>(n: nat, pool: nat, outcome: Outcomes<R>)
    ensures Inv(Start<R>(n, pool), n, pool, outcome) && !Rejected(Start<R>(n, pool))
  {
  }

  lemma StepRejects<R(!new)>(s: State<R>, w: nat, outcome: Outcomes<R>)
    requires Enabled(s, w)
    ensures Rejected(Step(s, w, outcome)) <==>
          Rejected(s) || (s.workers[w].Awaiting? && outcome(s.workers[w].index).Err?)
  {
    var t := Step(s, w, outcome);
    assert t.workers == s.workers[w := t.workers[w]];
    if Rejected(s) {
      var v :| 0 <= v < |s.workers| && s.workers[v].Failed?;
      assert t.workers[v].Failed?;
    }
    if Rejected(t) {
      var v :| 0 <= v < |t.workers| && t.workers[v].Failed?;
      assert v == w || s.workers[v].Failed?;
    }
    assert s.workers[w].Awaiting? && outcome(s.workers[w].index).Err? ==> t.workers[w].Failed?;
  }

  lemma IdleResolves<R(!new)>(s: State<R>)
    requires Busy(s.workers) == 0 && !Rejected(s)
    ensures Resolved(s)
  {
    IdleMeansZero(s.workers);
  }

  lemma CallsInOrder<R(!new)>(s: State<R>, n: nat, pool: nat, outcome: Outcomes<R>)
    requires Inv(s, n, pool, outcome)
    ensures forall i | 0 <= i < |s.calls| :: s.calls[i].index == i && s.calls[i].worker < pool
    ensures forall w | 0 <= w < pool && s.workers[w].Awaiting? :: s.workers[w].index < n
  {
    forall i | 0 <= i < |s.calls| ensures s.calls[i].index == i && s.calls[i].worker < pool {
      assert CallInv(s, i, outcome);
    }
    forall w | 0 <= w < pool && s.workers[w].Awaiting? ensures s.workers[w].index < n {
      assert WorkerInv(s, w, outcome);
    }
  }

  /** The scheduler's pick when that worker can move, else the first one that can. */
  function Choose(workers: seq<Worker>, hint: nat): (w: nat)
    requires Busy(workers) > 0
    ensures w < |workers| && (workers[w].Unstarted? || workers[w].Awaiting?)
    ensures hint < |workers| && (workers[hint].Unstarted? || workers[hint].Awaiting?) ==> w == hint
    decreases |workers|
  {
    if hint < |workers| && (workers[hint].Unstarted? || workers[hint].Awaiting?) then hint
    else if workers[0].Unstarted? || workers[0].Awaiting? then 0
    else 1 + Choose(workers[1..], |workers|)
  }

  /**
   The whole call, run until every worker has stopped. `pick` is the scheduler: it may resume any
   worker that can move. With any requested concurrency and any scheduler the call ends; it resolves
   with every result in input order exactly when every call succeeds, and otherwise rejects with the
   reason of a failed call.
   */
  method MapWithConcurrency<R(!new)>(n: nat, concurrency: Number, outcome: Outcomes<R>, pick: nat -> nat)
    returns (results: Result<seq<R>>, calls: seq<Call>)
    ensures match results
            case Ok(values) => |values| == n && forall i | 0 <= i < n :: outcome(i) == Ok(values[i])
            case Err(reason) => exists i :: 0 <= i < n && outcome(i) == Err(reason)
    ensures results.Ok? ==> |calls| == n
    ensures |calls| <= n
    ensures forall i | 0 <= i < |calls| :: calls[i].index == i && calls[i].worker < PoolSize(concurrency, n)
  {
    hide Busy, CallInv, WorkerInv, Settled, Step, Rejected;
    var pool := PoolSize(concurrency, n);
    var s := Start<R>(n, pool);
    StartKeeps(n, pool, outcome);
    var round, failure := 0, None;
    while Busy(s.workers) > 0
      invariant Inv(s, n, pool, outcome)
      invariant failure.Some? <==> Rejected(s)
      invariant failure.Some? ==> exists i :: 0 <= i < n && outcome(i) == Err(failure.value)
      decreases Remaining(s)
    {
      var w := Choose(s.workers, pick(round));
      CallsInOrder(s, n, pool, outcome);
      StepKeeps(s, w, n, pool, outcome);
      StepCounts(s, w, outcome);
      StepRejects(s, w, outcome);
      if s.workers[w].Awaiting? && outcome(s.workers[w].index).Err? && failure.None? {
        failure := Some(outcome(s.workers[w].index).reason);
      }
      s := Step(s, w, outcome);
      round := round + 1;
    }
    CallsInOrder(s, n, pool, outcome);
    calls := s.calls;
    if failure.Some? { return Err(failure.value), calls; }
    assert Resolved(s) by { IdleResolves(s); }
    ResolvedHasAll(s, n, pool, outcome);
    results := Ok(seq(n, i requires 0 <= i < n => s.results[i].value));
  }
}
