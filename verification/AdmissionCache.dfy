/**
 The proxy's admission cache: any number of requests, each suspended at its awaits, over one shared
 `LazyMap`. One action is one uninterrupted stretch of code, so a run is any interleaving. Entries
 remember the load they came from. Times are milliseconds on one clock.
 */
module AdmissionCache {
  import opened Common

  const ADMISSION_TTL_MS := 5000

  /** The cache key: the request's identity and the parsed expiries of its principal (`None`: not a number). */
  datatype Key = Key(identity: string, expiries: seq<Option<int>>)

  /** A parsed deadline; one that does not parse is `NotANumber`. */
  datatype Deadline = Absent | NotANumber | At(time: int)

  datatype Admission = Admission(cacheable: bool, session: Deadline, context: Deadline)

  datatype Entry = Entry(admission: Admission, expiresAt: int, load: nat)

  // ----- deadlines -----

  /** The smallest of `t` and the finite expiries. */
  function Earliest(t: int, expiries: seq<Option<int>>): (r: int)
    ensures r <= t && forall e | e in expiries && e.Some? :: r <= e.value
    ensures r == t || Some(r) in expiries
  {
    if expiries == [] then t
    else
      var rest := Earliest(t, expiries[1..]);
      if expiries[0].Some? then Min(expiries[0].value, rest) else rest
  }

  function Expiry(startedAt: int, cacheable: bool, key: Key): int {
    Earliest(startedAt + (if cacheable then ADMISSION_TTL_MS else 0), key.expiries)
  }

  /** The earlier of the session and subject-context deadlines; `Math.min` gives NaN if either is NaN. */
  function Effective(a: Deadline, b: Deadline): Deadline {
    match (a, b)
    case (Absent, _) => b
    case (_, Absent) => a
    case (At(s), At(t)) => At(Min(s, t))
    case (NotANumber, _) => NotANumber
    case (_, NotANumber) => NotANumber
  }

  predicate Passed(now: int, d: Deadline) {
    d.At? && now >= d.time
  }

  predicate Expired(now: int, a: Admission) {
    Passed(now, Effective(a.session, a.context))
  }

  /** Each deadline is enforced exactly as long as the other one parses. */
  lemma DeadlinesAreEnforcedExactly(now: int, a: Admission)
    ensures Expired(now, a) <==>
              a.session != NotANumber && a.context != NotANumber && (Passed(now, a.session) || Passed(now, a.context))
  {
  }

  // ----- the shared map -----

  /** `superseded` holds the loads whose result must not be stored. */
  datatype Cache = Cache(values: map<Key, Entry>, pending: map<Key, nat>, superseded: set<nat>)

  /** Where a lookup gets its admission: a settled entry, found at a time, or a load in flight. */
  datatype Source = Settled(entry: Entry, at: int) | FromLoad(load: nat)

  function Delete(c: Cache, k: Key): Cache {
    c.(values := c.values - {k}, superseded := if k in c.pending then c.superseded + {c.pending[k]} else c.superseded)
  }

  /** `getFreshAdmission`, as a change of the cache. */
  function DropExpired(c: Cache, k: Key, now: int): Cache {
    if k in c.values && c.values[k].expiresAt <= now then Delete(c, k) else c
  }

  /** `getOrLoad`: `next` names the load that is started if one is needed. */
  function GetOrLoad(c: Cache, k: Key, next: nat, now: int): (Cache, Source) {
    if k in c.values then (c, Settled(c.values[k], now))
    else if k in c.pending && c.pending[k] !in c.superseded then (c, FromLoad(c.pending[k]))
    else (c.(pending := c.pending[k := next]), FromLoad(next))
  }

  /** A load returns: it is stored, unless superseded; then a stored entry takes its place. */
  function Store(c: Cache, k: Key, l: nat, loaded: Entry): (Cache, Entry) {
    if l !in c.superseded then (c.(values := c.values[k := loaded]), loaded)
    else if k in c.values then (c, c.values[k])
    else (c, loaded)
  }

  function Forget(c: Cache, k: Key, l: nat): Cache {
    if k in c.pending && c.pending[k] == l then c.(pending := c.pending - {k}) else c
  }

  /** Callers of one key share a load while it runs; once it is stored they are served from the entry. */
  lemma LoadIsSharedThenStored(c: Cache, k: Key, l: nat, other: nat, now: int, e: Entry)
    requires k !in c.values && k !in c.pending && l !in c.superseded
    ensures var started := GetOrLoad(c, k, l, now);
            && started.1 == FromLoad(l) && GetOrLoad(started.0, k, other, now) == started
            && GetOrLoad(Store(started.0, k, l, e).0, k, other, now).1 == Settled(e, now)
            && GetOrLoad(Forget(Store(started.0, k, l, e).0, k, l), k, other, now).1 == Settled(e, now)
  {
  }

  /** After a deletion the next caller starts over, and a load that was running is never stored. */
  lemma DeletedKeyStartsOver(c: Cache, k: Key, next: nat, now: int, e: Entry)
    ensures GetOrLoad(Delete(c, k), k, next, now).1 == FromLoad(next)
    ensures k in c.pending ==> Store(Delete(c, k), k, c.pending[k], e) == (Delete(c, k), e)
    ensures forall other | other != k ::
              && (other in Delete(c, k).values <==> other in c.values)
              && (other in c.values ==> Delete(c, k).values[other] == c.values[other])
  {
  }

  /** The shared map of the source, updated in place as the functions above say. */
  class LazyMap {
    var values: map<Key, Entry>
    var pending: map<Key, nat>
    var superseded: set<nat>

    ghost function Contents(): Cache
      reads this
    {
      Cache(values, pending, superseded)
    }

    constructor ()
      ensures Contents() == Cache(map[], map[], {})
    {
      values, pending, superseded := map[], map[], {};
    }

    method DeleteKey(k: Key)
      modifies this
      ensures Contents() == Delete(old(Contents()), k)
      ensures k !in values && (k in pending ==> pending[k] in superseded)
    {
      if k in pending { superseded := superseded + {pending[k]}; }
      values := values - {k};
    }

    method GetFreshAdmission(k: Key, now: int) returns (found: Option<Entry>)
      modifies this
      ensures Contents() == DropExpired(old(Contents()), k, now)
      ensures found.Some? <==> k in old(values) && now < old(values)[k].expiresAt
      ensures found.Some? ==> found.value == old(values)[k]
    {
      if k in values && values[k].expiresAt <= now {
        DeleteKey(k);
        return None;
      }
      return if k in values then Some(values[k]) else None;
    }

    method Lookup(k: Key, next: nat, now: int) returns (source: Source)
      modifies this
      ensures (Contents(), source) == GetOrLoad(old(Contents()), k, next, now)
      ensures source.FromLoad? ==> k !in values && k in pending && pending[k] == source.load
    {
      if k in values { return Settled(values[k], now); }
      if k in pending && pending[k] !in superseded { return FromLoad(pending[k]); }
      pending := pending[k := next];
      return FromLoad(next);
    }

    method LoadReturns(k: Key, l: nat, loaded: Entry) returns (result: Entry)
      modifies this
      ensures (Contents(), result) == Store(old(Contents()), k, l, loaded)
      ensures k in values ==> result == values[k]
    {
      if l !in superseded {
        values := values[k := loaded];
        return loaded;
      }
      return if k in values then values[k] else loaded;
    }

    method LoadForgotten(k: Key, l: nat)
      modifies this
      ensures Contents() == Forget(old(Contents()), k, l)
      ensures k in pending ==> pending[k] != l
    {
      if k in pending && pending[k] == l { pending := pending - {k}; }
    }
  }

  // ----- requests and loads -----

  /** `begun`: when the loader ran; `readAt`: when the session read it uses was issued; `at`: when it returned. */
  datatype LoadPhase = Queued | Loading(begun: int, readAt: int) | Returned(entry: Entry, at: int) | Failed

  /** `startedAt` and `speculated` belong to the request that started the load. */
  datatype Load = Load(key: Key, startedAt: int, speculated: bool, phase: LoadPhase)

  datatype RequestPhase =
    | Checking
    | Waiting(source: Source)
    | Forwarded(source: Source, entry: Entry, at: int)
    | Refused

  datatype Request = Request(key: Key, startedAt: int, speculated: bool, phase: RequestPhase)

  datatype World = World(now: int, cache: Cache, loads: seq<Load>, requests: seq<Request>)

  datatype Action =
    | Tick(ms: nat)
    | Arrive(key: Key)
    | Refuse(request: nat)                         // suspended, or the check itself failed
    | LookUp(request: nat)
    | Begin(load: nat)
    | Finish(load: nat, result: Option<Admission>) // `None`: refused or thrown
    | CleanUp(load: nat)
    | Resume(request: nat)
    | Evict(key: Key)

  predicate Unfinished(l: Load) {
    l.phase.Queued? || l.phase.Loading?
  }

  predicate Enabled(w: World, a: Action) {
    match a
    case Tick(_) => true
    case Arrive(_) => true
    case Refuse(r) => r < |w.requests| && w.requests[r].phase.Checking?
    case LookUp(r) => r < |w.requests| && w.requests[r].phase.Checking?
    case Begin(l) => l < |w.loads| && w.loads[l].phase.Queued?
    case Finish(l, result) =>
      && l < |w.loads| && w.loads[l].phase.Loading?
      && (result.Some? ==> !Passed(w.loads[l].phase.begun, result.value.session))
    case CleanUp(l) => l < |w.loads| && !Unfinished(w.loads[l])
    case Resume(r) => r < |w.requests| && w.requests[r].phase.Waiting? && Answered(w, w.requests[r].phase.source)
    case Evict(_) => true
  }

  predicate Answered(w: World, source: Source) {
    match source
    case Settled(_, _) => true
    case FromLoad(l) => l < |w.loads| && !Unfinished(w.loads[l])
  }

  function SetRequest(w: World, r: nat, phase: RequestPhase): World
    requires r < |w.requests|
  {
    w.(requests := w.requests[r := w.requests[r].(phase := phase)])
  }

  function SetLoad(w: World, l: nat, phase: LoadPhase): World
    requires l < |w.loads|
  {
    w.(loads := w.loads[l := w.loads[l].(phase := phase)])
  }

  function ArriveStep(w: World, k: Key): World {
    var cache := DropExpired(w.cache, k, w.now);
    var speculated := k !in cache.values && k !in cache.pending;
    w.(cache := cache, requests := w.requests + [Request(k, w.now, speculated, Checking)])
  }

  function LookUpStep(w: World, r: nat): World
    requires r < |w.requests|
  {
    var req := w.requests[r];
    var (cache, source) := GetOrLoad(DropExpired(w.cache, req.key, w.now), req.key, |w.loads|, w.now);
    var started := if source == FromLoad(|w.loads|) then [Load(req.key, req.startedAt, req.speculated, Queued)] else [];
    SetRequest(w.(cache := cache, loads := w.loads + started), r, Waiting(source))
  }

  function BeginStep(w: World, l: nat): World
    requires l < |w.loads|
  {
    var load := w.loads[l];
    var speculative := load.speculated && w.now < load.startedAt + ADMISSION_TTL_MS;
    SetLoad(w, l, Loading(w.now, if speculative then load.startedAt else w.now))
  }

  function FinishStep(w: World, l: nat, result: Option<Admission>): World
    requires l < |w.loads|
  {
    var load := w.loads[l];
    match result
    case None => SetLoad(w, l, Failed)
    case Some(a) =>
      var (cache, entry) := Store(w.cache, load.key, l, Entry(a, Expiry(load.startedAt, a.cacheable, load.key), l));
      SetLoad(w.(cache := cache), l, Returned(entry, w.now))
  }

  function Decide(w: World, r: nat, source: Source, e: Entry): World
    requires r < |w.requests|
  {
    var k := w.requests[r].key;
    if Expired(w.now, e.admission) then SetRequest(w.(cache := Delete(w.cache, k)), r, Refused)
    else
      var cache := if e.admission.cacheable then w.cache else Delete(w.cache, k);
      SetRequest(w.(cache := cache), r, Forwarded(source, e, w.now))
  }

  function ResumeStep(w: World, r: nat): World
    requires r < |w.requests| && w.requests[r].phase.Waiting? && Answered(w, w.requests[r].phase.source)
  {
    var source := w.requests[r].phase.source;
    match source
    case Settled(e, _) => Decide(w, r, source, e)
    case FromLoad(l) =>
      if w.loads[l].phase.Returned? then Decide(w, r, source, w.loads[l].phase.entry) else SetRequest(w, r, Refused)
  }

  function Apply(w: World, a: Action): World
    requires Enabled(w, a)
  {
    match a
    case Tick(ms) => w.(now := w.now + ms)
    case Arrive(k) => ArriveStep(w, k)
    case Refuse(r) => SetRequest(w, r, Refused)
    case LookUp(r) => LookUpStep(w, r)
    case Begin(l) => BeginStep(w, l)
    case Finish(l, result) => FinishStep(w, l, result)
    case CleanUp(l) => w.(cache := Forget(w.cache, w.loads[l].key, l))
    case Resume(r) => ResumeStep(w, r)
    case Evict(k) => w.(cache := w.cache.(values := w.cache.values - {k}))
  }

  predicate Initial(w: World) {
    w.cache == Cache(map[], map[], {}) && w.loads == [] && w.requests == []
  }

  ghost predicate IsRun(run: seq<World>, acts: seq<Action>) {
    && |run| == |acts| + 1 && Initial(run[0])
    && forall k | 0 <= k < |acts| :: Enabled(run[k], acts[k]) && run[k + 1] == Apply(run[k], acts[k])
  }

  // ----- what every run keeps -----

  /** The entry was made, with its expiry, by a load for exactly this key. */
  predicate MadeFor(w: World, k: Key, e: Entry) {
    && e.load < |w.loads| && w.loads[e.load].key == k && w.loads[e.load].startedAt <= w.now
    && w.loads[e.load].phase.Returned?
    && e.expiresAt == Expiry(w.loads[e.load].startedAt, e.admission.cacheable, k)
  }

  predicate SourceInv(w: World, k: Key, source: Source) {
    match source
    case Settled(e, at) => MadeFor(w, k, e) && w.loads[e.load].startedAt <= at <= w.now && at < e.expiresAt
    case FromLoad(l) => l < |w.loads| && w.loads[l].key == k
  }

  predicate LoadInv(w: World, l: nat)
    requires l < |w.loads|
  {
    var load := w.loads[l];
    load.startedAt <= w.now &&
    match load.phase
    case Queued => true
    case Loading(begun, readAt) =>
      && load.startedAt <= readAt <= begun <= w.now && begun - readAt < ADMISSION_TTL_MS
      && readAt == if load.speculated && begun - load.startedAt < ADMISSION_TTL_MS then load.startedAt else begun
    case Returned(e, at) =>
      && MadeFor(w, load.key, e) && (e.load != l ==> l in w.cache.superseded)
      && load.startedAt <= at <= w.now && w.loads[e.load].startedAt <= at
    case Failed => true
  }

  predicate RequestInv(w: World, r: nat)
    requires r < |w.requests|
  {
    var req := w.requests[r];
    req.startedAt <= w.now &&
    match req.phase
    case Checking => true
    case Waiting(source) => SourceInv(w, req.key, source)
    case Forwarded(source, e, at) =>
      && SourceInv(w, req.key, source) && at <= w.now && !Expired(at, e.admission)
      && (match source
          case Settled(found, _) => e == found
          case FromLoad(l) => w.loads[l].phase.Returned? && w.loads[l].phase.entry == e && w.loads[l].phase.at <= at)
    case Refused => true
  }

  ghost predicate Inv(w: World) {
    && (forall k | k in w.cache.values :: MadeFor(w, k, w.cache.values[k]))
    && (forall k | k in w.cache.pending :: w.cache.pending[k] < |w.loads| && w.loads[w.cache.pending[k]].key == k)
    && (forall l | 0 <= l < |w.loads| :: LoadInv(w, l))
    && (forall r | 0 <= r < |w.requests| :: RequestInv(w, r))
  }

  /** Loads keep their key and start, and answered loads their answer. */
  ghost predicate Extends(w: World, x: World) {
    && w.now <= x.now && |w.loads| <= |x.loads| && w.cache.superseded <= x.cache.superseded
    && forall l | 0 <= l < |w.loads| ::
         && x.loads[l].key == w.loads[l].key && x.loads[l].startedAt == w.loads[l].startedAt
         && (!Unfinished(w.loads[l]) ==> x.loads[l] == w.loads[l])
  }

  lemma StepExtends(w: World, a: Action)
    requires Enabled(w, a)
    ensures Extends(w, Apply(w, a))
  {
  }

  lemma MadeForKept(w: World, x: World, k: Key, e: Entry)
    requires Extends(w, x) && MadeFor(w, k, e)
    ensures MadeFor(x, k, e)
  {
  }

  lemma RequestKept(w: World, x: World, r: nat)
    requires Extends(w, x) && r < |w.requests| && r < |x.requests| && x.requests[r] == w.requests[r] && RequestInv(w, r)
    ensures RequestInv(x, r)
  {
  }

  lemma LoadKept(w: World, x: World, l: nat)
    requires Extends(w, x) && l < |w.loads| && x.loads[l] == w.loads[l] && LoadInv(w, l)
    ensures LoadInv(x, l)
  {
  }

  /** It is enough to look at what a step changed. */
  lemma Reestablish(w: World, x: World)
    requires Inv(w) && Extends(w, x)
    requires forall k | k in x.cache.values ::
          (k in w.cache.values && x.cache.values[k] == w.cache.values[k]) || MadeFor(x, k, x.cache.values[k])
    requires forall k | k in x.cache.pending ::
               (k in w.cache.pending && x.cache.pending[k] == w.cache.pending[k])
                     || (x.cache.pending[k] < |x.loads| && x.loads[x.cache.pending[k]].key == k)
    requires forall l | 0 <= l < |x.loads| :: (l < |w.loads| && x.loads[l] == w.loads[l]) || LoadInv(x, l)
    requires forall r | 0 <= r < |x.requests| ::
          (r < |w.requests| && x.requests[r] == w.requests[r]) || RequestInv(x, r)
    ensures Inv(x)
  {
    hide LoadInv, RequestInv;
    forall k | k in x.cache.values ensures MadeFor(x, k, x.cache.values[k]) {
      if k in w.cache.values && x.cache.values[k] == w.cache.values[k] { MadeForKept(w, x, k, x.cache.values[k]); }
    }
    forall l | 0 <= l < |x.loads| ensures LoadInv(x, l) {
      if l < |w.loads| && x.loads[l] == w.loads[l] { LoadKept(w, x, l); }
    }
    forall r | 0 <= r < |x.requests| ensures RequestInv(x, r) {
      if r < |w.requests| && x.requests[r] == w.requests[r] { RequestKept(w, x, r); }
    }
  }

  lemma LookUpChanges(w: World, r: nat)
    requires Inv(w) && Enabled(w, LookUp(r)) && Extends(w, LookUpStep(w, r))
    ensures var x := LookUpStep(w, r);
            && RequestInv(x, r)
            && (|x.loads| > |w.loads| ==> |x.loads| == |w.loads| + 1 && LoadInv(x, |w.loads|))
  {
    hide Expiry, Expired;
    var x := LookUpStep(w, r);
    assert RequestInv(w, r);
    var source := x.requests[r].phase.source;
    if source.Settled? { MadeForKept(w, x, w.requests[r].key, source.entry); }
  }

  lemma LookUpKeeps(w: World, r: nat)
    requires Inv(w) && Enabled(w, LookUp(r))
    ensures Inv(LookUpStep(w, r))
  {
    StepExtends(w, LookUp(r));
    LookUpChanges(w, r);
    hide RequestInv, LoadInv, MadeFor;
    Reestablish(w, LookUpStep(w, r));
  }

  lemma FinishKeeps(w: World, l: nat, result: Option<Admission>)
    requires Inv(w) && Enabled(w, Finish(l, result))
    ensures Inv(FinishStep(w, l, result))
  {
    hide Expiry;
    var x := FinishStep(w, l, result);
    StepExtends(w, Finish(l, result));
    assert LoadInv(w, l);
    assert LoadInv(x, l);
    Reestablish(w, x);
  }

  lemma ResumeChanges(w: World, r: nat)
    requires Inv(w) && Enabled(w, Resume(r)) && Extends(w, ResumeStep(w, r))
    ensures RequestInv(ResumeStep(w, r), r)
  {
    hide Expiry, Expired;
    assert RequestInv(w, r);
    var source := w.requests[r].phase.source;
    if source.FromLoad? { assert LoadInv(w, source.load); }
  }

  /** A resumed request changes only its own phase, and may drop or supersede cache entries. */
  ghost predicate OnlyRequestChanges(w: World, x: World, r: nat) {
    && x.now == w.now && x.loads == w.loads && x.cache.pending == w.cache.pending
    && (forall k | k in x.cache.values :: k in w.cache.values && x.cache.values[k] == w.cache.values[k])
    && |x.requests| == |w.requests| && forall q | 0 <= q < |w.requests| && q != r :: x.requests[q] == w.requests[q]
  }

  lemma ResumeShape(w: World, r: nat)
    requires Enabled(w, Resume(r))
    ensures OnlyRequestChanges(w, ResumeStep(w, r), r)
  {
    hide Expired;
  }

  lemma ResumeKeeps(w: World, r: nat)
    requires Inv(w) && Enabled(w, Resume(r))
    ensures Inv(ResumeStep(w, r))
  {
    StepExtends(w, Resume(r));
    ResumeChanges(w, r);
    ResumeShape(w, r);
    hide ResumeStep, RequestInv, LoadInv, MadeFor;
    Reestablish(w, ResumeStep(w, r));
  }

  lemma StepKeeps(w: World, a: Action)
    requires Inv(w) && Enabled(w, a)
    ensures Inv(Apply(w, a))
  {
    hide LookUpStep, FinishStep, ResumeStep, Expiry, Expired;
    match a
    case LookUp(r) => LookUpKeeps(w, r);
    case Finish(l, result) => FinishKeeps(w, l, result);
    case Resume(r) => ResumeKeeps(w, r);
    case Begin(l) =>
      StepExtends(w, a);
      assert LoadInv(w, l);
      assert LoadInv(Apply(w, a), l);
      Reestablish(w, Apply(w, a));
    case Tick(_) => StepExtends(w, a); Reestablish(w, Apply(w, a));
    case Arrive(_) => StepExtends(w, a); Reestablish(w, Apply(w, a));
    case Refuse(r) =>
      StepExtends(w, a);
      assert RequestInv(w, r);
      Reestablish(w, Apply(w, a));
    case CleanUp(_) => StepExtends(w, a); Reestablish(w, Apply(w, a));
    case Evict(_) => StepExtends(w, a); Reestablish(w, Apply(w, a));
  }

  lemma {:induction false} RunKeeps(run: seq<World>, acts: seq<Action>, k: nat)
    requires IsRun(run, acts) && k < |run|
    ensures Inv(run[k])
  {
    hide Apply, Enabled, Inv;
    if k == 0 {
      InitialInv(run[0]);
    } else {
      RunKeeps(run, acts, k - 1);
      StepKeeps(run[k - 1], acts[k - 1]);
    }
  }

  lemma InitialInv(w: World)
    requires Initial(w)
    ensures Inv(w)
  {
  }

  // ----- main results -----

  /** What a request was answered from, once it knows. */
  predicate HasSource(req: Request, source: Source) {
    req.phase == Waiting(source) || (req.phase.Forwarded? && req.phase.source == source)
  }

  /**
   A settled entry found at time `at` was loaded for the same key by a request that started less than
   five seconds before, every finite expiry of the principal lies after `at`, and it is no app or
   preview admission.
   */
  lemma SettledHitIsFresh(run: seq<World>, acts: seq<Action>, k: nat, r: nat, e: Entry, at: int)
    requires IsRun(run, acts) && k < |run| && r < |run[k].requests|
    requires HasSource(run[k].requests[r], Settled(e, at))
    ensures e.load < |run[k].loads| && run[k].loads[e.load].key == run[k].requests[r].key
    ensures at - ADMISSION_TTL_MS < run[k].loads[e.load].startedAt <= at
    ensures forall x | x in run[k].requests[r].key.expiries && x.Some? :: at < x.value
    ensures e.admission.cacheable
  {
    RunKeeps(run, acts, k);
    assert RequestInv(run[k], r);
  }

  predicate Parses(a: Admission) {
    a.session != NotANumber && a.context != NotANumber
  }

  /** Every deadline that a load of this run read could be parsed, as the stored schemas demand. */
  ghost predicate DeadlinesParse(acts: seq<Action>) {
    forall j | 0 <= j < |acts| && acts[j].Finish? && acts[j].result.Some? :: Parses(acts[j].result.value)
  }

  predicate SourceParses(source: Source) {
    source.Settled? ==> Parses(source.entry.admission)
  }

  ghost predicate AllParse(w: World) {
    && (forall k | k in w.cache.values :: Parses(w.cache.values[k].admission))
    && (forall l | 0 <= l < |w.loads| && w.loads[l].phase.Returned? :: Parses(w.loads[l].phase.entry.admission))
    && (forall r | 0 <= r < |w.requests| && w.requests[r].phase.Waiting? :: SourceParses(w.requests[r].phase.source))
    && (forall r | 0 <= r < |w.requests| && w.requests[r].phase.Forwarded? ::
          Parses(w.requests[r].phase.entry.admission))
  }

  lemma ResumeParses(w: World, r: nat)
    requires AllParse(w) && Enabled(w, Resume(r))
    ensures AllParse(ResumeStep(w, r))
  {
    var x := ResumeStep(w, r);
    ResumeShape(w, r);
    assert x.requests[r].phase.Forwarded? ==> Parses(x.requests[r].phase.entry.admission) by { hide Parses, Expired; }
    assert !x.requests[r].phase.Waiting?;
    hide ResumeStep, Parses;
  }

  lemma LookUpParses(w: World, r: nat)
    requires AllParse(w) && Enabled(w, LookUp(r))
    ensures AllParse(LookUpStep(w, r))
  {
    hide Parses;
  }

  lemma StepParses(w: World, a: Action)
    requires AllParse(w) && Enabled(w, a) && (a.Finish? && a.result.Some? ==> Parses(a.result.value))
    ensures AllParse(Apply(w, a))
  {
    hide Expiry, Parses, ResumeStep, LookUpStep;
    if a.Resume? {
      ResumeParses(w, a.request);
    } else if a.LookUp? {
      LookUpParses(w, a.request);
    }
  }

  lemma {:induction false} RunParses(run: seq<World>, acts: seq<Action>, k: nat)
    requires IsRun(run, acts) && k < |run| && DeadlinesParse(acts)
    ensures AllParse(run[k])
  {
    hide Apply, Enabled, Parses;
    if k > 0 {
      RunParses(run, acts, k - 1);
      StepParses(run[k - 1], acts[k - 1]);
    }
  }

  /**
   Every forward is decided before the session deadline and before the context deadline, if both
   parse; so it is in every run whose loads read only deadlines that parse.
   */
  lemma ForwardIsBeforeDeadlines(run: seq<World>, acts: seq<Action>, k: nat, r: nat)
    requires IsRun(run, acts) && k < |run| && r < |run[k].requests| && run[k].requests[r].phase.Forwarded?
    ensures var f := run[k].requests[r].phase;
            Parses(f.entry.admission) || DeadlinesParse(acts) ==>
              !Passed(f.at, f.entry.admission.session) && !Passed(f.at, f.entry.admission.context)
  {
    RunKeeps(run, acts, k);
    assert RequestInv(run[k], r);
    var f := run[k].requests[r].phase;
    DeadlinesAreEnforcedExactly(f.at, f.entry.admission);
    if DeadlinesParse(acts) { RunParses(run, acts, k); }
  }

  /**
   The session read a load uses was issued no earlier than its request, and within five seconds: it is
   the request's speculative read if there was one and it is that recent, and else a new one.
   */
  lemma SessionReadIsRecent(run: seq<World>, acts: seq<Action>, k: nat, l: nat)
    requires IsRun(run, acts) && k < |run| && l < |run[k].loads| && run[k].loads[l].phase.Loading?
    ensures var load := run[k].loads[l];
            && load.startedAt <= load.phase.readAt
            && load.phase.begun - ADMISSION_TTL_MS < load.phase.readAt <= load.phase.begun
            && load.phase.readAt == (if load.speculated && load.phase.begun - load.startedAt < ADMISSION_TTL_MS
                                     then load.startedAt else load.phase.begun)
  {
    RunKeeps(run, acts, k);
    assert LoadInv(run[k], l);
  }

  // ----- what a request gets -----

  /** The entry, if the key has one that has not expired. */
  function FreshEntry(w: World, k: Key): Option<Entry> {
    if k in w.cache.values && w.now < w.cache.values[k].expiresAt then Some(w.cache.values[k]) else None
  }

  /** A request reads ahead exactly when nothing is cached or under way for its key. */
  lemma ArrivalExactly(w: World, k: Key)
    ensures var w' := Apply(w, Arrive(k));
            && w'.loads == w.loads && |w'.requests| == |w.requests| + 1 && w'.requests[..|w.requests|] == w.requests
            && w'.requests[|w.requests|] ==
               Request(k, w.now, FreshEntry(w, k).None? && k !in w.cache.pending, Checking)
  {
  }

  /**
   A look-up is answered by an unexpired entry of the key if there is one; else by the load under way,
   unless it is superseded or an expired entry stands beside it; else by a load it starts itself.
   */
  lemma LookUpExactly(run: seq<World>, acts: seq<Action>, k: nat, r: nat)
    requires IsRun(run, acts) && k < |acts| && acts[k] == LookUp(r)
    ensures r < |run[k].requests| && r < |run[k + 1].requests|
    ensures var w, w', req := run[k], run[k + 1], run[k].requests[r];
            var found := FreshEntry(w, req.key);
            var joins := Joins(w, req.key);
            && w'.requests[r] == req.(phase := Waiting(if found.Some? then Settled(found.value, w.now)
                                                       else if joins then FromLoad(w.cache.pending[req.key])
                                                       else FromLoad(|w.loads|)))
            && w'.loads == if found.Some? || joins then w.loads
                           else w.loads + [Load(req.key, req.startedAt, req.speculated, Queued)]
  {
    RunKeeps(run, acts, k);
    var w, req := run[k], run[k].requests[r];
    assert Enabled(w, LookUp(r)) && run[k + 1] == LookUpStep(w, r);
    assert req.key in w.cache.pending ==> w.cache.pending[req.key] < |w.loads|;
    assert w.loads + [] == w.loads;
  }

  /** A load of the key is under way that a caller may share. */
  predicate Joins(w: World, k: Key) {
    k !in w.cache.values && k in w.cache.pending && w.cache.pending[k] !in w.cache.superseded
  }

  /** The admission that a source has come up with, if any. */
  function AnswerOf(w: World, source: Source): Option<Entry> {
    match source
    case Settled(e, _) => Some(e)
    case FromLoad(l) =>
      if l < |w.loads| && w.loads[l].phase.Returned? then Some(w.loads[l].phase.entry) else None
  }

  /** Both deadlines parse, and one of them has passed. */
  predicate TooLate(now: int, a: Admission) {
    Parses(a) && (Passed(now, a.session) || Passed(now, a.context))
  }

  /**
   A request is forwarded exactly when it found an entry or its load returned one, and that admission
   is not past a deadline; it is then forwarded with that very entry. The key's entry is dropped, and a
   load under way superseded, exactly when the admission is past a deadline or must not be cached.
   */
  lemma ForwardedExactly(run: seq<World>, acts: seq<Action>, k: nat, r: nat)
    requires IsRun(run, acts) && k < |acts| && acts[k] == Resume(r)
    ensures r < |run[k].requests| && run[k].requests[r].phase.Waiting? && r < |run[k + 1].requests|
    ensures var w, w' := run[k], run[k + 1];
            var key, source := w.requests[r].key, w.requests[r].phase.source;
            var answer := AnswerOf(w, source);
            var drops := answer.Some? && (TooLate(w.now, answer.value.admission) || !answer.value.admission.cacheable);
            && w'.requests[r].phase ==
               (if answer.Some? && !TooLate(w.now, answer.value.admission) then Forwarded(source, answer.value, w.now)
                else Refused)
            && w'.cache.values == (if drops then w.cache.values - {key} else w.cache.values)
            && w'.cache.superseded ==
               w.cache.superseded + (if drops && key in w.cache.pending then {w.cache.pending[key]} else {})
            && w'.loads == w.loads && w'.cache.pending == w.cache.pending
  {
    assert Enabled(run[k], Resume(r)) && run[k + 1] == ResumeStep(run[k], r);
    var source := run[k].requests[r].phase.source;
    var answer := AnswerOf(run[k], source);
    if answer.Some? { DeadlinesAreEnforcedExactly(run[k].now, answer.value.admission); }
    assert run[k].cache.superseded + {} == run[k].cache.superseded;
    hide Expired, TooLate;
  }

  /** A request that waits for a load is answered by it, or by another load's entry if it was superseded. */
  lemma AnswerIsTheLoadsUnlessSuperseded(run: seq<World>, acts: seq<Action>, k: nat, r: nat, l: nat)
    requires IsRun(run, acts) && k < |run| && r < |run[k].requests| && run[k].requests[r].phase.Forwarded?
    requires run[k].requests[r].phase.source == FromLoad(l)
    ensures var e := run[k].requests[r].phase.entry;
            && l < |run[k].loads| && run[k].loads[l].key == run[k].requests[r].key
            && e.load < |run[k].loads| && run[k].loads[e.load].key == run[k].requests[r].key
            && (e.load == l || l in run[k].cache.superseded)
  {
    RunKeeps(run, acts, k);
    assert RequestInv(run[k], r);
    assert LoadInv(run[k], l);
  }

  /** The entry has not expired: it is younger than its time to live and than every finite principal expiry. */
  lemma EntryInTimeExactly(w: World, k: Key, e: Entry, at: int)
    requires MadeFor(w, k, e) && w.loads[e.load].startedAt <= at
    ensures at < e.expiresAt <==>
              && e.admission.cacheable && at - w.loads[e.load].startedAt < ADMISSION_TTL_MS
              && forall x | x in k.expiries && x.Some? :: at < x.value
  {
  }

  /**
   A request that waited for load `l` is forwarded with an unexpired admission if and only if the
   admission is cacheable, less than five seconds have passed since the load that made it was started
   (its latency up to the return of `l`, and the wait until the request resumed), and no principal
   expiry has passed.
   */
  lemma AnswerInTimeExactly(run: seq<World>, acts: seq<Action>, k: nat, r: nat, l: nat)
    requires IsRun(run, acts) && k < |run| && r < |run[k].requests| && run[k].requests[r].phase.Forwarded?
    requires run[k].requests[r].phase.source == FromLoad(l)
    ensures l < |run[k].loads| && run[k].loads[l].phase.Returned?
    ensures var f, returnedAt := run[k].requests[r].phase, run[k].loads[l].phase.at;
            && f.entry.load < |run[k].loads|
            && var startedAt := run[k].loads[f.entry.load].startedAt;
            && startedAt <= returnedAt <= f.at
            && (f.at < f.entry.expiresAt <==>
                  && f.entry.admission.cacheable
                  && f.at - startedAt < ADMISSION_TTL_MS
                  && forall x | x in run[k].requests[r].key.expiries && x.Some? :: f.at < x.value)
  {
    RunKeeps(run, acts, k);
    assert RequestInv(run[k], r);
    assert LoadInv(run[k], l);
    var f := run[k].requests[r].phase;
    EntryInTimeExactly(run[k], run[k].requests[r].key, f.entry, f.at);
  }

  /** The step in which a load returned. */
  lemma {:induction false} ReturnStep(run: seq<World>, acts: seq<Action>, k: nat, l: nat) returns (j: nat)
    requires IsRun(run, acts) && k < |run| && l < |run[k].loads| && run[k].loads[l].phase.Returned?
    ensures j < k && acts[j].Finish? && acts[j].load == l && acts[j].result.Some?
    ensures l < |run[j + 1].loads| && run[j + 1].loads[l] == run[k].loads[l]
  {
    StepExtends(run[k - 1], acts[k - 1]);
    if l < |run[k - 1].loads| && run[k - 1].loads[l].phase.Returned? {
      j := ReturnStep(run, acts, k - 1, l);
    } else {
      j := k - 1;
    }
  }

  /**
   A load answers with another load's entry if and only if, when it returned, it was superseded and
   its key had an entry, which is the one it answers with; otherwise it answers with the admission it
   loaded. Its answer is stored exactly when it was not superseded.
   */
  lemma SubstitutedExactly(run: seq<World>, acts: seq<Action>, k: nat, l: nat) returns (j: nat)
    requires IsRun(run, acts) && k < |run| && l < |run[k].loads| && run[k].loads[l].phase.Returned?
    ensures j < k && acts[j].Finish? && acts[j].load == l && l < |run[j].loads|
    ensures run[k].loads[l].phase.entry.load != l <==>
              l in run[j].cache.superseded && run[k].loads[l].key in run[j].cache.values
    ensures acts[j].result.Some?
    ensures var key, entry := run[k].loads[l].key, run[k].loads[l].phase.entry;
            && (entry.load != l ==> entry == run[j].cache.values[key])
            && (entry.load == l ==> entry.admission == acts[j].result.value)
            // It is kept for later requests unless it was superseded.
            && (l !in run[j].cache.superseded ==> run[j + 1].cache.values == run[j].cache.values[key := entry])
            && (l in run[j].cache.superseded ==> run[j + 1].cache.values == run[j].cache.values)
  {
    j := ReturnStep(run, acts, k, l);
    RunKeeps(run, acts, j);
    StepExtends(run[j], acts[j]);
    assert Enabled(run[j], acts[j]) && run[j + 1] == Apply(run[j], acts[j]);
  }

  // ----- when no load is answered by another -----

  /** The answer of the resumed request neither has expired nor must be dropped from the cache. */
  predicate LeavesCache(w: World, a: Action) {
    a.Resume? && Enabled(w, a) ==>
      match w.requests[a.request].phase.source
      case Settled(e, _) => e.admission.cacheable && !Expired(w.now, e.admission)
      case FromLoad(l) =>
        w.loads[l].phase.Returned? ==>
              var e := w.loads[l].phase.entry; e.admission.cacheable && !Expired(w.now, e.admission)
  }

  ghost predicate IsQuietRun(run: seq<World>, acts: seq<Action>) {
    IsRun(run, acts) && forall j | 0 <= j < |acts| :: LeavesCache(run[j], acts[j])
  }

  /** A load in flight is the pending one of its key, not superseded, and its key has no entry. */
  predicate InFlightInv(w: World, l: nat)
    requires l < |w.loads|
  {
    var k := w.loads[l].key;
    && (Unfinished(w.loads[l]) ==>
          k in w.cache.pending && w.cache.pending[k] == l && l !in w.cache.superseded && k !in w.cache.values)
    && (w.loads[l].phase.Returned? ==> w.loads[l].phase.entry.load == l)
  }

  ghost predicate QuietInv(w: World) {
    && (forall l | 0 <= l < |w.loads| :: InFlightInv(w, l))
    && (forall l | l in w.cache.superseded :: l < |w.loads|)
    && (forall k | k in w.cache.pending :: w.cache.pending[k] < |w.loads| && w.loads[w.cache.pending[k]].key == k)
  }

  lemma DropExpiredIsQuiet(w: World, k: Key)
    requires QuietInv(w)
    ensures QuietInv(w.(cache := DropExpired(w.cache, k, w.now)))
  {
    var x := w.(cache := DropExpired(w.cache, k, w.now));
    forall l | 0 <= l < |x.loads| ensures InFlightInv(x, l) { assert InFlightInv(w, l); }
  }

  lemma LookUpIsQuiet(w: World, r: nat)
    requires QuietInv(w) && Enabled(w, LookUp(r))
    ensures QuietInv(LookUpStep(w, r))
  {
    var k := w.requests[r].key;
    DropExpiredIsQuiet(w, k);
    var y, x := w.(cache := DropExpired(w.cache, k, w.now)), LookUpStep(w, r);
    hide DropExpired;
    forall l | 0 <= l < |x.loads| ensures InFlightInv(x, l) {
      if l < |w.loads| { assert InFlightInv(y, l); }
    }
  }

  lemma QuietStep(w: World, a: Action)
    requires QuietInv(w) && Enabled(w, a) && LeavesCache(w, a)
    ensures QuietInv(Apply(w, a))
  {
    hide Expiry, Expired, LookUpStep, DropExpired;
    var x := Apply(w, a);
    if a.LookUp? {
      LookUpIsQuiet(w, a.request);
    } else {
      if a.Arrive? { DropExpiredIsQuiet(w, a.key); }
      forall l | 0 <= l < |x.loads| ensures InFlightInv(x, l) {
        assert InFlightInv(w, l);
        if a.Arrive? { assert InFlightInv(w.(cache := DropExpired(w.cache, a.key, w.now)), l); }
        if a.Finish? { assert InFlightInv(w, a.load); }
      }
    }
  }

  lemma {:induction false} QuietRun(run: seq<World>, acts: seq<Action>, k: nat)
    requires IsQuietRun(run, acts) && k < |run|
    ensures QuietInv(run[k])
  {
    hide Apply, Enabled, LeavesCache;
    if k > 0 {
      QuietRun(run, acts, k - 1);
      assert LeavesCache(run[k - 1], acts[k - 1]);
      QuietStep(run[k - 1], acts[k - 1]);
    }
  }

  /**
   As long as no resumed request finds its admission expired or uncacheable, every request that
   waits for a load is answered by exactly that load, and in time exactly when that load was.
   */
  lemma QuietAnswersAreTheLoads(run: seq<World>, acts: seq<Action>, k: nat, r: nat, l: nat)
    requires IsQuietRun(run, acts) && k < |run|
    requires r < |run[k].requests| && run[k].requests[r].phase.Forwarded?
          && run[k].requests[r].phase.source == FromLoad(l)
    ensures var f := run[k].requests[r].phase;
            && f.entry.load == l < |run[k].loads|
            && (f.at < f.entry.expiresAt <==>
                  && f.entry.admission.cacheable && f.at - run[k].loads[l].startedAt < ADMISSION_TTL_MS
                  && forall x | x in run[k].requests[r].key.expiries && x.Some? :: f.at < x.value)
  {
    RunKeeps(run, acts, k);
    QuietRun(run, acts, k);
    assert RequestInv(run[k], r);
    assert InFlightInv(run[k], l);
    AnswerInTimeExactly(run, acts, k, r, l);
  }

  // ----- a superseded load answers with an entry nobody checked -----

  ghost function Last(run: seq<World>): World
    requires run != []
  {
    run[|run| - 1]
  }

  lemma Continue(run: seq<World>, acts: seq<Action>, a: Action) returns (longer: seq<World>, done: seq<Action>)
    requires IsRun(run, acts) && Enabled(Last(run), a)
    ensures longer != [] && IsRun(longer, done) && Last(longer) == Apply(Last(run), a)
    ensures IsQuietRun(run, acts) && LeavesCache(Last(run), a) ==> IsQuietRun(longer, done)
  {
    hide LeavesCache, Apply, Enabled;
    longer, done := run + [Apply(Last(run), a)], acts + [a];
    assert forall j | 0 <= j < |acts| :: longer[j] == run[j] && done[j] == acts[j];
  }

  /** A first request has started a load. */
  lemma LoadBegun(k: Key) returns (run: seq<World>, acts: seq<Action>)
    requires k.expiries == []
    ensures run != [] && IsRun(run, acts)
    ensures Last(run) == World(0, Cache(map[], map[k := 0], {}), [Load(k, 0, true, Loading(0, 0))],
                               [Request(k, 0, true, Waiting(FromLoad(0)))])
  {
    hide IsRun;
    var start := World(0, Cache(map[], map[], {}), [], []);
    run, acts := [start], [];
    assert IsRun(run, acts) by { StartIsRun(start); }
    run, acts := Continue(run, acts, Arrive(k));
    assert Last(run) == World(0, Cache(map[], map[], {}), [], [Request(k, 0, true, Checking)]);
    run, acts := Continue(run, acts, LookUp(0));
    var first := Request(k, 0, true, Waiting(FromLoad(0)));
    assert Last(run) == World(0, Cache(map[], map[k := 0], {}), [Load(k, 0, true, Queued)], [first]);
    run, acts := Continue(run, acts, Begin(0));
  }

  /** It has stored an admission whose context deadline is five seconds away. */
  lemma StoredEntry(k: Key) returns (run: seq<World>, acts: seq<Action>)
    requires k.expiries == []
    ensures run != [] && IsRun(run, acts)
    ensures var e, w := Entry(Admission(true, Absent, At(5000)), 5000, 0), Last(run);
            && w.now == 0 && w.cache == Cache(map[k := e], map[], {})
            && w.loads == [Load(k, 0, true, Returned(e, 0))] && |w.requests| == 1
  {
    hide IsRun;
    run, acts := LoadBegun(k);
    var first, e := Last(run).requests, Entry(Admission(true, Absent, At(5000)), 5000, 0);
    run, acts := Continue(run, acts, Finish(0, Some(e.admission)));
    assert Last(run) == World(0, Cache(map[k := e], map[k := 0], {}), [Load(k, 0, true, Returned(e, 0))], first);
    run, acts := Continue(run, acts, CleanUp(0));
    assert Last(run) == World(0, Cache(map[k := e], map[], {}), [Load(k, 0, true, Returned(e, 0))], first);
    run, acts := Continue(run, acts, Resume(0));
  }

  lemma StartIsRun(w: World)
    requires Initial(w)
    ensures IsRun([w], []) && IsQuietRun([w], [])
  {
  }

  /** A load that has run for nine seconds, and a request that joins it. */
  lemma JoinedSlowLoad(k: Key) returns (run: seq<World>, acts: seq<Action>)
    requires k.expiries == []
    ensures run != [] && IsQuietRun(run, acts)
    ensures Last(run) == World(9000, Cache(map[], map[k := 0], {}), [Load(k, 0, true, Loading(0, 0))],
                               [Request(k, 0, true, Waiting(FromLoad(0))),
                                Request(k, 9000, false, Waiting(FromLoad(0)))])
  {
    hide IsRun, IsQuietRun;
    var start := World(0, Cache(map[], map[], {}), [], []);
    run, acts := [start], [];
    assert IsRun(run, acts) && IsQuietRun(run, acts) by { StartIsRun(start); }
    run, acts := Continue(run, acts, Arrive(k));
    run, acts := Continue(run, acts, LookUp(0));
    var first := Request(k, 0, true, Waiting(FromLoad(0)));
    assert Last(run) == World(0, Cache(map[], map[k := 0], {}), [Load(k, 0, true, Queued)], [first]);
    run, acts := Continue(run, acts, Begin(0));
    run, acts := Continue(run, acts, Tick(9000));
    assert Last(run) == World(9000, Cache(map[], map[k := 0], {}), [Load(k, 0, true, Loading(0, 0))], [first]);
    run, acts := Continue(run, acts, Arrive(k));
    run, acts := Continue(run, acts, LookUp(1));
  }

  /**
   The five-second bound also fails for a load that is merely slow: a request that joins it is
   forwarded with an admission four seconds past its expiry, although nothing was ever deleted.
   */
  lemma JoinedSlowLoadAnswersStale(k: Key) returns (run: seq<World>, acts: seq<Action>)
    requires k.expiries == []
    ensures run != [] && IsQuietRun(run, acts)
    ensures var w := Last(run);
            && |w.loads| == 1 && w.loads[0].startedAt == 0
            && |w.requests| == 2 && w.requests[1].startedAt == 9000
            && w.requests[1].phase == Forwarded(FromLoad(0), Entry(Admission(true, Absent, Absent), 5000, 0), 9000)
  {
    run, acts := JoinedSlowLoad(k);
    assert IsRun(run, acts);
    hide IsRun, IsQuietRun;
    var requests := Last(run).requests;
    var e := Entry(Admission(true, Absent, Absent), 5000, 0);
    run, acts := Continue(run, acts, Finish(0, Some(e.admission)));
    run, acts := Continue(run, acts, CleanUp(0));
    assert Last(run) == World(9000, Cache(map[k := e], map[], {}), [Load(k, 0, true, Returned(e, 9000))], requests);
    run, acts := Continue(run, acts, Resume(0));
    assert Last(run).requests[1] == requests[1];
    run, acts := Continue(run, acts, Resume(1));
  }

  /**
   The next request finds that entry in its last millisecond; the one behind it finds it expired and
   starts a load, which the first then supersedes because its admission's deadline has passed.
   */
  lemma SupersededLoad(k: Key) returns (run: seq<World>, acts: seq<Action>)
    requires k.expiries == []
    ensures run != [] && IsRun(run, acts)
    ensures var w := Last(run);
            && w.now == 5000 && w.cache == Cache(map[], map[k := 1], {1})
            && |w.loads| == 2 && w.loads[1] == Load(k, 4999, false, Loading(5000, 5000))
            && |w.requests| == 3 && w.requests[2] == Request(k, 4999, false, Waiting(FromLoad(1)))
  {
    hide IsRun;
    run, acts := StoredEntry(k);
    var e, zero, loads := Entry(Admission(true, Absent, At(5000)), 5000, 0), Last(run).requests, Last(run).loads;
    run, acts := Continue(run, acts, Tick(4999));
    run, acts := Continue(run, acts, Arrive(k));
    run, acts := Continue(run, acts, Arrive(k));
    var checking := Request(k, 4999, false, Checking);
    assert Last(run) == World(4999, Cache(map[k := e], map[], {}), loads, zero + [checking, checking]);
    run, acts := Continue(run, acts, LookUp(1));
    run, acts := Continue(run, acts, Tick(1));
    var second := Request(k, 4999, false, Waiting(Settled(e, 4999)));
    assert Last(run) == World(5000, Cache(map[k := e], map[], {}), loads, zero + [second, checking]);
    run, acts := Continue(run, acts, LookUp(2));
    var third := Request(k, 4999, false, Waiting(FromLoad(1)));
    assert Last(run) == World(5000, Cache(map[], map[k := 1], {}), loads + [Load(k, 4999, false, Queued)],
                              zero + [second, third]);
    assert Expired(5000, e.admission);
    run, acts := Continue(run, acts, Resume(1));
    assert Last(run).cache == Cache(map[], map[k := 1], {1}) && Last(run).requests[2] == third;
    run, acts := Continue(run, acts, Begin(1));
  }

  /** An overtaking load has stored its entry while the superseded one is still under way. */
  lemma OvertakenLoad(k: Key) returns (run: seq<World>, acts: seq<Action>)
    requires k.expiries == []
    ensures run != [] && IsRun(run, acts)
    ensures var w, e := Last(run), Entry(Admission(true, Absent, Absent), 10000, 2);
            && w.now == 5000 && w.cache == Cache(map[k := e], map[], {1})
            && |w.loads| == 3 && w.loads[1] == Load(k, 4999, false, Loading(5000, 5000)) && w.loads[2].startedAt == 5000
            && |w.requests| == 4 && w.requests[2] == Request(k, 4999, false, Waiting(FromLoad(1)))
  {
    hide IsRun;
    run, acts := SupersededLoad(k);
    var w := Last(run);
    var e := Entry(Admission(true, Absent, Absent), 10000, 2);
    run, acts := Continue(run, acts, Arrive(k));
    assert Last(run) == w.(requests := w.requests + [Request(k, 5000, false, Checking)]);
    run, acts := Continue(run, acts, LookUp(3));
    var requests := w.requests + [Request(k, 5000, false, Waiting(FromLoad(2)))];
    assert Last(run) == World(5000, Cache(map[], map[k := 2], {1}), w.loads + [Load(k, 5000, false, Queued)], requests);
    run, acts := Continue(run, acts, Begin(2));
    assert Last(run).loads == w.loads + [Load(k, 5000, false, Loading(5000, 5000))];
    run, acts := Continue(run, acts, Finish(2, Some(e.admission)));
    run, acts := Continue(run, acts, CleanUp(2));
    assert Last(run) == World(5000, Cache(map[k := e], map[], {1}),
                              w.loads + [Load(k, 5000, false, Returned(e, 5000))], requests);
    run, acts := Continue(run, acts, Resume(3));
  }

  /**
   The five-second bound fails when a superseded load returns: the request that waited for it is
   answered with the entry of an overtaking load, four seconds after that entry expired. The order of
   steps is one the event loop takes: what waits for one promise resumes back to back.
   */
  lemma SupersededLoadAnswersStale(k: Key) returns (run: seq<World>, acts: seq<Action>)
    requires k.expiries == []
    ensures run != [] && IsRun(run, acts)
    ensures var w := Last(run);
            && |w.requests| == 4 && |w.loads| == 3 && w.loads[2].startedAt == 5000
            && w.requests[2].phase == Forwarded(FromLoad(1), Entry(Admission(true, Absent, Absent), 10000, 2), 14000)
  {
    hide IsRun;
    run, acts := OvertakenLoad(k);
    var w, e := Last(run), Entry(Admission(true, Absent, Absent), 10000, 2);
    run, acts := Continue(run, acts, Tick(9000));
    run, acts := Continue(run, acts, Finish(1, Some(e.admission)));
    run, acts := Continue(run, acts, CleanUp(1));
    assert Last(run).loads == w.loads[1 := Load(k, 4999, false, Returned(e, 14000))];
    assert Last(run).requests == w.requests && Last(run).cache.values == map[k := e];
    run, acts := Continue(run, acts, Resume(2));
  }
}
