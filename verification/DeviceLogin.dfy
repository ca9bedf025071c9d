/**
 The CLI's device sign-in: poll the server until it approves, fails or the code expires. Times are
 nanoseconds. `delay(k)` is how much time passes, beyond any requested sleep, before the clock is
 read for the k-th time; `replies(j)` is the result of the j-th poll.
 */
module DeviceLogin {
  import opened Common

  const SECOND: nat := 1_000_000_000
  const CLI_LOGIN_TIMEOUT: nat := 600 * SECOND

  datatype Reply =
    | Pending
    | Retryable(retryAfter: Option<nat>)
    | TransportError
    | Approved(token: string)
    | Refused(reason: string)

  predicate Final(r: Reply) {
    r.Approved? || r.Refused?
  }

  /** How long the wait before a poll was, when it began, and when the poll was sent with what timeout. */
  datatype Poll = Poll(interval: nat, since: nat, at: nat, timeout: nat, reply: Reply)

  datatype Outcome = SignedIn(token: string) | LoginFailed(reason: string) | TimedOut

  function BaseInterval(interval: nat): nat {
    Max(5, Min(interval, 60)) * SECOND
  }

  function Lifetime(expiresIn: nat): nat {
    Min(expiresIn * SECOND, CLI_LOGIN_TIMEOUT)
  }

  function NextPollInterval(current: nat, base: nat, retryAfter: Option<nat>): nat {
    match retryAfter
    case Some(delay) => Max(delay, base)
    case None => Min(current * 2, 60 * SECOND)
  }

  function IntervalAfter(current: nat, base: nat, reply: Reply): nat {
    match reply
    case Pending => base
    case Retryable(retryAfter) => NextPollInterval(current, base, retryAfter)
    case TransportError => NextPollInterval(current, base, None)
    case Approved(_) => current
    case Refused(_) => current
  }

  /** The base is the server's interval within five seconds and a minute; the code lives ten minutes at most. */
  lemma ServerTimesAreClamped(interval: nat, expiresIn: nat)
    ensures var base := BaseInterval(interval);
            && (5 <= interval <= 60 ==> base == interval * SECOND)
            && (interval < 5 ==> base == 5 * SECOND) && (interval > 60 ==> base == 60 * SECOND)
    ensures var lifetime := Lifetime(expiresIn);
            && lifetime <= expiresIn * SECOND && lifetime <= 600 * SECOND
            && (lifetime == expiresIn * SECOND || lifetime == 600 * SECOND)
  {
  }

  /**
   What a reply does to the interval: a hint is honoured, above the base; a retry without one and a
   transport error double it, up to a minute; a pending reply goes back to the base.
   */
  lemma IntervalFollowsReply(current: nat, base: nat, reply: Reply)
    ensures var next := IntervalAfter(current, base, reply);
            && (reply.Pending? ==> next == base)
            && (reply.Retryable? && reply.retryAfter.Some? ==>
                  var hint := reply.retryAfter.value;
                  next >= hint && next >= base && (next == hint || next == base))
            && (reply.TransportError? || reply == Retryable(None) ==>
                  next == if current <= 30 * SECOND then current + current else 60 * SECOND)
  {
  }

  function SaturatingSub(a: nat, b: nat): nat {
    if a >= b then a - b else 0
  }

  // ----- what the loop promises -----

  /** The interval in force after these polls. */
  ghost function IntervalNow(polls: seq<Poll>, base: nat): nat {
    if polls == [] then base else IntervalAfter(polls[|polls| - 1].interval, base, polls[|polls| - 1].reply)
  }

  ghost function LastAt(polls: seq<Poll>, start: nat): nat {
    if polls == [] then start else polls[|polls| - 1].at
  }

  /** The next poll is sent after a full wait of the interval then in force, and before the deadline. */
  ghost predicate MayFollow(p: Poll, polls: seq<Poll>, base: nat, start: nat, deadline: nat) {
    && (polls != [] ==> !Final(polls[|polls| - 1].reply))
    && p.interval == IntervalNow(polls, base)
    && LastAt(polls, start) <= p.since && p.since + p.interval <= p.at < deadline
    && 0 < p.timeout <= deadline - p.at
  }

  /** The polls of one sign-in that began at `start`. */
  ghost predicate Schedule(polls: seq<Poll>, base: nat, start: nat, deadline: nat, replies: nat -> Reply) {
    polls == [] ||
    var earlier, p := polls[..|polls| - 1], polls[|polls| - 1];
    Schedule(earlier, base, start, deadline, replies)
    && p.reply == replies(|earlier|) && MayFollow(p, earlier, base, start, deadline)
  }

  /** A request may take the configured time, or what is left until the deadline if that is less. */
  ghost predicate TimeoutsFit(polls: seq<Poll>, timeout: nat, deadline: nat) {
    forall j | 0 <= j < |polls| ::
      polls[j].timeout == timeout <= deadline - polls[j].at || polls[j].timeout == deadline - polls[j].at <= timeout
  }

  lemma TimeoutsExtend(polls: seq<Poll>, p: Poll, timeout: nat, deadline: nat)
    requires TimeoutsFit(polls, timeout, deadline)
    requires p.timeout == timeout <= deadline - p.at || p.timeout == deadline - p.at <= timeout
    ensures TimeoutsFit(polls + [p], timeout, deadline)
  {
  }

  lemma PolledOnce(polls: seq<Poll>, p: Poll, base: nat, start: nat)
    ensures IntervalNow(polls + [p], base) == IntervalAfter(p.interval, base, p.reply)
    ensures LastAt(polls + [p], start) == p.at
  {
  }

  lemma NothingPolled(base: nat, start: nat)
    ensures IntervalNow([], base) == base && LastAt([], start) == start
  {
  }

  lemma BaseIsBounded(interval: nat)
    ensures 0 < BaseInterval(interval) <= 60 * SECOND
  {
  }

  lemma NoTimeouts(timeout: nat, deadline: nat)
    ensures TimeoutsFit([], timeout, deadline)
  {
  }

  lemma EmptySchedule(base: nat, start: nat, deadline: nat, replies: nat -> Reply)
    ensures Schedule([], base, start, deadline, replies)
  {
  }

  lemma ScheduleExtends(polls: seq<Poll>, p: Poll, base: nat, start: nat, deadline: nat, replies: nat -> Reply)
    requires Schedule(polls, base, start, deadline, replies)
    requires p.reply == replies(|polls|) && MayFollow(p, polls, base, start, deadline)
    ensures Schedule(polls + [p], base, start, deadline, replies)
  {
    assert (polls + [p])[..|polls|] == polls;
  }

  /** Through any mix of replies the interval stays at or above the base. */
  lemma {:induction false} IntervalStaysAboveBase(polls: seq<Poll>, base: nat, start: nat, deadline: nat,
                                                  replies: nat -> Reply)
    requires base <= 60 * SECOND && Schedule(polls, base, start, deadline, replies)
    ensures base <= IntervalNow(polls, base) && forall j | 0 <= j < |polls| :: base <= polls[j].interval
  {
    if polls != [] {
      var earlier := polls[..|polls| - 1];
      IntervalStaysAboveBase(earlier, base, start, deadline, replies);
      assert forall j | 0 <= j < |earlier| :: earlier[j] == polls[j];
    }
  }

  lemma OneMore(k: nat, base: nat, start: nat, before: nat, at: nat)
    requires start + k * base <= before && before + base <= at
    ensures start + (k + 1) * base <= at
  {
    assert (k + 1) * base == k * base + base;
  }

  lemma LastPoll(polls: seq<Poll>, base: nat, start: nat, deadline: nat, replies: nat -> Reply)
    requires polls != [] && Schedule(polls, base, start, deadline, replies)
    ensures var earlier := polls[..|polls| - 1];
            && Schedule(earlier, base, start, deadline, replies)
            && LastAt(earlier, start) + IntervalNow(earlier, base) <= LastAt(polls, start) < deadline
  {
  }

  /** The k-th poll comes at least k base intervals after the start. */
  lemma {:induction false} PollsAreSpaced(polls: seq<Poll>, base: nat, start: nat, deadline: nat, replies: nat -> Reply)
    requires base <= 60 * SECOND && Schedule(polls, base, start, deadline, replies)
    ensures start + |polls| * base <= LastAt(polls, start)
    ensures polls != [] ==> |polls| * base < deadline - start
  {
    hide Schedule, IntervalNow;
    if polls != [] {
      var earlier := polls[..|polls| - 1];
      LastPoll(polls, base, start, deadline, replies);
      PollsAreSpaced(earlier, base, start, deadline, replies);
      IntervalStaysAboveBase(earlier, base, start, deadline, replies);
      OneMore(|earlier|, base, start, LastAt(earlier, start), LastAt(polls, start));
    }
  }

  /**
   Section 3.5 of RFC 8628 has a client that was told to slow down keep the longer interval for all
   later polls. The loop goes back to a shorter one in exactly three cases: a pending reply after a
   longer wait, a retry hint below the interval, and a retry without a hint above a minute.
   */
  lemma IntervalShrinksExactly(current: nat, base: nat, reply: Reply)
    requires base <= current && base <= 60 * SECOND
    ensures IntervalAfter(current, base, reply) < current <==>
              || (reply.Pending? && current > base)
              || (reply.Retryable? && reply.retryAfter.Some? && reply.retryAfter.value < current && base < current)
              || ((reply == Retryable(None) || reply.TransportError?) && current > 60 * SECOND)
  {
  }

  // ----- the loop -----

  method DeviceLogin(expiresIn: nat, interval: nat, timeout: nat, begin: nat, delay: nat -> nat, replies: nat -> Reply)
    returns (outcome: Outcome, polls: seq<Poll>, ended: nat)
    ensures Schedule(polls, BaseInterval(interval), begin, begin + Lifetime(expiresIn), replies)
    ensures polls != [] ==> |polls| * BaseInterval(interval) < Lifetime(expiresIn)
    ensures TimeoutsFit(polls, timeout, begin + Lifetime(expiresIn))
    ensures outcome == if polls == [] then TimedOut
                       else match polls[|polls| - 1].reply
                         case Approved(token) => SignedIn(token)
                         case Refused(reason) => LoginFailed(reason)
                         case Pending => TimedOut
                         case Retryable(_) => TimedOut
                         case TransportError => TimedOut
    // The loop gives up early only when the request timeout is zero.
    ensures outcome.TimedOut? && timeout > 0 ==> ended >= begin + Lifetime(expiresIn)
  {
    hide Schedule, TimeoutsFit, BaseInterval, Lifetime, IntervalNow, LastAt, NextPollInterval;
    BaseIsBounded(interval);
    NothingPolled(BaseInterval(interval), begin);
    NoTimeouts(timeout, begin + Lifetime(expiresIn));
    EmptySchedule(BaseInterval(interval), begin, begin + Lifetime(expiresIn), replies);
    var now, ticks := begin, 0;
    var deadline := now + Lifetime(expiresIn);
    var base := BaseInterval(interval);
    var wait := base;
    polls := [];
    now, ticks := now + delay(ticks), ticks + 1;
    while now < deadline
      invariant begin <= now
      invariant Schedule(polls, base, begin, deadline, replies)
      invariant TimeoutsFit(polls, timeout, deadline)
      invariant wait == IntervalNow(polls, base) && LastAt(polls, begin) <= now
      invariant polls != [] ==> !Final(polls[|polls| - 1].reply)
      decreases SaturatingSub(deadline, now)
    {
      IntervalStaysAboveBase(polls, base, begin, deadline, replies);
      now, ticks := now + delay(ticks), ticks + 1;
      var since := now;
      now := now + Min(wait, SaturatingSub(deadline, now));
      now, ticks := now + delay(ticks), ticks + 1;
      var requestTimeout := Min(timeout, SaturatingSub(deadline, now));
      if requestTimeout == 0 { break; }
      var reply := replies(|polls|);
      var poll := Poll(wait, since, now, requestTimeout, reply);
      ScheduleExtends(polls, poll, base, begin, deadline, replies);
      TimeoutsExtend(polls, poll, timeout, deadline);
      PolledOnce(polls, poll, base, begin);
      polls := polls + [poll];
      match reply {
        case Pending => wait := base;
        case Approved(token) =>
          PollsAreSpaced(polls, base, begin, deadline, replies);
          return SignedIn(token), polls, now;
        case Retryable(retryAfter) => wait := NextPollInterval(wait, base, retryAfter);
        case TransportError => wait := NextPollInterval(wait, base, None);
        case Refused(reason) =>
          PollsAreSpaced(polls, base, begin, deadline, replies);
          return LoginFailed(reason), polls, now;
      }
      now, ticks := now + delay(ticks), ticks + 1;
    }
    PollsAreSpaced(polls, base, begin, deadline, replies);
    return TimedOut, polls, now;
  }
}
