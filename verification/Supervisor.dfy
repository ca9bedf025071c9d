/**
 The launch supervisor's side of the marker protocol: the events it emits, the JSON it writes for
 them, and what the parser and the tracker make of that.
 */
module Supervisor {
  import opened Common
  import opened Decimal
  import opened Json
  import opened JsonReader
  import opened LaunchProtocol
  import opened Text
  import T = LaunchTracker

  /** What the supervisor reports; an exit code is negative for a process that a signal ended. */
  datatype Event =
    | SetupTimedOut(setupMs: nat)
    | SetupExited(setupMs: nat, exitCode: int)
    | SetupCompleted(setupMs: nat)
    | KernelExited(setupMs: nat, waitportMs: nat, exitCode: int)
    | KernelReady(setupMs: nat, waitportMs: nat)
    | ReadinessTimedOut(setupMs: nat, waitportMs: nat)

  // ----- the writer -----

  function Fields(event: string, setupMs: nat, waitportMs: nat, exitCode: Option<int>): Members {
    var exit := if exitCode.Some? then Member("exitCode", Num(Integer(exitCode.value)), NoMember) else NoMember;
    Member("event", Str(event),
           Member("setupMs", Num(Integer(setupMs)), Member("waitportMs", Num(Integer(waitportMs)), exit)))
  }

  function EventFields(e: Event): Members {
    match e
    case SetupTimedOut(s) => Fields("setup_timeout", s, 0, None)
    case SetupExited(s, code) => Fields("setup_exit", s, 0, Some(code))
    case SetupCompleted(s) => Fields("setup_complete", s, 0, None)
    case KernelExited(s, w, code) => Fields("kernel_exit", s, w, Some(code))
    case KernelReady(s, w) => Fields("ready", s, w, None)
    case ReadinessTimedOut(s, w) => Fields("readiness_timeout", s, w, None)
  }

  function EventText(e: Event): string {
    Print(Obj(EventFields(e)))
  }

  /** What a launch should be reported as; completing setup is not an end. */
  function Reported(e: Event): Option<Outcome> {
    match e
    case SetupTimedOut(s) => Some(Outcome(SetupTimeout, s, 0, None))
    case SetupExited(s, code) => Some(Outcome(SetupExit, s, 0, Some(code)))
    case SetupCompleted(_) => None
    case KernelExited(s, w, code) => Some(Outcome(KernelExit, s, w, Some(code)))
    case KernelReady(s, w) => Some(Outcome(Ready, s, w, None))
    case ReadinessTimedOut(s, w) => Some(Outcome(ReadinessTimeout, s, w, None))
  }

  // ----- reading an event -----

  /** The members the parser looks at. */
  function PayloadOf(m: Members): Payload {
    var event := Get(m, "event");
    Payload(if event.Some? && event.value.Str? then Some(event.value.s) else None,
            ReadInteger(Get(m, "setupMs")), ReadInteger(Get(m, "waitportMs")), ReadInteger(Get(m, "exitCode")))
  }

  /** A decoder in the place of `JSON.parse`: any that reads the supervisor's texts as their members will do. */
  ghost predicate ReadsEvents(decode: Decoder, nonce: string) {
    forall e: Event ::
      decode(EventText(e)) == Some(PayloadOf(EventFields(e))) && RefusesLeftovers(EventText(e), nonce, decode)
  }

  function Decode(text: string): Option<Payload> {
    var members := ReadObject(text);
    if members.None? then None else Some(PayloadOf(members.value))
  }

  lemma FieldsReadBack(event: string, setupMs: nat, waitportMs: nat, exitCode: Option<int>)
    ensures var m := Fields(event, setupMs, waitportMs, exitCode);
            && m.Member? && Flat(m) && NumbersOk(Obj(m))
            && PayloadOf(m) == Payload(Some(event), Some(setupMs), Some(waitportMs), exitCode)
  {
    hide Integer, ReadInteger;
    IntegerReadsBack(setupMs);
    IntegerReadsBack(waitportMs);
    if exitCode.Some? { IntegerReadsBack(exitCode.value); }
    var exit := if exitCode.Some? then Member("exitCode", Num(Integer(exitCode.value)), NoMember) else NoMember;
    var wait := Member("waitportMs", Num(Integer(waitportMs)), exit);
    var setup := Member("setupMs", Num(Integer(setupMs)), wait);
    var m := Member("event", Str(event), setup);
    assert m == Fields(event, setupMs, waitportMs, exitCode);
    hide NumbersOk, FlatValue;
    assert MemberNumbersOk(NoMember) && Flat(NoMember);
    assert MemberNumbersOk(exit) && Flat(exit);
    assert MemberNumbersOk(wait) && Flat(wait);
    assert MemberNumbersOk(setup) && Flat(setup);
    StringIsFlat(event, setup);
    KeysDiffer();
    assert Get(NoMember, "waitportMs").None? && Get(NoMember, "setupMs").None? && Get(NoMember, "event").None?;
    assert Get(exit, "exitCode") == if exitCode.Some? then Some(Num(Integer(exitCode.value))) else None;
    assert Get(exit, "waitportMs").None? && Get(exit, "setupMs").None? && Get(exit, "event").None?;
    assert Get(wait, "setupMs").None? && Get(wait, "event").None? && Get(setup, "event").None?;
    assert Get(m, "exitCode") == Get(setup, "exitCode") == Get(wait, "exitCode") == Get(exit, "exitCode");
    assert Get(m, "waitportMs") == Get(setup, "waitportMs") == Get(wait, "waitportMs");
    assert Get(m, "setupMs") == Get(setup, "setupMs");
    NoInteger();
  }

  lemma StringIsFlat(event: string, rest: Members)
    requires MemberNumbersOk(rest) && Flat(rest)
    ensures var m := Member("event", Str(event), rest); NumbersOk(Obj(m)) && Flat(m)
  {
    var m := Member("event", Str(event), rest);
    assert NumbersOk(Str(event)) && MemberNumbersOk(m);
  }

  lemma KeysDiffer()
    ensures "event" != "setupMs" && "event" != "waitportMs" && "event" != "exitCode"
    ensures "setupMs" != "waitportMs" && "setupMs" != "exitCode" && "waitportMs" != "exitCode"
  {
    assert |"event"| == 5 && |"setupMs"| == 7 && |"exitCode"| == 8 && |"waitportMs"| == 10;
  }

  /** The parser's reading of the members is what the supervisor meant. */
  lemma MembersMeanTheEvent(e: Event)
    ensures OutcomeOf(PayloadOf(EventFields(e))) == Reported(e)
    ensures PayloadOf(EventFields(e)).event == Some("setup_complete") <==> e.SetupCompleted?
    ensures var m := EventFields(e); m.Member? && Flat(m) && NumbersOk(Obj(m))
  {
    hide Fields, PayloadOf;
    match e
    case SetupTimedOut(s) => FieldsReadBack("setup_timeout", s, 0, None);
    case SetupExited(s, code) => FieldsReadBack("setup_exit", s, 0, Some(code));
    case SetupCompleted(s) => FieldsReadBack("setup_complete", s, 0, None);
    case KernelExited(s, w, code) => FieldsReadBack("kernel_exit", s, w, Some(code));
    case KernelReady(s, w) => FieldsReadBack("ready", s, w, None);
    case ReadinessTimedOut(s, w) => FieldsReadBack("readiness_timeout", s, w, None);
  }

  lemma NotAnObject(nonce: string, payload: string)
    ensures RefusesLeftovers(payload, nonce, Decode)
  {
    hide ReadMembers;
    var m := Marker(nonce);
    assert m[1] == '_' && m[2] == 'M';
    assert (m[1..] + payload)[0] == m[1] && (m[2..] + payload)[0] == m[2];
  }

  /** A JSON reader for flat objects reads the supervisor's texts. */
  lemma DecodeReadsEvents(nonce: string)
    ensures ReadsEvents(Decode, nonce)
  {
    forall e: Event
      ensures Decode(EventText(e)) == Some(PayloadOf(EventFields(e))) && RefusesLeftovers(EventText(e), nonce, Decode)
    {
      hide EventFields, ReadObject, PayloadOf, Print, RefusesLeftovers;
      MembersMeanTheEvent(e);
      ReadObjectInverts(EventFields(e));
      NotAnObject(nonce, EventText(e));
    }
  }

  // ----- emission -----

  /** Kernel output `before`, then one event. */
  datatype Injection = Injection(before: string, event: Event)

  function Segments(injected: seq<Injection>): seq<Segment> {
    seq(|injected|, i requires 0 <= i < |injected| => Segment(injected[i].before, EventText(injected[i].event)))
  }

  /** The outcomes reported by the injected events, in order. */
  function Outcomes(injected: seq<Injection>): seq<Outcome> {
    if injected == [] then []
    else
      var first := Reported(injected[0].event);
      (if first.Some? then [first.value] else []) + Outcomes(injected[1..])
  }

  lemma {:induction false} LastIsBrace(m: Members)
    ensures PrintMembers(m) != "" && PrintMembers(m)[|PrintMembers(m)| - 1] == '}'
  {
    if m.Member? && m.rest.Member? { LastIsBrace(m.rest); }
  }

  lemma EventIsValid(e: Event, nonce: string, decode: Decoder)
    requires ReadsEvents(decode, nonce)
    ensures ValidPayload(EventText(e), decode) && RefusesLeftovers(EventText(e), nonce, decode)
    ensures OutcomeOf(decode(EventText(e)).value) == Reported(e)
    ensures decode(EventText(e)).value.event == Some("setup_complete") <==> e.SetupCompleted?
  {
    MembersMeanTheEvent(e);
    EventTextEnds(e);
    hide EventFields, EventText, PayloadOf, OutcomeOf, Reported, RefusesLeftovers;
  }

  lemma EventTextEnds(e: Event)
    ensures NoNewline(EventText(e)) && EventText(e) != "" && EventText(e)[|EventText(e)| - 1] == '}'
  {
    hide EventFields, PrintMembers, NumbersOk;
    MembersMeanTheEvent(e);
    PrintHasNoNewline(Obj(EventFields(e)));
    LastIsBrace(EventFields(e));
    EventEnds(EventFields(e));
  }

  lemma EventEnds(m: Members)
    requires PrintMembers(m) != ""
    ensures var text := Print(Obj(m)); text != "" && text[|text| - 1] == PrintMembers(m)[|PrintMembers(m)| - 1]
  {
    hide PrintMembers;
  }

  lemma {:induction false} EmittedEventsAre(injected: seq<Injection>, nonce: string, decode: Decoder)
    requires ReadsEvents(decode, nonce)
    ensures EmittedEvents(Segments(injected), decode) == Outcomes(injected)
    ensures ValidPayloads(Segments(injected), nonce, decode)
  {
    hide EventText, OutcomeOf, Reported, ReadsEvents, RefusesLeftovers;
    if injected != [] {
      EventIsValid(injected[0].event, nonce, decode);
      EmittedEventsAre(injected[1..], nonce, decode);
      assert Segments(injected)[1..] == Segments(injected[1..]);
      var segs := Segments(injected);
      forall i | 0 <= i < |segs|
        ensures ValidPayload(segs[i].payload, decode) && RefusesLeftovers(segs[i].payload, nonce, decode)
      {
        if i > 0 { assert segs[1..][i - 1] == segs[i]; }
      }
    }
    assert injected == [] ==> Segments(injected) == [];
  }

  ghost predicate Undisturbed(injected: seq<Injection>, nonce: string) {
    forall i | 0 <= i < |injected| :: !Overlaps(Remainder(injected[i].before), nonce)
  }

  /**
   What the supervisor emits into marker-free kernel output comes back as it was meant, with kind,
   durations and exit code, in order, and the kernel's own output with it, if and only if no event
   follows an unfinished line that overlaps the marker.
   */
  lemma EventsComeBackExactly(injected: seq<Injection>, tail: string, nonce: string, decode: Decoder)
    requires PlainNonce(nonce) && MarkerFree(Segments(injected), tail, nonce) && ReadsEvents(decode, nonce)
    ensures var marker, segs := Marker(nonce), Segments(injected);
            var expected := Parsed(KernelText(segs, tail), Outcomes(injected));
            Parse(Emitted(segs, tail, marker), marker, decode) == expected <==> Undisturbed(injected, nonce)
  {
    hide ReadsEvents, Overlaps, Remainder, Parse;
    EmittedEventsAre(injected, nonce, decode);
    RoundTripExactly(Segments(injected), tail, nonce, decode);
    var segs := Segments(injected);
    assert forall i | 0 <= i < |injected| :: segs[i].before == injected[i].before;
  }

  // ----- the tracker -----

  /** Each event fits the tracker's memory. */
  ghost predicate FitsCarry(injected: seq<Injection>, nonce: string) {
    forall i | 0 <= i < |injected| :: |Marker(nonce) + EventText(injected[i].event)| <= T.CARRY_MAX
  }

  ghost predicate SetupSeen(injected: seq<Injection>) {
    exists i :: 0 <= i < |injected| && injected[i].event.SetupCompleted?
  }

  lemma ScanSegment(latch: T.Latch, before: string, tagged: string, b: string, marker: string, decode: Decoder)
    requires InertLines(before, marker) && NoNewline(tagged)
    ensures var s, line := before + tagged + "\n" + b, Remainder(before) + tagged;
            && CompleteLines(s) == CompleteLines(before) + ([line] + CompleteLines(b))
            && T.Scan(latch, CompleteLines(s), marker, decode) ==
               T.Scan(T.Observe(latch, line, marker, decode), CompleteLines(b), marker, decode)
  {
    hide CompleteLines, Remainder, T.Observe, Inert;
    var line := Remainder(before) + tagged;
    LaunchProtocol.Regroup(before, tagged, b);
    LinesOfConcat(before, tagged + "\n" + b);
    LaunchProtocol.Regroup(Remainder(before), tagged, b);
    RemainderHasNoNewline(before);
    LinesOfOne(line, b);
    var own, rest := CompleteLines(before), [line] + CompleteLines(b);
    T.ScanConcat(latch, own, rest, marker, decode);
    T.ScanInert(latch, own, marker, decode);
    assert rest[0] == line && rest[1..] == CompleteLines(b);
  }

  /** The tracker's reading of one event's line. */
  lemma ObserveEvent(latch: T.Latch, r: string, e: Event, nonce: string, decode: Decoder)
    requires PlainNonce(nonce) && ReadsEvents(decode, nonce) && !Contains(r, Marker(nonce)) && !Overlaps(r, nonce)
    ensures var tagged := Marker(nonce) + EventText(e);
            && T.Observe(latch, r + tagged, Marker(nonce), decode) ==
               T.Latch(T.OrElse(Reported(e), latch.outcome), latch.setupSeen || e.SetupCompleted?)
            && (|tagged| <= T.CARRY_MAX ==> T.NearEnd(r + tagged, Marker(nonce)))
  {
    hide IndexOf, EventText, Contains, Overlaps, OutcomeOf, Reported, ReadsEvents;
    var m := Marker(nonce);
    var line := r + (m + EventText(e));
    EventIsValid(e, nonce, decode);
    MarkerFirstExactly(r, EventText(e), nonce);
    assert StripReturn(line) == line by { assert line[|line| - 1] == EventText(e)[|EventText(e)| - 1]; }
    assert line[|r| + |m|..] == EventText(e);
  }

  lemma InertIsNear(lines: seq<string>, marker: string)
    requires forall line | line in lines :: Inert(StripReturn(line), marker)
    ensures forall line | line in lines :: T.NearEnd(line, marker)
  {
  }

  lemma {:induction false} ScanEmitted(latch: T.Latch, injected: seq<Injection>, tail: string, nonce: string,
                                       decode: Decoder)
    requires PlainNonce(nonce) && MarkerFree(Segments(injected), tail, nonce) && ReadsEvents(decode, nonce)
    requires Undisturbed(injected, nonce) && FitsCarry(injected, nonce)
    ensures var lines := CompleteLines(Emitted(Segments(injected), tail, Marker(nonce)));
            && T.Scan(latch, lines, Marker(nonce), decode) ==
               T.Latch(T.OrElse(LastOf(Outcomes(injected)), latch.outcome), latch.setupSeen || SetupSeen(injected))
            && forall line | line in lines :: T.NearEnd(line, Marker(nonce))
    decreases |injected|
  {
    hide CompleteLines, Remainder, T.Observe, Contains, Overlaps, Reported, ReadsEvents, EventText, Marker,
         T.NearEnd, Inert;
    var m, segs := Marker(nonce), Segments(injected);
    if injected == [] {
      assert segs == [];
      MarkerFreeIsInert(tail, m);
      var lines := CompleteLines(tail);
      T.ScanInert(latch, lines, m, decode);
      InertIsNear(lines, m);
    } else {
      var x, rest := injected[0], injected[1..];
      var tagged, r := m + EventText(x.event), Remainder(x.before);
      SegmentsTail(injected, tail, nonce);
      assert segs[0] == Segment(x.before, EventText(x.event));
      MarkerFreeIsInert(x.before, m);
      TaggedHasNoNewline(x.event, nonce, decode);
      var b := Emitted(segs[1..], tail, m);
      ScanSegment(latch, x.before, tagged, b, m, decode);
      ObserveEvent(latch, r, x.event, nonce, decode);
      var next := T.Latch(T.OrElse(Reported(x.event), latch.outcome), latch.setupSeen || x.event.SetupCompleted?);
      ScanEmitted(next, rest, tail, nonce, decode);
      InertIsNear(CompleteLines(x.before), m);
      LastOutcome(injected, latch.outcome);
    }
  }

  lemma LastOutcome(injected: seq<Injection>, otherwise: Option<Outcome>)
    requires injected != []
    ensures T.OrElse(LastOf(Outcomes(injected)), otherwise) ==
            T.OrElse(LastOf(Outcomes(injected[1..])), T.OrElse(Reported(injected[0].event), otherwise))
    ensures SetupSeen(injected) <==> injected[0].event.SetupCompleted? || SetupSeen(injected[1..])
  {
    hide Reported, SetupSeen;
    SetupSeenFirst(injected);
    LastOfBoth(Reported(injected[0].event), Outcomes(injected[1..]));
  }

  lemma LastOfBoth(first: Option<Outcome>, more: seq<Outcome>)
    ensures LastOf((if first.Some? then [first.value] else []) + more) == T.OrElse(LastOf(more), first)
  {
  }

  lemma SetupSeenFirst(injected: seq<Injection>)
    requires injected != []
    ensures SetupSeen(injected) <==> injected[0].event.SetupCompleted? || SetupSeen(injected[1..])
  {
    var rest := injected[1..];
    if SetupSeen(injected) {
      var i :| 0 <= i < |injected| && injected[i].event.SetupCompleted?;
      assert i > 0 ==> rest[i - 1] == injected[i];
    }
    if SetupSeen(rest) {
      var i :| 0 <= i < |rest| && rest[i].event.SetupCompleted?;
      assert injected[i + 1] == rest[i];
    }
  }

  lemma SegmentsTail(injected: seq<Injection>, tail: string, nonce: string)
    requires injected != [] && MarkerFree(Segments(injected), tail, nonce)
    requires Undisturbed(injected, nonce) && FitsCarry(injected, nonce)
    ensures Segments(injected)[1..] == Segments(injected[1..]) && MarkerFree(Segments(injected[1..]), tail, nonce)
    ensures Undisturbed(injected[1..], nonce) && FitsCarry(injected[1..], nonce)
    ensures !Contains(injected[0].before, Marker(nonce)) && !Overlaps(Remainder(injected[0].before), nonce)
    ensures |Marker(nonce) + EventText(injected[0].event)| <= T.CARRY_MAX
  {
    hide Contains, Overlaps, Remainder, EventText, Marker;
    var segs := Segments(injected);
    assert !Contains(segs[0].before, Marker(nonce));
    assert segs[1..] == Segments(injected[1..]);
    forall i | 0 <= i < |segs| - 1 ensures !Contains(segs[1..][i].before, Marker(nonce)) {
      assert !Contains(segs[i + 1].before, Marker(nonce));
    }
  }

  lemma TaggedHasNoNewline(e: Event, nonce: string, decode: Decoder)
    requires PlainNonce(nonce) && ReadsEvents(decode, nonce)
    ensures NoNewline(Marker(nonce) + EventText(e))
  {
    hide Marker, EventText;
    MarkerHasNoNewline(nonce);
    EventIsValid(e, nonce, decode);
  }

  /**
   However the supervisor's stream is cut into chunks, the tracker ends with the last event that was
   meant as an outcome, and knows that setup completed exactly when the supervisor said so.
   */
  lemma TrackerFollowsSupervisor(chunks: seq<T.Chunk>, injected: seq<Injection>, tail: string, nonce: string,
                                 decode: Decoder)
    requires PlainNonce(nonce) && MarkerFree(Segments(injected), tail, nonce) && ReadsEvents(decode, nonce)
    requires Undisturbed(injected, nonce) && FitsCarry(injected, nonce)
    requires T.OneStream(chunks, T.Stderr)
    requires T.TextOf(chunks, T.Stderr) == Emitted(Segments(injected), tail, Marker(nonce))
    ensures T.RunTracker(chunks, Marker(nonce), decode).latch ==
            T.Latch(LastOf(Outcomes(injected)), SetupSeen(injected))
  {
    hide CompleteLines, ReadsEvents, T.NearEnd, Outcomes, SetupSeen, T.RunTracker;
    ScanEmitted(T.INITIAL.latch, injected, tail, nonce, decode);
    T.TrackerIsChunkingIndependent(chunks, T.Stderr, Marker(nonce), decode);
  }
}
