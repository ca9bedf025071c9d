/**
 The streaming tracker of launch markers. It keeps at most 1024 characters of an unterminated line
 per stream, and must still latch what a scan of the whole output would find.
 */
module LaunchTracker {
  import opened Common
  import opened Text
  import opened LaunchProtocol

  const CARRY_MAX := 1024

  datatype Stream = Stdout | Stderr

  /** What the tracker reports: the last terminal event, and whether setup was seen to complete. */
  datatype Latch = Latch(outcome: Option<Outcome>, setupSeen: bool)

  datatype State = State(out: string, err: string, latch: Latch)

  const INITIAL := State("", "", Latch(None, false))

  function Observe(latch: Latch, line: string, marker: string, decode: Decoder): Latch {
    match ParseMarkerLine(StripReturn(line), marker, decode)
    case NotMarker => latch
    case Marked(_, event, outcome) =>
      Latch(if outcome.Some? then outcome else latch.outcome, latch.setupSeen || event == Some("setup_complete"))
  }

  function Scan(latch: Latch, lines: seq<string>, marker: string, decode: Decoder): Latch
    decreases lines
  {
    if lines == [] then latch else Scan(Observe(latch, lines[0], marker, decode), lines[1..], marker, decode)
  }

  function Last(s: string): string {
    if |s| <= CARRY_MAX then s else s[|s| - CARRY_MAX..]
  }

  function Carry(s: State, stream: Stream): string {
    if stream == Stdout then s.out else s.err
  }

  function Feed(s: State, stream: Stream, chunk: string, marker: string, decode: Decoder): State {
    var text := Carry(s, stream) + chunk;
    var latch := Scan(s.latch, CompleteLines(text), marker, decode);
    var carry := Last(Remainder(text));
    if stream == Stdout then State(carry, s.err, latch) else State(s.out, carry, latch)
  }

  class LaunchProtocolTracker {
    const marker: string
    const decode: Decoder
    var carryOut: string
    var carryErr: string
    var lastOutcome: Option<Outcome>
    var setupSeen: bool

    ghost function Fields(): State
      reads this
    {
      State(carryOut, carryErr, Latch(lastOutcome, setupSeen))
    }

    constructor (nonce: string, decode: Decoder)
      ensures marker == Marker(nonce) && this.decode == decode && Fields() == INITIAL
    {
      marker := Marker(nonce);
      this.decode := decode;
      carryOut, carryErr, lastOutcome, setupSeen := "", "", None, false;
    }

    method FeedChunk(stream: Stream, chunk: string)
      modifies this
      ensures Fields() == Feed(old(Fields()), stream, chunk, marker, decode)
    {
      var text := (if stream == Stdout then carryOut else carryErr) + chunk;
      var rest := text;
      while FirstLine(rest) < |rest|
        invariant carryOut == old(carryOut) && carryErr == old(carryErr)
        invariant Remainder(rest) == Remainder(text)
        invariant Scan(Latch(lastOutcome, setupSeen), CompleteLines(rest), marker, decode) ==
                  Scan(old(Fields()).latch, CompleteLines(text), marker, decode)
        decreases |rest|
      {
        var n := FirstLine(rest);
        var line := rest[..n];
        assert CompleteLines(rest)[0] == line && CompleteLines(rest)[1..] == CompleteLines(rest[n + 1..]);
        match ParseMarkerLine(StripReturn(line), marker, decode) {
          case NotMarker =>
          case Marked(_, event, outcome) =>
            if event == Some("setup_complete") { setupSeen := true; }
            if outcome.Some? { lastOutcome := outcome; }
        }
        rest := rest[n + 1..];
      }
      var carry := if |rest| <= CARRY_MAX then rest else rest[|rest| - CARRY_MAX..];
      if stream == Stdout { carryOut := carry; } else { carryErr := carry; }
    }
  }

  // ----- one line, seen whole or cut off at its start -----

  /** The marker of a line, if it has one, begins within the last 1024 characters. */
  ghost predicate NearEnd(line: string, marker: string) {
    var m := IndexOf(StripReturn(line), marker);
    m.Some? ==> |line| - m.value <= CARRY_MAX
  }

  lemma ObserveSuffix(latch: Latch, line: string, k: nat, marker: string, decode: Decoder)
    requires k <= |line| && (k == 0 || |line| - k >= CARRY_MAX) && NearEnd(line, marker)
    ensures Observe(latch, line[k..], marker, decode) == Observe(latch, line, marker, decode)
  {
    hide IndexOf, OccursAt;
    if k == 0 {
      assert line[0..] == line;
    } else {
      var b := StripReturn(line);
      var m := IndexOf(b, marker);
      assert StripReturn(line[k..]) == b[k..];
      IndexOfSuffix(b, marker, k);
      assert m.Some? ==> b[k..][m.value - k + |marker|..] == b[m.value + |marker|..];
    }
  }

  // ----- bounded carry against the whole text -----

  datatype Chunk = Chunk(stream: Stream, text: string)

  function RunTracker(chunks: seq<Chunk>, marker: string, decode: Decoder): State {
    if chunks == [] then INITIAL
    else
      var c := chunks[|chunks| - 1];
      Feed(RunTracker(chunks[..|chunks| - 1], marker, decode), c.stream, c.text, marker, decode)
  }

  /** Everything one stream carried. */
  function TextOf(chunks: seq<Chunk>, stream: Stream): string {
    if chunks == [] then ""
    else
      var c := chunks[|chunks| - 1];
      TextOf(chunks[..|chunks| - 1], stream) + if c.stream == stream then c.text else ""
  }

  /** The lines of both streams in the order in which they were completed. */
  function CompletedLines(chunks: seq<Chunk>): seq<string> {
    if chunks == [] then []
    else
      var c, before := chunks[|chunks| - 1], chunks[..|chunks| - 1];
      CompletedLines(before) + CompleteLines(Remainder(TextOf(before, c.stream)) + c.text)
  }

  ghost predicate AllNearEnd(s: string, marker: string) {
    forall line | line in CompleteLines(s) :: NearEnd(line, marker)
  }

  lemma {:induction false} ScanConcat(latch: Latch, a: seq<string>, b: seq<string>, marker: string, decode: Decoder)
    ensures Scan(latch, a + b, marker, decode) == Scan(Scan(latch, a, marker, decode), b, marker, decode)
    decreases a
  {
    if a == [] {
      assert a + b == b;
    } else {
      assert (a + b)[0] == a[0] && (a + b)[1..] == a[1..] + b;
      ScanConcat(Observe(latch, a[0], marker, decode), a[1..], b, marker, decode);
    }
  }

  lemma LastOfLast(r: string, c: string)
    ensures Last(Last(r) + c) == Last(r + c)
  {
  }

  /** Feeding a chunk after a truncated carry finds the same events as after the whole carry. */
  lemma TruncatedCarry(latch: Latch, r: string, c: string, marker: string, decode: Decoder)
    requires NoNewline(r) && AllNearEnd(r + c, marker)
    ensures Scan(latch, CompleteLines(Last(r) + c), marker, decode) == Scan(latch, CompleteLines(r + c), marker, decode)
    ensures Last(Remainder(Last(r) + c)) == Last(Remainder(r + c))
  {
    var n := FirstLine(c);
    FirstLineStops(c);
    LastHasNoNewline(r);
    if n == |c| {
      assert c[..n] == c;
      NoFirstLine(r + c);
      NoFirstLine(Last(r) + c);
      LastOfLast(r, c);
    } else {
      FirstLineOfCarry(r, c, n);
      FirstLineOfCarry(Last(r), c, n);
      assert r + c[..n] == CompleteLines(r + c)[0];
      TruncatedLine(latch, r, c[..n], CompleteLines(c[n + 1..]), marker, decode);
    }
  }

  lemma LastHasNoNewline(r: string)
    requires NoNewline(r)
    ensures NoNewline(Last(r))
  {
    assert forall x | x in Last(r) :: x in r;
  }

  lemma TruncatedLine(latch: Latch, r: string, head: string, rest: seq<string>, marker: string, decode: Decoder)
    requires NearEnd(r + head, marker)
    ensures Scan(latch, [Last(r) + head] + rest, marker, decode) == Scan(latch, [r + head] + rest, marker, decode)
  {
    var whole, cut, k := r + head, Last(r) + head, |r| - |Last(r)|;
    assert whole[k..] == cut;
    ObserveSuffix(latch, whole, k, marker, decode);
    assert ([whole] + rest)[1..] == rest && ([cut] + rest)[1..] == rest;
  }

  lemma FirstLineOfCarry(r: string, c: string, n: nat)
    requires NoNewline(r) && n < |c| && c[n] == '\n' && NoNewline(c[..n])
    ensures CompleteLines(r + c) == [r + c[..n]] + CompleteLines(c[n + 1..])
    ensures Remainder(r + c) == Remainder(c[n + 1..])
  {
    assert r + c == (r + c[..n]) + "\n" + c[n + 1..];
    LinesOfOne(r + c[..n], c[n + 1..]);
  }

  /** The tracker is the bounded image of an unbounded scan, for every interleaving and every cutting. */
  lemma {:induction false} TrackerSimulatesScan(chunks: seq<Chunk>, marker: string, decode: Decoder)
    requires AllNearEnd(TextOf(chunks, Stdout), marker) && AllNearEnd(TextOf(chunks, Stderr), marker)
    ensures RunTracker(chunks, marker, decode) ==
            State(Last(Remainder(TextOf(chunks, Stdout))), Last(Remainder(TextOf(chunks, Stderr))),
                  Scan(INITIAL.latch, CompletedLines(chunks), marker, decode))
  {
    if chunks != [] {
      var c, before := chunks[|chunks| - 1], chunks[..|chunks| - 1];
      var t, other := TextOf(before, c.stream), if c.stream == Stdout then Stderr else Stdout;
      assert TextOf(chunks, other) == TextOf(before, other) + "" == TextOf(before, other);
      LinesOfConcat(t, c.text);
      forall line | line in CompleteLines(t) ensures NearEnd(line, marker) {
        assert line in CompleteLines(TextOf(chunks, c.stream));
      }
      TrackerSimulatesScan(before, marker, decode);
      var latch := RunTracker(before, marker, decode).latch;
      RemainderHasNoNewline(t);
      TruncatedCarry(latch, Remainder(t), c.text, marker, decode);
      ScanConcat(INITIAL.latch, CompletedLines(before), CompleteLines(Remainder(t) + c.text), marker, decode);
    }
  }

  ghost predicate OneStream(chunks: seq<Chunk>, stream: Stream) {
    forall i | 0 <= i < |chunks| :: chunks[i].stream == stream
  }

  lemma {:induction false} OneStreamLines(chunks: seq<Chunk>, stream: Stream)
    requires OneStream(chunks, stream)
    ensures CompletedLines(chunks) == CompleteLines(TextOf(chunks, stream))
    ensures TextOf(chunks, if stream == Stdout then Stderr else Stdout) == ""
  {
    if chunks != [] {
      var c, before := chunks[|chunks| - 1], chunks[..|chunks| - 1];
      OneStreamLines(before, stream);
      LinesOfConcat(TextOf(before, stream), c.text);
    }
  }

  /**
   However one stream is cut into chunks, the tracker ends with the last outcome and the setup flag
   of a scan over all complete lines of the whole text.
   */
  lemma TrackerIsChunkingIndependent(chunks: seq<Chunk>, stream: Stream, marker: string, decode: Decoder)
    requires OneStream(chunks, stream) && AllNearEnd(TextOf(chunks, stream), marker)
    ensures RunTracker(chunks, marker, decode).latch ==
            Scan(INITIAL.latch, CompleteLines(TextOf(chunks, stream)), marker, decode)
  {
    OneStreamLines(chunks, stream);
    assert CompleteLines("") == [];
    TrackerSimulatesScan(chunks, marker, decode);
  }

  lemma {:induction false} ScanInert(latch: Latch, lines: seq<string>, marker: string, decode: Decoder)
    requires forall i | 0 <= i < |lines| :: Inert(StripReturn(lines[i]), marker)
    ensures Scan(latch, lines, marker, decode) == latch
  {
    if lines != [] {
      ScanInert(latch, lines[1..], marker, decode);
    }
  }

  lemma {:induction false} ScanIgnoresOtherStream(chunks: seq<Chunk>, marker: string, decode: Decoder)
    requires InertLines(TextOf(chunks, Stdout), marker)
    ensures Scan(INITIAL.latch, CompletedLines(chunks), marker, decode) ==
            Scan(INITIAL.latch, CompleteLines(TextOf(chunks, Stderr)), marker, decode)
  {
    if chunks != [] {
      var c, before := chunks[|chunks| - 1], chunks[..|chunks| - 1];
      var t, l := TextOf(before, c.stream), INITIAL.latch;
      var added := CompleteLines(Remainder(t) + c.text);
      LinesOfConcat(t, c.text);
      assert TextOf(before, Stderr) + "" == TextOf(before, Stderr)
            && TextOf(before, Stdout) + "" == TextOf(before, Stdout);
      assert forall line | line in CompleteLines(t) :: line in CompleteLines(TextOf(chunks, c.stream));
      ScanIgnoresOtherStream(before, marker, decode);
      ScanConcat(l, CompletedLines(before), added, marker, decode);
      if c.stream == Stdout {
        assert forall i | 0 <= i < |added| :: added[i] in CompleteLines(TextOf(chunks, Stdout));
        ScanInert(Scan(l, CompletedLines(before), marker, decode), added, marker, decode);
      } else {
        ScanConcat(l, CompleteLines(t), added, marker, decode);
      }
    }
  }

  /**
   Kernel output on the other stream, however interleaved, never disturbs the supervisor's events:
   the tracker ends as if it had scanned the supervisor's stream alone.
   */
  lemma OtherStreamIsIgnored(chunks: seq<Chunk>, marker: string, decode: Decoder)
    requires AllNearEnd(TextOf(chunks, Stderr), marker) && InertLines(TextOf(chunks, Stdout), marker)
    ensures RunTracker(chunks, marker, decode).latch ==
            Scan(INITIAL.latch, CompleteLines(TextOf(chunks, Stderr)), marker, decode)
  {
    hide CompleteLines;
    TrackerSimulatesScan(chunks, marker, decode);
    ScanIgnoresOtherStream(chunks, marker, decode);
  }

  // ----- agreement with the whole-log parser -----

  function OrElse(first: Option<Outcome>, second: Option<Outcome>): Option<Outcome> {
    if first.Some? then first else second
  }

  /** The event of an unfinished last line, which the whole-log parser reads and the tracker waits for. */
  function Unfinished(s: string, marker: string, decode: Decoder): Option<Outcome> {
    LastOf(Parse(Remainder(s), marker, decode).events)
  }

  /** The last event of the whole-log parser is that of the unfinished line, else the one found by scanning. */
  lemma {:induction false} ScanMatchesParse(latch: Latch, s: string, marker: string, decode: Decoder)
    ensures OrElse(LastOf(Parse(s, marker, decode).events), latch.outcome) ==
            OrElse(Unfinished(s, marker, decode), Scan(latch, CompleteLines(s), marker, decode).outcome)
    decreases |s|
  {
    hide ParseMarkerLine, ParsePiece, Observe, CompleteLines, Remainder, Parse, FirstLine;
    var n := FirstLine(s);
    FirstLineStops(s);
    if n < |s| {
      var head, tail := s[..n], s[n + 1..];
      SplitLine(s, "", n);
      LinesOfOne(head, tail);
      ObservesPiece(latch, head, marker, decode);
      ParseOne(head, tail, marker, decode);
      assert CompleteLines(s)[0] == head && CompleteLines(s)[1..] == CompleteLines(tail);
      var next := Observe(latch, head, marker, decode);
      ScanMatchesParse(next, tail, marker, decode);
      var own, rest := ParsePiece(head + "\n", marker, decode).events, Parse(tail, marker, decode).events;
      assert LastOf(own + rest) == OrElse(LastOf(rest), LastOf(own));
    } else {
      LinesOfLast(s);
    }
  }

  lemma ObservesPiece(latch: Latch, head: string, marker: string, decode: Decoder)
    requires NoNewline(head)
    ensures Observe(latch, head, marker, decode).outcome ==
            OrElse(LastOf(ParsePiece(head + "\n", marker, decode).events), latch.outcome)
  {
    hide ParseMarkerLine;
    PiecesOfOne(head, "");
  }

  /**
   However one stream is cut, the whole-log parser reports the event of an unfinished last line if
   there is one, and otherwise what the tracker reports. So the two agree if and only if the
   unfinished line holds no event, or one that repeats the tracker's.
   */
  lemma TrackerAgreesWithParser(chunks: seq<Chunk>, stream: Stream, marker: string, decode: Decoder)
    requires OneStream(chunks, stream) && AllNearEnd(TextOf(chunks, stream), marker)
    ensures var text, tracked := TextOf(chunks, stream), RunTracker(chunks, marker, decode).latch.outcome;
            var parsed, tail := LastOf(Parse(text, marker, decode).events), Unfinished(text, marker, decode);
            parsed == OrElse(tail, tracked) && (parsed == tracked <==> tail.None? || tail == tracked)
  {
    TrackerIsChunkingIndependent(chunks, stream, marker, decode);
    ScanMatchesParse(INITIAL.latch, TextOf(chunks, stream), marker, decode);
  }

  /** The same for both streams, with the marker on the supervisor's alone, as the adapter parses them. */
  lemma TrackerAgreesWithLaunchOutput(chunks: seq<Chunk>, marker: string, decode: Decoder)
    requires AllNearEnd(TextOf(chunks, Stderr), marker)
    requires InertLines(TextOf(chunks, Stdout), marker) && Inert(Remainder(TextOf(chunks, Stdout)), marker)
    ensures var out, err := TextOf(chunks, Stdout), TextOf(chunks, Stderr);
            var tracked, tail := RunTracker(chunks, marker, decode).latch.outcome, Unfinished(err, marker, decode);
            var parsed := LastOf(Parse(out, marker, decode).events + Parse(err, marker, decode).events);
            parsed == OrElse(tail, tracked) && (parsed == tracked <==> tail.None? || tail == tracked)
  {
    hide Parse, CompleteLines, Remainder;
    var err := TextOf(chunks, Stderr);
    OtherStreamIsIgnored(chunks, marker, decode);
    ScanMatchesParse(INITIAL.latch, err, marker, decode);
    InertText(TextOf(chunks, Stdout), marker, decode);
    assert [] + Parse(err, marker, decode).events == Parse(err, marker, decode).events;
  }

  /** A marker that no newline follows yet: the parser reports its event and the tracker does not. */
  lemma UnfinishedLineDiffers(nonce: string, payload: string, decode: Decoder)
    requires NoNewline(nonce) && ValidPayload(payload, decode) && OutcomeOf(decode(payload).value).Some?
    ensures var text := Marker(nonce) + payload;
            && RunTracker([Chunk(Stderr, text)], Marker(nonce), decode).latch.outcome == None
            && LastOf(Parse(text, Marker(nonce), decode).events) == OutcomeOf(decode(payload).value)
  {
    hide ParseMarkerLine, Parse, RunTracker, Marker;
    MarkerHasNoNewline(nonce);
    WholeLineMarker(payload, Marker(nonce), decode);
    TrackerWaits(Marker(nonce) + payload, Marker(nonce), decode);
    ParserReads(Marker(nonce) + payload, Marker(nonce), decode);
  }

  lemma TrackerWaits(text: string, marker: string, decode: Decoder)
    requires NoNewline(text)
    ensures RunTracker([Chunk(Stderr, text)], marker, decode).latch == INITIAL.latch
  {
    hide FirstLine;
    NoFirstLine(text);
    LinesOfLast(text);
    assert "" + text == text && [Chunk(Stderr, text)][..0] == [];
  }

  lemma ParserReads(text: string, marker: string, decode: Decoder)
    requires NoNewline(text) && text != ""
    ensures Parse(text, marker, decode) == ParsePiece(text, marker, decode)
    ensures Body(text) == text
  {
    hide ParsePiece, FirstLine;
    NoFirstLine(text);
    assert text[|text| - 1] in text;
    assert Pieces(text) == [text] && Pieces(text)[1..] == [];
    assert ParsePieces([], marker, decode) == Parsed("", []);
    JoinAssociates(ParsePiece(text, marker, decode), Parsed("", []), Parsed("", []));
  }

  lemma WholeLineMarker(payload: string, marker: string, decode: Decoder)
    requires decode(payload).Some?
    ensures ParseMarkerLine(marker + payload, marker, decode) ==
            Marked("", decode(payload).value.event, OutcomeOf(decode(payload).value))
  {
    var text := marker + payload;
    assert text[0..|marker|] == marker && text[|marker|..] == payload && text[..0] == "";
    IndexOfIs(text, marker, 0);
  }

  // ----- the bound is exact -----

  /**
   On a line that holds the marker once, the event survives every cutting of the line exactly when
   the marker begins at most 1024 characters before the line's end.
   */
  lemma CarryBoundIsExact(line: string, m: nat, marker: string, decode: Decoder)
    requires NoNewline(line) && line == StripReturn(line) && marker != ""
    requires OccursAt(line, marker, m) && forall j | j != m :: !OccursAt(line, marker, j)
    requires ParseMarkerLine(line, marker, decode).Marked? && ParseMarkerLine(line, marker, decode).outcome.Some?
    ensures |line| - m <= CARRY_MAX <==>
            forall chunks | OneStream(chunks, Stderr) && TextOf(chunks, Stderr) == line + "\n" ::
              RunTracker(chunks, marker, decode).latch.outcome == ParseMarkerLine(line, marker, decode).outcome
  {
    IndexOfIs(line, marker, m);
    if |line| - m <= CARRY_MAX {
      forall chunks | OneStream(chunks, Stderr) && TextOf(chunks, Stderr) == line + "\n"
        ensures RunTracker(chunks, marker, decode).latch.outcome == ParseMarkerLine(line, marker, decode).outcome
      {
        EventSurvives(line, chunks, marker, decode);
      }
    } else {
      CutLosesTheEvent(line, m, marker, decode);
    }
  }

  lemma EventSurvives(line: string, chunks: seq<Chunk>, marker: string, decode: Decoder)
    requires NoNewline(line) && line == StripReturn(line) && NearEnd(line, marker)
    requires ParseMarkerLine(line, marker, decode).Marked? && ParseMarkerLine(line, marker, decode).outcome.Some?
    requires OneStream(chunks, Stderr) && TextOf(chunks, Stderr) == line + "\n"
    ensures RunTracker(chunks, marker, decode).latch.outcome == ParseMarkerLine(line, marker, decode).outcome
  {
    LinesOfOne(line, "");
    assert line + "\n" + "" == line + "\n";
    assert CompleteLines("") == [] && CompleteLines(line + "\n") == [line];
    TrackerIsChunkingIndependent(chunks, Stderr, marker, decode);
    assert [line][1..] == [];
    assert Scan(INITIAL.latch, [line], marker, decode) == Observe(INITIAL.latch, line, marker, decode);
  }

  lemma CutLosesTheEvent(line: string, m: nat, marker: string, decode: Decoder)
    requires NoNewline(line) && line == StripReturn(line) && |line| - m > CARRY_MAX
    requires forall j | j != m :: !OccursAt(line, marker, j)
    ensures var chunks := [Chunk(Stderr, line), Chunk(Stderr, "\n")];
            && OneStream(chunks, Stderr) && TextOf(chunks, Stderr) == line + "\n"
            && RunTracker(chunks, marker, decode).latch.outcome == None
  {
    hide Feed, Last, StripReturn, OccursAt;
    var a, b := Chunk(Stderr, line), Chunk(Stderr, "\n");
    assert [a, b][..1] == [a] && [a][..0] == [];
    assert TextOf([a], Stderr) == "" + line == line;
    FirstChunk(line, marker, decode);
    assert RunTracker([a], marker, decode) == Feed(INITIAL, Stderr, line, marker, decode);
    LastHasNoNewline(line);
    LateMarkerIsCut(line, m, marker);
    LastKeepsEnd(line);
    CompletesInertLine(Last(line), marker, decode);
  }

  lemma LastKeepsEnd(line: string)
    requires line == StripReturn(line)
    ensures StripReturn(Last(line)) == Last(line)
  {
  }

  lemma FirstChunk(line: string, marker: string, decode: Decoder)
    requires NoNewline(line)
    ensures Feed(INITIAL, Stderr, line, marker, decode) == State("", Last(line), INITIAL.latch)
  {
    NoFirstLine(line);
    assert "" + line == line;
  }

  lemma LateMarkerIsCut(line: string, m: nat, marker: string)
    requires |line| - m > CARRY_MAX && forall j | j != m :: !OccursAt(line, marker, j)
    ensures Inert(Last(line), marker)
  {
    var k := |line| - CARRY_MAX;
    forall i ensures !OccursAt(line[k..], marker, i) {
      if i >= 0 { OccursInSuffix(line, marker, k, i); }
    }
    IndexOfMissing(line[k..], marker);
  }

  lemma CompletesInertLine(carry: string, marker: string, decode: Decoder)
    requires NoNewline(carry) && StripReturn(carry) == carry && Inert(carry, marker)
    ensures Feed(State("", carry, INITIAL.latch), Stderr, "\n", marker, decode).latch == INITIAL.latch
  {
    LinesOfOne(carry, "");
    assert carry + "\n" + "" == carry + "\n";
    assert CompleteLines("") == [];
    ScanInert(INITIAL.latch, CompleteLines(carry + "\n"), marker, decode);
  }
}
