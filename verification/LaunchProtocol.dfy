/**
 The launch-marker protocol: a supervisor writes nonce-tagged lines into arbitrary kernel output.
 `decode` stands for `JSON.parse` restricted to objects; every result holds for every decoder.
 */
module LaunchProtocol {
  import opened Common
  import opened Text

  datatype Kind = Ready | SetupExit | SetupTimeout | KernelExit | ReadinessTimeout

  datatype Outcome = Outcome(kind: Kind, setupMs: int, waitportMs: int, exitCode: Option<int>)

  /** The members of a marker's JSON object that the parser looks at. */
  datatype Payload = Payload(event: Option<string>, setupMs: Option<int>, waitportMs: Option<int>,
                             exitCode: Option<int>)

  type Decoder = string -> Option<Payload>

  datatype MarkerLine = NotMarker | Marked(before: string, event: Option<string>, outcome: Option<Outcome>)

  function Stem(nonce: string): string {
    "__MARIMOHUB_LAUNCH_" + nonce
  }

  function Marker(nonce: string): string {
    Stem(nonce) + "__"
  }

  function KindOf(event: string): Option<Kind> {
    if event == "ready" then Some(Ready)
    else if event == "setup_exit" then Some(SetupExit)
    else if event == "setup_timeout" then Some(SetupTimeout)
    else if event == "kernel_exit" then Some(KernelExit)
    else if event == "readiness_timeout" then Some(ReadinessTimeout)
    else None
  }

  function NonNegative(n: Option<int>): int {
    Max(0, if n.Some? then n.value else 0)
  }

  function OutcomeOf(p: Payload): Option<Outcome> {
    if p.event.Some? && KindOf(p.event.value).Some?
    then Some(Outcome(KindOf(p.event.value).value, NonNegative(p.setupMs), NonNegative(p.waitportMs), p.exitCode))
    else None
  }

  predicate DurationIs(given: Option<int>, read: int) {
    if given.Some? && given.value > 0 then read == given.value else read == 0
  }

  /** Five event names end a launch; a missing or negative duration counts as zero. */
  lemma OutcomeReadsMembers(p: Payload)
    ensures match OutcomeOf(p)
            case None =>
              p.event.None? ||
              p.event.value !in {"ready", "setup_exit", "setup_timeout", "kernel_exit", "readiness_timeout"}
            case Some(o) =>
              && (o.kind == Ready <==> p.event == Some("ready"))
              && (o.kind == SetupExit <==> p.event == Some("setup_exit"))
              && (o.kind == SetupTimeout <==> p.event == Some("setup_timeout"))
              && (o.kind == KernelExit <==> p.event == Some("kernel_exit"))
              && (o.kind == ReadinessTimeout <==> p.event == Some("readiness_timeout"))
              && DurationIs(p.setupMs, o.setupMs) && DurationIs(p.waitportMs, o.waitportMs) && o.exitCode == p.exitCode
  {
  }

  function ParseMarkerLine(line: string, marker: string, decode: Decoder): MarkerLine {
    var index := IndexOf(line, marker);
    if index.None? then NotMarker
    else
      var payload := decode(line[index.value + |marker|..]);
      if payload.None? then NotMarker
      else Marked(line[..index.value], payload.value.event, OutcomeOf(payload.value))
  }

  function StripReturn(line: string): string {
    if line != "" && line[|line| - 1] == '\r' then line[..|line| - 1] else line
  }

  // ----- the whole-log parser -----

  datatype Parsed = Parsed(text: string, events: seq<Outcome>)

  /** The text cut after each newline. */
  function Pieces(s: string): seq<string> {
    var n := FirstLine(s);
    if s == "" then [] else if n == |s| then [s] else [s[..n + 1]] + Pieces(s[n + 1..])
  }

  function Body(piece: string): string {
    if piece != "" && piece[|piece| - 1] == '\n' then StripReturn(piece[..|piece| - 1]) else piece
  }

  function Listed(outcome: Option<Outcome>): seq<Outcome> {
    if outcome.Some? then [outcome.value] else []
  }

  function Join(a: Parsed, b: Parsed): Parsed {
    Parsed(a.text + b.text, a.events + b.events)
  }

  function ParsePiece(piece: string, marker: string, decode: Decoder): Parsed {
    match ParseMarkerLine(Body(piece), marker, decode)
    case NotMarker => Parsed(piece, [])
    case Marked(before, _, outcome) => Parsed(before, Listed(outcome))
  }

  function ParsePieces(pieces: seq<string>, marker: string, decode: Decoder): Parsed {
    if pieces == [] then Parsed("", [])
    else Join(ParsePiece(pieces[0], marker, decode), ParsePieces(pieces[1..], marker, decode))
  }

  function Parse(s: string, marker: string, decode: Decoder): Parsed {
    ParsePieces(Pieces(s), marker, decode)
  }

  lemma JoinAssociates(a: Parsed, b: Parsed, c: Parsed)
    ensures Join(Join(a, b), c) == Join(a, Join(b, c))
    ensures Join(Parsed("", []), a) == a == Join(a, Parsed("", []))
  {
  }

  method ParseProtocolText(text: string, nonce: string, decode: Decoder) returns (kept: string, events: seq<Outcome>)
    ensures Parsed(kept, events) == Parse(text, Marker(nonce), decode)
  {
    var marker := Marker(nonce);
    var pieces := Pieces(text);
    kept, events := "", [];
    ghost var all := ParsePieces(pieces, marker, decode);
    JoinAssociates(all, all, all);
    assert pieces[0..] == pieces;
    for i := 0 to |pieces|
      invariant Join(Parsed(kept, events), ParsePieces(pieces[i..], marker, decode)) == all
    {
      ghost var before := Parsed(kept, events);
      var piece := pieces[i];
      match ParseMarkerLine(Body(piece), marker, decode) {
        case NotMarker => kept := kept + piece;
        case Marked(text, _, outcome) =>
          if outcome.Some? { events := events + [outcome.value]; }
          kept := kept + text;
      }
      assert Parsed(kept, events) == Join(before, ParsePiece(piece, marker, decode));
      assert pieces[i..][1..] == pieces[i + 1..];
      JoinAssociates(before, ParsePiece(piece, marker, decode), ParsePieces(pieces[i + 1..], marker, decode));
    }
    JoinAssociates(Parsed(kept, events), all, all);
  }

  function LastOf(events: seq<Outcome>): Option<Outcome> {
    if events == [] then None else Some(events[|events| - 1])
  }

  method ParseLaunchOutput(stdout: string, stderr: string, nonce: string, decode: Decoder)
    returns (out: string, err: string, outcome: Option<Outcome>)
    ensures out == Parse(stdout, Marker(nonce), decode).text
    ensures err == Parse(stderr, Marker(nonce), decode).text
    ensures outcome == LastOf(Parse(stdout, Marker(nonce), decode).events + Parse(stderr, Marker(nonce), decode).events)
  {
    var outEvents, errEvents;
    out, outEvents := ParseProtocolText(stdout, nonce, decode);
    err, errEvents := ParseProtocolText(stderr, nonce, decode);
    outcome := LastOf(outEvents + errEvents);
  }

  // ----- parsing inverts the supervisor's emission -----

  /** Kernel output `before`, then one marker line. */
  datatype Segment = Segment(before: string, payload: string)

  function Emitted(segs: seq<Segment>, tail: string, marker: string): string {
    if segs == [] then tail
    else segs[0].before + (marker + segs[0].payload) + "\n" + Emitted(segs[1..], tail, marker)
  }

  function KernelText(segs: seq<Segment>, tail: string): string {
    if segs == [] then tail else segs[0].before + KernelText(segs[1..], tail)
  }

  function EmittedEvents(segs: seq<Segment>, decode: Decoder): seq<Outcome> {
    if segs == [] then []
    else
      var p := decode(segs[0].payload);
      (if p.Some? then Listed(OutcomeOf(p.value)) else []) + EmittedEvents(segs[1..], decode)
  }

  ghost predicate ValidPayload(payload: string, decode: Decoder) {
    NoNewline(payload) && decode(payload).Some? && payload != "" && payload[|payload| - 1] != '\r'
  }

  ghost predicate Inert(line: string, marker: string) {
    IndexOf(line, marker).None?
  }

  ghost predicate InertLines(s: string, marker: string) {
    forall line | line in CompleteLines(s) :: Inert(StripReturn(line), marker)
  }

  /** On the line where the marker is written, no earlier position reads as the marker. */
  ghost predicate OwnMarkerFirst(seg: Segment, marker: string) {
    IndexOf(Remainder(seg.before) + (marker + seg.payload), marker) == Some(|Remainder(seg.before)|)
  }

  ghost predicate CleanSegment(seg: Segment, marker: string, decode: Decoder) {
    ValidPayload(seg.payload, decode) && InertLines(seg.before, marker) && OwnMarkerFirst(seg, marker)
  }

  ghost predicate Clean(segs: seq<Segment>, tail: string, marker: string, decode: Decoder) {
    && (forall i | 0 <= i < |segs| :: CleanSegment(segs[i], marker, decode))
    && InertLines(tail, marker) && Inert(Remainder(tail), marker)
  }

  lemma PiecesOfOne(a: string, b: string)
    requires NoNewline(a)
    ensures Pieces(a + "\n" + b) == [a + "\n"] + Pieces(b)
    ensures Body(a + "\n") == StripReturn(a)
  {
    FirstLineIs(a, b);
    var s := a + "\n" + b;
    assert s[..|a| + 1] == a + "\n" && s[|a| + 1..] == b;
    assert (a + "\n")[..|a|] == a;
  }

  lemma ParseOne(a: string, b: string, marker: string, decode: Decoder)
    requires NoNewline(a)
    ensures Parse(a + "\n" + b, marker, decode) == Join(ParsePiece(a + "\n", marker, decode), Parse(b, marker, decode))
  {
    PiecesOfOne(a, b);
    var pieces := Pieces(a + "\n" + b);
    assert pieces[0] == a + "\n" && pieces[1..] == Pieces(b);
  }

  lemma InertLine(line: string, b: string, marker: string, decode: Decoder)
    requires NoNewline(line) && Inert(StripReturn(line), marker)
    ensures Parse(line + "\n" + b, marker, decode) == Join(Parsed(line + "\n", []), Parse(b, marker, decode))
  {
    PiecesOfOne(line, b);
    ParseOne(line, b, marker, decode);
  }

  /** Lines without the marker pass through the parser unchanged, whatever follows them. */
  lemma {:induction false} InertPrefix(a: string, b: string, marker: string, decode: Decoder)
    requires InertLines(a, marker)
    ensures Parse(a + b, marker, decode) == Join(Parsed(Front(a), []), Parse(Remainder(a) + b, marker, decode))
    decreases |a|
  {
    var n := FirstLine(a);
    FirstLineStops(a);
    var last := Parse(Remainder(a) + b, marker, decode);
    if n == |a| {
      JoinAssociates(last, last, last);
    } else {
      var head, tail := a[..n], a[n + 1..];
      SplitLine(a, b, n);
      LinesOfOne(head, tail);
      InertLinesSplit(head, tail, marker);
      InertPrefix(tail, b, marker, decode);
      InertLine(head, tail + b, marker, decode);
      JoinAssociates(Parsed(head + "\n", []), Parsed(Front(tail), []), last);
    }
  }

  lemma InertLinesSplit(head: string, tail: string, marker: string)
    requires NoNewline(head) && InertLines(head + "\n" + tail, marker)
    ensures Inert(StripReturn(head), marker) && InertLines(tail, marker)
  {
    LinesOfOne(head, tail);
    var all := CompleteLines(head + "\n" + tail);
    assert head == all[0];
    assert forall line | line in CompleteLines(tail) :: line in all;
  }

  lemma InertText(s: string, marker: string, decode: Decoder)
    requires InertLines(s, marker) && Inert(Remainder(s), marker)
    ensures Parse(s, marker, decode) == Parsed(s, [])
  {
    var r := Remainder(s);
    InertPrefix(s, "", marker, decode);
    assert s + "" == s && r + "" == r;
    FrontAndRemainder(s);
    RemainderHasNoNewline(s);
    InertRemainder(r, marker, decode);
  }

  lemma InertRemainder(r: string, marker: string, decode: Decoder)
    requires NoNewline(r) && Inert(r, marker)
    ensures Parse(r, marker, decode) == Parsed(r, [])
  {
    NoFirstLine(r);
    if r != "" {
      assert r[|r| - 1] in r;
      assert Pieces(r) == [r] && Pieces(r)[1..] == [];
      assert ParsePiece(r, marker, decode) == Parsed(r, []);
      assert ParsePieces([], marker, decode) == Parsed("", []);
      JoinAssociates(Parsed(r, []), Parsed(r, []), Parsed(r, []));
    }
  }

  lemma Regroup(x: string, y: string, z: string)
    ensures x + y + "\n" + z == x + (y + "\n" + z)
  {
  }

  /** The part of a segment up to its last complete line passes through; the marker's own line decides the rest. */
  lemma ParseSegment(seg: Segment, b: string, marker: string, decode: Decoder)
    requires InertLines(seg.before, marker) && NoNewline(marker) && NoNewline(seg.payload)
    ensures var line := Remainder(seg.before) + (marker + seg.payload);
            Parse(seg.before + (marker + seg.payload) + "\n" + b, marker, decode) ==
            Join(Join(Parsed(Front(seg.before), []), ParsePiece(line + "\n", marker, decode)), Parse(b, marker, decode))
  {
    var tagged := marker + seg.payload;
    InertPrefix(seg.before, tagged + "\n" + b, marker, decode);
    RemainderHasNoNewline(seg.before);
    var front, r := Front(seg.before), Remainder(seg.before);
    Regroup(seg.before, tagged, b);
    Regroup(r, tagged, b);
    ParseOne(r + tagged, b, marker, decode);
    JoinAssociates(Parsed(front, []), ParsePiece(r + tagged + "\n", marker, decode), Parse(b, marker, decode));
  }

  lemma TaggedPiece(r: string, payload: string, marker: string, decode: Decoder)
    requires NoNewline(r) && ValidPayload(payload, decode)
    requires IndexOf(r + (marker + payload), marker) == Some(|r|)
    ensures ParsePiece(r + (marker + payload) + "\n", marker, decode) ==
            Parsed(r, Listed(OutcomeOf(decode(payload).value)))
  {
    hide IndexOf;
    var line := r + (marker + payload);
    BodyOfTagged(r + marker, payload);
    assert r + marker + payload == line;
    assert line[|r| + |marker|..] == payload && line[..|r|] == r;
  }

  lemma BodyOfTagged(a: string, payload: string)
    requires payload != "" && payload[|payload| - 1] != '\r'
    ensures Body(a + payload + "\n") == a + payload
  {
    var line := a + payload;
    assert (line + "\n")[..|line|] == line && line[|line| - 1] == payload[|payload| - 1];
  }

  /**
   Parsing is a left inverse of emission: marker lines injected anywhere, also in the middle of a
   line, leave exactly the kernel's own text and exactly the injected terminal events, in order.
   */
  lemma {:induction false} ParseInvertsEmission(segs: seq<Segment>, tail: string, marker: string, decode: Decoder)
    requires Clean(segs, tail, marker, decode) && NoNewline(marker)
    ensures Parse(Emitted(segs, tail, marker), marker, decode) ==
            Parsed(KernelText(segs, tail), EmittedEvents(segs, decode))
  {
    hide Parse, ParsePiece, IndexOf, Remainder, Front, InertLines;
    if segs == [] {
      InertText(tail, marker, decode);
    } else {
      var seg := segs[0];
      assert CleanSegment(seg, marker, decode);
      ParseInvertsEmission(segs[1..], tail, marker, decode);
      ParseSegment(seg, Emitted(segs[1..], tail, marker), marker, decode);
      RemainderHasNoNewline(seg.before);
      TaggedPiece(Remainder(seg.before), seg.payload, marker, decode);
      FrontAndRemainder(seg.before);
    }
  }

  // ----- when the supervisor's lines can be read back -----

  lemma {:induction false} LineOccurs(s: string, line: string, m: string, i: int) returns (j: int)
    requires line in CompleteLines(s) && OccursAt(line, m, i)
    ensures OccursAt(s, m, j)
    decreases |s|
  {
    var n := FirstLine(s);
    if line == s[..n] {
      j := i;
      assert s[i..i + |m|] == line[i..i + |m|];
    } else {
      j := LineOccurs(s[n + 1..], line, m, i);
      OccursInSuffix(s, m, n + 1, j);
      j := j + n + 1;
    }
  }

  lemma {:induction false} RemainderOccurs(s: string, m: string, i: int) returns (j: int)
    requires OccursAt(Remainder(s), m, i)
    ensures OccursAt(s, m, j)
    decreases |s|
  {
    var n := FirstLine(s);
    if n == |s| {
      j := i;
    } else {
      j := RemainderOccurs(s[n + 1..], m, i);
      OccursInSuffix(s, m, n + 1, j);
      j := j + n + 1;
    }
  }

  lemma MarkerFreeIsInert(s: string, m: string)
    requires !Contains(s, m)
    ensures InertLines(s, m) && Inert(Remainder(s), m) && !Contains(Remainder(s), m)
  {
    hide IndexOf, OccursAt, CompleteLines, Remainder;
    forall line | line in CompleteLines(s) ensures Inert(StripReturn(line), m) {
      var r := IndexOf(StripReturn(line), m);
      IndexOfIsFirst(StripReturn(line), m, 0);
      if r.Some? {
        StripReturnOccurs(line, m, r.value);
        var j := LineOccurs(s, line, m, r.value);
      }
    }
    forall i ensures !OccursAt(Remainder(s), m, i) {
      if OccursAt(Remainder(s), m, i) {
        var j := RemainderOccurs(s, m, i);
      }
    }
    IndexOfMissing(Remainder(s), m);
  }

  lemma StripReturnOccurs(line: string, m: string, i: int)
    requires OccursAt(StripReturn(line), m, i)
    ensures OccursAt(line, m, i)
  {
    assert line[i..i + |m|] == StripReturn(line)[i..i + |m|];
  }

  predicate EndsIn(s: string, t: string) {
    |t| <= |s| && s[|s| - |t|..] == t
  }

  /** The unfinished line and the start of the next marker together read as an earlier marker. */
  predicate Overlaps(r: string, nonce: string) {
    EndsIn(r, Stem(nonce)) || EndsIn(r, Stem(nonce) + "_")
  }

  /** Past its start, the marker of a nonce without underscores has two underscores only at its end. */
  lemma NoInnerUnderscores(nonce: string, k: nat)
    requires nonce != "" && '_' !in nonce
    requires 0 < k < |Stem(nonce)|
    ensures Marker(nonce)[k] != '_' || Marker(nonce)[k + 1] != '_'
  {
    var pre := "__MARIMOHUB_LAUNCH_";
    var m := Marker(nonce);
    assert m == pre + (nonce + "__");
    if k < |pre| {
      assert m[k] == pre[k] && pre[k] == '_' ==> k == 1 || k == 11 || k == 18;
      assert m[k + 1] == if k + 1 < |pre| then pre[k + 1] else nonce[0];
    } else {
      assert m[k] == nonce[k - |pre|];
    }
  }

  lemma EarlierReadingIsDeep(r: string, payload: string, nonce: string, j: int)
    requires nonce != "" && '_' !in nonce
    requires 0 <= j < |r| && OccursAt(r + (Marker(nonce) + payload), Marker(nonce), j)
    ensures |r| - j >= |Stem(nonce)|
  {
    var m, line := Marker(nonce), r + (Marker(nonce) + payload);
    var k := |r| - j;
    if k < |Stem(nonce)| {
      assert m[k] == line[j..j + |m|][k] == line[|r|] == m[0] == '_';
      assert m[k + 1] == line[j..j + |m|][k + 1] == line[|r| + 1] == m[1] == '_';
      NoInnerUnderscores(nonce, k);
      assert false;
    }
  }

  /** An earlier reading of the marker on its own line uses one or two of the marker's first underscores. */
  lemma EarlierReadingOverlaps(r: string, payload: string, nonce: string, j: int)
    requires nonce != "" && '_' !in nonce && !Contains(r, Marker(nonce))
    requires 0 <= j < |r| && OccursAt(r + (Marker(nonce) + payload), Marker(nonce), j)
    ensures || (|r| - j == |Stem(nonce)| && EndsIn(r, Stem(nonce)))
            || (|r| - j == |Stem(nonce)| + 1 && EndsIn(r, Stem(nonce) + "_"))
  {
    var m, stem, line := Marker(nonce), Stem(nonce), r + (Marker(nonce) + payload);
    EarlierReadingIsDeep(r, payload, nonce, j);
    OccursInPrefix(r, m + payload, m, j);
    assert !OccursAt(r, m, j);
    assert m[..|stem|] == stem && m[..|stem| + 1] == stem + "_";
  }

  lemma OccursInPrefix(r: string, x: string, m: string, j: int)
    requires OccursAt(r + x, m, j)
    ensures j + |m| <= |r| ==> OccursAt(r, m, j)
    ensures j <= |r| < j + |m| ==> m[..|r| - j] == r[j..]
  {
    var all := r + x;
    assert all[j..j + |m|] == m;
    if j + |m| <= |r| {
      assert r[j..j + |m|] == all[j..j + |m|];
    } else if j <= |r| {
      assert all[j..j + |m|][..|r| - j] == r[j..];
    }
  }

  function OverlapLength(r: string, nonce: string): nat {
    if EndsIn(r, Stem(nonce)) then |Stem(nonce)| else |Stem(nonce)| + 1
  }

  lemma OverlapOccurs(r: string, payload: string, nonce: string)
    requires Overlaps(r, nonce)
    ensures OverlapLength(r, nonce) <= |r|
    ensures OccursAt(r + (Marker(nonce) + payload), Marker(nonce), |r| - OverlapLength(r, nonce))
  {
    var m, stem, line := Marker(nonce), Stem(nonce), r + (Marker(nonce) + payload);
    var k := OverlapLength(r, nonce);
    StemEnds(nonce);
    hide Stem;
    var j := |r| - k;
    assert m == m[..k] + m[k..] && m[k..] == m[..|m| - k];
    SliceAcross(r, m, payload, j, |m| - k);
    assert r[j..] == m[..k];
  }

  lemma SliceAcross(r: string, m: string, payload: string, j: nat, n: nat)
    requires j <= |r| && n <= |m|
    ensures (r + (m + payload))[j..|r| + n] == r[j..] + m[..n]
  {
  }

  lemma StemEnds(nonce: string)
    ensures |Stem(nonce)| >= 2 && Stem(nonce)[0] == '_' && Stem(nonce)[1] == '_'
    ensures nonce != "" && '_' !in nonce ==> Stem(nonce)[|Stem(nonce)| - 1] != '_'
  {
    assert nonce != "" ==> Stem(nonce)[|Stem(nonce)| - 1] == nonce[|nonce| - 1];
  }

  /**
   On the line where the marker is written, its own position is read first if and only if the line
   so far ends neither in the stem nor in the stem and one underscore.
   */
  lemma MarkerFirstExactly(r: string, payload: string, nonce: string)
    requires nonce != "" && '_' !in nonce && !Contains(r, Marker(nonce))
    ensures IndexOf(r + (Marker(nonce) + payload), Marker(nonce)) == Some(|r|) <==> !Overlaps(r, nonce)
  {
    var m := Marker(nonce);
    var line := r + (m + payload);
    IndexOfIsFirst(line, m, 0);
    if Overlaps(r, nonce) {
      OverlapOccurs(r, payload, nonce);
    } else {
      assert line[|r|..|r| + |m|] == m;
      forall j | 0 <= j < |r| ensures !OccursAt(line, m, j) {
        if OccursAt(line, m, j) { EarlierReadingOverlaps(r, payload, nonce, j); }
      }
      IndexOfIs(line, m, |r|);
    }
  }

  /** What is left of the marker behind an overlapping reading; it is no JSON text. */
  ghost predicate RefusesLeftovers(payload: string, nonce: string, decode: Decoder) {
    decode(Marker(nonce)[1..] + payload).None? && decode(Marker(nonce)[2..] + payload).None?
  }

  lemma OverlappedIndex(r: string, payload: string, nonce: string)
    requires nonce != "" && '_' !in nonce && !Contains(r, Marker(nonce)) && Overlaps(r, nonce)
    ensures OverlapLength(r, nonce) <= |r|
    ensures IndexOf(r + (Marker(nonce) + payload), Marker(nonce)) == Some(|r| - OverlapLength(r, nonce))
  {
    var m, stem := Marker(nonce), Stem(nonce);
    var line := r + (m + payload);
    OverlapOccurs(r, payload, nonce);
    IndexOfIsFirst(line, m, 0);
    StemEnds(nonce);
    hide Stem, IndexOf, OccursAt, Contains;
    assert EndsIn(r, stem) ==> r[|r| - 1] == stem[|stem| - 1];
    assert EndsIn(r, stem + "_") ==> r[|r| - 1] == '_';
    EarlierReadingOverlaps(r, payload, nonce, IndexOf(line, m).value);
  }

  lemma OverlappedPiece(r: string, payload: string, nonce: string, decode: Decoder)
    requires nonce != "" && '_' !in nonce && !Contains(r, Marker(nonce))
    requires ValidPayload(payload, decode) && RefusesLeftovers(payload, nonce, decode) && Overlaps(r, nonce)
    ensures var piece := r + (Marker(nonce) + payload) + "\n";
            ParsePiece(piece, Marker(nonce), decode) == Parsed(piece, [])
  {
    hide IndexOf, Contains, EndsIn, Stem;
    var m := Marker(nonce);
    var line := r + (m + payload);
    OverlappedIndex(r, payload, nonce);
    var k := OverlapLength(r, nonce);
    assert line[|r| - k + |m|..] == m[|m| - k..] + payload;
    BodyOfTagged(r + m, payload);
    assert r + m + payload == line;
  }

  /** What the parser makes of one segment: its text and its events. */
  function ReadAs(seg: Segment, nonce: string, decode: Decoder): Parsed {
    if Overlaps(Remainder(seg.before), nonce) then Parsed(seg.before + (Marker(nonce) + seg.payload) + "\n", [])
    else Parsed(seg.before, if decode(seg.payload).Some? then Listed(OutcomeOf(decode(seg.payload).value)) else [])
  }

  function ReadAllAs(segs: seq<Segment>, tail: string, nonce: string, decode: Decoder): Parsed {
    if segs == [] then Parsed(tail, [])
    else Join(ReadAs(segs[0], nonce, decode), ReadAllAs(segs[1..], tail, nonce, decode))
  }

  ghost predicate PlainNonce(nonce: string) {
    nonce != "" && '_' !in nonce && NoNewline(nonce)
  }

  /** The marker occurs in no stretch of kernel output. */
  ghost predicate MarkerFree(segs: seq<Segment>, tail: string, nonce: string) {
    !Contains(tail, Marker(nonce)) && forall i | 0 <= i < |segs| :: !Contains(segs[i].before, Marker(nonce))
  }

  ghost predicate ValidPayloads(segs: seq<Segment>, nonce: string, decode: Decoder) {
    forall i | 0 <= i < |segs| ::
          ValidPayload(segs[i].payload, decode) && RefusesLeftovers(segs[i].payload, nonce, decode)
  }

  lemma SegmentReadAs(seg: Segment, b: string, nonce: string, decode: Decoder)
    requires PlainNonce(nonce) && !Contains(seg.before, Marker(nonce))
    requires ValidPayload(seg.payload, decode) && RefusesLeftovers(seg.payload, nonce, decode)
    ensures Parse(seg.before + (Marker(nonce) + seg.payload) + "\n" + b, Marker(nonce), decode) ==
            Join(ReadAs(seg, nonce, decode), Parse(b, Marker(nonce), decode))
  {
    hide Contains, IndexOf, OccursAt, Remainder, Front, Parse, ParsePiece;
    var m, r := Marker(nonce), Remainder(seg.before);
    MarkerFreeIsInert(seg.before, m);
    assert NoNewline(m) by { MarkerHasNoNewline(nonce); }
    ParseSegment(seg, b, m, decode);
    RemainderHasNoNewline(seg.before);
    FrontAndRemainder(seg.before);
    MarkerFirstExactly(r, seg.payload, nonce);
    if Overlaps(r, nonce) {
      OverlappedPiece(r, seg.payload, nonce, decode);
      Associates(Front(seg.before), r, (m + seg.payload) + "\n");
      assert r + (m + seg.payload) + "\n" == r + ((m + seg.payload) + "\n");
      assert seg.before + (m + seg.payload) + "\n" == seg.before + ((m + seg.payload) + "\n");
    } else {
      TaggedPiece(r, seg.payload, m, decode);
    }
  }

  lemma MarkerHasNoNewline(nonce: string)
    requires NoNewline(nonce)
    ensures NoNewline(Marker(nonce))
  {
    assert Marker(nonce) == "__MARIMOHUB_LAUNCH_" + (nonce + "__");
  }

  /** For marker-free kernel output, exactly what the parser returns. */
  lemma {:induction false} ParseReadsAs(segs: seq<Segment>, tail: string, nonce: string, decode: Decoder)
    requires PlainNonce(nonce) && MarkerFree(segs, tail, nonce) && ValidPayloads(segs, nonce, decode)
    ensures Parse(Emitted(segs, tail, Marker(nonce)), Marker(nonce), decode) == ReadAllAs(segs, tail, nonce, decode)
  {
    hide Contains, Parse, Marker, ReadAs;
    if segs == [] {
      MarkerFreeIsInert(tail, Marker(nonce));
      InertText(tail, Marker(nonce), decode);
    } else {
      ParseReadsAs(segs[1..], tail, nonce, decode);
      SegmentReadAs(segs[0], Emitted(segs[1..], tail, Marker(nonce)), nonce, decode);
    }
  }

  lemma {:induction false} ReadAsKernelText(segs: seq<Segment>, tail: string, nonce: string, decode: Decoder)
    ensures |ReadAllAs(segs, tail, nonce, decode).text| >= |KernelText(segs, tail)|
    ensures (forall i | 0 <= i < |segs| :: !Overlaps(Remainder(segs[i].before), nonce)) ==>
              ReadAllAs(segs, tail, nonce, decode) == Parsed(KernelText(segs, tail), EmittedEvents(segs, decode))
    ensures (exists i :: 0 <= i < |segs| && Overlaps(Remainder(segs[i].before), nonce)) ==>
              |ReadAllAs(segs, tail, nonce, decode).text| > |KernelText(segs, tail)|
  {
    hide Overlaps, Remainder;
    if segs != [] {
      ReadAsKernelText(segs[1..], tail, nonce, decode);
      assert forall i | 0 <= i < |segs| - 1 :: segs[1..][i] == segs[i + 1];
      if i :| 0 <= i < |segs| && Overlaps(Remainder(segs[i].before), nonce) {
        if i > 0 { assert segs[1..][i - 1] == segs[i]; }
      }
    }
  }

  /**
   For kernel output without the marker, parsing gives back exactly that output and exactly the
   injected terminal events, in order, if and only if no marker is written behind an unfinished line
   that ends in the stem or in the stem and one underscore.
   */
  lemma RoundTripExactly(segs: seq<Segment>, tail: string, nonce: string, decode: Decoder)
    requires PlainNonce(nonce) && MarkerFree(segs, tail, nonce) && ValidPayloads(segs, nonce, decode)
    ensures Parse(Emitted(segs, tail, Marker(nonce)), Marker(nonce), decode) ==
            Parsed(KernelText(segs, tail), EmittedEvents(segs, decode)) <==>
            forall i | 0 <= i < |segs| :: !Overlaps(Remainder(segs[i].before), nonce)
  {
    ParseReadsAs(segs, tail, nonce, decode);
    ReadAsKernelText(segs, tail, nonce, decode);
  }

  /**
   The adapter's view of two marker-free streams: its logs are the kernel's own output and its
   outcome the supervisor's last terminal event, and the logs alone are exact only without overlap.
   */
  lemma LaunchOutputRoundTrip(stdout: string, segs: seq<Segment>, tail: string, nonce: string, decode: Decoder)
    requires PlainNonce(nonce) && !Contains(stdout, Marker(nonce))
    requires MarkerFree(segs, tail, nonce) && ValidPayloads(segs, nonce, decode)
    ensures var out := Parse(stdout, Marker(nonce), decode);
            var err := Parse(Emitted(segs, tail, Marker(nonce)), Marker(nonce), decode);
            && out.text == stdout
            && (err.text == KernelText(segs, tail) <==>
                  forall i | 0 <= i < |segs| :: !Overlaps(Remainder(segs[i].before), nonce))
            && (err.text == KernelText(segs, tail) ==>
                  LastOf(out.events + err.events) == LastOf(EmittedEvents(segs, decode)))
  {
    hide Contains, Marker, Parse;
    ParseReadsAs(segs, tail, nonce, decode);
    ReadAsKernelText(segs, tail, nonce, decode);
    MarkerFreeIsInert(stdout, Marker(nonce));
    InertText(stdout, Marker(nonce), decode);
    assert [] + EmittedEvents(segs, decode) == EmittedEvents(segs, decode);
  }

  /**
   Both overlaps hide the event: a kernel that leaves a line ending in the stem, with or without an
   underscore, makes the next marker unreadable although it never wrote the marker itself.
   */
  lemma OverlapHidesTheEvent(nonce: string, payload: string, underscore: bool, decode: Decoder)
    requires PlainNonce(nonce) && ValidPayload(payload, decode) && RefusesLeftovers(payload, nonce, decode)
    ensures var before := Stem(nonce) + if underscore then "_" else "";
            && !Contains(before, Marker(nonce))
            && Parse(Emitted([Segment(before, payload)], "", Marker(nonce)), Marker(nonce), decode).events == []
  {
    var before := Stem(nonce) + if underscore then "_" else "";
    var segs := [Segment(before, payload)];
    assert |before| < |Marker(nonce)|;
    assert before == "__MARIMOHUB_LAUNCH_" + (nonce + if underscore then "_" else "");
    NoFirstLine(before);
    LinesOfLast(before);
    assert EndsIn(before, before);
    assert before == if underscore then Stem(nonce) + "_" else Stem(nonce);
    ParseReadsAs(segs, "", nonce, decode);
    assert segs[1..] == [];
    assert ReadAllAs([], "", nonce, decode) == Parsed("", []);
  }
}
