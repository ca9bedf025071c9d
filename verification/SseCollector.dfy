/**
 The bounded collector of a sandbox command's server-sent events. The reference reads the whole
 stream at once; the method reads it chunk by chunk, with the limits counted as bytes arrive, and
 must reach the same result. `classify` stands for `JSON.parse` and the field tests that follow it.
 */
module SseCollector {
  import opened Common
  import Text
  import Utf8

  type byte = Utf8.byte

  const NEWLINE: byte := 10
  const MAX_SAFE_INTEGER := 0x1F_FFFF_FFFF_FFFF

  function WireLimit(maxOutputBytes: nat): (limit: nat)
    ensures limit <= MAX_SAFE_INTEGER && limit <= maxOutputBytes * 140 + 65536
  {
    Min(MAX_SAFE_INTEGER, maxOutputBytes * (12 + 128) + 64 * 1024)
  }

  function FrameLimit(maxOutputBytes: nat): (limit: nat)
    ensures limit <= MAX_SAFE_INTEGER && limit <= maxOutputBytes * 6 + 65536
  {
    Min(MAX_SAFE_INTEGER, maxOutputBytes * 6 + 64 * 1024)
  }

  /** What the text after `data:` says; the collector throws on `Malformed` and on `Failure`. */
  datatype Event =
    | Malformed
    | Failure
    | Stdout(data: string)
    | Stderr(data: string)
    | Complete(succeeded: bool)
    | Ignored

  type Classifier = string -> Event

  datatype Output = Output(success: bool, stdout: string, stderr: string)

  // ----- the streaming decoder -----

  /** `started`: some text has come out, so a byte order mark is no longer dropped. */
  datatype Decoder = Decoder(state: Utf8.State, started: bool)

  function Feed(d: Decoder, bytes: seq<byte>): Utf8.Out<Decoder> {
    var r := Utf8.Run(d.state, bytes);
    Utf8.Out(Decoder(r.state, d.started || r.text != ""), if d.started then r.text else Utf8.StripBom(r.text))
  }

  // ----- the reference -----

  /** The text of a stream, without what a final incomplete character adds. */
  function TextOf(stream: seq<byte>): string {
    Utf8.StripBom(Utf8.Run(Utf8.Ground, stream).text)
  }

  /** The bytes from `i` to `j` hold no newline except perhaps the last. */
  ghost predicate OneFrame(stream: seq<byte>, i: nat, j: nat)
    requires i <= j <= |stream|
  {
    forall k | i <= k < j - 1 :: stream[k] != NEWLINE
  }

  /** No line of the stream, complete or not, is longer than the limit. */
  ghost predicate FramesFit(stream: seq<byte>, limit: nat) {
    forall i: nat, j: nat | i <= j <= |stream| && OneFrame(stream, i, j) :: j - i <= limit
  }

  /** The white space and line terminators of ECMAScript. */
  predicate IsSpace(c: char) {
    var v := c as int;
    || 0x09 <= v <= 0x0D || v == 0x20 || v == 0xA0 || v == 0x1680 || 0x2000 <= v <= 0x200A
    || v == 0x2028 || v == 0x2029 || v == 0x202F || v == 0x205F || v == 0x3000 || v == 0xFEFF
  }

  predicate Blank(s: string) {
    forall c | c in s :: IsSpace(c)
  }

  predicate IsData(line: string) {
    "data:" <= line
  }

  function Handle(o: Output, event: Event): Option<Output> {
    match event
    case Malformed => None
    case Failure => None
    case Stdout(data) => Some(o.(stdout := o.stdout + data))
    case Stderr(data) => Some(o.(stderr := o.stderr + data))
    case Complete(succeeded) => Some(o.(success := succeeded))
    case Ignored => Some(o)
  }

  /** The lines handled in order, with no limit. */
  function Replay(lines: seq<string>, classify: Classifier): Option<Output> {
    if lines == [] then Some(Output(false, "", ""))
    else
      var before, line := Replay(lines[..|lines| - 1], classify), lines[|lines| - 1];
      if before.None? || !IsData(line) then before else Handle(before.value, classify(line[5..]))
  }

  function Used(o: Output): nat {
    Utf8.Length(o.stdout) + Utf8.Length(o.stderr)
  }

  /** The result for a whole stream; `None` when the collector fails. */
  ghost function Collected(stream: seq<byte>, maxOutputBytes: nat, classify: Classifier): Option<Output> {
    var text := TextOf(stream);
    var output := Replay(Text.CompleteLines(text), classify);
    if && |stream| <= WireLimit(maxOutputBytes)
       && FramesFit(stream, FrameLimit(maxOutputBytes))
       && output.Some? && Used(output.value) <= maxOutputBytes
       && Blank(Text.Remainder(text) + Utf8.Flush(Utf8.Run(Utf8.Ground, stream).state))
    then output
    else None
  }

  // ----- what the stream says, event by event -----

  /** The classified `data:` lines, in order. */
  function Events(lines: seq<string>, classify: Classifier): seq<Event> {
    if lines == [] then []
    else
      (if "data:" <= lines[0] then [classify(lines[0][|"data:"|..])] else []) + Events(lines[1..], classify)
  }

  function StdoutOf(events: seq<Event>): string {
    if events == [] then "" else (if events[0].Stdout? then events[0].data else "") + StdoutOf(events[1..])
  }

  function StderrOf(events: seq<Event>): string {
    if events == [] then "" else (if events[0].Stderr? then events[0].data else "") + StderrOf(events[1..])
  }

  /** The flag of the last completion; a command that never completes has not succeeded. */
  ghost predicate SuccessIs(events: seq<Event>, success: bool) {
    if exists i :: 0 <= i < |events| && events[i].Complete?
    then exists i :: 0 <= i < |events| && events[i] == Complete(success)
                     && forall j | i < j < |events| :: !events[j].Complete?
    else !success
  }

  ghost predicate NoErrors(events: seq<Event>) {
    forall i | 0 <= i < |events| :: !events[i].Malformed? && !events[i].Failure?
  }

  /** The stream is within every limit, ends between lines, and reports no error. */
  ghost predicate Accepted(stream: seq<byte>, events: seq<Event>, maxOutputBytes: nat) {
    && |stream| <= WireLimit(maxOutputBytes) && FramesFit(stream, FrameLimit(maxOutputBytes))
    && NoErrors(events)
    && Utf8.Length(StdoutOf(events)) + Utf8.Length(StderrOf(events)) <= maxOutputBytes
    && Blank(Text.Remainder(TextOf(stream)) + Utf8.Flush(Utf8.Run(Utf8.Ground, stream).state))
  }

  ghost predicate OutputIs(output: Output, events: seq<Event>) {
    output.stdout == StdoutOf(events) && output.stderr == StderrOf(events) && SuccessIs(events, output.success)
  }

  lemma {:induction false} EventsLast(lines: seq<string>, line: string, classify: Classifier)
    ensures Events(lines + [line], classify) ==
            Events(lines, classify) + if "data:" <= line then [classify(line[|"data:"|..])] else []
  {
    if lines == [] {
      assert [line][1..] == [];
    } else {
      EventsLast(lines[1..], line, classify);
      assert (lines + [line])[0] == lines[0] && (lines + [line])[1..] == lines[1..] + [line];
    }
  }

  lemma {:induction false} StdoutLast(events: seq<Event>, e: Event)
    ensures StdoutOf(events + [e]) == StdoutOf(events) + if e.Stdout? then e.data else ""
  {
    var all, more := events + [e], if e.Stdout? then e.data else "";
    if events == [] {
      assert all == [e] && [e][1..] == [];
    } else {
      StdoutLast(events[1..], e);
      assert all[0] == events[0] && all[1..] == events[1..] + [e];
      Text.Associates(if events[0].Stdout? then events[0].data else "", StdoutOf(events[1..]), more);
    }
  }

  lemma {:induction false} StderrLast(events: seq<Event>, e: Event)
    ensures StderrOf(events + [e]) == StderrOf(events) + if e.Stderr? then e.data else ""
  {
    var all, more := events + [e], if e.Stderr? then e.data else "";
    if events == [] {
      assert all == [e] && [e][1..] == [];
    } else {
      StderrLast(events[1..], e);
      assert all[0] == events[0] && all[1..] == events[1..] + [e];
      Text.Associates(if events[0].Stderr? then events[0].data else "", StderrOf(events[1..]), more);
    }
  }

  lemma SuccessLast(events: seq<Event>, e: Event, success: bool)
    requires SuccessIs(events, success)
    ensures SuccessIs(events + [e], if e.Complete? then e.succeeded else success)
  {
    var all := events + [e];
    assert all[|events|] == e && forall i | 0 <= i < |events| :: all[i] == events[i];
    if !e.Complete? && exists i :: 0 <= i < |events| && events[i].Complete? {
      var i :| 0 <= i < |events| && events[i] == Complete(success)
               && forall j | i < j < |events| :: !events[j].Complete?;
      assert all[i] == Complete(success);
    }
  }

  /** The output so far, or none after an error, is what the events say. */
  ghost predicate Matches(output: Option<Output>, events: seq<Event>) {
    (output.Some? <==> NoErrors(events)) && (output.Some? ==> OutputIs(output.value, events))
  }

  /** Replaying the lines fails exactly on a bad event, and otherwise gives each stream its own data. */
  lemma {:induction false} ReplayMatches(lines: seq<string>, classify: Classifier)
    ensures Matches(Replay(lines, classify), Events(lines, classify))
  {
    if lines != [] {
      hide Matches, Handle;
      var before, line := lines[..|lines| - 1], lines[|lines| - 1];
      var events := Events(before, classify);
      ReplayMatches(before, classify);
      EventsLast(before, line, classify);
      assert lines == before + [line];
      if IsData(line) {
        HandledMatches(events, Replay(before, classify), classify(line[5..]));
      } else {
        assert events + [] == events;
      }
    }
  }

  lemma HandledMatches(events: seq<Event>, output: Option<Output>, e: Event)
    requires Matches(output, events)
    ensures Matches(if output.None? then None else Handle(output.value, e), events + [e])
  {
    hide StdoutOf, StderrOf, SuccessIs;
    var all := events + [e];
    assert all[|events|] == e && forall i | 0 <= i < |events| :: all[i] == events[i];
    StdoutLast(events, e);
    StderrLast(events, e);
    if output.Some? {
      SuccessLast(events, e, output.value.success);
      assert output.value.stdout + "" == output.value.stdout && output.value.stderr + "" == output.value.stderr;
    }
  }

  /** The reference result, said in terms of the events alone. */
  lemma CollectedIs(stream: seq<byte>, maxOutputBytes: nat, classify: Classifier)
    ensures var events := Events(Text.CompleteLines(TextOf(stream)), classify);
            match Collected(stream, maxOutputBytes, classify)
            case Some(output) => Accepted(stream, events, maxOutputBytes) && OutputIs(output, events)
            case None => !Accepted(stream, events, maxOutputBytes)
  {
    hide TextOf, Text.CompleteLines, Replay, FramesFit, Utf8.Run, Blank, SuccessIs, StdoutOf, StderrOf;
    ReplayMatches(Text.CompleteLines(TextOf(stream)), classify);
  }

  // ----- the decoder over a split stream -----

  ghost predicate DecoderAt(d: Decoder, stream: seq<byte>) {
    d == Decoder(Utf8.Run(Utf8.Ground, stream).state, Utf8.Run(Utf8.Ground, stream).text != "")
  }

  lemma FeedContinues(d: Decoder, stream: seq<byte>, more: seq<byte>)
    requires DecoderAt(d, stream)
    ensures DecoderAt(Feed(d, more).state, stream + more)
    ensures TextOf(stream + more) == TextOf(stream) + Feed(d, more).text
  {
    Utf8.RunConcat(Utf8.Ground, stream, more);
    var a, b := Utf8.Run(Utf8.Ground, stream).text, Utf8.Run(d.state, more).text;
    if a != "" {
      assert Utf8.StripBom(a + b) == Utf8.StripBom(a) + b;
    } else {
      assert a + b == b && Utf8.StripBom(a) + Utf8.StripBom(b) == Utf8.StripBom(b);
    }
  }

  /** A state the decoder can be in: the character it is reading is not an ASCII one. */
  predicate Reachable(s: Utf8.State) {
    s.More? ==>
      && s.needed >= 1 && s.lower >= 0x80 && s.upper <= 0xBF
      && s.value * 64 + (s.lower - 0x80) >= if s.needed == 1 then 0x80 else 2
  }

  lemma StepNewline(s: Utf8.State, b: byte)
    requires Reachable(s)
    ensures Reachable(Utf8.Step(s, b).state)
    ensures b != NEWLINE ==> Text.NoNewline(Utf8.Step(s, b).text)
    ensures b == NEWLINE ==> Utf8.Step(s, b).text == (if s == Utf8.Ground then "" else [Utf8.REPLACEMENT]) + "\n"
  {
  }

  lemma {:induction false} RunReachable(s: Utf8.State, bytes: seq<byte>)
    requires Reachable(s)
    ensures Reachable(Utf8.Run(s, bytes).state)
    ensures NEWLINE !in bytes ==> Text.NoNewline(Utf8.Run(s, bytes).text)
    decreases bytes
  {
    hide Utf8.Step, Reachable;
    if bytes != [] {
      StepNewline(s, bytes[0]);
      RunReachable(Utf8.Step(s, bytes[0]).state, bytes[1..]);
    }
  }

  /** The text of one line's bytes ends in its only newline. */
  lemma RunLine(s: Utf8.State, bytes: seq<byte>) returns (line: string)
    requires Reachable(s) && NEWLINE !in bytes
    ensures Text.NoNewline(line) && Utf8.Run(s, bytes + [NEWLINE]).text == line + "\n"
  {
    hide Utf8.Step, Reachable;
    RunReachable(s, bytes);
    var r := Utf8.Run(s, bytes);
    Utf8.RunConcat(s, bytes, [NEWLINE]);
    Utf8.RunLast(r.state, NEWLINE);
    StepNewline(r.state, NEWLINE);
    line := r.text + if r.state == Utf8.Ground then "" else [Utf8.REPLACEMENT];
  }

  /** A segment without a newline adds to the unfinished line. */
  lemma FeedPart(d: Decoder, stream: seq<byte>, more: seq<byte>, pending: string)
    requires DecoderAt(d, stream) && pending == Text.Remainder(TextOf(stream)) && NEWLINE !in more
    ensures Text.CompleteLines(TextOf(stream + more)) == Text.CompleteLines(TextOf(stream))
    ensures Text.Remainder(TextOf(stream + more)) == pending + Feed(d, more).text
  {
    hide Text.CompleteLines, Text.Remainder, Utf8.Run, TextOf;
    RunReachable(Utf8.Ground, stream);
    RunReachable(d.state, more);
    FeedContinues(d, stream, more);
    var text, piece := TextOf(stream), Feed(d, more).text;
    Text.RemainderHasNoNewline(text);
    Text.LinesOfConcat(text, piece);
    Text.NoFirstLine(pending + piece);
    Text.LinesOfLast(pending + piece);
    assert Text.CompleteLines(text) + [] == Text.CompleteLines(text);
  }

  lemma FeedsLine(d: Decoder, bytes: seq<byte>) returns (line: string)
    requires Reachable(d.state) && NEWLINE !in bytes
    ensures Text.NoNewline(line) && Feed(d, bytes + [NEWLINE]).text == line + "\n"
  {
    hide Utf8.Run, Reachable;
    line := RunLine(d.state, bytes);
    if !d.started {
      StripBomOfLine(line);
      line := Utf8.StripBom(line);
    }
  }

  lemma StripBomOfLine(line: string)
    requires Text.NoNewline(line)
    ensures Text.NoNewline(Utf8.StripBom(line)) && Utf8.StripBom(line + "\n") == Utf8.StripBom(line) + "\n"
  {
    assert line != "" ==> (line + "\n")[1..] == line[1..] + "\n";
  }

  lemma CompletesLine(text: string, line: string)
    requires Text.NoNewline(line)
    ensures var full := Text.Remainder(text) + (line + "\n");
            && full[..|full| - 1] == Text.Remainder(text) + line
            && Text.Remainder(text + (line + "\n")) == ""
            && Text.CompleteLines(text + (line + "\n")) == Text.CompleteLines(text) + [Text.Remainder(text) + line]
  {
    hide Text.CompleteLines, Text.Remainder;
    var pending := Text.Remainder(text);
    Text.RemainderHasNoNewline(text);
    Text.LinesOfConcat(text, line + "\n");
    Text.LinesOfOne(pending + line, "");
    Text.NoFirstLine("");
    Text.LinesOfLast("");
    assert pending + (line + "\n") == (pending + line) + "\n" + "";
    assert [pending + line] + Text.CompleteLines("") == [pending + line];
  }

  /** A segment that ends in the only newline completes the unfinished line. */
  lemma FeedLine(d: Decoder, stream: seq<byte>, more: seq<byte>, pending: string)
    requires DecoderAt(d, stream) && pending == Text.Remainder(TextOf(stream)) && NEWLINE !in more
    ensures var full := pending + Feed(d, more + [NEWLINE]).text;
            var all := TextOf(stream + (more + [NEWLINE]));
            && full != "" && Text.Remainder(all) == ""
            && Text.CompleteLines(all) == Text.CompleteLines(TextOf(stream)) + [full[..|full| - 1]]
  {
    hide Text.CompleteLines, Text.Remainder, Utf8.Run, TextOf, Feed;
    RunReachable(Utf8.Ground, stream);
    FeedContinues(d, stream, more + [NEWLINE]);
    var line := FeedsLine(d, more);
    CompletesLine(TextOf(stream), line);
  }

  // ----- the reference over a growing stream -----

  /** Handling more lines never repairs a failure and never lowers the output's size. */
  lemma {:induction false} ReplayExtends(lines: seq<string>, more: seq<string>, classify: Classifier)
    ensures var a, b := Replay(lines, classify), Replay(lines + more, classify);
            (b.Some? ==> a.Some? && Used(a.value) <= Used(b.value))
    decreases |more|
  {
    var all := lines + more;
    if more == [] {
      assert all == lines;
    } else {
      var fewer := more[..|more| - 1];
      assert all[..|all| - 1] == lines + fewer;
      ReplayExtends(lines, fewer, classify);
      var before := Replay(lines + fewer, classify);
      if before.Some? && IsData(all[|all| - 1]) { HandleGrows(before.value, classify(all[|all| - 1][5..])); }
    }
  }

  lemma HandleGrows(o: Output, event: Event)
    ensures Handle(o, event).Some? ==>
              Used(Handle(o, event).value) ==
              Used(o) + if event.Stdout? || event.Stderr? then Utf8.Length(event.data) else 0
  {
    if event.Stdout? { Utf8.LengthConcat(o.stdout, event.data); }
    if event.Stderr? { Utf8.LengthConcat(o.stderr, event.data); }
  }

  lemma ReplayLast(lines: seq<string>, line: string, classify: Classifier)
    ensures var before := Replay(lines, classify);
            Replay(lines + [line], classify) ==
            if before.None? || !IsData(line) then before else Handle(before.value, classify(line[5..]))
  {
    assert (lines + [line])[..|lines|] == lines;
  }

  /** Reading on keeps the lines already complete. */
  lemma LinesGrow(stream: seq<byte>, more: seq<byte>) returns (next: seq<string>)
    ensures Text.CompleteLines(TextOf(stream + more)) == Text.CompleteLines(TextOf(stream)) + next
  {
    var d := Decoder(Utf8.Run(Utf8.Ground, stream).state, Utf8.Run(Utf8.Ground, stream).text != "");
    FeedContinues(d, stream, more);
    Text.LinesOfConcat(TextOf(stream), Feed(d, more).text);
    next := Text.CompleteLines(Text.Remainder(TextOf(stream)) + Feed(d, more).text);
  }

  /** What has gone wrong in the part of the stream read so far cannot be repaired by the rest. */
  lemma FailureIsFinal(stream: seq<byte>, more: seq<byte>, maxOutputBytes: nat, classify: Classifier)
    requires var output := Replay(Text.CompleteLines(TextOf(stream)), classify);
             || |stream| > WireLimit(maxOutputBytes) || !FramesFit(stream, FrameLimit(maxOutputBytes))
             || output.None? || Used(output.value) > maxOutputBytes
    ensures Collected(stream + more, maxOutputBytes, classify).None?
  {
    hide TextOf, Text.CompleteLines, Text.Remainder, Replay, Utf8.Run;
    if !FramesFit(stream, FrameLimit(maxOutputBytes)) {
      var i: nat, j: nat :| i <= j <= |stream| && OneFrame(stream, i, j) && j - i > FrameLimit(maxOutputBytes);
      assert OneFrame(stream + more, i, j);
    }
    var next := LinesGrow(stream, more);
    ReplayExtends(Text.CompleteLines(TextOf(stream)), next, classify);
  }

  /** The line in progress starts at `start`. */
  ghost predicate LineStart(stream: seq<byte>, start: nat) {
    && start <= |stream| && (start > 0 ==> stream[start - 1] == NEWLINE)
    && forall k | start <= k < |stream| :: stream[k] != NEWLINE
  }

  lemma FramesGrow(stream: seq<byte>, segment: seq<byte>, start: nat, limit: nat)
    requires LineStart(stream, start) && FramesFit(stream, limit)
    requires forall k | 0 <= k < |segment| - 1 :: segment[k] != NEWLINE
    ensures FramesFit(stream + segment, limit) <==> |stream| - start + |segment| <= limit
  {
    var all := stream + segment;
    assert start > 0 ==> all[start - 1] == NEWLINE;
    if |stream| - start + |segment| <= limit {
      forall i: nat, j: nat | i <= j <= |all| && OneFrame(all, i, j) ensures j - i <= limit {
        if j <= |stream| {
          assert forall k | i <= k < j :: stream[k] == all[k];
          assert OneFrame(stream, i, j);
        }
      }
    } else {
      assert OneFrame(all, start, |all|);
    }
  }

  // ----- the collector -----

  function Flatten(chunks: seq<seq<byte>>): seq<byte> {
    if chunks == [] then [] else chunks[0] + Flatten(chunks[1..])
  }

  lemma {:induction false} FlattenAt(chunks: seq<seq<byte>>, c: nat)
    requires c < |chunks|
    ensures Flatten(chunks) == Flatten(chunks[..c]) + chunks[c] + Flatten(chunks[c + 1..])
    ensures Flatten(chunks[..c + 1]) == Flatten(chunks[..c]) + chunks[c]
  {
    if c > 0 {
      FlattenAt(chunks[1..], c - 1);
      assert chunks[..c][1..] == chunks[1..][..c - 1] && chunks[..c + 1][1..] == chunks[1..][..c];
      assert chunks[1..][c - 1 + 1..] == chunks[c + 1..];
    } else {
      assert chunks[..1][1..] == [];
      assert chunks[..0] == [];
      assert [] + chunks[0] == chunks[0];
    }
  }

  lemma SplitAt(chunks: seq<seq<byte>>, c: nat, offset: nat) returns (rest: seq<byte>)
    requires c < |chunks| && offset <= |chunks[c]|
    ensures Flatten(chunks) == Flatten(chunks[..c]) + chunks[c][..offset] + rest
  {
    FlattenAt(chunks, c);
    rest := chunks[c][offset..] + Flatten(chunks[c + 1..]);
    assert chunks[c] == chunks[c][..offset] + chunks[c][offset..];
  }

  function NextNewline(value: seq<byte>, offset: nat): (r: Option<nat>)
    requires offset <= |value|
    ensures match r
            case Some(i) => offset <= i < |value| && value[i] == NEWLINE && NEWLINE !in value[offset..i]
            case None => NEWLINE !in value[offset..]
    decreases |value| - offset
  {
    if offset == |value| then None
    else if value[offset] == NEWLINE then Some(offset)
    else
      assert value[offset..] == [value[offset]] + value[offset + 1..];
      var r := NextNewline(value, offset + 1);
      assert r.Some? ==> value[offset..r.value] == [value[offset]] + value[offset + 1..r.value];
      r
  }

  /** The collector's variables. */
  datatype Reader = Reader(decoder: Decoder, pending: string, frameBytes: int, outputRemaining: int, output: Output)

  /** The variables after reading `done`, whose line in progress begins at `start`. */
  ghost predicate Reading(done: seq<byte>, start: nat, v: Reader, maxOutputBytes: nat, classify: Classifier) {
    && DecoderAt(v.decoder, done) && v.pending == Text.Remainder(TextOf(done))
    && LineStart(done, start) && v.frameBytes == |done| - start <= FrameLimit(maxOutputBytes)
    && FramesFit(done, FrameLimit(maxOutputBytes))
    && Replay(Text.CompleteLines(TextOf(done)), classify) == Some(v.output)
    && v.outputRemaining == maxOutputBytes - Used(v.output) >= 0
  }

  lemma NothingRead(maxOutputBytes: nat, classify: Classifier)
    ensures Reading([], 0, Reader(Decoder(Utf8.Ground, false), "", 0, maxOutputBytes, Output(false, "", "")),
                    maxOutputBytes, classify)
  {
    Text.NoFirstLine("");
    Text.LinesOfLast("");
  }

  lemma PartRead(done: seq<byte>, start: nat, v: Reader, maxOutputBytes: nat, classify: Classifier, segment: seq<byte>)
    requires Reading(done, start, v, maxOutputBytes, classify)
    requires NEWLINE !in segment && v.frameBytes + |segment| <= FrameLimit(maxOutputBytes)
    ensures var fed := Feed(v.decoder, segment);
            Reading(done + segment, start,
                    v.(decoder := fed.state, pending := v.pending + fed.text, frameBytes := v.frameBytes + |segment|),
                    maxOutputBytes, classify)
  {
    hide TextOf, Text.CompleteLines, Text.Remainder, Replay, Utf8.Run, Feed, FramesFit;
    assert forall k | 0 <= k < |segment| :: segment[k] in segment;
    FeedContinues(v.decoder, done, segment);
    FeedPart(v.decoder, done, segment, v.pending);
    FramesGrow(done, segment, start, FrameLimit(maxOutputBytes));
  }

  /** After a newline: a line is complete and handled, or the collector fails for good. */
  lemma LineRead(done: seq<byte>, start: nat, v: Reader, maxOutputBytes: nat, classify: Classifier,
                 segment: seq<byte>, rest: seq<byte>)
    requires Reading(done, start, v, maxOutputBytes, classify)
    requires segment != [] && segment[|segment| - 1] == NEWLINE && NEWLINE !in segment[..|segment| - 1]
    requires v.frameBytes + |segment| <= FrameLimit(maxOutputBytes)
    ensures v.pending + Feed(v.decoder, segment).text != ""
    ensures var all, fed := done + segment, Feed(v.decoder, segment);
            var full := v.pending + fed.text;
            var line := full[..|full| - 1];
            var after := if IsData(line) then Handle(v.output, classify(line[5..])) else Some(v.output);
            var remaining := v.outputRemaining - Size(line, classify);
            if after.None? || remaining < 0 then Collected(all + rest, maxOutputBytes, classify).None?
            else Reading(all, |all|, Reader(fed.state, "", 0, remaining, after.value), maxOutputBytes, classify)
  {
    hide TextOf, Text.CompleteLines, Text.Remainder, Replay, Utf8.Run, Feed, FramesFit, Collected;
    var head := segment[..|segment| - 1];
    assert segment == head + [NEWLINE];
    assert forall k | 0 <= k < |segment| - 1 :: segment[k] == head[k] && head[k] in head;
    FeedContinues(v.decoder, done, segment);
    FeedLine(v.decoder, done, head, v.pending);
    FramesGrow(done, segment, start, FrameLimit(maxOutputBytes));
    var full := v.pending + Feed(v.decoder, segment).text;
    var line := full[..|full| - 1];
    ReplayLast(Text.CompleteLines(TextOf(done)), line, classify);
    if IsData(line) { HandleGrows(v.output, classify(line[5..])); }
    LineFailure(done + segment, rest, maxOutputBytes, classify);
  }

  /** The bytes of output a line carries. */
  function Size(line: string, classify: Classifier): nat {
    if !IsData(line) then 0
    else
      match classify(line[5..])
      case Stdout(data) => Utf8.Length(data)
      case Stderr(data) => Utf8.Length(data)
      case Malformed => 0
      case Failure => 0
      case Complete(_) => 0
      case Ignored => 0
  }

  /**
   However the stream is cut into chunks, the collector succeeds exactly when the whole stream is
   accepted, and then each output stream is the data of its own events in order.
   */
  method CollectExecOutput(chunks: seq<seq<byte>>, maxOutputBytes: nat, classify: Classifier)
    returns (r: Result<Output>)
    ensures var stream := Flatten(chunks);
            var events := Events(Text.CompleteLines(TextOf(stream)), classify);
            match r
            case Ok(output) => Accepted(stream, events, maxOutputBytes) && OutputIs(output, events)
            case Err(_) => !Accepted(stream, events, maxOutputBytes)
  {
    hide TextOf, Text.CompleteLines, Text.Remainder, Replay, Utf8.Run, Feed, FramesFit, Flatten, Reading, Blank,
         Collected, Utf8.Length, Events, Accepted, OutputIs;
    CollectedIs(Flatten(chunks), maxOutputBytes, classify);
    var decoder := Decoder(Utf8.Ground, false);
    var wireRemaining: int := WireLimit(maxOutputBytes);
    var frameLimit := FrameLimit(maxOutputBytes);
    var frameBytes: int, outputRemaining: int, pending := 0, maxOutputBytes, "";
    var stdout, stderr, success := "", "", false;
    ghost var done: seq<byte>, start: nat := [], 0;
    NothingRead(maxOutputBytes, classify);
    NothingFlat(chunks);
    var c := 0;
    while c < |chunks|
      invariant c <= |chunks| && done == Flatten(chunks[..c])
      invariant wireRemaining == WireLimit(maxOutputBytes) - |done| >= 0
      invariant frameBytes <= frameLimit && outputRemaining >= 0
      invariant Reading(done, start,
                        Reader(decoder, pending, frameBytes, outputRemaining, Output(success, stdout, stderr)),
                        maxOutputBytes, classify)
    {
      var value := chunks[c];
      FlattenAt(chunks, c);
      wireRemaining := wireRemaining - |value|;
      if wireRemaining < 0 {
        TooLong(Flatten(chunks), maxOutputBytes, classify);
        return Err("Sandbox SSE wire limit exceeded");
      }
      ghost var before := done;
      var offset := 0;
      while offset < |value|
        invariant offset <= |value| && done == before + value[..offset]
        invariant frameBytes <= frameLimit && outputRemaining >= 0
        invariant Reading(done, start,
                          Reader(decoder, pending, frameBytes, outputRemaining, Output(success, stdout, stderr)),
                          maxOutputBytes, classify)
      {
        var newline := NextNewline(value, offset);
        var end := if newline.None? then |value| else newline.value + 1;
        var segment := value[offset..end];
        SegmentHasOneNewline(value, offset, end);
        ghost var rest := SplitAt(chunks, c, end);
        ghost var here := done + segment;
        ghost var v := Reader(decoder, pending, frameBytes, outputRemaining, Output(success, stdout, stderr));
        assert here == before + value[..end];
        frameBytes := frameBytes + (end - offset);
        if frameBytes > frameLimit {
          FrameTooLong(done, start, v, maxOutputBytes, classify, segment, rest);
          return Err("Sandbox SSE frame limit exceeded");
        }
        var fed := Feed(decoder, segment);
        if newline.None? {
          PartRead(done, start, v, maxOutputBytes, classify, segment);
          decoder, pending := fed.state, pending + fed.text;
          done, offset := here, end;
          continue;
        }
        LineRead(done, start, v, maxOutputBytes, classify, segment, rest);
        decoder, pending := fed.state, pending + fed.text;
        done, start, offset := here, |here|, end;
        var line := pending[..|pending| - 1];
        pending, frameBytes := "", 0;
        if !IsData(line) { continue; }
        match classify(line[5..]) {
          case Stdout(data) =>
            outputRemaining := outputRemaining - Utf8.Length(data);
            if outputRemaining < 0 { return Err("Sandbox output limit exceeded"); }
            stdout := stdout + data;
          case Stderr(data) =>
            outputRemaining := outputRemaining - Utf8.Length(data);
            if outputRemaining < 0 { return Err("Sandbox output limit exceeded"); }
            stderr := stderr + data;
          case Complete(succeeded) => success := succeeded;
          case Failure => return Err("Sandbox command failed");
          case Malformed => return Err("Malformed sandbox event");
          case Ignored =>
        }
      }
      c := c + 1;
    }
    assert chunks[..c] == chunks;
    AllRead(done, start, Reader(decoder, pending, frameBytes, outputRemaining, Output(success, stdout, stderr)),
            maxOutputBytes, classify);
    if !Blank(pending + Utf8.Flush(decoder.state)) { return Err("Incomplete sandbox output event"); }
    return Ok(Output(success, stdout, stderr));
  }

  lemma NothingFlat(chunks: seq<seq<byte>>)
    ensures Flatten(chunks[..0]) == []
  {
  }

  lemma SegmentHasOneNewline(value: seq<byte>, offset: nat, end: nat)
    requires offset < end <= |value|
    ensures var segment := value[offset..end];
            && segment[|segment| - 1] == value[end - 1] && segment[..|segment| - 1] == value[offset..end - 1]
            && (NEWLINE !in segment ==> NEWLINE !in segment[..|segment| - 1])
  {
    assert value[offset..end][..end - offset - 1] == value[offset..end - 1];
  }

  lemma TooLong(stream: seq<byte>, maxOutputBytes: nat, classify: Classifier)
    ensures |stream| > WireLimit(maxOutputBytes) ==> Collected(stream, maxOutputBytes, classify).None?
  {
  }

  /** `FailureIsFinal` for what a complete line can do wrong. */
  lemma LineFailure(done: seq<byte>, rest: seq<byte>, maxOutputBytes: nat, classify: Classifier)
    ensures var output := Replay(Text.CompleteLines(TextOf(done)), classify);
            (output.None? || Used(output.value) > maxOutputBytes) ==>
                  Collected(done + rest, maxOutputBytes, classify).None?
  {
    var output := Replay(Text.CompleteLines(TextOf(done)), classify);
    if output.None? || Used(output.value) > maxOutputBytes {
      FailureIsFinal(done, rest, maxOutputBytes, classify);
    }
  }

  lemma FrameTooLong(done: seq<byte>, start: nat, v: Reader, maxOutputBytes: nat, classify: Classifier,
                     segment: seq<byte>, rest: seq<byte>)
    requires Reading(done, start, v, maxOutputBytes, classify)
    requires segment != [] && NEWLINE !in segment[..|segment| - 1]
    requires v.frameBytes + |segment| > FrameLimit(maxOutputBytes)
    ensures Collected(done + segment + rest, maxOutputBytes, classify).None?
  {
    var head := segment[..|segment| - 1];
    assert forall k | 0 <= k < |segment| - 1 :: segment[k] == head[k] && head[k] in head;
    FramesGrow(done, segment, start, FrameLimit(maxOutputBytes));
    FailureIsFinal(done + segment, rest, maxOutputBytes, classify);
  }

  lemma AllRead(done: seq<byte>, start: nat, v: Reader, maxOutputBytes: nat, classify: Classifier)
    requires Reading(done, start, v, maxOutputBytes, classify)
    requires |done| <= WireLimit(maxOutputBytes)
    ensures Collected(done, maxOutputBytes, classify) ==
            if Blank(v.pending + Utf8.Flush(v.decoder.state)) then Some(v.output) else None
  {
  }

  // ----- a well-formed stream -----

  function Joined(lines: seq<string>): string {
    if lines == [] then "" else lines[0] + "\n" + Joined(lines[1..])
  }

  lemma {:induction false} LinesOfJoined(lines: seq<string>)
    requires forall line | line in lines :: Text.NoNewline(line)
    ensures Text.CompleteLines(Joined(lines)) == lines && Text.Remainder(Joined(lines)) == ""
  {
    if lines == [] {
      Text.NoFirstLine("");
      Text.LinesOfLast("");
    } else {
      assert lines[0] in lines && forall line | line in lines[1..] :: line in lines;
      LinesOfJoined(lines[1..]);
      Text.LinesOfOne(lines[0], Joined(lines[1..]));
      assert lines == [lines[0]] + lines[1..];
    }
  }

  /** One line as it is sent: an event, or a comment or separator. */
  datatype Sent = Data(payload: string) | Other(line: string)

  function LineOf(x: Sent): string {
    match x
    case Data(payload) => "data:" + payload
    case Other(line) => line
  }

  ghost predicate Sendable(x: Sent) {
    Text.NoNewline(LineOf(x)) && (x.Other? ==> !("data:" <= x.line))
  }

  function LinesOf(sent: seq<Sent>): seq<string> {
    if sent == [] then [] else [LineOf(sent[0])] + LinesOf(sent[1..])
  }

  function Classified(sent: seq<Sent>, classify: Classifier): seq<Event> {
    if sent == [] then []
    else (if sent[0].Data? then [classify(sent[0].payload)] else []) + Classified(sent[1..], classify)
  }

  lemma {:induction false} SentLines(sent: seq<Sent>, classify: Classifier)
    requires forall i | 0 <= i < |sent| :: Sendable(sent[i])
    ensures Events(LinesOf(sent), classify) == Classified(sent, classify)
    ensures forall line | line in LinesOf(sent) :: Text.NoNewline(line)
  {
    if sent != [] {
      SentLines(sent[1..], classify);
      assert Sendable(sent[0]);
      assert sent[0].Data? ==> LineOf(sent[0])[|"data:"|..] == sent[0].payload;
      assert LinesOf(sent)[1..] == LinesOf(sent[1..]);
    }
  }

  /** Lines sent within the limits: the output is what the payloads say, or a failure if one of them is an error. */
  lemma CollectsWhatWasSent(sent: seq<Sent>, maxOutputBytes: nat, classify: Classifier)
    requires forall i | 0 <= i < |sent| :: Sendable(sent[i])
    requires sent != [] ==> !([Utf8.BOM] <= LineOf(sent[0]))
    requires var stream := Utf8.Encode(Joined(LinesOf(sent)));
             |stream| <= WireLimit(maxOutputBytes) && FramesFit(stream, FrameLimit(maxOutputBytes))
    ensures var output := Collected(Utf8.Encode(Joined(LinesOf(sent))), maxOutputBytes, classify);
            var events := Classified(sent, classify);
            && (output.Some? <==>
                  NoErrors(events) && Utf8.Length(StdoutOf(events)) + Utf8.Length(StderrOf(events)) <= maxOutputBytes)
            && (output.Some? ==> OutputIs(output.value, events))
  {
    hide FramesFit, Replay, Text.CompleteLines, Text.Remainder, Utf8.Run, Utf8.Encode, Collected, OutputIs;
    var lines := LinesOf(sent);
    var text := Joined(lines);
    SentLines(sent, classify);
    LinesOfJoined(lines);
    Utf8.RunEncoded(text);
    assert text != "" ==> text[0] == if lines[0] == "" then '\n' else lines[0][0];
    assert Utf8.StripBom(text) == text;
    assert "" + Utf8.Flush(Utf8.Ground) == "";
    CollectedIs(Utf8.Encode(text), maxOutputBytes, classify);
  }
}
