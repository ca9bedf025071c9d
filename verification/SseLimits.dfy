/** The collector's limits leave room for every honest output, however it is framed. */
module SseLimits {
  import opened Common
  import opened SseCollector
  import opened SseEvents
  import Json
  import Utf8

  function Kind(stdout: bool): string {
    if stdout then "stdout" else "stderr"
  }

  /** One output event as a line of the stream, with its newline. */
  function OutputFrame(stdout: bool, data: string): string {
    LineOf(Data(PayloadOf(if stdout then ToStdout(data) else ToStderr(data)))) + "\n"
  }

  lemma {:induction false} EscapeLength(s: string)
    ensures Utf8.Length(Json.Escape(s)) <= 6 * Utf8.Length(s)
  {
    hide Json.EscapeChar, Utf8.CharLen;
    if s != "" {
      EscapeLength(s[1..]);
      EscapeCharLength(s[0]);
      Utf8.LengthConcat(Json.EscapeChar(s[0]), Json.Escape(s[1..]));
    }
  }

  lemma EscapeCharLength(c: char)
    ensures Utf8.Length(Json.EscapeChar(c)) <= 6 * Utf8.CharLen(c)
  {
    var e := Json.EscapeChar(c);
    if |e| == 1 {
      assert e[1..] == "";
    } else {
      AsciiLength(e);
    }
  }

  lemma {:induction false} AsciiLength(s: string)
    requires forall i | 0 <= i < |s| :: s[i] as int < 0x80
    ensures Utf8.Length(s) == |s|
  {
    if s != "" { AsciiLength(s[1..]); }
  }

  lemma QuoteLength(s: string)
    ensures Utf8.Length(Json.Quote(s)) <= 6 * Utf8.Length(s) + 2
  {
    hide Json.Escape, Utf8.Length;
    EscapeLength(s);
    Utf8.LengthConcat("\"", Json.Escape(s) + "\"");
    Utf8.LengthConcat(Json.Escape(s), "\"");
    AsciiLength("\"");
  }

  /** A member takes its quoted key, a colon, its quoted value and one more sign. */
  lemma MemberLength(key: string, value: string, rest: Json.Members)
    ensures Utf8.Length(Json.PrintMembers(Json.Member(key, Json.Str(value), rest))) <=
            6 * Utf8.Length(key) + 6 * Utf8.Length(value) + 6
            + if rest.NoMember? then 0 else Utf8.Length(Json.PrintMembers(rest))
  {
    hide Json.Quote, Utf8.Length;
    var end := if rest.NoMember? then "}" else "," + Json.PrintMembers(rest);
    assert Json.PrintMembers(Json.Member(key, Json.Str(value), rest)) ==
           Json.Quote(key) + (":" + (Json.Quote(value) + end));
    QuoteLength(key);
    QuoteLength(value);
    Utf8.LengthConcat(Json.Quote(key), ":" + (Json.Quote(value) + end));
    Utf8.LengthConcat(":", Json.Quote(value) + end);
    Utf8.LengthConcat(Json.Quote(value), end);
    if rest.Member? { Utf8.LengthConcat(",", Json.PrintMembers(rest)); }
    AsciiLength(":");
    AsciiLength(",");
    AsciiLength("}");
  }

  /** Escaping makes output at most six times as long, and the frame around it takes at most 128 bytes. */
  lemma FrameLength(stdout: bool, data: string)
    ensures Utf8.Length(OutputFrame(stdout, data)) <= 6 * Utf8.Length(data) + 128
  {
    var kind := Kind(stdout);
    hide Json.PrintMembers, Utf8.Length;
    var last := Json.Member("data", Json.Str(data), Json.NoMember);
    var event := Json.Member("type", Json.Str(kind), last);
    MemberLength("data", data, Json.NoMember);
    MemberLength("type", kind, last);
    AsciiLength("data");
    AsciiLength("type");
    AsciiLength(kind);
    assert PayloadOf(if stdout then ToStdout(data) else ToStderr(data)) == "{" + Json.PrintMembers(event);
    var body := Json.PrintMembers(event);
    Utf8.LengthConcat("data:" + ("{" + body), "\n");
    Utf8.LengthConcat("data:", "{" + body);
    Utf8.LengthConcat("{", body);
    AsciiLength("data:");
    AsciiLength("{");
    AsciiLength("\n");
  }

  /** A piece of output, for one stream or the other. */
  datatype Piece = Piece(stdout: bool, data: string)

  function OutputBytes(pieces: seq<Piece>): nat {
    if pieces == [] then 0 else Utf8.Length(pieces[0].data) + OutputBytes(pieces[1..])
  }

  function FrameBytes(pieces: seq<Piece>): nat {
    if pieces == [] then 0 else Utf8.Length(OutputFrame(pieces[0].stdout, pieces[0].data)) + FrameBytes(pieces[1..])
  }

  ghost predicate NoEmptyPiece(pieces: seq<Piece>) {
    forall i | 0 <= i < |pieces| :: pieces[i].data != ""
  }

  lemma {:induction false} FramesAddUp(pieces: seq<Piece>)
    requires NoEmptyPiece(pieces)
    ensures FrameBytes(pieces) <= 6 * OutputBytes(pieces) + 128 * |pieces| && |pieces| <= OutputBytes(pieces)
  {
    hide OutputFrame;
    if pieces != [] {
      FrameLength(pieces[0].stdout, pieces[0].data);
      FramesAddUp(pieces[1..]);
    }
  }

  /**
   Output that fits is never refused for its framing, however finely it is cut into events: every
   frame fits the frame limit, and all frames fit the wire limit with room for the output once more
   in the completion event and for 64 KiB of everything else.
   */
  lemma LimitsLeaveRoom(pieces: seq<Piece>, maxOutputBytes: nat, other: nat)
    requires NoEmptyPiece(pieces) && OutputBytes(pieces) <= maxOutputBytes && other <= 6 * maxOutputBytes + 65536
    requires maxOutputBytes * 140 + 65536 <= MAX_SAFE_INTEGER
    ensures FrameBytes(pieces) + other <= WireLimit(maxOutputBytes)
    ensures forall i | 0 <= i < |pieces| ::
              Utf8.Length(OutputFrame(pieces[i].stdout, pieces[i].data)) <= FrameLimit(maxOutputBytes)
  {
    hide OutputFrame;
    FramesAddUp(pieces);
    forall i | 0 <= i < |pieces|
      ensures Utf8.Length(OutputFrame(pieces[i].stdout, pieces[i].data)) <= FrameLimit(maxOutputBytes)
    {
      FrameLength(pieces[i].stdout, pieces[i].data);
      PieceWithin(pieces, i);
    }
  }

  lemma {:induction false} PieceWithin(pieces: seq<Piece>, i: nat)
    requires i < |pieces|
    ensures Utf8.Length(pieces[i].data) <= OutputBytes(pieces)
  {
    if i > 0 { PieceWithin(pieces[1..], i - 1); }
  }
}
