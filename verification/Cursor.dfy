/**
 The pagination cursor: a position written as a JSON pair and encoded with base64 (section 4 of
 RFC 4648). It is a codec of the kind that `Pagination` asks for.
 */
module Cursor {
  import opened Common
  import opened Json
  import opened JsonReader
  import opened Pagination

  // ----- base64 -----

  function Digit(n: nat): char
    requires n < 64
  {
    if n < 26 then ('A' as int + n) as char
    else if n < 52 then ('a' as int + n - 26) as char
    else if n < 62 then ('0' as int + n - 52) as char
    else if n == 62 then '+'
    else '/'
  }

  function DigitValue(c: char): Option<nat> {
    if 'A' <= c <= 'Z' then Some(c as int - 'A' as int)
    else if 'a' <= c <= 'z' then Some(c as int - 'a' as int + 26)
    else if '0' <= c <= '9' then Some(c as int - '0' as int + 52)
    else if c == '+' then Some(62)
    else if c == '/' then Some(63)
    else None
  }

  predicate Latin1(s: string) {
    forall i | 0 <= i < |s| :: s[i] <= '\U{00FF}'
  }

  function Btoa(s: string): string
    requires Latin1(s)
  {
    if s == "" then ""
    else
      var a := s[0] as int;
      if |s| == 1 then [Digit(a / 4), Digit(a % 4 * 16), '=', '=']
      else
        var b := s[1] as int;
        if |s| == 2 then [Digit(a / 4), Digit(a % 4 * 16 + b / 16), Digit(b % 16 * 4), '=']
        else
          var c := s[2] as int;
          [Digit(a / 4), Digit(a % 4 * 16 + b / 16), Digit(b % 16 * 4 + c / 64), Digit(c % 64)] + Btoa(s[3..])
  }

  /** Reads padded base64; the source's reader also takes other spellings. */
  function Atob(t: string): Option<string> {
    if t == "" then Some("")
    else if |t| < 4 then None
    else
      var a, b, c, d := DigitValue(t[0]), DigitValue(t[1]), DigitValue(t[2]), DigitValue(t[3]);
      if a.None? || b.None? then None
      else
        var x := First(a.value, b.value);
        if t[2..] == "==" then Some([x])
        else if c.None? then None
        else
          var y := Second(b.value, c.value);
          if t[3..] == "=" then Some([x, y])
          else if d.None? then None
          else
            var more := Atob(t[4..]);
            if more.None? then None else Some([x, y, Third(c.value, d.value)] + more.value)
  }

  function ToByte(n: nat): char {
    (n % 256) as char
  }

  function First(p: nat, q: nat): char {
    ToByte(p * 4 + q / 16)
  }

  function Second(q: nat, r: nat): char {
    ToByte(q % 16 * 16 + r / 4)
  }

  function Third(r: nat, u: nat): char {
    ToByte(r % 4 * 64 + u)
  }

  lemma DigitReadsBack(n: nat)
    requires n < 64
    ensures DigitValue(Digit(n)) == Some(n) && Digit(n) != '='
  {
  }

  lemma FirstByte(a: nat, b: nat)
    requires a < 256 && b < 256
    ensures First(a / 4, a % 4 * 16 + b / 16) == a as char
  {
    assert (a % 4 * 16 + b / 16) / 16 == a % 4;
  }

  lemma SecondByte(a: nat, b: nat, c: nat)
    requires a < 256 && b < 256 && c < 256
    ensures Second(a % 4 * 16 + b / 16, b % 16 * 4 + c / 64) == b as char
  {
    assert (a % 4 * 16 + b / 16) % 16 == b / 16 && (b % 16 * 4 + c / 64) / 4 == b % 16;
  }

  lemma ThirdByte(b: nat, c: nat)
    requires b < 256 && c < 256
    ensures Third(b % 16 * 4 + c / 64, c % 64) == c as char
  {
    assert (b % 16 * 4 + c / 64) % 4 == c / 64;
  }

  lemma AtobOne(p: nat, q: nat)
    requires p < 64 && q < 64
    ensures Atob([Digit(p), Digit(q), '=', '=']) == Some([First(p, q)])
  {
    hide Digit, DigitValue, First, Second, Third;
    DigitReadsBack(p);
    DigitReadsBack(q);
    assert [Digit(p), Digit(q), '=', '='][2..] == "==";
  }

  lemma AtobTwo(p: nat, q: nat, r: nat)
    requires p < 64 && q < 64 && r < 64
    ensures Atob([Digit(p), Digit(q), Digit(r), '=']) == Some([First(p, q), Second(q, r)])
  {
    hide Digit, DigitValue, First, Second, Third;
    DigitReadsBack(p);
    DigitReadsBack(q);
    DigitReadsBack(r);
    var t := [Digit(p), Digit(q), Digit(r), '='];
    assert t[2..][0] == t[2] && t[3..] == "=";
  }

  lemma NotPadding(t: string, i: nat)
    requires i < |t| && t[i] != '='
    ensures t[i..] != "==" && t[i..] != "="
  {
    assert t[i..][0] == t[i];
  }

  lemma AtobThree(p: nat, q: nat, r: nat, u: nat, more: string)
    requires p < 64 && q < 64 && r < 64 && u < 64 && Atob(more).Some?
    ensures Atob([Digit(p), Digit(q), Digit(r), Digit(u)] + more) ==
            Some([First(p, q), Second(q, r), Third(r, u)] + Atob(more).value)
  {
    DigitReadsBack(p);
    DigitReadsBack(q);
    DigitReadsBack(r);
    DigitReadsBack(u);
    hide Digit, DigitValue, First, Second, Third;
    var head := [Digit(p), Digit(q), Digit(r), Digit(u)];
    var t := head + more;
    assert t[0] == head[0] && t[1] == head[1] && t[2] == head[2] && t[3] == head[3] && t[4..] == more;
    NotPadding(t, 2);
    NotPadding(t, 3);
  }

  lemma {:induction false} AtobInverts(s: string)
    requires Latin1(s)
    ensures Atob(Btoa(s)) == Some(s)
  {
    hide Atob, Digit, First, Second, Third;
    if s == "" {
      AtobNothing();
    } else {
      var a := s[0] as int;
      if |s| == 1 {
        FirstByte(a, 0);
        AtobOne(a / 4, a % 4 * 16);
        assert s == [s[0]];
      } else {
        var b := s[1] as int;
        FirstByte(a, b);
        if |s| == 2 {
          SecondByte(a, b, 0);
          AtobTwo(a / 4, a % 4 * 16 + b / 16, b % 16 * 4);
          assert s == [s[0], s[1]];
        } else {
          var c := s[2] as int;
          SecondByte(a, b, c);
          ThirdByte(b, c);
          AtobInverts(s[3..]);
          AtobThree(a / 4, a % 4 * 16 + b / 16, b % 16 * 4 + c / 64, c % 64, Btoa(s[3..]));
          assert s == [s[0], s[1], s[2]] + s[3..];
        }
      }
    }
  }

  lemma AtobNothing()
    ensures Atob("") == Some("")
  {
  }

  // ----- the cursor -----

  function CursorText(p: Position): string {
    Print(Arr(Items.Item(Str(p.key), Items.Item(Str(p.tiebreak), NoItem))))
  }

  /** `btoa` throws on a text with a character above U+00FF. */
  function EncodeCursor(p: Position): Option<string> {
    if Latin1(CursorText(p)) then Some(Btoa(CursorText(p))) else None
  }

  /** A pair of strings; anything else is an invalid cursor. */
  function ReadPair(text: string): Option<Position> {
    var open := Skip(text, "[\"");
    if open.None? then None
    else
      var key := ReadString(open.value);
      if key.None? then None
      else
        var comma := Skip(key.value.rest, ",\"");
        if comma.None? then None
        else
          var tiebreak := ReadString(comma.value);
          if tiebreak.None? || tiebreak.value.rest != "]" then None
          else Some(Position(key.value.value, tiebreak.value.value))
  }

  function ReadCursor(cursor: string): Option<Position> {
    var text := Atob(cursor);
    if text.None? then None else ReadPair(text.value)
  }

  const CURSOR := Codec(EncodeCursor, ReadCursor)

  lemma {:induction false} EscapeLatin1(s: string)
    ensures Latin1(Escape(s)) <==> Latin1(s)
  {
    if s != "" {
      EscapeLatin1(s[1..]);
      EscapeCharLatin1(s[0]);
      Latin1Concat(EscapeChar(s[0]), Escape(s[1..]));
      Latin1Concat([s[0]], s[1..]);
      assert s == [s[0]] + s[1..];
    }
  }

  lemma EscapeCharLatin1(c: char)
    ensures Latin1(EscapeChar(c)) <==> Latin1([c])
  {
    assert [c][0] == c;
  }

  lemma Latin1Concat(a: string, b: string)
    ensures Latin1(a + b) <==> Latin1(a) && Latin1(b)
  {
    assert forall i | 0 <= i < |a| :: (a + b)[i] == a[i];
    assert forall i | 0 <= i < |b| :: (a + b)[|a| + i] == b[i];
  }

  lemma TextOfPair(p: Position)
    ensures CursorText(p) == "[\"" + (Escape(p.key) + ("\"" + (",\"" + (Escape(p.tiebreak) + ("\"" + "]")))))
  {
    hide Escape;
    var last := Items.Item(Str(p.tiebreak), NoItem);
    assert PrintItems(last) == Quote(p.tiebreak) + "]";
    assert PrintItems(Items.Item(Str(p.key), last)) == Quote(p.key) + ("," + PrintItems(last));
  }

  lemma EncodableExactly(p: Position)
    ensures Latin1(CursorText(p)) <==> Encodable(p)
  {
    hide Escape, CursorText;
    TextOfPair(p);
    EscapeLatin1(p.key);
    EscapeLatin1(p.tiebreak);
    var k, t := Escape(p.key), Escape(p.tiebreak);
    Latin1Concat("[\"", k + ("\"" + (",\"" + (t + ("\"" + "]")))));
    Latin1Concat(k, "\"" + (",\"" + (t + ("\"" + "]"))));
    Latin1Concat("\"", ",\"" + (t + ("\"" + "]")));
    Latin1Concat(",\"", t + ("\"" + "]"));
    Latin1Concat(t, "\"" + "]");
    Latin1Concat(p.key, p.tiebreak);
    assert forall i | 0 <= i < |p.key + p.tiebreak| :: (p.key + p.tiebreak)[i] in p.key + p.tiebreak;
  }

  lemma PairReadsBack(p: Position)
    ensures ReadPair(CursorText(p)) == Some(p)
  {
    hide Escape, ReadString, CursorText;
    TextOfPair(p);
    var end := Escape(p.tiebreak) + ("\"" + "]");
    var rest := Escape(p.key) + ("\"" + (",\"" + end));
    assert Skip(CursorText(p), "[\"") == Some(rest);
    ReadStringInverts(p.key, ",\"" + end);
    assert Skip(",\"" + end, ",\"") == Some(end);
    ReadStringInverts(p.tiebreak, "]");
  }

  /** The cursor can be written exactly for encodable positions, is never empty, and reads back. */
  lemma CursorIsFaithful()
    ensures Faithful(CURSOR)
  {
    hide CursorText, Encodable, Btoa, ReadPair, Latin1;
    forall p ensures Encodable(p) ==> EncodeCursor(p).Some? && EncodeCursor(p).value != ""
                                      && ReadCursor(EncodeCursor(p).value) == Some(p)
             ensures !Encodable(p) ==> EncodeCursor(p).None?
    {
      EncodableExactly(p);
      PairReadsBack(p);
      if Encodable(p) {
        AtobInverts(CursorText(p));
        TextOfPair(p);
      }
    }
  }
}
