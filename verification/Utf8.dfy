/**
 UTF-8 as in section 3 of RFC 3629, with the streaming decoder of the WHATWG Encoding Standard.
 Strings are sequences of Unicode scalar values.
 */
module Utf8 {
  type byte = n: int | 0 <= n < 256

  /** Bytes of one character. */
  function CharLen(c: char): (n: nat)
    ensures 1 <= n <= 4
  {
    var v := c as int;
    if v < 0x80 then 1 else if v < 0x800 then 2 else if v < 0x10000 then 3 else 4
  }

  /** UTF-16 code units of one character, as counted by a JavaScript string's `length`. */
  function CharUnits(c: char): nat {
    if c as int < 0x10000 then 1 else 2
  }

  function Length(s: string): nat {
    if s == "" then 0 else CharLen(s[0]) + Length(s[1..])
  }

  function Units(s: string): nat {
    if s == "" then 0 else CharUnits(s[0]) + Units(s[1..])
  }

  function EncodeChar(c: char): (bytes: seq<byte>)
    ensures |bytes| == CharLen(c)
  {
    var v := c as int;
    if v < 0x80 then [v]
    else if v < 0x800 then [0xC0 + v / 64, 0x80 + v % 64]
    else if v < 0x10000 then [0xE0 + v / 4096, 0x80 + v / 64 % 64, 0x80 + v % 64]
    else [0xF0 + v / 262144, 0x80 + v / 4096 % 64, 0x80 + v / 64 % 64, 0x80 + v % 64]
  }

  function Encode(s: string): (bytes: seq<byte>)
    ensures |bytes| == Length(s)
  {
    if s == "" then [] else EncodeChar(s[0]) + Encode(s[1..])
  }

  predicate Continuation(b: byte) {
    0x80 <= b < 0xC0
  }

  // ----- the decoder -----

  const REPLACEMENT := '\U{FFFD}'
  const BOM := '\U{FEFF}'

  /** Between bytes: at a character boundary, or `needed` continuation bytes short of a character. */
  datatype State = Ground | More(needed: nat, value: nat, lower: byte, upper: byte)

  /** A state together with the text it emits on the way there. */
  datatype Out<T> = Out(state: T, text: string)

  function ToChar(v: nat): char {
    if v < 0xD800 || 0xE000 <= v < 0x110000 then v as char else REPLACEMENT
  }

  function FromGround(b: byte): Out<State> {
    if b < 0x80 then Out(Ground, [b as char])
    else if 0xC2 <= b < 0xE0 then Out(More(1, b - 0xC0, 0x80, 0xBF), "")
    else if 0xE0 <= b < 0xF0 then
      Out(More(2, b - 0xE0, if b == 0xE0 then 0xA0 else 0x80, if b == 0xED then 0x9F else 0xBF), "")
    else if 0xF0 <= b < 0xF5 then
      Out(More(3, b - 0xF0, if b == 0xF0 then 0x90 else 0x80, if b == 0xF4 then 0x8F else 0xBF), "")
    else Out(Ground, [REPLACEMENT])
  }

  function Step(s: State, b: byte): Out<State> {
    match s
    case Ground => FromGround(b)
    case More(needed, value, lower, upper) =>
      if lower <= b <= upper then
        var v := value * 64 + (b as int - 0x80) % 64;
        if needed > 1 then Out(More(needed - 1, v, 0x80, 0xBF), "") else Out(Ground, [ToChar(v)])
      else
        // The sequence ends early: report it and read the byte again from the start.
        var again := FromGround(b);
        Out(again.state, [REPLACEMENT] + again.text)
  }

  function Run(s: State, bytes: seq<byte>): Out<State>
    decreases bytes
  {
    if bytes == [] then Out(s, "")
    else
      var first := Step(s, bytes[0]);
      var rest := Run(first.state, bytes[1..]);
      Out(rest.state, first.text + rest.text)
  }

  lemma {:induction false} RunConcat(s: State, a: seq<byte>, b: seq<byte>)
    ensures var first := Run(s, a);
            Run(s, a + b) == Out(Run(first.state, b).state, first.text + Run(first.state, b).text)
    decreases a
  {
    hide Step;
    if a == [] {
      assert a + b == b;
      assert "" + Run(s, b).text == Run(s, b).text;
    } else {
      assert (a + b)[0] == a[0] && (a + b)[1..] == a[1..] + b;
      RunConcat(Step(s, a[0]).state, a[1..], b);
    }
  }

  /** The decoder drops a byte order mark at the very start of its input. */
  function StripBom(s: string): string {
    if s != "" && s[0] == BOM then s[1..] else s
  }

  function Flush(s: State): string {
    if s == Ground then "" else [REPLACEMENT]
  }

  function Decode(bytes: seq<byte>): string {
    var r := Run(Ground, bytes);
    StripBom(r.text + Flush(r.state))
  }

  lemma RunFirst(s: State, b: byte, rest: seq<byte>)
    requires Step(s, b).text == ""
    ensures Run(s, [b] + rest) == Run(Step(s, b).state, rest)
  {
    hide Step;
    assert ([b] + rest)[1..] == rest;
    var r := Run(Step(s, b).state, rest);
    assert "" + r.text == r.text;
  }

  lemma RunLast(s: State, b: byte)
    ensures Run(s, [b]) == Step(s, b)
  {
    hide Step;
    assert [b][1..] == [] && Step(s, b).text + "" == Step(s, b).text;
  }

  /** The last byte of every encoded character completes it. */
  lemma LastByte(v: nat, c: char)
    requires v == c as int
    ensures Step(More(1, v / 64, 0x80, 0xBF), 0x80 + v % 64) == Out(Ground, [c])
  {
  }

  lemma RunChar(c: char)
    ensures Run(Ground, EncodeChar(c)) == Out(Ground, [c])
  {
    hide Run, Step;
    var v := c as int;
    var last := 0x80 + v % 64;
    LastByte(v, c);
    RunLast(More(1, v / 64, 0x80, 0xBF), last);
    if v < 0x80 {
      RunAscii(c);
    } else if v < 0x800 {
      RunTwo(c, last);
    } else if v < 0x10000 {
      RunThree(c, last);
    } else {
      RunFour(c, last);
    }
  }

  lemma RunAscii(c: char)
    requires c as int < 0x80
    ensures Run(Ground, EncodeChar(c)) == Out(Ground, [c])
  {
    hide Run;
    RunLast(Ground, c as int);
  }

  lemma RunTwo(c: char, last: byte)
    requires 0x80 <= c as int < 0x800 && last == 0x80 + c as int % 64
    requires Run(More(1, c as int / 64, 0x80, 0xBF), [last]) == Out(Ground, [c])
    ensures Run(Ground, EncodeChar(c)) == Out(Ground, [c])
  {
    hide Run;
    var b0 := 0xC0 + c as int / 64;
    RunFirst(Ground, b0, [last]);
    assert EncodeChar(c) == [b0] + [last];
  }

  lemma SecondByte(v: nat)
    requires 0x800 <= v < 0x10000 && !(0xD800 <= v < 0xE000)
    ensures var first := Step(Ground, 0xE0 + v / 4096);
            first.text == "" && Step(first.state, 0x80 + v / 64 % 64) == Out(More(1, v / 64, 0x80, 0xBF), "")
  {
  }

  lemma RunThree(c: char, last: byte)
    requires 0x800 <= c as int < 0x10000 && last == 0x80 + c as int % 64
    requires Run(More(1, c as int / 64, 0x80, 0xBF), [last]) == Out(Ground, [c])
    ensures Run(Ground, EncodeChar(c)) == Out(Ground, [c])
  {
    hide Run, Step;
    var v := c as int;
    var b0, b1 := 0xE0 + v / 4096, 0x80 + v / 64 % 64;
    SecondByte(v);
    RunFirst(Ground, b0, [b1, last]);
    RunFirst(Step(Ground, b0).state, b1, [last]);
    assert EncodeChar(c) == [b0] + [b1, last];
    assert [b1, last] == [b1] + [last];
  }

  lemma SecondOfFour(high: nat, low: nat)
    requires 0x10 <= high < 0x110 && low == high % 64
    ensures var first := Step(Ground, 0xF0 + high / 64);
            first.text == "" && Step(first.state, 0x80 + low) == Out(More(2, high, 0x80, 0xBF), "")
  {
    assert high == high / 64 * 64 + low;
  }

  lemma ThirdOfFour(high: nat, mid: nat)
    requires high == mid / 64
    ensures Step(More(2, high, 0x80, 0xBF), 0x80 + mid % 64) == Out(More(1, mid, 0x80, 0xBF), "")
  {
    assert mid == high * 64 + mid % 64;
  }

  lemma MiddleBytes(v: nat)
    requires 0x10000 <= v < 0x110000
    ensures var first := Step(Ground, 0xF0 + v / 262144);
            first.text == "" && Step(first.state, 0x80 + v / 4096 % 64) == Out(More(2, v / 4096, 0x80, 0xBF), "")
    ensures Step(More(2, v / 4096, 0x80, 0xBF), 0x80 + v / 64 % 64) == Out(More(1, v / 64, 0x80, 0xBF), "")
  {
    hide Step;
    assert v / 262144 == v / 4096 / 64 && v / 4096 == v / 64 / 64;
    SecondOfFour(v / 4096, v / 4096 % 64);
    ThirdOfFour(v / 4096, v / 64);
  }

  lemma RunFour(c: char, last: byte)
    requires c as int >= 0x10000 && last == 0x80 + c as int % 64
    requires Run(More(1, c as int / 64, 0x80, 0xBF), [last]) == Out(Ground, [c])
    ensures Run(Ground, EncodeChar(c)) == Out(Ground, [c])
  {
    hide Run, Step;
    var v := c as int;
    var b0, b1, b2 := 0xF0 + v / 262144, 0x80 + v / 4096 % 64, 0x80 + v / 64 % 64;
    MiddleBytes(v);
    RunFirst(Ground, b0, [b1, b2, last]);
    RunFirst(Step(Ground, b0).state, b1, [b2, last]);
    RunFirst(More(2, v / 4096, 0x80, 0xBF), b2, [last]);
    assert EncodeChar(c) == [b0] + [b1, b2, last];
    assert [b1, b2, last] == [b1] + [b2, last] && [b2, last] == [b2] + [last];
  }

  lemma {:induction false} RunEncoded(s: string)
    ensures Run(Ground, Encode(s)) == Out(Ground, s)
  {
    if s != "" {
      RunChar(s[0]);
      RunConcat(Ground, EncodeChar(s[0]), Encode(s[1..]));
      RunEncoded(s[1..]);
      assert s == [s[0]] + s[1..];
    }
  }

  /** Decoding inverts encoding, up to a leading byte order mark. */
  lemma DecodeInvertsEncode(s: string)
    ensures Decode(Encode(s)) == StripBom(s)
  {
    RunEncoded(s);
    assert s + "" == s;
  }

  // ----- lengths -----

  lemma {:induction false} LengthConcat(a: string, b: string)
    ensures Length(a + b) == Length(a) + Length(b)
  {
    if a == "" {
      assert a + b == b;
    } else {
      assert (a + b)[0] == a[0] && (a + b)[1..] == a[1..] + b;
      LengthConcat(a[1..], b);
    }
  }

  lemma {:induction false} EncodeConcat(a: string, b: string)
    ensures Encode(a + b) == Encode(a) + Encode(b)
  {
    if a == "" {
      assert a + b == b;
    } else {
      assert (a + b)[0] == a[0] && (a + b)[1..] == a[1..] + b;
      EncodeConcat(a[1..], b);
    }
  }

  /** Three bytes per UTF-16 code unit always suffice. */
  lemma {:induction false} LengthWithinUnits(s: string)
    ensures |s| <= Length(s) <= 3 * Units(s)
  {
    if s != "" {
      LengthWithinUnits(s[1..]);
    }
  }

  /** Two prefixes of one text with the same encoded length are the same prefix. */
  lemma {:induction false} EqualLengthPrefixes(a: string, b: string, x: string, y: string)
    requires a + x == b + y && Length(a) == Length(b)
    ensures a == b && x == y
  {
    if a == "" || b == "" {
      LengthWithinUnits(a);
      LengthWithinUnits(b);
      assert a == b == "";
      assert a + x == x && b + y == y;
    } else {
      assert (a + x)[0] == a[0] && (b + y)[0] == b[0];
      assert (a + x)[1..] == a[1..] + x && (b + y)[1..] == b[1..] + y;
      EqualLengthPrefixes(a[1..], b[1..], x, y);
      assert a == [a[0]] + a[1..] && b == [b[0]] + b[1..];
    }
  }
}
