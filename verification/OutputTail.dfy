/** The capped accumulator that keeps the trailing bytes of a kernel's output. */
module OutputTail {
  import opened Utf8

  /** The longest suffix that fits in `max` bytes. */
  function Tail(s: string, max: nat): string {
    if Length(s) <= max then s else Tail(s[1..], max)
  }

  /** The first position at or after `start` that does not hold a continuation byte. */
  function SkipContinuation(bytes: seq<byte>, start: nat): (p: nat)
    requires start <= |bytes|
    ensures start <= p <= |bytes|
    decreases |bytes| - start
  {
    if start < |bytes| && Continuation(bytes[start]) then SkipContinuation(bytes, start + 1) else start
  }

  function Appended(value: string, chunk: string, max: nat): string {
    var all := value + chunk;
    if Length(all) <= max then all else StripBom(Tail(all, max))
  }

  class OutputTail {
    const maxBytes: nat
    var value: string

    constructor (maxBytes: nat)
      ensures this.maxBytes == maxBytes && value == ""
    {
      this.maxBytes := maxBytes;
      value := "";
    }

    method Append(chunk: string)
      modifies this
      ensures value == Appended(old(value), chunk, maxBytes)
    {
      hide Length, Units, Encode, Decode, Tail, Continuation;
      value := value + chunk;
      LengthWithinUnits(value);
      if Units(value) * 3 <= maxBytes { return; }
      var encoded := Encode(value);
      if |encoded| <= maxBytes { return; }
      var start := |encoded| - maxBytes;
      while start < |encoded| && Continuation(encoded[start])
        invariant |encoded| - maxBytes <= start <= |encoded|
        invariant SkipContinuation(encoded, start) == SkipContinuation(encoded, |encoded| - maxBytes)
      {
        start := start + 1;
      }
      CutIsTail(value, maxBytes);
      DecodeInvertsEncode(Tail(value, maxBytes));
      value := Decode(encoded[start..]);
    }
  }

  lemma StartsAtBoundary(s: string)
    ensures s != "" ==> !Continuation(Encode(s)[0])
  {
    if s != "" {
      assert Encode(s)[0] == EncodeChar(s[0])[0];
    }
  }

  lemma {:induction false} SkipShift(a: seq<byte>, b: seq<byte>, start: nat)
    requires start <= |b|
    ensures SkipContinuation(a + b, |a| + start) == |a| + SkipContinuation(b, start)
    decreases |b| - start
  {
    if start < |b| && Continuation(b[start]) {
      SkipShift(a, b, start + 1);
    }
  }

  /** From inside a character the scan moves to that character's end. */
  lemma {:induction false} SkipInside(c: char, s: string, p: nat)
    requires 1 <= p <= CharLen(c)
    ensures SkipContinuation(EncodeChar(c) + Encode(s), p) == CharLen(c)
    decreases CharLen(c) - p
  {
    var bytes := EncodeChar(c) + Encode(s);
    if p < CharLen(c) {
      assert bytes[p] == EncodeChar(c)[p];
      SkipInside(c, s, p + 1);
    } else {
      StartsAtBoundary(s);
    }
  }

  /** Dropping bytes up to the next character boundary leaves the longest fitting suffix. */
  lemma {:induction false} CutIsTail(s: string, max: nat)
    requires Length(s) > max
    ensures var bytes := Encode(s);
            bytes[SkipContinuation(bytes, |bytes| - max)..] == Encode(Tail(s, max))
  {
    hide SkipContinuation, EncodeChar;
    var first, rest := EncodeChar(s[0]), Encode(s[1..]);
    var bytes := first + rest;
    assert bytes == Encode(s);
    if |rest| <= max {
      SkipInside(s[0], s[1..], |bytes| - max);
      assert bytes[|first|..] == rest;
    } else {
      SkipShift(first, rest, |rest| - max);
      CutIsTail(s[1..], max);
      DropPast(first, rest, SkipContinuation(rest, |rest| - max));
    }
  }

  lemma DropPast(a: seq<byte>, b: seq<byte>, p: nat)
    requires p <= |b|
    ensures (a + b)[|a| + p..] == b[p..]
  {
  }

  // ----- what the tail is -----

  /** `Tail` is a suffix that fits, and no longer suffix does. */
  lemma {:induction false} TailIsLongest(s: string, max: nat, k: nat)
    requires k <= |s|
    ensures Length(Tail(s, max)) <= max && |Tail(s, max)| <= |s|
    ensures s[|s| - |Tail(s, max)|..] == Tail(s, max)
    ensures Length(s[k..]) <= max ==> |s[k..]| <= |Tail(s, max)|
  {
    if Length(s) > max {
      if k > 0 {
        TailIsLongest(s[1..], max, k - 1);
        assert s[1..][k - 1..] == s[k..];
      } else {
        TailIsLongest(s[1..], max, 0);
        assert s[0..] == s;
      }
      var t := Tail(s, max);
      assert s[1..][|s| - 1 - |t|..] == s[|s| - |t|..];
    }
  }

  lemma {:induction false} TailOfTail(a: string, b: string, max: nat)
    ensures Tail(Tail(a, max) + b, max) == Tail(a + b, max)
  {
    if Length(a) > max {
      TailOfTail(a[1..], b, max);
      LengthConcat(a, b);
      assert (a + b)[1..] == a[1..] + b;
    }
  }

  // ----- any sequence of appends -----

  function AppendAll(chunks: seq<string>, max: nat): string {
    if chunks == [] then "" else Appended(AppendAll(chunks[..|chunks| - 1], max), chunks[|chunks| - 1], max)
  }

  function Whole(chunks: seq<string>): string {
    if chunks == [] then "" else Whole(chunks[..|chunks| - 1]) + chunks[|chunks| - 1]
  }

  /** The kept text is the longest fitting suffix, or that suffix without the mark at its head. */
  ghost predicate KeptIs(kept: string, whole: string, max: nat) {
    var tail := Tail(whole, max);
    kept == tail || (Length(whole) > max && tail != "" && tail[0] == BOM && kept == tail[1..])
  }

  lemma AppendKeeps(before: string, kept: string, c: string, max: nat)
    requires KeptIs(kept, before, max)
    ensures KeptIs(Appended(kept, c, max), before + c, max)
  {
    var t := Tail(before, max);
    assert t != "" ==> Length(t) == CharLen(t[0]) + Length(t[1..]);
    hide Length, Tail;
    TailOfTail(before, c, max);
    LengthConcat(before, c);
    LengthConcat(t, c);
    LengthConcat(kept, c);
    TailShorter(before, max);
    if kept != t {
      assert (t + c)[1..] == kept + c;
      TailUnfolds(t + c, max);
    }
    TailUnfolds(kept + c, max);
  }

  lemma TailUnfolds(s: string, max: nat)
    ensures Tail(s, max) == if Length(s) <= max then s else Tail(s[1..], max)
  {
  }

  lemma {:induction false} TailShorter(s: string, max: nat)
    ensures Length(Tail(s, max)) <= Length(s)
  {
    if Length(s) > max { TailShorter(s[1..], max); }
  }

  lemma {:induction false} KeptAfterAppends(chunks: seq<string>, max: nat)
    ensures KeptIs(AppendAll(chunks, max), Whole(chunks), max)
  {
    if chunks != [] {
      var before := chunks[..|chunks| - 1];
      KeptAfterAppends(before, max);
      AppendKeeps(Whole(before), AppendAll(before, max), chunks[|chunks| - 1], max);
    }
  }

  /**
   However a text is cut into appends, the kept text is its longest character-aligned suffix that
   fits the cap, if and only if nothing is cut or the cut does not land in front of a byte order mark.
   */
  lemma KeepsLongestSuffixExactly(whole: string, max: nat)
    ensures (forall chunks | Whole(chunks) == whole :: AppendAll(chunks, max) == Tail(whole, max)) <==>
            Length(whole) <= max || Tail(whole, max) == "" || Tail(whole, max)[0] != BOM
  {
    var tail := Tail(whole, max);
    if Length(whole) <= max || tail == "" || tail[0] != BOM {
      forall chunks | Whole(chunks) == whole ensures AppendAll(chunks, max) == tail {
        KeptAfterAppends(chunks, max);
      }
    } else {
      OneAppend(whole, max);
      assert Whole([whole]) == whole && AppendAll([whole], max) != tail;
    }
  }

  lemma OneAppend(whole: string, max: nat)
    ensures Whole([whole]) == whole && AppendAll([whole], max) == Appended("", whole, max)
    ensures "" + whole == whole
  {
    assert [whole][..0] == [];
    assert "" + whole == whole;
  }

  /** The cap holds for every text, also with byte order marks. */
  lemma {:induction false} NeverExceedsCap(chunks: seq<string>, max: nat)
    ensures Length(AppendAll(chunks, max)) <= max
  {
    if chunks != [] {
      var all := AppendAll(chunks[..|chunks| - 1], max) + chunks[|chunks| - 1];
      TailIsLongest(all, max, 0);
    }
  }

  /** With byte order marks in the text, two chunkings of one text can keep different tails. */
  lemma ByteOrderMarksDependOnChunking()
    ensures Whole([['x', BOM, BOM, 'a'], "yyy"]) == Whole([['x', BOM, BOM, 'a', 'y', 'y', 'y']])
    ensures AppendAll([['x', BOM, BOM, 'a'], "yyy"], 7) == [BOM] + "ayyy"
    ensures AppendAll([['x', BOM, BOM, 'a', 'y', 'y', 'y']], 7) == "ayyy"
  {
    var a, b, ab := ['x', BOM, BOM, 'a'], "yyy", ['x', BOM, BOM, 'a', 'y', 'y', 'y'];
    var none: seq<string> := [];
    assert [a, b][..1] == [a] && [a][..0] == none && [ab][..0] == none && "" + a == a && "" + ab == ab && a + b == ab;
    FirstCut();
    SecondCut();
    assert AppendAll([a], 7) == [BOM, 'a'];
    assert [BOM, 'a'] + b == [BOM, 'a', 'y', 'y', 'y'] == [BOM] + "ayyy";
    assert AppendAll([a, b], 7) == Appended([BOM, 'a'], b, 7);
    assert [BOM, 'a', 'y', 'y', 'y'][1..] == "ayyy";
  }

  lemma FirstCut()
    ensures Appended("", ['x', BOM, BOM, 'a'], 7) == [BOM, 'a']
  {
    var a, w := ['x', BOM, BOM, 'a'], [BOM, BOM, 'a'];
    assert "" + a == a && a[1..] == w && w[1..] == [BOM, 'a'] && [BOM, 'a'][1..] == "a" && "a"[1..] == "";
    assert Length("a") == 1 && Length([BOM, 'a']) == 4 && Length(w) == 7 && Length(a) == 8;
    assert Tail(w, 7) == w && Tail(a, 7) == w;
  }

  lemma SecondCut()
    ensures Length([BOM, 'a', 'y', 'y', 'y']) == 7 && Length(['x', BOM, BOM, 'a', 'y', 'y', 'y']) > 7
    ensures Tail(['x', BOM, BOM, 'a', 'y', 'y', 'y'], 7) == [BOM, 'a', 'y', 'y', 'y']
  {
    var t, u, ab := [BOM, 'a', 'y', 'y', 'y'], [BOM, BOM, 'a', 'y', 'y', 'y'], ['x', BOM, BOM, 'a', 'y', 'y', 'y'];
    assert t[1..] == "ayyy" && "ayyy"[1..] == "yyy" && "yyy"[1..] == "yy" && "yy"[1..] == "y" && "y"[1..] == "";
    assert Length("yyy") == 3 && Length("ayyy") == 4 && Length(t) == 7;
    assert u[1..] == t && ab[1..] == u;
    assert Length(u) == 10 && Length(ab) == 11;
    assert Tail(t, 7) == t && Tail(u, 7) == t && Tail(ab, 7) == t;
  }
}
