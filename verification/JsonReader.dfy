/**
 A reader for the JSON texts that the system writes for itself: strings, and flat objects of strings
 and integers, without white space. It inverts `Json.Print` on them.
 */
module JsonReader {
  import opened Common
  import opened Decimal
  import opened Json

  // ----- strings -----

  function HexValue(c: char): Option<nat> {
    if '0' <= c <= '9' then Some(c as int - '0' as int)
    else if 'a' <= c <= 'f' then Some(c as int - 'a' as int + 10)
    else if 'A' <= c <= 'F' then Some(c as int - 'A' as int + 10)
    else None
  }

  datatype Scanned<T> = Scanned(value: T, rest: string)

  /** One character of a JSON string, escaped or not; `None` for text that section 7 of RFC 8259 rules out. */
  function ReadChar(s: string): (r: Option<Scanned<char>>)
    ensures r.Some? ==> |r.value.rest| < |s|
  {
    if s == "" || s[0] == '"' || s[0] as int < 0x20 then None
    else if s[0] != '\\' then Some(Scanned(s[0], s[1..]))
    else if |s| < 2 then None
    else if s[1] == '"' || s[1] == '\\' || s[1] == '/' then Some(Scanned(s[1], s[2..]))
    else if s[1] == 'b' then Some(Scanned(8 as char, s[2..]))
    else if s[1] == 'f' then Some(Scanned(12 as char, s[2..]))
    else if s[1] == 'n' then Some(Scanned('\n', s[2..]))
    else if s[1] == 'r' then Some(Scanned('\r', s[2..]))
    else if s[1] == 't' then Some(Scanned('\t', s[2..]))
    else if s[1] == 'u' && |s| >= 6 then
      var a, b, c, d := HexValue(s[2]), HexValue(s[3]), HexValue(s[4]), HexValue(s[5]);
      if a.None? || b.None? || c.None? || d.None? then None
      else
        var v := ((a.value * 16 + b.value) * 16 + c.value) * 16 + d.value;
        if v < 0xD800 || 0xE000 <= v < 0x10000 then Some(Scanned(v as char, s[6..])) else None
    else None
  }

  /** The rest of a JSON string after its opening quote. */
  function ReadString(s: string): (r: Option<Scanned<string>>)
    ensures r.Some? ==> |r.value.rest| < |s|
    decreases |s|
  {
    if s != "" && s[0] == '"' then Some(Scanned("", s[1..]))
    else
      var first := ReadChar(s);
      if first.None? then None
      else
        var more := ReadString(first.value.rest);
        if more.None? then None else Some(Scanned([first.value.value] + more.value.value, more.value.rest))
  }

  function Skip(s: string, prefix: string): Option<string> {
    if prefix <= s then Some(s[|prefix|..]) else None
  }

  lemma HexReadsBack(n: nat)
    requires n < 16
    ensures HexValue(Hex(n)) == Some(n)
  {
    var digits := "0123456789abcdef";
    assert digits[n] == Hex(n);
  }

  lemma ReadHexInverts(v: nat, x: string)
    requires v < 0x20
    ensures ReadChar("\\u00" + [Hex(v / 16), Hex(v % 16)] + x) == Some(Scanned(v as char, x))
  {
    hide Hex, HexValue;
    var s := "\\u00" + [Hex(v / 16), Hex(v % 16)] + x;
    assert s[0] == '\\' && s[1] == 'u' && s[2] == '0' && s[3] == '0' && s[4] == Hex(v / 16) && s[5] == Hex(v % 16);
    assert s[6..] == x;
    ZeroDigit();
    HexReadsBack(v / 16);
    HexReadsBack(v % 16);
  }

  lemma ZeroDigit()
    ensures HexValue('0') == Some(0)
  {
  }

  lemma ReadCharInverts(c: char, x: string)
    ensures ReadChar(EscapeChar(c) + x) == Some(Scanned(c, x))
  {
    hide Hex, HexValue;
    var e := EscapeChar(c);
    var s := e + x;
    if |e| == 6 {
      ReadHexInverts(c as int, x);
    } else {
      assert s[0] == e[0] && s[|e|..] == x && (|e| == 2 ==> s[1] == e[1]);
    }
  }

  lemma {:induction false} ReadStringInverts(s: string, x: string)
    ensures ReadString(Escape(s) + ("\"" + x)) == Some(Scanned(s, x))
  {
    hide EscapeChar, ReadChar;
    EscapeStart(s, x);
    if s == "" {
      assert Escape(s) + ("\"" + x) == "\"" + x;
    } else {
      var rest := Escape(s[1..]) + ("\"" + x);
      assert Escape(s) + ("\"" + x) == EscapeChar(s[0]) + rest;
      ReadCharInverts(s[0], rest);
      ReadStringInverts(s[1..], x);
      assert s == [s[0]] + s[1..];
    }
  }

  // ----- flat objects -----

  /** Member lookup: the last one wins. */
  function Get(members: Members, key: string): Option<Json> {
    if members.NoMember? then None
    else
      var later := Get(members.rest, key);
      if later.Some? then later else if members.key == key then Some(members.value) else None
  }

  predicate IntegerChar(c: char) {
    '0' <= c <= '9' || c == '-'
  }

  /** The length of the leading run of digits and signs. */
  function IntegerLength(s: string): (n: nat)
    ensures n <= |s|
  {
    if s == "" || !IntegerChar(s[0]) then 0 else 1 + IntegerLength(s[1..])
  }

  function ReadValue(s: string): (r: Option<Scanned<Json>>)
    ensures r.Some? ==> |r.value.rest| < |s|
  {
    if s != "" && s[0] == '"' then
      var text := ReadString(s[1..]);
      if text.None? then None else Some(Scanned(Str(text.value.value), text.value.rest))
    else
      var n := IntegerLength(s);
      if n == 0 then None else Some(Scanned(Num(s[..n]), s[n..]))
  }

  /** The members of an object, from the first key to the closing brace at the end of the text. */
  function ReadMembers(s: string): Option<Members>
    decreases |s|
  {
    var open := Skip(s, "\"");
    if open.None? then None
    else
      var key := ReadString(open.value);
      if key.None? then None
      else
        var colon := Skip(key.value.rest, ":");
        if colon.None? then None
        else
          var value := ReadValue(colon.value);
          if value.None? then None
          else if value.value.rest == "}" then Some(Member(key.value.value, value.value.value, NoMember))
          else
            var comma := Skip(value.value.rest, ",");
            if comma.None? then None
            else
              var more := ReadMembers(comma.value);
              if more.None? then None else Some(Member(key.value.value, value.value.value, more.value))
  }

  function ReadObject(s: string): Option<Members> {
    var open := Skip(s, "{");
    if open.None? then None else ReadMembers(open.value)
  }

  predicate FlatValue(j: Json) {
    j.Str? || (j.Num? && j.text != "" && forall i | 0 <= i < |j.text| :: IntegerChar(j.text[i]))
  }

  predicate Flat(members: Members) {
    members.Member? ==> FlatValue(members.value) && Flat(members.rest)
  }

  lemma {:induction false} IntegerLengthIs(text: string, x: string)
    requires forall i | 0 <= i < |text| :: IntegerChar(text[i])
    requires x != "" && !IntegerChar(x[0])
    ensures IntegerLength(text + x) == |text|
  {
    if text == "" {
      assert text + x == x;
    } else {
      assert (text + x)[0] == text[0] && (text + x)[1..] == text[1..] + x;
      IntegerLengthIs(text[1..], x);
    }
  }

  lemma ReadValueInverts(j: Json, x: string)
    requires FlatValue(j) && x != "" && !IntegerChar(x[0])
    ensures ReadValue(Print(j) + x) == Some(Scanned(j, x))
  {
    hide ReadString, Escape;
    var s := Print(j) + x;
    if j.Str? {
      assert s[0] == '"' && s[1..] == Escape(j.s) + ("\"" + x);
      ReadStringInverts(j.s, x);
    } else {
      IntegerLengthIs(j.text, x);
      assert s[0] == j.text[0] && s[..|j.text|] == j.text && s[|j.text|..] == x;
    }
  }

  lemma ReadKeyInverts(key: string, x: string)
    ensures var open := Skip(Quote(key) + (":" + x), "\"");
            && open.Some? && ReadString(open.value) == Some(Scanned(key, ":" + x)) && Skip(":" + x, ":") == Some(x)
  {
    hide ReadString, Escape;
    assert (Quote(key) + (":" + x))[1..] == Escape(key) + ("\"" + (":" + x));
    ReadStringInverts(key, ":" + x);
  }

  lemma {:induction false} ReadMembersInverts(m: Members)
    requires m.Member? && Flat(m)
    ensures ReadMembers(PrintMembers(m)) == Some(m)
  {
    hide ReadString, ReadValue, Print, Quote;
    var end := if m.rest.NoMember? then "}" else "," + PrintMembers(m.rest);
    var value := Print(m.value) + end;
    assert PrintMembers(m) == Quote(m.key) + (":" + value);
    ReadKeyInverts(m.key, value);
    ReadValueInverts(m.value, end);
    if m.rest.Member? {
      assert Skip(end, ",") == Some(PrintMembers(m.rest));
      ReadMembersInverts(m.rest);
    }
  }

  /** A flat object reads back. */
  lemma ReadObjectInverts(m: Members)
    requires m.Member? && Flat(m)
    ensures ReadObject(Print(Obj(m))) == Some(m)
  {
    hide PrintMembers, ReadMembers;
    assert Skip("{" + PrintMembers(m), "{") == Some(PrintMembers(m));
    ReadMembersInverts(m);
  }

  // ----- integers -----

  function Integer(n: int): string {
    if n < 0 then "-" + Numeral(-n) else Numeral(n)
  }

  function ReadInteger(j: Option<Json>): Option<int> {
    if j.None? || !j.value.Num? then None
    else
      var text := j.value.text;
      if Digits(text) then Some(DigitsValue(text))
      else if "-" <= text && Digits(text[1..]) then Some(0 - DigitsValue(text[1..]))
      else None
  }

  lemma IntegerReadsBack(n: int)
    ensures ReadInteger(Some(Num(Integer(n)))) == Some(n)
    ensures FlatValue(Num(Integer(n))) && NumbersOk(Num(Integer(n)))
  {
    hide Numeral;
    var text := Integer(n);
    if n < 0 {
      NumeralReadsBack(-n);
      assert text[1..] == Numeral(-n);
    } else {
      NumeralReadsBack(n);
    }
  }

  lemma NoInteger()
    ensures ReadInteger(None) == None
  {
  }
}
