/**
 JSON values and their compact text, as written by `JSON.stringify` and by Python's `json.dumps`
 with compact separators. Numbers are kept as their printed form. The main result is that the text
 is a prefix code: a printed value can be read back in only one way.
 */
module Json {
  datatype Json =
    | Null
    | Bool(b: bool)
    | Num(text: string)
    | Str(s: string)
    | Arr(items: Items)
    | Obj(members: Members)

  datatype Items = NoItem | Item(head: Json, rest: Items)

  datatype Members = NoMember | Member(key: string, value: Json, rest: Members)

  // ----- strings: section 7 of RFC 8259 -----

  function Hex(n: nat): char
    requires n < 16
  {
    "0123456789abcdef"[n]
  }

  function EscapeChar(c: char): string {
    if c == '"' then "\\\""
    else if c == '\\' then "\\\\"
    else if c as int == 8 then "\\b"
    else if c as int == 12 then "\\f"
    else if c == '\n' then "\\n"
    else if c == '\r' then "\\r"
    else if c == '\t' then "\\t"
    else if c as int < 0x20 then "\\u00" + [Hex(c as int / 16), Hex(c as int % 16)]
    else [c]
  }

  function Escape(s: string): string {
    if s == "" then "" else EscapeChar(s[0]) + Escape(s[1..])
  }

  function Quote(s: string): string {
    "\"" + (Escape(s) + "\"")
  }

  // ----- values -----

  function Print(j: Json): string {
    match j
    case Null => "null"
    case Bool(b) => if b then "true" else "false"
    case Num(text) => text
    case Str(s) => Quote(s)
    case Arr(items) => "[" + PrintItems(items)
    case Obj(members) => "{" + PrintMembers(members)
  }

  function PrintItems(items: Items): string {
    match items
    case NoItem => "]"
    case Item(head, rest) => Print(head) + if rest.NoItem? then "]" else "," + PrintItems(rest)
  }

  function PrintMembers(members: Members): string {
    match members
    case NoMember => "}"
    case Member(key, value, rest) =>
      Quote(key) + (":" + (Print(value) + if rest.NoMember? then "}" else "," + PrintMembers(rest)))
  }

  predicate NumberChar(c: char) {
    '0' <= c <= '9' || c == '-' || c == '+' || c == '.' || c == 'e' || c == 'E'
  }

  predicate NumberText(s: string) {
    s != "" && ('0' <= s[0] <= '9' || s[0] == '-') && forall i | 0 <= i < |s| :: NumberChar(s[i])
  }

  predicate NumbersOk(j: Json) {
    match j
    case Num(text) => NumberText(text)
    case Arr(items) => ItemNumbersOk(items)
    case Obj(members) => MemberNumbersOk(members)
    case _ => true
  }

  predicate ItemNumbersOk(items: Items) {
    items.Item? ==> NumbersOk(items.head) && ItemNumbersOk(items.rest)
  }

  predicate MemberNumbersOk(members: Members) {
    members.Member? ==> NumbersOk(members.value) && MemberNumbersOk(members.rest)
  }

  /** What follows a printed value cannot be mistaken for more digits. */
  predicate Delimited(rest: string) {
    rest == "" || !NumberChar(rest[0])
  }

  // ----- the text is a prefix code -----

  lemma HexInjective(a: nat, b: nat)
    requires a < 16 && b < 16 && Hex(a) == Hex(b)
    ensures a == b
  {
    var digits := "0123456789abcdef";
    assert forall i, j | 0 <= i < j < 16 :: digits[i] != digits[j];
  }

  lemma CharIsPrefixCode(c: char, d: char, x: string, y: string)
    requires EscapeChar(c) + x == EscapeChar(d) + y
    ensures c == d && x == y
  {
    var e, f := EscapeChar(c), EscapeChar(d);
    assert (e + x)[0] == e[0] && (f + y)[0] == f[0];
    if |e| > 1 && |f| > 1 {
      assert (e + x)[1] == e[1] && (f + y)[1] == f[1];
      if e[1] == 'u' {
        assert (e + x)[4] == e[4] && (f + y)[4] == f[4] && (e + x)[5] == e[5] && (f + y)[5] == f[5];
        HexInjective(c as int / 16, d as int / 16);
        HexInjective(c as int % 16, d as int % 16);
      }
    }
    assert c == d;
    assert x == (e + x)[|e|..] && y == (f + y)[|f|..];
  }

  lemma EscapeStart(s: string, x: string)
    ensures (Escape(s) + ("\"" + x))[0] == '"' <==> s == ""
  {
    if s != "" {
      assert (Escape(s) + ("\"" + x))[0] == EscapeChar(s[0])[0];
    }
  }

  lemma {:induction false} EscapeIsPrefixCode(s: string, t: string, x: string, y: string)
    requires Escape(s) + ("\"" + x) == Escape(t) + ("\"" + y)
    ensures s == t && x == y
  {
    hide EscapeChar;
    EscapeStart(s, x);
    EscapeStart(t, y);
    if s == "" {
      assert x == ("\"" + x)[1..] && y == ("\"" + y)[1..];
      assert Escape(s) + ("\"" + x) == "\"" + x && Escape(t) + ("\"" + y) == "\"" + y;
    } else {
      var u, v := Escape(s[1..]) + ("\"" + x), Escape(t[1..]) + ("\"" + y);
      assert Escape(s) + ("\"" + x) == EscapeChar(s[0]) + u;
      assert Escape(t) + ("\"" + y) == EscapeChar(t[0]) + v;
      CharIsPrefixCode(s[0], t[0], u, v);
      EscapeIsPrefixCode(s[1..], t[1..], x, y);
      assert s == [s[0]] + s[1..] && t == [t[0]] + t[1..];
    }
  }

  lemma QuoteIsPrefixCode(s: string, t: string, x: string, y: string)
    requires Quote(s) + x == Quote(t) + y
    ensures s == t && x == y
  {
    var u, v := Escape(s) + ("\"" + x), Escape(t) + ("\"" + y);
    assert Quote(s) + x == "\"" + u && Quote(t) + y == "\"" + v;
    assert u == ("\"" + u)[1..] && v == ("\"" + v)[1..];
    EscapeIsPrefixCode(s, t, x, y);
  }

  /** A number text cannot reach past the end of another one. */
  lemma NumberStops(s: string, t: string, x: string, y: string)
    requires NumberText(t) && Delimited(x) && s + x == t + y
    ensures |t| <= |s|
  {
    var all := s + x;
    assert forall i | 0 <= i < |t| :: NumberChar(all[i]) by {
      assert forall i | 0 <= i < |t| :: all[i] == t[i];
    }
    assert |s| < |all| ==> all[|s|] == x[0];
  }

  lemma NumberIsPrefixCode(s: string, t: string, x: string, y: string)
    requires NumberText(s) && NumberText(t) && Delimited(x) && Delimited(y) && s + x == t + y
    ensures s == t && x == y
  {
    NumberStops(s, t, x, y);
    NumberStops(t, s, y, x);
    assert s == (s + x)[..|s|] && t == (t + y)[..|t|];
    assert x == (s + x)[|s|..] && y == (t + y)[|t|..];
  }

  /** The first character tells the kinds of value apart. */
  function Lead(j: Json): char
    requires NumbersOk(j)
  {
    match j
    case Null => 'n'
    case Bool(b) => if b then 't' else 'f'
    case Num(text) => text[0]
    case Str(_) => '"'
    case Arr(_) => '['
    case Obj(_) => '{'
  }

  lemma PrintLead(j: Json, x: string)
    requires NumbersOk(j)
    ensures Print(j) != "" && (Print(j) + x)[0] == Lead(j)
  {
  }

  lemma Cancel(a: string, x: string, y: string)
    requires a + x == a + y
    ensures x == y
  {
    assert x == (a + x)[|a|..] && y == (a + y)[|a|..];
  }

  /** A printed value followed by anything that is not a digit is read back in only one way. */
  lemma {:induction false} PrintIsPrefixCode(a: Json, b: Json, x: string, y: string)
    requires NumbersOk(a) && NumbersOk(b) && Delimited(x) && Delimited(y)
    requires Print(a) + x == Print(b) + y
    ensures a == b && x == y
    decreases a, 1
  {
    hide PrintItems, PrintMembers, Quote;
    PrintLead(a, x);
    PrintLead(b, y);
    match a
    case Null => Cancel("null", x, y);
    case Bool(v) => Cancel(Print(a), x, y);
    case Num(s) => NumberIsPrefixCode(s, b.text, x, y);
    case Str(s) => QuoteIsPrefixCode(s, b.s, x, y);
    case Arr(items) =>
      Regroup("[", PrintItems(items), x);
      Regroup("[", PrintItems(b.items), y);
      Cancel("[", PrintItems(items) + x, PrintItems(b.items) + y);
      ItemsArePrefixCode(items, b.items, x, y);
    case Obj(members) =>
      Regroup("{", PrintMembers(members), x);
      Regroup("{", PrintMembers(b.members), y);
      Cancel("{", PrintMembers(members) + x, PrintMembers(b.members) + y);
      MembersArePrefixCode(members, b.members, x, y);
  }

  lemma Regroup(a: string, b: string, c: string)
    ensures a + b + c == a + (b + c)
  {
  }

  /** The text after an item: the closing bracket, or a comma and the other items. */
  function AfterItem(rest: Items): string {
    if rest.NoItem? then "]" else "," + PrintItems(rest)
  }

  lemma {:induction false} ItemsArePrefixCode(a: Items, b: Items, x: string, y: string)
    requires ItemNumbersOk(a) && ItemNumbersOk(b) && PrintItems(a) + x == PrintItems(b) + y
    ensures a == b && x == y
    decreases a, 0
  {
    hide Print;
    ItemsLead(a, x);
    ItemsLead(b, y);
    if a.NoItem? {
      Cancel("]", x, y);
    } else {
      var u, v := AfterItem(a.rest) + x, AfterItem(b.rest) + y;
      Regroup(Print(a.head), AfterItem(a.rest), x);
      Regroup(Print(b.head), AfterItem(b.rest), y);
      PrintIsPrefixCode(a.head, b.head, u, v);
      assert u[0] == (if a.rest.NoItem? then ']' else ',') && v[0] == (if b.rest.NoItem? then ']' else ',');
      if a.rest.NoItem? {
        Cancel("]", x, y);
      } else {
        Regroup(",", PrintItems(a.rest), x);
        Regroup(",", PrintItems(b.rest), y);
        Cancel(",", PrintItems(a.rest) + x, PrintItems(b.rest) + y);
        ItemsArePrefixCode(a.rest, b.rest, x, y);
      }
    }
  }

  lemma ItemsLead(a: Items, x: string)
    requires ItemNumbersOk(a)
    ensures (PrintItems(a) + x)[0] == ']' <==> a.NoItem?
  {
    if a.Item? {
      PrintLead(a.head, AfterItem(a.rest) + x);
      Regroup(Print(a.head), AfterItem(a.rest), x);
    }
  }

  function AfterMember(rest: Members): string {
    if rest.NoMember? then "}" else "," + PrintMembers(rest)
  }

  lemma {:induction false} MembersArePrefixCode(a: Members, b: Members, x: string, y: string)
    requires MemberNumbersOk(a) && MemberNumbersOk(b) && PrintMembers(a) + x == PrintMembers(b) + y
    ensures a == b && x == y
    decreases a, 0
  {
    hide Print, Quote;
    MembersLead(a, x);
    MembersLead(b, y);
    if a.NoMember? {
      Cancel("}", x, y);
    } else {
      var u, v := AfterMember(a.rest) + x, AfterMember(b.rest) + y;
      UnfoldMember(a, x);
      UnfoldMember(b, y);
      QuoteIsPrefixCode(a.key, b.key, ":" + (Print(a.value) + u), ":" + (Print(b.value) + v));
      Cancel(":", Print(a.value) + u, Print(b.value) + v);
      PrintIsPrefixCode(a.value, b.value, u, v);
      assert u[0] == (if a.rest.NoMember? then '}' else ',') && v[0] == (if b.rest.NoMember? then '}' else ',');
      if a.rest.NoMember? {
        Cancel("}", x, y);
      } else {
        Regroup(",", PrintMembers(a.rest), x);
        Regroup(",", PrintMembers(b.rest), y);
        Cancel(",", PrintMembers(a.rest) + x, PrintMembers(b.rest) + y);
        MembersArePrefixCode(a.rest, b.rest, x, y);
      }
    }
  }

  lemma UnfoldMember(a: Members, x: string)
    requires a.Member?
    ensures PrintMembers(a) + x == Quote(a.key) + (":" + (Print(a.value) + (AfterMember(a.rest) + x)))
  {
    hide Print, Quote;
    var p, m := Print(a.value), AfterMember(a.rest);
    Regroup(Quote(a.key), ":" + (p + m), x);
    Regroup(":", p + m, x);
    Regroup(p, m, x);
  }

  lemma MembersLead(a: Members, x: string)
    ensures (PrintMembers(a) + x)[0] == '}' <==> a.NoMember?
  {
    if a.Member? {
      UnfoldMember(a, x);
      assert Quote(a.key)[0] == '"';
    }
  }

  /** Different values have different texts. */
  lemma PrintIsInjective(a: Json, b: Json)
    requires NumbersOk(a) && NumbersOk(b) && Print(a) == Print(b)
    ensures a == b
  {
    assert Print(a) + "" == Print(b) + "";
    PrintIsPrefixCode(a, b, "", "");
  }

  // ----- no raw newline -----

  lemma {:induction false} EscapeHasNoNewline(s: string)
    ensures '\n' !in Escape(s)
  {
    if s != "" {
      EscapeHasNoNewline(s[1..]);
    }
  }

  /** Compact JSON text stays on one line, whatever its strings hold. */
  lemma {:induction false} PrintHasNoNewline(j: Json)
    requires NumbersOk(j)
    ensures '\n' !in Print(j)
    decreases j, 1
  {
    match j
    case Null =>
    case Bool(_) =>
    case Num(text) =>
    case Str(s) => EscapeHasNoNewline(s);
    case Arr(items) => ItemsHaveNoNewline(items);
    case Obj(members) => MembersHaveNoNewline(members);
  }

  lemma {:induction false} ItemsHaveNoNewline(items: Items)
    requires ItemNumbersOk(items)
    ensures '\n' !in PrintItems(items)
    decreases items, 0
  {
    if items.Item? {
      PrintHasNoNewline(items.head);
      ItemsHaveNoNewline(items.rest);
    }
  }

  lemma {:induction false} MembersHaveNoNewline(members: Members)
    requires MemberNumbersOk(members)
    ensures '\n' !in PrintMembers(members)
    decreases members, 0
  {
    if members.Member? {
      EscapeHasNoNewline(members.key);
      PrintHasNoNewline(members.value);
      MembersHaveNoNewline(members.rest);
    }
  }
}
