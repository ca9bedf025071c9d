/**
 The canonical text of a JSON request body, from which the idempotency fingerprint is hashed:
 every object's members are sorted by UTF-16 code units, rebuilt as an object, and printed in the
 object's own property order.
 */
module CanonicalJson {
  import opened Common
  import opened Decimal
  import opened Json

  /** A body as sent; numbers are literals. */
  datatype Body =
    | BNull
    | BBool(b: bool)
    | BNum(text: string)
    | BStr(s: string)
    | BArr(items: BItems)
    | BObj(members: BMembers)

  datatype BItems = BNoItem | BItem(head: Body, rest: BItems)

  datatype BMembers = BNoMember | BMember(key: string, value: Body, rest: BMembers)

  // ----- property order -----

  /** The rank of a character in UTF-16 code unit order: surrogates sort below U+E000. */
  function Rank(c: char): int {
    var v := c as int;
    if v < 0xD800 then v else if v < 0x10000 then v + 0x100000 else v - 0x10000 + 0xD800
  }

  predicate UnitsBefore(a: string, b: string) {
    if b == "" then false
    else if a == "" then true
    else if a[0] == b[0] then UnitsBefore(a[1..], b[1..])
    else Rank(a[0]) < Rank(b[0])
  }

  /** An array index in ECMAScript's sense: such keys come first, in numeric order. */
  predicate IsIndex(k: string) {
    Digits(k) && (k == "0" || k[0] != '0') && DigitsValue(k) <= 4294967294
  }

  predicate OwnBefore(a: string, b: string) {
    if IsIndex(a) then !IsIndex(b) || DigitsValue(a) < DigitsValue(b) else !IsIndex(b)
  }

  /** Put a member in front of the first one it comes before. */
  function Place(before: (string, string) -> bool, key: string, value: Json, list: Members): Members {
    if list.NoMember? || before(key, list.key) then Member(key, value, list)
    else Member(list.key, list.value, Place(before, key, value, list.rest))
  }

  function Arrange(before: (string, string) -> bool, list: Members): Members {
    if list.NoMember? then NoMember else Place(before, list.key, list.value, Arrange(before, list.rest))
  }

  const BY_UNITS := (a: string, b: string) => UnitsBefore(a, b)
  const BY_OWN_ORDER := (a: string, b: string) => OwnBefore(a, b)

  // ----- numbers -----

  /**
   A number literal read as a double and printed again; `None` is a literal beyond the range of a
   double, which reads as an infinity and is written as null.
   */
  type Rounding = string -> Option<string>

  /** Rounding yields number texts and leaves a printed double alone. */
  ghost predicate RoundsOnce(round: Rounding) {
    forall t | NumberText(t) && round(t).Some? :: NumberText(round(t).value) && round(round(t).value) == round(t)
  }

  /** The body as its reader sees it. */
  function Rounded(j: Body, round: Rounding): Body
    decreases j
  {
    match j
    case BNum(text) => if round(text).Some? then BNum(round(text).value) else BNull
    case BArr(items) => BArr(RoundedItems(items, round))
    case BObj(members) => BObj(RoundedMembers(members, round))
    case BNull => j
    case BBool(_) => j
    case BStr(_) => j
  }

  function RoundedItems(items: BItems, round: Rounding): BItems
    decreases items
  {
    match items
    case BNoItem => BNoItem
    case BItem(head, rest) => BItem(Rounded(head, round), RoundedItems(rest, round))
  }

  function RoundedMembers(members: BMembers, round: Rounding): BMembers
    decreases members
  {
    match members
    case BNoMember => BNoMember
    case BMember(key, value, rest) => BMember(key, Rounded(value, round), RoundedMembers(rest, round))
  }

  // ----- the canonical text -----

  function Canon(j: Body): Json {
    match j
    case BNull => Null
    case BBool(b) => Bool(b)
    case BNum(text) => Num(text)
    case BStr(s) => Str(s)
    case BArr(items) => Arr(CanonItems(items))
    case BObj(members) => Obj(Arrange(BY_OWN_ORDER, Arrange(BY_UNITS, CanonMembers(members))))
  }

  function CanonItems(items: BItems): Items {
    match items
    case BNoItem => NoItem
    case BItem(head, rest) => Item(Canon(head), CanonItems(rest))
  }

  function CanonMembers(members: BMembers): Members {
    match members
    case BNoMember => NoMember
    case BMember(key, value, rest) => Member(key, Canon(value), CanonMembers(rest))
  }

  function CanonicalText(j: Body, round: Rounding): string {
    Print(Canon(Rounded(j, round)))
  }

  // ----- what a body denotes -----

  /** The value of a body: arrays are sequences and objects are maps, so member order is gone. */
  datatype Value =
    | VNull
    | VBool(b: bool)
    | VNum(text: string)
    | VStr(s: string)
    | VArr(items: seq<Value>)
    | VObj(members: map<string, Value>)

  ghost function Denotes(j: Body): Value {
    match j
    case BNull => VNull
    case BBool(b) => VBool(b)
    case BNum(text) => VNum(text)
    case BStr(s) => VStr(s)
    case BArr(items) => VArr(DenotesItems(items))
    case BObj(members) => VObj(DenotesMembers(members))
  }

  ghost function DenotesItems(items: BItems): seq<Value> {
    match items
    case BNoItem => []
    case BItem(head, rest) => [Denotes(head)] + DenotesItems(rest)
  }

  ghost function DenotesMembers(members: BMembers): map<string, Value> {
    match members
    case BNoMember => map[]
    case BMember(key, value, rest) => DenotesMembers(rest)[key := Denotes(value)]
  }

  /** The same for canonical values. */
  ghost function Meaning(j: Json): Value {
    match j
    case Null => VNull
    case Bool(b) => VBool(b)
    case Num(text) => VNum(text)
    case Str(s) => VStr(s)
    case Arr(items) => VArr(MeaningItems(items))
    case Obj(members) => VObj(MeaningMembers(members))
  }

  ghost function MeaningItems(items: Items): seq<Value> {
    match items
    case NoItem => []
    case Item(head, rest) => [Meaning(head)] + MeaningItems(rest)
  }

  ghost function MeaningMembers(members: Members): map<string, Value> {
    match members
    case NoMember => map[]
    case Member(key, value, rest) => MeaningMembers(rest)[key := Meaning(value)]
  }

  /** Bodies that parse: no object keeps a key twice, and numbers are written as numbers. */
  predicate Parsed(j: Body) {
    match j
    case BNum(text) => NumberText(text)
    case BArr(items) => ParsedItems(items)
    case BObj(members) => ParsedMembers(members)
    case _ => true
  }

  predicate ParsedItems(items: BItems) {
    items.BItem? ==> Parsed(items.head) && ParsedItems(items.rest)
  }

  predicate ParsedMembers(members: BMembers) {
    members.BMember? ==> Parsed(members.value) && ParsedMembers(members.rest) && members.key !in BKeys(members.rest)
  }

  function BKeys(members: BMembers): set<string> {
    if members.BNoMember? then {} else {members.key} + BKeys(members.rest)
  }

  function Keys(members: Members): set<string> {
    if members.NoMember? then {} else {members.key} + Keys(members.rest)
  }

  predicate Unique(members: Members) {
    members.Member? ==> members.key !in Keys(members.rest) && Unique(members.rest)
  }

  // ----- arranging members changes nothing but their order -----

  ghost function Entries(members: Members): map<string, Json> {
    if members.NoMember? then map[] else Entries(members.rest)[members.key := members.value]
  }

  lemma {:induction false} EntriesKeys(l: Members)
    ensures Entries(l).Keys == Keys(l)
  {
    if l.Member? {
      EntriesKeys(l.rest);
    }
  }

  lemma {:induction false} PlaceKeeps(before: (string, string) -> bool, key: string, value: Json, l: Members)
    requires key !in Keys(l) && Unique(l)
    ensures var p := Place(before, key, value, l);
            Unique(p) && Keys(p) == {key} + Keys(l) && Entries(p) == Entries(l)[key := value]
    ensures MemberNumbersOk(l) && NumbersOk(value) ==> MemberNumbersOk(Place(before, key, value, l))
  {
    if l.Member? && !before(key, l.key) {
      PlaceKeeps(before, key, value, l.rest);
    }
  }

  lemma {:induction false} ArrangeKeeps(before: (string, string) -> bool, l: Members)
    requires Unique(l)
    ensures var p := Arrange(before, l); Unique(p) && Keys(p) == Keys(l) && Entries(p) == Entries(l)
    ensures MemberNumbersOk(l) ==> MemberNumbersOk(Arrange(before, l))
  {
    if l.Member? {
      ArrangeKeeps(before, l.rest);
      PlaceKeeps(before, l.key, l.value, Arrange(before, l.rest));
    }
  }

  lemma {:induction false} MeaningOfEntries(l: Members)
    requires Unique(l)
    ensures MeaningMembers(l).Keys == Keys(l) == Entries(l).Keys
    ensures forall k | k in Keys(l) :: MeaningMembers(l)[k] == Meaning(Entries(l)[k])
  {
    if l.Member? {
      MeaningOfEntries(l.rest);
    }
  }

  lemma SameEntriesSameMeaning(a: Members, b: Members)
    requires Unique(a) && Unique(b) && Entries(a) == Entries(b)
    ensures MeaningMembers(a) == MeaningMembers(b)
  {
    MeaningOfEntries(a);
    MeaningOfEntries(b);
  }

  // ----- the sorted form is unique -----

  lemma {:induction false} RankInjective(c: char, d: char)
    requires Rank(c) == Rank(d)
    ensures c == d
  {
    assert c as int == d as int;
  }

  lemma {:induction false} UnitsTrichotomy(a: string, b: string)
    ensures (if UnitsBefore(a, b) then 1 else 0) + (if a == b then 1 else 0) + (if UnitsBefore(b, a) then 1 else 0) == 1
  {
    if a != "" && b != "" {
      if a[0] == b[0] {
        UnitsTrichotomy(a[1..], b[1..]);
        assert a == [a[0]] + a[1..] && b == [b[0]] + b[1..];
      } else if Rank(a[0]) == Rank(b[0]) {
        RankInjective(a[0], b[0]);
      }
    }
  }

  lemma {:induction false} UnitsTransitive(a: string, b: string, c: string)
    requires UnitsBefore(a, b) && UnitsBefore(b, c)
    ensures UnitsBefore(a, c)
  {
    if a != "" && a[0] == b[0] && b[0] == c[0] {
      UnitsTransitive(a[1..], b[1..], c[1..]);
    }
  }

  ghost predicate Sorted(l: Members) {
    l.Member? ==> Sorted(l.rest) && forall k | k in Keys(l.rest) :: UnitsBefore(l.key, k)
  }

  lemma {:induction false} PlaceSorts(key: string, value: Json, l: Members)
    requires Sorted(l) && Unique(l) && key !in Keys(l)
    ensures Sorted(Place(BY_UNITS, key, value, l))
  {
    hide UnitsBefore;
    if l.Member? {
      if UnitsBefore(key, l.key) {
        forall k | k in Keys(l) ensures UnitsBefore(key, k) {
          if k != l.key { UnitsTransitive(key, l.key, k); }
        }
      } else {
        UnitsTrichotomy(key, l.key);
        PlaceSorts(key, value, l.rest);
        PlaceKeeps(BY_UNITS, key, value, l.rest);
      }
    }
  }

  lemma {:induction false} ArrangeSorts(l: Members)
    requires Unique(l)
    ensures Sorted(Arrange(BY_UNITS, l))
  {
    if l.Member? {
      ArrangeSorts(l.rest);
      ArrangeKeeps(BY_UNITS, l.rest);
      PlaceSorts(l.key, l.value, Arrange(BY_UNITS, l.rest));
    }
  }

  lemma {:induction false} SortedFormIsUnique(a: Members, b: Members)
    requires Sorted(a) && Sorted(b) && Unique(a) && Unique(b) && Entries(a) == Entries(b)
    ensures a == b
  {
    hide UnitsBefore;
    EntriesKeys(a);
    EntriesKeys(b);
    if a.Member? {
      assert a.key in Keys(b);
      assert b.key in Keys(a);
      UnitsTrichotomy(a.key, b.key);
      assert a.key == b.key;
      EntriesKeys(a.rest);
      EntriesKeys(b.rest);
      assert Entries(a.rest) == Entries(a) - {a.key};
      assert Entries(b.rest) == Entries(b) - {b.key};
      SortedFormIsUnique(a.rest, b.rest);
    } else {
      assert Keys(b) == {};
    }
  }

  // ----- canonical values keep the meaning -----

  lemma {:induction false} CanonIsSound(j: Body)
    requires Parsed(j)
    ensures NumbersOk(Canon(j)) && Meaning(Canon(j)) == Denotes(j)
    decreases j, 1
  {
    match j
    case BArr(items) => CanonItemsSound(items);
    case BObj(members) =>
      CanonMembersSound(members);
      var l := CanonMembers(members);
      ArrangeKeeps(BY_UNITS, l);
      ArrangeKeeps(BY_OWN_ORDER, Arrange(BY_UNITS, l));
      ArrangedMeaning(l);
    case _ =>
  }

  lemma {:induction false} CanonItemsSound(items: BItems)
    requires ParsedItems(items)
    ensures ItemNumbersOk(CanonItems(items)) && MeaningItems(CanonItems(items)) == DenotesItems(items)
    decreases items, 0
  {
    if items.BItem? {
      CanonIsSound(items.head);
      CanonItemsSound(items.rest);
    }
  }

  lemma {:induction false} CanonMembersSound(members: BMembers)
    requires ParsedMembers(members)
    ensures var l := CanonMembers(members);
            && MemberNumbersOk(l) && Unique(l) && Keys(l) == BKeys(members)
            && MeaningMembers(l) == DenotesMembers(members)
    decreases members, 0
  {
    if members.BMember? {
      CanonIsSound(members.value);
      CanonMembersSound(members.rest);
    }
  }

  // ----- equal meaning gives the same canonical value -----

  /** A canonical value is fixed by its meaning. */
  lemma {:induction false} CanonIsComplete(a: Body, b: Body)
    requires Parsed(a) && Parsed(b) && Meaning(Canon(a)) == Meaning(Canon(b))
    ensures Canon(a) == Canon(b)
    decreases a, 1
  {
    match a
    case BArr(items) =>
      assert b.BArr?;
      CanonItemsComplete(items, b.items);
    case BObj(members) =>
      assert b.BObj?;
      CanonObjectsComplete(members, b.members);
    case _ =>
  }

  lemma {:induction false} CanonItemsComplete(a: BItems, b: BItems)
    requires ParsedItems(a) && ParsedItems(b) && MeaningItems(CanonItems(a)) == MeaningItems(CanonItems(b))
    ensures CanonItems(a) == CanonItems(b)
    decreases a, 0
  {
    if a.BItem? && b.BItem? {
      var u, v := MeaningItems(CanonItems(a)), MeaningItems(CanonItems(b));
      assert u[0] == v[0] && u[1..] == v[1..];
      assert u[1..] == MeaningItems(CanonItems(a.rest)) && v[1..] == MeaningItems(CanonItems(b.rest));
      CanonIsComplete(a.head, b.head);
      CanonItemsComplete(a.rest, b.rest);
    }
  }

  lemma {:induction false} CanonObjectsComplete(a: BMembers, b: BMembers)
    requires ParsedMembers(a) && ParsedMembers(b) && Meaning(Canon(BObj(a))) == Meaning(Canon(BObj(b)))
    ensures Canon(BObj(a)) == Canon(BObj(b))
    decreases a, 1
  {
    var l, m := CanonMembers(a), CanonMembers(b);
    CanonMembersSound(a);
    CanonMembersSound(b);
    ArrangedMeaning(l);
    ArrangedMeaning(m);
    MeaningOfEntries(l);
    MeaningOfEntries(m);
    EntriesAgree(a, b);
    assert Entries(l) == Entries(m);
    SameEntriesSameArrangement(l, m);
  }

  lemma ArrangedMeaning(l: Members)
    requires Unique(l)
    ensures MeaningMembers(Arrange(BY_OWN_ORDER, Arrange(BY_UNITS, l))) == MeaningMembers(l)
  {
    ArrangeKeeps(BY_UNITS, l);
    ArrangeKeeps(BY_OWN_ORDER, Arrange(BY_UNITS, l));
    SameEntriesSameMeaning(l, Arrange(BY_OWN_ORDER, Arrange(BY_UNITS, l)));
  }

  lemma SameEntriesSameArrangement(l: Members, m: Members)
    requires Unique(l) && Unique(m) && Entries(l) == Entries(m)
    ensures Arrange(BY_UNITS, l) == Arrange(BY_UNITS, m)
  {
    ArrangeKeeps(BY_UNITS, l);
    ArrangeKeeps(BY_UNITS, m);
    ArrangeSorts(l);
    ArrangeSorts(m);
    SortedFormIsUnique(Arrange(BY_UNITS, l), Arrange(BY_UNITS, m));
  }

  lemma {:induction false} EntriesAgree(a: BMembers, b: BMembers)
    requires ParsedMembers(a) && ParsedMembers(b)
    requires Keys(CanonMembers(a)) == Entries(CanonMembers(a)).Keys
          && Keys(CanonMembers(b)) == Entries(CanonMembers(b)).Keys
    requires forall k | k in Keys(CanonMembers(a)) ::
               k in Keys(CanonMembers(b))
                     && Meaning(Entries(CanonMembers(a))[k]) == Meaning(Entries(CanonMembers(b))[k])
    ensures forall k | k in Keys(CanonMembers(a)) ::
              k in Keys(CanonMembers(b)) && Entries(CanonMembers(a))[k] == Entries(CanonMembers(b))[k]
    decreases a, 0
  {
    if a.BMember? {
      var l, m := CanonMembers(a), CanonMembers(b);
      CanonMembersSound(a);
      EntriesKeys(CanonMembers(a.rest));
      var v := Lookup(b, a.key);
      CanonIsComplete(a.value, v);
      EntriesAgree(a.rest, b);
    }
  }

  lemma {:induction false} Lookup(b: BMembers, k: string) returns (v: Body)
    requires ParsedMembers(b) && k in Keys(CanonMembers(b)) && Entries(CanonMembers(b)).Keys == Keys(CanonMembers(b))
    ensures Parsed(v) && Canon(v) == Entries(CanonMembers(b))[k]
  {
    if b.key == k {
      v := b.value;
    } else {
      EntriesKeys(CanonMembers(b.rest));
      v := Lookup(b.rest, k);
    }
  }

  // ----- the fingerprint's text -----

  /**
   Two bodies have the same canonical text exactly when, after rounding, they denote the same value
   up to member order at every depth; a number too large for a double counts as null.
   */
  lemma SameTextExactlyWhenSameValue(a: Body, b: Body, round: Rounding)
    requires Parsed(a) && Parsed(b) && RoundsOnce(round)
    ensures CanonicalText(a, round) == CanonicalText(b, round) <==>
            Denotes(Rounded(a, round)) == Denotes(Rounded(b, round))
  {
    var x, y := Rounded(a, round), Rounded(b, round);
    RoundedFacts(a, round);
    RoundedFacts(b, round);
    CanonIsSound(x);
    CanonIsSound(y);
    if CanonicalText(a, round) == CanonicalText(b, round) {
      PrintIsInjective(Canon(x), Canon(y));
    }
    if Denotes(x) == Denotes(y) {
      CanonIsComplete(x, y);
    }
  }

  /** For bodies whose numbers all print as written, the text neither splits equal nor merges different bodies. */
  lemma TextIdentifiesExactBodies(a: Body, b: Body, round: Rounding)
    requires Parsed(a) && Parsed(b) && RoundsOnce(round) && Rounded(a, round) == a && Rounded(b, round) == b
    ensures CanonicalText(a, round) == CanonicalText(b, round) <==> Denotes(a) == Denotes(b)
  {
    SameTextExactlyWhenSameValue(a, b, round);
  }

  /** Any body with a number that prints differently, or not at all, shares its text with a different body. */
  lemma RoundingMergesBodies(a: Body, round: Rounding)
    requires Parsed(a) && RoundsOnce(round) && Rounded(a, round) != a
    ensures var b := Rounded(a, round);
            Parsed(b) && CanonicalText(b, round) == CanonicalText(a, round) && Denotes(b) != Denotes(a)
  {
    RoundedFacts(a, round);
    SameTextExactlyWhenSameValue(a, Rounded(a, round), round);
  }

  lemma {:induction false} RoundedFacts(a: Body, round: Rounding)
    requires Parsed(a) && RoundsOnce(round)
    ensures Parsed(Rounded(a, round)) && Rounded(Rounded(a, round), round) == Rounded(a, round)
    ensures Denotes(Rounded(a, round)) == Denotes(a) ==> Rounded(a, round) == a
    decreases a, 1
  {
    match a
    case BArr(items) => RoundedItemsFacts(items, round);
    case BObj(members) => RoundedMembersFacts(members, round);
    case BNum(_) =>
    case BNull =>
    case BBool(_) =>
    case BStr(_) =>
  }

  lemma {:induction false} RoundedItemsFacts(a: BItems, round: Rounding)
    requires ParsedItems(a) && RoundsOnce(round)
    ensures var b := RoundedItems(a, round);
            && ParsedItems(b) && RoundedItems(b, round) == b
            && (DenotesItems(b) == DenotesItems(a) ==> b == a)
    decreases a, 0
  {
    if a.BItem? {
      RoundedFacts(a.head, round);
      RoundedItemsFacts(a.rest, round);
      var u, v := DenotesItems(RoundedItems(a, round)), DenotesItems(a);
      assert u == v ==> u[0] == v[0] && u[1..] == v[1..];
      assert u[1..] == DenotesItems(RoundedItems(a.rest, round)) && v[1..] == DenotesItems(a.rest);
    }
  }

  lemma {:induction false} RoundedMembersFacts(a: BMembers, round: Rounding)
    requires ParsedMembers(a) && RoundsOnce(round)
    ensures var b := RoundedMembers(a, round);
            && BKeys(b) == BKeys(a) && ParsedMembers(b) && RoundedMembers(b, round) == b
            && (DenotesMembers(b) == DenotesMembers(a) ==> b == a)
    decreases a, 0
  {
    if a.BMember? {
      RoundedFacts(a.value, round);
      RoundedMembersFacts(a.rest, round);
      var u, v := DenotesMembers(RoundedMembers(a, round)), DenotesMembers(a);
      assert u == v ==> u[a.key] == v[a.key];
      var n := DenotesMembers(RoundedMembers(a.rest, round));
      KeysOfDenotes(RoundedMembers(a.rest, round));
      KeysOfDenotes(a.rest);
      assert u - {a.key} == n && v - {a.key} == DenotesMembers(a.rest);
    }
  }

  lemma {:induction false} KeysOfDenotes(a: BMembers)
    ensures DenotesMembers(a).Keys == BKeys(a)
  {
    if a.BMember? {
      KeysOfDenotes(a.rest);
    }
  }
}
