/**
 Keyset pagination end to end: the server's `paginate` and the CLI loop that fetches every page,
 with the list changing between pages. `compare` stands for `localeCompare` and may identify
 different strings; items of one list have pairwise distinguishable positions.
 */
module Pagination {
  import opened Common

  const DEFAULT_PAGE_SIZE := 100
  const MAX_PAGE_SIZE := 500

  datatype Position = Position(key: string, tiebreak: string)

  datatype Item = Item(position: Position, content: string)

  type Collation = (string, string) -> int

  /** A total preorder on strings. */
  ghost predicate TotalPreorder(compare: Collation) {
    && (forall a, b :: compare(a, b) < 0 <==> compare(b, a) > 0)
    && (forall a, b, c :: compare(a, b) <= 0 && compare(b, c) <= 0 ==> compare(a, c) <= 0)
  }

  /** `btoa` refuses characters above U+00FF. */
  predicate Encodable(p: Position) {
    forall c | c in p.key + p.tiebreak :: c <= '\U{00FF}'
  }

  /** The opaque cursor text, when the position is encodable, and its reader; `None` is an invalid cursor. */
  datatype Codec = Codec(encode: Position -> Option<string>, decode: string -> Option<Position>)

  ghost predicate Faithful(codec: Codec) {
    forall p ::
      if Encodable(p)
      then codec.encode(p).Some? && codec.encode(p).value != "" && codec.decode(codec.encode(p).value) == Some(p)
      else codec.encode(p).None?
  }

  // ----- the descending order -----

  /** The sign that the sort comparator returns for two items. */
  function Comparator(a: Position, b: Position, compare: Collation): int {
    var byKey := compare(b.key, a.key);
    if byKey != 0 then byKey else compare(b.tiebreak, a.tiebreak)
  }

  /** `p` comes strictly after `q` in a listing: a smaller key, or an equal key and a smaller tiebreak. */
  predicate After(p: Position, q: Position, compare: Collation) {
    var byKey := compare(p.key, q.key);
    if byKey != 0 then byKey < 0 else compare(p.tiebreak, q.tiebreak) < 0
  }

  /** The boundary test of a cursor agrees with the sort. */
  lemma AfterMatchesComparator(p: Position, q: Position, compare: Collation)
    requires TotalPreorder(compare)
    ensures After(p, q, compare) <==> Comparator(q, p, compare) < 0
    ensures !(After(p, q, compare) && After(q, p, compare))
  {
  }

  lemma AfterTransitive(p: Position, q: Position, r: Position, compare: Collation)
    requires TotalPreorder(compare) && After(p, q, compare) && After(q, r, compare)
    ensures After(p, r, compare)
  {
    assert compare(p.key, r.key) <= 0;
    assert compare(p.key, r.key) == 0 ==>
          compare(r.key, p.key) <= 0 && compare(q.key, p.key) <= 0 && compare(r.key, q.key) <= 0;
    assert compare(p.tiebreak, q.tiebreak) <= 0 && compare(q.tiebreak, r.tiebreak) <= 0 ==>
          compare(p.tiebreak, r.tiebreak) <= 0;
    assert compare(r.tiebreak, p.tiebreak) <= 0 && compare(p.tiebreak, q.tiebreak) <= 0 ==>
          compare(r.tiebreak, q.tiebreak) <= 0;
  }

  ghost predicate Distinct(items: seq<Item>, compare: Collation) {
    forall i, j | 0 <= i < j < |items| ::
      After(items[i].position, items[j].position, compare) || After(items[j].position, items[i].position, compare)
  }

  ghost predicate Descending(items: seq<Item>, compare: Collation) {
    forall i, j | 0 <= i < j < |items| :: After(items[j].position, items[i].position, compare)
  }

  // ----- the server -----

  function Insert(x: Item, sorted: seq<Item>, compare: Collation): seq<Item> {
    if sorted == [] || Comparator(x.position, sorted[0].position, compare) <= 0 then [x] + sorted
    else [sorted[0]] + Insert(x, sorted[1..], compare)
  }

  function Sort(items: seq<Item>, compare: Collation): seq<Item> {
    if items == [] then [] else Insert(items[0], Sort(items[1..], compare), compare)
  }

  /** The index of the first item strictly after the cursor, or the length. */
  function FindStart(sorted: seq<Item>, cursor: Option<Position>, compare: Collation): (n: nat)
    ensures n <= |sorted|
  {
    if cursor.None? || sorted == [] || After(sorted[0].position, cursor.value, compare) then 0
    else 1 + FindStart(sorted[1..], cursor, compare)
  }

  datatype Page = Page(items: seq<Item>, next: Option<string>)

  function PageSize(limit: Option<int>): int {
    Min(if limit.Some? then limit.value else DEFAULT_PAGE_SIZE, MAX_PAGE_SIZE)
  }

  function DecodeCursor(cursor: Option<string>, codec: Codec): Result<Option<Position>> {
    if cursor.None? || cursor.value == "" then Ok(None)
    else if codec.decode(cursor.value).None? then Err("Invalid pagination cursor")
    else Ok(codec.decode(cursor.value))
  }

  function PageAt(sorted: seq<Item>, start: nat, size: nat, codec: Codec): Result<Page>
    requires start <= |sorted|
  {
    var items := sorted[start..Min(start + size, |sorted|)];
    var more := start + |items| < |sorted|;
    if !more || items == [] then Ok(Page(items, None))
    else
      var next := codec.encode(items[|items| - 1].position);
      if next.None? then Err("Invalid character") else Ok(Page(items, next))
  }

  function Paginate(all: seq<Item>, limit: Option<int>, cursor: Option<string>, compare: Collation,
                    codec: Codec): Result<Page>
    requires limit.Some? ==> limit.value > 0
  {
    var sorted := Sort(all, compare);
    match DecodeCursor(cursor, codec)
    case Err(e) => Err(e)
    case Ok(after) => PageAt(sorted, FindStart(sorted, after, compare), PageSize(limit), codec)
  }

  /** The sorted list from the first item past `from`. */
  ghost function Rest(list: seq<Item>, from: Option<Position>, compare: Collation): seq<Item> {
    Sort(list, compare)[FindStart(Sort(list, compare), from, compare)..]
  }

  // ----- sorting -----

  lemma {:induction false} InsertKeeps(x: Item, l: seq<Item>, compare: Collation)
    ensures multiset(Insert(x, l, compare)) == multiset(l) + multiset{x}
  {
    if l != [] && Comparator(x.position, l[0].position, compare) > 0 {
      InsertKeeps(x, l[1..], compare);
      assert l == [l[0]] + l[1..];
    }
  }

  lemma {:induction false} SortKeeps(items: seq<Item>, compare: Collation)
    ensures multiset(Sort(items, compare)) == multiset(items)
  {
    if items != [] {
      SortKeeps(items[1..], compare);
      InsertKeeps(items[0], Sort(items[1..], compare), compare);
      assert items == [items[0]] + items[1..];
    }
  }

  lemma SameMembers(a: seq<Item>, b: seq<Item>)
    requires multiset(a) == multiset(b)
    ensures forall x :: x in a <==> x in b
  {
    forall x ensures x in a <==> x in b {
      assert x in a <==> x in multiset(a);
      assert x in b <==> x in multiset(b);
    }
  }

  /** `x` is distinguishable from every item of the list. */
  ghost predicate Apart(x: Item, l: seq<Item>, compare: Collation) {
    forall y | y in l :: After(x.position, y.position, compare) || After(y.position, x.position, compare)
  }

  lemma {:induction false} InsertSorts(x: Item, l: seq<Item>, compare: Collation)
    requires TotalPreorder(compare) && Descending(l, compare) && Apart(x, l, compare)
    ensures Descending(Insert(x, l, compare), compare)
  {
    hide After, Comparator, TotalPreorder;
    var r := Insert(x, l, compare);
    if l == [] {
    } else {
      AfterMatchesComparator(l[0].position, x.position, compare);
      AfterMatchesComparator(x.position, l[0].position, compare);
      assert l[0] in l;
      if Comparator(x.position, l[0].position, compare) <= 0 {
        FirstIsAhead(x, l, compare);
      } else {
        assert forall y | y in l[1..] :: y in l;
        InsertSorts(x, l[1..], compare);
        InsertKeeps(x, l[1..], compare);
        InsertedBehind(x, l, compare);
      }
    }
  }

  lemma FirstIsAhead(x: Item, l: seq<Item>, compare: Collation)
    requires TotalPreorder(compare) && Descending(l, compare) && l != []
    requires Comparator(x.position, l[0].position, compare) <= 0 && Apart(x, l, compare)
    ensures Descending([x] + l, compare)
  {
    hide TotalPreorder;
    assert l[0] in l;
    AfterMatchesComparator(l[0].position, x.position, compare);
    AfterMatchesComparator(x.position, l[0].position, compare);
    assert After(l[0].position, x.position, compare) by { ApartFromFirst(x, l, compare); }
    forall j | 0 <= j < |l| ensures After(l[j].position, x.position, compare) {
      if j > 0 { AfterTransitive(l[j].position, l[0].position, x.position, compare); }
    }
  }

  lemma ApartFromFirst(x: Item, l: seq<Item>, compare: Collation)
    requires TotalPreorder(compare) && l != [] && Apart(x, l, compare)
    requires Comparator(x.position, l[0].position, compare) <= 0
    ensures After(l[0].position, x.position, compare)
  {
    assert l[0] in l;
  }

  lemma InsertedBehind(x: Item, l: seq<Item>, compare: Collation)
    requires l != [] && Descending(l, compare) && After(x.position, l[0].position, compare)
    requires Descending(Insert(x, l[1..], compare), compare)
    requires multiset(Insert(x, l[1..], compare)) == multiset(l[1..]) + multiset{x}
    ensures Descending([l[0]] + Insert(x, l[1..], compare), compare)
  {
    hide After;
    var r := Insert(x, l[1..], compare);
    forall j | 0 <= j < |r| ensures After(r[j].position, l[0].position, compare) {
      assert r[j] in multiset(r);
      if r[j] != x {
        assert r[j] in multiset(l[1..]);
        assert r[j] in l[1..];
      }
    }
  }

  lemma {:induction false} SortSorts(items: seq<Item>, compare: Collation)
    requires TotalPreorder(compare) && Distinct(items, compare)
    ensures Descending(Sort(items, compare), compare)
  {
    hide After, TotalPreorder;
    if items != [] {
      SortSorts(items[1..], compare);
      SortKeeps(items[1..], compare);
      SameMembers(items[1..], Sort(items[1..], compare));
      assert Apart(items[0], Sort(items[1..], compare), compare);
      InsertSorts(items[0], Sort(items[1..], compare), compare);
    }
  }

  /** A listing is newest first: keys go down, and among equal keys the tiebreaks go strictly down. */
  lemma NewestFirst(items: seq<Item>, compare: Collation, i: nat, j: nat)
    requires TotalPreorder(compare) && Distinct(items, compare) && i < j < |Sort(items, compare)|
    ensures var p, q := Sort(items, compare)[i].position, Sort(items, compare)[j].position;
            && compare(p.key, q.key) >= 0
            && (compare(p.key, q.key) == 0 ==> compare(p.tiebreak, q.tiebreak) > 0)
  {
    SortSorts(items, compare);
    hide Sort;
    var p, q := Sort(items, compare)[i].position, Sort(items, compare)[j].position;
    assert After(q, p, compare);
    assert compare(p.key, q.key) < 0 <==> compare(q.key, p.key) > 0;
    assert compare(q.tiebreak, p.tiebreak) < 0 <==> compare(p.tiebreak, q.tiebreak) > 0;
  }

  lemma SameHead(a: seq<Item>, b: seq<Item>, compare: Collation)
    requires TotalPreorder(compare) && Descending(a, compare) && Descending(b, compare) && multiset(a) == multiset(b)
    ensures |a| == |b| && (a != [] ==> a[0] == b[0])
  {
    hide After, TotalPreorder;
    SameMembers(a, b);
    assert |a| == |multiset(a)| && |b| == |multiset(b)|;
    if a != [] {
      assert a[0] in b && b[0] in a;
      AfterMatchesComparator(a[0].position, b[0].position, compare);
    }
  }

  lemma TailMultiset(a: seq<Item>)
    requires a != []
    ensures multiset(a[1..]) == multiset(a) - multiset{a[0]}
  {
    assert a == [a[0]] + a[1..];
  }

  /** Any sort gives this result: a list has only one descending arrangement. */
  lemma {:induction false} DescendingOrderIsUnique(a: seq<Item>, b: seq<Item>, compare: Collation)
    requires TotalPreorder(compare) && Descending(a, compare) && Descending(b, compare) && multiset(a) == multiset(b)
    ensures a == b
  {
    hide After, TotalPreorder;
    SameHead(a, b, compare);
    if a != [] {
      TailMultiset(a);
      TailMultiset(b);
      DescendingOrderIsUnique(a[1..], b[1..], compare);
      assert a == [a[0]] + a[1..] && b == [b[0]] + b[1..];
    }
  }

  // ----- one page -----

  /** In a descending list the items after the cursor are exactly those from the start index on. */
  lemma {:induction false} StartSplits(sorted: seq<Item>, cursor: Option<Position>, compare: Collation, i: nat)
    requires TotalPreorder(compare) && Descending(sorted, compare) && i < |sorted|
    ensures i >= FindStart(sorted, cursor, compare) <==>
            cursor.None? || After(sorted[i].position, cursor.value, compare)
  {
    hide After, TotalPreorder;
    if cursor.Some? {
      if After(sorted[0].position, cursor.value, compare) {
        if i > 0 { AfterTransitive(sorted[i].position, sorted[0].position, cursor.value, compare); }
      } else if i > 0 {
        StartSplits(sorted[1..], cursor, compare, i - 1);
      }
    }
  }

  predicate Past(x: Item, cursor: Option<Position>, compare: Collation) {
    cursor.Some? ==> After(x.position, cursor.value, compare)
  }

  /** What a page promises about the list it was read from. */
  ghost predicate PageIs(page: Page, all: seq<Item>, cursor: Option<Position>, compare: Collation, codec: Codec) {
    && Descending(page.items, compare)
    && (forall x | x in page.items :: x in all && Past(x, cursor, compare))
    && (page.next.Some? ==> page.items != [] && codec.encode(page.items[|page.items| - 1].position) == page.next)
    && (forall x | x in all && Past(x, cursor, compare) ::
          x in page.items || (page.next.Some? && After(x.position, page.items[|page.items| - 1].position, compare)))
  }

  lemma SliceDescends(sorted: seq<Item>, start: nat, end: nat, compare: Collation)
    requires Descending(sorted, compare) && start <= end <= |sorted|
    ensures Descending(sorted[start..end], compare)
  {
  }

  lemma SliceWithin(sorted: seq<Item>, cursor: Option<Position>, start: nat, end: nat, compare: Collation)
    requires start <= end <= |sorted|
    requires forall i: nat | i < |sorted| :: i >= start <==> Past(sorted[i], cursor, compare)
    ensures forall x | x in sorted[start..end] :: x in sorted && Past(x, cursor, compare)
  {
    forall x | x in sorted[start..end] ensures x in sorted && Past(x, cursor, compare) {
      var i :| 0 <= i < end - start && sorted[start..end][i] == x;
      assert sorted[start + i] == x;
    }
  }

  lemma SliceCovers(sorted: seq<Item>, cursor: Option<Position>, start: nat, end: nat, compare: Collation)
    requires Descending(sorted, compare) && start < end <= |sorted|
    requires forall i: nat | i < |sorted| :: i >= start <==> Past(sorted[i], cursor, compare)
    ensures forall x | x in sorted && Past(x, cursor, compare) ::
              x in sorted[start..end] || (end < |sorted| && After(x.position, sorted[end - 1].position, compare))
  {
    hide After, Past;
    forall x | x in sorted && Past(x, cursor, compare)
      ensures x in sorted[start..end] || (end < |sorted| && After(x.position, sorted[end - 1].position, compare))
    {
      var i: nat :| i < |sorted| && sorted[i] == x;
      assert Past(sorted[i], cursor, compare);
      if i < end { assert sorted[start..end][i - start] == x; }
    }
  }

  lemma PageAtIs(sorted: seq<Item>, cursor: Option<Position>, start: nat, size: nat, compare: Collation, codec: Codec)
    requires Descending(sorted, compare) && start <= |sorted| && size > 0
    requires forall i: nat | i < |sorted| :: i >= start <==> Past(sorted[i], cursor, compare)
    ensures match PageAt(sorted, start, size, codec)
            case Ok(page) => PageIs(page, sorted, cursor, compare, codec)
            case Err(_) => exists x :: x in sorted && codec.encode(x.position).None?
  {
    hide After, Past, Descending;
    var end := Min(start + size, |sorted|);
    SliceDescends(sorted, start, end, compare);
    SliceWithin(sorted, cursor, start, end, compare);
    if start < end {
      SliceCovers(sorted, cursor, start, end, compare);
      assert sorted[end - 1] in sorted;
    }
  }

  /** A page holds only items past the cursor, and every such item is on it or beyond its last one. */
  lemma PaginateIs(all: seq<Item>, limit: Option<int>, cursor: Option<string>, compare: Collation, codec: Codec)
    requires limit.Some? ==> limit.value > 0
    requires TotalPreorder(compare) && Distinct(all, compare)
    ensures match Paginate(all, limit, cursor, compare, codec)
            case Ok(page) => DecodeCursor(cursor, codec).Ok?
                  && PageIs(page, all, DecodeCursor(cursor, codec).value, compare, codec)
            case Err(_) => DecodeCursor(cursor, codec).Err? || exists x :: x in all && codec.encode(x.position).None?
  {
    hide After, TotalPreorder, Sort, FindStart, PageAt, Distinct, Descending;
    var sorted := Sort(all, compare);
    SortSorts(all, compare);
    SortKeeps(all, compare);
    SameMembers(sorted, all);
    if DecodeCursor(cursor, codec).Ok? {
      var after := DecodeCursor(cursor, codec).value;
      var start := FindStart(sorted, after, compare);
      forall i: nat | i < |sorted| ensures i >= start <==> Past(sorted[i], after, compare) {
        StartSplits(sorted, after, compare, i);
      }
      PageAtIs(sorted, after, start, PageSize(limit), compare, codec);
    }
  }

  /**
   A request fails if and only if its cursor is invalid, or a further page is needed and the last item
   of this one has a character that `btoa` refuses.
   */
  lemma PaginateFailsExactly(all: seq<Item>, limit: Option<int>, cursor: Option<string>, compare: Collation,
                             codec: Codec)
    requires limit.Some? ==> limit.value > 0
    requires Faithful(codec)
    ensures var after := DecodeCursor(cursor, codec);
            Paginate(all, limit, cursor, compare, codec).Err? <==>
              after.Err? ||
              var rest := Rest(all, after.value, compare);
              0 < PageSize(limit) < |rest| && !Encodable(rest[PageSize(limit) - 1].position)
  {
    hide Encodable, Sort, FindStart;
    var after := DecodeCursor(cursor, codec);
    if after.Ok? {
      var sorted := Sort(all, compare);
      var start := FindStart(sorted, after.value, compare);
      var none: seq<Item> := [];
      assert sorted[start..][..0] == none;
      PageContinues(sorted, start, none, PageSize(limit), codec);
    }
  }

  /** An absent or empty cursor starts at the top; any other must read as a position. */
  lemma CursorMeans(cursor: Option<string>, codec: Codec)
    ensures var none := cursor.None? || cursor == Some("");
            && (none ==> DecodeCursor(cursor, codec) == Ok(None))
            && (!none && codec.decode(cursor.value).Some? ==>
                  DecodeCursor(cursor, codec) == Ok(codec.decode(cursor.value)))
            && (!none && codec.decode(cursor.value).None? ==> DecodeCursor(cursor, codec).Err?)
  {
  }

  /** The size of a page: what was asked for, or 100, but never more than 500. */
  predicate SizeFor(limit: Option<int>, size: int) {
    match limit
    case None => size == 100
    case Some(n) => if n <= 500 then size == n else size == 500
  }

  /**
   A page takes as many of the items past the cursor as its size allows, in descending order: it is
   full whenever there is a next page, and there is a next page exactly when items are left over.
   */
  lemma PageIsFilled(all: seq<Item>, limit: Option<int>, cursor: Option<string>, compare: Collation, codec: Codec)
    returns (size: nat)
    requires limit.Some? ==> limit.value > 0
    requires Faithful(codec) && Paginate(all, limit, cursor, compare, codec).Ok?
    ensures SizeFor(limit, size) && DecodeCursor(cursor, codec).Ok?
    ensures var page := Paginate(all, limit, cursor, compare, codec).value;
            var rest := Rest(all, DecodeCursor(cursor, codec).value, compare);
            if |rest| > size then page.items == rest[..size] && page.next.Some?
            else page.items == rest && page.next.None?
  {
    hide Encodable, Sort, FindStart;
    size := PageSize(limit);
    var sorted := Sort(all, compare);
    var start := FindStart(sorted, DecodeCursor(cursor, codec).value, compare);
    var none: seq<Item> := [];
    assert sorted[start..][..0] == none;
    PageContinues(sorted, start, none, size, codec);
    var page := Paginate(all, limit, cursor, compare, codec).value;
    assert none + page.items == page.items;
  }

  /** A collation: longer strings are larger. */
  const ByLength: Collation := (a: string, b: string) => |a| - |b|

  /** Two items on pages of one, the first with a Greek letter in its key: the first request fails. */
  lemma GreekKeyFails(codec: Codec)
    requires Faithful(codec)
    ensures var x, y := Item(Position(['\U{0394}', 'x'], "1"), ""), Item(Position("y", "2"), "");
            && TotalPreorder(ByLength) && Distinct([x, y], ByLength)
            && Paginate([x, y], Some(1), None, ByLength, codec).Err?
  {
    var x, y := Item(Position(['\U{0394}', 'x'], "1"), ""), Item(Position("y", "2"), "");
    assert Sort([y], ByLength) == [y] by { assert [y][1..] == []; }
    assert Sort([x, y], ByLength) == [x, y] by { assert [x, y][1..] == [y]; }
    assert !Encodable(x.position) by { assert '\U{0394}' in x.position.key + x.position.tiebreak; }
    assert Rest([x, y], None, ByLength) == [x, y];
    PaginateFailsExactly([x, y], Some(1), None, ByLength, codec);
  }

  // ----- fetching every page -----

  datatype Ending = Finished | RepeatedCursor | Rejected | ListsExhausted

  /** The item occurs in every list from which a page was read. */
  ghost predicate InAll(x: Item, lists: seq<seq<Item>>, n: nat)
    requires n <= |lists|
  {
    forall k | 0 <= k < n :: x in lists[k]
  }

  /** The loop's place: where it started, or the last item returned so far. */
  ghost predicate Place(items: seq<Item>, from: Option<Position>, last: Option<Position>) {
    if items == [] then last == from else last == Some(items[|items| - 1].position)
  }

  /** What has been returned after `n` pages, when the next one continues at `last`, if any. */
  ghost predicate Progress(items: seq<Item>, lists: seq<seq<Item>>, n: nat, from: Option<Position>,
                           last: Option<Position>, compare: Collation) {
    && n <= |lists|
    && Descending(items, compare)
    && (forall x | x in items :: Past(x, from, compare) && exists k :: 0 <= k < n && x in lists[k])
    && (n > 0 ==>
          forall x | InAll(x, lists, n) && Past(x, from, compare) ::
                x in items || (last.Some? && Past(x, last, compare)))
  }

  ghost function NextPlace(page: Page): Option<Position> {
    if page.next.Some? && page.items != [] then Some(page.items[|page.items| - 1].position) else None
  }

  lemma PageExtends(items: seq<Item>, lists: seq<seq<Item>>, n: nat, from: Option<Position>, last: Option<Position>,
                    page: Page, compare: Collation, codec: Codec)
    requires TotalPreorder(compare) && n < |lists| && Progress(items, lists, n, from, last, compare)
    requires Place(items, from, last) && (n == 0 <==> items == [])
    requires PageIs(page, lists[n], last, compare, codec)
    ensures Progress(items + page.items, lists, n + 1, from, NextPlace(page), compare)
    ensures Descending(items + page.items, compare)
    ensures page.next.Some? ==> page.items != [] && codec.encode(page.items[|page.items| - 1].position) == page.next
  {
    var next := NextPlace(page);
    hide TotalPreorder, After, Descending;
    PageIsBehind(items, from, last, page, lists[n], compare, codec);
    var all := items + page.items;
    forall x | InAll(x, lists, n + 1) && Past(x, from, compare)
      ensures x in all || (next.Some? && Past(x, next, compare))
    {
      assert x in lists[n];
      assert InAll(x, lists, n);
    }
    forall x | x in all ensures exists k :: 0 <= k < n + 1 && x in lists[k] {
      if x in items {
        var k :| 0 <= k < n && x in lists[k];
        assert x in lists[k];
      } else {
        assert x in lists[n];
      }
    }
  }

  lemma PageIsBehind(items: seq<Item>, from: Option<Position>, last: Option<Position>, page: Page, list: seq<Item>,
                     compare: Collation, codec: Codec)
    requires TotalPreorder(compare) && Descending(items, compare) && PageIs(page, list, last, compare, codec)
    requires Place(items, from, last) && forall x | x in items :: Past(x, from, compare)
    ensures Descending(items + page.items, compare)
    ensures forall x | x in page.items :: Past(x, from, compare)
  {
    hide TotalPreorder, After;
    var all := items + page.items;
    forall i, j | 0 <= i < j < |all| ensures After(all[j].position, all[i].position, compare) {
      if i < |items| <= j {
        assert Past(page.items[j - |items|], last, compare);
        if i < |items| - 1 {
          AfterTransitive(all[j].position, last.value, all[i].position, compare);
        }
      }
    }
    forall x | x in page.items ensures Past(x, from, compare) {
      assert Past(x, last, compare);
      if items != [] && from.Some? {
        assert Past(items[|items| - 1], from, compare);
        AfterTransitive(x.position, last.value, from.value, compare);
      }
    }
  }

  /** Every page is read from one list. */
  ghost predicate Fixed(lists: seq<seq<Item>>) {
    lists != [] && forall k | 0 <= k < |lists| :: lists[k] == lists[0]
  }

  /** The number of items on the first `k` full pages. */
  function Boundary(k: nat, size: nat): (b: nat)
    ensures size > 0 ==> k <= b
    ensures k == 0 ==> b == 0
  {
    if k == 0 then 0 else Boundary(k - 1, size) + size
  }

  /** The last items of the first `n` pages that are not the final one can be written as cursors. */
  ghost predicate CursorsUpTo(rest: seq<Item>, size: nat, n: nat)
    requires size > 0
  {
    forall k: nat | 0 < k <= n && Boundary(k, size) < |rest| :: Encodable(rest[Boundary(k, size) - 1].position)
  }

  ghost predicate AllCursors(rest: seq<Item>, size: nat)
    requires size > 0
  {
    forall k: nat | 0 < k && Boundary(k, size) < |rest| :: Encodable(rest[Boundary(k, size) - 1].position)
  }

  lemma NextBoundary(rest: seq<Item>, size: nat, n: nat)
    requires size > 0 && CursorsUpTo(rest, size, n)
    ensures Boundary(n + 1, size) == Boundary(n, size) + size
    ensures Boundary(n + 1, size) >= |rest| ==> AllCursors(rest, size)
    ensures Boundary(n + 1, size) < |rest| && Encodable(rest[Boundary(n + 1, size) - 1].position) ==>
          CursorsUpTo(rest, size, n + 1)
    ensures Boundary(n + 1, size) < |rest| && !Encodable(rest[Boundary(n + 1, size) - 1].position) ==>
          !AllCursors(rest, size)
  {
    hide Encodable;
    forall k: nat | k > n ensures Boundary(k, size) >= Boundary(n + 1, size) { BoundaryGrows(n + 1, k, size); }
  }

  lemma {:induction false} BoundaryGrows(a: nat, b: nat, size: nat)
    requires a <= b
    ensures Boundary(a, size) <= Boundary(b, size)
  {
    if a < b { BoundaryGrows(a, b - 1, size); }
  }

  /**
   The CLI's `--all` loop, from an optional starting cursor; page `k` is read from `lists[k]`.
   The concatenated pages are strictly descending, so nothing repeats. When the loop finishes, every
   item past the start that was present in all the lists it read has been returned. The
   repeated-cursor error never fires.
   */
  method FetchAll(lists: seq<seq<Item>>, start: Option<string>, limit: Option<int>, compare: Collation, codec: Codec)
    returns (items: seq<Item>, ending: Ending, pages: nat)
    requires limit.Some? ==> limit.value > 0
    requires TotalPreorder(compare) && Faithful(codec)
    requires forall k | 0 <= k < |lists| :: Distinct(lists[k], compare)
    ensures pages <= |lists| && ending != RepeatedCursor
    ensures Descending(items, compare)
    ensures forall x | x in items :: exists k :: 0 <= k < pages && x in lists[k]
    ensures DecodeCursor(start, codec).Ok? ==>
              forall x | x in items :: Past(x, DecodeCursor(start, codec).value, compare)
    ensures ending == Finished ==>
              && pages > 0 && DecodeCursor(start, codec).Ok?
              && forall x | InAll(x, lists, pages) && Past(x, DecodeCursor(start, codec).value, compare) :: x in items
    ensures ending == Rejected ==>
              && pages < |lists|
              && (DecodeCursor(start, codec).Err? || exists x :: x in lists[pages] && !Encodable(x.position))
    ensures ending == ListsExhausted ==> pages == |lists|
    // A list that does not change is enumerated completely, in descending order, if and only if every
    // page boundary can be written as a cursor; otherwise a request fails.
    ensures Fixed(lists) && |lists| > |lists[0]| && DecodeCursor(start, codec).Ok? ==>
              var rest := Rest(lists[0], DecodeCursor(start, codec).value, compare);
              && (ending == Finished || ending == Rejected)
              && (ending == Finished <==> AllCursors(rest, PageSize(limit)))
              && (ending == Finished ==> items == rest)
  {
    hide After, TotalPreorder, Sort, FindStart, PageAt, Distinct, Past, Encodable, Rest, Descending, Paginate, Seen,
         PageIs, Progress, DecodeCursor, IsPrefix, Boundary, CursorsUpTo, AllCursors, PageSize;
    items, pages := [], 0;
    var cursor := start;
    var seen: set<string> := {};
    ghost var from := if DecodeCursor(start, codec).Ok? then DecodeCursor(start, codec).value else None;
    ghost var last := from;
    ghost var size := PageSize(limit);
    SizeIsPositive(limit);
    NothingYet(lists, from, size, compare, codec);
    while pages < |lists|
      invariant pages <= |lists|
      invariant Progress(items, lists, pages, from, last, compare)
      invariant Place(items, from, last) && (pages == 0 <==> items == [])
      invariant if pages == 0 then cursor == start else DecodeCursor(cursor, codec) == Ok(last)
      invariant pages > 0 ==> DecodeCursor(start, codec).Ok?
      invariant Seen(seen, items, codec)
      invariant Fixed(lists) ==> FixedProgress(items, pages, lists[0], from, size, compare)
    {
      PaginateIs(lists[pages], limit, cursor, compare, codec);
      var response := Paginate(lists[pages], limit, cursor, compare, codec);
      if Fixed(lists) && DecodeCursor(cursor, codec).Ok? {
        NextPageOfFixedList(lists[pages], limit, items, pages, from, last, cursor, compare, codec);
      }
      if response.Err? {
        ProgressMeans(items, lists, pages, from, last, compare);
        return items, Rejected, pages;
      }
      var page := response.value;
      PageExtends(items, lists, pages, from, last, page, compare, codec);
      ghost var before := items;
      items := items + page.items;
      pages := pages + 1;
      cursor := page.next;
      if cursor.None? {
        ProgressMeans(items, lists, pages, from, None, compare);
        return items, Finished, pages;
      }
      NextIsNew(before, page.items, seen, cursor.value, compare, codec);
      if cursor.value in seen { return items, RepeatedCursor, pages; }
      seen := seen + {cursor.value};
      last := NextPlace(page);
    }
    ProgressMeans(items, lists, pages, from, last, compare);
    if Fixed(lists) { FixedProgressBound(items, pages, lists[0], from, size, compare); }
    return items, ListsExhausted, pages;
  }

  lemma ProgressMeans(items: seq<Item>, lists: seq<seq<Item>>, n: nat, from: Option<Position>, last: Option<Position>,
                      compare: Collation)
    requires Progress(items, lists, n, from, last, compare)
    ensures Descending(items, compare)
    ensures forall x | x in items :: Past(x, from, compare) && exists k :: 0 <= k < n && x in lists[k]
    ensures last.None? && n > 0 ==> forall x | InAll(x, lists, n) && Past(x, from, compare) :: x in items
  {
  }

  /** Reading one list: the first `n` pages are full, their cursors could be written, and more follows. */
  ghost predicate FixedProgress(items: seq<Item>, n: nat, list: seq<Item>, from: Option<Position>, size: nat,
                                compare: Collation)
    requires size > 0
  {
    var rest := Rest(list, from, compare);
    && IsPrefix(items, rest) && |items| == Boundary(n, size) && CursorsUpTo(rest, size, n)
    && (n > 0 ==> |items| < |rest|)
  }

  lemma FixedProgressBound(items: seq<Item>, n: nat, list: seq<Item>, from: Option<Position>, size: nat,
                           compare: Collation)
    requires size > 0 && FixedProgress(items, n, list, from, size, compare)
    ensures n == 0 || n < |list|
  {
    hide Sort, FindStart;
    SortLength(list, compare);
  }

  lemma SizeIsPositive(limit: Option<int>)
    requires limit.Some? ==> limit.value > 0
    ensures PageSize(limit) > 0
  {
  }

  lemma NothingYet(lists: seq<seq<Item>>, from: Option<Position>, size: nat, compare: Collation, codec: Codec)
    requires size > 0
    ensures Progress([], lists, 0, from, from, compare) && Seen({}, [], codec)
    ensures lists != [] ==> FixedProgress([], 0, lists[0], from, size, compare)
  {
  }

  ghost predicate IsPrefix(a: seq<Item>, b: seq<Item>) {
    |a| <= |b| && b[..|a|] == a
  }

  /** Every cursor received so far is the position of some returned item. */
  ghost predicate Seen(seen: set<string>, items: seq<Item>, codec: Codec) {
    forall c | c in seen :: exists j :: 0 <= j < |items| && codec.encode(items[j].position) == Some(c)
  }

  lemma SortLength(items: seq<Item>, compare: Collation)
    ensures |Sort(items, compare)| == |items|
  {
    SortKeeps(items, compare);
    assert |multiset(items)| == |items| && |multiset(Sort(items, compare))| == |Sort(items, compare)|;
  }

  /** The cursor of a page was never received before: its position is new, and it reads back. */
  lemma NextIsNew(items: seq<Item>, more: seq<Item>, seen: set<string>, cursor: string, compare: Collation,
                  codec: Codec)
    requires TotalPreorder(compare) && Faithful(codec) && Descending(items + more, compare) && more != []
    requires codec.encode(more[|more| - 1].position) == Some(cursor)
    requires Seen(seen, items, codec)
    ensures cursor !in seen
    ensures Seen(seen + {cursor}, items + more, codec)
    ensures DecodeCursor(Some(cursor), codec) == Ok(Some(more[|more| - 1].position))
  {
    var all := items + more;
    var p := more[|more| - 1].position;
    assert all[|all| - 1].position == p;
    forall c | c in seen ensures c != cursor && exists j :: 0 <= j < |all| && codec.encode(all[j].position) == Some(c) {
      var j :| 0 <= j < |items| && codec.encode(items[j].position) == Some(c);
      assert all[j] == items[j];
      AfterMatchesComparator(p, all[j].position, compare);
    }
  }

  /** Reading an unchanged list, each page continues the sorted list where the last one stopped. */
  lemma NextPageOfFixedList(list: seq<Item>, limit: Option<int>, items: seq<Item>, n: nat,
                            from: Option<Position>, last: Option<Position>, cursor: Option<string>,
                            compare: Collation, codec: Codec)
    requires limit.Some? ==> limit.value > 0
    requires PageSize(limit) > 0
    requires TotalPreorder(compare) && Faithful(codec) && Distinct(list, compare)
    requires FixedProgress(items, n, list, from, PageSize(limit), compare) && Place(items, from, last)
    requires DecodeCursor(cursor, codec) == Ok(last)
    ensures var rest := Rest(list, from, compare);
            match Paginate(list, limit, cursor, compare, codec)
            case Err(_) => !AllCursors(rest, PageSize(limit))
            case Ok(page) =>
              if page.next.Some? then FixedProgress(items + page.items, n + 1, list, from, PageSize(limit), compare)
              else items + page.items == rest && AllCursors(rest, PageSize(limit))
  {
    hide After, TotalPreorder, Sort, FindStart, Distinct, Descending, Encodable, Paginate, PageSize, PageAt, PageIs,
         Rest, Boundary, CursorsUpTo, AllCursors;
    var sorted, size := Sort(list, compare), PageSize(limit);
    SortSorts(list, compare);
    var start := FindStart(sorted, from, compare);
    RestAt(list, items, from, compare);
    if items != [] { StartAfterPrefix(sorted, start + |items|, last, compare); }
    PaginateAt(list, limit, cursor, start + |items|, compare, codec);
    PageContinues(sorted, start, items, size, codec);
    NextBoundary(sorted[start..], size, n);
  }

  lemma RestAt(list: seq<Item>, items: seq<Item>, from: Option<Position>, compare: Collation)
    requires IsPrefix(items, Rest(list, from, compare))
    ensures var sorted := Sort(list, compare);
            var start := FindStart(sorted, from, compare);
            && Rest(list, from, compare) == sorted[start..]
            && start + |items| <= |sorted| && sorted[start..][..|items|] == items
            && (items != [] ==> sorted[start + |items| - 1] == items[|items| - 1])
  {
    hide Sort, FindStart;
    var rest := Rest(list, from, compare);
    assert items != [] ==> rest[..|items|][|items| - 1] == rest[|items| - 1];
  }

  lemma PaginateAt(list: seq<Item>, limit: Option<int>, cursor: Option<string>, start: nat, compare: Collation,
                   codec: Codec)
    requires limit.Some? ==> limit.value > 0
    requires DecodeCursor(cursor, codec).Ok?
    requires FindStart(Sort(list, compare), DecodeCursor(cursor, codec).value, compare) == start
    ensures PageSize(limit) > 0 && start <= |Sort(list, compare)|
    ensures Paginate(list, limit, cursor, compare, codec) == PageAt(Sort(list, compare), start, PageSize(limit), codec)
  {
  }

  lemma PageContinues(sorted: seq<Item>, start: nat, items: seq<Item>, size: nat, codec: Codec)
    requires start + |items| <= |sorted| && sorted[start..][..|items|] == items && size > 0 && Faithful(codec)
    ensures var rest, n := sorted[start..], |items| + size;
            match PageAt(sorted, start + |items|, size, codec)
            case Err(_) => n < |rest| && !Encodable(rest[n - 1].position)
            case Ok(page) =>
              if page.next.Some? then n < |rest| && Encodable(rest[n - 1].position) && items + page.items == rest[..n]
              else n >= |rest| && items + page.items == rest
  {
    hide Encodable;
    var rest := sorted[start..];
    var end := Min(start + |items| + size, |sorted|);
    assert items + sorted[start + |items|..end] == rest[..end - start];
    if start + |items| + size < |sorted| {
      assert sorted[start + |items|..end][size - 1] == rest[|items| + size - 1];
    }
  }

  lemma StartAfterPrefix(sorted: seq<Item>, n: nat, last: Option<Position>, compare: Collation)
    requires TotalPreorder(compare) && Descending(sorted, compare) && 0 < n <= |sorted|
    requires last == Some(sorted[n - 1].position)
    ensures FindStart(sorted, last, compare) == n
  {
    hide TotalPreorder;
    AfterMatchesComparator(last.value, last.value, compare);
    StartSplits(sorted, last, compare, n - 1);
    if n < |sorted| { StartSplits(sorted, last, compare, n); }
  }
}
