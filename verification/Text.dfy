/** Searching a string and cutting it into lines. */
module Text {
  import opened Common

  predicate OccursAt(s: string, m: string, i: int) {
    0 <= i <= |s| - |m| && s[i..i + |m|] == m
  }

  ghost predicate Contains(s: string, m: string) {
    exists i :: OccursAt(s, m, i)
  }

  /** The first position of `m` in `s` at or after `from`. */
  function IndexOf(s: string, m: string, from: nat := 0): (r: Option<nat>)
    ensures r.Some? ==> r.value + |m| <= |s|
    decreases |s| - from
  {
    if from + |m| > |s| then None
    else if OccursAt(s, m, from) then Some(from)
    else IndexOf(s, m, from + 1)
  }

  lemma {:induction false} IndexOfIsFirst(s: string, m: string, from: nat)
    ensures var r := IndexOf(s, m, from);
            && (r.Some? ==> from <= r.value && OccursAt(s, m, r.value))
            && forall j | from <= j < (if r.Some? then r.value else |s| + 1) :: !OccursAt(s, m, j)
    decreases |s| - from
  {
    if from + |m| <= |s| && !OccursAt(s, m, from) {
      IndexOfIsFirst(s, m, from + 1);
    }
  }

  lemma IndexOfIs(s: string, m: string, i: nat)
    requires OccursAt(s, m, i) && forall j | 0 <= j < i :: !OccursAt(s, m, j)
    ensures IndexOf(s, m) == Some(i)
  {
    IndexOfIsFirst(s, m, 0);
  }

  lemma IndexOfMissing(s: string, m: string)
    ensures IndexOf(s, m).None? <==> !Contains(s, m)
  {
    IndexOfIsFirst(s, m, 0);
  }

  lemma OccursInSuffix(s: string, m: string, k: nat, i: int)
    requires k <= |s| && i >= 0
    ensures OccursAt(s[k..], m, i) <==> OccursAt(s, m, i + k)
  {
    if i + |m| <= |s| - k {
      assert s[k..][i..i + |m|] == s[i + k..i + k + |m|];
    }
  }

  /** Cutting a text in front of the first match moves the match; a text without a match stays without. */
  lemma IndexOfSuffix(s: string, m: string, k: nat)
    requires k <= |s|
    ensures var i := IndexOf(s, m);
            && (i.Some? && k <= i.value ==> IndexOf(s[k..], m) == Some(i.value - k))
            && (i.None? ==> IndexOf(s[k..], m).None?)
  {
    hide IndexOf, OccursAt;
    var i := IndexOf(s, m);
    IndexOfIsFirst(s, m, 0);
    IndexOfIsFirst(s[k..], m, 0);
    forall j | 0 <= j ensures OccursAt(s[k..], m, j) <==> OccursAt(s, m, j + k) {
      OccursInSuffix(s, m, k, j);
    }
    if i.Some? && k <= i.value {
      assert OccursAt(s[k..], m, i.value - k);
    }
  }

  // ----- lines -----

  predicate NoNewline(s: string) {
    '\n' !in s
  }

  /** The length of the text up to and excluding the first newline. */
  function FirstLine(s: string): (n: nat)
    ensures n <= |s|
  {
    if s == "" || s[0] == '\n' then 0 else 1 + FirstLine(s[1..])
  }

  lemma {:induction false} FirstLineStops(s: string)
    ensures var n := FirstLine(s);
            && (n < |s| ==> s[n] == '\n')
            && NoNewline(s[..n])
            && forall i | 0 <= i < n :: s[i] != '\n'
  {
    if s != "" && s[0] != '\n' {
      FirstLineStops(s[1..]);
      var n := FirstLine(s);
      assert forall i | 0 < i < n :: s[i] == s[1..][i - 1];
    }
  }

  lemma FirstLineIs(a: string, b: string)
    requires NoNewline(a)
    ensures FirstLine(a + "\n" + b) == |a|
  {
    var s := a + "\n" + b;
    assert s[|a|] == '\n' && forall i | 0 <= i < |a| :: s[i] == a[i] && a[i] in a;
    FirstLineStops(s);
  }

  lemma NoFirstLine(a: string)
    requires NoNewline(a)
    ensures FirstLine(a) == |a|
  {
    assert forall i | 0 <= i < |a| :: a[i] in a;
    FirstLineStops(a);
  }

  /** The newline-terminated lines of a text, without their newlines. */
  function CompleteLines(s: string): seq<string> {
    var n := FirstLine(s);
    if n == |s| then [] else [s[..n]] + CompleteLines(s[n + 1..])
  }

  /** The text after the last newline. */
  function Remainder(s: string): string {
    var n := FirstLine(s);
    if n == |s| then s else Remainder(s[n + 1..])
  }

  lemma {:induction false} RemainderHasNoNewline(s: string)
    ensures NoNewline(Remainder(s))
    decreases |s|
  {
    var n := FirstLine(s);
    FirstLineStops(s);
    if n == |s| {
      assert s[..n] == s;
    } else {
      RemainderHasNoNewline(s[n + 1..]);
    }
  }

  /** The text up to and including the last newline. */
  function Front(s: string): string {
    var n := FirstLine(s);
    if n == |s| then "" else s[..n + 1] + Front(s[n + 1..])
  }

  lemma {:induction false} FrontAndRemainder(s: string)
    ensures Front(s) + Remainder(s) == s
    decreases |s|
  {
    hide CompleteLines, Front, Remainder, FirstLine;
    var n := FirstLine(s);
    FirstLineStops(s);
    if n < |s| {
      var head, tail := s[..n], s[n + 1..];
      SplitLine(s, "", n);
      LinesOfOne(head, tail);
      FrontAndRemainder(tail);
      Associates(head + "\n", Front(tail), Remainder(tail));
    } else {
      LinesOfLast(s);
    }
  }

  lemma Associates(x: string, y: string, z: string)
    ensures x + y + z == x + (y + z)
  {
  }

  /** Cutting a text into lines does not depend on where the text is split first. */
  lemma {:induction false} LinesOfConcat(a: string, b: string)
    ensures CompleteLines(a + b) == CompleteLines(a) + CompleteLines(Remainder(a) + b)
    ensures Remainder(a + b) == Remainder(Remainder(a) + b)
    decreases |a|
  {
    hide CompleteLines, Front, Remainder, FirstLine;
    var n := FirstLine(a);
    FirstLineStops(a);
    if n < |a| {
      var head, tail := a[..n], a[n + 1..];
      SplitLine(a, b, n);
      LinesOfOne(head, tail);
      LinesOfOne(head, tail + b);
      LinesOfConcat(tail, b);
    } else {
      LinesOfLast(a);
      assert [] + CompleteLines(a + b) == CompleteLines(a + b);
    }
  }

  lemma LinesOfLast(a: string)
    requires FirstLine(a) == |a|
    ensures CompleteLines(a) == [] && Remainder(a) == a && Front(a) == ""
  {
  }

  lemma SplitLine(a: string, b: string, n: nat)
    requires n < |a| && a[n] == '\n'
    ensures a == a[..n] + "\n" + a[n + 1..] && a + b == a[..n] + "\n" + (a[n + 1..] + b)
  {
  }

  lemma LinesOfOne(a: string, b: string)
    requires NoNewline(a)
    ensures CompleteLines(a + "\n" + b) == [a] + CompleteLines(b)
    ensures Remainder(a + "\n" + b) == Remainder(b)
    ensures Front(a + "\n" + b) == a + "\n" + Front(b)
  {
    FirstLineIs(a, b);
    var s := a + "\n" + b;
    assert s[..|a|] == a && s[|a| + 1..] == b && s[..|a| + 1] == a + "\n";
  }
}
