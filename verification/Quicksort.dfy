/** `Quicksort.c`: partition by two scans without bounds tests, then recursion on the two
    crossed index ranges. */
module Quicksort {

  ghost predicate Sorted(a: array<int>, l: int, r: int)
    requires 0 <= l && r < a.Length
    reads a
  {
    forall i, j :: l <= i < j <= r ==> a[i] <= a[j]
  }

  ghost predicate AtMost(s: seq<int>, p: nat, q: int, x: int)
    requires q < |s|
  {
    forall k :: p <= k <= q ==> s[k] <= x
  }

  ghost predicate AtLeast(s: seq<int>, p: nat, q: int, x: int)
    requires q < |s|
  {
    forall k :: p <= k <= q ==> s[k] >= x
  }

  /** Rearranging a part keeps bounds on it. */
  lemma BoundsKept(s: seq<int>, t: seq<int>, p: nat, q: nat, x: int)
    requires p <= q < |s| == |t| && multiset(s[p..q + 1]) == multiset(t[p..q + 1])
    ensures AtMost(s, p, q, x) ==> AtMost(t, p, q, x)
    ensures AtLeast(s, p, q, x) ==> AtLeast(t, p, q, x)
  {
    forall k | p <= k <= q
      ensures exists i :: p <= i <= q && s[i] == t[k]
    {
      assert t[k] == t[p..q + 1][k - p];
      assert t[k] in multiset(s[p..q + 1]);
      var i :| 0 <= i < q + 1 - p && s[p..q + 1][i] == t[k];
      assert s[p + i] == t[k];
    }
  }

  function Swap(s: seq<int>, i: nat, j: nat): seq<int>
    requires i < |s| && j < |s|
  {
    s[i := s[j]][j := s[i]]
  }

  lemma SwapKept(s: seq<int>, i: nat, j: nat)
    requires i < |s| && j < |s|
    ensures multiset(Swap(s, i, j)) == multiset(s)
  {
  }

  lemma SwapInside(s: seq<int>, i: nat, j: nat, l: nat, r: nat)
    requires l <= i <= j <= r < |s|
    ensures multiset(Swap(s, i, j)[l..r + 1]) == multiset(s[l..r + 1])
  {
    SwapKept(s[l..r + 1], i - l, j - l);
    assert Swap(s, i, j)[l..r + 1] == Swap(s[l..r + 1], i - l, j - l);
  }

  method Exchange(a: array<int>, i: int, j: int, ghost l: int, ghost r: int)
    requires 0 <= l <= i <= j <= r < a.Length
    modifies a
    ensures a[i] == old(a[j]) && a[j] == old(a[i])
    ensures forall k :: 0 <= k < a.Length && k != i && k != j ==> a[k] == old(a[k])
    ensures multiset(a[l..r + 1]) == old(multiset(a[l..r + 1]))
  {
    ghost var s := a[..];
    var w := a[i];
    a[i] := a[j];
    a[j] := w;
    SwapInside(s, i, j, l, r);
    assert a[..] == Swap(s, i, j);
    assert a[l..r + 1] == a[..][l..r + 1] && s[l..r + 1] == old(a[l..r + 1]);
  }

  /** The left scan: some entry at `stop` or before ends it. */
  method ScanUp(a: array<int>, from: int, pivot: int, ghost stop: int) returns (i: int)
    requires 0 <= from <= stop < a.Length && a[stop] >= pivot
    ensures from <= i <= stop && a[i] >= pivot
    ensures forall k :: from <= k < i ==> a[k] < pivot
  {
    i := from;
    while a[i] < pivot
      invariant from <= i <= stop && forall k :: from <= k < i ==> a[k] < pivot
      decreases stop - i
    {
      i := i + 1;
    }
  }

  /** The right scan. */
  method ScanDown(a: array<int>, from: int, pivot: int, ghost stop: int) returns (j: int)
    requires 0 <= stop <= from < a.Length && a[stop] <= pivot
    ensures stop <= j <= from && a[j] <= pivot
    ensures forall k :: j < k <= from ==> a[k] > pivot
  {
    j := from;
    while pivot < a[j]
      invariant stop <= j <= from && forall k :: j < k <= from ==> a[k] > pivot
      decreases j - stop
    {
      j := j - 1;
    }
  }

  /** The partition loop.  Both scans stop inside [l, r], the ranges it leaves are strictly
      smaller, and what lies between them is the pivot value. */
  method Partition(a: array<int>, l: int, r: int) returns (i: int, j: int, ghost x: int)
    requires 0 <= l <= r < a.Length
    modifies a
    ensures l <= j + 1 <= i <= r + 1 && j < r && l < i
    ensures forall k :: l <= k < i ==> a[k] <= x
    ensures forall k :: j < k <= r ==> a[k] >= x
    ensures forall k :: 0 <= k < l || r < k < a.Length ==> a[k] == old(a[k])
    ensures multiset(a[l..r + 1]) == old(multiset(a[l..r + 1]))
  {
    i, j := l, r;
    var pivot := a[(l + r) / 2];
    x := pivot;
    ghost var up, down := (l + r) / 2, (l + r) / 2;
    while true
      invariant l <= i <= j <= r
      invariant i <= up <= r && a[up] >= pivot && l <= down <= j && a[down] <= pivot
      invariant (up <= j && i <= down) || (l < i && j < r)
      invariant forall k :: l <= k < i ==> a[k] <= pivot
      invariant forall k :: j < k <= r ==> a[k] >= pivot
      invariant forall k :: 0 <= k < l || r < k < a.Length ==> a[k] == old(a[k])
      invariant multiset(a[l..r + 1]) == old(multiset(a[l..r + 1]))
      decreases j - i
    {
      i := ScanUp(a, i, pivot, up);
      j := ScanDown(a, j, pivot, down);
      if i <= j {
        Exchange(a, i, j, l, r);
        up, down := j, i;
        i := i + 1;
        j := j - 1;
      }
      if !(i <= j) { break; }
    }
  }

  lemma SplitSegment(s: seq<int>, l: nat, m: nat, r: nat)
    requires l <= m <= r <= |s|
    ensures multiset(s[l..r]) == multiset(s[l..m]) + multiset(s[m..r])
  {
    assert s[l..r] == s[l..m] + s[m..r];
  }

  /** Rearranging a part of a segment rearranges the segment. */
  lemma PartKept(s: seq<int>, t: seq<int>, l: nat, p: nat, q: nat, r: nat)
    requires l <= p <= q <= r <= |s| == |t|
    requires multiset(s[p..q]) == multiset(t[p..q])
    requires forall k :: l <= k < p || q <= k < r ==> s[k] == t[k]
    ensures multiset(s[l..r]) == multiset(t[l..r])
  {
    assert s[l..p] == t[l..p] && s[q..r] == t[q..r];
    SplitSegment(s, l, p, r);
    SplitSegment(s, p, q, r);
    SplitSegment(t, l, p, r);
    SplitSegment(t, p, q, r);
  }

  /** Recursion on a part [p, q] of [l, r]: the rest stays, bounds on the part stay. */
  method SortPart(a: array<int>, p: int, q: int, ghost l: int, ghost r: int, ghost x: int)
    requires 0 <= l <= p <= q <= r < a.Length && q - p < r - l
    modifies a
    ensures Sorted(a, p, q)
    ensures forall k :: 0 <= k < p || q < k < a.Length ==> a[k] == old(a[k])
    ensures multiset(a[l..r + 1]) == old(multiset(a[l..r + 1]))
    ensures AtMost(old(a[..]), p, q, x) ==> AtMost(a[..], p, q, x)
    ensures AtLeast(old(a[..]), p, q, x) ==> AtLeast(a[..], p, q, x)
    decreases r - l, 0
  {
    hide *;
    ghost var s := a[..];
    Quicksort(a, p, q);
    ghost var t := a[..];
    assert s[p..q + 1] == old(a[p..q + 1]) && t[p..q + 1] == a[p..q + 1];
    assert s[l..r + 1] == old(a[l..r + 1]) && t[l..r + 1] == a[l..r + 1];
    BoundsKept(s, t, p, q, x);
    PartKept(s, t, l, p, q + 1, r + 1);
  }

  /** Sort a[l..r]: the segment ends up sorted, is rearranged only, and nothing outside it
      changes. */
  method Quicksort(a: array<int>, l: int, r: int)
    requires 0 <= l <= r < a.Length
    modifies a
    ensures Sorted(a, l, r)
    ensures multiset(a[l..r + 1]) == old(multiset(a[l..r + 1]))
    ensures forall k :: 0 <= k < l || r < k < a.Length ==> a[k] == old(a[k])
    decreases r - l, 1
  {
    ghost var x;
    var i, j;
    i, j, x := Partition(a, l, r);
    if l < j { SortPart(a, l, j, l, r, x); }
    if i < r { SortPart(a, i, r, l, r, x); }
  }

  // ----- The benchmark -----

  function Next(seed: nat): nat { (seed * 1309 + 13849) % 65536 }

  /** The seed after `i` numbers. */
  function Seed(i: nat): nat { if i == 0 then 74755 else Next(Seed(i - 1)) }

  function Value(seed: nat): int { seed - seed / 100000 * 100000 - 50000 }

  /** A number is the remainder of its seed by 100000, less 50000; but no seed that is drawn
      reaches 100000, so all numbers are from -50000 to 15535 and only the shift remains. */
  lemma ValueIs(seed: nat, i: nat)
    ensures Value(seed) == seed % 100000 - 50000
    ensures i > 0 ==> Value(Seed(i)) == Seed(i) - 50000 && -50000 <= Value(Seed(i)) <= 15535
  {
    assert seed == seed / 100000 * 100000 + seed % 100000;
    if i > 0 { assert Seed(i) == Next(Seed(i - 1)) < 65536; }
  }

  /** The first `n` numbers. */
  ghost function Drawn(n: nat): seq<int> { seq(n, i requires 0 <= i < n => Value(Seed(i + 1))) }

  ghost predicate AllPositive(s: seq<int>) { forall i :: 0 <= i < |s| ==> s[i] > 0 }

  ghost predicate AllNegative(s: seq<int>) { forall i :: 0 <= i < |s| ==> s[i] < 0 }

  ghost predicate Ascends(s: seq<int>) { forall i, j :: 0 <= i < j < |s| ==> s[i] <= s[j] }

  /** The least and the greatest entry, counting 0 as one. */
  ghost predicate Extremes(s: seq<int>, littlest: int, biggest: int) {
    && littlest <= 0 <= biggest && (forall i :: 0 <= i < |s| ==> littlest <= s[i] <= biggest)
    && (littlest == 0 || littlest in s) && (biggest == 0 || biggest in s)
  }

  lemma ExtremesMore(s: seq<int>, littlest: int, biggest: int, x: int)
    requires Extremes(s, littlest, biggest)
    ensures Extremes(s + [x], if x < littlest then x else littlest, if x > biggest then x else biggest)
  {
    var t := s + [x];
    assert t[|s|] == x && forall i :: 0 <= i < |s| ==> t[i] == s[i];
    if littlest in s { assert littlest in t; }
    if biggest in s { assert biggest in t; }
  }

  /** Fill the list with pseudo-random numbers and note the extremes. */
  method Initarr(n: nat, a: array<int>) returns (littlest: int, biggest: int)
    requires a.Length == n + 1
    modifies a
    ensures a[1..] == Drawn(n) && Extremes(Drawn(n), littlest, biggest)
  {
    hide *;
    var seed := 74755;
    littlest, biggest := 0, 0;
    NothingDrawn();
    assert a[1..1] == [];
    for i := 1 to n + 1
      invariant seed == Seed(i - 1) && a[1..i] == Drawn(i - 1) && Extremes(Drawn(i - 1), littlest, biggest)
    {
      SeedStep(i);
      seed := Next(seed);
      ExtremesMore(Drawn(i - 1), littlest, biggest, Value(seed));
      LowIsNotHigh(Drawn(i - 1), littlest, biggest);
      DrawnMore(i);
      a[i] := Value(seed);
      assert a[1..i + 1] == a[1..i] + [Value(seed)];
      if a[i] > biggest { biggest := a[i]; } else if a[i] < littlest { littlest := a[i]; }
    }
    assert a[1..n + 1] == a[1..];
  }

  lemma NothingDrawn()
    ensures Drawn(0) == [] && Extremes(Drawn(0), 0, 0) && Seed(0) == 74755
  {
  }

  lemma DrawnMore(i: nat)
    requires i > 0
    ensures Drawn(i) == Drawn(i - 1) + [Value(Seed(i))]
  {
  }

  lemma SeedStep(i: nat)
    requires i > 0
    ensures Seed(i) == Next(Seed(i - 1))
  {
  }

  lemma LowIsNotHigh(s: seq<int>, littlest: int, biggest: int)
    requires Extremes(s, littlest, biggest)
    ensures littlest <= biggest
  {
  }

  /** The check fails exactly if all entries are positive or all are negative. */
  lemma ErrorIff(s: seq<int>, t: seq<int>, littlest: int, biggest: int)
    requires s != [] && |t| == |s| && multiset(s) == multiset(t) && Extremes(s, littlest, biggest)
    requires Ascends(t)
    ensures t[0] != littlest || t[|t| - 1] != biggest <==> AllPositive(s) || AllNegative(s)
  {
    var n := |t| - 1;
    SameEntries(s, t);
    assert t[0] in s && t[n] in s;
    assert forall i :: 0 <= i < |s| ==> s[i] in t;
    assert forall i :: 0 <= i < |s| ==> t[0] <= s[i] <= t[n];
  }

  lemma SameEntries(s: seq<int>, t: seq<int>)
    requires multiset(s) == multiset(t)
    ensures forall x :: x in s <==> x in t
  {
    forall x ensures x in s <==> x in t { assert x in multiset(s) <==> x in multiset(t); }
  }

  /** The first number is negative and the fifth is not. */
  lemma BothSigns(n: nat)
    requires n >= 5
    ensures !AllPositive(Drawn(n)) && !AllNegative(Drawn(n))
  {
    assert Seed(1) == 22896;
    assert Seed(2) == 34761;
    assert Seed(3) == 34014;
    assert Seed(4) == 39231;
    assert Seed(5) == 52540;
    assert Drawn(n)[0] == -27104 && Drawn(n)[4] == 2540;
  }

  /** The benchmark: its error message is printed exactly if the numbers drawn are all
      positive or all negative, so never for five numbers or more. */
  method Quick(n: nat) returns (error: bool, a: array<int>)
    requires n >= 1
    ensures a.Length == n + 1 && Ascends(a[1..]) && multiset(a[1..]) == multiset(Drawn(n))
    ensures error <==> AllPositive(Drawn(n)) || AllNegative(Drawn(n))
    ensures n >= 5 ==> !error
  {
    hide *;
    a := new int[n + 1];
    var littlest, biggest := Initarr(n, a);
    assert a[1..n + 1] == a[1..];
    Quicksort(a, 1, n);
    assert a[1..n + 1] == a[1..];
    SortedAscends(a, n);
    ErrorIff(Drawn(n), a[1..], littlest, biggest);
    error := a[1] != littlest || a[n] != biggest;
    if n >= 5 { BothSigns(n); }
  }

  lemma SortedAscends(a: array<int>, n: nat)
    requires a.Length == n + 1 && Sorted(a, 1, n)
    ensures Ascends(a[1..])
  {
  }
}
