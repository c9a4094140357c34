/** The permutation benchmark `Perm.c`: every arrangement of the array prefix is reached
    once, by swaps that are undone on the way back. */
module Perm {
  import opened Collections

  /** `pctr` is an unsigned int. */
  function Wrap(a: nat): nat { a % 0x1_0000_0000 }

  /** The number of calls made by `Permute(n)`. */
  function Calls(n: nat): nat
    requires n >= 1
  {
    if n == 1 then 1 else 1 + n * Calls(n - 1)
  }

  lemma SevenCalls()
    ensures Calls(7) == 8660
  {
  }

  /** The calls made by the last `k` rounds of its loop. */
  ghost function LoopCalls(n: nat, k: nat): nat
    requires n >= 2
  {
    if k == 0 then 0 else Calls(n - 1) + LoopCalls(n, k - 1)
  }

  lemma {:induction false} LoopCallsIsProduct(n: nat, k: nat)
    requires n >= 2
    ensures LoopCalls(n, k) == k * Calls(n - 1)
    decreases k
  {
    if k > 0 {
      LoopCallsIsProduct(n, k - 1);
      assert k * Calls(n - 1) == (k - 1) * Calls(n - 1) + Calls(n - 1);
    }
  }

  lemma CallsSplit(n: nat)
    requires n >= 1
    ensures Calls(n) == if n == 1 then 1 else 1 + Calls(n - 1) + LoopCalls(n, n - 1)
  {
    if n > 1 {
      LoopCallsIsProduct(n, n - 1);
      assert n * Calls(n - 1) == (n - 1) * Calls(n - 1) + Calls(n - 1);
    }
  }

  lemma LoopCallsStep(n: nat, k: nat)
    requires n >= 2
    ensures LoopCalls(n, k) == if k == 0 then 0 else Calls(n - 1) + LoopCalls(n, k - 1)
  {
  }

  lemma AddWraps(a: nat, b: nat)
    ensures Wrap(Wrap(a) + b) == Wrap(a + b)
  {
    assert a + b == Wrap(a) + b + 0x1_0000_0000 * (a / 0x1_0000_0000);
  }

  // ----- What the innermost calls see -----

  ghost function Swapped(s: seq<int>, n: nat, k: nat): seq<int>
    requires n < |s| && k < |s|
  {
    s[n := s[k]][k := s[n]]
  }

  lemma SwapUndoes(s: seq<int>, n: nat, k: nat)
    requires n < |s| && k < |s|
    ensures |Swapped(s, n, k)| == |s| && Swapped(Swapped(s, n, k), n, k) == s
  {
  }

  /** The array contents seen by the calls with n == 1 that `Permute(n)` makes, in order. */
  ghost function Visits(s: seq<int>, n: nat): seq<seq<int>>
    requires 1 <= n < |s|
    decreases n, n
  {
    if n == 1 then [s] else Visits(s, n - 1) + VisitsFrom(s, n, n - 1)
  }

  /** The part of them that the loop contributes from `k` downwards. */
  ghost function VisitsFrom(s: seq<int>, n: nat, k: nat): seq<seq<int>>
    requires 2 <= n < |s| && k < n
    decreases n, k
  {
    if k == 0 then [] else Visits(Swapped(s, n, k), n - 1) + VisitsFrom(s, n, k - 1)
  }

  lemma VisitsSplit(s: seq<int>, n: nat, before: seq<seq<int>>)
    requires 1 <= n < |s|
    ensures n == 1 ==> before + [s] == before + Visits(s, n)
    ensures n > 1 ==> (before + Visits(s, n - 1)) + VisitsFrom(s, n, n - 1) == before + Visits(s, n)
  {
  }

  lemma VisitsFromStep(s: seq<int>, n: nat, k: nat, before: seq<seq<int>>)
    requires 1 <= k < n < |s|
    ensures (before + Visits(Swapped(s, n, k), n - 1)) + VisitsFrom(s, n, k - 1) == before + VisitsFrom(s, n, k)
  {
  }

  lemma VisitsFromNone(s: seq<int>, n: nat, before: seq<seq<int>>)
    requires 2 <= n < |s|
    ensures before + VisitsFrom(s, n, 0) == before
  {
  }

  /** `t` arranges the entries 1..n of `s` and agrees with it elsewhere. */
  ghost predicate Arranges(s: seq<int>, t: seq<int>, n: nat)
    requires n < |s|
  {
    |t| == |s| && t[0] == s[0] && t[n + 1..] == s[n + 1..] && multiset(t[1..n + 1]) == multiset(s[1..n + 1])
  }

  ghost predicate DistinctUpTo(s: seq<int>, n: nat)
    requires n < |s|
  {
    forall i, j :: 1 <= i < j <= n ==> s[i] != s[j]
  }

  // ----- Only arrangements -----

  lemma SwapArranges(s: seq<int>, n: nat, k: nat)
    requires 1 <= k <= n < |s|
    ensures Arranges(s, Swapped(s, n, k), n)
  {
    var t := Swapped(s, n, k);
    SwapMultiset(s[1..n + 1], n - 1, k - 1);
    assert t[1..n + 1] == s[1..n + 1][n - 1 := s[k]][k - 1 := s[n]];
  }

  lemma SwapMultiset(p: seq<int>, i: nat, j: nat)
    requires i < |p| && j < |p|
    ensures multiset(p[i := p[j]][j := p[i]]) == multiset(p)
  {
  }

  lemma SmallerArranges(s: seq<int>, t: seq<int>, n: nat)
    requires 2 <= n < |s| && Arranges(s, t, n - 1)
    ensures Arranges(s, t, n) && t[n] == s[n]
  {
    assert t[n] == t[n..][0] == s[n..][0] == s[n];
    assert t[n + 1..] == t[n..][1..] && s[n + 1..] == s[n..][1..];
    assert t[1..n + 1] == t[1..n] + [t[n]] && s[1..n + 1] == s[1..n] + [s[n]];
  }

  lemma ArrangesTransitive(s: seq<int>, t: seq<int>, u: seq<int>, n: nat)
    requires n < |s| && Arranges(s, t, n) && Arranges(t, u, n)
    ensures Arranges(s, u, n)
  {
  }

  lemma {:induction false} VisitsArrange(s: seq<int>, n: nat, t: seq<int>)
    requires 1 <= n < |s| && t in Visits(s, n)
    ensures Arranges(s, t, n)
    decreases n, n
  {
    if n > 1 {
      if t in Visits(s, n - 1) {
        VisitsArrange(s, n - 1, t);
        SmallerArranges(s, t, n);
      } else {
        VisitsFromArrange(s, n, n - 1, t);
      }
    }
  }

  lemma {:induction false} VisitsFromArrange(s: seq<int>, n: nat, k: nat, t: seq<int>)
    requires 2 <= n < |s| && k < n && t in VisitsFrom(s, n, k)
    ensures Arranges(s, t, n) && exists j :: 1 <= j <= k && t[n] == s[j]
    decreases n, k
  {
    var u := Swapped(s, n, k);
    if k > 0 && t in Visits(u, n - 1) {
      VisitsArrange(u, n - 1, t);
      SmallerArranges(u, t, n);
      SwapArranges(s, n, k);
      ArrangesTransitive(s, u, t, n);
      assert t[n] == s[k];
    } else {
      VisitsFromArrange(s, n, k - 1, t);
    }
  }

  // ----- All arrangements -----

  lemma {:induction false} VisitsAll(s: seq<int>, n: nat, t: seq<int>)
    requires 1 <= n < |s| && Arranges(s, t, n)
    ensures t in Visits(s, n)
    decreases n, n
  {
    hide Swapped;
    if n == 1 {
      OneEntry(s, t);
    } else if t[n] == s[n] {
      LastAgrees(s, t, n);
      VisitsAll(s, n - 1, t);
    } else {
      var k := WhereIs(s, t, n);
      SwapAgrees(s, t, n, k);
      VisitsAll(Swapped(s, n, k), n - 1, t);
      InVisitsFrom(s, n, n - 1, k, t);
    }
  }

  lemma OneEntry(s: seq<int>, t: seq<int>)
    requires 1 < |s| && Arranges(s, t, 1)
    ensures t == s
  {
    assert s[1..2] == [s[1]] && t[1..2] == [t[1]];
    assert multiset([t[1]])[t[1]] == 1;
    assert t[1] in multiset([s[1]]);
    assert t == [t[0], t[1]] + t[2..] && s == [s[0], s[1]] + s[2..];
  }

  lemma SwapAgrees(s: seq<int>, t: seq<int>, n: nat, k: nat)
    requires 2 <= n < |s| && 1 <= k < n && Arranges(s, t, n) && s[k] == t[n]
    ensures |Swapped(s, n, k)| == |s| && Arranges(Swapped(s, n, k), t, n - 1)
  {
    SwapArranges(s, n, k);
    LastAgrees(Swapped(s, n, k), t, n);
  }

  lemma SameWithout(p: seq<int>, q: seq<int>, x: int)
    requires multiset(p + [x]) == multiset(q + [x])
    ensures multiset(p) == multiset(q)
  {
    assert multiset(p) == multiset(p + [x]) - multiset{x};
    assert multiset(q) == multiset(q + [x]) - multiset{x};
  }

  lemma LastAgrees(s: seq<int>, t: seq<int>, n: nat)
    requires 2 <= n < |s| && Arranges(s, t, n) && t[n] == s[n]
    ensures Arranges(s, t, n - 1)
  {
    assert t[1..n + 1] == t[1..n] + [t[n]] && s[1..n + 1] == s[1..n] + [s[n]];
    SameWithout(t[1..n], s[1..n], s[n]);
    assert t[n..] == [t[n]] + t[n + 1..] && s[n..] == [s[n]] + s[n + 1..];
  }

  lemma WhereIs(s: seq<int>, t: seq<int>, n: nat) returns (k: nat)
    requires 2 <= n < |s| && Arranges(s, t, n) && t[n] != s[n]
    ensures 1 <= k < n && s[k] == t[n]
  {
    assert t[1..n + 1][n - 1] in multiset(t[1..n + 1]);
    assert t[n] in s[1..n + 1];
    var i :| 0 <= i < n && s[1..n + 1][i] == t[n];
    k := i + 1;
  }

  lemma {:induction false} InVisitsFrom(s: seq<int>, n: nat, from: nat, k: nat, t: seq<int>)
    requires 2 <= n < |s| && 1 <= k <= from < n && t in Visits(Swapped(s, n, k), n - 1)
    ensures t in VisitsFrom(s, n, from)
    decreases from
  {
    hide Visits, Swapped;
    if k < from { InVisitsFrom(s, n, from - 1, k, t); }
  }

  // ----- Each arrangement once -----

  lemma JoinNoRepeats(u: seq<seq<int>>, v: seq<seq<int>>)
    requires NoRepeats(u) && NoRepeats(v) && forall t :: t in u ==> t !in v
    ensures NoRepeats(u + v)
  {
    var w := u + v;
    forall i, j | 0 <= i < j < |w|
      ensures w[i] != w[j]
    {
      if i < |u| <= j { assert w[i] in u && w[j] in v; }
    }
  }

  lemma {:induction false} VisitsOnce(s: seq<int>, n: nat)
    requires 1 <= n < |s| && DistinctUpTo(s, n)
    ensures NoRepeats(Visits(s, n))
    decreases n, n
  {
    hide Arranges;
    if n > 1 {
      VisitsOnce(s, n - 1);
      VisitsFromOnce(s, n, n - 1);
      var first, rest := Visits(s, n - 1), VisitsFrom(s, n, n - 1);
      forall t | t in first
        ensures t !in rest
      {
        VisitsArrange(s, n - 1, t);
        SmallerArranges(s, t, n);
        if t in rest { VisitsFromArrange(s, n, n - 1, t); }
      }
      JoinNoRepeats(first, rest);
    }
  }

  lemma {:induction false} VisitsFromOnce(s: seq<int>, n: nat, k: nat)
    requires 2 <= n < |s| && k < n && DistinctUpTo(s, n)
    ensures NoRepeats(VisitsFrom(s, n, k))
    decreases n, k
  {
    hide Arranges;
    if k > 0 {
      var u := Swapped(s, n, k);
      VisitsOnce(u, n - 1);
      VisitsFromOnce(s, n, k - 1);
      var first, rest := Visits(u, n - 1), VisitsFrom(s, n, k - 1);
      forall t | t in first
        ensures t !in rest
      {
        VisitsArrange(u, n - 1, t);
        SmallerArranges(u, t, n);
        if t in rest { VisitsFromArrange(s, n, k - 1, t); }
      }
      JoinNoRepeats(first, rest);
    }
  }

  /** The innermost calls see every arrangement of the first `n` entries, nothing else, and
      none twice. */
  lemma VisitsAreThePermutations(s: seq<int>, n: nat)
    requires 1 <= n < |s| && DistinctUpTo(s, n)
    ensures forall t :: t in Visits(s, n) <==> Arranges(s, t, n)
    ensures NoRepeats(Visits(s, n))
  {
    forall t
      ensures t in Visits(s, n) <==> Arranges(s, t, n)
    {
      if t in Visits(s, n) { VisitsArrange(s, n, t); }
      if Arranges(s, t, n) { VisitsAll(s, n, t); }
    }
    VisitsOnce(s, n);
  }

  // ----- The program -----

  class Permuter {
    const permarray: array<int>
    var pctr: nat
    /** The array contents seen so far by calls with n == 1. */
    ghost var seen: seq<seq<int>>

    constructor (range: nat)
      ensures permarray.Length == range + 1 && fresh(permarray)
    {
      permarray := new int[range + 1];
      pctr := 0;
    }

    method Swap(i: nat, j: nat)
      requires i < permarray.Length && j < permarray.Length
      modifies permarray
      ensures permarray[..] == Swapped(old(permarray[..]), i, j)
    {
      var t := permarray[i];
      permarray[i] := permarray[j];
      permarray[j] := t;
    }

    /** One round of the loop: swap, visit, swap back. */
    method Round(n: nat, k: nat)
      requires 1 <= k < n < permarray.Length
      modifies this, permarray
      ensures permarray[..] == old(permarray[..])
      ensures pctr == Wrap(old(pctr) + Calls(n - 1))
      ensures seen == old(seen) + Visits(Swapped(old(permarray[..]), n, k), n - 1)
      decreases n, 0
    {
      hide Calls, Wrap, Swapped;
      SwapUndoes(permarray[..], n, k);
      Swap(n, k);
      Permute(n - 1);
      Swap(n, k);
    }

    /** The loop; `calls` counts without wrapping around. */
    method Rounds(n: nat, ghost calls: nat)
      requires 2 <= n < permarray.Length && pctr == Wrap(calls)
      modifies this, permarray
      ensures permarray[..] == old(permarray[..])
      ensures pctr == Wrap(calls + LoopCalls(n, n - 1))
      ensures seen == old(seen) + VisitsFrom(old(permarray[..]), n, n - 1)
      decreases n, 1
    {
      hide *;
      ghost var s, all := permarray[..], seen + VisitsFrom(permarray[..], n, n - 1);
      ghost var made: nat := calls;
      var k := n - 1;
      while k >= 1
        invariant 0 <= k <= n - 1 && permarray[..] == s
        invariant made + LoopCalls(n, k) == calls + LoopCalls(n, n - 1) && pctr == Wrap(made)
        invariant seen + VisitsFrom(s, n, k) == all
      {
        AddWraps(made, Calls(n - 1));
        LoopCallsStep(n, k);
        VisitsFromStep(s, n, k, seen);
        Round(n, k);
        k := k - 1;
        made := made + Calls(n - 1);
      }
      LoopCallsStep(n, 0);
      VisitsFromNone(s, n, seen);
    }

    /** Visit all arrangements of the first `n` entries; the array is as before on return. */
    method Permute(n: nat)
      requires 1 <= n < permarray.Length
      modifies this, permarray
      ensures permarray[..] == old(permarray[..])
      ensures pctr == Wrap(old(pctr) + Calls(n))
      ensures seen == old(seen) + Visits(old(permarray[..]), n)
      decreases n, 2
    {
      hide *;
      pctr := Wrap(pctr + 1);
      VisitsSplit(permarray[..], n, seen);
      CallsSplit(n);
      if n != 1 {
        AddWraps(old(pctr) + 1, Calls(n - 1));
        Permute(n - 1);
        Rounds(n, old(pctr) + 1 + Calls(n - 1));
      } else {
        seen := seen + [permarray[..]];
      }
    }

    method Initialize(n: nat)
      requires n < permarray.Length
      modifies permarray
      ensures forall i :: 1 <= i <= n ==> permarray[i] == i - 1
    {
      for i := 1 to n + 1
        invariant forall j :: 1 <= j < i ==> permarray[j] == j - 1
      {
        permarray[i] := i - 1;
      }
    }

    /** Visit all permutations of the numbers 0..n-1, each once. */
    method Pass(n: nat)
      requires 1 <= n < permarray.Length
      modifies this, permarray
      ensures pctr == Wrap(old(pctr) + Calls(n))
      ensures forall i :: 1 <= i <= n ==> permarray[i] == i - 1
      ensures exists v :: seen == old(seen) + v && NoRepeats(v)
                          && forall t :: t in v <==> Arranges(permarray[..], t, n)
    {
      Initialize(n);
      VisitsAreThePermutations(permarray[..], n);
      Permute(n);
    }

    /** The benchmark: five passes over seven entries make 43300 calls. */
    method Perm()
      requires permarray.Length > 7
      modifies this, permarray
      ensures pctr == 43300
    {
      SevenCalls();
      pctr := 0;
      for i := 1 to 6
        invariant pctr == 8660 * (i - 1)
      {
        Pass(7);
      }
    }
  }
}
