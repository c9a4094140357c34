/** The queens search of `Queens.c` for any board size: availability arrays for columns
    and diagonals, set and undone around the recursion. */
module Queens {

  // ----- Boards -----

  /** Row r + 1 has its queen in column q[r]. */
  predicate Attacks(q: seq<int>, r: int, s: int)
    requires 0 <= r < |q| && 0 <= s < |q|
  {
    q[r] == q[s] || q[r] + r == q[s] + s || q[r] - r == q[s] - s
  }

  ghost predicate Safe(q: seq<int>) {
    forall r, s :: 0 <= r < s < |q| ==> !Attacks(q, r, s)
  }

  ghost predicate OnBoard(n: nat, q: seq<int>) {
    |q| <= n && forall r :: 0 <= r < |q| ==> 1 <= q[r] <= n
  }

  ghost predicate Solution(n: nat, q: seq<int>) { |q| == n && OnBoard(n, q) && Safe(q) }

  ghost predicate Completes(n: nat, q: seq<int>, full: seq<int>) { q <= full && Solution(n, full) }

  /** `s` comes no later than `t` in lexicographic order. */
  ghost predicate LexLeq(s: seq<int>, t: seq<int>) {
    s == t || exists k :: 0 <= k < |s| && k < |t| && s[..k] == t[..k] && s[k] < t[k]
  }

  ghost predicate LeastCompletion(n: nat, q: seq<int>, full: seq<int>) {
    Completes(n, q, full) && forall other :: Completes(n, q, other) ==> LexLeq(full, other)
  }

  ghost predicate Completable(n: nat, q: seq<int>) { exists full :: Completes(n, q, full) }

  /** No earlier column of the next row leads to a completion. */
  ghost predicate Exhausted(n: nat, q: seq<int>, below: int) {
    forall j, full :: 1 <= j < below ==> !Completes(n, q + [j], full)
  }

  lemma NextColumn(n: nat, q: seq<int>, full: seq<int>)
    requires Completes(n, q, full) && |q| < n
    ensures 1 <= full[|q|] <= n && Completes(n, q + [full[|q|]], full) && Safe(q + [full[|q|]])
  {
    var next := q + [full[|q|]];
    assert next == full[..|q| + 1];
    forall r, s | 0 <= r < s < |next|
      ensures !Attacks(next, r, s)
    {
      assert !Attacks(full, r, s);
    }
  }

  /** The first column that leads to a completion leads to the least one. */
  lemma FirstColumnIsLeast(n: nat, q: seq<int>, j: int, full: seq<int>)
    requires |q| < n && Exhausted(n, q, j) && LeastCompletion(n, q + [j], full)
    ensures LeastCompletion(n, q, full)
  {
    assert q == (q + [j])[..|q|];
    forall other | Completes(n, q, other)
      ensures LexLeq(full, other)
    {
      NextColumn(n, q, other);
      var k := other[|q|];
      if k > j {
        assert full[..|q|] == q == other[..|q|] && full[|q|] == j;
      }
    }
  }

  lemma NoneBelowFirst(n: nat, q: seq<int>)
    ensures Exhausted(n, q, 1)
  {
  }

  lemma OneMoreExhausted(n: nat, q: seq<int>, j: int)
    requires Exhausted(n, q, j) && !Completable(n, q + [j])
    ensures Exhausted(n, q, j + 1)
  {
    assert forall full :: !Completes(n, q + [j], full);
  }

  /** A full safe board is its own only completion. */
  lemma FullBoard(n: nat, q: seq<int>, j: int)
    requires |q| == n - 1 && OnBoard(n, q) && 1 <= j <= n && Safe(q + [j])
    ensures LeastCompletion(n, q + [j], q + [j])
  {
    assert forall other :: Completes(n, q + [j], other) ==> other == q + [j];
  }

  lemma LeastIsCompletion(n: nat, q: seq<int>, full: seq<int>)
    requires LeastCompletion(n, q, full)
    ensures Completable(n, q)
  {
  }

  lemma NextOnBoard(n: nat, q: seq<int>, j: int)
    requires OnBoard(n, q) && |q| < n && 1 <= j <= n
    ensures OnBoard(n, q + [j])
  {
  }

  lemma NoColumn(n: nat, q: seq<int>)
    requires |q| < n && Exhausted(n, q, n + 1)
    ensures !Completable(n, q)
  {
    forall full | Completes(n, q, full)
      ensures false
    {
      NextColumn(n, q, full);
    }
  }

  lemma UnsafeColumn(n: nat, q: seq<int>, j: int)
    requires |q| < n && !Safe(q + [j])
    ensures !Completable(n, q + [j])
  {
    forall full | Completes(n, q + [j], full)
      ensures false
    {
      var r, s :| 0 <= r < s < |q + [j]| && Attacks(q + [j], r, s);
      assert Attacks(full, r, s);
    }
  }

  // ----- Availability -----

  /** The three arrays say which rising diagonals, columns and falling diagonals the queens
      `q` leave free. */
  ghost predicate Available(n: nat, q: seq<int>, a: seq<bool>, b: seq<bool>, c: seq<bool>) {
    && |a| == 2 * n + 1 && |b| == n + 1 && |c| == 2 * n - 1
    && (forall j :: 1 <= j <= n ==> (b[j] <==> forall r :: 0 <= r < |q| ==> q[r] != j))
    && (forall d :: 2 <= d <= 2 * n ==> (a[d] <==> forall r :: 0 <= r < |q| ==> r + 1 + q[r] != d))
    && (forall d :: 0 <= d <= 2 * n - 2 ==> (c[d] <==> forall r :: 0 <= r < |q| ==> r + 1 - q[r] + n - 1 != d))
  }

  /** The test made on the arrays is the test for safety. */
  lemma TestIsSafe(n: nat, q: seq<int>, a: seq<bool>, b: seq<bool>, c: seq<bool>, j: int)
    requires Available(n, q, a, b, c) && OnBoard(n, q) && |q| < n && Safe(q) && 1 <= j <= n
    ensures |a| == 2 * n + 1 && |b| == n + 1 && |c| == 2 * n - 1
    ensures var i := |q| + 1; b[j] && a[i + j] && c[i - j + n - 1] <==> Safe(q + [j])
  {
    var i, next := |q| + 1, q + [j];
    if b[j] && a[i + j] && c[i - j + n - 1] {
      forall r, s | 0 <= r < s < |next|
        ensures !Attacks(next, r, s)
      {
        if s < |q| { assert !Attacks(q, r, s); }
      }
    }
    if Safe(next) {
      forall r | 0 <= r < |q|
        ensures q[r] != j && r + 1 + q[r] != i + j && r + 1 - q[r] != i - j
      {
        assert !Attacks(next, r, |q|);
      }
    }
  }

  lemma PlaceQueen(n: nat, q: seq<int>, a: seq<bool>, b: seq<bool>, c: seq<bool>, j: int)
    requires Available(n, q, a, b, c) && OnBoard(n, q) && |q| < n && 1 <= j <= n
    ensures var i := |q| + 1; Available(n, q + [j], a[i + j := false], b[j := false], c[i - j + n - 1 := false])
  {
    var next := q + [j];
    assert forall r :: 0 <= r < |q| ==> next[r] == q[r];
    assert next[|q|] == j;
  }

  // ----- The search -----

  method SetQueen(n: nat, i: nat, j: nat, a: array<bool>, b: array<bool>, c: array<bool>, x: array<int>)
    requires 1 <= i <= n && 1 <= j <= n && a != b && a != c && b != c
    requires x.Length == n + 1 && a.Length == 2 * n + 1 && b.Length == n + 1 && c.Length == 2 * n - 1
    modifies a, b, c, x
    ensures x[..i] == old(x[..i]) && x[1..i + 1] == old(x[1..i]) + [j]
    ensures a[..] == old(a[..])[i + j := false] && b[..] == old(b[..])[j := false]
    ensures c[..] == old(c[..])[i - j + n - 1 := false]
  {
    x[i] := j;
    b[j] := false;
    a[i + j] := false;
    c[i - j + n - 1] := false;
  }

  method RemoveQueen(n: nat, i: nat, j: nat, a: array<bool>, b: array<bool>, c: array<bool>,
                     ghost a0: seq<bool>, ghost b0: seq<bool>, ghost c0: seq<bool>)
    requires 1 <= i <= n && 1 <= j <= n && a != b && a != c && b != c
    requires |a0| == 2 * n + 1 && |b0| == n + 1 && |c0| == 2 * n - 1 && a0[i + j] && b0[j] && c0[i - j + n - 1]
    requires a[..] == a0[i + j := false] && b[..] == b0[j := false] && c[..] == c0[i - j + n - 1 := false]
    modifies a, b, c
    ensures a[..] == a0 && b[..] == b0 && c[..] == c0
  {
    assert a.Length == |a[..]| && b.Length == |b[..]| && c.Length == |c[..]|;
    b[j] := true;
    a[i + j] := true;
    c[i - j + n - 1] := true;
  }

  /** Try to complete the queens of rows 1..i-1.  It succeeds exactly when they have a
      completion, and then `x` is the lexicographically least one; on failure the three
      arrays are as they were; the rows below `i` are never touched. */
  method Try(n: nat, i: nat, a: array<bool>, b: array<bool>, c: array<bool>, x: array<int>) returns (q: bool)
    requires 1 <= i <= n && x.Length == n + 1
    requires a != b && a != c && b != c
    requires Available(n, x[1..i], a[..], b[..], c[..]) && OnBoard(n, x[1..i]) && Safe(x[1..i])
    modifies a, b, c, x
    ensures x[..i] == old(x[..i])
    ensures q <==> Completable(n, old(x[1..i]))
    ensures q ==> LeastCompletion(n, old(x[1..i]), x[1..])
    ensures !q ==> a[..] == old(a[..]) && b[..] == old(b[..]) && c[..] == old(c[..])
    decreases n - i
  {
    hide Available, Safe, OnBoard, LeastCompletion, Completable, Exhausted;
    ghost var rows, a0, b0, c0 := x[1..i], a[..], b[..], c[..];
    var j := 0;
    q := false;
    NoneBelowFirst(n, rows);
    while !q && j != n
      invariant 0 <= j <= n && x[..i] == old(x[..i])
      invariant !q ==> a[..] == a0 && b[..] == b0 && c[..] == c0 && Exhausted(n, rows, j + 1)
      invariant q ==> LeastCompletion(n, rows, x[1..])
      decreases !q, n - j
    {
      j := j + 1;
      TestIsSafe(n, rows, a0, b0, c0, j);
      if b[j] && a[i + j] && c[i - j + n - 1] {
        PlaceQueen(n, rows, a0, b0, c0, j);
        NextOnBoard(n, rows, j);
        SetQueen(n, i, j, a, b, c, x);
        if i < n {
          q := Try(n, i + 1, a, b, c, x);
          if !q {
            RemoveQueen(n, i, j, a, b, c, a0, b0, c0);
            OneMoreExhausted(n, rows, j);
          }
        } else {
          q := true;
          assert x[1..] == x[1..i + 1] == rows + [j];
          FullBoard(n, rows, j);
        }
        if q { FirstColumnIsLeast(n, rows, j, x[1..]); }
      } else {
        UnsafeColumn(n, rows, j);
        OneMoreExhausted(n, rows, j);
      }
    }
    if q { LeastIsCompletion(n, rows, x[1..]); } else { NoColumn(n, rows); }
  }

  /** Set the arrays up and search from the first row. */
  method Doit(n: nat) returns (q: bool, x: array<int>)
    requires n >= 1
    ensures q <==> exists full :: Solution(n, full)
    ensures x.Length == n + 1
    ensures q ==> Solution(n, x[1..]) && forall full :: Solution(n, full) ==> LexLeq(x[1..], full)
  {
    var a, b, c := new bool[n + 1], new bool[2 * n + 1], new bool[2 * n - 1];
    x := new int[n + 1];
    var i := 0 - (n - 1);
    while i <= 2 * n
      invariant 1 - n <= i <= 2 * n + 1
      invariant forall k :: 1 <= k < i && k <= n ==> a[k]
      invariant forall k :: 2 <= k < i ==> b[k]
      invariant forall k :: 0 <= k <= 2 * n - 2 && k < i + n - 1 ==> c[k]
    {
      if i >= 1 && i <= n { a[i] := true; }
      if i >= 2 { b[i] := true; }
      if i <= n - 1 { c[i + n - 1] := true; }
      i := i + 1;
    }
    assert x[1..1] == [];
    q := Try(n, 1, b, a, c, x);
    forall full ensures Completes(n, [], full) <==> Solution(n, full) {}
  }

  /** The benchmark's board has a solution. */
  lemma EightQueens()
    ensures Solution(8, [1, 5, 8, 6, 3, 7, 2, 4])
  {
  }

  /** The benchmark: fifty times the eight queens.  Its error message is never printed, and
      every time the board is left with the least solution. */
  method Benchmark() returns (solved: bool, x: array<int>)
    ensures solved
    ensures x.Length == 9 && Solution(8, x[1..]) && forall full :: Solution(8, full) ==> LexLeq(x[1..], full)
  {
    EightQueens();
    hide *;
    solved, x := true, new int[9];
    for i := 0 to 50
      invariant solved
      invariant i > 0 ==>
                  x.Length == 9 && Solution(8, x[1..]) && forall full :: Solution(8, full) ==> LexLeq(x[1..], full)
    {
      var q;
      q, x := Doit(8);
      solved := solved && q;
    }
  }
}
