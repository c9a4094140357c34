/** The Towers of Hanoi of `Towers.c`: three pegs and a free list as linked lists in one
    array of cells, and the recursive move protocol on top of them. */
module Towers {
  import opened Collections
  import opened Powers

  datatype Element = Element(discsize: int, next: int)

  // ----- Discs on pegs -----

  /** What is on the pegs, top first.  Pegs are numbered from 1; entry 0 is not a peg. */
  type Discs = h: seq<seq<int>> | |h| == 4 witness [[], [], [], []]

  predicate IsPeg(s: int) { 1 <= s <= 3 }

  /** The state after the top `k` discs of peg `i` have gone to peg `j`, in order. */
  ghost function Shifted(h: Discs, i: int, j: int, k: nat): Discs
    requires IsPeg(i) && IsPeg(j) && k <= |h[i]|
  {
    h[i := h[i][k..]][j := h[i][..k] + h[j]]
  }

  /** The top `k` discs of peg `i` are smaller than every disc on the two other pegs. */
  ghost predicate Movable(h: Discs, i: int, k: nat)
    requires IsPeg(i)
  {
    && k <= |h[i]| && Ascending(h[i])
    && forall s, a, b :: IsPeg(s) && s != i && 0 <= a < k && 0 <= b < |h[s]| ==> h[i][a] < h[s][b]
  }

  /** The top disc of peg `i` may go on peg `j`. */
  ghost predicate MayMove(h: Discs, i: int, j: int)
    requires IsPeg(i) && IsPeg(j)
  {
    h[i] != [] && (h[j] == [] || h[i][0] < h[j][0])
  }

  ghost predicate AllAscending(h: Discs) {
    forall s :: IsPeg(s) ==> Ascending(h[s])
  }

  lemma FirstStep(h: Discs, i: int, j: int, k: nat)
    requires IsPeg(i) && IsPeg(j) && i != j && k >= 2 && Movable(h, i, k)
    ensures var other := 6 - i - j;
            && IsPeg(other) && Movable(h, i, k - 1)
            && var h1 := Shifted(h, i, other, k - 1);
            && h1[i] == h[i][k - 1..] && h1[other] == h[i][..k - 1] + h[other] && h1[j] == h[j]
            && MayMove(h1, i, j)
  {
  }

  lemma SecondStep(h: Discs, i: int, j: int, k: nat)
    requires IsPeg(i) && IsPeg(j) && i != j && 2 <= k <= |h[i]|
    ensures var other := 6 - i - j;
            && IsPeg(other)
            && var h2 := Shifted(Shifted(h, i, other, k - 1), i, j, 1);
            && h2[i] == h[i][k..] && h2[j] == [h[i][k - 1]] + h[j] && h2[other] == h[i][..k - 1] + h[other]
            && h2[0] == h[0]
  {
  }

  lemma ThirdStep(h: Discs, h2: Discs, i: int, j: int, k: nat)
    requires IsPeg(i) && IsPeg(j) && i != j && 2 <= k <= |h[i]| && h2[0] == h[0]
    requires h2[i] == h[i][k..] && h2[j] == [h[i][k - 1]] + h[j] && h2[6 - i - j] == h[i][..k - 1] + h[6 - i - j]
    ensures Shifted(h2, 6 - i - j, j, k - 1) == Shifted(h, i, j, k)
  {
    var other := 6 - i - j;
    var h3 := Shifted(h2, other, j, k - 1);
    assert h3[other] == h[other];
    assert h3[j] == h[i][..k] + h[j];
  }

  lemma StillMovable(h: Discs, h2: Discs, i: int, j: int, k: nat)
    requires IsPeg(i) && IsPeg(j) && i != j && k >= 2 && Movable(h, i, k) && AllAscending(h2)
    requires h2[i] == h[i][k..] && h2[j] == [h[i][k - 1]] + h[j] && h2[6 - i - j] == h[i][..k - 1] + h[6 - i - j]
    ensures Movable(h2, 6 - i - j, k - 1)
  {
  }

  /** The three steps of the recursion: each is possible after the one before, and
      together they move the top `k` discs. */
  lemma ThreeSteps(h: Discs, i: int, j: int, k: nat)
    requires IsPeg(i) && IsPeg(j) && i != j && k >= 2 && Movable(h, i, k)
    ensures var other := 6 - i - j;
            && IsPeg(other) && Movable(h, i, k - 1)
            && var h1 := Shifted(h, i, other, k - 1);
            && MayMove(h1, i, j)
            && var h2 := Shifted(h1, i, j, 1);
            && k - 1 <= |h2[other]| && (AllAscending(h2) ==> Movable(h2, other, k - 1))
            && Shifted(h2, other, j, k - 1) == Shifted(h, i, j, k)
  {
    assert k <= |h[i]|;
    FirstStep(h, i, j, k);
    SecondStep(h, i, j, k);
    var other := 6 - i - j;
    var h2 := Shifted(Shifted(h, i, other, k - 1), i, j, 1);
    hide Shifted, Movable, AllAscending;
    ThirdStep(h, h2, i, j, k);
    if AllAscending(h2) { StillMovable(h, h2, i, j, k); }
  }

  // ----- Lists in one array of cells -----

  /** The free list (number 0) and the three pegs, as the cells they run through. */
  type Lists = l: seq<seq<int>> | |l| == 4 witness [[], [], [], []]

  ghost function Total(lists: Lists): multiset<int> {
    multiset(lists[0]) + multiset(lists[1]) + multiset(lists[2]) + multiset(lists[3])
  }

  /** Cursor 0 stands for the end of a list, not for a cell. */
  predicate IsCell(c: int) { c > 0 }

  ghost function Cells(maxcells: nat): set<int> { set c | 0 <= c <= maxcells && IsCell(c) }

  /** The lists together hold each of the cells 1..maxcells exactly once. */
  ghost predicate Partition(lists: Lists, maxcells: nat) {
    Total(lists) == multiset(Cells(maxcells))
  }

  /** Move the first cell of list `s` to the front of list `t`. */
  ghost function Relinked(lists: Lists, s: int, t: int): Lists
    requires 0 <= s < 4 && 0 <= t < 4 && s != t && lists[s] != []
  {
    lists[s := lists[s][1..]][t := [lists[s][0]] + lists[t]]
  }

  lemma RelinkedPartitions(lists: Lists, s: int, t: int, maxcells: nat)
    requires 0 <= s < 4 && 0 <= t < 4 && s != t && lists[s] != [] && Partition(lists, maxcells)
    ensures Partition(Relinked(lists, s, t), maxcells)
  {
    assert lists[s] == [lists[s][0]] + lists[s][1..];
    assert Total(Relinked(lists, s, t)) == Total(lists);
  }

  lemma RelinkedElsewhere(lists: Lists, s: int, t: int, u: int)
    requires 0 <= s < 4 && 0 <= t < 4 && 0 <= u < 4 && s != t && lists[s] != []
    ensures u != s && u != t ==> Relinked(lists, s, t)[u] == lists[u]
  {
  }

  lemma InTotal(lists: Lists, maxcells: nat, u: int, k: int)
    requires Partition(lists, maxcells) && 0 <= u < 4 && 0 <= k < |lists[u]|
    ensures 1 <= lists[u][k] <= maxcells
  {
    assert lists[u][k] in multiset(lists[u]);
    assert lists[u][k] in Total(lists);
  }

  /** What the partition says cell by cell: no cell is on two lists or twice on one, and
      every cell is on one. */
  lemma PartitionMeans(lists: Lists, maxcells: nat)
    requires Partition(lists, maxcells)
    ensures forall s, u, i, k ::
              0 <= s < 4 && 0 <= u < 4 && 0 <= i < |lists[s]| && 0 <= k < |lists[u]| && (s != u || i != k) ==>
                lists[s][i] != lists[u][k]
    ensures forall c :: IsCell(c) && c <= maxcells ==> c in lists[0] || c in lists[1] || c in lists[2] || c in lists[3]
  {
    forall s, u, i, k | 0 <= s < 4 && 0 <= u < 4 && 0 <= i < |lists[s]| && 0 <= k < |lists[u]|
                        && (s != u || i != k)
      ensures lists[s][i] != lists[u][k]
    {
      OccursOnce(lists, maxcells, s, u, i, k);
    }
    forall c | IsCell(c) && c <= maxcells
      ensures c in lists[0] || c in lists[1] || c in lists[2] || c in lists[3]
    {
      assert c in Total(lists);
    }
  }

  lemma OccursOnce(lists: Lists, maxcells: nat, s: int, u: int, i: int, k: int)
    requires Partition(lists, maxcells) && 0 <= s < 4 && 0 <= u < 4
    requires 0 <= i < |lists[s]| && 0 <= k < |lists[u]| && (s != u || i != k)
    ensures lists[s][i] != lists[u][k]
  {
    var x := lists[s][i];
    if s == u {
      var lo, hi := if i < k then i else k, if i < k then k else i;
      assert lists[s] == lists[s][..lo + 1] + lists[s][lo + 1..];
      assert lists[s][lo] in multiset(lists[s][..lo + 1]) && lists[s][hi] in multiset(lists[s][lo + 1..]);
    } else {
      assert x in multiset(lists[s]) && lists[u][k] in multiset(lists[u]);
    }
    assert Total(lists)[x] <= 1;
  }

  /** Following `next` from `head` runs through exactly the cells `c` and ends with 0. */
  ghost predicate Linked(cells: seq<Element>, head: int, c: seq<int>)
    decreases |c|
  {
    if c == [] then head == 0
    else head == c[0] && 0 < head < |cells| && Linked(cells, cells[head].next, c[1..])
  }

  /** Cell `c[k]` carries the disc `d[k]`. */
  ghost predicate Carries(cells: seq<Element>, c: seq<int>, d: seq<int>) {
    |c| == |d| && forall k :: 0 <= k < |c| ==> 0 < c[k] < |cells| && cells[c[k]].discsize == d[k]
  }

  /** The whole memory: `heads` are the free-list cursor and the three peg cursors.  Lists in
      `live` are linked through the cells; a peg that is not live is empty and its cursor not
      yet set. */
  ghost predicate Sound(cells: seq<Element>, heads: seq<int>, lists: Lists, discs: Discs, live: set<int>) {
    && |heads| == 4 && |cells| > 0 && Partition(lists, |cells| - 1)
    && (forall s :: 0 <= s < 4 && s in live ==> Linked(cells, heads[s], lists[s]))
    && (forall s :: IsPeg(s) ==> Carries(cells, lists[s], discs[s]))
    && (forall s :: IsPeg(s) && s !in live ==> lists[s] == [])
    && AllAscending(discs)
  }

  lemma {:induction false} LinkedElsewhere(cells: seq<Element>, head: int, c: seq<int>, x: int, e: Element)
    requires Linked(cells, head, c) && x !in c && 0 <= x < |cells|
    ensures Linked(cells[x := e], head, c)
    decreases |c|
  {
    if c != [] { LinkedElsewhere(cells, cells[head].next, c[1..], x, e); }
  }

  lemma LinkedInFront(cells: seq<Element>, head: int, c: seq<int>, x: int, e: Element)
    requires Linked(cells, head, c) && x !in c && 0 < x < |cells| && e.next == head
    ensures Linked(cells[x := e], x, [x] + c)
  {
    LinkedElsewhere(cells, head, c, x, e);
    assert ([x] + c)[1..] == c;
  }

  lemma CarriesElsewhere(cells: seq<Element>, c: seq<int>, d: seq<int>, x: int, e: Element)
    requires Carries(cells, c, d) && x !in c && 0 < x < |cells|
    ensures Carries(cells[x := e], c, d) && Carries(cells[x := e], [x] + c, [e.discsize] + d)
  {
  }

  lemma NotElsewhere(lists: Lists, maxcells: nat, s: int)
    requires Partition(lists, maxcells) && 0 <= s < 4 && lists[s] != []
    ensures 0 < lists[s][0] <= maxcells && lists[s][0] !in lists[s][1..]
    ensures forall u :: 0 <= u < 4 && u != s ==> lists[s][0] !in lists[u]
  {
    InTotal(lists, maxcells, s, 0);
    forall u, k | 0 <= u < 4 && 0 <= k < |lists[u]| && (u != s || k != 0)
      ensures lists[u][k] != lists[s][0]
    {
      OccursOnce(lists, maxcells, u, s, k, 0);
    }
  }

  lemma LinkedFirst(cells: seq<Element>, head: int, c: seq<int>)
    requires Linked(cells, head, c) && c != []
    ensures head == c[0] && 0 < head < |cells| && Linked(cells, cells[head].next, c[1..])
  {
  }

  lemma RelinkIsLinked(cells: seq<Element>, heads: seq<int>, lists: Lists, s: int, t: int, u: int, d: int)
    requires |heads| == 4 && |cells| > 0 && Partition(lists, |cells| - 1)
    requires 0 <= s < 4 && 0 <= t < 4 && 0 <= u < 4 && s != t && lists[s] != []
    requires Linked(cells, heads[s], lists[s]) && Linked(cells, heads[t], lists[t]) && Linked(cells, heads[u], lists[u])
    ensures var x := lists[s][0];
            && 0 < x < |cells|
            && Linked(cells[x := Element(d, heads[t])], heads[s := cells[x].next][t := x][u], Relinked(lists, s, t)[u])
  {
    hide Partition, Linked;
    var x := lists[s][0];
    NotElsewhere(lists, |cells| - 1, s);
    LinkedFirst(cells, heads[s], lists[s]);
    if u == t {
      LinkedInFront(cells, heads[t], lists[t], x, Element(d, heads[t]));
    } else if u == s {
      LinkedElsewhere(cells, cells[x].next, lists[s][1..], x, Element(d, heads[t]));
    } else {
      LinkedElsewhere(cells, heads[u], lists[u], x, Element(d, heads[t]));
    }
  }

  /** The discs after the first cell of list `s` went to list `t`, where `d` is the disc it
      then carries. */
  ghost function Rediscd(discs: Discs, s: int, t: int, d: int): Discs
    requires 0 <= s < 4 && 0 <= t < 4 && (s != 0 ==> discs[s] != [])
  {
    var taken := if s == 0 then discs else discs[s := discs[s][1..]];
    if t == 0 then taken else taken[t := [d] + taken[t]]
  }

  lemma RelinkCarries(cells: seq<Element>, lists: Lists, discs: Discs, s: int, t: int, u: int, d: int, next: int)
    requires |cells| > 0 && Partition(lists, |cells| - 1)
    requires 0 <= s < 4 && 0 <= t < 4 && s != t && lists[s] != [] && IsPeg(u)
    requires s != 0 ==> discs[s] != []
    requires Carries(cells, lists[u], discs[u])
    ensures var x := lists[s][0];
            && 0 < x < |cells|
            && Carries(cells[x := Element(d, next)], Relinked(lists, s, t)[u], Rediscd(discs, s, t, d)[u])
  {
    var x := lists[s][0];
    hide Partition;
    NotElsewhere(lists, |cells| - 1, s);
    if u == s {
      assert Carries(cells, lists[s][1..], discs[s][1..]);
      CarriesElsewhere(cells, lists[s][1..], discs[s][1..], x, Element(d, next));
    } else {
      CarriesElsewhere(cells, lists[u], discs[u], x, Element(d, next));
    }
  }

  /** Relinking the first cell `x` of list `s` in front of list `t`, with the disc `d` in it,
      keeps the memory sound. */
  lemma RelinkIsSound(cells: seq<Element>, heads: seq<int>, lists: Lists, discs: Discs, live: set<int>,
                      s: int, t: int, d: int)
    requires Sound(cells, heads, lists, discs, live)
    requires 0 <= s < 4 && 0 <= t < 4 && s != t && s in live && t in live && lists[s] != []
    requires s != 0 ==> discs[s] != []
    requires AllAscending(Rediscd(discs, s, t, d))
    ensures var x := lists[s][0];
            && 0 < x < |cells|
            && Sound(cells[x := Element(d, heads[t])], heads[s := cells[x].next][t := x],
                     Relinked(lists, s, t), Rediscd(discs, s, t, d), live)
  {
    hide Linked, Carries, Partition, Relinked, Rediscd, AllAscending;
    var x := lists[s][0];
    NotElsewhere(lists, |cells| - 1, s);
    RelinkedPartitions(lists, s, t, |cells| - 1);
    var cells', heads' := cells[x := Element(d, heads[t])], heads[s := cells[x].next][t := x];
    forall u | 0 <= u < 4 && u in live
      ensures Linked(cells', heads'[u], Relinked(lists, s, t)[u])
    {
      RelinkIsLinked(cells, heads, lists, s, t, u, d);
    }
    forall u | IsPeg(u)
      ensures Carries(cells', Relinked(lists, s, t)[u], Rediscd(discs, s, t, d)[u])
      ensures u !in live ==> Relinked(lists, s, t)[u] == []
    {
      RelinkCarries(cells, lists, discs, s, t, u, d, heads[t]);
      RelinkedElsewhere(lists, s, t, u);
    }
  }

  /** What the cursor of a live list says. */
  lemma HeadOf(cells: seq<Element>, heads: seq<int>, lists: Lists, discs: Discs, live: set<int>, s: int)
    requires Sound(cells, heads, lists, discs, live) && 0 <= s < 4 && s in live
    ensures |heads| == 4 && AllAscending(discs)
    ensures if lists[s] == [] then heads[s] == 0 else heads[s] == lists[s][0] && 0 < heads[s] < |cells|
    ensures IsPeg(s) ==> |discs[s]| == |lists[s]|
    ensures IsPeg(s) && lists[s] != [] ==> cells[heads[s]].discsize == discs[s][0]
  {
    assert Linked(cells, heads[s], lists[s]);
    assert IsPeg(s) ==> Carries(cells, lists[s], discs[s]);
  }

  class Hanoi {
    const maxcells: nat
    const stack: array<int>
    const cellspace: array<Element>
    var freelist: int
    var movesdone: int
    /** How often `Error` was called. */
    var errors: nat
    ghost var lists: Lists
    ghost var discs: Discs

    constructor (maxcells: nat)
      ensures this.maxcells == maxcells && Shaped() && fresh(stack) && fresh(cellspace)
    {
      this.maxcells := maxcells;
      stack := new int[4];
      cellspace := new Element[maxcells + 1](_ => Element(0, 0));
      freelist, movesdone, errors := 0, 0, 0;
      lists, discs := [[], [], [], []], [[], [], [], []];
    }

    ghost predicate Shaped() { stack.Length == 4 && cellspace.Length == maxcells + 1 }

    ghost function Heads(): seq<int>
      requires Shaped()
      reads this`freelist, stack
    {
      [freelist, stack[1], stack[2], stack[3]]
    }

    ghost predicate ValidFor(live: set<int>)
      reads this`freelist, this`lists, this`discs, stack, cellspace
    {
      Shaped() && Sound(cellspace[..], Heads(), lists, discs, live)
    }

    /** The free list and the three pegs are disjoint acyclic lists that hold all cells, and
        disc sizes increase down each peg. */
    ghost predicate Valid()
      reads this`freelist, this`lists, this`discs, stack, cellspace
    {
      ValidFor({0, 1, 2, 3})
    }

    /** Take the first cell off the free list. */
    method GetElement(ghost live: set<int>) returns (temp: int)
      requires ValidFor(live) && 0 in live
      modifies this`freelist, this`errors
      ensures lists[0] == [] ==> temp == 0 && freelist == old(freelist) && errors == old(errors) + 1
      ensures lists[0] != [] ==>
                temp == lists[0][0] && 0 < temp <= maxcells && freelist == cellspace[temp].next && errors == old(errors)
    {
      HeadOf(cellspace[..], Heads(), lists, discs, live, 0);
      temp := 0;
      if freelist > 0 {
        temp := freelist;
        freelist := cellspace[freelist].next;
      } else {
        errors := errors + 1;
      }
    }

    /** Put a disc on a peg.  A disc that is not smaller than the top one is refused; if
        there is no free cell the peg's list is lost. */
    method Push(i: int, s: int, ghost live: set<int>)
      requires ValidFor(live) && IsPeg(s) && 0 in live && s in live
      modifies this`freelist, this`errors, this`lists, this`discs, stack, cellspace
      ensures old(discs[s] != [] && discs[s][0] <= i) ==>
                ValidFor(live) && errors == old(errors) + 1
                && discs == old(discs) && lists == old(lists)
      ensures old((discs[s] == [] || i < discs[s][0]) && lists[0] != []) ==>
                ValidFor(live) && errors == old(errors)
                && discs == Rediscd(old(discs), 0, s, i) && lists == Relinked(old(lists), 0, s)
      ensures old((discs[s] == [] || i < discs[s][0]) && lists[0] == []) ==>
                errors == old(errors) + 1 && stack[s] == 0
    {
      hide Sound, AllAscending, Relinked, Rediscd;
      HeadOf(cellspace[..], Heads(), lists, discs, live, s);
      var errorfound := false;
      if stack[s] > 0 {
        if cellspace[stack[s]].discsize <= i {
          errorfound := true;
          errors := errors + 1;
        }
      }
      if !errorfound {
        ghost var cells, heads := cellspace[..], Heads();
        if lists[0] != [] {
          PushAscends(discs, s, i);
          RelinkIsSound(cells, heads, lists, discs, live, 0, s, i);
        }
        var localel := GetElement(live);
        cellspace[localel] := cellspace[localel].(next := stack[s]);
        stack[s] := localel;
        cellspace[localel] := cellspace[localel].(discsize := i);
        if lists[0] != [] {
          assert cellspace[..] == cells[localel := Element(i, heads[s])];
          assert Heads() == heads[0 := cells[localel].next][s := localel];
          lists, discs := Relinked(lists, 0, s), Rediscd(discs, 0, s, i);
        }
      }
    }

    /** Take the top disc off a peg; its cell goes to the free list. */
    method Pop(s: int) returns (size: int)
      requires Valid() && IsPeg(s)
      modifies this`freelist, this`errors, this`lists, this`discs, stack, cellspace
      ensures Valid()
      ensures old(discs[s]) == [] ==>
                size == 0 && errors == old(errors) + 1 && discs == old(discs) && lists == old(lists)
      ensures old(discs[s]) != [] ==>
                size == old(discs[s][0]) && errors == old(errors)
                && discs == old(discs)[s := old(discs)[s][1..]] && lists == Relinked(old(lists), s, 0)
    {
      hide Sound, AllAscending, Relinked, Rediscd;
      HeadOf(cellspace[..], Heads(), lists, discs, {0, 1, 2, 3}, s);
      if stack[s] > 0 {
        ghost var cells, heads := cellspace[..], Heads();
        ghost var x := stack[s];
        size := cellspace[stack[s]].discsize;
        PopAscends(discs, s, size);
        RelinkIsSound(cells, heads, lists, discs, {0, 1, 2, 3}, s, 0, size);
        var temp := cellspace[stack[s]].next;
        cellspace[stack[s]] := cellspace[stack[s]].(next := freelist);
        freelist := stack[s];
        stack[s] := temp;
        assert cellspace[..] == cells[x := Element(size, heads[0])];
        assert Heads() == heads[s := cells[x].next][0 := x];
        lists, discs := Relinked(lists, s, 0), Rediscd(discs, s, 0, size);
      } else {
        errors := errors + 1;
        size := 0;
      }
    }

    /** Move the top disc of one peg to another.  Where it may not go it is lost; from an
        empty peg a disc of size 0 is moved that was not there. */
    method Move(i: int, j: int)
      requires Valid() && IsPeg(i) && IsPeg(j) && i != j
      modifies this`freelist, this`errors, this`lists, this`discs, this`movesdone, stack, cellspace
      ensures movesdone == old(movesdone) + 1
      ensures old(MayMove(discs, i, j)) ==>
                Valid() && discs == Shifted(old(discs), i, j, 1) && errors == old(errors)
      ensures old(discs[i] != [] && !MayMove(discs, i, j)) ==>
                Valid() && discs == old(discs)[i := old(discs)[i][1..]] && errors == old(errors) + 1
      ensures old(discs[i] == [] && discs[j] != [] && discs[j][0] <= 0) ==>
                Valid() && discs == old(discs) && errors == old(errors) + 2
      ensures old(discs[i] == [] && (discs[j] == [] || 0 < discs[j][0]) && lists[0] != []) ==>
                Valid() && discs == Rediscd(old(discs), 0, j, 0) && errors == old(errors) + 1
      ensures old(discs[i] == [] && (discs[j] == [] || 0 < discs[j][0]) && lists[0] == []) ==>
                stack[j] == 0 && errors == old(errors) + 2
    {
      hide Sound;
      if MayMove(discs, i, j) { MoveDiscs(discs, i, j); }
      PegIsList(i);
      var d := Pop(i);
      Push(d, j, {0, 1, 2, 3});
      movesdone := movesdone + 1;
    }

    method MakeNull(s: int, ghost live: set<int>)
      requires ValidFor(live) && IsPeg(s) && s !in live
      modifies stack
      ensures ValidFor(live + {s}) && discs[s] == []
    {
      hide Sound;
      NullIsSound(cellspace[..], Heads(), lists, discs, live, s);
      ghost var heads := Heads();
      stack[s] := 0;
      assert Heads() == heads[s := 0];
    }

    /** Set up a peg with the discs 1..n, smallest on top. */
    method Init(s: int, n: nat, ghost live: set<int>)
      requires ValidFor(live) && IsPeg(s) && 0 in live && s !in live && n <= |lists[0]|
      modifies this`freelist, this`errors, this`lists, this`discs, stack, cellspace
      ensures ValidFor(live + {s}) && errors == old(errors)
      ensures discs == old(discs)[s := UpFrom(1, n)]
    {
      hide ValidFor;
      MakeNull(s, live);
      var discctr := n;
      while discctr >= 1
        invariant 0 <= discctr <= n && ValidFor(live + {s}) && errors == old(errors)
        invariant |lists[0]| >= discctr && discs == old(discs)[s := UpFrom(discctr + 1, n)]
      {
        if discctr < n { UpFromSplits(discctr + 1, n); }
        Push(discctr, s, live + {s});
        discctr := discctr - 1;
      }
    }

    lemma PegIsList(i: int)
      requires Valid() && IsPeg(i)
      ensures |lists[i]| == |discs[i]|
    {
      HeadOf(cellspace[..], Heads(), lists, discs, {0, 1, 2, 3}, i);
    }

    lemma DiscsAscend()
      requires Valid()
      ensures AllAscending(discs)
    {
      HeadOf(cellspace[..], Heads(), lists, discs, {0, 1, 2, 3}, 1);
    }

    /** The recursive protocol: when the top `k` discs of peg `i` are smaller than all discs
        on the other two pegs, exactly those go to peg `j`, in order, in 2^k - 1 moves and
        without an error. */
    method Tower(i: int, j: int, k: nat)
      requires Valid() && IsPeg(i) && IsPeg(j) && i != j && k >= 1 && Movable(discs, i, k)
      modifies this`freelist, this`errors, this`lists, this`discs, this`movesdone, stack, cellspace
      ensures Valid() && discs == Shifted(old(discs), i, j, k)
      ensures movesdone == old(movesdone) + Exp2(k) - 1 && errors == old(errors)
      decreases k
    {
      hide Valid, Movable, MayMove, Shifted;
      if k == 1 {
        OneDisc(discs, i, j);
        Move(i, j);
      } else {
        ThreeSteps(discs, i, j, k);
        var other := 6 - i - j;
        Tower(i, other, k - 1);
        Move(i, j);
        DiscsAscend();
        Tower(other, j, k - 1);
      }
    }

    /** Put all cells on the free list. */
    method LinkCells()
      requires Shaped()
      modifies this`freelist, this`lists, this`discs, cellspace
      ensures ValidFor({0}) && |lists[0]| == maxcells && discs == [[], [], [], []]
    {
      for i := 1 to maxcells + 1
        invariant forall c :: 1 <= c < i ==> cellspace[c].next == c - 1
      {
        cellspace[i] := cellspace[i].(next := i - 1);
      }
      freelist := maxcells;
      FreshIsSound(cellspace[..], Heads());
      DownIsPartition(maxcells);
      lists, discs := [Down(maxcells), [], [], []], [[], [], [], []];
    }

    /** The benchmark run with `n` discs, from whatever state an earlier run left. */
    method Run(n: nat)
      requires Shaped() && 1 <= n <= maxcells
      modifies this, stack, cellspace
      ensures Valid() && discs == [[], [], UpFrom(1, n), []]
      ensures movesdone == Exp2(n) - 1 && errors == old(errors)
    {
      hide ValidFor, Exp2;
      LinkCells();
      Init(1, n, {0});
      assert {0} + {1} == {0, 1} && {0, 1} + {2} == {0, 1, 2} && {0, 1, 2} + {3} == {0, 1, 2, 3};
      MakeNull(2, {0, 1});
      MakeNull(3, {0, 1, 2});
      movesdone := 0;
      UpFromSplits(1, n);
      UpFromAscends(1, n);
      assert discs == [[], UpFrom(1, n), [], []];
      assert Shifted(discs, 1, 2, n) == [[], [], UpFrom(1, n), []] by {
        assert UpFrom(1, n)[..n] + [] == UpFrom(1, n) && UpFrom(1, n)[n..] == [];
      }
      Tower(1, 2, n);
    }

    /** The benchmark: fourteen discs, and the error message about the count never printed. */
    method Benchmark() returns (complain: bool)
      requires Shaped() && maxcells >= 14
      modifies this, stack, cellspace
      ensures Valid() && discs == [[], [], UpFrom(1, 14), []]
      ensures movesdone == 16383 && !complain
    {
      var n := 14;
      FourteenDiscs(n);
      hide Exp2;
      Run(n);
      complain := movesdone != 16383;
    }
  }

  /** The numbers n, n - 1, ..., 1. */
  ghost function Down(n: nat): seq<int> { if n == 0 then [] else [n] + Down(n - 1) }

  /** The numbers a, a + 1, ..., b. */
  ghost function UpFrom(a: int, b: int): seq<int>
    decreases b - a
  {
    if a > b then [] else [a] + UpFrom(a + 1, b)
  }

  lemma {:induction false} DownIsPartition(n: nat)
    ensures multiset(Down(n)) == multiset(Cells(n)) && |Down(n)| == n
  {
    if n == 0 { assert Cells(0) == {}; }
    hide Cells;
    if n > 0 {
      DownIsPartition(n - 1);
      OneMoreCell(n);
    }
  }

  lemma OneMoreCell(n: nat)
    requires n > 0
    ensures multiset(Cells(n)) == multiset{n} + multiset(Cells(n - 1))
  {
    assert Cells(n) == Cells(n - 1) + {n};
  }

  lemma {:induction false} DownIsLinked(cells: seq<Element>, n: nat)
    requires n < |cells| && forall c :: 1 <= c <= n ==> cells[c].next == c - 1
    ensures Linked(cells, n, Down(n))
  {
    if n > 0 { DownIsLinked(cells, n - 1); }
  }

  /** All cells on the free list, no peg set up. */
  lemma FreshIsSound(cells: seq<Element>, heads: seq<int>)
    requires |cells| > 0 && |heads| == 4 && heads[0] == |cells| - 1
    requires forall c :: 1 <= c < |cells| ==> cells[c].next == c - 1
    ensures Sound(cells, heads, [Down(|cells| - 1), [], [], []], [[], [], [], []], {0})
  {
    hide Linked, Down, Partition;
    FreshIsPartition(|cells| - 1);
    DownIsLinked(cells, |cells| - 1);
    OnlyFree(cells, heads, Down(|cells| - 1));
  }

  lemma OnlyFree(cells: seq<Element>, heads: seq<int>, free: seq<int>)
    requires |cells| > 0 && |heads| == 4 && Partition([free, [], [], []], |cells| - 1) && Linked(cells, heads[0], free)
    ensures Sound(cells, heads, [free, [], [], []], [[], [], [], []], {0})
  {
    hide Linked, Partition;
  }

  lemma FreshIsPartition(n: nat)
    ensures Partition([Down(n), [], [], []], n)
  {
    DownIsPartition(n);
    hide Down, Cells;
    assert Total([Down(n), [], [], []]) == multiset(Down(n));
  }

  /** Setting the cursor of an empty peg to 0 brings the peg to life. */
  lemma NullIsSound(cells: seq<Element>, heads: seq<int>, lists: Lists, discs: Discs, live: set<int>, s: int)
    requires Sound(cells, heads, lists, discs, live) && IsPeg(s) && s !in live
    ensures Sound(cells, heads[s := 0], lists, discs, live + {s}) && discs[s] == []
  {
    hide Partition, AllAscending;
    assert Carries(cells, lists[s], discs[s]) && lists[s] == [];
    forall u | 0 <= u < 4 && u in live + {s}
      ensures Linked(cells, heads[s := 0][u], lists[u])
    {
      if u != s { assert Linked(cells, heads[u], lists[u]); }
    }
  }

  lemma {:induction false} UpFromSplits(a: int, b: int)
    requires a <= b
    ensures UpFrom(a, b) != [] && UpFrom(a, b)[0] == a && |UpFrom(a, b)| == b - a + 1
    decreases b - a
  {
    if a < b { UpFromSplits(a + 1, b); }
  }

  /** A single tower on an otherwise empty board can be moved. */
  lemma {:induction false} UpFromAscends(a: int, b: int)
    ensures Ascending(UpFrom(a, b)) && forall k :: 0 <= k < |UpFrom(a, b)| ==> UpFrom(a, b)[k] >= a
    decreases b - a
  {
    if a <= b { UpFromAscends(a + 1, b); }
  }

  lemma OneDisc(h: Discs, i: int, j: int)
    requires IsPeg(i) && IsPeg(j) && i != j && Movable(h, i, 1)
    ensures MayMove(h, i, j)
  {
  }

  lemma MoveDiscs(h: Discs, i: int, j: int)
    requires IsPeg(i) && IsPeg(j) && i != j && MayMove(h, i, j)
    ensures Rediscd(h[i := h[i][1..]], 0, j, h[i][0]) == Shifted(h, i, j, 1)
  {
    assert h[i][..1] == [h[i][0]];
  }

  lemma PopAscends(discs: Discs, s: int, d: int)
    requires AllAscending(discs) && IsPeg(s) && discs[s] != []
    ensures AllAscending(Rediscd(discs, s, 0, d)) && Rediscd(discs, s, 0, d) == discs[s := discs[s][1..]]
  {
    assert Ascending(discs[s]);
  }

  lemma PushAscends(discs: Discs, s: int, i: int)
    requires AllAscending(discs) && IsPeg(s) && (discs[s] == [] || i < discs[s][0])
    ensures AllAscending(Rediscd(discs, 0, s, i))
  {
    var after := Rediscd(discs, 0, s, i);
    forall u | IsPeg(u)
      ensures Ascending(after[u])
    {
      if u == s {
        assert after[s] == [i] + discs[s];
        assert Ascending(discs[s]);
      }
    }
  }

  lemma FourteenDiscs(n: nat)
    requires n == 14
    ensures Exp2(n) - 1 == 16383
  {
    assert Exp2(n - 10) == 16 by { assert Exp2(n - 12) == 4; }
    Exp2Add(n - 10, n - 10);
    Exp2Add(n - 6, n - 10);
    Exp2Add(n - 2, n - 12);
  }
}
