/** The print queue of `o3-pipeview.py`: instructions arrive out of order, are held back,
    sorted by sequence number and printed down to a threshold. */
module PipeView {
  import opened Remainders

  /** A fetched instruction; `text` stands for the fields that are only printed. */
  datatype Inst = Inst(sn: int, fetch: int, retire: int, text: string)

  // ----- The sort -----

  ghost predicate Sorted(s: seq<Inst>) {
    forall i, j :: 0 <= i < j < |s| ==> s[i].sn <= s[j].sn
  }

  /** Insert behind all entries that are not larger. */
  function Insert(s: seq<Inst>, x: Inst): seq<Inst>
    decreases |s|
  {
    if s == [] || s[|s| - 1].sn <= x.sn then s + [x]
    else Insert(s[..|s| - 1], x) + [s[|s| - 1]]
  }

  /** The stable sort by sequence number. */
  function StableSort(s: seq<Inst>): seq<Inst>
    decreases |s|
  {
    if s == [] then [] else Insert(StableSort(s[..|s| - 1]), s[|s| - 1])
  }

  lemma SortedPush(s: seq<Inst>, x: Inst)
    requires Sorted(s) && forall y :: y in s ==> y.sn <= x.sn
    ensures Sorted(s + [x])
  {
    var t := s + [x];
    forall i, j | 0 <= i < j < |t| ensures t[i].sn <= t[j].sn { assert t[i] == s[i] && s[i] in s; }
  }

  lemma LastIsLargest(s: seq<Inst>)
    requires Sorted(s) && s != []
    ensures Sorted(s[..|s| - 1]) && forall y :: y in s ==> y.sn <= s[|s| - 1].sn
  {
  }

  lemma {:induction false} InsertKeeps(s: seq<Inst>, x: Inst)
    ensures multiset(Insert(s, x)) == multiset(s) + multiset{x}
    decreases |s|
  {
    if s != [] && s[|s| - 1].sn > x.sn {
      assert s == s[..|s| - 1] + [s[|s| - 1]];
      InsertKeeps(s[..|s| - 1], x);
    }
  }

  lemma {:induction false} InsertSorts(s: seq<Inst>, x: Inst)
    requires Sorted(s)
    ensures Sorted(Insert(s, x)) && multiset(Insert(s, x)) == multiset(s) + multiset{x}
    decreases |s|
  {
    hide Sorted;
    InsertKeeps(s, x);
    if s == [] {
      SortedPush([], x);
    } else {
      LastIsLargest(s);
      var init, last := s[..|s| - 1], s[|s| - 1];
      if last.sn <= x.sn {
        SortedPush(s, x);
      } else {
        InsertSorts(init, x);
        var t := Insert(init, x);
        forall y | y in t ensures y.sn <= last.sn { assert y in multiset(t); }
        SortedPush(t, last);
      }
    }
  }

  lemma {:induction false} StableSortSorts(s: seq<Inst>)
    ensures Sorted(StableSort(s)) && multiset(StableSort(s)) == multiset(s)
    decreases |s|
  {
    if s != [] {
      StableSortSorts(s[..|s| - 1]);
      InsertSorts(StableSort(s[..|s| - 1]), s[|s| - 1]);
      assert s == s[..|s| - 1] + [s[|s| - 1]];
    }
  }

  lemma {:induction false} SortedStays(s: seq<Inst>)
    requires Sorted(s)
    ensures StableSort(s) == s
    decreases |s|
  {
    if s != [] {
      SortedStays(s[..|s| - 1]);
      assert s == s[..|s| - 1] + [s[|s| - 1]];
    }
  }

  /** An entry not smaller than any in front can be inserted behind them. */
  lemma {:induction false} InsertBehind(front: seq<Inst>, s: seq<Inst>, x: Inst)
    requires front == [] || front[|front| - 1].sn <= x.sn
    ensures Insert(front + s, x) == front + Insert(s, x)
    decreases |s|
  {
    var all := front + s;
    if s == [] {
      assert all == front;
    } else if s[|s| - 1].sn > x.sn {
      assert all[..|all| - 1] == front + s[..|s| - 1];
      InsertBehind(front, s[..|s| - 1], x);
    }
  }

  // ----- The queue -----

  /** What waits and what has left the queue, in order. */
  datatype State = State(queue: seq<Inst>, released: seq<Inst>)

  /** Sort and release until `lower` are left. */
  function Flush(st: State, lower: nat): State {
    var q := StableSort(st.queue);
    if |q| <= lower then State(q, st.released)
    else State(q[|q| - lower..], st.released + q[..|q| - lower])
  }

  function Enqueue(st: State, x: Inst, max: nat, min: nat): State {
    var next := State(st.queue + [x], st.released);
    if |next.queue| > max then Flush(next, min) else next
  }

  function Feed(trace: seq<Inst>, max: nat, min: nat): State
    decreases |trace|
  {
    if trace == [] then State([], [])
    else Enqueue(Feed(trace[..|trace| - 1], max, min), trace[|trace| - 1], max, min)
  }

  /** Everything that leaves the queue over a whole trace. */
  function Released(trace: seq<Inst>, max: nat, min: nat): seq<Inst> {
    Flush(Feed(trace, max, min), 0).released
  }

  /** Nothing released so far is larger than `x`. */
  ghost predicate InTime(st: State, x: Inst) {
    forall y :: y in st.released ==> y.sn <= x.sn
  }

  /** No instruction arrives after a larger one has been released. */
  ghost predicate OnTime(trace: seq<Inst>, max: nat, min: nat) {
    forall k :: 0 <= k < |trace| ==> InTime(Feed(trace[..k], max, min), trace[k])
  }

  lemma FlushKeeps(st: State, lower: nat)
    ensures multiset(Flush(st, lower).queue) + multiset(Flush(st, lower).released)
         == multiset(st.queue) + multiset(st.released)
    ensures st.released <= Flush(st, lower).released
  {
    hide StableSort, Sorted;
    StableSortSorts(st.queue);
    var q := StableSort(st.queue);
    if |q| > lower { assert q == q[..|q| - lower] + q[|q| - lower..]; }
  }

  /** Nothing is lost or duplicated on the way, and what is released stays released. */
  lemma {:induction false} FeedKeeps(trace: seq<Inst>, max: nat, min: nat)
    ensures var st := Feed(trace, max, min); multiset(st.queue) + multiset(st.released) == multiset(trace)
    decreases |trace|
  {
    if trace != [] {
      var init, x := trace[..|trace| - 1], trace[|trace| - 1];
      assert trace == init + [x];
      FeedKeeps(init, max, min);
      var st := Feed(init, max, min);
      FlushKeeps(State(st.queue + [x], st.released), min);
    }
  }

  lemma ReleasedIsTrace(trace: seq<Inst>, max: nat, min: nat)
    ensures multiset(Released(trace, max, min)) == multiset(trace)
  {
    FeedKeeps(trace, max, min);
    FlushKeeps(Feed(trace, max, min), 0);
    assert Flush(Feed(trace, max, min), 0).queue == [];
  }

  // ----- When the output is sorted -----

  /** What has been released, followed by what waits in order, is the sorted trace. */
  ghost predicate InOrder(st: State, trace: seq<Inst>) {
    st.released + StableSort(st.queue) == StableSort(trace)
  }

  lemma FlushInOrder(st: State, trace: seq<Inst>, lower: nat)
    requires InOrder(st, trace)
    ensures InOrder(Flush(st, lower), trace)
  {
    hide StableSort;
    var q := StableSort(st.queue);
    StableSortSorts(st.queue);
    if |q| <= lower {
      SortedStays(q);
    } else {
      var n := |q| - lower;
      SortedStays(q[n..]);
      assert (st.released + q[..n]) + q[n..] == st.released + q;
    }
  }

  lemma EnqueueInOrder(st: State, trace: seq<Inst>, x: Inst, max: nat, min: nat)
    requires InOrder(st, trace) && InTime(st, x)
    ensures InOrder(Enqueue(st, x, max, min), trace + [x])
  {
    assert (trace + [x])[..|trace|] == trace && (st.queue + [x])[..|st.queue|] == st.queue;
    InsertBehind(st.released, StableSort(st.queue), x);
    var next := State(st.queue + [x], st.released);
    assert InOrder(next, trace + [x]);
    FlushInOrder(next, trace + [x], min);
  }

  lemma FeedOne(trace: seq<Inst>, max: nat, min: nat)
    requires trace != []
    ensures var n := |trace| - 1; Feed(trace, max, min) == Enqueue(Feed(trace[..n], max, min), trace[n], max, min)
  {
  }

  /** A trace is on time if and only if all but its last instruction are and that one is. */
  lemma OnTimeSoFar(trace: seq<Inst>, max: nat, min: nat)
    requires trace != []
    ensures var n := |trace| - 1;
            OnTime(trace, max, min)
            <==> OnTime(trace[..n], max, min) && InTime(Feed(trace[..n], max, min), trace[n])
  {
    hide Feed, InTime;
    var n := |trace| - 1;
    var init := trace[..n];
    assert forall k :: 0 <= k < n ==> init[..k] == trace[..k] && init[k] == trace[k];
    if OnTime(init, max, min) && InTime(Feed(init, max, min), trace[n]) {
      forall k | 0 <= k < |trace| ensures InTime(Feed(trace[..k], max, min), trace[k]) {
        if k < n { assert InTime(Feed(init[..k], max, min), init[k]); }
      }
    }
  }

  lemma NothingYet(max: nat, min: nat)
    ensures InOrder(Feed([], max, min), [])
  {
  }

  lemma {:induction false} FeedInOrder(trace: seq<Inst>, max: nat, min: nat)
    requires OnTime(trace, max, min)
    ensures InOrder(Feed(trace, max, min), trace)
    decreases |trace|
  {
    hide *;
    if trace == [] {
      NothingYet(max, min);
    } else {
      var n := |trace| - 1;
      OnTimeSoFar(trace, max, min);
      FeedInOrder(trace[..n], max, min);
      FeedOne(trace, max, min);
      EnqueueInOrder(Feed(trace[..n], max, min), trace[..n], trace[n], max, min);
      assert trace == trace[..n] + [trace[n]];
    }
  }

  lemma EnqueueGrows(st: State, x: Inst, max: nat, min: nat)
    ensures st.released <= Enqueue(st, x, max, min).released
  {
    hide Flush;
    FlushKeeps(State(st.queue + [x], st.released), min);
  }

  lemma {:induction false} FeedGrows(trace: seq<Inst>, max: nat, min: nat, k: nat)
    requires k <= |trace|
    ensures Feed(trace[..k], max, min).released <= Feed(trace, max, min).released
    decreases |trace|
  {
    hide *;
    if k < |trace| {
      var n := |trace| - 1;
      assert trace[..n][..k] == trace[..k];
      FeedGrows(trace[..n], max, min, k);
      FeedOne(trace, max, min);
      EnqueueGrows(Feed(trace[..n], max, min), trace[n], max, min);
    } else {
      assert trace[..k] == trace;
    }
  }

  lemma ComesLater(trace: seq<Inst>, k: nat, early: seq<Inst>, late: seq<Inst>)
    requires k < |trace| && multiset(early) <= multiset(trace[..k]) && multiset(early + late) == multiset(trace)
    ensures trace[k] in late
  {
    assert trace == trace[..k] + ([trace[k]] + trace[k + 1..]);
    assert multiset(trace)[trace[k]] > multiset(trace[..k])[trace[k]];
    assert multiset(late)[trace[k]] > 0;
  }

  /** An instruction that arrives after a larger one was released comes out behind it. */
  lemma LateIsMisplaced(trace: seq<Inst>, max: nat, min: nat, k: nat)
    requires k < |trace| && !InTime(Feed(trace[..k], max, min), trace[k])
    ensures !Sorted(Released(trace, max, min))
  {
    var early, all, x := Feed(trace[..k], max, min).released, Released(trace, max, min), trace[k];
    hide *;
    ReleasedGrows(trace, max, min, k);
    TooLate(Feed(trace[..k], max, min), x);
    var late := all[|early|..];
    assert all == early + late;
    FeedKeeps(trace[..k], max, min);
    ReleasedIsTrace(trace, max, min);
    ComesLater(trace, k, early, late);
    Misplaced(early, late, x);
  }

  lemma Misplaced(early: seq<Inst>, late: seq<Inst>, x: Inst)
    requires x in late && exists y :: y in early && y.sn > x.sn
    ensures !Sorted(early + late)
  {
    var y :| y in early && y.sn > x.sn;
    var i :| 0 <= i < |early| && early[i] == y;
    var j :| 0 <= j < |late| && late[j] == x;
    var all := early + late;
    assert all[i] == y && all[|early| + j] == x;
  }

  lemma TooLate(st: State, x: Inst)
    requires !InTime(st, x)
    ensures exists y :: y in st.released && y.sn > x.sn
  {
  }

  lemma ReleasedGrows(trace: seq<Inst>, max: nat, min: nat, k: nat)
    requires k <= |trace|
    ensures Feed(trace[..k], max, min).released <= Released(trace, max, min)
  {
    hide Feed, Flush;
    FeedGrows(trace, max, min, k);
    FlushKeeps(Feed(trace, max, min), 0);
  }

  /** The output is the sorted trace exactly when no instruction arrives after a larger one
      has been released. */
  lemma SortedIffOnTime(trace: seq<Inst>, max: nat, min: nat)
    ensures Released(trace, max, min) == StableSort(trace) <==> OnTime(trace, max, min)
  {
    if OnTime(trace, max, min) {
      FeedInOrder(trace, max, min);
      var st := Feed(trace, max, min);
      FlushInOrder(st, trace, 0);
      assert Flush(st, 0).queue == [];
    } else {
      var k :| 0 <= k < |trace| && !InTime(Feed(trace[..k], max, min), trace[k]);
      LateIsMisplaced(trace, max, min, k);
      StableSortSorts(trace);
    }
  }

  // ----- Bounded disorder -----

  function CountLarger(s: seq<Inst>, v: int): nat
    decreases |s|
  {
    if s == [] then 0 else CountLarger(s[..|s| - 1], v) + if s[|s| - 1].sn > v then 1 else 0
  }

  /** No instruction is preceded by more than `min` larger ones. */
  ghost predicate Bounded(trace: seq<Inst>, min: nat) {
    forall k :: 0 <= k < |trace| ==> CountLarger(trace[..k], trace[k].sn) <= min
  }

  lemma {:induction false} CountInsert(s: seq<Inst>, x: Inst, v: int)
    ensures CountLarger(Insert(s, x), v) == CountLarger(s, v) + if x.sn > v then 1 else 0
    decreases |s|
  {
    var t := Insert(s, x);
    if s == [] || s[|s| - 1].sn <= x.sn {
      assert t[..|t| - 1] == s;
    } else {
      CountInsert(s[..|s| - 1], x, v);
      assert t[..|t| - 1] == Insert(s[..|s| - 1], x);
    }
  }

  lemma {:induction false} CountSorted(s: seq<Inst>, v: int)
    ensures CountLarger(StableSort(s), v) == CountLarger(s, v)
    decreases |s|
  {
    if s != [] {
      CountSorted(s[..|s| - 1], v);
      CountInsert(StableSort(s[..|s| - 1]), s[|s| - 1], v);
    }
  }

  /** In a sorted sequence everything from a larger entry on is larger. */
  lemma {:induction false} CountTail(s: seq<Inst>, v: int, from: nat)
    requires Sorted(s) && from < |s| && s[from].sn > v
    ensures CountLarger(s, v) >= |s| - from
    decreases |s|
  {
    if from < |s| - 1 { CountTail(s[..|s| - 1], v, from); }
  }

  /** Once something has been released, at least `min` instructions wait. */
  lemma {:induction false} HoldsBack(trace: seq<Inst>, max: nat, min: nat)
    ensures var st := Feed(trace, max, min); st.released != [] ==> |st.queue| >= min
    decreases |trace|
  {
    if trace != [] {
      HoldsBack(trace[..|trace| - 1], max, min);
      var st := Feed(trace[..|trace| - 1], max, min);
      var next := State(st.queue + [trace[|trace| - 1]], st.released);
      StableSortSorts(next.queue);
      assert |multiset(StableSort(next.queue))| == |multiset(next.queue)|;
    }
  }

  lemma {:induction false} BoundedIsOnTime(trace: seq<Inst>, max: nat, min: nat)
    requires Bounded(trace, min)
    ensures OnTime(trace, max, min)
    decreases |trace|
  {
    if trace == [] {
      assert OnTime(trace, max, min);
    } else {
      var n := |trace| - 1;
      assert Bounded(trace[..n], min) && CountLarger(trace[..n], trace[n].sn) <= min by {
        assert forall k :: 0 <= k < n ==> trace[..n][..k] == trace[..k];
      }
      hide *;
      BoundedIsOnTime(trace[..n], max, min);
      FeedInOrder(trace[..n], max, min);
      HoldsBack(trace[..n], max, min);
      ArrivesInTime(Feed(trace[..n], max, min), trace[..n], trace[n], min);
      OnTimeSoFar(trace, max, min);
    }
  }

  lemma ArrivesInTime(st: State, trace: seq<Inst>, x: Inst, min: nat)
    requires InOrder(st, trace) && (st.released != [] ==> |st.queue| >= min)
    requires CountLarger(trace, x.sn) <= min
    ensures InTime(st, x)
  {
    var s := StableSort(trace);
    StableSortSorts(trace);
    StableSortSorts(st.queue);
    assert |multiset(StableSort(st.queue))| == |multiset(st.queue)|;
    CountSorted(trace, x.sn);
    forall y | y in st.released
      ensures y.sn <= x.sn
    {
      var i :| 0 <= i < |st.released| && st.released[i] == y;
      assert s[i] == y;
      if y.sn > x.sn { CountTail(s, x.sn, i); }
    }
  }

  /** The promise of the threshold: a trace in which no instruction is preceded by more than
      `min` larger ones is printed in order. */
  lemma BoundedPrintsInOrder(trace: seq<Inst>, max: nat, min: nat)
    requires Bounded(trace, min)
    ensures Released(trace, max, min) == StableSort(trace)
  {
    BoundedIsOnTime(trace, max, min);
    SortedIffOnTime(trace, max, min);
  }

  // ----- The exact condition on the trace -----

  /** The most that wait, and how many arrivals lie between two releases. */
  function Cap(max: nat, min: nat): nat { if min <= max then max else min }

  function Period(max: nat, min: nat): (p: nat)
    ensures p > 0
  {
    Cap(max, min) + 1 - min
  }

  /** The arrival with which the queue overflows. */
  predicate FlushAt(f: nat, max: nat, min: nat) {
    f > Cap(max, min) && (f - Cap(max, min) - 1) % Period(max, min) == 0
  }

  /** How many wait after `n` arrivals. */
  function Waiting(n: nat, max: nat, min: nat): nat {
    if n <= Cap(max, min) then n else min + (n - Cap(max, min) - 1) % Period(max, min)
  }

  lemma WaitingStep(n: nat, max: nat, min: nat)
    requires n > 0
    ensures FlushAt(n, max, min) <==> Waiting(n - 1, max, min) == Cap(max, min)
    ensures Waiting(n - 1, max, min) <= Cap(max, min)
    ensures Waiting(n, max, min) == if FlushAt(n, max, min) then min else Waiting(n - 1, max, min) + 1
  {
    var c, p := Cap(max, min), Period(max, min);
    if n > c + 1 { NextRemainder(n - c - 2, p); }
    if n == c + 1 { assert 0 % p == 0; }
  }

  lemma NextRemainder(x: nat, p: nat)
    requires p > 0
    ensures (x + 1) % p == if x % p == p - 1 then 0 else x % p + 1
  {
    var q, r := x / p, x % p;
    assert x == q * p + r;
    if r == p - 1 {
      assert x + 1 == (q + 1) * p + 0;
      DivMod(q + 1, p, 0);
    } else {
      DivMod(q, p, r + 1);
    }
  }

  /** The queue and its releases follow that rhythm whatever arrives. */
  lemma {:induction false} FeedRhythm(trace: seq<Inst>, max: nat, min: nat)
    ensures |Feed(trace, max, min).queue| == Waiting(|trace|, max, min)
    ensures FlushAt(|trace|, max, min) ==> |Feed(trace, max, min).released| == |trace| - min
    ensures trace != [] && !FlushAt(|trace|, max, min) ==>
              Feed(trace, max, min).released == Feed(trace[..|trace| - 1], max, min).released
    decreases |trace|
  {
    hide *;
    if trace == [] {
      NothingFed(max, min);
    } else {
      var n := |trace| - 1;
      FeedRhythm(trace[..n], max, min);
      FeedOne(trace, max, min);
      WaitingStep(|trace|, max, min);
      EnqueueRhythm(Feed(trace[..n], max, min), trace[n], max, min);
      FeedKeeps(trace, max, min);
      SizesAdd(Feed(trace, max, min), trace);
    }
  }

  lemma NothingFed(max: nat, min: nat)
    ensures Feed([], max, min) == State([], []) && Waiting(0, max, min) == 0 && !FlushAt(0, max, min)
  {
  }

  lemma EnqueueRhythm(st: State, x: Inst, max: nat, min: nat)
    requires |st.queue| <= Cap(max, min)
    ensures var next := Enqueue(st, x, max, min);
            if |st.queue| == Cap(max, min) then |next.queue| == min
            else |next.queue| == |st.queue| + 1 && next.released == st.released
  {
    hide StableSort, Sorted;
    SameSize(st.queue + [x]);
  }

  lemma SameSize(s: seq<Inst>)
    ensures |StableSort(s)| == |s|
  {
    StableSortSorts(s);
    assert |multiset(StableSort(s))| == |multiset(s)|;
  }

  lemma SizesAdd(st: State, trace: seq<Inst>)
    requires multiset(st.queue) + multiset(st.released) == multiset(trace)
    ensures |st.queue| + |st.released| == |trace|
  {
    assert |multiset(st.queue)| + |multiset(st.released)| == |multiset(trace)|;
  }

  /** At a release exactly the smallest have left, so an instruction is in time for it if
      at most the `min` that wait are larger. */
  lemma FlushInTimeIff(st: State, trace: seq<Inst>, x: Inst, min: nat)
    requires InOrder(st, trace) && |st.queue| == min && |st.released| == |trace| - min
    ensures InTime(st, x) <==> CountLarger(trace, x.sn) <= min
  {
    hide *;
    if CountLarger(trace, x.sn) <= min {
      ArrivesInTime(st, trace, x, min);
    } else if InTime(st, x) {
      FewAreLarger(st, trace, x, min);
    }
  }

  lemma FewAreLarger(st: State, trace: seq<Inst>, x: Inst, min: nat)
    requires InOrder(st, trace) && |st.released| == |trace| - min && InTime(st, x)
    ensures CountLarger(trace, x.sn) <= min
  {
    hide StableSort, CountLarger;
    CountSorted(trace, x.sn);
    SameSize(trace);
    var s := StableSort(trace);
    assert forall i :: 0 <= i < |st.released| ==> s[i] == st.released[i];
    CountBetween(s, x.sn, |st.released|);
  }

  /** If the queue overflows with arrival `f`, at most `min` up to it are larger. */
  ghost predicate InTimeAt(trace: seq<Inst>, max: nat, min: nat, x: Inst, f: nat)
    requires f <= |trace|
  {
    FlushAt(f, max, min) ==> CountLarger(trace[..f], x.sn) <= min
  }

  ghost predicate InTimeFor(trace: seq<Inst>, max: nat, min: nat, x: Inst) {
    forall f: nat :: f <= |trace| ==> InTimeAt(trace, max, min, x, f)
  }

  lemma InTimeAtPrefix(trace: seq<Inst>, max: nat, min: nat, x: Inst, f: nat)
    requires f < |trace|
    ensures InTimeAt(trace, max, min, x, f) <==> InTimeAt(trace[..|trace| - 1], max, min, x, f)
  {
    assert trace[..|trace| - 1][..f] == trace[..f];
  }

  lemma InTimeAtEnd(trace: seq<Inst>, max: nat, min: nat, x: Inst)
    ensures InTimeAt(trace, max, min, x, |trace|) <==> (FlushAt(|trace|, max, min) ==> CountLarger(trace, x.sn) <= min)
  {
    assert trace[..|trace|] == trace;
  }

  lemma InTimeForStep(trace: seq<Inst>, max: nat, min: nat, x: Inst)
    requires trace != []
    ensures InTimeFor(trace, max, min, x) <==>
            && InTimeFor(trace[..|trace| - 1], max, min, x)
            && (FlushAt(|trace|, max, min) ==> CountLarger(trace, x.sn) <= min)
  {
    hide InTimeAt, FlushAt, CountLarger;
    var init := trace[..|trace| - 1];
    InTimeAtEnd(trace, max, min, x);
    forall f: nat | f <= |init| ensures InTimeAt(trace, max, min, x, f) <==> InTimeAt(init, max, min, x, f) {
      InTimeAtPrefix(trace, max, min, x, f);
    }
  }

  lemma {:induction false} InTimeIff(trace: seq<Inst>, max: nat, min: nat, x: Inst)
    requires OnTime(trace, max, min)
    ensures InTime(Feed(trace, max, min), x) <==> InTimeFor(trace, max, min, x)
    decreases |trace|
  {
    hide *;
    if trace == [] {
      NothingLate(max, min, x);
    } else {
      var n := |trace| - 1;
      OnTimeSoFar(trace, max, min);
      InTimeIff(trace[..n], max, min, x);
      InTimeForStep(trace, max, min, x);
      FeedRhythm(trace, max, min);
      FeedInOrder(trace, max, min);
      if FlushAt(|trace|, max, min) {
        WaitingStep(|trace|, max, min);
        FlushInTimeIff(Feed(trace, max, min), trace, x, min);
        FeedGrows(trace, max, min, n);
        if InTime(Feed(trace, max, min), x) { InTimeBefore(Feed(trace[..n], max, min), Feed(trace, max, min), x); }
      } else {
        SameReleased(Feed(trace[..n], max, min), Feed(trace, max, min), x);
      }
    }
  }

  lemma NothingLate(max: nat, min: nat, x: Inst)
    ensures InTime(Feed([], max, min), x) && InTimeFor([], max, min, x)
  {
  }

  lemma InTimeBefore(st: State, st': State, x: Inst)
    requires st.released <= st'.released && InTime(st', x)
    ensures InTime(st, x)
  {
    forall y | y in st.released ensures y in st'.released {
      var i :| 0 <= i < |st.released| && st.released[i] == y;
      assert st'.released[i] == y;
    }
  }

  lemma SameReleased(st: State, st': State, x: Inst)
    requires st.released == st'.released
    ensures InTime(st, x) <==> InTime(st', x)
  {
  }

  /** No instruction that comes after an arrival with which the queue overflows has more than
      `min` larger ones up to that arrival. */
  ghost predicate Punctual(trace: seq<Inst>, max: nat, min: nat) {
    forall k :: 0 <= k < |trace| ==> InTimeFor(trace[..k], max, min, trace[k])
  }

  lemma PunctualSoFar(trace: seq<Inst>, max: nat, min: nat)
    requires trace != []
    ensures var n := |trace| - 1;
            Punctual(trace, max, min) <==> Punctual(trace[..n], max, min) && InTimeFor(trace[..n], max, min, trace[n])
  {
    hide InTimeFor;
    var n := |trace| - 1;
    var init := trace[..n];
    assert forall k :: 0 <= k < n ==> init[..k] == trace[..k] && init[k] == trace[k];
    if Punctual(init, max, min) && InTimeFor(init, max, min, trace[n]) {
      forall k | 0 <= k < |trace| ensures InTimeFor(trace[..k], max, min, trace[k]) {
        if k < n { assert InTimeFor(init[..k], max, min, init[k]); }
      }
    }
  }

  lemma {:induction false} OnTimeIffPunctual(trace: seq<Inst>, max: nat, min: nat)
    ensures OnTime(trace, max, min) <==> Punctual(trace, max, min)
    decreases |trace|
  {
    hide *;
    if trace == [] {
      NobodyLate(max, min);
    } else {
      var n := |trace| - 1;
      OnTimeSoFar(trace, max, min);
      PunctualSoFar(trace, max, min);
      OnTimeIffPunctual(trace[..n], max, min);
      if OnTime(trace[..n], max, min) { InTimeIff(trace[..n], max, min, trace[n]); }
    }
  }

  lemma NobodyLate(max: nat, min: nat)
    ensures OnTime([], max, min) && Punctual([], max, min)
  {
  }

  /** The output is the sorted trace exactly when, at each overflow, no later instruction has
      more than `min` larger ones in front of it: a condition on the trace alone. */
  lemma SortedIffPunctual(trace: seq<Inst>, max: nat, min: nat)
    ensures Released(trace, max, min) == StableSort(trace) <==> Punctual(trace, max, min)
  {
    SortedIffOnTime(trace, max, min);
    OnTimeIffPunctual(trace, max, min);
  }

  // ----- The bound is tight -----

  /** Even sequence numbers 2, 4, ..., 2 * n. */
  function Evens(n: nat): (r: seq<Inst>)
    ensures |r| == n && forall i :: 0 <= i < n ==> r[i].sn == 2 * (i + 1)
  {
    seq(n, i requires 0 <= i < n => Inst(2 * (i + 1), 0, 0, ""))
  }

  lemma {:induction false} FeedWaits(trace: seq<Inst>, max: nat, min: nat)
    requires |trace| <= max
    ensures Feed(trace, max, min) == State(trace, [])
    decreases |trace|
  {
    if trace != [] {
      FeedWaits(trace[..|trace| - 1], max, min);
      assert trace == trace[..|trace| - 1] + [trace[|trace| - 1]];
    }
  }

  /** In order up to the last instruction, which arrives just too late. */
  function TightTrace(max: nat, min: nat): seq<Inst>
    requires min <= max
  {
    Evens(max + 1) + [Inst(2 * (max + 1 - min) - 1, 0, 0, "")]
  }

  lemma TightIsBounded(max: nat, min: nat)
    requires min <= max
    ensures Bounded(TightTrace(max, min), min + 1)
  {
    var evens, trace := Evens(max + 1), TightTrace(max, min);
    forall k | 0 <= k < |trace|
      ensures CountLarger(trace[..k], trace[k].sn) <= min + 1
    {
      CountBetween(trace[..k], trace[k].sn, if k <= max then k else max - min);
    }
  }

  lemma EnqueueSorted(s: seq<Inst>, x: Inst, max: nat, min: nat)
    requires min <= max == |s| && Sorted(s + [x])
    ensures var n := max + 1 - min;
            Enqueue(State(s, []), x, max, min) == State((s + [x])[n..], (s + [x])[..n])
  {
    hide StableSort, Sorted;
    SortedStays(s + [x]);
  }

  lemma TightFeed(max: nat, min: nat)
    requires min <= max
    ensures var n := max + 1 - min;
            Feed(Evens(max + 1), max, min) == State(Evens(max + 1)[n..], Evens(max + 1)[..n])
  {
    var evens := Evens(max + 1);
    assert Sorted(evens);
    hide *;
    assert evens[..max] + [evens[max]] == evens;
    FeedWaits(evens[..max], max, min);
    FeedOne(evens, max, min);
    EnqueueSorted(evens[..max], evens[max], max, min);
  }

  /** One place more of disorder is not tolerated: for all thresholds min <= max there is a
      trace in which no instruction is preceded by more than min + 1 larger ones and that is
      not printed in order. */
  lemma ThresholdIsTight(max: nat, min: nat)
    requires min <= max
    ensures Bounded(TightTrace(max, min), min + 1)
    ensures Released(TightTrace(max, min), max, min) != StableSort(TightTrace(max, min))
  {
    var evens, trace := Evens(max + 1), TightTrace(max, min);
    TightIsBounded(max, min);
    TightFeed(max, min);
    assert trace[..max + 1] == evens;
    hide Feed, Released, StableSort;
    assert evens[..max + 1 - min][max - min] in Feed(evens, max, min).released;
    LateIsMisplaced(trace, max, min, max + 1);
    StableSortSorts(trace);
  }

  /** If the first `from` entries are not larger, at most the others are. */
  lemma {:induction false} CountBetween(s: seq<Inst>, v: int, from: nat)
    requires from <= |s| && forall i :: 0 <= i < from ==> s[i].sn <= v
    ensures CountLarger(s, v) <= |s| - from
    decreases |s|
  {
    if |s| > 0 { CountBetween(s[..|s| - 1], v, if from < |s| then from else |s| - 1); }
  }

  // ----- The program -----

  /** The bounds given on the command line; 0 or less means no bound. */
  datatype Bounds = Bounds(snStart: int, snStop: int, tickStart: int, tickStop: int, onlyCommitted: bool)

  predicate Selected(b: Bounds, i: Inst) {
    && !(b.snStart > 0 && i.sn < b.snStart)
    && !(b.snStop > 0 && i.sn > b.snStop)
    && !(b.tickStart > 0 && i.fetch < b.tickStart)
    && !(b.tickStop > 0 && i.fetch > b.tickStop)
    && !(b.onlyCommitted && i.retire == 0)
  }

  function Select(b: Bounds, s: seq<Inst>): seq<Inst>
    decreases |s|
  {
    if s == [] then []
    else Select(b, s[..|s| - 1]) + if Selected(b, s[|s| - 1]) then [s[|s| - 1]] else []
  }

  /** Not below `start` and not above `stop`, where these are positive. */
  ghost predicate Within(v: int, start: int, stop: int) { (start > 0 ==> start <= v) && (stop > 0 ==> v <= stop) }

  ghost predicate InBounds(b: Bounds, x: Inst) {
    && Within(x.sn, b.snStart, b.snStop) && Within(x.fetch, b.tickStart, b.tickStop)
    && (b.onlyCommitted ==> x.retire != 0)
  }

  ghost predicate NoBounds(b: Bounds) {
    b.snStart <= 0 && b.snStop <= 0 && b.tickStart <= 0 && b.tickStop <= 0 && !b.onlyCommitted
  }

  /** `t` holds the entries of `s` at the ascending positions `at`. */
  ghost predicate Picks(t: seq<Inst>, s: seq<Inst>, at: seq<nat>) {
    && |at| == |t|
    && (forall i :: 0 <= i < |at| ==> at[i] < |s| && t[i] == s[at[i]])
    && (forall i, j :: 0 <= i < j < |at| ==> at[i] < at[j])
  }

  /** How often an instruction is printed. */
  lemma {:induction false} SelectCount(b: Bounds, s: seq<Inst>, x: Inst)
    ensures multiset(Select(b, s))[x] == if InBounds(b, x) then multiset(s)[x] else 0
    decreases |s|
  {
    if s != [] {
      assert s == s[..|s| - 1] + [s[|s| - 1]];
      SelectCount(b, s[..|s| - 1], x);
    }
  }

  lemma {:induction false} SelectPicks(b: Bounds, s: seq<Inst>) returns (at: seq<nat>)
    ensures Picks(Select(b, s), s, at)
    decreases |s|
  {
    at := [];
    if s != [] {
      hide Selected;
      var n := |s| - 1;
      at := SelectPicks(b, s[..n]);
      if Selected(b, s[n]) { at := at + [n]; }
    }
  }

  lemma {:induction false} SelectAll(b: Bounds, s: seq<Inst>)
    requires NoBounds(b)
    ensures Select(b, s) == s
    decreases |s|
  {
    if s != [] { SelectAll(b, s[..|s| - 1]); }
  }

  class Viewer {
    const max: nat
    const min: nat
    const bounds: Bounds
    var queue: seq<Inst>
    var printed: seq<Inst>
    ghost var released: seq<Inst>

    constructor (max: nat, min: nat, bounds: Bounds)
      ensures this.max == max && this.min == min && this.bounds == bounds
      ensures queue == [] && released == [] && Valid()
    {
      this.max, this.min, this.bounds := max, min, bounds;
      queue, printed, released := [], [], [];
    }

    /** What has been printed is the selection of what has left the queue. */
    ghost predicate Valid()
      reads this`printed, this`released
    {
      printed == Select(bounds, released)
    }

    ghost function Model(): State
      reads this
    {
      State(queue, released)
    }

    method PrintInsts(lower: nat)
      requires Valid()
      modifies this
      ensures Valid() && Model() == Flush(old(Model()), lower)
    {
      hide StableSort, Select;
      queue := StableSort(queue);
      Release(lower);
    }

    /** From the front of the queue until `lower` are left. */
    method Release(lower: nat)
      requires Valid()
      modifies this
      ensures var n := if |old(queue)| <= lower then 0 else |old(queue)| - lower;
              Valid() && queue == old(queue)[n..] && released == old(released) + old(queue)[..n]
    {
      hide Valid;
      ghost var q, before, n := queue, released, 0;
      while |queue| > lower
        invariant Valid() && n <= |q| && queue == q[n..] && released == before + q[..n]
        invariant n > 0 ==> |queue| >= lower
        decreases |queue|
      {
        var item := queue[0];
        assert before + q[..n + 1] == released + [item];
        PrintItem(item);
        queue := queue[1..];
        n := n + 1;
      }
    }

    /** One instruction leaves: it is printed if it is within the bounds. */
    method PrintItem(item: Inst)
      requires Valid()
      modifies this`printed, this`released
      ensures Valid() && released == old(released) + [item]
    {
      assert (released + [item])[..|released|] == released;
      released := released + [item];
      if Selected(bounds, item) { printed := printed + [item]; }
    }

    method QueueInst(inst: Inst)
      requires Valid()
      modifies this
      ensures Valid() && Model() == Enqueue(old(Model()), inst, max, min)
    {
      queue := queue + [inst];
      if |queue| > max { PrintInsts(min); }
    }

    /** Process a whole trace on an empty queue.  Every instruction leaves exactly once, in
        order exactly if the trace is punctual, and is printed when it leaves exactly if it is
        within the bounds.  If no instruction is preceded by more than `min` larger ones, the
        output is what collecting, sorting and selecting would give. */
    method ProcessTrace(trace: seq<Inst>)
      requires queue == [] && released == [] && Valid()
      modifies this
      ensures Valid() && queue == [] && multiset(released) == multiset(trace)
      ensures printed == Select(bounds, Released(trace, max, min))
      ensures released == StableSort(trace) <==> Punctual(trace, max, min)
      ensures Bounded(trace, min) ==> printed == Select(bounds, StableSort(trace))
      ensures exists at :: Picks(printed, released, at)
      ensures forall x :: multiset(printed)[x] == if InBounds(bounds, x) then multiset(trace)[x] else 0
      ensures NoBounds(bounds) ==> printed == released
    {
      for k := 0 to |trace|
        invariant Valid() && Model() == Feed(trace[..k], max, min)
      {
        assert trace[..k + 1][..k] == trace[..k];
        QueueInst(trace[k]);
      }
      assert trace[..|trace|] == trace;
      PrintInsts(0);
      ReleasedIsTrace(trace, max, min);
      SortedIffPunctual(trace, max, min);
      if Bounded(trace, min) { BoundedPrintsInOrder(trace, max, min); }
      PrintedIsWithin();
    }

    lemma PrintedIsWithin()
      requires Valid()
      ensures exists at :: Picks(printed, released, at)
      ensures forall x :: multiset(printed)[x] == if InBounds(bounds, x) then multiset(released)[x] else 0
      ensures NoBounds(bounds) ==> printed == released
    {
      hide Select, Selected, InBounds, NoBounds, Picks;
      var at := SelectPicks(bounds, released);
      forall x
        ensures multiset(printed)[x] == if InBounds(bounds, x) then multiset(released)[x] else 0
      {
        SelectCount(bounds, released, x);
      }
      if NoBounds(bounds) { SelectAll(bounds, released); }
    }
  }
}
