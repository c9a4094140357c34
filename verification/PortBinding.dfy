/** `bind_ports` of `read_config.py`: a greedy pass over mirrored port connections that
    binds a connection when both ends are next in line on their port. */
module PortBinding {
  import opened Collections
  import opened PortOrder

  /** A port, without a slot number. */
  datatype Key = Key(object_: string, port: string)

  function KeyOf(p: PortRef): Key { Key(p.object_, p.port) }

  function Mirror(c: Connection): Connection { Connection(c.to, c.from) }

  type Counters = map<Key, int>

  ghost predicate Mirrored(s: seq<Connection>) {
    forall c :: c in s ==> Mirror(c) in s
  }

  ghost predicate NoLoops(s: seq<Connection>) {
    forall c :: c in s ==> c.from != c.to
  }

  // ----- The pass -----

  /** Both ends are next in line. */
  predicate Bindable(counts: Counters, c: Connection)
    requires KeyOf(c.from) in counts && KeyOf(c.to) in counts
  {
    counts[KeyOf(c.from)] == c.from.index && counts[KeyOf(c.to)] == c.to.index
  }

  function Bump(counts: Counters, k: Key): Counters
    requires k in counts
  {
    counts[k := counts[k] + 1]
  }

  /** The slot numbers that `made` uses on port `k`, in order. */
  ghost function Slots(made: seq<Connection>, k: Key): seq<int>
    decreases |made|
  {
    if made == [] then [] else
      var c := made[|made| - 1];
      Slots(made[..|made| - 1], k)
      + (if KeyOf(c.from) == k then [c.from.index] else [])
      + (if KeyOf(c.to) == k then [c.to.index] else [])
  }

  /** The numbers 0, 1, ..., n - 1. */
  ghost function Count(n: nat): seq<int> { seq(n, i => i) }

  /** Every port has been bound slot by slot, up to its counter. */
  ghost predicate InLine(counts: Counters, made: seq<Connection>) {
    forall k :: k in counts ==> counts[k] >= 0 && Slots(made, k) == Count(counts[k])
  }

  lemma CountMore(n: nat)
    ensures Count(n) + [n] == Count(n + 1)
  {
  }

  lemma CountHas(n: nat, j: int)
    ensures j in Count(n) <==> 0 <= j < n
  {
    if 0 <= j < n { assert Count(n)[j] == j; }
  }

  lemma BindKeepsInLine(counts: Counters, made: seq<Connection>, c: Connection)
    requires InLine(counts, made) && KeyOf(c.from) in counts && KeyOf(c.to) in counts
    requires Bindable(counts, c) && c.from != c.to
    ensures KeyOf(c.from) != KeyOf(c.to)
    ensures InLine(Bump(Bump(counts, KeyOf(c.from)), KeyOf(c.to)), made + [c])
  {
    var after := Bump(Bump(counts, KeyOf(c.from)), KeyOf(c.to));
    assert (made + [c])[..|made|] == made;
    forall k | k in after
      ensures after[k] >= 0 && Slots(made + [c], k) == Count(after[k])
    {
      CountMore(counts[k]);
    }
  }

  /** A connection already made, in either direction, is not bindable again. */
  ghost predicate Spent(counts: Counters, made: seq<Connection>) {
    forall c :: c in made ==>
      && KeyOf(c.from) in counts && KeyOf(c.to) in counts
      && counts[KeyOf(c.from)] > c.from.index && counts[KeyOf(c.to)] > c.to.index
  }

  /** No connection is made in both directions or twice. */
  ghost predicate OneWay(made: seq<Connection>) {
    NoRepeats(made) && forall c :: c in made ==> Mirror(c) !in made
  }

  lemma BindKeepsOneWay(counts: Counters, made: seq<Connection>, c: Connection)
    requires Spent(counts, made) && OneWay(made) && KeyOf(c.from) in counts && KeyOf(c.to) in counts
    requires Bindable(counts, c) && c.from != c.to
    ensures OneWay(made + [c]) && Spent(Bump(Bump(counts, KeyOf(c.from)), KeyOf(c.to)), made + [c])
  {
    assert c !in made && Mirror(c) !in made;
    forall d | d in made + [c]
      ensures Mirror(d) !in made + [c]
    {
      if d == c { assert Mirror(c) != c; } else { assert Mirror(d) == c ==> d == Mirror(c); }
    }
  }

  // ----- Exactly half -----

  ghost function Mirrors(s: set<Connection>): set<Connection> { set c | c in s :: Mirror(c) }

  lemma {:induction false} ElementsSize(s: seq<Connection>)
    requires NoRepeats(s)
    ensures |Elements(s)| == |s|
    decreases |s|
  {
    if s != [] {
      var last := |s| - 1;
      ElementsSize(s[..last]);
      assert s == s[..last] + [s[last]];
      assert Elements(s) == Elements(s[..last]) + {s[last]};
    }
  }

  lemma {:induction false} MirrorsSize(s: set<Connection>)
    ensures |Mirrors(s)| == |s|
    decreases s
  {
    if s != {} {
      var c :| c in s;
      MirrorsSize(s - {c});
      assert Mirrors(s) == Mirrors(s - {c}) + {Mirror(c)};
      assert forall d :: d in s - {c} ==> Mirror(d) != Mirror(c);
    }
  }

  lemma SubsetOfSameSize(a: set<Connection>, b: set<Connection>)
    requires a <= b && |a| >= |b|
    ensures a == b
  {
    assert b == a + (b - a);
    assert |b - a| == 0;
  }

  /** If half as many connections were made as are listed, each listed connection was made,
      in exactly one of its two directions. */
  lemma HalfMeansAll(listed: seq<Connection>, made: seq<Connection>)
    requires NoRepeats(listed) && Mirrored(listed) && OneWay(made)
    requires forall c :: c in made ==> c in listed
    requires 2 * |made| == |listed|
    ensures forall c :: c in listed ==> (c in made <==> Mirror(c) !in made)
  {
    var m, all := Elements(made), Elements(listed);
    ElementsSize(made);
    ElementsSize(listed);
    MirrorsSize(m);
    assert m !! Mirrors(m);
    assert m + Mirrors(m) <= all;
    SubsetOfSameSize(m + Mirrors(m), all);
    forall c | c in listed
      ensures c in made <==> Mirror(c) !in made
    {
      assert c in m + Mirrors(m);
      assert Mirror(Mirror(c)) == c;
    }
  }

  // ----- The program -----

  ghost predicate KnownKeys(counts: Counters, order: seq<Connection>) {
    forall c :: c in order ==> KeyOf(c.from) in counts && KeyOf(c.to) in counts
  }

  /** The connections the pass selects from `order`, and the counters it ends with. */
  function Pass(counts: Counters, order: seq<Connection>): (r: (Counters, seq<Connection>))
    requires forall c :: c in order ==> KeyOf(c.from) in counts && KeyOf(c.to) in counts
    ensures r.0.Keys == counts.Keys
    decreases |order|
  {
    if order == [] then (counts, []) else
      var (before, made) := Pass(counts, order[..|order| - 1]);
      var c := order[|order| - 1];
      if Bindable(before, c) then (Bump(Bump(before, KeyOf(c.from)), KeyOf(c.to)), made + [c])
      else (before, made)
  }

  ghost predicate AllZero(counts: Counters) { forall k :: k in counts ==> counts[k] == 0 }

  /** Whatever the order of visit: every port is bound slot by slot, no connection twice or
      in both directions. */
  lemma {:induction false} PassInvariant(counts: Counters, order: seq<Connection>)
    requires KnownKeys(counts, order) && AllZero(counts) && NoLoops(order)
    ensures var (after, made) := Pass(counts, order);
            && InLine(after, made) && Spent(after, made) && OneWay(made)
            && forall c :: c in made ==> c in order
    decreases |order|
  {
    if order != [] {
      var init, c := order[..|order| - 1], order[|order| - 1];
      PassInvariant(counts, init);
      var (before, made) := Pass(counts, init);
      if Bindable(before, c) {
        hide InLine, Spent, OneWay;
        BindKeepsInLine(before, made, c);
        BindKeepsOneWay(before, made, c);
      }
    }
  }

  // ----- When the pass succeeds -----

  /** Slot `p` is an end of the connection. */
  ghost predicate Touches(c: Connection, p: PortRef) { c.from == p || c.to == p }

  ghost predicate Bound(made: seq<Connection>, p: PortRef) { exists c :: c in made && Touches(c, p) }

  lemma {:induction false} SlotsAreBound(made: seq<Connection>, k: Key, j: int)
    ensures j in Slots(made, k) <==> Bound(made, PortRef(k.object_, k.port, j))
    decreases |made|
  {
    if made != [] {
      var init, c := made[..|made| - 1], made[|made| - 1];
      var p := PortRef(k.object_, k.port, j);
      SlotsAreBound(init, k, j);
      assert made == init + [c];
      assert Bound(made, p) <==> Bound(init, p) || Touches(c, p) by {
        if Touches(c, p) { assert c in made; }
        if Bound(init, p) {
          var d :| d in init && Touches(d, p);
          assert d in made;
        }
      }
    }
  }

  /** Every lower slot of the port has been bound. */
  ghost predicate Next(made: seq<Connection>, p: PortRef) {
    p.index >= 0 && forall j :: 0 <= j < p.index ==> Bound(made, PortRef(p.object_, p.port, j))
  }

  /** Each connection comes after everything on the lower slots of both its ports. */
  ghost predicate Orderly(made: seq<Connection>) {
    forall m :: 0 <= m < |made| ==> Next(made[..m], made[m].from) && Next(made[..m], made[m].to)
  }

  ghost predicate Subsequence(s: seq<Connection>, order: seq<Connection>)
    decreases |order|
  {
    s == []
    || (order != [] &&
        if s[|s| - 1] == order[|order| - 1] then Subsequence(s[..|s| - 1], order[..|order| - 1])
        else Subsequence(s, order[..|order| - 1]))
  }

  /** Each slot is listed in one connection only. */
  ghost predicate SlotsUnique(listed: seq<Connection>) {
    forall c, d :: c in listed && d in listed && c.from == d.from ==> c == d
  }

  ghost predicate EitherWay(made: seq<Connection>, c: Connection) { c in made || Mirror(c) in made }

  lemma NextIsCounter(counts: Counters, made: seq<Connection>, p: PortRef)
    requires InLine(counts, made) && KeyOf(p) in counts
    requires Next(made, p) && !Bound(made, p)
    ensures counts[KeyOf(p)] == p.index
  {
    var k := KeyOf(p);
    SlotsAreBound(made, k, p.index);
    SlotsAreBound(made, k, p.index - 1);
    CountHas(counts[k], p.index);
    CountHas(counts[k], p.index - 1);
  }

  lemma CounterIsNext(counts: Counters, made: seq<Connection>, p: PortRef)
    requires InLine(counts, made) && KeyOf(p) in counts && counts[KeyOf(p)] == p.index
    ensures Next(made, p)
  {
    var k := KeyOf(p);
    forall j | 0 <= j < p.index
      ensures Bound(made, PortRef(p.object_, p.port, j))
    {
      SlotsAreBound(made, k, j);
      CountHas(counts[k], j);
    }
  }

  lemma NextCarries(alt: seq<Connection>, made: seq<Connection>, p: PortRef)
    requires Next(alt, p) && forall c :: c in alt ==> EitherWay(made, c)
    ensures Next(made, p)
  {
    forall j | 0 <= j < p.index
      ensures Bound(made, PortRef(p.object_, p.port, j))
    {
      var q := PortRef(p.object_, p.port, j);
      var c :| c in alt && Touches(c, q);
      assert Touches(Mirror(c), q) && EitherWay(made, c);
    }
  }

  /** In a mirrored list with unique slots, an end of a connection that has not been made is
      not bound. */
  lemma UnmadeIsUnbound(listed: seq<Connection>, made: seq<Connection>, c: Connection)
    requires Mirrored(listed) && SlotsUnique(listed) && c in listed && !EitherWay(made, c)
    requires forall d :: d in made ==> d in listed
    ensures !Bound(made, c.from) && !Bound(made, c.to)
  {
    forall d | d in made
      ensures !Touches(d, c.from) && !Touches(d, c.to)
    {
      assert Mirror(d) in listed && Mirror(c) in listed;
      assert Mirror(Mirror(d)) == d;
    }
  }

  lemma {:induction false} SubsequenceWithin(s: seq<Connection>, order: seq<Connection>)
    requires Subsequence(s, order)
    ensures forall c :: c in s ==> c in order
    decreases |order|
  {
    if s != [] {
      var init := order[..|order| - 1];
      if s[|s| - 1] == order[|order| - 1] {
        SubsequenceWithin(s[..|s| - 1], init);
        assert s == s[..|s| - 1] + [s[|s| - 1]];
      } else {
        SubsequenceWithin(s, init);
      }
    }
  }

  /** When its turn comes in an orderly selection, the pass can bind it too. */
  lemma OrderlyIsBindable(counts: Counters, made: seq<Connection>, listed: seq<Connection>,
                          alt: seq<Connection>, c: Connection)
    requires InLine(counts, made) && KeyOf(c.from) in counts && KeyOf(c.to) in counts
    requires Mirrored(listed) && SlotsUnique(listed) && c in listed && forall d :: d in made ==> d in listed
    requires Next(alt, c.from) && Next(alt, c.to) && forall d :: d in alt ==> EitherWay(made, d)
    ensures EitherWay(made, c) || Bindable(counts, c)
  {
    if !EitherWay(made, c) {
      UnmadeIsUnbound(listed, made, c);
      NextCarries(alt, made, c.from);
      NextCarries(alt, made, c.to);
      NextIsCounter(counts, made, c.from);
      NextIsCounter(counts, made, c.to);
    }
  }

  /** The pass makes every connection, in one direction or the other, that any orderly
      selection from the same order makes. */
  lemma {:induction false} PassDominates(counts: Counters, order: seq<Connection>, listed: seq<Connection>,
                                         alt: seq<Connection>)
    requires KnownKeys(counts, order) && AllZero(counts) && NoLoops(order)
    requires Mirrored(listed) && SlotsUnique(listed) && forall c :: c in order ==> c in listed
    requires Subsequence(alt, order) && Orderly(alt)
    ensures forall c :: c in alt ==> EitherWay(Pass(counts, order).1, c)
    decreases |order|
  {
    hide Orderly, Next, Mirrored, SlotsUnique, InLine, Spent, OneWay, Bump;
    if alt != [] {
      var init, last := order[..|order| - 1], order[|order| - 1];
      var (before, made) := Pass(counts, init);
      if alt[|alt| - 1] == last {
        var rest := alt[..|alt| - 1];
        OrderlyLess(alt);
        PassDominates(counts, init, listed, rest);
        PassInvariant(counts, init);
        OrderlyIsBindable(before, made, listed, rest, last);
        assert alt == rest + [last];
      } else {
        PassDominates(counts, init, listed, alt);
      }
    }
  }

  lemma OrderlyLess(alt: seq<Connection>)
    requires alt != [] && Orderly(alt)
    ensures var rest, last := alt[..|alt| - 1], alt[|alt| - 1];
            Orderly(rest) && Next(rest, last.from) && Next(rest, last.to)
  {
    hide Next;
    var rest := alt[..|alt| - 1];
    assert forall m :: 0 <= m < |rest| ==> rest[..m] == alt[..m];
  }

  lemma OrderlyMore(made: seq<Connection>, c: Connection)
    requires Orderly(made) && Next(made, c.from) && Next(made, c.to)
    ensures Orderly(made + [c])
  {
    var more := made + [c];
    forall m | 0 <= m < |more|
      ensures Next(more[..m], more[m].from) && Next(more[..m], more[m].to)
    {
      assert more[..m] == if m < |made| then made[..m] else made;
    }
  }

  /** What the pass makes is itself such a selection. */
  lemma {:induction false} PassIsOrderly(counts: Counters, order: seq<Connection>)
    requires KnownKeys(counts, order) && AllZero(counts) && NoLoops(order) && NoRepeats(order)
    ensures Subsequence(Pass(counts, order).1, order) && Orderly(Pass(counts, order).1)
    decreases |order|
  {
    if order != [] {
      var init, c := order[..|order| - 1], order[|order| - 1];
      var (before, made) := Pass(counts, init);
      PassIsOrderly(counts, init);
      PassInvariant(counts, init);
      if Bindable(before, c) {
        CounterIsNext(before, made, c.from);
        CounterIsNext(before, made, c.to);
        OrderlyMore(made, c);
        assert (made + [c])[..|made|] == made;
      } else if made != [] {
        assert made[|made| - 1] in init;
      }
    }
  }

  /** An orderly selection that makes every listed connection in one of its directions. */
  ghost predicate IsBindingOrder(order: seq<Connection>, listed: seq<Connection>, alt: seq<Connection>) {
    Subsequence(alt, order) && Orderly(alt) && forall c :: c in listed ==> EitherWay(alt, c)
  }

  lemma AllMeansHalf(listed: seq<Connection>, made: seq<Connection>)
    requires NoRepeats(listed) && Mirrored(listed) && OneWay(made)
    requires forall c :: c in made ==> c in listed
    requires forall c :: c in listed ==> EitherWay(made, c)
    ensures 2 * |made| == |listed|
  {
    var m, all := Elements(made), Elements(listed);
    ElementsSize(made);
    ElementsSize(listed);
    MirrorsSize(m);
    assert m !! Mirrors(m);
    forall c | c in all
      ensures c in m + Mirrors(m)
    {
      assert EitherWay(made, c) && Mirror(Mirror(c)) == c;
    }
    assert m + Mirrors(m) == all;
  }

  /** The pass succeeds exactly when one direction of each connection can be picked so that,
      taken in the order of visit, every port is bound slot by slot. */
  lemma PassSucceedsIff(counts: Counters, order: seq<Connection>, listed: seq<Connection>)
    requires KnownKeys(counts, order) && AllZero(counts) && multiset(order) == multiset(listed)
    requires NoRepeats(order) && NoRepeats(listed) && Mirrored(listed) && NoLoops(listed) && SlotsUnique(listed)
    ensures 2 * |Pass(counts, order).1| == |listed| <==> exists alt :: IsBindingOrder(order, listed, alt)
  {
    var made := Pass(counts, order).1;
    SameElements(order, listed);
    PassInvariant(counts, order);
    PassIsOrderly(counts, order);
    if 2 * |made| == |listed| {
      HalfMeansAll(listed, made);
      assert IsBindingOrder(order, listed, made);
    }
    if alt :| IsBindingOrder(order, listed, alt) {
      PassDominates(counts, order, listed, alt);
      forall c | c in listed
        ensures EitherWay(made, c)
      {
        assert EitherWay(alt, c);
        assert Mirror(Mirror(c)) == c;
      }
      AllMeansHalf(listed, made);
    }
  }

  // ----- The program -----

  ghost function Ports(listed: seq<Connection>): set<Key> { set c | c in listed :: KeyOf(c.from) }

  ghost function Zeros(listed: seq<Connection>): Counters { map k | k in Ports(listed) :: 0 }

  lemma ZerosKnow(listed: seq<Connection>)
    requires Mirrored(listed)
    ensures AllZero(Zeros(listed)) && KnownKeys(Zeros(listed), listed) && KnownKeys(Zeros(listed), Sort(listed))
  {
    SortSorts(listed);
    SameElements(Sort(listed), listed);
    forall c | c in listed
      ensures KeyOf(c.from) in Zeros(listed) && KeyOf(c.to) in Zeros(listed)
    {
      assert Mirror(c) in listed;
    }
  }

  /** What the pass over the sorted list selects. */
  ghost function Selected(listed: seq<Connection>): seq<Connection>
    requires Mirrored(listed)
  {
    ZerosKnow(listed);
    Pass(Zeros(listed), Sort(listed)).1
  }

  lemma {:induction false} CountAtMostOne(s: seq<Connection>, c: Connection)
    requires NoRepeats(s)
    ensures multiset(s)[c] <= 1
    decreases |s|
  {
    if s != [] {
      var init := s[..|s| - 1];
      assert s == init + [s[|s| - 1]];
      CountAtMostOne(init, c);
      assert s[|s| - 1] !in init;
    }
  }

  lemma RepeatCountsTwice(s: seq<Connection>, i: nat, j: nat)
    requires i < j < |s| && s[i] == s[j]
    ensures multiset(s)[s[i]] >= 2
  {
    assert s == s[..j] + s[j..];
    assert s[..j][i] in multiset(s[..j]) && s[j..][0] in multiset(s[j..]);
  }

  lemma SortHasNoRepeats(s: seq<Connection>)
    requires NoRepeats(s)
    ensures NoRepeats(Sort(s)) && multiset(Sort(s)) == multiset(s)
  {
    SortSorts(s);
    var t := Sort(s);
    forall i, j | 0 <= i < j < |t|
      ensures t[i] != t[j]
    {
      CountAtMostOne(s, t[i]);
      if t[i] == t[j] { RepeatCountsTwice(t, i, j); }
    }
  }

  method ZeroCounters(connections: seq<Connection>) returns (counts: Counters)
    ensures counts == Zeros(connections)
  {
    counts := map[];
    for k := 0 to |connections|
      invariant AllZero(counts) && counts.Keys == set i | 0 <= i < k :: KeyOf(connections[i].from)
    {
      counts := counts[KeyOf(connections[k].from) := 0];
    }
  }

  method RunPass(zeros: Counters, order: seq<Connection>) returns (made: seq<Connection>)
    requires KnownKeys(zeros, order)
    ensures made == Pass(zeros, order).1
  {
    var counts := zeros;
    made := [];
    for k := 0 to |order|
      invariant counts.Keys == zeros.Keys && (counts, made) == Pass(zeros, order[..k])
    {
      var c := order[k];
      assert order[..k + 1][..k] == order[..k];
      if Bindable(counts, c) {
        made := made + [c];
        counts := Bump(counts, KeyOf(c.from));
        counts := Bump(counts, KeyOf(c.to));
      }
    }
    assert order[..|order|] == order;
  }

  /** In the visiting order, as a dictionary has it. */
  ghost predicate Ascends(s: seq<Connection>) {
    forall i, j :: 0 <= i < j < |s| ==> ConnectionBefore(s[i], s[j])
  }

  lemma {:induction false} SubsequenceAscends(s: seq<Connection>, order: seq<Connection>)
    requires Subsequence(s, order) && Sorted(order) && NoRepeats(order)
    ensures Ascends(s)
    decreases |order|
  {
    hide ConnectionLeq, ConnectionBefore;
    if s != [] {
      var n := |order| - 1;
      var init := order[..n];
      if s[|s| - 1] == order[n] {
        SubsequenceAscends(s[..|s| - 1], init);
        SubsequenceWithin(s[..|s| - 1], init);
        forall i | 0 <= i < |s| - 1 ensures ConnectionBefore(s[i], s[|s| - 1]) {
          assert s[..|s| - 1][i] in init;
          var j :| 0 <= j < n && init[j] == s[i];
          ConnectionLeqIff(order[j], order[n]);
        }
        assert forall i :: 0 <= i < |s| - 1 ==> s[..|s| - 1][i] == s[i];
      } else {
        SubsequenceAscends(s, init);
      }
    }
  }

  lemma LastIsGreatest(alt: seq<Connection>, order: seq<Connection>)
    requires Ascends(alt) && Sorted(order) && alt != [] && order != [] && alt[|alt| - 1] != order[|order| - 1]
    requires alt[|alt| - 1] in order
    ensures order[|order| - 1] !in alt
  {
    hide ConnectionLeq, ConnectionBefore;
    var a, n := alt[|alt| - 1], |order| - 1;
    var j :| 0 <= j <= n && order[j] == a;
    forall i | 0 <= i < |alt| - 1
      ensures alt[i] != order[n]
    {
      ConnectionBeforeIff(alt[i], a);
      ConnectionTotal(alt[i], a);
    }
  }

  lemma {:induction false} AscendingIsSubsequence(alt: seq<Connection>, order: seq<Connection>)
    requires Ascends(alt) && Sorted(order) && forall c :: c in alt ==> c in order
    ensures Subsequence(alt, order)
    decreases |order|
  {
    hide ConnectionLeq, ConnectionBefore;
    if alt != [] {
      var k, n := |alt| - 1, |order| - 1;
      assert alt[k] in order;
      if alt[k] == order[n] {
        forall i | 0 <= i < k
          ensures alt[i] in order[..n]
        {
          ConnectionBeforeIff(alt[i], alt[k]);
          assert alt[i] in order;
        }
        AscendingIsSubsequence(alt[..k], order[..n]);
      } else {
        LastIsGreatest(alt, order);
        AscendingIsSubsequence(alt, order[..n]);
      }
    }
  }

  /** A selection from the list that ascends, binds every port slot by slot and holds every
      connection in one of its directions. */
  ghost predicate BindsInOrder(listed: seq<Connection>, alt: seq<Connection>) {
    && (forall c :: c in alt ==> c in listed)
    && Ascends(alt) && Orderly(alt)
    && forall c :: c in listed ==> EitherWay(alt, c)
  }

  lemma BindingOrderIff(listed: seq<Connection>, alt: seq<Connection>)
    requires NoRepeats(listed)
    ensures IsBindingOrder(Sort(listed), listed, alt) <==> BindsInOrder(listed, alt)
  {
    var order := Sort(listed);
    SortSorts(listed);
    SortHasNoRepeats(listed);
    SameElements(order, listed);
    hide Sort, Sorted, Ascends, Orderly, Subsequence, EitherWay, NoRepeats;
    if IsBindingOrder(order, listed, alt) {
      SubsequenceAscends(alt, order);
      SubsequenceWithin(alt, order);
    }
    if BindsInOrder(listed, alt) { AscendingIsSubsequence(alt, order); }
  }

  lemma SelectedAscends(listed: seq<Connection>)
    requires NoRepeats(listed) && Mirrored(listed) && NoLoops(listed)
    ensures Ascends(Selected(listed))
  {
    var order := Sort(listed);
    ZerosKnow(listed);
    SortSorts(listed);
    SortHasNoRepeats(listed);
    SameElements(order, listed);
    hide Zeros, Pass, Sort, Ascends, Sorted, NoRepeats, Orderly, Subsequence, AllZero, KnownKeys;
    PassIsOrderly(Zeros(listed), order);
    SubsequenceAscends(Selected(listed), order);
  }

  /** What `Selected` promises of every list. */
  lemma SelectedMeans(listed: seq<Connection>)
    requires NoRepeats(listed) && Mirrored(listed) && NoLoops(listed)
    ensures OneWay(Selected(listed)) && Orderly(Selected(listed))
    ensures forall c :: c in Selected(listed) ==> c in listed
    ensures 2 * |Selected(listed)| == |listed| ==>
              forall c :: c in listed ==> (c in Selected(listed) <==> Mirror(c) !in Selected(listed))
  {
    var order := Sort(listed);
    ZerosKnow(listed);
    SortHasNoRepeats(listed);
    SameElements(order, listed);
    hide Zeros, Pass, Orderly, OneWay, Sort, AllZero, KnownKeys, InLine, Spent;
    PassInvariant(Zeros(listed), order);
    PassIsOrderly(Zeros(listed), order);
    if 2 * |Selected(listed)| == |listed| { HalfMeansAll(listed, Selected(listed)); }
  }

  /** When it selects enough. */
  lemma SelectedIsHalfIff(listed: seq<Connection>)
    requires NoRepeats(listed) && Mirrored(listed) && NoLoops(listed) && SlotsUnique(listed)
    ensures 2 * |Selected(listed)| == |listed| <==> exists alt :: BindsInOrder(listed, alt)
  {
    ZerosKnow(listed);
    SortHasNoRepeats(listed);
    hide Zeros, Pass, Sort, AllZero, KnownKeys, IsBindingOrder, BindsInOrder;
    PassSucceedsIff(Zeros(listed), Sort(listed), listed);
    forall alt ensures IsBindingOrder(Sort(listed), listed, alt) <==> BindsInOrder(listed, alt) {
      BindingOrderIff(listed, alt);
    }
  }

  /** Select the connections to make.  No connection is made twice or in both directions, and
      every port is bound slot by slot, in ascending order.  The pass succeeds exactly when half
      as many are selected as are listed; then each connection is made, in one of its
      directions; and if no slot is listed twice that happens exactly when some ascending
      selection from the list does all this. */
  method BindPorts(connections: seq<Connection>) returns (r: Option<seq<Connection>>)
    requires NoRepeats(connections) && Mirrored(connections) && NoLoops(connections)
    ensures var made := Selected(connections); r == if 2 * |made| == |connections| then Some(made) else None
    ensures r.Some? ==> OneWay(r.value) && Orderly(r.value)
    ensures r.Some? ==> Ascends(r.value) && forall c :: c in r.value ==> c in connections
    ensures r.Some? ==> forall c :: c in connections ==> (c in r.value <==> Mirror(c) !in r.value)
    ensures SlotsUnique(connections) ==> (r.Some? <==> exists alt :: BindsInOrder(connections, alt))
  {
    hide Zeros, Pass, Orderly, OneWay, Sort, KnownKeys, BindsInOrder, NoRepeats, Mirrored, NoLoops, SlotsUnique,
        Ascends;
    ZerosKnow(connections);
    SelectedMeans(connections);
    SelectedAscends(connections);
    if SlotsUnique(connections) { SelectedIsHalfIff(connections); }
    var zeros := ZeroCounters(connections);
    var made := RunPass(zeros, Sort(connections));
    r := if 2 * |made| == |connections| then Some(made) else None;
  }

  lemma SameElements(s: seq<Connection>, t: seq<Connection>)
    requires multiset(s) == multiset(t)
    ensures forall c :: c in s <==> c in t
  {
    assert forall c :: c in s <==> c in multiset(s);
    assert forall c :: c in t <==> c in multiset(t);
  }

  // ----- Not every orderable list is bound -----

  function Slot(object_: string, index: int): PortRef { PortRef(object_, "p", index) }

  /** a[0]-b[1], b[0]-c[1] and c[0]-d[0] in both directions, for objects a, b, c and d. */
  function Staircase(a: string, b: string, c: string, d: string): seq<Connection> {
    [ Connection(Slot(a, 0), Slot(b, 1)), Connection(Slot(b, 0), Slot(c, 1)),
      Connection(Slot(b, 1), Slot(a, 0)), Connection(Slot(c, 0), Slot(d, 0)),
      Connection(Slot(c, 1), Slot(b, 0)), Connection(Slot(d, 0), Slot(c, 0)) ]
  }

  ghost predicate FourAscending(a: string, b: string, c: string, d: string) {
    && a != b && a != c && a != d && b != c && b != d && c != d
    && Before(a, b) && Before(b, c) && Before(c, d)
  }

  lemma StaircaseIsSorted(a: string, b: string, c: string, d: string)
    requires FourAscending(a, b, c, d)
    ensures Sort(Staircase(a, b, c, d)) == Staircase(a, b, c, d)
  {
    AscendingNames(a, b, c, d);
    hide StringLeq, Before;
    SortedStays(Staircase(a, b, c, d));
  }

  lemma AscendingNames(a: string, b: string, c: string, d: string)
    requires FourAscending(a, b, c, d)
    ensures StringLeq(a, b) && StringLeq(a, c) && StringLeq(a, d) && StringLeq(b, c) && StringLeq(b, d)
    ensures StringLeq(c, d)
  {
    hide StringLeq, Before;
    StringLeqIff(a, b);
    StringLeqIff(b, c);
    StringLeqIff(c, d);
    StringTransitive(a, b, c);
    StringTransitive(a, c, d);
    StringTransitive(b, c, d);
  }

  lemma StaircaseIsListed(a: string, b: string, c: string, d: string)
    requires FourAscending(a, b, c, d)
    ensures var s := Staircase(a, b, c, d); Mirrored(s) && NoRepeats(s) && NoLoops(s) && SlotsUnique(s)
  {
    hide StringLeq, Before;
    var s := Staircase(a, b, c, d);
    forall e | e in s
      ensures Mirror(e) in s
    {
      assert Mirror(s[0]) == s[2] && Mirror(s[1]) == s[4] && Mirror(s[3]) == s[5];
    }
  }

  /** One step of the pass: `c` comes next and the counters are `before`. */
  lemma PassStep(counts: Counters, order: seq<Connection>, k: nat, c: Connection, before: Counters,
                 made: seq<Connection>)
    requires KnownKeys(counts, order) && k < |order| && order[k] == c && Pass(counts, order[..k]) == (before, made)
    ensures KeyOf(c.from) in before && KeyOf(c.to) in before
    ensures Pass(counts, order[..k + 1]) ==
            if Bindable(before, c) then (Bump(Bump(before, KeyOf(c.from)), KeyOf(c.to)), made + [c]) else (before, made)
  {
    assert order[..k + 1][..k] == order[..k];
  }

  lemma StaircaseStart(a: string, b: string, c: string, d: string, z: Counters)
    requires FourAscending(a, b, c, d) && AllZero(z) && KnownKeys(z, Staircase(a, b, c, d))
    ensures Pass(z, Staircase(a, b, c, d)[..3]) == (z, [])
  {
    var s := Staircase(a, b, c, d);
    assert Pass(z, s[..0]) == (z, []);
    hide Pass, StringLeq, Before;
    PassStep(z, s, 0, s[0], z, []);
    PassStep(z, s, 1, s[1], z, []);
    PassStep(z, s, 2, s[2], z, []);
  }

  lemma StaircasePass(a: string, b: string, c: string, d: string, z: Counters)
    requires FourAscending(a, b, c, d) && AllZero(z) && KnownKeys(z, Staircase(a, b, c, d))
    ensures |Pass(z, Staircase(a, b, c, d)).1| == 2
  {
    var s := Staircase(a, b, c, d);
    StaircaseStart(a, b, c, d, z);
    hide Pass, StringLeq, Before;
    PassStep(z, s, 3, s[3], z, []);
    var z4 := Bump(Bump(z, KeyOf(s[3].from)), KeyOf(s[3].to));
    PassStep(z, s, 4, s[4], z4, [] + [s[3]]);
    var z5 := Bump(Bump(z4, KeyOf(s[4].from)), KeyOf(s[4].to));
    PassStep(z, s, 5, s[5], z5, [] + [s[3]] + [s[4]]);
    assert s[..6] == s;
  }

  lemma StaircaseOrder(a: string, b: string, c: string, d: string)
    ensures exists alt :: Orderly(alt) && forall e :: e in Staircase(a, b, c, d) ==> EitherWay(alt, e)
  {
    var s := Staircase(a, b, c, d);
    var alt := [s[3], s[1], s[0]];
    assert Touches(s[3], Slot(c, 0)) && Touches(s[1], Slot(b, 0));
    assert alt[..1] == [s[3]] && alt[..2] == [s[3], s[1]];
    assert s[3] in alt[..1] && s[1] in alt[..2];
    assert Orderly(alt);
  }

  /** Sorting does not make one direction of every connection bindable: these lists can be
      bound in the order c[0]-d[0], b[0]-c[1], a[0]-b[1], but the pass makes only two of the
      three connections, because it meets a[0]-b[1] for the last time before b[0]-c[1] is
      bound. */
  lemma StaircaseStalls(a: string, b: string, c: string, d: string)
    requires FourAscending(a, b, c, d)
    ensures var s := Staircase(a, b, c, d);
            && Mirrored(s) && NoRepeats(s) && NoLoops(s) && SlotsUnique(s)
            && 2 * |Selected(s)| != |s|
            && exists alt :: Orderly(alt) && forall e :: e in s ==> EitherWay(alt, e)
  {
    var s := Staircase(a, b, c, d);
    StaircaseIsSorted(a, b, c, d);
    StaircaseIsListed(a, b, c, d);
    StaircaseOrder(a, b, c, d);
    ZerosKnow(s);
    assert |s| == 6;
    hide Pass, Sort, Zeros, Staircase;
    StaircasePass(a, b, c, d, Zeros(s));
  }

  // ----- Lists that are bound -----

  lemma SingleSlotsOrder(order: seq<Connection>, listed: seq<Connection>)
    requires forall c :: c in order <==> c in listed
    requires forall c :: c in listed ==> c.from.index == 0 == c.to.index
    requires Ascends(order)
    ensures BindsInOrder(listed, order)
  {
    hide Ascends;
    assert forall m :: 0 <= m < |order| ==> order[m] in listed;
  }

  lemma SortAscends(listed: seq<Connection>)
    requires NoRepeats(listed)
    ensures Ascends(Sort(listed))
  {
    hide ConnectionLeq, ConnectionBefore, Sort;
    SortSorts(listed);
    SortHasNoRepeats(listed);
    var order := Sort(listed);
    forall i, j | 0 <= i < j < |order|
      ensures ConnectionBefore(order[i], order[j])
    {
      ConnectionBeforeIff(order[i], order[j]);
    }
  }

  /** Ports with one slot each are always bound. */
  lemma SingleSlotsBind(listed: seq<Connection>)
    requires NoRepeats(listed) && Mirrored(listed) && NoLoops(listed) && SlotsUnique(listed)
    requires forall c :: c in listed ==> c.from.index == 0 == c.to.index
    ensures 2 * |Selected(listed)| == |listed|
  {
    SortSorts(listed);
    SameElements(Sort(listed), listed);
    hide Selected, Sort, SlotsUnique, Sorted, Ascends;
    SortAscends(listed);
    SingleSlotsOrder(Sort(listed), listed);
    SelectedIsHalfIff(listed);
  }

  lemma DownstairsIsListed(a: string, b: string, c: string, d: string)
    requires FourAscending(a, b, c, d)
    ensures var s := Staircase(d, c, b, a); Mirrored(s) && NoRepeats(s) && NoLoops(s) && SlotsUnique(s)
  {
    hide StringLeq, Before;
    var s := Staircase(d, c, b, a);
    forall e | e in s
      ensures Mirror(e) in s
    {
      assert Mirror(s[0]) == s[2] && Mirror(s[1]) == s[4] && Mirror(s[3]) == s[5];
    }
  }

  lemma BeforeTransitive(a: string, b: string, c: string)
    requires Before(a, b) && Before(b, c)
    ensures Before(a, c)
  {
    hide StringLeq, Before;
    StringLeqIff(a, b);
    StringLeqIff(b, c);
    StringLeqIff(a, c);
    StringTransitive(a, b, c);
    StringTotal(a, b);
    NotBeforeItself(a);
    NotBeforeItself(b);
  }

  lemma DownstairsOrder(a: string, b: string, c: string, d: string)
    requires FourAscending(a, b, c, d)
    ensures var s := Staircase(d, c, b, a); BindsInOrder(s, [s[5], s[4], s[2]])
  {
    BeforeTransitive(a, b, c);
    hide Before;
    var s := Staircase(d, c, b, a);
    var alt := [s[5], s[4], s[2]];
    assert Touches(s[5], Slot(b, 0)) && Touches(s[4], Slot(c, 0));
    assert alt[..1] == [s[5]] && alt[..2] == [s[5], s[4]];
    assert s[5] in alt[..1] && s[4] in alt[..2];
    assert Orderly(alt);
    assert Mirror(s[5]) == s[3] && Mirror(s[4]) == s[1] && Mirror(s[2]) == s[0];
  }

  /** The same staircases with descending names are bound completely. */
  lemma StaircaseBinds(a: string, b: string, c: string, d: string)
    requires FourAscending(a, b, c, d)
    ensures var s := Staircase(d, c, b, a); Mirrored(s) && 2 * |Selected(s)| == |s|
  {
    DownstairsIsListed(a, b, c, d);
    DownstairsOrder(a, b, c, d);
    hide Staircase, Selected, Before;
    SelectedIsHalfIff(Staircase(d, c, b, a));
  }
}
