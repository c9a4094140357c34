/** The documented promise of `cpt_upgrader.py` about downgraders: a tag that has one is
    removed before any tag that depends on it is applied.  Inside a round the order is open,
    so the promise is judged for every order and for some order of the rounds. */
module UpgradePromise {
  import opened Collections
  import opened UpgradeOrder
  import opened UpgradeRounds

  ghost function Flat(parts: seq<seq<Tag>>): seq<Tag> {
    if parts == [] then [] else Flat(parts[..|parts| - 1]) + parts[|parts| - 1]
  }

  /** The tags of each round in some order. */
  ghost predicate OrderOf(batches: seq<set<Tag>>, parts: seq<seq<Tag>>) {
    |parts| == |batches|
    && forall k :: 0 <= k < |parts| ==> NoRepeats(parts[k]) && Elements(parts[k]) == batches[k]
  }

  /** Entry `q` of the log comes after the removal of everything to be removed that it
      depends on. */
  ghost predicate KeptAt(j: Job, log: seq<Tag>, q: nat)
    requires q < |log|
  {
    forall d :: DependsOn(j, log[q], d) && d in j.untagSet ==> d in Elements(log[..q])
  }

  ghost predicate Kept(j: Job, log: seq<Tag>) { forall q: nat :: q < |log| ==> KeptAt(j, log, q) }

  ghost predicate EveryOrderKeeps(j: Job, batches: seq<set<Tag>>) {
    forall parts :: OrderOf(batches, parts) ==> Kept(j, Flat(parts))
  }

  ghost predicate SomeOrderKeeps(j: Job, batches: seq<set<Tag>>) {
    exists parts :: OrderOf(batches, parts) && Kept(j, Flat(parts))
  }

  /** No pending tag depends on a tag that has a downgrader. */
  ghost predicate NoDependence(j: Job) {
    forall t, d :: t in PendingOf(j) && DependsOn(j, t, d) ==> d !in j.untagSet
  }

  /** Where one does, both have the same level. */
  ghost predicate SameLevel(j: Job, level: map<Tag, nat>) {
    forall t, d :: t in level && DependsOn(j, t, d) && d in j.untagSet ==> d in level && level[d] == level[t]
  }

  ghost predicate Independent(j: Job, t: Tag, s: set<Tag>) { t in j.deps && j.deps[t] !! s }

  ghost predicate HasIndependent(j: Job, s: set<Tag>) { exists t :: t in s && Independent(j, t, s) }

  /** The tags to be removed do not depend on each other in a ring. */
  ghost predicate NoRing(j: Job) {
    forall s: set<Tag> :: s != {} && s <= Removals(j) ==> HasIndependent(j, s)
  }

  // ----- Positions -----

  lemma ElementsAdd(a: seq<Tag>, b: seq<Tag>)
    ensures Elements(a + b) == Elements(a) + Elements(b)
  {
  }

  lemma {:induction false} FlatAt(parts: seq<seq<Tag>>, k: nat, i: nat)
    requires k < |parts| && i < |parts[k]|
    ensures var q := |Flat(parts[..k])| + i;
            q < |Flat(parts)| && Flat(parts)[q] == parts[k][i] && Flat(parts)[..q] == Flat(parts[..k]) + parts[k][..i]
    decreases |parts|
  {
    var n := |parts| - 1;
    if k < n {
      FlatAt(parts[..n], k, i);
      assert parts[..n][..k] == parts[..k];
    }
  }

  lemma {:induction false} FlatElements(batches: seq<set<Tag>>, parts: seq<seq<Tag>>)
    requires OrderOf(batches, parts)
    ensures Elements(Flat(parts)) == Applied(batches)
    decreases |parts|
  {
    if parts != [] {
      var n := |parts| - 1;
      assert OrderOf(batches[..n], parts[..n]);
      FlatElements(batches[..n], parts[..n]);
      hide Elements;
      ElementsAdd(Flat(parts[..n]), parts[n]);
    } else {
      assert Elements<Tag>([]) == {};
    }
  }

  lemma OrderPrefix(batches: seq<set<Tag>>, parts: seq<seq<Tag>>, k: nat)
    requires OrderOf(batches, parts) && k <= |parts|
    ensures |batches| == |parts| && OrderOf(batches[..k], parts[..k])
  {
  }

  lemma InFlat(batches: seq<set<Tag>>, parts: seq<seq<Tag>>, t: Tag, k: nat) returns (i: nat)
    requires OrderOf(batches, parts) && k < |batches| && t in batches[k]
    ensures i < |parts[k]| && parts[k][i] == t
  {
    assert t in Elements(parts[k]);
    i :| i < |parts[k]| && parts[k][i] == t;
  }

  /** What has been applied before entry `i` of round `k`. */
  lemma BeforeEntry(batches: seq<set<Tag>>, parts: seq<seq<Tag>>, k: nat, i: nat)
    requires OrderOf(batches, parts) && k < |parts| && i < |parts[k]|
    ensures var q := |Flat(parts[..k])| + i;
            && q < |Flat(parts)| && Flat(parts)[q] == parts[k][i]
            && Elements(Flat(parts)[..q]) == Applied(batches[..k]) + Elements(parts[k][..i])
  {
    hide OrderOf;
    FlatAt(parts, k, i);
    OrderPrefix(batches, parts, k);
    FlatElements(batches[..k], parts[..k]);
    hide Elements;
    ElementsAdd(Flat(parts[..k]), parts[k][..i]);
  }

  lemma KeptAppend(j: Job, log: seq<Tag>, more: seq<Tag>)
    requires Kept(j, log)
    requires forall i, d :: 0 <= i < |more| && DependsOn(j, more[i], d) && d in j.untagSet ==>
               d in Elements(log) + Elements(more[..i])
    ensures Kept(j, log + more)
  {
    hide DependsOn;
    var all := log + more;
    forall q: nat | q < |all|
      ensures KeptAt(j, all, q)
    {
      if q < |log| {
        assert KeptAt(j, log, q) && all[q] == log[q] && all[..q] == log[..q];
      } else {
        var i := q - |log|;
        assert all[q] == more[i] && all[..q] == log + more[..i];
        ElementsAdd(log, more[..i]);
      }
    }
  }

  // ----- Orders exist -----

  lemma {:induction false} SetOrder(s: set<Tag>) returns (order: seq<Tag>)
    ensures NoRepeats(order) && Elements(order) == s
    decreases |s|
  {
    if s == {} {
      order := [];
    } else {
      var t := SomeMissing(s, {});
      var rest := SetOrder(s - {t});
      order := FirstThen(t, rest);
    }
  }

  lemma FirstThen(t: Tag, rest: seq<Tag>) returns (order: seq<Tag>)
    requires NoRepeats(rest) && t !in Elements(rest)
    ensures order == [t] + rest && NoRepeats(order) && Elements(order) == {t} + Elements(rest)
  {
    order := [t] + rest;
    assert forall i :: 0 <= i < |rest| ==> rest[i] in Elements(rest);
  }

  /** Some order of the rounds in which `t` is the first of its round. */
  lemma {:induction false} OrderWithFirst(batches: seq<set<Tag>>, k: nat, t: Tag) returns (parts: seq<seq<Tag>>)
    requires k < |batches| ==> t in batches[k]
    ensures OrderOf(batches, parts) && (k < |batches| ==> parts[k] != [] && parts[k][0] == t)
    decreases |batches|
  {
    if batches == [] {
      parts := [];
    } else {
      var n := |batches| - 1;
      var init := OrderWithFirst(batches[..n], if k < n then k else n, t);
      var last := SetOrder(batches[n] - {t});
      if k == n { last := FirstThen(t, last); } else { last := SetOrder(batches[n]); }
      parts := init + [last];
    }
  }

  // ----- Every order -----

  lemma FirstOfRound(j: Job, batches: seq<set<Tag>>, parts: seq<seq<Tag>>, k: nat, d: Tag)
    requires OrderOf(batches, parts) && k < |parts| && parts[k] != []
    requires DependsOn(j, parts[k][0], d) && d in j.untagSet && d !in Applied(batches[..k])
    ensures !Kept(j, Flat(parts))
  {
    hide OrderOf, DependsOn;
    BeforeEntry(batches, parts, k, 0);
    assert parts[k][..0] == [];
    var q := |Flat(parts[..k])|;
    assert !KeptAt(j, Flat(parts), q);
  }

  lemma AppliedIsBelow(j: Job, level: map<Tag, nat>, batches: seq<set<Tag>>, k: nat)
    requires ValidJob(j) && IsLevel(j, level) && Fits(j, level) && Greedy(j, batches) && k <= |batches|
    ensures Applied(batches[..k]) == Below(j, level, k)
  {
    hide ValidJob, IsLevel, Fits, Greedy, Applied;
    assert batches[..|batches|] == batches;
    if k < |batches| { GreedyAt(j, batches, k); }
    RoundsAreLevels(j, level, batches[..k]);
  }

  lemma DependenceBreaks(j: Job, level: map<Tag, nat>, batches: seq<set<Tag>>, t: Tag, d: Tag)
    requires ValidJob(j) && IsLevel(j, level) && Fits(j, level) && Greedy(j, batches)
             && Applied(batches) == PendingOf(j)
    requires t in PendingOf(j) && DependsOn(j, t, d) && d in j.untagSet
    ensures !EveryOrderKeeps(j, batches)
  {
    hide ValidJob, IsLevel, Fits, Greedy, DependsOn, Kept, Applied;
    LevelKeys(j, level);
    PairMeans(j, level, t, d);
    RoundsAreLevels(j, level, batches);
    var k := level[t];
    AppliedIsBelow(j, level, batches, k);
    assert t in Layer(j, level, k);
    var parts := OrderWithFirst(batches, k, t);
    FirstOfRound(j, batches, parts, k, d);
  }

  lemma NothingToKeep(j: Job, batches: seq<set<Tag>>, parts: seq<seq<Tag>>)
    requires NoDependence(j) && OrderOf(batches, parts) && Applied(batches) == PendingOf(j)
    ensures Kept(j, Flat(parts))
  {
    hide OrderOf, DependsOn, Flat;
    FlatElements(batches, parts);
    forall q: nat | q < |Flat(parts)|
      ensures KeptAt(j, Flat(parts), q)
    {
      assert Flat(parts)[q] in Elements(Flat(parts));
    }
  }

  /** After a successful run: every order of its rounds keeps the promise exactly when no
      pending tag depends on a tag that has a downgrader. */
  lemma EveryOrderIff(j: Job, level: map<Tag, nat>, batches: seq<set<Tag>>)
    requires ValidJob(j) && IsLevel(j, level) && Fits(j, level) && Greedy(j, batches)
             && Applied(batches) == PendingOf(j)
    ensures EveryOrderKeeps(j, batches) <==> NoDependence(j)
  {
    hide ValidJob, IsLevel, Fits, Greedy, DependsOn, Kept, Applied;
    if NoDependence(j) {
      forall parts | OrderOf(batches, parts) ensures Kept(j, Flat(parts)) { NothingToKeep(j, batches, parts); }
    } else {
      var t, d :| t in PendingOf(j) && DependsOn(j, t, d) && d in j.untagSet;
      DependenceBreaks(j, level, batches, t, d);
    }
  }

  // ----- Some order -----

  /** Each tag of the order comes after those of `s` it depends on. */
  ghost predicate AfterNeeds(j: Job, order: seq<Tag>, s: set<Tag>) {
    forall i, d :: 0 <= i < |order| && DependsOn(j, order[i], d) && d in s ==> d in Elements(order[..i])
  }

  /** Tags to be removed, each after those it depends on. */
  lemma {:induction false} RemovalOrder(j: Job, s: set<Tag>) returns (order: seq<Tag>)
    requires NoRing(j) && s <= Removals(j)
    ensures NoRepeats(order) && Elements(order) == s && AfterNeeds(j, order, s)
    decreases |s|
  {
    hide DependsOn, Removals, NoRepeats, Independent;
    if s == {} {
      order := [];
      NoneRepeats();
    } else {
      assert HasIndependent(j, s);
      var t :| t in s && Independent(j, t, s);
      var rest := RemovalOrder(j, s - {t});
      order := FirstThen(t, rest);
      IndependentFirst(j, t, rest, s);
    }
  }

  lemma NoneRepeats()
    ensures NoRepeats<Tag>([])
  {
  }

  lemma IndependentFirst(j: Job, t: Tag, rest: seq<Tag>, s: set<Tag>)
    requires Independent(j, t, s) && AfterNeeds(j, rest, s - {t})
    ensures AfterNeeds(j, [t] + rest, s)
  {
    var order := [t] + rest;
    forall i, d | 0 <= i < |order| && DependsOn(j, order[i], d) && d in s
      ensures d in Elements(order[..i])
    {
      if i > 0 {
        assert order[i] == rest[i - 1] && order[..i] == [t] + rest[..i - 1];
        ElementsAdd([t], rest[..i - 1]);
        assert DependsOn(j, rest[i - 1], d) && (d != t ==> d in s - {t});
        assert d == t || d in Elements(rest[..i - 1]);
      }
    }
  }

  /** A round in an order that keeps the promise: removals first. */
  lemma GoodRound(j: Job, s: set<Tag>) returns (order: seq<Tag>)
    requires ValidJob(j) && NoRing(j) && s <= PendingOf(j)
    ensures NoRepeats(order) && Elements(order) == s
    ensures forall i, d :: 0 <= i < |order| && DependsOn(j, order[i], d) && d in s && d in j.untagSet ==>
              d in Elements(order[..i])
  {
    hide NoRing;
    var gone := RemovalOrder(j, s * Removals(j));
    var rest := SetOrder(s - Removals(j));
    order := gone + rest;
    ElementsAdd(gone, rest);
    assert forall i :: 0 <= i < |gone| ==> gone[i] in Elements(gone);
    assert forall i :: 0 <= i < |rest| ==> rest[i] in Elements(rest);
    forall i, d | 0 <= i < |order| && DependsOn(j, order[i], d) && d in s && d in j.untagSet
      ensures d in Elements(order[..i])
    {
      if i < |gone| {
        assert order[..i] == gone[..i] && order[i] == gone[i];
      } else {
        assert order[..i] == gone + rest[..i - |gone|];
        ElementsAdd(gone, rest[..i - |gone|]);
      }
    }
  }

  ghost predicate SameRound(j: Job, batches: seq<set<Tag>>) {
    forall k, t, d :: 0 <= k < |batches| && t in batches[k] && DependsOn(j, t, d) && d in j.untagSet ==> d in batches[k]
  }

  lemma {:induction false} GoodOrder(j: Job, batches: seq<set<Tag>>) returns (parts: seq<seq<Tag>>)
    requires ValidJob(j) && NoRing(j) && SameRound(j, batches)
             && forall k :: 0 <= k < |batches| ==> batches[k] <= PendingOf(j)
    ensures OrderOf(batches, parts) && Kept(j, Flat(parts))
    decreases |batches|
  {
    hide NoRing, DependsOn;
    if batches == [] {
      parts := [];
    } else {
      var n := |batches| - 1;
      var init := GoodOrder(j, batches[..n]);
      var last := GoodRound(j, batches[n]);
      parts := init + [last];
      assert parts[..n] == init;
      forall i, d | 0 <= i < |last| && DependsOn(j, last[i], d) && d in j.untagSet
        ensures d in Elements(Flat(init)) + Elements(last[..i])
      {
        assert last[i] in Elements(last);
      }
      KeptAppend(j, Flat(init), last);
    }
  }

  lemma KeptMeansSameRound(j: Job, batches: seq<set<Tag>>, parts: seq<seq<Tag>>, k: nat, t: Tag, d: Tag)
    requires OrderOf(batches, parts) && Kept(j, Flat(parts)) && k < |batches| && t in batches[k]
    requires DependsOn(j, t, d) && d in j.untagSet && d !in Applied(batches[..k])
    ensures d in batches[k]
  {
    var i := InFlat(batches, parts, t, k);
    BeforeEntry(batches, parts, k, i);
    var q := |Flat(parts[..k])| + i;
    assert KeptAt(j, Flat(parts), q);
    assert d in Elements(parts[k][..i]);
    assert d in Elements(parts[k]);
  }

  /** The first entry of a log that is in a set. */
  lemma {:induction false} Earliest(log: seq<Tag>, s: set<Tag>) returns (q: nat)
    requires exists t :: t in s && t in log
    ensures q < |log| && log[q] in s && forall p :: 0 <= p < q ==> log[p] !in s
    decreases |log|
  {
    var n := |log| - 1;
    if t :| t in s && t in log[..n] {
      q := Earliest(log[..n], s);
    } else {
      q := n;
    }
  }

  lemma KeptMeansNoRing(j: Job, log: seq<Tag>)
    requires ValidJob(j) && Kept(j, log) && Elements(log) == PendingOf(j)
    ensures NoRing(j)
  {
    forall s: set<Tag> | s != {} && s <= Removals(j)
      ensures HasIndependent(j, s)
    {
      var t := SomeMissing(s, {});
      assert t in Elements(log);
      var q := Earliest(log, s);
      assert KeptAt(j, log, q);
      assert log[q] in j.deps;
      forall d | d in j.deps[log[q]] ensures d !in s {
        assert DependsOn(j, log[q], d);
        assert d in Elements(log[..q]) ==> d !in s;
      }
      assert Independent(j, log[q], s);
    }
  }

  lemma LevelsMeanRounds(j: Job, level: map<Tag, nat>, batches: seq<set<Tag>>)
    requires ValidJob(j) && IsLevel(j, level) && Fits(j, level) && Greedy(j, batches)
             && Applied(batches) == PendingOf(j)
    ensures SameLevel(j, level) <==> SameRound(j, batches)
  {
    hide ValidJob, IsLevel, Fits, Greedy, DependsOn, Applied;
    LevelKeys(j, level);
    RoundsAreLevels(j, level, batches);
    if SameLevel(j, level) {
      forall k, t, d | 0 <= k < |batches| && t in batches[k] && DependsOn(j, t, d) && d in j.untagSet
        ensures d in batches[k]
      {
        assert t in Layer(j, level, k) && level[d] == level[t];
      }
    }
    if SameRound(j, batches) {
      forall t, d | t in level && DependsOn(j, t, d) && d in j.untagSet
        ensures d in level && level[d] == level[t]
      {
        var k := level[t];
        assert t in Below(j, level, |batches|) && t in Layer(j, level, k);
        assert t in batches[k];
      }
    }
  }

  /** After a successful run: some order of its rounds keeps the promise exactly when every
      tag to be removed has the level of the tags that depend on it, and the tags to be
      removed do not depend on each other in a ring. */
  lemma SomeOrderIff(j: Job, level: map<Tag, nat>, batches: seq<set<Tag>>)
    requires ValidJob(j) && IsLevel(j, level) && Fits(j, level) && Greedy(j, batches)
             && Applied(batches) == PendingOf(j)
    ensures SomeOrderKeeps(j, batches) <==> SameLevel(j, level) && NoRing(j)
  {
    hide IsLevel, Fits, DependsOn, Kept, Applied, NoRing;
    LevelsMeanRounds(j, level, batches);
    if SameRound(j, batches) && NoRing(j) {
      forall k | 0 <= k < |batches| ensures batches[k] <= PendingOf(j) { GreedyAt(j, batches, k); }
      var parts := GoodOrder(j, batches);
      assert SomeOrderKeeps(j, batches);
    }
    if SomeOrderKeeps(j, batches) {
      var parts :| OrderOf(batches, parts) && Kept(j, Flat(parts));
      FlatElements(batches, parts);
      KeptMeansNoRing(j, Flat(parts));
      KeptMeansRounds(j, level, batches, parts);
    }
  }

  lemma KeptMeansRounds(j: Job, level: map<Tag, nat>, batches: seq<set<Tag>>, parts: seq<seq<Tag>>)
    requires ValidJob(j) && IsLevel(j, level) && Fits(j, level) && Greedy(j, batches)
             && Applied(batches) == PendingOf(j)
    requires OrderOf(batches, parts) && Kept(j, Flat(parts))
    ensures SameRound(j, batches)
  {
    hide ValidJob, IsLevel, Fits, Greedy, DependsOn, Applied, OrderOf, Kept;
    LevelKeys(j, level);
    RoundsAreLevels(j, level, batches);
    forall k, t, d | 0 <= k < |batches| && t in batches[k] && DependsOn(j, t, d) && d in j.untagSet
      ensures d in batches[k]
    {
      assert t in Layer(j, level, k);
      PairMeans(j, level, t, d);
      AppliedIsBelow(j, level, batches, k);
      KeptMeansSameRound(j, batches, parts, k, t, d);
    }
  }

  // ----- The smallest registry that shows it -----

  /** `a` is to be added and depends on `b`, which is present and to be removed. */
  ghost function Example(a: Tag, b: Tag): Job { Job(map[a := {b}, b := {}], {a}, {b}, {b}) }

  /** One round applies both; removing `b` first keeps the promise, adding `a` first breaks
      it. */
  lemma ExampleBoth(a: Tag, b: Tag)
    requires a != b
    ensures var j := Example(a, b);
            && ValidJob(j) && Workable(j) && Greedy(j, [{a, b}]) && Applied([{a, b}]) == PendingOf(j)
            && OrderOf([{a, b}], [[b, a]]) && Kept(j, Flat([[b, a]]))
            && OrderOf([{a, b}], [[a, b]]) && !Kept(j, Flat([[a, b]]))
  {
    var j := Example(a, b);
    assert PendingOf(j) == {a, b};
    var batches := [{a, b}];
    assert batches[..0] == [];
    assert TagsAfter(j, {}) == {b};
    assert ReadyIn(j, {}) == {a, b};
    assert Applied(batches) == {a, b};
    DoneMeansWorkable(j, batches);
    RemovalFirst(j, a, b);
    AdditionFirst(j, a, b);
  }

  lemma RemovalFirst(j: Job, a: Tag, b: Tag)
    requires a != b && j == Example(a, b)
    ensures OrderOf([{a, b}], [[b, a]]) && Kept(j, Flat([[b, a]]))
  {
    var parts, log := [[b, a]], [b, a];
    assert parts[..0] == [] && Flat(parts) == log;
    assert Elements(log) == {a, b};
    assert log[..1] == [b] && b in Elements([b]);
    assert KeptAt(j, log, 0) && KeptAt(j, log, 1);
  }

  lemma AdditionFirst(j: Job, a: Tag, b: Tag)
    requires a != b && j == Example(a, b)
    ensures OrderOf([{a, b}], [[a, b]]) && !Kept(j, Flat([[a, b]]))
  {
    var parts, log := [[a, b]], [a, b];
    assert parts[..0] == [] && Flat(parts) == log;
    assert Elements(log) == {a, b};
    assert log[..0] == [] && DependsOn(j, a, b) && !KeptAt(j, log, 0);
  }
}
