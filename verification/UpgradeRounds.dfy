/** Upgrades and downgrades in rounds, as `cpt_upgrader.py` applies them: when all of them
    can be applied, in which round each one is, and what that means for tags that depend on a
    tag to be removed. */
module UpgradeRounds {
  import opened UpgradeOrder

  /** What one run of the scheduler is about: dependencies, the tags with an upgrader, those
      with a downgrader, and the tags of the checkpoint. */
  datatype Job = Job(deps: Dependencies, tagSet: set<Tag>, untagSet: set<Tag>, tags0: set<Tag>)

  ghost function Additions(j: Job): set<Tag> { j.tagSet - j.tags0 }

  ghost function Removals(j: Job): set<Tag> { j.untagSet * j.tags0 }

  ghost function PendingOf(j: Job): set<Tag> { Additions(j) + Removals(j) }

  ghost predicate ValidJob(j: Job) { j.tagSet !! j.untagSet && PendingOf(j) <= j.deps.Keys }

  ghost function TagsAfter(j: Job, applied: set<Tag>): set<Tag> {
    (j.tags0 + applied * j.tagSet) - applied * j.untagSet
  }

  ghost function ReadyIn(j: Job, applied: set<Tag>): set<Tag> {
    set t | t in PendingOf(j) - applied && t in j.deps && Ready(j.deps, t, TagsAfter(j, applied))
  }

  ghost function Applied(batches: seq<set<Tag>>): set<Tag> {
    if batches == [] then {} else Applied(batches[..|batches| - 1]) + batches[|batches| - 1]
  }

  /** Each round applies everything that is ready. */
  ghost predicate Greedy(j: Job, batches: seq<set<Tag>>) {
    batches == []
    || (Greedy(j, batches[..|batches| - 1]) && batches[|batches| - 1] == ReadyIn(j, Applied(batches[..|batches| - 1])))
  }

  lemma GreedyMore(j: Job, batches: seq<set<Tag>>)
    requires Greedy(j, batches)
    ensures var ready := ReadyIn(j, Applied(batches));
            Greedy(j, batches + [ready]) && Applied(batches + [ready]) == Applied(batches) + ready
  {
    hide ReadyIn;
    assert (batches + [ReadyIn(j, Applied(batches))])[..|batches|] == batches;
  }

  lemma {:induction false} GreedyAt(j: Job, batches: seq<set<Tag>>, k: nat)
    requires Greedy(j, batches) && k < |batches|
    ensures Greedy(j, batches[..k]) && batches[k] == ReadyIn(j, Applied(batches[..k]))
    ensures Applied(batches[..k + 1]) == Applied(batches[..k]) + batches[k]
    decreases |batches|
  {
    hide ReadyIn;
    assert batches[..k + 1][..k] == batches[..k];
    if k < |batches| - 1 {
      var init := batches[..|batches| - 1];
      GreedyAt(j, init, k);
      assert init[..k] == batches[..k] && init[..k + 1] == batches[..k + 1];
    } else {
      assert batches[..k + 1] == batches;
    }
  }

  // ----- Levels -----

  /** The level of a pending tag is the length of the longest chain of additions below it. */
  ghost predicate IsLevel(j: Job, level: map<Tag, nat>) {
    && level.Keys == PendingOf(j)
    && (forall t, d :: t in level && DependsOn(j, t, d) ==> Rises(j, level, t, d))
    && (forall t :: t in level && level[t] > 0 ==> HasBelow(j, level, t))
  }

  ghost predicate DependsOn(j: Job, t: Tag, d: Tag) { t in j.deps && d in j.deps[t] }

  ghost predicate Rises(j: Job, level: map<Tag, nat>, t: Tag, d: Tag)
    requires t in level
  {
    d in Additions(j) ==> d in level && level[d] < level[t]
  }

  ghost predicate HasBelow(j: Job, level: map<Tag, nat>, t: Tag)
    requires t in level
  {
    exists d :: DependsOn(j, t, d) && d in Additions(j) && d in level && level[d] + 1 == level[t]
  }

  /** Every dependency is present or will be added, and one that is to be removed is present
      and not removed before. */
  ghost predicate Fits(j: Job, level: map<Tag, nat>) {
    forall t, d :: t in level && DependsOn(j, t, d) ==> FitsPair(j, level, t, d)
  }

  ghost predicate FitsPair(j: Job, level: map<Tag, nat>, t: Tag, d: Tag)
    requires t in level
  {
    d in j.tags0 + j.tagSet && (d in j.untagSet ==> d in j.tags0 && d in level && level[t] <= level[d])
  }

  ghost predicate Workable(j: Job) { exists level :: IsLevel(j, level) && Fits(j, level) }

  ghost function Layer(j: Job, level: map<Tag, nat>, k: nat): set<Tag> { set t | t in level && level[t] == k }

  ghost function Below(j: Job, level: map<Tag, nat>, k: nat): set<Tag> { set t | t in level && level[t] < k }

  /** With the lower levels applied, exactly the next level is ready. */
  lemma LayerIsReady(j: Job, level: map<Tag, nat>, k: nat)
    requires ValidJob(j) && IsLevel(j, level) && Fits(j, level)
    ensures ReadyIn(j, Below(j, level, k)) == Layer(j, level, k)
  {
    hide IsLevel, Fits;
    forall t
      ensures t in ReadyIn(j, Below(j, level, k)) <==> t in Layer(j, level, k)
    {
      assert t in level <==> t in PendingOf(j) by { LevelKeys(j, level); }
      if t in level { ReadyAtLevel(j, level, t, k); }
    }
  }

  lemma LevelKeys(j: Job, level: map<Tag, nat>)
    requires IsLevel(j, level)
    ensures level.Keys == PendingOf(j)
  {
  }

  lemma ReadyAtLevel(j: Job, level: map<Tag, nat>, t: Tag, k: nat)
    requires ValidJob(j) && IsLevel(j, level) && Fits(j, level) && t in level
    ensures t in ReadyIn(j, Below(j, level, k)) <==> level[t] == k
  {
    hide IsLevel, Fits, DependsOn;
    LevelKeys(j, level);
    if level[t] == k {
      LevelReady(j, level, t);
    } else if level[t] > k {
      var d := OneBelow(j, level, t);
      AbsentBelow(j, level, t, d, k);
    }
  }

  lemma OneBelow(j: Job, level: map<Tag, nat>, t: Tag) returns (d: Tag)
    requires IsLevel(j, level) && t in level && level[t] > 0
    ensures DependsOn(j, t, d) && d in Additions(j) && d in level && level[d] + 1 == level[t]
  {
    hide Rises, DependsOn;
    assert HasBelow(j, level, t);
    d :| DependsOn(j, t, d) && d in Additions(j) && d in level && level[d] + 1 == level[t];
  }

  lemma AbsentBelow(j: Job, level: map<Tag, nat>, t: Tag, d: Tag, k: nat)
    requires DependsOn(j, t, d) && d in Additions(j) && d in level && level[d] >= k
    ensures t in j.deps && !Ready(j.deps, t, TagsAfter(j, Below(j, level, k)))
  {
    assert d !in TagsAfter(j, Below(j, level, k));
  }

  lemma LevelReady(j: Job, level: map<Tag, nat>, t: Tag)
    requires ValidJob(j) && IsLevel(j, level) && Fits(j, level) && t in level
    ensures t in j.deps && Ready(j.deps, t, TagsAfter(j, Below(j, level, level[t])))
  {
    hide Fits, IsLevel;
    LevelKeys(j, level);
    forall d | d in j.deps[t]
      ensures d in TagsAfter(j, Below(j, level, level[t]))
    {
      PairMeans(j, level, t, d);
      DependencyPresent(j, level, t, d);
    }
  }

  lemma PairMeans(j: Job, level: map<Tag, nat>, t: Tag, d: Tag)
    requires IsLevel(j, level) && Fits(j, level) && t in level && DependsOn(j, t, d)
    ensures Rises(j, level, t, d) && FitsPair(j, level, t, d)
  {
    hide Rises, FitsPair, DependsOn, HasBelow;
  }

  lemma DependencyPresent(j: Job, level: map<Tag, nat>, t: Tag, d: Tag)
    requires ValidJob(j) && t in level && Rises(j, level, t, d) && FitsPair(j, level, t, d)
    ensures d in TagsAfter(j, Below(j, level, level[t]))
  {
  }

  /** The rounds are the levels. */
  lemma {:induction false} RoundsAreLevels(j: Job, level: map<Tag, nat>, batches: seq<set<Tag>>)
    requires ValidJob(j) && IsLevel(j, level) && Fits(j, level) && Greedy(j, batches)
    ensures Applied(batches) == Below(j, level, |batches|)
    ensures forall k :: 0 <= k < |batches| ==> batches[k] == Layer(j, level, k)
    decreases |batches|
  {
    hide ValidJob, IsLevel, Fits, ReadyIn;
    if batches != [] {
      var init := batches[..|batches| - 1];
      RoundsAreLevels(j, level, init);
      LayerIsReady(j, level, |init|);
      assert forall k :: 0 <= k < |init| ==> init[k] == batches[k];
      assert Below(j, level, |init| + 1) == Below(j, level, |init|) + Layer(j, level, |init|);
    }
  }

  /** Below a tag of a level there is one of every lower level. */
  lemma {:induction false} Descend(j: Job, level: map<Tag, nat>, t: Tag, k: nat) returns (d: Tag)
    requires IsLevel(j, level) && t in level && k <= level[t]
    ensures d in level && level[d] == k
    decreases level[t]
  {
    hide IsLevel;
    if level[t] == k {
      d := t;
    } else {
      var e := OneBelow(j, level, t);
      d := Descend(j, level, e, k);
    }
  }

  lemma SomeMissing(s: set<Tag>, from: set<Tag>) returns (t: Tag)
    requires !(s <= from)
    ensures t in s && t !in from
  {
    t :| t in s && t !in from;
  }

  lemma NeverStuck(j: Job, level: map<Tag, nat>, batches: seq<set<Tag>>)
    requires ValidJob(j) && IsLevel(j, level) && Fits(j, level) && Greedy(j, batches) && Applied(batches) < PendingOf(j)
    ensures ReadyIn(j, Applied(batches)) != {}
  {
    hide ReadyIn, Greedy, Fits, IsLevel;
    RoundsAreLevels(j, level, batches);
    LayerIsReady(j, level, |batches|);
    LevelKeys(j, level);
    var t := SomeMissing(PendingOf(j), Applied(batches));
    var d := Descend(j, level, t, |batches|);
    assert d in Layer(j, level, |batches|);
  }

  lemma StuckMeansUnworkable(j: Job, batches: seq<set<Tag>>)
    requires ValidJob(j) && Greedy(j, batches) && Applied(batches) < PendingOf(j) && ReadyIn(j, Applied(batches)) == {}
    ensures !Workable(j)
  {
    hide IsLevel, Fits, Greedy, ReadyIn;
    forall level | IsLevel(j, level) && Fits(j, level)
      ensures false
    {
      NeverStuck(j, level, batches);
    }
  }

  // ----- The levels of a finished run -----

  ghost function RoundOf(batches: seq<set<Tag>>, t: Tag): (k: nat)
    requires t in Applied(batches)
    ensures k < |batches| && t in batches[k] && t !in Applied(batches[..k])
  {
    var n := |batches| - 1;
    if t in Applied(batches[..n]) then
      var k := RoundOf(batches[..n], t);
      assert batches[..n][..k] == batches[..k];
      k
    else n
  }

  lemma {:induction false} AppliedGrows(batches: seq<set<Tag>>, k: nat, m: nat)
    requires k <= m <= |batches|
    ensures Applied(batches[..k]) <= Applied(batches[..m])
    decreases m
  {
    if k < m {
      AppliedGrows(batches, k, m - 1);
      assert batches[..m][..m - 1] == batches[..m - 1];
    }
  }

  /** A tag is in one round only. */
  lemma RoundIs(j: Job, batches: seq<set<Tag>>, t: Tag, k: nat)
    requires Greedy(j, batches) && k < |batches| && t in batches[k]
    ensures t in Applied(batches) && RoundOf(batches, t) == k
  {
    hide Applied, Greedy;
    GreedyAt(j, batches, k);
    InApplied(batches, k);
    AppliedGrows(batches, k + 1, |batches|);
    assert batches[..|batches|] == batches;
    var i := RoundOf(batches, t);
    InApplied(batches, i);
    if i < k { AppliedGrows(batches, i + 1, k); }
    if k < i { AppliedGrows(batches, k + 1, i); }
  }

  ghost function LevelsOf(batches: seq<set<Tag>>): map<Tag, nat> {
    map t | t in Applied(batches) :: RoundOf(batches, t)
  }

  lemma ReadyInRound(j: Job, batches: seq<set<Tag>>, t: Tag)
    requires Greedy(j, batches) && t in Applied(batches)
    ensures var k := RoundOf(batches, t);
            t in PendingOf(j) && t in j.deps && Ready(j.deps, t, TagsAfter(j, Applied(batches[..k])))
  {
    GreedyAt(j, batches, RoundOf(batches, t));
  }

  lemma AppliedBefore(batches: seq<set<Tag>>, d: Tag, k: nat)
    requires k <= |batches| && d in Applied(batches[..k])
    ensures d in Applied(batches) && RoundOf(batches, d) < k
  {
    assert batches[..|batches|] == batches;
    AppliedGrows(batches, k, |batches|);
    var i := RoundOf(batches, d);
    if i >= k { AppliedGrows(batches, k, i); }
  }

  /** A tag that was not ready one round earlier waited for an addition of that round. */
  lemma WaitedFor(j: Job, batches: seq<set<Tag>>, t: Tag) returns (d: Tag)
    requires ValidJob(j) && Greedy(j, batches) && t in Applied(batches) && RoundOf(batches, t) > 0
    ensures DependsOn(j, t, d) && d in Additions(j)
    ensures d in Applied(batches) && RoundOf(batches, d) == RoundOf(batches, t) - 1
  {
    var k := RoundOf(batches, t);
    ReadyInRound(j, batches, t);
    GreedyAt(j, batches, k - 1);
    AppliedGrows(batches, k - 1, k);
    assert t !in batches[k - 1];
    assert !Ready(j.deps, t, TagsAfter(j, Applied(batches[..k - 1])));
    d := SomeMissing(j.deps[t], TagsAfter(j, Applied(batches[..k - 1])));
    assert d in TagsAfter(j, Applied(batches[..k]));
    assert d in batches[k - 1];
    RoundIs(j, batches, d, k - 1);
  }

  lemma LevelsAreLevels(j: Job, batches: seq<set<Tag>>)
    requires ValidJob(j) && Greedy(j, batches) && Applied(batches) == PendingOf(j)
    ensures IsLevel(j, LevelsOf(batches))
  {
    hide Greedy, RoundOf;
    var level := LevelsOf(batches);
    forall t, d | t in level && DependsOn(j, t, d)
      ensures Rises(j, level, t, d)
    {
      DependencyFits(j, batches, t, d);
    }
    forall t | t in level && level[t] > 0
      ensures HasBelow(j, level, t)
    {
      var d := WaitedFor(j, batches, t);
      assert level[d] + 1 == level[t];
    }
  }

  /** When everything has been applied, the rounds are the levels, and they fit. */
  lemma DoneMeansWorkable(j: Job, batches: seq<set<Tag>>)
    requires ValidJob(j) && Greedy(j, batches) && Applied(batches) == PendingOf(j)
    ensures IsLevel(j, LevelsOf(batches)) && Fits(j, LevelsOf(batches)) && Workable(j)
  {
    hide Greedy, RoundOf, IsLevel;
    LevelsAreLevels(j, batches);
    var level := LevelsOf(batches);
    forall t, d | t in level && DependsOn(j, t, d)
      ensures FitsPair(j, level, t, d)
    {
      DependencyFits(j, batches, t, d);
    }
    assert IsLevel(j, level) && Fits(j, level);
  }

  lemma DependencyFits(j: Job, batches: seq<set<Tag>>, t: Tag, d: Tag)
    requires ValidJob(j) && Greedy(j, batches) && Applied(batches) == PendingOf(j)
    requires t in PendingOf(j) && DependsOn(j, t, d)
    ensures d in j.tags0 + j.tagSet
    ensures d in Additions(j) ==> d in PendingOf(j) && RoundOf(batches, d) < RoundOf(batches, t)
    ensures d in j.untagSet ==> d in j.tags0 && d in PendingOf(j) && RoundOf(batches, t) <= RoundOf(batches, d)
  {
    hide Greedy;
    ReadyInRound(j, batches, t);
    var k := RoundOf(batches, t);
    assert d in TagsAfter(j, Applied(batches[..k]));
    if d in Additions(j) { AppliedBefore(batches, d, k); }
    if d in j.untagSet { NotYetApplied(batches, d, k); }
  }

  lemma InApplied(batches: seq<set<Tag>>, i: nat)
    requires i < |batches|
    ensures batches[i] <= Applied(batches[..i + 1])
  {
    assert batches[..i + 1][..i] == batches[..i];
  }

  lemma NotYetApplied(batches: seq<set<Tag>>, d: Tag, k: nat)
    requires d in Applied(batches) && k <= |batches| && d !in Applied(batches[..k])
    ensures RoundOf(batches, d) >= k
  {
    hide Applied;
    var i := RoundOf(batches, d);
    InApplied(batches, i);
    if i < k { AppliedGrows(batches, i + 1, k); }
  }
}
