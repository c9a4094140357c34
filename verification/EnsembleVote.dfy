/** The weighted vote of the ensemble branch predictor `ensemble.cc` and how its weights
    learn. */
module EnsembleVote {

  // ----- Saturating counters -----

  function Increment(c: nat, max: nat): nat { if c < max then c + 1 else c }

  function Decrement(c: nat): nat { if c > 0 then c - 1 else c }

  function Raise(c: nat, max: nat, times: nat): (r: nat)
    ensures c <= max ==> r == if c + times <= max then c + times else max
    decreases times
  {
    if times == 0 then c else Raise(Increment(c, max), max, times - 1)
  }

  function Lower(c: nat, times: nat): (r: nat)
    ensures r == if c >= times then c - times else 0
    decreases times
  {
    if times == 0 then c else Lower(Decrement(c), times - 1)
  }

  // ----- The vote -----

  /** One value for each of the three experts. */
  datatype Votes = Votes(gshare: bool, global_: bool, local: bool)

  datatype Weights = Weights(gshare: nat, global_: nat, local: nat)

  const MAX_WEIGHT := 15
  const MAX_WEIGHT_SUM := 12

  predicate ValidWeights(w: Weights) {
    w.gshare <= MAX_WEIGHT && w.global_ <= MAX_WEIGHT && w.local <= MAX_WEIGHT
  }

  function Sum(w: Weights): nat { w.gshare + w.global_ + w.local }

  function Signed(vote: bool, weight: int): int { if vote then weight else -weight }

  /** Taken if the votes for taken weigh at least as much as the others. */
  function Verdict(w: Weights, v: Votes): bool {
    Signed(v.global_, w.global_) + Signed(v.local, w.local) + Signed(v.gshare, w.gshare) >= 0
  }

  function One(b: bool): nat { if b then 1 else 0 }

  /** How many experts voted with the verdict. */
  function Contributors(v: Votes, verdict: bool): nat {
    One(verdict == v.gshare) + One(verdict == v.global_) + One(verdict == v.local)
  }

  function LearningRate(contributors: nat): nat {
    if contributors == 1 then 2 else if contributors == 2 then 1 else 0
  }

  function AdjustmentRate(contributors: nat): nat {
    if contributors == 1 then 1 else if contributors == 2 then 2 else 0
  }

  /** An expert that voted with the verdict is rewarded or punished. */
  function LearnOne(weight: nat, contributed: bool, correct: bool, rate: nat): nat {
    if !contributed then weight
    else if correct then Raise(weight, MAX_WEIGHT, rate) else Lower(weight, rate)
  }

  /** An expert that voted against it is adjusted the other way. */
  function AdjustOne(weight: nat, contributed: bool, correct: bool, rate: nat): nat {
    if contributed then weight
    else if correct then Lower(weight, rate) else Raise(weight, MAX_WEIGHT, rate)
  }

  /** The weights after a branch with these votes and this verdict turned out as `taken`. */
  function Learn(w: Weights, v: Votes, verdict: bool, taken: bool): Weights {
    var n, correct := Contributors(v, verdict), verdict == taken;
    var l := Weights(
      LearnOne(w.gshare, verdict == v.gshare, correct, LearningRate(n)),
      LearnOne(w.global_, verdict == v.global_, correct, LearningRate(n)),
      LearnOne(w.local, verdict == v.local, correct, LearningRate(n)));
    if Sum(l) > MAX_WEIGHT_SUM then
      Weights(
        AdjustOne(l.gshare, verdict == v.gshare, correct, AdjustmentRate(n)),
        AdjustOne(l.global_, verdict == v.global_, correct, AdjustmentRate(n)),
        AdjustOne(l.local, verdict == v.local, correct, AdjustmentRate(n)))
    else l
  }

  // ----- What the vote can do -----

  predicate Unanimous(v: Votes) { v.gshare == v.global_ == v.local }

  /** Unanimous experts are overruled exactly when they vote not taken and no expert has any
      weight; this is the only way for a verdict to have no contributor. */
  lemma OverruledIff(w: Weights, v: Votes)
    ensures Contributors(v, Verdict(w, v)) == 0 <==>
            Sum(w) == 0 && v == Votes(false, false, false)
    ensures Unanimous(v) ==> (Verdict(w, v) != v.gshare <==> Contributors(v, Verdict(w, v)) == 0)
  {
  }

  // ----- Runs -----

  /** A resolved branch; the verdict is the one recorded when it was predicted, which later
      updates may have made out of date. */
  datatype Outcome = Outcome(votes: Votes, verdict: bool, taken: bool)

  function Run(w: Weights, log: seq<Outcome>): Weights
    decreases |log|
  {
    if log == [] then w else
      var o := log[|log| - 1];
      Learn(Run(w, log[..|log| - 1]), o.votes, o.verdict, o.taken)
  }

  /** The reachable weights: each within its counter, and together never more than two full
      counters. */
  predicate Reachable(w: Weights) { ValidWeights(w) && Sum(w) <= 2 * MAX_WEIGHT }

  lemma LearnKeepsReachable(w: Weights, o: Outcome)
    requires Reachable(w)
    ensures Reachable(Learn(w, o.votes, o.verdict, o.taken))
  {
    hide Raise, Lower;
  }

  lemma {:induction false} RunKeepsReachable(w: Weights, log: seq<Outcome>)
    requires Reachable(w)
    ensures Reachable(Run(w, log))
    decreases |log|
  {
    if log != [] {
      RunKeepsReachable(w, log[..|log| - 1]);
      LearnKeepsReachable(Run(w, log[..|log| - 1]), log[|log| - 1]);
    }
  }

  /** The bound is reached although MAX_WEIGHT_SUM is 12: as long as the same two experts
      are right against the third, both gain one each time. */
  lemma {:induction false} TwoExpertsFill(log: seq<Outcome>)
    requires forall k :: 0 <= k < |log| ==> log[k] == Outcome(Votes(true, true, false), true, true)
    ensures var m := if |log| <= MAX_WEIGHT then |log| else MAX_WEIGHT;
            Run(Weights(0, 0, 0), log) == Weights(m, m, 0)
    ensures Verdict(Run(Weights(0, 0, 0), log), Votes(true, true, false))
    decreases |log|
  {
    if log != [] { TwoExpertsFill(log[..|log| - 1]); }
  }

  function Smaller(a: nat, b: nat): nat { if a < b then a else b }

  /** What the experts behind a right verdict gain together, unless all three are. */
  function Gain(v: Votes, verdict: bool, taken: bool): nat {
    if verdict == taken && 1 <= Contributors(v, verdict) <= 2 then 2 else 0
  }

  /** What the outvoted experts have to give back at the adjustment rate. */
  function GiveBack(w: Weights, v: Votes, verdict: bool, taken: bool): nat {
    var rate := if verdict == taken then AdjustmentRate(Contributors(v, verdict)) else 0;
    (if v.gshare == verdict then 0 else Smaller(w.gshare, rate))
    + (if v.global_ == verdict then 0 else Smaller(w.global_, rate))
    + (if v.local == verdict then 0 else Smaller(w.local, rate))
  }

  /** An update takes the sum of the weights above the limit exactly when the experts behind
      a right verdict gain more than is left up to the limit and the outvoted ones can give
      back. */
  lemma SumLimitIff(w: Weights, o: Outcome)
    requires Sum(w) <= MAX_WEIGHT_SUM
    ensures Sum(Learn(w, o.votes, o.verdict, o.taken)) <= MAX_WEIGHT_SUM <==>
            Sum(w) + Gain(o.votes, o.verdict, o.taken) <= MAX_WEIGHT_SUM + GiveBack(w, o.votes, o.verdict, o.taken)
  {
    hide Learn;
    if o.verdict == o.taken {
      RightVerdict(w, o.votes, o.verdict);
    } else {
      WrongVerdict(w, o.votes, o.verdict);
    }
  }

  lemma WrongVerdict(w: Weights, v: Votes, verdict: bool)
    requires Sum(w) <= MAX_WEIGHT_SUM
    ensures Sum(Learn(w, v, verdict, !verdict)) <= MAX_WEIGHT_SUM
  {
    hide Raise, Lower, AdjustOne;
  }

  lemma RightVerdict(w: Weights, v: Votes, verdict: bool)
    requires Sum(w) <= MAX_WEIGHT_SUM
    ensures Sum(Learn(w, v, verdict, verdict)) <= MAX_WEIGHT_SUM <==>
            Sum(w) + Gain(v, verdict, verdict) <= MAX_WEIGHT_SUM + GiveBack(w, v, verdict, verdict)
  {
    hide Raise, Lower;
  }

  /** The outcomes with which every update of a run stays within the limit. */
  ghost predicate Affordable(w: Weights, log: seq<Outcome>)
    decreases |log|
  {
    log == [] ||
    (Affordable(w, log[..|log| - 1]) &&
     var before, o := Run(w, log[..|log| - 1]), log[|log| - 1];
     Sum(before) + Gain(o.votes, o.verdict, o.taken)
     <= MAX_WEIGHT_SUM + GiveBack(before, o.votes, o.verdict, o.taken))
  }

  ghost predicate AlwaysWithin(w: Weights, log: seq<Outcome>) {
    forall k :: 0 <= k <= |log| ==> Sum(Run(w, log[..k])) <= MAX_WEIGHT_SUM
  }

  /** Over a whole run, from any weights within the limit. */
  lemma {:induction false} RunWithinLimitIff(w: Weights, log: seq<Outcome>)
    requires Sum(w) <= MAX_WEIGHT_SUM
    ensures AlwaysWithin(w, log) <==> Affordable(w, log)
    decreases |log|
  {
    hide Learn, Gain, GiveBack;
    assert log[..|log|] == log;
    if log == [] {
      assert Run(w, log[..0]) == w;
    } else {
      var init := log[..|log| - 1];
      RunWithinLimitIff(w, init);
      assert forall k :: 0 <= k <= |init| ==> init[..k] == log[..k];
      if Sum(Run(w, init)) <= MAX_WEIGHT_SUM {
        SumLimitIff(Run(w, init), log[|log| - 1]);
      } else {
        assert init[..|init|] == init;
        assert !AlwaysWithin(w, init);
      }
      AlwaysOneMore(w, log);
    }
  }

  lemma AlwaysOneMore(w: Weights, log: seq<Outcome>)
    requires log != []
    ensures AlwaysWithin(w, log) <==> AlwaysWithin(w, log[..|log| - 1]) && Sum(Run(w, log)) <= MAX_WEIGHT_SUM
  {
    hide Learn, Run;
    var init := log[..|log| - 1];
    assert log[..|log|] == log;
    assert forall k :: 0 <= k <= |init| ==> init[..k] == log[..k];
    if AlwaysWithin(w, log) {
      forall k | 0 <= k <= |init| ensures Sum(Run(w, init[..k])) <= MAX_WEIGHT_SUM {
        assert Sum(Run(w, log[..k])) <= MAX_WEIGHT_SUM;
      }
      assert Sum(Run(w, log[..|log|])) <= MAX_WEIGHT_SUM;
    }
    if AlwaysWithin(w, init) && Sum(Run(w, log)) <= MAX_WEIGHT_SUM {
      forall k | 0 <= k <= |log| ensures Sum(Run(w, log[..k])) <= MAX_WEIGHT_SUM {
        if k <= |init| { assert Sum(Run(w, init[..k])) <= MAX_WEIGHT_SUM; }
      }
    }
  }

  /** From zero, weights start to move exactly when a branch is taken and one or two of the
      experts said so. */
  lemma ZeroMovesIff(v: Votes, taken: bool)
    ensures var zero := Weights(0, 0, 0);
            Learn(zero, v, Verdict(zero, v), taken) != zero <==> taken && 1 <= Contributors(v, true) <= 2
  {
    hide Raise, Lower;
  }
}
