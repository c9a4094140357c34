/** The ensemble branch predictor `ensemble.cc`: three counter tables, their histories and
    the weighted vote over them. */
module EnsemblePredictor {
  import opened Collections
  import opened EnsembleVote
  import opened Powers

  // ----- Indices -----

  /** The exclusive or of the low `k` bits. */
  function XorBits(a: nat, b: nat, k: nat): (r: nat)
    ensures r < Exp2(k)
    decreases k
  {
    if k == 0 then 0 else 2 * XorBits(a / 2, b / 2, k - 1) + (if a % 2 == b % 2 then 0 else 1)
  }

  lemma {:induction false} XorBitsInjective(a: nat, g: nat, h: nat, k: nat)
    requires g < Exp2(k) && h < Exp2(k)
    ensures XorBits(a, g, k) == XorBits(a, h, k) <==> g == h
    decreases k
  {
    if k > 0 { XorBitsInjective(a / 2, g / 2, h / 2, k - 1); }
  }

  /** Instruction addresses lose their two low bits. */
  function Word(addr: nat): nat { addr / 4 }

  // ----- Counter tables -----

  function Train(c: nat, taken: bool, max: nat): nat {
    if taken then Increment(c, max) else Decrement(c)
  }

  ghost function Trained(s: seq<nat>, i: nat, taken: bool, max: nat): seq<nat>
    requires i < |s|
  {
    s[i := Train(s[i], taken, max)]
  }

  /** The value of a counter that has gone `n` steps up or down between 0 and `max`. */
  function Stepped(c: nat, taken: bool, n: nat, max: nat): nat {
    if taken then Smaller(c + n, max) else if c >= n then c - n else 0
  }

  lemma TrainedAgain(s: seq<nat>, i: nat, taken: bool, n: nat, max: nat)
    requires i < |s| && s[i] <= max
    ensures Trained(s[i := Stepped(s[i], taken, n, max)], i, taken, max) == s[i := Stepped(s[i], taken, n + 1, max)]
  {
  }

  lemma TrainedNever(s: seq<nat>, i: nat, taken: bool, max: nat)
    requires i < |s| && s[i] <= max
    ensures s[i := Stepped(s[i], taken, 0, max)] == s
  {
  }

  /** After `n` steps the counter votes in the direction of the steps. */
  predicate Settles(c: nat, taken: bool, n: nat, threshold: nat) {
    Stepped(c, taken, n, 2 * threshold + 1) > threshold <==> taken
  }

  /** More steps than the threshold settle every counter, and no fewer do. */
  lemma SettledIff(taken: bool, n: nat, threshold: nat)
    ensures (forall c: nat :: c <= 2 * threshold + 1 ==> Settles(c, taken, n, threshold)) <==> n > threshold
  {
    if n <= threshold { assert !Settles(if taken then 0 else 2 * threshold + 1, taken, n, threshold); }
  }

  lemma SettledBy(s: seq<nat>, i: nat, taken: bool, n: nat, threshold: nat)
    requires i < |s| && s[i] <= 2 * threshold + 1
    ensures n > threshold ==>
              (s[i := Stepped(s[i], taken, n, 2 * threshold + 1)][i] > threshold <==> taken)
  {
    SettledIff(taken, n, threshold);
    if n > threshold { assert Settles(s[i], taken, n, threshold); }
  }

  /** What is remembered about a branch from its prediction to its commit.  Unconditional
      branches have no local history. */
  datatype History = History(globalHistory: nat, local: Option<(nat, nat)>, votes: Votes, finalPrediction: bool)

  class EnsembleBP {
    const localBits: nat
    const historyTableBits: nat
    const globalBits: nat
    /** Counters above their threshold predict taken; they saturate at 2 * threshold + 1. */
    const localThreshold: nat
    const globalThreshold: nat
    const gshareThreshold: nat
    const localCtrs: array<nat>
    const globalCtrs: array<nat>
    const gshareCtrs: array<nat>
    const localHistoryTable: array<nat>
    var globalHistory: nat
    var weights: Weights

    /** The gshare table is indexed with the global predictor's mask, so the predictor works
        exactly if it is not the smaller of the two. */
    constructor (localBits: nat, historyTableBits: nat, globalBits: nat, gshareSize: nat,
                 localThreshold: nat, globalThreshold: nat, gshareThreshold: nat)
      ensures Valid() <==> gshareSize >= Exp2(globalBits)
      ensures Dormant() && globalHistory == 0 && gshareCtrs.Length == gshareSize
      ensures localHistoryTable[..] == seq(Exp2(historyTableBits), _ => 0)
      ensures this.localBits == localBits && this.historyTableBits == historyTableBits && this.globalBits == globalBits
      ensures this.localThreshold == localThreshold && this.globalThreshold == globalThreshold
      ensures this.gshareThreshold == gshareThreshold
      ensures fresh(localCtrs) && fresh(globalCtrs) && fresh(gshareCtrs) && fresh(localHistoryTable)
    {
      this.localBits, this.historyTableBits, this.globalBits := localBits, historyTableBits, globalBits;
      this.localThreshold, this.globalThreshold := localThreshold, globalThreshold;
      this.gshareThreshold := gshareThreshold;
      localCtrs := new nat[Exp2(localBits)](_ => 0);
      globalCtrs := new nat[Exp2(globalBits)](_ => 0);
      gshareCtrs := new nat[gshareSize](_ => 0);
      localHistoryTable := new nat[Exp2(historyTableBits)](_ => 0);
      globalHistory, weights := 0, Weights(0, 0, 0);
    }

    predicate Shaped() {
      && localCtrs.Length == Exp2(localBits) && globalCtrs.Length == Exp2(globalBits)
      && gshareCtrs.Length >= Exp2(globalBits) && localHistoryTable.Length == Exp2(historyTableBits)
      && localCtrs != globalCtrs && localCtrs != gshareCtrs && localCtrs != localHistoryTable
      && globalCtrs != gshareCtrs && globalCtrs != localHistoryTable && gshareCtrs != localHistoryTable
    }

    ghost predicate Valid()
      reads this, localCtrs, globalCtrs, gshareCtrs
    {
      && Shaped() && globalHistory < Exp2(globalBits) && Reachable(weights)
      && (forall i :: 0 <= i < localCtrs.Length ==> localCtrs[i] <= 2 * localThreshold + 1)
      && (forall i :: 0 <= i < globalCtrs.Length ==> globalCtrs[i] <= 2 * globalThreshold + 1)
      && (forall i :: 0 <= i < gshareCtrs.Length ==> gshareCtrs[i] <= 2 * gshareThreshold + 1)
    }

    lemma TablesApart()
      requires Valid()
      ensures localHistoryTable != localCtrs && localHistoryTable != globalCtrs && localHistoryTable != gshareCtrs
      ensures localHistoryTable.Length == Exp2(historyTableBits) && globalHistory < Exp2(globalBits)
    {
    }

    /** Nothing has been learnt: all counters and weights are zero. */
    ghost predicate Dormant()
      reads this, localCtrs, globalCtrs, gshareCtrs
    {
      && weights == Weights(0, 0, 0)
      && (forall i :: 0 <= i < localCtrs.Length ==> localCtrs[i] == 0)
      && (forall i :: 0 <= i < globalCtrs.Length ==> globalCtrs[i] == 0)
      && (forall i :: 0 <= i < gshareCtrs.Length ==> gshareCtrs[i] == 0)
    }

    function GshareIndex(addr: nat, history: nat): (r: nat)
      ensures r < Exp2(globalBits)
    {
      XorBits(Word(addr), history, globalBits)
    }

    /** Shift an outcome into the global history register. */
    function Shifted(history: nat, taken: bool): (r: nat)
      ensures r < Exp2(globalBits)
    {
      (2 * history + One(taken)) % Exp2(globalBits)
    }

    /** The register before and after an outcome is shifted in, bit by bit. */
    ghost predicate ShiftedIn(before: nat, taken: bool, after: nat) {
      forall j: nat :: Bit(after, j) <==> j < globalBits && if j == 0 then taken else Bit(before, j - 1)
    }

    lemma ShiftedBits(history: nat, taken: bool)
      ensures ShiftedIn(history, taken, Shifted(history, taken))
    {
      var n := 2 * history + One(taken);
      hide Exp2;
      forall j: nat
        ensures Bit(n % Exp2(globalBits), j) <==> j < globalBits && if j == 0 then taken else Bit(history, j - 1)
      {
        LowBits(n, globalBits, j);
        assert n / 2 == history && n % 2 == One(taken);
      }
    }

    function HistorySlot(addr: nat): (r: nat)
      ensures r < Exp2(historyTableBits)
    {
      Word(addr) % Exp2(historyTableBits)
    }

    /** What is remembered of the local history table about a branch. */
    function LocalOf(table: seq<nat>, addr: nat, uncond: bool): Option<(nat, nat)>
      requires HistorySlot(addr) < |table|
    {
      if uncond then None else Some((HistorySlot(addr), table[HistorySlot(addr)] % Exp2(localBits)))
    }

    /** What the three experts say. */
    function VotesAt(addr: nat, history: nat, local: nat): Votes
      requires Shaped() && history < Exp2(globalBits) && local < Exp2(localBits)
      reads localCtrs, globalCtrs, gshareCtrs
    {
      Votes(gshareCtrs[GshareIndex(addr, history)] > gshareThreshold, globalCtrs[history] > globalThreshold,
            localCtrs[local] > localThreshold)
    }

    /** What they say about a branch with the histories remembered of it. */
    function VotesOn(addr: nat, h: History): Votes
      reads localCtrs, globalCtrs, gshareCtrs
    {
      if Shaped() && h.globalHistory < Exp2(globalBits) && h.local.Some? && h.local.value.1 < Exp2(localBits)
      then VotesAt(addr, h.globalHistory, h.local.value.1) else Votes(true, true, true)
    }

    /** Predict a conditional branch.  Nothing changes, neither counters nor histories. */
    method Lookup(addr: nat) returns (taken: bool, h: History)
      requires Valid()
      ensures h.globalHistory == globalHistory < Exp2(globalBits) && h.finalPrediction == taken
      ensures h.local == Some((HistorySlot(addr), localHistoryTable[HistorySlot(addr)] % Exp2(localBits)))
      ensures h.votes == VotesAt(addr, globalHistory, h.local.value.1) == VotesOn(addr, h)
      ensures taken == Verdict(weights, h.votes)
      ensures Dormant() ==> taken && h.votes == Votes(false, false, false)
    {
      var slot := HistorySlot(addr);
      var localIndex := localHistoryTable[slot] % Exp2(localBits);
      var votes := Votes(
        gshareThreshold < gshareCtrs[GshareIndex(addr, globalHistory)],
        globalThreshold < globalCtrs[globalHistory],
        localCtrs[localIndex] > localThreshold);
      taken := Verdict(weights, votes);
      h := History(globalHistory, Some((slot, localIndex)), votes, taken);
    }

    /** Record an unconditional branch. */
    method UncondBranch() returns (h: History)
      requires Valid()
      modifies this`globalHistory
      ensures Valid() && globalHistory == Shifted(old(globalHistory), true)
      ensures ShiftedIn(old(globalHistory), true, globalHistory)
      ensures h == History(old(globalHistory), None, Votes(true, true, true), true)
              && h.globalHistory < Exp2(globalBits)
      ensures old(Dormant()) ==> Dormant()
    {
      hide Exp2, Shifted, ShiftedIn, HistorySlot, Reachable, One;
      ShiftedBits(globalHistory, true);
      h := History(globalHistory, None, Votes(true, true, true), true);
      globalHistory := Shifted(globalHistory, true);
    }

    /** A branch whose target is unknown counts as not taken: clear its bit. */
    method BtbUpdate(addr: nat)
      requires Valid()
      modifies this`globalHistory, localHistoryTable
      ensures Valid() && globalHistory == old(globalHistory) / 2 * 2
      ensures localHistoryTable[..] ==
              old(localHistoryTable[..])[HistorySlot(addr) :=
                old(localHistoryTable[HistorySlot(addr)]) % Exp2(localBits) / 2 * 2]
      ensures old(Dormant()) ==> Dormant()
    {
      hide Exp2, HistorySlot, Reachable;
      globalHistory := globalHistory / 2 * 2;
      var slot := HistorySlot(addr);
      localHistoryTable[slot] := localHistoryTable[slot] % Exp2(localBits) / 2 * 2;
    }

    /** A mispredicted branch: set the histories to what they were before it, followed by its
        outcome. */
    method Resolve(addr: nat, taken: bool, h: History)
      requires Valid()
      modifies this`globalHistory, localHistoryTable
      ensures Valid() && globalHistory == Shifted(h.globalHistory, taken)
      ensures ShiftedIn(h.globalHistory, taken, globalHistory)
      ensures localHistoryTable[..] ==
              if h.local.None? then old(localHistoryTable[..])
              else old(localHistoryTable[..])[HistorySlot(addr) := 2 * h.local.value.1 + One(taken)]
      ensures old(Dormant()) ==> Dormant()
    {
      hide Exp2, Shifted, ShiftedIn, HistorySlot, Reachable, One;
      ShiftedBits(h.globalHistory, taken);
      globalHistory := Shifted(h.globalHistory, taken);
      if h.local.Some? { localHistoryTable[HistorySlot(addr)] := 2 * h.local.value.1 + One(taken); }
    }

    /** A squashed branch: set the histories to what they were before it. */
    method Squash(h: History)
      requires Valid() && h.globalHistory < Exp2(globalBits)
      requires h.local.Some? ==> h.local.value.0 < Exp2(historyTableBits)
      modifies this`globalHistory, localHistoryTable
      ensures Valid() && globalHistory == h.globalHistory
      ensures localHistoryTable[..] ==
              if h.local.None? then old(localHistoryTable[..])
              else old(localHistoryTable[..])[h.local.value.0 := h.local.value.1]
      ensures old(Dormant()) ==> Dormant()
    {
      hide Exp2, Shifted, HistorySlot, Reachable, One;
      globalHistory := h.globalHistory;
      if h.local.Some? { localHistoryTable[h.local.value.0] := h.local.value.1; }
    }

    /** A committed branch: the weights learn from the recorded votes, and the counters are
        trained.  The gshare counter is found with the global history of the moment, not with
        the recorded one. */
    method Commit(addr: nat, taken: bool, h: History)
      requires Valid() && h.globalHistory < Exp2(globalBits)
      modifies this`weights, localCtrs, globalCtrs, gshareCtrs
      ensures Valid() && weights == Learn(old(weights), h.votes, h.finalPrediction, taken)
      ensures globalCtrs[..] == Trained(old(globalCtrs[..]), h.globalHistory, taken, 2 * globalThreshold + 1)
      ensures gshareCtrs[..] ==
              Trained(old(gshareCtrs[..]), GshareIndex(addr, globalHistory), taken, 2 * gshareThreshold + 1)
      ensures localCtrs[..] ==
              if h.local.None? then old(localCtrs[..])
              else Trained(old(localCtrs[..]), h.local.value.1 % Exp2(localBits), taken, 2 * localThreshold + 1)
      ensures old(Dormant()) && h.finalPrediction ==> (Dormant() <==> !taken)
    {
      hide Learn, Reachable;
      LearnKeepsReachable(weights, Outcome(h.votes, h.finalPrediction, taken));
      if !taken && h.finalPrediction { WrongTakenTeachesNothing(h.votes); }
      weights := Learn(weights, h.votes, h.finalPrediction, taken);
      var g, s := h.globalHistory, GshareIndex(addr, globalHistory);
      globalCtrs[g] := Train(globalCtrs[g], taken, 2 * globalThreshold + 1);
      gshareCtrs[s] := Train(gshareCtrs[s], taken, 2 * gshareThreshold + 1);
      if h.local.Some? {
        var l := h.local.value.1 % Exp2(localBits);
        localCtrs[l] := Train(localCtrs[l], taken, 2 * localThreshold + 1);
      }
    }

    /** The same branch committed `n` times: each of its three counters goes `n` steps in the
        direction of the branch, within its range, and no other counter moves.  Once `n`
        exceeds an expert's threshold, the expert votes that way. */
    method CommitTimes(addr: nat, taken: bool, h: History, n: nat)
      requires Valid() && h.globalHistory < Exp2(globalBits)
      modifies this`weights, localCtrs, globalCtrs, gshareCtrs
      ensures Valid() && h.globalHistory < |old(globalCtrs[..])|
      ensures GshareIndex(addr, globalHistory) < |old(gshareCtrs[..])|
      ensures var g, s := h.globalHistory, old(globalCtrs[..]);
              globalCtrs[..] == s[g := Stepped(s[g], taken, n, 2 * globalThreshold + 1)]
      ensures var g, s := GshareIndex(addr, globalHistory), old(gshareCtrs[..]);
              gshareCtrs[..] == s[g := Stepped(s[g], taken, n, 2 * gshareThreshold + 1)]
      ensures h.local.None? ==> localCtrs[..] == old(localCtrs[..])
      ensures h.local.Some? ==>
                var l, s := h.local.value.1 % Exp2(localBits), old(localCtrs[..]);
                l < |s| && localCtrs[..] == s[l := Stepped(s[l], taken, n, 2 * localThreshold + 1)]
      ensures n > globalThreshold ==> (globalCtrs[..][h.globalHistory] > globalThreshold <==> taken)
      ensures n > gshareThreshold ==>
                (gshareCtrs[..][GshareIndex(addr, globalHistory)] > gshareThreshold <==> taken)
      ensures n > localThreshold && h.local.Some? ==>
                (localCtrs[..][h.local.value.1 % Exp2(localBits)] > localThreshold <==> taken)
    {
      hide *;
      CounterBounds(addr, h);
      ghost var g, s, l := globalCtrs[..], gshareCtrs[..], localCtrs[..];
      ghost var i, j, k := h.globalHistory, GshareIndex(addr, globalHistory),
                           if h.local.Some? then h.local.value.1 % Exp2(localBits) else 0;
      TrainedNever(g, i, taken, 2 * globalThreshold + 1);
      TrainedNever(s, j, taken, 2 * gshareThreshold + 1);
      TrainedNever(l, k, taken, 2 * localThreshold + 1);
      for m := 0 to n
        invariant Valid()
        invariant globalCtrs[..] == g[i := Stepped(g[i], taken, m, 2 * globalThreshold + 1)]
        invariant gshareCtrs[..] == s[j := Stepped(s[j], taken, m, 2 * gshareThreshold + 1)]
        invariant localCtrs[..] ==
                  if h.local.None? then l else l[k := Stepped(l[k], taken, m, 2 * localThreshold + 1)]
      {
        TrainedAgain(g, i, taken, m, 2 * globalThreshold + 1);
        TrainedAgain(s, j, taken, m, 2 * gshareThreshold + 1);
        TrainedAgain(l, k, taken, m, 2 * localThreshold + 1);
        Commit(addr, taken, h);
      }
      SettledBy(g, i, taken, n, globalThreshold);
      SettledBy(s, j, taken, n, gshareThreshold);
      SettledBy(l, k, taken, n, localThreshold);
    }

    lemma CounterBounds(addr: nat, h: History)
      requires Valid() && h.globalHistory < Exp2(globalBits)
      ensures h.globalHistory < |globalCtrs[..]| && globalCtrs[..][h.globalHistory] <= 2 * globalThreshold + 1
      ensures var s := GshareIndex(addr, globalHistory);
              s < |gshareCtrs[..]| && gshareCtrs[..][s] <= 2 * gshareThreshold + 1
      ensures var l := if h.local.Some? then h.local.value.1 % Exp2(localBits) else 0;
              l < |localCtrs[..]| && localCtrs[..][l] <= 2 * localThreshold + 1
    {
      hide XorBits, Word;
    }

    /** The counter trained at commit is the one consulted at the prediction exactly when the
        global history register is back at its value of then. */
    lemma TrainsConsultedIff(addr: nat, h: History)
      requires Valid() && h.globalHistory < Exp2(globalBits)
      ensures GshareIndex(addr, globalHistory) == GshareIndex(addr, h.globalHistory) <==>
              globalHistory == h.globalHistory
    {
      XorBitsInjective(Word(addr), globalHistory, h.globalHistory, globalBits);
    }
  }

  /** Zero weights learn nothing from a wrong verdict of taken. */
  lemma WrongTakenTeachesNothing(v: Votes)
    ensures Learn(Weights(0, 0, 0), v, true, false) == Weights(0, 0, 0)
  {
    hide Raise, Lower;
  }
}
