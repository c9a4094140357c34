/** Programs whose branches are never taken, and what `ensemble.cc` learns from them when no
    target is ever found: that they are taken, unless the gshare expert is quicker than both
    others. */
module NeverTaken {
  import opened Collections
  import opened Powers
  import opened EnsembleVote
  import opened EnsemblePredictor
  import opened SpeculativeHistory
  import opened BranchUnit

  // ----- The vote -----

  datatype Thresholds = Thresholds(gshare: nat, global_: nat, local: nat)

  /** The expert whose counter is never behind. */
  datatype Lead = Gshare | Global | Local

  predicate VoteOf(v: Votes, lead: Lead) {
    match lead case Gshare => v.gshare case Global => v.global_ case Local => v.local
  }

  function WeightOf(w: Weights, lead: Lead): nat {
    match lead case Gshare => w.gshare case Global => w.global_ case Local => w.local
  }

  function ThresholdOf(t: Thresholds, lead: Lead): nat {
    match lead case Gshare => t.gshare case Global => t.global_ case Local => t.local
  }

  predicate Largest(w: Weights, lead: Lead) {
    w.gshare <= WeightOf(w, lead) && w.global_ <= WeightOf(w, lead) && w.local <= WeightOf(w, lead)
  }

  /** After `n` commits as taken: the leading expert has the largest weight, an expert has
      weight only if its counter has passed its threshold. */
  predicate Sound(w: Weights, t: Thresholds, lead: Lead, n: nat) {
    && ValidWeights(w) && Largest(w, lead)
    && (w.global_ > 0 ==> n > t.global_) && (w.local > 0 ==> n > t.local)
    && (Sum(w) > 0 ==> n > ThresholdOf(t, lead))
  }

  /** Votes cast when at most `n` commits had been made: nobody says taken before the leading
      expert does. */
  predicate Fair(v: Votes, t: Thresholds, lead: Lead, n: nat) {
    && (v.gshare || v.global_ || v.local ==> VoteOf(v, lead))
    && (v.global_ ==> n > t.global_) && (v.local ==> n > t.local) && (VoteOf(v, lead) ==> n > ThresholdOf(t, lead))
  }

  /** A right verdict of taken raises all who said so by the same and the others never. */
  lemma RightLearns(w: Weights, v: Votes)
    requires ValidWeights(w)
    ensures var rate, w' := LearningRate(Contributors(v, true)), Learn(w, v, true, true);
            && LearntFrom(w.gshare, v.gshare, w'.gshare, rate) && LearntFrom(w.global_, v.global_, w'.global_, rate)
            && LearntFrom(w.local, v.local, w'.local, rate) && (v == Votes(false, false, false) ==> w' == w)
  {
    hide Raise, Lower;
  }

  function Raised(c: nat, rate: nat): nat { if c + rate <= MAX_WEIGHT then c + rate else MAX_WEIGHT }

  lemma StaysSound(w: Weights, v: Votes, t: Thresholds, lead: Lead, n: nat)
    requires Sound(w, t, lead, n) && Fair(v, t, lead, n)
    ensures Sound(Learn(w, v, true, true), t, lead, n + 1)
  {
    hide *;
    SoundMeans(w, t, lead, n);
    RightLearns(w, v);
    var rate, w' := LearningRate(Contributors(v, true)), Learn(w, v, true, true);
    StaysLargest(w, v, w', rate, t, lead, n);
    StaysPassed(w, v, w', rate, t, lead, n);
  }

  lemma SoundMeans(w: Weights, t: Thresholds, lead: Lead, n: nat)
    requires Sound(w, t, lead, n)
    ensures ValidWeights(w)
  {
  }

  predicate LearntFrom(c: nat, said: bool, c': nat, rate: nat) { if said then c' == Raised(c, rate) else c' <= c }

  lemma StaysLargest(w: Weights, v: Votes, w': Weights, rate: nat, t: Thresholds, lead: Lead, n: nat)
    requires Sound(w, t, lead, n) && Fair(v, t, lead, n)
    requires LearntFrom(w.gshare, v.gshare, w'.gshare, rate) && LearntFrom(w.global_, v.global_, w'.global_, rate)
    requires LearntFrom(w.local, v.local, w'.local, rate) && (v == Votes(false, false, false) ==> w' == w)
    ensures ValidWeights(w') && Largest(w', lead)
  {
  }

  lemma StaysPassed(w: Weights, v: Votes, w': Weights, rate: nat, t: Thresholds, lead: Lead, n: nat)
    requires Sound(w, t, lead, n) && Fair(v, t, lead, n) && ValidWeights(w') && Largest(w', lead)
    requires LearntFrom(w.gshare, v.gshare, w'.gshare, rate) && LearntFrom(w.global_, v.global_, w'.global_, rate)
    requires LearntFrom(w.local, v.local, w'.local, rate)
    ensures Sound(w', t, lead, n + 1)
  {
    hide Largest, ValidWeights;
  }

  lemma StaysFair(v: Votes, t: Thresholds, lead: Lead, n: nat)
    requires Fair(v, t, lead, n)
    ensures Fair(v, t, lead, n + 1)
  {
  }

  /** The votes on a branch of such a program after `n` commits as taken: the global and the
      local counter have seen all of them, the gshare counter `g` of them. */
  function VotesAfter(t: Thresholds, n: nat, g: nat): Votes { Votes(g > t.gshare, n > t.global_, n > t.local) }

  /** Whether an expert leads: one whose counter sees every commit and whose threshold is
      none the higher. */
  predicate Leading(t: Thresholds, lead: Lead, single: bool) {
    && (lead.Gshare? ==> single)
    && ThresholdOf(t, lead) <= t.gshare && ThresholdOf(t, lead) <= t.global_ && ThresholdOf(t, lead) <= t.local
  }

  lemma SaysTaken(w: Weights, t: Thresholds, lead: Lead, single: bool, n: nat, g: nat)
    requires Sound(w, t, lead, n) && Leading(t, lead, single) && g <= n && (single ==> g == n)
    ensures Verdict(w, VotesAfter(t, n, g)) && Fair(VotesAfter(t, n, g), t, lead, n)
  {
  }

  /** There is a leading expert unless gshare is quicker than both others and has more than
      one counter. */
  lemma LeadIff(t: Thresholds, single: bool)
    ensures (exists lead :: Leading(t, lead, single)) <==> single || t.global_ <= t.gshare || t.local <= t.gshare
  {
    if single || t.global_ <= t.gshare || t.local <= t.gshare {
      if t.global_ <= t.gshare && t.global_ <= t.local {
        assert Leading(t, Global, single);
      } else if t.local <= t.gshare {
        assert Leading(t, Local, single);
      } else {
        assert Leading(t, Gshare, single);
      }
    }
  }

  // ----- The unit -----

  /** A record of a conditional direct branch that was predicted with empty histories, found
      no target and was not found to be mispredicted. */
  predicate Plain(r: Record) {
    && r.direct && !r.found && !r.corrected && r.predTaken == r.history.finalPrediction && !r.answer
    && r.history.globalHistory == 0 && r.history.local.Some? && r.history.local.value.1 == 0
  }

  /** All counters after `n` commits as taken. */
  ghost predicate Counted(n: nat, t: Thresholds, gshare: seq<nat>, global_: seq<nat>, local: seq<nat>, single: bool) {
    && global_ != [] && global_[0] == Smaller(n, 2 * t.global_ + 1)
    && local != [] && local[0] == Smaller(n, 2 * t.local + 1)
    && (forall i :: 0 <= i < |gshare| ==> gshare[i] <= n)
    && (single ==> gshare != [] && gshare[0] == Smaller(n, 2 * t.gshare + 1))
  }

  ghost predicate AllPlain(s: seq<Record>) { forall i :: 0 <= i < |s| ==> Plain(s[i]) }

  ghost predicate AllTaken(s: seq<Record>) { forall i :: 0 <= i < |s| ==> s[i].predTaken }

  ghost predicate AllZero(s: seq<nat>) { forall i :: 0 <= i < |s| ==> s[i] == 0 }

  function ThresholdsOf(bp: EnsembleBP): Thresholds {
    Thresholds(bp.gshareThreshold, bp.globalThreshold, bp.localThreshold)
  }

  /** The state of the unit in such a program as long as all commits were as taken. */
  ghost predicate Quiet(u: BPredUnit)
    reads u, u.bp, u.bp.localCtrs, u.bp.globalCtrs, u.bp.gshareCtrs, u.bp.localHistoryTable
  {
    && u.Valid() && u.btb == map[] && u.bp.globalHistory == 0 && AllZero(u.bp.localHistoryTable[..])
    && AllPlain(u.predHist) && AllPlain(u.committed) && AllTaken(u.committed)
    && Counted(|u.committed|, ThresholdsOf(u.bp), u.bp.gshareCtrs[..], u.bp.globalCtrs[..], u.bp.localCtrs[..],
               u.bp.globalBits == 0)
  }

  /** With a leading expert: everything in flight will be learnt as taken. */
  ghost predicate Led(u: BPredUnit, lead: Lead)
    reads u, u.bp
  {
    && Leading(ThresholdsOf(u.bp), lead, u.bp.globalBits == 0)
    && Sound(u.bp.weights, ThresholdsOf(u.bp), lead, |u.committed|)
    && AllTaken(u.predHist) && AllFair(u.predHist, ThresholdsOf(u.bp), lead, |u.committed|)
  }

  ghost predicate AllFair(s: seq<Record>, t: Thresholds, lead: Lead, n: nat) {
    forall i :: 0 <= i < |s| ==> Fair(s[i].history.votes, t, lead, n)
  }

  lemma QuietMeans(u: BPredUnit)
    requires Quiet(u)
    ensures u.Valid() && u.bp.Valid() && u.bp.Shaped() && u.btb == map[] && u.bp.globalHistory == 0
    ensures AllZero(u.bp.localHistoryTable[..]) && |u.bp.localHistoryTable[..]| == Exp2(u.bp.historyTableBits)
    ensures AllPlain(u.predHist) && AllPlain(u.committed) && AllTaken(u.committed)
    ensures Counted(|u.committed|, ThresholdsOf(u.bp), u.bp.gshareCtrs[..], u.bp.globalCtrs[..], u.bp.localCtrs[..],
                    u.bp.globalBits == 0)
    ensures u.bp.localHistoryTable != u.bp.localCtrs && u.bp.localHistoryTable != u.bp.globalCtrs
    ensures u.bp.localHistoryTable != u.bp.gshareCtrs
  {
  }

  lemma QuietIf(u: BPredUnit)
    requires u.Valid() && u.btb == map[] && u.bp.globalHistory == 0 && AllZero(u.bp.localHistoryTable[..])
    requires AllPlain(u.predHist) && AllPlain(u.committed) && AllTaken(u.committed)
    requires Counted(|u.committed|, ThresholdsOf(u.bp), u.bp.gshareCtrs[..], u.bp.globalCtrs[..], u.bp.localCtrs[..],
                     u.bp.globalBits == 0)
    ensures Quiet(u)
  {
  }

  lemma NoTarget(u: BPredUnit, b: Branch)
    requires u.btb == map[] && b.kind.Direct?
    ensures !u.HasTarget(b)
  {
  }

  lemma ZeroMod(m: nat)
    requires m > 0
    ensures 0 % m == 0 && Clear(0 % m) == 0
  {
  }

  lemma StillZero(u: BPredUnit, table: seq<nat>, table': seq<nat>, b: Branch, h: History, cleared: bool)
    requires AllZero(table) && u.bp.HistorySlot(b.addr) < |table| && !b.uncond
    requires h.local == u.bp.LocalOf(table, b.addr, b.uncond)
    requires var slot := u.bp.HistorySlot(b.addr);
             table' == if cleared then table[slot := Clear(table[slot] % Exp2(u.bp.localBits))] else table
    ensures AllZero(table') && h.local.Some? && h.local.value.1 == 0 && u.HistoryAfter(0, b.uncond, cleared) == 0
  {
    hide Exp2, Clear;
    ZeroMod(Exp2(u.bp.localBits));
  }

  lemma VotesAre(u: BPredUnit, addr: nat, h: History, n: nat)
    requires u.bp.Shaped() && h.globalHistory == 0 && h.local.Some? && h.local.value.1 == 0
    requires Counted(n, ThresholdsOf(u.bp), u.bp.gshareCtrs[..], u.bp.globalCtrs[..], u.bp.localCtrs[..],
                     u.bp.globalBits == 0)
    ensures u.bp.GshareIndex(addr, 0) < |u.bp.gshareCtrs[..]|
    ensures var g := u.bp.gshareCtrs[..][u.bp.GshareIndex(addr, 0)];
            && g <= n && u.bp.VotesOn(addr, h) == VotesAfter(ThresholdsOf(u.bp), n, g)
            && (u.bp.globalBits == 0 ==> VotesAfter(ThresholdsOf(u.bp), n, g) == VotesAfter(ThresholdsOf(u.bp), n, n))
  {
    hide XorBits, Word;
    assert u.bp.globalBits == 0 ==> Exp2(u.bp.globalBits) == 1;
  }

  lemma PlainRecord(u: BPredUnit, seqNum: int, b: Branch, h: History)
    requires b.kind.Direct? && h.globalHistory == 0 && h.local.Some? && h.local.value.1 == 0
    ensures var r := u.RecordOf(seqNum, b, h, false);
            Plain(r) && r.seqNum == seqNum && r.addr == b.addr && r.history == h && r.predTaken == h.finalPrediction
  {
  }

  lemma PlainMore(r: Record, s: seq<Record>)
    requires Plain(r) && AllPlain(s)
    ensures AllPlain([r] + s)
  {
    hide Plain;
  }

  /** Fetch a conditional direct branch. */
  method Fetch(u: BPredUnit, seqNum: int, addr: nat, call: bool) returns (ghost g: nat)
    requires Quiet(u) && forall i :: 0 <= i < |u.predHist| ==> u.predHist[i].seqNum < seqNum
    modifies u`predHist, u`snaps, u`lost, u`jumped, u`moves, u.bp`globalHistory, u.bp.localHistoryTable
    ensures Quiet(u) && |u.predHist| == |old(u.predHist)| + 1 && u.predHist[1..] == old(u.predHist)
    ensures u.predHist[0].seqNum == seqNum && u.predHist[0].addr == addr
    ensures u.bp.GshareIndex(addr, 0) < |u.bp.gshareCtrs[..]|
    ensures u.bp.gshareCtrs[..] == old(u.bp.gshareCtrs[..])
    ensures g == u.bp.gshareCtrs[..][u.bp.GshareIndex(addr, 0)] <= |u.committed|
    ensures u.predHist[0].history.votes == VotesAfter(ThresholdsOf(u.bp), |u.committed|, g)
    ensures u.bp.globalBits == 0 ==>
              u.predHist[0].history.votes == VotesAfter(ThresholdsOf(u.bp), |u.committed|, |u.committed|)
    ensures u.predHist[0].predTaken == Verdict(u.bp.weights, u.predHist[0].history.votes)
  {
    hide *;
    QuietMeans(u);
    var b := Branch(addr, false, Direct(call));
    NoTarget(u, b);
    ghost var table := u.bp.localHistoryTable[..];
    var answer, h := u.Predict(seqNum, b);
    NoTarget(u, b);
    StillZero(u, table, u.bp.localHistoryTable[..], b, h, u.predHist[0].cleared);
    VotesAre(u, addr, h, |u.committed|);
    g := u.bp.gshareCtrs[..][u.bp.GshareIndex(addr, 0)];
    PlainRecord(u, seqNum, b, h);
    PlainMore(u.predHist[0], old(u.predHist));
    QuietIf(u);
  }

  lemma CountedMore(n: nat, t: Thresholds, gshare: seq<nat>, global_: seq<nat>, local: seq<nat>, single: bool, i: nat)
    requires Counted(n, t, gshare, global_, local, single) && i < |gshare| && (single ==> i == 0)
    ensures Counted(n + 1, t, Trained(gshare, i, true, 2 * t.gshare + 1), Trained(global_, 0, true, 2 * t.global_ + 1),
                    Trained(local, 0, true, 2 * t.local + 1), single)
  {
  }

  lemma OneIndex(u: BPredUnit, addr: nat)
    ensures u.bp.globalBits == 0 ==> u.bp.GshareIndex(addr, 0) == 0
    ensures 0 % Exp2(u.bp.localBits) == 0
  {
    ZeroMod(Exp2(u.bp.localBits));
  }

  lemma PlainOldest(hist: seq<Record>, committed: seq<Record>)
    requires hist != [] && AllPlain(hist) && AllPlain(committed) && AllTaken(committed) && hist[|hist| - 1].predTaken
    ensures var n := |hist| - 1;
            && AllPlain(hist[..n]) && AllPlain(committed + [hist[n]]) && AllTaken(committed + [hist[n]])
            && hist[n].history.globalHistory == 0 && hist[n].history.local.Some? && hist[n].history.local.value.1 == 0
            && hist[n].history.finalPrediction
  {
  }

  /** Commit the oldest branch, predicted as taken. */
  method Commit(u: BPredUnit)
    requires Quiet(u) && u.predHist != [] && u.predHist[|u.predHist| - 1].predTaken
    modifies u`predHist, u`snaps, u`lost, u`committed, u`slept
    modifies u.bp`weights, u.bp.localCtrs, u.bp.globalCtrs, u.bp.gshareCtrs
    ensures Quiet(u) && u.predHist == old(u.predHist)[..|old(u.predHist)| - 1]
    ensures u.committed == old(u.committed) + [old(u.predHist)[|old(u.predHist)| - 1]]
    ensures var r := old(u.predHist)[|old(u.predHist)| - 1]; var i := u.bp.GshareIndex(r.addr, 0);
            && u.bp.weights == Learn(old(u.bp.weights), r.history.votes, true, true)
            && i < |old(u.bp.gshareCtrs[..])|
            && u.bp.gshareCtrs[..] == Trained(old(u.bp.gshareCtrs[..]), i, true, 2 * u.bp.gshareThreshold + 1)
  {
    hide *;
    QuietMeans(u);
    var r := u.predHist[|u.predHist| - 1];
    OneIndex(u, r.addr);
    PlainOldest(u.predHist, u.committed);
    u.CommitOldest();
    TrainedCounters(u, old(|u.committed|), old(u.bp.gshareCtrs[..]), old(u.bp.globalCtrs[..]),
                    old(u.bp.localCtrs[..]), r);
    QuietIf(u);
  }

  lemma TrainedCounters(u: BPredUnit, n: nat, gshare: seq<nat>, global_: seq<nat>, local: seq<nat>, r: Record)
    requires Counted(n, ThresholdsOf(u.bp), gshare, global_, local, u.bp.globalBits == 0)
    requires u.bp.GshareIndex(r.addr, 0) < |gshare| && (u.bp.globalBits == 0 ==> u.bp.GshareIndex(r.addr, 0) == 0)
    requires 0 < |global_| && 0 < |local|
    requires u.bp.gshareCtrs[..] == Trained(gshare, u.bp.GshareIndex(r.addr, 0), true, 2 * u.bp.gshareThreshold + 1)
    requires u.bp.globalCtrs[..] == Trained(global_, 0, true, 2 * u.bp.globalThreshold + 1)
    requires u.bp.localCtrs[..] == Trained(local, 0, true, 2 * u.bp.localThreshold + 1)
    ensures Counted(n + 1, ThresholdsOf(u.bp), u.bp.gshareCtrs[..], u.bp.globalCtrs[..], u.bp.localCtrs[..],
                    u.bp.globalBits == 0)
  {
    hide Counted, Trained;
    CountedMore(n, ThresholdsOf(u.bp), gshare, global_, local, u.bp.globalBits == 0, u.bp.GshareIndex(r.addr, 0));
  }

  /** Squash the newest branch. */
  method Squash(u: BPredUnit)
    requires Quiet(u) && u.predHist != []
    modifies u`predHist, u`snaps, u`lost, u`moves, u.bp`globalHistory, u.bp.localHistoryTable
    ensures Quiet(u) && u.predHist == old(u.predHist)[1..]
  {
    hide *;
    QuietMeans(u);
    PlainNewest(u.predHist, u.bp.localHistoryTable[..]);
    ghost var gone := u.SquashNewest();
    QuietIf(u);
  }

  lemma PlainNewest(hist: seq<Record>, table: seq<nat>)
    requires hist != [] && AllPlain(hist) && AllZero(table)
    ensures var h := hist[0].history;
            && AllPlain(hist[1..]) && h.globalHistory == 0 && h.local.Some?
            && (h.local.value.0 < |table| ==> AllZero(table[h.local.value.0 := h.local.value.1]))
  {
  }

  // ----- With a leading expert -----

  lemma LedMeans(u: BPredUnit, lead: Lead)
    requires Led(u, lead)
    ensures Leading(ThresholdsOf(u.bp), lead, u.bp.globalBits == 0)
    ensures Sound(u.bp.weights, ThresholdsOf(u.bp), lead, |u.committed|)
    ensures AllTaken(u.predHist) && AllFair(u.predHist, ThresholdsOf(u.bp), lead, |u.committed|)
  {
  }

  lemma LedIf(u: BPredUnit, lead: Lead)
    requires Leading(ThresholdsOf(u.bp), lead, u.bp.globalBits == 0)
    requires Sound(u.bp.weights, ThresholdsOf(u.bp), lead, |u.committed|)
    requires AllTaken(u.predHist) && AllFair(u.predHist, ThresholdsOf(u.bp), lead, |u.committed|)
    ensures Led(u, lead)
  {
  }

  lemma OneMore(hist: seq<Record>, t: Thresholds, lead: Lead, n: nat)
    requires hist != [] && hist[0].predTaken && Fair(hist[0].history.votes, t, lead, n)
    requires AllTaken(hist[1..]) && AllFair(hist[1..], t, lead, n)
    ensures AllTaken(hist) && AllFair(hist, t, lead, n)
  {
    hide Fair;
    forall i | 0 < i < |hist| ensures hist[i] == hist[1..][i - 1] {}
  }

  lemma OneLess(hist: seq<Record>, t: Thresholds, lead: Lead, n: nat)
    requires hist != [] && AllTaken(hist) && AllFair(hist, t, lead, n)
    ensures AllTaken(hist[1..]) && AllFair(hist[1..], t, lead, n)
  {
    hide Fair;
  }

  lemma OneDone(hist: seq<Record>, t: Thresholds, lead: Lead, n: nat)
    requires hist != [] && AllTaken(hist) && AllFair(hist, t, lead, n)
    ensures hist[|hist| - 1].predTaken && Fair(hist[|hist| - 1].history.votes, t, lead, n)
    ensures AllTaken(hist[..|hist| - 1]) && AllFair(hist[..|hist| - 1], t, lead, n + 1)
  {
    hide Fair;
    forall i | 0 <= i < |hist| ensures Fair(hist[i].history.votes, t, lead, n + 1) {
      StaysFair(hist[i].history.votes, t, lead, n);
    }
  }

  method FetchLed(u: BPredUnit, seqNum: int, addr: nat, call: bool, ghost lead: Lead)
    requires Quiet(u) && Led(u, lead) && forall i :: 0 <= i < |u.predHist| ==> u.predHist[i].seqNum < seqNum
    modifies u`predHist, u`snaps, u`lost, u`jumped, u`moves, u.bp`globalHistory, u.bp.localHistoryTable
    ensures Quiet(u) && Led(u, lead)
  {
    hide *;
    LedMeans(u, lead);
    ghost var g := Fetch(u, seqNum, addr, call);
    ghost var single := u.bp.globalBits == 0;
    SaysTaken(u.bp.weights, ThresholdsOf(u.bp), lead, single, |u.committed|, if single then |u.committed| else g);
    OneMore(u.predHist, ThresholdsOf(u.bp), lead, |u.committed|);
    LedIf(u, lead);
  }

  method CommitLed(u: BPredUnit, ghost lead: Lead)
    requires Quiet(u) && Led(u, lead) && u.predHist != []
    modifies u`predHist, u`snaps, u`lost, u`committed, u`slept
    modifies u.bp`weights, u.bp.localCtrs, u.bp.globalCtrs, u.bp.gshareCtrs
    ensures Quiet(u) && Led(u, lead) && u.predHist == old(u.predHist)[..|old(u.predHist)| - 1]
  {
    hide *;
    LedMeans(u, lead);
    OneDone(u.predHist, ThresholdsOf(u.bp), lead, |u.committed|);
    StaysSound(u.bp.weights, u.predHist[|u.predHist| - 1].history.votes, ThresholdsOf(u.bp), lead, |u.committed|);
    Commit(u);
    LedIf(u, lead);
  }

  method SquashLed(u: BPredUnit, ghost lead: Lead)
    requires Quiet(u) && Led(u, lead) && u.predHist != []
    modifies u`predHist, u`snaps, u`lost, u`moves, u.bp`globalHistory, u.bp.localHistoryTable
    ensures Quiet(u) && Led(u, lead) && u.predHist == old(u.predHist)[1..]
  {
    hide *;
    LedMeans(u, lead);
    OneLess(u.predHist, ThresholdsOf(u.bp), lead, |u.committed|);
    Squash(u);
    LedIf(u, lead);
  }

  /** What can happen in a program whose branches are all conditional, direct and never
      taken: as no answer is wrong, nothing is corrected. */
  predicate Harmless(e: Event) {
    match e
    case Fetch(_, b) => !b.uncond && b.kind.Direct?
    case Correct(_, _) => false
    case _ => true
  }

  method HandleLed(u: BPredUnit, e: Event, ghost lead: Lead)
    requires Quiet(u) && Led(u, lead) && Harmless(e)
    modifies u, u.bp`globalHistory, u.bp`weights, u.bp.localHistoryTable
    modifies u.bp.localCtrs, u.bp.globalCtrs, u.bp.gshareCtrs
    ensures Quiet(u) && Led(u, lead)
  {
    hide Quiet, Led;
    match e {
      case Fetch(sn, b) =>
        var younger := u.Younger(sn);
        if younger { FetchLed(u, sn, b.addr, b.kind.call, lead); }
      case Squash(sn) =>
        while u.predHist != [] && u.predHist[0].seqNum > sn
          invariant Quiet(u) && Led(u, lead)
          decreases |u.predHist|
        {
          SquashLed(u, lead);
        }
      case Done(sn) =>
        while u.predHist != [] && u.predHist[|u.predHist| - 1].seqNum <= sn
          invariant Quiet(u) && Led(u, lead)
          decreases |u.predHist|
        {
          CommitLed(u, lead);
        }
    }
  }

  /** A unit nothing has happened to. */
  ghost predicate New(u: BPredUnit)
    reads u, u.bp, u.bp.localCtrs, u.bp.globalCtrs, u.bp.gshareCtrs, u.bp.localHistoryTable
  {
    && u.Valid() && u.predHist == [] && u.committed == [] && u.btb == map[]
    && u.bp.Dormant() && u.bp.globalHistory == 0 && AllZero(u.bp.localHistoryTable[..])
  }

  lemma NewIsQuiet(u: BPredUnit)
    requires New(u)
    ensures Quiet(u)
  {
  }

  lemma NewIsLed(u: BPredUnit, lead: Lead)
    requires New(u) && Leading(ThresholdsOf(u.bp), lead, u.bp.globalBits == 0)
    ensures Led(u, lead)
  {
    assert u.bp.weights == Weights(0, 0, 0) && u.predHist == [] && u.committed == [];
    hide Leading, Sound, Fair, BPredUnit.Valid, EnsembleBP.Dormant;
    NothingIsSound(ThresholdsOf(u.bp), lead);
  }

  lemma NothingIsSound(t: Thresholds, lead: Lead)
    ensures Sound(Weights(0, 0, 0), t, lead, 0)
  {
  }

  lemma QuietOutcome(u: BPredUnit)
    requires Quiet(u)
    ensures forall i :: 0 <= i < |u.committed| ==> u.committed[i].predTaken && !RealOutcome(u.committed[i])
  {
    assert forall i :: 0 <= i < |u.committed| ==> Plain(u.committed[i]);
  }

  /** Unless gshare is quicker than both others, every branch of such a program is learnt as
      taken, whatever is fetched, squashed and committed when. */
  method LearntAsTaken(u: BPredUnit, events: seq<Event>)
    requires New(u) && forall i :: 0 <= i < |events| ==> Harmless(events[i])
    requires var t := ThresholdsOf(u.bp); u.bp.globalBits == 0 || t.global_ <= t.gshare || t.local <= t.gshare
    modifies u, u.bp`globalHistory, u.bp`weights, u.bp.localHistoryTable
    modifies u.bp.localCtrs, u.bp.globalCtrs, u.bp.gshareCtrs
    ensures u.Valid()
    ensures forall i :: 0 <= i < |u.committed| ==> u.committed[i].predTaken && !RealOutcome(u.committed[i])
  {
    LeadIff(ThresholdsOf(u.bp), u.bp.globalBits == 0);
    hide *;
    ghost var lead :| Leading(ThresholdsOf(u.bp), lead, u.bp.globalBits == 0);
    NewIsQuiet(u);
    NewIsLed(u, lead);
    for n := 0 to |events|
      invariant Quiet(u) && Led(u, lead)
    {
      HandleLed(u, events[n], lead);
    }
    QuietMeans(u);
    QuietOutcome(u);
  }

  // ----- Without one -----

  lemma TwoIndices(u: BPredUnit)
    requires u.bp.globalBits >= 1
    ensures u.bp.GshareIndex(0, 0) != u.bp.GshareIndex(4, 0)
  {
    assert XorBits(0, 0, u.bp.globalBits) % 2 == 0 && XorBits(1, 0, u.bp.globalBits) % 2 == 1;
  }

  lemma NoVotesNothing()
    ensures Verdict(Weights(0, 0, 0), Votes(false, false, false))
    ensures Learn(Weights(0, 0, 0), Votes(false, false, false), true, true) == Weights(0, 0, 0)
    ensures Verdict(Weights(0, 0, 0), Votes(true, false, false))
    ensures Learn(Weights(0, 0, 0), Votes(true, false, false), true, true) == Weights(2, 0, 0)
    ensures forall g, l :: !Verdict(Weights(2, 0, 0), Votes(false, g, l))
  {
  }

  /** The branch at 0 has been committed `n` times, and nothing else. */
  ghost predicate Warmed(u: BPredUnit, n: nat)
    reads u, u.bp, u.bp.localCtrs, u.bp.globalCtrs, u.bp.gshareCtrs, u.bp.localHistoryTable
  {
    && Quiet(u) && u.predHist == [] && |u.committed| == n
    && Apart(u.bp.gshareCtrs[..], u.bp.GshareIndex(0, 0), u.bp.GshareIndex(4, 0), n, u.bp.gshareThreshold)
  }

  ghost predicate Apart(gshare: seq<nat>, i: nat, j: nat, n: nat, t: nat) {
    i < |gshare| && j < |gshare| && i != j && gshare[i] == Smaller(n, 2 * t + 1) && gshare[j] == 0
  }

  lemma WarmedMeans(u: BPredUnit, n: nat)
    requires Warmed(u, n)
    ensures Quiet(u) && u.predHist == [] && |u.committed| == n
    ensures Apart(u.bp.gshareCtrs[..], u.bp.GshareIndex(0, 0), u.bp.GshareIndex(4, 0), n, u.bp.gshareThreshold)
  {
  }

  lemma WarmedIf(u: BPredUnit, n: nat)
    requires Quiet(u) && u.predHist == [] && |u.committed| == n
    requires Apart(u.bp.gshareCtrs[..], u.bp.GshareIndex(0, 0), u.bp.GshareIndex(4, 0), n, u.bp.gshareThreshold)
    ensures Warmed(u, n)
  {
  }

  lemma NewIsWarmed(u: BPredUnit)
    requires New(u) && u.bp.globalBits >= 1
    ensures Warmed(u, 0) && u.bp.weights == Weights(0, 0, 0)
  {
    NewIsQuiet(u);
    TwoIndices(u);
    assert u.bp.GshareIndex(0, 0) < u.bp.gshareCtrs.Length && u.bp.GshareIndex(4, 0) < u.bp.gshareCtrs.Length;
    hide Quiet, BPredUnit.Valid, XorBits, Exp2;
  }

  lemma ThresholdsAre(u: BPredUnit)
    ensures ThresholdsOf(u.bp) == Thresholds(u.bp.gshareThreshold, u.bp.globalThreshold, u.bp.localThreshold)
  {
  }

  lemma ApartMore(gshare: seq<nat>, i: nat, j: nat, n: nat, t: nat)
    requires Apart(gshare, i, j, n, t)
    ensures Apart(Trained(gshare, i, true, 2 * t + 1), i, j, n + 1, t)
  {
  }

  lemma VotesThen(t: Thresholds, gshare: seq<nat>, i: nat, j: nat, n: nat)
    requires Apart(gshare, i, j, n, t.gshare) && n <= t.gshare + 1 && t.gshare < t.global_ && t.gshare < t.local
    ensures VotesAfter(t, n, gshare[i]) == Votes(n > t.gshare, false, false)
  {
  }

  lemma VotesElsewhere(t: Thresholds, gshare: seq<nat>, i: nat, j: nat, n: nat)
    requires Apart(gshare, i, j, n, t.gshare)
    ensures !VotesAfter(t, n, gshare[j]).gshare
  {
  }

  /** Fetch and commit the branch at 0 once more. */
  method Again(u: BPredUnit, ghost n: nat)
    requires u.bp.gshareThreshold < u.bp.globalThreshold && u.bp.gshareThreshold < u.bp.localThreshold
    requires n <= u.bp.gshareThreshold + 1 && u.bp.weights == Weights(0, 0, 0)
    requires Warmed(u, n)
    modifies u, u.bp`globalHistory, u.bp`weights, u.bp.localHistoryTable
    modifies u.bp.localCtrs, u.bp.globalCtrs, u.bp.gshareCtrs
    ensures Warmed(u, n + 1)
    ensures u.bp.weights == if n <= u.bp.gshareThreshold then Weights(0, 0, 0) else Weights(2, 0, 0)
  {
    hide *;
    WarmedMeans(u, n);
    ThresholdsAre(u);
    ghost var i, j, gshare := u.bp.GshareIndex(0, 0), u.bp.GshareIndex(4, 0), u.bp.gshareCtrs[..];
    VotesThen(ThresholdsOf(u.bp), gshare, i, j, n);
    ApartMore(gshare, i, j, n, u.bp.gshareThreshold);
    NoVotesNothing();
    ghost var g := Fetch(u, 0, 0, false);
    Commit(u);
    WarmedIf(u, n + 1);
  }

  /** If gshare is quicker than both others and has counters to spare, this program does it:
      one branch until gshare has it, and then another, which is learnt as not taken. */
  method LearntAsNotTaken(u: BPredUnit)
    requires New(u) && u.bp.globalBits >= 1
    requires u.bp.gshareThreshold < u.bp.globalThreshold && u.bp.gshareThreshold < u.bp.localThreshold
    modifies u, u.bp`globalHistory, u.bp`weights, u.bp.localHistoryTable
    modifies u.bp.localCtrs, u.bp.globalCtrs, u.bp.gshareCtrs
    ensures u.Valid() && |u.committed| == u.bp.gshareThreshold + 3
    ensures forall i :: 0 <= i < |u.committed| ==> !RealOutcome(u.committed[i])
    ensures !u.committed[|u.committed| - 1].predTaken
  {
    hide *;
    ThresholdsAre(u);
    NewIsWarmed(u);
    for n := 0 to u.bp.gshareThreshold + 1
      invariant Warmed(u, n) && u.bp.weights == Weights(0, 0, 0)
    {
      Again(u, n);
    }
    Again(u, u.bp.gshareThreshold + 1);
    WarmedMeans(u, u.bp.gshareThreshold + 2);
    VotesElsewhere(ThresholdsOf(u.bp), u.bp.gshareCtrs[..], u.bp.GshareIndex(0, 0), u.bp.GshareIndex(4, 0),
                   u.bp.gshareThreshold + 2);
    NoVotesNothing();
    ghost var g := Fetch(u, 0, 4, false);
    QuietMeans(u);
    Outcomes(u.predHist, u.committed);
    u.CommitOldest();
  }

  lemma Outcomes(hist: seq<Record>, committed: seq<Record>)
    requires |hist| == 1 && AllPlain(hist) && AllPlain(committed)
    ensures forall i :: 0 <= i <= |committed| ==> !RealOutcome((committed + [hist[0]])[i])
  {
    forall i | 0 <= i <= |committed| ensures Plain((committed + [hist[0]])[i]) {}
  }
}
