/** The speculation protocol of `bpred_unit.cc` around the ensemble predictor and the branch
    target buffer of `btb.cc`: branches in flight, committed from the old end and squashed
    from the new end. */
module BranchUnit {
  import opened Collections
  import opened EnsembleVote
  import opened EnsemblePredictor
  import opened SpeculativeHistory
  import opened Powers
  import opened Remainders

  /** Where the target of a branch comes from: the return address stack, the target buffer, or
      the indirect predictor, which has one or not. */
  datatype Kind = Return | Direct(call: bool) | Indirect(hit: bool)

  datatype Branch = Branch(addr: nat, uncond: bool, kind: Kind)

  /** What happens to the unit. */
  datatype Event = Fetch(seqNum: int, branch: Branch) | Correct(sn: int, taken: bool) | Squash(sn: int) | Done(sn: int)

  // ----- What the unit keeps -----

  ghost predicate InBits(r: Record, globalBits: nat, tableBits: nat) {
    && r.history.globalHistory < Exp2(globalBits)
    && (r.history.local.Some? ==> r.history.local.value.0 == Word(r.addr) % Exp2(tableBits))
  }

  /** The branches in flight are in order and their records honest. */
  ghost predicate Orderly(hist: seq<Record>, globalBits: nat, tableBits: nat) {
    Descending(hist) && forall i :: 0 <= i < |hist| ==> InBits(hist[i], globalBits, tableBits) && Honest(hist[i])
  }

  /** The predictor has been untrained all along exactly if no branch was committed as taken;
      while it is, the experts are overruled on every branch. */
  ghost predicate Slumber(hist: seq<Record>, committed: seq<Record>, slept: bool, dormant: bool) {
    && (forall i :: 0 <= i < |committed| ==> Honest(committed[i]))
    && (slept <==> forall i :: 0 <= i < |committed| ==> !committed[i].predTaken)
    && (slept ==> dormant && forall i :: 0 <= i < |hist| ==> hist[i].history.finalPrediction)
    && (committed != [] ==> committed[0].history.finalPrediction)
  }

  ghost predicate NoneFound(s: seq<Record>) { forall i :: 0 <= i < |s| && s[i].direct ==> !s[i].found }

  /** Until a branch is found to be mispredicted and taken, the target buffer is empty. */
  ghost predicate Targets(hist: seq<Record>, committed: seq<Record>, btb: map<nat, nat>, filled: bool) {
    !filled ==> btb == map[] && NoneFound(hist) && NoneFound(committed)
  }

  /** The local histories can be traced back, and nothing is lost for good unless an
      unconditional branch had its bit cleared. */
  ghost predicate Tracked(m: nat, table: seq<nat>, hist: seq<Record>, snaps: seq<seq<nat>>, lost: seq<set<int>>,
                          jumped: bool) {
    m > 0 && Chain(m, table, hist, snaps, lost) && (!jumped ==> forall i :: 0 <= i < |lost| ==> lost[i] == {})
  }

  lemma Push(hist: seq<Record>, committed: seq<Record>, slept: bool, dormant: bool, btb: map<nat, nat>, filled: bool,
             gb: nat, tb: nat, r: Record)
    requires Orderly(hist, gb, tb) && InBits(r, gb, tb) && Honest(r)
             && forall i :: 0 <= i < |hist| ==> hist[i].seqNum < r.seqNum
    requires Slumber(hist, committed, slept, dormant) && (slept ==> r.history.finalPrediction)
    requires Targets(hist, committed, btb, filled) && (!filled && r.direct ==> !r.found)
    ensures Orderly([r] + hist, gb, tb) && Slumber([r] + hist, committed, slept, dormant)
    ensures Targets([r] + hist, committed, btb, filled)
  {
    hide InBits, Honest;
  }

  lemma Tail(hist: seq<Record>, committed: seq<Record>, slept: bool, dormant: bool, btb: map<nat, nat>, filled: bool,
             gb: nat, tb: nat)
    requires hist != [] && Orderly(hist, gb, tb) && Slumber(hist, committed, slept, dormant)
    requires Targets(hist, committed, btb, filled)
    ensures Orderly(hist[1..], gb, tb) && Slumber(hist[1..], committed, slept, dormant)
    ensures Targets(hist[1..], committed, btb, filled)
  {
    hide InBits, Honest;
  }

  lemma Touch(hist: seq<Record>, committed: seq<Record>, slept: bool, dormant: bool, btb: map<nat, nat>, filled: bool,
              gb: nat, tb: nat, taken: bool)
    requires hist != [] && Orderly(hist, gb, tb) && Slumber(hist, committed, slept, dormant)
    requires Targets(hist, committed, btb, filled)
    ensures var hist' := [hist[0].(predTaken := taken, corrected := true)] + hist[1..];
            && Orderly(hist', gb, tb) && Slumber(hist', committed, slept, dormant)
            && Targets(hist', committed, btb, filled)
  {
  }

  lemma OldestCommits(hist: seq<Record>, committed: seq<Record>, slept: bool, dormant: bool, dormant': bool,
                      btb: map<nat, nat>, filled: bool, gb: nat, tb: nat)
    requires hist != [] && Orderly(hist, gb, tb) && Slumber(hist, committed, slept, dormant)
    requires Targets(hist, committed, btb, filled)
    requires var r := hist[|hist| - 1]; dormant && r.history.finalPrediction ==> (dormant' <==> !r.predTaken)
    ensures var n := |hist| - 1;
            && Orderly(hist[..n], gb, tb) && Slumber(hist[..n], committed + [hist[n]], slept && dormant', dormant')
            && Targets(hist[..n], committed + [hist[n]], btb, filled)
  {
    hide InBits, Honest;
    var n := |hist| - 1;
    var more := committed + [hist[n]];
    assert forall i :: 0 <= i < |committed| ==> more[i] == committed[i];
    assert more[|committed|] == hist[n];
  }

  lemma StillAsleep(hist: seq<Record>, committed: seq<Record>, slept: bool, dormant: bool, dormant': bool)
    requires Slumber(hist, committed, slept, dormant) && (dormant ==> dormant')
    ensures Slumber(hist, committed, slept, dormant')
  {
  }

  lemma BitsOf(hist: seq<Record>, gb: nat, tb: nat, i: nat)
    requires Orderly(hist, gb, tb) && i < |hist|
    ensures InBits(hist[i], gb, tb)
  {
  }

  class BPredUnit {
    const bp: EnsembleBP
    const btbBits: nat
    const tagBits: nat
    var predHist: seq<Record>
    /** The valid entries of the target buffer: index and tag. */
    var btb: map<nat, nat>
    ghost var committed: seq<Record>
    /** The predictor has been untrained at every moment so far. */
    ghost var slept: bool
    /** Some branch, other than an indirect one, has been found to be mispredicted and taken. */
    ghost var filled: bool
    /** Some unconditional branch had its last history bit cleared for want of a target. */
    ghost var jumped: bool
    /** For each branch in flight the local history table before it, and what is lost. */
    ghost var snaps: seq<seq<nat>>
    ghost var lost: seq<set<int>>
    /** All that has happened to the records. */
    ghost var moves: seq<Move>

    constructor (bp: EnsembleBP, btbBits: nat, tagBits: nat)
      requires bp.Valid() && bp.Dormant()
      ensures this.bp == bp && predHist == [] && committed == [] && btb == map[] && Valid()
      ensures this.btbBits == btbBits && this.tagBits == tagBits
      ensures slept && !filled && !jumped && moves == [] && snaps == [] && lost == []
    {
      this.bp, this.btbBits, this.tagBits := bp, btbBits, tagBits;
      predHist, btb, committed, snaps, lost, moves := [], map[], [], [], [], [];
      slept, filled, jumped := true, false, false;
    }

    ghost predicate Valid()
      reads this, bp, bp.localCtrs, bp.globalCtrs, bp.gshareCtrs, bp.localHistoryTable
    {
      && bp.Valid() && Orderly(predHist, bp.globalBits, bp.historyTableBits)
      && Slumber(predHist, committed, slept, bp.Dormant()) && Targets(predHist, committed, btb, filled)
      && Tracked(Exp2(bp.localBits), bp.localHistoryTable[..], predHist, snaps, lost, jumped)
      && Traced(moves, predHist, |committed|, lost, bp.historyTableBits)
    }

    // ----- The target buffer -----

    function BtbIndex(addr: nat): nat { Word(addr) % Exp2(btbBits) }

    function BtbTag(addr: nat): nat { Word(addr) / Exp2(btbBits) % Exp2(tagBits) }

    predicate HasTarget(b: Branch)
      reads this`btb
    {
      match b.kind
      case Return => true
      case Direct(_) => BtbIndex(b.addr) in btb && btb[BtbIndex(b.addr)] == BtbTag(b.addr)
      case Indirect(hit) => hit
    }

    /** Two branches share an entry and its tag exactly if their words agree in the low
        `btbBits + tagBits` bits. */
    lemma SameEntryIff(a: nat, b: nat)
      ensures BtbIndex(a) == BtbIndex(b) && BtbTag(a) == BtbTag(b) <==>
              Word(a) % Exp2(btbBits + tagBits) == Word(b) % Exp2(btbBits + tagBits)
    {
      var p, q := Exp2(btbBits), Exp2(tagBits);
      Exp2Add(btbBits, tagBits);
      TwoDigits(Word(a), p, q);
      TwoDigits(Word(b), p, q);
      hide Exp2, Word;
      DivMod(BtbTag(a), p, BtbIndex(a));
      DivMod(BtbTag(b), p, BtbIndex(b));
    }

    /** After `addr` has been entered its entry answers for the words that agree with its own
        in those bits and for no others; the other entries answer as before. */
    lemma EnteredAnswers(addr: nat, b: Branch, before: map<nat, nat>)
      requires b.kind.Direct? && btb == before[BtbIndex(addr) := BtbTag(addr)]
      ensures HasTarget(b) <==>
              if Word(b.addr) % Exp2(btbBits) == Word(addr) % Exp2(btbBits)
              then Word(b.addr) % Exp2(btbBits + tagBits) == Word(addr) % Exp2(btbBits + tagBits)
              else BtbIndex(b.addr) in before && before[BtbIndex(b.addr)] == BtbTag(b.addr)
    {
      SameEntryIff(b.addr, addr);
      hide BtbTag, Exp2, Word;
    }

    /** Whether the last history bits are cleared when such a branch has no target. */
    predicate Clears(b: Branch) { b.kind.Direct? && !b.kind.call }

    function RecordOf(seqNum: int, b: Branch, h: History, found: bool): Record {
      Record(seqNum, b.addr, h.finalPrediction, h, h.finalPrediction && found, found,
             h.finalPrediction && !found && Clears(b), b.kind.Direct?, b.kind.Indirect? && h.finalPrediction, false)
    }

    /** The history register after a prediction. */
    function HistoryAfter(history: nat, uncond: bool, cleared: bool): nat {
      var next := if uncond then bp.Shifted(history, true) else history;
      if cleared then next / 2 * 2 else next
    }

    // ----- Prediction -----

    /** Ask the predictor. */
    method Consult(b: Branch) returns (h: History)
      requires bp.Valid()
      modifies bp`globalHistory
      ensures bp.Valid() && h.globalHistory == old(bp.globalHistory) < Exp2(bp.globalBits)
      ensures bp.globalHistory == HistoryAfter(old(bp.globalHistory), b.uncond, false)
      ensures bp.HistorySlot(b.addr) < |bp.localHistoryTable[..]|
      ensures h.local == bp.LocalOf(bp.localHistoryTable[..], b.addr, b.uncond)
      ensures b.uncond ==> h.finalPrediction
      ensures !b.uncond ==> h.finalPrediction == Verdict(bp.weights, h.votes)
      ensures !b.uncond ==> h.votes == bp.VotesOn(b.addr, h)
      ensures old(bp.Dormant()) ==> bp.Dormant() && h.finalPrediction
    {
      hide Exp2, XorBits, Word, Verdict, EnsembleBP.Dormant, EnsembleBP.Shifted, EnsembleBP.GshareIndex;
      if b.uncond {
        h := bp.UncondBranch();
      } else {
        var taken;
        taken, h := bp.Lookup(b.addr);
      }
    }

    method Retract(b: Branch, clear: bool)
      requires bp.Valid()
      modifies bp`globalHistory, bp.localHistoryTable
      ensures bp.Valid()
      ensures bp.globalHistory == if clear then old(bp.globalHistory) / 2 * 2 else old(bp.globalHistory)
      ensures var table, slot := old(bp.localHistoryTable[..]), bp.HistorySlot(b.addr);
              slot < |table| && bp.localHistoryTable[..] ==
              if clear then table[slot := Clear(table[slot] % Exp2(bp.localBits))] else table
      ensures old(bp.Dormant()) ==> bp.Dormant()
    {
      bp.TablesApart();
      hide Exp2, EnsembleBP.Dormant, EnsembleBP.HistorySlot, EnsembleBP.Valid;
      if clear { bp.BtbUpdate(b.addr); }
    }

    /** Returns and indirect branches find their targets outside the target buffer. */
    lemma ElsewhereFound(b: Branch)
      ensures b.kind.Return? ==> HasTarget(b)
      ensures b.kind.Indirect? ==> (HasTarget(b) <==> b.kind.hit)
    {
    }

    /** Predict a branch that is younger than all in flight.  A branch predicted taken whose
        target is not found is answered as not taken; the record keeps the direction of the
        experts. */
    method Predict(seqNum: int, b: Branch) returns (answer: bool, h: History)
      requires Valid() && forall i :: 0 <= i < |predHist| ==> predHist[i].seqNum < seqNum
      modifies this`predHist, this`snaps, this`lost, this`jumped, this`moves, bp`globalHistory, bp.localHistoryTable
      ensures Valid() && predHist == [RecordOf(seqNum, b, h, HasTarget(b))] + old(predHist)
      ensures h.globalHistory == old(bp.globalHistory) && (h.local.None? <==> b.uncond)
      ensures var table, slot := old(bp.localHistoryTable[..]), bp.HistorySlot(b.addr);
              && slot < |table| && h.local == bp.LocalOf(table, b.addr, b.uncond)
              && bp.localHistoryTable[..] ==
                 if predHist[0].cleared then table[slot := Clear(table[slot] % Exp2(bp.localBits))] else table
      ensures h.finalPrediction == (b.uncond || Verdict(bp.weights, h.votes)) && (slept ==> h.finalPrediction)
      ensures answer <==> h.finalPrediction && HasTarget(b)
      ensures b.kind.Return? ==> answer == h.finalPrediction
      ensures b.kind.Indirect? ==> (answer <==> h.finalPrediction && b.kind.hit)
      ensures !b.uncond ==> h.votes == bp.VotesOn(b.addr, h)
      ensures bp.globalHistory == HistoryAfter(old(bp.globalHistory), b.uncond, predHist[0].cleared)
      ensures jumped <==> old(jumped) || (b.uncond && predHist[0].cleared)
      ensures snaps == [old(bp.localHistoryTable[..])] + old(snaps)
      ensures lost == [LossOf(predHist[0], bp.historyTableBits)] + old(lost)
      ensures LossOf(predHist[0], bp.historyTableBits) ==
              if b.uncond && predHist[0].cleared then {bp.HistorySlot(b.addr)} else {}
      ensures moves == old(moves) + [Made(predHist[0])]
    {
      hide *;
      ghost var table, was := bp.localHistoryTable[..], bp.Dormant();
      ValidMeans();
      NotFoundYet(b);
      ElsewhereFound(b);
      var found, cleared := HasTarget(b), false;
      h, cleared := Ask(b, found);
      answer := h.finalPrediction && found;
      StillAsleep(predHist, committed, slept, was, bp.Dormant());
      var r := RecordOf(seqNum, b, h, found);
      Fresh(r, table, bp.localHistoryTable[..], b, seqNum, h, found);
      Remember(r, table);
    }

    /** Ask the predictor and, for want of a target, clear the last bits of the histories. */
    method Ask(b: Branch, found: bool) returns (h: History, cleared: bool)
      requires bp.Valid()
      modifies bp`globalHistory, bp.localHistoryTable
      ensures bp.Valid() && h.globalHistory == old(bp.globalHistory) < Exp2(bp.globalBits)
      ensures cleared == (h.finalPrediction && !found && Clears(b))
      ensures bp.globalHistory == HistoryAfter(old(bp.globalHistory), b.uncond, cleared)
      ensures h.finalPrediction == (b.uncond || Verdict(bp.weights, h.votes))
      ensures !b.uncond ==> h.votes == bp.VotesOn(b.addr, h)
      ensures var table, slot := old(bp.localHistoryTable[..]), bp.HistorySlot(b.addr);
              && slot < |table| && h.local == bp.LocalOf(table, b.addr, b.uncond)
              && bp.localHistoryTable[..] ==
                 if cleared then table[slot := Clear(table[slot] % Exp2(bp.localBits))] else table
      ensures old(bp.Dormant()) ==> bp.Dormant() && h.finalPrediction
    {
      hide *;
      h := Consult(b);
      bp.TablesApart();
      cleared := h.finalPrediction && !found && Clears(b);
      Retract(b, cleared);
      HistoryIs(old(bp.globalHistory), b.uncond, cleared);
    }

    /** What a prediction needs to know about the unit. */
    lemma ValidMeans()
      requires Valid()
      ensures bp.Valid() && Orderly(predHist, bp.globalBits, bp.historyTableBits)
      ensures Slumber(predHist, committed, slept, bp.Dormant()) && Targets(predHist, committed, btb, filled)
      ensures Tracked(Exp2(bp.localBits), bp.localHistoryTable[..], predHist, snaps, lost, jumped)
      ensures Traced(moves, predHist, |committed|, lost, bp.historyTableBits)
      ensures slept ==> bp.Dormant()
      ensures bp.localHistoryTable.Length == Exp2(bp.historyTableBits) && bp.globalHistory < Exp2(bp.globalBits)
      ensures bp.localHistoryTable != bp.localCtrs && bp.localHistoryTable != bp.globalCtrs
      ensures bp.localHistoryTable != bp.gshareCtrs
    {
      bp.TablesApart();
    }

    lemma HistoryIs(history: nat, uncond: bool, cleared: bool)
      ensures HistoryAfter(history, uncond, cleared) ==
              if cleared then HistoryAfter(history, uncond, false) / 2 * 2 else HistoryAfter(history, uncond, false)
    {
    }

    /** A record as it is made. */
    lemma Fresh(r: Record, table: seq<nat>, table': seq<nat>, b: Branch, seqNum: int, h: History, found: bool)
      requires r == RecordOf(seqNum, b, h, found)
      requires h.globalHistory < Exp2(bp.globalBits) && |table| == Exp2(bp.historyTableBits)
      requires h.local == bp.LocalOf(table, b.addr, b.uncond)
      requires var slot := bp.HistorySlot(b.addr);
               table' == if h.finalPrediction && !found && Clears(b)
                         then table[slot := Clear(table[slot] % Exp2(bp.localBits))] else table
      ensures r.seqNum == seqNum && r.addr == b.addr && r.history == h && r.found == found && r.direct == b.kind.Direct?
      ensures r.cleared == (h.finalPrediction && !found && Clears(b))
      ensures Honest(r) && InBits(r, bp.globalBits, bp.historyTableBits) && Remembers(Exp2(bp.localBits), table, r)
      ensures StepIs(Exp2(bp.localBits), table', table, LossOf(r, bp.historyTableBits), r)
      ensures LossOf(r, bp.historyTableBits) == if b.uncond && r.cleared then {bp.HistorySlot(b.addr)} else {}
      ensures h.local.None? <==> b.uncond
    {
      hide Exp2, Clear, StepIs, Word;
      PredictionStep(Exp2(bp.localBits), table, table', bp.HistorySlot(b.addr), r);
    }

    /** The new record goes in front. */
    method Remember(r: Record, ghost table: seq<nat>)
      requires bp.Valid() && Orderly(predHist, bp.globalBits, bp.historyTableBits)
      requires Slumber(predHist, committed, slept, bp.Dormant()) && Targets(predHist, committed, btb, filled)
      requires Tracked(Exp2(bp.localBits), table, predHist, snaps, lost, jumped)
      requires Honest(r) && InBits(r, bp.globalBits, bp.historyTableBits) && Remembers(Exp2(bp.localBits), table, r)
      requires StepIs(Exp2(bp.localBits), bp.localHistoryTable[..], table, LossOf(r, bp.historyTableBits), r)
      requires Traced(moves, predHist, |committed|, lost, bp.historyTableBits)
      requires forall i :: 0 <= i < |predHist| ==> predHist[i].seqNum < r.seqNum
      requires (slept ==> r.history.finalPrediction) && (!filled && r.direct ==> !r.found)
      modifies this`predHist, this`snaps, this`lost, this`jumped, this`moves
      ensures Valid() && predHist == [r] + old(predHist) && snaps == [table] + old(snaps)
      ensures lost == [LossOf(r, bp.historyTableBits)] + old(lost) && moves == old(moves) + [Made(r)]
      ensures jumped <==> old(jumped) || LossOf(r, bp.historyTableBits) != {}
    {
      hide Orderly, Slumber, Targets, Exp2, Chain, Honest, InBits, StepIs, Remembers, EnsembleBP.Dormant,
          EnsembleBP.Valid, Traced, LossOf;
      ghost var gone := LossOf(r, bp.historyTableBits);
      TracedMade(moves, predHist, |committed|, lost, bp.historyTableBits, r);
      ChainPush(Exp2(bp.localBits), table, predHist, snaps, lost, bp.localHistoryTable[..], r, gone);
      Push(predHist, committed, slept, bp.Dormant(), btb, filled, bp.globalBits, bp.historyTableBits, r);
      predHist, snaps, lost := [r] + predHist, [table] + snaps, [gone] + lost;
      jumped, moves := jumped || gone != {}, moves + [Made(r)];
    }

    lemma NotFoundYet(b: Branch)
      requires Targets(predHist, committed, btb, filled)
      ensures !filled && b.kind.Direct? ==> !HasTarget(b)
    {
    }

    // ----- Commit -----

    /** Commit the oldest branch: the direction of its record is learnt. */
    method CommitOldest()
      requires Valid() && predHist != []
      modifies this`predHist, this`snaps, this`lost, this`committed, this`slept
      modifies bp`weights, bp.localCtrs, bp.globalCtrs, bp.gshareCtrs
      ensures Valid() && predHist == old(predHist)[..|old(predHist)| - 1]
      ensures committed == old(committed) + [old(predHist)[|old(predHist)| - 1]]
      ensures |old(snaps)| == |old(lost)| == |old(predHist)|
      ensures snaps == old(snaps)[..|predHist|] && lost == old(lost)[..|predHist|]
      ensures var r := old(predHist)[|old(predHist)| - 1];
              && r.history.globalHistory < |old(bp.globalCtrs[..])|
              && bp.weights == Learn(old(bp.weights), r.history.votes, r.history.finalPrediction, r.predTaken)
              && bp.globalCtrs[..] ==
                 Trained(old(bp.globalCtrs[..]), r.history.globalHistory, r.predTaken, 2 * bp.globalThreshold + 1)
      ensures var r := old(predHist)[|old(predHist)| - 1]; var g := bp.GshareIndex(r.addr, bp.globalHistory);
              && g < |old(bp.gshareCtrs[..])|
              && bp.gshareCtrs[..] == Trained(old(bp.gshareCtrs[..]), g, r.predTaken, 2 * bp.gshareThreshold + 1)
      ensures var r := old(predHist)[|old(predHist)| - 1];
              r.history.local.Some? ==>
                var l := r.history.local.value.1 % Exp2(bp.localBits);
                && l < |old(bp.localCtrs[..])|
                && bp.localCtrs[..] == Trained(old(bp.localCtrs[..]), l, r.predTaken, 2 * bp.localThreshold + 1)
      ensures old(predHist)[|old(predHist)| - 1].history.local.None? ==> bp.localCtrs[..] == old(bp.localCtrs[..])
    {
      hide *;
      ValidMeans();
      var r := predHist[|predHist| - 1];
      BitsOf(predHist, bp.globalBits, bp.historyTableBits, |predHist| - 1);
      CommitBounds(r);
      ghost var was := bp.Dormant();
      bp.Commit(r.addr, r.predTaken, r.history);
      Forget(was);
    }

    lemma CommitBounds(r: Record)
      requires bp.Valid() && InBits(r, bp.globalBits, bp.historyTableBits)
      ensures r.history.globalHistory < Exp2(bp.globalBits) == |bp.globalCtrs[..]|
      ensures bp.GshareIndex(r.addr, bp.globalHistory) < |bp.gshareCtrs[..]|
      ensures r.history.local.Some? ==> r.history.local.value.1 % Exp2(bp.localBits) < |bp.localCtrs[..]|
    {
      hide XorBits, Word;
    }

    /** The committed record leaves at the old end. */
    method Forget(ghost was: bool)
      requires predHist != [] && bp.Valid() && Orderly(predHist, bp.globalBits, bp.historyTableBits)
      requires Slumber(predHist, committed, slept, was) && Targets(predHist, committed, btb, filled)
      requires Tracked(Exp2(bp.localBits), bp.localHistoryTable[..], predHist, snaps, lost, jumped)
      requires Traced(moves, predHist, |committed|, lost, bp.historyTableBits)
      requires var r := predHist[|predHist| - 1]; was && r.history.finalPrediction ==> (bp.Dormant() <==> !r.predTaken)
      modifies this`predHist, this`snaps, this`lost, this`committed, this`slept
      ensures Valid() && predHist == old(predHist)[..|old(predHist)| - 1]
      ensures committed == old(committed) + [old(predHist)[|old(predHist)| - 1]]
      ensures |old(snaps)| == |old(lost)| == |old(predHist)|
      ensures snaps == old(snaps)[..|predHist|] && lost == old(lost)[..|predHist|]
    {
      hide Orderly, Slumber, Targets, Exp2, Chain, EnsembleBP.Dormant, EnsembleBP.Valid, Traced;
      ghost var n := |predHist| - 1;
      TracedDone(moves, predHist, |committed|, lost, bp.historyTableBits);
      OldestCommits(predHist, committed, slept, was, bp.Dormant(), btb, filled, bp.globalBits, bp.historyTableBits);
      ChainDrop(Exp2(bp.localBits), bp.localHistoryTable[..], predHist, snaps, lost);
      Lengths(Exp2(bp.localBits), bp.localHistoryTable[..], predHist, snaps, lost);
      committed, slept := committed + [predHist[n]], slept && bp.Dormant();
      snaps, lost := snaps[..n], lost[..n];
      predHist := predHist[..|predHist| - 1];
    }

    /** Commit all branches up to a sequence number, oldest first. */
    method Update(doneSn: int)
      requires Valid()
      modifies this`predHist, this`snaps, this`lost, this`committed, this`slept
      modifies bp`weights, bp.localCtrs, bp.globalCtrs, bp.gshareCtrs
      ensures Valid() && predHist <= old(predHist) && CutAt(old(predHist), |predHist|, doneSn)
      ensures committed == old(committed) + Backwards(old(predHist)[|predHist|..])
      ensures |old(snaps)| == |old(lost)| == |old(predHist)|
      ensures snaps == old(snaps)[..|predHist|] && lost == old(lost)[..|predHist|]
    {
      hide *;
      SnapsMatch();
      NothingDone(committed, predHist);
      while predHist != [] && predHist[|predHist| - 1].seqNum <= doneSn
        invariant Valid() && predHist <= old(predHist)
        invariant forall i :: |predHist| <= i < |old(predHist)| ==> old(predHist)[i].seqNum <= doneSn
        invariant committed == old(committed) + Backwards(old(predHist)[|predHist|..])
        invariant |old(snaps)| == |old(lost)| == |old(predHist)|
        invariant snaps == old(snaps)[..|predHist|] && lost == old(lost)[..|predHist|]
        decreases |predHist|
      {
        BackwardsMore(old(predHist), |predHist| - 1);
        CommitOldest();
      }
      InOrder();
      CutBelow(old(predHist), |predHist|, doneSn);
    }

    lemma InOrder()
      requires Valid()
      ensures Descending(predHist)
    {
    }

    // ----- Squash -----

    /** Undo the newest branch: the global history is what it was before it, and so is the
        local history table, slot by slot and up to the bits a slot stands for, but for bits
        that are lost for good. */
    method SquashNewest() returns (ghost gone: set<int>)
      requires Valid() && predHist != []
      modifies this`predHist, this`snaps, this`lost, this`moves, bp`globalHistory, bp.localHistoryTable
      ensures |old(snaps)| == |old(lost)| == |old(predHist)|
      ensures Valid() && predHist == old(predHist)[1..] && snaps == old(snaps)[1..]
      ensures bp.globalHistory == old(predHist)[0].history.globalHistory
      ensures Restored(Exp2(bp.localBits), bp.localHistoryTable[..], old(snaps)[0], gone)
      ensures lost == LostBelow(old(lost), old(predHist)[0]) && gone == Gone(old(lost)[0], old(predHist)[0])
      ensures moves == old(moves) + [Unmade] && (!jumped ==> gone == {})
      ensures var h, table := old(predHist)[0].history, old(bp.localHistoryTable[..]);
              && (h.local.Some? ==> h.local.value.0 < |table|)
              && bp.localHistoryTable[..] ==
                 if h.local.None? then table else table[h.local.value.0 := h.local.value.1]
    {
      hide *;
      ValidMeans();
      ghost var was := bp.Dormant();
      BitsOf(predHist, bp.globalBits, bp.historyTableBits, 0);
      Bounds(predHist[0]);
      bp.Squash(predHist[0].history);
      StillAsleep(predHist, committed, slept, was, bp.Dormant());
      gone := Drop(old(bp.localHistoryTable[..]));
    }

    lemma Bounds(r: Record)
      requires InBits(r, bp.globalBits, bp.historyTableBits)
      ensures r.history.globalHistory < Exp2(bp.globalBits)
      ensures r.history.local.Some? ==> r.history.local.value.0 == bp.HistorySlot(r.addr) < Exp2(bp.historyTableBits)
    {
    }

    /** The undone record leaves at the new end. */
    method Drop(ghost table: seq<nat>) returns (ghost gone: set<int>)
      requires predHist != [] && bp.Valid() && Orderly(predHist, bp.globalBits, bp.historyTableBits)
      requires Slumber(predHist, committed, slept, bp.Dormant()) && Targets(predHist, committed, btb, filled)
      requires Tracked(Exp2(bp.localBits), table, predHist, snaps, lost, jumped)
      requires var h := predHist[0].history;
               bp.localHistoryTable[..] ==
               if h.local.None? then table
               else if h.local.value.0 < |table| then table[h.local.value.0 := h.local.value.1] else []
      requires Traced(moves, predHist, |committed|, lost, bp.historyTableBits)
      modifies this`predHist, this`snaps, this`lost, this`moves
      ensures |old(snaps)| == |old(lost)| == |old(predHist)|
      ensures Valid() && predHist == old(predHist)[1..] && snaps == old(snaps)[1..]
      ensures Restored(Exp2(bp.localBits), bp.localHistoryTable[..], old(snaps)[0], gone)
      ensures lost == LostBelow(old(lost), old(predHist)[0]) && gone == Gone(old(lost)[0], old(predHist)[0])
      ensures moves == old(moves) + [Unmade] && (!jumped ==> gone == {})
    {
      hide Orderly, Slumber, Targets, Exp2, Chain, Restored, EnsembleBP.Dormant, EnsembleBP.Valid, Traced;
      TracedUnmade(moves, predHist, |committed|, lost, bp.historyTableBits);
      Tail(predHist, committed, slept, bp.Dormant(), btb, filled, bp.globalBits, bp.historyTableBits);
      ChainPop(Exp2(bp.localBits), table, predHist, snaps, lost);
      Lengths(Exp2(bp.localBits), table, predHist, snaps, lost);
      gone := Gone(lost[0], predHist[0]);
      snaps, lost, moves := snaps[1..], LostBelow(lost, predHist[0]), moves + [Unmade];
      predHist := predHist[1..];
    }

    /** Undo all branches after a sequence number, newest first.  The global history is what
        it was when the oldest of them was predicted.  So is every local history in the bits
        it stands for, except that it has lost its last bit exactly if, since then, a direct
        jump without a target cleared it while none of the branches undone remembered it. */
    method SquashAfter(squashedSn: int) returns (ghost k: nat, ghost gone: set<int>)
      requires Valid()
      modifies this`predHist, this`snaps, this`lost, this`moves, bp`globalHistory, bp.localHistoryTable
      ensures Valid() && k <= |old(predHist)| == |old(snaps)| == |old(lost)|
      ensures predHist == old(predHist)[k..] && snaps == old(snaps)[k..]
      ensures CutAt(old(predHist), k, squashedSn) && moves == old(moves) + Undos(k)
      ensures gone == GoneOf(old(lost), old(predHist), k)
      ensures forall s :: s in gone <==> LostSince(old(moves), bp.historyTableBits, |predHist| + |committed|, s)
      ensures k == 0 ==> bp.globalHistory == old(bp.globalHistory)
                         && bp.localHistoryTable[..] == old(bp.localHistoryTable[..])
      ensures k > 0 ==> bp.globalHistory == old(predHist)[k - 1].history.globalHistory
                        && Restored(Exp2(bp.localBits), bp.localHistoryTable[..], old(snaps)[k - 1], gone)
      ensures k > 0 ==> BackButLosses(Exp2(bp.localBits), bp.localHistoryTable[..], old(snaps)[k - 1], old(moves),
                                      bp.historyTableBits, |predHist| + |committed|)
      ensures !jumped ==> gone == {}
    {
      hide *;
      SnapsMatch();
      ghost var lost0, hist0, moves0, tb := lost, predHist, moves, bp.historyTableBits;
      SameGoneStart(lost0, hist0);
      NoUndos(moves0);
      ValidMeans();
      gone, k := {}, 0;
      while predHist != [] && predHist[0].seqNum > squashedSn
        invariant Valid() && k <= |hist0| == |old(snaps)| && predHist == hist0[k..] && snaps == old(snaps)[k..]
        invariant SameGone(lost0, hist0, lost, predHist, k) && gone == GoneOf(lost0, hist0, k)
        invariant moves == moves0 + Undos(k)
        invariant forall i :: 0 <= i < k ==> hist0[i].seqNum > squashedSn
        invariant k == 0 ==> bp.globalHistory == old(bp.globalHistory)
                             && bp.localHistoryTable[..] == old(bp.localHistoryTable[..])
        invariant k > 0 ==> bp.globalHistory == hist0[k - 1].history.globalHistory
                            && Restored(Exp2(bp.localBits), bp.localHistoryTable[..], old(snaps)[k - 1], gone)
        invariant !jumped ==> gone == {}
        decreases |predHist|
      {
        SameGoneStep(lost0, hist0, lost, predHist, k);
        OneMoreUndo(moves0, k);
        gone := SquashNewest();
        k := k + 1;
      }
      InOrder();
      CutHere(hist0, k, squashedSn);
      forall s ensures s in gone <==> LostSince(moves0, tb, |predHist| + |committed|, s) {
        TracedGone(moves0, hist0, |committed|, lost0, tb, k, s);
      }
      if k > 0 {
        BackIff(Exp2(bp.localBits), bp.localHistoryTable[..], old(snaps)[k - 1], gone, moves0, tb,
                |predHist| + |committed|);
      }
    }

    lemma SnapsMatch()
      requires Valid()
      ensures |snaps| == |lost| == |predHist| && Exp2(bp.localBits) > 0
    {
      Lengths(Exp2(bp.localBits), bp.localHistoryTable[..], predHist, snaps, lost);
    }

    // ----- Misprediction -----

    /** Correct the newest branch in flight. */
    method CorrectNewest(actuallyTaken: bool)
      requires Valid() && predHist != []
      modifies this`predHist, this`btb, this`filled, this`moves, bp`globalHistory, bp.localHistoryTable
      ensures Valid() && moves == old(moves) + [Amended(actuallyTaken)]
      ensures predHist == [old(predHist)[0].(predTaken := actuallyTaken, corrected := true)] + old(predHist)[1..]
      ensures bp.globalHistory == bp.Shifted(predHist[0].history.globalHistory, actuallyTaken)
      ensures bp.localHistoryTable[..] == CorrectedTable(old(bp.localHistoryTable[..]), old(predHist)[0], actuallyTaken)
      ensures var r := old(predHist)[0];
              && (filled <==> old(filled) || (actuallyTaken && !r.indirect))
              && btb == if actuallyTaken && !r.indirect then old(btb)[BtbIndex(r.addr) := BtbTag(r.addr)] else old(btb)
    {
      hide *;
      ValidMeans();
      ghost var was := bp.Dormant();
      var r := predHist[0];
      BitsOf(predHist, bp.globalBits, bp.historyTableBits, 0);
      Bounds(r);
      bp.Resolve(r.addr, actuallyTaken, r.history);
      StillAsleep(predHist, committed, slept, was, bp.Dormant());
      OthersKept(old(bp.localHistoryTable[..]), r, actuallyTaken);
      Amend(actuallyTaken, old(bp.localHistoryTable[..]));
    }

    /** The record gets its real direction, and a taken branch its target. */
    method Amend(actuallyTaken: bool, ghost table: seq<nat>)
      requires predHist != [] && bp.Valid() && Orderly(predHist, bp.globalBits, bp.historyTableBits)
      requires Slumber(predHist, committed, slept, bp.Dormant()) && Targets(predHist, committed, btb, filled)
      requires Tracked(Exp2(bp.localBits), table, predHist, snaps, lost, jumped)
      requires |bp.localHistoryTable[..]| == |table|
      requires forall s :: 0 <= s < |table| && !HasLocal(predHist[0], s) ==> bp.localHistoryTable[..][s] == table[s]
      requires Traced(moves, predHist, |committed|, lost, bp.historyTableBits)
      modifies this`predHist, this`btb, this`filled, this`moves
      ensures Valid() && moves == old(moves) + [Amended(actuallyTaken)]
      ensures predHist == [old(predHist)[0].(predTaken := actuallyTaken, corrected := true)] + old(predHist)[1..]
      ensures var r := old(predHist)[0];
              && (filled <==> old(filled) || (actuallyTaken && !r.indirect))
              && btb == if actuallyTaken && !r.indirect then old(btb)[BtbIndex(r.addr) := BtbTag(r.addr)] else old(btb)
    {
      hide Orderly, Slumber, Exp2, Chain, EnsembleBP.Dormant, EnsembleBP.Valid, NoneFound, Word, Traced;
      TracedAmended(moves, predHist, |committed|, lost, bp.historyTableBits, actuallyTaken);
      moves := moves + [Amended(actuallyTaken)];
      Touch(predHist, committed, slept, bp.Dormant(), btb, filled, bp.globalBits, bp.historyTableBits, actuallyTaken);
      var r := predHist[0];
      ChainTouch(Exp2(bp.localBits), table, predHist, snaps, lost, bp.localHistoryTable[..],
                 r.(predTaken := actuallyTaken, corrected := true));
      predHist := [r.(predTaken := actuallyTaken, corrected := true)] + predHist[1..];
      if actuallyTaken && !r.indirect {
        btb := btb[BtbIndex(r.addr) := BtbTag(r.addr)];
        filled := true;
      }
    }

    /** A branch turned out to be mispredicted: undo everything younger, note its real
        direction for the commit, and correct the histories.  If everything in flight is
        younger nothing is left to correct; the source asserts that otherwise the branch
        itself is in flight. */
    method Mispredicted(squashedSn: int, actuallyTaken: bool)
      returns (ghost k: nat, ghost mid: seq<nat>, ghost gone: set<int>)
      requires Valid()
      requires (exists i :: 0 <= i < |predHist| && predHist[i].seqNum == squashedSn)
               || (forall i :: 0 <= i < |predHist| ==> predHist[i].seqNum > squashedSn)
      modifies this`predHist, this`snaps, this`lost, this`moves, this`btb, this`filled
      modifies bp`globalHistory, bp.localHistoryTable
      ensures Valid() && k <= |old(predHist)| == |old(snaps)| && CutAt(old(predHist), k, squashedSn)
      ensures snaps == old(snaps)[k..]
      ensures forall s :: s in gone <==>
                LostSince(old(moves), bp.historyTableBits, |old(predHist)| - k + |committed|, s)
      ensures k == 0 ==> mid == old(bp.localHistoryTable[..])
      ensures k > 0 ==> Restored(Exp2(bp.localBits), mid, old(snaps)[k - 1], gone)
                        && BackButLosses(Exp2(bp.localBits), mid, old(snaps)[k - 1], old(moves), bp.historyTableBits,
                                         |old(predHist)| - k + |committed|)
      ensures k == |old(predHist)| ==> moves == old(moves) + Undos(k) && btb == old(btb) && filled == old(filled)
      ensures k < |old(predHist)| ==>
                var r := old(predHist)[k];
                && moves == old(moves) + Undos(k) + [Amended(actuallyTaken)]
                && (filled <==> old(filled) || (actuallyTaken && !r.indirect))
                && btb ==
                   if actuallyTaken && !r.indirect then old(btb)[BtbIndex(r.addr) := BtbTag(r.addr)] else old(btb)
      ensures k == |old(predHist)| ==>
                && predHist == [] && bp.localHistoryTable[..] == mid
                && bp.globalHistory ==
                   if k == 0 then old(bp.globalHistory) else old(predHist)[k - 1].history.globalHistory
      ensures k < |old(predHist)| ==>
                && predHist ==
                   [old(predHist)[k].(predTaken := actuallyTaken, corrected := true)] + old(predHist)[k + 1..]
                && predHist[0].seqNum == squashedSn
                && bp.globalHistory == bp.Shifted(predHist[0].history.globalHistory, actuallyTaken)
                && bp.localHistoryTable[..] == CorrectedTable(mid, predHist[0], actuallyTaken)
      ensures !jumped ==> gone == {}
    {
      hide *;
      SnapsMatch();
      InOrder();
      k, gone := SquashAfter(squashedSn);
      mid := bp.localHistoryTable[..];
      if predHist != [] {
        FrontIsIt(old(predHist), k, squashedSn);
        CorrectNewest(actuallyTaken);
        SameCorrection(mid, old(predHist)[k], predHist[0], actuallyTaken);
      }
    }

    lemma SameCorrection(table: seq<nat>, r: Record, r': Record, taken: bool)
      requires r'.history == r.history
      ensures CorrectedTable(table, r', taken) == CorrectedTable(table, r, taken)
    {
    }

    /** The local histories with the real outcome of a conditional branch shifted in. */
    ghost function CorrectedTable(table: seq<nat>, r: Record, taken: bool): seq<nat> {
      if r.history.local.Some? && r.history.local.value.0 < |table|
      then table[r.history.local.value.0 := 2 * r.history.local.value.1 + One(taken)]
      else table
    }

    lemma OthersKept(table: seq<nat>, r: Record, taken: bool)
      requires r.history.local.Some? ==> r.history.local.value.0 == bp.HistorySlot(r.addr) < |table|
      requires bp.localHistoryTable[..] ==
               if r.history.local.None? then table
               else table[r.history.local.value.0 := 2 * r.history.local.value.1 + One(taken)]
      ensures |bp.localHistoryTable[..]| == |table| && bp.localHistoryTable[..] == CorrectedTable(table, r, taken)
      ensures forall s :: 0 <= s < |table| && !HasLocal(r, s) ==> bp.localHistoryTable[..][s] == table[s]
    {
    }

    lemma RecordIs(seqNum: int, b: Branch, h: History, found: bool)
      ensures var r := RecordOf(seqNum, b, h, found);
              && r.seqNum == seqNum && r.history == h && r.addr == b.addr && (b.kind.Direct? ==> !r.indirect)
              && (b.kind == Direct(false) ==> r.cleared == (h.finalPrediction && !found))
    {
    }

    lemma LocalIs(table: seq<nat>, addr: nat, h: History)
      requires bp.HistorySlot(addr) < |table| && h.local == bp.LocalOf(table, addr, false)
      ensures h.local == Some((bp.HistorySlot(addr), table[bp.HistorySlot(addr)] % Exp2(bp.localBits)))
    {
    }

    lemma TakenIs(mid: seq<nat>, r: Record, h: History)
      requires r.history == h && h.local.Some? && h.local.value.0 < |mid|
      ensures |CorrectedTable(mid, r, true)| == |mid|
      ensures CorrectedTable(mid, r, true)[h.local.value.0] == 2 * h.local.value.1 + 1
    {
    }

    lemma SameSlot(addr: nat)
      requires addr == 4 * Exp2(bp.historyTableBits) && bp.historyTableBits < btbBits
      ensures bp.HistorySlot(addr) == bp.HistorySlot(0) == 0
    {
      Aliases(bp.historyTableBits, btbBits);
    }

    lemma NoTarget(addr: nat)
      requires addr == 4 * Exp2(bp.historyTableBits) && bp.historyTableBits < btbBits
      requires btb == map[BtbIndex(0) := BtbTag(0)]
      ensures !HasTarget(Branch(addr, true, Direct(false)))
    {
      hide Exp2;
      Aliases(bp.historyTableBits, btbBits);
    }

    // ----- Whole runs -----

    /** Whether the unit can be told of the event now: a new branch is younger than all in
        flight, and a misprediction concerns a branch in flight or one older than all. */
    ghost predicate Timely(e: Event)
      reads this`predHist
    {
      match e
      case Fetch(sn, _) => forall i :: 0 <= i < |predHist| ==> predHist[i].seqNum < sn
      case Correct(sn, _) =>
        (exists i :: 0 <= i < |predHist| && predHist[i].seqNum == sn)
        || (forall i :: 0 <= i < |predHist| ==> predHist[i].seqNum > sn)
      case _ => true
    }

    /** At every moment of every run: the predictor has been untrained all along exactly if
        every branch committed turned out not taken and none of them was a miss. */
    lemma SleptIff()
      requires Valid()
      ensures slept <==> forall i :: 0 <= i < |committed| ==> !RealOutcome(committed[i]) && !Missed(committed[i])
      ensures slept ==> bp.Dormant()
    {
      forall i | 0 <= i < |committed|
        ensures committed[i].predTaken <==> RealOutcome(committed[i]) || Missed(committed[i])
      {
        assert Honest(committed[i]);
        LearntIff(committed[i]);
      }
    }

    /** A program of direct branches of which none is ever found to be mispredicted, as when
        none is ever taken, finds no target, and the very first commit is learnt as taken. */
    lemma NeverTakenProgram()
      requires Valid() && !filled
      requires forall i :: 0 <= i < |committed| ==> committed[i].direct && !committed[i].corrected
      ensures forall i :: 0 <= i < |committed| ==> !RealOutcome(committed[i])
      ensures slept <==> committed == []
    {
      SleptIff();
      assert NoneFound(committed);
      forall i | 0 <= i < |committed|
        ensures !RealOutcome(committed[i])
      {
        assert Honest(committed[i]) && !committed[i].found;
      }
      if committed != [] {
        assert !committed[0].found && committed[0].history.finalPrediction;
        assert Missed(committed[0]);
      }
    }

    /** Any sequence of events, those that come at the wrong time left out. */
    method Run(events: seq<Event>)
      requires Valid()
      modifies this, bp`globalHistory, bp`weights, bp.localHistoryTable, bp.localCtrs, bp.globalCtrs, bp.gshareCtrs
      ensures Valid()
      ensures slept <==> forall i :: 0 <= i < |committed| ==> !RealOutcome(committed[i]) && !Missed(committed[i])
      ensures slept ==> bp.Dormant()
    {
      hide *;
      for n := 0 to |events|
        invariant Valid()
      {
        Handle(events[n]);
      }
      SleptIff();
    }

    method Handle(e: Event)
      requires Valid()
      modifies this, bp`globalHistory, bp`weights, bp.localHistoryTable, bp.localCtrs, bp.globalCtrs, bp.gshareCtrs
      ensures Valid() && old(committed) <= committed
      ensures !old(Timely(e)) ==> predHist == old(predHist)
    {
      hide Valid;
      match e {
        case Fetch(sn, b) =>
          var younger := Younger(sn);
          if younger { var answer, h := Predict(sn, b); }
        case Correct(sn, taken) =>
          var known := InFlight(sn);
          if known { ghost var k, mid, gone := Mispredicted(sn, taken); }
        case Squash(sn) => ghost var k, gone := SquashAfter(sn);
        case Done(sn) => Update(sn);
      }
    }

    method Younger(sn: int) returns (yes: bool)
      ensures yes <==> forall i :: 0 <= i < |predHist| ==> predHist[i].seqNum < sn
    {
      yes := true;
      for i := 0 to |predHist|
        invariant yes <==> forall j :: 0 <= j < i ==> predHist[j].seqNum < sn
      {
        yes := yes && predHist[i].seqNum < sn;
      }
    }

    method InFlight(sn: int) returns (yes: bool)
      ensures yes <==> (exists i :: 0 <= i < |predHist| && predHist[i].seqNum == sn)
                       || (forall i :: 0 <= i < |predHist| ==> predHist[i].seqNum > sn)
    {
      var some, all := false, true;
      for i := 0 to |predHist|
        invariant some <==> exists j :: 0 <= j < i && predHist[j].seqNum == sn
        invariant all <==> forall j :: 0 <= j < i ==> predHist[j].seqNum > sn
      {
        some := some || predHist[i].seqNum == sn;
        all := all && predHist[i].seqNum > sn;
      }
      yes := some || all;
    }
  }

  /** What remains in front after a squash is the branch itself. */
  lemma FrontIsIt(hist: seq<Record>, k: nat, sn: int)
    requires Descending(hist) && CutAt(hist, k, sn) && k < |hist|
    requires (exists i :: 0 <= i < |hist| && hist[i].seqNum == sn)
             || (forall i :: 0 <= i < |hist| ==> hist[i].seqNum > sn)
    ensures hist[k].seqNum == sn
  {
    assert hist[k].seqNum <= sn;
    CutFinds(hist, k, sn);
  }

  lemma CutHere(hist: seq<Record>, k: nat, sn: int)
    requires k <= |hist| && Descending(hist[k..]) && (k < |hist| ==> hist[k].seqNum <= sn)
    requires forall i :: 0 <= i < k ==> hist[i].seqNum > sn
    ensures CutAt(hist, k, sn)
  {
    forall i | k <= i < |hist| ensures hist[i].seqNum <= sn {
      assert hist[k..][i - k] == hist[i] && hist[k..][0] == hist[k];
    }
  }

  lemma CutBelow(hist: seq<Record>, k: nat, sn: int)
    requires k <= |hist| && Descending(hist[..k]) && (k > 0 ==> hist[k - 1].seqNum > sn)
    requires forall i :: k <= i < |hist| ==> hist[i].seqNum <= sn
    ensures CutAt(hist, k, sn)
  {
    forall i | 0 <= i < k ensures hist[i].seqNum > sn {
      assert hist[..k][i] == hist[i] && hist[..k][k - 1] == hist[k - 1];
    }
  }

  ghost function Undos(k: nat): seq<Move> { seq(k, _ => Unmade) }

  lemma NoUndos(moves: seq<Move>)
    ensures moves + Undos(0) == moves
  {
  }

  lemma OneMoreUndo(moves: seq<Move>, k: nat)
    ensures moves + Undos(k) + [Unmade] == moves + Undos(k + 1)
  {
  }

  lemma NothingDone(committed: seq<Record>, hist: seq<Record>)
    ensures committed == committed + Backwards(hist[|hist|..])
  {
  }

  lemma Lengths(m: nat, now: seq<nat>, hist: seq<Record>, snaps: seq<seq<nat>>, lost: seq<set<int>>)
    requires m > 0 && Chain(m, now, hist, snaps, lost)
    ensures |snaps| == |hist| == |lost|
  {
  }

  lemma {:induction false} BackwardsMore(hist: seq<Record>, k: nat)
    requires k < |hist|
    ensures Backwards(hist[k..]) == Backwards(hist[k + 1..]) + [hist[k]]
    decreases |hist|
  {
    var n := |hist| - 1;
    if k < n {
      BackwardsMore(hist[..n], k);
      assert hist[k..][..|hist| - k - 1] == hist[..n][k..];
      assert hist[k + 1..][..n - k - 1] == hist[..n][k + 1..];
    } else {
      assert hist[k..] == [hist[k]] && hist[k + 1..] == [];
    }
  }

  // ----- A loss -----

  /** Two addresses that share a local history but not an entry of the target buffer. */
  lemma Aliases(tb: nat, btbBits: nat)
    requires tb < btbBits
    ensures Word(4 * Exp2(tb)) % Exp2(tb) == 0 == Word(0) % Exp2(tb)
    ensures Word(4 * Exp2(tb)) % Exp2(btbBits) != 0 == Word(0) % Exp2(btbBits)
  {
    hide Exp2;
    Exp2Grows(tb, btbBits);
    SmallMod(Exp2(tb), Exp2(btbBits));
    SelfMod(Exp2(tb));
  }

  lemma SmallMod(x: nat, m: nat)
    requires x < m
    ensures 4 * x / 4 == x && x % m == x && 0 / 4 % m == 0
  {
  }

  lemma SelfMod(m: nat)
    requires m > 0
    ensures 4 * m / 4 == m && m % m == 0 && 0 / 4 % m == 0
  {
  }

  lemma OneCounts(localBits: nat)
    requires 1 <= localBits
    ensures 1 % Exp2(localBits) == 1 && 0 % Exp2(localBits) == 0
  {
    hide Exp2;
    Exp2Grows(0, localBits);
    SmallMod(1, Exp2(localBits));
    SmallMod(0, Exp2(localBits));
  }

  lemma OneGone(lost: seq<set<int>>, hist: seq<Record>, s: int)
    requires lost != [] && hist != [] && s in lost[0] && hist[0].history.local.None?
    ensures s in GoneOf(lost, hist, 1)
  {
    assert s in lost[0] + GoneOf(lost, hist, 0);
  }

  lemma LastBitGone(m: nat, now: seq<nat>, before: seq<nat>, gone: set<int>, s: int)
    requires m > 0 && Restored(m, now, before, gone) && 0 <= s < |before| && s in gone && before[s] == 1 && 1 % m == 1
    ensures s < |now| && now[s] % m == 0
  {
    assert SlotIs(m, now[s], before[s], s in gone);
  }

  lemma CutOne(hist: seq<Record>, k: nat)
    requires |hist| == 2 && hist[0].seqNum == 2 && hist[1].seqNum == 1 && CutAt(hist, k, 1)
    ensures k == 1
  {
  }

  lemma CutNone(hist: seq<Record>, k: nat)
    requires |hist| == 1 && hist[0].seqNum == 1 && CutAt(hist, k, 1)
    ensures k == 0
  {
  }

  /** A conditional branch is fetched first and found to be mispredicted and taken. */
  method TakeBranch(unit: BPredUnit, addr: nat)
    requires unit.Valid() && unit.predHist == []
    requires unit.bp.HistorySlot(addr) < |unit.bp.localHistoryTable[..]|
    requires unit.bp.localHistoryTable[..][unit.bp.HistorySlot(addr)] == 0 == 0 % Exp2(unit.bp.localBits)
    modifies unit, unit.bp`globalHistory, unit.bp.localHistoryTable
    ensures unit.Valid() && |unit.predHist| == 1 && unit.predHist[0].seqNum == 1
    ensures |unit.bp.localHistoryTable[..]| == |old(unit.bp.localHistoryTable[..])|
    ensures unit.bp.localHistoryTable[..][unit.bp.HistorySlot(addr)] == 1
    ensures unit.btb == old(unit.btb)[unit.BtbIndex(addr) := unit.BtbTag(addr)]
  {
    hide *;
    var b := Branch(addr, false, Direct(false));
    var answer, h := unit.Predict(1, b);
    unit.RecordIs(1, b, h, unit.HasTarget(b));
    unit.LocalIs(old(unit.bp.localHistoryTable[..]), addr, h);
    ghost var hist, table := unit.predHist, unit.bp.localHistoryTable[..];
    ghost var k, mid, gone := unit.Mispredicted(1, true);
    CutNone(hist, k);
    unit.TakenIs(mid, unit.predHist[0], h);
  }

  /** A jump without a target is fetched and squashed: the local history it shares has lost
      its last bit. */
  method JumpAndBack(unit: BPredUnit, addr: nat)
    requires unit.Valid() && |unit.predHist| == 1 && unit.predHist[0].seqNum == 1
    requires !unit.HasTarget(Branch(addr, true, Direct(false))) && 1 % Exp2(unit.bp.localBits) == 1
    requires unit.bp.HistorySlot(addr) < |unit.bp.localHistoryTable[..]|
    requires unit.bp.localHistoryTable[..][unit.bp.HistorySlot(addr)] == 1
    modifies unit, unit.bp`globalHistory, unit.bp.localHistoryTable
    ensures unit.Valid() && unit.bp.HistorySlot(addr) < |unit.bp.localHistoryTable[..]|
    ensures unit.bp.localHistoryTable[..][unit.bp.HistorySlot(addr)] % Exp2(unit.bp.localBits) == 0
  {
    hide *;
    unit.SnapsMatch();
    var b := Branch(addr, true, Direct(false));
    var answer, h := unit.Predict(2, b);
    unit.RecordIs(2, b, h, false);
    ghost var hist, lost, snaps := unit.predHist, unit.lost, unit.snaps;
    ghost var k, gone := unit.SquashAfter(1);
    CutOne(hist, k);
    OneGone(lost, hist, unit.bp.HistorySlot(addr));
    LastBitGone(Exp2(unit.bp.localBits), unit.bp.localHistoryTable[..], snaps[0], gone, unit.bp.HistorySlot(addr));
  }

  /** Squashing does lose bits: a conditional branch is corrected as taken, a jump at another
      address with the same local history is predicted without a target, and the jump is
      squashed.  So it goes with every table of local histories that is smaller than the
      target buffer. */
  method JumpLosesBit(localBits: nat, tb: nat, globalBits: nat, threshold: nat, btbBits: nat, tagBits: nat)
    returns (before: nat, after: nat)
    requires 1 <= localBits && tb < btbBits
    ensures before % Exp2(localBits) == 1 && after % Exp2(localBits) == 0
  {
    hide *;
    OneCounts(localBits);
    var bp := new EnsembleBP(localBits, tb, globalBits, Exp2(globalBits), threshold, threshold, threshold);
    var unit := new BPredUnit(bp, btbBits, tagBits);
    unit.SameSlot(4 * Exp2(tb));
    TakeBranch(unit, 0);
    before := bp.localHistoryTable[0];
    unit.NoTarget(4 * Exp2(tb));
    JumpAndBack(unit, 4 * Exp2(tb));
    after := bp.localHistoryTable[0];
  }
}
