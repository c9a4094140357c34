/** Branches in flight, newest first, and the local history table they have changed: what
    undoing them from the new end gives back. */
module SpeculativeHistory {
  import opened Collections
  import opened EnsemblePredictor
  import opened EnsembleVote
  import opened Powers

  /** A branch from its prediction to its commit: the direction that will be learnt, the
      answer given, whether a target was found, whether the last history bits were cleared
      for want of one, where the target is looked up, and whether the branch has been found
      to be mispredicted. */
  datatype Record = Record(
    seqNum: int, addr: nat, predTaken: bool, history: History,
    answer: bool, found: bool, cleared: bool, direct: bool, indirect: bool, corrected: bool)

  /** What the branch turned out to do: what its correction says, or, if nothing found it
      wrong, what was answered. */
  function RealOutcome(r: Record): bool { if r.corrected then r.predTaken else r.answer }

  /** The experts said taken, no target was found, and nothing corrected the branch. */
  predicate Missed(r: Record) { !r.corrected && r.history.finalPrediction && !r.found }

  /** Until it is corrected, a record holds the direction of the experts and the answer given
      on top of it. */
  predicate Honest(r: Record) {
    !r.corrected ==> r.predTaken == r.history.finalPrediction && r.answer == (r.predTaken && r.found)
  }

  /** The direction learnt is the real one exactly unless the branch is such a miss; for an
      uncorrected branch it is the one answered exactly if the target was found or the experts
      said not taken. */
  lemma LearntIff(r: Record)
    requires Honest(r)
    ensures r.predTaken == RealOutcome(r) <==> !Missed(r)
    ensures r.predTaken <==> RealOutcome(r) || Missed(r)
    ensures !r.corrected ==> (r.predTaken == r.answer <==> r.found || !r.history.finalPrediction)
  {
  }

  /** Newest first. */
  ghost predicate Descending(hist: seq<Record>) {
    forall i, j :: 0 <= i < j < |hist| ==> hist[i].seqNum > hist[j].seqNum
  }

  /** The first `k` records are those after a sequence number. */
  ghost predicate CutAt(hist: seq<Record>, k: nat, sn: int) {
    k <= |hist| && (forall i :: 0 <= i < k ==> hist[i].seqNum > sn)
    && (forall i :: k <= i < |hist| ==> hist[i].seqNum <= sn)
  }

  /** The newest record that remains after a cut at a recorded sequence number is that one. */
  lemma CutFinds(hist: seq<Record>, k: nat, sn: int)
    requires Descending(hist) && CutAt(hist, k, sn) && exists i :: 0 <= i < |hist| && hist[i].seqNum == sn
    ensures k < |hist| && hist[k].seqNum == sn
  {
    var i :| 0 <= i < |hist| && hist[i].seqNum == sn;
    assert i >= k && hist[k].seqNum <= sn;
  }

  function Backwards(hist: seq<Record>): seq<Record> {
    if hist == [] then [] else [hist[|hist| - 1]] + Backwards(hist[..|hist| - 1])
  }

  // ----- The table -----

  predicate HasLocal(r: Record, s: int) { r.history.local.Some? && r.history.local.value.0 == s }

  function Clear(x: nat): nat { x / 2 * 2 }

  /** Slot by slot and up to the `m` values a slot stands for, the table is what it was
      `before`, but that the slots `gone` have lost their last bit. */
  ghost predicate Restored(m: nat, now: seq<nat>, before: seq<nat>, gone: set<int>)
    requires m > 0
  {
    |now| == |before| && forall s :: 0 <= s < |now| ==> SlotIs(m, now[s], before[s], s in gone)
  }

  predicate SlotIs(m: nat, now: nat, before: nat, gone: bool)
    requires m > 0
  {
    now % m == if gone then Clear(before % m) else before % m
  }

  /** The same but for the slot the record remembers. */
  ghost predicate StepIs(m: nat, next: seq<nat>, before: seq<nat>, gone: set<int>, r: Record)
    requires m > 0
  {
    |next| == |before|
    && forall s :: 0 <= s < |next| && !HasLocal(r, s) ==> SlotIs(m, next[s], before[s], s in gone)
  }

  ghost predicate Remembers(m: nat, before: seq<nat>, r: Record)
    requires m > 0
  {
    r.history.local.Some? ==>
      r.history.local.value.0 < |before| && r.history.local.value.1 == before[r.history.local.value.0] % m
  }

  /** `snaps[i]` is the table before record `i`, `lost[i]` the slots that have lost a bit for
      good while it was the newest. */
  ghost predicate Chain(m: nat, now: seq<nat>, hist: seq<Record>, snaps: seq<seq<nat>>, lost: seq<set<int>>)
    requires m > 0
  {
    |snaps| == |hist| == |lost| && forall i :: 0 <= i < |hist| ==> LinkAt(m, now, hist, snaps, lost, i)
  }

  ghost predicate LinkAt(m: nat, now: seq<nat>, hist: seq<Record>, snaps: seq<seq<nat>>, lost: seq<set<int>>, i: int)
    requires m > 0 && |snaps| == |hist| == |lost| && 0 <= i < |hist|
  {
    && Remembers(m, snaps[i], hist[i])
    && StepIs(m, if i == 0 then now else snaps[i - 1], snaps[i], lost[i], hist[i])
  }

  /** What stays lost when the record is undone. */
  ghost function Gone(lost: set<int>, r: Record): set<int> {
    if r.history.local.Some? then lost - {r.history.local.value.0} else lost
  }

  ghost function Undone(now: seq<nat>, r: Record): seq<nat>
    requires r.history.local.Some? ==> r.history.local.value.0 < |now|
  {
    if r.history.local.None? then now else now[r.history.local.value.0 := r.history.local.value.1]
  }

  ghost function LostBelow(lost: seq<set<int>>, r: Record): seq<set<int>>
    requires lost != []
  {
    if |lost| == 1 then [] else [lost[1] + Gone(lost[0], r)] + lost[2..]
  }

  lemma ModTwice(x: nat, m: nat)
    requires m > 0
    ensures x % m % m == x % m && Clear(x % m) % m == Clear(x % m)
  {
    Small(x % m, m);
    Small(Clear(x % m), m);
  }

  lemma Small(x: nat, m: nat)
    requires x < m
    ensures x % m == x
  {
  }

  lemma ClearTwice(x: nat)
    ensures Clear(Clear(x)) == Clear(x)
  {
  }

  /** Undoing one record restores the table from before it, but for the lost bits. */
  lemma UndoRestores(m: nat, now: seq<nat>, before: seq<nat>, lost: set<int>, r: Record)
    requires m > 0 && StepIs(m, now, before, lost, r) && Remembers(m, before, r)
    ensures Restored(m, Undone(now, r), before, Gone(lost, r))
  {
    hide Clear;
    var after := Undone(now, r);
    forall s | 0 <= s < |after|
      ensures SlotIs(m, after[s], before[s], s in Gone(lost, r))
    {
      if HasLocal(r, s) { ModTwice(before[s], m); } else { assert after[s] == now[s]; }
    }
  }

  /** Restoring the table from before a newer record keeps the link to the older one. */
  lemma RestoredLinks(m: nat, now: seq<nat>, mid: seq<nat>, before: seq<nat>, g: set<int>, lost: set<int>, r: Record)
    requires m > 0 && Restored(m, now, mid, g) && StepIs(m, mid, before, lost, r)
    ensures StepIs(m, now, before, lost + g, r)
  {
    hide Clear;
    forall s | 0 <= s < |now| && !HasLocal(r, s)
      ensures SlotIs(m, now[s], before[s], s in lost + g)
    {
      assert SlotIs(m, now[s], mid[s], s in g) && SlotIs(m, mid[s], before[s], s in lost);
      ClearTwice(before[s] % m);
    }
  }

  lemma ChainPop(m: nat, now: seq<nat>, hist: seq<Record>, snaps: seq<seq<nat>>, lost: seq<set<int>>)
    requires m > 0 && Chain(m, now, hist, snaps, lost) && hist != []
    ensures hist[0].history.local.Some? ==> hist[0].history.local.value.0 < |now|
    ensures Restored(m, Undone(now, hist[0]), snaps[0], Gone(lost[0], hist[0]))
    ensures Chain(m, Undone(now, hist[0]), hist[1..], snaps[1..], LostBelow(lost, hist[0]))
  {
    hide StepIs, Restored, Undone, Gone;
    assert LinkAt(m, now, hist, snaps, lost, 0);
    StepLength(m, now, snaps[0], lost[0], hist[0]);
    UndoRestores(m, now, snaps[0], lost[0], hist[0]);
    var after := Undone(now, hist[0]);
    if |hist| > 1 {
      assert LinkAt(m, now, hist, snaps, lost, 1);
      RestoredLinks(m, after, snaps[0], snaps[1], Gone(lost[0], hist[0]), lost[1], hist[1]);
    }
    var hist', snaps', lost' := hist[1..], snaps[1..], LostBelow(lost, hist[0]);
    forall i | 0 <= i < |hist'|
      ensures LinkAt(m, after, hist', snaps', lost', i)
    {
      assert LinkAt(m, now, hist, snaps, lost, i + 1);
    }
  }

  lemma StepLength(m: nat, next: seq<nat>, before: seq<nat>, gone: set<int>, r: Record)
    requires m > 0 && StepIs(m, next, before, gone, r)
    ensures |next| == |before|
  {
  }

  lemma ChainPush(m: nat, now: seq<nat>, hist: seq<Record>, snaps: seq<seq<nat>>, lost: seq<set<int>>,
                  now': seq<nat>, r: Record, gone: set<int>)
    requires m > 0 && Chain(m, now, hist, snaps, lost) && Remembers(m, now, r) && StepIs(m, now', now, gone, r)
    ensures Chain(m, now', [r] + hist, [now] + snaps, [gone] + lost)
  {
    hide StepIs, Remembers;
    var hist', snaps', lost' := [r] + hist, [now] + snaps, [gone] + lost;
    forall i | 0 <= i < |hist'|
      ensures LinkAt(m, now', hist', snaps', lost', i)
    {
      if i > 0 { assert LinkAt(m, now, hist, snaps, lost, i - 1); }
    }
  }

  lemma ChainDrop(m: nat, now: seq<nat>, hist: seq<Record>, snaps: seq<seq<nat>>, lost: seq<set<int>>)
    requires m > 0 && Chain(m, now, hist, snaps, lost) && hist != []
    ensures Chain(m, now, hist[..|hist| - 1], snaps[..|hist| - 1], lost[..|hist| - 1])
  {
    hide StepIs, Remembers;
    var n := |hist| - 1;
    forall i | 0 <= i < n ensures LinkAt(m, now, hist[..n], snaps[..n], lost[..n], i) {
      assert LinkAt(m, now, hist, snaps, lost, i);
    }
  }

  /** Correcting the newest record changes the slot it remembers and its direction. */
  lemma ChainTouch(m: nat, now: seq<nat>, hist: seq<Record>, snaps: seq<seq<nat>>, lost: seq<set<int>>,
                   now': seq<nat>, r: Record)
    requires m > 0 && Chain(m, now, hist, snaps, lost) && hist != [] && r.history == hist[0].history
    requires |now'| == |now| && forall s :: 0 <= s < |now| && !HasLocal(r, s) ==> now'[s] == now[s]
    ensures Chain(m, now', [r] + hist[1..], snaps, lost)
  {
    hide SlotIs;
    var hist' := [r] + hist[1..];
    assert LinkAt(m, now, hist, snaps, lost, 0);
    TouchStep(m, now, now', snaps[0], lost[0], hist[0], r);
    hide StepIs, Remembers;
    forall i | 0 <= i < |hist'|
      ensures LinkAt(m, now', hist', snaps, lost, i)
    {
      if i > 0 { assert LinkAt(m, now, hist, snaps, lost, i); }
    }
  }

  lemma TouchStep(m: nat, now: seq<nat>, now': seq<nat>, before: seq<nat>, gone: set<int>, r: Record, r': Record)
    requires m > 0 && StepIs(m, now, before, gone, r) && Remembers(m, before, r) && r'.history == r.history
    requires |now'| == |now| && forall s :: 0 <= s < |now| && !HasLocal(r', s) ==> now'[s] == now[s]
    ensures StepIs(m, now', before, gone, r') && Remembers(m, before, r')
  {
    hide SlotIs;
  }

  /** A prediction changes at most the slot of its address: by clearing it. */
  lemma PredictionStep(m: nat, now: seq<nat>, now': seq<nat>, slot: nat, r: Record)
    requires m > 0 && slot < |now| && (r.history.local.Some? ==> r.history.local.value.0 == slot)
    requires now' == if r.cleared then now[slot := Clear(now[slot] % m)] else now
    ensures StepIs(m, now', now, if r.cleared && r.history.local.None? then {slot} else {}, r)
  {
    hide Clear;
    forall s | 0 <= s < |now| && !HasLocal(r, s)
      ensures SlotIs(m, now'[s], now[s], s in if r.cleared && r.history.local.None? then {slot} else {})
    {
      ModTwice(now[s], m);
    }
  }

  // ----- Which bits are lost -----

  /** What happens to the records: one is made, the newest is found to be mispredicted, the
      newest is undone.  Commits take records away at the other end and are no moves. */
  datatype Move = Made(record: Record) | Amended(taken: bool) | Unmade

  ghost function Moved(st: seq<Record>, move: Move): seq<Record> {
    match move
    case Made(r) => [r] + st
    case Amended(t) => if st == [] then [] else [st[0].(predTaken := t, corrected := true)] + st[1..]
    case Unmade => if st == [] then [] else st[1..]
  }

  /** The records that have not been undone, committed ones included, newest first. */
  ghost function StackOf(moves: seq<Move>): seq<Record> {
    if moves == [] then [] else Moved(StackOf(moves[..|moves| - 1]), moves[|moves| - 1])
  }

  function Slot(r: Record, tableBits: nat): nat { Word(r.addr) % Exp2(tableBits) }

  /** A direct jump without a target: it clears the last bit of a slot it does not remember. */
  predicate Jumps(r: Record) { r.cleared && r.history.local.None? }

  ghost function LossOf(r: Record, tableBits: nat): set<int> {
    if Jumps(r) then {Slot(r, tableBits)} else {}
  }

  ghost function MovedLost(lost: seq<set<int>>, st: seq<Record>, move: Move, tableBits: nat): (lost': seq<set<int>>)
    requires |lost| == |st|
    ensures |lost'| == |Moved(st, move)|
  {
    match move
    case Made(r) => [LossOf(r, tableBits)] + lost
    case Amended(_) => lost
    case Unmade => if lost == [] then [] else LostBelow(lost, st[0])
  }

  /** For each of them the slots that have lost a bit for good while it was the newest. */
  ghost function LostOf(moves: seq<Move>, tableBits: nat): (lost: seq<set<int>>)
    ensures |lost| == |StackOf(moves)|
  {
    if moves == [] then [] else
      var init := moves[..|moves| - 1];
      MovedLost(LostOf(init, tableBits), StackOf(init), moves[|moves| - 1], tableBits)
  }

  lemma Step(moves: seq<Move>, tableBits: nat)
    requires moves != []
    ensures var init, move := moves[..|moves| - 1], moves[|moves| - 1];
            && StackOf(moves) == Moved(StackOf(init), move)
            && LostOf(moves, tableBits) == MovedLost(LostOf(init, tableBits), StackOf(init), move, tableBits)
  {
  }

  /** The slots with a bit less once the newest `k` records are undone. */
  ghost function GoneOf(lost: seq<set<int>>, hist: seq<Record>, k: nat): set<int>
    requires k <= |hist| && k <= |lost|
  {
    if k == 0 then {} else Gone(lost[k - 1] + GoneOf(lost, hist, k - 1), hist[k - 1])
  }

  /** None of the newest `k` records remembers the slot. */
  ghost predicate Forgotten(hist: seq<Record>, k: nat, s: int)
    requires k <= |hist|
  {
    forall j :: 0 <= j < k ==> !HasLocal(hist[j], s)
  }

  /** At move `p` a jump cleared slot `s`, all records but the `base` oldest ones have been
      there or came since, and none of those there remembered the slot. */
  ghost predicate LosesAt(moves: seq<Move>, tableBits: nat, base: nat, s: int, p: nat)
    requires p < |moves|
  {
    && moves[p].Made? && s in LossOf(moves[p].record, tableBits)
    && base <= |StackOf(moves[..p])| && Forgotten(StackOf(moves[..p]), |StackOf(moves[..p])| - base, s)
    && forall q :: p < q <= |moves| ==> base < |StackOf(moves[..q])|
  }

  ghost predicate LostSince(moves: seq<Move>, tableBits: nat, base: nat, s: int) {
    exists p: nat :: p < |moves| && LosesAt(moves, tableBits, base, s, p)
  }

  lemma {:induction false} GoneMore(lost: seq<set<int>>, hist: seq<Record>, loss: set<int>, r: Record, k: nat, s: int)
    requires k <= |hist| && k <= |lost|
    ensures s in GoneOf([loss] + lost, [r] + hist, k + 1) <==>
            (s in loss && Forgotten([r] + hist, k + 1, s)) || s in GoneOf(lost, hist, k)
    decreases k
  {
    var lost', hist' := [loss] + lost, [r] + hist;
    if k == 0 {
      assert GoneOf(lost', hist', 0) == {};
      assert GoneOf(lost', hist', 1) == Gone(loss, r);
    } else {
      GoneMore(lost, hist, loss, r, k - 1, s);
      assert lost'[k] == lost[k - 1] && hist'[k] == hist[k - 1];
    }
  }

  lemma {:induction false} GoneLess(lost: seq<set<int>>, hist: seq<Record>, k: nat)
    requires 1 <= k < |hist| == |lost|
    ensures |LostBelow(lost, hist[0])| == |hist| - 1
    ensures GoneOf(LostBelow(lost, hist[0]), hist[1..], k) == GoneOf(lost, hist, k + 1)
    decreases k
  {
    var lost', hist' := LostBelow(lost, hist[0]), hist[1..];
    assert hist'[k - 1] == hist[k];
    if k == 1 {
      assert GoneOf(lost', hist', 0) == {};
      assert GoneOf(lost, hist, 1) == Gone(lost[0] + GoneOf(lost, hist, 0), hist[0]) == Gone(lost[0], hist[0]);
      assert lost'[0] + {} == lost[1] + GoneOf(lost, hist, 1);
    } else {
      GoneLess(lost, hist, k - 1);
      assert lost'[k - 1] == lost[k];
    }
  }

  /** Record by record: a bit that was lost while record `i` was the newest is gone unless one
      of the records from there on remembers the slot. */
  lemma {:induction false} GoneIff(lost: seq<set<int>>, hist: seq<Record>, k: nat, s: int)
    requires k <= |hist| && k <= |lost|
    ensures s in GoneOf(lost, hist, k) <==>
            exists i :: 0 <= i < k && s in lost[i] && forall j :: i <= j < k ==> !HasLocal(hist[j], s)
    decreases k
  {
    if k > 0 {
      GoneIff(lost, hist, k - 1, s);
      if s in GoneOf(lost, hist, k) && s in lost[k - 1] {
        assert forall j :: k - 1 <= j < k ==> !HasLocal(hist[j], s);
      }
    }
  }

  /** Only what the records remember counts. */
  lemma {:induction false} GoneSame(lost: seq<set<int>>, lost': seq<set<int>>, hist: seq<Record>, hist': seq<Record>,
                                    k: nat)
    requires k <= |hist| && k <= |lost| && k <= |hist'| && k <= |lost'|
    requires forall i :: 0 <= i < k ==> lost[i] == lost'[i] && hist[i].history == hist'[i].history
    ensures GoneOf(lost, hist, k) == GoneOf(lost', hist', k)
    decreases k
  {
    if k > 0 { GoneSame(lost, lost', hist, hist', k - 1); }
  }

  /** The last move makes a jump that clears the slot. */
  ghost predicate LosesLast(moves: seq<Move>, tableBits: nat, base: nat, s: int)
    requires moves != []
  {
    var st := StackOf(moves[..|moves| - 1]);
    && moves[|moves| - 1].Made? && s in LossOf(moves[|moves| - 1].record, tableBits)
    && base <= |st| && Forgotten(st, |st| - base, s)
  }

  lemma LosesEarlier(moves: seq<Move>, tableBits: nat, base: nat, s: int, p: nat)
    requires p < |moves| - 1
    ensures LosesAt(moves, tableBits, base, s, p) <==>
            LosesAt(moves[..|moves| - 1], tableBits, base, s, p) && base < |StackOf(moves)|
  {
    hide StackOf, Forgotten, LossOf;
    var init := moves[..|moves| - 1];
    assert moves[..|moves|] == moves && init[..p] == moves[..p];
    assert forall q :: p < q <= |init| ==> init[..q] == moves[..q];
  }

  lemma LostStep(moves: seq<Move>, tableBits: nat, base: nat, s: int)
    requires moves != []
    ensures LostSince(moves, tableBits, base, s) <==>
            && base < |StackOf(moves)|
            && (LostSince(moves[..|moves| - 1], tableBits, base, s) || LosesLast(moves, tableBits, base, s))
  {
    hide StackOf, Forgotten, LossOf;
    var n := |moves| - 1;
    var init := moves[..n];
    assert moves[..|moves|] == moves;
    forall p: nat | p < n
      ensures LosesAt(moves, tableBits, base, s, p) <==> LosesAt(init, tableBits, base, s, p) && base < |StackOf(moves)|
    {
      LosesEarlier(moves, tableBits, base, s, p);
    }
    assert LosesAt(moves, tableBits, base, s, n) <==>
           LosesLast(moves, tableBits, base, s) && base < |StackOf(moves)|;
  }

  /** The exact condition: undoing the newest `k` records leaves slot `s` without its last
      bit if and only if a jump without a target cleared it since the oldest of them was
      made, at a moment when none of them remembered the slot. */
  lemma {:induction false} LostIff(moves: seq<Move>, tableBits: nat, k: nat, s: int)
    requires k <= |StackOf(moves)|
    ensures s in GoneOf(LostOf(moves, tableBits), StackOf(moves), k) <==>
            LostSince(moves, tableBits, |StackOf(moves)| - k, s)
    decreases |moves|
  {
    hide *;
    if k > 0 {
      NotEmpty(moves);
      var n := |moves| - 1;
      var init := moves[..n];
      LostStep(moves, tableBits, |StackOf(moves)| - k, s);
      match moves[n] {
        case Made(r) =>
          MadeCase(moves, tableBits, k, s);
          LostIff(init, tableBits, k - 1, s);
        case Amended(_) =>
          AmendedCase(moves, tableBits, k, s);
          LostIff(init, tableBits, k, s);
        case Unmade =>
          UnmadeCase(moves, tableBits, k, s);
          LostIff(init, tableBits, k + 1, s);
      }
    } else {
      EmptyLoses(moves, tableBits, s);
    }
  }

  lemma NotEmpty(moves: seq<Move>)
    ensures StackOf(moves) != [] ==> moves != []
  {
  }

  lemma MadeCase(moves: seq<Move>, tableBits: nat, k: nat, s: int)
    requires moves != [] && moves[|moves| - 1].Made? && 1 <= k <= |StackOf(moves)|
    ensures var init := moves[..|moves| - 1];
            && |StackOf(moves)| == |StackOf(init)| + 1
            && (s in GoneOf(LostOf(moves, tableBits), StackOf(moves), k) <==>
                LosesLast(moves, tableBits, |StackOf(moves)| - k, s)
                || s in GoneOf(LostOf(init, tableBits), StackOf(init), k - 1))
  {
    hide GoneOf, LosesLast, LossOf, StackOf, LostOf;
    Step(moves, tableBits);
    var init, r := moves[..|moves| - 1], moves[|moves| - 1].record;
    MadeLoses(LostOf(init, tableBits), StackOf(init), moves, tableBits, r, k - 1, s);
  }

  lemma AmendedCase(moves: seq<Move>, tableBits: nat, k: nat, s: int)
    requires moves != [] && moves[|moves| - 1].Amended? && 1 <= k <= |StackOf(moves)|
    ensures var init := moves[..|moves| - 1];
            && |StackOf(moves)| == |StackOf(init)| && !LosesLast(moves, tableBits, |StackOf(moves)| - k, s)
            && GoneOf(LostOf(moves, tableBits), StackOf(moves), k) == GoneOf(LostOf(init, tableBits), StackOf(init), k)
  {
    hide GoneOf, StackOf, LostOf;
    Step(moves, tableBits);
    var init := moves[..|moves| - 1];
    GoneSame(LostOf(init, tableBits), LostOf(init, tableBits), StackOf(init), StackOf(moves), k);
  }

  lemma UnmadeCase(moves: seq<Move>, tableBits: nat, k: nat, s: int)
    requires moves != [] && moves[|moves| - 1].Unmade? && 1 <= k <= |StackOf(moves)|
    ensures var init := moves[..|moves| - 1];
            && |StackOf(moves)| == |StackOf(init)| - 1 && !LosesLast(moves, tableBits, |StackOf(moves)| - k, s)
            && GoneOf(LostOf(moves, tableBits), StackOf(moves), k)
               == GoneOf(LostOf(init, tableBits), StackOf(init), k + 1)
  {
    hide GoneOf, Gone, LostBelow, StackOf, LostOf;
    Step(moves, tableBits);
    var init := moves[..|moves| - 1];
    GoneLess(LostOf(init, tableBits), StackOf(init), k);
  }

  lemma MadeLoses(lost: seq<set<int>>, st: seq<Record>, moves: seq<Move>, tableBits: nat, r: Record, k: nat, s: int)
    requires moves != [] && moves[|moves| - 1] == Made(r) && st == StackOf(moves[..|moves| - 1])
    requires k <= |st| == |lost|
    ensures s in GoneOf([LossOf(r, tableBits)] + lost, [r] + st, k + 1) <==>
            LosesLast(moves, tableBits, |st| - k, s) || s in GoneOf(lost, st, k)
  {
    hide GoneOf, StackOf;
    GoneMore(lost, st, LossOf(r, tableBits), r, k, s);
    var st' := [r] + st;
    assert forall j :: 0 <= j < k ==> st'[j + 1] == st[j];
    if s in LossOf(r, tableBits) {
      assert !HasLocal(st'[0], s);
      if Forgotten(st, k, s) {
        forall j | 0 <= j < k + 1 ensures !HasLocal(st'[j], s) { if j > 0 { assert !HasLocal(st[j - 1], s); } }
      }
      if Forgotten(st', k + 1, s) {
        forall j | 0 <= j < k ensures !HasLocal(st[j], s) { assert !HasLocal(st'[j + 1], s); }
      }
    }
  }

  lemma EmptyLoses(moves: seq<Move>, tableBits: nat, s: int)
    ensures GoneOf(LostOf(moves, tableBits), StackOf(moves), 0) == {}
    ensures !LostSince(moves, tableBits, |StackOf(moves)|, s)
  {
    if moves != [] { LostStep(moves, tableBits, |StackOf(moves)|, s); }
  }

  /** The records in flight and their lost bits are what the moves have left, above `done`
      committed records. */
  ghost predicate Traced(moves: seq<Move>, hist: seq<Record>, done: nat, lost: seq<set<int>>, tableBits: nat) {
    && hist <= StackOf(moves) && |StackOf(moves)| == |hist| + done
    && lost <= LostOf(moves, tableBits) && |lost| == |hist|
  }

  lemma TracedMade(moves: seq<Move>, hist: seq<Record>, done: nat, lost: seq<set<int>>, tableBits: nat, r: Record)
    requires Traced(moves, hist, done, lost, tableBits)
    ensures Traced(moves + [Made(r)], [r] + hist, done, [LossOf(r, tableBits)] + lost, tableBits)
  {
    hide LossOf, StackOf, LostOf;
    assert (moves + [Made(r)])[..|moves|] == moves;
    Step(moves + [Made(r)], tableBits);
  }

  lemma TracedAmended(moves: seq<Move>, hist: seq<Record>, done: nat, lost: seq<set<int>>, tableBits: nat, taken: bool)
    requires Traced(moves, hist, done, lost, tableBits) && hist != []
    ensures Traced(moves + [Amended(taken)], [hist[0].(predTaken := taken, corrected := true)] + hist[1..], done, lost,
                   tableBits)
  {
    hide LossOf, StackOf, LostOf;
    assert (moves + [Amended(taken)])[..|moves|] == moves;
    Step(moves + [Amended(taken)], tableBits);
    assert hist[0] == StackOf(moves)[0];
  }

  lemma TracedUnmade(moves: seq<Move>, hist: seq<Record>, done: nat, lost: seq<set<int>>, tableBits: nat)
    requires Traced(moves, hist, done, lost, tableBits) && hist != []
    ensures Traced(moves + [Unmade], hist[1..], done, LostBelow(lost, hist[0]), tableBits)
  {
    hide LossOf, StackOf, LostOf, Gone;
    assert (moves + [Unmade])[..|moves|] == moves;
    Step(moves + [Unmade], tableBits);
    assert hist[0] == StackOf(moves)[0] && lost[0] == LostOf(moves, tableBits)[0];
    if |hist| > 1 { assert lost[1] == LostOf(moves, tableBits)[1]; }
  }

  lemma TracedDone(moves: seq<Move>, hist: seq<Record>, done: nat, lost: seq<set<int>>, tableBits: nat)
    requires Traced(moves, hist, done, lost, tableBits) && hist != []
    ensures Traced(moves, hist[..|hist| - 1], done + 1, lost[..|hist| - 1], tableBits)
  {
    hide StackOf, LostOf;
  }

  /** Undoing `k` records one by one, as seen from before it. */
  ghost predicate SameGone(lost0: seq<set<int>>, hist0: seq<Record>, lost: seq<set<int>>, hist: seq<Record>, k: nat) {
    && |lost| == |hist| && |lost0| == |hist0| == |hist| + k
    && forall j :: 1 <= j <= |hist| ==> GoneOf(lost, hist, j) == GoneOf(lost0, hist0, k + j)
  }

  lemma SameGoneStep(lost0: seq<set<int>>, hist0: seq<Record>, lost: seq<set<int>>, hist: seq<Record>, k: nat)
    requires SameGone(lost0, hist0, lost, hist, k) && hist != []
    ensures Gone(lost[0], hist[0]) == GoneOf(lost0, hist0, k + 1)
    ensures SameGone(lost0, hist0, LostBelow(lost, hist[0]), hist[1..], k + 1)
  {
    assert GoneOf(lost, hist, 0) == {} && lost[0] + {} == lost[0];
    assert GoneOf(lost, hist, 1) == Gone(lost[0], hist[0]);
    hide GoneOf, Gone;
    forall j | 1 <= j < |hist|
      ensures GoneOf(LostBelow(lost, hist[0]), hist[1..], j) == GoneOf(lost0, hist0, k + 1 + j)
    {
      GoneLess(lost, hist, j);
      assert GoneOf(lost, hist, j + 1) == GoneOf(lost0, hist0, k + (j + 1));
    }
  }

  lemma SameGoneStart(lost: seq<set<int>>, hist: seq<Record>)
    requires |lost| == |hist|
    ensures SameGone(lost, hist, lost, hist, 0) && GoneOf(lost, hist, 0) == {}
  {
  }

  lemma TracedGone(moves: seq<Move>, hist: seq<Record>, done: nat, lost: seq<set<int>>, tableBits: nat, k: nat, s: int)
    requires Traced(moves, hist, done, lost, tableBits) && k <= |hist|
    ensures s in GoneOf(lost, hist, k) <==> LostSince(moves, tableBits, |hist| - k + done, s)
  {
    hide GoneOf, LostSince, StackOf, LostOf;
    GoneSame(lost, LostOf(moves, tableBits), hist, StackOf(moves), k);
    LostIff(moves, tableBits, k, s);
  }

  /** Slot by slot: what was lost since, and when the slot differs from what it was `before`
      in the bits it stands for. */
  ghost predicate BackButLosses(m: nat, now: seq<nat>, before: seq<nat>, moves: seq<Move>, tableBits: nat, base: nat)
    requires m > 0
  {
    && |now| == |before|
    && forall s :: 0 <= s < |now| ==>
         && SlotIs(m, now[s], before[s], LostSince(moves, tableBits, base, s))
         && (now[s] % m != before[s] % m <==> LostSince(moves, tableBits, base, s) && before[s] % m % 2 == 1)
  }

  lemma BackIff(m: nat, now: seq<nat>, before: seq<nat>, gone: set<int>, moves: seq<Move>, tableBits: nat, base: nat)
    requires m > 0 && Restored(m, now, before, gone)
    requires forall s :: s in gone <==> LostSince(moves, tableBits, base, s)
    ensures BackButLosses(m, now, before, moves, tableBits, base)
  {
    hide LostSince, SlotIs;
    forall s | 0 <= s < |now|
      ensures now[s] % m != before[s] % m <==> s in gone && before[s] % m % 2 == 1
    {
      SlotDiffersIff(m, now[s], before[s], s in gone);
    }
  }

  /** What a restored slot holds differs from its old value exactly if its last bit is gone
      and was set. */
  lemma SlotDiffersIff(m: nat, now: nat, before: nat, gone: bool)
    requires m > 0 && SlotIs(m, now, before, gone)
    ensures now % m != before % m <==> gone && before % m % 2 == 1
  {
  }
}
