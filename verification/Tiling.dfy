/** Exact tilings of a set of cells by translates of piece shapes, each class of pieces
    in limited supply: what `Trial` of `Puzzle.c` searches for. */
module Tiling {

  /** A shape is a set of offsets that contains 0 and no negative offset. */
  datatype Piece = Piece(cells: set<int>, group: nat)

  datatype Placement = Placement(kind: nat, at: int)

  ghost predicate ValidPieces(pieces: seq<Piece>, count: seq<int>) {
    && (forall i :: 0 <= i < |pieces| ==> 0 in pieces[i].cells && pieces[i].group < |count|)
    && (forall i, k :: 0 <= i < |pieces| && k in pieces[i].cells ==> k >= 0)
    && (forall c :: 0 <= c < |count| ==> count[c] >= 0)
  }

  /** The cells covered by piece `i` placed at `j`. */
  ghost function Tile(piece: Piece, j: int): set<int> {
    set k | k in piece.cells :: j + k
  }

  lemma TileMember(piece: Piece, j: int, c: int)
    ensures c in Tile(piece, j) <==> c - j in piece.cells
  {
    if c - j in piece.cells { assert j + (c - j) in Tile(piece, j); }
  }

  ghost predicate ValidPlacements(pieces: seq<Piece>, ps: seq<Placement>) {
    forall a :: 0 <= a < |ps| ==> ps[a].kind < |pieces|
  }

  ghost function Covered(pieces: seq<Piece>, p: Placement): set<int>
    requires p.kind < |pieces|
  {
    Tile(pieces[p.kind], p.at)
  }

  /** The number of placed pieces of a class. */
  ghost function Used(pieces: seq<Piece>, ps: seq<Placement>, group: nat): nat
    requires ValidPlacements(pieces, ps)
  {
    if ps == [] then 0
    else (if pieces[ps[0].kind].group == group then 1 else 0) + Used(pieces, ps[1..], group)
  }

  ghost predicate Disjoint(pieces: seq<Piece>, ps: seq<Placement>)
    requires ValidPlacements(pieces, ps)
  {
    forall a, b :: 0 <= a < b < |ps| ==> Covered(pieces, ps[a]) !! Covered(pieces, ps[b])
  }

  ghost predicate Fills(pieces: seq<Piece>, ps: seq<Placement>, free: set<int>)
    requires ValidPlacements(pieces, ps)
  {
    && (forall a :: 0 <= a < |ps| ==> Covered(pieces, ps[a]) <= free)
    && (forall c :: c in free ==> exists a :: 0 <= a < |ps| && c in Covered(pieces, ps[a]))
  }

  ghost predicate InSupply(pieces: seq<Piece>, ps: seq<Placement>, count: seq<int>)
    requires ValidPlacements(pieces, ps)
  {
    forall c :: 0 <= c < |count| ==> Used(pieces, ps, c) <= count[c]
  }

  ghost predicate IsTiling(pieces: seq<Piece>, ps: seq<Placement>, free: set<int>, count: seq<int>) {
    && ValidPlacements(pieces, ps)
    && Disjoint(pieces, ps) && Fills(pieces, ps, free) && InSupply(pieces, ps, count)
  }

  ghost predicate Tileable(pieces: seq<Piece>, free: set<int>, count: seq<int>) {
    exists ps :: IsTiling(pieces, ps, free, count)
  }

  ghost predicate Lowest(free: set<int>, j: int) {
    j in free && forall c :: c in free ==> j <= c
  }

  lemma LowestIsFree(free: set<int>, j: int)
    requires Lowest(free, j)
    ensures j in free
  {
  }

  ghost function TakeOne(count: seq<int>, group: nat): seq<int>
    requires group < |count|
  {
    count[group := count[group] - 1]
  }

  // ----- Adding and removing one piece -----

  lemma {:induction false} UsedConcat(pieces: seq<Piece>, ps: seq<Placement>, qs: seq<Placement>, group: nat)
    requires ValidPlacements(pieces, ps) && ValidPlacements(pieces, qs)
    ensures ValidPlacements(pieces, ps + qs)
    ensures Used(pieces, ps + qs, group) == Used(pieces, ps, group) + Used(pieces, qs, group)
    decreases |ps|
  {
    if ps == [] {
      assert ps + qs == qs;
    } else {
      assert (ps + qs)[1..] == ps[1..] + qs;
      UsedConcat(pieces, ps[1..], qs, group);
    }
  }

  lemma UsedWithout(pieces: seq<Piece>, ps: seq<Placement>, a: nat, group: nat)
    requires ValidPlacements(pieces, ps) && a < |ps|
    ensures ValidPlacements(pieces, ps[..a] + ps[a + 1..])
    ensures Used(pieces, ps, group) ==
            Used(pieces, ps[..a] + ps[a + 1..], group) + if pieces[ps[a].kind].group == group then 1 else 0
  {
    UsedConcat(pieces, ps[..a], ps[a + 1..], group);
    UsedConcat(pieces, ps[..a], ps[a..], group);
    assert ps == ps[..a] + ps[a..];
  }

  /** The piece covering the lowest free cell is placed exactly there. */
  lemma CoversLowest(pieces: seq<Piece>, ps: seq<Placement>, free: set<int>, count: seq<int>, j: int) returns (a: nat)
    requires ValidPieces(pieces, count) && IsTiling(pieces, ps, free, count) && Lowest(free, j)
    ensures a < |ps| && ps[a].at == j
  {
    hide Tile, Disjoint, InSupply;
    a :| 0 <= a < |ps| && j in Covered(pieces, ps[a]);
    TileMember(pieces[ps[a].kind], ps[a].at, j);
    TileMember(pieces[ps[a].kind], ps[a].at, ps[a].at);
  }

  lemma RemoveFills(pieces: seq<Piece>, ps: seq<Placement>, free: set<int>, a: nat)
    requires ValidPlacements(pieces, ps) && Disjoint(pieces, ps) && Fills(pieces, ps, free) && a < |ps|
    ensures ValidPlacements(pieces, ps[..a] + ps[a + 1..])
    ensures Fills(pieces, ps[..a] + ps[a + 1..], free - Covered(pieces, ps[a]))
  {
    hide Tile;
    var qs := ps[..a] + ps[a + 1..];
    forall b | 0 <= b < |qs|
      ensures Covered(pieces, qs[b]) <= free - Covered(pieces, ps[a])
    {
      var b' := if b < a then b else b + 1;
      assert qs[b] == ps[b'];
    }
    forall c | c in free - Covered(pieces, ps[a])
      ensures exists b :: 0 <= b < |qs| && c in Covered(pieces, qs[b])
    {
      var b' :| 0 <= b' < |ps| && c in Covered(pieces, ps[b']);
      assert qs[if b' < a then b' else b' - 1] == ps[b'];
    }
  }

  lemma RemovePiece(pieces: seq<Piece>, ps: seq<Placement>, free: set<int>, count: seq<int>, a: nat)
    requires ValidPieces(pieces, count) && IsTiling(pieces, ps, free, count) && a < |ps|
    ensures ps[a].kind < |pieces|
    ensures var piece := pieces[ps[a].kind];
            && count[piece.group] > 0 && Tile(piece, ps[a].at) <= free
            && IsTiling(pieces, ps[..a] + ps[a + 1..], free - Tile(piece, ps[a].at), TakeOne(count, piece.group))
  {
    hide Tile, Used;
    var piece := pieces[ps[a].kind];
    var qs := ps[..a] + ps[a + 1..];
    RemoveFills(pieces, ps, free, a);
    hide Fills;
    UsedWithout(pieces, ps, a, piece.group);
    forall c | 0 <= c < |count|
      ensures Used(pieces, qs, c) <= TakeOne(count, piece.group)[c]
    {
      UsedWithout(pieces, ps, a, c);
    }
    assert Covered(pieces, ps[a]) <= free;
  }

  lemma AddPiece(pieces: seq<Piece>, ps: seq<Placement>, free: set<int>, count: seq<int>, p: Placement)
    requires ValidPieces(pieces, count) && p.kind < |pieces|
    requires var piece := pieces[p.kind];
             && Tile(piece, p.at) <= free
             && IsTiling(pieces, ps, free - Tile(piece, p.at), TakeOne(count, piece.group))
    ensures IsTiling(pieces, [p] + ps, free, count)
    ensures forall c :: 0 <= c < |count| ==>
              Used(pieces, [p] + ps, c) == Used(pieces, ps, c) + if pieces[p.kind].group == c then 1 else 0
  {
    hide Tile;
    var qs := [p] + ps;
    assert qs[1..] == ps;
    forall c | c in free
      ensures exists b :: 0 <= b < |qs| && c in Covered(pieces, qs[b])
    {
      if c in Covered(pieces, p) {
        assert c in Covered(pieces, qs[0]);
      } else {
        assert c in free - Tile(pieces[p.kind], p.at);
        var b :| 0 <= b < |ps| && c in Covered(pieces, ps[b]);
        assert qs[b + 1] == ps[b];
      }
    }
    forall c | 0 <= c < |count|
      ensures Used(pieces, qs, c) <= count[c]
      ensures Used(pieces, qs, c) == Used(pieces, ps, c) + if pieces[p.kind].group == c then 1 else 0
    {
      assert Used(pieces, ps, c) <= TakeOne(count, pieces[p.kind].group)[c];
    }
  }

  lemma EmptyTiling(pieces: seq<Piece>, count: seq<int>)
    requires ValidPieces(pieces, count)
    ensures IsTiling(pieces, [], {}, count) && Spent(pieces, [], count, count)
  {
  }

  /** Placing a piece on free cells leaves fewer of them. */
  lemma PlacingShrinks(free: set<int>, piece: Piece, j: int)
    requires 0 in piece.cells && Tile(piece, j) <= free
    ensures |free - Tile(piece, j)| < |free|
  {
    hide Tile;
    TileMember(piece, j, j);
    assert free == (free - Tile(piece, j)) + Tile(piece, j);
    assert j in Tile(piece, j);
  }

  /** The supply went down by exactly the pieces placed. */
  ghost predicate Spent(pieces: seq<Piece>, ps: seq<Placement>, before: seq<int>, after: seq<int>)
  {
    ValidPlacements(pieces, ps) && |after| == |before|
        && forall c :: 0 <= c < |before| ==> after[c] == before[c] - Used(pieces, ps, c)
  }

  lemma SpendOne(pieces: seq<Piece>, ps: seq<Placement>, free: set<int>, count: seq<int>, p: Placement, after: seq<int>)
    requires ValidPieces(pieces, count) && p.kind < |pieces|
    requires var piece := pieces[p.kind];
             && Tile(piece, p.at) <= free
             && IsTiling(pieces, ps, free - Tile(piece, p.at), TakeOne(count, piece.group))
             && Spent(pieces, ps, TakeOne(count, piece.group), after)
    ensures IsTiling(pieces, [p] + ps, free, count) && Spent(pieces, [p] + ps, count, after)
    ensures Tileable(pieces, free - Tile(pieces[p.kind], p.at), TakeOne(count, pieces[p.kind].group))
  {
    hide Tile, Used, Disjoint, Fills, InSupply;
    AddPiece(pieces, ps, free, count, p);
  }

  /** The search principle: a non-empty region can be tiled exactly when some piece in
      supply fits at its lowest cell and the rest can be tiled with what is left. */
  lemma TileableFromLowest(pieces: seq<Piece>, free: set<int>, count: seq<int>, j: int)
    requires ValidPieces(pieces, count) && Lowest(free, j)
    ensures Tileable(pieces, free, count) <==> exists i :: 0 <= i < |pieces| && Works(pieces, free, count, i, j)
  {
    hide Tile, IsTiling;
    if Tileable(pieces, free, count) {
      var ps: seq<Placement> :| IsTiling(pieces, ps, free, count);
      var a := CoversLowest(pieces, ps, free, count, j);
      RemovePiece(pieces, ps, free, count, a);
      assert Works(pieces, free, count, ps[a].kind, j);
    }
    if i :| 0 <= i < |pieces| && Works(pieces, free, count, i, j) {
      var ps: seq<Placement> :| IsTiling(pieces, ps, free - Tile(pieces[i], j), TakeOne(count, pieces[i].group));
      AddPiece(pieces, ps, free, count, Placement(i, j));
    }
  }

  /** Piece `i` is in supply, fits at `j`, and the rest can be tiled. */
  ghost predicate Works(pieces: seq<Piece>, free: set<int>, count: seq<int>, i: nat, j: int)
    requires ValidPieces(pieces, count) && i < |pieces|
  {
    && count[pieces[i].group] != 0 && Tile(pieces[i], j) <= free
    && Tileable(pieces, free - Tile(pieces[i], j), TakeOne(count, pieces[i].group))
  }
}
