/** The packing search of `Puzzle.c`: `Fit`, `Place`, `Remove` and the recursive `Trial`
    on one occupancy array and one table of remaining counts. */
module Puzzle {
  import opened Tiling

  /** Scanning the offsets below `k` of a piece placed at `j` meets a cell that is not an
      inner one. */
  ghost predicate Stops(piece: Piece, inner: set<int>, j: int, k: int) {
    exists k' :: k' in piece.cells && 0 <= k' < k && j + k' !in inner
  }

  /** No scan of a piece placed on an inner cell leaves the board before it stops. */
  ghost predicate Guarded(pieces: seq<Piece>, inner: set<int>, size: nat) {
    forall i, j, k :: 0 <= i < |pieces| && j in inner && k in pieces[i].cells ==>
      j + k <= size || Stops(pieces[i], inner, j, k)
  }

  class Board {
    const size: nat
    const typemax: nat
    const puzzl: array<bool>
    const p: array2<bool>
    const group: array<int>
    const piecemax: array<int>
    const piececount: array<int>
    var kount: nat
    /** The shapes the tables `p`, `piecemax` and `group` describe. */
    ghost var pieces: seq<Piece>
    /** The cells that are ever free; the rest is border. */
    ghost const inner: set<int>

    constructor (size: nat, typemax: nat, classmax: nat, ghost inner: set<int>)
      ensures this.size == size && this.typemax == typemax && this.inner == inner
      ensures Shaped() && piececount.Length == classmax + 1
      ensures fresh(puzzl) && fresh(p) && fresh(group) && fresh(piecemax) && fresh(piececount)
    {
      this.size, this.typemax, this.inner := size, typemax, inner;
      puzzl := new bool[size + 1];
      p := new bool[typemax + 1, size + 1];
      group := new int[typemax + 1];
      piecemax := new int[typemax + 1];
      piececount := new int[classmax + 1];
      kount := 0;
    }

    ghost predicate Shaped() {
      && puzzl.Length == size + 1
      && p.Length0 == group.Length == piecemax.Length == typemax + 1
      && p.Length1 == size + 1
      && group != piececount && piecemax != piececount && group != piecemax
    }

    ghost predicate Tables()
      requires Shaped()
      reads this`pieces, p, group, piecemax
    {
      && |pieces| == typemax + 1
      && (forall i :: 0 <= i <= typemax ==> 0 <= piecemax[i] <= size)
      && (forall i :: 0 <= i <= typemax ==> pieces[i].group == group[i])
      && (forall i, k :: 0 <= i <= typemax ==>
           (k in pieces[i].cells <==> 0 <= k <= piecemax[i] && p[i, k]))
    }

    ghost function Free(): set<int>
      reads puzzl
    {
      set c | 0 <= c < puzzl.Length && !puzzl[c]
    }

    ghost predicate Valid()
      reads this`pieces, puzzl, p, group, piecemax, piececount
    {
      && Shaped() && Tables()
      && ValidPieces(pieces, piececount[..])
      && Guarded(pieces, inner, size)
      && Free() <= inner && forall c :: c in inner ==> 0 < c <= size
    }

    /** Whether piece `i` fits at `j`.  Every cell looked at lies on the board. */
    method Fit(i: nat, j: nat) returns (fits: bool)
      requires Valid() && i <= typemax && j <= size
      ensures fits <==> Tile(pieces[i], j) <= Free()
    {
      hide Tile;
      for k := 0 to piecemax[i] + 1
        invariant forall k' :: k' in pieces[i].cells && k' < k ==> j + k' <= size && !puzzl[j + k']
      {
        if p[i, k] {
          assert k > 0 ==> !puzzl[j + 0];
          assert !Stops(pieces[i], inner, j, k);
          if puzzl[j + k] {
            TileMember(pieces[i], j, j + k);
            return false;
          }
        }
      }
      forall c | c in Tile(pieces[i], j)
        ensures c in Free()
      {
        TileMember(pieces[i], j, c);
      }
      return true;
    }

    /** Occupy the cells of piece `i` placed at `j`, take it from the supply, and return the
        first free cell from `j` on, or 0 if there is none. */
    method Place(i: nat, j: nat) returns (next: nat)
      requires Valid() && i <= typemax && j <= size && Tile(pieces[i], j) <= Free()
      requires piececount[group[i]] > 0
      modifies puzzl, piececount
      ensures Valid()
      ensures Free() == old(Free()) - Tile(pieces[i], j)
      ensures piececount[..] == TakeOne(old(piececount[..]), pieces[i].group)
      ensures next == 0 ==> forall c :: c in Free() ==> c < j
      ensures next != 0 ==> j <= next && next in Free() && forall c :: c in Free() ==> c < j || next <= c
      ensures next <= size && (old(Lowest(Free(), j)) ==> if next == 0 then Free() == {} else Lowest(Free(), next))
    {
      hide Tile;
      for k := 0 to piecemax[i] + 1
        invariant piececount[..] == old(piececount[..])
        invariant forall c :: 0 <= c <= size ==>
                    puzzl[c] == (old(puzzl[c]) || (c - j < k && c - j in pieces[i].cells))
      {
        TileMember(pieces[i], j, j + k);
        if p[i, k] { puzzl[j + k] := true; }
      }
      piececount[group[i]] := piececount[group[i]] - 1;
      assert Free() == old(Free()) - Tile(pieces[i], j) by {
        forall c ensures c in Free() <==> c in old(Free()) && c !in Tile(pieces[i], j) { TileMember(pieces[i], j, c); }
      }
      next := NextFree(j);
    }

    method NextFree(j: nat) returns (next: nat)
      requires Shaped() && j <= size && 0 !in Free()
      ensures next == 0 ==> forall c :: c in Free() ==> c < j
      ensures next != 0 ==> j <= next && next in Free() && forall c :: c in Free() ==> c < j || next <= c
    {
      for k := j to size + 1
        invariant forall c :: j <= c < k ==> puzzl[c]
      {
        if !puzzl[k] { return k; }
      }
      return 0;
    }

    /** Free the cells of piece `i` placed at `j` and return it to the supply. */
    method Remove(i: nat, j: nat, ghost free: set<int>, ghost count: seq<int>)
      requires Valid() && i <= typemax && j <= size
      requires Tile(pieces[i], j) <= free <= inner && Free() == free - Tile(pieces[i], j)
      requires ValidPieces(pieces, count) && piececount[..] == TakeOne(count, pieces[i].group)
      modifies puzzl, piececount
      ensures Valid() && Free() == free
      ensures piececount[..] == count
    {
      hide Tile;
      for k := 0 to piecemax[i] + 1
        invariant piececount[..] == old(piececount[..])
        invariant forall c :: 0 <= c <= size ==>
                    puzzl[c] == (old(puzzl[c]) && !(c - j < k && c - j in pieces[i].cells))
      {
        TileMember(pieces[i], j, j + k);
        if p[i, k] { puzzl[j + k] := false; }
      }
      piececount[group[i]] := piececount[group[i]] + 1;
      assert Free() == free by {
        forall c ensures c in Free() <==> c in free {
          TileMember(pieces[i], j, c);
          assert c in old(Free()) <==> c in free && c !in Tile(pieces[i], j);
        }
      }
    }

    /** A piece that fits: place it, search on, and
        take it back if that fails. */
    method Attempt(i: nat, j: nat) returns (found: bool, ghost ps: seq<Placement>)
      requires Valid() && i <= typemax && j <= size && Lowest(Free(), j)
      requires piececount[group[i]] > 0 && Tile(pieces[i], j) <= Free()
      modifies puzzl, piececount, this`kount
      ensures Valid() && kount > old(kount)
      ensures found <==>
                Tileable(pieces, old(Free()) - Tile(pieces[i], j), TakeOne(old(piececount[..]), pieces[i].group))
      ensures found ==> Free() == {} && IsTiling(pieces, ps, old(Free()), old(piececount[..]))
      ensures found ==> Spent(pieces, ps, old(piececount[..]), piececount[..])
      ensures !found ==> Free() == old(Free()) && piececount[..] == old(piececount[..])
      decreases |Free()|, 0
    {
      ghost var free, count := Free(), piececount[..];
      assert i < |pieces| && 0 in pieces[i].cells && ValidPieces(pieces, count) && free <= inner;
      hide *;
      PlacingShrinks(free, pieces[i], j);
      var k := Place(i, j);
      assert ValidPieces(pieces, piececount[..]) by { ValidSupply(); }
      EmptyTiling(pieces, piececount[..]);
      found, ps := Trial(k);
      if found || k == 0 {
        if !found { ps := []; }
        SpendOne(pieces, ps, free, count, Placement(i, j), piececount[..]);
        ps := [Placement(i, j)] + ps;
        found := true;
      } else {
        Remove(i, j, free, count);
      }
    }

    lemma ValidSupply()
      requires Valid()
      ensures ValidPieces(pieces, piececount[..]) && |pieces| == typemax + 1
    {
    }

    /** One turn of the search loop: it succeeds exactly when piece `i` at `j` works out. */
    method Try(i: nat, j: nat) returns (found: bool, ghost ps: seq<Placement>)
      requires Valid() && i <= typemax && j <= size && (Lowest(Free(), j) || Free() == {})
      modifies puzzl, piececount, this`kount
      ensures Valid() && kount >= old(kount)
      ensures found <==> Works(pieces, old(Free()), old(piececount[..]), i, j)
      ensures found ==> Free() == {} && IsTiling(pieces, ps, old(Free()), old(piececount[..]))
      ensures found ==> Spent(pieces, ps, old(piececount[..]), piececount[..])
      ensures !found ==> Free() == old(Free()) && piececount[..] == old(piececount[..])
      decreases |Free()|, 1
    {
      assert 0 in pieces[i].cells && pieces[i].group == group[i] && piececount[..][group[i]] == piececount[group[i]];
      hide Tile, IsTiling, Tileable, Guarded, Spent, Tables;
      found, ps := false, [];
      if piececount[group[i]] != 0 {
        var fits := Fit(i, j);
        if fits {
          TileMember(pieces[i], j, j);
          found, ps := Attempt(i, j);
        }
      }
    }

    /** The free cells determine the board. */
    twostate lemma SameBoard()
      requires Free() == old(Free())
      ensures puzzl[..] == old(puzzl[..])
    {
      forall c | 0 <= c < puzzl.Length ensures puzzl[c] == old(puzzl[c]) {
        assert c in Free() <==> !puzzl[c];
        assert c in old(Free()) <==> !old(puzzl[c]);
      }
    }

    /** The search.  On a board whose lowest free cell is `j` it succeeds exactly when the
        free cells can be tiled with the pieces in supply; success leaves the board full and
        the supply less the pieces of a tiling, failure leaves both as they were.  A full
        board, which is searched from cell 0, always fails. */
    method Trial(j: nat) returns (found: bool, ghost ps: seq<Placement>)
      requires Valid() && j <= size
      requires Lowest(Free(), j) || (Free() == {} && j == 0)
      modifies puzzl, piececount, this`kount
      ensures Valid() && kount > old(kount)
      ensures old(Free()) == {} ==> !found
      ensures old(Free()) != {} ==> (found <==> Tileable(pieces, old(Free()), old(piececount[..])))
      ensures found ==> Free() == {} && IsTiling(pieces, ps, old(Free()), old(piececount[..]))
      ensures found ==> Spent(pieces, ps, old(piececount[..]), piececount[..])
      ensures !found ==> puzzl[..] == old(puzzl[..]) && piececount[..] == old(piececount[..])
      ensures !found ==> Free() == old(Free())
      decreases |Free()|, 2
    {
      hide *;
      kount := kount + 1;
      ghost var free, count := Free(), piececount[..];
      ValidSupply();
      SomethingWorks(j);
      for i := 0 to typemax + 1
        invariant Valid() && Free() == free && piececount[..] == count && kount > old(kount)
        invariant forall i' :: 0 <= i' < i ==> !Works(pieces, free, count, i', j)
      {
        found, ps := Try(i, j);
        if found { return; }
      }
      SameBoard();
      return false, [];
    }

    /** The free cells can be tiled exactly when some piece works out at the lowest of them;
        on a full board none does. */
    lemma SomethingWorks(j: nat)
      requires Valid() && (Lowest(Free(), j) || Free() == {})
      ensures (exists i :: 0 <= i <= typemax && Works(pieces, Free(), piececount[..], i, j)) <==>
              Free() != {} && Tileable(pieces, Free(), piececount[..])
    {
      hide Tile, Tileable, Guarded;
      if Free() == {} {
        forall i | 0 <= i <= typemax ensures j in Tile(pieces[i], j) { TileMember(pieces[i], j, j); }
      } else {
        TileableFromLowest(pieces, Free(), piececount[..], j);
      }
    }
  }
}
