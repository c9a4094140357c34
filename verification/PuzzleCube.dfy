/** The instance `Puzzle.c` solves: a 5x5x5 cube inside an 8x8x8 board whose border is
    occupied, and thirteen boxes in four classes. */
module PuzzleCube {
  import opened Tiling
  import opened Puzzle

  const SIZE := 511
  const TYPEMAX := 12

  /** Cell x + 8*(y + 8*z) has the coordinates x, y and z. */
  function X(c: int): int { c % 8 }
  function Y(c: int): int { c / 8 % 8 }
  function Z(c: int): int { c / 64 }

  function At(x: int, y: int, z: int): int { x + 8 * (y + 8 * z) }

  lemma Coordinates(x: int, y: int, z: int)
    requires 0 <= x < 8 && 0 <= y < 8
    ensures X(At(x, y, z)) == x && Y(At(x, y, z)) == y && Z(At(x, y, z)) == z
  {
  }

  lemma FromCoordinates(c: int)
    ensures c == At(X(c), Y(c), Z(c)) && 0 <= X(c) < 8 && 0 <= Y(c) < 8
  {
  }

  predicate InCube(c: int) { 1 <= X(c) <= 5 && 1 <= Y(c) <= 5 && 1 <= Z(c) <= 5 }

  ghost function Cube(): set<int> { set c | 0 <= c <= SIZE && InCube(c) }

  /** The offsets of a box that extends by x, y and z beyond its lowest cell. */
  predicate InBox(x: int, y: int, z: int, k: int) {
    0 <= k && X(k) <= x && Y(k) <= y && Z(k) <= z
  }

  ghost predicate IsBox(piece: Piece, x: int, y: int, z: int) {
    && 0 <= x <= 3 && 0 <= y <= 3 && 0 <= z <= 3
    && forall k :: k in piece.cells <==> InBox(x, y, z, k)
  }

  /** Offsets add coordinate by coordinate as long as x and y stay on the board. */
  lemma OffsetCoordinates(j: int, k: int)
    requires X(j) + X(k) < 8 && Y(j) + Y(k) < 8
    ensures X(j + k) == X(j) + X(k) && Y(j + k) == Y(j) + Y(k) && Z(j + k) == Z(j) + Z(k)
  {
    Coordinates(X(j) + X(k), Y(j) + Y(k), Z(j) + Z(k));
    FromCoordinates(j);
    FromCoordinates(k);
  }

  lemma Positive(x: nat, y: nat, z: nat)
    ensures At(x, y, z) >= 0
  {
  }

  /** The cell next beyond the cube, straight ahead of `j` along one axis, is an offset of
      a box that is too long for `j`, and lies outside the cube. */
  lemma SticksOut(piece: Piece, x: int, y: int, z: int, j: int) returns (k: int)
    requires IsBox(piece, x, y, z) && InCube(j)
    requires X(j) + x > 5 || Y(j) + y > 5 || Z(j) + z > 5
    ensures k in piece.cells && !InCube(j + k)
  {
    var a, b, c := 0, 0, 0;
    if X(j) + x > 5 {
      a := 6 - X(j);
    } else if Y(j) + y > 5 {
      b := 6 - Y(j);
    } else {
      c := 6 - Z(j);
    }
    k := At(a, b, c);
    Coordinates(a, b, c);
    Positive(a, b, c);
    hide At, X, Y, Z;
    OffsetCoordinates(j, k);
  }

  lemma InsideCube(x: int, y: int, z: int, j: int, k: int)
    requires InCube(j) && InBox(x, y, z, k) && X(j) + x <= 5 && Y(j) + y <= 5 && Z(j) + z <= 5
    ensures InCube(j + k) && 0 <= j + k <= SIZE
  {
    OffsetCoordinates(j, k);
    FromCoordinates(j + k);
  }

  /** Linear offsets do not wrap around: a box placed on a cube cell covers cube cells only
      exactly when it fits in the cube in all three directions. */
  lemma BoxInCube(piece: Piece, x: int, y: int, z: int, j: int)
    requires IsBox(piece, x, y, z) && InCube(j)
    ensures Tile(piece, j) <= Cube() <==> X(j) + x <= 5 && Y(j) + y <= 5 && Z(j) + z <= 5
  {
    hide Tile, InCube, InBox;
    if X(j) + x <= 5 && Y(j) + y <= 5 && Z(j) + z <= 5 {
      forall c | c in Tile(piece, j)
        ensures c in Cube()
      {
        TileMember(piece, j, c);
        InsideCube(x, y, z, j, c - j);
      }
    } else {
      var k := SticksOut(piece, x, y, z, j);
      TileMember(piece, j, j + k);
    }
  }

  /** A box placed on a cube cell meets the border before it leaves the board. */
  lemma BoxStops(piece: Piece, x: int, y: int, z: int, j: int, k: int)
    requires IsBox(piece, x, y, z) && j in Cube() && k in piece.cells && j + k > SIZE
    ensures Stops(piece, Cube(), j, k)
  {
    FromCoordinates(j);
    FromCoordinates(k);
    var k' := At(0, 0, 6 - Z(j));
    Coordinates(0, 0, 6 - Z(j));
    OffsetCoordinates(j, k');
    assert InBox(x, y, z, k');
    assert k' in piece.cells && 0 <= k' < k;
    assert j + k' !in Cube();
  }

  ghost predicate SomeBox(piece: Piece) { exists x, y, z :: IsBox(piece, x, y, z) }

  lemma BoxesGuarded(pieces: seq<Piece>)
    requires forall i :: 0 <= i < |pieces| ==> SomeBox(pieces[i])
    ensures Guarded(pieces, Cube(), SIZE)
  {
    forall i, j, k | 0 <= i < |pieces| && j in Cube() && k in pieces[i].cells && j + k > SIZE
      ensures Stops(pieces[i], Cube(), j, k)
    {
      var x, y, z :| IsBox(pieces[i], x, y, z);
      BoxStops(pieces[i], x, y, z, j, k);
    }
  }

  // ----- Set-up -----

  /** The extents and classes of the thirteen boxes, in the order they are tried. */
  datatype Shape = Shape(x: nat, y: nat, z: nat, group: nat)

  const SHAPES: seq<Shape> := [
    Shape(3, 1, 0, 0), Shape(1, 0, 3, 0), Shape(0, 3, 1, 0),
    Shape(1, 3, 0, 0), Shape(3, 0, 1, 0), Shape(0, 1, 3, 0),
    Shape(2, 0, 0, 1), Shape(0, 2, 0, 1), Shape(0, 0, 2, 1),
    Shape(1, 1, 0, 2), Shape(1, 0, 1, 2), Shape(0, 1, 1, 2),
    Shape(1, 1, 1, 3)]

  /** The extents a, b and c in some order. */
  ghost predicate Turned(s: Shape, a: nat, b: nat, c: nat) {
    || (s.x == a && ((s.y == b && s.z == c) || (s.y == c && s.z == b)))
    || (s.x == b && ((s.y == a && s.z == c) || (s.y == c && s.z == a)))
    || (s.x == c && ((s.y == a && s.z == b) || (s.y == b && s.z == a)))
  }

  /** Each class holds its box once in every orientation, and nothing else. */
  lemma ShapesAreOrientations(s: Shape)
    ensures s in SHAPES <==> || (s.group == 0 && Turned(s, 3, 1, 0)) || (s.group == 1 && Turned(s, 2, 0, 0))
                             || (s.group == 2 && Turned(s, 1, 1, 0)) || (s.group == 3 && Turned(s, 1, 1, 1))
    ensures forall i, j :: 0 <= i < j < |SHAPES| ==> SHAPES[i] != SHAPES[j]
  {
    var a, b, c := Shape(3, 1, 0, 0), Shape(1, 0, 3, 0), Shape(0, 3, 1, 0);
    assert SHAPES[0] == a && SHAPES[1] == b && SHAPES[2] == c;
  }

  ghost function BoxCells(s: Shape): set<int> { set k | 0 <= k <= SIZE && InBox(s.x, s.y, s.z, k) }

  ghost function BoxPiece(s: Shape): Piece { Piece(BoxCells(s), s.group) }

  ghost function StandardPieces(): seq<Piece> {
    seq(|SHAPES|, i requires 0 <= i < |SHAPES| => BoxPiece(SHAPES[i]))
  }

  ghost predicate IsStandardBoard(b: Board) {
    b.Shaped() && b.size == SIZE && b.typemax == TYPEMAX && b.piececount.Length == 4 && b.inner == Cube()
  }

  lemma OnBoard()
    ensures forall c :: 0 <= c <= SIZE ==> 0 <= X(c) && 0 <= Y(c) && 0 <= Z(c)
  {
  }

  lemma OnlyCell(x: int, y: int, z: int)
    requires 0 <= x < 8 && 0 <= y < 8
    ensures forall c :: X(c) == x && Y(c) == y && Z(c) == z <==> c == At(x, y, z)
  {
    Coordinates(x, y, z);
    forall c | X(c) == x && Y(c) == y && Z(c) == z ensures c == At(x, y, z) { FromCoordinates(c); }
  }

  /** Occupy the border and free the cube. */
  method ClearCube(puzzl: array<bool>)
    requires puzzl.Length == SIZE + 1
    modifies puzzl
    ensures forall c :: 0 <= c <= SIZE ==> (puzzl[c] <==> !InCube(c))
  {
    hide X, Y, Z;
    for m := 0 to SIZE + 1
      invariant forall c :: 0 <= c < m ==> puzzl[c]
    {
      puzzl[m] := true;
    }
    for i := 1 to 6
      invariant forall c :: 0 <= c <= SIZE ==> (puzzl[c] <==> !(InCube(c) && X(c) < i))
    {
      for j := 1 to 6
        invariant forall c :: 0 <= c <= SIZE ==>
                    (puzzl[c] <==> !(InCube(c) && (X(c) < i || (X(c) == i && Y(c) < j))))
      {
        for k := 1 to 6
          invariant forall c :: 0 <= c <= SIZE ==>
            (puzzl[c] <==> !(InCube(c) && (X(c) < i || (X(c) == i && (Y(c) < j || (Y(c) == j && Z(c) < k))))))
        {
          OnlyCell(i, j, k);
          puzzl[i + 8 * (j + 8 * k)] := false;
        }
      }
    }
  }

  predicate SmallShape(s: Shape) { s.x <= 3 && s.y <= 3 && s.z <= 3 }

  /** Enter the box `s` in row `t` of the shape table, which is clear. */
  method EnterBox(p: array2<bool>, t: nat, s: Shape)
    requires p.Length0 == TYPEMAX + 1 && p.Length1 == SIZE + 1 && t <= TYPEMAX && SmallShape(s)
    requires forall c :: 0 <= c <= SIZE ==> !p[t, c]
    modifies p
    ensures forall c :: 0 <= c <= SIZE ==> (p[t, c] <==> InBox(s.x, s.y, s.z, c))
    ensures forall u, c :: 0 <= u <= TYPEMAX && u != t && 0 <= c <= SIZE ==> p[u, c] == old(p[u, c])
  {
    hide X, Y, Z;
    OnBoard();
    for i := 0 to s.x + 1
      invariant forall c :: 0 <= c <= SIZE ==> (p[t, c] <==> InBox(s.x, s.y, s.z, c) && X(c) < i)
      invariant forall u, c :: 0 <= u <= TYPEMAX && u != t && 0 <= c <= SIZE ==> p[u, c] == old(p[u, c])
    {
      for j := 0 to s.y + 1
        invariant forall c :: 0 <= c <= SIZE ==>
                    (p[t, c] <==> InBox(s.x, s.y, s.z, c) && (X(c) < i || (X(c) == i && Y(c) < j)))
        invariant forall u, c :: 0 <= u <= TYPEMAX && u != t && 0 <= c <= SIZE ==> p[u, c] == old(p[u, c])
      {
        for k := 0 to s.z + 1
          invariant forall c :: 0 <= c <= SIZE ==>
            (p[t, c] <==>
             InBox(s.x, s.y, s.z, c) && (X(c) < i || (X(c) == i && (Y(c) < j || (Y(c) == j && Z(c) < k)))))
          invariant forall u, c :: 0 <= u <= TYPEMAX && u != t && 0 <= c <= SIZE ==> p[u, c] == old(p[u, c])
        {
          OnlyCell(i, j, k);
          p[t, i + 8 * (j + 8 * k)] := true;
        }
      }
    }
  }

  method ClearShapes(p: array2<bool>)
    requires p.Length0 == TYPEMAX + 1 && p.Length1 == SIZE + 1
    modifies p
    ensures forall t, c :: 0 <= t <= TYPEMAX && 0 <= c <= SIZE ==> !p[t, c]
  {
    for i := 0 to TYPEMAX + 1
      invariant forall t, c :: 0 <= t < i && 0 <= c <= SIZE ==> !p[t, c]
    {
      for m := 0 to SIZE + 1
        invariant forall t, c :: 0 <= t < i && 0 <= c <= SIZE ==> !p[t, c]
        invariant forall c :: 0 <= c < m ==> !p[i, c]
      {
        p[i, m] := false;
      }
    }
  }

  /** Row `t` of the three piece tables describes the box `s`. */
  ghost predicate RowEntered(b: Board, t: int, s: Shape)
    requires IsStandardBoard(b) && 0 <= t <= TYPEMAX
    reads b.p, b.group, b.piecemax
  {
    && b.group[t] == s.group && b.piecemax[t] == At(s.x, s.y, s.z)
    && forall c :: 0 <= c <= SIZE ==> (b.p[t, c] <==> InBox(s.x, s.y, s.z, c))
  }

  ghost predicate RowClear(b: Board, t: int)
    requires IsStandardBoard(b) && 0 <= t <= TYPEMAX
    reads b.p
  {
    forall c :: 0 <= c <= SIZE ==> !b.p[t, c]
  }

  /** The three piece tables describe the thirteen boxes. */
  ghost predicate Entered(b: Board, upto: int)
    requires IsStandardBoard(b) && 0 <= upto <= TYPEMAX + 1
    reads b.p, b.group, b.piecemax
  {
    forall t :: 0 <= t < upto ==> RowEntered(b, t, SHAPES[t])
  }

  method EnterShape(b: Board, t: nat, s: Shape)
    requires IsStandardBoard(b) && t <= TYPEMAX && RowClear(b, t) && SmallShape(s)
    modifies b.p, b.group, b.piecemax
    ensures RowEntered(b, t, s)
    ensures forall u :: 0 <= u <= TYPEMAX && u != t && old(RowClear(b, u)) ==> RowClear(b, u)
    ensures forall u, r :: 0 <= u <= TYPEMAX && u != t && old(RowEntered(b, u, r)) ==> RowEntered(b, u, r)
  {
    hide InBox;
    EnterBox(b.p, t, s);
    b.group[t] := s.group;
    b.piecemax[t] := s.x + 8 * s.y + 8 * 8 * s.z;
  }

  method EnterBoxes(b: Board)
    requires IsStandardBoard(b)
    modifies b.p, b.group, b.piecemax
    ensures Entered(b, TYPEMAX + 1)
  {
    ClearShapes(b.p);
    assert forall u :: 0 <= u <= TYPEMAX ==> RowClear(b, u);
    hide RowClear, RowEntered;
    for t := 0 to TYPEMAX + 1
      invariant Entered(b, t)
      invariant forall u :: t <= u <= TYPEMAX ==> RowClear(b, u)
    {
      var s := SHAPES[t];
      assert SmallShape(s);
      EnterShape(b, t, s);
    }
  }

  lemma StandardIsValid()
    ensures ValidPieces(StandardPieces(), [13, 3, 1, 1])
    ensures Guarded(StandardPieces(), Cube(), SIZE)
    ensures forall c :: c in Cube() ==> 0 < c <= SIZE
  {
    var pieces := StandardPieces();
    forall i | 0 <= i < |pieces|
      ensures SomeBox(pieces[i])
      ensures 0 in pieces[i].cells
    {
      BoxIsBox(SHAPES[i]);
      assert IsBox(pieces[i], SHAPES[i].x, SHAPES[i].y, SHAPES[i].z);
    }
    BoxesGuarded(pieces);
  }

  lemma BoxIsBox(s: Shape)
    requires SmallShape(s)
    ensures IsBox(BoxPiece(s), s.x, s.y, s.z) && 0 in BoxCells(s)
    ensures forall k :: k in BoxCells(s) ==> 0 <= k <= At(s.x, s.y, s.z) <= SIZE
  {
    forall k | InBox(s.x, s.y, s.z, k)
      ensures 0 <= k <= At(s.x, s.y, s.z) <= SIZE
    {
      FromCoordinates(k);
    }
  }

  lemma TablesAgree(b: Board)
    requires IsStandardBoard(b) && Entered(b, TYPEMAX + 1) && b.pieces == StandardPieces()
    ensures b.Tables()
  {
    forall t | 0 <= t <= TYPEMAX
      ensures 0 <= b.piecemax[t] <= SIZE && b.pieces[t].group == b.group[t]
      ensures forall k :: k in b.pieces[t].cells <==> 0 <= k <= b.piecemax[t] && b.p[t, k]
    {
      BoxIsBox(SHAPES[t]);
    }
  }

  /** The corner cell of the cube is its lowest, and the first box fits there. */
  lemma FirstMove()
    ensures Lowest(Cube(), At(1, 1, 1)) && Tile(BoxPiece(SHAPES[0]), At(1, 1, 1)) <= Cube()
    ensures At(5, 5, 5) in Cube() - Tile(BoxPiece(SHAPES[0]), At(1, 1, 1))
  {
    hide Tile;
    var first := At(1, 1, 1);
    Coordinates(1, 1, 1);
    Coordinates(5, 5, 5);
    forall c | c in Cube()
      ensures first <= c
    {
      FromCoordinates(c);
    }
    BoxIsBox(SHAPES[0]);
    BoxInCube(BoxPiece(SHAPES[0]), 3, 1, 0, first);
    TileMember(BoxPiece(SHAPES[0]), first, At(5, 5, 5));
  }

  /** What the search is asked: the rest of the cube once the first box lies in its corner. */
  ghost predicate CubeSolvable() {
    Tileable(StandardPieces(), Cube() - Tile(BoxPiece(SHAPES[0]), At(1, 1, 1)), [12, 3, 1, 1])
  }

  method SetUp(b: Board)
    requires IsStandardBoard(b)
    modifies b, b.puzzl, b.p, b.group, b.piecemax, b.piececount
    ensures b.Valid() && b.Free() == Cube()
    ensures b.pieces == StandardPieces() && b.piececount[..] == [13, 3, 1, 1]
  {
    ClearCube(b.puzzl);
    EnterBoxes(b);
    b.piececount[0], b.piececount[1], b.piececount[2], b.piececount[3] := 13, 3, 1, 1;
    b.kount := 0;
    b.pieces := StandardPieces();
    TablesAgree(b);
    StandardIsValid();
    assert b.piececount[..] == [13, 3, 1, 1];
  }

  /** The first move: the first box always fits in the corner, and the search goes on from
      the lowest cell left. */
  method PlaceFirst(b: Board) returns (fits: bool, n: nat)
    requires b.Valid() && IsStandardBoard(b) && b.Free() == Cube()
    requires b.pieces == StandardPieces() && b.piececount[..] == [13, 3, 1, 1]
    modifies b.puzzl, b.piececount
    ensures fits && b.Valid() && n <= SIZE && Lowest(b.Free(), n)
    ensures b.Free() == Cube() - Tile(BoxPiece(SHAPES[0]), At(1, 1, 1))
    ensures b.piececount[..] == [12, 3, 1, 1]
  {
    FirstMove();
    var m := 1 + 8 * (1 + 8 * 1);
    assert m == At(1, 1, 1) && b.pieces[0] == BoxPiece(SHAPES[0]) && b.group[0] == 0;
    assert TakeOne([13, 3, 1, 1], 0) == [12, 3, 1, 1];
    hide Tile, Guarded, ValidPieces, StandardPieces, BoxCells, InCube, Cube;
    fits := b.Fit(0, m);
    n := 0;
    if fits { n := b.Place(0, m); }
  }

  /** Search the rest. */
  method Finish(b: Board, n: nat) returns (found: bool)
    requires b.Valid() && n <= b.size && Lowest(b.Free(), n)
    modifies b, b.puzzl, b.piececount
    ensures found <==> Tileable(old(b.pieces), old(b.Free()), old(b.piececount[..]))
    ensures found ==> b.Free() == {}
  {
    LowestIsFree(b.Free(), n);
    hide *;
    ghost var ps;
    found, ps := b.Trial(n);
  }

  /** The benchmark run: it reports success exactly when the cube with the first box in its
      corner can be completed; the first box always fits. */
  method Solve(b: Board) returns (fits: bool, found: bool)
    requires IsStandardBoard(b)
    modifies b, b.puzzl, b.p, b.group, b.piecemax, b.piececount
    ensures fits && (found <==> CubeSolvable())
    ensures found ==> b.Free() == {}
  {
    hide Tile, Tileable, Guarded, ValidPieces, IsTiling, StandardPieces, BoxCells, InCube, Cube;
    SetUp(b);
    var n;
    fits, n := PlaceFirst(b);
    found := Finish(b, n);
  }
}
