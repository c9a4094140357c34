/** A completion of the cube of `Puzzle.c`: with it the benchmark's search always succeeds. */
module CubeTiling {
  import opened Tiling
  import opened Puzzle
  import opened PuzzleCube

  /** A box of the table with its lowest cell. */
  datatype Spot = Spot(kind: nat, shape: Shape, x: int, y: int, z: int)

  /** The first box in its corner and the seventeen that complete the cube. */
  function SpotAt(k: nat): Spot
    requires k <= 17
  {
    match k
    case 0 => Spot(0, Shape(3, 1, 0, 0), 1, 1, 1)
    case 1 => Spot(2, Shape(0, 3, 1, 0), 5, 1, 1)
    case 2 => Spot(0, Shape(3, 1, 0, 0), 1, 3, 1)
    case 3 => Spot(1, Shape(1, 0, 3, 0), 1, 5, 1)
    case 4 => Spot(1, Shape(1, 0, 3, 0), 3, 5, 1)
    case 5 => Spot(8, Shape(0, 0, 2, 1), 5, 5, 1)
    case 6 => Spot(0, Shape(3, 1, 0, 0), 1, 1, 2)
    case 7 => Spot(0, Shape(3, 1, 0, 0), 1, 3, 2)
    case 8 => Spot(2, Shape(0, 3, 1, 0), 1, 1, 3)
    case 9 => Spot(0, Shape(3, 1, 0, 0), 2, 1, 3)
    case 10 => Spot(0, Shape(3, 1, 0, 0), 2, 3, 3)
    case 11 => Spot(4, Shape(3, 0, 1, 0), 2, 1, 4)
    case 12 => Spot(11, Shape(0, 1, 1, 2), 2, 2, 4)
    case 13 => Spot(12, Shape(1, 1, 1, 3), 3, 2, 4)
    case 14 => Spot(2, Shape(0, 3, 1, 0), 5, 2, 4)
    case 15 => Spot(6, Shape(2, 0, 0, 1), 2, 4, 4)
    case 16 => Spot(7, Shape(0, 2, 0, 1), 1, 1, 5)
    case _ => Spot(0, Shape(3, 1, 0, 0), 1, 4, 5)
  }

  predicate Inside(s: Spot, x: int, y: int, z: int) {
    s.x <= x <= s.x + s.shape.x && s.y <= y <= s.y + s.shape.y && s.z <= z <= s.z + s.shape.z
  }

  predicate Apart(s: Spot, t: Spot) {
    || s.x + s.shape.x < t.x || t.x + t.shape.x < s.x
    || s.y + s.shape.y < t.y || t.y + t.shape.y < s.y
    || s.z + s.shape.z < t.z || t.z + t.shape.z < s.z
  }

  predicate InsideCube(s: Spot) {
    && 1 <= s.x && s.x + s.shape.x <= 5 && 1 <= s.y && s.y + s.shape.y <= 5 && 1 <= s.z && s.z + s.shape.z <= 5
  }

  lemma SpotFacts(k: nat)
    requires k <= 17
    ensures var s := SpotAt(k); s.kind < |SHAPES| && SHAPES[s.kind] == s.shape && SmallShape(s.shape) && InsideCube(s)
  {
  }

  lemma SpotsApart(a: nat, b: nat)
    requires a < b <= 17
    ensures Apart(SpotAt(a), SpotAt(b))
  {
  }

  /** The boxes leave no cell of the cube free. */
  lemma SomeSpot(x: int, y: int, z: int)
    requires 1 <= x <= 5 && 1 <= y <= 5 && 1 <= z <= 5
    ensures exists k: nat :: k <= 17 && Inside(SpotAt(k), x, y, z)
  {
    assert
      || Inside(SpotAt(0), x, y, z) || Inside(SpotAt(1), x, y, z) || Inside(SpotAt(2), x, y, z)
      || Inside(SpotAt(3), x, y, z) || Inside(SpotAt(4), x, y, z) || Inside(SpotAt(5), x, y, z)
      || Inside(SpotAt(6), x, y, z) || Inside(SpotAt(7), x, y, z) || Inside(SpotAt(8), x, y, z)
      || Inside(SpotAt(9), x, y, z) || Inside(SpotAt(10), x, y, z) || Inside(SpotAt(11), x, y, z)
      || Inside(SpotAt(12), x, y, z) || Inside(SpotAt(13), x, y, z) || Inside(SpotAt(14), x, y, z)
      || Inside(SpotAt(15), x, y, z) || Inside(SpotAt(16), x, y, z) || Inside(SpotAt(17), x, y, z);
  }

  // ----- As placements -----

  ghost function PlacementAt(k: nat): Placement
    requires k <= 17
  {
    var s := SpotAt(k); Placement(s.kind, At(s.x, s.y, s.z))
  }

  ghost function Completion(): seq<Placement> {
    seq(17, k requires 0 <= k < 17 => PlacementAt(k + 1))
  }

  /** A box inside the cube covers the cells with coordinates in its ranges. */
  lemma BoxCovers(s: Spot, c: int)
    requires SmallShape(s.shape) && InsideCube(s)
    ensures c in Tile(BoxPiece(s.shape), At(s.x, s.y, s.z)) <==> Inside(s, X(c), Y(c), Z(c))
  {
    var j := At(s.x, s.y, s.z);
    hide Tile, At;
    TileMember(BoxPiece(s.shape), j, c);
    BoxIsBox(s.shape);
    if Inside(s, X(c), Y(c), Z(c)) { OffsetOf(s, j, c); }
    if InBox(s.shape.x, s.shape.y, s.shape.z, c - j) { CellOf(s, j, c - j); }
  }

  lemma OffsetOf(s: Spot, j: int, c: int)
    requires SmallShape(s.shape) && InsideCube(s) && j == At(s.x, s.y, s.z) && Inside(s, X(c), Y(c), Z(c))
    ensures InBox(s.shape.x, s.shape.y, s.shape.z, c - j)
  {
    hide X, Y, Z;
    var x, y, z := X(c) - s.x, Y(c) - s.y, Z(c) - s.z;
    FromCoordinates(c);
    Coordinates(x, y, z);
    assert c - j == At(x, y, z);
  }

  lemma CellOf(s: Spot, j: int, k: int)
    requires SmallShape(s.shape) && InsideCube(s) && j == At(s.x, s.y, s.z) && InBox(s.shape.x, s.shape.y, s.shape.z, k)
    ensures Inside(s, X(j + k), Y(j + k), Z(j + k))
  {
    hide X, Y, Z;
    Coordinates(s.x, s.y, s.z);
    FromCoordinates(k);
    OffsetCoordinates(j, k);
  }

  lemma Covers(k: nat, c: int)
    requires k <= 17
    ensures PlacementAt(k).kind < |StandardPieces()|
    ensures c in Covered(StandardPieces(), PlacementAt(k)) <==> Inside(SpotAt(k), X(c), Y(c), Z(c))
  {
    hide SpotAt, Tile, BoxCells, X, Y, Z, At;
    SpotFacts(k);
    BoxCovers(SpotAt(k), c);
  }

  lemma CompletionIsDisjoint()
    ensures ValidPlacements(StandardPieces(), Completion()) && Disjoint(StandardPieces(), Completion())
  {
    hide SpotAt, Covered, StandardPieces, X, Y, Z;
    forall a: nat | a < 17 ensures Completion()[a].kind < |StandardPieces()| { Covers(a + 1, 0); }
    forall a: nat, b: nat, c | a < b < 17
      ensures !(c in Covered(StandardPieces(), Completion()[a]) && c in Covered(StandardPieces(), Completion()[b]))
    {
      Covers(a + 1, c);
      Covers(b + 1, c);
      SpotsApart(a + 1, b + 1);
    }
  }

  /** The cells left when the first box lies in its corner. */
  ghost function Rest(): set<int> { Cube() - Tile(BoxPiece(SHAPES[0]), At(1, 1, 1)) }

  lemma RestIs(c: int)
    ensures c in Rest() <==> c in Cube() && !Inside(SpotAt(0), X(c), Y(c), Z(c))
  {
    hide Tile, BoxCells, X, Y, Z, Cube, At;
    SpotFacts(0);
    BoxCovers(SpotAt(0), c);
  }

  lemma CubeIs(c: int)
    ensures c in Cube() <==> 1 <= X(c) <= 5 && 1 <= Y(c) <= 5 && 1 <= Z(c) <= 5
  {
    FromCoordinates(c);
  }

  lemma CompletionStaysInside(k: nat, c: int)
    requires 1 <= k <= 17 && Inside(SpotAt(k), X(c), Y(c), Z(c))
    ensures c in Rest()
  {
    hide SpotAt, X, Y, Z, Rest, Cube;
    SpotFacts(k);
    SpotsApart(0, k);
    RestIs(c);
    CubeIs(c);
  }

  lemma CompletionReaches(c: int) returns (a: nat)
    requires c in Rest()
    ensures a < 17 && Inside(SpotAt(a + 1), X(c), Y(c), Z(c))
  {
    hide SpotAt, X, Y, Z, Rest, Cube;
    RestIs(c);
    CubeIs(c);
    SomeSpot(X(c), Y(c), Z(c));
    var k: nat :| k <= 17 && Inside(SpotAt(k), X(c), Y(c), Z(c));
    a := k - 1;
  }

  lemma CompletionFills()
    requires ValidPlacements(StandardPieces(), Completion())
    ensures Fills(StandardPieces(), Completion(), Rest())
  {
    hide SpotAt, Covered, StandardPieces, X, Y, Z, Rest;
    forall a: nat, c | a < 17 && c in Covered(StandardPieces(), Completion()[a]) ensures c in Rest() {
      Covers(a + 1, c);
      CompletionStaysInside(a + 1, c);
    }
    forall c | c in Rest() ensures exists a :: 0 <= a < 17 && c in Covered(StandardPieces(), Completion()[a]) {
      var a := CompletionReaches(c);
      Covers(a + 1, c);
      assert c in Covered(StandardPieces(), Completion()[a]);
    }
  }

  // ----- The supply -----

  /** How many of the boxes from number k + 1 on are of a class. */
  ghost function Tally(k: nat, group: nat): nat
    requires k <= 17
    decreases 17 - k
  {
    if k == 17 then 0 else Counts(k + 1, group) + Tally(k + 1, group)
  }

  lemma {:induction false} UsedIsTally(k: nat, group: nat)
    requires k <= 17
    ensures ValidPlacements(StandardPieces(), Completion()[k..])
    ensures Used(StandardPieces(), Completion()[k..], group) == Tally(k, group)
    decreases 17 - k
  {
    hide SpotAt, StandardPieces, Covered;
    CompletionIsDisjoint();
    if k < 17 {
      UsedIsTally(k + 1, group);
      assert Completion()[k..][1..] == Completion()[k + 1..];
      GroupOf(k + 1);
    }
  }

  lemma GroupOf(k: nat)
    requires k <= 17
    ensures SpotAt(k).kind < |StandardPieces()|
    ensures StandardPieces()[SpotAt(k).kind].group == SpotAt(k).shape.group
  {
    SpotFacts(k);
    hide SpotAt;
  }

  lemma TallyFour(k: nat, group: nat)
    requires k + 4 <= 17
    ensures Tally(k, group) == Counts(k + 1, group) + Counts(k + 2, group) + Counts(k + 3, group) + Counts(k + 4, group)
                               + Tally(k + 4, group)
  {
    hide SpotAt;
    assert Tally(k + 2, group) == Counts(k + 3, group) + Counts(k + 4, group) + Tally(k + 4, group);
  }

  lemma LastTally(group: nat)
    ensures Tally(16, group) == Counts(17, group)
  {
  }

  ghost function Counts(k: nat, group: nat): nat
    requires k <= 17
  {
    if SpotAt(k).shape.group == group then 1 else 0
  }

  lemma Tallies(group: nat)
    requires group < 4
    ensures Tally(0, group) == [12, 3, 1, 1][group]
  {
    hide Tally;
    LastTally(group);
    TallyFour(0, group);
    TallyFour(4, group);
    TallyFour(8, group);
    TallyFour(12, group);
  }

  lemma CompletionInSupply()
    requires ValidPlacements(StandardPieces(), Completion())
    ensures InSupply(StandardPieces(), Completion(), [12, 3, 1, 1])
  {
    hide SpotAt, StandardPieces, Completion, Tally;
    assert Completion()[0..] == Completion();
    forall c: nat | c < 4 ensures Used(StandardPieces(), Completion(), c) <= [12, 3, 1, 1][c] {
      UsedIsTally(0, c);
      Tallies(c);
    }
  }

  /** The cube can be completed. */
  lemma CubeIsSolvable()
    ensures CubeSolvable()
  {
    CompletionIsDisjoint();
    CompletionFills();
    CompletionInSupply();
    hide StandardPieces, Completion, Disjoint, Fills, InSupply, Tile, Cube;
    assert IsTiling(StandardPieces(), Completion(), Rest(), [12, 3, 1, 1]);
  }

  /** The benchmark: neither of its first two error messages is ever printed, and the board
      ends up full. */
  method Benchmark(b: Board) returns (fits: bool, found: bool)
    requires IsStandardBoard(b)
    modifies b, b.puzzl, b.p, b.group, b.piecemax, b.piececount
    ensures fits && found && b.Free() == {}
  {
    hide *;
    fits, found := Solve(b);
    CubeIsSolvable();
  }
}
