/** Cells, the eight compass directions and routes over a set of free cells: the
    vocabulary in which the route finder of `Step10.cpp` is specified. */
module RouteGraph {

  datatype Cell = Cell(x: int, y: int)

  /** A direction is an index into the tables `dx` and `dy`. */
  const DIRECTIONS := 8

  predicate IsDirection(i: int) { 0 <= i < DIRECTIONS }

  lemma DirectionRange(i: int)
    requires 0 <= i < DIRECTIONS
    ensures IsDirection(i)
  {
  }

  function Dx(i: int): int
    requires IsDirection(i)
  {
    if i == 0 || i == 1 || i == 7 then 1 else if i == 2 || i == 6 then 0 else -1
  }

  function Dy(i: int): int
    requires IsDirection(i)
  {
    if i == 1 || i == 2 || i == 3 then 1 else if i == 0 || i == 4 then 0 else -1
  }

  function Neighbour(c: Cell, i: int): Cell
    requires IsDirection(i)
  {
    Cell(c.x + Dx(i), c.y + Dy(i))
  }

  function Opposite(i: int): (r: int)
    requires IsDirection(i)
    ensures IsDirection(r)
  {
    (i + DIRECTIONS / 2) % DIRECTIONS
  }

  /** Even directions are straight and cost 10, odd ones are diagonal and cost 14. */
  function StepCost(i: int): int { if i % 2 == 0 then 10 else 14 }

  lemma OppositeUndoes(c: Cell, i: int)
    requires IsDirection(i)
    ensures Neighbour(Neighbour(c, i), Opposite(i)) == c
    ensures Opposite(Opposite(i)) == i
    ensures StepCost(Opposite(i)) == StepCost(i)
  {
  }

  // ----- Routes -----

  predicate IsRoute(route: seq<int>) { forall k :: 0 <= k < |route| ==> IsDirection(route[k]) }

  /** The cell reached by replaying a route. */
  function End(s: Cell, route: seq<int>): Cell
    requires IsRoute(route)
    decreases |route|
  {
    if route == [] then s else Neighbour(End(s, route[..|route| - 1]), route[|route| - 1])
  }

  function Cost(route: seq<int>): int
    decreases |route|
  {
    if route == [] then 0 else Cost(route[..|route| - 1]) + StepCost(route[|route| - 1])
  }

  /** Every cell entered while replaying the route is free.  The cell the route starts
      from is not looked at. */
  predicate Walkable(free: set<Cell>, s: Cell, route: seq<int>)
    requires IsRoute(route)
    decreases |route|
  {
    route == []
    || (Walkable(free, s, route[..|route| - 1]) && End(s, route) in free)
  }

  ghost predicate Leads(free: set<Cell>, s: Cell, route: seq<int>, t: Cell) {
    IsRoute(route) && Walkable(free, s, route) && End(s, route) == t
  }

  ghost predicate Connected(free: set<Cell>, s: Cell, t: Cell) {
    exists route :: Leads(free, s, route, t)
  }

  /** Replaying the route visits no cell twice. */
  ghost predicate Simple(s: Cell, route: seq<int>)
    requires IsRoute(route)
  {
    forall i, j :: 0 <= i < j <= |route| ==> End(s, route[..i]) != End(s, route[..j])
  }

  lemma {:induction false} WalkablePrefix(free: set<Cell>, s: Cell, route: seq<int>, k: nat)
    requires IsRoute(route) && Walkable(free, s, route) && k <= |route|
    ensures Walkable(free, s, route[..k])
    decreases |route|
  {
    if k < |route| {
      assert route[..|route| - 1][..k] == route[..k];
      WalkablePrefix(free, s, route[..|route| - 1], k);
    } else {
      assert route[..k] == route;
    }
  }
}
