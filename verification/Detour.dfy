/** Maps on which the active estimate of `Step10.cpp` makes every search return a route that
    is not a cheapest one: two corridors lead from the start to the goal, and the estimate of
    the cheaper one, a long diagonal, is too high. */
module Detour {
  import opened RouteGraph
  import opened AStarSearch
  import opened Estimates
  import opened Squares
  import opened RouteFinder

  const START := Cell(0, 1)

  /** The first cell of the lower corridor, from which `r` diagonal steps lead to the goal. */
  const TURN := Cell(1, 0)

  function Goal(r: nat): Cell { Cell(r + 1, r) }

  /** The upper corridor runs along a diagonal two cells above and then along one straight
      step. */
  function Corner(r: nat): Cell { Cell(r, r + 1) }

  predicate OnLower(r: nat, c: Cell) { 0 <= c.y <= r && c.x == c.y + 1 }

  predicate OnUpper(r: nat, c: Cell) { (0 <= c.x < r && c.y == c.x + 2) || c == Corner(r) }

  predicate IsOpen(r: nat, c: Cell) { c == START || OnLower(r, c) || OnUpper(r, c) }

  /** The problem on that map, under the active estimate. */
  ghost predicate IsDetour(p: Problem, r: nat) {
    && 2 <= r && p.start == START && (forall c :: c in p.free <==> IsOpen(r, c))
    && IsEuclidean(p, Goal(r))
  }

  /** The diagonal is overestimated by more than the 6 that the upper corridor costs extra. */
  ghost predicate Exceeds(r: nat) { 10 * IntSqrt(2 * Sq(r)) > 14 * r + 6 }

  /** What the upper corridor costs up to one of its cells, and the cell before. */
  function UpperCost(r: nat, c: Cell): int { if c == Corner(r) then 14 * r + 6 else 10 + 14 * c.x }

  function Before(r: nat, c: Cell): Cell {
    if c == Corner(r) then Cell(r - 1, r + 1) else if c.x == 0 then START else Cell(c.x - 1, c.y - 1)
  }

  // ----- Where a search goes -----

  /** The search has not turned into the lower corridor, and knows the upper one from the
      start on. */
  ghost predicate OnTheWay(r: nat, st: Search) {
    && (forall c :: c in st.order ==> c == START || OnUpper(r, c))
    && (forall c :: c in st.level && OnUpper(r, c) ==> st.level[c] == UpperCost(r, c) && Before(r, c) in st.order)
    && (TURN in st.level ==> st.level[TURN] == 14)
    && (Goal(r) in st.level ==> st.level[Goal(r)] == 14 * r + 20)
    && (forall c :: c in st.level ==> c == START || OnUpper(r, c) || c == TURN || c == Goal(r))
  }

  /** The corridors have no short cuts: where the steps from the start and from the upper
      corridor lead. */
  lemma StepsLead(r: nat, u: Cell, i: int)
    requires r >= 2 && IsDirection(i) && (u == START || OnUpper(r, u)) && IsOpen(r, Neighbour(u, i))
    ensures var v := Neighbour(u, i);
            || (u == START && v == TURN && StepCost(i) == 14)
            || (u == START && v == Cell(0, 2) && StepCost(i) == 10)
            || (u != START && v == Before(r, u))
            || (u != START && OnUpper(r, v) && Before(r, v) == u && UpperCost(r, v) == UpperCost(r, u) + StepCost(i))
            || (u == Corner(r) && v == Goal(r) && StepCost(i) == 14)
  {
  }

  lemma RelaxStaysOnTheWay(p: Problem, r: nat, st: Search, u: Cell, i: int)
    requires IsDetour(p, r) && Members(p, st) && OnTheWay(r, st) && IsDirection(i) && u in st.order
    ensures OnTheWay(r, Relax(p, st, u, i)) && Relax(p, st, u, i).order == st.order
  {
    hide OnTheWay, Members, OnUpper, UpperCost, Before, Neighbour, IsEuclidean, OnLower;
    var v := Neighbour(u, i);
    WayMeans(p, r, st, u);
    if v in p.free && v !in st.order {
      StepsLead(r, u, i);
      CorridorStarts(r);
      QueueStaysOnTheWay(r, st, v, Entry(p, v, st.level[u] + StepCost(i)), Opposite(i));
    }
  }

  lemma CorridorStarts(r: nat)
    requires r >= 2
    ensures OnUpper(r, Cell(0, 2)) && UpperCost(r, Cell(0, 2)) == 10 && Before(r, Cell(0, 2)) == START
    ensures UpperCost(r, Corner(r)) == 14 * r + 6
  {
  }

  /** Which cells are closed, at which levels. */
  lemma WayMeans(p: Problem, r: nat, st: Search, u: Cell)
    requires IsDetour(p, r) && Members(p, st) && OnTheWay(r, st) && u in st.order
    ensures u in st.level && (u == START || OnUpper(r, u))
    ensures if u == START then st.level[u] == 0 else st.level[u] == UpperCost(r, u) && Before(r, u) in st.order
  {
  }

  /** A cell of the upper corridor, the turn or the goal is queued at its cost. */
  lemma QueueStaysOnTheWay(r: nat, st: Search, v: Cell, nd: Node, back: int)
    requires OnTheWay(r, st)
    requires || (v == TURN && nd.level == 14) || (v == Goal(r) && nd.level == 14 * r + 20)
             || (OnUpper(r, v) && nd.level == UpperCost(r, v) && Before(r, v) in st.order)
    requires r >= 2
    ensures OnTheWay(r, st.(open := st.open[v := nd], level := st.level[v := nd.level], dir := st.dir[v := back]))
  {
  }

  lemma {:induction false} RelaxUpToStaysOnTheWay(p: Problem, r: nat, st: Search, u: Cell, k: nat)
    requires IsDetour(p, r) && Members(p, st) && OnTheWay(r, st) && k <= DIRECTIONS && u in st.order && u in st.level
    ensures var st' := RelaxUpTo(p, st, u, k); Members(p, st') && OnTheWay(r, st') && st'.order == st.order
  {
    hide IsDetour, Members, OnTheWay, Relax;
    if k > 0 {
      RelaxUpToStaysOnTheWay(p, r, st, u, k - 1);
      DirectionRange(k - 1);
      RelaxKeepsMembers(p, RelaxUpTo(p, st, u, k - 1), u, k - 1);
      RelaxStaysOnTheWay(p, r, RelaxUpTo(p, st, u, k - 1), u, k - 1);
    }
  }

  lemma RoundStaysOnTheWay(p: Problem, r: nat, st: Search, c: Cell)
    requires IsDetour(p, r) && Members(p, st) && OnTheWay(r, st) && c in st.open && c in st.level
    requires c != TURN && c != Goal(r) && (st.order == [] ==> c == START)
    ensures OnTheWay(r, Round(p, st, c))
  {
    hide Members, OnTheWay, RelaxUpTo;
    assert p.start == START;
    hide IsDetour;
    CloseKeepsMembers(p, st, c);
    CloseStaysOnTheWay(r, st, c);
    RelaxUpToStaysOnTheWay(p, r, Close(st, c), c, DIRECTIONS);
  }

  lemma CloseStaysOnTheWay(r: nat, st: Search, c: Cell)
    requires OnTheWay(r, st) && c in st.open && c in st.level && c != TURN && c != Goal(r)
    ensures OnTheWay(r, Close(st, c))
  {
  }

  // ----- The turn is never taken -----

  /** Close to the goal the estimate along the upper corridor is moderate. */
  lemma NearDistance(q: nat)
    requires 1 <= q <= 133
    ensures Sq(q + 1) + Sq(q - 2) >= 0 && 10 * IntSqrt(Sq(q + 1) + Sq(q - 2)) <= 14 * q + 11
  {
    var n, s := 2 * Sq(q) - 2 * q + 5, (14 * q + 11) / 10;
    SumIs(q);
    TenTimes(s + 1);
    SqLeq(14 * q + 12, 10 * (s + 1));
    BoundIs(q);
    hide Sq, IntSqrt;
    SqNonNegative(q + 1);
    SqNonNegative(q - 2);
    IntSqrtLeq(n, s);
  }

  lemma SumIs(q: nat)
    ensures Sq(q + 1) + Sq(q - 2) == 2 * Sq(q) - 2 * q + 5
  {
  }

  lemma TenTimes(t: nat)
    ensures Sq(10 * t) == 100 * Sq(t)
  {
  }

  lemma BoundIs(q: nat)
    requires 1 <= q <= 133
    ensures Sq(14 * q + 12) > 100 * (2 * Sq(q) - 2 * q + 5)
  {
    Expand(q);
    Product(133 - q, q - 1);
    assert (133 - q) * (q - 1) == 134 * q - Sq(q) - 133;
  }

  lemma Expand(q: nat)
    ensures Sq(14 * q + 12) == 196 * Sq(q) + 336 * q + 144
  {
  }

  lemma Product(x: int, y: int)
    requires x >= 0 && y >= 0
    ensures x * y >= 0
  {
  }

  /** Far from it, with `a` the estimate there, `b` that of the turn and `q + d` steps to go
      from the turn, it grows more slowly than along the lower corridor. */
  lemma FarDistance(q: nat, d: nat, a: nat, b: nat)
    requires q > 133 && Sq(a) <= 2 * Sq(q) - 2 * q + 5 && 2 * Sq(q + d) < Sq(b + 1)
    ensures 10 * a + 14 * d < 10 * b + 4
  {
    hide Sq;
    if 10 * (b + 1) <= 10 * a + 6 + 14 * d {
      FarRoot(q, a);
      FarSquare(q, a);
      FarSteps(q, d, 10 * a + 6);
      TenTimes(b + 1);
      SqLeq(10 * (b + 1), 10 * a + 6 + 14 * d);
    }
  }

  lemma FarRoot(q: nat, a: nat)
    requires q > 133 && Sq(a) <= 2 * Sq(q) - 2 * q + 5
    ensures 100 * a <= 142 * q
  {
    hide Sq;
    Scaled(100, a);
    Scaled(142, q);
    SqNonNegative(q);
    if 100 * a > 142 * q { SqLess(142 * q, 100 * a); }
  }

  lemma Scaled(k: nat, x: nat)
    ensures Sq(k * x) == k * k * Sq(x)
  {
    assert k * x * (k * x) == k * k * (x * x);
  }

  lemma SqLess(a: nat, b: nat)
    requires a < b
    ensures Sq(a) < Sq(b)
  {
    assert a * a <= a * b < b * b;
  }

  lemma FarSquare(q: nat, a: nat)
    requires q > 133 && Sq(a) <= 2 * Sq(q) - 2 * q + 5 && 100 * a <= 142 * q
    ensures Sq(10 * a + 6) <= 200 * Sq(q)
  {
    assert Sq(10 * a + 6) == 100 * Sq(a) + 120 * a + 36;
    hide Sq;
  }

  lemma FarSteps(q: nat, d: nat, t: nat)
    requires Sq(t) <= 200 * Sq(q)
    ensures Sq(t + 14 * d) <= 200 * Sq(q + d)
  {
    Sevens(q, t);
    Product(100 * q - 7 * t, d);
    assert Sq(t + 14 * d) == Sq(t) + 28 * (t * d) + 196 * Sq(d);
    assert Sq(q + d) == Sq(q) + 2 * (q * d) + Sq(d);
    assert (100 * q - 7 * t) * d == 100 * (q * d) - 7 * (t * d);
    SqNonNegative(d);
    hide Sq;
  }

  lemma Sevens(q: nat, t: nat)
    requires Sq(t) <= 200 * Sq(q)
    ensures 7 * t <= 100 * q
  {
    hide Sq;
    Scaled(7, t);
    Scaled(100, q);
    SqNonNegative(q);
    if 7 * t > 100 * q { SqLess(100 * q, 7 * t); }
  }

  /** The turn never has the least priority: along the upper corridor all are below its. */
  lemma UpperPriority(p: Problem, r: nat, c: Cell)
    requires IsDetour(p, r) && Exceeds(r) && OnUpper(r, c)
    ensures UpperCost(r, c) + p.estimate(c) < 14 + p.estimate(TURN)
  {
    hide Sq, IntSqrt;
    TurnPriority(p, r);
    if c == Corner(r) {
      OneDiagonal();
    } else if r - c.x <= 133 {
      NearDistance(r - c.x);
    } else {
      FarPriority(p, r, c);
    }
  }

  lemma FarPriority(p: Problem, r: nat, c: Cell)
    requires IsDetour(p, r) && OnUpper(r, c) && c != Corner(r) && r - c.x > 133
    ensures UpperCost(r, c) + p.estimate(c) < 14 + p.estimate(TURN)
  {
    hide Sq, IsOpen;
    var q := r - c.x;
    SumIs(q);
    SqNonNegative(q + 1);
    SqNonNegative(q - 2);
    SqNonNegative(r);
    var a, b := Euclidean(c, Goal(r)), Euclidean(TURN, Goal(r));
    assert a == IntSqrt(Sq(q + 1) + Sq(q - 2)) && b == IntSqrt(Sq(r) + Sq(r));
    FarDistance(q, c.x, a, b);
  }

  lemma OneDiagonal()
    ensures Sq(1) + Sq(-1) == 2 && IntSqrt(2) == 1
  {
    IntSqrtIs(2, 1);
  }

  lemma TurnPriority(p: Problem, r: nat)
    requires IsDetour(p, r) && Exceeds(r)
    ensures 14 + p.estimate(TURN) > 14 * r + 21
  {
    hide *;
    TurnEstimate(p, r);
    ByTwo(r);
  }

  lemma TurnEstimate(p: Problem, r: nat)
    requires IsDetour(p, r)
    ensures 2 * Sq(r) >= 0 && p.estimate(TURN) == 10 * IntSqrt(2 * Sq(r))
  {
    hide Sq, IntSqrt, IsOpen, Euclidean;
    TurnDistance(r);
  }

  lemma ByTwo(r: nat)
    requires 2 * Sq(r) >= 0 && Exceeds(r)
    ensures 14 + 10 * IntSqrt(2 * Sq(r)) > 14 * r + 21
  {
    hide Sq, IntSqrt;
    var x := IntSqrt(2 * Sq(r));
    assert 5 * x > 7 * r + 3;
  }

  lemma TurnDistance(r: nat)
    ensures 2 * Sq(r) >= 0 && Euclidean(TURN, Goal(r)) == IntSqrt(2 * Sq(r))
  {
    hide IntSqrt;
    SqNonNegative(r);
    assert Sq(r) + Sq(r) == 2 * Sq(r);
  }

  /** The cells of the upper corridor in order, from the start to the goal. */
  function Upper(r: nat, j: nat): Cell {
    if j == 0 then START else if j <= r then Cell(j - 1, j + 1) else if j == r + 1 then Corner(r) else Goal(r)
  }

  function UpperDirection(r: nat, j: nat): (i: int)
    ensures IsDirection(i)
  {
    if j == 0 then 2 else if j < r then 1 else if j == r then 0 else 7
  }

  lemma UpperLeads(p: Problem, r: nat, j: nat)
    requires IsDetour(p, r) && j <= r + 1
    ensures Neighbour(Upper(r, j), UpperDirection(r, j)) == Upper(r, j + 1) && Upper(r, j + 1) in p.free
    ensures if j < r + 1 then OnUpper(r, Upper(r, j + 1)) else Upper(r, j + 1) == Goal(r)
  {
  }

  /** While the goal is not closed, a cell of the upper corridor or the goal itself is
      queued with a priority below that of the turn. */
  lemma {:induction false} UpperIsQueued(p: Problem, r: nat, st: Search, j: nat) returns (d: Cell)
    requires IsDetour(p, r) && Exceeds(r) && Inv(p, st) && OnTheWay(r, st) && Goal(r) !in st.order
    requires j <= r + 1 && Upper(r, j) in st.order
    ensures d in st.open && st.open[d].priority < 14 + p.estimate(TURN)
    decreases r + 1 - j
  {
    hide Inv, IsDetour, OnTheWay, OnUpper, UpperDirection, Neighbour, Exceeds;
    UpperLeads(p, r, j);
    d := Upper(r, j + 1);
    NeighbourIsKnown(p, st, Upper(r, j), UpperDirection(r, j));
    if d in st.order {
      d := UpperIsQueued(p, r, st, j + 1);
    } else {
      QueuedPriority(p, r, st, d);
    }
  }

  lemma QueuedPriority(p: Problem, r: nat, st: Search, d: Cell)
    requires IsDetour(p, r) && Exceeds(r) && Inv(p, st) && OnTheWay(r, st)
    requires d in st.open && (OnUpper(r, d) || d == Goal(r))
    ensures st.open[d].priority < 14 + p.estimate(TURN)
  {
    assert d in st.level && st.open[d] == Entry(p, d, st.level[d]);
    hide Exceeds;
    TurnPriority(p, r);
    if OnUpper(r, d) { UpperPriority(p, r, d); } else { EuclideanAtGoal(Goal(r)); }
  }

  lemma TurnIsNotPicked(p: Problem, r: nat, st: Search, c: Cell)
    requires IsDetour(p, r) && Exceeds(r) && Inv(p, st) && OnTheWay(r, st) && Goal(r) !in st.order && START in st.order
    requires IsPick(st, c)
    ensures c != TURN
  {
    var d := UpperIsQueued(p, r, st, 0);
    assert TURN in st.open ==> st.open[TURN] == Entry(p, TURN, st.level[TURN]);
  }

  /** At every point of every run before the goal is closed. */
  lemma {:induction false} RunIsOnTheWay(p: Problem, r: nat, picks: seq<Cell>)
    requires IsDetour(p, r) && Exceeds(r) && IsRun(p, picks) && Goal(r) !in picks
    ensures OnTheWay(r, After(p, picks))
    decreases |picks|
  {
    if picks != [] {
      var init, c := picks[..|picks| - 1], picks[|picks| - 1];
      assert picks == init + [c];
      RunIsOnTheWay(p, r, init);
      RunKeepsInv(p, init);
      NextIsOnTheWay(p, r, init, c);
    }
  }

  lemma NextIsOnTheWay(p: Problem, r: nat, picks: seq<Cell>, c: Cell)
    requires IsDetour(p, r) && Exceeds(r) && IsRun(p, picks) && Goal(r) !in picks && c != Goal(r)
    requires OnTheWay(r, After(p, picks)) && IsPick(After(p, picks), c)
    ensures OnTheWay(r, Round(p, After(p, picks), c))
  {
    var st := After(p, picks);
    RunKeepsInv(p, picks);
    assert Members(p, st);
    hide OnTheWay, Exceeds, Inv, Round, IsRun, Members;
    if picks != [] { TurnIsNotPicked(p, r, st, c); }
    RoundStaysOnTheWay(p, r, st, c);
  }

  /** Whatever the search does about equal priorities, it returns a route of cost
      14 * r + 20, while the lower corridor costs 14 * r + 14. */
  lemma EveryRunDetours(p: Problem, r: nat, cost: int)
    requires IsDetour(p, r) && Exceeds(r) && CanCost(p, Goal(r), cost)
    ensures cost == 14 * r + 20
    ensures Leads(p.free, p.start, LowerRoute(r), Goal(r)) && Cost(LowerRoute(r)) == 14 * r + 14
  {
    var picks :| Finds(p, Goal(r), picks, cost);
    RunIsOnTheWay(p, r, picks);
    LowerCorridor(p, r, r);
  }

  /** Down to the turn, then along the diagonal. */
  function LowerRoute(k: nat): (route: seq<int>)
    ensures IsRoute(route)
  {
    [7] + seq(k, _ => 1)
  }

  lemma {:induction false} LowerCorridor(p: Problem, r: nat, k: nat)
    requires IsDetour(p, r) && k <= r
    ensures Leads(p.free, p.start, LowerRoute(k), Cell(k + 1, k)) && Cost(LowerRoute(k)) == 14 * k + 14
  {
    var route := LowerRoute(k);
    if k == 0 {
      assert route == [7] && route[..0] == [];
      assert End(p.start, route) == Neighbour(End(p.start, []), 7) == TURN && IsOpen(r, TURN);
      assert Cost(route) == Cost([]) + StepCost(7);
    } else {
      LowerCorridor(p, r, k - 1);
      assert route[..k] == LowerRoute(k - 1) && route[k] == 1;
      assert End(p.start, route) == Neighbour(Cell(k, k - 1), 1) == Cell(k + 1, k) && IsOpen(r, Cell(k + 1, k));
    }
  }

  /** Every long corridor is such a trap. */
  lemma LongExceeds(r: nat)
    requires r >= 113
    ensures Exceeds(r)
  {
    hide Sq;
    SqNonNegative(r);
    var b := IntSqrt(2 * Sq(r));
    if 10 * (b + 1) <= 14 * r + 16 {
      TenTimes(b + 1);
      SqLeq(10 * (b + 1), 14 * r + 16);
      LongSquare(r);
    }
  }

  lemma LongSquare(r: nat)
    requires r >= 113
    ensures Sq(14 * r + 16) <= 200 * Sq(r)
  {
    Product(r - 113, r);
    assert (r - 113) * r == Sq(r) - 113 * r;
    assert Sq(14 * r + 16) == 196 * Sq(r) + 448 * r + 256;
  }

  // ----- On the map of the program -----

  lemma FiftyEightExceed(r: nat)
    requires r == 58
    ensures Exceeds(r)
  {
    assert 2 * Sq(r) == 6728;
    assert Sq(82) == 6724 && Sq(83) == 6889;
    IntSqrtIs(2 * Sq(r), 82);
  }

  /** On a map of the size the program uses, with its estimate: a route of cost 832 is
      returned where one costs 826. */
  method DetourOnMap() returns (route: string, finder: Finder)
    ensures finder.Shaped() && Cost(Directions(route)) == 832
    ensures exists other :: Leads(finder.Free(), START, other, Goal(58)) && Cost(other) == 826
  {
    var r := 58;
    FiftyEightExceed(r);
    var grid := new int[60, 60]((x, y) => if IsOpen(r, Cell(x, y)) then 0 else 1);
    finder := new Finder(grid, Euclidean);
    assert finder.InBounds(START);
    ghost var p := finder.ProblemOf(START, Goal(r));
    assert IsDetour(p, r) by { FreeIsOpen(finder, r); }
    LowerCorridor(p, r, r);
    route := finder.PathFind(START, Goal(r));
    assert finder.Free() == p.free;
    assert route != "";
    EveryRunDetours(finder.ProblemOf(START, Goal(r)), r, Cost(Directions(route)));
  }

  lemma FreeIsOpen(finder: Finder, r: nat)
    requires finder.Shaped() && r == 58 && finder.n == 60 && finder.m == 60
    requires forall x, y :: 0 <= x < 60 && 0 <= y < 60 ==> (finder.grid[x, y] != 1 <==> IsOpen(r, Cell(x, y)))
    ensures forall c :: c in finder.Free() <==> IsOpen(r, c)
  {
    forall c
      ensures c in finder.Free() <==> IsOpen(r, c)
    {
      assert c == Cell(c.x, c.y);
    }
  }
}
