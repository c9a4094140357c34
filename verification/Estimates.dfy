/** The three remaining-distance estimates of `Step10.cpp` (one active, two kept as
    comments) and which of them make the route finder return cheapest routes. */
module Estimates {
  import opened RouteGraph
  import opened AStarSearch
  import opened Squares

  function Abs(a: int): nat { if a < 0 then -a else a }

  /** The active estimate: Euclidean distance cut down to an integer. */
  function Euclidean(c: Cell, goal: Cell): nat {
    var xd, yd := goal.x - c.x, goal.y - c.y;
    SqNonNegative(xd);
    SqNonNegative(yd);
    IntSqrt(Sq(xd) + Sq(yd))
  }

  function Manhattan(c: Cell, goal: Cell): nat { Abs(goal.x - c.x) + Abs(goal.y - c.y) }

  function Chebyshev(c: Cell, goal: Cell): nat {
    var xd, yd := Abs(goal.x - c.x), Abs(goal.y - c.y);
    if xd > yd then xd else yd
  }

  ghost function ProblemWith(estimate: (Cell, Cell) -> nat, free: set<Cell>, start: Cell, goal: Cell): Problem {
    Problem(free, start, c => 10 * estimate(c, goal))
  }

  /** The estimate never exceeds the cost of a route to the goal. */
  ghost predicate Admissible(p: Problem, goal: Cell) {
    forall route :: Leads(p.free, p.start, route, goal) ==> p.estimate(p.start) <= Cost(route)
  }

  /** A consistent estimate that is zero at the goal is admissible. */
  lemma ConsistentIsAdmissible(p: Problem, goal: Cell)
    requires Consistent(p) && p.estimate(goal) == 0
    ensures Admissible(p, goal)
  {
    forall route | Leads(p.free, p.start, route, goal)
      ensures p.estimate(p.start) <= Cost(route)
    {
      ConsistentIsLax(p);
      LaxAlong(p, 1, 1, route, 0);
    }
  }

  /** The commented-out Chebyshev estimate is consistent on every map, so with it every
      route returned is a cheapest one. */
  lemma ChebyshevIsConsistent(free: set<Cell>, start: Cell, goal: Cell)
    ensures Consistent(ProblemWith(Chebyshev, free, start, goal))
  {
    forall c, i | IsDirection(i)
      ensures Chebyshev(c, goal) <= 1 + Chebyshev(Neighbour(c, i), goal)
    {
    }
  }

  /** It is the least number of steps that covers both distances, and zero only at the goal. */
  lemma ChebyshevIff(c: Cell, goal: Cell, k: nat)
    ensures Chebyshev(c, goal) <= k <==> c.x - k <= goal.x <= c.x + k && c.y - k <= goal.y <= c.y + k
    ensures Chebyshev(c, goal) == 0 <==> c == goal
  {
    assert c == goal <==> c.x == goal.x && c.y == goal.y;
  }

  /** So with it the estimate never exceeds the cost of a route. */
  lemma ChebyshevIsAdmissible(free: set<Cell>, start: Cell, goal: Cell)
    ensures Admissible(ProblemWith(Chebyshev, free, start, goal), goal)
  {
    ChebyshevIff(goal, goal, 0);
    ChebyshevIsConsistent(free, start, goal);
    ConsistentIsAdmissible(ProblemWith(Chebyshev, free, start, goal), goal);
  }

  // ----- The active estimate -----

  ghost predicate IsEuclidean(p: Problem, goal: Cell) {
    forall c :: p.estimate(c) == 10 * Euclidean(c, goal)
  }

  lemma EuclideanStraight(c: Cell, i: int, goal: Cell)
    requires IsDirection(i) && i % 2 == 0
    ensures Euclidean(c, goal) <= Euclidean(Neighbour(c, i), goal) + 1
  {
    hide Sq, IntSqrt;
    var x, y := goal.x - c.x, goal.y - c.y;
    if Dy(i) == 0 {
      LegStep(x, y, x - Dx(i));
    } else {
      LegStep(y, x, y - Dy(i));
    }
  }

  lemma EuclideanDiagonal(c: Cell, i: int, goal: Cell)
    requires IsDirection(i) && i % 2 == 1
    ensures Euclidean(c, goal) <= Euclidean(Neighbour(c, i), goal) + 2
  {
    hide Sq, IntSqrt;
    var x, y := goal.x - c.x, goal.y - c.y;
    LegStep(x, y, x - Dx(i));
    LegStep(y, x - Dx(i), y - Dy(i));
  }

  /** No step lowers the active estimate by more than ten sevenths of its cost. */
  lemma EuclideanIsLax(p: Problem, goal: Cell)
    requires IsEuclidean(p, goal)
    ensures Lax(p, 7, 10)
  {
    forall c, i | IsDirection(i) && Neighbour(c, i) in p.free
      ensures Times(7, p.estimate(c)) <= Times(10, StepCost(i)) + Times(7, p.estimate(Neighbour(c, i)))
    {
      hide Euclidean;
      if i % 2 == 0 { EuclideanStraight(c, i, goal); } else { EuclideanDiagonal(c, i, goal); }
    }
  }

  // ----- The other two overestimate -----

  function Diagonal(k: nat): (route: seq<int>)
    ensures IsRoute(route) && |route| == k
  {
    seq(k, _ => 1)
  }

  ghost function Diagonals(k: nat): set<Cell> { set i | 1 <= i <= k :: Cell(i, i) }

  lemma {:induction false} DiagonalRoute(free: set<Cell>, k: nat)
    requires Diagonals(k) <= free
    ensures Leads(free, Cell(0, 0), Diagonal(k), Cell(k, k)) && Cost(Diagonal(k)) == 14 * k
  {
    if k > 0 {
      assert Diagonal(k)[..k - 1] == Diagonal(k - 1);
      assert Diagonals(k - 1) <= Diagonals(k);
      DiagonalRoute(free, k - 1);
      assert Cell(k, k) in Diagonals(k);
    }
  }

  /** The integer part of k times the root of 2, times ten, exceeds 14 * k. */
  ghost predicate DiagonalExceeds(k: nat) { Sq(7 * k / 5 + 1) <= 2 * Sq(k) }

  lemma DiagonalExceedsIff(k: nat)
    ensures Sq(k) >= 0 && (10 * IntSqrt(2 * Sq(k)) > 14 * k <==> DiagonalExceeds(k))
  {
    hide Sq, IntSqrt;
    SqNonNegative(k);
    IntSqrtLeq(2 * Sq(k), 7 * k / 5);
  }

  /** From 71 diagonal steps on it always does. */
  lemma LongDiagonalExceeds(k: nat)
    requires k >= 71
    ensures DiagonalExceeds(k)
  {
    var t := 7 * k / 5 + 1;
    SqLeq(5 * t, 7 * k + 5);
    FiveTimes(t);
    SevenPlusFive(k);
    hide Sq;
  }

  lemma FiveTimes(t: nat)
    ensures Sq(5 * t) == 25 * Sq(t)
  {
  }

  lemma SevenPlusFive(k: nat)
    requires k >= 71
    ensures Sq(7 * k + 5) <= 50 * Sq(k)
  {
    assert Sq(7 * k + 5) == 49 * Sq(k) + 70 * k + 25;
    assert Sq(k) >= 71 * k;
  }

  /** Along a free diagonal of `k` steps the active estimate exceeds the cost of the route
      exactly under that condition; then it is neither admissible nor consistent. */
  lemma EuclideanOverestimatesIff(free: set<Cell>, k: nat)
    requires Diagonals(k) <= free
    ensures var p := ProblemWith(Euclidean, free, Cell(0, 0), Cell(k, k));
            && (p.estimate(p.start) > Cost(Diagonal(k)) <==> DiagonalExceeds(k))
            && (DiagonalExceeds(k) ==> !Admissible(p, Cell(k, k)) && !Consistent(p))
  {
    hide Sq, IntSqrt;
    DiagonalExceedsIff(k);
    SqNonNegative(k);
    assert Euclidean(Cell(0, 0), Cell(k, k)) == IntSqrt(2 * Sq(k));
    hide Euclidean;
    DiagonalRoute(free, k);
    if DiagonalExceeds(k) {
      EuclideanAtGoal(Cell(k, k));
      CheaperThanEstimate(ProblemWith(Euclidean, free, Cell(0, 0), Cell(k, k)), k);
    }
  }

  lemma EuclideanAtGoal(goal: Cell)
    ensures Euclidean(goal, goal) == 0
  {
  }

  lemma ManhattanOverestimates(free: set<Cell>, k: nat)
    requires k > 0 && Diagonals(k) <= free
    ensures var p := ProblemWith(Manhattan, free, Cell(0, 0), Cell(k, k));
            !Admissible(p, Cell(k, k)) && !Consistent(p)
  {
    CheaperThanEstimate(ProblemWith(Manhattan, free, Cell(0, 0), Cell(k, k)), k);
  }

  lemma CheaperThanEstimate(p: Problem, k: nat)
    requires p.start == Cell(0, 0) && Diagonals(k) <= p.free
    requires p.estimate(p.start) > 14 * k && p.estimate(Cell(k, k)) == 0
    ensures !Admissible(p, Cell(k, k)) && !Consistent(p)
  {
    DiagonalRoute(p.free, k);
    if Consistent(p) { ConsistentIsAdmissible(p, Cell(k, k)); }
  }
}
