/** The A* search of `Step10.cpp` as a transition system over mathematical state: what
    one `pop` and one look at a neighbour do, the invariant both keep, and what the
    invariant says when the search stops. */
module AStarSearch {
  import opened Collections
  import opened RouteGraph

  /** A queue entry.  `priority` is `level` plus the estimate of the remaining cost. */
  datatype Node = Node(cell: Cell, level: int, priority: int)

  /** The fixed input of a run: the free cells, the start, and for each cell the
      estimate that is added to its level. */
  datatype Problem = Problem(free: set<Cell>, start: Cell, estimate: Cell -> nat)

  /** `order` lists the closed cells, oldest first; `open` holds the queue entry of each
      queued cell; `level` and `dir` give the level and the parent direction of every
      cell that is closed or queued. */
  datatype Search = Search(
    order: seq<Cell>,
    open: map<Cell, Node>,
    level: map<Cell, int>,
    dir: map<Cell, int>)

  function Entry(p: Problem, c: Cell, level: int): Node {
    Node(c, level, level + p.estimate(c))
  }

  function Initial(p: Problem): Search {
    Search([], map[p.start := Entry(p, p.start, 0)], map[p.start := 0], map[])
  }

  /** Move a queued cell to the closed cells. */
  function Close(st: Search, c: Cell): Search
    requires c in st.open
  {
    st.(order := st.order + [c], open := st.open - {c})
  }

  /** Look at the neighbour of `u` in direction `i`: queue it, improve its entry, or
      leave it alone. */
  function Relax(p: Problem, st: Search, u: Cell, i: int): Search
    requires IsDirection(i) && u in st.level
  {
    var v := Neighbour(u, i);
    var nd := Entry(p, v, st.level[u] + StepCost(i));
    if v in p.free && v !in st.order && (v in st.open ==> st.open[v].priority > nd.priority) then
      st.(open := st.open[v := nd], level := st.level[v := nd.level], dir := st.dir[v := Opposite(i)])
    else
      st
  }

  /** An entry in the queue is replaced by a strictly better one or stays, and with it the
      level and the parent direction of its cell. */
  lemma RelaxImproves(p: Problem, st: Search, u: Cell, i: int, c: Cell)
    requires IsDirection(i) && u in st.level && c in st.open && c in st.level && c in st.dir
    ensures var st' := Relax(p, st, u, i);
            && c in st'.open && c in st'.level && c in st'.dir && st'.open[c].priority <= st.open[c].priority
            && (st'.open[c].priority == st.open[c].priority ==>
                st'.open[c] == st.open[c] && st'.level[c] == st.level[c] && st'.dir[c] == st.dir[c])
  {
  }

  // ----- The invariant -----

  /** The parent direction of `c` leads to a cell among `earlier`, and the level of `c`
      is that cell's level plus the cost of the step. */
  ghost predicate HasParent(st: Search, c: Cell, earlier: seq<Cell>) {
    && c in st.level && c in st.dir && IsDirection(st.dir[c])
    && var u := Neighbour(c, st.dir[c]);
    && u in earlier && u in st.level
    && st.level[c] == st.level[u] + StepCost(st.dir[c])
  }

  /** Closed and queued cells: which cells they are and what their levels can be. */
  ghost predicate Members(p: Problem, st: Search) {
    && NoRepeats(st.order)
    && (forall c :: c in st.level <==> c in st.order || c in st.open)
    && (forall c :: c in st.order ==> c !in st.open)
    && p.start in st.level && st.level[p.start] == 0
    && (st.order != [] ==> st.order[0] == p.start)
    && (forall c :: c in st.level && c != p.start ==> c in p.free && st.level[c] >= 10)
    && (forall c :: c in st.open ==> st.open[c] == Entry(p, c, st.level[c]))
  }

  /** Every closed or queued cell but the start was reached from a cell closed strictly
      earlier. */
  ghost predicate Parents(p: Problem, st: Search) {
    && (forall c :: c in st.open && c != p.start ==> HasParent(st, c, st.order))
    && (forall k :: 1 <= k < |st.order| ==> HasParent(st, st.order[k], st.order[..k]))
  }

  ghost predicate Tree(p: Problem, st: Search) {
    Members(p, st) && Parents(p, st)
  }

  lemma TreeMembers(p: Problem, st: Search)
    requires Tree(p, st)
    ensures Members(p, st)
  {
  }

  /** Direction `i` of the closed cell `u` has been dealt with. */
  ghost predicate Settled(p: Problem, st: Search, u: Cell, i: int)
    requires IsDirection(i)
  {
    u in st.level &&
    var v := Neighbour(u, i);
    v in p.free ==> v in st.level && (v in st.open ==> st.level[v] <= st.level[u] + StepCost(i))
  }

  /** All directions of every closed cell but the newest have been dealt with, and of the
      newest those below `done`. */
  ghost predicate Frontier(p: Problem, st: Search, done: int) {
    && (forall k, i :: 0 <= k < |st.order| - 1 && IsDirection(i) ==> Settled(p, st, st.order[k], i))
    && (st.order != [] ==>
          forall i :: IsDirection(i) && i < done ==> Settled(p, st, st.order[|st.order| - 1], i))
  }

  /** The invariant between two expansions. */
  ghost predicate Inv(p: Problem, st: Search) {
    Tree(p, st) && Frontier(p, st, DIRECTIONS)
  }

  lemma TreeFrontierInv(p: Problem, st: Search)
    requires Tree(p, st) && Frontier(p, st, DIRECTIONS)
    ensures Inv(p, st)
  {
  }

  lemma InitialInv(p: Problem)
    ensures Inv(p, Initial(p))
  {
  }

  lemma CloseKeepsMembers(p: Problem, st: Search, c: Cell)
    requires Members(p, st) && c in st.open
    requires st.order == [] ==> c == p.start
    ensures Members(p, Close(st, c))
  {
    var st' := Close(st, c);
    assert forall x :: x in st'.order <==> x in st.order || x == c;
  }

  lemma ParentStays(st: Search, st': Search, c: Cell, earlier: seq<Cell>, earlier': seq<Cell>)
    requires HasParent(st, c, earlier) && st'.level == st.level && st'.dir == st.dir && earlier <= earlier'
    ensures HasParent(st', c, earlier')
  {
    hide StepCost, Neighbour;
  }

  lemma StartGoesFirst(p: Problem, st: Search, c: Cell)
    requires Members(p, st) && c in st.open && (st.order == [] ==> c == p.start)
    ensures st.order != [] ==> c != p.start
  {
  }

  lemma CloseKeepsParents(p: Problem, st: Search, c: Cell)
    requires Tree(p, st) && c in st.open
    requires st.order == [] ==> c == p.start
    ensures Parents(p, Close(st, c))
  {
    hide HasParent, Members;
    var st' := Close(st, c);
    StartGoesFirst(p, st, c);
    forall d | d in st'.open && d != p.start
      ensures HasParent(st', d, st'.order)
    {
      ParentStays(st, st', d, st.order, st'.order);
    }
    forall k | 1 <= k < |st'.order|
      ensures HasParent(st', st'.order[k], st'.order[..k])
    {
      if k < |st.order| {
        ParentStays(st, st', st.order[k], st.order[..k], st'.order[..k]);
      } else {
        ParentStays(st, st', c, st.order, st'.order[..k]);
      }
    }
  }

  lemma CloseKeepsFrontier(p: Problem, st: Search, c: Cell)
    requires Inv(p, st) && c in st.open
    ensures Frontier(p, Close(st, c), 0)
  {
    var st' := Close(st, c);
    forall k, i | 0 <= k < |st'.order| - 1 && IsDirection(i)
      ensures Settled(p, st', st'.order[k], i)
    {
      assert Settled(p, st, st.order[k], i);
    }
  }

  lemma RelaxKeepsMembers(p: Problem, st: Search, u: Cell, i: int)
    requires Members(p, st) && IsDirection(i) && u in st.order
    ensures Members(p, Relax(p, st, u, i))
  {
  }

  lemma RelaxKeepsParents(p: Problem, st: Search, u: Cell, i: int)
    requires Tree(p, st) && IsDirection(i) && u in st.order
    ensures Parents(p, Relax(p, st, u, i))
  {
    var st' := Relax(p, st, u, i);
    OppositeUndoes(u, i);
    forall c | c in st'.open && c != p.start
      ensures HasParent(st', c, st'.order)
    {
      if st' == st || c != Neighbour(u, i) { assert HasParent(st, c, st.order); }
    }
    forall k | 1 <= k < |st'.order|
      ensures HasParent(st', st'.order[k], st'.order[..k])
    {
      assert HasParent(st, st.order[k], st.order[..k]);
    }
  }

  lemma RelaxKeepsSettled(p: Problem, st: Search, u: Cell, i: int, w: Cell, j: int)
    requires Members(p, st) && IsDirection(i) && IsDirection(j)
    requires u in st.order && w in st.order && Settled(p, st, w, j)
    ensures Settled(p, Relax(p, st, u, i), w, j)
  {
  }

  lemma RelaxKeepsFrontier(p: Problem, st: Search, i: int)
    requires Members(p, st) && IsDirection(i) && st.order != [] && Frontier(p, st, i)
    ensures Frontier(p, Relax(p, st, st.order[|st.order| - 1], i), i + 1)
  {
    var u := st.order[|st.order| - 1];
    var st' := Relax(p, st, u, i);
    forall k, j | 0 <= k < |st'.order| - 1 && IsDirection(j)
      ensures Settled(p, st', st'.order[k], j)
    {
      RelaxKeepsSettled(p, st, u, i, st.order[k], j);
    }
    forall j | IsDirection(j) && j < i + 1
      ensures Settled(p, st', u, j)
    {
      if j < i { RelaxKeepsSettled(p, st, u, i, u, j); }
    }
  }

  /** The closed cell `u` has `v` as its neighbour in direction `i`. */
  ghost predicate Offers(st: Search, u: Cell, i: int, v: Cell) {
    u in st.order && u in st.level && IsDirection(i) && Neighbour(u, i) == v
  }

  lemma QueuedLevelIsOffered(p: Problem, st: Search, v: Cell)
    requires Members(p, st) && HasParent(st, v, st.order)
    ensures exists u, i :: Offers(st, u, i, v) && st.level[v] == st.level[u] + StepCost(i)
  {
    OppositeUndoes(v, st.dir[v]);
    assert Offers(st, Neighbour(v, st.dir[v]), Opposite(st.dir[v]), v);
  }

  lemma QueuedLevelIsLowest(p: Problem, st: Search, v: Cell, u: Cell, i: int)
    requires Members(p, st) && Frontier(p, st, DIRECTIONS) && v in st.open && v in p.free
    requires Offers(st, u, i, v)
    ensures v in st.level && st.level[v] <= st.level[u] + StepCost(i)
  {
    var k :| 0 <= k < |st.order| && st.order[k] == u;
    assert Settled(p, st, st.order[k], i);
  }

  /** Between expansions the level of a queued cell is the least level at which any closed
      neighbour offers it, and one of them offers exactly that. */
  lemma QueuedLevelIsMinimum(p: Problem, st: Search, v: Cell)
    requires Inv(p, st) && v in st.open && v != p.start
    ensures exists u, i :: Offers(st, u, i, v) && st.level[v] == st.level[u] + StepCost(i)
    ensures forall u, i :: Offers(st, u, i, v) ==> st.level[v] <= st.level[u] + StepCost(i)
  {
    QueuedLevelIsOffered(p, st, v);
    forall u, i | Offers(st, u, i, v)
      ensures st.level[v] <= st.level[u] + StepCost(i)
    {
      QueuedLevelIsLowest(p, st, v, u, i);
    }
  }

  lemma {:induction false} NoRepeatsFits<T>(s: seq<T>, all: set<T>)
    requires NoRepeats(s) && forall k :: 0 <= k < |s| ==> s[k] in all
    ensures |s| <= |all|
    decreases |s|
  {
    if s != [] {
      var last := |s| - 1;
      NoRepeatsFits(s[..last], all - {s[last]});
    }
  }

  /** A cell is closed at most once, so closing goes on for at most as many rounds as there
      are cells. */
  lemma ClosedIsBounded(p: Problem, st: Search)
    requires Members(p, st)
    ensures |st.order| <= |p.free + {p.start}|
  {
    NoRepeatsFits(st.order, p.free + {p.start});
  }

  // ----- Completeness -----

  lemma {:induction false} ExhaustedReachesAll(p: Problem, st: Search, route: seq<int>)
    requires Inv(p, st) && st.open == map[]
    requires IsRoute(route) && Walkable(p.free, p.start, route)
    ensures End(p.start, route) in st.order
    decreases |route|
  {
    if route == [] {
      assert p.start in st.level;
    } else {
      var last := |route| - 1;
      ExhaustedReachesAll(p, st, route[..last]);
      hide Inv;
      NeighbourIsKnown(p, st, End(p.start, route[..last]), route[last]);
    }
  }

  /** Between rounds every free neighbour of a closed cell is closed or queued. */
  lemma NeighbourIsKnown(p: Problem, st: Search, u: Cell, i: int)
    requires Inv(p, st) && u in st.order && IsDirection(i) && Neighbour(u, i) in p.free
    ensures Neighbour(u, i) in st.order || Neighbour(u, i) in st.open
  {
    hide Members, Parents, Neighbour, Settled;
    ClosedIsSettled(p, st, u, i);
    SettledIsKnown(p, st, u, i);
    KnownIsEither(p, st, Neighbour(u, i));
  }

  lemma SettledIsKnown(p: Problem, st: Search, u: Cell, i: int)
    requires IsDirection(i) && Settled(p, st, u, i) && Neighbour(u, i) in p.free
    ensures Neighbour(u, i) in st.level
  {
    hide Neighbour;
  }

  lemma KnownIsEither(p: Problem, st: Search, c: Cell)
    requires Members(p, st) && c in st.level
    ensures c in st.order || c in st.open
  {
  }

  lemma ClosedIsSettled(p: Problem, st: Search, u: Cell, i: int)
    requires Frontier(p, st, DIRECTIONS) && u in st.order && IsDirection(i)
    ensures Settled(p, st, u, i)
  {
    hide Settled, Neighbour;
    var k :| 0 <= k < |st.order| && st.order[k] == u;
  }

  /** If the queue runs empty without the goal having been closed, no route exists. */
  lemma ExhaustedMeansDisconnected(p: Problem, st: Search, goal: Cell)
    requires Inv(p, st) && st.open == map[] && goal !in st.order
    ensures !Connected(p.free, p.start, goal)
  {
    forall route | Leads(p.free, p.start, route, goal)
      ensures false
    {
      ExhaustedReachesAll(p, st, route);
    }
  }

  // ----- Reconstruction -----

  /** `trail` lists positions in the closing order, ascending, such that each step of
      `route` leads from one listed cell to the next at that step's cost. */
  ghost predicate IsTrail(p: Problem, st: Search, trail: seq<int>, route: seq<int>) {
    && IsRoute(route) && |trail| == |route| + 1
    && (forall i :: 0 <= i < |trail| ==> 0 <= trail[i] < |st.order|)
    && (forall i, j :: 0 <= i < j < |trail| ==> trail[i] < trail[j])
    && (forall i :: 0 <= i < |route| ==> StepsTo(st, st.order[trail[i]], route[i], st.order[trail[i + 1]]))
  }

  ghost predicate StepsTo(st: Search, u: Cell, i: int, v: Cell)
    requires IsDirection(i)
  {
    Neighbour(u, i) == v && u in st.level && v in st.level && st.level[v] == st.level[u] + StepCost(i)
  }

  /** The parent of a closed cell was closed earlier, and stepping back from it in the
      opposite direction returns to the cell. */
  lemma ParentClosedEarlier(p: Problem, st: Search, k: int) returns (j: int)
    requires Tree(p, st) && 0 <= k < |st.order| && st.order[k] != p.start
    ensures st.order[k] in st.dir && IsDirection(st.dir[st.order[k]])
    ensures 0 <= j < k && st.order[j] == Neighbour(st.order[k], st.dir[st.order[k]])
    ensures StepsTo(st, st.order[j], Opposite(st.dir[st.order[k]]), st.order[k])
  {
    assert HasParent(st, st.order[k], st.order[..k]);
    var c := st.order[k];
    j :| 0 <= j < k && st.order[..k][j] == Neighbour(c, st.dir[c]);
    OppositeUndoes(c, st.dir[c]);
  }

  lemma ExtendTrail(p: Problem, st: Search, trail: seq<int>, route: seq<int>, j: int, i: int)
    requires IsTrail(p, st, trail, route) && IsDirection(i)
    requires 0 <= j < trail[0] && StepsTo(st, st.order[j], i, st.order[trail[0]])
    ensures IsTrail(p, st, [j] + trail, [i] + route)
  {
  }

  lemma {:induction false} TrailPrefix(p: Problem, st: Search, trail: seq<int>, route: seq<int>, k: nat)
    requires Members(p, st) && IsTrail(p, st, trail, route) && trail[0] == 0 && k <= |route|
    ensures End(p.start, route[..k]) == st.order[trail[k]]
    ensures st.order[trail[k]] in st.level && Cost(route[..k]) == st.level[st.order[trail[k]]]
    ensures Walkable(p.free, p.start, route[..k])
  {
    if k > 0 {
      assert route[..k][..k - 1] == route[..k - 1];
      TrailPrefix(p, st, trail, route, k - 1);
      assert StepsTo(st, st.order[trail[k - 1]], route[k - 1], st.order[trail[k]]);
      assert st.order[trail[k]] != st.order[0];
    }
  }

  /** A trail from the start spells out a route over free cells whose cost is the
      level of the cell it ends at. */
  lemma TrailIsRoute(p: Problem, st: Search, trail: seq<int>, route: seq<int>)
    requires Members(p, st) && IsTrail(p, st, trail, route) && trail[0] == 0
    ensures Leads(p.free, p.start, route, st.order[trail[|route|]])
    ensures st.order[trail[|route|]] in st.level && Cost(route) == st.level[st.order[trail[|route|]]]
  {
    assert route[..|route|] == route;
    TrailPrefix(p, st, trail, route, |route|);
  }

  lemma TrailIsSimple(p: Problem, st: Search, trail: seq<int>, route: seq<int>)
    requires Members(p, st) && IsTrail(p, st, trail, route) && trail[0] == 0
    ensures Simple(p.start, route)
  {
    forall i, j | 0 <= i < j <= |route|
      ensures End(p.start, route[..i]) != End(p.start, route[..j])
    {
      TrailPrefix(p, st, trail, route, i);
      TrailPrefix(p, st, trail, route, j);
    }
  }

  /** The route leads from `cur`, the cell closed at position `k`, along closed cells to
      `goal`, the newest of them. */
  ghost predicate Retraced(p: Problem, st: Search, cur: Cell, k: nat, goal: Cell, route: seq<int>) {
    exists trail :: IsTrail(p, st, trail, route) && trail[0] == k && cur == st.order[k]
                    && goal == st.order[trail[|route|]]
  }

  lemma RetraceNewest(p: Problem, st: Search)
    requires st.order != []
    ensures var k := |st.order| - 1; Retraced(p, st, st.order[k], k, st.order[k], [])
  {
    assert IsTrail(p, st, [|st.order| - 1], []);
  }

  /** One step back along the parent direction. */
  lemma RetraceStep(p: Problem, st: Search, cur: Cell, k: nat, goal: Cell, route: seq<int>) returns (j: nat)
    requires Tree(p, st) && Retraced(p, st, cur, k, goal, route) && cur != p.start
    ensures cur in st.order && cur in st.dir && IsDirection(st.dir[cur])
    ensures j < k && Retraced(p, st, Neighbour(cur, st.dir[cur]), j, goal, [Opposite(st.dir[cur])] + route)
  {
    hide Tree, Members, Parents, StepsTo;
    var trail :| IsTrail(p, st, trail, route) && trail[0] == k && cur == st.order[k]
                 && goal == st.order[trail[|route|]];
    j := ParentClosedEarlier(p, st, k);
    ExtendTrail(p, st, trail, route, j, Opposite(st.dir[cur]));
  }

  /** Once the start is reached, the route read back is simple, runs over free cells, leads
      to the goal, and costs what the goal's level says. */
  lemma RetraceDone(p: Problem, st: Search, k: nat, goal: Cell, route: seq<int>)
    requires Members(p, st) && Retraced(p, st, p.start, k, goal, route)
    ensures Leads(p.free, p.start, route, goal) && Simple(p.start, route)
    ensures goal in st.level && Cost(route) == st.level[goal]
  {
    var trail :| IsTrail(p, st, trail, route) && trail[0] == k && p.start == st.order[k]
                 && goal == st.order[trail[|route|]];
    assert trail[0] == 0;
    TrailIsRoute(p, st, trail, route);
    TrailIsSimple(p, st, trail, route);
  }

  lemma {:induction false} CostNonNegative(route: seq<int>)
    ensures Cost(route) >= 0
    decreases |route|
  {
    if route != [] { CostNonNegative(route[..|route| - 1]); }
  }

  /** What the route to the newest closed cell says about the problem. */
  lemma RouteFound(p: Problem, goal: Cell, route: seq<int>)
    requires Leads(p.free, p.start, route, goal) && Simple(p.start, route)
    ensures route != [] <==> p.start != goal
    ensures Connected(p.free, p.start, goal)
  {
    assert route[..|route|] == route;
    if route != [] {
      assert End(p.start, route[..0]) != End(p.start, route[..|route|]);
    }
  }

  /** One pass of the direction loop keeps the invariant and settles one more direction. */
  lemma RelaxKeepsAll(p: Problem, st: Search, u: Cell, i: int)
    requires Tree(p, st) && Frontier(p, st, i) && IsDirection(i)
    requires st.order != [] && u == st.order[|st.order| - 1] && u in st.level
    ensures var st' := Relax(p, st, u, i);
            && Tree(p, st') && Frontier(p, st', i + 1)
            && st'.order == st.order && u in st'.level && st'.level[u] == st.level[u]
  {
    hide Parents, Frontier;
    RelaxKeepsMembers(p, st, u, i);
    RelaxKeepsParents(p, st, u, i);
    RelaxKeepsFrontier(p, st, i);
  }

  // ----- Runs -----

  /** Look at the first `k` neighbours of `u` in turn. */
  function RelaxUpTo(p: Problem, st: Search, u: Cell, k: nat): (r: Search)
    requires k <= DIRECTIONS && u in st.level
    ensures u in r.level
  {
    if k == 0 then st else Relax(p, RelaxUpTo(p, st, u, k - 1), u, k - 1)
  }

  lemma RelaxUpToStep(p: Problem, st: Search, u: Cell, k: nat)
    requires k <= DIRECTIONS && u in st.level
    ensures RelaxUpTo(p, st, u, 0) == st
    ensures k < DIRECTIONS ==> IsDirection(k) && RelaxUpTo(p, st, u, k + 1) == Relax(p, RelaxUpTo(p, st, u, k), u, k)
  {
    hide Relax;
  }

  /** A queued cell of least priority. */
  ghost predicate IsPick(st: Search, c: Cell) {
    c in st.open && c in st.level && forall d :: d in st.open ==> st.open[c].priority <= st.open[d].priority
  }

  /** Close a cell and look at all its neighbours. */
  function Round(p: Problem, st: Search, c: Cell): Search
    requires c in st.open && c in st.level
  {
    RelaxUpTo(p, Close(st, c), c, DIRECTIONS)
  }

  /** The state after closing these cells in turn. */
  ghost function After(p: Problem, picks: seq<Cell>): Search
    decreases |picks|
  {
    if picks == [] then Initial(p)
    else
      var st, c := After(p, picks[..|picks| - 1]), picks[|picks| - 1];
      if c in st.open && c in st.level then Round(p, st, c) else st
  }

  /** The program may close these cells in turn: each is one of least priority when it is
      taken. */
  ghost predicate IsRun(p: Problem, picks: seq<Cell>)
    decreases |picks|
  {
    picks == []
    || (IsRun(p, picks[..|picks| - 1]) && IsPick(After(p, picks[..|picks| - 1]), picks[|picks| - 1]))
  }

  lemma RunMore(p: Problem, picks: seq<Cell>, c: Cell)
    requires IsRun(p, picks) && IsPick(After(p, picks), c)
    ensures IsRun(p, picks + [c]) && After(p, picks + [c]) == Round(p, After(p, picks), c)
  {
    assert (picks + [c])[..|picks|] == picks;
    hide Round;
  }

  lemma {:induction false} RelaxUpToKeeps(p: Problem, st: Search, u: Cell, k: nat)
    requires Tree(p, st) && Frontier(p, st, 0) && k <= DIRECTIONS
    requires st.order != [] && u == st.order[|st.order| - 1] && u in st.level
    ensures var st' := RelaxUpTo(p, st, u, k);
            Tree(p, st') && Frontier(p, st', k) && st'.order == st.order && st'.level[u] == st.level[u]
  {
    hide Tree, Frontier, Relax;
    if k > 0 {
      RelaxUpToKeeps(p, st, u, k - 1);
      DirectionRange(k - 1);
      RelaxKeepsAll(p, RelaxUpTo(p, st, u, k - 1), u, k - 1);
    }
  }

  lemma RoundKeepsInv(p: Problem, st: Search, c: Cell)
    requires Inv(p, st) && c in st.open && c in st.level && (st.order == [] ==> c == p.start)
    ensures Inv(p, Round(p, st, c)) && Round(p, st, c).order == st.order + [c]
  {
    CloseKeepsMembers(p, st, c);
    CloseKeepsParents(p, st, c);
    CloseKeepsFrontier(p, st, c);
    hide Members, Parents, Frontier, RelaxUpTo;
    RelaxUpToKeeps(p, Close(st, c), c, DIRECTIONS);
    TreeFrontierInv(p, Round(p, st, c));
  }

  /** The invariant holds at every point of every run, and the start is closed first. */
  lemma {:induction false} RunKeepsInv(p: Problem, picks: seq<Cell>)
    requires IsRun(p, picks)
    ensures Inv(p, After(p, picks)) && After(p, picks).order == picks
    ensures picks != [] ==> picks[0] == p.start
    decreases |picks|
  {
    hide Inv, Round;
    if picks == [] {
      InitialInv(p);
    } else {
      var init, c := picks[..|picks| - 1], picks[|picks| - 1];
      RunKeepsInv(p, init);
      RoundKeepsInv(p, After(p, init), c);
      assert picks == init + [c];
    }
  }

  /** Closed cells keep their levels. */
  lemma {:induction false} RelaxUpToKeepsLevels(p: Problem, st: Search, u: Cell, k: nat, c: Cell)
    requires k <= DIRECTIONS && u in st.level && c in st.order && c in st.level
    ensures var st' := RelaxUpTo(p, st, u, k); st'.order == st.order && c in st'.level && st'.level[c] == st.level[c]
  {
    if k > 0 { RelaxUpToKeepsLevels(p, st, u, k - 1, c); }
  }

  /** What a run that ends by closing the goal makes the route cost. */
  ghost predicate Finds(p: Problem, goal: Cell, picks: seq<Cell>, cost: int) {
    && IsRun(p, picks) && goal !in picks && IsPick(After(p, picks), goal)
    && After(p, picks).level[goal] == cost
  }

  ghost predicate CanCost(p: Problem, goal: Cell, cost: int) { exists picks :: Finds(p, goal, picks, cost) }

  // ----- How far from cheapest -----

  function Times(a: nat, x: int): int { a * x }

  lemma TimesAdd(a: nat, x: int, y: int)
    ensures Times(a, x + y) == Times(a, x) + Times(a, y)
  {
  }

  lemma TimesLeq(a: nat, b: nat, x: int, y: int)
    requires a <= b && x <= y && 0 <= y
    ensures Times(a, x) <= Times(b, y)
  {
    assert a * x <= a * y <= b * y;
  }

  /** No step into a free cell lowers the estimate by more than the step costs. */
  ghost predicate Consistent(p: Problem) {
    forall c, i :: IsDirection(i) && Neighbour(c, i) in p.free
                   ==> p.estimate(c) <= StepCost(i) + p.estimate(Neighbour(c, i))
  }

  /** No step into a free cell lowers the estimate by more than b/a times its cost. */
  ghost predicate Lax(p: Problem, a: nat, b: nat) {
    forall c, i :: IsDirection(i) && Neighbour(c, i) in p.free
                   ==> Times(a, p.estimate(c)) <= Times(b, StepCost(i)) + Times(a, p.estimate(Neighbour(c, i)))
  }

  lemma ConsistentIsLax(p: Problem)
    ensures Consistent(p) <==> Lax(p, 1, 1)
  {
  }

  /** No route reaches `c` for less than a/b times its level. */
  ghost predicate Within(p: Problem, st: Search, c: Cell, a: nat, b: nat) {
    c in st.level && forall route :: Leads(p.free, p.start, route, c) ==> Times(a, st.level[c]) <= Times(b, Cost(route))
  }

  ghost predicate AllWithin(p: Problem, st: Search, a: nat, b: nat) {
    forall k :: 0 <= k < |st.order| ==> Within(p, st, st.order[k], a, b)
  }

  lemma {:induction false} LaxAlong(p: Problem, a: nat, b: nat, route: seq<int>, k: nat)
    requires Lax(p, a, b) && IsRoute(route) && Walkable(p.free, p.start, route) && k <= |route|
    ensures Times(b, Cost(route[..k])) + Times(a, p.estimate(End(p.start, route[..k])))
         <= Times(b, Cost(route)) + Times(a, p.estimate(End(p.start, route)))
    decreases |route|
  {
    hide Times;
    if k < |route| {
      var last := |route| - 1;
      assert route[..last][..k] == route[..k];
      LaxAlong(p, a, b, route[..last], k);
      assert Neighbour(End(p.start, route[..last]), route[last]) in p.free;
      TimesAdd(b, Cost(route[..last]), StepCost(route[last]));
    } else {
      assert route[..k] == route;
    }
  }

  lemma LevelsNonNegative(p: Problem, st: Search, c: Cell)
    requires Members(p, st) && c in st.level
    ensures st.level[c] >= 0
  {
  }

  /** Stepping out of the closed cells: the queued cell is within the bound of the route. */
  lemma StepsOut(p: Problem, st: Search, route: seq<int>, a: nat, b: nat)
    requires Members(p, st) && Frontier(p, st, DIRECTIONS) && AllWithin(p, st, a, b) && a <= b
    requires route != [] && IsRoute(route) && Walkable(p.free, p.start, route)
    requires End(p.start, route[..|route| - 1]) in st.order && End(p.start, route) !in st.order
    ensures End(p.start, route) in st.open && End(p.start, route) in st.level
    ensures Times(a, st.level[End(p.start, route)]) <= Times(b, Cost(route))
  {
    hide Times, Members, Settled, AllWithin, Within, Frontier;
    var last := |route| - 1;
    var u, v := End(p.start, route[..last]), End(p.start, route);
    ClosedIsSettled(p, st, u, route[last]);
    SettledIsKnown(p, st, u, route[last]);
    KnownIsEither(p, st, v);
    SettledLevel(p, st, u, route[last]);
    LevelsNonNegative(p, st, u);
    ClosedIsWithin(p, st, u, route[..last], a, b);
    TimesAdd(a, st.level[u], StepCost(route[last]));
    TimesAdd(b, Cost(route[..last]), StepCost(route[last]));
    TimesLeq(a, b, StepCost(route[last]), StepCost(route[last]));
    TimesLeq(a, a, st.level[v], st.level[u] + StepCost(route[last]));
  }

  lemma SettledLevel(p: Problem, st: Search, u: Cell, i: int)
    requires IsDirection(i) && Settled(p, st, u, i) && Neighbour(u, i) in p.free && Neighbour(u, i) in st.open
    ensures u in st.level && Neighbour(u, i) in st.level && st.level[Neighbour(u, i)] <= st.level[u] + StepCost(i)
  {
  }

  lemma ClosedIsWithin(p: Problem, st: Search, u: Cell, route: seq<int>, a: nat, b: nat)
    requires AllWithin(p, st, a, b) && u in st.order && IsRoute(route) && Walkable(p.free, p.start, route)
    requires End(p.start, route) == u
    ensures u in st.level && Times(a, st.level[u]) <= Times(b, Cost(route))
  {
    hide Times;
    var i :| 0 <= i < |st.order| && st.order[i] == u;
    assert Within(p, st, st.order[i], a, b) && Leads(p.free, p.start, route, u);
  }

  /** A route to a cell that is not closed passes through a queued cell whose level is
      within the bound of the route up to there. */
  lemma {:induction false} CrossesFrontier(p: Problem, st: Search, route: seq<int>, a: nat, b: nat) returns (k: nat)
    requires Members(p, st) && Frontier(p, st, DIRECTIONS) && st.order != [] && AllWithin(p, st, a, b) && a <= b
    requires IsRoute(route) && Walkable(p.free, p.start, route) && End(p.start, route) !in st.order
    ensures k <= |route| && End(p.start, route[..k]) in st.open && End(p.start, route[..k]) in st.level
    ensures Times(a, st.level[End(p.start, route[..k])]) <= Times(b, Cost(route[..k]))
    decreases |route|
  {
    hide Times, Frontier, AllWithin;
    var last := |route| - 1;
    if End(p.start, route[..last]) in st.order {
      k := |route|;
      assert route[..k] == route;
      StepsOut(p, st, route, a, b);
    } else {
      k := CrossesFrontier(p, st, route[..last], a, b);
      assert route[..last][..k] == route[..k];
    }
  }

  /** Any route to a queued cell of least priority is within the bound of its level. */
  lemma RouteToLeast(p: Problem, st: Search, c: Cell, route: seq<int>, a: nat, b: nat)
    requires Inv(p, st) && Lax(p, a, b) && a <= b && IsPick(st, c) && st.order != [] && AllWithin(p, st, a, b)
    requires Leads(p.free, p.start, route, c)
    ensures Times(a, st.level[c]) <= Times(b, Cost(route))
  {
    assert c !in st.order && st.open[c] == Entry(p, c, st.level[c]);
    assert Members(p, st) && Frontier(p, st, DIRECTIONS);
    assert IsRoute(route) && Walkable(p.free, p.start, route) && End(p.start, route) == c;
    var k := CrossesFrontier(p, st, route, a, b);
    var d := End(p.start, route[..k]);
    assert st.open[d] == Entry(p, d, st.level[d]);
    assert st.open[c].priority <= st.open[d].priority;
    LaxAlong(p, a, b, route, k);
    LeastBound(a, b, st.level[c], p.estimate(c), st.level[d], p.estimate(d), Cost(route[..k]), Cost(route));
  }

  lemma LeastBound(a: nat, b: nat, lc: int, ec: nat, ld: int, ed: nat, part: int, whole: int)
    requires lc + ec <= ld + ed && Times(a, ld) <= Times(b, part)
    requires Times(b, part) + Times(a, ed) <= Times(b, whole) + Times(a, ec)
    ensures Times(a, lc) <= Times(b, whole)
  {
    assert Times(a, lc + ec) <= Times(a, ld + ed);
    TimesAdd(a, lc, ec);
    TimesAdd(a, ld, ed);
  }

  lemma LeastPriorityIsWithin(p: Problem, st: Search, c: Cell, a: nat, b: nat)
    requires Inv(p, st) && Lax(p, a, b) && a <= b && IsPick(st, c) && AllWithin(p, st, a, b)
    requires st.order == [] ==> c == p.start && st.level[c] == 0
    ensures Within(p, st, c, a, b)
  {
    hide Inv, Lax, AllWithin, Leads;
    forall route | Leads(p.free, p.start, route, c)
      ensures Times(a, st.level[c]) <= Times(b, Cost(route))
    {
      if st.order == [] {
        CostNonNegative(route);
        TimesLeq(a, b, 0, Cost(route));
      } else {
        RouteToLeast(p, st, c, route, a, b);
      }
    }
  }

  lemma RoundKeepsWithin(p: Problem, st: Search, c: Cell, a: nat, b: nat)
    requires c in st.open && c in st.level && AllWithin(p, st, a, b) && Within(p, st, c, a, b)
    ensures AllWithin(p, Round(p, st, c), a, b)
  {
    hide Times;
    var st', st1 := Round(p, st, c), Close(st, c);
    RelaxUpToKeepsLevels(p, st1, c, DIRECTIONS, c);
    forall k | 0 <= k < |st'.order|
      ensures Within(p, st', st'.order[k], a, b)
    {
      var d := st1.order[k];
      assert Within(p, st, d, a, b) by { assert k < |st.order| ==> d == st.order[k]; }
      RelaxUpToKeepsLevels(p, st1, c, DIRECTIONS, d);
    }
  }

  /** At every point of every run, closed cells are within the bound. */
  lemma {:induction false} RunKeepsWithin(p: Problem, picks: seq<Cell>, a: nat, b: nat)
    requires IsRun(p, picks) && Lax(p, a, b) && a <= b
    ensures AllWithin(p, After(p, picks), a, b)
    decreases |picks|
  {
    hide Lax, Inv, Round, Within;
    if picks != [] {
      var init, c := picks[..|picks| - 1], picks[|picks| - 1];
      RunKeepsWithin(p, init, a, b);
      PickIsWithin(p, init, c, a, b);
      RoundKeepsWithin(p, After(p, init), c, a, b);
    }
  }

  lemma PickIsWithin(p: Problem, picks: seq<Cell>, c: Cell, a: nat, b: nat)
    requires IsRun(p, picks) && IsPick(After(p, picks), c) && Lax(p, a, b) && a <= b
    requires AllWithin(p, After(p, picks), a, b)
    ensures Within(p, After(p, picks), c, a, b)
  {
    hide Lax, Inv, Round, Within, AllWithin;
    RunKeepsInv(p, picks);
    LeastPriorityIsWithin(p, After(p, picks), c, a, b);
  }

  /** If no step lowers the estimate by more than b/a times its cost, no run finds a route
      that costs more than b/a times a cheapest one. */
  lemma CostWithin(p: Problem, goal: Cell, cost: int, a: nat, b: nat, other: seq<int>)
    requires CanCost(p, goal, cost) && Lax(p, a, b) && a <= b && Leads(p.free, p.start, other, goal)
    ensures Times(a, cost) <= Times(b, Cost(other))
  {
    hide Lax, Round, After, IsRun, AllWithin, IsPick, Times;
    var picks :| Finds(p, goal, picks, cost);
    RunKeepsWithin(p, picks, a, b);
    PickIsWithin(p, picks, goal, a, b);
  }

  /** In particular, with a consistent estimate every run finds a cheapest route. */
  lemma ConsistentFindsCheapest(p: Problem, goal: Cell, cost: int, other: seq<int>)
    requires CanCost(p, goal, cost) && Consistent(p) && Leads(p.free, p.start, other, goal)
    ensures cost <= Cost(other)
  {
    ConsistentIsLax(p);
    hide CanCost, Consistent, Lax, Leads;
    CostWithin(p, goal, cost, 1, 1, other);
  }
}
