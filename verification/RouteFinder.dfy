/** `pathFind` of `Step10.cpp`: the node maps, the two queues that are swapped when an
    entry is replaced, and the route read back from the direction map. */
module RouteFinder {
  import opened RouteGraph
  import opened AStarSearch
  import opened Estimates

  // ----- priority_queue<node> -----

  /** `q[0]` is the entry `top` returns: one of least priority. */
  predicate IsQueue(q: seq<Node>) {
    forall k :: 0 <= k < |q| ==> q[0].priority <= q[k].priority
  }

  method Push(q: seq<Node>, nd: Node) returns (r: seq<Node>)
    requires IsQueue(q)
    ensures IsQueue(r) && |r| == |q| + 1 && multiset(r) == multiset(q) + multiset{nd}
  {
    if q != [] && q[0].priority <= nd.priority {
      r := q + [nd];
    } else {
      r := [nd] + q;
    }
  }

  method Pop(q: seq<Node>) returns (r: seq<Node>)
    requires IsQueue(q) && q != []
    ensures IsQueue(r) && |r| == |q| - 1 && multiset(r) == multiset(q) - multiset{q[0]}
  {
    assert q == [q[0]] + q[1..];
    r := q[1..];
    if r != [] {
      var best := 0;
      for k := 1 to |r|
        invariant 0 <= best < |r|
        invariant forall j :: 0 <= j < k ==> r[best].priority <= r[j].priority
      {
        if r[k].priority < r[best].priority { best := k; }
      }
      r := ToFront(r, best);
    }
  }

  function ToFront(q: seq<Node>, k: nat): (r: seq<Node>)
    requires k < |q|
    ensures |r| == |q| && r[0] == q[k] && multiset(r) == multiset(q)
    ensures forall j :: 0 <= j < |r| ==> r[j] in q
  {
    assert q == q[..k] + [q[k]] + q[k + 1..];
    [q[k]] + q[..k] + q[k + 1..]
  }

  /** The entries of the queued cells, each once. */
  ghost function Entries(open: map<Cell, Node>): multiset<Node> { multiset(open.Values) }

  /** Each entry is filed under its own cell. */
  ghost predicate Filed(open: map<Cell, Node>) {
    forall c :: c in open ==> open[c].cell == c
  }

  lemma EntriesNone()
    ensures Entries(map[]) == multiset{}
  {
  }

  lemma NoEntries(open: map<Cell, Node>)
    requires Entries(open) == multiset{}
    ensures open == map[]
  {
    assert forall c :: c in open ==> open[c] in Entries(open);
  }

  lemma EntriesOnce(open: map<Cell, Node>, c: Cell)
    requires Filed(open) && c in open
    ensures open[c] in Entries(open)
    ensures forall nd :: nd in Entries(open) && nd.cell == c ==> nd == open[c]
  {
  }

  lemma EntriesAdd(open: map<Cell, Node>, nd: Node)
    requires Filed(open) && nd.cell !in open
    ensures Entries(open[nd.cell := nd]) == Entries(open) + multiset{nd}
  {
    var after := open[nd.cell := nd];
    forall e ensures e in after.Values <==> e == nd || e in open.Values {
      assert after[nd.cell] == nd;
      if e in open.Values {
        var c :| c in open && open[c] == e;
        assert after[c] == e;
      }
    }
    NotFiled(open, nd);
    OneMoreValue(open.Values, after.Values, nd);
  }

  lemma NotFiled(open: map<Cell, Node>, nd: Node)
    requires Filed(open) && nd.cell !in open
    ensures nd !in open.Values
  {
  }

  lemma OneMoreValue(s: set<Node>, t: set<Node>, nd: Node)
    requires nd !in s && forall e :: e in t <==> e == nd || e in s
    ensures multiset(t) == multiset(s) + multiset{nd}
  {
    assert t == s + {nd};
  }

  lemma EntriesRemove(open: map<Cell, Node>, c: Cell)
    requires Filed(open) && c in open
    ensures Entries(open - {c}) == Entries(open) - multiset{open[c]}
  {
    EntriesAdd(open - {c}, open[c]);
    assert (open - {c})[c := open[c]] == open;
  }

  lemma EntriesReplace(open: map<Cell, Node>, nd: Node)
    requires Filed(open) && nd.cell in open
    ensures Entries(open[nd.cell := nd]) == Entries(open) - multiset{open[nd.cell]} + multiset{nd}
  {
    EntriesRemove(open, nd.cell);
    EntriesAdd(open - {nd.cell}, nd);
    assert (open - {nd.cell})[nd.cell := nd] == open[nd.cell := nd];
  }

  lemma TopOfEntries(q: seq<Node>, open: map<Cell, Node>)
    requires IsQueue(q) && q != [] && multiset(q) == Entries(open) && Filed(open)
    ensures q[0].cell in open && q[0] == open[q[0].cell]
    ensures forall c :: c in open ==> q[0].priority <= open[c].priority
  {
    assert q[0] in multiset(q);
    forall c | c in open
      ensures q[0].priority <= open[c].priority
    {
      assert open[c] in multiset(q);
    }
  }

  lemma DropFromSum(a: multiset<Node>, b: multiset<Node>, e: Node)
    requires e in a
    ensures (a - multiset{e}) + b == (a + b) - multiset{e}
  {
  }

  /** Once a cell has been closed, no queued entry has priority 0, the mark of an unqueued
      cell. */
  lemma OpenIsPositive(p: Problem, st: Search)
    requires Members(p, st) && st.order != []
    ensures Filed(st.open) && forall c :: c in st.open ==> st.open[c].priority > 0
  {
    assert st.order[0] in st.order;
  }

  lemma EightDirections()
    ensures DIRECTIONS == 8
  {
  }

  /** The direction digits of a route. */
  function Directions(route: string): seq<int> {
    seq(|route|, k requires 0 <= k < |route| => route[k] as int - '0' as int)
  }

  const DIGITS := "01234567"

  /** The characters of a route are the digits of its directions. */
  lemma DirectionDigits(route: string)
    requires IsRoute(Directions(route))
    ensures forall k :: 0 <= k < |route| ==> Directions(route)[k] < |DIGITS| && route[k] == DIGITS[Directions(route)[k]]
  {
    EightDirections();
    forall k | 0 <= k < |route|
      ensures Directions(route)[k] < |DIGITS| && route[k] == DIGITS[Directions(route)[k]]
    {
      var d := Directions(route)[k];
      assert IsDirection(d) && |DIGITS| == 8;
      assert DIGITS[d] as int == '0' as int + d;
    }
  }

  class Finder {
    const n: nat
    const m: nat
    const grid: array2<int>
    const closed: array2<int>
    const open: array2<int>
    const dir: array2<int>
    const pq: array<seq<Node>>
    var pqi: int
    /** The estimate of the remaining distance from a cell to the goal. */
    const estimate: (Cell, Cell) -> nat
    ghost var st: Search

    constructor (grid: array2<int>, estimate: (Cell, Cell) -> nat)
      ensures this.grid == grid && this.estimate == estimate
      ensures n == grid.Length0 && m == grid.Length1
      ensures fresh(closed) && fresh(open) && fresh(dir) && fresh(pq)
      ensures Shaped() && Idle()
    {
      this.grid, this.estimate := grid, estimate;
      n, m := grid.Length0, grid.Length1;
      closed := new int[grid.Length0, grid.Length1];
      open := new int[grid.Length0, grid.Length1];
      dir := new int[grid.Length0, grid.Length1];
      pq := new seq<Node>[2](_ => []);
      pqi := 0;
    }

    predicate InBounds(c: Cell) { 0 <= c.x < n && 0 <= c.y < m }

    ghost predicate Shaped() {
      && grid.Length0 == closed.Length0 == open.Length0 == dir.Length0 == n
      && grid.Length1 == closed.Length1 == open.Length1 == dir.Length1 == m
      && grid != closed && grid != open && grid != dir
      && closed != open && closed != dir && open != dir
      && pq.Length == 2
    }

    /** Between calls both queues are empty. */
    ghost predicate Idle()
      reads pq
    {
      pq.Length == 2 && pq[0] == [] && pq[1] == []
    }

    lemma GridApart()
      requires Shaped()
      ensures grid != open && grid != dir && grid != closed
    {
    }

    /** The cells a search may enter. */
    ghost function Free(): set<Cell>
      requires Shaped()
      reads grid
    {
      set x, y | 0 <= x < n && 0 <= y < m && grid[x, y] != 1 :: Cell(x, y)
    }

    ghost function ProblemOf(start: Cell, goal: Cell): Problem
      requires Shaped()
      reads grid
    {
      Problem(Free(), start, c => 10 * estimate(c, goal))
    }

    ghost predicate IsProblem(p: Problem, goal: Cell)
      requires Shaped()
      reads grid
    {
      p.free == Free() && forall c :: p.estimate(c) == 10 * estimate(c, goal)
    }

    /** The node maps say what the search state says. */
    ghost predicate MapsAgree()
      requires Shaped()
      reads this, closed, open, dir
    {
      && (forall x, y :: 0 <= x < n && 0 <= y < m ==>
           closed[x, y] == if Cell(x, y) in st.order then 1 else 0)
      && (forall x, y :: 0 <= x < n && 0 <= y < m ==>
           open[x, y] == if Cell(x, y) in st.open then st.open[Cell(x, y)].priority else 0)
      && (forall x, y :: 0 <= x < n && 0 <= y < m && Cell(x, y) in st.dir ==>
           dir[x, y] == st.dir[Cell(x, y)])
    }

    /** The active queue holds the queued cells' entries, the other queue is empty. */
    ghost predicate QueuesAgree()
      requires Shaped()
      reads this, pq
    {
      0 <= pqi < 2 && IsQueue(pq[pqi]) && multiset(pq[pqi]) == Entries(st.open) && pq[1 - pqi] == []
    }

    method Reset()
      requires Shaped()
      modifies closed, open
      ensures forall x, y :: 0 <= x < n && 0 <= y < m ==> closed[x, y] == 0 && open[x, y] == 0
    {
      for y := 0 to m
        invariant forall x, z :: 0 <= x < n && 0 <= z < y ==> closed[x, z] == 0 && open[x, z] == 0
      {
        for x := 0 to n
          invariant forall x, z :: 0 <= x < n && 0 <= z < y ==> closed[x, z] == 0 && open[x, z] == 0
          invariant forall w :: 0 <= w < x ==> closed[w, y] == 0 && open[w, y] == 0
        {
          closed[x, y] := 0;
          open[x, y] := 0;
        }
      }
    }

    /** Move the top entry of the active queue to the other one. */
    method MoveTop()
      requires Shaped() && 0 <= pqi < 2 && IsQueue(pq[pqi]) && IsQueue(pq[1 - pqi]) && pq[pqi] != []
      modifies pq
      ensures IsQueue(pq[pqi]) && IsQueue(pq[1 - pqi])
      ensures multiset(pq[pqi]) == old(multiset(pq[pqi]) - multiset{pq[pqi][0]})
      ensures multiset(pq[1 - pqi]) == old(multiset(pq[1 - pqi]) + multiset{pq[pqi][0]})
      ensures |pq[pqi]| < old(|pq[pqi]|)
    {
      var from, to := pq[pqi], pq[1 - pqi];
      to := Push(to, from[0]);
      from := Pop(from);
      pq[pqi], pq[1 - pqi] := from, to;
    }

    /** Pour the active queue into the other one. */
    method Drain()
      requires Shaped() && 0 <= pqi < 2 && IsQueue(pq[pqi]) && IsQueue(pq[1 - pqi])
      modifies pq
      ensures pq[pqi] == [] && IsQueue(pq[1 - pqi])
      ensures multiset(pq[1 - pqi]) == old(multiset(pq[pqi]) + multiset(pq[1 - pqi]))
    {
      while pq[pqi] != []
        invariant IsQueue(pq[pqi]) && IsQueue(pq[1 - pqi])
        invariant multiset(pq[pqi]) + multiset(pq[1 - pqi]) == old(multiset(pq[pqi]) + multiset(pq[1 - pqi]))
        decreases |pq[pqi]|
      {
        MoveTop();
      }
    }

    /** Pour entries of the active queue into the other one until the wanted one is on
        top. */
    method Expose(wanted: Cell, ghost entry: Node)
      requires Shaped() && 0 <= pqi < 2
      requires IsQueue(pq[pqi]) && pq[1 - pqi] == []
      requires entry.cell == wanted && entry in multiset(pq[pqi])
      requires forall nd :: nd in multiset(pq[pqi]) && nd.cell == wanted ==> nd == entry
      modifies pq
      ensures IsQueue(pq[pqi]) && IsQueue(pq[1 - pqi]) && pq[pqi] != [] && pq[pqi][0] == entry
      ensures multiset(pq[pqi]) + multiset(pq[1 - pqi]) == old(multiset(pq[pqi]))
    {
      while pq[pqi][0].cell != wanted
        invariant IsQueue(pq[pqi]) && IsQueue(pq[1 - pqi])
        invariant multiset(pq[pqi]) + multiset(pq[1 - pqi]) == old(multiset(pq[pqi]))
        invariant entry in multiset(pq[pqi]) && pq[pqi] != []
        decreases |pq[pqi]|
      {
        MoveTop();
      }
      assert pq[pqi][0] in multiset(pq[pqi]);
    }

    /** Pour the smaller queue into the larger one and make that the active one. */
    method Unite()
      requires Shaped() && 0 <= pqi < 2 && IsQueue(pq[pqi]) && IsQueue(pq[1 - pqi])
      modifies this`pqi, pq
      ensures 0 <= pqi < 2 && IsQueue(pq[pqi]) && pq[1 - pqi] == []
      ensures multiset(pq[pqi]) == old(multiset(pq[pqi]) + multiset(pq[1 - pqi]))
    {
      if |pq[pqi]| > |pq[1 - pqi]| { pqi := 1 - pqi; }
      Drain();
      pqi := 1 - pqi;
    }

    /** Replace the entry of the queued cell `nd.cell` by `nd`. */
    method Replace(nd: Node, ghost entries: map<Cell, Node>)
      requires Shaped() && 0 <= pqi < 2
      requires IsQueue(pq[pqi]) && pq[1 - pqi] == []
      requires multiset(pq[pqi]) == Entries(entries) && Filed(entries) && nd.cell in entries
      modifies this`pqi, pq
      ensures 0 <= pqi < 2 && IsQueue(pq[pqi]) && pq[1 - pqi] == []
      ensures multiset(pq[pqi]) == Entries(entries[nd.cell := nd])
    {
      hide IsQueue, Entries;
      EntriesOnce(entries, nd.cell);
      EntriesReplace(entries, nd);
      Expose(nd.cell, entries[nd.cell]);
      DropTop(entries[nd.cell]);
      Unite();
      PushActive(nd);
    }

    /** Put an entry on the active queue. */
    method PushActive(nd: Node)
      requires Shaped() && 0 <= pqi < 2 && IsQueue(pq[pqi])
      modifies pq
      ensures IsQueue(pq[pqi]) && pq[1 - pqi] == old(pq[1 - pqi])
      ensures multiset(pq[pqi]) == old(multiset(pq[pqi])) + multiset{nd}
    {
      hide IsQueue;
      var q := Push(pq[pqi], nd);
      pq[pqi] := q;
    }

    /** Take the top entry off the active queue. */
    method DropTop(ghost entry: Node)
      requires Shaped() && 0 <= pqi < 2 && IsQueue(pq[pqi]) && IsQueue(pq[1 - pqi])
      requires pq[pqi] != [] && pq[pqi][0] == entry
      modifies pq
      ensures IsQueue(pq[pqi]) && IsQueue(pq[1 - pqi])
      ensures multiset(pq[pqi]) + multiset(pq[1 - pqi])
           == old(multiset(pq[pqi]) + multiset(pq[1 - pqi])) - multiset{entry}
    {
      hide IsQueue;
      var rest := Pop(pq[pqi]);
      DropFromSum(multiset(pq[pqi]), multiset(pq[1 - pqi]), entry);
      pq[pqi] := rest;
    }

    /** Queue a cell that was not queued before. */
    method Enqueue(m0: Node, back: int)
      requires Shaped() && MapsAgree() && QueuesAgree() && Filed(st.open)
      requires InBounds(m0.cell) && m0.cell !in st.open
      modifies this`st, open, dir, pq
      ensures st == old(st).(open := old(st).open[m0.cell := m0],
                             level := old(st).level[m0.cell := m0.level],
                             dir := old(st).dir[m0.cell := back])
      ensures MapsAgree() && QueuesAgree()
    {
      hide IsQueue, Entries;
      EntriesAdd(st.open, m0);
      open[m0.cell.x, m0.cell.y] := m0.priority;
      PushActive(m0);
      dir[m0.cell.x, m0.cell.y] := back;
      st := st.(open := st.open[m0.cell := m0], level := st.level[m0.cell := m0.level], dir := st.dir[m0.cell := back]);
    }

    /** Give a queued cell a better entry. */
    method Improve(m0: Node, back: int)
      requires Shaped() && MapsAgree() && QueuesAgree() && Filed(st.open)
      requires InBounds(m0.cell) && m0.cell in st.open
      modifies this`pqi, this`st, open, dir, pq
      ensures st == old(st).(open := old(st).open[m0.cell := m0],
                             level := old(st).level[m0.cell := m0.level],
                             dir := old(st).dir[m0.cell := back])
      ensures MapsAgree() && QueuesAgree()
    {
      hide IsQueue, Entries;
      open[m0.cell.x, m0.cell.y] := m0.priority;
      dir[m0.cell.x, m0.cell.y] := back;
      Replace(m0, st.open);
      st := st.(open := st.open[m0.cell := m0], level := st.level[m0.cell := m0.level], dir := st.dir[m0.cell := back]);
    }

    /** Queue a cell that is not queued, or give it a better entry. */
    method Offer(m0: Node, back: int)
      requires Shaped() && MapsAgree() && QueuesAgree() && Filed(st.open) && InBounds(m0.cell)
      requires forall c :: c in st.open ==> st.open[c].priority > 0
      modifies this`pqi, this`st, open, dir, pq
      ensures st == if m0.cell in old(st).open && old(st).open[m0.cell].priority <= m0.priority then old(st)
                    else old(st).(open := old(st).open[m0.cell := m0],
                                  level := old(st).level[m0.cell := m0.level],
                                  dir := old(st).dir[m0.cell := back])
      ensures 0 <= pqi < 2 && MapsAgree() && QueuesAgree()
    {
      hide IsQueue, Entries;
      if open[m0.cell.x, m0.cell.y] == 0 {
        Enqueue(m0, back);
      } else if open[m0.cell.x, m0.cell.y] > m0.priority {
        Improve(m0, back);
      }
    }

    /** One pass of the direction loop: look at a neighbour of the cell just closed. */
    method Visit(n0: Node, i: int, goal: Cell, ghost p: Problem)
      requires Shaped() && IsProblem(p, goal) && InBounds(p.start)
      requires 0 <= pqi < 2 && MapsAgree() && QueuesAgree() && Members(p, st) && IsDirection(i)
      requires n0.cell in st.order && n0.cell in st.level && st.level[n0.cell] == n0.level
      modifies this`pqi, this`st, open, dir, pq
      ensures st == AStarSearch.Relax(p, old(st), n0.cell, i)
      ensures 0 <= pqi < 2 && MapsAgree() && QueuesAgree()
    {
      hide MapsAgree, QueuesAgree, Free, Members;
      var v := Neighbour(n0.cell, i);
      var enter := MayEnter(v);
      if enter {
        var level := n0.level + StepCost(i);
        var m0 := Node(v, level, level + estimate(v, goal) * 10);
        assert m0 == Entry(p, v, level);
        OpenIsPositive(p, st);
        Offer(m0, Opposite(i));
      }
    }

    /** A cell on the grid that is not an obstacle and not closed. */
    method MayEnter(v: Cell) returns (enter: bool)
      requires Shaped() && MapsAgree()
      ensures enter <==> v in Free() && v !in st.order
      ensures enter ==> InBounds(v)
    {
      enter := !(v.x < 0 || v.x > n - 1 || v.y < 0 || v.y > m - 1 || grid[v.x, v.y] == 1 || closed[v.x, v.y] == 1);
      assert InBounds(v) ==> v == Cell(v.x, v.y);
    }

    /** Take an entry of least priority off the queue and mark its cell closed. */
    method CloseTop() returns (n0: Node)
      requires Shaped() && MapsAgree() && QueuesAgree() && Filed(st.open)
      requires forall c :: c in st.open ==> InBounds(c)
      requires pq[pqi] != []
      modifies this`st, closed, open, pq
      ensures n0.cell in old(st).open && n0 == old(st).open[n0.cell]
      ensures st == Close(old(st), n0.cell)
      ensures forall c :: c in old(st).open ==> n0.priority <= old(st).open[c].priority
      ensures MapsAgree() && QueuesAgree()
    {
      hide IsQueue, Entries;
      n0 := pq[pqi][0];
      TopOfEntries(pq[pqi], st.open);
      EntriesRemove(st.open, n0.cell);
      var q := Pop(pq[pqi]);
      pq[pqi] := q;
      MarkClosed(n0.cell);
    }

    method MarkClosed(c: Cell)
      requires Shaped() && MapsAgree() && InBounds(c) && c in st.open
      modifies this`st, closed, open
      ensures MapsAgree() && st == Close(old(st), c)
    {
      open[c.x, c.y] := 0;
      closed[c.x, c.y] := 1;
      assert forall d :: d in st.order + [c] <==> d in st.order || d == c;
      st := Close(st, c);
    }

    /** Follow the parent directions from the newest closed cell back to the start. */
    method Reconstruct(start: Cell, goal: Cell, ghost p: Problem) returns (path: string)
      requires Shaped() && MapsAgree() && p.start == start
      requires forall c :: c in st.order ==> InBounds(c)
      requires Tree(p, st) && st.order != [] && st.order[|st.order| - 1] == goal
      ensures Leads(p.free, start, Directions(path), goal)
      ensures Simple(start, Directions(path))
      ensures goal in st.level && Cost(Directions(path)) == st.level[goal]
    {
      hide Tree, Retraced, Leads, Simple, Members, Parents;
      var cur := goal;
      path := "";
      ghost var k := |st.order| - 1;
      RetraceNewest(p, st);
      assert Directions(path) == [];
      while cur != start
        invariant k >= 0 && Retraced(p, st, cur, k, goal, Directions(path))
        decreases k
      {
        k := RetraceStep(p, st, cur, k, goal, Directions(path));
        var back := dir[cur.x, cur.y];
        var digit := ('0' as int + Opposite(back)) as char;
        assert Directions([digit] + path) == [Opposite(back)] + Directions(path);
        path := [digit] + path;
        cur := Neighbour(cur, back);
      }
      assert Members(p, st) by { TreeMembers(p, st); }
      RetraceDone(p, st, k, goal, Directions(path));
    }

    /** Visiting a neighbour settles one more direction and keeps the search invariants. */
    method Settle(n0: Node, i: int, goal: Cell, ghost p: Problem)
      requires Shaped() && IsProblem(p, goal) && InBounds(p.start) && 0 <= i < DIRECTIONS && 0 <= pqi < 2
      requires MapsAgree() && QueuesAgree() && Tree(p, st) && Frontier(p, st, i)
      requires st.order != [] && n0.cell == st.order[|st.order| - 1]
      requires n0.cell in st.level && st.level[n0.cell] == n0.level
      modifies this`pqi, this`st, open, dir, pq
      ensures 0 <= pqi < 2 && MapsAgree() && QueuesAgree() && Tree(p, st) && Frontier(p, st, i + 1)
      ensures st.order == old(st).order && st == AStarSearch.Relax(p, old(st), n0.cell, i)
      ensures n0.cell in st.level && st.level[n0.cell] == n0.level
    {
      hide *;
      assert IsDirection(i) by { DirectionRange(i); }
      TreeMembers(p, st);
      RelaxKeepsAll(p, st, n0.cell, i);
      Visit(n0, i, goal, p);
    }

    /** The direction loop: settle all eight directions of the cell just closed. */
    method Expand(n0: Node, goal: Cell, ghost p: Problem)
      requires Shaped() && IsProblem(p, goal) && InBounds(p.start) && 0 <= pqi < 2
      requires MapsAgree() && QueuesAgree() && Tree(p, st) && Frontier(p, st, 0)
      requires st.order != [] && n0.cell == st.order[|st.order| - 1]
      requires n0.cell in st.level && st.level[n0.cell] == n0.level
      modifies this`pqi, this`st, open, dir, pq
      ensures 0 <= pqi < 2 && MapsAgree() && QueuesAgree() && Inv(p, st) && Tree(p, st)
      ensures st.order == old(st).order && st == RelaxUpTo(p, old(st), n0.cell, DIRECTIONS)
    {
      hide *;
      EightDirections();
      GridApart();
      RelaxUpToStep(p, st, n0.cell, 0);
      for i := 0 to DIRECTIONS
        invariant 0 <= pqi < 2 && MapsAgree() && QueuesAgree() && Tree(p, st) && Frontier(p, st, i)
        invariant st.order == old(st).order
        invariant n0.cell in st.level && st.level[n0.cell] == n0.level
        invariant st == RelaxUpTo(p, old(st), n0.cell, i)
      {
        RelaxUpToStep(p, old(st), n0.cell, i);
        Settle(n0, i, goal, p);
      }
      TreeFrontierInv(p, st);
    }

    /** Reset the maps and queue the start. */
    method Begin(start: Cell, goal: Cell, ghost p: Problem)
      requires Shaped() && Idle() && InBounds(start)
      requires IsProblem(p, goal) && p.start == start
      modifies this, closed, open, pq
      ensures MapsAgree() && QueuesAgree() && st == Initial(p)
    {
      pqi := 0;
      Reset();
      var n0 := Node(start, 0, 0 + estimate(start, goal) * 10);
      EntriesAdd(map[], n0);
      hide Entries;
      PushActive(n0);
      open[start.x, start.y] := n0.priority;
      st := Initial(p);
      assert multiset(pq[pqi]) == Entries(map[]) + multiset{n0} by { EntriesNone(); }
      assert st.open == map[][n0.cell := n0];
    }

    lemma OpenCells(p: Problem, st0: Search)
      requires Inv(p, st0)
      ensures Filed(st0.open) && forall c :: c in st0.open ==> c in p.free || c == p.start
    {
      hide Parents, Frontier;
    }

    /** What closing a queued cell of least priority keeps. */
    lemma ClosedNext(p: Problem, st0: Search, n0: Node)
      requires Inv(p, st0) && InBounds(p.start) && forall c :: c in p.free ==> InBounds(c)
      requires st0.order == [] ==> st0.open.Keys == {p.start}
      requires n0.cell in st0.open && n0 == st0.open[n0.cell]
      requires forall c :: c in st0.open ==> n0.priority <= st0.open[c].priority
      ensures var st' := Close(st0, n0.cell);
              && Tree(p, st') && Frontier(p, st', 0) && IsPick(st0, n0.cell)
              && st'.order == st0.order + [n0.cell] && n0.cell !in st0.order
              && n0.cell in st'.level && st'.level[n0.cell] == n0.level
              && (forall c :: c in st'.order ==> InBounds(c))
              && |st'.order| <= |p.free + {p.start}|
    {
      hide Parents, Frontier;
      CloseKeepsMembers(p, st0, n0.cell);
      CloseKeepsParents(p, st0, n0.cell);
      CloseKeepsFrontier(p, st0, n0.cell);
      ClosedIsBounded(p, Close(st0, n0.cell));
    }

    /** Close the next cell, one of least priority: the search invariant holds but for the
        directions of that cell. */
    method CloseNext(ghost p: Problem) returns (n0: Node)
      requires Shaped() && MapsAgree() && QueuesAgree() && Inv(p, st) && InBounds(p.start)
      requires forall c :: c in p.free ==> InBounds(c)
      requires pq[pqi] != [] && (st.order == [] ==> st.open.Keys == {p.start})
      modifies this`st, closed, open, pq
      ensures MapsAgree() && QueuesAgree() && Tree(p, st) && Frontier(p, st, 0)
      ensures st.order == old(st).order + [n0.cell] && n0.cell !in old(st).order
      ensures n0.cell in st.level && st.level[n0.cell] == n0.level
      ensures forall c :: c in st.order ==> InBounds(c)
      ensures |st.order| <= |p.free + {p.start}|
      ensures IsPick(old(st), n0.cell) && st == Close(old(st), n0.cell)
    {
      hide *;
      ghost var st0 := st;
      OpenCells(p, st0);
      n0 := CloseTop();
      ClosedNext(p, st0, n0);
    }

    /** Empty the leftover entries. */
    method Clear()
      requires Shaped() && 0 <= pqi < 2 && IsQueue(pq[pqi]) && pq[1 - pqi] == []
      modifies pq
      ensures Idle()
    {
      while pq[pqi] != []
        invariant IsQueue(pq[pqi]) && pq[1 - pqi] == []
        decreases |pq[pqi]|
      {
        var q := Pop(pq[pqi]);
        pq[pqi] := q;
      }
    }

    lemma EmptyQueueMeansNoneOpen()
      requires Shaped() && QueuesAgree() && pq[pqi] == []
      ensures st.open == map[]
    {
      NoEntries(st.open);
    }

    /** One round of the search: close the next cell and, unless it is the goal, look at its
        neighbours. */
    method Advance(goal: Cell, ghost p: Problem) returns (found: bool)
      requires Shaped() && IsProblem(p, goal) && InBounds(p.start) && 0 <= pqi < 2
      requires MapsAgree() && QueuesAgree() && Inv(p, st) && pq[pqi] != []
      requires forall c :: c in p.free ==> InBounds(c)
      requires goal !in st.order && IsRun(p, st.order) && st == After(p, st.order)
      requires st.order == [] ==> st.open.Keys == {p.start}
      modifies this`pqi, this`st, closed, open, dir, pq
      ensures 0 <= pqi < 2 && MapsAgree() && QueuesAgree() && Tree(p, st)
      ensures |st.order| == |old(st).order| + 1 <= |p.free + {p.start}|
      ensures forall c :: c in st.order ==> InBounds(c)
      ensures found ==> st.order[|st.order| - 1] == goal && goal in st.level && CanCost(p, goal, st.level[goal])
      ensures !found ==> Inv(p, st) && goal !in st.order && IsRun(p, st.order) && st == After(p, st.order)
    {
      hide *;
      GridApart();
      ghost var st0 := st;
      var n0 := CloseNext(p);
      found := n0.cell == goal;
      if found {
        FoundByRun(p, st0, goal);
      } else {
        Expand(n0, goal, p);
        RunGoesOn(p, st0, n0.cell, st);
      }
    }

    lemma SearchStarts(goal: Cell, p: Problem)
      requires Shaped() && IsProblem(p, goal) && QueuesAgree()
      ensures 0 <= pqi < pq.Length == 2 && forall c :: c in p.free ==> InBounds(c)
      ensures var st := Initial(p);
              && Inv(p, st) && Tree(p, st) && st.order == [] && st.open.Keys == {p.start}
              && IsRun(p, st.order) && st == After(p, st.order)
    {
      InitialInv(p);
      RunStarts(p);
    }

    /** The search loop: stop when the goal has been closed or the queue has run empty. */
    method Search(goal: Cell, ghost p: Problem) returns (found: bool)
      requires Shaped() && IsProblem(p, goal) && InBounds(p.start)
      requires MapsAgree() && QueuesAgree() && st == Initial(p)
      modifies this`pqi, this`st, closed, open, dir, pq
      ensures MapsAgree() && QueuesAgree() && Tree(p, st)
      ensures found ==> st.order != [] && st.order[|st.order| - 1] == goal
      ensures found ==> goal in st.level && CanCost(p, goal, st.level[goal])
      ensures forall c :: c in st.order ==> InBounds(c)
      ensures !found ==> Inv(p, st) && st.open == map[] && goal !in st.order && pq[pqi] == []
    {
      hide *;
      GridApart();
      SearchStarts(goal, p);
      while pq[pqi] != []
        invariant 0 <= pqi < 2 && MapsAgree() && QueuesAgree() && Inv(p, st) && Tree(p, st)
        invariant goal !in st.order && IsRun(p, st.order) && st == After(p, st.order)
        invariant forall c :: c in st.order ==> InBounds(c)
        invariant st.order == [] ==> st.open.Keys == {p.start}
        decreases |p.free + {p.start}| - |st.order|
      {
        found := Advance(goal, p);
        if found { return; }
      }
      EmptyQueueMeansNoneOpen();
      return false;
    }

    /** The route finder.  A route is returned exactly when the goal differs from the start
        and can be reached over free cells; replaying it visits free cells only, none twice,
        and ends at the goal.  Its cost is that of a run of the abstract search, so whenever
        no step lowers the estimate by more than b/a times its cost, no route costs less than
        a/b of it: with a consistent estimate it is a cheapest one, with the active estimate
        it costs at most ten sevenths of a cheapest one.  Nothing is assumed about what
        earlier calls left in the maps, and both queues are empty again afterwards. */
    method PathFind(start: Cell, goal: Cell) returns (route: string)
      requires Shaped() && Idle() && InBounds(start)
      modifies this, closed, open, dir, pq
      ensures Idle()
      ensures route != "" <==> start != goal && Connected(Free(), start, goal)
      ensures route != "" ==>
                Leads(Free(), start, Directions(route), goal) && Simple(start, Directions(route))
      ensures forall k :: 0 <= k < |route| ==> 0 <= Directions(route)[k] < 8 && route[k] == DIGITS[Directions(route)[k]]
      ensures route != "" ==> CanCost(ProblemOf(start, goal), goal, Cost(Directions(route)))
      ensures route != "" ==>
                forall a: nat, b: nat, other ::
                  a <= b && Lax(ProblemOf(start, goal), a, b) && Leads(Free(), start, other, goal) ==>
                    Times(a, Cost(Directions(route))) <= Times(b, Cost(other))
      ensures route != "" && Consistent(ProblemOf(start, goal)) ==>
                forall other :: Leads(Free(), start, other, goal) ==> Cost(Directions(route)) <= Cost(other)
      ensures route != "" && IsEuclidean(ProblemOf(start, goal), goal) ==>
                forall other :: Leads(Free(), start, other, goal) ==> 7 * Cost(Directions(route)) <= 10 * Cost(other)
    {
      hide MapsAgree, Tree, Frontier, Leads, Simple, Connected, Consistent, Free, Entries, CanCost, Lax, Times,
          IsEuclidean;
      ghost var p := ProblemOf(start, goal);
      Begin(start, goal, p);
      var found := Search(goal, p);
      if found {
        route := Reconstruct(start, goal, p);
        RouteFound(p, goal, Directions(route));
        RouteIsDigits(p, start, goal, route);
        RouteBounds(p, goal, Cost(Directions(route)));
        Clear();
      } else {
        ExhaustedMeansDisconnected(p, st, goal);
        route := "";
      }
    }
  }

  lemma RouteIsDigits(p: Problem, start: Cell, goal: Cell, route: string)
    requires Leads(p.free, start, Directions(route), goal)
    ensures forall k :: 0 <= k < |route| ==> 0 <= Directions(route)[k] < 8 && route[k] == DIGITS[Directions(route)[k]]
  {
    DirectionDigits(route);
  }

  /** What the cost of a run says about all routes. */
  lemma RouteBounds(p: Problem, goal: Cell, cost: int)
    requires CanCost(p, goal, cost)
    ensures forall a: nat, b: nat, other ::
              a <= b && Lax(p, a, b) && Leads(p.free, p.start, other, goal) ==> Times(a, cost) <= Times(b, Cost(other))
    ensures Consistent(p) ==> forall other :: Leads(p.free, p.start, other, goal) ==> cost <= Cost(other)
    ensures IsEuclidean(p, goal) ==>
              forall other :: Leads(p.free, p.start, other, goal) ==> 7 * cost <= 10 * Cost(other)
  {
    hide CanCost, Leads, Consistent, Lax, IsEuclidean;
    forall a: nat, b: nat, other | a <= b && Lax(p, a, b) && Leads(p.free, p.start, other, goal)
      ensures Times(a, cost) <= Times(b, Cost(other))
    {
      CostWithin(p, goal, cost, a, b, other);
    }
    forall other | Consistent(p) && Leads(p.free, p.start, other, goal)
      ensures cost <= Cost(other)
    {
      ConsistentFindsCheapest(p, goal, cost, other);
    }
    forall other | IsEuclidean(p, goal) && Leads(p.free, p.start, other, goal)
      ensures 7 * cost <= 10 * Cost(other)
    {
      EuclideanIsLax(p, goal);
      CostWithin(p, goal, cost, 7, 10, other);
    }
  }

  lemma RunStarts(p: Problem)
    ensures IsRun(p, []) && After(p, []) == Initial(p)
  {
  }

  lemma RunGoesOn(p: Problem, st: Search, c: Cell, st': Search)
    requires IsRun(p, st.order) && st == After(p, st.order) && IsPick(st, c)
    requires st' == RelaxUpTo(p, Close(st, c), c, DIRECTIONS) && st'.order == st.order + [c]
    ensures IsRun(p, st'.order) && st' == After(p, st'.order)
  {
    hide IsRun, After, RelaxUpTo;
    RunMore(p, st.order, c);
  }

  lemma FoundByRun(p: Problem, st: Search, goal: Cell)
    requires IsRun(p, st.order) && st == After(p, st.order) && IsPick(st, goal) && goal !in st.order
    ensures goal in st.level && CanCost(p, goal, st.level[goal]) && Close(st, goal).level == st.level
  {
    hide IsRun, After;
    assert Finds(p, goal, st.order, st.level[goal]);
  }
}
