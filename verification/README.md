# Branch prediction benchmarks and tools: a Dafny model

The repository pairs a gem5 tree that carries an ensemble branch predictor with the
benchmark programs it is measured on. This project models the code with the most intricate
behaviour in it and proves what that code computes, on every input.

| module | models |
|---|---|
| `RouteGraph`, `AStarSearch`, `RouteFinder`, `Estimates`, `Squares`, `Detour` | A* on a grid with two swapped priority queues, `Step10.cpp` |
| `ComplexNumbers`, `Fft`, `FftInverse`, `Oscar` | the in-order fast Fourier transform and its table of roots, `Oscar.c` |
| `Tiling`, `Puzzle`, `PuzzleCube`, `CubeTiling` | the packing search and its instance, `Puzzle.c` |
| `Towers` | linked lists in one array and the recursive move protocol, `Towers.c` |
| `Queens`, `Perm`, `Quicksort` | backtracking, permutation and in-place sorting, `Queens.c`, `Perm.c`, `Quicksort.c` |
| `UpgradeOrder`, `UpgradeRounds`, `UpgradePromise`, `CptUpgrader` | the checkpoint upgrade scheduler, `cpt_upgrader.py` |
| `PipeView` | the reordering print queue, `o3-pipeview.py` |
| `PortOrder`, `PortBinding` | greedy port binding, `read_config.py` |
| `YearText`, `YearRanges` | years as text and back, `find_copyrights.py` |
| `Protolib` | length-prefixed message streams, `protolib.py` |
| `EnsembleVote`, `EnsemblePredictor`, `SpeculativeHistory`, `BranchUnit`, `NeverTaken` | the weighted vote, its tables and the speculation protocol around them, `ensemble.cc`, `bpred_unit.cc`, `btb.cc` |
| `Powers`, `Remainders`, `Collections` | powers of two and bits; division; sequences without repetition |

Code that changes state step by step is modelled by classes, arrays and loops; each method
is tied to a mathematical specification, and the theorems are about that specification.
Floating point is modelled by exact real numbers. Random numbers, clocks, files and screens
are parameters or left out.

## Where code and comments differ

The model follows the code.

- `Step10.cpp`: the start cell is never tested for being an obstacle, so the free-cell
  condition concerns the cells after the start. The comment at line 195 says the larger queue
  is poured into the smaller one; the code pours the smaller into the larger. Line 114 marks
  the map with the left-over loop variables, outside the array; the model marks the start,
  and since the start is closed at once the mark is gone before anything reads it. The active
  Euclidean estimate overestimates a clear diagonal exactly as `Estimates.EuclideanOverestimatesIff`
  says, and the route returned need not be a cheapest one: on a map of the program's own size
  every run returns cost 832 where 826 is possible (`Detour.DetourOnMap`). What does hold for
  the active estimate, on every map, is that the route costs at most ten sevenths of any other;
  cheapest routes are proved for every consistent estimate, of which Chebyshev is one.
- `Oscar.c`: with n = 4 there is nothing to bisect, but the loop of `Exptab` is entered all the
  same and scales the three entries; the table is right exactly if the first half secant is
  one half, which it is not. With n = 2 the inner loop never ends, because its step is 0.
- `Puzzle.c`: on a full board `Trial` itself reports failure; the test for 0 in line 156 turns
  that into success one level up, and the theorem about `Trial` says both.
- `Towers.c`: a disc that `Push` refuses is lost, and `Push` without a free cell loses the
  list of the peg.
- `cpt_upgrader.py`: the header says that a dependent of a tag with a downgrader waits for
  its removal; `ready` tests presence, so it goes before the removal or in the same round, or
  never. Every order the rounds allow keeps the promise exactly if nothing depends on a tag
  with a downgrader (`UpgradePromise.EveryOrderIff`); some order keeps it exactly if each
  such dependency leaves in the round of its dependent and the removals do not depend on each
  other in a ring (`UpgradePromise.SomeOrderIff`).
- `read_config.py`: the comment at lines 301-310 is refuted by
  `PortBinding.StaircaseStalls`; the exact condition is `PortBinding.PassSucceedsIff`. The same
  list with the names the other way round is bound (`PortBinding.StaircaseBinds`).
- `find_copyrights.py`: ranges are matched with four-digit years only, so the round trip has
  the exact condition of `YearRanges.RoundTripIff`.
- `protolib.py`: `DecodeVarint` advances its shift only after the return, so numbers from 128 on
  are not read back; `Protolib.StreamReadsBackIff` has the exact condition for whole streams.
- `ensemble.cc`: the comment at line 435 is refuted and made exact by
  `EnsembleVote.OverruledIff`. The sum limit of 12 does not limit the sum: an update goes
  beyond it exactly when the winners gain more than is left up to the limit and the outvoted
  can give back (`EnsembleVote.SumLimitIff`), and the sum can reach 30.
- `bpred_unit.cc`: a branch whose target is not found is answered as not taken, but its record
  keeps the direction of the experts, and the commit learns that direction
  (`SpeculativeHistory.LearntIff`). A predictor started from zero therefore stays untrained
  exactly as long as every branch committed was not taken and had its target found
  (`BranchUnit.BPredUnit.SleptIff`). The target buffer only learns taken branches, so of a
  program of direct branches that are never taken the first commit is learnt as taken
  (`BranchUnit.BPredUnit.NeverTakenProgram`), and so are all others, unless the gshare threshold
  is below both other thresholds and gshare has more than one counter
  (`NeverTaken.LearntAsTaken`, `NeverTaken.LearntAsNotTaken`). Squashing restores the global
  history exactly. A local history comes back, up to the bits it stands for, unless its last
  bit was set and a direct jump without a target cleared it since the oldest squashed branch
  was predicted, at a moment when no branch squashed now remembered it
  (`BranchUnit.BPredUnit.SquashAfter`, `SpeculativeHistory.LostIff`); that such bits are lost is
  shown by `BranchUnit.JumpLosesBit`.
- `Quicksort.c`: `littlest` and `biggest` start from 0, so the check at the end fails exactly if
  the numbers are all positive or all negative (`Quicksort.ErrorIff`); with the numbers the
  program draws it does not.

## Model

| member | source | states |
|---|---|---|
| `RouteFinder.Finder.PathFind` | benchmark/microbench/Step10.cpp:89-211 | A route is returned exactly when the goal differs from the start and is connected to it over free cells; replaying the digits visits free cells only, none twice, and ends at the goal; its cost is one that some run of the search, with its own way of breaking ties, comes to. With an estimate that exceeds the cost of a step by at most b to a, no route is cheaper by more than that: none is cheaper at all under a consistent estimate, and under the active one none costs less than seven tenths. Holds for whatever earlier calls left in the maps, and both static queues are empty again afterwards. Each character is the digit of its direction |
| `RouteFinder.Finder.Search` | benchmark/microbench/Step10.cpp:117-209 | The loop ends with the goal as newest closed cell, its level the cost of some run, or with an empty queue, the goal not closed and every direction of every closed cell dealt with |
| `RouteFinder.Finder.Advance` | benchmark/microbench/Step10.cpp:121-207 | One round of the loop is one round of a run: a cell of least priority is closed and its eight neighbours are relaxed; it ends the search exactly at the goal and closes one cell more each time |
| `RouteFinder.RouteBounds` | benchmark/microbench/Step10.cpp:62-78 | What the cost of a run is worth: within b to a under an estimate that is off by at most that, least under a consistent one, at most ten sevenths of any other under the Euclidean one |
| `RouteFinder.Finder.Begin` | benchmark/microbench/Step10.cpp:98-114 | After the reset and the first push, maps and queues describe the initial search state, whatever they held before |
| `RouteFinder.Finder.Reset` | benchmark/microbench/Step10.cpp:100-108 | Both node maps are 0 everywhere |
| `RouteFinder.Finder.CloseNext` | benchmark/microbench/Step10.cpp:121-129 | Closing the top entry is a step of a run: it keeps the search tree, adds one cell never closed before, and bounds the number of rounds by the number of free cells |
| `RouteFinder.Finder.CloseTop` | benchmark/microbench/Step10.cpp:121-129 | The entry taken is one of least priority; maps and queues follow the abstract step |
| `RouteFinder.Finder.Expand` | benchmark/microbench/Step10.cpp:155-207 | The eight directions together are the abstract round and re-establish the search invariant |
| `RouteFinder.Finder.Settle` | benchmark/microbench/Step10.cpp:155-207 | One direction more is dealt with, nothing dealt with before is undone |
| `RouteFinder.Finder.Visit` | benchmark/microbench/Step10.cpp:157-206 | One pass of the loop body performs exactly the abstract relaxation step on maps, queues and parent directions |
| `RouteFinder.Finder.MayEnter` | benchmark/microbench/Step10.cpp:159-160 | The bounds, obstacle and closed tests together select the free cells that are not closed |
| `RouteFinder.Finder.Offer` | benchmark/microbench/Step10.cpp:168-205 | Queue, improve or leave: the outcome as a function of the old queue entry |
| `RouteFinder.Finder.Enqueue` | benchmark/microbench/Step10.cpp:168-175 | The new entry, priority and parent direction; maps and queue agree again |
| `RouteFinder.Finder.Improve` | benchmark/microbench/Step10.cpp:176-204 | The better entry, priority and parent direction; maps and queue agree again |
| `RouteFinder.Finder.Replace` | benchmark/microbench/Step10.cpp:183-203 | The queue swap keeps every entry but the replaced one, once, and leaves the other queue empty |
| `RouteFinder.Finder.Expose` | benchmark/microbench/Step10.cpp:187-192 | The pouring loop stops with the wanted entry on top and loses none |
| `RouteFinder.Finder.Unite` | benchmark/microbench/Step10.cpp:195-202 | All entries of both queues end up in the active one, whichever was larger |
| `RouteFinder.Finder.Drain` | benchmark/microbench/Step10.cpp:197-201 | Pouring conserves the entries of both queues |
| `RouteFinder.Finder.MoveTop` | benchmark/microbench/Step10.cpp:188-191 | One entry changes queues |
| `RouteFinder.Finder.Reconstruct` | benchmark/microbench/Step10.cpp:135-145 | Following parent directions back terminates at the start and yields a simple route over free cells whose cost is the level of the goal |
| `RouteFinder.Finder.Clear` | benchmark/microbench/Step10.cpp:150 | Both queues are empty |
| `RouteFinder.Push` | benchmark/microbench/Step10.cpp:82-85 | An entry of least priority stays in front, no entry is lost |
| `RouteFinder.Pop` | benchmark/microbench/Step10.cpp:82-85 | The front entry goes, an entry of least priority of the rest comes in front |
| `AStarSearch.InitialInv` | benchmark/microbench/Step10.cpp:110-114 | The search invariant holds before the first round |
| `AStarSearch.CloseKeepsMembers` | benchmark/microbench/Step10.cpp:126-129 | Closing keeps: closed and queued cells are disjoint, levels and entries belong together |
| `AStarSearch.CloseKeepsParents` | benchmark/microbench/Step10.cpp:126-129 | Closing keeps: each parent direction leads to a cell closed strictly earlier, whose level is lower by the cost of the step |
| `AStarSearch.CloseKeepsFrontier` | benchmark/microbench/Step10.cpp:126-129 | After closing, only the directions of the newest cell are open |
| `AStarSearch.RelaxKeepsMembers` | benchmark/microbench/Step10.cpp:155-206 | Relaxation keeps the membership part of the invariant |
| `AStarSearch.RelaxKeepsParents` | benchmark/microbench/Step10.cpp:155-206 | Relaxation keeps the parent part of the invariant |
| `AStarSearch.RelaxKeepsFrontier` | benchmark/microbench/Step10.cpp:155-206 | Relaxation deals with one direction and leaves the others dealt with |
| `AStarSearch.RelaxImproves` | benchmark/microbench/Step10.cpp:168-182 | A queued cell keeps its entry, level and parent direction unless the offer is strictly better |
| `AStarSearch.RelaxKeepsAll` | benchmark/microbench/Step10.cpp:155-206 | Relaxing one more direction keeps the search tree and the level of the cell expanded, and undoes no direction dealt with |
| `AStarSearch.QueuedLevelIsMinimum` | benchmark/microbench/Step10.cpp:165-204 | Between expansions the level of a queued cell is attained by some closed neighbour and exceeded by none: the replacement never loses a better entry |
| `AStarSearch.ClosedIsBounded` | benchmark/microbench/Step10.cpp:117-129 | A cell is closed at most once |
| `AStarSearch.ExhaustedMeansDisconnected` | benchmark/microbench/Step10.cpp:210 | An empty queue without the goal means there is no route at all |
| `AStarSearch.ParentClosedEarlier` | benchmark/microbench/Step10.cpp:138-144 | The parent of a closed cell was closed earlier; the opposite direction leads back |
| `AStarSearch.RetraceStep` | benchmark/microbench/Step10.cpp:138-144 | One step of the reconstruction extends the route at the front and moves to an earlier closed cell |
| `AStarSearch.RetraceDone` | benchmark/microbench/Step10.cpp:136-152 | At the start, the route read back is simple, walkable and costs the level of the goal |
| `AStarSearch.TrailIsSimple` | benchmark/microbench/Step10.cpp:136-145 | No cell is visited twice |
| `AStarSearch.RunKeepsInv` | benchmark/microbench/Step10.cpp:117-209 | Every run of the search, whatever ties it breaks how, keeps the invariant after every round and starts with the start |
| `AStarSearch.NeighbourIsKnown` | benchmark/microbench/Step10.cpp:155-206 | Every free neighbour of a closed cell is closed or queued |
| `AStarSearch.LaxAlong` | benchmark/microbench/Step10.cpp:62-78 | If the estimate exceeds the cost of one step by at most b to a, it does so along whole routes |
| `AStarSearch.CrossesFrontier` | benchmark/microbench/Step10.cpp:117-209 | Every route to a cell not closed runs through a queued cell whose level is within b to a of the cost of the part walked |
| `AStarSearch.RouteToLeast` | benchmark/microbench/Step10.cpp:117-129 | The level of the queued cell of least priority is within b to a of the cost of every route to it |
| `AStarSearch.LeastPriorityIsWithin` | benchmark/microbench/Step10.cpp:117-129 | So closing it keeps all closed cells within that bound |
| `AStarSearch.RunKeepsWithin` | benchmark/microbench/Step10.cpp:117-209 | In every run every closed cell stays within b to a of its cheapest route |
| `AStarSearch.CostWithin` | benchmark/microbench/Step10.cpp:117-209 | The cost any run comes to is within b to a of every route |
| `AStarSearch.ConsistentFindsCheapest` | benchmark/microbench/Step10.cpp:117-209 | Under a consistent estimate every run comes to the least cost |
| `AStarSearch.RouteFound` | benchmark/microbench/Step10.cpp:131-152 | Finding the goal means it is connected; the digits are empty exactly when start and goal coincide |
| `Estimates.ConsistentIsAdmissible` | benchmark/microbench/Step10.cpp:62-78 | A consistent estimate that is 0 at the goal never exceeds the cost of a route to it |
| `Estimates.ChebyshevIsConsistent` | benchmark/microbench/Step10.cpp:75-76 | The commented-out Chebyshev estimate, times ten, is consistent |
| `Estimates.ChebyshevIff` | benchmark/microbench/Step10.cpp:75-76 | It is the least k such that the goal lies within k columns and k rows, and 0 only at the goal |
| `Estimates.ChebyshevIsAdmissible` | benchmark/microbench/Step10.cpp:75-76 | It never exceeds the cost of a route |
| `Estimates.EuclideanIsLax` | benchmark/microbench/Step10.cpp:62-78 | The active estimate, ten times the root cut down to an integer, exceeds the cost of a step by at most ten to seven |
| `Estimates.EuclideanOverestimatesIff` | benchmark/microbench/Step10.cpp:62-78 | Along k clear diagonal steps the active estimate exceeds the cost of the route exactly if five times the root of 2k^2, cut down, exceeds 7k; then it is neither admissible nor consistent |
| `Estimates.DiagonalExceedsIff` | benchmark/microbench/Step10.cpp:62-78 | The same condition without the root |
| `Estimates.LongDiagonalExceeds` | benchmark/microbench/Step10.cpp:62-78 | It holds from 71 steps on |
| `Detour.EveryRunDetours` | benchmark/microbench/Step10.cpp:89-211 | On maps with a corridor of any length r whose estimate is more than 6 too high every run, however it breaks ties, returns the detour of cost 14r + 20 although a route of cost 14r + 14 exists |
| `Detour.LongExceeds` | benchmark/microbench/Step10.cpp:62-78 | From 113 steps on every such map is a trap |
| `Detour.RunIsOnTheWay` | benchmark/microbench/Step10.cpp:117-209 | There a run closes the cells of the detour one after the other and never the other turn, as long as the goal is not closed |
| `Detour.StepsLead` | benchmark/microbench/Step10.cpp:56-59 | The only free steps from a cell of the detour lead along it, and from the start to its first cell or to the other turn |
| `Detour.DetourOnMap` | benchmark/microbench/Step10.cpp:89-211 | On a 60 by 60 map the program returns a route of cost 832 where one of cost 826 exists |
| `Estimates.ManhattanOverestimates` | benchmark/microbench/Step10.cpp:72-73 | The commented-out Manhattan estimate is not admissible either: it exceeds the cost of every free diagonal |
| `Oscar.Oscar` | benchmark/se-benchmarks/Oscar.c:293-314 | Over exact numbers, table building followed by twenty transforms gives back any 256 samples: the benchmark prints what it started from |
| `Oscar.Exptab` | benchmark/se-benchmarks/Oscar.c:196-238 | Bisection fills entry k + 1 of the table with the k-th power of the root of unity, for every k up to half a turn, and nothing else; beyond 2^27 samples for the multiples the 25 half secants reach; for 4 samples exactly if the first half secant is one half |
| `Oscar.Refine` | benchmark/se-benchmarks/Oscar.c:220-236 | The rounds of bisection leave no entry out that the half secants reach, and later rounds spoil none |
| `Oscar.Sweep` | benchmark/se-benchmarks/Oscar.c:222-231 | One round computes exactly the odd multiples of the half step, each from its two neighbours as they were before the round |
| `Oscar.SweepBisects` | benchmark/se-benchmarks/Oscar.c:222-231 | With the right half secant a round puts them in place |
| `Oscar.SweepKeeps` | benchmark/se-benchmarks/Oscar.c:222-231 | With any factor it leaves alone what is in place |
| `Oscar.FourPoints` | benchmark/se-benchmarks/Oscar.c:222-236 | With steps of length 1 a round scales every entry, and the table stays right exactly if the factor is one half |
| `Oscar.MidwayPower` | benchmark/se-benchmarks/Oscar.c:227-228 | The sum of the neighbouring powers times the half secant is the power midway |
| `Oscar.FirstEntries` | benchmark/se-benchmarks/Oscar.c:211-218 | The three entries written first are the powers at 0, a quarter and a half turn |
| `Oscar.Repeat` | benchmark/se-benchmarks/Oscar.c:309-312 | After any even number of transforms the samples are back, after any odd number they are transformed once |
| `Oscar.Once` | benchmark/se-benchmarks/Oscar.c:240-291 | One call turns the samples into their scaled conjugate transform and leaves the rest of the array alone |
| `FftInverse.TwiceIsIdentity` | benchmark/se-benchmarks/Oscar.c:285-289 | Conjugation and scaling make the transform its own inverse, for every power-of-two length and every root on the unit circle |
| `Fft.Fft` | benchmark/se-benchmarks/Oscar.c:240-291 | Every position ends up with the conjugate of the discrete Fourier transform of the original samples, scaled; the array outside 1..n is unchanged |
| `Fft.Stages` | benchmark/se-benchmarks/Oscar.c:248-283 | The stages compute the discrete Fourier transform in order, without a bit reversal |
| `Fft.Pass` | benchmark/se-benchmarks/Oscar.c:248-283 | A stage and the copy back take the array from partial sums of length l to length 2l |
| `Fft.Stage` | benchmark/se-benchmarks/Oscar.c:254-272 | One stage turns all partial sums of length l into those of length 2l and writes every position of w exactly once |
| `Fft.Block` | benchmark/se-benchmarks/Oscar.c:257-267 | The butterflies of one block, with the positions they write |
| `Fft.ButterflyCells` | benchmark/se-benchmarks/Oscar.c:259-265 | Sum and twisted difference of two partial sums are the partial sums of the next stage |
| `Fft.ButterflyDifference` | benchmark/se-benchmarks/Oscar.c:261-265 | The twisted difference is the partial sum at the frequency higher by l |
| `Fft.SplitSum` | benchmark/se-benchmarks/Oscar.c:259-260 | A sum splits into its even and odd positions |
| `Fft.ShiftSum` | benchmark/se-benchmarks/Oscar.c:261-265 | Raising the frequency by l multiplies a partial sum by one root power |
| `Fft.Copy` | benchmark/se-benchmarks/Oscar.c:274-280 | Positions 1..n are copied, the rest of z stays |
| `Fft.ScaleConjugate` | benchmark/se-benchmarks/Oscar.c:285-289 | Positions 1..n are conjugated and scaled, the rest stays |
| `Puzzle.Board.Trial` | benchmark/se-benchmarks/Puzzle.c:149-160 | Succeeds exactly when the free cells can be tiled exactly with the supply; on success the witness is such a tiling, all cells are occupied and the supply has gone down by the pieces used; on failure board and supply are as before |
| `Puzzle.Board.Try` | benchmark/se-benchmarks/Puzzle.c:152-161 | One turn of the loop succeeds exactly when its piece is in supply, fits at the lowest free cell, and the rest can be tiled; else everything is as before |
| `Puzzle.Board.Attempt` | benchmark/se-benchmarks/Puzzle.c:153-158 | Place, search on and undo: succeeds exactly when the rest can be tiled, otherwise leaves everything as before |
| `Puzzle.Board.Fit` | benchmark/se-benchmarks/Puzzle.c:128-133 | True exactly when all cells of the placed piece are free, and no index leaves the board |
| `Puzzle.Board.Place` | benchmark/se-benchmarks/Puzzle.c:135-141 | Occupies the piece, takes it from its class and returns the next free cell, or 0 exactly when none is left beyond |
| `Puzzle.Board.NextFree` | benchmark/se-benchmarks/Puzzle.c:139-141 | The lowest free cell from j on, or 0 |
| `Puzzle.Board.Remove` | benchmark/se-benchmarks/Puzzle.c:143-147 | Restores the free cells and the supply from before the placement |
| `Tiling.TileableFromLowest` | benchmark/se-benchmarks/Puzzle.c:149-160 | A non-empty region can be tiled exactly when some piece in supply fits at its lowest cell and the rest can be tiled with one piece of that class fewer |
| `Tiling.CoversLowest` | benchmark/se-benchmarks/Puzzle.c:149-160 | In every tiling the piece over the lowest free cell starts there |
| `Tiling.RemovePiece` | benchmark/se-benchmarks/Puzzle.c:149-160 | A tiling without one piece tiles the region without that piece |
| `Tiling.SpendOne` | benchmark/se-benchmarks/Puzzle.c:135-141 | A tiling of the rest and the piece placed make a tiling; the supply spent adds up |
| `PuzzleCube.Solve` | benchmark/se-benchmarks/Puzzle.c:162-218 | The whole program on any board object: it reports success exactly when the cube without the first box can be tiled with the remaining twelve, three, one and one boxes |
| `CubeTiling.Benchmark` | benchmark/se-benchmarks/Puzzle.c:162-218 | The benchmark run succeeds: the first box fits, the search finds a tiling and the board ends up full, so neither of the first two error messages is printed |
| `CubeTiling.CubeIsSolvable` | benchmark/se-benchmarks/Puzzle.c:206-214 | What the search is asked has an answer: seventeen boxes from the supply complete the cube |
| `CubeTiling.BoxCovers` | benchmark/se-benchmarks/Puzzle.c:166-205 | A box inside the cube covers exactly the cells with coordinates in its three ranges |
| `CubeTiling.UsedIsTally` | benchmark/se-benchmarks/Puzzle.c:206-209 | The seventeen boxes are counted class by class against the supply |
| `PuzzleCube.SetUp` | benchmark/se-benchmarks/Puzzle.c:164-209 | Afterwards exactly the 5x5x5 cube is free, the tables describe the thirteen boxes and the classes have 13, 3, 1 and 1 pieces |
| `PuzzleCube.ClearCube` | benchmark/se-benchmarks/Puzzle.c:164-165 | A cell is occupied exactly when it is outside the cube |
| `PuzzleCube.EnterBox` | benchmark/se-benchmarks/Puzzle.c:167 | The three loops mark exactly the offsets of the box in one row |
| `PuzzleCube.EnterBoxes` | benchmark/se-benchmarks/Puzzle.c:166-205 | All thirteen rows of the three tables |
| `PuzzleCube.ShapesAreOrientations` | benchmark/se-benchmarks/Puzzle.c:166-205 | The four classes hold the boxes of 4x2x1, 3x1x1, 2x2x1 and 2x2x2 cells, each in every orientation once and nothing else |
| `PuzzleCube.BoxInCube` | benchmark/se-benchmarks/Puzzle.c:128-133 | Linear offsets do not wrap around: a box covers cube cells only exactly when it fits in all three directions |
| `PuzzleCube.BoxesGuarded` | benchmark/se-benchmarks/Puzzle.c:128-133 | Every scan of a box placed on a cube cell meets the occupied border before it leaves the board |
| `PuzzleCube.OffsetCoordinates` | benchmark/se-benchmarks/Puzzle.c:165 | Offsets add coordinate by coordinate while they stay on the board |
| `PuzzleCube.StandardIsValid` | benchmark/se-benchmarks/Puzzle.c:166-209 | The thirteen boxes meet what the search asks of pieces |
| `PuzzleCube.FirstMove` | benchmark/se-benchmarks/Puzzle.c:210-214 | Cell (1,1,1) is the lowest of the cube and the first box fits there |
| `Towers.Hanoi.Tower` | benchmark/se-benchmarks/Towers.c:189-198 | Moves the top k discs in order, in exactly 2^k - 1 moves, without an error |
| `Towers.Hanoi.Run` | benchmark/se-benchmarks/Towers.c:200-211 | From any leftover state: all n discs end on peg 2 in order after 2^n - 1 moves, without an error |
| `Towers.Hanoi.Benchmark` | benchmark/se-benchmarks/Towers.c:200-211 | With fourteen discs the count is 16383 and the complaint is never printed |
| `Towers.Hanoi.Move` | benchmark/se-benchmarks/Towers.c:184-187 | What a move does in every case: a legal move; a refused disc, which is lost; an empty peg, from which a disc of size 0 appears |
| `Towers.Hanoi.Push` | benchmark/se-benchmarks/Towers.c:146-160 | Refusal, success and out of space, each with its effect on discs, lists and error count |
| `Towers.Hanoi.Pop` | benchmark/se-benchmarks/Towers.c:169-182 | The top disc and its cell go; an empty peg is an error that changes nothing |
| `Towers.Hanoi.GetElement` | benchmark/se-benchmarks/Towers.c:135-144 | The first free cell, or 0 with an error |
| `Towers.Hanoi.Init` | benchmark/se-benchmarks/Towers.c:162-167 | The peg holds 1..n, smallest on top |
| `Towers.Hanoi.MakeNull` | benchmark/se-benchmarks/Towers.c:131-133 | An empty peg joins the sound structure |
| `Towers.Hanoi.LinkCells` | benchmark/se-benchmarks/Towers.c:202-203 | All cells are on the free list, each once |
| `Towers.ThreeSteps` | benchmark/se-benchmarks/Towers.c:191-197 | Each of the three recursive steps is legal after the one before, and together they move k discs |
| `Towers.RelinkIsSound` | benchmark/se-benchmarks/Towers.c:146-182 | Relinking one cell keeps the free list and the pegs disjoint acyclic lists holding all cells, and disc sizes increasing |
| `Towers.RelinkedPartitions` | benchmark/se-benchmarks/Towers.c:146-182 | No cell is lost or duplicated |
| `Towers.PartitionMeans` | benchmark/se-benchmarks/Towers.c:95-97 | What the partition says cell by cell |
| `Towers.FreshIsSound` | benchmark/se-benchmarks/Towers.c:202-203 | The initial chain is sound |
| `Queens.Try` | benchmark/se-benchmarks/Queens.c:137-160 | Succeeds exactly when the queens already placed have a completion, finds the lexicographically least one, and on failure restores the three arrays |
| `Queens.Doit` | benchmark/se-benchmarks/Queens.c:162-175 | For every board size n >= 1: success exactly when a solution exists, and then the least one |
| `Queens.Benchmark` | benchmark/se-benchmarks/Queens.c:162-180 | All fifty searches for eight queens succeed, so the error message is never printed, and each leaves the least solution |
| `Queens.TestIsSafe` | benchmark/se-benchmarks/Queens.c:144 | The test on the three arrays is exactly the test that no two queens attack each other |
| `Queens.PlaceQueen` | benchmark/se-benchmarks/Queens.c:145-148 | Clearing the three entries keeps the arrays in step with the queens |
| `Queens.FirstColumnIsLeast` | benchmark/se-benchmarks/Queens.c:141-158 | The first column that leads to a completion leads to the least |
| `Queens.NoColumn` | benchmark/se-benchmarks/Queens.c:141-158 | If no column leads to a completion there is none |
| `Perm.VisitsAreThePermutations` | benchmark/se-benchmarks/Perm.c:138-149 | The innermost calls see every arrangement of the first n entries, nothing else and none twice |
| `Perm.VisitsAll` | benchmark/se-benchmarks/Perm.c:138-149 | No arrangement is missed |
| `Perm.VisitsArrange` | benchmark/se-benchmarks/Perm.c:138-149 | Only arrangements are seen |
| `Perm.VisitsOnce` | benchmark/se-benchmarks/Perm.c:138-149 | No arrangement is seen twice |
| `Perm.Permuter.Permute` | benchmark/se-benchmarks/Perm.c:138-149 | The array is restored, the counter grows by the number of calls modulo 2^32, and the arrangements seen are those of the specification, in order |
| `Perm.Permuter.Round` | benchmark/se-benchmarks/Perm.c:143-147 | Swap, recurse, swap back: the array is restored |
| `Perm.Permuter.Rounds` | benchmark/se-benchmarks/Perm.c:138-149 | The loop makes the calls and visits of all its rounds and leaves the array as it was; the counter wraps around as an unsigned int |
| `Perm.Permuter.Pass` | benchmark/se-benchmarks/Perm.c:155-157 | Initialise and permute: every permutation of 0..n-1 once |
| `Perm.Permuter.Perm` | benchmark/se-benchmarks/Perm.c:151-161 | Five passes over seven entries make 43300 calls, the number the program compares with |
| `Perm.CallsSplit` | benchmark/se-benchmarks/Perm.c:138-149 | The call count follows the shape of the recursion |
| `Quicksort.Quicksort` | benchmark/se-benchmarks/Quicksort.c:140-158 | The segment ends up sorted, is a rearrangement of itself, and nothing outside changes |
| `Quicksort.Partition` | benchmark/se-benchmarks/Quicksort.c:144-155 | Both unbounded scans stop inside the segment; the two parts are strictly smaller and separated by the pivot value |
| `Quicksort.ScanUp` | benchmark/se-benchmarks/Quicksort.c:147 | The first entry not below the pivot, found before a known stopper |
| `Quicksort.ScanDown` | benchmark/se-benchmarks/Quicksort.c:148 | The last entry not above the pivot, found before a known stopper |
| `Quicksort.SortPart` | benchmark/se-benchmarks/Quicksort.c:156-157 | Recursion on a part keeps the bounds on it and the rest of the segment |
| `Quicksort.BoundsKept` | benchmark/se-benchmarks/Quicksort.c:156-157 | Rearranging a part keeps bounds on it |
| `Quicksort.Quick` | benchmark/se-benchmarks/Quicksort.c:161-166 | The benchmark sorts the numbers it draws, prints its error message exactly if they are all positive or all negative, and never for five or more |
| `Quicksort.ErrorIff` | benchmark/se-benchmarks/Quicksort.c:164 | The least and greatest entries noted while drawing, counted from 0, differ from the ends of the sorted list exactly if all entries are positive or all are negative |
| `Quicksort.Initarr` | benchmark/se-benchmarks/Quicksort.c:115-138 | The list holds the numbers the generator draws, and the extremes noted are theirs and 0's |
| `Quicksort.ValueIs` | benchmark/se-benchmarks/Quicksort.c:119-134 | A number is the remainder of its seed by 100000 less 50000; the remainder never matters, and all numbers drawn are from -50000 to 15535 |
| `CptUpgrader.Registry.Upgrade` | gem5/util/cpt_upgrader.py:238-252 | The loop ends within as many rounds as tags are pending, and succeeds exactly if the pending additions can be given levels such that each is one more than the highest it waits for and every dependency to be removed is still there; each round applies exactly the tags that are ready. On success the tags are those asked for and each pending tag was applied once; every order the rounds allow keeps the promise of the header exactly if nothing depends on a tag with a downgrader, some order does exactly if each such dependency leaves in the round of its dependent and removals form no ring. Without downgraders success means that a dependency-respecting schedule exists, and the log is one |
| `CptUpgrader.Registry.ProcessFile` | gem5/util/cpt_upgrader.py:187-258 | A checkpoint of any version is upgraded exactly if its version is known and the pending tags can be applied; it ends with exactly the tags wanted, nothing left pending, and is rewritten exactly if something was applied or its version was a number; numbered versions get their upgrades in ascending order |
| `CptUpgrader.UpgradeCheckpoint` | gem5/util/cpt_upgrader.py:140-258 | Loading the scripts, linking the numbered ones and upgrading one file, put together. The tags to add and to remove are those of the scripts with and without an upgrader; a legacy number stands for the last script that claims it. It succeeds exactly if version 3 does not come without 2, every tag a script mentions is that of some script, the version can be read and the upgrades have fitting levels; then each script waits for its own dependencies, or for the version one lower if it is in the linked chain, and for every script that names it as a forward dependency. The tags written are those of the file, or of the versions 2 to its number, with these added and removed; the file is changed exactly if something was applied or its version was a number; a numbered version in the chain gets exactly the later upgrades in ascending order, after its own number |
| `CptUpgrader.Registry.Round` | gem5/util/cpt_upgrader.py:146-154 | Applying the ready upgraders in any order: each once, tags added or removed |
| `CptUpgrader.Registry.ReadyTags` | gem5/util/cpt_upgrader.py:242 | Exactly the pending tags whose dependencies are present |
| `CptUpgrader.Registry.IsReady` | gem5/util/cpt_upgrader.py:140-144 | True exactly when every dependency is present |
| `CptUpgrader.Registry.SecondRunIdle` | gem5/util/cpt_upgrader.py:238-252 | After success nothing is pending |
| `CptUpgrader.Registry.ConvertLegacy` | gem5/util/cpt_upgrader.py:211-222 | The tags of a legacy version, or failure exactly when a script is missing |
| `CptUpgrader.Registry.VersionMeans` | gem5/util/cpt_upgrader.py:210-227 | Which tags a version stands for; a number cannot be read exactly if a script for one of the versions from 2 on is missing, so never up to the end of a contiguous chain |
| `CptUpgrader.Registry.LoadAll` | gem5/util/cpt_upgrader.py:160-185 | Loading succeeds exactly when legacy versions can be linked and every tag that a script mentions belongs to one; then a script waits for the version one lower if it is in the linked chain and else for what it declares, and in both cases for every script that names it as a forward dependency |
| `CptUpgrader.Registry.LinkLegacy` | gem5/util/cpt_upgrader.py:167-171 | Fails exactly when version 3 exists without version 2; otherwise links the contiguous versions |
| `CptUpgrader.Registry.Resolve` | gem5/util/cpt_upgrader.py:173-185 | Succeeds exactly when all mentioned tags are known, whatever the visiting order, and then records exactly the turned-around dependencies |
| `CptUpgrader.Registry.ForwardOne` | gem5/util/cpt_upgrader.py:174-180 | Stops exactly at an unknown forward dependency; otherwise adds the tag to each |
| `CptUpgrader.Registry.Audit` | gem5/util/cpt_upgrader.py:181-185 | True exactly when all dependencies of the tag are known |
| `CptUpgrader.Registry.EnterAll` | gem5/util/cpt_upgrader.py:160-165 | Each script is found under its tag with what it declares, the two tag sets are those of the scripts with and without an upgrader, and a legacy number belongs to the last script that claims it |
| `CptUpgrader.LoadedDepends` | gem5/util/cpt_upgrader.py:160-185 | The dependencies after linking and resolving, script by script, in terms of what the scripts declare |
| `CptUpgrader.LoadedKnown` | gem5/util/cpt_upgrader.py:173-185 | Every tag mentioned in the loaded table is known exactly if every tag mentioned by a script is the tag of some script |
| `CptUpgrader.ChainAfterLoad` | gem5/util/cpt_upgrader.py:167-171 | Loading makes the contiguous legacy versions a dependency chain |
| `UpgradeOrder.SomeIsReady` | gem5/util/cpt_upgrader.py:238-252 | As long as a schedule exists and tags are left, one of them is ready |
| `UpgradeRounds.LayerIsReady` | gem5/util/cpt_upgrader.py:238-243 | With all levels below k applied, the tags that are ready are exactly those of level k |
| `UpgradeRounds.RoundsAreLevels` | gem5/util/cpt_upgrader.py:238-252 | The rounds are the levels, one by one |
| `UpgradeRounds.StuckMeansUnworkable` | gem5/util/cpt_upgrader.py:244-246 | If nothing is ready while tags are pending, no levels exist |
| `UpgradeRounds.DoneMeansWorkable` | gem5/util/cpt_upgrader.py:238-252 | If everything was applied, the rounds are levels |
| `UpgradePromise.EveryOrderIff` | gem5/util/cpt_upgrader.py:60-65 | Every order the rounds allow has each removal before its dependents exactly if no pending tag depends on a tag with a downgrader |
| `UpgradePromise.SomeOrderIff` | gem5/util/cpt_upgrader.py:60-65 | Some order does exactly if each such dependency is removed in the round of its dependent and the removals do not depend on each other in a ring |
| `UpgradePromise.ExampleBoth` | gem5/util/cpt_upgrader.py:60-65 | Two scripts for which one order of the only round keeps the promise and the other breaks it |
| `UpgradeOrder.StuckMeansUnschedulable` | gem5/util/cpt_upgrader.py:242-246 | If nothing left is ready there is no schedule at all |
| `UpgradeOrder.RespectsMore` | gem5/util/cpt_upgrader.py:248-252 | Appending a batch that was ready beforehand keeps the order respected, whatever the order inside the batch |
| `UpgradeOrder.MissingDependency` | gem5/util/cpt_upgrader.py:140-144 | A dependency neither present nor pending blocks every schedule |
| `UpgradeOrder.LegacyUpgrades` | gem5/util/cpt_upgrader.py:211-252 | A checkpoint of version v gets exactly the legacy upgrades after v, in ascending order |
| `UpgradeOrder.LegacyAscends` | gem5/util/cpt_upgrader.py:167-171 | A legacy upgrade comes after every lower one that is applied |
| `PipeView.SortedIffOnTime` | gem5/util/o3-pipeview.py:159-188 | The output is the stable sort of the whole trace exactly when no instruction arrives after a larger one has been released |
| `PipeView.SortedIffPunctual` | gem5/util/o3-pipeview.py:159-188 | The same on the trace alone: the output is sorted exactly when, at each arrival with which the queue overflows, no later instruction has more than min_threshold larger ones up to that arrival |
| `PipeView.FeedRhythm` | gem5/util/o3-pipeview.py:160-166 | Whatever arrives, the queue overflows with arrival c + 1, where c is the larger threshold, and then every c + 1 - min arrivals, and after each overflow all but min have left |
| `PipeView.BoundedPrintsInOrder` | gem5/util/o3-pipeview.py:47-56 | If no instruction is preceded by more than min_threshold larger ones, everything leaves the queue in order, for all thresholds |
| `PipeView.ThresholdIsTight` | gem5/util/o3-pipeview.py:47-56 | One more place of disorder is not tolerated, for all thresholds min <= max |
| `PipeView.ReleasedIsTrace` | gem5/util/o3-pipeview.py:146-188 | Nothing is lost or duplicated |
| `PipeView.LateIsMisplaced` | gem5/util/o3-pipeview.py:167-171 | An instruction arriving after a larger one was released comes out behind it |
| `PipeView.HoldsBack` | gem5/util/o3-pipeview.py:159-164 | Once anything was released, at least min_threshold instructions stay queued |
| `PipeView.StableSortSorts` | gem5/util/o3-pipeview.py:154-155 | The queue sort sorts and rearranges only |
| `PipeView.Viewer.ProcessTrace` | gem5/util/o3-pipeview.py:125-150 | Every instruction leaves the queue exactly once; in order exactly if the trace is punctual, and so if no instruction is preceded by more than min_threshold larger ones. It is printed as often as it occurs if its sequence number and fetch tick lie within every bound that is positive and it retired where only committed ones are wanted, and else never; what is printed keeps the order of leaving, and without bounds everything is printed |
| `PipeView.SelectCount` | gem5/util/o3-pipeview.py:177-187 | The selection on its own: how often each instruction passes it |
| `PipeView.Viewer.QueueInst` | gem5/util/o3-pipeview.py:159-164 | The queue and the output after one instruction |
| `PipeView.Viewer.PrintInsts` | gem5/util/o3-pipeview.py:167-188 | Sorts, releases down to the threshold and prints the selected ones |
| `PipeView.Viewer.Release` | gem5/util/o3-pipeview.py:170-188 | Exactly the surplus leaves, from the front |
| `PortBinding.BindPorts` | gem5/configs/example/read_config.py:280-326 | Selects each connection in at most one direction, every port slot by slot, in ascending order of the names, ports and slots; on success exactly one of each mirrored pair; for lists with unique slots it succeeds exactly when some selection from the list that ascends in that order binds slot by slot and holds each connection in one direction |
| `PortBinding.StaircaseStalls` | gem5/configs/example/read_config.py:301-310 | The comment that sorting makes one of each pair bindable is false: an orderly binding exists and the pass still fails, for any four ascending names |
| `PortBinding.StaircaseBinds` | gem5/configs/example/read_config.py:301-326 | The same staircases with descending names are bound completely |
| `PortBinding.SingleSlotsBind` | gem5/configs/example/read_config.py:301-326 | Ports with one slot each are always bound completely |
| `PortBinding.PassSucceedsIff` | gem5/configs/example/read_config.py:311-326 | For any visiting order, the greedy pass makes all connections exactly when one direction of each can be picked so that, visited in that order, every slot comes after the lower ones |
| `PortBinding.BindingOrderIff` | gem5/configs/example/read_config.py:311-326 | A selection along the sorted list is one from the list that ascends |
| `PortBinding.PassDominates` | gem5/configs/example/read_config.py:311-321 | The greedy pass makes whatever any orderly selection makes |
| `PortBinding.PassIsOrderly` | gem5/configs/example/read_config.py:311-321 | What the pass makes is itself orderly |
| `PortBinding.PassInvariant` | gem5/configs/example/read_config.py:311-321 | Ports are bound slot by slot, no connection twice or both ways, in every order of visit |
| `PortBinding.HalfMeansAll` | gem5/configs/example/read_config.py:323-326 | Half as many connections made as listed means exactly one of each pair was made |
| `PortBinding.AllMeansHalf` | gem5/configs/example/read_config.py:323-326 | And conversely |
| `PortBinding.RunPass` | gem5/configs/example/read_config.py:311-321 | The loop computes the pass |
| `PortBinding.ZeroCounters` | gem5/configs/example/read_config.py:285-291 | Every port starts at slot 0 |
| `PortOrder.ConnectionTotal` | gem5/configs/example/read_config.py:142-144 | The comparison is total and antisymmetric |
| `PortOrder.ConnectionTransitive` | gem5/configs/example/read_config.py:142-144 | The comparison is transitive |
| `PortOrder.StringLeqIff` | gem5/configs/example/read_config.py:142-144 | Names are compared as in a dictionary: a name comes before another exactly if it is a proper beginning of it or has the smaller character at the first difference |
| `PortOrder.PortLeqIff` | gem5/configs/example/read_config.py:142-144 | Ends are compared by object name, then port name, then index |
| `PortOrder.ConnectionLeqIff` | gem5/configs/example/read_config.py:142-144 | Connections are compared by the one end, then by the other |
| `PortOrder.SortSorts` | gem5/configs/example/read_config.py:312 | The visiting order is a sorted rearrangement |
| `YearRanges.RoundTripIff` | gem5/util/find_copyrights.py:98-199 | Printing years and reading them back returns the same years exactly when any two consecutive ones have four digits |
| `YearRanges.DateStr` | gem5/util/find_copyrights.py:175-199 | Fails exactly on the empty set; otherwise prints the maximal ranges of the years in ascending order, with the round trip above |
| `YearRanges.PrintRuns` | gem5/util/find_copyrights.py:179-199 | The loop prints the maximal runs |
| `YearRanges.SortDates` | gem5/util/find_copyrights.py:176-177 | An ascending list of exactly the years |
| `YearRanges.ProcessDates` | gem5/util/find_copyrights.py:98-116 | The years read from any text, in terms of its pieces between commas: a year is read exactly if some piece, without the blanks around it, starts with a range that contains it, two four-digit years with blanks allowed around the dash, or is the number itself |
| `YearRanges.RunsMaximal` | gem5/util/find_copyrights.py:186-197 | The runs ascend, none overlap and none are adjacent |
| `YearRanges.RunsContain` | gem5/util/find_copyrights.py:186-197 | The runs cover exactly the years |
| `YearRanges.EntryReadsBack` | gem5/util/find_copyrights.py:98-116 | A printed entry reads back as its years exactly if it is a single year or has four-digit ends; otherwise its last year is lost and nothing is invented |
| `YearRanges.ReadBackWithin` | gem5/util/find_copyrights.py:98-116 | Whatever is lost, nothing is invented |
| `YearRanges.BadRunLosesYear` | gem5/util/find_copyrights.py:98-116 | A consecutive pair without four digits costs the last year of its run |
| `YearText.SplitJoin` | gem5/util/find_copyrights.py:98-199 | Splitting a joined list returns its entries |
| `YearText.StripIff` | gem5/util/find_copyrights.py:100 | Stripping returns e exactly if the piece is e between blanks and e neither starts nor ends with one |
| `YearText.ParseIntIff` | gem5/util/find_copyrights.py:110-114 | A number is read exactly from its decimal digits behind any zeros and an optional sign |
| `YearText.MatchRangeIff` | gem5/util/find_copyrights.py:98-106 | The pattern matches with years f and l exactly if the entry starts with the four digits of f, blanks, a dash, blanks and the four digits of l |
| `YearText.YearsIff` | gem5/util/find_copyrights.py:103-114 | What an entry stands for: the years of the range it starts with, or its number |
| `YearText.SplitIsPieces` | gem5/util/find_copyrights.py:100 | Every text is the join of pieces without commas |
| `YearText.ValueOfDigits` | gem5/util/find_copyrights.py:98-116 | Decimal digits read back as the number |
| `Protolib.StreamReadsBackIff` | gem5/util/protolib.py:101-166 | A stream of messages is read back exactly when every message has between 1 and 127 bytes |
| `Protolib.MessageReadsBackIff` | gem5/util/protolib.py:131-166 | One message is read back exactly then, and then leaves the rest of the stream intact |
| `Protolib.MergedIsNumberIff` | gem5/util/protolib.py:108-129 | The decoder, whose shift advances only in a dead branch, inverts the encoder exactly below 128 |
| `Protolib.MergedAt` | gem5/util/protolib.py:108-129 | Bit by bit, the merged groups are the union of the groups |
| `Protolib.EncodeIsRight` | gem5/util/protolib.py:146-158 | What the encoder writes stands for the number and ends where the format says |
| `Protolib.EncodeVarint` | gem5/util/protolib.py:146-158 | The loop writes that encoding |
| `Protolib.DecodeVarint` | gem5/util/protolib.py:101-129 | The number ends at the first byte without top bit; a bit of the result is set exactly if it is one of the low seven and set in some byte; a stream that ends first gives 0 and 0 |
| `Protolib.DecodeMessage` | gem5/util/protolib.py:131-144 | The message read and the stream left, with end of stream and empty message alike |
| `Protolib.DecodeAll` | gem5/util/decode_packet_trace.py:113-115 | Reads until a message cannot be read |
| `EnsembleVote.OverruledIff` | gem5/src/cpu/pred/ensemble.cc:435 | A verdict without any contributor, which the comment calls impossible, occurs exactly when all weights are 0 and all experts vote not taken |
| `EnsembleVote.RunKeepsReachable` | gem5/src/cpu/pred/ensemble.cc:434-531 | Over every sequence of resolved branches the weights stay in range and sum to at most 30 |
| `EnsembleVote.LearnKeepsReachable` | gem5/src/cpu/pred/ensemble.cc:434-531 | One update keeps that bound |
| `EnsembleVote.TwoExpertsFill` | gem5/src/cpu/pred/ensemble.cc:483-484 | The bound 30 is reached although MAX_WEIGHT_SUM is 12 |
| `EnsembleVote.SumLimitIff` | gem5/src/cpu/pred/ensemble.cc:434-531 | An update takes the sum of the weights beyond 12 exactly when the experts behind a right verdict gain more than is left and the outvoted can give back |
| `EnsembleVote.RunWithinLimitIff` | gem5/src/cpu/pred/ensemble.cc:434-531 | A whole run stays within 12 exactly if each of its updates can be afforded |
| `EnsembleVote.ZeroMovesIff` | gem5/src/cpu/pred/ensemble.cc:434-531 | From zero, weights move exactly when a branch is taken and one or two experts said so |
| `EnsembleVote.Raise` | gem5/src/cpu/pred/sat_counter.hh:88-93 | Repeated saturating increment |
| `EnsembleVote.Lower` | gem5/src/cpu/pred/sat_counter.hh:98-103 | Repeated saturating decrement |
| `EnsemblePredictor.EnsembleBP.Commit` | gem5/src/cpu/pred/ensemble.cc:384-547 | Weights and tables learn the direction handed in; an untrained predictor that said taken stays untrained exactly if the direction is not taken; what this does to the counters is said by the next row |
| `EnsemblePredictor.EnsembleBP.CommitTimes` | gem5/src/cpu/pred/ensemble.cc:384-547 | After n commits of one branch its three counters have gone n steps in its direction, cut at 0 and at twice the threshold plus 1, and no other counter has moved; once n exceeds an expert threshold that expert votes in this direction |
| `EnsemblePredictor.SettledIff` | gem5/src/cpu/pred/ensemble.cc:534-546 | A counter that has gone n steps one way votes that way from every start exactly if n exceeds the threshold |
| `EnsemblePredictor.EnsembleBP.Lookup` | gem5/src/cpu/pred/ensemble.cc:193-265 | Votes, verdict and remembered histories; nothing is changed; an untrained predictor says taken against all three experts |
| `EnsemblePredictor.EnsembleBP.constructor` | gem5/src/cpu/pred/ensemble.cc:54-138 | Every predictor starts untrained, with empty histories and the parameters given; its tables are large enough for all indices exactly if the gshare table is no smaller than two to the power of the global history bits |
| `EnsemblePredictor.EnsembleBP.TrainsConsultedIff` | gem5/src/cpu/pred/ensemble.cc:396-400 | The gshare counter trained at commit is the one consulted at the prediction exactly when the history register has its value of then |
| `EnsemblePredictor.XorBitsInjective` | gem5/src/cpu/pred/ensemble.cc:396-400 | For one address, different histories have different indices |
| `EnsemblePredictor.EnsembleBP.ShiftedBits` | gem5/src/cpu/pred/ensemble.cc:151-163 | Shifting an outcome in moves every bit of the history up by one, drops the highest and puts the outcome lowest |
| `EnsemblePredictor.WrongTakenTeachesNothing` | gem5/src/cpu/pred/ensemble.cc:434-531 | Zero weights stay zero after a wrong verdict of taken |
| `BranchUnit.BPredUnit.Predict` | gem5/src/cpu/pred/bpred_unit.cc:210-352 | The answer is the direction of the experts and, if that is taken, whether the target buffer, the return address stack or the indirect predictor has a target; the record keeps the direction, the votes, both histories and whether the target was found; without one the last bits of both histories are cleared, for good if the branch is a jump |
| `BranchUnit.BPredUnit.SameEntryIff` | gem5/src/cpu/pred/btb.cc:75-91 | Two branches share an entry and its tag exactly if their words agree in the low index and tag bits |
| `BranchUnit.BPredUnit.EnteredAnswers` | gem5/src/cpu/pred/btb.cc:75-139 | An entry made for an address answers for exactly the words that agree with it in the low index and tag bits; the other entries answer as before |
| `BranchUnit.BPredUnit.SleptIff` | gem5/src/cpu/pred/bpred_unit.cc:210-519 | At every moment of every run the predictor has been untrained all along exactly if every branch committed so far turned out not taken and none was a miss, that is said taken and answered not taken for want of a target |
| `BranchUnit.BPredUnit.NeverTakenProgram` | gem5/src/cpu/pred/bpred_unit.cc:210-519 | With direct branches of which none is ever mispredicted, no branch was taken, and the predictor is untrained only before the first commit, which is learnt as taken |
| `NeverTaken.LearntAsTaken` | gem5/src/cpu/pred/ensemble.cc:193-265 | A program of conditional direct branches that are never taken, fetched, squashed and committed in any order from a new predictor: every commit is learnt as taken if the threshold of the global or of the local expert is no higher than that of gshare, or gshare has one counter only |
| `NeverTaken.LearntAsNotTaken` | gem5/src/cpu/pred/ensemble.cc:193-265 | Otherwise there is such a program with a commit learnt as not taken |
| `NeverTaken.SaysTaken` | gem5/src/cpu/pred/ensemble.cc:243-263 | As long as everything was learnt as taken and an expert leads, the verdict on any branch of the program is taken |
| `NeverTaken.StaysSound` | gem5/src/cpu/pred/ensemble.cc:434-531 | And learning keeps the leading expert's weight the largest and lets no expert gain before its counter has passed its threshold |
| `NeverTaken.LeadIff` | gem5/src/cpu/pred/ensemble.cc:193-265 | An expert leads exactly if gshare has one counter only or its threshold is not below both others |
| `BranchUnit.BPredUnit.Run` | gem5/src/cpu/pred/bpred_unit.cc:210-519 | Any sequence of predictions, corrections, squashes and commits keeps the invariant and with it the two facts above |
| `SpeculativeHistory.LearntIff` | gem5/src/cpu/pred/bpred_unit.cc:242-370 | What a branch is learnt as is its real outcome exactly if it was not a miss; uncorrected, it is what was answered exactly if the target was found or the experts said not taken |
| `BranchUnit.BPredUnit.Update` | gem5/src/cpu/pred/bpred_unit.cc:354-370 | Exactly the branches up to the sequence number are committed, oldest first |
| `BranchUnit.BPredUnit.CommitOldest` | gem5/src/cpu/pred/bpred_unit.cc:363-368 | One commit: the oldest branch teaches weights and counters the direction its record holds |
| `BranchUnit.BPredUnit.SquashAfter` | gem5/src/cpu/pred/bpred_unit.cc:372-407 | Exactly the younger branches are undone; the global history is what it was before the oldest of them; a local history differs from what it was, in the bits it stands for, exactly if its last bit was set and a direct jump without a target cleared it since then, at a moment when none of the branches undone remembered it |
| `SpeculativeHistory.LostIff` | gem5/src/cpu/pred/ensemble.cc:182-190 | Over every sequence of predictions, corrections and squashes: the slots that stay without a bit when the newest k branches are undone are exactly those cleared by such a jump |
| `SpeculativeHistory.GoneIff` | gem5/src/cpu/pred/ensemble.cc:593-612 | Record by record: a bit lost while a branch was the newest is gone after the squash unless that branch or an older squashed one remembers the slot |
| `BranchUnit.JumpLosesBit` | gem5/src/cpu/pred/bpred_unit.cc:210-407 | A conditional branch corrected as taken, a jump with the same local history predicted without a target and squashed: the bit is lost, for every table of local histories smaller than the target buffer |
| `SpeculativeHistory.UndoRestores` | gem5/src/cpu/pred/ensemble.cc:593-612 | Undoing one branch restores the local histories it changed |
| `SpeculativeHistory.ChainPop` | gem5/src/cpu/pred/bpred_unit.cc:372-407 | And the table can then be traced back through the remaining branches as before |
| `BranchUnit.BPredUnit.Mispredicted` | gem5/src/cpu/pred/bpred_unit.cc:409-519 | Younger branches are undone with the same exact losses as by a squash, the branch itself keeps its real direction for the commit, both histories get the real outcome shifted in, and a taken branch that is not indirect enters the target buffer; nothing to correct if everything in flight is younger |
| `BranchUnit.BPredUnit.CorrectNewest` | gem5/src/cpu/pred/bpred_unit.cc:440-519 | The correction by itself, with what it enters in the target buffer |

## Left out

- Floating-point rounding, `Cos` and the trigonometric constants of `Oscar.c`: the half secants enter as a table with the property line 206 gives them.
- `Uniform11` of `Oscar.c` and the random map of `Step10.cpp`: the input is arbitrary instead.
- Machine integer widths, except the unsigned call counter of `Perm.c`.
- CubeTiling.Benchmark: the last check of `Puzzle.c`, that `kount` equals 2005, is not modelled; it needs the whole search to be carried out.
- Oscar.Exptab: for a power of two of at least 4, as the transform asks; beyond 2^27 samples the source reuses the last of its 25 half secants, and the contract covers the entries the 25 reach.
- RouteFinder.Push: the order in which `priority_queue` returns entries of equal priority is left open.
- RouteFinder.Finder.Begin: the write of line 114 outside the array is replaced by the write meant, at the start cell.
- RouteFinder.Finder.PathFind: allocation and release of nodes are not modelled; nodes are values, as the queues copy them.
- CptUpgrader.Registry.EnterAll: tags are taken to be unique, as the header of the file asks, and scripts to be well typed; the messages about ill-typed ones are not modelled.
- What upgrader scripts do to a checkpoint and the warnings printed about them.
- PortBinding.BindPorts: lists that are not mirrored, repeat an entry or connect a slot to itself; the configuration files it reads list every connection from both ends once.
- PipeView.Viewer.ProcessTrace: a trace is the instructions queued; skipping to the first tick or sequence number and the early stop at line 134, whose call lacks an argument, are not modelled, nor is the drawing of timelines.
- BranchUnit.BPredUnit.Predict: whether the indirect predictor has a target is a parameter, the return address stack always has one, and of the target buffer the model keeps index and tag of each entry, not the target; one thread.
- Statistics and probes of `bpred_unit.cc`; the free-weights variant of `ensemble.cc`.
- Opening of files and parsing of message bodies in `protolib.py`; a message is its bytes. The branch for 64-bit values in `DecodeVarint` is dead, as the merged groups stay below 128.
- The rest of `read_config.py` and `find_copyrights.py`: object creation, copyright owners and the search through files.
- `Bubblesort.c`, `Treesort.c`, matrix multiplication, the smaller microbenchmarks and the remaining gem5 configuration scripts, which would add easier members of the same kinds.
