# A verified model of HotSpot's floorplanner and thermal solvers

HotSpot estimates the temperature of a chip from its floorplan and its power, and can look for a good
floorplan first. This project models its engine over exact reals, in the imperative form that the C code
has, and proves what the code is for. There are four components.

**The slicing floorplanner.** An expression of blocks and cuts is edited in place by three moves, with four
caches beside it (`PolishExpression`, `NpeState`, `Connectivity`, `RandomMoves`). A stack machine turns it
into a slicing tree, and shape curves are merged up the tree (`ShapeCurves`, `SlicingTree`, `Curves`,
`TreeBuild`). Recursive sizing writes rectangles into the slots of a floorplan and changes child curves on the
way, as it absorbs dead space (`Geometry`, `Placement`, `Compaction`, `SizingSpec`, `Sizing`, `TreeSizing`). A
cache and a rim are wrapped around the result (`FloorplanExtents`, `WrapL2`, `WrapRim`, `Layout`), and
simulated annealing looks for the cheapest expression (`Annealing`). The main results: every run of moves
stays within the normalized Polish expressions, reaches all of them, can be undone, and keeps every cache
equal to a fresh recomputation; the floorplan that is left is of least area for its expression, out of
exponentially many choices, and is a rectangle without a gap or an overlap, also with cache and rim; it
belongs to the cheapest of all the expressions tried.

Additive measures carry the geometry. A measure of rectangles is additive if it adds up when a rectangle is
cut in two. Area, the number of rectangles over a point and the overlap with a grid cell are such measures,
and `Fills(rects, box)` says that all additive measures agree on `rects` and `box`. One theorem about `Fills`
gives tiling, area, and the occupancies that the grid model needs.

**The dense solver and the block model.** In-place pivoted elimination and substitution (`LinearAlgebra`,
`LupFactors`, `Substitution`, `Lup`) are proved against the matrix product. The matrix of the block model,
filled from floorplan and package (`Adjacency`, `BlockFill`), is shown to have the conductances of the bars of
material between the nodes (`BlockLaws`), and to be the matrix of a connected network (`ThermalNetwork`,
`BlockModel`), from which conservation of energy and the minimum principle follow for what the solver returns.
A step of the transient solver is the Taylor expansion of the solution (`RungeKutta`).

**The grid model.** One network (`GridNetwork`), with or without the secondary heat path through substrate,
solder and board, is the meaning of four pieces of code that spell it out separately: the Gauss-Seidel sweep
(`GaussSeidel`, `GridSweep`), the sparse matrix and its right-hand side (`GridMatrix`, `GridBuild`, `GridRhs`,
`GridCounts`, and `Coordinates` in `SparseMatrix`), the transient slope (`GridSlope`), and the nested
iteration with its transfers between grids (`GridTransfer`, `GridGuess`, `Multigrid`). Sweep and matrix agree
on what a steady state is, on grids of two rows and columns or more; `GridNarrow` says what becomes of the
matrix on others. The slope agrees without the secondary path; with it, it leaves out one flow, and agrees
exactly where that flow is zero (`GridUneven` has a steady state where it is not). `GridMap` and `GridXlate`
carry powers and temperatures between blocks and grid cells. `GridSides` has what the package sees of the
grid, and `GridEnergy` the balance of heat, at rest and on the way there.

**The microchannel circuit.** The numbering of fluid cells, the system of equations and the circuit that it
describes (`Channels`, `PressureMatrix`).

`Numbers` has the tolerance and a few facts that several components use.

Aborts of the program are outcomes in the model: a Boolean result, or a datatype such as `MoveOutcome`,
`LupOutcome` and `Populated`. Random draws are given as a sequence of fractions, and the acceptance of uphill
moves as a function of the try, the rise in cost and the temperature, so that a theorem about a run holds for
all of them. Loops that the program ends by convergence are given a number of rounds, and report whether that
was enough. Where `eq` decides an outcome it has its tolerance: in the pivot test of `lupdcmp`, at the end of
the sweeps of a grid, and for the units of the block model that are neighbours or on the border. Elsewhere, in
the geometry of floorplans and of the grid map, `eq` and the tolerant rounding of HotSpot/util.c are equality
and exact rounding, as they are when different coordinates differ by DELTA or more. The resistances and
capacitances of the package, and in the grid model those of the layers, are parameters, with the signs that
they have physically.

Where code and comments disagree, the model follows the code. `make_random_move` gives up when its count of
tries is at the limit even if the last try succeeded (HotSpot/npe.c:314): it does so exactly if all tries but
the last come to nothing. `lupdcmp` does not look at its last pivot (HotSpot/RCutil.c:82). `coo2csc` leaves a
column pointer unset if the last column is empty (HotSpot/util.c:591), which the steady-state matrix of the
grid never has. The rim can need just the 2n+2 slots set aside for n blocks, and needs all of them exactly if
every block spans the chip in one direction (HotSpot/flp.c:273-281). On a grid of a single row or column the
steady-state matrix repeats a coordinate and misses a link (HotSpot/temperature_grid.c:3428-4025), and has
more entries than are counted for it as soon as there is a layer besides those of the package
(HotSpot/temperature_grid.c:4517). `slope_fn_pack` has the flow from the solder to the substrate, but not the
one back (HotSpot/temperature_grid.c:2884, HotSpot/temperature_grid.c:2916), which sweep and matrix have; so
with the secondary path a steady state of the one is at rest in the other exactly if the solder is as warm as
the substrate on every side. `nnz` of the pressure matrix counts a zero diagonal for a fluid cell with no
fluid around it (HotSpot/microchannel.c:498).

`dafny verify dfyconfig.toml` checks the whole project.

## Model

| member | source | states |
|---|---|---|
| PolishExpression.InitialIsNpe | HotSpot/npe.c:75-105 | the starting expression is a normalized Polish expression: each unit once, n-1 cuts, balloting, no equal neighbouring cuts |
| PolishExpression.PositionsExact | HotSpot/npe.c:16-61 | the positions that a cache lists are just the ones of its kind, in increasing order |
| PolishExpression.MoveKeepsNpe | HotSpot/npe.c:157-264 | every move that is enabled keeps all of that |
| PolishExpression.SwapCutUnitGuardsExact | HotSpot/npe.c:233-247 | at a flip position the two guards of M3 hold exactly if the exchange leaves a normalized Polish expression: they refuse nothing they need not |
| PolishExpression.MoveUndoesItself | HotSpot/npe.c:157-264 | after a move the same move at the same position is enabled again and leads back |
| PolishExpression.ReachableIsNpe | HotSpot/npe.c:267-321 | whatever a run of moves from the start leads to is a normalized Polish expression |
| PolishExpression.RunReverses | HotSpot/npe.c:267-321 | a run read backwards is a run of the same moves |
| PolishExpression.ReachabilitySymmetric | HotSpot/npe.c:267-321 | what can be reached can be left again for where one came from |
| Connectivity.ReachableExactly | HotSpot/npe.c:157-321 | runs of moves from the start reach the normalized Polish expressions over the units, and all of them |
| Connectivity.AllConnected | HotSpot/npe.c:157-321 | any one of them can be reached from any other |
| NpeState.Npe.FillUnitPos | HotSpot/npe.c:16-25 | the cache holds the positions of the units, freshly computed |
| NpeState.Npe.FillFlipPos | HotSpot/npe.c:27-37 | the same for the places where unit and cut are neighbours |
| NpeState.Npe.FillChainPos | HotSpot/npe.c:39-61 | the same for the starts of runs of cuts; the abort is reached exactly if two neighbouring cuts are equal |
| NpeState.Npe.FillBallotCount | HotSpot/npe.c:63-72 | every prefix has its number of cuts |
| NpeState.Npe.SwapUnits | HotSpot/npe.c:157-172 | M1 in place is the exchange with the next unit; all caches stay right without being touched; the abort means that there is no next unit |
| NpeState.Npe.InvertChain | HotSpot/npe.c:175-198 | M2 in place flips the whole run; the caches stay right; the aborts mean an unknown or a repeated cut |
| NpeState.Npe.UpdateUnitPos | HotSpot/npe.c:201-218 | the binary search finds the position exactly if the sorted range has it, and changes just that entry |
| NpeState.Npe.SwapCutUnit | HotSpot/npe.c:225-264 | M3 in place is made exactly if it leaves a normalized expression, updates all four caches, and changes nothing when refused; neither abort is reached |
| NpeState.GetInitial | HotSpot/npe.c:75-105 | a new expression in its starting state with caches that are right |
| NpeState.Duplicate | HotSpot/npe.c:324-356 | a separate object with the same contents |
| NpeState.MakeRandomMove | HotSpot/npe.c:267-321 | the result is one enabled move away, in a new object, and is the move of the first try that comes to something; it gives up exactly if the first MAX_MOVES - 1 tries are M3s refused MAX_MOVES times each, whatever the last one does; no other abort is reached |
| NpeState.LastTryWasted | HotSpot/npe.c:314-318 | whenever an expression has a flip that is refused there are draws for which it gives up although the last try makes a move |
| RandomMoves.UnitDrawn | HotSpot/npe.c:276-284 | M1 takes the unit with i units before it exactly for the i-th of n-1 equal parts of the draws |
| RandomMoves.ChainDrawn | HotSpot/npe.c:286-293 | M2 takes each run of cuts for an equal part of the draws, in their order |
| RandomMoves.FlipDrawn | HotSpot/npe.c:295-306 | and M3 each flip |
| RandomMoves.FirstTryMakes | HotSpot/npe.c:272-306 | a third of the draws goes to each kind of move, and then the next draw decides the position |
| RandomMoves.OneMove | HotSpot/npe.c:267-321 | the same draws make at most one move |
| RandomMoves.MadeUnlessGivenUp | HotSpot/npe.c:272-319 | some move is made exactly if it does not give up |
| RandomMoves.EveryMoveDrawn | HotSpot/npe.c:267-321 | every enabled move is the one that is made, for some draws |
| RandomMoves.RandomlyReachable | HotSpot/npe.c:267-321 | random moves from the start reach exactly the normalized Polish expressions over the units |
| ShapeCurves.SumProper | HotSpot/shape.c:125-198 | a merge of positive, monotone curves is a positive, monotone curve |
| ShapeCurves.SumDominates | HotSpot/shape.c:125-198 | for every pair of shapes of the operands some entry of the merge needs no larger a box |
| ShapeCurves.ChosenRealises | HotSpot/shape.c:164-195 | the back-pointers from an entry lead to a choice of leaf shapes whose box is that entry |
| ShapeCurves.CurveDominates | HotSpot/shape.c:125-198 | no choice of leaf shapes in the whole tree has a box into which no entry of the root curve fits |
| ShapeCurves.MinAreaOptimal | HotSpot/shape.c:387-397 | the entry of least area at the root is the least bounding-box area over all combinations of leaf shapes, and is realised |
| Curves.CountSum | HotSpot/shape.c:138-152 | the counting pass finds the number of entries that the filling pass makes |
| Curves.ShapeAdd | HotSpot/shape.c:125-198 | the arrays, filled from the left for a vertical cut and from the right for a horizontal one, hold the merge and its back-pointers, no slot left over |
| Curves.MinAreaPos | HotSpot/shape.c:387-397 | the first position of least area |
| SlicingTree.StackReadsBack | HotSpot/shape.c:309-328 | after any prefix the trees on the stack, read in postorder, are that prefix |
| SlicingTree.NormalizedIffSkewed | HotSpot/shape.c:299-332 | the expression has no equal neighbouring cuts exactly if no right child has the cut of its parent |
| SlicingTree.TreeParsed | HotSpot/shape.c:299-332 | every skewed tree over the units is what the stack machine makes of its postorder, which is a normalized expression |
| SlicingTree.ParseBijective | HotSpot/shape.c:299-332 | the stack machine is a bijection from the normalized expressions to the skewed trees over the units, and postorder is its inverse |
| SlicingTree.ParseUnits | HotSpot/shape.c:314-317 | the leaves of the tree are the units, each once |
| TreeBuild.NodeStack.Push | HotSpot/shape.c:269-276 | the node is on top, or the stack was full and is as before |
| TreeBuild.NodeStack.Pop | HotSpot/shape.c:279-288 | the top comes off, or the stack was empty |
| TreeBuild.TreeFromNpe | HotSpot/shape.c:299-332 | no pop fails; a push fails exactly if some prefix needs more than MAX_STACK trees; else the tree of the expression is built, on curves of its own |
| TreeBuild.StackSuffices | HotSpot/shape.c:261-276 | with at most MAX_STACK units the stack never overflows |
| Placement.PlanFillsBox | HotSpot/shape.c:423-537 | blocks and dead blocks together have as much of any additive measure as the box: they tile it |
| Placement.PlanRoomy | HotSpot/shape.c:439-519 | every block gets a rectangle at least as large as its shape; n blocks have at most n-1 dead blocks |
| Placement.PlanInside | HotSpot/shape.c:405-539 | every rectangle stays in the box, none of negative size, and none of size zero if gaps of nothing are absorbed |
| Placement.PlanWithoutCompaction | HotSpot/shape.c:465-475 | without compaction every block has just its shape and every cut its dead block |
| Compaction.DivideCompacts | HotSpot/shape.c:439-519 | at a cut, the dead block is there exactly if the gap is more than the ratio times the extent of the child beside it; else that child grows by the gap |
| Compaction.PlanCompacted | HotSpot/shape.c:405-539 | the plan with compaction is the one plan with that property at every cut |
| Compaction.PlanScaled | HotSpot/shape.c:465-475 | if all shapes are scaled by one factor so is the plan: the same gaps are absorbed |
| Geometry.CoveredOnceTiles | HotSpot/shape.c:405-539 | rectangles that cover each point as often as the box does are pairwise disjoint and their union is the box |
| Geometry.FillsTiles | HotSpot/shape.c:405-539 | rectangles that fill a box tile it, have its area, and share with any cell what the box shares with it |
| Sizing.RecursiveSizing | HotSpot/shape.c:405-539 | the recursion, which widens child curves in place, leaves the plan in its slots: blocks by number, dead blocks in turn from the first free slot, all writes in bounds, no other slot or curve touched |
| TreeSizing.BuiltFollows | HotSpot/shape.c:431-436 | a new tree holds at every node the entry that the back-pointers from the root lead to |
| TreeSizing.TreeToFlp | HotSpot/shape.c:545-570 | the slots that count afterwards hold the plan of a least-area choice, with just the gaps absorbed that are at most the ratio of the extent beside them if compaction is on; the result is the number of dead blocks that were absorbed |
| TreeSizing.FloorplanOptimal | HotSpot/shape.c:545-570 | for every normalized expression, ratio and curves: least area over all choices, an exact tiling of the outline, room for one of its shapes in each block, fewer than 2n rectangles |
| FloorplanExtents.GetTotalWidth | HotSpot/flp.c:1498-1512 | on a floorplan that fills a box, the width of that box |
| FloorplanExtents.GetTotalHeight | HotSpot/flp.c:1514-1528 | the height of that box |
| FloorplanExtents.GetTotalArea | HotSpot/flp.c:1596-1603 | the sum of the areas |
| FloorplanExtents.FlpTranslate | HotSpot/flp.c:340-356 | the lower left corner goes to the given point and the floorplan fills the moved box |
| WrapL2.L2Margins | HotSpot/flp.c:639-671 | in all three branches the margins are positive and enclose core and cache area exactly; the chip is a square exactly if a square of that area is wider and higher than the core |
| WrapL2.L2PiecesArea | HotSpot/flp.c:686-703 | base and arms have the area of the cache |
| WrapL2.L2Fills | HotSpot/flp.c:673-703 | core, base and arms fill the outline |
| WrapL2.FlpWrapL2 | HotSpot/flp.c:619-704 | the method leaves core and cache in their slots, filling a rectangle of the area of both |
| WrapRim.RimFills | HotSpot/flp.c:722-785 | units that fill their box and their rim fill the frame: sides without gap, corners once each |
| WrapRim.RimCount | HotSpot/flp.c:273-281 | n units get at most 2n+2 strips, and exactly 2n+2 if and only if each unit spans the box in one direction |
| WrapRim.FlpWrapRim | HotSpot/flp.c:712-795 | the method centres the units and appends their rim, in bounds; the result is the number of strips |
| Layout.FlpPlaceholder | HotSpot/flp.c:247-310 | the number of slots set aside for blocks, dead blocks, cache and rim |
| Layout.RestoreDeadBlocks | HotSpot/flp.c:316-337 | whatever was absorbed and wrapped, 2n-1 units count again and the dead blocks are empty |
| Layout.FinishedFloored | HotSpot/flp.c:897-905 | the finished floorplan of any expression, with cache and rim or without, fills a rectangle |
| Layout.Realize | HotSpot/flp.c:897-905 | tree, sizing and wrapping in turn leave just that floorplan, in bounds, and say how to restore |
| Annealing.Decide | HotSpot/flp.c:919-949 | a move is accepted exactly if it is downhill or lucky, and then replaces the current expression; the best stays a cheapest of all tried |
| Annealing.TryMove | HotSpot/flp.c:894-950 | one move, the one that its draws make: accepted exactly if it is cheaper or by luck at this temperature; the best so far stays a cheapest expression of all evaluated, and the units are restored |
| Annealing.TryMoves | HotSpot/flp.c:887-951 | one step ends exactly when there were 2n tries or n of them went strictly down, or when a move gives up; each try begins where the one before it left off |
| Annealing.Anneal | HotSpot/flp.c:884-966 | the steps go on exactly while start Rcool^steps is not below the end temperature, there were fewer than Nmax of them, and at most the given part of the last one was rejected; each has its own temperature, and n is floor(Kmoves (2n-1)) every time |
| Annealing.FloorplanChip | HotSpot/flp.c:803-1003 | what is left is the finished floorplan of a cheapest of all expressions tried in such a run, and it fills a rectangle; the result is the number of unused slots |
| Annealing.TriesMade | HotSpot/flp.c:884-893 | a run tries at most 2n expressions at each of Nmax steps, and some exactly if the schedule can begin and allows moves |
| Annealing.StoppedEntered | HotSpot/flp.c:884-894 | a run in which a move gives up had begun, and had moves to make |
| LupFactors.SwapStands | HotSpot/RCutil.c:94-96 | exchanging two open rows, with their entries of p, keeps what the array stands for |
| LupFactors.ReduceStands | HotSpot/RCutil.c:98-102 | one elimination step keeps what the array stands for, with one more column of multipliers |
| LupFactors.StandsFactors | HotSpot/RCutil.c:75-103 | when all columns but the last are done the lower factor times the upper factor is the permuted matrix |
| Lup.FindPivot | HotSpot/RCutil.c:83-89 | the first row of a largest entry at or below the diagonal |
| Lup.Lupdcmp | HotSpot/RCutil.c:75-103 | on success p is a permutation, LU is the row-permuted matrix, multipliers are at most one and all pivots but the last at least DELTA; the abort means that a column has nothing of that size left |
| Substitution.SubstitutionSolves | HotSpot/RCutil.c:166-178 | forward and backward substitution together solve the original system |
| Substitution.SolutionUnique | HotSpot/RCutil.c:123-182 | the system has no other solution |
| Substitution.InverseFromLeft | HotSpot/RCutil.c:558-567 | an inverse from the right is one from the left |
| Substitution.ZeroPivotSingular | HotSpot/RCutil.c:82-103 | with a zero for the last pivot, which is never tested, the matrix has no inverse |
| Lup.Lusolve | HotSpot/RCutil.c:162-178 | with the factors of A and no zero pivot, Ax = b for the original A |
| Lup.Matinv | HotSpot/RCutil.c:558-567 | the result times the original matrix is the identity, from both sides; a zero pivot means that there is no inverse |
| ThermalNetwork.EnergyConserved | HotSpot/temperature_block.c:391-397 | in every steady state the heat that goes to ambient is the power fed in |
| ThermalNetwork.NotBelowAmbient | HotSpot/temperature_block.c:391-397 | if every node has a path to ambient and none is cooled, no node is colder than ambient |
| ThermalNetwork.OnlyZero | HotSpot/temperature_block.c:278-289 | then the matrix is not singular |
| ThermalNetwork.LastPivotNotZero | HotSpot/temperature_block.c:290-290 | so the pivot that lupdcmp does not test is not zero on it |
| BlockModel.Model.FillMatrix | HotSpot/temperature_block.c:250-274 | B is symmetric, nothing off the diagonal is positive, rows sum to the conductance to ambient |
| BlockModel.Model.Populate | HotSpot/temperature_block.c:250-294 | B is kept, and its decomposition is in lu and p; else its elimination has come to a column without a pivot |
| BlockModel.Model.SetInternalPower | HotSpot/temperature_block.c:382-389 | units keep their power, the other layers get none, sink nodes get ambient times their conductance |
| Adjacency.SharedIffAdjacent | HotSpot/flp.c:1401-1496 | units share an edge of some length exactly if they are neighbours, which they are from both sides and not when they meet at a corner |
| BlockFill.LateralExact | HotSpot/temperature_block.c:177-196 | in a layer a unit has a conductance to just its neighbours, none in silicon without lateral flow |
| BlockFill.BothEnds | HotSpot/temperature_block.c:173-241 | no part of a link is negative and the two parts are zero together, for every pair of nodes |
| BlockFill.FillConductances | HotSpot/temperature_block.c:136-241 | the loops leave in g just these parts: within layers, between layers, to the border nodes by the short-circuited sums, and around |
| BlockFill.FillAmbient | HotSpot/temperature_block.c:207-248 | g_amb has the conductances of sink blocks and sink nodes, and zero for the spreader nodes |
| BlockFill.AlwaysStacked | HotSpot/temperature_block.c:197-248 | whatever the floorplan, each block is linked down to the sink and each side of the spreader to the sink, and these to ambient |
| BlockFill.PopulateRModel | HotSpot/temperature_block.c:65-294 | a chip larger than spreader or sink is refused; else g has these parts, and once B is decomposed every node has a path to ambient |
| BlockLaws.LateralMeans | HotSpot/temperature_block.c:107-198 | between neighbours in a layer the two parts make up one bar from centre to centre, as wide as the edge that the units share |
| BlockLaws.VerticalMeans | HotSpot/temperature_block.c:198-205 | between layers, a bar as long as the upper layer is thick with the area of the unit |
| BlockLaws.SideTogether | HotSpot/temperature_block.c:139-230 | all units of a side of spreader or sink are together their half units in parallel, in series with the package, however the side is divided |
| BlockLaws.BondsInB | HotSpot/temperature_block.c:107-258 | every entry of B off the diagonal is the conductance of the material or the package between its two nodes |
| BlockLaws.BondsToAmbient | HotSpot/temperature_block.c:206-248 | g_amb of a sink unit is its material and convection in series; those of the nodes around are the package's |
| BlockLaws.SinkTogether | HotSpot/temperature_block.c:206-209 | all units of the sink together are a sink of the area of the chip, however it is divided |
| BlockModel.StackConnected | HotSpot/temperature_block.c:197-248 | the links that are made connect every node to ambient |
| BlockModel.Model.SteadyState | HotSpot/temperature_block.c:398-411 | the temperatures solve the network, all unit power goes to ambient, and with no negative power nothing is colder than ambient |
| BlockModel.SlopeFn | HotSpot/temperature_block.c:416-442 | dy = p - Cy |
| BlockModel.ScaleRows | HotSpot/temperature_block.c:369-374 | the inverse capacitances, and each row of B times that of its node |
| BlockModel.RowsScaled | HotSpot/temperature_block.c:369-374 | with the scaled power, these are the network over the capacitances |
| BlockModel.StartTransient | HotSpot/temperature_block.c:449-466 | the vector left for rk4 makes CT = it exactly when T solves the network with the unit powers and the heat from ambient |
| BlockModel.RestIsSteady | HotSpot/temperature_block.c:297-302 | such a transient model is at rest exactly in the steady states |
| RungeKutta.StepIsTaylor | HotSpot/RCutil.c:193-289 | on a slope p - Cy the four slopes weighted 1, 2, 2, 1 give the expansion of the solution up to the fourth power of the step |
| RungeKutta.Rk4Core | HotSpot/RCutil.c:193-289 | the loops over the vectors leave that expansion in yout |
| RungeKutta.RestStays | HotSpot/RCutil.c:193-289 | a state with no slope stays as it is, whatever the step |
| GridMap.ExtentLegal | HotSpot/temperature_grid.c:220-335 | a unit on the chip has a legal range of cells |
| GridMap.ExtentExact | HotSpot/temperature_grid.c:220-335 | the unit shares something with a cell exactly if the cell is in its range, and shares all of an inner cell |
| GridMap.SetBgmap | HotSpot/temperature_grid.c:220-335 | each cell lists the units that touch it, in order, with the part of the cell that they occupy; each unit has its range; the abort means that a unit has no legal range |
| GridMap.AllShares | HotSpot/temperature_grid.c:220-335 | over all cells, occupancy times cell area is the area of the unit |
| GridMap.OccupanciesSumToOne | HotSpot/temperature_grid.c:220-335 | on a floorplan that fills the chip the occupancies of every cell sum to one |
| GridMap.BlistAvg | HotSpot/temperature_grid.c:202-217 | the sum of density or temperature weighted by occupancy |
| GridMap.PowerConserved | HotSpot/temperature_grid.c:1682-1732 | the cells of a layer have the power of its units in all |
| GridMap.IdlePowerAdded | HotSpot/temperature_grid.c:1682-1732 | with idle power, just 17.4 times its sum more |
| GridMap.TemperatureBetween | HotSpot/temperature_grid.c:1682-1732 | the temperature of a cell is within any bounds of those of the units |
| GridXlate.XlateVectorB2g | HotSpot/temperature_grid.c:1682-1732 | every cell of every layer gets its value from that layer's part of the block vector, with idle power on layer 5 or 0 by the package mode; the nodes around are copied from what follows |
| GridXlate.AllPowerConserved | HotSpot/temperature_grid.c:1682-1732 | all cells together have the power of all blocks, and 17.4 times the idle sum if there is such a layer |
| GridXlate.XlateTempG2b | HotSpot/temperature_grid.c:1735-1818 | each block gets the mean, the least, the greatest or the middle of the temperatures of its cells, the nodes around are copied |
| GridXlate.CentreExact | HotSpot/temperature_grid.c:1756-1770 | for temperatures that rise evenly the value from the centre cells is that in the middle of the extent |
| GridXlate.MappedBetween | HotSpot/temperature_grid.c:1735-1818 | in each of the four modes the value is within any bounds of those of the cells |
| GridXlate.ThereAndBack | HotSpot/temperature_grid.c:1682-1818 | on a floorplan that fills the chip, temperatures taken to the grid and back are within the bounds of the layer |
| GridNetwork.LinksSymmetric | HotSpot/temperature_grid.c:2198-2224 | a node sees the other end of each link through the same resistance |
| GridNetwork.CSumPositive | HotSpot/temperature_grid.c:2258-2453 | no sum of conductances is zero: no sweep divides by zero |
| GaussSeidel.FixedIffBalanced | HotSpot/temperature_grid.c:2258-2453 | a sweep changes nothing exactly if every node that it visits is in balance |
| GaussSeidel.SweepMonotone | HotSpot/temperature_grid.c:2258-2453 | a sweep keeps the order of two temperature vectors |
| GaussSeidel.NeverBelowAmbient | HotSpot/temperature_grid.c:2258-2453 | with no node cooled, no number of sweeps leads below ambient |
| GaussSeidel.SweepResidual | HotSpot/temperature_grid.c:2258-2453 | after a sweep that changes no temperature by more than max, each node visited lacks at most max times its conductance to other nodes |
| GridSides.SideTogether | HotSpot/temperature_grid.c:1941-2181 | all cells of a side reach the package node through half a row of cells in parallel and the package resistance, which does not depend on the grid |
| GridSides.BoardTogether | HotSpot/temperature_grid.c:2258-2452 | all cells of the board together have the convection of the area of the chip |
| GridSweep.CellSums | HotSpot/temperature_grid.c:2200-2453 | the macros and boundary cases, in both package modes, give the sums over the links of the cell |
| GridSweep.SingleIteration | HotSpot/temperature_grid.c:1893-2453 | in both package modes one iteration in place is a sweep over all nodes, cells in the order of their numbers and then the nodes around; the change reported is the largest, is zero exactly in the steady state, and bounds what each node is left to lack |
| GridMatrix.BuildLinksComplete | HotSpot/temperature_grid.c:3398-4025 | each of the nine cases makes just the entries of the links of the cell |
| GridBuild.EmitCell | HotSpot/temperature_grid.c:3398-4025 | the nine cases, told apart by the number of the cell, append the row with the columns as computed and LARGENUM for a neighbour that is not there |
| GridBuild.TargetsAreLinks | HotSpot/temperature_grid.c:3398-4025 | on two rows and columns or more the columns are the places of the neighbours and LARGENUM does not occur |
| GridBuild.EmitExtra | HotSpot/temperature_grid.c:4027-4515 | the rows of the package nodes, entry by entry with their edge loops, are those of the network, in both package modes |
| GridBuild.BuildSteadyGridMatrix | HotSpot/temperature_grid.c:3321-4518 | the entries appended are the rows of all nodes, each once, cells first; on two rows and columns or more they are the matrix of the network |
| GridNarrow.NoRepeatsIffWide | HotSpot/temperature_grid.c:3428-4025 | for any value of LARGENUM the matrix repeats no coordinate exactly if there are two rows and two columns |
| GridNarrow.NetworkIffWide | HotSpot/temperature_grid.c:3428-4025 | each row says for all temperatures what its node says in the network exactly if there are two rows and two columns; else the first cell misses its second side of the sink |
| GridNarrow.EntriesMade | HotSpot/temperature_grid.c:3428-4514 | on any grid, the number of entries made is nnz, and on a single row or column as many more for each layer that no package node touches as the line has cells, or two for one cell |
| GridNarrow.CountIffWide | HotSpot/temperature_grid.c:3355-3387 | the number of entries is nnz exactly if there are two rows and two columns, or no layer but those of the package; else it is greater, so that the test at its end fails |
| GridMatrix.MatrixDot | HotSpot/temperature_grid.c:3398-4515 | a row times the temperatures is what leaves the node, less what comes from ambient |
| GridRhs.BuildSteadyRhsVector | HotSpot/temperature_grid.c:4532-4611 | the loops leave at each node its power and what comes from ambient, in both package modes |
| GridMatrix.SteadySolutions | HotSpot/temperature_grid.c:4613-4668 | for matrix and right-hand side as built, temperatures solve the system exactly if every node is in balance: the direct solver and the iteration have the same steady states |
| GridMatrix.RestIffBalanced | HotSpot/temperature_grid.c:2706-3111 | a slope with all flows is zero at a node exactly if the node is in balance |
| GridSlope.SlopeFnGrid | HotSpot/temperature_grid.c:2706-3111 | the loops leave in dv, for every cell and package node in both modes, power and inflow over the capacitance of the node, without the flow from substrate to solder |
| GridSlope.SlopeIffLevel | HotSpot/temperature_grid.c:2878-2907 | that is the slope of the network at a node exactly if the node is not in the solder, or as warm as the substrate beside it |
| GridSlope.RestIffSteady | HotSpot/temperature_grid.c:2706-3111 | without the secondary path the slope is zero everywhere exactly if every node is in balance |
| GridSlope.SteadyAtRestIffLevel | HotSpot/temperature_grid.c:2878-2939 | with it, a steady state has zero slope everywhere exactly if solder and substrate are equally warm on every side |
| GridEnergy.GridEnergyConserved | HotSpot/temperature_grid.c:1893-2452 | in a steady state all power of the grid goes to ambient, in both modes, on every grid |
| GridEnergy.HeatStored | HotSpot/temperature_grid.c:2706-3111 | what the capacitances of cells and package store is power less heat to ambient, and with the secondary path less the flow that slope_fn_pack leaves out |
| GridUneven.SteadyNotAtRest | HotSpot/temperature_grid.c:2878-2939 | a steady state with power in the cells only that is not at rest: solder and substrate differ |
| GridCounts.MatrixNoRepeats | HotSpot/temperature_grid.c:3398-4515 | no coordinate occurs twice |
| GridCounts.MatrixSymmetric | HotSpot/temperature_grid.c:3398-4515 | off the diagonal no entry is positive, and each is mirrored |
| GridCounts.RowSumsAreAmbient | HotSpot/temperature_grid.c:3398-4515 | each row sums to the conductance to ambient |
| GridCounts.MatrixSize | HotSpot/temperature_grid.c:3355-3387 | in both package modes the number of entries is the closed form that is allocated: the mismatch abort is not reached |
| GridTransfer.MultigridRestrictPower | HotSpot/temperature_grid.c:2461-2482 | every coarse cell has the sum of its four fine cells, nodes around are copied |
| GridTransfer.RestrictionConserves | HotSpot/temperature_grid.c:2461-2482 | the power of each layer stays the same |
| GridTransfer.MultigridProlongTemp | HotSpot/temperature_grid.c:2491-2560 | every fine cell is written: inside by interpolating along one axis and then the other, at the boundary from the nearest coarse cell |
| GridTransfer.ProlongedBetween | HotSpot/temperature_grid.c:2491-2560 | no fine value is outside the bounds of the coarse ones |
| GridTransfer.ProlongedExact | HotSpot/temperature_grid.c:2503-2518 | inside the grid a linear field is reproduced exactly at the middles of the fine cells |
| GridTransfer.ProlongedAtRim | HotSpot/temperature_grid.c:2539-2553 | at the boundary it is off by half a cell in each direction |
| GridGuess.SetHeuristicTemp | HotSpot/temperature_grid.c:1832-1890 | the loops from the last layer up leave the guess in every cell, and ambient around |
| GridGuess.GuessExact | HotSpot/temperature_grid.c:1829-1831 | the guess solves the heat balance without lateral links in every cell, and nothing else does |
| Multigrid.CoarseCell | HotSpot/temperature_grid.c:2595-2604 | a coarse cell has the conductances downwards and to ambient, and the capacitance, of its four fine cells together |
| Multigrid.Refine | HotSpot/temperature_grid.c:2631-2638 | the sweeps end after the first one whose largest change is below DELTA, or when there were as many as are allowed |
| Multigrid.GridModel.Restore | HotSpot/temperature_grid.c:2623-2630 | rz and c are restored always, rows and columns are rounded down to even |
| Multigrid.GridModel.RecursiveMultigrid | HotSpot/temperature_grid.c:2578-2643 | on power-of-two grids the model is as before; on every level the result is that of as many sweeps as it takes until one changes less than DELTA, from the guess or the prolonged result of the coarser grid for the restricted powers; then no node lacks more than that change times its conductance to other nodes; with no cell cooled nothing ever gets below ambient |
| Multigrid.NearlyIsSteady | HotSpot/temperature_grid.c:2633-2638 | if the last change was none, every node is in balance exactly |
| SparseMatrix.Coo2Csc | HotSpot/util.c:553-596 | the arrays hold the entries by ascending column and row, and each pointer up to the column of the last entry is the start of its column |
| SparseMatrix.RoundTrip | HotSpot/util.c:553-596 | all pointers are set exactly if the last column of the input has an entry, and then they run monotonically from 0 to nnz, and reading back gives the entries put in, sorted |
| GridCounts.MatrixConverts | HotSpot/temperature_grid.c:4520-4520 | the steady-state matrix has an entry in its last column, so that the conversion sets all pointers, up to nnz, and loses nothing |
| SparseMatrix.EmptyLastColumn | HotSpot/util.c:591-591 | an input for which a pointer stays unset |
| Channels.NumberingBijective | HotSpot/microchannel.c:399-410 | the numbering is a bijection between the fluid cells and 0 .. n_fluid_cells-1 |
| Channels.FlowConserved | HotSpot/microchannel.c:567-571 | what all the inlets let in leaves through the outlets |
| Channels.PressureBetween | HotSpot/microchannel.c:446-537 | a cell with a path to an inlet or outlet has a pressure between zero and that of the pump |
| Channels.PumpPushes | HotSpot/microchannel.c:567-571 | no net flow into an inlet or out of an outlet |
| Channels.DeterminedIffAnchored | HotSpot/microchannel.c:446-537 | the equations determine the pressure of a cell exactly if it has such a path |
| PressureMatrix.HydroC | HotSpot/microchannel.c:361-376 | the conductance is positive in all three cases |
| PressureMatrix.HydroCIs | HotSpot/microchannel.c:361-376 | the fitted formula in the shorter and the longer side, whichever of them is the height |
| PressureMatrix.WideningPays | HotSpot/microchannel.c:368-373 | a square channel that is widened conducts more exactly if it becomes wider by the factor 1.05229 |
| PressureMatrix.SystemIsCircuit | HotSpot/microchannel.c:446-537 | pressures solve the system exactly if they solve the circuit: zero net flow_rate at every FLUID cell, inlets at pumping pressure, outlets at zero |
| PressureMatrix.Config.BuildPressureMatrix | HotSpot/microchannel.c:378-537 | the loops leave mapping, A, b, n_fluid_cells and nnz of that system |
| PressureMatrix.NnzExact | HotSpot/microchannel.c:446-537 | nnz is never less than the number of nonzero entries, and equals it exactly if no FLUID cell is without fluid neighbours |

## Left out

- NpeState.MakeRandomMove: the generator behind `rand()` is not modelled; its numbers are given, as fractions of the range.
- Annealing.FloorplanChip: `flp_evaluate_metric` is a function that is given, of the finished rectangles; its wire lengths and temperatures are not looked into. The acceptance of an uphill move (`rand_fraction() < exp(...)`) is a function that is given, of the try, the rise and the temperature; the two temperatures of the schedule, which the source gets by logarithms, are parameters.
- Curves.ShapeAdd: the arrays x and y of a curve are one sequence of shapes, and the back-pointers and the median another; the arrays are filled slot by slot and then read into them.
- Sizing.RecursiveSizing: the test for compaction is a function that is given; `Placement.CompactRule` is the one of the source.
- Layout.FlpPlaceholder: names and wire densities are not modelled, here as in `restore_dead_blocks` and the wraps.
- WrapL2.FlpWrapL2: `sqrt` is a function that is given and whose square is its argument on what is not negative.
- Lup.Matinv: stops at a last pivot of zero, where the source would divide by it.
- Lup.Lupdcmp: the branches for BLAS and LAPACK libraries, here as in `lusolve`, `matinv` and `matvectmult`.
- BlockFill.FillConductances: the arrays `gx` to `gy_hs`, `len` and `border` hold functions of the units and are read as such; the resistances of the package (`populate_package_R`) are given, as are the capacitances in `BlockModel.ScaleRows`.
- BlockModel.RestIsSteady: with the capacitances that `ScaleRows` is given.
- GridMap.SetBgmap: the linked list of a cell is a sequence; the average resistances of mixed cells are left out.
- GridSweep.SingleIteration: uniform layers; the macros for detailed 3D, which are not symmetric (HotSpot/temperature_grid.c:2230), are left out here and in matrix and slope.
- GridBuild.BuildSteadyGridMatrix: the arrays of coordinates are a growing sequence; that they are just full is `GridNarrow.CountIffWide`, with the condition under which they are.
- GridXlate.XlateVectorB2g: the cells of the grid and the nodes around are two arrays, where the source has one behind the other.
- Multigrid.GridModel.RecursiveMultigrid: convergence is not claimed; the sweeps of a level are limited to a given number and the result says whether the last level settled. The source runs until the largest change is below DELTA.
- SparseMatrix.SortColumnMajor: an insertion sort in the place of `qsort`, which is a library function; on distinct coordinates the comparison leaves just one result.
- PressureMatrix.Config.BuildPressureMatrix: an ideal pump only; with a pump of its own resistance the rows of the matrix are allocated one column short (HotSpot/microchannel.c:425, HotSpot/microchannel.c:512). The solver of the circuit is not part of this model; results hold for any solution.
- `rk4` and the transient loops around `rk4_core`: step control uses `pow`.
- Leakage, package airflow and `shape_from_aspect`: transcendental functions; leaf curves are any positive curves with x not falling and y not rising.
- File and configuration parsing, dumps, printing, allocation and freeing of memory, floating-point rounding.
- The older near-copy of the grid model in HotSpot/temperature_mobile.c.
