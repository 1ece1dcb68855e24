# Simple navigation environment and chromosome bookkeeping, in Dafny

This project models two parts of the AHNI neuro-evolution framework.

**The simple navigation environment** (`SimpleNavigationEnvironment`). An agent moves a
point through the N-dimensional unit hypercube towards a goal. Axis-aligned boxes, thin
along one axis, are placed at random, and the agent cannot enter them. The model covers:

- the obstacle geometry: construction from random draws, the extent, and the
  inclusive-bounds collision test;
- the step transition: the motion vector is scaled down to norm 1, the move is clamped
  into [0, 1], a move into an obstacle is refused, and the state and reward are written
  into the output array;
- the reward and performance formulas over the L1 distance;
- the path estimator: an occlusion bit set over a grid of g = ceil(1/maxStepSize) + 1
  points per axis, then a bidirectional breadth-first search between the seed cells of
  start and goal;
- the obstacle placement loop of set-up: shrinking retries, the restart from slot 0 after
  1000 failures in one slot, and the step budget. Ghost records of every pass (`Pass`)
  state the whole history of a placement: each attempt, its size and draw, and whether
  it passed the acceptance test;
- the difficulty scaler for the obstacle count.

The search is imperative, as in the source. It keeps covered bit sets (`array<bool>`),
front lists that are expanded point by point, axis by axis and offset by offset, and a
length counter in a do-while. Every method is proved against a reference semantics
(module `SearchSpec`): balls of cells covered after r rounds and the first expansion at
which the two sides meet. For distinct seed cells, that semantics is proved to be -1
exactly when no admissible grid walk joins the seeds, and otherwise the least cost of
such a walk (module `Walks`). Equal seed cells give 2 grid steps (not 0), or -1 when every neighbour of the seed cell is occluded.

**Chromosome evaluation bookkeeping** (`Chromosome`). The model covers:

- fitness and performance setters that refuse values outside [0, 1] and accept NaN;
- resets that the "evaluation data stable" flag blocks;
- the one-shot species assignment;
- identity by id;
- gene lookup by innovation id;
- Pareto dominance with its NaN special cases.

NaN is an explicit value: `Num = NaN | Val(real)`. The double comparisons are false
whenever an operand is NaN.

Doubles are modelled as `real`. `Math.round` is floor(x + 0.5) and `Math.ceil` is the
ceiling. The random generator is replaced by explicit draws. Square roots are inputs: the
Euclidean start–goal distance `distance` and the motion vector's norm `norm`, which is
tied to the input by `norm * norm == SumSquares(input)`.

Modules:

| module | file | contents |
|---|---|---|
| `Wrappers` | wrappers.dfy | `Option` |
| `Numeric` | numeric.dfy | Math.round, absolute value, clamping into [0, 1] |
| `Grid` | grid.dfy | the row-major flattening of the multidimensional counter, granularity, seed index |
| `SearchSpec` | search_spec.dfy | reference semantics of the bidirectional search on any graph |
| `Walks` | walks.dfy | the semantics stated as shortest admissible walks |
| `GridGraph` | grid_graph.dfy | the grid as a graph; the search outcome on it |
| `PathSearch` | path_search.dfy | the imperative search with bit sets and front lists |
| `Obstacles` | obstacles.dfy | `Obstacle`: constructor, `collision`, `getSize` |
| `Difficulty` | difficulty.dfy | `getNewObstacleCount` and repeated increases |
| `Navigation` | navigation.dfy | the environment class: step, output, reward, performance, set-up, path estimate |
| `Chromosomes` | chromosome.dfy | the chromosome class and the dominance relation |

## Model

Source paths:

- `S` = `src/com/ojcoleman/ahni/experiments/csb/SimpleNavigationEnvironment.java`
- `C` = `src/org/jgapcustomised/Chromosome.java`

The table writes them out in full.

| member | source | states |
|---|---|---|
| Grid.Flatten | src/com/ojcoleman/ahni/experiments/csb/SimpleNavigationEnvironment.java:291 | The row-major flat index of a coordinate vector. FlattenBounds, DigitsOfFlatten and FlattenOfDigits state its meaning. |
| Grid.SeedIndex | src/com/ojcoleman/ahni/experiments/csb/SimpleNavigationEnvironment.java:290 | floor(x * g): r <= x * g < r + 1. |
| Grid.Digits | src/com/ojcoleman/ahni/experiments/csb/SimpleNavigationEnvironment.java:268-273 | The counter's coordinates of a flat index: n coordinates, each in [0, g). |
| Grid.FlattenBounds | src/com/ojcoleman/ahni/experiments/csb/SimpleNavigationEnvironment.java:291 | The flat index of in-range coordinates lies in [0, g^n). |
| Grid.DigitsOfFlatten | src/com/ojcoleman/ahni/experiments/csb/SimpleNavigationEnvironment.java:271-273 | Taking the coordinates of a flattened in-range point gives the point back. |
| Grid.FlattenOfDigits | src/com/ojcoleman/ahni/experiments/csb/SimpleNavigationEnvironment.java:271-273 | Flattening the coordinates of an index below g^n gives the index back. |
| Grid.FlattenUpdate | src/com/ojcoleman/ahni/experiments/csb/SimpleNavigationEnvironment.java:317-319 | Replacing coordinate d by c moves the flat index by (c - ind[d]) * g^(n-d-1): the neighbour-index rule. |
| Grid.Granularity | src/com/ojcoleman/ahni/experiments/csb/SimpleNavigationEnvironment.java:258 | g = ceil(1/maxStepSize) + 1 is at least 2. 1/maxStepSize lies in (g-2, g-1]. |
| Grid.Ceil | src/com/ojcoleman/ahni/experiments/csb/SimpleNavigationEnvironment.java:258 | The ceiling c satisfies c - 1 < x <= c. |
| Grid.SeedIndexInRange | src/com/ojcoleman/ahni/experiments/csb/SimpleNavigationEnvironment.java:289-290 | floor(x * g) is a grid coordinate exactly when 0 <= x < 1. |
| Grid.SeedIndexAtOne | src/com/ojcoleman/ahni/experiments/csb/SimpleNavigationEnvironment.java:290 | A coordinate of exactly 1 gives seed index g, outside the grid. |
| GridGraph.Stride | src/com/ojcoleman/ahni/experiments/csb/SimpleNavigationEnvironment.java:308-310 | g^(n-d-1), the flat-index distance between neighbours along axis d (AxisNeighbourFlatten). |
| GridGraph.GridOutcome | src/com/ojcoleman/ahni/experiments/csb/SimpleNavigationEnvironment.java:311-376 | The search outcome on the grid graph of the occlusion map. GridOutcomeIsShortestWalk and GridOutcomeEqualSeeds state its meaning. |
| GridGraph.AxisNeighbourFlatten | src/com/ojcoleman/ahni/experiments/csb/SimpleNavigationEnvironment.java:317-319 | For an in-range new coordinate, index + offset * g^(n-d-1) is the flattening of the coordinates with coordinate d replaced. |
| GridGraph.AdjacentSymmetric | src/com/ojcoleman/ahni/experiments/csb/SimpleNavigationEnvironment.java:315-319 | Grid neighbours are cells, and adjacency is symmetric. |
| GridGraph.NotSelfAdjacent | src/com/ojcoleman/ahni/experiments/csb/SimpleNavigationEnvironment.java:316-319 | No cell is its own neighbour. |
| GridGraph.GraphFilters | src/com/ojcoleman/ahni/experiments/csb/SimpleNavigationEnvironment.java:318-320 | The searched graph enters exactly the unoccluded grid neighbours. |
| GridGraph.GraphAssumptions | src/com/ojcoleman/ahni/experiments/csb/SimpleNavigationEnvironment.java:314-359 | The searched graph stays inside the grid, enters only unoccluded cells, and is symmetric between unoccluded cells. |
| GridGraph.GridOutcomeIsShortestWalk | src/com/ojcoleman/ahni/experiments/csb/SimpleNavigationEnvironment.java:311-376 | For distinct seed cells, the search outcome is -1 exactly when no admissible grid walk joins them. Otherwise it is the least walk cost. |
| GridGraph.GridOutcomeEqualSeeds | src/com/ojcoleman/ahni/experiments/csb/SimpleNavigationEnvironment.java:311-376 | For equal seed cells the outcome is 2 when the seed has an unoccluded neighbour, and -1 otherwise. |
| SearchSpec.BallCells | src/com/ojcoleman/ahni/experiments/csb/SimpleNavigationEnvironment.java:320-325 | Every covered cell is a cell. Every covered cell other than the seed is unoccluded. |
| SearchSpec.BallStep | src/com/ojcoleman/ahni/experiments/csb/SimpleNavigationEnvironment.java:363-370 | Expanding only the last front adds the same cells as expanding the whole covered set. |
| SearchSpec.BallGrows | src/com/ojcoleman/ahni/experiments/csb/SimpleNavigationEnvironment.java:374 | A round with a non-empty front covers strictly more cells, never more than there are. |
| SearchSpec.EnclosedNeverMeet | src/com/ojcoleman/ahni/experiments/csb/SimpleNavigationEnvironment.java:372-376 | Once one side's front is empty and the sides are still disjoint, they never meet. |
| SearchSpec.RoundMeets | src/com/ojcoleman/ahni/experiments/csb/SimpleNavigationEnvironment.java:313-361 | The start side's expansion in round r is expansion 2r+1, and the goal side's is 2r+2. |
| SearchSpec.OutcomeIsFirstMeeting | src/com/ojcoleman/ahni/experiments/csb/SimpleNavigationEnvironment.java:311-376 | For distinct seeds the search returns the first expansion at which the sides meet. It returns -1 exactly when they never meet. |
| SearchSpec.OutcomeEqualSeeds | src/com/ojcoleman/ahni/experiments/csb/SimpleNavigationEnvironment.java:311-376 | For equal seeds the search returns 2 or -1, never 0. |
| Walks.FilteredWalk | src/com/ojcoleman/ahni/experiments/csb/SimpleNavigationEnvironment.java:320 | A walk in the searched graph is a grid walk whose cells after the first are unoccluded, and conversely. |
| Walks.MeetsWalk | src/com/ojcoleman/ahni/experiments/csb/SimpleNavigationEnvironment.java:321-322 | When the sides meet at expansion j, an admissible walk of cost at most j joins the seeds. |
| Walks.WalkMeets | src/com/ojcoleman/ahni/experiments/csb/SimpleNavigationEnvironment.java:346-347 | An admissible walk makes the sides meet by the expansion equal to its cost. |
| Walks.OutcomeIsShortestWalk | src/com/ojcoleman/ahni/experiments/csb/SimpleNavigationEnvironment.java:311-376 | For distinct seeds and any filtered symmetric graph, the outcome is -1 exactly when no admissible walk exists. Otherwise it is the least walk cost. |
| PathSearch.Visit | src/com/ojcoleman/ahni/experiments/csb/SimpleNavigationEnvironment.java:317-330 | One neighbour per offset: it stops exactly when the neighbour is enterable and covered by the other side. Otherwise a new neighbour is covered and appended to the next front. |
| PathSearch.VisitCell | src/com/ojcoleman/ahni/experiments/csb/SimpleNavigationEnvironment.java:320-330 | For a neighbour known to be a cell: it stops exactly when the neighbour is unoccluded and covered by the other side. Otherwise the unoccluded neighbour is covered and the next front is the newly covered cells. |
| PathSearch.ExpandAxis | src/com/ojcoleman/ahni/experiments/csb/SimpleNavigationEnvironment.java:316-331 | Both offsets along one axis, the lower first. The result is as Visit, for the axis's enterable neighbours. |
| PathSearch.ExpandPoint | src/com/ojcoleman/ahni/experiments/csb/SimpleNavigationEnvironment.java:315-332 | All axes of one front point. It meets exactly when an enterable neighbour is covered by the other side; otherwise the covered set grows by exactly the enterable neighbours. |
| PathSearch.ExpandFront | src/com/ojcoleman/ahni/experiments/csb/SimpleNavigationEnvironment.java:314-334 | A whole front. It meets exactly when its expansion touches the other side; otherwise the covered set grows by the expansion, and the next front is exactly the new cells. |
| PathSearch.Seed | src/com/ojcoleman/ahni/experiments/csb/SimpleNavigationEnvironment.java:284-293 | The covered bit set holds only the seed cell, and so does the front. |
| PathSearch.MakeStrides | src/com/ojcoleman/ahni/experiments/csb/SimpleNavigationEnvironment.java:308-310 | indexOffsets[d] = g^(n-d-1). |
| PathSearch.ExpandBothSides | src/com/ojcoleman/ahni/experiments/csb/SimpleNavigationEnvironment.java:313-359 | The start front meets exactly at StartHit. Failing that, the goal front meets exactly at GoalHit. Otherwise both sides hold their next balls and fronts. |
| PathSearch.CoversDisjoint | src/com/ojcoleman/ahni/experiments/csb/SimpleNavigationEnvironment.java:311-374 | The covered bit sets of disjoint sides share no bit. |
| PathSearch.CoversFree | src/com/ojcoleman/ahni/experiments/csb/SimpleNavigationEnvironment.java:320-325 | Every covered cell other than the seed is unoccluded. |
| PathSearch.SearchStart | src/com/ojcoleman/ahni/experiments/csb/SimpleNavigationEnvironment.java:284-311 | Before the first round, each side covers its seed and its front is the seed; with distinct seeds the sides are disjoint; covered cells are unoccluded apart from the seeds. |
| PathSearch.SearchStep | src/com/ojcoleman/ahni/experiments/csb/SimpleNavigationEnvironment.java:361-374 | A round without meeting and with both fronts non-empty keeps that invariant for round r+1. The outcome still ahead is unchanged, and the start side strictly grows. |
| PathSearch.SearchRound | src/com/ojcoleman/ahni/experiments/csb/SimpleNavigationEnvironment.java:312-374 | One pass of the do-while. When it ends the search, the result is the reference outcome. Otherwise length = 2(r+1)+1 and the invariant holds for round r+1. |
| PathSearch.Search | src/com/ojcoleman/ahni/experiments/csb/SimpleNavigationEnvironment.java:311-376 | The do-while returns the reference outcome: the first expansion at which the sides meet, or -1. |
| PathSearch.FindPathLength | src/com/ojcoleman/ahni/experiments/csb/SimpleNavigationEnvironment.java:288-376 | The integer length equals the grid outcome between the flattened seed cells. |
| Obstacles.ObstacleOf | src/com/ojcoleman/ahni/experiments/csb/SimpleNavigationEnvironment.java:499-508 | The constructed obstacle has one lower and one upper corner coordinate per dimension. |
| Obstacles.ObstacleUpToAt | src/com/ojcoleman/ahni/experiments/csb/SimpleNavigationEnvironment.java:502-508 | Axis d of the constructed obstacle: corner1[d] is the draw u[d] scaled into the corner range, and corner2[d] adds maxStepSize * 1.01 on the drawn axis and obstSize on every other. |
| Obstacles.LowerCornerStep | src/com/ojcoleman/ahni/experiments/csb/SimpleNavigationEnvironment.java:504-506 | One pass of the dimension loop appends exactly the next lower-corner coordinate, u[d] * range + start. |
| Obstacles.ObstacleOfShape | src/com/ojcoleman/ahni/experiments/csb/SimpleNavigationEnvironment.java:499-508 | The extent is obstSize on every axis except the drawn one, where it is maxStepSize * 1.01. Each corner1[d] = -obstSize/2 + u[d] and lies in [-obstSize/2, 1-obstSize/2). |
| Obstacles.NewObstacle | src/com/ojcoleman/ahni/experiments/csb/SimpleNavigationEnvironment.java:499-508 | The dimension loop builds exactly ObstacleOf of the draw, so its shape is the one ObstacleOfShape states. |
| Obstacles.CornerInRange | src/com/ojcoleman/ahni/experiments/csb/SimpleNavigationEnvironment.java:504-505 | The corner range has width 1, and a draw u in [0, 1) lands inside it. |
| Obstacles.GetSize | src/com/ojcoleman/ahni/experiments/csb/SimpleNavigationEnvironment.java:518-520 | corner1 + size equals corner2 on every axis. |
| Obstacles.Collision | src/com/ojcoleman/ahni/experiments/csb/SimpleNavigationEnvironment.java:510-516 | True exactly when corner1[d] <= p[d] <= corner2[d] on every axis, both bounds included. |
| Obstacles.CollisionFrom | src/com/ojcoleman/ahni/experiments/csb/SimpleNavigationEnvironment.java:511-515 | The dimension loop from axis d on: true exactly when the remaining axes are all inside. |
| Numeric.Round | src/com/ojcoleman/ahni/experiments/csb/SimpleNavigationEnvironment.java:172 | Math.round: r - 0.5 <= x < r + 0.5. |
| Numeric.RoundMono | src/com/ojcoleman/ahni/experiments/csb/SimpleNavigationEnvironment.java:401-403 | Rounding is monotone. |
| Numeric.Clamp | src/com/ojcoleman/ahni/experiments/csb/SimpleNavigationEnvironment.java:195 | min(1, max(0, x)) lies in [0, 1]. It is x when x is in [0, 1], and otherwise the nearer bound. |
| Difficulty.NewObstacleCount | src/com/ojcoleman/ahni/experiments/csb/SimpleNavigationEnvironment.java:389-410 | The count is unchanged at the maximum or for delta < 1. Any change stays at most the maximum. |
| Difficulty.NewCountBounds | src/com/ojcoleman/ahni/experiments/csb/SimpleNavigationEnvironment.java:399-408 | From 0 <= count <= max, the new count is neither below count nor above max. |
| Difficulty.AdditiveIncreasePossible | src/com/ojcoleman/ahni/experiments/csb/SimpleNavigationEnvironment.java:380-408 | With an amount of at least 1, the count rises exactly while it is below the maximum. |
| Difficulty.FactorIncreasePossible | src/com/ojcoleman/ahni/experiments/csb/SimpleNavigationEnvironment.java:380-408 | With a factor, the count rises exactly when count < max, the factor exceeds 1 and the rounded product exceeds the count. A factor never raises a count of 0. |
| Difficulty.Raised | src/com/ojcoleman/ahni/experiments/csb/SimpleNavigationEnvironment.java:379-410 | The count after k increases. From 0 <= count <= max it never drops below count nor rises above max. |
| Difficulty.AdditiveReachesMax | src/com/ojcoleman/ahni/experiments/csb/SimpleNavigationEnvironment.java:384-408 | With an amount of at least 1, max - count increases reach the maximum and stay there. |
| Navigation.L1Zero | src/com/ojcoleman/ahni/experiments/csb/SimpleNavigationEnvironment.java:234 | The L1 distance is 0 exactly between equal vectors. |
| Navigation.L1Bound | src/com/ojcoleman/ahni/experiments/csb/SimpleNavigationEnvironment.java:234 | Inside the unit box, the L1 distance is at most the dimension. |
| Navigation.DistanceInBox | src/com/ojcoleman/ahni/experiments/csb/SimpleNavigationEnvironment.java:234 | Inside the unit box, L1/size is at most 1. |
| Navigation.SumSquaresDivided | src/com/ojcoleman/ahni/experiments/csb/SimpleNavigationEnvironment.java:189 | Dividing every coordinate by c divides the sum of squares by c*c. |
| Navigation.Unitized | src/com/ojcoleman/ahni/experiments/csb/SimpleNavigationEnvironment.java:186-190 | The motion vector is unchanged when its norm is at most 1, and otherwise divided by its norm. Either way its norm is at most 1. |
| Navigation.UnitNormCoordinates | src/com/ojcoleman/ahni/experiments/csb/SimpleNavigationEnvironment.java:188-190 | A vector of norm at most 1 has every coordinate in [-1, 1]. |
| Navigation.Moved | src/com/ojcoleman/ahni/experiments/csb/SimpleNavigationEnvironment.java:195 | One clamped coordinate of the step, min(1, max(0, x + u*m)), lies in [0, 1]. |
| Navigation.Occludes | src/com/ojcoleman/ahni/experiments/csb/SimpleNavigationEnvironment.java:199-205 | A point is occluded when a non-empty slot below the count holds an obstacle containing it. AnyCollision and MoveState are proved against it. |
| Navigation.Candidate | src/com/ojcoleman/ahni/experiments/csb/SimpleNavigationEnvironment.java:194-196 | Each candidate coordinate is min(1, max(0, s[i] + in[i] * maxStepSize)), so the candidate lies in the unit box. |
| Navigation.StepIsShort | src/com/ojcoleman/ahni/experiments/csb/SimpleNavigationEnvironment.java:186-196 | From inside the box, a step moves each coordinate by at most maxStepSize, whatever the motion vector. |
| Navigation.ClampedStep | src/com/ojcoleman/ahni/experiments/csb/SimpleNavigationEnvironment.java:195 | Moving a value in [0, 1] by u*m with abs(u) <= 1, then clamping, moves it by at most m. |
| Navigation.PathEstimate | src/com/ojcoleman/ahni/experiments/csb/SimpleNavigationEnvironment.java:253-256 | findPath: the given distance without obstacles, otherwise the grid estimate. EstimateIsShortestPath states its meaning. |
| Navigation.GridEstimate | src/com/ojcoleman/ahni/experiments/csb/SimpleNavigationEnvironment.java:258-376 | The counter error for a seed outside the grid, otherwise the search outcome scaled by the step size. |
| Navigation.OcclusionMap | src/com/ojcoleman/ahni/experiments/csb/SimpleNavigationEnvironment.java:264-281 | Grid point i is marked exactly when a non-empty slot below the count holds an obstacle containing the point's position. |
| Navigation.AnyCollision | src/com/ojcoleman/ahni/experiments/csb/SimpleNavigationEnvironment.java:275-280 | The obstacle loop, which skips empty slots, answers whether some obstacle contains the point. |
| Navigation.MarkOccluded | src/com/ojcoleman/ahni/experiments/csb/SimpleNavigationEnvironment.java:264-281 | The bit set built point by point equals the occlusion map. |
| Navigation.PointOf | src/com/ojcoleman/ahni/experiments/csb/SimpleNavigationEnvironment.java:271-273 | The point buffer holds the counter's coordinates times the step size. |
| Navigation.Seeds | src/com/ojcoleman/ahni/experiments/csb/SimpleNavigationEnvironment.java:289-290 | The seed coordinates are floor(x[d] * g), one per dimension. |
| Navigation.SeedsInRange | src/com/ojcoleman/ahni/experiments/csb/SimpleNavigationEnvironment.java:289-301 | The seeds are in range exactly when every coordinate is in [0, 1). |
| Navigation.SeedIndices | src/com/ojcoleman/ahni/experiments/csb/SimpleNavigationEnvironment.java:288-290 | The seed loop computes Seeds. |
| Navigation.SeedCell | src/com/ojcoleman/ahni/experiments/csb/SimpleNavigationEnvironment.java:291 | For a state in [0, 1)^n, the seed's flat index is a grid cell. |
| Navigation.EstimateOutOfGrid | src/com/ojcoleman/ahni/experiments/csb/SimpleNavigationEnvironment.java:288-302 | With obstacles, the estimate raises the counter's range error exactly when some start or goal coordinate is outside [0, 1). |
| Navigation.EstimateOutOfGridAny | src/com/ojcoleman/ahni/experiments/csb/SimpleNavigationEnvironment.java:288-302 | Whether that error occurs does not depend on the obstacles. |
| Navigation.EstimateIsShortestPath | src/com/ojcoleman/ahni/experiments/csb/SimpleNavigationEnvironment.java:253-377 | For distinct seed cells the estimate is -1 exactly when no admissible grid walk joins the seeds. Otherwise it is the least walk cost times stepSize. |
| Navigation.EstimateSameCell | src/com/ojcoleman/ahni/experiments/csb/SimpleNavigationEnvironment.java:311-376 | When start and goal share a seed cell, the estimate is 2*stepSize if the search can leave the cell, and -1 otherwise. |
| Navigation.ScaledOutcome | src/com/ojcoleman/ahni/experiments/csb/SimpleNavigationEnvironment.java:322 | Scaling the least walk cost by a positive spacing keeps it the least scaled cost, and -1 stays -1. |
| Navigation.RequiredSteps | src/com/ojcoleman/ahni/experiments/csb/SimpleNavigationEnvironment.java:172-177 | round(path*1.1/maxStepSize) + 1, plus 2*size when the trial count is 1. Stated through the bounds of rounding. |
| Navigation.Layout | src/com/ojcoleman/ahni/experiments/csb/SimpleNavigationEnvironment.java:219-225 | The output holds the state at the front and the reward in its last slot. The other slots are unchanged. |
| Navigation.Environment.constructor | src/com/ojcoleman/ahni/experiments/csb/SimpleNavigationEnvironment.java:57-68 | The obstacle count is the initial count, maxStepSize is 0.1 and requiredSteps is 0. |
| Navigation.Environment.GetRewardForState | src/com/ojcoleman/ahni/experiments/csb/SimpleNavigationEnvironment.java:232-238 | 1 - L1/size is at most 1, equals 1 exactly at the goal, and is non-negative inside the unit box. |
| Navigation.Environment.GetPerformanceForState | src/com/ojcoleman/ahni/experiments/csb/SimpleNavigationEnvironment.java:240-245 | 1 when L1/size < maxStepSize. Otherwise 0.1*(1 - L1/size), which is at most 0.1. |
| Navigation.Environment.GetOutputForState | src/com/ojcoleman/ahni/experiments/csb/SimpleNavigationEnvironment.java:213-230 | The output becomes the Layout of state and reward. The result is the performance. |
| Navigation.Environment.MoveState | src/com/ojcoleman/ahni/experiments/csb/SimpleNavigationEnvironment.java:191-207 | The state becomes the candidate, or stays unchanged when some obstacle contains the candidate. |
| Navigation.Environment.UpdateStateAndOutput | src/com/ojcoleman/ahni/experiments/csb/SimpleNavigationEnvironment.java:181-211 | The state becomes the candidate for the unitized motion vector, or stays when that candidate is occluded. The output is the Layout of the resulting state; the result is its performance. |
| Navigation.Environment.SetUp | src/com/ojcoleman/ahni/experiments/csb/SimpleNavigationEnvironment.java:138-177 | A fresh array of count slots. The counter error happens exactly when count != 0 and start or goal is outside [0, 1). On completion (Populated), every slot avoids start and goal, the final estimate is neither -1 nor at most the estimate with every slot empty, requiredSteps is derived from it, and the returned records are the whole placement history of PlaceAll, from the empty slots. |
| Navigation.Environment.Populate | src/com/ojcoleman/ahni/experiments/csb/SimpleNavigationEnvironment.java:139-177 | From all-empty slots whose estimate is minPath: never the counter error, and on completion Populated holds (as for SetUp), with the whole placement history. Only the slots and requiredSteps change. |
| Navigation.Shrunk | src/com/ojcoleman/ahni/experiments/csb/SimpleNavigationEnvironment.java:154-158 | The size after n rejections is s * 0.95^n: positive and at most s for positive s, and strictly smaller once a rejection happened. |
| Navigation.ShrunkAdd | src/com/ojcoleman/ahni/experiments/csb/SimpleNavigationEnvironment.java:141-158 | Shrinking m times and then n times is shrinking m + n times, so the size carries over from slot to slot. |
| Navigation.PassStateAppend | src/com/ojcoleman/ahni/experiments/csb/SimpleNavigationEnvironment.java:141-158 | Accepting the next slot with the obstacle from draw u, after f < 1000 rejections and with u the draw f places after the previous slot's, extends the record of the pass. The earlier slots keep theirs, and the total of rejections grows by f. |
| Navigation.AcceptExtendsPass | src/com/ojcoleman/ahni/experiments/csb/SimpleNavigationEnvironment.java:141-158 | Slot o accepted with the obstacle from draws[next-1] after f < 1000 rejections since draw k = next-1-f, sized Shrunk(obstSize, f), all other slots unchanged: the pass continues at slot o+1 from draw next with that size. |
| Navigation.RejectionsExtend | src/com/ojcoleman/ahni/experiments/csb/SimpleNavigationEnvironment.java:142-158 | Accepting slot |fails| after f attempts, each rejected against the slots as they stood, with the later slots still as the pass found them, records those rejections with the earlier ones of the pass. |
| Navigation.Extended | src/com/ojcoleman/ahni/experiments/csb/SimpleNavigationEnvironment.java:141-158 | The pass after one more slot: the same first draw, starting slots and give-up, with one more rejection count and draw. |
| Navigation.EmptyPlacement | src/com/ojcoleman/ahni/experiments/csb/SimpleNavigationEnvironment.java:141-168 | With no slots, the pass that begins with the first draw is a complete placement record. |
| Navigation.PassBegins | src/com/ojcoleman/ahni/experiments/csb/SimpleNavigationEnvironment.java:139-141 | The first pass begins at slot 0 with the first draw and size 1, from the slots as allocated. |
| Navigation.PassCompletes | src/com/ojcoleman/ahni/experiments/csb/SimpleNavigationEnvironment.java:141-168 | A pass that reaches the last slot, with its chain of earlier passes, leaves every slot clear of start and goal, the estimate of its last acceptance, and the complete placement record. |
| Navigation.SlotAccepted | src/com/ojcoleman/ahni/experiments/csb/SimpleNavigationEnvironment.java:144-158 | Slot o accepted after next-k-1 rejections, each against the slots the pass had reached, with the obstacle from the draw after them: the pass continues at slot o+1 with draw next and the size shrunk once per rejection. The slot's acceptance joins those of the earlier slots, and the chain of passes now ends in the extended pass. |
| Navigation.SlotRestarted | src/com/ojcoleman/ahni/experiments/csb/SimpleNavigationEnvironment.java:159-166 | Slot o rejected all 1000 attempts from draw k: that is recorded as a give-up. The pass that gave up joins the chain, and a new pass begins at slot 0 with draw k+1000 and size 1, from the slots holding the last attempt. |
| Navigation.Environment.PlaceAll | src/com/ojcoleman/ahni/experiments/csb/SimpleNavigationEnvironment.java:141-168 | The slot loop. It ends only by completing or by running out of draws. On completion every slot avoids start and goal, and the last accepted estimate is the current one, above minPath. The returned records give the whole placement history. The last pass fills every slot from slot 0 with size 1, slot j after fails[j] < 1000 rejections from the draw after the previous slot's, with size 0.95^(rejections so far). Every rejected attempt failed the acceptance test against the slots as they stood, and every filled slot passed it. The passes before it gave up one after the other. Each filled its slots in the same way, then made 1000 rejected attempts for the next slot, from the draw and size it had reached and against the slots it left. The pass after it starts from those slots with the last attempt in place. The first pass starts with the first draw from the empty slots. |
| Navigation.Environment.PlaceSlot | src/com/ojcoleman/ahni/experiments/csb/SimpleNavigationEnvironment.java:142-167 | The attempts for one slot; it answers the slot, draw, size and path the loop goes on with. An accepted obstacle moves on to slot o+1 with the size shrunk once per rejection and its estimate as the path, and extends the pass with its rejections and draw. After 1000 rejections, the 1000 draws were all rejected for this slot. The loop then returns to slot 0 with size 1 and the next draw, the old pass joins the chain, and the new pass starts from the slots holding the last attempt. Either way the loop invariant and the chain of passes hold again. Other slots are unchanged. |
| Navigation.AcceptancesExtend | src/com/ojcoleman/ahni/experiments/csb/SimpleNavigationEnvironment.java:145-153 | Accepting slot o, with the later slots still as the pass found them, adds the slot to the acceptances of the pass: clear of start and goal, and an estimate that is neither -1 nor at most minPath, against the slots as they now stand. The earlier slots keep theirs, against the slots as they stood then. |
| Navigation.ChainedExtended | src/com/ojcoleman/ahni/experiments/csb/SimpleNavigationEnvironment.java:141-158 | Filling one more slot of the current pass keeps the chain of passes: the earlier passes, and how the current pass began, are unchanged. |
| Navigation.ChainedRestart | src/com/ojcoleman/ahni/experiments/csb/SimpleNavigationEnvironment.java:159-166 | When a new pass begins right after the current one gave up, the current pass joins the chain and the new pass ends it. |
| Navigation.SlotGaveUp | src/com/ojcoleman/ahni/experiments/csb/SimpleNavigationEnvironment.java:159-166 | A give-up in slot o ends the pass that was filling it. In the next pass's give-up record, the slot is the one after those the pass filled. Its attempts began 1000 draws before the next pass, right after the pass's last draw, and with the size the pass had reached. The slots are those the pass left, with its rejections and acceptances against them. |
| Navigation.SlotStep | src/com/ojcoleman/ahni/experiments/csb/SimpleNavigationEnvironment.java:142-167 | Whichever way a slot ends short of running out of draws, accepted or given up after 1000 rejections: the next slot, size, path and pass records satisfy the loop invariant and the chain of passes again. A give-up is recorded as such. |
| Navigation.Environment.PlaceObstacle | src/com/ojcoleman/ahni/experiments/csb/SimpleNavigationEnvironment.java:142-167 | The do-while for one slot, from draw k. Every attempt except an accepted last one was rejected, the j-th with size Shrunk(obstSize, j). Accepted after next-k-1 < 1000 rejections: the slot holds the obstacle from draws[next-1] with size Shrunk(obstSize, next-k-1), the obstacle avoids start and goal, and the estimate is neither -1 nor at most minPath. Restart: exactly 1000 rejections, size Shrunk(obstSize, 1000). Exhausted: the draws ran out. Other slots are unchanged. |
| Navigation.Environment.Attempt | src/com/ojcoleman/ahni/experiments/csb/SimpleNavigationEnvironment.java:145-153 | One attempt: the slot holds the obstacle from the draw at the current size, and only that slot changes. It is accepted exactly when it avoids start and goal and the estimate is neither -1 nor at most minPath. |
| Navigation.Environment.IncreaseDifficultyPossible | src/com/ojcoleman/ahni/experiments/csb/SimpleNavigationEnvironment.java:379-382 | True exactly when the new count exceeds the current one. For an amount of at least 1, exactly when below the maximum; for delta < 1, never. |
| Navigation.Environment.IncreaseDifficulty | src/com/ojcoleman/ahni/experiments/csb/SimpleNavigationEnvironment.java:384-387 | The count becomes the new count. Nothing else changes. |
| Navigation.Environment.FindPath | src/com/ojcoleman/ahni/experiments/csb/SimpleNavigationEnvironment.java:253-256 | The result is the path estimate: the given distance without obstacles, otherwise the grid estimate. |
| Navigation.Environment.GridPath | src/com/ojcoleman/ahni/experiments/csb/SimpleNavigationEnvironment.java:258-376 | The result is the grid estimate: the counter error for an out-of-range seed, otherwise the scaled search outcome. |
| Chromosomes.OutOfUnit | src/org/jgapcustomised/Chromosome.java:269-306 | The guard of the three setters, `x < 0 \|\| x > 1` on doubles. OutOfUnitMeaning states its meaning. |
| Chromosomes.OutOfUnitMeaning | src/org/jgapcustomised/Chromosome.java:269-273 | The setters refuse exactly the numbers outside [0, 1]. NaN is never refused. |
| Chromosomes.FirstMatch | src/org/jgapcustomised/Chromosome.java:214-222 | No result exactly when no gene has the innovation id. Otherwise the result is a gene with that id and no earlier gene has it. |
| Chromosomes.FirstMatchUnique | src/org/jgapcustomised/Chromosome.java:214-222 | In a gene set sorted by innovation id, the match is the only gene with that id. |
| Chromosomes.CompareIds | src/org/jgapcustomised/Chromosome.java:393-397 | Long.compareTo: -1, 0 or 1 exactly as the first id is below, equal to or above the second. |
| Chromosomes.CompareIdsOrder | src/org/jgapcustomised/Chromosome.java:393-397 | The comparison is antisymmetric and transitive. |
| Chromosomes.Dominates | src/org/jgapcustomised/Chromosome.java:518-558 | Dominance over this chromosome's objectives, with the NaN special cases first. DominatesWithoutNaN, DominatesNaNCases and the order lemmas state its meaning. |
| Chromosomes.DominatesWithoutNaN | src/org/jgapcustomised/Chromosome.java:545-557 | Without NaN, a dominates b exactly when no objective is lower and at least one is higher. |
| Chromosomes.DominatesNaNCases | src/org/jgapcustomised/Chromosome.java:519-543 | With one objective NaN on both sides, the overall values are compared with >. Any other NaN in this chromosome gives false; NaN only in the other gives true. |
| Chromosomes.DominatesIrreflexive | src/org/jgapcustomised/Chromosome.java:518-558 | No chromosome dominates itself. |
| Chromosomes.DominatesTransitive | src/org/jgapcustomised/Chromosome.java:518-558 | With equal objective counts, dominance is transitive, NaN cases included. |
| Chromosomes.DominatesNotTransitive | src/org/jgapcustomised/Chromosome.java:518-558 | With unequal objective counts transitivity fails: (0.5) dominates (0.3, 0.4), which dominates (0.9, NaN), and (0.5) does not dominate (0.9, NaN). |
| Chromosomes.DominatesAsymmetric | src/org/jgapcustomised/Chromosome.java:518-558 | With equal objective counts, a dominates b implies that b does not dominate a. |
| Chromosomes.Create | src/org/jgapcustomised/Chromosome.java:131-145 | Null material gives no chromosome. Otherwise: the given id and genes, objectiveCount objectives, and behaviourCount or 0 behaviour slots. |
| Chromosomes.Chromosome.constructor | src/org/jgapcustomised/Chromosome.java:131-145 | The fitness array has objectiveCount entries, all NaN. Behaviour slots exist only for behaviourCount > 0. Performance and overall fitness are NaN, the data is not stable and there is no species. |
| Chromosomes.Chromosome.Blank | src/org/jgapcustomised/Chromosome.java:108-122 | The persistence constructor: id -1, no gene set, all-NaN fitness, behaviour slots only for behaviourCount > 0. |
| Chromosomes.Chromosome.ObjectiveCount | src/org/jgapcustomised/Chromosome.java:500-502 | The length of the fitness array. |
| Chromosomes.Chromosome.NoveltyObjectiveCount | src/org/jgapcustomised/Chromosome.java:504-506 | 0 without behaviour slots, otherwise their number. |
| Chromosomes.Chromosome.SetFitnessValue | src/org/jgapcustomised/Chromosome.java:269-274 | A value outside [0, 1] is refused and nothing changes. Any other value, NaN included, becomes the overall fitness. |
| Chromosomes.Chromosome.SetObjectiveFitnessValue | src/org/jgapcustomised/Chromosome.java:282-287 | The value is checked first, then the index. Only a stored value changes the array, in that slot alone. |
| Chromosomes.Chromosome.SetPerformanceValue | src/org/jgapcustomised/Chromosome.java:303-308 | A value outside [0, 1] is refused and nothing changes. Any other value, NaN included, becomes the performance. |
| Chromosomes.Chromosome.ResetPerformanceValue | src/org/jgapcustomised/Chromosome.java:313-317 | The performance becomes NaN unless the data is stable. Nothing else changes. |
| Chromosomes.Chromosome.ResetFitnessValues | src/org/jgapcustomised/Chromosome.java:322-329 | Unless the data is stable, the overall fitness and every objective's fitness become NaN. When stable, nothing changes. |
| Chromosomes.Chromosome.ResetEvaluationData | src/org/jgapcustomised/Chromosome.java:335-343 | Unless the data is stable, performance and fitness become NaN and every behaviour slot is cleared. When stable, nothing changes. |
| Chromosomes.Chromosome.SetEvaluationDataStable | src/org/jgapcustomised/Chromosome.java:349-351 | The data is marked stable. Nothing else changes. |
| Chromosomes.Chromosome.SetSpecie | src/org/jgapcustomised/Chromosome.java:435-439 | Succeeds exactly when no species is assigned, and then assigns it. Otherwise the existing species stays. |
| Chromosomes.Chromosome.ResetSpecie | src/org/jgapcustomised/Chromosome.java:444-446 | No species afterwards, so the next SetSpecie succeeds. |
| Chromosomes.Chromosome.CompareTo | src/org/jgapcustomised/Chromosome.java:393-397 | The comparison of the ids. It is 0 exactly when the ids are equal. |
| Chromosomes.Chromosome.Equals | src/org/jgapcustomised/Chromosome.java:373-375 | True exactly when CompareTo is 0, that is, when the ids are equal. |
| Chromosomes.Chromosome.FindMatchingGene | src/org/jgapcustomised/Chromosome.java:214-222 | The iteration returns the first gene, in innovation-id order, with the argument's innovation id, or nothing. The gene set being sorted, a returned gene is the only one with that id. |
| Chromosomes.Chromosome.DominatesChromosome | src/org/jgapcustomised/Chromosome.java:518-558 | The NaN scan, the special cases and the objective loop compute the dominance relation. |

## Left out

- Random start and goal placement in set-up (S:79-136). It is rejection sampling on Euclidean distance and needs square roots. SetUp takes start and goal as parameters.
- Euclidean distance and vector norm. The shortcut of the path estimate without obstacles (S:255) is the parameter `distance`. The norm in the step (S:188-190) is the parameter `norm`, constrained by `norm * norm == SumSquares(input)`.
- The random generator. Obstacle construction consumes an `ObstacleDraw`: the axis index and one value in [0, 1) per dimension. The distributions are not modelled.
- Termination of the placement loop. The source has no bound. The supply of draws is the fuel, and running out ends SetUp with `OutOfDraws`.
- Floating point is modelled as exact reals. Rounding error, the infinities and NaN in the environment's vectors are not represented.
- 32-bit overflow: of `pointCount` (the `(int) Math.pow` at S:260), of flat indices, and of the `(int)` casts of `Math.round` and `Math.ceil`. Integers are unbounded in the model.
- `MultidimensionalCounter` is not part of this model beyond what the search relies on: the row-major numbering (`Digits`/`Flatten`) and its out-of-range error for a seed coordinate of `g` (`OutOfGrid`).
- Navigation.Environment.UpdateStateAndOutput: requires the motion vector to have at least `size` entries and the obstacle slots below the count to be filled. The source reads `inputT.getEntry(i)` and dereferences `obstacle[o]` without checks, so it fails in those cases.
- Navigation.Environment.GetOutputForState: requires an output array of at least `size` entries. With a shorter one the `System.arraycopy` at S:219 throws.
- Navigation.Environment.UpdateStateAndOutput: requires an output array of at least `size` entries, since it ends in GetOutputForState.
- Chromosomes.Chromosome.constructor: takes `objectiveCount` as a natural number. A negative count makes the array allocation at C:139 throw NegativeArraySizeException.
- Chromosomes.Chromosome.Blank: takes `objectiveCount` as a natural number. A negative count makes the array allocation at C:117 throw NegativeArraySizeException.
- Chromosomes.Create: the IllegalArgumentException for null material (C:133-134) is modelled as the result None.
- Chromosomes.Chromosome.Equals: takes a Chromosome. The source's `equals(Object)` casts its argument through `compareTo`, so another class throws ClassCastException and null throws NullPointerException (C:373-375, 394-395).
- Navigation.Environment.SetUp: requires a non-negative obstacle count. A negative count makes `new Obstacle[obstacleCount]` throw.
- Configuration: the maximum obstacle count, the delta string and the trial count are passed as values. Parsing the delta string into `Additive`/`Factor` is not modelled.
- `logToImage`, `logToImageForTrial`, `toString` and logging are left out: they are rendering and I/O.
- `getMinimumStepsToSolve`, `setMinimumStepsToSolve`, `getInputSize` and `getOutputSize` are left out: they are trivial accessors.
- In `Chromosome`, these are left out as collaborators the model does not see: `ChromosomeMaterial` (beyond its sorted gene list), `Species` and `Behaviour` (opaque values). Also `distance`, `isEquivalent`, `cloneMaterial`, `getSpeciatedFitnessValue`, `hashCode` and `associateAllelesWithChromosome`.
- The persistence-only setters (`setId`, `setAlleles`, `setPrimaryParentId`, `setSecondaryParentId`) and the plain getters are left out.
- Chromosomes.Chromosome.FindMatchingGene: requires a gene set. After the persistence constructor `m_alleles` is null, and the source throws.
- Chromosomes.Chromosome.SetFitnessValue, SetObjectiveFitnessValue, SetPerformanceValue and SetSpecie: a thrown exception is modelled as a returned failure, with the state unchanged.
- Chromosomes.Chromosome.DominatesChromosome: requires the other chromosome to have at least as many objectives. Otherwise the source reads past the end of its array.
- Chromosomes.DominatesTransitive: stated for equal objective counts only. With |a| < |b| = |c| it fails, as DominatesNotTransitive shows.
- Chromosomes.DominatesAsymmetric: stated for equal objective counts only. With unequal counts only one direction of the relation is defined.

## Behaviour of the source worth knowing

The model keeps each of these as the code has it.

- **Seed cells.** The search seeds are floor(x * g) (S:290, 301), not the grid point nearest the state. The grid points are spaced 1/(g-1) apart. So a coordinate of exactly 1 is out of range and raises the counter's error, and coordinates near 1 are seeded at the last grid point.
- **Restarts.** A restart of the placement loop does not empty the obstacle array (S:163-165). Obstacles of the abandoned pass stay in their slots until overwritten, and the path estimates see them.
- **Seed occlusion.** The seed cells are never tested for occlusion, so the search may start or end inside an obstacle. A single step onto an occluded goal is found only from the goal side, as length 2.
- **Output layout.** The output is written with `System.arraycopy` of the state into its front, then the reward into its last slot. When the output is no longer than the state, the reward overwrites the last state coordinate.
