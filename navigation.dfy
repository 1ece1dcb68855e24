/** The simple navigation environment: an agent moves through the unit hypercube by motion
    vectors of bounded length towards a goal state, boxes it cannot enter are placed at
    random, and a grid search estimates how long the shortest route is. */
module Navigation {
  import opened Wrappers
  import opened Numeric
  import opened Grid
  import opened SearchSpec
  import opened Walks
  import opened GridGraph
  import PathSearch
  import opened Obstacles
  import opened Difficulty

  // ---------------------------------------------------------------------------
  // Vectors

  /** The L1 (taxicab) distance between two vectors of equal length. */
  function L1(a: seq<real>, b: seq<real>): (r: real)
    requires |a| == |b|
    ensures r >= 0.0
  {
    if |a| == 0 then 0.0 else Abs(a[0] - b[0]) + L1(a[1..], b[1..])
  }

  /** The L1 distance is zero exactly between equal vectors. */
  lemma {:induction false} L1Zero(a: seq<real>, b: seq<real>)
    requires |a| == |b|
    ensures L1(a, b) == 0.0 <==> a == b
  {
    if |a| > 0 {
      L1Zero(a[1..], b[1..]);
      assert a == [a[0]] + a[1..] && b == [b[0]] + b[1..];
    }
  }

  /** Every coordinate lies in [0, 1]. */
  predicate InUnitBox(p: seq<real>) {
    forall i :: 0 <= i < |p| ==> 0.0 <= p[i] <= 1.0
  }

  /** Every coordinate lies in [0, 1): the region the search grid covers. */
  predicate InGridBox(p: seq<real>) {
    forall i :: 0 <= i < |p| ==> 0.0 <= p[i] < 1.0
  }

  /** Inside the unit box, the L1 distance is at most the dimension. */
  lemma {:induction false} L1Bound(a: seq<real>, b: seq<real>)
    requires |a| == |b| && InUnitBox(a) && InUnitBox(b)
    ensures L1(a, b) <= |a| as real
  {
    if |a| > 0 {
      assert InUnitBox(a[1..]) && InUnitBox(b[1..]) by {
        forall i | 0 <= i < |a| - 1 ensures a[1..][i] == a[i + 1] && b[1..][i] == b[i + 1] { }
      }
      L1Bound(a[1..], b[1..]);
    }
  }

  /** The sum of squares of the coordinates (the squared Euclidean norm). */
  function SumSquares(v: seq<real>): (r: real)
    ensures r >= 0.0
  {
    if |v| == 0 then 0.0 else v[0] * v[0] + SumSquares(v[1..])
  }

  /** No coordinate of a vector of norm at most 1 exceeds 1 in absolute value. */
  lemma {:induction false} UnitNormCoordinates(v: seq<real>, i: nat)
    requires SumSquares(v) <= 1.0 && i < |v|
    ensures -1.0 <= v[i] <= 1.0
  {
    if i > 0 {
      UnitNormCoordinates(v[1..], i - 1);
    } else {
      SquareLe(v[0]);
    }
  }

  lemma SquareLe(x: real)
    ensures x * x <= 1.0 ==> -1.0 <= x <= 1.0
  {
    if x > 1.0 {
      MulGt(x, x);
    } else if x < -1.0 {
      MulGt(-x, -x);
    }
  }

  lemma MulGt(x: real, y: real)
    requires x > 1.0 && y > 1.0
    ensures x * y > 1.0
  {
    assert x * y - 1.0 == (x - 1.0) * y + (y - 1.0);
    assert (x - 1.0) * y > 0.0;
  }

  // ---------------------------------------------------------------------------
  // The step transition

  /** Each coordinate of `v` divided by `c`. */
  function DividedBy(v: seq<real>, c: real): (w: seq<real>)
    requires c != 0.0
    ensures |w| == |v| && forall i :: 0 <= i < |v| ==> w[i] == v[i] / c
  {
    seq(|v|, i requires 0 <= i < |v| => v[i] / c)
  }

  /** Dividing every coordinate by `c` divides the sum of squares by c * c. */
  lemma SumSquaresDivided(v: seq<real>, c: real)
    requires c > 0.0
    ensures SumSquares(DividedBy(v, c)) * (c * c) == SumSquares(v)
  {
    var w := DividedBy(v, c);
    forall i | 0 <= i < |v|
      ensures w[i] * c == v[i]
    {
      DivTimes(v[i], c);
    }
    SumSquaresScaled(w, v, c);
  }

  lemma DivTimes(a: real, c: real)
    requires c > 0.0
    ensures (a / c) * c == a
  {
  }

  /** If every coordinate of `w` times `c` is the one of `v`, the sum of squares of `w`
      times c * c is the one of `v`. */
  lemma {:induction false} SumSquaresScaled(w: seq<real>, v: seq<real>, c: real)
    requires |w| == |v| && forall i :: 0 <= i < |v| ==> w[i] * c == v[i]
    ensures SumSquares(w) * (c * c) == SumSquares(v)
  {
    if |v| > 0 {
      assert forall i :: 0 <= i < |v| - 1 ==> w[1..][i] * c == v[1..][i] by {
        forall i | 0 <= i < |v| - 1
          ensures w[1..][i] * c == v[1..][i]
        {
          assert w[1..][i] == w[i + 1] && v[1..][i] == v[i + 1];
        }
      }
      SumSquaresScaled(w[1..], v[1..], c);
      SquareTimes(w[0], c, v[0]);
      CombineStep(SumSquares(w), w[0] * w[0], SumSquares(w[1..]), c * c, SumSquares(v), v[0] * v[0], SumSquares(v[1..]));
    }
  }

  lemma CombineStep(s: real, a: real, b: real, k: real, r: real, x: real, y: real)
    requires s == a + b && r == x + y && a * k == x && b * k == y
    ensures s * k == r
  {
    assert (a + b) * k == a * k + b * k;
  }

  lemma SquareTimes(q: real, c: real, a: real)
    requires q * c == a
    ensures (q * q) * (c * c) == a * a
  {
    assert (q * q) * (c * c) == (q * c) * (q * c);
  }

  /** The motion vector as the step uses it: divided by its Euclidean norm when that exceeds
      1, so that its norm is at most 1. The norm is supplied by the caller, since square
      roots are not modelled. */
  function Unitized(v: seq<real>, norm: real): (u: seq<real>)
    requires norm >= 0.0 && norm * norm == SumSquares(v)
    ensures |u| == |v| && SumSquares(u) <= 1.0
    ensures norm <= 1.0 ==> u == v
    ensures norm > 1.0 ==> forall i :: 0 <= i < |v| ==> u[i] == v[i] / norm
  {
    UnitizedNorm(v, norm);
    if norm > 1.0 then DividedBy(v, norm) else v
  }

  lemma UnitizedNorm(v: seq<real>, norm: real)
    requires norm >= 0.0 && norm * norm == SumSquares(v)
    ensures norm > 1.0 ==> SumSquares(DividedBy(v, norm)) <= 1.0
    ensures norm <= 1.0 ==> SumSquares(v) <= 1.0
  {
    if norm > 1.0 {
      SumSquaresDivided(v, norm);
      RealMulSign(norm, norm);
      UnitFactor(SumSquares(DividedBy(v, norm)), norm * norm);
    } else {
      MulLe(norm);
    }
  }

  lemma UnitFactor(x: real, k: real)
    requires k > 0.0 && x * k == k
    ensures x == 1.0
  {
    assert (x - 1.0) * k == 0.0;
  }

  lemma MulLe(x: real)
    requires 0.0 <= x <= 1.0
    ensures x * x <= 1.0
  {
    if x > 0.0 {
      RealMulSign(1.0 - x, x);
      assert (1.0 - x) * x == x - x * x;
    }
  }


  /** One coordinate of a step: `x` moved by u * m and clamped into [0, 1]. */
  function Moved(x: real, u: real, m: real): (r: real)
    ensures 0.0 <= r <= 1.0
  {
    Clamp(x + u * m)
  }

  /** The candidate state of a step: each coordinate moved by input[i] * maxStepSize and
      clamped into [0, 1]. */
  function Candidate(state: seq<real>, input: seq<real>, maxStepSize: real): (c: seq<real>)
    requires |input| >= |state|
    ensures |c| == |state| && InUnitBox(c)
    ensures forall i :: 0 <= i < |state| ==> c[i] == Moved(state[i], input[i], maxStepSize)
  {
    seq(|state|, i requires 0 <= i < |state| => Moved(state[i], input[i], maxStepSize))
  }

  /** From inside the unit box, a step moves each coordinate by at most maxStepSize,
      whatever the motion vector. */
  lemma StepIsShort(state: seq<real>, input: seq<real>, norm: real, maxStepSize: real, i: nat)
    requires |input| >= |state| && InUnitBox(state) && norm >= 0.0 && norm * norm == SumSquares(input)
    requires maxStepSize > 0.0 && i < |state|
    ensures Abs(Candidate(state, Unitized(input, norm), maxStepSize)[i] - state[i]) <= maxStepSize
  {
    var u := Unitized(input, norm);
    UnitNormCoordinates(u, i);
    ClampedStep(state[i], u[i], maxStepSize);
  }

  /** Moving a value of [0, 1] by at most `m` and clamping moves it by at most `m`. */
  lemma ClampedStep(x: real, u: real, m: real)
    requires 0.0 <= x <= 1.0 && -1.0 <= u <= 1.0 && m > 0.0
    ensures Abs(Moved(x, u, m) - x) <= m
  {
    var k := u * m;
    RealMulSign(1.0 - u, m);
    RealMulSign(1.0 + u, m);
    assert (1.0 - u) * m == m - k && (1.0 + u) * m == m + k;
  }

  // ---------------------------------------------------------------------------
  // Occlusion

  /** The obstacles in the slots below `count` are boxes of the environment's dimension (or
      empty slots). */
  predicate WellSized(size: nat, obstacle: seq<Option<Obstacle>>) {
    forall o :: 0 <= o < |obstacle| && obstacle[o].Some? ==>
      |obstacle[o].value.corner1| == size && |obstacle[o].value.corner2| == size
  }

  /** Some non-empty slot below `count` holds an obstacle containing `p`. */
  predicate Occludes(size: nat, obstacle: seq<Option<Obstacle>>, count: int, p: seq<real>)
    requires WellSized(size, obstacle) && |p| == size
  {
    exists o :: 0 <= o < count && o < |obstacle| && obstacle[o].Some? && Collision(size, obstacle[o].value, p)
  }

  /** The position of grid point `i`: its coordinates times the step size. */
  function CellPoint(sh: Shape, stepSize: real, i: nat): (p: seq<real>)
    requires ValidShape(sh)
    ensures |p| == sh.n
  {
    var ind := Digits(i, sh.n, sh.g);
    seq(sh.n, d requires 0 <= d < sh.n => Coordinate(ind[d], stepSize))
  }

  /** The position along one axis of grid coordinate `c`. */
  function Coordinate(c: int, stepSize: real): real {
    c as real * stepSize
  }

  /** Which grid points some obstacle occludes. */
  ghost function OcclusionMap(sh: Shape, stepSize: real, obstacle: seq<Option<Obstacle>>, count: int): (m: seq<bool>)
    requires ValidShape(sh) && WellSized(sh.n, obstacle)
    ensures |m| == CellCount(sh)
    ensures forall i :: 0 <= i < CellCount(sh) ==> (m[i] <==> Occludes(sh.n, obstacle, count, CellPoint(sh, stepSize, i)))
  {
    seq(CellCount(sh), i requires 0 <= i < CellCount(sh) => Occludes(sh.n, obstacle, count, CellPoint(sh, stepSize, i)))
  }

  /** Whether some obstacle below `count` contains `p`: the obstacle loop, which skips empty
      slots and stops at the first obstacle that contains the point. */
  method AnyCollision(size: nat, obstacle: array<Option<Obstacle>>, count: int, p: seq<real>) returns (hit: bool)
    requires WellSized(size, obstacle[..]) && |p| == size && count <= obstacle.Length
    ensures hit <==> Occludes(size, obstacle[..], count, p)
  {
    hit := false;
    var o := 0;
    while o < count
      invariant 0 <= o <= count || (count < 0 && o == 0)
      invariant forall j :: 0 <= j < o ==> !(obstacle[j].Some? && Collision(size, obstacle[j].value, p))
    {
      if obstacle[o].Some? && Collision(size, obstacle[o].value, p) {
        assert obstacle[..][o] == obstacle[o];
        return true;
      }
      o := o + 1;
    }
    assert forall j :: 0 <= j < |obstacle[..]| ==> obstacle[..][j] == obstacle[j];
  }

  /** The occlusion bit set: for each grid point in counter order, its position is computed
      into a reused point buffer and its bit is set when an obstacle contains it. */
  method MarkOccluded(sh: Shape, stepSize: real, obstacle: array<Option<Obstacle>>, count: int)
      returns (occ: array<bool>)
    requires ValidShape(sh) && WellSized(sh.n, obstacle[..]) && count <= obstacle.Length
    ensures fresh(occ) && occ[..] == OcclusionMap(sh, stepSize, obstacle[..], count)
  {
    ghost var m := OcclusionMap(sh, stepSize, obstacle[..], count);
    var pointCount := Pow(sh.g, sh.n);
    occ := new bool[pointCount](_ => false);
    var point := new real[sh.n];
    for i := 0 to pointCount
      invariant forall j :: 0 <= j < pointCount ==> occ[j] == (j < i && m[j])
    {
      PointOf(sh, stepSize, i, point);
      var hit := AnyCollision(sh.n, obstacle, count, point[..]);
      if hit {
        occ[i] := true;
      }
    }
    assert forall j :: 0 <= j < pointCount ==> occ[..][j] == m[j];
  }

  /** Writes the position of grid point `i` into `point`: the counter's coordinates times the
      step size. */
  method PointOf(sh: Shape, stepSize: real, i: nat, point: array<real>)
    requires ValidShape(sh) && point.Length == sh.n
    modifies point
    ensures point[..] == CellPoint(sh, stepSize, i)
  {
    var counts := Digits(i, sh.n, sh.g);
    for d := 0 to sh.n
      invariant forall e :: 0 <= e < d ==> point[e] == Coordinate(counts[e], stepSize)
    {
      point[d] := counts[d] as real * stepSize;
    }
  }

  // ---------------------------------------------------------------------------
  // The path estimate

  /** The result of the path estimate: a length (-1 when the search found no route), or
      the out-of-range error the multidimensional counter raises for a seed coordinate of
      `g`, which a state coordinate of exactly 1 produces. */
  datatype Estimate = Estimate(value: real) | OutOfGrid

  /** The seed coordinates of a state: floor(x[d] * g) per dimension. */
  function Seeds(x: seq<real>, g: nat): (ind: seq<int>)
    ensures |ind| == |x| && forall d :: 0 <= d < |x| ==> ind[d] == SeedIndex(x[d], g)
  {
    seq(|x|, d requires 0 <= d < |x| => SeedIndex(x[d], g))
  }

  /** The points per axis and the grid spacing for a maximum step size. */
  function StepSize(g: int): real
    requires g >= 2
  {
    1.0 / (g - 1) as real
  }

  /** What the path estimate returns: the baseline `distance` when there are no obstacles;
      otherwise the reference outcome of the grid search between the seed cells of start
      and goal, scaled by the grid spacing unless it is -1. */
  ghost function PathEstimate(size: nat, maxStepSize: real, count: int, obstacle: seq<Option<Obstacle>>,
                              start: seq<real>, goal: seq<real>, distance: real): Estimate
    requires maxStepSize > 0.0 && WellSized(size, obstacle) && |start| == size && |goal| == size
  {
    if count == 0 then Estimate(distance)
    else GridEstimate(size, maxStepSize, count, obstacle, start, goal)
  }

  /** The grid part of the path estimate, used when there are obstacles. */
  ghost function GridEstimate(size: nat, maxStepSize: real, count: int, obstacle: seq<Option<Obstacle>>,
                              start: seq<real>, goal: seq<real>): Estimate
    requires maxStepSize > 0.0 && WellSized(size, obstacle) && |start| == size && |goal| == size
  {
    var g := Granularity(maxStepSize);
    var sh := Shape(size, g);
    var sIdx, tIdx := Seeds(start, g), Seeds(goal, g);
    if !(InRange(sIdx, g) && InRange(tIdx, g)) then OutOfGrid
    else
      FlattenBounds(sIdx, g);
      FlattenBounds(tIdx, g);
      Estimate(Scaled(GridOutcome(sh, OcclusionMap(sh, StepSize(g), obstacle, count), Flatten(sIdx, g), Flatten(tIdx, g)), StepSize(g)))
  }

  /** A search length in grid steps as a distance; -1 (no route) stays -1. */
  function Scaled(m: int, step: real): real {
    if m == -1 then -1.0 else m as real * step
  }

  /** `v` is -1 exactly when no admissible walk joins `s` and `t`, and otherwise the least
      cost of such a walk in units of `step`. */
  ghost predicate ShortestScaled(nbr: seq<set<int>>, occ: seq<bool>, s: int, t: int, step: real, v: real) {
    (v == -1.0 <==> forall w :: !Admissible(nbr, occ, s, t, w)) &&
    (v != -1.0 ==>
      (exists w :: Admissible(nbr, occ, s, t, w) && Cost(occ, t, w) as real * step == v) &&
      forall w :: Admissible(nbr, occ, s, t, w) ==> Cost(occ, t, w) as real * step >= v)
  }

  /** The seed cells of start and goal, given the state coordinates are in [0, 1). */
  function SeedCell(size: nat, g: nat, x: seq<real>): (c: int)
    requires g >= 1 && |x| == size && InGridBox(x)
    ensures IsCell(Shape(size, g), c)
  {
    SeedsInRange(x, g);
    FlattenBounds(Seeds(x, g), g);
    Flatten(Seeds(x, g), g)
  }

  lemma SeedsInRange(x: seq<real>, g: nat)
    requires g >= 1
    ensures InRange(Seeds(x, g), g) <==> InGridBox(x)
  {
    forall d | 0 <= d < |x| ensures (0 <= Seeds(x, g)[d] < g <==> 0.0 <= x[d] < 1.0) {
      SeedIndexInRange(x[d], g);
    }
  }

  /** With obstacles, the estimate fails exactly when a coordinate of the start or the goal
      is outside [0, 1): the seed index floor(x * g) is a grid coordinate only for x < 1. */
  lemma EstimateOutOfGrid(size: nat, maxStepSize: real, count: int, obstacle: seq<Option<Obstacle>>,
                          start: seq<real>, goal: seq<real>, distance: real)
    requires maxStepSize > 0.0 && WellSized(size, obstacle) && |start| == size && |goal| == size
    ensures PathEstimate(size, maxStepSize, count, obstacle, start, goal, distance).OutOfGrid? <==>
      count != 0 && !(InGridBox(start) && InGridBox(goal))
  {
    var g := Granularity(maxStepSize);
    SeedsInRange(start, g);
    SeedsInRange(goal, g);
  }

  /** With obstacles and distinct seed cells, the estimate is -1 exactly when no admissible
      walk on the grid joins the seeds, and otherwise the least cost of such a walk times the
      grid spacing. Admissible walks enter only unoccluded points (the seeds themselves are
      never tested), and a walk of one step into an occluded goal costs 2. */
  lemma EstimateIsShortestPath(size: nat, maxStepSize: real, count: int, obstacle: seq<Option<Obstacle>>,
                               start: seq<real>, goal: seq<real>, distance: real)
    requires maxStepSize > 0.0 && WellSized(size, obstacle) && |start| == size && |goal| == size
    requires count != 0 && InGridBox(start) && InGridBox(goal)
    requires SeedCell(size, Granularity(maxStepSize), start) != SeedCell(size, Granularity(maxStepSize), goal)
    ensures var g := Granularity(maxStepSize);
      var e := PathEstimate(size, maxStepSize, count, obstacle, start, goal, distance);
      e.Estimate? &&
      ShortestScaled(RawGraph(Shape(size, g)), OcclusionMap(Shape(size, g), StepSize(g), obstacle, count),
        SeedCell(size, g, start), SeedCell(size, g, goal), StepSize(g), e.value)
  {
    var g := Granularity(maxStepSize);
    var sh := Shape(size, g);
    var occ := OcclusionMap(sh, StepSize(g), obstacle, count);
    var s, t := SeedCell(size, g, start), SeedCell(size, g, goal);
    SeedsInRange(start, g);
    SeedsInRange(goal, g);
    GridOutcomeIsShortestWalk(sh, occ, s, t);
    var m := GridOutcome(sh, occ, s, t);
    assert PathEstimate(size, maxStepSize, count, obstacle, start, goal, distance) == Estimate(Scaled(m, StepSize(g)));
    ScaledOutcome(RawGraph(sh), occ, s, t, m, StepSize(g));
  }

  /** A walk between distinct cells costs at least 1. */
  lemma AdmissibleCost(nbr: seq<set<int>>, occ: seq<bool>, s: int, t: int, w: seq<int>)
    requires Admissible(nbr, occ, s, t, w) && s != t
    ensures Cost(occ, t, w) >= 1
  {
  }

  /** Scaling the least walk cost by a positive spacing keeps it the least scaled cost. */
  lemma ScaledOutcome(nbr: seq<set<int>>, occ: seq<bool>, s: int, t: int, m: int, step: real)
    requires step > 0.0 && s != t
    requires m == -1 <==> forall w :: !Admissible(nbr, occ, s, t, w)
    requires m != -1 ==>
      (exists w :: Admissible(nbr, occ, s, t, w) && Cost(occ, t, w) == m) &&
      forall w :: Admissible(nbr, occ, s, t, w) ==> Cost(occ, t, w) >= m
    ensures ShortestScaled(nbr, occ, s, t, step, Scaled(m, step))
  {
    if m != -1 {
      var w0 :| Admissible(nbr, occ, s, t, w0) && Cost(occ, t, w0) == m;
      ScaledSome(nbr, occ, s, t, m, step, w0);
    }
  }

  lemma ScaledSome(nbr: seq<set<int>>, occ: seq<bool>, s: int, t: int, m: int, step: real, w0: seq<int>)
    requires step > 0.0 && s != t && Admissible(nbr, occ, s, t, w0) && Cost(occ, t, w0) == m
    requires forall w :: Admissible(nbr, occ, s, t, w) ==> Cost(occ, t, w) >= m
    ensures ShortestScaled(nbr, occ, s, t, step, Scaled(m, step))
  {
    AdmissibleCost(nbr, occ, s, t, w0);
    ScaledPositive(m, step);
    ScaledLowerBound(nbr, occ, s, t, m, step);
    ShortestScaledIntro(nbr, occ, s, t, step, Scaled(m, step), w0);
  }

  lemma ScaledPositive(m: int, step: real)
    requires m >= 1 && step > 0.0
    ensures Scaled(m, step) == m as real * step && Scaled(m, step) != -1.0
  {
    ScaleMonotone(1, m, step);
  }

  lemma ShortestScaledIntro(nbr: seq<set<int>>, occ: seq<bool>, s: int, t: int, step: real, v: real, w0: seq<int>)
    requires v != -1.0 && Admissible(nbr, occ, s, t, w0) && Cost(occ, t, w0) as real * step == v
    requires forall w :: Admissible(nbr, occ, s, t, w) ==> Cost(occ, t, w) as real * step >= v
    ensures ShortestScaled(nbr, occ, s, t, step, v)
  {
  }

  lemma ScaledLowerBound(nbr: seq<set<int>>, occ: seq<bool>, s: int, t: int, m: int, step: real)
    requires step > 0.0
    requires forall w :: Admissible(nbr, occ, s, t, w) ==> Cost(occ, t, w) >= m
    ensures forall w :: Admissible(nbr, occ, s, t, w) ==> Cost(occ, t, w) as real * step >= m as real * step
  {
    forall w | Admissible(nbr, occ, s, t, w)
      ensures Cost(occ, t, w) as real * step >= m as real * step
    {
      ScaleMonotone(m, Cost(occ, t, w), step);
    }
  }

  lemma ScaleMonotone(a: int, b: int, step: real)
    requires a <= b && step > 0.0
    ensures a as real * step <= b as real * step
    ensures a >= 1 ==> a as real * step > 0.0
  {
    RealMulSign((b - a) as real, step);
    RealMulSign(a as real, step);
    assert (b - a) as real * step == b as real * step - a as real * step;
  }

  /** When start and goal fall into the same grid cell, the estimate is two grid spacings if
      the search can enter some neighbour of that cell, and -1 otherwise. */
  lemma EstimateSameCell(size: nat, maxStepSize: real, count: int, obstacle: seq<Option<Obstacle>>,
                         start: seq<real>, goal: seq<real>, distance: real)
    requires maxStepSize > 0.0 && WellSized(size, obstacle) && |start| == size && |goal| == size
    requires count != 0 && InGridBox(start) && InGridBox(goal)
    requires SeedCell(size, Granularity(maxStepSize), start) == SeedCell(size, Granularity(maxStepSize), goal)
    ensures var g := Granularity(maxStepSize);
      var occ := OcclusionMap(Shape(size, g), StepSize(g), obstacle, count);
      var s := SeedCell(size, g, start);
      PathEstimate(size, maxStepSize, count, obstacle, start, goal, distance) ==
        if Graph(Shape(size, g), occ)[s] != {} then Estimate(2.0 * StepSize(g)) else Estimate(-1.0)
  {
    var g := Granularity(maxStepSize);
    var occ := OcclusionMap(Shape(size, g), StepSize(g), obstacle, count);
    SeedsInRange(start, g);
    SeedsInRange(goal, g);
    GridOutcomeEqualSeeds(Shape(size, g), occ, SeedCell(size, g, start));
  }

  /** The estimate's failure does not depend on the obstacles. */
  lemma EstimateOutOfGridAny(size: nat, maxStepSize: real, count: int, ob1: seq<Option<Obstacle>>,
                             ob2: seq<Option<Obstacle>>, start: seq<real>, goal: seq<real>, distance: real)
    requires maxStepSize > 0.0 && WellSized(size, ob1) && WellSized(size, ob2) && |start| == size && |goal| == size
    ensures PathEstimate(size, maxStepSize, count, ob1, start, goal, distance).OutOfGrid? ==
      PathEstimate(size, maxStepSize, count, ob2, start, goal, distance).OutOfGrid?
  {
    EstimateOutOfGrid(size, maxStepSize, count, ob1, start, goal, distance);
    EstimateOutOfGrid(size, maxStepSize, count, ob2, start, goal, distance);
  }

  /** The seed loop: floor(x[d] * g) for each dimension. */
  method SeedIndices(x: seq<real>, g: nat) returns (ind: seq<int>)
    ensures ind == Seeds(x, g)
  {
    ind := [];
    for d := 0 to |x|
      invariant |ind| == d && forall e :: 0 <= e < d ==> ind[e] == SeedIndex(x[e], g)
    {
      ind := ind + [(x[d] * g as real).Floor];
    }
  }

  // ---------------------------------------------------------------------------
  // Obstacle placement

  /** The step budget of an environment: the path estimate with 10% slack in steps of
      maxStepSize, rounded, plus one; with a single trial, two extra steps per dimension
      to try out directions. */
  function RequiredSteps(path: real, maxStepSize: real, trialCount: int, size: nat): (r: int)
    requires maxStepSize > 0.0
    ensures var extra := if trialCount == 1 then 2 * size else 0;
      (path * 1.1) / maxStepSize + 0.5 < (r - extra) as real <= (path * 1.1) / maxStepSize + 1.5
  {
    var steps := Round((path * 1.1) / maxStepSize) + 1;
    if trialCount == 1 then steps + 2 * size else steps
  }

  /** How a call of SetUp ends: every slot filled; the path estimate raised the counter's
      out-of-range error; or the supplied random draws ran out before the loop finished. */
  datatype SetUpOutcome = Placed | SetUpOutOfGrid | OutOfDraws

  /** How one slot's placement attempts end: an obstacle is accepted with the new path
      estimate; 1000 placements in a row failed and the placement restarts from slot 0;
      or the draws ran out. */
  datatype Placement = Accepted(path: real) | Restart | Exhausted

  /** The obstacle size after `n` rejections from size `s`: each rejection shrinks it by 5%,
      so the result is s * 0.95^n. */
  function Shrunk(s: real, n: nat): (r: real)
    ensures s > 0.0 ==> 0.0 < r <= s
    ensures n > 0 && s > 0.0 ==> r < s
  {
    if n == 0 then s else Shrunk(s, n - 1) * 0.95
  }

  /** Shrinking `m` times and then `n` times is shrinking m + n times. */
  lemma {:induction false} ShrunkAdd(s: real, m: nat, n: nat)
    ensures Shrunk(Shrunk(s, m), n) == Shrunk(s, m + n)
    decreases n
  {
    if n > 0 {
      ShrunkAdd(s, m, n - 1);
    }
  }

  /** The sum of the first `n` counts of `s`. */
  function SumTo(s: seq<nat>, n: nat): nat
    requires n <= |s|
  {
    if n == 0 then 0 else SumTo(s, n - 1) + s[n - 1]
  }

  /** Appending a count leaves the sums of the earlier prefixes unchanged. */
  lemma {:induction false} SumToAppend(s: seq<nat>, f: nat, n: nat)
    requires n <= |s|
    ensures SumTo(s + [f], n) == SumTo(s, n)
  {
    if n > 0 {
      SumToAppend(s, f, n - 1);
    }
  }

  /** The draw from which slot j of a pass makes its attempts: the first draw of the pass
      for slot 0, otherwise the draw after the one slot j - 1 was built from. */
  function SlotStart(first: nat, used: seq<nat>, j: nat): nat
    requires j <= |used|
  {
    if j == 0 then first else used[j - 1] + 1
  }

  /** The first |fails| slots of `obs` after one placement pass that began at draw `first`:
      slot j made fails[j] < 1000 rejected attempts from SlotStart(first, used, j) on and
      then accepted the obstacle built from the next draw, used[j], with size 1 shrunk once
      for every rejection of the pass up to and including that slot. No draw is skipped. */
  predicate PassState(size: nat, maxStepSize: real, obs: seq<Option<Obstacle>>, draws: seq<ObstacleDraw>,
                      first: nat, fails: seq<nat>, used: seq<nat>)
  {
    |fails| == |used| <= |obs| &&
    forall j {:trigger fails[j]} :: 0 <= j < |used| ==>
      fails[j] < 1000 && used[j] == SlotStart(first, used, j) + fails[j] &&
      used[j] < |draws| && ValidDraw(size, draws[used[j]]) &&
      obs[j] == Some(ObstacleOf(size, maxStepSize, Shrunk(1.0, SumTo(fails, j + 1)), draws[used[j]]))
  }

  /** Accepting the next slot, built from draw `u` after f < 1000 rejections in that slot
      since the draw after the previous slot's, extends the pass. */
  lemma {:induction false} PassStateAppend(size: nat, maxStepSize: real, obs: seq<Option<Obstacle>>, obs': seq<Option<Obstacle>>,
                        draws: seq<ObstacleDraw>, first: nat, fails: seq<nat>, used: seq<nat>, f: nat, u: nat)
    requires PassState(size, maxStepSize, obs, draws, first, fails, used) && |obs'| == |obs| > |fails|
    requires forall j :: 0 <= j < |fails| ==> obs'[j] == obs[j]
    requires u < |draws| && ValidDraw(size, draws[u]) && u == SlotStart(first, used, |used|) + f && f < 1000
    requires obs'[|fails|] == Some(ObstacleOf(size, maxStepSize, Shrunk(1.0, SumTo(fails, |fails|) + f), draws[u]))
    ensures SumTo(fails + [f], |fails| + 1) == SumTo(fails, |fails|) + f
    ensures PassState(size, maxStepSize, obs', draws, first, fails + [f], used + [u])
  {
    var e, w := fails + [f], used + [u];
    SumToAppend(fails, f, |fails|);
    forall j | 0 <= j < |w|
      ensures e[j] < 1000 && w[j] == SlotStart(first, w, j) + e[j] && w[j] < |draws| && ValidDraw(size, draws[w[j]]) &&
        obs'[j] == Some(ObstacleOf(size, maxStepSize, Shrunk(1.0, SumTo(e, j + 1)), draws[w[j]]))
    {
      assert SlotStart(first, w, j) == SlotStart(first, used, j);
      if j < |used| {
        SumToAppend(fails, f, j + 1);
      }
    }
  }

  /** The pass so far fills the `o` slots before slot `o`; slot `o` makes its attempts
      from draw `k` on, and `obstSize` is the size the pass left. */
  predicate PassContinues(size: nat, maxStepSize: real, obs: seq<Option<Obstacle>>, draws: seq<ObstacleDraw>,
                          first: nat, fails: seq<nat>, used: seq<nat>, o: nat, k: nat, obstSize: real)
  {
    |fails| == o && PassState(size, maxStepSize, obs, draws, first, fails, used) &&
    k == SlotStart(first, used, o) && obstSize == Shrunk(1.0, SumTo(fails, o))
  }

  /** Accepting slot `o` with the obstacle built from draws[next - 1] after f < 1000
      rejections since draw `k` = next - 1 - f, all other slots unchanged, continues the
      pass from draw `next` with the size shrunk f times. */
  lemma AcceptExtendsPass(size: nat, maxStepSize: real, obs: seq<Option<Obstacle>>, obs': seq<Option<Obstacle>>,
                          draws: seq<ObstacleDraw>, first: nat, fails: seq<nat>, used: seq<nat>, o: nat, k: nat, obstSize: real,
                          f: nat, next: nat)
    requires PassContinues(size, maxStepSize, obs, draws, first, fails, used, o, k, obstSize)
    requires |obs'| == |obs| > o && forall j :: 0 <= j < |obs| && j != o ==> obs'[j] == obs[j]
    requires next == k + f + 1 <= |draws| && f < 1000 && forall j :: 0 <= j < |draws| ==> ValidDraw(size, draws[j])
    requires obs'[o] == Some(ObstacleOf(size, maxStepSize, Shrunk(obstSize, f), draws[next - 1]))
    ensures PassContinues(size, maxStepSize, obs', draws, first, fails + [f], used + [next - 1], o + 1, next, Shrunk(obstSize, f))
  {
    ShrunkAdd(1.0, SumTo(fails, o), f);
    PassStateAppend(size, maxStepSize, obs, obs', draws, first, fails, used, f, next - 1);
  }

  /** The slots as slot j of a pass found them: those before j as the pass filled them,
      from `obs`, and the others as they were when the pass began, from `base`. */
  function Spliced(size: nat, obs: seq<Option<Obstacle>>, base: seq<Option<Obstacle>>, j: nat): (r: seq<Option<Obstacle>>)
    requires j <= |obs| == |base|
    ensures |r| == |obs|
    ensures WellSized(size, obs) && WellSized(size, base) ==> WellSized(size, r)
  {
    obs[..j] + base[j..]
  }

  /** Every attempt of the pass that was not accepted was rejected: for slot j, attempt t
      from SlotStart(first, used, j) on, with the size the pass had reached before slot j
      shrunk t times, fails the acceptance test against the slots as slot j found them
      (`base` holds the slots as the pass found them). */
  ghost predicate PassRejections(size: nat, maxStepSize: real, count: int, obs: seq<Option<Obstacle>>, base: seq<Option<Obstacle>>,
                                 start: seq<real>, goal: seq<real>, distance: real, minPath: real,
                                 draws: seq<ObstacleDraw>, first: nat, fails: seq<nat>, used: seq<nat>)
  {
    maxStepSize > 0.0 && |start| == size && |goal| == size && |obs| == |base| &&
    WellSized(size, obs) && WellSized(size, base) && (forall d :: 0 <= d < |draws| ==> ValidDraw(size, draws[d])) &&
    PassState(size, maxStepSize, obs, draws, first, fails, used) &&
    forall j, t :: 0 <= j < |used| && 0 <= t < fails[j] ==>
      Rejected(size, maxStepSize, count, Spliced(size, obs, base, j), j, start, goal, distance, minPath,
               draws, SlotStart(first, used, j), Shrunk(1.0, SumTo(fails, j)), t)
  }

  /** Accepting slot |fails| after f rejections, each against the slots as they stood, with
      the later slots still as the pass found them, extends the rejections of the pass. */
  lemma {:induction false} RejectionsExtend(size: nat, maxStepSize: real, count: int, obs: seq<Option<Obstacle>>, obs': seq<Option<Obstacle>>,
                          base: seq<Option<Obstacle>>, start: seq<real>, goal: seq<real>, distance: real, minPath: real,
                          draws: seq<ObstacleDraw>, first: nat, fails: seq<nat>, used: seq<nat>, f: nat, next: nat)
    requires PassRejections(size, maxStepSize, count, obs, base, start, goal, distance, minPath, draws, first, fails, used)
    requires |obs'| == |obs| > |fails| && WellSized(size, obs')
    requires forall j :: 0 <= j < |obs| && j != |fails| ==> obs'[j] == obs[j]
    requires forall j :: |fails| <= j < |obs| ==> obs[j] == base[j]
    requires next == SlotStart(first, used, |used|) + f + 1 <= |draws|
    requires PassState(size, maxStepSize, obs', draws, first, fails + [f], used + [next - 1])
    requires forall t :: 0 <= t < f ==>
      Rejected(size, maxStepSize, count, obs, |fails|, start, goal, distance, minPath,
               draws, SlotStart(first, used, |used|), Shrunk(1.0, SumTo(fails, |fails|)), t)
    ensures PassRejections(size, maxStepSize, count, obs', base, start, goal, distance, minPath, draws, first,
                           fails + [f], used + [next - 1])
  {
    var o := |fails|;
    var e, w := fails + [f], used + [next - 1];
    assert Spliced(size, obs', base, o) == obs by {
      forall i | 0 <= i < |obs|
        ensures Spliced(size, obs', base, o)[i] == obs[i]
      {
      }
    }
    forall j, t | 0 <= j < |w| && 0 <= t < e[j]
      ensures Rejected(size, maxStepSize, count, Spliced(size, obs', base, j), j, start, goal, distance, minPath,
                 draws, SlotStart(first, w, j), Shrunk(1.0, SumTo(e, j)), t)
    {
      SumToAppend(fails, f, j);
      assert SlotStart(first, w, j) == SlotStart(first, used, j);
      if j < o {
        assert obs'[..j] == obs[..j];
        assert Spliced(size, obs', base, j) == Spliced(size, obs, base, j);
        assert t < fails[j];
        assert Rejected(size, maxStepSize, count, Spliced(size, obs, base, j), j, start, goal, distance, minPath,
                 draws, SlotStart(first, used, j), Shrunk(1.0, SumTo(fails, j)), t);
      } else {
        assert t < f && j == o;
        assert Rejected(size, maxStepSize, count, obs, o, start, goal, distance, minPath,
               draws, SlotStart(first, used, o), Shrunk(1.0, SumTo(fails, o)), t);
      }
    }
    assert PassState(size, maxStepSize, obs', draws, first, e, w);
  }

  /** Every slot the pass filled, of the first `n`, passed the acceptance test when it was
      placed: slot j, against the slots before it as the pass filled them and those after
      it as the pass found them (`base`). */
  ghost predicate PassAcceptances(size: nat, maxStepSize: real, count: int, obs: seq<Option<Obstacle>>, base: seq<Option<Obstacle>>,
                                  start: seq<real>, goal: seq<real>, distance: real, minPath: real, n: nat)
  {
    maxStepSize > 0.0 && |start| == size && |goal| == size && n <= |obs| == |base| &&
    WellSized(size, obs) && WellSized(size, base) &&
    forall j :: 0 < j <= n ==>
      obs[j - 1].Some? && Acceptable(size, maxStepSize, count, Spliced(size, obs, base, j), j - 1, start, goal, distance, minPath)
  }

  /** Accepting slot `o`, with the later slots still as the pass found them, extends the
      acceptances of the pass; the earlier slots keep theirs. */
  lemma AcceptancesExtend(size: nat, maxStepSize: real, count: int, obs: seq<Option<Obstacle>>, obs': seq<Option<Obstacle>>,
                          base: seq<Option<Obstacle>>, start: seq<real>, goal: seq<real>, distance: real, minPath: real, o: nat)
    requires PassAcceptances(size, maxStepSize, count, obs, base, start, goal, distance, minPath, o)
    requires |obs'| == |obs| > o && WellSized(size, obs')
    requires forall j :: 0 <= j < |obs| && j != o ==> obs'[j] == obs[j]
    requires forall j :: o < j < |obs| ==> obs[j] == base[j]
    requires obs'[o].Some? && Acceptable(size, maxStepSize, count, obs', o, start, goal, distance, minPath)
    ensures PassAcceptances(size, maxStepSize, count, obs', base, start, goal, distance, minPath, o + 1)
  {
    forall j | 0 < j <= o + 1
      ensures obs'[j - 1].Some? && Acceptable(size, maxStepSize, count, Spliced(size, obs', base, j), j - 1, start, goal, distance, minPath)
    {
      if j <= o {
        assert obs'[..j] == obs[..j];
        assert Spliced(size, obs', base, j) == Spliced(size, obs, base, j);
      } else {
        assert Spliced(size, obs', base, j) == obs';
      }
    }
  }

  /** The slot whose 1000 rejected attempts ended a pass, the slots as those attempts found
      them, and the size they started from. */
  datatype GiveUp = GiveUp(slot: nat, base: seq<Option<Obstacle>>, size: real)

  /** The 1000 attempts from draw `from` for slot `o` of `base`, with sizes shrinking from
      `s`, were all rejected. */
  ghost predicate GaveUp(size: nat, maxStepSize: real, count: int, base: seq<Option<Obstacle>>, o: nat,
                         start: seq<real>, goal: seq<real>, distance: real, minPath: real,
                         draws: seq<ObstacleDraw>, from: nat, s: real)
  {
    maxStepSize > 0.0 && |start| == size && |goal| == size && WellSized(size, base) && o < |base| &&
    from + 1000 <= |draws| && (forall d :: 0 <= d < |draws| ==> ValidDraw(size, draws[d])) &&
    forall t :: 0 <= t < 1000 ==>
      Rejected(size, maxStepSize, count, base, o, start, goal, distance, minPath, draws, from, s, t)
  }

  /** A pass that begins at draw `first` > 0 begins right after a pass gave up: the 1000
      draws before `first` were all rejected for one slot, whose last attempt is left in
      that slot of `passBase`, the slots the new pass starts from. */
  ghost predicate Restarted(size: nat, maxStepSize: real, count: int, passBase: seq<Option<Obstacle>>, g: GiveUp,
                            start: seq<real>, goal: seq<real>, distance: real, minPath: real,
                            draws: seq<ObstacleDraw>, first: nat)
  {
    first >= 1000 &&
    GaveUp(size, maxStepSize, count, g.base, g.slot, start, goal, distance, minPath, draws, first - 1000, g.size) &&
    ValidDraw(size, draws[first - 1]) &&
    passBase == g.base[g.slot := Some(ObstacleOf(size, maxStepSize, Shrunk(g.size, 999), draws[first - 1]))]
  }

  /** The record of a placement pass: its first draw, the slots as it found them, the
      number of rejections before each filled slot and the draw each slot's obstacle was
      built from, and the give-up that ended the pass before it (unused for a pass that
      begins with the first draw). */
  datatype Pass = Pass(first: nat, base: seq<Option<Obstacle>>, g: GiveUp, fails: seq<nat>, used: seq<nat>)

  /** The pass `p` after one more slot, accepted after `f` rejections with the obstacle
      built from draw `u`. */
  function Extended(p: Pass, f: nat, u: nat): (r: Pass)
    ensures r.first == p.first && r.base == p.base && r.g == p.g
    ensures r.fails == p.fails + [f] && r.used == p.used + [u]
  {
    p.(fails := p.fails + [f], used := p.used + [u])
  }

  /** Pass `p` began right after pass `q` gave up: the slot that made the 1000 rejected
      attempts is the one after those `q` filled, the attempts began with the draw after
      q's last and with the size q had reached, and the slots they were made against are
      those q left: as q filled them, with q's accepted and rejected attempts, before that
      slot, and as q found them from it on. */
  ghost predicate Follows(size: nat, maxStepSize: real, count: int, start: seq<real>, goal: seq<real>, distance: real, minPath: real,
                          draws: seq<ObstacleDraw>, q: Pass, p: Pass)
  {
    p.g.slot == |q.used| && p.first == SlotStart(q.first, q.used, |q.used|) + 1000 &&
    p.g.size == Shrunk(1.0, SumTo(q.fails, |q.fails|)) &&
    |p.g.base| == |q.base| && (forall i :: |q.used| <= i < |q.base| ==> p.g.base[i] == q.base[i]) &&
    PassRejections(size, maxStepSize, count, p.g.base, q.base, start, goal, distance, minPath, draws, q.first, q.fails, q.used) &&
    PassAcceptances(size, maxStepSize, count, p.g.base, q.base, start, goal, distance, minPath, |q.used|)
  }

  /** The passes `earlier`, each of which gave up, and then the pass `p`: the first began
      with the first draw from the slots `initial`, and each later one began right after
      the one before it gave up, from the slots that give-up left. */
  /** Pass `all[i]` took over where `all[i - 1]` gave up. */
  ghost predicate Linked(size: nat, maxStepSize: real, count: int, start: seq<real>, goal: seq<real>,
                         distance: real, minPath: real, draws: seq<ObstacleDraw>, all: seq<Pass>, i: nat)
    requires 0 < i < |all|
  {
    Follows(size, maxStepSize, count, start, goal, distance, minPath, draws, all[i - 1], all[i]) &&
    Restarted(size, maxStepSize, count, all[i].base, all[i].g, start, goal, distance, minPath, draws, all[i].first)
  }
  ghost predicate Chained(size: nat, maxStepSize: real, count: int, initial: seq<Option<Obstacle>>,
                          start: seq<real>, goal: seq<real>, distance: real, minPath: real, draws: seq<ObstacleDraw>,
                          earlier: seq<Pass>, p: Pass)
  {
    var all := earlier + [p];
    all[0].first == 0 && all[0].base == initial &&
    forall i :: 0 < i < |all| ==> Linked(size, maxStepSize, count, start, goal, distance, minPath, draws, all, i)
  }

  /** Filling a slot does not change where the pass began. */
  lemma ChainedExtended(size: nat, maxStepSize: real, count: int, initial: seq<Option<Obstacle>>,
                        start: seq<real>, goal: seq<real>, distance: real, minPath: real, draws: seq<ObstacleDraw>,
                        earlier: seq<Pass>, p: Pass, f: nat, u: nat)
    requires Chained(size, maxStepSize, count, initial, start, goal, distance, minPath, draws, earlier, p)
    ensures Chained(size, maxStepSize, count, initial, start, goal, distance, minPath, draws, earlier, Extended(p, f, u))
  {
    var all, all' := earlier + [p], earlier + [Extended(p, f, u)];
    forall i | 0 < i < |all'|
      ensures Linked(size, maxStepSize, count, start, goal, distance, minPath, draws, all', i)
    {
      assert Linked(size, maxStepSize, count, start, goal, distance, minPath, draws, all, i);
      assert all'[i - 1] == all[i - 1];
      assert all'[i].first == all[i].first && all'[i].g == all[i].g && all'[i].base == all[i].base;
    }
  }

  /** A pass that begins right after `q` gave up continues the chain that ended with `q`. */
  lemma ChainedRestart(size: nat, maxStepSize: real, count: int, initial: seq<Option<Obstacle>>,
                       start: seq<real>, goal: seq<real>, distance: real, minPath: real, draws: seq<ObstacleDraw>,
                       earlier: seq<Pass>, q: Pass, p: Pass)
    requires Chained(size, maxStepSize, count, initial, start, goal, distance, minPath, draws, earlier, q)
    requires Follows(size, maxStepSize, count, start, goal, distance, minPath, draws, q, p)
    requires Restarted(size, maxStepSize, count, p.base, p.g, start, goal, distance, minPath, draws, p.first)
    ensures Chained(size, maxStepSize, count, initial, start, goal, distance, minPath, draws, earlier + [q], p)
  {
    var all, all' := earlier + [q], earlier + [q] + [p];
    forall i | 0 < i < |all'|
      ensures Linked(size, maxStepSize, count, start, goal, distance, minPath, draws, all', i)
    {
      assert all'[i - 1] == all[i - 1];
      if i < |all| {
        assert Linked(size, maxStepSize, count, start, goal, distance, minPath, draws, all, i);
        assert all'[i] == all[i];
      }
    }
  }

  /** What a completed placement leaves, slots `obs` from slots `initial`: the last pass
      `p` began at draw p.first from the slots p.base, with size 1 from slot 0, and filled
      all `count` slots with no draw skipped, every unaccepted attempt rejected and every
      filled slot accepted; the passes `earlier` gave up one after the other before it,
      the first of them (or `p`) beginning with the first draw from `initial`. */
  ghost predicate PlacementRecord(size: nat, maxStepSize: real, count: int, obs: seq<Option<Obstacle>>, initial: seq<Option<Obstacle>>,
                                  start: seq<real>, goal: seq<real>, distance: real, minPath: real, draws: seq<ObstacleDraw>,
                                  earlier: seq<Pass>, p: Pass)
  {
    |p.fails| == count &&
    PassRejections(size, maxStepSize, count, obs, p.base, start, goal, distance, minPath, draws, p.first, p.fails, p.used) &&
    PassAcceptances(size, maxStepSize, count, obs, p.base, start, goal, distance, minPath, |p.used|) &&
    Chained(size, maxStepSize, count, initial, start, goal, distance, minPath, draws, earlier, p)
  }

  /** The state of the placement loop before slot `o`, with draw `k` next and size
      `obstSize`: the slots before `o` avoid start and goal and were filled by the pass `p`,
      the others are still as the pass found them, and `path` is the estimate after the
      last accepted slot, neither -1 nor at most `minPath`. */
  ghost predicate PassInvariant(size: nat, maxStepSize: real, count: int, obs: seq<Option<Obstacle>>, initial: seq<Option<Obstacle>>,
                                start: seq<real>, goal: seq<real>, distance: real, minPath: real, draws: seq<ObstacleDraw>,
                                o: nat, k: nat, obstSize: real, path: real, p: Pass)
  {
    maxStepSize > 0.0 && |start| == size && |goal| == size && WellSized(size, obs) &&
    o <= count == |obs| && k <= |draws| && Clear(size, obs, o, start, goal) &&
    (o >= 1 ==>
       PathEstimate(size, maxStepSize, count, obs, start, goal, distance) == Estimate(path) &&
       path != -1.0 && path > minPath) &&
    PassContinues(size, maxStepSize, obs, draws, p.first, p.fails, p.used, o, k, obstSize) &&
    |p.base| == |obs| && (forall i :: o <= i < |obs| ==> obs[i] == p.base[i]) &&
    PassRejections(size, maxStepSize, count, obs, p.base, start, goal, distance, minPath, draws, p.first, p.fails, p.used) &&
    PassAcceptances(size, maxStepSize, count, obs, p.base, start, goal, distance, minPath, o) &&
    (p.first == 0 ==> p.base == initial) &&
    (p.first > 0 ==> Restarted(size, maxStepSize, count, p.base, p.g, start, goal, distance, minPath, draws, p.first))
  }

  /** With no slots to fill, the pass that begins with the first draw is the whole record. */
  lemma EmptyPlacement(size: nat, maxStepSize: real, start: seq<real>, goal: seq<real>, distance: real, minPath: real,
                       draws: seq<ObstacleDraw>)
    requires maxStepSize > 0.0 && |start| == size && |goal| == size
    requires forall j :: 0 <= j < |draws| ==> ValidDraw(size, draws[j])
    ensures PlacementRecord(size, maxStepSize, 0, [], [], start, goal, distance, minPath, draws, [], Pass(0, [], GiveUp(0, [], 1.0), [], []))
  {
  }

  /** The first pass begins at slot 0 with the first draw and size 1, from the slots as
      they are. */
  lemma PassBegins(size: nat, maxStepSize: real, count: int, initial: seq<Option<Obstacle>>,
                   start: seq<real>, goal: seq<real>, distance: real, minPath: real, draws: seq<ObstacleDraw>, path: real)
    requires maxStepSize > 0.0 && |start| == size && |goal| == size && WellSized(size, initial) && count == |initial|
    requires forall j :: 0 <= j < |draws| ==> ValidDraw(size, draws[j])
    ensures PassInvariant(size, maxStepSize, count, initial, initial, start, goal, distance, minPath, draws, 0, 0, 1.0,
                          path, Pass(0, initial, GiveUp(0, [], 1.0), [], []))
  {
  }

  /** A pass that reaches slot `count`, after the passes `earlier` gave up, leaves its
      record, all slots clear of start and goal, and the estimate of its last acceptance. */
  lemma PassCompletes(size: nat, maxStepSize: real, count: int, obs: seq<Option<Obstacle>>, initial: seq<Option<Obstacle>>,
                      start: seq<real>, goal: seq<real>, distance: real, minPath: real, draws: seq<ObstacleDraw>,
                      k: nat, obstSize: real, path: real, earlier: seq<Pass>, p: Pass)
    requires count > 0
    requires PassInvariant(size, maxStepSize, count, obs, initial, start, goal, distance, minPath, draws, count, k, obstSize, path, p)
    requires Chained(size, maxStepSize, count, initial, start, goal, distance, minPath, draws, earlier, p)
    ensures Clear(size, obs, count, start, goal)
    ensures PathEstimate(size, maxStepSize, count, obs, start, goal, distance) == Estimate(path)
    ensures path != -1.0 && path > minPath
    ensures PlacementRecord(size, maxStepSize, count, obs, initial, start, goal, distance, minPath, draws, earlier, p)
  {
  }

  /** Slot `o` accepted after f = next - k - 1 rejections, each against the slots `before`
      the pass had reached, with its obstacle built from the draw after them: the pass
      continues at slot o + 1 with draw `next` and the size shrunk f times. */
  lemma SlotAccepted(size: nat, maxStepSize: real, count: int, before: seq<Option<Obstacle>>, after: seq<Option<Obstacle>>,
                     initial: seq<Option<Obstacle>>, start: seq<real>, goal: seq<real>, distance: real, minPath: real,
                     draws: seq<ObstacleDraw>, o: nat, k: nat, obstSize: real, path: real, earlier: seq<Pass>, p: Pass,
                     next: nat, o': nat, newSize: real, newPath: real, earlier': seq<Pass>, p': Pass)
    requires PassInvariant(size, maxStepSize, count, before, initial, start, goal, distance, minPath, draws, o, k, obstSize, path, p)
    requires Chained(size, maxStepSize, count, initial, start, goal, distance, minPath, draws, earlier, p)
    requires o < count && forall j :: 0 <= j < |draws| ==> ValidDraw(size, draws[j])
    requires |after| == |before| && WellSized(size, after)
    requires forall j :: 0 <= j < |before| && j != o ==> after[j] == before[j]
    requires k < next <= |draws| && next - k <= 1000 && newSize == Shrunk(obstSize, next - k - 1)
    requires o' == o + 1 && earlier' == earlier && p' == Extended(p, next - k - 1, next - 1)
    requires after[o] == Some(ObstacleOf(size, maxStepSize, newSize, draws[next - 1]))
    requires forall j :: 0 <= j < next - k - 1 ==>
      Rejected(size, maxStepSize, count, before, o, start, goal, distance, minPath, draws, k, obstSize, j)
    requires Clear(size, after, o + 1, start, goal)
    requires PathEstimate(size, maxStepSize, count, after, start, goal, distance) == Estimate(newPath)
    requires newPath != -1.0 && newPath > minPath
    ensures PassInvariant(size, maxStepSize, count, after, initial, start, goal, distance, minPath, draws, o', next, newSize, newPath, p')
    ensures Chained(size, maxStepSize, count, initial, start, goal, distance, minPath, draws, earlier', p')
  {
    AcceptExtendsPass(size, maxStepSize, before, after, draws, p.first, p.fails, p.used, o, k, obstSize, next - k - 1, next);
    RejectionsExtend(size, maxStepSize, count, before, after, p.base, start, goal,
                     distance, minPath, draws, p.first, p.fails, p.used, next - k - 1, next);
    AcceptancesExtend(size, maxStepSize, count, before, after, p.base, start, goal, distance, minPath, o);
    ChainedExtended(size, maxStepSize, count, initial, start, goal, distance, minPath, draws, earlier, p, next - k - 1, next - 1);
  }

  /** Slot `o` giving up after its attempts from draw `k` on ends the pass `p` that filled
      the slots before it: the pass that begins with draw k + 1000 follows `p`. */
  lemma SlotGaveUp(size: nat, maxStepSize: real, count: int, before: seq<Option<Obstacle>>, after: seq<Option<Obstacle>>,
                   initial: seq<Option<Obstacle>>, start: seq<real>, goal: seq<real>, distance: real, minPath: real,
                   draws: seq<ObstacleDraw>, o: nat, k: nat, obstSize: real, path: real, p: Pass)
    requires PassInvariant(size, maxStepSize, count, before, initial, start, goal, distance, minPath, draws, o, k, obstSize, path, p)
    ensures Follows(size, maxStepSize, count, start, goal, distance, minPath, draws, p,
                    Pass(k + 1000, after, GiveUp(o, before, obstSize), [], []))
  {
  }

  /** Slot `o` gave up after 1000 rejections from draw `k` on, each against the slots
      `before`: a new pass begins at slot 0 with draw k + 1000 and size 1, from the slots
      `after` that hold the last attempt in slot `o`. */
  lemma SlotRestarted(size: nat, maxStepSize: real, count: int, before: seq<Option<Obstacle>>, after: seq<Option<Obstacle>>,
                      initial: seq<Option<Obstacle>>, start: seq<real>, goal: seq<real>, distance: real, minPath: real,
                      draws: seq<ObstacleDraw>, o: nat, k: nat, obstSize: real, path: real, earlier: seq<Pass>, p: Pass,
                      o': nat, obstSize': real, path': real, earlier': seq<Pass>, p': Pass)
    requires PassInvariant(size, maxStepSize, count, before, initial, start, goal, distance, minPath, draws, o, k, obstSize, path, p)
    requires Chained(size, maxStepSize, count, initial, start, goal, distance, minPath, draws, earlier, p)
    requires maxStepSize > 0.0 && |start| == size && |goal| == size && WellSized(size, before) && WellSized(size, after)
    requires o < count == |before| == |after| && forall j :: 0 <= j < |draws| ==> ValidDraw(size, draws[j])
    requires forall j :: 0 <= j < |before| && j != o ==> after[j] == before[j]
    requires k + 1000 <= |draws|
    requires o' == 0 && obstSize' == 1.0 && path' == path &&
      earlier' == earlier + [p] && p' == Pass(k + 1000, after, GiveUp(o, before, obstSize), [], [])
    requires after[o] == Some(ObstacleOf(size, maxStepSize, Shrunk(obstSize, 999), draws[k + 999]))
    requires forall j :: 0 <= j < 1000 ==>
      Rejected(size, maxStepSize, count, before, o, start, goal, distance, minPath, draws, k, obstSize, j)
    ensures GaveUp(size, maxStepSize, count, before, o, start, goal, distance, minPath, draws, k, obstSize)
    ensures PassInvariant(size, maxStepSize, count, after, initial, start, goal, distance, minPath, draws, o', k + 1000, obstSize', path', p')
    ensures Chained(size, maxStepSize, count, initial, start, goal, distance, minPath, draws, earlier', p')
  {
    assert after == before[o := after[o]];
    SlotGaveUp(size, maxStepSize, count, before, after, initial, start, goal, distance, minPath, draws, o, k, obstSize, path, p);
    ChainedRestart(size, maxStepSize, count, initial, start, goal, distance, minPath, draws, earlier, p, p');
  }
  /** One slot of the placement loop that did not run out of draws, accepted or given up:
      the loop goes on from slot `o'` with size `obstSize'`, path `path'` and the records
      `earlier'` and `p'`, and these satisfy the loop's invariant again. */
  lemma SlotStep(size: nat, maxStepSize: real, count: int, before: seq<Option<Obstacle>>, after: seq<Option<Obstacle>>,
                 initial: seq<Option<Obstacle>>, start: seq<real>, goal: seq<real>, distance: real, minPath: real,
                 draws: seq<ObstacleDraw>, o: nat, k: nat, obstSize: real, path: real, earlier: seq<Pass>, p: Pass,
                 res: Placement, next: nat, newSize: real, o': nat, obstSize': real, path': real, earlier': seq<Pass>, p': Pass)
    requires PassInvariant(size, maxStepSize, count, before, initial, start, goal, distance, minPath, draws, o, k, obstSize, path, p)
    requires Chained(size, maxStepSize, count, initial, start, goal, distance, minPath, draws, earlier, p)
    requires o < count && |after| == |before| && WellSized(size, after) && forall j :: 0 <= j < |draws| ==> ValidDraw(size, draws[j])
    requires forall j :: 0 <= j < |before| && j != o ==> after[j] == before[j]
    requires k < next <= |draws| && next - k <= 1000
    requires after[o] == Some(ObstacleOf(size, maxStepSize, Shrunk(obstSize, next - k - 1), draws[next - 1]))
    requires forall j :: 0 <= j < next - k && !(res.Accepted? && j == next - k - 1) ==>
      Rejected(size, maxStepSize, count, before, o, start, goal, distance, minPath, draws, k, obstSize, j)
    requires res.Restart? ==>
      next - k == 1000 && o' == 0 && obstSize' == 1.0 && path' == path &&
      earlier' == earlier + [p] && p' == Pass(next, after, GiveUp(o, before, obstSize), [], [])
    requires res.Accepted? ==>
      Clear(size, after, o + 1, start, goal) &&
      PathEstimate(size, maxStepSize, count, after, start, goal, distance) == Estimate(res.path) &&
      res.path != -1.0 && res.path > minPath &&
      o' == o + 1 && obstSize' == newSize == Shrunk(obstSize, next - k - 1) && path' == res.path &&
      earlier' == earlier && p' == Extended(p, next - k - 1, next - 1)
    requires !res.Exhausted?
    ensures res.Restart? ==> GaveUp(size, maxStepSize, count, before, o, start, goal, distance, minPath, draws, k, obstSize)
    ensures PassInvariant(size, maxStepSize, count, after, initial, start, goal, distance, minPath, draws, o', next, obstSize', path', p')
    ensures Chained(size, maxStepSize, count, initial, start, goal, distance, minPath, draws, earlier', p')
  {
    if res.Accepted? {
      SlotAccepted(size, maxStepSize, count, before, after, initial, start, goal, distance, minPath, draws,
                   o, k, obstSize, path, earlier, p, next, o', obstSize', path', earlier', p');
    } else {
      SlotRestarted(size, maxStepSize, count, before, after, initial, start, goal, distance, minPath, draws,
                    o, k, obstSize, path, earlier, p, o', obstSize', path', earlier', p');
    }
  }


  /** A freshly allocated obstacle array: every slot empty. */
  function NoObstacles(n: nat): (s: seq<Option<Obstacle>>)
    ensures |s| == n && forall j :: 0 <= j < n ==> s[j].None?
  {
    seq(n, _ => None)
  }

  /** The obstacle slots that are all filled and avoid both the start and the goal. */
  predicate Clear(size: nat, obstacle: seq<Option<Obstacle>>, n: int, start: seq<real>, goal: seq<real>)
    requires |start| == size && |goal| == size
  {
    forall j :: 0 <= j < n && j < |obstacle| ==>
      obstacle[j].Some? && |obstacle[j].value.corner1| == size && |obstacle[j].value.corner2| == size &&
      !Collision(size, obstacle[j].value, start) && !Collision(size, obstacle[j].value, goal)
  }

  // ---------------------------------------------------------------------------
  // The environment

  /** The output vector after System.arraycopy of the state into its front and the reward
      into its last slot (which overwrites the last state coordinate when the output is no
      longer than the state). */
  function Layout(state: seq<real>, out: seq<real>, reward: real): (r: seq<real>)
    requires 1 <= |state| <= |out|
    ensures |r| == |out| && r[|out| - 1] == reward
    ensures forall i :: 0 <= i < |out| - 1 ==> r[i] == if i < |state| then state[i] else out[i]
  {
    (state + out[|state|..])[|out| - 1 := reward]
  }

  /** The acceptance test of a placement: the obstacle in slot `o` of `obs` avoids both
      the start and the goal, and the path estimate with the slots `obs` (for dimension
      `size`, `count` obstacles, start `start` and goal `goal`) exists and is longer than
      `minPath`. */
  ghost predicate Acceptable(size: nat, maxStepSize: real, count: int, obs: seq<Option<Obstacle>>, o: nat,
                             start: seq<real>, goal: seq<real>, distance: real, minPath: real)
    requires maxStepSize > 0.0 && |start| == size && |goal| == size && WellSized(size, obs)
    requires o < |obs| && obs[o].Some?
  {
    !Collision(size, obs[o].value, start) && !Collision(size, obs[o].value, goal) &&
    var est := PathEstimate(size, maxStepSize, count, obs, start, goal, distance);
    est.Estimate? && est.value != -1.0 && est.value > minPath
  }

  /** Attempt `j` for slot `o` from draw `k` on was rejected: slot `o` of `base` holding the
      obstacle built from draws[k + j] with size Shrunk(s, j) fails the acceptance test. */
  ghost predicate Rejected(size: nat, maxStepSize: real, count: int, base: seq<Option<Obstacle>>, o: nat,
                           start: seq<real>, goal: seq<real>, distance: real, minPath: real,
                           draws: seq<ObstacleDraw>, k: nat, s: real, j: nat)
    requires maxStepSize > 0.0 && |start| == size && |goal| == size && WellSized(size, base) && o < |base|
    requires k + j < |draws| && ValidDraw(size, draws[k + j])
  {
    var trial := base[o := Some(ObstacleOf(size, maxStepSize, Shrunk(s, j), draws[k + j]))];
    !Acceptable(size, maxStepSize, count, trial, o, start, goal, distance, minPath)
  }

  /** A rejection of attempt `n` extends the rejections of the attempts before it. */
  lemma {:induction false} RejectedExtend(size: nat, maxStepSize: real, count: int, base: seq<Option<Obstacle>>, o: nat,
                       start: seq<real>, goal: seq<real>, distance: real, minPath: real,
                       draws: seq<ObstacleDraw>, k: nat, s: real, n: nat)
    requires maxStepSize > 0.0 && |start| == size && |goal| == size && WellSized(size, base) && o < |base|
    requires k + n < |draws| && forall j :: 0 <= j < |draws| ==> ValidDraw(size, draws[j])
    requires forall j :: 0 <= j < n ==> Rejected(size, maxStepSize, count, base, o, start, goal, distance, minPath, draws, k, s, j)
    requires Rejected(size, maxStepSize, count, base, o, start, goal, distance, minPath, draws, k, s, n)
    ensures forall j :: 0 <= j < n + 1 ==> Rejected(size, maxStepSize, count, base, o, start, goal, distance, minPath, draws, k, s, j)
  {
  }

  class Environment {
    /** The dimension of the state space. */
    const size: nat
    const maxStepSize: real
    var obstacleCount: int
    var obstacle: array<Option<Obstacle>>
    var startState: seq<real>
    var goalState: seq<real>
    var requiredSteps: int

    ghost predicate Valid()
      reads this, obstacle
    {
      size >= 1 && maxStepSize > 0.0 && |startState| == size && |goalState| == size &&
      WellSized(size, obstacle[..])
    }

    /** A new environment: `obstacleCount` comes from the initial obstacle count property,
        and the maximum step size is 0.1. Start and goal are placed by SetUp. */
    constructor (size: nat, initialObstacleCount: int)
      requires size >= 1
      ensures Valid() && this.size == size && maxStepSize == 0.1
      ensures obstacleCount == initialObstacleCount && obstacle.Length == 0 && requiredSteps == 0
    {
      this.size := size;
      maxStepSize := 0.1;
      obstacleCount := initialObstacleCount;
      obstacle := new Option<Obstacle>[0];
      startState := seq(size, _ => 0.0);
      goalState := seq(size, _ => 0.0);
      requiredSteps := 0;
    }

    /** 1 - L1(state, goal) / size. */
    function GetRewardForState(state: seq<real>): (r: real)
      reads this
      requires size >= 1 && |state| == size && |goalState| == size
      ensures r <= 1.0 && (r == 1.0 <==> state == goalState)
      ensures InUnitBox(state) && InUnitBox(goalState) ==> r >= 0.0
    {
      L1Zero(state, goalState);
      DistanceInBox(state, goalState);
      1.0 - L1(state, goalState) / size as real
    }

    /** 1 when the mean coordinate distance to the goal is below maxStepSize, otherwise a
        tenth of one minus that distance. */
    function GetPerformanceForState(state: seq<real>): (p: real)
      reads this
      requires size >= 1 && maxStepSize > 0.0 && |state| == size && |goalState| == size
      ensures L1(state, goalState) / size as real < maxStepSize ==> p == 1.0
      ensures L1(state, goalState) / size as real >= maxStepSize ==>
        p == (1.0 - L1(state, goalState) / size as real) * 0.1 && p <= 0.1 && p < 1.0
    {
      var d := L1(state, goalState) / size as real;
      if d < maxStepSize then 1.0 else (1.0 - d) * 0.1
    }

    /** Writes the state into output[0 .. size) and the reward into the last slot of
        `output`, and answers the performance. */
    method GetOutputForState(state: seq<real>, output: array<real>) returns (perf: real)
      requires size >= 1 && maxStepSize > 0.0 && |state| == size && |goalState| == size
      requires output.Length >= size
      modifies output
      ensures output[..] == Layout(state, old(output[..]), GetRewardForState(state))
      ensures perf == GetPerformanceForState(state)
    {
      ghost var out0 := output[..];
      for i := 0 to size
        invariant forall j :: 0 <= j < output.Length ==> output[j] == if j < i then state[j] else out0[j]
      {
        output[i] := state[i];
      }
      output[output.Length - 1] := GetRewardForState(state);
      perf := GetPerformanceForState(state);
      assert output[..] == Layout(state, out0, GetRewardForState(state));
    }

    /** One step of the agent: the motion vector `input` (divided by its norm `norm` when
        that exceeds 1) moves the state by input[i] * maxStepSize per coordinate, clamped
        into [0, 1]; a move into any obstacle is refused and the state stays; then the
        output and performance for the resulting state are produced. */
    method UpdateStateAndOutput(state: array<real>, input: seq<real>, norm: real, output: array<real>)
        returns (perf: real)
      requires Valid() && state.Length == size && |input| >= size
      requires norm >= 0.0 && norm * norm == SumSquares(input)
      requires output.Length >= size && state != output
      requires obstacleCount <= obstacle.Length
      requires forall o :: 0 <= o < obstacleCount ==> obstacle[o].Some?
      modifies state, output
      ensures var cand := Candidate(old(state[..]), Unitized(input, norm), maxStepSize);
        state[..] == if Occludes(size, obstacle[..], obstacleCount, cand) then old(state[..]) else cand
      ensures output[..] == Layout(state[..], old(output[..]), GetRewardForState(state[..]))
      ensures perf == GetPerformanceForState(state[..])
    {
      var inputT := if norm > 1.0 then DividedBy(input, norm) else input;
      assert inputT == Unitized(input, norm);
      MoveState(state, inputT);
      perf := GetOutputForState(state[..], output);
    }

    /** The state update of a step: the clamped candidate is computed into a new vector, and
        copied into `state` unless some obstacle contains it. */
    method MoveState(state: array<real>, inputT: seq<real>)
      requires Valid() && state.Length == size && |inputT| >= size
      requires obstacleCount <= obstacle.Length
      requires forall o :: 0 <= o < obstacleCount ==> obstacle[o].Some?
      modifies state
      ensures var cand := Candidate(old(state[..]), inputT, maxStepSize);
        state[..] == if Occludes(size, obstacle[..], obstacleCount, cand) then old(state[..]) else cand
    {
      var newState := new real[size];
      for i := 0 to size
        invariant forall j :: 0 <= j < i ==> newState[j] == Moved(state[j], inputT[j], maxStepSize)
        modifies newState
      {
        newState[i] := Moved(state[i], inputT[i], maxStepSize);
      }
      assert newState[..] == Candidate(state[..], inputT, maxStepSize);
      var blocked := AnyCollision(size, obstacle, obstacleCount, newState[..]);
      if !blocked {
        forall i | 0 <= i < size {
          state[i] := newState[i];
        }
        assert state[..] == newState[..];
      }
    }

    /** Environment set-up after start and goal are chosen: a fresh all-empty obstacle
        array; the estimate `minPath` with every slot empty; then each slot in turn is
        filled with a new obstacle of the current size, which is accepted only when it
        contains neither start nor goal and leaves a route whose estimate exceeds
        `minPath`. Each rejection shrinks the size by 5%; after 1000 rejections in a row
        everything restarts from slot 0 with size 1 (already placed obstacles stay in
        their slots until overwritten and are seen by the estimates). Finally the step
        budget is derived from the last estimate. The random draws come from `draws`;
        `trialCount` is the number of trials per environment. */
    method SetUp(start: seq<real>, goal: seq<real>, distance: real, draws: seq<ObstacleDraw>, trialCount: int)
        returns (outcome: SetUpOutcome, ghost earlier: seq<Pass>, ghost pass: Pass)
      requires Valid() && obstacleCount >= 0 && |start| == size && |goal| == size
      requires forall k :: 0 <= k < |draws| ==> ValidDraw(size, draws[k])
      modifies this
      ensures Valid() && startState == start && goalState == goal && obstacleCount == old(obstacleCount)
      ensures fresh(obstacle) && obstacle.Length == obstacleCount
      ensures outcome == SetUpOutOfGrid <==> obstacleCount != 0 && !(InGridBox(start) && InGridBox(goal))
      ensures outcome == Placed ==> Populated(distance, draws, trialCount, earlier, pass)
    {
      startState := start;
      goalState := goal;
      var arr := new Option<Obstacle>[obstacleCount](_ => None);
      obstacle := arr;
      assert arr[..] == NoObstacles(obstacleCount);
      earlier, pass := [], Pass(0, arr[..], GiveUp(0, [], 1.0), [], []);
      EstimateOutOfGrid(size, maxStepSize, obstacleCount, arr[..], start, goal, distance);
      var minEstimate := FindPath(distance);
      if minEstimate.OutOfGrid? {
        outcome := SetUpOutOfGrid;
      } else {
        outcome, earlier, pass := Populate(distance, minEstimate.value, draws, trialCount);
      }
    }

    /** What a completed set-up leaves, for the record `pass` of the last placement pass:
        every slot avoids start and goal; the estimate is neither -1 nor at most the
        estimate `minEst` with every slot empty; the step budget is derived from it; and
        the slots were filled as `pass` records, from all-empty slots. */
    ghost predicate Populated(distance: real, draws: seq<ObstacleDraw>, trialCount: int, earlier: seq<Pass>, pass: Pass)
      requires Valid() && 0 <= obstacleCount <= obstacle.Length
      reads this, obstacle
    {
      Clear(size, obstacle[..], obstacleCount, startState, goalState) &&
      var est := PathEstimate(size, maxStepSize, obstacleCount, obstacle[..], startState, goalState, distance);
      var minEst := PathEstimate(size, maxStepSize, obstacleCount, NoObstacles(obstacleCount), startState, goalState, distance);
      est.Estimate? && minEst.Estimate? &&
      (obstacleCount > 0 ==> est.value != -1.0 && est.value > minEst.value) &&
      requiredSteps == RequiredSteps(est.value, maxStepSize, trialCount, size) &&
      PlacementRecord(size, maxStepSize, obstacleCount, obstacle[..], NoObstacles(obstacleCount), startState, goalState,
                      distance, minEst.value, draws, earlier, pass)
    }

    /** The placement loop and the step budget of set-up, from all-empty slots whose
        estimate is `minPath`. */
    method Populate(distance: real, minPath: real, draws: seq<ObstacleDraw>, trialCount: int)
        returns (outcome: SetUpOutcome, ghost earlier: seq<Pass>, ghost pass: Pass)
      requires Valid() && obstacleCount >= 0 && obstacle.Length == obstacleCount && obstacle[..] == NoObstacles(obstacleCount)
      requires PathEstimate(size, maxStepSize, obstacleCount, obstacle[..], startState, goalState, distance) == Estimate(minPath)
      requires obstacleCount > 0 ==> InGridBox(startState) && InGridBox(goalState)
      requires forall k :: 0 <= k < |draws| ==> ValidDraw(size, draws[k])
      modifies this`requiredSteps, obstacle
      ensures Valid() && outcome != SetUpOutOfGrid
      ensures outcome == Placed ==> Populated(distance, draws, trialCount, earlier, pass)
    {
      var path := minPath;
      var exhausted := false;
      earlier, pass := [], Pass(0, obstacle[..], GiveUp(0, [], 1.0), [], []);
      if obstacleCount > 0 {
        var res;
        res, earlier, pass := PlaceAll(distance, minPath, draws, obstacle[..]);
        exhausted := res.Exhausted?;
        if !exhausted {
          path := res.path;
        }
      } else {
        EmptyPlacement(size, maxStepSize, startState, goalState, distance, minPath, draws);
      }
      if exhausted {
        outcome := OutOfDraws;
      } else {
        var steps := Round((path * 1.1) / maxStepSize) + 1;
        if trialCount == 1 {
          steps := steps + 2 * size;
        }
        requiredSteps := steps;
        outcome := Placed;
      }
    }

    /** The placement loop over the slots, restarting from slot 0 with size 1 whenever a
        slot's attempts give up. The size carries over from one slot to the next. Answers,
        besides the outcome, the record `pass` of the last pass and the records `earlier`
        of the passes that gave up before it. */
    method PlaceAll(distance: real, minPath: real, draws: seq<ObstacleDraw>, ghost initial: seq<Option<Obstacle>>)
        returns (res: Placement, ghost earlier: seq<Pass>, ghost pass: Pass)
      requires Valid() && 0 < obstacleCount == obstacle.Length && initial == obstacle[..]
      requires InGridBox(startState) && InGridBox(goalState)
      requires forall k :: 0 <= k < |draws| ==> ValidDraw(size, draws[k])
      modifies obstacle
      ensures Valid() && !res.Restart?
      ensures res.Accepted? ==>
        Clear(size, obstacle[..], obstacleCount, startState, goalState) &&
        PathEstimate(size, maxStepSize, obstacleCount, obstacle[..], startState, goalState, distance) == Estimate(res.path) &&
        res.path != -1.0 && res.path > minPath
      ensures res.Accepted? ==>
        PlacementRecord(size, maxStepSize, obstacleCount, obstacle[..], initial, startState, goalState,
                        distance, minPath, draws, earlier, pass)
    {
      var path := 0.0;
      var obstSize := 1.0;
      var k: nat := 0;
      var o: nat := 0;
      earlier, pass := [], Pass(0, initial, GiveUp(0, [], 1.0), [], []);
      PassBegins(size, maxStepSize, obstacleCount, initial, startState, goalState, distance, minPath, draws, path);
      while o < obstacleCount
        invariant Valid() && o <= obstacleCount
        invariant PassInvariant(size, maxStepSize, obstacleCount, obstacle[..], initial, startState, goalState,
                                distance, minPath, draws, o, k, obstSize, path, pass)
        invariant Chained(size, maxStepSize, obstacleCount, initial, startState, goalState, distance, minPath, draws, earlier, pass)
        modifies obstacle
        decreases |draws| - k, obstacleCount - o
      {
        var r;
        r, o, k, obstSize, path, earlier, pass := PlaceSlot(o, distance, minPath, draws, k, obstSize, path, initial, earlier, pass);
        if r.Exhausted? {
          return Exhausted, earlier, pass;
        }
      }
      PassCompletes(size, maxStepSize, obstacleCount, obstacle[..], initial, startState, goalState,
                    distance, minPath, draws, k, obstSize, path, earlier, pass);
      res := Accepted(path);
    }

    /** One slot of a placement pass: PlaceObstacle, with the accepted obstacle and the
        rejected attempts before it extending the pass `pass` that filled the slots before
        it, or, after 1000 rejected attempts, a new pass from slot 0 with size 1 that records
        them. Answers the slot, draw, size and path the loop goes on with, and the record
        of the pass that continues. */
    method PlaceSlot(o: nat, distance: real, minPath: real, draws: seq<ObstacleDraw>, k: nat, obstSize: real, path: real,
                     ghost initial: seq<Option<Obstacle>>, ghost earlier: seq<Pass>, ghost pass: Pass)
        returns (res: Placement, o': nat, next: nat, obstSize': real, path': real, ghost earlier': seq<Pass>, ghost pass': Pass)
      requires Valid() && o < obstacleCount == obstacle.Length
      requires InGridBox(startState) && InGridBox(goalState)
      requires forall j :: 0 <= j < |draws| ==> ValidDraw(size, draws[j])
      requires PassInvariant(size, maxStepSize, obstacleCount, obstacle[..], initial, startState, goalState,
                             distance, minPath, draws, o, k, obstSize, path, pass)
      requires Chained(size, maxStepSize, obstacleCount, initial, startState, goalState, distance, minPath, draws, earlier, pass)
      modifies obstacle
      ensures Valid() && k <= next <= |draws| && (!res.Exhausted? ==> next > k)
      ensures res.Exhausted? ==> next == |draws|
      ensures forall j :: 0 <= j < obstacle.Length && j != o ==> obstacle[j] == old(obstacle[j])
      ensures res.Restart? ==>
        o' == 0 && obstSize' == 1.0 && path' == path && next == k + 1000 &&
        pass' == Pass(next, obstacle[..], GiveUp(o, old(obstacle[..]), obstSize), [], []) && earlier' == earlier + [pass] &&
        GaveUp(size, maxStepSize, obstacleCount, old(obstacle[..]), o, startState, goalState, distance, minPath, draws, k, obstSize)
      ensures res.Accepted? ==>
        o' == o + 1 && obstSize' == Shrunk(obstSize, next - k - 1) && path' == res.path && next > k &&
        pass' == Extended(pass, next - k - 1, next - 1) && earlier' == earlier
      ensures !res.Exhausted? ==>
        PassInvariant(size, maxStepSize, obstacleCount, obstacle[..], initial, startState, goalState,
                      distance, minPath, draws, o', next, obstSize', path', pass') &&
        Chained(size, maxStepSize, obstacleCount, initial, startState, goalState, distance, minPath, draws, earlier', pass')
    {
      ghost var before := obstacle[..];
      res, next, obstSize' := PlaceObstacle(o, distance, minPath, draws, k, obstSize);
      ghost var shrunk := obstSize';
      o', path', earlier', pass' := o, path, earlier, pass;
      if res.Accepted? {
        o', path', pass' := o + 1, res.path, Extended(pass, next - k - 1, next - 1);
      } else if res.Restart? {
        o', obstSize' := 0, 1.0;
        earlier', pass' := earlier + [pass], Pass(next, obstacle[..], GiveUp(o, before, obstSize), [], []);
      }
      if !res.Exhausted? {
        SlotStep(size, maxStepSize, obstacleCount, before, obstacle[..], initial, startState, goalState, distance, minPath, draws,
                 o, k, obstSize, path, earlier, pass, res, next, shrunk, o', obstSize', path', earlier', pass');
      }
    }

    /** The slots `obs` with slot `o` holding the obstacle built from draw `dr` with size `s`. */
    function WithTrial(obs: seq<Option<Obstacle>>, o: nat, s: real, dr: ObstacleDraw): (r: seq<Option<Obstacle>>)
      requires o < |obs| && ValidDraw(size, dr)
      ensures |r| == |obs| && r[o].Some?
      ensures WellSized(size, obs) ==> WellSized(size, r)
      ensures forall j :: 0 <= j < |obs| && j != o ==> r[j] == obs[j]
    {
      obs[o := Some(ObstacleOf(size, maxStepSize, s, dr))]
    }

    /** One placement attempt for slot `o`: the obstacle built from `dr` with size `obstSize`
        is stored in the slot, and accepted exactly when it passes the acceptance test (the
        path is estimated only for an obstacle that avoids start and goal). The other slots
        are those of `base`; the draw is draws[next], attempt next - k of those from draw `k`
        on with sizes shrinking from `s`. */
    method Attempt(o: nat, distance: real, minPath: real, draws: seq<ObstacleDraw>, next: nat, obstSize: real,
                   ghost base: seq<Option<Obstacle>>, ghost k: nat, ghost s: real)
        returns (accepted: bool, path: real)
      requires Valid() && o < obstacleCount == obstacle.Length
      requires InGridBox(startState) && InGridBox(goalState)
      requires k <= next < |draws| && forall j :: 0 <= j < |draws| ==> ValidDraw(size, draws[j])
      requires |base| == obstacle.Length && WellSized(size, base)
      requires forall j :: 0 <= j < |base| && j != o ==> obstacle[j] == base[j]
      requires Clear(size, obstacle[..], o, startState, goalState)
      requires obstSize == Shrunk(s, next - k)
      modifies obstacle
      ensures Valid() && obstacle[o] == Some(ObstacleOf(size, maxStepSize, obstSize, draws[next]))
      ensures forall j :: 0 <= j < obstacle.Length && j != o ==> obstacle[j] == old(obstacle[j])
      ensures obstacle[..] == WithTrial(base, o, obstSize, draws[next])
      ensures Clear(size, obstacle[..], o, startState, goalState)
      ensures accepted <==> Acceptable(size, maxStepSize, obstacleCount, obstacle[..], o, startState, goalState, distance, minPath)
      ensures !accepted ==> Rejected(size, maxStepSize, obstacleCount, base, o, startState, goalState, distance, minPath, draws, k, s, next - k)
      ensures accepted ==>
        Clear(size, obstacle[..], o + 1, startState, goalState) &&
        PathEstimate(size, maxStepSize, obstacleCount, obstacle[..], startState, goalState, distance) == Estimate(path) &&
        path != -1.0 && path > minPath
    {
      var ob := NewObstacle(size, maxStepSize, obstSize, draws[next]);
      obstacle[o] := Some(ob);
      assert obstacle[..] == WithTrial(base, o, obstSize, draws[next]);
      accepted := !Collision(size, ob, startState) && !Collision(size, ob, goalState);
      path := 0.0;
      if accepted {
        EstimateOutOfGrid(size, maxStepSize, obstacleCount, obstacle[..], startState, goalState, distance);
        var e := FindPath(distance);
        path := e.value;
        if path == -1.0 || path <= minPath {
          accepted := false;
        }
      }
    }

    /** The placement attempts for slot `o`: from draw `k` on, one attempt per draw with
        size `obstSize` shrunk by 5% after each rejection, until one is accepted or 1000 in a
        row are rejected. Answers how the attempts ended, the next unused draw and the
        current obstacle size; the slot holds the last attempted obstacle, and every
        attempt but an accepted last one was rejected. */
    method PlaceObstacle(o: nat, distance: real, minPath: real, draws: seq<ObstacleDraw>, k: nat, obstSize: real)
        returns (res: Placement, next: nat, newSize: real)
      requires Valid() && o < obstacleCount == obstacle.Length
      requires InGridBox(startState) && InGridBox(goalState)
      requires Clear(size, obstacle[..], o, startState, goalState)
      requires k <= |draws| && forall j :: 0 <= j < |draws| ==> ValidDraw(size, draws[j])
      modifies obstacle
      ensures Valid() && Clear(size, obstacle[..], o, startState, goalState)
      ensures k <= next <= |draws| && next - k <= 1000
      ensures res.Exhausted? ==> next == |draws| && next - k < 1000 && newSize == Shrunk(obstSize, next - k)
      ensures res.Restart? ==> next - k == 1000 && newSize == Shrunk(obstSize, 1000)
      ensures res.Accepted? ==> next > k && newSize == Shrunk(obstSize, next - k - 1)
      ensures forall j :: 0 <= j < obstacle.Length && j != o ==> obstacle[j] == old(obstacle[j])
      ensures next == k ==> obstacle[o] == old(obstacle[o])
      ensures next > k ==> obstacle[o] == Some(ObstacleOf(size, maxStepSize, Shrunk(obstSize, next - k - 1), draws[next - 1]))
      ensures forall j :: 0 <= j < next - k && !(res.Accepted? && j == next - k - 1) ==>
        Rejected(size, maxStepSize, obstacleCount, old(obstacle[..]), o, startState, goalState, distance, minPath, draws, k, obstSize, j)
      ensures res.Accepted? ==>
        Clear(size, obstacle[..], o + 1, startState, goalState) &&
        PathEstimate(size, maxStepSize, obstacleCount, obstacle[..], startState, goalState, distance) == Estimate(res.path) &&
        res.path != -1.0 && res.path > minPath
    {
      next, newSize := k, obstSize;
      var attempts := 0;
      var accepted, path := false, 0.0;
      ghost var base := obstacle[..];
      while !accepted && attempts < 1000 && next < |draws|
        invariant Valid() && Clear(size, obstacle[..], o, startState, goalState)
        invariant k <= next <= |draws| && attempts <= 1000
        invariant attempts == if accepted then next - k - 1 else next - k
        invariant newSize == Shrunk(obstSize, attempts)
        invariant forall j :: 0 <= j < |base| && j != o ==> obstacle[j] == base[j]
        invariant next == k ==> obstacle[o] == base[o]
        invariant next > k ==> obstacle[o] == Some(ObstacleOf(size, maxStepSize, Shrunk(obstSize, next - k - 1), draws[next - 1]))
        invariant forall j :: 0 <= j < attempts ==> Rejected(size, maxStepSize, obstacleCount, base, o, startState, goalState, distance, minPath, draws, k, obstSize, j)
        invariant accepted ==>
          attempts < 1000 &&
          Clear(size, obstacle[..], o + 1, startState, goalState) &&
          PathEstimate(size, maxStepSize, obstacleCount, obstacle[..], startState, goalState, distance) == Estimate(path) &&
          path != -1.0 && path > minPath
        modifies obstacle
        decreases |draws| - next
      {
        accepted, path := Attempt(o, distance, minPath, draws, next, newSize, base, k, obstSize);
        next := next + 1;
        if !accepted {
          RejectedExtend(size, maxStepSize, obstacleCount, base, o, startState, goalState, distance, minPath, draws, k, obstSize, attempts);
          newSize := newSize * 0.95;
          attempts := attempts + 1;
        }
      }
      res := if accepted then Accepted(path) else if attempts == 1000 then Restart else Exhausted;
    }

    /** Whether raising the difficulty would add obstacles. */
    method IncreaseDifficultyPossible(max: int, delta: Delta) returns (b: bool)
      ensures b <==> NewObstacleCount(obstacleCount, max, delta) > obstacleCount
      ensures delta.Additive? && delta.d >= 1.0 ==> (b <==> obstacleCount < max)
      ensures delta.d < 1.0 ==> !b
    {
      if delta.Additive? && delta.d >= 1.0 {
        AdditiveIncreasePossible(obstacleCount, max, delta.d);
      }
      b := NewObstacleCount(obstacleCount, max, delta) > obstacleCount;
    }

    /** Raises the obstacle count to its next value; takes effect at the next SetUp. */
    method IncreaseDifficulty(max: int, delta: Delta)
      modifies this
      ensures obstacleCount == NewObstacleCount(old(obstacleCount), max, delta)
      ensures obstacle == old(obstacle) && startState == old(startState) && goalState == old(goalState)
      ensures requiredSteps == old(requiredSteps)
    {
      obstacleCount := NewObstacleCount(obstacleCount, max, delta);
    }

    /** The path estimate: the baseline `distance` (the Euclidean distance from start to
        goal) without obstacles; otherwise the occlusion bit set is built, the seed cells are
        looked up and the bidirectional search is run. */
    method FindPath(distance: real) returns (r: Estimate)
      requires Valid() && obstacleCount <= obstacle.Length
      ensures r == PathEstimate(size, maxStepSize, obstacleCount, obstacle[..], startState, goalState, distance)
    {
      if obstacleCount == 0 {
        return Estimate(distance);
      }
      r := GridPath();
    }

    /** The grid search of the path estimate. */
    method GridPath() returns (r: Estimate)
      requires Valid() && obstacleCount <= obstacle.Length
      ensures r == GridEstimate(size, maxStepSize, obstacleCount, obstacle[..], startState, goalState)
    {
      var granularity := Ceil(1.0 / maxStepSize) + 1;
      var stepSize := 1.0 / (granularity - 1) as real;
      var sh := Shape(size, granularity);
      assert granularity == Granularity(maxStepSize) && stepSize == StepSize(granularity);
      var occ := MarkOccluded(sh, stepSize, obstacle, obstacleCount);
      var sfIndices := SeedIndices(startState, granularity);
      if !InRange(sfIndices, granularity) {
        return OutOfGrid;
      }
      var gfIndices := SeedIndices(goalState, granularity);
      if !InRange(gfIndices, granularity) {
        return OutOfGrid;
      }
      var length := PathSearch.FindPathLength(sh, occ, sfIndices, gfIndices);
      if length == -1 {
        return Estimate(-1.0);
      }
      return Estimate(length as real * stepSize);
    }
  }

  /** Inside the unit box, the mean coordinate distance is at most 1. */
  lemma DistanceInBox(a: seq<real>, b: seq<real>)
    requires |a| == |b| && |a| >= 1
    ensures InUnitBox(a) && InUnitBox(b) ==> L1(a, b) / |a| as real <= 1.0
  {
    if InUnitBox(a) && InUnitBox(b) {
      L1Bound(a, b);
      DivAtMostOne(L1(a, b), |a| as real);
    }
  }

  lemma DivAtMostOne(x: real, n: real)
    requires x <= n && n > 0.0
    ensures x / n <= 1.0
  {
    var q := x / n;
    assert q * n == x;
    RealMulSign(q - 1.0, n);
    assert (q - 1.0) * n == x - n;
  }
}
