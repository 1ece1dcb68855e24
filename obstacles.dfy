/** The obstacles of the navigation environment: axis-aligned boxes given by two corners,
    thin along one randomly chosen axis, and the inclusive-bounds collision test. */
module Obstacles {

  /** A box from `corner1` to `corner2` (component-wise). */
  datatype Obstacle = Obstacle(corner1: seq<real>, corner2: seq<real>)

  /** The random draws one obstacle construction consumes: the index of the thin axis
      (a uniform integer below the dimension) and one uniform value in [0, 1) per dimension. */
  datatype ObstacleDraw = ObstacleDraw(axis: int, us: seq<real>)

  predicate ValidDraw(size: nat, dr: ObstacleDraw) {
    0 <= dr.axis < size && |dr.us| == size && forall d :: 0 <= d < size ==> 0.0 <= dr.us[d] < 1.0
  }

  /** The extent of the obstacle along the thin axis: a little more than one step, so that
      a single step cannot jump over it. */
  function ThinExtent(maxStepSize: real): real {
    maxStepSize * 1.01
  }

  /** The lowest value of a corner coordinate, -obstSize/2. */
  function RangeStart(obstSize: real): real {
    -obstSize / 2.0
  }

  /** The end of the corner coordinate range, 1 - obstSize/2 (not included). */
  function RangeEnd(obstSize: real): real {
    1.0 - obstSize / 2.0
  }

  /** The obstacle the constructor builds from draw `dr`. */
  function ObstacleOf(size: nat, maxStepSize: real, obstSize: real, dr: ObstacleDraw): (ob: Obstacle)
    requires ValidDraw(size, dr)
    ensures |ob.corner1| == size && |ob.corner2| == size
  {
    ObstacleUpTo(size, maxStepSize, obstSize, dr)
  }

  /** That obstacle over its first `n` axes: along axis d the lower corner is the draw us[d]
      scaled into [RangeStart, RangeEnd), and the upper corner adds the extent, ThinExtent on
      the drawn axis and `obstSize` elsewhere. */
  function ObstacleUpTo(n: nat, maxStepSize: real, obstSize: real, dr: ObstacleDraw): (ob: Obstacle)
    requires n <= |dr.us|
    ensures |ob.corner1| == n && |ob.corner2| == n
  {
    if n == 0 then Obstacle([], [])
    else
      var prev := ObstacleUpTo(n - 1, maxStepSize, obstSize, dr);
      var c := RangeStart(obstSize) + dr.us[n - 1] * (RangeEnd(obstSize) - RangeStart(obstSize));
      var extent := if n - 1 == dr.axis then ThinExtent(maxStepSize) else obstSize;
      Obstacle(prev.corner1 + [c], prev.corner2 + [c + extent])
  }

  /** Axis `d` of a constructed obstacle. */
  lemma {:induction false} ObstacleUpToAt(n: nat, maxStepSize: real, obstSize: real, dr: ObstacleDraw, d: nat)
    requires d < n <= |dr.us|
    ensures var ob := ObstacleUpTo(n, maxStepSize, obstSize, dr);
      ob.corner1[d] == RangeStart(obstSize) + dr.us[d] * (RangeEnd(obstSize) - RangeStart(obstSize)) &&
      ob.corner2[d] == ob.corner1[d] + if d == dr.axis then ThinExtent(maxStepSize) else obstSize
  {
    if d < n - 1 {
      ObstacleUpToAt(n - 1, maxStepSize, obstSize, dr, d);
    }
  }

  /** One more axis of the lower corner, its coordinate computed as the constructor does. */
  lemma LowerCornerStep(d: nat, maxStepSize: real, obstSize: real, dr: ObstacleDraw, range: real, start: real)
    requires d < |dr.us|
    requires start == RangeStart(obstSize) && range == RangeEnd(obstSize) - start
    ensures ObstacleUpTo(d + 1, maxStepSize, obstSize, dr).corner1 ==
      ObstacleUpTo(d, maxStepSize, obstSize, dr).corner1 + [dr.us[d] * range + start]
  {
    var next := ObstacleUpTo(d + 1, maxStepSize, obstSize, dr).corner1;
    assert next[..d] == ObstacleUpTo(d, maxStepSize, obstSize, dr).corner1;
    ObstacleUpToAt(d + 1, maxStepSize, obstSize, dr, d);
    assert next[d] == dr.us[d] * range + start;
  }

  /** The shape of a constructed obstacle: its extents are `obstSize` except ThinExtent on
      the drawn axis, and every lower corner coordinate lies in [RangeStart, RangeEnd). */
  lemma ObstacleOfShape(size: nat, maxStepSize: real, obstSize: real, dr: ObstacleDraw)
    requires ValidDraw(size, dr)
    ensures var dims := GetSize(ObstacleOf(size, maxStepSize, obstSize, dr));
      forall d :: 0 <= d < size ==> dims[d] == if d == dr.axis then ThinExtent(maxStepSize) else obstSize
    ensures var ob := ObstacleOf(size, maxStepSize, obstSize, dr);
      forall d :: 0 <= d < size ==>
        ob.corner1[d] == RangeStart(obstSize) + dr.us[d] * (RangeEnd(obstSize) - RangeStart(obstSize)) &&
        RangeStart(obstSize) <= ob.corner1[d] < RangeEnd(obstSize)
  {
    var ob := ObstacleOf(size, maxStepSize, obstSize, dr);
    forall d | 0 <= d < size
      ensures GetSize(ob)[d] == if d == dr.axis then ThinExtent(maxStepSize) else obstSize
    {
      ObstacleUpToAt(size, maxStepSize, obstSize, dr, d);
    }
    forall d | 0 <= d < size
      ensures ob.corner1[d] == RangeStart(obstSize) + dr.us[d] * (RangeEnd(obstSize) - RangeStart(obstSize))
      ensures RangeStart(obstSize) <= ob.corner1[d] < RangeEnd(obstSize)
    {
      ObstacleUpToAt(size, maxStepSize, obstSize, dr, d);
      CornerInRange(obstSize, dr.us[d]);
    }
  }

  /** The obstacle constructor: the extents, the dimension loop filling the lower corner,
      then the upper corner as lower corner plus extents. */
  method NewObstacle(size: nat, maxStepSize: real, obstSize: real, dr: ObstacleDraw) returns (ob: Obstacle)
    requires ValidDraw(size, dr)
    ensures ob == ObstacleOf(size, maxStepSize, obstSize, dr)
  {
    var dims := seq(size, _ => obstSize)[dr.axis := ThinExtent(maxStepSize)];
    var corner1: seq<real> := [];
    for d := 0 to size
      invariant corner1 == ObstacleUpTo(d, maxStepSize, obstSize, dr).corner1
    {
      var start, end := RangeStart(obstSize), RangeEnd(obstSize);
      var range := end - start;
      LowerCornerStep(d, maxStepSize, obstSize, dr, range, start);
      corner1 := corner1 + [dr.us[d] * range + start];
    }
    var corner2 := seq(size, d requires 0 <= d < size => corner1[d] + dims[d]);
    ghost var target := ObstacleOf(size, maxStepSize, obstSize, dr);
    forall d | 0 <= d < size
      ensures corner2[d] == target.corner2[d]
    {
      ObstacleUpToAt(size, maxStepSize, obstSize, dr, d);
    }
    ob := Obstacle(corner1, corner2);
  }

  /** The range of the corner coordinate is always of width 1. */
  lemma CornerInRange(obstSize: real, u: real)
    requires 0.0 <= u < 1.0
    ensures var c := RangeStart(obstSize) + u * (RangeEnd(obstSize) - RangeStart(obstSize));
      RangeEnd(obstSize) - RangeStart(obstSize) == 1.0 && RangeStart(obstSize) <= c < RangeEnd(obstSize)
  {
  }

  /** The extent of the obstacle along every axis, corner2 - corner1. */
  function GetSize(ob: Obstacle): (dims: seq<real>)
    requires |ob.corner1| == |ob.corner2|
    ensures |dims| == |ob.corner1|
    ensures forall d :: 0 <= d < |dims| ==> ob.corner1[d] + dims[d] == ob.corner2[d]
  {
    seq(|ob.corner1|, d requires 0 <= d < |ob.corner1| => ob.corner2[d] - ob.corner1[d])
  }

  /** Whether the first `size` coordinates of `p` lie in the box, both bounds included: the
      loop over the dimensions, which stops at the first coordinate below corner1 or above
      corner2. */
  function Collision(size: nat, ob: Obstacle, p: seq<real>): (c: bool)
    requires |ob.corner1| >= size && |ob.corner2| >= size && |p| >= size
    ensures c <==> forall d :: 0 <= d < size ==> ob.corner1[d] <= p[d] <= ob.corner2[d]
  {
    CollisionFrom(size, ob, p, 0)
  }

  /** The dimension loop of Collision from dimension `d` on. */
  function CollisionFrom(size: nat, ob: Obstacle, p: seq<real>, d: nat): (c: bool)
    requires |ob.corner1| >= size && |ob.corner2| >= size && |p| >= size && d <= size
    ensures c <==> forall e :: d <= e < size ==> ob.corner1[e] <= p[e] <= ob.corner2[e]
    decreases size - d
  {
    if d == size then true
    else if p[d] < ob.corner1[d] || p[d] > ob.corner2[d] then false
    else CollisionFrom(size, ob, p, d + 1)
  }
}
