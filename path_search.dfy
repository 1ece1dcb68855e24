/** The bidirectional breadth-first search of the path estimate, over flat cell indices with
    an occlusion bit set: covered bit sets and front lists for the start side and the goal
    side, expanded alternately until they meet or one front is empty. Every method is
    proved against the reference semantics in SearchSpec on the grid graph of GridGraph. */
module PathSearch {
  import opened Grid
  import opened SearchSpec
  import opened GridGraph

  /** A reached grid cell: its coordinates and its flat index. */
  datatype Point = Point(indices: seq<int>, index: int)

  ghost predicate ValidPoint(sh: Shape, p: Point)
    requires ValidShape(sh)
  {
    IsCell(sh, p.index) && p.indices == Digits(p.index, sh.n, sh.g)
  }

  ghost predicate ValidPoints(sh: Shape, ps: seq<Point>)
    requires ValidShape(sh)
  {
    forall i :: 0 <= i < |ps| ==> ValidPoint(sh, ps[i])
  }

  /** The flat indices held by a front list. */
  function Indices(ps: seq<Point>): set<int> {
    if |ps| == 0 then {} else Indices(ps[..|ps| - 1]) + {ps[|ps| - 1].index}
  }

  lemma IndicesAppend(ps: seq<Point>, p: Point)
    ensures Indices(ps + [p]) == Indices(ps) + {p.index}
  {
    assert (ps + [p])[..|ps|] == ps;
  }

  lemma IndicesPrefix(ps: seq<Point>, i: nat)
    requires i < |ps|
    ensures Indices(ps[..i + 1]) == Indices(ps[..i]) + {ps[i].index}
  {
    assert ps[..i + 1][..i] == ps[..i];
  }

  /** A front list is empty exactly when it holds no index. */
  lemma IndicesEmpty(ps: seq<Point>)
    ensures Indices(ps) == {} <==> ps == []
  {
    if |ps| > 0 {
      assert ps[|ps| - 1].index in Indices(ps);
    }
  }

  /** The bit set `a` holds exactly the cells of `S`. */
  ghost predicate Covers(a: array<bool>, S: set<int>)
    reads a
  {
    (forall i :: 0 <= i < a.Length ==> (a[i] <==> i in S)) &&
    (forall i :: i in S ==> 0 <= i < a.Length)
  }

  /** `strides[d]` is the flat-index distance of one step along axis `d`. */
  ghost predicate IsStrides(sh: Shape, strides: array<int>)
    reads strides
  {
    strides.Length == sh.n && forall d :: 0 <= d < sh.n ==> strides[d] == Stride(sh, d)
  }

  /** The arrays one expansion works on: the occlusion bit set, the stride table, the
      covered bit set it extends and the other side's covered bit set it tests against. */
  ghost predicate Arrays(sh: Shape, occ: array<bool>, strides: array<int>, covered: array<bool>, other: array<bool>)
    reads strides
  {
    ValidShape(sh) && occ.Length == CellCount(sh) && covered.Length == CellCount(sh) &&
    other.Length == CellCount(sh) && covered != occ && covered != other && IsStrides(sh, strides)
  }

  // ---------------------------------------------------------------------------
  // One neighbour, one point, one front

  /** The body of the offset loop: look at the neighbour of `p` one step `offset` along axis
      `d`. The search stops when it is covered by the other side; otherwise, if it is new, it
      is covered and appended to the next front. `K` is what this side has covered so far,
      `C` what it had covered before this expansion. */
  method Visit(sh: Shape, occ: array<bool>, strides: array<int>, p: Point, d: nat, offset: int,
               covered: array<bool>, other: array<bool>, next: seq<Point>,
               ghost o: seq<bool>, ghost C: set<int>, ghost K: set<int>, ghost O: set<int>)
      returns (hit: bool, next': seq<Point>)
    requires Arrays(sh, occ, strides, covered, other) && o == occ[..]
    requires d < sh.n && (offset == -1 || offset == 1)
    requires ValidPoint(sh, p) && ValidPoints(sh, next)
    requires Covers(covered, K) && Covers(other, O) && C <= K && Indices(next) == K - C
    modifies covered
    ensures var A := OffsetEnterable(sh, o, p.index, d, offset);
      (hit <==> A * O != {}) &&
      (!hit ==> Covers(covered, K + A) && Indices(next') == (K + A) - C && ValidPoints(sh, next'))
  {
    hit, next' := false, next;
    var newCoord := p.indices[d] + offset;
    if !(0 <= newCoord < sh.g) {
      NeighbourOutside(sh, o, p, d, offset);
      return;
    }
    var neighbourIndex := p.index + offset * strides[d];
    NeighbourInGrid(sh, o, p, d, offset);
    hit, next' := VisitCell(sh, occ, p.indices, d, newCoord, neighbourIndex, covered, other, next, C, K, O);
  }

  /** Visit once the neighbour `y`, at coordinate `c` along axis `d` from `indices`, is known
      to be a grid cell. */
  method VisitCell(sh: Shape, occ: array<bool>, indices: seq<int>, d: nat, c: int, y: int,
                   covered: array<bool>, other: array<bool>, next: seq<Point>,
                   ghost C: set<int>, ghost K: set<int>, ghost O: set<int>)
      returns (hit: bool, next': seq<Point>)
    requires ValidShape(sh) && d < |indices| && ValidPoint(sh, Point(indices[d := c], y))
    requires y < occ.Length && y < covered.Length && y < other.Length && covered != other
    requires ValidPoints(sh, next)
    requires Covers(covered, K) && Covers(other, O) && C <= K && Indices(next) == K - C
    modifies covered
    ensures var A := if old(occ[y]) then {} else {y};
      (hit <==> A * O != {}) &&
      (!hit ==> Covers(covered, K + A) && Indices(next') == (K + A) - C && ValidPoints(sh, next'))
  {
    hit, next' := false, next;
    if occ[y] {
      return;
    }
    if other[y] {
      assert y in {y} * O;
      return true, next';
    }
    if !covered[y] {
      Cover(covered, y, K);
      var neighbour := Point(indices[d := c], y);
      FrontAppend(sh, next, neighbour, C, K);
      next' := next + [neighbour];
    } else {
      assert K + {y} == K;
    }
  }

  /** Appending a newly covered cell to the next front keeps it equal to the new cells. */
  lemma FrontAppend(sh: Shape, next: seq<Point>, p: Point, C: set<int>, K: set<int>)
    requires ValidShape(sh) && ValidPoints(sh, next) && ValidPoint(sh, p)
    requires C <= K && Indices(next) == K - C && p.index !in K
    ensures Indices(next + [p]) == (K + {p.index}) - C && ValidPoints(sh, next + [p])
  {
    IndicesAppend(next, p);
  }

  /** Setting one more bit of a covered bit set. */
  method Cover(covered: array<bool>, y: int, ghost K: set<int>)
    requires Covers(covered, K) && 0 <= y < covered.Length
    modifies covered
    ensures Covers(covered, K + {y})
  {
    covered[y] := true;
  }

  /** An in-range step: the index rule gives a cell, the new point is valid, and the search
      may enter it exactly when it is unoccluded. */
  lemma NeighbourInGrid(sh: Shape, occ: seq<bool>, p: Point, d: nat, offset: int)
    requires ValidShape(sh) && |occ| == CellCount(sh) && ValidPoint(sh, p) && d < sh.n
    requires 0 <= p.indices[d] + offset < sh.g
    ensures var y := p.index + offset * Stride(sh, d);
      IsCell(sh, y) && ValidPoint(sh, Point(p.indices[d := p.indices[d] + offset], y)) &&
      OffsetEnterable(sh, occ, p.index, d, offset) == if occ[y] then {} else {y}
  {
    AxisNeighbourFlatten(sh, p.index, d, offset);
  }

  /** A step off the grid enters nothing. */
  lemma NeighbourOutside(sh: Shape, occ: seq<bool>, p: Point, d: nat, offset: int)
    requires ValidShape(sh) && ValidPoint(sh, p) && d < sh.n
    requires !(0 <= p.indices[d] + offset < sh.g)
    ensures OffsetEnterable(sh, occ, p.index, d, offset) == {}
  {
  }

  /** Each neighbour along an axis that the search may enter is an edge of the searched graph. */
  lemma AxisInGraph(sh: Shape, occ: seq<bool>, x: nat, d: nat)
    requires ValidShape(sh) && d < sh.n
    ensures AxisEnterable(sh, occ, x, d) <= EnterableUpTo(sh, occ, x, sh.n)
  {
    forall y | y in AxisEnterable(sh, occ, x, d) ensures y in EnterableUpTo(sh, occ, x, sh.n) {
      var off := if y in OffsetEnterable(sh, occ, x, d, -1) then -1 else 1;
      OffsetEnterableMember(sh, occ, x, d, off, y);
      AxisInGrid(sh, x, sh.n, d, y);
      EnterableUpToMember(sh, occ, x, sh.n, y);
    }
  }

  /** The loop over axes for one front point: all its unoccluded neighbours are looked at,
      axis by axis. */
  method ExpandPoint(sh: Shape, occ: array<bool>, strides: array<int>, p: Point,
                     covered: array<bool>, other: array<bool>, next: seq<Point>,
                     ghost o: seq<bool>, ghost C: set<int>, ghost K: set<int>, ghost O: set<int>)
      returns (hit: bool, next': seq<Point>)
    requires Arrays(sh, occ, strides, covered, other) && o == occ[..]
    requires ValidPoint(sh, p) && ValidPoints(sh, next)
    requires Covers(covered, K) && Covers(other, O) && C <= K && Indices(next) == K - C
    modifies covered
    ensures var E := EnterableUpTo(sh, o, p.index, sh.n);
      (hit <==> E * O != {}) &&
      (!hit ==> Covers(covered, K + E) && Indices(next') == (K + E) - C && ValidPoints(sh, next'))
  {
    hit, next' := false, next;
    ghost var D: set<int> := {};
    EnterableZero(sh, o, p.index);
    for d := 0 to sh.n
      invariant D == EnterableUpTo(sh, o, p.index, d) && D * O == {}
      invariant Covers(covered, K + D) && Indices(next') == (K + D) - C && ValidPoints(sh, next')
    {
      ghost var KD, A := K + D, AxisEnterable(sh, o, p.index, d);
      var h, nx := ExpandAxis(sh, occ, strides, p, d, covered, other, next', o, C, KD, O);
      EnterableSucc(sh, o, p.index, d);
      if h {
        AxisInGraph(sh, o, p.index, d);
        return true, nx;
      }
      next' := nx;
      assert KD + A == K + (D + A);
      D := D + A;
    }
  }

  /** The loop over the two offsets along axis `d`, the lower neighbour first. */
  method ExpandAxis(sh: Shape, occ: array<bool>, strides: array<int>, p: Point, d: nat,
                    covered: array<bool>, other: array<bool>, next: seq<Point>,
                    ghost o: seq<bool>, ghost C: set<int>, ghost K: set<int>, ghost O: set<int>)
      returns (hit: bool, next': seq<Point>)
    requires Arrays(sh, occ, strides, covered, other) && o == occ[..] && d < sh.n
    requires ValidPoint(sh, p) && ValidPoints(sh, next)
    requires Covers(covered, K) && Covers(other, O) && C <= K && Indices(next) == K - C
    modifies covered
    ensures var A := AxisEnterable(sh, o, p.index, d);
      (hit <==> A * O != {}) &&
      (!hit ==> Covers(covered, K + A) && Indices(next') == (K + A) - C && ValidPoints(sh, next'))
  {
    hit, next' := false, next;
    var offset := -1;
    ghost var A: set<int> := {};
    while offset <= 1
      invariant offset == -1 || offset == 1 || offset == 3
      invariant A == if offset == -1 then {}
                     else if offset == 1 then OffsetEnterable(sh, o, p.index, d, -1)
                     else AxisEnterable(sh, o, p.index, d)
      invariant A * O == {}
      invariant Covers(covered, K + A) && Indices(next') == (K + A) - C && ValidPoints(sh, next')
    {
      var h, nx := Visit(sh, occ, strides, p, d, offset, covered, other, next', o, C, K + A, O);
      if h {
        return true, nx;
      }
      next' := nx;
      A := A + OffsetEnterable(sh, o, p.index, d, offset);
      offset := offset + 2;
    }
  }

  /** Expanding a front of cells one cell at a time. */
  lemma ExpandAddCell(adj: seq<set<int>>, S: set<int>, x: int)
    requires 0 <= x < |adj|
    ensures Expand(adj, S + {x}) == Expand(adj, S) + adj[x]
  {
    ExpandUnion(adj, S, {x});
    ExpandSingleton(adj, x);
  }

  lemma IndicesHas(ps: seq<Point>, i: nat)
    requires i < |ps|
    ensures ps[i].index in Indices(ps)
    decreases |ps|
  {
    if i < |ps| - 1 {
      assert ps[..|ps| - 1][i] == ps[i];
      IndicesHas(ps[..|ps| - 1], i);
    }
  }

  /** The loop over a front list: every point of `front` is expanded in turn. With `C` the
      cells this side covered before, and `O` the other side's: the fronts meet exactly when
      some cell entered from the front is covered by the other side; otherwise the covered
      set grows by everything entered and the next front holds exactly the new cells. */
  method ExpandFront(sh: Shape, occ: array<bool>, strides: array<int>, front: seq<Point>,
                     covered: array<bool>, other: array<bool>, ghost o: seq<bool>, ghost C: set<int>, ghost O: set<int>)
      returns (hit: bool, next: seq<Point>)
    requires Arrays(sh, occ, strides, covered, other) && o == occ[..]
    requires ValidPoints(sh, front) && Covers(covered, C) && Covers(other, O)
    modifies covered
    ensures var E := Expand(Graph(sh, o), Indices(front));
      (hit <==> E * O != {}) &&
      (!hit ==> Covers(covered, C + E) && Indices(next) == E - C && ValidPoints(sh, next))
  {
    ghost var adj := Graph(sh, o);
    hit, next := false, [];
    ghost var K := C;
    assert front[..0] == [];
    ExpandBelowEmpty(adj, |adj|);
    for i := 0 to |front|
      invariant K == C + Expand(adj, Indices(front[..i])) && Expand(adj, Indices(front[..i])) * O == {}
      invariant Covers(covered, K) && Indices(next) == K - C && ValidPoints(sh, next)
    {
      var p := front[i];
      var h, nx := ExpandPoint(sh, occ, strides, p, covered, other, next, o, C, K, O);
      IndicesPrefix(front, i);
      ExpandAddCell(adj, Indices(front[..i]), p.index);
      if h {
        IndicesHas(front, i);
        ExpandMono(adj, {p.index}, Indices(front));
        ExpandSingleton(adj, p.index);
        return true, nx;
      }
      next := nx;
      K := K + adj[p.index];
    }
    assert front[..|front|] == front;
  }

  lemma {:induction false} ExpandBelowEmpty(adj: seq<set<int>>, n: nat)
    requires n <= |adj|
    ensures ExpandBelow(adj, {}, n) == {}
  {
    if n > 0 {
      ExpandBelowEmpty(adj, n - 1);
    }
  }

  /** Cells other than the seed that a side has covered are unoccluded. */
  lemma BallFree(adj: seq<set<int>>, occ: seq<bool>, a: int, r: nat)
    requires Closed(adj) && EntersFree(adj, occ) && 0 <= a < |adj|
    ensures forall x :: x in Ball(adj, a, r) && x != a ==> Free(occ, x)
  {
    forall x | x in Ball(adj, a, r) && x != a ensures Free(occ, x) {
      BallCells(adj, occ, a, r, x);
    }
  }

  // ---------------------------------------------------------------------------
  // The search

  /** Seeding one side: its covered bit set holds just the seed cell, and so does its front. */
  method Seed(sh: Shape, indices: seq<int>) returns (covered: array<bool>, front: seq<Point>)
    requires ValidShape(sh) && |indices| == sh.n && InRange(indices, sh.g)
    ensures fresh(covered) && covered.Length == CellCount(sh)
    ensures Covers(covered, {Flatten(indices, sh.g)})
    ensures Indices(front) == {Flatten(indices, sh.g)} && ValidPoints(sh, front)
  {
    FlattenBounds(indices, sh.g);
    DigitsOfFlatten(indices, sh.g);
    covered := new bool[Pow(sh.g, sh.n)](_ => false);
    var idx := Flatten(indices, sh.g);
    covered[idx] := true;
    front := [Point(indices, idx)];
    assert front[..0] == [];
  }

  /** The stride table: strides[d] = g^(n-d-1). */
  method MakeStrides(sh: Shape) returns (strides: array<int>)
    requires ValidShape(sh)
    ensures fresh(strides) && IsStrides(sh, strides)
  {
    strides := new int[sh.n];
    for d := 0 to sh.n
      invariant forall e :: 0 <= e < d ==> strides[e] == Stride(sh, e)
    {
      strides[d] := Pow(sh.g, sh.n - d - 1);
    }
  }

  /** What the side grown from `a` holds after `r` rounds: its covered cells and its front. */
  ghost predicate SideAt(adj: seq<set<int>>, a: int, r: nat, covered: array<bool>, front: seq<Point>)
    reads covered
  {
    Covers(covered, Ball(adj, a, r)) && Indices(front) == Front(adj, a, r)
  }

  /** One pass of the do-while: the start front is expanded and tested against the goal
      side, then the goal front against the grown start side. */
  method ExpandBothSides(sh: Shape, occ: array<bool>, strides: array<int>,
               startFront: seq<Point>, goalFront: seq<Point>, startCovered: array<bool>, goalCovered: array<bool>,
               ghost adj: seq<set<int>>, ghost s: int, ghost t: int, ghost r: nat)
      returns (startHit: bool, goalHit: bool, startNext: seq<Point>, goalNext: seq<Point>)
    requires Arrays(sh, occ, strides, startCovered, goalCovered) && Arrays(sh, occ, strides, goalCovered, startCovered)
    requires adj == Graph(sh, occ[..])
    requires SideAt(adj, s, r, startCovered, startFront) && SideAt(adj, t, r, goalCovered, goalFront)
    requires ValidPoints(sh, startFront) && ValidPoints(sh, goalFront)
    modifies startCovered, goalCovered
    ensures startHit <==> StartHit(adj, s, t, r)
    ensures !startHit ==> (goalHit <==> GoalHit(adj, s, t, r))
    ensures !startHit && !goalHit ==>
      SideAt(adj, s, r + 1, startCovered, startNext) && SideAt(adj, t, r + 1, goalCovered, goalNext) &&
      ValidPoints(sh, startNext) && ValidPoints(sh, goalNext)
  {
    goalHit, goalNext := false, [];
    startHit, startNext := ExpandFront(sh, occ, strides, startFront, startCovered, goalCovered, occ[..],
                                       Ball(adj, s, r), Ball(adj, t, r));
    if startHit {
      return;
    }
    BallStep(adj, s, r);
    goalHit, goalNext := ExpandFront(sh, occ, strides, goalFront, goalCovered, startCovered, occ[..],
                                     Ball(adj, t, r), Ball(adj, s, r + 1));
    if goalHit {
      return;
    }
    BallStep(adj, t, r);
  }

  /** The reference outcome, one round at a time. */
  lemma OutcomeUnfold(adj: seq<set<int>>, s: int, t: int, r: nat)
    requires Searchable(adj, s, t)
    ensures Outcome(adj, s, t, r) ==
      if StartHit(adj, s, t, r) then 2 * r + 1
      else if GoalHit(adj, s, t, r) then 2 * r + 2
      else if Stalled(adj, s, t, r + 1) then -1
      else Outcome(adj, s, t, r + 1)
  {
  }

  /** No cell is covered by both sides. */
  ghost predicate Disjoint(a: array<bool>, b: array<bool>)
    reads a, b
  {
    forall i :: 0 <= i < a.Length && i < b.Length ==> !(a[i] && b[i])
  }

  /** Every covered cell other than the seed is unoccluded. */
  ghost predicate CoveredFree(occ: array<bool>, a: array<bool>, seed: int)
    reads occ, a
  {
    forall i :: 0 <= i < a.Length && a[i] && i != seed ==> 0 <= i < occ.Length && !occ[i]
  }

  /** The state of the do-while at the top of round `r`: each side holds the cells within `r`
      moves of its seed and its front holds the cells first reached in round `r`; with distinct
      seeds the two sides are disjoint; covered cells other than the seeds are unoccluded. */
  ghost predicate Searching(sh: Shape, occ: array<bool>, adj: seq<set<int>>, s: int, t: int, r: nat,
                            startCovered: array<bool>, goalCovered: array<bool>,
                            startFront: seq<Point>, goalFront: seq<Point>)
    requires ValidShape(sh)
    reads occ, startCovered, goalCovered
  {
    SideAt(adj, s, r, startCovered, startFront) && SideAt(adj, t, r, goalCovered, goalFront) &&
    ValidPoints(sh, startFront) && ValidPoints(sh, goalFront) &&
    (s != t ==> Ball(adj, s, r) * Ball(adj, t, r) == {} && Disjoint(startCovered, goalCovered)) &&
    CoveredFree(occ, startCovered, s) && CoveredFree(occ, goalCovered, t)
  }

  /** Bit sets of disjoint sets share no bit. */
  lemma CoversDisjoint(a: array<bool>, b: array<bool>, A: set<int>, B: set<int>)
    requires Covers(a, A) && Covers(b, B) && A * B == {}
    ensures Disjoint(a, b)
  {
    forall i | 0 <= i < a.Length && i < b.Length ensures !(a[i] && b[i]) {
      assert i !in A * B;
    }
  }

  /** Covered cells other than the seed are unoccluded. */
  lemma CoversFree(sh: Shape, occ: array<bool>, a: array<bool>, s: int, r: nat)
    requires ValidShape(sh) && occ.Length == CellCount(sh) && 0 <= s < CellCount(sh)
    requires Covers(a, Ball(Graph(sh, occ[..]), s, r))
    ensures CoveredFree(occ, a, s)
  {
    GraphAssumptions(sh, occ[..]);
    BallFree(Graph(sh, occ[..]), occ[..], s, r);
  }

  /** The search state before the first round. */
  lemma SearchStart(sh: Shape, occ: array<bool>, adj: seq<set<int>>, s: int, t: int,
                    startCovered: array<bool>, goalCovered: array<bool>,
                    startFront: seq<Point>, goalFront: seq<Point>)
    requires ValidShape(sh) && occ.Length == CellCount(sh) && adj == Graph(sh, occ[..])
    requires 0 <= s < CellCount(sh) && 0 <= t < CellCount(sh)
    requires Covers(startCovered, {s}) && Indices(startFront) == {s} && ValidPoints(sh, startFront)
    requires Covers(goalCovered, {t}) && Indices(goalFront) == {t} && ValidPoints(sh, goalFront)
    ensures Searchable(adj, s, t)
    ensures Searching(sh, occ, adj, s, t, 0, startCovered, goalCovered, startFront, goalFront)
  {
    GraphAssumptions(sh, occ[..]);
    assert Ball(adj, s, 0) == {s} && Ball(adj, t, 0) == {t};
    if s != t {
      CoversDisjoint(startCovered, goalCovered, {s}, {t});
    }
    CoversFree(sh, occ, startCovered, s, 0);
    CoversFree(sh, occ, goalCovered, t, 0);
  }

  /** A round without a meeting and with both new fronts non-empty leads to the state of the
      next round, with the same outcome still ahead and strictly more cells on the start side. */
  lemma SearchStep(sh: Shape, occ: array<bool>, adj: seq<set<int>>, s: int, t: int, r: nat,
                   startCovered: array<bool>, goalCovered: array<bool>,
                   startFront: seq<Point>, goalFront: seq<Point>)
    requires ValidShape(sh) && occ.Length == CellCount(sh) && adj == Graph(sh, occ[..])
    requires Searchable(adj, s, t) && (s != t ==> Ball(adj, s, r) * Ball(adj, t, r) == {})
    requires !StartHit(adj, s, t, r) && !GoalHit(adj, s, t, r) && !Stalled(adj, s, t, r + 1)
    requires SideAt(adj, s, r + 1, startCovered, startFront) && SideAt(adj, t, r + 1, goalCovered, goalFront)
    requires ValidPoints(sh, startFront) && ValidPoints(sh, goalFront)
    ensures Searching(sh, occ, adj, s, t, r + 1, startCovered, goalCovered, startFront, goalFront)
    ensures Outcome(adj, s, t, r) == Outcome(adj, s, t, r + 1)
    ensures |Ball(adj, s, r)| < |Ball(adj, s, r + 1)| <= |adj|
  {
    OutcomeUnfold(adj, s, t, r);
    BallGrows(adj, s, r);
    if s != t {
      RoundMeets(adj, s, t, r);
      RoundNext(adj, s, t, r);
      CoversDisjoint(startCovered, goalCovered, Ball(adj, s, r + 1), Ball(adj, t, r + 1));
    }
    CoversFree(sh, occ, startCovered, s, r + 1);
    CoversFree(sh, occ, goalCovered, t, r + 1);
  }

  /** One pass of the do-while with its exit test. With `length` = 2r+1 on entry: `done` with
      `result` 2r+1 or 2r+2 when the sides meet and -1 when a new front is empty, matching the
      reference outcome from round r; otherwise `result` is the length 2r+3 the next round
      starts with and the state is that of round r+1. */
  method SearchRound(sh: Shape, occ: array<bool>, strides: array<int>,
                     startFront: seq<Point>, goalFront: seq<Point>, startCovered: array<bool>, goalCovered: array<bool>,
                     length: int, ghost adj: seq<set<int>>, ghost s: int, ghost t: int, ghost r: nat)
      returns (done: bool, result: int, startNext: seq<Point>, goalNext: seq<Point>)
    requires Arrays(sh, occ, strides, startCovered, goalCovered) && Arrays(sh, occ, strides, goalCovered, startCovered)
    requires adj == Graph(sh, occ[..]) && Searchable(adj, s, t) && length == 2 * r + 1
    requires Searching(sh, occ, adj, s, t, r, startCovered, goalCovered, startFront, goalFront)
    modifies startCovered, goalCovered
    ensures done ==> result == Outcome(adj, s, t, r)
    ensures !done ==> result == 2 * (r + 1) + 1 && Outcome(adj, s, t, r) == Outcome(adj, s, t, r + 1)
    ensures !done ==> Searching(sh, occ, adj, s, t, r + 1, startCovered, goalCovered, startNext, goalNext)
    ensures !done ==> |Ball(adj, s, r)| < |Ball(adj, s, r + 1)| <= |adj|
  {
    OutcomeUnfold(adj, s, t, r);
    var startHit, goalHit;
    startHit, goalHit, startNext, goalNext :=
      ExpandBothSides(sh, occ, strides, startFront, goalFront, startCovered, goalCovered, adj, s, t, r);
    if startHit {
      return true, length, startNext, goalNext;
    }
    result := length + 1;
    if goalHit {
      return true, result, startNext, goalNext;
    }
    result := result + 1;
    IndicesEmpty(startNext);
    IndicesEmpty(goalNext);
    if startNext == [] || goalNext == [] {
      return true, -1, startNext, goalNext;
    }
    SearchStep(sh, occ, adj, s, t, r, startCovered, goalCovered, startNext, goalNext);
    done := false;
  }

  /** The search between the grid cells with coordinates `sIdx` and `tIdx`: the number of
      expansions after which the two sides met, or -1 once either front is empty. */
  method FindPathLength(sh: Shape, occ: array<bool>, sIdx: seq<int>, tIdx: seq<int>) returns (length: int)
    requires ValidShape(sh) && occ.Length == CellCount(sh)
    requires |sIdx| == sh.n && InRange(sIdx, sh.g) && |tIdx| == sh.n && InRange(tIdx, sh.g)
    ensures (FlattenBounds(sIdx, sh.g); FlattenBounds(tIdx, sh.g);
      length == GridOutcome(sh, occ[..], Flatten(sIdx, sh.g), Flatten(tIdx, sh.g)))
  {
    ghost var adj := Graph(sh, occ[..]);
    ghost var s, t := Flatten(sIdx, sh.g), Flatten(tIdx, sh.g);
    FlattenBounds(sIdx, sh.g);
    FlattenBounds(tIdx, sh.g);
    var startCovered, startFront := Seed(sh, sIdx);
    var goalCovered, goalFront := Seed(sh, tIdx);
    var strides := MakeStrides(sh);
    SearchStart(sh, occ, adj, s, t, startCovered, goalCovered, startFront, goalFront);
    length := Search(sh, occ, strides, startFront, goalFront, startCovered, goalCovered, adj, s, t);
  }

  /** The do-while of the search, from seeded sides. */
  method Search(sh: Shape, occ: array<bool>, strides: array<int>,
                startFront: seq<Point>, goalFront: seq<Point>, startCovered: array<bool>, goalCovered: array<bool>,
                ghost adj: seq<set<int>>, ghost s: int, ghost t: int) returns (length: int)
    requires Arrays(sh, occ, strides, startCovered, goalCovered) && Arrays(sh, occ, strides, goalCovered, startCovered)
    requires adj == Graph(sh, occ[..]) && Searchable(adj, s, t)
    requires Searching(sh, occ, adj, s, t, 0, startCovered, goalCovered, startFront, goalFront)
    modifies startCovered, goalCovered
    ensures length == Outcome(adj, s, t, 0)
  {
    var pointCount := |occ[..]|;
    var startFront, goalFront := startFront, goalFront;
    length := 1;
    ghost var r: nat := 0;
    while true
      invariant Arrays(sh, occ, strides, startCovered, goalCovered)
      invariant Arrays(sh, occ, strides, goalCovered, startCovered)
      invariant Searching(sh, occ, adj, s, t, r, startCovered, goalCovered, startFront, goalFront)
      invariant length == 2 * r + 1 && Outcome(adj, s, t, 0) == Outcome(adj, s, t, r)
      decreases pointCount - |Ball(adj, s, r)|
    {
      var done, result;
      done, result, startFront, goalFront :=
        SearchRound(sh, occ, strides, startFront, goalFront, startCovered, goalCovered, length, adj, s, t, r);
      if done {
        return result;
      }
      length := result;
      r := r + 1;
    }
  }
}
