/** The search grid as a graph: cells 0 .. g^n - 1, two cells adjacent when they differ by one
    step along one axis, and a search front entering only unoccluded cells. This is the
    instance of the generic search semantics that the path estimate runs on. */
module GridGraph {
  import opened Grid
  import opened SearchSpec
  import opened Walks

  /** `n` axes with `g` grid points each. */
  datatype Shape = Shape(n: nat, g: nat)

  predicate ValidShape(sh: Shape) {
    sh.g >= 1
  }

  /** Number of grid cells, g^n. */
  function CellCount(sh: Shape): nat {
    Pow(sh.g, sh.n)
  }

  predicate IsCell(sh: Shape, x: int) {
    0 <= x < CellCount(sh)
  }

  /** The coordinate of cell `x` along axis `d`. */
  function Coord(sh: Shape, x: nat, d: nat): int
    requires ValidShape(sh) && d < sh.n
  {
    Digits(x, sh.n, sh.g)[d]
  }

  /** The flat-index distance of one step along axis `d`: g^(n-d-1). */
  function Stride(sh: Shape, d: nat): nat
    requires d < sh.n
  {
    Pow(sh.g, sh.n - 1 - d)
  }

  /** The cell one step from `x` along axis `d` in direction `off` (-1 or +1), if that stays
      inside the grid. */
  function OffsetNeighbour(sh: Shape, x: nat, d: nat, off: int): set<int>
    requires ValidShape(sh) && d < sh.n
  {
    var c := Coord(sh, x, d) + off;
    if 0 <= c < sh.g then {x + off * Stride(sh, d)} else {}
  }

  /** Grid neighbours of `x` along axis `d`. */
  function AxisNeighbours(sh: Shape, x: nat, d: nat): set<int>
    requires ValidShape(sh) && d < sh.n
  {
    OffsetNeighbour(sh, x, d, -1) + OffsetNeighbour(sh, x, d, 1)
  }

  /** Grid neighbours of `x` along the axes 0 .. k-1. */
  function GridNeighbours(sh: Shape, x: nat, k: nat): set<int>
    requires ValidShape(sh) && k <= sh.n
  {
    NeighboursInto(sh, x, k, {})
  }

  /** `acc` together with the neighbours of `x` along the axes k-1 down to 0. */
  function NeighboursInto(sh: Shape, x: nat, k: nat, acc: set<int>): set<int>
    requires ValidShape(sh) && k <= sh.n
  {
    if k == 0 then acc else NeighboursInto(sh, x, k - 1, acc + AxisNeighbours(sh, x, k - 1))
  }

  /** The cell one step from `x` along axis `d` in direction `off`, if that stays inside the
      grid and is unoccluded: the two tests the search makes before looking at a neighbour. */
  function OffsetEnterable(sh: Shape, occ: seq<bool>, x: nat, d: nat, off: int): set<int>
    requires ValidShape(sh) && d < sh.n
  {
    var c := Coord(sh, x, d) + off;
    if 0 <= c < sh.g && Free(occ, x + off * Stride(sh, d)) then {x + off * Stride(sh, d)} else {}
  }

  /** Unoccluded grid neighbours of `x` along axis `d`, the lower one first as the search visits them. */
  function AxisEnterable(sh: Shape, occ: seq<bool>, x: nat, d: nat): set<int>
    requires ValidShape(sh) && d < sh.n
  {
    OffsetEnterable(sh, occ, x, d, -1) + OffsetEnterable(sh, occ, x, d, 1)
  }

  /** Unoccluded grid neighbours of `x` along the axes 0 .. k-1. */
  function EnterableUpTo(sh: Shape, occ: seq<bool>, x: nat, k: nat): set<int>
    requires ValidShape(sh) && k <= sh.n
  {
    EnterableInto(sh, occ, x, k, {})
  }

  /** `acc` together with the unoccluded neighbours of `x` along the axes k-1 down to 0. */
  function EnterableInto(sh: Shape, occ: seq<bool>, x: nat, k: nat, acc: set<int>): set<int>
    requires ValidShape(sh) && k <= sh.n
  {
    if k == 0 then acc else EnterableInto(sh, occ, x, k - 1, acc + AxisEnterable(sh, occ, x, k - 1))
  }

  /** The grid without obstacles: each cell's grid neighbours. */
  function RawGraph(sh: Shape): (nbr: seq<set<int>>)
    requires ValidShape(sh)
    ensures |nbr| == CellCount(sh)
  {
    seq(CellCount(sh), x requires 0 <= x => GridNeighbours(sh, x, sh.n))
  }

  /** The grid the search runs on: from each cell, its unoccluded grid neighbours. */
  function Graph(sh: Shape, occ: seq<bool>): (adj: seq<set<int>>)
    requires ValidShape(sh)
    ensures |adj| == CellCount(sh)
  {
    seq(CellCount(sh), x requires 0 <= x => EnterableUpTo(sh, occ, x, sh.n))
  }

  // ---------------------------------------------------------------------------
  // Neighbour indices

  lemma OffsetEnterableMember(sh: Shape, occ: seq<bool>, x: nat, d: nat, off: int, y: int)
    requires ValidShape(sh) && d < sh.n
    ensures y in OffsetEnterable(sh, occ, x, d, off) <==> y in OffsetNeighbour(sh, x, d, off) && Free(occ, y)
  {
  }

  lemma {:induction false} NeighboursIntoShift(sh: Shape, x: nat, k: nat, acc: set<int>)
    requires ValidShape(sh) && k <= sh.n
    ensures NeighboursInto(sh, x, k, acc) == acc + NeighboursInto(sh, x, k, {})
  {
    if k > 0 {
      var A := AxisNeighbours(sh, x, k - 1);
      NeighboursIntoShift(sh, x, k - 1, acc + A);
      NeighboursIntoShift(sh, x, k - 1, {} + A);
      assert {} + A == A;
    }
  }

  /** Adding one axis adds its neighbours. */
  lemma GridNeighboursSucc(sh: Shape, x: nat, k: nat)
    requires ValidShape(sh) && k < sh.n
    ensures GridNeighbours(sh, x, k + 1) == GridNeighbours(sh, x, k) + AxisNeighbours(sh, x, k)
  {
    NeighboursIntoShift(sh, x, k, {} + AxisNeighbours(sh, x, k));
  }

  lemma GridNeighboursZero(sh: Shape, x: nat)
    requires ValidShape(sh)
    ensures GridNeighbours(sh, x, 0) == {}
  {
  }

  lemma {:induction false} EnterableIntoShift(sh: Shape, occ: seq<bool>, x: nat, k: nat, acc: set<int>)
    requires ValidShape(sh) && k <= sh.n
    ensures EnterableInto(sh, occ, x, k, acc) == acc + EnterableInto(sh, occ, x, k, {})
  {
    if k > 0 {
      var A := AxisEnterable(sh, occ, x, k - 1);
      EnterableIntoShift(sh, occ, x, k - 1, acc + A);
      EnterableIntoShift(sh, occ, x, k - 1, {} + A);
      assert {} + A == A;
    }
  }

  /** Adding one axis adds its unoccluded neighbours: the search's loop over axes. */
  lemma EnterableSucc(sh: Shape, occ: seq<bool>, x: nat, k: nat)
    requires ValidShape(sh) && k < sh.n
    ensures EnterableUpTo(sh, occ, x, k + 1) == EnterableUpTo(sh, occ, x, k) + AxisEnterable(sh, occ, x, k)
  {
    EnterableIntoShift(sh, occ, x, k, {} + AxisEnterable(sh, occ, x, k));
  }

  lemma EnterableZero(sh: Shape, occ: seq<bool>, x: nat)
    requires ValidShape(sh)
    ensures EnterableUpTo(sh, occ, x, 0) == {}
  {
  }

  /** A grid neighbour is a neighbour along some axis. */
  lemma {:induction false} GridNeighbourAxis(sh: Shape, x: nat, k: nat, y: int) returns (d: nat)
    requires ValidShape(sh) && k <= sh.n && y in GridNeighbours(sh, x, k)
    ensures d < k && y in AxisNeighbours(sh, x, d)
  {
    GridNeighboursSucc(sh, x, k - 1);
    if y in AxisNeighbours(sh, x, k - 1) {
      d := k - 1;
    } else {
      d := GridNeighbourAxis(sh, x, k - 1, y);
    }
  }

  /** A neighbour along one of the first `k` axes is a grid neighbour. */
  lemma {:induction false} AxisInGrid(sh: Shape, x: nat, k: nat, d: nat, y: int)
    requires ValidShape(sh) && d < k <= sh.n && y in AxisNeighbours(sh, x, d)
    ensures y in GridNeighbours(sh, x, k)
  {
    GridNeighboursSucc(sh, x, k - 1);
    if d < k - 1 {
      AxisInGrid(sh, x, k - 1, d, y);
    }
  }

  lemma {:induction false} EnterableUpToMember(sh: Shape, occ: seq<bool>, x: nat, k: nat, y: int)
    requires ValidShape(sh) && k <= sh.n
    ensures y in EnterableUpTo(sh, occ, x, k) <==> y in GridNeighbours(sh, x, k) && Free(occ, y)
  {
    if k > 0 {
      EnterableUpToMember(sh, occ, x, k - 1, y);
      EnterableSucc(sh, occ, x, k - 1);
      GridNeighboursSucc(sh, x, k - 1);
      OffsetEnterableMember(sh, occ, x, k - 1, -1, y);
      OffsetEnterableMember(sh, occ, x, k - 1, 1, y);
    }
  }

  /** The neighbour index rule: stepping `off` along axis `d` from an in-range coordinate
      moves the flat index by off * g^(n-d-1), and the result is the flattening of the
      coordinates of `x` with coordinate `d` replaced. */
  lemma AxisNeighbourFlatten(sh: Shape, x: nat, d: nat, off: int)
    requires ValidShape(sh) && d < sh.n && x < CellCount(sh)
    requires 0 <= Coord(sh, x, d) + off < sh.g
    ensures var ind := Digits(x, sh.n, sh.g);
            var y := x + off * Stride(sh, d);
            y == Flatten(ind[d := ind[d] + off], sh.g) && IsCell(sh, y)
            && Digits(y, sh.n, sh.g) == ind[d := ind[d] + off]
  {
    var ind := Digits(x, sh.n, sh.g);
    var c := ind[d] + off;
    FlattenOfDigits(x, sh.n, sh.g);
    FlattenUpdate(ind, sh.g, d, c);
    assert InRange(ind[d := c], sh.g);
    FlattenBounds(ind[d := c], sh.g);
    DigitsOfFlatten(ind[d := c], sh.g);
  }

  /** Neighbours of a cell are cells. */
  lemma NeighboursAreCells(sh: Shape, x: nat, y: int)
    requires ValidShape(sh) && IsCell(sh, x) && y in GridNeighbours(sh, x, sh.n)
    ensures IsCell(sh, y)
  {
    var d := GridNeighbourAxis(sh, x, sh.n, y);
    if y in OffsetNeighbour(sh, x, d, -1) {
      AxisNeighbourFlatten(sh, x, d, -1);
    } else {
      AxisNeighbourFlatten(sh, x, d, 1);
    }
  }

  /** Stepping back from a neighbour returns to the cell. */
  lemma OffsetBack(sh: Shape, x: nat, d: nat, off: int)
    requires ValidShape(sh) && d < sh.n && IsCell(sh, x) && (off == -1 || off == 1)
    requires 0 <= Coord(sh, x, d) + off < sh.g
    ensures var y := x + off * Stride(sh, d);
            IsCell(sh, y) && x in OffsetNeighbour(sh, y, d, -off)
  {
    var p := Stride(sh, d);
    AxisNeighbourFlatten(sh, x, d, off);
    var y := x + off * p;
    assert Coord(sh, y, d) == Coord(sh, x, d) + off;
    if off == 1 {
      assert y + (-1) * p == x;
    } else {
      assert y + 1 * p == x;
    }
  }

  /** Grid adjacency is symmetric. */
  lemma AdjacentSymmetric(sh: Shape, x: nat, y: int)
    requires ValidShape(sh) && IsCell(sh, x) && y in GridNeighbours(sh, x, sh.n)
    ensures IsCell(sh, y) && x in GridNeighbours(sh, y, sh.n)
  {
    var d := GridNeighbourAxis(sh, x, sh.n, y);
    if y in OffsetNeighbour(sh, x, d, -1) {
      OffsetBack(sh, x, d, -1);
    } else {
      OffsetBack(sh, x, d, 1);
    }
    AxisInGrid(sh, y, sh.n, d, x);
  }

  /** A cell is never its own neighbour. */
  lemma NotSelfAdjacent(sh: Shape, x: nat)
    requires ValidShape(sh)
    ensures x !in GridNeighbours(sh, x, sh.n)
  {
    if x in GridNeighbours(sh, x, sh.n) {
      var d := GridNeighbourAxis(sh, x, sh.n, x);
    }
  }

  // ---------------------------------------------------------------------------
  // The grid satisfies what the generic search semantics assumes

  /** The searched graph is the raw grid with occluded cells removed as targets. */
  lemma GraphFilters(sh: Shape, occ: seq<bool>, x: int, y: int)
    requires ValidShape(sh) && IsCell(sh, x)
    ensures y in Graph(sh, occ)[x] <==> y in RawGraph(sh)[x] && Free(occ, y)
  {
    EnterableUpToMember(sh, occ, x, sh.n, y);
  }

  /** Raw grid adjacency stays inside the grid. */
  lemma RawClosed(sh: Shape)
    requires ValidShape(sh)
    ensures Closed(RawGraph(sh))
  {
    var nbr := RawGraph(sh);
    forall x, y | 0 <= x < |nbr| && y in nbr[x] ensures 0 <= y < |nbr| {
      NeighboursAreCells(sh, x, y);
    }
  }

  /** Raw grid adjacency is symmetric. */
  lemma RawGraphSymmetric(sh: Shape)
    requires ValidShape(sh)
    ensures RawSymmetric(RawGraph(sh))
  {
    var nbr := RawGraph(sh);
    forall x, y | 0 <= x < |nbr| && y in nbr[x] ensures x in Succ(nbr, y) {
      AdjacentSymmetric(sh, x, y);
    }
  }

  /** The searched graph is the raw grid filtered by the occlusion map. */
  lemma GraphFiltersRaw(sh: Shape, occ: seq<bool>)
    requires ValidShape(sh)
    ensures Filters(Graph(sh, occ), RawGraph(sh), occ)
  {
    var adj, nbr := Graph(sh, occ), RawGraph(sh);
    assert |adj| == |nbr|;
    forall x, y {:trigger y in adj[x]} | 0 <= x < |adj| && y in adj[x] ensures y in nbr[x] && Free(occ, y) {
      GraphFilters(sh, occ, x, y);
    }
    forall x, y {:trigger y in nbr[x]} | 0 <= x < |adj| && y in nbr[x] && Free(occ, y) ensures y in adj[x] {
      GraphFilters(sh, occ, x, y);
    }
  }

  /** Everything the generic search semantics assumes of the graph it searches. */
  lemma GraphAssumptions(sh: Shape, occ: seq<bool>)
    requires ValidShape(sh)
    ensures Closed(Graph(sh, occ)) && EntersFree(Graph(sh, occ), occ) && Symmetric(Graph(sh, occ), occ)
  {
    RawClosed(sh);
    RawGraphSymmetric(sh);
    GraphFiltersRaw(sh, occ);
    FilteredAssumptions(Graph(sh, occ), RawGraph(sh), occ);
  }

  lemma GraphNoLoops(sh: Shape, occ: seq<bool>, x: int)
    requires ValidShape(sh) && IsCell(sh, x)
    ensures x !in Graph(sh, occ)[x]
  {
    GraphFilters(sh, occ, x, x);
    NotSelfAdjacent(sh, x);
  }

  // ---------------------------------------------------------------------------
  // What the search result means on the grid

  /** The outcome of the alternating search on the grid graph between cells `s` and `t`. */
  ghost function GridOutcome(sh: Shape, occ: seq<bool>, s: int, t: int): int
    requires ValidShape(sh) && IsCell(sh, s) && IsCell(sh, t)
  {
    GraphAssumptions(sh, occ);
    Outcome(Graph(sh, occ), s, t, 0)
  }

  /** With distinct seed cells the search answers -1 exactly when no admissible grid walk
      joins them, and otherwise the least cost of such a walk. */
  lemma GridOutcomeIsShortestWalk(sh: Shape, occ: seq<bool>, s: int, t: int)
    requires ValidShape(sh) && IsCell(sh, s) && IsCell(sh, t) && s != t
    ensures var m := GridOutcome(sh, occ, s, t);
      (m == -1 <==> forall w :: !Admissible(RawGraph(sh), occ, s, t, w)) &&
      (m != -1 ==>
        (exists w :: Admissible(RawGraph(sh), occ, s, t, w) && Cost(occ, t, w) == m) &&
        forall w :: Admissible(RawGraph(sh), occ, s, t, w) ==> Cost(occ, t, w) >= m)
  {
    RawClosed(sh);
    RawGraphSymmetric(sh);
    GraphFiltersRaw(sh, occ);
    OutcomeIsShortestWalk(Graph(sh, occ), RawGraph(sh), occ, s, t);
  }

  /** Equal seed cells: the goal side meets the start side's first expansion, giving 2,
      unless the seed has no unoccluded neighbour. */
  lemma GridOutcomeEqualSeeds(sh: Shape, occ: seq<bool>, s: int)
    requires ValidShape(sh) && IsCell(sh, s)
    ensures GridOutcome(sh, occ, s, s) == if Graph(sh, occ)[s] != {} then 2 else -1
  {
    GraphAssumptions(sh, occ);
    GraphNoLoops(sh, occ, s);
    OutcomeEqualSeeds(Graph(sh, occ), s);
  }
}
