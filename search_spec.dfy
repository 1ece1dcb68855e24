/** The reference semantics of the bidirectional breadth-first search, over any finite
    graph whose cells are 0 .. |adj|-1 and where `adj[x]` is the set of cells a search front
    may enter from `x`: the balls of cells each side has covered after a number of rounds,
    and the outcome the search must produce. The grid instance is in GridGraph. */
module SearchSpec {

  /** The cells enterable from `x` (none from a non-cell). */
  function Succ(adj: seq<set<int>>, x: int): set<int> {
    if 0 <= x < |adj| then adj[x] else {}
  }

  /** Every edge leads to a cell. */
  ghost predicate Closed(adj: seq<set<int>>) {
    forall x, y :: 0 <= x < |adj| && y in adj[x] ==> 0 <= y < |adj|
  }

  predicate Free(occ: seq<bool>, y: int) {
    0 <= y < |occ| && !occ[y]
  }

  /** Only unoccluded cells are ever entered. */
  ghost predicate EntersFree(adj: seq<set<int>>, occ: seq<bool>) {
    forall x, y :: 0 <= x < |adj| && y in adj[x] ==> Free(occ, y)
  }

  /** Adjacency is symmetric between unoccluded cells: whoever can enter `y` from an
      unoccluded `x` can also enter `x` from `y`. */
  ghost predicate Symmetric(adj: seq<set<int>>, occ: seq<bool>) {
    forall x, y :: 0 <= x < |adj| && y in adj[x] && Free(occ, x) ==> x in Succ(adj, y)
  }

  /** All cells enterable from some cell of `S`. */
  function Expand(adj: seq<set<int>>, S: set<int>): set<int> {
    ExpandBelow(adj, S, |adj|)
  }

  /** All cells enterable from some cell of `S` below `n`, collected cell by cell. */
  function ExpandBelow(adj: seq<set<int>>, S: set<int>, n: nat): set<int>
    requires n <= |adj|
  {
    if n == 0 then {} else ExpandBelow(adj, S, n - 1) + (if n - 1 in S then adj[n - 1] else {})
  }

  /** One round of growth: `S` together with everything enterable from it. */
  function Grow(adj: seq<set<int>>, S: set<int>): set<int> {
    S + Expand(adj, S)
  }

  /** `S` after `r` rounds of growth. */
  function GrowN(adj: seq<set<int>>, S: set<int>, r: nat): set<int>
    decreases r
  {
    if r == 0 then S else GrowN(adj, Grow(adj, S), r - 1)
  }

  /** Cells covered from seed `a` after `r` rounds: reachable in at most `r` moves. */
  function Ball(adj: seq<set<int>>, a: int, r: nat): set<int> {
    GrowN(adj, {a}, r)
  }

  /** The search front after `r` rounds: the cells newly covered in the last round. */
  function Front(adj: seq<set<int>>, a: int, r: nat): set<int> {
    if r == 0 then {a} else Ball(adj, a, r) - Ball(adj, a, r - 1)
  }

  /** floor(j / 2), counted out so that it stays linear for the solver. */
  function Half(j: nat): (h: nat)
    ensures 2 * h <= j <= 2 * h + 1
  {
    if j < 2 then 0 else Half(j - 2) + 1
  }

  /** The two searches have met once the start side has had ceil(j/2) rounds and the goal
      side floor(j/2): the j-th expansion of the alternating search. */
  predicate Meets(adj: seq<set<int>>, s: int, t: int, j: nat) {
    Ball(adj, s, Half(j + 1)) * Ball(adj, t, Half(j)) != {}
  }

  /** The two sides never meet, however many rounds they grow. */
  ghost predicate NeverMeet(adj: seq<set<int>>, s: int, t: int) {
    forall j: nat :: !Meets(adj, s, t, j)
  }

  /** `m` is the first expansion at which the two sides meet. */
  ghost predicate FirstMeeting(adj: seq<set<int>>, s: int, t: int, m: nat) {
    Meets(adj, s, t, m) && forall j: nat :: j < m ==> !Meets(adj, s, t, j)
  }

  ghost predicate Searchable(adj: seq<set<int>>, s: int, t: int) {
    Closed(adj) && 0 <= s < |adj| && 0 <= t < |adj|
  }

  /** One side's front is empty after `r` rounds. */
  predicate Stalled(adj: seq<set<int>>, s: int, t: int, r: nat) {
    Front(adj, s, r) == {} || Front(adj, t, r) == {}
  }

  /** The start side's expansion in round `r` is expansion 2r+1 of the alternating search. */
  predicate StartHit(adj: seq<set<int>>, s: int, t: int, r: nat) {
    Expand(adj, Front(adj, s, r)) * Ball(adj, t, r) != {}
  }

  /** The goal side's expansion in round `r` is expansion 2r+2. */
  predicate GoalHit(adj: seq<set<int>>, s: int, t: int, r: nat) {
    Expand(adj, Front(adj, t, r)) * Ball(adj, s, r + 1) != {}
  }

  /** What the alternating search returns when it enters round `r` (0-based): the start
      front expands and meets the goal side (2r+1), then the goal front expands and meets
      the start side (2r+2); otherwise it stops with -1 once either front is empty. */
  function Outcome(adj: seq<set<int>>, s: int, t: int, r: nat): int
    requires Searchable(adj, s, t)
    decreases |adj| - |Ball(adj, s, r)|
  {
    if StartHit(adj, s, t, r) then 2 * r + 1
    else if GoalHit(adj, s, t, r) then 2 * r + 2
    else if Stalled(adj, s, t, r + 1) then -1
    else
      BallGrows(adj, s, r);
      Outcome(adj, s, t, r + 1)
  }

  // ---------------------------------------------------------------------------
  // Expand and Ball

  lemma {:induction false} GrowNSucc(adj: seq<set<int>>, S: set<int>, r: nat)
    ensures GrowN(adj, S, r + 1) == Grow(adj, GrowN(adj, S, r))
    decreases r
  {
    if r > 0 {
      GrowNSucc(adj, Grow(adj, S), r - 1);
    }
  }

  /** Each round adds to the ball what its cells can enter. */
  lemma BallSucc(adj: seq<set<int>>, a: int, r: nat)
    ensures Ball(adj, a, r + 1) == Ball(adj, a, r) + Expand(adj, Ball(adj, a, r))
  {
    GrowNSucc(adj, {a}, r);
  }

  lemma {:induction false} ExpandBelowMember(adj: seq<set<int>>, S: set<int>, n: nat, x: int, y: int)
    requires n <= |adj| && x in S && 0 <= x < n && y in adj[x]
    ensures y in ExpandBelow(adj, S, n)
  {
    if x < n - 1 {
      ExpandBelowMember(adj, S, n - 1, x, y);
    }
  }

  lemma {:induction false} ExpandBelowWitness(adj: seq<set<int>>, S: set<int>, n: nat, y: int) returns (x: int)
    requires n <= |adj| && y in ExpandBelow(adj, S, n)
    ensures x in S && 0 <= x < n && y in adj[x]
  {
    if n - 1 in S && y in adj[n - 1] {
      x := n - 1;
    } else {
      x := ExpandBelowWitness(adj, S, n - 1, y);
    }
  }

  lemma ExpandMember(adj: seq<set<int>>, S: set<int>, x: int, y: int)
    requires x in S && y in Succ(adj, x)
    ensures y in Expand(adj, S)
  {
    ExpandBelowMember(adj, S, |adj|, x, y);
  }

  lemma ExpandWitness(adj: seq<set<int>>, S: set<int>, y: int) returns (x: int)
    requires y in Expand(adj, S)
    ensures x in S && y in Succ(adj, x) && 0 <= x < |adj|
  {
    x := ExpandBelowWitness(adj, S, |adj|, y);
  }

  lemma ExpandMono(adj: seq<set<int>>, A: set<int>, B: set<int>)
    requires A <= B
    ensures Expand(adj, A) <= Expand(adj, B)
  {
    forall y | y in Expand(adj, A) ensures y in Expand(adj, B) {
      var x := ExpandWitness(adj, A, y);
      ExpandMember(adj, B, x, y);
    }
  }

  lemma ExpandUnion(adj: seq<set<int>>, A: set<int>, B: set<int>)
    ensures Expand(adj, A + B) == Expand(adj, A) + Expand(adj, B)
  {
    forall y | y in Expand(adj, A + B) ensures y in Expand(adj, A) + Expand(adj, B) {
      var x := ExpandWitness(adj, A + B, y);
      if x in A { ExpandMember(adj, A, x, y); } else { ExpandMember(adj, B, x, y); }
    }
    ExpandMono(adj, A, A + B);
    ExpandMono(adj, B, A + B);
  }

  lemma ExpandSingleton(adj: seq<set<int>>, x: int)
    ensures Expand(adj, {x}) == Succ(adj, x)
  {
    forall y | y in Expand(adj, {x}) ensures y in Succ(adj, x) {
      var z := ExpandWitness(adj, {x}, y);
    }
    forall y | y in Succ(adj, x) ensures y in Expand(adj, {x}) {
      ExpandMember(adj, {x}, x, y);
    }
  }

  lemma BallMono(adj: seq<set<int>>, a: int, r1: nat, r2: nat)
    requires r1 <= r2
    ensures Ball(adj, a, r1) <= Ball(adj, a, r2)
    decreases r2
  {
    if r1 < r2 {
      BallMono(adj, a, r1, r2 - 1);
      BallSucc(adj, a, r2 - 1);
    }
  }

  /** Every covered cell is a cell, and with only unoccluded cells enterable, every covered
      cell other than the seed is unoccluded. */
  lemma {:induction false} BallCells(adj: seq<set<int>>, occ: seq<bool>, a: int, r: nat, x: int)
    requires Closed(adj) && 0 <= a < |adj| && x in Ball(adj, a, r)
    ensures 0 <= x < |adj|
    ensures EntersFree(adj, occ) && x != a ==> Free(occ, x)
  {
    if r > 0 {
      BallSucc(adj, a, r - 1);
    }
    if r > 0 && x !in Ball(adj, a, r - 1) {
      var z := ExpandWitness(adj, Ball(adj, a, r - 1), x);
    } else if r > 0 {
      BallCells(adj, occ, a, r - 1, x);
    }
  }

  lemma {:induction false} CardBound(S: set<int>, k: nat)
    requires forall x :: x in S ==> 0 <= x < k
    ensures |S| <= k
  {
    if k > 0 {
      var S' := S - {k - 1};
      CardBound(S', k - 1);
    } else {
      assert forall x :: x !in S;
      assert S == {};
    }
  }

  lemma BallSize(adj: seq<set<int>>, a: int, r: nat)
    requires Closed(adj) && 0 <= a < |adj|
    ensures |Ball(adj, a, r)| <= |adj|
  {
    forall x | x in Ball(adj, a, r) ensures 0 <= x < |adj| { BallCells(adj, [], a, r, x); }
    CardBound(Ball(adj, a, r), |adj|);
  }

  /** A round with a non-empty new front covers strictly more cells. */
  lemma BallGrows(adj: seq<set<int>>, a: int, r: nat)
    requires Closed(adj) && 0 <= a < |adj|
    requires Front(adj, a, r + 1) != {}
    ensures |Ball(adj, a, r)| < |Ball(adj, a, r + 1)| <= |adj|
  {
    BallSize(adj, a, r + 1);
    BallMono(adj, a, r, r + 1);
    CardGrow(Ball(adj, a, r), Ball(adj, a, r + 1));
  }

  lemma CardGrow(A: set<int>, B: set<int>)
    requires A <= B && B - A != {}
    ensures |A| < |B|
  {
    var F := B - A;
    assert B == A + F && A * F == {};
    assert |A + F| + |A * F| == |A| + |F|;
    assert |F| != 0;
  }

  /** Expanding the whole ball adds only what expanding the last front adds: each round
      only the front has to be expanded. */
  lemma {:induction false} BallStep(adj: seq<set<int>>, a: int, r: nat)
    ensures Ball(adj, a, r + 1) == Ball(adj, a, r) + Expand(adj, Front(adj, a, r))
  {
    BallSucc(adj, a, r);
    if r > 0 {
      BallSucc(adj, a, r - 1);
      var prev := Ball(adj, a, r - 1);
      var cur := Ball(adj, a, r);
      assert cur == prev + Front(adj, a, r);
      ExpandUnion(adj, prev, Front(adj, a, r));
      assert Expand(adj, prev) <= cur;
    }
  }

  /** A ball whose next front is empty equals the next ball. */
  lemma BallFixed(adj: seq<set<int>>, a: int, q: nat)
    requires Front(adj, a, q + 1) == {}
    ensures Ball(adj, a, q + 1) == Ball(adj, a, q)
  {
    var A, B := Ball(adj, a, q), Ball(adj, a, q + 1);
    BallSucc(adj, a, q);
    forall x | x in B ensures x in A {
      assert x !in Front(adj, a, q + 1);
    }
  }

  /** A ball that did not change in one round does not change in the next. */
  lemma BallSame(adj: seq<set<int>>, a: int, k: nat)
    requires Ball(adj, a, k + 1) == Ball(adj, a, k)
    ensures Ball(adj, a, k + 2) == Ball(adj, a, k + 1)
  {
    BallSucc(adj, a, k);
    BallSucc(adj, a, k + 1);
  }

  /** Once a ball stops changing it never changes again. */
  lemma {:induction false} BallStable(adj: seq<set<int>>, a: int, q: nat, k: nat)
    requires Ball(adj, a, q + 1) == Ball(adj, a, q) && q <= k
    ensures Ball(adj, a, k) == Ball(adj, a, q) && Ball(adj, a, k + 1) == Ball(adj, a, q)
    decreases k - q
  {
    if k > q {
      BallStable(adj, a, q, k - 1);
      BallSame(adj, a, k - 1);
    }
  }

  /** An empty front stays empty. */
  lemma FrontStaysEmpty(adj: seq<set<int>>, a: int, q: nat)
    requires q >= 1 && Front(adj, a, q) == {}
    ensures Front(adj, a, q + 1) == {}
  {
    BallFixed(adj, a, q - 1);
    BallStable(adj, a, q - 1, q);
  }

  /** A ball whose front died out after `q` rounds contains every ball of its seed. */
  lemma BallWithinClosed(adj: seq<set<int>>, a: int, q: nat, k: nat)
    requires Front(adj, a, q + 1) == {}
    ensures Ball(adj, a, k) <= Ball(adj, a, q)
  {
    if k <= q { BallMono(adj, a, k, q); } else { BallFixed(adj, a, q); BallStable(adj, a, q, k); }
  }

  // ---------------------------------------------------------------------------
  // What the outcome means

  /** With `r` rounds on each side still disjoint, no expansion up to 2r met. */
  lemma DisjointBelow(adj: seq<set<int>>, s: int, t: int, r: nat, j: nat)
    requires Ball(adj, s, r) * Ball(adj, t, r) == {} && j <= 2 * r
    ensures !Meets(adj, s, t, j)
  {
    BallMono(adj, s, Half(j + 1), r);
    BallMono(adj, t, Half(j), r);
  }

  /** A cell next to a ball whose front died out is only in the ball if it can be entered
      from there. */
  lemma ClosedBallNoEntry(adj: seq<set<int>>, occ: seq<bool>, a: int, q: nat, z: int, y: int)
    requires Symmetric(adj, occ) && 0 <= z < |adj|
    requires Front(adj, a, q + 1) == {}
    requires y in adj[z] && Free(occ, z)
    ensures y in Ball(adj, a, q) ==> z in Ball(adj, a, q)
  {
    var A := Ball(adj, a, q);
    if y in A {
      assert z in Succ(adj, y);
      ExpandMember(adj, A, y, z);
      BallSucc(adj, a, q);
      assert z in Ball(adj, a, q + 1);
      assert z !in Front(adj, a, q + 1);
    }
  }

  /** Side `a` is enclosed after `q >= 1` rounds (its next front is empty) and the sides
      have not met: the situation in which the search gives up. */
  ghost predicate Enclosed(adj: seq<set<int>>, occ: seq<bool>, a: int, b: int, q: nat) {
    Closed(adj) && EntersFree(adj, occ) && Symmetric(adj, occ) &&
    0 <= a < |adj| && 0 <= b < |adj| &&
    q >= 1 && Front(adj, a, q + 1) == {} && Ball(adj, a, q) * Ball(adj, b, q) == {}
  }

  lemma EnclosedStep(adj: seq<set<int>>, occ: seq<bool>, a: int, b: int, q: nat, k: nat, y: int)
    requires Enclosed(adj, occ, a, b, q)
    requires Ball(adj, a, q) * Ball(adj, b, k) == {}
    requires y in Expand(adj, Ball(adj, b, k))
    ensures y !in Ball(adj, a, q)
  {
    var z := ExpandWitness(adj, Ball(adj, b, k), y);
    assert z !in Ball(adj, a, q);
    if z == b {
      ExpandMember(adj, Ball(adj, b, 0), b, y);
      BallSucc(adj, b, 0);
      assert y in Ball(adj, b, 1);
      BallMono(adj, b, 1, q);
    } else {
      BallCells(adj, occ, b, k, z);
      ClosedBallNoEntry(adj, occ, a, q, z, y);
    }
  }

  /** One more round of the other side still does not reach the enclosed side. */
  lemma EnclosedGrow(adj: seq<set<int>>, occ: seq<bool>, a: int, b: int, q: nat, k: nat)
    requires Enclosed(adj, occ, a, b, q)
    requires Ball(adj, a, q) * Ball(adj, b, k) == {}
    ensures Ball(adj, a, q) * Ball(adj, b, k + 1) == {}
  {
    var A, prev := Ball(adj, a, q), Ball(adj, b, k);
    var E := Expand(adj, prev);
    forall y | y in E ensures y !in A {
      EnclosedStep(adj, occ, a, b, q, k, y);
    }
    BallSucc(adj, b, k);
    DisjointExtend(A, prev, E);
  }

  /** If side `a` is enclosed, the other side never reaches it, however long it keeps growing. */
  lemma {:induction false} EnclosedDisjoint(adj: seq<set<int>>, occ: seq<bool>, a: int, b: int, q: nat, k: nat)
    requires Enclosed(adj, occ, a, b, q)
    ensures Ball(adj, a, q) * Ball(adj, b, k) == {}
    decreases k
  {
    if k <= q {
      BallMono(adj, b, k, q);
      DisjointSub(Ball(adj, a, q), Ball(adj, b, k), Ball(adj, b, q));
    } else {
      EnclosedDisjoint(adj, occ, a, b, q, k - 1);
      EnclosedGrow(adj, occ, a, b, q, k - 1);
    }
  }

  lemma DisjointSub(A: set<int>, P: set<int>, Q: set<int>)
    requires A * Q == {} && P <= Q
    ensures A * P == {}
  {
    assert A * P <= A * Q;
  }

  lemma DisjointExtend(A: set<int>, P: set<int>, E: set<int>)
    requires A * P == {} && forall y :: y in E ==> y !in A
    ensures A * (P + E) == {}
  {
    forall y | y in A ensures y !in P + E {
      assert y !in A * P;
    }
    assert forall y :: y !in A * (P + E);
  }

  lemma Halves(r: nat)
    ensures Half(2 * r + 1 + 1) == r + 1 && Half(2 * r + 1) == r
    ensures Half(2 * r + 2 + 1) == r + 1 && Half(2 * r + 2) == r + 1
  {
  }

  /** Once the sides are disjoint after `q >= 1` rounds each and one side is enclosed, the
      sides never meet. */
  lemma EnclosedNeverMeet(adj: seq<set<int>>, occ: seq<bool>, s: int, t: int, q: nat)
    requires Searchable(adj, s, t) && EntersFree(adj, occ) && Symmetric(adj, occ) && q >= 1
    requires Ball(adj, s, q) * Ball(adj, t, q) == {}
    requires Stalled(adj, s, t, q)
    ensures NeverMeet(adj, s, t)
  {
    if Front(adj, s, q) == {} { FrontStaysEmpty(adj, s, q); } else { FrontStaysEmpty(adj, t, q); }
    assert Front(adj, s, q + 1) == {} ==> Enclosed(adj, occ, s, t, q);
    assert Front(adj, s, q + 1) != {} ==> Enclosed(adj, occ, t, s, q);
    forall j: nat ensures !Meets(adj, s, t, j) {
      var hs, ht := Half(j + 1), Half(j);
      if Front(adj, s, q + 1) == {} {
        EnclosedDisjoint(adj, occ, s, t, q, ht);
        BallWithinClosed(adj, s, q, hs);
      } else {
        EnclosedDisjoint(adj, occ, t, s, q, hs);
        BallWithinClosed(adj, t, q, ht);
      }
    }
  }

  /** What one round of the alternating search decides, stated on balls: which expansion
      meets, and that the sides stay disjoint when neither does. */
  lemma RoundMeets(adj: seq<set<int>>, s: int, t: int, r: nat)
    requires Ball(adj, s, r) * Ball(adj, t, r) == {}
    ensures Meets(adj, s, t, 2 * r + 1) <==> StartHit(adj, s, t, r)
    ensures !Meets(adj, s, t, 2 * r + 1) ==> (Meets(adj, s, t, 2 * r + 2) <==> GoalHit(adj, s, t, r))
    ensures !Meets(adj, s, t, 2 * r + 1) && !Meets(adj, s, t, 2 * r + 2) ==>
      Ball(adj, s, r + 1) * Ball(adj, t, r + 1) == {}
  {
    var S0, T0 := Ball(adj, s, r), Ball(adj, t, r);
    var S1, T1 := Ball(adj, s, r + 1), Ball(adj, t, r + 1);
    var ES, ET := Expand(adj, Front(adj, s, r)), Expand(adj, Front(adj, t, r));
    BallStep(adj, s, r);
    BallStep(adj, t, r);
    Halves(r);
    assert S1 == S0 + ES && T1 == T0 + ET;
    assert Meets(adj, s, t, 2 * r + 1) <==> S1 * T0 != {};
    assert Meets(adj, s, t, 2 * r + 2) <==> S1 * T1 != {};
  }

  lemma MissBefore(adj: seq<set<int>>, s: int, t: int, r: nat, m: nat, j: nat)
    requires Ball(adj, s, r) * Ball(adj, t, r) == {}
    requires m == 2 * r + 1 || m == 2 * r + 2
    requires m == 2 * r + 2 ==> !Meets(adj, s, t, 2 * r + 1)
    requires j < m
    ensures !Meets(adj, s, t, j)
  {
    if j <= 2 * r {
      DisjointBelow(adj, s, t, r, j);
    }
  }

  lemma FirstMeetingAt(adj: seq<set<int>>, s: int, t: int, r: nat, m: nat)
    requires Ball(adj, s, r) * Ball(adj, t, r) == {}
    requires m == 2 * r + 1 || m == 2 * r + 2
    requires m == 2 * r + 2 ==> !Meets(adj, s, t, 2 * r + 1)
    requires Meets(adj, s, t, m)
    ensures FirstMeeting(adj, s, t, m)
  {
    forall j: nat | j < m ensures !Meets(adj, s, t, j) {
      MissBefore(adj, s, t, r, m, j);
    }
  }

  /** `m` is what the search may return when it enters round `r`: -1 exactly when the
      sides never meet, otherwise the first expansion at which they meet. */
  ghost predicate Correct(adj: seq<set<int>>, s: int, t: int, r: nat, m: int) {
    (m == -1 ==> NeverMeet(adj, s, t)) && (m != -1 ==> m > 2 * r && FirstMeeting(adj, s, t, m))
  }

  lemma CorrectEarlier(adj: seq<set<int>>, s: int, t: int, r: nat, m: int)
    requires Correct(adj, s, t, r + 1, m)
    ensures Correct(adj, s, t, r, m)
  {
  }

  /** The start side meets the goal side in round `r`: the search returns 2r+1, the first meeting. */
  lemma RoundStart(adj: seq<set<int>>, s: int, t: int, r: nat)
    requires Searchable(adj, s, t)
    requires Ball(adj, s, r) * Ball(adj, t, r) == {}
    requires Meets(adj, s, t, 2 * r + 1)
    ensures Outcome(adj, s, t, r) == 2 * r + 1 && FirstMeeting(adj, s, t, 2 * r + 1)
  {
    RoundMeets(adj, s, t, r);
    FirstMeetingAt(adj, s, t, r, 2 * r + 1);
  }

  /** The goal side meets the start side in round `r`: the search returns 2r+2, the first meeting. */
  lemma RoundGoal(adj: seq<set<int>>, s: int, t: int, r: nat)
    requires Searchable(adj, s, t)
    requires Ball(adj, s, r) * Ball(adj, t, r) == {}
    requires !Meets(adj, s, t, 2 * r + 1) && Meets(adj, s, t, 2 * r + 2)
    ensures Outcome(adj, s, t, r) == 2 * r + 2 && FirstMeeting(adj, s, t, 2 * r + 2)
  {
    RoundMeets(adj, s, t, r);
    FirstMeetingAt(adj, s, t, r, 2 * r + 2);
  }

  /** Neither side meets the other in round `r` and one of them is enclosed: the search
      returns -1, and the sides indeed never meet. */
  lemma RoundStall(adj: seq<set<int>>, occ: seq<bool>, s: int, t: int, r: nat)
    requires Searchable(adj, s, t) && EntersFree(adj, occ) && Symmetric(adj, occ)
    requires Ball(adj, s, r) * Ball(adj, t, r) == {}
    requires !Meets(adj, s, t, 2 * r + 1) && !Meets(adj, s, t, 2 * r + 2)
    requires Stalled(adj, s, t, r + 1)
    ensures Outcome(adj, s, t, r) == -1 && NeverMeet(adj, s, t)
  {
    RoundMeets(adj, s, t, r);
    EnclosedNeverMeet(adj, occ, s, t, r + 1);
  }

  /** Neither side meets the other in round `r` and both can still grow: the search goes on
      to round `r + 1` with the sides disjoint and the start side larger. */
  lemma RoundNext(adj: seq<set<int>>, s: int, t: int, r: nat)
    requires Searchable(adj, s, t)
    requires Ball(adj, s, r) * Ball(adj, t, r) == {}
    requires !Meets(adj, s, t, 2 * r + 1) && !Meets(adj, s, t, 2 * r + 2)
    requires !Stalled(adj, s, t, r + 1)
    ensures Outcome(adj, s, t, r) == Outcome(adj, s, t, r + 1)
    ensures Ball(adj, s, r + 1) * Ball(adj, t, r + 1) == {}
    ensures |Ball(adj, s, r)| < |Ball(adj, s, r + 1)| <= |adj|
  {
    RoundMeets(adj, s, t, r);
    BallGrows(adj, s, r);
  }

  /** One of the sides meets the other in round `r`: the search returns that first meeting. */
  lemma RoundMeet(adj: seq<set<int>>, s: int, t: int, r: nat) returns (m: int)
    requires Searchable(adj, s, t)
    requires Ball(adj, s, r) * Ball(adj, t, r) == {}
    requires Meets(adj, s, t, 2 * r + 1) || Meets(adj, s, t, 2 * r + 2)
    ensures Outcome(adj, s, t, r) == m && Correct(adj, s, t, r, m)
  {
    if Meets(adj, s, t, 2 * r + 1) {
      m := 2 * r + 1;
      RoundStart(adj, s, t, r);
    } else {
      m := 2 * r + 2;
      RoundGoal(adj, s, t, r);
    }
  }

  /** Neither side meets the other in round `r`: the search either gives up, correctly, or
      goes on to the next round. */
  lemma RoundMiss(adj: seq<set<int>>, occ: seq<bool>, s: int, t: int, r: nat) returns (next: bool)
    requires Searchable(adj, s, t) && EntersFree(adj, occ) && Symmetric(adj, occ)
    requires Ball(adj, s, r) * Ball(adj, t, r) == {}
    requires !Meets(adj, s, t, 2 * r + 1) && !Meets(adj, s, t, 2 * r + 2)
    ensures !next ==> Outcome(adj, s, t, r) == -1 && Correct(adj, s, t, r, -1)
    ensures next ==> Outcome(adj, s, t, r) == Outcome(adj, s, t, r + 1)
    ensures next ==> Ball(adj, s, r + 1) * Ball(adj, t, r + 1) == {}
    ensures next ==> |Ball(adj, s, r)| < |Ball(adj, s, r + 1)| <= |adj|
  {
    next := !Stalled(adj, s, t, r + 1);
    if next {
      RoundNext(adj, s, t, r);
    } else {
      RoundStall(adj, occ, s, t, r);
    }
  }

  /** Entering round `r` with disjoint sides, the search returns the first `j` at which the
      sides meet, or -1 exactly when they never meet. */
  lemma {:induction false} OutcomeFrom(adj: seq<set<int>>, occ: seq<bool>, s: int, t: int, r: nat)
    requires Searchable(adj, s, t) && EntersFree(adj, occ) && Symmetric(adj, occ)
    requires Ball(adj, s, r) * Ball(adj, t, r) == {}
    ensures Correct(adj, s, t, r, Outcome(adj, s, t, r))
    decreases |adj| - |Ball(adj, s, r)|
  {
    if Meets(adj, s, t, 2 * r + 1) || Meets(adj, s, t, 2 * r + 2) {
      var m := RoundMeet(adj, s, t, r);
    } else {
      var next := RoundMiss(adj, occ, s, t, r);
      if next {
        OutcomeFrom(adj, occ, s, t, r + 1);
        CorrectEarlier(adj, s, t, r, Outcome(adj, s, t, r + 1));
      }
    }
  }

  /** For distinct seed cells the search returns the least `j >= 1` at which the two sides
      meet, and -1 exactly when the sides never meet. */
  lemma OutcomeIsFirstMeeting(adj: seq<set<int>>, occ: seq<bool>, s: int, t: int)
    requires Searchable(adj, s, t) && EntersFree(adj, occ) && Symmetric(adj, occ) && s != t
    ensures var m := Outcome(adj, s, t, 0);
      (m == -1 <==> NeverMeet(adj, s, t)) && (m != -1 ==> m >= 1 && FirstMeeting(adj, s, t, m))
  {
    assert Ball(adj, s, 0) * Ball(adj, t, 0) == {};
    OutcomeFrom(adj, occ, s, t, 0);
  }

  /** Equal seed cells: the search reports 2 when the cell has an enterable neighbour and
      -1 otherwise, never 0. */
  lemma OutcomeEqualSeeds(adj: seq<set<int>>, s: int)
    requires Searchable(adj, s, s) && s !in adj[s]
    ensures Outcome(adj, s, s, 0) == if adj[s] != {} then 2 else -1
  {
    ExpandSingleton(adj, s);
    assert Ball(adj, s, 1) == {s} + adj[s];
    if adj[s] == {} {
      assert Front(adj, s, 1) == {};
    }
  }
}
