/** What the search's answer means in terms of paths: walks in the raw neighbour graph
    `nbr` whose cells the search is allowed to pass through. The searched graph `adj` is
    `nbr` with occluded cells removed as targets; the two seeds themselves are never
    checked for occlusion, so a walk may start or end on an occluded seed. */
module Walks {
  import opened SearchSpec

  /** `adj` is `nbr` with every occluded cell removed as a target. */
  ghost predicate Filters(adj: seq<set<int>>, nbr: seq<set<int>>, occ: seq<bool>) {
    |adj| == |nbr| &&
    (forall x, y {:trigger y in adj[x]} :: 0 <= x < |adj| && y in adj[x] ==> y in nbr[x] && Free(occ, y)) &&
    (forall x, y {:trigger y in nbr[x]} :: 0 <= x < |adj| && y in nbr[x] && Free(occ, y) ==> y in adj[x])
  }

  /** Raw adjacency is symmetric. */
  ghost predicate RawSymmetric(nbr: seq<set<int>>) {
    forall x, y :: 0 <= x < |nbr| && y in nbr[x] ==> x in Succ(nbr, y)
  }

  /** Consecutive cells of `w` are adjacent. */
  predicate IsWalk(g: seq<set<int>>, w: seq<int>) {
    |w| >= 1 && forall i :: 0 <= i < |w| - 1 ==> w[i + 1] in Succ(g, w[i])
  }

  /** A walk from `s` to `t` through unoccluded cells only, except possibly its two ends;
      a single step between two occluded cells is not one (the search cannot take it). */
  predicate Admissible(nbr: seq<set<int>>, occ: seq<bool>, s: int, t: int, w: seq<int>) {
    IsWalk(nbr, w) && w[0] == s && w[|w| - 1] == t &&
    (forall i :: 0 < i < |w| - 1 ==> Free(occ, w[i])) &&
    (|w| == 2 ==> Free(occ, s) || Free(occ, t))
  }

  /** The length the search reports for walk `w`: its number of steps, except that a single
      step onto an occluded goal is only found from the goal side, as length 2. */
  function Cost(occ: seq<bool>, t: int, w: seq<int>): nat
    requires |w| >= 1
  {
    if |w| == 2 && !Free(occ, t) then 2 else |w| - 1
  }

  /** `w` backwards. */
  function Rev(w: seq<int>): (r: seq<int>)
    ensures |r| == |w| && forall i :: 0 <= i < |w| ==> r[i] == w[|w| - 1 - i]
  {
    seq(|w|, i requires 0 <= i < |w| => w[|w| - 1 - i])
  }

  lemma Pick(S: set<int>) returns (z: int)
    requires S != {}
    ensures z in S
  {
    if forall y :: y !in S {
      assert false;  // S would be empty
    }
    z :| z in S;
  }

  lemma {:induction false} HalfSum(j: nat)
    ensures Half(j + 1) + Half(j) == j
  {
    if j >= 2 {
      HalfSum(j - 2);
    }
  }

  // ---------------------------------------------------------------------------
  // Walks in the searched graph and balls

  /** Every covered cell is reached by a walk of at most `r` moves. */
  lemma {:induction false} BallWalk(adj: seq<set<int>>, a: int, r: nat, x: int) returns (w: seq<int>)
    requires x in Ball(adj, a, r)
    ensures IsWalk(adj, w) && w[0] == a && w[|w| - 1] == x && |w| <= r + 1
  {
    if r == 0 {
      w := [a];
    } else {
      BallSucc(adj, a, r - 1);
      if x in Ball(adj, a, r - 1) {
        w := BallWalk(adj, a, r - 1, x);
      } else {
        var y := ExpandWitness(adj, Ball(adj, a, r - 1), x);
        var v := BallWalk(adj, a, r - 1, y);
        w := v + [x];
        forall i | 0 <= i < |w| - 1 ensures w[i + 1] in Succ(adj, w[i]) {
          if i < |v| - 1 {
            assert w[i] == v[i] && w[i + 1] == v[i + 1];
          }
        }
      }
    }
  }

  /** The end of a walk of `k` moves is covered after `k` rounds. */
  lemma {:induction false} WalkBall(adj: seq<set<int>>, w: seq<int>)
    requires IsWalk(adj, w)
    ensures w[|w| - 1] in Ball(adj, w[0], |w| - 1)
  {
    if |w| > 1 {
      var v := w[..|w| - 1];
      assert IsWalk(adj, v) by {
        forall i | 0 <= i < |v| - 1 ensures v[i + 1] in Succ(adj, v[i]) {
          assert v[i] == w[i] && v[i + 1] == w[i + 1];
        }
      }
      WalkBall(adj, v);
      BallSucc(adj, w[0], |v| - 1);
      ExpandMember(adj, Ball(adj, w[0], |v| - 1), v[|v| - 1], w[|w| - 1]);
    }
  }

  /** A walk in the searched graph is a raw walk whose cells after the first are
      unoccluded, and conversely. */
  lemma FilteredWalk(adj: seq<set<int>>, nbr: seq<set<int>>, occ: seq<bool>, w: seq<int>)
    requires Filters(adj, nbr, occ)
    ensures IsWalk(adj, w) <==> IsWalk(nbr, w) && forall i :: 0 < i < |w| ==> Free(occ, w[i])
  {
    if IsWalk(adj, w) {
      forall i | 0 < i < |w| ensures Free(occ, w[i]) && w[i] in Succ(nbr, w[i - 1]) {
        assert w[i - 1 + 1] in Succ(adj, w[i - 1]);
      }
    }
    if IsWalk(nbr, w) && forall i :: 0 < i < |w| ==> Free(occ, w[i]) {
      forall i | 0 <= i < |w| - 1 ensures w[i + 1] in Succ(adj, w[i]) {
        assert Free(occ, w[i + 1]);
      }
    }
  }

  /** Walking a symmetric graph backwards is a walk. */
  lemma RevWalk(nbr: seq<set<int>>, w: seq<int>)
    requires RawSymmetric(nbr) && IsWalk(nbr, w)
    ensures IsWalk(nbr, Rev(w))
  {
    var r := Rev(w);
    forall i | 0 <= i < |r| - 1 ensures r[i + 1] in Succ(nbr, r[i]) {
      var k := |w| - 2 - i;
      assert r[i] == w[k + 1] && r[i + 1] == w[k];
      assert w[k + 1] in Succ(nbr, w[k]);
    }
  }

  // ---------------------------------------------------------------------------
  // Meetings and admissible walks

  /** Two covering walks that meet join into an admissible walk no longer than the
      expansion count at which they met. */
  lemma MeetsWalk(adj: seq<set<int>>, nbr: seq<set<int>>, occ: seq<bool>, s: int, t: int, j: nat)
      returns (w: seq<int>)
    requires Filters(adj, nbr, occ) && RawSymmetric(nbr) && s != t
    requires Meets(adj, s, t, j)
    ensures Admissible(nbr, occ, s, t, w) && Cost(occ, t, w) <= j
  {
    var both := Ball(adj, s, Half(j + 1)) * Ball(adj, t, Half(j));
    var z := Pick(both);
    var ws := BallWalk(adj, s, Half(j + 1), z);
    var wt := BallWalk(adj, t, Half(j), z);
    FilteredWalk(adj, nbr, occ, ws);
    FilteredWalk(adj, nbr, occ, wt);
    RevWalk(nbr, wt);
    HalfSum(j);
    var back := Rev(wt);
    w := ws + back[1..];
    assert |w| == |ws| + |wt| - 1;
    forall i | 0 <= i < |w| - 1 ensures w[i + 1] in Succ(nbr, w[i]) {
      if i < |ws| - 1 {
        assert w[i] == ws[i] && w[i + 1] == ws[i + 1];
      } else {
        var k := i - |ws| + 1;
        assert w[i] == back[k] && w[i + 1] == back[k + 1];
      }
    }
    forall i | 0 < i < |w| - 1 ensures Free(occ, w[i]) {
      if i < |ws| {
        assert w[i] == ws[i];
      } else {
        var k := i - |ws| + 1;
        assert w[i] == back[k] == wt[|wt| - 1 - k];
      }
    }
    if |w| == 2 {
      if |ws| == 2 {
        assert ws[1] == t;
      } else {
        assert wt[1] == s;
      }
    }
  }

  /** A stretch of a walk is a walk. */
  lemma SubWalk(g: seq<set<int>>, w: seq<int>, i: nat, j: nat)
    requires IsWalk(g, w) && i < j <= |w|
    ensures IsWalk(g, w[i..j])
  {
    var v := w[i..j];
    forall k | 0 <= k < |v| - 1 ensures v[k + 1] in Succ(g, v[k]) {
      assert v[k] == w[i + k] && v[k + 1] == w[i + k + 1];
    }
  }

  /** An admissible single step: the start side finds an unoccluded goal in expansion 1,
      and otherwise the goal side finds the unoccluded start in expansion 2. */
  lemma StepMeets(adj: seq<set<int>>, nbr: seq<set<int>>, occ: seq<bool>, s: int, t: int)
    requires Filters(adj, nbr, occ) && RawSymmetric(nbr) && s != t
    requires Admissible(nbr, occ, s, t, [s, t])
    ensures Meets(adj, s, t, Cost(occ, t, [s, t]))
  {
    if Free(occ, t) {
      FilteredWalk(adj, nbr, occ, [s, t]);
      WalkBall(adj, [s, t]);
      assert t in Ball(adj, s, Half(2)) * Ball(adj, t, Half(1));
    } else {
      RevWalk(nbr, [s, t]);
      assert Rev([s, t]) == [t, s];
      FilteredWalk(adj, nbr, occ, [t, s]);
      WalkBall(adj, [t, s]);
      WalkBall(adj, [s]);
      BallMono(adj, s, 0, 1);
      assert s in Ball(adj, s, Half(3)) * Ball(adj, t, Half(2));
    }
  }

  /** A raw walk whose cells after the first are unoccluded ends in the ball of its length. */
  lemma FreeWalkBall(adj: seq<set<int>>, nbr: seq<set<int>>, occ: seq<bool>, v: seq<int>)
    requires Filters(adj, nbr, occ) && IsWalk(nbr, v)
    requires forall i :: 0 < i < |v| ==> Free(occ, v[i])
    ensures v[|v| - 1] in Ball(adj, v[0], |v| - 1)
  {
    FilteredWalk(adj, nbr, occ, v);
    WalkBall(adj, v);
  }

  /** An interior cell `w[p]` of an admissible walk is covered from the start after `p` rounds. */
  lemma CoveredFromStart(adj: seq<set<int>>, nbr: seq<set<int>>, occ: seq<bool>, s: int, t: int, w: seq<int>, p: nat)
    requires Filters(adj, nbr, occ) && Admissible(nbr, occ, s, t, w) && 0 < p < |w| - 1
    ensures w[p] in Ball(adj, s, p)
  {
    var pre := w[..p + 1];
    SubWalk(nbr, w, 0, p + 1);
    assert w[0..p + 1] == pre;
    assert forall i :: 0 < i < |pre| ==> pre[i] == w[i];
    FreeWalkBall(adj, nbr, occ, pre);
  }

  /** An interior cell `w[p]` of an admissible walk is covered from the goal after
      |w| - 1 - p rounds. */
  lemma CoveredFromGoal(adj: seq<set<int>>, nbr: seq<set<int>>, occ: seq<bool>, s: int, t: int, w: seq<int>, p: nat)
    requires Filters(adj, nbr, occ) && RawSymmetric(nbr)
    requires Admissible(nbr, occ, s, t, w) && 0 < p < |w| - 1
    ensures w[p] in Ball(adj, t, |w| - 1 - p)
  {
    var suf := w[p..];
    SubWalk(nbr, w, p, |w|);
    assert w[p..|w|] == suf;
    RevWalk(nbr, suf);
    var back := Rev(suf);
    assert forall i :: 0 < i < |back| ==> back[i] == w[|w| - 1 - i];
    FreeWalkBall(adj, nbr, occ, back);
  }

  /** An admissible walk of two or more steps is split at its middle cell, which the start
      side covers after ceil(k/2) rounds and the goal side after floor(k/2). */
  lemma LongWalkMeets(adj: seq<set<int>>, nbr: seq<set<int>>, occ: seq<bool>, s: int, t: int, w: seq<int>)
    requires Filters(adj, nbr, occ) && RawSymmetric(nbr)
    requires Admissible(nbr, occ, s, t, w) && |w| >= 3
    ensures Meets(adj, s, t, |w| - 1)
  {
    var k := |w| - 1;
    var p := Half(k + 1);
    HalfSum(k);
    CoveredFromStart(adj, nbr, occ, s, t, w, p);
    CoveredFromGoal(adj, nbr, occ, s, t, w, p);
    assert w[p] in Ball(adj, s, Half(k + 1)) * Ball(adj, t, Half(k));
  }

  /** An admissible walk makes the two sides meet at its cost. */
  lemma WalkMeets(adj: seq<set<int>>, nbr: seq<set<int>>, occ: seq<bool>, s: int, t: int, w: seq<int>)
    requires Filters(adj, nbr, occ) && RawSymmetric(nbr) && s != t
    requires Admissible(nbr, occ, s, t, w)
    ensures Meets(adj, s, t, Cost(occ, t, w))
  {
    if |w| == 2 {
      assert w == [s, t];
      StepMeets(adj, nbr, occ, s, t);
    } else {
      LongWalkMeets(adj, nbr, occ, s, t, w);
    }
  }

  /** Filtering a closed symmetric raw graph gives what the search semantics assumes. */
  lemma FilteredAssumptions(adj: seq<set<int>>, nbr: seq<set<int>>, occ: seq<bool>)
    requires Filters(adj, nbr, occ) && Closed(nbr) && RawSymmetric(nbr)
    ensures Closed(adj) && EntersFree(adj, occ) && Symmetric(adj, occ)
  {
    forall x, y | 0 <= x < |adj| && y in adj[x] ensures y in nbr[x] && Free(occ, y) && 0 <= y < |adj| {
    }
    forall x, y | 0 <= x < |adj| && y in adj[x] && Free(occ, x) ensures x in Succ(adj, y) {
      assert y in nbr[x];
      assert x in Succ(nbr, y);
    }
  }

  /** With distinct seeds the search answers -1 exactly when no admissible walk joins them,
      and otherwise the least cost of an admissible walk. */
  lemma OutcomeIsShortestWalk(adj: seq<set<int>>, nbr: seq<set<int>>, occ: seq<bool>, s: int, t: int)
    requires Filters(adj, nbr, occ) && Closed(nbr) && RawSymmetric(nbr)
    requires 0 <= s < |adj| && 0 <= t < |adj| && s != t
    ensures Searchable(adj, s, t)
    ensures var m := Outcome(adj, s, t, 0);
      (m == -1 <==> forall w :: !Admissible(nbr, occ, s, t, w)) &&
      (m != -1 ==>
        (exists w :: Admissible(nbr, occ, s, t, w) && Cost(occ, t, w) == m) &&
        forall w :: Admissible(nbr, occ, s, t, w) ==> Cost(occ, t, w) >= m)
  {
    FilteredAssumptions(adj, nbr, occ);
    OutcomeIsFirstMeeting(adj, occ, s, t);
    var m := Outcome(adj, s, t, 0);
    forall w | Admissible(nbr, occ, s, t, w) ensures m != -1 && Cost(occ, t, w) >= m {
      WalkMeets(adj, nbr, occ, s, t, w);
    }
    if m != -1 {
      var w := MeetsWalk(adj, nbr, occ, s, t, m);
      WalkMeets(adj, nbr, occ, s, t, w);
    }
  }
}
