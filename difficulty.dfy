/** How the navigation environment's obstacle count grows when the difficulty is raised. */
module Difficulty {
  import opened Numeric

  /** The configured increase of the obstacle count: a plain amount to add, or (written
      with a trailing "x") a factor to multiply by. */
  datatype Delta = Additive(d: real) | Factor(d: real)

  /** The next obstacle count: unchanged at the maximum; otherwise, for an amount of at
      least 1, the count plus the rounded amount, or for a factor above 1 the rounded
      product, either capped at the maximum. An amount below 1 (or a factor of exactly 1)
      changes nothing. */
  function NewObstacleCount(count: int, max: int, delta: Delta): (r: int)
    ensures count == max || delta.d < 1.0 ==> r == count
    ensures r != count ==> r <= max
  {
    if count == max then count
    else
      var next :=
        if delta.d < 1.0 then count
        else if delta.Additive? then count + Round(delta.d)
        else if delta.d > 1.0 then Round(count as real * delta.d)
        else count;
      if delta.d >= 1.0 && next > max then max else next
  }

  /** From a count not above the maximum, the new count never falls and never passes the
      maximum. */
  lemma NewCountBounds(count: int, max: int, delta: Delta)
    requires 0 <= count <= max
    ensures count <= NewObstacleCount(count, max, delta) <= max
  {
    if count != max && delta.d >= 1.0 {
      if delta.Additive? {
        RoundMono(1.0, delta.d);
        RoundOfInt(1);
      } else if delta.d > 1.0 {
        assert count as real * delta.d >= count as real * 1.0;
        RoundMono(count as real, count as real * delta.d);
        RoundOfInt(count);
      }
    }
  }

  /** With an additive amount of at least 1, the difficulty can be raised exactly while the
      count is below the maximum. */
  lemma AdditiveIncreasePossible(count: int, max: int, d: real)
    requires d >= 1.0
    ensures NewObstacleCount(count, max, Additive(d)) > count <==> count < max
  {
    RoundMono(1.0, d);
    RoundOfInt(1);
  }

  /** With a factor, the difficulty can be raised exactly while the count is below the
      maximum and the rounded product exceeds the count; from zero obstacles a factor never
      raises the count. */
  lemma FactorIncreasePossible(count: int, max: int, d: real)
    requires 0 <= count
    ensures NewObstacleCount(count, max, Factor(d)) > count <==>
      count < max && d > 1.0 && Round(count as real * d) > count
    ensures NewObstacleCount(0, max, Factor(d)) == 0 || max < 0
  {
    RoundOfInt(0);
    assert 0 as real * d == 0.0;
  }

  /** The obstacle count after `k` increases. From 0 <= count <= max it never drops below
      count nor rises above max. */
  function Raised(count: int, max: int, delta: Delta, k: nat): (r: int)
    ensures 0 <= count <= max ==> count <= r <= max
    decreases k
  {
    if k == 0 then count
    else if 0 <= count <= max then
      NewCountBounds(count, max, delta);
      Raised(NewObstacleCount(count, max, delta), max, delta, k - 1)
    else Raised(NewObstacleCount(count, max, delta), max, delta, k - 1)
  }

  /** With an additive amount of at least 1, repeated increases reach the maximum after at
      most max - count steps and stay there. */
  lemma {:induction false} AdditiveReachesMax(count: int, max: int, d: real, k: nat)
    requires 0 <= count <= max && d >= 1.0 && k >= max - count
    ensures Raised(count, max, Additive(d), k) == max
    decreases k
  {
    if k > 0 {
      var next := NewObstacleCount(count, max, Additive(d));
      NewCountBounds(count, max, Additive(d));
      if count < max {
        AdditiveIncreasePossible(count, max, d);
      }
      AdditiveReachesMax(next, max, d, k - 1);
    }
  }
}
