/** The dense search grid laid over the unit hypercube: `g` points per axis, `n` axes,
    cells numbered row-major with dimension 0 the most significant digit (the numbering
    of a multidimensional counter over `n` counters of size `g`). */
module Grid {

  /** g^k over the naturals. */
  function Pow(g: nat, k: nat): (r: nat)
    ensures g >= 1 ==> r >= 1
  {
    if k == 0 then 1 else g * Pow(g, k - 1)
  }

  lemma {:induction false} PowAdd(g: nat, a: nat, b: nat)
    ensures Pow(g, a + b) == Pow(g, a) * Pow(g, b)
  {
    if a > 0 {
      PowAdd(g, a - 1, b);
      var p, q := Pow(g, a - 1), Pow(g, b);
      assert Pow(g, a + b) == g * Pow(g, a - 1 + b);
      MulAssoc(g, p, q);
    }
  }

  /** Every coordinate of `ind` is a valid grid coordinate. */
  predicate InRange(ind: seq<int>, g: nat) {
    forall i :: 0 <= i < |ind| ==> 0 <= ind[i] < g
  }

  /** The flat index of the grid point with coordinates `ind`, dimension 0 most significant. */
  function Flatten(ind: seq<int>, g: nat): int {
    if |ind| == 0 then 0 else ind[0] * Pow(g, |ind| - 1) + Flatten(ind[1..], g)
  }

  /** The coordinates of flat index `x` in an `n`-dimensional grid (the inverse of Flatten). */
  function Digits(x: nat, n: nat, g: nat): (r: seq<int>)
    requires g >= 1
    ensures |r| == n && InRange(r, g)
    decreases n
  {
    if n == 0 then [] else Digits(x / g, n - 1, g) + [x % g]
  }

  lemma MulAssoc(x: int, p: int, q: int)
    ensures x * (p * q) == (x * p) * q
  {
  }

  lemma Distrib(x: int, y: int, p: int)
    ensures (x + y) * p == x * p + y * p
  {
  }

  lemma DivModSplit(x: int, g: int)
    requires g >= 1
    ensures x == (x / g) * g + x % g && 0 <= x % g < g
  {
  }

  lemma RealMulSign(a: real, b: real)
    requires b > 0.0
    ensures a >= 0.0 ==> a * b >= 0.0
    ensures a > 0.0 ==> a * b > 0.0
  {
  }

  lemma MulMono(a: int, b: int, p: int)
    requires a <= b && p >= 0
    ensures a * p <= b * p
  {
  }

  /** Flattening a concatenation: the prefix is shifted by the size of the suffix's grid. */
  lemma {:induction false} FlattenAppend(a: seq<int>, b: seq<int>, g: nat)
    ensures Flatten(a + b, g) == Flatten(a, g) * Pow(g, |b|) + Flatten(b, g)
  {
    if |a| > 0 {
      assert (a + b)[1..] == a[1..] + b;
      var p1, p2 := Pow(g, |a| - 1), Pow(g, |b|);
      var x, rest := a[0], Flatten(a[1..], g);
      FlattenAppend(a[1..], b, g);
      PowAdd(g, |a| - 1, |b|);
      assert Flatten(a + b, g) == x * (p1 * p2) + (rest * p2 + Flatten(b, g));
      MulAssoc(x, p1, p2);
      Distrib(x * p1, rest, p2);
    } else {
      assert a + b == b;
    }
  }

  /** The flat index of an in-range point lies in [0, g^n). */
  lemma {:induction false} FlattenBounds(ind: seq<int>, g: nat)
    requires InRange(ind, g)
    ensures 0 <= Flatten(ind, g) < Pow(g, |ind|)
  {
    if |ind| > 0 {
      var p := Pow(g, |ind| - 1);
      FlattenBounds(ind[1..], g);
      MulMono(0, ind[0], p);
      MulMono(ind[0], g - 1, p);
      Distrib(g - 1, 1, p);
      assert Pow(g, |ind|) == g * p;
    }
  }

  lemma DivModUnique(q: int, r: int, g: int)
    requires g >= 1 && 0 <= r < g
    ensures (q * g + r) / g == q && (q * g + r) % g == r
  {
    var x := q * g + r;
    var q', r' := x / g, x % g;
    assert q' * g + r' == x;
    Distrib(q', -q, g);
    assert (q' - q) * g == r - r';
    if q' > q {
      MulMono(1, q' - q, g);
    } else if q' < q {
      MulMono(1, q - q', g);
      Distrib(q, -q', g);
    }
  }

  /** The digits of q * g + r are the digits of q followed by r. */
  lemma DigitsStep(x: nat, n: nat, q: nat, r: int, g: nat)
    requires g >= 1 && 0 <= r < g && x == q * g + r
    ensures Digits(x, n + 1, g) == Digits(q, n, g) + [r]
  {
    DivModUnique(q, r, g);
  }

  /** Digits undoes Flatten on in-range points. */
  lemma {:induction false} DigitsOfFlatten(ind: seq<int>, g: nat)
    requires g >= 1 && InRange(ind, g)
    ensures Flatten(ind, g) >= 0 && Digits(Flatten(ind, g), |ind|, g) == ind
  {
    FlattenBounds(ind, g);
    if |ind| > 0 {
      var n := |ind|;
      var pre, last := ind[..n - 1], ind[n - 1];
      assert ind == pre + [last];
      FlattenBounds(pre, g);
      var x, q := Flatten(ind, g), Flatten(pre, g);
      FlattenAppend(pre, [last], g);
      FlattenSingleton(last, g);
      assert x == q * g + last;
      DigitsStep(x, n - 1, q, last, g);
      DigitsOfFlatten(pre, g);
    }
  }

  /** The quotient of a number below g^(n+1) by g is below g^n. */
  lemma QuotientBound(x: nat, n: nat, g: nat)
    requires g >= 1 && x < Pow(g, n + 1)
    ensures x / g < Pow(g, n)
  {
    var q, p := x / g, Pow(g, n);
    DivModSplit(x, g);
    assert Pow(g, n + 1) == g * p;
    if q >= p {
      MulMono(p, q, g);
    }
  }

  /** Flatten undoes Digits on [0, g^n). */
  lemma {:induction false} FlattenOfDigits(x: nat, n: nat, g: nat)
    requires g >= 1 && x < Pow(g, n)
    ensures Flatten(Digits(x, n, g), g) == x
    decreases n
  {
    if n > 0 {
      var q, r := x / g, x % g;
      var pre := Digits(q, n - 1, g);
      DivModSplit(x, g);
      QuotientBound(x, n - 1, g);
      FlattenOfDigits(q, n - 1, g);
      assert Digits(x, n, g) == pre + [r];
      FlattenAppend(pre, [r], g);
      FlattenSingleton(r, g);
    }
  }

  lemma FlattenSingleton(r: int, g: nat)
    ensures Flatten([r], g) == r && Pow(g, 1) == g
  {
    assert [r][1..] == [];
  }

  /** Moving along axis `d` to coordinate `c` moves the flat index by (c - ind[d]) * g^(n-d-1):
      the neighbour-index rule of the path search. */
  lemma {:induction false} FlattenUpdate(ind: seq<int>, g: nat, d: nat, c: int)
    requires d < |ind|
    ensures Flatten(ind[d := c], g) == Flatten(ind, g) + (c - ind[d]) * Pow(g, |ind| - 1 - d)
  {
    if d > 0 {
      assert ind[d := c][1..] == ind[1..][d - 1 := c];
      FlattenUpdate(ind[1..], g, d - 1, c);
    }
  }

  /** Points per axis: ceil(1 / maxStepSize) + 1. */
  function Granularity(maxStepSize: real): (g: int)
    requires maxStepSize > 0.0
    ensures g >= 2
    ensures (g - 2) as real < 1.0 / maxStepSize <= (g - 1) as real
  {
    Ceil(1.0 / maxStepSize) + 1
  }

  /** Ceiling of a real, as Math.ceil followed by a cast to int. */
  function Ceil(x: real): (c: int)
    ensures c as real - 1.0 < x <= c as real
  {
    -((-x).Floor)
  }

  /** The grid coordinate a search seed uses for state coordinate `x`: floor(x * g). */
  function SeedIndex(x: real, g: nat): (r: int)
    ensures r as real <= x * g as real < r as real + 1.0
  {
    (x * g as real).Floor
  }

  /** A seed coordinate is a valid grid coordinate exactly when the state coordinate is in [0, 1). */
  lemma SeedIndexInRange(x: real, g: nat)
    requires g >= 1
    ensures 0 <= SeedIndex(x, g) < g <==> 0.0 <= x < 1.0
  {
    var G := g as real;
    var y := x * G;
    var f := y.Floor;
    assert f as real <= y < f as real + 1.0;
    SubMul(1.0, x, G);
    SubMul(x, 1.0, G);
    SubMul(0.0, x, G);
    assert 1.0 * G == G && 0.0 * G == 0.0;
    RealMulSign(x, G);
    RealMulSign(0.0 - x, G);
    RealMulSign(1.0 - x, G);
    RealMulSign(x - 1.0, G);
    if 0.0 <= x < 1.0 {
      assert 0.0 <= y < G;
    }
    if 0 <= f < g {
      assert 0.0 <= y < G;
    }
  }

  lemma SubMul(a: real, b: real, c: real)
    ensures (a - b) * c == a * c - b * c
  {
  }

  /** A state coordinate of exactly 1 gives a seed coordinate outside the grid. */
  lemma SeedIndexAtOne(g: nat)
    ensures SeedIndex(1.0, g) == g
  {
  }
}
