/** Real vectors: dot product, scaling, and the bounds that make a dot product of normalized vectors
    a cosine. */
module Vectors {

  type Vector = seq<real>

  function Dot(a: Vector, b: Vector): real
    requires |a| == |b|
  {
    if |a| == 0 then 0.0 else Dot(a[..|a| - 1], b[..|b| - 1]) + a[|a| - 1] * b[|b| - 1]
  }

  function SumSq(a: Vector): real {
    Dot(a, a)
  }

  /** `n` is the Euclidean norm of `a`. */
  predicate IsNorm(n: real, a: Vector) {
    n >= 0.0 && n * n == SumSq(a)
  }

  /** Division of every component. */
  function Divide(a: Vector, n: real): (r: Vector)
    requires n != 0.0
    ensures |r| == |a|
  {
    seq(|a|, i requires 0 <= i < |a| => a[i] / n)
  }

  /** `emb / norm if norm > 0 else emb` */
  function Normalize(a: Vector, n: real): (r: Vector)
    ensures |r| == |a|
  {
    if n > 0.0 then Divide(a, n) else a
  }

  lemma DivideInit(a: Vector, n: real)
    requires n != 0.0 && |a| > 0
    ensures Divide(a, n)[..|a| - 1] == Divide(a[..|a| - 1], n)
  {
  }

  /** Dividing the arguments divides the dot product by the product `c` of the divisors; so the dot
      product of two vectors divided by their norms is their cosine. */
  lemma {:induction false} DotScales(a: Vector, m: real, b: Vector, n: real, c: real)
    requires |a| == |b| && m != 0.0 && n != 0.0 && c == m * n
    ensures Dot(Divide(a, m), Divide(b, n)) * c == Dot(a, b)
  {
    if |a| > 0 {
      var k := |a| - 1;
      DotScales(a[..k], m, b[..k], n, c);
      DivideInit(a, m);
      DivideInit(b, n);
      var d, p := Dot(Divide(a[..k], m), Divide(b[..k], n)), (a[k] / m) * (b[k] / n);
      ProductOfQuotients(a[k], m, b[k], n, c);
      Distribute(d, p, c, Dot(a[..k], b[..k]), a[k] * b[k]);
    }
  }

  lemma ProductOfQuotients(x: real, m: real, y: real, n: real, c: real)
    requires m != 0.0 && n != 0.0 && c == m * n
    ensures (x / m) * (y / n) * c == x * y
  {
    var u, v := x / m, y / n;
    assert u * m == x && v * n == y;
    calc {
      u * v * (m * n);
      (u * m) * (v * n);
      x * y;
    }
  }

  lemma Distribute(d: real, p: real, c: real, e: real, q: real)
    requires d * c == e && p * c == q
    ensures (d + p) * c == e + q
  {
  }

  lemma {:induction false} SumSqNonNegative(a: Vector)
    ensures SumSq(a) >= 0.0
  {
    if |a| > 0 {
      SumSqNonNegative(a[..|a| - 1]);
      SquareNonNegative(a[|a| - 1]);
    }
  }

  lemma SquareNonNegative(x: real)
    ensures x * x >= 0.0
  {
  }

  lemma {:induction false} NonZeroLength(a: Vector, i: nat)
    requires i < |a| && a[i] != 0.0
    ensures SumSq(a) > 0.0
  {
    var k := |a| - 1;
    SumSqNonNegative(a[..k]);
    SquareNonNegative(a[k]);
    if i < k {
      NonZeroLength(a[..k], i);
    } else {
      SquarePositive(a[k]);
    }
  }

  function Square(x: real): real { x * x }

  lemma SquarePositive(x: real)
    requires x != 0.0
    ensures Square(x) > 0.0
  {
    var y := 1.0 / x;
    calc {
      1.0;
      (x * y) * (x * y);
      Square(x) * (y * y);
    }
  }

  lemma {:induction false} ZeroNormDot(a: Vector, b: Vector)
    requires |a| == |b| && SumSq(a) == 0.0
    ensures Dot(a, b) == 0.0
  {
    if |a| > 0 {
      var k := |a| - 1;
      if a[k] != 0.0 {
        NonZeroLength(a, k);
      }
      assert SumSq(a[..k]) == 0.0;
      ZeroNormDot(a[..k], b[..k]);
    }
  }

  lemma {:induction false} DotSymmetric(a: Vector, b: Vector)
    requires |a| == |b|
    ensures Dot(a, b) == Dot(b, a)
  {
    if |a| > 0 {
      DotSymmetric(a[..|a| - 1], b[..|b| - 1]);
    }
  }

  lemma Cancel(x: real, y: real, c: real)
    requires x * c == y * c && c != 0.0
    ensures x == y
  {
    assert (x - y) * c == 0.0;
  }

  /** Normalizing gives a vector of squared length 1, or the zero vector back. */
  lemma NormalizedLength(a: Vector, n: real)
    requires IsNorm(n, a)
    ensures SumSq(Normalize(a, n)) == if n > 0.0 then 1.0 else 0.0
  {
    if n > 0.0 {
      var r := Divide(a, n);
      var c := SumSq(a);
      SquarePositive(n);
      DotScales(a, n, a, n, c);
      UnitFactor(Dot(r, r), c, Dot(a, a));
    }
  }

  lemma UnitFactor(x: real, c: real, d: real)
    requires c > 0.0 && x * c == d && d == c
    ensures x == 1.0
  {
    assert (x - 1.0) * c == 0.0;
  }

  /** Twice a dot product is bounded by the sum of the squared lengths, with either sign. */
  lemma {:induction false} DotBound(a: Vector, b: Vector)
    requires |a| == |b|
    ensures 2.0 * Dot(a, b) <= SumSq(a) + SumSq(b)
    ensures -(2.0 * Dot(a, b)) <= SumSq(a) + SumSq(b)
  {
    if |a| > 0 {
      var k := |a| - 1;
      DotBound(a[..k], b[..k]);
      var x, y := a[k], b[k];
      SquareNonNegative(x - y);
      SquareNonNegative(x + y);
      assert (x - y) * (x - y) == x * x - 2.0 * (x * y) + y * y;
      assert (x + y) * (x + y) == x * x + 2.0 * (x * y) + y * y;
    }
  }

  /** The dot product of two normalized (or zero) vectors lies in [-1, 1]. */
  lemma CosineBound(a: Vector, m: real, b: Vector, n: real)
    requires |a| == |b| && IsNorm(m, a) && IsNorm(n, b)
    ensures -1.0 <= Dot(Normalize(a, m), Normalize(b, n)) <= 1.0
  {
    NormalizedLength(a, m);
    NormalizedLength(b, n);
    DotBound(Normalize(a, m), Normalize(b, n));
  }

  /** The zero vector stays as it is and has similarity 0 to everything. */
  lemma ZeroVectorDot(a: Vector, m: real, b: Vector, n: real)
    requires |a| == |b| && IsNorm(m, a) && m == 0.0
    ensures Dot(Normalize(a, m), Normalize(b, n)) == 0.0
  {
    ZeroNorm(m, a);
    ZeroNormDot(a, Normalize(b, n));
  }

  lemma ZeroNorm(n: real, a: Vector)
    requires IsNorm(n, a) && n == 0.0
    ensures SumSq(a) == 0.0
  {
  }
}
