/** Cosine similarity of two embeddings, over the reals. */
module Similarity {

  type Vector = seq<real>

  ghost function Dot(a: Vector, b: Vector): real
    requires |a| == |b|
  {
    if a == [] then 0.0
    else Dot(a[..|a| - 1], b[..|b| - 1]) + Product(a[|a| - 1], b[|b| - 1])
  }

  ghost function Product(x: real, y: real): real {
    x * y
  }

  /** The accumulators of the similarity loop. */
  method Accumulate(a: Vector, b: Vector) returns (dot: real, magA: real, magB: real)
    requires |a| == |b|
    ensures dot == Dot(a, b) && magA == Dot(a, a) && magB == Dot(b, b)
    ensures Bounded(dot, magA, magB)
  {
    dot, magA, magB := 0.0, 0.0, 0.0;
    for i := 0 to |a|
      invariant dot == Dot(a[..i], b[..i])
      invariant magA == Dot(a[..i], a[..i])
      invariant magB == Dot(b[..i], b[..i])
    {
      assert a[..i + 1][..i] == a[..i] && b[..i + 1][..i] == b[..i];
      dot := dot + a[i] * b[i];
      magA := magA + a[i] * a[i];
      magB := magB + b[i] * b[i];
    }
    assert a[..|a|] == a && b[..|b|] == b;
    CauchySchwarz(a, b);
  }

  /** The quotient dot / (sqrt(magA) * sqrt(magB)) meets a positive threshold
      exactly when this holds; vectors of different or zero length, and zero
      vectors, have similarity 0 and meet none. */
  ghost predicate Meets(a: Vector, b: Vector, threshold: real)
    requires threshold > 0.0
  {
    |a| == |b| != 0 && Passes(Dot(a, b), Dot(a, a), Dot(b, b), threshold)
  }

  ghost predicate Passes(dot: real, magA: real, magB: real, threshold: real) {
    magA > 0.0 && magB > 0.0 && dot > 0.0 && dot * dot >= threshold * threshold * (magA * magB)
  }

  method MeetsThreshold(a: Vector, b: Vector, threshold: real) returns (r: bool)
    requires threshold > 0.0
    ensures r <==> Meets(a, b, threshold)
  {
    if |a| != |b| || |a| == 0 {
      return false;
    }
    var dot, magA, magB := Accumulate(a, b);
    if magA == 0.0 || magB == 0.0 {
      return false;
    }
    return dot > 0.0 && dot * dot >= threshold * threshold * (magA * magB);
  }

  lemma {:induction false} DotSymmetric(a: Vector, b: Vector)
    requires |a| == |b|
    ensures Dot(a, b) == Dot(b, a)
  {
    if a != [] {
      DotSymmetric(a[..|a| - 1], b[..|b| - 1]);
    }
  }

  lemma MulStrict(x: real, y: real, z: real)
    requires x < y && z > 0.0
    ensures x * z < y * z
  {
  }

  lemma ZeroSquare(x: real)
    ensures x * x <= 0.0 ==> x == 0.0
  {
    if x != 0.0 {
      assert x * x / x == x;
    }
  }

  /** 2dxy <= ay² + bx² whenever d² <= ab: multiply by a and complete the square. */
  lemma CrossTerm(a: real, b: real, d: real, x: real, y: real)
    requires a >= 0.0 && b >= 0.0 && d * d <= a * b
    ensures 2.0 * (d * (x * y)) <= a * (y * y) + b * (x * x)
  {
    if a == 0.0 {
      assert a * b == 0.0 * b == 0.0;
      ZeroSquare(d);
      assert d * (x * y) == 0.0 * (x * y) == 0.0;
      assert a * (y * y) == 0.0 * (y * y) == 0.0;
    } else {
      var e := a * (y * y) + b * (x * x) - 2.0 * (d * (x * y));
      var s := a * y - d * x;
      assert a * e == s * s + (a * b - d * d) * (x * x);
      assert a * e >= 0.0;
    }
  }

  ghost predicate Bounded(d: real, p: real, q: real) {
    p >= 0.0 && q >= 0.0 && d * d <= p * q
  }

  lemma BoundedZero()
    ensures Bounded(0.0, 0.0, 0.0)
  {
  }

  /** (d + xy)² <= (p + x²)(q + y²) whenever d² <= pq. */
  lemma SchwarzStep(d: real, p: real, q: real, x: real, y: real)
    requires Bounded(d, p, q)
    ensures Bounded(d + Product(x, y), p + Product(x, x), q + Product(y, y))
  {
    CrossTerm(p, q, d, x, y);
    assert (x * y) * (x * y) == (x * x) * (y * y);
    assert (d + x * y) * (d + x * y) == d * d + 2.0 * (d * (x * y)) + (x * y) * (x * y);
    assert (p + x * x) * (q + y * y) == p * q + p * (y * y) + q * (x * x) + (x * x) * (y * y);
  }

  /** The quotient lies in [-1, 1]. */
  lemma {:induction false} CauchySchwarz(a: Vector, b: Vector)
    requires |a| == |b|
    ensures Bounded(Dot(a, b), Dot(a, a), Dot(b, b))
  {
    hide Bounded, Product;
    if a == [] {
      BoundedZero();
    } else {
      var a', b' := a[..|a| - 1], b[..|b| - 1];
      CauchySchwarz(a', b');
      SchwarzStep(Dot(a', b'), Dot(a', a'), Dot(b', b'), a[|a| - 1], b[|b| - 1]);
    }
  }

  lemma MeetsSymmetric(a: Vector, b: Vector, threshold: real)
    requires threshold > 0.0
    ensures Meets(a, b, threshold) <==> Meets(b, a, threshold)
  {
    if |a| == |b| {
      DotSymmetric(a, b);
    }
  }

  lemma SquareOrder(x: real, y: real)
    requires x > 0.0 && y > 0.0
    ensures x >= y <==> x * x >= y * y
  {
    if x >= y {
      assert x * x >= x * y >= y * y;
    } else {
      MulStrict(x, y, x);
      MulStrict(x, y, y);
    }
  }

  lemma QuotientOrder(d: real, s: real, t: real)
    requires s > 0.0
    ensures d / s >= t <==> d >= t * s
  {
    var q := d / s;
    assert q * s == d;
    if q >= t {
      assert (q - t) * s >= 0.0;
    } else {
      assert (t - q) * s > 0.0;
    }
  }

  lemma SquareOfProduct(t: real, s: real)
    ensures (t * s) * (t * s) == t * t * (s * s)
  {
  }

  lemma SquaredTest(d: real, p: real, q: real, s: real, t: real)
    requires s > 0.0 && t > 0.0 && s * s == p * q && Bounded(d, p, q)
    ensures Passes(d, p, q, t) <==> d / s >= t
  {
    var u := t * s;
    PositiveFactors(p, q, s * s);
    assert u > 0.0;
    QuotientOrder(d, s, t);
    SquareOfProduct(t, s);
    if d > 0.0 {
      SquareOrder(d, u);
    }
  }

  /** The test is the comparison of the source: for vectors of positive length, with `s` the
      product of their lengths, dot / s against the threshold. */
  lemma MeetsIsCosine(a: Vector, b: Vector, threshold: real, s: real)
    requires threshold > 0.0 && |a| == |b| && s > 0.0 && s * s == Dot(a, a) * Dot(b, b)
    ensures Meets(a, b, threshold) <==> Dot(a, b) / s >= threshold
  {
    CauchySchwarz(a, b);
    SquaredTest(Dot(a, b), Dot(a, a), Dot(b, b), s, threshold);
    assert a == [] ==> Dot(a, a) == 0.0;
    hide Passes;
  }

  lemma PositiveFactors(p: real, q: real, m: real)
    requires p >= 0.0 && q >= 0.0 && p * q == m
    ensures m > 0.0 ==> p > 0.0 && q > 0.0
  {
  }

  /** No pair of vectors meets a threshold above 1. */
  lemma NothingMeetsAboveOne(a: Vector, b: Vector, threshold: real)
    requires threshold > 1.0
    ensures !Meets(a, b, threshold)
  {
    if |a| == |b| && Meets(a, b, threshold) {
      CauchySchwarz(a, b);
      var m := Dot(a, a) * Dot(b, b);
      assert m > 0.0;
      MulStrict(1.0, threshold, threshold);
      MulStrict(1.0, threshold * threshold, m);
      assert false;
    }
  }

  /** An embedding meets a copy of itself at threshold t exactly when it is
      non-zero and t is at most 1. */
  lemma IdenticalMeets(a: Vector, threshold: real)
    requires threshold > 0.0
    ensures Meets(a, a, threshold) <==> Dot(a, a) > 0.0 && threshold <= 1.0
  {
    if threshold > 1.0 {
      NothingMeetsAboveOne(a, a, threshold);
    }
  }
}
