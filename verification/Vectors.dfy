/** Vector arithmetic over exact reals: normalisation and cosine similarity. */
module Vectors {

  /** The product, named so that proofs about sums of products need not look into it. */
  function Times(x: real, y: real): real {
    x * y
  }

  /** A square root, of which only its defining property is used. */
  ghost predicate IsSqrt(sqrt: real -> real) {
    forall x | x >= 0.0 :: sqrt(x) >= 0.0 && Times(sqrt(x), sqrt(x)) == x
  }

  function Dot(a: seq<real>, b: seq<real>): real
    requires |a| == |b|
  {
    if a == [] then 0.0
    else Dot(a[..|a| - 1], b[..|b| - 1]) + Times(a[|a| - 1], b[|b| - 1])
  }

  function Scaled(a: seq<real>, c: real): (r: seq<real>)
    ensures |r| == |a| && forall i | 0 <= i < |a| :: r[i] == Times(c, a[i])
  {
    seq(|a|, i requires 0 <= i < |a| => Times(c, a[i]))
  }

  function Normalized(v: seq<real>, sqrt: real -> real): seq<real> {
    var norm := sqrt(Dot(v, v));
    if Dot(v, v) == 0.0 || norm == 0.0 then v else Scaled(v, 1.0 / norm)
  }

  function CosineOf(a: seq<real>, b: seq<real>, sqrt: real -> real): real {
    if a == [] || |a| != |b| then 0.0
    else
      var na, nb := Dot(a, a), Dot(b, b);
      var d := Times(sqrt(na), sqrt(nb));
      if na == 0.0 || nb == 0.0 || d == 0.0 then 0.0 else Dot(a, b) / d
  }

  // ---------- products of reals ----------

  lemma PositiveProduct(x: real, y: real)
    requires x > 0.0 && y > 0.0
    ensures Times(x, y) > 0.0
  {
  }

  lemma PositiveSquare(x: real)
    requires x != 0.0
    ensures Times(x, x) > 0.0
  {
    hide Times;
    if x > 0.0 {
      PositiveProduct(x, x);
    } else {
      PositiveProduct(-x, -x);
      SquareOfNegative(x);
    }
  }

  lemma Square(x: real)
    ensures Times(x, x) >= 0.0 && (Times(x, x) == 0.0 <==> x == 0.0)
  {
    if x != 0.0 {
      PositiveSquare(x);
      hide Times;
    }
  }

  lemma Commute(x: real, y: real)
    ensures Times(x, y) == Times(y, x)
  {
  }

  lemma Associate(x: real, y: real, z: real)
    ensures Times(Times(x, y), z) == Times(x, Times(y, z))
  {
  }

  lemma Distribute(c: real, x: real, y: real)
    ensures Times(c, x + y) == Times(c, x) + Times(c, y)
  {
  }

  lemma SquareOfProduct(x: real, y: real)
    ensures Times(Times(x, y), Times(x, y)) == Times(Times(x, x), Times(y, y))
  {
  }

  lemma DifferenceOfSquares(x: real, y: real)
    ensures Times(y - x, y + x) == Times(y, y) - Times(x, x)
  {
  }

  lemma SquareOfNegative(x: real)
    ensures Times(-x, -x) == Times(x, x)
  {
  }

  lemma QuotientIs(q: real, d: real, x: real)
    requires d != 0.0
    ensures q / d == x <==> Times(x, d) == q
    ensures q / d == Times(1.0 / d, q)
  {
  }

  lemma QuotientBounds(q: real, d: real)
    requires d > 0.0 && -d <= q <= d
    ensures -1.0 <= q / d <= 1.0
  {
  }

  lemma SquareLess(x: real, y: real)
    requires 0.0 <= x < y
    ensures Times(x, x) < Times(y, y)
  {
    hide Times;
    PositiveProduct(y - x, y + x);
    DifferenceOfSquares(x, y);
  }

  lemma SameRoot(x: real, y: real)
    requires x >= 0.0 && y >= 0.0 && Times(x, x) == Times(y, y)
    ensures x == y
  {
    hide Times;
    if x > y {
      SquareLess(y, x);
      assert false;
    } else if y > x {
      SquareLess(x, y);
      assert false;
    }
  }

  lemma BoundedByRoot(q: real, d: real)
    requires d > 0.0 && Times(q, q) <= Times(d, d)
    ensures -1.0 <= q / d <= 1.0
  {
    hide Times;
    if q > d {
      SquareLess(d, q);
      assert false;
    } else if -q > d {
      SquareLess(d, -q);
      SquareOfNegative(q);
      assert false;
    }
    QuotientBounds(q, d);
  }

  lemma RootPositive(sqrt: real -> real, x: real)
    requires IsSqrt(sqrt) && x >= 0.0
    ensures sqrt(x) >= 0.0 && Times(sqrt(x), sqrt(x)) == x
    ensures sqrt(x) == 0.0 <==> x == 0.0
  {
    hide Times;
    Square(sqrt(x));
  }

  // ---------- the loops ----------

  method Normalize(v: array<real>, sqrt: real -> real) returns (out: array<real>)
    requires IsSqrt(sqrt)
    ensures out[..] == Normalized(v[..], sqrt)
    ensures Dot(v[..], v[..]) == 0.0 ==> out == v
    ensures Dot(v[..], v[..]) != 0.0 ==> fresh(out)
  {
    var sum := SumOfSquares(v);
    hide Times, Dot;
    SquaresNonNegative(v[..]);
    RootPositive(sqrt, sum);
    if sum == 0.0 {
      return v;
    }
    var norm := sqrt(sum);
    out := new real[v.Length];
    for i := 0 to v.Length
      invariant forall j | 0 <= j < i :: out[j] == Times(1.0 / norm, v[j])
      invariant sum == Dot(v[..], v[..])
    {
      QuotientIs(v[i], norm, 0.0);
      out[i] := v[i] / norm;
    }
  }

  method SumOfSquares(v: array<real>) returns (sum: real)
    ensures sum == Dot(v[..], v[..])
  {
    sum := 0.0;
    for i := 0 to v.Length
      invariant sum == Dot(v[..i], v[..i])
    {
      assert v[..i + 1][..i] == v[..i];
      sum := sum + v[i] * v[i];
    }
    assert v[..v.Length] == v[..];
  }

  method Cosine(a: array<real>, b: array<real>, sqrt: real -> real) returns (r: real)
    requires IsSqrt(sqrt)
    ensures r == CosineOf(a[..], b[..], sqrt)
  {
    if a.Length == 0 || a.Length != b.Length {
      return 0.0;
    }
    var dot, na, nb := 0.0, 0.0, 0.0;
    for i := 0 to a.Length
      invariant dot == Dot(a[..i], b[..i]) && na == Dot(a[..i], a[..i]) && nb == Dot(b[..i], b[..i])
    {
      assert a[..i + 1][..i] == a[..i] && b[..i + 1][..i] == b[..i];
      dot := dot + a[i] * b[i];
      na := na + a[i] * a[i];
      nb := nb + b[i] * b[i];
    }
    assert a[..a.Length] == a[..] && b[..b.Length] == b[..];
    if na == 0.0 || nb == 0.0 {
      return 0.0;
    }
    DenominatorPositive(a[..], b[..], sqrt);
    return dot / (sqrt(na) * sqrt(nb));
  }

  lemma DenominatorPositive(a: seq<real>, b: seq<real>, sqrt: real -> real)
    requires IsSqrt(sqrt) && |a| == |b| && Dot(a, a) != 0.0 && Dot(b, b) != 0.0
    ensures Dot(a, a) > 0.0 && Dot(b, b) > 0.0
    ensures sqrt(Dot(a, a)) > 0.0 && sqrt(Dot(b, b)) > 0.0
    ensures Times(sqrt(Dot(a, a)), sqrt(Dot(b, b))) > 0.0
  {
    hide Times;
    SquaresNonNegative(a);
    SquaresNonNegative(b);
    RootPositive(sqrt, Dot(a, a));
    RootPositive(sqrt, Dot(b, b));
    PositiveProduct(sqrt(Dot(a, a)), sqrt(Dot(b, b)));
  }

  // ---------- sums of products ----------

  lemma {:induction false} SquaresNonNegative(v: seq<real>)
    ensures Dot(v, v) >= 0.0
    ensures Dot(v, v) == 0.0 <==> forall i | 0 <= i < |v| :: v[i] == 0.0
  {
    hide Times;
    if v != [] {
      var init, x := v[..|v| - 1], v[|v| - 1];
      SquaresNonNegative(init);
      Square(x);
      assert forall i | 0 <= i < |init| :: v[i] == init[i];
    }
  }

  lemma {:induction false} DotSymmetric(a: seq<real>, b: seq<real>)
    requires |a| == |b|
    ensures Dot(a, b) == Dot(b, a)
  {
    hide Times;
    if a != [] {
      DotSymmetric(a[..|a| - 1], b[..|b| - 1]);
      Commute(a[|a| - 1], b[|b| - 1]);
    }
  }

  lemma {:induction false} DotScaled(a: seq<real>, b: seq<real>, c: real)
    requires |a| == |b|
    ensures Dot(Scaled(a, c), b) == Times(c, Dot(a, b))
  {
    if a == [] {
      assert Times(c, 0.0) == 0.0;
    } else {
      hide Times;
      var a', b' := a[..|a| - 1], b[..|b| - 1];
      DotScaled(a', b', c);
      assert Scaled(a, c)[..|a| - 1] == Scaled(a', c);
      Associate(c, a[|a| - 1], b[|b| - 1]);
      Distribute(c, Dot(a', b'), Times(a[|a| - 1], b[|b| - 1]));
    }
  }

  lemma SquaresScaled(a: seq<real>, c: real)
    ensures Dot(Scaled(a, c), Scaled(a, c)) == Times(Times(c, c), Dot(a, a))
  {
    hide Times;
    DotScaled(a, Scaled(a, c), c);
    DotSymmetric(a, Scaled(a, c));
    DotScaled(a, a, c);
    Associate(c, c, Dot(a, a));
  }

  /** The difference t * a - b. */
  function Offset(a: seq<real>, b: seq<real>, t: real): (r: seq<real>)
    requires |a| == |b|
    ensures |r| == |a| && forall i | 0 <= i < |a| :: r[i] == Times(t, a[i]) - b[i]
  {
    seq(|a|, i requires 0 <= i < |a| => Times(t, a[i]) - b[i])
  }

  /** The polynomial t^2 p - 2 t q + r. */
  function Quadratic(t: real, p: real, q: real, r: real): real {
    t * t * p - 2.0 * t * q + r
  }

  lemma QuadraticStep(t: real, p: real, q: real, r: real, x: real, y: real)
    ensures Quadratic(t, p, q, r) + Times(Times(t, x) - y, Times(t, x) - y)
            == Quadratic(t, p + Times(x, x), q + Times(x, y), r + Times(y, y))
  {
  }

  lemma {:induction false} OffsetSquares(a: seq<real>, b: seq<real>, t: real)
    requires |a| == |b|
    ensures Dot(Offset(a, b, t), Offset(a, b, t)) == Quadratic(t, Dot(a, a), Dot(a, b), Dot(b, b))
  {
    if a == [] {
      assert Quadratic(t, 0.0, 0.0, 0.0) == 0.0;
    } else {
      hide Times, Quadratic;
      var a', b' := a[..|a| - 1], b[..|b| - 1];
      OffsetSquares(a', b', t);
      assert Offset(a, b, t)[..|a| - 1] == Offset(a', b', t);
      QuadraticStep(t, Dot(a', a'), Dot(a', b'), Dot(b', b'), a[|a| - 1], b[|b| - 1]);
    }
  }

  /** A quadratic that is not negative at q / p has a discriminant that is not positive. */
  lemma Discriminant(p: real, q: real, r: real)
    requires p > 0.0 && Quadratic(q / p, p, q, r) >= 0.0
    ensures Times(q, q) <= Times(p, r)
  {
    var t := q / p;
    assert t * p == q;
    assert t * t * p == t * q;
    assert r >= t * q;
    assert p * r >= p * (t * q);
    assert p * (t * q) == (t * p) * q;
  }

  lemma {:induction false} ZeroDot(a: seq<real>, b: seq<real>)
    requires |a| == |b| && forall i | 0 <= i < |a| :: a[i] == 0.0
    ensures Dot(a, b) == 0.0
  {
    if a != [] {
      ZeroDot(a[..|a| - 1], b[..|b| - 1]);
    }
  }

  /** Cauchy-Schwarz: the squared dot product is at most the product of the squared norms. */
  lemma CauchySchwarz(a: seq<real>, b: seq<real>)
    requires |a| == |b|
    ensures Times(Dot(a, b), Dot(a, b)) <= Times(Dot(a, a), Dot(b, b))
  {
    hide Quadratic, Dot;
    SquaresNonNegative(a);
    if Dot(a, a) == 0.0 {
      ZeroDot(a, b);
    } else {
      hide Times;
      var t := Dot(a, b) / Dot(a, a);
      OffsetSquares(a, b, t);
      SquaresNonNegative(Offset(a, b, t));
      Discriminant(Dot(a, a), Dot(a, b), Dot(b, b));
    }
  }

  // ---------- cosine similarity ----------

  /** The cosine of any two vectors lies between -1 and 1. */
  lemma CosineBounded(a: seq<real>, b: seq<real>, sqrt: real -> real)
    requires IsSqrt(sqrt)
    ensures -1.0 <= CosineOf(a, b, sqrt) <= 1.0
  {
    hide Dot, Times;
    if a != [] && |a| == |b| && Dot(a, a) != 0.0 && Dot(b, b) != 0.0 {
      var x, y := sqrt(Dot(a, a)), sqrt(Dot(b, b));
      DenominatorPositive(a, b, sqrt);
      CauchySchwarz(a, b);
      SquareOfProduct(x, y);
      BoundedByRoot(Dot(a, b), Times(x, y));
    }
  }

  lemma CosineSymmetric(a: seq<real>, b: seq<real>, sqrt: real -> real)
    ensures CosineOf(a, b, sqrt) == CosineOf(b, a, sqrt)
  {
    hide Times;
    if |a| == |b| {
      DotSymmetric(a, b);
      Commute(sqrt(Dot(a, a)), sqrt(Dot(b, b)));
    }
  }

  lemma ScaledPositive(c: real, p: real)
    requires c > 0.0 && p >= 0.0
    ensures Times(Times(c, c), p) >= 0.0 && (Times(Times(c, c), p) == 0.0 <==> p == 0.0)
  {
    PositiveSquare(c);
    if p > 0.0 {
      hide Times;
      PositiveProduct(Times(c, c), p);
    }
  }

  lemma RootOfScaled(sqrt: real -> real, c: real, p: real)
    requires IsSqrt(sqrt) && c > 0.0 && p > 0.0
    ensures sqrt(Times(Times(c, c), p)) == Times(c, sqrt(p))
  {
    hide Times;
    RootPositive(sqrt, p);
    ScaledPositive(c, p);
    RootPositive(sqrt, Times(Times(c, c), p));
    PositiveProduct(c, sqrt(p));
    SquareOfProduct(c, sqrt(p));
    SameRoot(sqrt(Times(Times(c, c), p)), Times(c, sqrt(p)));
  }

  lemma Cancel(q: real, d: real, c: real)
    requires c > 0.0 && d > 0.0
    ensures Times(c, d) > 0.0 && Times(c, q) / Times(c, d) == q / d
  {
    hide Times;
    var x := q / d;
    QuotientIs(q, d, x);
    PositiveProduct(c, d);
    Commute(x, d);
    Associate(c, d, x);
    Commute(Times(c, d), x);
    QuotientIs(Times(c, q), Times(c, d), x);
  }

  /** Stretching a vector by a positive factor leaves its cosines unchanged. */
  lemma CosineScaleInvariant(a: seq<real>, b: seq<real>, c: real, sqrt: real -> real)
    requires IsSqrt(sqrt) && c > 0.0
    ensures CosineOf(Scaled(a, c), b, sqrt) == CosineOf(a, b, sqrt)
  {
    hide Times, Dot, IsSqrt;
    if a != [] && |a| == |b| {
      SquaresScaled(a, c);
      DotScaled(a, b, c);
      SquaresNonNegative(a);
      ScaledPositive(c, Dot(a, a));
      if Dot(a, a) != 0.0 && Dot(b, b) != 0.0 {
        var x, y := sqrt(Dot(a, a)), sqrt(Dot(b, b));
        DenominatorPositive(a, b, sqrt);
        RootOfScaled(sqrt, c, Dot(a, a));
        Associate(c, x, y);
        Cancel(Dot(a, b), Times(x, y), c);
      }
    }
  }

  /** Every non-zero vector is normalised to squared norm exactly 1; the zero vector stays. */
  lemma NormalizedIsUnit(v: seq<real>, sqrt: real -> real)
    requires IsSqrt(sqrt)
    ensures if forall i | 0 <= i < |v| :: v[i] == 0.0 then Normalized(v, sqrt) == v
            else Dot(Normalized(v, sqrt), Normalized(v, sqrt)) == 1.0
  {
    hide Times, Dot;
    SquaresNonNegative(v);
    RootPositive(sqrt, Dot(v, v));
    if Dot(v, v) != 0.0 {
      var norm := sqrt(Dot(v, v));
      SquaresScaled(v, 1.0 / norm);
      InverseSquare(norm);
    }
  }

  lemma InverseSquare(n: real)
    requires n > 0.0
    ensures Times(Times(1.0 / n, 1.0 / n), Times(n, n)) == 1.0
  {
    var i := 1.0 / n;
    assert i * n == 1.0;
    assert (i * i) * (n * n) == (i * n) * (i * n);
  }

  /** Normalising both vectors does not change their cosine. */
  lemma CosineOfNormalized(a: seq<real>, b: seq<real>, sqrt: real -> real)
    requires IsSqrt(sqrt)
    ensures CosineOf(Normalized(a, sqrt), Normalized(b, sqrt), sqrt) == CosineOf(a, b, sqrt)
  {
    hide CosineOf, IsSqrt;
    OneNormalized(a, Normalized(b, sqrt), sqrt);
    CosineSymmetric(a, Normalized(b, sqrt), sqrt);
    OneNormalized(b, a, sqrt);
    CosineSymmetric(a, b, sqrt);
  }

  lemma OneNormalized(a: seq<real>, b: seq<real>, sqrt: real -> real)
    requires IsSqrt(sqrt)
    ensures CosineOf(Normalized(a, sqrt), b, sqrt) == CosineOf(a, b, sqrt)
  {
    hide CosineOf, Dot, Times;
    SquaresNonNegative(a);
    RootPositive(sqrt, Dot(a, a));
    if Dot(a, a) != 0.0 {
      assert 1.0 / sqrt(Dot(a, a)) > 0.0;
      CosineScaleInvariant(a, b, 1.0 / sqrt(Dot(a, a)), sqrt);
    }
  }

  /** A non-zero vector has cosine 1 with every positive multiple of itself. */
  lemma CosineOfSelf(v: seq<real>, c: real, sqrt: real -> real)
    requires IsSqrt(sqrt) && c > 0.0 && exists i :: 0 <= i < |v| && v[i] != 0.0
    ensures CosineOf(Scaled(v, c), v, sqrt) == 1.0
  {
    hide Times, Dot;
    CosineScaleInvariant(v, v, c, sqrt);
    SquaresNonNegative(v);
    RootPositive(sqrt, Dot(v, v));
    assert Dot(v, v) / Dot(v, v) == 1.0;
  }

  /** Vectors of different lengths, no coordinates at all, or only zeros have cosine 0. */
  lemma CosineOfNothing(a: seq<real>, b: seq<real>, sqrt: real -> real)
    requires |a| != |b| || (forall i | 0 <= i < |a| :: a[i] == 0.0) || (forall i | 0 <= i < |b| :: b[i] == 0.0)
    ensures CosineOf(a, b, sqrt) == 0.0
  {
    SquaresNonNegative(a);
    SquaresNonNegative(b);
  }

  /** The cosine times the two lengths is the dot product, so the squared distance of two vectors obeys the law of cosines. */
  lemma LawOfCosines(a: seq<real>, b: seq<real>, sqrt: real -> real)
    requires IsSqrt(sqrt) && |a| == |b| && Dot(a, a) != 0.0 && Dot(b, b) != 0.0
    ensures var projected := Times(CosineOf(a, b, sqrt), Times(sqrt(Dot(a, a)), sqrt(Dot(b, b))));
            && projected == Dot(a, b)
            && Dot(Offset(a, b, 1.0), Offset(a, b, 1.0)) == Dot(a, a) + Dot(b, b) - 2.0 * projected
  {
    DenominatorPositive(a, b, sqrt);
    OffsetSquares(a, b, 1.0);
    hide Dot, Times;
    QuotientIs(Dot(a, b), Times(sqrt(Dot(a, a)), sqrt(Dot(b, b))), CosineOf(a, b, sqrt));
    assert a != [] by { SquaresNonNegative(a); }
  }

  lemma RatioQuadratic(x: real, y: real)
    requires x > 0.0
    ensures Quadratic(y / x, Times(x, x), Times(x, y), Times(y, y)) == 0.0
  {
    var t := y / x;
    assert t * x == y;
    assert t * t * (x * x) == (t * x) * (t * x);
    assert t * (x * y) == (t * x) * y;
  }

  /** Two non-zero vectors have cosine 1 exactly when they are positive multiples of each other. */
  lemma CosineOneIff(a: seq<real>, b: seq<real>, sqrt: real -> real)
    requires IsSqrt(sqrt) && |a| == |b| && Dot(a, a) != 0.0 && Dot(b, b) != 0.0
    ensures CosineOf(a, b, sqrt) == 1.0 <==> exists c :: c > 0.0 && b == Scaled(a, c)
  {
    hide Dot, Times, Quadratic;
    DenominatorPositive(a, b, sqrt);
    SquaresNonNegative(a);
    if CosineOf(a, b, sqrt) == 1.0 {
      AlignedIsMultiple(a, b, sqrt);
    }
    if c :| c > 0.0 && b == Scaled(a, c) {
      CosineOfSelf(a, c, sqrt);
      CosineSymmetric(a, b, sqrt);
    }
  }

  lemma AlignedIsMultiple(a: seq<real>, b: seq<real>, sqrt: real -> real)
    requires IsSqrt(sqrt) && |a| == |b| && Dot(a, a) != 0.0 && Dot(b, b) != 0.0 && CosineOf(a, b, sqrt) == 1.0
    ensures exists c :: c > 0.0 && b == Scaled(a, c)
  {
    hide Dot, Times, Quadratic;
    DenominatorPositive(a, b, sqrt);
    var x, y := sqrt(Dot(a, a)), sqrt(Dot(b, b));
    var t := y / x;
    LawOfCosines(a, b, sqrt);
    OneTimes(Times(x, y));
    RootPositive(sqrt, Dot(a, a));
    RootPositive(sqrt, Dot(b, b));
    RatioQuadratic(x, y);
    OffsetSquares(a, b, t);
    SquaresNonNegative(Offset(a, b, t));
    RatioPositive(x, y);
    forall i | 0 <= i < |a| ensures b[i] == Scaled(a, t)[i] {
      assert Offset(a, b, t)[i] == 0.0;
    }
    assert b == Scaled(a, t);
  }

  lemma OneTimes(x: real)
    ensures Times(1.0, x) == x
  {
  }

  lemma RatioPositive(x: real, y: real)
    requires x > 0.0 && y > 0.0
    ensures y / x > 0.0
  {
  }
}
