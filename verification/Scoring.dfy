/**
 The confidence arithmetic of the KYC service, over exact reals: the weighted
 sum of the face, name and demographic scores, clamped to [0, 1] and rounded to
 four decimal places.
 */
module Scoring {
  import opened Domain

  function Clamp01(v: real): real {
    if v < 0.0 then 0.0 else if v > 1.0 then 1.0 else v
  }

  /** Conversion of a float to an int: the fraction is dropped, so negatives round up. */
  function Truncate(v: real): int {
    if v >= 0.0 then v.Floor else -((-v).Floor)
  }

  function TenThousandths(k: int): FourPlaces {
    assert k as real / 10000.0 * 10000.0 == k as real;
    k as real / 10000.0
  }

  function Round4(v: real): FourPlaces {
    TenThousandths(Truncate(v * 10000.0 + 0.5))
  }

  function Weighted(face: real, name: real, demo: bool): real {
    0.65 * face + 0.25 * name + 0.10 * (if demo then 1.0 else 0.0)
  }

  function Confidence(face: real, name: real, demo: bool): FourPlaces {
    Round4(Clamp01(Weighted(face, name, demo)))
  }

  lemma TruncateMonotone(a: real, b: real)
    requires a <= b
    ensures Truncate(a) <= Truncate(b)
  {
    if a >= 0.0 {
      FloorMonotone(a, b);
    } else if b < 0.0 {
      FloorMonotone(-b, -a);
    } else {
      FloorMonotone(0.0, -a);
      FloorMonotone(0.0, b);
    }
  }

  lemma FloorMonotone(a: real, b: real)
    requires a <= b
    ensures a.Floor <= b.Floor
  {
    assert a.Floor as real <= a < a.Floor as real + 1.0;
    assert b.Floor as real <= b < b.Floor as real + 1.0;
  }

  lemma Round4Monotone(a: real, b: real)
    requires a <= b
    ensures Round4(a) <= Round4(b)
  {
    TruncateMonotone(a * 10000.0 + 0.5, b * 10000.0 + 0.5);
  }

  /** On non-negative values `Round4` picks the nearest multiple of 1/10000, ties going up. */
  lemma Round4Nearest(v: real) returns (k: nat)
    requires v >= 0.0
    ensures Round4(v) == k as real / 10000.0
    ensures -0.00005 < Round4(v) - v <= 0.00005
  {
    var x := v * 10000.0 + 0.5;
    assert x.Floor as real <= x < x.Floor as real + 1.0;
    FloorMonotone(0.0, x);
    k := x.Floor;
  }

  /** A negative value is rounded to the multiple of 1/10000 that is between half a place and one and a half nearer to
      zero, or to zero: the conversion drops the fraction after half a place has been added. */
  lemma Round4Negative(v: real) returns (k: nat)
    requires v < 0.0
    ensures Round4(v) == -(k as real / 10000.0)
    ensures k == 0 <==> v > -0.00015
    ensures k > 0 ==> 0.00005 <= Round4(v) - v < 0.00015
  {
    var x := v * 10000.0 + 0.5;
    var y := if x >= 0.0 then x else -x;
    assert y.Floor as real <= y < y.Floor as real + 1.0;
    k := if x >= 0.0 then 0 else y.Floor;
  }

  lemma TruncateHalf(k: int)
    ensures Truncate(k as real + 0.5) == if k >= 0 then k else k + 1
  {
    var x := k as real + 0.5;
    if k < 0 {
      var y := -x;
      assert y == (-k - 1) as real + 0.5;
      assert y.Floor as real <= y < y.Floor as real + 1.0;
      assert y.Floor == -k - 1;
    } else {
      assert x.Floor as real <= x < x.Floor as real + 1.0;
      assert x.Floor == k;
    }
  }

  /** Rounding twice equals rounding once exactly when the value is above -0.00015:
      below that the truncation toward zero moves a negative result again. */
  lemma Round4StableIff(v: real)
    ensures Round4(Round4(v)) == Round4(v) <==> v > -0.00015
  {
    var x := v * 10000.0 + 0.5;
    var k := Truncate(x);
    assert Round4(v) * 10000.0 == k as real;
    TruncateHalf(k);
    assert Round4(Round4(v)) == (if k >= 0 then k else k + 1) as real / 10000.0;
    var y := if x >= 0.0 then x else -x;
    assert y.Floor as real <= y < y.Floor as real + 1.0;
    assert k >= 0 <==> x > -1.0;
  }

  /** The confidence lies on the grid 0, 0.0001, ..., 1 and within 0.00005 of the
      clamped weighted sum, above it only by rounding a tie or less. */
  lemma ConfidenceGrid(face: real, name: real, demo: bool) returns (k: nat)
    ensures k <= 10000
    ensures Confidence(face, name, demo) == k as real / 10000.0
    ensures -0.00005 < Confidence(face, name, demo) - Clamp01(Weighted(face, name, demo)) <= 0.00005
  {
    var c := Clamp01(Weighted(face, name, demo));
    k := Round4Nearest(c);
    assert k as real < 10001.0;
  }

  /** The confidence in numbers: 0.65 of the face score, 0.25 of the name score and 0.10 for matching demographics, at
      least 0 and at most 1, to the nearest multiple of 1/10000, ties up. */
  lemma ConfidenceIs(face: real, name: real, demo: bool) returns (k: nat)
    ensures k <= 10000 && Confidence(face, name, demo) == k as real / 10000.0
    ensures var sum := 0.65 * face + 0.25 * name + (if demo then 0.10 else 0.0);
            && (sum <= 0.0 ==> k == 0) && (sum >= 1.0 ==> k == 10000)
            && (0.0 <= sum <= 1.0 ==> k as real / 10000.0 - 0.00005 <= sum < k as real / 10000.0 + 0.00005)
  {
    k := ConfidenceGrid(face, name, demo);
  }

  /** Raising the face score or the name score, or gaining the demographic match,
      never lowers the confidence. */
  lemma ConfidenceMonotone(f1: real, n1: real, d1: bool, f2: real, n2: real, d2: bool)
    requires f1 <= f2 && n1 <= n2 && (d1 ==> d2)
    ensures Confidence(f1, n1, d1) <= Confidence(f2, n2, d2)
  {
    assert Weighted(f1, n1, d1) <= Weighted(f2, n2, d2);
    Round4Monotone(Clamp01(Weighted(f1, n1, d1)), Clamp01(Weighted(f2, n2, d2)));
  }

  /** Scores of at most 1 give full confidence exactly when the demographics match
      and the weighted shortfall from perfect scores is at most 0.00005. */
  lemma FullConfidenceIff(face: real, name: real, demo: bool)
    requires face <= 1.0 && name <= 1.0
    ensures Confidence(face, name, demo) == 1.0 <==>
            demo && 0.65 * (1.0 - face) + 0.25 * (1.0 - name) <= 0.00005
  {
    var w := Weighted(face, name, demo);
    var c := Clamp01(w);
    var x := c * 10000.0 + 0.5;
    assert x.Floor as real <= x < x.Floor as real + 1.0;
    assert Confidence(face, name, demo) == x.Floor as real / 10000.0;
    assert x.Floor == 10000 <==> x >= 10000.0;
    assert x >= 10000.0 <==> w >= 0.99995;
  }
}
