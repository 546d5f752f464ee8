/** Equality keys of decimals (crates/ultrasql-executor/src/value_key.rs). */
module DecimalKey {
  import opened Text

  type i128 = n: int | -0x8000_0000_0000_0000_0000_0000_0000_0000 <= n < 0x8000_0000_0000_0000_0000_0000_0000_0000

  function Pow10(n: nat): (p: nat)
    ensures p > 0
  {
    if n == 0 then 1 else 10 * Pow10(n - 1)
  }

  /** The number `v * 10^-s` that a decimal stands for; scales may be negative. */
  ghost function Value(v: int, s: int): real {
    if s <= 0 then (v * Pow10(-s)) as real else v as real / Pow10(s) as real
  }

  /** One trailing zero moves between the significand and the scale. */
  lemma StripKeepsValue(v: int, s: int)
    ensures Value(10 * v, s) == Value(v, s - 1)
  {
    if s <= 0 {
      assert Pow10(1 - s) == 10 * Pow10(-s);
      assert v * (10 * Pow10(-s)) == (10 * v) * Pow10(-s);
    } else {
      assert Pow10(s) == 10 * Pow10(s - 1);
      if s == 1 {
        assert Pow10(0) == 1 && Value(v, 0) == (v * 1) as real;
      } else {
        CancelTen(v as real, Pow10(s - 1) as real);
      }
    }
  }

  lemma CancelTen(v: real, p: real)
    requires p > 0.0
    ensures (10.0 * v) / (10.0 * p) == v / p
  {
  }

  lemma {:induction false} ScaleUp(v: int, s: int, d: nat)
    ensures Value(v, s) == Value(v * Pow10(d), s + d)
  {
    if d == 0 {
      assert v * Pow10(0) == v;
    } else {
      ScaleUp(v, s, d - 1);
      StripKeepsValue(v * Pow10(d - 1), s + d);
      assert 10 * (v * Pow10(d - 1)) == v * (10 * Pow10(d - 1));
    }
  }

  lemma ValueIsInjective(v: int, w: int, s: int)
    requires Value(v, s) == Value(w, s)
    ensures v == w
  {
    if s <= 0 {
      CancelFactor(v, w, Pow10(-s));
    } else {
      CancelDivisor(v as real, w as real, Pow10(s) as real);
    }
  }

  lemma CancelFactor(v: int, w: int, p: nat)
    requires p > 0 && v * p == w * p
    ensures v == w
  {
    assert v > w ==> (v - w) * p >= 1 * p;
    assert v < w ==> (w - v) * p >= 1 * p;
    assert v * p - w * p == (v - w) * p;
  }

  lemma CancelDivisor(v: real, w: real, p: real)
    requires p > 0.0 && v / p == w / p
    ensures v == w
  {
    assert v == (v / p) * p && w == (w / p) * p;
  }

  /** Zero with scale zero, or a significand without a trailing zero. */
  predicate Canonical(v: int, s: int) {
    if v == 0 then s == 0 else v % 10 != 0
  }

  lemma ZeroValueIff(v: int, s: int)
    ensures Value(v, s) == 0.0 <==> v == 0
  {
    assert Value(0, s) == 0.0;
    if Value(v, s) == 0.0 {
      ValueIsInjective(v, 0, s);
    }
  }

  /** A number has one canonical form. */
  lemma CanonicalIsUnique(v1: int, s1: int, v2: int, s2: int)
    requires Canonical(v1, s1) && Canonical(v2, s2) && Value(v1, s1) == Value(v2, s2)
    ensures v1 == v2 && s1 == s2
  {
    ZeroValueIff(v1, s1);
    ZeroValueIff(v2, s2);
    if v1 != 0 {
      if s1 <= s2 {
        LowerScaleIsEqual(v1, s1, v2, s2);
      } else {
        LowerScaleIsEqual(v2, s2, v1, s1);
      }
    }
  }

  lemma LowerScaleIsEqual(v1: int, s1: int, v2: int, s2: int)
    requires v2 % 10 != 0 && s1 <= s2 && Value(v1, s1) == Value(v2, s2)
    ensures v1 == v2 && s1 == s2
  {
    var d := s2 - s1;
    ScaleUp(v1, s1, d);
    ValueIsInjective(v1 * Pow10(d), v2, s2);
    if d > 0 {
      ScaledEndsInZero(v1, d);
    } else {
      assert v1 * Pow10(0) == v1;
    }
  }

  lemma ScaledEndsInZero(v: int, d: nat)
    requires d > 0
    ensures (v * Pow10(d)) % 10 == 0
  {
    var p := Pow10(d - 1);
    assert v * (10 * p) == 10 * (v * p);
  }

  lemma {:induction false} ProductIsLarge(v: int, p: nat)
    requires v != 0
    ensures if v > 0 then v * p >= p else v * p <= 0 - p
    decreases Abs(v)
  {
    if v > 1 {
      ProductIsLarge(v - 1, p);
      assert v * p == (v - 1) * p + p;
    } else if v < -1 {
      ProductIsLarge(v + 1, p);
      assert v * p == (v + 1) * p - p;
    }
  }

  lemma Pow10At39()
    ensures Pow10(39) == 1_000_000_000_000_000_000_000_000_000_000_000_000_000
  {
    Pow10At13();
    Pow10Adds(13, 13);
    Pow10Adds(26, 13);
  }

  /** A 128-bit number has at most 38 trailing zeros. */
  lemma FewZeros(v: int, n: nat, product: i128)
    requires v != 0 && v * Pow10(n) == product
    ensures n <= 38
  {
    Pow10At39();
    ProductIsLarge(v, Pow10(n));
    if n >= 39 {
      Pow10Grows(39, n);
    }
  }

  lemma Pow10At13()
    ensures Pow10(13) == 10_000_000_000_000
  {
    assert Pow10(4) == 10_000;
    assert Pow10(8) == 10_000 * Pow10(4);
    assert Pow10(12) == 10_000 * Pow10(8);
  }

  lemma {:induction false} Pow10Adds(m: nat, n: nat)
    ensures Pow10(m + n) == Pow10(m) * Pow10(n)
  {
    if m == 0 {
      assert Pow10(0) == 1;
    } else {
      Pow10Adds(m - 1, n);
      assert 10 * (Pow10(m - 1) * Pow10(n)) == (10 * Pow10(m - 1)) * Pow10(n);
    }
  }

  lemma {:induction false} Pow10Grows(m: nat, n: nat)
    requires m <= n
    ensures Pow10(m) <= Pow10(n)
  {
    if m < n {
      Pow10Grows(m, n - 1);
    }
  }

  function Abs(n: int): nat {
    if n < 0 then -n else n
  }

  /**
   Strips trailing zeros: the key stands for the same number, is canonical, and its scale stays
   within 38 of the given one, well inside 64 bits.
   */
  method CanonicalDecimalKey(value: i128, scale: i32) returns (significand: i128, keyScale: i64)
    ensures Canonical(significand, keyScale) && Value(significand, keyScale) == Value(value, scale)
    ensures value != 0 ==> scale - 38 <= keyScale <= scale
  {
    significand := value;
    if significand == 0 {
      ZeroValueIff(0, 0);
      ZeroValueIff(0, scale);
      return 0, 0;
    }
    var s: int := scale;
    ghost var zeros := 0;
    while significand % 10 == 0
      invariant significand != 0 && s == scale - zeros
      invariant Value(significand, s) == Value(value, scale)
      invariant significand * Pow10(zeros) == value
      decreases Abs(significand)
    {
      StripKeepsValue(significand / 10, s);
      assert (significand / 10) * Pow10(zeros + 1) == 10 * (significand / 10) * Pow10(zeros);
      significand := significand / 10;
      s := s - 1;
      zeros := zeros + 1;
    }
    FewZeros(significand, zeros, value);
    keyScale := s;
  }

  /** Two decimals get the same key exactly when they stand for the same number. */
  method DecimalValuesEqual(leftValue: i128, leftScale: i32, rightValue: i128, rightScale: i32) returns (r: bool)
    ensures r <==> Value(leftValue, leftScale) == Value(rightValue, rightScale)
  {
    var v1, s1 := CanonicalDecimalKey(leftValue, leftScale);
    var v2, s2 := CanonicalDecimalKey(rightValue, rightScale);
    if Value(leftValue, leftScale) == Value(rightValue, rightScale) {
      CanonicalIsUnique(v1, s1, v2, s2);
    }
    return v1 == v2 && s1 == s2;
  }
}
