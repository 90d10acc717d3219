/** Canonical decimals as numbers: what the form is worth, and what rounding makes of it. */
module DecimalLaws {
  import opened Sums
  import opened Quantise
  import opened CanonicalDecimal

  /** A power of ten, negative ones included. */
  ghost function TenTo(n: int): (p: real)
    ensures p > 0.0
  {
    if n >= 0 then Pow(n) as real else 1.0 / Pow(-n) as real
  }

  /** The number a decimal stands for. */
  ghost function ValueOf(d: Dec): real
  {
    var size := d.coefficient as real * TenTo(d.exponent);
    if d.negative then -size else size
  }

  lemma TenToStep(n: int)
    ensures TenTo(n + 1) == 10.0 * TenTo(n)
  {
    if n < 0 {
      assert Pow(-n) == 10 * Pow(-n - 1);
      assert TenTo(n) * Pow(-n) as real == 1.0;
      assert n + 1 < 0 ==> TenTo(n + 1) * Pow(-n - 1) as real == 1.0;
    }
  }

  lemma TenUnits(x: real, unit: real)
    ensures InUnits(10.0 * x, unit) == 10.0 * InUnits(x, unit) && InUnits(1.0, unit) == unit
  {
  }

  lemma {:induction false} TenToSum(m: int, n: nat)
    ensures TenTo(m + n) == InUnits(Pow(n) as real, TenTo(m))
  {
    hide TenTo;
    hide InUnits;
    TenUnits(if n == 0 then 1.0 else Pow(n - 1) as real, TenTo(m));
    if n > 0 {
      TenToSum(m, n - 1);
      TenToStep(m + n - 1);
    }
  }

  // ---------------------------------------------------------------- values

  /** The number in units of a smaller power of ten. */
  lemma ValueInUnits(d: Dec, m: int)
    requires m <= d.exponent
    ensures ValueOf(d) == InUnits(Scaled(d, m) as real, TenTo(m))
  {
    var n := d.exponent - m;
    TenToSum(m, n);
    hide TenTo;
    RegroupUnits(d.coefficient, n, TenTo(m));
    SignedUnits(d.coefficient, n, TenTo(m));
  }

  lemma RegroupUnits(c: int, n: nat, unit: real)
    ensures c as real * InUnits(Pow(n) as real, unit) == InUnits(Padded(c, n) as real, unit)
  {
    hide Pow;
    var p := Pow(n);
    assert Padded(c, n) as real == c as real * p as real;
  }

  lemma SignedUnits(c: int, n: nat, unit: real)
    ensures InUnits(Padded(0 - c, n) as real, unit) == -InUnits(Padded(c, n) as real, unit)
  {
    hide Pow;
    assert Padded(0 - c, n) == -Padded(c, n);
  }

  lemma UnitsCompare(x: int, y: int, unit: real)
    requires unit > 0.0
    ensures InUnits(x as real, unit) == InUnits(y as real, unit) <==> x == y
  {
    if x != y {
      var gap := x as real - y as real;
      assert gap * unit == InUnits(x as real, unit) - InUnits(y as real, unit);
      assert gap > 0.0 ==> gap * unit > 0.0;
      assert gap < 0.0 ==> gap * unit < 0.0;
    }
  }

  /** Python's equality of decimals is equality of the numbers. */
  lemma SameValueIs(a: Dec, b: Dec)
    ensures SameValue(a, b) <==> ValueOf(a) == ValueOf(b)
  {
    hide ValueOf;
    hide TenTo;
    hide InUnits;
    hide Scaled;
    var m := if a.exponent <= b.exponent then a.exponent else b.exponent;
    SameValueAt(a, b, m);
    ValueInUnits(a, m);
    ValueInUnits(b, m);
    UnitsCompare(Scaled(a, m), Scaled(b, m), TenTo(m));
  }

  // ---------------------------------------------------------------- the limit and the rounding, as numbers

  lemma TwentyEightDigits()
    ensures Pow(PRECISION) == 10000000000000000000000000000
  {
    assert Pow(7) == 10000000;
    assert Pow(14) == 100000000000000;
    assert Pow(21) == 1000000000000000000000;
  }

  lemma HalfwayIs(c: nat, limit: nat, n: nat)
    ensures 2 * c >= Padded(2 * limit - 1, n) <==> c as real / Pow(n) as real >= limit as real - 0.5
  {
    hide Pow;
    var p := Pow(n) as real;
    var q := c as real / p;
    assert q * p == c as real;
    assert Padded(2 * limit - 1, n) as real == (2.0 * limit as real - 1.0) * p;
    var gap := q - (limit as real - 0.5);
    assert gap * p * 2.0 == 2.0 * c as real - (2.0 * limit as real - 1.0) * p;
    assert gap >= 0.0 <==> gap * p >= 0.0;
  }

  /** The absolute value. */
  ghost function Magnitude(d: Dec): real
  {
    d.coefficient as real * TenTo(d.exponent)
  }

  lemma ReachesIff(d: Dec)
    ensures ReachesLimit(d) <==> Magnitude(d) >= Pow(PRECISION) as real - 0.5
  {
    hide Pow;
    hide Padded;
    if d.exponent >= 0 {
      PaddedUnits(d.coefficient, d.exponent);
    } else {
      HalfwayIs(d.coefficient, Pow(PRECISION), -d.exponent);
      QuotientUnits(d.coefficient, -d.exponent);
    }
  }

  lemma SignedMagnitude(d: Dec)
    ensures Magnitude(d) >= 0.0 && ValueOf(d) == if d.negative then -Magnitude(d) else Magnitude(d)
  {
    hide TenTo;
  }

  /** Canonicalisation raises exactly on numbers of absolute value 10^28 - 1/2 and above. */
  lemma FailsFrom(d: Dec)
    ensures Canonical(d).None? <==>
      ValueOf(d) >= 9999999999999999999999999999.5 || ValueOf(d) <= -9999999999999999999999999999.5
  {
    hide Canonical;
    hide ReachesLimit;
    hide Magnitude;
    hide ValueOf;
    FailsIff(d);
    ReachesIff(d);
    SignedMagnitude(d);
    TwentyEightDigits();
    hide Pow;
  }

  lemma PaddedUnits(c: int, n: nat)
    ensures Padded(c, n) as real == c as real * Pow(n) as real
  {
    hide Pow;
  }

  lemma QuotientUnits(c: int, n: nat)
    ensures c as real / Pow(n) as real == c as real * (1.0 / Pow(n) as real)
  {
    hide Pow;
  }

  /**
   What a canonical form is worth: the number rounded to its first 28 digits, ties to even, and nothing else
   changed.
   */
  lemma CanonicalIsNearest(d: Dec)
    requires d.coefficient > 0 && Canonical(d).Some?
    ensures var k := Excess(d.coefficient);
      var n := Shortened(d.coefficient, k);
      && n > 0 && IsNearestEven(Ratio(d.coefficient as real, Pow(k) as real), n)
      && ValueOf(Canonical(d).value) == ValueOf(Dec(d.negative, n, d.exponent + k))
    ensures d.coefficient < 10000000000000000000000000000 ==> ValueOf(Canonical(d).value) == ValueOf(d)
  {
    var k := Excess(d.coefficient);
    CanonicalKeepsRounded(d);
    SameValueIs(Rounded(d), Canonical(d).value);
    TwentyEightDigits();
    HalfEvenIsNearestEven(Ratio(d.coefficient as real, Pow(k) as real), Shortened(d.coefficient, k));
    hide Canonical;
    hide ValueOf;
    hide HalfEven;
    if k == 0 {
      assert Rounded(d) == d;
      WholeIsNearest(d.coefficient);
    }
  }

  lemma WholeIsNearest(c: nat)
    ensures Shortened(c, 0) == c
  {
    assert Pow(0) == 1 && Ratio(c as real, 1.0) == c as real;
    HalfEvenIsNearestEven(c as real, c);
  }
}
