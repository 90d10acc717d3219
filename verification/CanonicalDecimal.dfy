/**
 The canonical decimal form of every amount, weight and return: sign, coefficient and exponent as Python's
 decimal type keeps them, in a context of 28 digits that rounds half to even.
 */
module CanonicalDecimal {
  import opened LookThrough
  import opened Sums
  import opened Quantise

  datatype Dec = Dec(negative: bool, coefficient: nat, exponent: int)

  const PRECISION: nat := 28

  function Pow(n: nat): (p: nat)
    ensures p > 0
  {
    if n == 0 then 1 else 10 * Pow(n - 1)
  }

  /** c followed by n zeros. */
  function Padded(c: int, n: nat): (p: int)
    ensures c >= 0 ==> p >= 0
  {
    c * Pow(n)
  }

  /** How many digits of a coefficient the context has no room for. */
  function Excess(c: nat): (k: nat)
    ensures c < Pow(PRECISION + k)
    ensures k > 0 ==> Pow(PRECISION + k - 1) <= c
  {
    if c < Pow(PRECISION) then 0 else 1 + Excess(c / 10)
  }

  /** c without its last k digits, ties to even. */
  function Shortened(c: nat, k: nat): int
  {
    HalfEven(Ratio(c as real, Pow(k) as real))
  }

  /** The digits that rounding removes are all zeros. */
  predicate EndsInZeros(c: nat, k: nat)
  {
    c % Pow(k) == 0
  }

  // ---------------------------------------------------------------- powers of ten

  lemma PaddedStep(c: int, n: nat)
    ensures Padded(c, 0) == c
    ensures Padded(c, n + 1) == 10 * Padded(c, n) == Padded(10 * c, n)
  {
  }

  lemma PaddedZero(n: nat)
    ensures Padded(0, n) == 0
  {
  }

  lemma {:induction false} PaddedTwice(c: int, m: nat, n: nat)
    ensures Padded(Padded(c, m), n) == Padded(c, m + n)
    decreases n
  {
    PaddedStep(Padded(c, m), 0);
    if n > 0 {
      PaddedTwice(c, m, n - 1);
      PaddedStep(Padded(c, m), n - 1);
      PaddedStep(c, m + n - 1);
    }
  }

  lemma {:induction false} PaddedInjective(b: int, c: int, n: nat)
    ensures b < c <==> Padded(b, n) < Padded(c, n)
    ensures b == c <==> Padded(b, n) == Padded(c, n)
    decreases n
  {
    PaddedStep(b, 0);
    PaddedStep(c, 0);
    if n > 0 {
      PaddedInjective(b, c, n - 1);
      PaddedStep(b, n - 1);
      PaddedStep(c, n - 1);
    }
    hide Padded;
  }

  lemma {:induction false} PaddedGrows(c: nat, n: nat)
    ensures Padded(c, n) >= c
    ensures n > 0 ==> Padded(c, n) >= 10 * c
    decreases n
  {
    PaddedStep(c, 0);
    if n > 0 {
      PaddedGrows(c, n - 1);
      PaddedStep(c, n - 1);
    }
    hide Padded;
  }

  // ---------------------------------------------------------------- rounding to the context

  lemma RealPadded(q: int, k: nat)
    ensures Ratio(Padded(q, k) as real, Pow(k) as real) == q as real
  {
    assert Padded(q, k) as real == q as real * Pow(k) as real;
  }

  /** Rounding to the context keeps the value exactly when it removes only zeros. */
  lemma ShortenedExactIff(c: nat, k: nat)
    ensures Padded(Shortened(c, k), k) == c <==> EndsInZeros(c, k)
  {
    if EndsInZeros(c, k) {
      var q := c / Pow(k);
      assert c == Padded(q, k);
      RealPadded(q, k);
      HalfEvenIsNearestEven(q as real, q);
    } else if Padded(Shortened(c, k), k) == c {
      var q := Shortened(c, k);
      MultipleEndsInZeros(q, k);
    }
  }

  lemma SmallMultipleIsZero(d: int, p: int, r: int)
    requires p > 0 && d * p == r && 0 <= r < p
    ensures r == 0
  {
    assert (d - 1) * p == d * p - p && (d + 1) * p == d * p + p;
  }

  lemma MultipleEndsInZeros(q: int, k: nat)
    requires Padded(q, k) >= 0
    ensures EndsInZeros(Padded(q, k), k)
  {
    hide Pow;
    var c, p := Padded(q, k), Pow(k);
    var x, r := c / p, c % p;
    assert c == p * x + r;
    assert (q - x) * p == q * p - x * p;
    SmallMultipleIsZero(q - x, p, r);
  }

  function Rounded(d: Dec): (r: Dec)
    ensures d.coefficient > 0 ==> r.coefficient > 0
    ensures r.coefficient <= Pow(PRECISION)
  {
    var k := Excess(d.coefficient);
    if k == 0 then d
    else
      ShortenedFits(d.coefficient, k);
      Dec(d.negative, Shortened(d.coefficient, k), d.exponent + k)
  }

  lemma PowAsPadded(m: nat, n: nat)
    ensures Padded(Pow(m), n) == Pow(m + n)
  {
    PaddedTwice(1, m, n);
  }

  /** Rounding leaves between one digit and 28, or the next power of ten. */
  lemma ShortenedFits(c: nat, k: nat)
    requires k > 0 && Pow(PRECISION + k - 1) <= c < Pow(PRECISION + k)
    ensures Pow(PRECISION - 1) <= Shortened(c, k) <= Pow(PRECISION)
  {
    PowAsPadded(PRECISION, k);
    PowAsPadded(PRECISION - 1, k);
    RealPadded(Pow(PRECISION), k);
    RealPadded(Pow(PRECISION - 1), k);
    HalfEvenIsNearestEven(Pow(PRECISION) as real, Pow(PRECISION));
    HalfEvenIsNearestEven(Pow(PRECISION - 1) as real, Pow(PRECISION - 1));
    hide Pow;
    hide Padded;
    RatioOrdered(c, Pow(PRECISION + k), Pow(k));
    RatioOrdered(Pow(PRECISION - 1 + k), c, Pow(k));
    hide HalfEven;
    HalfEvenMonotone(Ratio(c as real, Pow(k) as real), Pow(PRECISION) as real);
    HalfEvenMonotone(Pow(PRECISION - 1) as real, Ratio(c as real, Pow(k) as real));
  }

  lemma RatioOrdered(a: nat, b: nat, p: nat)
    requires a <= b && p > 0
    ensures Ratio(a as real, p as real) <= Ratio(b as real, p as real)
  {
    RatioOfSum(a as real, b as real - a as real, p as real);
  }

  // ---------------------------------------------------------------- the canonical form

  /** Remove trailing zeros of the coefficient. */
  function Strip(d: Dec): (r: Dec)
    requires d.coefficient > 0
    ensures r.coefficient % 10 != 0 && 0 < r.coefficient <= d.coefficient
    ensures r.negative == d.negative && r.exponent >= d.exponent
    ensures d.coefficient == Padded(r.coefficient, r.exponent - d.exponent)
    decreases d.coefficient
  {
    if d.coefficient % 10 != 0 then
      PaddedStep(d.coefficient, 0);
      d
    else
      var r := Strip(Dec(d.negative, d.coefficient / 10, d.exponent + 1));
      PaddedStep(r.coefficient, r.exponent - d.exponent - 1);
      r
  }

  /** None when the integral result needs more digits than the context has: `quantize` raises. */
  function Canonical(d: Dec): Option<Dec>
  {
    if d.coefficient == 0 then
      Some(Dec(false, 0, 0))
    else
      var n := Strip(Rounded(d));
      if n.exponent < 0 then Some(n)
      else if Padded(n.coefficient, n.exponent) >= Pow(PRECISION) then None
      else Some(Dec(n.negative, Padded(n.coefficient, n.exponent), 0))
  }

  // ---------------------------------------------------------------- numeric equality

  function Signed(d: Dec): int
  {
    if d.negative then 0 - d.coefficient else d.coefficient
  }

  /** The value in units of ten to the power m. */
  function Scaled(d: Dec, m: int): int
    requires m <= d.exponent
  {
    Padded(Signed(d), d.exponent - m)
  }

  function Min(a: int, b: int): int
  {
    if a < b then a else b
  }

  /** Python's `==` between finite decimals: the same number, however it is written. */
  predicate SameValue(a: Dec, b: Dec)
  {
    var m := Min(a.exponent, b.exponent);
    Scaled(a, m) == Scaled(b, m)
  }

  /** Any common unit will do to compare two values. */
  lemma SameValueAt(a: Dec, b: Dec, m: int)
    requires m <= a.exponent && m <= b.exponent
    ensures SameValue(a, b) <==> Scaled(a, m) == Scaled(b, m)
  {
    hide Padded;
    var low := Min(a.exponent, b.exponent);
    PaddedTwice(Signed(a), a.exponent - low, low - m);
    PaddedTwice(Signed(b), b.exponent - low, low - m);
    PaddedInjective(Scaled(a, low), Scaled(b, low), low - m);
  }

  lemma SameValueChain(a: Dec, b: Dec, c: Dec)
    requires SameValue(b, c)
    ensures SameValue(a, b) <==> SameValue(a, c)
  {
    hide SameValue;
    hide Scaled;
    var m := Min(a.exponent, Min(b.exponent, c.exponent));
    SameValueAt(a, b, m);
    SameValueAt(b, c, m);
    SameValueAt(a, c, m);
  }

  lemma PaddedNegation(c: int, n: nat)
    ensures Padded(-c, n) == -Padded(c, n)
  {
  }

  lemma StripKeepsValue(d: Dec)
    requires d.coefficient > 0
    ensures SameValue(d, Strip(d))
  {
    hide Padded;
    hide Strip;
    var r := Strip(d);
    PaddedNegation(r.coefficient, r.exponent - d.exponent);
    PaddedStep(Signed(d), 0);
  }

  /** Writing an integral value with exponent zero. */
  lemma IntegralKeepsValue(d: Dec)
    requires d.exponent >= 0 && d.coefficient > 0 && Padded(d.coefficient, d.exponent) >= 0
    ensures SameValue(d, Dec(d.negative, Padded(d.coefficient, d.exponent), 0))
  {
    hide Padded;
    PaddedNegation(d.coefficient, d.exponent);
    PaddedStep(Signed(Dec(d.negative, Padded(d.coefficient, d.exponent), 0)), 0);
  }

  lemma RoundedKeepsValueIff(d: Dec)
    requires d.coefficient > 0
    ensures SameValue(d, Rounded(d)) <==> EndsInZeros(d.coefficient, Excess(d.coefficient))
  {
    var k := Excess(d.coefficient);
    hide Excess;
    if k == 0 {
      assert Pow(0) == 1;
    } else {
      ShortenedExactIff(d.coefficient, k);
      hide Padded;
      hide Shortened;
      PaddedNegation(Rounded(d).coefficient, k);
      PaddedStep(Signed(d), 0);
    }
  }

  // ---------------------------------------------------------------- laws of the canonical form

  lemma FailsOnRounded(d: Dec)
    ensures Canonical(d).None? <==>
      d.coefficient > 0 && Rounded(d).exponent >= 0 &&
        Padded(Rounded(d).coefficient, Rounded(d).exponent) >= Pow(PRECISION)
  {
    hide Rounded;
    hide Strip;
    hide Padded;
    hide Pow;
    if d.coefficient > 0 {
      var r := Rounded(d);
      var n := Strip(r);
      if r.exponent >= 0 {
        PaddedTwice(n.coefficient, n.exponent - r.exponent, r.exponent);
      } else if n.exponent >= 0 {
        PaddedTwice(n.coefficient, n.exponent, -r.exponent);
        PaddedGrows(Padded(n.coefficient, n.exponent), -r.exponent);
      }
    }
  }

  /** The absolute value is at least 10^28 - 1/2. */
  predicate ReachesLimit(d: Dec)
  {
    if d.exponent >= 0 then 2 * Padded(d.coefficient, d.exponent) >= 2 * Pow(PRECISION) - 1
    else 2 * d.coefficient >= Padded(2 * Pow(PRECISION) - 1, -d.exponent)
  }

  lemma PaddedDouble(c: int, n: nat)
    ensures Padded(2 * c, n) == 2 * Padded(c, n)
  {
  }

  lemma PaddedAtMost(b: int, c: int, n: nat)
    requires b <= c
    ensures Padded(b, n) <= Padded(c, n)
  {
    hide Padded;
    PaddedInjective(b, c, n);
  }

  lemma {:induction false} PowGrows(m: nat, n: nat)
    requires m <= n
    ensures Pow(m) <= Pow(n)
    decreases n
  {
    if m < n {
      PowGrows(m, n - 1);
    }
  }

  /** The tie at 10^28 - 1/2 goes up, since 10^28 is even. */
  lemma ShortenedReachesIff(c: nat, k: nat)
    ensures Shortened(c, k) >= Pow(PRECISION) <==> 2 * c >= Padded(2 * Pow(PRECISION) - 1, k)
  {
    hide Pow;
    PowEndsInZero(PRECISION);
    TensAreEven(Pow(PRECISION));
    NearestReachesIff(Ratio(c as real, Pow(k) as real), Pow(PRECISION));
    HalfwayRatio(c, Pow(PRECISION), k);
    hide HalfEven;
    hide Ratio;
  }

  lemma TensAreEven(p: int)
    requires p % 10 == 0
    ensures p % 2 == 0
  {
    assert p == 2 * (5 * (p / 10));
  }

  lemma NearestReachesIff(x: real, p: int)
    requires p % 2 == 0
    ensures HalfEven(x) >= p <==> x >= p as real - 0.5
  {
    hide HalfEven;
    var n := HalfEven(x);
    HalfEvenIsNearestEven(x, n);
    if n < p {
      assert n as real <= p as real - 1.0;
    } else {
      assert n as real >= p as real;
    }
  }

  /** Multiplication, named so that a proof can hide it from the solver. */
  function InUnits(x: real, unit: real): real
  {
    x * unit
  }

  lemma RealOfPadded(m: int, k: nat)
    ensures Padded(m, k) as real == InUnits(m as real, Pow(k) as real)
  {
  }

  lemma RatioInUnits(v: real, unit: real)
    requires unit > 0.0
    ensures InUnits(Ratio(v, unit), unit) == v
  {
  }

  lemma HalfwayRatio(c: nat, p: int, k: nat)
    ensures Ratio(c as real, Pow(k) as real) >= p as real - 0.5 <==> 2 * c >= Padded(2 * p - 1, k)
  {
    hide Ratio;
    hide Pow;
    hide Padded;
    hide InUnits;
    var unit := Pow(k) as real;
    var x, odd := Ratio(c as real, unit), 2 * p - 1;
    RatioInUnits(c as real, unit);
    RealOfPadded(odd, k);
    HalfwayProduct(x, p as real, odd as real, unit);
    SameOrder(2 * c, Padded(odd, k));
  }

  lemma SameOrder(a: int, b: int)
    ensures a >= b <==> a as real >= b as real
  {
  }

  lemma HalfwayProduct(x: real, p: real, odd: real, unit: real)
    requires unit > 0.0 && odd == 2.0 * p - 1.0
    ensures x >= p - 0.5 <==> 2.0 * InUnits(x, unit) >= InUnits(odd, unit)
  {
    SameSign(x, p - 0.5, unit);
    assert odd * unit == 2.0 * ((p - 0.5) * unit);
  }

  lemma SameSign(x: real, y: real, unit: real)
    requires unit > 0.0
    ensures x >= y <==> x * unit >= y * unit
  {
    var gap := x - y;
    assert gap * unit == x * unit - y * unit;
    assert gap >= 0.0 ==> gap * unit >= 0.0;
    assert gap < 0.0 ==> gap * unit < 0.0;
  }

  lemma FailsWhole(d: Dec)
    requires d.coefficient > 0 && Excess(d.coefficient) == 0
    ensures Canonical(d).None? <==> ReachesLimit(d)
  {
    hide Canonical;
    hide Padded;
    hide Pow;
    FailsOnRounded(d);
    if d.exponent < 0 {
      PaddedGrows(2 * Pow(PRECISION) - 1, -d.exponent);
    }
  }

  /** Rounding drops k digits, and some power of ten remains: the value is far above the limit. */
  lemma FailsFarAbove(d: Dec, k: nat)
    requires d.coefficient > 0 && k == Excess(d.coefficient) > 0 && d.exponent + k > 0
    ensures Canonical(d).None? && ReachesLimit(d)
  {
    hide Canonical;
    hide Padded;
    hide Pow;
    hide Shortened;
    FailsOnRounded(d);
    ShortenedFits(d.coefficient, k);
    var e := d.exponent;
    PaddedAtMost(Pow(PRECISION - 1), Shortened(d.coefficient, k), e + k);
    PowAsPadded(PRECISION - 1, e + k);
    PowGrows(PRECISION, PRECISION - 1 + e + k);
    if e >= 0 {
      PaddedAtMost(Pow(PRECISION + k - 1), d.coefficient, e);
      PowAsPadded(PRECISION + k - 1, e);
    } else {
      PowGrows(PRECISION - e, PRECISION + k - 1);
      PowAsPadded(PRECISION, -e);
      PaddedDouble(Pow(PRECISION), -e);
      PaddedAtMost(2 * Pow(PRECISION) - 1, 2 * Pow(PRECISION), -e);
    }
  }

  lemma FailsAtPoint(d: Dec, k: nat)
    requires d.coefficient > 0 && k == Excess(d.coefficient) > 0 && d.exponent + k <= 0
    ensures Canonical(d).None? <==> ReachesLimit(d)
  {
    hide Canonical;
    hide Padded;
    hide Pow;
    hide Shortened;
    FailsOnRounded(d);
    PaddedStep(Shortened(d.coefficient, k), 0);
    ShortenedReachesIff(d.coefficient, k);
    if d.exponent + k < 0 {
      var limit := 2 * Pow(PRECISION) - 1;
      PowAsPadded(PRECISION, k);
      PaddedDouble(Pow(PRECISION), k);
      PaddedTwice(limit, k, -d.exponent - k);
      PaddedAtMost(0, limit, k);
      PaddedZero(k);
      PaddedGrows(Padded(limit, k), -d.exponent - k);
      PaddedStep(limit, k);
      PaddedAtMost(2 * Pow(PRECISION), 10 * limit, k);
    }
  }

  /** Canonicalisation raises if and only if the absolute value is at least 10^28 - 1/2. */
  lemma FailsIff(d: Dec)
    ensures Canonical(d).None? <==> ReachesLimit(d)
  {
    hide Canonical;
    hide Padded;
    hide Pow;
    var k := Excess(d.coefficient);
    if d.coefficient == 0 {
      ZeroNeverFails(d);
    } else if k == 0 {
      FailsWhole(d);
    } else if d.exponent + k > 0 {
      FailsFarAbove(d, k);
    } else {
      FailsAtPoint(d, k);
    }
  }

  lemma ZeroNeverFails(d: Dec)
    requires d.coefficient == 0
    ensures Canonical(d).Some? && !ReachesLimit(d)
  {
    hide Padded;
    hide Pow;
    if d.exponent >= 0 {
      PaddedZero(d.exponent);
    } else {
      PaddedGrows(2 * Pow(PRECISION) - 1, -d.exponent);
    }
  }

  lemma CanonicalKeepsRounded(d: Dec)
    requires d.coefficient > 0 && Canonical(d).Some?
    ensures SameValue(Rounded(d), Canonical(d).value)
  {
    hide Padded;
    hide SameValue;
    hide Rounded;
    var n := Strip(Rounded(d));
    StripKeepsValue(Rounded(d));
    hide Strip;
    if n.exponent >= 0 {
      PaddedGrows(n.coefficient, n.exponent);
      IntegralKeepsValue(n);
      SameValueChain(Rounded(d), n, Canonical(d).value);
    }
  }

  lemma RoundedDecides(d: Dec)
    requires d.coefficient > 0 && Canonical(d).Some?
    ensures SameValue(d, Canonical(d).value) <==> EndsInZeros(d.coefficient, Excess(d.coefficient))
  {
    hide SameValue;
    hide Canonical;
    hide Rounded;
    hide Excess;
    hide EndsInZeros;
    RoundedKeepsValueIff(d);
    CanonicalKeepsRounded(d);
    SameValueChain(d, Rounded(d), Canonical(d).value);
  }

  /** The canonical form keeps the value exactly when the digits beyond 28 are all zeros. */
  lemma KeepsValueIff(d: Dec)
    requires Canonical(d).Some?
    ensures SameValue(d, Canonical(d).value) <==> EndsInZeros(d.coefficient, Excess(d.coefficient))
  {
    hide Excess;
    hide EndsInZeros;
    hide Strip;
    hide SameValue;
    hide Rounded;
    if d.coefficient == 0 {
      ZeroEndsInZeros(Excess(d.coefficient));
      ZeroIsZero(d);
    } else {
      RoundedDecides(d);
    }
  }

  /** Every zero, whatever its sign and exponent, equals the canonical zero. */
  lemma ZeroIsZero(d: Dec)
    requires d.coefficient == 0
    ensures SameValue(d, Dec(false, 0, 0))
  {
    hide Padded;
    var m := Min(d.exponent, 0);
    PaddedZero(d.exponent - m);
    PaddedZero(0 - m);
  }

  lemma ZeroEndsInZeros(k: nat)
    ensures EndsInZeros(0, k)
  {
    MultipleEndsInZeros(0, k);
  }

  /** What canonical forms look like: zero, or no trailing zero after the point, or an integer of at most 28 digits. */
  ghost predicate IsCanonical(c: Dec)
  {
    || c == Dec(false, 0, 0)
    || (0 < c.coefficient < Pow(PRECISION) && c.exponent < 0 && c.coefficient % 10 != 0)
    || (0 < c.coefficient < Pow(PRECISION) && c.exponent == 0)
  }

  lemma CanonicalForm(d: Dec)
    requires Canonical(d).Some?
    ensures IsCanonical(Canonical(d).value)
  {
    hide Rounded;
    hide Strip;
    hide Padded;
    hide Pow;
    if d.coefficient > 0 {
      var n := Strip(Rounded(d));
      if n.exponent < 0 {
        PowEndsInZero(PRECISION);
      } else {
        PaddedGrows(n.coefficient, n.exponent);
      }
    }
  }

  lemma PowEndsInZero(n: nat)
    requires n > 0
    ensures Pow(n) % 10 == 0
  {
    var p := Pow(n - 1);
    assert Pow(n) == 10 * p;
  }

  /** A canonical form is left alone. */
  lemma CanonicalIsFixed(c: Dec)
    requires IsCanonical(c)
    ensures Canonical(c) == Some(c)
  {
    hide Padded;
    if c.coefficient > 0 {
      assert Rounded(c) == c;
      hide Rounded;
      hide Excess;
      var n := Strip(c);
      PaddedStep(c.coefficient, 0);
      if c.exponent == 0 {
        hide Strip;
        assert Padded(n.coefficient, n.exponent) == c.coefficient;
      } else {
        assert n == c;
      }
    }
  }

  lemma CanonicalIdempotent(d: Dec)
    requires Canonical(d).Some?
    ensures Canonical(Canonical(d).value) == Canonical(d)
  {
    hide Canonical;
    CanonicalForm(d);
    CanonicalIsFixed(Canonical(d).value);
  }

  /** Two canonical forms of the same value are the same digits, sign and exponent. */
  lemma CanonicalIsUnique(a: Dec, b: Dec)
    requires IsCanonical(a) && IsCanonical(b) && SameValue(a, b)
    ensures a == b
  {
    hide Padded;
    hide Pow;
    if a.exponent < b.exponent {
      LowerHasNoZeros(a, b);
    } else if b.exponent < a.exponent {
      LowerHasNoZeros(b, a);
    } else {
      PaddedStep(Signed(a), 0);
      PaddedStep(Signed(b), 0);
    }
  }

  lemma LowerHasNoZeros(a: Dec, b: Dec)
    requires IsCanonical(a) && IsCanonical(b) && a.exponent < b.exponent
    ensures !SameValue(a, b)
  {
    hide Padded;
    hide Pow;
    PaddedStep(Signed(a), 0);
    PaddedStep(Signed(b), b.exponent - a.exponent - 1);
    var q := Padded(Signed(b), b.exponent - a.exponent - 1);
    assert Signed(a) % 10 != 0 && (10 * q) % 10 == 0;
  }

  /**
   Equal amounts always serialise the same, and different ones never do: for all inputs of at most
   28 significant digits.
   */
  lemma SameFormIffSameValue(a: Dec, b: Dec)
    requires Canonical(a).Some? && Canonical(b).Some?
    requires EndsInZeros(a.coefficient, Excess(a.coefficient)) && EndsInZeros(b.coefficient, Excess(b.coefficient))
    ensures Canonical(a) == Canonical(b) <==> SameValue(a, b)
  {
    hide Canonical;
    hide Excess;
    hide EndsInZeros;
    KeepsValueIff(a);
    KeepsValueIff(b);
    CanonicalForm(a);
    CanonicalForm(b);
    var c, d := Canonical(a).value, Canonical(b).value;
    hide SameValue;
    hide IsCanonical;
    SameValueChain(a, b, d);
    SameValueIsSymmetric(a, c);
    SameValueIsSymmetric(a, d);
    SameValueChain(d, a, c);
    SameValueIsSymmetric(d, c);
    if SameValue(c, d) {
      CanonicalIsUnique(c, d);
    }
  }

  lemma SameValueIsSymmetric(a: Dec, b: Dec)
    ensures SameValue(a, b) <==> SameValue(b, a)
  {
    hide Scaled;
  }
}
