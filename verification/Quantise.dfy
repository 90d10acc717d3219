/**
 Ratios are quantised to twelve decimal places, rounding ties to even (section 4.3.1 of IEEE 754-2019).
 Amounts themselves are exact: they are modelled as reals.
 */
module Quantise {
  import opened Sums

  const SCALE: real := 1000000000000.0

  /** Half a quantum, the most a single rounding can move a value. */
  const HALF_QUANTUM: real := 0.0000000000005

  function HalfEven(x: real): int
  {
    var below := x.Floor;
    var excess := x - below as real;
    if excess < 0.5 || (excess == 0.5 && below % 2 == 0) then below else below + 1
  }

  /** What rounding half to even means, without saying how it is computed. */
  ghost predicate IsNearestEven(x: real, n: int)
  {
    var gap := x - n as real;
    -0.5 <= gap <= 0.5 && (gap == 0.5 || gap == -0.5 ==> n % 2 == 0)
  }

  lemma HalfEvenIsNearestEven(x: real, n: int)
    ensures n == HalfEven(x) <==> IsNearestEven(x, n)
  {
    if IsNearestEven(x, n) {
      var below := x.Floor;
      assert below - 1 < n < below + 2;
    }
  }

  lemma HalfEvenMonotone(x: real, y: real)
    requires x <= y
    ensures HalfEven(x) <= HalfEven(y)
  {
    assert x.Floor <= y.Floor;
  }

  function QuantizeRatio(value: real): real
  {
    HalfEven(value * SCALE) as real / SCALE
  }

  /** One rounding: bounded error, idempotent, 0 and 1 are fixed points. */
  lemma QuantizeOnce(value: real)
    ensures -HALF_QUANTUM <= QuantizeRatio(value) - value <= HALF_QUANTUM
    ensures QuantizeRatio(QuantizeRatio(value)) == QuantizeRatio(value)
    ensures QuantizeRatio(0.0) == 0.0 && QuantizeRatio(1.0) == 1.0
  {
    HalfEvenIsNearestEven(value * SCALE, HalfEven(value * SCALE));
    HalfEvenIsNearestEven(0.0, 0);
    HalfEvenIsNearestEven(SCALE, 1000000000000);
    HalfEvenIsNearestEven(QuantizeRatio(value) * SCALE, HalfEven(value * SCALE));
  }

  lemma QuantizeMonotone(x: real, y: real)
    requires x <= y
    ensures QuantizeRatio(x) <= QuantizeRatio(y)
  {
    HalfEvenMonotone(x * SCALE, y * SCALE);
  }

  /** An exact ratio in [0, 1] is still in [0, 1] after rounding. */
  lemma QuantizeStaysInUnit(value: real)
    requires 0.0 <= value <= 1.0
    ensures 0.0 <= QuantizeRatio(value) <= 1.0
  {
    QuantizeOnce(value);
    QuantizeMonotone(0.0, value);
    QuantizeMonotone(value, 1.0);
  }

  /** The recorded weight of an amount inside a book of the given gross value. */
  function Weight(value: real, gross: real): real
    requires gross > 0.0
  {
    QuantizeRatio(Ratio(value, gross))
  }

  lemma RatioInUnit(value: real, gross: real)
    requires 0.0 <= value <= gross && gross > 0.0
    ensures 0.0 <= Ratio(value, gross) <= 1.0
  {
  }

  lemma WeightInUnit(value: real, gross: real)
    requires 0.0 <= value <= gross && gross > 0.0
    ensures 0.0 <= Weight(value, gross) <= 1.0
  {
    RatioInUnit(value, gross);
    hide Ratio;
    hide QuantizeRatio;
    QuantizeStaysInUnit(Ratio(value, gross));
  }

  ghost function Weights<K>(m: map<K, real>, gross: real): map<K, real>
    requires gross > 0.0
  {
    map k | k in m :: Weight(m[k], gross)
  }

  lemma WeightsRemove<K>(m: map<K, real>, k: K, gross: real)
    requires k in m && gross > 0.0
    ensures Weights(m, gross) - {k} == Weights(m - {k}, gross)
  {
    hide Weight;
    var left, right := Weights(m, gross) - {k}, Weights(m - {k}, gross);
    assert forall j :: j in left ==> j in right && left[j] == right[j];
    assert forall j :: j in right ==> j in left;
  }

  /** Each rounded weight misses its share by at most half a quantum, so n of them miss by at most n halves. */
  lemma {:induction false} WeightsNearShares<K>(m: map<K, real>, gross: real)
    requires gross > 0.0
    ensures var miss := Total(Weights(m, gross)) - Total(Shares(m, gross));
            -(|m| as real) * HALF_QUANTUM <= miss <= |m| as real * HALF_QUANTUM
    decreases |m|
  {
    hide Ratio;
    hide QuantizeRatio;
    if m == map[] {
      assert Shares(m, gross) == map[] && Weights(m, gross) == map[];
    } else {
      var k :| k in m;
      assert (m - {k}).Keys == m.Keys - {k};
      TotalRemove(Weights(m, gross), k);
      TotalRemove(Shares(m, gross), k);
      WeightsRemove(m, k, gross);
      SharesRemove(m, k, gross);
      WeightsNearShares(m - {k}, gross);
      QuantizeOnce(Ratio(m[k], gross));
    }
  }

  /** The n recorded weights of a complete breakdown sum to one within n half-quanta. */
  lemma WeightsSumToOne<K>(m: map<K, real>, gross: real)
    requires gross > 0.0 && Total(m) == gross
    ensures -(|m| as real) * HALF_QUANTUM <= Total(Weights(m, gross)) - 1.0 <= |m| as real * HALF_QUANTUM
  {
    hide Ratio;
    RatioOfSelf(gross);
    TotalShares(m, gross);
    WeightsNearShares(m, gross);
  }
}
