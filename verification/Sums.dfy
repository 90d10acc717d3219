/** Finite sums over maps. Every reconciliation of the exposure engine is an equation between such sums. */
module Sums {

  /** The Python idiom `m.get(k, Decimal(0))`. */
  function Get<K>(m: map<K, real>, k: K): real
  {
    if k in m then m[k] else 0.0
  }

  /** `values[k] = values.get(k, 0) + amount`. */
  function Bump<K>(m: map<K, real>, k: K, amount: real): map<K, real>
  {
    m[k := Get(m, k) + amount]
  }

  ghost predicate NonNegative<K>(m: map<K, real>)
  {
    forall k :: k in m ==> m[k] >= 0.0
  }

  ghost function Total<K>(m: map<K, real>): real
    decreases |m|
  {
    if m == map[] then
      0.0
    else
      var k :| k in m;
      assert |m - {k}| < |m| by { assert (m - {k}).Keys == m.Keys - {k}; }
      m[k] + Total(m - {k})
  }

  /** The sum does not depend on the order in which entries are taken. */
  lemma {:induction false} TotalRemove<K>(m: map<K, real>, k: K)
    requires k in m
    ensures Total(m) == m[k] + Total(m - {k})
    decreases |m|
  {
    var j :| j in m && Total(m) == m[j] + Total(m - {j});
    if j != k {
      assert (m - {j}).Keys == m.Keys - {j} && (m - {k}).Keys == m.Keys - {k};
      TotalRemove(m - {j}, k);
      TotalRemove(m - {k}, j);
      assert (m - {j}) - {k} == (m - {k}) - {j};
    }
  }

  lemma TotalInsert<K>(m: map<K, real>, k: K, v: real)
    requires k !in m
    ensures Total(m[k := v]) == Total(m) + v
  {
    TotalRemove(m[k := v], k);
    assert m[k := v] - {k} == m;
  }

  lemma TotalBump<K>(m: map<K, real>, k: K, amount: real)
    ensures Total(Bump(m, k, amount)) == Total(m) + amount
  {
    if k in m {
      TotalRemove(m, k);
      TotalRemove(Bump(m, k, amount), k);
      assert Bump(m, k, amount) - {k} == m - {k};
    } else {
      TotalInsert(m, k, amount);
    }
  }

  lemma {:induction false} TotalNonNegative<K>(m: map<K, real>)
    requires NonNegative(m)
    ensures Total(m) >= 0.0
    ensures forall k :: k in m ==> m[k] <= Total(m)
    decreases |m|
  {
    forall k | k in m
      ensures m[k] <= Total(m)
    {
      TotalRemove(m, k);
      assert (m - {k}).Keys == m.Keys - {k};
      TotalNonNegative(m - {k});
    }
    if m != map[] {
      var k :| k in m;
      assert 0.0 <= m[k] <= Total(m);
    }
  }

  /** Pointwise comparison of two maps over the same keys carries over to the sums. */
  lemma {:induction false} TotalMonotone<K>(a: map<K, real>, b: map<K, real>)
    requires a.Keys == b.Keys
    requires forall k :: k in a ==> a[k] <= b[k]
    ensures Total(a) <= Total(b)
    decreases |a|
  {
    if a == map[] {
      assert b == map[];
    } else {
      var k :| k in a;
      TotalRemove(a, k);
      TotalRemove(b, k);
      assert (a - {k}).Keys == a.Keys - {k} == (b - {k}).Keys;
      TotalMonotone(a - {k}, b - {k});
    }
  }

  /** Division, named so that a proof can hide it from the solver. */
  function Ratio(v: real, gross: real): real
    requires gross > 0.0
  {
    v / gross
  }

  lemma RatioOfSum(x: real, y: real, gross: real)
    requires gross > 0.0
    ensures Ratio(x + y, gross) == Ratio(x, gross) + Ratio(y, gross)
    ensures Ratio(0.0, gross) == 0.0
  {
  }

  lemma RatioOfSelf(gross: real)
    requires gross > 0.0
    ensures Ratio(gross, gross) == 1.0
  {
  }

  /** Every entry as a share of `gross`. */
  ghost function Shares<K>(m: map<K, real>, gross: real): map<K, real>
    requires gross > 0.0
  {
    map k | k in m :: Ratio(m[k], gross)
  }

  lemma SharesRemove<K>(m: map<K, real>, k: K, gross: real)
    requires k in m && gross > 0.0
    ensures Shares(m, gross) - {k} == Shares(m - {k}, gross)
  {
    hide Ratio;
    var left, right := Shares(m, gross) - {k}, Shares(m - {k}, gross);
    assert forall j :: j in left ==> j in right && left[j] == right[j];
    assert forall j :: j in right ==> j in left;
  }

  /** Shares of a whole add up to the share of the whole. */
  lemma {:induction false} TotalShares<K>(m: map<K, real>, gross: real)
    requires gross > 0.0
    ensures Total(Shares(m, gross)) == Ratio(Total(m), gross)
    decreases |m|
  {
    hide Ratio;
    if m == map[] {
      assert Shares(m, gross) == map[];
      RatioOfSum(0.0, 0.0, gross);
    } else {
      var k :| k in m;
      TotalRemove(m, k);
      TotalRemove(Shares(m, gross), k);
      assert (m - {k}).Keys == m.Keys - {k};
      SharesRemove(m, k, gross);
      TotalShares(m - {k}, gross);
      RatioOfSum(m[k], Total(m - {k}), gross);
    }
  }

  /** The Python idiom `sum(values.values(), Decimal(0))`. */
  method SumValues<K(==)>(m: map<K, real>) returns (total: real)
    ensures total == Total(m)
  {
    total := 0.0;
    var rest := m;
    while rest != map[]
      invariant Total(m) == total + Total(rest)
      decreases |rest|
    {
      var k :| k in rest;
      TotalRemove(rest, k);
      assert (rest - {k}).Keys == rest.Keys - {k};
      total, rest := total + rest[k], rest - {k};
    }
  }
}
