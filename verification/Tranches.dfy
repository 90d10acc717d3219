/** Splitting one approved amount into orders no larger than the owner's limit, without resizing it. */
module Tranches {
  import opened PolicyDecision

  datatype Tranche = Tranche(index: nat, notional: Money)

  ghost function Sum(tranches: seq<Tranche>): real
  {
    if tranches == [] then 0.0 else Sum(tranches[..|tranches| - 1]) + tranches[|tranches| - 1].notional.amount
  }

  /** One more order adds exactly its own amount. */
  lemma SumNext(tranches: seq<Tranche>, t: Tranche)
    ensures Sum(tranches + [t]) == Sum(tranches) + t.notional.amount && Sum([]) == 0.0
  {
    assert (tranches + [t])[..|tranches|] == tranches;
  }

  /** n limits, by multiplication the solver need not look into. */
  ghost function Multiple(n: int, limit: real): real
  {
    n as real * limit
  }

  lemma MultipleStep(n: int, limit: real)
    ensures Multiple(n + 1, limit) == Multiple(n, limit) + limit
    ensures Multiple(0, limit) == 0.0
  {
  }

  lemma ScaleUp(x: real, y: real, limit: real)
    requires limit > 0.0
    ensures x < y ==> x * limit < y * limit
    ensures x <= y ==> x * limit <= y * limit
  {
    var gap := y - x;
    assert gap * limit == y * limit - x * limit;
    assert gap > 0.0 ==> gap * limit > 0.0;
  }

  lemma MultipleMonotone(m: int, n: int, limit: real)
    requires limit > 0.0
    ensures m < n <==> Multiple(m, limit) < Multiple(n, limit)
  {
    ScaleUp(m as real, n as real, limit);
    ScaleUp(n as real, m as real, limit);
  }

  /** n is amount / limit rounded up. */
  ghost predicate IsCeiling(n: int, amount: real, limit: real)
  {
    Multiple(n - 1, limit) < amount <= Multiple(n, limit)
  }

  lemma RoundedUp(q: real) returns (n: int)
    ensures (n - 1) as real < q <= n as real
  {
    n := -((-q).Floor);
  }

  lemma QuotientTimes(amount: real, limit: real) returns (q: real)
    requires limit > 0.0
    ensures q * limit == amount
    ensures amount >= 0.0 ==> q >= 0.0
  {
    q := amount / limit;
    assert q * limit == amount;
    ScaleUp(q, 0.0, limit);
  }

  lemma CeilingExists(amount: real, limit: real) returns (n: int)
    requires amount >= 0.0 && limit > 0.0
    ensures n >= 0 && IsCeiling(n, amount, limit)
  {
    var q := QuotientTimes(amount, limit);
    n := RoundedUp(q);
    ScaleUp((n - 1) as real, q, limit);
    ScaleUp(q, n as real, limit);
  }

  /** The count is determined: no other number of orders of at most the limit would do with all but one full. */
  lemma CeilingIsUnique(m: int, n: int, amount: real, limit: real)
    requires limit > 0.0 && IsCeiling(m, amount, limit) && IsCeiling(n, amount, limit)
    ensures m == n
  {
    hide Multiple;
    MultipleMonotone(m - 1, n, limit);
    MultipleMonotone(n - 1, m, limit);
  }

  /** Contiguous from one, in one currency, each in (0, limit], all but the last full. */
  ghost predicate Contiguous(tranches: seq<Tranche>, currency: string, limit: real)
  {
    && (forall i :: 0 <= i < |tranches| ==> tranches[i].index == i + 1 && tranches[i].notional.currency == currency)
    && (forall i :: 0 <= i < |tranches| ==> 0.0 < tranches[i].notional.amount <= limit)
    && (forall i :: 0 <= i < |tranches| - 1 ==> tranches[i].notional.amount == limit)
  }

  ghost predicate AllFull(tranches: seq<Tranche>, limit: real)
  {
    forall t :: t in tranches ==> t.notional.amount == limit
  }

  ghost predicate Splits(tranches: seq<Tranche>, amount: Money, limit: real)
  {
    Contiguous(tranches, amount.currency, limit) && Sum(tranches) == amount.amount
  }

  lemma AppendTranche(tranches: seq<Tranche>, t: Tranche, limit: real)
    requires Contiguous(tranches, t.notional.currency, limit) && AllFull(tranches, limit)
    requires t.index == |tranches| + 1 && 0.0 < t.notional.amount <= limit
    ensures Contiguous(tranches + [t], t.notional.currency, limit)
    ensures t.notional.amount == limit ==> AllFull(tranches + [t], limit)
    ensures Sum(tranches + [t]) == Sum(tranches) + t.notional.amount
  {
    assert (tranches + [t])[..|tranches + [t]| - 1] == tranches;
  }

  method SplitIntoTranches(amount: Money, limit: real) returns (tranches: seq<Tranche>)
    requires amount.amount >= 0.0 && limit > 0.0
    ensures Splits(tranches, amount, limit)
    ensures IsCeiling(|tranches|, amount.amount, limit)
  {
    hide Multiple;
    hide Contiguous;
    hide AllFull;
    hide Sum;
    ghost var n := CeilingExists(amount.amount, limit);
    NoTranches(amount.currency, limit);
    tranches := [];
    var remaining := amount.amount;
    while remaining > 0.0
      invariant 0.0 <= remaining
      invariant Contiguous(tranches, amount.currency, limit)
      invariant remaining > 0.0 ==> AllFull(tranches, limit) && remaining == amount.amount - Multiple(|tranches|, limit)
      invariant remaining == 0.0 ==> IsCeiling(|tranches|, amount.amount, limit)
      invariant Sum(tranches) + remaining == amount.amount
      decreases n - |tranches|, remaining > 0.0
    {
      var current := if remaining < limit then remaining else limit;
      MultipleStep(|tranches|, limit);
      MultipleMonotone(|tranches|, n, limit);
      var t := Tranche(|tranches| + 1, Money(current, amount.currency));
      AppendTranche(tranches, t, limit);
      tranches := tranches + [t];
      remaining := remaining - current;
    }
  }

  lemma NoTranches(currency: string, limit: real)
    requires limit > 0.0
    ensures Contiguous([], currency, limit) && AllFull([], limit) && Sum([]) == 0.0
    ensures Multiple(0, limit) == 0.0 && IsCeiling(0, 0.0, limit)
  {
    MultipleStep(0, limit);
    MultipleStep(-1, limit);
  }
}
