/**
 Underwriting scenarios are accepted within a tolerance; the Learning anchor orders their returns exactly.
 The threshold at which the first implies the second is exact.
 */
module Scenarios {
  import opened LookThrough
  import opened Sums

  datatype Scenario = Scenario(
    enterpriseValue: real, netDebt: real, equity: real, shares: real, perShare: real, price: real, expectedReturn: real)

  datatype Anchor = Anchor(price: real, bear: real, base: real, bull: real)

  const TOLERANCE := 0.000000001

  predicate IsClose(actual: real, expected: real)
  {
    -TOLERANCE <= actual - expected <= TOLERANCE
  }

  function Equity(s: Scenario): real
  {
    s.enterpriseValue - s.netDebt
  }

  /** The enterprise-to-share bridge, each derived figure within the tolerance of the exact one. */
  predicate Accepted(s: Scenario)
  {
    && s.enterpriseValue > 0.0 && s.shares > 0.0 && s.price > 0.0
    && Equity(s) >= 0.0
    && IsClose(s.equity, Equity(s))
    && IsClose(s.perShare, Ratio(Equity(s), s.shares))
    && IsClose(s.expectedReturn, Ratio(Ratio(Equity(s), s.shares), s.price) - 1.0)
  }

  predicate OrderedReturns(a: Scenario, b: Scenario)
  {
    a.expectedReturn <= b.expectedReturn
  }

  /** The gap in value per share that absorbs both tolerances at this reference price. */
  function Threshold(price: real): real
  {
    2.0 * TOLERANCE + 2.0 * TOLERANCE * price
  }

  /** The gap guarantees the order of the returns of any two accepted scenarios at this price. */
  ghost predicate GapDecides(price: real, gap: real)
  {
    forall a, b :: Accepted(a) && Accepted(b) && a.price == price && b.price == price && b.perShare - a.perShare == gap
      ==> OrderedReturns(a, b)
  }

  lemma RatioGap(x: real, y: real, d: real, price: real)
    requires price > 0.0 && y - x >= d
    ensures Ratio(y, price) - Ratio(x, price) >= Ratio(d, price)
  {
    assert Ratio(y, price) - Ratio(x, price) == (y - x) / price;
    assert (y - x) / price >= d / price by {
      assert ((y - x) - d) / price >= 0.0;
    }
  }

  /** The two tolerances on the returns, as a gap in value per share. */
  lemma ScaledTolerance(price: real)
    requires price > 0.0
    ensures Ratio(2.0 * TOLERANCE * price, price) == 2.0 * TOLERANCE
  {
  }

  lemma WideGapOrders(a: Scenario, b: Scenario)
    requires Accepted(a) && Accepted(b) && a.price == b.price
    requires b.perShare - a.perShare >= Threshold(a.price)
    ensures OrderedReturns(a, b)
    ensures b.perShare - a.perShare > Threshold(a.price) ==> a.expectedReturn < b.expectedReturn
  {
    hide Ratio;
    var x, y := Ratio(Equity(a), a.shares), Ratio(Equity(b), b.shares);
    RatioGap(x, y, 2.0 * TOLERANCE * a.price, a.price);
    ScaledTolerance(a.price);
    if b.perShare - a.perShare > Threshold(a.price) {
      var d := b.perShare - a.perShare - 2.0 * TOLERANCE;
      RatioGap(x, y, d, a.price);
      RatioGrows(2.0 * TOLERANCE * a.price, d, a.price);
    }
  }

  lemma RatioGrows(x: real, y: real, price: real)
    requires price > 0.0
    ensures x < y <==> Ratio(x, price) < Ratio(y, price)
  {
    assert (y - x) / price > 0.0 <==> y - x > 0.0;
  }

  /** One share, one unit of debt; value per share and return off by the given slack. */
  function Slanted(perShare: real, price: real, slack: real): Scenario
    requires price > 0.0
  {
    Scenario(perShare + 1.0, 1.0, perShare, 1.0, perShare + slack, price, Ratio(perShare, price) - 1.0 - slack)
  }

  lemma SlantedIsAccepted(perShare: real, price: real, slack: real)
    requires price > 0.0 && perShare >= 0.0 && -TOLERANCE <= slack <= TOLERANCE
    ensures Accepted(Slanted(perShare, price, slack))
  {
    assert Ratio(perShare, 1.0) == perShare;
    hide Ratio;
  }

  /** Below the threshold both scenarios can spend their tolerances against the order. */
  lemma NarrowGapReverses(price: real, gap: real) returns (a: Scenario, b: Scenario)
    requires price > 0.0 && 0.0 < gap < Threshold(price)
    ensures Accepted(a) && Accepted(b) && a.price == b.price == price && b.perShare - a.perShare == gap
    ensures !OrderedReturns(a, b)
  {
    hide Ratio;
    var x := 2.0 * TOLERANCE;
    var y := x + gap - 2.0 * TOLERANCE;
    a, b := Slanted(x, price, -TOLERANCE), Slanted(y, price, TOLERANCE);
    SlantedIsAccepted(x, price, -TOLERANCE);
    SlantedIsAccepted(y, price, TOLERANCE);
    RatioOfSum(x, y - x, price);
    RatioGrows(y - x, 2.0 * TOLERANCE * price, price);
    ScaledTolerance(price);
  }

  /**
   Strictly ordered values per share do not imply ordered returns. A positive gap implies them for every
   pair of accepted scenarios exactly when it reaches twice the tolerance, once plainly and once times the price.
   */
  lemma ThresholdIff(price: real, gap: real)
    requires price > 0.0 && gap > 0.0
    ensures GapDecides(price, gap) <==> gap >= Threshold(price)
  {
    if gap >= Threshold(price) {
      forall a, b | Accepted(a) && Accepted(b) && a.price == price && b.price == price && b.perShare - a.perShare == gap
        ensures OrderedReturns(a, b)
      {
        WideGapOrders(a, b);
      }
    } else {
      hide Ratio;
      hide Accepted;
      hide OrderedReturns;
      var a, b := NarrowGapReverses(price, gap);
      assert !GapDecides(price, gap);
    }
  }

  // ---------------------------------------------------------------- the Learning anchor

  /** What underwriting accepts as a scenario set at one reference price. */
  predicate AcceptedSet(bear: Scenario, base: Scenario, bull: Scenario)
  {
    && Accepted(bear) && Accepted(base) && Accepted(bull)
    && bear.price == base.price == bull.price
    && bear.perShare < base.perShare < bull.perShare
  }

  /** None when the anchor's own validator raises. */
  function ScenarioAnchor(bear: Scenario, base: Scenario, bull: Scenario): Option<Anchor>
  {
    if bear.expectedReturn <= base.expectedReturn <= bull.expectedReturn
    then Some(Anchor(bear.price, bear.expectedReturn, base.expectedReturn, bull.expectedReturn))
    else None
  }

  /** The anchor opens exactly on returns in order, ties included, and carries them unchanged. */
  lemma AnchorIff(bear: Scenario, base: Scenario, bull: Scenario)
    ensures ScenarioAnchor(bear, base, bull).None? <==>
      bear.expectedReturn > base.expectedReturn || base.expectedReturn > bull.expectedReturn
    ensures var a := ScenarioAnchor(bear, base, bull);
      a.Some? ==> a.value == Anchor(bear.price, bear.expectedReturn, base.expectedReturn, bull.expectedReturn)
  {
  }

  /** A scenario's figures: each is within 10^-9 of the exact one, by the bridge from enterprise to share value. */
  lemma AcceptedIff(s: Scenario)
    requires s.shares > 0.0 && s.price > 0.0
    ensures var equity := s.enterpriseValue - s.netDebt;
      Accepted(s) <==>
        && s.enterpriseValue > 0.0 && equity >= 0.0
        && WithinTolerance(s.equity - equity)
        && WithinTolerance(s.perShare - equity / s.shares)
        && WithinTolerance(s.expectedReturn - (equity / s.shares / s.price - 1.0))
  {
  }

  predicate WithinTolerance(miss: real)
  {
    -0.000000001 <= miss <= 0.000000001
  }

  /** Every accepted set with gaps above the threshold opens a Learning anchor, with strictly ordered returns. */
  lemma WideSetAnchors(bear: Scenario, base: Scenario, bull: Scenario)
    requires AcceptedSet(bear, base, bull)
    requires base.perShare - bear.perShare > Threshold(bear.price)
    requires bull.perShare - base.perShare > Threshold(bear.price)
    ensures ScenarioAnchor(bear, base, bull).Some?
    ensures var anchor := ScenarioAnchor(bear, base, bull).value; anchor.bear < anchor.base < anchor.bull
  {
    WideGapOrders(bear, base);
    WideGapOrders(base, bull);
  }

  /** At every price some accepted set is refused by the Learning anchor. */
  lemma AcceptedSetWithoutAnchor(price: real) returns (bear: Scenario, base: Scenario, bull: Scenario)
    requires price > 0.0
    ensures AcceptedSet(bear, base, bull) && bear.price == price
    ensures ScenarioAnchor(bear, base, bull).None?
  {
    bear, base := NarrowGapReverses(price, TOLERANCE);
    bull := Slanted(10.0 + price + base.perShare * base.perShare, price, 0.0);
    SlantedIsAccepted(10.0 + price + base.perShare * base.perShare, price, 0.0);
    assert bull.perShare > base.perShare;
  }
}
