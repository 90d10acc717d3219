/**
 Selling one holding to fund another: friction arithmetic, the policy gates, and the ladder that prefers
 new capital over a sale. Evidence for the target is checked elsewhere and is not part of this model.
 */
module Replacement {
  import opened LookThrough
  import opened Dominance
  import opened PolicyDecision

  datatype Estimate = Known(amount: Money) | NotApplicable | Unknown

  datatype CostKind = Tax | Fee | Spread

  datatype Cost = Cost(kind: CostKind, estimate: Estimate)

  datatype TargetKind = CandidateEquity | ExistingHolding(positionId: string) | CoreEtf

  datatype Target = Target(id: string, kind: TargetKind, instrumentId: string, currency: string)

  datatype Preference = PreferSource | PreferTarget | NoPreference

  datatype Position = Position(id: string, instrumentId: string, value: Money)

  datatype CashBalance = CashBalance(balance: Money, isEmergencyReserve: bool)

  datatype Portfolio = Portfolio(positions: seq<Position>, cash: seq<CashBalance>)

  datatype Proposal = Proposal(
    sourceId: string,
    target: Target,
    gross: Money,
    comparison: Comparison,
    costs: seq<Cost>,
    liquidityKnown: bool,
    preference: Preference,
    observedAfter: map<ConstraintKind, real>)

  datatype Basis =
    | AfterFrictionDominance | NewCapitalFirst | PolicyBlock
    | FrictionUnknown | LiquidityUnresolved | SourceNotOutclassed

  datatype Switch = Switch(friction: Money, net: Money)

  datatype ReplacementDecision = ReplacementDecision(
    proposal: Proposal, source: Position, switch: Option<Switch>, availableCash: Money, basis: Basis)
  {
    predicate Replaces()
    {
      basis == AfterFrictionDominance
    }
  }

  datatype Error =
    | UnknownSource | TargetIsSource | SaleCurrency | SaleAboveValue | TargetCurrency
    | ObservationsDoNotCover | FrictionCurrency | FrictionConsumesSale | UnitCurrency

  datatype Result = Ok(decision: ReplacementDecision) | Err(error: Error)

  // ---------------------------------------------------------------- validated inputs

  predicate Completed(costs: seq<Cost>)
  {
    forall c :: c in costs ==> !c.estimate.Unknown?
  }

  /** Each of the three kinds of cost exactly once, no negative amounts, and the comparison covers source and target. */
  ghost predicate ValidProposal(p: Proposal)
  {
    && p.gross.amount > 0.0
    && |p.costs| == 3 && (forall i, j :: 0 <= i < j < 3 ==> p.costs[i].kind != p.costs[j].kind)
    && (forall c :: c in p.costs && c.estimate.Known? ==> c.estimate.amount.amount >= 0.0)
    && PairOf(p.comparison) == {p.sourceId, p.target.id} && p.comparison.first != p.comparison.second
  }

  ghost predicate ValidPortfolio(s: Portfolio)
  {
    && (forall i, j :: 0 <= i < j < |s.positions| ==> s.positions[i].id != s.positions[j].id)
    && (forall c :: c in s.cash ==> c.balance.amount >= 0.0)
  }

  predicate InOneCurrency(costs: seq<Cost>, currency: string)
  {
    forall c :: c in costs && c.estimate.Known? ==> c.estimate.amount.currency == currency
  }

  // ---------------------------------------------------------------- amounts

  function CostAmount(c: Cost): real
  {
    if c.estimate.Known? then c.estimate.amount.amount else 0.0
  }

  ghost function TotalFriction(costs: seq<Cost>): real
  {
    if costs == [] then 0.0 else TotalFriction(costs[..|costs| - 1]) + CostAmount(costs[|costs| - 1])
  }

  /** The three known costs, each counted once whatever their order. */
  lemma FrictionOfThree(costs: seq<Cost>)
    requires |costs| == 3
    ensures TotalFriction(costs) == CostAmount(costs[0]) + CostAmount(costs[1]) + CostAmount(costs[2])
  {
    assert costs[..2][..1] == [costs[0]] && costs[..2][1] == costs[1];
    assert TotalFriction([costs[0]]) == CostAmount(costs[0]);
    assert TotalFriction(costs[..2]) == CostAmount(costs[0]) + CostAmount(costs[1]);
  }

  /** One more cost of any kind raises the friction by exactly its known amount. */
  lemma EveryKnownCostCounts(costs: seq<Cost>, kind: CostKind, amount: Money)
    ensures TotalFriction(costs + [Cost(kind, Known(amount))]) == TotalFriction(costs) + amount.amount
    ensures TotalFriction(costs + [Cost(kind, NotApplicable)]) == TotalFriction(costs)
  {
    assert (costs + [Cost(kind, Known(amount))])[..|costs|] == costs;
    assert (costs + [Cost(kind, NotApplicable)])[..|costs|] == costs;
  }

  method FrictionAmounts(costs: seq<Cost>, gross: Money) returns (error: Option<Error>, switch: Option<Switch>)
    ensures !Completed(costs) ==> error.None? && switch.None?
    ensures Completed(costs) ==> (error.None? <==> switch.Some?)
    ensures Completed(costs) ==>
      (switch.Some? <==> InOneCurrency(costs, gross.currency) && TotalFriction(costs) < gross.amount)
    ensures error.Some? ==> error.value == (if InOneCurrency(costs, gross.currency) then FrictionConsumesSale
                                            else FrictionCurrency)
    ensures switch.Some? ==> switch.value.friction == Money(TotalFriction(costs), gross.currency)
    ensures switch.Some? ==> switch.value.net == Money(gross.amount - TotalFriction(costs), gross.currency)
  {
    if !Completed(costs) {
      return None, None;
    }
    var total := 0.0;
    var n := 0;
    while n < |costs|
      invariant 0 <= n <= |costs|
      invariant InOneCurrency(costs[..n], gross.currency)
      invariant total == TotalFriction(costs[..n])
    {
      var c := costs[n];
      assert costs[..n + 1] == costs[..n] + [c] && costs[..n + 1][..n] == costs[..n];
      if c.estimate.Known? {
        if c.estimate.amount.currency != gross.currency {
          return Some(FrictionCurrency), None;
        }
        total := total + c.estimate.amount.amount;
      }
      n := n + 1;
    }
    assert costs[..n] == costs;
    if total >= gross.amount {
      return Some(FrictionConsumesSale), None;
    }
    return None, Some(Switch(Money(total, gross.currency), Money(gross.amount - total, gross.currency)));
  }

  /** Same-currency cash outside the emergency reserve. */
  function InvestableCash(cash: seq<CashBalance>, currency: string): real
  {
    if cash == [] then 0.0
    else (if !cash[0].isEmergencyReserve && cash[0].balance.currency == currency then cash[0].balance.amount else 0.0)
         + InvestableCash(cash[1..], currency)
  }

  /** Each balance counts once and in full; the emergency reserve and other currencies do not count at all. */
  lemma {:induction false} CashCountsOnce(cash: seq<CashBalance>, extra: CashBalance, currency: string)
    ensures InvestableCash([], currency) == 0.0
    ensures InvestableCash(cash + [extra], currency) ==
      InvestableCash(cash, currency)
      + if extra.isEmergencyReserve || extra.balance.currency != currency then 0.0 else extra.balance.amount
  {
    if cash == [] {
      assert [extra][1..] == [];
    } else {
      CashCountsOnce(cash[1..], extra, currency);
      assert (cash + [extra])[1..] == cash[1..] + [extra];
    }
  }

  // ---------------------------------------------------------------- gates

  predicate TargetWins(c: Comparison, targetId: string)
  {
    if c.first == targetId then c.conclusion == First else c.conclusion == Second
  }

  /** Winning the comparison is the dominance relation used among alternatives, in either orientation. */
  lemma TargetWinsIffBeats(p: Proposal)
    requires ValidProposal(p)
    ensures TargetWins(p.comparison, p.target.id) <==> Beats([p.comparison], p.target.id, p.sourceId)
  {
    assert p.comparison in [p.comparison];
    assert p.comparison.first in PairOf(p.comparison) && p.comparison.second in PairOf(p.comparison);
    assert p.target.id in PairOf(p.comparison) && p.sourceId in PairOf(p.comparison);
  }

  ghost predicate AboveUnit(policy: OwnerPolicy, net: Money)
  {
    policy.maxCapitalUnit.Some? && net.amount > policy.maxCapitalUnit.value.amount
  }

  /** The gates that do not look at the amount: no new capital for a held target, no exceeded ratio limit. */
  ghost predicate OwnerForbids(policy: OwnerPolicy, p: Proposal)
    requires Covered(policy, p)
  {
    || (p.target.kind.ExistingHolding? && p.target.kind.positionId in policy.allowsNewCapital
        && !policy.allowsNewCapital[p.target.kind.positionId])
    || (exists c :: c in policy.ratioConstraints && p.observedAfter[c.kind] > c.maximum)
  }

  predicate Covered(policy: OwnerPolicy, p: Proposal)
  {
    p.observedAfter.Keys == set c | c in policy.ratioConstraints :: c.kind
  }

  method PolicyBlocks(policy: OwnerPolicy, p: Proposal, net: Money) returns (blocked: Option<bool>)
    requires Covered(policy, p)
    ensures blocked.Some? <==> UnitCurrencyMatches(policy, net)
    ensures blocked.Some? ==> (blocked.value <==> AboveUnit(policy, net) || OwnerForbids(policy, p))
  {
    if policy.maxCapitalUnit.Some? {
      if policy.maxCapitalUnit.value.currency != net.currency {
        return None;
      }
      if net.amount > policy.maxCapitalUnit.value.amount {
        return Some(true);
      }
    }
    if p.target.kind.ExistingHolding? && p.target.kind.positionId in policy.allowsNewCapital
       && !policy.allowsNewCapital[p.target.kind.positionId] {
      return Some(true);
    }
    var n := 0;
    while n < |policy.ratioConstraints|
      invariant 0 <= n <= |policy.ratioConstraints|
      invariant forall c :: c in policy.ratioConstraints[..n] ==> p.observedAfter[c.kind] <= c.maximum
    {
      var c := policy.ratioConstraints[n];
      if p.observedAfter[c.kind] > c.maximum {
        return Some(true);
      }
      assert policy.ratioConstraints[..n + 1] == policy.ratioConstraints[..n] + [c];
      n := n + 1;
    }
    assert policy.ratioConstraints[..n] == policy.ratioConstraints;
    return Some(false);
  }

  // ---------------------------------------------------------------- the decision

  ghost predicate IsSource(s: Portfolio, p: Proposal, source: Position)
  {
    source in s.positions && source.id == p.sourceId
  }

  /** Everything `execute` rejects before the ladder. */
  ghost predicate Admitted(s: Portfolio, policy: OwnerPolicy, p: Proposal, source: Position)
  {
    && IsSource(s, p, source)
    && p.target.instrumentId != source.instrumentId
    && p.gross.currency == source.value.currency && p.gross.amount <= source.value.amount
    && p.target.currency == source.value.currency
    && Covered(policy, p)
    && (Completed(p.costs) ==>
          && InOneCurrency(p.costs, p.gross.currency) && TotalFriction(p.costs) < p.gross.amount
          && UnitCurrencyMatches(policy, p.gross))
  }

  /** The first check that fails, in the order of the checks. */
  ghost predicate IsError(e: Error, s: Portfolio, policy: OwnerPolicy, p: Proposal)
  {
    if forall x :: x in s.positions ==> x.id != p.sourceId then e == UnknownSource
    else exists source :: IsSource(s, p, source) && e == ErrorAt(source, policy, p)
  }

  ghost function ErrorAt(source: Position, policy: OwnerPolicy, p: Proposal): Error
  {
    if p.target.instrumentId == source.instrumentId then TargetIsSource
    else if p.gross.currency != source.value.currency then SaleCurrency
    else if p.gross.amount > source.value.amount then SaleAboveValue
    else if p.target.currency != source.value.currency then TargetCurrency
    else if !Covered(policy, p) then ObservationsDoNotCover
    else if !InOneCurrency(p.costs, p.gross.currency) then FrictionCurrency
    else if TotalFriction(p.costs) >= p.gross.amount then FrictionConsumesSale
    else UnitCurrency
  }

  ghost function Net(p: Proposal): Money
  {
    Money(p.gross.amount - TotalFriction(p.costs), p.gross.currency)
  }

  /** Every condition for giving up the source: all gates at once, in no particular order. */
  ghost predicate MustReplace(s: Portfolio, policy: OwnerPolicy, p: Proposal)
    requires Covered(policy, p)
  {
    && Completed(p.costs) && p.liquidityKnown
    && !AboveUnit(policy, Net(p)) && !OwnerForbids(policy, p)
    && InvestableCash(s.cash, p.gross.currency) < Net(p).amount
    && TargetWins(p.comparison, p.target.id) && p.preference == PreferTarget
  }

  /** Which rung of the ladder decides. */
  ghost function LadderBasis(s: Portfolio, policy: OwnerPolicy, p: Proposal): Basis
    requires Covered(policy, p)
  {
    if !Completed(p.costs) then FrictionUnknown
    else if AboveUnit(policy, Net(p)) || OwnerForbids(policy, p) then PolicyBlock
    else if InvestableCash(s.cash, p.gross.currency) >= Net(p).amount then NewCapitalFirst
    else if !p.liquidityKnown then LiquidityUnresolved
    else if !TargetWins(p.comparison, p.target.id) || p.preference != PreferTarget then SourceNotOutclassed
    else AfterFrictionDominance
  }

  ghost predicate IsDecision(d: ReplacementDecision, s: Portfolio, policy: OwnerPolicy, p: Proposal)
  {
    && d.proposal == p && Admitted(s, policy, p, d.source)
    && d.availableCash == Money(InvestableCash(s.cash, p.gross.currency), p.gross.currency)
    && (d.switch.Some? <==> Completed(p.costs))
    && (d.switch.Some? ==> d.switch.value == Switch(Money(TotalFriction(p.costs), p.gross.currency), Net(p)))
    && d.basis == LadderBasis(s, policy, p)
  }

  method FindSource(s: Portfolio, sourceId: string) returns (source: Option<Position>)
    ensures source.Some? ==> source.value in s.positions && source.value.id == sourceId
    ensures source.None? ==> forall x :: x in s.positions ==> x.id != sourceId
  {
    for n := 0 to |s.positions|
      invariant forall x :: x in s.positions[..n] ==> x.id != sourceId
    {
      if s.positions[n].id == sourceId {
        return Some(s.positions[n]);
      }
    }
    return None;
  }

  lemma SourceIsUnique(s: Portfolio, p: Proposal, a: Position, b: Position)
    requires ValidPortfolio(s) && IsSource(s, p, a) && IsSource(s, p, b)
    ensures a == b
  {
    var i :| 0 <= i < |s.positions| && s.positions[i] == a;
    var j :| 0 <= j < |s.positions| && s.positions[j] == b;
  }

  method Decide(s: Portfolio, policy: OwnerPolicy, p: Proposal) returns (r: Result)
    requires ValidPortfolio(s) && ValidProposal(p)
    ensures r.Ok? <==> exists source :: Admitted(s, policy, p, source)
    ensures r.Err? ==> IsError(r.error, s, policy, p)
    ensures r.Ok? ==> IsDecision(r.decision, s, policy, p)
    ensures r.Ok? ==> (r.decision.Replaces() <==> MustReplace(s, policy, p))
  {
    hide TotalFriction;
    hide Completed;
    hide InOneCurrency;
    hide InvestableCash;
    hide OwnerForbids;
    hide Covered;
    hide ValidProposal;
    var found := FindSource(s, p.sourceId);
    if found.None? {
      return Err(UnknownSource);
    }
    var source := found.value;
    assert IsSource(s, p, source);
    forall other | Admitted(s, policy, p, other)
      ensures other == source
    {
      SourceIsUnique(s, p, source, other);
    }
    hide ValidPortfolio;
    if p.target.instrumentId == source.instrumentId {
      return Err(TargetIsSource);
    }
    if p.gross.currency != source.value.currency {
      return Err(SaleCurrency);
    }
    if p.gross.amount > source.value.amount {
      return Err(SaleAboveValue);
    }
    if p.target.currency != source.value.currency {
      return Err(TargetCurrency);
    }
    if !Covered(policy, p) {
      return Err(ObservationsDoNotCover);
    }
    var error, switch := FrictionAmounts(p.costs, p.gross);
    if error.Some? {
      return Err(error.value);
    }
    var cash := Money(InvestableCash(s.cash, p.gross.currency), p.gross.currency);
    var basis;
    if switch.None? {
      basis := FrictionUnknown;
    } else {
      var blocked := PolicyBlocks(policy, p, switch.value.net);
      if blocked.None? {
        return Err(UnitCurrency);
      }
      basis := Rung(blocked.value, cash.amount, switch.value.net.amount, p);
    }
    assert Admitted(s, policy, p, source);
    var d := ReplacementDecision(p, source, switch, cash, basis);
    ReplacesIff(d, s, policy, p);
    r := Ok(d);
  }

  function Rung(blocked: bool, cash: real, net: real, p: Proposal): Basis
  {
    if blocked then PolicyBlock
    else if cash >= net then NewCapitalFirst
    else if !p.liquidityKnown then LiquidityUnresolved
    else if !TargetWins(p.comparison, p.target.id) || p.preference != PreferTarget then SourceNotOutclassed
    else AfterFrictionDominance
  }

  // ---------------------------------------------------------------- laws of replacement

  /** The ladder replaces exactly when every gate passes: no rung lets a failed gate through. */
  lemma ReplacesIff(d: ReplacementDecision, s: Portfolio, policy: OwnerPolicy, p: Proposal)
    requires IsDecision(d, s, policy, p)
    ensures d.Replaces() <==> MustReplace(s, policy, p)
  {
    hide TotalFriction;
    hide OwnerForbids;
    hide InvestableCash;
  }

  /** What one known cost and the free cash come to on the ladder: the first gate that fails names the outcome. */
  lemma BasisIs(d: ReplacementDecision, s: Portfolio, policy: OwnerPolicy, p: Proposal)
    requires IsDecision(d, s, policy, p)
    ensures d.basis == FrictionUnknown <==> exists c :: c in p.costs && c.estimate.Unknown?
    ensures d.basis == PolicyBlock <==> d.switch.Some? && IsBlocked(policy, p, d.switch.value.net.amount)
    ensures d.basis == NewCapitalFirst <==>
      && d.switch.Some? && !IsBlocked(policy, p, d.switch.value.net.amount)
      && d.availableCash.amount >= d.switch.value.net.amount
    ensures d.basis == LiquidityUnresolved <==>
      && d.switch.Some? && !IsBlocked(policy, p, d.switch.value.net.amount)
      && d.availableCash.amount < d.switch.value.net.amount && !p.liquidityKnown
  {
    hide TotalFriction;
    hide InvestableCash;
    hide Admitted;
  }

  /** The net amount is above the owner's unit, the target takes no new capital, or an observed ratio is too high. */
  ghost predicate IsBlocked(policy: OwnerPolicy, p: Proposal, net: real)
    requires Covered(policy, p)
  {
    || (policy.maxCapitalUnit.Some? && policy.maxCapitalUnit.value.amount < net)
    || (p.target.kind.ExistingHolding? && p.target.kind.positionId in policy.allowsNewCapital
        && policy.allowsNewCapital[p.target.kind.positionId] == false)
    || (exists c :: c in policy.ratioConstraints && c.maximum < p.observedAfter[c.kind])
  }

  /** Nothing is created or lost in the switch, and no sale is made that free cash could have funded. */
  lemma ReplaceConserves(d: ReplacementDecision, s: Portfolio, policy: OwnerPolicy, p: Proposal)
    requires ValidProposal(p) && IsDecision(d, s, policy, p) && d.Replaces()
    ensures d.switch.Some?
    ensures d.switch.value.net.amount + d.switch.value.friction.amount == p.gross.amount
    ensures 0.0 <= d.switch.value.friction.amount
    ensures 0.0 < d.switch.value.net.amount <= p.gross.amount <= d.source.value.amount
    ensures d.switch.value.net.currency == d.switch.value.friction.currency
    ensures d.switch.value.friction.currency == p.gross.currency == d.source.value.currency
    ensures InvestableCash(s.cash, p.gross.currency) < d.switch.value.net.amount
  {
    hide InvestableCash;
    hide OwnerForbids;
    FrictionOfThree(p.costs);
    assert forall i :: 0 <= i < 3 ==> CostAmount(p.costs[i]) >= 0.0;
    hide TotalFriction;
  }

  /** When every estimate is known, the net amount is the gross less the three amounts, whatever their kinds. */
  lemma NetIsGrossLessCosts(d: ReplacementDecision, s: Portfolio, policy: OwnerPolicy, p: Proposal)
    requires ValidProposal(p) && IsDecision(d, s, policy, p)
    requires forall c :: c in p.costs ==> c.estimate.Known?
    ensures d.switch.Some?
    ensures d.switch.value.net.amount == p.gross.amount - p.costs[0].estimate.amount.amount
                                         - p.costs[1].estimate.amount.amount - p.costs[2].estimate.amount.amount
  {
    hide Admitted;
    hide LadderBasis;
    FrictionOfThree(p.costs);
    hide TotalFriction;
  }

  /** More free cash never turns HOLD into REPLACE. */
  lemma CashNeverTriggersSale(s: Portfolio, richer: Portfolio, policy: OwnerPolicy, p: Proposal)
    requires Covered(policy, p)
    requires InvestableCash(s.cash, p.gross.currency) <= InvestableCash(richer.cash, p.gross.currency)
    ensures MustReplace(richer, policy, p) ==> MustReplace(s, policy, p)
  {
    hide OwnerForbids;
  }

  /**
   Costs are not monotone. A costlier switch that replaces would also replace at the lower cost exactly
   when the larger net amount still fits the owner's maximum capital unit.
   */
  lemma CheaperSwitchIff(s: Portfolio, policy: OwnerPolicy, cheap: Proposal, dear: Proposal)
    requires Covered(policy, dear) && cheap == dear.(costs := cheap.costs)
    requires Completed(cheap.costs) && TotalFriction(cheap.costs) <= TotalFriction(dear.costs)
    requires MustReplace(s, policy, dear)
    ensures MustReplace(s, policy, cheap) <==> !AboveUnit(policy, Net(cheap))
  {
    hide TotalFriction;
    hide InvestableCash;
  }

  // ---------------------------------------------------------------- a cheaper switch that is held

  const OWN_UNIT_95 := OwnerPolicy(Some(Money(95.0, "EUR")), [], map[])

  const OLD_HOLDING := Portfolio([Position("p:old", "share:old", Money(200.0, "EUR"))], [])

  const FREE_OF_COST := [Cost(Tax, NotApplicable), Cost(Fee, NotApplicable), Cost(Spread, NotApplicable)]

  const TAXED_AT_TEN := [Cost(Tax, Known(Money(10.0, "EUR"))), Cost(Fee, NotApplicable), Cost(Spread, NotApplicable)]

  /** Sell 100 of the old holding for a core ETF that wins the comparison before and after friction. */
  function SwitchAt(costs: seq<Cost>): Proposal
  {
    Proposal("p:old", Target("etf", CoreEtf, "etf", "EUR"), Money(100.0, "EUR"), Comparison("etf", "p:old", First),
             costs, true, PreferTarget, map[])
  }

  /**
   With a maximum unit of 95, the switch that costs 10 is carried out and the one that costs nothing is held:
   its whole 100 no longer fit the unit.
   */
  lemma FreeSwitchIsHeld()
    ensures ValidPortfolio(OLD_HOLDING)
    ensures ValidProposal(SwitchAt(TAXED_AT_TEN)) && ValidProposal(SwitchAt(FREE_OF_COST))
    ensures Admitted(OLD_HOLDING, OWN_UNIT_95, SwitchAt(TAXED_AT_TEN), OLD_HOLDING.positions[0])
    ensures Admitted(OLD_HOLDING, OWN_UNIT_95, SwitchAt(FREE_OF_COST), OLD_HOLDING.positions[0])
    ensures MustReplace(OLD_HOLDING, OWN_UNIT_95, SwitchAt(TAXED_AT_TEN))
    ensures !MustReplace(OLD_HOLDING, OWN_UNIT_95, SwitchAt(FREE_OF_COST))
    ensures LadderBasis(OLD_HOLDING, OWN_UNIT_95, SwitchAt(FREE_OF_COST)) == PolicyBlock
  {
    FrictionOfThree(TAXED_AT_TEN);
    FrictionOfThree(FREE_OF_COST);
    hide TotalFriction;
  }
}
