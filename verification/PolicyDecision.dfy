/**
 From pairwise comparisons to a capital decision: the unconstrained marginal decision, and the same
 competition after the owner's policy has blocked inadmissible alternatives.
 */
module PolicyDecision {
  import opened LookThrough
  import opened PortfolioFit
  import opened Dominance

  const CANDIDATE := "alternative:candidate-equity"
  const EXISTING := "alternative:existing-holding"
  const CORE_ETF := "alternative:core-etf"
  const CASH := "alternative:investment-cash"

  const NON_CASH: set<string> := {CANDIDATE, EXISTING, CORE_ETF}
  const ALTERNATIVES: set<string> := NON_CASH + {CASH}

  /** The ids of the four alternatives. */
  lemma AlternativeIds()
    ensures CASH == "alternative:investment-cash" && CASH !in NON_CASH
    ensures NON_CASH == {"alternative:candidate-equity", "alternative:existing-holding", "alternative:core-etf"}
  {
  }

  datatype Money = Money(amount: real, currency: string)

  datatype ConstraintKind = MaxCompanyWeight | MaxCompanyHhiUpper | MaxDriverWeight

  datatype RatioConstraint = RatioConstraint(kind: ConstraintKind, maximum: real)

  /** `allowsNewCapital` holds the owner's explicit position policies. */
  datatype OwnerPolicy = OwnerPolicy(
    maxCapitalUnit: Option<Money>,
    ratioConstraints: seq<RatioConstraint>,
    allowsNewCapital: map<string, bool>)

  datatype BlockReason =
    | UnitExceedsMaximum
    | ZeroNewCapital
    | CannotEvaluate(kind: ConstraintKind)
    | WouldExceed(kind: ConstraintKind)

  datatype Outcome = Allocate | NoAllocation

  datatype Decision = Decision(outcome: Outcome, selected: string, winner: Option<string>)

  // ---------------------------------------------------------------- the two decisions

  /** The outcome that a competition among the eligible alternatives warrants. */
  ghost predicate IsWarranted(d: Decision, eligible: set<string>, comparisons: seq<Comparison>)
  {
    && (d.winner.None? <==> forall w :: w in eligible ==> !IsDominant(w, eligible, comparisons))
    && (d.winner.Some? ==> IsDominant(d.winner.value, eligible, comparisons))
    && (d.outcome == Allocate <==> d.winner.Some? && d.winner.value != CASH)
    && d.selected == (if d.outcome == Allocate then d.winner.value else CASH)
  }

  method DecideAmong(comparisons: seq<Comparison>, eligible: set<string>) returns (d: Decision)
    requires PairsOnce(comparisons)
    ensures IsWarranted(d, eligible, comparisons)
  {
    hide PairsOnce;
    hide IsDominant;
    var winner := RestrictedDominanceWinner(comparisons, eligible);
    if winner.Some? && winner.value != CASH {
      d := Decision(Allocate, winner.value, winner);
    } else {
      d := Decision(NoAllocation, CASH, winner);
    }
  }

  lemma WarrantedIsUnique(d: Decision, e: Decision, eligible: set<string>, comparisons: seq<Comparison>)
    requires PairsOnce(comparisons)
    requires IsWarranted(d, eligible, comparisons) && IsWarranted(e, eligible, comparisons)
    ensures d == e
  {
    hide PairsOnce;
    hide IsDominant;
    SomeWinnerForBoth(d, e, eligible, comparisons);
    SomeWinnerForBoth(e, d, eligible, comparisons);
    if d.winner.Some? {
      DominantIsUnique(d.winner.value, e.winner.value, eligible, comparisons);
    }
  }

  lemma SomeWinnerForBoth(d: Decision, e: Decision, eligible: set<string>, comparisons: seq<Comparison>)
    requires IsWarranted(d, eligible, comparisons) && IsWarranted(e, eligible, comparisons)
    ensures d.winner.Some? ==> e.winner.Some?
  {
    hide IsDominant;
    if d.winner.Some? {
      DominantInEligible(d.winner.value, eligible, comparisons);
    }
  }

  lemma DominantInEligible(w: string, eligible: set<string>, comparisons: seq<Comparison>)
    requires IsDominant(w, eligible, comparisons)
    ensures w in eligible
  {
  }

  /** Every allocation beats cash and every eligible rival, and nothing beats it back. */
  lemma AllocationBeatsEveryRival(d: Decision, eligible: set<string>, comparisons: seq<Comparison>, rival: string)
    requires PairsOnce(comparisons) && CASH in eligible
    requires IsWarranted(d, eligible, comparisons) && d.outcome == Allocate
    requires rival in eligible && rival != d.selected
    ensures d.selected in eligible && d.selected != CASH
    ensures Beats(comparisons, d.selected, rival) && Beats(comparisons, d.selected, CASH)
    ensures !Beats(comparisons, rival, d.selected)
  {
    hide PairsOnce;
    hide Beats;
    BeatsIsAsymmetric(comparisons, d.selected, rival);
  }

  /** The policy never overturns an allocation that it does not block. */
  lemma UnblockedAllocationStands(marginal: Decision, constrained: Decision, eligible: set<string>,
                                  comparisons: seq<Comparison>)
    requires PairsOnce(comparisons) && eligible <= ALTERNATIVES
    requires IsWarranted(marginal, ALTERNATIVES, comparisons) && marginal.outcome == Allocate
    requires marginal.selected in eligible
    requires IsWarranted(constrained, eligible, comparisons)
    ensures constrained == marginal
  {
    hide PairsOnce;
    DominantSurvivesFilter(marginal.selected, ALTERNATIVES, eligible, comparisons);
    WarrantedIsUnique(constrained, marginal, eligible, comparisons);
  }

  /** Order and orientation of the comparisons do not change the decision. */
  lemma DecisionIsUnoriented(a: seq<Comparison>, b: seq<Comparison>, d: Decision, eligible: set<string>)
    requires SameComparisons(a, b)
    ensures IsWarranted(d, eligible, a) <==> IsWarranted(d, eligible, b)
  {
    hide SameComparisons;
    forall w
      ensures IsDominant(w, eligible, a) <==> IsDominant(w, eligible, b)
    {
      DominanceIsUnoriented(a, b, w, eligible);
    }
    hide IsDominant;
  }

  // ---------------------------------------------------------------- owner gates

  function DimensionOf(kind: ConstraintKind): FitDimension
  {
    if kind == MaxCompanyWeight then CompanyDim else DriverDim
  }

  /** The largest after-weight among the weights of a dimension that the Fit reports as changed. */
  ghost predicate IsObservation(o: Option<real>, effect: FitEffect, kind: ConstraintKind)
  {
    if kind == MaxCompanyHhiUpper then
      o == Some(effect.hhiAfter.upper)
    else
      && (o.None? <==> forall k :: k in effect.weightDeltas ==> k.0 != DimensionOf(kind))
      && (o.Some? ==> exists k ::
            k in effect.weightDeltas && k.0 == DimensionOf(kind) && effect.weightDeltas[k].after == o.value)
      && (o.Some? ==> forall k ::
            k in effect.weightDeltas && k.0 == DimensionOf(kind) ==> effect.weightDeltas[k].after <= o.value)
  }

  method FitObservation(effect: FitEffect, kind: ConstraintKind) returns (o: Option<real>)
    ensures IsObservation(o, effect, kind)
  {
    if kind == MaxCompanyHhiUpper {
      return Some(effect.hhiAfter.upper);
    }
    o := None;
    var rest := effect.weightDeltas.Keys;
    while rest != {}
      invariant rest <= effect.weightDeltas.Keys
      invariant o.None? <==> forall k :: k in effect.weightDeltas && k !in rest ==> k.0 != DimensionOf(kind)
      invariant o.Some? ==> exists k ::
        k in effect.weightDeltas && k.0 == DimensionOf(kind) && effect.weightDeltas[k].after == o.value
      invariant o.Some? ==> forall k :: k in effect.weightDeltas && k !in rest && k.0 == DimensionOf(kind) ==>
        effect.weightDeltas[k].after <= o.value
      decreases |rest|
    {
      var k :| k in rest;
      rest := rest - {k};
      if k.0 == DimensionOf(kind) && (o.None? || o.value < effect.weightDeltas[k].after) {
        o := Some(effect.weightDeltas[k].after);
      }
    }
  }

  /** What a ratio gate means: something changed in its dimension and no changed weight ends above the maximum. */
  ghost predicate GatePasses(effect: FitEffect, c: RatioConstraint)
  {
    if c.kind == MaxCompanyHhiUpper then
      effect.hhiAfter.upper <= c.maximum
    else
      && (exists k :: k in effect.weightDeltas && k.0 == DimensionOf(c.kind))
      && (forall k :: k in effect.weightDeltas && k.0 == DimensionOf(c.kind) ==>
            effect.weightDeltas[k].after <= c.maximum)
  }

  /** The reason one ratio constraint gives against an effect. */
  ghost predicate GateBlocks(reason: BlockReason, effect: FitEffect, c: RatioConstraint)
  {
    match reason
    case CannotEvaluate(kind) =>
      kind == c.kind != MaxCompanyHhiUpper && forall k :: k in effect.weightDeltas ==> k.0 != DimensionOf(c.kind)
    case WouldExceed(kind) => kind == c.kind && Exceeds(effect, c)
    case _ => false
  }

  ghost predicate Exceeds(effect: FitEffect, c: RatioConstraint)
  {
    if c.kind == MaxCompanyHhiUpper then
      effect.hhiAfter.upper > c.maximum
    else
      exists k :: k in effect.weightDeltas && k.0 == DimensionOf(c.kind) && effect.weightDeltas[k].after > c.maximum
  }

  /** What the policy records against an alternative. */
  ghost predicate Blocks(reason: BlockReason, policy: OwnerPolicy, alternative: string, unit: Money,
                         positionId: string, effect: FitEffect)
  {
    match reason
    case UnitExceedsMaximum => policy.maxCapitalUnit.Some? && unit.amount > policy.maxCapitalUnit.value.amount
    case ZeroNewCapital =>
      alternative == EXISTING && positionId in policy.allowsNewCapital && !policy.allowsNewCapital[positionId]
    case _ => exists c :: c in policy.ratioConstraints && GateBlocks(reason, effect, c)
  }

  /** The reasons an observed weight or bound gives. */
  function ObservedReasons(o: Option<real>, c: RatioConstraint): set<BlockReason>
  {
    if o.None? then {CannotEvaluate(c.kind)} else if o.value > c.maximum then {WouldExceed(c.kind)} else {}
  }

  lemma ObservationDecidesGate(o: Option<real>, effect: FitEffect, c: RatioConstraint)
    requires IsObservation(o, effect, c.kind)
    ensures forall reason :: reason in ObservedReasons(o, c) <==> GateBlocks(reason, effect, c)
  {
  }

  lemma GatePassesIff(effect: FitEffect, c: RatioConstraint)
    ensures GatePasses(effect, c) <==> forall reason :: !GateBlocks(reason, effect, c)
  {
    if !GatePasses(effect, c) {
      assert GateBlocks(CannotEvaluate(c.kind), effect, c) || GateBlocks(WouldExceed(c.kind), effect, c);
    }
  }

  /** The policy admits an alternative exactly when it records nothing against it. */
  lemma AdmitsIff(policy: OwnerPolicy, alternative: string, unit: Money, positionId: string, effect: FitEffect)
    ensures Admits(policy, alternative, unit, positionId, effect) <==>
      forall reason :: !Blocks(reason, policy, alternative, unit, positionId, effect)
  {
    hide GatePasses;
    hide GateBlocks;
    forall c
      ensures GatePasses(effect, c) <==> forall reason :: !GateBlocks(reason, effect, c)
    {
      GatePassesIff(effect, c);
    }
    RatioReasonsOnly(effect);
    if Admits(policy, alternative, unit, positionId, effect) {
      forall reason
        ensures !Blocks(reason, policy, alternative, unit, positionId, effect)
      {
      }
    } else {
      if c :| c in policy.ratioConstraints && !GatePasses(effect, c) {
        var reason :| GateBlocks(reason, effect, c);
        assert Blocks(reason, policy, alternative, unit, positionId, effect);
      } else {
        assert Blocks(UnitExceedsMaximum, policy, alternative, unit, positionId, effect)
            || Blocks(ZeroNewCapital, policy, alternative, unit, positionId, effect);
      }
    }
  }

  /** Something of the dimension changed, and nothing changed in it ends above the maximum. */
  ghost predicate GatedOn(effect: FitEffect, d: FitDimension, maximum: real)
  {
    && (exists k :: k in effect.weightDeltas && k.0 == d)
    && (forall k :: k in effect.weightDeltas && k.0 == d ==> effect.weightDeltas[k].after <= maximum)
  }

  /** A company limit is about company weights and a driver limit about driver weights, those that change. */
  lemma WeightLimitGates(policy: OwnerPolicy, alternative: string, unit: Money, positionId: string, effect: FitEffect,
                         kind: ConstraintKind, d: FitDimension)
    requires (kind == MaxCompanyWeight && d == CompanyDim) || (kind == MaxDriverWeight && d == DriverDim)
    ensures Blocks(WouldExceed(kind), policy, alternative, unit, positionId, effect) <==>
      exists c, k :: c in policy.ratioConstraints && c.kind == kind
                  && k in effect.weightDeltas && k.0 == d && effect.weightDeltas[k].after > c.maximum
    ensures Blocks(CannotEvaluate(kind), policy, alternative, unit, positionId, effect) <==>
      (exists c :: c in policy.ratioConstraints && c.kind == kind) && forall k :: k in effect.weightDeltas ==> k.0 != d
    ensures Admits(policy, alternative, unit, positionId, effect) ==>
      forall c :: c in policy.ratioConstraints && c.kind == kind ==> GatedOn(effect, d, c.maximum)
  {
  }

  /** A concentration limit is about the upper bound after the purchase, and can always be evaluated. */
  lemma ConcentrationLimitGates(policy: OwnerPolicy, alternative: string, unit: Money, positionId: string,
                                effect: FitEffect)
    ensures Blocks(WouldExceed(MaxCompanyHhiUpper), policy, alternative, unit, positionId, effect) <==>
      exists c :: c in policy.ratioConstraints && c.kind == MaxCompanyHhiUpper && effect.hhiAfter.upper > c.maximum
    ensures !Blocks(CannotEvaluate(MaxCompanyHhiUpper), policy, alternative, unit, positionId, effect)
  {
  }

  lemma RatioReasonsOnly(effect: FitEffect)
    ensures forall reason, c :: GateBlocks(reason, effect, c) ==> reason.CannotEvaluate? || reason.WouldExceed?
  {
  }

  /** Which alternatives the owner's policy leaves in the competition. */
  ghost predicate Admits(policy: OwnerPolicy, alternative: string, unit: Money, positionId: string, effect: FitEffect)
  {
    && (policy.maxCapitalUnit.Some? ==> unit.amount <= policy.maxCapitalUnit.value.amount)
    && (alternative == EXISTING && positionId in policy.allowsNewCapital ==> policy.allowsNewCapital[positionId])
    && (forall c :: c in policy.ratioConstraints ==> GatePasses(effect, c))
  }

  predicate UnitCurrencyMatches(policy: OwnerPolicy, unit: Money)
  {
    policy.maxCapitalUnit.Some? ==> policy.maxCapitalUnit.value.currency == unit.currency
  }

  method BlockReasons(policy: OwnerPolicy, alternative: string, unit: Money, positionId: string, effect: FitEffect)
    returns (r: Option<set<BlockReason>>)
    ensures r.Some? <==> UnitCurrencyMatches(policy, unit)
    ensures r.Some? ==> forall reason ::
      reason in r.value <==> Blocks(reason, policy, alternative, unit, positionId, effect)
    ensures r.Some? ==> (r.value == {} <==> Admits(policy, alternative, unit, positionId, effect))
  {
    hide GateBlocks;
    hide IsObservation;
    hide Admits;
    if !UnitCurrencyMatches(policy, unit) {
      return None;
    }
    var reasons: set<BlockReason> := {};
    if policy.maxCapitalUnit.Some? && unit.amount > policy.maxCapitalUnit.value.amount {
      reasons := reasons + {UnitExceedsMaximum};
    }
    if alternative == EXISTING && positionId in policy.allowsNewCapital && !policy.allowsNewCapital[positionId] {
      reasons := reasons + {ZeroNewCapital};
    }
    var ratios := RatioReasons(policy.ratioConstraints, effect);
    RatioReasonsOnly(effect);
    AdmitsIff(policy, alternative, unit, positionId, effect);
    r := Some(reasons + ratios);
  }

  /** The loop over the ratio constraints. */
  method RatioReasons(constraints: seq<RatioConstraint>, effect: FitEffect) returns (reasons: set<BlockReason>)
    ensures forall reason :: reason in reasons <==> exists c :: c in constraints && GateBlocks(reason, effect, c)
  {
    hide GateBlocks;
    hide IsObservation;
    hide ObservedReasons;
    reasons := {};
    var n := 0;
    while n < |constraints|
      invariant 0 <= n <= |constraints|
      invariant forall reason ::
        reason in reasons <==> exists c :: c in constraints[..n] && GateBlocks(reason, effect, c)
    {
      var c := constraints[n];
      var observed := FitObservation(effect, c.kind);
      ObservationDecidesGate(observed, effect, c);
      assert constraints[..n + 1] == constraints[..n] + [c];
      reasons := reasons + ObservedReasons(observed, c);
      n := n + 1;
    }
    assert constraints[..n] == constraints;
  }

  /** Cash is always eligible; any other alternative exactly when the policy admits it. */
  ghost predicate AreEligible(eligible: set<string>, policy: OwnerPolicy, unit: Money, positionId: string,
                              fits: map<string, FitEffect>)
    requires NON_CASH <= fits.Keys
  {
    && CASH in eligible && eligible <= ALTERNATIVES
    && (forall a :: a in NON_CASH ==> (a in eligible <==> Admits(policy, a, unit, positionId, fits[a])))
  }

  /** Filter the four alternatives through the policy, then let the eligible ones compete for the unchanged unit. */
  method ApplyPolicy(policy: OwnerPolicy, unit: Money, positionId: string, fits: map<string, FitEffect>,
                     comparisons: seq<Comparison>)
    returns (r: Option<Decision>, eligible: set<string>)
    requires PairsOnce(comparisons) && NON_CASH <= fits.Keys
    ensures r.Some? <==> UnitCurrencyMatches(policy, unit)
    ensures r.Some? ==> AreEligible(eligible, policy, unit, positionId, fits)
    ensures r.Some? ==> IsWarranted(r.value, eligible, comparisons)
  {
    hide PairsOnce;
    hide Admits;
    hide IsWarranted;
    eligible := {CASH};
    var rest := NON_CASH;
    while rest != {}
      invariant rest <= NON_CASH && CASH in eligible && eligible <= ALTERNATIVES && eligible !! rest
      invariant forall a :: a in NON_CASH && a !in rest ==>
        (a in eligible <==> Admits(policy, a, unit, positionId, fits[a]))
      invariant rest != NON_CASH ==> UnitCurrencyMatches(policy, unit)
      decreases |rest|
    {
      var a :| a in rest;
      var reasons := BlockReasons(policy, a, unit, positionId, fits[a]);
      if reasons.None? {
        return None, {};
      }
      if reasons.value == {} {
        eligible := eligible + {a};
      }
      rest := rest - {a};
    }
    assert CANDIDATE in NON_CASH;
    var d := DecideAmong(comparisons, eligible);
    r := Some(d);
  }

  /** An allocation through the policy satisfies every owner limit that its own Fit can see. */
  lemma AllocationRespectsPolicy(d: Decision, eligible: set<string>, policy: OwnerPolicy, unit: Money,
                                 positionId: string, fits: map<string, FitEffect>, comparisons: seq<Comparison>,
                                 c: RatioConstraint, k: Component)
    requires NON_CASH <= fits.Keys && AreEligible(eligible, policy, unit, positionId, fits)
    requires IsWarranted(d, eligible, comparisons) && d.outcome == Allocate
    requires c in policy.ratioConstraints
    ensures d.selected in NON_CASH
    ensures policy.maxCapitalUnit.Some? ==> unit.amount <= policy.maxCapitalUnit.value.amount
    ensures d.selected == EXISTING && positionId in policy.allowsNewCapital ==> policy.allowsNewCapital[positionId]
    ensures c.kind == MaxCompanyHhiUpper ==> fits[d.selected].hhiAfter.upper <= c.maximum
    ensures c.kind != MaxCompanyHhiUpper && k in fits[d.selected].weightDeltas && k.0 == DimensionOf(c.kind)
        ==> fits[d.selected].weightDeltas[k].after <= c.maximum
  {
    hide Beats;
    assert IsDominant(d.selected, eligible, comparisons);
    assert GatePasses(fits[d.selected], c);
  }
}
