/**
 From an approved decision to the orders that carry it out: whatever the market says, the capital that
 reaches the orders is the capital that was approved.
 */
module CapitalChain {
  import opened LookThrough
  import opened Dominance
  import opened PolicyDecision
  import opened PortfolioFit
  import opened Temporal
  import opened Tranches
  import opened Execution
  import R = Replacement

  /** The approved instruction a REPLACE decision hands over: sell the gross amount, buy with the net amount. */
  function FromReplacement(d: R.ReplacementDecision, conditions: set<string>, boundary: Boundary): Instruction
    requires d.switch.Some?
  {
    Instruction.Replacement(d.proposal.target.instrumentId, d.switch.value.net, conditions, boundary,
      d.source.instrumentId, d.proposal.gross)
  }

  /** The approved instruction an ALLOCATE decision hands over: one purchase for the whole evaluated unit. */
  function FromAllocation(unit: Money, instrumentId: string, conditions: set<string>, boundary: Boundary): Instruction
  {
    Allocation(instrumentId, unit, conditions, boundary)
  }

  /** The sum of every order on one side of a plan. */
  ghost function Traded(legs: seq<Leg>, side: Side): real
  {
    if legs == [] then 0.0
    else
      Traded(legs[..|legs| - 1], side)
      + (if legs[|legs| - 1].side == side then Sum(legs[|legs| - 1].tranches) else 0.0)
  }

  lemma TradedOfOne(legs: seq<Leg>, side: Side)
    requires |legs| == 1
    ensures Traded(legs, side) == if legs[0].side == side then Sum(legs[0].tranches) else 0.0
  {
    hide Sum;
    assert legs[..0] == [];
  }

  /** One more leg adds exactly its own orders, on its own side. */
  lemma TradedNext(legs: seq<Leg>, leg: Leg)
    ensures Traded(legs + [leg], leg.side) == Traded(legs, leg.side) + Sum(leg.tranches)
    ensures forall side :: side != leg.side ==> Traded(legs + [leg], side) == Traded(legs, side)
    ensures forall side :: Traded([], side) == 0.0
  {
    assert (legs + [leg])[..|legs|] == legs;
    hide Sum;
  }

  /** What the instructions hand over: instruments, amounts, conditions and boundary, each from its own place. */
  lemma InstructionsAre(d: R.ReplacementDecision, unit: Money, instrumentId: string, conditions: set<string>,
                        boundary: Boundary)
    requires d.switch.Some?
    ensures var i := FromReplacement(d, conditions, boundary);
      && i.Replacement? && i.source == d.source.instrumentId && i.saleAmount == d.proposal.gross
      && i.target == d.proposal.target.instrumentId && i.targetAmount == d.switch.value.net
      && i.conditions == conditions && i.boundary == boundary
    ensures var i := FromAllocation(unit, instrumentId, conditions, boundary);
      && i.Allocation? && i.target == instrumentId && i.targetAmount == unit
      && i.conditions == conditions && i.boundary == boundary
  {
  }

  lemma TradedOfTwo(legs: seq<Leg>, side: Side)
    requires |legs| == 2
    ensures Traded(legs, side) ==
      (if legs[0].side == side then Sum(legs[0].tranches) else 0.0)
        + (if legs[1].side == side then Sum(legs[1].tranches) else 0.0)
  {
    hide Sum;
    TradedOfOne(legs[..1], side);
  }

  /** Every plan that does not wait and is not invalidated is executable. */
  lemma ExecutableIff(p: Plan)
    ensures Executable(p) <==> p.action != Wait && p.action != Invalidated
  {
  }

  predicate Executable(p: Plan)
  {
    p.action == Now || p.action == Staged
  }

  lemma ReplacementIsExecutable(d: R.ReplacementDecision, s: R.Portfolio, policy: OwnerPolicy, p: R.Proposal,
                                conditions: set<string>, boundary: Boundary)
    requires R.ValidProposal(p) && R.IsDecision(d, s, policy, p) && d.Replaces()
    ensures d.switch.Some? && ValidInstruction(FromReplacement(d, conditions, boundary))
  {
    R.ReplaceConserves(d, s, policy, p);
    hide R.LadderBasis;
  }

  /** In every executable plan for a replacement, sales exceed purchases by exactly the switching friction. */
  lemma SwitchIsConserved(d: R.ReplacementDecision, s: R.Portfolio, policy: OwnerPolicy, proposal: R.Proposal,
                          conditions: set<string>, boundary: Boundary, p: Plan)
    requires R.ValidProposal(proposal) && R.IsDecision(d, s, policy, proposal) && d.Replaces()
    requires d.switch.Some? && p.instruction == FromReplacement(d, conditions, boundary)
    requires ValidPlan(p) && Executable(p)
    ensures Traded(p.legs, Sell) - Traded(p.legs, Buy) == d.switch.value.friction.amount
    ensures Traded(p.legs, Sell) <= d.source.value.amount
    ensures Traded(p.legs, Buy) > R.InvestableCash(s.cash, proposal.gross.currency)
  {
    hide Sum;
    hide Traded;
    hide R.LadderBasis;
    hide R.InvestableCash;
    hide R.TotalFriction;
    hide R.ValidProposal;
    hide R.Admitted;
    hide ValidPlan;
    R.ReplaceConserves(d, s, policy, proposal);
    ApprovedAmountsAreKept(p, 0);
    ApprovedAmountsAreKept(p, 1);
    TradedOfTwo(p.legs, Sell);
    TradedOfTwo(p.legs, Buy);
  }

  /** In every executable plan for an allocation, the purchases sum to the evaluated unit and nothing is sold. */
  lemma AllocationIsNotResized(unit: Money, instrumentId: string, conditions: set<string>, boundary: Boundary, p: Plan)
    requires p.instruction == FromAllocation(unit, instrumentId, conditions, boundary)
    requires ValidPlan(p) && Executable(p)
    ensures Traded(p.legs, Buy) == unit.amount && Traded(p.legs, Sell) == 0.0
  {
    hide Sum;
    hide Traded;
    hide ValidPlan;
    ApprovedAmountsAreKept(p, 0);
    TradedOfOne(p.legs, Buy);
    TradedOfOne(p.legs, Sell);
  }

  /**
   Apply the owner's policy and, if an alternative wins, plan its execution. `instruments` names
   each alternative's instrument.
   */
  method PlanAllocation(policy: OwnerPolicy, unit: Money, positionId: string, fits: map<string, FitEffect>,
                        comparisons: seq<Comparison>, instruments: map<string, string>, conditions: set<string>,
                        boundary: Boundary, limits: ExecutionPolicy, input: PlanInput)
    returns (decision: Option<Decision>, plan: Option<Execution.Result>)
    requires PairsOnce(comparisons) && NON_CASH <= fits.Keys && NON_CASH <= instruments.Keys
    requires unit.amount > 0.0 && ValidPolicy(limits) && ValidInput(input)
    ensures decision.Some? <==> UnitCurrencyMatches(policy, unit)
    ensures decision.Some? ==> exists eligible ::
      AreEligible(eligible, policy, unit, positionId, fits) && IsWarranted(decision.value, eligible, comparisons)
    ensures plan.Some? <==> decision.Some? && decision.value.outcome == Allocate
    ensures plan.Some? ==> decision.value.selected in NON_CASH
    ensures plan.Some? && plan.value.Ok? ==>
      plan.value.plan.instruction == FromAllocation(unit, instruments[decision.value.selected], conditions, boundary)
    ensures plan.Some? && plan.value.Ok? && Executable(plan.value.plan) ==>
      && Traded(plan.value.plan.legs, Buy) == unit.amount && Traded(plan.value.plan.legs, Sell) == 0.0
      && (policy.maxCapitalUnit.Some? ==> Traded(plan.value.plan.legs, Buy) <= policy.maxCapitalUnit.value.amount)
  {
    hide PairsOnce;
    hide IsWarranted;
    hide AreEligible;
    hide GuardsPass;
    hide QuotesBelong;
    hide IsTriggered;
    hide ValidInput;
    hide Traded;
    hide LadderAction;
    hide ValidPlan;
    hide ValidPolicy;
    hide MustWait;
    hide ExceedsLimit;
    hide IsGuardError;
    var eligible;
    decision, eligible := ApplyPolicy(policy, unit, positionId, fits, comparisons);
    if decision.None? || decision.value.outcome != Allocate {
      return decision, None;
    }
    AllocationIsAdmitted(decision.value, eligible, policy, unit, positionId, fits, comparisons);
    var instrumentId := instruments[decision.value.selected];
    var result := Execute(FromAllocation(unit, instrumentId, conditions, boundary), limits, input);
    if result.Ok? && Executable(result.plan) {
      AllocationIsNotResized(unit, instrumentId, conditions, boundary, result.plan);
    }
    plan := Some(result);
  }

  lemma AllocationIsAdmitted(d: Decision, eligible: set<string>, policy: OwnerPolicy, unit: Money, positionId: string,
                             fits: map<string, FitEffect>, comparisons: seq<Comparison>)
    requires NON_CASH <= fits.Keys && AreEligible(eligible, policy, unit, positionId, fits)
    requires IsWarranted(d, eligible, comparisons) && d.outcome == Allocate
    ensures d.selected in NON_CASH && Admits(policy, d.selected, unit, positionId, fits[d.selected])
    ensures policy.maxCapitalUnit.Some? ==> unit.amount <= policy.maxCapitalUnit.value.amount
  {
    hide Beats;
    hide GatePasses;
  }

  /** Decide on a replacement and, if it stands, plan its execution. */
  method PlanReplacement(s: R.Portfolio, policy: OwnerPolicy, proposal: R.Proposal, conditions: set<string>,
                         boundary: Boundary, limits: ExecutionPolicy, input: PlanInput)
    returns (decision: R.Result, plan: Option<Execution.Result>)
    requires R.ValidPortfolio(s) && R.ValidProposal(proposal) && ValidPolicy(limits) && ValidInput(input)
    ensures plan.Some? <==> decision.Ok? && decision.decision.Replaces()
    ensures plan.Some? && plan.value.Ok? && Executable(plan.value.plan) ==>
      && decision.decision.switch.Some?
      && Traded(plan.value.plan.legs, Sell) - Traded(plan.value.plan.legs, Buy)
           == decision.decision.switch.value.friction.amount
      && Traded(plan.value.plan.legs, Sell) == proposal.gross.amount <= decision.decision.source.value.amount
  {
    hide R.ValidProposal;
    hide R.ValidPortfolio;
    hide R.IsDecision;
    hide R.Admitted;
    hide GuardsPass;
    hide QuotesBelong;
    hide IsTriggered;
    hide ValidInput;
    hide Traded;
    hide LadderAction;
    hide ValidPlan;
    hide ValidInstruction;
    hide SpecsOf;
    decision := R.Decide(s, policy, proposal);
    if decision.Err? || !decision.decision.Replaces() {
      return decision, None;
    }
    var d := decision.decision;
    ReplacementIsExecutable(d, s, policy, proposal, conditions, boundary);
    var result := Execute(FromReplacement(d, conditions, boundary), limits, input);
    if result.Ok? && Executable(result.plan) {
      SwitchIsConserved(d, s, policy, proposal, conditions, boundary, result.plan);
      SaleIsGross(d, s, policy, proposal, conditions, boundary, result.plan);
    }
    plan := Some(result);
  }

  lemma SaleIsGross(d: R.ReplacementDecision, s: R.Portfolio, policy: OwnerPolicy, proposal: R.Proposal,
                    conditions: set<string>, boundary: Boundary, p: Plan)
    requires R.IsDecision(d, s, policy, proposal) && d.switch.Some?
    requires p.instruction == FromReplacement(d, conditions, boundary)
    requires ValidPlan(p) && Executable(p)
    ensures Traded(p.legs, Sell) == proposal.gross.amount
  {
    hide Sum;
    hide Traded;
    hide R.LadderBasis;
    hide R.Admitted;
    hide ValidPlan;
    ApprovedAmountsAreKept(p, 0);
    ApprovedAmountsAreKept(p, 1);
    TradedOfTwo(p.legs, Sell);
  }
}
