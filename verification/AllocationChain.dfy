/**
 From the exposure of a portfolio to the orders of an allocation: the fits of the three alternatives, the
 owner's policy on them, and the execution of the winner.
 */
module AllocationChain {
  import opened LookThrough
  import opened ExposureTables
  import opened Categories
  import opened ExposureBook
  import opened ExposureEngine
  import opened PortfolioFit
  import opened FitRefinement
  import opened Dominance
  import opened PolicyDecision
  import opened OwnerLimits
  import opened Temporal
  import opened Execution
  import opened CapitalChain

  /** The equity that is not held yet, with its profile if one is known. */
  datatype Candidate = Candidate(instrumentId: string, companyId: string, profile: Option<Profile>)

  /** The fits of one unit: incremental for the candidate, read off the after views for the other two. */
  ghost predicate AreFits(fits: map<string, FitEffect>, before: Option<CurrencyBook>, candidate: Candidate,
                          afterExisting: CurrencyBook, afterCore: CurrencyBook, amount: real)
    requires amount > 0.0 && Gross(before) >= 0.0
  {
    && fits.Keys == NON_CASH
    && IsIncremental(fits[CANDIDATE], before, candidate.instrumentId, candidate.companyId,
                     CandidateProfile(candidate.profile), amount)
    && IsDiff(fits[EXISTING], before, afterExisting)
    && IsDiff(fits[CORE_ETF], before, afterCore)
  }

  /** None when an after view does not hold exactly the unit more. */
  method BuildFits(before: Option<CurrencyBook>, candidate: Candidate, afterExisting: CurrencyBook,
                   afterCore: CurrencyBook, amount: real)
    returns (r: Option<map<string, FitEffect>>)
    requires ValidProfile(CandidateProfile(candidate.profile)) && amount > 0.0 && Gross(before) >= 0.0
    ensures r.Some? <==> Gross(before) + amount == afterExisting.gross == afterCore.gross
    ensures r.Some? ==> AreFits(r.value, before, candidate, afterExisting, afterCore, amount)
  {
    hide IsIncremental;
    hide IsDiff;
    hide ValidProfile;
    hide Gross;
    var fit := BuildCandidateFit(before, candidate.instrumentId, candidate.companyId, candidate.profile, amount);
    var existing := BuildVerifiedFit(before, afterExisting, amount);
    if existing.None? {
      return None;
    }
    var core := BuildVerifiedFit(before, afterCore, amount);
    if core.None? {
      return None;
    }
    r := Some(map[CANDIDATE := fit, EXISTING := existing.value, CORE_ETF := core.value]);
  }

  /** A plan for the alternative that wins among the admitted ones, bought with exactly the unit. */
  ghost predicate IsAllocationPlan(plan: Plan, d: Decision, fits: map<string, FitEffect>, before: Option<CurrencyBook>,
                                   unit: Money, instruments: map<string, string>, conditions: set<string>,
                                   boundary: Boundary)
  {
    && d.selected in fits && d.selected in instruments
    && plan.instruction == FromAllocation(unit, instruments[d.selected], conditions, boundary)
    && (Executable(plan) ==>
          && Traded(plan.legs, Sell) == 0.0
          && Gross(before) + Traded(plan.legs, Buy) == fits[d.selected].grossAfter)
  }

  /** Fits, policy and execution in one run. */
  method Allocate(before: Option<CurrencyBook>, candidate: Candidate, afterExisting: CurrencyBook,
                  afterCore: CurrencyBook, policy: OwnerPolicy, unit: Money, positionId: string,
                  comparisons: seq<Comparison>, instruments: map<string, string>, conditions: set<string>,
                  boundary: Boundary, limits: ExecutionPolicy, input: PlanInput)
    returns (fits: Option<map<string, FitEffect>>, decision: Option<Decision>, plan: Option<Execution.Result>)
    requires ValidProfile(CandidateProfile(candidate.profile)) && unit.amount > 0.0 && Gross(before) >= 0.0
    requires PairsOnce(comparisons) && NON_CASH <= instruments.Keys
    requires ValidPolicy(limits) && ValidInput(input)
    ensures fits.Some? <==> Gross(before) + unit.amount == afterExisting.gross == afterCore.gross
    ensures fits.Some? ==> AreFits(fits.value, before, candidate, afterExisting, afterCore, unit.amount)
    ensures decision.Some? <==> fits.Some? && UnitCurrencyMatches(policy, unit)
    ensures decision.Some? ==> IsPolicyDecision(decision.value, policy, unit, positionId, fits.value, comparisons)
    ensures plan.Some? <==> decision.Some? && decision.value.outcome == PolicyDecision.Allocate
    ensures plan.Some? && plan.value.Ok? ==>
      IsAllocationPlan(plan.value.plan, decision.value, fits.value, before, unit, instruments, conditions, boundary)
  {
    hide PairsOnce;
    hide IsWarranted;
    hide AreEligible;
    hide AreFits;
    hide ValidProfile;
    hide ValidPolicy;
    hide ValidInput;
    hide Traded;
    hide Gross;
    fits := BuildFits(before, candidate, afterExisting, afterCore, unit.amount);
    if fits.None? {
      return fits, None, None;
    }
    FitsGrow(fits.value, before, candidate, afterExisting, afterCore, unit.amount);
    decision, plan := PlanAllocation(policy, unit, positionId, fits.value, comparisons, instruments, conditions,
                                     boundary, limits, input);
  }

  ghost predicate IsPolicyDecision(d: Decision, policy: OwnerPolicy, unit: Money, positionId: string,
                                   fits: map<string, FitEffect>, comparisons: seq<Comparison>)
  {
    && NON_CASH <= fits.Keys
    && exists eligible ::
         AreEligible(eligible, policy, unit, positionId, fits) && IsWarranted(d, eligible, comparisons)
  }

  lemma FitsGrow(fits: map<string, FitEffect>, before: Option<CurrencyBook>, candidate: Candidate,
                 afterExisting: CurrencyBook, afterCore: CurrencyBook, amount: real)
    requires amount > 0.0 && Gross(before) >= 0.0
    requires Gross(before) + amount == afterExisting.gross == afterCore.gross
    requires AreFits(fits, before, candidate, afterExisting, afterCore, amount)
    ensures fits.Keys == NON_CASH
    ensures forall a :: a in fits ==> fits[a].grossAfter == Gross(before) + amount
  {
    hide Lookup;
    hide AfterWeight;
    hide HhiOf;
    hide CompaniesAfterFit;
  }

  // ---------------------------------------------------------------- what the orders make of the portfolio

  /** The book that holds the unit in the given alternative; the candidate's is the rebuilt one. */
  function AfterBook(alternative: string, afterCandidate: CurrencyBook, afterExisting: CurrencyBook,
                     afterCore: CurrencyBook): CurrencyBook
  {
    if alternative == CANDIDATE then afterCandidate else if alternative == EXISTING then afterExisting else afterCore
  }

  /** The portfolio rebuilt with the candidate as one more holding of the unit. */
  ghost predicate IsRebuilt(after: CurrencyBook, hs: seq<Holding>, snapshots: map<string, EtfSnapshot>,
                            profiles: map<string, Profile>, count: nat, candidate: Candidate, unit: Money)
  {
    var all := hs + [Holding(ListedEquity(candidate.instrumentId, candidate.companyId), unit.currency, unit.amount)];
    var p := CandidateProfile(candidate.profile);
    && Covered(all, snapshots)
    && exists profiles' ::
         && ExtendsProfiles(profiles', profiles, candidate.companyId, p)
         && IsBookOf(after, unit.currency, TablesOf(all, snapshots, unit.currency), profiles', count)
  }

  lemma CandidateFitIsDiff(hs: seq<Holding>, snapshots: map<string, EtfSnapshot>, profiles: map<string, Profile>,
                           count: nat, before: Option<CurrencyBook>, candidate: Candidate, unit: Money,
                           after: CurrencyBook, effect: FitEffect)
    requires Covered(hs, snapshots) && unit.amount > 0.0 && Gross(before) >= 0.0
    requires IsCurrentBook(before, hs, snapshots, profiles, unit.currency, count)
    requires IsRebuilt(after, hs, snapshots, profiles, count, candidate, unit)
    requires IsIncremental(effect, before, candidate.instrumentId, candidate.companyId,
                           CandidateProfile(candidate.profile), unit.amount)
    ensures IsDiff(effect, before, after)
  {
    hide Covered;
    hide TablesOf;
    hide IsBookOf;
    hide IsCurrentBook;
    hide ExtendsProfiles;
    hide IsIncremental;
    hide IsDiff;
    hide CandidateProfile;
    var all := hs + [Holding(ListedEquity(candidate.instrumentId, candidate.companyId), unit.currency, unit.amount)];
    var p := CandidateProfile(candidate.profile);
    var profiles' :| ExtendsProfiles(profiles', profiles, candidate.companyId, p)
      && IsBookOf(after, unit.currency, TablesOf(all, snapshots, unit.currency), profiles', count);
    IncrementalRefinesRebuild(hs, snapshots, unit.currency, count, profiles, before, candidate.instrumentId,
                              candidate.companyId, candidate.profile, unit.amount, profiles', after, effect);
  }

  /** What the owner's limit comes to in the book after an allocation. */
  ghost predicate LimitOutcome(c: RatioConstraint, effect: FitEffect, before: Option<CurrencyBook>, after: CurrencyBook)
  {
    if c.kind == MaxCompanyHhiUpper then after.hhi.upper <= c.maximum
    else WithinLimit(Some(after), c) <==> RestWithinLimit(before, effect, c)
  }

  /**
   Exposure to orders: whichever alternative wins, the book that holds it is worth exactly the orders more, and
   each owner limit holds in it if and only if the weights the purchase leaves alone were within it.
   */
  lemma OrdersReachTheBook(hs: seq<Holding>, snapshots: map<string, EtfSnapshot>, profiles: map<string, Profile>,
                           count: nat, before: Option<CurrencyBook>, candidate: Candidate,
                           afterCandidate: CurrencyBook, afterExisting: CurrencyBook, afterCore: CurrencyBook,
                           policy: OwnerPolicy, unit: Money, positionId: string, comparisons: seq<Comparison>,
                           instruments: map<string, string>, conditions: set<string>, boundary: Boundary,
                           fits: map<string, FitEffect>, d: Decision, plan: Plan, c: RatioConstraint)
    requires Covered(hs, snapshots) && unit.amount > 0.0 && Gross(before) >= 0.0
    requires IsCurrentBook(before, hs, snapshots, profiles, unit.currency, count)
    requires IsRebuilt(afterCandidate, hs, snapshots, profiles, count, candidate, unit)
    requires AreFits(fits, before, candidate, afterExisting, afterCore, unit.amount)
    requires IsPolicyDecision(d, policy, unit, positionId, fits, comparisons) && d.outcome == PolicyDecision.Allocate
    requires IsAllocationPlan(plan, d, fits, before, unit, instruments, conditions, boundary) && Executable(plan)
    ensures var after := AfterBook(d.selected, afterCandidate, afterExisting, afterCore);
      && d.selected in NON_CASH && IsDiff(fits[d.selected], before, after)
      && after.gross == Gross(before) + Traded(plan.legs, Buy)
      && (c in policy.ratioConstraints ==> LimitOutcome(c, fits[d.selected], before, after))
  {
    hide Covered;
    hide IsCurrentBook;
    hide IsRebuilt;
    hide IsIncremental;
    hide Admits;
    hide Traded;
    hide Executable;
    hide WithinLimit;
    hide RestWithinLimit;
    var eligible :| AreEligible(eligible, policy, unit, positionId, fits) && IsWarranted(d, eligible, comparisons);
    var after := AfterBook(d.selected, afterCandidate, afterExisting, afterCore);
    AllocationIsAdmitted(d, eligible, policy, unit, positionId, fits, comparisons);
    hide AreEligible;
    hide IsWarranted;
    CandidateFitIsDiff(hs, snapshots, profiles, count, before, candidate, unit, afterCandidate, fits[CANDIDATE]);
    hide IsDiff;
    assert IsDiff(fits[d.selected], before, after);
    DiffShowsAfter(fits[d.selected], before, after);
    if c in policy.ratioConstraints {
      if c.kind == MaxCompanyHhiUpper {
        UpperBoundIsGated(policy, d.selected, unit, positionId, fits[d.selected], c);
      } else {
        AllocationMeetsLimitIff(d, eligible, policy, unit, positionId, fits, comparisons, c, before, after);
      }
    }
  }

  lemma DiffShowsAfter(effect: FitEffect, before: Option<CurrencyBook>, after: CurrencyBook)
    requires IsDiff(effect, before, after)
    ensures effect.grossAfter == after.gross && effect.hhiAfter == after.hhi
  {
    hide Lookup;
  }

  lemma UpperBoundIsGated(policy: OwnerPolicy, alternative: string, unit: Money, positionId: string, effect: FitEffect,
                          c: RatioConstraint)
    requires Admits(policy, alternative, unit, positionId, effect)
    requires c in policy.ratioConstraints && c.kind == MaxCompanyHhiUpper
    ensures effect.hhiAfter.upper <= c.maximum
  {
    assert GatePasses(effect, c);
  }
}
