/** What a plan does, read off the instruction and the observations: each reason, each text, each order. */
module ExecutionLaws {
  import opened Sequences
  import opened Sorting
  import opened Tranches
  import opened LookThrough
  import opened Temporal
  import opened Execution

  // ---------------------------------------------------------------- reasons and texts

  /** The texts a waiting plan records, one cause at a time; no other plan records any. */
  lemma MissingDataIs(i: Instruction, input: PlanInput, action: Action, text: string)
    ensures text in MissingData(i, input, action) <==> action == Wait && AsksFor(i, input, text)
  {
    InstrumentsAre(i);
    hide SpecsOf;
  }

  ghost predicate AsksFor(i: Instruction, input: PlanInput, text: string)
  {
    || (exists c :: c in i.conditions && !Assessed(input, c) && text == "Missing invalidation assessment: " + c)
    || (exists o :: o in input.invalidations && o.status == StatusUnknown && text in o.missing)
    || (exists id :: id in InstrumentsOf(i) && !Quoted(input, id) && text == "Missing execution quote: " + id)
    || (exists o :: o in input.market && o.liquidity == LiquidityUnknown && text in o.missing)
  }

  ghost predicate Assessed(input: PlanInput, condition: string)
  {
    exists o :: o in input.invalidations && o.condition == condition
  }

  ghost predicate Quoted(input: PlanInput, instrumentId: string)
  {
    exists o :: o in input.market && o.instrumentId == instrumentId
  }

  /** The instruments an instruction trades. */
  ghost function InstrumentsOf(i: Instruction): set<string>
  {
    {i.target} + if i.Replacement? then {i.source} else {}
  }

  lemma InstrumentsAre(i: Instruction)
    ensures forall id :: id in InstrumentsOf(i) <==> exists s :: s in SpecsOf(i) && s.instrumentId == id
  {
    forall id
      ensures id in InstrumentsOf(i) <==> exists s :: s in SpecsOf(i) && s.instrumentId == id
    {
      if i.Replacement? {
        assert SpecsOf(i)[0].instrumentId == i.source && SpecsOf(i)[1].instrumentId == i.target;
      } else {
        assert SpecsOf(i)[0].instrumentId == i.target;
      }
    }
  }

  lemma UnquotedIs(i: Instruction, policy: ExecutionPolicy, input: PlanInput)
    requires ValidInput(input)
    ensures WaitsFor(QuoteMissing, i, policy, input) <==> exists id :: id in InstrumentsOf(i) && !Quoted(input, id)
  {
    hide ValidInput;
    InstrumentsAre(i);
    if s :| s in SpecsOf(i) && forall o :: o in input.market ==> o.instrumentId != s.instrumentId {
      assert s.instrumentId in InstrumentsOf(i) && !Quoted(input, s.instrumentId);
    }
    hide SpecsOf;
    hide InstrumentsOf;
    if id :| id in InstrumentsOf(i) && !Quoted(input, id) {
      var s :| s in SpecsOf(i) && s.instrumentId == id;
      assert forall o :: o in input.market ==> o.instrumentId != s.instrumentId;
    }
  }

  /** The other three reasons to wait, and the one to stage, read off the instruction and the observations. */
  lemma ConditionGatesAreExact(p: Plan, i: Instruction, policy: ExecutionPolicy, input: PlanInput)
    requires ValidInput(input) && IsLadderPlan(p, i, policy, input) && !IsTriggered(input)
    ensures InvalidationMissing in p.reasons <==> exists c :: c in i.conditions && !Assessed(input, c)
    ensures InvalidationUnknown in p.reasons <==> exists o :: o in input.invalidations && o.status == StatusUnknown
    ensures QuoteMissing in p.reasons <==> exists id :: id in InstrumentsOf(i) && !Quoted(input, id)
  {
    hide QuoteReasons;
    hide ValidPlan;
    hide MissingData;
    hide Splits;
    UnquotedIs(i, policy, input);
    hide SpecsOf;
    hide InstrumentsOf;
    assert WaitsFor(InvalidationMissing, i, policy, input) <==> exists c :: c in i.conditions && !Assessed(input, c);
    assert WaitsFor(InvalidationUnknown, i, policy, input) <==>
      exists o :: o in input.invalidations && o.status == StatusUnknown;
    hide WaitsFor;
  }

  /** The orders of an executable plan: an allocation buys its target, a replacement sells the source first. */
  lemma OrdersAre(p: Plan)
    requires ValidPlan(p) && (p.action == Now || p.action == Staged)
    ensures var i := p.instruction;
      && |p.legs| == (if i.Replacement? then 2 else 1)
      && (i.Replacement? ==>
            && p.legs[0].side == Sell && p.legs[0].instrumentId == i.source && p.legs[0].total == i.saleAmount
            && p.legs[1].side == Buy && p.legs[1].instrumentId == i.target && p.legs[1].total == i.targetAmount)
      && (i.Allocation? ==>
            p.legs[0].side == Buy && p.legs[0].instrumentId == i.target && p.legs[0].total == i.targetAmount)
  {
    hide ValidLeg;
    hide NoRepeats;
    assert ImplementsSpecs(p.legs, SpecsOf(p.instruction));
  }

  /** What a quote does to a plan, read off its fields. */
  lemma QuoteGatesAreExact(p: Plan, i: Instruction, policy: ExecutionPolicy, input: PlanInput)
    requires ValidInput(input) && IsLadderPlan(p, i, policy, input) && !IsTriggered(input)
    ensures QuoteStale in p.reasons <==>
      exists o :: o in input.market && input.boundary.asOf - o.observedAt > policy.maxQuoteAgeSeconds * 1000000
    ensures SpreadTooWide in p.reasons <==>
      exists o :: o in input.market && (o.ask - o.bid) * 20000.0 > policy.maxSpreadBps * (o.bid + o.ask)
    ensures UnknownLiquidity in p.reasons <==> exists o :: o in input.market && o.liquidity == LiquidityUnknown
    ensures ConstrainedLiquidity in p.reasons <==> exists o :: o in input.market && o.liquidity == Constrained
  {
    hide QuoteReasons;
    hide IsLadderPlan;
    OnlyWaitingReasons(p, i, policy, input, QuoteStale);
    OnlyWaitingReasons(p, i, policy, input, SpreadTooWide);
    OnlyWaitingReasons(p, i, policy, input, UnknownLiquidity);
    OnlyWaitingReasons(p, i, policy, input, ConstrainedLiquidity);
    hide IsTriggered;
    forall o | o in input.market
      ensures QuoteStale in QuoteReasons(policy, input, o) <==>
        input.boundary.asOf - o.observedAt > policy.maxQuoteAgeSeconds * 1000000
      ensures SpreadTooWide in QuoteReasons(policy, input, o) <==>
        (o.ask - o.bid) * 20000.0 > policy.maxSpreadBps * (o.bid + o.ask)
      ensures UnknownLiquidity in QuoteReasons(policy, input, o) <==> o.liquidity == LiquidityUnknown
      ensures ConstrainedLiquidity in QuoteReasons(policy, input, o) <==> o.liquidity == Constrained
    {
      OneQuote(policy, input, o);
    }
    hide ValidInput;
  }

  lemma OneQuote(policy: ExecutionPolicy, input: PlanInput, o: MarketObservation)
    requires ValidMarket(o)
    ensures QuoteStale in QuoteReasons(policy, input, o) <==>
      input.boundary.asOf - o.observedAt > policy.maxQuoteAgeSeconds * 1000000
    ensures SpreadTooWide in QuoteReasons(policy, input, o) <==>
      (o.ask - o.bid) * 20000.0 > policy.maxSpreadBps * (o.bid + o.ask)
    ensures UnknownLiquidity in QuoteReasons(policy, input, o) <==> o.liquidity == LiquidityUnknown
    ensures ConstrainedLiquidity in QuoteReasons(policy, input, o) <==> o.liquidity == Constrained
  {
    hide SpreadBps;
    hide SecondsOld;
    StaleIff(policy, input, o);
    SpreadExceedsIff(o.bid, o.ask, policy.maxSpreadBps);
  }

  lemma StaleIff(policy: ExecutionPolicy, input: PlanInput, o: MarketObservation)
    ensures SecondsOld(input, o) > policy.maxQuoteAgeSeconds as real <==>
      input.boundary.asOf - o.observedAt > policy.maxQuoteAgeSeconds * 1000000
  {
    var age, limit := input.boundary.asOf - o.observedAt, policy.maxQuoteAgeSeconds;
    assert SecondsOld(input, o) * 1000000.0 == age as real;
    assert (limit * 1000000) as real == limit as real * 1000000.0;
  }

  /** A plan gives one of the four quote reasons only while it waits, and then exactly for a quote that has it. */
  lemma OnlyWaitingReasons(p: Plan, i: Instruction, policy: ExecutionPolicy, input: PlanInput, code: ReasonCode)
    requires ValidInput(input) && IsLadderPlan(p, i, policy, input) && !IsTriggered(input)
    requires code in {QuoteStale, SpreadTooWide, UnknownLiquidity, ConstrainedLiquidity}
    ensures code in p.reasons <==> exists o :: o in input.market && code in QuoteReasons(policy, input, o)
  {
    hide QuoteReasons;
    hide ValidPlan;
    hide MissingData;
    hide Splits;
    assert WaitsFor(code, i, policy, input) <==>
      exists o :: o in input.market && code in QuoteReasons(policy, input, o);
    hide WaitsFor;
  }

  // ---------------------------------------------------------------- the guards

  /** What is wrong with the instants of one observation. */
  lemma TimeErrorIs(boundary: Boundary, t: Times)
    requires t.availableAt <= t.recordedAt
    ensures TimeError(boundary, t) == Some(FutureObservation) <==> boundary.asOf < t.observedAt
    ensures TimeError(boundary, t) == Some(OutsideBoundary) <==>
      && t.observedAt <= boundary.asOf
      && (boundary.asOf < t.availableAt || (boundary.mode == LiveSystemReplay && boundary.asOf < t.recordedAt))
    ensures TimeError(boundary, t).Some? ==> TimeError(boundary, t).value in {FutureObservation, OutsideBoundary}
  {
  }

  /** Which instants are checked: market observations first, each with its own three. */
  lemma TimesAre(input: PlanInput, n: nat)
    ensures |ObservationTimes(input)| == |input.market| + |input.invalidations|
    ensures n < |input.market| ==>
      var o, t := input.market[n], ObservationTimes(input)[n];
      t.observedAt == o.observedAt && t.availableAt == o.availableAt && t.recordedAt == o.recordedAt
    ensures n < |input.invalidations| ==>
      var o, t := input.invalidations[n], ObservationTimes(input)[|input.market| + n];
      t.observedAt == o.observedAt && t.availableAt == o.availableAt && t.recordedAt == o.recordedAt
  {
  }

  /** What is checked after the instants: disclosed conflicts, then conditions nobody fixed in advance. */
  lemma LateErrorsAre(late: Option<PlanError>, i: Instruction, input: PlanInput)
    ensures late.Some? ==> AfterTimes(late, i, input) == late
    ensures late.None? ==> (AfterTimes(late, i, input) == Some(UnresolvedConflicts) <==> input.conflicts != [])
    ensures late.None? ==> (AfterTimes(late, i, input) == Some(AddedCondition) <==>
      input.conflicts == [] && exists o :: o in input.invalidations && o.condition !in i.conditions)
  {
  }

  // ---------------------------------------------------------------- the order of the reasons

  /** The wire names. */
  function WireName(code: ReasonCode): string
  {
    match code
    case ReadyNow => "ready_now"
    case ExplicitStagingLimit => "explicit_staging_limit"
    case InvalidationTriggered => "invalidation_triggered"
    case InvalidationUnknown => "invalidation_unknown"
    case InvalidationMissing => "invalidation_missing"
    case QuoteMissing => "quote_missing"
    case QuoteStale => "quote_stale"
    case SpreadTooWide => "spread_too_wide"
    case UnknownLiquidity => "liquidity_unknown"
    case ConstrainedLiquidity => "liquidity_constrained"
  }

  /** Neighbouring ranks have neighbouring names. */
  lemma NextName(a: ReasonCode, b: ReasonCode)
    requires NameRank(b) == NameRank(a) + 1
    ensures StringLeq(WireName(a), WireName(b)) && WireName(a) != WireName(b)
  {
    if NameRank(a) < 3 {
      NextInvalidation(a, b);
    } else if NameRank(a) < 6 {
      NextLiquidity(a, b);
    } else {
      NextQuote(a, b);
    }
    hide WireName;
  }

  lemma NextInvalidation(a: ReasonCode, b: ReasonCode)
    requires NameRank(b) == NameRank(a) + 1 <= 3
    ensures StringLeq(WireName(a), WireName(b)) && WireName(a) != WireName(b)
  {
    FirstDifference(WireName(a), WireName(b), if a == ExplicitStagingLimit then 0 else 13);
    hide StringLeq;
  }

  lemma NextLiquidity(a: ReasonCode, b: ReasonCode)
    requires 3 <= NameRank(a) && NameRank(b) == NameRank(a) + 1 <= 6
    ensures StringLeq(WireName(a), WireName(b)) && WireName(a) != WireName(b)
  {
    FirstDifference(WireName(a), WireName(b), if a == ConstrainedLiquidity then 10 else 0);
    hide StringLeq;
  }

  lemma NextQuote(a: ReasonCode, b: ReasonCode)
    requires 6 <= NameRank(a) && NameRank(b) == NameRank(a) + 1
    ensures StringLeq(WireName(a), WireName(b)) && WireName(a) != WireName(b)
  {
    FirstDifference(WireName(a), WireName(b), if a == QuoteMissing then 6 else 0);
    hide StringLeq;
  }

  lemma FirstDifference(a: string, b: string, k: nat)
    requires k < |a| && k < |b| && a[..k] == b[..k] && a[k] < b[k]
    ensures StringLeq(a, b) && a != b
  {
    StringLeqIs(a, b);
  }

  lemma {:induction false} NamesRise(a: ReasonCode, b: ReasonCode)
    requires NameRank(a) < NameRank(b)
    ensures StringLeq(WireName(a), WireName(b)) && WireName(a) != WireName(b)
    decreases NameRank(b)
  {
    hide StringLeq;
    var before := Before(b);
    NextName(before, b);
    if before != a {
      NamesRise(a, before);
      StringLeqTransitive(WireName(a), WireName(before), WireName(b));
      if WireName(a) == WireName(b) {
        StringLeqAntisymmetric(WireName(a), WireName(before));
      }
    }
    hide WireName;
  }

  ghost function Before(b: ReasonCode): (a: ReasonCode)
    requires NameRank(b) > 0
    ensures NameRank(a) + 1 == NameRank(b)
  {
    match b
    case InvalidationMissing => ExplicitStagingLimit
    case InvalidationTriggered => InvalidationMissing
    case InvalidationUnknown => InvalidationTriggered
    case ConstrainedLiquidity => InvalidationUnknown
    case UnknownLiquidity => ConstrainedLiquidity
    case QuoteMissing => UnknownLiquidity
    case QuoteStale => QuoteMissing
    case ReadyNow => QuoteStale
    case SpreadTooWide => ReadyNow
  }

  /** The reasons of a plan follow the alphabet of their wire names. */
  lemma NameOrderIs(a: ReasonCode, b: ReasonCode)
    ensures NameLeq(a, b) <==> TextAtMost(WireName(a), WireName(b))
  {
    hide TextAtMost;
    hide StringLeq;
    hide WireName;
    StringLeqIs(WireName(a), WireName(b));
    if NameRank(a) < NameRank(b) {
      NamesRise(a, b);
    } else if NameRank(b) < NameRank(a) {
      NamesRise(b, a);
      if StringLeq(WireName(a), WireName(b)) {
        StringLeqAntisymmetric(WireName(a), WireName(b));
      }
    } else {
      StringLeqTotal(WireName(a), WireName(a));
    }
  }
}
