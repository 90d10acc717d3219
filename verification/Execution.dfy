/**
 The execution ladder: an approved capital instruction becomes NOW, STAGED, WAIT or INVALIDATED.
 Reason texts are opaque; reasons are their codes.
 */
module Execution {
  import opened LookThrough
  import opened Sequences
  import opened Sorting
  import opened PolicyDecision
  import opened Temporal
  import opened Tranches

  datatype Side = Buy | Sell
  datatype Action = Now | Staged | Wait | Invalidated
  datatype Liquidity = Adequate | Constrained | LiquidityUnknown
  datatype InvalidationStatus = NotTriggered | Triggered | StatusUnknown

  datatype ReasonCode =
    | ReadyNow
    | ExplicitStagingLimit
    | InvalidationTriggered
    | InvalidationUnknown
    | InvalidationMissing
    | QuoteMissing
    | QuoteStale
    | SpreadTooWide
    | UnknownLiquidity
    | ConstrainedLiquidity

  /** An approved allocation, or an approved sale and purchase. */
  datatype Instruction =
    | Allocation(target: string, targetAmount: Money, conditions: set<string>, boundary: Boundary)
    | Replacement(target: string, targetAmount: Money, conditions: set<string>, boundary: Boundary, source: string,
                  saleAmount: Money)

  datatype ExecutionPolicy = ExecutionPolicy(boundary: Boundary, maxQuoteAgeSeconds: int, maxSpreadBps: real,
                                             maxOrder: Option<Money>)

  datatype MarketObservation = MarketObservation(
    instrumentId: string, currency: string, bid: real, ask: real,
    observedAt: int, availableAt: int, recordedAt: int, liquidity: Liquidity, missing: set<string>)

  datatype InvalidationObservation = InvalidationObservation(
    condition: string, status: InvalidationStatus, observedAt: int, availableAt: int, recordedAt: int,
    missing: set<string>)

  datatype PlanInput = PlanInput(
    boundary: Boundary, market: seq<MarketObservation>, invalidations: seq<InvalidationObservation>,
    conflicts: seq<string>)

  datatype LegSpec = LegSpec(side: Side, instrumentId: string, amount: Money)

  datatype Leg = Leg(sequence: nat, side: Side, instrumentId: string, total: Money, tranches: seq<Tranche>)

  datatype Plan = Plan(
    instruction: Instruction, boundary: Boundary, policyBoundary: Boundary,
    action: Action, reasons: seq<ReasonCode>, legs: seq<Leg>, missing: set<string>)

  datatype PlanError =
    | PolicyBoundaryDiffers | ModeDiffers | BoundaryPrecedesDecision
    | OrderLimitCurrency | FutureObservation | OutsideBoundary | UnresolvedConflicts
    | AddedCondition | AddedInstrument | ObservationCurrency

  datatype Result = Ok(plan: Plan) | Err(error: PlanError)

  // ---------------------------------------------------------------- validated inputs

  ghost predicate ValidMarket(o: MarketObservation)
  {
    0.0 < o.bid <= o.ask && o.observedAt <= o.availableAt <= o.recordedAt
  }

  ghost predicate ValidInvalidation(o: InvalidationObservation)
  {
    o.observedAt <= o.availableAt <= o.recordedAt
  }

  ghost predicate ValidInput(input: PlanInput)
  {
    && (forall o :: o in input.market ==> ValidMarket(o))
    && (forall o :: o in input.invalidations ==> ValidInvalidation(o))
    && (forall i, j :: 0 <= i < j < |input.market| ==> input.market[i].instrumentId != input.market[j].instrumentId)
    && (forall i, j :: 0 <= i < j < |input.invalidations| ==>
          input.invalidations[i].condition != input.invalidations[j].condition)
  }

  ghost predicate ValidPolicy(p: ExecutionPolicy)
  {
    p.maxQuoteAgeSeconds > 0 && 0.0 <= p.maxSpreadBps <= 10000.0 && (p.maxOrder.Some? ==> p.maxOrder.value.amount > 0.0)
  }

  ghost predicate ValidInstruction(i: Instruction)
  {
    && i.targetAmount.amount > 0.0
    && (i.Replacement? ==> i.saleAmount.amount > 0.0 && i.saleAmount.currency == i.targetAmount.currency)
    && (i.Replacement? ==> i.source != i.target)
  }

  function SpecsOf(i: Instruction): seq<LegSpec>
  {
    match i
    case Allocation(target, amount, _, _) => [LegSpec(Buy, target, amount)]
    case Replacement(target, amount, _, _, source, sale) => [LegSpec(Sell, source, sale), LegSpec(Buy, target, amount)]
  }

  function SpreadBps(bid: real, ask: real): real
    requires 0.0 < bid <= ask
  {
    (ask - bid) / ((bid + ask) / 2.0) * 10000.0
  }

  /** The spread gate without a division: the ask may exceed the bid by the limit's share of their mean. */
  lemma SpreadExceedsIff(bid: real, ask: real, limit: real)
    requires 0.0 < bid <= ask
    ensures SpreadBps(bid, ask) > limit <==> (ask - bid) * 20000.0 > limit * (bid + ask)
  {
    var total := bid + ask;
    var bps := SpreadBps(bid, ask);
    assert bps * total == (ask - bid) * 20000.0;
    hide SpreadBps;
    SignOfGap(bps, limit, total);
  }

  lemma SignOfGap(x: real, y: real, scale: real)
    requires scale > 0.0
    ensures x > y <==> x * scale > y * scale
  {
    var gap := x - y;
    assert gap * scale == x * scale - y * scale;
    assert gap > 0.0 ==> gap * scale > 0.0;
    assert gap <= 0.0 ==> gap * scale <= 0.0;
  }

  // ---------------------------------------------------------------- what validate_plan accepts

  ghost predicate ValidLeg(leg: Leg)
  {
    && leg.total.amount > 0.0 && leg.tranches != []
    && (forall i :: 0 <= i < |leg.tranches| ==>
          && leg.tranches[i].index == i + 1
          && leg.tranches[i].notional.currency == leg.total.currency && leg.tranches[i].notional.amount > 0.0)
    && Sum(leg.tranches) == leg.total.amount
  }

  ghost predicate ImplementsSpecs(legs: seq<Leg>, specs: seq<LegSpec>)
  {
    && |legs| == |specs|
    && (forall i :: 0 <= i < |legs| ==>
          && ValidLeg(legs[i]) && legs[i].sequence == i + 1 && legs[i].side == specs[i].side
          && legs[i].instrumentId == specs[i].instrumentId && legs[i].total == specs[i].amount)
  }

  ghost predicate ValidPlan(p: Plan)
  {
    && p.instruction.boundary.mode == p.boundary.mode
    && p.instruction.boundary.asOf <= p.boundary.asOf
    && p.policyBoundary == p.boundary
    && p.reasons != [] && NoRepeats(p.reasons)
    && (match p.action
        case Wait => p.legs == []
        case Invalidated => p.legs == []
        case Now =>
          && ImplementsSpecs(p.legs, SpecsOf(p.instruction)) && ReadyNow in p.reasons
          && forall leg :: leg in p.legs ==> |leg.tranches| == 1
        case Staged =>
          ImplementsSpecs(p.legs, SpecsOf(p.instruction)) && exists leg :: leg in p.legs && |leg.tranches| > 1)
    && (p.action == Invalidated <==> InvalidationTriggered in p.reasons)
  }

  // ---------------------------------------------------------------- what each reason means

  ghost predicate IsTriggered(input: PlanInput)
  {
    exists o :: o in input.invalidations && o.status == Triggered
  }

  function SecondsOld(input: PlanInput, o: MarketObservation): real
  {
    (input.boundary.asOf - o.observedAt) as real / 1000000.0
  }

  /** The wait reasons one quote gives. */
  function QuoteReasons(policy: ExecutionPolicy, input: PlanInput, o: MarketObservation): set<ReasonCode>
    requires ValidMarket(o)
  {
    (if SecondsOld(input, o) > policy.maxQuoteAgeSeconds as real then {QuoteStale} else {})
    + (if SpreadBps(o.bid, o.ask) > policy.maxSpreadBps then {SpreadTooWide} else {})
    + (match o.liquidity
       case LiquidityUnknown => {UnknownLiquidity}
       case Constrained => {ConstrainedLiquidity}
       case Adequate => {})
  }

  /** When the ladder must wait for a given reason. */
  ghost predicate WaitsFor(code: ReasonCode, i: Instruction, policy: ExecutionPolicy, input: PlanInput)
    requires ValidInput(input)
  {
    match code
    case InvalidationMissing =>
      exists c :: c in i.conditions && forall o :: o in input.invalidations ==> o.condition != c
    case InvalidationUnknown => exists o :: o in input.invalidations && o.status == StatusUnknown
    case QuoteMissing =>
      exists s :: s in SpecsOf(i) && forall o :: o in input.market ==> o.instrumentId != s.instrumentId
    case _ => exists o :: o in input.market && code in QuoteReasons(policy, input, o)
  }

  ghost predicate MustWait(i: Instruction, policy: ExecutionPolicy, input: PlanInput)
    requires ValidInput(input)
  {
    exists code :: WaitsFor(code, i, policy, input)
  }

  ghost predicate ExceedsLimit(i: Instruction, policy: ExecutionPolicy)
  {
    policy.maxOrder.Some? && exists s :: s in SpecsOf(i) && s.amount.amount > policy.maxOrder.value.amount
  }

  const MISSING_ASSESSMENT := "Missing invalidation assessment: "
  const MISSING_QUOTE := "Missing execution quote: "

  /** One text for each condition without an assessment. */
  function Unassessed(i: Instruction, input: PlanInput): set<string>
  {
    set c | c in i.conditions && (forall o :: o in input.invalidations ==> o.condition != c) :: MISSING_ASSESSMENT + c
  }

  /** One text for each traded instrument without a quote. */
  function Unquoted(i: Instruction, input: PlanInput): set<string>
  {
    set s | s in SpecsOf(i) && (forall o :: o in input.market ==> o.instrumentId != s.instrumentId) ::
      MISSING_QUOTE + s.instrumentId
  }

  /** What assessments of unknown status say is missing. */
  function MissingForStatus(invalidations: seq<InvalidationObservation>): set<string>
  {
    set o, text | o in invalidations && o.status == StatusUnknown && text in o.missing :: text
  }

  /** What quotes of unknown liquidity say is missing. */
  function MissingForLiquidity(market: seq<MarketObservation>): set<string>
  {
    set o, text | o in market && o.liquidity == LiquidityUnknown && text in o.missing :: text
  }

  /** All a waiting plan asks for; a plan that does not wait asks for nothing. */
  function MissingData(i: Instruction, input: PlanInput, action: Action): set<string>
  {
    if action != Wait then {}
    else
      Unassessed(i, input) + MissingForStatus(input.invalidations) + Unquoted(i, input)
      + MissingForLiquidity(input.market)
  }

  /** The four-way ladder, top rung first. */
  ghost function LadderAction(i: Instruction, policy: ExecutionPolicy, input: PlanInput): Action
    requires ValidInput(input)
  {
    if IsTriggered(input) then Invalidated
    else if MustWait(i, policy, input) then Wait
    else if ExceedsLimit(i, policy) then Staged
    else Now
  }

  // ---------------------------------------------------------------- guards

  ghost predicate GuardsPass(i: Instruction, policy: ExecutionPolicy, input: PlanInput)
    requires ValidInput(input)
  {
    && policy.boundary == input.boundary
    && i.boundary.mode == input.boundary.mode
    && i.boundary.asOf <= input.boundary.asOf
    && LimitInCurrency(i, policy)
    && (forall o :: o in input.market ==>
          o.observedAt <= input.boundary.asOf && input.boundary.Includes(o.availableAt, o.recordedAt))
    && (forall o :: o in input.invalidations ==>
          o.observedAt <= input.boundary.asOf && input.boundary.Includes(o.availableAt, o.recordedAt))
    && input.conflicts == []
    && (forall o :: o in input.invalidations ==> o.condition in i.conditions)
  }

  /** Checked only when nothing is triggered: every quote is for a traded instrument, in its approved currency. */
  ghost predicate QuotesBelong(i: Instruction, input: PlanInput)
  {
    forall o :: o in input.market ==>
      exists s :: s in SpecsOf(i) && s.instrumentId == o.instrumentId && s.amount.currency == o.currency
  }

  ghost predicate IsTraded(i: Instruction, instrumentId: string)
  {
    exists s :: s in SpecsOf(i) && s.instrumentId == instrumentId
  }

  // ---------------------------------------------------------------- which guard reports

  datatype Times = Times(observedAt: int, availableAt: int, recordedAt: int)

  /** Market observations first, then invalidation observations, each in canonical order. */
  function ObservationTimes(input: PlanInput): seq<Times>
  {
    seq(|input.market|, n requires 0 <= n < |input.market| =>
      Times(input.market[n].observedAt, input.market[n].availableAt, input.market[n].recordedAt))
    + seq(|input.invalidations|, n requires 0 <= n < |input.invalidations| =>
      Times(input.invalidations[n].observedAt, input.invalidations[n].availableAt, input.invalidations[n].recordedAt))
  }

  function TimeError(boundary: Boundary, t: Times): Option<PlanError>
  {
    if t.observedAt > boundary.asOf then Some(FutureObservation)
    else if t.availableAt <= t.recordedAt && !boundary.Includes(t.availableAt, t.recordedAt) then Some(OutsideBoundary)
    else None
  }

  /** The error of the first observation that has one. */
  ghost predicate IsFirstTimeError(error: Option<PlanError>, boundary: Boundary, times: seq<Times>)
  {
    && (error.None? <==> forall t :: t in times ==> TimeError(boundary, t).None?)
    && (error.Some? ==> exists n :: 0 <= n < |times| && TimeError(boundary, times[n]) == error
                                 && forall j :: 0 <= j < n ==> TimeError(boundary, times[j]).None?)
  }

  ghost predicate LimitInCurrency(i: Instruction, policy: ExecutionPolicy)
  {
    policy.maxOrder.Some? ==> forall s :: s in SpecsOf(i) ==> s.amount.currency == policy.maxOrder.value.currency
  }

  /** The first failing guard, in the order the guards are checked, is the one reported. */
  ghost predicate IsGuardError(error: Option<PlanError>, i: Instruction, policy: ExecutionPolicy, input: PlanInput)
  {
    if policy.boundary != input.boundary then error == Some(PolicyBoundaryDiffers)
    else if i.boundary.mode != input.boundary.mode then error == Some(ModeDiffers)
    else if input.boundary.asOf < i.boundary.asOf then error == Some(BoundaryPrecedesDecision)
    else if !LimitInCurrency(i, policy) then error == Some(OrderLimitCurrency)
    else
      exists late ::
        IsFirstTimeError(late, input.boundary, ObservationTimes(input)) && error == AfterTimes(late, i, input)
  }

  function AfterTimes(late: Option<PlanError>, i: Instruction, input: PlanInput): Option<PlanError>
  {
    if late.Some? then late
    else if input.conflicts != [] then Some(UnresolvedConflicts)
    else if exists o :: o in input.invalidations && o.condition !in i.conditions then Some(AddedCondition)
    else None
  }

  method CheckTimes(boundary: Boundary, times: seq<Times>) returns (error: Option<PlanError>)
    ensures IsFirstTimeError(error, boundary, times)
  {
    hide TimeError;
    for n := 0 to |times|
      invariant forall j :: 0 <= j < n ==> TimeError(boundary, times[j]).None?
    {
      error := TimeError(boundary, times[n]);
      if error.Some? {
        return error;
      }
    }
    error := None;
  }

  lemma TimesAreInOrder(input: PlanInput)
    requires ValidInput(input)
    ensures (forall t :: t in ObservationTimes(input) ==> TimeError(input.boundary, t).None?) <==>
      && (forall o :: o in input.market ==>
            o.observedAt <= input.boundary.asOf && input.boundary.Includes(o.availableAt, o.recordedAt))
      && (forall o :: o in input.invalidations ==>
            o.observedAt <= input.boundary.asOf && input.boundary.Includes(o.availableAt, o.recordedAt))
  {
    var times, m := ObservationTimes(input), |input.market|;
    if forall t :: t in times ==> TimeError(input.boundary, t).None? {
      forall o | o in input.market
        ensures o.observedAt <= input.boundary.asOf && input.boundary.Includes(o.availableAt, o.recordedAt)
      {
        var n :| 0 <= n < m && input.market[n] == o;
        assert times[n] == Times(o.observedAt, o.availableAt, o.recordedAt);
        assert times[n] in times;
      }
      forall o | o in input.invalidations
        ensures o.observedAt <= input.boundary.asOf && input.boundary.Includes(o.availableAt, o.recordedAt)
      {
        var n :| 0 <= n < |input.invalidations| && input.invalidations[n] == o;
        assert times[m + n] == Times(o.observedAt, o.availableAt, o.recordedAt);
        assert times[m + n] in times;
      }
    }
  }

  method CheckGuards(i: Instruction, policy: ExecutionPolicy, input: PlanInput) returns (error: Option<PlanError>)
    requires ValidInput(input)
    ensures error.None? <==> GuardsPass(i, policy, input)
    ensures IsGuardError(error, i, policy, input)
  {
    hide ObservationTimes;
    hide TimeError;
    hide SpecsOf;
    if policy.boundary != input.boundary {
      return Some(PolicyBoundaryDiffers);
    }
    if i.boundary.mode != input.boundary.mode {
      return Some(ModeDiffers);
    }
    if input.boundary.asOf < i.boundary.asOf {
      return Some(BoundaryPrecedesDecision);
    }
    if policy.maxOrder.Some? && exists s :: s in SpecsOf(i) && s.amount.currency != policy.maxOrder.value.currency {
      return Some(OrderLimitCurrency);
    }
    var late := CheckTimes(input.boundary, ObservationTimes(input));
    TimesAreInOrder(input);
    hide ValidInput;
    if late.Some? {
      return late;
    }
    if input.conflicts != [] {
      return Some(UnresolvedConflicts);
    }
    if exists o :: o in input.invalidations && o.condition !in i.conditions {
      return Some(AddedCondition);
    }
    error := None;
  }

  // ---------------------------------------------------------------- collecting reasons

  /** The wait reasons that come from the quotes, one observation after another. */
  method CollectQuoteReasons(policy: ExecutionPolicy, input: PlanInput) returns (codes: set<ReasonCode>)
    requires ValidInput(input)
    ensures forall code :: code in codes <==> exists o :: o in input.market && code in QuoteReasons(policy, input, o)
  {
    hide QuoteReasons;
    codes := {};
    var n := 0;
    while n < |input.market|
      invariant 0 <= n <= |input.market|
      invariant forall code :: code in codes <==>
        exists o :: o in input.market[..n] && code in QuoteReasons(policy, input, o)
    {
      assert input.market[..n + 1] == input.market[..n] + [input.market[n]];
      codes := codes + QuoteReasons(policy, input, input.market[n]);
      n := n + 1;
    }
    assert input.market[..n] == input.market;
  }

  /** The texts collected while the reasons are, one observation after another. */
  method CollectMissing(i: Instruction, input: PlanInput) returns (missing: set<string>)
    ensures missing == MissingData(i, input, Wait)
  {
    hide Unassessed;
    hide Unquoted;
    missing := Unassessed(i, input);
    for n := 0 to |input.invalidations|
      invariant missing == Unassessed(i, input) + MissingForStatus(input.invalidations[..n])
    {
      assert input.invalidations[..n + 1] == input.invalidations[..n] + [input.invalidations[n]];
      if input.invalidations[n].status == StatusUnknown {
        missing := missing + input.invalidations[n].missing;
      }
    }
    assert input.invalidations[..|input.invalidations|] == input.invalidations;
    missing := missing + Unquoted(i, input);
    ghost var before := missing;
    for n := 0 to |input.market|
      invariant missing == before + MissingForLiquidity(input.market[..n])
    {
      assert input.market[..n + 1] == input.market[..n] + [input.market[n]];
      if input.market[n].liquidity == LiquidityUnknown {
        missing := missing + input.market[n].missing;
      }
    }
    assert input.market[..|input.market|] == input.market;
  }

  ghost predicate AreWaitReasons(codes: set<ReasonCode>, i: Instruction, policy: ExecutionPolicy, input: PlanInput)
    requires ValidInput(input)
  {
    forall code :: code in codes <==> WaitsFor(code, i, policy, input)
  }

  method WaitReasons(i: Instruction, policy: ExecutionPolicy, input: PlanInput) returns (codes: set<ReasonCode>)
    requires ValidInput(input)
    ensures AreWaitReasons(codes, i, policy, input)
  {
    hide ValidInput;
    hide AreWaitReasons;
    hide QuoteReasons;
    var quotes := CollectQuoteReasons(policy, input);
    var missing := exists c :: c in i.conditions && forall o :: o in input.invalidations ==> o.condition != c;
    var unknown := exists o :: o in input.invalidations && o.status == StatusUnknown;
    var unquoted := exists s :: s in SpecsOf(i) && forall o :: o in input.market ==> o.instrumentId != s.instrumentId;
    codes := quotes;
    if missing {
      codes := codes + {InvalidationMissing};
    }
    if unknown {
      codes := codes + {InvalidationUnknown};
    }
    if unquoted {
      codes := codes + {QuoteMissing};
    }
    AllWaitReasons(codes, quotes, missing, unknown, unquoted, i, policy, input);
  }

  lemma AllWaitReasons(codes: set<ReasonCode>, quotes: set<ReasonCode>, missing: bool, unknown: bool, unquoted: bool,
                       i: Instruction, policy: ExecutionPolicy, input: PlanInput)
    requires ValidInput(input)
    requires forall code :: code in quotes <==> exists o :: o in input.market && code in QuoteReasons(policy, input, o)
    requires missing <==> WaitsFor(InvalidationMissing, i, policy, input)
    requires unknown <==> WaitsFor(InvalidationUnknown, i, policy, input)
    requires unquoted <==> WaitsFor(QuoteMissing, i, policy, input)
    requires codes == quotes + (if missing then {InvalidationMissing} else {})
                   + (if unknown then {InvalidationUnknown} else {}) + (if unquoted then {QuoteMissing} else {})
    ensures AreWaitReasons(codes, i, policy, input)
  {
    QuotesGiveOnlyTheirReasons(policy, input);
    hide ValidMarket;
    hide QuoteReasons;
  }

  lemma QuotesGiveOnlyTheirReasons(policy: ExecutionPolicy, input: PlanInput)
    requires ValidInput(input)
    ensures forall o :: o in input.market ==>
      QuoteReasons(policy, input, o) <= {QuoteStale, SpreadTooWide, UnknownLiquidity, ConstrainedLiquidity}
  {
    hide SpreadBps;
  }

  /** Alphabetical order of the wire names, which orders the reasons of a plan. */
  function NameRank(code: ReasonCode): nat
  {
    match code
    case ExplicitStagingLimit => 0
    case InvalidationMissing => 1
    case InvalidationTriggered => 2
    case InvalidationUnknown => 3
    case ConstrainedLiquidity => 4
    case UnknownLiquidity => 5
    case QuoteMissing => 6
    case QuoteStale => 7
    case ReadyNow => 8
    case SpreadTooWide => 9
  }

  predicate NameLeq(a: ReasonCode, b: ReasonCode)
  {
    NameRank(a) <= NameRank(b)
  }

  method SortedReasons(codes: set<ReasonCode>) returns (reasons: seq<ReasonCode>)
    ensures NoRepeats(reasons) && Ordered(reasons, NameLeq)
    ensures forall code :: code in reasons <==> code in codes
  {
    var items := Enumerate(codes);
    reasons := SortBy(items, NameLeq);
    SortOrdered(items, NameLeq);
    SortKeeps(items, NameLeq);
    SameItems(items, reasons);
    KeepsNoRepeats(items, reasons);
  }

  // ---------------------------------------------------------------- legs

  method BuildLeg(sequence: nat, s: LegSpec, maxOrder: Option<Money>) returns (leg: Leg)
    requires s.amount.amount > 0.0 && (maxOrder.Some? ==> maxOrder.value.amount > 0.0)
    ensures ValidLeg(leg) && leg == Leg(sequence, s.side, s.instrumentId, s.amount, leg.tranches)
    ensures maxOrder.None? ==> |leg.tranches| == 1
    ensures maxOrder.Some? ==> Splits(leg.tranches, s.amount, maxOrder.value.amount)
    ensures maxOrder.Some? ==> (|leg.tranches| > 1 <==> s.amount.amount > maxOrder.value.amount)
  {
    var tranches: seq<Tranche>;
    if maxOrder.None? {
      tranches := [Tranche(1, s.amount)];
      assert tranches[..0] == [];
    } else {
      tranches := SplitIntoTranches(s.amount, maxOrder.value.amount);
      SeveralIffAbove(tranches, s.amount, maxOrder.value.amount);
    }
    leg := Leg(sequence, s.side, s.instrumentId, s.amount, tranches);
  }

  lemma SeveralIffAbove(tranches: seq<Tranche>, amount: Money, limit: real)
    requires Splits(tranches, amount, limit) && IsCeiling(|tranches|, amount.amount, limit)
    requires amount.amount > 0.0 && limit > 0.0
    ensures tranches != []
    ensures |tranches| > 1 <==> amount.amount > limit
  {
    MultipleStep(0, limit);
    assert Multiple(1, limit) == limit;
    MultipleMonotone(1, |tranches|, limit);
    MultipleMonotone(1, |tranches| - 1, limit);
  }

  method BuildLegs(specs: seq<LegSpec>, maxOrder: Option<Money>) returns (legs: seq<Leg>)
    requires forall s :: s in specs ==> s.amount.amount > 0.0
    requires maxOrder.Some? ==> maxOrder.value.amount > 0.0
    ensures ImplementsSpecs(legs, specs)
    ensures maxOrder.None? ==> forall leg :: leg in legs ==> |leg.tranches| == 1
    ensures maxOrder.Some? ==> forall k :: 0 <= k < |legs| ==>
      Splits(legs[k].tranches, specs[k].amount, maxOrder.value.amount)
    ensures maxOrder.Some? ==> forall k :: 0 <= k < |legs| ==>
      (|legs[k].tranches| > 1 <==> specs[k].amount.amount > maxOrder.value.amount)
  {
    hide ValidLeg;
    hide Splits;
    legs := [];
    while |legs| < |specs|
      invariant |legs| <= |specs|
      invariant ImplementsSpecs(legs, specs[..|legs|])
      invariant maxOrder.None? ==> forall leg :: leg in legs ==> |leg.tranches| == 1
      invariant maxOrder.Some? ==> forall k :: 0 <= k < |legs| ==>
        Splits(legs[k].tranches, specs[k].amount, maxOrder.value.amount)
      invariant maxOrder.Some? ==> forall k :: 0 <= k < |legs| ==>
        (|legs[k].tranches| > 1 <==> specs[k].amount.amount > maxOrder.value.amount)
    {
      var leg := BuildLeg(|legs| + 1, specs[|legs|], maxOrder);
      legs := legs + [leg];
    }
    assert specs[..|legs|] == specs;
  }

  // ---------------------------------------------------------------- the ladder

  /** What the ladder below the guards delivers. */
  ghost predicate IsLadderPlan(p: Plan, i: Instruction, policy: ExecutionPolicy, input: PlanInput)
    requires ValidInput(input)
  {
    && ValidPlan(p) && p.instruction == i && p.boundary == input.boundary
    && p.action == LadderAction(i, policy, input)
    && Ordered(p.reasons, NameLeq)
    && p.missing == MissingData(i, input, p.action)
    && (p.action == Wait ==> forall code :: code in p.reasons <==> WaitsFor(code, i, policy, input))
    && (p.action == Invalidated ==> p.reasons == [InvalidationTriggered])
    && (p.action == Staged ==> p.reasons == [ExplicitStagingLimit])
    && (p.action == Now ==> p.reasons == [ReadyNow])
    && (p.action == Staged ==> (
          policy.maxOrder.Some? && |p.legs| == |SpecsOf(i)|
          && forall k :: 0 <= k < |p.legs| ==>
               Splits(p.legs[k].tranches, SpecsOf(i)[k].amount, policy.maxOrder.value.amount)))
  }

  method WaitPlan(i: Instruction, policy: ExecutionPolicy, input: PlanInput, codes: set<ReasonCode>) returns (p: Plan)
    requires ValidInput(input) && GuardsPass(i, policy, input) && !IsTriggered(input)
    requires codes != {} && AreWaitReasons(codes, i, policy, input)
    ensures IsLadderPlan(p, i, policy, input)
  {
    var reasons := SortedReasons(codes);
    hide ValidInput;
    hide IsTriggered;
    hide NoRepeats;
    QuotesGiveOnlyTheirReasons(policy, input);
    assert !WaitsFor(InvalidationTriggered, i, policy, input);
    hide WaitsFor;
    var code :| code in codes;
    assert code in reasons;
    var missing := CollectMissing(i, input);
    hide MissingData;
    p := Plan(i, input.boundary, policy.boundary, Wait, reasons, [], missing);
  }

  method StagedPlan(i: Instruction, policy: ExecutionPolicy, input: PlanInput) returns (p: Plan)
    requires ValidInput(input) && GuardsPass(i, policy, input) && ValidInstruction(i) && ValidPolicy(policy)
    requires !IsTriggered(input) && !MustWait(i, policy, input) && ExceedsLimit(i, policy)
    ensures IsLadderPlan(p, i, policy, input)
  {
    hide ValidInput;
    hide IsTriggered;
    hide MustWait;
    hide ImplementsSpecs;
    hide Splits;
    hide SpecsOf;
    SpecsArePositive(i);
    var legs := BuildLegs(SpecsOf(i), policy.maxOrder);
    LegsMatch(legs, SpecsOf(i));
    ghost var k :| 0 <= k < |SpecsOf(i)| && SpecsOf(i)[k].amount.amount > policy.maxOrder.value.amount;
    assert legs[k] in legs;
    p := Plan(i, input.boundary, policy.boundary, Staged, [ExplicitStagingLimit], legs, {});
  }

  method NowPlan(i: Instruction, policy: ExecutionPolicy, input: PlanInput) returns (p: Plan)
    requires ValidInput(input) && GuardsPass(i, policy, input) && ValidInstruction(i) && ValidPolicy(policy)
    requires !IsTriggered(input) && !MustWait(i, policy, input) && !ExceedsLimit(i, policy)
    ensures IsLadderPlan(p, i, policy, input)
  {
    hide ValidInput;
    hide IsTriggered;
    hide MustWait;
    hide ExceedsLimit;
    hide ImplementsSpecs;
    hide Splits;
    hide SpecsOf;
    SpecsArePositive(i);
    var legs := BuildLegs(SpecsOf(i), None);
    p := Plan(i, input.boundary, policy.boundary, Now, [ReadyNow], legs, {});
  }

  lemma SpecsArePositive(i: Instruction)
    requires ValidInstruction(i)
    ensures forall s :: s in SpecsOf(i) ==> s.amount.amount > 0.0
  {
  }

  method ExecutablePlan(i: Instruction, policy: ExecutionPolicy, input: PlanInput) returns (p: Plan)
    requires ValidInput(input) && GuardsPass(i, policy, input) && ValidInstruction(i) && ValidPolicy(policy)
    requires !IsTriggered(input) && !MustWait(i, policy, input)
    ensures IsLadderPlan(p, i, policy, input)
  {
    hide ValidInput;
    hide IsTriggered;
    hide MustWait;
    hide GuardsPass;
    hide IsLadderPlan;
    hide ValidInstruction;
    hide ValidPolicy;
    if policy.maxOrder.Some? && exists s :: s in SpecsOf(i) && s.amount.amount > policy.maxOrder.value.amount {
      p := StagedPlan(i, policy, input);
    } else {
      p := NowPlan(i, policy, input);
    }
  }

  lemma LegsMatch(legs: seq<Leg>, specs: seq<LegSpec>)
    requires ImplementsSpecs(legs, specs)
    ensures |legs| == |specs|
  {
  }

  /**
   Past the guards the ladder always yields a plan, every plan passes plan validation, and its action is
   the one the rungs prescribe.
   */
  method Execute(i: Instruction, policy: ExecutionPolicy, input: PlanInput) returns (r: Result)
    requires ValidInstruction(i) && ValidPolicy(policy) && ValidInput(input)
    ensures r.Ok? <==> GuardsPass(i, policy, input) && (IsTriggered(input) || QuotesBelong(i, input))
    ensures r.Err? && !GuardsPass(i, policy, input) ==> IsGuardError(Some(r.error), i, policy, input)
    ensures r.Err? && GuardsPass(i, policy, input) ==>
      r.error == (if exists o :: o in input.market && !IsTraded(i, o.instrumentId) then AddedInstrument
                  else ObservationCurrency)
    ensures r.Ok? ==> IsLadderPlan(r.plan, i, policy, input)
    ensures r.Ok? ==> (r.plan.action == Invalidated <==> IsTriggered(input))
    ensures r.Ok? ==> (r.plan.action == Wait <==> !IsTriggered(input) && MustWait(i, policy, input))
    ensures r.Ok? ==> (r.plan.action == Staged <==>
      !IsTriggered(input) && !MustWait(i, policy, input) && ExceedsLimit(i, policy))
  {
    hide ValidInput;
    hide IsGuardError;
    var error := CheckGuards(i, policy, input);
    if error.Some? {
      return Err(error.value);
    }
    if exists o :: o in input.invalidations && o.status == Triggered {
      return Ok(Plan(i, input.boundary, policy.boundary, Invalidated, [InvalidationTriggered], [], {}));
    }
    if exists o :: o in input.market && forall s :: s in SpecsOf(i) ==> s.instrumentId != o.instrumentId {
      return Err(AddedInstrument);
    }
    if exists o :: o in input.market
        && forall s :: s in SpecsOf(i) ==> s.instrumentId != o.instrumentId || s.amount.currency != o.currency {
      return Err(ObservationCurrency);
    }
    var codes := WaitReasons(i, policy, input);
    hide GuardsPass;
    hide IsLadderPlan;
    hide WaitsFor;
    var plan;
    if codes != {} {
      plan := WaitPlan(i, policy, input, codes);
    } else {
      plan := ExecutablePlan(i, policy, input);
    }
    RungsIff(plan, i, policy, input);
    r := Ok(plan);
  }

  // ---------------------------------------------------------------- laws of the ladder

  /** Each rung holds exactly under its own condition. */
  lemma RungsIff(p: Plan, i: Instruction, policy: ExecutionPolicy, input: PlanInput)
    requires ValidInput(input) && IsLadderPlan(p, i, policy, input)
    ensures p.action == Invalidated <==> IsTriggered(input)
    ensures p.action == Wait <==> !IsTriggered(input) && MustWait(i, policy, input)
    ensures p.action == Staged <==> !IsTriggered(input) && !MustWait(i, policy, input) && ExceedsLimit(i, policy)
  {
    hide ValidInput;
    hide ValidPlan;
    hide WaitsFor;
    hide ExceedsLimit;
  }

  ghost predicate Loosens(b: ExecutionPolicy, a: ExecutionPolicy)
  {
    a.maxQuoteAgeSeconds <= b.maxQuoteAgeSeconds && a.maxSpreadBps <= b.maxSpreadBps
  }

  lemma LooserPolicyWaitsForLess(code: ReasonCode, i: Instruction, a: ExecutionPolicy, b: ExecutionPolicy,
                                 input: PlanInput)
    requires ValidInput(input) && Loosens(b, a)
    ensures WaitsFor(code, i, b, input) ==> WaitsFor(code, i, a, input)
  {
    hide SpreadBps;
    hide SecondsOld;
    forall o | o in input.market
      ensures QuoteReasons(b, input, o) <= QuoteReasons(a, input, o)
    {
    }
    hide QuoteReasons;
    hide ValidMarket;
  }

  /**
   Looser quote-age and spread limits never turn an executable plan into WAIT, nor change what an
   executable plan does.
   */
  lemma LooserPolicyKeepsExecutable(i: Instruction, a: ExecutionPolicy, b: ExecutionPolicy, input: PlanInput)
    requires ValidInput(input) && Loosens(b, a) && a.maxOrder == b.maxOrder
    requires LadderAction(i, a, input) == Now || LadderAction(i, a, input) == Staged
    ensures LadderAction(i, b, input) == LadderAction(i, a, input)
  {
    hide ValidInput;
    hide WaitsFor;
    hide IsTriggered;
    forall code
      ensures WaitsFor(code, i, b, input) ==> WaitsFor(code, i, a, input)
    {
      LooserPolicyWaitsForLess(code, i, a, b, input);
    }
  }

  /** The approved amounts are never resized: each executable leg carries and sums to exactly its approved amount. */
  lemma ApprovedAmountsAreKept(p: Plan, k: nat)
    requires ValidPlan(p) && (p.action == Now || p.action == Staged)
    requires k < |SpecsOf(p.instruction)|
    ensures |p.legs| == |SpecsOf(p.instruction)|
    ensures p.legs[k].total == SpecsOf(p.instruction)[k].amount && p.legs[k].side == SpecsOf(p.instruction)[k].side
    ensures Sum(p.legs[k].tranches) == SpecsOf(p.instruction)[k].amount.amount
  {
    hide Sum;
    assert ImplementsSpecs(p.legs, SpecsOf(p.instruction));
    assert ValidLeg(p.legs[k]);
  }
}
