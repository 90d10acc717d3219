/**
 How far the owner's ratio limits reach. A gate sees only the weights that an alternative changes, so a
 weight that stays put above its maximum does not stop an allocation.
 */
module OwnerLimits {
  import opened Sums
  import opened Quantise
  import opened LookThrough
  import opened ExposureTables
  import opened Categories
  import opened ExposureBook
  import opened ExposureEngine
  import opened PortfolioFit
  import opened FitRefinement
  import opened Dominance
  import opened PolicyDecision

  /** The owner's limit as it reads: no weight of its dimension is above the maximum. */
  ghost predicate WithinLimit(b: Option<CurrencyBook>, c: RatioConstraint)
  {
    forall k: Component :: k.0 == DimensionOf(c.kind) ==> Lookup(b, k).weight <= c.maximum
  }

  /** The weights the alternative leaves alone were within the limit already. */
  ghost predicate RestWithinLimit(before: Option<CurrencyBook>, effect: FitEffect, c: RatioConstraint)
  {
    forall k: Component :: k.0 == DimensionOf(c.kind) && k !in effect.weightDeltas ==>
      Lookup(before, k).weight <= c.maximum
  }

  // ---------------------------------------------------------------- when an allocation meets the limit

  lemma PassedGateMeetsLimitIff(c: RatioConstraint, effect: FitEffect, before: Option<CurrencyBook>,
                                after: CurrencyBook)
    requires c.kind != MaxCompanyHhiUpper
    requires IsDiff(effect, before, after) && GatePasses(effect, c)
    ensures WithinLimit(Some(after), c) <==> RestWithinLimit(before, effect, c)
  {
    hide Lookup;
    forall k: Component | k.0 == DimensionOf(c.kind)
      ensures k in effect.weightDeltas ==> Lookup(Some(after), k).weight <= c.maximum
      ensures k !in effect.weightDeltas ==> Lookup(Some(after), k).weight == Lookup(before, k).weight
    {
    }
  }

  /** An allocation leaves the book within a limit exactly when every weight it does not change was within it. */
  lemma AllocationMeetsLimitIff(d: Decision, eligible: set<string>, policy: OwnerPolicy, unit: Money,
                                positionId: string, fits: map<string, FitEffect>, comparisons: seq<Comparison>,
                                c: RatioConstraint, before: Option<CurrencyBook>, after: CurrencyBook)
    requires NON_CASH <= fits.Keys && AreEligible(eligible, policy, unit, positionId, fits)
    requires IsWarranted(d, eligible, comparisons) && d.outcome == Allocate
    requires c in policy.ratioConstraints && c.kind != MaxCompanyHhiUpper
    requires d.selected in fits && IsDiff(fits[d.selected], before, after)
    ensures WithinLimit(Some(after), c) <==> RestWithinLimit(before, fits[d.selected], c)
  {
    hide Beats;
    hide IsDiff;
    hide GatePasses;
    assert IsDominant(d.selected, eligible, comparisons);
    PassedGateMeetsLimitIff(c, fits[d.selected], before, after);
  }

  /** In particular a book within its limit stays within it. */
  lemma AllocationKeepsLimit(d: Decision, eligible: set<string>, policy: OwnerPolicy, unit: Money, positionId: string,
                             fits: map<string, FitEffect>, comparisons: seq<Comparison>, c: RatioConstraint,
                             before: Option<CurrencyBook>, after: CurrencyBook)
    requires NON_CASH <= fits.Keys && AreEligible(eligible, policy, unit, positionId, fits)
    requires IsWarranted(d, eligible, comparisons) && d.outcome == Allocate
    requires c in policy.ratioConstraints && c.kind != MaxCompanyHhiUpper
    requires d.selected in fits && IsDiff(fits[d.selected], before, after)
    requires WithinLimit(before, c)
    ensures WithinLimit(Some(after), c)
  {
    hide IsDiff;
    hide AreEligible;
    hide IsWarranted;
    AllocationMeetsLimitIff(d, eligible, policy, unit, positionId, fits, comparisons, c, before, after);
  }

  // ---------------------------------------------------------------- a limit that is broken and stays broken

  const EUR := "EUR"

  /** Two shares worth 60 and 40. */
  const SHARES := [Holding(ListedEquity("share:a", "A"), EUR, 60.0), Holding(ListedEquity("share:b", "B"), EUR, 40.0)]

  /** One unit of 100 into a fund that holds company A at the very weight it already has. */
  const FUND_UNIT := Holding(EquityEtf("fund"), EUR, 100.0)

  const FUNDS := map["fund" := EtfSnapshot([Constituent("A", 0.6), Constituent("C", 0.4)], 0.0, None)]

  const PROFILES := map["A" := ALL_MISSING, "B" := ALL_MISSING, "C" := ALL_MISSING]

  const AT_MOST_30_PERCENT := RatioConstraint(MaxCompanyWeight, 0.3)

  const COMPANY_LIMIT := OwnerPolicy(None, [AT_MOST_30_PERCENT], map[])

  const TOTALS_BEFORE := map["A" := 60.0, "B" := 40.0]

  const TOTALS_AFTER := map["A" := 120.0, "B" := 40.0, "C" := 40.0]

  lemma FundIsValid()
    ensures ValidSnapshot(FUNDS["fund"])
  {
    var k := FUNDS["fund"].constituents;
    assert k[..|k| - 1] == [k[0]];
    assert WeightSum([k[0]]) == 0.6;
  }

  lemma HoldingsAreCovered()
    ensures Covered([], FUNDS) && Covered([SHARES[0]], FUNDS)
    ensures Covered(SHARES, FUNDS) && Covered(SHARES + [FUND_UNIT], FUNDS)
  {
    FundIsValid();
    hide ValidSnapshot;
  }

  lemma FirstShareTotals()
    ensures Covered([SHARES[0]], FUNDS)
    ensures Totals(CompanyTable([SHARES[0]], FUNDS, EUR)) == map["A" := 60.0]
  {
    HoldingsAreCovered();
    hide Covered;
    assert [SHARES[0]] == [] + [SHARES[0]];
    TotalsSnoc([], SHARES[0], FUNDS, EUR);
    assert CompanyIds([], FUNDS, EUR) == {};
    assert Totals(CompanyTable([], FUNDS, EUR)) == map[];
    hide CompanyTable;
  }

  lemma SharesTotals()
    ensures Covered(SHARES, FUNDS)
    ensures Totals(CompanyTable(SHARES, FUNDS, EUR)) == TOTALS_BEFORE
  {
    HoldingsAreCovered();
    hide Covered;
    FirstShareTotals();
    hide CompanyTable;
    assert SHARES == [SHARES[0]] + [SHARES[1]];
    TotalsSnoc([SHARES[0]], SHARES[1], FUNDS, EUR);
  }

  lemma FundLookThrough()
    ensures TotalsAfter(TOTALS_BEFORE, FUND_UNIT, FUNDS) == TOTALS_AFTER
  {
    var k := FUNDS["fund"].constituents;
    assert k[..|k| - 1] == [k[0]] && [k[0]][..0] == [];
    assert BumpAll(TOTALS_BEFORE, [k[0]], 100.0) == Bump(TOTALS_BEFORE, "A", 60.0);
  }

  lemma TotalsWithFund()
    ensures Covered(SHARES + [FUND_UNIT], FUNDS)
    ensures Totals(CompanyTable(SHARES + [FUND_UNIT], FUNDS, EUR)) == TOTALS_AFTER
  {
    HoldingsAreCovered();
    hide Covered;
    hide CompanyTable;
    hide TotalsAfter;
    SharesTotals();
    TotalsSnoc(SHARES, FUND_UNIT, FUNDS, EUR);
    FundLookThrough();
  }

  lemma GrossValues()
    ensures PositionValue(SHARES, EUR) == 100.0
    ensures PositionValue(SHARES + [FUND_UNIT], EUR) == 200.0
  {
    assert SHARES[..1] == [SHARES[0]] && [SHARES[0]][..0] == [];
    assert PositionValue([SHARES[0]], EUR) == 60.0;
    assert (SHARES + [FUND_UNIT])[..2] == SHARES;
  }

  /** A share that needs no rounding. */
  lemma ExactWeight(value: real, gross: real, w: real, quanta: int)
    requires gross > 0.0 && value == w * gross && w * SCALE == quanta as real
    ensures Weight(value, gross) == w
  {
    assert Ratio(value, gross) == w;
    hide Ratio;
    HalfEvenIsNearestEven(w * SCALE, quanta);
  }

  /** The book of given company totals, with the largest company on its one-item top list. */
  lemma BookExists(hs: seq<Holding>, gross: real, totals: map<string, real>) returns (book: CurrencyBook)
    requires Covered(hs, FUNDS) && PositionValue(hs, EUR) == gross > 0.0
    requires Totals(CompanyTable(hs, FUNDS, EUR)) == totals && "A" in totals && totals.Keys <= PROFILES.Keys
    requires forall id :: id in totals ==> totals[id] <= totals["A"]
    ensures IsBookOf(book, EUR, TablesOf(hs, FUNDS, EUR), PROFILES, 1) && book.gross == gross
  {
    Conservation(hs, FUNDS, EUR);
    TopIsLargest(totals);
    hide IsTopList;
    hide Covered;
    var t := TablesOf(hs, FUNDS, EUR);
    assert t.companies.Keys == totals.Keys;
    hide TablesOf;
    book := BookOf(EUR, t, PROFILES, ["A"], 1);
  }

  lemma TopIsLargest(totals: map<string, real>)
    requires "A" in totals && totals.Keys <= PROFILES.Keys
    requires forall id :: id in totals ==> totals[id] <= totals["A"]
    ensures IsTopList(["A"], totals, 1)
  {
    assert |totals| >= 1;
    forall b | b in totals && b != "A"
      ensures RanksBefore(totals, "A", b)
    {
      assert b == "B" || b == "C";
    }
  }

  lemma CompanyWeight(book: CurrencyBook, hs: seq<Holding>, id: string)
    requires Covered(hs, FUNDS) && IsBookOf(book, EUR, TablesOf(hs, FUNDS, EUR), PROFILES, 1)
    ensures book.gross > 0.0
    ensures Lookup(Some(book), (CompanyDim, id)).weight
         == Weight(Get(Totals(CompanyTable(hs, FUNDS, EUR)), id), book.gross)
  {
    hide IsBookOf;
    hide Covered;
    hide Weight;
    hide RowAt;
    BookShowsTables(book, EUR, TablesOf(hs, FUNDS, EUR), PROFILES, 1, (CompanyDim, id));
  }

  ghost function WeightsOf(b: CurrencyBook): map<Component, real>
  {
    map d, id | d in DIMENSIONS && id in RowsOf(b, d) :: (d, id) := RowsOf(b, d)[id].weight
  }

  lemma WeightsOfAt(b: CurrencyBook, k: Component)
    ensures Get(WeightsOf(b), k) == Lookup(Some(b), k).weight
  {
    EveryDimension(k.0);
    hide RowsOf;
  }

  /** Any two books have a difference. */
  lemma DiffExists(before: CurrencyBook, after: CurrencyBook) returns (effect: FitEffect)
    ensures IsDiff(effect, Some(before), after)
  {
    hide Lookup;
    hide WeightsOf;
    hide Deltas;
    var deltas := Deltas(WeightsOf(before), WeightsOf(after));
    effect := FitEffect(before.gross, after.gross, before.hhi, after.hhi, deltas);
    forall k
      ensures k in deltas <==> Lookup(Some(before), k).weight != Lookup(Some(after), k).weight
      ensures k in deltas ==> deltas[k] == WeightDelta(Lookup(Some(before), k).weight, Lookup(Some(after), k).weight)
    {
      WeightsOfAt(before, k);
      WeightsOfAt(after, k);
      DeltasAt(WeightsOf(before), WeightsOf(after), k);
    }
  }

  lemma WeightsBefore(book: CurrencyBook, id: string)
    requires Covered(SHARES, FUNDS) && IsBookOf(book, EUR, TablesOf(SHARES, FUNDS, EUR), PROFILES, 1)
    requires book.gross == 100.0
    ensures Lookup(Some(book), (CompanyDim, id)).weight == if id == "A" then 0.6 else if id == "B" then 0.4 else 0.0
  {
    hide Covered;
    hide IsBookOf;
    hide Weight;
    hide Lookup;
    hide TablesOf;
    hide CompanyTable;
    hide Totals;
    CompanyWeight(book, SHARES, id);
    SharesTotals();
    ExactWeight(60.0, 100.0, 0.6, 600000000000);
    ExactWeight(40.0, 100.0, 0.4, 400000000000);
    ZeroWeight(100.0);
  }

  lemma WeightsAfter(book: CurrencyBook, id: string)
    requires Covered(SHARES + [FUND_UNIT], FUNDS)
    requires IsBookOf(book, EUR, TablesOf(SHARES + [FUND_UNIT], FUNDS, EUR), PROFILES, 1) && book.gross == 200.0
    ensures Lookup(Some(book), (CompanyDim, id)).weight
         == if id == "A" then 0.6 else if id == "B" || id == "C" then 0.2 else 0.0
  {
    hide Covered;
    hide IsBookOf;
    hide Weight;
    hide Lookup;
    hide TablesOf;
    hide CompanyTable;
    hide Totals;
    CompanyWeight(book, SHARES + [FUND_UNIT], id);
    TotalsWithFund();
    ExactWeight(120.0, 200.0, 0.6, 600000000000);
    ExactWeight(40.0, 200.0, 0.2, 200000000000);
    ZeroWeight(200.0);
  }

  /** The company weights of the book before the purchase. */
  ghost predicate SixtyForty(b: CurrencyBook)
  {
    forall id :: CompanyShare(b, id) == if id == "A" then 0.6 else if id == "B" then 0.4 else 0.0
  }

  /** The company weights of the book after it. */
  ghost predicate SixtyTwentyTwenty(b: CurrencyBook)
  {
    forall id :: CompanyShare(b, id) == if id == "A" then 0.6 else if id == "B" || id == "C" then 0.2 else 0.0
  }

  function CompanyShare(b: CurrencyBook, id: string): real
  {
    Lookup(Some(b), (CompanyDim, id)).weight
  }

  lemma BookBefore() returns (book: CurrencyBook)
    ensures Covered(SHARES, FUNDS) && IsBookOf(book, EUR, TablesOf(SHARES, FUNDS, EUR), PROFILES, 1)
    ensures SixtyForty(book)
  {
    hide Covered;
    hide IsBookOf;
    hide TablesOf;
    hide Lookup;
    HoldingsAreCovered();
    GrossValues();
    SharesTotals();
    book := BookExists(SHARES, 100.0, TOTALS_BEFORE);
    forall id
      ensures CompanyShare(book, id) == if id == "A" then 0.6 else if id == "B" then 0.4 else 0.0
    {
      WeightsBefore(book, id);
    }
  }

  lemma BookAfter() returns (book: CurrencyBook)
    ensures Covered(SHARES + [FUND_UNIT], FUNDS)
    ensures IsBookOf(book, EUR, TablesOf(SHARES + [FUND_UNIT], FUNDS, EUR), PROFILES, 1)
    ensures SixtyTwentyTwenty(book)
  {
    hide Covered;
    hide IsBookOf;
    hide TablesOf;
    hide Lookup;
    HoldingsAreCovered();
    GrossValues();
    TotalsWithFund();
    book := BookExists(SHARES + [FUND_UNIT], 200.0, TOTALS_AFTER);
    forall id
      ensures CompanyShare(book, id) == if id == "A" then 0.6 else if id == "B" || id == "C" then 0.2 else 0.0
    {
      WeightsAfter(book, id);
    }
  }

  /** The gate at the two books: B and C changed and end at a fifth, A is not among the changes. */
  lemma FundPassesGate(before: CurrencyBook, after: CurrencyBook, effect: FitEffect)
    requires SixtyForty(before) && SixtyTwentyTwenty(after)
    requires IsDiff(effect, Some(before), after)
    ensures GatePasses(effect, AT_MOST_30_PERCENT)
  {
    hide Lookup;
    assert CompanyShare(before, "B") != CompanyShare(after, "B");
    assert (CompanyDim, "B") in effect.weightDeltas;
    forall k | k in effect.weightDeltas && k.0 == CompanyDim
      ensures effect.weightDeltas[k].after <= 0.3
    {
      assert k == (CompanyDim, k.1);
      assert CompanyShare(before, k.1) != CompanyShare(after, k.1);
    }
  }

  lemma OneLimitAdmits(effect: FitEffect)
    requires GatePasses(effect, AT_MOST_30_PERCENT)
    ensures Admits(COMPANY_LIMIT, CORE_ETF, Money(FUND_UNIT.amount, EUR), "", effect)
  {
    hide GatePasses;
  }

  /**
   The owner wants no company above 30 percent. Company A has 60 percent before and after the fund is
   bought, so it is not among the changed weights, and the policy admits the purchase.
   */
  lemma BrokenLimitIsAdmitted() returns (before: CurrencyBook, after: CurrencyBook, effect: FitEffect)
    ensures Covered(SHARES, FUNDS) && IsBookOf(before, EUR, TablesOf(SHARES, FUNDS, EUR), PROFILES, 1)
    ensures Covered(SHARES + [FUND_UNIT], FUNDS)
    ensures IsBookOf(after, EUR, TablesOf(SHARES + [FUND_UNIT], FUNDS, EUR), PROFILES, 1)
    ensures IsDiff(effect, Some(before), after)
    ensures Admits(COMPANY_LIMIT, CORE_ETF, Money(FUND_UNIT.amount, EUR), "", effect)
    ensures Lookup(Some(after), (CompanyDim, "A")).weight == 0.6 > AT_MOST_30_PERCENT.maximum
  {
    hide Covered;
    hide TablesOf;
    hide IsBookOf;
    hide Lookup;
    hide IsDiff;
    hide Admits;
    hide GatePasses;
    before := BookBefore();
    after := BookAfter();
    effect := DiffExists(before, after);
    FundPassesGate(before, after, effect);
    OneLimitAdmits(effect);
    assert CompanyShare(after, "A") == 0.6;
  }

  /** The fund wins against every other alternative. */
  const FUND_WINS := [
    Comparison(CORE_ETF, CANDIDATE, First), Comparison(CORE_ETF, EXISTING, First), Comparison(CORE_ETF, CASH, First)]

  lemma FundDominates(eligible: set<string>)
    requires CORE_ETF in eligible && eligible <= ALTERNATIVES
    ensures PairsOnce(FUND_WINS) && IsDominant(CORE_ETF, eligible, FUND_WINS)
  {
    assert FUND_WINS[0] in FUND_WINS && FUND_WINS[1] in FUND_WINS && FUND_WINS[2] in FUND_WINS;
    assert CASH in PairOf(FUND_WINS[2]) && EXISTING in PairOf(FUND_WINS[1]) && CANDIDATE in PairOf(FUND_WINS[0]);
    assert Decides(FUND_WINS[0], CORE_ETF, CANDIDATE) && Decides(FUND_WINS[1], CORE_ETF, EXISTING);
    assert Decides(FUND_WINS[2], CORE_ETF, CASH);
  }

  /**
   The same purchase through the whole policy: whatever the other two alternatives would do, the fund is the
   one decision their competition warrants.
   */
  lemma BrokenLimitIsAllocated(candidate: FitEffect, existing: FitEffect, positionId: string)
    returns (before: CurrencyBook, after: CurrencyBook, effect: FitEffect)
    ensures Covered(SHARES, FUNDS) && IsBookOf(before, EUR, TablesOf(SHARES, FUNDS, EUR), PROFILES, 1)
    ensures Covered(SHARES + [FUND_UNIT], FUNDS)
    ensures IsBookOf(after, EUR, TablesOf(SHARES + [FUND_UNIT], FUNDS, EUR), PROFILES, 1)
    ensures IsDiff(effect, Some(before), after)
    ensures AlwaysAllocated(map[CANDIDATE := candidate, EXISTING := existing, CORE_ETF := effect], positionId)
    ensures Lookup(Some(after), (CompanyDim, "A")).weight == 0.6 > AT_MOST_30_PERCENT.maximum
  {
    hide Covered;
    hide TablesOf;
    hide IsBookOf;
    hide Lookup;
    hide IsDiff;
    hide Admits;
    before, after, effect := BrokenLimitIsAdmitted();
    var fits := map[CANDIDATE := candidate, EXISTING := existing, CORE_ETF := effect];
    AdmittedFundIsAllocated(fits, positionId);
  }

  /** The policy run leaves the fund eligible and allocates it, and warrants no other decision. */
  ghost predicate AlwaysAllocated(fits: map<string, FitEffect>, positionId: string)
    requires NON_CASH <= fits.Keys
  {
    forall eligible, d ::
      AreEligible(eligible, COMPANY_LIMIT, Money(FUND_UNIT.amount, EUR), positionId, fits) ==>
        (IsWarranted(d, eligible, FUND_WINS) <==> d == Decision(Allocate, CORE_ETF, Some(CORE_ETF)))
  }

  lemma AdmittedFundIsAllocated(fits: map<string, FitEffect>, positionId: string)
    requires NON_CASH <= fits.Keys
    requires Admits(COMPANY_LIMIT, CORE_ETF, Money(FUND_UNIT.amount, EUR), "", fits[CORE_ETF])
    ensures AlwaysAllocated(fits, positionId)
  {
    PositionIsForHoldings(fits[CORE_ETF], positionId);
    hide Admits;
    hide IsWarranted;
    forall eligible | AreEligible(eligible, COMPANY_LIMIT, Money(FUND_UNIT.amount, EUR), positionId, fits)
      ensures IsWarranted(Decision(Allocate, CORE_ETF, Some(CORE_ETF)), eligible, FUND_WINS)
      ensures PairsOnce(FUND_WINS)
    {
      assert CORE_ETF in NON_CASH;
      FundIsWarranted(eligible);
    }
    hide PairsOnce;
    hide AreEligible;
    forall eligible, d | AreEligible(eligible, COMPANY_LIMIT, Money(FUND_UNIT.amount, EUR), positionId, fits)
      ensures IsWarranted(d, eligible, FUND_WINS) <==> d == Decision(Allocate, CORE_ETF, Some(CORE_ETF))
    {
      if IsWarranted(d, eligible, FUND_WINS) {
        WarrantedIsUnique(d, Decision(Allocate, CORE_ETF, Some(CORE_ETF)), eligible, FUND_WINS);
      }
    }
  }

  lemma FundIsWarranted(eligible: set<string>)
    requires CORE_ETF in eligible && eligible <= ALTERNATIVES
    ensures PairsOnce(FUND_WINS)
    ensures IsWarranted(Decision(Allocate, CORE_ETF, Some(CORE_ETF)), eligible, FUND_WINS)
  {
    FundDominates(eligible);
    hide IsDominant;
    hide PairsOnce;
  }

  lemma PositionIsForHoldings(effect: FitEffect, positionId: string)
    ensures Admits(COMPANY_LIMIT, CORE_ETF, Money(FUND_UNIT.amount, EUR), positionId, effect) <==>
            Admits(COMPANY_LIMIT, CORE_ETF, Money(FUND_UNIT.amount, EUR), "", effect)
  {
    hide GatePasses;
  }
}
