/**
 The reference tables of one currency, how one more holding changes them, and value conservation:
 whatever the mix of equities, ETFs and opaque instruments, companies plus the unresolved rest
 carry exactly the value of the positions.
 */
module ExposureTables {
  import opened Sums
  import opened LookThrough

  datatype Tables = Tables(
    instruments: map<string, real>,
    companies: map<string, CompanyAccumulator>,
    unresolved: real,
    reasons: set<string>)

  ghost function InstrumentTable(hs: seq<Holding>, currency: string): map<string, real>
  {
    map id | id in InstrumentIds(hs, currency) :: InstrumentValue(hs, currency, id)
  }

  ghost function CompanyTable(hs: seq<Holding>, snapshots: map<string, EtfSnapshot>,
                              currency: string): map<string, CompanyAccumulator>
    requires Covered(hs, snapshots)
  {
    map id | id in CompanyIds(hs, snapshots, currency) :: CompanyOf(hs, snapshots, currency, id)
  }

  ghost function TablesOf(hs: seq<Holding>, snapshots: map<string, EtfSnapshot>, currency: string): Tables
    requires Covered(hs, snapshots)
  {
    Tables(InstrumentTable(hs, currency), CompanyTable(hs, snapshots, currency),
           Unresolved(hs, snapshots, currency), Reasons(hs, snapshots, currency))
  }

  function Totals(companies: map<string, CompanyAccumulator>): map<string, real>
  {
    map id | id in companies :: companies[id].Sum()
  }

  /** `PortfolioState.position_values_by_currency`, at one currency. */
  ghost function PositionValue(hs: seq<Holding>, currency: string): real
  {
    if hs == [] then 0.0
    else
      var h := hs[|hs| - 1];
      PositionValue(hs[..|hs| - 1], currency) + if h.currency == currency then h.amount else 0.0
  }

  // ---------------------------------------------------------------- one more holding

  lemma CoveredPrefix(hs: seq<Holding>, h: Holding, snapshots: map<string, EtfSnapshot>)
    requires Covered(hs + [h], snapshots)
    ensures Covered(hs, snapshots) && h.amount >= 0.0
    ensures h.instrument.EquityEtf? ==> h.instrument.id in snapshots && ValidSnapshot(snapshots[h.instrument.id])
  {
    assert h in hs + [h];
    forall g | g in hs
      ensures g in hs + [h]
    {
    }
  }

  lemma InstrumentsSnoc(hs: seq<Holding>, h: Holding, currency: string)
    ensures InstrumentTable(hs + [h], currency)
         == if h.currency == currency then Bump(InstrumentTable(hs, currency), h.instrument.id, h.amount)
            else InstrumentTable(hs, currency)
  {
    var all := hs + [h];
    assert all[..|all| - 1] == hs;
    assert forall g :: g in all <==> g in hs || g == h;
    assert InstrumentIds(all, currency)
        == InstrumentIds(hs, currency) + if h.currency == currency then {h.instrument.id} else {};
    if h.instrument.id !in InstrumentIds(hs, currency) {
      AbsentInstrument(hs, currency, h.instrument.id);
    }
  }

  lemma {:induction false} AbsentInstrument(hs: seq<Holding>, currency: string, id: string)
    requires id !in InstrumentIds(hs, currency)
    ensures InstrumentValue(hs, currency, id) == 0.0
  {
    if hs != [] {
      var init, last := hs[..|hs| - 1], hs[|hs| - 1];
      assert last in hs;
      assert forall g :: g in init ==> g in hs;
      AbsentInstrument(init, currency, id);
    }
  }

  lemma CompanyIdsSnoc(hs: seq<Holding>, h: Holding, snapshots: map<string, EtfSnapshot>, currency: string)
    requires Covered(hs + [h], snapshots) && Covered(hs, snapshots)
    ensures CompanyIds(hs + [h], snapshots, currency)
         == CompanyIds(hs, snapshots, currency) + if h.currency == currency then Touched(h, snapshots) else {}
  {
    CoveredPrefix(hs, h, snapshots);
    var all := hs + [h];
    assert forall g :: g in all <==> g in hs || g == h;
    var left := CompanyIds(all, snapshots, currency);
    forall id | id in Touched(h, snapshots) && h.currency == currency
      ensures id in left
    {
      assert h in all;
    }
  }

  lemma {:induction false} AbsentCompany(hs: seq<Holding>, snapshots: map<string, EtfSnapshot>, currency: string,
                                         id: string)
    requires Covered(hs, snapshots)
    requires id !in CompanyIds(hs, snapshots, currency)
    ensures CompanyOf(hs, snapshots, currency, id) == EMPTY_COMPANY
  {
    if hs != [] {
      var init, last := hs[..|hs| - 1], hs[|hs| - 1];
      assert hs == init + [last];
      CompanyIdsSnoc(init, last, snapshots, currency);
      AbsentCompany(init, snapshots, currency, id);
    }
  }

  lemma ReasonsSnoc(hs: seq<Holding>, h: Holding, snapshots: map<string, EtfSnapshot>, currency: string)
    requires Covered(hs + [h], snapshots) && Covered(hs, snapshots)
    ensures Reasons(hs + [h], snapshots, currency)
         == Reasons(hs, snapshots, currency) + if h.currency == currency then Reason(h, snapshots) else {}
  {
    CoveredPrefix(hs, h, snapshots);
    var all := hs + [h];
    assert forall g :: g in all <==> g in hs || g == h;
    var left := Reasons(all, snapshots, currency);
    forall r | r in Reason(h, snapshots) && h.currency == currency
      ensures r in left
    {
      assert h in all;
    }
  }

  /** The look-through of one amount over a list of constituents, added to company totals. */
  ghost function BumpAll(totals: map<string, real>, constituents: seq<Constituent>, amount: real): map<string, real>
  {
    if constituents == [] then totals
    else
      var k := constituents[|constituents| - 1];
      Bump(BumpAll(totals, constituents[..|constituents| - 1], amount), k.companyId, Portion(amount, k.weight))
  }

  lemma {:induction false} BumpAllAt(totals: map<string, real>, constituents: seq<Constituent>, amount: real,
                                     id: string)
    ensures BumpAll(totals, constituents, amount).Keys == totals.Keys + Members(constituents)
    ensures Get(BumpAll(totals, constituents, amount), id) == Get(totals, id) + Passed(amount, constituents, id)
  {
    hide Portion;
    if constituents == [] {
      assert Members(constituents) == {};
    } else {
      var init, last := constituents[..|constituents| - 1], constituents[|constituents| - 1];
      BumpAllAt(totals, init, amount, id);
      assert constituents == init + [last];
      assert Members(constituents) == Members(init) + {last.companyId} by {
        assert forall k :: k in constituents <==> k in init || k == last;
      }
    }
  }

  lemma {:induction false} BumpAllTotal(totals: map<string, real>, constituents: seq<Constituent>, amount: real)
    ensures Total(BumpAll(totals, constituents, amount)) == Total(totals) + Portion(amount, WeightSum(constituents))
  {
    hide Portion;
    if constituents == [] {
      PortionOfSum(amount, 0.0, 0.0);
    } else {
      var init, last := constituents[..|constituents| - 1], constituents[|constituents| - 1];
      BumpAllTotal(totals, init, amount);
      TotalBump(BumpAll(totals, init, amount), last.companyId, Portion(amount, last.weight));
      PortionOfSum(amount, WeightSum(init), last.weight);
    }
  }

  /** What one holding adds to the company totals of its currency. */
  ghost function TotalsAfter(totals: map<string, real>, h: Holding,
                             snapshots: map<string, EtfSnapshot>): map<string, real>
    requires h.instrument.EquityEtf? ==> h.instrument.id in snapshots
  {
    match h.instrument
    case ListedEquity(_, companyId) => Bump(totals, companyId, h.amount)
    case EquityEtf(id) => BumpAll(totals, snapshots[id].constituents, h.amount)
    case Opaque(_) => totals
  }

  lemma {:induction false} NothingPassed(amount: real, constituents: seq<Constituent>, id: string)
    requires id !in Members(constituents)
    ensures Passed(amount, constituents, id) == 0.0
  {
    if constituents != [] {
      var init, last := constituents[..|constituents| - 1], constituents[|constituents| - 1];
      assert last in constituents;
      assert forall k :: k in init ==> k in constituents;
      NothingPassed(amount, init, id);
    }
  }

  /** The part of a holding's value that reaches one company. */
  ghost function Reach(h: Holding, snapshots: map<string, EtfSnapshot>, id: string): real
    requires h.instrument.EquityEtf? ==> h.instrument.id in snapshots
  {
    match h.instrument
    case ListedEquity(_, companyId) => if companyId == id then h.amount else 0.0
    case EquityEtf(etf) => Passed(h.amount, snapshots[etf].constituents, id)
    case Opaque(_) => 0.0
  }

  lemma ContributionSum(acc: CompanyAccumulator, h: Holding, snapshots: map<string, EtfSnapshot>, id: string)
    requires h.instrument.EquityEtf? ==> h.instrument.id in snapshots
    ensures Contribution(acc, h, snapshots, id).Sum() == acc.Sum() + Reach(h, snapshots, id)
  {
    if h.instrument.EquityEtf? && id !in Touched(h, snapshots) {
      NothingPassed(h.amount, snapshots[h.instrument.id].constituents, id);
    }
  }

  lemma TotalsAfterAt(totals: map<string, real>, h: Holding, snapshots: map<string, EtfSnapshot>, id: string)
    requires h.instrument.EquityEtf? ==> h.instrument.id in snapshots
    ensures TotalsAfter(totals, h, snapshots).Keys == totals.Keys + Touched(h, snapshots)
    ensures Get(TotalsAfter(totals, h, snapshots), id) == Get(totals, id) + Reach(h, snapshots, id)
  {
    if h.instrument.EquityEtf? {
      BumpAllAt(totals, snapshots[h.instrument.id].constituents, h.amount, id);
    }
  }

  /** A company total, zero when the company is absent. */
  lemma TotalAt(hs: seq<Holding>, snapshots: map<string, EtfSnapshot>, currency: string, id: string)
    requires Covered(hs, snapshots)
    ensures Totals(CompanyTable(hs, snapshots, currency)).Keys == CompanyIds(hs, snapshots, currency)
    ensures Get(Totals(CompanyTable(hs, snapshots, currency)), id) == CompanyOf(hs, snapshots, currency, id).Sum()
  {
    if id !in CompanyIds(hs, snapshots, currency) {
      AbsentCompany(hs, snapshots, currency, id);
    }
  }

  lemma TotalsSnocAt(hs: seq<Holding>, h: Holding, snapshots: map<string, EtfSnapshot>, currency: string, id: string)
    requires Covered(hs + [h], snapshots) && Covered(hs, snapshots)
    ensures h.instrument.EquityEtf? ==> h.instrument.id in snapshots
    ensures Get(Totals(CompanyTable(hs + [h], snapshots, currency)), id)
         == Get(Totals(CompanyTable(hs, snapshots, currency)), id)
            + if h.currency == currency then Reach(h, snapshots, id) else 0.0
  {
    CoveredPrefix(hs, h, snapshots);
    hide Covered;
    hide ValidSnapshot;
    hide Totals;
    hide CompanyTable;
    hide Reach;
    hide Contribution;
    assert (hs + [h])[..|hs + [h]| - 1] == hs;
    TotalAt(hs + [h], snapshots, currency, id);
    TotalAt(hs, snapshots, currency, id);
    ContributionSum(CompanyOf(hs, snapshots, currency, id), h, snapshots, id);
  }

  /** Maps with the same keys and the same lookups are the same map. */
  lemma SameLookups(a: map<string, real>, b: map<string, real>)
    requires a.Keys == b.Keys
    requires forall id :: Get(a, id) == Get(b, id)
    ensures a == b
  {
    forall id | id in a
      ensures a[id] == b[id]
    {
      assert Get(a, id) == Get(b, id);
    }
  }

  lemma TotalsSnoc(hs: seq<Holding>, h: Holding, snapshots: map<string, EtfSnapshot>, currency: string)
    requires Covered(hs + [h], snapshots) && Covered(hs, snapshots)
    ensures h.instrument.EquityEtf? ==> h.instrument.id in snapshots
    ensures Totals(CompanyTable(hs + [h], snapshots, currency))
         == if h.currency == currency
            then TotalsAfter(Totals(CompanyTable(hs, snapshots, currency)), h, snapshots)
            else Totals(CompanyTable(hs, snapshots, currency))
  {
    CoveredPrefix(hs, h, snapshots);
    var before := Totals(CompanyTable(hs, snapshots, currency));
    var left := Totals(CompanyTable(hs + [h], snapshots, currency));
    var right := if h.currency == currency then TotalsAfter(before, h, snapshots) else before;
    hide *;
    forall id: string
      ensures left.Keys == right.Keys && Get(left, id) == Get(right, id)
    {
      CompanyIdsSnoc(hs, h, snapshots, currency);
      TotalAt(hs, snapshots, currency, id);
      TotalAt(hs + [h], snapshots, currency, id);
      TotalsSnocAt(hs, h, snapshots, currency, id);
      TotalsAfterAt(before, h, snapshots, id);
    }
    assert Get(left, "") == Get(right, "");
    SameLookups(left, right);
  }

  // ---------------------------------------------------------------- conservation

  /** A holding's value splits exactly into what reaches companies and what stays unresolved. */
  lemma HoldingSplits(totals: map<string, real>, h: Holding, snapshots: map<string, EtfSnapshot>)
    requires h.instrument.EquityEtf? ==> h.instrument.id in snapshots && ValidSnapshot(snapshots[h.instrument.id])
    ensures Total(TotalsAfter(totals, h, snapshots)) + UnresolvedPart(h, snapshots) == Total(totals) + h.amount
  {
    hide Portion;
    match h.instrument
    case ListedEquity(_, companyId) => TotalBump(totals, companyId, h.amount);
    case EquityEtf(id) =>
      var s := snapshots[id];
      BumpAllTotal(totals, s.constituents, h.amount);
      PortionOfSum(h.amount, WeightSum(s.constituents), s.unresolvedWeight);
    case Opaque(_) =>
  }

  lemma {:induction false} Conservation(hs: seq<Holding>, snapshots: map<string, EtfSnapshot>, currency: string)
    requires Covered(hs, snapshots)
    ensures var t := TablesOf(hs, snapshots, currency);
            && Total(t.instruments) == PositionValue(hs, currency)
            && Total(Totals(t.companies)) + t.unresolved == PositionValue(hs, currency)
  {
    hide Portion;
    if hs == [] {
      assert InstrumentTable(hs, currency) == map[];
      assert Totals(CompanyTable(hs, snapshots, currency)) == map[];
    } else {
      var init, last := hs[..|hs| - 1], hs[|hs| - 1];
      assert hs == init + [last];
      CoveredPrefix(init, last, snapshots);
      Conservation(init, snapshots, currency);
      InstrumentsSnoc(init, last, currency);
      TotalsSnoc(init, last, snapshots, currency);
      TotalBump(InstrumentTable(init, currency), last.instrument.id, last.amount);
      HoldingSplits(Totals(CompanyTable(init, snapshots, currency)), last, snapshots);
    }
  }
}
