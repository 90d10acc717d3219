/**
 What every row of an exposure book holds, read directly off the holdings and the fund snapshots: each value is
 one sum over the holdings, each list of ids and reasons names exactly the holdings it comes from.
 */
module HoldingLaws {
  import opened Sums
  import opened Quantise
  import opened Sequences
  import opened Sorting
  import opened LookThrough
  import opened ExposureTables
  import opened Categories
  import opened ExposureBook
  import opened ExposureEngine
  import opened BookInvariants

  /** The sum of a figure over the holdings. */
  ghost function SumOf(hs: seq<Holding>, figure: Holding -> real): real
  {
    if hs == [] then 0.0 else SumOf(hs[..|hs| - 1], figure) + figure(hs[|hs| - 1])
  }

  // ---------------------------------------------------------------- one company of one fund

  /** The weight a fund gives a company, zero when it does not list it. */
  ghost function WeightIn(constituents: seq<Constituent>, companyId: string): real
  {
    if k :| k in constituents && k.companyId == companyId then k.weight else 0.0
  }

  ghost predicate OneEntryEach(constituents: seq<Constituent>)
  {
    forall i, j :: 0 <= i < j < |constituents| ==> constituents[i].companyId != constituents[j].companyId
  }

  lemma WeightIs(constituents: seq<Constituent>, k: Constituent)
    requires OneEntryEach(constituents) && k in constituents
    ensures WeightIn(constituents, k.companyId) == k.weight
  {
    var i :| 0 <= i < |constituents| && constituents[i] == k;
    forall q | q in constituents && q.companyId == k.companyId
      ensures q == k
    {
      var j :| 0 <= j < |constituents| && constituents[j] == q;
    }
  }

  lemma NoWeight(constituents: seq<Constituent>, companyId: string)
    requires companyId !in Members(constituents)
    ensures WeightIn(constituents, companyId) == 0.0
  {
  }

  /** What a fund passes on to a company is the amount times the company's weight. */
  lemma {:induction false} PassedIsWeighted(amount: real, constituents: seq<Constituent>, companyId: string)
    requires OneEntryEach(constituents)
    ensures Passed(amount, constituents, companyId) == Portion(amount, WeightIn(constituents, companyId))
  {
    hide Portion;
    hide WeightIn;
    if companyId !in Members(constituents) {
      NothingPassed(amount, constituents, companyId);
      NoWeight(constituents, companyId);
      PortionOfSum(amount, 0.0, 0.0);
    } else {
      var init, last := constituents[..|constituents| - 1], constituents[|constituents| - 1];
      assert constituents == init + [last];
      if last.companyId == companyId {
        WeightIs(constituents, last);
        OnlyLast(constituents);
        NothingPassed(amount, init, companyId);
      } else {
        PassedIsWeighted(amount, init, companyId);
        SameWeight(init, last, companyId);
      }
    }
  }

  lemma SameWeight(init: seq<Constituent>, last: Constituent, companyId: string)
    requires OneEntryEach(init + [last]) && last.companyId != companyId && companyId in Members(init)
    ensures WeightIn(init + [last], companyId) == WeightIn(init, companyId)
  {
    var all := init + [last];
    var k :| k in init && k.companyId == companyId;
    assert OneEntryEach(init) by {
      assert forall i :: 0 <= i < |init| ==> all[i] == init[i];
    }
    WeightIs(all, k);
    WeightIs(init, k);
    hide WeightIn;
  }

  lemma OnlyLast(constituents: seq<Constituent>)
    requires OneEntryEach(constituents) && constituents != []
    ensures constituents[|constituents| - 1].companyId !in Members(constituents[..|constituents| - 1])
  {
  }

  // ---------------------------------------------------------------- the tables, as sums over the holdings

  /** The part of a holding that is directly its company's: a listed equity's whole amount. */
  ghost function DirectPart(currency: string, companyId: string): Holding -> real
  {
    (h: Holding) =>
      if h.currency == currency && h.instrument.ListedEquity? && h.instrument.companyId == companyId then h.amount
      else 0.0
  }

  /** The part of a holding that reaches a company through a fund: the amount times the company's weight. */
  ghost function IndirectPart(currency: string, companyId: string, snapshots: map<string, EtfSnapshot>): Holding -> real
  {
    (h: Holding) =>
      if h.currency == currency && h.instrument.EquityEtf? && h.instrument.id in snapshots
      then h.amount * WeightIn(snapshots[h.instrument.id].constituents, companyId) else 0.0
  }

  /** The equities that are a company's own. */
  ghost function DirectIds(hs: seq<Holding>, currency: string, companyId: string): set<string>
  {
    set h | h in hs && h.currency == currency && h.instrument.ListedEquity? && h.instrument.companyId == companyId ::
      h.instrument.id
  }

  /** The funds that list a company. */
  ghost function IndirectIds(hs: seq<Holding>, currency: string, companyId: string,
                             snapshots: map<string, EtfSnapshot>): set<string>
  {
    set h, k | h in hs && h.currency == currency && h.instrument.EquityEtf? && h.instrument.id in snapshots
               && k in snapshots[h.instrument.id].constituents && k.companyId == companyId :: h.instrument.id
  }

  lemma SumOfNext(hs: seq<Holding>, h: Holding, figure: Holding -> real)
    ensures SumOf(hs + [h], figure) == SumOf(hs, figure) + figure(h)
  {
    assert (hs + [h])[..|hs + [h]| - 1] == hs;
  }

  lemma DirectIdsNext(hs: seq<Holding>, h: Holding, currency: string, companyId: string)
    ensures DirectIds(hs + [h], currency, companyId)
         == DirectIds(hs, currency, companyId) + DirectIds([h], currency, companyId)
  {
    assert forall g :: g in hs + [h] <==> g in hs || g == h;
  }

  lemma IndirectIdsNext(hs: seq<Holding>, h: Holding, currency: string, companyId: string,
                        snapshots: map<string, EtfSnapshot>)
    ensures IndirectIds(hs + [h], currency, companyId, snapshots)
         == IndirectIds(hs, currency, companyId, snapshots) + IndirectIds([h], currency, companyId, snapshots)
  {
    assert forall g :: g in hs + [h] <==> g in hs || g == h;
  }

  /** An accumulator holds a direct and an indirect value with the instruments each comes from. */
  ghost predicate IsEntry(acc: CompanyAccumulator, hs: seq<Holding>, snapshots: map<string, EtfSnapshot>,
                          currency: string, companyId: string)
  {
    && acc.direct == SumOf(hs, DirectPart(currency, companyId))
    && acc.indirect == SumOf(hs, IndirectPart(currency, companyId, snapshots))
    && acc.directIds == DirectIds(hs, currency, companyId)
    && acc.indirectIds == IndirectIds(hs, currency, companyId, snapshots)
  }

  /** What one holding adds to an entry, field by field. */
  lemma EntryNext(acc: CompanyAccumulator, h: Holding, snapshots: map<string, EtfSnapshot>, companyId: string)
    requires h.instrument.EquityEtf? ==> h.instrument.id in snapshots && ValidSnapshot(snapshots[h.instrument.id])
    ensures var next := Contribution(acc, h, snapshots, companyId);
      && next.direct == acc.direct + DirectPart(h.currency, companyId)(h)
      && next.indirect == acc.indirect + IndirectPart(h.currency, companyId, snapshots)(h)
      && next.directIds == acc.directIds + DirectIds([h], h.currency, companyId)
      && next.indirectIds == acc.indirectIds + IndirectIds([h], h.currency, companyId, snapshots)
  {
    hide Portion;
    hide WeightIn;
    if h.instrument.EquityEtf? {
      FundNext(h, snapshots, companyId);
      hide IndirectPart;
      hide Passed;
      hide ValidSnapshot;
    }
  }

  lemma FundNext(h: Holding, snapshots: map<string, EtfSnapshot>, companyId: string)
    requires h.instrument.EquityEtf? && h.instrument.id in snapshots && ValidSnapshot(snapshots[h.instrument.id])
    ensures var constituents := snapshots[h.instrument.id].constituents;
      && IndirectPart(h.currency, companyId, snapshots)(h) == Passed(h.amount, constituents, companyId)
      && (companyId !in Members(constituents) ==> Passed(h.amount, constituents, companyId) == 0.0)
  {
    var constituents := snapshots[h.instrument.id].constituents;
    PassedIsWeighted(h.amount, constituents, companyId);
    if companyId !in Members(constituents) {
      NothingPassed(h.amount, constituents, companyId);
    }
    hide WeightIn;
    hide Passed;
    hide ValidSnapshot;
    var w := WeightIn(constituents, companyId);
    PortionIs(h.amount, w);
    assert IndirectPart(h.currency, companyId, snapshots)(h) == h.amount * w;
  }

  lemma PortionIs(amount: real, weight: real)
    ensures Portion(amount, weight) == amount * weight
  {
  }

  lemma ForeignNext(h: Holding, snapshots: map<string, EtfSnapshot>, currency: string, companyId: string)
    requires h.currency != currency
    ensures DirectPart(currency, companyId)(h) == 0.0 && IndirectPart(currency, companyId, snapshots)(h) == 0.0
    ensures DirectIds([h], currency, companyId) == {} && IndirectIds([h], currency, companyId, snapshots) == {}
  {
  }

  /** Every company's entry: direct and indirect value, and the instruments behind each, for any holdings. */
  lemma {:induction false} CompanyEntriesAreExact(hs: seq<Holding>, snapshots: map<string, EtfSnapshot>,
                                                  currency: string, companyId: string)
    requires Covered(hs, snapshots)
    ensures IsEntry(CompanyOf(hs, snapshots, currency, companyId), hs, snapshots, currency, companyId)
  {
    hide Contribution;
    hide DirectPart;
    hide IndirectPart;
    if hs != [] {
      var init, last := hs[..|hs| - 1], hs[|hs| - 1];
      assert hs == init + [last];
      CoveredPrefix(init, last, snapshots);
      hide Covered;
      CompanyEntriesAreExact(init, snapshots, currency, companyId);
      SumOfNext(init, last, DirectPart(currency, companyId));
      SumOfNext(init, last, IndirectPart(currency, companyId, snapshots));
      DirectIdsNext(init, last, currency, companyId);
      IndirectIdsNext(init, last, currency, companyId, snapshots);
      hide DirectIds;
      hide IndirectIds;
      hide SumOf;
      if last.currency == currency {
        EntryNext(CompanyOf(init, snapshots, currency, companyId), last, snapshots, companyId);
      } else {
        ForeignNext(last, snapshots, currency, companyId);
      }
    }
  }

  ghost function InstrumentPart(currency: string, id: string): Holding -> real
  {
    (h: Holding) => if h.currency == currency && h.instrument.id == id then h.amount else 0.0
  }

  /** The part of a holding without a company: an opaque instrument's whole amount, a fund's unresolved share. */
  ghost function RestPart(currency: string, snapshots: map<string, EtfSnapshot>): Holding -> real
  {
    (h: Holding) =>
      if h.currency != currency || h.instrument.ListedEquity? then 0.0
      else if h.instrument.Opaque? then h.amount
      else if h.instrument.id in snapshots then h.amount * snapshots[h.instrument.id].unresolvedWeight
      else 0.0
  }

  /** The text a holding gives for the unresolved value, if it gives one. */
  ghost predicate Explains(h: Holding, snapshots: map<string, EtfSnapshot>, text: string)
  {
    match h.instrument
    case ListedEquity(_, _) => false
    case EquityEtf(id) =>
      && id in snapshots && h.amount > 0.0 && snapshots[id].unresolvedWeight > 0.0
      && snapshots[id].unresolvedReason.Some? && text == id + ": " + snapshots[id].unresolvedReason.value
    case Opaque(id) => text == id + ": no admitted one-level company look-through"
  }

  lemma {:induction false} InstrumentsAreExact(hs: seq<Holding>, currency: string, id: string)
    ensures InstrumentValue(hs, currency, id) == SumOf(hs, InstrumentPart(currency, id))
  {
    if hs != [] {
      InstrumentsAreExact(hs[..|hs| - 1], currency, id);
    }
  }

  lemma RestIs(h: Holding, snapshots: map<string, EtfSnapshot>, currency: string)
    requires h.instrument.EquityEtf? ==> h.instrument.id in snapshots
    ensures RestPart(currency, snapshots)(h) == if h.currency == currency then UnresolvedPart(h, snapshots) else 0.0
  {
  }

  lemma {:induction false} UnresolvedIsExact(hs: seq<Holding>, snapshots: map<string, EtfSnapshot>, currency: string)
    requires Covered(hs, snapshots)
    ensures Unresolved(hs, snapshots, currency) == SumOf(hs, RestPart(currency, snapshots))
  {
    hide RestPart;
    hide UnresolvedPart;
    hide ValidSnapshot;
    if hs != [] {
      var init, last := hs[..|hs| - 1], hs[|hs| - 1];
      assert hs == init + [last];
      CoveredPrefix(init, last, snapshots);
      hide Covered;
      UnresolvedIsExact(init, snapshots, currency);
      RestIs(last, snapshots, currency);
    }
  }

  lemma ReasonIsExact(h: Holding, snapshots: map<string, EtfSnapshot>, text: string)
    requires h.amount >= 0.0
    requires h.instrument.EquityEtf? ==> h.instrument.id in snapshots && ValidSnapshot(snapshots[h.instrument.id])
    ensures text in Reason(h, snapshots) <==> Explains(h, snapshots, text)
  {
    if h.instrument.EquityEtf? {
      PortionNonNegative(h.amount, snapshots[h.instrument.id].unresolvedWeight);
    }
  }

  lemma ReasonsAreExact(hs: seq<Holding>, snapshots: map<string, EtfSnapshot>, currency: string, text: string)
    requires Covered(hs, snapshots)
    ensures text in Reasons(hs, snapshots, currency) <==>
      exists h :: h in hs && h.currency == currency && Explains(h, snapshots, text)
  {
    forall h | h in hs
      ensures h.instrument.EquityEtf? ==> h.instrument.id in snapshots
      ensures text in Reason(h, snapshots) <==> Explains(h, snapshots, text)
    {
      ReasonIsExact(h, snapshots, text);
    }
    hide Covered;
    hide Reason;
    hide Explains;
  }

  // ---------------------------------------------------------------- the rows of a book

  ghost predicate InstrumentRowsMatch(b: CurrencyBook, hs: seq<Holding>, currency: string)
  {
    && (forall id :: id in b.instruments <==> exists h :: h in hs && h.currency == currency && h.instrument.id == id)
    && (forall id :: id in b.instruments ==>
          && b.instruments[id].value == SumOf(hs, InstrumentPart(currency, id))
          && IsWeight(b.instruments[id].weight, b.instruments[id].value, b.gross))
  }

  /** A weight is the share of the gross value, rounded to twelve places. */
  ghost predicate IsWeight(w: real, value: real, gross: real)
  {
    gross > 0.0 && IsRounded(w, value / gross)
  }

  /** The nearest multiple of 10^-12, ties to the even one. */
  ghost predicate IsRounded(w: real, exact: real)
  {
    var quanta := (w * 1000000000000.0).Floor;
    w * 1000000000000.0 == quanta as real && IsNearestEven(exact * 1000000000000.0, quanta)
  }

  lemma QuantizedIsRounded(exact: real)
    ensures IsRounded(QuantizeRatio(exact), exact)
  {
    HalfEvenIsNearestEven(exact * 1000000000000.0, HalfEven(exact * 1000000000000.0));
  }

  lemma WeightIsRounded(value: real, gross: real)
    requires gross > 0.0
    ensures IsWeight(Weight(value, gross), value, gross)
  {
    QuantizedIsRounded(value / gross);
    hide IsRounded;
    hide QuantizeRatio;
  }

  ghost predicate CompanyRowMatches(row: CompanyExposure, p: Profile, gross: real)
  {
    && row.total == row.amounts.direct + row.amounts.indirect
    && IsWeight(row.weight, row.total, gross)
    && row.sectorId == p.sectorId && row.countryCode == p.countryCode && row.driverIds == p.driverIds
  }

  ghost predicate CompanyRowsMatch(b: CurrencyBook, hs: seq<Holding>, snapshots: map<string, EtfSnapshot>,
                                   profiles: map<string, Profile>, currency: string)
  {
    && (forall id :: id in b.companies <==>
          DirectIds(hs, currency, id) != {} || IndirectIds(hs, currency, id, snapshots) != {})
    && (forall id :: id in b.companies ==>
          && id in profiles && IsEntry(b.companies[id].amounts, hs, snapshots, currency, id)
          && CompanyRowMatches(b.companies[id], profiles[id], b.gross))
  }

  ghost predicate UnresolvedMatches(b: CurrencyBook, hs: seq<Holding>, snapshots: map<string, EtfSnapshot>,
                                    currency: string)
  {
    && b.unresolved.value == SumOf(hs, RestPart(currency, snapshots))
    && IsWeight(b.unresolved.weight, b.unresolved.value, b.gross)
    && (forall text :: text in b.unresolved.reasons <==>
          exists h :: h in hs && h.currency == currency && Explains(h, snapshots, text))
  }

  /** Every row of a book of one currency, read off the holdings. */
  ghost predicate RowsMatch(b: CurrencyBook, hs: seq<Holding>, snapshots: map<string, EtfSnapshot>,
                            profiles: map<string, Profile>, currency: string)
  {
    && b.currency == currency
    && InstrumentRowsMatch(b, hs, currency)
    && CompanyRowsMatch(b, hs, snapshots, profiles, currency)
    && UnresolvedMatches(b, hs, snapshots, currency)
  }

  lemma InstrumentRowsAreExact(b: CurrencyBook, hs: seq<Holding>, currency: string)
    requires b.gross > 0.0 && b.instruments == WeightedRows(InstrumentTable(hs, currency), b.gross)
    ensures InstrumentRowsMatch(b, hs, currency)
  {
    hide IsWeight;
    hide Weight;
    hide SumOf;
    forall id | id in b.instruments
      ensures b.instruments[id].value == SumOf(hs, InstrumentPart(currency, id))
      ensures IsWeight(b.instruments[id].weight, b.instruments[id].value, b.gross)
    {
      InstrumentsAreExact(hs, currency, id);
      WeightIsRounded(b.instruments[id].value, b.gross);
    }
  }

  lemma TouchedIff(hs: seq<Holding>, snapshots: map<string, EtfSnapshot>, currency: string, companyId: string)
    requires Covered(hs, snapshots)
    ensures companyId in CompanyIds(hs, snapshots, currency) <==>
      DirectIds(hs, currency, companyId) != {} || IndirectIds(hs, currency, companyId, snapshots) != {}
  {
    if companyId in CompanyIds(hs, snapshots, currency) {
      var h :| h in hs && h.currency == currency && companyId in Touched(h, snapshots);
      if h.instrument.ListedEquity? {
        assert h.instrument.id in DirectIds(hs, currency, companyId);
      } else {
        var k :| k in snapshots[h.instrument.id].constituents && k.companyId == companyId;
        assert h.instrument.id in IndirectIds(hs, currency, companyId, snapshots);
      }
    }
    if id :| id in DirectIds(hs, currency, companyId) {
      var h :| h in hs && h.currency == currency && h.instrument.ListedEquity? && h.instrument.companyId == companyId;
      assert companyId in Touched(h, snapshots);
    }
    if id :| id in IndirectIds(hs, currency, companyId, snapshots) {
      var h, k :| h in hs && h.currency == currency && h.instrument.EquityEtf? && h.instrument.id in snapshots
               && k in snapshots[h.instrument.id].constituents && k.companyId == companyId;
      assert companyId in Touched(h, snapshots);
    }
  }

  lemma CompanyRowsAreExact(b: CurrencyBook, hs: seq<Holding>, snapshots: map<string, EtfSnapshot>,
                            profiles: map<string, Profile>, currency: string)
    requires Covered(hs, snapshots) && b.gross > 0.0 && CompanyTable(hs, snapshots, currency).Keys <= profiles.Keys
    requires b.companies == CompanyRows(CompanyTable(hs, snapshots, currency), profiles, b.gross)
    ensures CompanyRowsMatch(b, hs, snapshots, profiles, currency)
  {
    hide Covered;
    hide IsEntry;
    hide DirectIds;
    hide IndirectIds;
    hide CompanyTable;
    hide CompanyRowMatches;
    hide CompanyRows;
    CompanyRowKeys(b, hs, snapshots, profiles, currency);
    forall id
      ensures id in b.companies <==>
        DirectIds(hs, currency, id) != {} || IndirectIds(hs, currency, id, snapshots) != {}
    {
      TouchedIff(hs, snapshots, currency, id);
    }
    hide CompanyIds;
    forall id | id in b.companies
      ensures id in profiles && IsEntry(b.companies[id].amounts, hs, snapshots, currency, id)
      ensures CompanyRowMatches(b.companies[id], profiles[id], b.gross)
    {
      CompanyRowIsExact(b, hs, snapshots, profiles, currency, id);
    }
  }

  lemma CompanyRowKeys(b: CurrencyBook, hs: seq<Holding>, snapshots: map<string, EtfSnapshot>,
                       profiles: map<string, Profile>, currency: string)
    requires Covered(hs, snapshots) && b.gross > 0.0 && CompanyTable(hs, snapshots, currency).Keys <= profiles.Keys
    requires b.companies == CompanyRows(CompanyTable(hs, snapshots, currency), profiles, b.gross)
    ensures b.companies.Keys == CompanyIds(hs, snapshots, currency)
  {
    hide Covered;
    hide CompanyIds;
    hide CompanyOf;
    hide Weight;
  }

  lemma CompanyRowIsExact(b: CurrencyBook, hs: seq<Holding>, snapshots: map<string, EtfSnapshot>,
                          profiles: map<string, Profile>, currency: string, id: string)
    requires Covered(hs, snapshots) && b.gross > 0.0 && CompanyTable(hs, snapshots, currency).Keys <= profiles.Keys
    requires b.companies == CompanyRows(CompanyTable(hs, snapshots, currency), profiles, b.gross)
    requires id in b.companies
    ensures id in profiles && IsEntry(b.companies[id].amounts, hs, snapshots, currency, id)
    ensures CompanyRowMatches(b.companies[id], profiles[id], b.gross)
  {
    hide Covered;
    hide IsEntry;
    hide CompanyTable;
    hide CompanyRowMatches;
    hide CompanyRows;
    CompanyEntriesAreExact(hs, snapshots, currency, id);
    RowOf(b, CompanyTable(hs, snapshots, currency), profiles, id);
    EntryOf(hs, snapshots, currency, id);
  }

  lemma EntryOf(hs: seq<Holding>, snapshots: map<string, EtfSnapshot>, currency: string, id: string)
    requires Covered(hs, snapshots) && id in CompanyTable(hs, snapshots, currency)
    ensures CompanyTable(hs, snapshots, currency)[id] == CompanyOf(hs, snapshots, currency, id)
  {
    hide Covered;
    hide CompanyIds;
    hide CompanyOf;
  }

  lemma RowOf(b: CurrencyBook, companies: map<string, CompanyAccumulator>, profiles: map<string, Profile>, id: string)
    requires b.gross > 0.0 && companies.Keys <= profiles.Keys
    requires b.companies == CompanyRows(companies, profiles, b.gross) && id in b.companies
    ensures id in companies && b.companies[id].amounts == companies[id]
    ensures CompanyRowMatches(b.companies[id], profiles[id], b.gross)
  {
    hide Weight;
    hide IsWeight;
    WeightIsRounded(companies[id].Sum(), b.gross);
  }

  /** Every built book: each row says exactly what the holdings say. */
  lemma RowsAreExact(b: CurrencyBook, hs: seq<Holding>, snapshots: map<string, EtfSnapshot>,
                     profiles: map<string, Profile>, currency: string, count: nat)
    requires Covered(hs, snapshots) && IsBookOf(b, currency, TablesOf(hs, snapshots, currency), profiles, count)
    ensures RowsMatch(b, hs, snapshots, profiles, currency)
  {
    hide Covered;
    hide IsBookOf;
    hide WeightedRows;
    hide CompanyRows;
    hide CompanyTable;
    hide InstrumentTable;
    hide InstrumentRowsMatch;
    hide CompanyRowsMatch;
    hide HhiOf;
    hide Weight;
    hide IsWeight;
    hide SumOf;
    hide Reasons;
    hide Explains;
    hide IsTopList;
    BookFields(b, currency, TablesOf(hs, snapshots, currency), profiles, count);
    BookCurrency(b, currency, TablesOf(hs, snapshots, currency), profiles, count);
    InstrumentRowsAreExact(b, hs, currency);
    CompanyRowsAreExact(b, hs, snapshots, profiles, currency);
    UnresolvedIsExact(hs, snapshots, currency);
    WeightIsRounded(b.unresolved.value, b.gross);
    forall text
      ensures text in b.unresolved.reasons <==>
        exists h :: h in hs && h.currency == currency && Explains(h, snapshots, text)
    {
      ReasonsAreExact(hs, snapshots, currency, text);
    }
  }

  lemma BookCurrency(b: CurrencyBook, currency: string, t: Tables, profiles: map<string, Profile>, count: nat)
    requires IsBookOf(b, currency, t, profiles, count)
    ensures b.currency == currency && b.topCompanyCount == count
  {
  }

  // ---------------------------------------------------------------- the top list and the concentration

  /** The larger company first; of two equal ones the smaller id. */
  ghost predicate Outranks(b: CurrencyBook, x: string, y: string)
    requires x in b.companies && y in b.companies
  {
    || b.companies[x].total > b.companies[y].total
    || (b.companies[x].total == b.companies[y].total && TextAtMost(x, y))
  }

  /** The first companies of the book, as many as asked for: in rank order, and nobody left out ranks higher. */
  ghost predicate TopMatches(b: CurrencyBook, count: nat)
  {
    var top := b.topCompanyIds;
    && (|top| == count || (|top| < count && forall id :: id in b.companies ==> id in top))
    && (forall id :: id in top ==> id in b.companies)
    && (forall i, j :: 0 <= i < j < |top| ==> top[i] != top[j] && Outranks(b, top[i], top[j]))
    && (forall x, y :: x in top && y in b.companies && y !in top ==> Outranks(b, x, y))
  }

  ghost function ShareSquared(value: real, gross: real): real
    requires gross > 0.0
  {
    (value / gross) * (value / gross)
  }

  /** The squared share of each company. */
  ghost function SharesSquared(b: CurrencyBook): map<string, real>
    requires b.gross > 0.0
  {
    map id | id in b.companies :: ShareSquared(b.companies[id].total, b.gross)
  }

  /** The bounds: the sum of squared shares, and the same with the unresolved share as one more company. */
  ghost predicate BoundsMatch(b: CurrencyBook)
  {
    && b.gross > 0.0
    && IsRounded(b.hhi.lower, Total(SharesSquared(b)))
    && IsRounded(b.hhi.upper, Total(SharesSquared(b)) + ShareSquared(b.unresolved.value, b.gross))
  }

  lemma RowTotal(b: CurrencyBook, companies: map<string, CompanyAccumulator>, profiles: map<string, Profile>,
                 id: string)
    requires b.gross > 0.0 && companies.Keys <= profiles.Keys
    requires b.companies == CompanyRows(companies, profiles, b.gross)
    ensures id in b.companies <==> id in Totals(companies)
    ensures id in b.companies ==> b.companies[id].total == Totals(companies)[id]
  {
    hide Weight;
  }

  lemma RanksIs(totals: map<string, real>, x: string, y: string)
    requires x in totals && y in totals
    ensures RanksBefore(totals, x, y) <==> totals[x] > totals[y] || (totals[x] == totals[y] && TextAtMost(x, y))
  {
    StringLeqIs(x, y);
    hide StringLeq;
    hide TextAtMost;
  }

  lemma TopIsExact(b: CurrencyBook, currency: string, t: Tables, profiles: map<string, Profile>, count: nat)
    requires IsBookOf(b, currency, t, profiles, count)
    ensures TopMatches(b, count)
  {
    hide IsBookOf;
    hide CompanyRows;
    hide IsTopList;
    BookFields(b, currency, t, profiles, count);
    BookCurrency(b, currency, t, profiles, count);
    TopFromRows(b, t.companies, profiles, count);
    hide TopMatches;
  }

  lemma TopFromRows(b: CurrencyBook, companies: map<string, CompanyAccumulator>, profiles: map<string, Profile>,
                    count: nat)
    requires b.gross > 0.0 && companies.Keys <= profiles.Keys
    requires b.companies == CompanyRows(companies, profiles, b.gross)
    requires IsTopList(b.topCompanyIds, Totals(companies), count)
    ensures TopMatches(b, count)
  {
    hide CompanyRows;
    hide TextAtMost;
    hide RanksBefore;
    hide Totals;
    hide IsTopList;
    var totals := Totals(companies);
    forall id
      ensures id in b.companies <==> id in totals
      ensures id in b.companies ==> b.companies[id].total == totals[id]
    {
      RowTotal(b, companies, profiles, id);
    }
    forall x, y | x in b.companies && y in b.companies
      ensures RanksBefore(totals, x, y) <==> Outranks(b, x, y)
    {
      RanksIs(totals, x, y);
    }
    hide Outranks;
    TopIsComplete(b.topCompanyIds, totals, count);
    TopIsRanked(b, totals, count);
  }

  lemma TopIsRanked(b: CurrencyBook, totals: map<string, real>, count: nat)
    requires IsTopList(b.topCompanyIds, totals, count)
    requires forall id :: id in b.companies <==> id in totals
    requires forall x, y :: x in b.companies && y in b.companies ==> (RanksBefore(totals, x, y) <==> Outranks(b, x, y))
    ensures var top := b.topCompanyIds;
      && (forall id :: id in top ==> id in b.companies)
      && (forall i, j :: 0 <= i < j < |top| ==> top[i] != top[j] && Outranks(b, top[i], top[j]))
      && (forall x, y :: x in top && y in b.companies && y !in top ==> Outranks(b, x, y))
  {
    hide RanksBefore;
    hide Outranks;
    var top := b.topCompanyIds;
    forall i, j | 0 <= i < j < |top|
      ensures top[i] != top[j] && Outranks(b, top[i], top[j])
    {
      assert Ranking(totals)(top[i], top[j]);
      assert top[i] in top && top[j] in top;
    }
  }

  /** A list of distinct keys as long as the map holds them all. */
  lemma TopIsComplete(top: seq<string>, totals: map<string, real>, count: nat)
    requires IsTopList(top, totals, count)
    ensures |top| == count || (|top| < count && forall id :: id in totals ==> id in top)
  {
    if |totals| < count {
      var held := set id | id in top;
      DistinctSize(top);
      assert held <= totals.Keys;
      SameSize(held, totals.Keys);
    }
  }

  lemma {:induction false} DistinctSize(top: seq<string>)
    requires NoRepeats(top)
    ensures |set id | id in top| == |top|
  {
    if top != [] {
      var init, last := top[..|top| - 1], top[|top| - 1];
      assert top == init + [last];
      DistinctSize(init);
      assert (set id | id in top) == (set id | id in init) + {last};
    }
  }

  lemma SameSize(a: set<string>, b: set<string>)
    requires a <= b && |a| == |b|
    ensures a == b
  {
    assert |b - a| == |b| - |a|;
  }

  lemma BoundsAreExact(b: CurrencyBook, currency: string, t: Tables, profiles: map<string, Profile>, count: nat)
    requires IsBookOf(b, currency, t, profiles, count)
    ensures BoundsMatch(b)
  {
    hide IsBookOf;
    hide CompanyRows;
    hide IsTopList;
    hide HhiOf;
    BookFields(b, currency, t, profiles, count);
    SquaresAre(b, t.companies, profiles);
    BoundsFrom(b, Totals(t.companies));
    hide BoundsMatch;
  }

  lemma BoundsFrom(b: CurrencyBook, totals: map<string, real>)
    requires b.gross > 0.0 && b.hhi == HhiOf(totals, b.unresolved.value, b.gross)
    requires SharesSquared(b) == SquaredShares(totals, b.gross)
    ensures BoundsMatch(b)
  {
    hide QuantizeRatio;
    hide IsRounded;
    hide Total;
    hide SharesSquared;
    hide SquaredShares;
    hide ShareSquared;
    hide Square;
    var known := KnownHhi(totals, b.gross);
    var rest := ShareSquared(b.unresolved.value, b.gross);
    SquareIs(b.unresolved.value, b.gross);
    QuantizedIsRounded(known);
    QuantizedIsRounded(known + rest);
    assert known == Total(SharesSquared(b));
    assert IsRounded(b.hhi.lower, known);
    assert IsRounded(b.hhi.upper, known + rest);
  }

  lemma SquaresAre(b: CurrencyBook, companies: map<string, CompanyAccumulator>, profiles: map<string, Profile>)
    requires b.gross > 0.0 && companies.Keys <= profiles.Keys
    requires b.companies == CompanyRows(companies, profiles, b.gross)
    ensures SharesSquared(b) == SquaredShares(Totals(companies), b.gross)
  {
    hide CompanyRows;
    hide Totals;
    var left, right := SharesSquared(b), SquaredShares(Totals(companies), b.gross);
    forall id
      ensures id in left <==> id in right
      ensures Get(left, id) == Get(right, id)
    {
      RowTotal(b, companies, profiles, id);
      if id in left {
        SquareIs(b.companies[id].total, b.gross);
      }
    }
    assert left.Keys == right.Keys;
    SameLookups(left, right);
    hide Square;
    hide Ratio;
    hide ShareSquared;
  }

  lemma SquareIs(value: real, gross: real)
    requires gross > 0.0
    ensures Square(Ratio(value, gross)) == ShareSquared(value, gross)
  {
  }
}
