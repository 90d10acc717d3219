/**
 The incremental Portfolio Fit of a prospective equity equals the difference between the current book
 and the book rebuilt with the candidate as one more holding.
 */
module FitRefinement {
  import opened Sums
  import opened Quantise
  import opened LookThrough
  import opened ExposureTables
  import opened Categories
  import opened ExposureBook
  import opened ExposureEngine
  import opened BookInvariants
  import opened PortfolioFit

  /** What the tables of a currency assign to one component. */
  ghost function TableValue(t: Tables, profiles: map<string, Profile>, k: Component): real
  {
    var totals := Totals(t.companies);
    match k.0
    case InstrumentDim => Get(t.instruments, k.1)
    case CompanyDim => Get(totals, k.1)
    case SectorDim =>
      Get(WithUnknown(Tally(totals, SingleTags(Sector, profiles)), SECTOR_UNKNOWN, t.unresolved), k.1)
    case GeographyDim =>
      Get(WithUnknown(Tally(totals, SingleTags(Geography, profiles)), GEOGRAPHY_UNKNOWN, t.unresolved), k.1)
    case DriverDim =>
      Get(WithUnknown(Tally(totals, OverlappingTags(profiles)), DRIVER_UNKNOWN, t.unresolved), k.1)
    case UnresolvedDim => if k.1 == UNRESOLVED_ID then t.unresolved else 0.0
  }

  // ---------------------------------------------------------------- a book shows its tables

  lemma CategoryLookup(totals: map<string, real>, tags: Tags, unknown: string, unresolved: real, gross: real, t: string)
    requires gross > 0.0
    ensures var rows := OfCategories(CategoryRows(CategoryTable(totals, tags, unknown, unresolved), unknown, gross));
            var v := Get(WithUnknown(Tally(totals, tags), unknown, unresolved), t);
            RowAt(rows, t) == Weighted(v, Weight(v, gross))
  {
    hide Weight;
    hide Tally;
    hide TagMembers;
    hide WithUnknown;
    ZeroWeight(gross);
  }

  lemma CompanyLookup(companies: map<string, CompanyAccumulator>, profiles: map<string, Profile>, gross: real,
                      id: string)
    requires gross > 0.0 && companies.Keys <= profiles.Keys
    ensures var v := Get(Totals(companies), id);
            RowAt(OfCompanies(CompanyRows(companies, profiles, gross)), id) == Weighted(v, Weight(v, gross))
  {
    hide Weight;
    ZeroWeight(gross);
  }

  lemma InstrumentLookup(values: map<string, real>, gross: real, id: string)
    requires gross > 0.0
    ensures RowAt(WeightedRows(values, gross), id) == Weighted(Get(values, id), Weight(Get(values, id), gross))
  {
    hide Weight;
    ZeroWeight(gross);
  }

  lemma BookShowsTables(b: CurrencyBook, currency: string, t: Tables, profiles: map<string, Profile>, count: nat,
                        k: Component)
    requires IsBookOf(b, currency, t, profiles, count)
    ensures b.gross > 0.0
    ensures Lookup(Some(b), k) == Weighted(TableValue(t, profiles, k), Weight(TableValue(t, profiles, k), b.gross))
  {
    hide IsBookOf;
    hide Weight;
    hide RowAt;
    hide OfCategories;
    hide OfCompanies;
    hide CategoryRows;
    hide CategoryTable;
    hide CompanyRows;
    hide WeightedRows;
    hide WithUnknown;
    hide Tally;
    hide Totals;
    hide HhiOf;
    BookFields(b, currency, t, profiles, count);
    BookViews(b, currency, t, profiles, count);
    var totals := Totals(t.companies);
    ZeroWeight(b.gross);
    match k.0
    case InstrumentDim => InstrumentLookup(t.instruments, b.gross, k.1);
    case CompanyDim => CompanyLookup(t.companies, profiles, b.gross, k.1);
    case SectorDim =>
      CategoryLookup(totals, SingleTags(Sector, profiles), SECTOR_UNKNOWN, t.unresolved, b.gross, k.1);
    case GeographyDim =>
      CategoryLookup(totals, SingleTags(Geography, profiles), GEOGRAPHY_UNKNOWN, t.unresolved, b.gross, k.1);
    case DriverDim =>
      CategoryLookup(totals, OverlappingTags(profiles), DRIVER_UNKNOWN, t.unresolved, b.gross, k.1);
    case UnresolvedDim => UnresolvedLookup(b, k.1);
  }

  lemma UnresolvedLookup(b: CurrencyBook, id: string)
    ensures RowAt(RowsOf(b, UnresolvedDim), id)
         == if id == UNRESOLVED_ID then Weighted(b.unresolved.value, b.unresolved.weight) else Weighted(0.0, 0.0)
  {
  }

  // ---------------------------------------------------------------- one more equity changes the affected components

  /** Tags of companies outside the totals do not matter. */
  lemma TallyCongruent(totals: map<string, real>, a: Tags, b: Tags)
    requires totals.Keys <= a.Keys && totals.Keys <= b.Keys
    requires forall id :: id in totals ==> a[id] == b[id]
    ensures Tally(totals, a) == Tally(totals, b)
  {
    assert forall t :: TagMembers(totals, a, t) == TagMembers(totals, b, t);
    assert TagIds(totals, a) == TagIds(totals, b);
    forall t | t in TagIds(totals, a)
      ensures Tagged(totals, a, t) == Tagged(totals, b, t)
    {
    }
  }

  /** Profiles that agree with the old ones and also describe the candidate's company. */
  ghost predicate ExtendsProfiles(after: map<string, Profile>, before: map<string, Profile>, companyId: string,
                                  p: Profile)
  {
    && (forall id :: id in before ==> id in after && after[id] == before[id])
    && companyId in after && after[companyId] == p
  }

  lemma TallyStep(totals: map<string, real>, before: Tags, after: Tags, companyId: string, amount: real,
                  unknown: string, unresolved: real, t: string)
    requires totals.Keys <= before.Keys && totals.Keys <= after.Keys && companyId in after
    requires forall id :: id in totals ==> before[id] == after[id]
    ensures Get(WithUnknown(Tally(Bump(totals, companyId, amount), after), unknown, unresolved), t)
         == Get(WithUnknown(Tally(totals, before), unknown, unresolved), t)
            + if t in after[companyId] then amount else 0.0
  {
    hide Tally;
    TallyCongruent(totals, before, after);
    TallyBump(totals, after, companyId, amount, t);
    LookupWithUnknown(Tally(totals, before), unknown, unresolved, t);
    LookupWithUnknown(Tally(Bump(totals, companyId, amount), after), unknown, unresolved, t);
    hide WithUnknown;
    hide Bump;
  }

  lemma LookupWithUnknown(tally: map<string, real>, unknown: string, unresolved: real, t: string)
    ensures Get(WithUnknown(tally, unknown, unresolved), t)
         == Get(tally, t) + if t == unknown && unresolved > 0.0 then unresolved else 0.0
  {
  }

  lemma TagsOf(profiles: map<string, Profile>, id: string)
    requires id in profiles
    ensures id in SingleTags(Sector, profiles) && SingleTags(Sector, profiles)[id] == {SectorTag(profiles[id])}
    ensures id in SingleTags(Geography, profiles) && SingleTags(Geography, profiles)[id] == {GeographyTag(profiles[id])}
    ensures id in OverlappingTags(profiles) && OverlappingTags(profiles)[id] == DriverTags(profiles[id])
  {
  }

  /** The tables after one more listed equity. */
  ghost predicate EquityAdded(after: Tables, before: Tables, candidateId: string, companyId: string, amount: real)
  {
    && after.instruments == Bump(before.instruments, candidateId, amount)
    && Totals(after.companies) == Bump(Totals(before.companies), companyId, amount)
    && after.unresolved == before.unresolved
    && after.reasons == before.reasons
  }

  lemma EquityIsAdded(hs: seq<Holding>, snapshots: map<string, EtfSnapshot>, currency: string, candidateId: string,
                      companyId: string, amount: real)
    requires Covered(hs, snapshots) && amount >= 0.0
    ensures Covered(hs + [Holding(ListedEquity(candidateId, companyId), currency, amount)], snapshots)
    ensures EquityAdded(TablesOf(hs + [Holding(ListedEquity(candidateId, companyId), currency, amount)], snapshots,
                                 currency),
                        TablesOf(hs, snapshots, currency), candidateId, companyId, amount)
  {
    hide CompanyTable;
    hide InstrumentTable;
    hide Totals;
    hide Reasons;
    var h := Holding(ListedEquity(candidateId, companyId), currency, amount);
    var all := hs + [h];
    assert all[..|all| - 1] == hs;
    InstrumentsSnoc(hs, h, currency);
    TotalsSnoc(hs, h, snapshots, currency);
    ReasonsSnoc(hs, h, snapshots, currency);
  }

  lemma AffectedComponents(after: Tables, before: Tables, profiles': map<string, Profile>,
                           profiles: map<string, Profile>, candidateId: string, companyId: string, p: Profile,
                           amount: real, k: Component)
    requires EquityAdded(after, before, candidateId, companyId, amount)
    requires before.companies.Keys <= profiles.Keys && ExtendsProfiles(profiles', profiles, companyId, p)
    ensures TableValue(after, profiles', k)
         == TableValue(before, profiles, k) + if Affects(candidateId, companyId, p, k) then amount else 0.0
  {
    hide WithUnknown;
    hide Tally;
    hide SingleTags;
    hide OverlappingTags;
    hide SectorTag;
    hide GeographyTag;
    hide DriverTags;
    var totals := Totals(before.companies);
    TagsOf(profiles', companyId);
    forall id | id in totals
      ensures id in SingleTags(Sector, profiles) && id in SingleTags(Sector, profiles')
      ensures SingleTags(Sector, profiles)[id] == SingleTags(Sector, profiles')[id]
      ensures id in SingleTags(Geography, profiles) && id in SingleTags(Geography, profiles')
      ensures SingleTags(Geography, profiles)[id] == SingleTags(Geography, profiles')[id]
      ensures id in OverlappingTags(profiles) && id in OverlappingTags(profiles')
      ensures OverlappingTags(profiles)[id] == OverlappingTags(profiles')[id]
    {
      TagsOf(profiles, id);
      TagsOf(profiles', id);
    }
    match k.0
    case InstrumentDim =>
    case CompanyDim =>
    case SectorDim =>
      TallyStep(totals, SingleTags(Sector, profiles), SingleTags(Sector, profiles'), companyId, amount, SECTOR_UNKNOWN,
        before.unresolved, k.1);
    case GeographyDim =>
      TallyStep(totals, SingleTags(Geography, profiles), SingleTags(Geography, profiles'),
                companyId, amount, GEOGRAPHY_UNKNOWN, before.unresolved, k.1);
    case DriverDim =>
      TallyStep(totals, OverlappingTags(profiles), OverlappingTags(profiles'), companyId, amount, DRIVER_UNKNOWN,
        before.unresolved, k.1);
    case UnresolvedDim =>
  }

  // ---------------------------------------------------------------- the current book, present or absent

  /** The current view of a currency: its book, or nothing when no position uses the currency. */
  ghost predicate IsCurrentBook(before: Option<CurrencyBook>, hs: seq<Holding>, snapshots: map<string, EtfSnapshot>,
                                profiles: map<string, Profile>, currency: string, count: nat)
    requires Covered(hs, snapshots)
  {
    if before.Some? then IsBookOf(before.value, currency, TablesOf(hs, snapshots, currency), profiles, count)
    else currency !in Currencies(hs)
  }

  lemma EmptyTablesShowNothing(t: Tables, profiles: map<string, Profile>, k: Component)
    requires t == Tables(map[], map[], 0.0, {})
    ensures TableValue(t, profiles, k) == 0.0
  {
    assert Totals(t.companies) == map[];
    assert forall tags: Tags :: TagIds(map[], tags) == {};
  }

  lemma CurrentBookShowsTables(before: Option<CurrencyBook>, hs: seq<Holding>, snapshots: map<string, EtfSnapshot>,
                               profiles: map<string, Profile>, currency: string, count: nat, k: Component)
    requires Covered(hs, snapshots) && IsCurrentBook(before, hs, snapshots, profiles, currency, count)
    ensures Lookup(before, k).value == TableValue(TablesOf(hs, snapshots, currency), profiles, k)
  {
    hide Covered;
    hide TablesOf;
    hide IsBookOf;
    hide TableValue;
    hide RowAt;
    hide RowsOf;
    if before.Some? {
      BookShowsTables(before.value, currency, TablesOf(hs, snapshots, currency), profiles, count, k);
    } else {
      AbsentCurrency(hs, snapshots, currency);
      EmptyTablesShowNothing(TablesOf(hs, snapshots, currency), profiles, k);
    }
  }

  lemma CurrentBookTotals(before: Option<CurrencyBook>, hs: seq<Holding>, snapshots: map<string, EtfSnapshot>,
                          profiles: map<string, Profile>, currency: string, count: nat)
    requires Covered(hs, snapshots) && IsCurrentBook(before, hs, snapshots, profiles, currency, count)
    ensures var t := TablesOf(hs, snapshots, currency);
            && Gross(before) == Total(t.instruments) >= 0.0
            && t.companies.Keys <= profiles.Keys
            && (forall companyId, amount ::
                  CompaniesAfterFit(before, companyId, amount) == Bump(Totals(t.companies), companyId, amount))
            && Lookup(before, (UnresolvedDim, UNRESOLVED_ID)).value == t.unresolved
  {
    hide Covered;
    hide TablesOf;
    hide IsBookOf;
    hide Weight;
    hide HhiOf;
    hide IsTopList;
    var t := TablesOf(hs, snapshots, currency);
    if before.Some? {
      BookFields(before.value, currency, t, profiles, count);
      var rows := before.value.companies;
      assert (map id | id in rows :: rows[id].total) == Totals(t.companies);
    } else {
      AbsentCurrency(hs, snapshots, currency);
      assert Totals(t.companies) == map[];
    }
  }

  // ---------------------------------------------------------------- the theorems

  /** Rebuilding with the candidate never fails when the current view of the currency exists or is empty. */
  lemma RebuildSucceeds(hs: seq<Holding>, snapshots: map<string, EtfSnapshot>, currency: string, candidateId: string,
                        companyId: string, amount: real)
    requires Covered(hs, snapshots) && amount > 0.0
    requires currency in Currencies(hs) ==> Buildable(TablesOf(hs, snapshots, currency))
    ensures Covered(hs + [Holding(ListedEquity(candidateId, companyId), currency, amount)], snapshots)
    ensures Buildable(TablesOf(hs + [Holding(ListedEquity(candidateId, companyId), currency, amount)], snapshots,
                               currency))
  {
    hide TablesOf;
    hide Covered;
    EquityIsAdded(hs, snapshots, currency, candidateId, companyId, amount);
    var t := TablesOf(hs, snapshots, currency);
    TotalBump(t.instruments, candidateId, amount);
    if currency !in Currencies(hs) {
      AbsentCurrency(hs, snapshots, currency);
    }
  }

  /**
   The fast form refines the full rebuild: for every book, amount and candidate, with a known or an
   all-missing profile, the incremental effect is the difference between the two complete books.
   */
  lemma IncrementalRefinesRebuild(hs: seq<Holding>, snapshots: map<string, EtfSnapshot>, currency: string, count: nat,
                                  profiles: map<string, Profile>, before: Option<CurrencyBook>, candidateId: string,
                                  companyId: string, profile: Option<Profile>, amount: real,
                                  profiles': map<string, Profile>, after: CurrencyBook, effect: FitEffect)
    requires Covered(hs, snapshots) && amount > 0.0 && Gross(before) >= 0.0
    requires IsCurrentBook(before, hs, snapshots, profiles, currency, count)
    requires ExtendsProfiles(profiles', profiles, companyId, CandidateProfile(profile))
    requires Covered(hs + [Holding(ListedEquity(candidateId, companyId), currency, amount)], snapshots)
    requires IsBookOf(after, currency,
      TablesOf(hs + [Holding(ListedEquity(candidateId, companyId), currency, amount)], snapshots, currency),
                      profiles', count)
    requires IsIncremental(effect, before, candidateId, companyId, CandidateProfile(profile), amount)
    ensures IsDiff(effect, before, after)
  {
    hide Covered;
    hide TablesOf;
    hide IsBookOf;
    hide IsCurrentBook;
    hide ExtendsProfiles;
    hide Weight;
    hide Lookup;
    hide Affects;
    hide TableValue;
    hide HhiOf;
    hide CompaniesAfterFit;
    hide CandidateProfile;
    var p := CandidateProfile(profile);
    var t := TablesOf(hs, snapshots, currency);
    var t' := TablesOf(hs + [Holding(ListedEquity(candidateId, companyId), currency, amount)], snapshots, currency);
    EquityIsAdded(hs, snapshots, currency, candidateId, companyId, amount);
    CurrentBookTotals(before, hs, snapshots, profiles, currency, count);
    TotalBump(t.instruments, candidateId, amount);
    RebuiltBookTotals(after, currency, t', profiles', count);
    forall k
      ensures AfterWeight(before, candidateId, companyId, p, amount, k) == Lookup(Some(after), k).weight
    {
      CurrentBookShowsTables(before, hs, snapshots, profiles, currency, count, k);
      BookShowsTables(after, currency, t', profiles', count, k);
      AffectedComponents(t', t, profiles', profiles, candidateId, companyId, p, amount, k);
    }
  }

  lemma RebuiltBookTotals(after: CurrencyBook, currency: string, t: Tables, profiles: map<string, Profile>, count: nat)
    requires IsBookOf(after, currency, t, profiles, count)
    ensures after.gross == Total(t.instruments) > 0.0
    ensures after.hhi == HhiOf(Totals(t.companies), t.unresolved, after.gross)
  {
    hide IsBookOf;
    BookFields(after, currency, t, profiles, count);
  }

  /**
   The Fit of a held or core instrument never hits its gross-delta error: the after view holds
   exactly the unit more.
   */
  lemma GrossDeltaNeverFails(positions: seq<Holding>, h: Holding, snapshots: map<string, EtfSnapshot>,
                             profiles: map<string, Profile>, before: Option<CurrencyBook>, after: CurrencyBook,
                             count: nat)
    requires Covered(positions, snapshots) && Covered(positions + [h], snapshots)
    requires IsCurrentBook(before, positions, snapshots, profiles, h.currency, count)
    requires IsBookOf(after, h.currency, TablesOf(positions + [h], snapshots, h.currency), profiles, count)
    ensures Gross(before) + h.amount == after.gross
  {
    hide Covered;
    hide TablesOf;
    hide IsBookOf;
    hide IsCurrentBook;
    hide CompaniesAfterFit;
    hide HhiOf;
    HypotheticalDelta(positions, h, snapshots, h.currency);
    CurrentBookTotals(before, positions, snapshots, profiles, h.currency, count);
    RebuiltBookTotals(after, h.currency, TablesOf(positions + [h], snapshots, h.currency), profiles, count);
  }
}
