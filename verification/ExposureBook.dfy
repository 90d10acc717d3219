/**
 The exposure book of one currency, built from the accumulators: rows with quantised weights,
 category views, the ranked top companies and the company-concentration interval.

 The source keeps each group of rows as a tuple sorted by id with unique ids; here it is a map by id.
 */
module ExposureBook {
  import opened Sums
  import opened Quantise
  import opened Sequences
  import opened Sorting
  import opened LookThrough
  import opened ExposureTables
  import opened Categories

  datatype Weighted = Weighted(value: real, weight: real)

  datatype CompanyExposure = CompanyExposure(
    amounts: CompanyAccumulator,
    total: real,
    weight: real,
    sectorId: Option<string>,
    countryCode: Option<string>,
    driverIds: seq<string>)

  datatype CategoryAccumulator = CategoryAccumulator(value: real, companyIds: set<string>)

  datatype CategoryExposure = CategoryExposure(value: real, weight: real, companyIds: set<string>, isUnknown: bool)

  datatype UnresolvedExposure = UnresolvedExposure(value: real, weight: real, reasons: set<string>)

  datatype HhiBounds = HhiBounds(lower: real, upper: real)

  datatype CurrencyBook = CurrencyBook(
    currency: string,
    gross: real,
    instruments: map<string, Weighted>,
    companies: map<string, CompanyExposure>,
    unresolved: UnresolvedExposure,
    sectors: map<string, CategoryExposure>,
    geographies: map<string, CategoryExposure>,
    drivers: map<string, CategoryExposure>,
    topCompanyIds: seq<string>,
    topCompanyCount: nat,
    hhi: HhiBounds)

  // ---------------------------------------------------------------- reference meaning

  function Square(x: real): real
  {
    x * x
  }

  function SquaredShares(totals: map<string, real>, gross: real): map<string, real>
    requires gross > 0.0
  {
    map id | id in totals :: Square(Ratio(totals[id], gross))
  }

  ghost function KnownHhi(totals: map<string, real>, gross: real): real
    requires gross > 0.0
  {
    Total(SquaredShares(totals, gross))
  }

  ghost function HhiOf(totals: map<string, real>, unresolved: real, gross: real): HhiBounds
    requires gross > 0.0
  {
    HhiBounds(QuantizeRatio(KnownHhi(totals, gross)),
              QuantizeRatio(KnownHhi(totals, gross) + Square(Ratio(unresolved, gross))))
  }

  function WeightedRows(values: map<string, real>, gross: real): map<string, Weighted>
    requires gross > 0.0
  {
    map id | id in values :: Weighted(values[id], Weight(values[id], gross))
  }

  function CompanyRows(companies: map<string, CompanyAccumulator>, profiles: map<string, Profile>,
                       gross: real): map<string, CompanyExposure>
    requires gross > 0.0 && companies.Keys <= profiles.Keys
  {
    map id | id in companies ::
      CompanyExposure(companies[id], companies[id].Sum(), Weight(companies[id].Sum(), gross),
                      profiles[id].sectorId, profiles[id].countryCode, profiles[id].driverIds)
  }

  ghost function CategoryTable(totals: map<string, real>, tags: Tags, unknown: string,
                               unresolved: real): map<string, CategoryAccumulator>
  {
    var values := WithUnknown(Tally(totals, tags), unknown, unresolved);
    map t | t in values :: CategoryAccumulator(values[t], TagMembers(totals, tags, t))
  }

  function CategoryRows(table: map<string, CategoryAccumulator>, unknown: string,
                        gross: real): map<string, CategoryExposure>
    requires gross > 0.0
  {
    map t | t in table ::
      CategoryExposure(table[t].value, Weight(table[t].value, gross), table[t].companyIds, t == unknown)
  }

  /** Larger total first, then smaller id. */
  predicate RanksBefore(totals: map<string, real>, a: string, b: string)
  {
    Get(totals, a) > Get(totals, b) || (Get(totals, a) == Get(totals, b) && StringLeq(a, b))
  }

  function Ranking(totals: map<string, real>): (string, string) -> bool
  {
    (a, b) => RanksBefore(totals, a, b)
  }

  ghost predicate IsTopList(top: seq<string>, totals: map<string, real>, count: nat)
  {
    && |top| == (if |totals| < count then |totals| else count)
    && NoRepeats(top)
    && (forall id :: id in top ==> id in totals)
    && Ordered(top, Ranking(totals))
    && (forall a, b :: a in top && b in totals && b !in top ==> RanksBefore(totals, a, b))
  }

  /** The book of given tables, up to its list of top companies. */
  ghost function BookOf(currency: string, t: Tables, profiles: map<string, Profile>, top: seq<string>,
                        count: nat): CurrencyBook
    requires Total(t.instruments) > 0.0
    requires t.companies.Keys <= profiles.Keys
  {
    var gross := Total(t.instruments);
    var totals := Totals(t.companies);
    CurrencyBook(
      currency, gross,
      WeightedRows(t.instruments, gross),
      CompanyRows(t.companies, profiles, gross),
      UnresolvedExposure(t.unresolved, Weight(t.unresolved, gross), t.reasons),
      CategoryRows(CategoryTable(totals, SingleTags(Sector, profiles), SECTOR_UNKNOWN, t.unresolved),
        SECTOR_UNKNOWN, gross),
      CategoryRows(CategoryTable(totals, SingleTags(Geography, profiles), GEOGRAPHY_UNKNOWN, t.unresolved),
        GEOGRAPHY_UNKNOWN, gross),
      CategoryRows(CategoryTable(totals, OverlappingTags(profiles), DRIVER_UNKNOWN, t.unresolved),
        DRIVER_UNKNOWN, gross),
      top, count,
      HhiOf(totals, t.unresolved, gross))
  }

  // ---------------------------------------------------------------- category loops

  function CategoryAt(m: map<string, CategoryAccumulator>, t: string): CategoryAccumulator
  {
    if t in m then m[t] else CategoryAccumulator(0.0, {})
  }

  function Join(acc: CategoryAccumulator, value: real, companyId: string): CategoryAccumulator
  {
    CategoryAccumulator(acc.value + value, acc.companyIds + {companyId})
  }

  /** The table after one more company: its tags gain its total and its id, nothing else changes. */
  ghost predicate CategoriesAfter(m': map<string, CategoryAccumulator>, m: map<string, CategoryAccumulator>,
                                  tags: set<string>, companyId: string, value: real)
  {
    && m'.Keys == m.Keys + tags
    && (forall t ::
          CategoryAt(m', t) == if t in tags then Join(CategoryAt(m, t), value, companyId) else CategoryAt(m, t))
  }

  lemma CategoryTableAt(totals: map<string, real>, tags: Tags, unknown: string, t: string)
    ensures CategoryTable(totals, tags, unknown, 0.0).Keys == TagIds(totals, tags)
    ensures CategoryAt(CategoryTable(totals, tags, unknown, 0.0), t)
      == CategoryAccumulator(Get(Tally(totals, tags), t), TagMembers(totals, tags, t))
  {
    if t !in TagIds(totals, tags) {
      assert TagMembers(totals, tags, t) == {};
    }
  }

  lemma SameCategories(a: map<string, CategoryAccumulator>, b: map<string, CategoryAccumulator>)
    requires a.Keys == b.Keys
    requires forall t :: CategoryAt(a, t) == CategoryAt(b, t)
    ensures a == b
  {
    forall t | t in a
      ensures a[t] == b[t]
    {
      assert CategoryAt(a, t) == CategoryAt(b, t);
    }
  }

  lemma TagMembersBump(totals: map<string, real>, tags: Tags, id: string, value: real, t: string)
    requires id in tags
    ensures TagMembers(Bump(totals, id, value), tags, t)
         == TagMembers(totals, tags, t) + if t in tags[id] then {id} else {}
  {
  }

  lemma CategoryTableStep(m: map<string, CategoryAccumulator>, totals: map<string, real>, tags: Tags, unknown: string,
                          id: string, value: real)
    requires id in tags
    requires CategoriesAfter(m, CategoryTable(totals, tags, unknown, 0.0), tags[id], id, value)
    ensures m == CategoryTable(Bump(totals, id, value), tags, unknown, 0.0)
  {
    var before := CategoryTable(totals, tags, unknown, 0.0);
    var after := CategoryTable(Bump(totals, id, value), tags, unknown, 0.0);
    hide CategoryTable;
    hide Tally;
    hide TagIds;
    hide TagMembers;
    hide Bump;
    TagIdsBump(totals, tags, id, value);
    CategoryTableAt(totals, tags, unknown, "");
    CategoryTableAt(Bump(totals, id, value), tags, unknown, "");
    forall t
      ensures CategoryAt(m, t) == CategoryAt(after, t)
    {
      CategoryTableAt(totals, tags, unknown, t);
      CategoryTableAt(Bump(totals, id, value), tags, unknown, t);
      TallyBump(totals, tags, id, value, t);
      TagMembersBump(totals, tags, id, value, t);
    }
    SameCategories(m, after);
  }

  lemma CategoryTableUnknown(totals: map<string, real>, tags: Tags, unknown: string, unresolved: real)
    requires unresolved > 0.0
    ensures CategoryTable(totals, tags, unknown, unresolved)
      == AddUnknown(CategoryTable(totals, tags, unknown, 0.0), unknown, unresolved)
  {
    CategoryTableAt(totals, tags, unknown, unknown);
  }

  lemma EmptyTable(tags: Tags, unknown: string)
    ensures CategoryTable(map[], tags, unknown, 0.0) == map[]
  {
  }

  /** Visiting one more company of a map. */
  lemma VisitOne(totals: map<string, real>, rest: set<string>, id: string)
    requires rest <= totals.Keys && id in rest
    ensures totals - (rest - {id}) == Bump(totals - rest, id, totals[id])
  {
  }

  lemma VisitedAll(totals: map<string, real>)
    ensures totals - {} == totals && totals - totals.Keys == map[]
  {
  }

  lemma SingleStep(d: Dimension, profiles: map<string, Profile>, m: map<string, CategoryAccumulator>,
                   totals: map<string, real>, id: string, value: real)
    requires id in profiles
    requires m == CategoryTable(totals, SingleTags(d, profiles), UnknownTag(d), 0.0)
    ensures var t := Tag(d, profiles[id]);
            m[t := Join(CategoryAt(m, t), value, id)]
            == CategoryTable(Bump(totals, id, value), SingleTags(d, profiles), UnknownTag(d), 0.0)
  {
    var t := Tag(d, profiles[id]);
    var next := m[t := Join(CategoryAt(m, t), value, id)];
    hide CategoryTable;
    assert SingleTags(d, profiles)[id] == {t};
    assert CategoriesAfter(next, m, {t}, id, value);
    CategoryTableStep(next, totals, SingleTags(d, profiles), UnknownTag(d), id, value);
  }

  method CategoryExposures(d: Dimension, totals: map<string, real>, profiles: map<string, Profile>, unresolved: real)
    returns (categories: map<string, CategoryAccumulator>)
    requires totals.Keys <= profiles.Keys
    ensures categories == CategoryTable(totals, SingleTags(d, profiles), UnknownTag(d),
                                        if unresolved > 0.0 then unresolved else 0.0)
  {
    hide CategoryTable;
    hide SingleTags;
    hide Join;
    hide Tag;
    categories := map[];
    var rest := totals.Keys;
    EmptyTable(SingleTags(d, profiles), UnknownTag(d));
    VisitedAll(totals);
    while rest != {}
      invariant rest <= totals.Keys
      invariant categories == CategoryTable(totals - rest, SingleTags(d, profiles), UnknownTag(d), 0.0)
      decreases |rest|
    {
      var id :| id in rest;
      var t := Tag(d, profiles[id]);
      SingleStep(d, profiles, categories, totals - rest, id, totals[id]);
      VisitOne(totals, rest, id);
      categories := categories[t := Join(CategoryAt(categories, t), totals[id], id)];
      rest := rest - {id};
    }
    if unresolved > 0.0 {
      CategoryTableUnknown(totals, SingleTags(d, profiles), UnknownTag(d), unresolved);
      categories := AddUnknown(categories, UnknownTag(d), unresolved);
    }
  }

  function AddUnknown(m: map<string, CategoryAccumulator>, unknown: string,
                      unresolved: real): map<string, CategoryAccumulator>
  {
    m[unknown := CategoryAccumulator(CategoryAt(m, unknown).value + unresolved, CategoryAt(m, unknown).companyIds)]
  }

  method DriverExposures(totals: map<string, real>, profiles: map<string, Profile>, unresolved: real)
    returns (drivers: map<string, CategoryAccumulator>)
    requires totals.Keys <= profiles.Keys
    requires forall id :: id in totals ==> ValidProfile(profiles[id])
    ensures drivers == CategoryTable(totals, OverlappingTags(profiles), DRIVER_UNKNOWN,
                                     if unresolved > 0.0 then unresolved else 0.0)
  {
    hide CategoryTable;
    hide CategoriesAfter;
    hide ValidProfile;
    hide DriverTags;
    drivers := map[];
    var rest := totals.Keys;
    EmptyTable(OverlappingTags(profiles), DRIVER_UNKNOWN);
    VisitedAll(totals);
    while rest != {}
      invariant rest <= totals.Keys
      invariant drivers == CategoryTable(totals - rest, OverlappingTags(profiles), DRIVER_UNKNOWN, 0.0)
      decreases |rest|
    {
      var id :| id in rest;
      var next := AddDrivers(drivers, profiles[id], id, totals[id]);
      CategoryTableStep(next, totals - rest, OverlappingTags(profiles), DRIVER_UNKNOWN, id, totals[id]);
      VisitOne(totals, rest, id);
      drivers := next;
      rest := rest - {id};
    }
    if unresolved > 0.0 {
      CategoryTableUnknown(totals, OverlappingTags(profiles), DRIVER_UNKNOWN, unresolved);
      drivers := AddUnknown(drivers, DRIVER_UNKNOWN, unresolved);
    }
  }

  /** The inner driver loop: an undeclared driver counts as the unknown one. */
  method AddDrivers(drivers: map<string, CategoryAccumulator>, p: Profile, id: string, value: real)
    returns (result: map<string, CategoryAccumulator>)
    requires ValidProfile(p)
    ensures CategoriesAfter(result, drivers, DriverTags(p), id, value)
  {
    result := drivers;
    if p.driverIds == [] {
      result := result[DRIVER_UNKNOWN := Join(CategoryAt(result, DRIVER_UNKNOWN), value, id)];
    }
    var n := 0;
    while n < |p.driverIds|
      invariant 0 <= n <= |p.driverIds|
      invariant p.driverIds != [] ==> CategoriesAfter(result, drivers, (set d | d in p.driverIds[..n]), id, value)
      invariant p.driverIds == [] ==> CategoriesAfter(result, drivers, {DRIVER_UNKNOWN}, id, value)
    {
      var d := p.driverIds[n];
      assert p.driverIds[..n + 1] == p.driverIds[..n] + [d];
      assert d !in p.driverIds[..n];
      result := result[d := Join(CategoryAt(result, d), value, id)];
      n := n + 1;
    }
    assert p.driverIds[..n] == p.driverIds;
  }
}
