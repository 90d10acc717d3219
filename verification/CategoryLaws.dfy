/** What every sector, geography and driver row of an exposure book holds, read off the company rows and profiles. */
module CategoryLaws {
  import opened Sums
  import opened Quantise
  import opened LookThrough
  import opened ExposureTables
  import opened Categories
  import opened ExposureBook
  import opened ExposureEngine
  import opened BookInvariants
  import opened HoldingLaws

  type Has = (Profile, string) -> bool

  /** The tags of a profile, from its fields. */
  function HasSector(): Has
  {
    (p: Profile, t: string) => if p.sectorId.Some? then t == p.sectorId.value else t == "sector:unknown"
  }

  function HasGeography(): Has
  {
    (p: Profile, t: string) =>
      if p.countryCode.Some? then IsGeographyOf(t, p.countryCode.value) else t == "geography:unknown"
  }

  function HasDriver(): Has
  {
    (p: Profile, t: string) => if p.driverIds == [] then t == "driver:unknown" else t in p.driverIds
  }

  /** The country code in lower case after a fixed prefix. */
  predicate IsGeographyOf(t: string, code: string)
  {
    && |t| == 10 + |code| && t[..10] == "geography:"
    && forall i :: 0 <= i < |code| ==>
         if 'A' <= code[i] <= 'Z' then t[10 + i] as int - 'a' as int == code[i] as int - 'A' as int
         else t[10 + i] == code[i]
  }

  lemma GeographyTagIs(code: string, t: string)
    ensures t == "geography:" + Lower(code) <==> IsGeographyOf(t, code)
  {
    if IsGeographyOf(t, code) {
      assert t == t[..10] + t[10..];
      assert t[10..] == Lower(code);
    }
  }

  lemma TagsAreFields(profiles: map<string, Profile>, id: string, t: string)
    requires id in profiles
    ensures t in SingleTags(Sector, profiles)[id] <==> HasSector()(profiles[id], t)
    ensures t in SingleTags(Geography, profiles)[id] <==> HasGeography()(profiles[id], t)
    ensures t in OverlappingTags(profiles)[id] <==> HasDriver()(profiles[id], t)
  {
    if profiles[id].countryCode.Some? {
      GeographyTagIs(profiles[id].countryCode.value, t);
    }
    hide Lower;
    hide IsGeographyOf;
  }

  // ---------------------------------------------------------------- one view

  ghost function Carriers(companies: map<string, real>, profiles: map<string, Profile>, has: Has,
                          t: string): set<string>
  {
    set id | id in companies && id in profiles && has(profiles[id], t)
  }

  /** The values of the companies that have a tag. */
  ghost function Carried(companies: map<string, real>, profiles: map<string, Profile>, has: Has,
                         t: string): map<string, real>
  {
    map id | id in Carriers(companies, profiles, has, t) :: companies[id]
  }

  /** The value of a tag: its companies in full, and all that is unresolved in the unknown tag. */
  ghost predicate ViewMatches(rows: map<string, CategoryExposure>, companies: map<string, real>,
                              profiles: map<string, Profile>, has: Has, unknown: string, unresolved: real, gross: real)
  {
    && (forall t :: t in rows <==>
          Carriers(companies, profiles, has, t) != {} || (t == unknown && unresolved > 0.0))
    && (forall t :: t in rows ==> RowMatches(rows[t], companies, profiles, has, t, unknown, unresolved, gross))
  }

  ghost predicate RowMatches(row: CategoryExposure, companies: map<string, real>, profiles: map<string, Profile>,
                             has: Has, t: string, unknown: string, unresolved: real, gross: real)
  {
    && row.companyIds == Carriers(companies, profiles, has, t)
    && row.value == Total(Carried(companies, profiles, has, t)) + (if t == unknown then unresolved else 0.0)
    && IsWeight(row.weight, row.value, gross)
    && (row.isUnknown <==> t == unknown)
  }

  ghost predicate TagsMatch(tags: Tags, profiles: map<string, Profile>, has: Has)
  {
    && tags.Keys == profiles.Keys
    && forall id, t :: id in tags ==> (t in tags[id] <==> has(profiles[id], t))
  }

  lemma CarriersAreMembers(totals: map<string, real>, tags: Tags, profiles: map<string, Profile>, has: Has, t: string)
    requires TagsMatch(tags, profiles, has)
    ensures TagMembers(totals, tags, t) == Carriers(totals, profiles, has, t)
    ensures Tagged(totals, tags, t) == Carried(totals, profiles, has, t)
    ensures t in TagIds(totals, tags) <==> Carriers(totals, profiles, has, t) != {}
  {
    if t in TagIds(totals, tags) {
      var id :| id in totals && id in tags && t in tags[id];
      assert id in Carriers(totals, profiles, has, t);
    }
    if id :| id in Carriers(totals, profiles, has, t) {
      assert t in tags[id];
    }
  }

  lemma ViewIsExact(totals: map<string, real>, tags: Tags, profiles: map<string, Profile>, has: Has, unknown: string,
                    unresolved: real, gross: real)
    requires TagsMatch(tags, profiles, has) && unresolved >= 0.0 && gross > 0.0
    ensures ViewMatches(CategoryRows(CategoryTable(totals, tags, unknown, unresolved), unknown, gross),
                        totals, profiles, has, unknown, unresolved, gross)
  {
    hide TagsMatch;
    hide Carriers;
    hide Carried;
    hide IsWeight;
    hide Weight;
    hide Total;
    hide CategoryTable;
    var rows := CategoryRows(CategoryTable(totals, tags, unknown, unresolved), unknown, gross);
    forall t
      ensures t in rows <==> Carriers(totals, profiles, has, t) != {} || (t == unknown && unresolved > 0.0)
      ensures t in rows ==> RowMatches(rows[t], totals, profiles, has, t, unknown, unresolved, gross)
    {
      CategoryCell(totals, tags, profiles, has, unknown, unresolved, t);
      if t in rows {
        WeightIsRounded(rows[t].value, gross);
      }
    }
  }

  lemma CategoryCell(totals: map<string, real>, tags: Tags, profiles: map<string, Profile>, has: Has, unknown: string,
                     unresolved: real, t: string)
    requires TagsMatch(tags, profiles, has) && unresolved >= 0.0
    ensures var table := CategoryTable(totals, tags, unknown, unresolved);
      && (t in table <==> Carriers(totals, profiles, has, t) != {} || (t == unknown && unresolved > 0.0))
      && (t in table ==>
            && table[t].companyIds == Carriers(totals, profiles, has, t)
            && table[t].value == Total(Carried(totals, profiles, has, t)) + (if t == unknown then unresolved else 0.0))
  {
    CarriersAreMembers(totals, tags, profiles, has, t);
    TallyAt(totals, tags, t);
    hide TagsMatch;
    hide Carriers;
    hide Carried;
    hide Tagged;
    hide TagMembers;
    hide Total;
  }

  // ---------------------------------------------------------------- the three views of a book

  /** Sectors, geographies and drivers of a book, each read off its company rows and the profiles. */
  ghost predicate ViewsMatch(b: CurrencyBook, profiles: map<string, Profile>)
  {
    var totals := CompanyValues(b.companies);
    && ViewMatches(b.sectors, totals, profiles, HasSector(), "sector:unknown", b.unresolved.value, b.gross)
    && ViewMatches(b.geographies, totals, profiles, HasGeography(), "geography:unknown", b.unresolved.value, b.gross)
    && ViewMatches(b.drivers, totals, profiles, HasDriver(), "driver:unknown", b.unresolved.value, b.gross)
  }

  lemma ProfileTagsMatch(profiles: map<string, Profile>)
    ensures TagsMatch(SingleTags(Sector, profiles), profiles, HasSector())
    ensures TagsMatch(SingleTags(Geography, profiles), profiles, HasGeography())
    ensures TagsMatch(OverlappingTags(profiles), profiles, HasDriver())
  {
    hide HasSector;
    hide HasGeography;
    hide HasDriver;
    hide SectorTag;
    hide GeographyTag;
    hide DriverTags;
    forall id, t | id in profiles
      ensures t in SingleTags(Sector, profiles)[id] <==> HasSector()(profiles[id], t)
      ensures t in SingleTags(Geography, profiles)[id] <==> HasGeography()(profiles[id], t)
      ensures t in OverlappingTags(profiles)[id] <==> HasDriver()(profiles[id], t)
    {
      TagsAreFields(profiles, id, t);
    }
  }

  lemma ViewsAreExact(b: CurrencyBook, hs: seq<Holding>, snapshots: map<string, EtfSnapshot>,
                      profiles: map<string, Profile>, currency: string, count: nat)
    requires Covered(hs, snapshots) && IsBookOf(b, currency, TablesOf(hs, snapshots, currency), profiles, count)
    ensures ViewsMatch(b, profiles)
  {
    var t := TablesOf(hs, snapshots, currency);
    UnresolvedNonNegative(hs, snapshots, currency);
    hide Covered;
    hide IsBookOf;
    hide ViewMatches;
    hide CategoryRows;
    hide CategoryTable;
    hide SingleTags;
    hide OverlappingTags;
    hide TagsMatch;
    hide CompanyRows;
    hide HhiOf;
    hide IsTopList;
    hide Weight;
    BookFields(b, currency, t, profiles, count);
    BookViews(b, currency, t, profiles, count);
    RowTotals(t.companies, profiles, b.gross);
    ProfileTagsMatch(profiles);
    var totals := Totals(t.companies);
    ViewIsExact(totals, SingleTags(Sector, profiles), profiles, HasSector(), SECTOR_UNKNOWN, t.unresolved, b.gross);
    ViewIsExact(totals, SingleTags(Geography, profiles), profiles, HasGeography(), GEOGRAPHY_UNKNOWN, t.unresolved,
                b.gross);
    ViewIsExact(totals, OverlappingTags(profiles), profiles, HasDriver(), DRIVER_UNKNOWN, t.unresolved, b.gross);
  }

  lemma RowTotals(companies: map<string, CompanyAccumulator>, profiles: map<string, Profile>, gross: real)
    requires gross > 0.0 && companies.Keys <= profiles.Keys
    ensures CompanyValues(CompanyRows(companies, profiles, gross)) == Totals(companies)
  {
    hide Weight;
  }
}
