/**
 What every built book satisfies, when a build fails, and what one hypothetical amount changes.
 */
module BookInvariants {
  import opened Sums
  import opened Quantise
  import opened LookThrough
  import opened ExposureTables
  import opened Categories
  import opened ExposureBook
  import opened ExposureEngine
  import opened Hhi

  ghost function InstrumentValues(rows: map<string, Weighted>): map<string, real>
  {
    map id | id in rows :: rows[id].value
  }

  ghost function CompanyValues(rows: map<string, CompanyExposure>): map<string, real>
  {
    map id | id in rows :: rows[id].total
  }

  ghost function CategoryValues(rows: map<string, CategoryExposure>): map<string, real>
  {
    map t | t in rows :: rows[t].value
  }

  ghost predicate Unit(w: real)
  {
    0.0 <= w <= 1.0
  }

  /** `CurrencyExposureBook.validate_book`: every additive view reconciles to the gross value. */
  ghost predicate Reconciles(b: CurrencyBook)
  {
    && b.gross > 0.0
    && Total(InstrumentValues(b.instruments)) == b.gross
    && Total(CompanyValues(b.companies)) + b.unresolved.value == b.gross
    && Total(CategoryValues(b.sectors)) == b.gross
    && Total(CategoryValues(b.geographies)) == b.gross
    && |b.topCompanyIds| <= b.topCompanyCount
    && (forall id :: id in b.topCompanyIds ==> id in b.companies)
  }

  /**
   The field and row validators: non-negative amounts, ratios in [0, 1], explained unresolved value,
   ordered bounds.
   */
  ghost predicate RowsAccepted(b: CurrencyBook)
  {
    && (forall id :: id in b.instruments ==> b.instruments[id].value >= 0.0 && Unit(b.instruments[id].weight))
    && (forall id :: id in b.companies ==> CompanyAccepted(b.companies[id]))
    && (forall t :: t in b.sectors ==> CategoryAccepted(b.sectors[t]))
    && (forall t :: t in b.geographies ==> CategoryAccepted(b.geographies[t]))
    && (forall t :: t in b.drivers ==> CategoryAccepted(b.drivers[t]))
    && b.unresolved.value >= 0.0 && Unit(b.unresolved.weight)
    && (b.unresolved.value > 0.0 <==> b.unresolved.reasons != {})
    && 0.0 <= b.hhi.lower <= b.hhi.upper <= 1.0
  }

  /** Every model validator a book passes through on construction. */
  ghost predicate Accepted(b: CurrencyBook)
  {
    Reconciles(b) && RowsAccepted(b)
  }

  ghost predicate CompanyAccepted(c: CompanyExposure)
  {
    && c.amounts.direct >= 0.0 && c.amounts.indirect >= 0.0
    && c.amounts.direct + c.amounts.indirect == c.total && Unit(c.weight)
  }

  ghost predicate CategoryAccepted(c: CategoryExposure)
  {
    c.value >= 0.0 && Unit(c.weight)
  }

  // ---------------------------------------------------------------- signs

  lemma {:induction false} PassedNonNegative(amount: real, constituents: seq<Constituent>, id: string)
    requires amount >= 0.0 && forall k :: k in constituents ==> k.weight > 0.0
    ensures Passed(amount, constituents, id) >= 0.0
  {
    if constituents != [] {
      var init, last := constituents[..|constituents| - 1], constituents[|constituents| - 1];
      assert last in constituents;
      assert forall k :: k in init ==> k in constituents;
      PassedNonNegative(amount, init, id);
      PortionNonNegative(amount, last.weight);
    }
  }

  lemma {:induction false} CompanyNonNegative(hs: seq<Holding>, snapshots: map<string, EtfSnapshot>, currency: string,
                                              id: string)
    requires Covered(hs, snapshots)
    ensures CompanyOf(hs, snapshots, currency, id).direct >= 0.0
    ensures CompanyOf(hs, snapshots, currency, id).indirect >= 0.0
  {
    if hs != [] {
      var init, last := hs[..|hs| - 1], hs[|hs| - 1];
      assert hs == init + [last];
      CoveredPrefix(init, last, snapshots);
      CompanyNonNegative(init, snapshots, currency, id);
      if last.instrument.EquityEtf? {
        PassedNonNegative(last.amount, snapshots[last.instrument.id].constituents, id);
      }
    }
  }

  lemma {:induction false} InstrumentNonNegative(hs: seq<Holding>, currency: string, id: string)
    requires forall h :: h in hs ==> h.amount >= 0.0
    ensures InstrumentValue(hs, currency, id) >= 0.0
  {
    if hs != [] {
      InstrumentNonNegative(hs[..|hs| - 1], currency, id);
    }
  }

  lemma TablesNonNegative(hs: seq<Holding>, snapshots: map<string, EtfSnapshot>, currency: string)
    requires Covered(hs, snapshots)
    ensures var t := TablesOf(hs, snapshots, currency);
            && NonNegative(t.instruments) && NonNegative(Totals(t.companies)) && t.unresolved >= 0.0
            && (forall id :: id in t.companies ==> t.companies[id].direct >= 0.0 && t.companies[id].indirect >= 0.0)
  {
    var t := TablesOf(hs, snapshots, currency);
    UnresolvedNonNegative(hs, snapshots, currency);
    forall id | id in t.instruments
      ensures t.instruments[id] >= 0.0
    {
      InstrumentNonNegative(hs, currency, id);
    }
    forall id | id in t.companies
      ensures t.companies[id].direct >= 0.0 && t.companies[id].indirect >= 0.0
    {
      CompanyNonNegative(hs, snapshots, currency, id);
    }
  }

  /** A positive unresolved value is always explained. */
  lemma {:induction false} UnresolvedIsExplained(hs: seq<Holding>, snapshots: map<string, EtfSnapshot>,
                                                 currency: string)
    requires Covered(hs, snapshots)
    requires Reasons(hs, snapshots, currency) == {}
    ensures Unresolved(hs, snapshots, currency) == 0.0
  {
    if hs != [] {
      var init, last := hs[..|hs| - 1], hs[|hs| - 1];
      assert hs == init + [last];
      CoveredPrefix(init, last, snapshots);
      ReasonsSnoc(init, last, snapshots, currency);
      UnresolvedIsExplained(init, snapshots, currency);
      if last.currency == currency {
        assert Reason(last, snapshots) == {};
        if last.instrument.EquityEtf? {
          PortionNonNegative(last.amount, snapshots[last.instrument.id].unresolvedWeight);
        }
      }
    }
  }

  // ---------------------------------------------------------------- every built book is accepted

  lemma RowsInUnit(values: map<string, real>, gross: real)
    requires NonNegative(values) && Total(values) <= gross && gross > 0.0
    ensures forall id :: id in values ==> Unit(Weight(values[id], gross))
  {
    TotalNonNegative(values);
    forall id | id in values
      ensures Unit(Weight(values[id], gross))
    {
      WeightInUnit(values[id], gross);
    }
  }

  lemma CategoryBounds(totals: map<string, real>, tags: Tags, unknown: string, unresolved: real, gross: real)
    requires NonNegative(totals) && unresolved >= 0.0 && Total(totals) + unresolved == gross
    ensures forall t :: t in WithUnknown(Tally(totals, tags), unknown, unresolved) ==>
      0.0 <= WithUnknown(Tally(totals, tags), unknown, unresolved)[t] <= gross
  {
    hide Tally;
    hide Total;
    TotalNonNegative(totals);
    forall t | t in Tally(totals, tags)
      ensures 0.0 <= Tally(totals, tags)[t] <= Total(totals)
    {
      TallyNonNegative(totals, tags);
    }
  }

  lemma CategoryRowAt(totals: map<string, real>, tags: Tags, unknown: string, unresolved: real, gross: real)
    requires gross > 0.0
    ensures var rows := CategoryRows(CategoryTable(totals, tags, unknown, unresolved), unknown, gross);
      && CategoryValues(rows) == WithUnknown(Tally(totals, tags), unknown, unresolved)
      && (forall t :: t in rows ==> rows[t].weight == Weight(CategoryValues(rows)[t], gross))
  {
    hide Weight;
    hide WithUnknown;
    hide Tally;
    hide TagMembers;
  }

  /** One category view: non-negative and within [0, 1] row by row, and additive when every company has one tag. */
  lemma CategoryRowsAccepted(totals: map<string, real>, tags: Tags, unknown: string, unresolved: real, gross: real)
    requires NonNegative(totals) && unresolved >= 0.0 && gross > 0.0 && Total(totals) + unresolved == gross
    ensures var rows := CategoryRows(CategoryTable(totals, tags, unknown, unresolved), unknown, gross);
            && CategoryValues(rows) == WithUnknown(Tally(totals, tags), unknown, unresolved)
            && (forall t :: t in rows ==> CategoryAccepted(rows[t]))
  {
    hide Weight;
    hide WithUnknown;
    hide Tally;
    hide CategoryTable;
    hide CategoryRows;
    CategoryBounds(totals, tags, unknown, unresolved, gross);
    CategoryRowAt(totals, tags, unknown, unresolved, gross);
    var rows := CategoryRows(CategoryTable(totals, tags, unknown, unresolved), unknown, gross);
    forall t | t in rows
      ensures CategoryAccepted(rows[t])
    {
      assert CategoryValues(rows)[t] == rows[t].value;
      WeightInUnit(CategoryValues(rows)[t], gross);
    }
  }

  lemma AdditiveView(d: Dimension, totals: map<string, real>, profiles: map<string, Profile>, unresolved: real,
                     gross: real)
    requires NonNegative(totals) && unresolved >= 0.0 && gross > 0.0 && Total(totals) + unresolved == gross
    requires totals.Keys <= profiles.Keys
    ensures var rows := CategoryRows(
              CategoryTable(totals, SingleTags(d, profiles), UnknownTag(d), unresolved), UnknownTag(d), gross);
            && Total(CategoryValues(rows)) == gross
            && (forall t :: t in rows ==> CategoryAccepted(rows[t]))
  {
    CategoryRowsAccepted(totals, SingleTags(d, profiles), UnknownTag(d), unresolved, gross);
    CategoryTotal(d, totals, profiles, unresolved);
  }

  lemma CompaniesAccepted(companies: map<string, CompanyAccumulator>, profiles: map<string, Profile>, gross: real)
    requires companies.Keys <= profiles.Keys && gross > 0.0
    requires forall id :: id in companies ==> companies[id].direct >= 0.0 && companies[id].indirect >= 0.0
    requires Total(Totals(companies)) <= gross
    ensures var rows := CompanyRows(companies, profiles, gross);
            && CompanyValues(rows) == Totals(companies)
            && (forall id :: id in rows ==> CompanyAccepted(rows[id]))
  {
    RowsInUnit(Totals(companies), gross);
    hide Weight;
    assert CompanyValues(CompanyRows(companies, profiles, gross)) == Totals(companies);
  }

  lemma InstrumentsAccepted(values: map<string, real>, gross: real)
    requires NonNegative(values) && Total(values) == gross && gross > 0.0
    ensures var rows := WeightedRows(values, gross);
            && InstrumentValues(rows) == values
            && (forall id :: id in rows ==> rows[id].value >= 0.0 && Unit(rows[id].weight))
  {
    RowsInUnit(values, gross);
    hide Weight;
    assert InstrumentValues(WeightedRows(values, gross)) == values;
  }

  ghost predicate Balanced(t: Tables, gross: real)
  {
    && gross > 0.0 && Total(t.instruments) == gross && Total(Totals(t.companies)) + t.unresolved == gross
    && NonNegative(t.instruments) && NonNegative(Totals(t.companies)) && t.unresolved >= 0.0
    && (forall id :: id in t.companies ==> t.companies[id].direct >= 0.0 && t.companies[id].indirect >= 0.0)
    && (t.unresolved > 0.0 <==> t.reasons != {})
  }

  lemma BookFields(b: CurrencyBook, currency: string, t: Tables, profiles: map<string, Profile>, count: nat)
    requires IsBookOf(b, currency, t, profiles, count)
    ensures b.gross == Total(t.instruments) > 0.0 && t.companies.Keys <= profiles.Keys
    ensures b.instruments == WeightedRows(t.instruments, b.gross)
    ensures b.companies == CompanyRows(t.companies, profiles, b.gross)
    ensures b.unresolved == UnresolvedExposure(t.unresolved, Weight(t.unresolved, b.gross), t.reasons)
    ensures b.hhi == HhiOf(Totals(t.companies), t.unresolved, b.gross)
    ensures IsTopList(b.topCompanyIds, Totals(t.companies), b.topCompanyCount)
  {
    hide Weight;
    hide HhiOf;
    hide IsTopList;
    hide WeightedRows;
    hide CompanyRows;
    hide CategoryRows;
    hide Totals;
  }

  lemma BookViews(b: CurrencyBook, currency: string, t: Tables, profiles: map<string, Profile>, count: nat)
    requires IsBookOf(b, currency, t, profiles, count)
    ensures var totals := Totals(t.companies);
            && b.gross > 0.0
            && b.sectors == CategoryRows(
                 CategoryTable(totals, SingleTags(Sector, profiles), SECTOR_UNKNOWN, t.unresolved),
                 SECTOR_UNKNOWN, b.gross)
            && b.geographies == CategoryRows(
                 CategoryTable(totals, SingleTags(Geography, profiles), GEOGRAPHY_UNKNOWN, t.unresolved),
                 GEOGRAPHY_UNKNOWN, b.gross)
            && b.drivers == CategoryRows(
                 CategoryTable(totals, OverlappingTags(profiles), DRIVER_UNKNOWN, t.unresolved),
                 DRIVER_UNKNOWN, b.gross)
  {
    hide Weight;
    hide HhiOf;
    hide IsTopList;
    hide WeightedRows;
    hide CompanyRows;
    hide CategoryRows;
    hide CategoryTable;
    hide Totals;
  }

  lemma InstrumentsPart(t: Tables, gross: real)
    requires Balanced(t, gross)
    ensures gross > 0.0
    ensures var rows := WeightedRows(t.instruments, gross);
            && Total(InstrumentValues(rows)) == gross
            && (forall id :: id in rows ==> rows[id].value >= 0.0 && Unit(rows[id].weight))
  {
    InstrumentsAccepted(t.instruments, gross);
  }

  lemma CompaniesPart(t: Tables, profiles: map<string, Profile>, gross: real)
    requires Balanced(t, gross) && t.companies.Keys <= profiles.Keys
    ensures gross > 0.0
    ensures var rows := CompanyRows(t.companies, profiles, gross);
            && Total(CompanyValues(rows)) + t.unresolved == gross
            && (forall id :: id in rows ==> CompanyAccepted(rows[id]))
  {
    CompaniesAccepted(t.companies, profiles, gross);
  }

  lemma UnresolvedPart'(t: Tables, gross: real)
    requires Balanced(t, gross)
    ensures gross > 0.0 && t.unresolved >= 0.0 && Unit(Weight(t.unresolved, gross))
    ensures t.unresolved > 0.0 <==> t.reasons != {}
    ensures var hhi := HhiOf(Totals(t.companies), t.unresolved, gross);
            0.0 <= hhi.lower <= hhi.upper <= 1.0
  {
    TotalNonNegative(Totals(t.companies));
    WeightInUnit(t.unresolved, gross);
    BoundsInUnit(Totals(t.companies), t.unresolved, gross);
  }

  lemma ViewPart(d: Dimension, t: Tables, profiles: map<string, Profile>, gross: real)
    requires Balanced(t, gross) && t.companies.Keys <= profiles.Keys
    ensures gross > 0.0
    ensures var rows := CategoryRows(
              CategoryTable(Totals(t.companies), SingleTags(d, profiles), UnknownTag(d), t.unresolved),
              UnknownTag(d), gross);
            && Total(CategoryValues(rows)) == gross
            && (forall tag :: tag in rows ==> CategoryAccepted(rows[tag]))
  {
    AdditiveView(d, Totals(t.companies), profiles, t.unresolved, gross);
  }

  lemma DriversPart(t: Tables, profiles: map<string, Profile>, gross: real)
    requires Balanced(t, gross)
    ensures gross > 0.0
    ensures var table := CategoryTable(Totals(t.companies), OverlappingTags(profiles), DRIVER_UNKNOWN, t.unresolved);
            var rows := CategoryRows(table, DRIVER_UNKNOWN, gross);
            forall tag :: tag in rows ==> CategoryAccepted(rows[tag])
  {
    CategoryRowsAccepted(Totals(t.companies), OverlappingTags(profiles), DRIVER_UNKNOWN, t.unresolved, gross);
  }

  lemma TopListPart(top: seq<string>, t: Tables, profiles: map<string, Profile>, gross: real, count: nat)
    requires IsTopList(top, Totals(t.companies), count) && t.companies.Keys <= profiles.Keys && gross > 0.0
    ensures |top| <= count && forall id :: id in top ==> id in CompanyRows(t.companies, profiles, gross)
  {
    hide Weight;
  }

  lemma BalancedBookReconciles(b: CurrencyBook, currency: string, t: Tables, profiles: map<string, Profile>, count: nat)
    requires Balanced(t, b.gross) && IsBookOf(b, currency, t, profiles, count)
    ensures Reconciles(b)
  {
    hide Balanced;
    hide IsBookOf;
    hide InstrumentValues;
    hide CompanyValues;
    hide CategoryValues;
    hide WeightedRows;
    hide CompanyRows;
    hide CategoryRows;
    hide CategoryTable;
    hide SingleTags;
    hide OverlappingTags;
    hide Totals;
    hide Weight;
    hide HhiOf;
    hide IsTopList;
    hide Unit;
    hide CompanyAccepted;
    hide CategoryAccepted;
    BookFields(b, currency, t, profiles, count);
    BookViews(b, currency, t, profiles, count);
    InstrumentsPart(t, b.gross);
    CompaniesPart(t, profiles, b.gross);
    ViewPart(Sector, t, profiles, b.gross);
    ViewPart(Geography, t, profiles, b.gross);
    TopListPart(b.topCompanyIds, t, profiles, b.gross, b.topCompanyCount);
  }

  lemma BalancedBookRows(b: CurrencyBook, currency: string, t: Tables, profiles: map<string, Profile>, count: nat)
    requires Balanced(t, b.gross) && IsBookOf(b, currency, t, profiles, count)
    ensures RowsAccepted(b)
  {
    hide Balanced;
    hide IsBookOf;
    hide InstrumentValues;
    hide CompanyValues;
    hide CategoryValues;
    hide WeightedRows;
    hide CompanyRows;
    hide CategoryRows;
    hide CategoryTable;
    hide SingleTags;
    hide OverlappingTags;
    hide Totals;
    hide Weight;
    hide HhiOf;
    hide IsTopList;
    hide Unit;
    hide CompanyAccepted;
    hide CategoryAccepted;
    BookFields(b, currency, t, profiles, count);
    BookViews(b, currency, t, profiles, count);
    InstrumentsPart(t, b.gross);
    CompaniesPart(t, profiles, b.gross);
    UnresolvedPart'(t, b.gross);
    ViewPart(Sector, t, profiles, b.gross);
    ViewPart(Geography, t, profiles, b.gross);
    DriversPart(t, profiles, b.gross);
  }

  lemma BuildableIsBalanced(hs: seq<Holding>, snapshots: map<string, EtfSnapshot>, currency: string)
    requires Covered(hs, snapshots) && Buildable(TablesOf(hs, snapshots, currency))
    ensures var t := TablesOf(hs, snapshots, currency);
            Balanced(t, PositionValue(hs, currency)) && Total(t.instruments) == PositionValue(hs, currency)
  {
    var t := TablesOf(hs, snapshots, currency);
    Conservation(hs, snapshots, currency);
    TablesNonNegative(hs, snapshots, currency);
    if t.reasons == {} {
      UnresolvedIsExplained(hs, snapshots, currency);
    }
  }

  /** No model validator ever rejects a book whose tables are buildable; its gross is the held value. */
  lemma BuiltBooksAreAccepted(hs: seq<Holding>, snapshots: map<string, EtfSnapshot>, profiles: map<string, Profile>,
                              currency: string, book: CurrencyBook, count: nat)
    requires Covered(hs, snapshots)
    requires Buildable(TablesOf(hs, snapshots, currency))
    requires IsBookOf(book, currency, TablesOf(hs, snapshots, currency), profiles, count)
    ensures Accepted(book)
    ensures book.gross == PositionValue(hs, currency)
  {
    hide Covered;
    hide TablesOf;
    hide Buildable;
    hide IsBookOf;
    hide Balanced;
    hide Reconciles;
    hide RowsAccepted;
    var t := TablesOf(hs, snapshots, currency);
    BuildableIsBalanced(hs, snapshots, currency);
    BookGross(book, currency, t, profiles, count);
    BalancedBookReconciles(book, currency, t, profiles, count);
    BalancedBookRows(book, currency, t, profiles, count);
  }

  lemma BookGross(b: CurrencyBook, currency: string, t: Tables, profiles: map<string, Profile>, count: nat)
    requires IsBookOf(b, currency, t, profiles, count)
    ensures b.gross == Total(t.instruments)
  {
    BookFields(b, currency, t, profiles, count);
  }

  ghost function InstrumentWeights(rows: map<string, Weighted>): map<string, real>
  {
    map id | id in rows :: rows[id].weight
  }

  /** The recorded instrument weights of every built book sum to one within half a quantum for each instrument. */
  lemma BookWeightsSumToOne(b: CurrencyBook, currency: string, t: Tables, profiles: map<string, Profile>, count: nat)
    requires IsBookOf(b, currency, t, profiles, count)
    ensures -(|b.instruments| as real) * HALF_QUANTUM
         <= Total(InstrumentWeights(b.instruments)) - 1.0
         <= |b.instruments| as real * HALF_QUANTUM
  {
    hide IsBookOf;
    hide Weight;
    hide Totals;
    hide CompanyRows;
    hide HhiOf;
    hide IsTopList;
    hide Total;
    BookFields(b, currency, t, profiles, count);
    WeightsSumToOne(t.instruments, b.gross);
    assert InstrumentWeights(b.instruments) == Weights(t.instruments, b.gross);
    assert b.instruments.Keys == t.instruments.Keys;
    assert |b.instruments| == |b.instruments.Keys| == |t.instruments|;
  }

  // ---------------------------------------------------------------- when a build fails

  /**
   The build fails exactly when a currency has no value at all, or when it holds an instrument without
   look-through although nothing in it is unresolved: that instrument is priced at zero.
   */
  lemma BuildFailsIff(hs: seq<Holding>, snapshots: map<string, EtfSnapshot>, currency: string)
    requires Covered(hs, snapshots)
    ensures !Buildable(TablesOf(hs, snapshots, currency))
       <==> || PositionValue(hs, currency) == 0.0
            || (&& (exists h :: h in hs && h.currency == currency && h.instrument.Opaque?)
                && (forall h :: h in hs && h.currency == currency ==> UnresolvedPart(h, snapshots) == 0.0))
  {
    var t := TablesOf(hs, snapshots, currency);
    Conservation(hs, snapshots, currency);
    TablesNonNegative(hs, snapshots, currency);
    TotalNonNegative(t.instruments);
    UnresolvedZeroIff(hs, snapshots, currency);
    if t.unresolved == 0.0 {
      ReasonsWithoutValue(hs, snapshots, currency);
    }
  }

  lemma ReasonsWithoutValue(hs: seq<Holding>, snapshots: map<string, EtfSnapshot>, currency: string)
    requires Covered(hs, snapshots)
    requires forall h :: h in hs && h.currency == currency ==> UnresolvedPart(h, snapshots) == 0.0
    ensures Reasons(hs, snapshots, currency) != {} <==>
      exists h :: h in hs && h.currency == currency && h.instrument.Opaque?
  {
    if h :| h in hs && h.currency == currency && h.instrument.Opaque? {
      assert h.instrument.id + NO_LOOK_THROUGH in Reason(h, snapshots);
      assert h.instrument.id + NO_LOOK_THROUGH in Reasons(hs, snapshots, currency);
    }
  }

  lemma {:induction false} UnresolvedZeroIff(hs: seq<Holding>, snapshots: map<string, EtfSnapshot>, currency: string)
    requires Covered(hs, snapshots)
    ensures Unresolved(hs, snapshots, currency) == 0.0
       <==> forall h :: h in hs && h.currency == currency ==> UnresolvedPart(h, snapshots) == 0.0
  {
    if hs != [] {
      var init, last := hs[..|hs| - 1], hs[|hs| - 1];
      assert hs == init + [last];
      CoveredPrefix(init, last, snapshots);
      UnresolvedZeroIff(init, snapshots, currency);
      UnresolvedNonNegative(init, snapshots, currency);
      if last.instrument.EquityEtf? {
        PortionNonNegative(last.amount, snapshots[last.instrument.id].unresolvedWeight);
      }
      hide UnresolvedPart;
      assert forall h :: h in hs <==> h in init || h == last;
    }
  }

  /** One share worth 100 and one fund priced at zero: a valid state that the exposure engine refuses. */
  lemma ZeroPricedFundFails()
    ensures var hs := [Holding(ListedEquity("share", "company"), "EUR", 100.0), Holding(Opaque("fund"), "EUR", 0.0)];
            && Covered(hs, map[])
            && PositionValue(hs, "EUR") > 0.0
            && !Buildable(TablesOf(hs, map[], "EUR"))
  {
    var share, fund := Holding(ListedEquity("share", "company"), "EUR", 100.0), Holding(Opaque("fund"), "EUR", 0.0);
    var hs := [share, fund];
    assert hs[..1] == [share] && [share][..0] == [];
    assert fund in hs;
    BuildFailsIff(hs, map[], "EUR");
  }

  // ---------------------------------------------------------------- a currency that is not held

  lemma {:induction false} AbsentCurrency(hs: seq<Holding>, snapshots: map<string, EtfSnapshot>, currency: string)
    requires Covered(hs, snapshots) && currency !in Currencies(hs)
    ensures TablesOf(hs, snapshots, currency) == Tables(map[], map[], 0.0, {})
  {
    assert InstrumentIds(hs, currency) == {};
    assert CompanyIds(hs, snapshots, currency) == {};
    assert Reasons(hs, snapshots, currency) == {};
    AbsentUnresolved(hs, snapshots, currency);
  }

  lemma {:induction false} AbsentUnresolved(hs: seq<Holding>, snapshots: map<string, EtfSnapshot>, currency: string)
    requires Covered(hs, snapshots) && currency !in Currencies(hs)
    ensures Unresolved(hs, snapshots, currency) == 0.0
  {
    if hs != [] {
      var init, last := hs[..|hs| - 1], hs[|hs| - 1];
      assert hs == init + [last];
      assert last in hs && forall h :: h in init ==> h in hs;
      CoveredPrefix(init, last, snapshots);
      AbsentUnresolved(init, snapshots, currency);
    }
  }

  // ---------------------------------------------------------------- the hypothetical view

  /** A company's entry, empty when it has none. */
  function CompanyEntry(companies: map<string, CompanyAccumulator>, id: string): CompanyAccumulator
  {
    if id in companies then companies[id] else EMPTY_COMPANY
  }

  /** What one holding more makes of the tables of its own currency, entry by entry. */
  ghost predicate AddsLookThrough(after: Tables, before: Tables, h: Holding, snapshots: map<string, EtfSnapshot>)
    requires h.instrument.EquityEtf? ==> h.instrument.id in snapshots
  {
    && after.instruments == Bump(before.instruments, h.instrument.id, h.amount)
    && after.companies.Keys == before.companies.Keys + Touched(h, snapshots)
    && (forall id :: id in after.companies ==>
          after.companies[id] == Contribution(CompanyEntry(before.companies, id), h, snapshots, id))
    && after.unresolved == before.unresolved + UnresolvedPart(h, snapshots)
    && after.reasons == before.reasons + Reason(h, snapshots)
  }

  /**
   The hypothetical amount adds exactly its own look-through to its currency and leaves every other
   currency alone.
   */
  lemma HypotheticalDelta(positions: seq<Holding>, h: Holding, snapshots: map<string, EtfSnapshot>, currency: string)
    requires Covered(positions + [h], snapshots) && Covered(positions, snapshots)
    ensures h.instrument.EquityEtf? ==> h.instrument.id in snapshots
    ensures var before, after :=
      TablesOf(positions, snapshots, currency), TablesOf(positions + [h], snapshots, currency);
            if h.currency == currency then
              && AddsLookThrough(after, before, h, snapshots)
              && Total(after.instruments) == Total(before.instruments) + h.amount
              && Totals(after.companies) == TotalsAfter(Totals(before.companies), h, snapshots)
            else
              after == before
  {
    hide Covered;
    hide TablesOf;
    hide AddsLookThrough;
    hide TotalsAfter;
    hide Totals;
    hide Total;
    CoveredPrefix(positions, h, snapshots);
    if h.currency == currency {
      OwnCurrency(positions, h, snapshots);
      OwnTotals(positions, h, snapshots);
    } else {
      OtherTables(positions, h, snapshots, currency);
    }
  }

  lemma UnresolvedSnoc(positions: seq<Holding>, h: Holding, snapshots: map<string, EtfSnapshot>, currency: string)
    requires Covered(positions + [h], snapshots) && Covered(positions, snapshots)
    ensures h.instrument.EquityEtf? ==> h.instrument.id in snapshots
    ensures Unresolved(positions + [h], snapshots, currency)
         == Unresolved(positions, snapshots, currency)
            + if h.currency == currency then UnresolvedPart(h, snapshots) else 0.0
  {
    CoveredPrefix(positions, h, snapshots);
    var all := positions + [h];
    assert all[..|all| - 1] == positions && all[|all| - 1] == h;
    hide Covered;
  }

  lemma OwnCurrency(positions: seq<Holding>, h: Holding, snapshots: map<string, EtfSnapshot>)
    requires Covered(positions + [h], snapshots) && Covered(positions, snapshots)
    ensures h.instrument.EquityEtf? ==> h.instrument.id in snapshots
    ensures AddsLookThrough(TablesOf(positions + [h], snapshots, h.currency),
                            TablesOf(positions, snapshots, h.currency), h, snapshots)
  {
    hide Covered;
    hide Contribution;
    hide Touched;
    hide Reason;
    hide Reasons;
    hide Unresolved;
    hide UnresolvedPart;
    hide CompanyTable;
    hide InstrumentTable;
    hide Bump;
    CoveredPrefix(positions, h, snapshots);
    InstrumentsSnoc(positions, h, h.currency);
    CompaniesAfter(positions, h, snapshots);
    UnresolvedSnoc(positions, h, snapshots, h.currency);
    ReasonsSnoc(positions, h, snapshots, h.currency);
  }

  lemma OwnTotals(positions: seq<Holding>, h: Holding, snapshots: map<string, EtfSnapshot>)
    requires Covered(positions + [h], snapshots) && Covered(positions, snapshots)
    ensures h.instrument.EquityEtf? ==> h.instrument.id in snapshots
    ensures var before, after :=
      TablesOf(positions, snapshots, h.currency), TablesOf(positions + [h], snapshots, h.currency);
      && Total(after.instruments) == Total(before.instruments) + h.amount
      && Totals(after.companies) == TotalsAfter(Totals(before.companies), h, snapshots)
  {
    hide Covered;
    hide TotalsAfter;
    hide Totals;
    hide Total;
    hide CompanyTable;
    hide InstrumentTable;
    CoveredPrefix(positions, h, snapshots);
    InstrumentsSnoc(positions, h, h.currency);
    TotalBump(InstrumentTable(positions, h.currency), h.instrument.id, h.amount);
    TotalsSnoc(positions, h, snapshots, h.currency);
  }

  lemma OtherTables(positions: seq<Holding>, h: Holding, snapshots: map<string, EtfSnapshot>, currency: string)
    requires Covered(positions + [h], snapshots) && Covered(positions, snapshots)
    requires h.currency != currency
    ensures TablesOf(positions + [h], snapshots, currency) == TablesOf(positions, snapshots, currency)
  {
    hide Covered;
    hide Reasons;
    hide Unresolved;
    hide CompanyTable;
    hide InstrumentTable;
    InstrumentsSnoc(positions, h, currency);
    OtherCurrency(positions, h, snapshots, currency);
    UnresolvedSnoc(positions, h, snapshots, currency);
    ReasonsSnoc(positions, h, snapshots, currency);
  }

  lemma CompaniesAfter(positions: seq<Holding>, h: Holding, snapshots: map<string, EtfSnapshot>)
    requires Covered(positions + [h], snapshots) && Covered(positions, snapshots)
    ensures h.instrument.EquityEtf? ==> h.instrument.id in snapshots
    ensures var before := CompanyTable(positions, snapshots, h.currency);
      var after := CompanyTable(positions + [h], snapshots, h.currency);
      && after.Keys == before.Keys + Touched(h, snapshots)
      && forall id :: id in after ==> after[id] == Contribution(CompanyEntry(before, id), h, snapshots, id)
  {
    CoveredPrefix(positions, h, snapshots);
    CompanyIdsSnoc(positions, h, snapshots, h.currency);
    var all := positions + [h];
    assert all[..|all| - 1] == positions && all[|all| - 1] == h;
    forall id | id !in CompanyIds(positions, snapshots, h.currency)
      ensures CompanyOf(positions, snapshots, h.currency, id) == EMPTY_COMPANY
    {
      AbsentCompany(positions, snapshots, h.currency, id);
    }
    hide Contribution;
    hide Touched;
    hide CompanyIds;
    hide Covered;
  }

  lemma OtherCurrency(positions: seq<Holding>, h: Holding, snapshots: map<string, EtfSnapshot>, currency: string)
    requires Covered(positions + [h], snapshots) && Covered(positions, snapshots)
    requires h.currency != currency
    ensures CompanyTable(positions + [h], snapshots, currency) == CompanyTable(positions, snapshots, currency)
  {
    CompanyIdsSnoc(positions, h, snapshots, currency);
    assert (positions + [h])[..|positions + [h]| - 1] == positions;
    hide Covered;
  }
}
