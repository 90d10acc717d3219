/** `BuildPortfolioExposure`: fold the holdings, then derive one book per native currency. */
module ExposureEngine {
  import opened Sums
  import opened Quantise
  import opened Sequences
  import opened Sorting
  import opened LookThrough
  import opened ExposureTables
  import opened ExposureAccumulators
  import opened Categories
  import opened ExposureBook

  datatype ExposureError =
    | NonPositiveGross       // a ratio over a book whose positions are all priced at zero
    | ReasonsForNothing      // a zero unresolved value that still carries reasons

  datatype Result<+T> = Ok(value: T) | Err(error: ExposureError)

  /** When the ratio helper and the unresolved-exposure validator let a book through. */
  ghost predicate Buildable(t: Tables)
  {
    Total(t.instruments) > 0.0 && (t.unresolved > 0.0 || t.reasons == {})
  }

  /** Which of the two stops a book; a book without value is stopped first. */
  ghost predicate IsBuildError(error: ExposureError, t: Tables)
  {
    if Total(t.instruments) <= 0.0 then error == NonPositiveGross
    else error == ReasonsForNothing && t.unresolved <= 0.0 && t.reasons != {}
  }

  ghost predicate IsBookOf(book: CurrencyBook, currency: string, t: Tables, profiles: map<string, Profile>, count: nat)
  {
    && t.companies.Keys <= profiles.Keys
    && Total(t.instruments) > 0.0
    && IsTopList(book.topCompanyIds, Totals(t.companies), count)
    && book == BookOf(currency, t, profiles, book.topCompanyIds, count)
  }

  // ---------------------------------------------------------------- ranking

  lemma RankingIsTotal(totals: map<string, real>)
    ensures TotalPreorder(Ranking(totals))
  {
    StringOrder();
    var leq := Ranking(totals);
    forall a, b
      ensures leq(a, b) || leq(b, a)
    {
      assert StringLeq(a, b) || StringLeq(b, a);
    }
    forall a, b, c | leq(a, b) && leq(b, c)
      ensures leq(a, c)
    {
      assert StringLeq(a, b) && StringLeq(b, c) ==> StringLeq(a, c);
    }
  }

  lemma FirstAreTop(ranked: seq<string>, totals: map<string, real>, count: nat)
    requires NoRepeats(ranked) && (forall id :: id in ranked <==> id in totals) && |ranked| == |totals|
    requires Ordered(ranked, Ranking(totals))
    ensures IsTopList(ranked[..if |totals| < count then |totals| else count], totals, count)
  {
    var n := if |totals| < count then |totals| else count;
    var top := ranked[..n];
    forall a, b | a in top && b in totals && b !in top
      ensures RanksBefore(totals, a, b)
    {
      var i :| 0 <= i < n && ranked[i] == a;
      assert forall k :: 0 <= k < n ==> ranked[k] in top;
      var j :| 0 <= j < |ranked| && ranked[j] == b;
      assert Ranking(totals)(ranked[i], ranked[j]);
    }
  }

  lemma RankedHeadIsTop(ids: seq<string>, totals: map<string, real>, count: nat)
    requires NoRepeats(ids) && (forall id :: id in ids <==> id in totals) && |ids| == |totals|
    ensures |SortBy(ids, Ranking(totals))| == |totals|
    ensures IsTopList(SortBy(ids, Ranking(totals))[..if |totals| < count then |totals| else count], totals, count)
  {
    var ranked := SortBy(ids, Ranking(totals));
    RankingIsTotal(totals);
    SortOrdered(ids, Ranking(totals));
    SortKeeps(ids, Ranking(totals));
    SameItems(ids, ranked);
    KeepsNoRepeats(ids, ranked);
    FirstAreTop(ranked, totals, count);
  }

  lemma {:induction false} Enumerable(s: set<string>) returns (ids: seq<string>)
    ensures NoRepeats(ids) && |ids| == |s| && (forall id :: id in ids <==> id in s)
    decreases |s|
  {
    ids := [];
    if id :| id in s {
      var rest := Enumerable(s - {id});
      ids := rest + [id];
    }
  }

  /** Every book has a list of top companies. */
  lemma TopListExists(totals: map<string, real>, count: nat) returns (top: seq<string>)
    ensures IsTopList(top, totals, count)
  {
    hide NoRepeats;
    var ids := Enumerable(totals.Keys);
    RankedHeadIsTop(ids, totals, count);
    top := SortBy(ids, Ranking(totals))[..if |totals| < count then |totals| else count];
  }

  method TopCompanies(totals: map<string, real>, count: nat) returns (top: seq<string>)
    ensures IsTopList(top, totals, count)
  {
    var ids := Enumerate(totals.Keys);
    var ranked := SortBy(ids, Ranking(totals));
    RankedHeadIsTop(ids, totals, count);
    top := ranked[..if |totals| < count then |totals| else count];
  }

  // ---------------------------------------------------------------- one currency

  lemma SliceIsTable(m: map<Key, real>, hs: seq<Holding>, currency: string)
    requires InstrumentsMatch(m, hs)
    ensures Slice(m, currency) == InstrumentTable(hs, currency)
  {
    var left, right := Slice(m, currency), InstrumentTable(hs, currency);
    forall id
      ensures id in left <==> id in right
      ensures id in left ==> left[id] == right[id]
    {
      assert (currency, id) in m <==> id in InstrumentIds(hs, currency);
      assert Get(m, (currency, id)) == InstrumentValue(hs, currency, id);
    }
  }

  lemma SliceIsCompanies(m: map<Key, CompanyAccumulator>, hs: seq<Holding>, snapshots: map<string, EtfSnapshot>,
                         currency: string)
    requires Covered(hs, snapshots) && CompaniesMatch(m, hs, snapshots)
    ensures Slice(m, currency) == CompanyTable(hs, snapshots, currency)
  {
    hide Covered;
    var left, right := Slice(m, currency), CompanyTable(hs, snapshots, currency);
    forall id
      ensures id in left <==> id in right
      ensures id in left ==> left[id] == right[id]
    {
      assert (currency, id) in m <==> id in CompanyIds(hs, snapshots, currency);
      assert CompanyAt(m, (currency, id)) == CompanyOf(hs, snapshots, currency, id);
    }
  }

  method HhiBoundsOf(totals: map<string, real>, unresolved: real, gross: real) returns (hhi: HhiBounds)
    requires gross > 0.0
    ensures hhi == HhiOf(totals, unresolved, gross)
  {
    hide Ratio;
    hide Square;
    hide QuantizeRatio;
    var known := SumValues(SquaredShares(totals, gross));
    hhi := HhiBounds(QuantizeRatio(known), QuantizeRatio(known + Square(Ratio(unresolved, gross))));
  }

  /**
   Derive the book of one currency from its tables, or fail where a ratio or the unresolved-exposure
   validator raises.
   */
  method BuildCurrencyBook(currency: string, t: Tables, profiles: map<string, Profile>, count: nat)
    returns (r: Result<CurrencyBook>)
    requires t.companies.Keys <= profiles.Keys && t.unresolved >= 0.0
    requires forall id :: id in t.companies ==> ValidProfile(profiles[id])
    ensures r.Ok? <==> Buildable(t)
    ensures r.Err? ==> IsBuildError(r.error, t)
    ensures r.Ok? ==> IsBookOf(r.value, currency, t, profiles, count)
  {
    hide ValidProfile;
    hide CategoryTable;
    hide SingleTags;
    hide OverlappingTags;
    hide HhiOf;
    hide IsTopList;
    hide Weight;
    hide WeightedRows;
    hide CompanyRows;
    hide CategoryRows;
    var gross := SumValues(t.instruments);
    if gross <= 0.0 {
      return Err(NonPositiveGross);
    }
    if t.unresolved == 0.0 && t.reasons != {} {
      return Err(ReasonsForNothing);
    }
    var totals := Totals(t.companies);
    var sectors := CategoryExposures(Sector, totals, profiles, t.unresolved);
    var geographies := CategoryExposures(Geography, totals, profiles, t.unresolved);
    var drivers := DriverExposures(totals, profiles, t.unresolved);
    var top := TopCompanies(totals, count);
    var hhi := HhiBoundsOf(totals, t.unresolved, gross);
    r := Ok(CurrencyBook(
      currency, gross,
      WeightedRows(t.instruments, gross),
      CompanyRows(t.companies, profiles, gross),
      UnresolvedExposure(t.unresolved, Weight(t.unresolved, gross), t.reasons),
      CategoryRows(sectors, SECTOR_UNKNOWN, gross),
      CategoryRows(geographies, GEOGRAPHY_UNKNOWN, gross),
      CategoryRows(drivers, DRIVER_UNKNOWN, gross),
      top, count, hhi));
  }

  // ---------------------------------------------------------------- the whole snapshot

  function Currencies(hs: seq<Holding>): set<string>
  {
    set h | h in hs :: h.currency
  }

  /** Profiles cover every resolved company; validated before a snapshot is built. */
  ghost predicate Profiled(hs: seq<Holding>, snapshots: map<string, EtfSnapshot>, profiles: map<string, Profile>)
    requires Covered(hs, snapshots)
  {
    && (forall c :: CompanyIds(hs, snapshots, c) <= profiles.Keys)
    && (forall id :: id in profiles ==> ValidProfile(profiles[id]))
  }

  ghost predicate IsSnapshotOf(books: map<string, CurrencyBook>, hs: seq<Holding>, snapshots: map<string, EtfSnapshot>,
                               profiles: map<string, Profile>, count: nat)
    requires Covered(hs, snapshots)
  {
    && books.Keys == Currencies(hs)
    && (forall c :: c in books ==> IsBookOf(books[c], c, TablesOf(hs, snapshots, c), profiles, count))
  }

  /** The error is that of a held currency whose book cannot be built. */
  ghost predicate SomeBookFails(error: ExposureError, hs: seq<Holding>, snapshots: map<string, EtfSnapshot>)
    requires Covered(hs, snapshots)
  {
    exists c :: c in Currencies(hs) && !Buildable(TablesOf(hs, snapshots, c))
             && IsBuildError(error, TablesOf(hs, snapshots, c))
  }

  method AddAll(acc: Accumulators, hs: seq<Holding>)
    requires acc.Valid() && acc.added == [] && Covered(hs, acc.snapshots)
    modifies acc
    ensures acc.Valid() && acc.added == hs
  {
    var n := 0;
    while n < |hs|
      invariant 0 <= n <= |hs|
      invariant acc.Valid() && acc.added == hs[..n]
    {
      assert hs[..n] + [hs[n]] == hs[..n + 1];
      CoveredPart(hs, acc.snapshots, n + 1);
      acc.AddInstrumentValue(hs[n]);
      n := n + 1;
    }
    assert hs[..n] == hs;
  }

  lemma CoveredPart(hs: seq<Holding>, snapshots: map<string, EtfSnapshot>, n: nat)
    requires Covered(hs, snapshots) && n <= |hs|
    ensures Covered(hs[..n], snapshots)
  {
  }

  /** The accumulated tables of one currency. */
  method TablesFrom(acc: Accumulators, currency: string) returns (t: Tables)
    requires acc.Valid()
    ensures t == TablesOf(acc.added, acc.snapshots, currency)
  {
    SliceIsTable(acc.instrumentValues, acc.added, currency);
    SliceIsCompanies(acc.companyValues, acc.added, acc.snapshots, currency);
    hide InstrumentsMatch;
    hide CompaniesMatch;
    hide Covered;
    t := Tables(Slice(acc.instrumentValues, currency), Slice(acc.companyValues, currency),
                Get(acc.unresolvedValues, currency), ReasonsAt(acc.unresolvedReasons, currency));
  }

  /** The currencies that hold an instrument. */
  method HeldCurrencies(acc: Accumulators) returns (currencies: set<string>)
    requires acc.Valid()
    ensures currencies == Currencies(acc.added)
  {
    CurrenciesAccumulated(acc.instrumentValues, acc.added);
    currencies := set k | k in acc.instrumentValues :: k.0;
  }

  method BuildBook(acc: Accumulators, currency: string, profiles: map<string, Profile>, count: nat)
    returns (r: Result<CurrencyBook>)
    requires acc.Valid() && Profiled(acc.added, acc.snapshots, profiles)
    ensures var t := TablesOf(acc.added, acc.snapshots, currency);
            && (r.Ok? <==> Buildable(t))
            && (r.Err? ==> IsBuildError(r.error, t))
            && (r.Ok? ==> IsBookOf(r.value, currency, t, profiles, count))
  {
    hide Covered;
    hide InstrumentsMatch;
    hide CompaniesMatch;
    hide UnresolvedMatches;
    hide ReasonsMatch;
    hide TablesOf;
    hide IsBookOf;
    hide Buildable;
    hide IsBuildError;
    hide Profiled;
    var t := TablesFrom(acc, currency);
    TablesProfiled(acc.added, acc.snapshots, profiles, currency);
    r := BuildCurrencyBook(currency, t, profiles, count);
  }

  /** One book per currency; the first failing currency fails the snapshot. */
  method BuildBooks(acc: Accumulators, profiles: map<string, Profile>, count: nat)
    returns (r: Result<map<string, CurrencyBook>>)
    requires acc.Valid() && Profiled(acc.added, acc.snapshots, profiles)
    ensures r.Ok? <==> forall c :: c in Currencies(acc.added) ==> Buildable(TablesOf(acc.added, acc.snapshots, c))
    ensures r.Err? ==> SomeBookFails(r.error, acc.added, acc.snapshots)
    ensures r.Ok? ==> IsSnapshotOf(r.value, acc.added, acc.snapshots, profiles, count)
  {
    hide Covered;
    hide InstrumentsMatch;
    hide CompaniesMatch;
    hide UnresolvedMatches;
    hide ReasonsMatch;
    hide TablesOf;
    hide IsBookOf;
    hide Buildable;
    hide IsBuildError;
    hide Profiled;
    hide Currencies;
    var rest := HeldCurrencies(acc);
    var books: map<string, CurrencyBook> := map[];
    while rest != {}
      invariant rest <= Currencies(acc.added)
      invariant books.Keys == Currencies(acc.added) - rest
      invariant forall c :: c in books ==> Buildable(TablesOf(acc.added, acc.snapshots, c))
      invariant forall c :: c in books ==> IsBookOf(books[c], c, TablesOf(acc.added, acc.snapshots, c), profiles, count)
      decreases |rest|
    {
      var c :| c in rest;
      var book := BuildBook(acc, c, profiles, count);
      if book.Err? {
        return Err(book.error);
      }
      books, rest := books[c := book.value], rest - {c};
    }
    SnapshotComplete(books, acc.added, acc.snapshots, profiles, count);
    r := Ok(books);
  }

  lemma SnapshotComplete(books: map<string, CurrencyBook>, hs: seq<Holding>, snapshots: map<string, EtfSnapshot>,
                         profiles: map<string, Profile>, count: nat)
    requires Covered(hs, snapshots) && books.Keys == Currencies(hs)
    requires forall c :: c in books ==> IsBookOf(books[c], c, TablesOf(hs, snapshots, c), profiles, count)
    ensures IsSnapshotOf(books, hs, snapshots, profiles, count)
  {
  }

  lemma CurrenciesAccumulated(m: map<Key, real>, hs: seq<Holding>)
    requires InstrumentsMatch(m, hs)
    ensures (set k | k in m :: k.0) == Currencies(hs)
  {
    forall h | h in hs
      ensures h.currency in set k | k in m :: k.0
    {
      assert (h.currency, h.instrument.id) in m <==> h.instrument.id in InstrumentIds(hs, h.currency);
    }
    forall k | k in m
      ensures k.0 in Currencies(hs)
    {
      assert (k.0, k.1) in m <==> k.1 in InstrumentIds(hs, k.0);
    }
  }

  method BuildSnapshot(positions: seq<Holding>, hypothetical: Option<Holding>, snapshots: map<string, EtfSnapshot>,
                       profiles: map<string, Profile>, count: nat)
    returns (r: Result<map<string, CurrencyBook>>)
    requires Covered(Analysed(positions, hypothetical), snapshots)
    requires Profiled(Analysed(positions, hypothetical), snapshots, profiles)
    ensures var hs := Analysed(positions, hypothetical);
            && (r.Ok? <==> forall c :: c in Currencies(hs) ==> Buildable(TablesOf(hs, snapshots, c)))
            && (r.Err? ==> SomeBookFails(r.error, hs, snapshots))
            && (r.Ok? ==> IsSnapshotOf(r.value, hs, snapshots, profiles, count))
  {
    var acc := new Accumulators(snapshots);
    AddAll(acc, Analysed(positions, hypothetical));
    hide *;
    r := BuildBooks(acc, profiles, count);
  }

  /** The current view holds the positions; the hypothetical view one more amount. */
  function Analysed(positions: seq<Holding>, hypothetical: Option<Holding>): seq<Holding>
  {
    if hypothetical.Some? then positions + [hypothetical.value] else positions
  }

  lemma TablesProfiled(hs: seq<Holding>, snapshots: map<string, EtfSnapshot>, profiles: map<string, Profile>,
                       currency: string)
    requires Covered(hs, snapshots) && Profiled(hs, snapshots, profiles)
    ensures var t := TablesOf(hs, snapshots, currency);
            && t.companies.Keys <= profiles.Keys && t.unresolved >= 0.0
            && (forall id :: id in t.companies ==> ValidProfile(profiles[id]))
  {
    UnresolvedNonNegative(hs, snapshots, currency);
  }

  lemma {:induction false} UnresolvedNonNegative(hs: seq<Holding>, snapshots: map<string, EtfSnapshot>,
                                                 currency: string)
    requires Covered(hs, snapshots)
    ensures Unresolved(hs, snapshots, currency) >= 0.0
  {
    if hs != [] {
      var init, last := hs[..|hs| - 1], hs[|hs| - 1];
      assert hs == init + [last];
      CoveredPrefix(init, last, snapshots);
      UnresolvedNonNegative(init, snapshots, currency);
      if last.instrument.EquityEtf? {
        PortionNonNegative(last.amount, snapshots[last.instrument.id].unresolvedWeight);
      }
    }
  }
}
