/**
 Portfolio Fit of one capital unit: before and after weights, gross value and concentration.

 A prospective equity has no exposure view, so its effect is computed incrementally on the current
 book. The theorem at the end says that this fast form equals rebuilding the book with the candidate
 as one more holding and comparing the two books.
 */
module PortfolioFit {
  import opened Sums
  import opened Quantise
  import opened LookThrough
  import opened Categories
  import opened ExposureBook
  import opened ExposureEngine

  datatype FitDimension = InstrumentDim | CompanyDim | SectorDim | GeographyDim | DriverDim | UnresolvedDim

  type Component = (FitDimension, string)

  const UNRESOLVED_ID := "exposure:unresolved-company"

  datatype WeightDelta = WeightDelta(before: real, after: real)

  datatype FitEffect = FitEffect(
    grossBefore: real,
    grossAfter: real,
    hhiBefore: HhiBounds,
    hhiAfter: HhiBounds,
    weightDeltas: map<Component, WeightDelta>)

  // ---------------------------------------------------------------- reading a book

  function Gross(b: Option<CurrencyBook>): real
  {
    if b.None? then 0.0 else b.value.gross
  }

  function HhiIn(b: Option<CurrencyBook>): HhiBounds
  {
    if b.None? then HhiBounds(0.0, 0.0) else b.value.hhi
  }

  function RowAt(rows: map<string, Weighted>, id: string): Weighted
  {
    if id in rows then rows[id] else Weighted(0.0, 0.0)
  }

  function OfCompanies(rows: map<string, CompanyExposure>): map<string, Weighted>
  {
    map id | id in rows :: Weighted(rows[id].total, rows[id].weight)
  }

  function OfCategories(rows: map<string, CategoryExposure>): map<string, Weighted>
  {
    map t | t in rows :: Weighted(rows[t].value, rows[t].weight)
  }

  /** The rows of one dimension of a book, as value and weight by component id. */
  function RowsOf(b: CurrencyBook, d: FitDimension): map<string, Weighted>
  {
    match d
    case InstrumentDim => b.instruments
    case CompanyDim => OfCompanies(b.companies)
    case SectorDim => OfCategories(b.sectors)
    case GeographyDim => OfCategories(b.geographies)
    case DriverDim => OfCategories(b.drivers)
    case UnresolvedDim => map[UNRESOLVED_ID := Weighted(b.unresolved.value, b.unresolved.weight)]
  }

  function Lookup(b: Option<CurrencyBook>, k: Component): Weighted
  {
    if b.None? then Weighted(0.0, 0.0) else RowAt(RowsOf(b.value, k.0), k.1)
  }

  /** Which row of a book each component reads. */
  lemma LookupIs(b: CurrencyBook, id: string)
    ensures id in b.instruments ==> Lookup(Some(b), (InstrumentDim, id)) == b.instruments[id]
    ensures id in b.companies ==>
      Lookup(Some(b), (CompanyDim, id)) == Weighted(b.companies[id].total, b.companies[id].weight)
    ensures id in b.sectors ==>
      Lookup(Some(b), (SectorDim, id)) == Weighted(b.sectors[id].value, b.sectors[id].weight)
    ensures id in b.geographies ==>
      Lookup(Some(b), (GeographyDim, id)) == Weighted(b.geographies[id].value, b.geographies[id].weight)
    ensures id in b.drivers ==>
      Lookup(Some(b), (DriverDim, id)) == Weighted(b.drivers[id].value, b.drivers[id].weight)
    ensures Lookup(Some(b), (UnresolvedDim, "exposure:unresolved-company"))
         == Weighted(b.unresolved.value, b.unresolved.weight)
    ensures forall k :: Lookup(None, k) == Weighted(0.0, 0.0)
    ensures Gross(Some(b)) == b.gross && HhiIn(Some(b)) == b.hhi
    ensures Gross(None) == 0.0 && HhiIn(None) == HhiBounds(0.0, 0.0)
  {
  }

  /** Rows that are not there weigh nothing. */
  lemma LookupOutside(b: CurrencyBook, id: string)
    ensures id !in b.instruments ==> Lookup(Some(b), (InstrumentDim, id)) == Weighted(0.0, 0.0)
    ensures id !in b.companies ==> Lookup(Some(b), (CompanyDim, id)) == Weighted(0.0, 0.0)
    ensures id !in b.sectors ==> Lookup(Some(b), (SectorDim, id)) == Weighted(0.0, 0.0)
    ensures id !in b.geographies ==> Lookup(Some(b), (GeographyDim, id)) == Weighted(0.0, 0.0)
    ensures id !in b.drivers ==> Lookup(Some(b), (DriverDim, id)) == Weighted(0.0, 0.0)
  {
  }

  /** `_book_components` result: the book's rows, keyed by dimension and id. */
  ghost predicate AreComponents(values: map<Component, real>, weights: map<Component, real>, b: Option<CurrencyBook>)
  {
    && values.Keys == weights.Keys
    && (forall k :: k in values <==> b.Some? && k.1 in RowsOf(b.value, k.0))
    && (forall k :: Get(values, k) == Lookup(b, k).value)
    && (forall k :: Get(weights, k) == Lookup(b, k).weight)
  }

  const DIMENSIONS := [InstrumentDim, CompanyDim, SectorDim, GeographyDim, DriverDim, UnresolvedDim]

  lemma EveryDimension(d: FitDimension)
    ensures d in DIMENSIONS
  {
    match d
    case InstrumentDim => assert DIMENSIONS[0] == d;
    case CompanyDim => assert DIMENSIONS[1] == d;
    case SectorDim => assert DIMENSIONS[2] == d;
    case GeographyDim => assert DIMENSIONS[3] == d;
    case DriverDim => assert DIMENSIONS[4] == d;
    case UnresolvedDim => assert DIMENSIONS[5] == d;
  }

  /** The rows of a dimension are copied, except those still to do. */
  ghost predicate Copied(copy: map<Component, real>, original: map<Component, real>, d: FitDimension,
                         column: map<string, real>, rest: set<string>)
  {
    && (forall k :: k in copy <==> k in original || (k.0 == d && k.1 in column && k.1 !in rest))
    && (forall k :: Get(copy, k) == if k.0 == d && k.1 in column && k.1 !in rest then column[k.1] else Get(original, k))
  }

  lemma CopyRow(copy: map<Component, real>, original: map<Component, real>, d: FitDimension, column: map<string, real>,
                rest: set<string>, id: string)
    requires Copied(copy, original, d, column, rest) && id in rest && id in column
    ensures Copied(copy[(d, id) := column[id]], original, d, column, rest - {id})
  {
    var longer := copy[(d, id) := column[id]];
    forall k
      ensures k in longer <==> k in original || (k.0 == d && k.1 in column && k.1 !in rest - {id})
      ensures Get(longer, k) == if k.0 == d && k.1 in column && k.1 !in rest - {id} then column[k.1]
                                else Get(original, k)
    {
      assert k in copy <==> k in original || (k.0 == d && k.1 in column && k.1 !in rest);
      assert Get(copy, k) == if k.0 == d && k.1 in column && k.1 !in rest then column[k.1] else Get(original, k);
    }
  }

  ghost function ValueColumn(rows: map<string, Weighted>): map<string, real>
  {
    map id | id in rows :: rows[id].value
  }

  ghost function WeightColumn(rows: map<string, Weighted>): map<string, real>
  {
    map id | id in rows :: rows[id].weight
  }

  /** Copy the rows of one dimension. */
  method AddGroup(values: map<Component, real>, weights: map<Component, real>, d: FitDimension,
                  rows: map<string, Weighted>)
    returns (values': map<Component, real>, weights': map<Component, real>)
    requires values.Keys == weights.Keys && forall k :: k in values ==> k.0 != d
    ensures values'.Keys == weights'.Keys && GroupAdded(values', weights', values, weights, d, rows)
  {
    hide Copied;
    values', weights' := values, weights;
    var rest := rows.Keys;
    NothingCopied(values, d, ValueColumn(rows));
    NothingCopied(weights, d, WeightColumn(rows));
    assert ValueColumn(rows).Keys == rows.Keys && WeightColumn(rows).Keys == rows.Keys;
    while rest != {}
      invariant rest <= rows.Keys && values'.Keys == weights'.Keys
      invariant Copied(values', values, d, ValueColumn(rows), rest)
      invariant Copied(weights', weights, d, WeightColumn(rows), rest)
      decreases |rest|
    {
      var id :| id in rest;
      CopyRow(values', values, d, ValueColumn(rows), rest, id);
      CopyRow(weights', weights, d, WeightColumn(rows), rest, id);
      values', weights' := values'[(d, id) := rows[id].value], weights'[(d, id) := rows[id].weight];
      rest := rest - {id};
    }
    AllCopied(values', values, weights', weights, d, rows);
  }

  ghost predicate GroupAdded(values': map<Component, real>, weights': map<Component, real>,
                             values: map<Component, real>, weights: map<Component, real>, d: FitDimension,
                             rows: map<string, Weighted>)
  {
    && values'.Keys == weights'.Keys
    && (forall k :: k in values' <==> k in values || (k.0 == d && k.1 in rows))
    && (forall k :: Get(values', k) == if k.0 == d then RowAt(rows, k.1).value else Get(values, k))
    && (forall k :: Get(weights', k) == if k.0 == d then RowAt(rows, k.1).weight else Get(weights, k))
  }

  lemma NothingCopied(original: map<Component, real>, d: FitDimension, column: map<string, real>)
    ensures Copied(original, original, d, column, column.Keys)
  {
  }

  lemma CopiedAt(copy: map<Component, real>, original: map<Component, real>, d: FitDimension, column: map<string, real>,
                 k: Component)
    requires Copied(copy, original, d, column, {}) && forall j :: j in original ==> j.0 != d
    ensures k in copy <==> k in original || (k.0 == d && k.1 in column)
    ensures Get(copy, k) == if k.0 == d then Get(column, k.1) else Get(original, k)
  {
  }

  lemma ColumnAt(rows: map<string, Weighted>, id: string)
    ensures Get(ValueColumn(rows), id) == RowAt(rows, id).value && Get(WeightColumn(rows), id) == RowAt(rows, id).weight
  {
  }

  lemma AllCopied(values': map<Component, real>, values: map<Component, real>, weights': map<Component, real>,
                  weights: map<Component, real>, d: FitDimension, rows: map<string, Weighted>)
    requires values.Keys == weights.Keys && forall k :: k in values ==> k.0 != d
    requires Copied(values', values, d, ValueColumn(rows), {}) && Copied(weights', weights, d, WeightColumn(rows), {})
    requires values'.Keys == weights'.Keys
    ensures GroupAdded(values', weights', values, weights, d, rows)
  {
    hide Copied;
    hide Get;
    hide RowAt;
    forall k
      ensures k in values' <==> k in values || (k.0 == d && k.1 in rows)
      ensures Get(values', k) == if k.0 == d then RowAt(rows, k.1).value else Get(values, k)
      ensures Get(weights', k) == if k.0 == d then RowAt(rows, k.1).weight else Get(weights, k)
    {
      CopiedAt(values', values, d, ValueColumn(rows), k);
      CopiedAt(weights', weights, d, WeightColumn(rows), k);
      ColumnAt(rows, k.1);
    }
  }

  ghost predicate CopiedRows(values: map<Component, real>, weights: map<Component, real>, b: CurrencyBook,
                             done: set<FitDimension>)
  {
    && values.Keys == weights.Keys
    && (forall k :: k in values <==> k.0 in done && k.1 in RowsOf(b, k.0))
    && (forall k :: Get(values, k) == if k.0 in done then Lookup(Some(b), k).value else 0.0)
    && (forall k :: Get(weights, k) == if k.0 in done then Lookup(Some(b), k).weight else 0.0)
  }

  lemma GroupAddedAt(values': map<Component, real>, weights': map<Component, real>, values: map<Component, real>,
                     weights: map<Component, real>, d: FitDimension, rows: map<string, Weighted>, k: Component)
    requires GroupAdded(values', weights', values, weights, d, rows)
    ensures k in values' <==> k in values || (k.0 == d && k.1 in rows)
    ensures Get(values', k) == if k.0 == d then RowAt(rows, k.1).value else Get(values, k)
    ensures Get(weights', k) == if k.0 == d then RowAt(rows, k.1).weight else Get(weights, k)
  {
  }

  lemma CopiedRowsAt(values: map<Component, real>, weights: map<Component, real>, b: CurrencyBook,
                     done: set<FitDimension>, k: Component)
    requires CopiedRows(values, weights, b, done)
    ensures k in values <==> k.0 in done && k.1 in RowsOf(b, k.0)
    ensures Get(values, k) == if k.0 in done then Lookup(Some(b), k).value else 0.0
    ensures Get(weights, k) == if k.0 in done then Lookup(Some(b), k).weight else 0.0
  {
  }

  lemma CopyDimension(values': map<Component, real>, weights': map<Component, real>, values: map<Component, real>,
                      weights: map<Component, real>, b: CurrencyBook, done: set<FitDimension>, d: FitDimension)
    requires CopiedRows(values, weights, b, done)
    requires values'.Keys == weights'.Keys && GroupAdded(values', weights', values, weights, d, RowsOf(b, d))
    ensures CopiedRows(values', weights', b, done + {d})
  {
    hide GroupAdded;
    hide RowsOf;
    hide RowAt;
    hide Get;
    forall k
      ensures k in values' <==> k.0 in done + {d} && k.1 in RowsOf(b, k.0)
      ensures Get(values', k) == if k.0 in done + {d} then Lookup(Some(b), k).value else 0.0
      ensures Get(weights', k) == if k.0 in done + {d} then Lookup(Some(b), k).weight else 0.0
    {
      GroupAddedAt(values', weights', values, weights, d, RowsOf(b, d), k);
      CopiedRowsAt(values, weights, b, done, k);
    }
  }

  ghost function Dimensions(n: nat): set<FitDimension>
    requires n <= |DIMENSIONS|
  {
    set d | d in DIMENSIONS[..n]
  }

  lemma NextDimension(n: nat)
    requires n < |DIMENSIONS|
    ensures Dimensions(n + 1) == Dimensions(n) + {DIMENSIONS[n]} && DIMENSIONS[n] !in Dimensions(n)
  {
    assert DIMENSIONS[..n + 1] == DIMENSIONS[..n] + [DIMENSIONS[n]];
    assert forall i, j :: 0 <= i < j < |DIMENSIONS| ==> DIMENSIONS[i] != DIMENSIONS[j];
  }

  lemma AllDimensions(values: map<Component, real>, weights: map<Component, real>, b: CurrencyBook)
    requires CopiedRows(values, weights, b, Dimensions(|DIMENSIONS|))
    ensures AreComponents(values, weights, Some(b))
  {
    hide RowsOf;
    hide RowAt;
    hide Get;
    forall d
      ensures d in Dimensions(|DIMENSIONS|)
    {
      EveryDimension(d);
    }
  }

  method BookComponents(b: Option<CurrencyBook>) returns (values: map<Component, real>, weights: map<Component, real>)
    ensures AreComponents(values, weights, b)
  {
    values, weights := map[], map[];
    if b.None? {
      return;
    }
    values, weights := RowComponents(b.value);
  }

  method RowComponents(b: CurrencyBook) returns (values: map<Component, real>, weights: map<Component, real>)
    ensures AreComponents(values, weights, Some(b))
  {
    hide RowsOf;
    hide Lookup;
    hide GroupAdded;
    hide AreComponents;
    hide Dimensions;
    values, weights := map[], map[];
    NoDimension();
    for n := 0 to |DIMENSIONS|
      invariant CopiedRows(values, weights, b, Dimensions(n))
    {
      NextDimension(n);
      var d := DIMENSIONS[n];
      var values', weights' := AddGroup(values, weights, d, RowsOf(b, d));
      CopyDimension(values', weights', values, weights, b, Dimensions(n), d);
      values, weights := values', weights';
    }
    AllDimensions(values, weights, b);
  }

  lemma NoDimension()
    ensures Dimensions(0) == {}
  {
  }

  // ---------------------------------------------------------------- weight deltas

  function Deltas(before: map<Component, real>, after: map<Component, real>): map<Component, WeightDelta>
  {
    map k | k in before.Keys + after.Keys && Get(before, k) != Get(after, k) ::
      WeightDelta(Get(before, k), Get(after, k))
  }

  /** The effect read off two complete books. */
  ghost predicate IsDiff(effect: FitEffect, before: Option<CurrencyBook>, after: CurrencyBook)
  {
    && effect.grossBefore == Gross(before)
    && effect.grossAfter == after.gross
    && effect.hhiBefore == HhiIn(before)
    && effect.hhiAfter == after.hhi
    && (forall k :: k in effect.weightDeltas <==> Lookup(before, k).weight != Lookup(Some(after), k).weight)
    && (forall k :: k in effect.weightDeltas ==>
          effect.weightDeltas[k] == WeightDelta(Lookup(before, k).weight, Lookup(Some(after), k).weight))
  }

  /** `_build_verified_exposure_fit`: fails only if the after view does not hold exactly the capital unit more. */
  method BuildVerifiedFit(before: Option<CurrencyBook>, after: CurrencyBook, amount: real)
    returns (r: Option<FitEffect>)
    ensures r.Some? <==> Gross(before) + amount == after.gross
    ensures r.Some? ==> IsDiff(r.value, before, after)
  {
    hide Lookup;
    hide RowsOf;
    hide Deltas;
    if Gross(before) + amount != after.gross {
      return None;
    }
    var _, beforeWeights := BookComponents(before);
    var _, afterWeights := BookComponents(Some(after));
    forall k
      ensures k in Deltas(beforeWeights, afterWeights) <==> Lookup(before, k).weight != Lookup(Some(after), k).weight
      ensures k in Deltas(beforeWeights, afterWeights) ==>
        Deltas(beforeWeights, afterWeights)[k] == WeightDelta(Lookup(before, k).weight, Lookup(Some(after), k).weight)
    {
      DeltasAt(beforeWeights, afterWeights, k);
    }
    r := Some(FitEffect(Gross(before), after.gross, HhiIn(before), after.hhi, Deltas(beforeWeights, afterWeights)));
  }

  // ---------------------------------------------------------------- the incremental form

  function CandidateProfile(profile: Option<Profile>): Profile
  {
    if profile.None? then ALL_MISSING else profile.value
  }

  /** A candidate without a profile has no classification at all. */
  lemma UnprofiledIs(profile: Option<Profile>)
    ensures profile.Some? ==> CandidateProfile(profile) == profile.value
    ensures profile.None? ==> CandidateProfile(profile).sectorId.None? && CandidateProfile(profile).countryCode.None?
    ensures profile.None? ==> CandidateProfile(profile).driverIds == []
  {
  }

  /** The components a prospective equity adds to. */
  predicate Affects(candidateId: string, companyId: string, p: Profile, k: Component)
  {
    match k.0
    case InstrumentDim => k.1 == candidateId
    case CompanyDim => k.1 == companyId
    case SectorDim => k.1 == SectorTag(p)
    case GeographyDim => k.1 == GeographyTag(p)
    case DriverDim => k.1 in DriverTags(p)
    case UnresolvedDim => false
  }

  ghost predicate IsIncremented(after: map<Component, real>, values: map<Component, real>, candidateId: string,
                                companyId: string, p: Profile, amount: real)
  {
    && (forall k :: k in after <==> k in values || Affects(candidateId, companyId, p, k))
    && (forall k :: Get(after, k) == Get(values, k) + if Affects(candidateId, companyId, p, k) then amount else 0.0)
  }

  ghost predicate Adds(after: map<Component, real>, before: map<Component, real>, d: FitDimension, id: string,
                       amount: real)
  {
    && (forall k :: k in after <==> k in before || k == (d, id))
    && (forall k :: Get(after, k) == Get(before, k) + if k == (d, id) then amount else 0.0)
  }

  ghost predicate AddsDrivers(after: map<Component, real>, before: map<Component, real>, p: Profile, amount: real)
  {
    && (forall k :: k in after <==> k in before || (k.0 == DriverDim && k.1 in DriverTags(p)))
    && (forall k :: Get(after, k) == Get(before, k) + if k.0 == DriverDim && k.1 in DriverTags(p) then amount else 0.0)
  }

  /** The candidate's value increments, one component at a time. */
  method Increment(values: map<Component, real>, candidateId: string, companyId: string, profile: Option<Profile>,
                   amount: real)
    returns (after: map<Component, real>)
    requires ValidProfile(CandidateProfile(profile))
    ensures IsIncremented(after, values, candidateId, companyId, CandidateProfile(profile), amount)
  {
    hide Adds;
    hide AddsDrivers;
    hide IsIncremented;
    hide ValidProfile;
    var p := CandidateProfile(profile);
    var drivers := IncrementDrivers(values, p, amount);
    var instrument := IncrementOne(drivers, InstrumentDim, candidateId, amount);
    var company := IncrementOne(instrument, CompanyDim, companyId, amount);
    var sector := IncrementOne(company, SectorDim, SectorTag(p), amount);
    after := IncrementOne(sector, GeographyDim, GeographyTag(p), amount);
    IncrementsCombine(values, drivers, instrument, company, sector, after, candidateId, companyId, p, amount);
  }

  lemma IncrementsCombine(values: map<Component, real>, drivers: map<Component, real>, instrument: map<Component, real>,
                          company: map<Component, real>, sector: map<Component, real>, after: map<Component, real>,
                          candidateId: string, companyId: string, p: Profile, amount: real)
    requires AddsDrivers(drivers, values, p, amount)
    requires Adds(instrument, drivers, InstrumentDim, candidateId, amount)
    requires Adds(company, instrument, CompanyDim, companyId, amount)
    requires Adds(sector, company, SectorDim, SectorTag(p), amount)
    requires Adds(after, sector, GeographyDim, GeographyTag(p), amount)
    ensures IsIncremented(after, values, candidateId, companyId, p, amount)
  {
    hide Adds;
    hide AddsDrivers;
    hide Get;
    hide SectorTag;
    hide GeographyTag;
    hide DriverTags;
    forall k
      ensures k in after <==> k in values || Affects(candidateId, companyId, p, k)
      ensures Get(after, k) == Get(values, k) + if Affects(candidateId, companyId, p, k) then amount else 0.0
    {
      DriversAddedAt(drivers, values, p, amount, k);
      AddedAt(instrument, drivers, InstrumentDim, candidateId, amount, k);
      AddedAt(company, instrument, CompanyDim, companyId, amount, k);
      AddedAt(sector, company, SectorDim, SectorTag(p), amount, k);
      AddedAt(after, sector, GeographyDim, GeographyTag(p), amount, k);
    }
  }

  lemma AddedAt(after: map<Component, real>, before: map<Component, real>, d: FitDimension, id: string, amount: real,
                k: Component)
    requires Adds(after, before, d, id, amount)
    ensures k in after <==> k in before || k == (d, id)
    ensures Get(after, k) == Get(before, k) + if k == (d, id) then amount else 0.0
  {
  }

  lemma DriversAddedAt(after: map<Component, real>, before: map<Component, real>, p: Profile, amount: real,
                       k: Component)
    requires AddsDrivers(after, before, p, amount)
    ensures k in after <==> k in before || (k.0 == DriverDim && k.1 in DriverTags(p))
    ensures Get(after, k) == Get(before, k) + if k.0 == DriverDim && k.1 in DriverTags(p) then amount else 0.0
  {
  }

  /** `_increment`. */
  method IncrementOne(values: map<Component, real>, d: FitDimension, id: string, amount: real)
    returns (after: map<Component, real>)
    ensures Adds(after, values, d, id, amount)
  {
    after := Bump(values, (d, id), amount);
  }

  method IncrementDrivers(values: map<Component, real>, p: Profile, amount: real) returns (after: map<Component, real>)
    requires ValidProfile(p)
    ensures AddsDrivers(after, values, p, amount)
  {
    var drivers := if p.driverIds == [] then [DRIVER_UNKNOWN] else p.driverIds;
    after := values;
    var n := 0;
    while n < |drivers|
      invariant 0 <= n <= |drivers|
      invariant forall k :: k in after <==> k in values || (k.0 == DriverDim && k.1 in drivers[..n])
      invariant forall k ::
        Get(after, k) == Get(values, k) + if k.0 == DriverDim && k.1 in drivers[..n] then amount else 0.0
    {
      assert drivers[n] !in drivers[..n];
      assert drivers[..n + 1] == drivers[..n] + [drivers[n]];
      after := Bump(after, (DriverDim, drivers[n]), amount);
      n := n + 1;
    }
    assert drivers[..n] == drivers;
  }

  /** The company rows among the component values. */
  function CompanySlice(values: map<Component, real>): map<string, real>
  {
    map k | k in values && k.0 == CompanyDim :: k.1 := values[k]
  }

  function WeightsFromValues(values: map<Component, real>, gross: real): map<Component, real>
    requires gross > 0.0
  {
    map k | k in values :: Weight(values[k], gross)
  }

  method BuildCandidateFit(before: Option<CurrencyBook>, candidateId: string, companyId: string,
                           profile: Option<Profile>, amount: real)
    returns (effect: FitEffect)
    requires ValidProfile(CandidateProfile(profile))
    requires amount > 0.0 && Gross(before) >= 0.0
    ensures IsIncremental(effect, before, candidateId, companyId, CandidateProfile(profile), amount)
  {
    hide AreComponents;
    hide IsIncremented;
    hide IsIncremental;
    hide Deltas;
    hide WeightsFromValues;
    hide CompanySlice;
    hide HhiIn;
    hide HhiOf;
    hide Get;
    hide ValidProfile;
    var values, weights := BookComponents(before);
    var after := Increment(values, candidateId, companyId, profile, amount);
    var gross := Gross(before) + amount;
    var hhi := HhiBoundsOf(CompanySlice(after), Get(after, (UnresolvedDim, UNRESOLVED_ID)), gross);
    effect := FitEffect(Gross(before), gross, HhiIn(before), hhi, Deltas(weights, WeightsFromValues(after, gross)));
    IncrementalEffect(effect, before, candidateId, companyId, CandidateProfile(profile), amount,
                      values, weights, after);
  }

  /** What the incremental fit returns, one component at a time. */
  ghost predicate IsIncremental(effect: FitEffect, before: Option<CurrencyBook>, candidateId: string, companyId: string,
                                p: Profile, amount: real)
    requires amount > 0.0 && Gross(before) >= 0.0
  {
    && effect.grossBefore == Gross(before)
    && effect.grossAfter == Gross(before) + amount
    && effect.hhiBefore == HhiIn(before)
    && effect.hhiAfter ==
         HhiOf(CompaniesAfterFit(before, companyId, amount), Lookup(before, (UnresolvedDim, UNRESOLVED_ID)).value,
               Gross(before) + amount)
    && (forall k :: k in effect.weightDeltas <==>
          Lookup(before, k).weight != AfterWeight(before, candidateId, companyId, p, amount, k))
    && (forall k :: k in effect.weightDeltas ==>
          effect.weightDeltas[k]
          == WeightDelta(Lookup(before, k).weight, AfterWeight(before, candidateId, companyId, p, amount, k)))
  }

  ghost function AfterValue(before: Option<CurrencyBook>, candidateId: string, companyId: string, p: Profile,
                            amount: real, k: Component): real
  {
    Lookup(before, k).value + if Affects(candidateId, companyId, p, k) then amount else 0.0
  }

  ghost function AfterWeight(before: Option<CurrencyBook>, candidateId: string, companyId: string, p: Profile,
                             amount: real, k: Component): real
    requires amount > 0.0 && Gross(before) >= 0.0
  {
    Weight(AfterValue(before, candidateId, companyId, p, amount, k), Gross(before) + amount)
  }

  ghost function CompaniesAfterFit(before: Option<CurrencyBook>, companyId: string, amount: real): map<string, real>
  {
    Bump(if before.None? then map[] else map id | id in before.value.companies :: before.value.companies[id].total,
         companyId, amount)
  }

  lemma ZeroWeight(gross: real)
    requires gross > 0.0
    ensures Weight(0.0, gross) == 0.0
  {
    assert Ratio(0.0, gross) == 0.0;
    hide Ratio;
    QuantizeOnce(0.0);
  }

  lemma DeltasAt(before: map<Component, real>, after: map<Component, real>, k: Component)
    ensures k in Deltas(before, after) <==> Get(before, k) != Get(after, k)
    ensures k in Deltas(before, after) ==> Deltas(before, after)[k] == WeightDelta(Get(before, k), Get(after, k))
  {
  }

  lemma AfterWeightAt(before: Option<CurrencyBook>, candidateId: string, companyId: string, p: Profile, amount: real,
                      values: map<Component, real>, weights: map<Component, real>, after: map<Component, real>,
                      k: Component)
    requires amount > 0.0 && Gross(before) >= 0.0
    requires AreComponents(values, weights, before)
    requires IsIncremented(after, values, candidateId, companyId, p, amount)
    ensures Get(weights, k) == Lookup(before, k).weight
    ensures Get(after, k) == AfterValue(before, candidateId, companyId, p, amount, k)
    ensures Get(WeightsFromValues(after, Gross(before) + amount), k)
      == AfterWeight(before, candidateId, companyId, p, amount, k)
  {
    hide Weight;
    hide Affects;
    hide RowsOf;
    ZeroWeight(Gross(before) + amount);
    assert Get(after, k) == Get(values, k) + if Affects(candidateId, companyId, p, k) then amount else 0.0;
    assert Get(values, k) == Lookup(before, k).value;
  }

  lemma IncrementalEffect(effect: FitEffect, before: Option<CurrencyBook>, candidateId: string, companyId: string,
                          p: Profile, amount: real, values: map<Component, real>, weights: map<Component, real>,
                          after: map<Component, real>)
    requires amount > 0.0 && Gross(before) >= 0.0
    requires AreComponents(values, weights, before)
    requires IsIncremented(after, values, candidateId, companyId, p, amount)
    requires effect == FitEffect(
      Gross(before), Gross(before) + amount, HhiIn(before),
      HhiOf(CompanySlice(after), Get(after, (UnresolvedDim, UNRESOLVED_ID)), Gross(before) + amount),
      Deltas(weights, WeightsFromValues(after, Gross(before) + amount)))
    ensures IsIncremental(effect, before, candidateId, companyId, p, amount)
  {
    hide Weight;
    hide HhiOf;
    hide Affects;
    hide AreComponents;
    hide IsIncremented;
    hide Lookup;
    hide AfterWeight;
    hide Deltas;
    hide WeightsFromValues;
    hide CompanySlice;
    hide CompaniesAfterFit;
    SliceAfter(before, candidateId, companyId, p, amount, values, weights, after);
    UnresolvedUnaffected(before, candidateId, companyId, p, amount, values, weights, after);
    forall k
      ensures k in effect.weightDeltas <==>
        Lookup(before, k).weight != AfterWeight(before, candidateId, companyId, p, amount, k)
      ensures k in effect.weightDeltas ==>
          effect.weightDeltas[k]
          == WeightDelta(Lookup(before, k).weight, AfterWeight(before, candidateId, companyId, p, amount, k))
    {
      AfterWeightAt(before, candidateId, companyId, p, amount, values, weights, after, k);
      DeltasAt(weights, WeightsFromValues(after, Gross(before) + amount), k);
    }
  }

  lemma UnresolvedUnaffected(before: Option<CurrencyBook>, candidateId: string, companyId: string, p: Profile,
                             amount: real, values: map<Component, real>, weights: map<Component, real>,
                             after: map<Component, real>)
    requires AreComponents(values, weights, before)
    requires IsIncremented(after, values, candidateId, companyId, p, amount)
    ensures Get(after, (UnresolvedDim, UNRESOLVED_ID)) == Lookup(before, (UnresolvedDim, UNRESOLVED_ID)).value
  {
    hide Lookup;
  }

  lemma SliceAfter(before: Option<CurrencyBook>, candidateId: string, companyId: string, p: Profile, amount: real,
                   values: map<Component, real>, weights: map<Component, real>, after: map<Component, real>)
    requires AreComponents(values, weights, before)
    requires IsIncremented(after, values, candidateId, companyId, p, amount)
    ensures CompanySlice(after) == CompaniesAfterFit(before, companyId, amount)
  {
    hide SectorTag;
    hide GeographyTag;
    hide DriverTags;
    var left, right := CompanySlice(after), CompaniesAfterFit(before, companyId, amount);
    forall id
      ensures id in left <==> id in right
      ensures id in left ==> left[id] == right[id]
    {
      var k := (CompanyDim, id);
      assert k in after <==> id in left;
      assert k in values <==> before.Some? && id in before.value.companies;
      assert Get(after, k) == Get(values, k) + if Affects(candidateId, companyId, p, k) then amount else 0.0;
    }
  }
}
