/**
 What later prices say about a decision: price return, maximum drawdown and the realised scenario band.
 Instants are whole microseconds; `date` is the calendar date in the observation's own zone.
 */
module Learning {
  import opened LookThrough
  import opened Sums
  import opened Sequences
  import opened Sorting
  import opened Scenarios

  datatype Observation = Observation(instrumentId: string, price: real, currency: string, observedAt: int, date: int)

  datatype Band = NotAvailable | PreHorizon | BelowBear | BearToBase | BaseToBull | AboveBull

  // ---------------------------------------------------------------- drawdown

  ghost predicate Positive(path: seq<real>)
  {
    forall i :: 0 <= i < |path| ==> path[i] > 0.0
  }

  /** The return of buying at place i and looking at place j. */
  ghost function Move(path: seq<real>, i: nat, j: nat): real
    requires i <= j < |path| && Positive(path)
  {
    Ratio(path[j], path[i]) - 1.0
  }

  /** The least return over all pairs of a price and a later (or the same) price. */
  ghost predicate IsMaxDrawdown(m: real, path: seq<real>)
    requires Positive(path)
  {
    && (forall i, j :: 0 <= i <= j < |path| ==> m <= Move(path, i, j))
    && (exists i, j :: 0 <= i <= j < |path| && m == Move(path, i, j))
  }

  lemma RatioFalls(v: real, low: real, high: real)
    requires v > 0.0 && 0.0 < low <= high
    ensures 0.0 < Ratio(v, high) <= Ratio(v, low)
  {
    var r, q := Ratio(v, low), Ratio(v, high);
    assert r > 0.0 && q > 0.0;
    assert r * low == v && q * high == v;
    assert r * (high - low) >= 0.0;
    assert (r - q) * high >= 0.0;
  }

  lemma RatioToUnit(v: real, base: real)
    requires base > 0.0
    ensures Ratio(v, base) >= 1.0 <==> v >= base
    ensures Ratio(v, base) == 1.0 <==> v == base
  {
    assert Ratio(v, base) * base == v;
    assert Ratio(v, base) - 1.0 == Ratio(v - base, base) by {
      RatioOfSum(v - base, base, base);
      assert Ratio(base, base) == 1.0;
    }
  }

  /** The running peak, as a place on the path. */
  ghost predicate IsPeak(path: seq<real>, k: nat)
  {
    k < |path| && forall i :: 0 <= i < |path| ==> path[i] <= path[k]
  }

  /** Against any earlier price the newest price falls at most as far as against the peak. */
  lemma PeakIsWorst(path: seq<real>, k: nat, i: nat, last: nat)
    requires Positive(path) && IsPeak(path, k) && i <= last && k <= last && last < |path|
    ensures Move(path, k, last) <= Move(path, i, last)
  {
    RatioFalls(path[last], path[i], path[k]);
  }

  /** One loop iteration against the all-pairs definition. */
  lemma DrawdownStep(path: seq<real>, value: real, m: real, k: nat)
    requires Positive(path) && Positive(path + [value])
    requires IsMaxDrawdown(m, path) && IsPeak(path + [value], k)
    ensures var d := Move(path + [value], k, |path|); IsMaxDrawdown(if m < d then m else d, path + [value])
  {
    hide Ratio;
    var longer := path + [value];
    var d := Move(longer, k, |path|);
    var least := if m < d then m else d;
    forall i, j | 0 <= i <= j < |longer|
      ensures least <= Move(longer, i, j)
    {
      if j < |path| {
        assert Move(longer, i, j) == Move(path, i, j);
      } else {
        PeakIsWorst(longer, k, i, j);
      }
    }
    var i, j :| 0 <= i <= j < |path| && m == Move(path, i, j);
    assert m == Move(longer, i, j);
  }

  /** The running-peak loop equals the all-pairs minimum over the path that starts at the decision price. */
  method MaxDrawdown(start: real, prices: seq<real>) returns (maxDrawdown: real)
    requires start > 0.0 && Positive(prices)
    ensures Positive([start] + prices) && IsMaxDrawdown(maxDrawdown, [start] + prices)
  {
    hide Ratio;
    var peak := start;
    maxDrawdown := 0.0;
    ghost var path := [start];
    ghost var k: nat := 0;
    RatioToUnit(start, start);
    assert Positive(path) && Move(path, 0, 0) == 0.0;
    var n: nat := 0;
    while n < |prices|
      invariant 0 <= n <= |prices| && path == [start] + prices[..n]
      invariant IsPeak(path, k) && path[k] == peak
      invariant Positive(path) && IsMaxDrawdown(maxDrawdown, path)
    {
      var value := prices[n];
      ghost var before := path;
      path := path + [value];
      assert path == [start] + prices[..n + 1];
      if peak < value {
        peak, k := value, |before|;
      }
      var drawdown := Ratio(value, peak) - 1.0;
      DrawdownStep(before, value, maxDrawdown, k);
      if drawdown < maxDrawdown {
        maxDrawdown := drawdown;
      }
      n := n + 1;
    }
    assert path == [start] + prices;
  }

  ghost predicate NeverFalls(path: seq<real>)
  {
    forall i, j :: 0 <= i <= j < |path| ==> path[i] <= path[j]
  }

  /** In (-1, 0], and 0 exactly when no later price is below an earlier one. */
  lemma DrawdownRange(m: real, path: seq<real>)
    requires path != [] && Positive(path) && IsMaxDrawdown(m, path)
    ensures -1.0 < m <= 0.0
    ensures m == 0.0 <==> NeverFalls(path)
  {
    hide Ratio;
    RatioToUnit(path[0], path[0]);
    assert m <= Move(path, 0, 0);
    var i, j :| 0 <= i <= j < |path| && m == Move(path, i, j);
    RatioFalls(path[j], path[i], path[i]);
    RatioToUnit(path[j], path[i]);
    if m == 0.0 {
      forall a, b | 0 <= a <= b < |path|
        ensures path[a] <= path[b]
      {
        assert m <= Move(path, a, b);
        RatioToUnit(path[b], path[a]);
      }
    }
  }

  /** The drawdown is at least as deep as the final loss, and never shrinks when a price is appended. */
  lemma DrawdownCoversLoss(start: real, prices: seq<real>, m: real)
    requires start > 0.0 && prices != [] && Positive([start] + prices) && IsMaxDrawdown(m, [start] + prices)
    ensures m <= Ratio(prices[|prices| - 1], start) - 1.0
  {
    hide Ratio;
    assert m <= Move([start] + prices, 0, |prices|);
  }

  lemma DrawdownOnlyDeepens(path: seq<real>, more: seq<real>, m: real, n: real)
    requires Positive(path) && Positive(path + more) && IsMaxDrawdown(m, path) && IsMaxDrawdown(n, path + more)
    ensures n <= m
  {
    hide Ratio;
    var i, j :| 0 <= i <= j < |path| && m == Move(path, i, j);
    assert Move(path + more, i, j) == m;
  }

  // ---------------------------------------------------------------- the price path

  predicate Earlier(a: Observation, b: Observation)
  {
    a.observedAt <= b.observedAt
  }

  /** The observations of one instrument, by time. */
  function PathOf(observations: seq<Observation>, instrumentId: string): seq<Observation>
  {
    SortBy(Keep(observations, (o: Observation) => o.instrumentId == instrumentId), Earlier)
  }

  /** At most one observation for an instrument and an instant. */
  predicate NoDuplicates(observations: seq<Observation>)
  {
    forall i, j :: 0 <= i < j < |observations| ==>
      observations[i].instrumentId != observations[j].instrumentId ||
        observations[i].observedAt != observations[j].observedAt
  }

  /** Shuffling the supplied observations changes no path, and with it no return and no drawdown. */
  lemma PathIsUnordered(a: seq<Observation>, b: seq<Observation>, instrumentId: string)
    requires multiset(a) == multiset(b) && NoDuplicates(a)
    ensures PathOf(a, instrumentId) == PathOf(b, instrumentId)
  {
    var p := (o: Observation) => o.instrumentId == instrumentId;
    KeepSameItems(a, b, p);
    assert KeysDistinct(Keep(a, p), Earlier) by {
      KeepPairs(a, p, Earlier);
    }
    DistinctTiesAreEqual(Keep(a, p), Earlier);
    SortIsCanonical(Keep(a, p), Keep(b, p), Earlier);
  }

  lemma {:induction false} KeepPairs(a: seq<Observation>, p: Observation -> bool,
                                     leq: (Observation, Observation) -> bool)
    requires forall i, j :: 0 <= i < j < |a| && p(a[i]) && p(a[j]) ==> !(leq(a[i], a[j]) && leq(a[j], a[i]))
    ensures KeysDistinct(Keep(a, p), leq)
  {
    if a != [] {
      KeepPairs(a[1..], p, leq);
      KeepIsFilter(a[1..], p);
      forall x | p(a[0]) && x in Keep(a[1..], p)
        ensures !(leq(a[0], x) && leq(x, a[0]))
      {
        var j :| 0 <= j < |a[1..]| && a[1..][j] == x;
        assert a[1 + j] == x;
      }
    }
  }

  function Prices(observations: seq<Observation>): seq<real>
  {
    seq(|observations|, i requires 0 <= i < |observations| => observations[i].price)
  }

  datatype Score = Score(priceReturn: real, maxDrawdown: real)

  /** A path holds exactly the instrument's own observations, earliest first. */
  lemma OnPath(observations: seq<Observation>, instrumentId: string)
    ensures Ordered(PathOf(observations, instrumentId), Earlier)
    ensures var path := PathOf(observations, instrumentId);
      forall i, j :: 0 <= i < j < |path| ==> path[i].observedAt <= path[j].observedAt
    ensures forall o :: o in PathOf(observations, instrumentId) <==> o in observations && o.instrumentId == instrumentId
  {
    hide SortBy;
    hide Keep;
    var p := (o: Observation) => o.instrumentId == instrumentId;
    KeepIsFilter(observations, p);
    SortOrdered(Keep(observations, p), Earlier);
    SortKeeps(Keep(observations, p), Earlier);
    SameItems(Keep(observations, p), PathOf(observations, instrumentId));
  }

  lemma PathKeepsPrices(observations: seq<Observation>, instrumentId: string)
    requires forall o :: o in observations ==> o.price > 0.0
    ensures Positive(Prices(PathOf(observations, instrumentId)))
    ensures PathOf(observations, instrumentId) == [] <==>
      forall o :: o in observations ==> o.instrumentId != instrumentId
  {
    hide PathOf;
    OnPath(observations, instrumentId);
    var path := PathOf(observations, instrumentId);
    forall i | 0 <= i < |path|
      ensures Prices(path)[i] > 0.0
    {
      assert path[i] in path;
    }
    if path != [] {
      assert path[0] in path;
    }
  }

  /**
   Score one comparison leg; None when no later price exists for it. The drawdown always meets the
   metric's bounds.
   */
  method ScoreLeg(reference: real, observations: seq<Observation>, instrumentId: string) returns (r: Option<Score>)
    requires reference > 0.0 && forall o :: o in observations ==> o.price > 0.0
    ensures r.None? <==> forall o :: o in observations ==> o.instrumentId != instrumentId
    ensures r.Some? ==>
      var prices := Prices(PathOf(observations, instrumentId));
      && prices != [] && Positive([reference] + prices)
      && r.value.priceReturn == Ratio(prices[|prices| - 1], reference) - 1.0
      && IsMaxDrawdown(r.value.maxDrawdown, [reference] + prices)
    ensures r.Some? ==> -1.0 < r.value.maxDrawdown <= 0.0 && r.value.maxDrawdown <= r.value.priceReturn
  {
    hide Ratio;
    hide PathOf;
    hide Positive;
    PathKeepsPrices(observations, instrumentId);
    var path := PathOf(observations, instrumentId);
    if path == [] {
      return None;
    }
    var prices := Prices(path);
    var drawdown := MaxDrawdown(reference, prices);
    DrawdownRange(drawdown, [reference] + prices);
    DrawdownCoversLoss(reference, prices, drawdown);
    r := Some(Score(Ratio(prices[|prices| - 1], reference) - 1.0, drawdown));
  }

  // ---------------------------------------------------------------- all legs of one case

  datatype Leg = Leg(instrumentId: string, reference: real)

  /** The anchors of a decision; every reference price is in the one currency. */
  datatype Case = Case(target: Leg, benchmark: Leg, source: Option<Leg>, currency: string, horizonDate: int)

  datatype Metrics = Metrics(
    targetReturn: real,
    benchmarkReturn: real,
    excess: real,
    targetDrawdown: real,
    sourceReturn: Option<real>,
    excessOverSource: Option<real>,
    horizonReached: bool)

  datatype LegError = UnrelatedInstrument | MissingLeg | CurrencyChanged | DifferentEndDates

  datatype Evaluation = Evaluated(metrics: Metrics) | Refused(error: LegError)

  function LegIds(c: Case): set<string>
  {
    {c.target.instrumentId, c.benchmark.instrumentId} + if c.source.Some? then {c.source.value.instrumentId} else {}
  }

  function ObservedIds(observations: seq<Observation>): set<string>
  {
    set o | o in observations :: o.instrumentId
  }

  predicate ValidCase(c: Case)
  {
    c.target.reference > 0.0 && c.benchmark.reference > 0.0 && (c.source.Some? ==> c.source.value.reference > 0.0)
  }

  predicate PositivePrices(observations: seq<Observation>)
  {
    forall o :: o in observations ==> o.price > 0.0
  }

  /** The last observation of a leg. */
  function Latest(observations: seq<Observation>, instrumentId: string): Option<Observation>
  {
    var path := PathOf(observations, instrumentId);
    if path == [] then None else Some(path[|path| - 1])
  }

  lemma LatestIsLast(observations: seq<Observation>, instrumentId: string)
    ensures var last := Latest(observations, instrumentId);
      && (last.None? <==> instrumentId !in ObservedIds(observations))
      && (last.Some? ==> last.value in observations && last.value.instrumentId == instrumentId)
      && (forall o :: last.Some? && o in observations && o.instrumentId == instrumentId ==>
            o.observedAt <= last.value.observedAt)
  {
    hide PathOf;
    OnPath(observations, instrumentId);
    var path := PathOf(observations, instrumentId);
    forall o | o in observations && o.instrumentId == instrumentId
      ensures path != [] && Earlier(o, path[|path| - 1])
    {
      var i :| 0 <= i < |path| && path[i] == o;
    }
    if path != [] {
      assert path[|path| - 1] in path;
    }
  }

  ghost predicate EndOn(c: Case, observations: seq<Observation>, date: int)
  {
    forall id :: id in LegIds(c) ==> Latest(observations, id).Some? && Latest(observations, id).value.date == date
  }

  /** Only the case's own legs, all of them, in its currency, and all ending on one date. */
  ghost predicate Comparable(c: Case, observations: seq<Observation>)
  {
    && ObservedIds(observations) == LegIds(c)
    && (forall o :: o in observations ==> o.currency == c.currency)
    && (exists date :: EndOn(c, observations, date))
  }

  /** Which check refuses first. */
  ghost predicate IsLegError(e: LegError, c: Case, observations: seq<Observation>)
  {
    if !(ObservedIds(observations) <= LegIds(c)) then e == UnrelatedInstrument
    else if ObservedIds(observations) != LegIds(c) then e == MissingLeg
    else if exists o :: o in observations && o.currency != c.currency then e == CurrencyChanged
    else e == DifferentEndDates && !Comparable(c, observations)
  }

  ghost predicate IsReturn(r: real, leg: Leg, observations: seq<Observation>)
  {
    var last := Latest(observations, leg.instrumentId);
    leg.reference > 0.0 && last.Some? && r == Ratio(last.value.price, leg.reference) - 1.0
  }

  ghost predicate AreMetrics(m: Metrics, c: Case, observations: seq<Observation>)
  {
    && IsReturn(m.targetReturn, c.target, observations)
    && IsReturn(m.benchmarkReturn, c.benchmark, observations)
    && m.excess == m.targetReturn - m.benchmarkReturn
    && (m.sourceReturn.Some? <==> c.source.Some?) && (m.excessOverSource.Some? <==> c.source.Some?)
    && (c.source.Some? ==> IsReturn(m.sourceReturn.value, c.source.value, observations))
    && (c.source.Some? ==> m.excessOverSource.value == m.targetReturn - m.sourceReturn.value)
    && IsTargetDrawdown(m.targetDrawdown, c, observations)
    && (exists date :: EndOn(c, observations, date) && (m.horizonReached <==> date >= c.horizonDate))
  }

  ghost predicate IsTargetDrawdown(m: real, c: Case, observations: seq<Observation>)
  {
    var path := [c.target.reference] + Prices(PathOf(observations, c.target.instrumentId));
    Positive(path) && IsMaxDrawdown(m, path)
  }

  /** The newest price of an instrument: nothing of it is observed later. */
  ghost predicate IsNewest(o: Observation, observations: seq<Observation>, instrumentId: string)
  {
    && o in observations && o.instrumentId == instrumentId
    && forall q :: q in observations && q.instrumentId == instrumentId ==> q.observedAt <= o.observedAt
  }

  lemma NewestIsLatest(o: Observation, observations: seq<Observation>, instrumentId: string)
    requires NoDuplicates(observations)
    ensures IsNewest(o, observations, instrumentId) <==> Latest(observations, instrumentId) == Some(o)
  {
    hide Latest;
    LatestIsLast(observations, instrumentId);
    var last := Latest(observations, instrumentId);
    if IsNewest(o, observations, instrumentId) {
      assert o.instrumentId in ObservedIds(observations);
      var i :| 0 <= i < |observations| && observations[i] == o;
      var j :| 0 <= j < |observations| && observations[j] == last.value;
    }
  }

  /** A return compares the newest price with the reference, and no other price. */
  lemma ReturnIsFromNewest(r: real, leg: Leg, observations: seq<Observation>)
    requires NoDuplicates(observations) && leg.reference > 0.0
    ensures IsReturn(r, leg, observations) <==>
      exists o :: IsNewest(o, observations, leg.instrumentId) && (r + 1.0) * leg.reference == o.price
  {
    hide Latest;
    hide NoDuplicates;
    forall o
      ensures IsNewest(o, observations, leg.instrumentId) <==> Latest(observations, leg.instrumentId) == Some(o)
    {
      NewestIsLatest(o, observations, leg.instrumentId);
    }
    hide IsNewest;
    var last := Latest(observations, leg.instrumentId);
    if last.Some? {
      RatioIs(last.value.price, leg.reference, r + 1.0);
    }
    hide Ratio;
  }

  lemma RatioIs(v: real, gross: real, q: real)
    requires gross > 0.0
    ensures Ratio(v, gross) == q <==> q * gross == v
  {
    assert Ratio(v, gross) * gross == v;
    hide Ratio;
    if q * gross == v {
      assert (Ratio(v, gross) - q) * gross == 0.0;
    }
  }

  method LegReturn(leg: Leg, observations: seq<Observation>) returns (r: real)
    requires leg.reference > 0.0 && leg.instrumentId in ObservedIds(observations)
    ensures IsReturn(r, leg, observations)
  {
    hide Ratio;
    LatestIsLast(observations, leg.instrumentId);
    r := Ratio(Latest(observations, leg.instrumentId).value.price, leg.reference) - 1.0;
  }

  /** The date the legs end on, if it is one. */
  method CommonEndDate(c: Case, observations: seq<Observation>) returns (r: Option<int>)
    requires ObservedIds(observations) == LegIds(c)
    ensures r.Some? ==> EndOn(c, observations, r.value)
    ensures r.None? ==> forall date :: !EndOn(c, observations, date)
  {
    hide Latest;
    forall id
      ensures id in LegIds(c) ==> Latest(observations, id).Some?
    {
      LatestIsLast(observations, id);
    }
    var date := Latest(observations, c.target.instrumentId).value.date;
    if forall id :: id in LegIds(c) ==> Latest(observations, id).value.date == date {
      return Some(date);
    }
    r := None;
  }

  /** Evaluate a case at later prices, or refuse with the first failing check. */
  method Evaluate(c: Case, observations: seq<Observation>) returns (r: Evaluation)
    requires ValidCase(c) && PositivePrices(observations)
    ensures r.Evaluated? <==> Comparable(c, observations)
    ensures r.Refused? ==> IsLegError(r.error, c, observations)
    ensures r.Evaluated? ==> AreMetrics(r.metrics, c, observations)
    ensures r.Evaluated? ==> -1.0 < r.metrics.targetDrawdown <= 0.0
    ensures r.Evaluated? ==> r.metrics.targetDrawdown <= r.metrics.targetReturn
  {
    hide Ratio;
    hide PathOf;
    hide EndOn;
    hide IsMaxDrawdown;
    if !(ObservedIds(observations) <= LegIds(c)) {
      return Refused(UnrelatedInstrument);
    }
    if ObservedIds(observations) != LegIds(c) {
      return Refused(MissingLeg);
    }
    if exists o :: o in observations && o.currency != c.currency {
      return Refused(CurrencyChanged);
    }
    var date := CommonEndDate(c, observations);
    if date.None? {
      return Refused(DifferentEndDates);
    }
    var target := ScoreTarget(c, observations);
    var benchmark := LegReturn(c.benchmark, observations);
    var source: Option<real> := None;
    var excess: Option<real> := None;
    if c.source.Some? {
      var sourceReturn := LegReturn(c.source.value, observations);
      source, excess := Some(sourceReturn), Some(target.priceReturn - sourceReturn);
    }
    hide IsReturn;
    hide IsTargetDrawdown;
    r := Evaluated(Metrics(target.priceReturn, benchmark, target.priceReturn - benchmark, target.maxDrawdown,
                           source, excess, date.value >= c.horizonDate));
  }

  method ScoreTarget(c: Case, observations: seq<Observation>) returns (score: Score)
    requires ValidCase(c) && PositivePrices(observations) && c.target.instrumentId in ObservedIds(observations)
    ensures IsReturn(score.priceReturn, c.target, observations)
    ensures IsTargetDrawdown(score.maxDrawdown, c, observations)
    ensures -1.0 < score.maxDrawdown <= 0.0 && score.maxDrawdown <= score.priceReturn
  {
    hide Ratio;
    hide PathOf;
    hide IsMaxDrawdown;
    var r := ScoreLeg(c.target.reference, observations, c.target.instrumentId);
    score := r.value;
  }

  lemma LatestIsUnordered(a: seq<Observation>, b: seq<Observation>, instrumentId: string)
    requires multiset(a) == multiset(b) && NoDuplicates(a)
    ensures Latest(a, instrumentId) == Latest(b, instrumentId)
  {
    PathIsUnordered(a, b, instrumentId);
  }

  lemma EndIsUnordered(c: Case, a: seq<Observation>, b: seq<Observation>, date: int)
    requires multiset(a) == multiset(b) && NoDuplicates(a)
    ensures EndOn(c, a, date) <==> EndOn(c, b, date)
  {
    hide Latest;
    hide LegIds;
    forall id
      ensures Latest(a, id) == Latest(b, id)
    {
      LatestIsUnordered(a, b, id);
    }
  }

  lemma ComparableIsUnordered(c: Case, a: seq<Observation>, b: seq<Observation>)
    requires multiset(a) == multiset(b) && NoDuplicates(a)
    ensures Comparable(c, a) <==> Comparable(c, b)
  {
    hide EndOn;
    hide LegIds;
    SameItems(a, b);
    forall date
      ensures EndOn(c, a, date) <==> EndOn(c, b, date)
    {
      EndIsUnordered(c, a, b, date);
    }
    assert ObservedIds(a) == ObservedIds(b);
  }

  /** Neither the verdict on the legs nor any metric depends on the order of the observations. */
  lemma EvaluationIsUnordered(c: Case, a: seq<Observation>, b: seq<Observation>, m: Metrics)
    requires multiset(a) == multiset(b) && NoDuplicates(a)
    ensures Comparable(c, a) <==> Comparable(c, b)
    ensures AreMetrics(m, c, a) <==> AreMetrics(m, c, b)
  {
    hide EndOn;
    hide Latest;
    hide PathOf;
    hide Ratio;
    hide IsMaxDrawdown;
    ComparableIsUnordered(c, a, b);
    PathIsUnordered(a, b, c.target.instrumentId);
    LatestIsUnordered(a, b, c.target.instrumentId);
    LatestIsUnordered(a, b, c.benchmark.instrumentId);
    if c.source.Some? {
      LatestIsUnordered(a, b, c.source.value.instrumentId);
    }
    forall date
      ensures EndOn(c, a, date) <==> EndOn(c, b, date)
    {
      EndIsUnordered(c, a, b, date);
    }
    hide Comparable;
    hide NoDuplicates;
    hide Prices;
    hide Positive;
  }

  // ---------------------------------------------------------------- the thesis

  datatype ThesisStatus = NotTriggered | Triggered | Undetermined

  datatype ThesisObservation = ThesisObservation(condition: string, status: ThesisStatus, missing: set<string>)

  datatype ThesisOutcome = Intact | Invalidated | Unresolved

  datatype Judgement = Judgement(outcome: ThesisOutcome, missing: set<string>)

  const MISSING_ASSESSMENT := "Missing Learning thesis assessment: "

  function Conditions(observations: seq<ThesisObservation>): set<string>
  {
    set o | o in observations :: o.condition
  }

  /** One text for each condition without an observation. */
  function Unassessed(conditions: set<string>, observations: seq<ThesisObservation>): set<string>
  {
    set c | c in conditions && c !in Conditions(observations) :: MISSING_ASSESSMENT + c
  }

  /** What the undetermined observations say is missing. */
  function Undisclosed(observations: seq<ThesisObservation>): set<string>
  {
    set o, text | o in observations && o.status == Undetermined && text in o.missing :: text
  }

  /** Every condition fixed in advance is observed, and none of them as anything but not triggered. */
  ghost predicate AllIntact(conditions: set<string>, observations: seq<ThesisObservation>)
  {
    Conditions(observations) == conditions && forall o :: o in observations ==> o.status == NotTriggered
  }

  function MissingFor(outcome: ThesisOutcome, conditions: set<string>,
                      observations: seq<ThesisObservation>): set<string>
  {
    Unassessed(conditions, observations) + (if outcome == Invalidated then {} else Undisclosed(observations))
  }

  /** The texts a judgement asks for. */
  lemma MissingIs(outcome: ThesisOutcome, conditions: set<string>, observations: seq<ThesisObservation>, text: string)
    ensures text in MissingFor(outcome, conditions, observations) <==>
      || (exists c :: c in conditions && (forall o :: o in observations ==> o.condition != c)
                   && text == "Missing Learning thesis assessment: " + c)
      || (outcome != Invalidated && exists o :: o in observations && o.status == Undetermined && text in o.missing)
  {
    assert forall c :: c in Conditions(observations) <==> exists o :: o in observations && o.condition == c;
  }

  ghost predicate IsJudgement(j: Judgement, conditions: set<string>, observations: seq<ThesisObservation>)
  {
    && (j.outcome == Invalidated <==> exists o :: o in observations && o.status == Triggered)
    && (j.outcome == Intact <==> AllIntact(conditions, observations))
    && j.missing == MissingFor(j.outcome, conditions, observations)
  }

  /**
   None when an observation names a condition that was not fixed in advance. Once something is triggered,
   the data missing from undetermined observations is no longer asked for.
   */
  method JudgeThesis(conditions: set<string>, observations: seq<ThesisObservation>) returns (r: Option<Judgement>)
    ensures r.None? <==> exists o :: o in observations && o.condition !in conditions
    ensures r.Some? ==> IsJudgement(r.value, conditions, observations)
  {
    if exists o :: o in observations && o.condition !in conditions {
      return None;
    }
    if exists o :: o in observations && o.status == Triggered {
      return Some(Judgement(Invalidated, Unassessed(conditions, observations)));
    }
    var missing := Unassessed(conditions, observations);
    var unknown := exists o :: o in observations && o.status == Undetermined;
    for n := 0 to |observations|
      invariant missing == Unassessed(conditions, observations) + Undisclosed(observations[..n])
    {
      assert observations[..n + 1] == observations[..n] + [observations[n]];
      if observations[n].status == Undetermined {
        missing := missing + observations[n].missing;
      }
    }
    assert observations[..|observations|] == observations;
    if conditions - Conditions(observations) != {} || unknown {
      return Some(Judgement(Unresolved, missing));
    }
    assert Conditions(observations) <= conditions;
    assert forall c :: c in conditions ==> c !in conditions - Conditions(observations);
    assert Conditions(observations) == conditions;
    assert Unassessed(conditions, observations) == {} && Undisclosed(observations) == {};
    r := Some(Judgement(Intact, {}));
  }

  // ---------------------------------------------------------------- scenario bands

  function Realization(scenario: Option<Anchor>, targetReturn: real, horizonReached: bool): Band
  {
    if scenario.None? then NotAvailable
    else if !horizonReached then PreHorizon
    else if targetReturn < scenario.value.bear then BelowBear
    else if targetReturn < scenario.value.base then BearToBase
    else if targetReturn <= scenario.value.bull then BaseToBull
    else AboveBull
  }

  /** Where each band begins and ends: bear and base belong to the band above them, bull to the one below it. */
  lemma BandsAre(anchor: Anchor, r: real)
    requires anchor.bear <= anchor.base <= anchor.bull
    ensures Realization(None, r, true) == Realization(None, r, false) == NotAvailable
    ensures Realization(Some(anchor), r, false) == PreHorizon
    ensures Realization(Some(anchor), r, true) == BelowBear <==> r < anchor.bear
    ensures Realization(Some(anchor), r, true) == BearToBase <==> anchor.bear <= r < anchor.base
    ensures Realization(Some(anchor), r, true) == BaseToBull <==>
      anchor.base <= r <= anchor.bull
    ensures Realization(Some(anchor), r, true) == AboveBull <==> r > anchor.bull
  {
  }

  function Rank(b: Band): int
  {
    match b
    case NotAvailable => -1
    case PreHorizon => -1
    case BelowBear => 0
    case BearToBase => 1
    case BaseToBull => 2
    case AboveBull => 3
  }

  /**
   On the anchor of any accepted scenario set, a better return never realises a worse band, and each
   scenario's own return realises its band.
   */
  lemma BandsFollowReturns(bear: Scenario, base: Scenario, bull: Scenario, worse: real, better: real)
    requires ScenarioAnchor(bear, base, bull).Some? && worse <= better
    ensures var anchor := ScenarioAnchor(bear, base, bull);
      && Rank(Realization(anchor, worse, true)) <= Rank(Realization(anchor, better, true))
      && (Realization(anchor, worse, true) == BelowBear <==> worse < anchor.value.bear)
      && (Realization(anchor, worse, true) == AboveBull <==> worse > anchor.value.bull)
      && Realization(anchor, anchor.value.base, true) == BaseToBull
      && Rank(BelowBear) < Rank(BearToBase) < Rank(BaseToBull) < Rank(AboveBull)
  {
  }

  // ---------------------------------------------------------------- the whole evaluation

  datatype Learned = Learned(metrics: Metrics, judgement: Judgement, band: Band)

  datatype Conclusion = Concluded(learned: Learned) | NotComparable(error: LegError) | InventedCondition

  ghost predicate IsLearned(l: Learned, c: Case, scenario: Option<Anchor>, conditions: set<string>,
                            observations: seq<Observation>, thesis: seq<ThesisObservation>)
  {
    && AreMetrics(l.metrics, c, observations)
    && IsJudgement(l.judgement, conditions, thesis)
    && l.band == Realization(scenario, l.metrics.targetReturn, l.metrics.horizonReached)
  }

  /** Evaluate the legs, then the thesis, then the band; each failing part refuses the whole. */
  method Conclude(c: Case, scenario: Option<Anchor>, conditions: set<string>, observations: seq<Observation>,
                  thesis: seq<ThesisObservation>) returns (r: Conclusion)
    requires ValidCase(c) && PositivePrices(observations)
    ensures r.Concluded? <==>
      Comparable(c, observations) && forall o :: o in thesis ==> o.condition in conditions
    ensures r.NotComparable? ==> IsLegError(r.error, c, observations)
    ensures r.InventedCondition? ==> Comparable(c, observations)
    ensures r.Concluded? ==> IsLearned(r.learned, c, scenario, conditions, observations, thesis)
    ensures r.Concluded? && !r.learned.metrics.horizonReached ==> r.learned.band in {PreHorizon, NotAvailable}
  {
    hide AreMetrics;
    hide IsJudgement;
    hide Comparable;
    hide IsLegError;
    hide PositivePrices;
    var legs := Evaluate(c, observations);
    if legs.Refused? {
      return NotComparable(legs.error);
    }
    var judgement := JudgeThesis(conditions, thesis);
    if judgement.None? {
      return InventedCondition;
    }
    var m := legs.metrics;
    r := Concluded(Learned(m, judgement.value, Realization(scenario, m.targetReturn, m.horizonReached)));
  }

  lemma RatioOrder(v: real, w: real, gross: real)
    requires gross > 0.0 && v <= w
    ensures Ratio(v, gross) <= Ratio(w, gross)
  {
    RatioOfSum(v, w - v, gross);
    assert Ratio(w - v, gross) >= 0.0;
    hide Ratio;
  }

  /** On one matured case a higher last price of the target never concludes with a worse band. */
  lemma HigherPriceNeverWorse(c: Case, bear: Scenario, base: Scenario, bull: Scenario, conditions: set<string>,
                              low: seq<Observation>, high: seq<Observation>, thesis: seq<ThesisObservation>,
                              a: Learned, b: Learned)
    requires ScenarioAnchor(bear, base, bull).Some?
    requires IsLearned(a, c, ScenarioAnchor(bear, base, bull), conditions, low, thesis) && a.metrics.horizonReached
    requires IsLearned(b, c, ScenarioAnchor(bear, base, bull), conditions, high, thesis) && b.metrics.horizonReached
    requires Latest(low, c.target.instrumentId).Some? && Latest(high, c.target.instrumentId).Some?
    requires Latest(low, c.target.instrumentId).value.price <= Latest(high, c.target.instrumentId).value.price
    ensures Rank(a.band) <= Rank(b.band)
  {
    hide Latest;
    hide ScenarioAnchor;
    hide EndOn;
    hide IsTargetDrawdown;
    hide IsJudgement;
    hide Realization;
    hide Ratio;
    RatioOrder(Latest(low, c.target.instrumentId).value.price, Latest(high, c.target.instrumentId).value.price,
               c.target.reference);
    BandsFollowReturns(bear, base, bull, a.metrics.targetReturn, b.metrics.targetReturn);
  }
}
