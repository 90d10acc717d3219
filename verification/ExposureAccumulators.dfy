/** The mutable accumulators filled by `_add_instrument_value`, one holding after another. */
module ExposureAccumulators {
  import opened Sums
  import opened LookThrough
  import opened ExposureTables

  type Key = (string, string)

  function CompanyAt(m: map<Key, CompanyAccumulator>, k: Key): CompanyAccumulator
  {
    if k in m then m[k] else EMPTY_COMPANY
  }

  function ReasonsAt(m: map<string, set<string>>, currency: string): set<string>
  {
    if currency in m then m[currency] else {}
  }

  /** The `(currency, id)` entries of one currency, as the book builder selects them. */
  function Slice<V>(m: map<Key, V>, currency: string): map<string, V>
  {
    map k | k in m && k.0 == currency :: k.1 := m[k]
  }

  // ---------------------------------------------------------------- accumulators against reference sums

  ghost predicate InstrumentsMatch(m: map<Key, real>, hs: seq<Holding>)
  {
    forall c, id ::
      && ((c, id) in m <==> id in InstrumentIds(hs, c))
      && Get(m, (c, id)) == InstrumentValue(hs, c, id)
  }

  ghost predicate CompaniesMatch(m: map<Key, CompanyAccumulator>, hs: seq<Holding>, snapshots: map<string, EtfSnapshot>)
    requires Covered(hs, snapshots)
  {
    forall c, id ::
      && ((c, id) in m <==> id in CompanyIds(hs, snapshots, c))
      && CompanyAt(m, (c, id)) == CompanyOf(hs, snapshots, c, id)
  }

  ghost predicate UnresolvedMatches(m: map<string, real>, hs: seq<Holding>, snapshots: map<string, EtfSnapshot>)
    requires Covered(hs, snapshots)
  {
    forall c :: Get(m, c) == Unresolved(hs, snapshots, c)
  }

  ghost predicate ReasonsMatch(m: map<string, set<string>>, hs: seq<Holding>, snapshots: map<string, EtfSnapshot>)
    requires Covered(hs, snapshots)
  {
    forall c :: ReasonsAt(m, c) == Reasons(hs, snapshots, c)
  }

  lemma InstrumentsMatchSnoc(m: map<Key, real>, hs: seq<Holding>, h: Holding)
    requires InstrumentsMatch(m, hs)
    ensures InstrumentsMatch(Bump(m, (h.currency, h.instrument.id), h.amount), hs + [h])
  {
    var all := hs + [h];
    assert all[..|all| - 1] == hs;
    assert forall g :: g in all <==> g in hs || g == h;
    forall c, id
      ensures id in InstrumentIds(all, c) <==> id in InstrumentIds(hs, c) || (c == h.currency && id == h.instrument.id)
    {
    }
  }

  /** The company accumulators after one holding, whatever order its constituents were visited in. */
  ghost predicate CompaniesAfter(m': map<Key, CompanyAccumulator>, m: map<Key, CompanyAccumulator>, h: Holding,
                                 snapshots: map<string, EtfSnapshot>)
    requires h.instrument.EquityEtf? ==> h.instrument.id in snapshots
  {
    forall c, id ::
      && ((c, id) in m' <==> (c, id) in m || (c == h.currency && id in Touched(h, snapshots)))
      && CompanyAt(m', (c, id))
         == if c == h.currency then Contribution(CompanyAt(m, (c, id)), h, snapshots, id) else CompanyAt(m, (c, id))
  }

  lemma CompaniesMatchSnoc(m': map<Key, CompanyAccumulator>, m: map<Key, CompanyAccumulator>, hs: seq<Holding>,
                           h: Holding, snapshots: map<string, EtfSnapshot>)
    requires Covered(hs, snapshots) && Covered(hs + [h], snapshots)
    requires CompaniesMatch(m, hs, snapshots)
    requires h.instrument.EquityEtf? ==> h.instrument.id in snapshots
    requires CompaniesAfter(m', m, h, snapshots)
    ensures CompaniesMatch(m', hs + [h], snapshots)
  {
    var all := hs + [h];
    assert all[..|all| - 1] == hs;
    hide Covered;
    hide Contribution;
    hide Touched;
    forall c, id
      ensures (c, id) in m' <==> id in CompanyIds(all, snapshots, c)
      ensures CompanyAt(m', (c, id)) == CompanyOf(all, snapshots, c, id)
    {
      CompanyIdsSnoc(hs, h, snapshots, c);
      assert (c, id) in m <==> id in CompanyIds(hs, snapshots, c);
    }
  }

  lemma UnresolvedMatchesSnoc(m: map<string, real>, hs: seq<Holding>, h: Holding, snapshots: map<string, EtfSnapshot>)
    requires Covered(hs, snapshots) && Covered(hs + [h], snapshots)
    requires UnresolvedMatches(m, hs, snapshots)
    requires h.instrument.EquityEtf? ==> h.instrument.id in snapshots
    ensures UnresolvedMatches(Bump(m, h.currency, UnresolvedPart(h, snapshots)), hs + [h], snapshots)
    ensures UnresolvedPart(h, snapshots) == 0.0 ==> UnresolvedMatches(m, hs + [h], snapshots)
  {
    CoveredPrefix(hs, h, snapshots);
    hide Covered;
    hide UnresolvedPart;
    var all := hs + [h];
    assert all[..|all| - 1] == hs;
    forall c
      ensures Unresolved(all, snapshots, c)
           == Unresolved(hs, snapshots, c) + if h.currency == c then UnresolvedPart(h, snapshots) else 0.0
    {
    }
  }

  lemma ReasonsMatchSnoc(m': map<string, set<string>>, m: map<string, set<string>>, hs: seq<Holding>, h: Holding,
                         snapshots: map<string, EtfSnapshot>)
    requires Covered(hs, snapshots) && Covered(hs + [h], snapshots)
    requires ReasonsMatch(m, hs, snapshots)
    requires h.instrument.EquityEtf? ==> h.instrument.id in snapshots
    requires forall c :: ReasonsAt(m', c) == ReasonsAt(m, c) + if c == h.currency then Reason(h, snapshots) else {}
    ensures ReasonsMatch(m', hs + [h], snapshots)
  {
    hide Covered;
    hide Reason;
    forall c
      ensures ReasonsAt(m', c) == Reasons(hs + [h], snapshots, c)
    {
      ReasonsSnoc(hs, h, snapshots, c);
    }
  }

  class Accumulators {
    const snapshots: map<string, EtfSnapshot>
    var instrumentValues: map<Key, real>
    var companyValues: map<Key, CompanyAccumulator>
    var unresolvedValues: map<string, real>
    var unresolvedReasons: map<string, set<string>>

    /** The holdings added so far. */
    ghost var added: seq<Holding>

    /** Every accumulator equals its reference sum over the holdings added so far. */
    ghost predicate Valid()
      reads this
    {
      && Covered(added, snapshots)
      && InstrumentsMatch(instrumentValues, added)
      && CompaniesMatch(companyValues, added, snapshots)
      && UnresolvedMatches(unresolvedValues, added, snapshots)
      && ReasonsMatch(unresolvedReasons, added, snapshots)
    }

    constructor (snapshots: map<string, EtfSnapshot>)
      ensures Valid() && added == [] && this.snapshots == snapshots
    {
      this.snapshots := snapshots;
      instrumentValues, companyValues := map[], map[];
      unresolvedValues, unresolvedReasons := map[], map[];
      added := [];
    }

    method AddInstrumentValue(h: Holding)
      requires Valid() && Covered(added + [h], snapshots)
      modifies this
      ensures Valid() && added == old(added) + [h]
    {
      CoveredPrefix(added, h, snapshots);
      hide Covered;
      hide ValidSnapshot;
      hide InstrumentsMatch;
      hide CompaniesMatch;
      hide UnresolvedMatches;
      hide ReasonsMatch;
      hide CompaniesAfter;
      InstrumentsMatchSnoc(instrumentValues, added, h);
      instrumentValues := Bump(instrumentValues, (h.currency, h.instrument.id), h.amount);
      AddToCompanies(h);
      AddToUnresolved(h);
      added := added + [h];
    }

    method AddToCompanies(h: Holding)
      requires Covered(added, snapshots) && CompaniesMatch(companyValues, added, snapshots)
      requires Covered(added + [h], snapshots)
      requires h.instrument.EquityEtf? ==> h.instrument.id in snapshots
      modifies this`companyValues
      ensures CompaniesMatch(companyValues, added + [h], snapshots)
    {
      ghost var before := companyValues;
      match h.instrument {
        case ListedEquity(id, companyId) =>
          var k := (h.currency, companyId);
          var acc := CompanyAt(companyValues, k);
          companyValues := companyValues[k := acc.(direct := acc.direct + h.amount, directIds := acc.directIds + {id})];
          assert CompaniesAfter(companyValues, before, h, snapshots);
        case EquityEtf(id) =>
          AddConstituents(h.currency, id, h.amount, snapshots[id].constituents);
          PassedIsContribution(companyValues, before, h, snapshots);
        case Opaque(_) =>
          assert CompaniesAfter(companyValues, before, h, snapshots);
      }
      CompaniesMatchSnoc(companyValues, before, added, h, snapshots);
    }

    /** The inner loop over an ETF's constituents. */
    method AddConstituents(currency: string, etfId: string, amount: real, constituents: seq<Constituent>)
      modifies this`companyValues
      ensures PassedOn(companyValues, old(companyValues), currency, etfId, amount, constituents)
    {
      assert PassedOn(companyValues, old(companyValues), currency, etfId, amount, []);
      var n := 0;
      while n < |constituents|
        invariant 0 <= n <= |constituents|
        invariant PassedOn(companyValues, old(companyValues), currency, etfId, amount, constituents[..n])
      {
        var k := (currency, constituents[n].companyId);
        var acc := CompanyAt(companyValues, k);
        var value := Portion(amount, constituents[n].weight);
        ghost var before := companyValues;
        companyValues := companyValues[k := Receive(acc, value, etfId)];
        PassedOnStep(companyValues, before, old(companyValues), currency, etfId, amount,
                     constituents[..n], constituents[n]);
        assert constituents[..n + 1] == constituents[..n] + [constituents[n]];
        n := n + 1;
      }
      assert constituents[..n] == constituents;
    }

    method AddToUnresolved(h: Holding)
      requires Covered(added, snapshots) && Covered(added + [h], snapshots)
      requires UnresolvedMatches(unresolvedValues, added, snapshots)
      requires ReasonsMatch(unresolvedReasons, added, snapshots)
      requires h.amount >= 0.0
      requires h.instrument.EquityEtf? ==> h.instrument.id in snapshots && ValidSnapshot(snapshots[h.instrument.id])
      modifies this`unresolvedValues, this`unresolvedReasons
      ensures UnresolvedMatches(unresolvedValues, added + [h], snapshots)
      ensures ReasonsMatch(unresolvedReasons, added + [h], snapshots)
    {
      ghost var before := unresolvedReasons;
      UnresolvedMatchesSnoc(unresolvedValues, added, h, snapshots);
      match h.instrument {
        case ListedEquity(_, _) =>
        case EquityEtf(id) =>
          var residual := Portion(h.amount, snapshots[id].unresolvedWeight);
          PortionNonNegative(h.amount, snapshots[id].unresolvedWeight);
          hide Portion;
          if residual > 0.0 {
            Explain(h.currency, residual, ResidualReason(id, snapshots[id]));
          }
        case Opaque(id) =>
          Explain(h.currency, h.amount, id + NO_LOOK_THROUGH);
      }
      ReasonsMatchSnoc(unresolvedReasons, before, added, h, snapshots);
    }

    method Explain(currency: string, value: real, reason: string)
      modifies this`unresolvedValues, this`unresolvedReasons
      ensures unresolvedValues == Bump(old(unresolvedValues), currency, value)
      ensures forall c :: ReasonsAt(unresolvedReasons, c)
                       == ReasonsAt(old(unresolvedReasons), c) + if c == currency then {reason} else {}
    {
      unresolvedValues := Bump(unresolvedValues, currency, value);
      unresolvedReasons := unresolvedReasons[currency := ReasonsAt(unresolvedReasons, currency) + {reason}];
    }
  }

  function Receive(acc: CompanyAccumulator, value: real, etfId: string): CompanyAccumulator
  {
    acc.(indirect := acc.indirect + value, indirectIds := acc.indirectIds + {etfId})
  }

  /** The company accumulators after passing an amount on to a list of constituents. */
  ghost predicate PassedOn(m': map<Key, CompanyAccumulator>, m: map<Key, CompanyAccumulator>, currency: string,
                           etfId: string, amount: real, constituents: seq<Constituent>)
  {
    forall c, id ::
      && ((c, id) in m' <==> (c, id) in m || (c == currency && id in Members(constituents)))
      && CompanyAt(m', (c, id))
         == if c == currency && id in Members(constituents)
            then Receive(CompanyAt(m, (c, id)), Passed(amount, constituents, id), etfId)
            else CompanyAt(m, (c, id))
  }

  lemma PassedOnStep(m'': map<Key, CompanyAccumulator>, m': map<Key, CompanyAccumulator>,
                     m: map<Key, CompanyAccumulator>, currency: string, etfId: string, amount: real,
                     done: seq<Constituent>, next: Constituent)
    requires PassedOn(m', m, currency, etfId, amount, done)
    requires var k := (currency, next.companyId);
             m'' == m'[k := Receive(CompanyAt(m', k), Portion(amount, next.weight), etfId)]
    ensures PassedOn(m'', m, currency, etfId, amount, done + [next])
  {
    var all := done + [next];
    assert all[..|all| - 1] == done;
    hide Portion;
    assert Members(all) == Members(done) + {next.companyId} by {
      assert forall k :: k in all <==> k in done || k == next;
    }
    forall c, id
      ensures (c, id) in m'' <==> (c, id) in m || (c == currency && id in Members(all))
      ensures CompanyAt(m'', (c, id))
           == if c == currency && id in Members(all)
              then Receive(CompanyAt(m, (c, id)), Passed(amount, all, id), etfId)
              else CompanyAt(m, (c, id))
    {
      assert (c, id) in m' <==> (c, id) in m || (c == currency && id in Members(done));
      if (c, id) == (currency, next.companyId) && id !in Members(done) {
        NothingPassed(amount, done, id);
      }
    }
  }

  lemma PassedIsContribution(m': map<Key, CompanyAccumulator>, m: map<Key, CompanyAccumulator>, h: Holding,
                             snapshots: map<string, EtfSnapshot>)
    requires h.instrument.EquityEtf? && h.instrument.id in snapshots
    requires PassedOn(m', m, h.currency, h.instrument.id, h.amount, snapshots[h.instrument.id].constituents)
    ensures CompaniesAfter(m', m, h, snapshots)
  {
    hide Passed;
    hide Members;
  }
}
