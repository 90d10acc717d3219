/** What the validators of a Portfolio Fit demand holds of every effect, however it was computed. */
module FitAcceptance {
  import opened Sums
  import opened LookThrough
  import opened ExposureTables
  import opened Categories
  import opened ExposureBook
  import opened ExposureEngine
  import opened BookInvariants
  import opened PortfolioFit
  import opened FitRefinement

  ghost predicate BoundsAccepted(h: HhiBounds)
  {
    0.0 <= h.lower <= h.upper <= 1.0
  }

  /** The validators of the effect: amounts, ordered bounds, and only changed weights, all of them ratios. */
  ghost predicate EffectAccepted(effect: FitEffect)
  {
    && effect.grossBefore >= 0.0 && effect.grossAfter >= 0.0
    && BoundsAccepted(effect.hhiBefore) && BoundsAccepted(effect.hhiAfter)
    && (forall k :: k in effect.weightDeltas ==> DeltaAccepted(effect.weightDeltas[k]))
  }

  ghost predicate DeltaAccepted(d: WeightDelta)
  {
    Unit(d.before) && Unit(d.after) && d.before != d.after
  }

  lemma WeightsAreRatios(b: CurrencyBook, k: Component)
    requires Accepted(b)
    ensures Unit(Lookup(Some(b), k).weight)
  {
    hide Reconciles;
  }

  lemma DiffIsAccepted(effect: FitEffect, before: Option<CurrencyBook>, after: CurrencyBook)
    requires IsDiff(effect, before, after)
    requires (before.Some? ==> Accepted(before.value)) && Accepted(after)
    ensures EffectAccepted(effect)
  {
    hide Accepted;
    hide Lookup;
    forall k
      ensures Unit(Lookup(before, k).weight) && Unit(Lookup(Some(after), k).weight)
    {
      WeightsAreRatios(after, k);
      if before.Some? {
        WeightsAreRatios(before.value, k);
      } else {
        NothingWeighsNothing(k);
      }
    }
    AcceptedNumbers(after);
    if before.Some? {
      AcceptedNumbers(before.value);
    }
  }

  lemma NothingWeighsNothing(k: Component)
    ensures Lookup(None, k) == Weighted(0.0, 0.0)
  {
  }

  lemma AcceptedNumbers(b: CurrencyBook)
    requires Accepted(b)
    ensures b.gross > 0.0 && BoundsAccepted(b.hhi)
  {
  }

  /** Buildable tables have a book. */
  lemma BookExists(t: Tables, currency: string, profiles: map<string, Profile>, count: nat) returns (b: CurrencyBook)
    requires Buildable(t) && t.companies.Keys <= profiles.Keys
    ensures IsBookOf(b, currency, t, profiles, count)
  {
    hide IsTopList;
    var top := TopListExists(Totals(t.companies), count);
    b := BookOf(currency, t, profiles, top, count);
  }

  lemma CurrentBookIsAccepted(before: CurrencyBook, hs: seq<Holding>, snapshots: map<string, EtfSnapshot>,
                              profiles: map<string, Profile>, currency: string, count: nat)
    requires Covered(hs, snapshots) && IsCurrentBook(Some(before), hs, snapshots, profiles, currency, count)
    requires Buildable(TablesOf(hs, snapshots, currency))
    ensures Accepted(before)
  {
    BuiltBooksAreAccepted(hs, snapshots, profiles, currency, before, count);
  }

  lemma CompaniesKept(after: Tables, before: Tables, candidateId: string, companyId: string, amount: real)
    requires EquityAdded(after, before, candidateId, companyId, amount)
    ensures after.companies.Keys == before.companies.Keys + {companyId}
  {
    assert Totals(after.companies).Keys == after.companies.Keys;
    assert Totals(before.companies).Keys == before.companies.Keys;
    assert Bump(Totals(before.companies), companyId, amount).Keys == Totals(before.companies).Keys + {companyId};
  }

  /** The incremental effect passes every validator, although it is computed without any after book. */
  lemma IncrementalIsAccepted(hs: seq<Holding>, snapshots: map<string, EtfSnapshot>, currency: string, count: nat,
                              profiles: map<string, Profile>, before: Option<CurrencyBook>, candidateId: string,
                              companyId: string, profile: Option<Profile>, amount: real, effect: FitEffect)
    requires Covered(hs, snapshots) && amount > 0.0 && Gross(before) >= 0.0
    requires IsCurrentBook(before, hs, snapshots, profiles, currency, count)
    requires before.Some? ==> Buildable(TablesOf(hs, snapshots, currency))
    requires companyId in profiles ==> profiles[companyId] == CandidateProfile(profile)
    requires IsIncremental(effect, before, candidateId, companyId, CandidateProfile(profile), amount)
    ensures EffectAccepted(effect)
  {
    hide Covered;
    hide TablesOf;
    hide IsBookOf;
    hide Buildable;
    hide Accepted;
    hide IsIncremental;
    hide IsDiff;
    hide EffectAccepted;
    hide CandidateProfile;
    hide EquityAdded;
    var h := Holding(ListedEquity(candidateId, companyId), currency, amount);
    var all := hs + [h];
    var profiles' := profiles[companyId := CandidateProfile(profile)];
    HeldIsBuildable(before, hs, snapshots, profiles, currency, count);
    EquityIsAdded(hs, snapshots, currency, candidateId, companyId, amount);
    RebuildSucceeds(hs, snapshots, currency, candidateId, companyId, amount);
    CompaniesKept(TablesOf(all, snapshots, currency), TablesOf(hs, snapshots, currency), candidateId, companyId,
                  amount);
    CurrentBookTotals(before, hs, snapshots, profiles, currency, count);
    var after := BookExists(TablesOf(all, snapshots, currency), currency, profiles', count);
    IncrementalRefinesRebuild(hs, snapshots, currency, count, profiles, before, candidateId, companyId, profile, amount,
                              profiles', after, effect);
    BuiltBooksAreAccepted(all, snapshots, profiles', currency, after, count);
    if before.Some? {
      CurrentBookIsAccepted(before.value, hs, snapshots, profiles, currency, count);
    }
    DiffIsAccepted(effect, before, after);
  }

  lemma HeldIsBuildable(before: Option<CurrencyBook>, hs: seq<Holding>, snapshots: map<string, EtfSnapshot>,
                        profiles: map<string, Profile>, currency: string, count: nat)
    requires Covered(hs, snapshots) && IsCurrentBook(before, hs, snapshots, profiles, currency, count)
    requires before.Some? ==> Buildable(TablesOf(hs, snapshots, currency))
    ensures currency in Currencies(hs) ==> Buildable(TablesOf(hs, snapshots, currency))
  {
  }
}
