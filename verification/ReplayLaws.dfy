/**
 What the canonical builders make of their input, field by field: which lists are put in order, by which id, and
 what becomes of each item. Nothing else may change.
 */
module ReplayLaws {
  import opened LookThrough
  import opened Sequences
  import opened Sorting
  import opened Canonical
  import S = StateReplay
  import E = ExposureReplay
  import D = DecisionReplay
  import Dominance

  // ---------------------------------------------------------------- lists

  /** The same texts, smallest first. */
  ghost predicate IsSorted(n: seq<string>, s: seq<string>)
  {
    multiset(n) == multiset(s) && forall i, j :: 0 <= i < j < |n| ==> TextAtMost(n[i], n[j])
  }

  /** One canonical item for each item, in the order of the ids. */
  ghost predicate AreForms<A>(n: seq<A>, s: seq<A>, form: (A, A) -> bool, id: A -> string)
  {
    && |n| == |s|
    && (forall i, j :: 0 <= i < j < |n| ==> TextAtMost(id(n[i]), id(n[j])))
    && (forall x :: x in s ==> exists y :: y in n && form(y, x))
    && (forall y :: y in n ==> exists x :: x in s && form(y, x))
  }

  lemma InOrderIs(s: seq<string>)
    ensures IsSorted(S.InOrder(s), s)
  {
    hide TextAtMost;
    hide StringLeq;
    var n := S.InOrder(s);
    StringOrder();
    SortOrdered(s, StringLeq);
    SortKeeps(s, StringLeq);
    forall i, j | 0 <= i < j < |n|
      ensures TextAtMost(n[i], n[j])
    {
      StringLeqIs(n[i], n[j]);
    }
    hide SortBy;
  }

  lemma CanonListIs<A(!new)>(s: seq<A>, c: A -> A, key: A -> string, form: (A, A) -> bool, id: A -> string)
    requires forall x :: x in s ==> form(c(x), x)
    requires forall x :: key(x) == id(x)
    ensures AreForms(CanonList(s, c, By(key)), s, form, id)
  {
    hide TextAtMost;
    hide StringLeq;
    hide TotalPreorder;
    var g, n := Each(s, c), CanonList(s, c, By(key));
    GatherSingles(s, Single(c));
    ByIsOrder(key);
    SortOrdered(g, By(key));
    SortKeeps(g, By(key));
    SameItems(g, n);
    forall i, j | 0 <= i < j < |n|
      ensures TextAtMost(id(n[i]), id(n[j]))
    {
      StringLeqIs(key(n[i]), key(n[j]));
    }
    forall y
      ensures y in n <==> exists x :: x in s && y == c(x)
    {
      InEach(s, c, y);
    }
    hide SortBy;
    hide Gather;
    hide Each;
    hide CanonList;
    forall x | x in s
      ensures exists y :: y in n && form(y, x)
    {
      assert c(x) in n;
    }
  }

  /** No two items share an id. */
  lemma IdsDistinctIff<A>(s: seq<A>, key: A -> string)
    ensures IdsDistinct(s, key) <==> forall i, j :: 0 <= i < j < |s| ==> key(s[i]) != key(s[j])
  {
    GatherSingles(s, Single(key));
    forall k | 0 <= k < |s|
      ensures Each(s, key)[k] == key(s[k])
    {
      NameAt(s, Single(key), k);
    }
    hide Gather;
  }

  // ---------------------------------------------------------------- portfolio states

  ghost predicate ItemsMatch(n: seq<S.Item>, s: seq<S.Item>)
  {
    multiset(n) == multiset(s) && AreForms(n, s, (y, x) => y == x, (i: S.Item) => i.id)
  }

  lemma ItemsAre(s: seq<S.Item>)
    ensures ItemsMatch(S.ById(s), s)
  {
    hide AreForms;
    EachFixed(s, S.Unchanged());
    SortKeeps(s, By(S.ItemId()));
    CanonListIs(s, S.Unchanged(), S.ItemId(), (y, x) => y == x, (i: S.Item) => i.id);
    hide SortBy;
    hide Each;
  }

  /** A canonical draft: six lists by id, four lists of texts in order, the rest as drafted. */
  lemma DraftIs(d: S.Draft)
    ensures var n := S.CanonicalDraft(d);
      && ItemsMatch(n.records, d.records) && ItemsMatch(n.accounts, d.accounts)
      && ItemsMatch(n.instruments, d.instruments) && ItemsMatch(n.prices, d.prices)
      && ItemsMatch(n.positions, d.positions) && ItemsMatch(n.cash, d.cash)
      && IsSorted(n.eligibleEtfs, d.eligibleEtfs) && IsSorted(n.missing, d.missing)
      && IsSorted(n.conflicts, d.conflicts) && IsSorted(n.assumptions, d.assumptions) && n.rest == d.rest
  {
    hide ItemsMatch;
    hide IsSorted;
    hide S.ById;
    hide S.InOrder;
    forall s { ItemsAre(s); }
    forall s { InOrderIs(s); }
  }

  // ---------------------------------------------------------------- exposures

  ghost predicate EvidenceForm(n: E.EvidenceItem, e: E.EvidenceItem)
  {
    && n.id == e.id && n.content == e.content
    && IsSorted(n.missingFields, e.missingFields) && IsSorted(n.conflicts, e.conflicts)
  }

  ghost predicate ClaimForm(n: E.Claim, c: E.Claim)
  {
    n.id == c.id && n.content == c.content && IsSorted(n.evidenceIds, c.evidenceIds)
  }

  ghost predicate SnapshotForm(n: E.Snapshot, s: E.Snapshot)
  {
    n.etfId == s.etfId && n.content == s.content && ItemsMatch(n.constituents, s.constituents)
  }

  ghost predicate TagForm(n: Option<E.Tag>, t: Option<E.Tag>)
  {
    && (n.Some? <==> t.Some?)
    && (n.Some? ==> n.value.content == t.value.content && IsSorted(n.value.claimIds, t.value.claimIds))
  }

  ghost predicate DriverForm(n: E.Driver, d: E.Driver)
  {
    n.id == d.id && n.content == d.content && IsSorted(n.claimIds, d.claimIds)
  }

  ghost predicate ProfileForm(n: E.Profile, p: E.Profile)
  {
    && n.companyId == p.companyId && n.content == p.content
    && TagForm(n.sector, p.sector) && TagForm(n.geography, p.geography)
    && AreForms(n.drivers, p.drivers, (y, x) => DriverForm(y, x), (d: E.Driver) => d.id)
    && IsSorted(n.missingDimensions, p.missingDimensions)
  }

  lemma DriversAre(s: seq<E.Driver>)
    ensures AreForms(CanonList(s, E.CanonDriver(), By(E.DriverId())), s,
                     (y, x) => DriverForm(y, x), (d: E.Driver) => d.id)
  {
    hide AreForms;
    hide S.InOrder;
    hide IsSorted;
    hide CanonList;
    forall t { InOrderIs(t); }
    CanonListIs(s, E.CanonDriver(), E.DriverId(), (y, x) => DriverForm(y, x), (d: E.Driver) => d.id);
  }

  lemma ProfileIs(p: E.Profile)
    ensures ProfileForm(E.CanonProfile()(p), p)
  {
    hide AreForms;
    hide S.InOrder;
    hide IsSorted;
    hide CanonList;
    forall t { InOrderIs(t); }
    DriversAre(p.drivers);
  }

  /** A canonical exposure input: four lists by id, each item in its own canonical form. */
  lemma ExposureInputIs(i: E.Input)
    ensures var n := E.CanonicalInput(i);
      && AreForms(n.evidence, i.evidence, (y, x) => EvidenceForm(y, x), (e: E.EvidenceItem) => e.id)
      && AreForms(n.claims, i.claims, (y, x) => ClaimForm(y, x), (c: E.Claim) => c.id)
      && AreForms(n.snapshots, i.snapshots, (y, x) => SnapshotForm(y, x), (s: E.Snapshot) => s.etfId)
      && AreForms(n.profiles, i.profiles, (y, x) => ProfileForm(y, x), (p: E.Profile) => p.companyId)
      && IsSorted(n.missing, i.missing) && IsSorted(n.conflicts, i.conflicts)
      && IsSorted(n.assumptions, i.assumptions) && n.rest == i.rest
  {
    hide AreForms;
    hide CanonList;
    hide S.InOrder;
    hide S.ById;
    hide IsSorted;
    hide ItemsMatch;
    hide ProfileForm;
    hide E.CanonProfile;
    forall t { InOrderIs(t); }
    forall s { ItemsAre(s); }
    forall p { ProfileIs(p); }
    CanonListIs(i.evidence, E.CanonEvidence(), E.EvidenceId(),
                (y, x) => EvidenceForm(y, x), (e: E.EvidenceItem) => e.id);
    CanonListIs(i.claims, E.CanonClaim(), E.ClaimId(), (y, x) => ClaimForm(y, x), (c: E.Claim) => c.id);
    CanonListIs(i.snapshots, E.CanonSnapshot(), E.EtfId(), (y, x) => SnapshotForm(y, x), (s: E.Snapshot) => s.etfId);
    CanonListIs(i.profiles, E.CanonProfile(), E.CompanyId(),
                (y, x) => ProfileForm(y, x), (p: E.Profile) => p.companyId);
  }

  // ---------------------------------------------------------------- decisions

  /** A preference seen from the other side. */
  ghost predicate IsTurned(n: D.Preference, p: D.Preference)
  {
    && (n == D.PreferFirst <==> p == D.PreferSecond) && (n == D.PreferSecond <==> p == D.PreferFirst)
    && (n == D.Balanced <==> p == D.Balanced)
  }

  ghost predicate ComponentForm(turned: bool, n: D.Component, c: D.Component)
  {
    && n.rank == c.rank && n.content == c.content && IsSorted(n.missing, c.missing)
    && (if turned then IsTurned(n.preference, c.preference) else n.preference == c.preference)
  }

  /** Whether a comparison is turned around: its first id is the larger one. */
  ghost predicate Turns(c: D.Comparison)
  {
    !TextAtMost(c.first, c.second)
  }

  ghost predicate ComparisonForm(n: D.Comparison, c: D.Comparison)
  {
    && n.rationale == c.rationale
    && AreForms(n.components, c.components, (y, x) => ComponentForm(Turns(c), y, x), (k: D.Component) => k.rank)
    && (if Turns(c) then
          && n.first == c.second && n.second == c.first
          && (n.conclusion == Dominance.First <==> c.conclusion == Dominance.Second)
          && (n.conclusion == Dominance.Second <==> c.conclusion == Dominance.First)
        else
          n.first == c.first && n.second == c.second && n.conclusion == c.conclusion)
  }

  lemma ComponentsAre(s: seq<D.Component>, turned: bool)
    ensures AreForms(CanonList(s, D.CanonComponent(turned), By(D.Rank())), s,
                     (y, x) => ComponentForm(turned, y, x), (k: D.Component) => k.rank)
  {
    hide AreForms;
    hide S.InOrder;
    hide IsSorted;
    hide CanonList;
    forall t { InOrderIs(t); }
    CanonListIs(s, D.CanonComponent(turned), D.Rank(),
                (y, x) => ComponentForm(turned, y, x), (k: D.Component) => k.rank);
  }

  /** A canonical comparison: smaller id first, and everything that has a side turned with it. */
  lemma ComparisonIs(c: D.Comparison)
    ensures ComparisonForm(D.CanonComparison()(c), c)
  {
    hide AreForms;
    hide CanonList;
    hide StringLeq;
    hide TextAtMost;
    hide ComponentForm;
    StringLeqIs(c.first, c.second);
    ComponentsAre(c.components, Turns(c));
  }

  ghost predicate AssessmentForm(n: D.Assessment, a: D.Assessment)
  {
    && n.alternativeId == a.alternativeId && n.content == a.content
    && IsSorted(n.riskIds, a.riskIds) && IsSorted(n.missing, a.missing)
  }

  /** The order of the canonical comparisons: by first id, then by second. */
  ghost predicate ComparedBefore(a: D.Comparison, b: D.Comparison)
  {
    if a.first != b.first then TextAtMost(a.first, b.first) else TextAtMost(a.second, b.second)
  }

  /** A canonical decision input: ids and texts in order, assessments by alternative, comparisons by pair. */
  lemma DecisionInputIs(i: D.Input)
    ensures var n := D.CanonicalInput(i);
      && AreForms(n.assessments, i.assessments, (y, x) => AssessmentForm(y, x), (a: D.Assessment) => a.alternativeId)
      && ComparisonsMatch(n.comparisons, i.comparisons)
      && IsSorted(n.fundingIds, i.fundingIds) && IsSorted(n.missing, i.missing)
      && IsSorted(n.conflicts, i.conflicts) && IsSorted(n.assumptions, i.assumptions) && n.rest == i.rest
  {
    hide AreForms;
    hide CanonList;
    hide D.CanonComparisons;
    hide ComparisonsMatch;
    hide S.InOrder;
    hide IsSorted;
    forall t { InOrderIs(t); }
    CanonListIs(i.assessments, D.CanonAssessment(), D.AlternativeId(),
                (y, x) => AssessmentForm(y, x), (a: D.Assessment) => a.alternativeId);
    ComparisonsAre(i.comparisons);
  }

  ghost predicate ComparisonsMatch(n: seq<D.Comparison>, s: seq<D.Comparison>)
  {
    && |n| == |s|
    && (forall i, j :: 0 <= i < j < |n| ==> ComparedBefore(n[i], n[j]))
    && (forall c :: c in s ==> exists m :: m in n && ComparisonForm(m, c))
    && (forall m :: m in n ==> exists c :: c in s && ComparisonForm(m, c))
  }

  lemma PairOrderIs(a: D.Comparison, b: D.Comparison)
    ensures D.PairOrder()(a, b) <==> ComparedBefore(a, b)
  {
    hide TextAtMost;
    StringLeqIs(a.first, b.first);
    StringLeqIs(a.second, b.second);
    StringLeqTotal(a.first, b.first);
    StringLeqTotal(a.first, a.first);
    if StringLeq(a.first, b.first) && StringLeq(b.first, a.first) {
      StringLeqAntisymmetric(a.first, b.first);
    }
    hide StringLeq;
  }

  lemma ComparisonsAre(s: seq<D.Comparison>)
    ensures ComparisonsMatch(D.CanonComparisons(s), s)
  {
    hide D.PairOrder;
    hide D.CanonComparison;
    hide ComparisonForm;
    hide ComparedBefore;
    hide TotalPreorder;
    var g, n := Each(s, D.CanonComparison()), D.CanonComparisons(s);
    GatherSingles(s, Single(D.CanonComparison()));
    D.PairOrderIsTotal();
    SortOrdered(g, D.PairOrder());
    SortKeeps(g, D.PairOrder());
    SameItems(g, n);
    forall i, j | 0 <= i < j < |n|
      ensures ComparedBefore(n[i], n[j])
    {
      PairOrderIs(n[i], n[j]);
    }
    forall c | c in s
      ensures exists m :: m in n && ComparisonForm(m, c)
    {
      ComparisonIs(c);
      InEach(s, D.CanonComparison(), D.CanonComparison()(c));
      assert D.CanonComparison()(c) in n;
    }
    forall m | m in n
      ensures exists c :: c in s && ComparisonForm(m, c)
    {
      InEach(s, D.CanonComparison(), m);
      var c :| c in s && m == D.CanonComparison()(c);
      ComparisonIs(c);
    }
    hide SortBy;
    hide Each;
    hide Gather;
    hide D.CanonComparisons;
  }

  ghost predicate Prefers(c: D.Comparison, a: string, b: string)
  {
    || (c.first == a && c.second == b && c.conclusion == Dominance.First)
    || (c.first == b && c.second == a && c.conclusion == Dominance.Second)
  }

  /** Who beats whom, in the words of the comparisons. */
  lemma VerdictsAre(s: seq<D.Comparison>, a: string, b: string)
    ensures Dominance.Beats(D.Verdicts(s), a, b) <==> exists c :: c in s && Prefers(c, a, b)
  {
    if v :| v in D.Verdicts(s) && Dominance.Decides(v, a, b) {
      var c := D.FromVerdicts(s, v);
    }
    if c :| c in s && Prefers(c, a, b) {
      D.VerdictIn(s, c);
      assert Dominance.Decides(D.VerdictOf(c), a, b);
    }
  }
}
