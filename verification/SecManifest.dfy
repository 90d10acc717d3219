/**
 The complete expected-source manifest for one filer: every declared history page reconciled with the page
 that was fetched for it, and every admitted filing listed once. `None` is the manifest error.
 */
module SecManifest {
  import opened LookThrough
  import opened Sequences
  import opened Sorting

  /** `details` stands for form, report period, acceptance text and primary document. Dates are day numbers. */
  datatype Entry = Entry(cik: string, accession: string, filedOn: int, details: string)

  datatype Source = Source(uri: string, hash: string)

  datatype Descriptor = Descriptor(name: string, filingCount: int, from: int, to: int)

  datatype Snapshot = Snapshot(cik: string, pageName: string, entries: seq<Entry>, source: Source, totalFilings: int)

  datatype Catalog = Catalog(cik: string, entries: seq<Entry>, pages: seq<Descriptor>, source: Source)

  datatype Manifest = Manifest(cik: string, sources: seq<Source>, filings: seq<Entry>, pageNames: seq<string>,
                               hash: string)

  /** The hash of the canonical payload, as a function of what the payload contains. */
  type Digest = (string, seq<Source>, seq<Entry>) -> string

  function NameOf(): Descriptor -> seq<string>
  {
    (d: Descriptor) => [d.name]
  }

  function PageNameOf(): Snapshot -> seq<string>
  {
    (s: Snapshot) => [s.pageName]
  }

  function EntriesOf(): Snapshot -> seq<Entry>
  {
    (s: Snapshot) => s.entries
  }

  function AccessionOf(): Entry -> seq<string>
  {
    (e: Entry) => [e.accession]
  }

  function PageOrder(): (Descriptor, Descriptor) -> bool
  {
    Then(ByInt((d: Descriptor) => d.from), By((d: Descriptor) => d.name))
  }

  function FilingOrder(): (Entry, Entry) -> bool
  {
    Then(ByInt((e: Entry) => e.filedOn), By((e: Entry) => e.accession))
  }

  // ---------------------------------------------------------------- reconciliation

  predicate Matches(d: Descriptor, s: Snapshot, cik: string)
  {
    && s.cik == cik && s.totalFilings == d.filingCount
    && forall e :: e in s.entries ==> d.from <= e.filedOn <= d.to
  }

  /** All admitted filings: the current page first, then the supplied pages. */
  function Universe(current: Catalog, supplied: seq<Snapshot>): seq<Entry>
  {
    current.entries + Gather(supplied, EntriesOf())
  }

  function DeclaredNames(pages: seq<Descriptor>): set<string>
  {
    set d | d in pages :: d.name
  }

  function SuppliedNames(supplied: seq<Snapshot>): set<string>
  {
    set s | s in supplied :: s.pageName
  }

  /** No page is missing and none is unexpected. */
  ghost predicate NamesAgree(current: Catalog, supplied: seq<Snapshot>)
  {
    DeclaredNames(current.pages) == SuppliedNames(supplied)
  }

  /** The pages are exactly the declared ones, each as declared. */
  ghost predicate PagesReconcile(current: Catalog, supplied: seq<Snapshot>)
  {
    && NoRepeats(Gather(current.pages, NameOf()))
    && NoRepeats(Gather(supplied, PageNameOf()))
    && NamesAgree(current, supplied)
    && (forall d, s :: d in current.pages && s in supplied && s.pageName == d.name ==> Matches(d, s, current.cik))
  }

  /** Every page reconciles, every filing is the filer's own, and no accession occurs twice anywhere. */
  ghost predicate Reconciles(current: Catalog, supplied: seq<Snapshot>)
  {
    && PagesReconcile(current, supplied)
    && (forall e :: e in Universe(current, supplied) ==> e.cik == current.cik)
    && NoRepeats(Gather(Universe(current, supplied), AccessionOf()))
  }

  /**
   The pages in declared order are the supplied ones, rearranged to follow (start date, name) of
   their descriptors.
   */
  ghost predicate InDeclaredOrder(pages: seq<Snapshot>, current: Catalog, supplied: seq<Snapshot>)
  {
    && multiset(pages) == multiset(supplied)
    && Gather(pages, PageNameOf()) == Gather(SortBy(current.pages, PageOrder()), NameOf())
  }

  ghost predicate IsManifest(m: Manifest, current: Catalog, supplied: seq<Snapshot>, digest: Digest)
  {
    exists pages :: InDeclaredOrder(pages, current, supplied) && m == ManifestOf(current, pages, digest)
  }

  function SourceOf(): Snapshot -> seq<Source>
  {
    (s: Snapshot) => [s.source]
  }

  function SourcesOf(current: Catalog, pages: seq<Snapshot>): seq<Source>
  {
    [current.source] + Gather(pages, SourceOf())
  }

  function ManifestOf(current: Catalog, pages: seq<Snapshot>, digest: Digest): Manifest
  {
    var filings := SortBy(Universe(current, pages), FilingOrder());
    Manifest(current.cik, SourcesOf(current, pages), filings, Gather(pages, PageNameOf()),
      digest(current.cik, SourcesOf(current, pages), filings))
  }

  // ---------------------------------------------------------------- the builder

  ghost predicate Indexes(byName: map<string, Snapshot>, supplied: seq<Snapshot>)
  {
    && (forall s :: s in supplied ==> s.pageName in byName)
    && (forall n :: n in byName ==> byName[n] in supplied && byName[n].pageName == n)
  }

  method IndexPages(supplied: seq<Snapshot>) returns (r: Option<map<string, Snapshot>>)
    ensures r.Some? <==> NoRepeats(Gather(supplied, PageNameOf()))
    ensures r.Some? ==> Indexes(r.value, supplied)
  {
    hide Gather;
    hide NoRepeats;
    var byName: map<string, Snapshot> := map[];
    EmptyGather(supplied, PageNameOf());
    for n := 0 to |supplied|
      invariant NoRepeats(Gather(supplied[..n], PageNameOf()))
      invariant Indexes(byName, supplied[..n])
      invariant forall name :: name in byName <==> name in Gather(supplied[..n], PageNameOf())
    {
      var s := supplied[n];
      assert supplied[..n + 1] == supplied[..n] + [s];
      GatherNext(supplied, n, PageNameOf());
      AppendName(Gather(supplied[..n], PageNameOf()), s.pageName);
      if s.pageName in byName {
        RepeatSoFar(supplied, n + 1, PageNameOf());
        return None;
      }
      byName := byName[s.pageName := s];
    }
    assert supplied[..|supplied|] == supplied;
    r := Some(byName);
  }

  method OrderPages(current: Catalog, supplied: seq<Snapshot>, byName: map<string, Snapshot>)
    returns (r: Option<seq<Snapshot>>)
    requires forall d :: d in current.pages ==> d.name in byName
    requires Indexes(byName, supplied)
    ensures r.Some? <==> forall d :: d in current.pages ==> Matches(d, byName[d.name], current.cik)
    ensures r.Some? ==> Gather(r.value, PageNameOf()) == Gather(SortBy(current.pages, PageOrder()), NameOf())
    ensures r.Some? ==> forall s :: s in r.value <==> exists d :: d in current.pages && byName[d.name] == s
  {
    hide Gather;
    hide SortBy;
    hide Matches;
    hide PageOrder;
    var descriptors := SortBy(current.pages, PageOrder());
    SortKeeps(current.pages, PageOrder());
    SameItems(current.pages, descriptors);
    var ordered: seq<Snapshot> := [];
    EmptyGather(descriptors, NameOf());
    EmptyGather(ordered, PageNameOf());
    for n := 0 to |descriptors|
      invariant Gather(ordered, PageNameOf()) == Gather(descriptors[..n], NameOf())
      invariant forall d :: d in descriptors[..n] ==> Matches(d, byName[d.name], current.cik)
      invariant forall s :: s in ordered <==> exists d :: d in descriptors[..n] && byName[d.name] == s
    {
      var d := descriptors[n];
      assert d in descriptors;
      if !Matches(d, byName[d.name], current.cik) {
        return None;
      }
      GatherNext(descriptors, n, NameOf());
      GatherAppend(ordered, [byName[d.name]], PageNameOf());
      GatherOne(byName[d.name], PageNameOf());
      assert descriptors[..n + 1] == descriptors[..n] + [d];
      ordered := ordered + [byName[d.name]];
    }
    assert descriptors[..|descriptors|] == descriptors;
    r := Some(ordered);
  }

  method CheckEntries(entries: seq<Entry>, cik: string) returns (ok: bool)
    ensures ok <==> (forall e :: e in entries ==> e.cik == cik) && NoRepeats(Gather(entries, AccessionOf()))
  {
    hide Gather;
    hide NoRepeats;
    var seen: set<string> := {};
    EmptyGather(entries, AccessionOf());
    for n := 0 to |entries|
      invariant forall e :: e in entries[..n] ==> e.cik == cik
      invariant NoRepeats(Gather(entries[..n], AccessionOf()))
      invariant forall a :: a in seen <==> a in Gather(entries[..n], AccessionOf())
    {
      var e := entries[n];
      assert e in entries;
      assert entries[..n + 1] == entries[..n] + [e];
      GatherNext(entries, n, AccessionOf());
      AppendName(Gather(entries[..n], AccessionOf()), e.accession);
      if e.cik != cik {
        return false;
      }
      if e.accession in seen {
        RepeatSoFar(entries, n + 1, AccessionOf());
        return false;
      }
      seen := seen + {e.accession};
    }
    assert entries[..|entries|] == entries;
    return true;
  }

  lemma IndexedByName(supplied: seq<Snapshot>, byName: map<string, Snapshot>, s: Snapshot)
    requires Indexes(byName, supplied) && NoRepeats(Gather(supplied, PageNameOf())) && s in supplied
    ensures byName[s.pageName] == s
  {
    hide Gather;
    hide NoRepeats;
    SameNameSameItem(supplied, PageNameOf(), s, byName[s.pageName]);
  }

  lemma OrderedReconciles(current: Catalog, supplied: seq<Snapshot>, byName: map<string, Snapshot>)
    requires Indexes(byName, supplied) && NoRepeats(Gather(supplied, PageNameOf()))
    requires forall d :: d in current.pages ==> d.name in byName
    ensures (forall d :: d in current.pages ==> Matches(d, byName[d.name], current.cik))
      <==> (forall d, s :: d in current.pages && s in supplied && s.pageName == d.name ==> Matches(d, s, current.cik))
  {
    hide Gather;
    hide NoRepeats;
    hide Matches;
    forall s | s in supplied
      ensures byName[s.pageName] == s
    {
      IndexedByName(supplied, byName, s);
    }
  }

  lemma SortedNames(pages: seq<Descriptor>)
    requires NoRepeats(Gather(pages, NameOf()))
    ensures NoRepeats(Gather(SortBy(pages, PageOrder()), NameOf()))
  {
    hide PageOrder;
    hide NoRepeats;
    SortKeeps(pages, PageOrder());
    GatherSameItems(pages, SortBy(pages, PageOrder()), NameOf());
    KeepsNoRepeats(Gather(pages, NameOf()), Gather(SortBy(pages, PageOrder()), NameOf()));
  }

  lemma EveryPageIsOrdered(current: Catalog, supplied: seq<Snapshot>, byName: map<string, Snapshot>,
                           ordered: seq<Snapshot>)
    requires Indexes(byName, supplied) && NoRepeats(Gather(supplied, PageNameOf())) && NamesAgree(current, supplied)
    requires forall d :: d in current.pages ==> d.name in byName
    requires forall s :: s in ordered <==> exists d :: d in current.pages && byName[d.name] == s
    ensures forall s :: s in ordered <==> s in supplied
  {
    hide Gather;
    hide NoRepeats;
    forall s | s in supplied
      ensures s in ordered
    {
      IndexedByName(supplied, byName, s);
      assert s.pageName in SuppliedNames(supplied);
      var d :| d in current.pages && s.pageName == d.name;
      assert byName[d.name] == s;
    }
  }

  lemma OrderedIsComplete(current: Catalog, supplied: seq<Snapshot>, byName: map<string, Snapshot>,
                          ordered: seq<Snapshot>)
    requires Indexes(byName, supplied) && NoRepeats(Gather(supplied, PageNameOf()))
    requires NoRepeats(Gather(current.pages, NameOf()))
    requires forall d :: d in current.pages ==> d.name in byName
    requires NamesAgree(current, supplied)
    requires Gather(ordered, PageNameOf()) == Gather(SortBy(current.pages, PageOrder()), NameOf())
    requires forall s :: s in ordered <==> exists d :: d in current.pages && byName[d.name] == s
    ensures InDeclaredOrder(ordered, current, supplied)
  {
    hide Gather;
    hide NoRepeats;
    hide SortBy;
    hide NamesAgree;
    hide Indexes;
    hide PageOrder;
    SortedNames(current.pages);
    NamedItemsDoNotRepeat(ordered, PageNameOf());
    NamedItemsDoNotRepeat(supplied, PageNameOf());
    EveryPageIsOrdered(current, supplied, byName, ordered);
    SameSetSameItems(ordered, supplied);
  }

  lemma DeclaredOrderKeepsPages(pages: seq<Snapshot>, current: Catalog, supplied: seq<Snapshot>)
    requires InDeclaredOrder(pages, current, supplied)
    ensures multiset(pages) == multiset(supplied)
  {
  }

  /** Rearranging entries or pages changes neither the admitted filings nor whether an accession repeats. */
  lemma SameEntries(a: seq<Entry>, b: seq<Entry>)
    requires multiset(a) == multiset(b)
    ensures forall e :: e in a <==> e in b
    ensures NoRepeats(Gather(a, AccessionOf())) <==> NoRepeats(Gather(b, AccessionOf()))
  {
    hide Gather;
    hide NoRepeats;
    SameItems(a, b);
    GatherSameItems(a, b, AccessionOf());
    if NoRepeats(Gather(a, AccessionOf())) {
      KeepsNoRepeats(Gather(a, AccessionOf()), Gather(b, AccessionOf()));
    }
    if NoRepeats(Gather(b, AccessionOf())) {
      KeepsNoRepeats(Gather(b, AccessionOf()), Gather(a, AccessionOf()));
    }
  }

  lemma SameUniverse(current: Catalog, a: seq<Snapshot>, b: seq<Snapshot>)
    requires multiset(a) == multiset(b)
    ensures multiset(Universe(current, a)) == multiset(Universe(current, b))
    ensures forall e :: e in Universe(current, a) <==> e in Universe(current, b)
    ensures NoRepeats(Gather(Universe(current, a), AccessionOf())) <==>
      NoRepeats(Gather(Universe(current, b), AccessionOf()))
  {
    hide Gather;
    hide NoRepeats;
    GatherSameItems(a, b, EntriesOf());
    SameEntries(Universe(current, a), Universe(current, b));
  }

  method CheckNames(current: Catalog, supplied: seq<Snapshot>, byName: map<string, Snapshot>) returns (agree: bool)
    requires Indexes(byName, supplied)
    ensures agree <==> NamesAgree(current, supplied)
    ensures agree ==> forall d :: d in current.pages ==> d.name in byName
  {
    assert byName.Keys == SuppliedNames(supplied);
    agree := byName.Keys == DeclaredNames(current.pages);
  }

  method ReconcilePages(current: Catalog, supplied: seq<Snapshot>) returns (r: Option<seq<Snapshot>>)
    ensures r.Some? <==> PagesReconcile(current, supplied)
    ensures r.Some? ==> InDeclaredOrder(r.value, current, supplied)
  {
    hide Gather;
    hide NoRepeats;
    hide AllDifferent;
    hide Matches;
    hide SortBy;
    hide InDeclaredOrder;
    hide NamesAgree;
    hide Indexes;
    hide PageOrder;
    DistinctByCount(Gather(current.pages, NameOf()));
    if !AllDifferent(Gather(current.pages, NameOf())) {
      return None;
    }
    var byName := IndexPages(supplied);
    if byName.None? {
      return None;
    }
    var agree := CheckNames(current, supplied, byName.value);
    if !agree {
      return None;
    }
    var ordered := OrderPages(current, supplied, byName.value);
    OrderedReconciles(current, supplied, byName.value);
    if ordered.Some? {
      OrderedIsComplete(current, supplied, byName.value, ordered.value);
    }
    r := ordered;
  }

  method Build(current: Catalog, supplied: seq<Snapshot>, digest: Digest) returns (r: Option<Manifest>)
    ensures r.Some? <==> Reconciles(current, supplied)
    ensures r.Some? ==> IsManifest(r.value, current, supplied, digest)
  {
    hide Gather;
    hide NoRepeats;
    hide PagesReconcile;
    hide InDeclaredOrder;
    hide ManifestOf;
    hide Universe;
    var ordered := ReconcilePages(current, supplied);
    if ordered.None? {
      return None;
    }
    DeclaredOrderKeepsPages(ordered.value, current, supplied);
    SameUniverse(current, ordered.value, supplied);
    var ok := CheckEntries(Universe(current, ordered.value), current.cik);
    if !ok {
      return None;
    }
    r := Some(ManifestOf(current, ordered.value, digest));
  }

  // ---------------------------------------------------------------- laws of the manifest

  lemma PageOrderIsTotal()
    ensures TotalPreorder(PageOrder())
  {
    hide TotalPreorder;
    hide By;
    hide ByInt;
    hide Then;
    ByIsOrder((d: Descriptor) => d.name);
    ByIntIsOrder((d: Descriptor) => d.from);
    ThenIsOrder(ByInt((d: Descriptor) => d.from), By((d: Descriptor) => d.name));
  }

  lemma FilingOrderIsTotal()
    ensures TotalPreorder(FilingOrder())
  {
    hide TotalPreorder;
    hide By;
    hide ByInt;
    hide Then;
    ByIsOrder((e: Entry) => e.accession);
    ByIntIsOrder((e: Entry) => e.filedOn);
    ThenIsOrder(ByInt((e: Entry) => e.filedOn), By((e: Entry) => e.accession));
  }

  lemma PageTies(pages: seq<Descriptor>)
    requires NoRepeats(Gather(pages, NameOf()))
    ensures TiesAreEqual(pages, PageOrder())
  {
    hide Gather;
    hide NoRepeats;
    forall x, y | x in pages && y in pages && PageOrder()(x, y) && PageOrder()(y, x)
      ensures x == y
    {
      ByTie((d: Descriptor) => d.name, x, y);
      SameNameSameItem(pages, NameOf(), x, y);
    }
  }

  lemma FilingTies(entries: seq<Entry>)
    requires NoRepeats(Gather(entries, AccessionOf()))
    ensures TiesAreEqual(entries, FilingOrder())
  {
    hide Gather;
    hide NoRepeats;
    forall x, y | x in entries && y in entries && FilingOrder()(x, y) && FilingOrder()(y, x)
      ensures x == y
    {
      ByTie((e: Entry) => e.accession, x, y);
      SameNameSameItem(entries, AccessionOf(), x, y);
    }
  }

  /** Every admitted filing of every page is listed, each accession once, by (filing date, accession). */
  lemma EveryFilingOnce(m: Manifest, current: Catalog, supplied: seq<Snapshot>, digest: Digest)
    requires Reconciles(current, supplied) && IsManifest(m, current, supplied, digest)
    ensures multiset(m.filings) == multiset(Universe(current, supplied))
    ensures NoRepeats(Gather(m.filings, AccessionOf()))
    ensures Ordered(m.filings, FilingOrder())
  {
    hide Gather;
    hide NoRepeats;
    hide Universe;
    hide Matches;
    hide SortBy;
    hide TotalPreorder;
    hide Ordered;
    hide FilingOrder;
    FilingOrderIsTotal();
    var pages :| InDeclaredOrder(pages, current, supplied) && m == ManifestOf(current, pages, digest);
    SameUniverse(current, pages, supplied);
    SortKeeps(Universe(current, pages), FilingOrder());
    SortOrdered(Universe(current, pages), FilingOrder());
    SameEntries(Universe(current, pages), m.filings);
  }

  /**
   The current page comes first; after it, page by page in declared order, a supplied page of that
   name with its own source.
   */
  lemma SourcesFollowPages(m: Manifest, current: Catalog, supplied: seq<Snapshot>, digest: Digest, k: nat)
    requires IsManifest(m, current, supplied, digest) && k < |m.pageNames|
    ensures m.pageNames == Gather(SortBy(current.pages, PageOrder()), NameOf())
    ensures |m.sources| == |m.pageNames| + 1 && m.sources[0] == current.source
    ensures exists s :: s in supplied && s.pageName == m.pageNames[k] && s.source == m.sources[k + 1]
  {
    hide Gather;
    hide SortBy;
    hide PageOrder;
    hide Universe;
    var pages :| InDeclaredOrder(pages, current, supplied) && m == ManifestOf(current, pages, digest);
    GatherSingles(pages, PageNameOf());
    GatherSingles(pages, SourceOf());
    NameAt(pages, PageNameOf(), k);
    NameAt(pages, SourceOf(), k);
    SameItems(pages, supplied);
    assert pages[k] in pages;
  }

  /** The same current page and the same set of history pages, listed in any order. */
  ghost predicate SameInputs(a: Catalog, b: Catalog, suppliedA: seq<Snapshot>, suppliedB: seq<Snapshot>)
  {
    && a.cik == b.cik && a.source == b.source
    && multiset(a.entries) == multiset(b.entries)
    && multiset(a.pages) == multiset(b.pages)
    && multiset(suppliedA) == multiset(suppliedB)
  }

  lemma UniverseIsUnordered(a: Catalog, b: Catalog, suppliedA: seq<Snapshot>, suppliedB: seq<Snapshot>)
    requires SameInputs(a, b, suppliedA, suppliedB)
    ensures multiset(Universe(a, suppliedA)) == multiset(Universe(b, suppliedB))
  {
    GatherSameItems(suppliedA, suppliedB, EntriesOf());
    hide Gather;
  }

  lemma ReconciliationIsUnordered(a: Catalog, b: Catalog, suppliedA: seq<Snapshot>, suppliedB: seq<Snapshot>)
    requires SameInputs(a, b, suppliedA, suppliedB) && Reconciles(a, suppliedA)
    ensures Reconciles(b, suppliedB)
  {
    hide Gather;
    hide NoRepeats;
    hide Universe;
    hide Matches;
    NamesAreUnordered(a.pages, b.pages, NameOf());
    NamesAreUnordered(suppliedA, suppliedB, PageNameOf());
    assert DeclaredNames(a.pages) == DeclaredNames(b.pages) && SuppliedNames(suppliedA) == SuppliedNames(suppliedB);
    UniverseIsUnordered(a, b, suppliedA, suppliedB);
    SameEntries(Universe(a, suppliedA), Universe(b, suppliedB));
  }

  lemma PagesAreDetermined(pagesA: seq<Snapshot>, pagesB: seq<Snapshot>)
    requires multiset(pagesA) == multiset(pagesB)
    requires NoRepeats(Gather(pagesA, PageNameOf()))
    requires Gather(pagesA, PageNameOf()) == Gather(pagesB, PageNameOf())
    ensures pagesA == pagesB
  {
    hide Gather;
    hide NoRepeats;
    SameItems(pagesA, pagesB);
    forall k | 0 <= k < |pagesA|
      ensures pagesA[k] == pagesB[k]
    {
      NameAt(pagesA, PageNameOf(), k);
      NameAt(pagesB, PageNameOf(), k);
      assert pagesB[k] in pagesB;
      SameNameSameItem(pagesA, PageNameOf(), pagesA[k], pagesB[k]);
    }
  }

  lemma DeclaredOrderIsUnordered(a: Catalog, b: Catalog, suppliedA: seq<Snapshot>, suppliedB: seq<Snapshot>,
                                 pagesA: seq<Snapshot>, pagesB: seq<Snapshot>)
    requires SameInputs(a, b, suppliedA, suppliedB)
    requires NoRepeats(Gather(a.pages, NameOf())) && NoRepeats(Gather(suppliedA, PageNameOf()))
    requires InDeclaredOrder(pagesA, a, suppliedA) && InDeclaredOrder(pagesB, b, suppliedB)
    ensures pagesA == pagesB
  {
    hide Gather;
    hide NoRepeats;
    hide SortBy;
    hide PageOrder;
    PageOrderIsTotal();
    PageTies(a.pages);
    SortIsCanonical(a.pages, b.pages, PageOrder());
    NamesAreUnordered(suppliedA, pagesA, PageNameOf());
    PagesAreDetermined(pagesA, pagesB);
  }

  /** The manifest, its hash included, depends only on the set of supplied pages, not on any order they are given in. */
  lemma ManifestIsUnordered(a: Catalog, b: Catalog, suppliedA: seq<Snapshot>, suppliedB: seq<Snapshot>, digest: Digest,
                            m: Manifest, n: Manifest)
    requires SameInputs(a, b, suppliedA, suppliedB) && Reconciles(a, suppliedA)
    requires IsManifest(m, a, suppliedA, digest) && IsManifest(n, b, suppliedB, digest)
    ensures m == n
  {
    hide Gather;
    hide NoRepeats;
    hide InDeclaredOrder;
    hide SortBy;
    hide FilingOrder;
    hide Universe;
    hide Matches;
    hide TiesAreEqual;
    hide TotalPreorder;
    var pagesA :| InDeclaredOrder(pagesA, a, suppliedA) && m == ManifestOf(a, pagesA, digest);
    var pagesB :| InDeclaredOrder(pagesB, b, suppliedB) && n == ManifestOf(b, pagesB, digest);
    DeclaredOrderIsUnordered(a, b, suppliedA, suppliedB, pagesA, pagesB);
    DeclaredOrderKeepsPages(pagesA, a, suppliedA);
    SameUniverse(a, pagesA, suppliedA);
    UniverseIsUnordered(a, b, pagesA, pagesB);
    FilingOrderIsTotal();
    FilingTies(Universe(a, pagesA));
    SortIsCanonical(Universe(a, pagesA), Universe(b, pagesB), FilingOrder());
  }
}
