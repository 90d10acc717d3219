/** What the manifest builder refuses and what a manifest lists, read off the pages and filings. */
module ManifestLaws {
  import opened Sequences
  import opened Sorting
  import opened SecManifest

  // ---------------------------------------------------------------- which pages are refused

  datatype Defect =
    | DeclaredTwice | SuppliedTwice | MissingPage | UnexpectedPage | ForeignPage | WrongCount | OutOfRange
    | ForeignFiling | RepeatedAccession

  /** A supplied page and its declaration. */
  ghost predicate IsPair(current: Catalog, supplied: seq<Snapshot>, d: Descriptor, s: Snapshot)
  {
    d in current.pages && s in supplied && s.pageName == d.name
  }

  ghost predicate Has(current: Catalog, supplied: seq<Snapshot>, defect: Defect)
  {
    match defect
    case DeclaredTwice => exists i, j :: 0 <= i < j < |current.pages| && current.pages[i].name == current.pages[j].name
    case SuppliedTwice => exists i, j :: 0 <= i < j < |supplied| && supplied[i].pageName == supplied[j].pageName
    case MissingPage => exists d :: d in current.pages && forall s :: s in supplied ==> s.pageName != d.name
    case UnexpectedPage => exists s :: s in supplied && forall d :: d in current.pages ==> s.pageName != d.name
    case ForeignPage => exists d, s :: IsPair(current, supplied, d, s) && s.cik != current.cik
    case WrongCount => exists d, s :: IsPair(current, supplied, d, s) && s.totalFilings != d.filingCount
    case OutOfRange =>
      exists d, s, e :: IsPair(current, supplied, d, s) && e in s.entries && (e.filedOn < d.from || d.to < e.filedOn)
    case ForeignFiling =>
      || (exists e :: e in current.entries && e.cik != current.cik)
      || (exists s, e :: s in supplied && e in s.entries && e.cik != current.cik)
    case RepeatedAccession =>
      var all := Universe(current, supplied);
      exists i, j :: 0 <= i < j < |all| && all[i].accession == all[j].accession
  }

  /** Names repeat exactly when two places have the same one. */
  lemma RepeatIff<A, B>(s: seq<A>, f: A -> seq<B>)
    requires forall x :: x in s ==> |f(x)| == 1
    ensures NoRepeats(Gather(s, f)) <==> forall i, j :: 0 <= i < j < |s| ==> f(s[i])[0] != f(s[j])[0]
  {
    GatherSingles(s, f);
    forall k | 0 <= k < |s|
      ensures Gather(s, f)[k] == f(s[k])[0]
    {
      NameAt(s, f, k);
    }
    hide Gather;
  }

  /** The filings are those of the current page and those of the supplied ones. */
  lemma UniverseIs(current: Catalog, supplied: seq<Snapshot>, e: Entry)
    ensures e in Universe(current, supplied) <==>
      e in current.entries || exists s :: s in supplied && e in s.entries
  {
    InGather(supplied, EntriesOf(), e);
    hide Gather;
  }

  lemma NamesAgreeIff(current: Catalog, supplied: seq<Snapshot>)
    ensures NamesAgree(current, supplied) <==>
      !Has(current, supplied, MissingPage) && !Has(current, supplied, UnexpectedPage)
  {
    var declared, names := DeclaredNames(current.pages), SuppliedNames(supplied);
    if NamesAgree(current, supplied) {
      forall d | d in current.pages
        ensures exists s :: s in supplied && s.pageName == d.name
      {
        assert d.name in names;
      }
      forall s | s in supplied
        ensures exists d :: d in current.pages && s.pageName == d.name
      {
        assert s.pageName in declared;
      }
    }
  }

  lemma PagesMatchIff(current: Catalog, supplied: seq<Snapshot>)
    ensures (forall d, s ::
               d in current.pages && s in supplied && s.pageName == d.name ==> Matches(d, s, current.cik)) <==>
      && !Has(current, supplied, ForeignPage) && !Has(current, supplied, WrongCount)
      && !Has(current, supplied, OutOfRange)
  {
    if && !Has(current, supplied, ForeignPage) && !Has(current, supplied, WrongCount)
       && !Has(current, supplied, OutOfRange) {
      forall d, s | d in current.pages && s in supplied && s.pageName == d.name
        ensures Matches(d, s, current.cik)
      {
        assert IsPair(current, supplied, d, s);
      }
    }
  }

  lemma PagesReconcileIff(current: Catalog, supplied: seq<Snapshot>)
    ensures PagesReconcile(current, supplied) <==>
      && !Has(current, supplied, DeclaredTwice) && !Has(current, supplied, SuppliedTwice)
      && !Has(current, supplied, MissingPage) && !Has(current, supplied, UnexpectedPage)
      && !Has(current, supplied, ForeignPage) && !Has(current, supplied, WrongCount)
      && !Has(current, supplied, OutOfRange)
  {
    hide Gather;
    hide NoRepeats;
    hide Matches;
    RepeatIff(current.pages, NameOf());
    RepeatIff(supplied, PageNameOf());
    NamesAgreeIff(current, supplied);
    PagesMatchIff(current, supplied);
    hide NamesAgree;
    hide IsPair;
  }

  lemma FilingsIff(current: Catalog, supplied: seq<Snapshot>)
    ensures (forall e :: e in Universe(current, supplied) ==> e.cik == current.cik) <==>
      !Has(current, supplied, ForeignFiling)
    ensures NoRepeats(Gather(Universe(current, supplied), AccessionOf())) <==>
      !Has(current, supplied, RepeatedAccession)
  {
    RepeatIff(Universe(current, supplied), AccessionOf());
    forall e
      ensures e in Universe(current, supplied) <==>
        e in current.entries || exists s :: s in supplied && e in s.entries
    {
      UniverseIs(current, supplied, e);
    }
    hide Universe;
    hide Gather;
    hide NoRepeats;
  }

  /** The pages reconcile exactly when they have none of the defects. */
  lemma ReconcilesIff(current: Catalog, supplied: seq<Snapshot>)
    ensures Reconciles(current, supplied) <==> forall defect :: !Has(current, supplied, defect)
  {
    hide PagesReconcile;
    hide Has;
    PagesReconcileIff(current, supplied);
    FilingsIff(current, supplied);
    hide Universe;
    hide Gather;
    hide NoRepeats;
    if Reconciles(current, supplied) {
      forall defect
        ensures !Has(current, supplied, defect)
      {
        match defect {
          case DeclaredTwice =>
          case SuppliedTwice =>
          case MissingPage =>
          case UnexpectedPage =>
          case ForeignPage =>
          case WrongCount =>
          case OutOfRange =>
          case ForeignFiling =>
          case RepeatedAccession =>
        }
      }
    }
  }

  // ---------------------------------------------------------------- what a manifest lists

  ghost predicate FiledBefore(a: Entry, b: Entry)
  {
    a.filedOn < b.filedOn || (a.filedOn == b.filedOn && TextAtMost(a.accession, b.accession))
  }

  ghost predicate DeclaredBefore(a: Descriptor, b: Descriptor)
  {
    a.from < b.from || (a.from == b.from && TextAtMost(a.name, b.name))
  }

  lemma FilingOrderIs(a: Entry, b: Entry)
    ensures FilingOrder()(a, b) <==> FiledBefore(a, b)
  {
    StringLeqIs(a.accession, b.accession);
    hide StringLeq;
    hide TextAtMost;
  }

  lemma PageOrderIs(a: Descriptor, b: Descriptor)
    ensures PageOrder()(a, b) <==> DeclaredBefore(a, b)
  {
    StringLeqIs(a.name, b.name);
    hide StringLeq;
    hide TextAtMost;
  }

  /** The filings of a manifest, each once, by filing date and accession, with the hash over what is listed. */
  lemma FilingsAre(m: Manifest, current: Catalog, supplied: seq<Snapshot>, digest: Digest, e: Entry)
    requires Reconciles(current, supplied) && IsManifest(m, current, supplied, digest)
    ensures e in m.filings <==> e in current.entries || exists s :: s in supplied && e in s.entries
    ensures forall i, j :: 0 <= i < j < |m.filings| ==>
      FiledBefore(m.filings[i], m.filings[j]) && m.filings[i].accession != m.filings[j].accession
    ensures m.cik == current.cik && m.hash == digest(current.cik, m.sources, m.filings)
  {
    EveryFilingOnce(m, current, supplied, digest);
    SameItems(m.filings, Universe(current, supplied));
    UniverseIs(current, supplied, e);
    RepeatIff(m.filings, AccessionOf());
    hide Universe;
    hide Gather;
    hide NoRepeats;
    hide Reconciles;
    hide SortBy;
    hide FiledBefore;
    hide FilingOrder;
    forall i, j | 0 <= i < j < |m.filings|
      ensures FiledBefore(m.filings[i], m.filings[j])
    {
      FilingOrderIs(m.filings[i], m.filings[j]);
    }
  }

  /** The pages of a manifest, in the order of start date and name. */
  lemma PagesAre(m: Manifest, current: Catalog, supplied: seq<Snapshot>, digest: Digest)
    returns (declared: seq<Descriptor>)
    requires IsManifest(m, current, supplied, digest)
    ensures multiset(declared) == multiset(current.pages) && |m.pageNames| == |declared|
    ensures forall i :: 0 <= i < |declared| ==> m.pageNames[i] == declared[i].name
    ensures forall i, j :: 0 <= i < j < |declared| ==> DeclaredBefore(declared[i], declared[j])
  {
    hide TotalPreorder;
    hide PageOrder;
    hide DeclaredBefore;
    hide Universe;
    declared := SortBy(current.pages, PageOrder());
    PageOrderIsTotal();
    SortKeeps(current.pages, PageOrder());
    SortOrdered(current.pages, PageOrder());
    GatherSingles(declared, NameOf());
    forall i | 0 <= i < |declared|
      ensures Gather(declared, NameOf())[i] == declared[i].name
    {
      NameAt(declared, NameOf(), i);
    }
    forall i, j | 0 <= i < j < |declared|
      ensures DeclaredBefore(declared[i], declared[j])
    {
      PageOrderIs(declared[i], declared[j]);
    }
    hide Gather;
    hide SortBy;
  }
}
