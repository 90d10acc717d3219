/**
 Shadow XBRL extraction: processor facts are normalised, put in one canonical order, content-addressed, and
 re-checked by an integrity validator. `None` is the extraction error. Serialisation, hashing and id
 generation are arbitrary functions.
 */
module SecExtraction {
  import opened LookThrough
  import opened Sequences
  import opened Sorting
  import opened Text

  datatype Dimension = Dimension(
    axisNamespace: string, axisName: string, memberNamespace: Option<string>, memberName: string, typedMember: bool)

  datatype Period = Instant | Duration

  datatype Fact = Fact(
    conceptNamespace: string, conceptName: string, contextId: string,
    periodKind: Period, periodStart: Option<int>, periodEnd: int,
    unitId: Option<string>, numerator: seq<string>, denominator: seq<string>, dimensions: seq<Dimension>,
    decimals: Option<string>, precision: Option<string>, rawValue: string, isNumeric: bool, isNil: bool,
    locator: string)

  // ---------------------------------------------------------------- normalisation

  predicate Blank(s: string)
  {
    Strip(s) == ""
  }

  function StripOption(o: Option<string>): Option<string>
  {
    if o.None? then None else Some(Strip(o.value))
  }

  predicate NotBlank(o: Option<string>)
  {
    o.Some? ==> !Blank(o.value)
  }

  predicate AcceptableDimension(d: Dimension)
  {
    && !Blank(d.axisNamespace) && !Blank(d.axisName) && !Blank(d.memberName)
    && (if d.typedMember then d.memberNamespace.None? else d.memberNamespace.Some? && !Blank(d.memberNamespace.value))
  }

  function NormalDimension(): Dimension -> seq<Dimension>
  {
    (d: Dimension) =>
      [Dimension(Strip(d.axisNamespace), Strip(d.axisName), StripOption(d.memberNamespace), Strip(d.memberName),
                 d.typedMember)]
  }

  function NormalText(): string -> seq<string>
  {
    (s: string) => [Strip(s)]
  }

  function AxisOf(): Dimension -> seq<(string, string)>
  {
    (d: Dimension) => [(d.axisNamespace, d.axisName)]
  }

  predicate AxesDistinct(s: seq<Dimension>)
  {
    NoRepeats(Gather(s, AxisOf()))
  }

  /** Dimensions compare field by field; with distinct axes the comparison ends at the axis. */
  function AxisOrder(): (Dimension, Dimension) -> bool
  {
    Then(By((d: Dimension) => d.axisNamespace), By((d: Dimension) => d.axisName))
  }

  /** Every check of `_normalize_fact`; each failure raises the same error. */
  predicate Acceptable(f: Fact)
  {
    && !Blank(f.conceptNamespace) && !Blank(f.conceptName) && !Blank(f.contextId) && !Blank(f.locator)
    && (if f.periodKind == Instant then f.periodStart.None?
          else f.periodStart.Some? && f.periodStart.value <= f.periodEnd)
    && (forall d :: d in f.dimensions ==> AcceptableDimension(d))
    && AxesDistinct(Gather(f.dimensions, NormalDimension()))
    && NotBlank(f.unitId) && NotBlank(f.decimals) && NotBlank(f.precision)
    && (forall u :: u in f.numerator ==> !Blank(u)) && (forall u :: u in f.denominator ==> !Blank(u))
    && (if f.isNumeric then f.numerator != [] else f.numerator == [] && f.denominator == [] && f.unitId.None?)
    && (f.isNil ==> Blank(f.rawValue))
  }

  function NormalDimensions(s: seq<Dimension>): seq<Dimension>
  {
    SortBy(Gather(s, NormalDimension()), AxisOrder())
  }

  function NormalUnits(s: seq<string>): seq<string>
  {
    SortBy(Gather(s, NormalText()), StringLeq)
  }

  function Normal(f: Fact): Fact
  {
    Fact(Strip(f.conceptNamespace), Strip(f.conceptName), Strip(f.contextId), f.periodKind, f.periodStart, f.periodEnd,
         StripOption(f.unitId), NormalUnits(f.numerator), NormalUnits(f.denominator), NormalDimensions(f.dimensions),
         StripOption(f.decimals), StripOption(f.precision), f.rawValue, f.isNumeric, f.isNil, Strip(f.locator))
  }

  function Normalize(f: Fact): Option<Fact>
  {
    if Acceptable(f) then Some(Normal(f)) else None
  }

  // ---------------------------------------------------------------- laws of normalisation

  lemma AxisOrderIsTotal()
    ensures TotalPreorder(AxisOrder())
  {
    hide TotalPreorder;
    hide By;
    hide Then;
    ByIsOrder((d: Dimension) => d.axisNamespace);
    ByIsOrder((d: Dimension) => d.axisName);
    ThenIsOrder(By((d: Dimension) => d.axisNamespace), By((d: Dimension) => d.axisName));
  }

  lemma AxisTies(s: seq<Dimension>)
    requires AxesDistinct(s)
    ensures TiesAreEqual(s, AxisOrder())
  {
    hide Gather;
    hide NoRepeats;
    forall x, y | x in s && y in s && AxisOrder()(x, y) && AxisOrder()(y, x)
      ensures x == y
    {
      ByTie((d: Dimension) => d.axisNamespace, x, y);
      ByTie((d: Dimension) => d.axisName, x, y);
      SameNameSameItem(s, AxisOf(), x, y);
    }
  }

  lemma {:induction false} GatherFixed<A>(s: seq<A>, f: A -> seq<A>)
    requires forall x :: x in s ==> f(x) == [x]
    ensures Gather(s, f) == s
  {
    if s != [] {
      GatherFixed(s[1..], f);
    }
  }

  lemma NormalUnitsFixed(s: seq<string>)
    ensures NormalUnits(NormalUnits(s)) == NormalUnits(s)
    ensures forall u :: u in NormalUnits(s) ==> Strip(u) == u
    ensures (forall u :: u in s ==> !Blank(u)) ==> forall u :: u in NormalUnits(s) ==> !Blank(u)
    ensures NormalUnits(s) == [] <==> s == []
  {
    hide Strip;
    hide StringLeq;
    var g := Gather(s, NormalText());
    SortKeeps(g, StringLeq);
    SameItems(g, NormalUnits(s));
    forall u | u in NormalUnits(s)
      ensures Strip(u) == u && exists x :: x in s && u == Strip(x)
    {
      InGather(s, NormalText(), u);
      var x :| x in s && u in NormalText()(x);
      StripIdempotent(x);
    }
    GatherFixed(NormalUnits(s), NormalText());
    StringsSortCanonically(g, g);
  }

  lemma NormalUnitsUnordered(a: seq<string>, b: seq<string>)
    requires multiset(a) == multiset(b)
    ensures NormalUnits(a) == NormalUnits(b)
  {
    hide Gather;
    GatherSameItems(a, b, NormalText());
    StringsSortCanonically(Gather(a, NormalText()), Gather(b, NormalText()));
  }

  lemma NormalDimensionIsFixed(d: Dimension)
    requires AcceptableDimension(d)
    ensures var n := NormalDimension()(d)[0]; NormalDimension()(n) == [n] && AcceptableDimension(n)
  {
    hide Strip;
    StripIdempotent(d.axisNamespace);
    StripIdempotent(d.axisName);
    StripIdempotent(d.memberName);
    if d.memberNamespace.Some? {
      StripIdempotent(d.memberNamespace.value);
    }
  }

  lemma NormalDimensionsFixed(s: seq<Dimension>)
    requires AxesDistinct(Gather(s, NormalDimension())) && forall d :: d in s ==> AcceptableDimension(d)
    ensures NormalDimensions(NormalDimensions(s)) == NormalDimensions(s)
    ensures AxesDistinct(Gather(NormalDimensions(s), NormalDimension()))
    ensures forall d :: d in NormalDimensions(s) ==> AcceptableDimension(d)
  {
    hide Gather;
    hide NoRepeats;
    hide SortBy;
    hide AxisOrder;
    hide AcceptableDimension;
    hide TotalPreorder;
    hide TiesAreEqual;
    var g := Gather(s, NormalDimension());
    AxisOrderIsTotal();
    AxisTies(g);
    SortKeeps(g, AxisOrder());
    SortIdempotent(g, AxisOrder());
    NamesAreUnordered(g, NormalDimensions(s), AxisOf());
    forall n | n in NormalDimensions(s)
      ensures NormalDimension()(n) == [n] && AcceptableDimension(n)
    {
      InGather(s, NormalDimension(), n);
      var d :| d in s && n in NormalDimension()(d);
      NormalDimensionIsFixed(d);
    }
    GatherFixed(NormalDimensions(s), NormalDimension());
  }

  lemma NormalDimensionsUnordered(a: seq<Dimension>, b: seq<Dimension>)
    requires multiset(a) == multiset(b) && AxesDistinct(Gather(a, NormalDimension()))
    ensures AxesDistinct(Gather(b, NormalDimension()))
    ensures NormalDimensions(a) == NormalDimensions(b)
  {
    hide Gather;
    hide NoRepeats;
    hide AxisOrder;
    GatherSameItems(a, b, NormalDimension());
    NamesAreUnordered(Gather(a, NormalDimension()), Gather(b, NormalDimension()), AxisOf());
    AxisOrderIsTotal();
    AxisTies(Gather(a, NormalDimension()));
    SortIsCanonical(Gather(a, NormalDimension()), Gather(b, NormalDimension()), AxisOrder());
  }

  /** A normalised fact is acceptable and normalises to itself. */
  lemma NormalizeIdempotent(f: Fact)
    requires Normalize(f).Some?
    ensures Normalize(Normalize(f).value) == Normalize(f)
  {
    hide Strip;
    hide NormalUnits;
    hide NormalDimensions;
    hide AxesDistinct;
    hide AcceptableDimension;
    NormalUnitsFixed(f.numerator);
    NormalUnitsFixed(f.denominator);
    NormalDimensionsFixed(f.dimensions);
    TextFieldsFixed(f);
  }

  lemma TextFieldsFixed(f: Fact)
    ensures Strip(Strip(f.conceptNamespace)) == Strip(f.conceptNamespace)
    ensures Strip(Strip(f.conceptName)) == Strip(f.conceptName)
    ensures Strip(Strip(f.contextId)) == Strip(f.contextId) && Strip(Strip(f.locator)) == Strip(f.locator)
    ensures StripOption(StripOption(f.unitId)) == StripOption(f.unitId)
    ensures StripOption(StripOption(f.decimals)) == StripOption(f.decimals)
    ensures StripOption(StripOption(f.precision)) == StripOption(f.precision)
  {
    hide Strip;
    StripIdempotent(f.conceptNamespace);
    StripIdempotent(f.conceptName);
    StripIdempotent(f.contextId);
    StripIdempotent(f.locator);
    StripOptionFixed(f.unitId);
    StripOptionFixed(f.decimals);
    StripOptionFixed(f.precision);
  }

  lemma StripOptionFixed(o: Option<string>)
    ensures StripOption(StripOption(o)) == StripOption(o)
  {
    hide Strip;
    if o.Some? {
      StripIdempotent(o.value);
    }
  }

  /** Normalising loses no dimension, unit or value. */
  lemma NormalKeepsContent(f: Fact)
    ensures var n := Normal(f);
      && multiset(n.dimensions) == multiset(Gather(f.dimensions, NormalDimension()))
      && multiset(n.numerator) == multiset(Gather(f.numerator, NormalText()))
      && multiset(n.denominator) == multiset(Gather(f.denominator, NormalText()))
      && n.rawValue == f.rawValue && n.periodEnd == f.periodEnd && n.periodStart == f.periodStart
      && (n.unitId.Some? <==> f.unitId.Some?) && (n.decimals.Some? <==> f.decimals.Some?)
      && (n.precision.Some? <==> f.precision.Some?)
  {
    hide Gather;
    hide Strip;
    SortKeeps(Gather(f.dimensions, NormalDimension()), AxisOrder());
    SortKeeps(Gather(f.numerator, NormalText()), StringLeq);
    SortKeeps(Gather(f.denominator, NormalText()), StringLeq);
  }

  /** The same fact with its dimensions and units listed in any order. */
  ghost predicate SameFact(f: Fact, g: Fact)
  {
    && g == f.(dimensions := g.dimensions, numerator := g.numerator, denominator := g.denominator)
    && multiset(f.dimensions) == multiset(g.dimensions)
    && multiset(f.numerator) == multiset(g.numerator) && multiset(f.denominator) == multiset(g.denominator)
  }

  lemma AcceptableIsUnordered(f: Fact, g: Fact)
    requires SameFact(f, g) && Acceptable(f)
    ensures Acceptable(g) && Normal(f) == Normal(g)
  {
    hide AxesDistinct;
    hide AcceptableDimension;
    hide Strip;
    hide NormalUnits;
    hide NormalDimensions;
    SameItems(f.dimensions, g.dimensions);
    SameItems(f.numerator, g.numerator);
    SameItems(f.denominator, g.denominator);
    NormalDimensionsUnordered(f.dimensions, g.dimensions);
    NormalUnitsUnordered(f.numerator, g.numerator);
    NormalUnitsUnordered(f.denominator, g.denominator);
  }

  /** Neither acceptance nor the normal form depends on the order of dimensions or units. */
  lemma NormalizeIsUnordered(f: Fact, g: Fact)
    requires SameFact(f, g)
    ensures Normalize(f) == Normalize(g)
  {
    hide Acceptable;
    hide Normal;
    if Acceptable(f) {
      AcceptableIsUnordered(f, g);
    }
    if Acceptable(g) {
      AcceptableIsUnordered(g, f);
    }
  }

  // ---------------------------------------------------------------- content addressing

  datatype Lineage = Lineage(
    documentId: string, contentHash: string, accession: string,
    processorName: string, processorVersion: string, extractionMethod: string, extractionVersion: string)

  datatype Candidate = Candidate(id: string, lineage: Lineage, fact: Fact, shadowOnly: bool)

  datatype CandidateSet = CandidateSet(
    extractionId: string, fingerprint: string, lineage: Lineage, candidates: seq<Candidate>, warnings: seq<string>,
    shadowOnly: bool)

  const METHOD := "sec-xbrl-shadow-extraction"
  const VERSION := "sec-xbrl-shadow-v1"
  const WARNINGS: seq<string> := ["shadow_extraction_not_admitted_for_underwriting"]

  /**
   `candidateId` takes the content hash, the processor's name and version, the extraction version
   and the serialised fact.
   */
  datatype Addressing = Addressing(
    serialize: Fact -> string,
    candidateId: (string, string, string, string, string) -> string,
    fingerprint: (Lineage, seq<string>) -> string,
    extractionId: string -> string)

  function TextId(a: Addressing, l: Lineage, text: string): string
  {
    a.candidateId(l.contentHash, l.processorName, l.processorVersion, l.extractionVersion, text)
  }

  function IdOf(a: Addressing, l: Lineage, f: Fact): string
  {
    TextId(a, l, a.serialize(f))
  }

  function CandidateOf(a: Addressing, l: Lineage): Fact -> seq<Candidate>
  {
    (f: Fact) => [Candidate(IdOf(a, l, f), l, f, true)]
  }

  function CandidateIdOf(): Candidate -> seq<string>
  {
    (c: Candidate) => [c.id]
  }

  function FactOf(): Candidate -> seq<Fact>
  {
    (c: Candidate) => [c.fact]
  }

  /** The set that a list of facts has under a lineage, every content address computed. */
  function Assembled(a: Addressing, l: Lineage, facts: seq<Fact>): CandidateSet
  {
    var candidates := Gather(facts, CandidateOf(a, l));
    var fingerprint := a.fingerprint(l, Gather(candidates, CandidateIdOf()));
    CandidateSet(a.extractionId(fingerprint), fingerprint, l, candidates, WARNINGS, true)
  }

  predicate LineageFilled(l: Lineage)
  {
    && !Blank(l.contentHash) && !Blank(l.accession) && !Blank(l.processorName) && !Blank(l.processorVersion)
    && !Blank(l.extractionMethod) && !Blank(l.extractionVersion)
  }

  // ---------------------------------------------------------------- the integrity validator

  predicate CandidateIntact(a: Addressing, l: Lineage, c: Candidate)
  {
    c.shadowOnly && c.lineage == l && c.id == IdOf(a, l, c.fact)
  }

  ghost predicate Intact(a: Addressing, s: CandidateSet)
  {
    && s.shadowOnly && s.warnings == WARNINGS && LineageFilled(s.lineage)
    && (forall c :: c in s.candidates ==> CandidateIntact(a, s.lineage, c))
    && NoRepeats(Gather(s.candidates, CandidateIdOf()))
    && s.fingerprint == a.fingerprint(s.lineage, Gather(s.candidates, CandidateIdOf()))
    && s.extractionId == a.extractionId(s.fingerprint)
  }

  method Validate(a: Addressing, s: CandidateSet) returns (ok: bool)
    ensures ok <==> Intact(a, s)
  {
    hide Gather;
    hide NoRepeats;
    hide CandidateIntact;
    hide LineageFilled;
    if !s.shadowOnly || s.warnings != WARNINGS || !LineageFilled(s.lineage) {
      return false;
    }
    var seen: set<string> := {};
    EmptyGather(s.candidates, CandidateIdOf());
    for n := 0 to |s.candidates|
      invariant forall c :: c in s.candidates[..n] ==> CandidateIntact(a, s.lineage, c)
      invariant NoRepeats(Gather(s.candidates[..n], CandidateIdOf()))
      invariant forall id :: id in seen <==> id in Gather(s.candidates[..n], CandidateIdOf())
    {
      var c := s.candidates[n];
      assert c in s.candidates;
      assert s.candidates[..n + 1] == s.candidates[..n] + [c];
      GatherNext(s.candidates, n, CandidateIdOf());
      AppendName(Gather(s.candidates[..n], CandidateIdOf()), c.id);
      if c.id in seen {
        RepeatSoFar(s.candidates, n + 1, CandidateIdOf());
        return false;
      }
      seen := seen + {c.id};
      if !CandidateIntact(a, s.lineage, c) {
        return false;
      }
    }
    assert s.candidates[..|s.candidates|] == s.candidates;
    var fingerprint := a.fingerprint(s.lineage, Gather(s.candidates, CandidateIdOf()));
    ok := s.fingerprint == fingerprint && s.extractionId == a.extractionId(fingerprint);
  }

  lemma {:induction false} IntactCandidates(a: Addressing, l: Lineage, cs: seq<Candidate>)
    ensures (forall c :: c in cs ==> CandidateIntact(a, l, c)) <==>
      cs == Gather(Gather(cs, FactOf()), CandidateOf(a, l))
  {
    if cs != [] {
      IntactCandidates(a, l, cs[1..]);
      var first := Candidate(IdOf(a, l, cs[0].fact), l, cs[0].fact, true);
      var rest := Gather(Gather(cs[1..], FactOf()), CandidateOf(a, l));
      assert Gather(cs, FactOf()) == [cs[0].fact] + Gather(cs[1..], FactOf());
      GatherAppend([cs[0].fact], Gather(cs[1..], FactOf()), CandidateOf(a, l));
      GatherOne(cs[0].fact, CandidateOf(a, l));
      assert Gather(Gather(cs, FactOf()), CandidateOf(a, l)) == [first] + rest;
      FirstAndRest(cs, first, rest);
      assert CandidateIntact(a, l, cs[0]) <==> cs[0] == first;
    } else {
      assert Gather(cs, FactOf()) == [];
    }
  }

  lemma FirstAndRest<T>(s: seq<T>, first: T, rest: seq<T>)
    requires s != []
    ensures s == [first] + rest <==> s[0] == first && s[1..] == rest
    ensures forall x :: x in s <==> x == s[0] || x in s[1..]
  {
    assert s == [s[0]] + s[1..];
    if s == [first] + rest {
      assert s[1..] == rest;
    }
  }

  /**
   The validator accepts exactly the sets assembled from their own facts with a filled lineage and
   no id collision.
   */
  lemma ValidatorAcceptsExactlyAssembled(a: Addressing, s: CandidateSet)
    ensures Intact(a, s) <==>
      && s == Assembled(a, s.lineage, Gather(s.candidates, FactOf()))
      && LineageFilled(s.lineage) && NoRepeats(Gather(s.candidates, CandidateIdOf()))
  {
    hide Gather;
    hide NoRepeats;
    hide CandidateIntact;
    hide LineageFilled;
    IntactCandidates(a, s.lineage, s.candidates);
  }

  // ---------------------------------------------------------------- extraction

  /** A stored document whose bytes have been verified. */
  datatype Source = Source(documentId: string, contentHash: string, version: string, isSecFiling: bool)

  function LineageOf(source: Source, processorName: string, processorVersion: string): Lineage
  {
    Lineage(source.documentId, source.contentHash, Strip(source.version),
            Strip(processorName), Strip(processorVersion), METHOD, VERSION)
  }

  function NormalOf(): Fact -> seq<Fact>
  {
    (f: Fact) => [Normal(f)]
  }

  function TextOf(a: Addressing): Fact -> seq<string>
  {
    (f: Fact) => [a.serialize(f)]
  }

  /** The normalised facts in the order of their serialised text. */
  function CanonicalFacts(a: Addressing, facts: seq<Fact>): seq<Fact>
  {
    SortBy(Gather(facts, NormalOf()), By(a.serialize))
  }

  /** Facts that normalise, with pairwise different texts. */
  ghost predicate FactsAdmitted(a: Addressing, facts: seq<Fact>)
  {
    && (forall f :: f in facts ==> Acceptable(f))
    && NoRepeats(Gather(Gather(facts, NormalOf()), TextOf(a)))
  }

  ghost predicate SourceAdmitted(source: Source, processorName: string, processorVersion: string)
  {
    && source.isSecFiling && !Blank(source.contentHash) && !Blank(source.version)
    && !Blank(processorName) && !Blank(processorVersion)
  }

  /** No two canonical facts share a candidate id. */
  ghost predicate NoIdCollision(a: Addressing, l: Lineage, facts: seq<Fact>)
  {
    NoRepeats(Gather(Gather(CanonicalFacts(a, facts), CandidateOf(a, l)), CandidateIdOf()))
  }

  method NormalizeAll(facts: seq<Fact>) returns (r: Option<seq<Fact>>)
    ensures r.Some? <==> forall f :: f in facts ==> Acceptable(f)
    ensures r.Some? ==> r.value == Gather(facts, NormalOf())
  {
    hide Acceptable;
    hide Normal;
    hide Gather;
    var normalized: seq<Fact> := [];
    EmptyGather(facts, NormalOf());
    for n := 0 to |facts|
      invariant forall f :: f in facts[..n] ==> Acceptable(f)
      invariant normalized == Gather(facts[..n], NormalOf())
    {
      var fact := Normalize(facts[n]);
      assert facts[n] in facts;
      if fact.None? {
        return None;
      }
      assert facts[..n + 1] == facts[..n] + [facts[n]];
      GatherNext(facts, n, NormalOf());
      normalized := normalized + [fact.value];
    }
    assert facts[..|facts|] == facts;
    r := Some(normalized);
  }

  method BuildCandidates(a: Addressing, l: Lineage, facts: seq<Fact>) returns (candidates: seq<Candidate>)
    ensures candidates == Gather(facts, CandidateOf(a, l))
  {
    hide Gather;
    candidates := [];
    EmptyGather(facts, CandidateOf(a, l));
    for n := 0 to |facts|
      invariant candidates == Gather(facts[..n], CandidateOf(a, l))
    {
      GatherNext(facts, n, CandidateOf(a, l));
      candidates := candidates + [Candidate(IdOf(a, l, facts[n]), l, facts[n], true)];
    }
    assert facts[..|facts|] == facts;
  }

  /** Extraction succeeds exactly when source and facts are admitted and no two candidate ids collide. */
  method Extract(a: Addressing, source: Source, processorName: string, processorVersion: string, facts: seq<Fact>)
    returns (r: Option<CandidateSet>)
    ensures r.Some? <==>
      && SourceAdmitted(source, processorName, processorVersion) && FactsAdmitted(a, facts)
      && NoIdCollision(a, LineageOf(source, processorName, processorVersion), facts)
    ensures r.Some? ==> Intact(a, r.value)
    ensures r.Some? ==>
      r.value == Assembled(a, LineageOf(source, processorName, processorVersion), CanonicalFacts(a, facts))
  {
    hide Acceptable;
    hide Gather;
    hide NoRepeats;
    hide Intact;
    hide SortBy;
    hide Strip;
    hide NormalOf;
    hide LineageFilled;
    if !source.isSecFiling || Blank(source.version) || Blank(processorName) || Blank(processorVersion) {
      return None;
    }
    var normalized := NormalizeAll(facts);
    if normalized.None? {
      return None;
    }
    var texts := Gather(normalized.value, TextOf(a));
    DistinctByCount(texts);
    if !AllDifferent(texts) {
      return None;
    }
    var l := LineageOf(source, processorName, processorVersion);
    var ordered := SortBy(normalized.value, By(a.serialize));
    var candidates := BuildCandidates(a, l, ordered);
    var fingerprint := a.fingerprint(l, Gather(candidates, CandidateIdOf()));
    var result := CandidateSet(a.extractionId(fingerprint), fingerprint, l, candidates, WARNINGS, true);
    var ok := Validate(a, result);
    AssembledIsIntactIff(a, l, ordered);
    FilledIff(source, processorName, processorVersion);
    if !ok {
      return None;
    }
    r := Some(result);
  }

  lemma FilledIff(source: Source, processorName: string, processorVersion: string)
    ensures LineageFilled(LineageOf(source, processorName, processorVersion)) <==>
      !Blank(source.contentHash) && !Blank(source.version) && !Blank(processorName) && !Blank(processorVersion)
  {
    StripIdempotent(source.version);
    StripIdempotent(processorName);
    StripIdempotent(processorVersion);
    ConstantsFilled();
    hide Strip;
  }

  lemma ConstantsFilled()
    ensures !Blank(METHOD) && !Blank(VERSION)
  {
    TrimmedIsFixed(METHOD);
    TrimmedIsFixed(VERSION);
  }

  lemma TrimmedIsFixed(s: string)
    requires Trimmed(s)
    ensures Strip(s) == s
  {
  }

  /** Extraction's own output can only fail its validator on a blank lineage or an id collision. */
  lemma AssembledIsIntactIff(a: Addressing, l: Lineage, facts: seq<Fact>)
    ensures Intact(a, Assembled(a, l, facts)) <==>
      LineageFilled(l) && NoRepeats(Gather(Gather(facts, CandidateOf(a, l)), CandidateIdOf()))
  {
    hide Gather;
    hide NoRepeats;
    hide LineageFilled;
    FactsOfCandidates(a, l, facts);
    ValidatorAcceptsExactlyAssembled(a, Assembled(a, l, facts));
    hide Intact;
  }

  lemma {:induction false} FactsOfCandidates(a: Addressing, l: Lineage, facts: seq<Fact>)
    ensures Gather(Gather(facts, CandidateOf(a, l)), FactOf()) == facts
  {
    if facts != [] {
      FactsOfCandidates(a, l, facts[1..]);
      var c := Candidate(IdOf(a, l, facts[0]), l, facts[0], true);
      GatherAppend([c], Gather(facts[1..], CandidateOf(a, l)), FactOf());
      GatherOne(c, FactOf());
    }
  }

  // ---------------------------------------------------------------- laws of extraction

  /** The same facts in any order, each with its dimensions and units in any order. */
  ghost predicate SameFacts(f: seq<Fact>, g: seq<Fact>)
  {
    exists h: seq<Fact> ::
      |h| == |f| && (forall i :: 0 <= i < |f| ==> SameFact(f[i], h[i])) && multiset(h) == multiset(g)
  }

  lemma {:induction false} NormalizedPairwise(f: seq<Fact>, h: seq<Fact>)
    requires |h| == |f| && forall i :: 0 <= i < |f| ==> SameFact(f[i], h[i])
    requires forall x :: x in f ==> Acceptable(x)
    ensures forall x :: x in h ==> Acceptable(x)
    ensures Gather(f, NormalOf()) == Gather(h, NormalOf())
  {
    hide Acceptable;
    hide Normal;
    hide SameFact;
    if f != [] {
      assert SameFact(f[0], h[0]);
      AcceptableIsUnordered(f[0], h[0]);
      NormalizedPairwise(f[1..], h[1..]);
      assert h == [h[0]] + h[1..];
    }
  }

  lemma TextTies(a: Addressing, facts: seq<Fact>)
    requires NoRepeats(Gather(facts, TextOf(a)))
    ensures TiesAreEqual(facts, By(a.serialize))
  {
    hide Gather;
    hide NoRepeats;
    forall x, y | x in facts && y in facts && By(a.serialize)(x, y) && By(a.serialize)(y, x)
      ensures x == y
    {
      ByTie(a.serialize, x, y);
      SameNameSameItem(facts, TextOf(a), x, y);
    }
  }

  /**
   The whole candidate set depends only on which facts were emitted: not on the order of facts,
   dimensions or units.
   */
  lemma ExtractionIsUnordered(a: Addressing, l: Lineage, f: seq<Fact>, g: seq<Fact>)
    requires SameFacts(f, g) && FactsAdmitted(a, f)
    ensures FactsAdmitted(a, g)
    ensures CanonicalFacts(a, f) == CanonicalFacts(a, g)
    ensures Assembled(a, l, CanonicalFacts(a, f)) == Assembled(a, l, CanonicalFacts(a, g))
    ensures NoIdCollision(a, l, f) <==> NoIdCollision(a, l, g)
  {
    hide Gather;
    hide NoRepeats;
    hide Acceptable;
    hide NormalOf;
    hide SameFact;
    hide SortBy;
    var h :| |h| == |f| && (forall i :: 0 <= i < |f| ==> SameFact(f[i], h[i])) && multiset(h) == multiset(g);
    NormalizedPairwise(f, h);
    SameItems(h, g);
    GatherSameItems(h, g, NormalOf());
    var m, n := Gather(f, NormalOf()), Gather(g, NormalOf());
    NamesAreUnordered(m, n, TextOf(a));
    ByIsOrder(a.serialize);
    TextTies(a, m);
    SortIsCanonical(m, n, By(a.serialize));
  }

  ghost predicate InjectiveIds(a: Addressing, l: Lineage)
  {
    forall s, t :: TextId(a, l, s) == TextId(a, l, t) ==> s == t
  }

  /** With an injective candidate id, admitted facts never collide: their texts already differ. */
  lemma InjectiveIdsDoNotCollide(a: Addressing, l: Lineage, facts: seq<Fact>)
    requires InjectiveIds(a, l)
    requires FactsAdmitted(a, facts)
    ensures NoIdCollision(a, l, facts)
  {
    hide Gather;
    hide NoRepeats;
    hide Acceptable;
    hide NormalOf;
    hide SortBy;
    var m := Gather(facts, NormalOf());
    var c := CanonicalFacts(a, facts);
    SortKeeps(m, By(a.serialize));
    NamesAreUnordered(m, c, TextOf(a));
    IdsDistinct(a, l, c);
  }

  lemma IdsDistinct(a: Addressing, l: Lineage, facts: seq<Fact>)
    requires InjectiveIds(a, l)
    requires NoRepeats(Gather(facts, TextOf(a)))
    ensures NoRepeats(Gather(Gather(facts, CandidateOf(a, l)), CandidateIdOf()))
  {
    hide Gather;
    var candidates := Gather(facts, CandidateOf(a, l));
    forall i, j | 0 <= i < j < |Gather(candidates, CandidateIdOf())|
      ensures Gather(candidates, CandidateIdOf())[i] != Gather(candidates, CandidateIdOf())[j]
    {
      IdAt(a, l, facts, i);
      IdAt(a, l, facts, j);
    }
  }

  lemma IdAt(a: Addressing, l: Lineage, facts: seq<Fact>, k: nat)
    requires k < |Gather(Gather(facts, CandidateOf(a, l)), CandidateIdOf())|
    ensures k < |facts| == |Gather(facts, TextOf(a))|
    ensures Gather(Gather(facts, CandidateOf(a, l)), CandidateIdOf())[k] == IdOf(a, l, facts[k])
    ensures Gather(facts, TextOf(a))[k] == a.serialize(facts[k])
  {
    hide Gather;
    var candidates := Gather(facts, CandidateOf(a, l));
    GatherSingles(candidates, CandidateIdOf());
    GatherSingles(facts, CandidateOf(a, l));
    NameAt(candidates, CandidateIdOf(), k);
    NameAt(facts, CandidateOf(a, l), k);
    NameAt(facts, TextOf(a), k);
  }
}
