/**
 What extraction accepts and what it records, read off the emitted facts: no trimming, sorting or addressing
 function is needed to read these statements.
 */
module SecLaws {
  import opened LookThrough
  import opened Sequences
  import opened Sorting
  import opened Text
  import opened SecExtraction

  /** Nothing but spaces. */
  predicate Empty(s: string)
  {
    forall c :: c in s ==> IsSpace(c)
  }

  lemma BlankIs(s: string)
    ensures Blank(s) <==> Empty(s)
  {
    var left, right := StripRemovesOnlySpaces(s);
    if Strip(s) != "" {
      StripIdempotent(s);
      assert s[|left|] == Strip(s)[0] && !IsSpace(s[|left|]);
    }
    hide IsSpace;
    hide Strip;
  }

  // ---------------------------------------------------------------- which facts are refused

  datatype Defect =
    | NamelessFact | WrongPeriod | WrongDimension | RepeatedAxis | NamelessUnit | EmptyPrecision
    | NumberWithoutUnit | TextWithUnit | NilWithValue

  ghost predicate WrongDimensionIn(d: Dimension)
  {
    || Empty(d.axisNamespace) || Empty(d.axisName) || Empty(d.memberName)
    || (d.typedMember && d.memberNamespace.Some?)
    || (!d.typedMember && (d.memberNamespace.None? || Empty(d.memberNamespace.value)))
  }

  ghost predicate SameAxis(a: Dimension, b: Dimension)
  {
    Strip(a.axisNamespace) == Strip(b.axisNamespace) && Strip(a.axisName) == Strip(b.axisName)
  }

  ghost predicate Has(f: Fact, defect: Defect)
  {
    match defect
    case NamelessFact => Empty(f.conceptNamespace) || Empty(f.conceptName) || Empty(f.contextId) || Empty(f.locator)
    case WrongPeriod =>
      || (f.periodKind == Instant && f.periodStart.Some?)
      || (f.periodKind == Duration && (f.periodStart.None? || f.periodEnd < f.periodStart.value))
    case WrongDimension => exists d :: d in f.dimensions && WrongDimensionIn(d)
    case RepeatedAxis => exists i, j :: 0 <= i < j < |f.dimensions| && SameAxis(f.dimensions[i], f.dimensions[j])
    case NamelessUnit =>
      || (f.unitId.Some? && Empty(f.unitId.value))
      || exists u :: u in f.numerator + f.denominator && Empty(u)
    case EmptyPrecision =>
      (f.decimals.Some? && Empty(f.decimals.value)) || (f.precision.Some? && Empty(f.precision.value))
    case NumberWithoutUnit => f.isNumeric && f.numerator == []
    case TextWithUnit => !f.isNumeric && (f.numerator != [] || f.denominator != [] || f.unitId.Some?)
    case NilWithValue => f.isNil && exists c :: c in f.rawValue && !IsSpace(c)
  }

  lemma DimensionRefusedIff(d: Dimension)
    ensures AcceptableDimension(d) <==> !WrongDimensionIn(d)
  {
    BlankIs(d.axisNamespace);
    BlankIs(d.axisName);
    BlankIs(d.memberName);
    if d.memberNamespace.Some? {
      BlankIs(d.memberNamespace.value);
    }
    hide Blank;
    hide Empty;
  }

  lemma NormalAxes(s: seq<Dimension>, k: nat)
    requires k < |s|
    ensures var g := Gather(s, NormalDimension());
      |g| == |s| && |Gather(g, AxisOf())| == |s| && g[k] == NormalDimension()(s[k])[0]
      && Gather(g, AxisOf())[k] == (Strip(s[k].axisNamespace), Strip(s[k].axisName))
  {
    var g := Gather(s, NormalDimension());
    GatherSingles(s, NormalDimension());
    NameAt(s, NormalDimension(), k);
    GatherSingles(g, AxisOf());
    NameAt(g, AxisOf(), k);
  }

  lemma AxesDistinctIff(s: seq<Dimension>)
    ensures AxesDistinct(Gather(s, NormalDimension())) <==>
      forall i, j :: 0 <= i < j < |s| ==> !SameAxis(s[i], s[j])
  {
    var names := Gather(Gather(s, NormalDimension()), AxisOf());
    if s == [] {
      assert names == [];
    } else {
      NormalAxes(s, 0);
      forall k | 0 <= k < |s|
        ensures names[k] == (Strip(s[k].axisNamespace), Strip(s[k].axisName))
      {
        NormalAxes(s, k);
      }
      hide Gather;
      hide Strip;
      forall i, j | 0 <= i < j < |s|
        ensures names[i] == names[j] <==> SameAxis(s[i], s[j])
      {
      }
    }
  }

  lemma NilIsBlank(f: Fact)
    ensures Has(f, NilWithValue) <==> f.isNil && !Blank(f.rawValue)
  {
    BlankIs(f.rawValue);
    hide Blank;
    hide IsSpace;
  }

  /** A fact is accepted exactly when it has none of the defects. */
  lemma AcceptedIff(f: Fact)
    ensures Acceptable(f) <==> forall defect :: !Has(f, defect)
  {
    hide Blank;
    hide Empty;
    hide AxesDistinct;
    hide AcceptableDimension;
    hide WrongDimensionIn;
    hide SameAxis;
    hide Gather;
    forall s
      ensures Blank(s) <==> Empty(s)
    {
      BlankIs(s);
    }
    forall d
      ensures AcceptableDimension(d) <==> !WrongDimensionIn(d)
    {
      DimensionRefusedIff(d);
    }
    AxesDistinctIff(f.dimensions);
    NilIsBlank(f);
    assert Acceptable(f) <==>
      && !Has(f, NamelessFact) && !Has(f, WrongPeriod) && !Has(f, WrongDimension) && !Has(f, RepeatedAxis)
      && !Has(f, NamelessUnit) && !Has(f, EmptyPrecision) && !Has(f, NumberWithoutUnit) && !Has(f, TextWithUnit)
      && !Has(f, NilWithValue);
    hide Has;
    hide Acceptable;
  }

  // ---------------------------------------------------------------- what is recorded

  /** The text without the spaces at its two ends. */
  ghost predicate IsTrim(t: string, s: string)
  {
    Trimmed(t) && exists left, right :: s == left + t + right && Empty(left) && Empty(right)
  }

  ghost predicate IsTrimOption(t: Option<string>, s: Option<string>)
  {
    (t.Some? <==> s.Some?) && (t.Some? ==> IsTrim(t.value, s.value))
  }

  lemma StripIsTrim(s: string)
    ensures IsTrim(Strip(s), s)
  {
    StripIdempotent(s);
    var left, right := StripRemovesOnlySpaces(s);
    hide Strip;
    hide Trimmed;
    hide IsSpace;
    assert s == left + Strip(s) + right && Empty(left) && Empty(right);
  }

  ghost predicate IsTrimmedDimension(n: Dimension, d: Dimension)
  {
    && IsTrim(n.axisNamespace, d.axisNamespace) && IsTrim(n.axisName, d.axisName) && IsTrim(n.memberName, d.memberName)
    && IsTrimOption(n.memberNamespace, d.memberNamespace) && n.typedMember == d.typedMember
  }

  ghost predicate AxisBefore(a: Dimension, b: Dimension)
  {
    if a.axisNamespace != b.axisNamespace then TextAtMost(a.axisNamespace, b.axisNamespace)
    else TextAtMost(a.axisName, b.axisName)
  }

  /** Units trimmed and in order. */
  ghost predicate AreUnits(n: seq<string>, s: seq<string>)
  {
    && |n| == |s| && (forall i, j :: 0 <= i < j < |n| ==> TextAtMost(n[i], n[j]))
    && (forall u :: u in s ==> exists t :: t in n && IsTrim(t, u))
    && (forall t :: t in n ==> exists u :: u in s && IsTrim(t, u))
  }

  /** Dimensions trimmed and in the order of their axes. */
  ghost predicate AreDimensions(n: seq<Dimension>, s: seq<Dimension>)
  {
    && |n| == |s| && (forall i, j :: 0 <= i < j < |n| ==> AxisBefore(n[i], n[j]))
    && (forall d :: d in s ==> exists m :: m in n && IsTrimmedDimension(m, d))
    && (forall m :: m in n ==> exists d :: d in s && IsTrimmedDimension(m, d))
  }

  lemma UnitsAre(s: seq<string>)
    ensures AreUnits(NormalUnits(s), s)
  {
    hide Strip;
    hide StringLeq;
    hide TextAtMost;
    hide IsTrim;
    var g, n := Gather(s, NormalText()), NormalUnits(s);
    GatherSingles(s, NormalText());
    StringOrder();
    SortOrdered(g, StringLeq);
    SortKeeps(g, StringLeq);
    SameItems(g, n);
    forall i, j | 0 <= i < j < |n|
      ensures TextAtMost(n[i], n[j])
    {
      StringLeqIs(n[i], n[j]);
    }
    forall u | u in s
      ensures exists t :: t in n && IsTrim(t, u)
    {
      StripIsTrim(u);
      InGather(s, NormalText(), Strip(u));
      assert Strip(u) in NormalText()(u);
    }
    forall t | t in n
      ensures exists u :: u in s && IsTrim(t, u)
    {
      InGather(s, NormalText(), t);
      var u :| u in s && t in NormalText()(u);
      StripIsTrim(u);
    }
    hide SortBy;
    hide Gather;
  }

  lemma AxisOrderIs(a: Dimension, b: Dimension)
    ensures AxisOrder()(a, b) <==> AxisBefore(a, b)
  {
    hide TextAtMost;
    StringLeqIs(a.axisNamespace, b.axisNamespace);
    StringLeqIs(a.axisName, b.axisName);
    StringLeqTotal(a.axisNamespace, b.axisNamespace);
    StringLeqTotal(a.axisNamespace, a.axisNamespace);
    if StringLeq(a.axisNamespace, b.axisNamespace) && StringLeq(b.axisNamespace, a.axisNamespace) {
      StringLeqAntisymmetric(a.axisNamespace, b.axisNamespace);
    }
    hide StringLeq;
  }

  lemma DimensionIsTrimmed(d: Dimension)
    ensures |NormalDimension()(d)| == 1 && IsTrimmedDimension(NormalDimension()(d)[0], d)
  {
    hide Strip;
    hide IsTrim;
    StripIsTrim(d.axisNamespace);
    StripIsTrim(d.axisName);
    StripIsTrim(d.memberName);
    if d.memberNamespace.Some? {
      StripIsTrim(d.memberNamespace.value);
    }
  }

  lemma DimensionsAre(s: seq<Dimension>)
    ensures AreDimensions(NormalDimensions(s), s)
  {
    hide Strip;
    hide AxisOrder;
    hide AxisBefore;
    hide IsTrimmedDimension;
    hide TotalPreorder;
    var g, n := Gather(s, NormalDimension()), NormalDimensions(s);
    GatherSingles(s, NormalDimension());
    AxisOrderIsTotal();
    SortOrdered(g, AxisOrder());
    SortKeeps(g, AxisOrder());
    SameItems(g, n);
    forall i, j | 0 <= i < j < |n|
      ensures AxisBefore(n[i], n[j])
    {
      AxisOrderIs(n[i], n[j]);
    }
    forall d | d in s
      ensures exists m :: m in n && IsTrimmedDimension(m, d)
    {
      DimensionIsTrimmed(d);
      InGather(s, NormalDimension(), NormalDimension()(d)[0]);
      assert NormalDimension()(d)[0] in NormalDimension()(d);
    }
    forall m | m in n
      ensures exists d :: d in s && IsTrimmedDimension(m, d)
    {
      InGather(s, NormalDimension(), m);
      var d :| d in s && m in NormalDimension()(d);
      DimensionIsTrimmed(d);
    }
    hide SortBy;
    hide Gather;
    hide NormalDimension;
  }

  /** The normal form field by field: texts trimmed, lists trimmed and in order, everything else as emitted. */
  lemma NormalFieldsAre(f: Fact)
    ensures var n := Normal(f);
      && IsTrim(n.conceptNamespace, f.conceptNamespace) && IsTrim(n.conceptName, f.conceptName)
      && IsTrim(n.contextId, f.contextId) && IsTrim(n.locator, f.locator)
      && IsTrimOption(n.unitId, f.unitId) && IsTrimOption(n.decimals, f.decimals)
      && IsTrimOption(n.precision, f.precision)
      && AreUnits(n.numerator, f.numerator) && AreUnits(n.denominator, f.denominator)
      && AreDimensions(n.dimensions, f.dimensions)
      && n.periodKind == f.periodKind && n.periodStart == f.periodStart && n.periodEnd == f.periodEnd
      && n.rawValue == f.rawValue && n.isNumeric == f.isNumeric && n.isNil == f.isNil
  {
    hide Strip;
    hide IsTrim;
    hide AreUnits;
    hide AreDimensions;
    hide NormalUnits;
    hide NormalDimensions;
    forall s
      ensures IsTrim(Strip(s), s)
    {
      StripIsTrim(s);
    }
    UnitsAre(f.numerator);
    UnitsAre(f.denominator);
    DimensionsAre(f.dimensions);
  }

  // ---------------------------------------------------------------- the candidate set

  /** One candidate of a filing: the filing's lineage, the fixed method, and an id over its serialised fact. */
  ghost predicate IsCandidateOf(c: Candidate, a: Addressing, source: Source, processorName: string,
                                processorVersion: string)
  {
    && c.shadowOnly
    && c.lineage.documentId == source.documentId && c.lineage.contentHash == source.contentHash
    && IsTrim(c.lineage.accession, source.version)
    && IsTrim(c.lineage.processorName, processorName) && IsTrim(c.lineage.processorVersion, processorVersion)
    && c.lineage.extractionMethod == "sec-xbrl-shadow-extraction"
    && c.lineage.extractionVersion == "sec-xbrl-shadow-v1"
    && c.id == a.candidateId(source.contentHash, c.lineage.processorName, c.lineage.processorVersion,
                             "sec-xbrl-shadow-v1", a.serialize(c.fact))
  }

  /** The set: every normal form once, in the order of the serialised texts, addressed by lineage and ids. */
  lemma ExtractedSetIs(a: Addressing, source: Source, processorName: string, processorVersion: string, facts: seq<Fact>)
    ensures var s := Assembled(a, LineageOf(source, processorName, processorVersion), CanonicalFacts(a, facts));
      && |s.candidates| == |facts|
      && (forall c :: c in s.candidates ==> IsCandidateOf(c, a, source, processorName, processorVersion))
      && (forall i, j :: 0 <= i < j < |s.candidates| ==>
            TextAtMost(a.serialize(s.candidates[i].fact), a.serialize(s.candidates[j].fact)))
      && (forall f :: f in facts ==> exists c :: c in s.candidates && c.fact == Normal(f))
      && s.shadowOnly && s.warnings == ["shadow_extraction_not_admitted_for_underwriting"]
      && s.fingerprint == a.fingerprint(s.lineage, Gather(s.candidates, CandidateIdOf()))
      && s.extractionId == a.extractionId(s.fingerprint)
  {
    var l, cs := LineageOf(source, processorName, processorVersion), CanonicalFacts(a, facts);
    var s := Assembled(a, l, cs);
    CandidatesAt(a, l, cs);
    CanonicalFactsAre(a, facts);
    StripIsTrim(source.version);
    StripIsTrim(processorName);
    StripIsTrim(processorVersion);
    hide Strip;
    hide IsTrim;
    hide TextAtMost;
    hide Gather;
    hide CanonicalFacts;
    hide Normal;
    forall f | f in facts
      ensures exists c :: c in s.candidates && c.fact == Normal(f)
    {
      var i :| 0 <= i < |cs| && cs[i] == Normal(f);
      assert s.candidates[i] in s.candidates;
    }
  }

  /** A lineage is accepted exactly when none of its six texts is empty. */
  lemma LineageFilledIff(l: Lineage)
    ensures !LineageFilled(l) <==>
      || Empty(l.contentHash) || Empty(l.accession) || Empty(l.processorName) || Empty(l.processorVersion)
      || Empty(l.extractionMethod) || Empty(l.extractionVersion)
  {
    hide Blank;
    hide Empty;
    forall s
      ensures Blank(s) <==> Empty(s)
    {
      BlankIs(s);
    }
  }

  lemma CandidatesAt(a: Addressing, l: Lineage, facts: seq<Fact>)
    ensures var cs := Gather(facts, CandidateOf(a, l));
      && |cs| == |facts|
      && forall i :: 0 <= i < |cs| ==> cs[i] == Candidate(IdOf(a, l, facts[i]), l, facts[i], true)
  {
    GatherSingles(facts, CandidateOf(a, l));
    forall i | 0 <= i < |facts|
      ensures Gather(facts, CandidateOf(a, l))[i] == Candidate(IdOf(a, l, facts[i]), l, facts[i], true)
    {
      NameAt(facts, CandidateOf(a, l), i);
    }
    hide Gather;
  }

  lemma CanonicalFactsAre(a: Addressing, facts: seq<Fact>)
    ensures var cs := CanonicalFacts(a, facts);
      && |cs| == |facts| && (forall f :: f in facts ==> Normal(f) in cs)
      && forall i, j :: 0 <= i < j < |cs| ==> TextAtMost(a.serialize(cs[i]), a.serialize(cs[j]))
  {
    hide Normal;
    hide TextAtMost;
    hide StringLeq;
    hide TotalPreorder;
    var g, cs := Gather(facts, NormalOf()), CanonicalFacts(a, facts);
    GatherSingles(facts, NormalOf());
    ByIsOrder(a.serialize);
    SortOrdered(g, By(a.serialize));
    SortKeeps(g, By(a.serialize));
    SameItems(g, cs);
    forall f | f in facts
      ensures Normal(f) in cs
    {
      InGather(facts, NormalOf(), Normal(f));
      assert Normal(f) in NormalOf()(f);
    }
    forall i, j | 0 <= i < j < |cs|
      ensures TextAtMost(a.serialize(cs[i]), a.serialize(cs[j]))
    {
      StringLeqIs(a.serialize(cs[i]), a.serialize(cs[j]));
    }
    hide Gather;
    hide SortBy;
  }
}
