/**
 The marginal decision's input: comparisons written from either side are brought to one orientation, and the
 decision is the same from whichever side and in whichever order they were written.
 */
module DecisionReplay {
  import opened LookThrough
  import opened Sequences
  import opened Sorting
  import opened Canonical
  import StateReplay
  import Dominance
  import PolicyDecision

  datatype Preference = PreferFirst | PreferSecond | Balanced | PreferenceUnknown

  /** `rank` is the place of the trade-off dimension in its enumeration, as a one-digit text. */
  datatype Component = Component(rank: string, preference: Preference, missing: seq<string>, content: string)

  datatype Comparison = Comparison(
    first: string, second: string, conclusion: Dominance.Conclusion, components: seq<Component>, rationale: string)

  datatype Assessment = Assessment(alternativeId: string, riskIds: seq<string>, missing: seq<string>, content: string)

  /** `rest` stands for the capital amount, the candidate, the horizon and the ordered texts. */
  datatype Input = Input(
    fundingIds: seq<string>, assessments: seq<Assessment>, comparisons: seq<Comparison>,
    missing: seq<string>, conflicts: seq<string>, assumptions: seq<string>, rest: string)

  function InOrder(s: seq<string>): seq<string>
  {
    StateReplay.InOrder(s)
  }

  // ---------------------------------------------------------------- orientation

  function FlipPreference(p: Preference): Preference
  {
    match p
    case PreferFirst => PreferSecond
    case PreferSecond => PreferFirst
    case _ => p
  }

  function FlipConclusion(c: Dominance.Conclusion): Dominance.Conclusion
  {
    match c
    case First => Dominance.Second
    case Second => Dominance.First
    case Indeterminate => Dominance.Indeterminate
  }

  function Rank(): Component -> string { (c: Component) => c.rank }

  function CanonComponent(reverse: bool): Component -> Component
  {
    (c: Component) =>
      c.(preference := if reverse then FlipPreference(c.preference) else c.preference, missing := InOrder(c.missing))
  }

  /** Written with the smaller id first. */
  function CanonComparison(): Comparison -> Comparison
  {
    (c: Comparison) =>
      var reverse := !StringLeq(c.first, c.second);
      Comparison(
        if reverse then c.second else c.first,
        if reverse then c.first else c.second,
        if reverse then FlipConclusion(c.conclusion) else c.conclusion,
        CanonList(c.components, CanonComponent(reverse), By(Rank())),
        c.rationale)
  }

  /** The same comparison written from the other side. */
  function Reversed(c: Comparison): Comparison
  {
    Comparison(c.second, c.first, FlipConclusion(c.conclusion), Each(c.components, FlipComponent()), c.rationale)
  }

  function FlipComponent(): Component -> Component
  {
    (c: Component) => c.(preference := FlipPreference(c.preference))
  }

  predicate ValidComparison(c: Comparison)
  {
    c.first != c.second && IdsDistinct(c.components, Rank())
  }

  lemma ComponentsStable(s: seq<Component>)
    ensures Stable(s, CanonComponent(false), Rank())
  {
    forall c | c in s
      ensures CanonComponent(false)(CanonComponent(false)(c)) == CanonComponent(false)(c)
    {
      StateReplay.StringsCanonical(c.missing, c.missing);
    }
  }

  /** Flipping first and canonicalising, or canonicalising with the flip, is the same. */
  lemma {:induction false} FlipThenCanon(s: seq<Component>, reverse: bool)
    ensures Each(Each(s, FlipComponent()), CanonComponent(reverse)) == Each(s, CanonComponent(!reverse))
  {
    hide StateReplay.InOrder;
    if s != [] {
      FlipThenCanon(s[1..], reverse);
      var first := FlipComponent()(s[0]);
      GatherAppend([first], Each(s[1..], FlipComponent()), Single(CanonComponent(reverse)));
      GatherOne(first, Single(CanonComponent(reverse)));
    }
  }

  lemma {:induction false} FlipIsCanonTrue(s: seq<Component>)
    ensures Each(s, CanonComponent(true)) == Each(Each(s, FlipComponent()), CanonComponent(false))
  {
    FlipThenCanon(s, false);
  }

  lemma FlipKeepsRanks(s: seq<Component>)
    ensures Each(Each(s, FlipComponent()), Rank()) == Each(s, Rank())
  {
    EachAfter(s, FlipComponent(), Rank());
  }

  /** Either side in, the same canonical comparison out. */
  lemma OrientationIsForgotten(c: Comparison)
    requires ValidComparison(c)
    ensures CanonComparison()(Reversed(c)) == CanonComparison()(c) && ValidComparison(Reversed(c))
  {
    hide Gather;
    hide NoRepeats;
    hide SortBy;
    FlipKeepsRanks(c.components);
    FlipThenCanon(c.components, true);
    FlipThenCanon(c.components, false);
    StringLeqTotal(c.first, c.second);
    if StringLeq(c.first, c.second) && StringLeq(c.second, c.first) {
      StringLeqAntisymmetric(c.first, c.second);
    }
    hide StringLeq;
  }

  lemma ComponentsCanonical(s: seq<Component>, reverse: bool)
    requires IdsDistinct(s, Rank())
    ensures var r := CanonList(s, CanonComponent(reverse), By(Rank()));
      CanonList(r, CanonComponent(false), By(Rank())) == r && IdsDistinct(r, Rank())
  {
    hide Gather;
    hide NoRepeats;
    hide SortBy;
    if reverse {
      var flipped := Each(s, FlipComponent());
      FlipKeepsRanks(s);
      FlipIsCanonTrue(s);
      ComponentsStable(flipped);
      ListIdempotent(flipped, CanonComponent(false), Rank());
    } else {
      ComponentsStable(s);
      ListIdempotent(s, CanonComponent(false), Rank());
    }
  }

  /** A canonical comparison is written with the smaller id first and stays as it is. */
  lemma ComparisonFixed(c: Comparison)
    requires ValidComparison(c)
    ensures var n := CanonComparison()(c);
      CanonComparison()(n) == n && ValidComparison(n) && StringLeq(n.first, n.second)
  {
    hide CanonList;
    hide IdsDistinct;
    var reverse := !StringLeq(c.first, c.second);
    StringLeqTotal(c.first, c.second);
    ComponentsCanonical(c.components, reverse);
    hide StringLeq;
  }

  /** The comparison turned so that the smaller id comes first. */
  function Upright(c: Comparison): Comparison
  {
    if StringLeq(c.first, c.second) then c else Reversed(c)
  }

  /** Equal in everything but the order of components and of their missing data. */
  ghost predicate SameSide(x: Comparison, y: Comparison)
  {
    x == y.(components := x.components) && Rearranged(x.components, y.components, CanonComponent(false))
  }

  lemma UprightCanon(c: Comparison)
    requires ValidComparison(c)
    ensures var u := Upright(c);
      StringLeq(u.first, u.second) && CanonComparison()(u) == CanonComparison()(c) && ValidComparison(u)
  {
    hide CanonComparison;
    hide ValidComparison;
    hide StringLeq;
    StringLeqTotal(c.first, c.second);
    OrientationIsForgotten(c);
  }

  /** Two comparisons have one canonical form exactly when, turned upright, they say the same. */
  lemma SameComparisonIff(x: Comparison, y: Comparison)
    requires ValidComparison(x) && ValidComparison(y)
    ensures CanonComparison()(x) == CanonComparison()(y) <==> SameSide(Upright(x), Upright(y))
  {
    UprightCanon(x);
    UprightCanon(y);
    UprightSame(Upright(x), Upright(y));
    hide CanonComparison;
    hide SameSide;
    hide Upright;
  }

  lemma UprightSame(x: Comparison, y: Comparison)
    requires ValidComparison(x) && StringLeq(x.first, x.second) && StringLeq(y.first, y.second)
    ensures CanonComparison()(x) == CanonComparison()(y) <==> SameSide(x, y)
  {
    hide StringLeq;
    hide CanonList;
    hide Rearranged;
    hide IdsDistinct;
    ComponentsStable(x.components);
    SameListIff(x.components, y.components, CanonComponent(false), Rank());
  }

  // ---------------------------------------------------------------- the verdict of a comparison

  function VerdictOf(c: Comparison): Dominance.Comparison
  {
    Dominance.Comparison(c.first, c.second, c.conclusion)
  }

  function Verdicts(s: seq<Comparison>): seq<Dominance.Comparison>
  {
    seq(|s|, i requires 0 <= i < |s| => VerdictOf(s[i]))
  }

  /** Canonicalising keeps each verdict, up to the side it is written from. */
  lemma CanonKeepsVerdict(c: Comparison)
    ensures var n := CanonComparison()(c);
      VerdictOf(n) == VerdictOf(c) ||
        (VerdictOf(n) == Dominance.Flip(VerdictOf(c)) && Dominance.Flip(VerdictOf(n)) == VerdictOf(c))
  {
    hide CanonList;
  }

  lemma VerdictIn(s: seq<Comparison>, c: Comparison)
    requires c in s
    ensures VerdictOf(c) in Verdicts(s)
  {
    var i :| 0 <= i < |s| && s[i] == c;
    assert Verdicts(s)[i] == VerdictOf(c);
  }

  lemma FromVerdicts(s: seq<Comparison>, v: Dominance.Comparison) returns (c: Comparison)
    requires v in Verdicts(s)
    ensures c in s && VerdictOf(c) == v
  {
    var i :| 0 <= i < |Verdicts(s)| && Verdicts(s)[i] == v;
    c := s[i];
  }

  function CanonComparisons(s: seq<Comparison>): seq<Comparison>
  {
    SortBy(Each(s, CanonComparison()), PairOrder())
  }

  function PairOrder(): (Comparison, Comparison) -> bool
  {
    Then(By((c: Comparison) => c.first), By((c: Comparison) => c.second))
  }

  /** The canonical comparisons carry the same verdicts, so every dominance question has the same answer. */
  lemma CanonKeepsVerdicts(s: seq<Comparison>)
    ensures Dominance.SameComparisons(Verdicts(s), Verdicts(CanonComparisons(s)))
  {
    hide Gather;
    hide SortBy;
    hide CanonComparison;
    hide Verdicts;
    hide VerdictOf;
    hide Dominance.Flip;
    hide PairOrder;
    var g := Each(s, CanonComparison());
    var r := CanonComparisons(s);
    SortKeeps(g, PairOrder());
    SameItems(g, r);
    forall v | v in Verdicts(s)
      ensures v in Verdicts(r) || Dominance.Flip(v) in Verdicts(r)
    {
      var c := FromVerdicts(s, v);
      CanonKeepsVerdict(c);
      InEach(s, CanonComparison(), CanonComparison()(c));
      VerdictIn(r, CanonComparison()(c));
    }
    forall v | v in Verdicts(r)
      ensures v in Verdicts(s) || Dominance.Flip(v) in Verdicts(s)
    {
      var n := FromVerdicts(r, v);
      InEach(s, CanonComparison(), n);
      var c :| c in s && n == CanonComparison()(c);
      CanonKeepsVerdict(c);
      VerdictIn(s, c);
    }
  }

  /** The winner among any eligible alternatives is the one of the comparisons as supplied. */
  lemma WinnerIsUnoriented(s: seq<Comparison>, d: PolicyDecision.Decision, eligible: set<string>)
    ensures PolicyDecision.IsWarranted(d, eligible, Verdicts(s)) <==>
      PolicyDecision.IsWarranted(d, eligible, Verdicts(CanonComparisons(s)))
  {
    CanonKeepsVerdicts(s);
    PolicyDecision.DecisionIsUnoriented(Verdicts(s), Verdicts(CanonComparisons(s)), d, eligible);
  }

  // ---------------------------------------------------------------- the whole input

  function PairOf(): Comparison -> set<string> { (c: Comparison) => {c.first, c.second} }

  /** `validate_comparison` on each, and each unordered pair at most once. */
  predicate ValidComparisons(s: seq<Comparison>)
  {
    (forall c :: c in s ==> ValidComparison(c)) && NoRepeats(Each(s, PairOf()))
  }

  function AlternativeId(): Assessment -> string { (a: Assessment) => a.alternativeId }

  function CanonAssessment(): Assessment -> Assessment
  {
    (a: Assessment) => a.(riskIds := InOrder(a.riskIds), missing := InOrder(a.missing))
  }

  function CanonicalInput(i: Input): Input
  {
    Input(InOrder(i.fundingIds), CanonList(i.assessments, CanonAssessment(), By(AlternativeId())),
      CanonComparisons(i.comparisons),
          InOrder(i.missing), InOrder(i.conflicts), InOrder(i.assumptions), i.rest)
  }

  predicate ValidInput(i: Input)
  {
    IdsDistinct(i.assessments, AlternativeId()) && ValidComparisons(i.comparisons)
  }

  lemma PairOrderIsTotal()
    ensures TotalPreorder(PairOrder())
  {
    hide TotalPreorder;
    hide By;
    hide Then;
    ByIsOrder((c: Comparison) => c.first);
    ByIsOrder((c: Comparison) => c.second);
    ThenIsOrder(By((c: Comparison) => c.first), By((c: Comparison) => c.second));
  }

  lemma PairsTie(s: seq<Comparison>)
    requires NoRepeats(Each(s, PairOf()))
    ensures TiesAreEqual(s, PairOrder())
  {
    hide Gather;
    hide NoRepeats;
    forall x, y | x in s && y in s && PairOrder()(x, y) && PairOrder()(y, x)
      ensures x == y
    {
      ByTie((c: Comparison) => c.first, x, y);
      ByTie((c: Comparison) => c.second, x, y);
      SameNameSameItem(s, Single(PairOf()), x, y);
    }
  }

  lemma CanonKeepsPair(c: Comparison)
    ensures PairOf()(CanonComparison()(c)) == PairOf()(c)
  {
    hide CanonList;
  }

  lemma ComparisonsTie(s: seq<Comparison>)
    requires NoRepeats(Each(s, PairOf()))
    ensures TiesAreEqual(Each(s, CanonComparison()), PairOrder())
    ensures NoRepeats(Each(Each(s, CanonComparison()), PairOf()))
  {
    hide Gather;
    hide NoRepeats;
    hide PairOf;
    hide CanonComparison;
    hide TiesAreEqual;
    hide PairOrder;
    forall c | c in s
      ensures PairOf()(CanonComparison()(c)) == PairOf()(c)
    {
      CanonKeepsPair(c);
    }
    EachAfter(s, CanonComparison(), PairOf());
    PairsTie(Each(s, CanonComparison()));
  }

  lemma ComparisonsIdempotent(s: seq<Comparison>)
    requires ValidComparisons(s)
    ensures CanonComparisons(CanonComparisons(s)) == CanonComparisons(s) && ValidComparisons(CanonComparisons(s))
  {
    hide Gather;
    hide NoRepeats;
    hide SortBy;
    hide CanonComparison;
    hide PairOrder;
    hide ValidComparison;
    hide TiesAreEqual;
    hide TotalPreorder;
    hide PairOf;
    var g := Each(s, CanonComparison());
    var r := SortBy(g, PairOrder());
    PairOrderIsTotal();
    ComparisonsTie(s);
    SortKeeps(g, PairOrder());
    NamesAreUnordered(g, r, Single(PairOf()));
    SortIdempotent(g, PairOrder());
    forall n | n in r
      ensures CanonComparison()(n) == n && ValidComparison(n)
    {
      InEach(s, CanonComparison(), n);
      var c :| c in s && n == CanonComparison()(c);
      ComparisonFixed(c);
    }
    EachFixed(r, CanonComparison());
  }

  lemma ComparisonsUnordered(a: seq<Comparison>, b: seq<Comparison>)
    requires ValidComparisons(a)
    ensures CanonComparisons(a) == CanonComparisons(b) <==> Rearranged(a, b, CanonComparison())
  {
    hide Gather;
    hide NoRepeats;
    hide CanonComparison;
    hide PairOrder;
    hide ValidComparison;
    hide TiesAreEqual;
    hide TotalPreorder;
    hide PairOf;
    hide Rearranged;
    RearrangedIff(a, b, CanonComparison());
    PairOrderIsTotal();
    ComparisonsTie(a);
    SortIsCanonical(Each(a, CanonComparison()), Each(b, CanonComparison()), PairOrder());
  }

  lemma AssessmentsStable(s: seq<Assessment>)
    ensures Stable(s, CanonAssessment(), AlternativeId())
  {
    forall a | a in s
      ensures CanonAssessment()(CanonAssessment()(a)) == CanonAssessment()(a)
    {
      StateReplay.StringsCanonical(a.riskIds, a.riskIds);
      StateReplay.StringsCanonical(a.missing, a.missing);
    }
  }

  lemma InputIdempotent(i: Input)
    requires ValidInput(i)
    ensures CanonicalInput(CanonicalInput(i)) == CanonicalInput(i) && ValidInput(CanonicalInput(i))
  {
    hide CanonList;
    hide CanonComparisons;
    hide IdsDistinct;
    hide ValidComparisons;
    hide StateReplay.InOrder;
    AssessmentsStable(i.assessments);
    ListIdempotent(i.assessments, CanonAssessment(), AlternativeId());
    ComparisonsIdempotent(i.comparisons);
    StateReplay.StringsCanonical(i.fundingIds, i.fundingIds);
    StateReplay.StringsCanonical(i.missing, i.missing);
    StateReplay.StringsCanonical(i.conflicts, i.conflicts);
    StateReplay.StringsCanonical(i.assumptions, i.assumptions);
  }

  /** The same input: unordered lists in any order, comparisons also from either side (see `OrientationIsForgotten`). */
  ghost predicate SameInput(a: Input, b: Input)
  {
    && Rearranged(a.assessments, b.assessments, CanonAssessment())
    && Rearranged(a.comparisons, b.comparisons, CanonComparison())
    && multiset(a.fundingIds) == multiset(b.fundingIds) && multiset(a.missing) == multiset(b.missing)
    && multiset(a.conflicts) == multiset(b.conflicts) && multiset(a.assumptions) == multiset(b.assumptions)
    && a.rest == b.rest
  }

  lemma InputUnordered(a: Input, b: Input)
    requires ValidInput(a)
    ensures CanonicalInput(a) == CanonicalInput(b) <==> SameInput(a, b)
  {
    hide CanonList;
    hide CanonComparisons;
    hide IdsDistinct;
    hide ValidComparisons;
    hide Rearranged;
    hide StateReplay.InOrder;
    AssessmentsStable(a.assessments);
    SameListIff(a.assessments, b.assessments, CanonAssessment(), AlternativeId());
    ComparisonsUnordered(a.comparisons, b.comparisons);
    StateReplay.StringsCanonical(a.fundingIds, b.fundingIds);
    StateReplay.StringsCanonical(a.missing, b.missing);
    StateReplay.StringsCanonical(a.conflicts, b.conflicts);
    StateReplay.StringsCanonical(a.assumptions, b.assumptions);
  }

  /** Writing every comparison from its other side, in any order, is the same input. */
  lemma ReversingIsRearranging(s: seq<Comparison>, t: seq<Comparison>)
    requires ValidComparisons(s)
    requires |t| == |s| && forall i :: 0 <= i < |s| ==> t[i] == s[i] || t[i] == Reversed(s[i])
    ensures Rearranged(s, t, CanonComparison())
  {
    hide ValidComparison;
    hide CanonComparison;
    hide Reversed;
    forall i | 0 <= i < |s|
      ensures CanonComparison()(s[i]) == CanonComparison()(t[i])
    {
      OrientationIsForgotten(s[i]);
    }
    assert Matches(t, s, t, CanonComparison());
  }

  function DecisionBuilder<S>(derive: Input -> Option<S>, fingerprint: Input -> string,
                              decisionId: string -> string): Builder<Input, S>
  {
    Builder((i: Input) => CanonicalInput(i), derive, fingerprint, decisionId)
  }

  /**
   Rearranging or reversing leaves the whole decision unchanged, and `verify` returns on exactly the
   decisions built.
   */
  lemma Replay<S>(derive: Input -> Option<S>, fingerprint: Input -> string, decisionId: string -> string, a: Input,
                  b: Input, r: Record<Input, S>)
    requires ValidInput(a)
    ensures var builder := DecisionBuilder(derive, fingerprint, decisionId);
      && (SameInput(a, b) ==> Execute(builder, a) == Execute(builder, b))
      && (Execute(builder, a).Some? && Execute(builder, a) == Execute(builder, b) ==> SameInput(a, b))
      && (ValidInput(r.input) && Verify(builder, r) <==> exists i :: ValidInput(i) && Execute(builder, i) == Some(r))
  {
    hide CanonicalInput;
    hide ValidInput;
    hide SameInput;
    var builder := DecisionBuilder(derive, fingerprint, decisionId);
    InputUnordered(a, b);
    var valid := (i: Input) => ValidInput(i);
    forall i | valid(i)
      ensures valid(builder.canonical(i)) && builder.canonical(builder.canonical(i)) == builder.canonical(i)
    {
      InputIdempotent(i);
    }
    VerifyAcceptsExactlyBuilt(builder, valid, r);
    assert forall i :: valid(i) == ValidInput(i);
  }
}
