/**
 The company-concentration interval. The lower bound counts resolved companies only; the upper bound
 adds the unresolved rest as if it were one single new company.
 */
module Hhi {
  import opened Sums
  import opened Quantise
  import opened ExposureBook

  ghost function Squares(m: map<string, real>): map<string, real>
  {
    map id | id in m :: Square(m[id])
  }

  ghost function SumOfSquares(m: map<string, real>): real
  {
    Total(Squares(m))
  }

  /** The company totals once the unresolved rest has been attributed. */
  ghost function Merge(totals: map<string, real>, split: map<string, real>): map<string, real>
  {
    map id | id in totals.Keys + split.Keys :: Get(totals, id) + Get(split, id)
  }

  ghost function CrossTerms(totals: map<string, real>, split: map<string, real>): map<string, real>
  {
    map id | id in split :: Times(Get(totals, id), split[id])
  }

  ghost function Times(x: real, y: real): real
  {
    x * y
  }

  /** One attribution of the unresolved rest to companies, old or new. */
  ghost predicate IsSplit(split: map<string, real>, unresolved: real)
  {
    NonNegative(split) && Total(split) == unresolved
  }

  // ---------------------------------------------------------------- sums of squares

  lemma SquareOfSum(x: real, y: real)
    ensures Square(x + y) == Square(x) + 2.0 * Times(x, y) + Square(y)
    ensures Square(0.0) == 0.0 && Times(x, 0.0) == 0.0 && Times(0.0, y) == 0.0
  {
  }

  lemma SignOfTimes(x: real, y: real)
    requires x >= 0.0 && y >= 0.0
    ensures Times(x, y) >= 0.0 && Square(x) >= 0.0
    ensures Times(x, y) == 0.0 <==> x == 0.0 || y == 0.0
  {
  }

  lemma SumOfSquaresBump(m: map<string, real>, id: string, a: real)
    ensures SumOfSquares(Bump(m, id, a)) == SumOfSquares(m) + 2.0 * Times(Get(m, id), a) + Square(a)
  {
    SquareOfSum(Get(m, id), a);
    hide Square;
    hide Times;
    var gain := Square(Get(m, id) + a) - Square(Get(m, id));
    assert Squares(Bump(m, id, a)) == Bump(Squares(m), id, gain);
    TotalBump(Squares(m), id, gain);
  }

  lemma {:induction false} SumOfSquaresAtMost(m: map<string, real>)
    requires NonNegative(m)
    ensures 0.0 <= SumOfSquares(m) <= Square(Total(m))
    decreases |m|
  {
    hide Square;
    hide Times;
    if m == map[] {
      assert Squares(m) == map[];
      SquareOfSum(0.0, 0.0);
    } else {
      var id :| id in m;
      var rest := m - {id};
      assert rest.Keys == m.Keys - {id};
      assert m == Bump(rest, id, m[id]);
      SumOfSquaresAtMost(rest);
      SumOfSquaresBump(rest, id, m[id]);
      TotalBump(rest, id, m[id]);
      TotalNonNegative(rest);
      SquareOfSum(Total(rest), m[id]);
      SquareOfSum(0.0, m[id]);
      SignOfTimes(Total(rest), m[id]);
      SignOfTimes(m[id], m[id]);
    }
  }

  lemma MergeRemove(totals: map<string, real>, split: map<string, real>, id: string)
    requires id in split
    ensures Merge(totals, split) == Bump(Merge(totals, split - {id}), id, split[id])
    ensures Get(Merge(totals, split - {id}), id) == Get(totals, id)
  {
    var left, right := Merge(totals, split), Bump(Merge(totals, split - {id}), id, split[id]);
    assert left.Keys == right.Keys;
  }

  lemma CrossTermsRemove(totals: map<string, real>, split: map<string, real>, id: string)
    requires id in split
    ensures CrossTerms(totals, split) - {id} == CrossTerms(totals, split - {id})
  {
    hide Times;
    var left, right := CrossTerms(totals, split) - {id}, CrossTerms(totals, split - {id});
    assert left.Keys == right.Keys;
  }

  lemma MergeNothing(totals: map<string, real>)
    ensures Merge(totals, map[]) == totals && CrossTerms(totals, map[]) == map[] && Squares(map[]) == map[]
  {
  }

  lemma SumOfSquaresOne(split: map<string, real>, id: string)
    requires id in split
    ensures SumOfSquares(split) == SumOfSquares(split - {id}) + Square(split[id])
  {
    assert split == Bump(split - {id}, id, split[id]);
    SumOfSquaresBump(split - {id}, id, split[id]);
    SquareOfSum(0.0, split[id]);
  }

  lemma {:induction false} SumOfSquaresMerge(totals: map<string, real>, split: map<string, real>)
    ensures SumOfSquares(Merge(totals, split))
         == SumOfSquares(totals) + SumOfSquares(split) + 2.0 * Total(CrossTerms(totals, split))
    decreases |split|
  {
    MergeNothing(totals);
    if split != map[] {
      var id :| id in split;
      var rest := split - {id};
      assert rest.Keys == split.Keys - {id};
      SumOfSquaresMerge(totals, rest);
      MergeRemove(totals, split, id);
      CrossTermsRemove(totals, split, id);
      SumOfSquaresBump(Merge(totals, rest), id, split[id]);
      SumOfSquaresOne(split, id);
      TotalRemove(CrossTerms(totals, split), id);
      assert CrossTerms(totals, split)[id] == Times(Get(totals, id), split[id]);
      hide *;
    }
  }

  lemma CrossTermsSign(totals: map<string, real>, split: map<string, real>)
    requires NonNegative(totals) && NonNegative(split)
    ensures Total(CrossTerms(totals, split)) >= 0.0
    ensures totals.Keys !! split.Keys ==> Total(CrossTerms(totals, split)) == 0.0
  {
    var cross := CrossTerms(totals, split);
    forall id | id in cross
      ensures cross[id] >= 0.0 && (totals.Keys !! split.Keys ==> cross[id] == 0.0)
    {
      SignOfTimes(Get(totals, id), split[id]);
    }
    hide CrossTerms;
    TotalNonNegative(cross);
    if totals.Keys !! split.Keys {
      TotalOfZeros(cross);
    }
  }

  lemma {:induction false} TotalOfZeros(m: map<string, real>)
    requires forall id :: id in m ==> m[id] == 0.0
    ensures Total(m) == 0.0
    decreases |m|
  {
    if m != map[] {
      var id :| id in m;
      TotalRemove(m, id);
      assert (m - {id}).Keys == m.Keys - {id};
      TotalOfZeros(m - {id});
    }
  }

  // ---------------------------------------------------------------- from values to ratios

  lemma SquareOfRatio(v: real, gross: real)
    requires gross > 0.0
    ensures Square(gross) > 0.0
    ensures Square(Ratio(v, gross)) == Ratio(Square(v), Square(gross))
  {
    var r := Ratio(v, gross);
    assert v == r * gross;
    assert Square(v) == Square(r) * Square(gross);
    SignOfTimes(gross, gross);
    assert Times(gross, gross) == Square(gross);
    QuotientIs(Square(v), Square(gross), Square(r));
  }

  lemma QuotientIs(x: real, y: real, q: real)
    requires y > 0.0 && x == q * y
    ensures Ratio(x, y) == q
  {
  }

  lemma KnownHhiIsScaled(m: map<string, real>, gross: real)
    requires gross > 0.0
    ensures Square(gross) > 0.0
    ensures KnownHhi(m, gross) == Ratio(SumOfSquares(m), Square(gross))
  {
    SquareOfRatio(0.0, gross);
    forall id | id in m
      ensures Square(Ratio(m[id], gross)) == Ratio(Square(m[id]), Square(gross))
    {
      SquareOfRatio(m[id], gross);
    }
    hide Ratio;
    hide Square;
    assert SquaredShares(m, gross) == Shares(Squares(m), Square(gross));
    TotalShares(Squares(m), Square(gross));
  }

  lemma RatioMonotone(x: real, y: real, d: real)
    requires d > 0.0
    ensures Ratio(x, d) <= Ratio(y, d) <==> x <= y
  {
  }

  /** The interval in exact arithmetic, as a statement about sums of squares. */
  lemma UpperIsScaled(totals: map<string, real>, unresolved: real, gross: real)
    requires gross > 0.0
    ensures Square(gross) > 0.0
    ensures KnownHhi(totals, gross) + Square(Ratio(unresolved, gross))
         == Ratio(SumOfSquares(totals) + Square(unresolved), Square(gross))
  {
    KnownHhiIsScaled(totals, gross);
    SquareOfRatio(unresolved, gross);
    hide Ratio;
    hide Square;
    RatioOfSum(SumOfSquares(totals), Square(unresolved), Square(gross));
  }

  // ---------------------------------------------------------------- the theorems

  /** 0 <= lower <= upper <= 1, before and after quantisation. */
  lemma BoundsInUnit(totals: map<string, real>, unresolved: real, gross: real)
    requires NonNegative(totals) && unresolved >= 0.0 && gross > 0.0
    requires Total(totals) + unresolved == gross
    ensures 0.0 <= KnownHhi(totals, gross) <= KnownHhi(totals, gross) + Square(Ratio(unresolved, gross)) <= 1.0
    ensures var hhi := HhiOf(totals, unresolved, gross);
            0.0 <= hhi.lower <= hhi.upper <= 1.0
  {
    KnownHhiIsScaled(totals, gross);
    UpperIsScaled(totals, unresolved, gross);
    SumOfSquaresAtMost(totals);
    TotalNonNegative(totals);
    SquareOfSum(Total(totals), unresolved);
    SignOfTimes(Total(totals), unresolved);
    SignOfTimes(unresolved, unresolved);
    RatioOfSum(0.0, 0.0, Square(gross));
    QuotientIs(Square(gross), Square(gross), 1.0);
    hide Ratio;
    hide Square;
    hide Times;
    hide KnownHhi;
    hide QuantizeRatio;
    var known := SumOfSquares(totals);
    var upper := known + Square(unresolved);
    RatioMonotone(0.0, known, Square(gross));
    RatioMonotone(known, upper, Square(gross));
    RatioMonotone(upper, Square(gross), Square(gross));
    var lo, hi := KnownHhi(totals, gross), KnownHhi(totals, gross) + Square(Ratio(unresolved, gross));
    QuantizeStaysInUnit(lo);
    QuantizeStaysInUnit(hi);
    QuantizeMonotone(lo, hi);
  }

  /** However the rest is attributed, concentration is never below the lower bound. */
  lemma LowerBoundHolds(totals: map<string, real>, unresolved: real, gross: real, split: map<string, real>)
    requires NonNegative(totals) && gross > 0.0 && IsSplit(split, unresolved)
    ensures KnownHhi(totals, gross) <= KnownHhi(Merge(totals, split), gross)
    ensures HhiOf(totals, unresolved, gross).lower <= QuantizeRatio(KnownHhi(Merge(totals, split), gross))
  {
    SumOfSquaresMerge(totals, split);
    CrossTermsSign(totals, split);
    SumOfSquaresAtMost(split);
    KnownHhiIsScaled(totals, gross);
    KnownHhiIsScaled(Merge(totals, split), gross);
    hide Ratio;
    hide Square;
    hide KnownHhi;
    hide QuantizeRatio;
    RatioMonotone(SumOfSquares(totals), SumOfSquares(Merge(totals, split)), Square(gross));
    QuantizeMonotone(KnownHhi(totals, gross), KnownHhi(Merge(totals, split), gross));
  }

  /** When the rest belongs to companies not yet in the book, concentration is never above the upper bound. */
  lemma UpperBoundHolds(totals: map<string, real>, unresolved: real, gross: real, split: map<string, real>)
    requires NonNegative(totals) && gross > 0.0 && IsSplit(split, unresolved)
    requires totals.Keys !! split.Keys
    ensures KnownHhi(Merge(totals, split), gross) <= KnownHhi(totals, gross) + Square(Ratio(unresolved, gross))
    ensures QuantizeRatio(KnownHhi(Merge(totals, split), gross)) <= HhiOf(totals, unresolved, gross).upper
  {
    SumOfSquaresMerge(totals, split);
    CrossTermsSign(totals, split);
    SumOfSquaresAtMost(split);
    UpperComparison(totals, unresolved, gross, split);
    hide Ratio;
    hide Square;
    hide KnownHhi;
    hide QuantizeRatio;
    QuantizeMonotone(KnownHhi(Merge(totals, split), gross), KnownHhi(totals, gross) + Square(Ratio(unresolved, gross)));
  }

  lemma UpperComparison(totals: map<string, real>, unresolved: real, gross: real, split: map<string, real>)
    requires gross > 0.0
    ensures KnownHhi(Merge(totals, split), gross) <= KnownHhi(totals, gross) + Square(Ratio(unresolved, gross))
       <==> SumOfSquares(Merge(totals, split)) <= SumOfSquares(totals) + Square(unresolved)
  {
    KnownHhiIsScaled(Merge(totals, split), gross);
    UpperIsScaled(totals, unresolved, gross);
    hide Ratio;
    hide Square;
    hide KnownHhi;
    RatioMonotone(SumOfSquares(Merge(totals, split)), SumOfSquares(totals) + Square(unresolved), Square(gross));
  }

  /** Whether the bound, before it is rounded, is sound against every attribution, old companies included. */
  ghost predicate UpperBoundSound(totals: map<string, real>, unresolved: real, gross: real)
    requires gross > 0.0
  {
    forall split :: IsSplit(split, unresolved) ==>
      KnownHhi(Merge(totals, split), gross) <= KnownHhi(totals, gross) + Square(Ratio(unresolved, gross))
  }

  /**
   Before rounding, the upper bound covers every attribution only if nothing is unresolved or no resolved
   company has value. Otherwise the rest may belong to a company already in the book.
   */
  lemma UpperBoundSoundIff(totals: map<string, real>, unresolved: real, gross: real)
    requires NonNegative(totals) && unresolved >= 0.0 && gross > 0.0
    ensures UpperBoundSound(totals, unresolved, gross)
       <==> unresolved == 0.0 || forall id :: id in totals ==> totals[id] == 0.0
  {
    if unresolved == 0.0 || forall id :: id in totals ==> totals[id] == 0.0 {
      forall split | IsSplit(split, unresolved)
        ensures KnownHhi(Merge(totals, split), gross) <= KnownHhi(totals, gross) + Square(Ratio(unresolved, gross))
      {
        NoOverlapGain(totals, unresolved, split);
        UpperComparison(totals, unresolved, gross, split);
      }
    } else {
      var id :| id in totals && totals[id] != 0.0;
      OverlapGain(totals, unresolved, gross, id);
    }
  }

  lemma NoOverlapGain(totals: map<string, real>, unresolved: real, split: map<string, real>)
    requires NonNegative(totals) && IsSplit(split, unresolved)
    requires unresolved == 0.0 || forall id :: id in totals ==> totals[id] == 0.0
    ensures SumOfSquares(Merge(totals, split)) <= SumOfSquares(totals) + Square(unresolved)
  {
    SumOfSquaresMerge(totals, split);
    SumOfSquaresAtMost(split);
    TotalNonNegative(split);
    var cross := CrossTerms(totals, split);
    forall id | id in cross
      ensures cross[id] == 0.0
    {
      SignOfTimes(Get(totals, id), split[id]);
    }
    hide CrossTerms;
    hide Square;
    TotalOfZeros(cross);
  }

  /** Before rounding, attributing the whole rest to one held company exceeds the upper bound. */
  lemma OverlapGain(totals: map<string, real>, unresolved: real, gross: real, id: string)
    requires NonNegative(totals) && unresolved > 0.0 && gross > 0.0
    requires id in totals && totals[id] > 0.0
    ensures IsSplit(map[id := unresolved], unresolved)
    ensures KnownHhi(Merge(totals, map[id := unresolved]), gross)
          > KnownHhi(totals, gross) + Square(Ratio(unresolved, gross))
  {
    var split := map[id := unresolved];
    TotalRemove(split, id);
    assert split - {id} == map[];
    assert Merge(totals, split) == Bump(totals, id, unresolved);
    SumOfSquaresBump(totals, id, unresolved);
    SignOfTimes(totals[id], unresolved);
    hide Square;
    hide Times;
    UpperComparison(totals, unresolved, gross, split);
  }

  // ---------------------------------------------------------------- the worst attribution

  /** No resolved company is larger. */
  ghost predicate IsLargest(top: string, totals: map<string, real>)
  {
    forall id :: id in totals ==> totals[id] <= Get(totals, top)
  }

  lemma TimesMonotone(x: real, y: real, a: real)
    requires x <= y && a >= 0.0
    ensures Times(x, a) <= Times(y, a)
  {
    SignOfTimes(y - x, a);
    assert Times(y - x, a) == Times(y, a) - Times(x, a);
  }

  lemma TimesOfSum(x: real, a: real, b: real)
    ensures Times(x, a + b) == Times(x, a) + Times(x, b)
    ensures Times(x, 0.0) == 0.0
  {
  }

  /** The overlap is largest when all of the rest overlaps with the largest company. */
  lemma {:induction false} CrossTermsAtMost(totals: map<string, real>, split: map<string, real>, top: string)
    requires NonNegative(totals) && NonNegative(split) && IsLargest(top, totals)
    ensures Total(CrossTerms(totals, split)) <= Times(Get(totals, top), Total(split))
    decreases |split|
  {
    hide Times;
    if split == map[] {
      MergeNothing(totals);
      TimesOfSum(Get(totals, top), 0.0, 0.0);
    } else {
      var id :| id in split;
      var rest := split - {id};
      assert rest.Keys == split.Keys - {id};
      CrossTermsAtMost(totals, rest, top);
      TotalRemove(split, id);
      CrossTermsRemove(totals, split, id);
      TotalRemove(CrossTerms(totals, split), id);
      TimesOfSum(Get(totals, top), split[id], Total(rest));
      TimesMonotone(Get(totals, id), Get(totals, top), split[id]);
    }
  }

  lemma WholeRest(totals: map<string, real>, unresolved: real, top: string)
    requires unresolved >= 0.0
    ensures IsSplit(map[top := unresolved], unresolved)
    ensures SumOfSquares(Merge(totals, map[top := unresolved]))
         == SumOfSquares(totals) + 2.0 * Times(Get(totals, top), unresolved) + Square(unresolved)
  {
    var split := map[top := unresolved];
    TotalRemove(split, top);
    assert split - {top} == map[];
    assert Merge(totals, split) == Bump(totals, top, unresolved);
    SumOfSquaresBump(totals, top, unresolved);
  }

  /** Of all attributions, giving the whole rest to the largest company concentrates the most. */
  lemma WorstSplit(totals: map<string, real>, unresolved: real, gross: real, split: map<string, real>, top: string)
    requires NonNegative(totals) && unresolved >= 0.0 && gross > 0.0
    requires IsSplit(split, unresolved) && IsLargest(top, totals)
    ensures SumOfSquares(Merge(totals, split)) <= SumOfSquares(Merge(totals, map[top := unresolved]))
    ensures KnownHhi(Merge(totals, split), gross) <= KnownHhi(Merge(totals, map[top := unresolved]), gross)
  {
    hide Square;
    hide Times;
    hide Ratio;
    hide KnownHhi;
    hide Merge;
    hide SumOfSquares;
    SumOfSquaresMerge(totals, split);
    SumOfSquaresAtMost(split);
    CrossTermsAtMost(totals, split, top);
    WholeRest(totals, unresolved, top);
    var worst := Merge(totals, map[top := unresolved]);
    KnownHhiIsScaled(Merge(totals, split), gross);
    KnownHhiIsScaled(worst, gross);
    RatioMonotone(SumOfSquares(Merge(totals, split)), SumOfSquares(worst), Square(gross));
  }

  // ---------------------------------------------------------------- the recorded bound

  /** The excess of the worst attribution over the bound: twice the product of two shares of the book. */
  ghost function Overlap(totals: map<string, real>, unresolved: real, gross: real, top: string): real
    requires gross > 0.0
  {
    2.0 * Times(Ratio(Get(totals, top), gross), Ratio(unresolved, gross))
  }

  /** The bound before it is rounded. */
  ghost function ExactUpper(totals: map<string, real>, unresolved: real, gross: real): real
    requires gross > 0.0
  {
    KnownHhi(totals, gross) + Square(Ratio(unresolved, gross))
  }

  lemma ProductOfRatios(x: real, y: real, gross: real)
    requires gross > 0.0
    ensures Square(gross) > 0.0
    ensures Times(Ratio(x, gross), Ratio(y, gross)) == Ratio(Times(x, y), Square(gross))
  {
    var r, q := Ratio(x, gross), Ratio(y, gross);
    assert x == r * gross && y == q * gross;
    assert Times(x, y) == Times(r, q) * Square(gross);
    SquareOfRatio(x, gross);
    QuotientIs(Times(x, y), Square(gross), Times(r, q));
  }

  lemma DoubleRatio(x: real, d: real)
    requires d > 0.0
    ensures Ratio(2.0 * x, d) == 2.0 * Ratio(x, d)
  {
  }

  lemma WorstExceedsByOverlap(totals: map<string, real>, unresolved: real, gross: real, top: string)
    requires unresolved >= 0.0 && gross > 0.0
    ensures KnownHhi(Merge(totals, map[top := unresolved]), gross)
         == ExactUpper(totals, unresolved, gross) + Overlap(totals, unresolved, gross, top)
  {
    hide Square;
    hide Times;
    hide Ratio;
    hide KnownHhi;
    hide Merge;
    hide SumOfSquares;
    var t := Get(totals, top);
    var base := SumOfSquares(totals) + Square(unresolved);
    WholeRest(totals, unresolved, top);
    KnownHhiIsScaled(Merge(totals, map[top := unresolved]), gross);
    UpperIsScaled(totals, unresolved, gross);
    ProductOfRatios(t, unresolved, gross);
    DoubleRatio(Times(t, unresolved), Square(gross));
    RatioOfSum(base, 2.0 * Times(t, unresolved), Square(gross));
  }

  /** Whether the recorded bound covers the recorded concentration of every attribution, old companies included. */
  ghost predicate RecordedBoundSound(totals: map<string, real>, unresolved: real, gross: real)
    requires gross > 0.0
  {
    forall split :: IsSplit(split, unresolved) ==>
      QuantizeRatio(KnownHhi(Merge(totals, split), gross)) <= HhiOf(totals, unresolved, gross).upper
  }

  /**
   The recorded, rounded bound covers every attribution if and only if the overlap of the unresolved share
   with the largest company's share disappears in the rounding.
   */
  lemma RecordedBoundSoundIff(totals: map<string, real>, unresolved: real, gross: real, top: string)
    requires NonNegative(totals) && unresolved >= 0.0 && gross > 0.0 && IsLargest(top, totals)
    ensures RecordedBoundSound(totals, unresolved, gross) <==>
      QuantizeRatio(ExactUpper(totals, unresolved, gross) + Overlap(totals, unresolved, gross, top))
        == HhiOf(totals, unresolved, gross).upper
  {
    hide Square;
    hide Times;
    hide Ratio;
    hide KnownHhi;
    hide Merge;
    hide QuantizeRatio;
    hide IsLargest;
    hide SumOfSquares;
    var upper := ExactUpper(totals, unresolved, gross);
    var worst := upper + Overlap(totals, unresolved, gross, top);
    WholeRest(totals, unresolved, top);
    WorstExceedsByOverlap(totals, unresolved, gross, top);
    OverlapNonNegative(totals, unresolved, gross, top);
    QuantizeMonotone(upper, worst);
    forall split | IsSplit(split, unresolved)
      ensures QuantizeRatio(KnownHhi(Merge(totals, split), gross)) <= QuantizeRatio(worst)
    {
      WorstSplit(totals, unresolved, gross, split, top);
      QuantizeMonotone(KnownHhi(Merge(totals, split), gross), worst);
    }
  }

  lemma OverlapNonNegative(totals: map<string, real>, unresolved: real, gross: real, top: string)
    requires NonNegative(totals) && unresolved >= 0.0 && gross > 0.0
    ensures Overlap(totals, unresolved, gross, top) >= 0.0
  {
    hide Times;
    RatioMonotone(0.0, Get(totals, top), gross);
    RatioMonotone(0.0, unresolved, gross);
    SignOfTimes(Ratio(Get(totals, top), gross), Ratio(unresolved, gross));
  }

  lemma QuantizeSeparates(x: real, y: real)
    requires y - x > 2.0 * HALF_QUANTUM
    ensures QuantizeRatio(x) < QuantizeRatio(y)
  {
    hide QuantizeRatio;
    QuantizeOnce(x);
    QuantizeOnce(y);
  }

  /** In particular any overlap above one quantum of 10^-12 exceeds the recorded bound. */
  lemma RecordedBoundExceeded(totals: map<string, real>, unresolved: real, gross: real, id: string)
    requires NonNegative(totals) && unresolved >= 0.0 && gross > 0.0
    requires Overlap(totals, unresolved, gross, id) > 2.0 * HALF_QUANTUM
    ensures IsSplit(map[id := unresolved], unresolved)
    ensures QuantizeRatio(KnownHhi(Merge(totals, map[id := unresolved]), gross))
          > HhiOf(totals, unresolved, gross).upper
  {
    hide Square;
    hide Times;
    hide Ratio;
    hide KnownHhi;
    hide Merge;
    hide QuantizeRatio;
    hide SumOfSquares;
    WholeRest(totals, unresolved, id);
    WorstExceedsByOverlap(totals, unresolved, gross, id);
    QuantizeSeparates(ExactUpper(totals, unresolved, gross), KnownHhi(Merge(totals, map[id := unresolved]), gross));
  }
}
