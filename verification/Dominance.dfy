/**
 Pairwise dominance among capital alternatives, restricted to the ones the owner's policy admits.
 An alternative wins only by beating every eligible rival; no score is ever computed.
 */
module Dominance {
  import opened LookThrough

  datatype Conclusion = First | Second | Indeterminate

  /** The parts of a pairwise comparison that dominance reads. */
  datatype Comparison = Comparison(first: string, second: string, conclusion: Conclusion)

  function PairOf(c: Comparison): set<string>
  {
    {c.first, c.second}
  }

  /** `validate_comparison` and the duplicate-pair check: two different sides, each unordered pair at most once. */
  ghost predicate PairsOnce(comparisons: seq<Comparison>)
  {
    && (forall c :: c in comparisons ==> c.first != c.second)
    && (forall i, j :: 0 <= i < j < |comparisons| ==> PairOf(comparisons[i]) != PairOf(comparisons[j]))
  }

  predicate Decides(c: Comparison, a: string, b: string)
  {
    (c == Comparison(a, b, First)) || (c == Comparison(b, a, Second))
  }

  ghost predicate Beats(comparisons: seq<Comparison>, a: string, b: string)
  {
    exists c :: c in comparisons && Decides(c, a, b)
  }

  /** An alternative that beats every other one. */
  ghost predicate IsDominant(w: string, alternatives: set<string>, comparisons: seq<Comparison>)
  {
    w in alternatives && forall b :: b in alternatives && b != w ==> Beats(comparisons, w, b)
  }

  // ---------------------------------------------------------------- laws of dominance

  lemma BeatsIsAsymmetric(comparisons: seq<Comparison>, a: string, b: string)
    requires PairsOnce(comparisons) && Beats(comparisons, a, b)
    ensures a != b && !Beats(comparisons, b, a)
  {
    var c :| c in comparisons && Decides(c, a, b);
    if Beats(comparisons, b, a) {
      var d :| d in comparisons && Decides(d, b, a);
      OnePerPair(comparisons, c, d);
    }
  }

  lemma OnePerPair(comparisons: seq<Comparison>, c: Comparison, d: Comparison)
    requires PairsOnce(comparisons) && c in comparisons && d in comparisons && PairOf(c) == PairOf(d)
    ensures c == d
  {
    var i :| 0 <= i < |comparisons| && comparisons[i] == c;
    var j :| 0 <= j < |comparisons| && comparisons[j] == d;
    assert i < j ==> PairOf(comparisons[i]) != PairOf(comparisons[j]);
  }

  /** Winning a comparison from either side of it. */
  lemma BeatsIff(comparisons: seq<Comparison>, a: string, b: string)
    ensures Beats(comparisons, a, b) <==> exists c :: c in comparisons && IsWonBy(c, a, b)
  {
    if c :| c in comparisons && IsWonBy(c, a, b) {
      assert Decides(c, a, b);
    }
    if c :| c in comparisons && Decides(c, a, b) {
      assert IsWonBy(c, a, b);
    }
  }

  ghost predicate IsWonBy(c: Comparison, a: string, b: string)
  {
    || (c.conclusion == First && c.first == a && c.second == b)
    || (c.conclusion == Second && c.second == a && c.first == b)
  }

  /** At most one alternative dominates: ties and cycles leave none. */
  lemma DominantIsUnique(w: string, v: string, alternatives: set<string>, comparisons: seq<Comparison>)
    requires PairsOnce(comparisons)
    requires IsDominant(w, alternatives, comparisons) && IsDominant(v, alternatives, comparisons)
    ensures w == v
  {
    if w != v {
      BeatsIsAsymmetric(comparisons, w, v);
    }
  }

  /** Removing rivals never dethrones a dominant alternative that stays. */
  lemma DominantSurvivesFilter(w: string, alternatives: set<string>, eligible: set<string>,
                               comparisons: seq<Comparison>)
    requires IsDominant(w, alternatives, comparisons)
    requires w in eligible && eligible <= alternatives
    ensures IsDominant(w, eligible, comparisons)
  {
  }

  function Flip(c: Comparison): Comparison
  {
    Comparison(c.second, c.first,
      match c.conclusion case First => Second case Second => First case Indeterminate => Indeterminate)
  }

  /** The same comparisons, listed in any order and each written from either side. */
  ghost predicate SameComparisons(a: seq<Comparison>, b: seq<Comparison>)
  {
    && (forall c :: c in a ==> c in b || Flip(c) in b)
    && (forall c :: c in b ==> c in a || Flip(c) in a)
  }

  lemma BeatsIsUnoriented(a: seq<Comparison>, b: seq<Comparison>, x: string, y: string)
    requires SameComparisons(a, b)
    ensures Beats(a, x, y) <==> Beats(b, x, y)
  {
    if c :| c in a && Decides(c, x, y) {
      assert Decides(Flip(c), x, y);
    }
    if c :| c in b && Decides(c, x, y) {
      assert Decides(Flip(c), x, y);
    }
  }

  /** Dominance depends neither on the order of the comparisons nor on the side each was written from. */
  lemma DominanceIsUnoriented(a: seq<Comparison>, b: seq<Comparison>, w: string, alternatives: set<string>)
    requires SameComparisons(a, b)
    ensures IsDominant(w, alternatives, a) <==> IsDominant(w, alternatives, b)
  {
    forall y
      ensures Beats(a, w, y) <==> Beats(b, w, y)
    {
      BeatsIsUnoriented(a, b, w, y);
    }
  }

  // ---------------------------------------------------------------- the win-counting algorithm

  ghost function Beaten(comparisons: seq<Comparison>, eligible: set<string>, a: string): set<string>
  {
    set b | b in eligible && Beats(comparisons, a, b)
  }

  ghost predicate AreWins(wins: map<string, set<string>>, comparisons: seq<Comparison>, eligible: set<string>)
  {
    wins.Keys == eligible && forall a :: a in eligible ==> wins[a] == Beaten(comparisons, eligible, a)
  }

  function AddWin(wins: map<string, set<string>>, winner: string, loser: string): map<string, set<string>>
    requires winner in wins
  {
    wins[winner := wins[winner] + {loser}]
  }

  function Credit(wins: map<string, set<string>>, c: Comparison, eligible: set<string>): map<string, set<string>>
    requires wins.Keys == eligible
  {
    if c.first !in eligible || c.second !in eligible then wins
    else match c.conclusion
      case First => AddWin(wins, c.first, c.second)
      case Second => AddWin(wins, c.second, c.first)
      case Indeterminate => wins
  }

  lemma BeatsSnoc(comparisons: seq<Comparison>, c: Comparison, a: string, b: string)
    ensures Beats(comparisons + [c], a, b) <==> Beats(comparisons, a, b) || Decides(c, a, b)
  {
    if Decides(c, a, b) {
      assert c in comparisons + [c];
    }
    if d :| d in comparisons && Decides(d, a, b) {
      assert d in comparisons + [c];
    }
  }

  lemma CreditKeepsWins(wins: map<string, set<string>>, comparisons: seq<Comparison>, c: Comparison,
                        eligible: set<string>)
    requires AreWins(wins, comparisons, eligible)
    ensures AreWins(Credit(wins, c, eligible), comparisons + [c], eligible)
  {
    hide Beats;
    var wins' := Credit(wins, c, eligible);
    forall a | a in eligible
      ensures wins'[a] == Beaten(comparisons + [c], eligible, a)
    {
      forall b
        ensures Beats(comparisons + [c], a, b) <==> Beats(comparisons, a, b) || Decides(c, a, b)
      {
        BeatsSnoc(comparisons, c, a, b);
      }
      assert wins[a] == Beaten(comparisons, eligible, a);
    }
  }

  /** Beating all but one of the eligible is beating all the others. */
  lemma FullCountIsDominance(comparisons: seq<Comparison>, eligible: set<string>, a: string)
    requires PairsOnce(comparisons) && a in eligible
    ensures |Beaten(comparisons, eligible, a)| == |eligible| - 1 <==> IsDominant(a, eligible, comparisons)
  {
    var beaten := Beaten(comparisons, eligible, a);
    assert !Beats(comparisons, a, a) by {
      if Beats(comparisons, a, a) {
        BeatsIsAsymmetric(comparisons, a, a);
      }
    }
    var rivals := eligible - {a};
    assert beaten <= rivals;
    assert eligible == rivals + {a};
    if |beaten| == |rivals| {
      FullSubset(beaten, rivals);
    } else {
      assert beaten != rivals;
      var b :| b in rivals && b !in beaten;
      assert !Beats(comparisons, a, b);
    }
    if IsDominant(a, eligible, comparisons) {
      assert beaten == rivals;
    }
  }

  lemma {:induction false} FullSubset(a: set<string>, b: set<string>)
    requires a <= b && |a| == |b|
    ensures a == b
  {
    if x :| x in b && x !in a {
      assert a <= b - {x};
      SubsetSize(a, b - {x});
    }
  }

  lemma {:induction false} SubsetSize(a: set<string>, b: set<string>)
    requires a <= b
    ensures |a| <= |b|
  {
    if x :| x in a {
      SubsetSize(a - {x}, b - {x});
    }
  }

  /** Count wins among the eligible alternatives and name the one with a full count, if exactly one has it. */
  method RestrictedDominanceWinner(comparisons: seq<Comparison>, eligible: set<string>) returns (winner: Option<string>)
    requires PairsOnce(comparisons)
    ensures winner.None? <==> forall w :: w in eligible ==> !IsDominant(w, eligible, comparisons)
    ensures winner.Some? ==> IsDominant(winner.value, eligible, comparisons)
  {
    hide IsDominant;
    hide PairsOnce;
    var wins: map<string, set<string>> := map a | a in eligible :: {};
    var n := 0;
    while n < |comparisons|
      invariant 0 <= n <= |comparisons|
      invariant AreWins(wins, comparisons[..n], eligible)
    {
      CreditKeepsWins(wins, comparisons[..n], comparisons[n], eligible);
      assert comparisons[..n + 1] == comparisons[..n] + [comparisons[n]];
      wins := Credit(wins, comparisons[n], eligible);
      n := n + 1;
    }
    assert comparisons[..n] == comparisons;
    var winners := set a | a in eligible && |wins[a]| == |eligible| - 1;
    WinnersAreDominant(winners, wins, comparisons, eligible);
    winner := None;
    if |winners| == 1 {
      var w :| w in winners;
      winner := Some(w);
    }
  }

  lemma WinnersAreDominant(winners: set<string>, wins: map<string, set<string>>, comparisons: seq<Comparison>,
                           eligible: set<string>)
    requires PairsOnce(comparisons) && AreWins(wins, comparisons, eligible)
    requires winners == set a | a in eligible && |wins[a]| == |eligible| - 1
    ensures forall a :: a in winners <==> a in eligible && IsDominant(a, eligible, comparisons)
    ensures |winners| != 1 ==> winners == {}
  {
    forall a | a in eligible
      ensures a in winners <==> IsDominant(a, eligible, comparisons)
    {
      FullCountIsDominance(comparisons, eligible, a);
    }
    if w :| w in winners {
      forall v | v in winners
        ensures v == w
      {
        DominantIsUnique(w, v, eligible, comparisons);
      }
      assert winners == {w};
    }
  }
}
