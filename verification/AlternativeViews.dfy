/**
 The exposure views supplied for the alternatives of a marginal decision: one for the existing holding and one
 for the core ETF, in any order. What the decision reads from them does not depend on that order.
 */
module AlternativeViews {
  import opened LookThrough
  import opened Sequences
  import opened PolicyDecision
  import Canonical
  import DecisionReplay

  datatype Hypothetical = Hypothetical(instrumentId: string, amount: Money)

  /** `content` stands for labels, rationale and claim ids. */
  datatype CompanyProfile = CompanyProfile(companyId: string, content: string)

  /** One verified exposure; its before and after snapshots and its disclosures are opaque. */
  datatype View = View(
    hypothetical: Option<Hypothetical>, before: string, after: Option<string>, profiles: seq<CompanyProfile>,
    disclosures: string)

  // ---------------------------------------------------------------- one view for each expected instrument

  ghost predicate IsAlternative(v: View, current: View, capital: Money)
  {
    v.hypothetical.Some? && v.after.Some? && v.hypothetical.value.amount == capital && v.before == current.before
  }

  function InstrumentOf(v: View): Option<string>
  {
    if v.hypothetical.None? then None else Some(v.hypothetical.value.instrumentId)
  }

  function Ids(views: seq<View>): set<string>
  {
    set v | v in views && v.hypothetical.Some? :: v.hypothetical.value.instrumentId
  }

  /** No instrument has two views. */
  ghost predicate OneEach(views: seq<View>)
  {
    forall i, j :: 0 <= i < j < |views| ==> InstrumentOf(views[i]) != InstrumentOf(views[j])
  }

  ghost predicate AreAlternatives(views: seq<View>, current: View, capital: Money)
  {
    forall v :: v in views ==> IsAlternative(v, current, capital)
  }

  /** Every view is an alternative of the unit, no instrument has two, and exactly the expected ones have one. */
  ghost predicate AreAdmitted(views: seq<View>, current: View, expected: set<string>, capital: Money)
  {
    AreAlternatives(views, current, capital) && OneEach(views) && Ids(views) == expected
  }

  lemma IdsAre(views: seq<View>, id: string)
    ensures id in Ids(views) <==> exists v :: v in views && InstrumentOf(v) == Some(id)
  {
  }

  /** The first check, on the number of views, follows from the others. */
  lemma {:induction false} OneViewEach(views: seq<View>)
    requires OneEach(views) && forall v :: v in views ==> v.hypothetical.Some?
    ensures |Ids(views)| == |views|
  {
    if views != [] {
      var init, last := views[..|views| - 1], views[|views| - 1];
      assert views == init + [last];
      OneViewEach(init);
      var id := last.hypothetical.value.instrumentId;
      forall v | v in init
        ensures InstrumentOf(v) != InstrumentOf(last)
      {
        var i :| 0 <= i < |init| && init[i] == v;
        assert InstrumentOf(views[i]) != InstrumentOf(views[|views| - 1]);
      }
      assert Ids(views) == Ids(init) + {id};
    } else {
      assert Ids(views) == {};
    }
  }

  ghost predicate IsIndex(m: map<string, View>, views: seq<View>)
  {
    && (forall v :: v in views ==> InstrumentOf(v).Some? && InstrumentOf(v).value in m && m[InstrumentOf(v).value] == v)
    && (forall id :: id in m ==> m[id] in views && InstrumentOf(m[id]) == Some(id))
  }

  /** None exactly when some check of the views fails. */
  method IndexViews(current: View, views: seq<View>, expected: set<string>, capital: Money)
    returns (r: Option<map<string, View>>)
    ensures r.Some? <==> AreAdmitted(views, current, expected, capital)
    ensures r.Some? ==> IsIndex(r.value, views)
  {
    hide IsIndex;
    hide OneEach;
    hide Ids;
    if |views| != |expected| {
      if AreAdmitted(views, current, expected, capital) {
        OneViewEach(views);
      }
      return None;
    }
    var index: map<string, View> := map[];
    NothingIndexed(views[..0]);
    for n := 0 to |views|
      invariant IsIndex(index, views[..n]) && index.Keys == Ids(views[..n])
      invariant AreAlternatives(views[..n], current, capital) && OneEach(views[..n])
    {
      var v := views[n];
      assert views[..n + 1] == views[..n] + [v] && v in views;
      if v.hypothetical.None? || v.after.None? {
        return None;
      }
      var id := v.hypothetical.value.instrumentId;
      if id in index {
        TwiceIsRefused(index, views, n);
        return None;
      }
      if v.hypothetical.value.amount != capital || v.before != current.before {
        return None;
      }
      NewInstrument(index, views[..n], v);
      index := index[id := v];
    }
    assert views[..|views|] == views;
    if index.Keys != expected {
      return None;
    }
    r := Some(index);
  }

  lemma TwiceIsRefused(index: map<string, View>, views: seq<View>, n: nat)
    requires n < |views| && IsIndex(index, views[..n])
    requires views[n].hypothetical.Some? && views[n].hypothetical.value.instrumentId in index
    ensures !OneEach(views)
  {
    var first := index[views[n].hypothetical.value.instrumentId];
    var i :| 0 <= i < n && views[..n][i] == first;
    assert InstrumentOf(views[i]) == InstrumentOf(views[n]);
  }

  lemma NothingIndexed(views: seq<View>)
    requires views == []
    ensures IsIndex(map[], views) && Ids(views) == {} && OneEach(views)
  {
  }

  lemma IdsNext(views: seq<View>, v: View)
    requires v.hypothetical.Some?
    ensures Ids(views + [v]) == Ids(views) + {v.hypothetical.value.instrumentId}
  {
    assert forall w :: w in views + [v] <==> w in views || w == v;
  }

  lemma NewInstrument(index: map<string, View>, views: seq<View>, v: View)
    requires IsIndex(index, views) && index.Keys == Ids(views)
    requires v.hypothetical.Some? && v.hypothetical.value.instrumentId !in index
    ensures var id := v.hypothetical.value.instrumentId;
      IsIndex(index[id := v], views + [v]) && index[id := v].Keys == Ids(views + [v])
    ensures OneEach(views) ==> OneEach(views + [v])
  {
    IdsNext(views, v);
    forall w | w in views
      ensures InstrumentOf(w) != InstrumentOf(v)
    {
    }
    assert forall w :: w in views + [v] <==> w in views || w == v;
    hide Ids;
  }

  // ---------------------------------------------------------------- the candidate's profile

  function ProfilesOf(companyId: string, views: seq<View>): set<CompanyProfile>
  {
    set v, p | v in views && p in v.profiles && p.companyId == companyId :: p
  }

  lemma ProfilesAre(companyId: string, views: seq<View>, p: CompanyProfile)
    ensures p in ProfilesOf(companyId, views) <==>
      p.companyId == companyId && exists v :: v in views && p in v.profiles
  {
  }

  /** None when two views describe the company differently; otherwise its one profile, if any view has it. */
  method CandidateProfile(companyId: string, views: seq<View>) returns (r: Option<Option<CompanyProfile>>)
    ensures r.None? <==> exists p, q :: p in ProfilesOf(companyId, views) && q in ProfilesOf(companyId, views) && p != q
    ensures r.Some? ==> ProfilesOf(companyId, views) == if r.value.Some? then {r.value.value} else {}
  {
    var profiles := ProfilesOf(companyId, views);
    if profiles == {} {
      return Some(None);
    }
    var p :| p in profiles;
    if profiles != {p} {
      assert exists q :: q in profiles && q != p;
      return None;
    }
    r := Some(Some(p));
  }

  // ---------------------------------------------------------------- the decision reads no order

  lemma IndexIsUnordered(a: seq<View>, b: seq<View>, m: map<string, View>, n: map<string, View>)
    requires multiset(a) == multiset(b) && IsIndex(m, a) && IsIndex(n, b)
    ensures m == n
  {
    SameItems(a, b);
    forall id
      ensures id in m <==> id in n
      ensures id in m && id in n ==> m[id] == n[id]
    {
      assert id in m ==> m[id] in a;
      assert id in n ==> n[id] in b;
    }
  }

  lemma AdmissionIsUnordered(a: seq<View>, b: seq<View>, current: View, expected: set<string>, capital: Money)
    requires multiset(a) == multiset(b) && AreAdmitted(a, current, expected, capital)
    ensures AreAdmitted(b, current, expected, capital)
  {
    SameItems(a, b);
    OneViewEach(a);
    assert Ids(a) == Ids(b);
    SizesDecide(b);
  }

  /** As many instruments as views: no instrument has two. */
  lemma SizesDecide(views: seq<View>)
    requires forall v :: v in views ==> v.hypothetical.Some?
    requires |Ids(views)| == |views|
    ensures OneEach(views)
  {
    forall i, j | 0 <= i < j < |views|
      ensures InstrumentOf(views[i]) != InstrumentOf(views[j])
    {
      if InstrumentOf(views[i]) == InstrumentOf(views[j]) {
        var rest := views[..j] + views[j + 1..];
        assert rest[i] == views[i];
        assert Ids(views) <= Ids(rest) by {
          forall id | id in Ids(views)
            ensures id in Ids(rest)
          {
            var k :| 0 <= k < |views| && views[k].hypothetical.value.instrumentId == id;
            var at := if k == j then i else k;
            assert views[at].hypothetical.value.instrumentId == id;
            assert rest[if at < j then at else at - 1] == views[at];
          }
        }
        AtMostOneEach(rest);
        SubsetIsSmaller(Ids(views), Ids(rest));
      }
    }
  }

  lemma {:induction false} AtMostOneEach(views: seq<View>)
    ensures |Ids(views)| <= |views|
  {
    if views != [] {
      var init, last := views[..|views| - 1], views[|views| - 1];
      assert views == init + [last];
      AtMostOneEach(init);
      var ids := Ids(init);
      if last.hypothetical.Some? {
        assert Ids(views) == ids + {last.hypothetical.value.instrumentId};
      } else {
        assert Ids(views) == ids;
      }
    }
  }

  lemma SubsetIsSmaller(a: set<string>, b: set<string>)
    requires a <= b
    ensures |a| <= |b|
  {
    assert b == a + (b - a);
  }

  /** All that the decision reads from the supplied views. */
  datatype Reading = Reading(index: map<string, View>, profile: Option<CompanyProfile>)

  ghost predicate Readable(current: View, views: seq<View>, expected: set<string>, capital: Money, companyId: string)
  {
    && AreAdmitted(views, current, expected, capital)
    && (forall p, q :: p in ProfilesOf(companyId, [current] + views) && q in ProfilesOf(companyId, [current] + views)
          ==> p == q)
  }

  ghost predicate IsReading(r: Reading, current: View, views: seq<View>, companyId: string)
  {
    && IsIndex(r.index, views)
    && ProfilesOf(companyId, [current] + views) == if r.profile.Some? then {r.profile.value} else {}
  }

  method Read(current: View, views: seq<View>, expected: set<string>, capital: Money, companyId: string)
    returns (r: Option<Reading>)
    ensures r.Some? <==> Readable(current, views, expected, capital, companyId)
    ensures r.Some? ==> IsReading(r.value, current, views, companyId)
  {
    hide AreAdmitted;
    hide IsIndex;
    hide ProfilesOf;
    var index := IndexViews(current, views, expected, capital);
    if index.None? {
      return None;
    }
    var profile := CandidateProfile(companyId, [current] + views);
    if profile.None? {
      return None;
    }
    r := Some(Reading(index.value, profile.value));
  }

  lemma ProfilesAreUnordered(a: seq<View>, b: seq<View>, current: View, companyId: string)
    requires multiset(a) == multiset(b)
    ensures ProfilesOf(companyId, [current] + a) == ProfilesOf(companyId, [current] + b)
  {
    SameItems(a, b);
    assert forall v :: v in [current] + a <==> v in [current] + b;
  }

  /** Whether the views can be read, and what is read, does not depend on the order they are supplied in. */
  lemma ReadingIsUnordered(current: View, a: seq<View>, b: seq<View>, expected: set<string>, capital: Money,
                           companyId: string, r: Reading, s: Reading)
    requires multiset(a) == multiset(b)
    ensures Readable(current, a, expected, capital, companyId) <==> Readable(current, b, expected, capital, companyId)
    ensures IsReading(r, current, a, companyId) && IsReading(s, current, b, companyId) ==> r == s
  {
    ProfilesAreUnordered(a, b, current, companyId);
    hide ProfilesOf;
    if AreAdmitted(a, current, expected, capital) {
      AdmissionIsUnordered(a, b, current, expected, capital);
    }
    if AreAdmitted(b, current, expected, capital) {
      AdmissionIsUnordered(b, a, current, expected, capital);
    }
    hide AreAdmitted;
    if IsIndex(r.index, a) && IsIndex(s.index, b) {
      IndexIsUnordered(a, b, r.index, s.index);
    }
    hide IsIndex;
    if IsReading(r, current, a, companyId) && IsReading(s, current, b, companyId) {
      SameProfile(r.profile, s.profile);
    }
  }

  lemma SameProfile(p: Option<CompanyProfile>, q: Option<CompanyProfile>)
    requires (if p.Some? then {p.value} else {}) == (if q.Some? then {q.value} else {})
    ensures p == q
  {
    if p.Some? {
      assert p.value in (if q.Some? then {q.value} else {});
    }
  }

  /**
   The whole decision: whatever is derived from the canonical input and the views, rearranging the views, and
   rearranging or reversing the input, gives the same record.
   */
  lemma DecisionIsUnordered<S>(derive: (DecisionReplay.Input, Reading) -> Option<S>,
                               fingerprint: DecisionReplay.Input -> string, decisionId: string -> string,
                               i: DecisionReplay.Input, j: DecisionReplay.Input, current: View, a: seq<View>,
                               b: seq<View>, companyId: string, r: Reading, s: Reading)
    requires DecisionReplay.ValidInput(i) && DecisionReplay.SameInput(i, j)
    requires multiset(a) == multiset(b)
    requires IsReading(r, current, a, companyId) && IsReading(s, current, b, companyId)
    ensures Canonical.Execute(DecisionReplay.DecisionBuilder(x => derive(x, r), fingerprint, decisionId), i)
         == Canonical.Execute(DecisionReplay.DecisionBuilder(x => derive(x, s), fingerprint, decisionId), j)
  {
    ReadingIsUnordered(current, a, b, {}, Money(0.0, ""), companyId, r, s);
    hide IsReading;
    hide DecisionReplay.SameInput;
    hide DecisionReplay.ValidInput;
    DecisionReplay.InputUnordered(i, j);
    hide DecisionReplay.CanonicalInput;
  }
}
