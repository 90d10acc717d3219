/**
 The shape every canonical builder shares: bring each item into canonical form, then sort the items by a key
 that no two of them share; and the shape every `verify` shares: rebuild from the record's own input, compare.
 */
module Canonical {
  import opened LookThrough
  import opened Sequences
  import opened Sorting

  function Single<A, B>(c: A -> B): A -> seq<B>
  {
    (x: A) => [c(x)]
  }

  function Each<A, B>(s: seq<A>, c: A -> B): seq<B>
  {
    Gather(s, Single(c))
  }

  function CanonList<A>(s: seq<A>, c: A -> A, leq: (A, A) -> bool): seq<A>
  {
    SortBy(Each(s, c), leq)
  }

  predicate IdsDistinct<A>(s: seq<A>, key: A -> string)
  {
    NoRepeats(Each(s, key))
  }

  /** Canonicalising an item twice is canonicalising it once, and keeps its key. */
  ghost predicate Stable<A>(s: seq<A>, c: A -> A, key: A -> string)
  {
    forall x :: x in s ==> c(c(x)) == c(x) && key(c(x)) == key(x)
  }

  /** The same items up to their inner form, in any order. */
  ghost predicate Rearranged<A(!new)>(a: seq<A>, b: seq<A>, c: A -> A)
  {
    exists h: seq<A> :: Matches(h, a, b, c)
  }

  lemma {:induction false} EachAgree<A, B>(a: seq<A>, b: seq<A>, c: A -> B)
    requires |a| == |b| && forall i :: 0 <= i < |a| ==> c(a[i]) == c(b[i])
    ensures Each(a, c) == Each(b, c)
  {
    if a != [] {
      assert c(a[0]) == c(b[0]);
      EachAgree(a[1..], b[1..], c);
    }
  }

  lemma {:induction false} EachAfter<A, B>(s: seq<A>, c: A -> A, key: A -> B)
    requires forall x :: x in s ==> key(c(x)) == key(x)
    ensures Each(Each(s, c), key) == Each(s, key)
  {
    if s != [] {
      EachAfter(s[1..], c, key);
      GatherAppend([c(s[0])], Each(s[1..], c), Single(key));
      GatherOne(c(s[0]), Single(key));
    }
  }

  lemma InEach<A, B>(s: seq<A>, c: A -> B, y: B)
    ensures y in Each(s, c) <==> exists x :: x in s && y == c(x)
  {
    InGather(s, Single(c), y);
  }

  lemma {:induction false} EachFixed<A>(s: seq<A>, c: A -> A)
    requires forall x :: x in s ==> c(x) == x
    ensures Each(s, c) == s
  {
    if s != [] {
      EachFixed(s[1..], c);
    }
  }

  lemma DistinctIdsTie<A(!new)>(s: seq<A>, key: A -> string)
    requires IdsDistinct(s, key)
    ensures TiesAreEqual(s, By(key))
  {
    hide Gather;
    hide NoRepeats;
    forall x, y | x in s && y in s && By(key)(x, y) && By(key)(y, x)
      ensures x == y
    {
      ByTie(key, x, y);
      SameNameSameItem(s, Single(key), x, y);
    }
  }

  /** Canonicalising a list twice is canonicalising it once. */
  lemma ListIdempotent<A(!new)>(s: seq<A>, c: A -> A, key: A -> string)
    requires Stable(s, c, key) && IdsDistinct(s, key)
    ensures var r := CanonList(s, c, By(key)); CanonList(r, c, By(key)) == r && IdsDistinct(r, key) && Stable(r, c, key)
  {
    hide Gather;
    hide NoRepeats;
    hide By;
    hide SortBy;
    hide TiesAreEqual;
    hide TotalPreorder;
    var g := Each(s, c);
    var r := SortBy(g, By(key));
    ByIsOrder(key);
    EachAfter(s, c, key);
    DistinctIdsTie(g, key);
    SortKeeps(g, By(key));
    SameItems(g, r);
    NamesAreUnordered(g, r, Single(key));
    SortIdempotent(g, By(key));
    forall y | y in r
      ensures c(y) == y
    {
      InEach(s, c, y);
    }
    EachFixed(r, c);
  }

  /** The canonical list forgets the order of the items and their inner form, and nothing else. */
  lemma ListForgetsOrder<A(!new)>(a: seq<A>, b: seq<A>, c: A -> A, key: A -> string)
    requires Stable(a, c, key) && IdsDistinct(a, key)
    ensures CanonList(a, c, By(key)) == CanonList(b, c, By(key)) <==> multiset(Each(a, c)) == multiset(Each(b, c))
  {
    hide Gather;
    hide NoRepeats;
    hide By;
    hide TiesAreEqual;
    hide TotalPreorder;
    ByIsOrder(key);
    EachAfter(a, c, key);
    DistinctIdsTie(Each(a, c), key);
    SortIsCanonical(Each(a, c), Each(b, c), By(key));
  }

  lemma WithoutOneEach<A>(s: seq<A>, j: nat, c: A -> A)
    requires j < |s|
    ensures multiset(Each(s, c)) == multiset{c(s[j])} + multiset(Each(s[..j] + s[j + 1..], c))
  {
    GatherWithout(s, j, Single(c));
  }

  lemma CancelOne<A>(m: multiset<A>, n: multiset<A>, y: A)
    requires multiset{y} + m == multiset{y} + n
    ensures m == n
  {
    assert (multiset{y} + m) - multiset{y} == m;
    assert (multiset{y} + n) - multiset{y} == n;
  }

  /** h matches a item by item and is a rearrangement of b. */
  ghost predicate Matches<A>(h: seq<A>, a: seq<A>, b: seq<A>, c: A -> A)
  {
    |h| == |a| && (forall i :: 0 <= i < |a| ==> c(a[i]) == c(h[i])) && multiset(h) == multiset(b)
  }

  lemma PrependMatch<A>(h: seq<A>, a: seq<A>, b: seq<A>, j: nat, c: A -> A)
    requires a != [] && j < |b| && c(a[0]) == c(b[j])
    requires Matches(h, a[1..], b[..j] + b[j + 1..], c)
    ensures Matches([b[j]] + h, a, b, c)
  {
    WithoutOne(b, j);
    assert b[j] in multiset(b);
    forall i | 0 <= i < |a|
      ensures c(a[i]) == c(([b[j]] + h)[i])
    {
      if i > 0 {
        assert a[i] == a[1..][i - 1];
      }
    }
  }

  lemma FirstElsewhere<A(!new)>(a: seq<A>, b: seq<A>, c: A -> A) returns (j: nat)
    requires a != [] && multiset(Each(a, c)) == multiset(Each(b, c))
    ensures j < |b| && c(a[0]) == c(b[j])
    ensures multiset(Each(a[1..], c)) == multiset(Each(b[..j] + b[j + 1..], c))
  {
    hide Each;
    SameItems(Each(a, c), Each(b, c));
    InEach(a, c, c(a[0]));
    InEach(b, c, c(a[0]));
    var x :| x in b && c(a[0]) == c(x);
    j :| 0 <= j < |b| && b[j] == x;
    WithoutOneEach(a, 0, c);
    WithoutOneEach(b, j, c);
    assert a[..0] + a[1..] == a[1..];
    CancelOne(multiset(Each(a[1..], c)), multiset(Each(b[..j] + b[j + 1..], c)), c(x));
  }

  /** Lists with the same canonical items can be matched up item by item. */
  lemma {:induction false} MatchUp<A(!new)>(a: seq<A>, b: seq<A>, c: A -> A) returns (h: seq<A>)
    requires multiset(Each(a, c)) == multiset(Each(b, c))
    ensures Matches(h, a, b, c)
    decreases |a|
  {
    hide Each;
    if a == [] {
      EachLength(a, c);
      EachLength(b, c);
      SameItems(Each(a, c), Each(b, c));
      h := [];
    } else {
      hide Matches;
      var j := FirstElsewhere(a, b, c);
      var matched := MatchUp(a[1..], b[..j] + b[j + 1..], c);
      PrependMatch(matched, a, b, j, c);
      h := [b[j]] + matched;
    }
  }

  lemma EachLength<A, B>(s: seq<A>, c: A -> B)
    ensures |Each(s, c)| == |s|
  {
    GatherSingles(s, Single(c));
  }

  /** The canonical lists agree exactly when one list is a rearrangement of the other, up to inner form. */
  lemma SameListIff<A(!new)>(a: seq<A>, b: seq<A>, c: A -> A, key: A -> string)
    requires Stable(a, c, key) && IdsDistinct(a, key)
    ensures CanonList(a, c, By(key)) == CanonList(b, c, By(key)) <==> Rearranged(a, b, c)
  {
    hide Stable;
    hide IdsDistinct;
    hide CanonList;
    ListForgetsOrder(a, b, c, key);
    RearrangedIff(a, b, c);
  }

  lemma RearrangedIff<A(!new)>(a: seq<A>, b: seq<A>, c: A -> A)
    ensures Rearranged(a, b, c) <==> multiset(Each(a, c)) == multiset(Each(b, c))
  {
    hide Each;
    if Rearranged(a, b, c) {
      var h: seq<A> :| Matches(h, a, b, c);
      EachAgree(a, h, c);
      EachSameItems(h, b, c);
    }
    if multiset(Each(a, c)) == multiset(Each(b, c)) {
      var h := MatchUp(a, b, c);
    }
  }

  lemma EachSameItems<A, B>(a: seq<A>, b: seq<A>, c: A -> B)
    requires multiset(a) == multiset(b)
    ensures multiset(Each(a, c)) == multiset(Each(b, c))
  {
    GatherSameItems(a, b, Single(c));
  }

  // ---------------------------------------------------------------- replay

  /** A record keeps the canonical input it was derived from, and is addressed by its fingerprint. */
  datatype Record<D, S> = Record(input: D, fingerprint: string, id: string, derived: S)

  /** How one builder derives its result and its addresses; None is any error while deriving. */
  datatype Builder<!D, S> = Builder(canonical: D -> D, derive: D -> Option<S>, fingerprint: D -> string,
                                    idOf: string -> string)

  function Execute<D, S>(b: Builder<D, S>, d: D): Option<Record<D, S>>
  {
    var input := b.canonical(d);
    var derived := b.derive(input);
    if derived.None? then None
    else Some(Record(input, b.fingerprint(input), b.idOf(b.fingerprint(input)), derived.value))
  }

  /** What a record holds: the canonical input, its fingerprint, the id of that, and what is derived from it. */
  lemma RecordIs<D, S>(b: Builder<D, S>, d: D)
    ensures Execute(b, d).None? <==> b.derive(b.canonical(d)).None?
    ensures Execute(b, d).Some? ==>
      var r := Execute(b, d).value;
      && r.input == b.canonical(d) && r.fingerprint == b.fingerprint(b.canonical(d))
      && r.id == b.idOf(r.fingerprint) && Some(r.derived) == b.derive(r.input)
  {
  }

  /** Rebuild from the record's own input and compare the whole record. */
  predicate Verify<D(==), S(==)>(b: Builder<D, S>, r: Record<D, S>)
  {
    Execute(b, r.input) == Some(r)
  }

  ghost predicate IdempotentOn<D(!new), S>(b: Builder<D, S>, valid: D -> bool)
  {
    forall d :: valid(d) ==> valid(b.canonical(d)) && b.canonical(b.canonical(d)) == b.canonical(d)
  }

  /** Verification returns on exactly the records that some valid input executes to. */
  lemma VerifyAcceptsExactlyBuilt<D(!new), S>(b: Builder<D, S>, valid: D -> bool, r: Record<D, S>)
    requires IdempotentOn(b, valid)
    ensures valid(r.input) && Verify(b, r) <==> exists d :: valid(d) && Execute(b, d) == Some(r)
  {
    if d :| valid(d) && Execute(b, d) == Some(r) {
      assert r.input == b.canonical(d);
    }
  }

  /** Two inputs execute to the same record exactly when their canonical forms agree, whatever the hash does. */
  lemma SameRecordIff<D, S>(b: Builder<D, S>, d: D, e: D)
    requires Execute(b, d).Some?
    ensures Execute(b, d) == Execute(b, e) <==> b.canonical(d) == b.canonical(e)
  {
  }
}
