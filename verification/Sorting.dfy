/**
 Python's `sorted(items, key=...)`: stable insertion sort for a total preorder, with the fact every
 canonical builder rests on: when no two items tie, the result depends only on the multiset of items.
 */
module Sorting {
  import opened Sequences

  /** `leq(x, y)` says that the key of x is at most the key of y. */
  ghost predicate TotalPreorder<T(!new)>(leq: (T, T) -> bool)
  {
    && (forall x, y :: leq(x, y) || leq(y, x))
    && (forall x, y, z :: leq(x, y) && leq(y, z) ==> leq(x, z))
  }

  predicate Ordered<T>(s: seq<T>, leq: (T, T) -> bool)
  {
    forall i, j :: 0 <= i < j < |s| ==> leq(s[i], s[j])
  }

  /** No two places hold items with the same key: what the duplicate checks of the models guarantee. */
  predicate KeysDistinct<T>(s: seq<T>, leq: (T, T) -> bool)
  {
    forall i, j :: 0 <= i < j < |s| ==> !(leq(s[i], s[j]) && leq(s[j], s[i]))
  }

  function Insert<T>(x: T, s: seq<T>, leq: (T, T) -> bool): seq<T>
  {
    if s == [] || leq(x, s[0]) then [x] + s else [s[0]] + Insert(x, s[1..], leq)
  }

  function SortBy<T>(s: seq<T>, leq: (T, T) -> bool): seq<T>
  {
    if s == [] then [] else Insert(s[0], SortBy(s[1..], leq), leq)
  }

  lemma {:induction false} InsertKeeps<T>(x: T, s: seq<T>, leq: (T, T) -> bool)
    ensures multiset(Insert(x, s, leq)) == multiset(s) + multiset{x}
  {
    if s == [] || leq(x, s[0]) {
    } else {
      InsertKeeps(x, s[1..], leq);
      assert s == [s[0]] + s[1..];
    }
  }

  lemma {:induction false} SortKeeps<T>(s: seq<T>, leq: (T, T) -> bool)
    ensures multiset(SortBy(s, leq)) == multiset(s)
  {
    if s != [] {
      SortKeeps(s[1..], leq);
      InsertKeeps(s[0], SortBy(s[1..], leq), leq);
      assert s == [s[0]] + s[1..];
    }
  }

  lemma {:induction false} InsertOrdered<T(!new)>(x: T, s: seq<T>, leq: (T, T) -> bool)
    requires TotalPreorder(leq) && Ordered(s, leq)
    ensures Ordered(Insert(x, s, leq), leq)
  {
    if s == [] || leq(x, s[0]) {
    } else {
      InsertOrdered(x, s[1..], leq);
      InsertKeeps(x, s[1..], leq);
      var tail := Insert(x, s[1..], leq);
      forall y | y in tail
        ensures leq(s[0], y)
      {
        assert y in multiset(tail);
        assert y == x || y in s[1..];
      }
    }
  }

  lemma {:induction false} SortOrdered<T(!new)>(s: seq<T>, leq: (T, T) -> bool)
    requires TotalPreorder(leq)
    ensures Ordered(SortBy(s, leq), leq)
  {
    if s != [] {
      SortOrdered(s[1..], leq);
      InsertOrdered(s[0], SortBy(s[1..], leq), leq);
    }
  }

  /** Distinctness of keys is a property of the multiset. */
  lemma DistinctIsUnordered<T(!new)>(a: seq<T>, b: seq<T>, leq: (T, T) -> bool)
    requires TotalPreorder(leq)
    requires multiset(a) == multiset(b)
    requires KeysDistinct(a, leq)
    ensures KeysDistinct(b, leq)
  {
    SameItems(a, b);
    forall i, j | 0 <= i < j < |b|
      ensures !(leq(b[i], b[j]) && leq(b[j], b[i]))
    {
      var x, y := b[i], b[j];
      if x == y {
        assert b == b[..i] + [x] + b[i + 1..j] + [x] + b[j + 1..];
        assert multiset(b)[x] >= 2;
        TwicePlaces(a, x);
      } else {
        DifferentPlaces(a, x, y, leq);
      }
    }
  }

  lemma DifferentPlaces<T(!new)>(a: seq<T>, x: T, y: T, leq: (T, T) -> bool)
    requires KeysDistinct(a, leq) && x in a && y in a && x != y
    ensures !(leq(x, y) && leq(y, x))
  {
    var p :| 0 <= p < |a| && a[p] == x;
    var q :| 0 <= q < |a| && a[q] == y;
    if p < q {
      assert !(leq(a[p], a[q]) && leq(a[q], a[p]));
    } else {
      assert !(leq(a[q], a[p]) && leq(a[p], a[q]));
    }
  }

  lemma SameKey<T(!new)>(a: seq<T>, x: T, y: T, leq: (T, T) -> bool)
    requires KeysDistinct(a, leq) && x in a && y in a && leq(x, y) && leq(y, x)
    ensures x == y
  {
    if x != y {
      DifferentPlaces(a, x, y, leq);
    }
  }

  lemma TwicePlaces<T(!new)>(a: seq<T>, x: T)
    requires multiset(a)[x] >= 2
    ensures exists p, q :: 0 <= p < q < |a| && a[p] == x && a[q] == x
  {
    assert x in multiset(a);
    var p :| 0 <= p < |a| && a[p] == x;
    assert a == a[..p] + [x] + a[p + 1..];
    assert multiset(a) == multiset(a[..p]) + multiset{x} + multiset(a[p + 1..]);
    if x in a[..p] {
      var q :| 0 <= q < p && a[..p][q] == x;
      assert a[q] == x;
    } else {
      assert x in multiset(a[p + 1..]);
      var q :| 0 <= q < |a[p + 1..]| && a[p + 1..][q] == x;
      assert a[p + 1 + q] == x;
    }
  }

  lemma LeastFirst<T(!new)>(s: seq<T>, x: T, leq: (T, T) -> bool)
    requires TotalPreorder(leq) && Ordered(s, leq) && x in s
    ensures leq(s[0], x)
  {
    var i :| 0 <= i < |s| && s[i] == x;
    assert leq(x, x);
  }

  lemma TailsAgree<T>(a: seq<T>, b: seq<T>)
    requires multiset(a) == multiset(b) && a != [] && b != [] && a[0] == b[0]
    ensures multiset(a[1..]) == multiset(b[1..])
  {
    assert a == [a[0]] + a[1..] && b == [b[0]] + b[1..];
    assert multiset(a[1..]) == multiset(a) - multiset{a[0]};
    assert multiset(b[1..]) == multiset(b) - multiset{b[0]};
  }

  /** Only equal items tie, so it does not matter which of two tied items comes first. */
  ghost predicate TiesAreEqual<T>(s: seq<T>, leq: (T, T) -> bool)
  {
    forall x, y :: x in s && y in s && leq(x, y) && leq(y, x) ==> x == y
  }

  lemma DistinctTiesAreEqual<T(!new)>(s: seq<T>, leq: (T, T) -> bool)
    requires KeysDistinct(s, leq)
    ensures TiesAreEqual(s, leq)
  {
    forall x, y | x in s && y in s && leq(x, y) && leq(y, x)
      ensures x == y
    {
      SameKey(s, x, y, leq);
    }
  }

  /** Two ordered arrangements of the same items are equal. */
  lemma {:induction false} OrderedIsUnique<T(!new)>(a: seq<T>, b: seq<T>, leq: (T, T) -> bool)
    requires TotalPreorder(leq)
    requires multiset(a) == multiset(b)
    requires Ordered(a, leq) && Ordered(b, leq) && TiesAreEqual(a, leq)
    ensures a == b
  {
    SameItems(a, b);
    if a != [] {
      assert a[0] == b[0] by {
        LeastFirst(a, b[0], leq);
        LeastFirst(b, a[0], leq);
      }
      TailsAgree(a, b);
      OrderedIsUnique(a[1..], b[1..], leq);
      assert a == [a[0]] + a[1..] && b == [b[0]] + b[1..];
    }
  }

  /** Sorting forgets the order of its input, and nothing else. */
  lemma SortIsCanonical<T(!new)>(a: seq<T>, b: seq<T>, leq: (T, T) -> bool)
    requires TotalPreorder(leq) && TiesAreEqual(a, leq)
    ensures SortBy(a, leq) == SortBy(b, leq) <==> multiset(a) == multiset(b)
  {
    SortKeeps(a, leq);
    SortKeeps(b, leq);
    if multiset(a) == multiset(b) {
      SortOrdered(a, leq);
      SortOrdered(b, leq);
      SameItems(a, SortBy(a, leq));
      OrderedIsUnique(SortBy(a, leq), SortBy(b, leq), leq);
    }
  }

  lemma SortIdempotent<T(!new)>(s: seq<T>, leq: (T, T) -> bool)
    requires TotalPreorder(leq) && TiesAreEqual(s, leq)
    ensures SortBy(SortBy(s, leq), leq) == SortBy(s, leq)
  {
    SortKeeps(s, leq);
    SortIsCanonical(s, SortBy(s, leq), leq);
  }

  // ---------------------------------------------------------------- strings

  /** Python compares strings by code point, first difference first. */
  predicate StringLeq(a: string, b: string)
  {
    a == [] || (b != [] && (a[0] < b[0] || (a[0] == b[0] && StringLeq(a[1..], b[1..]))))
  }

  lemma {:induction false} StringLeqTotal(a: string, b: string)
    ensures StringLeq(a, b) || StringLeq(b, a)
  {
    if a != [] && b != [] && a[0] == b[0] {
      StringLeqTotal(a[1..], b[1..]);
    }
  }

  lemma {:induction false} StringLeqTransitive(a: string, b: string, c: string)
    requires StringLeq(a, b) && StringLeq(b, c)
    ensures StringLeq(a, c)
  {
    if a != [] && a[0] == b[0] && b[0] == c[0] {
      StringLeqTransitive(a[1..], b[1..], c[1..]);
    }
  }

  lemma {:induction false} StringLeqAntisymmetric(a: string, b: string)
    requires StringLeq(a, b) && StringLeq(b, a)
    ensures a == b
  {
    if a != [] {
      StringLeqAntisymmetric(a[1..], b[1..]);
      assert a == [a[0]] + a[1..] && b == [b[0]] + b[1..];
    }
  }

  lemma StringOrder()
    ensures TotalPreorder(StringLeq)
  {
    forall a, b
      ensures StringLeq(a, b) || StringLeq(b, a)
    {
      StringLeqTotal(a, b);
    }
    forall a, b, c | StringLeq(a, b) && StringLeq(b, c)
      ensures StringLeq(a, c)
    {
      StringLeqTransitive(a, b, c);
    }
  }

  /** Sorting strings forgets their order and nothing else, repeats included. */
  lemma StringsSortCanonically(a: seq<string>, b: seq<string>)
    ensures SortBy(a, StringLeq) == SortBy(b, StringLeq) <==> multiset(a) == multiset(b)
    ensures SortBy(SortBy(a, StringLeq), StringLeq) == SortBy(a, StringLeq)
  {
    StringOrder();
    forall x, y | StringLeq(x, y) && StringLeq(y, x)
      ensures x == y
    {
      StringLeqAntisymmetric(x, y);
    }
    SortIsCanonical(a, b, StringLeq);
    SortIdempotent(a, StringLeq);
  }

  /** The order of texts without recursion: a prefix comes first, else the first difference decides. */
  ghost predicate TextAtMost(a: string, b: string)
  {
    || (|a| <= |b| && a == b[..|a|])
    || exists k :: 0 <= k < |a| && k < |b| && a[..k] == b[..k] && a[k] < b[k]
  }

  lemma {:induction false} StringLeqIs(a: string, b: string)
    ensures StringLeq(a, b) <==> TextAtMost(a, b)
  {
    if a != [] && b != [] {
      StringLeqIs(a[1..], b[1..]);
      if a[0] == b[0] {
        AtMostTail(a, b);
      } else if a[0] < b[0] {
        assert a[..0] == b[..0];
      } else {
        assert !TextAtMost(a, b) by {
          if k :| 0 <= k < |a| && k < |b| && a[..k] == b[..k] && a[k] < b[k] {
            assert k > 0 ==> a[..k][0] == b[..k][0];
          }
        }
      }
    }
  }

  lemma AtMostTail(a: string, b: string)
    requires a != [] && b != [] && a[0] == b[0]
    ensures TextAtMost(a, b) <==> TextAtMost(a[1..], b[1..])
  {
    if k :| 0 <= k < |a| && k < |b| && a[..k] == b[..k] && a[k] < b[k] {
      assert a[1..][..k - 1] == a[..k][1..] && b[1..][..k - 1] == b[..k][1..];
    }
    if k :| 0 <= k < |a[1..]| && k < |b[1..]| && a[1..][..k] == b[1..][..k] && a[1..][k] < b[1..][k] {
      assert a[..k + 1] == [a[0]] + a[1..][..k] && b[..k + 1] == [b[0]] + b[1..][..k];
      assert a[k + 1] < b[k + 1];
    }
    if |a| <= |b| && a == b[..|a|] {
      assert a[1..] == b[1..][..|a| - 1];
    }
    if |a[1..]| <= |b[1..]| && a[1..] == b[1..][..|a| - 1] {
      assert a == [a[0]] + a[1..] && b[..|a|] == [b[0]] + b[1..][..|a| - 1];
    }
  }

  // ---------------------------------------------------------------- tuple keys

  function By<T>(key: T -> string): (T, T) -> bool
  {
    (x, y) => StringLeq(key(x), key(y))
  }

  function ByInt<T>(key: T -> int): (T, T) -> bool
  {
    (x, y) => key(x) <= key(y)
  }

  /** Python compares tuples field by field: `second` decides only where `first` ties. */
  function Then<T>(first: (T, T) -> bool, second: (T, T) -> bool): (T, T) -> bool
  {
    (x, y) => first(x, y) && (first(y, x) ==> second(x, y))
  }

  lemma ByIsOrder<T(!new)>(key: T -> string)
    ensures TotalPreorder(By(key))
  {
    StringOrder();
    hide StringLeq;
    var leq := By(key);
    forall x, y
      ensures leq(x, y) || leq(y, x)
    {
      assert StringLeq(key(x), key(y)) || StringLeq(key(y), key(x));
    }
    forall x, y, z | leq(x, y) && leq(y, z)
      ensures leq(x, z)
    {
      assert StringLeq(key(x), key(y)) && StringLeq(key(y), key(z));
    }
  }

  lemma ByIntIsOrder<T(!new)>(key: T -> int)
    ensures TotalPreorder(ByInt(key))
  {
    var leq := ByInt(key);
    forall x, y
      ensures leq(x, y) || leq(y, x)
    {
    }
    forall x, y, z | leq(x, y) && leq(y, z)
      ensures leq(x, z)
    {
    }
  }

  lemma ThenIsOrder<T(!new)>(first: (T, T) -> bool, second: (T, T) -> bool)
    requires TotalPreorder(first) && TotalPreorder(second)
    ensures TotalPreorder(Then(first, second))
  {
    var leq := Then(first, second);
    forall x, y
      ensures leq(x, y) || leq(y, x)
    {
      assert first(x, y) || first(y, x);
      assert second(x, y) || second(y, x);
    }
    forall x, y, z | leq(x, y) && leq(y, z)
      ensures leq(x, z)
    {
      assert first(x, y) && first(y, z) ==> first(x, z);
    }
  }

  /** A tie under a string key is equality of the key. */
  lemma ByTie<T>(key: T -> string, x: T, y: T)
    ensures By(key)(x, y) && By(key)(y, x) ==> key(x) == key(y)
  {
    if By(key)(x, y) && By(key)(y, x) {
      StringLeqAntisymmetric(key(x), key(y));
    }
  }

  // ---------------------------------------------------------------- sorting and filtering

  lemma {:induction false} KeepOrdered<T(!new)>(s: seq<T>, p: T -> bool, leq: (T, T) -> bool)
    requires Ordered(s, leq)
    ensures Ordered(Keep(s, p), leq)
  {
    if s != [] {
      KeepOrdered(s[1..], p, leq);
      KeepIsFilter(s[1..], p);
      assert forall x :: x in s[1..] ==> leq(s[0], x);
    }
  }

  lemma {:induction false} KeepDistinct<T(!new)>(s: seq<T>, p: T -> bool, leq: (T, T) -> bool)
    requires KeysDistinct(s, leq)
    ensures KeysDistinct(Keep(s, p), leq)
  {
    if s != [] {
      KeepDistinct(s[1..], p, leq);
      KeepIsFilter(s[1..], p);
      assert forall x :: x in s[1..] ==> !(leq(s[0], x) && leq(x, s[0]));
    }
  }

  /** Filtering a sorted list is sorting the filtered one. */
  lemma FilterSorted<T(!new)>(s: seq<T>, p: T -> bool, leq: (T, T) -> bool)
    requires TotalPreorder(leq) && KeysDistinct(s, leq)
    ensures Keep(SortBy(s, leq), p) == SortBy(Keep(s, p), leq)
  {
    hide TotalPreorder;
    hide Keep;
    hide SortBy;
    SortKeeps(s, leq);
    SortOrdered(s, leq);
    SortKeeps(Keep(s, p), leq);
    SortOrdered(Keep(s, p), leq);
    KeepOrdered(SortBy(s, leq), p, leq);
    KeepSameItems(SortBy(s, leq), s, p);
    DistinctIsUnordered(s, SortBy(s, leq), leq);
    KeepDistinct(SortBy(s, leq), p, leq);
    DistinctTiesAreEqual(Keep(SortBy(s, leq), p), leq);
    OrderedIsUnique(Keep(SortBy(s, leq), p), SortBy(Keep(s, p), leq), leq);
  }

  /** An item above all others sorts to the end. */
  lemma SortAppend<T(!new)>(s: seq<T>, last: T, leq: (T, T) -> bool)
    requires TotalPreorder(leq) && KeysDistinct(s + [last], leq)
    requires forall x :: x in s ==> leq(x, last)
    ensures SortBy(s + [last], leq) == SortBy(s, leq) + [last]
  {
    hide SortBy;
    SortKeeps(s, leq);
    SortKeeps(s + [last], leq);
    SortOrdered(s, leq);
    SortOrdered(s + [last], leq);
    SameItems(s, SortBy(s, leq));
    var t := SortBy(s, leq) + [last];
    assert Ordered(t, leq);
    assert multiset(t) == multiset(s + [last]);
    DistinctIsUnordered(s + [last], t, leq);
    DistinctTiesAreEqual(t, leq);
    OrderedIsUnique(t, SortBy(s + [last], leq), leq);
  }
}
