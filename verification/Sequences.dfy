/**
 Sequences as Python's comprehensions build them: filtering, gathering, and what survives a change of order.
 */
module Sequences {

  // ---------------------------------------------------------------- the same items

  lemma SameItems<T>(a: seq<T>, b: seq<T>)
    requires multiset(a) == multiset(b)
    ensures |a| == |b|
    ensures forall x :: x in a <==> x in b
  {
    assert |multiset(a)| == |a| && |multiset(b)| == |b|;
    forall x
      ensures x in a <==> x in b
    {
      assert x in a <==> x in multiset(a);
      assert x in b <==> x in multiset(b);
    }
  }

  // ---------------------------------------------------------------- items without repeats

  predicate NoRepeats<T(==)>(s: seq<T>)
  {
    forall i, j :: 0 <= i < j < |s| ==> s[i] != s[j]
  }

  lemma {:induction false} OnceOnly<T>(a: seq<T>, x: T)
    requires NoRepeats(a)
    ensures multiset(a)[x] <= 1
  {
    if a != [] {
      var init, last := a[..|a| - 1], a[|a| - 1];
      assert a == init + [last];
      OnceOnly(init, x);
      if last == x {
        assert x !in init;
        assert multiset(init)[x] == 0;
      }
    }
  }

  lemma KeepsNoRepeats<T>(a: seq<T>, b: seq<T>)
    requires NoRepeats(a) && multiset(a) == multiset(b)
    ensures NoRepeats(b)
  {
    forall i, j | 0 <= i < j < |b|
      ensures b[i] != b[j]
    {
      if b[i] == b[j] {
        var x := b[i];
        assert b == b[..i] + [x] + b[i + 1..j] + [x] + b[j + 1..];
        assert multiset(a)[x] >= 2;
        OnceOnly(a, x);
      }
    }
  }

  /** The items of a set, in some order. */
  method Enumerate<T(==)>(s: set<T>) returns (items: seq<T>)
    ensures NoRepeats(items) && |items| == |s| && (forall x :: x in items <==> x in s)
  {
    items := [];
    var rest := s;
    while rest != {}
      invariant rest <= s && NoRepeats(items) && |items| == |s| - |rest|
      invariant forall x :: x in items <==> x in s && x !in rest
      decreases |rest|
    {
      var x :| x in rest;
      items, rest := items + [x], rest - {x};
    }
  }

  // ---------------------------------------------------------------- filtering

  /** The items that satisfy p, in their order. */
  function Keep<T>(s: seq<T>, p: T -> bool): seq<T>
  {
    if s == [] then [] else (if p(s[0]) then [s[0]] else []) + Keep(s[1..], p)
  }

  lemma {:induction false} KeepIsFilter<T>(s: seq<T>, p: T -> bool)
    ensures forall x :: x in Keep(s, p) <==> x in s && p(x)
  {
    if s != [] {
      KeepIsFilter(s[1..], p);
      assert s == [s[0]] + s[1..];
    }
  }

  lemma {:induction false} KeepAppend<T>(a: seq<T>, b: seq<T>, p: T -> bool)
    ensures Keep(a + b, p) == Keep(a, p) + Keep(b, p)
  {
    if a == [] {
      assert a + b == b;
    } else {
      KeepAppend(a[1..], b, p);
      assert (a + b)[1..] == a[1..] + b;
      var first := if p(a[0]) then [a[0]] else [];
      assert Keep(a + b, p) == first + Keep(a[1..] + b, p);
      assert Keep(a, p) == first + Keep(a[1..], p);
    }
  }

  /** Filtering loosely first makes no difference to filtering tightly. */
  lemma {:induction false} KeepNarrow<T(!new)>(s: seq<T>, tight: T -> bool, loose: T -> bool)
    requires forall x :: tight(x) ==> loose(x)
    ensures Keep(Keep(s, loose), tight) == Keep(s, tight)
  {
    if s != [] {
      KeepNarrow(s[1..], tight, loose);
      if loose(s[0]) {
        assert Keep(s, loose) == [s[0]] + Keep(s[1..], loose);
        assert Keep(s, loose)[1..] == Keep(s[1..], loose);
      } else {
        assert !tight(s[0]);
        assert Keep(s, loose) == Keep(s[1..], loose);
      }
    }
  }

  lemma {:induction false} KeepAgree<T>(s: seq<T>, p: T -> bool, q: T -> bool)
    requires forall x :: x in s ==> p(x) == q(x)
    ensures Keep(s, p) == Keep(s, q)
  {
    if s != [] {
      assert p(s[0]) == q(s[0]);
      KeepAgree(s[1..], p, q);
    }
  }

  lemma {:induction false} KeepCounts<T>(s: seq<T>, p: T -> bool, x: T)
    ensures multiset(Keep(s, p))[x] == if p(x) then multiset(s)[x] else 0
  {
    if s == [] {
      assert Keep(s, p) == s;
      assert multiset(s)[x] == 0;
    } else {
      KeepCounts(s[1..], p, x);
      assert s == [s[0]] + s[1..];
      if p(s[0]) {
        assert multiset(Keep(s, p)) == multiset{s[0]} + multiset(Keep(s[1..], p));
      } else {
        assert Keep(s, p) == Keep(s[1..], p);
        assert x == s[0] ==> !p(x);
      }
    }
  }

  lemma SameCounts<T(!new)>(m: multiset<T>, n: multiset<T>)
    requires forall x: T :: m[x] == n[x]
    ensures m == n
  {
    assert forall x :: x in m ==> m[x] <= n[x];
    assert forall x :: x in n ==> n[x] <= m[x];
    assert m - n == multiset{} && n - m == multiset{};
  }

  lemma KeepSameItems<T(!new)>(a: seq<T>, b: seq<T>, p: T -> bool)
    requires multiset(a) == multiset(b)
    ensures multiset(Keep(a, p)) == multiset(Keep(b, p))
  {
    hide Keep;
    var m, n := multiset(Keep(a, p)), multiset(Keep(b, p));
    forall x: T
      ensures m[x] == n[x]
    {
      KeepCounts(a, p, x);
      KeepCounts(b, p, x);
    }
    SameCounts(m, n);
  }

  // ---------------------------------------------------------------- gathering

  /** Everything the items yield, item after item. */
  function Gather<A, B>(s: seq<A>, f: A -> seq<B>): seq<B>
  {
    if s == [] then [] else f(s[0]) + Gather(s[1..], f)
  }

  lemma {:induction false} GatherAppend<A, B>(s: seq<A>, t: seq<A>, f: A -> seq<B>)
    ensures Gather(s + t, f) == Gather(s, f) + Gather(t, f)
  {
    if s == [] {
      assert s + t == t;
    } else {
      GatherAppend(s[1..], t, f);
      assert (s + t)[1..] == s[1..] + t;
      assert Gather(s + t, f) == f(s[0]) + Gather(s[1..] + t, f);
    }
  }

  lemma GatherOne<A, B>(x: A, f: A -> seq<B>)
    ensures Gather([x], f) == f(x)
  {
    assert [x][1..] == [];
  }

  lemma {:induction false} InGather<A, B>(s: seq<A>, f: A -> seq<B>, y: B)
    ensures y in Gather(s, f) <==> exists x :: x in s && y in f(x)
  {
    if s != [] {
      InGather(s[1..], f, y);
      assert s == [s[0]] + s[1..];
    }
  }

  lemma MiddleOut<T>(p: seq<T>, q: seq<T>, r: seq<T>)
    ensures multiset(p + q + r) == multiset(q) + multiset(p + r)
  {
    assert multiset(p + q + r) == multiset(p) + multiset(q) + multiset(r);
  }

  lemma GatherWithout<A, B>(b: seq<A>, j: nat, f: A -> seq<B>)
    requires j < |b|
    ensures multiset(Gather(b, f)) == multiset(f(b[j])) + multiset(Gather(b[..j] + b[j + 1..], f))
  {
    hide Gather;
    var u, w := b[..j], b[j + 1..];
    assert b == (u + [b[j]]) + w;
    GatherAppend(u + [b[j]], w, f);
    GatherAppend(u, [b[j]], f);
    GatherOne(b[j], f);
    GatherAppend(u, w, f);
    MiddleOut(Gather(u, f), f(b[j]), Gather(w, f));
  }

  lemma WithoutOne<A>(b: seq<A>, j: nat)
    requires j < |b|
    ensures multiset(b[..j] + b[j + 1..]) == multiset(b) - multiset{b[j]}
  {
    assert b == b[..j] + [b[j]] + b[j + 1..];
  }

  lemma PlaceOf<A>(a: seq<A>, b: seq<A>) returns (j: nat)
    requires multiset(a) == multiset(b) && a != []
    ensures j < |b| && b[j] == a[0]
  {
    assert a[0] in multiset(a);
    assert a[0] in b;
    j :| 0 <= j < |b| && b[j] == a[0];
  }

  /** Find the first item of one arrangement in the other and strike it from both. */
  lemma StrikeFirst<A>(a: seq<A>, b: seq<A>) returns (j: nat)
    requires multiset(a) == multiset(b) && a != []
    ensures j < |b| && b[j] == a[0] && multiset(a[1..]) == multiset(b[..j] + b[j + 1..])
  {
    j := PlaceOf(a, b);
    WithoutOne(b, j);
    WithoutFirst(a);
  }

  lemma WithoutFirst<A>(a: seq<A>)
    requires a != []
    ensures multiset(a[1..]) == multiset(a) - multiset{a[0]}
  {
    assert a == [a[0]] + a[1..];
  }

  /** The same items yield the same things, in whatever order they come. */
  lemma {:induction false} GatherSameItems<A, B>(a: seq<A>, b: seq<A>, f: A -> seq<B>)
    requires multiset(a) == multiset(b)
    ensures multiset(Gather(a, f)) == multiset(Gather(b, f))
    decreases |a|
  {
    hide Gather;
    if a == [] {
      SameItems(a, b);
      assert b == [];
    } else {
      var j := StrikeFirst(a, b);
      GatherSameItems(a[1..], b[..j] + b[j + 1..], f);
      GatherWithout(b, j, f);
      GatherWithout(a, 0, f);
      assert a[..0] + a[1..] == a[1..];
    }
  }

  /** Two arrangements without repeats of the same items. */
  lemma SameSetSameItems<T>(a: seq<T>, b: seq<T>)
    requires NoRepeats(a) && NoRepeats(b) && forall x :: x in a <==> x in b
    ensures multiset(a) == multiset(b)
  {
    forall x | x in multiset(a) || x in multiset(b)
      ensures multiset(a)[x] == multiset(b)[x]
    {
      OnceOnly(a, x);
      OnceOnly(b, x);
      assert x in a && x in b;
    }
    assert multiset(a) - multiset(b) == multiset{} && multiset(b) - multiset(a) == multiset{};
  }

  // ---------------------------------------------------------------- one name for each item

  lemma GatherNext<A, B>(s: seq<A>, n: nat, f: A -> seq<B>)
    requires n < |s|
    ensures Gather(s[..n + 1], f) == Gather(s[..n], f) + f(s[n])
  {
    assert s[..n + 1] == s[..n] + [s[n]];
    GatherAppend(s[..n], [s[n]], f);
    GatherOne(s[n], f);
  }

  /** The place of an item's single name is the place of the item. */
  lemma {:induction false} NameAt<A, B>(s: seq<A>, f: A -> seq<B>, k: nat)
    requires k < |s| && forall x :: x in s ==> |f(x)| == 1
    ensures |Gather(s, f)| == |s| && Gather(s, f)[k] == f(s[k])[0]
  {
    if |s| > 1 {
      NameAt(s[1..], f, if k == 0 then 0 else k - 1);
    }
  }

  lemma GatherSingles<A, B>(s: seq<A>, f: A -> seq<B>)
    requires forall x :: x in s ==> |f(x)| == 1
    ensures |Gather(s, f)| == |s|
  {
    if s != [] {
      NameAt(s, f, 0);
    }
  }

  lemma SameNameSameItem<A, B>(s: seq<A>, f: A -> seq<B>, x: A, y: A)
    requires NoRepeats(Gather(s, f)) && x in s && y in s && f(x) == f(y)
    requires forall z :: z in s ==> |f(z)| == 1
    ensures x == y
  {
    var i :| 0 <= i < |s| && s[i] == x;
    var j :| 0 <= j < |s| && s[j] == y;
    NameAt(s, f, i);
    NameAt(s, f, j);
  }

  lemma NamedItemsDoNotRepeat<A, B>(s: seq<A>, f: A -> seq<B>)
    requires NoRepeats(Gather(s, f)) && forall z :: z in s ==> |f(z)| == 1
    ensures NoRepeats(s)
  {
    forall i, j | 0 <= i < j < |s|
      ensures s[i] != s[j]
    {
      NameAt(s, f, i);
      NameAt(s, f, j);
    }
  }

  lemma NamesAreUnordered<A, B>(a: seq<A>, b: seq<A>, f: A -> seq<B>)
    requires multiset(a) == multiset(b) && NoRepeats(Gather(a, f))
    ensures NoRepeats(Gather(b, f)) && forall x :: x in a <==> x in b
  {
    hide Gather;
    hide NoRepeats;
    SameItems(a, b);
    GatherSameItems(a, b, f);
    KeepsNoRepeats(Gather(a, f), Gather(b, f));
  }

  lemma EmptyGather<A, B>(s: seq<A>, f: A -> seq<B>)
    ensures Gather(s[..0], f) == [] && NoRepeats(Gather(s[..0], f))
  {
  }

  lemma AppendName<T>(names: seq<T>, n: T)
    ensures NoRepeats(names + [n]) <==> NoRepeats(names) && n !in names
  {
    if NoRepeats(names + [n]) {
      forall i, j | 0 <= i < j < |names|
        ensures names[i] != names[j]
      {
        assert (names + [n])[i] != (names + [n])[j];
      }
      forall i | 0 <= i < |names|
        ensures names[i] != n
      {
        assert (names + [n])[i] != (names + [n])[|names|];
      }
    }
  }

  lemma {:induction false} PrefixDoesNotRepeat<T>(names: seq<T>, more: seq<T>)
    requires NoRepeats(names + more)
    ensures NoRepeats(names)
  {
    forall i, j | 0 <= i < j < |names|
      ensures names[i] != names[j]
    {
      assert (names + more)[i] != (names + more)[j];
    }
  }

  /** A repeat among the first names is a repeat among all. */
  lemma RepeatSoFar<A, B>(s: seq<A>, n: nat, f: A -> seq<B>)
    requires n <= |s| && !NoRepeats(Gather(s[..n], f))
    ensures !NoRepeats(Gather(s, f))
  {
    assert s == s[..n] + s[n..];
    GatherAppend(s[..n], s[n..], f);
    if NoRepeats(Gather(s, f)) {
      PrefixDoesNotRepeat(Gather(s[..n], f), Gather(s[n..], f));
    }
  }

  /** Python's `len(values) == len(set(values))`. */
  predicate AllDifferent<T(==)>(names: seq<T>)
  {
    |set n | n in names| == |names|
  }

  /** The number of different names tells whether any repeats. */
  lemma {:induction false} DistinctByCount<T>(names: seq<T>)
    ensures |set n | n in names| <= |names|
    ensures AllDifferent(names) <==> NoRepeats(names)
  {
    if names != [] {
      var init, last := names[..|names| - 1], names[|names| - 1];
      assert names == init + [last];
      DistinctByCount(init);
      AppendName(init, last);
      assert (set n | n in names) == (set n | n in init) + {last};
    }
  }
}
