/** Stand-in for Go's `sort` package, and the order of strings. */
module Sorting {

  ghost predicate TotalPreorder<T(!new)>(leq: (T, T) -> bool) {
    && (forall a, b :: leq(a, b) || leq(b, a))
    && (forall a, b, c :: leq(a, b) && leq(b, c) ==> leq(a, c))
  }

  ghost predicate SortedBy<T>(leq: (T, T) -> bool, s: seq<T>) {
    forall i, j | 0 <= i < j < |s| :: leq(s[i], s[j])
  }

  /** Some permutation of `s` sorted by `leq`. What is proved of sorted data never depends on which one. */
  function Sort<T(!new)>(leq: (T, T) -> bool, s: seq<T>): (r: seq<T>)
    requires TotalPreorder(leq)
    ensures SortedBy(leq, r)
    ensures multiset(r) == multiset(s)
  {
    if s == [] then []
    else
      var k := |s| - 1;
      assert s == s[..k] + [s[k]];
      Insert(leq, Sort(leq, s[..k]), s[k])
  }

  function Insert<T(!new)>(leq: (T, T) -> bool, s: seq<T>, x: T): (r: seq<T>)
    requires TotalPreorder(leq) && SortedBy(leq, s)
    ensures SortedBy(leq, r)
    ensures multiset(r) == multiset(s) + multiset{x}
  {
    if s == [] then [x]
    else
      var k := |s| - 1;
      assert s == s[..k] + [s[k]];
      if leq(s[k], x) then s + [x]
      else
        var front := Insert(leq, s[..k], x);
        InsertBelow(leq, s[..k], x, front, s[k]);
        front + [s[k]]
  }

  lemma InsertBelow<T(!new)>(leq: (T, T) -> bool, s: seq<T>, x: T, r: seq<T>, top: T)
    requires multiset(r) == multiset(s) + multiset{x} && SortedBy(leq, r)
    requires leq(x, top) && forall i | 0 <= i < |s| :: leq(s[i], top)
    ensures SortedBy(leq, r + [top])
  {
    InsertMembers(s, x, r);
    forall i | 0 <= i < |r| ensures leq(r[i], top) {
      assert r[i] in s || r[i] == x;
    }
  }

  lemma InsertMembers<T>(s: seq<T>, x: T, r: seq<T>)
    requires multiset(r) == multiset(s) + multiset{x}
    ensures forall y | y in r :: y in s || y == x
  {
    forall y | y in r ensures y in s || y == x {
      assert y in multiset(r);
    }
  }

  // ----- Strings -----

  predicate StringLeq(a: string, b: string) {
    a == "" || (b != "" && (a[0] < b[0] || (a[0] == b[0] && StringLeq(a[1..], b[1..]))))
  }

  /** The first `n` characters agree, and then `a` ends or has the smaller character. */
  predicate LeqAt(a: string, b: string, n: nat) {
    n <= |a| && n <= |b| && a[..n] == b[..n] && (n == |a| || (n < |b| && a[n] < b[n]))
  }

  lemma {:induction false} StringLeqMeaning(a: string, b: string)
    ensures StringLeq(a, b) <==> exists n: nat :: LeqAt(a, b, n)
  {
    if a == "" {
      assert LeqAt(a, b, 0);
    } else if b != "" {
      StringLeqMeaning(a[1..], b[1..]);
      if n: nat :| LeqAt(a, b, n) && a[0] == b[0] {
        assert n > 0;
        assert a[1..][..n - 1] == a[..n][1..] && b[1..][..n - 1] == b[..n][1..];
        assert LeqAt(a[1..], b[1..], n - 1);
      }
      if n: nat :| LeqAt(a[1..], b[1..], n) && a[0] == b[0] {
        assert a[..n + 1] == [a[0]] + a[1..][..n] && b[..n + 1] == [b[0]] + b[1..][..n];
        assert LeqAt(a, b, n + 1);
      }
      if a[0] < b[0] {
        assert LeqAt(a, b, 0);
      }
      if n: nat :| LeqAt(a, b, n) && a[0] != b[0] {
        assert n > 0 ==> a[..n][0] == b[..n][0];
      }
    }
  }

  lemma {:induction false} StringLeqTotal(a: string, b: string)
    ensures StringLeq(a, b) || StringLeq(b, a)
  {
    if a != "" && b != "" && a[0] == b[0] {
      StringLeqTotal(a[1..], b[1..]);
    }
  }

  lemma {:induction false} StringLeqTransitive(a: string, b: string, c: string)
    requires StringLeq(a, b) && StringLeq(b, c)
    ensures StringLeq(a, c)
  {
    if a != "" && a[0] == b[0] == c[0] {
      StringLeqTransitive(a[1..], b[1..], c[1..]);
    }
  }

  lemma {:induction false} StringLeqAntisymmetric(a: string, b: string)
    requires StringLeq(a, b) && StringLeq(b, a)
    ensures a == b
  {
    if a != "" {
      StringLeqAntisymmetric(a[1..], b[1..]);
      assert a == [a[0]] + a[1..] && b == [b[0]] + b[1..];
    }
  }

  lemma StringsAreOrdered()
    ensures TotalPreorder(StringLeq)
  {
    forall a, b ensures StringLeq(a, b) || StringLeq(b, a) {
      StringLeqTotal(a, b);
    }
    forall a, b, c | StringLeq(a, b) && StringLeq(b, c) ensures StringLeq(a, c) {
      StringLeqTransitive(a, b, c);
    }
  }

  function SortStrings(s: seq<string>): (r: seq<string>)
    ensures SortedBy(StringLeq, r)
    ensures multiset(r) == multiset(s)
  {
    StringsAreOrdered();
    Sort(StringLeq, s)
  }

  // ----- Permutations and duplicates -----

  predicate NoDuplicates<T(==)>(s: seq<T>) {
    forall i, j | 0 <= i < j < |s| :: s[i] != s[j]
  }

  lemma MultisetSnoc<T>(s: seq<T>, x: T, y: T)
    ensures multiset(s + [x])[y] == multiset(s)[y] + if x == y then 1 else 0
  {
  }

  lemma {:induction false} NoDuplicatesCount<T>(s: seq<T>, x: T)
    requires NoDuplicates(s)
    ensures multiset(s)[x] <= 1
  {
    if s != [] {
      var k := |s| - 1;
      NoDuplicatesCount(s[..k], x);
      assert s == s[..k] + [s[k]];
      if x == s[k] {
        assert x !in s[..k];
      }
    }
  }

  lemma DuplicateCount<T>(s: seq<T>, i: int, j: int)
    requires 0 <= i < j < |s| && s[i] == s[j]
    ensures multiset(s)[s[i]] >= 2
  {
    assert s == s[..j] + s[j..];
    assert s[..j][i] == s[i] && s[j..][0] == s[i];
    assert multiset(s) == multiset(s[..j]) + multiset(s[j..]);
    assert s[i] in multiset(s[..j]) && s[i] in multiset(s[j..]);
  }

  lemma PermutationNoDuplicates<T>(a: seq<T>, b: seq<T>)
    requires multiset(a) == multiset(b) && NoDuplicates(a)
    ensures NoDuplicates(b)
  {
    forall i, j | 0 <= i < j < |b| ensures b[i] != b[j] {
      if b[i] == b[j] {
        DuplicateCount(b, i, j);
        NoDuplicatesCount(a, b[i]);
      }
    }
  }

  lemma PermutationMembers<T>(a: seq<T>, b: seq<T>, x: T)
    requires multiset(a) == multiset(b)
    ensures x in a <==> x in b
  {
    assert x in multiset(a) <==> x in a;
    assert x in multiset(b) <==> x in b;
  }

  /** `for k := range m`, in whatever order the map gives its keys. */
  method KeyList<V>(m: map<string, V>) returns (keys: seq<string>)
    ensures NoDuplicates(keys)
    ensures forall k :: k in keys <==> k in m
  {
    keys := [];
    var rest := m.Keys;
    while rest != {}
      invariant NoDuplicates(keys) && rest <= m.Keys
      invariant forall k :: k in keys <==> k in m.Keys - rest
      decreases rest
    {
      var k :| k in rest;
      assert k !in keys;
      keys := keys + [k];
      rest := rest - {k};
    }
  }
}
