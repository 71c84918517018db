/** Generic building blocks shared by the registry and the pages: an optional
    value (a TypeScript `T | undefined`), the order-preserving `filter` of
    JavaScript arrays, and keep-the-first de-duplication (a `Set` built from an
    array, or a "push unless already present" loop). */
module Collections {

  datatype Option<T> = None | Some(value: T)

  /** `s.filter(p)`: the elements of `s` that satisfy `p`, in their order. */
  function Filter<T>(s: seq<T>, p: T -> bool): (r: seq<T>)
    ensures |r| <= |s|
    ensures forall i :: 0 <= i < |r| ==> r[i] in s && p(r[i])
    ensures forall i :: 0 <= i < |s| && p(s[i]) ==> s[i] in r
    decreases |s|
  {
    if s == [] then []
    else Filter(s[..|s| - 1], p) + (if p(s[|s| - 1]) then [s[|s| - 1]] else [])
  }

  lemma FilterMembership<T>(s: seq<T>, p: T -> bool)
    ensures forall x :: x in Filter(s, p) <==> x in s && p(x)
  {
  }

  /** Filtering distributes over concatenation: this is what "keeps the
      original order" means for `filter`. */
  lemma {:induction false} FilterConcat<T>(a: seq<T>, b: seq<T>, p: T -> bool)
    ensures Filter(a + b, p) == Filter(a, p) + Filter(b, p)
    decreases |b|
  {
    if b == [] {
      assert a + b == a;
    } else {
      var b' := b[..|b| - 1];
      assert (a + b)[..|a + b| - 1] == a + b';
      assert (a + b)[|a + b| - 1] == b[|b| - 1];
      FilterConcat(a, b', p);
    }
  }

  /** Filters whose tests agree on every element of `s` select the same
      elements. */
  lemma {:induction false} FilterExtensional<T>(s: seq<T>, p: T -> bool, q: T -> bool)
    requires forall i :: 0 <= i < |s| ==> p(s[i]) == q(s[i])
    ensures Filter(s, p) == Filter(s, q)
    decreases |s|
  {
    if s != [] {
      FilterExtensional(s[..|s| - 1], p, q);
    }
  }

  /** A filter that every element passes returns the sequence unchanged. */
  lemma {:induction false} FilterKeepsAll<T>(s: seq<T>, p: T -> bool)
    requires forall i :: 0 <= i < |s| ==> p(s[i])
    ensures Filter(s, p) == s
    decreases |s|
  {
    if s != [] {
      FilterKeepsAll(s[..|s| - 1], p);
      assert s[..|s| - 1] + [s[|s| - 1]] == s;
    }
  }

  /** A filter that no element passes returns nothing. */
  lemma FilterDropsAll<T>(s: seq<T>, p: T -> bool)
    requires forall i :: 0 <= i < |s| ==> !p(s[i])
    ensures Filter(s, p) == []
  {
  }

  /** Filtering a sequence whose first part fails and whose second part
      passes yields the second part. */
  lemma FilterSplit<T>(a: seq<T>, b: seq<T>, p: T -> bool)
    requires forall i :: 0 <= i < |a| ==> !p(a[i])
    requires forall i :: 0 <= i < |b| ==> p(b[i])
    ensures Filter(a + b, p) == b
  {
    FilterConcat(a, b, p);
    FilterDropsAll(a, p);
    FilterKeepsAll(b, p);
  }

  /** No two elements of `s` share a key. */
  ghost predicate DistinctKeys<T, K>(s: seq<T>, key: T -> K) {
    forall i, j :: 0 <= i < j < |s| ==> key(s[i]) != key(s[j])
  }

  /** A filter of a sequence whose keys are pairwise distinct has pairwise
      distinct keys. */
  lemma {:induction false} FilterKeepsDistinctKeys<T, K>(s: seq<T>, p: T -> bool, key: T -> K)
    requires DistinctKeys(s, key)
    ensures DistinctKeys(Filter(s, p), key)
    decreases |s|
  {
    if s != [] {
      var init := s[..|s| - 1];
      var last := s[|s| - 1];
      FilterKeepsDistinctKeys(init, p, key);
      var f := Filter(init, p);
      forall i | 0 <= i < |f| ensures key(f[i]) != key(last) {
        var k :| 0 <= k < |init| && init[k] == f[i];
      }
      if p(last) {
        var r := f + [last];
        forall i, j | 0 <= i < j < |r| ensures key(r[i]) != key(r[j]) {
          assert r[i] == f[i];
          if j < |f| {
            assert r[j] == f[j];
          } else {
            assert r[j] == last;
          }
        }
        assert Filter(s, p) == r;
      } else {
        assert Filter(s, p) == f;
      }
    }
  }

  /** Some element of `d` has key `k`. */
  predicate HasKey<T(==), K(==)>(d: seq<T>, k: K, key: T -> K) {
    exists y :: y in d && key(y) == k
  }

  /** Walks `s` from the front and appends an element only when no element
      with the same key was appended before: the first occurrence of each key
      survives, in encounter order. */
  function DistinctBy<T(==), K(==)>(s: seq<T>, key: T -> K): (r: seq<T>)
    ensures |r| <= |s|
    ensures forall x :: x in r ==> x in s
    ensures forall i, j :: 0 <= i < j < |r| ==> key(r[i]) != key(r[j])
    ensures forall x :: x in s ==> HasKey(r, key(x), key)
    decreases |s|
  {
    if s == [] then []
    else
      var d := DistinctBy(s[..|s| - 1], key);
      var last := s[|s| - 1];
      if HasKey(d, key(last), key) then d else d + [last]
  }

  /** Elements are only ever appended: the result for a prefix of `s` is a
      prefix of the result for `s`, so the output keeps encounter order. */
  lemma {:induction false} DistinctByPrefix<T, K>(s: seq<T>, n: nat, key: T -> K)
    requires n <= |s|
    ensures DistinctBy(s[..n], key) <= DistinctBy(s, key)
    decreases |s| - n
  {
    if n < |s| {
      DistinctByPrefix(s, n + 1, key);
      DistinctByStep(s[..n + 1], key);
      assert s[..n + 1][..n] == s[..n];
    } else {
      assert s[..n] == s;
    }
  }

  /** One more element leaves the earlier result as a prefix. */
  lemma DistinctByStep<T, K>(s: seq<T>, key: T -> K)
    requires s != []
    ensures DistinctBy(s[..|s| - 1], key) <= DistinctBy(s, key)
  {
  }

  /** When no key repeats, de-duplication changes nothing. */
  lemma {:induction false} DistinctByUniqueKeys<T, K>(s: seq<T>, key: T -> K)
    requires forall i, j :: 0 <= i < j < |s| ==> key(s[i]) != key(s[j])
    ensures DistinctBy(s, key) == s
    decreases |s|
  {
    if s != [] {
      var s' := s[..|s| - 1];
      DistinctByUniqueKeys(s', key);
      assert forall i :: 0 <= i < |s'| ==> key(s'[i]) != key(s[|s| - 1]);
      assert !HasKey(s', key(s[|s| - 1]), key);
      assert s' + [s[|s| - 1]] == s;
    }
  }

  function Identity<T>(x: T): T { x }

  /** `[...new Set(s)]`: the distinct values of `s` in first-occurrence order. */
  function Distinct<T(==)>(s: seq<T>): (r: seq<T>)
    ensures forall i :: 0 <= i < |r| ==> r[i] in s
    ensures forall i :: 0 <= i < |s| ==> s[i] in r
    ensures forall i, j :: 0 <= i < j < |r| ==> r[i] != r[j]
  {
    var d := DistinctBy(s, Identity);
    assert forall x :: x in s ==> x in d by {
      forall x | x in s ensures x in d {
        assert HasKey(d, Identity(x), Identity);
      }
    }
    d
  }

  /** The distinct values of a prefix come first, in the same order: each
      value is listed where it first occurs. */
  lemma DistinctPrefix<T>(s: seq<T>, n: nat)
    requires n <= |s|
    ensures Distinct(s[..n]) <= Distinct(s)
  {
    DistinctByPrefix(s, n, Identity);
  }
}
