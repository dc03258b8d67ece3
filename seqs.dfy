/** Small facts about sequences used as ordered collections: lists,
    insertion-ordered dictionaries and insertion-ordered hash sets. */
module Seqs {

  /** No element occurs twice. */
  predicate NoDuplicates<T(==)>(s: seq<T>)
  {
    forall i, j :: 0 <= i < j < |s| ==> s[i] != s[j]
  }

  /** The elements of `s` in the order of their first occurrence: the key order
      of a Dictionary or HashSet that is only ever added to. */
  function Dedup<T(==,!new)>(s: seq<T>): (r: seq<T>)
    ensures NoDuplicates(r)
    ensures forall x :: x in r <==> x in s
  {
    if s == [] then []
    else
      var d := Dedup(s[..|s| - 1]);
      if s[|s| - 1] in d then d else d + [s[|s| - 1]]
  }

  /** The list stored under `k`, or the empty list when `k` is not a key
      (the `TryGetValue` idiom). */
  function Lookup<K, V>(m: map<K, seq<V>>, k: K): seq<V>
  {
    if k in m then m[k] else []
  }

  /** The position of the first occurrence of `x`. */
  function IndexOf<T(==)>(s: seq<T>, x: T): (i: nat)
    requires x in s
    ensures i < |s| && s[i] == x && x !in s[..i]
  {
    if s[0] == x then 0 else 1 + IndexOf(s[1..], x)
  }

  /** In a list without repetitions, an element's first occurrence is its
      only one. */
  lemma IndexOfDistinct<T>(s: seq<T>, i: nat)
    requires NoDuplicates(s) && i < |s|
    ensures IndexOf(s, s[i]) == i
  {
  }

  /** `f` applied to every element, the results concatenated in order
      (LINQ's `SelectMany`). */
  function FlatMap<T, U>(f: T -> seq<U>, s: seq<T>): seq<U>
  {
    if s == [] then [] else f(s[0]) + FlatMap(f, s[1..])
  }

  /** Mapping distributes over concatenation. */
  lemma {:induction false} FlatMapConcat<T, U>(f: T -> seq<U>, a: seq<T>, b: seq<T>)
    ensures FlatMap(f, a + b) == FlatMap(f, a) + FlatMap(f, b)
  {
    if a == [] {
      assert a + b == b;
    } else {
      assert (a + b)[0] == a[0] && (a + b)[1..] == a[1..] + b;
      FlatMapConcat(f, a[1..], b);
    }
  }

  /** Every element of `f(x)` for some `x` of `s`, and nothing else. */
  lemma {:induction false} FlatMapMember<T, U>(f: T -> seq<U>, s: seq<T>, y: U)
    ensures y in FlatMap(f, s) <==> exists i :: 0 <= i < |s| && y in f(s[i])
  {
    if s != [] {
      FlatMapMember(f, s[1..], y);
      if y in FlatMap(f, s[1..]) {
        var i :| 0 <= i < |s[1..]| && y in f(s[1..][i]);
        assert s[i + 1] == s[1..][i];
      }
      if exists i :: 0 < i < |s| && y in f(s[i]) {
        var i :| 0 < i < |s| && y in f(s[i]);
        assert s[1..][i - 1] == s[i];
      }
    }
  }

  /** The elements of `s` that satisfy `p`, in order (LINQ's `Where`). */
  function Filter<T(!new)>(p: T -> bool, s: seq<T>): (r: seq<T>)
    ensures |r| <= |s|
    ensures forall x :: x in r <==> x in s && p(x)
  {
    if s == [] then []
    else
      var rest := Filter(p, s[..|s| - 1]);
      assert forall x :: x in s <==> x in s[..|s| - 1] || x == s[|s| - 1];
      if p(s[|s| - 1]) then rest + [s[|s| - 1]] else rest
  }

  /** Filtering distributes over concatenation, so it keeps the relative order. */
  lemma {:induction false} FilterConcat<T(!new)>(p: T -> bool, a: seq<T>, b: seq<T>)
    ensures Filter(p, a + b) == Filter(p, a) + Filter(p, b)
  {
    if b != [] {
      var c := a + b;
      assert c[..|c| - 1] == a + b[..|b| - 1];
      FilterConcat(p, a, b[..|b| - 1]);
    } else {
      assert a + b == a;
    }
  }

  /** `y` appended to `xs` unless it is already there (`HashSet.Add` and the
      key order of a Dictionary). */
  function AddIfAbsent<T(==)>(xs: seq<T>, y: T): seq<T>
  {
    if y in xs then xs else xs + [y]
  }

  /** The elements of `ys` added in order with `AddIfAbsent`. */
  function Extend<T(==)>(xs: seq<T>, ys: seq<T>): seq<T>
  {
    if ys == [] then xs else AddIfAbsent(Extend(xs, ys[..|ys| - 1]), ys[|ys| - 1])
  }

  /** Adding to a deduplicated list deduplicates the concatenation. */
  lemma {:induction false} ExtendDedup<T(!new)>(a: seq<T>, b: seq<T>)
    ensures Extend(Dedup(a), b) == Dedup(a + b)
  {
    if b != [] {
      var c := a + b;
      assert c[..|c| - 1] == a + b[..|b| - 1];
      ExtendDedup(a, b[..|b| - 1]);
    } else {
      assert a + b == a;
    }
  }

  /** Adding `a + b` is adding `a`, then `b`. */
  lemma {:induction false} ExtendConcat<T>(xs: seq<T>, a: seq<T>, b: seq<T>)
    ensures Extend(xs, a + b) == Extend(Extend(xs, a), b)
  {
    if b == [] {
      assert a + b == a;
    } else {
      var c := a + b;
      assert c[..|c| - 1] == a + b[..|b| - 1];
      ExtendConcat(xs, a, b[..|b| - 1]);
    }
  }
}
