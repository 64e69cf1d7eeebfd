/** `Array.prototype.sort` with a consistent comparator, as the options page
    uses it: every comparator there is equivalent to comparing a `SortKey`
    (a rank, then a name in code-unit order). The sort is an insertion sort
    over those keys; which algorithm the host runs is not observable for a
    consistent comparator. */
module Sorting {
  import opened Text

  datatype SortKey = SortKey(rank: nat, name: string)

  /** `a` strictly before `b`: lower rank, or equal rank and a smaller name. */
  predicate KeyLt(a: SortKey, b: SortKey) {
    a.rank < b.rank || (a.rank == b.rank && StrLt(a.name, b.name))
  }

  lemma KeyLtAsymmetric(a: SortKey, b: SortKey)
    requires KeyLt(a, b)
    ensures !KeyLt(b, a)
  {
    if a.rank == b.rank {
      StrLtAsymmetric(a.name, b.name);
    }
  }

  /** `a` not after `b` and `b` not after `c`: then `a` is not after `c`. */
  lemma KeyLeTransitive(a: SortKey, b: SortKey, c: SortKey)
    requires !KeyLt(b, a) && !KeyLt(c, b)
    ensures !KeyLt(c, a)
  {
    if a.rank == c.rank && a.name != b.name && b.name != c.name {
      StrLtConnected(a.name, b.name);
      StrLtConnected(b.name, c.name);
      StrLtTransitive(a.name, b.name, c.name);
      StrLtAsymmetric(a.name, c.name);
    }
  }

  /** No element is before one that precedes it. */
  predicate SortedBy<T>(s: seq<T>, key: T -> SortKey) {
    forall i, j :: 0 <= i < j < |s| ==> !KeyLt(key(s[j]), key(s[i]))
  }

  /** No element of `s` is after `x`. */
  predicate AllAtMost<T>(s: seq<T>, x: SortKey, key: T -> SortKey) {
    forall i :: 0 <= i < |s| ==> !KeyLt(x, key(s[i]))
  }

  /** The elements of `s` in key order, each placed after the ones with an
      equal key that came before it in `s`. */
  function SortBy<T>(s: seq<T>, key: T -> SortKey): (r: seq<T>)
    ensures SortedBy(r, key)
    ensures multiset(r) == multiset(s) && |r| == |s|
  {
    if s == [] then []
    else
      var sorted := SortBy(s[..|s| - 1], key);
      assert s == s[..|s| - 1] + [s[|s| - 1]];
      InsertLastSorted(s[|s| - 1], sorted, key);
      InsertLast(s[|s| - 1], sorted, key)
  }

  /** The elements of `s` whose key is `k`, in their order in `s`. */
  function WithKey<T>(s: seq<T>, key: T -> SortKey, k: SortKey): seq<T> {
    if s == [] then []
    else WithKey(s[..|s| - 1], key, k) + (if key(s[|s| - 1]) == k then [s[|s| - 1]] else [])
  }

  /** The sort is stable: elements with equal keys keep their relative order. */
  lemma {:induction false} SortByStable<T>(s: seq<T>, key: T -> SortKey, k: SortKey)
    ensures WithKey(SortBy(s, key), key, k) == WithKey(s, key, k)
  {
    if s != [] {
      var init, x := s[..|s| - 1], s[|s| - 1];
      SortByStable(init, key, k);
      InsertLastWithKey(x, SortBy(init, key), key, k);
    }
  }

  /** Inserting `x` adds it after every element with its key. */
  lemma {:induction false} InsertLastWithKey<T>(x: T, s: seq<T>, key: T -> SortKey, k: SortKey)
    ensures WithKey(InsertLast(x, s, key), key, k) == WithKey(s, key, k) + (if key(x) == k then [x] else [])
  {
    if s == [] {
      assert [x][..0] == [];
    } else if !KeyLt(key(x), key(s[|s| - 1])) {
      assert (s + [x])[..|s|] == s;
    } else {
      var init, last := s[..|s| - 1], s[|s| - 1];
      var rest := InsertLast(x, init, key);
      InsertLastWithKey(x, init, key, k);
      KeyLtAsymmetric(key(x), key(last));
      assert (rest + [last])[..|rest|] == rest;
    }
  }

  /** `x` put after the last element it is not before. */
  function InsertLast<T>(x: T, s: seq<T>, key: T -> SortKey): (r: seq<T>)
    ensures multiset(r) == multiset(s) + multiset{x} && |r| == |s| + 1
  {
    if s == [] then [x]
    else if !KeyLt(key(x), key(s[|s| - 1])) then s + [x]
    else
      assert s == s[..|s| - 1] + [s[|s| - 1]];
      InsertLast(x, s[..|s| - 1], key) + [s[|s| - 1]]
  }

  /** Inserting an element that is not after `b` among elements not after
      `b` gives elements not after `b`. */
  lemma {:induction false} InsertLastBounded<T>(x: T, s: seq<T>, key: T -> SortKey, b: SortKey)
    requires AllAtMost(s, b, key) && !KeyLt(b, key(x))
    ensures AllAtMost(InsertLast(x, s, key), b, key)
  {
    if s != [] && KeyLt(key(x), key(s[|s| - 1])) {
      InsertLastBounded(x, s[..|s| - 1], key, b);
    }
  }

  /** Insertion keeps a sorted sequence sorted. */
  lemma {:induction false} InsertLastSorted<T>(x: T, s: seq<T>, key: T -> SortKey)
    requires SortedBy(s, key)
    ensures SortedBy(InsertLast(x, s, key), key)
  {
    if s == [] {
    } else if !KeyLt(key(x), key(s[|s| - 1])) {
      var last := s[|s| - 1];
      forall j | 0 <= j < |s| ensures !KeyLt(key(x), key(s[j])) {
        if j < |s| - 1 { KeyLeTransitive(key(s[j]), key(last), key(x)); }
      }
    } else {
      var init := s[..|s| - 1];
      var last := s[|s| - 1];
      KeyLtAsymmetric(key(x), key(last));
      assert AllAtMost(init, key(last), key);
      InsertLastSorted(x, init, key);
      InsertLastBounded(x, init, key, key(last));
      var rest := InsertLast(x, init, key);
      var r := rest + [last];
      forall i, j | 0 <= i < j < |r| ensures !KeyLt(key(r[j]), key(r[i])) {
        if j < |rest| {
          assert r[i] == rest[i] && r[j] == rest[j];
        } else {
          assert r[i] == rest[i] && r[j] == last;
        }
      }
    }
  }
}
