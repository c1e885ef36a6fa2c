/**
  The string order shared by Python's `sorted` on `str` and by SQLite's
  BINARY collation on UTF-8 text: lexicographic by code point. And a stable
  insertion sort by a string key, ascending or descending, standing for
  Python's `sorted`/`list.sort(key=...)` and for SQL `ORDER BY`.
*/
module Ordering {

  /** Strict lexicographic order by code point; a proper prefix comes first. */
  predicate Less(a: string, b: string)
    decreases |a|
  {
    if a == [] then b != []
    else if b == [] then false
    else if a[0] != b[0] then a[0] < b[0]
    else Less(a[1..], b[1..])
  }

  predicate LessEq(a: string, b: string) { a == b || Less(a, b) }

  lemma {:induction false} LessIrreflexive(a: string)
    ensures !Less(a, a)
    decreases |a|
  {
    if a != [] { LessIrreflexive(a[1..]); }
  }

  lemma {:induction false} LessTransitive(a: string, b: string, c: string)
    requires Less(a, b) && Less(b, c)
    ensures Less(a, c)
    decreases |a|
  {
    if a != [] && a[0] == b[0] && b[0] == c[0] {
      LessTransitive(a[1..], b[1..], c[1..]);
    }
  }

  lemma {:induction false} LessTotal(a: string, b: string)
    ensures a == b || Less(a, b) || Less(b, a)
    decreases |a|
  {
    if a != [] && b != [] && a[0] == b[0] {
      LessTotal(a[1..], b[1..]);
      if a[1..] == b[1..] {
        assert a == [a[0]] + a[1..] && b == [b[0]] + b[1..];
      }
    }
  }

  lemma {:induction false} LessAsymmetric(a: string, b: string)
    requires Less(a, b)
    ensures !Less(b, a)
    decreases |a|
  {
    if a != [] && a[0] == b[0] { LessAsymmetric(a[1..], b[1..]); }
  }

  /** `LessEq` is a total order: reflexive, antisymmetric, transitive, total. */
  lemma LessEqTotalOrder(a: string, b: string, c: string)
    ensures LessEq(a, a)
    ensures LessEq(a, b) && LessEq(b, a) ==> a == b
    ensures LessEq(a, b) && LessEq(b, c) ==> LessEq(a, c)
    ensures LessEq(a, b) || LessEq(b, a)
  {
    LessTotal(a, b);
    if LessEq(a, b) && LessEq(b, a) && a != b { LessAsymmetric(a, b); }
    if Less(a, b) && Less(b, c) { LessTransitive(a, b, c); }
  }

  /** The comparison a sort uses: ascending `LessEq`, or its converse. */
  predicate KeyLe(desc: bool, a: string, b: string) {
    if desc then LessEq(b, a) else LessEq(a, b)
  }

  lemma KeyLeTotal(desc: bool, a: string, b: string)
    ensures KeyLe(desc, a, b) || KeyLe(desc, b, a)
  {
    LessEqTotalOrder(a, b, a);
  }

  lemma KeyLeTransitive(desc: bool, a: string, b: string, c: string)
    requires KeyLe(desc, a, b) && KeyLe(desc, b, c)
    ensures KeyLe(desc, a, c)
  {
    if desc { LessEqTotalOrder(c, b, a); } else { LessEqTotalOrder(a, b, c); }
  }

  /** `s` is ordered by `key`: ascending, or descending when `desc`. */
  predicate SortedBy<T>(s: seq<T>, key: T -> string, desc: bool) {
    forall i, j :: 0 <= i < j < |s| ==> KeyLe(desc, key(s[i]), key(s[j]))
  }

  /** Inserts `x` before the first element it may precede; elements with an
      equal key stay in front of it only if they were already there. */
  function InsertBy<T>(x: T, s: seq<T>, key: T -> string, desc: bool): (r: seq<T>)
    ensures |r| == |s| + 1
    ensures multiset(r) == multiset(s) + multiset{x}
  {
    if s == [] then [x]
    else if KeyLe(desc, key(x), key(s[0])) then [x] + s
    else
      assert s == [s[0]] + s[1..];
      [s[0]] + InsertBy(x, s[1..], key, desc)
  }

  /** Stable insertion sort of `s` by `key`. */
  function SortBy<T>(s: seq<T>, key: T -> string, desc: bool): (r: seq<T>)
    ensures |r| == |s|
    ensures multiset(r) == multiset(s)
  {
    if s == [] then []
    else
      assert s == [s[0]] + s[1..];
      InsertBy(s[0], SortBy(s[1..], key, desc), key, desc)
  }

  /** A sorted sequence stays sorted with a bound of all its keys in front. */
  lemma ConsSorted<T>(y: T, t: seq<T>, key: T -> string, desc: bool)
    requires SortedBy(t, key, desc)
    requires forall k :: 0 <= k < |t| ==> KeyLe(desc, key(y), key(t[k]))
    ensures SortedBy([y] + t, key, desc)
  {
    var r := [y] + t;
    forall i, j | 0 <= i < j < |r| ensures KeyLe(desc, key(r[i]), key(r[j])) {
      if i > 0 { assert r[i] == t[i - 1] && r[j] == t[j - 1]; }
    }
  }

  /** A bound of `x` and of every element of `s` bounds every element of the insertion. */
  lemma InsertByBound<T>(x: T, s: seq<T>, key: T -> string, desc: bool, b: string)
    requires KeyLe(desc, b, key(x))
    requires forall k :: 0 <= k < |s| ==> KeyLe(desc, b, key(s[k]))
    ensures forall k :: 0 <= k < |s| + 1 ==> KeyLe(desc, b, key(InsertBy(x, s, key, desc)[k]))
  {
    var r := InsertBy(x, s, key, desc);
    forall k | 0 <= k < |r| ensures KeyLe(desc, b, key(r[k])) {
      assert r[k] in multiset(r);
      if r[k] != x {
        assert r[k] in multiset(s);
        var m :| 0 <= m < |s| && s[m] == r[k];
      }
    }
  }

  lemma {:induction false} InsertBySorted<T>(x: T, s: seq<T>, key: T -> string, desc: bool)
    requires SortedBy(s, key, desc)
    ensures SortedBy(InsertBy(x, s, key, desc), key, desc)
  {
    if s == [] {
    } else if KeyLe(desc, key(x), key(s[0])) {
      forall k | 0 <= k < |s| ensures KeyLe(desc, key(x), key(s[k])) {
        if k > 0 { KeyLeTransitive(desc, key(x), key(s[0]), key(s[k])); }
      }
      ConsSorted(x, s, key, desc);
    } else {
      KeyLeTotal(desc, key(x), key(s[0]));
      InsertBySorted(x, s[1..], key, desc);
      InsertByBound(x, s[1..], key, desc, key(s[0]));
      ConsSorted(s[0], InsertBy(x, s[1..], key, desc), key, desc);
    }
  }

  /** `SortBy` orders its result by the key; with its own ensures it is a
      sorted permutation of the input. */
  lemma {:induction false} SortBySorted<T>(s: seq<T>, key: T -> string, desc: bool)
    ensures SortedBy(SortBy(s, key, desc), key, desc)
  {
    if s != [] {
      SortBySorted(s[1..], key, desc);
      InsertBySorted(s[0], SortBy(s[1..], key, desc), key, desc);
    }
  }

  /** The elements of `s` whose key is `k`, in their order in `s`. */
  function WithKey<T>(s: seq<T>, key: T -> string, k: string): (r: seq<T>)
    ensures forall i :: 0 <= i < |r| ==> key(r[i]) == k
  {
    if s == [] then []
    else (if key(s[0]) == k then [s[0]] else []) + WithKey(s[1..], key, k)
  }

  lemma WithKeyCons<T>(a: T, t: seq<T>, key: T -> string, k: string)
    ensures WithKey([a] + t, key, k) == (if key(a) == k then [a] else []) + WithKey(t, key, k)
  {
    assert ([a] + t)[0] == a && ([a] + t)[1..] == t;
  }

  lemma {:induction false} InsertByStable<T>(x: T, s: seq<T>, key: T -> string, desc: bool, k: string)
    ensures WithKey(InsertBy(x, s, key, desc), key, k)
         == (if key(x) == k then [x] else []) + WithKey(s, key, k)
  {
    if s == [] {
      WithKeyCons(x, [], key, k);
    } else if KeyLe(desc, key(x), key(s[0])) {
      WithKeyCons(x, s, key, k);
    } else {
      assert key(s[0]) != key(x) by { LessEqTotalOrder(key(s[0]), key(x), key(x)); }
      var t := InsertBy(x, s[1..], key, desc);
      InsertByStable(x, s[1..], key, desc, k);
      WithKeyCons(s[0], t, key, k);
      WithKeyCons(s[0], s[1..], key, k);
      assert s == [s[0]] + s[1..];
    }
  }

  /** Stability: among elements with the same key, the sort keeps their
      original relative order. */
  lemma {:induction false} SortByStable<T>(s: seq<T>, key: T -> string, desc: bool, k: string)
    ensures WithKey(SortBy(s, key, desc), key, k) == WithKey(s, key, k)
  {
    if s != [] {
      SortByStable(s[1..], key, desc, k);
      InsertByStable(s[0], SortBy(s[1..], key, desc), key, desc, k);
    }
  }

  function Identity(x: string): string { x }

  /** Python's `sorted(strings)`: ascending, duplicates kept. */
  function SortStrings(s: seq<string>): (r: seq<string>)
    ensures multiset(r) == multiset(s)
  {
    SortBy(s, Identity, false)
  }

  predicate Ascending(s: seq<string>) {
    forall i, j :: 0 <= i < j < |s| ==> LessEq(s[i], s[j])
  }

  /** `sorted` returns an ascending permutation of its argument, repeated
      elements included. */
  lemma SortStringsSpec(s: seq<string>)
    ensures Ascending(SortStrings(s)) && multiset(SortStrings(s)) == multiset(s)
    ensures |SortStrings(s)| == |s|
  {
    SortBySorted(s, Identity, false);
    var r := SortStrings(s);
    assert forall i, j :: 0 <= i < j < |r| ==> KeyLe(false, Identity(r[i]), Identity(r[j]));
  }
}
