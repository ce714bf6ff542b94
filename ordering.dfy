/**
 * The two sorts both tools rely on. `list.sort(key=...)` on an integer key is
 * a stable sort: it orders by key and keeps equal keys in their original
 * order. `sorted()` on a list of names orders the strings as Python compares
 * them. Both are library calls without a loop of their own in the tools, so
 * they are modelled as (insertion-sort) functions whose contracts and lemmas
 * state what a stable sort promises.
 */
module Ordering {
  import opened Text

  /** Non-decreasing by `key`. */
  predicate SortedBy<T>(s: seq<T>, key: T -> int)
  {
    forall i, j :: 0 <= i < j < |s| ==> key(s[i]) <= key(s[j])
  }

  /** The elements of `s` whose key is `k`, in their order in `s`. */
  function KeyClass<T>(s: seq<T>, key: T -> int, k: int): seq<T>
  {
    if s == [] then []
    else (if key(s[0]) == k then [s[0]] else []) + KeyClass(s[1..], key, k)
  }

  /** Elements with equal keys appear in increasing `rank`. */
  predicate RankedWithinKeys<T>(s: seq<T>, key: T -> int, rank: T -> int)
  {
    forall i, j :: 0 <= i < j < |s| && key(s[i]) == key(s[j]) ==> rank(s[i]) < rank(s[j])
  }

  /** `x` placed before the first element of `t` whose key is not smaller. */
  function InsertBy<T(==)>(x: T, t: seq<T>, key: T -> int): (r: seq<T>)
    ensures multiset(r) == multiset(t) + multiset{x}
    ensures |r| == |t| + 1
  {
    if t == [] || key(x) <= key(t[0]) then [x] + t
    else
      assert t == [t[0]] + t[1..];
      [t[0]] + InsertBy(x, t[1..], key)
  }

  /** Where an element of InsertBy's result comes from: `x` (-1) or `u[m]`. */
  lemma InsertByOrigin<T>(x: T, u: seq<T>, key: T -> int, j: int) returns (m: int)
    requires 0 <= j < |u| + 1
    ensures -1 <= m < |u|
    ensures m == -1 ==> InsertBy(x, u, key)[j] == x
    ensures m >= 0 ==> InsertBy(x, u, key)[j] == u[m]
  {
    var y := InsertBy(x, u, key)[j];
    assert y in multiset(InsertBy(x, u, key));
    if y == x {
      m := -1;
    } else {
      assert y in multiset(u);
      m :| 0 <= m < |u| && u[m] == y;
    }
  }

  /** Inserting into a sorted sequence keeps it sorted. */
  lemma {:induction false} InsertBySorted<T>(x: T, t: seq<T>, key: T -> int)
    requires SortedBy(t, key)
    ensures SortedBy(InsertBy(x, t, key), key)
  {
    if t == [] || key(x) <= key(t[0]) {
      forall j | 0 <= j < |t|
        ensures key(x) <= key(t[j])
      {
        assert key(t[0]) <= key(t[j]);
      }
      SortedCons(x, t, key);
    } else {
      var r' := InsertBy(x, t[1..], key);
      assert SortedBy(t[1..], key) by {
        forall i, j | 0 <= i < j < |t[1..]|
          ensures key(t[1..][i]) <= key(t[1..][j])
        {
          assert t[1..][i] == t[i + 1] && t[1..][j] == t[j + 1];
        }
      }
      InsertBySorted(x, t[1..], key);
      assert InsertBy(x, t, key) == [t[0]] + r';
      forall j | 0 <= j < |r'|
        ensures key(t[0]) <= key(r'[j])
      {
        var m := InsertByOrigin(x, t[1..], key, j);
        if m >= 0 {
          assert t[1..][m] == t[1 + m];
        }
      }
      SortedCons(t[0], r', key);
    }
  }

  /** `[y] + u` is sorted when `u` is and `y`'s key is at most every key in `u`. */
  lemma SortedCons<T>(y: T, u: seq<T>, key: T -> int)
    requires SortedBy(u, key)
    requires forall j :: 0 <= j < |u| ==> key(y) <= key(u[j])
    ensures SortedBy([y] + u, key)
  {
    var r := [y] + u;
    forall i, j | 0 <= i < j < |r|
      ensures key(r[i]) <= key(r[j])
    {
      assert r[j] == u[j - 1];
      if 0 < i {
        assert r[i] == u[i - 1];
      }
    }
  }

  /** Stable sort of `s` by `key`: sorted, and a permutation of `s`. */
  function SortBy<T(==)>(s: seq<T>, key: T -> int): (r: seq<T>)
    ensures SortedBy(r, key)
    ensures multiset(r) == multiset(s)
    ensures |r| == |s|
  {
    if s == [] then []
    else
      assert s == [s[0]] + s[1..];
      InsertBySorted(s[0], SortBy(s[1..], key), key);
      InsertBy(s[0], SortBy(s[1..], key), key)
  }

  lemma {:induction false} KeyClassAppend<T>(a: seq<T>, b: seq<T>, key: T -> int, k: int)
    ensures KeyClass(a + b, key, k) == KeyClass(a, key, k) + KeyClass(b, key, k)
  {
    if a == [] {
      assert a + b == b;
    } else {
      var ab := a + b;
      assert ab[0] == a[0];
      assert ab[1..] == a[1..] + b;
      KeyClassAppend(a[1..], b, key, k);
      var head := if key(a[0]) == k then [a[0]] else [];
      calc {
        KeyClass(ab, key, k);
        head + KeyClass(a[1..] + b, key, k);
        head + (KeyClass(a[1..], key, k) + KeyClass(b, key, k));
        (head + KeyClass(a[1..], key, k)) + KeyClass(b, key, k);
      }
    }
  }

  /** The key class of `[y] + u`: `y` itself when its key is `k`, then the class of `u`. */
  lemma KeyClassCons<T>(y: T, u: seq<T>, key: T -> int, k: int)
    ensures KeyClass([y] + u, key, k) == (if key(y) == k then [y] else []) + KeyClass(u, key, k)
  {
    assert ([y] + u)[1..] == u;
  }

  lemma {:induction false} InsertByKeepsClasses<T>(x: T, t: seq<T>, key: T -> int, k: int)
    ensures KeyClass(InsertBy(x, t, key), key, k) == KeyClass([x] + t, key, k)
  {
    if t != [] && key(x) > key(t[0]) {
      var rest := t[1..];
      var inserted := InsertBy(x, rest, key);
      assert t == [t[0]] + rest;
      assert InsertBy(x, t, key) == [t[0]] + inserted;
      InsertByKeepsClasses(x, rest, key, k);
      var cx := if key(x) == k then [x] else [];
      var c0 := if key(t[0]) == k then [t[0]] else [];
      var tail := KeyClass(rest, key, k);
      KeyClassCons(t[0], inserted, key, k);
      KeyClassCons(x, rest, key, k);
      KeyClassCons(t[0], rest, key, k);
      KeyClassCons(x, t, key, k);
      // x and t[0] have different keys, so at most one of them is in class k
      if key(x) == k {
        assert c0 == [];
        assert c0 + (cx + tail) == cx + tail;
        assert c0 + tail == tail;
      } else {
        assert cx == [];
        assert cx + (c0 + tail) == c0 + tail;
        assert cx + tail == tail;
      }
    }
  }

  /**
   * Stability: for every key, SortBy keeps the elements with that key in
   * exactly the order they had. With SortedBy, this determines the result.
   */
  lemma {:induction false} SortByIsStable<T>(s: seq<T>, key: T -> int, k: int)
    ensures KeyClass(SortBy(s, key), key, k) == KeyClass(s, key, k)
  {
    if s != [] {
      var rest := s[1..];
      var sorted := SortBy(rest, key);
      assert SortBy(s, key) == InsertBy(s[0], sorted, key);
      SortByIsStable(rest, key, k);
      assert s == [s[0]] + rest;
      calc {
        KeyClass(SortBy(s, key), key, k);
        { InsertByKeepsClasses(s[0], sorted, key, k); }
        KeyClass([s[0]] + sorted, key, k);
        { KeyClassAppend([s[0]], sorted, key, k); }
        KeyClass([s[0]], key, k) + KeyClass(sorted, key, k);
        KeyClass([s[0]], key, k) + KeyClass(rest, key, k);
        { KeyClassAppend([s[0]], rest, key, k); }
        KeyClass(s, key, k);
      }
    }
  }

  lemma {:induction false} InsertByRanked<T>(x: T, t: seq<T>, key: T -> int, rank: T -> int)
    requires SortedBy(t, key) && RankedWithinKeys(t, key, rank)
    requires forall y :: y in t ==> rank(x) < rank(y)
    ensures RankedWithinKeys(InsertBy(x, t, key), key, rank)
  {
    if t == [] || key(x) <= key(t[0]) {
      RankedCons(x, t, key, rank);
    } else {
      InsertByRanked(x, t[1..], key, rank);
      RankedBehind(x, t, key, rank);
    }
  }

  /** The case of InsertByRanked where `x` goes behind `t[0]`. */
  lemma RankedBehind<T>(x: T, t: seq<T>, key: T -> int, rank: T -> int)
    requires t != [] && key(x) > key(t[0]) && RankedWithinKeys(t, key, rank)
    requires RankedWithinKeys(InsertBy(x, t[1..], key), key, rank)
    ensures RankedWithinKeys(InsertBy(x, t, key), key, rank)
  {
    var r' := InsertBy(x, t[1..], key);
    assert InsertBy(x, t, key) == [t[0]] + r';
    forall j | 0 <= j < |r'| && key(t[0]) == key(r'[j])
      ensures rank(t[0]) < rank(r'[j])
    {
      HeadRankedBefore(x, t, key, rank, j);
    }
    RankedCons(t[0], r', key, rank);
  }

  /** `[y] + u` is ranked within keys when `u` is and `y` ranks before its equal keys. */
  lemma RankedCons<T>(y: T, u: seq<T>, key: T -> int, rank: T -> int)
    requires RankedWithinKeys(u, key, rank)
    requires forall j :: 0 <= j < |u| && key(y) == key(u[j]) ==> rank(y) < rank(u[j])
    ensures RankedWithinKeys([y] + u, key, rank)
  {
    var r := [y] + u;
    forall i, j | 0 <= i < j < |r| && key(r[i]) == key(r[j])
      ensures rank(r[i]) < rank(r[j])
    {
      assert r[j] == u[j - 1];
      if 0 < i {
        assert r[i] == u[i - 1];
      }
    }
  }

  /** `t[0]` ranks before every element of equal key behind it once `x` is inserted there. */
  lemma HeadRankedBefore<T>(x: T, t: seq<T>, key: T -> int, rank: T -> int, j: int)
    requires t != [] && key(x) > key(t[0]) && RankedWithinKeys(t, key, rank)
    requires 0 <= j < |t|
    requires key(InsertBy(x, t[1..], key)[j]) == key(t[0])
    ensures rank(t[0]) < rank(InsertBy(x, t[1..], key)[j])
  {
    // the element is not x: x's key is larger than t[0]'s
    var m := InsertByOrigin(x, t[1..], key, j);
    if m >= 0 {
      assert t[1 + m] == t[1..][m];
    }
  }

  /**
   * Stability stated through ranks: when `s` lists its elements in strictly
   * increasing `rank`, the sorted result lists equal keys in increasing rank.
   */
  lemma {:induction false} SortByKeepsRankOrder<T>(s: seq<T>, key: T -> int, rank: T -> int)
    requires forall i, j :: 0 <= i < j < |s| ==> rank(s[i]) < rank(s[j])
    ensures RankedWithinKeys(SortBy(s, key), key, rank)
  {
    if s != [] {
      var t := SortBy(s[1..], key);
      SortByKeepsRankOrder(s[1..], key, rank);
      forall y | y in t
        ensures rank(s[0]) < rank(y)
      {
        assert y in multiset(t);
        var m :| 0 <= m < |s[1..]| && s[1..][m] == y;
        assert s[1 + m] == y;
      }
      InsertByRanked(s[0], t, key, rank);
    }
  }

  /** Names in the order Python's `sorted()` gives them. */
  predicate NamesSorted(s: seq<string>)
  {
    forall i :: 0 < i < |s| ==> LexLe(s[i - 1], s[i])
  }

  function InsertName(x: string, t: seq<string>): (r: seq<string>)
    ensures multiset(r) == multiset(t) + multiset{x}
    ensures |r| == |t| + 1
    ensures r[0] == x || (t != [] && r[0] == t[0])
  {
    if t == [] || LexLe(x, t[0]) then [x] + t
    else
      assert t == [t[0]] + t[1..];
      [t[0]] + InsertName(x, t[1..])
  }

  /** Inserting a name into sorted names keeps them sorted. */
  lemma {:induction false} InsertNameSorted(x: string, t: seq<string>)
    requires NamesSorted(t)
    ensures NamesSorted(InsertName(x, t))
  {
    if t != [] && !LexLe(x, t[0]) {
      var r' := InsertName(x, t[1..]);
      var r := [t[0]] + r';
      assert InsertName(x, t) == r;
      assert NamesSorted(t[1..]) by {
        forall i | 0 < i < |t[1..]|
          ensures LexLe(t[1..][i - 1], t[1..][i])
        {
          assert t[1..][i - 1] == t[i] && t[1..][i] == t[i + 1];
        }
      }
      InsertNameSorted(x, t[1..]);
      assert LexLe(t[0], r'[0]) by {
        if r'[0] == x {
          LexLeTotal(x, t[0]);
        } else {
          assert r'[0] == t[1];
        }
      }
      forall i | 0 < i < |r|
        ensures LexLe(r[i - 1], r[i])
      {
        if i > 1 {
          assert r[i - 1] == r'[i - 2] && r[i] == r'[i - 1];
        }
      }
    }
  }

  /** Python's `sorted()` on a list of strings: sorted, and a permutation. */
  function SortNames(s: seq<string>): (r: seq<string>)
    ensures NamesSorted(r)
    ensures multiset(r) == multiset(s)
    ensures |r| == |s|
  {
    if s == [] then []
    else
      assert s == [s[0]] + s[1..];
      InsertNameSorted(s[0], SortNames(s[1..]));
      InsertName(s[0], SortNames(s[1..]))
  }

}
