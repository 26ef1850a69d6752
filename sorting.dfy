/**
  Python's `list.sort(key=...)` and `sorted(..., key=...)`: a stable sort
  by a numeric key, specified by what it keeps (the elements) and what it
  establishes (the order, with equal keys left in their original order);
  and `min(..., key=...)`, which returns the first element of least key.
 */
module Sorting {

  predicate SortedBy<T>(s: seq<T>, key: T -> real) {
    forall i, j :: 0 <= i < j < |s| ==> key(s[i]) <= key(s[j])
  }

  /** The elements of `s` whose key is `k`, in their order in `s`. */
  function WithKey<T>(s: seq<T>, key: T -> real, k: real): seq<T> {
    if s == [] then [] else (if key(s[0]) == k then [s[0]] else []) + WithKey(s[1..], key, k)
  }

  /** Puts `x` in front of the first element whose key is not smaller than its own. */
  function Insert<T>(x: T, s: seq<T>, key: T -> real): seq<T> {
    if s == [] || key(x) <= key(s[0]) then [x] + s else [s[0]] + Insert(x, s[1..], key)
  }

  /** Stable ascending sort: each element is inserted ahead of the equal keys that followed it. */
  function SortBy<T>(s: seq<T>, key: T -> real): seq<T> {
    if s == [] then [] else Insert(s[0], SortBy(s[1..], key), key)
  }

  lemma {:induction false} InsertKeeps<T>(x: T, s: seq<T>, key: T -> real)
    ensures multiset(Insert(x, s, key)) == multiset(s) + multiset{x}
  {
    if s != [] && key(x) > key(s[0]) {
      InsertKeeps(x, s[1..], key);
      assert s == [s[0]] + s[1..];
    }
  }

  lemma {:induction false} InsertSorted<T>(x: T, s: seq<T>, key: T -> real)
    requires SortedBy(s, key)
    ensures SortedBy(Insert(x, s, key), key)
  {
    var r := Insert(x, s, key);
    if s == [] || key(x) <= key(s[0]) {
      assert r == [x] + s;
      forall i, j | 0 <= i < j < |r| ensures key(r[i]) <= key(r[j]) {
        assert r[j] == s[j - 1];
        if i > 0 {
          assert r[i] == s[i - 1];
        } else if j > 1 {
          assert key(s[0]) <= key(s[j - 1]);
        }
      }
    } else {
      var t := Insert(x, s[1..], key);
      InsertSorted(x, s[1..], key);
      InsertAbove(x, s[1..], key, key(s[0]));
      assert r == [s[0]] + t;
      forall i, j | 0 <= i < j < |r| ensures key(r[i]) <= key(r[j]) {
        assert r[j] == t[j - 1];
        if i > 0 {
          assert r[i] == t[i - 1];
        }
      }
    }
  }

  /** Inserting an element no lower than a bound into elements no lower than it keeps every key above it. */
  lemma {:induction false} InsertAbove<T>(x: T, s: seq<T>, key: T -> real, lo: real)
    requires key(x) >= lo && forall j :: 0 <= j < |s| ==> key(s[j]) >= lo
    ensures forall j :: 0 <= j < |Insert(x, s, key)| ==> key(Insert(x, s, key)[j]) >= lo
  {
    var r := Insert(x, s, key);
    if s == [] || key(x) <= key(s[0]) {
      assert r == [x] + s;
      forall j | 0 <= j < |r| ensures key(r[j]) >= lo {
        if j > 0 {
          assert r[j] == s[j - 1];
        }
      }
    } else {
      var t := Insert(x, s[1..], key);
      InsertAbove(x, s[1..], key, lo);
      assert r == [s[0]] + t;
      forall j | 0 <= j < |r| ensures key(r[j]) >= lo {
        if j > 0 {
          assert r[j] == t[j - 1];
        }
      }
    }
  }

  lemma {:induction false} InsertWithKey<T>(x: T, s: seq<T>, key: T -> real, k: real)
    ensures WithKey(Insert(x, s, key), key, k)
         == (if key(x) == k then [x] else []) + WithKey(s, key, k)
  {
    if s == [] || key(x) <= key(s[0]) {
      assert Insert(x, s, key) == [x] + s;
      assert ([x] + s)[1..] == s;
    } else {
      var t := Insert(x, s[1..], key);
      InsertWithKey(x, s[1..], key, k);
      var head := if key(s[0]) == k then [s[0]] else [];
      var mid := if key(x) == k then [x] else [];
      assert ([s[0]] + t)[1..] == t;
      assert WithKey(s, key, k) == head + WithKey(s[1..], key, k);
      assert WithKey([s[0]] + t, key, k) == head + (mid + WithKey(s[1..], key, k));
      assert key(x) == k ==> head == [];
    }
  }

  /** The sort keeps every element with its multiplicity. */
  lemma {:induction false} SortByPermutes<T>(s: seq<T>, key: T -> real)
    ensures multiset(SortBy(s, key)) == multiset(s)
  {
    if s != [] {
      SortByPermutes(s[1..], key);
      InsertKeeps(s[0], SortBy(s[1..], key), key);
      assert s == [s[0]] + s[1..];
    }
  }

  /** The sort puts keys in ascending order. */
  lemma {:induction false} SortBySorted<T>(s: seq<T>, key: T -> real)
    ensures SortedBy(SortBy(s, key), key)
  {
    if s != [] {
      SortBySorted(s[1..], key);
      InsertSorted(s[0], SortBy(s[1..], key), key);
    }
  }

  /** The sort is stable: elements of equal key keep their original relative order. */
  lemma {:induction false} SortByStable<T>(s: seq<T>, key: T -> real, k: real)
    ensures WithKey(SortBy(s, key), key, k) == WithKey(s, key, k)
  {
    if s != [] {
      SortByStable(s[1..], key, k);
      InsertWithKey(s[0], SortBy(s[1..], key), key, k);
    }
  }

  /** Sorting by the key and by the key's negation: the latter is Python's `reverse=True`. */
  lemma SortByNegatedDescends<T>(s: seq<T>, key: T -> real)
    ensures var r := SortBy(s, x => -key(x));
      forall i, j :: 0 <= i < j < |r| ==> key(r[i]) >= key(r[j])
  {
    SortBySorted(s, x => -key(x));
  }

  /** `min(s, key=key)` as an index: the first position holding the least key. */
  function FirstMin<T>(s: seq<T>, key: T -> real): (m: nat)
    requires |s| > 0
    ensures m < |s|
    ensures forall j :: 0 <= j < |s| ==> key(s[m]) <= key(s[j])
    ensures forall j :: 0 <= j < m ==> key(s[j]) > key(s[m])
  {
    if |s| == 1 then 0
    else
      var m := FirstMin(s[..|s| - 1], key);
      if key(s[|s| - 1]) < key(s[m]) then |s| - 1 else m
  }
}
