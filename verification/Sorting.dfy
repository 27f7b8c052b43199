/** Stable sorting by an integer key, and what a sorted sequence is determined by. */
module Sorting {

  ghost predicate Sorted<T(!new)>(s: seq<T>, key: T -> int) {
    forall i, j :: 0 <= i < j < |s| ==> key(s[i]) <= key(s[j])
  }

  ghost predicate StrictlySorted<T(!new)>(s: seq<T>, key: T -> int) {
    forall i, j :: 0 <= i < j < |s| ==> key(s[i]) < key(s[j])
  }

  function Insert<T>(x: T, s: seq<T>, key: T -> int): (r: seq<T>)
    ensures multiset(r) == multiset(s) + multiset{x}
    ensures |r| == |s| + 1
  {
    if s == [] || key(x) <= key(s[0]) then
      [x] + s
    else
      assert s == [s[0]] + s[1..];
      [s[0]] + Insert(x, s[1..], key)
  }

  function SortBy<T>(s: seq<T>, key: T -> int): (r: seq<T>)
    ensures multiset(r) == multiset(s)
    ensures |r| == |s|
  {
    if s == [] then
      []
    else
      assert s == [s[0]] + s[1..];
      Insert(s[0], SortBy(s[1..], key), key)
  }

  lemma {:induction false} InsertSorted<T(!new)>(x: T, s: seq<T>, key: T -> int)
    requires Sorted(s, key)
    ensures Sorted(Insert(x, s, key), key)
  {
    if s != [] && key(x) > key(s[0]) {
      var rest := Insert(x, s[1..], key);
      InsertSorted(x, s[1..], key);
      forall y | y in rest
        ensures key(s[0]) <= key(y)
      {
        assert y in multiset(rest);
      }
    }
  }

  lemma {:induction false} SortBySorted<T(!new)>(s: seq<T>, key: T -> int)
    ensures Sorted(SortBy(s, key), key)
  {
    if s != [] {
      SortBySorted(s[1..], key);
      InsertSorted(s[0], SortBy(s[1..], key), key);
    }
  }

  lemma {:induction false} SameElements<T>(s: seq<T>, key: T -> int, x: T)
    ensures x in s <==> x in SortBy(s, key)
  {
    assert x in multiset(s) <==> x in multiset(SortBy(s, key));
  }

  /** How many elements have a key below `k`. */
  function CountBelow<T>(s: seq<T>, key: T -> int, k: int): (n: nat)
    ensures n <= |s|
  {
    if s == [] then 0 else (if key(s[0]) < k then 1 else 0) + CountBelow(s[1..], key, k)
  }

  lemma {:induction false} CountBelowAppend<T>(s: seq<T>, t: seq<T>, key: T -> int, k: int)
    ensures CountBelow(s + t, key, k) == CountBelow(s, key, k) + CountBelow(t, key, k)
  {
    if s == [] {
      assert s + t == t;
    } else {
      assert (s + t)[1..] == s[1..] + t;
      CountBelowAppend(s[1..], t, key, k);
    }
  }

  lemma {:induction false} CountBelowInsert<T>(x: T, s: seq<T>, key: T -> int, k: int)
    ensures CountBelow(Insert(x, s, key), key, k) == (if key(x) < k then 1 else 0) + CountBelow(s, key, k)
  {
    if s != [] && key(x) > key(s[0]) {
      CountBelowInsert(x, s[1..], key, k);
      assert Insert(x, s, key)[1..] == Insert(x, s[1..], key);
    } else {
      assert Insert(x, s, key)[1..] == s;
    }
  }

  lemma {:induction false} CountBelowSort<T>(s: seq<T>, key: T -> int, k: int)
    ensures CountBelow(SortBy(s, key), key, k) == CountBelow(s, key, k)
  {
    if s != [] {
      CountBelowSort(s[1..], key, k);
      CountBelowInsert(s[0], SortBy(s[1..], key), key, k);
    }
  }

  lemma {:induction false} CountBelowPosition<T(!new)>(s: seq<T>, key: T -> int, i: nat)
    requires i < |s| && StrictlySorted(s, key)
    ensures CountBelow(s, key, key(s[i])) == i
  {
    if i == 0 {
      NoneBelow(s, key, key(s[0]));
    } else {
      assert s[1..][i - 1] == s[i];
      CountBelowPosition(s[1..], key, i - 1);
    }
  }

  lemma {:induction false} NoneBelow<T>(s: seq<T>, key: T -> int, k: int)
    requires forall i :: 0 <= i < |s| ==> k <= key(s[i])
    ensures CountBelow(s, key, k) == 0
  {
    if s != [] { NoneBelow(s[1..], key, k); }
  }

  ghost predicate DistinctKeys<T(!new)>(s: seq<T>, key: T -> int) {
    forall i, j :: 0 <= i < j < |s| ==> key(s[i]) != key(s[j])
  }

  lemma {:induction false} InsertDistinct<T(!new)>(x: T, s: seq<T>, key: T -> int)
    requires DistinctKeys(s, key) && forall i :: 0 <= i < |s| ==> key(s[i]) != key(x)
    ensures DistinctKeys(Insert(x, s, key), key)
  {
    if s != [] && key(x) > key(s[0]) {
      var rest := Insert(x, s[1..], key);
      InsertDistinct(x, s[1..], key);
      forall y | y in rest
        ensures key(s[0]) != key(y)
      {
        assert y in multiset(rest);
        assert y == x || y in s[1..];
      }
    }
  }

  lemma {:induction false} SortDistinct<T(!new)>(s: seq<T>, key: T -> int)
    requires DistinctKeys(s, key)
    ensures StrictlySorted(SortBy(s, key), key)
  {
    SortKeepsDistinct(s, key);
    SortBySorted(s, key);
  }

  lemma {:induction false} SortKeepsDistinct<T(!new)>(s: seq<T>, key: T -> int)
    requires DistinctKeys(s, key)
    ensures DistinctKeys(SortBy(s, key), key)
  {
    if s != [] {
      SortKeepsDistinct(s[1..], key);
      forall y | y in SortBy(s[1..], key)
        ensures key(y) != key(s[0])
      {
        SameElements(s[1..], key, y);
        assert y in s[1..];
      }
      InsertDistinct(s[0], SortBy(s[1..], key), key);
    }
  }

  /** In sorted order an element stands behind exactly the elements with a smaller key. */
  lemma {:induction false} SortedPosition<T(!new)>(s: seq<T>, key: T -> int, i: nat)
    requires DistinctKeys(s, key) && i < |s|
    ensures CountBelow(s, key, key(s[i])) < |s|
    ensures SortBy(s, key)[CountBelow(s, key, key(s[i]))] == s[i]
  {
    SortDistinct(s, key);
    var t := SortBy(s, key);
    SameElements(s, key, s[i]);
    var j :| 0 <= j < |t| && t[j] == s[i];
    CountBelowPosition(t, key, j);
    CountBelowSort(s, key, key(s[i]));
  }

  lemma HasElement<T(!new)>(t: seq<T>)
    requires t != []
    ensures exists x :: x in t
  {
    assert t[0] in t;
  }

  /** A strictly sorted sequence is determined by its elements. */
  lemma {:induction false} StrictlySortedUnique<T(!new)>(s: seq<T>, t: seq<T>, key: T -> int)
    requires StrictlySorted(s, key) && StrictlySorted(t, key)
    requires forall x :: x in s <==> x in t
    ensures s == t
  {
    if s == [] {
      if t != [] { HasElement(t); }
    } else {
      assert s[0] in t;
      assert t[0] in s;
      assert s[0] == t[0];
      forall x
        ensures x in s[1..] <==> x in t[1..]
      {
        assert x in s[1..] <==> x in s && x != s[0];
        assert x in t[1..] <==> x in t && x != t[0];
      }
      StrictlySortedUnique(s[1..], t[1..], key);
    }
  }

  /** Keeps the first of each run of elements with equal keys. */
  function DedupBy<T>(s: seq<T>, key: T -> int): (r: seq<T>)
    ensures s != [] ==> r != [] && r[0] == s[0]
    decreases |s|
  {
    if |s| <= 1 then s
    else if key(s[0]) == key(s[1]) then DedupBy([s[0]] + s[2..], key)
    else [s[0]] + DedupBy(s[1..], key)
  }

  lemma {:induction false} DedupStrict<T(!new)>(s: seq<T>, key: T -> int)
    requires StrictlySorted(s, key)
    ensures DedupBy(s, key) == s
  {
    if |s| > 1 { DedupStrict(s[1..], key); }
  }

  /** Deduplicating a sorted sequence leaves each key once, and loses no element where keys tell elements apart. */
  lemma {:induction false} DedupSorted<T(!new)>(s: seq<T>, key: T -> int)
    requires Sorted(s, key)
    requires forall x, y :: x in s && y in s && key(x) == key(y) ==> x == y
    ensures StrictlySorted(DedupBy(s, key), key)
    ensures forall x :: x in DedupBy(s, key) <==> x in s
    decreases |s|
  {
    if |s| > 1 {
      if key(s[0]) == key(s[1]) {
        assert s[0] in s && s[1] in s;
        assert [s[0]] + s[2..] == s[1..];
        DedupSorted(s[1..], key);
        assert s == [s[0]] + s[1..];
      } else {
        DedupSorted(s[1..], key);
        assert s == [s[0]] + s[1..];
        DedupAfter(s, key);
      }
    }
  }

  lemma DedupAfter<T(!new)>(s: seq<T>, key: T -> int)
    requires |s| > 1 && Sorted(s, key) && key(s[0]) != key(s[1])
    requires StrictlySorted(DedupBy(s[1..], key), key) && forall x :: x in DedupBy(s[1..], key) <==> x in s[1..]
    ensures StrictlySorted([s[0]] + DedupBy(s[1..], key), key)
  {
    var rest := DedupBy(s[1..], key);
    forall j | 0 <= j < |rest|
      ensures key(s[0]) < key(rest[j])
    {
      assert rest[j] in s[1..];
    }
  }
}
