/** Stable sorting by a key. */
module Sorting {

  /** r put after every element with its key or a smaller one. */
  function Insert<T>(s: seq<T>, r: T, key: T -> int): (t: seq<T>)
    ensures |t| == |s| + 1
  {
    if s == [] || key(s[|s| - 1]) <= key(r) then s + [r]
    else Insert(s[..|s| - 1], r, key) + [s[|s| - 1]]
  }

  /** s sorted by key, elements of one key in their order. */
  function StableSort<T>(s: seq<T>, key: T -> int): (t: seq<T>)
    ensures |t| == |s|
  {
    if s == [] then [] else Insert(StableSort(s[..|s| - 1], key), s[|s| - 1], key)
  }

  ghost predicate SortedBy<T>(s: seq<T>, key: T -> int)
  {
    forall i, j :: 0 <= i < j < |s| ==> key(s[i]) <= key(s[j])
  }

  lemma {:induction false} InsertPermutes<T>(s: seq<T>, r: T, key: T -> int)
    ensures multiset(Insert(s, r, key)) == multiset(s) + multiset{r}
  {
    if s != [] && key(s[|s| - 1]) > key(r) {
      InsertPermutes(s[..|s| - 1], r, key);
      assert s == s[..|s| - 1] + [s[|s| - 1]];
    }
  }

  lemma {:induction false} SortPermutes<T>(s: seq<T>, key: T -> int)
    ensures multiset(StableSort(s, key)) == multiset(s)
  {
    if s != [] {
      SortPermutes(s[..|s| - 1], key);
      InsertPermutes(StableSort(s[..|s| - 1], key), s[|s| - 1], key);
      assert s == s[..|s| - 1] + [s[|s| - 1]];
    }
  }

  lemma {:induction false} InsertSorts<T>(s: seq<T>, r: T, key: T -> int)
    requires SortedBy(s, key)
    ensures SortedBy(Insert(s, r, key), key)
  {
    if s != [] && key(s[|s| - 1]) > key(r) {
      var u := s[..|s| - 1];
      InsertSorts(u, r, key);
      InsertPermutes(u, r, key);
      var t := Insert(u, r, key);
      forall i | 0 <= i < |t|
        ensures key(t[i]) <= key(s[|s| - 1])
      {
        assert t[i] in multiset(t);
        assert t[i] in u || t[i] == r;
      }
    }
  }

  lemma {:induction false} SortSorts<T>(s: seq<T>, key: T -> int)
    ensures SortedBy(StableSort(s, key), key)
  {
    if s != [] {
      SortSorts(s[..|s| - 1], key);
      InsertSorts(StableSort(s[..|s| - 1], key), s[|s| - 1], key);
    }
  }

  ghost predicate DistinctKeys<T>(s: seq<T>, key: T -> int)
  {
    forall i, j :: 0 <= i < j < |s| ==> key(s[i]) != key(s[j])
  }

  lemma {:induction false} CountedOnce<T>(s: seq<T>, key: T -> int, x: T)
    requires DistinctKeys(s, key)
    ensures multiset(s)[x] <= 1
  {
    if s != [] {
      var u, l := s[..|s| - 1], s[|s| - 1];
      assert s == u + [l];
      CountedOnce(u, key, x);
      assert x in u <==> multiset(u)[x] > 0;
    }
  }

  lemma CountedTwice<T>(s: seq<T>, i: nat, j: nat)
    requires i < j < |s| && s[i] == s[j]
    ensures multiset(s)[s[i]] >= 2
  {
    assert s == s[..j] + s[j..];
    assert s[i] == s[..j][i] && s[i] in multiset(s[..j]);
    assert s[j] == s[j..][0] && s[j] in multiset(s[j..]);
  }

  /** Distinct keys are sorted strictly. */
  lemma SortStrict<T>(s: seq<T>, key: T -> int, i: nat, j: nat)
    requires DistinctKeys(s, key) && i < j < |s|
    ensures key(StableSort(s, key)[i]) < key(StableSort(s, key)[j])
  {
    SortPermutes(s, key);
    SortSorts(s, key);
    hide StableSort;
    var t := StableSort(s, key);
    assert t[i] in multiset(t) && t[j] in multiset(t);
    assert t[i] in s && t[j] in s;
    if t[i] == t[j] {
      CountedOnce(s, key, t[i]);
      CountedTwice(t, i, j);
    }
  }

  ghost predicate StrictBy<T>(s: seq<T>, key: T -> int)
  {
    forall i, j :: 0 <= i < j < |s| ==> key(s[i]) < key(s[j])
  }

  lemma StrictFront<T>(s: seq<T>, key: T -> int)
    requires StrictBy(s, key) && s != []
    ensures StrictBy(s[..|s| - 1], key)
  {
  }

  lemma SameLast<T>(s: seq<T>, t: seq<T>, key: T -> int)
    requires multiset(s) == multiset(t) && s != [] && t != []
    requires StrictBy(s, key) && StrictBy(t, key)
    ensures s[|s| - 1] == t[|t| - 1]
  {
    var x, y := s[|s| - 1], t[|t| - 1];
    assert x in multiset(s) && y in multiset(t);
    assert x in t && y in s;
    var k :| 0 <= k < |t| && t[k] == x;
    var l :| 0 <= l < |s| && s[l] == y;
  }

  lemma WithoutLast<T>(s: seq<T>)
    requires s != []
    ensures multiset(s[..|s| - 1]) == multiset(s) - multiset{s[|s| - 1]}
  {
    assert s == s[..|s| - 1] + [s[|s| - 1]];
  }

  lemma SameLength<T>(s: seq<T>, t: seq<T>)
    requires multiset(s) == multiset(t)
    ensures |s| == |t|
  {
    assert |s| == |multiset(s)| == |multiset(t)| == |t|;
  }

  lemma SameFront<T>(s: seq<T>, t: seq<T>)
    requires s != [] && t != []
    requires s[..|s| - 1] == t[..|t| - 1] && s[|s| - 1] == t[|t| - 1]
    ensures s == t
  {
    assert s == s[..|s| - 1] + [s[|s| - 1]] && t == t[..|t| - 1] + [t[|t| - 1]];
  }

  /** One sequence only is strictly ascending by key with the same elements. */
  lemma {:induction false} AscendingSame<T>(s: seq<T>, t: seq<T>, key: T -> int)
    requires multiset(s) == multiset(t) && StrictBy(s, key) && StrictBy(t, key)
    ensures s == t
    decreases |s|
  {
    hide StrictBy;
    SameLength(s, t);
    if s != [] {
      SameLast(s, t, key);
      WithoutLast(s);
      WithoutLast(t);
      StrictFront(s, key);
      StrictFront(t, key);
      AscendingSame(s[..|s| - 1], t[..|t| - 1], key);
      SameFront(s, t);
    }
  }

  lemma {:induction false} DistinctPermuted<T>(s: seq<T>, t: seq<T>, key: T -> int, i: nat, j: nat)
    requires multiset(s) == multiset(t) && DistinctKeys(s, key) && i < j < |t|
    ensures key(t[i]) != key(t[j])
  {
    assert t[i] in multiset(t) && t[j] in multiset(t);
    assert t[i] in s && t[j] in s;
    if t[i] == t[j] {
      CountedOnce(s, key, t[i]);
      CountedTwice(t, i, j);
    }
  }

  /** With distinct keys, the order before sorting does not matter. */
  lemma SortPermuted<T>(s: seq<T>, t: seq<T>, key: T -> int)
    requires multiset(s) == multiset(t) && DistinctKeys(s, key)
    ensures StableSort(s, key) == StableSort(t, key)
  {
    hide StableSort;
    SortPermutes(s, key);
    SortPermutes(t, key);
    assert DistinctKeys(t, key) by {
      forall i, j | 0 <= i < j < |t|
        ensures key(t[i]) != key(t[j])
      {
        DistinctPermuted(s, t, key, i, j);
      }
    }
    hide DistinctKeys;
    var a, b := StableSort(s, key), StableSort(t, key);
    forall i, j | 0 <= i < j < |a|
      ensures key(a[i]) < key(a[j])
    {
      SortStrict(s, key, i, j);
    }
    forall i, j | 0 <= i < j < |b|
      ensures key(b[i]) < key(b[j])
    {
      SortStrict(t, key, i, j);
    }
    AscendingSame(a, b, key);
  }
}
