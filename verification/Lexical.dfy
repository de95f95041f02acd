/** Byte-wise order of strings, and sorting of a set by an order. */
module Lexical {

  /** a comes before b in a dictionary. */
  predicate Before(a: string, b: string)
  {
    b != "" && (a == "" || a[0] < b[0] || (a[0] == b[0] && Before(a[1..], b[1..])))
  }

  /** a is a proper front of b, or has the lesser character where the two first differ. */
  ghost predicate Precedes(a: string, b: string)
  {
    exists k: nat :: DiffersAt(a, b, k)
  }

  ghost predicate DiffersAt(a: string, b: string, k: nat)
  {
    k <= |a| && k < |b| && a[..k] == b[..k] && (k < |a| ==> a[k] < b[k])
  }

  /** Strings come in the order of their first difference. */
  lemma {:induction false} BeforeIff(a: string, b: string)
    ensures Before(a, b) <==> Precedes(a, b)
  {
    if a == "" || b == "" || a[0] != b[0] {
      if a != "" && b != "" {
        assert forall k: nat :: 0 < k <= |a| && k < |b| ==> a[..k][0] == a[0] && b[..k][0] == b[0];
      }
      assert a[..0] == "" && b[..0] == "";
      assert Before(a, b) ==> DiffersAt(a, b, 0);
    } else {
      var c, d := a[1..], b[1..];
      BeforeIff(c, d);
      forall k: nat | k < |b|
        ensures DiffersAt(a, b, k) <==> k > 0 && DiffersAt(c, d, k - 1)
      {
        SharedFirst(a, b, k);
      }
      if Precedes(c, d) {
        var k: nat :| DiffersAt(c, d, k);
        assert DiffersAt(a, b, k + 1);
      }
    }
  }

  lemma SharedFirst(a: string, b: string, k: nat)
    requires a != "" && b != "" && a[0] == b[0]
    ensures DiffersAt(a, b, k) <==> k > 0 && DiffersAt(a[1..], b[1..], k - 1)
  {
    if 0 < k <= |a| && k <= |b| {
      assert a[..k] == [a[0]] + a[1..][..k - 1];
      assert b[..k] == [b[0]] + b[1..][..k - 1];
    }
  }

  /** less orders the members of s strictly and totally. */
  ghost predicate Orders<T(!new)>(less: (T, T) -> bool)
  {
    && (forall x :: !less(x, x))
    && (forall x, y :: x == y || less(x, y) || less(y, x))
    && (forall x, y, z :: less(x, y) && less(y, z) ==> less(x, z))
  }

  ghost predicate Ascending<T(!new)>(s: seq<T>, less: (T, T) -> bool)
  {
    forall i, j :: 0 <= i < j < |s| ==> less(s[i], s[j])
  }

  lemma {:induction false} BeforeIrreflexive(a: string)
    ensures !Before(a, a)
  {
    if a != "" {
      BeforeIrreflexive(a[1..]);
    }
  }

  lemma {:induction false} BeforeTotal(a: string, b: string)
    ensures a == b || Before(a, b) || Before(b, a)
  {
    if a != "" && b != "" && a[0] == b[0] {
      BeforeTotal(a[1..], b[1..]);
      assert a == [a[0]] + a[1..] && b == [b[0]] + b[1..];
    }
  }

  lemma {:induction false} BeforeTransitive(a: string, b: string, c: string)
    requires Before(a, b) && Before(b, c)
    ensures Before(a, c)
  {
    if a != "" && a[0] == b[0] == c[0] {
      BeforeTransitive(a[1..], b[1..], c[1..]);
    }
  }

  lemma BeforeOrders()
    ensures Orders(Before)
  {
    hide Before;
    forall x: string ensures !Before(x, x) {
      BeforeIrreflexive(x);
    }
    forall x: string, y: string ensures x == y || Before(x, y) || Before(y, x) {
      BeforeTotal(x, y);
    }
    forall x: string, y: string, z: string ensures Before(x, y) && Before(y, z) ==> Before(x, z) {
      if Before(x, y) && Before(y, z) {
        BeforeTransitive(x, y, z);
      }
    }
  }

  /** The ascending order of a set is one sequence only. */
  lemma {:induction false} AscendingUnique<T(!new)>(a: seq<T>, b: seq<T>, less: (T, T) -> bool)
    requires Orders(less) && Ascending(a, less) && Ascending(b, less)
    requires forall x :: x in a <==> x in b
    ensures a == b
  {
    if a == [] && b != [] {
      var x := FirstIn(b);
    } else if a != [] && b == [] {
      var x := FirstIn(a);
    } else if a != [] && b != [] {
      FirstIsLeast(a, b, less);
      FirstIsLeast(b, a, less);
      assert a[0] == b[0];
      RestInRest(a, b, less);
      RestInRest(b, a, less);
      AscendingUnique(a[1..], b[1..], less);
      assert a == [a[0]] + a[1..] && b == [b[0]] + b[1..];
    }
  }

  lemma FirstIn<T(!new)>(a: seq<T>) returns (x: T)
    requires a != []
    ensures x == a[0] && x in a
  {
    x := a[0];
  }

  lemma FirstIsLeast<T(!new)>(a: seq<T>, b: seq<T>, less: (T, T) -> bool)
    requires Orders(less) && Ascending(b, less) && a != [] && b != [] && a[0] in b
    ensures a[0] == b[0] || less(b[0], a[0])
  {
    var k :| 0 <= k < |b| && b[k] == a[0];
    assert k > 0 ==> less(b[0], b[k]);
  }

  lemma RestInRest<T(!new)>(a: seq<T>, b: seq<T>, less: (T, T) -> bool)
    requires Orders(less) && Ascending(a, less) && a != [] && b != [] && a[0] == b[0]
    requires forall x :: x in a ==> x in b
    ensures forall x :: x in a[1..] ==> x in b[1..]
  {
    forall x | x in a[1..]
      ensures x in b[1..]
    {
      var k :| 0 <= k < |a[1..]| && a[1..][k] == x;
      assert x == a[k + 1] && less(a[0], a[k + 1]);
      assert x in a;
      var j :| 0 <= j < |b| && b[j] == x;
      assert j > 0;
      assert b[1..][j - 1] == b[j];
    }
  }

  /** An ascending sequence has each of its members once. */
  lemma {:induction false} AscendingOnce<T(!new)>(s: seq<T>, less: (T, T) -> bool, x: T)
    requires Orders(less) && Ascending(s, less)
    ensures multiset(s)[x] == if x in s then 1 else 0
  {
    if s != [] {
      AscendingOnce(s[1..], less, x);
      assert s == [s[0]] + s[1..];
      assert forall j :: 0 < j < |s| ==> less(s[0], s[j]);
      assert s[0] !in s[1..];
    }
  }

  /** x in its place among s, which does not hold it. */
  function Insert<T(!new)>(s: seq<T>, x: T, less: (T, T) -> bool): (r: seq<T>)
    ensures |r| == |s| + 1
  {
    if s == [] || less(x, s[0]) then [x] + s else [s[0]] + Insert(s[1..], x, less)
  }

  lemma {:induction false} InsertHas<T(!new)>(s: seq<T>, x: T, less: (T, T) -> bool, y: T)
    ensures y in Insert(s, x, less) <==> y == x || y in s
  {
    if s != [] && !less(x, s[0]) {
      InsertHas(s[1..], x, less, y);
      assert s == [s[0]] + s[1..];
    }
  }

  lemma {:induction false} InsertAscends<T(!new)>(s: seq<T>, x: T, less: (T, T) -> bool)
    requires Orders(less) && Ascending(s, less) && x !in s
    ensures Ascending(Insert(s, x, less), less)
  {
    if s != [] {
      if less(x, s[0]) {
        assert forall j :: 0 < j < |s| ==> less(s[0], s[j]);
      } else {
        assert s[0] in s && less(s[0], x);
        InsertAscends(s[1..], x, less);
        var r := Insert(s[1..], x, less);
        forall k | 0 <= k < |r|
          ensures less(s[0], r[k])
        {
          assert r[k] in r;
          InsertHas(s[1..], x, less, r[k]);
          assert r[k] in s[1..] ==> exists j :: 0 <= j < |s[1..]| && s[1..][j] == r[k];
          assert forall j :: 0 < j < |s| ==> less(s[0], s[j]);
        }
      }
    }
  }

  /** The members of a set, ascending. */
  method Sorted<T(!new, ==)>(s: set<T>, less: (T, T) -> bool) returns (r: seq<T>)
    requires Orders(less)
    ensures Ascending(r, less)
    ensures forall x :: x in r <==> x in s
  {
    hide Insert, Orders, Ascending;
    var rest := s;
    r := [];
    assert Ascending(r, less) by {
      AscendingNone(less);
    }
    while rest != {}
      invariant rest <= s
      invariant Ascending(r, less)
      invariant forall x :: x in r <==> x in s && x !in rest
      decreases |rest|
    {
      var x :| x in rest;
      InsertAscends(r, x, less);
      forall y ensures y in Insert(r, x, less) <==> y == x || y in r {
        InsertHas(r, x, less, y);
      }
      r := Insert(r, x, less);
      rest := rest - {x};
    }
  }

  lemma AscendingNone<T(!new)>(less: (T, T) -> bool)
    ensures Ascending([], less)
  {
  }
}
