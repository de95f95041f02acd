/** Binding each anonymous @proto to the next typeless @dataset in document
    order. */
module AnonymousProtos {
  import opened Options
  import opened Decimals
  import opened Sorting

  datatype Shape = Anonymous | Named | Source | Descriptor

  datatype Proto = Proto(offset: int, shape: Shape, typeName: string)

  datatype Dataset = Dataset(offset: int, typ: string)

  datatype Ent = Ent(off: int, isProto: bool, idx: nat)

  datatype Error = NoProtoBefore(dataset: nat) | NoDatasetAfter(proto: nat)

  class Doc {
    var protos: seq<Proto>
    var datasets: seq<Dataset>

    constructor (p: seq<Proto>, d: seq<Dataset>)
      ensures protos == p && datasets == d
    {
      protos, datasets := p, d;
    }
  }

  function OffsetOf(e: Ent): int
  {
    e.off
  }

  function ProtoEnts(ps: seq<Proto>): (es: seq<Ent>)
    ensures |es| == |ps| && forall i :: 0 <= i < |ps| ==> es[i] == Ent(ps[i].offset, true, i)
  {
    seq(|ps|, i requires 0 <= i < |ps| => Ent(ps[i].offset, true, i))
  }

  function DatasetEnts(ds: seq<Dataset>): (es: seq<Ent>)
    ensures |es| == |ds| && forall i :: 0 <= i < |ds| ==> es[i] == Ent(ds[i].offset, false, i)
  {
    seq(|ds|, i requires 0 <= i < |ds| => Ent(ds[i].offset, false, i))
  }

  /** The directives in document order. */
  function Order(ps: seq<Proto>, ds: seq<Dataset>): seq<Ent>
  {
    StableSort(ProtoEnts(ps) + DatasetEnts(ds), OffsetOf)
  }

  predicate DistinctOffsets(ps: seq<Proto>, ds: seq<Dataset>)
  {
    && (forall i, j :: 0 <= i < j < |ps| ==> ps[i].offset != ps[j].offset)
    && (forall i, j :: 0 <= i < j < |ds| ==> ds[i].offset != ds[j].offset)
    && (forall i, j :: 0 <= i < |ps| && 0 <= j < |ds| ==> ps[i].offset != ds[j].offset)
  }

  /** e is a directive of the document. */
  ghost predicate IsEnt(e: Ent, ps: seq<Proto>, ds: seq<Dataset>)
  {
    if e.isProto then e.idx < |ps| && e.off == ps[e.idx].offset else e.idx < |ds| && e.off == ds[e.idx].offset
  }

  lemma OrderIs(ps: seq<Proto>, ds: seq<Dataset>)
    ensures forall e :: e in Order(ps, ds) <==> IsEnt(e, ps, ds)
    ensures SortedBy(Order(ps, ds), OffsetOf)
  {
    var es := ProtoEnts(ps) + DatasetEnts(ds);
    SortPermutes(es, OffsetOf);
    SortSorts(es, OffsetOf);
    hide StableSort;
    forall e
      ensures e in Order(ps, ds) <==> IsEnt(e, ps, ds)
    {
      assert e in Order(ps, ds) <==> e in multiset(Order(ps, ds));
      assert e in es <==> e in multiset(es);
      if IsEnt(e, ps, ds) {
        assert e == if e.isProto then es[e.idx] else es[|ps| + e.idx];
      }
    }
  }

  ghost predicate Increasing(es: seq<Ent>)
  {
    forall i, j :: 0 <= i < j < |es| ==> es[i].off < es[j].off
  }

  /** es holds directives of the document, in document order. */
  ghost predicate AllEnts(es: seq<Ent>, ps: seq<Proto>, ds: seq<Dataset>)
  {
    Increasing(es) && forall i :: 0 <= i < |es| ==> IsEnt(es[i], ps, ds)
  }

  lemma OrderAllEnts(ps: seq<Proto>, ds: seq<Dataset>)
    requires DistinctOffsets(ps, ds)
    ensures AllEnts(Order(ps, ds), ps, ds)
  {
    OrderIs(ps, ds);
    hide StableSort;
    var es := Order(ps, ds);
    forall i | 0 <= i < |es|
      ensures IsEnt(es[i], ps, ds)
    {
      assert es[i] in es;
    }
    forall i, j | 0 <= i < j < |es|
      ensures es[i].off < es[j].off
    {
      SortStrict(ProtoEnts(ps) + DatasetEnts(ds), OffsetOf, i, j);
    }
  }

  // ---- The matching --------------------------------------------------------

  /** The anonymous protos among es, in order. */
  function Anon(ps: seq<Proto>, es: seq<Ent>): (a: seq<Ent>)
    ensures forall i :: 0 <= i < |a| ==> a[i].isProto && a[i].idx < |ps| && ps[a[i].idx].shape == Anonymous
  {
    if es == [] then []
    else
      var l := es[|es| - 1];
      Anon(ps, es[..|es| - 1])
      + (if l.isProto && l.idx < |ps| && ps[l.idx].shape == Anonymous then [l] else [])
  }

  /** The typeless datasets among es, in order. */
  function Typeless(ds: seq<Dataset>, es: seq<Ent>): (t: seq<Ent>)
    ensures forall i :: 0 <= i < |t| ==> !t[i].isProto && t[i].idx < |ds| && ds[t[i].idx].typ == ""
  {
    if es == [] then []
    else
      var l := es[|es| - 1];
      Typeless(ds, es[..|es| - 1])
      + (if !l.isProto && l.idx < |ds| && ds[l.idx].typ == "" then [l] else [])
  }

  /** Every prefix of the document has at least as many anonymous protos as
      typeless datasets, and the document as many of one as of the other. */
  ghost predicate Matchable(ps: seq<Proto>, ds: seq<Dataset>)
  {
    var es := Order(ps, ds);
    && (forall n :: 0 <= n <= |es| ==> |Typeless(ds, es[..n])| <= |Anon(ps, es[..n])|)
    && |Typeless(ds, es)| == |Anon(ps, es)|
  }

  lemma {:induction false} PicksAre(ps: seq<Proto>, ds: seq<Dataset>, es: seq<Ent>, e: Ent)
    requires forall i :: 0 <= i < |es| ==> IsEnt(es[i], ps, ds)
    ensures e in Anon(ps, es) <==> e in es && e.isProto && e.idx < |ps| && ps[e.idx].shape == Anonymous
    ensures e in Typeless(ds, es) <==> e in es && !e.isProto && e.idx < |ds| && ds[e.idx].typ == ""
  {
    if es != [] {
      var u, l := es[..|es| - 1], es[|es| - 1];
      assert es == u + [l];
      PicksAre(ps, ds, u, e);
      hide IsEnt;
    }
  }

  /** The protos that take part are the anonymous ones and the datasets those without a type, all of them, each in
    * document order. */
  lemma ParticipantsAre(ps: seq<Proto>, ds: seq<Dataset>, e: Ent)
    requires DistinctOffsets(ps, ds)
    ensures var a, t := Anon(ps, Order(ps, ds)), Typeless(ds, Order(ps, ds));
            && (e in a <==> e.isProto && e.idx < |ps| && ps[e.idx] == Proto(e.off, Anonymous, ps[e.idx].typeName))
            && (e in t <==> !e.isProto && e.idx < |ds| && ds[e.idx] == Dataset(e.off, ""))
            && Increasing(a) && Increasing(t)
  {
    var es := Order(ps, ds);
    OrderAllEnts(ps, ds);
    OrderIs(ps, ds);
    hide Order, DistinctOffsets;
    PicksAre(ps, ds, es, e);
    PartsAreEnts(ps, ds, es, if es == [] then 0 else es[|es| - 1].off + 1);
    hide Anon, Typeless;
  }

  /** The first prefix with more typeless datasets than anonymous protos ends with directive n. */
  ghost predicate FirstShort(ps: seq<Proto>, ds: seq<Dataset>, es: seq<Ent>, n: nat)
  {
    && n < |es| && |Typeless(ds, es[..n + 1])| > |Anon(ps, es[..n + 1])|
    && forall m :: 0 <= m <= n ==> |Typeless(ds, es[..m])| <= |Anon(ps, es[..m])|
  }

  /** What an error names: the dataset that comes up short first, or, when none does, the first proto left over. */
  ghost predicate ErrorIs(ps: seq<Proto>, ds: seq<Dataset>, es: seq<Ent>, err: Error)
  {
    match err
    case NoProtoBefore(d) => exists n: nat :: FirstShort(ps, ds, es, n) && es[n].idx == d && !es[n].isProto
    case NoDatasetAfter(p) =>
      var a, t := Anon(ps, es), Typeless(ds, es);
      (forall m :: 0 <= m <= |es| ==> |Typeless(ds, es[..m])| <= |Anon(ps, es[..m])|) && |t| < |a| && a[|t|].idx == p
  }

  function NameOf(i: nat): string
  {
    "_pxq_anon_" + Numeral(i)
  }

  /** A name ends in its number. */
  lemma NameIs(i: nat)
    ensures |NameOf(i)| > 10 && NameOf(i)[..10] == "_pxq_anon_" && ParseNat(NameOf(i)[10..]) == Some(i)
  {
    ValueOfNumeral(i);
    assert NameOf(i)[10..] == Numeral(i);
  }

  lemma NamesDistinct(i: nat, j: nat)
    requires i != j
    ensures NameOf(i) != NameOf(j)
  {
    ValueOfNumeral(i);
    ValueOfNumeral(j);
    hide Numeral;
    assert NameOf(i)[10..] == Numeral(i) && NameOf(j)[10..] == Numeral(j);
  }

  /** Which of the first n entries names directive k. */
  function Position(a: seq<Ent>, n: nat, k: nat): (i: Option<nat>)
    requires n <= |a|
    ensures i.Some? ==> i.value < n && a[i.value].idx == k
    ensures i.None? ==> forall j :: 0 <= j < n ==> a[j].idx != k
  {
    if n == 0 then None else if a[n - 1].idx == k then Some(n - 1) else Position(a, n - 1, k)
  }

  function NamedProto(p: Proto, i: nat): Proto
  {
    p.(shape := Named, typeName := NameOf(i))
  }

  function TypedDataset(d: Dataset, i: nat): Dataset
  {
    d.(typ := NameOf(i))
  }

  /** The first n protos of a are named in turn, and the others as they were. */
  ghost predicate ProtosBound(ps: seq<Proto>, a: seq<Ent>, n: nat, now: seq<Proto>)
  {
    && n <= |a| && |now| == |ps|
    && forall k :: 0 <= k < |ps| ==>
         now[k] == match Position(a, n, k) case None => ps[k] case Some(i) => NamedProto(ps[k], i)
  }

  /** The first n datasets of t are given the names in turn. */
  ghost predicate DatasetsBound(ds: seq<Dataset>, t: seq<Ent>, n: nat, now: seq<Dataset>)
  {
    && n <= |t| && |now| == |ds|
    && forall k :: 0 <= k < |ds| ==>
         now[k] == match Position(t, n, k) case None => ds[k] case Some(i) => TypedDataset(ds[k], i)
  }

  lemma {:induction false} AnonGrows(ps: seq<Proto>, es: seq<Ent>, m: nat, n: nat)
    requires m <= n <= |es|
    ensures Anon(ps, es[..m]) <= Anon(ps, es[..n])
    decreases n
  {
    if m < n {
      AnonGrows(ps, es, m, n - 1);
      assert es[..n][..n - 1] == es[..n - 1];
    }
  }

  /** Every anonymous proto comes before the dataset it is paired with. */
  lemma PairsInOrder(ps: seq<Proto>, ds: seq<Dataset>, i: nat)
    requires Matchable(ps, ds) && DistinctOffsets(ps, ds)
    requires i < |Typeless(ds, Order(ps, ds))|
    ensures Anon(ps, Order(ps, ds))[i].off < Typeless(ds, Order(ps, ds))[i].off
  {
    hide Order;
    var es := Order(ps, ds);
    OrderAllEnts(ps, ds);
    var n := TypelessAt(ds, es, i);
    assert |Typeless(ds, es[..n + 1])| <= |Anon(ps, es[..n + 1])|;
    EntsStep(ps, ds, es, n);
    PartsAreEnts(ps, ds, es[..n], es[n].off);
    AnonGrows(ps, es, n, |es|);
    assert es[..|es|] == es;
  }

  /** Where the i-th typeless dataset stands. */
  lemma {:induction false} TypelessAt(ds: seq<Dataset>, es: seq<Ent>, i: nat) returns (n: nat)
    requires i < |Typeless(ds, es)|
    ensures n < |es| && es[n] == Typeless(ds, es)[i] && |Typeless(ds, es[..n + 1])| == i + 1 && !es[n].isProto
    decreases |es|
  {
    var u := es[..|es| - 1];
    var t := Typeless(ds, u);
    assert Typeless(ds, es) == t || Typeless(ds, es) == t + [es[|es| - 1]];
    hide Typeless;
    if i < |t| {
      n := TypelessAt(ds, u, i);
      assert u[..n + 1] == es[..n + 1];
    } else {
      n := |es| - 1;
      assert es[..n + 1] == es;
    }
  }

  // ---- All pairings --------------------------------------------------------

  /** A way to give every dataset a proto of its own that comes before it, leaving
      none over: dataset i takes proto f[i]. */
  ghost predicate Pairing(a: seq<Ent>, t: seq<Ent>, f: seq<nat>)
  {
    && |f| == |t| == |a|
    && (forall i :: 0 <= i < |f| ==> f[i] < |a| && a[f[i]].off < t[i].off)
    && forall i, j :: 0 <= i < j < |f| ==> f[i] != f[j]
  }

  /** Datasets take protos in their order. */
  ghost predicate InOrder(f: seq<nat>)
  {
    forall i, j :: 0 <= i < j < |f| ==> f[i] < f[j]
  }

  lemma {:induction false} Pigeonhole(f: seq<nat>, m: nat)
    requires forall i :: 0 <= i < |f| ==> f[i] < m
    requires forall i, j :: 0 <= i < j < |f| ==> f[i] != f[j]
    ensures |f| <= m
  {
    if i :| 0 <= i < |f| && f[i] == m - 1 {
      var g := f[..i] + f[i + 1..];
      assert forall k :: 0 <= k < |g| ==> g[k] == if k < i then f[k] else f[k + 1];
      Pigeonhole(g, m - 1);
    } else if f != [] {
      assert f[0] < m;
      Pigeonhole(f, m - 1);
    }
  }

  /** Where the i-th anonymous proto stands. */
  lemma {:induction false} AnonAt(ps: seq<Proto>, es: seq<Ent>, i: nat) returns (n: nat)
    requires i < |Anon(ps, es)|
    ensures n < |es| && es[n] == Anon(ps, es)[i] && |Anon(ps, es[..n + 1])| == i + 1
    decreases |es|
  {
    var u := es[..|es| - 1];
    var a := Anon(ps, u);
    assert Anon(ps, es) == a || Anon(ps, es) == a + [es[|es| - 1]];
    hide Anon;
    if i < |a| {
      n := AnonAt(ps, u, i);
      assert u[..n + 1] == es[..n + 1];
    } else {
      n := |es| - 1;
      assert es[..n + 1] == es;
    }
  }

  lemma {:induction false} TypelessGrows(ds: seq<Dataset>, es: seq<Ent>, m: nat, n: nat)
    requires m <= n <= |es|
    ensures |Typeless(ds, es[..m])| <= |Typeless(ds, es[..n])|
    decreases n
  {
    if m < n {
      TypelessGrows(ds, es, m, n - 1);
      assert es[..n][..n - 1] == es[..n - 1];
    }
  }

  /** A proto before one of the datasets in a prefix is in the prefix. */
  lemma TakenInside(ps: seq<Proto>, ds: seq<Dataset>, es: seq<Ent>, n: nat, i: nat, j: nat)
    requires Increasing(es) && n <= |es|
    requires i < |Typeless(ds, es[..n])| <= |Typeless(ds, es)| && j < |Anon(ps, es)|
    requires Anon(ps, es)[j].off < Typeless(ds, es)[i].off
    ensures j < |Anon(ps, es[..n])|
  {
    hide Anon, Typeless;
    var p := AnonAt(ps, es, j);
    var q := TypelessAt(ds, es, i);
    assert p < q by {
      assert es[p].off < es[q].off;
    }
    if n <= q {
      TypelessGrows(ds, es, n, q);
      EntsStep(ps, ds, es, q);
    }
    AnonGrows(ps, es, p + 1, n);
  }

  lemma MatchablePairs(ps: seq<Proto>, ds: seq<Dataset>) returns (f: seq<nat>)
    requires DistinctOffsets(ps, ds) && Matchable(ps, ds)
    ensures Pairing(Anon(ps, Order(ps, ds)), Typeless(ds, Order(ps, ds)), f)
  {
    hide Order, Anon, Typeless, DistinctOffsets;
    var a, t := Anon(ps, Order(ps, ds)), Typeless(ds, Order(ps, ds));
    f := seq(|t|, i requires 0 <= i < |t| => i);
    forall i | 0 <= i < |t|
      ensures a[f[i]].off < t[i].off
    {
      PairsInOrder(ps, ds, i);
    }
  }

  lemma PairedMatches(ps: seq<Proto>, ds: seq<Dataset>, f: seq<nat>)
    requires DistinctOffsets(ps, ds) && Pairing(Anon(ps, Order(ps, ds)), Typeless(ds, Order(ps, ds)), f)
    ensures Matchable(ps, ds)
  {
    hide Order, Anon, Typeless, DistinctOffsets;
    var es := Order(ps, ds);
    OrderAllEnts(ps, ds);
    forall n | 0 <= n <= |es|
      ensures |Typeless(ds, es[..n])| <= |Anon(ps, es[..n])|
    {
      PairedPrefix(ps, ds, es, f, n);
    }
  }

  /** The directives match up exactly when there is some pairing at all. */
  lemma MatchableIffPaired(ps: seq<Proto>, ds: seq<Dataset>)
    requires DistinctOffsets(ps, ds)
    ensures Matchable(ps, ds) <==> exists f :: Pairing(Anon(ps, Order(ps, ds)), Typeless(ds, Order(ps, ds)), f)
  {
    hide Order, Anon, Typeless, DistinctOffsets, Matchable, Pairing;
    if Matchable(ps, ds) {
      var f := MatchablePairs(ps, ds);
    }
    if f :| Pairing(Anon(ps, Order(ps, ds)), Typeless(ds, Order(ps, ds)), f) {
      PairedMatches(ps, ds, f);
    }
  }

  lemma PairedPrefix(ps: seq<Proto>, ds: seq<Dataset>, es: seq<Ent>, f: seq<nat>, n: nat)
    requires Increasing(es) && n <= |es| && Pairing(Anon(ps, es), Typeless(ds, es), f)
    ensures |Typeless(ds, es[..n])| <= |Anon(ps, es[..n])|
  {
    hide Anon, Typeless;
    var k := |Typeless(ds, es[..n])|;
    TypelessGrows(ds, es, n, |es|);
    assert es[..|es|] == es;
    var g := f[..k];
    forall i | 0 <= i < k
      ensures g[i] < |Anon(ps, es[..n])|
    {
      TakenInside(ps, ds, es, n, i, f[i]);
    }
    Pigeonhole(g, |Anon(ps, es[..n])|);
  }

  lemma {:induction false} AtLeast(f: seq<nat>, i: nat)
    requires InOrder(f) && i < |f|
    ensures f[i] >= i
  {
    if i > 0 {
      AtLeast(f, i - 1);
    }
  }

  lemma {:induction false} AtMost(f: seq<nat>, m: nat, i: nat)
    requires InOrder(f) && i < |f| && f[|f| - 1] < m
    ensures f[i] < m - (|f| - 1 - i)
    decreases |f| - i
  {
    if i < |f| - 1 {
      AtMost(f, m, i + 1);
    }
  }

  /** Of all pairings only i-th with i-th keeps the order. */
  lemma OneInOrder(a: seq<Ent>, t: seq<Ent>, f: seq<nat>)
    requires Pairing(a, t, f) && InOrder(f)
    ensures forall i :: 0 <= i < |f| ==> f[i] == i
  {
    forall i | 0 <= i < |f|
      ensures f[i] == i
    {
      AtLeast(f, i);
      AtMost(f, |a|, i);
    }
  }

  // ---- The algorithm -------------------------------------------------------

  /** es holds directives before the bound, in document order. */
  ghost predicate EntsBefore(es: seq<Ent>, ps: seq<Proto>, ds: seq<Dataset>, bound: int)
  {
    AllEnts(es, ps, ds) && forall i :: 0 <= i < |es| ==> es[i].off < bound
  }

  lemma EntsBeforeMore(es: seq<Ent>, e: Ent, ps: seq<Proto>, ds: seq<Dataset>, bound: int)
    requires EntsBefore(es, ps, ds, e.off) && IsEnt(e, ps, ds) && e.off < bound
    ensures EntsBefore(es + [e], ps, ds, bound) && EntsBefore(es, ps, ds, bound)
    ensures EntsBefore(es + [], ps, ds, bound)
  {
    hide IsEnt;
    assert es + [] == es;
  }

  lemma {:induction false} PartsAreEnts(ps: seq<Proto>, ds: seq<Dataset>, es: seq<Ent>, bound: int)
    requires EntsBefore(es, ps, ds, bound)
    ensures EntsBefore(Anon(ps, es), ps, ds, bound) && EntsBefore(Typeless(ds, es), ps, ds, bound)
  {
    hide IsEnt;
    if es == [] {
      hide EntsBefore;
    } else {
      var u, l := es[..|es| - 1], es[|es| - 1];
      assert EntsBefore(u, ps, ds, l.off) && IsEnt(l, ps, ds) && l.off < bound;
      hide EntsBefore, AllEnts;
      PartsAreEnts(ps, ds, u, l.off);
      EntsBeforeMore(Anon(ps, u), l, ps, ds, bound);
      EntsBeforeMore(Typeless(ds, u), l, ps, ds, bound);
    }
  }

  lemma EntsStep(ps: seq<Proto>, ds: seq<Dataset>, es: seq<Ent>, n: nat)
    requires n < |es|
    ensures Anon(ps, es[..n + 1])
         == if es[n].isProto && es[n].idx < |ps| && ps[es[n].idx].shape == Anonymous
            then Anon(ps, es[..n]) + [es[n]] else Anon(ps, es[..n])
    ensures Typeless(ds, es[..n + 1])
         == if !es[n].isProto && es[n].idx < |ds| && ds[es[n].idx].typ == ""
            then Typeless(ds, es[..n]) + [es[n]] else Typeless(ds, es[..n])
  {
    assert es[..n + 1][..n] == es[..n];
  }

  function Indices(es: seq<Ent>): (s: seq<nat>)
    ensures |s| == |es| && forall i :: 0 <= i < |es| ==> s[i] == es[i].idx
  {
    seq(|es|, i requires 0 <= i < |es| => es[i].idx)
  }

  lemma IndicesMore(a: seq<Ent>, e: Ent, n: nat)
    requires n <= |a|
    ensures Indices((a + [e])[n..]) == Indices(a[n..]) + [e.idx]
  {
    assert (a + [e])[n..] == a[n..] + [e];
  }

  lemma IndicesRest(a: seq<Ent>, n: nat)
    requires n < |a|
    ensures Indices(a[n..]) != [] && Indices(a[n..])[0] == a[n].idx
    ensures Indices(a[n..])[1..] == Indices(a[n + 1..])
  {
    assert a[n..][1..] == a[n + 1..];
  }

  lemma IndicesNone(a: seq<Ent>, n: nat)
    requires n <= |a| && Indices(a[n..]) != []
    ensures n < |a|
  {
  }

  lemma {:induction false} PositionOfPrefix(a: seq<Ent>, b: seq<Ent>, n: nat, k: nat)
    requires n <= |a| && a <= b
    ensures Position(b, n, k) == Position(a, n, k)
  {
    if n > 0 && a[n - 1].idx != k {
      PositionOfPrefix(a, b, n - 1, k);
    }
  }

  lemma ProtosPrefix(ps: seq<Proto>, a: seq<Ent>, b: seq<Ent>, n: nat, now: seq<Proto>)
    requires ProtosBound(ps, a, n, now) && a <= b
    ensures ProtosBound(ps, b, n, now)
  {
    forall k: nat
      ensures Position(b, n, k) == Position(a, n, k)
    {
      PositionOfPrefix(a, b, n, k);
    }
  }

  lemma ProtosStep(ps: seq<Proto>, a: seq<Ent>, n: nat, now: seq<Proto>)
    requires ProtosBound(ps, a, n, now) && n < |a| && a[n].idx < |ps|
    ensures ProtosBound(ps, a, n + 1, now[a[n].idx := NamedProto(now[a[n].idx], n)])
  {
    hide NameOf;
  }

  lemma DatasetsStep(ds: seq<Dataset>, t: seq<Ent>, e: Ent, now: seq<Dataset>)
    requires DatasetsBound(ds, t, |t|, now) && e.idx < |ds|
    ensures DatasetsBound(ds, t + [e], |t| + 1, now[e.idx := TypedDataset(now[e.idx], |t|)])
  {
    hide NameOf;
    forall k: nat
      ensures Position(t + [e], |t|, k) == Position(t, |t|, k)
    {
      PositionOfPrefix(t, t + [e], |t|, k);
    }
  }

  /** The state of the loop when the directives in done are behind it. */
  ghost predicate Underway(ps: seq<Proto>, ds: seq<Dataset>, done: seq<Ent>, counter: nat,
                           ps': seq<Proto>, ds': seq<Dataset>, pending: seq<nat>)
  {
    var a, t := Anon(ps, done), Typeless(ds, done);
    && counter == |t| <= |a|
    && pending == Indices(a[counter..])
    && ProtosBound(ps, a, counter, ps') && DatasetsBound(ds, t, counter, ds')
  }

  /** A directive not reached yet is as it was. */
  lemma Untouched(ps: seq<Proto>, ds: seq<Dataset>, es: seq<Ent>, n: nat, counter: nat,
                  ps': seq<Proto>, ds': seq<Dataset>, pending: seq<nat>)
    requires n < |es| && AllEnts(es, ps, ds)
    requires Underway(ps, ds, es[..n], counter, ps', ds', pending)
    ensures |ps'| == |ps| && |ds'| == |ds| && IsEnt(es[n], ps, ds)
    ensures if es[n].isProto then ps'[es[n].idx] == ps[es[n].idx] else ds'[es[n].idx] == ds[es[n].idx]
  {
    var e := es[n];
    PartsAreEnts(ps, ds, es[..n], e.off);
    var a, t := Anon(ps, es[..n]), Typeless(ds, es[..n]);
    hide Anon, Typeless, NamedProto, TypedDataset;
    assert IsEnt(e, ps, ds);
    if e.isProto {
      NoPosition(a, ps, ds, counter, e);
    } else {
      NoPosition(t, ps, ds, counter, e);
    }
  }

  lemma NoPosition(a: seq<Ent>, ps: seq<Proto>, ds: seq<Dataset>, n: nat, e: Ent)
    requires n <= |a| && AllEnts(a, ps, ds) && IsEnt(e, ps, ds)
    requires forall i :: 0 <= i < |a| ==> a[i].off < e.off && a[i].isProto == e.isProto
    ensures Position(a, n, e.idx) == None
  {
    hide Position;
    forall i | 0 <= i < n
      ensures a[i].idx != e.idx
    {
      assert IsEnt(a[i], ps, ds);
    }
  }

  /** Passing over a directive that is no typeless dataset. */
  lemma PassOver(ps: seq<Proto>, ds: seq<Dataset>, es: seq<Ent>, n: nat, counter: nat,
                 ps': seq<Proto>, ds': seq<Dataset>, pending: seq<nat>)
    requires n < |es| && Underway(ps, ds, es[..n], counter, ps', ds', pending) && IsEnt(es[n], ps, ds)
    requires es[n].isProto || ds[es[n].idx].typ != ""
    ensures Underway(ps, ds, es[..n + 1], counter, ps', ds',
                     if es[n].isProto && ps[es[n].idx].shape == Anonymous then pending + [es[n].idx] else pending)
  {
    EntsStep(ps, ds, es, n);
    hide Anon, Typeless, ProtosBound, DatasetsBound, Indices;
    var a, b := Anon(ps, es[..n]), Anon(ps, es[..n + 1]);
    ProtosPrefix(ps, a, b, counter, ps');
    IndicesMore(a, es[n], counter);
  }

  lemma BoundLengths(ps: seq<Proto>, ds: seq<Dataset>, a: seq<Ent>, t: seq<Ent>, n: nat,
                     ps': seq<Proto>, ds': seq<Dataset>)
    requires ProtosBound(ps, a, n, ps') && DatasetsBound(ds, t, n, ds')
    ensures |ps'| == |ps| && |ds'| == |ds|
  {
  }

  /** Binding a typeless dataset to the first pending proto. */
  lemma BindOne(ps: seq<Proto>, ds: seq<Dataset>, es: seq<Ent>, n: nat, counter: nat,
                ps': seq<Proto>, ds': seq<Dataset>, pending: seq<nat>)
    requires n < |es| && Underway(ps, ds, es[..n], counter, ps', ds', pending) && IsEnt(es[n], ps, ds)
    requires AllEnts(es, ps, ds) && |pending| > 0
    requires !es[n].isProto && ds[es[n].idx].typ == ""
    ensures |ps'| == |ps| && |ds'| == |ds| && pending[0] < |ps| && es[n].idx < |ds|
    ensures Underway(ps, ds, es[..n + 1], counter + 1,
                     ps'[pending[0] := NamedProto(ps'[pending[0]], counter)],
                     ds'[es[n].idx := TypedDataset(ds'[es[n].idx], counter)], pending[1..])
  {
    EntsStep(ps, ds, es, n);
    var a, t := Anon(ps, es[..n]), Typeless(ds, es[..n]);
    IndicesNone(a, counter);
    IndicesRest(a, counter);
    BoundLengths(ps, ds, a, t, counter, ps', ds');
    hide AllEnts, ProtosBound, DatasetsBound, NamedProto, TypedDataset, Anon, Typeless, Indices;
    ProtosStep(ps, a, counter, ps');
    DatasetsStep(ds, t, es[n], ds');
  }

  /** The i-th anonymous proto and the i-th typeless dataset have the i-th name, and
      no other directive is changed. */
  ghost predicate Bound(ps: seq<Proto>, ds: seq<Dataset>, a: seq<Ent>, t: seq<Ent>,
                        ps': seq<Proto>, ds': seq<Dataset>)
  {
    && |a| == |t| && |ps'| == |ps| && |ds'| == |ds|
    && (forall i :: 0 <= i < |a| ==> a[i].idx < |ps| && ps'[a[i].idx] == NamedProto(ps[a[i].idx], i))
    && (forall i :: 0 <= i < |t| ==> t[i].idx < |ds| && ds'[t[i].idx] == TypedDataset(ds[t[i].idx], i))
    && (forall k :: 0 <= k < |ps| && ps[k].shape != Anonymous ==> ps'[k] == ps[k])
    && (forall k :: 0 <= k < |ds| && ds[k].typ != "" ==> ds'[k] == ds[k])
  }

  lemma AllBound(ps: seq<Proto>, ds: seq<Dataset>, es: seq<Ent>, counter: nat,
                 ps': seq<Proto>, ds': seq<Dataset>, pending: seq<nat>)
    requires AllEnts(es, ps, ds) && Underway(ps, ds, es, counter, ps', ds', pending) && pending == []
    ensures Bound(ps, ds, Anon(ps, es), Typeless(ds, es), ps', ds')
  {
    PartsAreEnts(ps, ds, es, if es == [] then 0 else es[|es| - 1].off + 1);
    var a, t := Anon(ps, es), Typeless(ds, es);
    hide Anon, Typeless, NamedProto, TypedDataset, AllEnts, Position, ProtosBound, DatasetsBound;
    NothingPends(ps, ds, es, counter, ps', ds', pending);
    hide Underway;
    OwnPosition(a, ps, ds, true);
    OwnPosition(t, ps, ds, false);
    ProtosAllBound(ps, a, ps');
    DatasetsAllBound(ds, t, ds');
  }

  lemma NothingPends(ps: seq<Proto>, ds: seq<Dataset>, es: seq<Ent>, counter: nat,
                     ps': seq<Proto>, ds': seq<Dataset>, pending: seq<nat>)
    requires Underway(ps, ds, es, counter, ps', ds', pending) && pending == []
    ensures counter == |Anon(ps, es)| == |Typeless(ds, es)|
    ensures ProtosBound(ps, Anon(ps, es), counter, ps') && DatasetsBound(ds, Typeless(ds, es), counter, ds')
  {
    hide Anon, Typeless, ProtosBound, DatasetsBound;
    assert |Anon(ps, es)[counter..]| == 0;
  }

  lemma ProtosAllBound(ps: seq<Proto>, a: seq<Ent>, now: seq<Proto>)
    requires ProtosBound(ps, a, |a|, now)
    requires forall i :: 0 <= i < |a| ==> a[i].idx < |ps| && ps[a[i].idx].shape == Anonymous
    requires forall i :: 0 <= i < |a| ==> Position(a, |a|, a[i].idx) == Some(i)
    ensures |now| == |ps|
    ensures forall i :: 0 <= i < |a| ==> now[a[i].idx] == NamedProto(ps[a[i].idx], i)
    ensures forall k :: 0 <= k < |ps| && ps[k].shape != Anonymous ==> now[k] == ps[k]
  {
    hide Position, NamedProto;
  }

  lemma DatasetsAllBound(ds: seq<Dataset>, t: seq<Ent>, now: seq<Dataset>)
    requires DatasetsBound(ds, t, |t|, now)
    requires forall i :: 0 <= i < |t| ==> t[i].idx < |ds| && ds[t[i].idx].typ == ""
    requires forall i :: 0 <= i < |t| ==> Position(t, |t|, t[i].idx) == Some(i)
    ensures |now| == |ds|
    ensures forall i :: 0 <= i < |t| ==> now[t[i].idx] == TypedDataset(ds[t[i].idx], i)
    ensures forall k :: 0 <= k < |ds| && ds[k].typ != "" ==> now[k] == ds[k]
  {
    hide Position, TypedDataset;
  }

  lemma OwnPosition(a: seq<Ent>, ps: seq<Proto>, ds: seq<Dataset>, isProto: bool)
    requires AllEnts(a, ps, ds) && forall i :: 0 <= i < |a| ==> a[i].isProto == isProto
    ensures forall i :: 0 <= i < |a| ==> Position(a, |a|, a[i].idx) == Some(i)
  {
    hide AllEnts;
    forall i | 0 <= i < |a|
      ensures Position(a, |a|, a[i].idx) == Some(i)
    {
      SameIdx(a, ps, ds, i, Position(a, |a|, a[i].idx).value);
    }
  }

  lemma SameIdx(a: seq<Ent>, ps: seq<Proto>, ds: seq<Dataset>, i: nat, j: nat)
    requires AllEnts(a, ps, ds) && i < |a| && j < |a| && a[i].idx == a[j].idx && a[i].isProto == a[j].isProto
    ensures i == j
  {
    assert IsEnt(a[i], ps, ds) && IsEnt(a[j], ps, ds);
  }

  /** Binds the anonymous protos to the typeless datasets, i-th to i-th, and fails
      exactly when they do not match up. */
  method ResolveAnonymousProtos(doc: Doc) returns (err: Option<Error>)
    requires DistinctOffsets(doc.protos, doc.datasets)
    modifies doc
    ensures err.None? <==> Matchable(old(doc.protos), old(doc.datasets))
    ensures err.Some? ==>
              var ps, ds := old(doc.protos), old(doc.datasets); ErrorIs(ps, ds, Order(ps, ds), err.value)
    ensures err.None? ==>
              var ps, ds := old(doc.protos), old(doc.datasets);
              Bound(ps, ds, Anon(ps, Order(ps, ds)), Typeless(ds, Order(ps, ds)), doc.protos, doc.datasets)
  {
    hide StableSort, Anon, Typeless, Bound, NameOf, DistinctOffsets, Underway;
    ghost var ps, ds := doc.protos, doc.datasets;
    var ents := Entries(doc);
    ents := StableSort(ents, OffsetOf);
    OrderAllEnts(ps, ds);
    var pending: seq<nat> := [];
    var counter := 0;
    Started(ps, ds, ents);
    hide AllEnts;
    for n := 0 to |ents|
      invariant Underway(ps, ds, ents[..n], counter, doc.protos, doc.datasets, pending)
      invariant forall m :: 0 <= m <= n ==> |Typeless(ds, ents[..m])| <= |Anon(ps, ents[..m])|
    {
      var e := ents[n];
      Untouched(ps, ds, ents, n, counter, doc.protos, doc.datasets, pending);
      if !e.isProto && doc.datasets[e.idx].typ == "" {
        EntsStep(ps, ds, ents, n);
        PendingIs(ps, ds, ents, n, counter, doc.protos, doc.datasets, pending);
        if |pending| == 0 {
          assert |Typeless(ds, ents[..n + 1])| > |Anon(ps, ents[..n + 1])|;
          assert FirstShort(ps, ds, ents, n);
          return Some(NoProtoBefore(e.idx));
        }
        BindOne(ps, ds, ents, n, counter, doc.protos, doc.datasets, pending);
        var protoIdx := pending[0];
        pending := pending[1..];
        var name := NameOf(counter);
        doc.protos := doc.protos[protoIdx := doc.protos[protoIdx].(shape := Named, typeName := name)];
        doc.datasets := doc.datasets[e.idx := doc.datasets[e.idx].(typ := name)];
        counter := counter + 1;
        CountsStay(ps, ds, ents, n, counter, doc.protos, doc.datasets, pending);
      } else {
        PassOver(ps, ds, ents, n, counter, doc.protos, doc.datasets, pending);
        if e.isProto && doc.protos[e.idx].shape == Anonymous {
          pending := pending + [e.idx];
        }
        CountsStay(ps, ds, ents, n, counter, doc.protos, doc.datasets, pending);
      }
    }
    assert ents[..|ents|] == ents;
    PendingIs(ps, ds, ents, |ents|, counter, doc.protos, doc.datasets, pending);
    if |pending| > 0 {
      FirstPending(ps, ds, ents, counter, doc.protos, doc.datasets, pending);
      return Some(NoDatasetAfter(pending[0]));
    }
    AllBound(ps, ds, ents, counter, doc.protos, doc.datasets, pending);
    return None;
  }

  lemma PendingIs(ps: seq<Proto>, ds: seq<Dataset>, es: seq<Ent>, n: nat, counter: nat,
                  ps': seq<Proto>, ds': seq<Dataset>, pending: seq<nat>)
    requires n <= |es| && Underway(ps, ds, es[..n], counter, ps', ds', pending)
    ensures counter == |Typeless(ds, es[..n])| && counter + |pending| == |Anon(ps, es[..n])|
  {
    hide Anon, Typeless, ProtosBound, DatasetsBound;
  }

  lemma FirstPending(ps: seq<Proto>, ds: seq<Dataset>, es: seq<Ent>, counter: nat,
                     ps': seq<Proto>, ds': seq<Dataset>, pending: seq<nat>)
    requires Underway(ps, ds, es, counter, ps', ds', pending) && pending != []
    ensures |Typeless(ds, es)| < |Anon(ps, es)| && Anon(ps, es)[|Typeless(ds, es)|].idx == pending[0]
  {
    hide Anon, Typeless, ProtosBound, DatasetsBound;
    assert |Anon(ps, es)[counter..]| == |pending|;
  }

  lemma CountsStay(ps: seq<Proto>, ds: seq<Dataset>, es: seq<Ent>, n: nat, counter: nat,
                   ps': seq<Proto>, ds': seq<Dataset>, pending: seq<nat>)
    requires n < |es| && Underway(ps, ds, es[..n + 1], counter, ps', ds', pending)
    ensures |Typeless(ds, es[..n + 1])| <= |Anon(ps, es[..n + 1])|
  {
    hide Anon, Typeless, ProtosBound, DatasetsBound;
  }

  lemma Started(ps: seq<Proto>, ds: seq<Dataset>, es: seq<Ent>)
    ensures Underway(ps, ds, es[..0], 0, ps, ds, [])
    ensures |Typeless(ds, es[..0])| == 0
  {
  }

  method Entries(doc: Doc) returns (ents: seq<Ent>)
    ensures ents == ProtoEnts(doc.protos) + DatasetEnts(doc.datasets)
  {
    ents := [];
    for i := 0 to |doc.protos|
      invariant ents == ProtoEnts(doc.protos[..i])
    {
      ents := ents + [Ent(doc.protos[i].offset, true, i)];
    }
    assert doc.protos[..|doc.protos|] == doc.protos;
    for i := 0 to |doc.datasets|
      invariant ents == ProtoEnts(doc.protos) + DatasetEnts(doc.datasets[..i])
    {
      ents := ents + [Ent(doc.datasets[i].offset, false, i)];
    }
    assert doc.datasets[..|doc.datasets|] == doc.datasets;
  }
}
