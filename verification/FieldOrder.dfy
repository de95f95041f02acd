/** Rewriting a message with its field records in field-number order, at every
    level: the tree of records under message-typed fields, its normal form, and
    which messages share one. */
module FieldOrder {
  import opened Options
  import opened Seqs
  import opened Sorting
  import opened Wire

  /** For each message type, its message-typed fields and their types. */
  type Schema = map<string, map<nat, string>>

  /** The message type of a record's payload, when its field has one. */
  function SubType(schema: Schema, msg: string, r: Record): Option<string>
  {
    if r.typ == LEN && msg in schema && r.num in schema[msg] then Some(schema[msg][r.num]) else None
  }

  /** A record kept as it is, or one whose payload is a message: the bytes before
      the payload and the records in it. */
  datatype Rec =
    | Leaf(rec: Record)
    | Node(num: nat, head: bytes, kids: seq<Rec>)
  {
    function Number(): nat
    {
      if Leaf? then rec.num else num
    }
  }

  function RecBytes(r: Rec): bytes
  {
    match r
    case Leaf(rec) => rec.text
    case Node(_, head, kids) => head + Bytes(kids)
  }

  function Bytes(t: seq<Rec>): bytes
  {
    if t == [] then [] else RecBytes(t[0]) + Bytes(t[1..])
  }

  /** The records of data, those of message-typed fields taken apart in turn. */
  function Decode(data: bytes, schema: Schema, msg: string): (r: Option<seq<Rec>>)
    decreases |data|
  {
    if data == [] then Some([])
    else
      match NextRecord(data)
      case None => None
      case Some(rec) =>
        match DecodeRecord(rec, |data|, schema, msg)
        case None => None
        case Some(first) =>
          match Decode(data[|rec.text|..], schema, msg)
          case None => None
          case Some(rest) => Some([first] + rest)
  }

  function DecodeRecord(rec: Record, bound: nat, schema: Schema, msg: string): (r: Option<Rec>)
    requires 0 < |rec.text| <= bound && rec.tagLen > 0
    ensures r.Some? ==> r.value.Number() == rec.num
    decreases bound, 0
  {
    match SubType(schema, msg, rec)
    case None => Some(Leaf(rec))
    case Some(sub) =>
      match Decode(rec.Payload(), schema, sub)
      case None => None
      case Some(kids) => Some(Node(rec.num, rec.text[..|rec.text| - |rec.Payload()|], kids))
  }

  // ---- The normal form -----------------------------------------------------

  function NumberOf(r: Rec): int
  {
    r.Number()
  }

  function CanonRec(r: Rec): (c: Rec)
    ensures c.Number() == r.Number()
    decreases r, 0
  {
    match r
    case Leaf(_) => r
    case Node(num, head, kids) => Node(num, head, Canon(kids))
  }

  function CanonAll(t: seq<Rec>): (c: seq<Rec>)
    ensures |c| == |t|
    ensures forall i :: 0 <= i < |t| ==> c[i] == CanonRec(t[i])
    decreases t, 0
  {
    if t == [] then [] else CanonAll(t[..|t| - 1]) + [CanonRec(t[|t| - 1])]
  }

  /** The normal form of a message's records. */
  function Canon(t: seq<Rec>): seq<Rec>
    decreases t, 1
  {
    StableSort(CanonAll(t), NumberOf)
  }

  /** What FieldOrder returns, None for an error. */
  function Ordered(data: bytes, schema: Schema, msg: string): Option<bytes>
  {
    match Decode(data, schema, msg)
    case None => None
    case Some(t) => Some(Bytes(Canon(t)))
  }

  // ---- The records with one number -----------------------------------------

  /** The records numbered n, in order. */
  function Select(t: seq<Rec>, n: nat): (s: seq<Rec>)
    ensures forall r :: r in s ==> r in t && r.Number() == n
  {
    if t == [] then []
    else Select(t[..|t| - 1], n) + (if t[|t| - 1].Number() == n then [t[|t| - 1]] else [])
  }

  lemma SelectSplit(t: seq<Rec>, n: nat)
    requires t != []
    ensures var l := t[|t| - 1];
            Select(t, n) == Select(t[..|t| - 1], n) + (if l.Number() == n then [l] else [])
  {
  }

  lemma {:induction false} SelectOfConcat(s: seq<Rec>, t: seq<Rec>, n: nat)
    ensures Select(s + t, n) == Select(s, n) + Select(t, n)
  {
    if t == [] {
      assert s + t == s;
    } else {
      var u := t[..|t| - 1];
      SelectOfConcat(s, u, n);
      assert (s + t)[..|s + t| - 1] == s + u;
      SelectSplit(s + t, n);
      SelectSplit(t, n);
      hide Select;
      Associate(Select(s, n), Select(u, n), if t[|t| - 1].Number() == n then [t[|t| - 1]] else []);
    }
  }

  lemma SelectOfOne(r: Rec, n: nat)
    ensures Select([r], n) == if r.Number() == n then [r] else []
  {
    assert [r][..0] == [];
  }

  /** Of two last records of different numbers, the order does not matter. */
  lemma SelectOfTail(u: seq<Rec>, l: Rec, r: Rec, n: nat)
    requires l.Number() != r.Number()
    ensures Select(u + [l] + [r], n) == Select(u + [r], n) + Select([l], n)
  {
    hide Select;
    SelectOfConcat(u + [l], [r], n);
    SelectOfConcat(u, [l], n);
    SelectOfConcat(u, [r], n);
    SelectOfOne(r, n);
    SelectOfOne(l, n);
    var a, b, c := Select(u, n), Select([l], n), Select([r], n);
    Swapped(a, b, c);
  }

  lemma Swapped<T>(a: seq<T>, b: seq<T>, c: seq<T>)
    requires b == [] || c == []
    ensures a + b + c == a + c + b
  {
  }

  lemma {:induction false} SelectOfInsert(s: seq<Rec>, r: Rec, n: nat)
    ensures Select(Insert(s, r, NumberOf), n) == Select(s + [r], n)
  {
    hide Select;
    if s != [] && s[|s| - 1].Number() > r.Number() {
      var u, l := s[..|s| - 1], s[|s| - 1];
      assert Insert(s, r, NumberOf) == Insert(u, r, NumberOf) + [l];
      hide Insert;
      SelectOfInsert(u, r, n);
      assert s == u + [l];
      SelectOfConcat(Insert(u, r, NumberOf), [l], n);
      SelectOfTail(u, l, r, n);
    }
  }

  lemma {:induction false} SelectOfSort(s: seq<Rec>, n: nat)
    ensures Select(StableSort(s, NumberOf), n) == Select(s, n)
  {
    hide Select, Insert;
    if s != [] {
      var u, l := s[..|s| - 1], s[|s| - 1];
      assert s == u + [l];
      SelectOfSort(u, n);
      SelectOfInsert(StableSort(u, NumberOf), l, n);
      SelectOfConcat(StableSort(u, NumberOf), [l], n);
      SelectOfConcat(u, [l], n);
    }
  }

  lemma {:induction false} SelectOfCanonAll(t: seq<Rec>, n: nat)
    ensures Select(CanonAll(t), n) == CanonAll(Select(t, n))
  {
    if t != [] {
      var u, l := t[..|t| - 1], t[|t| - 1];
      SelectOfCanonAll(u, n);
      assert CanonAll(t)[..|t| - 1] == CanonAll(u);
      if l.Number() == n {
        assert Select(t, n)[..|Select(t, n)| - 1] == Select(u, n);
      }
    }
  }

  /** The normal form keeps each field number's records in order. */
  lemma SelectOfCanon(t: seq<Rec>, n: nat)
    ensures Select(Canon(t), n) == CanonAll(Select(t, n))
  {
    SelectOfSort(CanonAll(t), n);
    SelectOfCanonAll(t, n);
  }

  predicate Sorted(t: seq<Rec>)
  {
    forall i, j :: 0 <= i < j < |t| ==> t[i].Number() <= t[j].Number()
  }

  lemma SortSorted(s: seq<Rec>)
    ensures Sorted(StableSort(s, NumberOf))
  {
    SortSorts(s, NumberOf);
    hide StableSort;
    var t := StableSort(s, NumberOf);
    forall i, j | 0 <= i < j < |t|
      ensures t[i].Number() <= t[j].Number()
    {
      assert NumberOf(t[i]) <= NumberOf(t[j]);
    }
  }

  /** A record of t's largest number lies in s, when s and t agree on it. */
  lemma LastNumber(s: seq<Rec>, t: seq<Rec>)
    requires t != [] && Select(s, t[|t| - 1].Number()) == Select(t, t[|t| - 1].Number())
    requires Sorted(s)
    ensures s != [] && t[|t| - 1].Number() <= s[|s| - 1].Number()
  {
    var l := t[|t| - 1];
    SelectSplit(t, l.Number());
    var sel := Select(t, l.Number());
    assert sel[|sel| - 1] == l;
    assert l in Select(s, l.Number());
  }

  /** A sorted list is determined by its records of each number. */
  lemma {:induction false} SortedDetermined(s: seq<Rec>, t: seq<Rec>)
    requires Sorted(s) && Sorted(t)
    requires forall n: nat :: Select(s, n) == Select(t, n)
    ensures s == t
  {
    if s != [] || t != [] {
      hide Select, Sorted;
      BothOrNeither(s, t);
      SameEnds(s, t);
      var u, w := s[..|s| - 1], t[..|t| - 1];
      forall n: nat
        ensures Select(u, n) == Select(w, n)
      {
        SelectDropLast(s, t, n);
      }
      SortedInit(s);
      SortedInit(t);
      SortedDetermined(u, w);
      assert s == u + [s[|s| - 1]] && t == w + [t[|t| - 1]];
    }
  }

  lemma BothOrNeither(s: seq<Rec>, t: seq<Rec>)
    requires Sorted(s) && Sorted(t) && (s != [] || t != [])
    requires forall n: nat :: Select(s, n) == Select(t, n)
    ensures s != [] && t != [] && s[|s| - 1].Number() == t[|t| - 1].Number()
  {
    hide Select, Sorted;
    if t != [] {
      LastNumber(s, t);
    }
    LastNumber(t, s);
  }

  lemma SortedInit(s: seq<Rec>)
    requires Sorted(s) && s != []
    ensures Sorted(s[..|s| - 1])
  {
  }

  lemma SelectDropLast(s: seq<Rec>, t: seq<Rec>, n: nat)
    requires s != [] && t != [] && s[|s| - 1] == t[|t| - 1] && Select(s, n) == Select(t, n)
    ensures Select(s[..|s| - 1], n) == Select(t[..|t| - 1], n)
  {
    SelectSplit(s, n);
    SelectSplit(t, n);
    var a, b, l := Select(s[..|s| - 1], n), Select(t[..|t| - 1], n), s[|s| - 1];
    hide Select;
    if l.Number() == n {
      assert (a + [l])[..|a|] == a && (b + [l])[..|b|] == b;
    } else {
      assert a + [] == a && b + [] == b;
    }
  }

  lemma SameEnds(s: seq<Rec>, t: seq<Rec>)
    requires s != [] && t != [] && s[|s| - 1].Number() == t[|t| - 1].Number()
    requires Select(s, s[|s| - 1].Number()) == Select(t, s[|s| - 1].Number())
    ensures s[|s| - 1] == t[|t| - 1]
  {
    var n := s[|s| - 1].Number();
    SelectSplit(s, n);
    SelectSplit(t, n);
    var sel := Select(s, n);
    assert sel[|sel| - 1] == s[|s| - 1];
  }

  // ---- Messages with one normal form ---------------------------------------

  /** s and t hold the same records in the same order for every field number, the
      payloads of message-typed fields again up to that difference. */
  ghost predicate Same(s: seq<Rec>, t: seq<Rec>)
    decreases s
  {
    forall n: nat ::
      && |Select(s, n)| == |Select(t, n)|
      && forall i :: 0 <= i < |Select(s, n)| ==>
           Select(s, n)[i] in s && SameRec(Select(s, n)[i], Select(t, n)[i])
  }

  ghost predicate SameRec(r: Rec, q: Rec)
    decreases r
  {
    match r
    case Leaf(_) => r == q
    case Node(num, head, kids) => q.Node? && q.num == num && q.head == head && Same(kids, q.kids)
  }

  /** Two lists of records have one normal form exactly when they hold the same
      records in the same order for every field number, at every level. */
  lemma {:induction false} CanonEqual(s: seq<Rec>, t: seq<Rec>)
    ensures Canon(s) == Canon(t) <==> Same(s, t)
    decreases s, 1
  {
    if Canon(s) == Canon(t) {
      forall n: nat
        ensures |Select(s, n)| == |Select(t, n)|
        ensures forall i :: 0 <= i < |Select(s, n)| ==>
                  Select(s, n)[i] in s && SameRec(Select(s, n)[i], Select(t, n)[i])
      {
        SelectOfCanon(s, n);
        SelectOfCanon(t, n);
        var a, b := Select(s, n), Select(t, n);
        assert |CanonAll(a)| == |a| && |CanonAll(b)| == |b|;
        forall i | 0 <= i < |a|
          ensures a[i] in s && SameRec(a[i], b[i])
        {
          assert CanonAll(a)[i] == CanonAll(b)[i];
          assert a[i] in s;
          CanonRecEqual(a[i], b[i]);
        }
      }
    }
    if Same(s, t) {
      forall n: nat
        ensures Select(Canon(s), n) == Select(Canon(t), n)
      {
        SelectOfCanon(s, n);
        SelectOfCanon(t, n);
        var a, b := Select(s, n), Select(t, n);
        forall i | 0 <= i < |a|
          ensures CanonAll(a)[i] == CanonAll(b)[i]
        {
          assert a[i] in s && SameRec(a[i], b[i]);
          CanonRecEqual(a[i], b[i]);
        }
      }
      SortSorted(CanonAll(s));
      SortSorted(CanonAll(t));
      SortedDetermined(Canon(s), Canon(t));
    }
  }

  lemma {:induction false} CanonRecEqual(r: Rec, q: Rec)
    ensures CanonRec(r) == CanonRec(q) <==> SameRec(r, q)
    decreases r
  {
    if r.Node? && q.Node? {
      CanonEqual(r.kids, q.kids);
    }
  }

  lemma SameIsEquivalence(s: seq<Rec>, t: seq<Rec>, u: seq<Rec>)
    ensures Same(s, s)
    ensures Same(s, t) <==> Same(t, s)
    ensures Same(s, t) && Same(t, u) ==> Same(s, u)
  {
    CanonEqual(s, s);
    CanonEqual(s, t);
    CanonEqual(t, s);
    CanonEqual(t, u);
    CanonEqual(s, u);
  }

  lemma {:induction false} CanonSame(t: seq<Rec>)
    ensures Same(t, Canon(t))
    ensures Canon(Canon(t)) == Canon(t)
    decreases t
  {
    forall n: nat
      ensures |Select(t, n)| == |Select(Canon(t), n)|
      ensures forall i :: 0 <= i < |Select(t, n)| ==>
                Select(t, n)[i] in t && SameRec(Select(t, n)[i], Select(Canon(t), n)[i])
    {
      SelectOfCanon(t, n);
      var a := Select(t, n);
      forall i | 0 <= i < |a|
        ensures a[i] in t && SameRec(a[i], CanonAll(a)[i])
      {
        assert a[i] in t;
        if a[i].Node? {
          CanonSame(a[i].kids);
        }
      }
    }
    CanonEqual(t, Canon(t));
  }

  // ---- Trees and bytes -----------------------------------------------------

  /** head is a length-delimited tag of number num and the length n. */
  ghost predicate HeadOk(head: bytes, num: nat, n: nat)
  {
    var t := ConsumeTag(head);
    && t.Some? && t.value.value == Tag(num, LEN)
    && ConsumeVarint(head[t.value.len..]) == Some(Taken(n, |head| - t.value.len))
  }

  /** t is what some message of type msg decodes to. */
  ghost predicate Valid(t: seq<Rec>, schema: Schema, msg: string)
    decreases t
  {
    forall i :: 0 <= i < |t| ==> ValidRec(t[i], schema, msg)
  }

  ghost predicate ValidRec(r: Rec, schema: Schema, msg: string)
    decreases r
  {
    match r
    case Leaf(rec) => Atomic(rec) && SubType(schema, msg, rec) == None
    case Node(num, head, kids) =>
      && msg in schema && num in schema[msg]
      && HeadOk(head, num, |Bytes(kids)|)
      && Valid(kids, schema, schema[msg][num])
  }

  /** A length-delimited record is its head and its payload. */
  lemma PayloadSplit(r: Record)
    requires Atomic(r) && r.typ == LEN
    ensures |r.Payload()| < |r.text|
    ensures var head := r.text[..|r.text| - |r.Payload()|];
            r.text == head + r.Payload() && HeadOk(head, r.num, |r.Payload()|)
  {
    hide VarintWithin;
    var t := ConsumeTag(r.text).value;
    var v := ConsumeVarint(r.Body()).value;
    var p := r.Payload();
    var h := t.len + v.len;
    assert |r.text| == h + |p|;
    var head := r.text[..h];
    assert r.text == head + p;
    TagLocal(r.text, r.text[t.len..h]);
    assert head == r.text[..t.len] + r.text[t.len..h];
    VarintLocal(r.Body(), 10, []);
    assert head[t.len..] == r.Body()[..v.len] + [];
  }

  /** A head followed by a payload of its length is a record. */
  lemma HeadRecord(head: bytes, num: nat, p: bytes)
    requires HeadOk(head, num, |p|)
    ensures var r := Record(num, LEN, ConsumeTag(head).value.len, head + p);
            Atomic(r) && r.Payload() == p
  {
    hide VarintWithin;
    var t := ConsumeTag(head).value;
    var b := head + p;
    var v := head[t.len..];
    TagLocal(head, v + p);
    assert b == head[..t.len] + (v + p);
    VarintLocal(v, 10, p);
    assert v[..|v|] == v;
    assert b[t.len..] == v + p;
    assert (v + p)[|v|..|v| + |p|] == p;
    assert ConsumeBytes(v + p) == Some(Taken(p, |v + p|));
    assert b[..|b|] == b;
  }

  lemma {:induction false} DecodeValid(data: bytes, schema: Schema, msg: string)
    requires Decode(data, schema, msg).Some?
    ensures Bytes(Decode(data, schema, msg).value) == data
    ensures Valid(Decode(data, schema, msg).value, schema, msg)
    decreases |data|, 1
  {
    hide NextRecord, SubType;
    if data != [] {
      var rec := NextRecord(data).value;
      NextIsAtomic(data);
      DecodeRecordValid(rec, |data|, schema, msg);
      DecodeValid(data[|rec.text|..], schema, msg);
    }
  }

  lemma {:induction false} DecodeRecordValid(rec: Record, bound: nat, schema: Schema, msg: string)
    requires Atomic(rec) && 0 < |rec.text| <= bound && rec.tagLen > 0
    requires DecodeRecord(rec, bound, schema, msg).Some?
    ensures var r := DecodeRecord(rec, bound, schema, msg).value;
            RecBytes(r) == rec.text && ValidRec(r, schema, msg)
    decreases bound, 0
  {
    hide Atomic, HeadOk, Decode, Bytes, Valid;
    if SubType(schema, msg, rec).Some? {
      PayloadSplit(rec);
      var p := rec.Payload();
      hide Record.Payload;
      DecodeValid(p, schema, schema[msg][rec.num]);
    }
  }

  lemma {:induction false} DecodeOfBytes(t: seq<Rec>, schema: Schema, msg: string)
    requires Valid(t, schema, msg)
    ensures Decode(Bytes(t), schema, msg) == Some(t)
    decreases t
  {
    hide NextRecord, SubType;
    if t != [] {
      var rec := Flat(t[0]);
      var rest := Bytes(t[1..]);
      FlatDecodes(t[0], |Bytes(t)|, schema, msg);
      NextOfAtomic(rec, rest);
      assert Bytes(t)[|rec.text|..] == rest;
      DecodeOfBytes(t[1..], schema, msg);
      assert [t[0]] + t[1..] == t;
    }
  }

  /** r as one record. */
  ghost function Flat(r: Rec): Record
  {
    match r
    case Leaf(rec) => rec
    case Node(num, head, kids) =>
      Record(num, LEN, if ConsumeTag(head).Some? then ConsumeTag(head).value.len else 0, RecBytes(r))
  }

  lemma FlatIs(r: Rec, schema: Schema, msg: string)
    requires ValidRec(r, schema, msg)
    ensures Atomic(Flat(r)) && Flat(r).text == RecBytes(r) && Flat(r).num == r.Number()
    ensures 0 < Flat(r).tagLen <= |RecBytes(r)|
    ensures r.Node? ==> Flat(r).Payload() == Bytes(r.kids) && Flat(r).typ == LEN
  {
    hide ConsumeTag, ValueLen;
    if r.Node? {
      HeadRecord(r.head, r.num, Bytes(r.kids));
    }
  }

  lemma {:induction false} FlatDecodes(r: Rec, bound: nat, schema: Schema, msg: string)
    requires ValidRec(r, schema, msg) && |RecBytes(r)| <= bound
    ensures Atomic(Flat(r)) && Flat(r).text == RecBytes(r)
    ensures 0 < Flat(r).tagLen <= |RecBytes(r)|
    ensures DecodeRecord(Flat(r), bound, schema, msg) == Some(r)
    decreases r
  {
    hide NextRecord, HeadOk;
    FlatIs(r, schema, msg);
    if r.Node? {
      DecodeOfBytes(r.kids, schema, schema[msg][r.num]);
      assert RecBytes(r)[..|r.head|] == r.head;
    }
  }

  // ---- The normal form as bytes --------------------------------------------

  lemma {:induction false} BytesOfConcat(s: seq<Rec>, t: seq<Rec>)
    ensures Bytes(s + t) == Bytes(s) + Bytes(t)
  {
    hide RecBytes;
    if s == [] {
      assert s + t == t;
    } else {
      BytesOfConcat(s[1..], t);
      assert (s + t)[1..] == s[1..] + t;
      Associate(RecBytes(s[0]), Bytes(s[1..]), Bytes(t));
    }
  }

  lemma BytesOfLast(t: seq<Rec>)
    requires t != []
    ensures Bytes(t) == Bytes(t[..|t| - 1]) + RecBytes(t[|t| - 1])
  {
    var u, l := t[..|t| - 1], t[|t| - 1];
    hide RecBytes;
    BytesOfConcat(u, [l]);
    assert t == u + [l];
    assert [l][1..] == [];
    assert Bytes([l]) == RecBytes(l) + Bytes([]);
  }

  lemma {:induction false} InsertKeeps(s: seq<Rec>, r: Rec)
    ensures |Bytes(Insert(s, r, NumberOf))| == |Bytes(s)| + |RecBytes(r)|
    ensures forall x :: x in Insert(s, r, NumberOf) ==> x in s || x == r
  {
    var t := Insert(s, r, NumberOf);
    BytesOfLast(t);
    if s == [] || s[|s| - 1].Number() <= r.Number() {
      assert t[..|t| - 1] == s;
    } else {
      InsertKeeps(s[..|s| - 1], r);
      BytesOfLast(s);
      assert t[..|t| - 1] == Insert(s[..|s| - 1], r, NumberOf);
    }
  }

  lemma {:induction false} SortKeeps(s: seq<Rec>)
    ensures |Bytes(StableSort(s, NumberOf))| == |Bytes(s)|
    ensures forall x :: x in StableSort(s, NumberOf) ==> x in s
  {
    if s != [] {
      SortKeeps(s[..|s| - 1]);
      InsertKeeps(StableSort(s[..|s| - 1], NumberOf), s[|s| - 1]);
      BytesOfLast(s);
    }
  }

  /** The normal form takes as many bytes, so every length prefix still holds. */
  lemma {:induction false} CanonLength(t: seq<Rec>)
    ensures |Bytes(Canon(t))| == |Bytes(CanonAll(t))| == |Bytes(t)|
    decreases t
  {
    SortKeeps(CanonAll(t));
    if t != [] {
      var u, l := t[..|t| - 1], t[|t| - 1];
      CanonLength(u);
      if l.Node? {
        CanonLength(l.kids);
      }
      BytesOfLast(t);
      BytesOfLast(CanonAll(t));
      assert CanonAll(t)[..|t| - 1] == CanonAll(u);
    }
  }

  lemma {:induction false} CanonValid(t: seq<Rec>, schema: Schema, msg: string)
    requires Valid(t, schema, msg)
    ensures Valid(Canon(t), schema, msg)
    decreases t
  {
    hide HeadOk, StableSort, Bytes;
    var c := CanonAll(t);
    SortKeeps(c);
    forall i | 0 <= i < |t|
      ensures ValidRec(c[i], schema, msg)
    {
      assert ValidRec(t[i], schema, msg);
      if t[i].Node? {
        CanonValid(t[i].kids, schema, schema[msg][t[i].num]);
        CanonLength(t[i].kids);
      }
    }
    forall i | 0 <= i < |Canon(t)|
      ensures ValidRec(Canon(t)[i], schema, msg)
    {
      assert Canon(t)[i] in c;
    }
  }

  /** The reordered message is accepted, and decodes to the normal form. */
  lemma OrderedDecodes(data: bytes, schema: Schema, msg: string)
    requires Decode(data, schema, msg).Some?
    ensures var o := Bytes(Canon(Decode(data, schema, msg).value));
            Decode(o, schema, msg) == Some(Canon(Decode(data, schema, msg).value))
  {
    hide Decode, Canon, Valid;
    var t := Decode(data, schema, msg).value;
    DecodeValid(data, schema, msg);
    CanonValid(t, schema, msg);
    DecodeOfBytes(Canon(t), schema, msg);
  }

  /** Reordering keeps the number of bytes, and reordering twice is reordering
      once. */
  lemma OrderedIdempotent(data: bytes, schema: Schema, msg: string)
    requires Ordered(data, schema, msg).Some?
    ensures |Ordered(data, schema, msg).value| == |data|
    ensures Ordered(Ordered(data, schema, msg).value, schema, msg) == Ordered(data, schema, msg)
  {
    hide Decode, Canon, Valid;
    var t := Decode(data, schema, msg).value;
    DecodeValid(data, schema, msg);
    CanonLength(t);
    OrderedDecodes(data, schema, msg);
    CanonSame(t);
  }

  /** Two accepted messages are reordered to the same bytes exactly when they hold
      the same records in the same order for every field number, at every level. */
  lemma OrderedEqual(d: bytes, e: bytes, schema: Schema, msg: string)
    requires Decode(d, schema, msg).Some? && Decode(e, schema, msg).Some?
    ensures Ordered(d, schema, msg) == Ordered(e, schema, msg)
       <==> Same(Decode(d, schema, msg).value, Decode(e, schema, msg).value)
  {
    hide Decode, Canon, Same;
    OrderedDecodes(d, schema, msg);
    OrderedDecodes(e, schema, msg);
    CanonEqual(Decode(d, schema, msg).value, Decode(e, schema, msg).value);
  }

  // ---- What is returned, exactly ----

  /** Numbers ascend, here and in every payload. */
  ghost predicate Ascends(t: seq<Rec>)
    decreases t
  {
    && (forall i, j :: 0 <= i < j < |t| ==> t[i].Number() <= t[j].Number())
    && forall i :: 0 <= i < |t| && t[i].Node? ==> Ascends(t[i].kids)
  }

  lemma {:induction false} CanonAscends(t: seq<Rec>)
    ensures Ascends(Canon(t))
    decreases t
  {
    var c := CanonAll(t);
    SortSorted(c);
    SortKeeps(c);
    hide StableSort;
    forall i | 0 <= i < |Canon(t)| && Canon(t)[i].Node?
      ensures Ascends(Canon(t)[i].kids)
    {
      assert Canon(t)[i] in c;
      var j :| 0 <= j < |t| && c[j] == Canon(t)[i];
      CanonAscends(t[j].kids);
    }
  }

  /** What ascends everywhere is its own normal form. */
  lemma {:induction false} AscendsStays(t: seq<Rec>)
    requires Ascends(t)
    ensures Canon(t) == t
    decreases t
  {
    forall i | 0 <= i < |t|
      ensures CanonRec(t[i]) == t[i]
    {
      if t[i].Node? {
        AscendsStays(t[i].kids);
      }
    }
    forall n: nat
      ensures Select(Canon(t), n) == Select(t, n)
    {
      SelectOfCanon(t, n);
      hide Canon;
      assert CanonAll(Select(t, n)) == Select(t, n);
    }
    SortSorted(CanonAll(t));
    SortedDetermined(Canon(t), t);
  }

  /** A message is accepted exactly when its bytes are those of some tree that is valid for its type, and that tree is
      what it decodes to. */
  lemma DecodeIff(data: bytes, schema: Schema, msg: string, t: seq<Rec>)
    ensures Decode(data, schema, msg) == Some(t) <==> Valid(t, schema, msg) && Bytes(t) == data
  {
    hide Decode, Valid, Bytes;
    if Decode(data, schema, msg) == Some(t) {
      DecodeValid(data, schema, msg);
    }
    if Valid(t, schema, msg) {
      DecodeOfBytes(t, schema, msg);
    }
  }

  /** What is returned is the one message with ascending numbers, at every level, that holds the same records in the
      same order for every field number. */
  lemma OrderedIff(data: bytes, schema: Schema, msg: string, out: bytes)
    ensures Ordered(data, schema, msg) == Some(out) <==>
              && Decode(data, schema, msg).Some? && Decode(out, schema, msg).Some?
              && Ascends(Decode(out, schema, msg).value)
              && Same(Decode(data, schema, msg).value, Decode(out, schema, msg).value)
  {
    hide Decode, Canon, Same, Ascends, Bytes, Valid;
    if Decode(data, schema, msg).Some? {
      var t := Decode(data, schema, msg).value;
      OrderedDecodes(data, schema, msg);
      CanonAscends(t);
      CanonSame(t);
      if Decode(out, schema, msg).Some? && Ascends(Decode(out, schema, msg).value) {
        var u := Decode(out, schema, msg).value;
        DecodeValid(out, schema, msg);
        AscendsStays(u);
        CanonEqual(t, u);
      }
    }
  }

  // ---- Swapping records ----------------------------------------------------

  /** Exchanging two neighbours of different numbers, here or in a payload. */
  ghost predicate Step(s: seq<Rec>, t: seq<Rec>)
    decreases s
  {
    || (exists i: nat :: Swap(s, t, i))
    || (|s| == |t| && exists i: nat :: i < |s| && StepRec(s[i], t[i]) && t == s[i := t[i]])
  }

  ghost predicate Swap(s: seq<Rec>, t: seq<Rec>, i: nat)
  {
    i + 1 < |s| && s[i].Number() != s[i + 1].Number() && t == s[i := s[i + 1]][i + 1 := s[i]]
  }

  ghost predicate StepRec(r: Rec, q: Rec)
    decreases r
  {
    r.Node? && q.Node? && q.num == r.num && q.head == r.head && Step(r.kids, q.kids)
  }

  ghost predicate Reach(s: seq<Rec>, t: seq<Rec>, n: nat)
    decreases n
  {
    if n == 0 then s == t else exists u :: Step(s, u) && Reach(u, t, n - 1)
  }

  lemma SwapSelect(s: seq<Rec>, t: seq<Rec>, i: nat, n: nat)
    requires Swap(s, t, i)
    ensures Select(s, n) == Select(t, n)
  {
    var a, x, y, b := s[..i], s[i], s[i + 1], s[i + 2..];
    assert s == a + [x] + [y] + b;
    assert t == a + [y] + [x] + b;
    SelectOfSwapped(a, x, y, b, n);
  }

  lemma SelectOfSwapped(a: seq<Rec>, x: Rec, y: Rec, b: seq<Rec>, n: nat)
    requires x.Number() != y.Number()
    ensures Select(a + [x] + [y] + b, n) == Select(a + [y] + [x] + b, n)
  {
    hide Select;
    SelectOfTail(a, x, y, n);
    SelectOfConcat(a + [y], [x], n);
    SelectOfConcat(a + [x] + [y], b, n);
    SelectOfConcat(a + [y] + [x], b, n);
  }

  lemma SelectCanon(s: seq<Rec>, t: seq<Rec>)
    requires forall n: nat :: Select(s, n) == Select(t, n)
    ensures Canon(s) == Canon(t)
  {
    forall n: nat
      ensures Select(Canon(s), n) == Select(Canon(t), n)
    {
      SelectOfCanon(s, n);
      SelectOfCanon(t, n);
    }
    SortSorted(CanonAll(s));
    SortSorted(CanonAll(t));
    SortedDetermined(Canon(s), Canon(t));
  }

  lemma {:induction false} StepCanon(s: seq<Rec>, t: seq<Rec>)
    requires Step(s, t)
    ensures Canon(s) == Canon(t)
    decreases s
  {
    if i: nat :| Swap(s, t, i) {
      forall n: nat
        ensures Select(s, n) == Select(t, n)
      {
        SwapSelect(s, t, i, n);
      }
      SelectCanon(s, t);
    } else {
      var i: nat :| i < |s| && StepRec(s[i], t[i]) && t == s[i := t[i]];
      StepCanon(s[i].kids, t[i].kids);
      assert CanonAll(s) == CanonAll(t);
    }
  }

  /** Messages that differ by any number of exchanges of neighbours with different
      field numbers, at any depth, have one normal form. */
  lemma {:induction false} ReachCanon(s: seq<Rec>, t: seq<Rec>, n: nat)
    requires Reach(s, t, n)
    ensures Canon(s) == Canon(t)
    decreases n
  {
    hide Step, Canon;
    if n > 0 {
      var u :| Step(s, u) && Reach(u, t, n - 1);
      StepCanon(s, u);
      ReachCanon(u, t, n - 1);
    }
  }

  lemma {:induction false} ReachJoin(s: seq<Rec>, t: seq<Rec>, u: seq<Rec>, m: nat, n: nat)
    requires Reach(s, t, m) && Reach(t, u, n)
    ensures Reach(s, u, m + n)
    decreases m
  {
    hide Step;
    if m > 0 {
      var v :| Step(s, v) && Reach(v, t, m - 1);
      ReachJoin(v, t, u, m - 1, n);
    }
  }

  lemma ReachNone(s: seq<Rec>)
    ensures Reach(s, s, 0)
  {
  }

  lemma ReachOne(s: seq<Rec>, t: seq<Rec>)
    requires Step(s, t)
    ensures Reach(s, t, 1)
  {
    assert Reach(t, t, 0);
  }

  lemma StepAppend(s: seq<Rec>, t: seq<Rec>, r: Rec)
    requires Step(s, t)
    ensures Step(s + [r], t + [r])
  {
    if i: nat :| Swap(s, t, i) {
      assert Swap(s + [r], t + [r], i);
    } else {
      var i: nat :| i < |s| && StepRec(s[i], t[i]) && t == s[i := t[i]];
      assert t + [r] == (s + [r])[i := (t + [r])[i]];
    }
  }

  lemma {:induction false} ReachAppend(s: seq<Rec>, t: seq<Rec>, r: Rec, n: nat)
    requires Reach(s, t, n)
    ensures Reach(s + [r], t + [r], n)
    decreases n
  {
    if n > 0 {
      var u :| Step(s, u) && Reach(u, t, n - 1);
      StepAppend(s, u, r);
      ReachAppend(u, t, r, n - 1);
    }
  }

  lemma {:induction false} ReachKids(s: seq<Rec>, num: nat, head: bytes, k: seq<Rec>, l: seq<Rec>, n: nat)
    requires Reach(k, l, n)
    ensures Reach(s + [Node(num, head, k)], s + [Node(num, head, l)], n)
    decreases n
  {
    if n > 0 {
      var m :| Step(k, m) && Reach(m, l, n - 1);
      var a, b := s + [Node(num, head, k)], s + [Node(num, head, m)];
      assert StepRec(a[|s|], b[|s|]) && b == a[|s| := b[|s|]];
      assert Step(a, b);
      ReachKids(s, num, head, m, l, n - 1);
    }
  }

  lemma LastTwoSwap(u: seq<Rec>, l: Rec, r: Rec)
    requires l.Number() != r.Number()
    ensures Reach(u + [l] + [r], u + [r] + [l], 1)
  {
    assert Swap(u + [l] + [r], u + [r] + [l], |u|);
    ReachOne(u + [l] + [r], u + [r] + [l]);
  }

  lemma {:induction false} ReachInsert(s: seq<Rec>, r: Rec) returns (n: nat)
    ensures Reach(s + [r], Insert(s, r, NumberOf), n)
  {
    hide Step, Reach;
    n := 0;
    if s == [] || s[|s| - 1].Number() <= r.Number() {
      ReachNone(s + [r]);
    } else {
      var u, l := s[..|s| - 1], s[|s| - 1];
      var mid := u + [r] + [l];
      assert s + [r] == u + [l] + [r];
      LastTwoSwap(u, l, r);
      var m := ReachInsert(u, r);
      assert Insert(s, r, NumberOf) == Insert(u, r, NumberOf) + [l];
      hide Insert;
      ReachAppend(u + [r], Insert(u, r, NumberOf), l, m);
      ReachJoin(s + [r], mid, Insert(s, r, NumberOf), 1, m);
      n := 1 + m;
    }
  }

  lemma {:induction false} ReachSort(s: seq<Rec>) returns (n: nat)
    ensures Reach(s, StableSort(s, NumberOf), n)
  {
    hide Step, Reach, Insert;
    n := 0;
    ReachNone(s);
    if s != [] {
      var u, l := s[..|s| - 1], s[|s| - 1];
      assert s == u + [l];
      var m := ReachSort(u);
      ReachAppend(u, StableSort(u, NumberOf), l, m);
      var k := ReachInsert(StableSort(u, NumberOf), l);
      ReachJoin(s, StableSort(u, NumberOf) + [l], StableSort(s, NumberOf), m, k);
      n := m + k;
    }
  }

  /** Every message can be brought into its normal form by such exchanges. */
  lemma {:induction false} ReachesCanon(t: seq<Rec>) returns (n: nat)
    ensures Reach(t, Canon(t), n)
    decreases t, 1
  {
    hide Step, Reach, CanonAll;
    var m := ReachesCanonAll(t);
    var k := ReachSort(CanonAll(t));
    ReachJoin(t, CanonAll(t), Canon(t), m, k);
    n := m + k;
  }

  lemma {:induction false} ReachesCanonAll(t: seq<Rec>) returns (n: nat)
    ensures Reach(t, CanonAll(t), n)
    decreases t, 0
  {
    hide Step, Reach, Canon;
    n := 0;
    ReachNone(t);
    if t != [] {
      var u, l := t[..|t| - 1], t[|t| - 1];
      assert t == u + [l];
      n := ReachesCanonAll(u);
      ReachAppend(u, CanonAll(u), l, n);
      assert CanonAll(t) == CanonAll(u) + [CanonRec(l)];
      if l.Node? {
        var k := ReachesCanon(l.kids);
        hide CanonAll;
        ReachKids(CanonAll(u), l.num, l.head, l.kids, Canon(l.kids), k);
        ReachJoin(t, CanonAll(u) + [l], CanonAll(t), n, k);
        n := n + k;
      }
    }
  }

  /** Exchanging neighbours of different numbers is all that separates messages
      with one normal form: both can be brought to one message that way. */
  lemma SameBySwaps(s: seq<Rec>, t: seq<Rec>)
    ensures Same(s, t) <==> exists u, m, n :: Reach(s, u, m) && Reach(t, u, n)
  {
    hide Same, Canon, Reach;
    CanonEqual(s, t);
    if Same(s, t) {
      var m := ReachesCanon(s);
      var n := ReachesCanon(t);
      assert Reach(s, Canon(s), m) && Reach(t, Canon(s), n);
    }
    if u, m, n :| Reach(s, u, m) && Reach(t, u, n) {
      ReachCanon(s, u, m);
      ReachCanon(t, u, n);
    }
  }

  // ---- The algorithm -------------------------------------------------------

  /** A record as the algorithm keeps it. */
  datatype Entry = Entry(num: nat, text: bytes)

  function EntryNumber(e: Entry): int
  {
    e.num
  }

  ghost function Entries(t: seq<Rec>): (es: seq<Entry>)
    ensures |es| == |t|
    ensures forall i :: 0 <= i < |t| ==> es[i] == Entry(t[i].Number(), RecBytes(t[i]))
  {
    seq(|t|, i requires 0 <= i < |t| => Entry(t[i].Number(), RecBytes(t[i])))
  }

  function Texts(es: seq<Entry>): bytes
  {
    if es == [] then [] else Texts(es[..|es| - 1]) + es[|es| - 1].text
  }

  lemma {:induction false} TextsOfEntries(t: seq<Rec>)
    ensures Texts(Entries(t)) == Bytes(t)
  {
    hide RecBytes;
    if t != [] {
      TextsOfEntries(t[..|t| - 1]);
      BytesOfLast(t);
      assert Entries(t)[..|t| - 1] == Entries(t[..|t| - 1]);
    }
  }

  lemma {:induction false} InsertOfEntries(s: seq<Rec>, r: Rec)
    ensures Insert(Entries(s), Entry(r.Number(), RecBytes(r)), EntryNumber) == Entries(Insert(s, r, NumberOf))
  {
    hide RecBytes;
    if s != [] && s[|s| - 1].Number() > r.Number() {
      InsertOfEntries(s[..|s| - 1], r);
      assert Entries(s)[..|s| - 1] == Entries(s[..|s| - 1]);
    }
  }

  lemma {:induction false} SortOfEntries(s: seq<Rec>)
    ensures StableSort(Entries(s), EntryNumber) == Entries(StableSort(s, NumberOf))
  {
    hide RecBytes, Insert;
    if s != [] {
      SortOfEntries(s[..|s| - 1]);
      InsertOfEntries(StableSort(s[..|s| - 1], NumberOf), s[|s| - 1]);
      assert Entries(s)[..|s| - 1] == Entries(s[..|s| - 1]);
    }
  }

  /** data is what is left of message once the records in done are taken. */
  ghost predicate Left(message: bytes, done: seq<Rec>, data: bytes, schema: Schema, msg: string)
  {
    Decode(message, schema, msg)
    == match Decode(data, schema, msg) case None => None case Some(rest) => Some(done + rest)
  }

  lemma LeftStart(message: bytes, schema: Schema, msg: string)
    ensures Left(message, [], message, schema, msg)
  {
    var d := Decode(message, schema, msg);
    if d.Some? {
      assert [] + d.value == d.value;
    }
  }

  lemma LeftStep(message: bytes, done: seq<Rec>, data: bytes, rec: Record, tree: Rec, schema: Schema, msg: string)
    requires Left(message, done, data, schema, msg) && data != []
    requires NextRecord(data) == Some(rec) && DecodeRecord(rec, |data|, schema, msg) == Some(tree)
    ensures Left(message, done + [tree], data[|rec.text|..], schema, msg)
  {
    hide NextRecord, DecodeRecord;
    var after := Decode(data[|rec.text|..], schema, msg);
    if after.Some? {
      assert done + ([tree] + after.value) == done + [tree] + after.value;
    }
  }

  /** A record with its payload reordered, and the tree it stands for. */
  method ReorderRecord(rec: Record, bound: nat, schema: Schema, msg: string)
    returns (r: Option<bytes>, ghost tree: Option<Rec>)
    requires Atomic(rec) && 0 < |rec.text| <= bound && rec.tagLen > 0
    ensures tree == DecodeRecord(rec, bound, schema, msg)
    ensures r == if tree.None? then None else Some(RecBytes(CanonRec(tree.value)))
    decreases bound, 0
  {
    hide NextRecord, ConsumeBytes, Canon, Decode;
    var sub := SubType(schema, msg, rec);
    tree := DecodeRecord(rec, bound, schema, msg);
    if sub.None? {
      return Some(rec.text), tree;
    }
    PayloadSplit(rec);
    var payload := rec.Payload();
    var inner := Reorder(payload, schema, sub.value);
    if inner.None? {
      return None, tree;
    }
    r := Some(rec.text[..|rec.text| - |payload|] + inner.value);
  }

  method Join(es: seq<Entry>) returns (out: bytes)
    ensures out == Texts(es)
  {
    out := [];
    for i := 0 to |es|
      invariant out == Texts(es[..i])
    {
      out := out + es[i].text;
      assert es[..i + 1][..i] == es[..i];
    }
    assert es[..|es|] == es;
  }

  /** message with its field records in field-number order at every level, None
      when it is malformed. */
  method Reorder(message: bytes, schema: Schema, msg: string) returns (r: Option<bytes>)
    ensures r == Ordered(message, schema, msg)
    decreases |message|, 1
  {
    hide NextRecord, StableSort, DecodeRecord, Left, RecBytes, CanonRec, Atomic;
    var data := message;
    var recs: seq<Entry> := [];
    ghost var done: seq<Rec> := [];
    LeftStart(message, schema, msg);
    while |data| > 0
      invariant |data| <= |message|
      invariant recs == Entries(CanonAll(done))
      invariant Left(message, done, data, schema, msg)
    {
      var next := NextRecord(data);
      if next.None? {
        LeftFails(message, done, data, schema, msg);
        return None;
      }
      var rec := next.value;
      NextIsAtomic(data);
      var text, tree := ReorderRecord(rec, |data|, schema, msg);
      if text.None? {
        LeftFails(message, done, data, schema, msg);
        return None;
      }
      LeftStep(message, done, data, rec, tree.value, schema, msg);
      recs := recs + [Entry(rec.num, text.value)];
      data := data[|rec.text|..];
      done := done + [tree.value];
    }
    LeftEnds(message, done, schema, msg);
    SortOfEntries(CanonAll(done));
    var sorted := StableSort(recs, EntryNumber);
    var out := Join(sorted);
    TextsOfEntries(Canon(done));
    return Some(out);
  }

  lemma LeftFails(message: bytes, done: seq<Rec>, data: bytes, schema: Schema, msg: string)
    requires Left(message, done, data, schema, msg) && data != []
    requires NextRecord(data) == None
          || DecodeRecord(NextRecord(data).value, |data|, schema, msg) == None
    ensures Ordered(message, schema, msg) == None
  {
  }

  lemma LeftEnds(message: bytes, done: seq<Rec>, schema: Schema, msg: string)
    requires Left(message, done, [], schema, msg)
    ensures Ordered(message, schema, msg) == Some(Bytes(Canon(done)))
  {
    assert done + [] == done;
  }
}
