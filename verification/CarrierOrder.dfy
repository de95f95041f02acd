/** What reordering a carrier's field records does to its reading: exactly when
    the annotation and function readers find the same in the reordered bytes. */
module CarrierOrder {
  import opened Options
  import opened Sorting
  import opened Wire
  import opened FieldOrder
  import opened Carriers

  // ---- Records of a reordered message --------------------------------------

  ghost function Flats(t: seq<Rec>): (rs: seq<Record>)
    ensures |rs| == |t|
  {
    seq(|t|, i requires 0 <= i < |t| => Flat(t[i]))
  }

  lemma {:induction false} RecordsOfTree(t: seq<Rec>, schema: Schema, msg: string)
    requires Valid(t, schema, msg)
    ensures Records(Bytes(t)) == Flats(t)
  {
    hide Flat, RecBytes, ValidRec, NextRecord;
    forall i | 0 <= i < |t|
      ensures Atomic(Flat(t[i])) && Flat(t[i]).text == RecBytes(t[i])
    {
      FlatIs(t[i], schema, msg);
    }
    ConcatOfFlats(t);
    RecordsOfConcat(Flats(t));
  }

  lemma {:induction false} ConcatOfFlats(t: seq<Rec>)
    requires forall i :: 0 <= i < |t| ==> Flat(t[i]).text == RecBytes(t[i])
    ensures Concat(Flats(t)) == Bytes(t)
  {
    hide Flat, RecBytes;
    if t != [] {
      ConcatOfFlats(t[1..]);
      assert Flats(t)[1..] == Flats(t[1..]);
    }
  }

  /** The records of s of one wire type. */
  ghost function OfType(s: seq<Rec>, typ: nat): (q: seq<Rec>)
    ensures forall r :: r in q ==> r in s && Flat(r).typ == typ
  {
    if s == [] then []
    else OfType(s[..|s| - 1], typ) + (if Flat(s[|s| - 1]).typ == typ then [s[|s| - 1]] else [])
  }

  lemma FlatNumber(r: Rec)
    ensures Flat(r).num == r.Number()
    ensures Flat(CanonRec(r)).typ == Flat(r).typ
  {
  }

  lemma OfTypeStep(s: seq<Rec>, r: Rec, typ: nat)
    ensures OfType(s + [r], typ) == if Flat(r).typ == typ then OfType(s, typ) + [r] else OfType(s, typ)
  {
    hide Flat;
    assert (s + [r])[..|s|] == s;
  }

  lemma FlatsStep(s: seq<Rec>, r: Rec)
    ensures Flats(s + [r]) == Flats(s) + [Flat(r)]
  {
    hide Flat;
  }

  lemma {:induction false} MatchingOfFlats(t: seq<Rec>, n: nat, typ: nat)
    ensures Matching(Flats(t), n, typ) == Flats(OfType(Select(t, n), typ))
  {
    hide Flat;
    if t != [] {
      var u, l := t[..|t| - 1], t[|t| - 1];
      assert t == u + [l];
      MatchingOfFlats(u, n, typ);
      FlatNumber(l);
      SelectSplit(t, n);
      hide Select, OfType, Flats, Matching;
      FlatsStep(u, l);
      MatchingStep(Flats(u), Flat(l), n, typ);
      if l.Number() == n {
        OfTypeStep(Select(u, n), l, typ);
        FlatsStep(OfType(Select(u, n), typ), l);
      } else {
        assert Select(t, n) == Select(u, n);
      }
    }
  }

  lemma {:induction false} OfTypeOfCanon(s: seq<Rec>, typ: nat)
    ensures OfType(CanonAll(s), typ) == CanonAll(OfType(s, typ))
  {
    if s != [] {
      var u, l := s[..|s| - 1], s[|s| - 1];
      OfTypeOfCanon(u, typ);
      FlatNumber(l);
      assert CanonAll(s)[..|s| - 1] == CanonAll(u);
      hide Flat, Canon;
      if Flat(l).typ == typ {
        assert OfType(s, typ)[..|OfType(s, typ)| - 1] == OfType(u, typ);
      }
    }
  }

  /** The records of one number and type, before and after: the same ones, each in
      its normal form. */
  lemma MatchingOfCanon(t: seq<Rec>, n: nat, typ: nat)
    ensures var q := OfType(Select(t, n), typ);
            && Matching(Flats(t), n, typ) == Flats(q)
            && Matching(Flats(Canon(t)), n, typ) == Flats(CanonAll(q))
            && (forall r :: r in q ==> r in t && r.Number() == n && Flat(r).typ == typ)
  {
    hide Canon, Flat;
    MatchingOfFlats(t, n, typ);
    MatchingOfFlats(Canon(t), n, typ);
    SelectOfCanon(t, n);
    OfTypeOfCanon(Select(t, n), typ);
  }

  /** The type of the messages in field n of msg, when it holds messages. */
  function FieldType(schema: Schema, msg: string, n: nat): Option<string>
  {
    if msg in schema && n in schema[msg] then Some(schema[msg][n]) else None
  }

  /** How many records a message has of each number and wire type. */
  lemma CountsKept(data: bytes, o: bytes, schema: Schema, msg: string, n: nat, typ: nat)
    requires Ordered(data, schema, msg) == Some(o)
    ensures |Matching(Records(o), n, typ)| == |Matching(Records(data), n, typ)|
  {
    hide Records, Matching, Decode, Canon, Valid;
    var t := Trees(data, o, schema, msg);
    MatchingOfCanon(t, n, typ);
  }

  lemma Trees(data: bytes, o: bytes, schema: Schema, msg: string) returns (t: seq<Rec>)
    requires Ordered(data, schema, msg) == Some(o)
    ensures Valid(t, schema, msg)
    ensures Records(data) == Flats(t) && Records(o) == Flats(Canon(t))
  {
    hide Records, Decode, Canon, Valid;
    t := Decode(data, schema, msg).value;
    DecodeValid(data, schema, msg);
    RecordsOfTree(t, schema, msg);
    CanonValid(t, schema, msg);
    RecordsOfTree(Canon(t), schema, msg);
  }

  /** A field that holds no messages keeps its records. */
  lemma ScalarsKept(data: bytes, o: bytes, schema: Schema, msg: string, n: nat, typ: nat)
    requires Ordered(data, schema, msg) == Some(o) && FieldType(schema, msg, n) == None
    ensures Matching(Records(o), n, typ) == Matching(Records(data), n, typ)
  {
    hide Records, Matching, Decode, Canon, Flat, Select, HeadOk;
    var t := Trees(data, o, schema, msg);
    MatchingOfCanon(t, n, typ);
    var q := OfType(Select(t, n), typ);
    forall i | 0 <= i < |q|
      ensures CanonAll(q)[i] == q[i]
    {
      assert q[i] in q;
      assert ValidRec(q[i], schema, msg);
      assert q[i].Leaf?;
    }
    assert CanonAll(q) == q;
  }

  /** A field that holds messages keeps their number and order, each reordered. */
  lemma MessagesKept(data: bytes, o: bytes, schema: Schema, msg: string, n: nat, sub: string)
    requires Ordered(data, schema, msg) == Some(o) && FieldType(schema, msg, n) == Some(sub)
    ensures var ps, qs := Payloads(Records(data), n), Payloads(Records(o), n);
            |qs| == |ps| && forall i :: 0 <= i < |ps| ==> Ordered(ps[i], schema, sub) == Some(qs[i])
  {
    hide Records, Matching, Decode, Canon, Select, HeadOk, Ordered, Record.Payload;
    var t := Trees(data, o, schema, msg);
    MatchingOfCanon(t, n, LEN);
    var q := OfType(Select(t, n), LEN);
    var ps, qs := Payloads(Records(data), n), Payloads(Records(o), n);
    forall i | 0 <= i < |ps|
      ensures Ordered(ps[i], schema, sub) == Some(qs[i])
    {
      var r := q[i];
      assert r in q;
      assert ValidRec(r, schema, msg);
      assert ps[i] == Flat(r).Payload() && qs[i] == Flat(CanonRec(r)).Payload();
      NodePayload(r, schema, msg, sub);
    }
  }

  lemma NodePayload(r: Rec, schema: Schema, msg: string, sub: string)
    requires ValidRec(r, schema, msg) && Flat(r).typ == LEN
    requires FieldType(schema, msg, r.Number()) == Some(sub)
    ensures Ordered(Flat(r).Payload(), schema, sub) == Some(Flat(CanonRec(r)).Payload())
  {
    hide HeadOk, Decode, Canon, Bytes, Record.Payload, NextRecord;
    assert r.Node?;
    FlatIs(r, schema, msg);
    DecodeOfBytes(r.kids, schema, sub);
    CanonValid(r.kids, schema, sub);
    CanonLength(r.kids);
    FlatIs(CanonRec(r), schema, msg);
  }

  /** The records of a reordered message are sorted by number. */
  lemma RecordsSorted(data: bytes, o: bytes, schema: Schema, msg: string)
    requires Ordered(data, schema, msg) == Some(o)
    ensures forall i, j :: 0 <= i < j < |Records(o)| ==> Records(o)[i].num <= Records(o)[j].num
  {
    hide Records, Decode, Flat, StableSort;
    var t := Trees(data, o, schema, msg);
    SortSorted(CanonAll(t));
    var c := Canon(t);
    forall i, j | 0 <= i < j < |c|
      ensures Flats(c)[i].num <= Flats(c)[j].num
    {
      FlatNumber(c[i]);
      FlatNumber(c[j]);
    }
  }

  // ---- Arguments -----------------------------------------------------------

  /** The kind that a value member of number n gives. */
  function KindOfNumber(n: nat): ArgKind
  {
    if n == 10 then StringArg
    else if n == 11 then IntArg
    else if n == 12 then FloatArg
    else if n == 13 then BoolArg
    else if n == 14 then BytesArg
    else if n == 15 || n == 20 then OtherArg
    else NoValue
  }

  /** The largest number of a value member, 0 when there is none. */
  function HighestMember(rs: seq<Record>): (h: nat)
    ensures forall r :: r in rs && MemberKind(r) != NoValue ==> r.num <= h
    ensures h > 0 ==> exists r :: r in rs && MemberKind(r) != NoValue && r.num == h
  {
    if rs == [] then 0
    else
      var h := HighestMember(rs[..|rs| - 1]);
      var l := rs[|rs| - 1];
      assert forall r :: r in rs <==> r in rs[..|rs| - 1] || r == l;
      if MemberKind(l) != NoValue && l.num > h then l.num else h
  }

  /** The value member an argument ends with is of the kind its highest-numbered
      one gives. */
  predicate ArgKeeps(b: bytes)
  {
    LastKind(Records(b)) == KindOfNumber(HighestMember(Records(b)))
  }

  lemma MemberKindByNumber(r: Record)
    ensures MemberKind(r) != NoValue ==> MemberKind(r) == KindOfNumber(r.num) && r.num > 0
  {
  }

  lemma HighestStep(rs: seq<Record>)
    requires rs != []
    ensures var u, l := rs[..|rs| - 1], rs[|rs| - 1];
            HighestMember(rs) == if MemberKind(l) != NoValue && l.num > HighestMember(u) then l.num
                else HighestMember(u)
  {
    hide MemberKind;
  }

  lemma {:induction false} SortedLastKind(rs: seq<Record>)
    requires forall i, j :: 0 <= i < j < |rs| ==> rs[i].num <= rs[j].num
    ensures LastKind(rs) == KindOfNumber(HighestMember(rs))
  {
    hide MemberKind;
    if rs != [] {
      var u, l := rs[..|rs| - 1], rs[|rs| - 1];
      SortedLastKind(u);
      HighestStep(rs);
      hide HighestMember;
      if MemberKind(l) != NoValue && HighestMember(u) > 0 {
        var r :| r in u && MemberKind(r) != NoValue && r.num == HighestMember(u);
        assert r.num <= l.num;
      }
      MemberKindByNumber(l);
    }
  }

  lemma {:induction false} InMatching(rs: seq<Record>, r: Record)
    requires r in rs
    ensures Matching(rs, r.num, r.typ) != []
  {
    if r != rs[|rs| - 1] {
      assert r in rs[..|rs| - 1];
      InMatching(rs[..|rs| - 1], r);
    }
  }

  lemma SameMember(q: Record, r: Record)
    requires q.num == r.num && q.typ == r.typ
    ensures MemberKind(q) == MemberKind(r)
  {
  }

  lemma HighestAtMost(rs: seq<Record>, os: seq<Record>)
    requires SameCounts(rs, os)
    ensures HighestMember(rs) <= HighestMember(os)
  {
    hide MemberKind;
    var h := HighestMember(rs);
    if h > 0 {
      var r :| r in rs && MemberKind(r) != NoValue && r.num == h;
      InMatching(rs, r);
      hide HighestMember, Matching;
      assert |Matching(os, r.num, r.typ)| > 0;
      var q := Matching(os, r.num, r.typ)[0];
      assert q in Matching(os, r.num, r.typ);
      SameMember(q, r);
    }
  }

  /** As many records of each number and wire type. */
  ghost predicate SameCounts(rs: seq<Record>, os: seq<Record>)
  {
    forall n, typ :: |Matching(os, n, typ)| == |Matching(rs, n, typ)|
  }

  /** The carriers' message types. */
  ghost predicate CarrierSchema(s: Schema)
  {
    && FieldType(s, "AnnotationList", 1) == Some("Annotation")
    && FieldType(s, "Annotation", 1) == None && FieldType(s, "Annotation", 2) == Some("AnnotationArg")
    && (forall n :: n in {1, 10, 11, 12, 13, 14} ==> FieldType(s, "AnnotationArg", n) == None)
    && FieldType(s, "FileFunctions", 1) == Some("FunctionDecl")
    && FieldType(s, "FunctionDecl", 1) == None && FieldType(s, "FunctionDecl", 2) == Some("FunctionParam")
    && FieldType(s, "FunctionDecl", 3) == Some("OptionsEntry")
    && FieldType(s, "FunctionParam", 1) == None && FieldType(s, "FunctionParam", 2) == None
    && FieldType(s, "OptionsEntry", 1) == None && FieldType(s, "OptionsEntry", 2) == Some("AnnotationArg")
  }

  /** The kind read from a reordered argument is that of its highest member. */
  lemma KindKept(b: bytes, o: bytes, s: Schema)
    requires Ordered(b, s, "AnnotationArg") == Some(o)
    ensures LastKind(Records(o)) == KindOfNumber(HighestMember(Records(b)))
  {
    hide Records, Ordered, LastKind, HighestMember, KindOfNumber, SameCounts;
    CountsSame(b, o, s);
    HighestAtMost(Records(b), Records(o));
    HighestAtMost(Records(o), Records(b));
    RecordsSorted(b, o, s, "AnnotationArg");
    SortedLastKind(Records(o));
  }

  lemma CountsSame(b: bytes, o: bytes, s: Schema)
    requires Ordered(b, s, "AnnotationArg") == Some(o)
    ensures SameCounts(Records(b), Records(o)) && SameCounts(Records(o), Records(b))
  {
    hide Records, Ordered, Matching;
    forall n, typ
      ensures |Matching(Records(o), n, typ)| == |Matching(Records(b), n, typ)|
    {
      CountsKept(b, o, s, "AnnotationArg", n, typ);
    }
  }

  /** Reordering an argument keeps its reading exactly when it ends with a value
      member of the kind of its highest-numbered one. */
  lemma ArgKept(b: bytes, o: bytes, s: Schema)
    requires CarrierSchema(s) && Ordered(b, s, "AnnotationArg") == Some(o)
    ensures ReadArg(o) == ReadArg(b) <==> ArgKeeps(b)
  {
    hide Records, Ordered, Matching, LastKind, HighestMember, Record.Payload, VarintOf, Fixed64Of, Signed;
    KindKept(b, o, s);
    ScalarsKept(b, o, s, "AnnotationArg", 1, LEN);
    ScalarsKept(b, o, s, "AnnotationArg", 10, LEN);
    ScalarsKept(b, o, s, "AnnotationArg", 11, VARINT);
    ScalarsKept(b, o, s, "AnnotationArg", 12, FIXED64);
    ScalarsKept(b, o, s, "AnnotationArg", 13, VARINT);
    ScalarsKept(b, o, s, "AnnotationArg", 14, LEN);
    hide CarrierSchema, KindOfNumber, FieldType;
  }

  /** An argument with at most one value member is kept. */
  lemma OneMemberKeeps(b: bytes)
    requires forall i, j :: 0 <= i < j < |Records(b)| ==>
               MemberKind(Records(b)[i]) == NoValue || MemberKind(Records(b)[j]) == NoValue
    ensures ArgKeeps(b)
  {
    OneMemberLast(Records(b));
  }

  lemma {:induction false} OneMemberLast(rs: seq<Record>)
    requires forall i, j :: 0 <= i < j < |rs| ==> MemberKind(rs[i]) == NoValue || MemberKind(rs[j]) == NoValue
    ensures LastKind(rs) == KindOfNumber(HighestMember(rs))
  {
    if rs != [] {
      var u, l := rs[..|rs| - 1], rs[|rs| - 1];
      OneMemberLast(u);
      if MemberKind(l) != NoValue {
        assert forall r :: r in u ==> MemberKind(r) == NoValue;
      }
    }
  }

  // ---- Annotations ---------------------------------------------------------

  predicate AnnotationKeeps(b: bytes)
  {
    var ps := Payloads(Records(b), 2);
    forall i :: 0 <= i < |ps| ==> ArgKeeps(ps[i])
  }

  predicate ListKeeps(b: bytes)
  {
    var ps := Payloads(Records(b), 1);
    forall i :: 0 <= i < |ps| ==> AnnotationKeeps(ps[i])
  }

  lemma AnnotationKept(b: bytes, o: bytes, s: Schema)
    requires CarrierSchema(s) && Ordered(b, s, "Annotation") == Some(o)
    ensures ReadAnnotation(o) == ReadAnnotation(b) <==> AnnotationKeeps(b)
  {
    hide Records, Ordered, Matching, ReadArg, Record.Payload, ArgKeeps;
    ScalarsKept(b, o, s, "Annotation", 1, LEN);
    MessagesKept(b, o, s, "Annotation", 2, "AnnotationArg");
    var ps, qs := Payloads(Records(b), 2), Payloads(Records(o), 2);
    forall i | 0 <= i < |ps|
      ensures ReadArg(qs[i]) == ReadArg(ps[i]) <==> ArgKeeps(ps[i])
    {
      ArgKept(ps[i], qs[i], s);
    }
    if AnnotationKeeps(b) {
      assert ReadArgs(qs) == ReadArgs(ps);
    }
    if ReadArgs(qs) == ReadArgs(ps) {
      forall i | 0 <= i < |ps|
        ensures ReadArgs(qs)[i] == ReadArgs(ps)[i]
      {
      }
    }
  }

  /** The annotations of a reordered list are the ones of the list exactly when
      every argument in it is kept. */
  lemma ListKept(b: bytes, o: bytes, s: Schema)
    requires CarrierSchema(s) && Ordered(b, s, "AnnotationList") == Some(o)
    ensures ReadList(o) == ReadList(b) <==> ListKeeps(b)
  {
    hide Records, Ordered, Matching, ReadAnnotation, Record.Payload, AnnotationKeeps;
    MessagesKept(b, o, s, "AnnotationList", 1, "Annotation");
    var ps, qs := Payloads(Records(b), 1), Payloads(Records(o), 1);
    forall i | 0 <= i < |ps|
      ensures ReadAnnotation(qs[i]) == ReadAnnotation(ps[i]) <==> AnnotationKeeps(ps[i])
    {
      AnnotationKept(ps[i], qs[i], s);
    }
    if ListKeeps(b) {
      assert ReadEach(qs) == ReadEach(ps);
    }
    if ReadEach(qs) == ReadEach(ps) {
      forall i | 0 <= i < |ps|
        ensures ReadEach(qs)[i] == ReadEach(ps)[i]
      {
      }
    }
  }

  // ---- Functions -----------------------------------------------------------

  predicate EntryKeeps(b: bytes)
  {
    var vs := Payloads(Records(b), 2);
    vs == [] || ArgKeeps(vs[|vs| - 1])
  }

  lemma EntryKept(b: bytes, o: bytes, s: Schema)
    requires CarrierSchema(s) && Ordered(b, s, "OptionsEntry") == Some(o)
    ensures EntryKey(o) == EntryKey(b)
    ensures EntryValue(o) == EntryValue(b) <==> EntryKeeps(b)
  {
    hide Records, Ordered, Matching, ArgOf, Record.Payload, ArgKeeps;
    ScalarsKept(b, o, s, "OptionsEntry", 1, LEN);
    MessagesKept(b, o, s, "OptionsEntry", 2, "AnnotationArg");
    var ps, qs := Payloads(Records(b), 2), Payloads(Records(o), 2);
    if ps != [] {
      ArgKept(ps[|ps| - 1], qs[|ps| - 1], s);
    }
  }

  /** For each option, whether the entry that gives its value is kept. */
  function OptionKeeps(es: seq<bytes>): map<bytes, bool>
  {
    if es == [] then map[]
    else
      var e := es[|es| - 1];
      var m := OptionKeeps(es[..|es| - 1]);
      if EntryKey(e) == [] then m else m[EntryKey(e) := EntryKeeps(e)]
  }

  lemma {:induction false} OptionsKept(es: seq<bytes>, os: seq<bytes>, s: Schema)
    requires CarrierSchema(s) && |os| == |es|
    requires forall i :: 0 <= i < |es| ==> Ordered(es[i], s, "OptionsEntry") == Some(os[i])
    ensures ReadOptions(os).Keys == ReadOptions(es).Keys == OptionKeeps(es).Keys
    ensures forall k :: k in ReadOptions(es) ==> (ReadOptions(os)[k] == ReadOptions(es)[k] <==> OptionKeeps(es)[k])
  {
    hide Ordered, EntryKey, EntryValue, EntryKeeps, CarrierSchema;
    if es != [] {
      var n := |es| - 1;
      OptionsKept(es[..n], os[..n], s);
      EntryKept(es[n], os[n], s);
    }
  }

  predicate DeclKeeps(b: bytes)
  {
    var m := OptionKeeps(Payloads(Records(b), 3));
    forall k :: k in m ==> m[k]
  }

  lemma ParamKept(b: bytes, o: bytes, s: Schema)
    requires CarrierSchema(s) && Ordered(b, s, "FunctionParam") == Some(o)
    ensures ReadParam(o) == ReadParam(b)
  {
    hide Records, Ordered, Matching;
    ScalarsKept(b, o, s, "FunctionParam", 1, LEN);
    ScalarsKept(b, o, s, "FunctionParam", 2, LEN);
  }

  lemma DeclKept(b: bytes, o: bytes, s: Schema)
    requires CarrierSchema(s) && Ordered(b, s, "FunctionDecl") == Some(o)
    ensures ReadDecl(o) == ReadDecl(b) <==> DeclKeeps(b)
  {
    hide Records, Ordered, Matching, ReadParam, ReadOptions, OptionKeeps, Record.Payload;
    ScalarsKept(b, o, s, "FunctionDecl", 1, LEN);
    MessagesKept(b, o, s, "FunctionDecl", 2, "FunctionParam");
    MessagesKept(b, o, s, "FunctionDecl", 3, "OptionsEntry");
    var ps, qs := Payloads(Records(b), 2), Payloads(Records(o), 2);
    forall i | 0 <= i < |ps|
      ensures ReadParam(qs[i]) == ReadParam(ps[i])
    {
      ParamKept(ps[i], qs[i], s);
    }
    hide CarrierSchema;
    assert ReadParams(qs) == ReadParams(ps);
    OptionsKept(Payloads(Records(b), 3), Payloads(Records(o), 3), s);
  }

  predicate FunctionsKeep(b: bytes)
  {
    var ps := Payloads(Records(b), 1);
    forall i :: 0 <= i < |ps| ==> DeclKeeps(ps[i])
  }

  /** The declarations of a reordered file are those of the file exactly when the
      value of every option is kept. */
  lemma FunctionsKept(b: bytes, o: bytes, s: Schema)
    requires CarrierSchema(s) && Ordered(b, s, "FileFunctions") == Some(o)
    ensures ReadFunctions(o) == ReadFunctions(b) <==> FunctionsKeep(b)
  {
    hide Records, Ordered, Matching, ReadDecl, Record.Payload, DeclKeeps;
    MessagesKept(b, o, s, "FileFunctions", 1, "FunctionDecl");
    var ps, qs := Payloads(Records(b), 1), Payloads(Records(o), 1);
    forall i | 0 <= i < |ps|
      ensures ReadDecl(qs[i]) == ReadDecl(ps[i]) <==> DeclKeeps(ps[i])
    {
      DeclKept(ps[i], qs[i], s);
    }
    if FunctionsKeep(b) {
      assert ReadDeclEach(qs) == ReadDeclEach(ps);
    }
    if ReadDeclEach(qs) == ReadDeclEach(ps) {
      forall i | 0 <= i < |ps|
        ensures ReadDeclEach(qs)[i] == ReadDeclEach(ps)[i]
      {
      }
    }
  }

  // ---- An argument that is not kept ----------------------------------------

  /** Two records in a row. */
  lemma RecordsOfTwo(r: Record, q: Record)
    requires Atomic(r) && Atomic(q)
    ensures Records(r.text + q.text) == [r, q]
  {
    hide NextRecord, Atomic;
    assert [r, q][1..] == [q];
    assert [q][1..] == [];
    assert q.text + Concat([]) == q.text;
    RecordsOfConcat([r, q]);
  }

  lemma BytesOfLeaf(r: Record)
    ensures Bytes([Leaf(r)]) == r.text
  {
    assert [Leaf(r)][1..] == [];
    assert Bytes([]) == [];
    assert r.text + [] == r.text;
  }

  lemma DecodeOfTwo(r: Record, q: Record, s: Schema, msg: string)
    requires Atomic(r) && Atomic(q) && SubType(s, msg, r) == None && SubType(s, msg, q) == None
    ensures Ordered(r.text + q.text, s, msg).Some?
  {
    hide NextRecord, Decode, Canon, SubType;
    var t := [Leaf(r), Leaf(q)];
    assert t == [Leaf(r)] + [Leaf(q)];
    BytesOfLeaf(r);
    BytesOfLeaf(q);
    BytesOfConcat([Leaf(r)], [Leaf(q)]);
    hide Bytes;
    assert Bytes(t) == r.text + q.text;
    DecodeOfBytes(t, s, msg);
  }

  /** An integer value followed by a string value: the reader takes the string, and
      the integer once the records are in order. */
  lemma TwoMembersNotKept(s: Schema)
    requires CarrierSchema(s)
    ensures var b := VarintRecord(11, 5) + LenRecord(10, [97]);
            Ordered(b, s, "AnnotationArg").Some?
            && ReadArg(Ordered(b, s, "AnnotationArg").value) != ReadArg(b)
  {
    hide Atomic, VarintRecord, LenRecord, Ordered, Records;
    var r := Record(11, VARINT, |EncodeTag(11, VARINT)|, VarintRecord(11, 5));
    var q := Record(10, LEN, |EncodeTag(10, LEN)|, LenRecord(10, [97]));
    VarintRecordParses(11, 5);
    LenRecordParses(10, [97]);
    var b := r.text + q.text;
    RecordsOfTwo(r, q);
    assert FieldType(s, "AnnotationArg", 10) == None;
    DecodeOfTwo(r, q, s, "AnnotationArg");
    assert [r, q][..1] == [r];
    assert [r][..0] == [];
    assert !ArgKeeps(b);
    ArgKept(b, Ordered(b, s, "AnnotationArg").value, s);
  }
}
