/** What an argument's bytes say, member by member: one field anywhere in the
    bytes, with any fields around it, and what the reader makes of it
    (cmd/protoc-gen-pxf-go/schema_extensions.go:177-237). */
module CarrierMembers {
  import opened Options
  import opened Wire
  import opened WireGrammar
  import opened Carriers
  import CarrierCodec

  /** One field's bytes: a tag and its value. */
  datatype Field = Field(num: nat, typ: nat, tag: bytes, body: bytes)
  {
    ghost predicate Valid()
    {
      IsTag(tag, num, typ) && IsField(num, typ, body, 10000)
    }

    function Bytes(): bytes
    {
      tag + body
    }

    /** A value member; the numbers and wire types are the schema's own. */
    predicate IsValue()
    {
      (num, typ) in {(10, 2), (11, 0), (12, 1), (13, 0), (14, 2), (15, 2), (20, 2)}
    }

    /** The payload of a length-delimited field: the bytes after their length. */
    ghost predicate Holds(p: bytes)
    {
      exists l: bytes :: body == l + p && IsVarint(l, |p|)
    }
  }

  /** No value member is among the records. */
  ghost predicate NoValues(rs: seq<Record>)
  {
    forall r :: r in rs ==> (r.num, r.typ) !in {(10, 2), (11, 0), (12, 1), (13, 0), (14, 2), (15, 2), (20, 2)}
  }

  ghost predicate NoNames(rs: seq<Record>)
  {
    forall r :: r in rs ==> (r.num, r.typ) != (1, 2)
  }

  // ---- A field among the records -------------------------------------------

  function RecordOf(f: Field): (r: Record)
  {
    Record(f.num, f.typ, |f.tag|, f.Bytes())
  }

  lemma FieldIsRecord(f: Field)
    requires f.Valid()
    ensures Atomic(RecordOf(f)) && RecordOf(f).Body() == f.body
    ensures |f.Bytes()| > 0
  {
    hide NextRecord, IsField, IsTag;
    var b := f.Bytes();
    assert b[..|f.tag|] == f.tag && b[|f.tag|..] == f.body && b[..|b|] == b;
    NextRecordIff(b, f.num, f.typ, |f.tag|, |b|);
    assert |RecordOf(f).text| > 0;
  }

  lemma RecordsAround(before: bytes, f: Field, after: bytes)
    requires WellFormed(before) && f.Valid()
    ensures Records(before + (f.Bytes() + after)) == Records(before) + ([RecordOf(f)] + Records(after))
  {
    hide NextRecord, WellFormed, Field.Valid, Atomic, Records;
    FieldIsRecord(f);
    var r := RecordOf(f);
    CarrierCodec.RecordsJoin(before, r.text + after);
    NextOfAtomic(r, after);
    assert (r.text + after)[|r.text|..] == after;
    RecordsStep(r.text + after);
  }

  lemma StepStays(a: Arg, r: Record)
    ensures NoValues([r]) ==> ArgStep(a, r) == a.(name := ArgStep(a, r).name)
    ensures NoNames([r]) ==> ArgStep(a, r).name == a.name
  {
    assert r in [r];
  }

  /** Without value members the value stays, and without names the name. */
  lemma {:induction false} ArgStays(rs: seq<Record>, qs: seq<Record>)
    ensures NoValues(qs) ==> ArgOf(rs + qs) == ArgOf(rs).(name := ArgOf(rs + qs).name)
    ensures NoNames(qs) ==> ArgOf(rs + qs).name == ArgOf(rs).name
  {
    if qs == [] {
      assert rs + qs == rs;
    } else {
      var u, l := qs[..|qs| - 1], qs[|qs| - 1];
      assert qs == u + [l] && rs + qs == (rs + u) + [l];
      PartsHaveNone(u, l);
      hide ArgOf, ArgStep, NoValues, NoNames;
      ArgStays(rs, u);
      ArgOfStep(rs + u, l);
      StepStays(ArgOf(rs + u), l);
    }
  }

  lemma PartsHaveNone(u: seq<Record>, l: Record)
    ensures NoValues(u + [l]) ==> NoValues(u) && NoValues([l])
    ensures NoNames(u + [l]) ==> NoNames(u) && NoNames([l])
  {
    assert forall r :: r in u || r == l ==> r in u + [l];
  }

  lemma ArgAround(before: bytes, f: Field, after: bytes)
    requires WellFormed(before) && f.Valid()
    ensures var a, step := ReadArg(before + (f.Bytes() + after)), ArgStep(ReadArg(before), RecordOf(f));
            && (NoValues(Records(after)) ==> a == step.(name := a.name))
            && (NoNames(Records(after)) ==> a.name == step.name)
  {
    hide WellFormed, Field.Valid, Records, ArgOf, ArgStep, NoValues, NoNames;
    RecordsAround(before, f, after);
    var rs, r := Records(before), RecordOf(f);
    assert rs + ([r] + Records(after)) == rs + [r] + Records(after);
    ArgOfStep(rs, r);
    ArgStays(rs + [r], Records(after));
  }

  // ---- Values of fields ----------------------------------------------------

  lemma VarintValue(f: Field, w: nat)
    requires f.Valid() && IsVarint(f.body, w)
    ensures VarintOf(RecordOf(f)) == w
  {
    FieldIsRecord(f);
    hide Field.Valid, IsVarint, ConsumeVarint, Atomic;
    assert f.body[..|f.body|] == f.body;
    ConsumeVarintIff(f.body, w, |f.body|);
  }

  lemma ConsumeHeld(l: bytes, p: bytes)
    requires IsVarint(l, |p|)
    ensures ConsumeBytes(l + p) == Some(Taken(p, |l| + |p|))
  {
    hide IsVarint, ConsumeVarint;
    var b := l + p;
    assert b[..|l|] == l && b[|l|..|l| + |p|] == p;
    ConsumeVarintIff(b, |p|, |l|);
  }

  lemma PayloadValue(f: Field, p: bytes)
    requires f.Valid() && f.Holds(p)
    ensures RecordOf(f).Payload() == p
  {
    FieldIsRecord(f);
    hide Field.Valid, IsVarint, ConsumeBytes, Atomic, Record.Body;
    var l: bytes :| f.body == l + p && IsVarint(l, |p|);
    ConsumeHeld(l, p);
  }

  /** Eight bytes, the lowest first, as one word. */
  ghost predicate IsDouble(b: bytes, w: nat)
    requires |b| == 8
  {
    w == b[0] as int + b[1] as int * 0x100 + b[2] as int * 0x1_0000 + b[3] as int * 0x100_0000
         + b[4] as int * 0x1_0000_0000 + b[5] as int * 0x100_0000_0000 + b[6] as int * 0x1_0000_0000_0000
         + b[7] as int * 0x100_0000_0000_0000
  }

  lemma FixedValue(f: Field)
    requires f.Valid() && |f.body| == 8
    ensures IsDouble(f.body, Fixed64Of(RecordOf(f)))
  {
    FieldIsRecord(f);
    hide Field.Valid, Atomic;
    var b := f.body;
    FourBytes(b);
    FourBytes(b[4..]);
    assert b[4..][4..] == [];
  }

  lemma FourBytes(b: bytes)
    requires |b| >= 4
    ensures LittleEndian(b) == b[0] + 0x100 * b[1] + 0x1_0000 * b[2] + 0x100_0000 * b[3]
              + 0x1_0000_0000 * LittleEndian(b[4..])
  {
    assert b[1..][1..] == b[2..] && b[2..][1..] == b[3..] && b[3..][1..] == b[4..];
  }

  /** The reading of a varint as a signed number of 64 bits. */
  ghost predicate SignedReading(w: nat, i: int)
  {
    -0x8000_0000_0000_0000 <= i < 0x8000_0000_0000_0000 && (i == w || i == w - 0x1_0000_0000_0000_0000)
  }

  lemma SignedIs(w: nat)
    requires w < WORD
    ensures SignedReading(w, Signed(w))
  {
  }

  lemma VarintFits(b: bytes, w: nat)
    requires IsVarint(b, w)
    ensures w < WORD
  {
    hide IsVarint, VarintWithin;
    assert b[..|b|] == b;
    ConsumeVarintIff(b, w, |b|);
    VarintLess(b, 10);
    assert VarintBound(10) == WORD by {
      ConsumeEncodedBound();
    }
  }

  lemma ConsumeEncodedBound()
    ensures VarintBound(10) == WORD
  {
    assert VarintBound(4) == 128 * 128 * 128 * 2;
    assert VarintBound(7) == 128 * 128 * 128 * VarintBound(4);
    assert VarintBound(10) == 128 * 128 * 128 * VarintBound(7);
  }

  // ---- What each member says -----------------------------------------------

  /** The argument says what the field f does. */
  ghost predicate Says(a: Arg, f: Field)
  {
    && (f.num == 10 && f.typ == 2 ==> a.kind == StringArg && f.Holds(a.text))
    && (f.num == 11 && f.typ == 0 ==>
          a.kind == IntArg && exists w :: IsVarint(f.body, w) && SignedReading(w, a.integer))
    && (f.num == 12 && f.typ == 1 ==> a.kind == FloatArg && |f.body| == 8 && IsDouble(f.body, a.float))
    && (f.num == 13 && f.typ == 0 ==> a.kind == BoolArg && exists w :: IsVarint(f.body, w) && a.flag == (w != 0))
    && (f.num == 14 && f.typ == 2 ==> a.kind == BytesArg && f.Holds(a.raw))
    && (f.num in {15, 20} && f.typ == 2 ==> a.kind == OtherArg)
  }

  lemma HoldsSome(f: Field) returns (p: bytes)
    requires f.Valid() && f.typ == 2
    ensures f.Holds(p)
  {
    hide IsVarint, IsTag;
    var n: nat :| n <= |f.body| && IsVarint(f.body[..n], |f.body| - n);
    p := f.body[n..];
    assert f.body == f.body[..n] + p;
  }

  lemma VarintSome(f: Field) returns (w: nat)
    requires f.Valid() && f.typ == 0
    ensures IsVarint(f.body, w)
  {
    hide IsVarint, IsTag;
    w :| IsVarint(f.body, w);
  }

  lemma StepSays(a: Arg, f: Field)
    requires f.Valid()
    ensures Says(ArgStep(a, RecordOf(f)), f)
  {
    hide Field.Valid, Field.Holds, IsVarint, SignedReading, IsDouble, Record.Payload, VarintOf, Fixed64Of, Signed;
    if f.typ == 2 {
      var p := HoldsSome(f);
      PayloadValue(f, p);
    } else if f.typ == 0 {
      var w := VarintSome(f);
      VarintValue(f, w);
      VarintFits(f.body, w);
      SignedIs(w);
    } else if f.typ == 1 {
      DoubleSome(f);
    }
  }

  lemma DoubleSome(f: Field)
    requires f.Valid() && f.typ == 1
    ensures |f.body| == 8 && IsDouble(f.body, Fixed64Of(RecordOf(f)))
  {
    hide IsTag, Fixed64Of;
    FixedValue(f);
  }

  /** The last value member gives the argument its kind and the value of that
      kind, whatever stands around it. */
  lemma LastValueSays(before: bytes, f: Field, after: bytes)
    requires WellFormed(before) && f.Valid() && f.IsValue() && NoValues(Records(after))
    ensures Says(ReadArg(before + (f.Bytes() + after)), f)
  {
    hide WellFormed, Field.Valid, Field.IsValue, Records, ReadArg, ArgStep, NoValues;
    ArgAround(before, f, after);
    StepSays(ReadArg(before), f);
    SaysOfValue(ReadArg(before + (f.Bytes() + after)), ArgStep(ReadArg(before), RecordOf(f)), f);
  }

  lemma SaysOfValue(a: Arg, b: Arg, f: Field)
    requires a == b.(name := a.name) && Says(b, f)
    ensures Says(a, f)
  {
    hide Field.Holds, IsVarint, SignedReading, IsDouble;
  }

  /** The last name is the argument's name. */
  lemma LastNameSays(before: bytes, f: Field, after: bytes)
    requires WellFormed(before) && f.Valid() && f.num == 1 && f.typ == 2 && NoNames(Records(after))
    ensures f.Holds(ReadArg(before + (f.Bytes() + after)).name)
  {
    hide WellFormed, Field.Valid, Field.Holds, Records, ReadArg, NoNames, Record.Payload;
    ArgAround(before, f, after);
    var p := HoldsSome(f);
    PayloadValue(f, p);
  }

  /** Any other field says nothing. */
  lemma OtherFieldsIgnored(before: bytes, f: Field, after: bytes)
    requires WellFormed(before) && f.Valid() && !f.IsValue() && (f.num, f.typ) != (1, 2)
    ensures ReadArg(before + (f.Bytes() + after)) == ReadArg(before + after)
  {
    hide WellFormed, Field.Valid, Records, ArgOf;
    RecordsAround(before, f, after);
    CarrierCodec.RecordsJoin(before, after);
    ArgWithout(Records(before), RecordOf(f), Records(after));
  }

  lemma {:induction false} ArgWithout(rs: seq<Record>, r: Record, qs: seq<Record>)
    requires (r.num, r.typ) !in {(1, 2), (10, 2), (11, 0), (12, 1), (13, 0), (14, 2), (15, 2), (20, 2)}
    ensures ArgOf(rs + ([r] + qs)) == ArgOf(rs + qs)
  {
    if qs == [] {
      assert rs + ([r] + qs) == rs + [r] && rs + qs == rs;
      hide ArgOf, Record.Payload, VarintOf, Fixed64Of;
      ArgOfStep(rs, r);
    } else {
      var u, l := qs[..|qs| - 1], qs[|qs| - 1];
      assert rs + ([r] + qs) == (rs + ([r] + u)) + [l] && rs + qs == (rs + u) + [l];
      hide ArgOf, ArgStep;
      ArgWithout(rs, r, u);
      ArgOfStep(rs + ([r] + u), l);
      ArgOfStep(rs + u, l);
    }
  }
}
