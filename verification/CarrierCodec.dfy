/** Encoding carriers, and reading back what was encoded; concatenated carriers
    read as one. */
module CarrierCodec {
  import opened Seqs
  import opened Powers
  import opened Wire
  import opened Carriers

  /** The value members of an argument: a literal or an expression is known by its
      number only. */
  datatype Value =
    | StringValue(s: bytes)
    | IntValue(i: int)
    | FloatValue(w: nat)
    | BoolValue(b: bool)
    | BytesValue(raw: bytes)
    | OtherValue(num: nat, form: bytes)

  /** A value an argument can hold: a 64-bit integer, a float of 64 bits, and bytes
      of a length a varint can state. */
  predicate Storable(v: Value)
  {
    match v
    case StringValue(s) => |s| < WORD
    case IntValue(i) => -(WORD / 2) <= i < WORD / 2
    case FloatValue(w) => w < WORD
    case BoolValue(_) => true
    case BytesValue(raw) => |raw| < WORD
    case OtherValue(num, form) => (num == 15 || num == 20) && |form| < WORD
  }

  /** The 64-bit word of a signed integer. */
  function Word(i: int): (w: nat)
    ensures w < WORD
  {
    i % WORD
  }

  function EncodeValue(v: Value): bytes
  {
    match v
    case StringValue(s) => LenRecord(10, s)
    case IntValue(i) => VarintRecord(11, Word(i))
    case FloatValue(w) => Fixed64Record(12, w)
    case BoolValue(b) => VarintRecord(13, if b then 1 else 0)
    case BytesValue(raw) => LenRecord(14, raw)
    case OtherValue(num, form) => LenRecord(num, form)
  }

  function EncodeArg(name: bytes, v: Value): bytes
  {
    (if name != [] then LenRecord(1, name) else []) + EncodeValue(v)
  }

  /** Records of one field, one for each payload. */
  function EncodeEach(num: nat, ps: seq<bytes>): bytes
  {
    if ps == [] then [] else EncodeEach(num, ps[..|ps| - 1]) + LenRecord(num, ps[|ps| - 1])
  }

  function EncodeAnnotation(name: bytes, args: seq<bytes>): bytes
  {
    LenRecord(1, name) + EncodeEach(2, args)
  }

  function EncodeList(anns: seq<bytes>): bytes
  {
    EncodeEach(1, anns)
  }

  function EncodeParam(name: bytes, typ: bytes): bytes
  {
    LenRecord(1, name) + LenRecord(2, typ)
  }

  function EncodeOption(key: bytes, arg: bytes): bytes
  {
    LenRecord(1, key) + LenRecord(2, arg)
  }

  function EncodeDecl(name: bytes, params: seq<bytes>, options: seq<bytes>): bytes
  {
    LenRecord(1, name) + EncodeEach(2, params) + EncodeEach(3, options)
  }

  // ---- The records that encoders write -------------------------------------

  function LenRec(num: nat, p: bytes): Record
  {
    Record(num, LEN, |EncodeTag(num, LEN)|, LenRecord(num, p))
  }

  function VarintRec(num: nat, v: nat): Record
  {
    Record(num, VARINT, |EncodeTag(num, VARINT)|, VarintRecord(num, v))
  }

  function Fixed64Rec(num: nat, v: nat): Record
  {
    Record(num, FIXED64, |EncodeTag(num, FIXED64)|, Fixed64Record(num, v))
  }

  /** b is exactly the records rs. */
  ghost predicate Is(b: bytes, rs: seq<Record>)
  {
    Concat(rs) == b && forall r :: r in rs ==> Atomic(r)
  }

  lemma IsRecords(b: bytes, rs: seq<Record>)
    requires Is(b, rs)
    ensures Records(b) == rs
  {
    hide Atomic;
    RecordsOfConcat(rs);
  }

  lemma IsJoin(a: bytes, rs: seq<Record>, b: bytes, qs: seq<Record>)
    requires Is(a, rs) && Is(b, qs)
    ensures Is(a + b, rs + qs)
  {
    hide Atomic;
    ConcatAppend(rs, qs);
  }

  lemma IsLen(num: nat, p: bytes)
    requires 1 <= num <= MAX_NUMBER && |p| < WORD
    ensures Is(LenRecord(num, p), [LenRec(num, p)]) && LenRec(num, p).Payload() == p
  {
    hide LenRecord, NextRecord;
    LenRecordParses(num, p);
    OneRecord(LenRec(num, p));
  }

  lemma OneRecord(r: Record)
    ensures Concat([r]) == r.text
  {
    assert [r][1..] == [];
    assert Concat([r]) == r.text + Concat([]);
  }

  lemma IsVarint(num: nat, v: nat)
    requires 1 <= num <= MAX_NUMBER && v < WORD
    ensures Is(VarintRecord(num, v), [VarintRec(num, v)]) && VarintOf(VarintRec(num, v)) == v
  {
    hide VarintRecord, NextRecord;
    VarintRecordParses(num, v);
    OneRecord(VarintRec(num, v));
  }

  lemma {:induction false} EndianOfLow(w: nat, n: nat)
    requires w < IntPow(256, n)
    ensures LittleEndian(LowBytes(w, n)) == w
  {
    if n > 0 {
      EndianOfLow(w / 256, n - 1);
      assert LowBytes(w, n)[1..] == LowBytes(w / 256, n - 1);
    }
  }

  lemma IsFixed64(num: nat, v: nat)
    requires 1 <= num <= MAX_NUMBER && v < WORD
    ensures Is(Fixed64Record(num, v), [Fixed64Rec(num, v)]) && Fixed64Of(Fixed64Rec(num, v)) == v
  {
    hide Fixed64Record, NextRecord, LowBytes, LittleEndian;
    Fixed64RecordParses(num, v);
    EightBytes();
    EndianOfLow(v, 8);
    OneRecord(Fixed64Rec(num, v));
  }

  lemma EightBytes()
    ensures IntPow(256, 8) == WORD
  {
    assert IntPow(256, 4) == 0x1_0000_0000;
    assert IntPow(256, 8) == 256 * 256 * 256 * 256 * IntPow(256, 4);
  }

  function LenRecs(num: nat, ps: seq<bytes>): (rs: seq<Record>)
    ensures |rs| == |ps|
    ensures forall i :: 0 <= i < |ps| ==> rs[i] == LenRec(num, ps[i])
  {
    seq(|ps|, i requires 0 <= i < |ps| => LenRec(num, ps[i]))
  }

  lemma {:induction false} IsEach(num: nat, ps: seq<bytes>)
    requires 1 <= num <= MAX_NUMBER && forall p :: p in ps ==> |p| < WORD
    ensures Is(EncodeEach(num, ps), LenRecs(num, ps))
    ensures PayloadsOf(LenRecs(num, ps)) == ps
  {
    hide LenRecord, Atomic, Record.Payload;
    if ps != [] {
      var u, l := ps[..|ps| - 1], ps[|ps| - 1];
      IsEach(num, u);
      IsLen(num, l);
      IsJoin(EncodeEach(num, u), LenRecs(num, u), LenRecord(num, l), [LenRec(num, l)]);
      assert LenRecs(num, ps) == LenRecs(num, u) + [LenRec(num, l)];
      assert PayloadsOf(LenRecs(num, ps)) == PayloadsOf(LenRecs(num, u)) + [l];
    }
  }

  lemma {:induction false} MatchingJoin(rs: seq<Record>, qs: seq<Record>, num: nat, typ: nat)
    ensures Matching(rs + qs, num, typ) == Matching(rs, num, typ) + Matching(qs, num, typ)
  {
    if qs == [] {
      assert rs + qs == rs;
    } else {
      var u, l := qs[..|qs| - 1], qs[|qs| - 1];
      assert qs == u + [l];
      assert rs + qs == (rs + u) + [l];
      hide Matching;
      MatchingJoin(rs, u, num, typ);
      MatchingStep(rs + u, l, num, typ);
      MatchingStep(u, l, num, typ);
      if l.num == num && l.typ == typ {
        Seqs.Associate(Matching(rs, num, typ), Matching(u, num, typ), [l]);
      }
    }
  }

  lemma PayloadsJoin(rs: seq<Record>, qs: seq<Record>, num: nat)
    ensures Payloads(rs + qs, num) == Payloads(rs, num) + Payloads(qs, num)
  {
    hide Matching, Record.Payload;
    MatchingJoin(rs, qs, num, LEN);
  }

  lemma {:induction false} PayloadsOfLenRecs(num: nat, ps: seq<bytes>, n: nat)
    ensures n == num ==> Payloads(LenRecs(num, ps), n) == PayloadsOf(LenRecs(num, ps))
    ensures n != num ==> Payloads(LenRecs(num, ps), n) == []
  {
    hide Record.Payload, LenRecord;
    if ps != [] {
      var u, l := ps[..|ps| - 1], ps[|ps| - 1];
      PayloadsOfLenRecs(num, u, n);
      assert LenRecs(num, ps) == LenRecs(num, u) + [LenRec(num, l)];
      PayloadsStep(LenRecs(num, u), LenRec(num, l), n);
    } else {
      assert Matching(LenRecs(num, ps), n, LEN) == [];
    }
  }

  lemma PayloadsOfOne(num: nat, p: bytes, n: nat)
    requires LenRec(num, p).Payload() == p
    ensures Payloads([LenRec(num, p)], n) == if n == num then [p] else []
  {
    hide Record.Payload, LenRecord;
    NoPayloads(n);
    assert [] + [LenRec(num, p)] == [LenRec(num, p)];
    PayloadsStep([], LenRec(num, p), n);
    hide Payloads;
  }

  // ---- Arguments and annotations -------------------------------------------

  /** The argument a value makes. */
  function ArgFor(name: bytes, v: Value): Arg
  {
    match v
    case StringValue(s) => Arg(name, StringArg, s, 0, 0, false, [])
    case IntValue(i) => Arg(name, IntArg, [], i, 0, false, [])
    case FloatValue(w) => Arg(name, FloatArg, [], 0, w, false, [])
    case BoolValue(b) => Arg(name, BoolArg, [], 0, 0, b, [])
    case BytesValue(raw) => Arg(name, BytesArg, [], 0, 0, false, raw)
    case OtherValue(_, _) => Arg(name, OtherArg, [], 0, 0, false, [])
  }

  function ValueRec(v: Value): Record
  {
    match v
    case StringValue(s) => LenRec(10, s)
    case IntValue(i) => VarintRec(11, Word(i))
    case FloatValue(w) => Fixed64Rec(12, w)
    case BoolValue(b) => VarintRec(13, if b then 1 else 0)
    case BytesValue(raw) => LenRec(14, raw)
    case OtherValue(num, form) => LenRec(num, form)
  }

  lemma IsValue(v: Value)
    requires Storable(v)
    ensures Is(EncodeValue(v), [ValueRec(v)])
    ensures v.StringValue? ==> ValueRec(v).Payload() == v.s
    ensures v.IntValue? ==> VarintOf(ValueRec(v)) == Word(v.i)
    ensures v.FloatValue? ==> Fixed64Of(ValueRec(v)) == v.w
    ensures v.BoolValue? ==> VarintOf(ValueRec(v)) == if v.b then 1 else 0
    ensures v.BytesValue? ==> ValueRec(v).Payload() == v.raw
  {
    hide Is, LenRecord, VarintRecord, Fixed64Record, Record.Payload, VarintOf, Fixed64Of;
    match v
    case StringValue(s) => IsLen(10, s);
    case IntValue(i) => IsVarint(11, Word(i));
    case FloatValue(w) => IsFixed64(12, w);
    case BoolValue(b) => IsVarint(13, if b then 1 else 0);
    case BytesValue(raw) => IsLen(14, raw);
    case OtherValue(num, form) => IsLen(num, form);
  }

  lemma SignedWord(i: int)
    requires -(WORD / 2) <= i < WORD / 2
    ensures Signed(Word(i)) == i
  {
  }

  /** Reading an encoded argument gives its name and value. */
  lemma ArgRoundTrip(name: bytes, v: Value)
    requires |name| < WORD && Storable(v)
    ensures ReadArg(EncodeArg(name, v)) == ArgFor(name, v)
  {
    hide Is, LenRecord, VarintRecord, Record.Payload, VarintOf, Fixed64Of, Records, ArgOf, EncodeValue, Signed, Word;
    IsValue(v);
    var r := ValueRec(v);
    if v.IntValue? {
      SignedWord(v.i);
    }
    assert [] + [r] == [r];
    if name == [] {
      assert EncodeArg(name, v) == EncodeValue(v);
      IsRecords(EncodeArg(name, v), [r]);
      ArgOfStep([], r);
    } else {
      var n := LenRec(1, name);
      IsLen(1, name);
      IsJoin(LenRecord(1, name), [n], EncodeValue(v), [r]);
      IsRecords(EncodeArg(name, v), [n] + [r]);
      assert [] + [n] == [n];
      ArgOfStep([], n);
      ArgOfStep([n], r);
    }
    var a := NoArg();
  }

  /** Reading an encoded annotation gives its name and what its arguments read as. */
  lemma AnnotationRoundTrip(name: bytes, args: seq<bytes>)
    requires |name| < WORD && forall p :: p in args ==> |p| < WORD
    ensures ReadAnnotation(EncodeAnnotation(name, args)) == Carriers.Annotation(name, ReadArgs(args))
  {
    hide Is, LenRecord, Record.Payload, Records, Payloads, ReadArg, EncodeEach, PayloadsOf;
    IsLen(1, name);
    IsEach(2, args);
    var rs := [LenRec(1, name)] + LenRecs(2, args);
    IsJoin(LenRecord(1, name), [LenRec(1, name)], EncodeEach(2, args), LenRecs(2, args));
    IsRecords(EncodeAnnotation(name, args), rs);
    forall n | n == 1 || n == 2
      ensures Payloads(rs, n) == if n == 1 then [name] else args
    {
      PayloadsJoin([LenRec(1, name)], LenRecs(2, args), n);
      PayloadsOfOne(1, name, n);
      PayloadsOfLenRecs(2, args, n);
    }
  }

  lemma ListRoundTrip(anns: seq<bytes>)
    requires forall p :: p in anns ==> |p| < WORD
    ensures ReadList(EncodeList(anns)) == ReadEach(anns)
  {
    hide Is, Records, Payloads, ReadAnnotation, PayloadsOf;
    IsEach(1, anns);
    IsRecords(EncodeList(anns), LenRecs(1, anns));
    PayloadsOfLenRecs(1, anns, 1);
  }

  // ---- Functions -----------------------------------------------------------

  lemma TwoLens(one: bytes, two: bytes)
    requires |one| < WORD && |two| < WORD
    ensures var rs := Records(LenRecord(1, one) + LenRecord(2, two));
            Payloads(rs, 1) == [one] && Payloads(rs, 2) == [two]
  {
    hide Is, LenRecord, Record.Payload, Records, Payloads;
    IsLen(1, one);
    IsLen(2, two);
    IsJoin(LenRecord(1, one), [LenRec(1, one)], LenRecord(2, two), [LenRec(2, two)]);
    IsRecords(LenRecord(1, one) + LenRecord(2, two), [LenRec(1, one)] + [LenRec(2, two)]);
    forall n
      ensures Payloads([LenRec(1, one)] + [LenRec(2, two)], n)
           == (if n == 1 then [one] else []) + (if n == 2 then [two] else [])
    {
      PayloadsJoin([LenRec(1, one)], [LenRec(2, two)], n);
      PayloadsOfOne(1, one, n);
      PayloadsOfOne(2, two, n);
    }
  }

  lemma ParamRoundTrip(name: bytes, typ: bytes)
    requires |name| < WORD && |typ| < WORD
    ensures ReadParam(EncodeParam(name, typ)) == Param(name, typ)
  {
    hide LenRecord, Records, Payloads;
    TwoLens(name, typ);
  }

  lemma OptionRoundTrip(key: bytes, arg: bytes)
    requires |key| < WORD && |arg| < WORD
    ensures EntryKey(EncodeOption(key, arg)) == key && EntryValue(EncodeOption(key, arg)) == ReadArg(arg)
  {
    hide LenRecord, Records, Payloads, ReadArg;
    TwoLens(key, arg);
  }

  lemma DeclRoundTrip(name: bytes, params: seq<bytes>, options: seq<bytes>)
    requires |name| < WORD
    requires forall p :: p in params + options ==> |p| < WORD
    ensures ReadDecl(EncodeDecl(name, params, options)) == Decl(name, ReadParams(params), ReadOptions(options))
  {
    hide Is, LenRecord, Record.Payload, Records, Payloads, ReadParam, ReadOptions, EncodeEach, PayloadsOf;
    assert forall p :: p in params || p in options ==> p in params + options;
    IsLen(1, name);
    IsEach(2, params);
    IsEach(3, options);
    var a, b, c := [LenRec(1, name)], LenRecs(2, params), LenRecs(3, options);
    IsJoin(LenRecord(1, name), a, EncodeEach(2, params), b);
    IsJoin(LenRecord(1, name) + EncodeEach(2, params), a + b, EncodeEach(3, options), c);
    IsRecords(EncodeDecl(name, params, options), a + b + c);
    forall n | 1 <= n <= 3
      ensures Payloads(a + b + c, n) == if n == 1 then [name] else if n == 2 then params else options
    {
      PayloadsJoin(a + b, c, n);
      PayloadsJoin(a, b, n);
      PayloadsOfOne(1, name, n);
      PayloadsOfLenRecs(2, params, n);
      PayloadsOfLenRecs(3, options, n);
    }
  }

  /** An option has the value of the last entry with its key. */
  lemma {:induction false} OptionsValue(es: seq<bytes>, k: bytes, i: nat)
    requires i < |es| && EntryKey(es[i]) == k != [] && forall j :: i < j < |es| ==> EntryKey(es[j]) != k
    ensures k in ReadOptions(es) && ReadOptions(es)[k] == EntryValue(es[i])
  {
    hide EntryKey, EntryValue;
    var n := |es| - 1;
    if i < n {
      OptionsValue(es[..n], k, i);
    }
  }

  /** An option is there exactly when some entry has its key; an empty key names
      none. */
  lemma {:induction false} OptionsKeys(es: seq<bytes>, k: bytes)
    ensures k in ReadOptions(es) <==> k != [] && exists e :: e in es && EntryKey(e) == k
  {
    hide EntryKey, EntryValue;
    if es != [] {
      var u, l := es[..|es| - 1], es[|es| - 1];
      OptionsKeys(u, k);
      assert forall e :: e in es <==> e in u || e == l;
    }
  }

  // ---- Concatenation -------------------------------------------------------

  lemma {:induction false} RecordsJoin(a: bytes, b: bytes)
    requires WellFormed(a)
    ensures Records(a + b) == Records(a) + Records(b)
    decreases |a|
  {
    hide NextRecord, WellFormed;
    if a == [] {
      assert a + b == b;
      NothingInEmpty();
    } else {
      WellFormedStep(a);
      var r := NextRecord(a).value;
      var rest := a[|r.text|..];
      NextIsAtomic(a);
      NextOfAtomic(r, rest + b);
      Seqs.Associate(r.text, rest, b);
      assert a == r.text + rest;
      assert (a + b)[|r.text|..] == rest + b;
      RecordsStep(a);
      RecordsStep(a + b);
      RecordsJoin(rest, b);
    }
  }

  lemma WellFormedStep(a: bytes)
    requires WellFormed(a) && a != []
    ensures NextRecord(a).Some?
    ensures |NextRecord(a).value.text| > 0 && WellFormed(a[|NextRecord(a).value.text|..])
  {
    hide NextRecord;
    if NextRecord(a).Some? {
      RecordsStep(a);
      var r := NextRecord(a).value;
      assert Records(a)[1..] == Records(a[|r.text|..]);
      assert Concat(Records(a)) == r.text + Concat(Records(a)[1..]);
      assert a[|r.text|..] == Concat(Records(a)[1..]);
    }
  }

  /** A list carrier followed by another reads as the two lists in a row, and so do
      function carriers. */
  lemma ReadOfConcat(a: bytes, b: bytes)
    requires WellFormed(a)
    ensures ReadList(a + b) == ReadList(a) + ReadList(b)
    ensures ReadFunctions(a + b) == ReadFunctions(a) + ReadFunctions(b)
  {
    hide Records, Payloads, ReadAnnotation, ReadDecl, WellFormed;
    RecordsJoin(a, b);
    PayloadsJoin(Records(a), Records(b), 1);
    var p, q := Payloads(Records(a), 1), Payloads(Records(b), 1);
    assert ReadEach(p + q) == ReadEach(p) + ReadEach(q);
    assert ReadDeclEach(p + q) == ReadDeclEach(p) + ReadDeclEach(q);
  }

  /** The annotations of options: the lists of every occurrence of the carrier, in
      a row. */
  const ANNOTATIONS := 1327

  function Lists(ps: seq<bytes>): seq<Carriers.Annotation>
  {
    if ps == [] then [] else Lists(ps[..|ps| - 1]) + ReadList(ps[|ps| - 1])
  }

  method ReadAnnotations(unknown: bytes) returns (anns: seq<Carriers.Annotation>)
    ensures anns == Lists(Payloads(Records(unknown), 1327))
  {
    hide Records, Payloads, ReadList;
    var ps := ForEachMessageField(unknown, ANNOTATIONS);
    anns := [];
    for i := 0 to |ps|
      invariant anns == Lists(ps[..i])
    {
      var l := ParseAnnotationList(ps[i]);
      anns := anns + l;
      assert ps[..i + 1][..i] == ps[..i];
    }
    assert ps[..|ps|] == ps;
  }

  /** A carrier split over two occurrences is read like the whole. */
  lemma SplitCarrier(a: bytes, b: bytes)
    requires WellFormed(a) && |a + b| < WORD
    ensures Lists(Payloads(Records(LenRecord(ANNOTATIONS, a) + LenRecord(ANNOTATIONS, b)), ANNOTATIONS))
         == Lists(Payloads(Records(LenRecord(ANNOTATIONS, a + b)), ANNOTATIONS))
         == ReadList(a + b)
  {
    hide Is, LenRecord, Record.Payload, Records, Payloads, ReadList, WellFormed;
    var n := ANNOTATIONS;
    IsLen(n, a);
    IsLen(n, b);
    IsLen(n, a + b);
    IsJoin(LenRecord(n, a), [LenRec(n, a)], LenRecord(n, b), [LenRec(n, b)]);
    IsRecords(LenRecord(n, a) + LenRecord(n, b), [LenRec(n, a)] + [LenRec(n, b)]);
    IsRecords(LenRecord(n, a + b), [LenRec(n, a + b)]);
    PayloadsJoin([LenRec(n, a)], [LenRec(n, b)], n);
    PayloadsOfOne(n, a, n);
    PayloadsOfOne(n, b, n);
    PayloadsOfOne(n, a + b, n);
    ReadOfConcat(a, b);
    ListsOfTwo(a, b);
    ListsOfOne(a + b);
  }

  lemma ListsOfOne(a: bytes)
    ensures Lists([a]) == ReadList(a)
  {
    hide ReadList;
    assert [a][..0] == [];
  }

  lemma ListsOfTwo(a: bytes, b: bytes)
    ensures Lists([a] + [b]) == ReadList(a) + ReadList(b)
  {
    hide ReadList;
    ListsOfOne(a);
    assert ([a] + [b])[..1] == [a];
  }
}
