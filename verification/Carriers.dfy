/** Reading the schema-extension carriers out of descriptor options: annotation
    lists, function declarations and type aliases, decoded from field records.
    Malformed input ends a scan where it stands. */
module Carriers {
  import opened Options
  import opened Wire

  datatype ArgKind = NoValue | StringArg | IntArg | FloatArg | BoolArg | BytesArg | OtherArg

  /** One annotation argument. Floats are their 64 bits. */
  datatype Arg = Arg(name: bytes, kind: ArgKind, text: bytes, integer: int, float: nat, flag: bool, raw: bytes)

  datatype Annotation = Annotation(name: bytes, args: seq<Arg>)

  datatype Param = Param(name: bytes, typ: bytes)

  datatype Decl = Decl(name: bytes, params: seq<Param>, options: map<bytes, Arg>)

  // ---- What the records of a message say -----------------------------------

  /** The records of number num and wire type typ. */
  function Matching(rs: seq<Record>, num: nat, typ: nat): (m: seq<Record>)
    ensures forall r :: r in m ==> r in rs && r.num == num && r.typ == typ
  {
    if rs == [] then []
    else
      var l := rs[|rs| - 1];
      Matching(rs[..|rs| - 1], num, typ) + (if l.num == num && l.typ == typ then [l] else [])
  }

  /** The payloads of the length-delimited records of number num. */
  function Payloads(rs: seq<Record>, num: nat): seq<bytes>
  {
    PayloadsOf(Matching(rs, num, LEN))
  }

  function PayloadsOf(rs: seq<Record>): (ps: seq<bytes>)
    ensures |ps| == |rs|
  {
    seq(|rs|, i requires 0 <= i < |rs| => rs[i].Payload())
  }

  function Last<T>(s: seq<T>, default: T): T
  {
    if s == [] then default else s[|s| - 1]
  }

  /** A varint field's value. */
  function VarintOf(r: Record): nat
  {
    match ConsumeVarint(r.Body())
    case None => 0
    case Some(t) => t.value
  }

  function LittleEndian(b: bytes): nat
  {
    if b == [] then 0 else b[0] + 256 * LittleEndian(b[1..])
  }

  function Fixed64Of(r: Record): nat
  {
    LittleEndian(r.Body())
  }

  /** The signed reading of a 64-bit word. */
  function Signed(v: nat): int
  {
    if v % WORD < WORD / 2 then v % WORD else v % WORD - WORD
  }

  /** Which value member of an argument a record is. */
  function MemberKind(r: Record): ArgKind
  {
    if r.num == 10 && r.typ == LEN then StringArg
    else if r.num == 11 && r.typ == VARINT then IntArg
    else if r.num == 12 && r.typ == FIXED64 then FloatArg
    else if r.num == 13 && r.typ == VARINT then BoolArg
    else if r.num == 14 && r.typ == LEN then BytesArg
    else if (r.num == 15 || r.num == 20) && r.typ == LEN then OtherArg
    else NoValue
  }

  /** The kind of the last value member. */
  function LastKind(rs: seq<Record>): ArgKind
  {
    if rs == [] then NoValue
    else if MemberKind(rs[|rs| - 1]) != NoValue then MemberKind(rs[|rs| - 1])
    else LastKind(rs[..|rs| - 1])
  }

  function LastVarint(rs: seq<Record>, num: nat): nat
  {
    var m := Matching(rs, num, VARINT);
    if m == [] then 0 else VarintOf(m[|m| - 1])
  }

  function LastFixed64(rs: seq<Record>, num: nat): nat
  {
    var m := Matching(rs, num, FIXED64);
    if m == [] then 0 else Fixed64Of(m[|m| - 1])
  }

  /** Each field of an argument is the last record's; its kind the last value
      member's, whichever that is. */
  function ArgOf(rs: seq<Record>): Arg
  {
    Arg(Last(Payloads(rs, 1), []), LastKind(rs), Last(Payloads(rs, 10), []), Signed(LastVarint(rs, 11)),
        LastFixed64(rs, 12), LastVarint(rs, 13) != 0, Last(Payloads(rs, 14), []))
  }

  function ReadArg(b: bytes): Arg
  {
    ArgOf(Records(b))
  }

  function ReadArgs(ps: seq<bytes>): (s: seq<Arg>)
    ensures |s| == |ps|
    ensures forall i :: 0 <= i < |ps| ==> s[i] == ReadArg(ps[i])
  {
    seq(|ps|, i requires 0 <= i < |ps| => ReadArg(ps[i]))
  }

  function ReadAnnotation(b: bytes): Annotation
  {
    Annotation(Last(Payloads(Records(b), 1), []), ReadArgs(Payloads(Records(b), 2)))
  }

  function ReadEach(ps: seq<bytes>): (s: seq<Annotation>)
    ensures |s| == |ps|
    ensures forall i :: 0 <= i < |ps| ==> s[i] == ReadAnnotation(ps[i])
  {
    seq(|ps|, i requires 0 <= i < |ps| => ReadAnnotation(ps[i]))
  }

  function ReadList(b: bytes): seq<Annotation>
  {
    ReadEach(Payloads(Records(b), 1))
  }

  function ReadParam(b: bytes): Param
  {
    Param(Last(Payloads(Records(b), 1), []), Last(Payloads(Records(b), 2), []))
  }

  function ReadParams(ps: seq<bytes>): (s: seq<Param>)
    ensures |s| == |ps|
    ensures forall i :: 0 <= i < |ps| ==> s[i] == ReadParam(ps[i])
  {
    seq(|ps|, i requires 0 <= i < |ps| => ReadParam(ps[i]))
  }

  function EntryKey(b: bytes): bytes
  {
    Last(Payloads(Records(b), 1), [])
  }

  function EntryValue(b: bytes): Arg
  {
    var vs := Payloads(Records(b), 2);
    if vs == [] then ArgOf([]) else ReadArg(vs[|vs| - 1])
  }

  /** The options of a list of map entries: a later entry replaces an earlier one
      of the same key, and an entry without a key is dropped. */
  function ReadOptions(es: seq<bytes>): map<bytes, Arg>
  {
    if es == [] then map[]
    else
      var e := es[|es| - 1];
      var m := ReadOptions(es[..|es| - 1]);
      if EntryKey(e) == [] then m else m[EntryKey(e) := EntryValue(e)]
  }

  function ReadDecl(b: bytes): Decl
  {
    var rs := Records(b);
    Decl(Last(Payloads(rs, 1), []), ReadParams(Payloads(rs, 2)), ReadOptions(Payloads(rs, 3)))
  }

  function ReadDeclEach(ps: seq<bytes>): (s: seq<Decl>)
    ensures |s| == |ps|
    ensures forall i :: 0 <= i < |ps| ==> s[i] == ReadDecl(ps[i])
  {
    seq(|ps|, i requires 0 <= i < |ps| => ReadDecl(ps[i]))
  }

  function ReadFunctions(b: bytes): seq<Decl>
  {
    ReadDeclEach(Payloads(Records(b), 1))
  }

  // ---- The readers ---------------------------------------------------------

  lemma RecordsStep(b: bytes)
    requires NextRecord(b).Some?
    ensures var r := NextRecord(b).value;
            Records(b) == [r] + Records(b[|r.text|..])
  {
  }

  /** What is read when b is cut after the records in done. */
  ghost predicate Scanned(whole: bytes, done: seq<Record>, b: bytes)
  {
    Records(whole) == done + Records(b)
  }

  lemma ScannedStart(whole: bytes)
    ensures Scanned(whole, [], whole)
  {
  }

  lemma ScannedStep(whole: bytes, done: seq<Record>, b: bytes)
    requires Scanned(whole, done, b) && NextRecord(b).Some?
    ensures Scanned(whole, done + [NextRecord(b).value], b[|NextRecord(b).value.text|..])
  {
    RecordsStep(b);
    hide Records, NextRecord;
  }

  lemma ScannedEnd(whole: bytes, done: seq<Record>, b: bytes)
    requires Scanned(whole, done, b) && (b == [] || NextRecord(b).None?)
    ensures Records(whole) == done
  {
    if b == [] {
      NothingInEmpty();
    }
  }

  lemma MatchingStep(rs: seq<Record>, r: Record, num: nat, typ: nat)
    ensures Matching(rs + [r], num, typ)
         == if r.num == num && r.typ == typ then Matching(rs, num, typ) + [r] else Matching(rs, num, typ)
  {
    assert (rs + [r])[..|rs|] == rs;
  }

  /** One more record adds its payload, when it is of the field asked for. */
  lemma PayloadsStep(rs: seq<Record>, r: Record, num: nat)
    ensures Payloads(rs + [r], num)
         == if r.num == num && r.typ == LEN then Payloads(rs, num) + [r.Payload()] else Payloads(rs, num)
  {
    MatchingStep(rs, r, num, LEN);
  }

  /** The payload of every length-delimited occurrence of field num. */
  method ForEachMessageField(whole: bytes, num: nat) returns (ps: seq<bytes>)
    ensures ps == Payloads(Records(whole), num)
  {
    hide NextRecord, Records, Scanned, Payloads, Record.Payload;
    var b := whole;
    ps := [];
    ghost var done: seq<Record> := [];
    ScannedStart(whole);
    NoPayloads(num);
    while |b| > 0
      invariant Scanned(whole, done, b)
      invariant ps == Payloads(done, num)
    {
      var next := NextRecord(b);
      if next.None? {
        break;
      }
      var r := next.value;
      PayloadsStep(done, r, num);
      ScannedStep(whole, done, b);
      if r.num == num && r.typ == LEN {
        ps := ps + [r.Payload()];
      }
      b := b[|r.text|..];
      done := done + [r];
    }
    ScannedEnd(whole, done, b);
  }

  lemma NoPayloads(num: nat)
    ensures Payloads([], num) == []
  {
  }

  /** The last length-delimited occurrences of fields 1 and 2. */
  method LastStrings(whole: bytes) returns (one: bytes, two: bytes)
    ensures one == Last(Payloads(Records(whole), 1), [])
    ensures two == Last(Payloads(Records(whole), 2), [])
  {
    hide NextRecord, Records, Scanned, Payloads, Record.Payload;
    var b := whole;
    one, two := [], [];
    ghost var done: seq<Record> := [];
    ScannedStart(whole);
    NoPayloads(1);
    NoPayloads(2);
    while |b| > 0
      invariant Scanned(whole, done, b)
      invariant one == Last(Payloads(done, 1), []) && two == Last(Payloads(done, 2), [])
    {
      var next := NextRecord(b);
      if next.None? {
        break;
      }
      var r := next.value;
      PayloadsStep(done, r, 1);
      PayloadsStep(done, r, 2);
      ScannedStep(whole, done, b);
      if r.typ == LEN {
        if r.num == 1 {
          one := r.Payload();
        } else if r.num == 2 {
          two := r.Payload();
        }
      }
      b := b[|r.text|..];
      done := done + [r];
    }
    ScannedEnd(whole, done, b);
  }

  /** An argument with one more record taken into account. */
  function ArgStep(a: Arg, r: Record): Arg
  {
    if r.num == 1 && r.typ == LEN then a.(name := r.Payload())
    else if r.num == 10 && r.typ == LEN then a.(kind := StringArg, text := r.Payload())
    else if r.num == 11 && r.typ == VARINT then a.(kind := IntArg, integer := Signed(VarintOf(r)))
    else if r.num == 12 && r.typ == FIXED64 then a.(kind := FloatArg, float := Fixed64Of(r))
    else if r.num == 13 && r.typ == VARINT then a.(kind := BoolArg, flag := VarintOf(r) != 0)
    else if r.num == 14 && r.typ == LEN then a.(kind := BytesArg, raw := r.Payload())
    else if (r.num == 15 || r.num == 20) && r.typ == LEN then a.(kind := OtherArg)
    else a
  }

  lemma LastStep(rs: seq<Record>, r: Record, num: nat)
    ensures Last(Payloads(rs + [r], num), [])
         == if r.num == num && r.typ == LEN then r.Payload() else Last(Payloads(rs, num), [])
  {
    hide Record.Payload;
    PayloadsStep(rs, r, num);
    hide Payloads;
  }

  lemma LastNumbersStep(rs: seq<Record>, r: Record, num: nat)
    ensures LastVarint(rs + [r], num) == if r.num == num && r.typ == VARINT then VarintOf(r) else LastVarint(rs, num)
    ensures LastFixed64(rs + [r], num) == if r.num == num && r.typ == FIXED64 then Fixed64Of(r)
              else LastFixed64(rs, num)
  {
    hide VarintOf, Fixed64Of;
    MatchingStep(rs, r, num, VARINT);
    MatchingStep(rs, r, num, FIXED64);
    hide Matching;
  }

  lemma LastKindStep(rs: seq<Record>, r: Record)
    ensures LastKind(rs + [r]) == if MemberKind(r) != NoValue then MemberKind(r) else LastKind(rs)
  {
    hide MemberKind;
    assert (rs + [r])[..|rs|] == rs;
  }

  lemma ArgOfStep(rs: seq<Record>, r: Record)
    ensures ArgOf(rs + [r]) == ArgStep(ArgOf(rs), r)
  {
    hide Payloads, Last, Record.Payload, VarintOf, Fixed64Of, LastVarint, LastFixed64, LastKind, Signed;
    LastStep(rs, r, 1);
    LastStep(rs, r, 10);
    LastStep(rs, r, 14);
    LastNumbersStep(rs, r, 11);
    LastNumbersStep(rs, r, 12);
    LastNumbersStep(rs, r, 13);
    LastKindStep(rs, r);
  }

  /** Decodes one annotation argument. */
  method ParseAnnotationArg(whole: bytes) returns (a: Arg)
    ensures a == ReadArg(whole)
  {
    hide NextRecord, Records, Scanned, ArgOf, Record.Payload, VarintOf, Fixed64Of, Signed;
    var b := whole;
    a := NoArg();
    ghost var done: seq<Record> := [];
    ScannedStart(whole);
    while |b| > 0
      invariant Scanned(whole, done, b)
      invariant a == ArgOf(done)
    {
      var next := NextRecord(b);
      if next.None? {
        break;
      }
      var r := next.value;
      ArgOfStep(done, r);
      ScannedStep(whole, done, b);
      if r.num == 1 && r.typ == LEN {
        a := a.(name := r.Payload());
      } else if r.num == 10 && r.typ == LEN {
        a := a.(kind := StringArg, text := r.Payload());
      } else if r.num == 11 && r.typ == VARINT {
        a := a.(kind := IntArg, integer := Signed(VarintOf(r)));
      } else if r.num == 12 && r.typ == FIXED64 {
        a := a.(kind := FloatArg, float := Fixed64Of(r));
      } else if r.num == 13 && r.typ == VARINT {
        a := a.(kind := BoolArg, flag := VarintOf(r) != 0);
      } else if r.num == 14 && r.typ == LEN {
        a := a.(kind := BytesArg, raw := r.Payload());
      } else if (r.num == 15 || r.num == 20) && r.typ == LEN {
        a := a.(kind := OtherArg);
      }
      b := b[|r.text|..];
      done := done + [r];
    }
    ScannedEnd(whole, done, b);
  }

  /** An argument of which nothing is known. */
  function NoArg(): (a: Arg)
    ensures a == ArgOf([])
  {
    Arg([], NoValue, [], 0, 0, false, [])
  }

  /** Decodes one annotation. */
  method ParseAnnotation(whole: bytes) returns (a: Annotation)
    ensures a == ReadAnnotation(whole)
  {
    hide NextRecord, Records, Scanned, Payloads, Record.Payload, ReadArg;
    var b := whole;
    a := Annotation([], []);
    ghost var done: seq<Record> := [];
    ScannedStart(whole);
    NoPayloads(1);
    NoPayloads(2);
    while |b| > 0
      invariant Scanned(whole, done, b)
      invariant a.name == Last(Payloads(done, 1), []) && a.args == ReadArgs(Payloads(done, 2))
    {
      var next := NextRecord(b);
      if next.None? {
        break;
      }
      var r := next.value;
      PayloadsStep(done, r, 1);
      PayloadsStep(done, r, 2);
      ScannedStep(whole, done, b);
      if r.typ == LEN {
        if r.num == 1 {
          a := a.(name := r.Payload());
        } else if r.num == 2 {
          var arg := ParseAnnotationArg(r.Payload());
          a := a.(args := a.args + [arg]);
        }
      }
      b := b[|r.text|..];
      done := done + [r];
    }
    ScannedEnd(whole, done, b);
  }

  /** Decodes an annotation list. */
  method ParseAnnotationList(b: bytes) returns (anns: seq<Annotation>)
    ensures anns == ReadList(b)
  {
    hide Records, Payloads, ReadAnnotation;
    var ps := ForEachMessageField(b, 1);
    anns := [];
    for i := 0 to |ps|
      invariant anns == ReadEach(ps[..i])
    {
      var a := ParseAnnotation(ps[i]);
      anns := anns + [a];
    }
    assert ps[..|ps|] == ps;
  }

  /** Decodes one function declaration. */
  method ParseFunctionDecl(whole: bytes) returns (d: Decl)
    ensures d == ReadDecl(whole)
  {
    hide NextRecord, Records, Scanned, Payloads, Record.Payload, ReadArg, EntryKey, EntryValue, ReadParam;
    var b := whole;
    d := Decl([], [], map[]);
    ghost var done: seq<Record> := [];
    ScannedStart(whole);
    NoPayloads(1);
    NoPayloads(2);
    NoPayloads(3);
    while |b| > 0
      invariant Scanned(whole, done, b)
      invariant d.name == Last(Payloads(done, 1), []) && d.params == ReadParams(Payloads(done, 2))
      invariant d.options == ReadOptions(Payloads(done, 3))
    {
      var next := NextRecord(b);
      if next.None? {
        break;
      }
      var r := next.value;
      PayloadsStep(done, r, 1);
      PayloadsStep(done, r, 2);
      PayloadsStep(done, r, 3);
      ScannedStep(whole, done, b);
      if r.typ == LEN {
        if r.num == 1 {
          d := d.(name := r.Payload());
        } else if r.num == 2 {
          var p := ParseParam(r.Payload());
          d := d.(params := d.params + [p]);
        } else if r.num == 3 {
          var key, val := ParseEntry(r.Payload());
          OptionsStep(Payloads(done, 3), r.Payload());
          if key != [] {
            d := d.(options := d.options[key := val]);
          }
        }
      }
      b := b[|r.text|..];
      done := done + [r];
    }
    ScannedEnd(whole, done, b);
  }

  lemma OptionsStep(es: seq<bytes>, e: bytes)
    ensures ReadOptions(es + [e])
         == if EntryKey(e) == [] then ReadOptions(es) else ReadOptions(es)[EntryKey(e) := EntryValue(e)]
  {
    hide EntryKey, EntryValue;
    assert (es + [e])[..|es|] == es;
  }

  method ParseParam(b: bytes) returns (p: Param)
    ensures p == ReadParam(b)
  {
    var name, typ := LastStrings(b);
    return Param(name, typ);
  }

  method ParseEntry(b: bytes) returns (key: bytes, val: Arg)
    ensures key == EntryKey(b) && val == EntryValue(b)
  {
    hide Records, Payloads, ArgOf;
    var vs := ForEachMessageField(b, 2);
    val := NoArg();
    for i := 0 to |vs|
      invariant val == if i == 0 then ArgOf([]) else ReadArg(vs[i - 1])
    {
      val := ParseAnnotationArg(vs[i]);
    }
    var name, _ := LastStrings(b);
    key := name;
  }

  /** Decodes the functions of a file. */
  method ParseFileFunctions(b: bytes) returns (decls: seq<Decl>)
    ensures decls == ReadFunctions(b)
  {
    hide Records, Payloads, ReadDecl;
    var ps := ForEachMessageField(b, 1);
    decls := [];
    for i := 0 to |ps|
      invariant decls == ReadDeclEach(ps[..i])
    {
      var d := ParseFunctionDecl(ps[i]);
      decls := decls + [d];
    }
    assert ps[..|ps|] == ps;
  }
}
