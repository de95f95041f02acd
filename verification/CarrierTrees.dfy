/** Whole carriers: nested values written as bytes and read back as the same nested values
    (cmd/protoc-gen-pxf-go/schema_extensions.go:72-222, cmd/protoc-gen-pxf-go/schema_extensions_test.go:29-110). */
module CarrierTrees {
  import opened Wire
  import opened Carriers
  import opened CarrierCodec

  datatype NamedValue = NamedValue(name: bytes, value: Value)

  datatype AnnotationTree = AnnotationTree(name: bytes, args: seq<NamedValue>)

  datatype Setting = Setting(key: bytes, value: NamedValue)

  datatype FunctionTree = FunctionTree(name: bytes, params: seq<Param>, settings: seq<Setting>)

  /** Integers and floats are 64 bits wide, and other values are a literal or an expression; the lengths of everything
      else follow from the length of the whole. */
  predicate Wide(v: NamedValue)
  {
    match v.value
    case IntValue(i) => -(WORD / 2) <= i < WORD / 2
    case FloatValue(w) => w < WORD
    case OtherValue(num, _) => num == 15 || num == 20
    case _ => true
  }

  ghost predicate AllWide(vs: seq<NamedValue>)
  {
    forall v :: v in vs ==> Wide(v)
  }

  // ---- Bytes ----

  function ArgBytes(v: NamedValue): bytes
  {
    EncodeArg(v.name, v.value)
  }

  function ArgsBytes(vs: seq<NamedValue>): (ps: seq<bytes>)
    ensures |ps| == |vs| && forall i :: 0 <= i < |vs| ==> ps[i] == ArgBytes(vs[i])
  {
    seq(|vs|, i requires 0 <= i < |vs| => ArgBytes(vs[i]))
  }

  function TreeBytes(t: AnnotationTree): bytes
  {
    EncodeAnnotation(t.name, ArgsBytes(t.args))
  }

  function TreesBytes(ts: seq<AnnotationTree>): (ps: seq<bytes>)
    ensures |ps| == |ts| && forall i :: 0 <= i < |ts| ==> ps[i] == TreeBytes(ts[i])
  {
    seq(|ts|, i requires 0 <= i < |ts| => TreeBytes(ts[i]))
  }

  /** An annotation list as the carrier's bytes. */
  function ListBytes(ts: seq<AnnotationTree>): bytes
  {
    EncodeList(TreesBytes(ts))
  }

  function ParamsBytes(ps: seq<Param>): (bs: seq<bytes>)
    ensures |bs| == |ps| && forall i :: 0 <= i < |ps| ==> bs[i] == EncodeParam(ps[i].name, ps[i].typ)
  {
    seq(|ps|, i requires 0 <= i < |ps| => EncodeParam(ps[i].name, ps[i].typ))
  }

  function SettingBytes(s: Setting): bytes
  {
    EncodeOption(s.key, ArgBytes(s.value))
  }

  function SettingsBytes(ss: seq<Setting>): (bs: seq<bytes>)
    ensures |bs| == |ss| && forall i :: 0 <= i < |ss| ==> bs[i] == SettingBytes(ss[i])
  {
    seq(|ss|, i requires 0 <= i < |ss| => SettingBytes(ss[i]))
  }

  function FunctionBytes(f: FunctionTree): bytes
  {
    EncodeDecl(f.name, ParamsBytes(f.params), SettingsBytes(f.settings))
  }

  function FunctionsBytes(fs: seq<FunctionTree>): (bs: seq<bytes>)
    ensures |bs| == |fs| && forall i :: 0 <= i < |fs| ==> bs[i] == FunctionBytes(fs[i])
  {
    seq(|fs|, i requires 0 <= i < |fs| => FunctionBytes(fs[i]))
  }

  /** The functions of a file as the carrier's bytes. */
  function FileBytes(fs: seq<FunctionTree>): bytes
  {
    EncodeList(FunctionsBytes(fs))
  }

  // ---- What the readers make of the values ----

  function ArgTaken(v: NamedValue): Arg
  {
    ArgFor(v.name, v.value)
  }

  function TreeTaken(t: AnnotationTree): Carriers.Annotation
  {
    Carriers.Annotation(t.name, seq(|t.args|, i requires 0 <= i < |t.args| => ArgTaken(t.args[i])))
  }

  /** A later setting replaces an earlier one of its key; one without a key is dropped. */
  function SettingsTaken(ss: seq<Setting>): map<bytes, Arg>
  {
    if ss == [] then map[]
    else
      var last, before := ss[|ss| - 1], SettingsTaken(ss[..|ss| - 1]);
      if last.key == [] then before else before[last.key := ArgTaken(last.value)]
  }

  function FunctionTaken(f: FunctionTree): Decl
  {
    Decl(f.name, f.params, SettingsTaken(f.settings))
  }

  ghost predicate SettingsWide(ss: seq<Setting>)
  {
    forall s :: s in ss ==> Wide(s.value)
  }

  // ---- Lengths ----

  lemma LenRecordLonger(num: nat, p: bytes)
    ensures |LenRecord(num, p)| >= |p|
  {
  }

  lemma {:induction false} EachLonger(num: nat, ps: seq<bytes>, p: bytes)
    requires p in ps
    ensures |EncodeEach(num, ps)| >= |p|
  {
    hide LenRecord;
    var before, last := ps[..|ps| - 1], ps[|ps| - 1];
    LenRecordLonger(num, last);
    if p != last {
      assert ps == before + [last];
      EachLonger(num, before, p);
    }
  }

  lemma EachFits(num: nat, ps: seq<bytes>)
    requires |EncodeEach(num, ps)| < WORD
    ensures forall p :: p in ps ==> |p| < WORD
  {
    hide EncodeEach;
    forall p | p in ps
      ensures |p| < WORD
    {
      EachLonger(num, ps, p);
    }
  }

  lemma ArgFits(v: NamedValue)
    requires |ArgBytes(v)| < WORD && Wide(v)
    ensures |v.name| < WORD && Storable(v.value)
  {
    hide LenRecord, VarintRecord;
    LenRecordLonger(1, v.name);
    match v.value
    case StringValue(s) => LenRecordLonger(10, s);
    case BytesValue(raw) => LenRecordLonger(14, raw);
    case OtherValue(num, form) => LenRecordLonger(num, form);
    case _ =>
  }

  // ---- Round trips ----

  lemma ArgsReadBack(vs: seq<NamedValue>)
    requires AllWide(vs) && forall p :: p in ArgsBytes(vs) ==> |p| < WORD
    ensures ReadArgs(ArgsBytes(vs)) == seq(|vs|, i requires 0 <= i < |vs| => ArgTaken(vs[i]))
  {
    hide ArgBytes, ReadArg, ArgTaken;
    forall i | 0 <= i < |vs|
      ensures ReadArg(ArgsBytes(vs)[i]) == ArgTaken(vs[i])
    {
      assert ArgsBytes(vs)[i] in ArgsBytes(vs);
      assert vs[i] in vs;
      ArgReadsBack(vs[i]);
    }
  }

  lemma ArgReadsBack(v: NamedValue)
    requires |ArgBytes(v)| < WORD && Wide(v)
    ensures ReadArg(ArgBytes(v)) == ArgTaken(v)
  {
    ArgFits(v);
    hide ReadArg, EncodeArg, ArgFor;
    ArgRoundTrip(v.name, v.value);
  }

  lemma TreeReadsBack(t: AnnotationTree)
    requires AllWide(t.args) && |TreeBytes(t)| < WORD
    ensures ReadAnnotation(TreeBytes(t)) == TreeTaken(t)
  {
    hide ReadAnnotation, EncodeEach, LenRecord, ArgTaken, ReadArg;
    var ps := ArgsBytes(t.args);
    LenRecordLonger(1, t.name);
    EachFits(2, ps);
    ArgsReadBack(t.args);
    AnnotationRoundTrip(t.name, ps);
  }

  /** Annotations written as a carrier are read back as they were, names, arguments and values. */
  lemma ListReadsBack(ts: seq<AnnotationTree>)
    requires |ListBytes(ts)| < WORD && forall t :: t in ts ==> AllWide(t.args)
    ensures ReadList(ListBytes(ts)) == seq(|ts|, i requires 0 <= i < |ts| => TreeTaken(ts[i]))
  {
    hide ReadList, EncodeEach, TreeBytes, TreeTaken, ReadAnnotation, AllWide;
    var ps := TreesBytes(ts);
    EachFits(1, ps);
    ListRoundTrip(ps);
    forall i | 0 <= i < |ts|
      ensures ReadAnnotation(ps[i]) == TreeTaken(ts[i])
    {
      assert ps[i] in ps && ts[i] in ts;
      TreeReadsBack(ts[i]);
    }
  }

  lemma ParamFits(p: Param)
    requires |EncodeParam(p.name, p.typ)| < WORD
    ensures ReadParam(EncodeParam(p.name, p.typ)) == p
  {
    LenRecordLonger(1, p.name);
    LenRecordLonger(2, p.typ);
    hide LenRecord, ReadParam;
    ParamRoundTrip(p.name, p.typ);
  }

  lemma ParamsReadBack(ps: seq<Param>)
    requires forall b :: b in ParamsBytes(ps) ==> |b| < WORD
    ensures ReadParams(ParamsBytes(ps)) == ps
  {
    hide ReadParam, EncodeParam;
    forall i | 0 <= i < |ps|
      ensures ReadParam(ParamsBytes(ps)[i]) == ps[i]
    {
      assert ParamsBytes(ps)[i] in ParamsBytes(ps);
      ParamFits(ps[i]);
    }
  }

  lemma SettingReadsBack(s: Setting)
    requires Wide(s.value) && |SettingBytes(s)| < WORD
    ensures EntryKey(SettingBytes(s)) == s.key && EntryValue(SettingBytes(s)) == ArgTaken(s.value)
  {
    LenRecordLonger(1, s.key);
    LenRecordLonger(2, ArgBytes(s.value));
    hide LenRecord, ArgBytes, ReadArg, ArgTaken, EntryKey, EntryValue;
    OptionRoundTrip(s.key, ArgBytes(s.value));
    ArgReadsBack(s.value);
  }

  lemma {:induction false} SettingsReadBack(ss: seq<Setting>)
    requires SettingsWide(ss) && forall b :: b in SettingsBytes(ss) ==> |b| < WORD
    ensures ReadOptions(SettingsBytes(ss)) == SettingsTaken(ss)
  {
    hide SettingBytes, ArgTaken, EntryKey, EntryValue, Wide;
    if ss != [] {
      var before, last := ss[..|ss| - 1], ss[|ss| - 1];
      var bs := SettingsBytes(ss);
      assert bs[..|bs| - 1] == SettingsBytes(before);
      assert bs[|bs| - 1] in bs && last in ss;
      assert forall s :: s in before ==> s in ss;
      assert forall b :: b in SettingsBytes(before) ==> b in bs;
      SettingReadsBack(last);
      SettingsReadBack(before);
    }
  }

  lemma FunctionReadsBack(f: FunctionTree)
    requires SettingsWide(f.settings) && |FunctionBytes(f)| < WORD
    ensures ReadDecl(FunctionBytes(f)) == FunctionTaken(f)
  {
    hide ReadDecl, EncodeEach, LenRecord, ReadOptions;
    hide SettingsTaken, SettingsWide, ReadParam, EncodeParam, SettingBytes;
    var ps, es := ParamsBytes(f.params), SettingsBytes(f.settings);
    LenRecordLonger(1, f.name);
    EachFits(2, ps);
    EachFits(3, es);
    ParamsReadBack(f.params);
    SettingsReadBack(f.settings);
    assert forall p :: p in ps + es <==> p in ps || p in es;
    DeclRoundTrip(f.name, ps, es);
  }

  /** The functions of a file written as a carrier are read back as they were: names, parameters and settings. */
  lemma FileReadsBack(fs: seq<FunctionTree>)
    requires |FileBytes(fs)| < WORD && forall f :: f in fs ==> SettingsWide(f.settings)
    ensures ReadFunctions(FileBytes(fs)) == seq(|fs|, i requires 0 <= i < |fs| => FunctionTaken(fs[i]))
  {
    hide ReadFunctions, EncodeEach, FunctionBytes, FunctionTaken, ReadDecl, SettingsWide;
    var ps := FunctionsBytes(fs);
    EachFits(1, ps);
    FunctionsRoundTrip(ps);
    forall i | 0 <= i < |fs|
      ensures ReadDecl(ps[i]) == FunctionTaken(fs[i])
    {
      assert ps[i] in ps && fs[i] in fs;
      FunctionReadsBack(fs[i]);
    }
  }

  lemma FunctionsRoundTrip(ps: seq<bytes>)
    requires forall p :: p in ps ==> |p| < WORD
    ensures ReadFunctions(EncodeList(ps)) == ReadDeclEach(ps)
  {
    hide Is, Records, Payloads, ReadDecl, PayloadsOf;
    IsEach(1, ps);
    IsRecords(EncodeList(ps), LenRecs(1, ps));
    PayloadsOfLenRecs(1, ps, 1);
  }
}
