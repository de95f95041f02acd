/** The binary form of a BigFloat message (testdata/bigfloat/generate.py:52-78; message
  * BigFloat of proto/pxf/bignum.proto:35-40; Protocol Buffers encoding specification). */
module BigFloatWire {
  import opened Options
  import opened Wire
  import Seqs

  const WORD32 := 0x1_0000_0000

  /** The fields of the message: an integer mantissa, an int32 exponent, a uint32 precision, a sign. */
  datatype Fields = Fields(mant: nat, exp: int, prec: nat, neg: bool)

  predicate InRange(v: Fields)
  {
    -WORD32 / 2 <= v.exp < WORD32 / 2 && v.prec < WORD32
  }

  /** n in base 256, high digits first, no leading zero. */
  function BigEndian(n: nat): bytes
  {
    if n == 0 then [] else BigEndian(n / 256) + [n % 256]
  }

  function FromBigEndian(b: bytes): nat
  {
    if b == [] then 0 else 256 * FromBigEndian(b[..|b| - 1]) + b[|b| - 1]
  }

  lemma {:induction false} BigEndianRoundTrip(n: nat)
    ensures FromBigEndian(BigEndian(n)) == n
  {
    if n > 0 {
      BigEndianRoundTrip(n / 256);
      var b := BigEndian(n);
      assert b[..|b| - 1] == BigEndian(n / 256);
    }
  }

  /** n & 0xffffffffffffffff: how a negative int32 becomes a varint. */
  function Masked(n: int): nat
  {
    n % WORD
  }

  /** The int32 in the low bits of a varint. */
  function Int32(n: nat): int
  {
    var low := n % WORD32;
    if low < WORD32 / 2 then low else low - WORD32
  }

  lemma Int32OfMasked(n: int)
    requires -WORD32 / 2 <= n < WORD32 / 2
    ensures Int32(Masked(n)) == n && Masked(n) < WORD && (n != 0 ==> Masked(n) != 0)
  {
    if n < 0 {
      assert Masked(n) == WORD + n;
      assert (WORD + n) % WORD32 == WORD32 + n by {
        assert WORD + n == (WORD32 - 1) * WORD32 + (WORD32 + n);
      }
    }
  }

  function LenField(num: nat, payload: bytes): Record
    requires 1 <= num <= MAX_NUMBER
  {
    Record(num, LEN, |EncodeTag(num, LEN)|, LenRecord(num, payload))
  }

  function VarintField(num: nat, value: nat): Record
    requires 1 <= num <= MAX_NUMBER
  {
    Record(num, VARINT, |EncodeTag(num, VARINT)|, VarintRecord(num, value))
  }

  function MantissaRecords(m: nat): seq<Record>
  {
    if m != 0 then [LenField(1, BigEndian(m))] else []
  }

  function ExponentRecords(e: int): seq<Record>
  {
    if e != 0 then [VarintField(2, Masked(e))] else []
  }

  function PrecRecords(p: nat): seq<Record>
  {
    if p != 0 then [VarintField(3, p)] else []
  }

  function SignRecords(neg: bool): seq<Record>
  {
    if neg then [VarintField(4, 1)] else []
  }

  /** The records of the message: zero fields left out, in the order of their numbers. */
  function RecordsOf(v: Fields): seq<Record>
  {
    MantissaRecords(v.mant) + (ExponentRecords(v.exp) + (PrecRecords(v.prec) + SignRecords(v.neg)))
  }

  /** The message, alone as field 1 of the message that holds it. */
  function Encode(v: Fields): bytes
  {
    LenRecord(1, Concat(RecordsOf(v)))
  }

  /** A field record read into the message: the last of a number wins. */
  function Absorb(v: Fields, r: Record): Fields
  {
    if r.num == 1 && r.typ == LEN then v.(mant := FromBigEndian(r.Payload()))
    else if r.num == 2 && r.typ == VARINT then v.(exp := Int32(VarintOf(r)))
    else if r.num == 3 && r.typ == VARINT then v.(prec := VarintOf(r) % WORD32)
    else if r.num == 4 && r.typ == VARINT then v.(neg := VarintOf(r) != 0)
    else v
  }

  function VarintOf(r: Record): nat
  {
    match ConsumeVarint(r.Body()) case None => 0 case Some(t) => t.value
  }

  function AbsorbAll(v: Fields, rs: seq<Record>): Fields
    decreases rs
  {
    if rs == [] then v else AbsorbAll(Absorb(v, rs[0]), rs[1..])
  }

  const ZERO := Fields(0, 0, 0, false)

  /** The message inside the first field of the one that holds it. */
  function Decode(b: bytes): Option<Fields>
  {
    match NextRecord(b)
    case None => None
    case Some(r) =>
      if r.num == 1 && r.typ == LEN && |r.text| == |b| && WellFormed(r.Payload())
      then Some(AbsorbAll(ZERO, Records(r.Payload()))) else None
  }

  lemma {:induction false} AbsorbConcat(v: Fields, a: seq<Record>, b: seq<Record>)
    ensures AbsorbAll(v, a + b) == AbsorbAll(AbsorbAll(v, a), b)
    decreases a
  {
    hide Absorb;
    if a == [] {
      assert a + b == b;
    } else {
      AbsorbConcat(Absorb(v, a[0]), a[1..], b);
      assert (a + b)[1..] == a[1..] + b;
    }
  }

  lemma AbsorbOne(v: Fields, r: Record)
    ensures AbsorbAll(v, [r]) == Absorb(v, r)
  {
    hide Absorb;
    assert [r][1..] == [];
  }

  lemma MantissaAbsorbed(v: Fields, m: nat)
    requires v.mant == 0 && |BigEndian(m)| < WORD
    ensures AbsorbAll(v, MantissaRecords(m)) == v.(mant := m)
    ensures forall r :: r in MantissaRecords(m) ==> Atomic(r)
  {
    LenRecordParses(1, BigEndian(m));
    BigEndianRoundTrip(m);
    hide LenRecord, BigEndian, FromBigEndian, ConsumeBytes, NextRecord, AbsorbAll;
    MaybeOne(v, m != 0, LenField(1, BigEndian(m)));
  }

  lemma VarintAbsorbed(num: nat, n: nat)
    requires 2 <= num <= 4 && n < WORD
    ensures Atomic(VarintField(num, n)) && VarintOf(VarintField(num, n)) == n
  {
    VarintRecordParses(num, n);
    hide VarintRecord, NextRecord;
  }

  lemma ExponentAbsorbed(v: Fields, e: int)
    requires v.exp == 0 && -WORD32 / 2 <= e < WORD32 / 2
    ensures AbsorbAll(v, ExponentRecords(e)) == v.(exp := e)
    ensures forall r :: r in ExponentRecords(e) ==> Atomic(r)
  {
    Int32OfMasked(e);
    VarintAbsorbed(2, Masked(e));
    hide VarintRecord, NextRecord, AbsorbAll, Masked, Int32, VarintOf, Atomic;
    MaybeOne(v, e != 0, VarintField(2, Masked(e)));
  }

  lemma PrecStep(v: Fields, p: nat)
    requires p < WORD32 && VarintOf(VarintField(3, p)) == p
    ensures Absorb(v, VarintField(3, p)) == v.(prec := p)
  {
    hide VarintRecord, VarintOf;
  }

  lemma PrecAbsorbed(v: Fields, p: nat)
    requires v.prec == 0 && p < WORD32
    ensures AbsorbAll(v, PrecRecords(p)) == v.(prec := p)
    ensures forall r :: r in PrecRecords(p) ==> Atomic(r)
  {
    VarintAbsorbed(3, p);
    PrecStep(v, p);
    hide VarintRecord, NextRecord, AbsorbAll, Absorb, VarintField, VarintOf, Atomic;
    MaybeOne(v, p != 0, VarintField(3, p));
  }

  lemma SignAbsorbed(v: Fields, neg: bool)
    requires !v.neg
    ensures AbsorbAll(v, SignRecords(neg)) == v.(neg := neg)
    ensures forall r :: r in SignRecords(neg) ==> Atomic(r)
  {
    VarintAbsorbed(4, 1);
    hide VarintRecord, NextRecord, AbsorbAll, VarintOf, Atomic;
    MaybeOne(v, neg, VarintField(4, 1));
  }

  /** Reading the records of a message gives the message. */
  lemma RecordsAbsorbed(v: Fields)
    requires InRange(v) && |BigEndian(v.mant)| < WORD
    ensures AbsorbAll(ZERO, RecordsOf(v)) == v
    ensures forall r :: r in RecordsOf(v) ==> Atomic(r)
  {
    hide BigEndian, AbsorbAll, Atomic, MantissaRecords, ExponentRecords, PrecRecords, SignRecords;
    var a, b, c, d := MantissaRecords(v.mant), ExponentRecords(v.exp), PrecRecords(v.prec), SignRecords(v.neg);
    var v1 := ZERO.(mant := v.mant);
    var v2 := v1.(exp := v.exp);
    var v3 := v2.(prec := v.prec);
    MantissaAbsorbed(ZERO, v.mant);
    ExponentAbsorbed(v1, v.exp);
    PrecAbsorbed(v2, v.prec);
    SignAbsorbed(v3, v.neg);
    AbsorbConcat(ZERO, a, b + (c + d));
    AbsorbConcat(v1, b, c + d);
    AbsorbConcat(v2, c, d);
  }

  lemma MaybeOne(v: Fields, present: bool, r: Record)
    ensures AbsorbAll(v, if present then [r] else []) == if present then Absorb(v, r) else v
  {
    AbsorbOne(v, r);
    hide Absorb;
  }

  /** A message encoded and read is the message. */
  lemma EncodeRoundTrip(v: Fields)
    requires InRange(v) && |BigEndian(v.mant)| < WORD && |Concat(RecordsOf(v))| < WORD
    ensures Decode(Encode(v)) == Some(v)
  {
    RecordsAbsorbed(v);
    hide RecordsOf, AbsorbAll;
    var sub := Concat(RecordsOf(v));
    RecordsOfConcat(RecordsOf(v));
    LenRecordParses(1, sub);
    var r := Record(1, LEN, |EncodeTag(1, LEN)|, LenRecord(1, sub));
    hide NextRecord, LenRecord, Concat, Records, EncodeVarint;
    assert NextRecord(Encode(v)) == Some(r);
  }

  /** Two messages with the same bytes are the same message. */
  lemma EncodeInjective(v: Fields, w: Fields)
    requires InRange(v) && |BigEndian(v.mant)| < WORD && |Concat(RecordsOf(v))| < WORD
    requires InRange(w) && |BigEndian(w.mant)| < WORD && |Concat(RecordsOf(w))| < WORD
    requires Encode(v) == Encode(w)
    ensures v == w
  {
    hide Encode, Decode, RecordsOf, BigEndian, Concat;
    EncodeRoundTrip(v);
    EncodeRoundTrip(w);
  }

  // ---- The encoder ----

  /** varint: seven bits at a time, low ones first. */
  method Varint(n: int) returns (out: bytes)
    ensures out == EncodeVarint(Masked(n))
  {
    var left: nat := Masked(n);
    out := [];
    while left >= 128
      invariant out + EncodeVarint(left) == EncodeVarint(Masked(n))
    {
      Seqs.Associate(out, [left % 128 + 128], EncodeVarint(left / 128));
      out := out + [left % 128 + 128];
      left := left / 128;
    }
    out := out + [left];
  }

  /** bigfloat_pb. */
  method BigFloatPb(v: Fields) returns (b: bytes)
    requires InRange(v) && |BigEndian(v.mant)| < WORD && |Concat(RecordsOf(v))| < WORD
    ensures b == Encode(v)
  {
    Tags();
    SubConcat(v);
    hide EncodeVarint, EncodeTag, BigEndian, RecordsOf, Concat, VarintText, LenRecord;
    var sub: bytes := [];
    if v.mant != 0 {
      sub := LenBytes([0x0a], BigEndian(v.mant));
    }
    sub := AppendVarint(sub, v.exp != 0, 2, [0x10], v.exp);
    sub := AppendVarint(sub, v.prec != 0, 3, [0x18], v.prec);
    sub := AppendVarint(sub, v.neg, 4, [0x20], 1);
    b := LenBytes([0x0a], sub);
  }

  /** A length-delimited field after its tag. */
  method LenBytes(tag: bytes, payload: bytes) returns (out: bytes)
    requires tag == EncodeTag(1, LEN) && |payload| < WORD
    ensures out == LenRecord(1, payload)
  {
    hide EncodeVarint, EncodeTag;
    var len := Varint(|payload|);
    assert Masked(|payload|) == |payload|;
    out := tag + len + payload;
  }

  function MantissaText(m: nat): bytes
  {
    if m != 0 then LenRecord(1, BigEndian(m)) else []
  }

  function VarintText(present: bool, num: nat, n: int): bytes
  {
    if present then VarintRecord(num, Masked(n)) else []
  }

  /** A varint field after its tag, where it is not zero. */
  method AppendVarint(sub: bytes, present: bool, num: nat, tag: bytes, n: int) returns (out: bytes)
    requires tag == EncodeTag(num, VARINT)
    ensures out == sub + VarintText(present, num, n)
  {
    hide EncodeVarint, EncodeTag;
    out := sub;
    if present {
      var value := Varint(n);
      out := out + (tag + value);
    } else {
      assert sub + [] == sub;
    }
  }

  lemma Tags()
    ensures EncodeTag(1, LEN) == [0x0a] && EncodeTag(2, VARINT) == [0x10]
    ensures EncodeTag(3, VARINT) == [0x18] && EncodeTag(4, VARINT) == [0x20] && EncodeVarint(1) == [0x01]
  {
  }

  /** The bytes of the records, field by field. */
  lemma SubConcat(v: Fields)
    requires v.prec < WORD
    ensures Concat(RecordsOf(v))
         == MantissaText(v.mant) + VarintText(v.exp != 0, 2, v.exp) + VarintText(v.prec != 0, 3, v.prec)
             + VarintText(v.neg, 4, 1)
  {
    hide BigEndian, LenRecord, VarintRecord, Concat;
    MaybeText(v.mant != 0, LenField(1, BigEndian(v.mant)));
    MaybeText(v.exp != 0, VarintField(2, Masked(v.exp)));
    MaybeText(v.prec != 0, VarintField(3, v.prec));
    MaybeText(v.neg, VarintField(4, 1));
    assert Masked(v.prec) == v.prec && Masked(1) == 1;
    var a, b, c, d := MantissaRecords(v.mant), ExponentRecords(v.exp), PrecRecords(v.prec), SignRecords(v.neg);
    hide MantissaRecords, ExponentRecords, PrecRecords, SignRecords, MantissaText, VarintText;
    ConcatAppend(a, b + (c + d));
    ConcatAppend(b, c + d);
    ConcatAppend(c, d);
    Seqs.Associate(Concat(a), Concat(b), Concat(c) + Concat(d));
    Seqs.Associate(Concat(a) + Concat(b), Concat(c), Concat(d));
  }

  lemma MaybeText(present: bool, r: Record)
    ensures Concat(if present then [r] else []) == if present then r.text else []
  {
    assert [r][1..] == [];
    assert r.text + [] == r.text;
  }

  /** The bytes of a number are the ones without a leading zero that stand for it. */
  lemma {:induction false} BigEndianIs(n: nat, b: bytes)
    ensures b == BigEndian(n) <==> FromBigEndian(b) == n && (b != [] ==> b[0] != 0)
  {
    BigEndianRoundTrip(n);
    if b != [] {
      var u, l := b[..|b| - 1], b[|b| - 1];
      assert b == u + [l];
      BigEndianIs(n / 256, u);
      if n > 0 {
        assert BigEndian(n)[..|BigEndian(n)| - 1] == BigEndian(n / 256);
        NoZeroFirst(n);
      }
    }
  }

  lemma {:induction false} NoZeroFirst(n: nat)
    requires n > 0
    ensures BigEndian(n) != [] && BigEndian(n)[0] != 0
  {
    if n >= 256 {
      NoZeroFirst(n / 256);
    } else {
      assert BigEndian(0) == [];
    }
  }

  /** The fields that are not zero, spelled out byte by byte in the order of their numbers. */
  function Spelled(v: Fields): bytes
    requires v.prec < WORD
  {
    (if v.mant != 0 then [0x0a] + EncodeVarint(|BigEndian(v.mant)|) + BigEndian(v.mant) else [])
    + (if v.exp != 0 then [0x10] + EncodeVarint(v.exp % 0x1_0000_0000_0000_0000) else [])
    + (if v.prec != 0 then [0x18] + EncodeVarint(v.prec) else [])
    + (if v.neg then [0x20, 0x01] else [])
  }

  /** The message is these bytes, after the tag of field 1 and their number. */
  lemma EncodeSpelled(v: Fields)
    requires v.prec < WORD
    ensures Encode(v) == [0x0a] + EncodeVarint(|Spelled(v)|) + Spelled(v)
  {
    Tags();
    SubConcat(v);
    hide EncodeVarint, EncodeTag, BigEndian, RecordsOf, Concat;
    assert Masked(v.prec) == v.prec && Masked(1) == 1;
    var one: bytes := [0x01];
    assert EncodeVarint(1) == one;
    assert [0x20] + one == [0x20, 0x01];
    assert VarintText(v.neg, 4, 1) == if v.neg then [0x20, 0x01] else [];
    assert Concat(RecordsOf(v)) == Spelled(v);
  }
}
