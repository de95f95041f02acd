/** Field records of the Protocol Buffers wire format (Protocol Buffers encoding
    specification, message structure): varints, tags, and the extent of a record
    at the front of a byte string. */
module Wire {
  import opened Options
  import opened Seqs

  type byte = b: nat | b < 256

  type bytes = seq<byte>

  const VARINT := 0
  const FIXED64 := 1
  const LEN := 2
  const START_GROUP := 3
  const END_GROUP := 4
  const FIXED32 := 5

  /** The largest varint, one past it. */
  const WORD := 0x1_0000_0000_0000_0000

  /** The largest field number a tag may state. */
  const MAX_NUMBER := 0x7fff_ffff

  /** How deeply groups may nest. */
  const MAX_DEPTH := 10000

  // ---- Varints -------------------------------------------------------------

  /** A value and the bytes it takes. */
  datatype Taken<T> = Taken(value: T, len: nat)

  /** The base-128 number at the front of b, of at most left bytes, the last of
      ten holding one bit. */
  function VarintWithin(b: bytes, left: nat): (r: Option<Taken<nat>>)
    ensures r.Some? ==> 1 <= r.value.len <= |b| && r.value.len <= left
  {
    if left == 0 || b == [] then None
    else if b[0] < 128 then
      if left == 1 && b[0] > 1 then None else Some(Taken(b[0], 1))
    else
      match VarintWithin(b[1..], left - 1)
      case None => None
      case Some(t) => Some(Taken(b[0] - 128 + 128 * t.value, t.len + 1))
  }

  function ConsumeVarint(b: bytes): (r: Option<Taken<nat>>)
    ensures r.Some? ==> 1 <= r.value.len <= |b|
  {
    VarintWithin(b, 10)
  }

  lemma {:induction false} VarintLocal(b: bytes, left: nat, x: bytes)
    requires VarintWithin(b, left).Some?
    ensures var n := VarintWithin(b, left).value.len;
            VarintWithin(b[..n] + x, left) == VarintWithin(b, left)
  {
    var n := VarintWithin(b, left).value.len;
    var c := b[..n] + x;
    if b[0] >= 128 {
      VarintLocal(b[1..], left - 1, x);
      assert c[1..] == b[1..][..n - 1] + x;
    }
  }

  /** n in base 128, low digits first, all but the last with the high bit. */
  function EncodeVarint(n: nat): (b: bytes)
    ensures |b| >= 1
  {
    if n < 128 then [n] else [n % 128 + 128] + EncodeVarint(n / 128)
  }

  /** 128^left, the bound of a varint of left bytes, but 2^64 for ten. */
  function VarintBound(left: nat): (r: nat)
    ensures r >= 1 && (left > 1 ==> r >= 128)
  {
    if left == 0 then 1 else if left == 1 then 2 else 128 * VarintBound(left - 1)
  }

  lemma {:induction false} VarintRoundTrip(n: nat, left: nat, x: bytes)
    requires left >= 1 && n < VarintBound(left)
    ensures VarintWithin(EncodeVarint(n) + x, left) == Some(Taken(n, |EncodeVarint(n)|))
  {
    var b := EncodeVarint(n) + x;
    if n >= 128 {
      VarintRoundTrip(n / 128, left - 1, x);
      assert b[1..] == EncodeVarint(n / 128) + x;
    }
  }

  lemma ConsumeEncoded(n: nat, x: bytes)
    requires n < WORD
    ensures ConsumeVarint(EncodeVarint(n) + x) == Some(Taken(n, |EncodeVarint(n)|))
  {
    assert VarintBound(10) == WORD by {
      assert VarintBound(4) == 128 * 128 * 128 * 2;
      assert VarintBound(7) == 128 * 128 * 128 * VarintBound(4);
      assert VarintBound(10) == 128 * 128 * 128 * VarintBound(7);
    }
    VarintRoundTrip(n, 10, x);
  }

  /** A varint is less than 2^64. */
  lemma {:induction false} VarintLess(b: bytes, left: nat)
    requires VarintWithin(b, left).Some?
    ensures VarintWithin(b, left).value.value < VarintBound(left)
    decreases left
  {
    if b[0] >= 128 {
      VarintLess(b[1..], left - 1);
    }
  }

  // ---- Tags and field values -----------------------------------------------

  datatype Tag = Tag(num: nat, typ: nat)

  function ConsumeTag(b: bytes): (r: Option<Taken<Tag>>)
    ensures r.Some? ==> 1 <= r.value.len <= |b| && 1 <= r.value.value.num <= MAX_NUMBER
  {
    match ConsumeVarint(b)
    case None => None
    case Some(t) =>
      var num := t.value / 8;
      if 1 <= num <= MAX_NUMBER then Some(Taken(Tag(num, t.value % 8), t.len)) else None
  }

  function EncodeTag(num: nat, typ: nat): (b: bytes)
    requires typ < 8
  {
    EncodeVarint(8 * num + typ)
  }

  lemma ConsumeEncodedTag(num: nat, typ: nat, x: bytes)
    requires 1 <= num <= MAX_NUMBER && typ < 8
    ensures ConsumeTag(EncodeTag(num, typ) + x) == Some(Taken(Tag(num, typ), |EncodeTag(num, typ)|))
  {
    ConsumeEncoded(8 * num + typ, x);
  }

  lemma TagLocal(b: bytes, x: bytes)
    requires ConsumeTag(b).Some?
    ensures ConsumeTag(b[..ConsumeTag(b).value.len] + x) == ConsumeTag(b)
  {
    VarintLocal(b, 10, x);
  }

  /** The payload of a length-delimited value, and what the value takes. */
  function ConsumeBytes(b: bytes): (r: Option<Taken<bytes>>)
    ensures r.Some? ==> 1 <= r.value.len <= |b| && |r.value.value| < r.value.len
    ensures r.Some? ==> r.value.value == b[r.value.len - |r.value.value|..r.value.len]
  {
    match ConsumeVarint(b)
    case None => None
    case Some(t) =>
      if t.len + t.value <= |b| then Some(Taken(b[t.len..t.len + t.value], t.len + t.value)) else None
  }

  /** The length of the value of a field at the front of b. */
  function ValueLen(tag: Tag, b: bytes, depth: int): (r: Option<nat>)
    ensures r.Some? ==> r.value <= |b|
    decreases |b|, 1
  {
    if tag.typ == VARINT then
      match ConsumeVarint(b)
      case None => None
      case Some(t) => Some(t.len)
    else if tag.typ == FIXED32 then
      if |b| < 4 then None else Some(4)
    else if tag.typ == FIXED64 then
      if |b| < 8 then None else Some(8)
    else if tag.typ == LEN then
      match ConsumeBytes(b)
      case None => None
      case Some(t) => Some(t.len)
    else if tag.typ == START_GROUP then
      if depth < 0 then None else GroupLen(tag.num, b, depth)
    else None
  }

  /** The length of the rest of group num at the front of b, its end included. */
  function GroupLen(num: nat, b: bytes, depth: int): (r: Option<nat>)
    ensures r.Some? ==> r.value <= |b|
    decreases |b|, 0
  {
    match ConsumeTag(b)
    case None => None
    case Some(t) =>
      if t.value.typ == END_GROUP then
        if t.value.num == num then Some(t.len) else None
      else
        match ValueLen(t.value, b[t.len..], depth - 1)
        case None => None
        case Some(n) =>
          match GroupLen(num, b[t.len + n..], depth)
          case None => None
          case Some(m) => Some(t.len + n + m)
  }

  lemma {:induction false} ValueLocal(tag: Tag, b: bytes, depth: int, x: bytes)
    requires ValueLen(tag, b, depth).Some?
    ensures ValueLen(tag, b[..ValueLen(tag, b, depth).value] + x, depth) == ValueLen(tag, b, depth)
    decreases |b|, 1
  {
    var n := ValueLen(tag, b, depth).value;
    if tag.typ == VARINT {
      VarintLocal(b, 10, x);
    } else if tag.typ == LEN {
      BytesLocal(b, x);
    } else if tag.typ == START_GROUP {
      GroupLocal(tag.num, b, depth, x);
    }
  }

  lemma BytesLocal(b: bytes, x: bytes)
    requires ConsumeBytes(b).Some?
    ensures ConsumeBytes(b[..ConsumeBytes(b).value.len] + x) == ConsumeBytes(b)
  {
    var n := ConsumeBytes(b).value.len;
    var t := ConsumeVarint(b).value;
    VarintLocal(b, 10, b[t.len..n] + x);
    assert b[..n] + x == b[..t.len] + (b[t.len..n] + x);
    assert (b[..n] + x)[t.len..n] == b[t.len..n];
  }

  lemma {:induction false} GroupLocal(num: nat, b: bytes, depth: int, x: bytes)
    requires GroupLen(num, b, depth).Some?
    ensures GroupLen(num, b[..GroupLen(num, b, depth).value] + x, depth) == GroupLen(num, b, depth)
    decreases |b|, 0
  {
    hide ConsumeTag, ValueLen;
    var n := GroupLen(num, b, depth).value;
    var t := ConsumeTag(b).value;
    var m := if t.value.typ == END_GROUP then 0 else ValueLen(t.value, b[t.len..], depth - 1).value;
    var c := b[..n] + x;
    CutTwice(b, t.len, t.len + m, n, x);
    TagLocal(b, b[t.len..n] + x);
    assert ConsumeTag(c) == ConsumeTag(b);
    if t.value.typ != END_GROUP {
      ValueLocal(t.value, b[t.len..], depth - 1, b[t.len + m..n] + x);
      assert ValueLen(t.value, c[t.len..], depth - 1) == Some(m);
      var k := GroupLen(num, b[t.len + m..], depth).value;
      assert n == t.len + m + k;
      GroupLocal(num, b[t.len + m..], depth, x);
      GroupIs(num, c, depth, t, m, k);
    }
  }

  lemma GroupIs(num: nat, b: bytes, depth: int, t: Taken<Tag>, m: nat, k: nat)
    requires ConsumeTag(b) == Some(t) && t.value.typ != END_GROUP
    requires ValueLen(t.value, b[t.len..], depth - 1) == Some(m)
    requires GroupLen(num, b[t.len + m..], depth) == Some(k)
    ensures GroupLen(num, b, depth) == Some(t.len + m + k)
  {
    hide ConsumeTag, ValueLen;
  }

  // ---- Records -------------------------------------------------------------

  /** One field record: its number, wire type, the length of its tag, and all of
      its bytes. */
  datatype Record = Record(num: nat, typ: nat, tagLen: nat, text: bytes)
  {
    /** The bytes after the tag. */
    function Body(): bytes
    {
      if tagLen <= |text| then text[tagLen..] else []
    }

    /** The payload of a length-delimited record. */
    function Payload(): bytes
    {
      match ConsumeBytes(Body())
      case None => []
      case Some(t) => t.value
    }
  }

  /** The record at the front of b. */
  function NextRecord(b: bytes): (r: Option<Record>)
    ensures r.Some? ==> 1 <= r.value.tagLen <= |r.value.text| <= |b| && r.value.text == b[..|r.value.text|]
  {
    match ConsumeTag(b)
    case None => None
    case Some(t) =>
      match ValueLen(t.value, b[t.len..], MAX_DEPTH)
      case None => None
      case Some(n) => Some(Record(t.value.num, t.value.typ, t.len, b[..t.len + n]))
  }

  /** What a record is does not depend on the bytes after it. */
  lemma RecordLocal(b: bytes, x: bytes)
    requires NextRecord(b).Some?
    ensures NextRecord(NextRecord(b).value.text + x) == NextRecord(b)
  {
    hide ValueLen;
    var r := NextRecord(b).value;
    var t := ConsumeTag(b).value;
    var n := |r.text|;
    TagLocal(b, b[t.len..n] + x);
    assert r.text + x == b[..t.len] + (b[t.len..n] + x);
    ValueLocal(t.value, b[t.len..], MAX_DEPTH, x);
    assert (r.text + x)[t.len..] == b[t.len..][..n - t.len] + x;
    assert (r.text + x)[..n] == r.text;
  }

  /** r is what its own bytes parse as. */
  predicate Atomic(r: Record)
  {
    NextRecord(r.text) == Some(r)
  }

  lemma NextIsAtomic(b: bytes)
    requires NextRecord(b).Some?
    ensures Atomic(NextRecord(b).value)
  {
    hide NextRecord;
    RecordLocal(b, []);
    var t := NextRecord(b).value.text;
    assert t + [] == t;
  }

  lemma NextOfAtomic(r: Record, x: bytes)
    requires Atomic(r)
    ensures NextRecord(r.text + x) == Some(r)
  {
    hide NextRecord;
    RecordLocal(r.text, x);
  }

  /** The records of b up to the first malformed one. */
  function Records(b: bytes): (rs: seq<Record>)
    ensures forall r :: r in rs ==> Atomic(r)
  {
    match NextRecord(b)
    case None => []
    case Some(r) =>
      assert |r.text| > 0;
      NextIsAtomic(b);
      [r] + Records(b[|r.text|..])
  }

  function Concat(rs: seq<Record>): bytes
  {
    if rs == [] then [] else rs[0].text + Concat(rs[1..])
  }

  /** All of b is records. */
  predicate WellFormed(b: bytes)
  {
    Concat(Records(b)) == b
  }

  lemma {:induction false} RecordsOfConcat(rs: seq<Record>)
    requires forall r :: r in rs ==> Atomic(r)
    ensures Records(Concat(rs)) == rs
  {
    hide NextRecord;
    if rs == [] {
      assert NextRecord([]) == None by { NothingInEmpty(); }
    } else {
      RecordsOfConcat(rs[1..]);
      NextOfAtomic(rs[0], Concat(rs[1..]));
      assert Concat(rs)[|rs[0].text|..] == Concat(rs[1..]);
    }
  }

  lemma NothingInEmpty()
    ensures NextRecord([]) == None
  {
  }

  lemma {:induction false} ConcatAppend(rs: seq<Record>, ss: seq<Record>)
    ensures Concat(rs + ss) == Concat(rs) + Concat(ss)
  {
    if rs == [] {
      assert rs + ss == ss;
    } else {
      ConcatAppend(rs[1..], ss);
      assert (rs + ss)[1..] == rs[1..] + ss;
      Associate(rs[0].text, Concat(rs[1..]), Concat(ss));
    }
  }

  // ---- Encoded records -----------------------------------------------------

  function LenRecord(num: nat, payload: bytes): bytes
  {
    EncodeTag(num, LEN) + EncodeVarint(|payload|) + payload
  }

  function VarintRecord(num: nat, value: nat): bytes
  {
    EncodeTag(num, VARINT) + EncodeVarint(value)
  }

  /** The n low bytes of w, the lowest first. */
  function LowBytes(w: nat, n: nat): (b: bytes)
    ensures |b| == n
  {
    if n == 0 then [] else [w % 256] + LowBytes(w / 256, n - 1)
  }

  function Fixed64Record(num: nat, value: nat): bytes
  {
    EncodeTag(num, FIXED64) + LowBytes(value, 8)
  }

  lemma LenRecordParses(num: nat, payload: bytes)
    requires 1 <= num <= MAX_NUMBER && |payload| < WORD
    ensures var r := Record(num, LEN, |EncodeTag(num, LEN)|, LenRecord(num, payload));
            Atomic(r) && r.Payload() == payload
  {
    var b, t := LenRecord(num, payload), EncodeTag(num, LEN);
    var l := EncodeVarint(|payload|);
    ConsumeEncodedTag(num, LEN, l + payload);
    assert b == t + (l + payload);
    assert b[|t|..] == l + payload;
    ConsumeEncoded(|payload|, payload);
    assert (l + payload)[|l|..|l| + |payload|] == payload;
    assert ConsumeBytes(l + payload) == Some(Taken(payload, |l + payload|));
    assert b[..|b|] == b;
  }

  lemma VarintRecordParses(num: nat, value: nat)
    requires 1 <= num <= MAX_NUMBER && value < WORD
    ensures var r := Record(num, VARINT, |EncodeTag(num, VARINT)|, VarintRecord(num, value));
            Atomic(r) && ConsumeVarint(r.Body()) == Some(Taken(value, |r.Body()|))
  {
    var b, t := VarintRecord(num, value), EncodeTag(num, VARINT);
    var v := EncodeVarint(value);
    ConsumeEncodedTag(num, VARINT, v);
    assert b[|t|..] == v;
    ConsumeEncoded(value, []);
    assert v + [] == v;
    assert b[..|b|] == b;
  }

  lemma Fixed64RecordParses(num: nat, value: nat)
    requires 1 <= num <= MAX_NUMBER
    ensures var r := Record(num, FIXED64, |EncodeTag(num, FIXED64)|, Fixed64Record(num, value));
            Atomic(r) && r.Body() == LowBytes(value, 8)
  {
    hide LowBytes, EncodeTag;
    var b, t := Fixed64Record(num, value), EncodeTag(num, FIXED64);
    ConsumeEncodedTag(num, FIXED64, LowBytes(value, 8));
    assert b[|t|..] == LowBytes(value, 8);
    assert b[..|b|] == b;
  }
}
