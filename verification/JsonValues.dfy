/** JSON, and the JSON forms of field values: 64-bit integers as strings, bytes in base 64, enum values by name
  * (section 4 of RFC 4648, internal/openapi/schemas.go:555-635). */
module JsonValues {
  import opened Options
  import opened Decimals
  import opened RuleMapper

  datatype Json =
    | JsonNull
    | JsonFlag(b: bool)
    | JsonNumber(v: real)
    | JsonText(s: string)
    | JsonArray(items: seq<Json>)
    | JsonObject(members: map<string, Json>)

  // ---- Base 64 ----

  type Byte = b: int | 0 <= b < 256

  function Symbol(n: int): char
  {
    if 0 <= n < 26 then ('A' as int + n) as char
    else if 26 <= n < 52 then ('a' as int + n - 26) as char
    else if 52 <= n < 62 then ('0' as int + n - 52) as char
    else if n == 62 then '+'
    else if n == 63 then '/'
    else '='
  }

  function One(x: Byte): (s: string)
    ensures |s| == 4
  {
    [Symbol(x / 4), Symbol(x % 4 * 16), '=', '=']
  }

  function Two(x: Byte, y: Byte): (s: string)
    ensures |s| == 4
  {
    [Symbol(x / 4), Symbol(x % 4 * 16 + y / 16), Symbol(y % 16 * 4), '=']
  }

  function Three(x: Byte, y: Byte, z: Byte): (s: string)
    ensures |s| == 4
  {
    [Symbol(x / 4), Symbol(x % 4 * 16 + y / 16), Symbol(y % 16 * 4 + z / 64), Symbol(z % 64)]
  }

  /** Three bytes as four symbols, and what is left over with padding. */
  function Base64(b: seq<Byte>): string
  {
    if b == [] then ""
    else if |b| == 1 then One(b[0])
    else if |b| == 2 then Two(b[0], b[1])
    else Three(b[0], b[1], b[2]) + Base64(b[3..])
  }

  lemma {:induction false} Base64Length(b: seq<Byte>)
    ensures |Base64(b)| == 4 * ((|b| + 2) / 3)
  {
    hide One, Two, Three;
    if |b| >= 3 {
      Base64Length(b[3..]);
    }
  }

  /** The six bits of a symbol. */
  function Sextet(c: char): nat
  {
    if 'A' <= c <= 'Z' then c as int - 'A' as int
    else if 'a' <= c <= 'z' then c as int - 'a' as int + 26
    else if '0' <= c <= '9' then c as int - '0' as int + 52
    else if c == '+' then 62
    else 63
  }

  lemma SymbolReads(n: nat)
    requires n < 64
    ensures Sextet(Symbol(n)) == n && Symbol(n) != '='
  {
  }

  /** n bytes of a number, the high ones first. */
  function HighBytes(w: nat, n: nat): seq<Byte>
  {
    if n == 0 then [] else HighBytes(w / 256, n - 1) + [w % 256]
  }

  /** The bytes of a text in base 64: four symbols are three bytes, and each padding sign is one byte less. */
  function FromBase64(s: string): seq<Byte>
  {
    if |s| < 4 then []
    else if s[2] == '=' then HighBytes((Sextet(s[0]) * 64 + Sextet(s[1])) / 16, 1)
    else if s[3] == '=' then HighBytes(((Sextet(s[0]) * 64 + Sextet(s[1])) * 64 + Sextet(s[2])) / 4, 2)
    else
      HighBytes(((Sextet(s[0]) * 64 + Sextet(s[1])) * 64 + Sextet(s[2])) * 64 + Sextet(s[3]), 3) + FromBase64(s[4..])
  }

  lemma OneReads(x: Byte)
    ensures FromBase64(One(x)) == [x] && One(x)[2] == '=' && One(x)[3] == '='
  {
    hide Symbol, Sextet;
    SymbolReads(x / 4);
    SymbolReads(x % 4 * 16);
    assert HighBytes(x, 1) == HighBytes(x / 256, 0) + [x % 256];
    assert (x / 4 * 64 + x % 4 * 16) / 16 == x;
  }

  lemma TwoReads(x: Byte, y: Byte)
    ensures FromBase64(Two(x, y)) == [x, y] && Two(x, y)[3] == '='
  {
    hide Symbol, Sextet;
    SymbolReads(x / 4);
    SymbolReads(x % 4 * 16 + y / 16);
    SymbolReads(y % 16 * 4);
    var w := x * 256 + y;
    assert ((x / 4 * 64 + (x % 4 * 16 + y / 16)) * 64 + y % 16 * 4) / 4 == w;
    TwoHigh(x, y);
  }

  lemma TwoHigh(x: Byte, y: Byte)
    ensures HighBytes(x * 256 + y, 2) == [x, y]
  {
    var w := x * 256 + y;
    assert w / 256 == x && w % 256 == y;
    assert HighBytes(x, 1) == HighBytes(x / 256, 0) + [x % 256];
  }

  lemma ThreeReads(x: Byte, y: Byte, z: Byte, rest: string)
    ensures FromBase64(Three(x, y, z) + rest) == [x, y, z] + FromBase64(rest)
  {
    hide Symbol, Sextet;
    SymbolReads(x / 4);
    SymbolReads(x % 4 * 16 + y / 16);
    SymbolReads(y % 16 * 4 + z / 64);
    SymbolReads(z % 64);
    var s := Three(x, y, z) + rest;
    assert s[4..] == rest;
    var w := (x * 256 + y) * 256 + z;
    assert ((x / 4 * 64 + (x % 4 * 16 + y / 16)) * 64 + (y % 16 * 4 + z / 64)) * 64 + z % 64 == w;
    ThreeHigh(x, y, z);
  }

  lemma ThreeHigh(x: Byte, y: Byte, z: Byte)
    ensures HighBytes((x * 256 + y) * 256 + z, 3) == [x, y, z]
  {
    var w := (x * 256 + y) * 256 + z;
    assert w / 256 == x * 256 + y && w % 256 == z;
    TwoHigh(x, y);
  }

  /** Text in base 64 reads as the bytes it was made of. */
  lemma {:induction false} Base64Reads(b: seq<Byte>)
    ensures FromBase64(Base64(b)) == b
  {
    hide One, Two, Three, FromBase64;
    if |b| == 0 {
      NothingReads();
    } else if |b| == 1 {
      OneReads(b[0]);
    } else if |b| == 2 {
      TwoReads(b[0], b[1]);
    } else {
      Base64Reads(b[3..]);
      ThreeReads(b[0], b[1], b[2], Base64(b[3..]));
      assert b == [b[0], b[1], b[2]] + b[3..];
    }
  }

  lemma NothingReads()
    ensures FromBase64("") == []
  {
  }

  // ---- Field values ----

  /** What a field can hold, by the type of the field: wrappers and aliases count as what they stand for. */
  datatype FieldKind =
    | StringKind
    | BytesKind
    | NarrowKind(signed: bool)
    | WideKind(signed: bool)
    | FloatKind
    | BoolKind
    | EnumKind(names: map<int, string>)
    | ListKind
    | MapKind
    | MessageKind

  datatype FieldValue =
    | TextField(s: string)
    | BytesField(b: seq<Byte>)
    | WholeField(n: int)
    | FloatField(f: Number)
    | FlagField(on: bool)
    | EnumField(number: int)
    | ListField(items: seq<Json>)
    | MapField(entries: map<string, Json>)
    | MessageField(form: Json)
    | NullField

  const INT32 := 0x8000_0000

  /** The least and the greatest integer of a field. */
  function Least(kind: FieldKind): int
  {
    match kind
    case NarrowKind(signed) => if signed then -INT32 else 0
    case WideKind(signed) => if signed then -INT64 else 0
    case _ => -INT32
  }

  function Greatest(kind: FieldKind): int
  {
    match kind
    case NarrowKind(signed) => if signed then INT32 - 1 else 2 * INT32 - 1
    case WideKind(signed) => if signed then INT64 - 1 else 2 * INT64 - 1
    case _ => INT32 - 1
  }

  predicate InRange(kind: FieldKind, n: int)
  {
    Least(kind) <= n <= Greatest(kind)
  }

  /** v is a value of the kind; null is a matter of the field. */
  predicate IsOf(kind: FieldKind, v: FieldValue)
  {
    match kind
    case StringKind => v.TextField?
    case BytesKind => v.BytesField?
    case NarrowKind(_) => v.WholeField? && InRange(kind, v.n)
    case WideKind(_) => v.WholeField? && InRange(kind, v.n)
    case FloatKind => v.FloatField? && !v.f.NoNumber?
    case BoolKind => v.FlagField?
    case EnumKind(_) => v.EnumField? && InRange(kind, v.number)
    case ListKind => v.ListField?
    case MapKind => v.MapField?
    case MessageKind => v.MessageField? && !v.form.JsonNull?
  }

  /** An integer as text. */
  function WholeText(n: int): string
  {
    if n < 0 then "-" + Numeral(-n) else Numeral(n)
  }

  /** The text of an integer reads as it. */
  lemma WholeTextReads(n: int)
    ensures ParseInt(WholeText(n)) == Some(n)
  {
    hide Numeral, Value;
    if n < 0 {
      ValueOfNumeral(-n);
      assert WholeText(n)[1..] == Numeral(-n);
    } else {
      ValueOfNumeral(n);
      assert IsDigit(Numeral(n)[0]);
    }
  }

  /** The JSON form of a value. */
  function JsonOf(kind: FieldKind, v: FieldValue): Json
  {
    match v
    case TextField(s) => JsonText(s)
    case BytesField(b) => JsonText(Base64(b))
    case WholeField(n) => if kind.WideKind? then JsonText(WholeText(n)) else JsonNumber(n as real)
    case FloatField(f) => JsonOfNumber(f)
    case FlagField(on) => JsonFlag(on)
    case EnumField(n) => if kind.EnumKind? && n in kind.names then JsonText(kind.names[n]) else JsonNumber(n as real)
    case ListField(items) => JsonArray(items)
    case MapField(entries) => JsonObject(entries)
    case MessageField(form) => form
    case NullField => JsonNull
  }

  function JsonOfNumber(f: Number): Json
  {
    match f
    case Finite(v) => JsonNumber(v)
    case PlusInfinity => JsonText("Infinity")
    case MinusInfinity => JsonText("-Infinity")
    case _ => JsonText("NaN")
  }

  /** A listed value in JSON. */
  function Listed(e: EnumValue): Json
  {
    match e
    case TextValue(t) => JsonText(t)
    case WholeValue(n) => JsonNumber(n as real)
  }

  /** Whether a pattern matches a text, by any dialect. */
  type Matcher = (string, string) -> bool

  /** What a rule sees of a value: the value itself, not its JSON form. */
  function Seen(v: FieldValue, m: Matcher): Subject
  {
    Subject(SizeOf(v), NumberOf(v), p => v.TextField? && m(p, v.s), e => Equals(v, e))
  }

  /** Code points of a string, bytes, elements, entries. */
  function SizeOf(v: FieldValue): Option<int>
  {
    match v
    case TextField(s) => Some(|s|)
    case BytesField(b) => Some(|b|)
    case ListField(items) => Some(|items|)
    case MapField(entries) => Some(|entries|)
    case _ => None
  }

  function NumberOf(v: FieldValue): Number
  {
    match v
    case WholeField(n) => Finite(n as real)
    case EnumField(n) => Finite(n as real)
    case FloatField(f) => f
    case _ => NoNumber
  }

  /** Strings are compared with strings, and numbers by value. */
  predicate Equals(v: FieldValue, e: EnumValue)
  {
    match e
    case TextValue(t) => v.TextField? && v.s == t
    case WholeValue(n) => NumberOf(v) == Finite(n as real)
  }
}
