/** What the literals of the rule language denote, by the lexical forms of Protocol Buffers, and when the
  * mapper's own readings agree with it (docs/RFC-001-schema-extensions.md:381-392, internal/openapi/validate.go:
  * 86-125,127-152,362-375). */
module RuleLexical {
  import opened Options
  import opened Decimals
  import opened RuleText
  import Seqs

  type Bytes = seq<nat>

  // ---- Characters as bytes ----

  /** A character in UTF-8. */
  function Utf8Char(c: char): (b: Bytes)
    ensures 1 <= |b| <= 4 && (c as int < 0x80 ==> b == [c as int])
  {
    var n := c as int;
    if n < 0x80 then [n]
    else if n < 0x800 then [0xC0 + n / 0x40, 0x80 + n % 0x40]
    else if n < 0x1_0000 then [0xE0 + n / 0x1000, 0x80 + n / 0x40 % 0x40, 0x80 + n % 0x40]
    else [0xF0 + n / 0x4_0000, 0x80 + n / 0x1000 % 0x40, 0x80 + n / 0x40 % 0x40, 0x80 + n % 0x40]
  }

  function Utf8(s: string): Bytes
  {
    if s == "" then [] else Utf8Char(s[0]) + Utf8(s[1..])
  }

  /** The first byte of a character tells how long it is, and the bytes which it is. */
  lemma Utf8CharPrefix(c: char, d: char, x: Bytes, y: Bytes)
    requires Utf8Char(c) + x == Utf8Char(d) + y
    ensures c == d && x == y
  {
    var a, b := Utf8Char(c), Utf8Char(d);
    assert (a + x)[0] == a[0] && (b + y)[0] == b[0];
    LeadByte(c);
    LeadByte(d);
    assert |a| == |b|;
    assert a == (a + x)[..|a|] && b == (b + y)[..|b|];
    assert x == (a + x)[|a|..] && y == (b + y)[|b|..];
    Utf8CharInjective(c, d);
  }

  lemma LeadByte(c: char)
    ensures var b := Utf8Char(c);
            |b| == if b[0] < 0x80 then 1 else if b[0] < 0xE0 then 2 else if b[0] < 0xF0 then 3 else 4
  {
  }

  lemma Utf8CharInjective(c: char, d: char)
    requires Utf8Char(c) == Utf8Char(d)
    ensures c == d
  {
    FromBytes(c);
    FromBytes(d);
  }

  function ByteValue(b: Bytes): int
    requires 1 <= |b| <= 4
  {
    if |b| == 1 then b[0]
    else if |b| == 2 then b[0] as int * 0x40 + b[1] - 0x3080
    else if |b| == 3 then (b[0] as int * 0x40 + b[1]) * 0x40 + b[2] - 0xE_2080
    else ((b[0] as int * 0x40 + b[1]) * 0x40 + b[2]) * 0x40 + b[3] - 0x3C8_2080
  }

  lemma FromBytes(c: char)
    ensures ByteValue(Utf8Char(c)) == c as int
  {
    var n := c as int;
    assert n / 0x1000 == n / 0x40 / 0x40 && n / 0x4_0000 == n / 0x1000 / 0x40;
    assert n == n / 0x40 * 0x40 + n % 0x40;
    assert n / 0x40 == n / 0x1000 * 0x40 + n / 0x40 % 0x40;
    assert n / 0x1000 == n / 0x4_0000 * 0x40 + n / 0x1000 % 0x40;
  }

  /** Texts with the same bytes are the same. */
  lemma {:induction false} Utf8Injective(s: string, t: string)
    requires Utf8(s) == Utf8(t)
    ensures s == t
  {
    if s != "" && t != "" {
      hide Utf8Char;
      Utf8CharPrefix(s[0], t[0], Utf8(s[1..]), Utf8(t[1..]));
      Utf8Injective(s[1..], t[1..]);
      assert s == [s[0]] + s[1..] && t == [t[0]] + t[1..];
    }
  }

  lemma {:induction false} Utf8Concat(s: string, t: string)
    ensures Utf8(s + t) == Utf8(s) + Utf8(t)
  {
    hide Utf8Char;
    if s == "" {
      assert s + t == t;
    } else {
      assert (s + t)[0] == s[0] && (s + t)[1..] == s[1..] + t;
      Utf8Concat(s[1..], t);
      Seqs.Associate(Utf8Char(s[0]), Utf8(s[1..]), Utf8(t));
    }
  }

  lemma {:induction false} Utf8Longer(s: string)
    ensures |Utf8(s)| >= |s|
  {
    hide Utf8Char;
    if s != "" {
      Utf8Longer(s[1..]);
    }
  }

  // ---- Escapes ----

  /** An escape: the bytes it denotes and the characters it takes. */
  datatype Escape = Escape(bytes: Bytes, len: nat)

  predicate IsSelf(c: char)
  {
    c == '\\' || c == '\'' || c == '"' || c == '?'
  }

  /** The byte of a one-letter escape. */
  function Letter(c: char): Option<nat>
  {
    if c == 'a' then Some(7)
    else if c == 'b' then Some(8)
    else if c == 't' then Some(9)
    else if c == 'n' then Some(10)
    else if c == 'v' then Some(11)
    else if c == 'f' then Some(12)
    else if c == 'r' then Some(13)
    else None
  }

  /** The digit a character is in a base of up to 16, or the base. */
  function DigitIn(c: char, base: nat): (d: nat)
    requires base <= 16
    ensures d <= base && (d < base ==> c as int < 0x80 && c != '\\')
  {
    var d := if '0' <= c <= '9' then c as int - '0' as int
             else if 'a' <= c <= 'f' then c as int - 'a' as int + 10
             else if 'A' <= c <= 'F' then c as int - 'A' as int + 10
             else base;
    if d < base then d else base
  }

  /** How many of the first max characters of s are digits in the base. */
  function DigitRun(s: string, base: nat, max: nat): (n: nat)
    requires base <= 16
    ensures n <= max && n <= |s| && forall k :: 0 <= k < n ==> DigitIn(s[k], base) < base
  {
    if max == 0 || s == "" || DigitIn(s[0], base) == base then 0 else 1 + DigitRun(s[1..], base, max - 1)
  }

  predicate AllIn(s: string, base: nat)
    requires base <= 16
  {
    forall k :: 0 <= k < |s| ==> DigitIn(s[k], base) < base
  }

  function ValueIn(s: string, base: nat): nat
    requires base <= 16 && AllIn(s, base)
  {
    if s == "" then 0 else base * ValueIn(s[..|s| - 1], base) + DigitIn(s[|s| - 1], base)
  }

  /** A number that is that of a character. */
  predicate IsScalar(n: nat)
  {
    n < 0xD800 || 0xE000 <= n < 0x11_0000
  }

  /** The escape s opens with: simple, octal, hexadecimal or Unicode. */
  function EscapeAt(s: string): Option<Escape>
    requires s != "" && s[0] == '\\'
  {
    if |s| == 1 then None
    else if IsSelf(s[1]) then Some(Escape([s[1] as int], 2))
    else if Letter(s[1]).Some? then Some(Escape([Letter(s[1]).value], 2))
    else if DigitIn(s[1], 8) < 8 then
      var n := DigitRun(s[1..], 8, 3);
      if ValueIn(s[1..1 + n], 8) < 0x100 then Some(Escape([ValueIn(s[1..1 + n], 8)], 1 + n)) else None
    else if s[1] == 'x' || s[1] == 'X' then
      var n := DigitRun(s[2..], 16, 2);
      if n > 0 then Some(Escape([ValueIn(s[2..2 + n], 16)], 2 + n)) else None
    else if s[1] == 'u' then Point(s, 4)
    else if s[1] == 'U' then Point(s, 8)
    else None
  }

  function Point(s: string, digits: nat): Option<Escape>
    requires |s| > 1
  {
    if DigitRun(s[2..], 16, digits) == digits && IsScalar(ValueIn(s[2..2 + digits], 16)) then
      Some(Escape(Utf8Char(ValueIn(s[2..2 + digits], 16) as char), 2 + digits))
    else None
  }

  function After(head: Bytes, tail: Option<Bytes>): Option<Bytes>
  {
    match tail case None => None case Some(b) => Some(head + b)
  }

  /** The bytes the inside of a string literal denotes. */
  function ProtoBytes(s: string): Option<Bytes>
  {
    if s == "" then Some([])
    else if s[0] != '\\' then After(Utf8Char(s[0]), ProtoBytes(s[1..]))
    else
      var e := EscapeAt(s);
      if e.None? then None
      else
        EscapeIs(s);
        After(e.value.bytes, ProtoBytes(s[e.value.len..]))
  }

  /** An escape takes at least as many characters after its backslash as it denotes bytes; it takes as many only
    * when it is one character, and that is kept only when it stands for itself. */
  lemma EscapeIs(s: string)
    requires s != "" && s[0] == '\\' && EscapeAt(s).Some?
    ensures var e := EscapeAt(s).value;
            && 2 <= e.len <= |s| && 1 <= |e.bytes| <= e.len - 1
            && (|e.bytes| == e.len - 1 ==> e.len == 2)
            && (e.len == 2 ==> (e.bytes == [s[1] as int] <==> IsSelf(s[1])) && s[1] as int < 0x80)
            && (e.len > 2 ==> !IsSelf(s[1]))
            && forall k :: 1 <= k < e.len ==> s[k] as int < 0x80 && (k > 1 ==> s[k] != '\\')
  {
    hide ValueIn, Utf8Char;
    var e := EscapeAt(s).value;
    if IsSelf(s[1]) || Letter(s[1]).Some? {
    } else if DigitIn(s[1], 8) < 8 {
      OctalIs(s);
    } else if s[1] == 'x' || s[1] == 'X' {
      var n := DigitRun(s[2..], 16, 2);
      assert forall k :: 0 <= k < n ==> DigitIn(s[2..][k], 16) < 16 && s[2..][k] == s[k + 2];
      forall k | 1 <= k < e.len
        ensures s[k] as int < 0x80 && (k > 1 ==> s[k] != '\\')
      {
        assert k > 1 ==> s[k] == s[2..][k - 2];
      }
    } else {
      var digits := if s[1] == 'u' then 4 else 8;
      assert forall k :: 0 <= k < digits ==> DigitIn(s[2..][k], 16) < 16;
      forall k | 1 <= k < e.len
        ensures s[k] as int < 0x80 && (k > 1 ==> s[k] != '\\')
      {
        assert k > 1 ==> s[k] == s[2..][k - 2];
      }
    }
  }

  lemma OctalIs(s: string)
    requires |s| > 1 && s[0] == '\\' && EscapeAt(s).Some? && DigitIn(s[1], 8) < 8 && !IsSelf(s[1]) && Letter(s[1]).None?
    ensures var e := EscapeAt(s).value;
            && 2 <= e.len <= |s| && |e.bytes| == 1 && (e.len == 2 ==> e.bytes[0] < 8 && s[1] as int >= '0' as int)
            && forall k :: 1 <= k < e.len ==> s[k] as int < 0x80 && s[k] != '\\'
  {
    var n := DigitRun(s[1..], 8, 3);
    assert n >= 1;
    forall k | 1 <= k < n + 1
      ensures s[k] as int < 0x80 && s[k] != '\\'
    {
      assert s[k] == s[1..][k - 1];
      assert DigitIn(s[1..][k - 1], 8) < 8;
    }
    if n == 1 {
      var t := s[1..1 + n];
      assert t == [s[1]] && t[..0] == "";
      assert ValueIn(t, 8) == 8 * ValueIn(t[..0], 8) + DigitIn(s[1], 8);
    }
  }

  // ---- What a literal denotes ----

  /** Every escape stands for its own character: a backslash, a quote or a question mark. */
  predicate Direct(s: string)
  {
    if s == "" then true
    else if s[0] != '\\' then Direct(s[1..])
    else |s| > 1 && IsSelf(s[1]) && Direct(s[2..])
  }

  /** The inside of a literal. */
  function Inside(l: string): string
  {
    if |l| >= 2 then l[1..|l| - 1] else ""
  }

  predicate IsDirect(l: string)
  {
    Direct(Inside(l))
  }

  /** The literal denotes the text t. */
  predicate Denotes(l: string, t: string)
  {
    IsLiteral(l) && ProtoBytes(Inside(l)) == Some(Utf8(t))
  }

  /** A literal denotes one text at most. */
  lemma DenotesOne(l: string, t: string, u: string)
    requires Denotes(l, t) && Denotes(l, u)
    ensures t == u
  {
    Utf8Injective(t, u);
  }

  lemma {:induction false} Utf8Ascii(s: string)
    requires forall k :: 0 <= k < |s| ==> s[k] as int < 0x80
    ensures |Utf8(s)| == |s|
  {
    if s != "" {
      assert s[0] as int < 0x80;
      assert forall k :: 0 <= k < |s[1..]| ==> s[1..][k] == s[k + 1];
      Utf8Ascii(s[1..]);
    }
  }

  lemma {:induction false} UnescapePlain(p: string, x: string)
    requires forall k :: 0 <= k < |p| ==> p[k] != '\\'
    ensures Unescape(p + x) == p + Unescape(x)
  {
    if p == "" {
      assert p + x == x;
    } else {
      assert (p + x)[0] == p[0] && (p + x)[1..] == p[1..] + x;
      UnescapePlain(p[1..], x);
    }
  }

  /** The characters of an escape after its backslash. */
  lemma EscapeIsAscii(s: string, n: nat)
    requires 2 <= n <= |s| && forall k :: 1 <= k < n ==> s[k] as int < 0x80
    ensures |Utf8(s[1..n])| == n - 1
  {
    forall k | 0 <= k < n - 1
      ensures s[1..n][k] as int < 0x80
    {
      assert s[1..n][k] == s[k + 1];
    }
    Utf8Ascii(s[1..n]);
  }

  /** A backslash, the character after it, and more that are no backslashes. */
  lemma UnescapeRun(s: string, n: nat)
    requires 2 <= n <= |s| && s[0] == '\\' && forall k :: 2 <= k < n ==> s[k] != '\\'
    ensures Unescape(s) == s[1..n] + Unescape(s[n..])
  {
    var p := s[2..n];
    assert s[2..] == p + s[n..];
    forall k | 0 <= k < |p|
      ensures p[k] != '\\'
    {
      assert p[k] == s[k + 2];
    }
    UnescapePlain(p, s[n..]);
    var u := Unescape(s[n..]);
    assert Unescape(s) == [s[1]] + Unescape(s[2..]);
    hide Unescape;
    assert s[1..n] == [s[1]] + p;
    Seqs.Associate([s[1]], p, u);
  }

  /** What the mapper makes of an escape: its characters without the backslash. */
  lemma UnescapeEscape(s: string)
    requires s != "" && s[0] == '\\' && EscapeAt(s).Some?
    ensures var n := EscapeAt(s).value.len;
            2 <= n <= |s| && Utf8(Unescape(s)) == Utf8(s[1..n]) + Utf8(Unescape(s[n..])) && |Utf8(s[1..n])| == n - 1
  {
    hide EscapeAt, Unescape, Utf8, Utf8Char;
    EscapeIs(s);
    var n := EscapeAt(s).value.len;
    EscapeIsAscii(s, n);
    UnescapeRun(s, n);
    Utf8Concat(s[1..n], Unescape(s[n..]));
  }

  lemma UnescapeChar(s: string)
    requires s != "" && s[0] != '\\'
    ensures Utf8(Unescape(s)) == Utf8Char(s[0]) + Utf8(Unescape(s[1..]))
  {
    var t := Unescape(s);
    assert t[0] == s[0] && t[1..] == Unescape(s[1..]);
  }

  lemma SameHead(a: Bytes, b: Bytes, x: Bytes, y: Bytes)
    requires |a| == |b|
    ensures a + x == b + y <==> a == b && x == y
  {
    if a + x == b + y {
      assert a == (a + x)[..|a|] && b == (b + y)[..|a|];
      assert x == (a + x)[|a|..] && y == (b + y)[|a|..];
    }
  }

  /** The mapper's text is never shorter than what the inside of a literal denotes, and it is the same exactly
    * when every escape stands for its own character. */
  lemma {:induction false} UnescapeIsProto(s: string)
    requires ProtoBytes(s).Some?
    ensures |ProtoBytes(s).value| <= |Utf8(Unescape(s))|
    ensures ProtoBytes(s).value == Utf8(Unescape(s)) <==> Direct(s)
    decreases |s|
  {
    hide Utf8Char, Utf8, EscapeAt, Unescape;
    if s == "" {
      NothingDenotes();
    } else if s[0] != '\\' {
      UnescapeChar(s);
      UnescapeIsProto(s[1..]);
      SameHead(Utf8Char(s[0]), Utf8Char(s[0]), ProtoBytes(s[1..]).value, Utf8(Unescape(s[1..])));
    } else {
      EscapeIs(s);
      UnescapeEscape(s);
      var e := EscapeAt(s).value;
      UnescapeIsProto(s[e.len..]);
      var b, u := ProtoBytes(s[e.len..]).value, Utf8(Unescape(s[e.len..]));
      if e.len == 2 {
        OneByte(s[1..2]);
        SameHead(e.bytes, Utf8(s[1..2]), b, u);
      }
    }
  }

  lemma NothingDenotes()
    ensures Utf8(Unescape("")) == []
  {
  }

  lemma OneByte(s: string)
    requires |s| == 1 && s[0] as int < 0x80
    ensures Utf8(s) == [s[0] as int]
  {
    assert s[1..] == "";
  }

  /** A literal whose every escape stands for its own character denotes something. */
  lemma {:induction false} DirectDenotes(s: string)
    requires Direct(s)
    ensures ProtoBytes(s).Some?
    decreases |s|
  {
    hide Utf8Char;
    if s != "" {
      if s[0] == '\\' {
        DirectDenotes(s[2..]);
      } else {
        DirectDenotes(s[1..]);
      }
    }
  }

  /** The text inside one string literal as the mapper reads it. */
  function LiteralText(l: string): string
  {
    Unescape(Inside(l))
  }

  /** The mapper reads a literal as the text it denotes exactly when every escape in it stands for its own
    * character. */
  lemma LiteralTextIff(l: string)
    requires IsLiteral(l)
    ensures Denotes(l, LiteralText(l)) <==> IsDirect(l)
  {
    hide ProtoBytes, Unescape, Utf8, Direct;
    if IsDirect(l) {
      DirectDenotes(Inside(l));
    }
    if ProtoBytes(Inside(l)).Some? {
      UnescapeIsProto(Inside(l));
    }
  }

  // ---- Integers ----

  predicate IsSign(c: char)
  {
    c == '+' || c == '-'
  }

  /** A text without its sign. */
  function Unsigned(s: string): string
  {
    if s != "" && IsSign(s[0]) then s[1..] else s
  }

  function Negated(s: string, n: int): int
  {
    if s != "" && s[0] == '-' then -n else n
  }

  /** The number of an integer literal: hexadecimal, octal or decimal. */
  function Magnitude(t: string): Option<nat>
  {
    if |t| > 2 && t[0] == '0' && (t[1] == 'x' || t[1] == 'X') then
      if AllIn(t[2..], 16) then Some(ValueIn(t[2..], 16)) else None
    else if t == "" then None
    else if t[0] == '0' then
      if AllIn(t, 8) then Some(ValueIn(t, 8)) else None
    else if AllIn(t, 10) then Some(ValueIn(t, 10))
    else None
  }

  /** The integer a text denotes in the rule language. */
  function ProtoInt(s: string): Option<int>
  {
    match Magnitude(Unsigned(s))
    case None => None
    case Some(n) => Some(Negated(s, n))
  }

  /** The text is digits, with a leading zero only where that is the same number in octal. */
  predicate IsDecimal(s: string)
  {
    var t := Unsigned(s);
    t != "" && Digits(t) && (t[0] == '0' ==> Value(t) < 8)
  }

  lemma {:induction false} DecimalIsValue(t: string)
    requires Digits(t)
    ensures AllIn(t, 10) && ValueIn(t, 10) == Value(t)
  {
    forall k | 0 <= k < |t|
      ensures DigitIn(t[k], 10) < 10
    {
      assert IsDigit(t[k]);
    }
    if t != "" {
      DecimalIsValue(t[..|t| - 1]);
    }
  }

  lemma {:induction false} OctalIsLess(t: string)
    requires Digits(t) && AllIn(t, 8)
    ensures ValueIn(t, 8) <= Value(t) && (ValueIn(t, 8) == Value(t) <==> Value(t) < 8)
  {
    if t != "" {
      var u := t[..|t| - 1];
      OctalIsLess(u);
      assert IsDigit(t[|t| - 1]) && DigitIn(t[|t| - 1], 8) < 8;
    }
  }

  /** The mapper reads an integer as what it denotes exactly when it is decimal. */
  lemma ParseIntIff(s: string, n: int, p: int)
    requires ParseInt(s) == Some(n) && ProtoInt(s) == Some(p)
    ensures n == p <==> IsDecimal(s)
    ensures 0 <= p <= n || n <= p <= 0
  {
    var t := Unsigned(s);
    assert Digits(t) && t != "";
    DecimalIsValue(t);
    assert |t| > 2 ==> IsDigit(t[1]);
    hide Value, ValueIn;
    if t[0] == '0' {
      OctalIsLess(t);
    }
  }

  lemma {:induction false} SmallIsOctal(t: string)
    requires Digits(t) && Value(t) < 8
    ensures AllIn(t, 8)
  {
    if t != "" {
      var u := t[..|t| - 1];
      SmallIsOctal(u);
      assert IsDigit(t[|t| - 1]);
      assert forall k :: 0 <= k < |t| - 1 ==> t[k] == u[k];
    }
  }

  /** A decimal integer denotes the number the mapper reads. */
  lemma DecimalMeans(s: string)
    requires IsDecimal(s)
    ensures ProtoInt(s) == ParseInt(s) && ProtoInt(s).Some?
  {
    var t := Unsigned(s);
    DecimalIsValue(t);
    assert |t| > 2 ==> IsDigit(t[1]);
    if t[0] == '0' {
      SmallIsOctal(t);
      OctalIsLess(t);
    }
    hide Value, ValueIn;
  }
}
