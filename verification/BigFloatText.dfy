/** The layout of a decimal literal as text (`%g`, section 7.21.6.1 of C11, with
    a precision suffix), and how the text is taken apart again. */
module BigFloatText {
  import opened Options
  import opened Powers
  import opened Decimals

  datatype Parts = Parts(neg: bool, ip: string, fp: string, exp: string, suffix: string)

  // ---- Writing -------------------------------------------------------------

  /** s followed by zeros up to width characters. */
  function PadRight(s: string, width: nat): string
  {
    s + Zeros(if |s| < width then width - |s| else 0)
  }

  /** |k| in at least two digits, after its sign. */
  function ExponentText(k: int): string
  {
    var s := Numeral(if k < 0 then -k else k);
    [if k < 0 then '-' else '+'] + Zeros(if |s| < 2 then 2 - |s| else 0) + s
  }

  /** The parts of the literal for the digits d, the first at decimal exponent
      k, written with precision n. */
  function Layout(neg: bool, d: string, k: int, n: nat, prec: nat): Parts
    requires |d| > 0
  {
    var suffix := Numeral(prec);
    if k < -4 || k >= n then
      Parts(neg, d[..1], d[1..], ExponentText(k), suffix)
    else if k >= 0 then
      if k + 1 < |d| then Parts(neg, d[..k + 1], d[k + 1..], "", suffix)
      else Parts(neg, PadRight(d, k + 1), "", "", suffix)
    else
      Parts(neg, "0", Zeros(-k - 1) + d, "", suffix)
  }

  function Render(p: Parts): string
  {
    (if p.neg then "-" else "") + p.ip + (if p.fp != "" then "." + p.fp else "")
    + (if p.exp != "" then "e" + p.exp else "") + (if p.suffix != "" then "p" + p.suffix else "")
  }

  // ---- Reading -------------------------------------------------------------

  predicate IsSign(c: char)
  {
    c == '+' || c == '-'
  }

  /** The text before the first c, and the text after it. */
  function Partition(s: string, c: char): (r: (string, string))
  {
    if s == "" then ("", "")
    else if s[0] == c then ("", s[1..])
    else
      var r := Partition(s[1..], c);
      ([s[0]] + r.0, r.1)
  }

  function StripSigns(s: string): string
  {
    if s != "" && IsSign(s[0]) then StripSigns(s[1..]) else s
  }

  function LowerChar(c: char): char
  {
    if 'A' <= c <= 'Z' then (c as int + 32) as char else c
  }

  function Lower(s: string): string
  {
    seq(|s|, i requires 0 <= i < |s| => LowerChar(s[i]))
  }

  function Split(lit: string): Parts
  {
    var neg := lit != "" && lit[0] == '-';
    var (body, suffix) := Partition(StripSigns(lit), 'p');
    var (mant, exp) := Partition(Lower(body), 'e');
    var (ip, fp) := Partition(mant, '.');
    Parts(neg, ip, fp, exp, suffix)
  }

  // ---- Split undoes Render -------------------------------------------------

  lemma {:induction false} PartitionAt(a: string, c: char, b: string)
    requires c !in a
    ensures Partition(a + [c] + b, c) == (a, b)
  {
    if a == "" {
      assert a + [c] + b == [c] + b;
    } else {
      PartitionAt(a[1..], c, b);
      assert a == [a[0]] + a[1..];
      assert (a + [c] + b)[0] == a[0];
      assert (a + [c] + b)[1..] == a[1..] + [c] + b;
    }
  }

  lemma {:induction false} PartitionNone(a: string, c: char)
    requires c !in a
    ensures Partition(a, c) == (a, "")
  {
    if a != "" {
      PartitionNone(a[1..], c);
      assert a == [a[0]] + a[1..];
    }
  }

  ghost predicate SignedDigits(s: string)
  {
    s != "" && IsSign(s[0]) && Digits(s[1..])
  }

  /** What Layout produces: digit strings, with a signed exponent or none. */
  ghost predicate WellFormed(p: Parts)
  {
    && p.ip != "" && Digits(p.ip) && Digits(p.fp)
    && (p.exp == "" || SignedDigits(p.exp))
    && p.suffix != "" && Digits(p.suffix)
  }

  function Mantissa(p: Parts): string
  {
    p.ip + (if p.fp != "" then "." + p.fp else "")
  }

  function Body(p: Parts): string
  {
    Mantissa(p) + (if p.exp != "" then "e" + p.exp else "")
  }

  /** The characters of a number without its suffix. */
  predicate BodyChar(c: char)
  {
    IsDigit(c) || IsSign(c) || c == '.' || c == 'e'
  }

  lemma BodyChars(p: Parts)
    requires WellFormed(p)
    ensures forall i :: 0 <= i < |Body(p)| ==> BodyChar(Body(p)[i])
    ensures 'e' !in Mantissa(p) && '.' !in p.ip
    ensures IsDigit(Body(p)[0])
  {
    assert p.exp != "" ==> forall i :: 0 < i < |p.exp| ==> p.exp[i] == p.exp[1..][i - 1];
  }

  lemma LowerOfBody(s: string)
    requires forall i :: 0 <= i < |s| ==> BodyChar(s[i])
    ensures Lower(s) == s && 'p' !in s
  {
  }

  lemma SplitOfRender(p: Parts)
    requires WellFormed(p)
    ensures Split(Render(p)) == p
  {
    BodyChars(p);
    LowerOfBody(Body(p));
    RenderIsSigned(p);
    SignsStripped(p);
    PartitionAt(Body(p), 'p', p.suffix);
    PartitionOfBody(p);
    PartitionOfMantissa(p);
    hide Render, Body, Mantissa, WellFormed, Partition, StripSigns, Lower;
  }

  lemma PartitionOfBody(p: Parts)
    requires WellFormed(p)
    ensures Partition(Body(p), 'e') == (Mantissa(p), p.exp)
  {
    hide Partition;
    BodyChars(p);
    if p.exp != "" {
      PartitionAt(Mantissa(p), 'e', p.exp);
      assert Body(p) == Mantissa(p) + ['e'] + p.exp;
    } else {
      PartitionNone(Mantissa(p), 'e');
      assert Body(p) == Mantissa(p);
    }
  }

  lemma PartitionOfMantissa(p: Parts)
    requires WellFormed(p)
    ensures Partition(Mantissa(p), '.') == (p.ip, p.fp)
  {
    hide Partition;
    BodyChars(p);
    if p.fp != "" {
      PartitionAt(p.ip, '.', p.fp);
      assert Mantissa(p) == p.ip + ['.'] + p.fp;
    } else {
      PartitionNone(p.ip, '.');
      assert Mantissa(p) == p.ip;
    }
  }

  function Unsigned(p: Parts): string
  {
    Body(p) + ['p'] + p.suffix
  }

  lemma RenderIsSigned(p: Parts)
    requires WellFormed(p)
    ensures Render(p) == (if p.neg then ['-'] else []) + Unsigned(p)
  {
  }

  lemma SignsStripped(p: Parts)
    requires WellFormed(p)
    ensures StripSigns(Unsigned(p)) == Unsigned(p) && Unsigned(p)[0] != '-'
    ensures StripSigns(['-'] + Unsigned(p)) == Unsigned(p)
    ensures [] + Unsigned(p) == Unsigned(p)
  {
    BodyChars(p);
    var t := Unsigned(p);
    assert t[0] == Body(p)[0];
    hide Body, Unsigned;
    assert (['-'] + t)[1..] == t;
  }

  // ---- What the text denotes -----------------------------------------------

  lemma ExponentTextParses(k: int)
    ensures SignedDigits(ExponentText(k))
    ensures ParseInt(ExponentText(k)) == Some(k)
  {
    var s := Numeral(if k < 0 then -k else k);
    var z := if |s| < 2 then 2 - |s| else 0;
    var t := ExponentText(k);
    assert t[1..] == Zeros(z) + s;
    LeadingZeros(z, s);
    ValueOfNumeral(if k < 0 then -k else k);
  }

  lemma LayoutWellFormed(neg: bool, d: string, k: int, n: nat, prec: nat)
    requires |d| > 0 && Digits(d)
    ensures WellFormed(Layout(neg, d, k, n, prec))
  {
    ExponentTextParses(k);
  }

  function ExponentPart(p: Parts): Option<int>
  {
    if p.exp == "" then Some(0) else ParseInt(p.exp)
  }

  /** The number the parts denote. */
  ghost predicate Denotes(p: Parts, v: real)
  {
    && Digits(p.ip + p.fp)
    && ExponentPart(p).Some?
    && v == Shift(10, Value(p.ip + p.fp) as real, ExponentPart(p).value - |p.fp|)
  }

  /** The parts of a layout denote the digits, the first standing for 10^k. */
  lemma LayoutValue(neg: bool, d: string, k: int, n: nat, prec: nat)
    requires |d| > 0 && Digits(d)
    ensures Denotes(Layout(neg, d, k, n, prec), Shift(10, Value(d) as real, k + 1 - |d|))
  {
    hide Shift, Value, ParseInt, ExponentText, PadRight, Denotes, Numeral;
    var p := Layout(neg, d, k, n, prec);
    if k < -4 || k >= n {
      ExponentTextParses(k);
      assert p.ip + p.fp == d;
      DenotesSplit(p, d, k);
    } else if k >= 0 {
      if k + 1 < |d| {
        assert p.ip + p.fp == d;
        DenotesSplit(p, d, 0);
      } else {
        PaddedValue(d, k + 1);
        assert p.ip + p.fp == PadRight(d, k + 1);
        DenotesSplit(p, PadRight(d, k + 1), 0);
      }
    } else {
      FractionValue(p, d, k);
    }
  }

  lemma FractionValue(p: Parts, d: string, k: int)
    requires k < 0 && Digits(d) && p.ip == "0" && p.fp == Zeros(-k - 1) + d && p.exp == ""
    ensures Denotes(p, Shift(10, Value(d) as real, k + 1 - |d|))
  {
    hide Shift, Value, Denotes;
    LeadingZeros(-k, d);
    assert p.ip + p.fp == Zeros(-k) + d;
    DenotesSplit(p, Zeros(-k) + d, 0);
  }

  lemma DenotesSplit(p: Parts, d: string, k: int)
    requires Digits(d) && p.ip + p.fp == d && ExponentPart(p) == Some(k)
    ensures Denotes(p, Shift(10, Value(d) as real, k - |p.fp|))
  {
  }

  lemma SuffixParses(prec: nat)
    ensures ParseInt(Numeral(prec)) == Some(prec)
  {
    ValueOfNumeral(prec);
  }

  lemma PaddedValue(d: string, w: nat)
    requires Digits(d) && w >= |d|
    ensures Digits(PadRight(d, w))
    ensures Shift(10, Value(PadRight(d, w)) as real, 0) == Shift(10, Value(d) as real, w - |d|)
  {
    hide Shift;
    var z := w - |d|;
    assert PadRight(d, w) == d + Zeros(z);
    ValueOfConcat(d, Zeros(z));
    ValueOfZeros(z);
    ShiftNat(10, Value(d), z);
    ShiftZero(10, Value(d + Zeros(z)) as real);
  }
}
