/** Which text is written for a BigFloat: the one text of the general form (`%g`,
    section 7.21.6.1 of C11) that denotes the decimal shown. */
module BigFloatShape {
  import opened Options
  import opened Powers
  import opened Rounding
  import opened Decimals
  import opened BigFloatText
  import opened BigFloat

  /** At least w characters, and no zero in front of more than w. */
  predicate Least(s: string, w: nat)
  {
    |s| >= w && (|s| > w ==> s[0] != '0')
  }

  /** The general form of n digits for a number between 10^x and 10^(x+1): with
      an exponent when x is below -4 or has n digits before the point. */
  ghost predicate General(t: Parts, x: int, n: nat)
  {
    && WellFormed(t)
    && Least(t.ip, 1) && Least(t.suffix, 1)
    && (t.fp == "" || t.fp[|t.fp| - 1] != '0')
    && (t.exp == "" <==> -4 <= x < n)
    && (t.exp != "" ==>
          && |t.ip| == 1 && t.ip[0] != '0'
          && t.exp[0] == (if x < 0 then '-' else '+')
          && Least(t.exp[1..], 2)
          && ParseInt(t.exp) == Some(x))
  }

  // ---- Digit strings -------------------------------------------------------

  lemma {:induction false} NumeralIsLeast(n: nat)
    ensures Least(Numeral(n), 1)
    ensures n > 0 ==> Numeral(n)[0] != '0'
  {
    if n >= 10 {
      NumeralIsLeast(n / 10);
    }
  }

  lemma {:induction false} ValueBound(s: string)
    requires Digits(s)
    ensures Value(s) < IntPow(10, |s|)
  {
    if s != [] {
      ValueBound(s[..|s| - 1]);
    }
  }

  lemma ValueOfLead(s: string)
    requires Digits(s) && s != "" && s[0] != '0'
    ensures Value(s) >= IntPow(10, |s| - 1)
  {
    var a, b := s[..1], s[1..];
    assert s == a + b;
    ValueOfConcat(a, b);
    assert a[..0] == [];
    AtLeastOnce(Value(a), IntPow(10, |b|));
  }

  lemma AtLeastOnce(x: nat, y: nat)
    requires x >= 1
    ensures x * y >= y
  {
  }

  lemma {:induction false} SameLengthSame(a: string, b: string)
    requires Digits(a) && Digits(b) && |a| == |b| && Value(a) == Value(b)
    ensures a == b
  {
    if a != [] {
      SameLengthSame(a[..|a| - 1], b[..|b| - 1]);
      assert a == a[..|a| - 1] + [a[|a| - 1]];
      assert b == b[..|b| - 1] + [b[|b| - 1]];
    }
  }

  lemma NotShorter(a: string, b: string, w: nat)
    requires Digits(a) && Digits(b) && Least(a, w) && Least(b, w) && Value(a) == Value(b)
    ensures |a| >= |b|
  {
    if |a| < |b| {
      ValueBound(a);
      ValueOfLead(b);
      if |a| < |b| - 1 {
        IntPowStrict(|a|, |b| - 1);
      }
    }
  }

  /** One number has one digit string without needless zeros. */
  lemma LeastUnique(a: string, b: string, w: nat)
    requires Digits(a) && Digits(b) && Least(a, w) && Least(b, w) && Value(a) == Value(b)
    ensures a == b
  {
    NotShorter(a, b, w);
    NotShorter(b, a, w);
    SameLengthSame(a, b);
  }

  lemma TenfoldEndsInZero(s: string, m: nat, e: nat)
    requires Digits(s) && s != "" && e > 0 && Value(s) == m * IntPow(10, e)
    ensures s[|s| - 1] == '0'
  {
    TenTimes(m, IntPow(10, e - 1));
  }

  // ---- The text written ----------------------------------------------------

  lemma ExponentTextLeast(k: int)
    ensures var s := ExponentText(k);
            && |s| >= 3 && s[0] == (if k < 0 then '-' else '+')
            && Least(s[1..], 2)
  {
    var s := Numeral(if k < 0 then -k else k);
    NumeralIsLeast(if k < 0 then -k else k);
    hide Numeral;
    var z := if |s| < 2 then 2 - |s| else 0;
    assert ExponentText(k)[1..] == Zeros(z) + s;
  }

  lemma ShortestEnds(q: nat)
    requires q > 0
    ensures var d := Shortest(q);
            d[0] != '0' && d[|d| - 1] != '0' && |d| <= |Numeral(q)|
  {
    NumeralIsLeast(q);
    hide Numeral;
    var s := Numeral(q);
    var d := StripZeros(s);
    if d == "" {
      assert false;
    }
  }

  /** Digits without a zero at either end are laid out in the general form. */
  lemma LayoutGeneral(neg: bool, d: string, k: int, n: nat, prec: nat)
    requires |d| > 0 && Digits(d) && d[0] != '0' && d[|d| - 1] != '0'
    ensures General(Layout(neg, d, k, n, prec), k, n)
  {
    hide ParseInt, Numeral, ExponentText, Value;
    LayoutWellFormed(neg, d, k, n, prec);
    NumeralIsLeast(prec);
    ExponentTextLeast(k);
    ExponentTextParses(k);
    hide WellFormed;
  }

  lemma ShownExponent(w: real, n: nat)
    requires w > 0.0 && n >= 1
    ensures Shown(w, n) > 0.0 && Exponent(10, Shown(w, n)) == Leading(w, n).1
  {
    hide Shift, Pow, Leading, Exponent;
    var (q, k) := Leading(w, n);
    LeadingRange(w, n);
    ShiftPositive(10, q as real, k - n + 1);
    ShiftNatPow(10, n - 1, k - n + 1);
    ShiftNatPow(10, n, k - n + 1);
    ShiftLess(10, IntPow(10, n - 1) as real, q as real, k - n + 1);
    ShiftLess(10, q as real, IntPow(10, n) as real, k - n + 1);
    ExponentUnique(10, Shown(w, n), k, Exponent(10, Shown(w, n)));
  }

  /** The decimal shown for a positive BigFloat: its value rounded to its
      precision, and that rounded to the digits of the precision. */
  ghost function Decimal(mant: nat, exp: int, prec: nat): (v: real)
    requires mant > 0 && prec > 0
    ensures v > 0.0
  {
    hide Shift, Round, Shown;
    ShiftPositive(2, mant as real, exp);
    RoundBounds(Shift(2, mant as real, exp), prec);
    var w := Round(Shift(2, mant as real, exp), prec);
    ShownExponent(w, DigitsFor(prec));
    Shown(w, DigitsFor(prec))
  }

  /** p spelled out: sign, digits, point, exponent and precision. */
  ghost predicate Spells(lit: string, p: Parts)
  {
    lit == (if p.neg then "-" else "") + p.ip + (if p.fp == "" then "" else "." + p.fp)
           + (if p.exp == "" then "" else "e" + p.exp) + "p" + p.suffix
  }

  lemma WrittenIsLayout(mant: nat, exp: int, prec: nat, neg: bool) returns (p: Parts)
    requires mant > 0 && prec > 0
    ensures Written(mant, exp, prec, neg) == Render(p)
    ensures General(p, Exponent(10, Decimal(mant, exp, prec)), DigitsFor(prec))
    ensures Denotes(p, Decimal(mant, exp, prec))
    ensures p.neg == neg && p.suffix == Numeral(prec)
  {
    hide Shift, Pow, Round, Leading, Numeral, Layout, Render, Exponent, Denotes, General, Shortest, Value, Shown;
    ShiftPositive(2, mant as real, exp);
    RoundBounds(Shift(2, mant as real, exp), prec);
    var w, n := Round(Shift(2, mant as real, exp), prec), DigitsFor(prec);
    var r := Leading(w, n);
    LeadingRange(w, n);
    ShortestValue(r.0, n, r.1);
    ShortestEnds(r.0);
    ShownExponent(w, n);
    p := Layout(neg, Shortest(r.0), r.1, n, prec);
    LayoutGeneral(neg, Shortest(r.0), r.1, n, prec);
    LayoutValue(neg, Shortest(r.0), r.1, n, prec);
    LayoutEnds(neg, Shortest(r.0), r.1, n, prec);
    ShownIs(w, n);
  }

  lemma LayoutEnds(neg: bool, d: string, k: int, n: nat, prec: nat)
    requires |d| > 0
    ensures Layout(neg, d, k, n, prec).neg == neg && Layout(neg, d, k, n, prec).suffix == Numeral(prec)
  {
  }

  lemma ShownIs(w: real, n: nat)
    requires w > 0.0 && n >= 1
    ensures Shown(w, n) == Shift(10, Leading(w, n).0 as real, Leading(w, n).1 - n + 1)
  {
  }

  /** The text written for a positive BigFloat, taken apart: the general form of
      the decimal shown, in which it is spelled out. */
  lemma WrittenGeneral(mant: nat, exp: int, prec: nat, neg: bool)
    requires mant > 0 && prec > 0
    ensures var t := Split(Written(mant, exp, prec, neg));
            && General(t, Exponent(10, Decimal(mant, exp, prec)), DigitsFor(prec))
            && Denotes(t, Decimal(mant, exp, prec))
            && t.neg == neg && ParseInt(t.suffix) == Some(prec)
            && Spells(Written(mant, exp, prec, neg), t)
  {
    hide Written, Decimal, Exponent, Denotes, Split, ParseInt, Numeral;
    var p := WrittenIsLayout(mant, exp, prec, neg);
    SplitOfRender(p);
    SuffixParses(prec);
  }

  /** A zero is written as the digit alone, and without a precision when there
      is none. */
  lemma WrittenZero(mant: nat, exp: int, prec: nat, neg: bool)
    ensures Written(mant, exp, 0, neg) == if neg then "-0" else "0"
    ensures prec > 0 ==>
              var t := Split(Written(0, exp, prec, neg));
              && t == Parts(neg, "0", "", "", t.suffix)
              && Digits(t.suffix) && Least(t.suffix, 1) && ParseInt(t.suffix) == Some(prec)
              && Spells(Written(0, exp, prec, neg), t)
  {
    hide Split, ParseInt, Numeral;
    if prec > 0 {
      var p := Parts(neg, "0", "", "", Numeral(prec));
      NumeralIsLeast(prec);
      SplitOfRender(p);
      SuffixParses(prec);
    }
  }

  // ---- There is no other such text -----------------------------------------

  lemma NoMorePlaces(s: Parts, t: Parts, v: real)
    requires Denotes(s, v) && Denotes(t, v) && ExponentPart(s) == ExponentPart(t)
    requires t.fp == "" || t.fp[|t.fp| - 1] != '0'
    ensures |t.fp| <= |s.fp|
  {
    hide Shift, Pow, Value, ParseInt, ExponentPart;
    if |s.fp| < |t.fp| {
      var a, b, e := Value(s.ip + s.fp), Value(t.ip + t.fp), ExponentPart(s).value;
      var z := |t.fp| - |s.fp|;
      ShiftNat(10, a, z);
      ShiftShift(10, a as real, z, e - |t.fp|);
      ShiftLess(10, b as real, (a * IntPow(10, z)) as real, e - |t.fp|);
      SameInts(b, a * IntPow(10, z));
      TenfoldEndsInZero(t.ip + t.fp, a, z);
      assert false;
    }
  }

  lemma SameInts(a: int, b: int)
    requires a as real == b as real
    ensures a == b
  {
  }

  lemma SameParts(a: nat, x: nat, b: nat, y: nat, m: nat)
    requires x < m && y < m && a * m + x == b * m + y
    ensures a == b && x == y
  {
    assert (b - a) * m == b * m - a * m;
    assert (a - b) * m == a * m - b * m;
    if a < b {
      AtLeastOnce(b - a, m);
    } else if b < a {
      AtLeastOnce(a - b, m);
    }
  }

  lemma SameMantissa(s: Parts, t: Parts, v: real)
    requires WellFormed(s) && WellFormed(t) && Least(s.ip, 1) && Least(t.ip, 1)
    requires Denotes(s, v) && Denotes(t, v) && ExponentPart(s) == ExponentPart(t)
    requires s.fp == "" || s.fp[|s.fp| - 1] != '0'
    requires t.fp == "" || t.fp[|t.fp| - 1] != '0'
    ensures s.ip == t.ip && s.fp == t.fp
  {
    NoMorePlaces(s, t, v);
    NoMorePlaces(t, s, v);
    hide Shift, Pow, Value, ParseInt, ExponentPart;
    var e := ExponentPart(s).value - |s.fp|;
    ShiftLess(10, Value(s.ip + s.fp) as real, Value(t.ip + t.fp) as real, e);
    SameInts(Value(s.ip + s.fp), Value(t.ip + t.fp));
    ValueOfConcat(s.ip, s.fp);
    ValueOfConcat(t.ip, t.fp);
    ValueBound(s.fp);
    ValueBound(t.fp);
    SameParts(Value(s.ip), Value(s.fp), Value(t.ip), Value(t.fp), IntPow(10, |s.fp|));
    LeastUnique(s.ip, t.ip, 1);
    SameLengthSame(s.fp, t.fp);
  }

  lemma SameExponent(a: string, b: string, x: int)
    requires SignedDigits(a) && SignedDigits(b) && Least(a[1..], 2) && Least(b[1..], 2)
    requires a[0] == b[0] && ParseInt(a) == Some(x) == ParseInt(b)
    ensures a == b
  {
    LeastUnique(a[1..], b[1..], 2);
    assert a == [a[0]] + a[1..];
    assert b == [b[0]] + b[1..];
  }

  lemma SuffixValue(s: string, prec: nat)
    requires s != "" && Digits(s)
    ensures ParseInt(s) == Some(prec) <==> Value(s) == prec
  {
  }

  /** One number has one text of the general form. */
  lemma GeneralUnique(s: Parts, t: Parts, v: real, x: int, n: nat, prec: nat)
    requires General(s, x, n) && Denotes(s, v) && ParseInt(s.suffix) == Some(prec)
    requires General(t, x, n) && Denotes(t, v) && ParseInt(t.suffix) == Some(prec)
    requires s.neg == t.neg
    ensures s == t
  {
    hide Denotes, Value, ParseInt;
    if s.exp != "" {
      SameExponent(s.exp, t.exp, x);
    }
    SameMantissa(s, t, v);
    SuffixValue(s.suffix, prec);
    SuffixValue(t.suffix, prec);
    LeastUnique(s.suffix, t.suffix, 1);
  }

  /** Any text of the general form that denotes the decimal shown is the text
      written. */
  lemma WrittenIsTheGeneral(mant: nat, exp: int, prec: nat, lit: string, p: Parts)
    requires mant > 0 && prec > 0 && Spells(lit, p)
    requires General(p, Exponent(10, Decimal(mant, exp, prec)), DigitsFor(prec))
    requires Denotes(p, Decimal(mant, exp, prec)) && ParseInt(p.suffix) == Some(prec)
    ensures lit == Written(mant, exp, prec, p.neg)
  {
    hide Written, Decimal, Exponent, Denotes, Split, ParseInt, General;
    WrittenGeneral(mant, exp, prec, p.neg);
    var t := Split(Written(mant, exp, prec, p.neg));
    GeneralUnique(p, t, Decimal(mant, exp, prec), Exponent(10, Decimal(mant, exp, prec)), DigitsFor(prec), prec);
  }
}
