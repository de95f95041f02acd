/** The meaning of a BigFloat's text form, in exact numbers: what is written for
    a mantissa, exponent, precision and sign, what a literal reads as, and why
    reading gives back what was written. */
module BigFloat {
  import opened Options
  import opened Powers
  import opened Rounding
  import opened Decimals
  import opened BigFloatText

  /** A literal's reading. */
  datatype Number = Number(mant: int, exp: int, prec: int, neg: bool)

  /** The significant digits a value of prec bits is written with. */
  function DigitsFor(prec: nat): (n: nat)
    ensures n >= 2
  {
    |Numeral(IntPow(2, prec))| + 1
  }

  /** Enough digits to tell any two numbers of prec bits apart. */
  lemma DigitsForBound(prec: nat)
    ensures IntPow(10, DigitsFor(prec) - 2) <= IntPow(2, prec) < IntPow(10, DigitsFor(prec) - 1)
  {
    PowOfNat(2, prec);
    NumeralLength(IntPow(2, prec));
  }

  // ---- Writing -------------------------------------------------------------

  /** w rounded to n decimal digits, as an integer of n digits and the exponent of
      its first digit. */
  ghost function Leading(w: real, n: nat): (r: (nat, int))
    requires w > 0.0 && n >= 1
  {
    hide Shift, Exponent;
    var k := Exponent(10, w);
    ShiftPositive(10, w, n - 1 - k);
    var q := HalfEven(Shift(10, w, n - 1 - k));
    if q == IntPow(10, n) then (q / 10, k + 1) else (q, k)
  }

  /** The number those digits denote. */
  ghost function Shown(w: real, n: nat): real
    requires w > 0.0 && n >= 1
  {
    var r := Leading(w, n);
    Shift(10, r.0 as real, r.1 - n + 1)
  }

  /** The digits written for q: no trailing zeros, but at least one digit. */
  function Shortest(q: nat): (d: string)
    ensures |d| > 0 && Digits(d)
  {
    var d := StripZeros(Numeral(q));
    if d == "" then "0" else d
  }

  ghost function Written(mant: nat, exp: int, prec: nat, neg: bool): string
  {
    if prec == 0 then Render(Parts(neg, "0", "", "", ""))
    else if mant == 0 then Render(Parts(neg, "0", "", "", Numeral(prec)))
    else
      ShiftPositive(2, mant as real, exp);
      RoundBounds(Shift(2, mant as real, exp), prec);
      var n := DigitsFor(prec);
      var r := Leading(Round(Shift(2, mant as real, exp), prec), n);
      Render(Layout(neg, Shortest(r.0), r.1, n, prec))
  }

  // ---- Reading -------------------------------------------------------------

  /** What a literal reads as, and None for text that is no number. */
  ghost function Read(lit: string): Option<Number>
  {
    var t := Split(lit);
    var digits := if t.ip + t.fp == "" then Some(0) else ParseNat(t.ip + t.fp);
    var prec := if t.suffix == "" then Some(256) else ParseInt(t.suffix);
    if digits.None? || ExponentPart(t).None? || prec.None? then None
    else if digits.value == 0 then Some(Number(0, 0, if t.suffix == "" then 0 else prec.value, t.neg))
    else
      var e := ExponentPart(t).value - |t.fp|;
      ShiftPositive(10, digits.value as real, e);
      var r := Normal(Shift(10, digits.value as real, e), prec.value);
      Some(Number(r.0, r.1, prec.value, t.neg))
  }

  // ---- The decimal digits --------------------------------------------------

  lemma LeadingRange(w: real, n: nat)
    requires w > 0.0 && n >= 1
    ensures IntPow(10, n - 1) <= Leading(w, n).0 < IntPow(10, n)
    ensures IntPow(10, n - 1) > 0
  {
    hide Shift, Pow, HalfEven;
    var k := Exponent(10, w);
    var x := Shift(10, w, n - 1 - k);
    PowOfNat(10, n - 1);
    PowOfNat(10, n);
    ShiftPow(10, k, n - 1 - k);
    ShiftPow(10, k + 1, n - 1 - k);
    ShiftLess(10, Pow(10, k), w, n - 1 - k);
    ShiftLess(10, w, Pow(10, k + 1), n - 1 - k);
    HalfEvenMonotone(IntPow(10, n - 1) as real, x);
    HalfEvenMonotone(x, IntPow(10, n) as real);
    HalfEvenNearest(IntPow(10, n - 1) as real, IntPow(10, n - 1));
    HalfEvenNearest(IntPow(10, n) as real, IntPow(10, n));
  }

  /** The written digits are off by at most half a unit in the last place. */
  lemma ShownIsNear(w: real, n: nat)
    requires w > 0.0 && n >= 1
    ensures Distance(Shown(w, n), w) <= Shift(10, 0.5, Exponent(10, w) - n + 1)
  {
    hide Shift, Pow, HalfEven;
    var k := Exponent(10, w);
    var x := Shift(10, w, n - 1 - k);
    var q := HalfEven(x);
    HalfEvenIs(x);
    hide Exponent;
    ShiftBack(10, w, k - n + 1);
    ShiftDistance(10, q as real, x, k - n + 1);
    ShiftLess(10, Distance(q as real, x), 0.5, k - n + 1);
    if q == IntPow(10, n) {
      ShiftNatPow(10, n, k - n + 1);
      ShiftNatPow(10, n - 1, k - n + 2);
      assert q / 10 == IntPow(10, n - 1);
    }
  }

  /** A unit in the last written place is less than the spacing of the binary
      numbers, when the significand is less than 10^(n-1). */
  lemma UnitBound(w: real, n: nat, m: nat, e: int)
    requires w > 0.0 && n >= 1 && w == Shift(2, m as real, e) && m < IntPow(10, n - 1)
    ensures Shift(10, 0.5, Exponent(10, w) - n + 1) < Shift(2, 0.5, e)
  {
    hide Shift, Pow, Exponent;
    var k := Exponent(10, w);
    ShiftNatPow(10, n - 1, k - n + 1);
    UnitProduct(IntPow(10, n - 1), m, k - n + 1, e);
  }

  lemma UnitProduct(b: nat, m: nat, d: int, e: int)
    requires 0 <= m < b && Shift(10, b as real, d) <= Shift(2, m as real, e)
    ensures Shift(10, 0.5, d) < Shift(2, 0.5, e)
  {
    hide Pow;
    var u, t := Pow(10, d), Pow(2, e);
    PowPositive(10, d);
    PowPositive(2, e);
    ScaleLess(t, m as real, b as real);
    Commute(t, m as real);
    Commute(t, b as real);
    ScaleLess(b as real, u, t);
  }

  lemma HalfUnit(e: int)
    ensures Shift(2, 0.5, e) == Pow(2, e - 1) > 0.0
    ensures Pow(2, e) == 2.0 * Pow(2, e - 1)
  {
    hide Pow;
    PowStep(2, e - 1);
    PowPositive(2, e - 1);
  }

  /** Rounding the shown decimal to p bits gives back a number of p bits. */
  lemma ShownRoundsBack(m: nat, e: int, n: nat, p: nat)
    requires p >= 1 && n >= 1 && IntPow(2, p - 1) <= m < IntPow(2, p) < IntPow(10, n - 1)
    ensures var w := Shift(2, m as real, e);
            w > 0.0 && Shown(w, n) > 0.0 && Round(Shown(w, n), p) == w
  {
    hide Shift, Pow, Over, Exponent, Shown;
    var w := Shift(2, m as real, e);
    RoundOfPBit(m, e, p);
    ShownIsNear(w, n);
    UnitBound(w, n, m, e);
    HalfUnit(e);
    var d := Shown(w, n);
    InBinade(m, e, p);
    if Pow(2, p - 1 + e) <= d {
      PowPositive(2, p - 1 + e);
      ScaleIs(d, p, e);
      OverNearest(d, e, m);
    } else {
      assert m == IntPow(2, p - 1) by {
        if m > IntPow(2, p - 1) {
          AboveBinade(m, e, p);
        }
      }
      PowerOfTwoEdge(e, n, p);
    }
  }

  /** The numbers of p bits with exponent e lie at least one unit below the next
      power of two. */
  lemma InBinade(m: nat, e: int, p: nat)
    requires p >= 1 && IntPow(2, p - 1) <= m < IntPow(2, p)
    ensures Pow(2, p - 1 + e) <= Shift(2, m as real, e) <= Pow(2, p + e) - Pow(2, e)
  {
    hide Shift, Pow;
    ShiftNatPow(2, p - 1, e);
    ShiftNatPow(2, p, e);
    ShiftNatPow(2, 0, e);
    ShiftLess(2, IntPow(2, p - 1) as real, m as real, e);
    ShiftLess(2, m as real, IntPow(2, p) as real - 1.0, e);
    ShiftMinus(2, IntPow(2, p) as real, 1.0, e);
    assert IntPow(2, 0) == 1;
  }

  lemma AboveBinade(m: nat, e: int, p: nat)
    requires p >= 1 && IntPow(2, p - 1) < m
    ensures Shift(2, m as real, e) >= Pow(2, p - 1 + e) + Pow(2, e)
  {
    hide Shift, Pow;
    ShiftNatPow(2, p - 1, e);
    ShiftNatPow(2, 0, e);
    ShiftLess(2, IntPow(2, p - 1) as real, m as real - 1.0, e);
    ShiftMinus(2, m as real, 1.0, e);
    assert IntPow(2, 0) == 1;
  }

  /** Just below a power of two the spacing halves, and so does the error. */
  lemma PowerOfTwoEdge(e: int, n: nat, p: nat)
    requires p >= 1 && n >= 1 && IntPow(2, p) < IntPow(10, n - 1)
    requires var w := Shift(2, IntPow(2, p - 1) as real, e);
             w > 0.0 && Shown(w, n) < Pow(2, p - 1 + e)
    ensures var w := Shift(2, IntPow(2, p - 1) as real, e);
            Shown(w, n) > 0.0 && Round(Shown(w, n), p) == w
  {
    hide Shift, Pow, Over, Exponent, Shown;
    var w := Shift(2, IntPow(2, p - 1) as real, e);
    var d := Shown(w, n);
    ShiftNatPow(2, p - 1, e);
    ShiftNatPow(2, p, e - 1);
    ShownIsNear(w, n);
    UnitBound(w, n, IntPow(2, p), e - 1);
    HalfUnit(e - 1);
    PowStep(2, p - 2 + e);
    PowMonotone(2, e - 2, p - 2 + e);
    PowPositive(2, p - 2 + e);
    assert Pow(2, p - 1 + (e - 1)) <= d < Pow(2, p + (e - 1));
    ScaleIs(d, p, e - 1);
    OverNearest(d, e - 1, IntPow(2, p));
  }

  // ---- The round trip ------------------------------------------------------

  /** The shortened digits denote what the n digits denote. */
  lemma ShortestValue(q: nat, n: nat, k: int)
    requires n >= 1 && 0 < IntPow(10, n - 1) <= q < IntPow(10, n)
    ensures var d := Shortest(q);
            Shift(10, Value(d) as real, k + 1 - |d|) == Shift(10, q as real, k - n + 1)
    ensures Value(Shortest(q)) > 0
  {
    hide Shift, Numeral;
    var s := Numeral(q);
    var d := StripZeros(s);
    NumeralLengthIs(q, n);
    ValueOfNumeral(q);
    ValueOfStripped(s);
    if d == "" {
      assert false;
    }
    ShiftNat(10, Value(d), n - |d|);
    ShiftShift(10, Value(d) as real, n - |d|, k - n + 1);
  }

  lemma ReadOfZero(prec: nat, neg: bool)
    ensures Read(Render(Parts(neg, "0", "", "", Numeral(prec)))) == Some(Number(0, 0, prec, neg))
    ensures Read(Render(Parts(neg, "0", "", "", ""))) == Some(Number(0, 0, 0, neg))
  {
    hide Normal, Shift, Pow;
    var p := Parts(neg, "0", "", "", Numeral(prec));
    SuffixParses(prec);
    hide Numeral;
    SplitOfRender(p);
    assert p.ip + p.fp == ['0'];
    assert Value(['0']) == 0;
    SplitOfBareZero(neg);
  }

  lemma SplitOfBareZero(neg: bool)
    ensures Split(Render(Parts(neg, "0", "", "", ""))) == Parts(neg, "0", "", "", "")
  {
    assert Render(Parts(neg, "0", "", "", "")) == if neg then ['-', '0'] else ['0'];
    assert StripSigns(['0']) == ['0'];
    assert ['-', '0'][1..] == ['0'];
    assert Lower(['0']) == ['0'];
    PartitionNone(['0'], 'p');
    PartitionNone(['0'], 'e');
    PartitionNone(['0'], '.');
  }

  /** Reading the text laid out for the digits d gives the normal form of the
      number they denote. */
  lemma ReadOfLayout(neg: bool, d: string, k: int, n: nat, prec: nat)
    requires |d| > 0 && Digits(d) && Value(d) > 0
    ensures Shift(10, Value(d) as real, k + 1 - |d|) > 0.0
    ensures var r := Normal(Shift(10, Value(d) as real, k + 1 - |d|), prec);
            Read(Render(Layout(neg, d, k, n, prec))) == Some(Number(r.0, r.1, prec, neg))
  {
    hide Shift, Pow, Normal, Denotes, Split, Render, Value, ParseInt, Read;
    var p := Layout(neg, d, k, n, prec);
    LayoutWellFormed(neg, d, k, n, prec);
    SplitOfRender(p);
    LayoutValue(neg, d, k, n, prec);
    SuffixParses(prec);
    assert p.neg == neg && p.ip != "" && p.suffix != "";
    hide Layout, WellFormed;
    ShiftPositive(10, Value(d) as real, k + 1 - |d|);
    ReadOfParts(Render(p), p, Shift(10, Value(d) as real, k + 1 - |d|), prec);
  }

  lemma ReadOfParts(lit: string, p: Parts, v: real, prec: int)
    requires Split(lit) == p && p.ip + p.fp != "" && p.suffix != "" && Denotes(p, v)
    requires ParseInt(p.suffix) == Some(prec) && v > 0.0
    ensures Read(lit) == Some(Number(Normal(v, prec).0, Normal(v, prec).1, prec, p.neg))
  {
    hide Normal, Shift, Pow, Split, Value, ParseInt;
    ShiftPositive(10, Value(p.ip + p.fp) as real, ExponentPart(p).value - |p.fp|);
  }

  /** Reading what is written for any mantissa, exponent, precision and sign
      gives the value rounded to the precision, in its one normal form; a zero
      keeps its precision and sign. */
  lemma RoundTrip(mant: nat, exp: int, prec: nat, neg: bool)
    ensures prec == 0 ==> Read(Written(mant, exp, prec, neg)) == Some(Number(0, 0, 0, neg))
    ensures prec > 0 && mant == 0 ==> Read(Written(mant, exp, prec, neg)) == Some(Number(0, 0, prec, neg))
    ensures prec > 0 && mant > 0 ==>
              var v := Shift(2, mant as real, exp);
              && v > 0.0
              && Read(Written(mant, exp, prec, neg))
                 == Some(Number(Normal(v, prec).0, Normal(v, prec).1, prec, neg))
  {
    hide Shift, Pow, Normal, Round, Leading, Numeral, Layout, Render, Read, Shortest, Exponent;
    if prec == 0 || mant == 0 {
      ReadOfZero(prec, neg);
    } else {
      var v := Shift(2, mant as real, exp);
      ShiftPositive(2, mant as real, exp);
      RoundBounds(v, prec);
      var w, n := Round(v, prec), DigitsFor(prec);
      var r := Leading(w, n);
      LeadingRange(w, n);
      ShortestValue(r.0, n, r.1);
      ReadOfLayout(neg, Shortest(r.0), r.1, n, prec);
      var b := Normal(v, prec);
      DigitsForBound(prec);
      ShownRoundsBack(b.0, b.1, n, prec);
      RoundOfPBit(b.0, b.1, prec);
      NormalOfRounded(v, Shown(w, n), prec);
    }
  }

  /** Different values are written differently: the text determines the rounded
      value, the precision and the sign. */
  lemma WrittenInjective(m: nat, e: int, p: nat, s: bool, n: nat, f: int, q: nat, t: bool)
    requires m > 0 && p > 0 && n > 0 && q > 0
    requires Written(m, e, p, s) == Written(n, f, q, t)
    ensures p == q && s == t
    ensures Shift(2, m as real, e) > 0.0 && Shift(2, n as real, f) > 0.0
    ensures Round(Shift(2, m as real, e), p) == Round(Shift(2, n as real, f), q)
  {
    hide Shift, Pow, Normal, Round, Written;
    RoundTrip(m, e, p, s);
    RoundTrip(n, f, q, t);
    var a := Normal(Shift(2, m as real, e), p);
    var b := Normal(Shift(2, n as real, f), q);
  }
}
