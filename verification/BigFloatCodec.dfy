/** Writing and reading BigFloat literals with fractions of integers, proved to
    compute what BigFloat says in exact numbers. */
module BigFloatCodec {
  import opened Options
  import opened Powers
  import opened Rounding
  import opened Decimals
  import opened BigFloatText
  import opened BigFloat

  /** An exact fraction. */
  datatype Frac = Frac(num: int, den: int)
  {
    ghost predicate Positive() { num > 0 && den > 0 }

    ghost function Val(): real
      requires Positive()
    {
      num as real / den as real
    }

    predicate AtLeast(f: Frac) { num * f.den >= f.num * den }
  }

  /** v times base^e. */
  function Scaled(v: Frac, base: nat, e: int): Frac
  {
    if e >= 0 then Frac(v.num * IntPow(base, e), v.den) else Frac(v.num, v.den * IntPow(base, -e))
  }

  lemma ScaledVal(v: Frac, base: nat, e: int)
    requires v.Positive() && base > 0
    ensures Scaled(v, base, e).Positive()
    ensures Scaled(v, base, e).Val() == Shift(base, v.Val(), e)
  {
    hide Pow;
    if e >= 0 {
      PowOfNat(base, e);
      ScaleNum(v.num, v.den, IntPow(base, e));
    } else {
      var n: nat := -e;
      PowOfNat(base, n);
      PowNegate(base, n);
      var k := IntPow(base, n);
      ScaleDen(v.num, v.den, k, Pow(base, e));
      Commute(Pow(base, n), Pow(base, e));
    }
  }

  lemma ScaleNum(n: int, d: int, k: int)
    requires n > 0 && d > 0 && k > 0
    ensures n * k > 0 && (n * k) as real / d as real == n as real / d as real * k as real
  {
    ProductOfInts(n, k);
  }

  lemma ScaleDen(n: int, d: int, k: int, r: real)
    requires n > 0 && d > 0 && k > 0 && r * k as real == 1.0
    ensures d * k > 0 && n as real / (d * k) as real == n as real / d as real * r
  {
    ProductOfInts(d, k);
    var x := n as real / d as real;
    assert x * d as real == n as real;
    Associate(x, r, d as real * k as real);
    assert r * (d as real * k as real) == d as real by {
      Commute(d as real, k as real);
      Associate(r, k as real, d as real);
    }
    assert x * r * (d * k) as real == n as real;
    DivideBack(x * r, (d * k) as real, n as real);
  }

  lemma DivideBack(y: real, k: real, n: real)
    requires k > 0.0 && y * k == n
    ensures n / k == y
  {
  }

  lemma AtLeastVal(a: Frac, b: Frac)
    requires a.Positive() && b.Positive()
    ensures a.AtLeast(b) <==> a.Val() >= b.Val()
  {
    var x, y := a.Val(), b.Val();
    var p, q := a.den as real, b.den as real;
    assert x * p == a.num as real && y * q == b.num as real;
    ProductPositive(p, q);
    ScaleLess(p * q, y, x);
    CrossProduct(x, p, q);
    CrossProduct(y, q, p);
    Commute(p, q);
    ProductOfInts(a.num, b.den);
    ProductOfInts(b.num, a.den);
  }

  lemma CrossProduct(x: real, p: real, q: real)
    ensures p * q * x == x * p * q
  {
  }

  function RoundHalfEven(x: Frac): (r: int)
    requires x.den > 0
    ensures x.Positive() ==> r == HalfEven(x.Val())
  {
    var q, r := x.num / x.den, x.num % x.den;
    var twice := 2 * r;
    assert x.Positive() ==> x.Val().Floor == q && x.Val() - q as real == r as real / x.den as real by {
      if x.Positive() {
        FloorOfFraction(x.num, x.den);
      }
    }
    assert x.Positive() ==> (2.0 * (r as real / x.den as real) > 1.0 <==> twice > x.den) by {
      HalfOfFraction(r, x.den);
    }
    assert x.Positive() ==> (2.0 * (r as real / x.den as real) == 1.0 <==> twice == x.den) by {
      HalfOfFraction(r, x.den);
    }
    if twice > x.den || (twice == x.den && q % 2 == 1) then q + 1 else q
  }

  lemma FloorOfFraction(n: int, d: int)
    requires d > 0
    ensures (n as real / d as real).Floor == n / d
    ensures n as real / d as real - (n / d) as real == (n % d) as real / d as real
  {
    var q, r := n / d, n % d;
    assert n == q * d + r;
    ProductOfInts(q, d);
    var f := r as real / d as real;
    assert f * d as real == r as real;
    assert (q as real + f) * d as real == n as real;
    DivideBack(q as real + f, d as real, n as real);
    assert 0.0 <= f < 1.0 by {
      ScaleLess(d as real, f, 1.0);
      ScaleLess(d as real, 0.0, f);
    }
  }

  lemma HalfOfFraction(r: int, d: int)
    requires d > 0
    ensures 2.0 * (r as real / d as real) > 1.0 <==> 2 * r > d
    ensures 2.0 * (r as real / d as real) == 1.0 <==> 2 * r == d
  {
    var f := r as real / d as real;
    assert d as real * f == r as real;
    ScaleLess(d as real, 1.0, 2.0 * f);
    ScaleLess(d as real, 2.0 * f, 1.0);
  }

  /** base^e as a fraction. */
  function PowerOf(base: nat, e: int): Frac
  {
    Scaled(Frac(1, 1), base, e)
  }

  lemma PowerOfVal(base: nat, e: int)
    requires base > 0
    ensures PowerOf(base, e).Positive() && PowerOf(base, e).Val() == Pow(base, e)
  {
    hide Pow;
    ScaledVal(Frac(1, 1), base, e);
  }

  lemma FracBounds(v: Frac, base: nat)
    requires v.Positive() && base > 1
    ensures Pow(base, -v.den) < v.Val() < Pow(base, v.num)
  {
    FractionBounds(base, v.num, v.den);
  }

  /** The exponent e2 with 2^(p-1) <= v / 2^e2 < 2^p, found by stepping. */
  method FindScale(v: Frac, p: int) returns (e2: int)
    requires v.Positive()
    ensures e2 == Scale(v.Val(), p)
  {
    hide Pow, Shift;
    FracBounds(v, 2);
    e2 := 0;
    UpperGuard(v, p, e2);
    while Scaled(v, 2, -e2).AtLeast(PowerOf(2, p))
      invariant Scaled(v, 2, -e2).AtLeast(PowerOf(2, p)) <==> v.Val() >= Pow(2, p + e2)
      decreases v.num - p - e2
    {
      if v.num < p + e2 {
        PowMonotone(2, v.num, p + e2);
      }
      e2 := e2 + 1;
      UpperGuard(v, p, e2);
    }
    UpperGuard(v, p - 1, e2);
    while !Scaled(v, 2, -e2).AtLeast(PowerOf(2, p - 1))
      invariant v.Val() < Pow(2, p + e2)
      invariant Scaled(v, 2, -e2).AtLeast(PowerOf(2, p - 1)) <==> v.Val() >= Pow(2, p - 1 + e2)
      decreases v.den + p + e2
    {
      if p - 1 + e2 < -v.den {
        PowMonotone(2, p - 1 + e2, -v.den);
      }
      e2 := e2 - 1;
      UpperGuard(v, p - 1, e2);
    }
    ScaleIs(v.Val(), p, e2);
  }

  lemma UpperGuard(v: Frac, p: int, e: int)
    requires v.Positive()
    ensures v.Val() > 0.0
    ensures Scaled(v, 2, -e).AtLeast(PowerOf(2, p)) <==> v.Val() >= Pow(2, p + e)
  {
    hide Pow, Shift;
    ScaledVal(v, 2, -e);
    PowerOfVal(2, p);
    AtLeastVal(Scaled(v, 2, -e), PowerOf(2, p));
    ShiftLess(2, Pow(2, p), Shift(2, v.Val(), -e), e);
    ShiftBack(2, v.Val(), e);
    ShiftPow(2, p, e);
    ValPositive(v);
  }

  lemma ValPositive(v: Frac)
    requires v.Positive()
    ensures v.Val() > 0.0
  {
  }

  /** v rounded to p significant bits, half to even. */
  method RoundToPrec(v: Frac, p: int) returns (w: Frac)
    requires v.Positive() && p >= 1
    ensures w.Positive() && v.Val() > 0.0 && w.Val() == Round(v.Val(), p)
  {
    hide Pow, Shift, HalfEven;
    ValPositive(v);
    var e2 := FindScale(v, p);
    ScaledVal(v, 2, -e2);
    var m := RoundHalfEven(Scaled(v, 2, -e2));
    SignificandRange(v.Val(), p);
    PowOfNat(2, p - 1);
    ScaledVal(Frac(m, 1), 2, e2);
    return Scaled(Frac(m, 1), 2, e2);
  }

  /** The exponent k with 10^k <= v < 10^(k+1), found by stepping. */
  method FindExponent(v: Frac) returns (k: int)
    requires v.Positive()
    ensures v.Val() > 0.0 && k == Exponent(10, v.Val())
  {
    hide Pow;
    FracBounds(v, 10);
    ValPositive(v);
    k := 0;
    PowerGuard(v, k + 1);
    while v.AtLeast(PowerOf(10, k + 1))
      invariant v.AtLeast(PowerOf(10, k + 1)) <==> v.Val() >= Pow(10, k + 1)
      decreases v.num - k
    {
      if v.num < k + 1 {
        PowMonotone(10, v.num, k + 1);
      }
      k := k + 1;
      PowerGuard(v, k + 1);
    }
    PowerGuard(v, k);
    while !v.AtLeast(PowerOf(10, k))
      invariant v.Val() < Pow(10, k + 1)
      invariant v.AtLeast(PowerOf(10, k)) <==> v.Val() >= Pow(10, k)
      decreases v.den + k
    {
      if k < -v.den {
        PowMonotone(10, k, -v.den);
      }
      k := k - 1;
      PowerGuard(v, k);
    }
    assert IsExponent(10, v.Val(), k);
    ExponentUnique(10, v.Val(), k, Exponent(10, v.Val()));
  }

  lemma PowerGuard(v: Frac, k: int)
    requires v.Positive()
    ensures v.AtLeast(PowerOf(10, k)) <==> v.Val() >= Pow(10, k)
  {
    hide Pow;
    PowerOfVal(10, k);
    AtLeastVal(v, PowerOf(10, k));
  }

  /** The decimal text of a BigFloat. */
  method WriteLiteral(mant: nat, exp: int, prec: nat, neg: bool) returns (lit: string)
    ensures lit == Written(mant, exp, prec, neg)
  {
    hide Pow, Shift, HalfEven, Scaled, Render, Layout, Numeral, Exponent, Shortest;
    if mant == 0 || prec == 0 {
      return if prec == 0 then Render(Parts(neg, "0", "", "", ""))
             else Render(Parts(neg, "0", "", "", Numeral(prec)));
    }
    WholeVal(mant);
    ScaledVal(Frac(mant, 1), 2, exp);
    var v := RoundToPrec(Scaled(Frac(mant, 1), 2, exp), prec);
    var n := DigitsFor(prec);
    var k := FindExponent(v);
    ScaledVal(v, 10, n - 1 - k);
    var q := RoundHalfEven(Scaled(v, 10, -(k - n + 1)));
    LeadingRange(v.Val(), n);
    if q == IntPow(10, n) {
      q := q / 10;
      k := k + 1;
    }
    assert (q, k) == Leading(v.Val(), n);
    return Render(Layout(neg, Shortest(q), k, n, prec));
  }

  lemma WholeVal(n: int)
    requires n > 0
    ensures Frac(n, 1).Val() == n as real
  {
  }

  /** What a literal reads as. */
  method ReadLiteral(lit: string) returns (r: Option<Number>)
    ensures r == Read(lit)
  {
    hide Pow, Shift, HalfEven, Scaled, ParseInt, Value, Split, IntPow;
    var t := Split(lit);
    var digits := if t.ip + t.fp == "" then Some(0) else ParseNat(t.ip + t.fp);
    var exp := ExponentPart(t);
    var prec := if t.suffix == "" then Some(256) else ParseInt(t.suffix);
    if digits.None? || exp.None? || prec.None? {
      return None;
    }
    var p := prec.value;
    if digits.value == 0 {
      return Some(Number(0, 0, if t.suffix == "" then 0 else p, t.neg));
    }
    WholeVal(digits.value);
    ScaledVal(Frac(digits.value, 1), 10, -|t.fp|);
    var v := Scaled(Frac(digits.value, 1), 10, -|t.fp|);
    ScaledVal(v, 10, exp.value);
    ShiftShift(10, digits.value as real, -|t.fp|, exp.value);
    v := Scaled(v, 10, exp.value);
    ValPositive(v);
    var e2 := FindScale(v, p);
    ScaledVal(v, 2, -e2);
    var m := RoundHalfEven(Scaled(v, 2, -e2));
    if p >= 0 && m == IntPow(2, p) {
      m := m / 2;
      e2 := e2 + 1;
    }
    assert (m, e2) == Normal(v.Val(), p);
    return Some(Number(m, e2, p, t.neg));
  }
}
