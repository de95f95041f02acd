/** Exact powers with any integer exponent, and the position of a positive
    number among the powers of a base. */
module Powers {

  function IntPow(b: nat, e: nat): nat
  {
    if e == 0 then 1 else b * IntPow(b, e - 1)
  }

  /** b to the power e; negative exponents divide. */
  ghost function Pow(b: nat, e: int): real
    requires b > 0
    decreases if e < 0 then -e else e
  {
    if e == 0 then 1.0
    else if e > 0 then b as real * Pow(b, e - 1)
    else Pow(b, e + 1) / b as real
  }

  lemma PowZero(b: nat)
    requires b > 0
    ensures Pow(b, 0) == 1.0
  {
  }

  lemma PowStep(b: nat, e: int)
    requires b > 0
    ensures Pow(b, e + 1) == b as real * Pow(b, e)
  {
  }

  lemma {:induction false} PowPositive(b: nat, e: int)
    requires b > 0
    ensures Pow(b, e) > 0.0
    decreases if e < 0 then -e else e
  {
    if e > 0 {
      PowPositive(b, e - 1);
      ProductPositive(b as real, Pow(b, e - 1));
    } else if e < 0 {
      PowPositive(b, e + 1);
    }
  }

  lemma ProductPositive(x: real, y: real)
    requires x > 0.0 && y > 0.0
    ensures x * y > 0.0
  {
  }

  lemma {:induction false} PowAdd(b: nat, d: int, e: int)
    requires b > 0
    ensures Pow(b, d + e) == Pow(b, d) * Pow(b, e)
    decreases if e < 0 then -e else e
  {
    hide Pow;
    assert Pow(b, 0) == 1.0 by { PowZero(b); }
    if e > 0 {
      PowAdd(b, d, e - 1);
      PowAddStep(b, d, e - 1);
    } else if e < 0 {
      PowAdd(b, d, e + 1);
      PowAddStep(b, d, e);
    }
  }

  lemma PowAddStep(b: nat, d: int, e: int)
    requires b > 0
    ensures Pow(b, d + e) == Pow(b, d) * Pow(b, e)
       <==> Pow(b, d + (e + 1)) == Pow(b, d) * Pow(b, e + 1)
  {
    hide Pow;
    PowStep(b, d + e);
    PowStep(b, e);
    assert d + (e + 1) == (d + e) + 1;
    CancelBase(b as real, Pow(b, d + e), Pow(b, d), Pow(b, e));
  }

  lemma CancelBase(k: real, a: real, x: real, y: real)
    requires k > 0.0
    ensures a == x * y <==> k * a == x * (k * y)
  {
    Regroup(k, x, y);
    if k * a == x * (k * y) {
      CancelLeft(k, a, x * y);
    }
  }

  lemma Regroup(k: real, x: real, y: real)
    ensures k * (x * y) == x * (k * y)
  {
  }

  lemma CancelLeft(k: real, x: real, y: real)
    requires k > 0.0 && k * x == k * y
    ensures x == y
  {
  }

  lemma ScaleLess(k: real, x: real, y: real)
    requires k > 0.0
    ensures x < y <==> k * x < k * y
    ensures x <= y <==> k * x <= k * y
  {
  }

  lemma {:induction false} PowMonotone(b: nat, d: int, e: int)
    requires b > 1 && d <= e
    ensures Pow(b, d) <= Pow(b, e)
    ensures d < e ==> b as real * Pow(b, d) <= Pow(b, e)
    decreases e - d
  {
    if d < e {
      PowMonotone(b, d + 1, e);
      PowStep(b, d);
      PowPositive(b, d);
    }
  }

  lemma PowNegate(b: nat, e: int)
    requires b > 0
    ensures Pow(b, -e) > 0.0 && Pow(b, e) > 0.0
    ensures Pow(b, e) * Pow(b, -e) == 1.0
  {
    PowAdd(b, e, -e);
    PowPositive(b, e);
    PowPositive(b, -e);
  }

  lemma {:induction false} PowOfNat(b: nat, e: nat)
    requires b > 0
    ensures Pow(b, e) == IntPow(b, e) as real
    ensures IntPow(b, e) > 0
  {
    if e > 0 {
      PowOfNat(b, e - 1);
      var p := IntPow(b, e - 1);
      assert (b * p) as real == b as real * p as real;
      PowPositive(b, e);
    }
  }

  lemma {:induction false} PowExceeds(b: nat, n: nat)
    requires b > 1
    ensures Pow(b, n) > n as real
  {
    hide Pow;
    PowZero(b);
    if n > 0 {
      PowExceeds(b, n - 1);
      PowStep(b, n - 1);
      PowMonotone(b, 0, n - 1);
      var p := Pow(b, n - 1);
      ScaleLess(p, 2.0, b as real);
      Commute(p, b as real);
    }
  }

  /** e is the exponent of the leading digit of v in base b. */
  ghost predicate IsExponent(b: nat, v: real, e: int)
    requires b > 1
  {
    Pow(b, e) <= v < Pow(b, e + 1)
  }

  lemma ExponentUnique(b: nat, v: real, d: int, e: int)
    requires b > 1 && IsExponent(b, v, d) && IsExponent(b, v, e)
    ensures d == e
  {
    if d < e {
      PowMonotone(b, d + 1, e);
    } else if e < d {
      PowMonotone(b, e + 1, d);
    }
  }

  /** Bounds within which the exponent of num/den lies. */
  lemma FractionBounds(b: nat, num: nat, den: nat)
    requires b > 1 && num > 0 && den > 0
    ensures Pow(b, -(den as int)) < num as real / den as real < Pow(b, num)
  {
    PowExceeds(b, num);
    PowExceeds(b, den);
    PowNegate(b, den);
    QuotientBounds(num as real, den as real, Pow(b, den), Pow(b, -(den as int)));
  }

  lemma QuotientBounds(n: real, d: real, p: real, q: real)
    requires n >= 1.0 && d >= 1.0 && p > d && q > 0.0 && p * q == 1.0
    ensures q < n / d <= n
  {
    var v := n / d;
    assert d * v == n;
    Commute(p, q);
    Commute(q, d);
    ScaleLess(q, d, p);
    ScaleLess(d, q, v);
    ScaleLess(n, 1.0, d);
    Commute(n, d);
    ScaleLess(d, v, n);
  }

  lemma Commute(x: real, y: real)
    ensures x * y == y * x
  {
  }

  lemma {:induction false} ExponentExistsFrom(b: nat, v: real, lo: int, hi: int) returns (e: int)
    requires b > 1 && lo < hi && Pow(b, lo) <= v < Pow(b, hi)
    ensures IsExponent(b, v, e)
    decreases hi - lo
  {
    if v < Pow(b, lo + 1) {
      e := lo;
    } else {
      assert lo + 1 < hi;
      e := ExponentExistsFrom(b, v, lo + 1, hi);
    }
  }

  lemma ExponentExists(b: nat, v: real) returns (e: int)
    requires b > 1 && v > 0.0
    ensures IsExponent(b, v, e)
  {
    hide Pow;
    var hi := v.Floor + 1;
    PowExceeds(b, hi);
    var n := (1.0 / v).Floor + 1;
    PowExceeds(b, n);
    PowNegate(b, n);
    ReciprocalBelow(Pow(b, n), Pow(b, -n), v);
    if -n >= hi {
      PowMonotone(b, hi, -n);
    }
    e := ExponentExistsFrom(b, v, -n, hi);
  }

  lemma ReciprocalBelow(p: real, q: real, v: real)
    requires v > 0.0 && p > 1.0 / v && p * q == 1.0
    ensures q <= v
  {
    var r := 1.0 / v;
    assert v * r == 1.0;
    ScaleLess(v, r, p);
    Commute(v, p);
    ScaleLess(p, q, v);
  }

  /** The exponent of the leading digit of a positive v. */
  ghost function Exponent(b: nat, v: real): (e: int)
    requires b > 1 && v > 0.0
    ensures IsExponent(b, v, e)
  {
    assert exists e :: IsExponent(b, v, e) by {
      var e := ExponentExists(b, v);
    }
    var e :| IsExponent(b, v, e);
    e
  }

  /** x times b to the power e. */
  ghost function Shift(b: nat, x: real, e: int): real
    requires b > 0
  {
    x * Pow(b, e)
  }

  lemma ShiftShift(b: nat, x: real, d: int, e: int)
    requires b > 0
    ensures Shift(b, Shift(b, x, d), e) == Shift(b, x, d + e)
  {
    hide Pow;
    PowAdd(b, d, e);
    Associate(x, Pow(b, d), Pow(b, e));
  }

  lemma Associate(x: real, y: real, z: real)
    ensures x * y * z == x * (y * z)
  {
  }

  lemma ShiftZero(b: nat, x: real)
    requires b > 0
    ensures Shift(b, x, 0) == x
  {
  }

  lemma ShiftBack(b: nat, x: real, e: int)
    requires b > 0
    ensures Shift(b, Shift(b, x, -e), e) == x
    ensures Shift(b, Shift(b, x, e), -e) == x
  {
    hide Shift, Pow;
    ShiftShift(b, x, -e, e);
    ShiftShift(b, x, e, -e);
    ShiftZero(b, x);
  }

  lemma ShiftLess(b: nat, x: real, y: real, e: int)
    requires b > 0
    ensures x < y <==> Shift(b, x, e) < Shift(b, y, e)
    ensures x <= y <==> Shift(b, x, e) <= Shift(b, y, e)
    ensures x == y <==> Shift(b, x, e) == Shift(b, y, e)
  {
    hide Pow;
    PowPositive(b, e);
    var k := Pow(b, e);
    ScaleLess(k, x, y);
    ScaleLess(k, y, x);
    Commute(k, x);
    Commute(k, y);
  }

  lemma ShiftPositive(b: nat, x: real, e: int)
    requires b > 0
    ensures x > 0.0 <==> Shift(b, x, e) > 0.0
  {
    hide Pow;
    ShiftLess(b, 0.0, x, e);
    TimesZero(Pow(b, e));
  }

  lemma TimesZero(x: real)
    ensures 0.0 * x == 0.0
  {
  }

  lemma ShiftMinus(b: nat, x: real, y: real, e: int)
    requires b > 0
    ensures Shift(b, x - y, e) == Shift(b, x, e) - Shift(b, y, e)
  {
    hide Pow;
    Distribute(x, y, Pow(b, e));
  }

  lemma Distribute(x: real, y: real, k: real)
    ensures (x - y) * k == x * k - y * k
  {
  }

  lemma ShiftPow(b: nat, d: int, e: int)
    requires b > 0
    ensures Shift(b, Pow(b, d), e) == Pow(b, d + e)
  {
    hide Pow;
    PowAdd(b, d, e);
  }

  lemma ShiftNat(b: nat, n: int, e: nat)
    requires b > 0
    ensures Shift(b, n as real, e) == (n * IntPow(b, e)) as real
  {
    hide Pow;
    PowOfNat(b, e);
    ProductOfInts(n, IntPow(b, e));
  }

  lemma ProductOfInts(m: int, n: int)
    ensures (m * n) as real == m as real * n as real
  {
  }

  /** Multiplying by 2^p shifts the position among the powers of 2 by p. */
  lemma ShiftNatPow(b: nat, p: nat, e: int)
    requires b > 0
    ensures Shift(b, IntPow(b, p) as real, e) == Pow(b, p + e)
  {
    hide Shift, Pow;
    PowOfNat(b, p);
    ShiftPow(b, p, e);
  }
}
