/** Rounding to nearest with ties to even (section 4.3.1 of IEEE 754-2008) of
    exact positive numbers, to integers and to p significant bits. */
module Rounding {
  import opened Powers

  ghost function Distance(x: real, y: real): real
  {
    if x < y then y - x else x - y
  }

  /** The integer nearest x, the even one of two equally near. */
  ghost function HalfEven(x: real): int
  {
    var q := x.Floor;
    var twice := 2.0 * (x - q as real);
    if twice > 1.0 || (twice == 1.0 && q % 2 == 1) then q + 1 else q
  }

  lemma HalfEvenIs(x: real)
    ensures var h := HalfEven(x);
            Distance(x, h as real) <= 0.5 && (Distance(x, h as real) == 0.5 ==> h % 2 == 0)
  {
  }

  lemma HalfEvenNearest(x: real, m: int)
    ensures Distance(x, HalfEven(x) as real) <= Distance(x, m as real)
    ensures Distance(x, HalfEven(x) as real) == Distance(x, m as real) && m != HalfEven(x) ==> HalfEven(x) % 2 == 0
    ensures Distance(x, m as real) < 0.5 ==> m == HalfEven(x)
  {
    HalfEvenIs(x);
    hide HalfEven;
    var h := HalfEven(x);
    if m < h {
      assert m as real <= h as real - 1.0;
    } else if m > h {
      assert m as real >= h as real + 1.0;
    }
  }

  lemma HalfEvenMonotone(x: real, y: real)
    requires x <= y
    ensures HalfEven(x) <= HalfEven(y)
  {
    HalfEvenIs(x);
    HalfEvenIs(y);
    hide HalfEven;
    if x < y {
      assert HalfEven(x) as real < HalfEven(y) as real + 1.0;
    }
  }

  /** The exponent at which v has a p-bit significand. */
  ghost function Scale(v: real, p: int): (e: int)
    requires v > 0.0
    ensures Pow(2, p - 1 + e) <= v < Pow(2, p + e)
  {
    Exponent(2, v) - p + 1
  }

  lemma ScaleIs(v: real, p: int, e: int)
    requires v > 0.0 && Pow(2, p - 1 + e) <= v < Pow(2, p + e)
    ensures Scale(v, p) == e
  {
    hide Pow;
    assert IsExponent(2, v, p - 1 + e);
    ExponentUnique(2, v, Exponent(2, v), p - 1 + e);
  }

  /** v / 2^e, rounded to an integer. */
  ghost function Over(v: real, e: int): int
  {
    HalfEven(Shift(2, v, -e))
  }

  ghost function Significand(v: real, p: int): int
    requires v > 0.0
  {
    Over(v, Scale(v, p))
  }

  /** v rounded to p significant bits. */
  ghost function Round(v: real, p: int): real
    requires v > 0.0
  {
    Shift(2, Significand(v, p) as real, Scale(v, p))
  }

  lemma ShiftDistance(b: nat, x: real, y: real, e: int)
    requires b > 0
    ensures Distance(Shift(b, x, e), Shift(b, y, e)) == Shift(b, Distance(x, y), e)
  {
    hide Shift;
    ShiftLess(b, x, y, e);
    ShiftMinus(b, x, y, e);
    ShiftMinus(b, y, x, e);
  }

  /** Rounding v to a multiple of 2^e goes to a nearest multiple, the even one
      of two. */
  lemma OverNearest(v: real, e: int, m: int)
    ensures var w, h := Shift(2, m as real, e), Over(v, e);
            && Distance(v, Shift(2, h as real, e)) <= Distance(v, w)
            && (Distance(v, Shift(2, h as real, e)) == Distance(v, w) && m != h ==> h % 2 == 0)
            && (Distance(v, w) < Shift(2, 0.5, e) ==> m == h)
            && Distance(v, Shift(2, h as real, e)) <= Shift(2, 0.5, e)
  {
    hide Shift, HalfEven;
    var x, h := Shift(2, v, -e), Over(v, e);
    ShiftBack(2, v, e);
    HalfEvenNearest(x, m);
    HalfEvenIs(x);
    ShiftDistance(2, x, h as real, e);
    ShiftDistance(2, x, m as real, e);
    var dh, dm := Distance(x, h as real), Distance(x, m as real);
    hide Distance;
    ShiftLess(2, dh, dm, e);
    ShiftLess(2, dm, 0.5, e);
    ShiftLess(2, dh, 0.5, e);
  }

  lemma OverMonotone(v: real, w: real, e: int)
    requires v <= w
    ensures Over(v, e) <= Over(w, e)
  {
    hide Shift, HalfEven;
    ShiftLess(2, v, w, -e);
    HalfEvenMonotone(Shift(2, v, -e), Shift(2, w, -e));
  }

  lemma OverOfMultiple(m: int, e: int)
    ensures Over(Shift(2, m as real, e), e) == m
  {
    hide Shift, HalfEven;
    ShiftBack(2, m as real, e);
    HalfEvenNearest(m as real, m);
  }

  lemma SignificandRange(v: real, p: nat)
    requires v > 0.0 && p >= 1
    ensures IntPow(2, p - 1) <= Significand(v, p) <= IntPow(2, p)
  {
    hide Shift, Pow, HalfEven, Over;
    var e := Scale(v, p);
    ShiftNatPow(2, p - 1, e);
    ShiftNatPow(2, p, e);
    OverMonotone(Pow(2, p - 1 + e), v, e);
    OverMonotone(v, Pow(2, p + e), e);
    OverOfMultiple(IntPow(2, p - 1), e);
    OverOfMultiple(IntPow(2, p), e);
  }

  /** No number with a significand of at most p bits is nearer to v than Round
      says; of two equally near ones it takes the one with an even significand. */
  lemma RoundIsNearest(v: real, p: nat, j: nat, f: int)
    requires v > 0.0 && p >= 1 && j <= IntPow(2, p)
    ensures var w := Shift(2, j as real, f);
            && Distance(v, Round(v, p)) <= Distance(v, w)
            && (Distance(v, Round(v, p)) == Distance(v, w) && Round(v, p) != w ==> Significand(v, p) % 2 == 0)
  {
    hide Shift, Pow, Over;
    var e := Scale(v, p);
    if f >= e {
      MultipleOnFinerGrid(j, f, e);
      OverNearest(v, e, j * IntPow(2, f - e));
    } else {
      ShiftNatPow(2, p - 1, e);
      OverNearest(v, e, IntPow(2, p - 1));
      BelowBinade(p, j, f, e);
    }
  }

  lemma MultipleOnFinerGrid(j: nat, f: int, e: int)
    requires f >= e
    ensures Shift(2, j as real, f) == Shift(2, (j * IntPow(2, f - e)) as real, e)
  {
    hide Shift;
    ShiftNat(2, j, f - e);
    ShiftShift(2, j as real, f - e, e);
  }

  lemma BelowBinade(p: nat, j: nat, f: int, e: int)
    requires p >= 1 && f < e && j <= IntPow(2, p)
    ensures Shift(2, j as real, f) <= Pow(2, p - 1 + e)
  {
    hide Shift, Pow;
    ShiftLess(2, j as real, IntPow(2, p) as real, f);
    ShiftNatPow(2, p, f);
    PowMonotone(2, p + f, p - 1 + e);
    PowPositive(2, p + f);
  }

  lemma RoundBounds(v: real, p: nat)
    requires v > 0.0 && p >= 1
    ensures 0.0 < Pow(2, p - 1 + Scale(v, p)) <= Round(v, p) <= Pow(2, p + Scale(v, p))
  {
    hide Shift, Pow, Over;
    var e, m := Scale(v, p), Significand(v, p);
    SignificandRange(v, p);
    ShiftNatPow(2, p - 1, e);
    ShiftNatPow(2, p, e);
    ShiftLess(2, IntPow(2, p - 1) as real, m as real, e);
    ShiftLess(2, m as real, IntPow(2, p) as real, e);
    PowPositive(2, p - 1 + e);
  }

  lemma RoundMonotone(v: real, w: real, p: nat)
    requires 0.0 < v <= w && p >= 1
    ensures Round(v, p) <= Round(w, p)
  {
    hide Shift, Pow, Over;
    var e, f := Scale(v, p), Scale(w, p);
    if e == f {
      OverMonotone(v, w, e);
      ShiftLess(2, Over(v, e) as real, Over(w, e) as real, e);
    } else {
      RoundBounds(v, p);
      RoundBounds(w, p);
      if f < e {
        PowMonotone(2, p + f, p - 1 + e);
        assert false;
      }
      PowMonotone(2, p + e, p - 1 + f);
    }
  }

  /** A number of at most p bits is its own rounding. */
  lemma RoundOfPBit(m: nat, e: int, p: nat)
    requires p >= 1 && IntPow(2, p - 1) <= m < IntPow(2, p)
    ensures Shift(2, m as real, e) > 0.0
    ensures Scale(Shift(2, m as real, e), p) == e
    ensures Round(Shift(2, m as real, e), p) == Shift(2, m as real, e)
  {
    hide Shift, Pow, Over;
    PowOfNat(2, p - 1);
    ShiftPositive(2, m as real, e);
    ShiftNatPow(2, p - 1, e);
    ShiftNatPow(2, p, e);
    ShiftLess(2, IntPow(2, p - 1) as real, m as real, e);
    ShiftLess(2, m as real, IntPow(2, p) as real, e);
    ScaleIs(Shift(2, m as real, e), p, e);
    OverOfMultiple(m, e);
  }

  /** The significand and exponent of v rounded to p bits, a significand of 2^p
      carried into the exponent. */
  ghost function Normal(v: real, p: int): (r: (int, int))
    requires v > 0.0
    ensures p >= 1 ==> IntPow(2, p - 1) <= r.0 < IntPow(2, p)
    ensures p >= 1 ==> Shift(2, r.0 as real, r.1) == Round(v, p)
  {
    hide Shift, Pow, Over;
    assert p >= 1 ==> IntPow(2, p - 1) <= Significand(v, p) <= IntPow(2, p) && IntPow(2, p - 1) > 0 by {
      if p >= 1 {
        SignificandRange(v, p);
        PowOfNat(2, p - 1);
      }
    }
    var m, e := Significand(v, p), Scale(v, p);
    if p >= 0 && m == IntPow(2, p) then
      assert p >= 1 ==> Shift(2, IntPow(2, p - 1) as real, e + 1) == Shift(2, m as real, e) by {
        if p >= 1 {
          ShiftNatPow(2, p, e);
          ShiftNatPow(2, p - 1, e + 1);
        }
      }
      (m / 2, e + 1)
    else
      (m, e)
  }

  lemma RoundIdempotent(v: real, p: nat)
    requires v > 0.0 && p >= 1
    ensures Round(v, p) > 0.0
    ensures Round(Round(v, p), p) == Round(v, p)
  {
    hide Shift, Pow, Over;
    RoundBounds(v, p);
    var (m, e) := Normal(v, p);
    RoundOfPBit(m, e, p);
  }

  /** A p-bit number has one normal form. */
  lemma NormalUnique(v: real, p: nat, m: int, e: int)
    requires v > 0.0 && p >= 1
    requires IntPow(2, p - 1) <= m < IntPow(2, p) && Shift(2, m as real, e) == Round(v, p)
    ensures Normal(v, p) == (m, e)
  {
    hide Shift, Pow, Over;
    var n := Normal(v, p);
    hide Normal, Round;
    PBitUnique(m, e, n.0, n.1, p);
  }

  lemma PBitUnique(m: int, e: int, n: int, f: int, p: nat)
    requires p >= 1
    requires IntPow(2, p - 1) <= m < IntPow(2, p) && IntPow(2, p - 1) <= n < IntPow(2, p)
    requires Shift(2, m as real, e) == Shift(2, n as real, f)
    ensures m == n && e == f
  {
    hide Shift, Pow, Over;
    RoundOfPBit(m, e, p);
    RoundOfPBit(n, f, p);
    OverOfMultiple(m, e);
    OverOfMultiple(n, f);
  }

  lemma NormalOfRounded(v: real, w: real, p: nat)
    requires v > 0.0 && w > 0.0 && p >= 1 && Round(v, p) == Round(w, p)
    ensures Normal(v, p) == Normal(w, p)
  {
    hide Shift, Pow, Over, Round;
    var n := Normal(v, p);
    NormalUnique(w, p, n.0, n.1);
  }
}
