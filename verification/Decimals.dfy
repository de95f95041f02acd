/** Decimal numerals as text. */
module Decimals {
  import opened Options
  import opened Powers

  predicate IsDigit(c: char)
  {
    '0' <= c <= '9'
  }

  predicate Digits(s: string)
  {
    forall i :: 0 <= i < |s| ==> IsDigit(s[i])
  }

  function DigitChar(d: nat): (c: char)
    requires d < 10
    ensures IsDigit(c) && c as int - '0' as int == d
  {
    ('0' as int + d) as char
  }

  /** The number a digit string denotes. */
  function Value(s: string): nat
    requires Digits(s)
  {
    if s == [] then 0 else 10 * Value(s[..|s| - 1]) + (s[|s| - 1] as int - '0' as int)
  }

  /** n in decimal, without leading zeros. */
  function Numeral(n: nat): (s: string)
    ensures Digits(s) && |s| > 0
  {
    if n < 10 then [DigitChar(n)] else Numeral(n / 10) + [DigitChar(n % 10)]
  }

  lemma {:induction false} ValueOfNumeral(n: nat)
    ensures Value(Numeral(n)) == n
  {
    if n >= 10 {
      ValueOfNumeral(n / 10);
      assert Numeral(n)[..|Numeral(n)| - 1] == Numeral(n / 10);
    } else {
      assert Numeral(n)[..0] == [];
    }
  }

  lemma {:induction false} NumeralLength(n: nat)
    requires n > 0
    ensures IntPow(10, |Numeral(n)| - 1) <= n < IntPow(10, |Numeral(n)|)
  {
    if n >= 10 {
      NumeralLength(n / 10);
    }
  }

  lemma {:induction false} IntPowStrict(d: nat, e: nat)
    requires d < e
    ensures 10 * IntPow(10, d) <= IntPow(10, e)
    decreases e
  {
    if d < e - 1 {
      IntPowStrict(d, e - 1);
    }
  }

  /** A number has k digits exactly when it lies between 10^(k-1) and 10^k. */
  lemma NumeralLengthIs(n: nat, k: nat)
    requires k > 0 && n > 0
    ensures |Numeral(n)| == k <==> IntPow(10, k - 1) <= n < IntPow(10, k)
  {
    hide Numeral;
    NumeralLength(n);
    var l := |Numeral(n)|;
    if l < k {
      if l < k - 1 {
        IntPowStrict(l, k - 1);
      }
    } else if k < l {
      if k < l - 1 {
        IntPowStrict(k, l - 1);
      }
    }
  }

  lemma {:induction false} ValueOfConcat(s: string, t: string)
    requires Digits(s) && Digits(t)
    ensures Value(s + t) == Value(s) * IntPow(10, |t|) + Value(t)
  {
    if t == [] {
      assert s + t == s;
    } else {
      var u := t[..|t| - 1];
      ValueOfConcat(s, u);
      assert (s + t)[..|s + t| - 1] == s + u;
      TenTimes(Value(s), IntPow(10, |u|));
    }
  }

  lemma TenTimes(x: nat, y: nat)
    ensures 10 * (x * y) == x * (10 * y)
  {
  }

  function Zeros(n: nat): (s: string)
    ensures |s| == n && Digits(s)
  {
    seq(n, _ => '0')
  }

  lemma {:induction false} ValueOfZeros(n: nat)
    ensures Value(Zeros(n)) == 0
  {
    if n > 0 {
      assert Zeros(n)[..n - 1] == Zeros(n - 1);
      ValueOfZeros(n - 1);
    }
  }

  /** s without its trailing zeros. */
  function StripZeros(s: string): (t: string)
    ensures t <= s && s[|t|..] == Zeros(|s| - |t|)
    ensures |t| > 0 ==> t[|t| - 1] != '0'
  {
    if s != [] && s[|s| - 1] == '0' then
      var t := StripZeros(s[..|s| - 1]);
      assert s == s[..|s| - 1] + ['0'];
      t
    else s
  }

  lemma ValueOfStripped(s: string)
    requires Digits(s)
    ensures var t := StripZeros(s);
            Digits(t) && Value(s) == Value(t) * IntPow(10, |s| - |t|)
  {
    var t := StripZeros(s);
    assert s == t + Zeros(|s| - |t|);
    ValueOfConcat(t, Zeros(|s| - |t|));
    ValueOfZeros(|s| - |t|);
  }

  lemma LeadingZeros(n: nat, s: string)
    requires Digits(s)
    ensures Digits(Zeros(n) + s) && Value(Zeros(n) + s) == Value(s)
  {
    ValueOfConcat(Zeros(n), s);
    ValueOfZeros(n);
  }

  function ParseNat(s: string): Option<nat>
  {
    if s != [] && Digits(s) then Some(Value(s)) else None
  }

  /** A digit string with at most one sign before it. */
  function ParseInt(s: string): Option<int>
  {
    if s != [] && s[0] in "+-" then
      match ParseNat(s[1..])
      case None => None
      case Some(n) => Some(if s[0] == '-' then 0 - n else n)
    else
      match ParseNat(s)
      case None => None
      case Some(n) => Some(n)
  }
}
