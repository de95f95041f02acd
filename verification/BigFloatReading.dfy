/** Which texts are read as a BigFloat, and as which number: digits with a point,
    an exponent and a precision, each of which may be left out. */
module BigFloatReading {
  import opened Options
  import opened Powers
  import opened Rounding
  import opened Decimals
  import opened BigFloatText
  import opened BigFloat

  /** The marks that stand between the parts of a literal. */
  datatype Marks = Marks(signs: string, point: string, mark: string, tail: string)

  ghost predicate Signs(s: string)
  {
    forall i :: 0 <= i < |s| ==> IsSign(s[i])
  }

  ghost predicate IntText(s: string)
  {
    Digits(s) || (IsSign(s[0]) && |s| > 1 && Digits(s[1..]))
  }

  /** The text of p with the marks m: any signs, of which the first counts, then
      digits, a point with digits, an exponent and a precision; every one of
      them may be missing, and so may the digits after a mark. */
  ghost predicate Spelled(lit: string, m: Marks, p: Parts)
  {
    && lit == m.signs + (p.ip + m.point + p.fp + m.mark + p.exp) + (m.tail + p.suffix)
    && Signs(m.signs) && p.neg == (m.signs != "" && m.signs[0] == '-')
    && Digits(p.ip) && Digits(p.fp) && IntText(p.exp) && IntText(p.suffix)
    && m.point in {"", "."} && (m.point == "" ==> p.fp == "")
    && m.mark in {"", "e", "E"} && (m.mark == "" ==> p.exp == "")
    && m.tail in {"", "p"} && (m.tail == "" ==> p.suffix == "")
  }

  // ---- A spelled text is taken apart into its parts ------------------------

  lemma {:induction false} StripAll(signs: string, t: string)
    requires Signs(signs) && (t == "" || !IsSign(t[0]))
    ensures StripSigns(signs + t) == t
  {
    if signs == "" {
      assert signs + t == t;
    } else {
      StripAll(signs[1..], t);
      assert (signs + t)[1..] == signs[1..] + t;
    }
  }

  /** A piece without c, and after it a mark of c with a text or nothing. */
  lemma PartitionAtMark(a: string, c: char, mark: string, b: string)
    requires c !in a && (mark == [c] || (mark == "" && b == ""))
    ensures Partition(a + mark + b, c) == (a, b)
  {
    hide Partition;
    if mark == [c] {
      PartitionAt(a, c, b);
    } else {
      PartitionNone(a, c);
      assert a + mark + b == a;
    }
  }

  lemma LowerOfConcat(a: string, b: string)
    ensures Lower(a + b) == Lower(a) + Lower(b)
  {
  }

  lemma LowerOfInt(s: string)
    requires IntText(s)
    ensures Lower(s) == s && 'p' !in s
  {
    assert forall i :: 0 < i < |s| ==> s[i] == s[1..][i - 1];
  }

  lemma NumberPart(m: Marks, p: Parts)
    requires IntText(p.exp) && Digits(p.ip) && Digits(p.fp)
    requires m.point in {"", "."} && m.mark in {"", "e", "E"}
    ensures var body := p.ip + m.point + p.fp + m.mark + p.exp;
            && Lower(body) == p.ip + m.point + p.fp + Lower(m.mark) + p.exp
            && 'p' !in body
            && 'e' !in p.ip + m.point + p.fp && '.' !in p.ip
  {
    LowerOfInt(p.ip);
    assert Lower(m.point) == m.point;
    LowerOfInt(p.fp);
    LowerOfInt(p.exp);
    hide Lower;
    LowerOfConcat(p.ip, m.point);
    LowerOfConcat(p.ip + m.point, p.fp);
    LowerOfConcat(p.ip + m.point + p.fp, m.mark);
    LowerOfConcat(p.ip + m.point + p.fp + m.mark, p.exp);
  }

  lemma SplitOfSpelled(lit: string, m: Marks, p: Parts)
    requires Spelled(lit, m, p)
    ensures Split(lit) == p
  {
    NumberPart(m, p);
    hide Partition, StripSigns, Lower, Digits, IntText;
    var body := p.ip + m.point + p.fp + m.mark + p.exp;
    BodyFirst(m, p);
    Regrouped(m.signs, body, m.tail, p.suffix);
    SignFirst(lit, m.signs, body + m.tail + p.suffix);
    StripAll(m.signs, body + m.tail + p.suffix);
    PartitionAtMark(body, 'p', m.tail, p.suffix);
    LowerMark(m.mark);
    PartitionAtMark(p.ip + m.point + p.fp, 'e', Lower(m.mark), p.exp);
    PartitionAtMark(p.ip, '.', m.point, p.fp);
  }

  lemma SignFirst(lit: string, signs: string, rest: string)
    requires lit == signs + rest && (rest == "" || !IsSign(rest[0]))
    ensures (lit != "" && lit[0] == '-') == (signs != "" && signs[0] == '-')
    ensures signs + rest == lit
  {
  }

  lemma Regrouped(signs: string, body: string, tail: string, suffix: string)
    ensures signs + body + (tail + suffix) == signs + (body + tail + suffix)
  {
  }

  lemma BodyFirst(m: Marks, p: Parts)
    requires Digits(p.ip) && Digits(p.fp)
    requires m.point in {"", "."} && (m.point == "" ==> p.fp == "")
    requires m.mark in {"", "e", "E"} && (m.mark == "" ==> p.exp == "")
    requires m.tail in {"", "p"} && (m.tail == "" ==> p.suffix == "")
    ensures var rest := p.ip + m.point + p.fp + m.mark + p.exp + m.tail + p.suffix;
            rest == "" || !IsSign(rest[0])
  {
  }

  lemma LowerMark(mark: string)
    ensures mark in {"e", "E"} ==> Lower(mark) == ['e']
    ensures mark == "" ==> Lower(mark) == ""
  {
  }

  lemma ParseOfInt(s: string)
    ensures IntText(s) <==> s == "" || ParseInt(s).Some?
  {
  }

  // ---- The number read -----------------------------------------------------

  /** A number is what p denotes: its digits shifted by its exponent, rounded to
      its precision (256 bits when it names none) in the one normal form; a zero
      keeps the precision it names. */
  ghost predicate IsNumber(r: Number, p: Parts)
    requires Digits(p.ip + p.fp)
  {
    var digits := Value(p.ip + p.fp);
    var exp := if p.exp == "" then Some(0) else ParseInt(p.exp);
    var prec := if p.suffix == "" then Some(256) else ParseInt(p.suffix);
    && exp.Some? && prec.Some? && r.neg == p.neg
    && (digits == 0 ==> r.mant == 0 && r.exp == 0 && r.prec == if p.suffix == "" then 0 else prec.value)
    && (digits > 0 ==> r.prec == prec.value)
    && (digits > 0 && r.prec >= 1 ==>
          var v := Shift(10, digits as real, exp.value - |p.fp|);
          && v > 0.0
          && IntPow(2, r.prec - 1) <= r.mant < IntPow(2, r.prec)
          && Shift(2, r.mant as real, r.exp) == Round(v, r.prec))
  }

  /** Every text of that form is read, as the number it denotes. */
  lemma ReadOfSpelled(lit: string, m: Marks, p: Parts)
    requires Spelled(lit, m, p)
    ensures Read(lit).Some? && IsNumber(Read(lit).value, p)
  {
    SplitOfSpelled(lit, m, p);
    ParseOfInt(p.exp);
    ParseOfInt(p.suffix);
    assert Digits(p.ip + p.fp);
    hide Spelled;
    ReadOfParts(lit, p);
  }

  lemma ReadOfParts(lit: string, p: Parts)
    requires Split(lit) == p && Digits(p.ip + p.fp)
    requires (p.exp == "" || ParseInt(p.exp).Some?) && (p.suffix == "" || ParseInt(p.suffix).Some?)
    ensures Read(lit).Some? && IsNumber(Read(lit).value, p)
  {
    EmptyValue();
    hide Shift, Pow, Value, Split, ParseInt, Normal, Round, Digits;
    if Value(p.ip + p.fp) > 0 {
      ShiftPositive(10, Value(p.ip + p.fp) as real, ExponentPart(p).value - |p.fp|);
    }
  }

  lemma EmptyValue()
    ensures Value("") == 0
  {
  }

  // ---- Nothing else is read ------------------------------------------------

  lemma {:induction false} StripIs(s: string) returns (signs: string)
    ensures Signs(signs) && s == signs + StripSigns(s)
    ensures StripSigns(s) == "" || !IsSign(StripSigns(s)[0])
  {
    signs := "";
    if s != "" && IsSign(s[0]) {
      var rest := StripIs(s[1..]);
      signs := [s[0]] + rest;
      assert s == [s[0]] + s[1..];
    }
  }

  lemma {:induction false} PartitionIs(s: string, c: char) returns (mark: string)
    ensures s == Partition(s, c).0 + mark + Partition(s, c).1
    ensures c !in Partition(s, c).0 && (mark == [c] || (mark == "" && Partition(s, c).1 == ""))
  {
    if s == "" {
      mark := "";
    } else if s[0] == c {
      mark := [c];
    } else {
      mark := PartitionIs(s[1..], c);
      assert s == [s[0]] + s[1..];
    }
  }

  lemma UnLower(s: string, t: string)
    requires Lower(s) == t && forall i :: 0 <= i < |t| ==> !('a' <= t[i] <= 'z')
    ensures s == t
  {
    assert forall i :: 0 <= i < |s| ==> t[i] == LowerChar(s[i]);
  }

  lemma PiecesOfLower(s: string, a: string, mark: string, b: string)
    requires Lower(s) == a + mark + b
    ensures |s| == |a| + |mark| + |b|
    ensures Lower(s[..|a|]) == a
    ensures Lower(s[|a|..|a| + |mark|]) == mark
    ensures Lower(s[|a| + |mark|..]) == b
    ensures s == s[..|a|] + s[|a|..|a| + |mark|] + s[|a| + |mark|..]
  {
    var l := Lower(s);
    assert l[..|a|] == a;
    assert l[|a|..|a| + |mark|] == mark;
    assert l[|a| + |mark|..] == b;
  }

  lemma PartsOfRead(lit: string)
    requires Read(lit).Some?
    ensures var p := Split(lit);
            Digits(p.ip) && Digits(p.fp) && IntText(p.exp) && IntText(p.suffix)
  {
    hide Split, Normal, Shift, Value, ParseInt;
    var p := Split(lit);
    ParseOfInt(p.exp);
    ParseOfInt(p.suffix);
    assert Digits(p.ip + p.fp);
    DigitsOfPieces(p.ip, p.fp);
  }

  /** A text that is read is of that form. */
  lemma SpelledOfRead(lit: string) returns (m: Marks)
    requires Read(lit).Some?
    ensures Spelled(lit, m, Split(lit))
  {
    PartsOfRead(lit);
    hide Partition, StripSigns, Lower, Read, Digits, IntText;
    var p := Split(lit);
    var rest := StripSigns(lit);
    var signs := StripIs(lit);
    var tail := PartitionIs(rest, 'p');
    var body := Partition(rest, 'p').0;
    var e := PartitionIs(Lower(body), 'e');
    var point := PartitionIs(Partition(Lower(body), 'e').0, '.');
    var mark := BodyOfLower(body, p, point, e);
    m := Marks(signs, point, mark, tail);
    SignFirst(lit, signs, rest);
    hide Split;
    Pieces(lit, signs, body, tail, p.suffix);
  }

  lemma Pieces(lit: string, signs: string, body: string, tail: string, suffix: string)
    requires lit == signs + (body + tail + suffix)
    ensures lit == signs + body + (tail + suffix)
  {
  }

  lemma DigitsOfPieces(a: string, b: string)
    requires Digits(a + b)
    ensures Digits(a) && Digits(b)
  {
    assert forall i :: 0 <= i < |a| ==> a[i] == (a + b)[i];
    assert forall i :: 0 <= i < |b| ==> b[i] == (a + b)[|a| + i];
  }

  lemma BodyOfLower(body: string, p: Parts, point: string, e: string) returns (mark: string)
    requires Digits(p.ip) && Digits(p.fp) && IntText(p.exp) && point in {"", "."} && e in {"", "e"}
    requires Lower(body) == p.ip + point + p.fp + e + p.exp
    ensures mark in {"", "e", "E"} && (mark == "" ==> e == "")
    ensures body == p.ip + point + p.fp + mark + p.exp
  {
    var mant := p.ip + point + p.fp;
    PiecesOfLower(body, mant, e, p.exp);
    UnLower(body[..|mant|], mant);
    NoLetters(p.exp);
    UnLower(body[|mant| + |e|..], p.exp);
    mark := body[|mant|..|mant| + |e|];
    LowerIsE(mark, e);
  }

  lemma NoLetters(s: string)
    requires IntText(s)
    ensures forall i :: 0 <= i < |s| ==> !('a' <= s[i] <= 'z')
  {
    assert forall i :: 0 < i < |s| ==> s[i] == s[1..][i - 1];
  }

  lemma LowerIsE(mark: string, e: string)
    requires Lower(mark) == e && e in {"", "e"}
    ensures mark in {"", "e", "E"} && (mark == "" <==> e == "")
  {
    if mark != "" {
      assert Lower(mark)[0] == LowerChar(mark[0]);
      assert mark == [mark[0]];
    }
  }

  /** A text is read exactly when it is of that form. */
  lemma ReadIff(lit: string)
    ensures Read(lit).Some? <==> exists m: Marks, p: Parts :: Spelled(lit, m, p)
  {
    hide Read, Spelled, IsNumber;
    if Read(lit).Some? {
      var m := SpelledOfRead(lit);
    }
    forall m: Marks, p: Parts | Spelled(lit, m, p)
      ensures Read(lit).Some?
    {
      ReadOfSpelled(lit, m, p);
    }
  }
}
