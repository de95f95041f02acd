/** A truth under which every rule of the known shapes means what it says, and rule texts that show where the
  * translation fails (internal/openapi/validate.go:57-198,255-375, docs/RFC-001-schema-extensions.md:381-478). */
module RuleTruth {
  import opened Options
  import opened GoText
  import opened Decimals
  import opened RuleText
  import opened RuleLexical
  import opened RuleMapper
  import opened RuleReading
  import opened RuleLimits

  // ---- A truth that is faithful --------------------------------------------

  /** No number begins with an equals sign. */
  ghost predicate Reasonable(pf: FloatParser)
  {
    forall s :: pf(s).Some? && s != "" ==> s[0] != '='
  }

  predicate IsMatch(s: string)
  {
    var args := RawArgs(s, "matches");
    args.Some? && |args.value| == 2 && Trim(args.value[0]) == "this"
  }

  ghost predicate StandAll(els: seq<string>, vs: seq<EnumValue>)
  {
    |vs| == |els| > 0 && OneKind(vs) && forall i :: 0 <= i < |els| ==> Stands(els[i], vs[i])
  }

  /** What a conjunct says of x, where its shape is known; others are false. */
  ghost predicate Says(s: string, x: Subject, pf: FloatParser)
  {
    if IsMatch(s) then exists t :: Denotes(Trim(RawArgs(s, "matches").value[1]), t) && x.matches(t)
    else if HasPrefix(s, "this in ") then SaysListed(ListElements(Trim(s[8..])), x)
    else SaysCompared(Compared(s, 0, ""), x, pf)
  }

  ghost predicate SaysListed(els: Option<seq<string>>, x: Subject)
  {
    els.Some? && exists vs :: StandAll(els.value, vs) && IsOne(vs, x)
  }

  ghost predicate SaysCompared(c: Option<Comparison>, x: Subject, pf: FloatParser)
  {
    match c
    case None => false
    case Some(Comparison(lhs, op, rhs)) =>
      if IsSize(Trim(lhs)) then ProtoInt(Trim(rhs)).Some? && SizeHolds(op, x, ProtoInt(Trim(rhs)).value)
      else
        Trim(lhs) == "this" && ProtoNumber(Trim(rhs), pf).Some? && NumberHolds(op, x, ProtoNumber(Trim(rhs), pf).value)
  }

  lemma SaysMatch(x: Subject, pf: FloatParser, a: string, b: string, t: string)
    requires Trim(a) == "this" && Denotes(Trim(b), t)
    ensures Says("matches(" + (a + "," + b) + ")", x, pf) == x.matches(t)
  {
    hide Trim, RawArgs, SaysListed, SaysCompared, ProtoBytes, Utf8, LiteralTail;
    LiteralIsSum(Trim(b));
    MatchFound(a, b, [Trim(b)], []);
    forall u | Denotes(Trim(b), u)
      ensures u == t
    {
      DenotesOne(Trim(b), t, u);
    }
  }

  /** An integer literal is calm text. */
  lemma ProtoIntIsCalm(t: string)
    requires ProtoInt(t).Some?
    ensures t != "" && AllCalm(t) && t[0] != '"' && t[0] != '='
  {
    var u := Unsigned(t);
    hide ValueIn;
    forall k | 0 <= k < |u|
      ensures Calm(u[k])
    {
      if |u| > 2 && u[0] == '0' && (u[1] == 'x' || u[1] == 'X') {
        assert k >= 2 ==> DigitIn(u[2..][k - 2], 16) < 16 && u[k] == u[2..][k - 2];
      } else {
        assert DigitIn(u[k], 10) < 10;
      }
    }
  }

  lemma StandsCloses(el: string, v: EnumValue)
    requires Stands(el, v)
    ensures Closed(el, ",", 0)
  {
    assert el + "" == el;
    NothingCloses(",");
    hide Trim, Closed, AllCalm, ProtoInt, ProtoBytes, Utf8, LiteralTail;
    match v
    case TextValue(t) =>
      LiteralIsSum(Trim(el));
      SpacedSum(el, [Trim(el)], [], "");
    case WholeValue(n) =>
      ProtoIntIsCalm(Trim(el));
      SpacedCalm(el);
      CalmCloses(el, "", ",", 0);
  }

  /** An element stands for one value. */
  lemma StandsOne(el: string, v: EnumValue, w: EnumValue)
    requires Stands(el, v) && Stands(el, w)
    ensures v == w
  {
    hide Trim, ProtoInt, ProtoBytes, Utf8, LiteralTail;
    if v.TextValue? && w.TextValue? {
      DenotesOne(Trim(el), v.text, w.text);
    } else if v.TextValue? || w.TextValue? {
      ProtoIntIsCalm(Trim(el));
    }
  }

  lemma SaysList(x: Subject, pf: FloatParser, r: string, els: seq<string>, vs: seq<EnumValue>)
    requires Trim(r) == "[" + Join(els, ",") + "]" && StandAll(els, vs)
    ensures Says("this in " + r, x, pf) == IsOne(vs, x)
  {
    hide Trim, Join, Closed, Stands, ListElements, RawArgs, SaysCompared, IsOne, OneKind;
    forall i | 0 <= i < |els|
      ensures Closed(els[i], ",", 0)
    {
      StandsCloses(els[i], vs[i]);
    }
    ListFound(r, els);
    NoCall(r);
    forall ws | StandAll(els, ws)
      ensures ws == vs
    {
      forall i | 0 <= i < |els|
        ensures ws[i] == vs[i]
      {
        StandsOne(els[i], vs[i], ws[i]);
      }
    }
  }

  /** A comparison of the subject is neither a call of matches nor a list. */
  lemma ComparisonApart(lhs: string, op: string, rhs: string)
    requires (IsSize(Trim(lhs)) || Trim(lhs) == "this") && IsOperator(op)
    ensures var s := lhs + op + rhs; !HasPrefix(s, "this in ") && !HasPrefix(s, "matches(")
  {
    var w, v := TrimSplits(lhs);
    var t := Trim(lhs);
    hide Trim;
    FirstApart(w, t, v, op, rhs);
    assert lhs + op + rhs == w + (t + v) + op + rhs;
  }

  lemma FirstApart(w: string, t: string, v: string, op: string, rhs: string)
    requires AllSpace(w) && AllSpace(v) && (IsSize(t) || t == "this") && IsOperator(op)
    ensures var s := w + (t + v) + op + rhs; !HasPrefix(s, "this in ") && !HasPrefix(s, "matches(")
  {
    var s := w + (t + v) + op + rhs;
    assert "matches("[0] == 'm' && "this in "[0] == 't' && "this in "[4] == ' ' && "this in "[5] == 'i';
    if w != "" {
      assert s[0] == w[0] && IsSpace(s[0]);
    } else {
      assert s == t + (v + op + rhs);
      assert s[0] == t[0];
      ThisApart(t, v, op, rhs);
    }
  }

  lemma ThisApart(t: string, v: string, op: string, rhs: string)
    requires AllSpace(v) && (IsSize(t) || t == "this") && IsOperator(op)
    ensures var s := t + (v + op + rhs); !HasPrefix(s, "this in ") && s[0] != 'm'
  {
    var s := t + (v + op + rhs);
    assert "this in "[0] == 't' && "this in "[4] == ' ' && "this in "[5] == 'i';
    if t == "this" {
      var u := v + op + rhs;
      assert s[4] == u[0];
      if |v| >= 1 {
        assert |v| >= 2 ==> u[1] == v[1] && IsSpace(u[1]);
        assert |v| == 1 ==> u[1] == op[0];
        assert s[5] == u[1];
      } else {
        assert u[0] == op[0];
      }
    } else if t == "this.size()" {
      assert s[4] == t[4] == '.';
    } else {
      assert s[0] == t[0] == 's';
    }
  }

  lemma NoMatch(s: string)
    requires !HasPrefix(s, "matches(")
    ensures RawArgs(s, "matches").None?
  {
    assert "matches" + "(" == "matches(";
    hide HasPrefix;
  }

  /** Where a conjunct is a comparison. */
  lemma SaysWhenCompared(s: string, x: Subject, pf: FloatParser)
    requires RawArgs(s, "matches").None? && !HasPrefix(s, "this in ")
    ensures Says(s, x, pf) == SaysCompared(Compared(s, 0, ""), x, pf)
  {
    hide RawArgs, HasPrefix, Compared, SaysCompared, SaysListed;
  }

  lemma SaysComparison(x: Subject, pf: FloatParser, lhs: string, op: string, rhs: string)
    requires (IsSize(Trim(lhs)) || Trim(lhs) == "this") && IsOperator(op) && (Trim(rhs) != "" ==> Trim(rhs)[0] != '=')
    ensures Says(lhs + op + rhs, x, pf) == SaysCompared(Some(Comparison(lhs, op, rhs)), x, pf)
  {
    hide Trim, IsSize, IsOperator, SaysCompared, Compared, Quiet, Says, HasPrefix, RawArgs;
    ComparisonApart(lhs, op, rhs);
    SubjectIsQuiet(lhs);
    NoEqualsFirst(rhs);
    NoMatch(lhs + op + rhs);
    SaysWhenCompared(lhs + op + rhs, x, pf);
    ComparedFound(lhs, op, rhs);
  }

  lemma NoEqualsFirst(rhs: string)
    requires Trim(rhs) != "" ==> Trim(rhs)[0] != '='
    ensures rhs != "" ==> rhs[0] != '='
  {
    var w, v := TrimSplits(rhs);
    hide Trim;
    if w != "" {
      assert rhs[0] == w[0] && IsSpace(rhs[0]);
    } else if Trim(rhs) != "" {
      assert rhs[0] == Trim(rhs)[0];
    } else {
      assert rhs == v;
      assert v != "" ==> IsSpace(v[0]);
    }
  }

  lemma SaysSize(x: Subject, pf: FloatParser, lhs: string, op: string, rhs: string)
    requires IsSize(Trim(lhs)) && IsOperator(op) && ProtoInt(Trim(rhs)).Some?
    ensures Says(lhs + op + rhs, x, pf) == SizeHolds(op, x, ProtoInt(Trim(rhs)).value)
  {
    ProtoIntIsCalm(Trim(rhs));
    hide Trim, Says, IsOperator, SizeHolds, NumberHolds, ProtoInt, ProtoNumber;
    SaysComparison(x, pf, lhs, op, rhs);
  }

  lemma SaysNumber(x: Subject, pf: FloatParser, lhs: string, op: string, rhs: string)
    requires Reasonable(pf) && Trim(lhs) == "this" && IsOperator(op) && ProtoNumber(Trim(rhs), pf).Some?
    ensures Says(lhs + op + rhs, x, pf) == NumberHolds(op, x, ProtoNumber(Trim(rhs), pf).value)
  {
    hide Trim, Says, IsOperator, SizeHolds, NumberHolds, ProtoInt, ParseInt;
    var t := Trim(rhs);
    if ProtoInt(t).Some? {
      ProtoIntIsCalm(t);
    }
    SaysComparison(x, pf, lhs, op, rhs);
  }

  /** For every value and every reasonable reading of numbers there is a faithful truth. */
  lemma FaithfulExists(x: Subject, numeric: bool, pf: FloatParser) returns (truth: string -> bool)
    requires Reasonable(pf)
    ensures Faithful(truth, x, numeric, pf)
    ensures forall s :: truth(s) == Says(s, x, pf)
  {
    var says := SaysOf(x, pf);
    truth := says;
    hide Says, Trim, Join, Denotes, Stands, IsOperator;
    hide IsSize, ProtoInt, ProtoNumber, IsOne, SizeHolds, NumberHolds, OneKind;
    forall a: string, b: string, t: string
      ensures MatchMeaning(truth, x, a, b, t)
    {
      if Trim(a) == "this" && Denotes(Trim(b), t) {
        SaysMatch(x, pf, a, b, t);
      }
    }
    forall r: string, els: seq<string>, vs: seq<EnumValue>
      ensures ListMeaning(truth, x, r, els, vs)
    {
      if Trim(r) == "[" + Join(els, ",") + "]" && StandAll(els, vs) {
        SaysList(x, pf, r, els, vs);
      }
    }
    forall lhs: string, op: string, rhs: string
      ensures SizeMeaning(truth, x, lhs, op, rhs) && NumberMeaning(truth, x, lhs, op, rhs, pf)
    {
      if IsSize(Trim(lhs)) && IsOperator(op) && ProtoInt(Trim(rhs)).Some? {
        SaysSize(x, pf, lhs, op, rhs);
      }
      if Trim(lhs) == "this" && IsOperator(op) && ProtoNumber(Trim(rhs), pf).Some? {
        SaysNumber(x, pf, lhs, op, rhs);
      }
    }
  }

  ghost function SaysOf(x: Subject, pf: FloatParser): string -> bool
  {
    s => Says(s, x, pf)
  }

  // ---- One such rule ---------------------------------------------------------

  const THIS := "this"
  const SPACE := " "
  const MORE := ">"
  const ONE := "1"
  const MIDDLE := " this < 5 "
  const LAST := "|| this == 0"

  /** this > 1 */
  function First(): string
  {
    THIS + SPACE + MORE + (SPACE + ONE)
  }

  /** this < 5 || this == 0 */
  function Second(): string
  {
    MIDDLE + LAST
  }

  /** this > 1 && this < 5 || this == 0 */
  function OrText(): string
  {
    First() + SPACE + "&&" + Second()
  }

  /** Whole numbers as the numbers of rules. */
  function Integers(): FloatParser
  {
    s => match ParseInt(s) case None => None case Some(n) => Some(n as real)
  }

  lemma IntegersReasonable()
    ensures Reasonable(Integers())
  {
    forall s: string | Integers()(s).Some? && s != ""
      ensures s[0] != '='
    {
      IntegerFirst(s);
    }
  }

  lemma IntegerFirst(s: string)
    requires ParseInt(s).Some?
    ensures s != "" && s[0] != '=' && (s[0] in "+-" || Digits(s))
  {
    hide Value;
  }

  ghost predicate Passive(t: string, c: char)
  {
    forall k :: 0 <= k < |t| ==> !IsQuote(t[k]) && Delta(t[k]) == 0 && t[k] != c
  }

  lemma {:induction false} PassiveCloses(t: string, sep: string)
    requires sep != "" && Passive(t, sep[0])
    ensures Closed(t, sep, 0)
    decreases |t|
  {
    if t != "" {
      PassiveCloses(t[1..], sep);
      assert (t + sep)[0] == t[0];
    }
  }

  lemma PassiveSum(a: string, b: string, c: char)
    requires Passive(a, c) && Passive(b, c)
    ensures Passive(a + b, c)
  {
  }

  lemma PartsArePassive()
    ensures Passive(THIS, '&') && Passive(SPACE, '&') && Passive(MORE, '&') && Passive(ONE, '&')
    ensures Passive(MIDDLE, '&') && Passive(LAST, '&')
  {
  }

  lemma OrTextCloses()
    ensures Closed(First() + SPACE, "&&", 0) && Closed(Second(), "&&", 0)
  {
    hide Passive, Closed;
    PartsArePassive();
    PassiveSum(THIS, SPACE, '&');
    PassiveSum(THIS + SPACE, MORE, '&');
    PassiveSum(SPACE, ONE, '&');
    PassiveSum(THIS + SPACE + MORE, SPACE + ONE, '&');
    PassiveSum(First(), SPACE, '&');
    PassiveSum(MIDDLE, LAST, '&');
    PassiveCloses(First() + SPACE, "&&");
    PassiveCloses(Second(), "&&");
  }

  lemma TrimLeftStays(s: string)
    requires s != "" && !IsSpace(s[0])
    ensures TrimLeft(s) == s
  {
  }

  lemma TrimRightStays(s: string)
    requires s != "" && !IsSpace(s[|s| - 1])
    ensures TrimRight(s) == s
  {
  }

  lemma TrimStays(s: string)
    requires s != "" && !IsSpace(s[0]) && !IsSpace(s[|s| - 1])
    ensures Trim(s) == s
  {
    TrimLeftStays(s);
    TrimRightStays(s);
  }

  lemma TrimSpaceAfter(s: string)
    requires s != "" && !IsSpace(s[0]) && !IsSpace(s[|s| - 1])
    ensures Trim(s + SPACE) == s
  {
    var t := s + SPACE;
    assert t[..|s|] == s && t[|s|] == ' ';
    TrimLeftStays(t);
    TrimRightStays(s);
    assert TrimRight(t) == TrimRight(t[..|t| - 1]);
    hide TrimLeft, TrimRight;
  }

  lemma TrimSpaceBefore(s: string)
    requires s != "" && !IsSpace(s[0]) && !IsSpace(s[|s| - 1])
    ensures Trim(SPACE + s) == s
  {
    var t := SPACE + s;
    assert t[1..] == s && t[0] == ' ';
    TrimLeftStays(s);
    TrimRightStays(s);
    assert TrimLeft(t) == TrimLeft(t[1..]);
    hide TrimLeft, TrimRight;
  }

  /** The characters at the ends of the parts. */
  lemma Ends()
    ensures THIS[0] == 't' && THIS[|THIS| - 1] == 's' && |THIS| == 4
    ensures ONE[0] == '1' && |ONE| == 1 && MORE[0] == '>' && |MORE| == 1 && SPACE[0] == ' ' && |SPACE| == 1
    ensures LAST[|LAST| - 1] == '0' && |LAST| > 0 && |MIDDLE| > 0
  {
  }

  lemma FirstShape()
    ensures First() != "" && First()[0] == 't' && First()[|First()| - 1] == '1' && First()[5] == '>'
    ensures OrText()[0] == 't' && OrText()[5] == '>' && OrText()[|OrText()| - 1] == '0'
  {
    Ends();
  }

  lemma OrTextShape()
    ensures Trim(OrText()) == Join([First() + SPACE, Second()], "&&")
    ensures Trim(First() + SPACE) == First()
  {
    FirstShape();
    hide Trim, First, Second, Join;
    TrimSpaceAfter(First());
    TrimStays(OrText());
    JoinOfTwo([First() + SPACE, Second()], "&&");
  }

  lemma NoListText(s: string)
    requires |s| > 5 && s[0] == 't' && s[5] == '>'
    ensures !HasPrefix(s, "this in ") && RawArgs(s, "matches").None?
  {
    assert "this in "[5] == 'i' && ("matches" + "(")[0] == 'm';
  }

  lemma ThisSpaced()
    ensures Trim(THIS + SPACE) == "this" && Quiet(THIS + SPACE, 0)
  {
    Ends();
    TrimSpaceAfter(THIS);
    hide Trim, Quiet;
    SubjectIsQuiet(THIS + SPACE);
  }

  lemma OneSpaced()
    ensures Trim(SPACE + ONE) == ONE && (SPACE + ONE)[0] == ' '
  {
    Ends();
    TrimSpaceBefore(ONE);
    hide Trim;
  }

  lemma OneIsOne()
    ensures Integers()(ONE) == Some(1.0)
  {
    assert Digits(ONE);
    assert ONE[..0] == "" && Value(ONE[..0]) == 0;
    assert Value(ONE) == 1;
    assert ONE[0] != '+' && ONE[0] != '-';
  }

  lemma MoreIsOperator()
    ensures IsOperator(MORE) && IsOperator(">")
  {
  }

  lemma MapWhenCompared(k: State, s: string, c: Comparison, sk: SizeKind, numeric: bool, pf: FloatParser)
    requires RawArgs(s, "matches").None? && !HasPrefix(s, "this in ") && Compared(s, 0, "") == Some(c)
    ensures MapConjunct(k, s, sk, numeric, pf) == MapComparison(k, Trim(c.lhs), c.op, Trim(c.rhs), sk, numeric, pf)
  {
    hide RawArgs, HasPrefix, Compared, Trim, MapComparison, MapEnum, Unquote;
  }

  lemma FirstIs()
    ensures First() == THIS + SPACE + MORE + (SPACE + ONE) && |First()| > 5
  {
    Ends();
  }

  /** The first piece becomes the exclusive minimum 1. */
  lemma FirstPieceTaken(sk: SizeKind)
    ensures MapConjunct(EMPTY, First(), sk, true, Integers()) == (EMPTY.(nMin := Some(Bound(1.0, true))), true)
  {
    hide Trim, Quiet, Integers, IsOperator, RawArgs, HasPrefix, First, Compared, MapConjunct, MapComparison;
    FirstShape();
    FirstIs();
    NoListText(First());
    ThisSpaced();
    OneSpaced();
    OneIsOne();
    MoreIsOperator();
    ComparedFound(THIS + SPACE, MORE, SPACE + ONE);
    MapWhenCompared(EMPTY, First(), Comparison(THIS + SPACE, MORE, SPACE + ONE), sk, true, Integers());
    ComparisonTaken(sk);
  }

  lemma ComparisonTaken(sk: SizeKind)
    requires Integers()(ONE) == Some(1.0)
    ensures MapComparison(EMPTY, "this", MORE, ONE, sk, true, Integers())
              == (EMPTY.(nMin := Some(Bound(1.0, true))), true)
  {
    hide Integers;
    assert "this" != "this.size()" && "this" != "size(this)" by {
      assert |"this"| == 4 && |"this.size()"| == 11 && |"size(this)"| == 10;
    }
    assert MORE != "<=" && MORE != "<" && MORE != ">=";
  }

  /** No conjunct changes a minimum once it is there. */
  lemma MinimumStays(k: State, s: string, sk: SizeKind, numeric: bool, pf: FloatParser)
    requires k.nMin.Some?
    ensures MapConjunct(k, s, sk, numeric, pf).0.nMin == k.nMin
  {
    hide Trim, RawArgs, Compared, Unquote, ListElements, Elements;
  }

  lemma OrTextMinimum(sk: SizeKind, code: string, message: string)
    ensures MapRule(EMPTY, Rule(OrText(), code, message), sk, true, Integers()).nMin == Some(Bound(1.0, true))
  {
    FirstShape();
    hide Trim, MapConjunct, SplitTop, OrText, First, Second, Closed, Join;
    var p, q := First() + SPACE, Second();
    OrTextCloses();
    OrTextShape();
    SplitOfJoin([p, q], "&&");
    FirstPieceTaken(sk);
    TwoConjuncts(p, q, sk);
  }

  lemma TwoConjuncts(p: string, q: string, sk: SizeKind)
    requires Trim(p) != ""
               && MapConjunct(EMPTY, Trim(p), sk, true, Integers()) == (EMPTY.(nMin := Some(Bound(1.0, true))), true)
    ensures MapConjuncts(EMPTY, [p, q], sk, true, Integers()).0.nMin == Some(Bound(1.0, true))
  {
    hide Trim, MapConjunct;
    var k1 := EMPTY.(nMin := Some(Bound(1.0, true)));
    assert [p, q][..1] == [p] && [p][..0] == [];
    assert MapConjuncts(EMPTY, [], sk, true, Integers()) == (EMPTY, []);
    assert MapConjuncts(EMPTY, [p], sk, true, Integers()) == (k1, []);
    MinimumStays(k1, Trim(q), sk, true, Integers());
  }

  /** What stands after the first operator of the text. */
  function Rest(): string
  {
    SPACE + (ONE + SPACE + "&&" + Second())
  }

  lemma RestIsNoNumber()
    ensures Rest()[0] == ' ' && ProtoInt(Trim(Rest())).None? && ProtoNumber(Trim(Rest()), Integers()).None?
  {
    Ends();
    var t := ONE + SPACE + "&&" + Second();
    assert t[0] == '1' && t[1] == ' ' && t[|t| - 1] == '0';
    TrimSpaceBefore(t);
    hide Trim, Second, ProtoInt, ProtoNumber, Integers;
    SecondCharSpace(t);
  }

  lemma SecondCharSpace(t: string)
    requires |t| > 1 && t[0] == '1' && t[1] == ' '
    ensures ProtoInt(t).None? && ProtoNumber(t, Integers()).None?
  {
    assert !Decimals.IsDigit(t[1]);
    if ParseInt(t).Some? {
      IntegerFirst(t);
    }
    assert DigitIn(t[1], 10) == 10;
  }

  /** The first comparison of the text is of the subject with no number. */
  lemma OrTextUnknown(lhs: string, op: string, rhs: string)
    requires lhs + op + rhs == OrText() && IsOperator(op) && (Trim(rhs) != "" ==> Trim(rhs)[0] != '=')
    requires IsSize(Trim(lhs)) || Trim(lhs) == "this"
    ensures Trim(lhs) == "this" && ProtoInt(Trim(rhs)).None? && ProtoNumber(Trim(rhs), Integers()).None?
  {
    OrTextAtMore();
    ThisSpaced();
    RestIsNoNumber();
    MoreIsOperator();
    NoEqualsFirst(rhs);
    hide Trim, Quiet, IsOperator, Integers, Rest, OrText, ProtoInt, ProtoNumber;
    SubjectIsQuiet(lhs);
    ComparedFound(THIS + SPACE, MORE, Rest());
    ComparedFound(lhs, op, rhs);
  }

  lemma OrTextAtMore()
    ensures OrText() == THIS + SPACE + MORE + Rest()
  {
    hide Second;
    assert First() + SPACE + "&&" + Second() == THIS + SPACE + MORE + (SPACE + (ONE + SPACE + "&&" + Second()));
  }

  /** At this text: a faithful truth under which the rule means what it says, and a value, 0, that the rule takes
    * and the schema refuses. */
  lemma OrTextRefused(sk: SizeKind, code: string, message: string) returns (truth: string -> bool, x: Subject)
    ensures x.num == Finite(0.0) && Faithful(truth, x, true, Integers())
    ensures truth(OrText()) <==>
              (NumberHolds(">", x, 1.0) && NumberHolds("<", x, 5.0)) || NumberHolds("==", x, 0.0)
    ensures !Satisfied(MapRule(EMPTY, Rule(OrText(), code, message), sk, true, Integers()), truth, x)
  {
    hide MapRule, Faithful, OrText, Reasonable, Satisfied, Says;
    x := Subject(None, Finite(0.0), s => false, v => false);
    IntegersReasonable();
    var says := FaithfulExists(x, true, Integers());
    truth := s => s == OrText() || says(s);
    OrTextFaithful(says, truth, x);
    OrTextMinimum(sk, code, message);
    MinimumRefuses(MapRule(EMPTY, Rule(OrText(), code, message), sk, true, Integers()), truth, x);
    assert NumberHolds("==", x, 0.0);
  }

  lemma MinimumRefuses(k: State, truth: string -> bool, x: Subject)
    requires k.nMin == Some(Bound(1.0, true)) && x.num == Finite(0.0)
    ensures !Satisfied(k, truth, x)
  {
    hide SizeHolds, IsOne;
  }

  lemma OrTextFaithful(says: string -> bool, truth: string -> bool, x: Subject)
    requires Faithful(says, x, true, Integers()) && forall s :: truth(s) <==> s == OrText() || says(s)
    ensures Faithful(truth, x, true, Integers())
  {
    FirstShape();
    hide OrText, First, Trim, Join, Denotes, Stands, OneKind, IsOperator, IsSize, ProtoInt, ProtoNumber, IsOne;
    hide SizeHolds, NumberHolds, Integers;
    forall a: string, b: string, t: string
      ensures MatchMeaning(truth, x, a, b, t)
    {
      assert MatchMeaning(says, x, a, b, t);
      MatchIsM(a + "," + b);
    }
    forall r: string, els: seq<string>, vs: seq<EnumValue>
      ensures ListMeaning(truth, x, r, els, vs)
    {
      assert ListMeaning(says, x, r, els, vs);
      ListIsI(r);
    }
    forall lhs: string, op: string, rhs: string
      ensures SizeMeaning(truth, x, lhs, op, rhs) && NumberMeaning(truth, x, lhs, op, rhs, Integers())
    {
      assert SizeMeaning(says, x, lhs, op, rhs) && NumberMeaning(says, x, lhs, op, rhs, Integers());
      if lhs + op + rhs == OrText() && IsOperator(op) {
        OrTextApart(lhs, op, rhs);
      }
    }
  }

  lemma MatchIsM(s: string)
    ensures ("matches(" + s + ")")[0] == 'm'
  {
  }

  lemma ListIsI(r: string)
    ensures ("this in " + r)[5] == 'i'
  {
  }

  /** No comparison of known meaning is the text. */
  lemma OrTextApart(lhs: string, op: string, rhs: string)
    requires lhs + op + rhs == OrText() && IsOperator(op)
    ensures !(IsSize(Trim(lhs)) && ProtoInt(Trim(rhs)).Some?)
    ensures !(Trim(lhs) == "this" && ProtoNumber(Trim(rhs), Integers()).Some?)
  {
    hide Trim, OrText, IsOperator, ProtoInt, Integers;
    IntegersReasonable();
    var t := Trim(rhs);
    if (IsSize(Trim(lhs)) && ProtoInt(t).Some?) || (Trim(lhs) == "this" && ProtoNumber(t, Integers()).Some?) {
      if ProtoInt(t).Some? {
        ProtoIntIsCalm(t);
      }
      OrTextUnknown(lhs, op, rhs);
    }
  }
}
