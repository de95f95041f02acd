/** Rules at their texts: what they mean, and what the schemas of fields that carry them accept
  * (internal/openapi/validate.go:57-198,255-375, internal/openapi/schemas.go:421-442,577-615,
  * testdata/schema-extensions/24_expression_language.proto:74-88). */
module RuleExamples {
  import opened Options
  import opened GoText
  import opened Decimals
  import opened RuleText
  import opened RuleLexical
  import opened RuleMapper
  import opened RuleReading
  import opened RuleLimits
  import opened RuleRows
  import opened RuleTruth
  import opened JsonValues
  import opened RuleConstraints
  import opened RuleFields
  import Seqs

  // ---- Rules of one conjunct ----

  /** The rule is one conjunct, s. */
  ghost predicate IsOnly(r: Rule, s: string)
  {
    s != "" && Trim(r.source) == s && Trim(s) == s && Closed(s, "&&", 0)
  }

  function OnlyState(s: string, r: Rule, sk: SizeKind, numeric: bool, pf: FloatParser): State
  {
    var (k, ok) := MapConjunct(EMPTY, s, sk, numeric, pf);
    k.(unmapped := k.unmapped + Leftovers(if ok then [] else [s], r))
  }

  lemma OnlyConjunct(r: Rule, s: string, kind: FieldKind, pf: FloatParser)
    requires IsOnly(r, s)
    ensures Accumulated(kind, [r], pf) == OnlyState(s, r, SizeKindOf(kind), IsNumeric(kind), pf)
  {
    hide Trim, Closed, MapConjunct, SplitTop;
    SplitOfJoin([s], "&&");
    assert Join([s], "&&") == s;
    assert [s][..0] == [] && [r][..0] == [];
    var sk, numeric := SizeKindOf(kind), IsNumeric(kind);
    assert MapConjuncts(EMPTY, [], sk, numeric, pf) == (EMPTY, []);
    assert [] + [s] == [s];
    assert MapRules([], sk, numeric, pf) == EMPTY;
  }

  /** A conjunct that is taken in leaves nothing over. */
  lemma OnlyTaken(s: string, r: Rule, k: State, sk: SizeKind, numeric: bool, pf: FloatParser)
    requires MapConjunct(EMPTY, s, sk, numeric, pf) == (k, true) && k.unmapped == []
    ensures OnlyState(s, r, sk, numeric, pf) == k
  {
    hide MapConjunct;
    assert k.unmapped + Leftovers([], r) == [];
  }

  lemma AccumulatedTaken(r: Rule, s: string, k: State, kind: FieldKind, pf: FloatParser)
    requires IsOnly(r, s) && k.unmapped == []
    requires MapConjunct(EMPTY, s, SizeKindOf(kind), IsNumeric(kind), pf) == (k, true)
    ensures Accumulated(kind, [r], pf) == k
  {
    hide IsOnly, MapConjunct, OnlyState, Accumulated;
    OnlyConjunct(r, s, kind, pf);
    OnlyTaken(s, r, k, SizeKindOf(kind), IsNumeric(kind), pf);
  }

  /** A comparison of the subject is taken apart into its sides. */
  lemma ComparisonMapped(k: State, lhs: string, op: string, rhs: string, sk: SizeKind, numeric: bool, pf: FloatParser)
    requires (IsSize(Trim(lhs)) || Trim(lhs) == "this") && IsOperator(op) && (Trim(rhs) != "" ==> Trim(rhs)[0] != '=')
    ensures MapConjunct(k, lhs + op + rhs, sk, numeric, pf)
              == MapComparison(k, Trim(lhs), op, Trim(rhs), sk, numeric, pf)
  {
    hide Trim, IsSize, IsOperator, Compared, Quiet, HasPrefix, RawArgs, MapComparison, MapConjunct;
    ComparisonApart(lhs, op, rhs);
    SubjectIsQuiet(lhs);
    NoEqualsFirst(rhs);
    NoMatch(lhs + op + rhs);
    ComparedFound(lhs, op, rhs);
    MapWhenCompared(k, lhs + op + rhs, Comparison(lhs, op, rhs), sk, numeric, pf);
  }

  /** A rule that asks for one size. */
  ghost predicate AsksSize(r: Rule, lhs: string, rhs: string, n: int)
  {
    IsSize(Trim(lhs)) && ParseInt64(Trim(rhs)) == Some(n) && IsOnly(r, lhs + "==" + rhs)
  }

  function OfSize(n: int, sk: SizeKind): State
  {
    EMPTY.(min := Some(n), max := Some(n), sk := sk)
  }

  lemma EqualMapped(lhs: string, rhs: string, n: int, sk: SizeKind, numeric: bool, pf: FloatParser)
    requires IsSize(lhs) && ParseInt64(rhs) == Some(n) && sk != SizeNone
    ensures MapComparison(EMPTY, lhs, "==", rhs, sk, numeric, pf) == (OfSize(n, sk), true)
  {
    hide IsSize, ParseInt64;
  }

  lemma EqualTaken(lhs: string, rhs: string, n: int, sk: SizeKind, numeric: bool, pf: FloatParser)
    requires IsSize(Trim(lhs)) && ParseInt64(Trim(rhs)) == Some(n) && sk != SizeNone
    ensures MapConjunct(EMPTY, lhs + "==" + rhs, sk, numeric, pf) == (OfSize(n, sk), true)
  {
    IntIsCalm(Trim(rhs));
    hide Trim, IsSize, ParseInt64, MapConjunct, AllCalm, MapComparison, OfSize;
    ComparisonMapped(EMPTY, lhs, "==", rhs, sk, numeric, pf);
    EqualMapped(Trim(lhs), Trim(rhs), n, sk, numeric, pf);
  }

  lemma SizeAccumulated(r: Rule, lhs: string, rhs: string, n: int, kind: FieldKind, pf: FloatParser)
    requires AsksSize(r, lhs, rhs, n) && SizeKindOf(kind) != SizeNone
    ensures Accumulated(kind, [r], pf) == OfSize(n, SizeKindOf(kind))
  {
    hide Trim, IsSize, ParseInt64, IsOnly, MapConjunct, OnlyState, Accumulated;
    var s := lhs + "==" + rhs;
    EqualTaken(lhs, rhs, n, SizeKindOf(kind), IsNumeric(kind), pf);
    AccumulatedTaken(r, s, OfSize(n, SizeKindOf(kind)), kind, pf);
  }

  /** What the rule means. */
  lemma SizeAsked(r: Rule, lhs: string, rhs: string, n: int, truth: string -> bool, x: Subject, numeric: bool,
                  pf: FloatParser)
    requires AsksSize(r, lhs, rhs, n) && Faithful(truth, x, numeric, pf) && ProtoInt(Trim(rhs)).Some?
    ensures truth(lhs + "==" + rhs) <==> x.size == Some(ProtoInt(Trim(rhs)).value)
  {
    hide Trim, IsSize, ParseInt64, ProtoInt, IsOnly;
    assert SizeMeaning(truth, x, lhs, "==", rhs);
  }

  /** A size asked of bytes: no value of that size is accepted, unless the size is 0. */
  lemma BytesOfSizeRefused(r: Rule, lhs: string, rhs: string, n: int, nullness: Nullness, pf: FloatParser,
                           truth: string -> bool, m: Matcher, v: FieldValue)
    requires AsksSize(r, lhs, rhs, n) && IsDecimal(Trim(rhs)) && n > 0
    requires v.BytesField? && Faithful(truth, Seen(v, m), IsNumeric(BytesKind), pf)
    ensures truth(lhs + "==" + rhs) <==> |v.b| == n
    ensures |v.b| == n ==>
              !Accepts(BytesKind, nullness, Keywords(Accumulated(BytesKind, [r], pf)), truth, m, JsonOf(BytesKind, v))
  {
    hide AsksSize, Accumulated, Trim, ProtoInt, ParseInt, Faithful;
    hide IsDecimal, Keywords, Base64, Allows, AllValid, IsSize, IsOnly;
    DecimalMeans(Trim(rhs));
    SizeAccumulated(r, lhs, rhs, n, BytesKind, pf);
    ReadsAs(r, lhs, rhs, n);
    SizeAsked(r, lhs, rhs, n, truth, Seen(v, m), IsNumeric(BytesKind), pf);
    Base64Length(v.b);
    KeywordsMean(OfSize(n, SizeLength), truth, m, JsonOf(BytesKind, v));
    SizedText(n, Base64(v.b), truth, m);
  }

  lemma ReadsAs(r: Rule, lhs: string, rhs: string, n: int)
    requires AsksSize(r, lhs, rhs, n)
    ensures ParseInt(Trim(rhs)) == Some(n)
  {
    hide Trim, IsOnly, IsSize, ParseInt;
  }

  /** Size bounds of n accept the texts of n characters. */
  lemma SizedText(n: int, s: string, truth: string -> bool, m: Matcher)
    ensures Allows(OfSize(n, SizeLength), truth, m, JsonText(s)) <==> |s| == n
  {
  }

  // ---- 64-bit bounds ----

  predicate IsBound(op: string)
  {
    op == "<=" || op == "<" || op == ">=" || op == ">"
  }

  /** A bound on the subject itself. */
  ghost predicate AsksBound(r: Rule, lhs: string, op: string, rhs: string, pf: FloatParser)
  {
    && Trim(lhs) == "this" && IsBound(op) && pf(Trim(rhs)).Some? && (Trim(rhs) != "" ==> Trim(rhs)[0] != '=')
    && IsOnly(r, lhs + op + rhs)
  }

  lemma BoundMapped(op: string, rhs: string, kind: FieldKind, pf: FloatParser)
    requires IsBound(op) && pf(rhs).Some? && IsNumeric(kind)
    ensures var r := MapComparison(EMPTY, "this", op, rhs, SizeKindOf(kind), IsNumeric(kind), pf);
            r.1 && r.0 == EMPTY.(nMin := r.0.nMin, nMax := r.0.nMax)
  {
    assert "this" != "this.size()" && "this" != "size(this)" by {
      assert |"this"| == 4 && |"this.size()"| == 11 && |"size(this)"| == 10;
    }
  }

  lemma BoundAccumulated(r: Rule, lhs: string, op: string, rhs: string, kind: FieldKind, pf: FloatParser)
    requires AsksBound(r, lhs, op, rhs, pf) && IsNumeric(kind)
    ensures var k := Accumulated(kind, [r], pf); k == EMPTY.(nMin := k.nMin, nMax := k.nMax)
  {
    hide Trim, IsOnly, MapConjunct, MapComparison, OnlyState, Accumulated, IsNumeric, SizeKindOf;
    var s := lhs + op + rhs;
    ComparisonMapped(EMPTY, lhs, op, rhs, SizeKindOf(kind), IsNumeric(kind), pf);
    BoundMapped(op, Trim(rhs), kind, pf);
    var k := MapConjunct(EMPTY, s, SizeKindOf(kind), IsNumeric(kind), pf).0;
    AccumulatedTaken(r, s, k, kind, pf);
  }

  /** Bounds on numbers let every text pass. */
  lemma BoundsPass(k: State, s: string, truth: string -> bool, m: Matcher)
    requires k == EMPTY.(nMin := k.nMin, nMax := k.nMax)
    ensures Allows(k, truth, m, JsonText(s))
  {
  }

  /** A bound asked of a 64-bit field: every value of the field is accepted, whatever the rule says of it. */
  lemma WideBoundLost(r: Rule, lhs: string, op: string, rhs: string, kind: FieldKind, nullness: Nullness,
                      pf: FloatParser,
                      truth: string -> bool, m: Matcher, n: int)
    requires AsksBound(r, lhs, op, rhs, pf) && kind.WideKind? && ProtoNumber(Trim(rhs), pf).Some?
    requires InRange(kind, n) && Faithful(truth, Seen(WholeField(n), m), IsNumeric(kind), pf)
    ensures truth(lhs + op + rhs) <==> Holds(op, n as real, ProtoNumber(Trim(rhs), pf).value)
    ensures Accepts(kind, nullness, Keywords(Accumulated(kind, [r], pf)), truth, m, JsonOf(kind, WholeField(n)))
  {
    hide Trim, IsOnly, Accumulated, Keywords, Allows, AllValid, ProtoNumber, WholeText, Holds;
    assert NumberMeaning(truth, Seen(WholeField(n), m), lhs, op, rhs, pf);
    BoundAccumulated(r, lhs, op, rhs, kind, pf);
    BoundsPass(Accumulated(kind, [r], pf), WholeText(n), truth, m);
    KeywordsMean(Accumulated(kind, [r], pf), truth, m, JsonText(WholeText(n)));
  }

  // ---- Lists ----

  /** The rule is a list that is read as vs. */
  ghost predicate AsksList(r: Rule, q: string, els: seq<string>, vs: seq<EnumValue>)
  {
    && |els| == |vs| >= 1 && (forall i :: 0 <= i < |els| ==> ReadAs(els[i], vs[i]))
    && Trim(q) == "[" + Join(els, ",") + "]" && IsOnly(r, "this in " + q)
  }

  lemma ListAccumulated(r: Rule, q: string, els: seq<string>, vs: seq<EnumValue>, kind: FieldKind, pf: FloatParser)
    requires AsksList(r, q, els, vs)
    ensures Accumulated(kind, [r], pf) == EMPTY.(enum := Some(vs))
  {
    hide Trim, IsOnly, MapConjunct, OnlyState, Accumulated, ReadAs, Join;
    var s := "this in " + q;
    ListTaken(EMPTY, q, els, vs, SizeKindOf(kind), IsNumeric(kind), pf);
    AccumulatedTaken(r, s, EMPTY.(enum := Some(vs)), kind, pf);
  }

  /** A list accepts of texts just its own. */
  lemma ListAccepts(kind: FieldKind, nullness: Nullness, vs: seq<EnumValue>, truth: string -> bool, m: Matcher,
                    v: FieldValue)
    requires IsOf(kind, v)
    ensures Accepts(kind, nullness, Keywords(EMPTY.(enum := Some(vs))), truth, m, JsonOf(kind, v))
       <==> TypeAllows(kind, JsonOf(kind, v)) && IsIn(vs, JsonOf(kind, v))
  {
    var k := EMPTY.(enum := Some(vs));
    NotNull(kind, v);
    KeywordsMean(k, truth, m, JsonOf(kind, v));
    OnlyList(k, truth, m, JsonOf(kind, v), Seen(v, m));
    hide Keywords, Allows, AllValid, IsIn, TypeAllows, Seen, Satisfied;
  }

  /** A list of numbers on a 64-bit or an enum field: no value is accepted, those of the list included. */
  lemma NumberListRefused(r: Rule, q: string, els: seq<string>, vs: seq<EnumValue>, kind: FieldKind, nullness: Nullness,
                          pf: FloatParser, truth: string -> bool, m: Matcher, v: FieldValue)
    requires AsksList(r, q, els, vs) && (forall i :: 0 <= i < |els| ==> Stands(els[i], vs[i]))
    requires (forall e :: e in vs ==> e.WholeValue?) && (kind.WideKind? || kind.EnumKind?)
    requires IsOf(kind, v) && Faithful(truth, Seen(v, m), IsNumeric(kind), pf)
    ensures truth("this in " + q) <==> exists n :: WholeValue(n) in vs && NumberOf(v) == Finite(n as real)
    ensures !Accepts(kind, nullness, Keywords(Accumulated(kind, [r], pf)), truth, m, JsonOf(kind, v))
  {
    hide Trim, IsOnly, Accumulated, Keywords, Join, ReadAs, Stands, IsOne, IsIn, Accepts, WholeText;
    assert ListMeaning(truth, Seen(v, m), q, els, vs);
    IsOneIs(vs, v, m);
    ListAccumulated(r, q, els, vs, kind, pf);
    ListAccepts(kind, nullness, vs, truth, m, v);
    IsInIs(vs, JsonOf(kind, v));
  }

  /** A list on a string field: the schema accepts the texts that are read. */
  lemma ListOfTexts(r: Rule, q: string, els: seq<string>, vs: seq<EnumValue>, nullness: Nullness, pf: FloatParser,
                    truth: string -> bool, m: Matcher, s: string)
    requires AsksList(r, q, els, vs)
    ensures Accepts(StringKind, nullness, Keywords(Accumulated(StringKind, [r], pf)), truth, m, JsonText(s))
       <==> TextValue(s) in vs
  {
    hide AsksList, Accumulated, Keywords, IsIn, Accepts;
    ListAccumulated(r, q, els, vs, StringKind, pf);
    ListAccepts(StringKind, nullness, vs, truth, m, TextField(s));
    IsInIs(vs, JsonText(s));
  }

  /** Lists of literals joined by something on a string field: the schema accepts just the texts the mapper reads. */
  lemma OrListsRead(r: Rule, q: string, es: seq<string>, seps: seq<Separator>, nullness: Nullness, pf: FloatParser,
                    truth: string -> bool, m: Matcher, s: string)
    requires IsRowIn(q, es, seps) && IsOnly(r, "this in " + q)
    ensures Accepts(StringKind, nullness, Keywords(Accumulated(StringKind, [r], pf)), truth, m, JsonText(s))
       <==> s in RowTexts(es, seps)
  {
    assert |es| >= 1 && |seps| == |es| - 1;
    hide AsksList, Accumulated, Keywords, Accepts, RowTexts, RowElements, IsOnly, IsRowIn;
    RowAsked(r, q, es, seps);
    ListOfTexts(r, q, RowElements(es, seps), Texts(RowTexts(es, seps)), nullness, pf, truth, m, s);
    TextsHave(RowTexts(es, seps), s);
  }

  lemma TextsHave(ts: seq<string>, s: string)
    ensures TextValue(s) in Texts(ts) <==> s in ts
  {
    if s in ts {
      var i :| 0 <= i < |ts| && ts[i] == s;
      assert Texts(ts)[i] == TextValue(s);
    }
  }

  lemma RowAsked(r: Rule, q: string, es: seq<string>, seps: seq<Separator>)
    requires IsRowIn(q, es, seps) && IsOnly(r, "this in " + q)
    ensures AsksList(r, q, RowElements(es, seps), Texts(RowTexts(es, seps)))
  {
    RowReads(es, seps);
    RowJoins(es, seps);
    hide Trim, IsOnly, Join, RowTexts, RowText, RowElements, ReadAs;
  }

  // ---- Patterns ----

  /** A pattern of one literal on a string field: the rule asks for the text it denotes, the schema for the text the
    * mapper reads. */
  lemma PatternRead(r: Rule, a: string, b: string, t: string, nullness: Nullness, pf: FloatParser,
                    truth: string -> bool,
                    m: Matcher, s: string)
    requires Trim(a) == "this" && Denotes(Trim(b), t) && IsOnly(r, "matches(" + (a + "," + b) + ")")
    requires Faithful(truth, Seen(TextField(s), m), IsNumeric(StringKind), pf)
    ensures truth("matches(" + (a + "," + b) + ")") <==> m(t, s)
    ensures Accepts(StringKind, nullness, Keywords(Accumulated(StringKind, [r], pf)), truth, m, JsonText(s))
       <==> m(LiteralText(Trim(b)), s)
  {
    hide Trim, IsOnly, Accumulated, Keywords, Denotes, LiteralText, Allows, AllValid;
    var k := EMPTY.(pattern := Some(LiteralText(Trim(b))));
    assert MatchMeaning(truth, Seen(TextField(s), m), a, b, t);
    IsALiteral(Trim(b), t);
    PatternAccumulated(r, a, b, pf);
    KeywordsMean(k, truth, m, JsonText(s));
    PatternAllows(k, truth, m, s);
  }

  lemma PatternTaken(a: string, b: string, numeric: bool, pf: FloatParser)
    requires Trim(a) == "this" && IsLiteral(Trim(b))
    ensures MapConjunct(EMPTY, "matches(" + (a + "," + b) + ")", SizeLength, numeric, pf)
         == (EMPTY.(pattern := Some(LiteralText(Trim(b)))), true)
  {
    LiteralIsSum(Trim(b));
    hide Trim, IsLiteral, LiteralText, MapConjunct, IsSum, Sum, Taken;
    MatchSumTaken(EMPTY, a, b, [Trim(b)], [], SizeLength, numeric, pf);
  }

  lemma PatternAccumulated(r: Rule, a: string, b: string, pf: FloatParser)
    requires Trim(a) == "this" && IsLiteral(Trim(b)) && IsOnly(r, "matches(" + (a + "," + b) + ")")
    ensures Accumulated(StringKind, [r], pf) == EMPTY.(pattern := Some(LiteralText(Trim(b))))
  {
    hide Trim, IsOnly, Accumulated, IsLiteral, LiteralText, MapConjunct;
    PatternTaken(a, b, false, pf);
    AccumulatedTaken(r, "matches(" + (a + "," + b) + ")", EMPTY.(pattern := Some(LiteralText(Trim(b)))), StringKind,
        pf);
  }

  lemma PatternAllows(k: State, truth: string -> bool, m: Matcher, s: string)
    requires k == EMPTY.(pattern := k.pattern) && k.pattern.Some?
    ensures Allows(k, truth, m, JsonText(s)) <==> m(k.pattern.value, s)
  {
  }

  // ---- Texts -------------------------------------------------------------------

  lemma OnlyAt(r: Rule, s: string)
    requires r.source == s && s != "" && !IsSpace(s[0]) && !IsSpace(s[|s| - 1]) && Closed(s, "&&", 0)
    ensures IsOnly(r, s)
  {
    TrimStays(s);
    hide Trim, Closed;
  }

  lemma {:induction false} PassiveRun(t: string, x: string, d: int)
    requires Passive(t, '&')
    ensures Closed(t + x, "&&", d) <==> Closed(x, "&&", d)
    decreases |t|
  {
    if t == "" {
      assert t + x == x;
    } else {
      assert (t + x)[0] == t[0] && (t + x)[1..] == t[1..] + x;
      assert (t + x + "&&")[0] == t[0];
      PassiveRun(t[1..], x, d);
    }
  }

  /** A bracket opens, or closes. */
  lemma BracketRun(c: char, x: string, d: int)
    requires Delta(c) != 0
    ensures Closed([c] + x, "&&", d) <==> Closed(x, "&&", d + Delta(c))
  {
    assert ([c] + x)[1..] == x;
    assert ([c] + x + "&&")[0] == c;
  }

  /** Something in brackets, between passive texts. */
  lemma BracketedCloses(a: string, open: char, inner: string, close: char, b: string)
    requires Passive(a, '&') && Passive(b, '&') && Delta(open) == 1 && Delta(close) == -1
    requires Closed(inner + ([close] + b), "&&", 1) <==> Closed([close] + b, "&&", 1)
    ensures Closed(a + ([open] + (inner + ([close] + b))), "&&", 0)
  {
    PassiveRun(a, [open] + (inner + ([close] + b)), 0);
    BracketRun(open, inner + ([close] + b), 0);
    BracketRun(close, b, 1);
    PassiveCloses(b, "&&");
    hide Closed, Passive;
  }

  const CALL := "this.size"
  const ZERO := "0"
  const EQUAL := "=="

  /** this.size() == num */
  function SizeText(num: string): string
  {
    CALL + (['('] + ("" + ([')'] + (SPACE + EQUAL + (SPACE + num)))))
  }

  function SizeSide(): string
  {
    CALL + "()" + SPACE
  }

  lemma SizeTextIs(num: string)
    requires num != ""
    ensures SizeText(num) == SizeSide() + "==" + (SPACE + num)
    ensures SizeText(num) != "" && SizeText(num)[0] == 't' && SizeText(num)[|SizeText(num)| - 1] == num[|num| - 1]
    ensures CALL + "()" == "this.size()"
  {
  }

  lemma DigitsArePassive(num: string)
    requires Digits(num)
    ensures Passive(num, '&') && forall k :: 0 <= k < |num| ==> !IsSpace(num[k])
  {
    forall k | 0 <= k < |num|
      ensures !IsSpace(num[k]) && !IsQuote(num[k]) && Delta(num[k]) == 0 && num[k] != '&'
    {
      assert IsDigit(num[k]);
    }
  }

  lemma SizeTextCloses(num: string)
    requires Digits(num)
    ensures Closed(SizeText(num), "&&", 0)
  {
    DigitsArePassive(num);
    var b := SPACE + EQUAL + (SPACE + num);
    assert Passive(CALL, '&') && Passive(SPACE, '&') && Passive(EQUAL, '&');
    assert "" + ([')'] + b) == [')'] + b;
    hide Closed, Passive;
    PassiveSum(SPACE, EQUAL, '&');
    PassiveSum(SPACE, num, '&');
    PassiveSum(SPACE + EQUAL, SPACE + num, '&');
    BracketedCloses(CALL, '(', "", ')', b);
  }

  lemma SizeTextSides(num: string)
    requires num != "" && Digits(num)
    ensures Trim(SizeSide()) == "this.size()" && Trim(SPACE + num) == num
  {
    SizeTextIs(num);
    DigitsArePassive(num);
    hide Trim, IsSpace, Passive;
    CallEnds();
    TrimSpaceAfter(CALL + "()");
    TrimSpaceBefore(num);
  }

  lemma CallEnds()
    ensures var s := CALL + "()"; s != "" && !IsSpace(s[0]) && !IsSpace(s[|s| - 1])
  {
  }

  lemma SizeTextAsks(r: Rule, num: string, n: int)
    requires r.source == SizeText(num) && num != "" && Digits(num) && ParseInt64(num) == Some(n)
    ensures AsksSize(r, SizeSide(), SPACE + num, n)
  {
    SizeTextIs(num);
    DigitsArePassive(num);
    SizeTextCloses(num);
    NotSpace('t');
    hide Closed, Trim, SizeText, SizeSide, IsOnly, ParseInt64, Digits, Passive, IsSpace;
    OnlyAt(r, SizeText(num));
    SizeTextSides(num);
  }

  lemma NotSpace(c: char)
    ensures c == 't' || c == ']' || c == ')' || c == 'm' ==> !IsSpace(c)
  {
  }

  const THIRTY_TWO := "32"
  const TEN := "010"

  lemma ThirtyTwo()
    ensures ParseInt64(THIRTY_TWO) == Some(32) && IsDecimal(THIRTY_TWO) && Digits(THIRTY_TWO)
  {
    assert Digits(THIRTY_TWO) && THIRTY_TWO[..1] == "3" && "3"[..0] == "";
    assert Value("3") == 3;
    assert Value(THIRTY_TWO) == 32;
  }

  lemma Ten()
    ensures ParseInt64(TEN) == Some(10) && ProtoInt(TEN) == Some(8) && Digits(TEN)
  {
    assert Digits(TEN) && TEN[..2] == "01" && "01"[..1] == "0" && "0"[..0] == "";
    assert Value("0") == 0 && Value("01") == 1;
    assert AllIn("0", 8) && AllIn("01", 8) && AllIn(TEN, 8);
    assert ValueIn("0", 8) == 0 && ValueIn("01", 8) == 1;
  }

  /** The rule this.size() == 32 on a bytes field: the schema refuses every value of 32 bytes. */
  lemma BytesOf32Refused(r: Rule, nullness: Nullness, pf: FloatParser, truth: string -> bool, m: Matcher, v: FieldValue)
    requires r.source == SizeText(THIRTY_TWO) && v.BytesField? && Faithful(truth, Seen(v, m), IsNumeric(BytesKind), pf)
    ensures truth(r.source) <==> |v.b| == 32
    ensures |v.b| == 32 ==>
              !Accepts(BytesKind, nullness, Keywords(Accumulated(BytesKind, [r], pf)), truth, m, JsonOf(BytesKind, v))
  {
    ThirtyTwo();
    hide AsksSize, SizeText, SizeSide, Faithful, Accepts, Keywords, Accumulated, IsDecimal, Trim, ParseInt64, Digits;
    SizeTextAsks(r, THIRTY_TWO, 32);
    SizeTextIs(THIRTY_TWO);
    SizeTextSides(THIRTY_TWO);
    BytesOfSizeRefused(r, SizeSide(), SPACE + THIRTY_TWO, 32, nullness, pf, truth, m, v);
  }

  /** The rule this.size() == 010 on a string field: it asks for 8 characters, the schema for 10. */
  lemma OctalSizeRead(r: Rule, nullness: Nullness, pf: FloatParser, truth: string -> bool, m: Matcher, s: string)
    requires r.source == SizeText(TEN) && Faithful(truth, Seen(TextField(s), m), IsNumeric(StringKind), pf)
    ensures truth(r.source) <==> |s| == 8
    ensures Accepts(StringKind, nullness, Keywords(Accumulated(StringKind, [r], pf)), truth, m, JsonText(s))
       <==> |s| == 10
  {
    Ten();
    hide AsksSize, SizeText, SizeSide, Faithful, Keywords, Accumulated;
    hide Trim, ParseInt64, ProtoInt, Digits, Allows, AllValid;
    SizeTextAsks(r, TEN, 10);
    SizeTextIs(TEN);
    SizeTextSides(TEN);
    SizeAsked(r, SizeSide(), SPACE + TEN, 10, truth, Seen(TextField(s), m), IsNumeric(StringKind), pf);
    SizeAccumulated(r, SizeSide(), SPACE + TEN, 10, StringKind, pf);
    KeywordsMean(OfSize(10, SizeLength), truth, m, JsonText(s));
    SizedText(10, s, truth, m);
  }

  /** this > 0 */
  function BoundText(): string
  {
    THIS + SPACE + MORE + (SPACE + ZERO)
  }

  lemma BoundTextIs()
    ensures BoundText() != "" && BoundText()[0] == 't' && BoundText()[|BoundText()| - 1] == '0'
    ensures Passive(BoundText(), '&')
  {
  }

  lemma BoundTextAsks(r: Rule, pf: FloatParser)
    requires r.source == BoundText() && pf(ZERO).Some?
    ensures AsksBound(r, THIS + SPACE, MORE, SPACE + ZERO, pf) && ProtoNumber(Trim(SPACE + ZERO), pf) == Some(0.0)
  {
    hide Closed, Trim, Passive, IsOnly, ProtoInt, BoundText;
    BoundTextIs();
    PassiveCloses(BoundText(), "&&");
    OnlyAt(r, BoundText());
    BoundTextSides();
    ZeroIsZero();
  }

  lemma BoundTextSides()
    ensures BoundText() == THIS + SPACE + MORE + (SPACE + ZERO) && IsBound(MORE)
    ensures Trim(THIS + SPACE) == "this" && Trim(SPACE + ZERO) == ZERO && ZERO != "" && ZERO[0] == '0'
  {
    ThisSpaced();
    hide Trim;
    TrimSpaceBefore(ZERO);
  }

  lemma ZeroIsZero()
    ensures ProtoInt(ZERO) == Some(0)
  {
    assert ZERO[..0] == "" && AllIn(ZERO, 8) && ValueIn(ZERO[..0], 8) == 0;
    assert ValueIn(ZERO, 8) == 0;
  }

  /** The rule this > 0 on a 64-bit field: the schema accepts every value of the field. */
  lemma WideAboveZeroLost(r: Rule, kind: FieldKind, nullness: Nullness, pf: FloatParser, truth: string -> bool,
                          m: Matcher,
                          n: int)
    requires r.source == BoundText() && pf(ZERO).Some? && kind.WideKind? && InRange(kind, n)
    requires Faithful(truth, Seen(WholeField(n), m), IsNumeric(kind), pf)
    ensures truth(r.source) <==> n > 0
    ensures Accepts(kind, nullness, Keywords(Accumulated(kind, [r], pf)), truth, m, JsonOf(kind, WholeField(n)))
  {
    hide AsksBound, Faithful, Accepts, Keywords, Accumulated, Trim, ProtoNumber, InRange;
    BoundTextAsks(r, pf);
    WideBoundLost(r, THIS + SPACE, MORE, SPACE + ZERO, kind, nullness, pf, truth, m, n);
  }

  // ---- Literals ----

  const NEWLINE := "\"\\n\""

  const ESCAPED := "\\n"

  lemma EscapedBytes()
    ensures ProtoBytes(ESCAPED) == Some([10]) && !Direct(ESCAPED)
  {
    var s := ESCAPED;
    assert s[2..] == "" && s[0] == '\\' && s[1] == 'n';
    assert EscapeAt(s) == Some(Escape([10], 2));
    assert ProtoBytes("") == Some([]);
    hide EscapeAt;
    assert ProtoBytes(s) == After([10], Some([]));
    var b: Bytes := [10];
    assert b + [] == b;
    assert !IsSelf('n');
  }

  lemma EscapedText()
    ensures Unescape(ESCAPED) == "n" && Utf8("\n") == [10]
  {
    var s := ESCAPED;
    assert s[2..] == "" && Unescape("") == "";
    assert Unescape(s) == [s[1]] + Unescape(s[2..]);
    assert "\n"[1..] == "" && Utf8("") == [];
  }

  lemma NewlineParts()
    ensures Inside(NEWLINE) == ESCAPED && NEWLINE != "" && NEWLINE[0] == '"' && NEWLINE[|NEWLINE| - 1] == '"'
    ensures !IsSpace('"')
  {
  }

  /** The four characters quote, backslash, n, quote denote a line feed, and are read as the letter n. */
  lemma NewlineDenotes()
    ensures Denotes(NEWLINE, "\n") && LiteralText(NEWLINE) == "n" && !IsDirect(NEWLINE) && Trim(NEWLINE) == NEWLINE
  {
    hide Trim, ProtoBytes, Unescape, Utf8, Direct, Inside, IsLiteral, IsSpace;
    NewlineParts();
    NewlineIsLiteral();
    EscapedBytes();
    EscapedText();
    TrimStays(NEWLINE);
  }

  /** matches(this,"\n") */
  function NewlineText(): string
  {
    "matches" + (['('] + ((THIS + "," + NEWLINE) + ([')'] + "")))
  }

  lemma NewlineTextIs()
    ensures NewlineText() == "matches(" + (THIS + "," + NEWLINE) + ")" && NewlineText() != ""
    ensures NewlineText()[0] == 'm' && NewlineText()[|NewlineText()| - 1] == ')'
    ensures Passive("matches", '&') && Passive("", '&') && Passive(THIS + ",", '&')
  {
  }

  lemma NewlineIsLiteral()
    ensures IsLiteral(NEWLINE)
  {
    assert NEWLINE[1..] == "\\n\"" && "\\n\""[2..] == "\"";
  }

  lemma NewlineTextCloses()
    ensures Closed(NewlineText(), "&&", 0)
  {
    NewlineTextIs();
    NewlineIsLiteral();
    hide Closed, Passive, IsLiteral;
    var x := [')'] + "";
    PassiveRun(THIS + ",", NEWLINE + x, 1);
    RuleReading.LiteralCloses(NEWLINE, x, "&&", 1);
    assert THIS + "," + NEWLINE + x == THIS + "," + (NEWLINE + x);
    BracketedCloses("matches", '(', THIS + "," + NEWLINE, ')', "");
  }

  lemma NewlineOnly(r: Rule)
    requires r.source == NewlineText()
    ensures IsOnly(r, "matches(" + (THIS + "," + NEWLINE) + ")") && Trim(THIS) == "this"
  {
    NewlineTextIs();
    NewlineTextCloses();
    NotSpace('m');
    NotSpace(')');
    Ends();
    hide Closed, Trim, NewlineText, Passive, IsSpace;
    OnlyAt(r, NewlineText());
    NotSpaceThis();
    TrimStays(THIS);
  }

  lemma NotSpaceThis()
    ensures !IsSpace(THIS[0]) && !IsSpace(THIS[|THIS| - 1])
  {
  }

  /** The rule matches(this,"\n") on a string field: it asks for a line feed, the schema for the letter n. */
  lemma NewlineRead(r: Rule, nullness: Nullness, pf: FloatParser, truth: string -> bool, m: Matcher, s: string)
    requires r.source == NewlineText() && Faithful(truth, Seen(TextField(s), m), IsNumeric(StringKind), pf)
    ensures truth(r.source) <==> m("\n", s)
    ensures Accepts(StringKind, nullness, Keywords(Accumulated(StringKind, [r], pf)), truth, m, JsonText(s))
       <==> m("n", s)
  {
    hide NewlineText, IsOnly, Trim, Denotes, LiteralText, IsDirect, Faithful, Accepts, Keywords, Accumulated;
    NewlineDenotes();
    NewlineOnly(r);
    NewlineTextIs();
    PatternRead(r, THIS, NEWLINE, "\n", nullness, pf, truth, m, s);
  }

  // ---- Lists at their texts ------------------------------------------------------

  const IN := "this in "
  const TWO_NUMBERS := "1, 2"

  /** this in [1, 2] */
  function NumbersText(): string
  {
    IN + (['['] + (TWO_NUMBERS + ([']'] + "")))
  }

  function NumbersList(): string
  {
    "[" + TWO_NUMBERS + "]"
  }

  lemma NumbersTextIs()
    ensures NumbersText() == "this in " + NumbersList() && NumbersText() != ""
    ensures NumbersText()[0] == 't' && NumbersText()[|NumbersText()| - 1] == ']'
    ensures Passive(IN, '&') && Passive("", '&') && Passive(TWO_NUMBERS, '&')
    ensures NumbersList() != "" && NumbersList()[0] == '[' && NumbersList()[|NumbersList()| - 1] == ']'
    ensures !IsSpace('[')
  {
  }

  lemma NumbersOnly(r: Rule)
    requires r.source == NumbersText()
    ensures IsOnly(r, "this in " + NumbersList()) && Trim(NumbersList()) == NumbersList()
  {
    NumbersTextIs();
    NotSpace('t');
    NotSpace(']');
    hide Closed, Trim, NumbersText, NumbersList, Passive, IsSpace;
    PassiveRun(TWO_NUMBERS, [']'] + "", 1);
    BracketedCloses(IN, '[', TWO_NUMBERS, ']', "");
    NumbersAre();
    OnlyAt(r, NumbersText());
    TrimStays(NumbersList());
  }

  lemma NumbersAre()
    ensures NumbersText() == IN + (['['] + (TWO_NUMBERS + ([']'] + "")))
  {
  }

  lemma OneAndTwo()
    ensures ParseInt64("1") == Some(1) && ProtoInt("1") == Some(1) && Trim("1") == "1"
    ensures ParseInt64("2") == Some(2) && ProtoInt("2") == Some(2) && Trim(" 2") == "2"
  {
    OneTwoText();
    hide Trim, ParseInt64, ProtoInt, IsSpace;
    DigitNumber("1", 1);
    DigitNumber("2", 2);
    TrimStays("1");
    TrimSpaceBefore("2");
  }

  lemma OneTwoText()
    ensures " 2" == SPACE + "2" && "1"[0] == DigitChar(1) && "2"[0] == DigitChar(2)
    ensures !IsSpace("1"[0]) && !IsSpace("2"[0])
  {
  }

  lemma DigitNumber(s: string, n: nat)
    requires |s| == 1 && 0 < n < 10 && s[0] == DigitChar(n)
    ensures ParseInt64(s) == Some(n) && ProtoInt(s) == Some(n)
  {
    assert s[..0] == "" && Value(s[..0]) == 0 && Digits(s);
    assert Value(s) == n;
    assert AllIn(s, 10) && ValueIn(s[..0], 10) == 0;
  }

  lemma NumberReads(el: string, n: int)
    requires ParseInt64(Trim(el)) == Some(n) && ProtoInt(Trim(el)) == Some(n)
    ensures ReadAs(el, WholeValue(n)) && Stands(el, WholeValue(n))
  {
    hide Trim, Written, ParseInt64, ProtoInt, ReadAs;
    IntIsWritten(el, n, n);
    WrittenReads(el, WholeValue(n), WholeValue(n));
  }

  lemma NumbersRead()
    ensures ReadAs("1", WholeValue(1)) && Stands("1", WholeValue(1))
    ensures ReadAs(" 2", WholeValue(2)) && Stands(" 2", WholeValue(2))
  {
    hide Trim, ParseInt64, ProtoInt, ReadAs, Stands;
    OneAndTwo();
    NumberReads("1", 1);
    NumberReads(" 2", 2);
  }

  lemma NumbersJoin()
    ensures NumbersList() == "[" + Join(["1", " 2"], ",") + "]"
  {
    JoinOfTwo(["1", " 2"], ",");
    hide Join;
    assert "1" + "," + " 2" == TWO_NUMBERS;
  }

  lemma NumbersAsked(r: Rule)
    requires r.source == NumbersText()
    ensures AsksList(r, NumbersList(), ["1", " 2"], [WholeValue(1), WholeValue(2)])
    ensures Stands("1", WholeValue(1)) && Stands(" 2", WholeValue(2))
  {
    hide Trim, IsOnly, Join, ReadAs, Stands, NumbersText, NumbersList;
    NumbersOnly(r);
    NumbersRead();
    NumbersJoin();
  }

  /** The rule this in [1, 2] on a 64-bit or an enum field: the schema refuses 1 and 2 and every other value. */
  lemma OneTwoRefused(r: Rule, kind: FieldKind, nullness: Nullness, pf: FloatParser, truth: string -> bool, m: Matcher,
                      v: FieldValue)
    requires r.source == NumbersText() && (kind.WideKind? || kind.EnumKind?) && IsOf(kind, v)
    requires Faithful(truth, Seen(v, m), IsNumeric(kind), pf)
    ensures truth(r.source) <==> NumberOf(v) == Finite(1.0) || NumberOf(v) == Finite(2.0)
    ensures !Accepts(kind, nullness, Keywords(Accumulated(kind, [r], pf)), truth, m, JsonOf(kind, v))
  {
    hide NumbersText, NumbersList, AsksList, Stands, Faithful, Accepts, Keywords, Accumulated, IsOf, Seen;
    NumbersAsked(r);
    NumbersTextIs();
    var vs := [WholeValue(1), WholeValue(2)];
    NumberListRefused(r, NumbersList(), ["1", " 2"], vs, kind, nullness, pf, truth, m, v);
    assert vs[0] in vs && vs[1] in vs;
  }

  const LITERAL_A := "\"a\""
  const LITERAL_B := "\"b\""

  /** this in ["a"] || this in ["b"] */
  function OrInText(): string
  {
    IN + (['['] + (LITERAL_A + ([']'] + (OR_IN + (['['] + (LITERAL_B + ([']'] + "")))))))
  }

  function OrInList(): string
  {
    "[" + (LITERAL_A + (Glue(Link(OR_IN)) + LITERAL_B)) + "]"
  }

  lemma LettersDenote()
    ensures Denotes(LITERAL_A, "a") && Denotes(LITERAL_B, "b") && IsDirect(LITERAL_A) && IsDirect(LITERAL_B)
    ensures Trim(LITERAL_A) == LITERAL_A && Trim(LITERAL_B) == LITERAL_B
  {
    LetterDenotes(LITERAL_A, 'a');
    LetterDenotes(LITERAL_B, 'b');
  }

  lemma LetterDenotes(l: string, c: char)
    requires |l| == 3 && l[0] == '"' && l[2] == '"' && l[1] == c && (c == 'a' || c == 'b')
    ensures Denotes(l, [c]) && IsDirect(l) && Trim(l) == l
  {
    assert l[1..][1..] == ['"'] && l[1..][1..][1..] == "";
    assert LiteralTail(['"'], '"') == Some(1);
    var s := Inside(l);
    assert s == [c] && s[1..] == "";
    assert Direct("") && ProtoBytes("") == Some([]) && Utf8("") == [];
    assert Utf8([c]) == Utf8Char(c) + Utf8([c][1..]);
    TrimStays(l);
    hide Trim;
  }

  lemma OrInShape(i: string, a: string, o: string, b: string)
    ensures i + (['['] + (a + ([']'] + (o + (['['] + (b + ([']'] + "")))))))
         == i + ("[" + (a + ("]" + (o + "[") + b)) + "]")
  {
  }

  lemma OrInTextIs()
    ensures OrInText() == "this in " + OrInList() && OrInText() != ""
    ensures OrInText()[0] == 't' && OrInText()[|OrInText()| - 1] == ']'
    ensures OrInList() != "" && OrInList()[0] == '[' && OrInList()[|OrInList()| - 1] == ']' && !IsSpace('[')
    ensures Passive(IN, '&') && Passive(OR_IN, '&')
  {
    hide Passive, IsSpace;
    OrInShape(IN, LITERAL_A, OR_IN, LITERAL_B);
    OrInEnds(IN, LITERAL_A + (Glue(Link(OR_IN)) + LITERAL_B));
    OrInPassive();
  }

  lemma OrInEnds(i: string, inner: string)
    requires i != ""
    ensures var s := "[" + inner + "]"; s != "" && s[0] == '[' && s[|s| - 1] == ']'
    ensures var s := i + ("[" + inner + "]"); s != "" && s[0] == i[0] && s[|s| - 1] == ']'
  {
  }

  lemma OrInPassive()
    ensures Passive(IN, '&') && Passive(OR_IN, '&') && IN[0] == 't' && !IsSpace('[')
  {
  }

  lemma OrInTextCloses()
    requires IsLiteral(LITERAL_A) && IsLiteral(LITERAL_B) && Passive(IN, '&') && Passive(OR_IN, '&')
    ensures Closed(OrInText(), "&&", 0)
  {
    hide Closed, IsLiteral, Passive;
    NothingClosed();
    var e := [']'] + "";
    BracketRun(']', "", 1);
    RuleReading.LiteralCloses(LITERAL_B, e, "&&", 1);
    var d := ['['] + (LITERAL_B + e);
    BracketRun('[', LITERAL_B + e, 0);
    PassiveRun(OR_IN, d, 0);
    BracketRun(']', OR_IN + d, 1);
    var c := [']'] + (OR_IN + d);
    RuleReading.LiteralCloses(LITERAL_A, c, "&&", 1);
    BracketRun('[', LITERAL_A + c, 0);
    PassiveRun(IN, ['['] + (LITERAL_A + c), 0);
  }

  lemma NothingClosed()
    ensures Closed("", "&&", 0)
  {
  }

  lemma OrInLiterals()
    ensures IsLiteral(LITERAL_A) && IsLiteral(LITERAL_B) && Trim(LITERAL_A) == LITERAL_A && Trim(LITERAL_B) == LITERAL_B
  {
    hide Trim, IsLiteral, Denotes, IsDirect;
    LettersDenote();
    IsALiteral(LITERAL_A, "a");
    IsALiteral(LITERAL_B, "b");
  }

  lemma OrInOnly(r: Rule)
    requires r.source == OrInText()
    ensures IsOnly(r, "this in " + OrInList()) && IsRowIn(OrInList(), [LITERAL_A, LITERAL_B], [Link(OR_IN)])
  {
    hide Closed, Trim, OrInText, OrInList, Passive, IsSpace, IsLiteral, RowText, IsLink, IsOnly;
    OrInTextIs();
    OrInLiterals();
    NotSpace('t');
    NotSpace(']');
    OrIsLink();
    OrInTextCloses();
    OnlyAt(r, OrInText());
    TrimStays(OrInList());
    OrInIs();
  }

  lemma OrInIs()
    ensures OrInList() == "[" + RowText([LITERAL_A, LITERAL_B], [Link(OR_IN)]) + "]"
  {
    assert [LITERAL_A, LITERAL_B][1..] == [LITERAL_B];
    assert [Link(OR_IN)][1..] == [];
  }

  /** One literal in a list. */
  function OneList(l: string): string
  {
    "[" + l + "]"
  }

  lemma OneListTrims(l: string)
    ensures Trim(OneList(l)) == OneList(l)
  {
    NotSpace(']');
    var s := OneList(l);
    assert s[0] == '[' && s[|s| - 1] == ']' && !IsSpace('[');
    hide Trim, IsSpace;
    TrimStays(s);
  }

  lemma OneListMeans(l: string, t: string, truth: string -> bool, x: Subject, numeric: bool, pf: FloatParser)
    requires Denotes(l, t) && Trim(l) == l && Faithful(truth, x, numeric, pf)
    ensures truth("this in " + OneList(l)) <==> x.isValue(TextValue(t))
  {
    hide Trim, Denotes, IsOne;
    OneListTrims(l);
    var els, vs := [l], [TextValue(t)];
    assert Join(els, ",") == l;
    hide Join;
    assert Stands(els[0], vs[0]);
    assert OneKind(vs);
    IsOneOfOne(TextValue(t), x);
    assert ListMeaning(truth, x, OneList(l), els, vs);
  }

  /** The rule this in ["a"] || this in ["b"] on a string field: the schema accepts one text only, and that is neither
    * a nor b. */
  lemma OrInRefused(r: Rule, nullness: Nullness, pf: FloatParser, truth: string -> bool, m: Matcher, s: string)
    requires r.source == OrInText() && Faithful(truth, Seen(TextField(s), m), IsNumeric(StringKind), pf)
    requires truth(r.source) <==> truth("this in " + OneList(LITERAL_A)) || truth("this in " + OneList(LITERAL_B))
    ensures truth(r.source) <==> s == "a" || s == "b"
    ensures Accepts(StringKind, nullness, Keywords(Accumulated(StringKind, [r], pf)), truth, m, JsonText(s)) ==>
              s != "a" && s != "b"
  {
    hide OrInText, OrInList, IsOnly, IsRowIn, Accepts, Keywords, RowTexts;
    hide Accumulated, Denotes, IsDirect, Trim, Faithful, OneList;
    OrInOnly(r);
    LettersDenote();
    OneListMeans(LITERAL_A, "a", truth, Seen(TextField(s), m), IsNumeric(StringKind), pf);
    OneListMeans(LITERAL_B, "b", truth, Seen(TextField(s), m), IsNumeric(StringKind), pf);
    OrListsRead(r, OrInList(), [LITERAL_A, LITERAL_B], [Link(OR_IN)], nullness, pf, truth, m, s);
    OrInRead();
  }

  /** The one text that is read holds more than a letter. */
  lemma OrInRead()
    ensures forall s :: s in RowTexts([LITERAL_A, LITERAL_B], [Link(OR_IN)]) ==> |s| > 1
  {
    hide Trim, LiteralText, Middle;
    PairText(LITERAL_A, Link(OR_IN), LITERAL_B);
  }

  /** No list of elements of known meaning is the list of that rule. */
  lemma OrInNoList(els: seq<string>, vs: seq<EnumValue>)
    requires OrInList() == "[" + Join(els, ",") + "]"
    ensures !StandAll(els, vs)
  {
    if StandAll(els, vs) {
      OrInSplit(els, vs);
      OrInStands(els[0], vs[0]);
    }
  }

  lemma OrInElement() returns (e: string)
    ensures e == LITERAL_A + (Glue(Link(OR_IN)) + LITERAL_B)
    ensures RowElements([LITERAL_A, LITERAL_B], [Link(OR_IN)]) == [e]
  {
    e := LITERAL_A + (Glue(Link(OR_IN)) + LITERAL_B);
    assert [LITERAL_A, LITERAL_B][1..] == [LITERAL_B];
    assert [Link(OR_IN)][1..] == [];
  }

  /** The elements are one, from the first literal to the second. */
  lemma OrInSplit(els: seq<string>, vs: seq<EnumValue>)
    requires OrInList() == "[" + Join(els, ",") + "]" && StandAll(els, vs)
    ensures els == [LITERAL_A + (Glue(Link(OR_IN)) + LITERAL_B)]
  {
    var es, seps := [LITERAL_A, LITERAL_B], [Link(OR_IN)];
    LettersDenote();
    OrIsLink();
    IsALiteral(LITERAL_A, "a");
    IsALiteral(LITERAL_B, "b");
    OrInIs();
    hide Trim, Closed, Join, IsLiteral, Denotes, IsDirect, IsLink;
    hide Stands, OneKind, RowText, RowElements, RowTexts, Glue, SplitTop, OrInList;
    var e := OrInElement();
    RowJoins(es, seps);
    var w, q, z := RowQuoted(es, seps, 0);
    forall i | 0 <= i < |els|
      ensures Closed(els[i], ",", 0)
    {
      StandsCloses(els[i], vs[i]);
    }
    SameBetween(Join(els, ","), RowText(es, seps));
    SplitOfJoin(els, ",");
    SplitOfJoin([e], ",");
  }

  lemma SameBetween(s: string, t: string)
    requires "[" + s + "]" == "[" + t + "]"
    ensures s == t
  {
    assert s == ("[" + s + "]")[1..|s| + 1] && t == ("[" + t + "]")[1..|t| + 1];
    assert |"[" + s + "]"| == |s| + 2 && |"[" + t + "]"| == |t| + 2;
  }

  lemma OrInStands(e: string, v: EnumValue)
    requires e == LITERAL_A + (Glue(Link(OR_IN)) + LITERAL_B)
    ensures !Stands(e, v)
  {
    AfterLiteral(e);
    hide Trim, ProtoBytes, Utf8, LiteralTail, IsSpace;
    TrimStays(e);
    if v.WholeValue? && Stands(e, v) {
      ProtoIntIsCalm(e);
    }
  }

  /** The literal ends at its second quote. */
  lemma AfterLiteral(e: string)
    requires e == LITERAL_A + (Glue(Link(OR_IN)) + LITERAL_B)
    ensures |e| > 3 && e[0] == '"' && !IsSpace(e[0]) && !IsSpace(e[|e| - 1]) && LiteralTail(e[1..], '"') == Some(2)
  {
    QuoteEnds(Glue(Link(OR_IN)), e);
    QuoteIsNoSpace();
    hide IsSpace;
    assert LiteralTail(e[2..], '"') == Some(1);
    assert e[1..][1..] == e[2..];
  }

  lemma QuoteEnds(g: string, e: string)
    requires e == LITERAL_A + (g + LITERAL_B)
    ensures |e| > 3 && e[0] == '"' && e[1] == 'a' && e[2] == '"' && e[|e| - 1] == '"'
  {
  }

  lemma OrInHasNoOperator(lhs: string, op: string, rhs: string)
    requires IsOperator(op)
    ensures lhs + op + rhs != OrInText()
  {
    var s := OrInText();
    assert op[0] in "<>=";
    assert forall k :: 0 <= k < |s| ==> s[k] !in "<>=";
    assert (lhs + op + rhs)[|lhs|] == op[0];
  }

  lemma OrInIsNoOther(a: string, r: string)
    ensures "matches(" + a + ")" != OrInText()
    ensures "this in " + r == OrInText() ==> r == OrInList()
    ensures OrInText() != "this in " + OneList(LITERAL_A) && OrInText() != "this in " + OneList(LITERAL_B)
  {
    OrInTextIs();
    assert ("matches(" + a + ")")[0] == 'm';
    assert ("this in " + r)[8..] == r && ("this in " + OrInList())[8..] == OrInList();
  }

  /** A faithful truth under which the rule means what it says. */
  lemma OrInTruth(x: Subject, numeric: bool, pf: FloatParser) returns (truth: string -> bool)
    requires Reasonable(pf)
    ensures Faithful(truth, x, numeric, pf)
    ensures truth(OrInText()) <==> truth("this in " + OneList(LITERAL_A)) || truth("this in " + OneList(LITERAL_B))
  {
    hide Faithful, Says, Reasonable, OrInText, OrInList, OneList, Trim;
    var says := FaithfulExists(x, numeric, pf);
    var either := says("this in " + OneList(LITERAL_A)) || says("this in " + OneList(LITERAL_B));
    truth := s => if s == OrInText() then either else says(s);
    OrInIsNoOther("", "");
    OrInFaithful(says, truth, x, numeric, pf);
  }

  lemma OrInFaithful(says: string -> bool, truth: string -> bool, x: Subject, numeric: bool, pf: FloatParser)
    requires Faithful(says, x, numeric, pf) && forall s :: s != OrInText() ==> truth(s) == says(s)
    ensures Faithful(truth, x, numeric, pf)
  {
    OrInIsNoOther("", "");
    OrInTrims();
    hide OrInText, OrInList, Trim, Join, Denotes, Stands, OneKind, IsOperator, IsSize, ProtoInt, ProtoNumber, IsOne;
    hide SizeHolds, NumberHolds;
    forall a: string, b: string, t: string
      ensures MatchMeaning(truth, x, a, b, t)
    {
      assert MatchMeaning(says, x, a, b, t);
      OrInIsNoOther(a + "," + b, "");
    }
    forall r: string, els: seq<string>, vs: seq<EnumValue>
      ensures ListMeaning(truth, x, r, els, vs)
    {
      assert ListMeaning(says, x, r, els, vs);
      OrInIsNoOther("", r);
      if r == OrInList() && Trim(r) == "[" + Join(els, ",") + "]" {
        OrInNoList(els, vs);
      }
    }
    forall lhs: string, op: string, rhs: string
      ensures SizeMeaning(truth, x, lhs, op, rhs) && (numeric ==> NumberMeaning(truth, x, lhs, op, rhs, pf))
    {
      assert SizeMeaning(says, x, lhs, op, rhs) && (numeric ==> NumberMeaning(says, x, lhs, op, rhs, pf));
      if IsOperator(op) {
        OrInHasNoOperator(lhs, op, rhs);
      }
    }
  }

  lemma OrInTrims()
    ensures Trim(OrInList()) == OrInList()
  {
    OrInTextIs();
    NotSpace(']');
    hide Trim, IsSpace, OrInList;
    TrimStays(OrInList());
  }
}
