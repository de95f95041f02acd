/** When a conjunct is taken in, whatever has been accumulated before it, and what
  * it changes (internal/openapi/validate.go:86-198). */
module RuleTaken {
  import opened Options
  import opened GoText
  import opened Decimals
  import opened RuleText
  import opened RuleLexical
  import opened RuleMapper
  import opened RuleReading
  import opened RuleLimits
  import opened RuleTruth
  import opened JsonValues
  import opened RuleConstraints
  import opened RuleFields
  import opened RuleExamples

  // ---- Bounds on numbers ----

  predicate IsUpper(op: string)
  {
    op == "<=" || op == "<"
  }

  predicate IsLower(op: string)
  {
    op == ">=" || op == ">"
  }

  /** A comparison of the subject with a text. */
  ghost predicate Compares(s: string, subject: string, op: string, number: string)
  {
    exists lhs, rhs :: s == lhs + op + rhs && Trim(lhs) == subject && Trim(rhs) == number && IsOperator(op)
                       && (number != "" ==> number[0] != '=')
  }

  lemma ThisIsNoSize()
    ensures !IsSize("this")
  {
    assert |"this"| == 4 && |"this.size()"| == 11 && |"size(this)"| == 10;
  }

  lemma ComparesMapped(k: State, s: string, subject: string, op: string, number: string, sk: SizeKind, numeric: bool,
                       pf: FloatParser)
    requires Compares(s, subject, op, number) && (IsSize(subject) || subject == "this")
    ensures MapConjunct(k, s, sk, numeric, pf) == MapComparison(k, subject, op, number, sk, numeric, pf)
  {
    hide Trim, IsSize, IsOperator, MapConjunct, MapComparison;
    var lhs, rhs :| s == lhs + op + rhs && Trim(lhs) == subject && Trim(rhs) == number && IsOperator(op)
                    && (number != "" ==> number[0] != '=');
    ComparisonMapped(k, lhs, op, rhs, sk, numeric, pf);
  }

  /** A bound on the number is taken in exactly when the number is read and no bound of its own side is set; it sets
    * that bound and nothing else. */
  lemma NumberTakenIff(k: State, s: string, op: string, number: string, sk: SizeKind, numeric: bool, pf: FloatParser)
    requires Compares(s, "this", op, number)
    ensures var (r, taken) := MapConjunct(k, s, sk, numeric, pf);
            && (taken <==> numeric && pf(number).Some?
                           && ((IsUpper(op) && k.nMax.None?) || (IsLower(op) && k.nMin.None?)))
            && (!taken ==> r == k)
            && (taken && IsUpper(op) ==> r == k.(nMax := Some(Bound(pf(number).value, op == "<"))))
            && (taken && IsLower(op) ==> r == k.(nMin := Some(Bound(pf(number).value, op == ">"))))
  {
    hide MapConjunct, Compares, IsSize;
    ThisIsNoSize();
    ComparesMapped(k, s, "this", op, number, sk, numeric, pf);
  }

  // ---- Bounds on sizes ----

  /** n as a 64-bit integer. */
  ghost predicate Wrapped(n: int, w: int)
  {
    -0x8000_0000_0000_0000 <= w < 0x8000_0000_0000_0000 && (w - n) % 0x1_0000_0000_0000_0000 == 0
  }

  /** A bound on the size is taken in exactly when the integer is read and the bounds it sets are not set yet: both
    * of them for ==, of which the least is set even when the greatest is not free. */
  lemma SizeTakenIff(k: State, s: string, subject: string, op: string, number: string, sk: SizeKind, numeric: bool,
                     pf: FloatParser)
    requires Compares(s, subject, op, number) && (subject == "this.size()" || subject == "size(this)")
    ensures var (r, taken) := MapConjunct(k, s, sk, numeric, pf);
            var n := ParseInt(number);
            var read := n.Some? && -0x8000_0000_0000_0000 <= n.value < 0x8000_0000_0000_0000;
            && (taken <==> sk != SizeNone && read && (IsUpper(op) ==> k.max.None?) && (IsLower(op) ==> k.min.None?)
                           && (op == "==" ==> k.min.None? && k.max.None?))
            && (sk == SizeNone || !read ==> r == k)
            && (sk != SizeNone && read ==>
                  && r == k.(sk := sk, min := r.min, max := r.max)
                  && (IsUpper(op) ==> r.min == k.min)
                  && (IsLower(op) ==> r.max == k.max)
                  && (k.min.Some? ==> r.min == k.min && (op == "==" ==> r.max == k.max))
                  && (k.max.Some? ==> r.max == k.max)
                  && (op == "<=" && k.max.None? ==> r.max == n)
                  && (op == "<" && k.max.None? ==> r.max.Some? && Wrapped(n.value - 1, r.max.value))
                  && (op == ">=" && k.min.None? ==> r.min == n)
                  && (op == ">" && k.min.None? ==> r.min.Some? && Wrapped(n.value + 1, r.min.value))
                  && (op == "==" && k.min.None? ==> r.min == n && (k.max.None? ==> r.max == n)))
  {
    hide MapConjunct, Compares, ParseInt;
    ComparesMapped(k, s, subject, op, number, sk, numeric, pf);
    ComparesOperator(s, subject, op, number);
  }

  lemma ComparesOperator(s: string, subject: string, op: string, number: string)
    requires Compares(s, subject, op, number)
    ensures IsUpper(op) || IsLower(op) || op == "=="
  {
  }

  // ---- Patterns and lists ----

  /** A pattern is taken in exactly when none is set; it sets the pattern and nothing else. */
  lemma PatternTakenIff(k: State, a: string, b: string, ls: seq<string>, ps: seq<string>, sk: SizeKind, numeric: bool,
                        pf: FloatParser)
    requires Trim(a) == "this" && IsSum(ls, ps) && Trim(b) == Sum(ls, ps)
    ensures var (r, taken) := MapConjunct(k, "matches(" + (a + "," + b) + ")", sk, numeric, pf);
            && (taken <==> k.pattern.None?)
            && r == if taken then k.(pattern := Some(RuleReading.Taken(ls, ps))) else k
  {
    hide Trim, RawArgs, Unquote, IsSum, IsChain, Sum, RuleReading.Taken;
    MatchFound(a, b, ls, ps);
    SumIsChain(ls, ps);
    UnquoteOfSum(ls, ps);
  }

  /** A list is taken in exactly when none is set; it sets the list and nothing else. */
  lemma ListTakenIff(k: State, q: string, els: seq<string>, vs: seq<EnumValue>, sk: SizeKind, numeric: bool,
                     pf: FloatParser)
    requires |els| == |vs| >= 1 && forall i :: 0 <= i < |els| ==> ReadAs(els[i], vs[i])
    requires Trim(q) == "[" + Join(els, ",") + "]"
    ensures var (r, taken) := MapConjunct(k, "this in " + q, sk, numeric, pf);
            && (taken <==> k.enum.None?)
            && r == if taken then k.(enum := Some(vs)) else k
  {
    hide Trim, Join, ReadAs, RawArgs, ListElements, Elements;
    if k.enum.None? {
      hide MapConjunct;
      ListTaken(k, q, els, vs, sk, numeric, pf);
    } else {
      NoCall(q);
      TextAfterIn(q);
    }
  }

  lemma TextAfterIn(q: string)
    ensures HasPrefix("this in " + q, "this in ")
  {
  }

  // ---- Rules one after another ----

  /** Conjuncts in two parts are taken in one part after the other, and what is left over of the first comes first. */
  lemma {:induction false} ConjunctsInTurn(k: State, ps: seq<string>, qs: seq<string>, sk: SizeKind, numeric: bool,
                                           pf: FloatParser)
    ensures var (r, left) := MapConjuncts(k, ps, sk, numeric, pf);
            var (s, more) := MapConjuncts(r, qs, sk, numeric, pf);
            MapConjuncts(k, ps + qs, sk, numeric, pf) == (s, left + more)
  {
    hide MapConjunct, Trim;
    var (r, left) := MapConjuncts(k, ps, sk, numeric, pf);
    if qs == [] {
      assert ps + qs == ps && left + [] == left;
    } else {
      var u, l := qs[..|qs| - 1], qs[|qs| - 1];
      assert ps + qs == (ps + u) + [l];
      assert (ps + qs)[..|ps + qs| - 1] == ps + u && (ps + qs)[|ps + qs| - 1] == l;
      ConjunctsInTurn(k, ps, u, sk, numeric, pf);
      var (s, more) := MapConjuncts(r, u, sk, numeric, pf);
      assert left + more + [Trim(l)] == left + (more + [Trim(l)]);
    }
  }

  /** One conjunct: left over, trimmed, exactly when it is blank or not taken in. */
  lemma OneConjunct(k: State, p: string, sk: SizeKind, numeric: bool, pf: FloatParser)
    ensures var (r, left) := MapConjuncts(k, [p], sk, numeric, pf);
            var (s, taken) := MapConjunct(k, Trim(p), sk, numeric, pf);
            && r == (if Trim(p) == "" then k else s)
            && left == if Trim(p) != "" && taken then [] else [Trim(p)]
  {
    hide MapConjunct, Trim;
    assert [p][..0] == [];
    assert MapConjuncts(k, [], sk, numeric, pf) == (k, []);
    assert [] + [Trim(p)] == [Trim(p)];
  }

  /** A rule is a conjunction of texts without && of their own. */
  ghost predicate IsAnd(r: Rule, ps: seq<string>)
  {
    |ps| >= 1 && Trim(r.source) == Join(ps, "&&") && forall i :: 0 <= i < |ps| ==> Closed(ps[i], "&&", 0)
  }

  /** The rules left over of one that is a conjunction are its conjuncts not taken in, with its code and message. */
  lemma RuleOfAnd(k: State, r: Rule, ps: seq<string>, sk: SizeKind, numeric: bool, pf: FloatParser)
    requires IsAnd(r, ps)
    ensures var (s, left) := MapConjuncts(k, ps, sk, numeric, pf);
            MapRule(k, r, sk, numeric, pf) == s.(unmapped := s.unmapped + Leftovers(left, r))
  {
    hide Trim, Closed, MapConjuncts, SplitTop;
    SplitOfJoin(ps, "&&");
  }

  // ---- The order of the keywords ----

  /** The place of a keyword in a schema. */
  function Place(key: Key): nat
  {
    match key
    case Pattern => 0
    case Enum => 1
    case MinLength | MinItems | MinProperties => 2
    case MaxLength | MaxItems | MaxProperties => 3
    case Minimum | ExclusiveMinimum => 4
    case Maximum | ExclusiveMaximum => 5
    case XValidation => 6
  }

  ghost predicate Ordered(ws: seq<Keyword>)
  {
    forall i, j :: 0 <= i < j < |ws| ==> Place(ws[i].key) < Place(ws[j].key)
  }

  lemma OrderedAdd(ws: seq<Keyword>, c: bool, w: Keyword, n: nat)
    requires Ordered(ws) && (forall v :: v in ws ==> Place(v.key) < n) && Place(w.key) == n
    ensures Ordered(ws + When(c, w)) && forall v :: v in ws + When(c, w) ==> Place(v.key) < n + 1
  {
  }

  /** The keywords stand in one order, each at most once. */
  lemma KeywordsOrdered(k: State)
    ensures Ordered(Keywords(k))
  {
    var a := When(k.pattern.Some?, Keyword(Pattern, Text(GetOr(k.pattern, ""))));
    var e := Keyword(Enum, Values(GetOr(k.enum, [])));
    var x, n := Keyword(MinKey(k.sk), Whole(GetOr(k.min, 0))), Keyword(MaxKey(k.sk), Whole(GetOr(k.max, 0)));
    var v := Keyword(XValidation, Validations(k.unmapped));
    var low, high := Low(k), High(k);
    var s := ShapeWords(k);
    hide Ordered, When;
    var none: seq<Keyword> := [];
    assert Ordered(none) by { NothingOrdered(); }
    OrderedAdd(none, k.pattern.Some?, Keyword(Pattern, Text(GetOr(k.pattern, ""))), 0);
    assert none + a == a;
    OrderedAdd(a, k.enum.Some?, e, 1);
    OrderedAdd(a + When(k.enum.Some?, e), k.min.Some?, x, 2);
    OrderedAdd(a + When(k.enum.Some?, e) + When(k.min.Some?, x), k.max.Some?, n, 3);
    OrderedAdd(s, k.nMin.Some?, low, 4);
    OrderedAdd(s + When(k.nMin.Some?, low), k.nMax.Some?, high, 5);
    assert s + When(k.nMin.Some?, low) + When(k.nMax.Some?, high) == s + NumberWords(k);
    OrderedAdd(s + NumberWords(k), k.unmapped != [], v, 6);
  }

  lemma NothingOrdered()
    ensures Ordered([])
  {
  }

  // ---- Ranges ----

  function LowWord(op: string, v: real): Keyword
  {
    Keyword(if op == ">" then ExclusiveMinimum else Minimum, Number(v))
  }

  function HighWord(op: string, v: real): Keyword
  {
    Keyword(if op == "<" then ExclusiveMaximum else Maximum, Number(v))
  }

  /** The conjuncts are a lower and an upper bound, in either order. */
  ghost predicate IsRange(ps: seq<string>, above: string, low: string, below: string, high: string)
  {
    && |ps| == 2 && IsLower(above) && IsUpper(below)
    && ((Compares(Trim(ps[0]), "this", above, low) && Compares(Trim(ps[1]), "this", below, high))
        || (Compares(Trim(ps[1]), "this", above, low) && Compares(Trim(ps[0]), "this", below, high)))
  }

  function RangeState(above: string, low: real, below: string, high: real): State
  {
    EMPTY.(nMin := Some(Bound(low, above == ">")), nMax := Some(Bound(high, below == "<")))
  }

  lemma ComparesSomething(s: string, subject: string, op: string, number: string)
    requires Compares(s, subject, op, number)
    ensures s != ""
  {
    hide Trim;
  }

  /** Two bounds in a row are both taken in. */
  lemma BothTaken(p: string, q: string, op: string, v: string, oq: string, w: string, sk: SizeKind, pf: FloatParser)
    requires Compares(Trim(p), "this", op, v) && Compares(Trim(q), "this", oq, w)
    requires pf(v).Some? && pf(w).Some? && ((IsLower(op) && IsUpper(oq)) || (IsUpper(op) && IsLower(oq)))
    ensures MapConjuncts(EMPTY, [p, q], sk, true, pf)
              == (if IsLower(op) then RangeState(op, pf(v).value, oq, pf(w).value)
                  else RangeState(oq, pf(w).value, op, pf(v).value), [])
  {
    hide Trim, MapConjunct, MapConjuncts, Compares;
    ComparesSomething(Trim(p), "this", op, v);
    ComparesSomething(Trim(q), "this", oq, w);
    OneConjunct(EMPTY, p, sk, true, pf);
    NumberTakenIff(EMPTY, Trim(p), op, v, sk, true, pf);
    var k := MapConjunct(EMPTY, Trim(p), sk, true, pf).0;
    OneConjunct(k, q, sk, true, pf);
    NumberTakenIff(k, Trim(q), oq, w, sk, true, pf);
    var none: seq<string> := [];
    assert [p] + [q] == [p, q] && none + none == none;
    ConjunctsInTurn(EMPTY, [p], [q], sk, true, pf);
  }

  lemma RangeMapped(ps: seq<string>, above: string, low: string, below: string, high: string, sk: SizeKind,
                    pf: FloatParser)
    requires IsRange(ps, above, low, below, high) && pf(low).Some? && pf(high).Some?
    ensures MapConjuncts(EMPTY, ps, sk, true, pf) == (RangeState(above, pf(low).value, below, pf(high).value), [])
  {
    hide Trim, MapConjuncts, Compares, RangeState;
    assert ps == [ps[0], ps[1]];
    if Compares(Trim(ps[0]), "this", above, low) && Compares(Trim(ps[1]), "this", below, high) {
      BothTaken(ps[0], ps[1], above, low, below, high, sk, pf);
    } else {
      BothTaken(ps[0], ps[1], below, high, above, low, sk, pf);
    }
  }

  /** A rule of a lower and an upper bound is translated to just these two keywords: nothing is left over. */
  lemma RangeTranslated(r: Rule, ps: seq<string>, above: string, low: string, below: string, high: string,
                        sk: SizeKind, pf: FloatParser)
    requires IsAnd(r, ps) && IsRange(ps, above, low, below, high) && pf(low).Some? && pf(high).Some?
    ensures Keywords(MapRules([r], sk, true, pf)) == [LowWord(above, pf(low).value), HighWord(below, pf(high).value)]
  {
    hide IsAnd, IsRange, MapConjuncts, MapRule;
    assert [r][..0] == [];
    RuleOfAnd(EMPTY, r, ps, sk, true, pf);
    RangeMapped(ps, above, low, below, high, sk, pf);
    RangeWords(above, pf(low).value, below, pf(high).value, r);
    OneRule(r, sk, true, pf);
  }

  lemma OneRule(r: Rule, sk: SizeKind, numeric: bool, pf: FloatParser)
    ensures MapRules([r], sk, numeric, pf) == MapRule(EMPTY, r, sk, numeric, pf)
  {
    hide MapRule;
    assert [r][..0] == [];
    assert MapRules([], sk, numeric, pf) == EMPTY;
  }

  lemma RangeWords(above: string, low: real, below: string, high: real, r: Rule)
    ensures var k := RangeState(above, low, below, high);
            && k.(unmapped := k.unmapped + Leftovers([], r)) == k
            && Keywords(k) == [LowWord(above, low), HighWord(below, high)]
  {
    assert [] + Leftovers([], r) == [];
  }

  /** A number as text: no quote, bracket, ampersand or white space, and no equals sign first. */
  ghost predicate IsNumberText(t: string)
  {
    Passive(t, '&') && t != "" && t[0] != '=' && !IsSpace(t[0]) && !IsSpace(t[|t| - 1])
  }

  /** this op number */
  function BoundOf(op: string, number: string): string
  {
    THIS + SPACE + op + (SPACE + number)
  }

  lemma BoundOfCompares(op: string, number: string)
    requires IsNumberText(number) && IsOperator(op)
    ensures Compares(BoundOf(op, number), "this", op, number)
  {
    hide Trim, IsSpace, Passive;
    ThisSpaced();
    TrimSpaceBefore(number);
  }

  lemma BoundOfShape(op: string, number: string)
    requires IsNumberText(number) && IsOperator(op)
    ensures var s := BoundOf(op, number);
            && Passive(s, '&') && s != "" && !IsSpace(s[0]) && !IsSpace(s[|s| - 1])
  {
    PartsArePassive();
    assert Passive(op, '&');
    hide Passive;
    PassiveSum(THIS, SPACE, '&');
    PassiveSum(THIS + SPACE, op, '&');
    PassiveSum(SPACE, number, '&');
    PassiveSum(THIS + SPACE + op, SPACE + number, '&');
    NotSpace('t');
  }

  /** Two bounds with an && between. */
  function RangeText(above: string, low: string, below: string, high: string): string
  {
    BoundOf(above, low) + SPACE + "&&" + (SPACE + BoundOf(below, high))
  }

  lemma RangeTextIsAnd(r: Rule, above: string, low: string, below: string, high: string)
    requires IsNumberText(low) && IsNumberText(high) && IsLower(above) && IsUpper(below)
    requires r.source == RangeText(above, low, below, high)
    ensures var ps := [BoundOf(above, low) + SPACE, SPACE + BoundOf(below, high)];
            IsAnd(r, ps) && IsRange(ps, above, low, below, high)
  {
    hide Trim, Closed, Passive, IsSpace, IsNumberText, Compares, BoundOf;
    var a, b := BoundOf(above, low), BoundOf(below, high);
    BoundOfShape(above, low);
    BoundOfShape(below, high);
    BoundOfCompares(above, low);
    BoundOfCompares(below, high);
    TrimSpaceAfter(a);
    TrimSpaceBefore(b);
    PartsArePassive();
    PassiveSum(a, SPACE, '&');
    PassiveSum(SPACE, b, '&');
    PassiveCloses(a + SPACE, "&&");
    PassiveCloses(SPACE + b, "&&");
    JoinOfTwo([a + SPACE, SPACE + b], "&&");
    TrimStays(r.source);
  }

  const FROM := "0.0"
  const UP_TO := "1.0"

  lemma NumbersAreText()
    ensures IsNumberText(FROM) && IsNumberText(UP_TO)
  {
  }

  /** The rule this >= 0.0 && this <= 1.0: a minimum of 0, a maximum of 1, and nothing besides. */
  lemma UnitRangeTranslated(r: Rule, sk: SizeKind, pf: FloatParser)
    requires r.source == RangeText(">=", FROM, "<=", UP_TO) && pf(FROM) == Some(0.0) && pf(UP_TO) == Some(1.0)
    ensures Keywords(MapRules([r], sk, true, pf)) == [Keyword(Minimum, Number(0.0)), Keyword(Maximum, Number(1.0))]
  {
    NumbersAreText();
    hide IsAnd, IsRange, IsNumberText, RangeText;
    RangeTextIsAnd(r, ">=", FROM, "<=", UP_TO);
    var ps := [BoundOf(">=", FROM) + SPACE, SPACE + BoundOf("<=", UP_TO)];
    RangeTranslated(r, ps, ">=", FROM, "<=", UP_TO, sk, pf);
  }
}
