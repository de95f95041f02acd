/** Translating validation rules to JSON Schema keywords (sections 6.1.2 and 6.2
    to 6.5 of JSON Schema Validation 2020-12), and why a value meets the keywords
    and the rules left over exactly when it meets the rules. */
module RuleMapper {
  import opened Options
  import opened GoText
  import opened Decimals
  import opened RuleText
  import opened RuleLexical

  datatype SizeKind = SizeLength | SizeItems | SizeProps | SizeNone

  datatype EnumValue = TextValue(text: string) | WholeValue(n: int)

  datatype Bound = Bound(v: real, exclusive: bool)

  /** A rule carried through under x-validation. */
  datatype Leftover = Leftover(rule: string, code: string, message: string)

  /** The keywords accumulated for one schema target. */
  datatype State = State(
    pattern: Option<string>,
    min: Option<int>,
    max: Option<int>,
    sk: SizeKind,
    nMin: Option<Bound>,
    nMax: Option<Bound>,
    enum: Option<seq<EnumValue>>,
    unmapped: seq<Leftover>)

  const EMPTY := State(None, None, None, SizeLength, None, None, None, [])

  /** How numbers are read: integers in decimal, and numbers with a fraction in a way left open. */
  type FloatParser = pf: string -> Option<real> | ReadsIntegers(pf) ghost witness s => None

  ghost predicate ReadsIntegers(pf: string -> Option<real>)
  {
    forall s :: pf(s).Some? && IsIntText(s) ==> ParseInt(s).Some? && pf(s).value == ParseInt(s).value as real
  }

  /** An integer literal, or digits that are none. */
  predicate IsIntText(s: string)
  {
    ProtoInt(s).Some? || ParseInt(s).Some?
  }

  /** The number a text denotes in the rule language. */
  function ProtoNumber(s: string, pf: FloatParser): Option<real>
  {
    if IsIntText(s) then
      match ProtoInt(s) case None => None case Some(n) => Some(n as real)
    else pf(s)
  }

  const INT64 := 0x8000_0000_0000_0000

  function ParseInt64(s: string): Option<int>
  {
    match ParseInt(s)
    case None => None
    case Some(n) => if -INT64 <= n < INT64 then Some(n) else None
  }

  /** n as a 64-bit integer wraps around. */
  function Wrap(n: int): int
  {
    if n >= INT64 then n - 2 * INT64 else if n < -INT64 then n + 2 * INT64 else n
  }

  // ---- The mapping ---------------------------------------------------------

  function SetMin(k: State, n: int): (State, bool)
  {
    if k.min.Some? then (k, false) else (k.(min := Some(n)), true)
  }

  function SetMax(k: State, n: int): (State, bool)
  {
    if k.max.Some? then (k, false) else (k.(max := Some(n)), true)
  }

  function MapSize(k0: State, op: string, n: int, sk: SizeKind): (State, bool)
  {
    var k := k0.(sk := sk);
    if op == "<=" then SetMax(k, n)
    else if op == "<" then SetMax(k, Wrap(n - 1))
    else if op == ">=" then SetMin(k, n)
    else if op == ">" then SetMin(k, Wrap(n + 1))
    else if op == "==" then
      var (k1, ok) := SetMin(k, n);
      if ok then SetMax(k1, n) else (k1, false)
    else (k, false)
  }

  function MapNumeric(k: State, op: string, v: real): (State, bool)
  {
    if op == "<=" || op == "<" then
      if k.nMax.Some? then (k, false) else (k.(nMax := Some(Bound(v, op == "<"))), true)
    else if op == ">=" || op == ">" then
      if k.nMin.Some? then (k, false) else (k.(nMin := Some(Bound(v, op == ">"))), true)
    else (k, false)
  }

  /** The value of one element of an enum list. */
  function Element(el: string): Option<EnumValue>
  {
    var t := Trim(el);
    match Unquote(t)
    case Some(s) => Some(TextValue(s))
    case None =>
      match ParseInt64(t)
      case None => None
      case Some(n) => Some(WholeValue(n))
  }

  function Elements(els: seq<string>): Option<seq<EnumValue>>
  {
    if els == [] then Some([])
    else
      var u, l := Elements(els[..|els| - 1]), Element(els[|els| - 1]);
      if u.None? || l.None? then None else Some(u.value + [l.value])
  }

  lemma {:induction false} ElementsAre(els: seq<string>)
    requires Elements(els).Some?
    ensures |Elements(els).value| == |els|
    ensures forall i :: 0 <= i < |els| ==> Element(els[i]) == Some(Elements(els).value[i])
  {
    hide Element;
    if els != [] {
      ElementsAre(els[..|els| - 1]);
    }
  }

  /** The elements between the brackets of a list. */
  function ListElements(list: string): Option<seq<string>>
  {
    if |list| >= 2 && list[0] == '[' && list[|list| - 1] == ']' then Some(SplitTop(list[1..|list| - 1], ","))
    else None
  }

  function MapEnum(k: State, list: string): (State, bool)
  {
    var els := ListElements(list);
    var vs := if els.None? then None else Elements(els.value);
    if vs.None? || vs.value == [] || k.enum.Some? then (k, false) else (k.(enum := vs), true)
  }

  /** One conjunct: the keywords with it taken in, and whether it was. */
  function MapConjunct(k: State, s: string, sk: SizeKind, numeric: bool, pf: FloatParser): (State, bool)
  {
    var args := RawArgs(s, "matches");
    if args.Some? && |args.value| == 2 && Trim(args.value[0]) == "this" then
      var re := Unquote(Trim(args.value[1]));
      if re.Some? && k.pattern.None? then (k.(pattern := re), true) else (k, false)
    else if HasPrefix(s, "this in ") then MapEnum(k, Trim(s[8..]))
    else
      match Compared(s, 0, "")
      case None => (k, false)
      case Some(c) => MapComparison(k, Trim(c.lhs), c.op, Trim(c.rhs), sk, numeric, pf)
  }

  function MapComparison(k: State, lhs: string, op: string, rhs: string, sk: SizeKind, numeric: bool, pf: FloatParser)
    : (State, bool)
  {
    if IsSize(lhs) then
      if sk == SizeNone || ParseInt64(rhs).None? then (k, false) else MapSize(k, op, ParseInt64(rhs).value, sk)
    else if lhs == "this" then
      if !numeric || pf(rhs).None? then (k, false) else MapNumeric(k, op, pf(rhs).value)
    else (k, false)
  }

  predicate IsSize(lhs: string)
  {
    lhs == "this.size()" || lhs == "size(this)"
  }

  /** All conjuncts of a rule in turn, and those left over. */
  function MapConjuncts(k: State, parts: seq<string>, sk: SizeKind, numeric: bool, pf: FloatParser)
    : (State, seq<string>)
  {
    if parts == [] then (k, [])
    else
      var (k1, left) := MapConjuncts(k, parts[..|parts| - 1], sk, numeric, pf);
      var s := Trim(parts[|parts| - 1]);
      var (k2, ok) := MapConjunct(k1, s, sk, numeric, pf);
      if s == "" then (k1, left + [s])
      else if ok then (k2, left)
      else (k2, left + [s])
  }

  datatype Rule = Rule(source: string, code: string, message: string)

  function Leftovers(left: seq<string>, r: Rule): (ls: seq<Leftover>)
    ensures |ls| == |left| && forall i :: 0 <= i < |left| ==> ls[i] == Leftover(left[i], r.code, r.message)
  {
    seq(|left|, i requires 0 <= i < |left| => Leftover(left[i], r.code, r.message))
  }

  function MapRule(k: State, r: Rule, sk: SizeKind, numeric: bool, pf: FloatParser): State
  {
    var (k1, left) := MapConjuncts(k, SplitTop(Trim(r.source), "&&"), sk, numeric, pf);
    k1.(unmapped := k1.unmapped + Leftovers(left, r))
  }

  function MapRules(rs: seq<Rule>, sk: SizeKind, numeric: bool, pf: FloatParser): State
  {
    if rs == [] then EMPTY else MapRule(MapRules(rs[..|rs| - 1], sk, numeric, pf), rs[|rs| - 1], sk, numeric, pf)
  }

  // ---- Meaning -------------------------------------------------------------

  /** The number a value is. */
  datatype Number = NoNumber | Finite(v: real) | PlusInfinity | MinusInfinity | NotANumber

  /** What a rule can see of a value: its size, its number, whether a pattern matches it, whether it is a given
    * value. What its kind has not got makes a rule that asks for it fail. */
  datatype Subject = Subject(size: Option<int>, num: Number, matches: string -> bool, isValue: EnumValue -> bool)

  ghost predicate SizeHolds(op: string, x: Subject, n: int)
  {
    x.size.Some? && Holds(op, x.size.value as real, n as real)
  }

  /** Comparison by section 5.11 of IEEE 754-2008: infinities are ordered, and what is not a number is not. */
  ghost predicate NumberHolds(op: string, x: Subject, c: real)
  {
    match x.num
    case Finite(v) => Holds(op, v, c)
    case PlusInfinity => op == ">" || op == ">="
    case MinusInfinity => op == "<" || op == "<="
    case _ => false
  }

  /** What the accumulated bounds ask of a value when they are read as rules are. */
  ghost predicate Meets(k: State, x: Subject)
  {
    && (k.pattern.Some? ==> x.matches(k.pattern.value))
    && (k.min.Some? ==> SizeHolds(">=", x, k.min.value))
    && (k.max.Some? ==> SizeHolds("<=", x, k.max.value))
    && (k.nMin.Some? ==> NumberHolds(if k.nMin.value.exclusive then ">" else ">=", x, k.nMin.value.v))
    && (k.nMax.Some? ==> NumberHolds(if k.nMax.value.exclusive then "<" else "<=", x, k.nMax.value.v))
    && (k.enum.Some? ==> IsOne(k.enum.value, x))
  }

  ghost predicate IsOne(vs: seq<EnumValue>, x: Subject)
  {
    exists i :: 0 <= i < |vs| && x.isValue(vs[i])
  }

  ghost predicate Holds(op: string, a: real, b: real)
  {
    if op == "<=" then a <= b
    else if op == "<" then a < b
    else if op == ">=" then a >= b
    else if op == ">" then a > b
    else a == b
  }

  /** A call of matches, when its pattern denotes t. */
  ghost predicate MatchMeaning(truth: string -> bool, x: Subject, a: string, b: string, t: string)
  {
    Trim(a) == "this" && Denotes(Trim(b), t) ==> truth("matches(" + (a + "," + b) + ")") == x.matches(t)
  }

  /** What an element of a list denotes: a text, or an integer. */
  predicate Stands(el: string, v: EnumValue)
  {
    match v
    case TextValue(t) => Denotes(Trim(el), t)
    case WholeValue(n) => ProtoInt(Trim(el)) == Some(n)
  }

  /** All texts, or all integers. */
  predicate OneKind(vs: seq<EnumValue>)
  {
    (forall v :: v in vs ==> v.TextValue?) || (forall v :: v in vs ==> v.WholeValue?)
  }

  ghost predicate ListMeaning(truth: string -> bool, x: Subject, r: string, els: seq<string>, vs: seq<EnumValue>)
  {
    Trim(r) == "[" + Join(els, ",") + "]" && |vs| == |els| > 0 && OneKind(vs)
    && (forall i :: 0 <= i < |els| ==> Stands(els[i], vs[i]))
    ==> truth("this in " + r) == IsOne(vs, x)
  }

  ghost predicate SizeMeaning(truth: string -> bool, x: Subject, lhs: string, op: string, rhs: string)
  {
    IsSize(Trim(lhs)) && IsOperator(op) && ProtoInt(Trim(rhs)).Some?
    ==> truth(lhs + op + rhs) == SizeHolds(op, x, ProtoInt(Trim(rhs)).value)
  }

  ghost predicate NumberMeaning(truth: string -> bool, x: Subject, lhs: string, op: string, rhs: string,
                                pf: FloatParser)
  {
    Trim(lhs) == "this" && IsOperator(op) && ProtoNumber(Trim(rhs), pf).Some?
    ==> truth(lhs + op + rhs) == NumberHolds(op, x, ProtoNumber(Trim(rhs), pf).value)
  }

  /** truth gives every conjunct of a known shape its meaning in the rule language; of others nothing is known. */
  ghost predicate Faithful(truth: string -> bool, x: Subject, numeric: bool, pf: FloatParser)
  {
    && (forall a, b, t :: MatchMeaning(truth, x, a, b, t))
    && (forall r, els, vs :: ListMeaning(truth, x, r, els, vs))
    && (forall lhs, op, rhs :: SizeMeaning(truth, x, lhs, op, rhs))
    && (numeric ==> forall lhs, op, rhs :: NumberMeaning(truth, x, lhs, op, rhs, pf))
  }

  /** What the mapper reads in s is what s denotes: whatever it unquotes is one literal without other escapes than
    * a character's own, integers are decimal, a list is of one kind, and no size bound wraps around. */
  predicate Plain(s: string)
  {
    PlainMatch(s) && PlainList(s) && PlainSize(s) && PlainNumber(s)
  }

  /** What is unquoted is read as what it denotes. */
  predicate PlainText(t: string)
  {
    Unquote(t).Some? ==> IsLiteral(t) && IsDirect(t)
  }

  predicate PlainMatch(s: string)
  {
    var args := RawArgs(s, "matches");
    args.Some? && |args.value| == 2 ==> PlainText(Trim(args.value[1]))
  }

  predicate PlainElement(el: string)
  {
    PlainText(Trim(el)) && (ParseInt64(Trim(el)).Some? ==> IsDecimal(Trim(el)))
  }

  predicate PlainList(s: string)
  {
    HasPrefix(s, "this in ") ==>
      var els := ListElements(Trim(s[8..]));
      els.Some? ==>
        && (forall i :: 0 <= i < |els.value| ==> PlainElement(els.value[i]))
        && (Elements(els.value).Some? ==> OneKind(Elements(els.value).value))
  }

  predicate PlainSize(s: string)
  {
    var c := Compared(s, 0, "");
    c.Some? && IsSize(Trim(c.value.lhs)) && ParseInt64(Trim(c.value.rhs)).Some? ==>
      && IsDecimal(Trim(c.value.rhs))
      && !Wraps(c.value.op, ParseInt64(Trim(c.value.rhs)).value)
  }

  predicate PlainNumber(s: string)
  {
    var c := Compared(s, 0, "");
    c.Some? && ParseInt(Trim(c.value.rhs)).Some? ==> IsDecimal(Trim(c.value.rhs))
  }

  /** Adding or taking one wraps around. */
  predicate Wraps(op: string, n: int)
  {
    (op == "<" && n == -INT64) || (op == ">" && n == INT64 - 1)
  }

  // ---- One conjunct --------------------------------------------------------

  /** A conjunct taken in adds exactly its meaning to the keywords; one not taken in
      adds no more than that. */
  ghost predicate Keeps(k: State, r: (State, bool), x: Subject, t: bool)
  {
    && (r.1 ==> (Meets(r.0, x) <==> Meets(k, x) && t))
    && (!r.1 ==> (Meets(r.0, x) && t <==> Meets(k, x) && t))
    && r.0.unmapped == k.unmapped
  }

  /** A comparison of integers is one of the same numbers. */
  lemma SizeHoldsIs(op: string, x: Subject, n: int)
    requires IsOperator(op)
    ensures SizeHolds(op, x, n) <==> x.size.Some? && IntHolds(op, x.size.value, n)
  {
  }

  predicate IntHolds(op: string, a: int, b: int)
  {
    if op == "<=" then a <= b
    else if op == "<" then a < b
    else if op == ">=" then a >= b
    else if op == ">" then a > b
    else a == b
  }

  lemma MeetsMin(k: State, n: int, sk: SizeKind, x: Subject)
    ensures var r := SetMin(k.(sk := sk), n);
            && (r.1 ==> (Meets(r.0, x) <==> Meets(k, x) && SizeHolds(">=", x, n)))
                 && (!r.1 ==> (Meets(r.0, x) <==> Meets(k, x)))
            && r.0.unmapped == k.unmapped
  {
    hide SizeHolds, NumberHolds, IsOne;
  }

  lemma MeetsMax(k: State, n: int, sk: SizeKind, x: Subject)
    ensures var r := SetMax(k.(sk := sk), n);
            && (r.1 ==> (Meets(r.0, x) <==> Meets(k, x) && SizeHolds("<=", x, n)))
                 && (!r.1 ==> (Meets(r.0, x) <==> Meets(k, x)))
            && r.0.unmapped == k.unmapped
  {
    hide SizeHolds, NumberHolds, IsOne;
  }

  lemma SizeKeeps(k: State, op: string, n: int, sk: SizeKind, x: Subject)
    requires IsOperator(op) && -INT64 <= n < INT64
    requires !Wraps(op, n)
    ensures Keeps(k, MapSize(k, op, n, sk), x, SizeHolds(op, x, n))
  {
    hide SizeHolds, Meets, SetMin, SetMax;
    SizeHoldsIs(op, x, n);
    if op == "<=" || op == "<" {
      var m := if op == "<" then Wrap(n - 1) else n;
      MeetsMax(k, m, sk, x);
      SizeHoldsIs("<=", x, m);
    } else if op == ">=" || op == ">" {
      var m := if op == ">" then Wrap(n + 1) else n;
      MeetsMin(k, m, sk, x);
      SizeHoldsIs(">=", x, m);
    } else {
      MeetsMin(k, n, sk, x);
      SizeHoldsIs(">=", x, n);
      SizeHoldsIs("<=", x, n);
      var k1 := SetMin(k.(sk := sk), n).0;
      MeetsMax(k1, n, k1.sk, x);
    }
  }

  /** A size bound keeps its meaning for every value exactly when its number is read as the one it denotes and
    * adding or taking one does not wrap around. */
  lemma SizeKeepsIff(op: string, rhs: string, sk: SizeKind)
    requires IsOperator(op) && ParseInt64(rhs).Some? && ProtoInt(rhs).Some?
    ensures (forall x: Subject ::
               Keeps(EMPTY, MapSize(EMPTY, op, ParseInt64(rhs).value, sk), x, SizeHolds(op, x, ProtoInt(rhs).value)))
       <==> IsDecimal(rhs) && !Wraps(op, ParseInt64(rhs).value)
  {
    var n, p := ParseInt64(rhs).value, ProtoInt(rhs).value;
    ParseIntIff(rhs, n, p);
    hide ParseInt64, ProtoInt, IsDecimal;
    if n == p && !Wraps(op, n) {
      forall x: Subject
        ensures Keeps(EMPTY, MapSize(EMPTY, op, n, sk), x, SizeHolds(op, x, p))
      {
        SizeKeeps(EMPTY, op, n, sk, x);
      }
    } else {
      var size := SizeApart(op, n, p);
      var x := Subject(Some(size), NoNumber, s => false, v => false);
      SizeMeets(op, n, sk, x);
      assert !Keeps(EMPTY, MapSize(EMPTY, op, n, sk), x, SizeHolds(op, x, p));
    }
  }

  /** A size at which the bound as written and the bound as denoted differ. */
  lemma SizeApart(op: string, n: int, p: int) returns (size: int)
    requires IsOperator(op) && -INT64 <= n < INT64 && (n != p || Wraps(op, n)) && (0 <= p <= n || n <= p <= 0)
    ensures SizeBound(op, n, size) != Holds(op, size as real, p as real)
  {
    if Wraps(op, n) {
      size := p;
    } else if n < p {
      size := if op == "<" || op == ">=" then n else n + 1;
      if op == "==" {
        size := n;
      }
    } else {
      size := if op == "<" || op == ">=" then p else p + 1;
      if op == "==" {
        size := p;
      }
    }
  }

  /** What the written bound asks of a size. */
  predicate SizeBound(op: string, n: int, size: int)
  {
    if op == "<=" then size <= n
    else if op == "<" then size <= Wrap(n - 1)
    else if op == ">=" then size >= n
    else if op == ">" then size >= Wrap(n + 1)
    else size == n
  }

  lemma SizeMeets(op: string, n: int, sk: SizeKind, x: Subject)
    requires IsOperator(op) && x.size.Some?
    ensures MapSize(EMPTY, op, n, sk).1 && (Meets(MapSize(EMPTY, op, n, sk).0, x) <==> SizeBound(op, n, x.size.value))
    ensures Meets(EMPTY, x)
  {
  }

  lemma NumericKeeps(k: State, op: string, v: real, x: Subject)
    requires IsOperator(op)
    ensures Keeps(k, MapNumeric(k, op, v), x, NumberHolds(op, x, v))
  {
  }

  /** A numeric bound keeps its meaning for every value exactly when it is none, or its number is read as the one it
    * denotes. */
  lemma NumericKeepsIff(op: string, rhs: string, pf: FloatParser)
    requires IsOperator(op) && pf(rhs).Some? && ProtoNumber(rhs, pf).Some?
    ensures (forall x: Subject ::
               Keeps(EMPTY, MapNumeric(EMPTY, op, pf(rhs).value), x, NumberHolds(op, x, ProtoNumber(rhs, pf).value)))
       <==> op == "==" || (ParseInt(rhs).Some? ==> IsDecimal(rhs))
  {
    var v, w := pf(rhs).value, ProtoNumber(rhs, pf).value;
    if ParseInt(rhs).Some? {
      ParseIntIff(rhs, ParseInt(rhs).value, ProtoInt(rhs).value);
    }
    hide ParseInt, ProtoInt, IsDecimal;
    if op == "==" || v == w {
      forall x: Subject
        ensures Keeps(EMPTY, MapNumeric(EMPTY, op, v), x, NumberHolds(op, x, w))
      {
        NumericKeeps(EMPTY, op, v, x);
        NoBound(op, v, x);
      }
    } else {
      var at := if v < w then (if op == "<" || op == ">=" then v else w) else if op == "<" || op == ">=" then w else v;
      var x := Subject(None, Finite(at), s => false, v => false);
      assert !Keeps(EMPTY, MapNumeric(EMPTY, op, v), x, NumberHolds(op, x, w));
    }
  }

  lemma NoBound(op: string, v: real, x: Subject)
    ensures op == "==" ==> MapNumeric(EMPTY, op, v) == (EMPTY, false) && Meets(EMPTY, x)
  {
  }

  lemma {:induction false} LiteralCloses(s: string, quote: char)
    requires LiteralTail(s, quote).Some?
    ensures s[LiteralTail(s, quote).value - 1] == quote
  {
    if s[0] == '\\' {
      LiteralCloses(s[2..], quote);
    } else if s[0] != quote {
      LiteralCloses(s[1..], quote);
    }
  }

  /** A single literal's text is what unquoting it gives. */
  lemma UnquoteOfLiteral(s: string)
    requires IsLiteral(s)
    ensures Unquote(s) == Some(LiteralText(s))
  {
    hide LiteralTail;
    LiteralCloses(s[1..], '"');
  }

  lemma MatchKeeps(k: State, s: string, truth: string -> bool, x: Subject)
    requires forall a, b, t :: MatchMeaning(truth, x, a, b, t)
    requires PlainMatch(s)
    requires var args := RawArgs(s, "matches");
             args.Some? && |args.value| == 2 && Trim(args.value[0]) == "this"
    ensures var re := Unquote(Trim(RawArgs(s, "matches").value[1]));
            Keeps(k, if re.Some? && k.pattern.None? then (k.(pattern := re), true) else (k, false), x, truth(s))
  {
    hide Trim, IsLiteral, RawArgs, Denotes, IsDirect, LiteralText, Unquote;
    var args := RawArgs(s, "matches").value;
    RawArgsSplit(s, "matches");
    JoinOfTwo(args, ",");
    var l := Trim(args[1]);
    assert "matches" + "(" == "matches(";
    assert s == "matches(" + (args[0] + "," + args[1]) + ")";
    if Unquote(l).Some? {
      UnquoteOfLiteral(l);
      LiteralTextIff(l);
      assert MatchMeaning(truth, x, args[0], args[1], LiteralText(l));
    }
  }

  lemma JoinOfTwo(ps: seq<string>, sep: string)
    requires |ps| == 2
    ensures Join(ps, sep) == ps[0] + sep + ps[1]
  {
    assert ps[1..] == [ps[1]];
  }

  /** A plain element that is read stands for what it is read as. */
  lemma PlainStands(el: string, v: EnumValue)
    requires PlainElement(el) && Element(el) == Some(v)
    ensures Stands(el, v)
  {
    hide Trim, IsLiteral, Denotes, IsDirect, LiteralText, Unquote, ParseInt, ProtoInt, IsDecimal;
    var t := Trim(el);
    if Unquote(t).Some? {
      UnquoteOfLiteral(t);
      LiteralTextIff(t);
    } else {
      DecimalMeans(t);
    }
  }

  lemma ListKeeps(k: State, s: string, truth: string -> bool, x: Subject)
    requires forall r, els, vs :: ListMeaning(truth, x, r, els, vs)
    requires HasPrefix(s, "this in ") && PlainList(s)
    ensures Keeps(k, MapEnum(k, Trim(s[8..])), x, truth(s))
  {
    hide Trim, Stands, PlainElement, SplitTop, Elements, Element, OneKind, ListElements;
    var list := Trim(s[8..]);
    var els := ListElements(list);
    if els.Some? && Elements(els.value).Some? && Elements(els.value).value != [] {
      var vs := Elements(els.value).value;
      ListIsJoin(list);
      ElementsAre(els.value);
      forall i | 0 <= i < |vs|
        ensures Stands(els.value[i], vs[i])
      {
        PlainStands(els.value[i], vs[i]);
      }
      assert ListMeaning(truth, x, s[8..], els.value, vs);
      assert s == "this in " + s[8..];
    }
  }

  lemma ListIsJoin(list: string)
    requires ListElements(list).Some?
    ensures list == "[" + Join(ListElements(list).value, ",") + "]"
  {
    var inner := list[1..|list| - 1];
    SplitIsJoin(inner);
    hide SplitTop, Join;
    Bracketed(list);
  }

  lemma SplitIsJoin(s: string)
    ensures Join(SplitTop(s, ","), ",") == s
  {
    JoinOfPieces(s, ",", 0, "");
    hide Pieces, Join;
    assert "" + s == s;
  }

  lemma Bracketed(list: string)
    requires |list| >= 2 && list[0] == '[' && list[|list| - 1] == ']'
    ensures list == "[" + list[1..|list| - 1] + "]"
  {
  }

  lemma ComparisonKeeps(k: State, s: string, sk: SizeKind, numeric: bool, pf: FloatParser,
                        truth: string -> bool, x: Subject)
    requires forall lhs, op, rhs :: SizeMeaning(truth, x, lhs, op, rhs)
    requires numeric ==> forall lhs, op, rhs :: NumberMeaning(truth, x, lhs, op, rhs, pf)
    requires PlainSize(s) && PlainNumber(s) && Compared(s, 0, "").Some?
    ensures var c := Compared(s, 0, "").value;
            Keeps(k, MapComparison(k, Trim(c.lhs), c.op, Trim(c.rhs), sk, numeric, pf), x, truth(s))
  {
    hide Trim, Compared, MapSize, MapNumeric, SizeHolds, NumberHolds, IsSize, IsOperator, IsDecimal, ProtoInt, ParseInt;
    var c := Compared(s, 0, "").value;
    ComparedSplits(s, 0, "");
    assert "" + s == s;
    var rhs := Trim(c.rhs);
    if IsSize(Trim(c.lhs)) {
      if sk != SizeNone && ParseInt64(rhs).Some? {
        DecimalMeans(rhs);
        assert SizeMeaning(truth, x, c.lhs, c.op, c.rhs);
        SizeKeeps(k, c.op, ParseInt64(rhs).value, sk, x);
      }
    } else if Trim(c.lhs) == "this" && numeric && pf(rhs).Some? {
      DecimalNumber(rhs, pf);
      assert NumberMeaning(truth, x, c.lhs, c.op, c.rhs, pf);
      NumericKeeps(k, c.op, pf(rhs).value, x);
    }
  }

  /** A decimal integer is read as the one it denotes. */
  lemma DecimalNumber(s: string, pf: FloatParser)
    requires pf(s).Some? && (ParseInt(s).Some? ==> IsDecimal(s))
    ensures ProtoNumber(s, pf) == pf(s)
  {
    hide IsDecimal, ProtoInt, ParseInt;
    if IsIntText(s) {
      DecimalMeans(s);
    }
  }

  lemma ConjunctKeeps(k: State, s: string, sk: SizeKind, numeric: bool, pf: FloatParser,
                      truth: string -> bool, x: Subject)
    requires Faithful(truth, x, numeric, pf) && Plain(s)
    ensures Keeps(k, MapConjunct(k, s, sk, numeric, pf), x, truth(s))
  {
    hide Trim, Compared, RawArgs, MapComparison, MapEnum, PlainMatch, PlainList, PlainSize, PlainNumber, Unquote;
    var args := RawArgs(s, "matches");
    if args.Some? && |args.value| == 2 && Trim(args.value[0]) == "this" {
      MatchKeeps(k, s, truth, x);
    } else if HasPrefix(s, "this in ") {
      ListKeeps(k, s, truth, x);
    } else if Compared(s, 0, "").Some? {
      ComparisonKeeps(k, s, sk, numeric, pf, truth, x);
    }
  }

  // ---- Rules ---------------------------------------------------------------

  ghost predicate AllTrue(truth: string -> bool, ss: seq<string>)
  {
    forall i :: 0 <= i < |ss| ==> truth(ss[i])
  }

  lemma {:induction false} ConjunctsKeep(k: State, parts: seq<string>, sk: SizeKind, numeric: bool, pf: FloatParser,
                                         truth: string -> bool, x: Subject)
    requires Faithful(truth, x, numeric, pf)
    requires forall i :: 0 <= i < |parts| ==> Plain(Trim(parts[i]))
    ensures var r := MapConjuncts(k, parts, sk, numeric, pf);
            && (Meets(r.0, x) && AllTrue(truth, r.1) <==> Meets(k, x) && AllTrue(truth, TrimAll(parts)))
            && r.0.unmapped == k.unmapped
  {
    hide Trim, MapConjunct, Faithful, Plain, Meets;
    if parts != [] {
      var n := |parts| - 1;
      ConjunctsKeep(k, parts[..n], sk, numeric, pf, truth, x);
      var r := MapConjuncts(k, parts[..n], sk, numeric, pf);
      var s := Trim(parts[n]);
      ConjunctKeeps(r.0, s, sk, numeric, pf, truth, x);
      assert TrimAll(parts) == TrimAll(parts[..n]) + [s];
      AllTrueAppend(truth, TrimAll(parts[..n]), s);
      AllTrueAppend(truth, r.1, s);
    }
  }

  lemma AllTrueAppend(truth: string -> bool, ss: seq<string>, s: string)
    ensures AllTrue(truth, ss + [s]) <==> AllTrue(truth, ss) && truth(s)
  {
    if AllTrue(truth, ss + [s]) {
      forall i | 0 <= i < |ss|
        ensures truth(ss[i])
      {
        assert ss[i] == (ss + [s])[i];
      }
      assert (ss + [s])[|ss|] == s;
    }
  }

  /** The keywords hold of x, and so do the rules carried through. */
  ghost predicate Satisfied(k: State, truth: string -> bool, x: Subject)
  {
    Meets(k, x) && forall i :: 0 <= i < |k.unmapped| ==> truth(k.unmapped[i].rule)
  }

  /** The top level of the rule is the conjunction of parts: its text is theirs
      joined by &&, and it is true exactly when they all are. */
  ghost predicate Conjunction(truth: string -> bool, r: Rule, parts: seq<string>)
  {
    && |parts| >= 1
    && Trim(r.source) == Join(parts, "&&")
    && (forall i :: 0 <= i < |parts| ==> Closed(parts[i], "&&", 0) && Plain(Trim(parts[i])))
    && (truth(r.source) <==> AllTrue(truth, TrimAll(parts)))
  }

  lemma MeetsWithout(k: State, u: seq<Leftover>, x: Subject)
    ensures Meets(k.(unmapped := u), x) <==> Meets(k, x)
  {
  }

  /** The pieces between the &&s that the mapper sees at the top of a rule. */
  function PiecesOf(r: Rule): seq<string>
  {
    TrimAll(SplitTop(Trim(r.source), "&&"))
  }

  ghost predicate PlainPieces(r: Rule)
  {
    forall i :: 0 <= i < |PiecesOf(r)| ==> Plain(PiecesOf(r)[i])
  }

  /** Whatever a rule means, its translation means that all its pieces are true. */
  lemma RuleMeansPieces(k: State, r: Rule, sk: SizeKind, numeric: bool, pf: FloatParser,
                        truth: string -> bool, x: Subject)
    requires Faithful(truth, x, numeric, pf) && PlainPieces(r)
    ensures Satisfied(MapRule(k, r, sk, numeric, pf), truth, x)
       <==> Satisfied(k, truth, x) && AllTrue(truth, PiecesOf(r))
  {
    hide Trim, MapConjuncts, Faithful, Plain, Meets, SplitTop;
    var parts := SplitTop(Trim(r.source), "&&");
    forall i | 0 <= i < |parts|
      ensures Plain(Trim(parts[i]))
    {
      assert Plain(PiecesOf(r)[i]);
    }
    ConjunctsKeep(k, parts, sk, numeric, pf, truth, x);
    var c := MapConjuncts(k, parts, sk, numeric, pf);
    MeetsWithout(c.0, c.0.unmapped + Leftovers(c.1, r), x);
    var m := MapRule(k, r, sk, numeric, pf);
    var n := |k.unmapped|;
    if Satisfied(m, truth, x) {
      forall i | 0 <= i < n
        ensures truth(k.unmapped[i].rule)
      {
        assert m.unmapped[i] == k.unmapped[i];
      }
      forall i | 0 <= i < |c.1|
        ensures truth(c.1[i])
      {
        assert m.unmapped[n + i].rule == c.1[i];
      }
    }
    if Satisfied(k, truth, x) && AllTrue(truth, TrimAll(parts)) {
      forall i | 0 <= i < |m.unmapped|
        ensures truth(m.unmapped[i].rule)
      {
        if i < n {
          assert m.unmapped[i] == k.unmapped[i];
        } else {
          assert m.unmapped[i].rule == c.1[i - n];
        }
      }
    }
  }

  lemma ConjunctionPieces(truth: string -> bool, r: Rule, parts: seq<string>)
    requires Conjunction(truth, r, parts)
    ensures PiecesOf(r) == TrimAll(parts) && PlainPieces(r)
  {
    hide Trim, Plain, Closed, Join, SplitTop;
    SplitOfJoin(parts, "&&");
  }

  lemma RuleKeeps(k: State, r: Rule, parts: seq<string>, sk: SizeKind, numeric: bool, pf: FloatParser,
                  truth: string -> bool, x: Subject)
    requires Faithful(truth, x, numeric, pf) && Conjunction(truth, r, parts)
    ensures Satisfied(MapRule(k, r, sk, numeric, pf), truth, x) <==> Satisfied(k, truth, x) && truth(r.source)
  {
    ConjunctionPieces(truth, r, parts);
    hide Faithful, Satisfied, MapRule, PiecesOf, PlainPieces;
    RuleMeansPieces(k, r, sk, numeric, pf, truth, x);
  }

  /** Of a rule a && b || c, where || binds looser, the translation keeps the meaning for a value
    * exactly when the value meets a or does not meet c: the split takes it for a && (b || c). */
  lemma LooserOr(r: Rule, a: string, b: string, c: string, sk: SizeKind, numeric: bool, pf: FloatParser,
                 truth: string -> bool, x: Subject)
    requires Faithful(truth, x, numeric, pf) && PlainPieces(r)
    requires Closed(a, "&&", 0) && Closed(b + "||" + c, "&&", 0) && Trim(r.source) == Join([a, b + "||" + c], "&&")
    requires truth(Trim(b + "||" + c)) <==> truth(b) || truth(c)
    requires truth(r.source) <==> (truth(Trim(a)) && truth(b)) || truth(c)
    ensures (Satisfied(MapRule(EMPTY, r, sk, numeric, pf), truth, x) <==> truth(r.source))
       <==> truth(Trim(a)) || !truth(c)
  {
    hide Trim, Closed, Join, SplitTop, Faithful, PlainPieces, Satisfied, MapRule;
    var d := b + "||" + c;
    SplitOfJoin([a, d], "&&");
    RuleMeansPieces(EMPTY, r, sk, numeric, pf, truth, x);
    assert Satisfied(EMPTY, truth, x) by {
      EmptySatisfied(truth, x);
    }
    assert PiecesOf(r) == [Trim(a), Trim(d)];
    assert AllTrue(truth, [Trim(a), Trim(d)]) <==> truth(Trim(a)) && truth(Trim(d)) by {
      TwoTrue(truth, Trim(a), Trim(d));
    }
  }

  lemma EmptySatisfied(truth: string -> bool, x: Subject)
    ensures Satisfied(EMPTY, truth, x)
  {
  }

  lemma TwoTrue(truth: string -> bool, a: string, b: string)
    ensures AllTrue(truth, [a, b]) <==> truth(a) && truth(b)
  {
    if AllTrue(truth, [a, b]) {
      assert truth([a, b][0]) && truth([a, b][1]);
    }
  }

  /** A value satisfies the translation of a list of rules, keywords and leftovers
      together, exactly when it satisfies every rule. */
  lemma {:induction false} RulesKeep(rs: seq<Rule>, parts: seq<seq<string>>, sk: SizeKind, numeric: bool,
                                     pf: FloatParser,
                                     truth: string -> bool, x: Subject)
    requires Faithful(truth, x, numeric, pf) && |parts| == |rs|
    requires forall i :: 0 <= i < |rs| ==> Conjunction(truth, rs[i], parts[i])
    ensures Satisfied(MapRules(rs, sk, numeric, pf), truth, x)
       <==> forall i :: 0 <= i < |rs| ==> truth(rs[i].source)
  {
    hide MapRule, Faithful, Conjunction, Meets;
    if rs == [] {
      EmptyMeets(x);
    } else {
      var n := |rs| - 1;
      RulesKeep(rs[..n], parts[..n], sk, numeric, pf, truth, x);
      RuleKeeps(MapRules(rs[..n], sk, numeric, pf), rs[n], parts[n], sk, numeric, pf, truth, x);
    }
  }

  lemma EmptyMeets(x: Subject)
    ensures Meets(EMPTY, x)
  {
  }
}
