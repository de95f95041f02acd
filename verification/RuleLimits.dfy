/** Where the translation of rules meets its limits, exactly: joined literals, operators that bind looser than &&,
  * and a truth for which all of it holds (internal/openapi/validate.go:57-152,255-375). */
module RuleLimits {
  import opened Options
  import opened GoText
  import opened Decimals
  import opened RuleText
  import opened RuleLexical
  import opened RuleMapper
  import opened RuleReading

  // ---- Patterns --------------------------------------------------------------

  lemma MeetsWithPattern(k: State, p: string, x: Subject)
    requires k.pattern.None?
    ensures Meets(k.(pattern := Some(p)), x) <==> Meets(k, x) && x.matches(p)
  {
    hide SizeHolds, NumberHolds, IsOne;
  }

  lemma MeetsOfMatches(k: State, x: Subject, f: string -> bool)
    requires k.pattern.None?
    ensures Meets(k, x.(matches := f)) <==> Meets(k, x)
  {
    assert k.enum.Some? ==> (IsOne(k.enum.value, x.(matches := f)) <==> IsOne(k.enum.value, x));
  }

  /** A call of matches on a sum sets the pattern to the sum's quoted text. */
  lemma MatchSumTaken(k: State, a: string, b: string, ls: seq<string>, ps: seq<string>, sk: SizeKind, numeric: bool,
                      pf: FloatParser)
    requires Trim(a) == "this" && IsSum(ls, ps) && Trim(b) == Sum(ls, ps) && k.pattern.None?
    ensures MapConjunct(k, "matches(" + (a + "," + b) + ")", sk, numeric, pf)
              == (k.(pattern := Some(Taken(ls, ps))), true)
  {
    hide Trim, RawArgs, Unquote, IsSum, IsChain, Sum, Taken;
    MatchFound(a, b, ls, ps);
    SumIsChain(ls, ps);
    UnquoteOfSum(ls, ps);
  }

  /** A pattern written as a sum of literals keeps its meaning for every value exactly when the sum is one literal,
    * every escape of which stands for its own character. */
  lemma MatchSumKeepsIff(k: State, a: string, b: string, ls: seq<string>, ps: seq<string>, t: string, sk: SizeKind,
                         numeric: bool, pf: FloatParser, some: Subject)
    requires Trim(a) == "this" && IsSum(ls, ps) && Trim(b) == Sum(ls, ps) && SumDenotes(ls, t)
    requires k.pattern.None? && Meets(k, some)
    ensures (forall x: Subject ::
               Keeps(k, MapConjunct(k, "matches(" + (a + "," + b) + ")", sk, numeric, pf), x, x.matches(t)))
       <==> |ls| == 1 && IsDirect(ls[0])
  {
    MatchSumTaken(k, a, b, ls, ps, sk, numeric, pf);
    SumIsChain(ls, ps);
    TakenIsMeantIff(ls, ps, t);
    hide Trim, MapConjunct, Meets, IsSum, IsChain, Sum, Taken, SumDenotes, IsDirect;
    var r := k.(pattern := Some(Taken(ls, ps)));
    forall x: Subject
      ensures Keeps(k, (r, true), x, x.matches(t)) <==>
                (Meets(k, x) && x.matches(Taken(ls, ps)) <==> Meets(k, x) && x.matches(t))
    {
      MeetsWithPattern(k, Taken(ls, ps), x);
    }
    if Taken(ls, ps) != t {
      var x := MatchSumWitness(k, ls, ps, t, some);
      assert !Keeps(k, (r, true), x, x.matches(t));
    }
  }

  /** A value that the rule takes and the keywords do not. */
  lemma MatchSumWitness(k: State, ls: seq<string>, ps: seq<string>, t: string, some: Subject) returns (x: Subject)
    requires IsSum(ls, ps) && SumDenotes(ls, t) && !(|ls| == 1 && IsDirect(ls[0])) && k.pattern.None? && Meets(k, some)
    ensures Meets(k, x) && x.matches(t) && !x.matches(Taken(ls, ps))
  {
    SumIsChain(ls, ps);
    TakenIsMeantIff(ls, ps, t);
    x := some.(matches := u => u == t);
    MeetsOfMatches(k, some, u => u == t);
    hide Meets, Taken, SumDenotes;
  }

  lemma LiteralIsSum(l: string)
    requires IsLiteral(l)
    ensures IsSum([l], []) && Sum([l], []) == l && Taken([l], []) == LiteralText(l)
  {
  }

  /** A pattern written as one literal keeps its meaning for every value exactly when every escape in the literal
    * stands for its own character. */
  lemma PatternKeepsIff(k: State, a: string, b: string, t: string, sk: SizeKind, numeric: bool, pf: FloatParser,
                        some: Subject)
    requires Trim(a) == "this" && Denotes(Trim(b), t) && k.pattern.None? && Meets(k, some)
    ensures (forall x: Subject ::
               Keeps(k, MapConjunct(k, "matches(" + (a + "," + b) + ")", sk, numeric, pf), x, x.matches(t)))
       <==> IsDirect(Trim(b))
  {
    hide Trim, MapConjunct, Meets, IsLiteral, IsSum, Sum, Taken, SumDenotes, IsDirect;
    var l := Trim(b);
    LiteralIsSum(l);
    OneDenotes(l, t);
    MatchSumKeepsIff(k, a, b, [l], [], t, sk, numeric, pf, some);
  }

  // ---- Lists -----------------------------------------------------------------

  /** An element of a list, what it is taken for and what it denotes: a sum of literals, or an integer. */
  ghost predicate Written(el: string, v: EnumValue, w: EnumValue)
  {
    || (exists ls, ps, t :: IsSum(ls, ps) && Trim(el) == Sum(ls, ps) && SumDenotes(ls, t)
                            && v == TextValue(Taken(ls, ps)) && w == TextValue(t))
    || (exists n, p :: ParseInt64(Trim(el)) == Some(n) && ProtoInt(Trim(el)) == Some(p)
                       && v == WholeValue(n) && w == WholeValue(p))
  }

  lemma IntIsCalm(t: string)
    requires ParseInt(t).Some?
    ensures t != "" && AllCalm(t) && t[0] != '"' && t[0] != '='
  {
    var u := if t != [] && t[0] in "+-" then t[1..] else t;
    assert ParseNat(u).Some?;
    assert forall k :: 0 <= k < |u| ==> Decimals.IsDigit(u[k]);
  }

  /** Text that closes on its own, read as v. */
  ghost predicate ReadAs(el: string, v: EnumValue)
  {
    Element(el) == Some(v) && Closed(el, ",", 0)
  }

  lemma WrittenReads(el: string, v: EnumValue, w: EnumValue)
    requires Written(el, v, w)
    ensures ReadAs(el, v)
  {
    assert el + "" == el;
    NothingCloses(",");
    hide Trim, IsSum, IsChain, Sum, Taken, Closed, AllCalm, ParseInt, ProtoInt, SumDenotes, Unquote;
    if ls, ps, t :| IsSum(ls, ps) && Trim(el) == Sum(ls, ps) && SumDenotes(ls, t)
                    && v == TextValue(Taken(ls, ps)) && w == TextValue(t) {
      SumIsChain(ls, ps);
      UnquoteOfSum(ls, ps);
      SpacedSum(el, ls, ps, "");
    } else {
      IntIsCalm(Trim(el));
      SpacedCalm(el);
      CalmCloses(el, "", ",", 0);
      UnquoteNone(Trim(el));
    }
  }

  lemma UnquoteNone(t: string)
    requires t != "" && t[0] != '"'
    ensures Unquote(t).None?
  {
  }

  lemma {:induction false} ElementsRead(els: seq<string>, vs: seq<EnumValue>)
    requires |els| == |vs| && forall i :: 0 <= i < |els| ==> Element(els[i]) == Some(vs[i])
    ensures Elements(els) == Some(vs)
  {
    hide Element;
    if els != [] {
      ElementsRead(els[..|els| - 1], vs[..|vs| - 1]);
      assert vs == vs[..|vs| - 1] + [vs[|vs| - 1]];
    }
  }

  lemma NoCall(r: string)
    ensures RawArgs("this in " + r, "matches").None?
    ensures HasPrefix("this in " + r, "this in ") && ("this in " + r)[8..] == r
  {
    var s := "this in " + r;
    assert s[0] == 't' && ("matches" + "(")[0] == 'm';
    assert s[..8] == "this in ";
  }

  lemma MeetsWithEnum(k: State, vs: seq<EnumValue>, x: Subject)
    requires k.enum.None?
    ensures Meets(k.(enum := Some(vs)), x) <==> Meets(k, x) && IsOne(vs, x)
    ensures forall f :: Meets(k, x.(isValue := f)) <==> Meets(k, x)
  {
  }

  /** The list's elements as they are read become the enum. */
  lemma ListTaken(k: State, r: string, els: seq<string>, vs: seq<EnumValue>, sk: SizeKind, numeric: bool,
                  pf: FloatParser)
    requires |els| == |vs| >= 1 && forall i :: 0 <= i < |els| ==> ReadAs(els[i], vs[i])
    requires Trim(r) == "[" + Join(els, ",") + "]" && k.enum.None?
    ensures MapConjunct(k, "this in " + r, sk, numeric, pf) == (k.(enum := Some(vs)), true)
  {
    hide Trim, Closed, Element, Join, ListElements, RawArgs, Elements;
    forall i | 0 <= i < |els|
      ensures Element(els[i]) == Some(vs[i]) && Closed(els[i], ",", 0)
    {
      assert ReadAs(els[i], vs[i]);
    }
    ListFound(r, els);
    ElementsRead(els, vs);
    NoCall(r);
  }

  /** The same members in both lists. */
  ghost predicate SameMembers(vs: seq<EnumValue>, ws: seq<EnumValue>)
  {
    forall v :: v in vs <==> v in ws
  }

  /** Taking vs in for ws keeps the meaning for every value exactly when they have the same members. */
  lemma TakenForIff(k: State, vs: seq<EnumValue>, ws: seq<EnumValue>, some: Subject)
    requires k.enum.None? && Meets(k, some)
    ensures (forall x: Subject :: Keeps(k, (k.(enum := Some(vs)), true), x, IsOne(ws, x))) <==> SameMembers(vs, ws)
  {
    hide Meets, IsOne;
    var m := k.(enum := Some(vs));
    forall x: Subject
      ensures Keeps(k, (m, true), x, IsOne(ws, x)) <==> (Meets(k, x) && IsOne(vs, x) <==> Meets(k, x) && IsOne(ws, x))
    {
      MeetsWithEnum(k, vs, x);
    }
    if SameMembers(vs, ws) {
      forall x: Subject
        ensures IsOne(vs, x) <==> IsOne(ws, x)
      {
        OneOfSame(vs, ws, x);
      }
    } else {
      var v :| !(v in vs <==> v in ws);
      var x := some.(isValue := u => u == v);
      MeetsWithEnum(k, vs, some);
      OneOf(vs, x, v);
      OneOf(ws, x, v);
      assert !Keeps(k, (m, true), x, IsOne(ws, x));
    }
  }

  /** A list keeps its meaning for every value exactly when the elements as read are the elements as denoted. */
  lemma ListKeepsIff(k: State, r: string, els: seq<string>, vs: seq<EnumValue>, ws: seq<EnumValue>, sk: SizeKind,
                     numeric: bool, pf: FloatParser, some: Subject)
    requires |els| == |vs| == |ws| >= 1 && forall i :: 0 <= i < |els| ==> Written(els[i], vs[i], ws[i])
    requires Trim(r) == "[" + Join(els, ",") + "]" && k.enum.None? && Meets(k, some)
    ensures (forall x: Subject :: Keeps(k, MapConjunct(k, "this in " + r, sk, numeric, pf), x, IsOne(ws, x)))
       <==> SameMembers(vs, ws)
  {
    hide Trim, MapConjunct, Meets, Written, Join, IsOne, ReadAs, Keeps, SameMembers;
    forall i | 0 <= i < |els|
      ensures ReadAs(els[i], vs[i])
    {
      WrittenReads(els[i], vs[i], ws[i]);
    }
    ListTaken(k, r, els, vs, sk, numeric, pf);
    TakenForIff(k, vs, ws, some);
  }

  lemma OneOfSame(vs: seq<EnumValue>, ws: seq<EnumValue>, x: Subject)
    requires SameMembers(vs, ws)
    ensures IsOne(vs, x) <==> IsOne(ws, x)
  {
    if i :| 0 <= i < |vs| && x.isValue(vs[i]) {
      assert vs[i] in ws;
    }
    if i :| 0 <= i < |ws| && x.isValue(ws[i]) {
      assert ws[i] in vs;
    }
  }

  lemma OneOf(vs: seq<EnumValue>, x: Subject, v: EnumValue)
    requires forall u :: x.isValue(u) <==> u == v
    ensures IsOne(vs, x) <==> v in vs
  {
  }

  lemma IsOneOfOne(w: EnumValue, x: Subject)
    ensures IsOne([w], x) <==> x.isValue(w)
  {
    assert x.isValue(w) ==> x.isValue([w][0]);
  }

  lemma SameOne(v: EnumValue, w: EnumValue)
    ensures SameMembers([v], [w]) <==> v == w
  {
    assert v in [v];
  }

  /** An element written as a sum of literals keeps its meaning exactly when the sum is one literal, every escape of
    * which stands for its own character. */
  lemma ElementSumKeepsIff(k: State, r: string, el: string, ls: seq<string>, ps: seq<string>, t: string, sk: SizeKind,
                           numeric: bool, pf: FloatParser, some: Subject)
    requires IsSum(ls, ps) && Trim(el) == Sum(ls, ps) && SumDenotes(ls, t)
    requires Trim(r) == "[" + el + "]" && k.enum.None? && Meets(k, some)
    ensures (forall x: Subject ::
               Keeps(k, MapConjunct(k, "this in " + r, sk, numeric, pf), x, x.isValue(TextValue(t))))
       <==> |ls| == 1 && IsDirect(ls[0])
  {
    hide Trim, IsSum, IsChain, Sum, Taken, SumDenotes, MapConjunct, Meets, Written, Keeps, IsDirect;
    var v, w := TextValue(Taken(ls, ps)), TextValue(t);
    assert Written(el, v, w) by {
      SumIsWritten(el, ls, ps, t);
    }
    ListKeepsIff(k, r, [el], [v], [w], sk, numeric, pf, some);
    SumIsChain(ls, ps);
    TakenIsMeantIff(ls, ps, t);
    SameOne(v, w);
    hide SameMembers, IsOne;
    forall x: Subject
      ensures IsOne([w], x) <==> x.isValue(w)
    {
      IsOneOfOne(w, x);
    }
  }

  lemma SumIsWritten(el: string, ls: seq<string>, ps: seq<string>, t: string)
    requires IsSum(ls, ps) && Trim(el) == Sum(ls, ps) && SumDenotes(ls, t)
    ensures Written(el, TextValue(Taken(ls, ps)), TextValue(t))
  {
    hide Trim, IsSum, Sum, Taken, SumDenotes;
  }

  /** An element written as an integer keeps its meaning exactly when it is decimal. */
  lemma ElementIntKeepsIff(k: State, r: string, el: string, sk: SizeKind, numeric: bool, pf: FloatParser, some: Subject)
    requires ParseInt64(Trim(el)).Some? && ProtoInt(Trim(el)).Some?
    requires Trim(r) == "[" + el + "]" && k.enum.None? && Meets(k, some)
    ensures (forall x: Subject ::
               Keeps(k, MapConjunct(k, "this in " + r, sk, numeric, pf), x,
                   x.isValue(WholeValue(ProtoInt(Trim(el)).value))))
       <==> IsDecimal(Trim(el))
  {
    hide Trim, MapConjunct, Meets, Written, Keeps, IsDecimal, ProtoInt, ParseInt;
    var n, p := ParseInt64(Trim(el)).value, ProtoInt(Trim(el)).value;
    var v, w := WholeValue(n), WholeValue(p);
    assert Written(el, v, w) by {
      IntIsWritten(el, n, p);
    }
    ListKeepsIff(k, r, [el], [v], [w], sk, numeric, pf, some);
    ParseIntIff(Trim(el), n, p);
    SameOne(v, w);
    hide SameMembers, IsOne;
    forall x: Subject
      ensures IsOne([w], x) <==> x.isValue(w)
    {
      IsOneOfOne(w, x);
    }
  }

  lemma IntIsWritten(el: string, n: int, p: int)
    requires ParseInt64(Trim(el)) == Some(n) && ProtoInt(Trim(el)) == Some(p)
    ensures Written(el, WholeValue(n), WholeValue(p))
  {
    hide Trim, ParseInt64, ProtoInt;
  }

  // ---- Operators that bind looser than && ----------------------------------

  /** The pieces the mapper sees of a rule whose text is two closed parts joined by &&. */
  lemma TwoPieces(r: Rule, p: string, q: string)
    requires Closed(p, "&&", 0) && Closed(q, "&&", 0) && Trim(r.source) == Join([p, q], "&&")
    ensures PiecesOf(r) == [Trim(p), Trim(q)]
  {
    hide Trim, Closed, Join, SplitTop;
    SplitOfJoin([p, q], "&&");
  }

  /** What the translation of such a rule means: both parts. */
  lemma TwoPiecesMean(r: Rule, p: string, q: string, sk: SizeKind, numeric: bool, pf: FloatParser,
                      truth: string -> bool, x: Subject)
    requires Faithful(truth, x, numeric, pf) && PlainPieces(r)
    requires Closed(p, "&&", 0) && Closed(q, "&&", 0) && Trim(r.source) == Join([p, q], "&&")
    ensures Satisfied(MapRule(EMPTY, r, sk, numeric, pf), truth, x) <==> truth(Trim(p)) && truth(Trim(q))
  {
    TwoPieces(r, p, q);
    EmptySatisfied(truth, x);
    TwoTrue(truth, Trim(p), Trim(q));
    hide Trim, Closed, Join, PiecesOf, Faithful, PlainPieces, Satisfied, MapRule, AllTrue;
    RuleMeansPieces(EMPTY, r, sk, numeric, pf, truth, x);
  }

  /** Of a rule a OR b && c the translation keeps the meaning for a value exactly when the value meets c or does not
    * meet a: the split takes it for (a OR b) && c. */
  lemma LooserOrBefore(r: Rule, a: string, b: string, c: string, sk: SizeKind, numeric: bool, pf: FloatParser,
                       truth: string -> bool, x: Subject)
    requires Faithful(truth, x, numeric, pf) && PlainPieces(r)
    requires Closed(a + "||" + b, "&&", 0) && Closed(c, "&&", 0) && Trim(r.source) == Join([a + "||" + b, c], "&&")
    requires truth(Trim(a + "||" + b)) <==> truth(a) || truth(b)
    requires truth(r.source) <==> truth(a) || (truth(b) && truth(Trim(c)))
    ensures (Satisfied(MapRule(EMPTY, r, sk, numeric, pf), truth, x) <==> truth(r.source))
       <==> truth(Trim(c)) || !truth(a)
  {
    hide Trim, Closed, Join, Faithful, PlainPieces, Satisfied, MapRule;
    TwoPiecesMean(r, a + "||" + b, c, sk, numeric, pf, truth, x);
  }

  /** Of a rule a && b ? c : d, the whole of a && b its condition, exactly when the value meets a or does not meet d:
    * the split takes it for a && (b ? c : d). */
  lemma LooserCondition(r: Rule, a: string, b: string, c: string, d: string, sk: SizeKind, numeric: bool,
                        pf: FloatParser,
                        truth: string -> bool, x: Subject)
    requires Faithful(truth, x, numeric, pf) && PlainPieces(r)
    requires Closed(a, "&&", 0) && Closed(b + "?" + c + ":" + d, "&&", 0)
    requires Trim(r.source) == Join([a, b + "?" + c + ":" + d], "&&")
    requires truth(Trim(b + "?" + c + ":" + d)) <==> if truth(b) then truth(c) else truth(d)
    requires truth(r.source) <==> if truth(Trim(a)) && truth(b) then truth(c) else truth(d)
    ensures (Satisfied(MapRule(EMPTY, r, sk, numeric, pf), truth, x) <==> truth(r.source))
       <==> truth(Trim(a)) || !truth(d)
  {
    hide Trim, Closed, Join, Faithful, PlainPieces, Satisfied, MapRule;
    TwoPiecesMean(r, a, b + "?" + c + ":" + d, sk, numeric, pf, truth, x);
  }

  /** Of a rule b ? c : d && e, exactly when the value meets e or does not meet b and c: the split takes it
    * for (b ? c : d) && e. */
  lemma LooserBranch(r: Rule, b: string, c: string, d: string, e: string, sk: SizeKind, numeric: bool, pf: FloatParser,
                     truth: string -> bool, x: Subject)
    requires Faithful(truth, x, numeric, pf) && PlainPieces(r)
    requires Closed(b + "?" + c + ":" + d, "&&", 0) && Closed(e, "&&", 0)
    requires Trim(r.source) == Join([b + "?" + c + ":" + d, e], "&&")
    requires truth(Trim(b + "?" + c + ":" + d)) <==> if truth(b) then truth(c) else truth(d)
    requires truth(r.source) <==> if truth(b) then truth(c) else truth(d) && truth(Trim(e))
    ensures (Satisfied(MapRule(EMPTY, r, sk, numeric, pf), truth, x) <==> truth(r.source))
       <==> truth(Trim(e)) || !(truth(b) && truth(c))
  {
    hide Trim, Closed, Join, Faithful, PlainPieces, Satisfied, MapRule;
    TwoPiecesMean(r, b + "?" + c + ":" + d, e, sk, numeric, pf, truth, x);
  }

  // ---- Conjunctions joined by || -------------------------------------------------

  /** What the translation means of a rule whose text is any closed parts joined by &&: all of them. */
  lemma PiecesMean(r: Rule, ps: seq<string>, sk: SizeKind, numeric: bool, pf: FloatParser, truth: string -> bool,
                   x: Subject)
    requires Faithful(truth, x, numeric, pf) && PlainPieces(r) && |ps| >= 1
    requires (forall i :: 0 <= i < |ps| ==> Closed(ps[i], "&&", 0)) && Trim(r.source) == Join(ps, "&&")
    ensures Satisfied(MapRule(EMPTY, r, sk, numeric, pf), truth, x)
       <==> forall i :: 0 <= i < |ps| ==> truth(Trim(ps[i]))
  {
    hide Trim, Closed, Join, SplitTop, Faithful, PlainPieces, Satisfied, MapRule;
    SplitOfJoin(ps, "&&");
    EmptySatisfied(truth, x);
    RuleMeansPieces(EMPTY, r, sk, numeric, pf, truth, x);
  }

  predicate AnyTrue(bs: seq<bool>)
  {
    exists k :: 0 <= k < |bs| && bs[k]
  }

  function Total(runs: seq<seq<bool>>): nat
  {
    if runs == [] then 0 else |runs[0]| + Total(runs[1..])
  }

  /** The truth of conjunctions joined by ||, by the truths of their conjuncts. These come in runs: those of one run
    * stand between || signs, and && stands between runs. all says of the conjunction under way that it holds so far. */
  predicate OrOfAnds(runs: seq<seq<bool>>, all: bool)
    decreases Total(runs)
  {
    if runs == [] || runs[0] == [] then all
    else if |runs[0]| > 1 then (all && runs[0][0]) || OrOfAnds([runs[0][1..]] + runs[1..], true)
    else if |runs| > 1 then OrOfAnds(runs[1..], all && runs[0][0])
    else all && runs[0][0]
  }

  /** When every run holds something true, one of the conjunctions holds. */
  lemma {:induction false} RunsGiveOne(runs: seq<seq<bool>>)
    requires |runs| >= 1 && forall i :: 0 <= i < |runs| ==> AnyTrue(runs[i])
    ensures OrOfAnds(runs, true)
    decreases Total(runs)
  {
    var first := runs[0];
    assert AnyTrue(first);
    if |first| > 1 {
      if !first[0] {
        var rest := [first[1..]] + runs[1..];
        assert Total(rest) == |first| - 1 + Total(runs[1..]) by {
          assert rest[1..] == runs[1..];
        }
        var k :| 0 <= k < |first| && first[k];
        assert first[1..][k - 1];
        RunsGiveOne(rest);
      }
    } else if |runs| > 1 {
      RunsGiveOne(runs[1..]);
    }
  }

  /** A rule of any number of conjunctions joined by ||, split at every &&: the translation takes no value that the rule
    * refuses, and it keeps the meaning for a value exactly when the value fails the rule or meets some part of every
    * piece. */
  lemma OrOfAndsKept(r: Rule, ps: seq<string>, runs: seq<seq<bool>>, sk: SizeKind, numeric: bool, pf: FloatParser,
                     truth: string -> bool, x: Subject)
    requires Faithful(truth, x, numeric, pf) && PlainPieces(r) && |runs| == |ps| >= 1
    requires (forall i :: 0 <= i < |ps| ==> Closed(ps[i], "&&", 0)) && Trim(r.source) == Join(ps, "&&")
    requires forall i :: 0 <= i < |ps| ==> (truth(Trim(ps[i])) <==> AnyTrue(runs[i]))
    requires truth(r.source) <==> OrOfAnds(runs, true)
    ensures Satisfied(MapRule(EMPTY, r, sk, numeric, pf), truth, x) ==> truth(r.source)
    ensures (Satisfied(MapRule(EMPTY, r, sk, numeric, pf), truth, x) <==> truth(r.source))
       <==> (truth(r.source) ==> forall i :: 0 <= i < |runs| ==> AnyTrue(runs[i]))
  {
    hide Trim, Closed, Join, Faithful, PlainPieces, Satisfied, MapRule, OrOfAnds, AnyTrue;
    PiecesMean(r, ps, sk, numeric, pf, truth, x);
    if forall i :: 0 <= i < |runs| ==> AnyTrue(runs[i]) {
      RunsGiveOne(runs);
    }
  }

  /** Of a rule a && b || c && d the translation keeps the meaning for a value exactly when the value meets d or not
    * both
    * a and b, and meets a or not both c and d: the split takes it for a && (b || c) && d. */
  lemma LooserOrBetween(r: Rule, a: string, b: string, c: string, d: string, sk: SizeKind, numeric: bool,
                        pf: FloatParser, truth: string -> bool, x: Subject)
    requires Faithful(truth, x, numeric, pf) && PlainPieces(r)
    requires Closed(a, "&&", 0) && Closed(b + "||" + c, "&&", 0) && Closed(d, "&&", 0)
    requires Trim(r.source) == Join([a, b + "||" + c, d], "&&")
    requires truth(Trim(b + "||" + c)) <==> truth(b) || truth(c)
    requires truth(r.source) <==> (truth(Trim(a)) && truth(b)) || (truth(c) && truth(Trim(d)))
    ensures (Satisfied(MapRule(EMPTY, r, sk, numeric, pf), truth, x) <==> truth(r.source))
       <==> (truth(Trim(a)) && truth(b) ==> truth(Trim(d))) && (truth(c) && truth(Trim(d)) ==> truth(Trim(a)))
  {
    hide Trim, Closed, Join, Faithful, PlainPieces, Satisfied, MapRule;
    var ps := [a, b + "||" + c, d];
    PiecesMean(r, ps, sk, numeric, pf, truth, x);
    assert (forall i :: 0 <= i < |ps| ==> truth(Trim(ps[i]))) <==>
           truth(Trim(ps[0])) && truth(Trim(ps[1])) && truth(Trim(ps[2]));
  }
}
