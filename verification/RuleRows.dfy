/** Lists of literals with something between them, such as two lists joined by ||: what the mapper reads of them
  * (internal/openapi/validate.go:98-101,127-152,255-278,362-375). */
module RuleRows {
  import opened Options
  import opened GoText
  import opened RuleText
  import opened RuleLexical
  import opened RuleMapper
  import opened RuleReading
  import opened RuleLimits
  import Seqs

  // ---- White space around a literal --------------------------------------------

  function Lead(s: string): string
  {
    if |TrimLeft(s)| <= |s| then s[..|s| - |TrimLeft(s)|] else ""
  }

  function Trail(s: string): string
  {
    if |Trim(s)| <= |TrimLeft(s)| then TrimLeft(s)[|Trim(s)|..] else ""
  }

  lemma Spaced(s: string)
    ensures AllSpace(Lead(s)) && AllSpace(Trail(s)) && s == Lead(s) + (Trim(s) + Trail(s))
  {
    var t := TrimLeft(s);
    LeftIsSpace(s);
    RightIsSpace(t);
    TrimLeftIs(s);
    TrimRightIs(t);
    CutAt(s, |s| - |t|);
    CutAt(t, |TrimRight(t)|);
    hide TrimLeft, TrimRight, AllSpace;
  }

  lemma {:induction false} TrimLeftSpace(w: string, m: string)
    requires AllSpace(w) && m != "" && !IsSpace(m[0])
    ensures TrimLeft(w + m) == m
  {
    if w == "" {
      assert w + m == m;
    } else {
      assert (w + m)[0] == w[0] && (w + m)[1..] == w[1..] + m;
      TrimLeftSpace(w[1..], m);
    }
  }

  lemma {:induction false} TrimRightSpace(m: string, v: string)
    requires AllSpace(v) && m != "" && !IsSpace(m[|m| - 1])
    ensures TrimRight(m + v) == m
  {
    if v == "" {
      assert m + v == m;
    } else {
      var n := |v| - 1;
      assert (m + v)[|m + v| - 1] == v[n] && (m + v)[..|m + v| - 1] == m + v[..n];
      assert AllSpace(v[..n]);
      TrimRightSpace(m, v[..n]);
    }
  }

  lemma TrimSpaced(w: string, m: string, v: string)
    requires AllSpace(w) && AllSpace(v) && m != "" && !IsSpace(m[0]) && !IsSpace(m[|m| - 1])
    ensures Trim(w + (m + v)) == m
  {
    TrimLeftSpace(w, m + v);
    TrimRightSpace(m, v);
    assert (m + v)[0] == m[0];
    hide TrimLeft, TrimRight;
  }

  lemma IsALiteral(l: string, t: string)
    requires Denotes(l, t)
    ensures IsLiteral(l)
  {
  }

  // ---- Rows ----------------------------------------------------------------------

  /** What stands between two literals: a comma, or the end of a list, some text, and the beginning of the next. */
  datatype Separator = Comma | Link(text: string)

  function Glue(sep: Separator): string
  {
    match sep
    case Comma => ","
    case Link(c) => "]" + (c + "[")
  }

  /** The text of a link is calm, and escapes nothing. */
  ghost predicate IsLink(sep: Separator)
  {
    sep.Link? ==> AllCalm(sep.text) && forall k :: 0 <= k < |sep.text| ==> sep.text[k] != '\\'
  }

  /** Literals, white space around them allowed, and what stands between each two. */
  ghost predicate IsRow(es: seq<string>, seps: seq<Separator>)
  {
    && |es| >= 1 && |seps| == |es| - 1
    && (forall i :: 0 <= i < |es| ==> IsLiteral(Trim(es[i])))
    && forall i :: 0 <= i < |seps| ==> IsLink(seps[i])
  }

  function RowText(es: seq<string>, seps: seq<Separator>): string
    requires |es| >= 1 && |seps| == |es| - 1
  {
    if seps == [] then es[0] else es[0] + (Glue(seps[0]) + RowText(es[1..], seps[1..]))
  }

  /** The elements the mapper sees: a link joins those beside it. */
  function RowElements(es: seq<string>, seps: seq<Separator>): (els: seq<string>)
    requires |es| >= 1 && |seps| == |es| - 1
    ensures |els| >= 1
  {
    if seps == [] then [es[0]]
    else
      var rest := RowElements(es[1..], seps[1..]);
      if seps[0].Comma? then [es[0]] + rest else [es[0] + (Glue(seps[0]) + rest[0])] + rest[1..]
  }

  /** What a link leaves between the texts of the literals beside it. */
  function Middle(a: string, sep: Separator, b: string): string
  {
    Trail(a) + (Glue(sep) + Lead(b))
  }

  /** The texts the elements are read as. */
  function RowTexts(es: seq<string>, seps: seq<Separator>): (ts: seq<string>)
    requires |es| >= 1 && |seps| == |es| - 1
    ensures |ts| == |RowElements(es, seps)|
  {
    var t := LiteralText(Trim(es[0]));
    if seps == [] then [t]
    else
      var rest := RowTexts(es[1..], seps[1..]);
      if seps[0].Comma? then [t] + rest
      else [t + ("\"" + (Middle(es[0], seps[0], es[1]) + ("\"" + rest[0])))] + rest[1..]
  }

  lemma {:induction false} RowJoins(es: seq<string>, seps: seq<Separator>)
    requires |es| >= 1 && |seps| == |es| - 1
    ensures Join(RowElements(es, seps), ",") == RowText(es, seps)
    decreases |es|
  {
    if seps == [] {
      assert Join([es[0]], ",") == es[0];
    } else {
      var rest := RowElements(es[1..], seps[1..]);
      RowJoins(es[1..], seps[1..]);
      if seps[0].Comma? {
        JoinCons(es[0], rest, ",");
        hide Join;
        Seqs.Associate(es[0], ",", Join(rest, ","));
      } else {
        JoinBehind(es[0] + Glue(seps[0]), rest);
        hide Join;
        Seqs.Associate(es[0], Glue(seps[0]), Join(rest, ","));
        Seqs.Associate(es[0], Glue(seps[0]), rest[0]);
      }
    }
  }

  /** Something before the first of joined texts. */
  lemma JoinBehind(p: string, ts: seq<string>)
    requires |ts| >= 1
    ensures Join([p + ts[0]] + ts[1..], ",") == p + Join(ts, ",")
  {
    assert ts == [ts[0]] + ts[1..];
    if |ts| == 1 {
      assert [p + ts[0]] + ts[1..] == [p + ts[0]];
    } else {
      var more := Join(ts[1..], ",");
      JoinCons(p + ts[0], ts[1..], ",");
      JoinCons(ts[0], ts[1..], ",");
      hide Join;
      Seqs.Associate(p, ts[0], ",");
      Seqs.Associate(p, ts[0] + ",", more);
    }
  }

  // ---- Reading a row -------------------------------------------------------------

  /** The text between quotes, with white space around it, and nothing left open. */
  ghost predicate IsQuoted(e: string, w: string, q: string, z: string, t: string)
  {
    && e == w + (q + z) && AllSpace(w) && AllSpace(z)
    && |q| >= 2 && q[0] == '"' && q[|q| - 1] == '"' && Unescape(q[1..|q| - 1]) == t
    && Closed(e, ",", 0)
  }

  lemma LiteralQuoted(e: string)
    requires IsLiteral(Trim(e))
    ensures IsQuoted(e, Lead(e), Trim(e), Trail(e), LiteralText(Trim(e)))
  {
    Spaced(e);
    LiteralShape(Trim(e));
    LiteralIsSum(Trim(e));
    NothingCloses(",");
    hide Trim, Closed, IsLiteral, IsSum, Sum, Lead, Trail, LiteralText, AllSpace;
    SpacedSum(e, [Trim(e)], [], "");
    assert e + "" == e;
  }

  /** Between lists the brackets close and open again. */
  lemma GlueCloses(sep: Separator, b: string)
    requires sep.Link? && IsLink(sep)
    ensures Closed(Glue(sep) + b, ",", 0) <==> Closed(b, ",", 0)
  {
    var x := sep.text + ("[" + b);
    assert Glue(sep) + b == "]" + x;
    assert ("]" + x)[0] == ']' && ("]" + x)[1..] == x;
    assert Closed("]" + x, ",", 0) <==> Closed(x, ",", -1);
    CalmCloses(sep.text, "[" + b, ",", -1);
    assert ("[" + b)[0] == '[' && ("[" + b)[1..] == b;
    assert ("[" + b + ",")[0] == '[';
  }

  lemma MiddleIsBetween(a: string, sep: Separator, b: string)
    requires sep.Link? && IsLink(sep)
    ensures IsBetween(Middle(a, sep, b))
  {
    Spaced(a);
    Spaced(b);
    SpaceIsCalm(Trail(a));
    SpaceIsCalm(Lead(b));
    assert forall k :: 0 <= k < |Trail(a)| ==> IsSpace(Trail(a)[k]);
    assert forall k :: 0 <= k < |Lead(b)| ==> IsSpace(Lead(b)[k]);
    hide Lead, Trail;
    assert forall k :: 0 <= k < |Glue(sep)| ==> Glue(sep)[k] != '\\';
  }

  /** A literal linked to a quoted text is a quoted text. */
  lemma LinkQuoted(e: string, sep: Separator, f: string, next: string, q: string, z: string, t: string)
    requires IsLiteral(Trim(e)) && sep.Link? && IsLink(sep) && IsQuoted(f, Lead(next), q, z, t)
    ensures var p := Middle(e, sep, next);
            IsQuoted(e + (Glue(sep) + f), Lead(e), Trim(e) + (p + q), z,
                LiteralText(Trim(e)) + ("\"" + (p + ("\"" + t))))
  {
    var l, p := Trim(e), Middle(e, sep, next);
    MiddleIsBetween(e, sep, next);
    Spaced(e);
    LiteralIsSum(l);
    hide Trim, Closed, IsLiteral, IsSum, Sum, Lead, Trail, LiteralText, AllSpace, Unescape, Glue, IsBetween;
    LinkShape(l, p, q);
    SpacedSum(e, [l], [], Glue(sep) + f);
    GlueCloses(sep, f);
    Regrouped(Lead(e), l, Trail(e), Glue(sep), Lead(next), q, z);
  }

  lemma Regrouped(w: string, l: string, v: string, g: string, y: string, q: string, z: string)
    ensures w + (l + v) + (g + (y + (q + z))) == w + ((l + ((v + (g + y)) + q)) + z)
  {
  }

  /** Every element of a row is a quoted text. */
  lemma {:induction false} RowQuoted(es: seq<string>, seps: seq<Separator>, i: nat)
    returns (w: string, q: string, z: string)
    requires IsRow(es, seps) && i < |RowElements(es, seps)|
    ensures IsQuoted(RowElements(es, seps)[i], w, q, z, RowTexts(es, seps)[i]) && (i == 0 ==> w == Lead(es[0]))
    decreases |es|
  {
    hide Trim, IsLiteral, IsLink, IsQuoted, Lead, Middle, Glue, LiteralText;
    if i == 0 && (seps == [] || seps[0].Comma?) {
      LiteralQuoted(es[0]);
      w, q, z := Lead(es[0]), Trim(es[0]), Trail(es[0]);
    } else {
      var later, more := es[1..], seps[1..];
      assert IsRow(later, more);
      if seps[0].Comma? {
        w, q, z := RowQuoted(later, more, i - 1);
      } else {
        w, q, z := RowQuoted(later, more, i);
        if i == 0 {
          LinkQuoted(es[0], seps[0], RowElements(later, more)[0], es[1], q, z, RowTexts(later, more)[0]);
          w, q := Lead(es[0]), Trim(es[0]) + (Middle(es[0], seps[0], es[1]) + q);
        }
      }
    }
  }

  lemma QuotedReads(e: string, w: string, q: string, z: string, t: string)
    requires IsQuoted(e, w, q, z, t)
    ensures ReadAs(e, TextValue(t))
  {
    hide Trim, Closed, AllSpace, Unescape, ParseInt64;
    QuoteIsNoSpace();
    TrimSpaced(w, q, z);
  }

  lemma QuoteIsNoSpace()
    ensures !IsSpace('"')
  {
  }

  function Texts(ts: seq<string>): (vs: seq<EnumValue>)
    ensures |vs| == |ts| && forall i :: 0 <= i < |ts| ==> vs[i] == TextValue(ts[i])
  {
    seq(|ts|, i requires 0 <= i < |ts| => TextValue(ts[i]))
  }

  /** Every element of a row is read as its text. */
  lemma RowReads(es: seq<string>, seps: seq<Separator>)
    requires IsRow(es, seps)
    ensures forall i :: 0 <= i < |RowElements(es, seps)| ==>
              ReadAs(RowElements(es, seps)[i], TextValue(RowTexts(es, seps)[i]))
  {
    assert |es| >= 1 && |seps| == |es| - 1;
    hide RowElements, RowTexts, IsRow, IsQuoted, ReadAs;
    forall i | 0 <= i < |RowElements(es, seps)|
      ensures ReadAs(RowElements(es, seps)[i], TextValue(RowTexts(es, seps)[i]))
    {
      var w, q, z := RowQuoted(es, seps, i);
      QuotedReads(RowElements(es, seps)[i], w, q, z, RowTexts(es, seps)[i]);
    }
  }

  // ---- What becomes of its meaning -----------------------------------------------

  /** The text r, after "this in", is a row in brackets. */
  ghost predicate IsRowIn(r: string, es: seq<string>, seps: seq<Separator>)
  {
    IsRow(es, seps) && Trim(r) == "[" + RowText(es, seps) + "]"
  }

  /** The texts of a row become the enum. */
  lemma RowTaken(k: State, r: string, es: seq<string>, seps: seq<Separator>, sk: SizeKind, numeric: bool,
                 pf: FloatParser)
    requires IsRowIn(r, es, seps) && k.enum.None?
    ensures MapConjunct(k, "this in " + r, sk, numeric, pf) == (k.(enum := Some(Texts(RowTexts(es, seps)))), true)
  {
    RowReads(es, seps);
    RowJoins(es, seps);
    hide Trim, IsLiteral, ReadAs, MapConjunct, Join, RowElements, RowTexts, RowText;
    ListTaken(k, r, RowElements(es, seps), Texts(RowTexts(es, seps)), sk, numeric, pf);
  }

  /** The literals denote the texts ts. */
  predicate DenoteEach(es: seq<string>, ts: seq<string>)
  {
    |ts| == |es| && forall i :: 0 <= i < |es| ==> Denotes(Trim(es[i]), ts[i])
  }

  /** Any number of lists of literals joined by ||, which ask for a text of any list, keep their meaning for every value
    * exactly when the texts the mapper reads, in which links and the literals beside them are one text, are the texts
    * of the lists. */
  lemma OrListsKeepIff(k: State, r: string, es: seq<string>, seps: seq<Separator>, ts: seq<string>, sk: SizeKind,
                       numeric: bool, pf: FloatParser, some: Subject)
    requires IsRowIn(r, es, seps) && DenoteEach(es, ts) && k.enum.None? && Meets(k, some)
    ensures (forall x: Subject :: Keeps(k, MapConjunct(k, "this in " + r, sk, numeric, pf), x, IsOne(Texts(ts), x)))
       <==> SameMembers(Texts(RowTexts(es, seps)), Texts(ts))
  {
    assert |es| >= 1 && |seps| == |es| - 1;
    hide IsRowIn, DenoteEach, Keeps, Meets, MapConjunct, RowTexts, SameMembers, IsOne;
    RowTaken(k, r, es, seps, sk, numeric, pf);
    TakenForIff(k, Texts(RowTexts(es, seps)), Texts(ts), some);
  }

  /** A row that means something of a value which is none of any texts, as with a ! before the second list, never keeps
    * its meaning. */
  lemma OtherListsLost(k: State, r: string, es: seq<string>, seps: seq<Separator>, mean: Subject -> bool, sk: SizeKind,
                       numeric: bool, pf: FloatParser, some: Subject)
    requires IsRowIn(r, es, seps) && k.enum.None? && Meets(k, some) && mean(some.(isValue := v => false))
    ensures !forall x: Subject :: Keeps(k, MapConjunct(k, "this in " + r, sk, numeric, pf), x, mean(x))
  {
    assert |es| >= 1 && |seps| == |es| - 1;
    hide IsRowIn, Meets, MapConjunct, RowTexts;
    var vs := Texts(RowTexts(es, seps));
    var x := some.(isValue := v => false);
    RowTaken(k, r, es, seps, sk, numeric, pf);
    MeetsWithEnum(k, vs, some);
    MeetsWithEnum(k, vs, x);
    assert !Keeps(k, MapConjunct(k, "this in " + r, sk, numeric, pf), x, mean(x));
  }

  /** Two lists of one literal each never keep the meaning of ||: the two texts are taken for one that is longer. */
  lemma OrPairLost(k: State, r: string, a: string, t: string, sep: Separator, b: string, u: string, sk: SizeKind,
                   numeric: bool, pf: FloatParser, some: Subject)
    requires sep.Link? && IsRowIn(r, [a, b], [sep]) && DenoteEach([a, b], [t, u]) && k.enum.None? && Meets(k, some)
    ensures !forall x: Subject :: Keeps(k, MapConjunct(k, "this in " + r, sk, numeric, pf), x, IsOne(Texts([t, u]), x))
  {
    PairText(a, sep, b);
    PairLonger(a, t, sep, b);
    hide Keeps, Meets, MapConjunct, IsOne, IsRowIn, DenoteEach, RowTexts, Denotes, Trim, Utf8, LiteralText;
    OrListsKeepIff(k, r, [a, b], [sep], [t, u], sk, numeric, pf, some);
    var vs, ws := Texts(RowTexts([a, b], [sep])), Texts([t, u]);
    assert ws[0] == TextValue(t) && ws[0] in ws;
    assert vs == [vs[0]] && vs[0] != TextValue(t);
  }

  lemma PairText(a: string, sep: Separator, b: string)
    requires sep.Link?
    ensures RowTexts([a, b], [sep])
         == [LiteralText(Trim(a)) + ("\"" + (Middle(a, sep, b) + ("\"" + LiteralText(Trim(b)))))]
  {
    hide LiteralText, Trim, Middle;
    assert [a, b][1..] == [b];
    assert [sep][1..] == [];
  }

  lemma PairLonger(a: string, t: string, sep: Separator, b: string)
    requires Denotes(Trim(a), t) && sep.Link? && IsLink(sep)
    ensures LiteralText(Trim(a)) + ("\"" + (Middle(a, sep, b) + ("\"" + LiteralText(Trim(b))))) != t
  {
    MiddleIsBetween(a, sep, b);
    hide Trim, Utf8, Unescape, ProtoBytes, Middle, IsBetween;
    UnescapeIsProto(Inside(Trim(a)));
    Between(LiteralText(Trim(a)), Middle(a, sep, b), LiteralText(Trim(b)));
  }

  const OR_IN := " || this in "
  const OR_NOT_IN := " || !this in "

  lemma OrIsLink()
    ensures IsLink(Link(OR_IN)) && IsLink(Link(OR_NOT_IN))
  {
  }

  /** A list or not another: the rule takes a value that is none of the texts, and the schema refuses it. */
  lemma OrNotInLost(k: State, r: string, es: seq<string>, seps: seq<Separator>, ts: seq<string>, us: seq<string>,
                    sk: SizeKind, numeric: bool, pf: FloatParser, some: Subject)
    requires IsRowIn(r, es, seps) && DenoteEach(es, ts + us) && k.enum.None? && Meets(k, some)
    ensures !forall x: Subject ::
               Keeps(k, MapConjunct(k, "this in " + r, sk, numeric, pf), x, IsOne(Texts(ts), x) || !IsOne(Texts(us), x))
  {
    hide IsRowIn, DenoteEach, Meets, MapConjunct, Keeps;
    var mean := OrNotIn(ts, us);
    OtherListsLost(k, r, es, seps, mean, sk, numeric, pf, some);
  }

  ghost function OrNotIn(ts: seq<string>, us: seq<string>): Subject -> bool
  {
    x => IsOne(Texts(ts), x) || !IsOne(Texts(us), x)
  }
}
