/** The scanners find what is written: calls, lists and comparisons put together from closed parts are taken apart
    into those parts (internal/openapi/validate.go:255-375). */
module RuleReading {
  import opened Options
  import opened GoText
  import opened Decimals
  import opened RuleText
  import opened RuleLexical
  import opened RuleMapper
  import Seqs

  // ---- Plain text ----------------------------------------------------------

  /** A character that is no quote, bracket, comma, ampersand or operator. */
  predicate Calm(c: char)
  {
    !IsQuote(c) && Delta(c) == 0 && c != ',' && c != '&' && c != '<' && c != '>' && c != '='
  }

  ghost predicate AllCalm(t: string)
  {
    forall k :: 0 <= k < |t| ==> Calm(t[k])
  }

  ghost predicate AllSpace(t: string)
  {
    forall k :: 0 <= k < |t| ==> IsSpace(t[k])
  }

  lemma SpaceIsCalm(t: string)
    requires AllSpace(t)
    ensures AllCalm(t)
  {
  }

  lemma {:induction false} LeftIsSpace(s: string)
    ensures |TrimLeft(s)| <= |s| && AllSpace(s[..|s| - |TrimLeft(s)|])
  {
    if s != "" && IsSpace(s[0]) {
      LeftIsSpace(s[1..]);
      var n := |s[1..]| - |TrimLeft(s[1..])|;
      hide TrimLeft;
      SpaceFirst(s, n);
    }
  }

  lemma SpaceFirst(s: string, n: nat)
    requires s != "" && IsSpace(s[0]) && n < |s| && AllSpace(s[1..][..n])
    ensures AllSpace(s[..n + 1])
  {
    hide IsSpace;
    assert forall k :: 0 < k < n + 1 ==> s[k] == s[1..][..n][k - 1];
  }

  lemma {:induction false} RightIsSpace(s: string)
    ensures |TrimRight(s)| <= |s| && AllSpace(s[|TrimRight(s)|..])
  {
    if s != "" && IsSpace(s[|s| - 1]) {
      var u := s[..|s| - 1];
      RightIsSpace(u);
      var n := |TrimRight(u)|;
      hide TrimRight;
      SpaceLast(s, n);
    }
  }

  lemma SpaceLast(s: string, n: nat)
    requires s != "" && IsSpace(s[|s| - 1]) && n < |s| && AllSpace(s[..|s| - 1][n..])
    ensures AllSpace(s[n..])
  {
    hide IsSpace;
    var u := s[..|s| - 1];
    assert forall k :: 0 <= k < |u| - n ==> s[n..][k] == u[n..][k];
  }

  lemma CutAt(s: string, n: nat)
    requires n <= |s|
    ensures s == s[..n] + s[n..]
  {
  }

  /** A text is its trimmed form with white space around it. */
  lemma TrimSplits(s: string) returns (w: string, v: string)
    ensures AllSpace(w) && AllSpace(v) && s == w + (Trim(s) + v)
  {
    var t := TrimLeft(s);
    var r := TrimRight(t);
    LeftIsSpace(s);
    RightIsSpace(t);
    TrimLeftIs(s);
    TrimRightIs(t);
    w, v := s[..|s| - |t|], t[|r|..];
    assert r == t[..|r|];
    CutAt(s, |s| - |t|);
    CutAt(t, |r|);
    hide TrimLeft, TrimRight, AllSpace;
  }

  // ---- Closed and balanced texts -------------------------------------------

  /** Reading over a plain text does not change what is closed. */
  lemma {:induction false} CalmCloses(t: string, x: string, sep: string, d: int)
    requires AllCalm(t) && sep != "" && !Calm(sep[0])
    ensures Closed(t + x, sep, d) <==> Closed(x, sep, d)
    decreases |t|
  {
    if t == "" {
      assert t + x == x;
    } else {
      assert Calm(t[0]);
      CalmCloses(t[1..], x, sep, d);
      assert (t + x)[1..] == t[1..] + x;
      assert (t + x + sep)[0] == t[0];
    }
  }

  /** Nor does reading over a literal. */
  lemma LiteralCloses(l: string, x: string, sep: string, d: int)
    requires IsLiteral(l) && sep != ""
    ensures Closed(l + x, sep, d) <==> Closed(x, sep, d)
  {
    hide LiteralTail;
    LiteralTailLocal(l[1..], '"', x);
    assert (l + x)[1..] == l[1..] + x;
    assert (l + x)[|l|..] == x;
  }

  lemma NothingCloses(sep: string)
    ensures Closed("", sep, 0) && BalancedFrom("", 0)
  {
  }

  lemma {:induction false} CalmBalances(t: string, x: string, d: int)
    requires AllCalm(t) && d >= 0
    ensures BalancedFrom(t + x, d) <==> BalancedFrom(x, d)
    decreases |t|
  {
    if t == "" {
      assert t + x == x;
    } else {
      assert Calm(t[0]);
      CalmBalances(t[1..], x, d);
      assert (t + x)[1..] == t[1..] + x;
    }
  }

  lemma LiteralBalances(l: string, x: string, d: int)
    requires IsLiteral(l)
    ensures BalancedFrom(l + x, d) <==> BalancedFrom(x, d)
  {
    hide LiteralTail;
    LiteralTailLocal(l[1..], '"', x);
    assert (l + x)[1..] == l[1..] + x;
    assert (l + x)[|l|..] == x;
  }

  // ---- Sums of literals ----------------------------------------------------

  /** What stands between two literals of a sum. */
  ghost predicate IsPlus(p: string)
  {
    exists w, v :: AllSpace(w) && AllSpace(v) && p == w + ("+" + v)
  }

  lemma PlusIsCalm(p: string)
    requires IsPlus(p)
    ensures AllCalm(p) && p != "" && forall k :: 0 <= k < |p| ==> p[k] != '\\'
  {
    var w, v :| AllSpace(w) && AllSpace(v) && p == w + ("+" + v);
    SpaceIsCalm(w);
    SpaceIsCalm(v);
  }

  /** Literals with some text between each two. */
  predicate IsChain(ls: seq<string>, ps: seq<string>)
  {
    && |ls| >= 1 && |ps| == |ls| - 1
    && (forall i :: 0 <= i < |ls| ==> IsLiteral(ls[i]))
    && forall i :: 0 <= i < |ps| ==> IsBetween(ps[i])
  }

  predicate IsBetween(p: string)
  {
    p != "" && forall k :: 0 <= k < |p| ==> p[k] != '\\'
  }

  /** Literals with a plus between each two. */
  ghost predicate IsSum(ls: seq<string>, ps: seq<string>)
  {
    && |ls| >= 1 && |ps| == |ls| - 1
    && (forall i :: 0 <= i < |ls| ==> IsLiteral(ls[i]))
    && forall i :: 0 <= i < |ps| ==> IsPlus(ps[i])
  }

  lemma SumIsChain(ls: seq<string>, ps: seq<string>)
    requires IsSum(ls, ps)
    ensures IsChain(ls, ps)
  {
    hide IsLiteral, IsPlus, AllCalm;
    forall i | 0 <= i < |ps|
      ensures IsBetween(ps[i])
    {
      PlusIsCalm(ps[i]);
    }
  }

  function Sum(ls: seq<string>, ps: seq<string>): string
  {
    if ls == [] then "" else if |ls| == 1 || ps == [] then ls[0] else ls[0] + (ps[0] + Sum(ls[1..], ps[1..]))
  }

  /** The bytes that literals denote together. */
  function SumBytes(ls: seq<string>): Option<Bytes>
  {
    if ls == [] then Some([])
    else
      var head := ProtoBytes(Inside(ls[0]));
      if head.None? then None else After(head.value, SumBytes(ls[1..]))
  }

  /** Literals denote the text t together. */
  predicate SumDenotes(ls: seq<string>, t: string)
  {
    SumBytes(ls) == Some(Utf8(t))
  }

  lemma OneDenotes(l: string, t: string)
    requires IsLiteral(l)
    ensures SumDenotes([l], t) <==> Denotes(l, t)
  {
    hide ProtoBytes, Utf8;
    var b := ProtoBytes(Inside(l));
    assert [l][1..] == [];
    assert SumBytes([]) == Some([]);
    assert b.Some? ==> b.value + [] == b.value;
  }

  /** The text a sum is unquoted to: the quotes and signs between the literals are kept. */
  function Taken(ls: seq<string>, ps: seq<string>): string
  {
    if ls == [] then ""
    else if |ls| == 1 || ps == [] then LiteralText(ls[0])
    else LiteralText(ls[0]) + ("\"" + (ps[0] + ("\"" + Taken(ls[1..], ps[1..]))))
  }

  lemma UnescapePair(c: char, z: string)
    ensures Unescape(['\\', c] + z) == [c] + Unescape(z)
  {
    var s := ['\\', c] + z;
    assert s[2..] == z && s[1] == c;
  }

  lemma UnescapeChar(c: char, z: string)
    requires c != '\\'
    ensures Unescape([c] + z) == [c] + Unescape(z)
  {
    assert ([c] + z)[1..] == z;
  }

  /** A character more before a text that is unescaped up to its closing quote. */
  lemma UnescapeBefore(head: string, c: char, u: string, x: string)
    requires u != "" && Unescape(u + x) == Unescape(u[..|u| - 1]) + ("\"" + Unescape(x))
    requires head == ['\\', c] || (head == [c] && c != '\\')
    ensures var s := head + u; Unescape(s + x) == Unescape(s[..|s| - 1]) + ("\"" + Unescape(x))
  {
    var s, cut := head + u, u[..|u| - 1];
    if head == ['\\', c] {
      UnescapePair(c, u + x);
      UnescapePair(c, cut);
    } else {
      UnescapeChar(c, u + x);
      UnescapeChar(c, cut);
    }
    hide Unescape;
    Seqs.Associate(head, u, x);
    assert s[..|s| - 1] == head + cut;
    Seqs.Associate([c], Unescape(cut), "\"" + Unescape(x));
  }

  lemma {:induction false} UnescapeTail(s: string, x: string)
    requires LiteralTail(s, '"') == Some(|s|)
    ensures s[|s| - 1] == '"'
    ensures Unescape(s + x) == Unescape(s[..|s| - 1]) + ("\"" + Unescape(x))
    decreases |s|
  {
    hide Unescape;
    if s[0] == '\\' {
      UnescapeTail(s[2..], x);
      CutAt(s, 2);
      assert s[..2] == ['\\', s[1]];
      UnescapeBefore(s[..2], s[1], s[2..], x);
    } else if s[0] != '"' {
      UnescapeTail(s[1..], x);
      CutAt(s, 1);
      UnescapeBefore(s[..1], s[0], s[1..], x);
    } else {
      assert s == "\"" && s[..0] == "";
      UnescapeChar('"', x);
      UnescapeNothing();
    }
  }

  lemma UnescapeNothing()
    ensures Unescape("") == ""
  {
  }

  lemma {:induction false} UnescapePlus(p: string, x: string)
    requires forall k :: 0 <= k < |p| ==> p[k] != '\\'
    ensures Unescape(p + x) == p + Unescape(x)
  {
    if p == "" {
      assert p + x == x;
    } else {
      UnescapePlus(p[1..], x);
      assert (p + x)[1..] == p[1..] + x;
    }
  }

  lemma LiteralShape(l: string)
    requires IsLiteral(l)
    ensures |l| >= 2 && l[0] == '"' && l[|l| - 1] == '"' && l == "\"" + l[1..]
    ensures LiteralText(l) == Unescape(l[1..|l| - 1])
  {
    UnescapeTail(l[1..], "");
  }

  /** One literal of a sum, and what follows it. */
  lemma UnescapeLiteral(l: string, x: string)
    requires IsLiteral(l)
    ensures Unescape(l[1..] + x) == LiteralText(l) + ("\"" + Unescape(x))
  {
    LiteralShape(l);
    UnescapeTail(l[1..], x);
    hide Unescape, LiteralTail;
    assert l[1..][..|l| - 2] == l[1..|l| - 1];
  }

  lemma {:induction false} SumShape(ls: seq<string>, ps: seq<string>)
    requires IsChain(ls, ps)
    ensures var s := Sum(ls, ps);
            |s| >= 2 && s[0] == '"' && s[|s| - 1] == '"' && Unescape(s[1..|s| - 1]) == Taken(ls, ps)
    decreases |ls|
  {
    hide Unescape, IsLiteral, LiteralText;
    if |ls| > 1 {
      assert IsChain(ls[1..], ps[1..]);
      SumShape(ls[1..], ps[1..]);
      LinkShape(ls[0], ps[0], Sum(ls[1..], ps[1..]));
    } else {
      LiteralShape(ls[0]);
    }
  }

  lemma EndsCut(l: string, p: string, rest: string)
    requires l != "" && rest != ""
    ensures var s := l + (p + rest);
            s[0] == l[0] && s[|s| - 1] == rest[|rest| - 1] && s[1..|s| - 1] == l[1..] + (p + rest[..|rest| - 1])
  {
    var s := l + (p + rest);
    assert s[..|s| - 1] == l + (p + rest[..|rest| - 1]);
  }

  /** One literal more before a text between quotes. */
  lemma LinkShape(l: string, p: string, rest: string)
    requires IsLiteral(l) && IsBetween(p) && |rest| >= 2 && rest[0] == '"' && rest[|rest| - 1] == '"'
    ensures var s := l + (p + rest);
            && |s| >= 2 && s[0] == '"' && s[|s| - 1] == '"'
            && Unescape(s[1..|s| - 1]) == LiteralText(l) + ("\"" + (p + ("\"" + Unescape(rest[1..|rest| - 1]))))
  {
    LiteralShape(l);
    hide Unescape, IsLiteral, LiteralText;
    var s := l + (p + rest);
    var cut := rest[..|rest| - 1];
    EndsCut(l, p, rest);
    UnescapeLiteral(l, p + cut);
    UnescapePlus(p, cut);
    assert cut == "\"" + rest[1..|rest| - 1];
    UnescapePlus("\"", rest[1..|rest| - 1]);
  }

  /** Literals in a row are unquoted as one text, with what stands between them. */
  lemma UnquoteOfSum(ls: seq<string>, ps: seq<string>)
    requires IsChain(ls, ps)
    ensures Unquote(Sum(ls, ps)) == Some(Taken(ls, ps))
  {
    SumShape(ls, ps);
    hide Unescape, Sum, Taken;
  }

  /** Each literal after the first leaves two quotes and what stands before it. */
  lemma {:induction false} TakenLength(ls: seq<string>, ps: seq<string>)
    requires IsChain(ls, ps) && SumBytes(ls).Some?
    ensures |Utf8(Taken(ls, ps))| >= |SumBytes(ls).value| + 3 * (|ls| - 1)
    decreases |ls|
  {
    hide IsLiteral, ProtoBytes, Unescape, Utf8;
    UnescapeIsProto(Inside(ls[0]));
    if |ls| > 1 {
      assert IsChain(ls[1..], ps[1..]);
      TakenLength(ls[1..], ps[1..]);
      Between(LiteralText(ls[0]), ps[0], Taken(ls[1..], ps[1..]));
    } else {
      assert ls[1..] == [] && SumBytes([]) == Some([]);
    }
  }

  lemma Between(a: string, p: string, b: string)
    requires IsBetween(p)
    ensures |Utf8(a + ("\"" + (p + ("\"" + b))))| >= |Utf8(a)| + |Utf8(b)| + 3
  {
    hide Utf8Char;
    Utf8Concat(a, "\"" + (p + ("\"" + b)));
    Utf8Concat("\"", p + ("\"" + b));
    Utf8Concat(p, "\"" + b);
    Utf8Concat("\"", b);
    Utf8Longer("\"");
    Utf8Longer(p);
    hide Utf8;
  }

  /** What literals in a row are taken for is what they denote exactly when there is one, every escape of which
    * stands for its own character. */
  lemma TakenIsMeantIff(ls: seq<string>, ps: seq<string>, t: string)
    requires IsChain(ls, ps) && SumDenotes(ls, t)
    ensures Taken(ls, ps) == t <==> |ls| == 1 && IsDirect(ls[0])
  {
    TakenLength(ls, ps);
    hide SumBytes, Utf8, IsLiteral;
    if |ls| == 1 {
      var l := ls[0];
      assert ls == [l];
      OneDenotes(l, t);
      LiteralTextIff(l);
      if IsDirect(l) {
        DenotesOne(l, t, LiteralText(l));
      }
    }
  }

  lemma {:induction false} SumCloses(ls: seq<string>, ps: seq<string>, x: string, sep: string, d: int)
    requires IsSum(ls, ps) && sep != "" && !Calm(sep[0])
    ensures Closed(Sum(ls, ps) + x, sep, d) <==> Closed(x, sep, d)
    decreases |ls|
  {
    hide IsLiteral, Closed;
    if |ls| == 1 {
      LiteralCloses(ls[0], x, sep, d);
    } else {
      var rest := Sum(ls[1..], ps[1..]);
      assert IsSum(ls[1..], ps[1..]);
      SumCloses(ls[1..], ps[1..], x, sep, d);
      PlusIsCalm(ps[0]);
      CalmCloses(ps[0], rest + x, sep, d);
      LiteralCloses(ls[0], ps[0] + (rest + x), sep, d);
      assert ls[0] + (ps[0] + rest) + x == ls[0] + (ps[0] + (rest + x));
    }
  }

  lemma {:induction false} SumBalances(ls: seq<string>, ps: seq<string>, x: string, d: int)
    requires IsSum(ls, ps) && d >= 0
    ensures BalancedFrom(Sum(ls, ps) + x, d) <==> BalancedFrom(x, d)
    decreases |ls|
  {
    hide IsLiteral, BalancedFrom;
    if |ls| == 1 {
      LiteralBalances(ls[0], x, d);
    } else {
      var rest := Sum(ls[1..], ps[1..]);
      assert IsSum(ls[1..], ps[1..]);
      SumBalances(ls[1..], ps[1..], x, d);
      PlusIsCalm(ps[0]);
      CalmBalances(ps[0], rest + x, d);
      LiteralBalances(ls[0], ps[0] + (rest + x), d);
      assert ls[0] + (ps[0] + rest) + x == ls[0] + (ps[0] + (rest + x));
    }
  }

  // ---- Calls and lists -----------------------------------------------------

  lemma SumBetweenCloses(w: string, ls: seq<string>, ps: seq<string>, v: string, x: string)
    requires AllCalm(w) && AllCalm(v) && IsSum(ls, ps)
    ensures Closed(w + (Sum(ls, ps) + (v + x)), ",", 0) <==> Closed(x, ",", 0)
    ensures BalancedFrom(w + (Sum(ls, ps) + (v + x)), 0) <==> BalancedFrom(x, 0)
  {
    hide Closed, BalancedFrom, Sum, IsSum, AllCalm;
    CalmCloses(v, x, ",", 0);
    CalmBalances(v, x, 0);
    SumCloses(ls, ps, v + x, ",", 0);
    SumBalances(ls, ps, v + x, 0);
    CalmCloses(w, Sum(ls, ps) + (v + x), ",", 0);
    CalmBalances(w, Sum(ls, ps) + (v + x), 0);
  }

  lemma Regroup(w: string, t: string, v: string, x: string)
    ensures w + (t + v) + x == w + (t + (v + x))
  {
  }

  /** A sum with white space around it closes, and balances. */
  lemma SpacedSum(b: string, ls: seq<string>, ps: seq<string>, x: string)
    requires IsSum(ls, ps) && Trim(b) == Sum(ls, ps)
    ensures Closed(b + x, ",", 0) <==> Closed(x, ",", 0)
    ensures BalancedFrom(b + x, 0) <==> BalancedFrom(x, 0)
  {
    var w, v := TrimSplits(b);
    SpaceIsCalm(w);
    SpaceIsCalm(v);
    hide Closed, BalancedFrom, Trim, Sum, IsSum, AllSpace, AllCalm;
    SumBetweenCloses(w, ls, ps, v, x);
    Regroup(w, Sum(ls, ps), v, x);
  }

  /** A text that is calm once trimmed is calm. */
  lemma SpacedCalm(a: string)
    requires AllCalm(Trim(a))
    ensures AllCalm(a)
  {
    var w, v := TrimSplits(a);
    SpaceIsCalm(w);
    SpaceIsCalm(v);
    hide Trim;
  }

  /** The subject of a call is calm text. */
  lemma ThisIsCalm()
    ensures AllCalm("this")
  {
  }

  /** A call of matches on the subject and a sum is taken apart into just these. */
  lemma MatchFound(a: string, b: string, ls: seq<string>, ps: seq<string>)
    requires Trim(a) == "this" && IsSum(ls, ps) && Trim(b) == Sum(ls, ps)
    ensures RawArgs("matches(" + (a + "," + b) + ")", "matches") == Some([a, b])
  {
    hide Closed, BalancedFrom, Trim, Sum, IsSum, AllCalm, HasPrefix, Join;
    ThisIsCalm();
    SpacedCalm(a);
    NothingCloses(",");
    SpacedSum(b, ls, ps, "");
    assert b + "" == b && a + "" == a;
    CalmCloses(a, "", ",", 0);
    CalmBalances(a, "," + b, 0);
    CommaBalances(b);
    JoinOfTwo([a, b], ",");
    SplitOfJoin([a, b], ",");
    var inner := a + "," + b;
    assert inner == a + ("," + b);
    CallShape(inner);
    hide SplitTop;
  }

  lemma CommaBalances(b: string)
    ensures BalancedFrom("," + b, 0) <==> BalancedFrom(b, 0)
  {
    assert ("," + b)[1..] == b;
  }

  lemma CallShape(inner: string)
    ensures var s := "matches(" + inner + ")";
            && HasPrefix(s, "matches" + "(") && |s| > |"matches"| + 1 && s[|s| - 1] == ')'
            && s[|"matches"| + 1..|s| - 1] == inner
  {
    assert "matches" + "(" == "matches(";
  }

  /** A list of closed elements is taken apart into just these. */
  lemma ListFound(r: string, els: seq<string>)
    requires |els| >= 1 && forall i :: 0 <= i < |els| ==> Closed(els[i], ",", 0)
    requires Trim(r) == "[" + Join(els, ",") + "]"
    ensures ListElements(Trim(r)) == Some(els)
  {
    hide Closed, Trim, Join, SplitTop;
    SplitOfJoin(els, ",");
    var t := Trim(r);
    assert t[1..|t| - 1] == Join(els, ",");
  }

  // ---- Comparisons ---------------------------------------------------------

  /** Scanned from depth d, t opens no literal, meets no operator outside brackets and ends outside them. */
  predicate Quiet(t: string, d: int)
    decreases |t|
  {
    if t == "" then d == 0
    else
      var e := d + Delta(t[0]);
      !IsQuote(t[0]) && !(e == 0 && t[0] in "<>=") && Quiet(t[1..], e)
  }

  lemma {:induction false} QuietCompared(t: string, x: string, d: int, left: string)
    requires Quiet(t, d)
    ensures Compared(t + x, d, left) == Compared(x, 0, left + t)
    decreases |t|
  {
    hide Operator;
    if t == "" {
      assert t + x == x && left + t == left;
    } else {
      var e := d + Delta(t[0]);
      NoOperator(t + x);
      QuietCompared(t[1..], x, e, left + [t[0]]);
      assert (t + x)[1..] == t[1..] + x;
      assert left + [t[0]] + t[1..] == left + t;
    }
  }

  lemma NoOperator(s: string)
    ensures s != "" && s[0] !in "<>=" ==> Operator(s).None?
  {
  }

  /** The operator is found where nothing lengthens it. */
  lemma OperatorFound(op: string, rhs: string)
    requires IsOperator(op) && (rhs != "" ==> rhs[0] != '=')
    ensures op != "" && Operator(op + rhs) == Some(op) && (op + rhs)[|op|..] == rhs
    ensures !IsQuote((op + rhs)[0]) && Delta((op + rhs)[0]) == 0
  {
    var s := op + rhs;
    assert s[..|op|] == op && s[|op|..] == rhs;
    LongerFirst(s, op);
  }

  lemma LongerFirst(s: string, op: string)
    requires IsOperator(op) && op <= s && (|s| > |op| ==> s[|op|] != '=')
    ensures op != "" && Operator(s) == Some(op) && !IsQuote(s[0]) && Delta(s[0]) == 0
  {
    assert |s| >= 2 ==> ("<=" <= s <==> s[0] == '<' && s[1] == '=');
    assert |s| >= 2 ==> (">=" <= s <==> s[0] == '>' && s[1] == '=');
    assert |s| >= 2 ==> ("==" <= s <==> s[0] == '=' && s[1] == '=');
    assert s[0] == op[0];
    if |op| == 2 {
      assert s[1] == op[1];
    }
  }

  /** A comparison with a quiet left side is taken apart into its sides. */
  lemma ComparedFound(lhs: string, op: string, rhs: string)
    requires Quiet(lhs, 0) && IsOperator(op) && (rhs != "" ==> rhs[0] != '=')
    ensures Compared(lhs + op + rhs, 0, "") == Some(Comparison(lhs, op, rhs))
  {
    hide Operator, Quiet, IsOperator, IsQuote, Delta, Compared;
    OperatorFound(op, rhs);
    QuietCompared(lhs, op + rhs, 0, "");
    Seqs.Associate(lhs, op, rhs);
    assert "" + lhs == lhs;
    ComparedHere(op + rhs, lhs, op);
  }

  lemma ComparedHere(rest: string, left: string, op: string)
    requires rest != "" && !IsQuote(rest[0]) && Delta(rest[0]) == 0 && Operator(rest) == Some(op)
    ensures Compared(rest, 0, left) == Some(Comparison(left, op, rest[|op|..]))
  {
    hide Operator;
  }

  lemma MethodIsQuiet(v: string)
    ensures Quiet("this.size()" + v, 0) <==> Quiet(v, 0)
  {
    hide Quiet;
    CallIsQuiet("this.size", "", v);
    assert "this.size()" == "this.size" + "(" + "" + ")";
    assert "this.size" + "(" + "" + ")" + v == "this.size" + ("(" + ("" + (")" + v)));
  }

  lemma FunctionIsQuiet(v: string)
    ensures Quiet("size(this)" + v, 0) <==> Quiet(v, 0)
  {
    hide Quiet;
    CallIsQuiet("size", "this", v);
    assert "size(this)" == "size" + "(" + "this" + ")";
    assert "size" + "(" + "this" + ")" + v == "size" + ("(" + ("this" + (")" + v)));
  }

  lemma ValueIsQuiet(v: string)
    ensures Quiet("this" + v, 0) <==> Quiet(v, 0)
  {
    ThisIsCalm();
    InnerIsQuiet("this", v, 0);
  }

  lemma BetweenIsQuiet(w: string, t: string, v: string)
    requires AllCalm(w) && AllCalm(v) && (IsSize(t) || t == "this")
    ensures Quiet(w + (t + v), 0)
  {
    assert Quiet("", 0);
    assert v + "" == v;
    hide Quiet, AllCalm;
    InnerIsQuiet(w, t + v, 0);
    InnerIsQuiet(v, "", 0);
    MethodIsQuiet(v);
    FunctionIsQuiet(v);
    ValueIsQuiet(v);
  }

  /** The subjects of comparisons are quiet, with any white space around them. */
  lemma SubjectIsQuiet(lhs: string)
    requires IsSize(Trim(lhs)) || Trim(lhs) == "this"
    ensures Quiet(lhs, 0)
  {
    var w, v := TrimSplits(lhs);
    SpaceIsCalm(w);
    SpaceIsCalm(v);
    hide Trim, AllCalm, AllSpace, Quiet, IsSize;
    BetweenIsQuiet(w, Trim(lhs), v);
  }

  lemma CallIsQuiet(name: string, arg: string, v: string)
    requires (name == "size" && arg == "this") || (name == "this.size" && arg == "")
    ensures Quiet(name + ("(" + (arg + (")" + v))), 0) <==> Quiet(v, 0)
  {
    NamesAreCalm();
    InnerIsQuiet(name, "(" + (arg + (")" + v)), 0);
    BracketIsQuiet(arg, v);
    hide Quiet;
  }

  lemma NamesAreCalm()
    ensures AllCalm("size") && AllCalm("this.size") && AllCalm("this") && AllCalm("")
  {
  }

  lemma BracketIsQuiet(arg: string, v: string)
    requires arg == "this" || arg == ""
    ensures Quiet("(" + (arg + (")" + v)), 0) <==> Quiet(v, 0)
  {
    var s := "(" + (arg + (")" + v));
    NamesAreCalm();
    assert s[1..] == arg + (")" + v);
    InnerIsQuiet(arg, ")" + v, 1);
    assert (")" + v)[1..] == v;
  }

  lemma {:induction false} InnerIsQuiet(t: string, x: string, d: int)
    requires AllCalm(t)
    ensures Quiet(t + x, d) <==> Quiet(x, d)
  {
    if t == "" {
      assert t + x == x;
    } else {
      assert Calm(t[0]);
      InnerIsQuiet(t[1..], x, d);
      assert (t + x)[1..] == t[1..] + x;
    }
  }
}
