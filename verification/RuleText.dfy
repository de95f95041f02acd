/** Scanning rule text: string literals are opaque, and separators count only
    outside brackets. */
module RuleText {
  import opened Options
  import opened GoText

  predicate IsQuote(c: char)
  {
    c == '"' || c == '\''
  }

  /** The length of the rest of a literal that closes with quote, its closing quote
      included, and None when it does not close. */
  function LiteralTail(s: string, quote: char): (n: Option<nat>)
    ensures n.Some? ==> 1 <= n.value <= |s|
  {
    if s == "" then None
    else if s[0] == '\\' then
      if |s| == 1 then None
      else
        match LiteralTail(s[2..], quote)
        case None => None
        case Some(n) => Some(n + 2)
    else if s[0] == quote then Some(1)
    else
      match LiteralTail(s[1..], quote)
      case None => None
      case Some(n) => Some(n + 1)
  }

  /** The length of the literal that s opens with: up to its closing quote, and all
      of s when it does not close. */
  function LiteralLen(s: string): (n: nat)
    requires s != "" && IsQuote(s[0])
    ensures 1 <= n <= |s|
  {
    match LiteralTail(s[1..], s[0])
    case None => |s|
    case Some(n) => n + 1
  }

  /** s is one string literal. */
  predicate IsLiteral(s: string)
  {
    s != "" && s[0] == '"' && LiteralTail(s[1..], '"') == Some(|s| - 1)
  }

  function Delta(c: char): int
  {
    if c == '(' || c == '[' || c == '{' then 1
    else if c == ')' || c == ']' || c == '}' then -1
    else 0
  }

  predicate HasPrefix(s: string, p: string)
  {
    p <= s
  }

  // ---- Splitting at a separator --------------------------------------------

  /** The pieces of what has been read of a piece and of the text left, at bracket
      depth d. */
  function Pieces(rest: string, sep: string, d: int, piece: string): (ps: seq<string>)
    requires sep != ""
    ensures |ps| >= 1
    decreases |rest|
  {
    if rest == "" then [piece]
    else if IsQuote(rest[0]) then
      var n := LiteralLen(rest);
      Pieces(rest[n..], sep, d, piece + rest[..n])
    else
      var e := d + Delta(rest[0]);
      if e == 0 && HasPrefix(rest, sep) then [piece] + Pieces(rest[|sep|..], sep, e, "")
      else Pieces(rest[1..], sep, e, piece + [rest[0]])
  }

  function SplitTop(s: string, sep: string): seq<string>
    requires sep != ""
  {
    Pieces(s, sep, 0, "")
  }

  function Join(ps: seq<string>, sep: string): string
  {
    if ps == [] then "" else if |ps| == 1 then ps[0] else ps[0] + sep + Join(ps[1..], sep)
  }

  /** The pieces joined again are the text. */
  lemma {:induction false} JoinOfPieces(rest: string, sep: string, d: int, piece: string)
    requires sep != ""
    ensures Join(Pieces(rest, sep, d, piece), sep) == piece + rest
    decreases |rest|
  {
    hide HasPrefix, Delta, LiteralLen, Join;
    JoinOne(piece, sep);
    if rest != "" {
      if IsQuote(rest[0]) {
        var n := LiteralLen(rest);
        JoinOfPieces(rest[n..], sep, d, piece + rest[..n]);
        assert piece + rest[..n] + rest[n..] == piece + rest;
      } else {
        var e := d + Delta(rest[0]);
        if e == 0 && HasPrefix(rest, sep) {
          PrefixThenRest(rest, sep);
          JoinOfPieces(rest[|sep|..], sep, e, "");
          JoinCons(piece, Pieces(rest[|sep|..], sep, e, ""), sep);
          assert piece + sep + ("" + rest[|sep|..]) == piece + rest;
        } else {
          JoinOfPieces(rest[1..], sep, e, piece + [rest[0]]);
          assert piece + [rest[0]] + rest[1..] == piece + rest;
        }
      }
    } else {
      assert piece + rest == piece;
    }
  }

  lemma JoinOne(p: string, sep: string)
    ensures Join([p], sep) == p
  {
  }

  lemma PrefixThenRest(s: string, sep: string)
    requires HasPrefix(s, sep)
    ensures |sep| <= |s| && s == sep + s[|sep|..]
  {
  }

  lemma JoinCons(p: string, ps: seq<string>, sep: string)
    requires |ps| >= 1
    ensures Join([p] + ps, sep) == p + sep + Join(ps, sep)
  {
    assert ([p] + ps)[1..] == ps;
  }

  /** t has no separator outside its brackets and literals, closes both, and does
      not run into a separator put after it. */
  predicate Closed(t: string, sep: string, d: int)
    decreases |t|
  {
    if t == "" then d == 0
    else if IsQuote(t[0]) then
      var n := LiteralTail(t[1..], t[0]);
      n.Some? && Closed(t[n.value + 1..], sep, d)
    else
      var e := d + Delta(t[0]);
      !(e == 0 && HasPrefix(t + sep, sep)) && Closed(t[1..], sep, e)
  }

  lemma {:induction false} LiteralTailLocal(s: string, quote: char, x: string)
    requires LiteralTail(s, quote).Some?
    ensures LiteralTail(s + x, quote) == LiteralTail(s, quote)
  {
    if s[0] == '\\' {
      LiteralTailLocal(s[2..], quote, x);
      assert (s + x)[2..] == s[2..] + x;
    } else if s[0] != quote {
      LiteralTailLocal(s[1..], quote, x);
      assert (s + x)[1..] == s[1..] + x;
    }
  }

  lemma PiecesOfQuoted(rest: string, n: nat, sep: string, d: int, piece: string)
    requires sep != "" && rest != "" && IsQuote(rest[0]) && LiteralTail(rest[1..], rest[0]) == Some(n)
    ensures Pieces(rest, sep, d, piece) == Pieces(rest[n + 1..], sep, d, piece + rest[..n + 1])
  {
    hide LiteralTail;
  }

  lemma PiecesOfPlain(rest: string, sep: string, d: int, piece: string)
    requires sep != "" && rest != "" && !IsQuote(rest[0]) && !(d + Delta(rest[0]) == 0 && HasPrefix(rest, sep))
    ensures Pieces(rest, sep, d, piece) == Pieces(rest[1..], sep, d + Delta(rest[0]), piece + [rest[0]])
  {
    hide HasPrefix, Delta;
  }

  /** A closed text is read as part of one piece. */
  lemma {:induction false} PiecesOfClosed(t: string, x: string, sep: string, d: int, piece: string)
    requires sep != "" && Closed(t, sep, d) && (x == "" || HasPrefix(x, sep))
    ensures Pieces(t + x, sep, d, piece) == Pieces(x, sep, 0, piece + t)
    decreases |t|
  {
    hide LiteralTail, Pieces, HasPrefix, Delta;
    if t == "" {
      assert t + x == x && piece + t == piece;
    } else if IsQuote(t[0]) {
      var n := LiteralTail(t[1..], t[0]).value;
      LiteralTailLocal(t[1..], t[0], x);
      assert (t + x)[1..] == t[1..] + x;
      assert (t + x)[n + 1..] == t[n + 1..] + x;
      assert (t + x)[..n + 1] == t[..n + 1];
      PiecesOfQuoted(t + x, n, sep, d, piece);
      PiecesOfClosed(t[n + 1..], x, sep, d, piece + t[..n + 1]);
      assert piece + t[..n + 1] + t[n + 1..] == piece + t;
    } else {
      var e := d + Delta(t[0]);
      NoEarlyCut(t, x, sep, e);
      assert (t + x)[1..] == t[1..] + x;
      PiecesOfPlain(t + x, sep, d, piece);
      PiecesOfClosed(t[1..], x, sep, e, piece + [t[0]]);
      assert piece + [t[0]] + t[1..] == piece + t;
    }
  }

  lemma NoEarlyCut(t: string, x: string, sep: string, e: int)
    requires t != "" && sep != "" && !(e == 0 && HasPrefix(t + sep, sep)) && (x == "" || HasPrefix(x, sep))
    ensures !(e == 0 && HasPrefix(t + x, sep))
  {
    if HasPrefix(t + x, sep) {
      assert (t + sep)[..|sep|] == (t + x)[..|sep|];
    }
  }

  /** Closed pieces joined are split into the same pieces. */
  lemma {:induction false} SplitOfJoin(ps: seq<string>, sep: string)
    requires sep != "" && sep[0] != '"' && sep[0] != '\'' && Delta(sep[0]) == 0
    requires |ps| >= 1 && forall i :: 0 <= i < |ps| ==> Closed(ps[i], sep, 0)
    ensures SplitTop(Join(ps, sep), sep) == ps
  {
    if |ps| == 1 {
      PiecesOfClosed(ps[0], "", sep, 0, "");
      assert ps[0] + "" == ps[0] && "" + ps[0] == ps[0];
    } else {
      var x := sep + Join(ps[1..], sep);
      PiecesOfClosed(ps[0], x, sep, 0, "");
      assert ps[0] + sep + Join(ps[1..], sep) == ps[0] + x;
      assert "" + ps[0] == ps[0];
      assert x[|sep|..] == Join(ps[1..], sep);
      SplitOfJoin(ps[1..], sep);
    }
  }

  // ---- Splitting at a comparison -------------------------------------------

  datatype Comparison = Comparison(lhs: string, op: string, rhs: string)

  predicate IsOperator(op: string)
  {
    op == "<=" || op == ">=" || op == "==" || op == "<" || op == ">"
  }

  /** The comparison operator s opens with; longer ones first. */
  function Operator(s: string): (op: Option<string>)
    ensures op.Some? ==> HasPrefix(s, op.value) && IsOperator(op.value)
  {
    if HasPrefix(s, "<=") then Some("<=")
    else if HasPrefix(s, ">=") then Some(">=")
    else if HasPrefix(s, "==") then Some("==")
    else if HasPrefix(s, "<") then Some("<")
    else if HasPrefix(s, ">") then Some(">")
    else None
  }

  function Compared(rest: string, d: int, left: string): (c: Option<Comparison>)
    decreases |rest|
  {
    if rest == "" then None
    else if IsQuote(rest[0]) then
      var n := LiteralLen(rest);
      Compared(rest[n..], d, left + rest[..n])
    else
      var e := d + Delta(rest[0]);
      var op := Operator(rest);
      if e == 0 && op.Some? then Some(Comparison(left, op.value, rest[|op.value|..]))
      else Compared(rest[1..], e, left + [rest[0]])
  }

  /** What a comparison's parts are put together from. */
  lemma {:induction false} ComparedSplits(rest: string, d: int, left: string)
    requires Compared(rest, d, left).Some?
    ensures var c := Compared(rest, d, left).value;
            c.lhs + c.op + c.rhs == left + rest && IsOperator(c.op)
    decreases |rest|
  {
    hide Operator, IsOperator, LiteralLen;
    if IsQuote(rest[0]) {
      var n := LiteralLen(rest);
      ComparedSplits(rest[n..], d, left + rest[..n]);
      assert left + rest[..n] + rest[n..] == left + rest;
    } else {
      var e := d + Delta(rest[0]);
      var op := Operator(rest);
      if e == 0 && op.Some? {
        assert left + op.value + rest[|op.value|..] == left + rest;
      } else {
        ComparedSplits(rest[1..], e, left + [rest[0]]);
        assert left + [rest[0]] + rest[1..] == left + rest;
      }
    }
  }

  // ---- Calls ---------------------------------------------------------------

  predicate BalancedFrom(rest: string, d: int)
    decreases |rest|
  {
    if rest == "" then d == 0
    else if IsQuote(rest[0]) then BalancedFrom(rest[LiteralLen(rest)..], d)
    else
      var e := d + Delta(rest[0]);
      e >= 0 && BalancedFrom(rest[1..], e)
  }

  /** Opening brackets less closing ones. */
  function Depth(t: string): int
  {
    if t == "" then 0
    else Depth(t[..|t| - 1]) + (if t[|t| - 1] in "([{" then 1 else 0) - (if t[|t| - 1] in ")]}" then 1 else 0)
  }

  lemma DeltaIs(c: char)
    ensures Delta(c) == (if c in "([{" then 1 else 0) - (if c in ")]}" then 1 else 0)
  {
    assert "([{"[0] == '(' && "([{"[1] == '[' && "([{"[2] == '{';
    assert ")]}"[0] == ')' && ")]}"[1] == ']' && ")]}"[2] == '}';
  }

  lemma {:induction false} DepthFirst(t: string)
    requires t != ""
    ensures Depth(t) == Delta(t[0]) + Depth(t[1..])
  {
    hide Delta;
    var u, l := t[..|t| - 1], t[|t| - 1];
    DeltaIs(l);
    if |t| > 1 {
      DepthFirst(u);
      assert t[1..][..|t| - 2] == u[1..];
    } else {
      assert u == "" && t[1..] == "";
    }
  }

  /** No front of t closes more than is open, and all of it closes all. */
  ghost predicate NeverBelow(t: string, d: int)
  {
    (forall k :: 0 < k <= |t| ==> d + Depth(t[..k]) >= 0) && d + Depth(t) == 0
  }

  /** A text without literals is balanced exactly when no front of it closes more brackets than it opens, and all of it
      as many. */
  lemma {:induction false} BalancedIff(t: string, d: int)
    requires forall k :: 0 <= k < |t| ==> t[k] != '"' && t[k] != '\''
    ensures BalancedFrom(t, d) <==> NeverBelow(t, d)
  {
    if t != "" {
      var e := d + Delta(t[0]);
      assert !IsQuote(t[0]);
      BalancedIff(t[1..], e);
      DepthFirst(t);
      forall k | 0 < k <= |t|
        ensures d + Depth(t[..k]) == e + Depth(t[1..][..k - 1])
      {
        DepthFirst(t[..k]);
        assert t[..k][1..] == t[1..][..k - 1];
      }
      hide Delta, Depth;
      NeverBelowStep(t, d, e);
    }
  }

  lemma NeverBelowStep(t: string, d: int, e: int)
    requires t != "" && d + Depth(t) == e + Depth(t[1..])
    requires forall k :: 0 < k <= |t| ==> d + Depth(t[..k]) == e + Depth(t[1..][..k - 1])
    ensures NeverBelow(t, d) <==> e >= 0 && NeverBelow(t[1..], e)
  {
    assert t[1..][..0] == "" && Depth("") == 0;
    hide Depth;
    assert d + Depth(t[..1]) == e + Depth(t[1..][..0]);
    forall k | 0 < k <= |t| - 1
      ensures d + Depth(t[..k + 1]) == e + Depth(t[1..][..k])
    {
    }
  }

  function TrimAll(ps: seq<string>): (ts: seq<string>)
    ensures |ts| == |ps|
    ensures forall i :: 0 <= i < |ps| ==> ts[i] == Trim(ps[i])
  {
    seq(|ps|, i requires 0 <= i < |ps| => Trim(ps[i]))
  }

  /** The arguments of a call of name that s is, as they stand between the commas. */
  function RawArgs(s: string, name: string): Option<seq<string>>
  {
    if HasPrefix(s, name + "(") && |s| > |name| + 1 && s[|s| - 1] == ')' then
      var inner := s[|name| + 1..|s| - 1];
      if BalancedFrom(inner, 0) then Some(SplitTop(inner, ",")) else None
    else None
  }

  lemma RawArgsSplit(s: string, name: string)
    requires RawArgs(s, name).Some?
    ensures s == name + "(" + Join(RawArgs(s, name).value, ",") + ")"
  {
    var inner := s[|name| + 1..|s| - 1];
    JoinOfPieces(inner, ",", 0, "");
    assert s == name + "(" + ("" + inner) + ")";
  }

  // ---- Literals ------------------------------------------------------------

  function Unescape(s: string): string
  {
    if s == "" then ""
    else if s[0] == '\\' && |s| > 1 then [s[1]] + Unescape(s[2..])
    else [s[0]] + Unescape(s[1..])
  }

  /** s without one layer of double quotes. */
  function Unquote(s: string): Option<string>
  {
    if |s| >= 2 && s[0] == '"' && s[|s| - 1] == '"' then Some(Unescape(s[1..|s| - 1])) else None
  }

  // ---- The scanners --------------------------------------------------------

  function Further(n: Option<nat>, k: nat): Option<nat>
  {
    match n case None => None case Some(m) => Some(m + k)
  }

  /** One character of a literal, in positions of s. */
  lemma LiteralStep(s: string, j: nat, quote: char)
    requires j < |s|
    ensures s[j] == '\\' ==> LiteralTail(s[j..], quote) == if j + 2 <= |s|
              then Further(LiteralTail(s[j + 2..], quote), 2) else None
    ensures s[j] != '\\' ==> LiteralTail(s[j..], quote) == if s[j] == quote then Some(1)
              else Further(LiteralTail(s[j + 1..], quote), 1)
  {
    var t := s[j..];
    assert |t| >= 2 ==> t[2..] == s[j + 2..];
    assert t[1..] == s[j + 1..];
  }

  /** Past the literal that opens at s[i]; one past the end when an escape is cut
      off. */
  method SkipString(s: string, i: nat) returns (j: nat)
    requires i < |s| && IsQuote(s[i])
    ensures j <= |s| ==> j == i + LiteralLen(s[i..])
    ensures j > |s| ==> j == |s| + 1 && i + LiteralLen(s[i..]) == |s|
  {
    hide LiteralTail;
    var quote := s[i];
    j := i + 1;
    assert s[i..][1..] == s[j..];
    while j < |s|
      invariant i < j <= |s| + 1
      invariant j <= |s| ==> LiteralTail(s[i + 1..], quote) == Further(LiteralTail(s[j..], quote), j - i - 1)
      invariant j == |s| + 1 ==> LiteralTail(s[i + 1..], quote).None?
    {
      LiteralStep(s, j, quote);
      if s[j] == '\\' {
        j := j + 1;
      } else if s[j] == quote {
        return j + 1;
      }
      j := j + 1;
    }
    NothingTail(s, j, quote);
  }

  lemma NothingTail(s: string, j: nat, quote: char)
    ensures j == |s| ==> LiteralTail(s[j..], quote).None?
  {
  }

  /** One step of the scan, in positions of s. */
  lemma PiecesAt(s: string, sep: string, d: int, start: nat, i: nat)
    requires sep != "" && start <= i < |s|
    ensures var here, e, rest := Pieces(s[i..], sep, d, s[start..i]), d + Delta(s[i]), s[i..];
            if IsQuote(s[i]) then
              var k := i + LiteralLen(rest);
              here == Pieces(s[k..], sep, d, s[start..k])
            else if e == 0 && HasPrefix(rest, sep) then
              var k := i + |sep|;
              here == [s[start..i]] + Pieces(s[k..], sep, e, s[k..k])
            else here == Pieces(s[i + 1..], sep, e, s[start..i + 1])
  {
    hide LiteralLen;
    var rest := s[i..];
    if IsQuote(s[i]) {
      var n := LiteralLen(rest);
      assert s[start..i] + rest[..n] == s[start..i + n];
      assert rest[n..] == s[i + n..];
    } else if d + Delta(s[i]) == 0 && HasPrefix(rest, sep) {
      assert rest[|sep|..] == s[i + |sep|..];
      assert s[i + |sep|..i + |sep|] == "";
    } else {
      assert s[start..i] + [rest[0]] == s[start..i + 1];
      assert rest[1..] == s[i + 1..];
    }
  }

  /** s split at every sep outside brackets and literals. */
  method SplitTopLevel(s: string, sep: string) returns (out: seq<string>)
    requires sep != ""
    ensures out == SplitTop(s, sep)
  {
    hide LiteralLen, Pieces;
    out := [];
    var depth: int, start: nat, i: nat := 0, 0, 0;
    assert s[0..] == s;
    while i < |s|
      invariant start <= |s| && start <= i <= |s| + 1
      invariant i <= |s| ==> SplitTop(s, sep) == out + Pieces(s[i..], sep, depth, s[start..i])
      invariant i > |s| ==> SplitTop(s, sep) == out + [s[start..]]
    {
      PiecesAt(s, sep, depth, start, i);
      if IsQuote(s[i]) {
        i := SkipString(s, i);
        PiecesAtEnd(s, sep, depth, start);
      } else {
        depth := depth + Delta(s[i]);
        if depth == 0 && HasPrefix(s[i..], sep) {
          ghost var k := i + |sep|;
          assert out + ([s[start..i]] + Pieces(s[k..], sep, depth, s[k..k]))
              == out + [s[start..i]] + Pieces(s[k..], sep, depth, s[k..k]);
          out := out + [s[start..i]];
          i := i + |sep|;
          start := i;
        } else {
          i := i + 1;
        }
      }
    }
    PiecesAtEnd(s, sep, depth, start);
    out := out + [s[start..]];
  }

  lemma PiecesAtEnd(s: string, sep: string, d: int, start: nat)
    requires sep != "" && start <= |s|
    ensures Pieces(s[|s|..], sep, d, s[start..|s|]) == [s[start..]]
  {
    assert s[|s|..] == "" && s[start..|s|] == s[start..];
  }

  method Balanced(s: string) returns (ok: bool)
    ensures ok == BalancedFrom(s, 0)
  {
    hide LiteralLen;
    var depth: int, i: nat := 0, 0;
    while i < |s|
      invariant i <= |s| + 1
      invariant BalancedFrom(s, 0) == if i <= |s| then BalancedFrom(s[i..], depth) else depth == 0
    {
      var rest := s[i..];
      if IsQuote(s[i]) {
        var j := SkipString(s, i);
        assert rest[LiteralLen(rest)..] == s[i + LiteralLen(rest)..];
        i := j;
      } else {
        depth := depth + Delta(s[i]);
        if depth < 0 {
          return false;
        }
        assert rest[1..] == s[i + 1..];
        i := i + 1;
      }
    }
    return depth == 0;
  }

  lemma ComparedAt(s: string, d: int, i: nat)
    requires i < |s|
    ensures var here, e, op := Compared(s[i..], d, s[..i]), d + Delta(s[i]), Operator(s[i..]);
            if IsQuote(s[i]) then
              var k := i + LiteralLen(s[i..]);
              here == Compared(s[k..], d, s[..k])
            else if e == 0 && op.Some? then here == Some(Comparison(s[..i], op.value, s[i..][|op.value|..]))
            else here == Compared(s[i + 1..], e, s[..i + 1])
  {
    hide LiteralLen, Operator;
    var rest := s[i..];
    if IsQuote(s[i]) {
      var n := LiteralLen(rest);
      assert s[..i] + rest[..n] == s[..i + n];
      assert rest[n..] == s[i + n..];
    } else {
      assert s[..i] + [rest[0]] == s[..i + 1];
      assert rest[1..] == s[i + 1..];
    }
  }

  lemma NothingCompared(d: int, left: string)
    ensures Compared("", d, left) == None
  {
  }

  /** The sides of the first comparison outside brackets and literals. */
  method SplitComparison(s: string) returns (c: Option<Comparison>)
    ensures c == match Compared(s, 0, "") case None => None
                 case Some(k) => Some(Comparison(Trim(k.lhs), k.op, Trim(k.rhs)))
  {
    hide LiteralLen, Trim, Compared, Operator;
    var depth: int, i: nat := 0, 0;
    assert s[0..] == s && s[..0] == "";
    while i < |s|
      invariant i <= |s| + 1
      invariant i <= |s| ==> Compared(s, 0, "") == Compared(s[i..], depth, s[..i])
      invariant i > |s| ==> Compared(s, 0, "") == None
    {
      ComparedAt(s, depth, i);
      if IsQuote(s[i]) {
        i := SkipString(s, i);
        NothingCompared(depth, s);
        assert s[|s|..] == "" && s[..|s|] == s;
      } else {
        depth := depth + Delta(s[i]);
        var op := Operator(s[i..]);
        if depth == 0 && op.Some? {
          return Some(Comparison(Trim(s[..i]), op.value, Trim(s[i..][|op.value|..])));
        }
        i := i + 1;
      }
    }
    if i == |s| {
      NothingCompared(depth, s[..i]);
      assert s[i..] == "";
    }
    return None;
  }

  /** The trimmed arguments of a call of name that s is. */
  method CallArgs(s: string, name: string) returns (args: Option<seq<string>>)
    ensures args == match RawArgs(s, name) case None => None case Some(ps) => Some(TrimAll(ps))
  {
    hide Trim;
    if !(HasPrefix(s, name + "(") && |s| > |name| + 1 && s[|s| - 1] == ')') {
      return None;
    }
    var inner := s[|name| + 1..|s| - 1];
    var ok := Balanced(inner);
    if !ok {
      return None;
    }
    var parts := SplitTopLevel(inner, ",");
    return Some(TrimAll(parts));
  }
}
