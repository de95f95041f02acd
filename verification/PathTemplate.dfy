/** Path templates and the OpenAPI spelling of them (internal/openapi/operations.go:57-121). */
module PathTemplate {
  import opened GoText
  import Seqs

  /** One {…} of a path: the variable it binds, and the range of the whole segment. */
  datatype Segment = Segment(variable: string, start: nat, end: nat)

  /** A path cut at its segments. */
  datatype Piece = Text(text: string) | Hole(raw: string)

  /** The index of the first c in s, or its length. */
  function IndexOf(s: string, c: char): (i: nat)
    ensures i <= |s| && (i < |s| ==> s[i] == c)
    ensures forall k :: 0 <= k < i ==> s[k] != c
  {
    if s == "" || s[0] == c then 0
    else
      var i := IndexOf(s[1..], c);
      assert forall k :: 0 <= k < i ==> s[k + 1] == s[1..][k];
      i + 1
  }

  lemma IndexIs(s: string, c: char, i: nat)
    requires i <= |s| && (i < |s| ==> s[i] == c) && forall k :: 0 <= k < i ==> s[k] != c
    ensures IndexOf(s, c) == i
  {
    var j := IndexOf(s, c);
    if j < |s| && i < |s| {
      assert s[j] == c && s[i] == c;
    }
  }

  /** The variable of a segment: what precedes its pattern, without white space around it. */
  function Variable(raw: string): (v: string)
    ensures |v| <= |raw|
  {
    var name := raw[..IndexOf(raw, '=')];
    TrimIsShorter(name);
    Trim(name)
  }

  lemma TrimIsShorter(s: string)
    ensures |Trim(s)| <= |s|
  {
    TrimLeftIs(s);
    TrimRightIs(TrimLeft(s));
  }

  lemma VariableIsPiece(raw: string)
    ensures forall c :: c !in raw ==> c !in Variable(raw)
    ensures '=' !in Variable(raw)
  {
    var name := raw[..IndexOf(raw, '=')];
    assert '=' !in name;
    var l := TrimLeft(name);
    TrimLeftIs(name);
    TrimRightIs(l);
    assert forall c :: c in TrimRight(l) ==> c in l;
    assert forall c :: c in l ==> c in name;
  }

  /** A variable is its own variable. */
  lemma VariableStays(raw: string)
    ensures Variable(Variable(raw)) == Variable(raw)
  {
    var v := Variable(raw);
    VariableIsPiece(raw);
    IndexIs(v, '=', |v|);
    assert v[..|v|] == v;
    var l := TrimLeft(raw[..IndexOf(raw, '=')]);
    TrimLeftIs(raw[..IndexOf(raw, '=')]);
    TrimRightIs(l);
    assert v != "" ==> v[0] == l[0];
    assert TrimLeft(v) == v && TrimRight(v) == v;
  }

  // ---- Pieces ----

  /** Where the next segment opens and closes, if there is one. */
  datatype Span = NoSpan | Span(open: nat, close: nat)

  function Next(path: string, i: nat): (r: Span)
    requires i <= |path|
    ensures r.Span? ==> i <= r.open < r.close < |path|
  {
    var open := i + IndexOf(path[i..], '{');
    if open == |path| then NoSpan
    else
      var close := open + IndexOf(path[open..], '}');
      if close == |path| then NoSpan
      else
        assert path[open..][0] == '{';
        Span(open, close)
  }

  lemma NextIs(path: string, open: nat, close: nat)
    requires open < close < |path| && path[open] == '{' && path[close] == '}'
    requires forall k :: 0 <= k < open ==> path[k] != '{'
    requires forall k :: open <= k < close ==> path[k] != '}'
    ensures Next(path, 0) == Span(open, close)
  {
    assert path[0..] == path;
    IndexIs(path, '{', open);
    var tail := path[open..];
    assert forall k :: 0 <= k < close - open ==> tail[k] == path[open + k];
    IndexIs(tail, '}', close - open);
  }

  lemma NextHas(path: string)
    requires Next(path, 0).Span?
    ensures var s := Next(path, 0); '}' !in path[s.open + 1..s.close]
  {
    var s := Next(path, 0);
    var tail := path[s.open..];
    assert forall k :: 0 <= k < s.close - s.open ==> tail[k] != '}';
    assert path[s.open + 1..s.close] == tail[1..s.close - s.open];
  }

  lemma NextShift(path: string, i: nat)
    requires i <= |path|
    ensures Next(path[i..], 0) == match Next(path, i) case NoSpan => NoSpan case Span(o, c) => Span(o - i, c - i)
  {
    var rest := path[i..];
    assert rest[0..] == rest;
    var open := IndexOf(rest, '{');
    assert rest[open..] == path[i + open..];
  }

  function Pieces(path: string): seq<Piece>
    decreases |path|
  {
    match Next(path, 0)
    case NoSpan => [Text(path)]
    case Span(open, close) => [Text(path[..open]), Hole(path[open + 1..close])] + Pieces(path[close + 1..])
  }

  function Render(ps: seq<Piece>): string
  {
    if ps == [] then ""
    else (match ps[0] case Text(t) => t case Hole(raw) => "{" + raw + "}") + Render(ps[1..])
  }

  /** Each segment without its pattern. */
  function Normal(ps: seq<Piece>): (r: seq<Piece>)
    ensures |r| == |ps|
  {
    if ps == [] then []
    else [match ps[0] case Text(t) => Text(t) case Hole(raw) => Hole(Variable(raw))] + Normal(ps[1..])
  }

  /** The variables a path binds, in order. */
  function Variables(ps: seq<Piece>): seq<string>
  {
    if ps == [] then []
    else (match ps[0] case Text(_) => [] case Hole(raw) => [Variable(raw)]) + Variables(ps[1..])
  }

  /** openAPIPath. */
  function OpenApi(path: string): string
  {
    Render(Normal(Pieces(path)))
  }

  lemma PiecesOpen(text: string, raw: string, rest: string)
    requires '{' !in text && '}' !in raw
    ensures Pieces(text + ("{" + raw + "}") + rest) == [Text(text), Hole(raw)] + Pieces(rest)
  {
    var path := text + ("{" + raw + "}") + rest;
    var open, close := |text|, |text| + |raw| + 1;
    assert path[..open] == text;
    assert path[open + 1..close] == raw;
    assert path[close + 1..] == rest;
    assert path[open] == '{' && path[close] == '}';
    assert forall k :: 0 <= k < open ==> path[k] == text[k];
    assert forall k :: open < k < close ==> path[k] == raw[k - open - 1];
    NextIs(path, open, close);
    hide Next;
  }

  /** The text before a segment opens no segment of its own. */
  lemma NextText(path: string)
    requires Next(path, 0).Span?
    ensures '{' !in path[..Next(path, 0).open]
  {
    assert path[0..] == path;
    var open := IndexOf(path, '{');
    assert forall k :: 0 <= k < open ==> path[k] != '{';
  }

  function Shown(p: Piece): string
  {
    match p
    case Text(t) => t
    case Hole(raw) => "{" + raw + "}"
  }

  lemma FirstPiece(p: Piece, ps: seq<Piece>)
    ensures Render([p] + ps) == Shown(p) + Render(ps)
    ensures Normal([p] + ps) == [match p case Text(t) => Text(t) case Hole(raw) => Hole(Variable(raw))] + Normal(ps)
    ensures Variables([p] + ps) == (match p case Text(_) => [] case Hole(raw) => [Variable(raw)]) + Variables(ps)
  {
    hide Variable;
    assert ([p] + ps)[1..] == ps;
  }

  lemma RenderTwo(text: string, raw: string, ps: seq<Piece>)
    ensures Render([Text(text), Hole(raw)] + ps) == text + ("{" + raw + "}") + Render(ps)
    ensures Normal([Text(text), Hole(raw)] + ps) == [Text(text), Hole(Variable(raw))] + Normal(ps)
    ensures Variables([Text(text), Hole(raw)] + ps) == [Variable(raw)] + Variables(ps)
  {
    hide Variable, Render, Normal, Variables;
    FirstPiece(Hole(raw), ps);
    FirstPiece(Text(text), [Hole(raw)] + ps);
    assert [Text(text), Hole(raw)] + ps == [Text(text)] + ([Hole(raw)] + ps);
    Seqs.Associate(text, "{" + raw + "}", Render(ps));
    Seqs.Associate([Text(text)], [Hole(Variable(raw))], Normal(ps));
    assert [Text(text)] + [Hole(Variable(raw))] == [Text(text), Hole(Variable(raw))];
    assert [] + ([Variable(raw)] + Variables(ps)) == [Variable(raw)] + Variables(ps);
  }

  lemma OneText(text: string)
    ensures Normal([Text(text)]) == [Text(text)] && Render([Text(text)]) == text && Variables([Text(text)]) == []
  {
    assert [Text(text)][1..] == [];
    assert Render([]) == "" && text + "" == text;
  }

  /** A path read, normalized and written reads back as what was written. */
  lemma {:induction false} PiecesOfOpenApi(path: string)
    ensures Pieces(OpenApi(path)) == Normal(Pieces(path))
    ensures Variables(Normal(Pieces(path))) == Variables(Pieces(path))
    ensures Normal(Normal(Pieces(path))) == Normal(Pieces(path))
    decreases |path|
  {
    hide Variable, Render, Normal, Variables, Next;
    var span := Next(path, 0);
    if span.NoSpan? {
      OneText(path);
    } else {
      var text, raw, rest := path[..span.open], path[span.open + 1..span.close], path[span.close + 1..];
      PiecesOfOpenApi(rest);
      var more := Pieces(rest);
      RenderTwo(text, raw, more);
      RenderTwo(text, Variable(raw), Normal(more));
      VariableIsPiece(raw);
      VariableStays(raw);
      NextHas(path);
      NextText(path);
      PiecesOpen(text, Variable(raw), Render(Normal(more)));
    }
  }

  /** The OpenAPI spelling is stable, and binds the same variables in the same order. */
  lemma OpenApiStays(path: string)
    ensures OpenApi(OpenApi(path)) == OpenApi(path)
    ensures Variables(Pieces(OpenApi(path))) == Variables(Pieces(path))
  {
    hide Render, Normal, Variables, Pieces;
    PiecesOfOpenApi(path);
  }

  /** Two bindings collide exactly when they differ only in sub-path patterns. */
  lemma CollideIff(path: string, other: string)
    ensures OpenApi(path) == OpenApi(other) <==> Normal(Pieces(path)) == Normal(Pieces(other))
  {
    hide Render, Normal, Variables, Pieces;
    PiecesOfOpenApi(path);
    PiecesOfOpenApi(other);
  }

  // ---- What is written ----

  /** White space only. */
  ghost predicate Blank(s: string)
  {
    forall k :: 0 <= k < |s| ==> IsSpace(s[k])
  }

  lemma {:induction false} TrimLeftOver(w: string, x: string)
    requires Blank(w) && (x == "" || !IsSpace(x[0]))
    ensures TrimLeft(w + x) == x
  {
    hide IsSpace;
    if w == "" {
      assert w + x == x;
    } else {
      TrimLeftOver(w[1..], x);
      assert (w + x)[1..] == w[1..] + x;
    }
  }

  lemma {:induction false} TrimRightOver(x: string, u: string)
    requires Blank(u) && (x == "" || !IsSpace(x[|x| - 1]))
    ensures TrimRight(x + u) == x
  {
    hide IsSpace;
    if u == "" {
      assert x + u == x;
    } else {
      TrimRightOver(x, u[..|u| - 1]);
      assert (x + u)[..|x + u| - 1] == x + u[..|u| - 1];
    }
  }

  lemma TrimOver(w: string, x: string, u: string)
    requires Blank(w) && Blank(u) && (x == "" || (!IsSpace(x[0]) && !IsSpace(x[|x| - 1])))
    ensures Trim(w + x + u) == x
  {
    hide TrimLeft, TrimRight, IsSpace;
    if x == "" {
      assert w + x + u == (w + u) + "" && Blank(w + u);
      TrimLeftOver(w + u, "");
      assert "" + "" == "";
      TrimRightOver("", "");
    } else {
      TrimLeftOver(w, x + u);
      assert w + x + u == w + (x + u);
      TrimRightOver(x, u);
    }
  }

  /** A name with white space around it, and a pattern after an equals sign or none, has the name as its variable. */
  lemma VariableIs(w: string, name: string, u: string, pattern: string)
    requires Blank(w) && Blank(u) && (pattern == "" || pattern[0] == '=')
    requires name == "" || ('=' !in name && !IsSpace(name[0]) && !IsSpace(name[|name| - 1]))
    ensures Variable(w + name + u + pattern) == name
  {
    var front := w + name + u;
    assert forall k :: 0 <= k < |front| ==> front[k] != '=' by {
      assert !IsSpace('=');
      assert '=' !in w && '=' !in u;
    }
    var raw := front + pattern;
    assert forall k :: 0 <= k < |front| ==> raw[k] == front[k];
    IndexIs(raw, '=', |front|);
    assert raw[..|front|] == front;
    hide Trim, IsSpace;
    TrimOver(w, name, u);
  }

  /** Text without an opening brace, a segment, and the rest: the segment is written as its variable. */
  lemma OpenApiOfSegment(text: string, raw: string, rest: string)
    requires '{' !in text && '}' !in raw
    ensures OpenApi(text + ("{" + raw + "}") + rest) == text + ("{" + Variable(raw) + "}") + OpenApi(rest)
    ensures Variables(Pieces(text + ("{" + raw + "}") + rest)) == [Variable(raw)] + Variables(Pieces(rest))
  {
    PiecesOpen(text, raw, rest);
    hide Variable, Render, Normal, Pieces, Variables;
    RenderTwo(text, raw, Pieces(rest));
    RenderTwo(text, Variable(raw), Normal(Pieces(rest)));
  }

  /** Text in which no brace opens, or none closes after the first that does, is written as it is. */
  lemma OpenApiOfText(text: string, open: string)
    requires '{' !in text && (open == "" || (open[0] == '{' && '}' !in open))
    ensures OpenApi(text + open) == text + open && Variables(Pieces(text + open)) == []
  {
    var path := text + open;
    assert path[0..] == path;
    assert forall k :: 0 <= k < |text| ==> path[k] == text[k];
    IndexIs(path, '{', |text|);
    assert path[|text|..] == open;
    IndexIs(open, '}', |open|);
    assert Next(path, 0).NoSpan?;
    hide Next;
    OneText(path);
  }

  // ---- The scans ----

  /** The segments of a path from i on. */
  ghost function SegmentsFrom(path: string, i: nat): (segs: seq<Segment>)
    requires i <= |path|
    decreases |path| - i
  {
    match Next(path, i)
    case NoSpan => []
    case Span(open, close) =>
      [Segment(Variable(path[open + 1..close]), open, close + 1)] + SegmentsFrom(path, close + 1)
  }

  /** templateSegments. */
  method TemplateSegments(path: string) returns (out: seq<Segment>)
    ensures out == SegmentsFrom(path, 0)
  {
    hide Variable, IndexOf, Next;
    out := [];
    var i := 0;
    while i < |path|
      invariant i <= |path|
      invariant out + SegmentsFrom(path, i) == SegmentsFrom(path, 0)
      decreases |path| - i
    {
      var next := FindNext(path, i);
      if next.NoSpan? {
        assert out + [] == out;
        return;
      }
      var segment := Segment(Variable(path[next.open + 1..next.close]), next.open, next.close + 1);
      Seqs.Associate(out, [segment], SegmentsFrom(path, next.close + 1));
      out := out + [segment];
      i := next.close + 1;
    }
    NoneAtEnd(path);
    assert out + [] == out;
  }

  /** The searches of one turn of the loop: an opening brace, then a closing one. */
  method FindNext(path: string, i: nat) returns (r: Span)
    requires i <= |path|
    ensures r == Next(path, i)
  {
    var open := i + IndexOf(path[i..], '{');
    if open == |path| {
      return NoSpan;
    }
    var close := open + IndexOf(path[open..], '}');
    r := if close == |path| then NoSpan else Span(open, close);
  }

  lemma NoneAtEnd(path: string)
    ensures SegmentsFrom(path, |path|) == []
  {
    assert path[|path|..] == "";
  }

  /** Segments follow each other within the path. */
  ghost predicate Ordered(path: string, segs: seq<Segment>, prev: nat)
    decreases segs
  {
    segs == [] || (prev <= segs[0].start <= segs[0].end <= |path| && Ordered(path, segs[1..], segs[0].end))
  }

  /** What writing the text between segments makes of them. */
  ghost function Written(path: string, segs: seq<Segment>, prev: nat): string
    requires prev <= |path| && Ordered(path, segs, prev)
    decreases segs
  {
    if segs == [] then path[prev..]
    else path[prev..segs[0].start] + ("{" + segs[0].variable + "}") + Written(path, segs[1..], segs[0].end)
  }

  lemma {:induction false} WrittenIsOpenApi(path: string, i: nat)
    requires i <= |path|
    ensures Ordered(path, SegmentsFrom(path, i), i)
    ensures Written(path, SegmentsFrom(path, i), i) == OpenApi(path[i..])
    decreases |path| - i
  {
    hide Variable, Render, Normal, Next;
    var rest := path[i..];
    NextShift(path, i);
    match Next(path, i)
    case NoSpan => OneText(rest);
    case Span(open, close) =>
      WrittenIsOpenApi(path, close + 1);
      WrittenStep(path, i, open, close);
  }

  lemma PiecesFirst(path: string, i: nat, open: nat, close: nat)
    requires i <= open < close < |path| && Next(path[i..], 0) == Span(open - i, close - i)
    ensures Pieces(path[i..]) == [Text(path[i..open]), Hole(path[open + 1..close])] + Pieces(path[close + 1..])
  {
    hide Next;
    var rest := path[i..];
    assert rest[..open - i] == path[i..open];
    assert rest[open - i + 1..close - i] == path[open + 1..close];
    assert rest[close - i + 1..] == path[close + 1..];
  }

  lemma OpenApiFirst(path: string, i: nat, open: nat, close: nat)
    requires i <= open < close < |path| && Next(path[i..], 0) == Span(open - i, close - i)
    ensures OpenApi(path[i..])
              == path[i..open] + ("{" + Variable(path[open + 1..close]) + "}") + OpenApi(path[close + 1..])
  {
    PiecesFirst(path, i, open, close);
    hide Variable, Render, Normal, Next, Pieces;
    var raw, more := path[open + 1..close], Pieces(path[close + 1..]);
    RenderTwo(path[i..open], raw, more);
    RenderTwo(path[i..open], Variable(raw), Normal(more));
  }

  lemma WrittenStep(path: string, i: nat, open: nat, close: nat)
    requires i <= open < close < |path| && Next(path, i) == Span(open, close)
    requires Next(path[i..], 0) == Span(open - i, close - i)
    requires Ordered(path, SegmentsFrom(path, close + 1), close + 1)
    requires Written(path, SegmentsFrom(path, close + 1), close + 1) == OpenApi(path[close + 1..])
    ensures Ordered(path, SegmentsFrom(path, i), i)
    ensures Written(path, SegmentsFrom(path, i), i) == OpenApi(path[i..])
  {
    hide Variable, Next, SegmentsFrom, OpenApi, Written;
    SegmentsFirst(path, i, open, close);
    OpenApiFirst(path, i, open, close);
    WrittenFirst(path, SegmentsFrom(path, i), i);
  }

  lemma WrittenFirst(path: string, segs: seq<Segment>, prev: nat)
    requires prev <= |path| && segs != [] && Ordered(path, segs, prev)
    ensures Written(path, segs, prev)
         == path[prev..segs[0].start] + ("{" + segs[0].variable + "}") + Written(path, segs[1..], segs[0].end)
  {
  }

  lemma SegmentsFirst(path: string, i: nat, open: nat, close: nat)
    requires i <= open < close < |path| && Next(path, i) == Span(open, close)
    ensures SegmentsFrom(path, i) != []
    ensures SegmentsFrom(path, i)[0] == Segment(Variable(path[open + 1..close]), open, close + 1)
    ensures SegmentsFrom(path, i)[1..] == SegmentsFrom(path, close + 1)
  {
    hide Variable, Next;
  }

  /** openAPIPath: the text between segments, and each segment's variable in braces. */
  method OpenApiPath(path: string) returns (r: string)
    ensures r == OpenApi(path)
  {
    hide OpenApi, SegmentsFrom;
    var segs := TemplateSegments(path);
    WrittenIsOpenApi(path, 0);
    assert path[0..] == path;
    if |segs| == 0 {
      return path;
    }
    var b, prev: nat, k := "", 0, 0;
    assert segs[0..] == segs && "" + Written(path, segs, 0) == Written(path, segs, 0);
    while k < |segs|
      invariant k <= |segs| && prev <= |path|
      invariant Ordered(path, segs[k..], prev)
      invariant b + Written(path, segs[k..], prev) == OpenApi(path)
    {
      var seg := segs[k];
      assert segs[k..][0] == seg && segs[k..][1..] == segs[k + 1..];
      WrittenNext(path, segs[k..], prev, b);
      b := b + path[prev..seg.start];
      b := b + ("{" + seg.variable + "}");
      prev := seg.end;
      k := k + 1;
    }
    assert segs[k..] == [];
    r := b + path[prev..];
  }

  lemma WrittenNext(path: string, segs: seq<Segment>, prev: nat, b: string)
    requires prev <= |path| && segs != [] && Ordered(path, segs, prev)
    ensures b + Written(path, segs, prev)
         == b + path[prev..segs[0].start] + ("{" + segs[0].variable + "}") + Written(path, segs[1..], segs[0].end)
  {
    var x, y, z := path[prev..segs[0].start], "{" + segs[0].variable + "}", Written(path, segs[1..], segs[0].end);
    hide Written;
    assert b + (x + y + z) == b + x + y + z;
  }
}
