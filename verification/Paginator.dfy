/** Stripping and emitting the page chrome of a draft (scripts/repaginate_draft.py:67-152). */
module Paginator {
  import opened Options
  import opened PageLines
  import Seqs

  const CONTENT_LINES: nat := 50
  const PAGE_HEIGHT: nat := 58

  /** A line the stripping may skip: white space only, or the running header. */
  predicate Soft(line: string)
  {
    Blank(line) || IsHeader(line)
  }

  function Blanks(n: nat): (s: seq<string>)
    ensures |s| == n && forall k :: 0 <= k < n ==> s[k] == ""
  {
    seq(n, i => "")
  }

  // ---- Stripping ----

  /** The index of the first footer, or the number of lines. */
  function FirstFooter(ls: seq<string>): (n: nat)
    ensures n <= |ls| && (n < |ls| ==> IsFooter(ls[n]))
    ensures forall k :: 0 <= k < n ==> !IsFooter(ls[k])
  {
    if ls == [] || IsFooter(ls[0]) then 0
    else
      var n := FirstFooter(ls[1..]);
      assert forall k :: 0 <= k < n ==> ls[k + 1] == ls[1..][k];
      n + 1
  }

  /** ls without its soft lines at the front, at most `most` of them. */
  function SkipSoft(ls: seq<string>, most: nat): (r: seq<string>)
    ensures |r| <= |ls|
  {
    if most > 0 && ls != [] && Soft(ls[0]) then SkipSoft(ls[1..], most - 1) else ls
  }

  /** body without its empty lines at the end, at most `most` of them. */
  function PopEmpty(body: seq<string>, most: nat): (r: seq<string>)
    ensures |r| <= |body| && r == body[..|r|]
  {
    if most > 0 && body != [] && body[|body| - 1] == "" then PopEmpty(body[..|body| - 1], most - 1) else body
  }

  /** The content stream of ls, after what is already in body. */
  function Strip(ls: seq<string>, body: seq<string>): seq<string>
    decreases |ls|
  {
    if ls == [] then body
    else if IsFooter(ls[0]) then Strip(SkipSoft(ls[1..], 4), PopEmpty(body, 3))
    else Strip(ls[1..], body + [ls[0]])
  }

  /** The clean content after page 1 of a draft that has a footer. */
  function Content(after: seq<string>): seq<string>
  {
    var body := Strip(SkipSoft(after, |after|), []);
    PopEmpty(body, |body|)
  }

  // ---- Emitting ----

  function Min(a: nat, b: nat): nat
  {
    if a < b then a else b
  }

  function PageTop(): (ls: seq<string>)
    ensures |ls| == 4
  {
    ["", RUNNING_HEADER, "", ""]
  }

  function PageEnd(page: nat): (ls: seq<string>)
    ensures |ls| == 4
  {
    ["", "", ""] + [Footer(page)]
  }

  function Page(chunk: seq<string>, page: nat): (ls: seq<string>)
    requires |chunk| <= CONTENT_LINES
    ensures |ls| == PAGE_HEIGHT
  {
    PageTop() + (chunk + (Blanks(CONTENT_LINES - |chunk|) + PageEnd(page)))
  }

  function Emit(body: seq<string>, page: nat): seq<string>
    decreases |body|
  {
    if body == [] then []
    else
      var n := Min(|body|, CONTENT_LINES);
      Page(body[..n], page) + Emit(body[n..], page + 1)
  }

  function Repaginated(ls: seq<string>): Option<seq<string>>
  {
    var p := FirstFooter(ls);
    if p == |ls| then None else Some(ls[..p + 1] + Emit(Content(ls[p + 1..]), 2))
  }

  // ---- What stripping makes of pages ----

  ghost predicate NoFooters(ls: seq<string>)
  {
    forall k :: 0 <= k < |ls| ==> !IsFooter(ls[k])
  }

  lemma {:induction false} StripPlain(ls: seq<string>, rest: seq<string>, body: seq<string>)
    requires NoFooters(ls)
    ensures Strip(ls + rest, body) == Strip(rest, body + ls)
    decreases |ls|
  {
    hide IsFooter;
    if ls == [] {
      assert ls + rest == rest && body + ls == body;
    } else {
      StripPlain(ls[1..], rest, body + [ls[0]]);
      assert (ls + rest)[1..] == ls[1..] + rest;
      assert body + [ls[0]] + ls[1..] == body + ls;
    }
  }

  lemma PopOne(body: seq<string>, most: nat)
    ensures PopEmpty(body + [""], most + 1) == PopEmpty(body, most)
  {
    assert (body + [""])[..|body|] == body;
  }

  lemma PopThree(body: seq<string>)
    ensures PopEmpty(body + ["", "", ""], 3) == body
  {
    hide PopEmpty;
    PopOne(body, 0);
    PopOne(body + [""], 1);
    PopOne(body + [""] + [""], 2);
    assert PopEmpty(body, 0) == body by {
      PopNone(body);
    }
    assert body + ["", "", ""] == body + [""] + [""] + [""];
  }

  lemma PopNone(body: seq<string>)
    ensures PopEmpty(body, 0) == body
    ensures Trimmed(body) ==> forall most: nat :: PopEmpty(body, most) == body
  {
  }

  /** One page's content, its padding and its footer. */
  lemma StripPage(chunk: seq<string>, n: nat, page: nat, rest: seq<string>, body: seq<string>)
    requires NoFooters(chunk)
    ensures Strip(chunk + (Blanks(n) + PageEnd(page)) + rest, body)
         == Strip(SkipSoft(rest, 4), body + chunk + Blanks(n))
  {
    hide IsFooter, PopEmpty, Footer, Blanks, SkipSoft;
    var b := ["", "", ""];
    var plain := chunk + (Blanks(n) + b);
    assert NoFooters(plain) by {
      FooterIsHard("");
    }
    assert chunk + (Blanks(n) + (b + [Footer(page)])) + rest == plain + ([Footer(page)] + rest);
    StripPlain(plain, [Footer(page)] + rest, body);
    FooterIsFooter(page);
    assert ([Footer(page)] + rest)[1..] == rest;
    assert body + plain == body + chunk + Blanks(n) + b;
    PopThree(body + chunk + Blanks(n));
  }

  ghost predicate Trimmed(body: seq<string>)
  {
    body != [] ==> body[|body| - 1] != ""
  }

  lemma BlanksMore(n: nat)
    ensures Blanks(n + 1) == Blanks(n) + [""]
  {
  }

  lemma {:induction false} PopBlanks(body: seq<string>, n: nat, most: nat)
    requires Trimmed(body) && n <= most
    ensures PopEmpty(body + Blanks(n), most) == body
  {
    PopNone(body);
    if n == 0 {
      assert body + Blanks(0) == body;
    } else {
      PopBlanks(body, n - 1, most - 1);
      BlanksMore(n - 1);
      hide PopEmpty, Blanks;
      PopOne(body + Blanks(n - 1), most - 1);
      Seqs.Associate(body, Blanks(n - 1), [""]);
    }
  }

  lemma SkipOne(x: string, r: seq<string>, most: nat)
    requires Soft(x)
    ensures SkipSoft([x] + r, most + 1) == SkipSoft(r, most)
  {
    assert ([x] + r)[1..] == r;
  }

  lemma SkipTop(r: seq<string>)
    ensures SkipSoft(PageTop() + r, 4) == r
  {
    SoftEmpty();
    hide Soft;
    SkipOne("", r, 0);
    SkipOne("", [""] + r, 1);
    SkipOne(RUNNING_HEADER, [""] + ([""] + r), 2);
    SkipOne("", [RUNNING_HEADER] + ([""] + ([""] + r)), 3);
    assert PageTop() + r == [""] + ([RUNNING_HEADER] + ([""] + ([""] + r)));
  }

  lemma SoftEmpty()
    ensures Soft("") && Soft(RUNNING_HEADER)
  {
    HeaderIsHeader();
  }

  /** A page and what follows it, without the page's four top lines. */
  function PageTail(chunk: seq<string>, page: nat, rest: seq<string>): seq<string>
    requires |chunk| <= CONTENT_LINES
  {
    chunk + (Blanks(CONTENT_LINES - |chunk|) + PageEnd(page)) + rest
  }

  lemma PageSplits(chunk: seq<string>, page: nat, rest: seq<string>)
    requires |chunk| <= CONTENT_LINES
    ensures Page(chunk, page) + rest == PageTop() + PageTail(chunk, page, rest)
  {
    hide Footer, Blanks;
  }

  /** Stripping pages gives back their content, and the padding of the last one. */
  lemma {:induction false} StripPages(b: seq<string>, page: nat, body: seq<string>) returns (pad: nat)
    requires NoFooters(b)
    ensures Strip(SkipSoft(Emit(b, page), 4), body) == body + b + Blanks(pad)
    decreases |b|, 0
  {
    hide Strip, SkipSoft, IsFooter, PageTail;
    if b == [] {
      pad := 0;
      assert Strip(SkipSoft([], 4), body) == body by {
        StripNothing(body);
      }
      assert body + b + Blanks(0) == body;
    } else {
      var n := Min(|b|, CONTENT_LINES);
      var chunk, rest := b[..n], b[n..];
      PageSplits(chunk, page, Emit(rest, page + 1));
      SkipTop(PageTail(chunk, page, Emit(rest, page + 1)));
      pad := StripTail(chunk, rest, page, body);
      assert body + chunk + rest == body + b;
    }
  }

  lemma StripNothing(body: seq<string>)
    ensures Strip(SkipSoft([], 4), body) == body
  {
  }

  /** The same below the top lines of the first page. */
  lemma {:induction false} StripTail(chunk: seq<string>, rest: seq<string>, page: nat, body: seq<string>)
    returns (pad: nat)
    requires |chunk| <= CONTENT_LINES && NoFooters(chunk) && NoFooters(rest)
    requires rest != [] ==> |chunk| == CONTENT_LINES
    ensures Strip(PageTail(chunk, page, Emit(rest, page + 1)), body) == body + chunk + rest + Blanks(pad)
    decreases |rest|, 1
  {
    hide Strip, SkipSoft, IsFooter;
    var n := CONTENT_LINES - |chunk|;
    StripPage(chunk, n, page, Emit(rest, page + 1), body);
    pad := StripPages(rest, page + 1, body + chunk + Blanks(n));
    hide Emit;
    if rest == [] {
      assert body + chunk + Blanks(n) + rest + Blanks(pad) == body + chunk + rest + Blanks(n + pad);
      pad := n + pad;
    } else {
      assert Blanks(n) == [];
      assert body + chunk + Blanks(n) == body + chunk;
    }
  }

  // ---- Which repagination is stable ----

  /** How many lines at the front of ls are soft, at most `most`. */
  function SoftCount(ls: seq<string>, most: nat): (n: nat)
    ensures n <= |ls| && n <= most
    ensures forall k :: 0 <= k < n ==> Soft(ls[k])
    ensures n < |ls| && n < most ==> !Soft(ls[n])
  {
    if most > 0 && ls != [] && Soft(ls[0]) then
      var n := SoftCount(ls[1..], most - 1);
      assert forall k :: 0 <= k < n ==> ls[k + 1] == ls[1..][k];
      n + 1
    else 0
  }

  lemma {:induction false} SkipRun(a: seq<string>, b: seq<string>, most: nat)
    requires |a| <= most && forall k :: 0 <= k < |a| ==> Soft(a[k])
    ensures SkipSoft(a + b, most) == SkipSoft(b, most - |a|)
  {
    if a == [] {
      assert a + b == b;
    } else {
      SkipRun(a[1..], b, most - 1);
      assert (a + b)[1..] == a[1..] + b;
    }
  }

  lemma SkipStops(b: seq<string>, most: nat)
    requires b != [] ==> !Soft(b[0])
    ensures SkipSoft(b, most) == b
  {
  }

  lemma BlanksSoft(n: nat)
    ensures forall k :: 0 <= k < n ==> Soft(Blanks(n)[k])
  {
    SoftEmpty();
    hide Soft;
  }

  /** The lines of a first page after its soft ones, when none of its content is hard. */
  lemma SkipSoftPage(chunk: seq<string>, page: nat, rest: seq<string>, most: nat)
    requires |chunk| <= CONTENT_LINES && most >= CONTENT_LINES + 3
    requires forall k :: 0 <= k < |chunk| ==> Soft(chunk[k])
    ensures SkipSoft(PageTail(chunk, page, rest), most) == [Footer(page)] + rest
  {
    var n := CONTENT_LINES - |chunk|;
    BlanksSoft(n);
    SoftEmpty();
    FooterIsFooter(page);
    FooterIsHard(Footer(page));
    var soft := chunk + (Blanks(n) + ["", "", ""]);
    assert PageTail(chunk, page, rest) == soft + ([Footer(page)] + rest);
    assert !Soft(Footer(page));
    hide Soft, SkipSoft, Footer, Blanks;
    SkipRun(soft, [Footer(page)] + rest, most);
    SkipStops([Footer(page)] + rest, most - |soft|);
  }

  lemma SkipPartOfPage(chunk: seq<string>, n: nat, page: nat, rest: seq<string>, most: nat)
    requires n < |chunk| <= CONTENT_LINES && most >= n && !Soft(chunk[n])
    requires forall k :: 0 <= k < n ==> Soft(chunk[k])
    ensures SkipSoft(PageTail(chunk, page, rest), most)
         == chunk[n..] + (Blanks(CONTENT_LINES - |chunk|) + PageEnd(page)) + rest
  {
    hide Soft, SkipSoft, Footer, Blanks;
    var tail := chunk[n..] + (Blanks(CONTENT_LINES - |chunk|) + PageEnd(page)) + rest;
    assert chunk == chunk[..n] + chunk[n..];
    assert PageTail(chunk, page, rest) == chunk[..n] + tail;
    SkipRun(chunk[..n], tail, most);
    SkipStops(tail, most - n);
  }

  lemma {:induction false} EmitLength(b: seq<string>, page: nat)
    ensures |b| <= CONTENT_LINES * (|Emit(b, page)| / PAGE_HEIGHT)
    ensures |Emit(b, page)| % PAGE_HEIGHT == 0
    ensures b != [] ==> |Emit(b, page)| >= PAGE_HEIGHT
    decreases |b|
  {
    if b != [] {
      EmitLength(b[Min(|b|, CONTENT_LINES)..], page + 1);
    }
  }

  /** The first page when some of its content is hard. */
  lemma ContentOfHardPage(chunk: seq<string>, c: nat, rest: seq<string>, page: nat, most: nat) returns (pad: nat)
    requires c < |chunk| <= CONTENT_LINES && NoFooters(chunk) && NoFooters(rest)
    requires rest != [] ==> |chunk| == CONTENT_LINES
    requires most >= c && !Soft(chunk[c]) && forall k :: 0 <= k < c ==> Soft(chunk[k])
    ensures Strip(SkipSoft(PageTail(chunk, page, Emit(rest, page + 1)), most), []) == chunk[c..] + rest + Blanks(pad)
  {
    hide Soft, Strip, SkipSoft, IsFooter, Footer;
    var n := CONTENT_LINES - |chunk|;
    SkipPartOfPage(chunk, c, page, Emit(rest, page + 1), most);
    StripPage(chunk[c..], n, page, Emit(rest, page + 1), []);
    assert [] + chunk[c..] + Blanks(n) == chunk[c..] + Blanks(n);
    var p := StripPages(rest, page + 1, chunk[c..] + Blanks(n));
    pad := if rest == [] then n + p else p;
    hide Emit, PageTail;
    if rest == [] {
      assert chunk[c..] + Blanks(n) + rest + Blanks(p) == chunk[c..] + rest + Blanks(n + p);
    } else {
      assert Blanks(n) == [];
      assert chunk[c..] + Blanks(n) == chunk[c..];
    }
  }

  /** The first page when none of its content is hard. */
  lemma ContentOfSoftPage(chunk: seq<string>, rest: seq<string>, page: nat, most: nat) returns (pad: nat)
    requires |chunk| <= CONTENT_LINES && NoFooters(rest) && most >= CONTENT_LINES + 3
    requires forall k :: 0 <= k < |chunk| ==> Soft(chunk[k])
    ensures Strip(SkipSoft(PageTail(chunk, page, Emit(rest, page + 1)), most), []) == rest + Blanks(pad)
  {
    var after := Emit(rest, page + 1);
    SkipSoftPage(chunk, page, after, most);
    FooterIsFooter(page);
    assert ([Footer(page)] + after)[1..] == after;
    assert PopEmpty([], 3) == [];
    assert Strip([Footer(page)] + after, []) == Strip(SkipSoft(after, 4), []) by {
      hide SkipSoft, Emit, IsFooter, Footer;
    }
    pad := StripPages(rest, page + 1, []);
    hide Strip, SkipSoft, Emit, PageTail;
    assert [] + rest == rest;
  }

  lemma SkipFirstTop(b: seq<string>, page: nat)
    requires b != []
    ensures var after, n := Emit(b, page), Min(|b|, CONTENT_LINES);
            |after| >= PAGE_HEIGHT &&
            SkipSoft(after, |after|) == SkipSoft(PageTail(b[..n], page, Emit(b[n..], page + 1)), |after| - 4)
  {
    var after, n := Emit(b, page), Min(|b|, CONTENT_LINES);
    EmitLength(b, page);
    PageSplits(b[..n], page, Emit(b[n..], page + 1));
    SoftEmpty();
    hide Soft, SkipSoft, PageTail;
    SkipRun(PageTop(), PageTail(b[..n], page, Emit(b[n..], page + 1)), |after|);
  }

  lemma StripOfEmit(b: seq<string>, page: nat) returns (pad: nat)
    requires NoFooters(b)
    ensures var after := Emit(b, page);
            Strip(SkipSoft(after, |after|), []) == b[SoftCount(b, CONTENT_LINES)..] + Blanks(pad)
  {
    hide Soft, IsFooter, SkipSoft, Strip, SoftCount, PageTail, Page;
    if b == [] {
      pad := 0;
      StripOfNothing();
      assert b[SoftCount(b, CONTENT_LINES)..] + Blanks(0) == [];
    } else {
      var n, c := Min(|b|, CONTENT_LINES), SoftCount(b, CONTENT_LINES);
      var chunk, rest := b[..n], b[n..];
      SkipFirstTop(b, page);
      hide Emit, Blanks;
      CutChunk(b, n, c);
      if c < n {
        pad := ContentOfHardPage(chunk, c, rest, page, |Emit(b, page)| - 4);
      } else {
        pad := ContentOfSoftPage(chunk, rest, page, |Emit(b, page)| - 4);
      }
    }
  }

  lemma CutChunk(b: seq<string>, n: nat, c: nat)
    requires c <= n <= |b|
    ensures forall k :: 0 <= k < c ==> b[..n][k] == b[k]
    ensures b[..n][c..] + b[n..] == b[c..]
  {
  }

  /** What a second stripping finds: everything but the soft lines the first page opens with. */
  lemma ContentOfEmit(b: seq<string>, page: nat)
    requires Trimmed(b) && NoFooters(b)
    ensures Content(Emit(b, page)) == b[SoftCount(b, CONTENT_LINES)..]
  {
    hide Soft, IsFooter, SkipSoft, Strip, PopEmpty, SoftCount, Emit;
    var pad := StripOfEmit(b, page);
    var rest := b[SoftCount(b, CONTENT_LINES)..];
    PopBlanks(rest, pad, |rest + Blanks(pad)|);
  }

  lemma StripOfNothing()
    ensures Emit([], 2) == [] && Strip(SkipSoft([], 0), []) == []
  {
  }

  lemma {:induction false} StripKeepsPlain(ls: seq<string>, body: seq<string>)
    requires NoFooters(body)
    ensures NoFooters(Strip(ls, body))
    decreases |ls|
  {
    hide IsFooter, SkipSoft, PopEmpty;
    if ls != [] {
      if IsFooter(ls[0]) {
        StripKeepsPlain(SkipSoft(ls[1..], 4), PopEmpty(body, 3));
      } else {
        StripKeepsPlain(ls[1..], body + [ls[0]]);
      }
    }
  }

  lemma {:induction false} PopTrims(body: seq<string>, most: nat)
    requires most >= |body|
    ensures Trimmed(PopEmpty(body, most))
  {
    if body != [] && body[|body| - 1] == "" {
      PopTrims(body[..|body| - 1], most - 1);
    }
  }

  lemma ContentIsClean(after: seq<string>)
    ensures Trimmed(Content(after)) && NoFooters(Content(after))
  {
    hide IsFooter, SkipSoft, Strip;
    var body := Strip(SkipSoft(after, |after|), []);
    StripKeepsPlain(SkipSoft(after, |after|), []);
    PopTrims(body, |body|);
    hide PopEmpty;
  }

  /** Pages of different contents differ. */
  lemma EmitInjective(a: seq<string>, b: seq<string>, page: nat)
    requires Trimmed(a) && NoFooters(a) && Trimmed(b) && NoFooters(b)
    requires Emit(a, page) == Emit(b, page)
    ensures a == b
  {
    hide IsFooter, SkipSoft, Strip, PopEmpty, Emit;
    var p := StripPages(a, page, []);
    var q := StripPages(b, page, []);
    assert [] + a == a && [] + b == b;
    PopBlanks(a, p, p + q);
    PopBlanks(b, q, p + q);
  }

  lemma FirstFooterOf(a: seq<string>, b: seq<string>)
    requires a != [] && IsFooter(a[|a| - 1]) && NoFooters(a[..|a| - 1])
    ensures FirstFooter(a + b) == |a| - 1
  {
    hide IsFooter;
    var n := FirstFooter(a + b);
    assert (a + b)[|a| - 1] == a[|a| - 1];
    assert forall k :: 0 <= k < |a| - 1 ==> (a + b)[k] == a[..|a| - 1][k];
  }

  /** Repaginating twice is repaginating once exactly when the first content line is hard. */
  lemma RepaginateTwice(ls: seq<string>)
    requires Repaginated(ls).Some?
    ensures var body := Content(ls[FirstFooter(ls) + 1..]);
            Repaginated(Repaginated(ls).value) == Repaginated(ls) <==> body == [] || !Soft(body[0])
  {
    hide IsFooter, Soft, FirstFooter, Content, Emit, Strip, SkipSoft, PopEmpty, SoftCount;
    var p := FirstFooter(ls);
    var body, out := Content(ls[p + 1..]), Repaginated(ls).value;
    var pages := Emit(body, 2);
    ContentIsClean(ls[p + 1..]);
    assert ls[..p + 1][..p] == ls[..p];
    FirstFooterOf(ls[..p + 1], pages);
    assert out[p + 1..] == pages && out[..p + 1] == ls[..p + 1];
    ContentOfEmit(body, 2);
    var again := body[SoftCount(body, CONTENT_LINES)..];
    assert Repaginated(out) == Some(ls[..p + 1] + Emit(again, 2));
    assert ls[..p + 1] + Emit(again, 2) == out ==> Emit(again, 2) == pages by {
      assert out[p + 1..] == pages;
      assert (ls[..p + 1] + Emit(again, 2))[p + 1..] == Emit(again, 2);
    }
    assert Trimmed(again) && NoFooters(again);
    if Emit(again, 2) == pages {
      EmitInjective(again, body, 2);
    }
    assert again == body <==> SoftCount(body, CONTENT_LINES) == 0;
  }

  /** A first content line that is no footer makes the run stable. */
  lemma FirstLineStays(ls: seq<string>, body: seq<string>)
    requires body != [] && !Soft(body[0])
    ensures Strip(ls, body) != [] && Strip(ls, body)[0] == body[0]
    decreases |ls|
  {
    hide IsFooter, Soft, SkipSoft;
    if ls != [] {
      if IsFooter(ls[0]) {
        PopKeepsHard(body, 3);
        FirstLineStays(SkipSoft(ls[1..], 4), PopEmpty(body, 3));
      } else {
        FirstLineStays(ls[1..], body + [ls[0]]);
      }
    }
  }

  lemma {:induction false} PopKeepsHard(body: seq<string>, most: nat)
    requires body != [] && !Soft(body[0])
    ensures PopEmpty(body, most) != [] && PopEmpty(body, most)[0] == body[0]
  {
    SoftEmpty();
    hide Soft;
    if most > 0 && |body| > 1 && body[|body| - 1] == "" {
      PopKeepsHard(body[..|body| - 1], most - 1);
    }
  }

  lemma {:induction false} SkipStopsHard(ls: seq<string>, most: nat)
    requires most >= |ls|
    ensures var r := SkipSoft(ls, most); r != [] ==> !Soft(r[0])
  {
    if ls != [] && Soft(ls[0]) {
      SkipStopsHard(ls[1..], most - 1);
    }
  }

  lemma FirstContentHard(after: seq<string>)
    requires var r := SkipSoft(after, |after|); r != [] ==> !IsFooter(r[0])
    ensures Content(after) == [] || !Soft(Content(after)[0])
  {
    var r := SkipSoft(after, |after|);
    SkipStopsHard(after, |after|);
    hide IsFooter, Soft, SkipSoft;
    if r == [] {
      assert Content(after) == [];
    } else {
      assert Strip(r, []) == Strip(r[1..], [] + [r[0]]);
      hide Strip;
      FirstLineStays(r[1..], [] + [r[0]]);
      PopKeepsHard(Strip(r, []), |Strip(r, [])|);
    }
  }

  /** A draft whose first hard line below page 1's chrome is no footer is stable after one run. */
  lemma StableAfterOne(ls: seq<string>)
    requires Repaginated(ls).Some?
    requires var after := ls[FirstFooter(ls) + 1..]; var r := SkipSoft(after, |after|); r != [] ==> !IsFooter(r[0])
    ensures Repaginated(Repaginated(ls).value) == Repaginated(ls)
  {
    FirstContentHard(ls[FirstFooter(ls) + 1..]);
    RepaginateTwice(ls);
    hide IsFooter, Soft, SkipSoft, Repaginated, FirstFooter, Content;
  }

  // ---- What a run keeps ----

  /** The lines that carry text: no blank line, header or footer. */
  function Kept(ls: seq<string>): seq<string>
  {
    if ls == [] then []
    else if Soft(ls[0]) || IsFooter(ls[0]) then Kept(ls[1..])
    else [ls[0]] + Kept(ls[1..])
  }

  lemma {:induction false} KeptConcat(a: seq<string>, b: seq<string>)
    ensures Kept(a + b) == Kept(a) + Kept(b)
  {
    hide Soft, IsFooter;
    if a == [] {
      assert a + b == b;
    } else {
      KeptConcat(a[1..], b);
      assert (a + b)[1..] == a[1..] + b;
      Seqs.Associate([a[0]], Kept(a[1..]), Kept(b));
    }
  }

  lemma KeptOne(x: string)
    ensures Kept([x]) == if Soft(x) || IsFooter(x) then [] else [x]
  {
    hide Soft, IsFooter;
    assert [x][1..] == [];
  }

  lemma {:induction false} KeptSkip(ls: seq<string>, most: nat)
    ensures Kept(SkipSoft(ls, most)) == Kept(ls)
  {
    hide Soft, IsFooter;
    if most > 0 && ls != [] && Soft(ls[0]) {
      KeptSkip(ls[1..], most - 1);
    }
  }

  lemma {:induction false} KeptPop(body: seq<string>, most: nat)
    ensures Kept(PopEmpty(body, most)) == Kept(body)
  {
    SoftEmpty();
    hide Soft, IsFooter, Kept;
    if most > 0 && body != [] && body[|body| - 1] == "" {
      KeptPop(body[..|body| - 1], most - 1);
      KeptConcat(body[..|body| - 1], [""]);
      KeptOne("");
      assert body == body[..|body| - 1] + [""];
    }
  }

  lemma {:induction false} KeptStrip(ls: seq<string>, body: seq<string>)
    ensures Kept(Strip(ls, body)) == Kept(body) + Kept(ls)
    decreases |ls|
  {
    hide Soft, IsFooter, PopEmpty, SkipSoft;
    if ls != [] {
      if IsFooter(ls[0]) {
        KeptStrip(SkipSoft(ls[1..], 4), PopEmpty(body, 3));
        KeptSkip(ls[1..], 4);
        KeptPop(body, 3);
      } else {
        KeptStrip(ls[1..], body + [ls[0]]);
        KeptConcat(body, [ls[0]]);
        KeptOne(ls[0]);
      }
    }
  }

  lemma {:induction false} KeptBlanks(n: nat)
    ensures Kept(Blanks(n)) == []
  {
    SoftEmpty();
    hide Soft, IsFooter;
    if n > 0 {
      KeptBlanks(n - 1);
      assert Blanks(n)[1..] == Blanks(n - 1);
    }
  }

  lemma KeptTop()
    ensures Kept(PageTop()) == []
  {
    SoftEmpty();
    hide Soft, IsFooter, Kept;
    KeptOne("");
    KeptOne(RUNNING_HEADER);
    KeptFour("", RUNNING_HEADER, "", "");
  }

  lemma KeptEnd(page: nat)
    ensures Kept(PageEnd(page)) == []
  {
    SoftEmpty();
    FooterIsFooter(page);
    hide Soft, IsFooter, Kept, Footer;
    KeptOne("");
    KeptOne(Footer(page));
    KeptFour("", "", "", Footer(page));
    assert PageEnd(page) == ["", "", "", Footer(page)];
  }

  lemma KeptPage(chunk: seq<string>, page: nat)
    requires |chunk| <= CONTENT_LINES
    ensures Kept(Page(chunk, page)) == Kept(chunk)
  {
    hide Kept, Blanks, PageTop, PageEnd;
    KeptTop();
    KeptEnd(page);
    KeptBlanks(CONTENT_LINES - |chunk|);
    KeptAround(PageTop(), chunk, Blanks(CONTENT_LINES - |chunk|), PageEnd(page));
  }

  lemma KeptAround(top: seq<string>, chunk: seq<string>, pad: seq<string>, end: seq<string>)
    requires Kept(top) == Kept(pad) == Kept(end) == []
    ensures Kept(top + (chunk + (pad + end))) == Kept(chunk)
  {
    hide Kept;
    KeptConcat(top, chunk + (pad + end));
    KeptConcat(chunk, pad + end);
    KeptConcat(pad, end);
  }

  lemma KeptFour(a: string, b: string, c: string, d: string)
    requires Kept([a]) == Kept([b]) == Kept([c]) == Kept([d]) == []
    ensures Kept([a, b, c, d]) == []
  {
    hide Kept;
    KeptConcat([a], [b, c, d]);
    KeptConcat([b], [c, d]);
    KeptConcat([c], [d]);
    assert [a, b, c, d] == [a] + [b, c, d] && [b, c, d] == [b] + [c, d] && [c, d] == [c] + [d];
  }

  lemma {:induction false} KeptEmit(body: seq<string>, page: nat)
    ensures Kept(Emit(body, page)) == Kept(body)
    decreases |body|
  {
    hide Kept, Page;
    if body != [] {
      var n := Min(|body|, CONTENT_LINES);
      KeptEmit(body[n..], page + 1);
      KeptPage(body[..n], page);
      KeptConcat(Page(body[..n], page), Emit(body[n..], page + 1));
      KeptConcat(body[..n], body[n..]);
      assert body == body[..n] + body[n..];
    }
  }

  lemma KeptContent(after: seq<string>)
    ensures Kept(Content(after)) == Kept(after)
  {
    var r := SkipSoft(after, |after|);
    var body := Strip(r, []);
    KeptSkip(after, |after|);
    KeptStrip(r, []);
    KeptPop(body, |body|);
    assert Kept([]) == [];
    hide Kept, SkipSoft, Strip, PopEmpty;
    assert [] + Kept(r) == Kept(r);
  }

  /** No run loses, adds or moves a line that carries text, on any draft. */
  lemma TextKept(ls: seq<string>)
    requires Repaginated(ls).Some?
    ensures Kept(Repaginated(ls).value) == Kept(ls)
  {
    hide FirstFooter, Content, Emit, Kept, IsFooter;
    var p := FirstFooter(ls);
    var after := ls[p + 1..];
    KeptContent(after);
    KeptEmit(Content(after), 2);
    KeptConcat(ls[..p + 1], Emit(Content(after), 2));
    KeptConcat(ls[..p + 1], after);
    assert ls == ls[..p + 1] + after;
  }

  // ---- Where a page's lines are ----

  lemma EmitFirst(body: seq<string>, page: nat)
    requires body != []
    ensures var n := Min(|body|, CONTENT_LINES);
            Emit(body, page) == Page(body[..n], page) + Emit(body[n..], page + 1)
  {
  }

  function LineOr(ls: seq<string>, k: nat): string
  {
    if k < |ls| then ls[k] else ""
  }

  lemma LineOfSum(a: seq<string>, b: seq<string>, k: nat)
    ensures k < |a| ==> LineOr(a + b, k) == LineOr(a, k)
    ensures LineOr(a + b, |a| + k) == LineOr(b, k)
  {
  }

  lemma LineOfPart(body: seq<string>, n: nat, k: nat)
    requires n <= |body|
    ensures LineOr(body[n..], k) == LineOr(body, n + k)
    ensures k < n || n == |body| ==> LineOr(body[..n], k) == LineOr(body, k)
  {
  }

  /** Line l of the page numbered n, whose content begins at line `first`: a blank line, the running header, two
    * blank lines, 50 lines of content, three blank lines and the footer. */
  function PageLine(body: seq<string>, n: nat, first: nat, l: nat): string
  {
    if l == 1 then RUNNING_HEADER
    else if 4 <= l < 54 then LineOr(body, first + l - 4)
    else if l == 57 then Footer(n)
    else ""
  }

  /** The lines of page i, 58 of them; its content begins at content line 50 * i, and past the end it is blank. */
  lemma {:induction false} EmitAt(body: seq<string>, page: nat, i: nat, l: nat)
    requires 50 * i < |body| && l < 58
    ensures LineOr(Emit(body, page), 58 * i + l) == PageLine(body, page + i, 50 * i, l)
    decreases i
  {
    hide LineOr, Emit, Page, Footer;
    if i == 0 {
      FirstPageAt(body, page, l);
    } else {
      var rest := body[50..];
      assert Min(|body|, CONTENT_LINES) == 50;
      EmitFirst(body, page);
      EmitAt(rest, page + 1, i - 1, l);
      if 4 <= l < 54 {
        LineOfPart(body, 50, 50 * (i - 1) + (l - 4));
      }
      LaterPage(Page(body[..50], page), Emit(rest, page + 1), i, l);
    }
  }

  lemma FirstPageAt(body: seq<string>, page: nat, l: nat)
    requires body != [] && l < 58
    ensures LineOr(Emit(body, page), l) == PageLine(body, page, 0, l)
  {
    EmitFirst(body, page);
    hide LineOr, Emit, Page, Footer;
    var n := Min(|body|, CONTENT_LINES);
    PageAt(body[..n], page, l);
    if 4 <= l < 54 {
      LineOfPart(body, n, l - 4);
    }
    LineOfSum(Page(body[..n], page), Emit(body[n..], page + 1), l);
  }

  lemma LaterPage(first: seq<string>, rest: seq<string>, i: nat, l: nat)
    requires |first| == 58 && i > 0
    ensures LineOr(first + rest, 58 * i + l) == LineOr(rest, 58 * (i - 1) + l)
  {
    LineOfSum(first, rest, 58 * (i - 1) + l);
    hide LineOr;
    assert 58 * i == 58 + 58 * (i - 1);
  }

  lemma PageAt(chunk: seq<string>, page: nat, l: nat)
    requires |chunk| <= CONTENT_LINES && l < 58
    ensures LineOr(Page(chunk, page), l) == PageLine(chunk, page, 0, l)
  {
    hide Footer, RUNNING_HEADER;
    if l < 4 {
      LineOfSum(PageTop(), chunk + (Blanks(CONTENT_LINES - |chunk|) + PageEnd(page)), l);
    }
  }

  /** How many pages n content lines need. */
  function PagesFor(n: nat): nat
  {
    (n + CONTENT_LINES - 1) / CONTENT_LINES
  }

  /** As many pages as the content needs, each of full height. */
  lemma {:induction false} PageCount(b: seq<string>, page: nat)
    ensures |Emit(b, page)| == 58 * ((|b| + 49) / 50)
    ensures PagesFor(|b|) == (|b| + 49) / 50
    decreases |b|
  {
    if b != [] {
      PageCount(b[Min(|b|, CONTENT_LINES)..], page + 1);
    }
  }

  // ---- The text of a draft ----

  /** str.split on line breaks. */
  function SplitLines(text: string): (ls: seq<string>)
    ensures |ls| > 0
  {
    if text == "" then [""]
    else if text[0] == '\n' then [""] + SplitLines(text[1..])
    else
      var r := SplitLines(text[1..]);
      [[text[0]] + r[0]] + r[1..]
  }

  /** str.join with line breaks. */
  function JoinLines(ls: seq<string>): string
  {
    if ls == [] then ""
    else if |ls| == 1 then ls[0]
    else ls[0] + "\n" + JoinLines(ls[1..])
  }

  lemma {:induction false} SplitAtBreak(line: string, rest: string)
    requires NoBreak(line)
    ensures SplitLines(line + "\n" + rest) == [line] + SplitLines(rest)
    ensures SplitLines(line) == [line]
  {
    if line == "" {
      assert line + "\n" + rest == "\n" + rest;
      assert ("\n" + rest)[1..] == rest;
    } else {
      SplitAtBreak(line[1..], rest);
      assert (line + "\n" + rest)[1..] == line[1..] + "\n" + rest;
      assert [line[0]] + line[1..] == line;
    }
  }

  ghost predicate NoBreaks(ls: seq<string>)
  {
    forall k :: 0 <= k < |ls| ==> NoBreak(ls[k])
  }

  lemma {:induction false} SplitOfJoin(ls: seq<string>)
    requires ls != [] && NoBreaks(ls)
    ensures SplitLines(JoinLines(ls)) == ls
  {
    hide SplitLines, NoBreak;
    if |ls| == 1 {
      SplitAtBreak(ls[0], "");
    } else {
      SplitOfJoin(ls[1..]);
      SplitAtBreak(ls[0], JoinLines(ls[1..]));
      assert ls == [ls[0]] + ls[1..];
    }
  }

  lemma {:induction false} SplitNoBreaks(text: string)
    ensures NoBreaks(SplitLines(text))
  {
    if text != "" {
      SplitNoBreaks(text[1..]);
      assert NoBreak(SplitLines(text[1..])[0]);
    }
  }

  /** Whether text ends in a line break. */
  predicate EndsLine(text: string)
  {
    text != "" && text[|text| - 1] == '\n'
  }

  /** The lines of a text, the empty one after a final line break dropped. */
  function TextLines(text: string): seq<string>
  {
    var ls := SplitLines(text);
    if EndsLine(text) then ls[..|ls| - 1] else ls
  }

  function Serialized(ls: seq<string>, ending: bool): string
  {
    JoinLines(ls) + (if ending then "\n" else "")
  }

  /** The new text of a draft; None leaves the file alone. */
  function RepaginatedText(text: string): Option<string>
  {
    match Repaginated(TextLines(text))
    case None => None
    case Some(ls) => Some(Serialized(ls, EndsLine(text)))
  }

  lemma {:induction false} JoinMore(ls: seq<string>)
    requires ls != []
    ensures JoinLines(ls + [""]) == JoinLines(ls) + "\n"
  {
    if |ls| == 1 {
      assert (ls + [""])[1..] == [""];
    } else {
      JoinMore(ls[1..]);
      assert (ls + [""])[1..] == ls[1..] + [""];
      Seqs.Associate(ls[0] + "\n", JoinLines(ls[1..]), "\n");
    }
  }

  lemma {:induction false} JoinEnds(ls: seq<string>)
    requires ls != [] && NoBreaks(ls) && ls[|ls| - 1] != ""
    ensures !EndsLine(JoinLines(ls))
    ensures JoinLines(ls) != ""
  {
    if |ls| > 1 {
      JoinEnds(ls[1..]);
      var t := JoinLines(ls[1..]);
      assert JoinLines(ls)[|JoinLines(ls)| - 1] == t[|t| - 1];
    } else {
      assert NoBreak(ls[0]);
    }
  }

  /** What is written reads back as the same lines with the same ending. */
  lemma SerializedReads(ls: seq<string>, ending: bool)
    requires ls != [] && NoBreaks(ls) && ls[|ls| - 1] != ""
    ensures TextLines(Serialized(ls, ending)) == ls && EndsLine(Serialized(ls, ending)) == ending
  {
    hide SplitLines, JoinLines;
    SplitOfJoin(ls);
    JoinEnds(ls);
    assert JoinLines(ls) + "" == JoinLines(ls);
    if ending {
      JoinMore(ls);
      assert NoBreaks(ls + [""]);
      SplitOfJoin(ls + [""]);
    }
  }

  lemma {:induction false} EmitNoBreaks(body: seq<string>, page: nat)
    requires NoBreaks(body)
    ensures NoBreaks(Emit(body, page))
    ensures body != [] ==> Emit(body, page)[|Emit(body, page)| - 1] != ""
    decreases |body|
  {
    if body != [] {
      var n := Min(|body|, CONTENT_LINES);
      EmitNoBreaks(body[n..], page + 1);
      PageNoBreaks(body[..n], page);
      PageEnds(body[..n], page);
      hide Page, NoBreak;
    }
  }

  lemma PageEnds(chunk: seq<string>, page: nat)
    requires |chunk| <= CONTENT_LINES
    ensures Page(chunk, page)[PAGE_HEIGHT - 1] != ""
  {
    FooterIsFooter(page);
    hide Footer;
  }

  lemma PageNoBreaks(chunk: seq<string>, page: nat)
    requires |chunk| <= CONTENT_LINES && NoBreaks(chunk)
    ensures NoBreaks(Page(chunk, page))
  {
    FooterNoBreak(page);
    HeaderNoBreak();
    assert NoBreak("");
    hide NoBreak, Footer;
  }

  lemma {:induction false} StripNoBreaks(ls: seq<string>, body: seq<string>)
    requires NoBreaks(ls) && NoBreaks(body)
    ensures NoBreaks(Strip(ls, body))
    decreases |ls|
  {
    hide IsFooter, PopEmpty, SkipSoft, NoBreak;
    if ls != [] {
      if IsFooter(ls[0]) {
        SkipIsTail(ls[1..], 4);
        StripNoBreaks(SkipSoft(ls[1..], 4), PopEmpty(body, 3));
      } else {
        StripNoBreaks(ls[1..], body + [ls[0]]);
      }
    }
  }

  lemma {:induction false} SkipIsTail(ls: seq<string>, most: nat)
    ensures SkipSoft(ls, most) == ls[|ls| - |SkipSoft(ls, most)|..]
  {
    hide Soft;
    if most > 0 && ls != [] && Soft(ls[0]) {
      SkipIsTail(ls[1..], most - 1);
    }
  }

  lemma ContentNoBreaks(after: seq<string>)
    requires NoBreaks(after)
    ensures NoBreaks(Content(after))
  {
    hide PopEmpty, SkipSoft, Strip, NoBreak;
    SkipIsTail(after, |after|);
    StripNoBreaks(SkipSoft(after, |after|), []);
  }

  lemma FooterIsText(ls: seq<string>)
    requires FirstFooter(ls) < |ls|
    ensures ls[FirstFooter(ls)] != ""
  {
    hide IsHeader, IsFooter, FirstFooter;
    FooterIsHard(ls[FirstFooter(ls)]);
  }

  lemma RepaginatedNoBreaks(ls: seq<string>)
    requires NoBreaks(ls) && Repaginated(ls).Some?
    ensures var out := Repaginated(ls).value; NoBreaks(out) && out != [] && out[|out| - 1] != ""
  {
    var p := FirstFooter(ls);
    hide FirstFooter, Emit, NoBreak, Content, IsFooter;
    ContentNoBreaks(ls[p + 1..]);
    EmitNoBreaks(Content(ls[p + 1..]), 2);
    EmitNothing(2);
    FooterIsText(ls);
  }

  lemma FooterAgain(ls: seq<string>)
    requires Repaginated(ls).Some?
    ensures Repaginated(Repaginated(ls).value).Some?
  {
    hide IsFooter, Content, Emit;
    var p := FirstFooter(ls);
    var out := Repaginated(ls).value;
    assert out[p] == ls[p];
    assert p < |out|;
  }

  /** What one run writes reads back as the lines it wrote. */
  lemma WrittenReads(text: string)
    requires RepaginatedText(text).Some?
    ensures var t, out := RepaginatedText(text).value, Repaginated(TextLines(text)).value;
            t == Serialized(out, EndsLine(text)) && TextLines(t) == out && EndsLine(t) == EndsLine(text)
  {
    hide SplitLines, NoBreak, Content, Serialized, EndsLine;
    SplitNoBreaks(text);
    hide Repaginated;
    RepaginatedNoBreaks(TextLines(text));
    SerializedReads(Repaginated(TextLines(text)).value, EndsLine(text));
  }

  lemma TwiceByLines(text: string)
    requires RepaginatedText(text).Some?
    ensures var ls := TextLines(text);
            RepaginatedText(RepaginatedText(text).value) == RepaginatedText(text)
            <==> Repaginated(Repaginated(ls).value) == Repaginated(ls)
  {
    WrittenReads(text);
    FooterAgain(TextLines(text));
    WrittenReads(RepaginatedText(text).value);
    hide TextLines, Serialized, EndsLine, Repaginated;
  }

  /** Byte for byte: running twice is running once exactly when the first content line is hard. */
  lemma RepaginateTextTwice(text: string)
    requires RepaginatedText(text).Some?
    ensures var ls := TextLines(text);
            var body := Content(ls[FirstFooter(ls) + 1..]);
            RepaginatedText(RepaginatedText(text).value) == RepaginatedText(text) <==> body == [] || !Soft(body[0])
  {
    TwiceByLines(text);
    hide TextLines, Serialized, EndsLine, Content, Soft;
    RepaginateTwice(TextLines(text));
  }

  lemma SoftRun(n: nat, most: nat)
    requires most <= n
    ensures SoftCount(Blanks(n) + ["x"], most) == most
  {
    SoftEmpty();
    hide Soft;
    var c := SoftCount(Blanks(n) + ["x"], most);
    assert forall k :: 0 <= k < n ==> (Blanks(n) + ["x"])[k] == "";
  }

  lemma XIsContent(n: nat)
    ensures Trimmed(Blanks(n) + ["x"]) && NoFooters(Blanks(n) + ["x"])
  {
    assert !IsFooter("") && !IsFooter("x");
    hide IsFooter;
  }

  /** A blank page 2 that page 3 continues with a blank line: the second run drops that line. */
  lemma BlankPageTwoShifts()
    ensures var ls := [Footer(1)] + Emit(Blanks(51) + ["x"], 2);
            && Repaginated(ls).Some?
            && Repaginated(Repaginated(ls).value) != Repaginated(ls)
  {
    var body := Blanks(51) + ["x"];
    var ls := [Footer(1)] + Emit(body, 2);
    FooterIsFooter(1);
    SoftEmpty();
    SoftRun(51, CONTENT_LINES);
    XIsContent(51);
    assert body[50] == "";
    hide Footer, IsFooter, Emit, Soft, Content, FirstFooter, SoftCount;
    FirstFooterOf([Footer(1)], Emit(body, 2));
    ContentOfEmit(body, 2);
    assert ls[1..] == Emit(body, 2);
    RepaginateTwice(ls);
  }

  // ---- The script ----

  /** repaginate: the new text of the draft, or None when it has no footer. */
  method Repaginate(text: string) returns (written: Option<string>, pages: nat, content: nat)
    ensures written == RepaginatedText(text)
    ensures written.Some? ==> pages == 1 + PagesFor(content)
  {
    hide IsFooter, Soft, Emit, Page, Footer, Blanks;
    var lines := TextLines(text);
    pages, content := 0, 0;
    var p := FindFooter(lines);
    if p == |lines| {
      return None, 0, 0;
    }
    var i := SkipChrome(lines, p + 1, |lines| - p - 1);
    var body := StripBody(lines, i);
    content := |body|;
    assert body == Content(lines[p + 1..]);
    var output;
    output, pages := EmitPages(lines[..p + 1], body);
    var serialized := JoinLines(output);
    if EndsLine(text) {
      serialized := serialized + "\n";
    }
    assert JoinLines(output) + "" == JoinLines(output);
    written := Some(serialized);
  }

  /** The index of page 1's footer. */
  method FindFooter(lines: seq<string>) returns (i: nat)
    ensures i == FirstFooter(lines)
  {
    hide IsFooter;
    i := 0;
    while i < |lines| && !IsFooter(lines[i])
      invariant i <= |lines|
      invariant forall k :: 0 <= k < i ==> !IsFooter(lines[k])
    {
      i := i + 1;
    }
  }

  /** The index after at most `most` soft lines from i on. */
  method SkipChrome(lines: seq<string>, i: nat, most: nat) returns (j: nat)
    requires i <= |lines|
    ensures i <= j <= |lines|
    ensures lines[j..] == SkipSoft(lines[i..], most)
  {
    hide Soft;
    j := i;
    var skipped := 0;
    while j < |lines| && skipped < most && Soft(lines[j])
      invariant i <= j <= |lines| && skipped <= most
      invariant SkipSoft(lines[i..], most) == SkipSoft(lines[j..], most - skipped)
    {
      assert lines[j..][1..] == lines[j + 1..];
      j, skipped := j + 1, skipped + 1;
    }
  }

  /** The loop that drops the chrome of the later pages, and the padding at the end. */
  method StripBody(lines: seq<string>, start: nat) returns (body: seq<string>)
    requires start <= |lines|
    ensures var all := Strip(lines[start..], []); body == PopEmpty(all, |all|)
  {
    hide IsFooter, Soft, SkipSoft, PopEmpty;
    var i := start;
    body := [];
    while i < |lines|
      invariant start <= i <= |lines|
      invariant Strip(lines[i..], body) == Strip(lines[start..], [])
      decreases |lines| - i
    {
      assert lines[i..][1..] == lines[i + 1..];
      if IsFooter(lines[i]) {
        body := PopBlankLines(body, 3);
        i := SkipChrome(lines, i + 1, 4);
      } else {
        body := body + [lines[i]];
        i := i + 1;
      }
    }
    body := PopBlankLines(body, |body|);
  }

  method PopBlankLines(lines: seq<string>, most: nat) returns (body: seq<string>)
    ensures body == PopEmpty(lines, most)
  {
    body := lines;
    var popped := 0;
    while popped < most && body != [] && body[|body| - 1] == ""
      invariant popped <= most
      invariant PopEmpty(lines, most) == PopEmpty(body, most - popped)
    {
      body := body[..|body| - 1];
      popped := popped + 1;
    }
  }

  /** The loop that writes the pages after page 1. */
  method EmitPages(page1: seq<string>, body: seq<string>) returns (output: seq<string>, pages: nat)
    ensures output == page1 + Emit(body, 2)
    ensures pages == 1 + PagesFor(|body|)
  {
    hide Page, Footer, Emit, PagesFor;
    output := page1;
    var page, pos := 2, 0;
    assert body[0..] == body;
    while pos < |body|
      invariant pos <= |body| && page >= 2
      invariant output + Emit(body[pos..], page) == page1 + Emit(body, 2)
      invariant page - 1 + PagesFor(|body| - pos) == 1 + PagesFor(|body|)
      decreases |body| - pos
    {
      var n := Min(|body| - pos, CONTENT_LINES);
      EmitFirst(body[pos..], page);
      PagesStep(|body| - pos);
      assert body[pos..][..n] == body[pos..pos + n] && body[pos..][n..] == body[pos + n..];
      Seqs.Associate(output, Page(body[pos..pos + n], page), Emit(body[pos + n..], page + 1));
      output := AppendPage(output, body[pos..pos + n], page);
      pos, page := pos + n, page + 1;
    }
    assert body[pos..] == [];
    EmitNothing(page);
    NoPages();
    pages := page - 1;
  }

  lemma EmitNothing(page: nat)
    ensures Emit([], page) == []
  {
  }

  lemma NoPages()
    ensures PagesFor(0) == 0
  {
  }

  lemma PagesStep(n: nat)
    requires n > 0
    ensures PagesFor(n) == 1 + PagesFor(n - Min(n, CONTENT_LINES))
  {
  }

  method AppendPage(before: seq<string>, chunk: seq<string>, page: nat) returns (output: seq<string>)
    requires |chunk| <= CONTENT_LINES
    ensures output == before + Page(chunk, page)
  {
    hide Footer, IsFooter;
    output := before + ["", RUNNING_HEADER, "", ""] + chunk;
    var pad := 0;
    while pad < CONTENT_LINES - |chunk|
      invariant pad <= CONTENT_LINES - |chunk|
      invariant output == before + ["", RUNNING_HEADER, "", ""] + chunk + Blanks(pad)
    {
      output := output + [""];
      pad := pad + 1;
    }
    var footer := EmitFooter(page);
    output := output + ["", "", ""] + [footer];
  }
}
