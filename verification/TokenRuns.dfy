/** The terms of a text by what the text is made of: words apart, and the parts of a word between joiners
  * (docpack/index.go:35-65). */
module TokenRuns {
  import opened Tokenizer
  import Seqs

  /** Pieces with gaps before, between and after them. */
  function Laid(ps: seq<string>, gaps: seq<string>): string
    requires |gaps| == |ps| + 1
  {
    if ps == [] then gaps[0] else gaps[0] + (ps[0] + Laid(ps[1..], gaps[1..]))
  }

  ghost predicate NoneKept(s: string, keep: char -> bool)
  {
    forall k :: 0 <= k < |s| ==> !keep(s[k])
  }

  /** Pieces of kept characters only, with a gap of others between any two. */
  ghost predicate Apart(ps: seq<string>, gaps: seq<string>, keep: char -> bool)
  {
    && |gaps| == |ps| + 1
    && (forall k :: 0 <= k < |gaps| ==> NoneKept(gaps[k], keep))
    && (forall k :: 0 < k < |ps| ==> gaps[k] != "")
    && forall k :: 0 <= k < |ps| ==> ps[k] != "" && AllKept(ps[k], keep)
  }

  function Closed(run: string): seq<string>
  {
    if run == "" then [] else [run]
  }

  lemma {:induction false} FieldsOverRun(f: string, x: string, run: string, keep: char -> bool)
    requires AllKept(f, keep)
    ensures Fields(f + x, run, keep) == Fields(x, run + f, keep)
    decreases |f|
  {
    if f == "" {
      assert f + x == x && run + f == run;
    } else {
      FieldsOverRun(f[1..], x, run + [f[0]], keep);
      assert (f + x)[1..] == f[1..] + x;
      assert run + [f[0]] + f[1..] == run + f;
    }
  }

  lemma {:induction false} FieldsOverGap(g: string, x: string, run: string, keep: char -> bool)
    requires NoneKept(g, keep)
    ensures Fields(g + x, run, keep) == if g == "" then Fields(x, run, keep) else Closed(run) + Fields(x, "", keep)
    decreases |g|
  {
    if g == "" {
      assert g + x == x;
    } else {
      assert !keep(g[0]);
      FieldsOverGap(g[1..], x, "", keep);
      assert (g + x)[1..] == g[1..] + x;
      FieldsCut(g + x, run, keep);
    }
  }

  lemma {:induction false} FieldsOfLaid(ps: seq<string>, gaps: seq<string>, run: string, keep: char -> bool)
    requires Apart(ps, gaps, keep) && (run == "" || ps == [] || gaps[0] != "")
    ensures Fields(Laid(ps, gaps), run, keep) == Closed(run) + ps
    decreases |ps|
  {
    hide Fields, NoneKept, AllKept;
    if ps == [] {
      assert gaps[0] + "" == gaps[0];
      FieldsOverGap(gaps[0], "", run, keep);
      FieldsAtEnd(run, keep);
      FieldsAtEnd("", keep);
    } else {
      var rest := Laid(ps[1..], gaps[1..]);
      ApartRest(ps, gaps, keep);
      FieldsOverGap(gaps[0], ps[0] + rest, run, keep);
      FieldsOverRun(ps[0], rest, "", keep);
      assert "" + ps[0] == ps[0];
      FieldsOfLaid(ps[1..], gaps[1..], ps[0], keep);
      assert ps == [ps[0]] + ps[1..];
    }
  }

  lemma ApartRest(ps: seq<string>, gaps: seq<string>, keep: char -> bool)
    requires Apart(ps, gaps, keep) && ps != []
    ensures Apart(ps[1..], gaps[1..], keep) && (ps[1..] == [] || gaps[1..][0] != "")
    ensures ps[0] != "" && AllKept(ps[0], keep) && NoneKept(gaps[0], keep)
  {
    hide NoneKept, AllKept;
  }

  /** Every text is made of such pieces and gaps. */
  lemma {:induction false} TextIsLaid(s: string, keep: char -> bool) returns (ps: seq<string>, gaps: seq<string>)
    ensures Apart(ps, gaps, keep) && Laid(ps, gaps) == s
    decreases |s|
  {
    if s == "" {
      ps, gaps := [], [""];
    } else {
      var qs, hs := TextIsLaid(s[1..], keep);
      assert s == [s[0]] + s[1..];
      if !keep(s[0]) {
        ps, gaps := qs, hs[0 := [s[0]] + hs[0]];
        GapLonger(qs, hs, s[0]);
      } else if qs != [] && hs[0] == "" {
        ps, gaps := qs[0 := [s[0]] + qs[0]], hs;
        PieceLonger(qs, hs, s[0]);
      } else {
        ps, gaps := [[s[0]]] + qs, [""] + hs;
        OnePieceMore(qs, hs, s[0]);
      }
    }
  }

  lemma GapLonger(ps: seq<string>, gaps: seq<string>, c: char)
    requires |gaps| == |ps| + 1
    ensures Laid(ps, gaps[0 := [c] + gaps[0]]) == [c] + Laid(ps, gaps)
  {
    assert gaps[0 := [c] + gaps[0]][1..] == gaps[1..];
    if ps != [] {
      Seqs.Associate([c], gaps[0], ps[0] + Laid(ps[1..], gaps[1..]));
    }
  }

  lemma LaidFirst(ps: seq<string>, gaps: seq<string>)
    requires |gaps| == |ps| + 1 && ps != []
    ensures Laid(ps, gaps) == gaps[0] + (ps[0] + Laid(ps[1..], gaps[1..]))
  {
  }

  lemma PieceLonger(ps: seq<string>, gaps: seq<string>, c: char)
    requires |gaps| == |ps| + 1 && ps != [] && gaps[0] == ""
    ensures Laid(ps[0 := [c] + ps[0]], gaps) == [c] + Laid(ps, gaps)
  {
    var qs, rest := ps[0 := [c] + ps[0]], Laid(ps[1..], gaps[1..]);
    LaidFirst(ps, gaps);
    LaidFirst(qs, gaps);
    hide Laid;
    assert qs[1..] == ps[1..];
    assert "" + (ps[0] + rest) == ps[0] + rest && "" + (qs[0] + rest) == qs[0] + rest;
    Seqs.Associate([c], ps[0], rest);
  }

  lemma OnePieceMore(ps: seq<string>, gaps: seq<string>, c: char)
    requires |gaps| == |ps| + 1
    ensures Laid([[c]] + ps, [""] + gaps) == [c] + Laid(ps, gaps)
  {
    assert ([[c]] + ps)[1..] == ps && ([""] + gaps)[1..] == gaps;
  }

  // ---- Texts apart -----------------------------------------------------------

  lemma {:induction false} FieldsOfTwo(s: string, c: char, t: string, run: string, keep: char -> bool)
    requires !keep(c)
    ensures Fields(s + ([c] + t), run, keep) == Fields(s, run, keep) + Fields(t, "", keep)
    decreases |s|
  {
    if s == "" {
      assert s + ([c] + t) == [c] + t && ([c] + t)[1..] == t;
    } else {
      assert (s + ([c] + t))[1..] == s[1..] + ([c] + t);
      if keep(s[0]) {
        FieldsOfTwo(s[1..], c, t, run + [s[0]], keep);
      } else {
        FieldsOfTwo(s[1..], c, t, "", keep);
        Seqs.Associate(Closed(run), Fields(s[1..], "", keep), Fields(t, "", keep));
      }
    }
  }

  lemma {:induction false} TermsOfConcat(a: Alphabet, ps: seq<string>, qs: seq<string>)
    ensures TermsOfAll(a, ps + qs) == TermsOfAll(a, ps) + TermsOfAll(a, qs)
  {
    hide TermsOf, Trim, Lower;
    if ps == [] {
      assert ps + qs == qs;
    } else {
      TermsOfConcat(a, ps[1..], qs);
      assert (ps + qs)[1..] == ps[1..] + qs;
    }
  }

  /** Texts with a character between them that belongs to no word: the terms of the one, then those of the other. */
  lemma TermsOfTwo(a: Alphabet, s: string, c: char, t: string)
    requires !a.word(c) && c !in "_.-"
    ensures Terms(a, s + ([c] + t)) == Terms(a, s) + Terms(a, t)
  {
    hide Fields, TermsOfAll;
    var keep := (d: char) => InField(a, d);
    assert !Joiner(c) by {
      assert c != "_.-"[0] && c != "_.-"[1] && c != "_.-"[2];
    }
    FieldsOfTwo(s, c, t, "", keep);
    TermsOfConcat(a, Fields(s, "", keep), Fields(t, "", keep));
  }

  // ---- One word --------------------------------------------------------------

  /** Characters out of _ . - only. */
  ghost predicate Joiners(s: string)
  {
    forall k :: 0 <= k < |s| ==> s[k] == '_' || s[k] == '.' || s[k] == '-'
  }

  lemma {:induction false} TrimLeftOver(w: string, x: string)
    requires Joiners(w) && (x == "" || !Joiner(x[0]))
    ensures TrimLeft(w + x) == x
  {
    if w == "" {
      assert w + x == x;
    } else {
      TrimLeftOver(w[1..], x);
      assert (w + x)[1..] == w[1..] + x;
    }
  }

  lemma {:induction false} TrimRightOver(x: string, v: string)
    requires Joiners(v) && (x == "" || !Joiner(x[|x| - 1]))
    ensures TrimRight(x + v) == x
  {
    if v == "" {
      assert x + v == x;
    } else {
      var u := v[..|v| - 1];
      TrimRightOver(x, u);
      assert (x + v)[..|x + v| - 1] == x + u;
    }
  }

  lemma {:induction false} TrimLeftAll(w: string)
    requires Joiners(w)
    ensures TrimLeft(w) == ""
  {
    TrimLeftOver(w, "");
    assert w + "" == w;
  }

  /** Trimming takes off the joiners at both ends, and nothing else. */
  lemma TrimOver(w: string, x: string, v: string)
    requires Joiners(w) && Joiners(v) && (x == "" || (!Joiner(x[0]) && !Joiner(x[|x| - 1])))
    ensures Trim(w + x + v) == x
  {
    hide TrimLeft, TrimRight;
    if x == "" {
      TrimLeftAll(w + x + v);
      TrimRightOver("", "");
      assert "" + "" == "";
    } else {
      TrimLeftOver(w, x + v);
      assert w + x + v == w + (x + v);
      TrimRightOver(x, v);
    }
  }

  /** The pieces of two bytes and more. */
  function Long(a: Alphabet, ps: seq<string>): seq<string>
  {
    if ps == [] then []
    else Long(a, ps[..|ps| - 1]) + (if Bytes(a, ps[|ps| - 1]) >= 2 then [ps[|ps| - 1]] else [])
  }

  lemma {:induction false} LongFirst(a: Alphabet, ps: seq<string>)
    requires ps != []
    ensures Long(a, ps) == (if Bytes(a, ps[0]) >= 2 then [ps[0]] else []) + Long(a, ps[1..])
  {
    hide Bytes;
    var u, l := ps[..|ps| - 1], ps[|ps| - 1];
    if |ps| > 1 {
      LongFirst(a, u);
      assert u[1..] == ps[1..][..|ps| - 2] && ps[1..][|ps| - 2] == l;
    } else {
      assert u == [] && ps[1..] == [];
    }
  }

  lemma {:induction false} PartsAreLong(a: Alphabet, ps: seq<string>, tok: string)
    requires tok !in ps
    ensures Parts(a, ps, tok) == Long(a, ps)
  {
    hide Bytes;
    if ps != [] {
      LongFirst(a, ps);
      PartsAreLong(a, ps[1..], tok);
      assert ps == [ps[0]] + ps[1..];
    }
  }

  /** The pieces of a word between joiners, none at either end. */
  ghost predicate IsWord(ps: seq<string>, gaps: seq<string>)
  {
    && |gaps| == |ps| + 1 && gaps[0] == "" && gaps[|ps|] == ""
    && (forall k :: 0 < k < |ps| ==> gaps[k] != "" && Joiners(gaps[k]))
    && forall k :: 0 <= k < |ps| ==> ps[k] != "" && NoJoiners(ps[k])
  }

  ghost predicate NoJoiners(s: string)
  {
    forall k :: 0 <= k < |s| ==> s[k] != '_' && s[k] != '.' && s[k] != '-'
  }

  lemma WordIsApart(ps: seq<string>, gaps: seq<string>)
    requires IsWord(ps, gaps)
    ensures Apart(ps, gaps, c => !Joiner(c))
  {
    var keep := (c: char) => !Joiner(c);
    forall k | 0 <= k < |gaps|
      ensures NoneKept(gaps[k], keep)
    {
      if 0 < k < |ps| {
        assert Joiners(gaps[k]);
      }
    }
  }

  lemma {:induction false} LaidEnds(ps: seq<string>, gaps: seq<string>)
    requires |gaps| == |ps| + 1 && ps != [] && gaps[|ps|] == "" && ps[|ps| - 1] != ""
    ensures var t := Laid(ps, gaps); t != "" && t[|t| - 1] == ps[|ps| - 1][|ps[|ps| - 1]| - 1]
  {
    if |ps| > 1 {
      LaidEnds(ps[1..], gaps[1..]);
    }
  }

  lemma WordEnds(ps: seq<string>, gaps: seq<string>)
    requires IsWord(ps, gaps)
    ensures var t := Laid(ps, gaps);
            && (ps == [] ==> t == "")
            && (ps != [] ==> t != "" && !Joiner(t[0]) && !Joiner(t[|t| - 1]))
    ensures |ps| > 1 ==> HasJoiner(Laid(ps, gaps))
    ensures |ps| == 1 ==> Laid(ps, gaps) == ps[0] && !HasJoiner(ps[0])
  {
    var t := Laid(ps, gaps);
    if ps != [] {
      LaidEnds(ps, gaps);
      assert gaps[0] == "" && ps[0] != "" && NoJoiners(ps[0]) && NoJoiners(ps[|ps| - 1]);
      var rest := Laid(ps[1..], gaps[1..]);
      assert t == ps[0] + rest;
      if |ps| > 1 {
        assert gaps[1] != "" && Joiners(gaps[1]);
        assert rest[0] == gaps[1][0] && t[|ps[0]|] == rest[0];
      }
    }
  }

  lemma PiecesNotWhole(ps: seq<string>, gaps: seq<string>)
    requires IsWord(ps, gaps) && |ps| > 1
    ensures Laid(ps, gaps) !in ps
  {
    WordEnds(ps, gaps);
    hide Laid;
    forall k | 0 <= k < |ps|
      ensures ps[k] != Laid(ps, gaps)
    {
      assert NoJoiners(ps[k]);
    }
  }

  /** The terms of a trimmed word: itself, when it has two bytes, and then its pieces of two bytes and more, when it
    * has more than one piece. */
  lemma TermsOfPieces(a: Alphabet, ps: seq<string>, gaps: seq<string>)
    requires IsWord(ps, gaps)
    ensures var tok := Laid(ps, gaps);
            TermsOf(a, tok) == if Bytes(a, tok) < 2 then [] else [tok] + (if |ps| > 1 then Long(a, ps) else [])
  {
    var tok := Laid(ps, gaps);
    WordIsApart(ps, gaps);
    WordEnds(ps, gaps);
    FieldsOfLaid(ps, gaps, "", c => !Joiner(c));
    assert Closed("") + ps == ps;
    if |ps| > 1 {
      PiecesNotWhole(ps, gaps);
      PartsAreLong(a, ps, tok);
    }
    if ps == [] {
      assert Bytes(a, "") == 0;
    }
    hide Fields, Laid, Bytes, Parts, Long, IsWord, Apart, HasJoiner;
  }

  /** The terms of a word, with joiners around it: folded and trimmed it is its own first term, and its pieces
    * follow. */
  lemma TermsOfWord(a: Alphabet, word: string, w: string, ps: seq<string>, gaps: seq<string>, v: string)
    requires word != "" && AllKept(word, c => InField(a, c))
    requires Joiners(w) && Joiners(v) && IsWord(ps, gaps) && Lower(a, word) == w + Laid(ps, gaps) + v
    ensures var tok := Laid(ps, gaps);
            Terms(a, word) == if Bytes(a, tok) < 2 then [] else [tok] + (if |ps| > 1 then Long(a, ps) else [])
  {
    hide Lower, Fields, Trim, TermsOf, Bytes;
    var tok := Laid(ps, gaps);
    WordEnds(ps, gaps);
    FieldsOfKept(word, "", c => InField(a, c));
    assert "" + word == word;
    TrimOver(w, tok, v);
    TermsOfPieces(a, ps, gaps);
    hide Laid, IsWord, Joiners, Long;
    assert [word][1..] == [];
    assert TermsOfAll(a, []) == [];
    assert TermsOf(a, tok) + [] == TermsOf(a, tok);
  }
}
