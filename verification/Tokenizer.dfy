/** Splitting text into index terms (docpack/index.go:35-65). */
module Tokenizer {

  const MIN_TOKEN_LENGTH: nat := 2

  /** What the tokenizer asks of a character: whether it is a letter or a digit,
    * its lower case, and how many bytes it takes. */
  datatype Alphabet = Alphabet(word: char -> bool, lower: char -> char, bytes: char -> nat)

  predicate Joiner(c: char)
  {
    c == '_' || c == '.' || c == '-'
  }

  predicate InField(a: Alphabet, c: char)
  {
    a.word(c) || Joiner(c)
  }

  /** Lower case is stable and keeps a character's kind. */
  ghost predicate Sound(a: Alphabet)
  {
    && (forall c: char :: a.lower(a.lower(c)) == a.lower(c))
    && (forall c: char :: a.word(c) ==> a.word(a.lower(c)) && !Joiner(a.lower(c)))
    && (forall c: char :: Joiner(c) ==> a.lower(c) == c)
    && (forall c: char :: a.bytes(c) > 0)
  }

  /** The alphabet of English text. */
  function Ascii(): Alphabet
  {
    Alphabet(
      c => '0' <= c <= '9' || 'a' <= c <= 'z' || 'A' <= c <= 'Z',
      c => if 'A' <= c <= 'Z' then c - 'A' + 'a' else c,
      c => 1)
  }

  lemma AsciiIsSound()
    ensures Sound(Ascii())
  {
  }

  /** strings.FieldsFunc: the longest runs of characters that keep takes; run is the one open at s. */
  function Fields(s: string, run: string, keep: char -> bool): seq<string>
    decreases |s|
  {
    var closed := if run == "" then [] else [run];
    if s == "" then closed
    else if keep(s[0]) then Fields(s[1..], run + [s[0]], keep)
    else closed + Fields(s[1..], "", keep)
  }

  function Lower(a: Alphabet, s: string): (t: string)
    ensures |t| == |s| && forall k :: 0 <= k < |s| ==> t[k] == a.lower(s[k])
  {
    seq(|s|, k requires 0 <= k < |s| => a.lower(s[k]))
  }

  function Bytes(a: Alphabet, s: string): nat
  {
    if s == "" then 0 else a.bytes(s[0]) + Bytes(a, s[1..])
  }

  function TrimLeft(s: string): (t: string)
    ensures |t| <= |s|
  {
    if s != "" && Joiner(s[0]) then TrimLeft(s[1..]) else s
  }

  function TrimRight(s: string): (t: string)
    ensures |t| <= |s|
  {
    if s != "" && Joiner(s[|s| - 1]) then TrimRight(s[..|s| - 1]) else s
  }

  /** strings.Trim(s, "_.-"). */
  function Trim(s: string): string
  {
    TrimRight(TrimLeft(s))
  }

  predicate HasJoiner(s: string)
  {
    exists k :: 0 <= k < |s| && Joiner(s[k])
  }

  /** The parts of a token that are terms of their own. */
  function Parts(a: Alphabet, parts: seq<string>, tok: string): seq<string>
  {
    if parts == [] then []
    else (if Bytes(a, parts[0]) >= MIN_TOKEN_LENGTH && parts[0] != tok then [parts[0]] else [])
         + Parts(a, parts[1..], tok)
  }

  /** The terms of one trimmed token: itself, then its parts. */
  function TermsOf(a: Alphabet, tok: string): seq<string>
  {
    if Bytes(a, tok) < MIN_TOKEN_LENGTH then []
    else [tok] + (if HasJoiner(tok) then Parts(a, Fields(tok, "", c => !Joiner(c)), tok) else [])
  }

  function TermsOfAll(a: Alphabet, raws: seq<string>): seq<string>
  {
    if raws == [] then []
    else TermsOf(a, Trim(Lower(a, raws[0]))) + TermsOfAll(a, raws[1..])
  }

  /** tokenize. */
  function Terms(a: Alphabet, s: string): seq<string>
  {
    TermsOfAll(a, Fields(s, "", c => InField(a, c)))
  }

  // ---- What a term is ----

  /** A term: lower-case field characters, no joiner at either end, at least two bytes. */
  ghost predicate Term(a: Alphabet, t: string)
  {
    && Bytes(a, t) >= MIN_TOKEN_LENGTH
    && t != "" && !Joiner(t[0]) && !Joiner(t[|t| - 1])
    && Folded(a, t)
  }

  ghost predicate Folded(a: Alphabet, t: string)
  {
    forall k :: 0 <= k < |t| ==> InField(a, t[k]) && a.lower(t[k]) == t[k]
  }

  ghost predicate AllKept(s: string, keep: char -> bool)
  {
    forall k :: 0 <= k < |s| ==> keep(s[k])
  }

  lemma {:induction false} FieldsKept(s: string, run: string, keep: char -> bool, i: nat)
    requires AllKept(run, keep) && i < |Fields(s, run, keep)|
    ensures Fields(s, run, keep)[i] != "" && AllKept(Fields(s, run, keep)[i], keep)
    decreases |s|
  {
    if s != "" {
      if keep(s[0]) {
        FieldsKept(s[1..], run + [s[0]], keep, i);
      } else {
        var closed := if run == "" then [] else [run];
        if i >= |closed| {
          FieldsKept(s[1..], "", keep, i - |closed|);
        }
      }
    }
  }

  lemma {:induction false} FieldsOfKept(s: string, run: string, keep: char -> bool)
    requires AllKept(s, keep)
    ensures Fields(s, run, keep) == if run + s == "" then [] else [run + s]
    decreases |s|
  {
    if s == "" {
      assert run + s == run;
    } else {
      FieldsOfKept(s[1..], run + [s[0]], keep);
      assert run + [s[0]] + s[1..] == run + s;
    }
  }

  /** A piece of what follows the first character is a piece of the whole. */
  lemma PieceFurther(run: string, s: string, j: nat, f: string)
    requires s != "" && j + |f| <= |s| - 1 && f == s[1..][j..j + |f|]
    ensures var at := |run| + 1 + j; at + |f| <= |run + s| && f == (run + s)[at..at + |f|]
  {
    assert (run + s)[|run| + 1..] == s[1..];
  }

  lemma FieldsAtEnd(run: string, keep: char -> bool)
    ensures Fields("", run, keep) == if run == "" then [] else [run]
  {
  }

  lemma FieldsGrow(s: string, run: string, keep: char -> bool)
    requires s != "" && keep(s[0])
    ensures Fields(s, run, keep) == Fields(s[1..], run + [s[0]], keep)
  {
  }

  lemma FieldsCut(s: string, run: string, keep: char -> bool)
    requires s != "" && !keep(s[0])
    ensures Fields(s, run, keep) == (if run == "" then [] else [run]) + Fields(s[1..], "", keep)
  {
  }

  /** Every part of a split is a piece of the text. */
  lemma {:induction false} FieldsArePieces(s: string, run: string, keep: char -> bool, i: nat)
    returns (at: nat)
    requires i < |Fields(s, run, keep)|
    ensures at + |Fields(s, run, keep)[i]| <= |run + s|
    ensures Fields(s, run, keep)[i] == (run + s)[at..at + |Fields(s, run, keep)[i]|]
    decreases |s|
  {
    hide Fields;
    at := 0;
    if s == "" {
      FieldsAtEnd(run, keep);
      assert run + s == run;
    } else if keep(s[0]) {
      FieldsGrow(s, run, keep);
      at := FieldsArePieces(s[1..], run + [s[0]], keep, i);
      assert run + [s[0]] + s[1..] == run + s;
    } else {
      FieldsCut(s, run, keep);
      var closed := if run == "" then [] else [run];
      if i < |closed| {
        assert (run + s)[0..|run|] == run;
      } else {
        var f := Fields(s[1..], "", keep)[i - |closed|];
        var j := FieldsArePieces(s[1..], "", keep, i - |closed|);
        assert "" + s[1..] == s[1..];
        at := |run| + 1 + j;
        PieceFurther(run, s, j, f);
      }
    }
  }

  lemma {:induction false} TrimLeftIsTail(s: string)
    ensures TrimLeft(s) == s[|s| - |TrimLeft(s)|..]
    ensures TrimLeft(s) != "" ==> !Joiner(TrimLeft(s)[0])
  {
    if s != "" && Joiner(s[0]) {
      TrimLeftIsTail(s[1..]);
    }
  }

  lemma {:induction false} TrimRightIsHead(s: string)
    ensures TrimRight(s) == s[..|TrimRight(s)|]
    ensures TrimRight(s) != "" ==> !Joiner(TrimRight(s)[|TrimRight(s)| - 1])
  {
    if s != "" && Joiner(s[|s| - 1]) {
      TrimRightIsHead(s[..|s| - 1]);
    }
  }

  lemma TrimEnds(s: string) returns (at: nat)
    ensures at + |Trim(s)| <= |s| && Trim(s) == s[at..at + |Trim(s)|]
    ensures Trim(s) != "" ==> !Joiner(Trim(s)[0]) && !Joiner(Trim(s)[|Trim(s)| - 1])
  {
    var l := TrimLeft(s);
    TrimLeftIsTail(s);
    TrimRightIsHead(l);
    at := |s| - |l|;
    assert Trim(s) == s[at..at + |Trim(s)|];
  }

  lemma TrimStays(s: string)
    requires s != "" ==> !Joiner(s[0]) && !Joiner(s[|s| - 1])
    ensures Trim(s) == s
  {
  }

  lemma LowerStays(a: Alphabet, s: string)
    requires Folded(a, s)
    ensures Lower(a, s) == s
  {
  }

  lemma BytesNone(a: Alphabet, t: string)
    requires Bytes(a, t) > 0
    ensures t != ""
  {
  }

  /** A trimmed lower-cased field is a term, if it is long enough. */
  lemma TokenIsTerm(a: Alphabet, raw: string)
    requires Sound(a) && AllKept(raw, c => InField(a, c))
    requires Bytes(a, Trim(Lower(a, raw))) >= MIN_TOKEN_LENGTH
    ensures Term(a, Trim(Lower(a, raw)))
  {
    var low := Lower(a, raw);
    var at := TrimEnds(low);
    BytesNone(a, Trim(low));
    hide Trim;
    assert forall k :: 0 <= k < |low| ==> InField(a, low[k]) && a.lower(low[k]) == low[k];
  }

  lemma {:induction false} PartsAre(a: Alphabet, parts: seq<string>, tok: string, i: nat) returns (j: nat)
    requires i < |Parts(a, parts, tok)|
    ensures j < |parts| && Parts(a, parts, tok)[i] == parts[j]
    ensures Bytes(a, parts[j]) >= MIN_TOKEN_LENGTH
  {
    var first := if Bytes(a, parts[0]) >= MIN_TOKEN_LENGTH && parts[0] != tok then [parts[0]] else [];
    if i < |first| {
      j := 0;
    } else {
      j := PartsAre(a, parts[1..], tok, i - |first|);
      j := j + 1;
    }
  }

  /** Each part of a term is a term with no joiner in it. */
  lemma PartIsTerm(a: Alphabet, tok: string, i: nat)
    requires Folded(a, tok)
    requires i < |Parts(a, Fields(tok, "", c => !Joiner(c)), tok)|
    ensures var p := Parts(a, Fields(tok, "", c => !Joiner(c)), tok)[i]; Term(a, p) && !HasJoiner(p)
  {
    hide Fields, Parts, Bytes;
    var keep := (c: char) => !Joiner(c);
    var fields := Fields(tok, "", keep);
    var j := PartsAre(a, fields, tok, i);
    FieldsKept(tok, "", keep, j);
    var at := FieldsArePieces(tok, "", keep, j);
    assert "" + tok == tok;
    var p := fields[j];
    assert forall k :: 0 <= k < |p| ==> p[k] == tok[at + k] && !Joiner(p[k]);
  }

  lemma TermsOfAreTerms(a: Alphabet, tok: string, i: nat)
    requires Bytes(a, tok) >= MIN_TOKEN_LENGTH ==> Term(a, tok)
    requires i < |TermsOf(a, tok)|
    ensures Term(a, TermsOf(a, tok)[i])
    ensures i > 0 ==> !HasJoiner(TermsOf(a, tok)[i])
  {
    hide Fields, Parts, Bytes, HasJoiner;
    if i > 0 {
      PartIsTerm(a, tok, i - 1);
    }
  }

  /** Every term the tokenizer emits is a term of one field; the terms of a field stand together. */
  lemma {:induction false} AllAreTerms(a: Alphabet, raws: seq<string>, i: nat) returns (r: nat, at: nat, j: nat)
    requires Sound(a) && forall k :: 0 <= k < |raws| ==> AllKept(raws[k], c => InField(a, c))
    requires i < |TermsOfAll(a, raws)|
    ensures r < |raws| && i == at + j
    ensures var all, tok := TermsOfAll(a, raws), Trim(Lower(a, raws[r]));
            && Term(a, tok) && j < |TermsOf(a, tok)| && at + |TermsOf(a, tok)| <= |all|
            && all[at..at + |TermsOf(a, tok)|] == TermsOf(a, tok)
    ensures Term(a, TermsOfAll(a, raws)[i])
  {
    hide Lower, Trim, TermsOf, Term;
    var tok := Trim(Lower(a, raws[0]));
    var first := TermsOf(a, tok);
    if i < |first| {
      assert Bytes(a, tok) >= MIN_TOKEN_LENGTH by {
        TermsOfShort(a, tok);
      }
      TokenIsTerm(a, raws[0]);
      TermsOfAreTerms(a, tok, i);
      r, at, j := 0, 0, i;
      assert TermsOfAll(a, raws)[0..|first|] == first;
    } else {
      r, at, j := AllAreTerms(a, raws[1..], i - |first|);
      assert raws[r + 1] == raws[1..][r];
      PieceAfter(first, TermsOfAll(a, raws[1..]), at, at + |TermsOf(a, Trim(Lower(a, raws[1..][r])))|);
      r, at := r + 1, at + |first|;
    }
  }

  lemma PieceAfter(x: seq<string>, y: seq<string>, i: nat, j: nat)
    requires i <= j <= |y|
    ensures (x + y)[|x| + i..|x| + j] == y[i..j]
  {
  }

  lemma TermsOfShort(a: Alphabet, tok: string)
    ensures Bytes(a, tok) < MIN_TOKEN_LENGTH ==> TermsOf(a, tok) == []
  {
  }

  lemma FieldsOfTerm(a: Alphabet, t: string)
    requires Folded(a, t) && t != ""
    ensures Fields(t, "", c => InField(a, c)) == [t]
  {
    hide Fields;
    FieldsOfKept(t, "", c => InField(a, c));
    assert "" + t == t;
  }

  lemma TermsOfOne(a: Alphabet, t: string)
    requires Lower(a, t) == t && Trim(t) == t
    ensures TermsOfAll(a, [t]) == TermsOf(a, t)
  {
    hide Lower, Trim, TermsOf;
    assert [t][1..] == [];
    assert TermsOfAll(a, []) == [];
  }

  /** Tokenizing a term gives the term first, then its parts. */
  lemma TermsOfTerm(a: Alphabet, t: string)
    requires Term(a, t)
    ensures Terms(a, t) == TermsOf(a, t)
    ensures |Terms(a, t)| > 0 && Terms(a, t)[0] == t
  {
    FieldsOfTerm(a, t);
    LowerStays(a, t);
    TrimStays(t);
    TermsOfOne(a, t);
    hide Fields, Lower, Trim, Bytes, TermsOfAll, Parts, HasJoiner;
  }

  /** Tokenizing an indexed term finds that term first, and only terms indexed with it. */
  lemma TermFindsItself(a: Alphabet, s: string, i: nat)
    requires Sound(a) && i < |Terms(a, s)|
    ensures var t := Terms(a, s)[i];
            && |Terms(a, t)| > 0 && Terms(a, t)[0] == t
            && forall k :: 0 <= k < |Terms(a, t)| ==> Terms(a, t)[k] in Terms(a, s)
  {
    hide Fields, TermsOfAll, TermsOf, Term, Trim, Lower;
    var keep := (c: char) => InField(a, c);
    var raws := Fields(s, "", keep);
    forall k | 0 <= k < |raws|
      ensures AllKept(raws[k], keep)
    {
      FieldsKept(s, "", keep, k);
    }
    var t := Terms(a, s)[i];
    var r, at, j := AllAreTerms(a, raws, i);
    var tok := Trim(Lower(a, raws[r]));
    TermsOfTerm(a, t);
    SubTerms(a, tok, j);
    forall k | 0 <= k < |Terms(a, t)|
      ensures Terms(a, t)[k] in Terms(a, s)
    {
      var q := InTermsOf(a, tok, j, k);
      assert Terms(a, s)[at..at + |TermsOf(a, tok)|][q] == Terms(a, s)[at + q];
      assert Terms(a, s)[at + q] == Terms(a, t)[k];
    }
  }

  /** The terms of a term of tok are terms of tok: all of them for tok itself, one for a part. */
  lemma SubTerms(a: Alphabet, tok: string, j: nat)
    requires Term(a, tok) && j < |TermsOf(a, tok)|
    ensures j > 0 ==> TermsOf(a, TermsOf(a, tok)[j]) == [TermsOf(a, tok)[j]]
    ensures j == 0 ==> TermsOf(a, tok)[j] == tok
  {
    hide Fields, Parts, Bytes;
    if j > 0 {
      TermsOfAreTerms(a, tok, j);
    }
  }

  lemma InTermsOf(a: Alphabet, tok: string, j: nat, k: nat) returns (q: nat)
    requires Term(a, tok) && j < |TermsOf(a, tok)|
    requires k < |TermsOf(a, TermsOf(a, tok)[j])|
    ensures q < |TermsOf(a, tok)| && TermsOf(a, TermsOf(a, tok)[j])[k] == TermsOf(a, tok)[q]
  {
    hide TermsOf, Term;
    SubTerms(a, tok, j);
    q := if j == 0 then k else j;
  }

  // ---- Tokens with one term ----

  /** A part of the token between joiners is a term of its own. */
  ghost predicate HasPart(a: Alphabet, tok: string)
  {
    && HasJoiner(tok)
    && var parts := Fields(tok, "", c => !Joiner(c));
       exists i :: 0 <= i < |parts| && Bytes(a, parts[i]) >= MIN_TOKEN_LENGTH && parts[i] != tok
  }

  lemma {:induction false} PartsNoneIff(a: Alphabet, parts: seq<string>, tok: string)
    ensures Parts(a, parts, tok) == [] <==>
              forall i :: 0 <= i < |parts| ==> !(Bytes(a, parts[i]) >= MIN_TOKEN_LENGTH && parts[i] != tok)
  {
    if parts != [] {
      PartsNoneIff(a, parts[1..], tok);
      assert forall i :: 0 < i < |parts| ==> parts[i] == parts[1..][i - 1];
      assert forall i :: 0 <= i < |parts| - 1 ==> parts[1..][i] == parts[i + 1];
    }
  }

  lemma OneTermIff(a: Alphabet, tok: string)
    ensures Bytes(a, tok) < MIN_TOKEN_LENGTH ==> TermsOf(a, tok) == []
    ensures Bytes(a, tok) >= MIN_TOKEN_LENGTH ==>
              (|TermsOf(a, tok)| == 1 <==> !HasPart(a, tok)) && |TermsOf(a, tok)| >= 1
  {
    PartsNoneIff(a, Fields(tok, "", c => !Joiner(c)), tok);
    hide Fields, Bytes;
  }

  /** A joined word of English text, its parts after it. */
  lemma ThreeTerms()
    ensures Terms(Ascii(), "ab.cd") == ["ab.cd", "ab", "cd"]
  {
    WordIsTerm();
    TermsOfTerm(Ascii(), "ab.cd");
    hide Terms, Term;
    JoinerInside();
    PartsOfWord();
    BytesAre("ab.cd");
    PartsAreTerms();
    hide Fields, Bytes, Parts, HasJoiner, Ascii;
  }

  lemma WordIsTerm()
    ensures Term(Ascii(), "ab.cd")
  {
    BytesAre("ab.cd");
    hide Bytes;
  }

  lemma PartsAreTerms()
    ensures Parts(Ascii(), ["ab", "cd"], "ab.cd") == ["ab", "cd"]
  {
    var a, t := Ascii(), "ab.cd";
    BytesAre("ab");
    BytesAre("cd");
    hide Bytes, Ascii;
    assert ["ab", "cd"][1..] == ["cd"] && ["cd"][1..] == [];
    assert Parts(a, [], t) == [];
    assert Parts(a, ["cd"], t) == ["cd"] + Parts(a, [], t);
    assert Parts(a, ["ab", "cd"], t) == ["ab"] + Parts(a, ["cd"], t);
  }

  lemma {:induction false} BytesAre(s: string)
    ensures Bytes(Ascii(), s) == |s|
  {
    if s != "" {
      BytesAre(s[1..]);
    }
  }

  lemma JoinerInside()
    ensures HasJoiner("ab.cd")
  {
    assert "ab.cd"[2] == '.';
  }

  lemma PartsOfWord()
    ensures Fields("ab.cd", "", c => !Joiner(c)) == ["ab", "cd"]
  {
    hide Fields;
    var keep := (c: char) => !Joiner(c);
    assert "ab.cd"[1..] == "b.cd" && "b.cd"[1..] == ".cd" && ".cd"[1..] == "cd" && "cd"[1..] == "d" && "d"[1..] == "";
    assert "" + ['a'] == "a" && "a" + ['b'] == "ab" && "" + ['c'] == "c" && "c" + ['d'] == "cd";
    FieldsAtEnd("cd", keep);
    FieldsGrow("d", "c", keep);
    FieldsGrow("cd", "", keep);
    FieldsCut(".cd", "ab", keep);
    FieldsGrow("b.cd", "a", keep);
    FieldsGrow("ab.cd", "", keep);
  }

  // ---- The tokenizer's loops ----

  /** tokenize: for each field its trimmed lower case, then the parts of it. */
  method Tokenize(a: Alphabet, s: string) returns (terms: seq<string>)
    ensures terms == Terms(a, s)
  {
    hide TermsOf, Fields, Trim, Lower;
    var raws := Fields(s, "", c => InField(a, c));
    terms := [];
    var i := 0;
    assert raws[0..] == raws;
    while i < |raws|
      invariant i <= |raws|
      invariant terms + TermsOfAll(a, raws[i..]) == TermsOfAll(a, raws)
    {
      var found := TokenizeField(a, raws[i]);
      assert raws[i..][1..] == raws[i + 1..];
      assert terms + (found + TermsOfAll(a, raws[i + 1..])) == terms + found + TermsOfAll(a, raws[i + 1..]);
      terms := terms + found;
      i := i + 1;
    }
    assert raws[i..] == [];
    assert terms + [] == terms;
  }

  method TokenizeField(a: Alphabet, raw: string) returns (terms: seq<string>)
    ensures terms == TermsOf(a, Trim(Lower(a, raw)))
  {
    hide Fields, Trim, Lower, Bytes, HasJoiner;
    var tok := Trim(Lower(a, raw));
    terms := [];
    if Bytes(a, tok) < MIN_TOKEN_LENGTH {
      return;
    }
    terms := [tok];
    if HasJoiner(tok) {
      var parts := Fields(tok, "", c => !Joiner(c));
      var i := 0;
      assert parts[0..] == parts;
      while i < |parts|
        invariant i <= |parts|
        invariant terms + Parts(a, parts[i..], tok) == [tok] + Parts(a, parts, tok)
      {
        assert parts[i..][1..] == parts[i + 1..];
        if Bytes(a, parts[i]) >= MIN_TOKEN_LENGTH && parts[i] != tok {
          assert terms + ([parts[i]] + Parts(a, parts[i + 1..], tok))
                   == terms + [parts[i]] + Parts(a, parts[i + 1..], tok);
          terms := terms + [parts[i]];
        }
        i := i + 1;
      }
      assert parts[i..] == [];
      assert terms + [] == terms;
    }
  }
}
