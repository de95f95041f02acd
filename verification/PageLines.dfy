/** The lines of a paginated draft: what a footer, a header and a blank line
  * are, and the ones the paginator writes (scripts/repaginate_draft.py:41-64). */
module PageLines {
  import opened Options
  import opened Decimals

  const FOOTER_START := "Franco Jr."
  const FOOTER_DATE := "Expires 5 November 2026"
  const FOOTER_PAGE := "[Page"
  const FOOTER_PREFIX := FOOTER_START + (Spaces(16) + FOOTER_DATE)
  const HEADER_START := "Internet-Draft"
  const HEADER_TITLE := "protowire"
  const HEADER_DATE := "May 2026"
  const RUNNING_HEADER := HEADER_START + (Spaces(18) + (HEADER_TITLE + (Spaces(23) + HEADER_DATE)))
  const TARGET_COLUMN := 72

  function Spaces(n: nat): (s: string)
    ensures |s| == n && forall k :: 0 <= k < n ==> s[k] == ' '
  {
    seq(n, i => ' ')
  }

  /** Python's white space: str.strip and \s of a text pattern agree on it. */
  predicate IsSpace(c: char)
  {
    || '\t' <= c <= '\r'
    || '\U{1c}' <= c <= ' '
    || c == '\U{85}' || c == '\U{a0}' || c == '\U{1680}'
    || '\U{2000}' <= c <= '\U{200a}'
    || c == '\U{2028}' || c == '\U{2029}' || c == '\U{202f}' || c == '\U{205f}' || c == '\U{3000}'
  }

  predicate AllSpace(s: string)
  {
    forall k :: 0 <= k < |s| ==> IsSpace(s[k])
  }

  /** What is left of s after its longest run of white space. */
  function SkipSpace(s: string): (t: string)
    ensures |t| <= |s|
  {
    if s != "" && IsSpace(s[0]) then SkipSpace(s[1..]) else s
  }

  function SkipDigits(s: string): (t: string)
    ensures |t| <= |s|
  {
    if s != "" && IsDigit(s[0]) then SkipDigits(s[1..]) else s
  }

  predicate StartsWith(s: string, p: string)
  {
    |p| <= |s| && s[..|p|] == p
  }

  /** s is at least one white space, then p; p starts with no white space. */
  predicate SpacesThen(s: string, p: string)
  {
    s != "" && IsSpace(s[0]) && StartsWith(SkipSpace(s), p)
  }

  function AfterSpaces(s: string, p: string): string
    requires SpacesThen(s, p)
  {
    SkipSpace(s)[|p|..]
  }

  /** "]" and white space to the end of the line, after at least one digit. */
  predicate NumberCloses(s: string)
  {
    var t := SkipSpace(s);
    var u := SkipDigits(t);
    && s != "" && IsSpace(s[0])
    && |u| < |t|
    && StartsWith(u, "]")
    && AllSpace(u[1..])
  }

  /** FOOTER_RE. No piece can match in two ways: what ends a run is never in it. */
  predicate IsFooter(line: string)
  {
    && StartsWith(line, FOOTER_START)
    && var a := line[|FOOTER_START|..];
    && SpacesThen(a, FOOTER_DATE)
    && var b := AfterSpaces(a, FOOTER_DATE);
    && SpacesThen(b, FOOTER_PAGE)
    && NumberCloses(AfterSpaces(b, FOOTER_PAGE))
  }

  /** HEADER_RE. */
  predicate IsHeader(line: string)
  {
    && StartsWith(line, HEADER_START)
    && var a := line[|HEADER_START|..];
    && SpacesThen(a, HEADER_TITLE)
    && var b := AfterSpaces(a, HEADER_TITLE);
    && SpacesThen(b, HEADER_DATE)
    && AllSpace(AfterSpaces(b, HEADER_DATE))
  }

  /** The text of a footer pattern, its five runs named. */
  ghost predicate FooterRuns(line: string, w1: string, w2: string, w3: string, d: string, w4: string)
  {
    && w1 != "" && AllSpace(w1) && w2 != "" && AllSpace(w2) && w3 != "" && AllSpace(w3)
    && d != "" && Digits(d) && AllSpace(w4)
    && line == FOOTER_START + (w1 + (FOOTER_DATE + (w2 + (FOOTER_PAGE + (w3 + (d + ("]" + w4)))))))
  }

  lemma {:induction false} SkipSpaceSplits(s: string) returns (w: string)
    ensures AllSpace(w) && s == w + SkipSpace(s)
    ensures s != "" && IsSpace(s[0]) ==> w != ""
  {
    w := "";
    if s != "" && IsSpace(s[0]) {
      var u := SkipSpaceSplits(s[1..]);
      w := s[..1] + u;
      assert s == s[..1] + s[1..];
    }
  }

  lemma {:induction false} SkipSpaceOver(w: string, s: string)
    requires AllSpace(w) && s != "" && !IsSpace(s[0])
    ensures SkipSpace(w + s) == s
  {
    if w == "" {
      assert w + s == s;
    } else {
      SkipSpaceOver(w[1..], s);
      assert (w + s)[1..] == w[1..] + s;
    }
  }

  lemma {:induction false} SkipDigitsSplits(s: string) returns (d: string)
    ensures Digits(d) && s == d + SkipDigits(s)
    ensures |d| == |s| - |SkipDigits(s)|
  {
    d := "";
    if s != "" && IsDigit(s[0]) {
      var u := SkipDigitsSplits(s[1..]);
      d := s[..1] + u;
      assert s == s[..1] + s[1..];
    }
  }

  lemma {:induction false} SkipDigitsOver(d: string, s: string)
    requires Digits(d) && s != "" && !IsDigit(s[0])
    ensures SkipDigits(d + s) == s
  {
    if d == "" {
      assert d + s == s;
    } else {
      SkipDigitsOver(d[1..], s);
      assert (d + s)[1..] == d[1..] + s;
    }
  }

  lemma SpacesThenSplits(s: string, p: string) returns (w: string)
    requires SpacesThen(s, p)
    ensures w != "" && AllSpace(w) && s == w + (p + AfterSpaces(s, p))
  {
    w := SkipSpaceSplits(s);
    assert SkipSpace(s) == p + SkipSpace(s)[|p|..];
  }

  lemma SpacesThenOver(w: string, p: string, s: string)
    requires w != "" && AllSpace(w) && p != "" && !IsSpace(p[0])
    ensures SpacesThen(w + (p + s), p) && AfterSpaces(w + (p + s), p) == s
  {
    SkipSpaceOver(w, p + s);
    assert (p + s)[..|p|] == p && (p + s)[|p|..] == s;
  }

  lemma NumberClosesSplits(s: string) returns (w: string, d: string, z: string)
    requires NumberCloses(s)
    ensures w != "" && AllSpace(w) && d != "" && Digits(d) && AllSpace(z)
    ensures s == w + (d + ("]" + z))
  {
    w := SkipSpaceSplits(s);
    d := SkipDigitsSplits(SkipSpace(s));
    z := SkipDigits(SkipSpace(s))[1..];
    assert SkipDigits(SkipSpace(s)) == "]" + z;
  }

  lemma NumberClosesOver(w: string, d: string, z: string)
    requires w != "" && AllSpace(w) && d != "" && Digits(d) && AllSpace(z)
    ensures NumberCloses(w + (d + ("]" + z)))
  {
    var t := d + ("]" + z);
    assert t[0] == d[0];
    SkipSpaceOver(w, t);
    SkipDigitsOver(d, "]" + z);
    assert ("]" + z)[..1] == "]" && ("]" + z)[1..] == z;
  }

  lemma StartsOver(p: string, s: string)
    ensures StartsWith(p + s, p) && (p + s)[|p|..] == s
  {
  }

  /** A line the matcher takes is one the pattern describes. */
  lemma FooterSplits(line: string) returns (w1: string, w2: string, w3: string, d: string, w4: string)
    requires IsFooter(line)
    ensures FooterRuns(line, w1, w2, w3, d, w4)
  {
    hide SpacesThen, AfterSpaces, NumberCloses, AllSpace;
    var a := line[|FOOTER_START|..];
    w1 := SpacesThenSplits(a, FOOTER_DATE);
    var b := AfterSpaces(a, FOOTER_DATE);
    w2 := SpacesThenSplits(b, FOOTER_PAGE);
    w3, d, w4 := NumberClosesSplits(AfterSpaces(b, FOOTER_PAGE));
    assert line == FOOTER_START + a;
  }

  lemma FooterOver(line: string, w1: string, w2: string, w3: string, d: string, w4: string)
    requires FooterRuns(line, w1, w2, w3, d, w4)
    ensures IsFooter(line)
  {
    hide SpacesThen, AfterSpaces, NumberCloses, AllSpace, StartsWith;
    var c := w3 + (d + ("]" + w4));
    NumberClosesOver(w3, d, w4);
    SpacesThenOver(w2, FOOTER_PAGE, c);
    SpacesThenOver(w1, FOOTER_DATE, w2 + (FOOTER_PAGE + c));
    StartsOver(FOOTER_START, w1 + (FOOTER_DATE + (w2 + (FOOTER_PAGE + c))));
  }

  /** The matcher takes exactly the lines of the pattern. */
  lemma FooterMatches(line: string)
    ensures IsFooter(line) <==> exists w1, w2, w3, d, w4 :: FooterRuns(line, w1, w2, w3, d, w4)
  {
    hide IsFooter, FooterRuns;
    if IsFooter(line) {
      var w1, w2, w3, d, w4 := FooterSplits(line);
    }
    if w1, w2, w3, d, w4 :| FooterRuns(line, w1, w2, w3, d, w4) {
      FooterOver(line, w1, w2, w3, d, w4);
    }
  }

  /** emit_footer: the page number closes at column 72, or after one space. */
  function Footer(page: nat): string
  {
    var token := FOOTER_PAGE + " " + Numeral(page) + "]";
    var pad := TARGET_COLUMN - |FOOTER_PREFIX| - |token|;
    FOOTER_PREFIX + Spaces(if pad < 1 then 1 else pad) + token
  }

  method EmitFooter(page: nat) returns (line: string)
    ensures line == Footer(page)
    ensures IsFooter(line)
    ensures |Numeral(page)| <= 15 ==> |line| == 72
  {
    FooterIsFooter(page);
    var token := FOOTER_PAGE + " " + Numeral(page) + "]";
    var pad := TARGET_COLUMN - |FOOTER_PREFIX| - |token|;
    if pad < 1 {
      pad := 1;
    }
    line := FOOTER_PREFIX + Spaces(pad) + token;
  }

  lemma TokenRuns(page: nat)
    ensures FOOTER_PAGE + " " + Numeral(page) + "]" == FOOTER_PAGE + (" " + (Numeral(page) + ("]" + "")))
  {
    hide Numeral;
  }

  lemma FooterLine(page: nat) returns (n: nat)
    ensures n > 0 && (|Footer(page)| == 72 || n == 1)
    ensures Footer(page)
              == FOOTER_START + (Spaces(16) + (FOOTER_DATE + (Spaces(n) + (FOOTER_PAGE + " " + Numeral(page) + "]"))))
  {
    hide Numeral, Spaces;
    var token := FOOTER_PAGE + " " + Numeral(page) + "]";
    var pad := TARGET_COLUMN - |FOOTER_PREFIX| - |token|;
    n := if pad < 1 then 1 else pad;
    assert FOOTER_PREFIX + Spaces(n) + token == FOOTER_START + (Spaces(16) + (FOOTER_DATE + (Spaces(n) + token)));
  }

  lemma FooterIsFooter(page: nat)
    ensures IsFooter(Footer(page))
  {
    var n := FooterLine(page);
    TokenRuns(page);
    SpacesAreSpace(16);
    SpacesAreSpace(n);
    SpacesAreSpace(1);
    hide Footer, Spaces, Numeral, IsFooter;
    assert FooterRuns(Footer(page), Spaces(16), Spaces(n), " ", Numeral(page), "");
    FooterOver(Footer(page), Spaces(16), Spaces(n), " ", Numeral(page), "");
  }

  /** A footer says its page's number, and ends in it, at column 72 or one space after the date. */
  lemma FooterSays(page: nat)
    ensures exists w1, w2, d :: FooterRuns(Footer(page), w1, w2, " ", d, "") && ParseNat(d) == Some(page)
                                && (|Footer(page)| == 72 || w2 == " ")
  {
    var n := FooterLine(page);
    assert |Footer(page)| == 72 || Spaces(n) == " ";
    TokenRuns(page);
    SpacesAreSpace(16);
    SpacesAreSpace(n);
    SpacesAreSpace(1);
    ValueOfNumeral(page);
    hide Footer, Spaces, Numeral;
    assert FooterRuns(Footer(page), Spaces(16), Spaces(n), " ", Numeral(page), "");
  }

  /** The running header is a header, and ends at column 72 too. */
  lemma HeaderFills()
    ensures IsHeader(RUNNING_HEADER) && |RUNNING_HEADER| == 72
  {
    HeaderIsHeader();
    hide IsHeader;
    assert |HEADER_START| == 14 && |HEADER_TITLE| == 9 && |HEADER_DATE| == 8;
  }

  lemma FooterNoBreak(page: nat)
    ensures NoBreak(Footer(page))
  {
    var n := FooterLine(page);
    hide Numeral, Spaces, Footer;
    assert NoBreak(FOOTER_START) && NoBreak(FOOTER_DATE) && NoBreak(FOOTER_PAGE);
    NumeralNoBreak(page);
    SpacesNoBreak(16);
    SpacesNoBreak(n);
  }

  lemma NumeralNoBreak(n: nat)
    ensures NoBreak(Numeral(n))
  {
    hide Numeral;
    assert forall k :: 0 <= k < |Numeral(n)| ==> IsDigit(Numeral(n)[k]);
  }

  lemma SpacesAreSpace(n: nat)
    ensures AllSpace(Spaces(n)) && (n > 0 ==> Spaces(n) != "") && AllSpace(" ")
  {
  }

  lemma HeaderOver(w: string, v: string, z: string)
    requires w != "" && AllSpace(w) && v != "" && AllSpace(v) && AllSpace(z)
    ensures IsHeader(HEADER_START + (w + (HEADER_TITLE + (v + (HEADER_DATE + z)))))
  {
    hide SpacesThen, AfterSpaces, AllSpace, StartsWith;
    SpacesThenOver(v, HEADER_DATE, z);
    SpacesThenOver(w, HEADER_TITLE, v + (HEADER_DATE + z));
    StartsOver(HEADER_START, w + (HEADER_TITLE + (v + (HEADER_DATE + z))));
  }

  lemma NothingIsSpace()
    ensures AllSpace("")
  {
  }

  lemma HeaderIsHeader()
    ensures IsHeader(RUNNING_HEADER)
  {
    SpacesAreSpace(18);
    SpacesAreSpace(23);
    hide IsHeader, Spaces, AllSpace;
    assert HEADER_DATE + "" == HEADER_DATE;
    NothingIsSpace();
    HeaderOver(Spaces(18), Spaces(23), "");
  }

  lemma HeaderNoBreak()
    ensures NoBreak(RUNNING_HEADER)
  {
    assert NoBreak(HEADER_START) && NoBreak(HEADER_TITLE) && NoBreak(HEADER_DATE);
    SpacesNoBreak(18);
    SpacesNoBreak(23);
    hide Spaces;
  }

  lemma SpacesNoBreak(n: nat)
    ensures NoBreak(Spaces(n))
  {
  }

  /** line.strip() == "". */
  predicate Blank(line: string)
  {
    AllSpace(line)
  }

  ghost predicate NoBreak(line: string)
  {
    forall k :: 0 <= k < |line| ==> line[k] != '\n'
  }

  /** No line is both a footer and a line the stripping skips. */
  lemma FooterIsHard(line: string)
    ensures !(IsFooter(line) && (Blank(line) || IsHeader(line)))
  {
    hide SpacesThen, NumberCloses;
    assert StartsWith(line, FOOTER_START) ==> |line| > 0 && line[0] == 'F' by {
      assert FOOTER_START[0] == 'F';
    }
    assert StartsWith(line, HEADER_START) ==> |line| > 0 && line[0] == 'I' by {
      assert HEADER_START[0] == 'I';
    }
  }

  ghost predicate HeaderRuns(line: string, w1: string, w2: string, w3: string)
  {
    && w1 != "" && AllSpace(w1) && w2 != "" && AllSpace(w2) && AllSpace(w3)
    && line == HEADER_START + (w1 + (HEADER_TITLE + (w2 + (HEADER_DATE + w3))))
  }

  lemma HeaderMatches(line: string)
    ensures IsHeader(line) <==> exists w1, w2, w3 :: HeaderRuns(line, w1, w2, w3)
  {
    hide SpacesThen, AfterSpaces, AllSpace;
    if IsHeader(line) {
      var a := line[|HEADER_START|..];
      var w1 := SpacesThenSplits(a, HEADER_TITLE);
      var b := AfterSpaces(a, HEADER_TITLE);
      var w2 := SpacesThenSplits(b, HEADER_DATE);
      assert line == HEADER_START + a;
      assert HeaderRuns(line, w1, w2, AfterSpaces(b, HEADER_DATE));
    }
    if w1, w2, w3 :| HeaderRuns(line, w1, w2, w3) {
      HeaderOver(w1, w2, w3);
    }
  }
}
