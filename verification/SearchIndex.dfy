/** The embedded full-text index of a doc pack (docpack/index.go:67-198). */
module SearchIndex {
  import opened Options
  import opened Tokenizer
  import opened Lexical
  import Sorting
  import Seqs

  /** One token of a document: the field class it was found under, and its term. */
  datatype Entry = Entry(field: string, term: string)

  datatype IndexDoc = IndexDoc(key: string, locale: string, title: string, audience: string, tokens: nat)

  datatype OccKey = OccKey(doc: nat, field: string)

  datatype Occurrence = Occurrence(count: nat, positions: seq<nat>)

  type Postings = map<string, map<OccKey, Occurrence>>

  // ---- The naive scan ----

  /** The token stream of one field class. */
  function Stream(log: seq<Entry>, field: string): seq<string>
  {
    if log == [] then []
    else
      var last := log[|log| - 1];
      Stream(log[..|log| - 1], field) + (if last.field == field then [last.term] else [])
  }

  /** Where a term occurs in the token stream of a field class. */
  function Scan(log: seq<Entry>, field: string, term: string): seq<nat>
  {
    if log == [] then []
    else
      var before, last := log[..|log| - 1], log[|log| - 1];
      Scan(before, field, term) + (if last == Entry(field, term) then [|Stream(before, field)|] else [])
  }

  lemma StreamAdd(log: seq<Entry>, e: Entry, field: string)
    ensures Stream(log + [e], field) == Stream(log, field) + (if e.field == field then [e.term] else [])
  {
    assert (log + [e])[..|log|] == log;
  }

  lemma ScanAdd(log: seq<Entry>, e: Entry, field: string, term: string)
    ensures Scan(log + [e], field, term)
         == Scan(log, field, term) + (if e == Entry(field, term) then [|Stream(log, field)|] else [])
  {
    assert (log + [e])[..|log|] == log;
  }

  ghost predicate Lists(p: seq<nat>, k: nat)
  {
    exists i :: 0 <= i < |p| && p[i] == k
  }

  lemma ListsMore(p: seq<nat>, n: nat, k: nat)
    ensures Lists(p + [n], k) <==> Lists(p, k) || k == n
  {
    if i :| 0 <= i < |p| && p[i] == k {
      assert (p + [n])[i] == k;
    }
    assert (p + [n])[|p|] == n;
  }

  ghost predicate Climbs(p: seq<nat>, n: nat)
  {
    (forall i, j :: 0 <= i < j < |p| ==> p[i] < p[j]) && forall i :: 0 <= i < |p| ==> p[i] < n
  }

  lemma ClimbsMore(p: seq<nat>, n: nat)
    requires Climbs(p, n)
    ensures Climbs(p, n + 1) && Climbs(p + [n], n + 1)
  {
  }

  ghost predicate Has(s: seq<string>, k: nat, term: string)
  {
    k < |s| && s[k] == term
  }

  lemma HasMore(s: seq<string>, k: nat, term: string, x: string)
    ensures Has(s + [x], k, term) <==> Has(s, k, term) || (k == |s| && x == term)
  {
  }

  /** p lists, ascending, exactly the ordinals at which s has the term. */
  ghost predicate PositionsOf(p: seq<nat>, s: seq<string>, term: string)
  {
    Climbs(p, |s|) && forall k: nat :: Lists(p, k) <==> Has(s, k, term)
  }

  lemma PositionsGrow(p: seq<nat>, s: seq<string>, term: string, x: string)
    requires PositionsOf(p, s, term)
    ensures PositionsOf(if x == term then p + [|s|] else p, s + [x], term)
  {
    hide Lists, Has, Climbs;
    var q := if x == term then p + [|s|] else p;
    ClimbsMore(p, |s|);
    forall k: nat
      ensures Lists(q, k) <==> Has(s + [x], k, term)
    {
      HasMore(s, k, term, x);
      ListsMore(p, |s|, k);
    }
  }

  lemma {:induction false} ScanIsExact(log: seq<Entry>, field: string, term: string)
    ensures PositionsOf(Scan(log, field, term), Stream(log, field), term)
  {
    if log != [] {
      var before, last := log[..|log| - 1], log[|log| - 1];
      ScanIsExact(before, field, term);
      assert log == before + [last];
      ScanAdd(before, last, field, term);
      StreamAdd(before, last, field);
      hide Scan, Stream;
      if last.field == field {
        PositionsGrow(Scan(before, field, term), Stream(before, field), term, last.term);
      }
      hide PositionsOf;
      assert Scan(before, field, term) + [] == Scan(before, field, term);
      assert Stream(before, field) + [] == Stream(before, field);
    }
  }

  lemma TaggedMore(field: string, terms: seq<string>)
    requires terms != []
    ensures Tagged(field, terms) == Tagged(field, terms[..|terms| - 1]) + [Entry(field, terms[|terms| - 1])]
  {
  }

  /** The stream of a field is the tokens of its texts, one text after the other. */
  lemma {:induction false} StreamOfText(log: seq<Entry>, field: string, terms: seq<string>, other: string)
    ensures Stream(log + Tagged(field, terms), other) == Stream(log, other) + (if other == field then terms else [])
  {
    hide Stream;
    if terms == [] {
      assert log + Tagged(field, terms) == log;
      assert Stream(log, other) + [] == Stream(log, other);
    } else {
      var before, last := terms[..|terms| - 1], terms[|terms| - 1];
      StreamOfText(log, field, before, other);
      TaggedMore(field, terms);
      hide Tagged;
      Seqs.Associate(log, Tagged(field, before), [Entry(field, last)]);
      StreamAdd(log + Tagged(field, before), Entry(field, last), other);
      Seqs.Associate(Stream(log, other), before, [last]);
      assert terms == before + [last];
      assert Stream(log, other) + [] + [] == Stream(log, other);
    }
  }

  function Tagged(field: string, terms: seq<string>): (log: seq<Entry>)
    ensures |log| == |terms|
  {
    seq(|terms|, k requires 0 <= k < |terms| => Entry(field, terms[k]))
  }

  // ---- The ordinals of one token's terms ----

  /** The ordinal of entry k of a document in the stream of its class. */
  function Ordinal(log: seq<Entry>, k: nat): nat
    requires k < |log|
  {
    |Stream(log[..k], log[k].field)|
  }

  /** An entry is recorded at its ordinal. */
  lemma {:induction false} OrdinalRecorded(log: seq<Entry>, k: nat)
    requires k < |log|
    ensures Ordinal(log, k) in Scan(log, log[k].field, log[k].term)
  {
    var n, e := |log| - 1, log[k];
    var before, last := log[..n], log[n];
    assert log == before + [last];
    ScanAdd(before, last, e.field, e.term);
    hide Scan, Stream;
    if k < n {
      OrdinalRecorded(before, k);
      assert before[..k] == log[..k];
    }
  }

  /** The ordinal of the i-th entry after the first `at`. */
  function OrdinalAfter(log: seq<Entry>, at: nat, i: nat): nat
    requires at + i < |log|
  {
    Ordinal(log, at + i)
  }

  /** The terms of a text's tokens take the next ordinals, one each. */
  lemma OrdinalOfTagged(log: seq<Entry>, field: string, terms: seq<string>, i: nat)
    requires i < |terms|
    ensures OrdinalAfter(log + Tagged(field, terms), |log|, i) == |Stream(log, field)| + i
  {
    var all := log + Tagged(field, terms);
    assert all[..|log| + i] == log + Tagged(field, terms[..i]);
    assert all[|log| + i].field == field;
    StreamOfText(log, field, terms[..i], field);
  }

  /** The last `count` entries all have one ordinal. */
  ghost predicate ShareOrdinal(log: seq<Entry>, at: nat, count: nat)
    requires at + count <= |log|
  {
    forall i: nat, j: nat :: i < count && j < count ==> OrdinalAfter(log, at, i) == OrdinalAfter(log, at, j)
  }

  /** A token's terms are recorded at one position exactly when the token is its only term: when no part of it
    * between joiners is long enough and different from it. */
  lemma TokenSharesIff(a: Alphabet, log: seq<Entry>, field: string, tok: string)
    requires Bytes(a, tok) >= MIN_TOKEN_LENGTH
    ensures ShareOrdinal(log + Tagged(field, TermsOf(a, tok)), |log|, |TermsOf(a, tok)|) <==> !HasPart(a, tok)
    ensures |TermsOf(a, tok)| <= 1 <==> !HasPart(a, tok)
  {
    var terms := TermsOf(a, tok);
    OneTermIff(a, tok);
    hide TermsOf, Stream, Tagged, HasPart, OrdinalAfter;
    var all := log + Tagged(field, terms);
    forall i: nat | i < |terms|
      ensures OrdinalAfter(all, |log|, i) == |Stream(log, field)| + i
    {
      OrdinalOfTagged(log, field, terms, i);
    }
    if |terms| > 1 {
      assert OrdinalAfter(all, |log|, 0) != OrdinalAfter(all, |log|, 1);
    }
  }

  /** The comment's kind of token, by example: three terms, recorded at 0, 1 and 2. */
  lemma ThreePositions(field: string)
    ensures var terms := ["ab.cd", "ab", "cd"];
            && Terms(Ascii(), "ab.cd") == terms
            && forall i: nat :: i < 3 ==>
                 OrdinalAfter(Tagged(field, terms), 0, i) == i && i in Scan(Tagged(field, terms), field, terms[i])
  {
    ThreeTerms();
    hide Scan, Terms;
    var terms := ["ab.cd", "ab", "cd"];
    forall i: nat | i < 3
      ensures OrdinalAfter(Tagged(field, terms), 0, i) == i && i in Scan(Tagged(field, terms), field, terms[i])
    {
      OrdinalOfTagged([], field, terms, i);
      assert [] + Tagged(field, terms) == Tagged(field, terms);
      assert Stream([], field) == [];
      OrdinalRecorded(Tagged(field, terms), i);
    }
  }

  // ---- The postings ----

  function Lookup(postings: Postings, term: string, k: OccKey): Option<Occurrence>
  {
    if term in postings && k in postings[term] then Some(postings[term][k]) else None
  }

  /** What the naive scan of the documents says of a term. */
  function Scanned(docs: seq<seq<Entry>>, term: string, k: OccKey): Option<Occurrence>
  {
    if k.doc < |docs| && Scan(docs[k.doc], k.field, term) != [] then
      Some(Occurrence(|Scan(docs[k.doc], k.field, term)|, Scan(docs[k.doc], k.field, term)))
    else None
  }

  ghost predicate Match(postings: Postings, docs: seq<seq<Entry>>)
  {
    && (forall t: string, k: OccKey :: Lookup(postings, t, k) == Scanned(docs, t, k))
    && forall t :: t in postings ==> postings[t] != map[]
  }

  /** An occurrence with one more position. */
  function Extended(o: Option<Occurrence>, pos: nat): Option<Occurrence>
  {
    match o
    case None => Some(Occurrence(1, [pos]))
    case Some(v) => Some(Occurrence(v.count + 1, v.positions + [pos]))
  }

  /** The postings with one more position for a term. */
  function Posted(postings: Postings, term: string, k: OccKey, pos: nat): Postings
  {
    var byKey := if term in postings then postings[term] else map[];
    var occ := if k in byKey then byKey[k] else Occurrence(0, []);
    postings[term := byKey[k := Occurrence(occ.count + 1, occ.positions + [pos])]]
  }

  lemma LookupPosted(postings: Postings, term: string, k: OccKey, pos: nat, t: string, l: OccKey)
    ensures Lookup(Posted(postings, term, k, pos), t, l)
         == if t == term && l == k then Extended(Lookup(postings, term, k), pos) else Lookup(postings, t, l)
  {
    assert [] + [pos] == [pos];
  }

  lemma ScannedAdd(docs: seq<seq<Entry>>, d: nat, e: Entry, t: string, l: OccKey)
    requires d < |docs|
    ensures Scanned(docs[d := docs[d] + [e]], t, l)
         == if t == e.term && l == OccKey(d, e.field) then Extended(Scanned(docs, t, l), |Stream(docs[d], e.field)|)
            else Scanned(docs, t, l)
  {
    if l.doc == d {
      ScanAdd(docs[d], e, l.field, t);
      hide Scan, Stream;
      var was := Scan(docs[d], l.field, t);
      assert was + [] == was;
      assert was == [] ==> was + [|Stream(docs[d], e.field)|] == [|Stream(docs[d], e.field)|];
    }
  }

  /** Posting a token keeps the postings equal to the scan. */
  lemma PostedMatches(postings: Postings, docs: seq<seq<Entry>>, d: nat, e: Entry)
    requires Match(postings, docs) && d < |docs|
    ensures Match(Posted(postings, e.term, OccKey(d, e.field), |Stream(docs[d], e.field)|), docs[d := docs[d] + [e]])
  {
    hide Lookup, Scanned, Scan, Stream;
    var pos := |Stream(docs[d], e.field)|;
    var k := OccKey(d, e.field);
    forall t: string, l: OccKey
      ensures Lookup(Posted(postings, e.term, k, pos), t, l) == Scanned(docs[d := docs[d] + [e]], t, l)
    {
      LookupPosted(postings, e.term, k, pos, t, l);
      ScannedAdd(docs, d, e, t, l);
    }
  }

  lemma BegunMatches(postings: Postings, docs: seq<seq<Entry>>)
    requires Match(postings, docs)
    ensures Match(postings, docs + [[]])
  {
    hide Lookup;
    forall t: string, k: OccKey
      ensures Lookup(postings, t, k) == Scanned(docs + [[]], t, k)
    {
      assert Scanned(docs + [[]], t, k) == Scanned(docs, t, k);
    }
  }

  // ---- What is emitted ----

  datatype Emitted = Emitted(doc: nat, field: string, count: nat, positions: seq<nat>)

  datatype Posting = Posting(term: string, occurrences: seq<Emitted>)

  predicate KeyBefore(a: OccKey, b: OccKey)
  {
    a.doc < b.doc || (a.doc == b.doc && Before(a.field, b.field))
  }

  lemma KeyBeforeOrders()
    ensures Orders(KeyBefore)
  {
    BeforeOrders();
    hide Before;
  }

  function TermsIn(out: seq<Posting>): (s: seq<string>)
    ensures |s| == |out| && forall i :: 0 <= i < |out| ==> s[i] == out[i].term
  {
    seq(|out|, i requires 0 <= i < |out| => out[i].term)
  }

  function KeysIn(occs: seq<Emitted>): (s: seq<OccKey>)
    ensures |s| == |occs| && forall i :: 0 <= i < |occs| ==> s[i] == OccKey(occs[i].doc, occs[i].field)
  {
    seq(|occs|, i requires 0 <= i < |occs| => OccKey(occs[i].doc, occs[i].field))
  }

  ghost predicate Occurs(docs: seq<seq<Entry>>, term: string, k: OccKey)
  {
    Scanned(docs, term, k).Some?
  }

  /** The occurrences of one term, strictly ordered by document and class, each with the scan's positions. */
  ghost predicate PostingOf(p: Posting, docs: seq<seq<Entry>>)
  {
    && p.occurrences != []
    && Ascending(KeysIn(p.occurrences), KeyBefore)
    && (forall k :: k in KeysIn(p.occurrences) <==> Occurs(docs, p.term, k))
    && forall j :: 0 <= j < |p.occurrences| ==>
         var o := p.occurrences[j];
         Scanned(docs, p.term, OccKey(o.doc, o.field)) == Some(Occurrence(o.count, o.positions))
  }

  /** The index of the documents: strictly ascending terms, each with its posting, none missing. */
  ghost predicate IndexOf(out: seq<Posting>, docs: seq<seq<Entry>>)
  {
    && Ascending(TermsIn(out), Before)
    && (forall i :: 0 <= i < |out| ==> PostingOf(out[i], docs))
    && forall t: string, k: OccKey :: Occurs(docs, t, k) ==> t in TermsIn(out)
  }

  /** The terms come in the order of their first difference, the occurrences of a term by document, and those in one
    * document in the order of their classes. */
  lemma IndexInOrder(out: seq<Posting>, docs: seq<seq<Entry>>)
    requires IndexOf(out, docs)
    ensures forall i, j :: 0 <= i < j < |out| ==> Precedes(out[i].term, out[j].term)
    ensures forall i, j, k :: 0 <= i < |out| && 0 <= j < k < |out[i].occurrences| ==>
              var a, b := out[i].occurrences[j], out[i].occurrences[k];
              a.doc < b.doc || (a.doc == b.doc && Precedes(a.field, b.field))
  {
    hide Precedes, Before, Occurs, Scanned;
    forall i, j | 0 <= i < j < |out|
      ensures Precedes(out[i].term, out[j].term)
    {
      assert Before(TermsIn(out)[i], TermsIn(out)[j]);
      BeforeIff(out[i].term, out[j].term);
    }
    forall i, j, k | 0 <= i < |out| && 0 <= j < k < |out[i].occurrences|
      ensures var a, b := out[i].occurrences[j], out[i].occurrences[k];
              a.doc < b.doc || (a.doc == b.doc && Precedes(a.field, b.field))
    {
      var os := out[i].occurrences;
      assert PostingOf(out[i], docs);
      assert KeyBefore(KeysIn(os)[j], KeysIn(os)[k]);
      BeforeIff(os[j].field, os[k].field);
    }
  }

  /** One index only: no order of a map can show in it. */
  lemma IndexUnique(a: seq<Posting>, b: seq<Posting>, docs: seq<seq<Entry>>)
    requires IndexOf(a, docs) && IndexOf(b, docs)
    ensures a == b
  {
    BeforeOrders();
    TermsAre(a, docs);
    TermsAre(b, docs);
    hide Orders, Ascending, Before, PostingOf;
    forall t: string
      ensures t in TermsIn(a) <==> t in TermsIn(b)
    {
    }
    AscendingUnique(TermsIn(a), TermsIn(b), Before);
    forall i | 0 <= i < |a|
      ensures a[i] == b[i]
    {
      assert TermsIn(a)[i] == TermsIn(b)[i];
      PostingUnique(a[i], b[i], docs);
    }
  }

  lemma TermsAre(out: seq<Posting>, docs: seq<seq<Entry>>)
    requires IndexOf(out, docs)
    ensures forall t: string :: t in TermsIn(out) <==> exists k: OccKey :: Occurs(docs, t, k)
  {
    hide Ascending, Occurs;
    forall t: string | t in TermsIn(out)
      ensures exists k: OccKey :: Occurs(docs, t, k)
    {
      var i :| 0 <= i < |out| && TermsIn(out)[i] == t;
      assert PostingOf(out[i], docs);
      assert KeysIn(out[i].occurrences)[0] in KeysIn(out[i].occurrences);
    }
  }

  lemma PostingUnique(p: Posting, q: Posting, docs: seq<seq<Entry>>)
    requires PostingOf(p, docs) && PostingOf(q, docs) && p.term == q.term
    ensures p == q
  {
    KeyBeforeOrders();
    hide Orders, Ascending, KeyBefore, Occurs, Scanned;
    AscendingUnique(KeysIn(p.occurrences), KeysIn(q.occurrences), KeyBefore);
    forall j | 0 <= j < |p.occurrences|
      ensures p.occurrences[j] == q.occurrences[j]
    {
      assert KeysIn(p.occurrences)[j] == KeysIn(q.occurrences)[j];
    }
  }

  // ---- Counts add up to the tokens of a document ----

  function CountsFor(occs: seq<Emitted>, d: nat): nat
  {
    if occs == [] then 0 else (if occs[0].doc == d then occs[0].count else 0) + CountsFor(occs[1..], d)
  }

  /** The counts of all occurrences in document d. */
  function CountsIn(out: seq<Posting>, d: nat): nat
  {
    if out == [] then 0 else CountsFor(out[0].occurrences, d) + CountsIn(out[1..], d)
  }

  function EntriesFor(occs: seq<Emitted>, term: string, d: nat): seq<Entry>
  {
    if occs == [] then []
    else (if occs[0].doc == d then [Entry(occs[0].field, term)] else []) + EntriesFor(occs[1..], term, d)
  }

  /** The classes and terms with an occurrence in document d. */
  function EntriesIn(out: seq<Posting>, d: nat): seq<Entry>
  {
    if out == [] then [] else EntriesFor(out[0].occurrences, out[0].term, d) + EntriesIn(out[1..], d)
  }

  function ScanTotal(keys: seq<Entry>, log: seq<Entry>): nat
  {
    if keys == [] then 0 else |Scan(log, keys[0].field, keys[0].term)| + ScanTotal(keys[1..], log)
  }

  lemma {:induction false} ScanTotalConcat(a: seq<Entry>, b: seq<Entry>, log: seq<Entry>)
    ensures ScanTotal(a + b, log) == ScanTotal(a, log) + ScanTotal(b, log)
  {
    hide Scan;
    if a == [] {
      assert a + b == b;
    } else {
      ScanTotalConcat(a[1..], b, log);
      assert (a + b)[1..] == a[1..] + b;
    }
  }

  lemma {:induction false} ScanTotalAdd(keys: seq<Entry>, log: seq<Entry>, e: Entry)
    ensures ScanTotal(keys, log + [e]) == ScanTotal(keys, log) + multiset(keys)[e]
  {
    hide Scan, Stream;
    if keys != [] {
      ScanTotalAdd(keys[1..], log, e);
      ScanAdd(log, e, keys[0].field, keys[0].term);
      assert keys == [keys[0]] + keys[1..];
    }
  }

  lemma {:induction false} ScanTotalIsLength(keys: seq<Entry>, log: seq<Entry>)
    requires forall k :: 0 <= k < |log| ==> multiset(keys)[log[k]] == 1
    ensures ScanTotal(keys, log) == |log|
  {
    if log == [] {
      ScanTotalNone(keys);
    } else {
      var before, last := log[..|log| - 1], log[|log| - 1];
      ScanTotalIsLength(keys, before);
      ScanTotalAdd(keys, before, last);
      assert log == before + [last];
    }
  }

  lemma {:induction false} ScanTotalNone(keys: seq<Entry>)
    ensures ScanTotal(keys, []) == 0
  {
    if keys != [] {
      ScanTotalNone(keys[1..]);
    }
  }

  lemma {:induction false} EntriesForCount(occs: seq<Emitted>, term: string, d: nat, e: Entry)
    ensures multiset(EntriesFor(occs, term, d))[e] == if e.term == term then multiset(KeysIn(occs))[OccKey(d, e.field)]
              else 0
  {
    if occs == [] {
      assert KeysIn(occs) == [];
    } else {
      EntriesForCount(occs[1..], term, d, e);
      KeysInFirst(occs);
      hide KeysIn, EntriesFor;
      assert multiset(KeysIn(occs)) == multiset{OccKey(occs[0].doc, occs[0].field)} + multiset(KeysIn(occs[1..]));
      EntriesForFirst(occs, term, d);
    }
  }

  lemma KeysInFirst(occs: seq<Emitted>)
    requires occs != []
    ensures KeysIn(occs) == [OccKey(occs[0].doc, occs[0].field)] + KeysIn(occs[1..])
  {
  }

  lemma EntriesForFirst(occs: seq<Emitted>, term: string, d: nat)
    requires occs != []
    ensures multiset(EntriesFor(occs, term, d))
         == (if occs[0].doc == d then multiset{Entry(occs[0].field, term)} else multiset{})
            + multiset(EntriesFor(occs[1..], term, d))
  {
    var rest := EntriesFor(occs[1..], term, d);
    assert EntriesFor(occs, term, d) == (if occs[0].doc == d then [Entry(occs[0].field, term)] else []) + rest;
    assert [] + rest == rest;
    hide EntriesFor;
  }

  lemma CountedOnceHere(p: Posting, docs: seq<seq<Entry>>, d: nat, e: Entry)
    requires PostingOf(p, docs)
    ensures multiset(EntriesFor(p.occurrences, p.term, d))[e]
         == if e.term == p.term && Occurs(docs, e.term, OccKey(d, e.field)) then 1 else 0
  {
    KeyBeforeOrders();
    hide Ascending, Orders, KeyBefore, Occurs, Scanned, EntriesFor;
    EntriesForCount(p.occurrences, p.term, d, e);
    AscendingOnce(KeysIn(p.occurrences), KeyBefore, OccKey(d, e.field));
  }

  /** A class and term that occur in document d stand in one occurrence. */
  lemma {:induction false} CountedOnce(out: seq<Posting>, docs: seq<seq<Entry>>, d: nat, e: Entry)
    requires Ascending(TermsIn(out), Before)
    requires forall i :: 0 <= i < |out| ==> PostingOf(out[i], docs)
    requires Occurs(docs, e.term, OccKey(d, e.field))
    ensures multiset(EntriesIn(out, d))[e] == if e.term in TermsIn(out) then 1 else 0
  {
    hide PostingOf, Occurs, EntriesFor, Before;
    if out != [] {
      CountedOnce(out[1..], docs, d, e);
      CountedOnceHere(out[0], docs, d, e);
      assert TermsIn(out) == [out[0].term] + TermsIn(out[1..]);
      FirstNotAgain(out);
      hide Ascending;
    }
  }

  lemma FirstNotAgain(out: seq<Posting>)
    requires Ascending(TermsIn(out), Before) && out != []
    ensures out[0].term !in TermsIn(out[1..])
  {
    BeforeOrders();
    assert forall j :: 0 < j < |out| ==> Before(TermsIn(out)[0], TermsIn(out)[j]);
    hide Before;
  }

  lemma {:induction false} CountsAreScans(occs: seq<Emitted>, term: string, docs: seq<seq<Entry>>, d: nat)
    requires d < |docs|
    requires forall j :: 0 <= j < |occs| ==>
      Scanned(docs, term, OccKey(occs[j].doc, occs[j].field)) == Some(Occurrence(occs[j].count, occs[j].positions))
    ensures CountsFor(occs, d) == ScanTotal(EntriesFor(occs, term, d), docs[d])
  {
    if occs != [] {
      CountsAreScans(occs[1..], term, docs, d);
      var here := if occs[0].doc == d then [Entry(occs[0].field, term)] else [];
      ScanTotalConcat(here, EntriesFor(occs[1..], term, d), docs[d]);
      assert ScanTotal([], docs[d]) == 0;
      assert occs[0].doc == d ==> ScanTotal(here, docs[d]) == |Scan(docs[d], occs[0].field, term)| + 0;
    }
  }

  lemma {:induction false} AllCountsAreScans(out: seq<Posting>, docs: seq<seq<Entry>>, d: nat)
    requires d < |docs| && forall i :: 0 <= i < |out| ==> PostingOf(out[i], docs)
    ensures CountsIn(out, d) == ScanTotal(EntriesIn(out, d), docs[d])
  {
    hide Ascending, Occurs, Scanned, ScanTotal, EntriesFor, CountsFor;
    if out == [] {
      assert ScanTotal([], docs[d]) == 0 by {
        NoKeys(docs[d]);
      }
    } else {
      AllCountsAreScans(out[1..], docs, d);
      assert PostingOf(out[0], docs);
      CountsAreScans(out[0].occurrences, out[0].term, docs, d);
      ScanTotalConcat(EntriesFor(out[0].occurrences, out[0].term, d), EntriesIn(out[1..], d), docs[d]);
    }
  }

  lemma NoKeys(log: seq<Entry>)
    ensures ScanTotal([], log) == 0
  {
  }

  lemma {:induction false} TokenOccurs(log: seq<Entry>, k: nat)
    requires k < |log|
    ensures Scan(log, log[k].field, log[k].term) != []
  {
    if k < |log| - 1 {
      TokenOccurs(log[..|log| - 1], k);
    }
  }

  /** The counts of a document's occurrences add up to its tokens. */
  lemma CountsAreTokens(out: seq<Posting>, docs: seq<seq<Entry>>, d: nat)
    requires IndexOf(out, docs) && d < |docs|
    ensures CountsIn(out, d) == |docs[d]|
  {
    hide PostingOf, Ascending, EntriesIn, Scan;
    AllCountsAreScans(out, docs, d);
    forall k | 0 <= k < |docs[d]|
      ensures multiset(EntriesIn(out, d))[docs[d][k]] == 1
    {
      var e := docs[d][k];
      TokenOccurs(docs[d], k);
      assert Occurs(docs, e.term, OccKey(d, e.field));
      CountedOnce(out, docs, d, e);
    }
    ScanTotalIsLength(EntriesIn(out, d), docs[d]);
  }

  // ---- The builder ----

  function Itself(x: nat): int
  {
    x
  }

  /** sort.Slice of positions. */
  function InOrder(p: seq<nat>): seq<nat>
  {
    Sorting.StableSort(p, Itself)
  }

  lemma {:induction false} AscendingIsSorted(p: seq<nat>)
    requires forall i, j :: 0 <= i < j < |p| ==> p[i] < p[j]
    ensures InOrder(p) == p
  {
    if p != [] {
      var u, last := p[..|p| - 1], p[|p| - 1];
      AscendingIsSorted(u);
      assert InOrder(p) == Sorting.Insert(u, last, Itself);
      assert u != [] ==> u[|u| - 1] < last;
      assert p == u + [last];
    }
  }

  lemma ScannedInOrder(docs: seq<seq<Entry>>, term: string, k: OccKey)
    requires Scanned(docs, term, k).Some?
    ensures InOrder(Scanned(docs, term, k).value.positions) == Scanned(docs, term, k).value.positions
  {
    hide Scan, Stream, InOrder;
    ScanIsExact(docs[k.doc], k.field, term);
    AscendingIsSorted(Scan(docs[k.doc], k.field, term));
  }

  /** The same documents in the same order, but for their token counts. */
  ghost predicate SameDocs(a: seq<IndexDoc>, b: seq<IndexDoc>)
  {
    |a| == |b| && forall d :: 0 <= d < |a| ==> b[d] == a[d].(tokens := b[d].tokens)
  }

  lemma SameDocsStay(a: seq<IndexDoc>)
    ensures SameDocs(a, a)
  {
  }

  lemma SameDocsOn(a: seq<IndexDoc>, b: seq<IndexDoc>, c: seq<IndexDoc>)
    requires SameDocs(a, b) && SameDocs(b, c)
    ensures SameDocs(a, c)
  {
  }

  lemma TaggedNone(before: seq<Entry>, field: string)
    ensures before + Tagged(field, []) == before
  {
  }

  lemma TaggedNext(before: seq<Entry>, field: string, terms: seq<string>, i: nat)
    requires i < |terms|
    ensures before + Tagged(field, terms[..i]) + [Entry(field, terms[i])] == before + Tagged(field, terms[..i + 1])
  {
    TaggedMore(field, terms[..i + 1]);
    assert terms[..i + 1][..i] == terms[..i];
    hide Tagged;
    Seqs.Associate(before, Tagged(field, terms[..i]), [Entry(field, terms[i])]);
  }

  /** The accumulator of the compiler's postings; log is what has been indexed, document by document. */
  class IndexBuilder {
    var docs: seq<IndexDoc>
    var postings: Postings
    var current: nat
    var position: map<string, nat>
    var locales: set<string>
    ghost var log: seq<seq<Entry>>

    ghost predicate Valid()
      reads this
    {
      && |docs| == |log|
      && (docs != [] ==> current == |docs| - 1)
      && (forall d :: 0 <= d < |docs| ==> docs[d].tokens == |log[d]|)
      && (docs != [] ==> forall c :: PositionOf(c) == |Stream(log[current], c)|)
      && (forall d :: 0 <= d < |docs| ==> docs[d].locale in locales)
      && (forall l :: l in locales ==> exists d :: 0 <= d < |docs| && docs[d].locale == l)
      && Match(postings, log)
    }

    /** A class not yet seen in the document is at position 0. */
    function PositionOf(field: string): nat
      reads this
    {
      if field in position then position[field] else 0
    }

    constructor ()
      ensures Valid() && docs == [] && log == []
    {
      docs, postings, current, position, locales := [], map[], 0, map[], {};
      log := [];
    }

    /** begin: a new document, with no tokens yet. */
    method Begin(key: string, locale: string, title: string, audience: string)
      requires Valid()
      modifies this
      ensures Valid()
      ensures docs == old(docs) + [IndexDoc(key, locale, title, audience, 0)]
      ensures log == old(log) + [[]]
      ensures locales == old(locales) + {locale}
      ensures postings == old(postings)
    {
      hide Match, Scan;
      BegunMatches(postings, log);
      docs := docs + [IndexDoc(key, locale, title, audience, 0)];
      current := |docs| - 1;
      position := map[];
      locales := locales + {locale};
      log := log + [[]];
      assert Stream([], "") == [];
      assert forall d :: 0 <= d < |docs| - 1 ==> docs[d] == old(docs)[d];
      assert docs[|docs| - 1].locale == locale;
    }

    /** One token of a run of text under a class. */
    method Post(field: string, term: string)
      requires Valid() && docs != []
      modifies this
      ensures Valid()
      ensures log == old(log)[old(current) := old(log)[old(current)] + [Entry(field, term)]]
      ensures docs == old(docs)[old(current) := old(docs)[old(current)].(tokens := old(docs)[old(current)].tokens + 1)]
      ensures SameDocs(old(docs), docs)
      ensures current == old(current) && locales == old(locales)
    {
      hide Match, Scan, Stream;
      ghost var e := Entry(field, term);
      ghost var was := log;
      PostedMatches(postings, log, current, e);
      forall c: string
        ensures |Stream(log[current] + [e], c)| == |Stream(log[current], c)| + (if c == field then 1 else 0)
      {
        StreamAdd(log[current], e, c);
      }
      var pos := PositionOf(field);
      position := position[field := pos + 1];
      docs := docs[current := docs[current].(tokens := docs[current].tokens + 1)];
      postings := Posted(postings, term, OccKey(current, field), pos);
      hide Posted;
      log := log[current := log[current] + [e]];
      assert forall d :: 0 <= d < |docs| ==> docs[d].locale == old(docs)[d].locale;
    }

    /** add: the tokens of one run of text, in their order, under a class of the current document. */
    method Add(a: Alphabet, field: string, text: string)
      requires Valid() && (text != "" ==> docs != [])
      modifies this
      ensures Valid()
      ensures text == "" ==> log == old(log) && docs == old(docs)
      ensures text != "" ==> log == old(log)[old(current) := old(log)[old(current)] + Tagged(field, Terms(a, text))]
      ensures |docs| == |old(docs)| && current == old(current) && locales == old(locales)
      ensures SameDocs(old(docs), docs)
    {
      hide Match, Terms, Stream, Tagged, SameDocs;
      SameDocsStay(docs);
      if text == "" {
        return;
      }
      var terms := Tokenize(a, text);
      var i := 0;
      ghost var before := log[current];
      TaggedNone(before, field);
      assert log[current := before] == log;
      while i < |terms|
        invariant i <= |terms| && Valid()
        invariant |docs| == |old(docs)| && current == old(current) && locales == old(locales)
        invariant SameDocs(old(docs), docs)
        invariant log == old(log)[current := before + Tagged(field, terms[..i])]
      {
        TaggedNext(before, field, terms, i);
        ghost var was := docs;
        Post(field, terms[i]);
        SameDocsOn(old(docs), was, docs);
        i := i + 1;
      }
      assert terms[..|terms|] == terms;
    }

    /** emit: the locales, the documents with their token counts, and the index of the documents. */
    method Emit() returns (localesOut: seq<string>, docsOut: seq<IndexDoc>, out: seq<Posting>)
      requires Valid()
      ensures Ascending(localesOut, Before)
      ensures forall l :: l in localesOut <==> exists d :: 0 <= d < |docs| && docs[d].locale == l
      ensures docsOut == docs
      ensures forall d :: 0 <= d < |docsOut| ==> docsOut[d].tokens == |log[d]| == CountsIn(out, d)
      ensures IndexOf(out, log)
    {
      BeforeOrders();
      hide Ascending, Orders, Before, Lookup, Scanned, Match;
      localesOut := Sorted(locales, Before);
      docsOut := docs;
      var terms := Sorted(postings.Keys, Before);
      out := [];
      var i := 0;
      while i < |terms|
        invariant i <= |terms| == |terms|
        invariant |out| == i
        invariant forall k :: 0 <= k < i ==> out[k].term == terms[k] && PostingOf(out[k], log)
      {
        assert terms[i] in terms;
        var occs := EmitTerm(terms[i]);
        out := out + [Posting(terms[i], occs)];
        i := i + 1;
      }
      assert TermsIn(out) == terms;
      KeysMatch(postings, log);
      forall d | 0 <= d < |docsOut|
        ensures CountsIn(out, d) == |log[d]|
      {
        CountsAreTokens(out, log, d);
      }
    }

    method EmitTerm(term: string) returns (occs: seq<Emitted>)
      requires Valid() && term in postings
      ensures PostingOf(Posting(term, occs), log)
    {
      KeyBeforeOrders();
      hide Ascending, Orders, KeyBefore, Scanned, Match, InOrder;
      KeysOfTerm(postings, log, term);
      var keys := Sorted(postings[term].Keys, KeyBefore);
      occs := [];
      var i := 0;
      while i < |keys|
        invariant i <= |keys| && |occs| == i
        invariant forall k :: 0 <= k < i ==>
          OccKey(occs[k].doc, occs[k].field) == keys[k]
          && Scanned(log, term, keys[k]) == Some(Occurrence(occs[k].count, occs[k].positions))
      {
        var k := keys[i];
        assert k in keys;
        var occ := postings[term][k];
        ScannedInOrder(log, term, k);
        occs := occs + [Emitted(k.doc, k.field, occ.count, InOrder(occ.positions))];
        i := i + 1;
      }
      assert KeysIn(occs) == keys;
    }
  }

  lemma KeysOfTerm(postings: Postings, docs: seq<seq<Entry>>, term: string)
    requires Match(postings, docs) && term in postings
    ensures forall k :: k in postings[term] <==> Occurs(docs, term, k)
    ensures forall k :: k in postings[term] ==> Scanned(docs, term, k) == Some(postings[term][k])
    ensures postings[term] != map[]
  {
    hide Scanned;
    forall k: OccKey
      ensures k in postings[term] <==> Occurs(docs, term, k)
      ensures k in postings[term] ==> Scanned(docs, term, k) == Some(postings[term][k])
    {
      assert Lookup(postings, term, k) == Scanned(docs, term, k);
    }
  }

  lemma KeysMatch(postings: Postings, docs: seq<seq<Entry>>)
    requires Match(postings, docs)
    ensures forall t: string, k: OccKey :: Occurs(docs, t, k) ==> t in postings
  {
    hide Scanned;
    forall t: string, k: OccKey | Occurs(docs, t, k)
      ensures t in postings
    {
      assert Lookup(postings, t, k) == Scanned(docs, t, k);
    }
  }
}
