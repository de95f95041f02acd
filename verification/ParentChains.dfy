/** The navigation tree of a doc pack: parents within a locale (docpack/validate.go:85-90,210-263). */
module ParentChains {
  import opened Chains

  datatype Topic = Topic(key: string, locale: string, parent: string)

  datatype Problem =
    | NotAKey(at: nat)
    | ItsOwnParent(at: nat)
    | NoSuchTopic(at: nat)
    | ParentCycles(at: nat, through: string)

  /** Identity is key and locale. */
  ghost predicate DistinctRefs(topics: seq<Topic>)
  {
    forall i, j :: 0 <= i < j < |topics| ==> topics[i].key != topics[j].key || topics[i].locale != topics[j].locale
  }

  predicate HasTopic(topics: seq<Topic>, key: string, locale: string)
  {
    exists i :: 0 <= i < |topics| && topics[i].key == key && topics[i].locale == locale
  }

  /** The parents of a locale's topics that have one. */
  function ParentsIn(topics: seq<Topic>, locale: string): Next
  {
    if topics == [] then map[]
    else
      var t, rest := topics[0], ParentsIn(topics[1..], locale);
      if t.locale == locale && t.parent != "" then rest[t.key := t.parent] else rest
  }

  lemma {:induction false} ParentsAre(topics: seq<Topic>, locale: string)
    requires DistinctRefs(topics)
    ensures forall i :: 0 <= i < |topics| && topics[i].locale == locale ==>
              var t := topics[i];
              (t.key in ParentsIn(topics, locale) <==> t.parent != "")
              && (t.parent != "" ==> ParentsIn(topics, locale)[t.key] == t.parent)
    ensures forall key :: key in ParentsIn(topics, locale) ==> HasTopic(topics, key, locale)
  {
    if topics != [] {
      ParentsAre(topics[1..], locale);
      var rest := ParentsIn(topics[1..], locale);
      forall key | key in rest
        ensures HasTopic(topics, key, locale)
      {
        var i :| 0 <= i < |topics[1..]| && topics[1..][i].key == key && topics[1..][i].locale == locale;
        assert topics[i + 1].key == key;
      }
      assert forall i :: 0 < i < |topics| ==> topics[i] == topics[1..][i - 1];
    }
  }

  /** What one topic's parent must be. */
  ghost predicate ParentSound(topics: seq<Topic>, t: Topic, isKey: string -> bool)
  {
    t.parent != "" ==> isKey(t.parent) && t.parent != t.key && HasTopic(topics, t.parent, t.locale)
  }

  ghost predicate AllSound(topics: seq<Topic>, isKey: string -> bool)
  {
    && (forall i :: 0 <= i < |topics| ==> ParentSound(topics, topics[i], isKey))
    && forall i :: 0 <= i < |topics| ==> !Loops(ParentsIn(topics, topics[i].locale), topics[i].key)
  }

  /** topics in a forest: each one's ancestors are topics of its locale, and depth falls to a root. */
  ghost predicate Forest(topics: seq<Topic>, depth: (string, string) -> nat)
  {
    forall i :: 0 <= i < |topics| && topics[i].parent != "" ==>
      var t := topics[i];
      HasTopic(topics, t.parent, t.locale) && depth(t.parent, t.locale) < depth(t.key, t.locale)
  }

  lemma LocaleSettled(topics: seq<Topic>, isKey: string -> bool, locale: string)
    requires DistinctRefs(topics) && AllSound(topics, isKey)
    ensures Settled(ParentsIn(topics, locale))
  {
    var next := ParentsIn(topics, locale);
    ParentsAre(topics, locale);
    hide Follow, Loops, ParentsIn;
    forall key | key in next
      ensures Follow(next, key).Ends?
    {
      var i :| 0 <= i < |topics| && topics[i].key == key && topics[i].locale == locale;
      CyclesIffLoops(next, key);
    }
  }

  /** The accepted topics form a finite forest per locale: depth falls from each topic to its parent. */
  lemma SoundIsForest(topics: seq<Topic>, isKey: string -> bool) returns (depth: (string, string) -> nat)
    requires DistinctRefs(topics) && AllSound(topics, isKey)
    ensures Forest(topics, depth)
  {
    forall locale: string
      ensures Settled(ParentsIn(topics, locale))
    {
      LocaleSettled(topics, isKey, locale);
    }
    depth := (key: string, locale: string) => Rank(ParentsIn(topics, locale), key);
    forall i | 0 <= i < |topics| && topics[i].parent != ""
      ensures depth(topics[i].parent, topics[i].locale) < depth(topics[i].key, topics[i].locale)
    {
      ParentsAre(topics, topics[i].locale);
      RankFalls(ParentsIn(topics, topics[i].locale), topics[i].key);
    }
  }

  lemma ForestSettled(topics: seq<Topic>, depth: (string, string) -> nat, locale: string)
    requires DistinctRefs(topics) && Forest(topics, depth)
    ensures Settled(ParentsIn(topics, locale))
  {
    var next := ParentsIn(topics, locale);
    ParentsAre(topics, locale);
    hide ParentsIn, Follow;
    var rank: string -> nat := key => depth(key, locale);
    forall key | key in next
      ensures rank(next[key]) < rank(key)
    {
      var j :| 0 <= j < |topics| && topics[j].key == key && topics[j].locale == locale;
    }
    assert FallsAlong(next, rank);
    SettledIffRanked(next);
  }

  /** And no more is asked of them: a forest of sound parents is accepted. */
  lemma ForestIsSound(topics: seq<Topic>, isKey: string -> bool, depth: (string, string) -> nat)
    requires DistinctRefs(topics) && Forest(topics, depth)
    requires forall i :: 0 <= i < |topics| && topics[i].parent != "" ==> isKey(topics[i].parent)
    ensures AllSound(topics, isKey)
  {
    hide ParentsIn, Follow, Loops, Settled;
    forall i | 0 <= i < |topics|
      ensures !Loops(ParentsIn(topics, topics[i].locale), topics[i].key)
    {
      ForestSettled(topics, depth, topics[i].locale);
      EndsAnywhere(ParentsIn(topics, topics[i].locale), topics[i].key);
      CyclesIffLoops(ParentsIn(topics, topics[i].locale), topics[i].key);
    }
  }

  /** Every topic hangs, through topics of its own locale, under a topic without a parent. */
  lemma RootReached(topics: seq<Topic>, isKey: string -> bool, i: nat)
    requires DistinctRefs(topics) && AllSound(topics, isKey) && i < |topics|
    ensures var r := Follow(ParentsIn(topics, topics[i].locale), topics[i].key);
            && r.Ends? && Distinct(r.chain)
            && (forall k :: 0 <= k < |r.chain| ==> HasTopic(topics, r.chain[k], topics[i].locale))
            && exists j :: 0 <= j < |topics| && topics[j] == Topic(r.terminus, topics[i].locale, "")
  {
    var locale := topics[i].locale;
    var next := ParentsIn(topics, locale);
    ParentsAre(topics, locale);
    LocaleSettled(topics, isKey, locale);
    EndsAnywhere(next, topics[i].key);
    FollowIsRight(next, topics[i].key);
    var r := Follow(next, topics[i].key);
    hide Follow, ParentsIn, Loops;
    forall k | 0 <= k < |r.chain|
      ensures HasTopic(topics, r.chain[k], locale)
    {
      ChainHasTopics(topics, isKey, locale, r.chain, k);
    }
    assert HasTopic(topics, r.chain[|r.chain| - 1], locale);
    var j :| 0 <= j < |topics| && topics[j].key == r.terminus && topics[j].locale == locale;
    assert topics[j] == Topic(r.terminus, locale, "");
  }

  lemma {:induction false} ChainHasTopics(topics: seq<Topic>, isKey: string -> bool, locale: string, p: seq<string>,
                                          k: nat)
    requires DistinctRefs(topics) && AllSound(topics, isKey)
    requires Path(ParentsIn(topics, locale), p) && k < |p| && HasTopic(topics, p[0], locale)
    ensures HasTopic(topics, p[k], locale)
  {
    hide Loops, ParentsIn;
    if k > 0 {
      ChainHasTopics(topics, isKey, locale, p, k - 1);
      ParentsAre(topics, locale);
      var j :| 0 <= j < |topics| && topics[j].key == p[k - 1] && topics[j].locale == locale;
      assert ParentSound(topics, topics[j], isKey);
    }
  }

  /** What is reported of topic k: the first thing wrong with its parent, and a cycle it leads into. */
  ghost predicate Complaint(topics: seq<Topic>, isKey: string -> bool, k: nat, p: Problem)
    requires k < |topics|
  {
    var t := topics[k];
    match p
    case NotAKey(at) => at == k && t.parent != "" && !isKey(t.parent)
    case ItsOwnParent(at) => at == k && t.parent != "" && isKey(t.parent) && t.parent == t.key
    case NoSuchTopic(at) =>
      at == k && t.parent != "" && isKey(t.parent) && t.parent != t.key && !HasTopic(topics, t.parent, t.locale)
    case ParentCycles(at, through) => at == k && Follow(ParentsIn(topics, t.locale), t.key) == Cycles(through)
  }

  lemma NoneIffSound(topics: seq<Topic>, isKey: string -> bool, k: nat)
    requires k < |topics|
    ensures (forall p :: !Complaint(topics, isKey, k, p)) <==>
              ParentSound(topics, topics[k], isKey) && !Loops(ParentsIn(topics, topics[k].locale), topics[k].key)
  {
    var t := topics[k];
    CyclesIffLoops(ParentsIn(topics, t.locale), t.key);
    hide Follow, ParentsIn, Loops;
    var r := Follow(ParentsIn(topics, t.locale), t.key);
    if r.Cycles? {
      assert Complaint(topics, isKey, k, ParentCycles(k, r.through));
    }
    if !ParentSound(topics, t, isKey) {
      var p := if !isKey(t.parent) then NotAKey(k) else if t.parent == t.key then ItsOwnParent(k) else NoSuchTopic(k);
      assert Complaint(topics, isKey, k, p);
    }
  }

  /** One topic. */
  method ValidateParent(topics: seq<Topic>, isKey: string -> bool, at: nat) returns (found: seq<Problem>)
    requires at < |topics|
    ensures forall p :: p in found <==> Complaint(topics, isKey, at, p)
  {
    hide Follow, ParentsIn;
    var t := topics[at];
    found := [];
    if t.parent != "" {
      if !isKey(t.parent) {
        found := found + [NotAKey(at)];
      } else if t.parent == t.key {
        found := found + [ItsOwnParent(at)];
      } else if !HasTopic(topics, t.parent, t.locale) {
        found := found + [NoSuchTopic(at)];
      }
    }
    var r := Walk(ParentsIn(topics, t.locale), t.key);
    if r.Cycles? {
      found := found + [ParentCycles(at, r.through)];
    }
  }

  /** validateMeta's and validateCrossTopic's parent rules, over all topics in their order. */
  method ValidateParents(topics: seq<Topic>, isKey: string -> bool) returns (problems: seq<Problem>)
    requires DistinctRefs(topics)
    ensures problems == [] <==> AllSound(topics, isKey)
    ensures forall p :: p in problems <==> exists k :: 0 <= k < |topics| && Complaint(topics, isKey, k, p)
  {
    hide Complaint, ParentSound, Loops;
    problems := [];
    var i := 0;
    while i < |topics|
      invariant i <= |topics|
      invariant problems == [] <==> forall j :: 0 <= j < i ==>
                  ParentSound(topics, topics[j], isKey) && !Loops(ParentsIn(topics, topics[j].locale), topics[j].key)
      invariant forall p :: p in problems <==> exists k :: 0 <= k < i && Complaint(topics, isKey, k, p)
    {
      NoneIffSound(topics, isKey, i);
      var found := ValidateParent(topics, isKey, i);
      NoneIn(found);
      problems := problems + found;
      i := i + 1;
    }
  }

  lemma NoneIn(found: seq<Problem>)
    ensures found == [] <==> forall p :: p !in found
  {
    if found != [] {
      assert found[0] in found;
    }
  }
}
