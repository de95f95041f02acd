/** Audience tiers and the check that makes filtering by them reference-closed
  * (internal/openapi/audience.go:20-187, internal/openapi/generate.go:65-83, docpack/compile.go:552-572). */
module Audience {
  import opened Options
  import opened ApiModel
  import opened SchemaBuilder
  import opened Lexical

  const PUBLIC_RANK := 1

  datatype Tier = Unset | Unspecified | Public | Community | Partner | Enterprise | Internal | Unknown

  /** docpack.AudienceRank. */
  function AudienceRank(t: Tier): Option<int>
  {
    match t
    case Unset | Unspecified | Public => Some(1)
    case Community => Some(2)
    case Partner => Some(3)
    case Enterprise => Some(4)
    case Internal => Some(5)
    case Unknown => None
  }

  datatype Rule = Rule(glob: string, rank: int)

  /** A doc-pack topic's tier against an element it anchors. */
  datatype Topic = Topic(fqn: string, key: string, tier: Tier)

  datatype Edge = Edge(from: string, to: string)

  predicate HasSuffix(s: string, t: string)
  {
    |t| <= |s| && s[|s| - |t|..] == t
  }

  predicate HasPrefix(s: string, t: string)
  {
    |t| <= |s| && s[..|t|] == t
  }

  /** path.Match stands as matches: a glob against a dotted name. */
  predicate GlobMatch(glob: string, fqn: string, matches: (string, string) -> bool)
  {
    || matches(glob, fqn)
    || (HasSuffix(glob, ".*") && var prefix := glob[..|glob| - 2]; fqn == prefix || HasPrefix(fqn, prefix + "."))
  }

  function RuleRank(rules: seq<Rule>, fqn: string, matches: (string, string) -> bool): int
  {
    if rules == [] then PUBLIC_RANK
    else if GlobMatch(rules[0].glob, fqn, matches) then rules[0].rank
    else RuleRank(rules[1..], fqn, matches)
  }

  /** The first matching rule or public, restricted further by the topics anchored to it. */
  function Rank(rules: seq<Rule>, tiers: map<string, int>, fqn: string, matches: (string, string) -> bool): int
  {
    var rank := RuleRank(rules, fqn, matches);
    if fqn in tiers && tiers[fqn] > rank then tiers[fqn] else rank
  }

  // ---- What a tier is ----

  /** The tiers from the least restricted to the most. */
  const TIERS := [Public, Community, Partner, Enterprise, Internal]

  /** A tier's rank is its place among the tiers, counted from 1; no tier at all is public, and a name that is no
    * tier has none. */
  lemma RankIsPlace(t: Tier, i: nat)
    requires i < |TIERS|
    ensures AudienceRank(t) == Some(i + 1) <==> t == TIERS[i] || (i == 0 && (t == Unset || t == Unspecified))
    ensures AudienceRank(t).None? <==> t == Unknown
  {
  }

  /** A glob takes a name: path.Match does, or the glob is a name with .* after it, and the name is that name or
    * one below it. */
  ghost predicate Takes(glob: string, fqn: string, matches: (string, string) -> bool)
  {
    || matches(glob, fqn)
    || exists prefix: string :: glob == prefix + ".*" && IsWithin(fqn, prefix)
  }

  ghost predicate IsWithin(fqn: string, prefix: string)
  {
    fqn == prefix || exists below: string :: fqn == prefix + "." + below
  }

  lemma GlobTakes(glob: string, fqn: string, matches: (string, string) -> bool)
    ensures GlobMatch(glob, fqn, matches) <==> Takes(glob, fqn, matches)
  {
    if HasSuffix(glob, ".*") {
      var prefix := glob[..|glob| - 2];
      assert glob == prefix + ".*";
      WithinIs(fqn, prefix);
      assert forall p: string :: glob == p + ".*" ==> p == prefix by {
        forall p: string | glob == p + ".*"
          ensures p == prefix
        {
          assert (p + ".*")[..|p|] == p;
        }
      }
    } else {
      assert forall p: string :: (p + ".*")[|p + ".*"| - 2..] == ".*";
    }
  }

  lemma WithinIs(fqn: string, prefix: string)
    ensures IsWithin(fqn, prefix) <==> fqn == prefix || HasPrefix(fqn, prefix + ".")
  {
    if HasPrefix(fqn, prefix + ".") {
      assert fqn == prefix + "." + fqn[|prefix + "."|..];
    }
    assert forall below: string :: (prefix + "." + below)[..|prefix + "."|] == prefix + ".";
  }

  /** The rank that the rules give a name: that of the first rule that takes it, and 1 when none does. */
  ghost predicate Ruled(rules: seq<Rule>, fqn: string, matches: (string, string) -> bool, rank: int)
  {
    || (rank == 1 && forall i :: 0 <= i < |rules| ==> !Takes(rules[i].glob, fqn, matches))
    || exists i ::
         && 0 <= i < |rules| && Takes(rules[i].glob, fqn, matches) && rank == rules[i].rank
         && forall j :: 0 <= j < i ==> !Takes(rules[j].glob, fqn, matches)
  }

  lemma {:induction false} RuleRankIs(rules: seq<Rule>, fqn: string, matches: (string, string) -> bool)
    ensures Ruled(rules, fqn, matches, RuleRank(rules, fqn, matches))
  {
    hide Takes, GlobMatch;
    if rules != [] {
      GlobTakes(rules[0].glob, fqn, matches);
      RuleRankIs(rules[1..], fqn, matches);
      RuledLater(rules, fqn, matches, RuleRank(rules[1..], fqn, matches));
    }
  }

  /** A first rule that takes nothing changes no rank. */
  lemma RuledLater(rules: seq<Rule>, fqn: string, matches: (string, string) -> bool, rank: int)
    requires rules != [] && Ruled(rules[1..], fqn, matches, rank)
    ensures !Takes(rules[0].glob, fqn, matches) ==> Ruled(rules, fqn, matches, rank)
  {
    hide Takes;
    var rest := rules[1..];
    if !Takes(rules[0].glob, fqn, matches) {
      assert forall i :: 0 < i < |rules| ==> rules[i] == rest[i - 1];
      if i :| && 0 <= i < |rest| && Takes(rest[i].glob, fqn, matches) && rank == rest[i].rank
              && forall j :: 0 <= j < i ==> !Takes(rest[j].glob, fqn, matches) {
        assert Takes(rules[i + 1].glob, fqn, matches) && rank == rules[i + 1].rank;
      }
    }
  }

  lemma RuledOnce(rules: seq<Rule>, fqn: string, matches: (string, string) -> bool, r: int, s: int)
    requires Ruled(rules, fqn, matches, r) && Ruled(rules, fqn, matches, s)
    ensures r == s
  {
    hide Takes;
  }

  /** The tier of a name: the rank its rules give, or the tier recorded for it when that is greater. */
  ghost predicate TierIn(rules: seq<Rule>, tiers: map<string, int>, matches: (string, string) -> bool, fqn: string,
                         rank: int)
  {
    exists base :: Ruled(rules, fqn, matches, base) && base <= rank
                   && (fqn in tiers ==> tiers[fqn] <= rank) && (rank == base || (fqn in tiers && rank == tiers[fqn]))
  }

  /** The tier of a name: the greatest of the rank its rules give and the ranks its topics do. */
  ghost predicate TierIs(rules: seq<Rule>, topics: seq<Topic>, matches: (string, string) -> bool, fqn: string,
                         rank: int)
  {
    exists base :: Ruled(rules, fqn, matches, base) && base <= rank
                   && (forall given :: Gives(topics, fqn, given) ==> given <= rank)
                   && (rank == base || Gives(topics, fqn, rank))
  }

  lemma RankIsTierIn(rules: seq<Rule>, tiers: map<string, int>, fqn: string, matches: (string, string) -> bool)
    ensures TierIn(rules, tiers, matches, fqn, Rank(rules, tiers, fqn, matches))
  {
    hide Ruled;
    RuleRankIs(rules, fqn, matches);
  }

  /** The rank computed from rules and topics is the tier, and there is no other. */
  lemma RankIsTier(rules: seq<Rule>, topics: seq<Topic>, fqn: string, matches: (string, string) -> bool, rank: int)
    ensures TierIs(rules, topics, matches, fqn, rank) <==>
              rank == Rank(rules, Contributed(map[], topics), fqn, matches)
  {
    hide Ruled, Contributed, Gives;
    RuleRankIs(rules, fqn, matches);
    MostRestrictive(topics, fqn);
    forall base | Ruled(rules, fqn, matches, base)
      ensures base == RuleRank(rules, fqn, matches)
    {
      RuledOnce(rules, fqn, matches, base, RuleRank(rules, fqn, matches));
    }
  }

  /** The tiers after the topics of a pack. */
  function Contributed(tiers: map<string, int>, topics: seq<Topic>): map<string, int>
    decreases topics
  {
    if topics == [] then tiers else Contributed(With(tiers, topics[0]), topics[1..])
  }

  function With(tiers: map<string, int>, t: Topic): map<string, int>
  {
    match AudienceRank(t.tier)
    case None => tiers
    case Some(rank) => if t.fqn in tiers && rank <= tiers[t.fqn] then tiers else tiers[t.fqn := rank]
  }

  /** Some topic gives the element this rank. */
  ghost predicate Gives(topics: seq<Topic>, fqn: string, rank: int)
  {
    exists i :: 0 <= i < |topics| && topics[i].fqn == fqn && AudienceRank(topics[i].tier) == Some(rank)
  }

  /** A pack contributes to an element its most restrictive topic, in whatever order the topics come. */
  lemma {:induction false} MostRestrictive(topics: seq<Topic>, fqn: string)
    ensures var tiers := Contributed(map[], topics);
            && (fqn in tiers <==> exists rank :: Gives(topics, fqn, rank))
            && (fqn in tiers ==> Gives(topics, fqn, tiers[fqn]))
            && forall rank :: Gives(topics, fqn, rank) ==> fqn in tiers && rank <= tiers[fqn]
  {
    var n := |topics|;
    if n > 0 {
      MostRestrictive(topics[..n - 1], fqn);
      ContributedLast(map[], topics);
      forall rank: int
        ensures Gives(topics, fqn, rank) <==>
                  Gives(topics[..n - 1], fqn, rank)
                      || (topics[n - 1].fqn == fqn && AudienceRank(topics[n - 1].tier) == Some(rank))
      {
        GivesLast(topics, fqn, rank);
      }
      hide Contributed, Gives, AudienceRank;
    }
  }

  lemma GivesLast(topics: seq<Topic>, fqn: string, rank: int)
    requires |topics| > 0
    ensures Gives(topics, fqn, rank) <==>
              Gives(topics[..|topics| - 1], fqn, rank)
              || (topics[|topics| - 1].fqn == fqn && AudienceRank(topics[|topics| - 1].tier) == Some(rank))
  {
    hide AudienceRank;
    var before := topics[..|topics| - 1];
    assert forall i :: 0 <= i < |before| ==> before[i] == topics[i];
  }

  lemma {:induction false} ContributedLast(tiers: map<string, int>, topics: seq<Topic>)
    requires |topics| > 0
    ensures Contributed(tiers, topics) == With(Contributed(tiers, topics[..|topics| - 1]), topics[|topics| - 1])
    decreases topics
  {
    hide With;
    if |topics| > 1 {
      ContributedLast(With(tiers, topics[0]), topics[1..]);
      assert topics[1..][..|topics| - 2] == topics[..|topics| - 1][1..];
    } else {
      assert topics[..0] == [] && topics[1..] == [];
    }
  }

  // ---- The references that are checked ----

  /** A field's type name; a scalar has none. */
  function TypeName(kind: Kind): string
  {
    match kind
    case ScalarKind(_) => ""
    case MessageKind(fqn) => fqn
    case EnumKind(fqn) => fqn
    case GroupKind(fqn) => fqn
  }

  /** What a field refers to: the values of a map, or the field's type and the aliases of its chain. */
  function FieldTargets(m: Model, f: Field): seq<string>
  {
    var tn := TypeName(f.kind);
    if tn != "" && tn in m.messages && m.messages[tn].isEntry then
      var vt := TypeName(m.messages[tn].mapValue);
      if vt != "" then [vt] else []
    else (if tn != "" then [tn] else []) + f.chain
  }

  function FieldsTargets(m: Model, fs: seq<Field>): seq<string>
  {
    if fs == [] then [] else FieldsTargets(m, fs[..|fs| - 1]) + FieldTargets(m, fs[|fs| - 1])
  }

  function MethodTargets(mth: Method): seq<string>
  {
    [mth.input] + (if mth.output != "google.protobuf.Empty" then [mth.output] else [])
  }

  /** x is the name of a message, enum or group type. */
  ghost predicate Names(kind: Kind, x: string)
  {
    x != "" && (kind == MessageKind(x) || kind == EnumKind(x) || kind == GroupKind(x))
  }

  /** A field leads to the type of its values when it is a map, and else to its type and all aliases of its chain. */
  ghost predicate LeadsTo(m: Model, f: Field, x: string)
  {
    if exists y :: y in m.messages && m.messages[y].isEntry && Names(f.kind, y) then
      exists y :: y in m.messages && m.messages[y].isEntry && Names(f.kind, y) && Names(m.messages[y].mapValue, x)
    else Names(f.kind, x) || x in f.chain
  }

  lemma FieldTargetsAre(m: Model, f: Field, x: string)
    ensures x in FieldTargets(m, f) <==> LeadsTo(m, f, x)
  {
    var tn := TypeName(f.kind);
    assert forall y :: Names(f.kind, y) <==> y != "" && y == tn;
    if tn != "" && tn in m.messages && m.messages[tn].isEntry {
      assert forall y :: Names(m.messages[tn].mapValue, y) <==> y != "" && y == TypeName(m.messages[tn].mapValue);
    }
  }

  lemma {:induction false} FieldsTargetsAre(m: Model, fs: seq<Field>, x: string)
    ensures x in FieldsTargets(m, fs) <==> exists f :: f in fs && LeadsTo(m, f, x)
  {
    hide FieldTargets, LeadsTo;
    if fs != [] {
      var before, last := fs[..|fs| - 1], fs[|fs| - 1];
      assert fs == before + [last];
      FieldsTargetsAre(m, before, x);
      FieldTargetsAre(m, last, x);
    }
  }

  ghost predicate MessageEdge(m: Model, e: Edge)
  {
    && e.from in m.messages && !m.messages[e.from].generated && !m.messages[e.from].isEntry
    && exists f :: f in m.messages[e.from].fields && LeadsTo(m, f, e.to)
  }

  ghost predicate FromMessage(m: Model, e: Edge)
  {
    && e.from in m.messages && !m.messages[e.from].generated && !m.messages[e.from].isEntry
    && e.to in FieldsTargets(m, m.messages[e.from].fields)
  }

  lemma FromMessageIs(m: Model, e: Edge)
    ensures FromMessage(m, e) <==> MessageEdge(m, e)
  {
    hide FieldsTargets, LeadsTo;
    if e.from in m.messages {
      FieldsTargetsAre(m, m.messages[e.from].fields, e.to);
    }
  }

  ghost predicate AliasEdge(m: Model, e: Edge)
  {
    e.from in m.aliases && !m.aliases[e.from].generated && !IsPrimitive(m.aliases[e.from].base)
        && e.to == m.aliases[e.from].base
  }

  ghost predicate MethodEdge(m: Model, e: Edge)
  {
    exists s, k :: 0 <= s < |m.services| && 0 <= k < |m.services[s].methods| && !m.services[s].generated
      && e.from == m.services[s].fqn + "." + m.services[s].methods[k].name
      && (e.to == m.services[s].methods[k].input
          || (e.to == m.services[s].methods[k].output && e.to != "google.protobuf.Empty"))
  }

  function MethodName(svc: Service, mth: Method): string
  {
    svc.fqn + "." + mth.name
  }

  /** The references checkTransitive looks at. */
  ghost predicate IsEdge(m: Model, e: Edge)
  {
    !InGoogle(e.to) && (MessageEdge(m, e) || AliasEdge(m, e) || MethodEdge(m, e))
  }

  predicate EdgeBefore(a: Edge, b: Edge)
  {
    Before(a.from, b.from) || (a.from == b.from && Before(a.to, b.to))
  }

  lemma EdgeBeforeOrders()
    ensures Orders(EdgeBefore)
  {
    BeforeOrders();
    hide Before;
  }

  class Index {
    const rules: seq<Rule>
    const matches: (string, string) -> bool
    var packTiers: map<string, int>
    var packKeys: map<string, string>

    constructor (rules: seq<Rule>, matches: (string, string) -> bool)
      ensures this.rules == rules && this.matches == matches && packTiers == map[] && packKeys == map[]
    {
      this.rules := rules;
      this.matches := matches;
      packTiers, packKeys := map[], map[];
    }

    function RankOf(fqn: string): (rank: int)
      reads this
      ensures TierIn(rules, packTiers, matches, fqn, rank)
    {
      RankIsTierIn(rules, packTiers, fqn, matches);
      Rank(rules, packTiers, fqn, matches)
    }

    /** contribute. */
    method Contribute(fqn: string, topicKey: string, tier: Tier)
      modifies this
      ensures packTiers == With(old(packTiers), Topic(fqn, topicKey, tier))
      ensures packKeys == if packTiers == old(packTiers) then old(packKeys) else old(packKeys)[fqn := topicKey]
    {
      var rank := AudienceRank(tier);
      if rank.None? {
        return;
      }
      if fqn !in packTiers || rank.value > packTiers[fqn] {
        packTiers := packTiers[fqn := rank.value];
        packKeys := packKeys[fqn := topicKey];
      }
    }

    /** The contributions of a pack, topic by topic. */
    method ContributeAll(topics: seq<Topic>)
      modifies this
      ensures packTiers == Contributed(old(packTiers), topics)
    {
      hide With;
      var i := 0;
      assert topics[0..] == topics;
      while i < |topics|
        invariant i <= |topics|
        invariant Contributed(packTiers, topics[i..]) == Contributed(old(packTiers), topics)
      {
        assert topics[i..][1..] == topics[i + 1..];
        Contribute(topics[i].fqn, topics[i].key, topics[i].tier);
        i := i + 1;
      }
    }

    /** checkTransitive: the first reference, in order, to a more restricted element. */
    method CheckTransitive(m: Model) returns (bad: Option<Edge>)
      ensures bad.None? <==> forall e :: IsEdge(m, e) ==> RankOf(e.to) <= RankOf(e.from)
      ensures bad.Some? ==> IsEdge(m, bad.value) && RankOf(bad.value.to) > RankOf(bad.value.from)
      ensures bad.Some? ==> forall e :: IsEdge(m, e) && RankOf(e.to) > RankOf(e.from) ==>
        e == bad.value || Before(bad.value.from, e.from) || (bad.value.from == e.from && Before(bad.value.to, e.to))
    {
      var edges := CollectEdges(m);
      EdgeBeforeOrders();
      hide IsEdge, EdgeBefore, Orders, RankOf, Before;
      var sorted := Sorted(edges, EdgeBefore);
      var i := 0;
      while i < |sorted|
        invariant i <= |sorted|
        invariant forall k :: 0 <= k < i ==> RankOf(sorted[k].to) <= RankOf(sorted[k].from)
      {
        var e := sorted[i];
        assert e in sorted;
        if RankOf(e.to) > RankOf(e.from) {
          FirstBad(sorted, i);
          return Some(e);
        }
        i := i + 1;
      }
      bad := None;
    }
  }

  /** In an ascending sequence, what does not stand before a member is the member or comes after it. */
  lemma FirstBad(sorted: seq<Edge>, i: nat)
    requires Ascending(sorted, EdgeBefore) && i < |sorted|
    ensures forall e :: e in sorted ==>
              || (exists k :: 0 <= k < i && sorted[k] == e)
              || e == sorted[i]
              || Before(sorted[i].from, e.from) || (sorted[i].from == e.from && Before(sorted[i].to, e.to))
  {
    hide Before;
    forall e | e in sorted && (forall k :: 0 <= k < i ==> sorted[k] != e) && e != sorted[i]
      ensures EdgeBefore(sorted[i], e)
    {
      var k :| 0 <= k < |sorted| && sorted[k] == e;
      assert i < k;
    }
  }

  /** The edges of the model, targets under google.protobuf left out. */
  method CollectEdges(m: Model) returns (edges: set<Edge>)
    ensures forall e :: e in edges <==> IsEdge(m, e)
  {
    hide InGoogle, FieldsTargets, MethodTargets, IsPrimitive, MessageEdge, MethodEdge;
    edges := {};
    var left := m.messages.Keys;
    while left != {}
      invariant left <= m.messages.Keys
      invariant forall e :: e in edges <==> !InGoogle(e.to) && FromMessage(m, e) && e.from !in left
      decreases |left|
    {
      var fqn :| fqn in left;
      left := left - {fqn};
      var mi := m.messages[fqn];
      if !mi.generated && !mi.isEntry {
        edges := edges + EdgesFrom(fqn, FieldsTargets(m, mi.fields));
      }
    }
    left := m.aliases.Keys;
    while left != {}
      invariant left <= m.aliases.Keys
      invariant forall e :: e in edges <==>
        !InGoogle(e.to) && (FromMessage(m, e) || (AliasEdge(m, e) && e.from !in left))
      decreases |left|
    {
      var fqn :| fqn in left;
      left := left - {fqn};
      var a := m.aliases[fqn];
      if !a.generated && !IsPrimitive(a.base) {
        edges := edges + EdgesFrom(fqn, [a.base]);
      }
    }
    var s := 0;
    while s < |m.services|
      invariant s <= |m.services|
      invariant forall e :: e in edges <==>
        !InGoogle(e.to) && (FromMessage(m, e) || AliasEdge(m, e) || MethodEdgeBelow(m, e, s, 0))
    {
      var svc := m.services[s];
      var k := 0;
      while !svc.generated && k < |svc.methods|
        invariant k <= |svc.methods|
        invariant forall e :: e in edges <==>
          !InGoogle(e.to) && (FromMessage(m, e) || AliasEdge(m, e) || MethodEdgeBelow(m, e, s, k))
      {
        edges := edges + EdgesFrom(MethodName(svc, svc.methods[k]), MethodTargets(svc.methods[k]));
        k := k + 1;
      }
      s := s + 1;
    }
    forall e
      ensures FromMessage(m, e) <==> MessageEdge(m, e)
      ensures MethodEdgeBelow(m, e, s, 0) <==> MethodEdge(m, e)
    {
      FromMessageIs(m, e);
      MethodEdgeAll(m, e);
    }
    hide FromMessage, MethodEdgeBelow, AliasEdge;
  }

  /** The method edges of the services before s, and of the first k methods of s. */
  ghost predicate MethodEdgeBelow(m: Model, e: Edge, s: nat, k: nat)
  {
    exists i, j ::
      && 0 <= i < |m.services| && 0 <= j < |m.services[i].methods| && (i < s || (i == s && j < k))
      && !m.services[i].generated
      && e.from == MethodName(m.services[i], m.services[i].methods[j])
      && e.to in MethodTargets(m.services[i].methods[j])
  }

  lemma MethodEdgeAll(m: Model, e: Edge)
    ensures MethodEdgeBelow(m, e, |m.services|, 0) <==> MethodEdge(m, e)
  {
    if MethodEdgeBelow(m, e, |m.services|, 0) {
      var i, j :|
        && 0 <= i < |m.services| && 0 <= j < |m.services[i].methods|
        && !m.services[i].generated
        && e.from == MethodName(m.services[i], m.services[i].methods[j])
        && e.to in MethodTargets(m.services[i].methods[j]);
      var mth := m.services[i].methods[j];
      assert e.to == mth.input || (e.to == mth.output && e.to != "google.protobuf.Empty");
    }
    if MethodEdge(m, e) {
      var s, k :| 0 <= s < |m.services| && 0 <= k < |m.services[s].methods| && !m.services[s].generated
        && e.from == m.services[s].fqn + "." + m.services[s].methods[k].name
        && (e.to == m.services[s].methods[k].input
            || (e.to == m.services[s].methods[k].output && e.to != "google.protobuf.Empty"));
      assert e.to in MethodTargets(m.services[s].methods[k]);
    }
  }

  function EdgesFrom(from: string, targets: seq<string>): (r: set<Edge>)
    ensures forall e :: e in r <==> e.from == from && e.to in targets && !InGoogle(e.to)
  {
    set to | to in targets && !InGoogle(to) :: Edge(from, to)
  }
}
