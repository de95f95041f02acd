/** The redirect table of a doc pack, its anchors and its emitted form
  * (docpack/compile.go:334-458, docpack/pack.go:116-154). */
module Redirects {
  import opened Options
  import opened Chains
  import opened Lexical

  /** An anchor as written: absent, without a sound target, or with its kind and canonical id. */
  datatype Anchor = Absent | Malformed | Target(kind: string, id: string)

  datatype Declared = Declared(file: string, source: Anchor, target: Anchor, since: string, note: string)

  datatype Problem =
    | Unset(at: nat)
    | BadSource(at: nat)
    | BadTarget(at: nat)
    | CrossesKinds(at: nat)
    | PointsAtItself(at: nat)
    | AlreadyDeclared(at: nat, elsewhere: string)
    | ChainCycles(id: string, through: string)
    | Dangling(id: string)
    | BadAnchor

  datatype Redirect = Redirect(to: string, kind: string, since: string, note: string, file: string)

  datatype Resolved = Resolved(kind: string, id: string, chain: seq<string>, since: string)

  datatype Emitted = Emitted(source: string, to: string, chain: seq<string>, since: string, note: string)

  /** A declaration the table can hold. */
  predicate Sound(d: Declared)
  {
    && d.source.Target? && d.target.Target?
    && d.source.kind == d.target.kind
    && d.source.id != d.target.id
  }

  /** The first sound declaration from an id wins. */
  predicate Wins(decls: seq<Declared>, k: nat)
    requires k < |decls|
  {
    Sound(decls[k]) && forall j :: 0 <= j < k && Sound(decls[j]) ==> decls[j].source.id != decls[k].source.id
  }

  function RedirectOf(d: Declared): Redirect
    requires Sound(d)
  {
    Redirect(d.target.id, d.target.kind, d.since, d.note, d.file)
  }

  type Table = map<string, Redirect>

  /** The ids a table sends each of its ids to. */
  function NextOf(table: Table): Next
  {
    map id | id in table :: table[id].to
  }

  /** table holds the winners among the first n declarations and nothing else. */
  ghost predicate Holds(table: Table, decls: seq<Declared>, n: nat)
    requires n <= |decls|
  {
    && (forall id :: id in table ==> exists k :: 0 <= k < n && Wins(decls, k) && decls[k].source.id == id)
    && forall k :: 0 <= k < n && Wins(decls, k) ==>
         decls[k].source.id in table && table[decls[k].source.id] == RedirectOf(decls[k])
  }

  lemma HeldMeansSeen(table: Table, decls: seq<Declared>, n: nat)
    requires n < |decls| && Holds(table, decls, n) && Sound(decls[n])
    ensures decls[n].source.id in table <==> !Wins(decls, n)
  {
    var id := decls[n].source.id;
    if !Wins(decls, n) {
      var j :| 0 <= j < n && Sound(decls[j]) && decls[j].source.id == id;
      FirstWins(decls, j);
    }
  }

  /** Some declaration from the id of a sound one wins. */
  lemma {:induction false} FirstWins(decls: seq<Declared>, j: nat)
    requires j < |decls| && Sound(decls[j])
    ensures exists k :: 0 <= k <= j && Wins(decls, k) && decls[k].source.id == decls[j].source.id
  {
    if !Wins(decls, j) {
      var i :| 0 <= i < j && Sound(decls[i]) && decls[i].source.id == decls[j].source.id;
      FirstWins(decls, i);
    }
  }

  lemma HoldsNext(table: Table, decls: seq<Declared>, n: nat)
    requires n < |decls| && Holds(table, decls, n)
    ensures Wins(decls, n) ==> Holds(table[decls[n].source.id := RedirectOf(decls[n])], decls, n + 1)
    ensures !Wins(decls, n) ==> Holds(table, decls, n + 1)
  {
    if Wins(decls, n) {
      var grown := table[decls[n].source.id := RedirectOf(decls[n])];
      assert forall k :: 0 <= k < n && Wins(decls, k) ==> Sound(decls[k]) && decls[k].source.id != decls[n].source.id;
    }
  }

  /** Every declaration sound, every source declared once, no chain that loops. */
  ghost predicate WellDeclared(decls: seq<Declared>, table: Table)
  {
    && (forall k :: 0 <= k < |decls| ==> Wins(decls, k))
    && forall id :: id in table ==> !Loops(NextOf(table), id)
  }

  /** What is reported of declaration k. */
  ghost predicate Complaint(decls: seq<Declared>, k: nat, p: Problem)
    requires k < |decls|
  {
    var d := decls[k];
    match p
    case Unset(at) => at == k && (d.source.Absent? || d.target.Absent?)
    case BadSource(at) => at == k && d.source.Malformed? && !d.target.Absent?
    case BadTarget(at) => at == k && d.source.Target? && d.target.Malformed?
    case CrossesKinds(at) => at == k && d.source.Target? && d.target.Target? && d.source.kind != d.target.kind
    case PointsAtItself(at) => at == k && d.source.Target? && d.source == d.target
    case AlreadyDeclared(at, elsewhere) =>
      at == k && Sound(d) && !Wins(decls, k) && exists j ::
        0 <= j < k && Wins(decls, j) && decls[j].source.id == d.source.id && decls[j].file == elsewhere
    case _ => false
  }

  /** Exactly the declarations that do not win are complained of, and of each there is one complaint. */
  lemma ComplaintsAre(decls: seq<Declared>, k: nat)
    requires k < |decls|
    ensures Wins(decls, k) <==> forall p :: !Complaint(decls, k, p)
    ensures forall p, q :: Complaint(decls, k, p) && Complaint(decls, k, q) ==> p == q
  {
    var d := decls[k];
    if !Wins(decls, k) {
      if Sound(d) {
        FirstWins(decls, k);
        var j :| 0 <= j <= k && Wins(decls, j) && decls[j].source.id == d.source.id;
        assert Complaint(decls, k, AlreadyDeclared(k, decls[j].file));
      } else {
        var p := if d.source.Absent? || d.target.Absent? then Unset(k)
        else if d.source.Malformed? then BadSource(k)
        else if d.target.Malformed? then BadTarget(k)
        else if d.source.kind != d.target.kind then CrossesKinds(k)
        else PointsAtItself(k);
        assert Complaint(decls, k, p);
      }
    }
    forall i, j | 0 <= i < k && 0 <= j < k && Wins(decls, i) && Wins(decls, j)
                  && decls[i].source.id == decls[j].source.id
      ensures i == j
    {
    }
  }

  /** What the first n declarations are complained of, one by one. */
  ghost predicate Complaints(decls: seq<Declared>, n: nat, problems: seq<Problem>)
    requires n <= |decls|
  {
    forall p :: p in problems <==> exists k :: 0 <= k < n && Complaint(decls, k, p)
  }

  lemma NoComplaints(decls: seq<Declared>)
    ensures Complaints(decls, 0, [])
  {
  }

  /** One more declaration adds its complaint, or nothing when it wins. */
  lemma ComplaintsNext(decls: seq<Declared>, n: nat, was: seq<Problem>, now: seq<Problem>)
    requires n < |decls| && Complaints(decls, n, was)
    requires Wins(decls, n) ==> now == was
    requires !Wins(decls, n) ==> exists p: Problem :: now == was + [p] && Complaint(decls, n, p)
    ensures Complaints(decls, n + 1, now)
    ensures now == [] <==> was == [] && Wins(decls, n)
  {
    ComplaintsAre(decls, n);
    hide Complaint, Wins;
    if !Wins(decls, n) {
      var p :| now == was + [p] && Complaint(decls, n, p);
      assert forall q :: Complaint(decls, n, q) <==> q == p;
    }
  }

  lemma ComplaintsHaveNoCycles(decls: seq<Declared>, problems: seq<Problem>)
    requires Complaints(decls, |decls|, problems)
    ensures forall i :: 0 <= i < |problems| ==> !problems[i].ChainCycles?
  {
    forall i | 0 <= i < |problems|
      ensures !problems[i].ChainCycles?
    {
      assert problems[i] in problems;
    }
  }

  lemma ComplaintsOfAll(decls: seq<Declared>, problems: seq<Problem>)
    requires Complaints(decls, |decls|, problems)
    ensures forall p :: p in problems <==> exists k :: 0 <= k < |decls| && Complaint(decls, k, p)
  {
  }

  lemma HeldFrom(table: Table, decls: seq<Declared>, n: nat, id: string)
    requires n <= |decls| && Holds(table, decls, n) && id in table
    ensures exists k :: 0 <= k < n && Wins(decls, k) && decls[k].source.id == id && decls[k].file == table[id].file
  {
    var k :| 0 <= k < n && Wins(decls, k) && decls[k].source.id == id;
    WinsIsSound(decls, k);
    hide Wins;
  }

  class Compiler {
    var redirects: Table
    var problems: seq<Problem>

    constructor ()
      ensures redirects == map[] && problems == []
    {
      redirects, problems := map[], [];
    }

    /** collectRedirects: nothing is reported exactly when the declarations are well formed. */
    method CollectRedirects(decls: seq<Declared>)
      requires redirects == map[] && problems == []
      modifies this
      ensures Holds(redirects, decls, |decls|)
      ensures problems == [] <==> WellDeclared(decls, redirects)
      ensures forall p: Problem :: !p.ChainCycles? ==>
                (p in problems <==> exists k :: 0 <= k < |decls| && Complaint(decls, k, p))
      ensures forall id: string, through: string :: ChainCycles(id, through) in problems ==>
                id in redirects && Follow(NextOf(redirects), id) == Cycles(through)
      ensures forall id :: id in redirects && Loops(NextOf(redirects), id) ==>
                exists through: string :: ChainCycles(id, through) in problems
    {
      hide Holds, Wins, Follow, Loops, Ascending, Orders, Before, Complaint, Complaints;
      HoldsNone(redirects, decls);
      NoComplaints(decls);
      var k := 0;
      while k < |decls|
        invariant k <= |decls|
        invariant Holds(redirects, decls, k)
        invariant problems == [] <==> forall j :: 0 <= j < k ==> Wins(decls, j)
        invariant Complaints(decls, k, problems)
      {
        ghost var was := problems;
        Collect(decls[k], k, decls);
        ComplaintsNext(decls, k, was, problems);
        k := k + 1;
      }
      ComplaintsHaveNoCycles(decls, problems);
      ghost var told := problems;
      ReportCycles();
      SettledIffNoLoops(NextOf(redirects));
      ComplaintsOfAll(decls, told);
    }

    /** The walk from every source, in the order of the ids. */
    method ReportCycles()
      requires forall i :: 0 <= i < |problems| ==> !problems[i].ChainCycles?
      modifies this`problems
      ensures problems == [] <==> old(problems) == [] && Settled(NextOf(redirects))
      ensures forall id: string, through: string :: ChainCycles(id, through) in problems <==>
                id in redirects && Follow(NextOf(redirects), id) == Cycles(through)
      ensures forall p: Problem :: !p.ChainCycles? ==> (p in problems <==> p in old(problems))
    {
      BeforeOrders();
      hide Follow, Ascending, Orders, Before;
      var ids := Sorted(redirects.Keys, Before);
      var i := 0;
      while i < |ids|
        invariant i <= |ids|
        invariant problems == []
           <==> old(problems) == [] && forall j :: 0 <= j < i ==> Follow(NextOf(redirects), ids[j]).Ends?
        invariant forall id: string, through: string :: ChainCycles(id, through) in problems <==>
                    id in ids[..i] && Follow(NextOf(redirects), id) == Cycles(through)
        invariant forall p: Problem :: !p.ChainCycles? ==> (p in problems <==> p in old(problems))
      {
        var r := FollowRedirect(ids[i]);
        if r.Cycles? {
          problems := problems + [ChainCycles(ids[i], r.through)];
        }
        assert ids[..i + 1] == ids[..i] + [ids[i]];
        i := i + 1;
      }
      assert ids[..i] == ids;
      assert forall id :: id in NextOf(redirects) ==> id in ids;
      assert forall j :: 0 <= j < |ids| ==> ids[j] in ids;
    }

    /** One declaration: reported, or taken into the table. */
    method Collect(d: Declared, at: nat, ghost decls: seq<Declared>)
      requires at < |decls| && d == decls[at] && Holds(redirects, decls, at)
      modifies this
      ensures Holds(redirects, decls, at + 1)
      ensures Wins(decls, at) ==> problems == old(problems)
      ensures !Wins(decls, at) ==> exists p: Problem :: problems == old(problems) + [p] && Complaint(decls, at, p)
    {
      HoldsNext(redirects, decls, at);
      WinsIsSound(decls, at);
      if d.source.Absent? || d.target.Absent? {
        problems := problems + [Unset(at)];
        assert Complaint(decls, at, Unset(at));
      } else if d.source.Malformed? {
        problems := problems + [BadSource(at)];
        assert Complaint(decls, at, BadSource(at));
      } else if d.target.Malformed? {
        problems := problems + [BadTarget(at)];
        assert Complaint(decls, at, BadTarget(at));
      } else if d.source.kind != d.target.kind {
        problems := problems + [CrossesKinds(at)];
        assert Complaint(decls, at, CrossesKinds(at));
      } else if d.source.id == d.target.id {
        problems := problems + [PointsAtItself(at)];
        assert Complaint(decls, at, PointsAtItself(at));
      } else {
        HeldMeansSeen(redirects, decls, at);
        hide Wins;
        if d.source.id in redirects {
          HeldFrom(redirects, decls, at, d.source.id);
          problems := problems + [AlreadyDeclared(at, redirects[d.source.id].file)];
          assert Complaint(decls, at, AlreadyDeclared(at, redirects[d.source.id].file));
        } else {
          redirects := redirects[d.source.id := RedirectOf(d)];
        }
      }
    }

    /** followRedirect. */
    method FollowRedirect(id: string) returns (r: Followed)
      ensures r == Follow(NextOf(redirects), id)
    {
      r := Walk(NextOf(redirects), id);
    }

    /** resolveAnchors for the anchors of one topic; `found` says whether an id of a kind
      * names something in the data input that owns the kind. */
    method ResolveAnchors(anchors: seq<Anchor>, found: (string, string) -> bool) returns (resolved: seq<Resolved>)
      modifies this`problems
      ensures resolved == Taken(redirects, anchors, found)
      ensures problems == old(problems) + Reports(redirects, anchors, found)
    {
      hide Answer;
      resolved := [];
      var i := 0;
      assert anchors[0..] == anchors;
      while i < |anchors|
        invariant i <= |anchors|
        invariant resolved + Taken(redirects, anchors[i..], found) == Taken(redirects, anchors, found)
        invariant problems + Reports(redirects, anchors[i..], found)
                    == old(problems) + Reports(redirects, anchors, found)
      {
        assert anchors[i..][1..] == anchors[i + 1..];
        var answer := Resolve(anchors[i], found);
        match answer {
          case Took(r) => resolved := resolved + [r];
          case Reported(p) => problems := problems + [p];
          case Silent =>
        }
        i := i + 1;
      }
    }

    method Resolve(a: Anchor, found: (string, string) -> bool) returns (answer: Outcome)
      ensures answer == Answer(redirects, a, found)
    {
      if !a.Target? {
        return Reported(BadAnchor);
      }
      var ra := Resolved(a.kind, a.id, [], "");
      if a.id in redirects {
        var r := FollowRedirect(a.id);
        if r.Cycles? {
          return Silent;
        }
        ra := Resolved(a.kind, r.terminus, r.chain, redirects[a.id].since);
      }
      if !found(ra.kind, ra.id) {
        return Reported(Dangling(ra.id));
      }
      answer := Took(ra);
    }

    /** The redirects of the pack, in the order of their ids (writeRedirect). */
    method EmitRedirects() returns (out: seq<Emitted>)
      ensures Ascending(SourcesOf(out), Before)
      ensures forall id :: id in SourcesOf(out) <==> id in redirects
      ensures forall i :: 0 <= i < |out| ==> out[i].source in redirects && IsEmitted(redirects, out[i].source, out[i])
    {
      hide Follow, Ascending;
      BeforeOrders();
      var ids := Sorted(redirects.Keys, Before);
      out := [];
      var i := 0;
      while i < |ids|
        invariant i <= |ids| && |out| == i
        invariant forall k :: 0 <= k < i ==>
          out[k].source == ids[k] && ids[k] in redirects && IsEmitted(redirects, ids[k], out[k])
      {
        assert ids[i] in ids;
        var r := FollowRedirect(ids[i]);
        var entry := redirects[ids[i]];
        var terminus, chain := entry.to, [];
        if r.Ends? {
          terminus, chain := r.terminus, r.chain;
        }
        if |chain| <= 2 {
          chain := [];
        }
        out := out + [Emitted(ids[i], terminus, chain, entry.since, entry.note)];
        i := i + 1;
      }
      assert SourcesOf(out) == ids;
    }
  }

  lemma SettledIffNoLoops(next: Next)
    ensures Settled(next) <==> forall id :: id in next ==> !Loops(next, id)
    ensures forall id :: Follow(next, id).Cycles? <==> Loops(next, id)
  {
    hide Follow, Loops;
    forall id: string
      ensures Follow(next, id).Cycles? <==> Loops(next, id)
    {
      CyclesIffLoops(next, id);
    }
  }

  lemma HoldsNone(table: Table, decls: seq<Declared>)
    requires table == map[]
    ensures Holds(table, decls, 0)
  {
  }

  lemma WinsIsSound(decls: seq<Declared>, k: nat)
    requires k < |decls|
    ensures Wins(decls, k) ==> Sound(decls[k])
  {
  }

  // ---- What becomes of an anchor ----

  /** Taken with its terminus, reported, or passed over: its cycle is reported at the redirect. */
  datatype Outcome = Took(resolved: Resolved) | Reported(problem: Problem) | Silent

  function Answer(table: Table, a: Anchor, found: (string, string) -> bool): Outcome
  {
    if !a.Target? then Reported(BadAnchor)
    else if a.id !in table then Checked(Resolved(a.kind, a.id, [], ""), found)
    else
      match Follow(NextOf(table), a.id)
      case Cycles(_) => Silent
      case Ends(terminus, chain) => Checked(Resolved(a.kind, terminus, chain, table[a.id].since), found)
  }

  function Checked(ra: Resolved, found: (string, string) -> bool): Outcome
  {
    if found(ra.kind, ra.id) then Took(ra) else Reported(Dangling(ra.id))
  }

  function Taken(table: Table, anchors: seq<Anchor>, found: (string, string) -> bool): seq<Resolved>
  {
    if anchors == [] then []
    else
      match Answer(table, anchors[0], found)
      case Took(r) => [r] + Taken(table, anchors[1..], found)
      case Reported(_) => Taken(table, anchors[1..], found)
      case Silent => Taken(table, anchors[1..], found)
  }

  function Reports(table: Table, anchors: seq<Anchor>, found: (string, string) -> bool): seq<Problem>
  {
    if anchors == [] then []
    else
      match Answer(table, anchors[0], found)
      case Took(_) => Reports(table, anchors[1..], found)
      case Reported(p) => [p] + Reports(table, anchors[1..], found)
      case Silent => Reports(table, anchors[1..], found)
  }

  /** r is a for a reader of the pack: at no redirect's source, by a chain of the table from a's own id. */
  ghost predicate Lands(table: Table, a: Anchor, r: Resolved)
  {
    && a.Target? && r.kind == a.kind && r.id !in table
    && (a.id !in table ==> r.id == a.id && r.chain == [] && r.since == "")
    && (a.id in table ==> PathFrom(NextOf(table), a.id, r.chain) && Distinct(r.chain)
                          && r.chain[|r.chain| - 1] == r.id && r.since == table[a.id].since)
  }

  lemma TookLands(table: Table, a: Anchor, found: (string, string) -> bool)
    requires Answer(table, a, found).Took?
    ensures var r := Answer(table, a, found).resolved; Lands(table, a, r) && found(r.kind, r.id)
  {
    FollowIsRight(NextOf(table), a.id);
    hide Follow;
    assert a.Target? ==> (a.id in table <==> a.id in NextOf(table));
  }

  lemma LandsAnswers(table: Table, a: Anchor, found: (string, string) -> bool, r: Resolved)
    requires Lands(table, a, r)
    ensures Answer(table, a, found) == if found(r.kind, r.id) then Took(r) else Reported(Dangling(r.id))
  {
    assert a.Target? ==> (a.id in table <==> a.id in NextOf(table));
    hide Follow;
    if a.id in table {
      EndIsUnique(NextOf(table), a.id, r.id, r.chain);
    }
  }

  lemma AnswerLands(table: Table, a: Anchor, found: (string, string) -> bool) returns (r: Resolved)
    requires a.Target? && !Answer(table, a, found).Silent?
    ensures Lands(table, a, r)
  {
    FollowIsRight(NextOf(table), a.id);
    hide Follow;
    assert a.id in table <==> a.id in NextOf(table);
    r := Resolved(a.kind, a.id, [], "");
    if a.id in table {
      var f := Follow(NextOf(table), a.id);
      r := Resolved(a.kind, f.terminus, f.chain, table[a.id].since);
    }
  }

  lemma SilentIff(table: Table, a: Anchor, found: (string, string) -> bool)
    ensures Answer(table, a, found).Silent? <==> a.Target? && Loops(NextOf(table), a.id)
  {
    if a.Target? {
      CyclesIffLoops(NextOf(table), a.id);
      FollowIsRight(NextOf(table), a.id);
    }
    hide Follow, Loops;
  }

  /** An anchor is taken where it lands, when that is found, and else the place is reported as dangling; an anchor
    * without a target is reported, and one that leads into a cycle is passed over. */
  lemma AnswerIff(table: Table, a: Anchor, found: (string, string) -> bool, answer: Outcome)
    ensures answer == Answer(table, a, found) <==>
              match answer
              case Took(r) => Lands(table, a, r) && found(r.kind, r.id)
              case Reported(p) =>
                || (p == BadAnchor && !a.Target?)
                || exists r :: Lands(table, a, r) && !found(r.kind, r.id) && p == Dangling(r.id)
              case Silent => a.Target? && Loops(NextOf(table), a.id)
  {
    SilentIff(table, a, found);
    forall s | Lands(table, a, s)
      ensures a.Target? && Answer(table, a, found) == if found(s.kind, s.id) then Took(s) else Reported(Dangling(s.id))
    {
      LandsAnswers(table, a, found, s);
    }
    assert !a.Target? ==> Answer(table, a, found) == Reported(BadAnchor);
    hide Answer, Loops, Lands;
    if a.Target? && !Answer(table, a, found).Silent? {
      var r := AnswerLands(table, a, found);
    }
  }

  /** Anchors in two parts are answered one part after the other. */
  lemma {:induction false} AnchorsInTurn(table: Table, xs: seq<Anchor>, ys: seq<Anchor>,
                                         found: (string, string) -> bool)
    ensures Taken(table, xs + ys, found) == Taken(table, xs, found) + Taken(table, ys, found)
    ensures Reports(table, xs + ys, found) == Reports(table, xs, found) + Reports(table, ys, found)
  {
    hide Answer;
    if xs == [] {
      assert xs + ys == ys;
    } else {
      AnchorsInTurn(table, xs[1..], ys, found);
      assert (xs + ys)[1..] == xs[1..] + ys;
    }
  }

  /** Every anchor taken lands, whatever else is wrong with the build. */
  lemma {:induction false} TakenLand(table: Table, anchors: seq<Anchor>, found: (string, string) -> bool, i: nat)
    returns (k: nat)
    requires i < |Taken(table, anchors, found)|
    ensures k < |anchors| && Lands(table, anchors[k], Taken(table, anchors, found)[i])
  {
    hide Answer, Lands;
    var took := Answer(table, anchors[0], found).Took?;
    if took && i == 0 {
      TookLands(table, anchors[0], found);
      k := 0;
    } else {
      k := TakenLand(table, anchors[1..], found, if took then i - 1 else i);
      k := k + 1;
    }
  }

  /** With no cycle in the table: nothing is reported exactly when every anchor has a target that is found
    * where its redirects end, and then each anchor is taken, in its order. */
  lemma {:induction false} NoneReported(table: Table, anchors: seq<Anchor>, found: (string, string) -> bool)
    requires Settled(NextOf(table))
    ensures Reports(table, anchors, found) == [] <==>
              forall i :: 0 <= i < |anchors| ==>
                anchors[i].Target? && found(anchors[i].kind, Terminus(NextOf(table), anchors[i].id))
    ensures Reports(table, anchors, found) == [] ==>
              && |Taken(table, anchors, found)| == |anchors|
              && forall i :: 0 <= i < |anchors| ==> Lands(table, anchors[i], Taken(table, anchors, found)[i])
  {
    hide Answer, Lands, Terminus;
    if anchors != [] {
      NoneReported(table, anchors[1..], found);
      TookIff(table, anchors[0], found);
      if Answer(table, anchors[0], found).Took? {
        TookLands(table, anchors[0], found);
        assert forall i :: 0 < i < |anchors| ==> anchors[i] == anchors[1..][i - 1];
      }
    }
  }

  lemma TookIff(table: Table, a: Anchor, found: (string, string) -> bool)
    requires Settled(NextOf(table))
    ensures Answer(table, a, found).Took? <==> a.Target? && found(a.kind, Terminus(NextOf(table), a.id))
    ensures !Answer(table, a, found).Silent?
  {
    if a.Target? {
      EndsAnywhere(NextOf(table), a.id);
      hide Follow;
      assert a.id in table <==> a.id in NextOf(table);
    }
  }

  function SourcesOf(out: seq<Emitted>): (s: seq<string>)
    ensures |s| == |out| && forall i :: 0 <= i < |out| ==> s[i] == out[i].source
  {
    seq(|out|, i requires 0 <= i < |out| => out[i].source)
  }

  /** The emitted form: the terminus, and the chain where there is more than one hop. */
  ghost predicate IsEmitted(table: Table, id: string, e: Emitted)
    requires id in table
  {
    match Follow(NextOf(table), id)
    case Ends(terminus, chain) =>
      e == Emitted(id, terminus, if |chain| > 2 then chain else [], table[id].since, table[id].note)
    case Cycles(_) => e == Emitted(id, table[id].to, [], table[id].since, table[id].note)
  }

  /** In a pack without cycles every emitted redirect ends where a walk ends, at no redirect's source. */
  lemma EmittedEnds(table: Table, id: string, e: Emitted)
    requires Settled(NextOf(table)) && id in table && IsEmitted(table, id, e)
    ensures e.to !in table && e.to == Compressed(NextOf(table))[id]
    ensures e.chain != [] ==> PathFrom(NextOf(table), id, e.chain) && e.chain[|e.chain| - 1] == e.to
    ensures e.chain == [] <==> table[id].to !in table
    ensures e.since == table[id].since && e.note == table[id].note
  {
    FollowIsRight(NextOf(table), id);
    hide Follow;
    assert id in NextOf(table);
    var chain := Follow(NextOf(table), id).chain;
    assert |chain| > 1 && chain[1] == table[id].to;
    assert |chain| > 2 ==> chain[1] in NextOf(table);
  }
}
