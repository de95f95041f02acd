/** Following a partial function to its end: the walk of docpack/compile.go:394-413
  * and of docpack/validate.go:241-263, both over a "seen" set. */
module Chains {

  type Next = map<string, string>

  /** Where a walk ends, with every id on the way, or the id at which it comes back. */
  datatype Followed = Ends(terminus: string, chain: seq<string>) | Cycles(through: string)

  ghost predicate Distinct(p: seq<string>)
  {
    forall i, j :: 0 <= i < j < |p| ==> p[i] != p[j]
  }

  function Members(p: seq<string>): set<string>
  {
    set k | 0 <= k < |p| :: p[k]
  }

  /** Each id of p but the last leads to the one after it. */
  ghost predicate Path(next: Next, p: seq<string>)
  {
    p != [] && forall k :: 0 <= k < |p| - 1 ==> p[k] in next && next[p[k]] == p[k + 1]
  }

  /** The walk from id. */
  ghost predicate PathFrom(next: Next, id: string, p: seq<string>)
  {
    Path(next, p) && p[0] == id
  }

  lemma DistinctGrows(p: seq<string>, x: string)
    requires Distinct(p) && x !in p
    ensures Distinct(p + [x])
  {
  }

  lemma HoppedShrinks(next: Next, chain: seq<string>, x: string)
    requires chain != [] && Distinct(chain) && chain[|chain| - 1] in next
    ensures next.Keys - Members((chain + [x])[..|chain|]) < next.Keys - Members(chain[..|chain| - 1])
  {
    var cur := chain[|chain| - 1];
    assert (chain + [x])[..|chain|] == chain;
    assert cur in Members(chain) && cur !in Members(chain[..|chain| - 1]);
    assert forall y :: y in Members(chain[..|chain| - 1]) ==> y in Members(chain);
  }

  function FollowOn(next: Next, chain: seq<string>): Followed
    requires chain != [] && Distinct(chain)
    decreases next.Keys - Members(chain[..|chain| - 1])
  {
    var cur := chain[|chain| - 1];
    if cur !in next then Ends(cur, chain)
    else if next[cur] in chain then Cycles(next[cur])
    else
      DistinctGrows(chain, next[cur]);
      HoppedShrinks(next, chain, next[cur]);
      FollowOn(next, chain + [next[cur]])
  }

  function Follow(next: Next, id: string): Followed
  {
    FollowOn(next, [id])
  }

  /** followRedirect, and validateParentChain on the parents of a locale. */
  method Walk(next: Next, id: string) returns (r: Followed)
    ensures r == Follow(next, id)
  {
    var cur, seen, chain := id, {id}, [id];
    while cur in next
      invariant chain != [] && Distinct(chain) && cur == chain[|chain| - 1]
      invariant forall x :: x in seen <==> x in chain
      invariant FollowOn(next, chain) == Follow(next, id)
      decreases next.Keys - Members(chain[..|chain| - 1])
    {
      var to := next[cur];
      if to in seen {
        return Cycles(to);
      }
      DistinctGrows(chain, to);
      HoppedShrinks(next, chain, to);
      seen, chain, cur := seen + {to}, chain + [to], to;
    }
    r := Ends(cur, chain);
  }

  // ---- What a walk finds ----

  /** r is right about the walk from id. */
  ghost predicate Right(next: Next, id: string, r: Followed)
  {
    match r
    case Ends(terminus, chain) =>
      PathFrom(next, id, chain) && Distinct(chain) && chain[|chain| - 1] == terminus && terminus !in next
    case Cycles(through) =>
      exists p :: PathFrom(next, id, p) && Distinct(p) && p[|p| - 1] in next && next[p[|p| - 1]] == through
          && through in p
  }

  lemma {:induction false} FollowOnIsRight(next: Next, chain: seq<string>)
    requires chain != [] && Distinct(chain) && Path(next, chain)
    ensures Right(next, chain[0], FollowOn(next, chain))
    decreases next.Keys - Members(chain[..|chain| - 1])
  {
    var cur := chain[|chain| - 1];
    if cur in next && next[cur] !in chain {
      DistinctGrows(chain, next[cur]);
      HoppedShrinks(next, chain, next[cur]);
      FollowOnIsRight(next, chain + [next[cur]]);
    } else if cur in next {
      assert PathFrom(next, chain[0], chain);
    }
  }

  lemma FollowIsRight(next: Next, id: string)
    ensures Right(next, id, Follow(next, id))
  {
    FollowOnIsRight(next, [id]);
  }

  /** Two walks from one id agree as far as both go. */
  lemma {:induction false} PathsAgree(next: Next, id: string, p: seq<string>, q: seq<string>, k: nat)
    requires PathFrom(next, id, p) && PathFrom(next, id, q) && k < |p| && k < |q|
    ensures p[k] == q[k]
  {
    if k > 0 {
      PathsAgree(next, id, p, q, k - 1);
    }
  }

  /** A walk cannot pass an end. */
  lemma PathStops(next: Next, id: string, p: seq<string>, q: seq<string>)
    requires PathFrom(next, id, p) && PathFrom(next, id, q) && p[|p| - 1] !in next
    ensures |q| <= |p|
  {
    if |q| > |p| {
      PathsAgree(next, id, p, q, |p| - 1);
    }
  }

  /** A walk from id comes back to an id it has passed. */
  ghost predicate Loops(next: Next, id: string)
  {
    exists p :: PathFrom(next, id, p) && !Distinct(p)
  }

  /** A cycle is reported exactly when one is reachable. */
  lemma CyclesIffLoops(next: Next, id: string)
    ensures Follow(next, id).Cycles? <==> Loops(next, id)
  {
    var r := Follow(next, id);
    FollowIsRight(next, id);
    hide Follow;
    if r.Cycles? {
      var p :| PathFrom(next, id, p) && Distinct(p) && p[|p| - 1] in next && next[p[|p| - 1]] == r.through
          && r.through in p;
      var q := p + [r.through];
      var i :| 0 <= i < |p| && p[i] == r.through;
      assert q[i] == q[|p|];
      assert PathFrom(next, id, q);
    } else if Loops(next, id) {
      var p :| PathFrom(next, id, p) && !Distinct(p);
      PathStops(next, id, r.chain, p);
      AgreeingIsDistinct(next, id, r.chain, p);
    }
  }

  lemma AgreeingIsDistinct(next: Next, id: string, p: seq<string>, q: seq<string>)
    requires PathFrom(next, id, p) && PathFrom(next, id, q) && |q| <= |p| && Distinct(p)
    ensures Distinct(q)
  {
    forall i, j | 0 <= i < j < |q|
      ensures q[i] != q[j]
    {
      PathsAgree(next, id, p, q, i);
      PathsAgree(next, id, p, q, j);
    }
  }

  /** The end of a walk and its chain are determined. */
  lemma EndIsUnique(next: Next, id: string, terminus: string, chain: seq<string>)
    requires Right(next, id, Ends(terminus, chain))
    ensures Follow(next, id) == Ends(terminus, chain)
  {
    var r := Follow(next, id);
    FollowIsRight(next, id);
    CyclesIffLoops(next, id);
    hide Follow;
    if r.Cycles? {
      var p :| PathFrom(next, id, p) && !Distinct(p);
      PathStops(next, id, chain, p);
      AgreeingIsDistinct(next, id, chain, p);
    } else {
      PathStops(next, id, r.chain, chain);
      PathStops(next, id, chain, r.chain);
      forall k | 0 <= k < |chain|
        ensures chain[k] == r.chain[k]
      {
        PathsAgree(next, id, r.chain, chain, k);
      }
    }
  }

  /** Every hop of a chain shares its terminus, by the rest of the chain. */
  lemma HopsShareTerminus(next: Next, id: string, i: nat)
    requires Follow(next, id).Ends? && i < |Follow(next, id).chain|
    ensures var r := Follow(next, id); Follow(next, r.chain[i]) == Ends(r.terminus, r.chain[i..])
  {
    var r := Follow(next, id);
    FollowIsRight(next, id);
    hide Follow;
    assert Right(next, r.chain[i], Ends(r.terminus, r.chain[i..]));
    EndIsUnique(next, r.chain[i], r.terminus, r.chain[i..]);
  }

  // ---- A table without cycles ----

  ghost predicate Settled(next: Next)
  {
    forall id :: id in next ==> Follow(next, id).Ends?
  }

  lemma EndsAnywhere(next: Next, id: string)
    requires Settled(next)
    ensures Follow(next, id).Ends?
    ensures id !in next ==> Follow(next, id) == Ends(id, [id])
  {
  }

  /** How many hops id is from its terminus. */
  ghost function Rank(next: Next, id: string): (n: nat)
    requires Settled(next)
  {
    EndsAnywhere(next, id);
    FollowIsRight(next, id);
    |Follow(next, id).chain| - 1
  }

  /** Each hop lowers the rank by one: the table is well founded. */
  lemma RankFalls(next: Next, id: string)
    requires Settled(next) && id in next
    ensures Rank(next, id) == Rank(next, next[id]) + 1
  {
    var r := Follow(next, id);
    FollowIsRight(next, id);
    hide Follow;
    assert |r.chain| > 1;
    HopsShareTerminus(next, id, 1);
  }

  /** No id leads back to itself. */
  lemma NoWayBack(next: Next, p: seq<string>)
    requires Settled(next) && Path(next, p) && |p| > 1
    ensures p[0] != p[|p| - 1]
  {
    EndsAnywhere(next, p[0]);
    CyclesIffLoops(next, p[0]);
    hide Follow;
    assert PathFrom(next, p[0], p);
  }

  /** A table is settled exactly when some rank falls along every entry. */
  ghost predicate FallsAlong(next: Next, rank: string -> nat)
  {
    forall id :: id in next ==> rank(next[id]) < rank(id)
  }

  lemma SettledIffRanked(next: Next)
    ensures Settled(next) <==> exists rank: string -> nat :: FallsAlong(next, rank)
  {
    if Settled(next) {
      var rank: string -> nat := id => Rank(next, id);
      forall id | id in next
        ensures rank(next[id]) < rank(id)
      {
        RankFalls(next, id);
      }
      assert FallsAlong(next, rank);
    }
    if rank: string -> nat :| FallsAlong(next, rank) {
      forall id | id in next
        ensures Follow(next, id).Ends?
      {
        FollowIsRight(next, id);
        var r := Follow(next, id);
        hide Follow;
        if r.Cycles? {
          CyclesIffLoops(next, id);
          var p :| PathFrom(next, id, p) && !Distinct(p);
          RankedIsDistinct(next, rank, p);
        }
      }
    }
  }

  lemma {:induction false} RanksFall(next: Next, rank: string -> nat, p: seq<string>, i: nat, j: nat)
    requires FallsAlong(next, rank) && Path(next, p) && i < j < |p|
    ensures rank(p[j]) < rank(p[i])
  {
    assert p[j - 1] in next && next[p[j - 1]] == p[j];
    if i < j - 1 {
      RanksFall(next, rank, p, i, j - 1);
    }
  }

  lemma RankedIsDistinct(next: Next, rank: string -> nat, p: seq<string>)
    requires FallsAlong(next, rank) && Path(next, p)
    ensures Distinct(p)
  {
    forall i, j | 0 <= i < j < |p|
      ensures p[i] != p[j]
    {
      RanksFall(next, rank, p, i, j);
    }
  }

  // ---- Path compression ----

  function Terminus(next: Next, id: string): string
  {
    match Follow(next, id)
    case Ends(terminus, _) => terminus
    case Cycles(_) => id
  }

  /** Each source straight to its terminus. */
  function Compressed(next: Next): Next
  {
    map id | id in next :: Terminus(next, id)
  }

  /** One lookup in the compressed table is a whole walk in the original, and ends. */
  lemma OneLookup(next: Next, id: string)
    requires Settled(next) && id in next
    ensures Compressed(next)[id] == Follow(next, id).terminus
    ensures Compressed(next)[id] !in Compressed(next)
    ensures Follow(Compressed(next), id) == Ends(Follow(next, id).terminus, [id, Follow(next, id).terminus])
  {
    FollowIsRight(next, id);
    var r := Follow(next, id);
    var c := Compressed(next);
    hide Follow;
    assert c[id] == r.terminus && r.terminus !in c.Keys;
    assert |r.chain| > 1 && r.chain[0] != r.chain[|r.chain| - 1];
    assert Right(c, id, Ends(r.terminus, [id, r.terminus]));
    EndIsUnique(c, id, r.terminus, [id, r.terminus]);
  }

  /** Compressing keeps every terminus, and a second time changes nothing. */
  lemma CompressedKeeps(next: Next)
    requires Settled(next)
    ensures Settled(Compressed(next))
    ensures forall id :: Follow(Compressed(next), id).Ends? && Follow(next, id).Ends?
                         && Follow(Compressed(next), id).terminus == Follow(next, id).terminus
    ensures Compressed(Compressed(next)) == Compressed(next)
  {
    var c := Compressed(next);
    forall id: string
      ensures Follow(c, id).Ends? && Follow(next, id).Ends? && Follow(c, id).terminus == Follow(next, id).terminus
    {
      EndsAnywhere(next, id);
      if id in next {
        OneLookup(next, id);
      } else {
        assert id !in c;
      }
    }
    hide Follow;
    assert forall id :: id in c <==> id in Compressed(c);
  }
}
