/** Which fields of a request bind to the path, and which remain for the query string or the body
  * (internal/openapi/operations.go:262-308,385-577,713-754). */
module Binding {
  import opened Options
  import opened ApiModel

  /** A dotted field path by its components. */
  type Path = seq<string>

  datatype Error =
    | NotInImage(name: string)
    | Recursive(fqn: string)
    | MessageTyped(name: string)
    | NoSchema(name: string)

  /** Whether remaining fields become query parameters or properties of the body. */
  datatype Half = Query | Body

  function FieldByName(fs: seq<Field>, name: string): Option<Field>
  {
    if fs == [] then None else if fs[0].name == name then Some(fs[0]) else FieldByName(fs[1..], name)
  }

  ghost predicate DistinctNames(fs: seq<Field>)
  {
    forall i, j :: 0 <= i < j < |fs| ==> fs[i].name != fs[j].name
  }

  /** A path walks from field to field, through singular message-typed ones. */
  predicate Walks(m: Model, fs: seq<Field>, p: Path)
    decreases |p|
  {
    && p != [] && FieldByName(fs, p[0]).Some?
    && (|p| > 1 ==>
          var f := FieldByName(fs, p[0]).value;
          Enterable(m, f) && Walks(m, m.messages[f.kind.fqn].fields, p[1..]))
  }

  predicate Enterable(m: Model, f: Field)
  {
    f.kind.MessageKind? && !f.repeated && f.kind.fqn in m.messages
  }

  /** The field a path ends at. */
  function Leaf(m: Model, fs: seq<Field>, p: Path): Field
    requires Walks(m, fs, p)
    decreases |p|
  {
    var f := FieldByName(fs, p[0]).value;
    if |p| == 1 then f else Leaf(m, m.messages[f.kind.fqn].fields, p[1..])
  }

  /** resolveFieldPath accepts p: it walks, and does not end at a repeated field. */
  predicate Resolves(m: Model, fs: seq<Field>, p: Path)
  {
    Walks(m, fs, p) && !Leaf(m, fs, p).repeated
  }

  /** resolveFieldPath, without the sensitivity it gathers. */
  method ResolveFieldPath(m: Model, req: MessageInfo, path: Path) returns (leaf: Option<Field>)
    ensures leaf.Some? <==> Resolves(m, req.fields, path)
    ensures leaf.Some? ==> leaf.value == Leaf(m, req.fields, path)
  {
    var owner := Some(req);
    var i := 0;
    assert path[0..] == path;
    while i < |path|
      invariant i <= |path|
      invariant i == |path| ==> i == 0
      invariant i < |path| && owner.None? ==> !Resolves(m, req.fields, path)
      invariant i < |path| && owner.Some? ==>
                  (Resolves(m, req.fields, path) <==> Resolves(m, owner.value.fields, path[i..]))
      invariant i < |path| && owner.Some? && Resolves(m, req.fields, path) ==>
                  Leaf(m, req.fields, path) == Leaf(m, owner.value.fields, path[i..])
      decreases |path| - i
    {
      if owner.None? {
        return None;
      }
      var f := FieldByName(owner.value.fields, path[i]);
      assert path[i..][0] == path[i] && path[i..][1..] == path[i + 1..];
      if f.None? || f.value.repeated {
        return None;
      }
      if i == |path| - 1 {
        return Some(f.value);
      }
      if !f.value.kind.MessageKind? {
        return None;
      }
      owner := if f.value.kind.fqn in m.messages then Some(m.messages[f.value.kind.fqn]) else None;
      i := i + 1;
    }
    leaf := None;
  }

  // ---- The remaining fields ----

  /** boundPaths.under: the bound paths below name, re-rooted at it. */
  function Under(bound: set<Path>, name: string): set<Path>
  {
    set p | p in bound && |p| > 1 && p[0] == name :: p[1..]
  }

  function Prefixed(name: string, ps: seq<Path>): (r: seq<Path>)
    ensures |r| == |ps| && forall k :: 0 <= k < |ps| ==> r[k] == [name] + ps[k]
  {
    if ps == [] then [] else [[name] + ps[0]] + Prefixed(name, ps[1..])
  }

  /** A field that has no flat encoding in the path or the query string. */
  predicate Unflat(m: Model, f: Field)
  {
    f.kind.MessageKind? && !IsMapField(m, f) && !Wkt(f.kind.fqn)
  }

  /** The paths that remain of the fields fs, in order; renders says which fields have a schema. */
  function Remaining(m: Model, fs: seq<Field>, bound: set<Path>, seen: set<string>, half: Half,
                     renders: Field -> bool): Result<seq<Path>, Error>
    decreases m.messages.Keys - seen, |fs|
  {
    if fs == [] then Ok([])
    else
      var f := fs[0];
      match OfField(m, f, bound, seen, half, renders)
      case Err(e) => Err(e)
      case Ok(here) =>
        match Remaining(m, fs[1..], bound, seen, half, renders)
        case Err(e) => Err(e)
        case Ok(rest) => Ok(here + rest)
  }

  function OfField(m: Model, f: Field, bound: set<Path>, seen: set<string>, half: Half,
                   renders: Field -> bool): Result<seq<Path>, Error>
    decreases m.messages.Keys - seen, 0
  {
    if [f.name] in bound then Ok([])
    else if Under(bound, f.name) != {} then
      if f.kind.ScalarKind? || f.kind.fqn !in m.messages then Err(NotInImage(f.name))
      else if f.kind.fqn in seen then Err(Recursive(f.kind.fqn))
      else
        match Remaining(m, m.messages[f.kind.fqn].fields, Under(bound, f.name), seen + {f.kind.fqn}, half, renders)
        case Err(e) => Err(e)
        case Ok(below) => Ok(Prefixed(f.name, below))
    else if half == Query && Unflat(m, f) then Err(MessageTyped(f.name))
    else if !renders(f) then Err(NoSchema(f.name))
    else Ok([[f.name]])
  }

  // ---- Dotted names ----

  ghost predicate DotFree(p: Path)
  {
    forall i, k :: 0 <= i < |p| && 0 <= k < |p[i]| ==> p[i][k] != '.'
  }

  /** A path as it is written in a template. */
  function Dotted(p: Path): string
  {
    if p == [] then "" else if |p| == 1 then p[0] else p[0] + "." + Dotted(p[1..])
  }

  /** Cutting "name." off a dotted path is taking off its first component. */
  lemma CutPrefixIsUnder(p: Path, name: string)
    requires p != [] && DotFree(p) && DotFree([name])
    ensures |p| > 1 && p[0] == name <==>
              |Dotted(p)| > |name| && Dotted(p)[..|name|] == name && Dotted(p)[|name|] == '.'
    ensures |p| > 1 && p[0] == name ==> Dotted(p)[|name| + 1..] == Dotted(p[1..])
    ensures Dotted(p) == name <==> p == [name]
  {
    var d := Dotted(p);
    assert [name][0] == name;
    assert forall k :: 0 <= k < |name| ==> name[k] != '.';
    assert forall k :: 0 <= k < |p[0]| ==> p[0][k] != '.';
    if |p| == 1 {
      assert p == [p[0]];
    } else {
      assert d[..|p[0]|] == p[0] && d[|p[0]|] == '.';
      assert |p[0]| < |name| <= |d| ==> d[..|name|][|p[0]|] == '.';
      assert |name| < |p[0]| ==> d[|name|] == p[0][|name|];
      assert |name| == |p[0]| ==> d[..|name|] == p[0];
    }
  }

  // ---- The cut ----

  /** No member is a prefix of another. */
  ghost predicate PrefixFree(c: set<Path>)
  {
    forall p, q :: p in c && q in c && p <= q ==> p == q
  }

  /** p is a member or goes on below one. */
  ghost predicate Meets(c: set<Path>, p: Path)
  {
    exists q :: q in c && q <= p
  }

  /** p stops above a member: it names a container of it. */
  ghost predicate Above(c: set<Path>, p: Path)
  {
    exists q :: q in c && p < q
  }

  function Members(ps: seq<Path>): set<Path>
  {
    set p | p in ps
  }

  ghost predicate AllWalk(m: Model, fs: seq<Field>, c: set<Path>)
  {
    forall p :: p in c ==> Walks(m, fs, p)
  }

  ghost predicate NamesDistinct(m: Model)
  {
    forall n :: n in m.messages ==> DistinctNames(m.messages[n].fields)
  }

  /** What cut asks of the members c below a field list. */
  ghost predicate Cuts(m: Model, fs: seq<Field>, c: set<Path>)
  {
    && PrefixFree(c) && AllWalk(m, fs, c)
    && forall p :: Walks(m, fs, p) ==> Meets(c, p) || Above(c, p)
  }

  lemma {:induction false} FoundByName(fs: seq<Field>, i: nat)
    requires DistinctNames(fs) && i < |fs|
    ensures FieldByName(fs, fs[i].name) == Some(fs[i])
  {
    if i > 0 {
      assert forall a, b :: 0 <= a < b < |fs[1..]| ==>
               fs[1..][a].name == fs[a + 1].name && fs[1..][b].name == fs[b + 1].name;
      FoundByName(fs[1..], i - 1);
    }
  }

  lemma {:induction false} FoundAt(fs: seq<Field>, name: string) returns (i: nat)
    requires FieldByName(fs, name).Some?
    ensures i < |fs| && fs[i].name == name && FieldByName(fs, name) == Some(fs[i])
  {
    i := 0;
    if fs[0].name != name {
      i := FoundAt(fs[1..], name);
      i := i + 1;
    }
  }

  /** The remaining paths are those of the fields, one field after the other. */
  lemma {:induction false} RemainingParts(m: Model, fs: seq<Field>, bound: set<Path>, seen: set<string>, half: Half,
                                          renders: Field -> bool)
    requires Remaining(m, fs, bound, seen, half, renders).Ok?
    ensures forall i :: 0 <= i < |fs| ==> OfField(m, fs[i], bound, seen, half, renders).Ok?
    ensures forall q :: q in Remaining(m, fs, bound, seen, half, renders).value <==>
              exists i :: 0 <= i < |fs| && q in OfField(m, fs[i], bound, seen, half, renders).value
    decreases |fs|
  {
    hide OfField;
    if fs != [] {
      RemainingParts(m, fs[1..], bound, seen, half, renders);
      var all, rest := Remaining(m, fs, bound, seen, half, renders).value,
          Remaining(m, fs[1..], bound, seen, half, renders).value;
      var here := OfField(m, fs[0], bound, seen, half, renders).value;
      assert all == here + rest;
      forall q: Path
        ensures q in all <==> exists i :: 0 <= i < |fs| && q in OfField(m, fs[i], bound, seen, half, renders).value
      {
        if q in rest {
          var i :| 0 <= i < |fs[1..]| && q in OfField(m, fs[1..][i], bound, seen, half, renders).value;
          assert fs[i + 1] == fs[1..][i];
        }
        if i :| 0 <= i < |fs| && q in OfField(m, fs[i], bound, seen, half, renders).value {
          assert i > 0 ==> fs[i] == fs[1..][i - 1];
        }
      }
    }
  }

  /** Every path that remains of a field begins with it. */
  lemma OfFieldHeads(m: Model, f: Field, bound: set<Path>, seen: set<string>, half: Half, renders: Field -> bool,
                     q: Path)
    requires OfField(m, f, bound, seen, half, renders).Ok? && q in OfField(m, f, bound, seen, half, renders).value
    ensures q != [] && q[0] == f.name && [f.name] !in bound
    ensures Under(bound, f.name) == {} ==> q == [f.name]
  {
    hide Remaining;
  }

  lemma UnderHas(bound: set<Path>, name: string, p: Path)
    ensures p in Under(bound, name) <==> p != [] && [name] + p in bound
  {
    if p in Under(bound, name) {
      var q :| q in bound && |q| > 1 && q[0] == name && q[1..] == p;
      assert q == [name] + p;
    }
    if p != [] && [name] + p in bound {
      var q := [name] + p;
      assert q in bound && |q| > 1 && q[0] == name && q[1..] == p;
    }
  }

  lemma UnderPrefixFree(bound: set<Path>, name: string)
    requires PrefixFree(bound)
    ensures PrefixFree(Under(bound, name))
    ensures Under(bound, name) != {} ==> [name] !in bound
  {
    hide Under;
    forall p, q | p in Under(bound, name) && q in Under(bound, name) && p <= q
      ensures p == q
    {
      UnderHas(bound, name, p);
      UnderHas(bound, name, q);
      assert [name] + p <= [name] + q;
      assert p == ([name] + p)[1..] && q == ([name] + q)[1..];
    }
    if p :| p in Under(bound, name) {
      UnderHas(bound, name, p);
      assert [name] <= [name] + p;
    }
  }

  lemma UnderWalks(m: Model, fs: seq<Field>, bound: set<Path>, f: Field)
    requires AllWalk(m, fs, bound) && FieldByName(fs, f.name) == Some(f) && Under(bound, f.name) != {}
    ensures Enterable(m, f) && AllWalk(m, m.messages[f.kind.fqn].fields, Under(bound, f.name))
  {
    hide Under;
    var p :| p in Under(bound, f.name);
    UnderHas(bound, f.name, p);
    assert Walks(m, fs, [f.name] + p);
    forall q | q in Under(bound, f.name)
      ensures Walks(m, m.messages[f.kind.fqn].fields, q)
    {
      UnderHas(bound, f.name, q);
      assert Walks(m, fs, [f.name] + q);
      assert ([f.name] + q)[1..] == q;
    }
  }

  lemma {:induction false} PrefixedHas(name: string, ps: seq<Path>, q: Path)
    ensures q in Prefixed(name, ps) <==> q != [] && q[0] == name && q[1..] in ps
  {
    var r := Prefixed(name, ps);
    if q in r {
      var k :| 0 <= k < |r| && r[k] == q;
      assert q[1..] == ps[k];
    }
    if q != [] && q[0] == name && q[1..] in ps {
      var k :| 0 <= k < |ps| && ps[k] == q[1..];
      assert r[k] == [name] + ps[k] == q;
    }
  }

  /** The members: the bound paths and the remaining ones. */
  function Cut(m: Model, fs: seq<Field>, bound: set<Path>, seen: set<string>, half: Half,
               renders: Field -> bool): set<Path>
    requires Remaining(m, fs, bound, seen, half, renders).Ok?
  {
    bound + Members(Remaining(m, fs, bound, seen, half, renders).value)
  }

  /** A field with bound paths below it is descended into. */
  predicate Opens(m: Model, f: Field, bound: set<Path>)
  {
    [f.name] !in bound && Under(bound, f.name) != {}
  }

  /** The members below a field that is descended into. */
  function CutBelow(m: Model, f: Field, bound: set<Path>, seen: set<string>, half: Half,
                    renders: Field -> bool): set<Path>
    requires Opens(m, f, bound) && OfField(m, f, bound, seen, half, renders).Ok?
  {
    Cut(m, m.messages[f.kind.fqn].fields, Under(bound, f.name), seen + {f.kind.fqn}, half, renders)
  }

  /** The members that begin with a field: the bound ones, those below it, or the field alone. */
  lemma Branch(m: Model, fs: seq<Field>, bound: set<Path>, seen: set<string>, half: Half, renders: Field -> bool,
               f: Field, p: Path)
    requires DistinctNames(fs) && AllWalk(m, fs, bound) && Remaining(m, fs, bound, seen, half, renders).Ok?
    requires FieldByName(fs, f.name) == Some(f)
    ensures OfField(m, f, bound, seen, half, renders).Ok?
    ensures [f.name] in bound ==>
              (p != [] && p[0] == f.name && p in Cut(m, fs, bound, seen, half, renders) ==> p in bound)
    ensures Opens(m, f, bound) ==>
              (p != [] && p[0] == f.name && p in Cut(m, fs, bound, seen, half, renders) <==>
               p != [] && p[0] == f.name && p[1..] in CutBelow(m, f, bound, seen, half, renders))
    ensures [f.name] !in bound && Under(bound, f.name) == {} ==>
              (p != [] && p[0] == f.name && p in Cut(m, fs, bound, seen, half, renders) <==> p == [f.name])
  {
    hide Remaining, OfField, Under, Walks, Prefixed;
    RemainingParts(m, fs, bound, seen, half, renders);
    var i := FoundAt(fs, f.name);
    assert fs[i] == f;
    var q := Remaining(m, fs, bound, seen, half, renders).value;
    var here := OfField(m, f, bound, seen, half, renders).value;
    if p != [] && p[0] == f.name {
      InQIffHere(m, fs, bound, seen, half, renders, i, p);
      assert p in q <==> p in here;
      HereIs(m, f, bound, seen, half, renders, p);
      UnderHas(bound, f.name, p[1..]);
      assert [f.name] + p[1..] == p;
      WalkNotEmpty(m, fs, bound);
      if Opens(m, f, bound) {
        BelowNotEmpty(m, f, bound, seen, half, renders);
      }
    }
  }

  lemma WalkNotEmpty(m: Model, fs: seq<Field>, bound: set<Path>)
    requires AllWalk(m, fs, bound)
    ensures [] !in bound
  {
  }

  /** No member is the empty path. */
  lemma BelowNotEmpty(m: Model, f: Field, bound: set<Path>, seen: set<string>, half: Half, renders: Field -> bool)
    requires Opens(m, f, bound) && OfField(m, f, bound, seen, half, renders).Ok?
    ensures [] !in CutBelow(m, f, bound, seen, half, renders)
  {
    hide Remaining, OfField, Under;
    UnderHas(bound, f.name, []);
    OpensIs(m, f, bound, seen, half, renders);
    var sub, below := m.messages[f.kind.fqn].fields, Under(bound, f.name);
    RemainingParts(m, sub, below, seen + {f.kind.fqn}, half, renders);
    if [] in Remaining(m, sub, below, seen + {f.kind.fqn}, half, renders).value {
      var i :| 0 <= i < |sub| && [] in OfField(m, sub[i], below, seen + {f.kind.fqn}, half, renders).value;
      OfFieldHeads(m, sub[i], below, seen + {f.kind.fqn}, half, renders, []);
    }
  }

  lemma OpensIs(m: Model, f: Field, bound: set<Path>, seen: set<string>, half: Half, renders: Field -> bool)
    requires Opens(m, f, bound) && OfField(m, f, bound, seen, half, renders).Ok?
    ensures !f.kind.ScalarKind? && f.kind.fqn in m.messages && f.kind.fqn !in seen
    ensures Remaining(m, m.messages[f.kind.fqn].fields, Under(bound, f.name), seen + {f.kind.fqn}, half, renders).Ok?
    ensures OfField(m, f, bound, seen, half, renders).value
         == Prefixed(f.name,
             Remaining(m, m.messages[f.kind.fqn].fields, Under(bound, f.name), seen + {f.kind.fqn}, half,
                 renders).value)
  {
    hide Remaining, Under;
  }

  lemma HereIs(m: Model, f: Field, bound: set<Path>, seen: set<string>, half: Half, renders: Field -> bool, p: Path)
    requires OfField(m, f, bound, seen, half, renders).Ok? && p != [] && p[0] == f.name
    ensures var here := OfField(m, f, bound, seen, half, renders).value;
            && ([f.name] in bound ==> p !in here)
            && (Opens(m, f, bound) ==>
                 (p in here <==> p[1..] in Remaining(m, m.messages[f.kind.fqn].fields, Under(bound, f.name),
                     seen + {f.kind.fqn}, half, renders).value))
            && ([f.name] !in bound && Under(bound, f.name) == {} ==> (p in here <==> p == [f.name]))
  {
    hide Remaining, Under, Prefixed;
    if Opens(m, f, bound) {
      OpensIs(m, f, bound, seen, half, renders);
      PrefixedHas(f.name,
          Remaining(m, m.messages[f.kind.fqn].fields, Under(bound, f.name), seen + {f.kind.fqn}, half, renders).value,
              p);
    }
  }

  lemma InQIffHere(m: Model, fs: seq<Field>, bound: set<Path>, seen: set<string>, half: Half, renders: Field -> bool,
                   i: nat, p: Path)
    requires DistinctNames(fs) && Remaining(m, fs, bound, seen, half, renders).Ok? && i < |fs|
    requires p != [] && p[0] == fs[i].name
    ensures OfField(m, fs[i], bound, seen, half, renders).Ok?
    ensures p in Remaining(m, fs, bound, seen, half, renders).value
       <==> p in OfField(m, fs[i], bound, seen, half, renders).value
  {
    hide Remaining, OfField;
    RemainingParts(m, fs, bound, seen, half, renders);
    if p in Remaining(m, fs, bound, seen, half, renders).value {
      var j :| 0 <= j < |fs| && p in OfField(m, fs[j], bound, seen, half, renders).value;
      OfFieldHeads(m, fs[j], bound, seen, half, renders, p);
      assert fs[j].name == fs[i].name;
    }
  }

  /** The cut of a level rests on the cuts of the levels it opens. */
  ghost predicate BelowCuts(m: Model, fs: seq<Field>, bound: set<Path>, seen: set<string>, half: Half,
                            renders: Field -> bool)
  {
    && DistinctNames(fs) && AllWalk(m, fs, bound) && PrefixFree(bound)
    && Remaining(m, fs, bound, seen, half, renders).Ok?
    && forall i :: 0 <= i < |fs| && Opens(m, fs[i], bound) ==>
         OfField(m, fs[i], bound, seen, half, renders).Ok? && Enterable(m, fs[i])
         && Cuts(m, m.messages[fs[i].kind.fqn].fields, CutBelow(m, fs[i], bound, seen, half, renders))
  }

  /** Each member begins with a field. */
  lemma MemberHeaded(m: Model, fs: seq<Field>, bound: set<Path>, seen: set<string>, half: Half, renders: Field -> bool,
                     p: Path)
    returns (i: nat)
    requires DistinctNames(fs) && AllWalk(m, fs, bound) && Remaining(m, fs, bound, seen, half, renders).Ok?
    requires p in Cut(m, fs, bound, seen, half, renders)
    ensures i < |fs| && p != [] && p[0] == fs[i].name && FieldByName(fs, p[0]) == Some(fs[i])
  {
    hide Remaining, OfField;
    if p in bound {
      i := FoundAt(fs, p[0]);
    } else {
      RemainingParts(m, fs, bound, seen, half, renders);
      var j :| 0 <= j < |fs| && p in OfField(m, fs[j], bound, seen, half, renders).value;
      OfFieldHeads(m, fs[j], bound, seen, half, renders, p);
      FoundByName(fs, j);
      i := j;
    }
  }

  lemma CutPrefixFree(m: Model, fs: seq<Field>, bound: set<Path>, seen: set<string>, half: Half,
                      renders: Field -> bool, p: Path, q: Path)
    requires BelowCuts(m, fs, bound, seen, half, renders)
    requires p in Cut(m, fs, bound, seen, half, renders) && q in Cut(m, fs, bound, seen, half, renders) && p <= q
    ensures p == q
  {
    hide Remaining, OfField, Under, Cut, CutBelow, Walks, DistinctNames;
    var i := MemberHeaded(m, fs, bound, seen, half, renders, p);
    var f := fs[i];
    assert q[0] == p[0];
    Branch(m, fs, bound, seen, half, renders, f, p);
    Branch(m, fs, bound, seen, half, renders, f, q);
    if Opens(m, f, bound) {
      assert p[1..] <= q[1..];
      assert p == [p[0]] + p[1..] && q == [q[0]] + q[1..];
    }
  }

  lemma CutWalks(m: Model, fs: seq<Field>, bound: set<Path>, seen: set<string>, half: Half, renders: Field -> bool,
                 p: Path)
    requires BelowCuts(m, fs, bound, seen, half, renders)
    requires p in Cut(m, fs, bound, seen, half, renders)
    ensures Walks(m, fs, p)
  {
    hide Remaining, OfField, Under, Cut, CutBelow, DistinctNames;
    var i := MemberHeaded(m, fs, bound, seen, half, renders, p);
    Branch(m, fs, bound, seen, half, renders, fs[i], p);
  }

  lemma CutMeets(m: Model, fs: seq<Field>, bound: set<Path>, seen: set<string>, half: Half, renders: Field -> bool,
                 p: Path)
    requires BelowCuts(m, fs, bound, seen, half, renders) && Walks(m, fs, p)
    ensures var c := Cut(m, fs, bound, seen, half, renders); Meets(c, p) || Above(c, p)
  {
    hide Remaining, OfField, Cut, CutBelow, DistinctNames;
    var i := FoundAt(fs, p[0]);
    var f, c := fs[i], Cut(m, fs, bound, seen, half, renders);
    if [f.name] in bound {
      BoundInCut(m, fs, bound, seen, half, renders, [f.name]);
      assert [f.name] <= p;
    } else if Opens(m, f, bound) {
      hide Under;
      Branch(m, fs, bound, seen, half, renders, f, p);
      var below := CutBelow(m, f, bound, seen, half, renders);
      if |p| == 1 {
        var x :| x in Under(bound, f.name);
        UnderHas(bound, f.name, x);
        BoundInCut(m, fs, bound, seen, half, renders, [f.name] + x);
        assert p < [f.name] + x;
      } else {
        MeetsBelow(m, fs, bound, seen, half, renders, f, p);
      }
    } else {
      Branch(m, fs, bound, seen, half, renders, f, [f.name]);
      assert [f.name] <= p;
    }
  }

  lemma BoundInCut(m: Model, fs: seq<Field>, bound: set<Path>, seen: set<string>, half: Half, renders: Field -> bool,
                   p: Path)
    requires Remaining(m, fs, bound, seen, half, renders).Ok? && p in bound
    ensures p in Cut(m, fs, bound, seen, half, renders)
  {
    hide Remaining;
  }

  lemma MeetsBelow(m: Model, fs: seq<Field>, bound: set<Path>, seen: set<string>, half: Half, renders: Field -> bool,
                   f: Field, p: Path)
    requires BelowCuts(m, fs, bound, seen, half, renders) && Walks(m, fs, p) && |p| > 1
    requires FieldByName(fs, p[0]) == Some(f) && f.name == p[0] && f in fs && Opens(m, f, bound)
    ensures var c := Cut(m, fs, bound, seen, half, renders); Meets(c, p) || Above(c, p)
  {
    hide Remaining, OfField, Cut, CutBelow, DistinctNames, Under;
    Branch(m, fs, bound, seen, half, renders, f, p);
    var c, below := Cut(m, fs, bound, seen, half, renders), CutBelow(m, f, bound, seen, half, renders);
    assert Meets(below, p[1..]) || Above(below, p[1..]) by {
      BelowMeets(m, fs, bound, seen, half, renders, f, p);
    }
    var q :| q in below && (q <= p[1..] || p[1..] < q);
    var r := [f.name] + q;
    assert r[1..] == q;
    Branch(m, fs, bound, seen, half, renders, f, r);
    UnderHead(p, f.name, q);
  }

  lemma BelowMeets(m: Model, fs: seq<Field>, bound: set<Path>, seen: set<string>, half: Half, renders: Field -> bool,
                   f: Field, p: Path)
    requires BelowCuts(m, fs, bound, seen, half, renders) && Walks(m, fs, p) && |p| > 1
    requires FieldByName(fs, p[0]) == Some(f) && f in fs && Opens(m, f, bound)
    requires OfField(m, f, bound, seen, half, renders).Ok?
    ensures var below := CutBelow(m, f, bound, seen, half, renders); Meets(below, p[1..]) || Above(below, p[1..])
  {
    hide Remaining, OfField, Cut, CutBelow, DistinctNames, Under, Meets, Above;
    var i :| 0 <= i < |fs| && fs[i] == f;
    assert Opens(m, fs[i], bound);
  }

  /** What holds below a field holds of the paths that begin with it. */
  lemma UnderHead(p: Path, name: string, q: Path)
    requires p != [] && p[0] == name
    ensures q <= p[1..] ==> [name] + q <= p
    ensures p[1..] < q ==> p < [name] + q
  {
    assert p == [name] + p[1..];
  }

  /** Bound and remaining paths cut the request exactly: no member lies below another,
    * and every path a caller can walk meets one member or stops in a container of one. */
  lemma {:induction false} CutIsExact(m: Model, fs: seq<Field>, bound: set<Path>, seen: set<string>, half: Half,
                                      renders: Field -> bool)
    requires NamesDistinct(m) && DistinctNames(fs)
    requires PrefixFree(bound) && AllWalk(m, fs, bound)
    requires Remaining(m, fs, bound, seen, half, renders).Ok?
    ensures Cuts(m, fs, Cut(m, fs, bound, seen, half, renders))
    decreases m.messages.Keys - seen
  {
    hide Remaining, OfField, Under, Cut, CutBelow, PrefixFree, Walks, DistinctNames;
    RemainingParts(m, fs, bound, seen, half, renders);
    forall i | 0 <= i < |fs| && Opens(m, fs[i], bound)
      ensures Enterable(m, fs[i])
      ensures Cuts(m, m.messages[fs[i].kind.fqn].fields, CutBelow(m, fs[i], bound, seen, half, renders))
    {
      var f := fs[i];
      FoundByName(fs, i);
      UnderPrefixFree(bound, f.name);
      UnderWalks(m, fs, bound, f);
      OpensIs(m, f, bound, seen, half, renders);
      SeenGrows(m, seen, f.kind.fqn);
      CutIsExact(m, m.messages[f.kind.fqn].fields, Under(bound, f.name), seen + {f.kind.fqn}, half, renders);
      CutBelowIs(m, f, bound, seen, half, renders);
    }
    CutFromBelow(m, fs, bound, seen, half, renders);
  }

  lemma SeenGrows(m: Model, seen: set<string>, n: string)
    requires n in m.messages && n !in seen
    ensures m.messages.Keys - (seen + {n}) < m.messages.Keys - seen
  {
    assert n in m.messages.Keys - seen;
  }

  lemma CutBelowIs(m: Model, f: Field, bound: set<Path>, seen: set<string>, half: Half, renders: Field -> bool)
    requires Opens(m, f, bound) && OfField(m, f, bound, seen, half, renders).Ok?
    requires f.kind.MessageKind? && f.kind.fqn in m.messages
    requires Remaining(m, m.messages[f.kind.fqn].fields, Under(bound, f.name), seen + {f.kind.fqn}, half, renders).Ok?
    ensures CutBelow(m, f, bound, seen, half, renders)
         == Cut(m, m.messages[f.kind.fqn].fields, Under(bound, f.name), seen + {f.kind.fqn}, half, renders)
  {
    hide Remaining, OfField, Under, Cut;
  }

  lemma CutFromBelow(m: Model, fs: seq<Field>, bound: set<Path>, seen: set<string>, half: Half, renders: Field -> bool)
    requires BelowCuts(m, fs, bound, seen, half, renders)
    ensures Cuts(m, fs, Cut(m, fs, bound, seen, half, renders))
  {
    hide Remaining, OfField, Under, Cut, CutBelow, Walks, DistinctNames, Opens, Meets, Above;
    var c := Cut(m, fs, bound, seen, half, renders);
    forall p, q | p in c && q in c && p <= q
      ensures p == q
    {
      CutPrefixFree(m, fs, bound, seen, half, renders, p, q);
    }
    forall p | p in c
      ensures Walks(m, fs, p)
    {
      CutWalks(m, fs, bound, seen, half, renders, p);
    }
    forall p | Walks(m, fs, p)
      ensures Meets(c, p) || Above(c, p)
    {
      CutMeets(m, fs, bound, seen, half, renders, p);
    }
  }

  /** In a prefix-free set a path meets one member only, and then names no container of one. */
  lemma MeetsOne(c: set<Path>, p: Path)
    requires PrefixFree(c)
    ensures forall q, r :: q in c && r in c && q <= p && r <= p ==> q == r
    ensures !(Meets(c, p) && Above(c, p))
  {
    forall q, r | q in c && r in c && q <= p && r <= p
      ensures q == r
    {
      assert q == p[..|q|] && r == p[..|r|];
      assert |q| <= |r| ==> q == r[..|q|];
      assert |r| <= |q| ==> r == q[..|r|];
    }
    if Meets(c, p) && Above(c, p) {
      var q :| q in c && q <= p;
      var r :| r in c && p < r;
      PrefixOn(q, p, r);
    }
  }

  /** A path that nothing can go on from is above no path that walks. */
  lemma {:induction false} LeafEnds(m: Model, fs: seq<Field>, p: Path, q: Path)
    requires Walks(m, fs, p) && Walks(m, fs, q) && p < q
    ensures Enterable(m, Leaf(m, fs, p))
    decreases |p|
  {
    assert p[0] == q[0];
    if |p| > 1 {
      assert p[1..] < q[1..];
      LeafEnds(m, m.messages[FieldByName(fs, p[0]).value.kind.fqn].fields, p[1..], q[1..]);
    }
  }

  /** Every path from the request to a leaf meets exactly one member of a cut. */
  lemma LeafMeetsOne(m: Model, fs: seq<Field>, c: set<Path>, p: Path)
    requires Cuts(m, fs, c) && Walks(m, fs, p) && !Enterable(m, Leaf(m, fs, p))
    ensures exists q :: q in c && q <= p && forall r :: r in c && r <= p ==> r == q
  {
    hide Walks, Enterable, Leaf;
    if Above(c, p) {
      var q :| q in c && p < q;
      LeafEnds(m, fs, p, q);
    }
    MeetsOne(c, p);
    var q :| q in c && q <= p;
  }

  lemma PrefixOn(q: Path, p: Path, r: Path)
    requires q <= p && p < r
    ensures q <= r && q != r
  {
  }

  /** The binding of a request is an exact cut exactly when the bound paths are prefix-free. */
  lemma CutIffPrefixFree(m: Model, req: string, bound: set<Path>, half: Half, renders: Field -> bool)
    requires NamesDistinct(m) && req in m.messages && AllWalk(m, m.messages[req].fields, bound)
    requires Remaining(m, m.messages[req].fields, bound, {req}, half, renders).Ok?
    ensures Cuts(m, m.messages[req].fields, Cut(m, m.messages[req].fields, bound, {req}, half, renders))
       <==> PrefixFree(bound)
  {
    hide Remaining, Walks;
    var fs := m.messages[req].fields;
    if PrefixFree(bound) {
      CutIsExact(m, fs, bound, {req}, half, renders);
    } else {
      var p, q :| p in bound && q in bound && p <= q && p != q;
      BoundInCut(m, fs, bound, {req}, half, renders, p);
      BoundInCut(m, fs, bound, {req}, half, renders, q);
    }
  }

  ghost predicate NoRepeats(ps: seq<Path>)
  {
    forall i, j :: 0 <= i < j < |ps| ==> ps[i] != ps[j]
  }

  /** No remaining path is listed twice. */
  lemma {:induction false} RemainingOnce(m: Model, fs: seq<Field>, bound: set<Path>, seen: set<string>, half: Half,
                                         renders: Field -> bool)
    requires NamesDistinct(m) && DistinctNames(fs) && Remaining(m, fs, bound, seen, half, renders).Ok?
    ensures NoRepeats(Remaining(m, fs, bound, seen, half, renders).value)
    decreases m.messages.Keys - seen, |fs|
  {
    hide Under, OfField;
    if fs != [] {
      var f := fs[0];
      FieldOnce(m, f, bound, seen, half, renders);
      var here := OfField(m, f, bound, seen, half, renders).value;
      var rest := Remaining(m, fs[1..], bound, seen, half, renders).value;
      assert DistinctNames(fs[1..]);
      RemainingOnce(m, fs[1..], bound, seen, half, renders);
      forall i, j | 0 <= i < |here| && 0 <= j < |rest|
        ensures here[i] != rest[j]
      {
        HeadsApart(m, fs, bound, seen, half, renders, here[i], rest[j]);
      }
    }
  }

  lemma HeadsApart(m: Model, fs: seq<Field>, bound: set<Path>, seen: set<string>, half: Half, renders: Field -> bool,
                   p: Path, q: Path)
    requires DistinctNames(fs) && fs != [] && Remaining(m, fs, bound, seen, half, renders).Ok?
    requires p in OfField(m, fs[0], bound, seen, half, renders).value
    requires q in Remaining(m, fs[1..], bound, seen, half, renders).value
    ensures p != q
  {
    hide OfField, Under;
    RemainingParts(m, fs[1..], bound, seen, half, renders);
    var j :| 0 <= j < |fs[1..]| && q in OfField(m, fs[1..][j], bound, seen, half, renders).value;
    OfFieldHeads(m, fs[0], bound, seen, half, renders, p);
    OfFieldHeads(m, fs[1..][j], bound, seen, half, renders, q);
    assert fs[1..][j] == fs[j + 1];
  }

  lemma {:induction false} FieldOnce(m: Model, f: Field, bound: set<Path>, seen: set<string>, half: Half,
                                     renders: Field -> bool)
    requires NamesDistinct(m) && OfField(m, f, bound, seen, half, renders).Ok?
    ensures NoRepeats(OfField(m, f, bound, seen, half, renders).value)
    decreases m.messages.Keys - seen, 0
  {
    hide Remaining, Under;
    if Opens(m, f, bound) {
      OpensIs(m, f, bound, seen, half, renders);
      SeenGrows(m, seen, f.kind.fqn);
      RemainingOnce(m, m.messages[f.kind.fqn].fields, Under(bound, f.name), seen + {f.kind.fqn}, half, renders);
      var below :=
          Remaining(m, m.messages[f.kind.fqn].fields, Under(bound, f.name), seen + {f.kind.fqn}, half, renders).value;
      var all := Prefixed(f.name, below);
      forall i, j | 0 <= i < j < |all|
        ensures all[i] != all[j]
      {
        assert all[i][1..] == below[i] && all[j][1..] == below[j];
      }
    }
  }

  // ---- When the descent succeeds ----

  /** The containers of p come back to a message already on the way. */
  predicate Revisits(m: Model, fs: seq<Field>, p: Path, seen: set<string>)
    requires Walks(m, fs, p)
    decreases |p|
  {
    |p| > 1
    && var sub := FieldByName(fs, p[0]).value.kind.fqn;
       sub in seen || Revisits(m, m.messages[sub].fields, p[1..], seen + {sub})
  }

  /** The body's descent ends, and fails exactly when the containers of a bound path come back to themselves. */
  lemma {:induction false} BodyOkIff(m: Model, fs: seq<Field>, bound: set<Path>, seen: set<string>,
                                     renders: Field -> bool)
    requires NamesDistinct(m) && DistinctNames(fs) && PrefixFree(bound) && AllWalk(m, fs, bound)
    requires forall f :: renders(f)
    ensures Remaining(m, fs, bound, seen, Body, renders).Ok? <==> forall p :: p in bound ==> !Revisits(m, fs, p, seen)
    decreases m.messages.Keys - seen
  {
    hide Remaining, OfField, Under, Walks, Revisits, DistinctNames, PrefixFree, Prefixed;
    OkIffParts(m, fs, bound, seen, Body, renders);
    forall i | 0 <= i < |fs|
      ensures OfField(m, fs[i], bound, seen, Body, renders).Ok? <==>
                forall p :: p in bound && Heads(p, fs[i].name) ==> !Revisits(m, fs, p, seen)
    {
      var f := fs[i];
      FoundByName(fs, i);
      if Opens(m, f, bound) {
        UnderPrefixFree(bound, f.name);
        UnderWalks(m, fs, bound, f);
        if f.kind.fqn !in seen {
          SeenGrows(m, seen, f.kind.fqn);
          BodyOkIff(m, m.messages[f.kind.fqn].fields, Under(bound, f.name), seen + {f.kind.fqn}, renders);
        }
      }
      FieldOkIff(m, fs, f, bound, seen, renders);
    }
    forall p | p in bound
      ensures exists i :: 0 <= i < |fs| && Heads(p, fs[i].name)
    {
      HeadOf(m, fs, p);
      var i := FoundAt(fs, p[0]);
    }
  }

  predicate Heads(p: Path, name: string)
  {
    p != [] && p[0] == name
  }

  lemma HeadOf(m: Model, fs: seq<Field>, p: Path)
    requires Walks(m, fs, p)
    ensures p != [] && FieldByName(fs, p[0]).Some?
  {
  }

  lemma {:induction false} OkIffParts(m: Model, fs: seq<Field>, bound: set<Path>, seen: set<string>, half: Half,
                                      renders: Field -> bool)
    ensures Remaining(m, fs, bound, seen, half, renders).Ok? <==>
              forall i :: 0 <= i < |fs| ==> OfField(m, fs[i], bound, seen, half, renders).Ok?
    decreases |fs|
  {
    hide OfField;
    if fs != [] {
      OkIffParts(m, fs[1..], bound, seen, half, renders);
      assert forall i :: 0 < i < |fs| ==> fs[i] == fs[1..][i - 1];
      assert forall i :: 0 <= i < |fs[1..]| ==> fs[1..][i] == fs[i + 1];
    }
  }

  lemma FieldOkIff(m: Model, fs: seq<Field>, f: Field, bound: set<Path>, seen: set<string>, renders: Field -> bool)
    requires PrefixFree(bound) && AllWalk(m, fs, bound) && FieldByName(fs, f.name) == Some(f)
    requires forall g :: renders(g)
    requires Opens(m, f, bound) ==> Enterable(m, f) && AllWalk(m, m.messages[f.kind.fqn].fields, Under(bound, f.name))
    requires Opens(m, f, bound) && f.kind.fqn !in seen ==>
               (Remaining(m, m.messages[f.kind.fqn].fields, Under(bound, f.name), seen + {f.kind.fqn}, Body,
                   renders).Ok? <==>
                 forall p :: p in Under(bound, f.name) ==>
                     !Revisits(m, m.messages[f.kind.fqn].fields, p, seen + {f.kind.fqn}))
    ensures OfField(m, f, bound, seen, Body, renders).Ok? <==>
              forall p :: p in bound && Heads(p, f.name) ==> !Revisits(m, fs, p, seen)
  {
    hide Remaining, Under, Prefixed;
    if Opens(m, f, bound) {
      forall p | p in bound && Heads(p, f.name)
        ensures |p| > 1 && p[1..] in Under(bound, f.name)
        ensures Revisits(m, fs, p, seen) <==>
                  f.kind.fqn in seen || Revisits(m, m.messages[f.kind.fqn].fields, p[1..], seen + {f.kind.fqn})
      {
        UnderHas(bound, f.name, p[1..]);
        assert p == [f.name] + p[1..];
        assert |p| == 1 ==> p == [f.name];
      }
      forall q | q in Under(bound, f.name)
        ensures [f.name] + q in bound && ([f.name] + q)[1..] == q && Heads([f.name] + q, f.name)
      {
        UnderHas(bound, f.name, q);
      }
      var q :| q in Under(bound, f.name);
      assert [f.name] + q in bound;
    } else {
      forall p | p in bound && Heads(p, f.name)
        ensures !Revisits(m, fs, p, seen)
      {
        UnderHas(bound, f.name, p[1..]);
        assert p == [f.name] + p[1..];
        assert [f.name] <= p;
      }
    }
  }

  /** Query parameters are the paths the body would take, where each can be flat. */
  lemma {:induction false} QueryIsBody(m: Model, fs: seq<Field>, bound: set<Path>, seen: set<string>,
                                       renders: Field -> bool)
    requires Remaining(m, fs, bound, seen, Query, renders).Ok?
    ensures Remaining(m, fs, bound, seen, Query, renders) == Remaining(m, fs, bound, seen, Body, renders)
    decreases m.messages.Keys - seen, |fs|
  {
    hide Under, Prefixed, Unflat;
    if fs != [] {
      var f := fs[0];
      if Opens(m, f, bound) {
        QueryIsBody(m, m.messages[f.kind.fqn].fields, Under(bound, f.name), seen + {f.kind.fqn}, renders);
      }
      QueryIsBody(m, fs[1..], bound, seen, renders);
    }
  }

  // ---- The descents ----

  /** The state one level carries down: what stays bound, the prefix of its names, the messages on this chain. */
  datatype Descent = Descent(bound: set<Path>, prefix: Path, seen: set<string>)

  function From(prefix: Path, ps: seq<Path>): (r: seq<Path>)
    ensures |r| == |ps| && forall k :: 0 <= k < |ps| ==> r[k] == prefix + ps[k]
  {
    seq(|ps|, k requires 0 <= k < |ps| => prefix + ps[k])
  }

  lemma FromConcat(prefix: Path, a: seq<Path>, b: seq<Path>)
    ensures From(prefix, a + b) == From(prefix, a) + From(prefix, b)
  {
  }

  lemma FromPrefixed(prefix: Path, name: string, ps: seq<Path>)
    ensures From(prefix + [name], ps) == From(prefix, Prefixed(name, ps))
  {
    var a, b := From(prefix + [name], ps), From(prefix, Prefixed(name, ps));
    forall k | 0 <= k < |ps|
      ensures a[k] == b[k]
    {
      assert prefix + [name] + ps[k] == prefix + ([name] + ps[k]);
    }
    hide From, Prefixed;
  }

  /** into: the message a container holds, and the state for descending into it. */
  method Into(m: Model, d: Descent, f: Field, below: set<Path>) returns (r: Result<(MessageInfo, Descent), Error>)
    ensures f.kind.ScalarKind? || f.kind.fqn !in m.messages ==> r == Err(NotInImage(f.name))
    ensures !f.kind.ScalarKind? && f.kind.fqn in m.messages && f.kind.fqn in d.seen ==> r == Err(Recursive(f.kind.fqn))
    ensures !f.kind.ScalarKind? && f.kind.fqn in m.messages && f.kind.fqn !in d.seen ==>
              r == Ok((m.messages[f.kind.fqn], Descent(below, d.prefix + [f.name], d.seen + {f.kind.fqn})))
  {
    if f.kind.ScalarKind? || f.kind.fqn !in m.messages {
      return Err(NotInImage(f.name));
    }
    if f.kind.fqn in d.seen {
      return Err(Recursive(f.kind.fqn));
    }
    r := Ok((m.messages[f.kind.fqn], Descent(below, d.prefix + [f.name], d.seen + {f.kind.fqn})));
  }

  /** queryParams: the names of the query parameters, in order. */
  method QueryParams(m: Model, mi: MessageInfo, d: Descent, renders: Field -> bool)
    returns (r: Result<seq<Path>, Error>)
    ensures r == FromAll(d.prefix, Remaining(m, mi.fields, d.bound, d.seen, Query, renders))
    decreases m.messages.Keys - d.seen
  {
    hide Remaining, Under, From, Prefixed, Unflat;
    var fs := mi.fields;
    var out: seq<Path> := [];
    var i := 0;
    assert fs[0..] == fs;
    JoinNone(FromAll(d.prefix, Remaining(m, fs, d.bound, d.seen, Query, renders)));
    while i < |fs|
      invariant i <= |fs|
      invariant FromAll(d.prefix, Remaining(m, fs, d.bound, d.seen, Query, renders))
             == Join(out, FromAll(d.prefix, Remaining(m, fs[i..], d.bound, d.seen, Query, renders)))
    {
      var f := fs[i];
      RemainingNext(m, fs, i, out, d, Query, renders);
      if [f.name] in d.bound {
        i := i + 1;
        continue;
      }
      var below := Under(d.bound, f.name);
      if below != {} {
        var sub := Into(m, d, f, below);
        if sub.Err? {
          return Err(sub.error);
        }
        SeenGrows(m, d.seen, f.kind.fqn);
        var nested := QueryParams(m, sub.value.0, sub.value.1, renders);
        if nested.Err? {
          return Err(nested.error);
        }
        FromPrefixed(d.prefix, f.name, Remaining(m, sub.value.0.fields, below, sub.value.1.seen, Query, renders).value);
        out := out + nested.value;
        i := i + 1;
        continue;
      }
      if Unflat(m, f) {
        return Err(MessageTyped(f.name));
      }
      if !renders(f) {
        return Err(NoSchema(f.name));
      }
      out := out + [d.prefix + [f.name]];
      i := i + 1;
    }
    RemainingEnd(m, fs, i, out, d, Query, renders);
    r := Ok(out);
  }

  function FromAll(prefix: Path, r: Result<seq<Path>, Error>): Result<seq<Path>, Error>
  {
    match r
    case Err(e) => Err(e)
    case Ok(ps) => Ok(From(prefix, ps))
  }

  function Join(out: seq<Path>, r: Result<seq<Path>, Error>): Result<seq<Path>, Error>
  {
    match r
    case Err(e) => Err(e)
    case Ok(ps) => Ok(out + ps)
  }

  lemma JoinNone(r: Result<seq<Path>, Error>)
    ensures Join([], r) == r
  {
    assert r.Ok? ==> [] + r.value == r.value;
  }

  lemma RemainingNext(m: Model, fs: seq<Field>, i: nat, out: seq<Path>, d: Descent, half: Half, renders: Field -> bool)
    requires i < |fs|
    ensures Join(out, FromAll(d.prefix, Remaining(m, fs[i..], d.bound, d.seen, half, renders)))
         == match OfField(m, fs[i], d.bound, d.seen, half, renders)
            case Err(e) => Err(e)
            case Ok(here) =>
              Join(out + From(d.prefix, here),
                  FromAll(d.prefix, Remaining(m, fs[i + 1..], d.bound, d.seen, half, renders)))
    ensures out + [] == out && From(d.prefix, []) == [] && From(d.prefix, [[fs[i].name]]) == [d.prefix + [fs[i].name]]
  {
    hide OfField;
    assert fs[i..][0] == fs[i] && fs[i..][1..] == fs[i + 1..];
    var f := OfField(m, fs[i], d.bound, d.seen, half, renders);
    var rest := Remaining(m, fs[i + 1..], d.bound, d.seen, half, renders);
    if f.Ok? && rest.Ok? {
      FromConcat(d.prefix, f.value, rest.value);
      assert out + (From(d.prefix, f.value) + From(d.prefix, rest.value))
          == out + From(d.prefix, f.value) + From(d.prefix, rest.value);
    }
  }

  lemma RemainingEnd(m: Model, fs: seq<Field>, i: nat, out: seq<Path>, d: Descent, half: Half, renders: Field -> bool)
    requires i == |fs|
    ensures Join(out, FromAll(d.prefix, Remaining(m, fs[i..], d.bound, d.seen, half, renders))) == Ok(out)
  {
    assert fs[i..] == [];
    assert From(d.prefix, []) == [];
    assert out + [] == out;
  }

  /** An inlined body: properties with their schemas, or containers inlined in turn. */
  datatype Property = Rendered(name: string) | Inlined(name: string, props: seq<Property>)

  /** The field paths a body takes. */
  function TreePaths(props: seq<Property>): seq<Path>
    decreases props
  {
    if props == [] then [] else PathsOf(props[0]) + TreePaths(props[1..])
  }

  function PathsOf(p: Property): seq<Path>
    decreases p
  {
    match p
    case Rendered(name) => [[name]]
    case Inlined(name, props) => Prefixed(name, TreePaths(props))
  }

  lemma {:induction false} TreePathsMore(props: seq<Property>, p: Property)
    ensures TreePaths(props + [p]) == TreePaths(props) + PathsOf(p)
    decreases props
  {
    hide PathsOf;
    if props == [] {
      assert props + [p] == [p];
      assert [p][1..] == [];
    } else {
      TreePathsMore(props[1..], p);
      assert (props + [p])[1..] == props[1..] + [p];
      assert PathsOf(props[0]) + (TreePaths(props[1..]) + PathsOf(p))
               == PathsOf(props[0]) + TreePaths(props[1..]) + PathsOf(p);
    }
  }

  function TakenBy(r: Result<seq<Property>, Error>): Result<seq<Path>, Error>
  {
    match r
    case Err(e) => Err(e)
    case Ok(props) => Ok(TreePaths(props))
  }

  /** bodyObject: a message inlined minus what is bound below it. */
  method BodyObject(m: Model, mi: MessageInfo, d: Descent, renders: Field -> bool)
    returns (r: Result<seq<Property>, Error>)
    ensures TakenBy(r) == Remaining(m, mi.fields, d.bound, d.seen, Body, renders)
    decreases m.messages.Keys - d.seen
  {
    hide Remaining, Under, From, Prefixed, TreePaths;
    var fs := mi.fields;
    var props: seq<Property> := [];
    var i := 0;
    ghost var top := Descent(d.bound, [], d.seen);
    assert fs[0..] == fs;
    TreeNone(Remaining(m, fs, d.bound, d.seen, Body, renders));
    while i < |fs|
      invariant i <= |fs|
      invariant Remaining(m, fs, d.bound, d.seen, Body, renders)
             == Join(TreePaths(props), FromAll([], Remaining(m, fs[i..], d.bound, d.seen, Body, renders)))
    {
      var f := fs[i];
      RemainingNext(m, fs, i, TreePaths(props), top, Body, renders);
      if [f.name] in d.bound {
        i := i + 1;
        continue;
      }
      var ps;
      var below := Under(d.bound, f.name);
      if below != {} {
        var sub := Into(m, d, f, below);
        if sub.Err? {
          return Err(sub.error);
        }
        SeenGrows(m, d.seen, f.kind.fqn);
        var nested := BodyObject(m, sub.value.0, sub.value.1, renders);
        if nested.Err? {
          return Err(nested.error);
        }
        ps := Inlined(f.name, nested.value);
      } else {
        if !renders(f) {
          return Err(NoSchema(f.name));
        }
        ps := Rendered(f.name);
      }
      FromNothing(PathsOf(ps));
      FromNothing(OfField(m, f, d.bound, d.seen, Body, renders).value);
      TreePathsMore(props, ps);
      props := props + [ps];
      i := i + 1;
    }
    RemainingEnd(m, fs, i, TreePaths(props), top, Body, renders);
    r := Ok(props);
  }

  lemma FromNothing(ps: seq<Path>)
    ensures From([], ps) == ps
  {
    forall k | 0 <= k < |ps|
      ensures [] + ps[k] == ps[k]
    {
    }
  }

  lemma TreeNone(r: Result<seq<Path>, Error>)
    ensures TreePaths([]) == [] && Join([], FromAll([], r)) == r
  {
    if r.Ok? {
      FromNothing(r.value);
      assert [] + r.value == r.value;
    }
  }
}
