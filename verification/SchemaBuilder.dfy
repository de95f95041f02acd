/** The components of an OpenAPI document, emitted depth first with reserved slots
  * (internal/openapi/schemas.go:24-103,143-391). */
module SchemaBuilder {
  import opened Options
  import opened ApiModel
  import opened Lexical

  /** A nil component is a reserved slot. */
  type Components = map<string, Option<Schema>>

  /** An element reachable from fqn that has no schema: unknown, or of an unmappable type. */
  ghost predicate Blocked(m: Model, fqn: string)
  {
    exists x :: Reaches(m, fqn, x) && SchemaFor(m, x).None?
  }

  lemma BlockedSelf(m: Model, fqn: string)
    requires SchemaFor(m, fqn).None?
    ensures Blocked(m, fqn)
  {
    ReachesSelf(m, fqn);
  }

  lemma BlockedAfter(m: Model, a: string, b: string)
    requires b in RefsFrom(m, a) && Blocked(m, b)
    ensures Blocked(m, a)
  {
    hide RefsFrom, SchemaFor;
    var x :| Reaches(m, b, x) && SchemaFor(m, x).None?;
    ReachesAfter(m, a, b, x);
  }

  /** What was there stays as it was; what is new is complete, and refers to what is there. */
  ghost predicate Extends(m: Model, was: Components, out: Components)
  {
    && (forall k :: k in was ==> k in out && out[k] == was[k])
    && forall k :: k in out && k !in was ==>
         SchemaFor(m, k).Some? && out[k] == SchemaFor(m, k) && RefsFrom(m, k) <= out.Keys
  }

  /** Every new component is reachable from one of the roots. */
  ghost predicate NewFrom(m: Model, was: Components, out: Components, roots: set<string>)
  {
    forall k :: k in out && k !in was ==> exists r :: r in roots && Reaches(m, r, k)
  }

  lemma ExtendsSelf(m: Model, out: Components)
    ensures Extends(m, out, out) && NewFrom(m, out, out, {})
  {
  }

  lemma ExtendsOn(m: Model, a: Components, b: Components, c: Components, r: set<string>, s: set<string>)
    requires Extends(m, a, b) && Extends(m, b, c) && NewFrom(m, a, b, r) && NewFrom(m, b, c, s)
    ensures Extends(m, a, c) && NewFrom(m, a, c, r + s)
  {
    hide SchemaFor, RefsFrom, Reaches;
    forall k | k in c && k !in a
      ensures exists x :: x in r + s && Reaches(m, x, k)
    {
      if k in b {
        var x :| x in r && Reaches(m, x, k);
        assert x in r + s;
      } else {
        var x :| x in s && Reaches(m, x, k);
        assert x in r + s;
      }
    }
  }

  lemma NewFromMore(m: Model, was: Components, out: Components, r: set<string>, s: set<string>)
    requires NewFrom(m, was, out, r) && r <= s
    ensures NewFrom(m, was, out, s)
  {
    hide Reaches;
  }

  /** Filling the slot reserved for fqn, once what its schema refers to is there. */
  lemma ExtendsFilled(m: Model, was: Components, inside: Components, fqn: string)
    requires fqn !in was && SchemaFor(m, fqn).Some?
    requires Extends(m, was[fqn := None], inside) && NewFrom(m, was[fqn := None], inside, RefsFrom(m, fqn))
    requires RefsFrom(m, fqn) <= inside.Keys
    ensures var out := inside[fqn := SchemaFor(m, fqn)]; Extends(m, was, out) && NewFrom(m, was, out, {fqn})
  {
    hide SchemaFor, RefsFrom;
    var out := inside[fqn := SchemaFor(m, fqn)];
    ReachesSelf(m, fqn);
    forall k | k in out && k !in was
      ensures Reaches(m, fqn, k)
    {
      if k != fqn {
        var r :| r in RefsFrom(m, fqn) && Reaches(m, r, k);
        ReachesAfter(m, fqn, r, k);
      }
    }
    hide Reaches;
    assert forall k :: k in was ==> k in was[fqn := None] && was[fqn := None][k] == was[k];
    assert inside.Keys <= out.Keys;
  }

  /** The elements that have no slot yet. */
  function Left(m: Model, out: Components): set<string>
  {
    (m.aliases.Keys + m.messages.Keys + m.enums.Keys) - out.Keys
  }

  lemma SchemaIsKnown(m: Model, fqn: string)
    requires !Known(m, fqn)
    ensures SchemaFor(m, fqn).None?
  {
  }

  class Builder {
    const m: Model
    var out: Components

    constructor (m: Model)
      ensures this.m == m && out == map[]
    {
      this.m := m;
      out := map[];
    }

    /** component: emits fqn and all it refers to, unless done or under way; fails exactly when it must. */
    method Component(fqn: string) returns (ok: bool)
      modifies this`out
      ensures ok ==> Extends(m, old(out), out) && NewFrom(m, old(out), out, {fqn}) && fqn in out
      ensures !ok ==> Blocked(m, fqn)
      decreases Left(m, out), 0
    {
      hide SchemaFor, Extends, NewFrom, Blocked, RefsIn, AliasSchemaOf, PropertiesOf;
      if fqn in out {
        ExtendsSelf(m, out);
        NewFromMore(m, out, out, {}, {fqn});
        return true;
      }
      ghost var was := out;
      out := out[fqn := None];
      if !Known(m, fqn) {
        SchemaIsKnown(m, fqn);
        BlockedSelf(m, fqn);
        out := out - {fqn};
        return false;
      }
      LeftShrinks(m, was, fqn);
      SchemaForIs(m, fqn);
      var s;
      if fqn in m.aliases {
        s := AliasSchema(m.aliases[fqn]);
      } else if fqn in m.messages {
        s := MessageSchema(m.messages[fqn]);
      } else {
        s := Some(Flat(fqn, false));
        RenderedFlat(m, out);
      }
      if s.None? {
        StuckBlocks(m, fqn);
        out := out - {fqn};
        return false;
      }
      ExtendsFilled(m, was, out, fqn);
      out := out[fqn := s];
      ok := true;
    }

    /** buildAll: every element of the user's schema that the filter admits, in the order of their names. */
    method BuildAll(admits: string -> bool) returns (ok: bool)
      requires out == map[]
      modifies this`out
      ensures ok ==> Complete(m, out, Roots(m, admits))
      ensures ok <==> forall x :: UserElement(m, x) && admits(x) ==> !Blocked(m, x)
    {
      hide Complete, Blocked, Ascending, Orders, Before;
      var users := Roots(m, admits);
      BeforeOrders();
      var fqns := Sorted(users, Before);
      NothingIsComplete(m);
      ok := ComponentAll(fqns, {});
      assert ok ==> {} + AsSet(fqns) == users;
    }

    /** Several components, one after the other: those of buildAll, or those the operations refer to. */
    method ComponentAll(fqns: seq<string>, ghost roots: set<string>) returns (ok: bool)
      requires Complete(m, out, roots)
      modifies this`out
      ensures ok ==> Complete(m, out, roots + AsSet(fqns))
      ensures ok <==> forall x :: x in fqns ==> !Blocked(m, x)
    {
      hide Complete, Blocked, Extends, NewFrom;
      var i := 0;
      assert roots + AsSet(fqns[..0]) == roots;
      while i < |fqns|
        invariant i <= |fqns|
        invariant Complete(m, out, roots + AsSet(fqns[..i]))
        invariant forall x :: x in fqns[..i] ==> !Blocked(m, x)
      {
        ghost var was := out;
        assert fqns[..i + 1] == fqns[..i] + [fqns[i]];
        assert fqns[i] in fqns;
        ok := Component(fqns[i]);
        if !ok {
          return;
        }
        CompleteMore(m, was, out, roots + AsSet(fqns[..i]), {fqns[i]});
        assert roots + AsSet(fqns[..i]) + {fqns[i]} == roots + AsSet(fqns[..i + 1]);
        i := i + 1;
      }
      assert fqns[..i] == fqns;
      ok := true;
    }

    /** aliasSchema and baseSchema: a primitive or well-known base inline, a named one by reference. */
    method AliasSchema(a: AliasInfo) returns (s: Option<Schema>)
      modifies this`out
      ensures s.Some? ==> s == AliasSchemaOf(m, a) && Rendered(m, old(out), out, s)
      ensures s.None? ==> Stuck(m, AliasSchemaOf(m, a))
      decreases Left(m, out), 2
    {
      hide Extends, NewFrom, Blocked, Wkt, IsPrimitive, RefsIn;
      RenderedFlat(m, out);
      RefsOfRef(a.base);
      if IsPrimitive(a.base) {
        return Some(Flat(a.base, false));
      }
      if Wkt(a.base) {
        return Some(WktSchema(a.base));
      }
      if !Known(m, a.base) {
        return None;
      }
      var ok := Component(a.base);
      if !ok {
        StuckAt(m, AliasSchemaOf(m, a), a.base);
        return None;
      }
      s := Some(if a.keywords then AllOf(Ref(a.base)) else Ref(a.base));
    }

    /** typeSchema. */
    method TypeSchema(kind: Kind) returns (s: Option<Schema>)
      modifies this`out
      ensures s.Some? ==> s == TypeSchemaOf(kind) && Rendered(m, old(out), out, s)
      ensures s.None? ==> Stuck(m, TypeSchemaOf(kind))
      decreases Left(m, out), 2
    {
      hide Extends, NewFrom, Blocked, Wkt, IsPrimitive;
      RenderedFlat(m, out);
      match kind {
        case ScalarKind(name) => s := if IsPrimitive(name) then Some(Flat(name, false)) else None;
        case GroupKind(_) => s := None;
        case MessageKind(fqn) =>
          if Wkt(fqn) {
            return Some(WktSchema(fqn));
          }
          s := Reference(fqn);
        case EnumKind(fqn) => s := Reference(fqn);
      }
    }

    /** A $ref, its component forced. */
    method Reference(fqn: string) returns (s: Option<Schema>)
      modifies this`out
      ensures s.Some? ==> s == Some(Ref(fqn)) && Rendered(m, old(out), out, s)
      ensures s.None? ==> Stuck(m, Some(Ref(fqn)))
      decreases Left(m, out), 1
    {
      hide Extends, NewFrom, Blocked, RefsIn;
      RefsOfRef(fqn);
      var ok := Component(fqn);
      if !ok {
        StuckAt(m, Some(Ref(fqn)), fqn);
        return None;
      }
      s := Some(Ref(fqn));
    }

    /** propertySchema: a map by its values, a repeated field by its elements, any other by its type or alias. */
    method PropertySchema(f: Field) returns (s: Option<Schema>)
      modifies this`out
      ensures s.Some? ==> s == PropertyOf(m, f) && Rendered(m, old(out), out, s)
      ensures s.None? ==> Stuck(m, PropertyOf(m, f))
      decreases Left(m, out), 4
    {
      hide Extends, NewFrom, Blocked, TypeSchemaOf, RefsIn, Wrapped, ElementOf;
      StuckProperty(m, f);
      var core;
      if IsMapField(m, f) {
        core := TypeSchema(m.messages[f.kind.fqn].mapValue);
        if core.None? {
          return None;
        }
        RefsWrapped(core.value, f);
        core := Some(MapOf(core.value));
      } else {
        core := Element(f);
        if core.None? {
          return None;
        }
        RefsWrapped(core.value, f);
        if f.repeated {
          core := Some(ArrayOf(core.value));
        }
      }
      RefsWrapped(core.value, f);
      s := Some(Wrapped(core.value, f));
    }

    /** elementSchema and singularSchema. */
    method Element(f: Field) returns (s: Option<Schema>)
      modifies this`out
      ensures s.Some? ==> s == ElementOf(f) && Rendered(m, old(out), out, s)
      ensures s.None? ==> Stuck(m, ElementOf(f))
      decreases Left(m, out), 3
    {
      if f.chain != [] {
        s := Reference(f.chain[|f.chain| - 1]);
      } else {
        s := TypeSchema(f.kind);
      }
    }

    /** messageSchema: the properties in their order. */
    method MessageSchema(mi: MessageInfo) returns (s: Option<Schema>)
      modifies this`out
      ensures s.Some? ==> s == ObjectFor(m, mi) && Rendered(m, old(out), out, s)
      ensures s.None? ==> Stuck(m, ObjectFor(m, mi))
      decreases Left(m, out), 5
    {
      hide Extends, NewFrom, Blocked, PropertyOf, RefsIn, RefsInAll, PropertiesOf;
      var props := [];
      var i := 0;
      RenderedNone(m, out);
      assert mi.fields[..0] == [];
      while i < |mi.fields|
        invariant i <= |mi.fields|
        invariant PropertiesOf(m, mi.fields[..i]) == Some(props)
        invariant Rendered(m, old(out), out, Some(ObjectOf(props)))
        invariant Left(m, out) <= Left(m, old(out))
      {
        var f := mi.fields[i];
        ghost var mid := out;
        PropertiesNext(m, mi.fields, i);
        var ps := PropertySchema(f);
        if ps.None? {
          StuckInside(m, mi, i);
          return None;
        }
        RenderedMore(m, old(out), mid, out, props, Property(f.name, ps.value));
        props := props + [Property(f.name, ps.value)];
        i := i + 1;
      }
      assert mi.fields[..i] == mi.fields;
      s := Some(ObjectOf(props));
    }
  }

  /** An element of the user's schema that buildAll emits on its own account. */
  predicate UserElement(m: Model, fqn: string)
  {
    || (fqn in m.messages && !m.messages[fqn].generated && !m.messages[fqn].isEntry)
    || (fqn in m.enums && !m.enums[fqn].generated)
    || (fqn in m.aliases && !m.aliases[fqn].generated)
  }

  function Roots(m: Model, admits: string -> bool): set<string>
  {
    set x | x in (m.messages.Keys + m.enums.Keys + m.aliases.Keys) && UserElement(m, x) && admits(x)
  }

  function AsSet(s: seq<string>): set<string>
  {
    set x | x in s
  }

  /** out holds exactly what the roots lead to, each with its schema; no slot is left reserved. */
  ghost predicate Complete(m: Model, out: Components, roots: set<string>)
  {
    && (forall k :: k in out <==> exists r :: r in roots && Reaches(m, r, k))
    && forall k :: k in out ==> SchemaFor(m, k).Some? && out[k] == SchemaFor(m, k)
  }

  /** Emitting what some further names lead to. */
  lemma CompleteMore(m: Model, was: Components, out: Components, roots: set<string>, more: set<string>)
    requires Complete(m, was, roots)
    requires Extends(m, was, out) && NewFrom(m, was, out, more) && more <= out.Keys
    ensures Complete(m, out, roots + more)
    ensures forall x :: x in more ==> !Blocked(m, x)
  {
    hide SchemaFor, Reaches;
    forall x | x in out
      ensures RefsFrom(m, x) <= out.Keys
    {
      if x in was {
        RefsStay(m, was, roots, x);
      }
    }
    forall k
      ensures k in out <==> exists r :: r in roots + more && Reaches(m, r, k)
    {
      if r :| r in roots + more && Reaches(m, r, k) {
        if r in more {
          InsideOf(m, out.Keys, r, k);
        } else {
          assert k in was;
        }
      }
      if k in out {
        if k in was {
          var r :| r in roots && Reaches(m, r, k);
          assert r in roots + more;
        } else {
          var r :| r in more && Reaches(m, r, k);
          assert r in roots + more;
        }
      }
    }
    forall a, x | a in more && Reaches(m, a, x)
      ensures SchemaFor(m, x).Some?
    {
      InsideOf(m, out.Keys, a, x);
    }
  }

  lemma RefsStay(m: Model, was: Components, roots: set<string>, x: string)
    requires Complete(m, was, roots) && x in was
    ensures RefsFrom(m, x) <= was.Keys
  {
    hide SchemaFor, RefsFrom;
    var r :| r in roots && Reaches(m, r, x);
    forall y | y in RefsFrom(m, x)
      ensures y in was
    {
      ReachesBefore(m, r, x, y);
    }
  }

  lemma ReachesBefore(m: Model, a: string, b: string, c: string)
    requires Reaches(m, a, b) && c in RefsFrom(m, b)
    ensures Reaches(m, a, c)
  {
    hide RefsFrom;
    var p :| RefPath(m, p) && p[0] == a && p[|p| - 1] == b;
    var q := p + [c];
    assert RefPath(m, q) && q[0] == a && q[|q| - 1] == c;
  }

  lemma InsideOf(m: Model, names: set<string>, a: string, b: string)
    requires forall x :: x in names ==> RefsFrom(m, x) <= names
    requires a in names && Reaches(m, a, b)
    ensures b in names
  {
    hide RefsFrom;
    var p :| RefPath(m, p) && p[0] == a && p[|p| - 1] == b;
    ClosedKeeps(m, names, p);
  }

  lemma NothingIsComplete(m: Model)
    ensures Complete(m, map[], {})
  {
  }

  /** Every $ref of a complete document has its component, and the component is not nil. */
  lemma NoDanglingRef(m: Model, out: Components, roots: set<string>, k: string, target: string)
    requires Complete(m, out, roots) && k in out && target in RefsOf(out[k])
    ensures target in out && out[target].Some?
  {
    hide SchemaFor, Reaches;
    RefsStay(m, out, roots, k);
    assert target in RefsFrom(m, k);
  }

  /** messageSchema's result when nothing stops it. */
  function ObjectFor(m: Model, mi: MessageInfo): Option<Schema>
  {
    match PropertiesOf(m, mi.fields)
    case None => None
    case Some(props) => Some(ObjectOf(props))
  }

  /** The components a schema refers to have been emitted, and only what they lead to. */
  ghost predicate Rendered(m: Model, was: Components, out: Components, s: Option<Schema>)
  {
    Extends(m, was, out) && NewFrom(m, was, out, RefsOf(s)) && RefsOf(s) <= out.Keys
  }

  /** There is no such schema, or something it refers to is blocked. */
  ghost predicate Stuck(m: Model, s: Option<Schema>)
  {
    s.None? || exists x :: x in RefsOf(s) && Blocked(m, x)
  }

  lemma StuckAt(m: Model, s: Option<Schema>, x: string)
    requires x in RefsOf(s) && Blocked(m, x)
    ensures Stuck(m, s)
  {
  }

  /** A field is stuck where its type is. */
  lemma StuckProperty(m: Model, f: Field)
    ensures IsMapField(m, f) && Stuck(m, TypeSchemaOf(m.messages[f.kind.fqn].mapValue)) ==> Stuck(m, PropertyOf(m, f))
    ensures !IsMapField(m, f) && Stuck(m, ElementOf(f)) ==> Stuck(m, PropertyOf(m, f))
  {
    hide Blocked, RefsIn, Wrapped, ElementOf, TypeSchemaOf;
    forall s: Schema
      ensures RefsIn(Wrapped(s, f)) == RefsIn(s) && RefsIn(MapOf(s)) == RefsIn(s) && RefsIn(ArrayOf(s)) == RefsIn(s)
    {
      RefsWrapped(s, f);
    }
  }

  lemma StuckBlocks(m: Model, fqn: string)
    requires Stuck(m, SchemaFor(m, fqn))
    ensures Blocked(m, fqn)
  {
    hide SchemaFor, Blocked;
    if SchemaFor(m, fqn).None? {
      BlockedSelf(m, fqn);
    } else {
      var x :| x in RefsFrom(m, fqn) && Blocked(m, x);
      BlockedAfter(m, fqn, x);
    }
  }

  lemma SchemaForIs(m: Model, fqn: string)
    ensures fqn in m.aliases ==> SchemaFor(m, fqn) == AliasSchemaOf(m, m.aliases[fqn])
    ensures fqn !in m.aliases && fqn in m.messages ==> SchemaFor(m, fqn) == ObjectFor(m, m.messages[fqn])
    ensures fqn !in m.aliases && fqn !in m.messages && fqn in m.enums ==> SchemaFor(m, fqn) == Some(Flat(fqn, false))
  {
  }

  lemma LeftShrinks(m: Model, was: Components, fqn: string)
    requires Known(m, fqn) && fqn !in was
    ensures Left(m, was[fqn := None]) < Left(m, was)
  {
    assert fqn in Left(m, was) && fqn !in Left(m, was[fqn := None]);
  }

  lemma RenderedFlat(m: Model, out: Components)
    ensures forall typ, nullish :: Rendered(m, out, out, Some(Flat(typ, nullish)))
  {
  }

  lemma RenderedNone(m: Model, out: Components)
    ensures Rendered(m, out, out, Some(ObjectOf([]))) && PropertiesOf(m, []) == Some([])
  {
  }

  lemma RenderedMore(m: Model, was: Components, mid: Components, out: Components, props: seq<Property>, p: Property)
    requires Rendered(m, was, mid, Some(ObjectOf(props))) && Rendered(m, mid, out, Some(p.schema))
    ensures Rendered(m, was, out, Some(ObjectOf(props + [p])))
    ensures Left(m, out) <= Left(m, mid)
  {
    RefsInMore(props, p);
    hide NewFrom, SchemaFor;
    ExtendsOn(m, was, mid, out, RefsInAll(props), RefsIn(p.schema));
    assert mid.Keys <= out.Keys;
  }

  lemma PropertiesNext(m: Model, fs: seq<Field>, i: nat)
    requires i < |fs|
    ensures PropertiesOf(m, fs[..i]).Some? && PropertyOf(m, fs[i]).Some? ==>
              PropertiesOf(m, fs[..i + 1])
                  == Some(PropertiesOf(m, fs[..i]).value + [Property(fs[i].name, PropertyOf(m, fs[i]).value)])
  {
    hide PropertyOf;
    assert fs[..i + 1][..i] == fs[..i];
  }

  /** A field that is stuck makes its message stuck. */
  lemma StuckInside(m: Model, mi: MessageInfo, i: nat)
    requires i < |mi.fields| && Stuck(m, PropertyOf(m, mi.fields[i]))
    ensures Stuck(m, ObjectFor(m, mi))
  {
    hide Blocked, PropertyOf;
    PropertyInside(m, mi.fields, i);
  }

  lemma {:induction false} PropertyInside(m: Model, fs: seq<Field>, i: nat)
    requires i < |fs|
    ensures PropertiesOf(m, fs).Some? ==>
              PropertyOf(m, fs[i]).Some? && RefsIn(PropertyOf(m, fs[i]).value) <= RefsInAll(PropertiesOf(m, fs).value)
  {
    hide PropertyOf, RefsIn, RefsInAll;
    var before := fs[..|fs| - 1];
    if PropertiesOf(m, fs).Some? {
      RefsInMore(PropertiesOf(m, before).value, Property(fs[|fs| - 1].name, PropertyOf(m, fs[|fs| - 1]).value));
    }
    if i < |fs| - 1 {
      PropertyInside(m, before, i);
    }
  }
}
