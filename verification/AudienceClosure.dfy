/** Filtering by tier is reference-closed when the check accepts (internal/openapi/audience.go:95-173,
  * internal/openapi/schemas.go:45-103,222-391, internal/openapi/generate.go:80-102). */
module AudienceClosure {
  import opened Options
  import opened ApiModel
  import opened SchemaBuilder
  import opened Audience

  predicate IsEntry(m: Model, x: string)
  {
    x in m.messages && m.messages[x].isEntry
  }

  /** An element of the toolchain's own files. */
  predicate Generated(m: Model, x: string)
  {
    || (x in m.messages && m.messages[x].generated)
    || (x in m.enums && m.enums[x].generated)
    || (x in m.aliases && m.aliases[x].generated)
  }

  /** A name means one kind of element; a map entry is named by its map fields only. */
  ghost predicate WellNamed(m: Model)
  {
    && !Known(m, "")
    && m.messages.Keys !! m.enums.Keys && m.messages.Keys !! m.aliases.Keys && m.enums.Keys !! m.aliases.Keys
    && (forall a, b :: b in RefsFrom(m, a) ==> b != "" && !IsEntry(m, b))
    && forall a, k :: a in m.messages && 0 <= k < |m.messages[a].fields| ==> KindRight(m, m.messages[a].fields[k])
  }

  /** A field that names a map entry is message-typed. */
  predicate KindRight(m: Model, f: Field)
  {
    IsEntry(m, TypeName(f.kind)) ==> f.kind.MessageKind?
  }

  /** The toolchain's elements refer to no user element, and only they are under google.protobuf. */
  ghost predicate ToolchainApart(m: Model)
  {
    && (forall a, b :: Generated(m, a) && b in RefsFrom(m, a) ==> !UserElement(m, b))
    && forall x :: InGoogle(x) ==> !UserElement(m, x)
  }

  /** The check has accepted: no reference to a more restricted element. */
  ghost predicate Accepted(m: Model, rank: string -> int)
  {
    forall e :: IsEdge(m, e) ==> rank(e.to) <= rank(e.from)
  }

  /** A field's references in its property schema are references the check looks at. */
  lemma PropertyRefsTargeted(m: Model, f: Field, x: string)
    requires !Known(m, "") && KindRight(m, f) && PropertyOf(m, f).Some? && x in RefsIn(PropertyOf(m, f).value)
    ensures x in FieldTargets(m, f) || x == ""
  {
    hide Wkt, IsPrimitive, Wrapped, RefsIn;
    var core := CoreOf(m, f).value;
    RefsWrapped(core, f);
    if IsMapField(m, f) {
      var v := TypeSchemaOf(m.messages[f.kind.fqn].mapValue).value;
      RefsWrapped(v, f);
      TypeRefs(m.messages[f.kind.fqn].mapValue, x);
    } else {
      RefsWrapped(ElementOf(f).value, f);
      if f.chain != [] {
        RefsOfRef(f.chain[|f.chain| - 1]);
      } else {
        TypeRefs(f.kind, x);
      }
    }
  }

  lemma TypeRefs(kind: Kind, x: string)
    requires TypeSchemaOf(kind).Some? && x in RefsIn(TypeSchemaOf(kind).value)
    ensures x == TypeName(kind)
  {
    hide Wkt, IsPrimitive;
  }

  lemma {:induction false} PropertiesRefsTargeted(m: Model, fs: seq<Field>, x: string)
    requires !Known(m, "") && forall k :: 0 <= k < |fs| ==> KindRight(m, fs[k])
    requires PropertiesOf(m, fs).Some? && x in RefsInAll(PropertiesOf(m, fs).value)
    ensures x in FieldsTargets(m, fs) || x == ""
  {
    hide PropertyOf, RefsIn, FieldTargets, RefsInAll;
    if fs == [] {
      assert RefsInAll([]) == {} by {
        NoRefs();
      }
    } else {
      var before, last := fs[..|fs| - 1], fs[|fs| - 1];
      RefsInMore(PropertiesOf(m, before).value, Property(last.name, PropertyOf(m, last).value));
      if x in RefsIn(PropertyOf(m, last).value) {
        PropertyRefsTargeted(m, last, x);
      } else {
        PropertiesRefsTargeted(m, before, x);
      }
    }
  }

  lemma NoRefs()
    ensures RefsInAll([]) == {}
  {
  }

  lemma OnlyMessage(m: Model, a: string)
    requires WellNamed(m) && a in m.messages
    ensures a !in m.enums && a !in m.aliases
    ensures UserElement(m, a) ==> !m.messages[a].generated && !m.messages[a].isEntry
  {
    hide RefsFrom;
    assert a in m.messages.Keys;
    assert a !in m.enums.Keys && a !in m.aliases.Keys;
  }

  /** Every reference of a user element's component has been checked, or is to the toolchain. */
  lemma RefsAreEdges(m: Model, a: string, b: string)
    requires WellNamed(m) && UserElement(m, a) && b in RefsFrom(m, a)
    ensures InGoogle(b) || IsEdge(m, Edge(a, b))
  {
    RefsNamed(m, a, b);
    if a in m.aliases {
      AliasRefs(m, a, b);
    } else if a in m.messages {
      OnlyMessage(m, a);
      MessageRefs(m, a, b);
      hide RefsFrom, WellNamed;
      FromMessageIs(m, Edge(a, b));
    }
  }

  lemma RefsNamed(m: Model, a: string, b: string)
    requires WellNamed(m) && b in RefsFrom(m, a)
    ensures b != "" && !IsEntry(m, b) && !Known(m, "")
    ensures a in m.messages ==> forall k :: 0 <= k < |m.messages[a].fields| ==> KindRight(m, m.messages[a].fields[k])
  {
    hide RefsFrom, KindRight, IsEntry;
  }

  lemma AliasRefs(m: Model, a: string, b: string)
    requires WellNamed(m) && UserElement(m, a) && a in m.aliases && b in RefsFrom(m, a)
    ensures AliasEdge(m, Edge(a, b))
  {
    assert a in m.aliases.Keys;
    hide Wkt, IsPrimitive, Known, WellNamed;
    RefsOfRef(m.aliases[a].base);
  }

  lemma MessageRefs(m: Model, a: string, b: string)
    requires a in m.messages && a !in m.aliases && b in RefsFrom(m, a) && b != "" && !Known(m, "")
    requires forall k :: 0 <= k < |m.messages[a].fields| ==> KindRight(m, m.messages[a].fields[k])
    ensures b in FieldsTargets(m, m.messages[a].fields)
  {
    hide PropertiesOf, FieldsTargets, RefsInAll, Known, KindRight;
    PropertiesRefsTargeted(m, m.messages[a].fields, b);
  }

  /** Along references the toolchain is never left, so what leads to a user element is the user's. */
  lemma {:induction false} UserFromUser(m: Model, p: seq<string>, i: nat)
    requires WellNamed(m) && ToolchainApart(m)
    requires RefPath(m, p) && UserElement(m, p[|p| - 1]) && !IsEntry(m, p[0]) && i < |p|
    ensures UserElement(m, p[i])
    decreases |p| - i
  {
    hide SchemaFor;
    if i < |p| - 1 {
      UserFromUser(m, p, i + 1);
      assert p[i + 1] in RefsFrom(m, p[i]);
      NotEntry(m, p, i);
      KindsOf(m, p[i]);
    }
  }

  lemma NotEntry(m: Model, p: seq<string>, i: nat)
    requires WellNamed(m) && RefPath(m, p) && !IsEntry(m, p[0]) && i < |p|
    ensures !IsEntry(m, p[i])
  {
    hide RefsFrom;
    if i > 0 {
      assert p[i] in RefsFrom(m, p[i - 1]);
    }
  }

  /** What refers to something is an element: the user's, the toolchain's, or a map entry. */
  lemma KindsOf(m: Model, a: string)
    ensures UserElement(m, a) || Generated(m, a) || IsEntry(m, a) || RefsFrom(m, a) == {}
  {
  }

  lemma {:induction false} RanksFall(m: Model, rank: string -> int, p: seq<string>, i: nat)
    requires WellNamed(m) && ToolchainApart(m) && Accepted(m, rank)
    requires RefPath(m, p) && UserElement(m, p[|p| - 1]) && !IsEntry(m, p[0]) && i < |p|
    ensures rank(p[i]) <= rank(p[0])
  {
    hide RefsFrom, IsEdge, InGoogle, UserElement;
    if i > 0 {
      RanksFall(m, rank, p, i - 1);
      UserFromUser(m, p, i - 1);
      UserFromUser(m, p, i);
      assert p[i] in RefsFrom(m, p[i - 1]);
      RefsAreEdges(m, p[i - 1], p[i]);
    }
  }

  /** What a visible element leads to is visible, whatever cycles the types have. */
  lemma ReachedVisible(m: Model, rank: string -> int, r: string, k: string)
    requires WellNamed(m) && ToolchainApart(m) && Accepted(m, rank)
    requires !IsEntry(m, r) && Reaches(m, r, k) && UserElement(m, k)
    ensures UserElement(m, r) && rank(k) <= rank(r)
  {
    hide SchemaFor, RefsFrom, UserElement, IsEntry;
    var p :| RefPath(m, p) && p[0] == r && p[|p| - 1] == k;
    UserFromUser(m, p, 0);
    RanksFall(m, rank, p, |p| - 1);
  }

  /** No user element above the tier is emitted: every one the components lead to from visible roots is visible. */
  lemma NothingAboveTier(m: Model, rank: string -> int, tier: int, out: Components, roots: set<string>, k: string)
    requires WellNamed(m) && ToolchainApart(m) && Accepted(m, rank)
    requires Complete(m, out, roots) && forall r :: r in roots ==>
               !IsEntry(m, r) && (UserElement(m, r) ==> rank(r) <= tier)
    requires k in out && UserElement(m, k)
    ensures rank(k) <= tier
  {
    hide SchemaFor, RefsFrom, UserElement, IsEntry, Reaches;
    var r :| r in roots && Reaches(m, r, k);
    ReachedVisible(m, rank, r, k);
  }

  // ---- What operations refer to ----

  /** A chain of messages, each the type of a field of the one before: the containers a binding descends through. */
  ghost predicate Containers(m: Model, p: seq<string>)
  {
    && p != [] && (forall k :: 0 <= k < |p| ==> p[k] in m.messages && !IsEntry(m, p[k]))
    && forall k :: 0 <= k < |p| - 1 ==> HasFieldOf(m, p[k], p[k + 1])
  }

  /** Some field of a message is of the type b. */
  ghost predicate HasFieldOf(m: Model, a: string, b: string)
  {
    a in m.messages && exists f :: f in m.messages[a].fields && TypeName(f.kind) == b
  }

  /** What an operation of mth can refer to: its request or its response, or what the fields of the
    * request's containers refer to when they become parameters or an inlined body. */
  ghost predicate OperationRef(m: Model, mth: Method, x: string)
  {
    || x == mth.input
    || (x == mth.output && x != "google.protobuf.Empty")
    || exists p, f :: Containers(m, p) && p[0] == mth.input && f in m.messages[p[|p| - 1]].fields
                      && PropertyOf(m, f).Some? && x in RefsIn(PropertyOf(m, f).value)
  }

  /** A method the filter admits, of a service of the user's. */
  ghost predicate Emitted(m: Model, rank: string -> int, tier: int, svc: Service, mth: Method)
  {
    svc in m.services && mth in svc.methods && !svc.generated && rank(MethodName(svc, mth)) <= tier
  }

  lemma MethodEdges(m: Model, svc: Service, mth: Method, x: string)
    requires svc in m.services && mth in svc.methods && !svc.generated && !InGoogle(x)
    requires x == mth.input || (x == mth.output && x != "google.protobuf.Empty")
    ensures IsEdge(m, Edge(MethodName(svc, mth), x))
  {
    hide InGoogle;
    var s :| 0 <= s < |m.services| && m.services[s] == svc;
    var k :| 0 <= k < |svc.methods| && svc.methods[k] == mth;
    assert m.services[s].methods[k] == mth && MethodName(svc, mth) == svc.fqn + "." + mth.name;
    assert MethodEdge(m, Edge(svc.fqn + "." + mth.name, x));
  }

  /** A field's type, and what its property refers to, are among the targets of its message. */
  lemma {:induction false} TargetsInside(m: Model, fs: seq<Field>, f: Field, x: string)
    requires f in fs && x in FieldTargets(m, f)
    ensures x in FieldsTargets(m, fs)
  {
    hide FieldTargets;
    var before, last := fs[..|fs| - 1], fs[|fs| - 1];
    if f != last {
      assert fs == before + [last];
      TargetsInside(m, before, f, x);
    }
  }

  lemma FieldEdge(m: Model, a: string, f: Field, x: string)
    requires UserElement(m, a) && WellNamed(m) && a in m.messages && f in m.messages[a].fields
    requires x in FieldTargets(m, f) && !InGoogle(x)
    ensures IsEdge(m, Edge(a, x))
  {
    hide FieldTargets, FieldsTargets, InGoogle;
    OnlyMessage(m, a);
    TargetsInside(m, m.messages[a].fields, f, x);
    FromMessageIs(m, Edge(a, x));
  }

  /** No container of a visible request is above the tier. */
  lemma {:induction false} ContainersVisible(m: Model, rank: string -> int, p: seq<string>, i: nat)
    requires WellNamed(m) && GeneratedApart(m) && Accepted(m, rank) && Containers(m, p) && i < |p|
    requires UserElement(m, p[i])
    ensures UserElement(m, p[0]) && rank(p[i]) <= rank(p[0])
  {
    hide InGoogle, IsEdge, FieldTargets;
    if i > 0 {
      assert HasFieldOf(m, p[i - 1], p[i]);
      var f :| f in m.messages[p[i - 1]].fields && TypeName(f.kind) == p[i];
      assert p[i - 1] in m.messages && p[i] in m.messages && p[i] != "";
      TypeIsTarget(m, f, p[i]);
      if !Generated(m, p[i - 1]) {
        FieldEdge(m, p[i - 1], f, p[i]);
        ContainersVisible(m, rank, p, i - 1);
      }
    }
  }

  /** The toolchain's messages have no field that names a user element. */
  ghost predicate GeneratedApart(m: Model)
  {
    && ToolchainApart(m)
    && forall a, f, x ::
         a in m.messages && m.messages[a].generated && f in m.messages[a].fields && x in FieldTargets(m, f) ==>
         !UserElement(m, x)
  }

  lemma TypeIsTarget(m: Model, f: Field, x: string)
    requires TypeName(f.kind) == x && x != "" && !IsEntry(m, x)
    ensures x in FieldTargets(m, f)
  {
  }

  /** Whatever an emitted operation refers to, directly or through parameters and inlined bodies, is visible. */
  lemma OperationRefsVisible(m: Model, rank: string -> int, tier: int, svc: Service, mth: Method, x: string)
    requires WellNamed(m) && GeneratedApart(m) && Accepted(m, rank)
    requires Emitted(m, rank, tier, svc, mth) && OperationRef(m, mth, x) && UserElement(m, x)
    ensures rank(x) <= tier
  {
    hide InGoogle, IsEdge, FieldTargets, RefsIn, PropertyOf;
    if x == mth.input || (x == mth.output && x != "google.protobuf.Empty") {
      MethodEdges(m, svc, mth, x);
    } else {
      var p, f :| Containers(m, p) && p[0] == mth.input && f in m.messages[p[|p| - 1]].fields
                  && PropertyOf(m, f).Some? && x in RefsIn(PropertyOf(m, f).value);
      var last := p[|p| - 1];
      var k :| 0 <= k < |m.messages[last].fields| && m.messages[last].fields[k] == f;
      assert KindRight(m, f);
      PropertyRefsTargeted(m, f, x);
      NamedIsNotEmpty(m, f, x);
      FieldEdge(m, last, f, x);
      ContainersVisible(m, rank, p, |p| - 1);
      MethodEdges(m, svc, mth, mth.input);
    }
  }

  lemma NamedIsNotEmpty(m: Model, f: Field, x: string)
    requires !Known(m, "") && (x in FieldTargets(m, f) || x == "")
    ensures UserElement(m, x) ==> x in FieldTargets(m, f)
  {
  }

  lemma NoEntryRoot(m: Model, x: string)
    requires WellNamed(m) && UserElement(m, x)
    ensures !IsEntry(m, x)
  {
    if x in m.messages {
      OnlyMessage(m, x);
    }
  }
}
