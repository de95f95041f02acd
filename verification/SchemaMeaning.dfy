/** What the components accept, the keywords of rules aside: just the JSON forms of the elements they are emitted
  * for (internal/openapi/schemas.go:79-103,122-171,222-391,445-476). */
module SchemaMeaning {
  import opened Options
  import opened ApiModel
  import opened SchemaBuilder
  import opened JsonValues

  /** Whether a value is the JSON form of a scalar type, a well-known type or an enum, left open. */
  type Forms = (string, Json) -> bool

  // ---- What a schema accepts ----

  /** A schema accepts a JSON value, when a $ref is looked up in the components n times at the most. The properties of
    * an object ask something of the members they name only. */
  ghost predicate Fits(out: Components, forms: Forms, s: Schema, j: Json, n: nat)
    decreases n, s
  {
    match s
    case Flat(typ, nullish) => forms(typ, j) || (nullish && j == JsonNull)
    case Ref(fqn) => n > 0 && fqn in out && out[fqn].Some? && Fits(out, forms, out[fqn].value, j, n - 1)
    case ArrayOf(items) => j.JsonArray? && forall x :: x in j.items ==> Fits(out, forms, items, x, n)
    case MapOf(values) => j.JsonObject? && forall k :: k in j.members ==> Fits(out, forms, values, j.members[k], n)
    case ObjectOf(props) =>
      j.JsonObject? && forall i :: 0 <= i < |props| && props[i].name in j.members ==>
        Fits(out, forms, props[i].schema, j.members[props[i].name], n)
    case AllOf(base) => Fits(out, forms, base, j, n)
    case OrNull(base) => j == JsonNull || Fits(out, forms, base, j, n)
  }

  // ---- The JSON forms of values ----

  /** The JSON form of a scalar, or of a well-known type: a wrapper's is its scalar's, or null. */
  ghost predicate InlineForm(forms: Forms, name: string, j: Json)
  {
    forms(name, j) || (IsWrapper(name) && j == JsonNull)
  }

  /** The JSON form of a value of an element, through n names at the most: an alias has its base's, a message that of
    * an object whose members of a field's name have the field's form, an enum its own. */
  ghost predicate ElementForm(m: Model, forms: Forms, fqn: string, j: Json, n: nat)
    decreases n, 1
  {
    n > 0 &&
    if fqn in m.aliases then
      var base := m.aliases[fqn].base;
      if IsPrimitive(base) then forms(base, j)
      else if Wkt(base) then InlineForm(forms, base, j)
      else ElementForm(m, forms, base, j, n - 1)
    else if fqn in m.messages then
      j.JsonObject? && forall f :: f in m.messages[fqn].fields && f.name in j.members ==>
        FieldForm(m, forms, f, j.members[f.name], n - 1)
    else fqn in m.enums && forms(fqn, j)
  }

  /** The JSON form of a value of a type. */
  ghost predicate TypeForm(m: Model, forms: Forms, kind: Kind, j: Json, n: nat)
    decreases n, 2
  {
    match kind
    case ScalarKind(name) => IsPrimitive(name) && forms(name, j)
    case MessageKind(fqn) => if Wkt(fqn) then InlineForm(forms, fqn, j) else ElementForm(m, forms, fqn, j, n)
    case EnumKind(fqn) => ElementForm(m, forms, fqn, j, n)
    case GroupKind(_) => false
  }

  /** One value of a field: of the most derived alias, or of the field's type. */
  ghost predicate SingleForm(m: Model, forms: Forms, f: Field, j: Json, n: nat)
    decreases n, 3
  {
    if f.chain != [] then ElementForm(m, forms, f.chain[|f.chain| - 1], j, n) else TypeForm(m, forms, f.kind, j, n)
  }

  /** What a field holds: an object of values for a map, an array of values when it is repeated, else one value, or
    * null where the field may be null. */
  ghost predicate FieldForm(m: Model, forms: Forms, f: Field, j: Json, n: nat)
    decreases n, 4
  {
    if IsMapField(m, f) then
      j.JsonObject? && forall k :: k in j.members ==>
        TypeForm(m, forms, m.messages[f.kind.fqn].mapValue, j.members[k], n)
    else if f.repeated then
      j.JsonArray? && forall x :: x in j.items ==> SingleForm(m, forms, f, x, n)
    else SingleForm(m, forms, f, j, n) || (f.nullable && j == JsonNull)
  }

  // ---- The components accept just these ----

  /** A $ref accepts the form of the element it names. */
  ghost predicate RefRight(m: Model, out: Components, forms: Forms, fqn: string, n: nat)
  {
    forall j :: Fits(out, forms, Ref(fqn), j, n) <==> ElementForm(m, forms, fqn, j, n)
  }

  ghost predicate RefsRight(m: Model, out: Components, forms: Forms, names: set<string>, n: nat)
  {
    forall x :: x in names ==> RefRight(m, out, forms, x, n)
  }

  lemma TypeIff(m: Model, out: Components, forms: Forms, kind: Kind, j: Json, n: nat)
    requires TypeSchemaOf(kind).Some? && RefsRight(m, out, forms, RefsIn(TypeSchemaOf(kind).value), n)
    ensures Fits(out, forms, TypeSchemaOf(kind).value, j, n) <==> TypeForm(m, forms, kind, j, n)
  {
    hide Wkt, IsPrimitive, IsWrapper, ElementForm;
    var s := TypeSchemaOf(kind).value;
    if s.Ref? {
      RefsOfRef(s.fqn);
      assert RefRight(m, out, forms, s.fqn, n);
    }
  }

  lemma SingleIff(m: Model, out: Components, forms: Forms, f: Field, j: Json, n: nat)
    requires ElementOf(f).Some? && RefsRight(m, out, forms, RefsIn(ElementOf(f).value), n)
    ensures Fits(out, forms, ElementOf(f).value, j, n) <==> SingleForm(m, forms, f, j, n)
  {
    hide Fits, TypeForm, ElementForm, TypeSchemaOf;
    if f.chain != [] {
      var x := f.chain[|f.chain| - 1];
      RefsOfRef(x);
      assert RefRight(m, out, forms, x, n);
    } else {
      TypeIff(m, out, forms, f.kind, j, n);
    }
  }

  lemma NullBeside(out: Components, forms: Forms, s: Schema, f: Field, j: Json, n: nat)
    requires s.Flat? || s.Ref?
    ensures Fits(out, forms, Wrapped(s, f), j, n) <==> Fits(out, forms, s, j, n) || (f.nullable && j == JsonNull)
  {
    if s.Ref? {
      hide Fits;
      AllOfFits(out, forms, s, j, n);
      OrNullFits(out, forms, s, j, n);
      OrNullFits(out, forms, AllOf(s), j, n);
    }
  }

  lemma AllOfFits(out: Components, forms: Forms, s: Schema, j: Json, n: nat)
    ensures Fits(out, forms, AllOf(s), j, n) <==> Fits(out, forms, s, j, n)
  {
  }

  lemma OrNullFits(out: Components, forms: Forms, s: Schema, j: Json, n: nat)
    ensures Fits(out, forms, OrNull(s), j, n) <==> Fits(out, forms, s, j, n) || j == JsonNull
  {
  }

  /** A property accepts the form of its field. */
  lemma FieldIff(m: Model, out: Components, forms: Forms, f: Field, j: Json, n: nat)
    requires PropertyOf(m, f).Some? && RefsRight(m, out, forms, RefsIn(PropertyOf(m, f).value), n)
    ensures Fits(out, forms, PropertyOf(m, f).value, j, n) <==> FieldForm(m, forms, f, j, n)
  {
    hide TypeForm, SingleForm, RefsRight, TypeSchemaOf, ElementOf, RefsIn, Wrapped;
    RefsWrapped(CoreOf(m, f).value, f);
    if IsMapField(m, f) {
      var kind := m.messages[f.kind.fqn].mapValue;
      RefsWrapped(TypeSchemaOf(kind).value, f);
      forall x: Json
        ensures Fits(out, forms, TypeSchemaOf(kind).value, x, n) <==> TypeForm(m, forms, kind, x, n)
      {
        TypeIff(m, out, forms, kind, x, n);
      }
      WrappedManyStays(CoreOf(m, f).value, f);
    } else {
      RefsWrapped(ElementOf(f).value, f);
      forall x: Json
        ensures Fits(out, forms, ElementOf(f).value, x, n) <==> SingleForm(m, forms, f, x, n)
      {
        SingleIff(m, out, forms, f, x, n);
      }
      if f.repeated {
        WrappedManyStays(CoreOf(m, f).value, f);
      } else {
        ElementIsPlain(f);
        NullBeside(out, forms, ElementOf(f).value, f, j, n);
      }
    }
  }

  lemma WrappedManyStays(s: Schema, f: Field)
    requires s.ArrayOf? || s.MapOf?
    ensures Wrapped(s, f) == s
  {
  }

  lemma ElementIsPlain(f: Field)
    requires ElementOf(f).Some?
    ensures ElementOf(f).value.Flat? || ElementOf(f).value.Ref?
  {
    hide Wkt, IsPrimitive, IsWrapper;
  }

  /** The properties are those of the fields, in their order and under their names. */
  lemma {:induction false} PropertiesAre(m: Model, fs: seq<Field>)
    requires PropertiesOf(m, fs).Some?
    ensures var props := PropertiesOf(m, fs).value;
            && |props| == |fs|
            && forall i :: 0 <= i < |fs| ==>
                 props[i].name == fs[i].name && PropertyOf(m, fs[i]) == Some(props[i].schema)
                 && RefsIn(props[i].schema) <= RefsInAll(props)
  {
    hide PropertyOf, RefsIn, RefsInAll;
    if fs != [] {
      var before, last := fs[..|fs| - 1], fs[|fs| - 1];
      PropertiesAre(m, before);
      RefsInMore(PropertiesOf(m, before).value, Property(last.name, PropertyOf(m, last).value));
    }
  }

  /** A message's component accepts the forms of the message. */
  lemma MessageIff(m: Model, out: Components, forms: Forms, fqn: string, j: Json, n: nat)
    requires fqn !in m.aliases && fqn in m.messages && SchemaFor(m, fqn).Some?
    requires RefsRight(m, out, forms, RefsFrom(m, fqn), n)
    ensures Fits(out, forms, SchemaFor(m, fqn).value, j, n) <==> ElementForm(m, forms, fqn, j, n + 1)
  {
    hide FieldForm, PropertyOf, PropertiesOf, RefsIn, RefsInAll;
    var fs := m.messages[fqn].fields;
    PropertiesAre(m, fs);
    var props := PropertiesOf(m, fs).value;
    RefsOfObject(props);
    forall i | 0 <= i < |fs| && j.JsonObject? && fs[i].name in j.members
      ensures Fits(out, forms, props[i].schema, j.members[fs[i].name], n)
         <==> FieldForm(m, forms, fs[i], j.members[fs[i].name], n)
    {
      FieldIff(m, out, forms, fs[i], j.members[fs[i].name], n);
    }
  }

  lemma RefsOfObject(props: seq<Property>)
    ensures RefsIn(ObjectOf(props)) == RefsInAll(props)
  {
  }

  lemma AliasIff(m: Model, out: Components, forms: Forms, fqn: string, j: Json, n: nat)
    requires fqn in m.aliases && SchemaFor(m, fqn).Some?
    requires RefsRight(m, out, forms, RefsFrom(m, fqn), n)
    ensures Fits(out, forms, SchemaFor(m, fqn).value, j, n) <==> ElementForm(m, forms, fqn, j, n + 1)
  {
    hide Wkt, IsPrimitive, IsWrapper, Fits;
    var base := m.aliases[fqn].base;
    if IsPrimitive(base) || Wkt(base) {
      FlatFits(out, forms, base, j, n);
    } else {
      RefsOfRef(base);
      AllOfFits(out, forms, Ref(base), j, n);
      assert RefRight(m, out, forms, base, n);
    }
  }

  lemma FlatFits(out: Components, forms: Forms, typ: string, j: Json, n: nat)
    ensures Fits(out, forms, Flat(typ, false), j, n) <==> forms(typ, j)
    ensures Fits(out, forms, WktSchema(typ), j, n) <==> InlineForm(forms, typ, j)
  {
    hide IsWrapper;
  }

  /** Every component of a complete document accepts just the JSON forms of its element, whatever cycles the types
    * have. */
  lemma {:induction false} ComponentAccepts(m: Model, out: Components, roots: set<string>, forms: Forms, fqn: string,
                                            n: nat)
    requires Complete(m, out, roots) && fqn in out
    ensures RefRight(m, out, forms, fqn, n)
    decreases n
  {
    hide SchemaFor, Reaches, Fits, ElementForm;
    if n > 0 {
      forall x | x in RefsFrom(m, fqn)
        ensures RefRight(m, out, forms, x, n - 1)
      {
        NoDanglingRef(m, out, roots, fqn, x);
        ComponentAccepts(m, out, roots, forms, x, n - 1);
      }
      forall j
        ensures Fits(out, forms, Ref(fqn), j, n) <==> ElementForm(m, forms, fqn, j, n)
      {
        RefFits(out, forms, fqn, j, n);
        ElementIff(m, out, forms, fqn, j, n - 1);
      }
    } else {
      NoNames(m, out, forms, fqn);
    }
  }

  lemma RefFits(out: Components, forms: Forms, fqn: string, j: Json, n: nat)
    requires n > 0 && fqn in out && out[fqn].Some?
    ensures Fits(out, forms, Ref(fqn), j, n) <==> Fits(out, forms, out[fqn].value, j, n - 1)
  {
  }

  lemma NoNames(m: Model, out: Components, forms: Forms, fqn: string)
    ensures RefRight(m, out, forms, fqn, 0)
  {
  }

  lemma ElementIff(m: Model, out: Components, forms: Forms, fqn: string, j: Json, n: nat)
    requires SchemaFor(m, fqn).Some? && RefsRight(m, out, forms, RefsFrom(m, fqn), n)
    ensures Fits(out, forms, SchemaFor(m, fqn).value, j, n) <==> ElementForm(m, forms, fqn, j, n + 1)
  {
    if fqn in m.aliases {
      AliasIff(m, out, forms, fqn, j, n);
    } else if fqn in m.messages {
      MessageIff(m, out, forms, fqn, j, n);
    }
  }

  /** A component accepts a value, however many lookups that takes. */
  ghost predicate Accepts(out: Components, forms: Forms, fqn: string, j: Json)
  {
    exists n: nat :: Fits(out, forms, Ref(fqn), j, n)
  }

  ghost predicate IsFormOf(m: Model, forms: Forms, fqn: string, j: Json)
  {
    exists n: nat :: ElementForm(m, forms, fqn, j, n)
  }

  /** A component of a complete document accepts exactly the JSON forms of its element. */
  lemma AcceptsForms(m: Model, out: Components, roots: set<string>, forms: Forms, fqn: string, j: Json)
    requires Complete(m, out, roots) && fqn in out
    ensures Accepts(out, forms, fqn, j) <==> IsFormOf(m, forms, fqn, j)
  {
    hide Complete, Fits, ElementForm;
    forall n: nat
      ensures Fits(out, forms, Ref(fqn), j, n) <==> ElementForm(m, forms, fqn, j, n)
    {
      ComponentAccepts(m, out, roots, forms, fqn, n);
    }
  }

  /** The component of a message accepts a value exactly when it is an object in which each member with a field's
    * name has the field's form. */
  lemma MessageAccepts(m: Model, out: Components, roots: set<string>, forms: Forms, fqn: string, j: Json, n: nat)
    requires Complete(m, out, roots) && fqn in out && fqn in m.messages && fqn !in m.aliases && n > 0
    ensures Fits(out, forms, Ref(fqn), j, n) <==>
              j.JsonObject? && forall f :: f in m.messages[fqn].fields && f.name in j.members ==>
                FieldForm(m, forms, f, j.members[f.name], n - 1)
  {
    hide SchemaFor, Reaches, Fits, FieldForm;
    ComponentAccepts(m, out, roots, forms, fqn, n);
  }

  // ---- Which elements have a component ----

  /** A scalar with a JSON form, a message or an enum: no group. */
  predicate HasForm(kind: Kind)
  {
    (kind.ScalarKind? && IsPrimitive(kind.scalar)) || kind.MessageKind? || kind.EnumKind?
  }

  predicate FieldHasForm(m: Model, f: Field)
  {
    if IsMapField(m, f) then HasForm(m.messages[f.kind.fqn].mapValue) else f.chain != [] || HasForm(f.kind)
  }

  lemma {:induction false} PropertiesIff(m: Model, fs: seq<Field>)
    ensures PropertiesOf(m, fs).Some? <==> forall f :: f in fs ==> FieldHasForm(m, f)
  {
    hide IsPrimitive, Wkt, FieldHasForm, PropertyOf;
    if fs != [] {
      var before, last := fs[..|fs| - 1], fs[|fs| - 1];
      PropertiesIff(m, before);
      assert fs == before + [last];
      PropertyIff(m, last);
    }
  }

  lemma PropertyIff(m: Model, f: Field)
    ensures PropertyOf(m, f).Some? <==> FieldHasForm(m, f)
  {
    hide IsPrimitive, Wkt;
  }

  /** An alias has a component when its base is a scalar, well known or an element; a message when every field of it
    * has a form; and every enum has one. */
  lemma HasComponentIff(m: Model, fqn: string)
    ensures SchemaFor(m, fqn).Some? <==>
              if fqn in m.aliases then
                var base := m.aliases[fqn].base;
                IsPrimitive(base) || Wkt(base) || base in m.aliases || base in m.messages || base in m.enums
              else if fqn in m.messages then
                forall f :: f in m.messages[fqn].fields ==> FieldHasForm(m, f)
              else fqn in m.enums
  {
    hide IsPrimitive, Wkt, FieldHasForm, PropertiesOf;
    if fqn in m.messages {
      PropertiesIff(m, m.messages[fqn].fields);
    }
  }

  /** A complete document has a component for every admitted message, enum and alias of the user's. */
  lemma EveryElementEmitted(m: Model, out: Components, admits: string -> bool, x: string)
    requires Complete(m, out, Roots(m, admits)) && admits(x)
    ensures x in m.messages && !m.messages[x].generated && !m.messages[x].isEntry ==> x in out
    ensures x in m.enums && !m.enums[x].generated ==> x in out
    ensures x in m.aliases && !m.aliases[x].generated ==> x in out
  {
    hide SchemaFor, Reaches;
    ReachesSelf(m, x);
    assert UserElement(m, x) && Known(m, x) ==> x in Roots(m, admits);
  }

  // ---- The shape of a property ----

  /** The component a field's values refer to: its last alias, or its type when that is not well known. */
  ghost predicate RefersTo(m: Model, f: Field, x: string)
  {
    if IsMapField(m, f) then Names(m.messages[f.kind.fqn].mapValue, x)
    else if f.chain != [] then x == f.chain[|f.chain| - 1]
    else Names(f.kind, x)
  }

  ghost predicate Names(kind: Kind, x: string)
  {
    kind == Kind.EnumKind(x) || (kind == Kind.MessageKind(x) && !Wkt(x))
  }

  predicate IsSingular(m: Model, f: Field)
  {
    !IsMapField(m, f) && !f.repeated
  }

  /** A property is a map for a map, else an array for a repeated field; its one reference is what the field refers
    * to; allOf and null stand where keywords or null are put beside the reference of a singular field. */
  lemma PropertyShape(m: Model, f: Field)
    requires PropertyOf(m, f).Some?
    ensures var s := PropertyOf(m, f).value;
            && (s.MapOf? <==> IsMapField(m, f))
            && (s.ArrayOf? <==> !IsMapField(m, f) && f.repeated)
            && (forall x :: x in RefsIn(s) <==> RefersTo(m, f, x))
            && (s.OrNull? <==> IsSingular(m, f) && f.nullable && RefsIn(s) != {})
            && (s.AllOf? || (s.OrNull? && s.base.AllOf?) <==> IsSingular(m, f) && f.keywords && RefsIn(s) != {})
            && (s.Flat? <==> IsSingular(m, f) && RefsIn(s) == {})
  {
    hide Wkt, IsPrimitive, IsWrapper, RefsIn;
    RefsWrapped(CoreOf(m, f).value, f);
    if IsMapField(m, f) {
      var kind := m.messages[f.kind.fqn].mapValue;
      RefsWrapped(TypeSchemaOf(kind).value, f);
      TypeNames(kind);
    } else {
      RefsWrapped(ElementOf(f).value, f);
      if f.chain == [] {
        TypeNames(f.kind);
      } else {
        RefsOfRef(f.chain[|f.chain| - 1]);
      }
    }
  }

  lemma TypeNames(kind: Kind)
    requires TypeSchemaOf(kind).Some?
    ensures forall x :: x in RefsIn(TypeSchemaOf(kind).value) <==> Names(kind, x)
    ensures TypeSchemaOf(kind).value.Flat? <==> RefsIn(TypeSchemaOf(kind).value) == {}
    ensures TypeSchemaOf(kind).value.Flat? || TypeSchemaOf(kind).value.Ref?
  {
    hide Wkt, IsPrimitive, IsWrapper;
  }
}
