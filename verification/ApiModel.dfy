/** The lowered image as the OpenAPI renderer reads it, and the schema of each of its
  * elements (internal/openapi/model.go:30-110, internal/openapi/schemas.go:122-391,486-655). */
module ApiModel {
  import opened Options

  const GOOGLE := "google.protobuf."

  datatype Kind =
    | ScalarKind(scalar: string)
    | MessageKind(fqn: string)
    | EnumKind(fqn: string)
    | GroupKind(fqn: string)

  /** A field: its type-alias chain, whether it contributes keywords of its own, and whether it may be null. */
  datatype Field = Field(name: string, kind: Kind, repeated: bool, chain: seq<string>, keywords: bool, nullable: bool)

  datatype MessageInfo = MessageInfo(generated: bool, isEntry: bool, mapValue: Kind, fields: seq<Field>)

  datatype EnumInfo = EnumInfo(generated: bool)

  datatype AliasInfo = AliasInfo(generated: bool, base: string, keywords: bool)

  /** A use of @http: its verb and path, and the variables of the path as field paths. */
  datatype HttpUse = HttpUse(
    verb: string,
    path: string,
    vars: seq<seq<string>>,
    operationId: string,
    security: seq<string>)

  datatype Method = Method(name: string, input: string, output: string, uses: seq<HttpUse>)

  datatype Service = Service(name: string, fqn: string, generated: bool, methods: seq<Method>)

  datatype Model = Model(
    messages: map<string, MessageInfo>,
    enums: map<string, EnumInfo>,
    aliases: map<string, AliasInfo>,
    services: seq<Service>)

  predicate Known(m: Model, fqn: string)
  {
    fqn in m.aliases || fqn in m.messages || fqn in m.enums
  }

  predicate IsPrimitive(name: string)
  {
    name in {"string", "bytes", "bool", "int32", "int64", "uint32", "uint64", "sint32", "sint64",
             "fixed32", "fixed64", "sfixed32", "sfixed64", "float", "double"}
  }

  /** The wrappers of scalars. */
  predicate IsWrapper(fqn: string)
  {
    || fqn == GOOGLE + "DoubleValue" || fqn == GOOGLE + "FloatValue" || fqn == GOOGLE + "Int64Value"
    || fqn == GOOGLE + "UInt64Value" || fqn == GOOGLE + "Int32Value" || fqn == GOOGLE + "UInt32Value"
    || fqn == GOOGLE + "BoolValue" || fqn == GOOGLE + "StringValue" || fqn == GOOGLE + "BytesValue"
  }

  /** The well-known types with a schema of their own. */
  predicate Wkt(fqn: string)
  {
    || IsWrapper(fqn)
    || fqn == GOOGLE + "Timestamp" || fqn == GOOGLE + "Duration" || fqn == GOOGLE + "Any"
    || fqn == GOOGLE + "Empty" || fqn == GOOGLE + "FieldMask"
  }

  /** A name under google.protobuf. */
  predicate InGoogle(fqn: string)
  {
    |GOOGLE| <= |fqn| && fqn[..|GOOGLE|] == GOOGLE
  }

  lemma WktInGoogle(fqn: string)
    ensures Wkt(fqn) ==> InGoogle(fqn)
  {
  }

  // ---- Schemas ----

  /** A schema, the keywords of rules aside: that of a scalar, a well-known type or an enum inline, null being among
    * its types or not; AllOf and OrNull are what keywords and null make of a $ref. */
  datatype Schema =
    | Flat(typ: string, nullish: bool)
    | Ref(fqn: string)
    | ArrayOf(items: Schema)
    | MapOf(values: Schema)
    | ObjectOf(props: seq<Property>)
    | AllOf(base: Schema)
    | OrNull(base: Schema)

  datatype Property = Property(name: string, schema: Schema)

  function RefsIn(s: Schema): set<string>
  {
    match s
    case Flat(_, _) => {}
    case Ref(fqn) => {fqn}
    case ArrayOf(items) => RefsIn(items)
    case MapOf(values) => RefsIn(values)
    case ObjectOf(props) => RefsInAll(props)
    case AllOf(base) => RefsIn(base)
    case OrNull(base) => RefsIn(base)
  }

  function RefsInAll(props: seq<Property>): set<string>
  {
    if props == [] then {} else RefsIn(props[0].schema) + RefsInAll(props[1..])
  }

  lemma {:induction false} RefsInMore(props: seq<Property>, p: Property)
    ensures RefsInAll(props + [p]) == RefsInAll(props) + RefsIn(p.schema)
  {
    if props == [] {
      assert props + [p] == [p];
      assert [p][1..] == [];
    } else {
      RefsInMore(props[1..], p);
      assert (props + [p])[1..] == props[1..] + [p];
    }
  }

  /** What wraps a schema refers to what the schema does. */
  lemma RefsWrapped(s: Schema, f: Field)
    ensures RefsIn(Wrapped(s, f)) == RefsIn(s)
    ensures RefsIn(MapOf(s)) == RefsIn(s) && RefsIn(ArrayOf(s)) == RefsIn(s) && RefsIn(AllOf(s)) == RefsIn(s)
  {
    assert RefsIn(AllOf(s)) == RefsIn(s);
    assert forall t: Schema :: RefsIn(OrNull(t)) == RefsIn(t);
  }

  lemma RefsOfRef(fqn: string)
    ensures RefsIn(Ref(fqn)) == {fqn} && RefsIn(AllOf(Ref(fqn))) == {fqn}
  {
    assert RefsIn(AllOf(Ref(fqn))) == RefsIn(Ref(fqn));
  }

  /** The schema of a well-known type: a wrapper's may be null. */
  function WktSchema(fqn: string): Schema
  {
    Flat(fqn, IsWrapper(fqn))
  }

  /** typeSchema: a type with no regard to aliases. */
  function TypeSchemaOf(kind: Kind): Option<Schema>
  {
    match kind
    case ScalarKind(name) => if IsPrimitive(name) then Some(Flat(name, false)) else None
    case MessageKind(fqn) => Some(if Wkt(fqn) then WktSchema(fqn) else Ref(fqn))
    case EnumKind(fqn) => Some(Ref(fqn))
    case GroupKind(_) => None
  }

  predicate IsMapField(m: Model, f: Field)
  {
    f.kind.MessageKind? && f.kind.fqn in m.messages && m.messages[f.kind.fqn].isEntry
  }

  /** A field's type: the most derived alias of its chain, or its descriptor type. */
  function ElementOf(f: Field): Option<Schema>
  {
    if f.chain != [] then Some(Ref(f.chain[|f.chain| - 1])) else TypeSchemaOf(f.kind)
  }

  function CoreOf(m: Model, f: Field): Option<Schema>
  {
    if IsMapField(m, f) then
      match TypeSchemaOf(m.messages[f.kind.fqn].mapValue)
      case None => None
      case Some(s) => Some(MapOf(s))
    else
      match ElementOf(f)
      case None => None
      case Some(s) => Some(if f.repeated then ArrayOf(s) else s)
  }

  /** A $ref with keywords beside it needs allOf; null is put among the types of a field that may be null, and
    * beside a $ref or allOf, which needs anyOf. */
  function Wrapped(core: Schema, f: Field): Schema
  {
    var s := if core.Ref? && f.keywords then AllOf(core) else core;
    if !f.nullable then s
    else
      match s
      case Flat(typ, _) => Flat(typ, true)
      case Ref(_) => OrNull(s)
      case AllOf(_) => OrNull(s)
      case _ => s
  }

  function PropertyOf(m: Model, f: Field): Option<Schema>
  {
    match CoreOf(m, f)
    case None => None
    case Some(core) => Some(Wrapped(core, f))
  }

  function PropertiesOf(m: Model, fs: seq<Field>): Option<seq<Property>>
  {
    if fs == [] then Some([])
    else
      var rest := PropertiesOf(m, fs[..|fs| - 1]);
      var last := PropertyOf(m, fs[|fs| - 1]);
      if rest.None? || last.None? then None else Some(rest.value + [Property(fs[|fs| - 1].name, last.value)])
  }

  function AliasSchemaOf(m: Model, a: AliasInfo): Option<Schema>
  {
    if IsPrimitive(a.base) then Some(Flat(a.base, false))
    else if Wkt(a.base) then Some(WktSchema(a.base))
    else if Known(m, a.base) then Some(if a.keywords then AllOf(Ref(a.base)) else Ref(a.base))
    else None
  }

  /** The schema of an element when everything it refers to can be rendered; an alias hides a message, a message an
    * enum. */
  function SchemaFor(m: Model, fqn: string): Option<Schema>
  {
    if fqn in m.aliases then AliasSchemaOf(m, m.aliases[fqn])
    else if fqn in m.messages then
      match PropertiesOf(m, m.messages[fqn].fields)
      case None => None
      case Some(props) => Some(ObjectOf(props))
    else if fqn in m.enums then Some(Flat(fqn, false))
    else None
  }

  function RefsOf(s: Option<Schema>): set<string>
  {
    if s.Some? then RefsIn(s.value) else {}
  }

  /** What the component of fqn refers to. */
  function RefsFrom(m: Model, fqn: string): set<string>
  {
    RefsOf(SchemaFor(m, fqn))
  }

  // ---- Reachability ----

  ghost predicate RefPath(m: Model, p: seq<string>)
  {
    p != [] && forall k :: 0 <= k < |p| - 1 ==> p[k + 1] in RefsFrom(m, p[k])
  }

  ghost predicate Reaches(m: Model, a: string, b: string)
  {
    exists p :: RefPath(m, p) && p[0] == a && p[|p| - 1] == b
  }

  lemma ReachesSelf(m: Model, a: string)
    ensures Reaches(m, a, a)
  {
    assert RefPath(m, [a]);
  }

  lemma ReachesAfter(m: Model, a: string, b: string, c: string)
    requires b in RefsFrom(m, a) && Reaches(m, b, c)
    ensures Reaches(m, a, c)
  {
    hide RefsFrom;
    var p :| RefPath(m, p) && p[0] == b && p[|p| - 1] == c;
    var q := [a] + p;
    assert forall k :: 1 <= k < |q| ==> q[k] == p[k - 1];
    assert RefPath(m, q) && q[0] == a && q[|q| - 1] == c;
  }

  /** A walk along references cannot leave a set that is closed under them. */
  lemma {:induction false} ClosedKeeps(m: Model, names: set<string>, p: seq<string>)
    requires forall x :: x in names ==> RefsFrom(m, x) <= names
    requires RefPath(m, p) && p[0] in names
    ensures forall k :: 0 <= k < |p| ==> p[k] in names
  {
    hide RefsFrom;
    if |p| > 1 {
      var q := p[..|p| - 1];
      assert forall k :: 0 <= k < |q| ==> q[k] == p[k];
      ClosedKeeps(m, names, q);
      assert p[|p| - 1] in RefsFrom(m, p[|p| - 2]);
    }
  }
}
