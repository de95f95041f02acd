/** The operations of a document: what the schemas of their parameters, bodies and responses refer to,
  * and the document's components (internal/openapi/operations.go:45-63,159-192,204-360,465-625,
  * internal/openapi/generate.go:64-102,155-177, internal/openapi/report.go:22-70). */
module Operations {
  import opened Options
  import opened ApiModel
  import opened SchemaBuilder
  import opened Audience
  import opened AudienceClosure
  import opened Binding
  import PathTemplate
  import Seqs

  const REPORT := "protowire.schema.v1.Report"
  const NO_CONTENT := "google.protobuf.Empty"

  predicate Bodyless(verb: string)
  {
    verb == "GET" || verb == "HEAD" || verb == "DELETE" || verb == "OPTIONS"
  }

  function HalfOf(verb: string): Half
  {
    if Bodyless(verb) then Query else Body
  }

  /** A field has a schema. */
  function HasSchema(m: Model): Field -> bool
  {
    f => PropertyOf(m, f).Some?
  }

  function Bound(use: HttpUse): set<Path>
  {
    set p | p in use.vars
  }

  /** The fields that are left when the path has taken its own. */
  function Rest(m: Model, req: string, use: HttpUse): Result<seq<Path>, Error>
    requires req in m.messages
  {
    Remaining(m, m.messages[req].fields, Bound(use), {req}, HalfOf(use.verb), HasSchema(m))
  }

  /** The fields that are left are rendered one by one: the whole request is not the body. */
  predicate Flattened(use: HttpUse)
  {
    Bodyless(use.verb) || use.vars != []
  }

  // ---- What an operation refers to ----

  /** What the schema of the field at a path refers to. */
  function LeafRefs(m: Model, fs: seq<Field>, p: Path): set<string>
  {
    if Walks(m, fs, p) then RefsOf(PropertyOf(m, Leaf(m, fs, p))) else {}
  }

  function PathRefs(m: Model, fs: seq<Field>, ps: seq<Path>): set<string>
  {
    if ps == [] then {} else PathRefs(m, fs, ps[..|ps| - 1]) + LeafRefs(m, fs, ps[|ps| - 1])
  }

  lemma {:induction false} PathRefsHas(m: Model, fs: seq<Field>, ps: seq<Path>, x: string) returns (p: Path)
    requires x in PathRefs(m, fs, ps)
    ensures p in ps && x in LeafRefs(m, fs, p)
  {
    hide LeafRefs;
    p := ps[|ps| - 1];
    if x !in LeafRefs(m, fs, p) {
      p := PathRefsHas(m, fs, ps[..|ps| - 1], x);
    }
  }

  /** What the fields left over refer to, or the whole request. */
  function RestRefs(m: Model, req: string, use: HttpUse): set<string>
    requires req in m.messages
  {
    if !Flattened(use) then {req}
    else if Rest(m, req, use).Ok? then PathRefs(m, m.messages[req].fields, Rest(m, req, use).value)
    else {}
  }

  function ResponseRefs(mth: Method): set<string>
  {
    if mth.output == NO_CONTENT then {} else {mth.output}
  }

  /** Every reference in an operation's path parameters, query parameters or body, and success response. */
  function UseRefs(m: Model, mth: Method, use: HttpUse): set<string>
  {
    if mth.input !in m.messages then {}
    else PathRefs(m, m.messages[mth.input].fields, use.vars) + RestRefs(m, mth.input, use) + ResponseRefs(mth)
  }

  /** The verbs whose requests have no body. */
  const BODYLESS := {"GET", "HEAD", "DELETE", "OPTIONS"}

  lemma {:induction false} PathRefsAre(m: Model, fs: seq<Field>, ps: seq<Path>, x: string)
    ensures x in PathRefs(m, fs, ps) <==> exists p :: p in ps && x in LeafRefs(m, fs, p)
  {
    hide LeafRefs;
    if ps != [] {
      var before, last := ps[..|ps| - 1], ps[|ps| - 1];
      assert ps == before + [last];
      PathRefsAre(m, fs, before, x);
    }
  }

  /** The field at p has a schema that refers to x. */
  ghost predicate LeafRefers(m: Model, fs: seq<Field>, p: Path, x: string)
  {
    Walks(m, fs, p) && PropertyOf(m, Leaf(m, fs, p)).Some? && x in RefsIn(PropertyOf(m, Leaf(m, fs, p)).value)
  }

  /** An operation refers to what the fields in its path refer to; to the whole request, when its verb has a body and
    * nothing is bound to the path, and else to what the remaining fields refer to; and to its response. */
  lemma UseRefsIff(m: Model, mth: Method, use: HttpUse, x: string)
    requires mth.input in m.messages
    ensures var fs := m.messages[mth.input].fields;
            x in UseRefs(m, mth, use) <==>
              || (exists p :: p in use.vars && LeafRefers(m, fs, p, x))
              || (use.verb !in BODYLESS && use.vars == [] && x == mth.input)
              || ((use.verb in BODYLESS || use.vars != []) && Rest(m, mth.input, use).Ok?
                  && exists p :: p in Rest(m, mth.input, use).value && LeafRefers(m, fs, p, x))
              || (x == mth.output && x != "google.protobuf.Empty")
  {
    hide Walks, Leaf, PropertyOf, Rest, RefsIn, PathRefs;
    var fs := m.messages[mth.input].fields;
    PathRefsAre(m, fs, use.vars, x);
    if Rest(m, mth.input, use).Ok? {
      PathRefsAre(m, fs, Rest(m, mth.input, use).value, x);
    }
  }

  /** A path parameter names a singular field that has a flat schema. */
  predicate ParamOk(m: Model, fs: seq<Field>, p: Path)
  {
    Resolves(m, fs, p) && !Unflat(m, Leaf(m, fs, p)) && PropertyOf(m, Leaf(m, fs, p)).Some?
  }

  /** Nothing about the operation itself is refused: its request, its parameters, what is left, its response. */
  predicate UseOk(m: Model, mth: Method, use: HttpUse)
  {
    && mth.input in m.messages
    && (forall p :: p in use.vars ==> ParamOk(m, m.messages[mth.input].fields, p))
    && (Flattened(use) ==> Rest(m, mth.input, use).Ok?)
    && (mth.output == NO_CONTENT || mth.output in m.messages)
  }

  /** The operation renders: nothing refused, and nothing it leads to without a schema. */
  ghost predicate Renders(m: Model, mth: Method, use: HttpUse)
  {
    UseOk(m, mth, use) && forall x :: x in UseRefs(m, mth, use) ==> !Blocked(m, x)
  }

  // ---- They are references of the operation's own containers ----

  /** Map entries stand behind repeated fields only, and nothing else names one. */
  ghost predicate EntriesHidden(m: Model)
  {
    && (forall n, f :: n in m.messages && f in m.messages[n].fields ==> EntryField(m, f))
    && forall s, mth :: s in m.services && mth in s.methods ==> !IsEntry(m, mth.input) && !IsEntry(m, mth.output)
  }

  predicate EntryField(m: Model, f: Field)
  {
    && (IsEntry(m, TypeName(f.kind)) ==> f.kind.MessageKind? && f.repeated
                                         && !IsEntry(m, TypeName(m.messages[f.kind.fqn].mapValue)))
    && forall k :: 0 <= k < |f.chain| ==> !IsEntry(m, f.chain[k])
  }

  /** A path that walks goes through a chain of containers to the message that declares its leaf. */
  lemma {:induction false} WalkContainers(m: Model, n: string, p: Path) returns (c: seq<string>)
    requires EntriesHidden(m) && n in m.messages && !IsEntry(m, n) && Walks(m, m.messages[n].fields, p)
    ensures Containers(m, c) && c[0] == n
    ensures Leaf(m, m.messages[n].fields, p) in m.messages[c[|c| - 1]].fields
    decreases |p|
  {
    hide IsEntry, EntriesHidden, NamesDistinct;
    var fs := m.messages[n].fields;
    var i := FoundAt(fs, p[0]);
    var f := fs[i];
    if |p| == 1 {
      c := [n];
    } else {
      var sub := f.kind.fqn;
      EntryIsRepeated(m, n, f);
      var below := WalkContainers(m, sub, p[1..]);
      ContainersUp(m, n, f, below);
      c := [n] + below;
      assert c[|c| - 1] == below[|below| - 1];
    }
  }

  /** A chain goes on above: from the message one of whose fields is of its first type. */
  lemma ContainersUp(m: Model, n: string, f: Field, below: seq<string>)
    requires n in m.messages && !IsEntry(m, n) && f in m.messages[n].fields
    requires Containers(m, below) && TypeName(f.kind) == below[0]
    ensures Containers(m, [n] + below)
  {
    hide IsEntry, TypeName;
    var c := [n] + below;
    assert HasFieldOf(m, n, below[0]);
    hide HasFieldOf;
    forall k | 0 <= k < |c| - 1
      ensures HasFieldOf(m, c[k], c[k + 1])
    {
      assert k > 0 ==> c[k] == below[k - 1];
      assert c[k + 1] == below[k];
    }
    assert forall k :: 1 <= k < |c| ==> c[k] == below[k - 1];
  }

  lemma EntryIsRepeated(m: Model, n: string, f: Field)
    requires EntriesHidden(m) && n in m.messages && f in m.messages[n].fields && Enterable(m, f)
    ensures !IsEntry(m, f.kind.fqn)
  {
    assert EntryField(m, f);
  }

  /** What remains for the query string or the body walks, has a schema, and is flat where it must be. */
  lemma {:induction false} RestWalks(m: Model, fs: seq<Field>, bound: set<Path>, seen: set<string>, half: Half,
                                     renders: Field -> bool, q: Path)
    requires NamesDistinct(m) && DistinctNames(fs) && AllWalk(m, fs, bound)
    requires Remaining(m, fs, bound, seen, half, renders).Ok? && q in Remaining(m, fs, bound, seen, half, renders).value
    ensures Walks(m, fs, q) && renders(Leaf(m, fs, q)) && (half == Query ==> !Unflat(m, Leaf(m, fs, q)))
    decreases |q|
  {
    hide Remaining, OfField, Under, Prefixed, Unflat, DistinctNames;
    RemainingParts(m, fs, bound, seen, half, renders);
    var i :| 0 <= i < |fs| && q in OfField(m, fs[i], bound, seen, half, renders).value;
    var f := fs[i];
    FoundByName(fs, i);
    OfFieldHeads(m, f, bound, seen, half, renders, q);
    if Opens(m, f, bound) {
      OpensIs(m, f, bound, seen, half, renders);
      UnderWalks(m, fs, bound, f);
      HereBelow(m, f, bound, seen, half, renders, q);
      RestWalks(m, m.messages[f.kind.fqn].fields, Under(bound, f.name), seen + {f.kind.fqn}, half, renders, q[1..]);
    } else {
      HereAlone(m, f, bound, seen, half, renders, q);
    }
  }

  lemma HereBelow(m: Model, f: Field, bound: set<Path>, seen: set<string>, half: Half, renders: Field -> bool, q: Path)
    requires Opens(m, f, bound) && OfField(m, f, bound, seen, half, renders).Ok?
    requires q in OfField(m, f, bound, seen, half, renders).value
    ensures !f.kind.ScalarKind? && f.kind.fqn in m.messages && f.kind.fqn !in seen && |q| > 0
    ensures var r :=
              Remaining(m, m.messages[f.kind.fqn].fields, Under(bound, f.name), seen + {f.kind.fqn}, half, renders);
            r.Ok? && q[1..] in r.value
  {
    hide Remaining, Under, Prefixed;
    var r := Remaining(m, m.messages[f.kind.fqn].fields, Under(bound, f.name), seen + {f.kind.fqn}, half, renders);
    PrefixedHas(f.name, r.value, q);
  }

  lemma HereAlone(m: Model, f: Field, bound: set<Path>, seen: set<string>, half: Half, renders: Field -> bool, q: Path)
    requires !Opens(m, f, bound) && OfField(m, f, bound, seen, half, renders).Ok?
    requires q in OfField(m, f, bound, seen, half, renders).value
    ensures q == [f.name] && renders(f) && (half == Query ==> !Unflat(m, f))
  {
    hide Remaining, Under, Unflat;
  }

  /** A leaf's references are the operation's, and none is a map entry. */
  lemma LeafIsOperationRef(m: Model, mth: Method, p: Path, x: string)
    requires EntriesHidden(m) && !Known(m, "") && mth.input in m.messages && !IsEntry(m, mth.input)
    requires x in LeafRefs(m, m.messages[mth.input].fields, p)
    ensures OperationRef(m, mth, x) && !IsEntry(m, x)
  {
    hide Walks, Leaf, PropertyOf, RefsIn, IsEntry;
    var c := WalkContainers(m, mth.input, p);
    var f := Leaf(m, m.messages[mth.input].fields, p);
    assert Containers(m, c) && c[0] == mth.input && f in m.messages[c[|c| - 1]].fields;
    assert PropertyOf(m, f).Some? && x in RefsIn(PropertyOf(m, f).value);
    ContainersThere(m, c, |c| - 1);
    assert EntryField(m, f);
    NoEntryNamed(m, f, x);
  }

  lemma ContainersThere(m: Model, c: seq<string>, k: nat)
    requires Containers(m, c) && k < |c|
    ensures c[k] in m.messages && !IsEntry(m, c[k])
  {
  }

  lemma NoEntryNamed(m: Model, f: Field, x: string)
    requires EntryField(m, f) && !Known(m, "") && PropertyOf(m, f).Some? && x in RefsIn(PropertyOf(m, f).value)
    ensures !IsEntry(m, x)
  {
    hide Wkt, IsPrimitive, Wrapped, RefsIn, PropertyOf;
    PropertyRefsTargeted(m, f, x);
  }

  /** Everything an operation's schemas refer to is its request, its response, or what a field of its containers
    * refers to. */
  lemma UseRefsAreOperationRefs(m: Model, svc: Service, mth: Method, use: HttpUse, x: string)
    requires NamesDistinct(m) && EntriesHidden(m) && !Known(m, "") && svc in m.services && mth in svc.methods
    requires UseOk(m, mth, use) && x in UseRefs(m, mth, use)
    ensures OperationRef(m, mth, x) && !IsEntry(m, x)
  {
    hide Remaining, LeafRefs, IsEntry, PathRefs, Containers;
    var fs := m.messages[mth.input].fields;
    if x in PathRefs(m, fs, use.vars) {
      var p := PathRefsHas(m, fs, use.vars, x);
      LeafIsOperationRef(m, mth, p, x);
    } else if Flattened(use) && x in RestRefs(m, mth.input, use) {
      var p := PathRefsHas(m, fs, Rest(m, mth.input, use).value, x);
      LeafIsOperationRef(m, mth, p, x);
    }
  }

  // ---- All operations ----

  /** An operation: a use of @http, the binding-th of its method. */
  datatype Op = Op(svc: Service, mth: Method, use: HttpUse, binding: nat)

  /** The verb and the path that a document files an operation under. */
  datatype Claim = Claim(verb: string, key: string)

  function ClaimOf(lower: string -> string, op: Op): Claim
  {
    Claim(lower(op.use.verb), PathTemplate.OpenApi(op.use.path))
  }

  /** The operation's id; a binding after the first must name its own. */
  function IdOf(op: Op): Option<string>
  {
    if op.use.operationId != "" then Some(op.use.operationId)
    else if op.binding > 0 then None
    else Some(op.svc.name + "_" + op.mth.name)
  }

  /** An operation has the id it names, and else the first binding of a method has one made of service and method. */
  lemma IdIs(op: Op, id: string)
    ensures IdOf(op) == Some(id) <==>
              || (op.use.operationId != "" && id == op.use.operationId)
              || (op.use.operationId == "" && op.binding == 0 && id == op.svc.name + "_" + op.mth.name)
  {
  }

  /** Two operations claim one place exactly when their verbs are the same in lower case and their paths differ in
    * sub-path patterns only. */
  lemma PlacesClashIff(lower: string -> string, a: Op, b: Op)
    ensures ClaimOf(lower, a) == ClaimOf(lower, b) <==>
              && lower(a.use.verb) == lower(b.use.verb)
              && PathTemplate.Normal(PathTemplate.Pieces(a.use.path))
                   == PathTemplate.Normal(PathTemplate.Pieces(b.use.path))
  {
    hide PathTemplate.OpenApi, PathTemplate.Normal, PathTemplate.Pieces;
    PathTemplate.CollideIff(a.use.path, b.use.path);
  }

  predicate Open(admits: string -> bool, svc: Service)
  {
    !svc.generated && admits(svc.fqn)
  }

  /** The first n uses of a method. */
  function UseOps(svc: Service, mth: Method, n: nat): (ops: seq<Op>)
    requires n <= |mth.uses|
    ensures |ops| == n && forall i :: 0 <= i < n ==> ops[i] == Op(svc, mth, mth.uses[i], i)
  {
    seq(n, i requires 0 <= i < n => Op(svc, mth, mth.uses[i], i))
  }

  function MethodOps(admits: string -> bool, svc: Service, methods: seq<Method>): seq<Op>
  {
    if methods == [] then []
    else
      var last := methods[|methods| - 1];
      MethodOps(admits, svc, methods[..|methods| - 1])
      + if admits(MethodName(svc, last)) then UseOps(svc, last, |last.uses|) else []
  }

  /** The operations of all admitted services and methods, in order. */
  function AllOps(admits: string -> bool, services: seq<Service>): seq<Op>
  {
    if services == [] then []
    else
      var last := services[|services| - 1];
      AllOps(admits, services[..|services| - 1])
      + if Open(admits, last) then MethodOps(admits, last, last.methods) else []
  }

  /** A use of an admitted method of an admitted service. */
  predicate IsOp(admits: string -> bool, services: seq<Service>, op: Op)
  {
    && op.svc in services && Open(admits, op.svc) && op.mth in op.svc.methods && admits(MethodName(op.svc, op.mth))
    && op.binding < |op.mth.uses| && op.use == op.mth.uses[op.binding]
  }

  lemma {:induction false} MethodOpsAre(admits: string -> bool, svc: Service, methods: seq<Method>, op: Op)
    ensures op in MethodOps(admits, svc, methods)
       <==> && op.svc == svc && op.mth in methods && admits(MethodName(svc, op.mth))
            && op.binding < |op.mth.uses| && op.use == op.mth.uses[op.binding]
  {
    if methods != [] {
      var before, last := methods[..|methods| - 1], methods[|methods| - 1];
      MethodOpsAre(admits, svc, before, op);
      assert methods == before + [last];
      UseOpsAre(svc, last, op);
      hide UseOps;
    }
  }

  lemma UseOpsAre(svc: Service, mth: Method, op: Op)
    ensures op in UseOps(svc, mth, |mth.uses|)
       <==> op.svc == svc && op.mth == mth && op.binding < |mth.uses| && op.use == mth.uses[op.binding]
  {
    var ops := UseOps(svc, mth, |mth.uses|);
    if op.svc == svc && op.mth == mth && op.binding < |mth.uses| && op.use == mth.uses[op.binding] {
      assert ops[op.binding] == op;
    }
  }

  /** The operations are every use of every admitted method of every admitted service. */
  lemma {:induction false} AllOpsAre(admits: string -> bool, services: seq<Service>, op: Op)
    ensures op in AllOps(admits, services) <==> IsOp(admits, services, op)
  {
    hide MethodOps, Open;
    if services != [] {
      var before, last := services[..|services| - 1], services[|services| - 1];
      AllOpsAre(admits, before, op);
      assert services == before + [last];
      MethodOpsAre(admits, last, last.methods, op);
    }
  }

  /** What some operations refer to. */
  function OpsRefs(m: Model, ops: seq<Op>): set<string>
  {
    if ops == [] then {}
    else OpsRefs(m, ops[..|ops| - 1]) + UseRefs(m, ops[|ops| - 1].mth, ops[|ops| - 1].use)
  }

  lemma {:induction false} OpsRefsAre(m: Model, ops: seq<Op>, x: string)
    ensures x in OpsRefs(m, ops) <==> exists op :: op in ops && x in UseRefs(m, op.mth, op.use)
  {
    hide UseRefs;
    if ops != [] {
      var before, last := ops[..|ops| - 1], ops[|ops| - 1];
      OpsRefsAre(m, before, x);
      assert ops == before + [last];
      assert forall op :: op in ops <==> op in before || op == last;
    }
  }

  /** Nothing about the operation alone is refused. */
  ghost predicate OpOk(m: Model, schemes: set<string>, op: Op)
  {
    && IdOf(op).Some? && Renders(m, op.mth, op.use)
    && forall s :: s in op.use.security ==> s in schemes
  }

  /** Every operation is right, and no two share an id, or a verb and a path. */
  ghost predicate AllOk(m: Model, schemes: set<string>, lower: string -> string, ops: seq<Op>)
  {
    && (forall op :: op in ops ==> OpOk(m, schemes, op))
    && forall i, j :: 0 <= i < j < |ops| ==>
         IdOf(ops[i]) != IdOf(ops[j]) && ClaimOf(lower, ops[i]) != ClaimOf(lower, ops[j])
  }

  function Ids(ops: seq<Op>): set<string>
  {
    set op | op in ops && IdOf(op).Some? :: IdOf(op).value
  }

  function Claims(lower: string -> string, ops: seq<Op>): set<Claim>
  {
    set op | op in ops :: ClaimOf(lower, op)
  }

  function Secured(ops: seq<Op>): set<string>
  {
    set op, s | op in ops && s in op.use.security :: s
  }

  /** One operation more. */
  lemma AllOkMore(m: Model, schemes: set<string>, lower: string -> string, ops: seq<Op>, op: Op)
    requires AllOk(m, schemes, lower, ops)
    ensures AllOk(m, schemes, lower, ops + [op])
       <==> && OpOk(m, schemes, op) && IdOf(op).value !in Ids(ops) && ClaimOf(lower, op) !in Claims(lower, ops)
    ensures IdOf(op).Some? ==> Ids(ops + [op]) == Ids(ops) + {IdOf(op).value}
    ensures Claims(lower, ops + [op]) == Claims(lower, ops) + {ClaimOf(lower, op)}
    ensures Secured(ops + [op]) == Secured(ops) + AsSet(op.use.security)
    ensures OpsRefs(m, ops + [op]) == OpsRefs(m, ops) + UseRefs(m, op.mth, op.use)
  {
    hide OpOk, ClaimOf, IdOf, UseRefs;
    var all := ops + [op];
    assert all[|ops|] == op && all[..|ops|] == ops;
    assert forall o :: o in all <==> o in ops || o == op;
    if AllOk(m, schemes, lower, all) {
      OpOkHasId(m, schemes, op);
      forall i | 0 <= i < |ops|
        ensures IdOf(ops[i]) != IdOf(op) && ClaimOf(lower, ops[i]) != ClaimOf(lower, op)
      {
        assert all[i] == ops[i];
      }
    }
    if OpOk(m, schemes, op) {
      OpOkHasId(m, schemes, op);
      forall i | 0 <= i < |ops|
        ensures IdOf(ops[i]).Some?
      {
        OpOkHasId(m, schemes, ops[i]);
      }
    }
  }

  lemma OpOkHasId(m: Model, schemes: set<string>, op: Op)
    requires OpOk(m, schemes, op)
    ensures IdOf(op).Some?
  {
  }

  lemma AllOkPrefix(m: Model, schemes: set<string>, lower: string -> string, a: seq<Op>, b: seq<Op>)
    requires AllOk(m, schemes, lower, a + b)
    ensures AllOk(m, schemes, lower, a)
  {
    hide OpOk, ClaimOf, IdOf;
    assert forall i :: 0 <= i < |a| ==> (a + b)[i] == a[i];
  }

  // ---- The builder ----

  lemma RenderedComplete(m: Model, was: Components, out: Components, roots: set<string>, s: Option<Schema>)
    requires Complete(m, was, roots) && SchemaBuilder.Rendered(m, was, out, s)
    ensures Complete(m, out, roots + RefsOf(s))
    ensures forall x :: x in RefsOf(s) ==> !Blocked(m, x)
  {
    hide Complete, Extends, NewFrom, Blocked, RefsOf;
    CompleteMore(m, was, out, roots, RefsOf(s));
  }

  class OperationsBuilder {
    const m: Model
    const sb: Builder
    const schemes: set<string>
    const lower: string -> string
    var operationIds: set<string>
    var claims: set<Claim>
    var usedSchemes: set<string>
    var needsReport: bool

    constructor (m: Model, sb: Builder, schemes: set<string>, lower: string -> string)
      requires sb.m == m
      ensures this.m == m && this.sb == sb && this.schemes == schemes && this.lower == lower
      ensures operationIds == {} && claims == {} && usedSchemes == {} && !needsReport
    {
      this.m, this.sb, this.schemes, this.lower := m, sb, schemes, lower;
      operationIds, claims, usedSchemes, needsReport := {}, {}, {}, false;
    }

    ghost predicate Valid()
    {
      sb.m == m && NamesDistinct(m)
    }

    /** The operations ops have been built on top of roots. */
    ghost predicate Built(ops: seq<Op>, roots: set<string>)
      reads this, sb
    {
      && Valid() && AllOk(m, schemes, lower, ops) && Complete(m, sb.out, roots + OpsRefs(m, ops))
      && operationIds == Ids(ops) && claims == Claims(lower, ops) && usedSchemes == Secured(ops)
      && (needsReport <==> ops != [])
    }

    /** The schemas of the fields at some paths, their components forced. */
    method Schemas(fs: seq<Field>, ps: seq<Path>, ghost roots: set<string>) returns (ok: bool)
      requires Valid() && Complete(m, sb.out, roots)
      requires forall p :: p in ps ==> Walks(m, fs, p) && PropertyOf(m, Leaf(m, fs, p)).Some?
      modifies sb`out
      ensures ok ==> Complete(m, sb.out, roots + PathRefs(m, fs, ps))
      ensures ok <==> forall x :: x in PathRefs(m, fs, ps) ==> !Blocked(m, x)
    {
      hide Complete, Blocked, Extends, NewFrom, Walks, Leaf, PropertyOf, RefsOf, PathRefs, LeafRefs;
      var i := 0;
      assert roots + PathRefs(m, fs, ps[..0]) == roots by {
        NoPathRefs(m, fs, ps);
      }
      NoPathRefs(m, fs, ps);
      while i < |ps|
        invariant i <= |ps|
        invariant Complete(m, sb.out, roots + PathRefs(m, fs, ps[..i]))
        invariant forall x :: x in PathRefs(m, fs, ps[..i]) ==> !Blocked(m, x)
      {
        ghost var was := sb.out;
        PathRefsNext(m, fs, ps, i);
        var s := sb.PropertySchema(Leaf(m, fs, ps[i]));
        if s.None? {
          StuckAmong(m, fs, ps, i);
          return false;
        }
        RenderedComplete(m, was, sb.out, roots + PathRefs(m, fs, ps[..i]), s);
        assert roots + PathRefs(m, fs, ps[..i]) + RefsOf(s) == roots + PathRefs(m, fs, ps[..i + 1]);
        i := i + 1;
      }
      assert ps[..i] == ps;
      ok := true;
    }

    /** The path parameters, in the order of the template. */
    method PathParams(req: MessageInfo, vars: seq<Path>, ghost roots: set<string>) returns (ok: bool)
      requires Valid() && Complete(m, sb.out, roots)
      modifies sb`out
      ensures ok ==> Complete(m, sb.out, roots + PathRefs(m, req.fields, vars))
      ensures ok <==> (forall p :: p in vars ==> ParamOk(m, req.fields, p))
                      && forall x :: x in PathRefs(m, req.fields, vars) ==> !Blocked(m, x)
    {
      hide Complete, Blocked, Extends, NewFrom, Walks, Leaf, PropertyOf, RefsOf, PathRefs, LeafRefs, Unflat;
      var i := 0;
      NoPathRefs(m, req.fields, vars);
      assert roots + PathRefs(m, req.fields, vars[..0]) == roots;
      while i < |vars|
        invariant i <= |vars|
        invariant Complete(m, sb.out, roots + PathRefs(m, req.fields, vars[..i]))
        invariant forall x :: x in PathRefs(m, req.fields, vars[..i]) ==> !Blocked(m, x)
        invariant forall k :: 0 <= k < i ==> ParamOk(m, req.fields, vars[k])
      {
        ghost var was := sb.out;
        assert vars[i] in vars;
        var leaf := ResolveFieldPath(m, req, vars[i]);
        if leaf.None? || Unflat(m, leaf.value) {
          return false;
        }
        var s := sb.PropertySchema(leaf.value);
        if s.None? {
          if ParamOk(m, req.fields, vars[i]) {
            StuckAmong(m, req.fields, vars, i);
          }
          return false;
        }
        PathRefsNext(m, req.fields, vars, i);
        RenderedComplete(m, was, sb.out, roots + PathRefs(m, req.fields, vars[..i]), s);
        assert roots + PathRefs(m, req.fields, vars[..i]) + RefsOf(s) == roots + PathRefs(m, req.fields, vars[..i + 1]);
        i := i + 1;
      }
      assert vars[..i] == vars;
      ok := true;
    }

    /** The query parameters or the body: the fields left over, or the whole request. */
    method RestSchemas(req: string, use: HttpUse, ghost roots: set<string>) returns (ok: bool)
      requires Valid() && Complete(m, sb.out, roots)
      requires req in m.messages && forall p :: p in use.vars ==> ParamOk(m, m.messages[req].fields, p)
      modifies sb`out
      ensures ok ==> Complete(m, sb.out, roots + RestRefs(m, req, use))
      ensures ok <==> (Flattened(use) ==> Rest(m, req, use).Ok?) && forall x :: x in RestRefs(m, req, use) ==>
                !Blocked(m, x)
    {
      hide Complete, Blocked, Extends, NewFrom, Remaining, ParamOk, Walks, PathRefs, HasSchema;
      var mi, bound := m.messages[req], Bound(use);
      if !Flattened(use) {
        ghost var was := sb.out;
        ok := sb.Component(req);
        if ok {
          CompleteMore(m, was, sb.out, roots, {req});
        }
        return;
      }
      var ps: seq<Path>;
      if Bodyless(use.verb) {
        var r := QueryParams(m, mi, Descent(bound, [], {req}), HasSchema(m));
        FromNothingLeft(Rest(m, req, use));
        if r.Err? {
          return false;
        }
        ps := r.value;
      } else {
        var r := BodyObject(m, mi, Descent(bound, [], {req}), HasSchema(m));
        if r.Err? {
          return false;
        }
        ps := TreePaths(r.value);
      }
      forall p | p in ps
        ensures Walks(m, mi.fields, p) && PropertyOf(m, Leaf(m, mi.fields, p)).Some?
      {
        RestHasSchema(m, req, use, p);
      }
      ok := Schemas(mi.fields, ps, roots);
    }

    /** The success response. */
    method Response(mth: Method, ghost roots: set<string>) returns (ok: bool)
      requires Valid() && Complete(m, sb.out, roots)
      modifies sb`out
      ensures ok ==> Complete(m, sb.out, roots + ResponseRefs(mth))
      ensures ok <==> (mth.output == NO_CONTENT || mth.output in m.messages)
                      && forall x :: x in ResponseRefs(mth) ==> !Blocked(m, x)
    {
      hide Complete, Blocked, Extends, NewFrom;
      if mth.output == NO_CONTENT {
        assert roots + {} == roots;
      } else {
        if mth.output !in m.messages {
          return false;
        }
        ghost var was := sb.out;
        ok := sb.Component(mth.output);
        if !ok {
          return;
        }
        CompleteMore(m, was, sb.out, roots, {mth.output});
      }
      ok := true;
    }

    /** The parameters, the body and the response of an operation: they render exactly when nothing about them is
      * refused and everything they lead to has a schema, and then all of that is there. */
    method Render(mth: Method, use: HttpUse, ghost roots: set<string>) returns (ok: bool)
      requires Valid() && Complete(m, sb.out, roots)
      modifies sb`out
      ensures ok ==> Complete(m, sb.out, roots + UseRefs(m, mth, use))
      ensures ok <==> Renders(m, mth, use)
    {
      hide Complete, Blocked, Remaining, ParamOk, PathRefs, RestRefs, ResponseRefs, Rest;
      if mth.input !in m.messages {
        return false;
      }
      var req := m.messages[mth.input];
      ok := PathParams(req, use.vars, roots);
      if !ok {
        return;
      }
      ghost var path, rest := PathRefs(m, req.fields, use.vars), RestRefs(m, mth.input, use);
      ok := RestSchemas(mth.input, use, roots + path);
      if !ok {
        return;
      }
      ok := Response(mth, roots + path + rest);
      assert roots + path + rest + ResponseRefs(mth) == roots + UseRefs(m, mth, use);
    }

    /** operation: one more. It is built exactly when its id and its place are its own, its security schemes are
      * defined, and it renders. */
    method Operation(op: Op, ghost ops: seq<Op>, ghost roots: set<string>) returns (ok: bool)
      requires Built(ops, roots)
      modifies this, sb`out
      ensures ok ==> Built(ops + [op], roots)
      ensures ok <==> AllOk(m, schemes, lower, ops + [op])
    {
      hide AllOk, Complete, Renders, IdOf, ClaimOf, Ids, Claims, Secured, OpsRefs, UseRefs, NamesDistinct;
      AllOkMore(m, schemes, lower, ops, op);
      var id := IdOf(op);
      if id.None? || id.value in operationIds {
        return false;
      }
      operationIds := operationIds + {id.value};
      ok := Render(op.mth, op.use, roots + OpsRefs(m, ops));
      if !ok {
        return;
      }
      ok := Secure(op.use.security);
      if !ok {
        return;
      }
      needsReport := true;
      var claim := ClaimOf(lower, op);
      if claim in claims {
        return false;
      }
      claims := claims + {claim};
      assert roots + OpsRefs(m, ops) + UseRefs(m, op.mth, op.use) == roots + OpsRefs(m, ops + [op]);
    }

    /** The security schemes of an operation, each defined. */
    method Secure(names: seq<string>) returns (ok: bool)
      modifies this`usedSchemes
      ensures ok <==> forall s :: s in names ==> s in schemes
      ensures ok ==> usedSchemes == old(usedSchemes) + AsSet(names)
    {
      for i := 0 to |names|
        invariant forall s :: s in names[..i] ==> s in schemes
        invariant usedSchemes == old(usedSchemes) + AsSet(names[..i])
      {
        assert names[..i + 1] == names[..i] + [names[i]];
        if names[i] !in schemes {
          return false;
        }
        usedSchemes := usedSchemes + {names[i]};
      }
      assert names[..|names|] == names;
      ok := true;
    }

    /** The uses of one method. */
    method UseOperations(svc: Service, mth: Method, ghost ops: seq<Op>, ghost roots: set<string>) returns (ok: bool)
      requires Built(ops, roots)
      modifies this, sb`out
      ensures ok ==> Built(ops + UseOps(svc, mth, |mth.uses|), roots)
      ensures ok <==> AllOk(m, schemes, lower, ops + UseOps(svc, mth, |mth.uses|))
    {
      assert UseOps(svc, mth, 0) == [] && ops + [] == ops;
      hide Built, AllOk, UseOps;
      for u := 0 to |mth.uses|
        invariant Built(ops + UseOps(svc, mth, u), roots)
      {
        UseOpsNext(svc, mth, u, ops);
        ok := Operation(Op(svc, mth, mth.uses[u], u), ops + UseOps(svc, mth, u), roots);
        if !ok {
          ghost var more := UseOpsRest(svc, mth, u + 1, ops);
          NotAllOk(m, schemes, lower, ops + UseOps(svc, mth, u + 1), more, ops + UseOps(svc, mth, |mth.uses|));
          return;
        }
      }
      BuiltOk(ops + UseOps(svc, mth, |mth.uses|), roots);
      ok := true;
    }

    lemma BuiltOk(ops: seq<Op>, roots: set<string>)
      requires Built(ops, roots)
      ensures AllOk(m, schemes, lower, ops)
    {
    }

    /** The admitted methods of one service. */
    method ServiceOperations(admits: string -> bool, svc: Service, ghost ops: seq<Op>, ghost roots: set<string>)
      returns (ok: bool)
      requires Built(ops, roots)
      modifies this, sb`out
      ensures ok ==> Built(ops + MethodOps(admits, svc, svc.methods), roots)
      ensures ok <==> AllOk(m, schemes, lower, ops + MethodOps(admits, svc, svc.methods))
    {
      var ms := svc.methods;
      assert ms[..0] == [] && MethodOps(admits, svc, []) == [] && ops + [] == ops;
      hide Built, AllOk, MethodOps, UseOps;
      for k := 0 to |ms|
        invariant Built(ops + MethodOps(admits, svc, ms[..k]), roots)
      {
        ghost var before := ops + MethodOps(admits, svc, ms[..k]);
        MethodOpsNext(admits, svc, ms, k, ops);
        if admits(MethodName(svc, ms[k])) {
          ok := UseOperations(svc, ms[k], before, roots);
          if !ok {
            ghost var more := MethodOpsRest(admits, svc, ms, k + 1, ops);
            NotAllOk(m, schemes, lower, ops + MethodOps(admits, svc, ms[..k + 1]), more,
                ops + MethodOps(admits, svc, ms));
            return;
          }
        }
      }
      assert ms[..|ms|] == ms;
      BuiltOk(ops + MethodOps(admits, svc, ms), roots);
      ok := true;
    }

    /** buildAll: every use of every admitted method of every admitted service. */
    method BuildAll(admits: string -> bool, ghost roots: set<string>) returns (ok: bool)
      requires Built([], roots)
      modifies this, sb`out
      ensures ok ==> Built(AllOps(admits, m.services), roots)
      ensures ok <==> AllOk(m, schemes, lower, AllOps(admits, m.services))
    {
      var ss := m.services;
      assert ss[..0] == [] && AllOps(admits, []) == [];
      hide Built, AllOk, AllOps, MethodOps, Open;
      for s := 0 to |ss|
        invariant Built(AllOps(admits, ss[..s]), roots)
      {
        AllOpsNext(admits, ss, s);
        if Open(admits, ss[s]) {
          ok := ServiceOperations(admits, ss[s], AllOps(admits, ss[..s]), roots);
          if !ok {
            ghost var more := AllOpsRest(admits, ss, s + 1);
            NotAllOk(m, schemes, lower, AllOps(admits, ss[..s + 1]), more, AllOps(admits, ss));
            return;
          }
        }
      }
      assert ss[..|ss|] == ss;
      BuiltOk(AllOps(admits, ss), roots);
      ok := true;
    }
  }

  lemma NotAllOk(m: Model, schemes: set<string>, lower: string -> string, a: seq<Op>, b: seq<Op>, all: seq<Op>)
    requires !AllOk(m, schemes, lower, a) && all == a + b
    ensures !AllOk(m, schemes, lower, all)
  {
    if AllOk(m, schemes, lower, all) {
      AllOkPrefix(m, schemes, lower, a, b);
    }
  }

  lemma UseOpsNext(svc: Service, mth: Method, u: nat, ops: seq<Op>)
    requires u < |mth.uses|
    ensures ops + UseOps(svc, mth, u) + [Op(svc, mth, mth.uses[u], u)] == ops + UseOps(svc, mth, u + 1)
  {
    assert UseOps(svc, mth, u) + [Op(svc, mth, mth.uses[u], u)] == UseOps(svc, mth, u + 1);
    Seqs.Associate(ops, UseOps(svc, mth, u), [Op(svc, mth, mth.uses[u], u)]);
  }

  lemma UseOpsRest(svc: Service, mth: Method, u: nat, ops: seq<Op>) returns (more: seq<Op>)
    requires u <= |mth.uses|
    ensures ops + UseOps(svc, mth, |mth.uses|) == ops + UseOps(svc, mth, u) + more
  {
    var all := UseOps(svc, mth, |mth.uses|);
    more := all[u..];
    assert all == UseOps(svc, mth, u) + more;
    Seqs.Associate(ops, UseOps(svc, mth, u), more);
  }

  lemma MethodOpsNext(admits: string -> bool, svc: Service, methods: seq<Method>, k: nat, ops: seq<Op>)
    requires k < |methods|
    ensures ops + MethodOps(admits, svc, methods[..k + 1])
         == if admits(MethodName(svc, methods[k]))
            then ops + MethodOps(admits, svc, methods[..k]) + UseOps(svc, methods[k], |methods[k].uses|)
            else ops + MethodOps(admits, svc, methods[..k])
  {
    hide UseOps;
    assert methods[..k + 1][..k] == methods[..k];
    assert MethodOps(admits, svc, methods[..k]) + [] == MethodOps(admits, svc, methods[..k]);
  }

  lemma {:induction false} MethodOpsRest(admits: string -> bool, svc: Service, methods: seq<Method>, k: nat,
                                         ops: seq<Op>)
    returns (more: seq<Op>)
    requires k <= |methods|
    ensures ops + MethodOps(admits, svc, methods) == ops + MethodOps(admits, svc, methods[..k]) + more
    decreases |methods| - k
  {
    if k == |methods| {
      assert methods[..k] == methods;
      more := [];
    } else {
      var later := MethodOpsRest(admits, svc, methods, k + 1, ops);
      MethodOpsNext(admits, svc, methods, k, ops);
      var here := if admits(MethodName(svc, methods[k])) then UseOps(svc, methods[k], |methods[k].uses|) else [];
      more := here + later;
      hide MethodOps, UseOps;
      Seqs.Associate(ops + MethodOps(admits, svc, methods[..k]), here, later);
    }
  }

  lemma AllOpsNext(admits: string -> bool, services: seq<Service>, s: nat)
    requires s < |services|
    ensures AllOps(admits, services[..s + 1])
         == if Open(admits, services[s])
            then AllOps(admits, services[..s]) + MethodOps(admits, services[s], services[s].methods)
            else AllOps(admits, services[..s])
  {
    hide MethodOps, Open;
    assert services[..s + 1][..s] == services[..s];
    assert AllOps(admits, services[..s]) + [] == AllOps(admits, services[..s]);
  }

  lemma {:induction false} AllOpsRest(admits: string -> bool, services: seq<Service>, s: nat) returns (more: seq<Op>)
    requires s <= |services|
    ensures AllOps(admits, services) == AllOps(admits, services[..s]) + more
    decreases |services| - s
  {
    if s == |services| {
      assert services[..s] == services;
      more := [];
    } else {
      var later := AllOpsRest(admits, services, s + 1);
      AllOpsNext(admits, services, s);
      var here := if Open(admits, services[s]) then MethodOps(admits, services[s], services[s].methods) else [];
      more := here + later;
      hide AllOps, MethodOps, Open;
      Seqs.Associate(AllOps(admits, services[..s]), here, later);
    }
  }

  lemma NoPathRefs(m: Model, fs: seq<Field>, ps: seq<Path>)
    ensures PathRefs(m, fs, ps[..0]) == {}
  {
  }

  lemma PathRefsNext(m: Model, fs: seq<Field>, ps: seq<Path>, i: nat)
    requires i < |ps| && Walks(m, fs, ps[i])
    ensures PathRefs(m, fs, ps[..i + 1]) == PathRefs(m, fs, ps[..i]) + RefsOf(PropertyOf(m, Leaf(m, fs, ps[i])))
  {
    hide Walks, Leaf, PropertyOf, RefsOf;
    assert ps[..i + 1][..i] == ps[..i];
  }

  lemma {:induction false} PathRefsInside(m: Model, fs: seq<Field>, ps: seq<Path>, i: nat)
    requires i < |ps|
    ensures LeafRefs(m, fs, ps[i]) <= PathRefs(m, fs, ps)
  {
    hide LeafRefs;
    if i < |ps| - 1 {
      PathRefsInside(m, fs, ps[..|ps| - 1], i);
    }
  }

  lemma StuckAmong(m: Model, fs: seq<Field>, ps: seq<Path>, i: nat)
    requires i < |ps| && Walks(m, fs, ps[i]) && PropertyOf(m, Leaf(m, fs, ps[i])).Some?
    requires Stuck(m, PropertyOf(m, Leaf(m, fs, ps[i])))
    ensures exists x :: x in PathRefs(m, fs, ps) && Blocked(m, x)
  {
    hide Walks, Leaf, PropertyOf, RefsOf, Blocked, PathRefs;
    PathRefsInside(m, fs, ps, i);
  }

  lemma FromNothingLeft(r: Result<seq<Path>, Error>)
    ensures FromAll([], r) == r
  {
    if r.Ok? {
      FromNothing(r.value);
    }
  }

  lemma RestHasSchema(m: Model, req: string, use: HttpUse, q: Path)
    requires NamesDistinct(m) && req in m.messages && forall p :: p in use.vars ==>
               ParamOk(m, m.messages[req].fields, p)
    requires Rest(m, req, use).Ok? && q in Rest(m, req, use).value
    ensures Walks(m, m.messages[req].fields, q) && PropertyOf(m, Leaf(m, m.messages[req].fields, q)).Some?
    ensures Bodyless(use.verb) ==> !Unflat(m, Leaf(m, m.messages[req].fields, q))
  {
    hide Remaining, PropertyOf, Unflat, Walks, Leaf;
    RestWalks(m, m.messages[req].fields, Bound(use), {req}, HalfOf(use.verb), HasSchema(m), q);
  }

  // ---- The whole document ----

  predicate SomeOperation(m: Model, admits: string -> bool)
  {
    AllOps(admits, m.services) != []
  }

  /** What the operations of the document refer to. */
  function AllRefs(m: Model, admits: string -> bool): set<string>
  {
    OpsRefs(m, AllOps(admits, m.services))
  }

  /** Where the components of a document come from: an admitted element, an operation's reference, or the report. */
  ghost predicate Wanted(m: Model, report: Model, admits: string -> bool, k: string)
  {
    || (exists r :: r in Roots(m, admits) + AllRefs(m, admits) && Reaches(m, r, k))
    || (SomeOperation(m, admits) && Reaches(report, REPORT, k))
  }

  /** Every component is filled, and whatever it refers to is a component. */
  ghost predicate Closed(out: Components)
  {
    forall k :: k in out ==> out[k].Some? && RefsOf(out[k]) <= out.Keys
  }

  /** The components of the document: those of the schema, those the operations force, and the report model's. */
  method DocumentComponents(m: Model, report: Model, admits: string -> bool, schemes: set<string>,
                            lower: string -> string) returns (r: Option<Components>)
    requires NamesDistinct(m)
    ensures r.Some? <==>
              && (forall x :: UserElement(m, x) && admits(x) ==> !Blocked(m, x))
              && AllOk(m, schemes, lower, AllOps(admits, m.services))
              && (SomeOperation(m, admits) ==> !Blocked(report, REPORT))
    ensures r.Some? ==> Closed(r.value) && forall k :: k in r.value <==> Wanted(m, report, admits, k)
  {
    hide Complete, Blocked, OpOk, Extends, NewFrom, UserElement, OpsRefs, AllOps, Roots, NamesDistinct;
    var sb := new Builder(m);
    var ok := sb.BuildAll(admits);
    if !ok {
      return None;
    }
    ghost var roots := Roots(m, admits);
    var ob := new OperationsBuilder(m, sb, schemes, lower);
    StartBuilt(m, roots);
    ok := ob.BuildAll(admits, roots);
    if !ok {
      return None;
    }
    roots := roots + AllRefs(m, admits);
    CompleteCloses(m, sb.out, roots);
    hide Closed, Reaches, SomeOperation;
    assert ob.needsReport <==> SomeOperation(m, admits);
    if !ob.needsReport {
      return Some(sb.out);
    }
    var theirs := ReportComponents(report);
    if theirs.None? {
      return None;
    }
    MergeCloses(sb.out, theirs.value);
    r := Some(sb.out + theirs.value);
  }

  /** reportComponents: the report message and what it leads to, in a model of its own. */
  method ReportComponents(report: Model) returns (r: Option<Components>)
    ensures r.Some? <==> !Blocked(report, REPORT)
    ensures r.Some? ==> Closed(r.value) && forall k :: k in r.value <==> Reaches(report, REPORT, k)
  {
    hide Complete, Blocked, Extends, NewFrom, Closed, Reaches;
    var sb := new Builder(report);
    NothingIsComplete(report);
    var ok := sb.Component(REPORT);
    if !ok {
      return None;
    }
    CompleteMore(report, map[], sb.out, {}, {REPORT});
    CompleteCloses(report, sb.out, {REPORT});
    r := Some(sb.out);
  }

  lemma StartBuilt(m: Model, roots: set<string>)
    ensures OpsRefs(m, []) == {} && roots + OpsRefs(m, []) == roots
  {
  }

  lemma CompleteCloses(m: Model, out: Components, roots: set<string>)
    requires Complete(m, out, roots) || Complete(m, out, {} + roots)
    ensures Closed(out) && forall k :: k in out <==> exists r :: r in roots && Reaches(m, r, k)
  {
    hide SchemaFor, Reaches;
    assert {} + roots == roots;
    forall k | k in out
      ensures out[k].Some? && RefsOf(out[k]) <= out.Keys
    {
      forall t | t in RefsOf(out[k])
        ensures t in out
      {
        NoDanglingRef(m, out, roots, k, t);
      }
    }
  }

  lemma MergeCloses(a: Components, b: Components)
    requires Closed(a) && Closed(b)
    ensures Closed(a + b)
  {
    hide RefsOf;
  }

  // ---- Generate ----

  /** What is admitted at a tier. */
  function Admits(rank: string -> int, tier: int): string -> bool
  {
    x => rank(x) <= tier
  }

  function Ranks(rules: seq<Rule>, tiers: map<string, int>, matches: (string, string) -> bool): string -> int
  {
    x => Rank(rules, tiers, x, matches)
  }

  /** The report model is the toolchain's: it shares no name with the user's schema. */
  ghost predicate ReportApart(m: Model, report: Model)
  {
    forall x :: Known(report, x) ==> !UserElement(m, x)
  }

  lemma RootsVisible(m: Model, rank: string -> int, tier: int, admits: string -> bool, r: string)
    requires WellNamed(m) && GeneratedApart(m) && Accepted(m, rank) && NamesDistinct(m) && EntriesHidden(m)
    requires forall x :: admits(x) <==> rank(x) <= tier
    requires forall op :: op in AllOps(admits, m.services) ==> Renders(m, op.mth, op.use)
    requires r in Roots(m, admits) + AllRefs(m, admits)
    ensures !IsEntry(m, r) && (UserElement(m, r) ==> rank(r) <= tier)
  {
    hide UserElement, UseRefs, UseOk, Blocked, AllOps, OpsRefs;
    hide IsEntry, GeneratedApart, Accepted, EntriesHidden, NamesDistinct, RefsFrom;
    if r in Roots(m, admits) {
      NoEntryRoot(m, r);
    } else {
      OpsRefsAre(m, AllOps(admits, m.services), r);
      var op :| op in AllOps(admits, m.services) && r in UseRefs(m, op.mth, op.use);
      AllOpsAre(admits, m.services, op);
      UseRefsAreOperationRefs(m, op.svc, op.mth, op.use, r);
      if UserElement(m, r) {
        assert Emitted(m, rank, tier, op.svc, op.mth);
        OperationRefsVisible(m, rank, tier, op.svc, op.mth, r);
      }
    }
  }

  /** No component of the document is a user element above the tier. */
  lemma WantedVisible(m: Model, report: Model, rank: string -> int, tier: int, admits: string -> bool, k: string)
    requires WellNamed(m) && GeneratedApart(m) && Accepted(m, rank) && NamesDistinct(m) && EntriesHidden(m)
    requires ReportApart(m, report) && forall x :: admits(x) <==> rank(x) <= tier
    requires forall op :: op in AllOps(admits, m.services) ==> Renders(m, op.mth, op.use)
    requires SomeOperation(m, admits) ==> !Blocked(report, REPORT)
    requires Wanted(m, report, admits, k) && UserElement(m, k)
    ensures rank(k) <= tier
  {
    hide UserElement, Renders, AllRefs, Roots, IsEntry, Accepted;
    hide EntriesHidden, NamesDistinct, Reaches, SomeOperation, SchemaFor;
    if r :| r in Roots(m, admits) + AllRefs(m, admits) && Reaches(m, r, k) {
      RootsVisible(m, rank, tier, admits, r);
      ReachedVisible(m, rank, r, k);
    } else {
      assert SchemaFor(report, k).Some?;
      SchemaMeansKnown(report, k);
    }
  }

  lemma SchemaMeansKnown(m: Model, k: string)
    requires SchemaFor(m, k).Some?
    ensures Known(m, k)
  {
  }

  /** Generate, as far as components go: the contributions of the pack, the check, then the components at the tier.
    * It fails exactly when a reference leads to a more restricted element, an admitted element has no component, an
    * operation is not right, or the report has none. Whatever it emits, no reference dangles, those of operations
    * included, and nothing is above the tier. */
  method Generate(rules: seq<Rule>, matches: (string, string) -> bool, topics: seq<Topic>, m: Model, report: Model,
                  tier: int, schemes: set<string>, lower: string -> string)
    returns (r: Option<Components>, ghost rank: string -> int)
    requires WellNamed(m) && GeneratedApart(m) && NamesDistinct(m) && EntriesHidden(m) && ReportApart(m, report)
    ensures forall x :: TierIs(rules, topics, matches, x, rank(x))
    ensures var admits := Admits(rank, tier);
            r.Some? <==>
              && (forall e :: IsEdge(m, e) ==> rank(e.to) <= rank(e.from))
              && (forall x :: UserElement(m, x) && rank(x) <= tier ==> !Blocked(m, x))
              && AllOk(m, schemes, lower, AllOps(admits, m.services))
              && (SomeOperation(m, admits) ==> !Blocked(report, REPORT))
    ensures r.Some? ==> Closed(r.value)
    ensures r.Some? ==> forall k :: k in r.value && UserElement(m, k) ==> rank(k) <= tier
    ensures r.Some? ==> forall op :: IsOp(Admits(rank, tier), m.services, op) ==>
              UseRefs(m, op.mth, op.use) <= r.value.Keys && REPORT in r.value
  {
    hide IsEdge, UserElement, Blocked, AllOps, Renders, IsOp, IdOf, ClaimOf, TierIs, Rank;
    hide Closed, WellNamed, GeneratedApart, NamesDistinct, EntriesHidden, UseRefs;
    var index := new Index(rules, matches);
    index.ContributeAll(topics);
    var ranks := Ranks(rules, index.packTiers, matches);
    rank := ranks;
    forall x
      ensures TierIs(rules, topics, matches, x, rank(x))
    {
      RankIsTier(rules, topics, x, matches, rank(x));
    }
    var bad := index.CheckTransitive(m);
    assert bad.None? <==> forall e :: IsEdge(m, e) ==> rank(e.to) <= rank(e.from) by {
      assert forall x :: rank(x) == index.RankOf(x);
    }
    if bad.Some? {
      return None, rank;
    }
    var admits := Admits(ranks, tier);
    r := DocumentComponents(m, report, admits, schemes, lower);
    if r.Some? {
      assert Accepted(m, rank);
      forall k | k in r.value && UserElement(m, k)
        ensures rank(k) <= tier
      {
        WantedVisible(m, report, rank, tier, admits, k);
      }
      forall op | IsOp(admits, m.services, op)
        ensures UseRefs(m, op.mth, op.use) <= r.value.Keys && REPORT in r.value
      {
        RefsWanted(m, report, admits, op);
      }
    }
  }

  /** What an operation of the document refers to is wanted. */
  lemma RefsWanted(m: Model, report: Model, admits: string -> bool, op: Op)
    requires IsOp(admits, m.services, op)
    ensures forall x :: x in UseRefs(m, op.mth, op.use) ==> Wanted(m, report, admits, x)
    ensures Wanted(m, report, admits, REPORT)
  {
    hide IsOp, Reaches, UseRefs, OpsRefs, AllOps, Roots;
    ReachesSelf(report, REPORT);
    AllOpsAre(admits, m.services, op);
    forall x | x in UseRefs(m, op.mth, op.use)
      ensures Wanted(m, report, admits, x)
    {
      OpsRefsAre(m, AllOps(admits, m.services), x);
      ReachesSelf(m, x);
      assert x in Roots(m, admits) + AllRefs(m, admits);
    }
  }

  // ---- Verbs without a body ----

  /** A request of one message-typed field, none of it in the path. */
  ghost predicate OneMessage(m: Model, mth: Method, use: HttpUse, f: Field)
  {
    && mth.input in m.messages && m.messages[mth.input].fields == [f] && mth.output == NO_CONTENT && use.vars == []
    && f.kind.MessageKind? && !IsMapField(m, f) && !Wkt(f.kind.fqn)
  }

  /** A message-typed field left over needs a body: the operation is right exactly when its verb is none of the four
    * without one. */
  lemma MessageNeedsBody(m: Model, mth: Method, use: HttpUse, f: Field)
    requires OneMessage(m, mth, use, f)
    ensures UseOk(m, mth, use) <==> use.verb !in {"GET", "HEAD", "DELETE", "OPTIONS"}
  {
    hide Remaining, Wkt, IsMapField, ParamOk, HasSchema;
    if Bodyless(use.verb) {
      NoQueryFor(m, mth, use, f);
    }
  }

  lemma NoQueryFor(m: Model, mth: Method, use: HttpUse, f: Field)
    requires OneMessage(m, mth, use, f) && Bodyless(use.verb)
    ensures Rest(m, mth.input, use).Err?
  {
    var fs := m.messages[mth.input].fields;
    assert fs[0] == f && Bound(use) == {};
    assert Under({}, f.name) == {};
    assert Unflat(m, f);
    hide Wkt, Under, IsMapField, Unflat;
    assert OfField(m, f, {}, {mth.input}, Query, HasSchema(m)) == Err(MessageTyped(f.name));
  }

  // ---- A path bound above and below ----

  const ANY := "google.protobuf.Any"

  /** A message that holds an Any, whatever else there is. */
  ghost predicate HoldsAny(m: Model, req: string, f: Field, url: Field)
  {
    && NamesDistinct(m) && req in m.messages && ANY in m.messages && req != ANY
    && m.messages[req].fields == [f] && f == Field("any", MessageKind(ANY), false, [], false, true)
    && m.messages[ANY].fields == [url, Field("value", ScalarKind("bytes"), false, [], false, false)]
    && url == Field("type_url", ScalarKind("string"), false, [], false, false)
    && !m.messages[ANY].isEntry
  }

  lemma AnyModel() returns (m: Model, f: Field, url: Field)
    ensures HoldsAny(m, "Request", f, url)
  {
    f := Field("any", MessageKind(ANY), false, [], false, true);
    url := Field("type_url", ScalarKind("string"), false, [], false, false);
    var value := Field("value", ScalarKind("bytes"), false, [], false, false);
    m := Model(map["Request" := MessageInfo(false, false, ScalarKind(""), [f]),
                   ANY := MessageInfo(true, false, ScalarKind(""), [url, value])], map[], map[], []);
    assert "any" != "type_url" && "type_url" != "value";
    assert |"Request"| == 7 && |ANY| == 19;
  }

  /** The path templates {any} and {any.type_url} together bind a message and a field inside it: both are taken, and
    * then the binding is no exact cut. */
  lemma AnyTwiceBound(m: Model, req: string, f: Field, url: Field, half: Half)
    requires HoldsAny(m, req, f, url)
    ensures var fs, bound := m.messages[req].fields, {["any"], ["any", "type_url"]};
            && (forall p :: p in bound ==> ParamOk(m, fs, p))
            && Remaining(m, fs, bound, {req}, half, HasSchema(m)) == Ok([])
            && !Cuts(m, fs, Cut(m, fs, bound, {req}, half, HasSchema(m)))
  {
    var fs := m.messages[req].fields;
    var p: Path, q: Path := ["any"], ["any", "type_url"];
    var bound := {p, q};
    AnyWalks(m, req, f, url);
    AnyRemains(m, req, f, url, bound, half);
    AnyIsFlat(m, f, url);
    hide Walks, Leaf, Remaining, HasSchema, Unflat, PropertyOf;
    CutIffPrefixFree(m, req, bound, half, HasSchema(m));
    assert p <= q && p != q && p in bound && q in bound;
  }

  lemma AnyWalks(m: Model, req: string, f: Field, url: Field)
    requires HoldsAny(m, req, f, url)
    ensures var fs := m.messages[req].fields;
            && Walks(m, fs, ["any"]) && Leaf(m, fs, ["any"]) == f
            && Walks(m, fs, ["any", "type_url"]) && Leaf(m, fs, ["any", "type_url"]) == url
  {
    var fs, inside := m.messages[req].fields, m.messages[ANY].fields;
    var q: Path := ["any", "type_url"];
    assert FieldByName(fs, "any") == Some(f) && FieldByName(inside, "type_url") == Some(url);
    assert q[1..] == ["type_url"];
    assert Walks(m, inside, q[1..]) && Leaf(m, inside, q[1..]) == url;
  }

  lemma AnyRemains(m: Model, req: string, f: Field, url: Field, bound: set<Path>, half: Half)
    requires HoldsAny(m, req, f, url) && ["any"] in bound
    ensures Remaining(m, m.messages[req].fields, bound, {req}, half, HasSchema(m)) == Ok([])
  {
    var fs := m.messages[req].fields;
    assert fs[1..] == [] && [f.name] == ["any"];
    hide HasSchema, Under;
    assert OfField(m, f, bound, {req}, half, HasSchema(m)) == Ok([]);
    assert Remaining(m, fs[1..], bound, {req}, half, HasSchema(m)) == Ok([]);
    var none: seq<Path> := [];
    assert none + none == none && fs[0] == f;
  }

  lemma AnyIsFlat(m: Model, f: Field, url: Field)
    requires ANY in m.messages && !m.messages[ANY].isEntry
    requires f == Field("any", MessageKind(ANY), false, [], false, true)
    requires url == Field("type_url", ScalarKind("string"), false, [], false, false)
    ensures !Unflat(m, f) && !Unflat(m, url) && PropertyOf(m, f).Some? && PropertyOf(m, url).Some?
  {
    assert ANY == GOOGLE + "Any";
  }
}
