/** The block layout of SBE-templated messages (cmd/protoc-gen-pxf-java-meta/sbe.go:196-466). */
module SbeLayout {
  import opened Options
  import Sorting

  datatype Kind =
    | Bool | Int32 | Sint32 | Sfixed32 | Int64 | Sint64 | Sfixed64
    | Uint32 | Fixed32 | Uint64 | Fixed64 | Float | Double
    | Enumeration | Text | Bytes | Submessage | GroupKind

  datatype Field = Field(
    number: int, name: string, kind: Kind, repeated: bool, isMap: bool,
    oneof: Option<nat>, proto3Optional: bool, typeName: string,
    encoding: string, length: Option<nat>)

  datatype Message = Message(name: string, fields: seq<Field>, templateId: Option<nat>)

  type Files = map<string, Message>

  datatype Error =
    | NoTemplate(name: string)
    | MapField(name: string)
    | OneofField(name: string)
    | RepeatedScalar(name: string)
    | CompositeNotFound(typeName: string)
    | GroupNotFound(typeName: string)
    | NestedRepeated(name: string)
    | UnknownEncoding(encoding: string)
    | NeedsLength(name: string)
    | UnsupportedKind
    | NilMessage

  /** Where a field lies in its block; a composite's fields lie at offsets within it. */
  datatype Placed =
    | Scalar(field: Field, offset: nat, size: nat, encoding: string)
    | Nested(field: Field, offset: nat, size: nat, inner: seq<Placed>)

  datatype Group = Group(field: Field, blockLength: nat, fields: seq<Placed>)

  datatype Layout = Layout(templateId: nat, blockLength: nat, fields: seq<Placed>, groups: seq<Group>)

  // ---- Encodings ----

  function OverrideSize(encoding: string): Option<nat>
  {
    if encoding == "int8" || encoding == "uint8" then Some(1)
    else if encoding == "int16" || encoding == "uint16" then Some(2)
    else if encoding == "int32" || encoding == "uint32" || encoding == "float" then Some(4)
    else if encoding == "int64" || encoding == "uint64" || encoding == "double" then Some(8)
    else None
  }

  /** sbeFieldEncoding: the encoding of a scalar field and its size in bytes. */
  function Encoding(f: Field): Result<(string, nat), Error>
  {
    if f.encoding != "" then
      match OverrideSize(f.encoding)
      case Some(n) => Ok((f.encoding, n))
      case None => Err(UnknownEncoding(f.encoding))
    else
      match f.kind
      case Bool => Ok(("uint8", 1))
      case Int32 | Sint32 | Sfixed32 => Ok(("int32", 4))
      case Int64 | Sint64 | Sfixed64 => Ok(("int64", 8))
      case Uint32 | Fixed32 => Ok(("uint32", 4))
      case Uint64 | Fixed64 => Ok(("uint64", 8))
      case Float => Ok(("float", 4))
      case Double => Ok(("double", 8))
      case Enumeration => Ok(("uint8", 1))
      case Text | Bytes => (match f.length case Some(n) => Ok(("char", n)) case None => Err(NeedsLength(f.name)))
      case Submessage | GroupKind => Err(UnsupportedKind)
  }

  // ---- Sorting ----

  function Number(f: Field): int
  {
    f.number
  }

  function ByNumber(fs: seq<Field>): (s: seq<Field>)
    ensures |s| == |fs|
  {
    Sorting.StableSort(fs, Number)
  }

  lemma {:induction false} InsertBetween(s: seq<Field>, x: Field, j: nat)
    requires j <= |s| && forall k :: j <= k < |s| ==> s[k].number > x.number
    requires j > 0 ==> s[j - 1].number <= x.number
    ensures Sorting.Insert(s, x, Number) == s[..j] + [x] + s[j..]
  {
    if j < |s| {
      var u, last := s[..|s| - 1], s[|s| - 1];
      InsertBetween(u, x, j);
      assert Sorting.Insert(s, x, Number) == Sorting.Insert(u, x, Number) + [last];
      assert s[j..] == u[j..] + [last] && u[..j] == s[..j];
    } else {
      assert s[..j] == s && s[j..] == [];
    }
  }

  lemma SortNext(fs: seq<Field>, i: nat)
    requires i < |fs|
    ensures ByNumber(fs[..i + 1]) == Sorting.Insert(ByNumber(fs[..i]), fs[i], Number)
  {
    assert fs[..i + 1][..i] == fs[..i];
  }

  /** sortedSbeFields: an insertion sort by adjacent swaps, in place on a copy. */
  method SortedFields(md: Message) returns (a: array<Field>)
    ensures fresh(a) && a[..] == ByNumber(md.fields)
  {
    var fs := md.fields;
    a := new Field[|fs|](i requires 0 <= i < |fs| => fs[i]);
    assert a[..] == fs;
    if |fs| == 0 {
      return;
    }
    SortOne(fs);
    var i := 1;
    while i < a.Length
      invariant 1 <= i <= a.Length == |fs|
      invariant a[..i] == ByNumber(fs[..i])
      invariant a[i..] == fs[i..]
    {
      assert a[i] == a[i..][0] == fs[i];
      SortNext(fs, i);
      ghost var rest := a[i + 1..];
      SinkLast(a, i);
      assert a[i + 1..] == rest == fs[i + 1..];
      i := i + 1;
    }
    assert a[..i] == a[..] && fs[..i] == fs;
  }

  lemma SortOne(fs: seq<Field>)
    requires |fs| > 0
    ensures ByNumber(fs[..1]) == fs[..1]
  {
    assert fs[..1][..0] == [];
    assert Sorting.StableSort([], Number) == [];
    assert fs[..1] == [fs[0]];
  }

  /** s with x at place j, before what follows. */
  function Sunk(s: seq<Field>, x: Field, j: nat, rest: seq<Field>): (r: seq<Field>)
    requires j <= |s|
    ensures |r| == |s| + 1 + |rest|
  {
    s[..j] + [x] + s[j..] + rest
  }

  lemma SunkAt(s: seq<Field>, x: Field, j: nat, rest: seq<Field>)
    requires j <= |s|
    ensures Sunk(s, x, j, rest)[j] == x
    ensures j > 0 ==> Sunk(s, x, j, rest)[j - 1] == s[j - 1]
    ensures Sunk(s, x, j, rest)[..|s| + 1] == s[..j] + [x] + s[j..]
    ensures Sunk(s, x, j, rest)[|s| + 1..] == rest
  {
  }

  /** One swap moves x one place to the front. */
  lemma SinkStep(s: seq<Field>, x: Field, j: nat, rest: seq<Field>)
    requires 0 < j <= |s|
    ensures Sunk(s, x, j, rest)[j - 1 := x][j := s[j - 1]] == Sunk(s, x, j - 1, rest)
  {
    assert s[..j] == s[..j - 1] + [s[j - 1]];
    assert s[j - 1..] == [s[j - 1]] + s[j..];
  }

  lemma SunkLast(s: seq<Field>, x: Field, rest: seq<Field>)
    ensures Sunk(s, x, |s|, rest) == s + [x] + rest
  {
    assert s[..|s|] == s && s[|s|..] == [];
  }

  /** The inner loop: element i to its place among the sorted ones before it. */
  method SinkLast(a: array<Field>, i: nat)
    requires 1 <= i < a.Length
    modifies a
    ensures a[..i + 1] == Sorting.Insert(old(a[..i]), old(a[i]), Number)
    ensures a[i + 1..] == old(a[i + 1..])
  {
    hide Sunk;
    ghost var s, x, rest := a[..i], a[i], a[i + 1..];
    var j := i;
    SunkLast(s, x, rest);
    assert a[..] == s + [x] + rest;
    SunkAt(s, x, j, rest);
    while j > 0 && a[j - 1].number > a[j].number
      invariant j <= i && a[..] == Sunk(s, x, j, rest)
      invariant a[j] == x && (j > 0 ==> a[j - 1] == s[j - 1])
      invariant forall k :: j <= k < i ==> s[k].number > x.number
    {
      SinkStep(s, x, j, rest);
      SunkAt(s, x, j - 1, rest);
      a[j - 1], a[j] := a[j], a[j - 1];
      j := j - 1;
      assert a[..] == Sunk(s, x, j, rest);
      assert j > 0 ==> a[j - 1] == a[..][j - 1];
    }
    SunkAt(s, x, j, rest);
    InsertBetween(s, x, j);
    assert a[..i + 1] == a[..][..i + 1] && a[i + 1..] == a[..][i + 1..];
  }

  /** The sorted copy, for the loops that read it. */
  method FieldsByNumber(md: Message) returns (fs: seq<Field>)
    ensures fs == ByNumber(md.fields)
  {
    var a := SortedFields(md);
    fs := a[..];
  }

  // ---- Layouts ----

  /** A field that lies in its block as a composite. */
  predicate IsComposite(f: Field)
  {
    !f.repeated && !f.isMap && f.kind == Submessage
  }

  ghost predicate Below(files: Files, fs: seq<Field>, rank: string -> nat, depth: nat)
  {
    forall k :: 0 <= k < |fs| && IsComposite(fs[k]) && fs[k].typeName in files ==> rank(fs[k].typeName) < depth
  }

  /** No composite holds itself: the source recurses without end on one that does. */
  ghost predicate Acyclic(files: Files, rank: string -> nat)
  {
    forall n :: n in files ==> Below(files, files[n].fields, rank, rank(n))
  }

  lemma BelowNamed(files: Files, rank: string -> nat, n: string)
    requires Acyclic(files, rank) && n in files
    ensures Below(files, files[n].fields, rank, rank(n))
  {
  }

  lemma BelowSorted(files: Files, fs: seq<Field>, rank: string -> nat, depth: nat)
    requires Below(files, fs, rank, depth)
    ensures Below(files, ByNumber(fs), rank, depth)
  {
    Sorting.SortPermutes(fs, Number);
    var s := ByNumber(fs);
    assert multiset(s) == multiset(fs);
    hide ByNumber;
    forall k | 0 <= k < |s| && IsComposite(s[k]) && s[k].typeName in files
      ensures rank(s[k].typeName) < depth
    {
      assert s[k] in multiset(s);
      assert s[k] in multiset(fs);
      assert s[k] in fs;
    }
  }

  function Total(ps: seq<Placed>): nat
  {
    if ps == [] then 0 else ps[0].size + Total(ps[1..])
  }

  /** One field at an offset, below the top level or not repeated on it. */
  function Place(files: Files, f: Field, offset: nat, ghost rank: string -> nat,
                 ghost depth: nat): Result<Placed, Error>
    requires Acyclic(files, rank) && Below(files, [f], rank, depth)
    decreases depth, 0
  {
    if f.repeated || f.isMap then Err(NestedRepeated(f.name))
    else if f.kind == Submessage then
      if f.typeName !in files then Err(NilMessage)
      else
        assert [f][0] == f;
        match Block(files, files[f.typeName], rank, rank(f.typeName))
        case Err(e) => Err(e)
        case Ok(inner) => Ok(Nested(f, offset, Total(inner), inner))
    else
      match Encoding(f)
      case Err(e) => Err(e)
      case Ok((encoding, size)) => Ok(Scalar(f, offset, size, encoding))
  }

  /** The fields of a group or a composite, by number, from offset 0. */
  function Block(files: Files, md: Message, ghost rank: string -> nat, ghost depth: nat): Result<seq<Placed>, Error>
    requires Acyclic(files, rank) && Below(files, md.fields, rank, depth)
    decreases depth, |md.fields| + 1
  {
    BelowSorted(files, md.fields, rank, depth);
    PlaceAll(files, ByNumber(md.fields), 0, rank, depth)
  }

  function PlaceAll(files: Files, fs: seq<Field>, offset: nat, ghost rank: string -> nat,
                    ghost depth: nat): Result<seq<Placed>, Error>
    requires Acyclic(files, rank) && Below(files, fs, rank, depth)
    decreases depth, |fs|
  {
    if fs == [] then Ok([])
    else
      assert Below(files, [fs[0]], rank, depth) && Below(files, fs[1..], rank, depth);
      match Place(files, fs[0], offset, rank, depth)
      case Err(e) => Err(e)
      case Ok(p) =>
        match PlaceAll(files, fs[1..], offset + p.size, rank, depth)
        case Err(e) => Err(e)
        case Ok(rest) => Ok([p] + rest)
  }

  function Members(fs: seq<Field>, oneof: nat): seq<Field>
  {
    if fs == [] then []
    else (if fs[0].oneof == Some(oneof) then [fs[0]] else []) + Members(fs[1..], oneof)
  }

  /** isSyntheticSbeOneof. */
  predicate Synthetic(fs: seq<Field>, oneof: nat)
  {
    var members := Members(fs, oneof);
    |members| == 1 && members[0].proto3Optional
  }

  /** What the top level makes of one field. */
  datatype Piece = InBlock(placed: Placed) | Repeating(group: Group)

  function PieceOf(files: Files, md: Message, f: Field, offset: nat, ghost rank: string -> nat,
                   ghost depth: nat): Result<Piece, Error>
    requires Acyclic(files, rank) && Below(files, [f], rank, depth)
  {
    if f.isMap then Err(MapField(f.name))
    else if f.oneof.Some? && !Synthetic(md.fields, f.oneof.value) then Err(OneofField(f.name))
    else if f.repeated && f.kind == Submessage then
      if f.typeName !in files then Err(GroupNotFound(f.typeName))
      else
        match Block(files, files[f.typeName], rank, rank(f.typeName))
        case Err(e) => Err(e)
        case Ok(ps) => Ok(Repeating(Group(f, Total(ps), ps)))
    else if f.repeated then Err(RepeatedScalar(f.name))
    else if f.kind == Submessage && f.typeName !in files then Err(CompositeNotFound(f.typeName))
    else
      match Place(files, f, offset, rank, depth)
      case Err(e) => Err(e)
      case Ok(p) => Ok(InBlock(p))
  }

  /** buildSbeLayout from a field on: groups take no room in the block. */
  function LayoutFrom(files: Files, md: Message, fs: seq<Field>, sofar: Layout, ghost rank: string -> nat,
                      ghost depth: nat): Result<Layout, Error>
    requires Acyclic(files, rank) && Below(files, fs, rank, depth)
    decreases |fs|
  {
    if fs == [] then Ok(sofar)
    else
      assert Below(files, [fs[0]], rank, depth) && Below(files, fs[1..], rank, depth);
      match PieceOf(files, md, fs[0], sofar.blockLength, rank, depth)
      case Err(e) => Err(e)
      case Ok(piece) => LayoutFrom(files, md, fs[1..], With(sofar, piece), rank, depth)
  }

  function With(layout: Layout, piece: Piece): Layout
  {
    match piece
    case InBlock(p) => layout.(fields := layout.fields + [p], blockLength := layout.blockLength + p.size)
    case Repeating(g) => layout.(groups := layout.groups + [g])
  }

  function LayoutOf(files: Files, md: Message, ghost rank: string -> nat, ghost depth: nat): Result<Layout, Error>
    requires Acyclic(files, rank) && Below(files, md.fields, rank, depth)
  {
    if md.templateId.None? then Err(NoTemplate(md.name))
    else
      BelowSorted(files, md.fields, rank, depth);
      LayoutFrom(files, md, ByNumber(md.fields), Layout(md.templateId.value, 0, [], []), rank, depth)
  }

  // ---- The builders ----

  /** buildSbeComposite, and buildSbeGroup's loop: fields placed at a running offset. */
  method BuildBlock(files: Files, md: Message, ghost rank: string -> nat, ghost depth: nat)
    returns (r: Result<seq<Placed>, Error>)
    requires Acyclic(files, rank) && Below(files, md.fields, rank, depth)
    ensures r == Block(files, md, rank, depth)
    decreases depth, 1
  {
    BelowSorted(files, md.fields, rank, depth);
    var fs := FieldsByNumber(md);
    hide ByNumber, Acyclic, Place, PlaceAll, Below, Prefixed, Block;
    var out: seq<Placed>, offset, i := [], 0, 0;
    BlockStart(files, md, rank, depth);
    while i < |fs|
      invariant i <= |fs| && offset >= 0 && Below(files, fs[i..], rank, depth)
      invariant Block(files, md, rank, depth) == Prefixed(out, PlaceAll(files, fs[i..], offset, rank, depth))
    {
      BelowNext(files, fs, i, rank, depth);
      PlaceAllNext(files, fs, i, out, offset, rank, depth);
      var placed := PlaceOne(files, fs[i], offset, rank, depth);
      if placed.Err? {
        return Err(placed.error);
      }
      out, offset := out + [placed.value], offset + placed.value.size;
      i := i + 1;
    }
    PlaceAllEnd(files, fs, i, out, offset, rank, depth);
    r := Ok(out);
  }

  lemma BlockStart(files: Files, md: Message, rank: string -> nat, depth: nat)
    requires Acyclic(files, rank) && Below(files, md.fields, rank, depth)
               && Below(files, ByNumber(md.fields), rank, depth)
    ensures var fs := ByNumber(md.fields);
            Below(files, fs[0..], rank, depth)
            && Block(files, md, rank, depth) == Prefixed([], PlaceAll(files, fs[0..], 0, rank, depth))
  {
    hide PlaceAll, ByNumber, Acyclic, Below;
    var fs := ByNumber(md.fields);
    assert fs[0..] == fs;
    PrefixedNone(PlaceAll(files, fs, 0, rank, depth));
  }

  lemma BelowNext(files: Files, fs: seq<Field>, i: nat, rank: string -> nat, depth: nat)
    requires i < |fs| && Below(files, fs[i..], rank, depth)
    ensures Below(files, [fs[i]], rank, depth) && Below(files, fs[i + 1..], rank, depth)
  {
    assert fs[i..][0] == fs[i];
    var rest := fs[i + 1..];
    assert forall k :: 0 <= k < |rest| ==> rest[k] == fs[i..][k + 1];
  }

  lemma PlaceAllNext(files: Files, fs: seq<Field>, i: nat, out: seq<Placed>, offset: nat, rank: string -> nat,
                     depth: nat)
    requires i < |fs| && Acyclic(files, rank) && Below(files, fs[i..], rank, depth)
    requires Below(files, [fs[i]], rank, depth) && Below(files, fs[i + 1..], rank, depth)
    ensures Prefixed(out, PlaceAll(files, fs[i..], offset, rank, depth))
         == match Place(files, fs[i], offset, rank, depth)
            case Err(e) => Err(e)
            case Ok(p) => Prefixed(out + [p], PlaceAll(files, fs[i + 1..], offset + p.size, rank, depth))
  {
    hide Place, Below, Acyclic;
    assert fs[i..][0] == fs[i] && fs[i..][1..] == fs[i + 1..];
    match Place(files, fs[i], offset, rank, depth)
    case Err(_) =>
    case Ok(p) => PrefixedOne(out, p, PlaceAll(files, fs[i + 1..], offset + p.size, rank, depth));
  }

  lemma PlaceAllEnd(files: Files, fs: seq<Field>, i: nat, out: seq<Placed>, offset: nat, rank: string -> nat,
                    depth: nat)
    requires i == |fs| && Acyclic(files, rank) && Below(files, fs[i..], rank, depth)
    ensures Prefixed(out, PlaceAll(files, fs[i..], offset, rank, depth)) == Ok(out)
  {
    assert fs[i..] == [];
    assert out + [] == out;
  }

  /** The body of that loop. */
  method PlaceOne(files: Files, f: Field, offset: nat, ghost rank: string -> nat, ghost depth: nat)
    returns (r: Result<Placed, Error>)
    requires Acyclic(files, rank) && Below(files, [f], rank, depth)
    ensures r == Place(files, f, offset, rank, depth)
    decreases depth, 0
  {
    hide Block;
    if f.repeated || f.isMap {
      return Err(NestedRepeated(f.name));
    }
    if f.kind == Submessage {
      if f.typeName !in files {
        return Err(NilMessage);
      }
      assert [f][0] == f;
      var sub := BuildBlock(files, files[f.typeName], rank, rank(f.typeName));
      if sub.Err? {
        return Err(sub.error);
      }
      return Ok(Nested(f, offset, Total(sub.value), sub.value));
    }
    var enc := Encoding(f);
    if enc.Err? {
      return Err(enc.error);
    }
    r := Ok(Scalar(f, offset, enc.value.1, enc.value.0));
  }

  /** What comes before, then what is placed from here on. */
  function Prefixed(out: seq<Placed>, r: Result<seq<Placed>, Error>): Result<seq<Placed>, Error>
  {
    match r
    case Err(e) => Err(e)
    case Ok(rest) => Ok(out + rest)
  }

  lemma PrefixedNone(r: Result<seq<Placed>, Error>)
    ensures Prefixed([], r) == r
  {
    assert r.Ok? ==> [] + r.value == r.value;
  }

  lemma PrefixedOne(out: seq<Placed>, p: Placed, r: Result<seq<Placed>, Error>)
    ensures Prefixed(out, match r case Err(e) => Err(e) case Ok(rest) => Ok([p] + rest)) == Prefixed(out + [p], r)
  {
    assert r.Ok? ==> out + ([p] + r.value) == out + [p] + r.value;
  }

  /** buildSbeLayout. */
  method BuildLayout(files: Files, md: Message, ghost rank: string -> nat, ghost depth: nat)
    returns (r: Result<Layout, Error>)
    requires Acyclic(files, rank) && Below(files, md.fields, rank, depth)
    ensures r == LayoutOf(files, md, rank, depth)
  {
    if md.templateId.None? {
      return Err(NoTemplate(md.name));
    }
    BelowSorted(files, md.fields, rank, depth);
    var fs := FieldsByNumber(md);
    hide ByNumber, Acyclic, PieceOf, Below, LayoutFrom, With;
    var out := Layout(md.templateId.value, 0, [], []);
    var i := 0;
    assert fs[0..] == fs;
    while i < |fs|
      invariant i <= |fs| && Below(files, fs[i..], rank, depth)
      invariant LayoutOf(files, md, rank, depth) == LayoutFrom(files, md, fs[i..], out, rank, depth)
    {
      BelowNext(files, fs, i, rank, depth);
      LayoutNext(files, md, fs, i, out, rank, depth);
      var piece := BuildPiece(files, md, fs[i], out.blockLength, rank, depth);
      if piece.Err? {
        return Err(piece.error);
      }
      out := With(out, piece.value);
      i := i + 1;
    }
    LayoutEnd(files, md, fs, i, out, rank, depth);
    r := Ok(out);
  }

  lemma LayoutNext(files: Files, md: Message, fs: seq<Field>, i: nat, out: Layout, rank: string -> nat, depth: nat)
    requires i < |fs| && Acyclic(files, rank) && Below(files, fs[i..], rank, depth)
    requires Below(files, [fs[i]], rank, depth) && Below(files, fs[i + 1..], rank, depth)
    ensures LayoutFrom(files, md, fs[i..], out, rank, depth)
         == match PieceOf(files, md, fs[i], out.blockLength, rank, depth)
            case Err(e) => Err(e)
            case Ok(piece) => LayoutFrom(files, md, fs[i + 1..], With(out, piece), rank, depth)
  {
    hide PieceOf, Below, Acyclic, With;
    assert fs[i..][0] == fs[i] && fs[i..][1..] == fs[i + 1..];
  }

  lemma LayoutEnd(files: Files, md: Message, fs: seq<Field>, i: nat, out: Layout, rank: string -> nat, depth: nat)
    requires i == |fs| && Acyclic(files, rank) && Below(files, fs[i..], rank, depth)
    ensures LayoutFrom(files, md, fs[i..], out, rank, depth) == Ok(out)
  {
    assert fs[i..] == [];
  }

  /** The body of that loop, up to where a field is appended. */
  method BuildPiece(files: Files, md: Message, f: Field, offset: nat, ghost rank: string -> nat, ghost depth: nat)
    returns (r: Result<Piece, Error>)
    requires Acyclic(files, rank) && Below(files, [f], rank, depth)
    ensures r == PieceOf(files, md, f, offset, rank, depth)
  {
    hide Block;
    if f.isMap {
      return Err(MapField(f.name));
    }
    if f.oneof.Some? && !Synthetic(md.fields, f.oneof.value) {
      return Err(OneofField(f.name));
    }
    if f.repeated && f.kind == Submessage {
      if f.typeName !in files {
        return Err(GroupNotFound(f.typeName));
      }
      var sub := BuildBlock(files, files[f.typeName], rank, rank(f.typeName));
      if sub.Err? {
        return Err(sub.error);
      }
      return Ok(Repeating(Group(f, Total(sub.value), sub.value)));
    }
    if f.repeated {
      return Err(RepeatedScalar(f.name));
    }
    if f.kind == Submessage && f.typeName !in files {
      return Err(CompositeNotFound(f.typeName));
    }
    var placed := PlaceOne(files, f, offset, rank, depth);
    r := match placed case Err(e) => Err(e) case Ok(p) => Ok(InBlock(p));
  }
}
