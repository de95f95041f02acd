/** What a layout promises of the bytes of a block (cmd/protoc-gen-pxf-java-meta/sbe.go:245-403,456-466). */
module SbeBlocks {
  import opened Options
  import opened SbeLayout
  import Sorting
  import Seqs

  /** A scalar field and the bytes it takes in the root block. */
  datatype Leaf = Leaf(field: Field, start: nat, size: nat)

  function Leaves(ps: seq<Placed>, base: nat): seq<Leaf>
    decreases ps
  {
    if ps == [] then []
    else LeavesOf(ps[0], base) + Leaves(ps[1..], base)
  }

  function LeavesOf(p: Placed, base: nat): seq<Leaf>
    decreases p
  {
    match p
    case Scalar(field, offset, size, _) => [Leaf(field, base + offset, size)]
    case Nested(_, offset, _, inner) => Leaves(inner, base + offset)
  }

  /** Each field starts where the one before it ends, and a composite is as large as its fields. */
  ghost predicate WellPlaced(ps: seq<Placed>, offset: nat)
    decreases ps
  {
    ps == []
    || (&& ps[0].offset == offset
        && (ps[0].Nested? ==> WellPlaced(ps[0].inner, 0) && ps[0].size == Total(ps[0].inner))
        && WellPlaced(ps[1..], offset + ps[0].size))
  }

  /** The leaves follow each other without gap from `from` to `to`. */
  ghost predicate Tiles(leaves: seq<Leaf>, from: nat, to: nat)
    decreases leaves
  {
    if leaves == [] then from == to
    else leaves[0].start == from && Tiles(leaves[1..], from + leaves[0].size, to)
  }

  lemma {:induction false} TilesConcat(a: seq<Leaf>, b: seq<Leaf>, from: nat, mid: nat, to: nat)
    requires Tiles(a, from, mid) && Tiles(b, mid, to)
    ensures Tiles(a + b, from, to)
    decreases a
  {
    if a == [] {
      assert a + b == b;
    } else {
      TilesConcat(a[1..], b, from + a[0].size, mid, to);
      assert (a + b)[1..] == a[1..] + b;
    }
  }

  /** The leaves of well-placed fields tile their block; those of a composite tile its slot. */
  lemma {:induction false} LeavesTile(ps: seq<Placed>, offset: nat, base: nat)
    requires WellPlaced(ps, offset)
    ensures Tiles(Leaves(ps, base), base + offset, base + offset + Total(ps))
    decreases ps
  {
    if ps != [] {
      var p := ps[0];
      if p.Nested? {
        LeavesTile(p.inner, 0, base + p.offset);
      }
      LeavesTile(ps[1..], offset + p.size, base);
      TilesConcat(LeavesOf(p, base), Leaves(ps[1..], base), base + offset, base + offset + p.size,
          base + offset + Total(ps));
    }
  }

  lemma {:induction false} PlacedWell(files: Files, fs: seq<Field>, offset: nat, rank: string -> nat, depth: nat)
    requires Acyclic(files, rank) && Below(files, fs, rank, depth)
    requires PlaceAll(files, fs, offset, rank, depth).Ok?
    ensures WellPlaced(PlaceAll(files, fs, offset, rank, depth).value, offset)
    decreases depth, |fs|
  {
    hide ByNumber, Encoding;
    if fs != [] {
      assert Below(files, [fs[0]], rank, depth) && Below(files, fs[1..], rank, depth);
      var p := Place(files, fs[0], offset, rank, depth).value;
      PlaceWell(files, fs[0], offset, rank, depth);
      PlacedWell(files, fs[1..], offset + p.size, rank, depth);
      var all, rest := PlaceAll(files, fs, offset, rank, depth).value,
          PlaceAll(files, fs[1..], offset + p.size, rank, depth).value;
      hide PlaceAll, Place;
      assert all == [p] + rest;
      assert all[1..] == rest;
    }
  }

  lemma {:induction false} PlaceWell(files: Files, f: Field, offset: nat, rank: string -> nat, depth: nat)
    requires Acyclic(files, rank) && Below(files, [f], rank, depth)
    requires Place(files, f, offset, rank, depth).Ok?
    ensures var p := Place(files, f, offset, rank, depth).value;
            && p.offset == offset
            && (p.Nested? ==> WellPlaced(p.inner, 0) && p.size == Total(p.inner))
    decreases depth, 0
  {
    hide Encoding, PlaceAll, WellPlaced;
    if f.kind == Submessage {
      assert [f][0] == f;
      BlockWell(files, files[f.typeName], rank, rank(f.typeName));
    }
  }

  lemma {:induction false} BlockWell(files: Files, md: Message, rank: string -> nat, depth: nat)
    requires Acyclic(files, rank) && Below(files, md.fields, rank, depth)
    requires Block(files, md, rank, depth).Ok?
    ensures WellPlaced(Block(files, md, rank, depth).value, 0)
    decreases depth, |md.fields| + 1
  {
    hide PlaceAll, WellPlaced;
    BelowSorted(files, md.fields, rank, depth);
    PlacedWell(files, ByNumber(md.fields), 0, rank, depth);
  }

  /** A layout whose block and whose groups' blocks are well placed, each as long as its fields. */
  ghost predicate SoundLayout(layout: Layout)
  {
    && WellPlaced(layout.fields, 0) && layout.blockLength == Total(layout.fields)
    && forall g :: g in layout.groups ==> WellPlaced(g.fields, 0) && g.blockLength == Total(g.fields)
  }

  lemma {:induction false} WellPlacedMore(ps: seq<Placed>, p: Placed, offset: nat)
    requires WellPlaced(ps, offset) && WellPlaced([p], offset + Total(ps))
    ensures WellPlaced(ps + [p], offset) && Total(ps + [p]) == Total(ps) + p.size
    decreases ps
  {
    if ps == [] {
      assert ps + [p] == [p];
      assert [p][1..] == [];
    } else {
      WellPlacedMore(ps[1..], p, offset + ps[0].size);
      assert (ps + [p])[1..] == ps[1..] + [p];
    }
  }

  lemma PieceSound(files: Files, md: Message, f: Field, sofar: Layout, rank: string -> nat, depth: nat)
    requires Acyclic(files, rank) && Below(files, [f], rank, depth) && SoundLayout(sofar)
    requires PieceOf(files, md, f, sofar.blockLength, rank, depth).Ok?
    ensures SoundLayout(With(sofar, PieceOf(files, md, f, sofar.blockLength, rank, depth).value))
  {
    hide Block, Place, WellPlaced, Total, Acyclic, Below, Synthetic;
    var piece := PieceOf(files, md, f, sofar.blockLength, rank, depth).value;
    match piece
    case InBlock(p) =>
      PlaceWell(files, f, sofar.blockLength, rank, depth);
      OneWell(p, sofar.blockLength);
      WellPlacedMore(sofar.fields, p, 0);
    case Repeating(g) =>
      BelowNamed(files, rank, f.typeName);
      BlockWell(files, files[f.typeName], rank, rank(f.typeName));
  }

  lemma OneWell(p: Placed, offset: nat)
    requires p.offset == offset && (p.Nested? ==> WellPlaced(p.inner, 0) && p.size == Total(p.inner))
    ensures WellPlaced([p], offset)
  {
    assert [p][1..] == [];
  }

  lemma {:induction false} LayoutFromSound(files: Files, md: Message, fs: seq<Field>, sofar: Layout,
                                           rank: string -> nat, depth: nat)
    requires Acyclic(files, rank) && Below(files, fs, rank, depth) && SoundLayout(sofar)
    requires LayoutFrom(files, md, fs, sofar, rank, depth).Ok?
    ensures SoundLayout(LayoutFrom(files, md, fs, sofar, rank, depth).value)
    decreases |fs|
  {
    hide SoundLayout, PieceOf, With;
    if fs != [] {
      assert Below(files, [fs[0]], rank, depth) && Below(files, fs[1..], rank, depth);
      PieceSound(files, md, fs[0], sofar, rank, depth);
      LayoutFromSound(files, md, fs[1..], With(sofar, PieceOf(files, md, fs[0], sofar.blockLength, rank, depth).value),
          rank, depth);
    }
  }

  /** Every layout is sound: leaves at absolute offsets partition each block, composites nested in their slots. */
  lemma LayoutTiles(files: Files, md: Message, rank: string -> nat, depth: nat)
    requires Acyclic(files, rank) && Below(files, md.fields, rank, depth)
    requires LayoutOf(files, md, rank, depth).Ok?
    ensures var layout := LayoutOf(files, md, rank, depth).value;
            && SoundLayout(layout)
            && Tiles(Leaves(layout.fields, 0), 0, layout.blockLength)
            && forall g :: g in layout.groups ==> Tiles(Leaves(g.fields, 0), 0, g.blockLength)
  {
    hide ByNumber, LayoutFrom, Tiles, Leaves;
    BelowSorted(files, md.fields, rank, depth);
    LayoutFromSound(files, md, ByNumber(md.fields), Layout(md.templateId.value, 0, [], []), rank, depth);
    var layout := LayoutOf(files, md, rank, depth).value;
    LeavesTile(layout.fields, 0, 0);
    forall g | g in layout.groups
      ensures Tiles(Leaves(g.fields, 0), 0, g.blockLength)
    {
      LeavesTile(g.fields, 0, 0);
    }
  }

  // ---- Every field is placed, in number order ----

  /** ps places exactly the fields fs in their order, each at its encoding's size; composites likewise inside. */
  ghost predicate PlacedFor(files: Files, ps: seq<Placed>, fs: seq<Field>)
    decreases ps
  {
    |ps| == |fs|
    && (ps == []
        || (&& PlacedAs(files, ps[0], fs[0])
            && PlacedFor(files, ps[1..], fs[1..])))
  }

  ghost predicate PlacedAs(files: Files, p: Placed, f: Field)
    decreases p
  {
    && p.field == f && !f.repeated && !f.isMap
    && match p
       case Scalar(_, _, size, encoding) => f.kind != Submessage && Encoding(f) == Ok((encoding, size))
       case Nested(_, _, _, inner) =>
         f.kind == Submessage && f.typeName in files && PlacedFor(files, inner, ByNumber(files[f.typeName].fields))
  }

  lemma {:induction false} PlaceIsFor(files: Files, f: Field, offset: nat, rank: string -> nat, depth: nat)
    requires Acyclic(files, rank) && Below(files, [f], rank, depth)
    requires Place(files, f, offset, rank, depth).Ok?
    ensures PlacedAs(files, Place(files, f, offset, rank, depth).value, f)
    decreases depth, 0
  {
    hide Encoding, PlaceAll, ByNumber;
    if f.kind == Submessage {
      assert [f][0] == f;
      BlockIsFor(files, files[f.typeName], rank, rank(f.typeName));
    }
  }

  lemma {:induction false} BlockIsFor(files: Files, md: Message, rank: string -> nat, depth: nat)
    requires Acyclic(files, rank) && Below(files, md.fields, rank, depth)
    requires Block(files, md, rank, depth).Ok?
    ensures PlacedFor(files, Block(files, md, rank, depth).value, ByNumber(md.fields))
    decreases depth, |md.fields| + 1
  {
    hide PlaceAll, PlacedFor;
    BelowSorted(files, md.fields, rank, depth);
    PlaceAllIsFor(files, ByNumber(md.fields), 0, rank, depth);
  }

  lemma {:induction false} PlaceAllIsFor(files: Files, fs: seq<Field>, offset: nat, rank: string -> nat, depth: nat)
    requires Acyclic(files, rank) && Below(files, fs, rank, depth)
    requires PlaceAll(files, fs, offset, rank, depth).Ok?
    ensures PlacedFor(files, PlaceAll(files, fs, offset, rank, depth).value, fs)
    decreases depth, |fs|
  {
    hide Place, PlacedAs;
    if fs != [] {
      assert Below(files, [fs[0]], rank, depth) && Below(files, fs[1..], rank, depth);
      var p := Place(files, fs[0], offset, rank, depth).value;
      PlaceIsFor(files, fs[0], offset, rank, depth);
      PlaceAllIsFor(files, fs[1..], offset + p.size, rank, depth);
      var rest := PlaceAll(files, fs[1..], offset + p.size, rank, depth).value;
      assert PlaceAll(files, fs, offset, rank, depth).value == [p] + rest;
      assert ([p] + rest)[1..] == rest;
    }
  }

  /** The fields in the block, and the repeating ones. */
  function Singular(fs: seq<Field>): seq<Field>
  {
    if fs == [] then [] else (if fs[0].repeated then [] else [fs[0]]) + Singular(fs[1..])
  }

  function Repeated(fs: seq<Field>): seq<Field>
  {
    if fs == [] then [] else (if fs[0].repeated then [fs[0]] else []) + Repeated(fs[1..])
  }

  ghost predicate GroupsFor(files: Files, groups: seq<Group>, fs: seq<Field>)
  {
    |groups| == |fs|
    && forall k :: 0 <= k < |fs| ==> GroupFor(files, groups[k], fs[k])
  }

  ghost predicate GroupFor(files: Files, g: Group, f: Field)
  {
    && g.field == f && f.typeName in files
    && PlacedFor(files, g.fields, ByNumber(files[f.typeName].fields))
  }

  ghost predicate PieceFor(files: Files, piece: Piece, f: Field)
  {
    match piece
    case InBlock(p) => !f.repeated && PlacedAs(files, p, f)
    case Repeating(g) => f.repeated && GroupFor(files, g, f)
  }

  lemma {:induction false} PlacedForMore(files: Files, ps: seq<Placed>, fs: seq<Field>, p: Placed, f: Field)
    requires PlacedFor(files, ps, fs) && PlacedAs(files, p, f)
    ensures PlacedFor(files, ps + [p], fs + [f])
    decreases ps
  {
    hide PlacedAs;
    if ps == [] {
      assert ps + [p] == [p] && fs + [f] == [f] && [p][1..] == [] && [f][1..] == [];
    } else {
      PlacedForMore(files, ps[1..], fs[1..], p, f);
      assert (ps + [p])[1..] == ps[1..] + [p] && (fs + [f])[1..] == fs[1..] + [f];
    }
  }

  lemma PieceIsFor(files: Files, md: Message, f: Field, offset: nat, rank: string -> nat, depth: nat)
    requires Acyclic(files, rank) && Below(files, [f], rank, depth)
    requires PieceOf(files, md, f, offset, rank, depth).Ok?
    ensures PieceFor(files, PieceOf(files, md, f, offset, rank, depth).value, f)
  {
    hide Block, Place, PlacedFor, PlacedAs, ByNumber, Synthetic;
    match PieceOf(files, md, f, offset, rank, depth).value
    case InBlock(p) => PlaceIsFor(files, f, offset, rank, depth);
    case Repeating(g) =>
      BelowNamed(files, rank, f.typeName);
      BlockIsFor(files, files[f.typeName], rank, rank(f.typeName));
  }

  lemma {:induction false} LayoutFromIsFor(files: Files, md: Message, done: seq<Field>, fs: seq<Field>, sofar: Layout,
                                           rank: string -> nat, depth: nat)
    requires Acyclic(files, rank) && Below(files, fs, rank, depth)
    requires PlacedFor(files, sofar.fields, Singular(done)) && GroupsFor(files, sofar.groups, Repeated(done))
    requires LayoutFrom(files, md, fs, sofar, rank, depth).Ok?
    ensures var layout := LayoutFrom(files, md, fs, sofar, rank, depth).value;
            PlacedFor(files, layout.fields, Singular(done + fs)) && GroupsFor(files, layout.groups, Repeated(done + fs))
    decreases |fs|
  {
    hide PieceOf, PlacedFor, PlacedAs, GroupFor, Singular, Repeated;
    if fs == [] {
      assert done + fs == done;
    } else {
      var f := fs[0];
      assert Below(files, [f], rank, depth) && Below(files, fs[1..], rank, depth);
      PieceIsFor(files, md, f, sofar.blockLength, rank, depth);
      var piece := PieceOf(files, md, f, sofar.blockLength, rank, depth).value;
      SplitMore(done, f);
      match piece {
        case InBlock(p) => PlacedForMore(files, sofar.fields, Singular(done), p, f);
        case Repeating(g) =>
      }
      LayoutFromIsFor(files, md, done + [f], fs[1..], With(sofar, piece), rank, depth);
      assert done + [f] + fs[1..] == done + fs;
    }
  }

  lemma SplitMore(done: seq<Field>, f: Field)
    ensures Singular(done + [f]) == if f.repeated then Singular(done) else Singular(done) + [f]
    ensures Repeated(done + [f]) == if f.repeated then Repeated(done) + [f] else Repeated(done)
  {
    SingularMore(done, f);
    RepeatedMore(done, f);
    hide Singular, Repeated;
    assert Singular(done) + [] == Singular(done) && Repeated(done) + [] == Repeated(done);
  }

  lemma {:induction false} SingularMore(done: seq<Field>, f: Field)
    ensures Singular(done + [f]) == Singular(done) + (if f.repeated then [] else [f])
  {
    var last := if f.repeated then [] else [f];
    if done == [] {
      assert done + [f] == [f] && [f][1..] == [];
    } else {
      SingularMore(done[1..], f);
      assert (done + [f])[1..] == done[1..] + [f];
      Seqs.Associate(if done[0].repeated then [] else [done[0]], Singular(done[1..]), last);
    }
  }

  lemma {:induction false} RepeatedMore(done: seq<Field>, f: Field)
    ensures Repeated(done + [f]) == Repeated(done) + (if f.repeated then [f] else [])
  {
    var last := if f.repeated then [f] else [];
    if done == [] {
      assert done + [f] == [f] && [f][1..] == [];
    } else {
      RepeatedMore(done[1..], f);
      assert (done + [f])[1..] == done[1..] + [f];
      Seqs.Associate(if done[0].repeated then [done[0]] else [], Repeated(done[1..]), last);
    }
  }

  /** A layout places every field once: singular ones in the block by number, repeated ones as groups by number. */
  lemma LayoutPlacesAll(files: Files, md: Message, rank: string -> nat, depth: nat)
    requires Acyclic(files, rank) && Below(files, md.fields, rank, depth)
    requires LayoutOf(files, md, rank, depth).Ok?
    ensures var layout, fs := LayoutOf(files, md, rank, depth).value, ByNumber(md.fields);
            PlacedFor(files, layout.fields, Singular(fs)) && GroupsFor(files, layout.groups, Repeated(fs))
  {
    BelowSorted(files, md.fields, rank, depth);
    var fs := ByNumber(md.fields);
    hide ByNumber, LayoutFrom;
    LayoutFromIsFor(files, md, [], fs, Layout(md.templateId.value, 0, [], []), rank, depth);
    assert [] + fs == fs;
  }

  // ---- Bytes ----

  /** No leaf starts before the ones before it have ended. */
  lemma {:induction false} TilesApart(leaves: seq<Leaf>, from: nat, to: nat, i: nat, j: nat)
    requires Tiles(leaves, from, to) && i < j < |leaves|
    ensures from <= leaves[i].start && leaves[i].start + leaves[i].size <= leaves[j].start
    ensures leaves[j].start + leaves[j].size <= to
    decreases leaves
  {
    TilesInside(leaves[1..], from + leaves[0].size, to, j - 1);
    if i > 0 {
      TilesApart(leaves[1..], from + leaves[0].size, to, i - 1, j - 1);
    }
  }

  lemma {:induction false} TilesInside(leaves: seq<Leaf>, from: nat, to: nat, i: nat)
    requires Tiles(leaves, from, to) && i < |leaves|
    ensures from <= leaves[i].start && leaves[i].start + leaves[i].size <= to
    decreases leaves
  {
    if i > 0 {
      TilesInside(leaves[1..], from + leaves[0].size, to, i - 1);
    } else {
      TilesForward(leaves[1..], from + leaves[0].size, to);
    }
  }

  lemma {:induction false} TilesForward(leaves: seq<Leaf>, from: nat, to: nat)
    requires Tiles(leaves, from, to)
    ensures from <= to
    decreases leaves
  {
    if leaves != [] {
      TilesForward(leaves[1..], from + leaves[0].size, to);
    }
  }

  predicate Covers(l: Leaf, b: nat)
  {
    l.start <= b < l.start + l.size
  }

  /** Each byte of the block belongs to exactly one leaf. */
  lemma {:induction false} OneLeafPerByte(leaves: seq<Leaf>, from: nat, to: nat, b: nat) returns (i: nat)
    requires Tiles(leaves, from, to) && from <= b < to
    ensures i < |leaves| && Covers(leaves[i], b)
    ensures forall j :: 0 <= j < |leaves| && Covers(leaves[j], b) ==> j == i
    decreases leaves
  {
    i := 0;
    if b >= from + leaves[0].size {
      i := OneLeafPerByte(leaves[1..], from + leaves[0].size, to, b);
      assert forall j :: 0 < j < |leaves| ==> leaves[j] == leaves[1..][j - 1];
      i := i + 1;
    } else {
      forall j | 0 < j < |leaves|
        ensures !Covers(leaves[j], b)
      {
        TilesApart(leaves, from, to, 0, j);
      }
    }
  }

  type Bytes = seq<bv8>

  function BytesOf(block: Bytes, l: Leaf): Bytes
    requires l.start + l.size <= |block|
  {
    block[l.start..l.start + l.size]
  }

  function Write(block: Bytes, l: Leaf, data: Bytes): (r: Bytes)
    requires l.start + l.size <= |block| && |data| == l.size
    ensures |r| == |block|
  {
    block[..l.start] + data + block[l.start + l.size..]
  }

  lemma WriteReads(block: Bytes, l: Leaf, data: Bytes)
    requires l.start + l.size <= |block| && |data| == l.size
    ensures BytesOf(Write(block, l, data), l) == data
  {
  }

  lemma WriteApart(block: Bytes, l: Leaf, data: Bytes, m: Leaf)
    requires l.start + l.size <= |block| && |data| == l.size && m.start + m.size <= |block|
    requires l.start + l.size <= m.start || m.start + m.size <= l.start
    ensures BytesOf(Write(block, l, data), m) == BytesOf(block, m)
  {
    var r := Write(block, l, data);
    assert forall k :: 0 <= k < l.start ==> r[k] == block[k];
    assert forall k :: l.start + l.size <= k < |block| ==> r[k] == block[k];
  }

  /** Writing one leaf puts its bytes and leaves every other leaf's bytes as they were. */
  lemma WriteOneLeaf(leaves: seq<Leaf>, block: Bytes, i: nat, data: Bytes)
    requires Tiles(leaves, 0, |block|) && i < |leaves| && |data| == leaves[i].size
    ensures forall k :: 0 <= k < |leaves| ==> leaves[k].start + leaves[k].size <= |block|
    ensures BytesOf(Write(block, leaves[i], data), leaves[i]) == data
    ensures forall j :: 0 <= j < |leaves| && j != i ==>
              BytesOf(Write(block, leaves[i], data), leaves[j]) == BytesOf(block, leaves[j])
  {
    forall k | 0 <= k < |leaves|
      ensures leaves[k].start + leaves[k].size <= |block|
    {
      TilesInside(leaves, 0, |block|, k);
    }
    WriteReads(block, leaves[i], data);
    forall j | 0 <= j < |leaves| && j != i
      ensures BytesOf(Write(block, leaves[i], data), leaves[j]) == BytesOf(block, leaves[j])
    {
      TilesApart(leaves, 0, |block|, if i < j then i else j, if i < j then j else i);
      WriteApart(block, leaves[i], data, leaves[j]);
    }
  }

  // ---- Declaration order ----

  /** The same messages, their fields declared in another order. */
  ghost predicate Reordered(a: Message, b: Message)
  {
    && a.name == b.name && a.templateId == b.templateId
    && multiset(a.fields) == multiset(b.fields)
    && Sorting.DistinctKeys(a.fields, Number)
  }

  ghost predicate FilesReordered(a: Files, b: Files)
  {
    a.Keys == b.Keys && forall n :: n in a ==> Reordered(a[n], b[n])
  }

  lemma BelowReordered(a: Files, b: Files, fs: seq<Field>, gs: seq<Field>, rank: string -> nat, depth: nat)
    requires a.Keys == b.Keys && multiset(fs) == multiset(gs) && Below(a, fs, rank, depth)
    ensures Below(b, gs, rank, depth)
  {
    forall k | 0 <= k < |gs| && IsComposite(gs[k]) && gs[k].typeName in b
      ensures rank(gs[k].typeName) < depth
    {
      assert gs[k] in multiset(gs);
      assert gs[k] in multiset(fs);
      assert gs[k] in fs;
      assert gs[k].typeName in a.Keys;
    }
  }

  lemma AcyclicReordered(a: Files, b: Files, rank: string -> nat)
    requires FilesReordered(a, b) && Acyclic(a, rank)
    ensures Acyclic(b, rank)
  {
    hide Below;
    forall n | n in b
      ensures Below(b, b[n].fields, rank, rank(n))
    {
      assert n in a.Keys;
      BelowReordered(a, b, a[n].fields, b[n].fields, rank, rank(n));
    }
  }

  lemma {:induction false} PlaceReordered(a: Files, b: Files, f: Field, offset: nat, rank: string -> nat, depth: nat)
    requires FilesReordered(a, b) && Acyclic(a, rank) && Acyclic(b, rank)
    requires Below(a, [f], rank, depth) && Below(b, [f], rank, depth)
    ensures Place(a, f, offset, rank, depth) == Place(b, f, offset, rank, depth)
    decreases depth, 0
  {
    hide Encoding, PlaceAll;
    if IsComposite(f) && f.typeName in a {
      assert [f][0] == f && f.typeName in b.Keys;
      BelowNamed(a, rank, f.typeName);
      BelowNamed(b, rank, f.typeName);
      BlockReordered(a, b, a[f.typeName], b[f.typeName], rank, rank(f.typeName));
    } else {
      assert f.typeName in a.Keys <==> f.typeName in b.Keys;
    }
  }

  lemma {:induction false} BlockReordered(a: Files, b: Files, m: Message, n: Message, rank: string -> nat, depth: nat)
    requires FilesReordered(a, b) && Acyclic(a, rank) && Acyclic(b, rank)
    requires Reordered(m, n) && Below(a, m.fields, rank, depth) && Below(b, n.fields, rank, depth)
    ensures Block(a, m, rank, depth) == Block(b, n, rank, depth)
    decreases depth, |m.fields| + 1
  {
    hide PlaceAll, FilesReordered, Acyclic;
    BelowSorted(a, m.fields, rank, depth);
    BelowSorted(b, n.fields, rank, depth);
    Sorting.SortPermuted(m.fields, n.fields, Number);
    PlaceAllReordered(a, b, ByNumber(m.fields), 0, rank, depth);
  }

  lemma {:induction false} PlaceAllReordered(a: Files, b: Files, fs: seq<Field>, offset: nat, rank: string -> nat,
                                             depth: nat)
    requires FilesReordered(a, b) && Acyclic(a, rank) && Acyclic(b, rank)
    requires Below(a, fs, rank, depth) && Below(b, fs, rank, depth)
    ensures PlaceAll(a, fs, offset, rank, depth) == PlaceAll(b, fs, offset, rank, depth)
    decreases depth, |fs|
  {
    hide Place, FilesReordered, Acyclic;
    if fs != [] {
      assert Below(a, [fs[0]], rank, depth) && Below(a, fs[1..], rank, depth);
      assert Below(b, [fs[0]], rank, depth) && Below(b, fs[1..], rank, depth);
      PlaceReordered(a, b, fs[0], offset, rank, depth);
      var p := Place(a, fs[0], offset, rank, depth);
      if p.Ok? {
        PlaceAllReordered(a, b, fs[1..], offset + p.value.size, rank, depth);
      }
    }
  }

  lemma {:induction false} MembersCount(fs: seq<Field>, oneof: nat, f: Field)
    ensures multiset(Members(fs, oneof))[f] == if f.oneof == Some(oneof) then multiset(fs)[f] else 0
  {
    if fs != [] {
      MembersCount(fs[1..], oneof, f);
      assert fs == [fs[0]] + fs[1..];
    }
  }

  lemma SyntheticReordered(fs: seq<Field>, gs: seq<Field>, oneof: nat)
    requires multiset(fs) == multiset(gs)
    ensures Synthetic(fs, oneof) == Synthetic(gs, oneof)
  {
    var m, n := Members(fs, oneof), Members(gs, oneof);
    forall f: Field
      ensures multiset(m)[f] == multiset(n)[f]
    {
      MembersCount(fs, oneof, f);
      MembersCount(gs, oneof, f);
    }
    assert multiset(m) == multiset(n);
    hide Members;
    Sorting.SameLength(m, n);
    if |m| == 1 {
      Sorting.SameLast(m, n, Number);
    }
  }

  lemma PieceReordered(a: Files, b: Files, m: Message, n: Message, f: Field, offset: nat, rank: string -> nat,
                       depth: nat)
    requires FilesReordered(a, b) && Acyclic(a, rank) && Acyclic(b, rank) && Reordered(m, n)
    requires Below(a, [f], rank, depth) && Below(b, [f], rank, depth)
    ensures PieceOf(a, m, f, offset, rank, depth) == PieceOf(b, n, f, offset, rank, depth)
  {
    hide Block, Place, Synthetic;
    assert f.typeName in a.Keys <==> f.typeName in b.Keys;
    PlaceReordered(a, b, f, offset, rank, depth);
    if f.oneof.Some? {
      SyntheticReordered(m.fields, n.fields, f.oneof.value);
    }
    if f.typeName in a {
      BlockReordered(a, b, a[f.typeName], b[f.typeName], rank, rank(f.typeName));
    }
  }

  lemma {:induction false} LayoutFromReordered(a: Files, b: Files, m: Message, n: Message, fs: seq<Field>,
                                               sofar: Layout, rank: string -> nat, depth: nat)
    requires FilesReordered(a, b) && Acyclic(a, rank) && Acyclic(b, rank) && Reordered(m, n)
    requires Below(a, fs, rank, depth) && Below(b, fs, rank, depth)
    ensures LayoutFrom(a, m, fs, sofar, rank, depth) == LayoutFrom(b, n, fs, sofar, rank, depth)
    decreases |fs|
  {
    hide PieceOf, FilesReordered, Acyclic, With, Reordered;
    if fs != [] {
      assert Below(a, [fs[0]], rank, depth) && Below(a, fs[1..], rank, depth);
      assert Below(b, [fs[0]], rank, depth) && Below(b, fs[1..], rank, depth);
      PieceReordered(a, b, m, n, fs[0], sofar.blockLength, rank, depth);
      var piece := PieceOf(a, m, fs[0], sofar.blockLength, rank, depth);
      if piece.Ok? {
        LayoutFromReordered(a, b, m, n, fs[1..], With(sofar, piece.value), rank, depth);
      }
    }
  }

  /** The layout, or the error, does not depend on the order in which fields are declared. */
  lemma LayoutReordered(a: Files, b: Files, m: Message, n: Message, rank: string -> nat, depth: nat)
    requires FilesReordered(a, b) && Acyclic(a, rank) && Reordered(m, n) && Below(a, m.fields, rank, depth)
    ensures Acyclic(b, rank) && Below(b, n.fields, rank, depth)
    ensures LayoutOf(a, m, rank, depth) == LayoutOf(b, n, rank, depth)
  {
    AcyclicReordered(a, b, rank);
    BelowReordered(a, b, m.fields, n.fields, rank, depth);
    BelowSorted(a, m.fields, rank, depth);
    BelowSorted(b, n.fields, rank, depth);
    Sorting.SortPermuted(m.fields, n.fields, Number);
    hide LayoutFrom, FilesReordered, Acyclic, Below;
    if m.templateId.Some? {
      LayoutFromReordered(a, b, m, n, ByNumber(m.fields), Layout(m.templateId.value, 0, [], []), rank, depth);
    }
  }
}
