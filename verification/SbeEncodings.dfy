/** What the encodings of scalar fields hold: the size of an encoding is the one its name states, and the values of
  * a field that fit it; and which messages have a layout (cmd/protoc-gen-pxf-java-meta/sbe.go:245-484). */
module SbeEncodings {
  import opened Options
  import opened Powers
  import opened Decimals
  import opened SbeLayout
  import Sorting

  /** The encoding is an integer of n bytes, its name stating the bits. */
  ghost predicate IsInteger(encoding: string, n: nat, signed: bool)
  {
    n > 0 && encoding == (if signed then "int" else "uint") + Numeral(8 * n)
  }

  lemma Numerals()
    ensures Numeral(8) == "8" && Numeral(16) == "16" && Numeral(32) == "32" && Numeral(64) == "64"
  {
    assert Numeral(1) == "1" && Numeral(3) == "3" && Numeral(6) == "6";
  }

  /** The size of a field is the one its encoding's name states; text has the length asked for. */
  lemma SizeIsNamed(f: Field)
    requires Encoding(f).Ok?
    ensures var (e, n) := Encoding(f).value;
            || IsInteger(e, n, true) || IsInteger(e, n, false)
            || (e == "float" && n == 4) || (e == "double" && n == 8)
            || (e == "char" && f.encoding == "" && f.kind in {Text, Bytes} && f.length == Some(n))
  {
    Numerals();
    hide Numeral;
    NamesAre();
  }

  lemma NamesAre()
    ensures "int" + "8" == "int8" && "int" + "16" == "int16" && "int" + "32" == "int32" && "int" + "64" == "int64"
    ensures "uint" + "8" == "uint8" && "uint" + "16" == "uint16" && "uint" + "32" == "uint32"
    ensures "uint" + "64" == "uint64"
  {
  }

  /** A name the field asks for is taken as it is, when it is one of the integers of 1, 2, 4 and 8 bytes or a floating
    * point number. */
  lemma OverrideTaken(f: Field)
    requires f.encoding != ""
    ensures Encoding(f).Ok? <==>
              || f.encoding in {"float", "double"}
              || exists n: nat, signed :: n in {1, 2, 4, 8} && IsInteger(f.encoding, n, signed)
    ensures Encoding(f).Ok? ==> Encoding(f).value.0 == f.encoding
  {
    Numerals();
    NamesAre();
    hide Numeral;
    forall n: nat, signed | n in {1, 2, 4, 8} && IsInteger(f.encoding, n, signed)
      ensures Encoding(f).Ok?
    {
    }
    if Encoding(f).Ok? && f.encoding !in {"float", "double"} {
      var n := Encoding(f).value.1;
      assert IsInteger(f.encoding, n, true) || IsInteger(f.encoding, n, false);
    }
  }

  // ---- The values that fit ----

  /** A number that an integer of n bytes can be. */
  ghost predicate Holds(n: nat, signed: bool, v: int)
  {
    if signed then -(IntPow(256, n) as int) <= 2 * v < IntPow(256, n) else 0 <= v < IntPow(256, n)
  }

  /** A number that a field of the kind can have: enum values are numbers of 32 bits. */
  ghost predicate IsValue(kind: Kind, v: int)
  {
    match kind
    case Bool => 0 <= v < 2
    case Int32 | Sint32 | Sfixed32 | Enumeration => -0x8000_0000 <= v < 0x8000_0000
    case Int64 | Sint64 | Sfixed64 => -0x8000_0000_0000_0000 <= v < 0x8000_0000_0000_0000
    case Uint32 | Fixed32 => 0 <= v < 0x1_0000_0000
    case Uint64 | Fixed64 => 0 <= v < 0x1_0000_0000_0000_0000
    case _ => false
  }

  /** The bytes a kind's numbers need. */
  function Width(kind: Kind): nat
  {
    match kind
    case Int32 | Sint32 | Sfixed32 | Enumeration | Uint32 | Fixed32 => 4
    case _ => 8
  }

  predicate IsSigned(kind: Kind)
  {
    kind in {Int32, Sint32, Sfixed32, Enumeration, Int64, Sint64, Sfixed64}
  }

  lemma ByteWords()
    ensures IntPow(256, 1) == 0x100 && IntPow(256, 2) == 0x1_0000 && IntPow(256, 4) == 0x1_0000_0000
    ensures IntPow(256, 8) == 0x1_0000_0000_0000_0000
  {
    assert IntPow(256, 4) == 256 * 256 * IntPow(256, 2);
    assert IntPow(256, 8) == 256 * 256 * 256 * 256 * IntPow(256, 4);
  }

  /** An integer holds every value of a kind exactly when it is wide enough: signed for a signed kind, and wider than
    * an unsigned kind when it is signed itself. */
  lemma HoldsAllIff(kind: Kind, n: nat, signed: bool)
    requires n in {1, 2, 4, 8} && (IsSigned(kind) || kind in {Uint32, Fixed32, Uint64, Fixed64})
    ensures (forall v :: IsValue(kind, v) ==> Holds(n, signed, v)) <==>
              n >= Width(kind) && (IsSigned(kind) ==> signed) && (!IsSigned(kind) && signed ==> n > Width(kind))
  {
    ByteWords();
    hide IntPow;
    if IsSigned(kind) {
      assert IsValue(kind, -1) && IsValue(kind, 0x7fff_ffff);
      assert Width(kind) == 8 ==> IsValue(kind, 0x7fff_ffff_ffff_ffff);
    } else {
      assert IsValue(kind, 0xffff_ffff);
      assert Width(kind) == 8 ==> IsValue(kind, 0xffff_ffff_ffff_ffff);
    }
  }

  /** Without an encoding of its own, a field of integers holds every value of its kind, but for an enum, of whose
    * numbers it holds 0 to 255. */
  lemma DefaultHolds(f: Field, v: int)
    requires f.encoding == "" && IsValue(f.kind, v)
    ensures Encoding(f).Ok?
    ensures exists signed :: IsInteger(Encoding(f).value.0, Encoding(f).value.1, signed)
    ensures forall signed :: IsInteger(Encoding(f).value.0, Encoding(f).value.1, signed) ==>
              (Holds(Encoding(f).value.1, signed, v) <==> f.kind == Enumeration ==> 0 <= v < 256)
  {
    Numerals();
    NamesAre();
    ByteWords();
    hide Numeral, IntPow;
    var (e, n) := Encoding(f).value;
    var signed := e[0] == 'i';
    assert IsInteger(e, n, signed);
    assert forall s :: IsInteger(e, n, s) ==> e[0] == (if s then 'i' else 'u');
  }

  // ---- Which messages have a layout ----

  /** The one member of a oneof, when it has no other: the oneof of an optional field. */
  ghost predicate IsOptional(fs: seq<Field>, oneof: nat)
  {
    exists k :: 0 <= k < |fs| && fs[k].oneof == Some(oneof) && fs[k].proto3Optional
                && forall j :: 0 <= j < |fs| && j != k ==> fs[j].oneof != Some(oneof)
  }

  lemma {:induction false} NoMembersIff(fs: seq<Field>, oneof: nat)
    ensures Members(fs, oneof) == [] <==> forall k :: 0 <= k < |fs| ==> fs[k].oneof != Some(oneof)
  {
    if fs != [] {
      NoMembersIff(fs[1..], oneof);
      assert forall k :: 0 < k < |fs| ==> fs[k] == fs[1..][k - 1];
    }
  }

  lemma {:induction false} SyntheticIff(fs: seq<Field>, oneof: nat)
    ensures Synthetic(fs, oneof) <==> IsOptional(fs, oneof)
  {
    if fs != [] {
      var rest := fs[1..];
      SyntheticIff(rest, oneof);
      NoMembersIff(rest, oneof);
      assert forall k :: 0 < k < |fs| ==> fs[k] == rest[k - 1];
      if fs[0].oneof == Some(oneof) {
        assert Members(fs, oneof) == [fs[0]] + Members(rest, oneof);
        assert forall k :: 0 <= k < |rest| ==> rest[k] == fs[k + 1];
      } else {
        assert Members(fs, oneof) == Members(rest, oneof);
        OptionalLater(fs, oneof);
      }
    }
  }

  lemma OptionalLater(fs: seq<Field>, oneof: nat)
    requires fs != [] && fs[0].oneof != Some(oneof)
    ensures IsOptional(fs, oneof) <==> IsOptional(fs[1..], oneof)
  {
    var rest := fs[1..];
    assert forall k :: 0 < k < |fs| ==> fs[k] == rest[k - 1];
    if IsOptional(rest, oneof) {
      var k :| 0 <= k < |rest| && rest[k].oneof == Some(oneof) && rest[k].proto3Optional
               && forall j :: 0 <= j < |rest| && j != k ==> rest[j].oneof != Some(oneof);
      assert fs[k + 1].oneof == Some(oneof);
    }
    if IsOptional(fs, oneof) {
      var k :| 0 <= k < |fs| && fs[k].oneof == Some(oneof) && fs[k].proto3Optional
               && forall j :: 0 <= j < |fs| && j != k ==> fs[j].oneof != Some(oneof);
      assert rest[k - 1].oneof == Some(oneof);
      assert forall j :: 0 <= j < |rest| ==> rest[j] == fs[j + 1];
    }
  }

  /** The fields of a group or a composite have places: none is repeated or a map, each scalar has an encoding, and
    * each message is known and its fields have places in turn. */
  ghost predicate Fit(files: Files, fs: seq<Field>, rank: string -> nat, depth: nat)
    requires Acyclic(files, rank) && Below(files, fs, rank, depth)
    decreases depth
  {
    forall k :: 0 <= k < |fs| ==>
      && !fs[k].repeated && !fs[k].isMap
      && (fs[k].kind != Submessage ==> Encoding(fs[k]).Ok?)
      && (fs[k].kind == Submessage ==>
            fs[k].typeName in files && Fit(files, files[fs[k].typeName].fields, rank, rank(fs[k].typeName)))
  }

  lemma {:induction false} PlaceAllFits(files: Files, fs: seq<Field>, offset: nat, rank: string -> nat, depth: nat)
    requires Acyclic(files, rank) && Below(files, fs, rank, depth)
    ensures PlaceAll(files, fs, offset, rank, depth).Ok? <==> Fit(files, fs, rank, depth)
    decreases depth, |fs|
  {
    hide Encoding, ByNumber, Acyclic;
    if fs != [] {
      var f, rest := fs[0], fs[1..];
      assert Below(files, [f], rank, depth) && Below(files, rest, rank, depth);
      if !f.repeated && !f.isMap && f.kind == Submessage && f.typeName in files {
        BelowNamed(files, rank, f.typeName);
        assert [f][0] == f;
        BlockFits(files, files[f.typeName], rank, rank(f.typeName));
      }
      var p := Place(files, f, offset, rank, depth);
      if p.Ok? {
        PlaceAllFits(files, rest, offset + p.value.size, rank, depth);
      }
      assert forall k :: 0 < k < |fs| ==> fs[k] == rest[k - 1];
      FitRest(files, fs, rank, depth);
    }
  }

  lemma FitRest(files: Files, fs: seq<Field>, rank: string -> nat, depth: nat)
    requires Acyclic(files, rank) && Below(files, fs, rank, depth) && fs != []
    ensures Below(files, fs[1..], rank, depth)
    ensures Fit(files, fs, rank, depth) ==> Fit(files, fs[1..], rank, depth)
  {
    hide Encoding, Acyclic;
    assert Below(files, fs[1..], rank, depth);
  }

  lemma {:induction false} BlockFits(files: Files, md: Message, rank: string -> nat, depth: nat)
    requires Acyclic(files, rank) && Below(files, md.fields, rank, depth)
    ensures Block(files, md, rank, depth).Ok? <==> Fit(files, md.fields, rank, depth)
    decreases depth, |md.fields| + 1
  {
    hide PlaceAll, Acyclic;
    BelowSorted(files, md.fields, rank, depth);
    PlaceAllFits(files, ByNumber(md.fields), 0, rank, depth);
    SortedFits(files, md.fields, rank, depth);
  }

  lemma SortedHas(fs: seq<Field>, f: Field)
    ensures f in ByNumber(fs) <==> f in fs
  {
    Sorting.SortPermutes(fs, Number);
    var s := ByNumber(fs);
    assert f in multiset(s) <==> f in multiset(fs);
  }

  lemma SortedFits(files: Files, fs: seq<Field>, rank: string -> nat, depth: nat)
    requires Acyclic(files, rank) && Below(files, fs, rank, depth) && Below(files, ByNumber(fs), rank, depth)
    ensures Fit(files, ByNumber(fs), rank, depth) <==> Fit(files, fs, rank, depth)
  {
    hide Encoding, Acyclic, ByNumber;
    var s := ByNumber(fs);
    forall k | 0 <= k < |s|
      ensures s[k] in fs
    {
      SortedHas(fs, s[k]);
    }
    forall k | 0 <= k < |fs|
      ensures fs[k] in s
    {
      SortedHas(fs, fs[k]);
    }
  }

  /** What the top level asks of a field: no map, no oneof but that of an optional field, repeated only when it is a
    * message, its type known and its fields placed, or an encoding. */
  ghost predicate Laid(files: Files, md: Message, f: Field, rank: string -> nat, depth: nat)
    requires Acyclic(files, rank) && Below(files, md.fields, rank, depth) && f in md.fields
  {
    && !f.isMap
    && (f.oneof.Some? ==> IsOptional(md.fields, f.oneof.value))
    && (f.kind == Submessage ==>
          f.typeName in files && Below(files, files[f.typeName].fields, rank, rank(f.typeName))
          && Fit(files, files[f.typeName].fields, rank, rank(f.typeName)))
    && (f.kind != Submessage ==> !f.repeated && Encoding(f).Ok?)
  }

  lemma PieceLaid(files: Files, md: Message, f: Field, offset: nat, rank: string -> nat, depth: nat)
    requires Acyclic(files, rank) && Below(files, md.fields, rank, depth) && f in md.fields
    requires Below(files, [f], rank, depth)
    ensures PieceOf(files, md, f, offset, rank, depth).Ok? <==> Laid(files, md, f, rank, depth)
  {
    hide Encoding, Block, Synthetic, IsOptional, Fit;
    if f.oneof.Some? {
      SyntheticIff(md.fields, f.oneof.value);
    }
    if f.kind == Submessage && f.typeName in files {
      BelowNamed(files, rank, f.typeName);
      hide Acyclic;
      BlockFits(files, files[f.typeName], rank, rank(f.typeName));
    }
  }

  lemma {:induction false} LayoutFromLaid(files: Files, md: Message, fs: seq<Field>, sofar: Layout,
                                          rank: string -> nat, depth: nat)
    requires Acyclic(files, rank) && Below(files, md.fields, rank, depth) && Below(files, fs, rank, depth)
    requires forall f :: f in fs ==> f in md.fields
    ensures LayoutFrom(files, md, fs, sofar, rank, depth).Ok? <==>
              forall f :: f in fs ==> Laid(files, md, f, rank, depth)
    decreases |fs|
  {
    hide Acyclic, Laid, PieceOf;
    if fs != [] {
      var f, rest := fs[0], fs[1..];
      assert Below(files, [f], rank, depth) && Below(files, rest, rank, depth);
      assert forall g :: g in fs <==> g == f || g in rest;
      assert f in md.fields;
      PieceLaid(files, md, f, sofar.blockLength, rank, depth);
      var piece := PieceOf(files, md, f, sofar.blockLength, rank, depth);
      if piece.Ok? {
        LayoutFromLaid(files, md, rest, With(sofar, piece.value), rank, depth);
      }
    }
  }

  /** A message has a layout exactly when it has a template id and every field of it can be laid out. */
  lemma LayoutIff(files: Files, md: Message, rank: string -> nat, depth: nat)
    requires Acyclic(files, rank) && Below(files, md.fields, rank, depth)
    ensures LayoutOf(files, md, rank, depth).Ok? <==>
              md.templateId.Some? && forall f :: f in md.fields ==> Laid(files, md, f, rank, depth)
    ensures LayoutOf(files, md, rank, depth).Ok? ==>
              LayoutOf(files, md, rank, depth).value.templateId == md.templateId.value
  {
    hide Acyclic, Laid, LayoutFrom, ByNumber;
    BelowSorted(files, md.fields, rank, depth);
    var fs := ByNumber(md.fields);
    forall f
      ensures f in fs <==> f in md.fields
    {
      SortedHas(md.fields, f);
    }
    if md.templateId.Some? {
      LayoutFromLaid(files, md, fs, Layout(md.templateId.value, 0, [], []), rank, depth);
      TemplateStays(files, md, fs, Layout(md.templateId.value, 0, [], []), rank, depth);
    }
  }

  lemma {:induction false} TemplateStays(files: Files, md: Message, fs: seq<Field>, sofar: Layout,
                                         rank: string -> nat, depth: nat)
    requires Acyclic(files, rank) && Below(files, fs, rank, depth)
    ensures LayoutFrom(files, md, fs, sofar, rank, depth).Ok? ==>
              LayoutFrom(files, md, fs, sofar, rank, depth).value.templateId == sofar.templateId
    decreases |fs|
  {
    hide Acyclic, PieceOf;
    if fs != [] {
      assert Below(files, [fs[0]], rank, depth) && Below(files, fs[1..], rank, depth);
      var piece := PieceOf(files, md, fs[0], sofar.blockLength, rank, depth);
      if piece.Ok? {
        TemplateStays(files, md, fs[1..], With(sofar, piece.value), rank, depth);
      }
    }
  }
}
