/** What the schema of a field accepts, kind of field by kind of field, and exactly when a keyword says of a value's
  * JSON form what the rule says of the value (internal/openapi/schemas.go:192-221,263-308,421-442,460-482,577-615,
  * internal/openapi/validate.go:10-25,202-243, docs/RFC-001-schema-extensions.md:433-478,514-578). */
module RuleFields {
  import opened Options
  import opened GoText
  import opened RuleText
  import opened RuleMapper
  import opened JsonValues
  import opened RuleConstraints

  /** How a schema admits null: not at all, in its list of types, or in a branch of its own. */
  datatype Nullness = Never | InType | Beside

  /** fieldSizeKind and sizeKindOf: the size family of a field, and whether it takes numeric bounds. */
  function SizeKindOf(kind: FieldKind): SizeKind
  {
    match kind
    case StringKind => SizeLength
    case BytesKind => SizeLength
    case ListKind => SizeItems
    case MapKind => SizeProps
    case _ => SizeNone
  }

  predicate IsNumeric(kind: FieldKind)
  {
    kind.NarrowKind? || kind.WideKind? || kind.FloatKind?
  }

  /** The type of the field's schema, and the names of an enum. */
  predicate TypeAllows(kind: FieldKind, j: Json)
  {
    match kind
    case StringKind => j.JsonText?
    case BytesKind => j.JsonText?
    case WideKind(_) => j.JsonText?
    case NarrowKind(_) => j.JsonNumber? && j.v == j.v.Floor as real
    case FloatKind => j.JsonNumber?
    case BoolKind => j.JsonFlag?
    case EnumKind(names) => j.JsonText? && j.s in names.Values
    case ListKind => j.JsonArray?
    case MapKind => j.JsonObject?
    case MessageKind => true
  }

  /** The type of a schema takes the JSON form of every value of the field, but for infinities and what is not a number,
    * and for enum numbers without a name. */
  lemma FormAllowedIff(kind: FieldKind, v: FieldValue)
    requires IsOf(kind, v)
    ensures TypeAllows(kind, JsonOf(kind, v)) <==>
              (kind.FloatKind? ==> v.f.Finite?) && (kind.EnumKind? ==> v.number in kind.names)
  {
    hide WholeText, Base64;
    if kind.EnumKind? && v.number in kind.names {
      assert kind.names[v.number] in kind.names.Values;
    }
  }

  /** The kinds whose values have a size have a size family, and of numbers all but enums take bounds. */
  lemma FamilyIs(kind: FieldKind, v: FieldValue)
    requires IsOf(kind, v)
    ensures SizeOf(v).Some? <==> SizeKindOf(kind) != SizeNone
    ensures !NumberOf(v).NoNumber? <==> IsNumeric(kind) || kind.EnumKind?
  {
  }

  predicate BaseAllows(kind: FieldKind, nullness: Nullness, j: Json)
  {
    TypeAllows(kind, j) || (!nullness.Never? && j.JsonNull?)
  }

  /** The schema of a field with some keywords accepts j. */
  ghost predicate Accepts(kind: FieldKind, nullness: Nullness, ws: seq<Keyword>, truth: string -> bool, m: Matcher,
                          j: Json)
  {
    || (nullness.Beside? && j.JsonNull?)
    || ((TypeAllows(kind, j) || (nullness.InType? && j.JsonNull?)) && AllValid(ws, truth, m, j))
  }

  predicate IsValue(kind: FieldKind, nullness: Nullness, v: FieldValue)
  {
    IsOf(kind, v) || (!nullness.Never? && v.NullField?)
  }

  /** What was accumulated keeps its meaning on v: with it the schema accepts v's JSON form exactly when it does
    * without, and v is null or meets it as the rules are read. */
  ghost predicate KeepsOn(kind: FieldKind, nullness: Nullness, k: State, truth: string -> bool, m: Matcher,
                          v: FieldValue)
  {
    Accepts(kind, nullness, Keywords(k), truth, m, JsonOf(kind, v))
    <==> BaseAllows(kind, nullness, JsonOf(kind, v)) && (v.NullField? || Satisfied(k, truth, Seen(v, m)))
  }

  ghost predicate KeepsAll(kind: FieldKind, nullness: Nullness, k: State, truth: string -> bool)
  {
    forall m, v :: IsValue(kind, nullness, v) ==> KeepsOn(kind, nullness, k, truth, m, v)
  }

  // ---- When a keyword keeps its meaning ----

  predicate SafePattern(kind: FieldKind, k: State)
  {
    k.pattern.Some? ==> kind.StringKind?
  }

  /** Base 64 takes four characters for three bytes. */
  predicate SafeSize(kind: FieldKind, k: State)
  {
    && (k.min.Some? ==> SizeKindOf(kind) != SizeNone && (kind.BytesKind? ==> k.min.value <= 1))
    && (k.max.Some? ==> SizeKindOf(kind) != SizeNone && (kind.BytesKind? ==> k.max.value <= 0))
  }

  /** Numbers that are strings in JSON meet every bound, so a bound is safe when all of the field's numbers meet it. */
  predicate SafeNumber(kind: FieldKind, k: State)
  {
    && (k.nMin.Some? ==> IsNumeric(kind) && (kind.WideKind? ==> IsAbove(Least(kind) as real, k.nMin.value)))
    && (k.nMax.Some? ==> IsNumeric(kind) && (kind.WideKind? ==> IsBelow(Greatest(kind) as real, k.nMax.value)))
  }

  predicate IsAbove(v: real, b: Bound)
  {
    if b.exclusive then b.v < v else b.v <= v
  }

  predicate IsBelow(v: real, b: Bound)
  {
    if b.exclusive then v < b.v else v <= b.v
  }

  /** A list admits null nowhere; it says the same of a number as of its text, and of an enum value as of its name. */
  ghost predicate SafeList(kind: FieldKind, nullness: Nullness, vs: seq<EnumValue>)
  {
    && !nullness.InType?
    && match kind
       case StringKind => true
       case NarrowKind(_) => true
       case FloatKind => true
       case WideKind(_) => forall n :: InRange(kind, n) ==> (WholeValue(n) in vs <==> TextValue(WholeText(n)) in vs)
       case EnumKind(names) =>
         forall n :: n in names && InRange(kind, n) ==> (WholeValue(n) in vs <==> TextValue(names[n]) in vs)
       case BytesKind => forall b :: TextValue(Base64(b)) !in vs
       case MessageKind => vs == []
       case _ => true
  }

  ghost predicate Safe(kind: FieldKind, nullness: Nullness, k: State)
  {
    && SafePattern(kind, k) && SafeSize(kind, k) && SafeNumber(kind, k)
    && (k.enum.Some? ==> SafeList(kind, nullness, k.enum.value))
  }

  /** Size bounds are those of the kind's family. */
  predicate Fits(kind: FieldKind, k: State)
  {
    k.min.Some? || k.max.Some? ==> k.sk == SizeKindOf(kind)
  }

  // ---- Clause by clause ----

  lemma PatternSame(kind: FieldKind, k: State, m: Matcher, v: FieldValue)
    requires IsOf(kind, v) && TypeAllows(kind, JsonOf(kind, v)) && SafePattern(kind, k)
    ensures (k.pattern.Some? && JsonOf(kind, v).JsonText? ==> m(k.pattern.value, JsonOf(kind, v).s))
       <==> (k.pattern.Some? ==> Seen(v, m).matches(k.pattern.value))
  {
  }

  ghost predicate MeetsSize(k: State, x: Subject)
  {
    (k.min.Some? ==> SizeHolds(">=", x, k.min.value)) && (k.max.Some? ==> SizeHolds("<=", x, k.max.value))
  }

  lemma SizeSame(kind: FieldKind, k: State, m: Matcher, v: FieldValue)
    requires IsOf(kind, v) && SafeSize(kind, k) && Fits(kind, k)
    ensures AllowsSize(k, JsonOf(kind, v)) <==> MeetsSize(k, Seen(v, m))
  {
    SizesAre(k, Seen(v, m));
    if v.BytesField? {
      Base64Length(v.b);
    }
    hide SizeHolds, Base64, Equals;
  }

  lemma SizesAre(k: State, x: Subject)
    ensures MeetsSize(k, x)
       <==> && (k.min.Some? ==> x.size.Some? && k.min.value <= x.size.value)
            && (k.max.Some? ==> x.size.Some? && x.size.value <= k.max.value)
  {
  }

  ghost predicate MeetsNumber(k: State, x: Subject)
  {
    && (k.nMin.Some? ==> NumberHolds(if k.nMin.value.exclusive then ">" else ">=", x, k.nMin.value.v))
    && (k.nMax.Some? ==> NumberHolds(if k.nMax.value.exclusive then "<" else "<=", x, k.nMax.value.v))
  }

  lemma NumberSame(kind: FieldKind, k: State, m: Matcher, v: FieldValue)
    requires IsOf(kind, v) && TypeAllows(kind, JsonOf(kind, v)) && SafeNumber(kind, k)
    ensures AllowsNumber(k, JsonOf(kind, v)) <==> MeetsNumber(k, Seen(v, m))
  {
    hide Equals, WholeText;
  }

  lemma ListSame(kind: FieldKind, vs: seq<EnumValue>, m: Matcher, v: FieldValue)
    requires IsOf(kind, v) && TypeAllows(kind, JsonOf(kind, v))
    requires SafeList(kind, Never, vs)
    ensures IsIn(vs, JsonOf(kind, v)) <==> IsOne(vs, Seen(v, m))
  {
    IsInIs(vs, JsonOf(kind, v));
    IsOneIs(vs, v, m);
    hide IsIn, IsOne, WholeText, Base64;
    if v.FloatField? {
      FloatIn(vs, v.f);
    }
  }

  /** Membership by what the JSON value is. */
  lemma IsInIs(vs: seq<EnumValue>, j: Json)
    ensures j.JsonText? ==> (IsIn(vs, j) <==> TextValue(j.s) in vs)
    ensures j.JsonNumber? ==> (IsIn(vs, j) <==> exists n :: WholeValue(n) in vs && j.v == n as real)
    ensures !j.JsonText? && !j.JsonNumber? ==> !IsIn(vs, j)
  {
    if j.JsonText? && TextValue(j.s) in vs {
      var i :| 0 <= i < |vs| && vs[i] == TextValue(j.s);
    }
    if n :| WholeValue(n) in vs && j == JsonNumber(n as real) {
      var i :| 0 <= i < |vs| && vs[i] == WholeValue(n);
    }
    if i :| 0 <= i < |vs| && j == Listed(vs[i]) {
      assert vs[i] in vs;
    }
  }

  /** Membership by what the value is. */
  lemma IsOneIs(vs: seq<EnumValue>, v: FieldValue, m: Matcher)
    ensures v.TextField? ==> (IsOne(vs, Seen(v, m)) <==> TextValue(v.s) in vs)
    ensures NumberOf(v).Finite? ==>
              (IsOne(vs, Seen(v, m)) <==> exists n :: WholeValue(n) in vs && NumberOf(v).v == n as real)
    ensures !v.TextField? && !NumberOf(v).Finite? ==> !IsOne(vs, Seen(v, m))
  {
    var x := Seen(v, m);
    if v.TextField? && TextValue(v.s) in vs {
      var i :| 0 <= i < |vs| && vs[i] == TextValue(v.s);
      assert x.isValue(vs[i]);
    }
    if n :| WholeValue(n) in vs && NumberOf(v) == Finite(n as real) {
      var i :| 0 <= i < |vs| && vs[i] == WholeValue(n);
      assert x.isValue(vs[i]);
    }
    if i :| 0 <= i < |vs| && x.isValue(vs[i]) {
      assert vs[i] in vs;
    }
  }

  lemma FloatIn(vs: seq<EnumValue>, f: Number)
    ensures JsonOfNumber(f).JsonNumber? <==> f.Finite?
  {
  }

  lemma MeetsParts(k: State, x: Subject)
    ensures Meets(k, x)
       <==> && (k.pattern.Some? ==> x.matches(k.pattern.value))
            && (k.enum.Some? ==> IsOne(k.enum.value, x))
            && MeetsSize(k, x) && MeetsNumber(k, x)
  {
    hide SizeHolds, NumberHolds, IsOne;
  }

  /** Keywords that are safe for the kind keep their meaning on every value of the field, and so do rules carried
    * through. */
  lemma SafeKeeps(kind: FieldKind, nullness: Nullness, k: State, truth: string -> bool, m: Matcher, v: FieldValue)
    requires IsValue(kind, nullness, v) && Safe(kind, nullness, k) && Fits(kind, k)
    ensures KeepsOn(kind, nullness, k, truth, m, v)
  {
    var j := JsonOf(kind, v);
    KeywordsMean(k, truth, m, j);
    hide AllValid, Keywords, MeetsSize, MeetsNumber, AllowsSize, AllowsNumber, Fits, Seen, SafeSize, SafeNumber;
    if v.NullField? {
      NullAllowed(k, truth, m);
      NotNull(kind, v);
    } else if TypeAllows(kind, j) {
      PatternSame(kind, k, m, v);
      SizeSame(kind, k, m, v);
      NumberSame(kind, k, m, v);
      if k.enum.Some? {
        hide IsIn, IsOne;
        ListSame(kind, k.enum.value, m, v);
      }
      MeetsParts(k, Seen(v, m));
      NotNull(kind, v);
    } else {
      NotNull(kind, v);
    }
  }

  lemma NotNull(kind: FieldKind, v: FieldValue)
    ensures v.NullField? ==> JsonOf(kind, v).JsonNull? && !IsOf(kind, v)
    ensures IsOf(kind, v) ==> !v.NullField? && !JsonOf(kind, v).JsonNull?
  {
  }

  lemma NullAllowed(k: State, truth: string -> bool, m: Matcher)
    ensures k.enum.None? ==> Allows(k, truth, m, JsonNull)
  {
  }

  // ---- One keyword at a time ----

  ghost predicate SomeName(kind: FieldKind)
  {
    kind.EnumKind? ==> exists n :: n in kind.names && InRange(kind, n)
  }

  /** A value of the kind whose JSON form the type allows. */
  lemma SomeValue(kind: FieldKind) returns (v: FieldValue)
    requires SomeName(kind)
    ensures IsOf(kind, v) && TypeAllows(kind, JsonOf(kind, v))
  {
    match kind
    case StringKind => v := TextField("");
    case BytesKind => v := BytesField([]);
    case NarrowKind(_) => v := WholeField(0);
    case WideKind(_) => v := WholeField(0);
    case FloatKind => v := FloatField(Finite(0.0));
    case BoolKind => v := FlagField(true);
    case EnumKind(names) =>
      var n :| n in names && InRange(kind, n);
      v := EnumField(n);
    case ListKind => v := ListField([]);
    case MapKind => v := MapField(map[]);
    case MessageKind => v := MessageField(JsonObject(map[]));
  }

  /** One value on which what was accumulated fails. */
  lemma FailsOn(kind: FieldKind, nullness: Nullness, k: State, truth: string -> bool, m: Matcher, v: FieldValue)
    requires IsOf(kind, v) && TypeAllows(kind, JsonOf(kind, v))
    requires Allows(k, truth, m, JsonOf(kind, v)) != Satisfied(k, truth, Seen(v, m))
    ensures !KeepsAll(kind, nullness, k, truth)
  {
    KeywordsMean(k, truth, m, JsonOf(kind, v));
    NotNull(kind, v);
    hide Allows, Satisfied, AllValid, Keywords, Seen, TypeAllows;
    assert !KeepsOn(kind, nullness, k, truth, m, v);
  }

  lemma SafeKeepsAll(kind: FieldKind, nullness: Nullness, k: State, truth: string -> bool)
    requires Safe(kind, nullness, k) && Fits(kind, k)
    ensures KeepsAll(kind, nullness, k, truth)
  {
    hide Safe, Fits, KeepsOn, IsValue;
    forall m, v | IsValue(kind, nullness, v)
      ensures KeepsOn(kind, nullness, k, truth, m, v)
    {
      SafeKeeps(kind, nullness, k, truth, m, v);
    }
  }

  /** A pattern keeps its meaning for every value exactly on strings: elsewhere the rule fails, and the keyword lets
    * pass what is no JSON string, or looks at the text of a number or of bytes. */
  lemma PatternKeepsIff(kind: FieldKind, nullness: Nullness, p: string, truth: string -> bool)
    requires SomeName(kind)
    ensures KeepsAll(kind, nullness, EMPTY.(pattern := Some(p)), truth) <==> kind.StringKind?
  {
    var k := EMPTY.(pattern := Some(p));
    if kind.StringKind? {
      SafeKeepsAll(kind, nullness, k, truth);
    } else {
      var v := SomeValue(kind);
      var m: Matcher := (q, s) => true;
      assert Allows(k, truth, m, JsonOf(kind, v)) && !Seen(v, m).matches(p);
      FailsOn(kind, nullness, k, truth, m, v);
    }
  }

  function Zeros(n: nat): (b: seq<Byte>)
    ensures |b| == n
  {
    seq(n, _ => 0)
  }

  /** A least size keeps its meaning for every value exactly when the field is not bytes, or the size is at most 1. */
  lemma MinKeepsIff(kind: FieldKind, nullness: Nullness, n: int, truth: string -> bool)
    requires SizeKindOf(kind) != SizeNone
    ensures KeepsAll(kind, nullness, EMPTY.(min := Some(n), sk := SizeKindOf(kind)), truth)
       <==> (kind.BytesKind? ==> n <= 1)
  {
    var k := EMPTY.(min := Some(n), sk := SizeKindOf(kind));
    if kind.BytesKind? && n > 1 {
      var v := BytesField(Zeros(n - 1));
      BytesFail(k, truth, v);
      FailsOn(kind, nullness, k, truth, AnyMatch(), v);
    } else {
      SafeKeepsAll(kind, nullness, k, truth);
    }
  }

  /** A greatest size keeps its meaning for every value exactly when the field is not bytes, or the size is
    * at most 0. */
  lemma MaxKeepsIff(kind: FieldKind, nullness: Nullness, n: int, truth: string -> bool)
    requires SizeKindOf(kind) != SizeNone
    ensures KeepsAll(kind, nullness, EMPTY.(max := Some(n), sk := SizeKindOf(kind)), truth)
       <==> (kind.BytesKind? ==> n <= 0)
  {
    var k := EMPTY.(max := Some(n), sk := SizeKindOf(kind));
    if kind.BytesKind? && n > 0 {
      var v := BytesField(Zeros(n));
      BytesFail(k, truth, v);
      FailsOn(kind, nullness, k, truth, AnyMatch(), v);
    } else {
      SafeKeepsAll(kind, nullness, k, truth);
    }
  }

  function AnyMatch(): Matcher
  {
    (p, s) => true
  }

  /** Bytes of one less than the least size, or of the greatest size: the base 64 text is longer. */
  lemma BytesFail(k: State, truth: string -> bool, v: FieldValue)
    requires k == EMPTY.(min := k.min, max := k.max) && v.BytesField?
    requires (k.min.Some? && k.max.None? && k.min.value > 1 && |v.b| == k.min.value - 1)
          || (k.max.Some? && k.min.None? && k.max.value > 0 && |v.b| == k.max.value)
    ensures Allows(k, truth, AnyMatch(), JsonOf(BytesKind, v)) != Satisfied(k, truth, Seen(v, AnyMatch()))
  {
    Base64Length(v.b);
    SizesAre(k, Seen(v, AnyMatch()));
    MeetsParts(k, Seen(v, AnyMatch()));
    hide Base64, Meets, SizeHolds, NumberHolds, IsIn, IsOne;
  }

  /** A lower bound keeps its meaning for every value exactly when the field's numbers are numbers in JSON, or all of
    * them meet the bound. */
  lemma LowKeepsIff(kind: FieldKind, nullness: Nullness, b: Bound, truth: string -> bool)
    requires IsNumeric(kind)
    ensures KeepsAll(kind, nullness, EMPTY.(nMin := Some(b)), truth)
       <==> (kind.WideKind? ==> IsAbove(Least(kind) as real, b))
  {
    var k := EMPTY.(nMin := Some(b));
    if kind.WideKind? && !IsAbove(Least(kind) as real, b) {
      var v := WholeField(Least(kind));
      WideFail(kind, k, truth, v);
      FailsOn(kind, nullness, k, truth, AnyMatch(), v);
    } else {
      SafeKeepsAll(kind, nullness, k, truth);
    }
  }

  lemma HighKeepsIff(kind: FieldKind, nullness: Nullness, b: Bound, truth: string -> bool)
    requires IsNumeric(kind)
    ensures KeepsAll(kind, nullness, EMPTY.(nMax := Some(b)), truth)
       <==> (kind.WideKind? ==> IsBelow(Greatest(kind) as real, b))
  {
    var k := EMPTY.(nMax := Some(b));
    if kind.WideKind? && !IsBelow(Greatest(kind) as real, b) {
      var v := WholeField(Greatest(kind));
      WideFail(kind, k, truth, v);
      FailsOn(kind, nullness, k, truth, AnyMatch(), v);
    } else {
      SafeKeepsAll(kind, nullness, k, truth);
    }
  }

  /** A 64-bit number outside the bounds is a string in JSON, which they let pass. */
  lemma WideFail(kind: FieldKind, k: State, truth: string -> bool, v: FieldValue)
    requires kind.WideKind? && k == EMPTY.(nMin := k.nMin, nMax := k.nMax) && v.WholeField?
    requires (k.nMin.Some? && !IsAbove(v.n as real, k.nMin.value))
               || (k.nMax.Some? && !IsBelow(v.n as real, k.nMax.value))
    ensures Allows(k, truth, AnyMatch(), JsonOf(kind, v)) && !Satisfied(k, truth, Seen(v, AnyMatch()))
  {
    MeetsParts(k, Seen(v, AnyMatch()));
    hide Meets, WholeText, IsIn, IsOne;
  }

  /** A list keeps its meaning for every value exactly when it is safe. */
  lemma ListKeepsAllIff(kind: FieldKind, nullness: Nullness, vs: seq<EnumValue>, truth: string -> bool)
    ensures KeepsAll(kind, nullness, EMPTY.(enum := Some(vs)), truth) <==> SafeList(kind, nullness, vs)
  {
    var k := EMPTY.(enum := Some(vs));
    if SafeList(kind, nullness, vs) {
      SafeKeepsAll(kind, nullness, k, truth);
    } else if nullness.InType? {
      NullFails(kind, vs, truth);
    } else {
      var v := ListFails(kind, nullness, vs);
      OnlyList(k, truth, AnyMatch(), JsonOf(kind, v), Seen(v, AnyMatch()));
      FailsOn(kind, nullness, k, truth, AnyMatch(), v);
    }
  }

  lemma OnlyList(k: State, truth: string -> bool, m: Matcher, j: Json, x: Subject)
    requires k == EMPTY.(enum := k.enum) && k.enum.Some?
    ensures Allows(k, truth, m, j) <==> IsIn(k.enum.value, j)
    ensures Satisfied(k, truth, x) <==> IsOne(k.enum.value, x)
  {
    hide IsIn, IsOne;
  }

  /** Null in the list of types is refused by the list of values. */
  lemma NullFails(kind: FieldKind, vs: seq<EnumValue>, truth: string -> bool)
    ensures !KeepsAll(kind, InType, EMPTY.(enum := Some(vs)), truth)
  {
    var k := EMPTY.(enum := Some(vs));
    KeywordsMean(k, truth, AnyMatch(), JsonNull);
    assert !Allows(k, truth, AnyMatch(), JsonNull);
    hide Allows, AllValid, Keywords, Satisfied;
    assert TypeAllows(kind, JsonNull) ==> kind.MessageKind?;
    assert !KeepsOn(kind, InType, k, truth, AnyMatch(), NullField);
  }

  /** Where a list is not safe, a value that one side takes and the other does not. */
  lemma ListFails(kind: FieldKind, nullness: Nullness, vs: seq<EnumValue>) returns (v: FieldValue)
    requires !SafeList(kind, nullness, vs) && !nullness.InType?
    ensures IsOf(kind, v) && TypeAllows(kind, JsonOf(kind, v))
    ensures IsIn(vs, JsonOf(kind, v)) != IsOne(vs, Seen(v, AnyMatch()))
  {
    hide IsIn, IsOne, Base64, WholeText;
    if kind.WideKind? {
      var n :| InRange(kind, n) && !(WholeValue(n) in vs <==> TextValue(WholeText(n)) in vs);
      v := WholeField(n);
    } else if kind.EnumKind? {
      var n :| n in kind.names && InRange(kind, n) && !(WholeValue(n) in vs <==> TextValue(kind.names[n]) in vs);
      v := EnumField(n);
    } else if kind.BytesKind? {
      var b :| TextValue(Base64(b)) in vs;
      v := BytesField(b);
    } else if kind.MessageKind? {
      assert vs[0] in vs;
      v := MessageField(Listed(vs[0]));
    }
    IsInIs(vs, JsonOf(kind, v));
    IsOneIs(vs, v, AnyMatch());
  }

  // ---- Rules ----

  /** What rules accumulate for a field. */
  function Accumulated(kind: FieldKind, rs: seq<Rule>, pf: FloatParser): State
  {
    MapRules(rs, SizeKindOf(kind), IsNumeric(kind), pf)
  }

  lemma ConjunctFits(kind: FieldKind, k: State, s: string, pf: FloatParser)
    requires Fits(kind, k)
    ensures Fits(kind, MapConjunct(k, s, SizeKindOf(kind), IsNumeric(kind), pf).0)
  {
    hide RawArgs, Compared, Trim, Unquote, ListElements, Elements;
  }

  lemma {:induction false} ConjunctsFit(kind: FieldKind, k: State, parts: seq<string>, pf: FloatParser)
    requires Fits(kind, k)
    ensures Fits(kind, MapConjuncts(k, parts, SizeKindOf(kind), IsNumeric(kind), pf).0)
  {
    hide MapConjunct, Trim, Fits;
    if parts != [] {
      ConjunctsFit(kind, k, parts[..|parts| - 1], pf);
      var r := MapConjuncts(k, parts[..|parts| - 1], SizeKindOf(kind), IsNumeric(kind), pf);
      ConjunctFits(kind, r.0, Trim(parts[|parts| - 1]), pf);
    }
  }

  lemma {:induction false} RulesFit(kind: FieldKind, rs: seq<Rule>, pf: FloatParser)
    ensures Fits(kind, Accumulated(kind, rs, pf))
  {
    hide MapConjuncts, Trim, SplitTop;
    if rs != [] {
      RulesFit(kind, rs[..|rs| - 1], pf);
      ConjunctsFit(kind, Accumulated(kind, rs[..|rs| - 1], pf), SplitTop(Trim(rs[|rs| - 1].source), "&&"), pf);
    }
  }

  /** The schema of a field with conjunctive rules accepts the JSON form of a value exactly when the value has a form
    * at all and is null or satisfies every rule, whenever what the rules accumulate is safe for the kind of field. */
  lemma SchemaMeansRules(kind: FieldKind, nullness: Nullness, rs: seq<Rule>, parts: seq<seq<string>>, pf: FloatParser,
                         truth: string -> bool, m: Matcher, v: FieldValue)
    requires IsValue(kind, nullness, v) && Faithful(truth, Seen(v, m), IsNumeric(kind), pf) && |parts| == |rs|
    requires forall i :: 0 <= i < |rs| ==> Conjunction(truth, rs[i], parts[i])
    requires Safe(kind, nullness, Accumulated(kind, rs, pf))
    ensures Accepts(kind, nullness, Keywords(Accumulated(kind, rs, pf)), truth, m, JsonOf(kind, v))
       <==> && BaseAllows(kind, nullness, JsonOf(kind, v))
            && (v.NullField? || forall i :: 0 <= i < |rs| ==> truth(rs[i].source))
  {
    hide Faithful, Conjunction, Satisfied, Accepts, BaseAllows, Keywords, MapRules, Safe, Fits, IsValue, Seen;
    RulesFit(kind, rs, pf);
    RulesKeep(rs, parts, SizeKindOf(kind), IsNumeric(kind), pf, truth, Seen(v, m));
    SafeKeeps(kind, nullness, Accumulated(kind, rs, pf), truth, m, v);
  }
}
