/** The accumulator that folds validation rules into keywords, and the keywords it
    writes. */
module RuleConstraints {
  import opened Options
  import opened GoText
  import opened RuleText
  import opened RuleMapper
  import opened JsonValues

  class Constraints {
    var pattern: string
    var hasPat: bool
    var min: Option<int>
    var max: Option<int>
    var sk: SizeKind
    var nMin: Option<real>
    var nMax: Option<real>
    var exclMin: bool
    var exclMax: bool
    var enum: Option<seq<EnumValue>>
    var unmapped: seq<Leftover>

    /** What has been accumulated. */
    ghost function View(): State
      reads this
    {
      State(
        if hasPat then Some(pattern) else None,
        min, max, sk,
        if nMin.Some? then Some(Bound(nMin.value, exclMin)) else None,
        if nMax.Some? then Some(Bound(nMax.value, exclMax)) else None,
        enum, unmapped)
    }

    constructor ()
      ensures View() == EMPTY
    {
      pattern, hasPat, min, max, sk := "", false, None, None, SizeLength;
      nMin, nMax, exclMin, exclMax, enum, unmapped := None, None, false, false, None, [];
    }

    method SetMin(n: int) returns (ok: bool)
      modifies this
      ensures (View(), ok) == RuleMapper.SetMin(old(View()), n)
    {
      if min.Some? {
        return false;
      }
      min := Some(n);
      return true;
    }

    method SetMax(n: int) returns (ok: bool)
      modifies this
      ensures (View(), ok) == RuleMapper.SetMax(old(View()), n)
    {
      if max.Some? {
        return false;
      }
      max := Some(n);
      return true;
    }

    method MapSize(op: string, n: int, kind: SizeKind) returns (ok: bool)
      modifies this
      ensures (View(), ok) == RuleMapper.MapSize(old(View()), op, n, kind)
    {
      sk := kind;
      if op == "<=" {
        ok := SetMax(n);
      } else if op == "<" {
        ok := SetMax(Wrap(n - 1));
      } else if op == ">=" {
        ok := SetMin(n);
      } else if op == ">" {
        ok := SetMin(Wrap(n + 1));
      } else if op == "==" {
        ok := SetMin(n);
        if ok {
          ok := SetMax(n);
        }
      } else {
        ok := false;
      }
    }

    method MapNumeric(op: string, v: real) returns (ok: bool)
      modifies this
      ensures (View(), ok) == RuleMapper.MapNumeric(old(View()), op, v)
    {
      if op == "<=" || op == "<" {
        if nMax.Some? {
          return false;
        }
        nMax, exclMax := Some(v), op == "<";
        return true;
      }
      if op == ">=" || op == ">" {
        if nMin.Some? {
          return false;
        }
        nMin, exclMin := Some(v), op == ">";
        return true;
      }
      return false;
    }

    method MapEnum(list: string) returns (ok: bool)
      modifies this
      ensures (View(), ok) == RuleMapper.MapEnum(old(View()), list)
    {
      hide Element;
      if |list| < 2 || list[0] != '[' || list[|list| - 1] != ']' {
        return false;
      }
      var els := SplitTopLevel(list[1..|list| - 1], ",");
      var vals: seq<EnumValue> := [];
      for i := 0 to |els|
        invariant Elements(els[..i]) == Some(vals)
      {
        assert els[..i + 1][..i] == els[..i];
        var v := Element(els[i]);
        if v.None? {
          ElementsFail(els, i + 1);
          return false;
        }
        vals := vals + [v.value];
      }
      assert els[..|els|] == els;
      if vals == [] || enum.Some? {
        return false;
      }
      enum := Some(vals);
      return true;
    }

    /** Attempts one conjunct. */
    method MapConjunct(s: string, kind: SizeKind, numeric: bool, pf: FloatParser) returns (ok: bool)
      modifies this
      ensures (View(), ok) == RuleMapper.MapConjunct(old(View()), s, kind, numeric, pf)
    {
      hide RawArgs, Compared, Trim, Unquote, RuleMapper.MapEnum, RuleMapper.MapSize, RuleMapper.MapNumeric;
      var args := CallArgs(s, "matches");
      if args.Some? && |args.value| == 2 && args.value[0] == "this" {
        var re := Unquote(args.value[1]);
        if re.Some? && !hasPat {
          pattern, hasPat := re.value, true;
          return true;
        }
        return false;
      }
      if HasPrefix(s, "this in ") {
        ok := MapEnum(Trim(s[8..]));
        return;
      }
      var c := SplitComparison(s);
      if c.None? {
        return false;
      }
      var lhs, op, rhs := c.value.lhs, c.value.op, c.value.rhs;
      if IsSize(lhs) {
        if kind == SizeNone || ParseInt64(rhs).None? {
          return false;
        }
        ok := MapSize(op, ParseInt64(rhs).value, kind);
      } else if lhs == "this" {
        if !numeric || pf(rhs).None? {
          return false;
        }
        ok := MapNumeric(op, pf(rhs).value);
      } else {
        return false;
      }
    }

    /** Folds one rule in. */
    method MapValidate(r: Rule, kind: SizeKind, numeric: bool, pf: FloatParser)
      modifies this
      ensures View() == MapRule(old(View()), r, kind, numeric, pf)
    {
      hide Trim, RuleMapper.MapConjunct;
      var parts := SplitTopLevel(Trim(r.source), "&&");
      var leftover: seq<string> := [];
      for i := 0 to |parts|
        invariant (View(), leftover) == MapConjuncts(old(View()), parts[..i], kind, numeric, pf)
      {
        assert parts[..i + 1][..i] == parts[..i];
        var conj := Trim(parts[i]);
        if conj == "" {
          leftover := leftover + [conj];
        } else {
          var ok := MapConjunct(conj, kind, numeric, pf);
          if !ok {
            leftover := leftover + [conj];
          }
        }
      }
      assert parts[..|parts|] == parts;
      unmapped := unmapped + Leftovers(leftover, r);
    }

    /** Writes the keywords, in a fixed order. */
    method Apply() returns (schema: seq<Keyword>)
      ensures schema == Keywords(View())
    {
      hide When, MinKey, MaxKey, LowKey, HighKey;
      schema := ApplyShape();
      var numbers := ApplyNumbers();
      schema := schema + numbers;
      schema := AddIf(schema, unmapped != [], Keyword(XValidation, Validations(unmapped)));
    }

    method ApplyShape() returns (schema: seq<Keyword>)
      ensures schema == ShapeWords(View())
    {
      hide When, MinKey, MaxKey;
      ghost var k := View();
      WhenOff(hasPat, Keyword(Pattern, Text(pattern)), Keyword(Pattern, Text(GetOr(k.pattern, ""))));
      schema := AddIf([], hasPat, Keyword(Pattern, Text(pattern)));
      schema := AddIf(schema, enum.Some?, Keyword(Enum, Values(GetOr(enum, []))));
      schema := AddIf(schema, min.Some?, Keyword(MinKey(sk), Whole(GetOr(min, 0))));
      schema := AddIf(schema, max.Some?, Keyword(MaxKey(sk), Whole(GetOr(max, 0))));
    }

    method ApplyNumbers() returns (schema: seq<Keyword>)
      ensures schema == NumberWords(View())
    {
      hide When, LowKey, HighKey;
      ghost var k := View();
      WhenOff(nMin.Some?, Keyword(LowKey(exclMin), Number(GetOr(nMin, 0.0))), Low(k));
      WhenOff(nMax.Some?, Keyword(HighKey(exclMax), Number(GetOr(nMax, 0.0))), High(k));
      schema := AddIf([], nMin.Some?, Keyword(LowKey(exclMin), Number(GetOr(nMin, 0.0))));
      schema := AddIf(schema, nMax.Some?, Keyword(HighKey(exclMax), Number(GetOr(nMax, 0.0))));
    }
  }

  lemma WhenOff(c: bool, v: Keyword, w: Keyword)
    requires c ==> v == w
    ensures When(c, v) == When(c, w)
  {
  }

  method AddIf(schema: seq<Keyword>, c: bool, w: Keyword) returns (out: seq<Keyword>)
    ensures out == schema + When(c, w)
  {
    out := schema;
    if c {
      out := out + [w];
    }
  }

  lemma {:induction false} ElementsFail(els: seq<string>, i: nat)
    requires i <= |els| && Elements(els[..i]).None?
    ensures Elements(els).None?
    decreases |els| - i
  {
    hide Element;
    if i < |els| {
      assert els[..i + 1][..i] == els[..i];
      ElementsFail(els, i + 1);
    } else {
      assert els[..i] == els;
    }
  }

  // ---- Keywords ------------------------------------------------------------

  datatype KeywordValue =
    | Text(text: string)
    | Values(values: seq<EnumValue>)
    | Whole(n: int)
    | Number(v: real)
    | Validations(rules: seq<Leftover>)

  /** The keyword names; XValidation is x-validation. */
  datatype Key =
    | Pattern | Enum | MinLength | MaxLength | MinItems | MaxItems | MinProperties | MaxProperties
    | Minimum | Maximum | ExclusiveMinimum | ExclusiveMaximum | XValidation

  datatype Keyword = Keyword(key: Key, value: KeywordValue)

  function MinKey(sk: SizeKind): Key
  {
    match sk
    case SizeItems => MinItems
    case SizeProps => MinProperties
    case _ => MinLength
  }

  function MaxKey(sk: SizeKind): Key
  {
    match sk
    case SizeItems => MaxItems
    case SizeProps => MaxProperties
    case _ => MaxLength
  }

  function When(c: bool, k: Keyword): seq<Keyword>
  {
    if c then [k] else []
  }

  function LowKey(exclusive: bool): Key
  {
    if exclusive then ExclusiveMinimum else Minimum
  }

  function HighKey(exclusive: bool): Key
  {
    if exclusive then ExclusiveMaximum else Maximum
  }

  function GetOr<T>(o: Option<T>, default: T): T
  {
    match o case None => default case Some(v) => v
  }

  function Low(k: State): Keyword
  {
    match k.nMin
    case None => Keyword(LowKey(false), Number(0.0))
    case Some(b) => Keyword(LowKey(b.exclusive), Number(b.v))
  }

  function High(k: State): Keyword
  {
    match k.nMax
    case None => Keyword(HighKey(false), Number(0.0))
    case Some(b) => Keyword(HighKey(b.exclusive), Number(b.v))
  }

  function ShapeWords(k: State): seq<Keyword>
  {
    When(k.pattern.Some?, Keyword(Pattern, Text(GetOr(k.pattern, ""))))
    + When(k.enum.Some?, Keyword(Enum, Values(GetOr(k.enum, []))))
    + When(k.min.Some?, Keyword(MinKey(k.sk), Whole(GetOr(k.min, 0))))
    + When(k.max.Some?, Keyword(MaxKey(k.sk), Whole(GetOr(k.max, 0))))
  }

  function NumberWords(k: State): seq<Keyword>
  {
    When(k.nMin.Some?, Low(k)) + When(k.nMax.Some?, High(k))
  }

  /** The keywords accumulated, in their fixed order. */
  function Keywords(k: State): seq<Keyword>
  {
    ShapeWords(k) + NumberWords(k) + When(k.unmapped != [], Keyword(XValidation, Validations(k.unmapped)))
  }

  /** The JSON value is one of the listed ones. */
  ghost predicate IsIn(vs: seq<EnumValue>, j: Json)
  {
    exists i :: 0 <= i < |vs| && j == Listed(vs[i])
  }

  /** What a keyword asks of a JSON value: those for one type of JSON let every other type pass. The annotation
    * x-validation asks for its rules, which are not run on null. */
  ghost predicate Valid(w: Keyword, truth: string -> bool, m: Matcher, j: Json)
  {
    match w.value
    case Text(re) => w.key == Pattern && j.JsonText? ==> m(re, j.s)
    case Values(vs) => w.key == Enum ==> IsIn(vs, j)
    case Whole(n) =>
      && (w.key == MinLength && j.JsonText? ==> n <= |j.s|)
      && (w.key == MaxLength && j.JsonText? ==> |j.s| <= n)
      && (w.key == MinItems && j.JsonArray? ==> n <= |j.items|)
      && (w.key == MaxItems && j.JsonArray? ==> |j.items| <= n)
      && (w.key == MinProperties && j.JsonObject? ==> n <= |j.members|)
      && (w.key == MaxProperties && j.JsonObject? ==> |j.members| <= n)
    case Number(v) =>
      && (w.key == Minimum && j.JsonNumber? ==> v <= j.v)
      && (w.key == ExclusiveMinimum && j.JsonNumber? ==> v < j.v)
      && (w.key == Maximum && j.JsonNumber? ==> j.v <= v)
      && (w.key == ExclusiveMaximum && j.JsonNumber? ==> j.v < v)
    case Validations(rs) => j.JsonNull? || forall i :: 0 <= i < |rs| ==> truth(rs[i].rule)
  }

  ghost predicate AllValid(ws: seq<Keyword>, truth: string -> bool, m: Matcher, j: Json)
  {
    forall w :: w in ws ==> Valid(w, truth, m, j)
  }

  /** The size of a JSON value by the kind of the bound. */
  function JsonSize(sk: SizeKind, j: Json): Option<int>
  {
    match sk
    case SizeItems => if j.JsonArray? then Some(|j.items|) else None
    case SizeProps => if j.JsonObject? then Some(|j.members|) else None
    case _ => if j.JsonText? then Some(|j.s|) else None
  }

  ghost predicate AllowsSize(k: State, j: Json)
  {
    && (k.min.Some? && JsonSize(k.sk, j).Some? ==> k.min.value <= JsonSize(k.sk, j).value)
    && (k.max.Some? && JsonSize(k.sk, j).Some? ==> JsonSize(k.sk, j).value <= k.max.value)
  }

  ghost predicate AllowsNumber(k: State, j: Json)
  {
    && (k.nMin.Some? && j.JsonNumber? ==> if k.nMin.value.exclusive then k.nMin.value.v < j.v
         else k.nMin.value.v <= j.v)
    && (k.nMax.Some? && j.JsonNumber? ==> if k.nMax.value.exclusive then j.v < k.nMax.value.v
         else j.v <= k.nMax.value.v)
  }

  /** What has been accumulated allows a JSON value. */
  ghost predicate Allows(k: State, truth: string -> bool, m: Matcher, j: Json)
  {
    && (k.pattern.Some? && j.JsonText? ==> m(k.pattern.value, j.s))
    && (k.enum.Some? ==> IsIn(k.enum.value, j))
    && AllowsSize(k, j) && AllowsNumber(k, j)
    && (j.JsonNull? || forall i :: 0 <= i < |k.unmapped| ==> truth(k.unmapped[i].rule))
  }

  lemma AllValidAdd(a: seq<Keyword>, c: bool, w: Keyword, truth: string -> bool, m: Matcher, j: Json)
    ensures AllValid(a + When(c, w), truth, m, j) <==> AllValid(a, truth, m, j) && (c ==> Valid(w, truth, m, j))
  {
    hide Valid;
    assert forall v :: v in a + When(c, w) <==> v in a || (c && v == w);
  }

  /** The written keywords accept exactly the JSON values that what has been accumulated allows. */
  lemma KeywordsMean(k: State, truth: string -> bool, m: Matcher, j: Json)
    ensures AllValid(Keywords(k), truth, m, j) <==> Allows(k, truth, m, j)
  {
    var p, e := Keyword(Pattern, Text(GetOr(k.pattern, ""))), Keyword(Enum, Values(GetOr(k.enum, [])));
    var x, n := Keyword(MinKey(k.sk), Whole(GetOr(k.min, 0))), Keyword(MaxKey(k.sk), Whole(GetOr(k.max, 0)));
    var v := Keyword(XValidation, Validations(k.unmapped));
    WordsMean(k, truth, m, j);
    hide Valid, Allows, Low, High, When, AllValid;
    var a := When(k.pattern.Some?, p);
    var b := a + When(k.enum.Some?, e);
    var c := b + When(k.min.Some?, x);
    AllValidFirst(k.pattern.Some?, p, truth, m, j);
    AllValidAdd(a, k.enum.Some?, e, truth, m, j);
    AllValidAdd(b, k.min.Some?, x, truth, m, j);
    AllValidAdd(c, k.max.Some?, n, truth, m, j);
    AllValidFirst(k.nMin.Some?, Low(k), truth, m, j);
    AllValidAdd(When(k.nMin.Some?, Low(k)), k.nMax.Some?, High(k), truth, m, j);
    AllValidJoin(ShapeWords(k), NumberWords(k), truth, m, j);
    AllValidAdd(ShapeWords(k) + NumberWords(k), k.unmapped != [], v, truth, m, j);
  }

  lemma AllValidJoin(a: seq<Keyword>, b: seq<Keyword>, truth: string -> bool, m: Matcher, j: Json)
    ensures AllValid(a + b, truth, m, j) <==> AllValid(a, truth, m, j) && AllValid(b, truth, m, j)
  {
    hide Valid;
    assert forall w :: w in a + b <==> w in a || w in b;
  }

  lemma AllValidFirst(c: bool, w: Keyword, truth: string -> bool, m: Matcher, j: Json)
    ensures AllValid(When(c, w), truth, m, j) <==> (c ==> Valid(w, truth, m, j))
  {
    hide Valid;
  }

  lemma WordsMean(k: State, truth: string -> bool, m: Matcher, j: Json)
    ensures Allows(k, truth, m, j)
       <==> && (k.pattern.Some? ==> Valid(Keyword(Pattern, Text(GetOr(k.pattern, ""))), truth, m, j))
            && (k.enum.Some? ==> Valid(Keyword(Enum, Values(GetOr(k.enum, []))), truth, m, j))
            && (k.min.Some? ==> Valid(Keyword(MinKey(k.sk), Whole(GetOr(k.min, 0))), truth, m, j))
            && (k.max.Some? ==> Valid(Keyword(MaxKey(k.sk), Whole(GetOr(k.max, 0))), truth, m, j))
            && (k.nMin.Some? ==> Valid(Low(k), truth, m, j))
            && (k.nMax.Some? ==> Valid(High(k), truth, m, j))
            && (k.unmapped != [] ==> Valid(Keyword(XValidation, Validations(k.unmapped)), truth, m, j))
  {
    hide IsIn;
  }

  /** Translates a list of rules. */
  method Translate(rs: seq<Rule>, sk: SizeKind, numeric: bool, pf: FloatParser) returns (schema: seq<Keyword>)
    ensures schema == Keywords(MapRules(rs, sk, numeric, pf))
  {
    hide MapRule;
    var c := new Constraints();
    for i := 0 to |rs|
      invariant fresh(c) && c.View() == MapRules(rs[..i], sk, numeric, pf)
    {
      assert rs[..i + 1][..i] == rs[..i];
      c.MapValidate(rs[i], sk, numeric, pf);
    }
    assert rs[..|rs|] == rs;
    schema := c.Apply();
  }
}
