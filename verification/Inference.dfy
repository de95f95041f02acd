/** Inferring a field type for every column of a dataset: when inference succeeds,
    and that the type it gives is the least one that binds every cell. */
module Inference {
  import opened Options

  /** What a cell holds. Empty is an absent value; the last three kinds have no
      scalar type. */
  datatype Cell =
    | Empty | Null
    | BoolCell | IntCell | FloatCell | StringCell | BytesCell | TimestampCell | DurationCell
    | ListCell | BlockCell | IdentCell

  datatype Type = Bool | Int | Float | Str | Bytes | Timestamp | Duration

  datatype Dataset = Dataset(columns: seq<string>, rows: seq<seq<Cell>>)

  datatype Column = Column(name: string, typ: Type, nullable: bool, holdsNull: bool, firstSeenAt: nat)

  function Classify(c: Cell): Option<Type>
  {
    match c
    case BoolCell => Some(Bool)
    case IntCell => Some(Int)
    case FloatCell => Some(Float)
    case StringCell => Some(Str)
    case BytesCell => Some(Bytes)
    case TimestampCell => Some(Timestamp)
    case DurationCell => Some(Duration)
    case _ => None
  }

  /** The cells that have a type, and their types. */
  const CELLS := [BoolCell, IntCell, FloatCell, StringCell, BytesCell, TimestampCell, DurationCell]
  const TYPES := [Bool, Int, Float, Str, Bytes, Timestamp, Duration]

  /** Each kind of scalar has its own type, and nothing else has one. */
  lemma ClassifyIs(c: Cell, t: Type)
    ensures Classify(c) == Some(t) <==> exists i :: 0 <= i < |CELLS| && CELLS[i] == c && TYPES[i] == t
  {
    assert CELLS[0] == BoolCell && CELLS[1] == IntCell && CELLS[2] == FloatCell && CELLS[3] == StringCell;
    assert CELLS[4] == BytesCell && CELLS[5] == TimestampCell && CELLS[6] == DurationCell;
  }

  /** The type that holds both, when there is one. */
  function Widen(a: Type, b: Type): Option<Type>
  {
    if a == b then Some(a)
    else if (a == Int && b == Float) || (a == Float && b == Int) then Some(Float)
    else None
  }

  // ---- What inference should find ------------------------------------------

  /** A field of type t takes a cell of type c. */
  predicate Binds(t: Type, c: Type)
  {
    c == t || (t == Float && c == Int)
  }

  /** Every cell that a field of type s takes, one of type t takes. */
  predicate AtMost(s: Type, t: Type)
  {
    s == t || (s == Int && t == Float)
  }

  /** The type of a cell, when the row reaches the column and holds a scalar. */
  function TypeAt(ds: Dataset, k: nat, r: nat): Option<Type>
  {
    if r < |ds.rows| && k < |ds.rows[r]| then Classify(ds.rows[r][k]) else None
  }

  function CellAt(ds: Dataset, k: nat, r: nat): Option<Cell>
  {
    if r < |ds.rows| && k < |ds.rows[r]| then Some(ds.rows[r][k]) else None
  }

  /** t takes every cell of column k in the first m rows. */
  ghost predicate BindsAll(t: Type, ds: Dataset, k: nat, m: nat)
  {
    forall r :: 0 <= r < m && TypeAt(ds, k, r).Some? ==> Binds(t, TypeAt(ds, k, r).value)
  }

  ghost predicate HasScalar(ds: Dataset, k: nat, m: nat)
  {
    exists r :: 0 <= r < m && TypeAt(ds, k, r).Some?
  }

  /** t is the least type that takes every cell of the column. */
  ghost predicate IsLeast(t: Type, ds: Dataset, k: nat, m: nat)
  {
    BindsAll(t, ds, k, m) && forall s :: BindsAll(s, ds, k, m) ==> AtMost(t, s)
  }

  /** The first float of the column comes at row r, past the sample, after an
      integer. */
  ghost predicate LateFloat(ds: Dataset, k: nat, r: nat, sample: nat)
  {
    && TypeAt(ds, k, r) == Some(Float) && r + 1 > sample
    && (forall q :: 0 <= q < r ==> TypeAt(ds, k, q) != Some(Float))
    && (exists q :: 0 <= q < r && TypeAt(ds, k, q) == Some(Int))
  }

  /** One type takes all of the column, and widening to it was seen in time. */
  ghost predicate ColumnOk(ds: Dataset, k: nat, m: nat, sample: nat)
  {
    && (exists t :: BindsAll(t, ds, k, m))
    && (forall r :: 0 <= r < m ==> !LateFloat(ds, k, r, sample))
  }

  /** A cell that no scalar column holds. */
  predicate Hard(c: Cell)
  {
    c == ListCell || c == BlockCell || c == IdentCell
  }

  /** When inference succeeds. The scan mode plays no part. */
  ghost predicate Inferable(ds: Dataset, sample: nat)
  {
    && ds.columns != []
    && (forall k :: 0 <= k < |ds.columns| ==> '.' !in ds.columns[k])
    && (forall r, k :: 0 <= r < |ds.rows| && 0 <= k < |ds.rows[r]| ==> !Hard(ds.rows[r][k]))
    && (forall k :: 0 <= k < |ds.columns| ==> ColumnOk(ds, k, |ds.rows|, sample))
  }

  /** What is reported of column k. */
  ghost predicate Reported(c: Column, ds: Dataset, k: nat)
  {
    var m := |ds.rows|;
    && (if HasScalar(ds, k, m) then IsLeast(c.typ, ds, k, m) else c.typ == Str)
    && (c.nullable <==> exists r :: 0 <= r < m && CellAt(ds, k, r) == Some(Empty))
    && (c.holdsNull <==> exists r :: 0 <= r < m && CellAt(ds, k, r) == Some(Null))
    && FirstAt(ds, k, m, c.firstSeenAt)
  }

  /** n is the number of the first row with a scalar in the column, counted from 1; 0 when there is none. */
  ghost predicate FirstAt(ds: Dataset, k: nat, m: nat, n: nat)
  {
    if n == 0 then !HasScalar(ds, k, m)
    else n <= m && TypeAt(ds, k, n - 1).Some? && forall r :: 0 <= r < n - 1 ==> TypeAt(ds, k, r).None?
  }

  // ---- One column ----------------------------------------------------------

  /** What is known of a column after some rows. */
  datatype Seen = Seen(typ: Option<Type>, nullable: bool, holdsNull: bool, firstSeenAt: nat, bad: bool)

  /** One more cell, in row number row, taken into account. */
  function See(s: Seen, c: Cell, row: nat, sample: nat): Seen
  {
    if c == Empty then s.(nullable := true)
    else if c == Null then s.(holdsNull := true)
    else
      match Classify(c)
      case None => s.(bad := true)
      case Some(t) =>
        if s.typ.None? then s.(typ := Some(t), firstSeenAt := row)
        else if t == s.typ.value then s
        else
          match Widen(s.typ.value, t)
          case None => s.(bad := true)
          case Some(w) =>
            if w == s.typ.value then s
            else if row <= sample then s.(typ := Some(w))
            else s.(bad := true)
  }

  function SeenOf(ds: Dataset, k: nat, m: nat, sample: nat): Seen
  {
    if m == 0 then Seen(None, false, false, 0, false)
    else
      var s := SeenOf(ds, k, m - 1, sample);
      match CellAt(ds, k, m - 1)
      case None => s
      case Some(c) => See(s, c, m, sample)
  }

  ghost predicate NoHard(ds: Dataset, k: nat, m: nat)
  {
    forall r :: 0 <= r < m && CellAt(ds, k, r).Some? ==> !Hard(CellAt(ds, k, r).value)
  }

  /** The column so far: its candidate is a type of one of its cells that takes
      them all. */
  ghost predicate Describes(s: Seen, ds: Dataset, k: nat, m: nat)
  {
    && (s.typ.None? <==> !HasScalar(ds, k, m))
    && (s.typ.Some? ==> BindsAll(s.typ.value, ds, k, m))
    && (s.typ.Some? ==> exists r :: 0 <= r < m && TypeAt(ds, k, r) == s.typ)
  }

  lemma DescribedIsLeast(s: Seen, ds: Dataset, k: nat, m: nat)
    requires Describes(s, ds, k, m) && s.typ.Some?
    ensures IsLeast(s.typ.value, ds, k, m)
  {
    var r :| 0 <= r < m && TypeAt(ds, k, r) == s.typ;
    forall t | BindsAll(t, ds, k, m)
      ensures AtMost(s.typ.value, t)
    {
      assert Binds(t, TypeAt(ds, k, r).value);
    }
  }

  /** A column is marked bad exactly when no type takes it or its first float came
      too late; until then its candidate describes it. */
  lemma {:induction false} SeenIs(ds: Dataset, k: nat, m: nat, sample: nat)
    requires m <= |ds.rows| && NoHard(ds, k, m)
    ensures var s := SeenOf(ds, k, m, sample);
            (s.bad <==> !ColumnOk(ds, k, m, sample)) && (!s.bad ==> Describes(s, ds, k, m))
  {
    hide Binds, Widen, See;
    if m == 0 {
      assert BindsAll(Str, ds, k, m);
    } else {
      SeenIs(ds, k, m - 1, sample);
      var s := SeenOf(ds, k, m - 1, sample);
      if s.bad {
        StaysBad(ds, k, m, sample);
        BadColumnStays(ds, k, m, sample);
      } else {
        match TypeAt(ds, k, m - 1)
        case None => NoScalarStep(ds, k, m, sample);
        case Some(t) =>
          if s.typ.None? {
            FirstScalar(ds, k, m, sample);
          } else {
            NextScalar(ds, k, m, sample);
          }
      }
    }
  }

  lemma StaysBad(ds: Dataset, k: nat, m: nat, sample: nat)
    requires m > 0 && SeenOf(ds, k, m - 1, sample).bad
    ensures SeenOf(ds, k, m, sample).bad
  {
  }

  lemma BadColumnStays(ds: Dataset, k: nat, m: nat, sample: nat)
    requires m > 0 && !ColumnOk(ds, k, m - 1, sample)
    ensures !ColumnOk(ds, k, m, sample)
  {
    if t :| BindsAll(t, ds, k, m) {
      assert BindsAll(t, ds, k, m - 1);
    }
  }

  lemma NoScalarStep(ds: Dataset, k: nat, m: nat, sample: nat)
    requires 0 < m <= |ds.rows| && NoHard(ds, k, m) && TypeAt(ds, k, m - 1).None?
    requires var s := SeenOf(ds, k, m - 1, sample);
             !s.bad && ColumnOk(ds, k, m - 1, sample) && Describes(s, ds, k, m - 1)
    ensures var s := SeenOf(ds, k, m, sample);
            !s.bad && ColumnOk(ds, k, m, sample) && Describes(s, ds, k, m)
  {
    var t :| BindsAll(t, ds, k, m - 1);
    assert BindsAll(t, ds, k, m);
    assert HasScalar(ds, k, m) <==> HasScalar(ds, k, m - 1);
  }

  lemma FirstScalar(ds: Dataset, k: nat, m: nat, sample: nat)
    requires 0 < m <= |ds.rows| && NoHard(ds, k, m) && TypeAt(ds, k, m - 1).Some?
    requires var s := SeenOf(ds, k, m - 1, sample);
             !s.bad && s.typ.None? && ColumnOk(ds, k, m - 1, sample) && Describes(s, ds, k, m - 1)
    ensures var s := SeenOf(ds, k, m, sample);
            !s.bad && ColumnOk(ds, k, m, sample) && Describes(s, ds, k, m)
  {
    var t := TypeAt(ds, k, m - 1).value;
    assert BindsAll(t, ds, k, m);
    assert TypeAt(ds, k, m - 1) == Some(t);
  }

  lemma NextScalar(ds: Dataset, k: nat, m: nat, sample: nat)
    requires 0 < m <= |ds.rows| && NoHard(ds, k, m) && TypeAt(ds, k, m - 1).Some?
    requires var s := SeenOf(ds, k, m - 1, sample);
             !s.bad && s.typ.Some? && ColumnOk(ds, k, m - 1, sample) && Describes(s, ds, k, m - 1)
    ensures var s := SeenOf(ds, k, m, sample);
            (s.bad <==> !ColumnOk(ds, k, m, sample)) && (!s.bad ==> Describes(s, ds, k, m))
  {
    hide ColumnOk;
    var was := SeenOf(ds, k, m - 1, sample).typ.value;
    var t := TypeAt(ds, k, m - 1).value;
    var q :| 0 <= q < m - 1 && TypeAt(ds, k, q) == Some(was);
    if Binds(was, t) {
      Unlate(ds, k, m, sample, was);
    } else if was == Int && t == Float {
      IntThenFloat(ds, k, m, sample, q);
    } else {
      forall s
        ensures !BindsAll(s, ds, k, m)
      {
        assert BindsAll(s, ds, k, m) ==> Binds(s, TypeAt(ds, k, q).value);
        assert BindsAll(s, ds, k, m) ==> Binds(s, TypeAt(ds, k, m - 1).value);
      }
      NoTypeNotOk(ds, k, m, sample);
    }
  }

  lemma NoTypeNotOk(ds: Dataset, k: nat, m: nat, sample: nat)
    requires forall s :: !BindsAll(s, ds, k, m)
    ensures !ColumnOk(ds, k, m, sample)
  {
  }

  /** A cell that the candidate takes leaves the column in order. */
  lemma Unlate(ds: Dataset, k: nat, m: nat, sample: nat, was: Type)
    requires m > 0 && ColumnOk(ds, k, m - 1, sample) && TypeAt(ds, k, m - 1).Some?
    requires BindsAll(was, ds, k, m - 1) && Binds(was, TypeAt(ds, k, m - 1).value)
    requires exists q :: 0 <= q < m - 1 && TypeAt(ds, k, q) == Some(was)
    ensures ColumnOk(ds, k, m, sample) && BindsAll(was, ds, k, m)
  {
    assert BindsAll(was, ds, k, m);
    var q :| 0 <= q < m - 1 && TypeAt(ds, k, q) == Some(was);
    assert !LateFloat(ds, k, m - 1, sample) by {
      if TypeAt(ds, k, m - 1) == Some(Float) {
        assert was == Float;
      }
    }
  }

  /** A float after integers is in order exactly when it lies within the sample. */
  lemma IntThenFloat(ds: Dataset, k: nat, m: nat, sample: nat, q: nat)
    requires m > 0 && ColumnOk(ds, k, m - 1, sample) && BindsAll(Int, ds, k, m - 1)
    requires TypeAt(ds, k, m - 1) == Some(Float) && q < m - 1 && TypeAt(ds, k, q) == Some(Int)
    ensures ColumnOk(ds, k, m, sample) <==> m <= sample
    ensures BindsAll(Float, ds, k, m)
  {
    assert BindsAll(Float, ds, k, m);
    forall p | 0 <= p < m - 1
      ensures TypeAt(ds, k, p) != Some(Float)
    {
      assert TypeAt(ds, k, p).Some? ==> Binds(Int, TypeAt(ds, k, p).value);
    }
    assert LateFloat(ds, k, m - 1, sample) <==> m > sample;
  }

  lemma {:induction false} SeenFlags(ds: Dataset, k: nat, m: nat, sample: nat)
    ensures SeenOf(ds, k, m, sample).nullable <==> exists r :: 0 <= r < m && CellAt(ds, k, r) == Some(Empty)
    ensures SeenOf(ds, k, m, sample).holdsNull <==> exists r :: 0 <= r < m && CellAt(ds, k, r) == Some(Null)
  {
    hide Widen;
    if m > 0 {
      SeenFlags(ds, k, m - 1, sample);
      assert CellAt(ds, k, m - 1) == CellAt(ds, k, m - 1);
    }
  }

  lemma {:induction false} SeenFirst(ds: Dataset, k: nat, m: nat, sample: nat)
    ensures var s := SeenOf(ds, k, m, sample);
            FirstAt(ds, k, m, s.firstSeenAt) && (s.typ.None? <==> s.firstSeenAt == 0)
  {
    hide Widen;
    if m > 0 {
      SeenFirst(ds, k, m - 1, sample);
      var before := SeenOf(ds, k, m - 1, sample);
      FirstAtNext(ds, k, m, before.firstSeenAt);
      hide FirstAt;
      assert CellAt(ds, k, m - 1).Some? ==> TypeAt(ds, k, m - 1) == Classify(CellAt(ds, k, m - 1).value);
    }
  }

  lemma FirstAtNext(ds: Dataset, k: nat, m: nat, n: nat)
    requires m > 0 && FirstAt(ds, k, m - 1, n)
    ensures n > 0 || TypeAt(ds, k, m - 1).None? ==> FirstAt(ds, k, m, n)
    ensures n == 0 && TypeAt(ds, k, m - 1).Some? ==> FirstAt(ds, k, m, m)
  {
  }

  // ---- The algorithm -------------------------------------------------------

  /** Some cell up to row r is not held by any column, or some column went bad. */
  ghost predicate Fails(ds: Dataset, r: nat, sample: nat)
    requires r < |ds.rows|
  {
    || (exists k :: 0 <= k < |ds.rows[r]| && Hard(ds.rows[r][k]))
    || (exists k: nat :: k < |ds.columns| && BadAt(ds, k, r, sample))
  }

  ghost predicate BadAt(ds: Dataset, k: nat, r: nat, sample: nat)
  {
    SeenOf(ds, k, r + 1, sample).bad
  }

  predicate SomeBad(cols: seq<Seen>)
  {
    exists k :: 0 <= k < |cols| && cols[k].bad
  }

  /** Takes the cells of row r into account; stop says that inference ends here
      with an error. */
  method SeeRow(ds: Dataset, r: nat, sample: nat, fullScan: bool, cols: seq<Seen>, seen: nat)
    returns (out: seq<Seen>, contradictions: nat, stop: bool)
    requires r < |ds.rows| && |ds.rows[r]| <= |cols| == |ds.columns|
    requires forall k :: 0 <= k < |cols| ==> cols[k] == SeenOf(ds, k, r, sample)
    requires seen > 0 <==> SomeBad(cols)
    ensures stop ==> Fails(ds, r, sample)
    ensures !stop ==>
              && |out| == |cols|
              && (forall k :: 0 <= k < |ds.rows[r]| ==> !Hard(ds.rows[r][k]))
              && (forall k :: 0 <= k < |cols| ==> out[k] == SeenOf(ds, k, r + 1, sample))
              && (contradictions > 0 <==> SomeBad(out))
  {
    hide SeenOf, Widen;
    out, contradictions, stop := cols, seen, false;
    var row := ds.rows[r];
    for k := 0 to |row|
      invariant |out| == |cols|
      invariant forall j :: 0 <= j < k ==> out[j] == SeenOf(ds, j, r + 1, sample) && !Hard(row[j])
      invariant forall j :: k <= j < |cols| ==> out[j] == cols[j]
      invariant contradictions > 0 <==> SomeBad(out)
    {
      var c := row[k];
      SeeNext(ds, k, r, sample);
      ghost var was := out;
      if c == Empty {
        out := out[k := out[k].(nullable := true)];
      } else if c == Null {
        out := out[k := out[k].(holdsNull := true)];
      } else if Classify(c).None? {
        return out, contradictions, true;
      } else {
        var t := Classify(c).value;
        if out[k].typ.None? {
          out := out[k := out[k].(typ := Some(t), firstSeenAt := r + 1)];
        } else if t != out[k].typ.value {
          var w := Widen(out[k].typ.value, t);
          if w.None? || (w.value != out[k].typ.value && r + 1 > sample) {
            contradictions := contradictions + 1;
            out := out[k := out[k].(bad := true)];
            if !fullScan {
              assert BadAt(ds, k, r, sample);
              return out, contradictions, true;
            }
          } else {
            out := out[k := out[k].(typ := w)];
          }
        }
      }
      BadAfter(was, out, k);
    }
    forall k | |row| <= k < |cols|
      ensures out[k] == SeenOf(ds, k, r + 1, sample)
    {
      SeeNone(ds, k, r, sample);
    }
  }

  lemma SeeNext(ds: Dataset, k: nat, r: nat, sample: nat)
    requires r < |ds.rows| && k < |ds.rows[r]|
    ensures SeenOf(ds, k, r + 1, sample) == See(SeenOf(ds, k, r, sample), ds.rows[r][k], r + 1, sample)
  {
  }

  lemma SeeNone(ds: Dataset, k: nat, r: nat, sample: nat)
    requires r < |ds.rows| && k >= |ds.rows[r]|
    ensures SeenOf(ds, k, r + 1, sample) == SeenOf(ds, k, r, sample)
  {
  }

  /** Changing one column to bad, or not changing whether it is. */
  lemma BadAfter(was: seq<Seen>, now: seq<Seen>, k: nat)
    requires |was| == |now| && k < |now|
    requires forall j :: 0 <= j < |now| && j != k ==> now[j] == was[j]
    requires was[k].bad ==> now[k].bad
    ensures SomeBad(now) <==> SomeBad(was) || now[k].bad
  {
    if j :| 0 <= j < |was| && was[j].bad {
      assert now[j].bad;
    }
  }

  lemma {:induction false} BadStays(ds: Dataset, k: nat, m: nat, n: nat, sample: nat)
    requires m <= n && SeenOf(ds, k, m, sample).bad
    ensures SeenOf(ds, k, n, sample).bad
    decreases n
  {
    if m < n {
      BadStays(ds, k, m, n - 1, sample);
    }
  }

  /** A failure at any row means that the dataset is not inferable. */
  lemma FailsMeans(ds: Dataset, r: nat, sample: nat)
    requires r < |ds.rows| && Fails(ds, r, sample)
    ensures !Inferable(ds, sample)
  {
    hide SeenOf;
    if Inferable(ds, sample) {
      var k: nat :| k < |ds.columns| && BadAt(ds, k, r, sample);
      BadStays(ds, k, r + 1, |ds.rows|, sample);
      SeenIs(ds, k, |ds.rows|, sample);
    }
  }

  /** The report on the columns of a dataset, None when inference fails: it fails on
      the same datasets in both scan modes, and gives the same types at every
      sample size at which it succeeds. */
  method InferDataset(ds: Dataset, sample: nat, fullScan: bool) returns (rep: Option<seq<Column>>)
    requires forall r :: 0 <= r < |ds.rows| ==> |ds.rows[r]| <= |ds.columns|
    ensures rep.Some? <==> Inferable(ds, sample)
    ensures rep.Some? ==>
              && |rep.value| == |ds.columns|
              && forall k :: 0 <= k < |ds.columns| ==>
                   rep.value[k].name == ds.columns[k] && Reported(rep.value[k], ds, k)
  {
    hide SeenOf, FirstAt;
    if |ds.columns| == 0 {
      return None;
    }
    var cols: seq<Seen> := [];
    for k := 0 to |ds.columns|
      invariant |cols| == k
      invariant forall j :: 0 <= j < k ==> '.' !in ds.columns[j] && cols[j] == SeenOf(ds, j, 0, sample) && !cols[j].bad
    {
      if '.' in ds.columns[k] {
        return None;
      }
      NothingSeen(ds, k, sample);
      cols := cols + [Seen(Option.None, false, false, 0, false)];
    }
    var contradictions := 0;
    for r := 0 to |ds.rows|
      invariant |cols| == |ds.columns|
      invariant forall k :: 0 <= k < |cols| ==> cols[k] == SeenOf(ds, k, r, sample)
      invariant forall q, k :: 0 <= q < r && 0 <= k < |ds.rows[q]| ==> !Hard(ds.rows[q][k])
      invariant contradictions > 0 <==> SomeBad(cols)
    {
      var stop;
      cols, contradictions, stop := SeeRow(ds, r, sample, fullScan, cols, contradictions);
      if stop {
        FailsMeans(ds, r, sample);
        return None;
      }
    }
    ColumnsAre(ds, cols, sample);
    if contradictions > 0 {
      return None;
    }
    var out: seq<Column> := [];
    for k := 0 to |cols|
      invariant |out| == k
      invariant forall j :: 0 <= j < k ==> out[j].name == ds.columns[j] && Reported(out[j], ds, j)
    {
      var c := cols[k];
      var typ := if c.typ.Some? then c.typ.value else Str;
      out := out + [Column(ds.columns[k], typ, c.nullable, c.holdsNull, c.firstSeenAt)];
    }
    return Some(out);
  }

  lemma NothingSeen(ds: Dataset, k: nat, sample: nat)
    ensures SeenOf(ds, k, 0, sample) == Seen(Option.None, false, false, 0, false)
  {
  }

  lemma ColumnsAre(ds: Dataset, cols: seq<Seen>, sample: nat)
    requires ds.columns != [] && |cols| == |ds.columns|
    requires forall k :: 0 <= k < |cols| ==> '.' !in ds.columns[k] && cols[k] == SeenOf(ds, k, |ds.rows|, sample)
    requires forall r, k :: 0 <= r < |ds.rows| && 0 <= k < |ds.rows[r]| ==> !Hard(ds.rows[r][k])
    ensures SomeBad(cols) <==> !Inferable(ds, sample)
    ensures !SomeBad(cols) ==> forall k :: 0 <= k < |cols| ==>
              Reported(Column(ds.columns[k], if cols[k].typ.Some? then cols[k].typ.value else Str,
                              cols[k].nullable, cols[k].holdsNull, cols[k].firstSeenAt), ds, k)
  {
    hide SeenOf, ColumnOk, FirstAt;
    forall k | 0 <= k < |cols|
      ensures cols[k].bad <==> !ColumnOk(ds, k, |ds.rows|, sample)
      ensures !cols[k].bad ==>
                Reported(Column(ds.columns[k], if cols[k].typ.Some? then cols[k].typ.value else Str,
                                cols[k].nullable, cols[k].holdsNull, cols[k].firstSeenAt), ds, k)
    {
      SeenIs(ds, k, |ds.rows|, sample);
      SeenFlags(ds, k, |ds.rows|, sample);
      SeenFirst(ds, k, |ds.rows|, sample);
      if !cols[k].bad && cols[k].typ.Some? {
        DescribedIsLeast(cols[k], ds, k, |ds.rows|);
      }
    }
  }

  /** The type of a column does not depend on the sample size or the scan mode. */
  lemma LeastUnique(s: Type, t: Type, ds: Dataset, k: nat, m: nat)
    requires IsLeast(s, ds, k, m) && IsLeast(t, ds, k, m)
    ensures s == t
  {
    assert AtMost(s, t) && AtMost(t, s);
  }

  /** A larger sample never makes inference fail. */
  lemma SampleMonotone(ds: Dataset, small: nat, large: nat)
    requires small <= large && Inferable(ds, small)
    ensures Inferable(ds, large)
  {
    forall k | 0 <= k < |ds.columns|
      ensures ColumnOk(ds, k, |ds.rows|, large)
    {
      assert ColumnOk(ds, k, |ds.rows|, small);
      forall r | 0 <= r < |ds.rows|
        ensures !LateFloat(ds, k, r, large)
      {
        assert !LateFloat(ds, k, r, small);
      }
    }
  }
}
