/** The two-row edit distance behind "did you mean" hints: the least number of
    insertions, deletions and substitutions, and the field it suggests. */
module EditDistance {
  import opened Options

  // ---- Edit scripts --------------------------------------------------------

  datatype Edit = Keep | Replace | Insert | Delete

  function CostOf(e: Edit): nat
  {
    if e == Keep then 0 else 1
  }

  function Cost(script: seq<Edit>): nat
  {
    if script == [] then 0 else Cost(script[..|script| - 1]) + CostOf(script[|script| - 1])
  }

  function Init<T>(s: seq<T>): seq<T>
    requires s != []
  {
    s[..|s| - 1]
  }

  function Tip<T>(s: seq<T>): T
    requires s != []
  {
    s[|s| - 1]
  }

  /** The script turns a into b, from their first characters to their last. */
  ghost predicate Turns(script: seq<Edit>, a: string, b: string)
    decreases |script|
  {
    if script == [] then a == [] && b == []
    else
      match Tip(script)
      case Keep => a != [] && b != [] && Tip(a) == Tip(b) && Turns(Init(script), Init(a), Init(b))
      case Replace => a != [] && b != [] && Turns(Init(script), Init(a), Init(b))
      case Insert => b != [] && Turns(Init(script), a, Init(b))
      case Delete => a != [] && Turns(Init(script), Init(a), b)
  }

  // ---- The distance --------------------------------------------------------

  function Min3(a: nat, b: nat, c: nat): (m: nat)
    ensures m <= a && m <= b && m <= c && (m == a || m == b || m == c)
  {
    var m := if b < a then b else a;
    if c < m then c else m
  }

  function Differ(a: string, b: string): nat
    requires a != [] && b != []
  {
    if Tip(a) == Tip(b) then 0 else 1
  }

  function Distance(a: string, b: string): nat
    decreases |a| + |b|
  {
    if a == [] then |b|
    else if b == [] then |a|
    else
      Min3(Distance(Init(a), b) + 1, Distance(a, Init(b)) + 1, Distance(Init(a), Init(b)) + Differ(a, b))
  }

  /** Every script costs at least the distance. */
  lemma {:induction false} DistanceIsLeast(script: seq<Edit>, a: string, b: string)
    requires Turns(script, a, b)
    ensures Distance(a, b) <= Cost(script)
    decreases |script|
  {
    if script != [] {
      var s := Init(script);
      match Tip(script)
      case Keep => DistanceIsLeast(s, Init(a), Init(b));
      case Replace => DistanceIsLeast(s, Init(a), Init(b));
      case Insert => DistanceIsLeast(s, a, Init(b));
      case Delete => DistanceIsLeast(s, Init(a), b);
    }
  }

  /** Some script costs just the distance. */
  lemma {:induction false} DistanceIsReached(a: string, b: string) returns (script: seq<Edit>)
    ensures Turns(script, a, b) && Cost(script) == Distance(a, b)
    decreases |a| + |b|
  {
    if a == [] && b == [] {
      script := [];
    } else if a != [] && b != [] && Distance(a, b) == Distance(Init(a), Init(b)) + Differ(a, b) {
      var s := DistanceIsReached(Init(a), Init(b));
      script := s + [if Differ(a, b) == 0 then Keep else Replace];
      assert Init(script) == s;
    } else if b == [] || (a != [] && Distance(a, b) == Distance(Init(a), b) + 1) {
      var s := DistanceIsReached(Init(a), b);
      script := s + [Delete];
      assert Init(script) == s;
    } else {
      var s := DistanceIsReached(a, Init(b));
      script := s + [Insert];
      assert Init(script) == s;
    }
  }

  lemma {:induction false} DistanceSymmetric(a: string, b: string)
    ensures Distance(a, b) == Distance(b, a)
    decreases |a| + |b|
  {
    if a != [] && b != [] {
      DistanceSymmetric(Init(a), b);
      DistanceSymmetric(a, Init(b));
      DistanceSymmetric(Init(a), Init(b));
    }
  }

  lemma {:induction false} DistanceZero(a: string, b: string)
    ensures Distance(a, b) == 0 <==> a == b
    decreases |a| + |b|
  {
    if a != [] && b != [] {
      DistanceZero(Init(a), Init(b));
      assert a == Init(a) + [Tip(a)] && b == Init(b) + [Tip(b)];
    }
  }

  /** Doing one script and then another, as one script that costs no more. */
  lemma {:induction false} Compose(s: seq<Edit>, t: seq<Edit>, a: string, b: string, c: string)
    returns (u: seq<Edit>)
    requires Turns(s, a, b) && Turns(t, b, c)
    ensures Turns(u, a, c) && Cost(u) <= Cost(s) + Cost(t)
    decreases |s| + |t|
  {
    if s == [] && t == [] {
      u := [];
    } else if t != [] && Tip(t) == Insert {
      var v := Compose(s, Init(t), a, b, Init(c));
      u := v + [Insert];
      assert Init(u) == v;
    } else if s != [] && Tip(s) == Delete {
      var v := Compose(Init(s), t, Init(a), b, c);
      u := v + [Delete];
      assert Init(u) == v;
    } else {
      u := ComposeThrough(s, t, a, b, c);
    }
  }

  /** The case where the last character of b is made by one script and used up by
      the other. */
  lemma {:induction false} ComposeThrough(s: seq<Edit>, t: seq<Edit>, a: string, b: string, c: string)
    returns (u: seq<Edit>)
    requires Turns(s, a, b) && Turns(t, b, c) && (s != [] || t != [])
    requires (t == [] || Tip(t) != Insert) && (s == [] || Tip(s) != Delete)
    ensures Turns(u, a, c) && Cost(u) <= Cost(s) + Cost(t)
    decreases |s| + |t|, 0
  {
    var i, j := Init(s), Init(t);
    var e, f := Tip(s), Tip(t);
    var a1 := if e == Insert then a else Init(a);
    var c1 := if f == Delete then c else Init(c);
    var v := Compose(i, j, a1, Init(b), c1);
    if e == Insert && f == Delete {
      u := v;
    } else {
      var g :=
        if e == Insert then Insert
        else if f == Delete then Delete
        else if e == Keep && f == Keep then Keep
        else Replace;
      u := v + [g];
      assert Init(u) == v;
    }
  }

  lemma DistanceTriangle(a: string, b: string, c: string)
    ensures Distance(a, c) <= Distance(a, b) + Distance(b, c)
  {
    var s := DistanceIsReached(a, b);
    var t := DistanceIsReached(b, c);
    var u := Compose(s, t, a, b, c);
    DistanceIsLeast(u, a, c);
  }

  // ---- The algorithm -------------------------------------------------------

  method EditDistanceOf(a: string, b: string) returns (d: nat)
    ensures d == Distance(a, b)
  {
    EmptyDistances(a, b);
    hide Distance;
    if |a| == 0 {
      return |b|;
    }
    if |b| == 0 {
      return |a|;
    }
    var prev := new nat[|b| + 1](j => j);
    var curr := new nat[|b| + 1](j => 0);
    for i := 1 to |a| + 1
      invariant prev != curr && fresh(prev) && fresh(curr)
      invariant prev.Length == |b| + 1 && curr.Length == |b| + 1
      invariant forall j :: 0 <= j <= |b| ==> prev[j] == Distance(a[..i - 1], b[..j])
    {
      curr[0] := i;
      EmptyDistances(a[..i], b[..0]);
      for j := 1 to |b| + 1
        invariant forall k :: 0 <= k <= |b| ==> prev[k] == Distance(a[..i - 1], b[..k])
        invariant forall k :: 0 <= k < j ==> curr[k] == Distance(a[..i], b[..k])
      {
        var cost := 1;
        if a[i - 1] == b[j - 1] {
          cost := 0;
        }
        PrefixStep(a, i, b, j);
        curr[j] := Min3(prev[j] + 1, curr[j - 1] + 1, prev[j - 1] + cost);
      }
      prev, curr := curr, prev;
    }
    assert a[..|a|] == a && b[..|b|] == b;
    return prev[|b|];
  }

  lemma EmptyDistances(a: string, b: string)
    ensures a == [] ==> Distance(a, b) == |b|
    ensures b == [] ==> Distance(a, b) == |a|
    ensures forall j :: 0 <= j <= |b| ==> Distance(a[..0], b[..j]) == j
  {
  }

  lemma PrefixStep(a: string, i: nat, b: string, j: nat)
    requires 1 <= i <= |a| && 1 <= j <= |b|
    ensures Distance(a[..i], b[..j])
         == Min3(Distance(a[..i - 1], b[..j]) + 1, Distance(a[..i], b[..j - 1]) + 1,
                 Distance(a[..i - 1], b[..j - 1]) + (if a[i - 1] == b[j - 1] then 0 else 1))
  {
    var x, y := a[..i], b[..j];
    assert Init(x) == a[..i - 1] && Init(y) == b[..j - 1];
    assert Tip(x) == a[i - 1] && Tip(y) == b[j - 1];
  }

  const MAX_DISTANCE := 2

  /** Field k is the first declared one nearest to name. */
  ghost predicate FirstNearest(name: string, fields: seq<string>, k: nat)
  {
    && k < |fields|
    && (forall i :: 0 <= i < |fields| ==> Distance(name, fields[k]) <= Distance(name, fields[i]))
    && (forall i :: 0 <= i < k ==> Distance(name, fields[k]) < Distance(name, fields[i]))
  }

  /** The declared field to suggest for name: the first nearest one, when it is at
      most two edits away, and otherwise nothing. */
  method ClosestField(name: string, fields: seq<string>) returns (out: string)
    ensures (exists i :: 0 <= i < |fields| && Distance(name, fields[i]) <= 2) ==>
              exists k: nat :: FirstNearest(name, fields, k) && out == fields[k]
    ensures (forall i :: 0 <= i < |fields| ==> Distance(name, fields[i]) > 2) ==> out == ""
  {
    hide Distance;
    var best := MAX_DISTANCE + 1;
    out := "";
    ghost var which := 0;
    for i := 0 to |fields|
      invariant best <= MAX_DISTANCE + 1
      invariant best == MAX_DISTANCE + 1 ==> out == ""
      invariant best <= MAX_DISTANCE ==>
                  && 0 <= which < i && out == fields[which] && best == Distance(name, out)
                  && forall k :: 0 <= k < which ==> best < Distance(name, fields[k])
      invariant forall k :: 0 <= k < i ==> best <= Distance(name, fields[k])
    {
      var d := EditDistanceOf(name, fields[i]);
      if d < best {
        best := d;
        out := fields[i];
        which := i;
      }
    }
    if best > MAX_DISTANCE {
      return "";
    }
    assert FirstNearest(name, fields, which);
  }
}
