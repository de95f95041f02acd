/** What a whole run of merges leaves in the registry
  * (internal/schemaresolve/schemaresolve.go:111-197,320-336,433-443,710-735). */
module RegistryRuns {
  import opened Options
  import opened SchemaRegistry

  /** n is m, or lies in the scope of m. */
  predicate Within(n: string, m: string)
  {
    n == m || (|n| > |m| && n[..|m|] == m && n[|m|] == '.')
  }

  lemma WithinOn(a: string, b: string, c: string)
    requires Within(a, b) && Within(b, c)
    ensures Within(a, c)
  {
    if a != b && b != c {
      assert a[..|c|] == a[..|b|][..|c|];
      assert a[|c|] == a[..|b|][|c|];
    }
  }

  /** What is registered under a name. */
  datatype Slot = Slot(m: Option<MessageType>, e: Option<EnumType>)

  const VACANT := Slot(None, None)

  function SlotOf(s: Reg, n: string): Slot
  {
    Slot(if n in s.messages then Some(s.messages[n]) else None, if n in s.enums then Some(s.enums[n]) else None)
  }

  function Holding(d: Desc): Slot
  {
    match d
    case Msg(m) => Slot(Some(m), None)
    case Enm(e) => Slot(None, Some(e))
  }

  lemma SlotPut(s: Reg, d: Desc, n: string)
    requires n == NameOf(d) ==> SlotOf(s, n) == VACANT || SlotOf(s, n) == Holding(d)
    ensures SlotOf(Put(s, d), n) == if n == NameOf(d) then Holding(d) else SlotOf(s, n)
  {
  }

  lemma SlotDrop(s: Reg, d: Desc, n: string)
    ensures SlotOf(Drop(s, d), n) == if n in Names(Whole(d)) then VACANT else SlotOf(s, n)
  {
    hide Names, Whole;
  }

  lemma SlotExternal(s: Reg, n: string)
    ensures External(s, n).None? <==> n in s.fromDocument || SlotOf(s, n) == VACANT
    ensures n !in s.fromDocument && SlotOf(s, n) != VACANT ==> External(s, n) == Registered(s, n)
  {
  }

  lemma SlotRegistered(a: Reg, b: Reg, n: string)
    requires SlotOf(a, n) == SlotOf(b, n)
    ensures Registered(a, n) == Registered(b, n)
  {
  }

  /** An external registry of one linked universe: each name one type, a scope's names nested in its message. */
  ghost predicate Universe(base: Reg)
  {
    && base.fromDocument == {} && base.differs == {} && base.warnings == []
    && (forall n :: Registered(base, n).Some? ==>
          NameOf(Registered(base, n).value) == n && SlotOf(base, n) == Holding(Registered(base, n).value))
    && forall n, m :: Registered(base, m).Some? ==>
          (n in Names(Whole(Registered(base, m).value)) <==> Registered(base, n).Some? && Within(n, m))
  }

  predicate Known(base: Reg, n: string)
  {
    Registered(base, n).Some?
  }

  // ---- Shadowing, one declared name at a time ----

  /** The order in which shadow comes to the types of a container. */
  function Visits(ms: seq<MessageType>): seq<Desc>
    decreases ms
  {
    if ms == [] then []
    else [Msg(ms[0])] + (Visits(ms[0].messages) + Enums(ms[0].enums)) + Visits(ms[1..])
  }

  function VisitsOf(c: Container): seq<Desc>
  {
    Visits(c.messages) + Enums(c.enums)
  }

  /** One type shadowed, without looking at what it declares. */
  function ShadowOne(s: Reg, d: Desc, same: (Desc, Desc) -> bool): Reg
  {
    match External(s, NameOf(d))
    case None => s
    case Some(was) => Replace(s, was, d, same)
  }

  function ShadowEach(s: Reg, ds: seq<Desc>, same: (Desc, Desc) -> bool): Reg
    decreases ds
  {
    if ds == [] then s else ShadowEach(ShadowOne(s, ds[0], same), ds[1..], same)
  }

  lemma {:induction false} ShadowEachConcat(s: Reg, a: seq<Desc>, b: seq<Desc>, same: (Desc, Desc) -> bool)
    ensures ShadowEach(s, a + b, same) == ShadowEach(ShadowEach(s, a, same), b, same)
    decreases a
  {
    hide ShadowOne;
    if a == [] {
      assert a + b == b;
    } else {
      ShadowEachConcat(ShadowOne(s, a[0], same), a[1..], b, same);
      assert (a + b)[1..] == a[1..] + b;
    }
  }

  /** Each type's nested types are named within it. */
  ghost predicate NamedWithin(ms: seq<MessageType>)
    decreases ms
  {
    ms == []
    || (&& (forall n :: n in Names(Visits(ms[0].messages) + Enums(ms[0].enums)) ==> Within(n, ms[0].name))
        && NamedWithin(ms[0].messages)
        && NamedWithin(ms[1..]))
  }

  /** What is left of the external types: each as in the base, or gone; and gone with its scope. */
  ghost predicate LeftOf(s: Reg, base: Reg)
  {
    && forall n :: n !in s.fromDocument ==> SlotOf(s, n) == SlotOf(base, n) || SlotOf(s, n) == VACANT
  }

  lemma ReplaceLeaves(s: Reg, base: Reg, d: Desc, same: (Desc, Desc) -> bool)
    requires LeftOf(s, base) && Universe(base)
    ensures LeftOf(ShadowOne(s, d, same), base)
    ensures ShadowOne(s, d, same).fromDocument == s.fromDocument
    ensures forall n :: Within(n, NameOf(d)) && External(s, NameOf(d)).Some? ==>
              External(ShadowOne(s, d, same), n).None?
  {
    hide Universe, Names, Whole, Registered;
    var name := NameOf(d);
    SlotExternal(s, name);
    if External(s, name).Some? {
      var was := External(s, name).value;
      SlotRegistered(s, base, name);
      var after := ShadowOne(s, d, same);
      forall n: string
        ensures SlotOf(after, n) == if n in Names(Whole(was)) then VACANT else SlotOf(s, n)
      {
        SlotDrop(s, was, n);
      }
      forall n | Within(n, name)
        ensures External(after, n).None?
      {
        SlotExternal(after, n);
        ScopeIsWhole(base, n, name);
      }
    }
  }

  lemma ScopeIsWhole(base: Reg, n: string, m: string)
    requires Universe(base) && Known(base, m)
    ensures Within(n, m) && SlotOf(base, n) != VACANT ==> n in Names(Whole(Registered(base, m).value))
    ensures n in Names(Whole(Registered(base, m).value)) && SlotOf(base, n) != VACANT ==> Within(n, m)
  {
    hide Names, Whole, Within;
    assert SlotOf(base, n) != VACANT ==> Registered(base, n).Some?;
  }

  /** Types that no external stands behind leave the registry alone. */
  lemma {:induction false} ShadowNone(s: Reg, ds: seq<Desc>, same: (Desc, Desc) -> bool)
    requires forall n :: n in Names(ds) ==> External(s, n).None?
    ensures ShadowEach(s, ds, same) == s
    decreases ds
  {
    hide External;
    if ds != [] {
      assert NameOf(ds[0]) in Names(ds);
      assert forall n :: n in Names(ds[1..]) ==> n in Names(ds) by {
        NamesRest(ds);
      }
      ShadowNone(s, ds[1..], same);
    }
  }

  lemma NamesRest(ds: seq<Desc>)
    requires ds != []
    ensures Names(ds) == {NameOf(ds[0])} + Names(ds[1..])
  {
    assert forall k :: 0 < k < |ds| ==> ds[k] == ds[1..][k - 1];
    assert forall k :: 0 <= k < |ds| - 1 ==> ds[1..][k] == ds[k + 1];
  }

  lemma {:induction false} ShadowEnumsIsEach(s: Reg, es: seq<EnumType>, same: (Desc, Desc) -> bool)
    ensures ShadowEnums(s, es, same) == ShadowEach(s, Enums(es), same)
    decreases es
  {
    hide Replace, External;
    if es != [] {
      ShadowEnumsIsEach(ShadowOne(s, Enm(es[0]), same), es[1..], same);
      assert Enums(es)[1..] == Enums(es[1..]);
    }
  }

  lemma {:induction false} EachLeaves(s: Reg, base: Reg, ds: seq<Desc>, same: (Desc, Desc) -> bool)
    requires LeftOf(s, base) && Universe(base)
    ensures LeftOf(ShadowEach(s, ds, same), base)
    decreases ds
  {
    hide LeftOf, Universe, ShadowOne, Within, External;
    if ds != [] {
      ReplaceLeaves(s, base, ds[0], same);
      EachLeaves(ShadowOne(s, ds[0], same), base, ds[1..], same);
    }
  }

  /** shadow, which skips the inside of a type it replaces, shadows every declared type in turn. */
  lemma {:induction false} ShadowMessagesIsEach(s: Reg, base: Reg, ms: seq<MessageType>, same: (Desc, Desc) -> bool)
    requires LeftOf(s, base) && Universe(base) && NamedWithin(ms)
    ensures ShadowMessages(s, ms, same) == ShadowEach(s, Visits(ms), same)
    decreases ms
  {
    hide LeftOf, Universe, Within, Replace, ShadowOne;
    if ms != [] {
      var m := ms[0];
      var inside := Visits(m.messages) + Enums(m.enums);
      var first := ShadowOne(s, Msg(m), same);
      ReplaceLeaves(s, base, Msg(m), same);
      ShadowMessagesIsEach(s, base, m.messages, same);
      ShadowEnumsIsEach(ShadowMessages(s, m.messages, same), m.enums, same);
      ShadowEachConcat(s, Visits(m.messages), Enums(m.enums), same);
      ShadowFirst(s, m, same);
      if External(s, m.name).Some? {
        ShadowNone(first, inside, same);
      }
      var next := ShadowEach(first, inside, same);
      EachLeaves(first, base, inside, same);
      ShadowMessagesIsEach(next, base, ms[1..], same);
      ShadowEachConcat(s, [Msg(m)] + inside, Visits(ms[1..]), same);
      ShadowEachConcat(s, [Msg(m)], inside, same);
      EachOne(s, Msg(m), same);
    }
  }

  lemma EachOne(s: Reg, d: Desc, same: (Desc, Desc) -> bool)
    ensures ShadowEach(s, [d], same) == ShadowOne(s, d, same)
  {
    hide ShadowOne;
    assert [d][1..] == [];
  }

  lemma ShadowFirst(s: Reg, m: MessageType, same: (Desc, Desc) -> bool)
    ensures External(s, m.name).None? ==> ShadowOne(s, Msg(m), same) == s
    ensures External(s, m.name).Some? ==>
              ShadowOne(s, Msg(m), same) == Replace(s, External(s, m.name).value, Msg(m), same)
  {
  }

  lemma ShadowIsEach(s: Reg, base: Reg, c: Container, same: (Desc, Desc) -> bool)
    requires LeftOf(s, base) && Universe(base) && NamedWithin(c.messages)
    ensures Shadow(s, c, same) == ShadowEach(s, VisitsOf(c), same)
  {
    hide LeftOf, Universe, NamedWithin, ShadowEach;
    ShadowMessagesIsEach(s, base, c.messages, same);
    ShadowEnumsIsEach(ShadowMessages(s, c.messages, same), c.enums, same);
    ShadowEachConcat(s, Visits(c.messages), Enums(c.enums), same);
  }

  // ---- The state of a run, exactly ----

  /** n lies in the scope of an external type whose name is declared in K. */
  ghost predicate Shadowed(base: Reg, K: set<string>, n: string)
  {
    exists m :: m in K && Known(base, m) && Within(n, m)
  }

  /** m is an external type shadowed on its own account: no scope around it is. */
  ghost predicate Outermost(base: Reg, K: set<string>, m: string)
  {
    && m in K && Known(base, m)
    && forall o :: o in K && Known(base, o) && Within(m, o) ==> o == m
  }

  type Declared = map<string, Desc>

  /** n is external and lies in a type that decl defines differently. */
  ghost predicate Differing(base: Reg, K: set<string>, decl: Declared, same: (Desc, Desc) -> bool, n: string)
  {
    exists m :: Outermost(base, K, m) && m in decl && !same(Registered(base, m).value, decl[m])
                && n in Names(Whole(Registered(base, m).value))
  }

  /** A warning names an external type that decl defines differently, in no other one's scope, and its file. */
  ghost predicate Warned(base: Reg, K: set<string>, decl: Declared, same: (Desc, Desc) -> bool, w: Warning)
  {
    exists m :: Outermost(base, K, m) && m in decl && !same(Registered(base, m).value, decl[m])
                && w == Differently(m, FileOf(Registered(base, m).value))
  }

  ghost predicate OneEach(ws: seq<Warning>)
  {
    forall i, j :: 0 <= i < j < |ws| ==> ws[i].name != ws[j].name
  }

  /** The registry after the names K have been shadowed, those in s.fromDocument also put. */
  ghost predicate Exact(s: Reg, base: Reg, K: set<string>, decl: Declared, same: (Desc, Desc) -> bool)
  {
    && s.fromDocument <= K
    && (forall n :: n in K ==> n in decl && NameOf(decl[n]) == n)
    && (forall n :: n in s.fromDocument ==> SlotOf(s, n) == Holding(decl[n]))
    && (forall n :: n !in s.fromDocument && Shadowed(base, K, n) ==> SlotOf(s, n) == VACANT)
    && (forall n :: n !in s.fromDocument && !Shadowed(base, K, n) ==> SlotOf(s, n) == SlotOf(base, n))
    && (forall n :: n in s.differs <==> Differing(base, K, decl, same, n))
    && (forall w :: w in s.warnings <==> Warned(base, K, decl, same, w))
    && OneEach(s.warnings)
  }

  /** No name of K lies in the scope of n, unless n has been declared too. */
  ghost predicate OutsideIn(K: set<string>, n: string)
  {
    forall m :: m in K && Within(m, n) ==> n in K
  }

  lemma ShadowedMore(base: Reg, K: set<string>, x: string, n: string)
    ensures Shadowed(base, K + {x}, n) <==> Shadowed(base, K, n) || (Known(base, x) && Within(n, x))
  {
    hide Known, Within;
    if Shadowed(base, K, n) {
      var m :| m in K && Known(base, m) && Within(n, m);
      assert m in K + {x};
    }
    if Known(base, x) && Within(n, x) {
      assert x in K + {x};
    }
  }

  /** A name already in a shadowed scope shadows nothing more. */
  lemma ShadowedInside(base: Reg, K: set<string>, x: string, n: string)
    requires Shadowed(base, K, x) && Within(n, x)
    ensures Shadowed(base, K, n)
  {
    var m :| m in K && Known(base, m) && Within(x, m);
    WithinOn(n, x, m);
  }

  lemma OutermostMore(base: Reg, K: set<string>, x: string, m: string)
    requires OutsideIn(K, x)
    ensures !Known(base, x) || Shadowed(base, K, x) ==> (Outermost(base, K + {x}, m) <==> Outermost(base, K, m))
    ensures Known(base, x) && !Shadowed(base, K, x) ==>
              (Outermost(base, K + {x}, m) <==> Outermost(base, K, m) || m == x)
  {
    hide Known, Within;
    var L := K + {x};
    if Outermost(base, K, m) {
      forall o | o in L && Known(base, o) && Within(m, o)
        ensures o == m
      {
      }
      assert Outermost(base, L, m);
    }
    if Outermost(base, L, m) && m != x {
      assert Outermost(base, K, m);
    }
    if Outermost(base, L, x) && Shadowed(base, K, x) {
      var o :| o in K && Known(base, o) && Within(x, o);
      assert o in L;
    }
    if Known(base, x) && !Shadowed(base, K, x) {
      assert forall o :: o in L && Known(base, o) && Within(x, o) ==> o == x;
      assert x in L;
    }
  }

  lemma DifferingMore(base: Reg, K: set<string>, x: string, decl: Declared, same: (Desc, Desc) -> bool, n: string)
    requires OutsideIn(K, x) && x in decl
    ensures !Known(base, x) || Shadowed(base, K, x) ==>
              (Differing(base, K + {x}, decl, same, n) <==> Differing(base, K, decl, same, n))
    ensures Known(base, x) && !Shadowed(base, K, x) ==>
              (Differing(base, K + {x}, decl, same, n) <==>
                Differing(base, K, decl, same, n)
                || (!same(Registered(base, x).value, decl[x]) && n in Names(Whole(Registered(base, x).value))))
  {
    hide Outermost, OutsideIn, Shadowed, Known, Registered, Names, Whole, Within;
    forall m: string
      ensures Outermost(base, K + {x}, m) <==>
                Outermost(base, K, m) || (m == x && Known(base, x) && !Shadowed(base, K, x))
    {
      OutermostMore(base, K, x, m);
    }
  }

  lemma WarnedMore(base: Reg, K: set<string>, x: string, decl: Declared, same: (Desc, Desc) -> bool, w: Warning)
    requires OutsideIn(K, x) && x in decl
    ensures !Known(base, x) || Shadowed(base, K, x) ==>
              (Warned(base, K + {x}, decl, same, w) <==> Warned(base, K, decl, same, w))
    ensures Known(base, x) && !Shadowed(base, K, x) ==>
              (Warned(base, K + {x}, decl, same, w) <==>
                Warned(base, K, decl, same, w)
                || (!same(Registered(base, x).value, decl[x])
                    && w == Differently(x, FileOf(Registered(base, x).value))))
  {
    hide Outermost, OutsideIn, Shadowed, Known, Registered, FileOf, Within;
    forall m: string
      ensures Outermost(base, K + {x}, m) <==>
                Outermost(base, K, m) || (m == x && Known(base, x) && !Shadowed(base, K, x))
    {
      OutermostMore(base, K, x, m);
    }
  }

  /** No warning names what has not been declared. */
  lemma WarnedName(base: Reg, K: set<string>, decl: Declared, same: (Desc, Desc) -> bool, w: Warning)
    requires Warned(base, K, decl, same, w)
    ensures w.name in K
  {
    hide Known, Within, Registered;
  }

  lemma OneEachMore(ws: seq<Warning>, w: Warning)
    requires OneEach(ws) && forall v :: v in ws ==> v.name != w.name
    ensures OneEach(ws + [w])
  {
  }

  lemma KnownSlot(base: Reg, n: string)
    ensures Known(base, n) <==> SlotOf(base, n) != VACANT
  {
  }

  /** Whether shadow finds an external type for a name: it is external, and its scope not yet shadowed. */
  lemma FindsIff(s: Reg, base: Reg, K: set<string>, decl: Declared, same: (Desc, Desc) -> bool, x: string)
    requires Exact(s, base, K, decl, same)
    ensures External(s, x).Some? <==> Known(base, x) && !Shadowed(base, K, x)
    ensures External(s, x).Some? ==> External(s, x) == Registered(base, x)
  {
    hide Differing, Registered, Known, External;
    SlotExternal(s, x);
    KnownSlot(base, x);
    if x in s.fromDocument {
      assert Known(base, x) ==> Shadowed(base, K, x) by {
        assert Within(x, x);
      }
    } else if !Shadowed(base, K, x) {
      SlotRegistered(s, base, x);
    }
  }

  lemma ShadowOneExact(s: Reg, base: Reg, K: set<string>, decl: Declared, same: (Desc, Desc) -> bool, d: Desc)
    requires Universe(base) && Exact(s, base, K, decl, same)
    requires NameOf(d) in decl && decl[NameOf(d)] == d && OutsideIn(K, NameOf(d))
    ensures Exact(ShadowOne(s, d, same), base, K + {NameOf(d)}, decl, same)
    ensures ShadowOne(s, d, same).fromDocument == s.fromDocument
  {
    hide Universe, OutsideIn, Within, Shadowed, Differing, Registered, Known, External, Names, Whole;
    var x := NameOf(d);
    var after := ShadowOne(s, d, same);
    FindsIff(s, base, K, decl, same, x);
    forall n: string
      ensures n !in s.fromDocument && Shadowed(base, K + {x}, n) ==> SlotOf(after, n) == VACANT
      ensures n !in s.fromDocument && !Shadowed(base, K + {x}, n) ==> SlotOf(after, n) == SlotOf(base, n)
      ensures n in s.fromDocument ==> SlotOf(after, n) == SlotOf(s, n)
    {
      SlotAfterOne(s, base, K, decl, same, d, n);
    }
    forall n: string
      ensures n in after.differs <==> Differing(base, K + {x}, decl, same, n)
    {
      DifferingMore(base, K, x, decl, same, n);
    }
    WarningsAfterOne(s, base, K, decl, same, d);
    hide Warned, OneEach;
  }

  lemma WarningsAfterOne(s: Reg, base: Reg, K: set<string>, decl: Declared, same: (Desc, Desc) -> bool, d: Desc)
    requires Exact(s, base, K, decl, same)
    requires NameOf(d) in decl && decl[NameOf(d)] == d && OutsideIn(K, NameOf(d))
    ensures var ws := ShadowOne(s, d, same).warnings;
            (forall w :: w in ws <==> Warned(base, K + {NameOf(d)}, decl, same, w)) && OneEach(ws)
  {
    hide OutsideIn, Within, Shadowed, Differing, Registered, Known, External, Names, Whole, SlotOf, Warned, OneEach;
    var x := NameOf(d);
    FindsIff(s, base, K, decl, same, x);
    forall w: Warning
      ensures w in ShadowOne(s, d, same).warnings <==> Warned(base, K + {x}, decl, same, w)
    {
      WarnedMore(base, K, x, decl, same, w);
    }
    if External(s, x).Some? {
      NotShadowedItself(base, K, x);
      forall v | v in s.warnings
        ensures v.name != x
      {
        WarnedName(base, K, decl, same, v);
      }
      OneEachMore(s.warnings, Differently(x, FileOf(External(s, x).value)));
    }
  }

  lemma SlotAfterOne(s: Reg, base: Reg, K: set<string>, decl: Declared, same: (Desc, Desc) -> bool, d: Desc, n: string)
    requires Universe(base) && Exact(s, base, K, decl, same)
    requires NameOf(d) in decl && decl[NameOf(d)] == d && OutsideIn(K, NameOf(d))
    ensures var after := ShadowOne(s, d, same);
            && (n !in s.fromDocument && Shadowed(base, K + {NameOf(d)}, n) ==> SlotOf(after, n) == VACANT)
            && (n !in s.fromDocument && !Shadowed(base, K + {NameOf(d)}, n) ==> SlotOf(after, n) == SlotOf(base, n))
            && (n in s.fromDocument ==> SlotOf(after, n) == SlotOf(s, n))
  {
    hide Universe, OutsideIn, Within, Shadowed, Differing, Registered, Known, External, Names, Whole;
    var x := NameOf(d);
    FindsIff(s, base, K, decl, same, x);
    ShadowedMore(base, K, x, n);
    if External(s, x).Some? {
      var was := External(s, x).value;
      SlotDrop(s, was, n);
      ScopeIsWhole(base, n, x);
      assert SlotOf(ShadowOne(s, d, same), n) == if n in Names(Whole(was)) then VACANT else SlotOf(s, n);
      if n in s.fromDocument {
        DocumentsStay(s, base, K, decl, same, x, n);
      }
    } else if Known(base, x) && Within(n, x) {
      ShadowedInside(base, K, x, n);
    }
  }

  /** Dropping an external type takes no document's type with it. */
  lemma DocumentsStay(s: Reg, base: Reg, K: set<string>, decl: Declared, same: (Desc, Desc) -> bool, x: string,
                      n: string)
    requires Universe(base) && Exact(s, base, K, decl, same) && OutsideIn(K, x)
    requires Known(base, x) && !Shadowed(base, K, x) && n in s.fromDocument
    ensures n !in Names(Whole(Registered(base, x).value))
  {
    hide Differing, Registered, External;
    if n in Names(Whole(Registered(base, x).value)) {
      WholeIsWithin(base, x, n);
      NotShadowedItself(base, K, x);
    }
  }

  lemma NotShadowedItself(base: Reg, K: set<string>, x: string)
    requires Known(base, x) && !Shadowed(base, K, x)
    ensures x !in K
  {
    assert Within(x, x);
  }

  lemma WholeIsWithin(base: Reg, m: string, n: string)
    requires Universe(base) && Known(base, m) && n in Names(Whole(Registered(base, m).value))
    ensures Within(n, m)
  {
  }

  // ---- Whole runs ----

  /** decl gives each type of ds under its name. */
  ghost predicate Agrees(decl: Declared, ds: seq<Desc>)
  {
    forall k :: 0 <= k < |ds| ==> NameOf(ds[k]) in decl && decl[NameOf(ds[k])] == ds[k]
  }

  /** Declared in this order after K, no scope comes after a name inside it. */
  ghost predicate AllOutsideIn(K: set<string>, ds: seq<Desc>)
    decreases ds
  {
    ds == [] || (OutsideIn(K, NameOf(ds[0])) && AllOutsideIn(K + {NameOf(ds[0])}, ds[1..]))
  }

  lemma {:induction false} ShadowEachExact(s: Reg, base: Reg, K: set<string>, decl: Declared,
                                           same: (Desc, Desc) -> bool, ds: seq<Desc>)
    requires Universe(base) && Exact(s, base, K, decl, same)
    requires Agrees(decl, ds) && AllOutsideIn(K, ds)
    ensures Exact(ShadowEach(s, ds, same), base, K + Names(ds), decl, same)
    ensures ShadowEach(s, ds, same).fromDocument == s.fromDocument
    decreases ds
  {
    hide Universe, Exact, OutsideIn, ShadowOne;
    if ds == [] {
      assert K + Names(ds) == K;
    } else {
      var x := NameOf(ds[0]);
      assert decl[x] == ds[0];
      ShadowOneExact(s, base, K, decl, same, ds[0]);
      assert Agrees(decl, ds[1..]);
      ShadowEachExact(ShadowOne(s, ds[0], same), base, K + {x}, decl, same, ds[1..]);
      NamesRest(ds);
      assert K + {x} + Names(ds[1..]) == K + Names(ds);
    }
  }

  lemma PutOneExact(s: Reg, base: Reg, K: set<string>, decl: Declared, same: (Desc, Desc) -> bool, d: Desc)
    requires Exact(s, base, K, decl, same)
    requires NameOf(d) in K && decl[NameOf(d)] == d
    ensures Exact(Put(s, d).(fromDocument := s.fromDocument + {NameOf(d)}), base, K, decl, same)
  {
    hide Universe, Differing, Known, Within, SlotOf, VACANT;
    var x := NameOf(d);
    var after := Put(s, d).(fromDocument := s.fromDocument + {x});
    SlotBefore(s, base, K, decl, same, d);
    forall n: string
      ensures SlotOf(after, n) == if n == x then Holding(d) else SlotOf(s, n)
    {
      SlotPut(s, d, n);
      SlotMarked(Put(s, d), s.fromDocument + {x}, n);
    }
    assert after.differs == s.differs;
  }

  lemma SlotMarked(s: Reg, marks: set<string>, n: string)
    ensures SlotOf(s.(fromDocument := marks), n) == SlotOf(s, n)
  {
  }

  lemma SlotBefore(s: Reg, base: Reg, K: set<string>, decl: Declared, same: (Desc, Desc) -> bool, d: Desc)
    requires Exact(s, base, K, decl, same)
    requires NameOf(d) in K && decl[NameOf(d)] == d
    ensures SlotOf(s, NameOf(d)) == VACANT || SlotOf(s, NameOf(d)) == Holding(d)
  {
    hide Differing;
    var x := NameOf(d);
    if x !in s.fromDocument && !Shadowed(base, K, x) {
      assert Within(x, x);
      KnownSlot(base, x);
    }
  }

  lemma {:induction false} PutDocumentExact(s: Reg, base: Reg, K: set<string>, decl: Declared,
                                            same: (Desc, Desc) -> bool, ds: seq<Desc>)
    requires Exact(s, base, K, decl, same) && Agrees(decl, ds) && Names(ds) <= K
    ensures Exact(PutDocument(s, ds), base, K, decl, same)
    ensures PutDocument(s, ds).fromDocument == s.fromDocument + Names(ds)
    decreases ds
  {
    hide Exact, Put;
    if ds == [] {
      assert s.fromDocument + Names(ds) == s.fromDocument;
    } else {
      NamesRest(ds);
      PutOneExact(s, base, K, decl, same, ds[0]);
      PutDocumentExact(Put(s, ds[0]).(fromDocument := s.fromDocument + {NameOf(ds[0])}), base, K, decl, same, ds[1..]);
      assert s.fromDocument + {NameOf(ds[0])} + Names(ds[1..]) == s.fromDocument + Names(ds);
    }
  }

  lemma ExactLeaves(s: Reg, base: Reg, K: set<string>, decl: Declared, same: (Desc, Desc) -> bool)
    requires Exact(s, base, K, decl, same)
    ensures LeftOf(s, base)
  {
    hide Differing, Shadowed, SlotOf;
  }

  /** The types that shadow visits and those that walkTypes lists are the same. */
  lemma {:induction false} VisitsAreMessages(ms: seq<MessageType>, d: Desc)
    ensures d in Visits(ms) <==> d in Messages(ms)
    decreases ms
  {
    if ms != [] {
      VisitsAreMessages(ms[0].messages, d);
      VisitsAreMessages(ms[1..], d);
    }
  }

  /** d is an enum or a message declared here, or inside a message declared here. */
  ghost predicate IsDeclared(ms: seq<MessageType>, es: seq<EnumType>, d: Desc)
    decreases ms
  {
    || (d.Enm? && d.e in es)
    || exists i :: 0 <= i < |ms| && (d == Msg(ms[i]) || IsDeclared(ms[i].messages, ms[i].enums, d))
  }

  lemma {:induction false} MessagesAreDeclared(ms: seq<MessageType>, d: Desc)
    ensures d in Messages(ms) <==> exists i :: 0 <= i < |ms| && (d == Msg(ms[i]) || d in Types(Inside(ms[i])))
    decreases ms
  {
    hide Types;
    if ms != [] {
      var rest := ms[1..];
      MessagesAreDeclared(rest, d);
      InsideTypes(ms[0], d);
      assert forall i :: 0 < i < |ms| ==> ms[i] == rest[i - 1];
    }
  }

  lemma InsideTypes(m: MessageType, d: Desc)
    ensures d in Enums(m.enums) + Messages(m.messages) <==> d in Types(Inside(m))
  {
  }

  lemma {:induction false} EnumsAreDeclared(es: seq<EnumType>, d: Desc)
    ensures d in Enums(es) <==> d.Enm? && d.e in es
  {
    if es != [] {
      EnumsAreDeclared(es[1..], d);
    }
  }

  /** The types of a container are those declared in it, nested ones at any depth included. */
  lemma {:induction false} TypesAreDeclared(c: Container, d: Desc)
    ensures d in Types(c) <==> IsDeclared(c.messages, c.enums, d)
    decreases c.messages
  {
    EnumsAreDeclared(c.enums, d);
    MessagesAreDeclared(c.messages, d);
    forall i | 0 <= i < |c.messages|
      ensures d in Types(Inside(c.messages[i])) <==> IsDeclared(c.messages[i].messages, c.messages[i].enums, d)
    {
      TypesAreDeclared(Inside(c.messages[i]), d);
    }
  }

  lemma VisitsAreTypes(c: Container)
    ensures Names(VisitsOf(c)) == Names(Types(c))
    ensures forall decl :: Agrees(decl, Types(c)) ==> Agrees(decl, VisitsOf(c))
  {
    forall d: Desc
      ensures d in VisitsOf(c) <==> d in Types(c)
    {
      VisitsAreMessages(c.messages, d);
    }
    hide VisitsOf, Types;
    SameNames(VisitsOf(c), Types(c));
    forall decl: Declared | Agrees(decl, Types(c))
      ensures Agrees(decl, VisitsOf(c))
    {
      forall k | 0 <= k < |VisitsOf(c)|
        ensures NameOf(VisitsOf(c)[k]) in decl && decl[NameOf(VisitsOf(c)[k])] == VisitsOf(c)[k]
      {
        assert VisitsOf(c)[k] in Types(c);
      }
    }
  }

  lemma SameNames(a: seq<Desc>, b: seq<Desc>)
    requires forall d :: d in a <==> d in b
    ensures Names(a) == Names(b)
  {
    forall n | n in Names(a)
      ensures n in Names(b)
    {
      var k :| 0 <= k < |a| && NameOf(a[k]) == n;
      assert a[k] in b;
    }
    forall n | n in Names(b)
      ensures n in Names(a)
    {
      var k :| 0 <= k < |b| && NameOf(b[k]) == n;
      assert b[k] in a;
    }
  }

  /** The document merges of a run, in order. */
  function Run(s: Reg, docs: seq<Container>, same: (Desc, Desc) -> bool): Reg
    decreases docs
  {
    if docs == [] then s else Run(MergedDocument(s, docs[0], same), docs[1..], same)
  }

  /** Every name the documents declare. */
  function DeclaredBy(docs: seq<Container>): set<string>
  {
    if docs == [] then {} else Names(Types(docs[0])) + DeclaredBy(docs[1..])
  }

  /** decl gives each type the documents declare: one type a name. */
  ghost predicate Declares(decl: Declared, docs: seq<Container>)
  {
    forall i :: 0 <= i < |docs| ==> Agrees(decl, Types(docs[i]))
  }

  /** No clash of scopes: nested types named in their parents' scope, and a scope declared no later than what is in
    * it. */
  ghost predicate Scoped(K: set<string>, docs: seq<Container>)
    decreases docs
  {
    docs == []
    || (&& NamedWithin(docs[0].messages)
        && AllOutsideIn(K, VisitsOf(docs[0]))
        && Scoped(K + Names(VisitsOf(docs[0])), docs[1..]))
  }

  lemma {:induction false} RunOnExact(s: Reg, base: Reg, K: set<string>, docs: seq<Container>, decl: Declared,
                                      same: (Desc, Desc) -> bool)
    requires Universe(base) && Exact(s, base, K, decl, same)
    requires Declares(decl, docs) && Scoped(K, docs)
    ensures Exact(Run(s, docs, same), base, K + DeclaredBy(docs), decl, same)
    ensures Run(s, docs, same).fromDocument == s.fromDocument + DeclaredBy(docs)
    decreases docs
  {
    hide Universe, Exact, NamedWithin, AllOutsideIn, Shadow, VisitsOf, Types, Agrees;
    if docs == [] {
      assert K + DeclaredBy(docs) == K && s.fromDocument + DeclaredBy(docs) == s.fromDocument;
    } else {
      var c := docs[0];
      VisitsAreTypes(c);
      assert Agrees(decl, Types(c));
      ExactLeaves(s, base, K, decl, same);
      ShadowIsEach(s, base, c, same);
      ShadowEachExact(s, base, K, decl, same, VisitsOf(c));
      var L := K + Names(Types(c));
      PutDocumentExact(Shadow(s, c, same), base, L, decl, same, Types(c));
      RunOnExact(MergedDocument(s, c, same), base, L, docs[1..], decl, same);
      assert L + DeclaredBy(docs[1..]) == K + DeclaredBy(docs);
      assert s.fromDocument + Names(Types(c)) + DeclaredBy(docs[1..]) == s.fromDocument + DeclaredBy(docs);
    }
  }

  lemma ExactAtFirst(base: Reg, decl: Declared, same: (Desc, Desc) -> bool)
    requires Universe(base)
    ensures Exact(base, base, {}, decl, same)
  {
    hide Registered, Names, Whole, SlotOf;
  }

  /** After the documents are merged over a universe of externals, every name is exactly settled. */
  lemma RunExact(base: Reg, docs: seq<Container>, decl: Declared, same: (Desc, Desc) -> bool)
    requires Universe(base) && Declares(decl, docs) && Scoped({}, docs)
    ensures var s, K := Run(base, docs, same), DeclaredBy(docs);
            && s.fromDocument == K
            && (forall n :: n in K ==> n in decl && SlotOf(s, n) == Holding(decl[n]))
            && (forall n :: n !in K && Shadowed(base, K, n) ==> SlotOf(s, n) == VACANT)
            && (forall n :: n !in K && !Shadowed(base, K, n) ==> SlotOf(s, n) == SlotOf(base, n))
            && (forall n :: n in s.differs <==> Differing(base, K, decl, same, n))
            && (forall w :: w in s.warnings <==> Warned(base, K, decl, same, w))
            && OneEach(s.warnings)
  {
    hide Differing, Warned, OneEach, Shadowed, SlotOf, Scoped, Declares;
    ExactAtFirst(base, decl, same);
    RunOnExact(base, base, {}, docs, decl, same);
    assert {} + DeclaredBy(docs) == DeclaredBy(docs);
    assert base.fromDocument + DeclaredBy(docs) == DeclaredBy(docs);
    hide Universe;
  }

  /** What Check rejects after a run: a field bound to anything but the document's own
    * definition of a name that lies in a type defined differently. */
  lemma StaleIff(base: Reg, docs: seq<Container>, decl: Declared, same: (Desc, Desc) -> bool, t: Desc)
    requires Universe(base) && Declares(decl, docs) && Scoped({}, docs)
    ensures var s, K, n := Run(base, docs, same), DeclaredBy(docs), NameOf(t);
            Stale(s, t) <==> Differing(base, K, decl, same, n) && !(n in K && n in decl && decl[n] == t)
  {
    RunExact(base, docs, decl, same);
    hide Differing, Shadowed, Scoped, Declares, Run, Universe;
    var s, n := Run(base, docs, same), NameOf(t);
    if n in DeclaredBy(docs) {
      DeclaredNamed(docs, decl, n);
    }
  }

  lemma {:induction false} DeclaredNamed(docs: seq<Container>, decl: Declared, n: string)
    requires Declares(decl, docs) && n in DeclaredBy(docs)
    ensures n in decl && NameOf(decl[n]) == n
  {
    hide Types;
    if n in Names(Types(docs[0])) {
      var k :| 0 <= k < |Types(docs[0])| && NameOf(Types(docs[0])[k]) == n;
      assert Agrees(decl, Types(docs[0]));
    } else {
      assert forall i :: 0 <= i < |docs[1..]| ==> docs[1..][i] == docs[i + 1];
      DeclaredNamed(docs[1..], decl, n);
    }
  }

  // ---- Where the externals come from ----

  /** The external merges of a run, in order. */
  function Externals(s: Reg, files: seq<Container>): Reg
    decreases files
  {
    if files == [] then s else Externals(Merged(s, files[0]), files[1..])
  }

  function AllTypes(files: seq<Container>): seq<Desc>
  {
    if files == [] then [] else Types(files[0]) + AllTypes(files[1..])
  }

  lemma {:induction false} PutAllConcat(s: Reg, a: seq<Desc>, b: seq<Desc>)
    ensures PutAll(s, a + b) == PutAll(PutAll(s, a), b)
    decreases a
  {
    hide Put;
    if a == [] {
      assert a + b == b;
    } else {
      PutAllConcat(Put(s, a[0]), a[1..], b);
      assert (a + b)[1..] == a[1..] + b;
    }
  }

  lemma {:induction false} ExternalsPutAll(s: Reg, files: seq<Container>)
    ensures Externals(s, files) == PutAll(s, AllTypes(files))
    decreases files
  {
    hide Types;
    if files != [] {
      ExternalsPutAll(Merged(s, files[0]), files[1..]);
      PutAllConcat(s, Types(files[0]), AllTypes(files[1..]));
    }
  }

  lemma {:induction false} PutAllSlots(s: Reg, ds: seq<Desc>, decl: Declared, n: string)
    requires Agrees(decl, ds)
    requires forall x :: SlotOf(s, x) == VACANT || (x in decl && SlotOf(s, x) == Holding(decl[x]))
    ensures SlotOf(PutAll(s, ds), n) == if n in Names(ds) then Holding(decl[n]) else SlotOf(s, n)
    ensures PutAll(s, ds).fromDocument == s.fromDocument && PutAll(s, ds).differs == s.differs
    ensures PutAll(s, ds).warnings == s.warnings
    decreases ds
  {
    hide SlotOf, Put;
    if ds != [] {
      var next := Put(s, ds[0]);
      assert decl[NameOf(ds[0])] == ds[0];
      forall x: string
        ensures SlotOf(next, x) == if x == NameOf(ds[0]) then Holding(ds[0]) else SlotOf(s, x)
      {
        SlotPut(s, ds[0], x);
      }
      PutAllSlots(next, ds[1..], decl, n);
      NamesRest(ds);
      PutKeeps(s, ds[0]);
    }
  }

  lemma PutKeeps(s: Reg, d: Desc)
    ensures Put(s, d).fromDocument == s.fromDocument && Put(s, d).differs == s.differs
    ensures Put(s, d).warnings == s.warnings
  {
  }

  /** One type a name, and a scope's names the message's own: a type's names are those in its scope. */
  ghost predicate OneUniverse(ds: seq<Desc>, decl: Declared)
  {
    && Agrees(decl, ds)
    && forall k, n :: 0 <= k < |ds| ==> (n in Names(Whole(ds[k])) <==> n in Names(ds) && Within(n, NameOf(ds[k])))
  }

  /** External files of one linked universe leave a registry that documents can shadow exactly. */
  lemma ExternalsAreUniverse(files: seq<Container>, decl: Declared)
    requires OneUniverse(AllTypes(files), decl)
    ensures Universe(Externals(EMPTY, files))
    ensures forall n :: Known(Externals(EMPTY, files), n) <==> n in Names(AllTypes(files))
  {
    var base, ds := Externals(EMPTY, files), AllTypes(files);
    ExternalsPutAll(EMPTY, files);
    hide Externals, AllTypes, Names, Whole, Within, PutAll;
    forall n: string | n in Names(ds)
      ensures n in decl && NameOf(decl[n]) == n
      ensures exists k :: 0 <= k < |ds| && ds[k] == decl[n]
    {
      var k := InNames(ds, n);
      assert ds[k] == decl[n];
    }
    forall n: string
      ensures SlotOf(base, n) == if n in Names(ds) then Holding(decl[n]) else VACANT
    {
      PutAllSlots(EMPTY, ds, decl, n);
    }
    PutAllSlots(EMPTY, ds, decl, "");
    forall n: string
      ensures Registered(base, n).Some? <==> n in Names(ds)
      ensures n in Names(ds) ==> Registered(base, n) == Some(decl[n])
    {
      KnownSlot(base, n);
    }
    forall n: string, m: string | Registered(base, m).Some?
      ensures n in Names(Whole(Registered(base, m).value)) <==> Registered(base, n).Some? && Within(n, m)
    {
      var k := InNames(ds, m);
      assert ds[k] == decl[m];
      assert n in Names(Whole(ds[k])) <==> n in Names(ds) && Within(n, m);
    }
  }

  lemma InNames(ds: seq<Desc>, n: string) returns (k: nat)
    requires n in Names(ds)
    ensures k < |ds| && NameOf(ds[k]) == n
  {
    var i :| 0 <= i < |ds| && NameOf(ds[i]) == n;
    k := i;
  }

  // ---- When nested types outlive their shadowed scope ----

  /** The names of some types and of all that is nested in them. */
  function Gone(ds: seq<Desc>): set<string>
  {
    if ds == [] then {} else Names(Whole(ds[0])) + Gone(ds[1..])
  }

  lemma {:induction false} GoneConcat(a: seq<Desc>, b: seq<Desc>)
    ensures Gone(a + b) == Gone(a) + Gone(b)
  {
    hide Names, Whole;
    if a == [] {
      assert a + b == b;
    } else {
      GoneConcat(a[1..], b);
      assert (a + b)[1..] == a[1..] + b;
    }
  }

  /** Replacing one type clears its whole scope exactly when every known name of the scope is nested in the type
    * itself. */
  lemma ScopeGoesIff(base: Reg, d: Desc, same: (Desc, Desc) -> bool)
    requires base.fromDocument == {} && Known(base, NameOf(d))
    ensures (forall n :: Within(n, NameOf(d)) ==> SlotOf(ShadowOne(base, d, same), n) == VACANT)
       <==> (forall n :: Within(n, NameOf(d)) && Known(base, n) ==>
           n in Names(Whole(Registered(base, NameOf(d)).value)))
  {
    hide Names, Whole, Within, SlotOf, Registered, Known;
    var x := NameOf(d);
    KnownIs(base, x);
    var was := Registered(base, x).value;
    SlotExternal(base, x);
    KnownSlot(base, x);
    forall n: string
      ensures SlotOf(ShadowOne(base, d, same), n) == if n in Names(Whole(was)) then VACANT else SlotOf(base, n)
      ensures Known(base, n) <==> SlotOf(base, n) != VACANT
    {
      SlotDrop(base, was, n);
      SlotReplaced(base, was, d, same, n);
      KnownSlot(base, n);
    }
  }

  lemma KnownIs(base: Reg, n: string)
    ensures Known(base, n) <==> Registered(base, n).Some?
  {
  }

  lemma SlotReplaced(s: Reg, was: Desc, d: Desc, same: (Desc, Desc) -> bool, n: string)
    ensures SlotOf(Replace(s, was, d, same), n) == SlotOf(Drop(s, was), n)
    ensures Replace(s, was, d, same).fromDocument == s.fromDocument
  {
    hide Names, Whole;
  }

  /** The external types that shadowing a container replaces, in order. */
  function ReplacedMessages(s: Reg, ms: seq<MessageType>, same: (Desc, Desc) -> bool): seq<Desc>
    decreases ms
  {
    if ms == [] then []
    else
      var m := ms[0];
      match External(s, m.name)
      case Some(was) => [was] + ReplacedMessages(Replace(s, was, Msg(m), same), ms[1..], same)
      case None =>
        var inside := ShadowMessages(s, m.messages, same);
        ReplacedMessages(s, m.messages, same) + ReplacedEnums(inside, m.enums, same)
        + ReplacedMessages(ShadowEnums(inside, m.enums, same), ms[1..], same)
  }

  function ReplacedEnums(s: Reg, es: seq<EnumType>, same: (Desc, Desc) -> bool): seq<Desc>
    decreases es
  {
    if es == [] then []
    else
      match External(s, es[0].name)
      case None => ReplacedEnums(s, es[1..], same)
      case Some(was) => [was] + ReplacedEnums(Replace(s, was, Enm(es[0]), same), es[1..], same)
  }

  function ReplacedIn(s: Reg, c: Container, same: (Desc, Desc) -> bool): seq<Desc>
  {
    ReplacedMessages(s, c.messages, same) + ReplacedEnums(ShadowMessages(s, c.messages, same), c.enums, same)
  }

  /** The external types that the documents of a run replace. */
  function ReplacedBy(s: Reg, docs: seq<Container>, same: (Desc, Desc) -> bool): seq<Desc>
    decreases docs
  {
    if docs == [] then []
        else ReplacedIn(s, docs[0], same) + ReplacedBy(MergedDocument(s, docs[0], same), docs[1..], same)
  }

  /** after is s without the names gone. */
  ghost predicate Without(after: Reg, s: Reg, gone: set<string>)
  {
    && after.fromDocument == s.fromDocument
    && forall n :: SlotOf(after, n) == if n in gone then VACANT else SlotOf(s, n)
  }

  lemma WithoutOn(a: Reg, b: Reg, c: Reg, g: set<string>, h: set<string>)
    requires Without(b, a, g) && Without(c, b, h)
    ensures Without(c, a, g + h)
  {
    hide SlotOf;
  }

  lemma WithoutOne(s: Reg, was: Desc, d: Desc, same: (Desc, Desc) -> bool)
    ensures Without(Replace(s, was, d, same), s, Gone([was]))
  {
    assert [was][1..] == [] && Gone([]) == {};
    hide SlotOf, Names, Whole;
    assert Gone([was]) == Names(Whole(was));
    SlotReplaced(s, was, d, same, "");
    forall n: string
      ensures SlotOf(Replace(s, was, d, same), n) == if n in Names(Whole(was)) then VACANT else SlotOf(s, n)
    {
      SlotDrop(s, was, n);
      SlotReplaced(s, was, d, same, n);
    }
  }

  lemma WithoutNone(s: Reg)
    ensures Without(s, s, Gone([]))
  {
  }

  lemma {:induction false} EnumsWithout(s: Reg, es: seq<EnumType>, same: (Desc, Desc) -> bool)
    ensures Without(ShadowEnums(s, es, same), s, Gone(ReplacedEnums(s, es, same)))
    decreases es
  {
    hide Replace, External, Without, Gone;
    if es == [] {
      WithoutNone(s);
    } else {
      match External(s, es[0].name) {
        case None => EnumsWithout(s, es[1..], same);
        case Some(was) =>
          var next := Replace(s, was, Enm(es[0]), same);
          WithoutOne(s, was, Enm(es[0]), same);
          EnumsWithout(next, es[1..], same);
          WithoutOn(s, next, ShadowEnums(next, es[1..], same), Gone([was]), Gone(ReplacedEnums(next, es[1..], same)));
          GoneConcat([was], ReplacedEnums(next, es[1..], same));
      }
    }
  }

  lemma {:induction false} MessagesWithout(s: Reg, ms: seq<MessageType>, same: (Desc, Desc) -> bool)
    ensures Without(ShadowMessages(s, ms, same), s, Gone(ReplacedMessages(s, ms, same)))
    decreases ms
  {
    hide Replace, External, Without, Gone;
    if ms == [] {
      WithoutNone(s);
    } else {
      var m := ms[0];
      match External(s, m.name) {
        case Some(was) =>
          var next := Replace(s, was, Msg(m), same);
          WithoutOne(s, was, Msg(m), same);
          MessagesWithout(next, ms[1..], same);
          WithoutOn(s, next, ShadowMessages(next, ms[1..], same), Gone([was]),
              Gone(ReplacedMessages(next, ms[1..], same)));
          GoneConcat([was], ReplacedMessages(next, ms[1..], same));
        case None =>
          var inside := ShadowMessages(s, m.messages, same);
          var next := ShadowEnums(inside, m.enums, same);
          var a, b := ReplacedMessages(s, m.messages, same), ReplacedEnums(inside, m.enums, same);
          var c := ReplacedMessages(next, ms[1..], same);
          MessagesWithout(s, m.messages, same);
          EnumsWithout(inside, m.enums, same);
          WithoutOn(s, inside, next, Gone(a), Gone(b));
          MessagesWithout(next, ms[1..], same);
          WithoutOn(s, next, ShadowMessages(next, ms[1..], same), Gone(a) + Gone(b), Gone(c));
          GoneConcat(a, b);
          GoneConcat(a + b, c);
      }
    }
  }

  lemma ContainerWithout(s: Reg, c: Container, same: (Desc, Desc) -> bool)
    ensures Without(Shadow(s, c, same), s, Gone(ReplacedIn(s, c, same)))
  {
    hide Without, Gone;
    var inside := ShadowMessages(s, c.messages, same);
    MessagesWithout(s, c.messages, same);
    EnumsWithout(inside, c.enums, same);
    hide ShadowMessages, ShadowEnums, ReplacedMessages, ReplacedEnums;
    WithoutOn(s, inside, Shadow(s, c, same), Gone(ReplacedMessages(s, c.messages, same)),
        Gone(ReplacedEnums(inside, c.enums, same)));
    GoneConcat(ReplacedMessages(s, c.messages, same), ReplacedEnums(inside, c.enums, same));
  }

  lemma {:induction false} PutLeaves(s: Reg, ds: seq<Desc>, n: string)
    requires n !in Names(ds)
    ensures SlotOf(PutDocument(s, ds), n) == SlotOf(s, n)
    decreases ds
  {
    if ds != [] {
      NamesRest(ds);
      hide SlotOf, Put;
      SlotPutOther(s, ds[0], n);
      SlotMarked(Put(s, ds[0]), s.fromDocument + {NameOf(ds[0])}, n);
      PutLeaves(Put(s, ds[0]).(fromDocument := s.fromDocument + {NameOf(ds[0])}), ds[1..], n);
    }
  }

  lemma SlotPutOther(s: Reg, d: Desc, n: string)
    requires n != NameOf(d)
    ensures SlotOf(Put(s, d), n) == SlotOf(s, n)
  {
  }

  /** Over any registry, a name the documents do not declare is lost exactly when it is that of a replaced
    * type or nested in one, whatever scopes it lies in. */
  lemma {:induction false} RunLeaves(s: Reg, docs: seq<Container>, same: (Desc, Desc) -> bool, n: string)
    requires n !in DeclaredBy(docs)
    ensures SlotOf(Run(s, docs, same), n) == if n in Gone(ReplacedBy(s, docs, same)) then VACANT else SlotOf(s, n)
    decreases docs
  {
    hide SlotOf, Gone, Names, Types, Shadow, ReplacedIn;
    if docs == [] {
      assert Gone([]) == {} by {
        WithoutNothing();
      }
    } else {
      var c := docs[0];
      var next := MergedDocument(s, c, same);
      ContainerWithout(s, c, same);
      PutLeaves(Shadow(s, c, same), Types(c), n);
      RunLeaves(next, docs[1..], same, n);
      GoneConcat(ReplacedIn(s, c, same), ReplacedBy(next, docs[1..], same));
    }
  }

  lemma WithoutNothing()
    ensures Gone([]) == {}
  {
  }

  /** n lies in the scope of one of ds. */
  ghost predicate InScopes(ds: seq<Desc>, n: string)
  {
    exists i :: 0 <= i < |ds| && Within(n, NameOf(ds[i]))
  }

  /** Over any registry and documents, the scopes of the replaced types are cleared, but for what the documents
    * declare, exactly when every other known name in them is nested in a replaced type. */
  lemma RunScopesGoIff(s: Reg, docs: seq<Container>, same: (Desc, Desc) -> bool)
    ensures var replaced, K := ReplacedBy(s, docs, same), DeclaredBy(docs);
            ((forall n :: InScopes(replaced, n) && n !in K ==> SlotOf(Run(s, docs, same), n) == VACANT)
             <==> (forall n :: InScopes(replaced, n) && n !in K && Known(s, n) ==> n in Gone(replaced)))
  {
    hide SlotOf, Gone, ReplacedBy, Run, DeclaredBy, InScopes, Known;
    forall n | n !in DeclaredBy(docs)
      ensures SlotOf(Run(s, docs, same), n) == if n in Gone(ReplacedBy(s, docs, same)) then VACANT else SlotOf(s, n)
      ensures Known(s, n) <==> SlotOf(s, n) != VACANT
    {
      RunLeaves(s, docs, same, n);
      KnownSlot(s, n);
    }
  }

  /** A message that declares nothing, of a file of its own. */
  function Plain(id: nat, file: string, name: string): MessageType
  {
    MessageType(id, file, name, [], [])
  }

  function FileWith(m: MessageType): Container
  {
    Container([], [m])
  }

  lemma OneTypeReplaced(base: Reg, m: MessageType, same: (Desc, Desc) -> bool)
    requires base.fromDocument == {} && Known(base, m.name)
    ensures ReplacedBy(base, [FileWith(m)], same) == [Registered(base, m.name).value]
  {
    var was := Registered(base, m.name).value;
    var next := Replace(base, was, Msg(m), same);
    hide Replace, Registered, Names, Whole;
    assert [m][1..] == [] && [FileWith(m)][1..] == [];
    assert External(base, m.name) == Some(was);
    assert ReplacedMessages(next, [], same) == [];
    assert ReplacedMessages(base, [m], same) == [was] + [];
    assert ReplacedEnums(ShadowMessages(base, [m], same), [], same) == [];
    assert ReplacedIn(base, FileWith(m), same) == [was] + [];
  }

  /** A document of one message clears the message's scope, but for what it declares, exactly when every other
    * known name of the scope is nested in the external type registered last under the message's name. */
  lemma OneTypeGoesIff(base: Reg, m: MessageType, same: (Desc, Desc) -> bool)
    requires base.fromDocument == {} && Known(base, m.name)
    ensures var K := DeclaredBy([FileWith(m)]);
            ((forall n :: Within(n, m.name) && n !in K ==> SlotOf(Run(base, [FileWith(m)], same), n) == VACANT)
             <==> (forall n :: Within(n, m.name) && n !in K && Known(base, n) ==>
                 n in Names(Whole(Registered(base, m.name).value))))
  {
    OneTypeReplaced(base, m, same);
    var was := Registered(base, m.name).value;
    assert Gone([was]) == Names(Whole(was)) by {
      assert [was][1..] == [] && Gone([]) == {};
    }
    hide SlotOf, Gone, ReplacedBy, Run, DeclaredBy, Known, Within, Names, Whole, Registered;
    forall n | n !in DeclaredBy([FileWith(m)])
      ensures SlotOf(Run(base, [FileWith(m)], same), n) == if n in Names(Whole(was)) then VACANT else SlotOf(base, n)
      ensures Known(base, n) <==> SlotOf(base, n) != VACANT
    {
      RunLeaves(base, [FileWith(m)], same, n);
      KnownSlot(base, n);
    }
  }

  lemma TwoMerged(outer: MessageType, inner: MessageType, again: MessageType)
    requires inner == Plain(inner.id, inner.file, "A.X") && again == Plain(again.id, again.file, "A")
    requires outer == MessageType(outer.id, outer.file, "A", [], [inner])
    ensures var s := Externals(EMPTY, [FileWith(outer), FileWith(again)]);
            s.messages == map["A" := again, "A.X" := inner] && s.enums == map[] && s.fromDocument == {}
  {
    Alone(outer, inner);
    Bare(again);
    PutPair(EMPTY, Msg(outer), Msg(inner));
    var s1 := Put(Put(EMPTY, Msg(outer)), Msg(inner));
    PutSingle(s1, Msg(again));
    assert [FileWith(outer), FileWith(again)][1..] == [FileWith(again)];
    assert [FileWith(again)][1..] == [];
    assert Externals(EMPTY, [FileWith(outer), FileWith(again)]) == Externals(s1, [FileWith(again)])
             == Externals(Put(s1, Msg(again)), []);
  }

  lemma ReplacedAlone(s: Reg, again: MessageType, mine: MessageType, inner: MessageType, same: (Desc, Desc) -> bool)
    requires s.messages == map["A" := again, "A.X" := inner] && s.enums == map[] && s.fromDocument == {}
    requires again == Plain(again.id, again.file, "A") && mine == Plain(mine.id, mine.file, "A")
    ensures Shadow(s, FileWith(mine), same).messages == map["A.X" := inner]
    ensures Shadow(s, FileWith(mine), same).enums == map[]
  {
    assert Whole(Msg(again)) == [Msg(again)];
    NamesRest([Msg(again)]);
    assert [Msg(again)][1..] == [] && Names([]) == {};
    assert [mine][1..] == [];
    assert ShadowMessages(s, [mine], same) == ShadowMessages(Replace(s, Msg(again), Msg(mine), same), [], same);
  }

  lemma DocumentAlone(s: Reg, mine: MessageType)
    requires mine == Plain(mine.id, mine.file, "A")
    ensures PutDocument(s, [Msg(mine)]).messages == s.messages["A" := mine]
    ensures PutDocument(s, [Msg(mine)]).enums == s.enums
  {
    assert [Msg(mine)][1..] == [];
    assert PutDocument(s, [Msg(mine)]) == PutDocument(Put(s, Msg(mine)).(fromDocument := s.fromDocument + {"A"}), []);
  }

  /** Two external definitions of one name: what only the first nests outlives the shadowing of both. */
  lemma TwoExternalsLeaveOne(same: (Desc, Desc) -> bool)
    ensures var inner := Plain(1, "p.proto", "A.X");
            var first := FileWith(MessageType(0, "p.proto", "A", [], [inner]));
            var second, doc := FileWith(Plain(2, "q.proto", "A")), FileWith(Plain(3, "doc.proto", "A"));
            SlotOf(Run(Externals(EMPTY, [first, second]), [doc], same), "A.X") == Slot(Some(inner), None)
  {
    var inner, again, mine := Plain(1, "p.proto", "A.X"), Plain(2, "q.proto", "A"), Plain(3, "doc.proto", "A");
    var outer := MessageType(0, "p.proto", "A", [], [inner]);
    TwoMerged(outer, inner, again);
    Bare(mine);
    var s := Externals(EMPTY, [FileWith(outer), FileWith(again)]);
    ReplacedAlone(s, again, mine, inner, same);
    DocumentAlone(Shadow(s, FileWith(mine), same), mine);
    hide Externals, Shadow, PutDocument, Types;
    assert [FileWith(mine)][1..] == [];
    assert Run(s, [FileWith(mine)], same) == Run(MergedDocument(s, FileWith(mine), same), [], same);
  }

  lemma Bare(m: MessageType)
    requires m.enums == [] && m.messages == []
    ensures Types(Container([], [m])) == [Msg(m)]
  {
    assert Messages([m]) == [Msg(m)] + (Enums([]) + Messages([])) + Messages([m][1..]);
  }

  lemma Alone(m: MessageType, inner: MessageType)
    requires m.enums == [] && m.messages == [inner] && inner.enums == [] && inner.messages == []
    ensures Types(Container([], [m])) == [Msg(m), Msg(inner)]
  {
    Bare(inner);
    assert Messages([m]) == [Msg(m)] + (Enums([]) + Messages([inner])) + Messages([m][1..]);
  }

  lemma PutSingle(s: Reg, d: Desc)
    ensures PutAll(s, [d]) == Put(s, d)
  {
    assert [d][1..] == [];
  }

  lemma PutPair(s: Reg, d: Desc, e: Desc)
    ensures PutAll(s, [d, e]) == Put(Put(s, d), e)
  {
    assert [d, e][1..] == [e];
    PutSingle(Put(s, d), e);
  }
}
