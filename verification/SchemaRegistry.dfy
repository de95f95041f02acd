/** The registry of message and enum descriptors (internal/schemaresolve/schemaresolve.go:45-255,320-355). */
module SchemaRegistry {
  import opened Options

  /** A descriptor stands for its identity: two files' definitions differ in file or id. */
  datatype EnumType = EnumType(id: nat, file: string, name: string)

  datatype MessageType = MessageType(id: nat, file: string, name: string, enums: seq<EnumType>,
                                     messages: seq<MessageType>)

  datatype Desc = Msg(m: MessageType) | Enm(e: EnumType)

  /** What declares messages and enums: a file, or the inside of a message. */
  datatype Container = Container(enums: seq<EnumType>, messages: seq<MessageType>)

  function NameOf(d: Desc): string
  {
    match d
    case Msg(m) => m.name
    case Enm(e) => e.name
  }

  function FileOf(d: Desc): string
  {
    match d
    case Msg(m) => m.file
    case Enm(e) => e.file
  }

  function Enums(es: seq<EnumType>): (s: seq<Desc>)
    ensures |s| == |es|
  {
    if es == [] then [] else [Enm(es[0])] + Enums(es[1..])
  }

  /** walkTypes on messages: each, then what it declares. */
  function Messages(ms: seq<MessageType>): seq<Desc>
    decreases ms
  {
    if ms == [] then []
    else [Msg(ms[0])] + (Enums(ms[0].enums) + Messages(ms[0].messages)) + Messages(ms[1..])
  }

  /** walkTypes: every message and enum declared, nested ones included. */
  function Types(c: Container): seq<Desc>
  {
    Enums(c.enums) + Messages(c.messages)
  }

  function Inside(m: MessageType): Container
  {
    Container(m.enums, m.messages)
  }

  /** A descriptor and every type nested in it. */
  function Whole(d: Desc): seq<Desc>
  {
    match d
    case Msg(m) => [d] + Types(Inside(m))
    case Enm(_) => [d]
  }

  function Names(ds: seq<Desc>): set<string>
  {
    set k | 0 <= k < |ds| :: NameOf(ds[k])
  }

  datatype Warning = Differently(name: string, file: string)

  datatype Reg = Reg(
    messages: map<string, MessageType>,
    enums: map<string, EnumType>,
    fromDocument: set<string>,
    differs: set<string>,
    warnings: seq<Warning>)

  const EMPTY := Reg(map[], map[], {}, {}, [])

  // ---- The steps ----

  function Put(s: Reg, d: Desc): Reg
  {
    match d
    case Msg(m) => s.(messages := s.messages[m.name := m])
    case Enm(e) => s.(enums := s.enums[e.name := e])
  }

  function PutAll(s: Reg, ds: seq<Desc>): Reg
    decreases ds
  {
    if ds == [] then s else PutAll(Put(s, ds[0]), ds[1..])
  }

  function PutDocument(s: Reg, ds: seq<Desc>): Reg
    decreases ds
  {
    if ds == [] then s
    else PutDocument(Put(s, ds[0]).(fromDocument := s.fromDocument + {NameOf(ds[0])}), ds[1..])
  }

  function Registered(s: Reg, name: string): Option<Desc>
  {
    if name in s.messages then Some(Msg(s.messages[name]))
    else if name in s.enums then Some(Enm(s.enums[name]))
    else None
  }

  function External(s: Reg, name: string): Option<Desc>
  {
    if name in s.fromDocument then None else Registered(s, name)
  }

  function Drop(s: Reg, d: Desc): Reg
  {
    var gone := Names(Whole(d));
    s.(messages := s.messages - gone, enums := s.enums - gone)
  }

  /** The document's d in place of the external old. */
  function Replace(s: Reg, was: Desc, d: Desc, same: (Desc, Desc) -> bool): Reg
  {
    var dropped := Drop(s, was);
    if same(was, d) then dropped
    else dropped.(warnings := s.warnings + [Differently(NameOf(d), FileOf(was))],
        differs := s.differs + Names(Whole(was)))
  }

  function ShadowMessages(s: Reg, ms: seq<MessageType>, same: (Desc, Desc) -> bool): Reg
    decreases ms
  {
    if ms == [] then s
    else
      var next := match External(s, ms[0].name)
                  case None => ShadowEnums(ShadowMessages(s, ms[0].messages, same), ms[0].enums, same)
                  case Some(was) => Replace(s, was, Msg(ms[0]), same);
      ShadowMessages(next, ms[1..], same)
  }

  function ShadowEnums(s: Reg, es: seq<EnumType>, same: (Desc, Desc) -> bool): Reg
    decreases es
  {
    if es == [] then s
    else
      var next := match External(s, es[0].name)
                  case None => s
                  case Some(was) => Replace(s, was, Enm(es[0]), same);
      ShadowEnums(next, es[1..], same)
  }

  function Shadow(s: Reg, c: Container, same: (Desc, Desc) -> bool): Reg
  {
    ShadowEnums(ShadowMessages(s, c.messages, same), c.enums, same)
  }

  function Merged(s: Reg, c: Container): Reg
  {
    PutAll(s, Types(c))
  }

  function MergedDocument(s: Reg, c: Container, same: (Desc, Desc) -> bool): Reg
  {
    PutDocument(Shadow(s, c, same), Types(c))
  }

  predicate IsDocumentIn(s: Reg, d: Desc)
  {
    && NameOf(d) in s.fromDocument
    && match d
       case Msg(m) => m.name in s.messages && s.messages[m.name] == m
       case Enm(e) => e.name in s.enums && s.enums[e.name] == e
  }

  // ---- What Check looks for ----

  /** The type each field of a message holds, in order: None for a scalar, a map's value type for a map. */
  type Links = MessageType -> seq<Option<Desc>>

  /** A field still bound to an external type that a document redefined differently. */
  predicate Stale(s: Reg, t: Desc)
  {
    NameOf(t) in s.differs && !IsDocumentIn(s, t)
  }

  /** Each message of p has a field that holds the next. */
  ghost predicate FieldPath(links: Links, p: seq<MessageType>)
  {
    p != [] && forall k :: 0 <= k < |p| - 1 ==> Some(Msg(p[k + 1])) in links(p[k])
  }

  ghost predicate Reaches(links: Links, a: MessageType, b: MessageType)
  {
    exists p :: FieldPath(links, p) && p[0] == a && p[|p| - 1] == b
  }

  /** A message reachable from md has a stale field. */
  ghost predicate Disagrees(s: Reg, links: Links, md: MessageType)
  {
    exists m: MessageType, i: nat ::
        Reaches(links, md, m) && i < |links(m)| && links(m)[i].Some? && Stale(s, links(m)[i].value)
  }

  /** all is one linked universe: closed under fields, one descriptor per name. */
  ghost predicate Linked(links: Links, all: set<MessageType>)
  {
    && (forall m, i :: m in all && 0 <= i < |links(m)| && links(m)[i].Some? && links(m)[i].value.Msg? ==>
         links(m)[i].value.m in all)
    && forall m, n :: m in all && n in all && m.name == n.name ==> m == n
  }

  lemma ReachesNext(links: Links, a: MessageType, b: MessageType, i: nat)
    requires i < |links(a)| && links(a)[i] == Some(Msg(b))
    ensures Reaches(links, a, b)
  {
    assert FieldPath(links, [a, b]);
  }

  lemma ReachesOn(links: Links, a: MessageType, b: MessageType, c: MessageType)
    requires Reaches(links, a, b) && Reaches(links, b, c)
    ensures Reaches(links, a, c)
  {
    var p :| FieldPath(links, p) && p[0] == a && p[|p| - 1] == b;
    var q :| FieldPath(links, q) && q[0] == b && q[|q| - 1] == c;
    var r := p + q[1..];
    forall k | 0 <= k < |r| - 1
      ensures Some(Msg(r[k + 1])) in links(r[k])
    {
      if k >= |p| - 1 {
        assert r[k] == q[k - |p| + 1] && r[k + 1] == q[k - |p| + 2];
      }
    }
    assert FieldPath(links, r) && r[0] == a && r[|r| - 1] == c;
  }

  lemma ReachesSelf(links: Links, a: MessageType)
    ensures Reaches(links, a, a)
  {
    assert FieldPath(links, [a]);
  }

  /** Visited messages whose names were not in before: no stale field, and their fields' messages visited. */
  ghost predicate Clean(s: Reg, links: Links, all: set<MessageType>, before: set<string>, seen: set<string>)
  {
    forall m, i :: m in all && m.name in seen && m.name !in before && 0 <= i < |links(m)| && links(m)[i].Some? ==>
      !Stale(s, links(m)[i].value) && (links(m)[i].value.Msg? ==> links(m)[i].value.m.name in seen)
  }

  lemma CleanReaches(s: Reg, links: Links, all: set<MessageType>, seen: set<string>, p: seq<MessageType>)
    requires Linked(links, all) && Clean(s, links, all, {}, seen)
    requires FieldPath(links, p) && p[0] in all && p[0].name in seen
    ensures forall k :: 0 <= k < |p| ==> p[k] in all && p[k].name in seen
  {
    if |p| > 1 {
      var last := |p| - 1;
      CleanReaches(s, links, all, seen, p[..last]);
      assert p[last - 1] == p[..last][last - 1];
      var i :| 0 <= i < |links(p[last - 1])| && links(p[last - 1])[i] == Some(Msg(p[last]));
      assert p[last] in all && p[last].name in seen;
      assert forall k :: 0 <= k < last ==> p[k] == p[..last][k];
    }
  }

  lemma CleanAgrees(s: Reg, links: Links, all: set<MessageType>, seen: set<string>, md: MessageType)
    requires Linked(links, all) && Clean(s, links, all, {}, seen) && md in all && md.name in seen
    ensures !Disagrees(s, links, md)
  {
    forall m: MessageType, i: nat | Reaches(links, md, m) && i < |links(m)| && links(m)[i].Some?
      ensures !Stale(s, links(m)[i].value)
    {
      var p :| FieldPath(links, p) && p[0] == md && p[|p| - 1] == m;
      CleanReaches(s, links, all, seen, p);
      assert m in all && m.name in seen;
    }
  }

  /** What the report names: the message and its field's type. */
  datatype Report = Report(holder: MessageType, field: nat)

  ghost predicate Reported(s: Reg, links: Links, md: MessageType, r: Report)
  {
    && Reaches(links, md, r.holder) && r.field < |links(r.holder)|
    && links(r.holder)[r.field].Some? && Stale(s, links(r.holder)[r.field].value)
  }

  class Registry {
    var messages: map<string, MessageType>
    var enums: map<string, EnumType>
    var fromDocument: set<string>
    var differs: set<string>
    var warnings: seq<Warning>

    function State(): Reg
      reads this
    {
      Reg(messages, enums, fromDocument, differs, warnings)
    }

    constructor ()
      ensures State() == EMPTY
    {
      messages, enums, fromDocument, differs, warnings := map[], map[], {}, {}, [];
    }

    method PutType(d: Desc)
      modifies this
      ensures State() == Put(old(State()), d)
    {
      match d {
        case Msg(m) => messages := messages[m.name := m];
        case Enm(e) => enums := enums[e.name := e];
      }
    }

    /** Merge: an external file. */
    method Merge(c: Container)
      modifies this
      ensures State() == Merged(old(State()), c)
    {
      hide Put;
      var ds := Types(c);
      var i := 0;
      assert ds[0..] == ds;
      while i < |ds|
        invariant i <= |ds|
        invariant PutAll(State(), ds[i..]) == Merged(old(State()), c)
      {
        assert ds[i..][1..] == ds[i + 1..];
        PutType(ds[i]);
        i := i + 1;
      }
    }

    /** mergeDocument: a file a document's own @proto defined. */
    method MergeDocument(c: Container, same: (Desc, Desc) -> bool)
      modifies this
      ensures State() == MergedDocument(old(State()), c, same)
    {
      hide ShadowMessages, ShadowEnums;
      ShadowIn(c, same);
      var ds := Types(c);
      var i := 0;
      assert ds[0..] == ds;
      while i < |ds|
        invariant i <= |ds|
        invariant PutDocument(State(), ds[i..]) == MergedDocument(old(State()), c, same)
      {
        assert ds[i..][1..] == ds[i + 1..];
        PutType(ds[i]);
        fromDocument := fromDocument + {NameOf(ds[i])};
        i := i + 1;
      }
    }

    method FindExternal(name: string) returns (d: Option<Desc>)
      ensures d == External(State(), name)
    {
      if name in fromDocument {
        return None;
      }
      if name in messages {
        return Some(Msg(messages[name]));
      }
      if name in enums {
        return Some(Enm(enums[name]));
      }
      d := None;
    }

    /** drop: d and every type nested in it. */
    method DropType(d: Desc)
      modifies this
      ensures State() == Drop(old(State()), d)
    {
      var ds := Whole(d);
      var i := 0;
      while i < |ds|
        invariant i <= |ds|
        invariant messages == old(messages) - Names(ds[..i]) && enums == old(enums) - Names(ds[..i])
        invariant fromDocument == old(fromDocument) && differs == old(differs) && warnings == old(warnings)
      {
        NamesMore(ds, i);
        messages, enums := messages - {NameOf(ds[i])}, enums - {NameOf(ds[i])};
        i := i + 1;
      }
      assert ds[..i] == ds;
    }

    /** One visit of shadow that found an external type. */
    method ReplaceType(was: Desc, d: Desc, same: (Desc, Desc) -> bool)
      modifies this
      ensures State() == Replace(old(State()), was, d, same)
    {
      hide Whole;
      DropType(was);
      if !same(was, d) {
        warnings := warnings + [Differently(NameOf(d), FileOf(was))];
        differs := differs + Names(Whole(was));
      }
    }

    /** shadow: the messages of c, then its enums. */
    method ShadowIn(c: Container, same: (Desc, Desc) -> bool)
      modifies this
      ensures State() == Shadow(old(State()), c, same)
      decreases c.messages
    {
      hide Replace, External;
      var i := 0;
      assert c.messages[0..] == c.messages;
      while i < |c.messages|
        invariant i <= |c.messages|
        invariant ShadowMessages(State(), c.messages[i..], same) == ShadowMessages(old(State()), c.messages, same)
      {
        var m := c.messages[i];
        assert c.messages[i..][1..] == c.messages[i + 1..];
        var was := FindExternal(m.name);
        match was {
          case None => ShadowIn(Inside(m), same);
          case Some(was) => ReplaceType(was, Msg(m), same);
        }
        i := i + 1;
      }
      i := 0;
      assert c.enums[0..] == c.enums;
      while i < |c.enums|
        invariant i <= |c.enums|
        invariant ShadowEnums(State(), c.enums[i..], same) == Shadow(old(State()), c, same)
      {
        assert c.enums[i..][1..] == c.enums[i + 1..];
        var was := FindExternal(c.enums[i].name);
        if was.Some? {
          ReplaceType(was.value, Enm(c.enums[i]), same);
        }
        i := i + 1;
      }
    }

    method IsDocument(d: Desc) returns (b: bool)
      ensures b == IsDocumentIn(State(), d)
    {
      if NameOf(d) !in fromDocument {
        return false;
      }
      match d {
        case Msg(m) => b := m.name in messages && messages[m.name] == m;
        case Enm(e) => b := e.name in enums && enums[e.name] == e;
      }
    }

    /** Check: fails exactly when a message reachable from md has a stale field. */
    method Check(links: Links, md: MessageType, ghost all: set<MessageType>) returns (r: Option<Report>)
      requires Linked(links, all) && md in all
      ensures r.Some? <==> Disagrees(State(), links, md)
      ensures r.Some? ==> Reported(State(), links, md, r.value)
    {
      hide Stale, Reaches, Linked, Clean;
      if differs == {} {
        NoneStale(State());
        return None;
      }
      var seen;
      r, seen := Visit(links, md, {}, all);
      if r.None? {
        CleanAgrees(State(), links, all, seen, md);
      } else {
        assert Reported(State(), links, md, r.value);
      }
    }

    /** The walk of Check. */
    method Visit(links: Links, m: MessageType, seen: set<string>, ghost all: set<MessageType>)
      returns (r: Option<Report>, after: set<string>)
      requires Linked(links, all) && m in all
      ensures seen <= after
      ensures r.Some? ==> Reported(State(), links, m, r.value)
      ensures r.None? ==> m.name in after && Clean(State(), links, all, seen, after)
      decreases Left(all, seen)
    {
      hide Stale, Reaches, FieldPath;
      after := seen;
      if m.name in seen {
        return None, seen;
      }
      after := seen + {m.name};
      var fields := links(m);
      var i := 0;
      while i < |fields|
        invariant i <= |fields|
        invariant seen + {m.name} <= after
        invariant Clean(State(), links, all, seen + {m.name}, after)
        invariant forall k :: 0 <= k < i && fields[k].Some? ==>
                    !Stale(State(), fields[k].value) && (fields[k].value.Msg? ==> fields[k].value.m.name in after)
      {
        if fields[i].Some? {
          var t := fields[i].value;
          var doc := IsDocument(t);
          StaleIs(State(), t);
          if NameOf(t) in differs && !doc {
            ReachesSelf(links, m);
            return Some(Report(m, i)), after;
          }
          if t.Msg? {
            ghost var before := after;
            UnseenStill(all, seen, m, after);
            r, after := Visit(links, t.m, after, all);
            if r.Some? {
              ReachesNext(links, m, t.m, i);
              ReachesOn(links, m, t.m, r.value.holder);
              return r, after;
            }
          }
        }
        i := i + 1;
      }
      r := None;
    }
  }

  lemma NamesMore(ds: seq<Desc>, i: nat)
    requires i < |ds|
    ensures Names(ds[..i + 1]) == Names(ds[..i]) + {NameOf(ds[i])}
  {
    assert forall k :: 0 <= k < i ==> ds[..i][k] == ds[k] == ds[..i + 1][k];
    assert ds[..i + 1][i] == ds[i];
  }

  lemma StaleIs(s: Reg, t: Desc)
    ensures Stale(s, t) <==> NameOf(t) in s.differs && !IsDocumentIn(s, t)
  {
  }

  lemma NoneStale(s: Reg)
    ensures s.differs == {} ==> forall t: Desc :: !Stale(s, t)
  {
  }

  /** The messages of a universe not yet visited. */
  function Left(all: set<MessageType>, seen: set<string>): set<MessageType>
  {
    set n | n in all && n.name !in seen
  }

  lemma UnseenStill(all: set<MessageType>, seen: set<string>, m: MessageType, after: set<string>)
    requires m in all && m.name !in seen && seen + {m.name} <= after
    ensures Left(all, after) < Left(all, seen)
  {
    assert m in Left(all, seen) && m !in Left(all, after);
    assert Left(all, after) <= Left(all, seen);
  }
}
