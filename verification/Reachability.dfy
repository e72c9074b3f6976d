/** The reachability check: every state a component defines must be the target of some
    transition or start statement, and the other way round. */
module Reachability {
  import opened Lang

  /** The parts of a specification the walk looks at. A component's entries come from a
      map, so they are visited in any order. */
  datatype Node =
    | Sequence(statements: seq<Node>)
    | Component(name: string, entries: seq<Entry>)
    | Start(pairs: seq<(string, string)>)
    | Transition(targets: seq<string>)
    | Conditional(consequence: Node, elif: Option<Node>, alternative: Option<Node>)
    | Other

  /** A property of a component; only functions are states. */
  datatype Entry = State(id: string, body: Node) | Property(id: string)

  function Id(a: string, b: string): string {
    a + "_" + b
  }

  // What the specification says, regardless of order.

  function Definitions(n: Node): set<string>
    decreases n, 0
  {
    match n
    case Sequence(ss) => AllDefinitions(ss)
    case Component(name, es) => EntryDefinitions(name, es)
    case Conditional(c, elif, alt) =>
      Definitions(c) + (if elif.Some? then Definitions(elif.value) else {})
        + (if alt.Some? then Definitions(alt.value) else {})
    case _ => {}
  }

  function AllDefinitions(ss: seq<Node>): set<string>
    decreases ss, 0
  {
    if ss == [] then {} else Definitions(ss[0]) + AllDefinitions(ss[1..])
  }

  function EntryDefinitions(name: string, es: seq<Entry>): set<string>
    decreases es, 0
  {
    set i, id | 0 <= i < |es| && id in EntryDefines(name, es[i]) :: id
  }

  function EntryDefines(name: string, e: Entry): set<string>
    decreases e, 1
  {
    if e.State? then {Id(name, e.id)} + Definitions(e.body) else {}
  }

  function References(n: Node): set<string>
    decreases n, 0
  {
    match n
    case Sequence(ss) => AllReferences(ss)
    case Component(_, es) => EntryReferences(es)
    case Start(pairs) => set p | p in pairs :: Id(p.0, p.1)
    case Transition(ids) => set id | id in ids
    case Conditional(c, elif, alt) =>
      References(c) + (if elif.Some? then References(elif.value) else {})
        + (if alt.Some? then References(alt.value) else {})
    case Other => {}
  }

  function AllReferences(ss: seq<Node>): set<string>
    decreases ss, 0
  {
    if ss == [] then {} else References(ss[0]) + AllReferences(ss[1..])
  }

  function EntryReferences(es: seq<Entry>): set<string>
    decreases es, 0
  {
    set i, id | 0 <= i < |es| && id in EntryRefers(es[i]) :: id
  }

  function EntryRefers(e: Entry): set<string>
    decreases e, 1
  {
    if e.State? then References(e.body) else {}
  }

  function Indices(es: seq<Entry>): (s: set<int>)
    ensures forall i :: i in s <==> 0 <= i < |es|
  {
    if es == [] then {} else Indices(es[..|es| - 1]) + {|es| - 1}
  }

  function DefinedBy(name: string, es: seq<Entry>, done: set<int>): set<string> {
    set i, id | i in done && 0 <= i < |es| && id in EntryDefines(name, es[i]) :: id
  }

  function ReferredBy(es: seq<Entry>, done: set<int>): set<string> {
    set i, id | i in done && 0 <= i < |es| && id in EntryRefers(es[i]) :: id
  }

  lemma OneMoreEntry(name: string, es: seq<Entry>, done: set<int>, i: int)
    requires 0 <= i < |es|
    ensures DefinedBy(name, es, done + {i}) == DefinedBy(name, es, done) + EntryDefines(name, es[i])
    ensures ReferredBy(es, done + {i}) == ReferredBy(es, done) + EntryRefers(es[i])
  {
    hide EntryDefines, EntryRefers;
  }

  lemma EveryEntry(name: string, es: seq<Entry>)
    ensures DefinedBy(name, es, Indices(es)) == EntryDefinitions(name, es)
    ensures ReferredBy(es, Indices(es)) == EntryReferences(es)
  {
    hide EntryDefines, EntryRefers;
  }

  class Tracer {
    var graph: map<string, bool>
    var undefined: seq<string>

    constructor ()
      ensures Valid() && Defined() == {} && Referenced() == {}
    {
      graph, undefined := map[], [];
    }

    function Defined(): set<string>
      reads this
    {
      graph.Keys
    }

    function Referenced(): set<string>
      reads this
    {
      (set id | id in graph && graph[id]) + (set id | id in undefined)
    }

    /** The undefined references are the references without a definition. */
    predicate Valid()
      reads this
    {
      forall id :: id in undefined ==> id !in graph
    }

    predicate SeenBefore(id: string)
      reads this
    {
      id in undefined
    }

    method RemoveUndefined(id: string)
      modifies this`undefined
      ensures forall x :: x in undefined <==> x in old(undefined) && x !in {id}
    {
      var kept: seq<string> := [];
      var i := 0;
      while i < |undefined|
        invariant 0 <= i <= |undefined| && undefined == old(undefined)
        invariant forall x :: x in kept <==> x in undefined[..i] && x !in {id}
      {
        if undefined[i] != id {
          kept := kept + [undefined[i]];
        }
        i := i + 1;
      }
      undefined := kept;
    }

    method Define(id: string)
      requires Valid()
      modifies this
      ensures Valid() && Defined() == old(Defined()) + {id} && Referenced() == old(Referenced())
    {
      if id !in graph {
        graph := graph[id := false];
      }
      if SeenBefore(id) {
        graph := graph[id := true];
        RemoveUndefined(id);
      }
    }

    method Refer(id: string)
      requires Valid()
      modifies this
      ensures Valid() && Defined() == old(Defined()) && Referenced() == old(Referenced()) + {id}
    {
      if id !in graph {
        undefined := undefined + [id];
      } else {
        graph := graph[id := true];
        RemoveUndefined(id);
      }
    }

    method Walk(n: Node)
      requires Valid()
      modifies this
      ensures Valid()
      ensures Defined() == old(Defined()) + Definitions(n) && Referenced() == old(Referenced()) + References(n)
      decreases n, 1
    {
      match n
      case Sequence(ss) => WalkAll(ss);
      case Component(name, es) => WalkEntries(name, es);
      case Start(pairs) => WalkStart(pairs);
      case Transition(ids) => WalkTransition(ids);
      case Conditional(c, elif, alt) =>
        Walk(c);
        if elif.Some? {
          Walk(elif.value);
        }
        if alt.Some? {
          Walk(alt.value);
        }
      case Other =>
    }

    method WalkAll(ss: seq<Node>)
      requires Valid()
      modifies this
      ensures Valid()
      ensures Defined() == old(Defined()) + AllDefinitions(ss) && Referenced() == old(Referenced()) + AllReferences(ss)
      decreases ss, 0
    {
      var i := 0;
      while i < |ss|
        invariant 0 <= i <= |ss| && Valid()
        invariant Defined() + AllDefinitions(ss[i..]) == old(Defined()) + AllDefinitions(ss)
        invariant Referenced() + AllReferences(ss[i..]) == old(Referenced()) + AllReferences(ss)
      {
        assert ss[i..][0] == ss[i] && ss[i..][1..] == ss[i + 1..];
        hide Defined, Referenced, Valid;
        Walk(ss[i]);
        i := i + 1;
      }
    }

    method WalkStart(pairs: seq<(string, string)>)
      requires Valid()
      modifies this
      ensures Valid() && Defined() == old(Defined())
      ensures Referenced() == old(Referenced()) + set p | p in pairs :: Id(p.0, p.1)
    {
      var i := 0;
      while i < |pairs|
        invariant 0 <= i <= |pairs| && Valid() && Defined() == old(Defined())
        invariant Referenced() == old(Referenced()) + set p | p in pairs[..i] :: Id(p.0, p.1)
      {
        Refer(Id(pairs[i].0, pairs[i].1));
        i := i + 1;
      }
    }

    method WalkTransition(ids: seq<string>)
      requires Valid()
      modifies this
      ensures Valid() && Defined() == old(Defined())
      ensures Referenced() == old(Referenced()) + set id | id in ids
    {
      var i := 0;
      while i < |ids|
        invariant 0 <= i <= |ids| && Valid() && Defined() == old(Defined())
        invariant Referenced() == old(Referenced()) + set id | id in ids[..i]
      {
        Refer(ids[i]);
        i := i + 1;
      }
    }

    /** The entries of a component, in whatever order the map yields them. */
    method WalkEntries(name: string, es: seq<Entry>)
      requires Valid()
      modifies this
      ensures Valid() && Defined() == old(Defined()) + EntryDefinitions(name, es)
      ensures Referenced() == old(Referenced()) + EntryReferences(es)
      decreases es, 0
    {
      var left := Indices(es);
      ghost var done: set<int> := {};
      while left != {}
        invariant Valid() && done <= Indices(es) && left == Indices(es) - done
        invariant Defined() == old(Defined()) + DefinedBy(name, es, done)
        invariant Referenced() == old(Referenced()) + ReferredBy(es, done)
        decreases left
      {
        var i :| i in left;
        OneMoreEntry(name, es, done, i);
        WalkEntry(name, es[i]);
        left, done := left - {i}, done + {i};
      }
      assert done == Indices(es);
      EveryEntry(name, es);
    }

    method WalkEntry(name: string, e: Entry)
      requires Valid()
      modifies this
      ensures Valid() && Defined() == old(Defined()) + EntryDefines(name, e)
      ensures Referenced() == old(Referenced()) + EntryRefers(e)
      decreases e, 2
    {
      if e.State? {
        Define(Id(name, e.id));
        Walk(e.body);
      }
    }

    /** Unreferenced definitions join the undefined references. */
    method Check() returns (ok: bool, missing: seq<string>)
      requires Valid()
      modifies this
      ensures missing == undefined && (ok <==> missing == [])
      ensures forall id :: id in missing <==>
        id in old(Defined()) - old(Referenced()) || id in old(Referenced()) - old(Defined())
    {
      var keys := graph.Keys;
      while keys != {}
        invariant graph == old(graph) && keys <= graph.Keys
        invariant forall id :: id in undefined <==> id in old(undefined) || (id in graph.Keys - keys && !graph[id])
      {
        var k :| k in keys;
        if !graph[k] {
          undefined := undefined + [k];
        }
        keys := keys - {k};
      }
      return |undefined| == 0, undefined;
    }
  }

  /** The verdict depends only on what is defined and what is referenced. */
  method Scan(spec: Node) returns (ok: bool, missing: seq<string>)
    ensures ok <==> Definitions(spec) == References(spec)
    ensures forall id ::
      id in missing <==> id in Definitions(spec) - References(spec) || id in References(spec) - Definitions(spec)
  {
    var t := new Tracer();
    t.Walk(spec);
    ok, missing := t.Check();
    if ok {
      forall id ensures id in Definitions(spec) <==> id in References(spec) {
        assert id !in missing;
      }
    } else {
      assert missing[0] in missing;
    }
  }

  /** Reordering statements changes neither. */
  lemma OrderIndependent(ss: seq<Node>, ss': seq<Node>)
    requires multiset(ss) == multiset(ss')
    ensures Definitions(Sequence(ss)) == Definitions(Sequence(ss'))
    ensures References(Sequence(ss)) == References(Sequence(ss'))
  {
    assert forall n :: n in ss <==> n in multiset(ss);
    assert forall n :: n in ss' <==> n in multiset(ss');
    NoMore(ss, ss');
    NoMore(ss', ss);
  }

  lemma {:induction false} NoMore(ss: seq<Node>, ss': seq<Node>)
    requires forall n :: n in ss ==> n in ss'
    ensures AllDefinitions(ss) <= AllDefinitions(ss') && AllReferences(ss) <= AllReferences(ss')
  {
    if ss != [] {
      assert ss[0] in ss;
      OneOf(ss', ss[0]);
      NoMore(ss[1..], ss');
    }
  }

  lemma {:induction false} OneOf(ss: seq<Node>, n: Node)
    requires n in ss
    ensures Definitions(n) <= AllDefinitions(ss) && References(n) <= AllReferences(ss)
  {
    if n != ss[0] {
      OneOf(ss[1..], n);
    }
  }

  // Which identifiers these are.

  /** `m` is `n` or stands somewhere inside it. */
  ghost predicate Within(m: Node, n: Node)
    decreases n
  {
    || m == n
    || match n
       case Sequence(ss) => exists i :: 0 <= i < |ss| && Within(m, ss[i])
       case Component(_, es) => exists i :: 0 <= i < |es| && es[i].State? && Within(m, es[i].body)
       case Conditional(c, elif, alt) =>
         || Within(m, c) || (elif.Some? && Within(m, elif.value)) || (alt.Some? && Within(m, alt.value))
       case _ => false
  }

  /** A component defines its states, by its own name. */
  ghost predicate Defines(m: Node, id: string) {
    m.Component? && exists i :: 0 <= i < |m.entries| && m.entries[i].State? && id == m.name + "_" + m.entries[i].id
  }

  /** Start statements and transitions refer to states. */
  ghost predicate Refers(m: Node, id: string) {
    || (m.Start? && exists i :: 0 <= i < |m.pairs| && id == m.pairs[i].0 + "_" + m.pairs[i].1)
    || (m.Transition? && id in m.targets)
  }

  /** What is defined are the states of components anywhere in the specification. */
  lemma {:induction false} DefinedExactly(n: Node, id: string)
    ensures id in Definitions(n) <==> exists m :: Within(m, n) && Defines(m, id)
    decreases n
  {
    hide Id, Defines;
    match n
    case Sequence(ss) =>
      AmongDefinitions(ss, id);
      forall i | 0 <= i < |ss|
        ensures id in Definitions(ss[i]) <==> exists m :: Within(m, ss[i]) && Defines(m, id)
      {
        DefinedExactly(ss[i], id);
      }
      NoneDefines(n, id);
    case Component(name, es) =>
      EntriesDefine(n, id);
      forall i | 0 <= i < |es| && es[i].State?
        ensures id in Definitions(es[i].body) <==> exists m :: Within(m, es[i].body) && Defines(m, id)
      {
        DefinedExactly(es[i].body, id);
      }
    case Conditional(c, elif, alt) =>
      DefinedExactly(c, id);
      if elif.Some? {
        DefinedExactly(elif.value, id);
      }
      if alt.Some? {
        DefinedExactly(alt.value, id);
      }
      NoneDefines(n, id);
    case _ => NoneDefines(n, id);
  }

  lemma NoneDefines(n: Node, id: string)
    requires !n.Component?
    ensures !Defines(n, id)
  {
  }

  lemma EntriesDefine(n: Node, id: string)
    requires n.Component?
    ensures id in Definitions(n) <==>
      Defines(n, id) || exists i :: 0 <= i < |n.entries| && n.entries[i].State? && id in Definitions(n.entries[i].body)
  {
    var Component(name, es) := n;
    if Defines(n, id) {
      var i :| 0 <= i < |es| && es[i].State? && id == name + "_" + es[i].id;
      assert id in EntryDefines(name, es[i]);
    }
    if i :| 0 <= i < |es| && es[i].State? && id in Definitions(es[i].body) {
      assert id in EntryDefines(name, es[i]);
    }
    assert Definitions(n) == EntryDefinitions(name, es);
    if id in EntryDefinitions(name, es) {
      var i :| 0 <= i < |es| && id in EntryDefines(name, es[i]);
      assert es[i].State? && (id == Id(name, es[i].id) || id in Definitions(es[i].body));
    }
  }

  lemma {:induction false} AmongDefinitions(ss: seq<Node>, id: string)
    ensures id in AllDefinitions(ss) <==> exists i :: 0 <= i < |ss| && id in Definitions(ss[i])
  {
    if ss != [] {
      AmongDefinitions(ss[1..], id);
      assert forall i :: 0 < i < |ss| ==> ss[i] == ss[1..][i - 1];
      if i :| 0 <= i < |ss[1..]| && id in Definitions(ss[1..][i]) {
        assert id in Definitions(ss[i + 1]);
      }
    }
  }

  /** What is referred to are the targets of start statements and transitions anywhere. */
  lemma {:induction false} ReferredExactly(n: Node, id: string)
    ensures id in References(n) <==> exists m :: Within(m, n) && Refers(m, id)
    decreases n
  {
    hide Id, Refers;
    match n
    case Sequence(ss) =>
      AmongReferences(ss, id);
      forall i | 0 <= i < |ss|
        ensures id in References(ss[i]) <==> exists m :: Within(m, ss[i]) && Refers(m, id)
      {
        ReferredExactly(ss[i], id);
      }
      NoneRefers(n, id);
    case Component(name, es) =>
      EntriesRefer(n, id);
      forall i | 0 <= i < |es| && es[i].State?
        ensures id in References(es[i].body) <==> exists m :: Within(m, es[i].body) && Refers(m, id)
      {
        ReferredExactly(es[i].body, id);
      }
      NoneRefers(n, id);
    case Conditional(c, elif, alt) =>
      ReferredExactly(c, id);
      if elif.Some? {
        ReferredExactly(elif.value, id);
      }
      if alt.Some? {
        ReferredExactly(alt.value, id);
      }
      NoneRefers(n, id);
    case Start(_) => TargetsReferred(n, id);
    case Transition(_) => TargetsReferred(n, id);
    case Other => NoneRefers(n, id);
  }

  lemma NoneRefers(n: Node, id: string)
    requires !n.Start? && !n.Transition?
    ensures !Refers(n, id)
  {
  }

  lemma TargetsReferred(n: Node, id: string)
    requires n.Start? || n.Transition?
    ensures id in References(n) <==> Refers(n, id)
  {
    if n.Start? && id in References(n) {
      var p :| p in n.pairs && id == Id(p.0, p.1);
      var i :| 0 <= i < |n.pairs| && n.pairs[i] == p;
    }
  }

  lemma EntriesRefer(n: Node, id: string)
    requires n.Component?
    ensures id in References(n) <==>
      exists i :: 0 <= i < |n.entries| && n.entries[i].State? && id in References(n.entries[i].body)
  {
    var es := n.entries;
    if i :| 0 <= i < |es| && es[i].State? && id in References(es[i].body) {
      assert id in EntryRefers(es[i]);
    }
    assert References(n) == EntryReferences(es);
    if id in EntryReferences(es) {
      var i :| 0 <= i < |es| && id in EntryRefers(es[i]);
      assert es[i].State? && id in References(es[i].body);
    }
  }

  lemma {:induction false} AmongReferences(ss: seq<Node>, id: string)
    ensures id in AllReferences(ss) <==> exists i :: 0 <= i < |ss| && id in References(ss[i])
  {
    if ss != [] {
      AmongReferences(ss[1..], id);
      assert forall i :: 0 < i < |ss| ==> ss[i] == ss[1..][i - 1];
      if i :| 0 <= i < |ss[1..]| && id in References(ss[1..][i]) {
        assert id in References(ss[i + 1]);
      }
    }
  }
}
