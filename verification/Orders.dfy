/** Groups of flows that may run in any order, and the meaning of a run of groups. */
module Orders {
  import opened Lang

  /** A flow `x := x op rest`. */
  datatype Flow = Flow(x: string, op: Arith, rest: Expr<string>)

  function Body(f: Flow): Expr<string> {
    Bin(f.op, Ref(f.x), f.rest)
  }

  /** The flow's own variable is the first operand converted: `rest` is a variable or a
      literal, or arithmetic on literals only, whose instructions come before the flow's. */
  predicate ReadsRight(f: Flow) {
    f.rest.Bin? ==> Refs(f.rest) == {}
  }

  predicate Upright(fs: seq<Flow>) {
    forall f :: f in fs ==> ReadsRight(f)
  }

  function Written(fs: seq<Flow>): set<string> {
    set f | f in fs :: f.x
  }

  function ReadBy(fs: seq<Flow>): set<string> {
    set f, k | f in fs && k in Refs(f.rest) :: k
  }

  function Mentioned(fs: seq<Flow>): set<string> {
    Written(fs) + ReadBy(fs)
  }

  /** No flow of the group reads a variable another one writes, beside its own. */
  predicate Allowed(fs: seq<Flow>) {
    Written(fs) !! ReadBy(fs)
  }

  /** The group reads right, and its flows keep apart. */
  predicate Orderly(fs: seq<Flow>) {
    Upright(fs) && Allowed(fs)
  }

  predicate SameFlows(fs: seq<Flow>, gs: seq<Flow>) {
    multiset(fs) == multiset(gs)
  }

  lemma SameFlowsMention(fs: seq<Flow>, gs: seq<Flow>)
    requires SameFlows(fs, gs)
    ensures Written(fs) == Written(gs) && ReadBy(fs) == ReadBy(gs) && |fs| == |gs|
  {
    assert forall f :: f in fs <==> f in multiset(fs);
    assert forall f :: f in gs <==> f in multiset(gs);
    assert |fs| == |multiset(fs)| == |multiset(gs)| == |gs|;
  }

  function RunFlow(f: Flow, s: Store, div0: real -> real): Store {
    s[f.x := Eval(Body(f), Lookup(s), div0)]
  }

  /** Each flow atomically, one after the other. */
  function RunFlows(fs: seq<Flow>, s: Store, div0: real -> real): Store {
    if fs == [] then s else RunFlows(fs[1..], RunFlow(fs[0], s, div0), div0)
  }

  /** The flows writing `x`, in order. */
  function Only(fs: seq<Flow>, x: string): seq<Flow> {
    if fs == [] then []
    else if fs[0].x in {x} then [fs[0]] + Only(fs[1..], x)
    else Only(fs[1..], x)
  }

  predicate Within(fs: seq<Flow>, w: set<string>) {
    forall f :: f in fs ==> f.x in w && Refs(f.rest) !! w
  }

  lemma AllowedWithin(fs: seq<Flow>)
    requires Allowed(fs)
    ensures Within(fs, Written(fs))
  {
  }

  /** What a group leaves in `x` depends only on the flows writing `x` and their order. */
  lemma {:induction false} OnlyMatters(fs: seq<Flow>, w: set<string>, s: Store, s': Store, x: string,
                                       div0: real -> real)
    requires Within(fs, w)
    requires Lookup(s)(x) == Lookup(s')(x) && forall y :: y !in w ==> Lookup(s)(y) == Lookup(s')(y)
    ensures Lookup(RunFlows(fs, s, div0))(x) == Lookup(RunFlows(Only(fs, x), s', div0))(x)
    decreases |fs|
  {
    if fs != [] {
      var f := fs[0];
      var s1 := RunFlow(f, s, div0);
      if f.x in {x} {
        var s1' := RunFlow(f, s', div0);
        EvalDepends(Body(f), Lookup(s), Lookup(s'), div0);
        OnlyMatters(fs[1..], w, s1, s1', x, div0);
        assert Only(fs, x)[1..] == Only(fs[1..], x);
      } else {
        assert Lookup(s1)(x) == Lookup(s)(x);
        OnlyMatters(fs[1..], w, s1, s', x, div0);
      }
    }
  }

  lemma {:induction false} OthersKept(fs: seq<Flow>, s: Store, x: string, div0: real -> real)
    requires x !in Written(fs)
    ensures Lookup(RunFlows(fs, s, div0))(x) == Lookup(s)(x)
    ensures x in RunFlows(fs, s, div0) <==> x in s
  {
    if fs != [] {
      assert fs[0].x in Written(fs);
      OthersKept(fs[1..], RunFlow(fs[0], s, div0), x, div0);
    }
  }

  // One order explaining a choice of orders per variable.

  lemma {:induction false} OnlyConcat(fs: seq<Flow>, gs: seq<Flow>, x: string)
    ensures Only(fs + gs, x) == Only(fs, x) + Only(gs, x)
  {
    if fs == [] {
      assert fs + gs == gs;
    } else {
      assert (fs + gs)[0] == fs[0] && (fs + gs)[1..] == fs[1..] + gs;
      OnlyConcat(fs[1..], gs, x);
    }
  }

  lemma {:induction false} OnlyCounts(fs: seq<Flow>, x: string)
    ensures forall f :: multiset(Only(fs, x))[f] == if f.x in {x} then multiset(fs)[f] else 0
    ensures forall f :: f in Only(fs, x) ==> f in fs && f.x in {x}
  {
    if fs != [] {
      OnlyCounts(fs[1..], x);
      assert fs == [fs[0]] + fs[1..];
    }
  }

  lemma {:induction false} OnlyOnly(fs: seq<Flow>, x: string, y: string)
    ensures Only(Only(fs, x), y) == if x in {y} then Only(fs, y) else []
  {
    if fs != [] {
      OnlyOnly(fs[1..], x, y);
      if fs[0].x in {x} {
        assert Only(fs, x)[1..] == Only(fs[1..], x);
      }
    }
  }

  /** The flows of variable `xs[0]` in the order chosen for it, then those of `xs[1]`, ... */
  function Merge(xs: seq<string>, choice: map<string, seq<Flow>>): seq<Flow>
    requires forall x :: x in xs ==> x in choice
  {
    if xs == [] then [] else Only(choice[xs[0]], xs[0]) + Merge(xs[1..], choice)
  }

  lemma {:induction false} MergeOnly(xs: seq<string>, choice: map<string, seq<Flow>>, x: string)
    requires forall y :: y in xs ==> y in choice
    requires forall i, j :: 0 <= i < j < |xs| ==> xs[i] !in {xs[j]}
    ensures Only(Merge(xs, choice), x) == if x in xs then Only(choice[x], x) else []
  {
    if xs != [] {
      MergeOnly(xs[1..], choice, x);
      OnlyOnly(choice[xs[0]], xs[0], x);
      OnlyConcat(Only(choice[xs[0]], xs[0]), Merge(xs[1..], choice), x);
      if xs[0] in {x} {
        assert x !in xs[1..];
      }
    }
  }

  /** A list of the elements of a set. */
  lemma {:induction false} Listing(w: set<string>) returns (xs: seq<string>)
    ensures forall x :: x in xs <==> x in w
    ensures forall i, j :: 0 <= i < j < |xs| ==> xs[i] !in {xs[j]}
    decreases w
  {
    if w == {} {
      xs := [];
    } else {
      var x :| x in w;
      var rest := Listing(w - {x});
      xs := [x] + rest;
    }
  }

  /** Whatever order of the group is chosen for each variable, one order of the whole group
      leaves every variable as its own choice does. */
  lemma OneOrder(fs: seq<Flow>, choice: map<string, seq<Flow>>, s: Store, div0: real -> real) returns (order: seq<Flow>)
    requires Allowed(fs) && Written(fs) <= choice.Keys
    requires forall x :: x in choice ==> SameFlows(choice[x], fs)
    ensures SameFlows(order, fs)
    ensures forall x :: x in choice ==>
      Lookup(RunFlows(order, s, div0))(x) == Lookup(RunFlows(choice[x], s, div0))(x)
  {
    var xs := Listing(Written(fs));
    order := Merge(xs, choice);
    forall f ensures multiset(order)[f] == multiset(fs)[f] {
      MergeOnly(xs, choice, f.x);
      OnlyCounts(order, f.x);
      assert multiset(Only(order, f.x))[f] == multiset(order)[f];
      if f.x in Written(fs) {
        OnlyCounts(choice[f.x], f.x);
      } else {
        assert f !in fs;
      }
    }
    SameFlowsMention(order, fs);
    AllowedWithin(fs);
    forall x | x in choice
      ensures Lookup(RunFlows(order, s, div0))(x) == Lookup(RunFlows(choice[x], s, div0))(x)
    {
      SameFlowsMention(choice[x], fs);
      if x in Written(fs) {
        MergeOnly(xs, choice, x);
        OnlyMatters(order, Written(fs), s, s, x, div0);
        OnlyMatters(choice[x], Written(fs), s, s, x, div0);
      } else {
        OthersKept(order, s, x, div0);
        OthersKept(choice[x], s, x, div0);
      }
    }
  }
}
