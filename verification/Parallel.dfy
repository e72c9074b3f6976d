/** What the generator emits for groups of flows, and the exact meaning of those rules. */
module Parallel {
  import opened Lang
  import opened Emission
  import opened Encoding
  import opened Exactness
  import opened Forks
  import opened Orders
  import opened Permutations

  /** The generator's state as far as flows can see it: the counters, the version each
      variable's top frame starts with, and the nesting level. */
  datatype Enc = Enc(ssa: Counters, starts: Counters, level: nat)

  /** A flow run as part of a group reads the first variable converted at the start of its
      top frame. */
  function FlowRule(f: Flow, ssa: Counters, starts: Counters): Rule {
    Define(Ver(f.x, Advanced(ssa, f.x)), Convert(ssa, starts, Body(f), true))
  }

  lemma FlowTerm(f: Flow, ssa: Counters, starts: Counters)
    requires ReadsRight(f)
    ensures Convert(ssa, starts, Body(f), true) == Bin(f.op, Ref(Ver(f.x, Count(starts, f.x))), At(ssa, f.rest))
  {
    ConvertNewest(ssa, starts, f.rest);
    if f.rest.Bin? {
      ConvertLevel(ssa, starts, f.rest, true);
    }
  }

  /** A flow reads its own variable at the frame's start and everything else at its newest
      version exactly when it reads right. */
  lemma ReadsRightExactly(f: Flow)
    ensures ReadsRight(f) <==>
            forall ssa, starts :: ReadsAsMeant(f, ssa, starts)
  {
    if ReadsRight(f) {
      forall ssa: Counters, starts: Counters ensures ReadsAsMeant(f, ssa, starts) {
        FlowTerm(f, ssa, starts);
      }
    } else {
      var ssa, starts := map[f.x := 1], map[f.x := 0];
      assert Convert(ssa, starts, Body(f), true).left == Ref(Ver(f.x, 1));
      assert !ReadsAsMeant(f, ssa, starts);
    }
  }

  predicate ReadsAsMeant(f: Flow, ssa: Counters, starts: Counters) {
    Convert(ssa, starts, Body(f), true) == Bin(f.op, Ref(Ver(f.x, Count(starts, f.x))), At(ssa, f.rest))
  }

  /** One order: each store opens a frame, so the next flow starts where this one ended. */
  function OrderRules(fs: seq<Flow>, ssa: Counters, starts: Counters): seq<Rule> {
    if fs == [] then []
    else
      var x := fs[0].x;
      [FlowRule(fs[0], ssa, starts)] + OrderRules(fs[1..], Bump(ssa, x), starts[x := Advanced(ssa, x)])
  }

  function OrderNext(fs: seq<Flow>, ssa: Counters): Counters {
    if fs == [] then ssa else OrderNext(fs[1..], Bump(ssa, fs[0].x))
  }

  /** All orders, each from the same start. */
  function OrdersRules(perms: seq<seq<Flow>>, ssa: Counters, starts: Counters): seq<Rule> {
    if perms == [] then []
    else OrderRules(perms[0], ssa, starts) + OrdersRules(perms[1..], OrderNext(perms[0], ssa), starts)
  }

  function OrdersNext(perms: seq<seq<Flow>>, ssa: Counters): Counters {
    if perms == [] then ssa else OrdersNext(perms[1..], OrderNext(perms[0], ssa))
  }

  /** Where a choice for `x` ends: at the greatest version the rules mention. */
  function EndOf(changes: seq<Ver>, x: string): int {
    var values := Collected(Nums(changes, x));
    if values == [] then 0 else values[|values| - 1]
  }

  /** Where the choices for `x` end, one for each of the orders. */
  function OrderEnds(perms: seq<seq<Flow>>, ssa: Counters, starts: Counters, x: string): seq<int> {
    if perms == [] then []
    else
      [EndOf(RulesVers(OrderRules(perms[0], ssa, starts)), x)]
        + OrderEnds(perms[1..], OrderNext(perms[0], ssa), starts, x)
  }

  /** `caps` ties a fresh version of each variable of `xs` to one of its ends. */
  ghost predicate IsCap(caps: seq<Rule>, xs: set<string>, perms: seq<seq<Flow>>, ssa: Counters, starts: Counters) {
    if caps == [] then xs == {}
    else
      && caps[0].Phi?
      && var x := caps[0].end.base;
         && x in xs
         && caps[0] == Phi(Ver(x, Advanced(OrdersNext(perms, ssa), x)), OrderEnds(perms, ssa, starts, x))
         && IsCap(caps[1..], xs - {x}, perms, ssa, starts)
  }

  function Restart(starts: Counters, xs: set<string>, ssa: Counters): Counters {
    map x | x in starts.Keys + xs :: if x in xs then Count(ssa, x) else starts[x]
  }

  /** What a callstack emits: nothing, one plain flow, or a parallel group. */
  ghost predicate StepEmits(fs: seq<Flow>, enc: Enc, ru: seq<Rule>) {
    if |fs| == 0 then ru == []
    else if |fs| == 1 then
      ru == [Define(Ver(fs[0].x, Advanced(enc.ssa, fs[0].x)), Rhs(enc.ssa, fs[0].x, Body(fs[0])))]
    else GroupEmits(fs, enc.ssa, enc.starts, ru)
  }

  ghost predicate GroupEmits(fs: seq<Flow>, ssa: Counters, starts: Counters, ru: seq<Rule>) {
    exists caps :: IsCap(caps, Mentioned(fs), Permuts(fs, 0), ssa, starts)
                   && ru == OrdersRules(Permuts(fs, 0), ssa, starts) + caps
  }

  function GroupNext(fs: seq<Flow>, ssa: Counters): Counters {
    BumpAll(OrdersNext(Permuts(fs, 0), ssa), Mentioned(fs))
  }

  /** A plain flow opens a frame only while no group has run: afterwards the level stays
      at one, and the store only lengthens the top frame. */
  function StepNext(fs: seq<Flow>, enc: Enc): Enc {
    if |fs| == 0 then enc
    else if |fs| == 1 then
      var x := fs[0].x;
      var ssa := Bump(enc.ssa, x);
      Enc(ssa, if enc.level == 0 then enc.starts[x := ssa[x]] else enc.starts, enc.level)
    else
      var ssa := GroupNext(fs, enc.ssa);
      Enc(ssa, Restart(enc.starts, Mentioned(fs), ssa), 1)
  }

  // The fragment.

  /** No counter is at its maximum when it is advanced. */
  predicate Fits(fs: seq<Flow>, ssa: Counters) {
    fs == [] || (CanBump(ssa, {fs[0].x}) && Fits(fs[1..], Bump(ssa, fs[0].x)))
  }

  predicate AllFit(perms: seq<seq<Flow>>, ssa: Counters) {
    perms == [] || (Fits(perms[0], ssa) && AllFit(perms[1..], OrderNext(perms[0], ssa)))
  }

  /** Everything mentioned has been stored, and versions do not wrap. */
  predicate StepFits(fs: seq<Flow>, enc: Enc) {
    && Mentioned(fs) <= enc.ssa.Keys && Mentioned(fs) <= enc.starts.Keys
    && (|fs| <= 1 ==> Fits(fs, enc.ssa))
    && (|fs| > 1 ==>
          && AllFit(Permuts(fs, 0), enc.ssa)
          && CanBump(OrdersNext(Permuts(fs, 0), enc.ssa), Mentioned(fs)))
  }

  /** Frames start at versions that exist. */
  predicate Sound(enc: Enc) {
    enc.starts.Keys <= enc.ssa.Keys && forall x :: x in enc.starts ==> enc.starts[x] <= enc.ssa[x]
  }

  // Counters.

  lemma {:induction false} OrderGrows(fs: seq<Flow>, ssa: Counters)
    requires Fits(fs, ssa) && Written(fs) <= ssa.Keys
    ensures Grown(ssa, OrderNext(fs, ssa), Written(fs))
    ensures forall x :: x in ssa && x !in Written(fs) ==> OrderNext(fs, ssa)[x] == ssa[x]
    ensures forall x :: x in Written(fs) ==> OrderNext(fs, ssa)[x] > ssa[x]
    decreases |fs|
  {
    if fs != [] {
      assert fs[0].x in Written(fs);
      assert Written(fs) == {fs[0].x} + Written(fs[1..]);
      OrderGrows(fs[1..], Bump(ssa, fs[0].x));
    }
  }

  predicate StartsExist(starts: Counters, ssa: Counters, xs: set<string>) {
    xs <= starts.Keys && xs <= ssa.Keys && forall x :: x in xs ==> starts[x] <= ssa[x]
  }

  /** Orders of the same flows that fit one after the other, from frames that exist. */
  predicate Runnable(perms: seq<seq<Flow>>, xs: set<string>, w: set<string>, ssa: Counters, starts: Counters) {
    && w <= xs && StartsExist(starts, ssa, xs) && AllFit(perms, ssa)
    && forall i :: 0 <= i < |perms| ==> Written(perms[i]) == w && Mentioned(perms[i]) == xs
  }

  lemma FirstRuns(perms: seq<seq<Flow>>, xs: set<string>, w: set<string>, ssa: Counters, starts: Counters)
    requires Runnable(perms, xs, w, ssa, starts) && perms != []
    ensures Fits(perms[0], ssa) && Written(perms[0]) == w && Mentioned(perms[0]) == xs
    ensures StartsExist(starts, ssa, xs) && w <= xs
    ensures Grown(ssa, OrderNext(perms[0], ssa), w) && Runnable(perms[1..], xs, w, OrderNext(perms[0], ssa), starts)
  {
    hide Fits, Written, Mentioned;
    OrderGrows(perms[0], ssa);
    hide OrderNext;
  }

  lemma {:induction false} OrdersGrow(perms: seq<seq<Flow>>, xs: set<string>, w: set<string>, ssa: Counters,
                                      starts: Counters)
    requires Runnable(perms, xs, w, ssa, starts)
    ensures Grown(ssa, OrdersNext(perms, ssa), w)
    decreases |perms|
  {
    hide Written, OrderNext, Mentioned, AllFit;
    if perms != [] {
      FirstRuns(perms, xs, w, ssa, starts);
      OrdersGrow(perms[1..], xs, w, OrderNext(perms[0], ssa), starts);
    }
  }

  // Which versions the rules of an order mention.

  lemma {:induction false} VersAreRefs(e: Expr<Ver>)
    ensures forall v :: v in ExprVers(e) <==> v in Refs(e)
  {
    match e
    case Lit(_) =>
    case Ref(_) =>
    case Bin(_, l, r) => VersAreRefs(l); VersAreRefs(r);
  }

  /** `changes` mentions only variables of the flows: those written up to their newest
      version in `ssa'`, the others at their newest version or where their frame starts. */
  ghost predicate Bounded(changes: seq<Ver>, fs: seq<Flow>, ssa: Counters, ssa': Counters, starts: Counters) {
    forall v :: v in changes ==>
      && v.base in Mentioned(fs) && v.num <= Count(ssa', v.base)
      && (v.base in Written(fs) || v.num == Count(ssa, v.base) || v.num == Count(starts, v.base))
  }

  /** `changes` mentions every variable of the flows: what is written at its newest version,
      and if the flows read right so is the rest. */
  ghost predicate Reaching(changes: seq<Ver>, fs: seq<Flow>, ssa: Counters, ssa': Counters, starts: Counters) {
    forall x :: x in Mentioned(fs) ==>
      if x in Written(fs) || Upright(fs) then Ver(x, Count(ssa', x)) in changes
      else Ver(x, Count(ssa, x)) in changes || Ver(x, Count(starts, x)) in changes
  }

  ghost predicate Mentioning(changes: seq<Ver>, fs: seq<Flow>, ssa: Counters, ssa': Counters, starts: Counters) {
    Bounded(changes, fs, ssa, ssa', starts) && Reaching(changes, fs, ssa, ssa', starts)
  }

  lemma FlowMentions(f: Flow, ssa: Counters, starts: Counters)
    requires CanBump(ssa, {f.x}) && StartsExist(starts, ssa, {f.x} + Refs(f.rest))
    ensures Mentioning(RuleVers(FlowRule(f, ssa, starts)), [f], ssa, Bump(ssa, f.x), starts)
  {
    var t := Convert(ssa, starts, Body(f), true);
    ConvertRefs(ssa, starts, Body(f), true);
    VersAreRefs(t);
    OneMentions(f);
    if ReadsRight(f) {
      FlowTerm(f, ssa, starts);
      AtRefs(f.rest, ssa);
    }
  }

  lemma {:induction false} AtRefs(e: Expr<string>, ssa: Counters)
    ensures forall x :: x in Refs(e) ==> Ver(x, Count(ssa, x)) in Refs(At(ssa, e))
  {
    match e
    case Lit(_) =>
    case Ref(_) =>
    case Bin(_, l, r) => AtRefs(l, ssa); AtRefs(r, ssa);
  }

  lemma OneMentions(f: Flow)
    ensures Mentioned([f]) == {f.x} + Refs(f.rest) == Refs(Body(f)) && Written([f]) == {f.x}
    ensures Upright([f]) <==> ReadsRight(f)
  {
    assert f in [f];
    assert forall g :: g in [f] ==> g == f;
    assert Refs(Body(f)) == {f.x} + Refs(f.rest);
  }

  lemma FirstMentioned(fs: seq<Flow>)
    requires fs != []
    ensures Mentioned(fs) == Mentioned([fs[0]]) + Mentioned(fs[1..])
    ensures Written(fs) == Written([fs[0]]) + Written(fs[1..])
    ensures Upright(fs) <==> Upright([fs[0]]) && Upright(fs[1..])
  {
    OneMentions(fs[0]);
    assert fs[0] in fs;
  }

  lemma {:induction false} OrderMentions(fs: seq<Flow>, ssa: Counters, starts: Counters)
    requires Fits(fs, ssa) && StartsExist(starts, ssa, Mentioned(fs))
    ensures Mentioning(RulesVers(OrderRules(fs, ssa, starts)), fs, ssa, OrderNext(fs, ssa), starts)
    decreases |fs|
  {
    hide RuleVers, FlowRule, Mentioning, Mentioned, Written, Upright;
    if fs == [] {
      NoneMentioned(ssa, starts);
    } else {
      var f, x, gs := fs[0], fs[0].x, fs[1..];
      var ssa', starts' := Bump(ssa, x), starts[x := Advanced(ssa, x)];
      assert f in fs;
      FirstMentioned(fs);
      OneMentions(f);
      FlowMentions(f, ssa, starts);
      assert Mentioned(gs) <= Mentioned(fs) && Written(gs) <= Written(fs);
      WrittenMentioned(gs);
      OrderMentions(gs, ssa', starts');
      OrderGrows(gs, ssa');
      var r, ru := FlowRule(f, ssa, starts), OrderRules(gs, ssa', starts');
      assert OrderRules(fs, ssa, starts) == [r] + ru && ([r] + ru)[1..] == ru && fs == [f] + gs;
      BothMention(f, gs, RuleVers(r), RulesVers(ru), ssa, OrderNext(fs, ssa), starts);
    }
  }

  lemma WrittenMentioned(fs: seq<Flow>)
    ensures Written(fs) <= Mentioned(fs)
  {
  }

  lemma NoneMentioned(ssa: Counters, starts: Counters)
    ensures Mentioning([], [], ssa, ssa, starts)
  {
  }

  lemma BothMention(f: Flow, gs: seq<Flow>, a: seq<Ver>, b: seq<Ver>, ssa: Counters, ssa'': Counters, starts: Counters)
    requires Mentioned([f]) <= ssa.Keys && f.x in ssa
    requires var (ssa', starts') := (Bump(ssa, f.x), starts[f.x := Advanced(ssa, f.x)]);
      && Mentioning(a, [f], ssa, ssa', starts) && Mentioning(b, gs, ssa', ssa'', starts')
        && Grown(ssa', ssa'', Written(gs))
    ensures Mentioning(a + b, [f] + gs, ssa, ssa'', starts)
  {
    hide Mentioned, Written, Upright, Advanced, Bump, OnlyAt, CanBump, Grown, Bounded, Reaching, Refs;
    var ssa', starts' := Bump(ssa, f.x), starts[f.x := Advanced(ssa, f.x)];
    assert ([f] + gs)[0] == f && ([f] + gs)[1..] == gs;
    FirstMentioned([f] + gs);
    OneMentions(f);
    WrittenMentioned(gs);
    BumpsAt(f.x, ssa, starts);
    BothBounded(f, gs, a, b, ssa, ssa', ssa'', starts, starts');
    BothReach(f, gs, a, b, ssa, ssa', ssa'', starts, starts');
  }

  ghost predicate OnlyAt(x: string, ssa: Counters, ssa': Counters) {
    ssa'.Keys <= ssa.Keys + {x} && forall y :: y !in {x} ==> Count(ssa', y) == Count(ssa, y)
  }

  lemma BumpsAt(x: string, ssa: Counters, starts: Counters)
    requires x in ssa
    ensures OnlyAt(x, ssa, Bump(ssa, x)) && OnlyAt(x, starts, starts[x := Advanced(ssa, x)])
    ensures Bump(ssa, x).Keys == ssa.Keys
  {
  }

  lemma BothBounded(f: Flow, gs: seq<Flow>, a: seq<Ver>, b: seq<Ver>, ssa: Counters, ssa': Counters, ssa'': Counters,
                    starts: Counters, starts': Counters)
    requires Bounded(a, [f], ssa, ssa', starts) && Bounded(b, gs, ssa', ssa'', starts')
    requires OnlyAt(f.x, ssa, ssa') && OnlyAt(f.x, starts, starts') && Grown(ssa', ssa'', Written(gs))
    requires Mentioned([f]) <= ssa'.Keys
    requires Mentioned([f] + gs) == Mentioned([f]) + Mentioned(gs) && Written([f] + gs) == Written([f]) + Written(gs)
    requires Written([f]) == {f.x}
    ensures Bounded(a + b, [f] + gs, ssa, ssa'', starts)
  {
    hide Mentioned, Written;
  }

  lemma BothReach(f: Flow, gs: seq<Flow>, a: seq<Ver>, b: seq<Ver>, ssa: Counters, ssa': Counters, ssa'': Counters,
                  starts: Counters, starts': Counters)
    requires Reaching(a, [f], ssa, ssa', starts) && Reaching(b, gs, ssa', ssa'', starts')
    requires OnlyAt(f.x, ssa, ssa') && OnlyAt(f.x, starts, starts') && Grown(ssa', ssa'', Written(gs))
    requires Mentioned([f] + gs) == Mentioned([f]) + Mentioned(gs) && Written([f] + gs) == Written([f]) + Written(gs)
    requires Written([f]) == {f.x} && {f.x} <= Mentioned([f]) && Written(gs) <= Mentioned(gs)
    requires (Upright([f] + gs) <==> Upright([f]) && Upright(gs))
    ensures Reaching(a + b, [f] + gs, ssa, ssa'', starts)
  {
    hide Mentioned, Written, Upright;
    var fs := [f] + gs;
    forall y | y in Mentioned(fs)
      ensures if y in Written(fs) || Upright(fs) then Ver(y, Count(ssa'', y)) in a + b
              else Ver(y, Count(ssa, y)) in a + b || Ver(y, Count(starts, y)) in a + b
    {
      if y in Written([f]) && y !in Written(gs) {
        assert Ver(y, Count(ssa', y)) in a && Count(ssa'', y) == Count(ssa', y);
      } else if y !in Mentioned(gs) {
        assert y in Mentioned([f]) && Count(ssa'', y) == Count(ssa', y) == Count(ssa, y);
      }
    }
  }

  /** Where a choice ends. */
  lemma EndsAt(changes: seq<Ver>, x: string, n: int)
    requires Ver(x, n) in changes && forall v :: v in changes && v.base == x ==> v.num <= n
    ensures EndOf(changes, x) == n
  {
    NumsAre(changes, x);
    CollectedSorted(Nums(changes, x));
    var values := Collected(Nums(changes, x));
    assert n in Nums(changes, x);
    assert Ver(x, values[|values| - 1]) in changes;
  }

  lemma EndMentioned(changes: seq<Ver>, x: string, n: int)
    requires Ver(x, n) in changes
    ensures Ver(x, EndOf(changes, x)) in changes
  {
    NumsAre(changes, x);
    CollectedSorted(Nums(changes, x));
    assert n in Nums(changes, x);
  }

  /** What an order writes ends at its newest version, and where it reads right so does all
      it reads. */
  lemma OrderEnd(fs: seq<Flow>, ssa: Counters, starts: Counters, x: string)
    requires Fits(fs, ssa) && StartsExist(starts, ssa, Mentioned(fs)) && x in Mentioned(fs)
    requires x in Written(fs) || Upright(fs)
    ensures EndOf(RulesVers(OrderRules(fs, ssa, starts)), x) == Count(OrderNext(fs, ssa), x)
  {
    OrderMentions(fs, ssa, starts);
    EndsAt(RulesVers(OrderRules(fs, ssa, starts)), x, Count(OrderNext(fs, ssa), x));
  }

  // Soundness: what the rules force.

  lemma FlowFollows(f: Flow, ssa: Counters, starts: Counters, m: Model, s: Store, div0: real -> real)
    requires RuleHolds(FlowRule(f, ssa, starts), m, div0) && ReadsRight(f)
    requires m(Ver(f.x, Count(starts, f.x))) == Lookup(s)(f.x) && Tracks(m, ssa, s, Refs(f.rest))
    ensures m(Ver(f.x, Bump(ssa, f.x)[f.x])) == RunFlow(f, s, div0)[f.x]
  {
    FlowTerm(f, ssa, starts);
    EvalAt(ssa, f.rest, m, s, div0);
    var e: Expr<Ver> := Ref(Ver(f.x, Count(starts, f.x)));
    assert Eval(e, m, div0) == Lookup(s)(f.x);
    assert Eval(Ref(f.x), Lookup(s), div0) == Lookup(s)(f.x);
  }

  /** The flows of one order, run from where each variable starts. */
  lemma {:induction false} OrderFollows(fs: seq<Flow>, w: set<string>, ssa: Counters, starts: Counters, m: Model,
                                        s: Store, div0: real -> real)
    requires Within(fs, w) && Mentioned(fs) <= ssa.Keys && w <= starts.Keys && Sat(OrderRules(fs, ssa, starts), m, div0)
    requires Upright(fs)
    requires forall x :: x in w ==> m(Ver(x, starts[x])) == Lookup(s)(x)
    requires forall x :: x in ssa.Keys - w ==> m(Ver(x, ssa[x])) == Lookup(s)(x)
    ensures OrderNext(fs, ssa).Keys == ssa.Keys
    ensures forall x :: x in ssa && x !in Written(fs) ==> OrderNext(fs, ssa)[x] == ssa[x]
    ensures forall x :: x in Mentioned(fs) ==>
      m(Ver(x, OrderNext(fs, ssa)[x])) == Lookup(RunFlows(fs, s, div0))(x)
    decreases |fs|
  {
    hide FlowRule, RuleHolds, Fits;
    if fs != [] {
      var f, x := fs[0], fs[0].x;
      var ru := OrderRules(fs, ssa, starts);
      var ssa', starts', s' := Bump(ssa, x), starts[x := Advanced(ssa, x)], RunFlow(f, s, div0);
      assert RuleHolds(ru[0], m, div0) && f in fs;
      FlowFollows(f, ssa, starts, m, s, div0);
      assert Sat(OrderRules(fs[1..], ssa', starts'), m, div0) by {
        assert ru == [ru[0]] + OrderRules(fs[1..], ssa', starts');
        SatConcat([ru[0]], OrderRules(fs[1..], ssa', starts'), m, div0);
      }
      OrderFollows(fs[1..], w, ssa', starts', m, s', div0);
      forall y | y in Mentioned(fs)
        ensures m(Ver(y, OrderNext(fs, ssa)[y])) == Lookup(RunFlows(fs, s, div0))(y)
      {
        if y !in Mentioned(fs[1..]) {
          OthersKept(fs[1..], s', y, div0);
        }
      }
    }
  }

  lemma {:induction false} EndsAre(perms: seq<seq<Flow>>, ssa: Counters, starts: Counters, x: string)
    ensures |OrderEnds(perms, ssa, starts, x)| == |perms|
  {
    if perms != [] {
      EndsAre(perms[1..], OrderNext(perms[0], ssa), starts, x);
    }
  }

  predicate AllUpright(perms: seq<seq<Flow>>) {
    forall i :: 0 <= i < |perms| ==> Upright(perms[i])
  }

  predicate AllWithin(perms: seq<seq<Flow>>, w: set<string>) {
    forall i :: 0 <= i < |perms| ==> Within(perms[i], w)
  }

  /** Where the orders read right, each ends where running it from the common start ends. */
  lemma {:induction false} OrdersFollow(perms: seq<seq<Flow>>, i: nat, x: string, xs: set<string>, w: set<string>,
                                        ssa: Counters, starts: Counters, m: Model, s: Store, div0: real -> real)
    requires Runnable(perms, xs, w, ssa, starts) && AllUpright(perms) && AllWithin(perms, w)
    requires Sat(OrdersRules(perms, ssa, starts), m, div0)
    requires forall x :: x in w ==> m(Ver(x, starts[x])) == Lookup(s)(x)
    requires forall x :: x in ssa.Keys - w ==> m(Ver(x, ssa[x])) == Lookup(s)(x)
    requires i < |perms| && x in xs
    ensures var ends := OrderEnds(perms, ssa, starts, x);
      i < |ends| && m(Ver(x, ends[i])) == Lookup(RunFlows(perms[i], s, div0))(x)
    decreases |perms|
  {
    hide Mentioned, Within, OrderNext, OrderRules, RunFlows, Sat, AllFit, Written, Fits, EndOf, RulesVers, Upright,
         Runnable;
    FirstRuns(perms, xs, w, ssa, starts);
    var ru, rest := OrderRules(perms[0], ssa, starts), OrdersRules(perms[1..], OrderNext(perms[0], ssa), starts);
    SatConcat(ru, rest, m, div0);
    OrderFollows(perms[0], w, ssa, starts, m, s, div0);
    OrderEnd(perms[0], ssa, starts, x);
    if i > 0 {
      assert perms[1..][i - 1] == perms[i];
      OrdersFollow(perms[1..], i - 1, x, xs, w, OrderNext(perms[0], ssa), starts, m, s, div0);
    }
  }

  lemma {:induction false} CapsForce(caps: seq<Rule>, xs: set<string>, perms: seq<seq<Flow>>, ssa: Counters,
                                     starts: Counters, m: Model, div0: real -> real, x: string)
    returns (i: nat)
    requires IsCap(caps, xs, perms, ssa, starts) && Sat(caps, m, div0) && x in xs
    ensures i < |perms| && i < |OrderEnds(perms, ssa, starts, x)|
    ensures m(Ver(x, Advanced(OrdersNext(perms, ssa), x))) == m(Ver(x, OrderEnds(perms, ssa, starts, x)[i]))
  {
    assert RuleHolds(caps[0], m, div0);
    var y := caps[0].end.base;
    if x in {y} {
      EndsAre(perms, ssa, starts, x);
      i :| 0 <= i < |caps[0].nums| && m(caps[0].end) == m(Ver(x, caps[0].nums[i]));
    } else {
      SatConcat([caps[0]], caps[1..], m, div0);
      assert caps == [caps[0]] + caps[1..];
      i := CapsForce(caps[1..], xs - {y}, perms, ssa, starts, m, div0, x);
    }
  }

  // Values: what the versions a run can still read hold.

  /** The newest values, the values at the start of each top frame, and the level. */
  datatype Mem = Mem(cur: Store, start: Store, level: nat)

  ghost predicate Holding(m: Model, enc: Enc, mem: Mem) {
    && Tracks(m, enc.ssa, mem.cur, enc.ssa.Keys)
    && Tracks(m, enc.starts, mem.start, enc.starts.Keys)
    && enc.level == mem.level
  }

  /** What a group starts from: frames for what it writes, newest values otherwise. */
  function Base(w: set<string>, mem: Mem): Store {
    map x | x in mem.cur.Keys + w :: if x in w then Lookup(mem.start)(x) else mem.cur[x]
  }

  /** The run of one callstack as the rules have it, in the given order. */
  function StepMem(order: seq<Flow>, mem: Mem, div0: real -> real): Mem {
    if |order| == 0 then mem
    else if |order| == 1 then
      var x := order[0].x;
      var cur := RunFlow(order[0], mem.cur, div0);
      Mem(cur, if mem.level == 0 then mem.start[x := cur[x]] else mem.start, mem.level)
    else
      var after := RunFlows(order, Base(Written(order), mem), div0);
      Mem(Update(mem.cur, after, Mentioned(order)), Update(mem.start, after, Mentioned(order)), 1)
  }

  lemma BaseTracks(w: set<string>, enc: Enc, m: Model, mem: Mem)
    requires Holding(m, enc, mem) && w <= enc.starts.Keys && enc.starts.Keys <= enc.ssa.Keys
    ensures var s := Base(w, mem);
            && (forall x :: x in w ==> m(Ver(x, enc.starts[x])) == Lookup(s)(x))
            && (forall x :: x in enc.ssa.Keys - w ==> m(Ver(x, enc.ssa[x])) == Lookup(s)(x))
  {
  }

  lemma PermsOf(fs: seq<Flow>, enc: Enc)
    requires |fs| > 1 && StepFits(fs, enc) && Sound(enc)
    ensures Runnable(Permuts(fs, 0), Mentioned(fs), Written(fs), enc.ssa, enc.starts)
    ensures forall i :: 0 <= i < |Permuts(fs, 0)| ==> SameFlows(Permuts(fs, 0)[i], fs)
    ensures Upright(fs) ==> AllUpright(Permuts(fs, 0))
    ensures Allowed(fs) ==> AllWithin(Permuts(fs, 0), Written(fs))
  {
    hide AllFit, OrdersNext;
    ExactlyAllOrders(fs);
    var perms := Permuts(fs, 0);
    forall i | 0 <= i < |perms| ensures SameFlows(perms[i], fs) {
      assert perms[i] in perms;
    }
    hide Permuts, Allowed, Within;
    forall i | 0 <= i < |perms|
      ensures Upright(fs) ==> Upright(perms[i])
      ensures Mentioned(perms[i]) == Mentioned(fs) && Written(perms[i]) == Written(fs)
      ensures Allowed(fs) ==> Within(perms[i], Written(fs))
    {
      OrderSame(perms[i], fs);
    }
  }

  lemma OrderSame(o: seq<Flow>, fs: seq<Flow>)
    requires SameFlows(o, fs)
    ensures Mentioned(o) == Mentioned(fs) && Written(o) == Written(fs)
    ensures Upright(fs) ==> Upright(o)
    ensures Allowed(fs) ==> Within(o, Written(fs))
  {
    SameFlowsMention(o, fs);
    assert forall f :: f in o <==> f in multiset(o);
    assert forall f :: f in fs <==> f in multiset(fs);
    if Allowed(fs) {
      AllowedWithin(o);
    }
  }

  /** In any model of the rules of an orderly group, the fresh versions hold the
      outcome of one order. */
  lemma GroupFollows(fs: seq<Flow>, enc: Enc, ru: seq<Rule>, m: Model, s: Store, div0: real -> real)
    returns (order: seq<Flow>)
    requires |fs| > 1 && StepFits(fs, enc) && Sound(enc) && Orderly(fs)
    requires GroupEmits(fs, enc.ssa, enc.starts, ru) && Sat(ru, m, div0)
    requires forall x :: x in Written(fs) ==> m(Ver(x, enc.starts[x])) == Lookup(s)(x)
    requires forall x :: x in enc.ssa.Keys - Written(fs) ==> m(Ver(x, enc.ssa[x])) == Lookup(s)(x)
    ensures SameFlows(order, fs)
    ensures forall x :: x in Mentioned(fs) ==>
      m(Ver(x, Advanced(OrdersNext(Permuts(fs, 0), enc.ssa), x))) == Lookup(RunFlows(order, s, div0))(x)
  {
    var perms, w := Permuts(fs, 0), Written(fs);
    var caps :| IsCap(caps, Mentioned(fs), perms, enc.ssa, enc.starts)
      && ru == OrdersRules(perms, enc.ssa, enc.starts) + caps;
    hide GroupEmits, IsCap, OrdersRules, OrdersNext, Permuts, Sat, RunFlows, OrderEnds, Runnable, AllFit, CanBump;
    SatConcat(OrdersRules(perms, enc.ssa, enc.starts), caps, m, div0);
    PermsOf(fs, enc);
    var xs := Listing(Mentioned(fs));
    var choice := ChoiceFor(xs, fs, caps, enc, m, s, div0);
    order := OneOrder(fs, choice, s, div0);
  }

  lemma {:induction false} ChoiceFor(xs: seq<string>, fs: seq<Flow>, caps: seq<Rule>, enc: Enc, m: Model, s: Store,
                                     div0: real -> real)
    returns (choice: map<string, seq<Flow>>)
    requires |fs| > 1 && StepFits(fs, enc) && Sound(enc) && Orderly(fs)
    requires IsCap(caps, Mentioned(fs), Permuts(fs, 0), enc.ssa, enc.starts) && Sat(caps, m, div0)
    requires Sat(OrdersRules(Permuts(fs, 0), enc.ssa, enc.starts), m, div0)
    requires forall x :: x in Written(fs) ==> m(Ver(x, enc.starts[x])) == Lookup(s)(x)
    requires forall x :: x in enc.ssa.Keys - Written(fs) ==> m(Ver(x, enc.ssa[x])) == Lookup(s)(x)
    requires forall x :: x in xs ==> x in Mentioned(fs)
    ensures forall x :: x in choice <==> x in xs
    ensures forall x :: x in choice ==> SameFlows(choice[x], fs)
    ensures forall x :: x in choice ==>
      m(Ver(x, Advanced(OrdersNext(Permuts(fs, 0), enc.ssa), x))) == Lookup(RunFlows(choice[x], s, div0))(x)
  {
    hide IsCap, OrdersRules, OrdersNext, Permuts, Sat, RunFlows, OrderEnds, Mentioned, Upright, Runnable, StepFits,
         Sound;
    if xs == [] {
      choice := map[];
    } else {
      var rest := ChoiceFor(xs[1..], fs, caps, enc, m, s, div0);
      var x, perms := xs[0], Permuts(fs, 0);
      var i := CapsForce(caps, Mentioned(fs), perms, enc.ssa, enc.starts, m, div0, x);
      PermsOf(fs, enc);
      OrdersFollow(perms, i, x, Mentioned(fs), Written(fs), enc.ssa, enc.starts, m, s, div0);
      choice := rest[x := perms[i]];
    }
  }

  lemma StepKeeps(fs: seq<Flow>, enc: Enc)
    requires StepFits(fs, enc) && Sound(enc)
    ensures Sound(StepNext(fs, enc)) && StepNext(fs, enc).ssa.Keys == enc.ssa.Keys
    ensures StepNext(fs, enc).starts.Keys == enc.starts.Keys
    ensures forall x :: x in enc.ssa ==> enc.ssa[x] <= StepNext(fs, enc).ssa[x]
    ensures enc.level <= 1 ==> StepNext(fs, enc).level <= 1
    ensures forall x :: x in enc.ssa && x !in Mentioned(fs) ==> StepNext(fs, enc).ssa[x] == enc.ssa[x]
  {
    hide Permuts, OrdersNext, AllFit, Allowed, ReadBy;
    if |fs| == 1 {
      assert fs[0] in fs;
      assert fs[0].x in Mentioned(fs);
    } else if |fs| > 1 {
      PermsOf(fs, enc);
      OrdersGrow(Permuts(fs, 0), Mentioned(fs), Written(fs), enc.ssa, enc.starts);
    }
  }

  /** Every model of what a callstack emits is a run of its flows in some order. */
  lemma StepFollows(fs: seq<Flow>, enc: Enc, ru: seq<Rule>, m: Model, mem: Mem, div0: real -> real)
    returns (order: seq<Flow>)
    requires StepFits(fs, enc) && Sound(enc) && StepEmits(fs, enc, ru) && Sat(ru, m, div0) && Holding(m, enc, mem)
    requires |fs| > 1 ==> Orderly(fs)
    ensures SameFlows(order, fs) && Holding(m, StepNext(fs, enc), StepMem(order, mem, div0))
  {
    if |fs| == 0 {
      order := fs;
    } else if |fs| == 1 {
      order := fs;
      assert RuleHolds(ru[0], m, div0);
      SingleFollows(fs[0], fs, enc, m, mem, div0);
    } else {
      hide Permuts, OrdersNext, AllFit, Allowed, GroupEmits, Mentioned, Written, RunFlows, CanBump;
      BaseTracks(Written(fs), enc, m, mem);
      order := GroupFollows(fs, enc, ru, m, Base(Written(fs), mem), div0);
      SameFlowsMention(order, fs);
      assert Mentioned(order) == Mentioned(fs) by { MentionedSame(order, fs); }
      StepKeeps(fs, enc);
      GroupHolds(fs, order, enc, m, mem, div0);
    }
  }

  lemma MentionedSame(fs: seq<Flow>, gs: seq<Flow>)
    requires SameFlows(fs, gs)
    ensures Mentioned(fs) == Mentioned(gs)
  {
    SameFlowsMention(fs, gs);
  }

  lemma SingleFollows(f: Flow, fs: seq<Flow>, enc: Enc, m: Model, mem: Mem, div0: real -> real)
    requires fs == [f] && StepFits(fs, enc) && Sound(enc) && Holding(m, enc, mem)
    requires RuleHolds(Define(Ver(f.x, Advanced(enc.ssa, f.x)), Rhs(enc.ssa, f.x, Body(f))), m, div0)
    ensures Holding(m, StepNext(fs, enc), StepMem(fs, mem, div0))
  {
    hide Allowed, AllFit, OrdersNext, Permuts, BumpAll;
    assert f in fs;
    assert Refs(Body(f)) <= Mentioned(fs);
    EvalAt(enc.ssa, Body(f), m, mem.cur, div0);
  }

  lemma GroupHolds(fs: seq<Flow>, order: seq<Flow>, enc: Enc, m: Model, mem: Mem, div0: real -> real)
    requires |fs| > 1 && StepFits(fs, enc) && Sound(enc) && Holding(m, enc, mem) && SameFlows(order, fs)
    requires forall x :: x in Mentioned(fs) ==>
      m(Ver(x, Advanced(OrdersNext(Permuts(fs, 0), enc.ssa), x)))
      == Lookup(RunFlows(order, Base(Written(fs), mem), div0))(x)
    ensures Holding(m, StepNext(fs, enc), StepMem(order, mem, div0))
  {
    hide Permuts, OrdersNext, AllFit, Allowed, RunFlows, Mentioned, Written, Base;
    SameFlowsMention(order, fs);
    MentionedSame(order, fs);
    AfterHolds(fs, RunFlows(order, Base(Written(fs), mem), div0), enc, m, mem);
  }

  lemma AfterHolds(fs: seq<Flow>, after: Store, enc: Enc, m: Model, mem: Mem)
    requires |fs| > 1 && StepFits(fs, enc) && Sound(enc) && Holding(m, enc, mem)
    requires forall x :: x in Mentioned(fs) ==>
      m(Ver(x, Advanced(OrdersNext(Permuts(fs, 0), enc.ssa), x))) == Lookup(after)(x)
    ensures Holding(m, StepNext(fs, enc),
                    Mem(Update(mem.cur, after, Mentioned(fs)), Update(mem.start, after, Mentioned(fs)), 1))
  {
    hide Permuts, OrdersNext, AllFit, Allowed, CanBump, Update, Tracks, Mentioned, Written;
    StepKeeps(fs, enc);
    var xs, enc' := Mentioned(fs), StepNext(fs, enc);
    assert enc'.ssa == GroupNext(fs, enc.ssa) && enc'.starts == Restart(enc.starts, xs, enc'.ssa);
    UpdateTracks(enc.ssa, enc'.ssa, xs, m, mem.cur, after);
    UpdateTracks(enc.starts, enc'.starts, xs, m, mem.start, after);
  }

  lemma UpdateTracks(ssa: Counters, ssa': Counters, xs: set<string>, m: Model, s: Store, after: Store)
    requires Tracks(m, ssa, s, ssa.Keys) && ssa'.Keys == ssa.Keys
    requires forall x :: x in ssa ==> if x in xs then m(Ver(x, ssa'[x])) == Lookup(after)(x) else ssa'[x] == ssa[x]
    ensures Tracks(m, ssa', Update(s, after, xs), ssa'.Keys)
  {
  }

  // Whole runs.

  ghost predicate RunEmits(steps: seq<seq<Flow>>, enc: Enc, rs: seq<seq<Rule>>) {
    && |rs| == |steps|
    && (steps != [] ==> StepEmits(steps[0], enc, rs[0]) && RunEmits(steps[1..], StepNext(steps[0], enc), rs[1..]))
  }

  function RunNext(steps: seq<seq<Flow>>, enc: Enc): Enc {
    if steps == [] then enc else RunNext(steps[1..], StepNext(steps[0], enc))
  }

  predicate RunFits(steps: seq<seq<Flow>>, enc: Enc) {
    steps == [] || (StepFits(steps[0], enc) && RunFits(steps[1..], StepNext(steps[0], enc)))
  }

  /** Every group is orderly. */
  predicate RunOrderly(steps: seq<seq<Flow>>) {
    forall i :: 0 <= i < |steps| && |steps[i]| > 1 ==> Orderly(steps[i])
  }

  ghost predicate RunSat(rs: seq<seq<Rule>>, m: Model, div0: real -> real) {
    forall i :: 0 <= i < |rs| ==> Sat(rs[i], m, div0)
  }

  /** One order for the flows of each callstack. */
  predicate Orderings(orders: seq<seq<Flow>>, steps: seq<seq<Flow>>) {
    |orders| == |steps| && forall i :: 0 <= i < |orders| ==> SameFlows(orders[i], steps[i])
  }

  function RunMem(orders: seq<seq<Flow>>, mem: Mem, div0: real -> real): Mem {
    if orders == [] then mem else RunMem(orders[1..], StepMem(orders[0], mem, div0), div0)
  }

  /** Where groups are orderly, every model of the rules of a whole run is a run, each
      callstack in some order. */
  lemma {:induction false} RunFollows(steps: seq<seq<Flow>>, enc: Enc, rs: seq<seq<Rule>>, m: Model, mem: Mem,
                                      div0: real -> real)
    returns (orders: seq<seq<Flow>>)
    requires RunFits(steps, enc) && Sound(enc) && RunEmits(steps, enc, rs) && RunSat(rs, m, div0)
    requires Holding(m, enc, mem)
    requires RunOrderly(steps)
    ensures Orderings(orders, steps) && Holding(m, RunNext(steps, enc), RunMem(orders, mem, div0))
    decreases |steps|
  {
    hide StepFits, Sound, StepEmits, Sat, Holding, SameFlows, StepNext, StepMem, Orderly;
    if steps == [] {
      orders := [];
    } else {
      StepKeeps(steps[0], enc);
      assert Sat(rs[0], m, div0);
      var order := StepFollows(steps[0], enc, rs[0], m, mem, div0);
      assert RunSat(rs[1..], m, div0);
      var rest := RunFollows(steps[1..], StepNext(steps[0], enc), rs[1..], m, StepMem(order, mem, div0), div0);
      orders := [order] + rest;
      assert orders[1..] == rest;
    }
  }
}
