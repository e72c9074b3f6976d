/** What the rules for a group allow when its flows do not all read right: a flow whose
    operand is compound takes the read of the frame's start for a variable of that operand
    and reads its own variable at the newest version, where the option before left it. */
module ParallelReads {
  import opened Lang
  import opened Emission
  import opened Encoding
  import opened Exactness
  import opened Forks
  import opened Orders
  import opened Permutations
  import opened Parallel
  import opened ParallelModels

  // Options run on values.

  /** The value of an expression, its variables converted in the order `Convert` does: the
      first from the frames' starts while the flag is set, the others from the newest. */
  function Reading(e: Expr<string>, cur: Store, start: Store, flag: bool, div0: real -> real): real {
    match e
    case Lit(r) => r
    case Ref(x) => Lookup(if flag then start else cur)(x)
    case Bin(op, l, r) =>
      var afterL := if l.Bin? then FlagAfter(l, flag) else flag;
      var afterR := if r.Bin? then FlagAfter(r, afterL) else afterL;
      Apply(op,
            Reading(l, cur, start, if l.Bin? then flag else afterR, div0),
            Reading(r, cur, start, if r.Bin? then afterL else if l.Bin? then afterR else FlagAfter(l, afterR), div0),
            div0)
  }

  /** The newest values after an order. */
  function OrderRun(fs: seq<Flow>, cur: Store, start: Store, div0: real -> real): Store {
    if fs == [] then cur
    else
      var n := Reading(Body(fs[0]), cur, start, true, div0);
      OrderRun(fs[1..], cur[fs[0].x := n], start[fs[0].x := n], div0)
  }

  /** The newest values after each option: the frames are those the group started from, the
      newest values are where the option before ended. */
  function OptionRuns(perms: seq<seq<Flow>>, cur: Store, start: Store, div0: real -> real): seq<Store> {
    if perms == [] then []
    else
      var cur' := OrderRun(perms[0], cur, start, div0);
      [cur'] + OptionRuns(perms[1..], cur', start, div0)
  }

  lemma {:induction false} OptionCount(perms: seq<seq<Flow>>, cur: Store, start: Store, div0: real -> real)
    ensures |OptionRuns(perms, cur, start, div0)| == |perms|
  {
    if perms != [] {
      OptionCount(perms[1..], OrderRun(perms[0], cur, start, div0), start, div0);
    }
  }

  // What the rules force.

  lemma {:induction false} ConvertReads(e: Expr<string>, ssa: Counters, starts: Counters, m: Model, cur: Store,
                                        start: Store, flag: bool, div0: real -> real)
    requires Tracks(m, ssa, cur, Refs(e)) && Tracks(m, starts, start, Refs(e))
    ensures Eval(Convert(ssa, starts, e, flag), m, div0) == Reading(e, cur, start, flag, div0)
  {
    match e
    case Lit(_) =>
    case Ref(_) =>
    case Bin(_, l, r) =>
      var afterL := if l.Bin? then FlagAfter(l, flag) else flag;
      var afterR := if r.Bin? then FlagAfter(r, afterL) else afterL;
      ConvertReads(l, ssa, starts, m, cur, start, if l.Bin? then flag else afterR, div0);
      ConvertReads(r, ssa, starts, m, cur, start,
                   if r.Bin? then afterL else if l.Bin? then afterR else FlagAfter(l, afterR), div0);
  }

  /** In a model of an order's rules the newest versions hold the newest values. */
  lemma {:induction false} OrderReads(fs: seq<Flow>, xs: set<string>, ssa: Counters, starts: Counters, m: Model,
                                      cur: Store, start: Store, div0: real -> real)
    requires Mentioned(fs) <= xs && Sat(OrderRules(fs, ssa, starts), m, div0)
    requires Tracks(m, ssa, cur, xs) && Tracks(m, starts, start, xs)
    ensures Tracks(m, OrderNext(fs, ssa), OrderRun(fs, cur, start, div0), xs)
    decreases |fs|
  {
    hide Mentioned, Reading, Convert, Sat, FlowRule;
    if fs != [] {
      var f, x := fs[0], fs[0].x;
      var n := Reading(Body(f), cur, start, true, div0);
      var ssa', starts', r := Bump(ssa, x), starts[x := Advanced(ssa, x)], FlowRule(f, ssa, starts);
      FirstMentioned(fs);
      OneMentions(f);
      assert Sat([r], m, div0) && Sat(OrderRules(fs[1..], ssa', starts'), m, div0) by {
        SatConcat([r], OrderRules(fs[1..], ssa', starts'), m, div0);
      }
      FlowReads(f, xs, ssa, starts, m, cur, start, div0);
      OrderReads(fs[1..], xs, ssa', starts', m, cur[x := n], start[x := n], div0);
    }
  }

  lemma FlowReads(f: Flow, xs: set<string>, ssa: Counters, starts: Counters, m: Model, cur: Store, start: Store,
                  div0: real -> real)
    requires Refs(Body(f)) <= xs && Sat([FlowRule(f, ssa, starts)], m, div0)
    requires Tracks(m, ssa, cur, xs) && Tracks(m, starts, start, xs)
    ensures var n := Reading(Body(f), cur, start, true, div0);
      && Tracks(m, Bump(ssa, f.x), cur[f.x := n], xs)
      && Tracks(m, starts[f.x := Advanced(ssa, f.x)], start[f.x := n], xs)
  {
    hide Reading, Convert;
    ConvertReads(Body(f), ssa, starts, m, cur, start, true, div0);
    assert RuleHolds([FlowRule(f, ssa, starts)][0], m, div0);
  }

  /** Each choice ends with the value its option leaves. */
  lemma {:induction false} OptionsRead(perms: seq<seq<Flow>>, i: nat, x: string, xs: set<string>, w: set<string>,
                                       ssa: Counters, starts: Counters, m: Model, cur: Store, start: Store,
                                       div0: real -> real)
    requires Runnable(perms, xs, w, ssa, starts) && Sat(OrdersRules(perms, ssa, starts), m, div0)
    requires Tracks(m, ssa, cur, xs) && Tracks(m, starts, start, xs) && i < |perms| && x in w
    ensures var (ends, runs) := (OrderEnds(perms, ssa, starts, x), OptionRuns(perms, cur, start, div0));
      i < |ends| && i < |runs| && m(Ver(x, ends[i])) == Lookup(runs[i])(x)
    decreases |perms|
  {
    hide Mentioned, Written, Within, OrderNext, OrderRules, Sat, AllFit, Fits, EndOf, RulesVers, Runnable, OrderRun,
         Tracks, Lookup;
    FirstRuns(perms, xs, w, ssa, starts);
    var ssa', cur' := OrderNext(perms[0], ssa), OrderRun(perms[0], cur, start, div0);
    SatConcat(OrderRules(perms[0], ssa, starts), OrdersRules(perms[1..], ssa', starts), m, div0);
    OrderReads(perms[0], xs, ssa, starts, m, cur, start, div0);
    OrderEnd(perms[0], ssa, starts, x);
    assert x in xs;
    TracksAt(m, ssa', cur', xs, x);
    if i > 0 {
      OptionsRead(perms[1..], i - 1, x, xs, w, ssa', starts, m, cur', start, div0);
    }
  }

  lemma TracksAt(m: Model, ssa: Counters, s: Store, xs: set<string>, x: string)
    requires Tracks(m, ssa, s, xs) && x in xs
    ensures m(Ver(x, Count(ssa, x))) == Lookup(s)(x)
  {
  }

  // The exact meaning of a group.

  /** Some model of the group's rules gives the fresh version of `x` this value. */
  ghost predicate Allows(fs: seq<Flow>, enc: Enc, ru: seq<Rule>, m0: Model, div0: real -> real, x: string, value: real)
    requires x in StepNext(fs, enc).ssa
  {
    exists m :: AgreeOn(enc.ssa, m0, m) && Sat(ru, m, div0) && m(Ver(x, StepNext(fs, enc).ssa[x])) == value
  }

  /** The values the options leave in `x`. */
  function OptionValues(fs: seq<Flow>, mem: Mem, div0: real -> real, x: string): set<real> {
    set end | end in OptionRuns(Permuts(fs, 0), mem.cur, mem.start, div0) :: Lookup(end)(x)
  }

  /** The values the flows leave in `x` when run atomically in some order. */
  function OrderValues(fs: seq<Flow>, s: Store, div0: real -> real, x: string): set<real> {
    set order | order in Permuts(fs, 0) :: Lookup(RunFlows(order, s, div0))(x)
  }

  /** Whatever the flows of a group read: the rules allow for a variable they write exactly
      the values the options leave. */
  lemma GroupAllows(fs: seq<Flow>, enc: Enc, ru: seq<Rule>, m0: Model, mem: Mem, div0: real -> real, x: string,
                    value: real)
    requires |fs| > 1 && StepFits(fs, enc) && Sound(enc) && GroupEmits(fs, enc.ssa, enc.starts, ru)
    requires Holding(m0, enc, mem)
    requires x in Written(fs)
    ensures x in StepNext(fs, enc).ssa
    ensures Allows(fs, enc, ru, m0, div0, x, value) <==> value in OptionValues(fs, mem, div0, x)
  {
    hide GroupEmits, AgreeOn, Sat, Holding, StepFits, Sound, Permuts, OptionRuns, Lookup, StepNext, Written;
    FreshVersion(fs, enc, x);
    if Allows(fs, enc, ru, m0, div0, x, value) {
      var m: Model :| AgreeOn(enc.ssa, m0, m) && Sat(ru, m, div0) && m(Ver(x, StepNext(fs, enc).ssa[x])) == value;
      HoldingKept(enc, m0, m, mem);
      var i := AllowedEnds(fs, enc, ru, m, mem, div0, x);
      var runs := OptionRuns(Permuts(fs, 0), mem.cur, mem.start, div0);
      assert runs[i] in runs;
    }
    if value in OptionValues(fs, mem, div0, x) {
      var runs := OptionRuns(Permuts(fs, 0), mem.cur, mem.start, div0);
      var i :| 0 <= i < |runs| && value == Lookup(runs[i])(x);
      OptionCount(Permuts(fs, 0), mem.cur, mem.start, div0);
      var m := EndAllowed(fs, enc, ru, m0, mem, div0, x, i);
    }
  }

  lemma FreshVersion(fs: seq<Flow>, enc: Enc, x: string)
    requires |fs| > 1 && StepFits(fs, enc) && Sound(enc) && x in Written(fs)
    ensures x in StepNext(fs, enc).ssa && StepNext(fs, enc).ssa[x] == Advanced(OrdersNext(Permuts(fs, 0), enc.ssa), x)
  {
    hide Permuts, AllFit, OrdersNext, Allowed;
    StepKeeps(fs, enc);
  }

  lemma AllowedEnds(fs: seq<Flow>, enc: Enc, ru: seq<Rule>, m: Model, mem: Mem, div0: real -> real, x: string)
    returns (i: nat)
    requires |fs| > 1 && StepFits(fs, enc) && Sound(enc) && GroupEmits(fs, enc.ssa, enc.starts, ru)
    requires Holding(m, enc, mem)
    requires x in Written(fs) && Sat(ru, m, div0)
    ensures var runs := OptionRuns(Permuts(fs, 0), mem.cur, mem.start, div0);
      && i < |runs|
      && m(Ver(x, Advanced(OrdersNext(Permuts(fs, 0), enc.ssa), x))) == Lookup(runs[i])(x)
  {
    var perms := Permuts(fs, 0);
    var caps :| IsCap(caps, Mentioned(fs), perms, enc.ssa, enc.starts)
      && ru == OrdersRules(perms, enc.ssa, enc.starts) + caps;
    hide IsCap, OrdersRules, OrdersNext, OrderEnds, Permuts, Sat, Runnable, OptionRuns, Lookup, GroupEmits;
    SatConcat(OrdersRules(perms, enc.ssa, enc.starts), caps, m, div0);
    i := CapsForce(caps, Mentioned(fs), perms, enc.ssa, enc.starts, m, div0, x);
    OptionEnd(fs, enc, m, mem, div0, x, i);
  }

  lemma OptionEnd(fs: seq<Flow>, enc: Enc, m: Model, mem: Mem, div0: real -> real, x: string, i: nat)
    requires |fs| > 1 && StepFits(fs, enc) && Sound(enc) && Holding(m, enc, mem) && x in Written(fs)
    requires i < |Permuts(fs, 0)|
    requires Sat(OrdersRules(Permuts(fs, 0), enc.ssa, enc.starts), m, div0)
    ensures var (ends, runs) :=
      (OrderEnds(Permuts(fs, 0), enc.ssa, enc.starts, x), OptionRuns(Permuts(fs, 0), mem.cur, mem.start, div0));
      i < |ends| && i < |runs| && m(Ver(x, ends[i])) == Lookup(runs[i])(x)
  {
    PermsOf(fs, enc);
    hide OrdersRules, OrdersNext, OrderEnds, Permuts, Sat, Runnable, OptionRuns, Lookup, AllFit, Allowed;
    OptionsRead(Permuts(fs, 0), i, x, Mentioned(fs), Written(fs), enc.ssa, enc.starts, m, mem.cur, mem.start, div0);
  }

  lemma EndAllowed(fs: seq<Flow>, enc: Enc, ru: seq<Rule>, m0: Model, mem: Mem, div0: real -> real, x: string, i: nat)
    returns (m: Model)
    requires |fs| > 1 && StepFits(fs, enc) && Sound(enc) && GroupEmits(fs, enc.ssa, enc.starts, ru)
    requires Holding(m0, enc, mem)
    requires x in Written(fs) && i < |Permuts(fs, 0)|
    ensures AgreeOn(enc.ssa, m0, m) && Sat(ru, m, div0)
    ensures var runs := OptionRuns(Permuts(fs, 0), mem.cur, mem.start, div0);
      && i < |runs|
      && m(Ver(x, Advanced(OrdersNext(Permuts(fs, 0), enc.ssa), x))) == Lookup(runs[i])(x)
  {
    var pick: map<string, nat> := map x | x in Mentioned(fs) :: i;
    m := OptionHas(fs, enc, ru, pick, m0, div0);
    HoldingKept(enc, m0, m, mem);
    OptionEnd(fs, enc, m, mem, div0, x, i);
  }

  /** As a corollary, a group is encoded exactly when its options leave what its orders do. */
  lemma GroupExact(fs: seq<Flow>, enc: Enc, ru: seq<Rule>, m0: Model, mem: Mem, s: Store, div0: real -> real, x: string)
    requires |fs| > 1 && StepFits(fs, enc) && Sound(enc) && GroupEmits(fs, enc.ssa, enc.starts, ru)
    requires Holding(m0, enc, mem)
    requires x in Written(fs)
    ensures x in StepNext(fs, enc).ssa
    ensures (forall value :: Allows(fs, enc, ru, m0, div0, x, value) <==> Gives(fs, s, div0, x, value))
       <==> OptionValues(fs, mem, div0, x) == OrderValues(fs, s, div0, x)
  {
    hide GroupEmits, Holding, StepFits, Sound, OptionValues, OrderValues, StepNext, Written, Allows, Gives;
    FreshVersion(fs, enc, x);
    forall value
      ensures Allows(fs, enc, ru, m0, div0, x, value) <==> value in OptionValues(fs, mem, div0, x)
      ensures Gives(fs, s, div0, x, value) <==> value in OrderValues(fs, s, div0, x)
    {
      GroupAllows(fs, enc, ru, m0, mem, div0, x, value);
      OrdersGive(fs, s, div0, x, value);
    }
    if forall value :: Allows(fs, enc, ru, m0, div0, x, value) <==> Gives(fs, s, div0, x, value) {
      forall value ensures value in OptionValues(fs, mem, div0, x) <==> value in OrderValues(fs, s, div0, x) {
        assert Allows(fs, enc, ru, m0, div0, x, value) <==> Gives(fs, s, div0, x, value);
      }
    }
  }

  /** Running the flows atomically in some order leaves this value in `x`. */
  ghost predicate Gives(fs: seq<Flow>, s: Store, div0: real -> real, x: string, value: real) {
    exists order :: SameFlows(order, fs) && Lookup(RunFlows(order, s, div0))(x) == value
  }

  lemma OrdersGive(fs: seq<Flow>, s: Store, div0: real -> real, x: string, value: real)
    ensures Gives(fs, s, div0, x, value) <==> value in OrderValues(fs, s, div0, x)
  {
    hide Lookup, RunFlows, Permuts;
    ExactlyAllOrders(fs);
  }

  // Groups that read right.

  /** Where the flows read right every option is its order, run from the frames. */
  lemma {:induction false} OrderUpright(fs: seq<Flow>, w: set<string>, cur: Store, start: Store, s: Store,
                                        div0: real -> real, x: string)
    requires Within(fs, w) && Upright(fs) && x in w
    requires forall y :: Lookup(s)(y) == Lookup(if y in w then start else cur)(y)
    ensures forall y :: y !in w ==> Lookup(OrderRun(fs, cur, start, div0))(y) == Lookup(cur)(y)
    ensures x in Written(fs) ==> Lookup(OrderRun(fs, cur, start, div0))(x) == Lookup(RunFlows(fs, s, div0))(x)
    decreases |fs|
  {
    hide Upright, Reading;
    if fs != [] {
      var f, gs := fs[0], fs[1..];
      var n := Reading(Body(f), cur, start, true, div0);
      assert f in fs;
      FirstMentioned(fs);
      OneMentions(f);
      RightValue(f, w, cur, start, s, div0);
      OrderUpright(gs, w, cur[f.x := n], start[f.x := n], RunFlow(f, s, div0), div0, x);
      if x !in Written(gs) {
        OrderKept(gs, cur[f.x := n], start[f.x := n], div0, x);
        OthersKept(gs, RunFlow(f, s, div0), x, div0);
      }
    }
  }

  lemma {:induction false} OptionsUpright(perms: seq<seq<Flow>>, i: nat, w: set<string>, cur: Store, start: Store,
                                          s: Store, div0: real -> real, x: string)
    requires forall j :: 0 <= j < |perms| ==> Within(perms[j], w) && Upright(perms[j]) && Written(perms[j]) == w
    requires i < |perms| && x in w && forall y :: Lookup(s)(y) == Lookup(if y in w then start else cur)(y)
    ensures var runs := OptionRuns(perms, cur, start, div0);
      i < |runs| && Lookup(runs[i])(x) == Lookup(RunFlows(perms[i], s, div0))(x)
    decreases |perms|
  {
    hide Within, Upright, Written, RunFlows, OrderRun, Lookup;
    var cur' := OrderRun(perms[0], cur, start, div0);
    OrderUpright(perms[0], w, cur, start, s, div0, x);
    OptionCount(perms, cur, start, div0);
    if i > 0 {
      OptionsUpright(perms[1..], i - 1, w, cur', start, s, div0, x);
    }
  }

  /** So the options of an orderly group leave what its orders leave. */
  lemma UprightExact(fs: seq<Flow>, enc: Enc, mem: Mem, div0: real -> real, x: string)
    requires |fs| > 1 && StepFits(fs, enc) && Sound(enc) && Orderly(fs) && x in Written(fs)
    ensures OptionValues(fs, mem, div0, x) == OrderValues(fs, Base(Written(fs), mem), div0, x)
  {
    hide Permuts, OptionRuns, AllFit, OrdersNext, RunFlows, Upright, Within;
    var perms, s := Permuts(fs, 0), Base(Written(fs), mem);
    var runs := OptionRuns(perms, mem.cur, mem.start, div0);
    PermsOf(fs, enc);
    OptionCount(perms, mem.cur, mem.start, div0);
    assert forall y :: Lookup(s)(y) == Lookup(if y in Written(fs) then mem.start else mem.cur)(y);
    hide Written, Lookup, Base;
    forall i | 0 <= i < |perms| ensures Lookup(runs[i])(x) == Lookup(RunFlows(perms[i], s, div0))(x) {
      OptionsUpright(perms, i, Written(fs), mem.cur, mem.start, s, div0, x);
    }
    SameValues(runs, perms, s, div0, x);
  }

  lemma SameValues(runs: seq<Store>, perms: seq<seq<Flow>>, s: Store, div0: real -> real, x: string)
    requires |runs| == |perms|
    requires forall i :: 0 <= i < |perms| ==> Lookup(runs[i])(x) == Lookup(RunFlows(perms[i], s, div0))(x)
    ensures (set end | end in runs :: Lookup(end)(x)) ==
      (set order | order in perms :: Lookup(RunFlows(order, s, div0))(x))
  {
    hide Lookup, RunFlows;
    var a := set end | end in runs :: Lookup(end)(x);
    var b := set order | order in perms :: Lookup(RunFlows(order, s, div0))(x);
    forall value | value in a ensures value in b {
      var i :| 0 <= i < |runs| && value == Lookup(runs[i])(x);
      assert perms[i] in perms;
    }
    forall value | value in b ensures value in a {
      var i :| 0 <= i < |perms| && value == Lookup(RunFlows(perms[i], s, div0))(x);
      assert runs[i] in runs;
    }
  }

  lemma RightValue(f: Flow, w: set<string>, cur: Store, start: Store, s: Store, div0: real -> real)
    requires ReadsRight(f) && f.x in w && Refs(f.rest) !! w
    requires forall y :: Lookup(s)(y) == Lookup(if y in w then start else cur)(y)
    ensures Reading(Body(f), cur, start, true, div0) == Eval(Body(f), Lookup(s), div0)
  {
    ReadingNewest(f.rest, cur, start, f.rest.Bin?, div0);
    EvalDepends(f.rest, Lookup(cur), Lookup(s), div0);
    var e: Expr<string> := Ref(f.x);
    assert Eval(e, Lookup(s), div0) == Lookup(start)(f.x) == Reading(e, cur, start, true, div0);
  }

  /** Reading without the flag, or without variables, or where the frames are fresh. */
  lemma {:induction false} ReadingNewest(e: Expr<string>, cur: Store, start: Store, flag: bool, div0: real -> real)
    requires flag ==> forall y :: y in Refs(e) ==> Lookup(start)(y) == Lookup(cur)(y)
    ensures Reading(e, cur, start, flag, div0) == Eval(e, Lookup(cur), div0)
  {
    match e
    case Lit(_) =>
    case Ref(_) =>
    case Bin(_, l, r) =>
      var afterL := if l.Bin? then FlagAfter(l, flag) else flag;
      var afterR := if r.Bin? then FlagAfter(r, afterL) else afterL;
      ReadingNewest(l, cur, start, if l.Bin? then flag else afterR, div0);
      ReadingNewest(r, cur, start, if r.Bin? then afterL else if l.Bin? then afterR else FlagAfter(l, afterR), div0);
  }

  lemma {:induction false} OrderKept(fs: seq<Flow>, cur: Store, start: Store, div0: real -> real, x: string)
    requires x !in Written(fs)
    ensures Lookup(OrderRun(fs, cur, start, div0))(x) == Lookup(cur)(x)
    decreases |fs|
  {
    if fs != [] {
      var n := Reading(Body(fs[0]), cur, start, true, div0);
      assert fs[0].x in Written(fs);
      OrderKept(fs[1..], cur[fs[0].x := n], start[fs[0].x := n], div0, x);
    }
  }

  // Groups that do not.

  /** No flow writing `x` reads it at the frame's start. */
  predicate Misread(fs: seq<Flow>, x: string) {
    forall f :: f in fs && f.x == x ==> !ReadsRight(f)
  }

  function Chain(perms: seq<seq<Flow>>): seq<Flow> {
    if perms == [] then [] else perms[0] + Chain(perms[1..])
  }

  lemma MisreadValue(f: Flow, w: set<string>, cur: Store, start: Store, s: Store, div0: real -> real)
    requires !ReadsRight(f) && f.x in w && Refs(f.rest) !! w && Lookup(cur)(f.x) == Lookup(s)(f.x)
    requires forall y :: y !in w ==> Lookup(start)(y) == Lookup(cur)(y) == Lookup(s)(y)
    ensures Reading(Body(f), cur, start, true, div0) == Eval(Body(f), Lookup(s), div0)
  {
    ReadingNewest(f.rest, cur, start, true, div0);
    EvalDepends(f.rest, Lookup(cur), Lookup(s), div0);
    var e: Expr<string> := Ref(f.x);
    assert Eval(e, Lookup(s), div0) == Lookup(cur)(f.x) == Reading(e, cur, start, false, div0);
  }

  /** An order whose flows misread `x` runs on from the newest value of `x`. */
  lemma {:induction false} OrderMisread(fs: seq<Flow>, w: set<string>, cur: Store, start: Store, s: Store,
                                        div0: real -> real, x: string)
    requires Within(fs, w) && Misread(fs, x) && x in w && Lookup(cur)(x) == Lookup(s)(x)
    requires forall y :: y !in w ==> Lookup(start)(y) == Lookup(cur)(y) == Lookup(s)(y)
    ensures var (end, end') := (OrderRun(fs, cur, start, div0), RunFlows(fs, s, div0));
      && Lookup(end)(x) == Lookup(end')(x)
      && forall y :: y !in w ==> Lookup(end)(y) == Lookup(end')(y) == Lookup(s)(y)
    decreases |fs|
  {
    hide Reading, ReadsRight;
    if fs != [] {
      var f, gs := fs[0], fs[1..];
      var n := Reading(Body(f), cur, start, true, div0);
      assert f in fs && forall g :: g in gs ==> g in fs;
      if f.x == x {
        MisreadValue(f, w, cur, start, s, div0);
      }
      OrderMisread(gs, w, cur[f.x := n], start[f.x := n], RunFlow(f, s, div0), div0, x);
    }
  }

  lemma {:induction false} RunConcat(fs: seq<Flow>, gs: seq<Flow>, s: Store, div0: real -> real)
    ensures RunFlows(fs + gs, s, div0) == RunFlows(gs, RunFlows(fs, s, div0), div0)
    decreases |fs|
  {
    if fs == [] {
      assert fs + gs == gs;
    } else {
      assert (fs + gs)[0] == fs[0] && (fs + gs)[1..] == fs[1..] + gs;
      RunConcat(fs[1..], gs, RunFlow(fs[0], s, div0), div0);
    }
  }

  /** The options are not alternatives then: each continues where the one before ended. */
  lemma {:induction false} OptionsChained(perms: seq<seq<Flow>>, i: nat, w: set<string>, cur: Store, start: Store,
                                          s: Store, div0: real -> real, x: string)
    requires (forall j :: 0 <= j < |perms| ==> Within(perms[j], w) && Misread(perms[j], x)) && x in w && i < |perms|
    requires Lookup(cur)(x) == Lookup(s)(x)
    requires forall y :: y !in w ==> Lookup(start)(y) == Lookup(cur)(y) == Lookup(s)(y)
    ensures var runs := OptionRuns(perms, cur, start, div0);
      i < |runs| && Lookup(runs[i])(x) == Lookup(RunFlows(Chain(perms[..i + 1]), s, div0))(x)
    decreases |perms|
  {
    hide Within, Misread, RunFlows, OrderRun, Lookup;
    var cur', s' := OrderRun(perms[0], cur, start, div0), RunFlows(perms[0], s, div0);
    OrderMisread(perms[0], w, cur, start, s, div0, x);
    OptionCount(perms, cur, start, div0);
    RunConcat(perms[0], Chain(perms[1..i + 1]), s, div0);
    assert perms[..i + 1][0] == perms[0] && perms[..i + 1][1..] == perms[1..i + 1];
    if i == 0 {
      assert perms[0] + Chain([]) == perms[0];
    } else {
      OptionsChained(perms[1..], i - 1, w, cur', start, s', div0, x);
      assert perms[1..][..i] == perms[1..i + 1];
    }
  }

  /** A variable all of whose flows misread it, in fresh frames and among flows that
      keep apart: the rules allow what running the orders one after the other leaves, after
      the first, the second, and so on. */
  lemma MisreadAllows(fs: seq<Flow>, enc: Enc, ru: seq<Rule>, m0: Model, mem: Mem, div0: real -> real, x: string,
                      value: real)
    requires |fs| > 1 && StepFits(fs, enc) && Sound(enc) && GroupEmits(fs, enc.ssa, enc.starts, ru)
    requires Holding(m0, enc, mem)
    requires x in Written(fs) && Misread(fs, x) && Allowed(fs) && Fresh(mem, {})
    ensures x in StepNext(fs, enc).ssa
    ensures Allows(fs, enc, ru, m0, div0, x, value) <==>
            exists i :: 0 <= i < |Permuts(fs, 0)| && Chained(fs, i, mem.cur, div0, x) == value
  {
    hide Allows, GroupEmits, Holding, StepFits, Sound, Permuts, OptionRuns, Lookup, StepNext, Written, Chained;
    FreshVersion(fs, enc, x);
    GroupAllows(fs, enc, ru, m0, mem, div0, x, value);
    var runs := OptionRuns(Permuts(fs, 0), mem.cur, mem.start, div0);
    OptionCount(Permuts(fs, 0), mem.cur, mem.start, div0);
    forall i | 0 <= i < |Permuts(fs, 0)| ensures Lookup(runs[i])(x) == Chained(fs, i, mem.cur, div0, x) {
      ChainedRun(fs, enc, mem, div0, x, i);
    }
    if value in OptionValues(fs, mem, div0, x) {
      var i :| 0 <= i < |runs| && value == Lookup(runs[i])(x);
    }
    if i :| 0 <= i < |Permuts(fs, 0)| && Chained(fs, i, mem.cur, div0, x) == value {
      assert runs[i] in runs;
    }
  }

  /** What the first `i + 1` orders, one after the other, leave in `x`. */
  function Chained(fs: seq<Flow>, i: nat, s: Store, div0: real -> real, x: string): real
    requires i < |Permuts(fs, 0)|
  {
    Lookup(RunFlows(Chain(Permuts(fs, 0)[..i + 1]), s, div0))(x)
  }

  lemma ChainedRun(fs: seq<Flow>, enc: Enc, mem: Mem, div0: real -> real, x: string, i: nat)
    requires |fs| > 1 && StepFits(fs, enc) && Sound(enc) && x in Written(fs) && Misread(fs, x) && Fresh(mem, {})
    requires Allowed(fs) && i < |Permuts(fs, 0)|
    ensures var runs := OptionRuns(Permuts(fs, 0), mem.cur, mem.start, div0);
      i < |runs| && Lookup(runs[i])(x) == Chained(fs, i, mem.cur, div0, x)
  {
    hide Permuts, OptionRuns, Lookup, AllFit, OrdersNext, RunFlows;
    var perms := Permuts(fs, 0);
    PermsOf(fs, enc);
    forall j | 0 <= j < |perms| ensures Within(perms[j], Written(fs)) && Misread(perms[j], x) {
      assert forall f :: f in perms[j] <==> f in multiset(perms[j]);
      assert forall f :: f in fs <==> f in multiset(fs);
    }
    OptionsChained(perms, i, Written(fs), mem.cur, mem.start, mem.cur, div0, x);
  }

  lemma LastPlace<T>(a: seq<T>)
    requires |a| == 2
    ensures Permuts(a, 1) == [a]
  {
    assert Swap(a, 1, 1) == a;
    assert PermutsFrom(a, 1, 1) == Permuts(a, 2) + PermutsFrom(a, 1, 2);
  }

  lemma TwoOrders<T>(a: T, b: T)
    ensures Permuts([a, b], 0) == [[a, b], [b, a]]
  {
    LastPlace([a, b]);
    LastPlace([b, a]);
    assert Swap([a, b], 0, 0) == [a, b] && Swap([a, b], 0, 1) == [b, a];
    assert PermutsFrom([a, b], 0, 1) == [[b, a]] + PermutsFrom([a, b], 0, 2);
    assert PermutsFrom([a, b], 0, 2) == [];
  }

  /** Two misreading flows of one variable: the rules are exact if and only if the second
      order leaves the same after the first as from the start. */
  lemma TwoMisreads(f: Flow, g: Flow, enc: Enc, ru: seq<Rule>, m0: Model, mem: Mem, div0: real -> real, x: string)
    requires StepFits([f, g], enc) && Sound(enc) && GroupEmits([f, g], enc.ssa, enc.starts, ru) && Holding(m0, enc, mem)
    requires f.x == g.x == x && !ReadsRight(f) && !ReadsRight(g) && Allowed([f, g]) && Fresh(mem, {})
    ensures x in StepNext([f, g], enc).ssa
    ensures var s := mem.cur;
      (forall value :: Allows([f, g], enc, ru, m0, div0, x, value) <==> Gives([f, g], s, div0, x, value))
      <==> Lookup(RunFlows([f, g, g, f], s, div0))(x) == Lookup(RunFlows([g, f], s, div0))(x)
  {
    hide GroupEmits, Holding, StepFits, Sound, StepNext, Fresh, Allows, Gives, Lookup, RunFlows, Permuts,
         ReadsRight, Chained;
    var fs, s := [f, g], mem.cur;
    assert x in Written(fs) && Misread(fs, x) by { assert f in fs && forall h :: h in fs ==> h == f || h == g; }
    FreshVersion(fs, enc, x);
    var first, second, chained := Lookup(RunFlows([f, g], s, div0))(x), Lookup(RunFlows([g, f], s, div0))(x),
                                  Lookup(RunFlows([f, g, g, f], s, div0))(x);
    forall value
      ensures Allows(fs, enc, ru, m0, div0, x, value) <==> value in {first, chained}
      ensures Gives(fs, s, div0, x, value) <==> value in {first, second}
    {
      MisreadAllows(fs, enc, ru, m0, mem, div0, x, value);
      TwoChained(f, g, s, div0, x);
      OrdersGive(fs, s, div0, x, value);
    }
    assert Gives(fs, s, div0, x, second) && Allows(fs, enc, ru, m0, div0, x, chained);
  }

  lemma TwoChained(f: Flow, g: Flow, s: Store, div0: real -> real, x: string)
    ensures var fs := [f, g];
      && |Permuts(fs, 0)| == 2
      && Chained(fs, 0, s, div0, x) == Lookup(RunFlows([f, g], s, div0))(x)
      && Chained(fs, 1, s, div0, x) == Lookup(RunFlows([f, g, g, f], s, div0))(x)
      && OrderValues(fs, s, div0, x) == {Lookup(RunFlows([f, g], s, div0))(x), Lookup(RunFlows([g, f], s, div0))(x)}
  {
    hide RunFlows, Lookup, Permuts;
    TwoOrders(f, g);
    assert Chain([[f, g]]) == [f, g];
    assert Chain([[g, f]]) == [g, f];
    assert [[f, g], [g, f]][1..] == [[g, f]];
    assert Chain([[f, g], [g, f]]) == [f, g, g, f];
    var perms := Permuts([f, g], 0);
    assert perms[..1] == [[f, g]] && perms[..2] == [[f, g], [g, f]];
    assert forall order :: order in perms <==> order == [f, g] || order == [g, f];
  }
}
