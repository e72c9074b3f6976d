/** Every run of every order is a model of the rules for groups of flows, and when that
    meaning is the intended one. */
module ParallelModels {
  import opened Lang
  import opened Emission
  import opened Encoding
  import opened Exactness
  import opened Forks
  import opened Orders
  import opened Permutations
  import opened Parallel

  // Rules mention only versions that exist, so later choices do not disturb them.

  ghost predicate RuleExists(r: Rule, ssa: Counters) {
    match r
    case Define(v, e) => Existing(ssa, v) && forall w :: w in Refs(e) ==> Existing(ssa, w)
    case Phi(end, nums) => Existing(ssa, end) && forall n :: n in nums ==> Existing(ssa, Ver(end.base, n))
    case Ite(_, _, _) => false
  }

  ghost predicate RulesExist(ru: seq<Rule>, ssa: Counters) {
    forall i :: 0 <= i < |ru| ==> RuleExists(ru[i], ssa)
  }

  predicate Above(ssa: Counters, ssa': Counters) {
    ssa.Keys <= ssa'.Keys && forall x :: x in ssa ==> ssa[x] <= ssa'[x]
  }

  lemma ExistsAbove(ru: seq<Rule>, ssa: Counters, ssa': Counters)
    requires RulesExist(ru, ssa) && Above(ssa, ssa')
    ensures RulesExist(ru, ssa')
  {
    forall i | 0 <= i < |ru| ensures RuleExists(ru[i], ssa') {
      assert RuleExists(ru[i], ssa);
      assert forall v :: Existing(ssa, v) ==> Existing(ssa', v);
    }
  }

  lemma AgreeBelow(ssa: Counters, ssa': Counters, m: Model, m': Model)
    requires Above(ssa, ssa') && AgreeOn(ssa', m, m')
    ensures AgreeOn(ssa, m, m')
  {
    assert forall v :: Existing(ssa, v) ==> Existing(ssa', v);
  }

  lemma SatKept(ru: seq<Rule>, ssa: Counters, m: Model, m': Model, div0: real -> real)
    requires RulesExist(ru, ssa) && AgreeOn(ssa, m, m') && Sat(ru, m, div0)
    ensures Sat(ru, m', div0)
  {
    forall i | 0 <= i < |ru| ensures RuleHolds(ru[i], m', div0) {
      assert RuleExists(ru[i], ssa) && RuleHolds(ru[i], m, div0);
      match ru[i]
      case Define(v, e) => EvalDepends(e, m, m', div0);
      case Phi(end, nums) =>
        var k :| 0 <= k < |nums| && m(end) == m(Ver(end.base, nums[k]));
        assert nums[k] in nums;
        assert m'(end) == m'(Ver(end.base, nums[k]));
    }
  }

  /** A definition of a fresh version can be met. */
  lemma Defined(r: Rule, ssa: Counters, ssa': Counters, m0: Model, div0: real -> real) returns (m: Model)
    requires r.Define? && !Existing(ssa, r.v) && forall w :: w in Refs(r.e) ==> Existing(ssa, w)
    ensures AgreeOn(ssa, m0, m) && RuleHolds(r, m, div0)
  {
    m := (w: Ver) => if w == r.v then Eval(r.e, m0, div0) else m0(w);
    EvalDepends(r.e, m0, m, div0);
  }

  lemma {:induction false} AtExists(e: Expr<string>, ssa: Counters)
    requires Refs(e) <= ssa.Keys
    ensures forall w :: w in Refs(At(ssa, e)) ==> Existing(ssa, w)
  {
    match e
    case Lit(_) =>
    case Ref(_) =>
    case Bin(_, l, r) => AtExists(l, ssa); AtExists(r, ssa);
  }

  lemma FlowExists(f: Flow, ssa: Counters, starts: Counters)
    requires CanBump(ssa, {f.x}) && StartsExist(starts, ssa, {f.x} + Refs(f.rest))
    ensures var r := FlowRule(f, ssa, starts);
      && RuleExists(r, Bump(ssa, f.x)) && !Existing(ssa, r.v)
      && forall w :: w in Refs(r.e) ==> Existing(ssa, w)
  {
    OneMentions(f);
    ConvertRefs(ssa, starts, Body(f), true);
    assert forall v :: Existing(ssa, v) ==> Existing(Bump(ssa, f.x), v);
  }

  lemma {:induction false} OrderHas(fs: seq<Flow>, ssa: Counters, starts: Counters, m0: Model,
                                    div0: real -> real)
    returns (m: Model)
    requires Fits(fs, ssa) && StartsExist(starts, ssa, Mentioned(fs))
    ensures AgreeOn(ssa, m0, m) && Sat(OrderRules(fs, ssa, starts), m, div0)
    ensures RulesExist(OrderRules(fs, ssa, starts), OrderNext(fs, ssa))
    decreases |fs|
  {
    hide FlowRule, RulesExist, Sat, AgreeOn, Mentioned, Written;
    if fs == [] {
      m := m0;
      Nothing(ssa, m0, div0);
    } else {
      var f, x, gs := fs[0], fs[0].x, fs[1..];
      assert f in fs;
      var ssa', starts', r := Bump(ssa, x), starts[x := Advanced(ssa, x)], FlowRule(f, ssa, starts);
      FirstMentioned(fs);
      OneMentions(f);
      FlowExists(f, ssa, starts);
      assert r.Define? by { FlowDefines(f, ssa, starts); }
      var m1 := Defined(r, ssa, ssa', m0, div0);
      assert Above(ssa, ssa') && StartsExist(starts', ssa', Mentioned(gs));
      m := OrderHas(gs, ssa', starts', m1, div0);
      WrittenMentioned(gs);
      OrderGrows(gs, ssa');
      Prepend(r, OrderRules(gs, ssa', starts'), ssa, ssa', OrderNext(fs, ssa), m0, m1, m, div0);
    }
  }

  lemma FlowDefines(f: Flow, ssa: Counters, starts: Counters)
    ensures FlowRule(f, ssa, starts).Define?
  {
  }

  lemma Prepend(r: Rule, ru: seq<Rule>, ssa: Counters, ssa': Counters, ssa'': Counters, m0: Model, m1: Model,
                m: Model, div0: real -> real)
    requires Above(ssa, ssa') && Above(ssa', ssa'') && RuleExists(r, ssa') && RulesExist(ru, ssa'')
    requires AgreeOn(ssa, m0, m1) && AgreeOn(ssa', m1, m) && RuleHolds(r, m1, div0) && Sat(ru, m, div0)
    ensures AgreeOn(ssa, m0, m) && Sat([r] + ru, m, div0) && RulesExist([r] + ru, ssa'')
  {
    AgreeBelow(ssa, ssa', m1, m);
    assert RulesExist([r], ssa');
    SatKept([r], ssa', m1, m, div0);
    ExistsAbove([r], ssa', ssa'');
    SatConcat([r], ru, m, div0);
    assert [r][0] == r;
  }

  lemma {:induction false} OrdersHas(perms: seq<seq<Flow>>, xs: set<string>, w: set<string>, ssa: Counters,
                                     starts: Counters, m0: Model, div0: real -> real)
    returns (m: Model)
    requires Runnable(perms, xs, w, ssa, starts)
    ensures AgreeOn(ssa, m0, m) && Sat(OrdersRules(perms, ssa, starts), m, div0)
    ensures RulesExist(OrdersRules(perms, ssa, starts), OrdersNext(perms, ssa))
    decreases |perms|
  {
    hide Mentioned, OrderNext, OrderRules, Fits, Sat, RulesExist, Existing, AgreeOn, Runnable, Written;
    if perms == [] {
      m := m0;
      Nothing(ssa, m0, div0);
    } else {
      FirstRuns(perms, xs, w, ssa, starts);
      var ru, ssa' := OrderRules(perms[0], ssa, starts), OrderNext(perms[0], ssa);
      var m1 := OrderHas(perms[0], ssa, starts, m0, div0);
      m := OrdersHas(perms[1..], xs, w, ssa', starts, m1, div0);
      OrdersGrow(perms[1..], xs, w, ssa', starts);
      var ru', ssa'' := OrdersRules(perms[1..], ssa', starts), OrdersNext(perms, ssa);
      AgreeBelow(ssa, ssa', m1, m);
      AgreeTrans(ssa, m0, m1, m);
      SatKept(ru, ssa', m1, m, div0);
      SatConcat(ru, ru', m, div0);
      ExistsAbove(ru, ssa', ssa'');
      ExistConcat(ru, ru', ssa'');
    }
  }

  lemma Nothing(ssa: Counters, m: Model, div0: real -> real)
    ensures AgreeOn(ssa, m, m) && Sat([], m, div0) && RulesExist([], ssa)
  {
  }

  lemma AgreeTrans(ssa: Counters, m: Model, m': Model, m'': Model)
    requires AgreeOn(ssa, m, m') && AgreeOn(ssa, m', m'')
    ensures AgreeOn(ssa, m, m'')
  {
  }

  lemma ExistConcat(a: seq<Rule>, b: seq<Rule>, ssa: Counters)
    requires RulesExist(a, ssa) && RulesExist(b, ssa)
    ensures RulesExist(a + b, ssa)
  {
  }

  lemma {:induction false} EndsExist(perms: seq<seq<Flow>>, xs: set<string>, w: set<string>, ssa: Counters,
                                     starts: Counters, x: string)
    requires Runnable(perms, xs, w, ssa, starts) && x in xs
    ensures |OrderEnds(perms, ssa, starts, x)| == |perms|
    ensures forall n :: n in OrderEnds(perms, ssa, starts, x) ==> Existing(OrdersNext(perms, ssa), Ver(x, n))
    decreases |perms|
  {
    hide Mentioned, OrderNext, OrderRules, Fits, Runnable, Written, EndOf, RulesVers;
    if perms != [] {
      FirstRuns(perms, xs, w, ssa, starts);
      var ssa' := OrderNext(perms[0], ssa);
      EndBound(perms[0], ssa, starts, x);
      OrdersGrow(perms[1..], xs, w, ssa', starts);
      EndsExist(perms[1..], xs, w, ssa', starts, x);
    }
  }

  lemma EndBound(fs: seq<Flow>, ssa: Counters, starts: Counters, x: string)
    requires Fits(fs, ssa) && StartsExist(starts, ssa, Mentioned(fs)) && x in Mentioned(fs)
    ensures EndOf(RulesVers(OrderRules(fs, ssa, starts)), x) <= Count(OrderNext(fs, ssa), x)
  {
    hide Mentioned, OrderNext, OrderRules, Fits, Written, EndOf, RulesVers;
    OrderMentions(fs, ssa, starts);
    var changes := RulesVers(OrderRules(fs, ssa, starts));
    var n :| Ver(x, n) in changes;
    EndMentioned(changes, x, n);
  }

  /** A choice of one of `n` orders for each variable. */
  predicate Picks(pick: map<string, nat>, xs: set<string>, n: nat) {
    xs <= pick.Keys && forall x :: x in xs ==> pick[x] < n
  }

  /** In `m` the fresh version of every variable holds the value its order ends with. */
  ghost predicate Picked(perms: seq<seq<Flow>>, xs: set<string>, pick: map<string, nat>, ssa: Counters,
                         starts: Counters, m: Model) {
    forall x :: x in xs ==>
      && x in pick && pick[x] < |OrderEnds(perms, ssa, starts, x)|
      && m(Ver(x, Advanced(OrdersNext(perms, ssa), x))) == m(Ver(x, OrderEnds(perms, ssa, starts, x)[pick[x]]))
  }

  /** The caps can be met, whichever orders are picked. */
  lemma {:induction false} CapsHave(caps: seq<Rule>, ys: set<string>, perms: seq<seq<Flow>>, xs: set<string>,
                                    w: set<string>, pick: map<string, nat>, ssa: Counters, starts: Counters, m: Model,
                                    div0: real -> real)
    requires IsCap(caps, ys, perms, ssa, starts) && ys <= xs && Runnable(perms, xs, w, ssa, starts)
    requires CanBump(OrdersNext(perms, ssa), xs) && Picked(perms, xs, pick, ssa, starts, m)
    ensures Sat(caps, m, div0) && RulesExist(caps, BumpAll(OrdersNext(perms, ssa), xs))
    decreases |caps|
  {
    hide OrdersNext, OrderEnds, Runnable, CanBump, Picked, RuleExists, RuleHolds, BumpAll, Advanced;
    if caps != [] {
      var x := caps[0].end.base;
      CapHas(caps[0], x, perms, xs, w, pick, ssa, starts, m, div0);
      CapsHave(caps[1..], ys - {x}, perms, xs, w, pick, ssa, starts, m, div0);
      assert caps == [caps[0]] + caps[1..];
      SatConcat([caps[0]], caps[1..], m, div0);
    }
  }

  lemma CapHas(cap: Rule, x: string, perms: seq<seq<Flow>>, xs: set<string>, w: set<string>, pick: map<string, nat>,
               ssa: Counters, starts: Counters, m: Model, div0: real -> real)
    requires cap == Phi(Ver(x, Advanced(OrdersNext(perms, ssa), x)), OrderEnds(perms, ssa, starts, x)) && x in xs
    requires Runnable(perms, xs, w, ssa, starts)
    requires CanBump(OrdersNext(perms, ssa), xs) && Picked(perms, xs, pick, ssa, starts, m)
    ensures RuleHolds(cap, m, div0) && RuleExists(cap, BumpAll(OrdersNext(perms, ssa), xs))
  {
    hide OrdersNext, OrderEnds, AllFit, Mentioned, Written;
    var ssa1 := OrdersNext(perms, ssa);
    EndsExist(perms, xs, w, ssa, starts, x);
    OrdersGrow(perms, xs, w, ssa, starts);
    var n := cap.nums[pick[x]];
    assert n in cap.nums && Existing(ssa1, Ver(x, n));
    assert forall v :: Existing(ssa1, v) ==> Existing(BumpAll(ssa1, xs), v);
  }

  /** Whichever order is picked for each variable, some model of a group's rules ends there. */
  lemma OptionHas(fs: seq<Flow>, enc: Enc, ru: seq<Rule>, pick: map<string, nat>, m0: Model, div0: real -> real)
    returns (m: Model)
    requires |fs| > 1 && StepFits(fs, enc) && Sound(enc) && GroupEmits(fs, enc.ssa, enc.starts, ru)
    requires Picks(pick, Mentioned(fs), |Permuts(fs, 0)|)
    ensures AgreeOn(enc.ssa, m0, m) && Sat(ru, m, div0) && RulesExist(ru, StepNext(fs, enc).ssa)
    ensures Picked(Permuts(fs, 0), Mentioned(fs), pick, enc.ssa, enc.starts, m)
    ensures Sat(OrdersRules(Permuts(fs, 0), enc.ssa, enc.starts), m, div0)
  {
    GroupFits(fs, enc);
    hide IsCap, OrdersRules, OrdersNext, Permuts, Sat, OrderEnds, RulesExist, Runnable, Picked, Picks,
         Written, Mentioned, Allowed, CanBump, AgreeOn, StepFits, Sound, StepNext, Above, BumpAll, Advanced;
    var perms, w, xs := Permuts(fs, 0), Written(fs), Mentioned(fs);
    var caps :| IsCap(caps, xs, perms, enc.ssa, enc.starts) && ru == OrdersRules(perms, enc.ssa, enc.starts) + caps;
    var m1 := OrdersHas(perms, xs, w, enc.ssa, enc.starts, m0, div0);
    m := Capped(perms, pick, xs, w, enc.ssa, enc.starts, m1);
    CapsHave(caps, xs, perms, xs, w, pick, enc.ssa, enc.starts, m, div0);
    Joined(OrdersRules(perms, enc.ssa, enc.starts), caps, enc.ssa, OrdersNext(perms, enc.ssa),
           StepNext(fs, enc).ssa, m0, m1, m, div0);
    SatConcat(OrdersRules(perms, enc.ssa, enc.starts), caps, m, div0);
  }

  lemma GroupHas(fs: seq<Flow>, enc: Enc, ru: seq<Rule>, order: seq<Flow>, m0: Model, s: Store, div0: real -> real)
    returns (m: Model)
    requires |fs| > 1 && StepFits(fs, enc) && Sound(enc) && GroupEmits(fs, enc.ssa, enc.starts, ru)
    requires SameFlows(order, fs)
    requires Orderly(fs)
    requires forall x :: x in Written(fs) ==> m0(Ver(x, enc.starts[x])) == Lookup(s)(x)
    requires forall x :: x in enc.ssa.Keys - Written(fs) ==> m0(Ver(x, enc.ssa[x])) == Lookup(s)(x)
    ensures AgreeOn(enc.ssa, m0, m) && Sat(ru, m, div0) && RulesExist(ru, StepNext(fs, enc).ssa)
    ensures forall x :: x in Mentioned(fs) ==>
      m(Ver(x, Advanced(OrdersNext(Permuts(fs, 0), enc.ssa), x))) == Lookup(RunFlows(order, s, div0))(x)
  {
    var i := PlaceOf(fs, order);
    var pick: map<string, nat> := map x | x in Mentioned(fs) :: i;
    m := OptionHas(fs, enc, ru, pick, m0, div0);
    PermsOf(fs, enc);
    StartsAgree(fs, enc, m0, m, s);
    hide OrdersRules, OrdersNext, Permuts, Sat, RunFlows, OrderEnds, RulesExist, Runnable, Written, Mentioned,
         AgreeOn, StepFits, Sound, StepNext, Advanced, GroupEmits, Upright;
    forall x | x in Mentioned(fs)
      ensures m(Ver(x, Advanced(OrdersNext(Permuts(fs, 0), enc.ssa), x))) == Lookup(RunFlows(order, s, div0))(x)
    {
      OrdersFollow(Permuts(fs, 0), i, x, Mentioned(fs), Written(fs), enc.ssa, enc.starts, m, s, div0);
    }
  }

  /** What fitting gives a group. */
  lemma GroupFits(fs: seq<Flow>, enc: Enc)
    requires |fs| > 1 && StepFits(fs, enc) && Sound(enc)
    ensures var (perms, xs) := (Permuts(fs, 0), Mentioned(fs));
      && Runnable(perms, xs, Written(fs), enc.ssa, enc.starts) && CanBump(OrdersNext(perms, enc.ssa), xs)
      && Above(enc.ssa, OrdersNext(perms, enc.ssa)) && Above(OrdersNext(perms, enc.ssa), StepNext(fs, enc).ssa)
      && StepNext(fs, enc).ssa == BumpAll(OrdersNext(perms, enc.ssa), xs)
  {
    hide Permuts, AllFit, OrdersNext, Allowed, Written, Mentioned, Runnable;
    PermsOf(fs, enc);
    OrdersGrow(Permuts(fs, 0), Mentioned(fs), Written(fs), enc.ssa, enc.starts);
  }

  lemma PlaceOf(fs: seq<Flow>, order: seq<Flow>) returns (i: nat)
    requires SameFlows(order, fs)
    ensures i < |Permuts(fs, 0)| && Permuts(fs, 0)[i] == order
  {
    ExactlyAllOrders(fs);
    assert order in Permuts(fs, 0);
    i :| 0 <= i < |Permuts(fs, 0)| && Permuts(fs, 0)[i] == order;
  }

  /** `m0` with every capped version set to where its order ended. */
  lemma Capped(perms: seq<seq<Flow>>, pick: map<string, nat>, xs: set<string>, w: set<string>, ssa: Counters,
               starts: Counters, m0: Model)
    returns (m: Model)
    requires Picks(pick, xs, |perms|) && Runnable(perms, xs, w, ssa, starts) && CanBump(OrdersNext(perms, ssa), xs)
    ensures AgreeOn(OrdersNext(perms, ssa), m0, m) && Picked(perms, xs, pick, ssa, starts, m)
  {
    hide OrdersNext, OrderEnds, EndPicked, Picks, Runnable;
    var ssa1 := OrdersNext(perms, ssa);
    m := (v: Ver) =>
      if v.base in xs && v.num == Advanced(ssa1, v.base) then m0(EndPicked(perms, pick, ssa, starts, v.base))
        else m0(v);
    forall v | Existing(ssa1, v) ensures m0(v) == m(v) {
      assert v.base in xs ==> Advanced(ssa1, v.base) == ssa1[v.base] + 1;
    }
    forall x | x in xs
      ensures x in pick && pick[x] < |OrderEnds(perms, ssa, starts, x)|
      ensures m(Ver(x, Advanced(ssa1, x))) == m(Ver(x, OrderEnds(perms, ssa, starts, x)[pick[x]]))
    {
      PickExists(perms, pick, xs, w, ssa, starts, x);
    }
  }

  lemma PickExists(perms: seq<seq<Flow>>, pick: map<string, nat>, xs: set<string>, w: set<string>, ssa: Counters,
                   starts: Counters, x: string)
    requires Picks(pick, xs, |perms|) && Runnable(perms, xs, w, ssa, starts) && x in xs
    ensures x in pick && pick[x] < |OrderEnds(perms, ssa, starts, x)|
    ensures EndPicked(perms, pick, ssa, starts, x) == Ver(x, OrderEnds(perms, ssa, starts, x)[pick[x]])
    ensures Existing(OrdersNext(perms, ssa), EndPicked(perms, pick, ssa, starts, x))
  {
    hide OrdersNext, OrderEnds, Runnable;
    EndsExist(perms, xs, w, ssa, starts, x);
  }

  function EndPicked(perms: seq<seq<Flow>>, pick: map<string, nat>, ssa: Counters, starts: Counters, x: string): Ver {
    var ends := OrderEnds(perms, ssa, starts, x);
    Ver(x, if x in pick && pick[x] < |ends| then ends[pick[x]] else 0)
  }

  lemma StartsAgree(fs: seq<Flow>, enc: Enc, m0: Model, m1: Model, s: Store)
    requires Written(fs) <= enc.starts.Keys && Sound(enc) && AgreeOn(enc.ssa, m0, m1)
    requires forall x :: x in Written(fs) ==> m0(Ver(x, enc.starts[x])) == Lookup(s)(x)
    requires forall x :: x in enc.ssa.Keys - Written(fs) ==> m0(Ver(x, enc.ssa[x])) == Lookup(s)(x)
    ensures forall x :: x in Written(fs) ==> m1(Ver(x, enc.starts[x])) == Lookup(s)(x)
    ensures forall x :: x in enc.ssa.Keys - Written(fs) ==> m1(Ver(x, enc.ssa[x])) == Lookup(s)(x)
  {
    assert forall x :: x in enc.ssa ==> Existing(enc.ssa, Ver(x, enc.ssa[x]));
    assert forall x :: x in enc.starts ==> Existing(enc.ssa, Ver(x, enc.starts[x]));
  }

  lemma Joined(ru: seq<Rule>, caps: seq<Rule>, ssa: Counters, ssa1: Counters, ssa2: Counters, m0: Model, m1: Model,
               m: Model, div0: real -> real)
    requires Above(ssa, ssa1) && Above(ssa1, ssa2) && RulesExist(ru, ssa1) && RulesExist(caps, ssa2)
    requires AgreeOn(ssa, m0, m1) && AgreeOn(ssa1, m1, m) && Sat(ru, m1, div0) && Sat(caps, m, div0)
    ensures AgreeOn(ssa, m0, m) && Sat(ru + caps, m, div0) && RulesExist(ru + caps, ssa2)
  {
    hide Sat, AgreeOn, RulesExist;
    AgreeBelow(ssa, ssa1, m1, m);
    AgreeTrans(ssa, m0, m1, m);
    SatKept(ru, ssa1, m1, m, div0);
    ExistsAbove(ru, ssa1, ssa2);
    ExistConcat(ru, caps, ssa2);
    SatConcat(ru, caps, m, div0);
  }

  /** Whatever order the flows of a callstack run in, some model of its rules is that run. */
  lemma StepHas(fs: seq<Flow>, enc: Enc, ru: seq<Rule>, order: seq<Flow>, m0: Model, mem: Mem, div0: real -> real)
    returns (m: Model)
    requires StepFits(fs, enc) && Sound(enc) && StepEmits(fs, enc, ru) && SameFlows(order, fs) && Holding(m0, enc, mem)
    requires |fs| > 1 ==> Orderly(fs)
    ensures AgreeOn(enc.ssa, m0, m) && Sat(ru, m, div0) && RulesExist(ru, StepNext(fs, enc).ssa)
    ensures Holding(m, StepNext(fs, enc), StepMem(order, mem, div0))
  {
    SameFlowsMention(order, fs);
    if |fs| == 0 {
      m := m0;
    } else if |fs| == 1 {
      OneFlow(order, fs);
      m := SingleHas(fs[0], fs, enc, ru, m0, mem, div0);
    } else {
      hide Permuts, OrdersNext, AllFit, Allowed, GroupEmits, Mentioned, Written, RunFlows, CanBump, Sat, RulesExist,
           AgreeOn;
      BaseTracks(Written(fs), enc, m0, mem);
      m := GroupHas(fs, enc, ru, order, m0, Base(Written(fs), mem), div0);
      HoldingKept(enc, m0, m, mem);
      GroupHolds(fs, order, enc, m, mem, div0);
    }
  }

  lemma OneFlow(order: seq<Flow>, fs: seq<Flow>)
    requires SameFlows(order, fs) && |fs| == 1
    ensures order == fs
  {
    SameFlowsMention(order, fs);
    assert order[0] in multiset(order) && multiset(fs) == multiset{fs[0]};
  }

  lemma HoldingKept(enc: Enc, m0: Model, m: Model, mem: Mem)
    requires Holding(m0, enc, mem) && Sound(enc) && AgreeOn(enc.ssa, m0, m)
    ensures Holding(m, enc, mem)
  {
    assert forall x :: x in enc.ssa ==> Existing(enc.ssa, Ver(x, enc.ssa[x]));
    assert forall x :: x in enc.starts ==> Existing(enc.ssa, Ver(x, enc.starts[x]));
  }

  lemma SingleHas(f: Flow, fs: seq<Flow>, enc: Enc, ru: seq<Rule>, m0: Model, mem: Mem, div0: real -> real)
    returns (m: Model)
    requires fs == [f] && StepFits(fs, enc) && Sound(enc) && StepEmits(fs, enc, ru) && Holding(m0, enc, mem)
    ensures AgreeOn(enc.ssa, m0, m) && Sat(ru, m, div0) && RulesExist(ru, StepNext(fs, enc).ssa)
    ensures Holding(m, StepNext(fs, enc), StepMem(fs, mem, div0))
  {
    hide Holding, StepMem, Rhs;
    assert f in fs;
    var ssa' := Bump(enc.ssa, f.x);
    SingleExists(f, enc.ssa);
    m := Defined(ru[0], enc.ssa, ssa', m0, div0);
    HoldingKept(enc, m0, m, mem);
    SingleFollows(f, fs, enc, m, mem, div0);
  }

  lemma SingleExists(f: Flow, ssa: Counters)
    requires {f.x} + Refs(f.rest) <= ssa.Keys && CanBump(ssa, {f.x})
    ensures var r := Define(Ver(f.x, Advanced(ssa, f.x)), Rhs(ssa, f.x, Body(f)));
      && RuleExists(r, Bump(ssa, f.x)) && !Existing(ssa, r.v)
      && forall w :: w in Refs(r.e) ==> Existing(ssa, w)
  {
    AtExists(Body(f), ssa);
    assert forall v :: Existing(ssa, v) ==> Existing(Bump(ssa, f.x), v);
  }

  /** Whatever order each callstack of a run takes, some model of the rules is that run. */
  lemma {:induction false} RunHas(steps: seq<seq<Flow>>, enc: Enc, rs: seq<seq<Rule>>, orders: seq<seq<Flow>>,
                                  m0: Model, mem: Mem, div0: real -> real)
    returns (m: Model)
    requires RunFits(steps, enc) && Sound(enc) && RunEmits(steps, enc, rs)
    requires Orderings(orders, steps) && Holding(m0, enc, mem)
    requires RunOrderly(steps)
    ensures AgreeOn(enc.ssa, m0, m) && RunSat(rs, m, div0)
    ensures Holding(m, RunNext(steps, enc), RunMem(orders, mem, div0))
    decreases |steps|
  {
    hide StepFits, Sound, StepEmits, Sat, Holding, SameFlows, StepNext, StepMem, AgreeOn, RulesExist, Orderly;
    if steps == [] {
      m := m0;
      Nothing(enc.ssa, m0, div0);
    } else {
      var enc' := StepNext(steps[0], enc);
      StepKeeps(steps[0], enc);
      var m1 := StepHas(steps[0], enc, rs[0], orders[0], m0, mem, div0);
      m := RunHas(steps[1..], enc', rs[1..], orders[1..], m1, StepMem(orders[0], mem, div0), div0);
      AgreeBelow(enc.ssa, enc'.ssa, m1, m);
      AgreeTrans(enc.ssa, m0, m1, m);
      SatKept(rs[0], enc'.ssa, m1, m, div0);
      assert forall i :: 1 <= i < |rs| ==> rs[i] == rs[1..][i - 1];
    }
  }

  // When the rules mean what was intended.

  /** The intended run: each callstack in its order, from wherever the last one ended. */
  function RunAll(orders: seq<seq<Flow>>, s: Store, div0: real -> real): Store {
    if orders == [] then s else RunAll(orders[1..], RunFlows(orders[0], s, div0), div0)
  }

  /** A walk over the run: after the first group, a plain flow makes the frame of its
      variable stale, mentioning the variable in a group opens a new frame, and no group
      writes a variable whose frame is stale. */
  predicate Clean(steps: seq<seq<Flow>>, level: nat, stale: set<string>) {
    if steps == [] then true
    else
      var fs := steps[0];
      if |fs| == 0 then Clean(steps[1..], level, stale)
      else if |fs| == 1 then Clean(steps[1..], level, if level == 0 then stale - {fs[0].x} else stale + {fs[0].x})
      else Written(fs) !! stale && Clean(steps[1..], 1, stale - Mentioned(fs))
  }

  /** In particular a run of groups only, as long as each callstack has several flows. */
  lemma {:induction false} GroupsAreClean(steps: seq<seq<Flow>>, level: nat, stale: set<string>)
    requires stale == {} && forall i :: 0 <= i < |steps| ==> |steps[i]| != 1
    ensures Clean(steps, level, stale)
    decreases |steps|
  {
    if steps != [] {
      assert {} - Mentioned(steps[0]) == {};
      GroupsAreClean(steps[1..], if |steps[0]| == 0 then level else 1, stale);
    }
  }

  ghost predicate Equal(s: Store, s': Store) {
    forall x :: Lookup(s)(x) == Lookup(s')(x)
  }

  /** Frames start with the newest value, but for the stale ones. */
  ghost predicate Fresh(mem: Mem, stale: set<string>) {
    forall x :: x !in stale ==> Lookup(mem.cur)(x) == Lookup(mem.start)(x)
  }

  lemma FlowSame(f: Flow, s: Store, s': Store, div0: real -> real)
    requires Equal(s, s')
    ensures Equal(RunFlow(f, s, div0), RunFlow(f, s', div0))
    ensures Eval(Body(f), Lookup(s), div0) == Eval(Body(f), Lookup(s'), div0)
  {
    EvalDepends(Body(f), Lookup(s), Lookup(s'), div0);
    forall x: string ensures Lookup(RunFlow(f, s, div0))(x) == Lookup(RunFlow(f, s', div0))(x) {
      assert Lookup(s)(x) == Lookup(s')(x);
    }
  }

  lemma {:induction false} RunSame(fs: seq<Flow>, s: Store, s': Store, div0: real -> real)
    requires Equal(s, s')
    ensures Equal(RunFlows(fs, s, div0), RunFlows(fs, s', div0))
    decreases |fs|
  {
    if fs != [] {
      FlowSame(fs[0], s, s', div0);
      RunSame(fs[1..], RunFlow(fs[0], s, div0), RunFlow(fs[0], s', div0), div0);
    }
  }

  lemma GroupIntended(order: seq<Flow>, mem: Mem, stale: set<string>, s: Store, div0: real -> real)
    requires |order| > 1 && Equal(mem.cur, s) && Fresh(mem, stale) && Written(order) !! stale
    ensures var mem' := StepMem(order, mem, div0);
      Equal(mem'.cur, RunFlows(order, s, div0)) && Fresh(mem', stale - Mentioned(order)) && mem'.level == 1
  {
    var base := Base(Written(order), mem);
    RunSame(order, base, s, div0);
    var after, mem' := RunFlows(order, base, div0), StepMem(order, mem, div0);
    hide RunFlows;
    forall x: string
      ensures Lookup(mem'.cur)(x) == Lookup(RunFlows(order, s, div0))(x)
      ensures x !in stale - Mentioned(order) ==> Lookup(mem'.cur)(x) == Lookup(mem'.start)(x)
    {
      if x !in Mentioned(order) {
        OthersKept(order, s, x, div0);
        assert Lookup(mem'.cur)(x) == Lookup(mem.cur)(x);
        assert Lookup(mem'.start)(x) == Lookup(mem.start)(x);
      }
    }
  }

  lemma SingleIntended(f: Flow, mem: Mem, stale: set<string>, s: Store, div0: real -> real)
    requires Equal(mem.cur, s) && Fresh(mem, stale)
    ensures var mem' := StepMem([f], mem, div0);
      && Equal(mem'.cur, RunFlows([f], s, div0)) && mem'.level == mem.level
      && Fresh(mem', if mem.level == 0 then stale - {f.x} else stale + {f.x})
  {
    FlowSame(f, mem.cur, s, div0);
    RunOne(f, s, div0);
    var mem' := StepMem([f], mem, div0);
    forall x: string | x !in (if mem.level == 0 then stale - {f.x} else stale + {f.x})
      ensures Lookup(mem'.cur)(x) == Lookup(mem'.start)(x)
    {
      assert x !in {f.x} ==> Lookup(mem'.cur)(x) == Lookup(mem.cur)(x) && Lookup(mem'.start)(x) == Lookup(mem.start)(x);
    }
  }

  lemma RunNone(mem: Mem, s: Store, div0: real -> real)
    ensures RunFlows([], s, div0) == s && StepMem([], mem, div0) == mem
  {
  }

  lemma RunOne(f: Flow, s: Store, div0: real -> real)
    ensures RunFlows([f], s, div0) == RunFlow(f, s, div0)
  {
    assert [f][1..] == [];
  }

  lemma {:induction false} RunIntended(steps: seq<seq<Flow>>, orders: seq<seq<Flow>>, mem: Mem, stale: set<string>,
                                       s: Store, div0: real -> real)
    requires Orderings(orders, steps) && Equal(mem.cur, s) && Fresh(mem, stale) && Clean(steps, mem.level, stale)
    ensures Equal(RunMem(orders, mem, div0).cur, RunAll(orders, s, div0))
    decreases |steps|
  {
    if steps != [] {
      hide StepMem, Equal, Fresh, RunFlows;
      RunNone(mem, s, div0);
      var fs, order := steps[0], orders[0];
      SameFlowsMention(order, fs);
      MentionedSame(order, fs);
      var mem', s' := StepMem(order, mem, div0), RunFlows(order, s, div0);
      var stale' := if |fs| == 0 then stale
        else if |fs| == 1 then (if mem.level == 0 then stale - {fs[0].x} else stale + {fs[0].x})
        else stale - Mentioned(fs);
      if |fs| == 0 {
        assert order == [];
      } else if |fs| == 1 {
        OneFlow(order, fs);
        assert order == [fs[0]];
        SingleIntended(fs[0], mem, stale, s, div0);
      } else {
        GroupIntended(order, mem, stale, s, div0);
      }
      RunIntended(steps[1..], orders[1..], mem', stale', s', div0);
    }
  }

  /** A model of the rules is a run, each callstack in some order. */
  lemma ModelIsRun(steps: seq<seq<Flow>>, enc: Enc, rs: seq<seq<Rule>>, m0: Model, m: Model, mem: Mem,
                   stale: set<string>, div0: real -> real)
    returns (orders: seq<seq<Flow>>)
    requires RunFits(steps, enc) && RunOrderly(steps) && Sound(enc) && RunEmits(steps, enc, rs) && Holding(m0, enc, mem)
    requires Fresh(mem, stale) && Clean(steps, enc.level, stale)
    requires AgreeOn(enc.ssa, m0, m) && RunSat(rs, m, div0)
    ensures Orderings(orders, steps) && Ended(m, steps, enc, RunAll(orders, mem.cur, div0))
  {
    HoldingKept(enc, m0, m, mem);
    orders := RunFollows(steps, enc, rs, m, mem, div0);
    RunIntended(steps, orders, mem, stale, mem.cur, div0);
    EndedAt(m, steps, enc, RunMem(orders, mem, div0), RunAll(orders, mem.cur, div0));
  }

  /** Whatever the orders, the run is a model of the rules. */
  lemma RunIsModel(steps: seq<seq<Flow>>, enc: Enc, rs: seq<seq<Rule>>, m0: Model, orders: seq<seq<Flow>>, mem: Mem,
                   stale: set<string>, div0: real -> real)
    returns (m: Model)
    requires RunFits(steps, enc) && RunOrderly(steps) && Sound(enc) && RunEmits(steps, enc, rs) && Holding(m0, enc, mem)
    requires Fresh(mem, stale) && Clean(steps, enc.level, stale) && Orderings(orders, steps)
    ensures AgreeOn(enc.ssa, m0, m) && RunSat(rs, m, div0) && Ended(m, steps, enc, RunAll(orders, mem.cur, div0))
  {
    m := RunHas(steps, enc, rs, orders, m0, mem, div0);
    RunIntended(steps, orders, mem, stale, mem.cur, div0);
    EndedAt(m, steps, enc, RunMem(orders, mem, div0), RunAll(orders, mem.cur, div0));
  }

  /** The parallel encoding is exact over whole runs without stale frames: a value of a
      variable's final version is allowed by some model of the rules exactly when running
      each callstack's flows atomically, in some order, leads to it. */
  lemma ParallelExact(steps: seq<seq<Flow>>, enc: Enc, rs: seq<seq<Rule>>, m0: Model, mem: Mem, stale: set<string>,
                      div0: real -> real, x: string, value: real)
    requires RunFits(steps, enc) && RunOrderly(steps) && Sound(enc) && RunEmits(steps, enc, rs) && Holding(m0, enc, mem)
    requires Fresh(mem, stale) && Clean(steps, enc.level, stale) && x in RunNext(steps, enc).ssa
    ensures (exists m ::
              AgreeOn(enc.ssa, m0, m) && RunSat(rs, m, div0) && m(Ver(x, RunNext(steps, enc).ssa[x])) == value)
       <==> (exists orders :: Orderings(orders, steps) && Lookup(RunAll(orders, mem.cur, div0))(x) == value)
  {
    hide RunAll, RunSat, AgreeOn, Orderings, RunNext, RunFits, RunEmits, Clean, Fresh, Holding, Sound, Lookup,
         RunOrderly;
    if exists m :: AgreeOn(enc.ssa, m0, m) && RunSat(rs, m, div0) && m(Ver(x, RunNext(steps, enc).ssa[x])) == value {
      var m: Model :| AgreeOn(enc.ssa, m0, m) && RunSat(rs, m, div0) && m(Ver(x, RunNext(steps, enc).ssa[x])) == value;
      var orders := ModelIsRun(steps, enc, rs, m0, m, mem, stale, div0);
      assert Lookup(RunAll(orders, mem.cur, div0))(x) == value;
    }
    if exists orders :: Orderings(orders, steps) && Lookup(RunAll(orders, mem.cur, div0))(x) == value {
      var orders :| Orderings(orders, steps) && Lookup(RunAll(orders, mem.cur, div0))(x) == value;
      var m := RunIsModel(steps, enc, rs, m0, orders, mem, stale, div0);
      assert m(Ver(x, RunNext(steps, enc).ssa[x])) == value;
    }
  }

  /** The newest versions hold the store `s`. */
  ghost predicate Ended(m: Model, steps: seq<seq<Flow>>, enc: Enc, s: Store) {
    Tracks(m, RunNext(steps, enc).ssa, s, RunNext(steps, enc).ssa.Keys)
  }

  lemma EndedAt(m: Model, steps: seq<seq<Flow>>, enc: Enc, mem: Mem, s: Store)
    requires Holding(m, RunNext(steps, enc), mem) && Equal(mem.cur, s)
    ensures Ended(m, steps, enc, s)
  {
  }
}
