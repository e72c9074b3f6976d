/** Frames that have gone stale. Once a group has run, the level stays at one, so a plain
    flow no longer opens a frame: a group that writes the same variable next starts from
    before the flow. */
module StaleFrames {
  import opened Lang
  import opened Encoding
  import opened Exactness
  import opened Orders
  import opened Permutations
  import opened Parallel
  import opened ParallelModels
  import opened ParallelReads

  /** The group might as well have run without the plain flow. */
  lemma LostStep(f: Flow, order: seq<Flow>, mem: Mem, div0: real -> real)
    requires mem.level == 1 && |order| > 1 && f.x in Written(order)
    ensures StepMem(order, StepMem([f], mem, div0), div0) == StepMem(order, mem, div0)
  {
    var w, mem' := Written(order), StepMem([f], mem, div0);
    assert mem'.start == mem.start && mem'.cur == mem.cur[f.x := mem'.cur[f.x]];
    assert Base(w, mem') == Base(w, mem);
    var after := RunFlows(order, Base(w, mem), div0);
    assert Update(mem'.cur, after, Mentioned(order)) == Update(mem.cur, after, Mentioned(order));
  }

  lemma LostRun(f: Flow, fs: seq<Flow>, order: seq<Flow>, mem: Mem, div0: real -> real)
    requires mem.level == 1 && |fs| > 1 && f.x in Written(fs) && SameFlows(order, fs) && Fresh(mem, {})
    ensures ParallelModels.Equal(RunMem([[f], order], mem, div0).cur, RunFlows(order, mem.cur, div0))
  {
    hide StepMem, Written, RunFlows;
    SameFlowsMention(order, fs);
    LostStep(f, order, mem, div0);
    GroupIntended(order, mem, {}, mem.cur, div0);
    TwoSteps([f], order, mem, div0);
  }

  lemma TwoSteps(a: seq<Flow>, b: seq<Flow>, mem: Mem, div0: real -> real)
    ensures RunMem([a, b], mem, div0) == StepMem(b, StepMem(a, mem, div0), div0)
  {
    hide StepMem;
    assert [a, b][1..] == [b] && |[b][1..]| == 0;
    assert RunMem([b], StepMem(a, mem, div0), div0) == StepMem(b, StepMem(a, mem, div0), div0);
  }

  /** What a plain flow between groups needs to be lost: a group has run, frames are fresh,
      and the next group, which reads right, writes the same variable. */
  ghost predicate Losing(f: Flow, fs: seq<Flow>, enc: Enc, rs: seq<seq<Rule>>, mem: Mem) {
    && RunFits([[f], fs], enc) && Sound(enc) && RunEmits([[f], fs], enc, rs)
    && enc.level == 1 && Fresh(mem, {}) && |fs| > 1 && Orderly(fs) && f.x in Written(fs)
  }

  lemma LosingOrderly(f: Flow, fs: seq<Flow>)
    requires Orderly(fs)
    ensures RunOrderly([[f], fs])
  {
  }

  /** Every model of the rules ends where some order of the group alone ends. It is the run
      of both exactly for the variables that order leaves alike with and without the flow. */
  lemma ModelLoses(f: Flow, fs: seq<Flow>, enc: Enc, rs: seq<seq<Rule>>, m: Model, mem: Mem, div0: real -> real)
    returns (order: seq<Flow>)
    requires Losing(f, fs, enc, rs, mem) && RunSat(rs, m, div0) && Holding(m, enc, mem)
    ensures SameFlows(order, fs) && Ended(m, [[f], fs], enc, RunFlows(order, mem.cur, div0))
    ensures forall x :: x in RunNext([[f], fs], enc).ssa ==>
      (m(Ver(x, RunNext([[f], fs], enc).ssa[x])) == Lookup(RunAll([[f], order], mem.cur, div0))(x)
       <==> Lookup(RunFlows(order, mem.cur, div0))(x) == Lookup(RunFlows(order, RunFlow(f, mem.cur, div0), div0))(x))
  {
    hide RunFits, Sound, RunEmits, RunSat, Holding, Fresh, RunFlows, RunFlow, RunMem, ParallelModels.Equal, RunNext,
         SameFlows, Orderly, Lookup;
    LosingOrderly(f, fs);
    var orders := RunFollows([[f], fs], enc, rs, m, mem, div0);
    order := orders[1];
    assert SameFlows(orders[0], [f]) && SameFlows(order, fs);
    OneFlow(orders[0], [f]);
    assert orders == [[f], order];
    assert mem.level == 1 by { HoldingLevel(m, enc, mem); }
    LostRun(f, fs, order, mem, div0);
    EndedAt(m, [[f], fs], enc, RunMem(orders, mem, div0), RunFlows(order, mem.cur, div0));
    WholeRun(f, order, mem.cur, div0);
  }

  lemma HoldingLevel(m: Model, enc: Enc, mem: Mem)
    requires Holding(m, enc, mem)
    ensures mem.level == enc.level
  {
  }

  lemma WholeRun(f: Flow, order: seq<Flow>, s: Store, div0: real -> real)
    ensures RunAll([[f], order], s, div0) == RunFlows(order, RunFlow(f, s, div0), div0)
  {
    hide RunFlows, RunFlow;
    RunOne(f, s, div0);
    assert [[f], order][1..] == [order] && |[order][1..]| == 0;
    assert RunAll([order], RunFlows([f], s, div0), div0) == RunFlows(order, RunFlows([f], s, div0), div0);
  }

  /** Some model of the rules gives the last version of `x` this value. */
  ghost predicate Reaches(steps: seq<seq<Flow>>, enc: Enc, rs: seq<seq<Rule>>, m0: Model, div0: real -> real,
                          x: string, value: real)
    requires x in RunNext(steps, enc).ssa
  {
    exists m :: AgreeOn(enc.ssa, m0, m) && RunSat(rs, m, div0) && m(Ver(x, RunNext(steps, enc).ssa[x])) == value
  }

  /** The values allowed are those of runs from which the plain flow is missing. */
  lemma PlainFlowLost(f: Flow, fs: seq<Flow>, enc: Enc, rs: seq<seq<Rule>>, m0: Model, mem: Mem, div0: real -> real,
                      x: string, value: real)
    requires Losing(f, fs, enc, rs, mem) && Holding(m0, enc, mem) && x in RunNext([[f], fs], enc).ssa
    ensures Reaches([[f], fs], enc, rs, m0, div0, x, value) <==> Gives(fs, mem.cur, div0, x, value)
  {
    hide RunFits, RunEmits, RunSat, Holding, Fresh, RunFlows, RunMem, RunNext, SameFlows, Orderly, Lookup, AgreeOn,
         Sound;
    if Reaches([[f], fs], enc, rs, m0, div0, x, value) {
      var m: Model :| AgreeOn(enc.ssa, m0, m) && RunSat(rs, m, div0)
        && m(Ver(x, RunNext([[f], fs], enc).ssa[x])) == value;
      HoldingKept(enc, m0, m, mem);
      var order := ModelLoses(f, fs, enc, rs, m, mem, div0);
    }
    if order :| SameFlows(order, fs) && Lookup(RunFlows(order, mem.cur, div0))(x) == value {
      LosingOrderly(f, fs);
      assert Orderings([[f], order], [[f], fs]) by { assert SameFlows([f], [f]) by { Reflexive([f]); } }
      var m := RunHas([[f], fs], enc, rs, [[f], order], m0, mem, div0);
      assert mem.level == 1 by { HoldingLevel(m0, enc, mem); }
      LostRun(f, fs, order, mem, div0);
      EndedAt(m, [[f], fs], enc, RunMem([[f], order], mem, div0), RunFlows(order, mem.cur, div0));
      assert m(Ver(x, RunNext([[f], fs], enc).ssa[x])) == value;
    }
  }

  lemma Reflexive(fs: seq<Flow>)
    ensures SameFlows(fs, fs)
  {
  }

  /** So the rules are exact if and only if the orders leave the same values in `x` with the
      plain flow and without it. */
  lemma PlainFlowExact(f: Flow, fs: seq<Flow>, enc: Enc, rs: seq<seq<Rule>>, m0: Model, mem: Mem,
                       div0: real -> real, x: string)
    requires Losing(f, fs, enc, rs, mem) && Holding(m0, enc, mem) && x in RunNext([[f], fs], enc).ssa
    ensures (forall value ::
              Reaches([[f], fs], enc, rs, m0, div0, x, value) <==> Gives(fs, RunFlow(f, mem.cur, div0), div0, x, value))
       <==> OrderValues(fs, mem.cur, div0, x) == OrderValues(fs, RunFlow(f, mem.cur, div0), div0, x)
  {
    hide Losing, Holding, RunNext, Reaches, Gives, OrderValues, RunFlow;
    var s := RunFlow(f, mem.cur, div0);
    forall value
      ensures Reaches([[f], fs], enc, rs, m0, div0, x, value) <==> value in OrderValues(fs, mem.cur, div0, x)
      ensures Gives(fs, s, div0, x, value) <==> value in OrderValues(fs, s, div0, x)
    {
      PlainFlowLost(f, fs, enc, rs, m0, mem, div0, x, value);
      OrdersGive(fs, mem.cur, div0, x, value);
      OrdersGive(fs, s, div0, x, value);
    }
    if forall value :: Reaches([[f], fs], enc, rs, m0, div0, x, value) <==> Gives(fs, s, div0, x, value) {
      forall value ensures value in OrderValues(fs, mem.cur, div0, x) <==> value in OrderValues(fs, s, div0, x) {
        assert Reaches([[f], fs], enc, rs, m0, div0, x, value) <==> Gives(fs, s, div0, x, value);
      }
    }
  }

  // For example.

  function Inc(): Flow {
    Flow("x", Plus, Lit(1.0))
  }

  function IncTen(): Flow {
    Flow("x", Plus, Lit(10.0))
  }

  function X(n: int): Counters {
    map["x" := n]
  }

  function Valued(n: real): Store {
    map["x" := n]
  }

  /** Two increments, a plain `x := x + 10`, two increments. */
  function Ten(): seq<seq<Flow>> {
    [[Inc(), Inc()], [IncTen()], [Inc(), Inc()]]
  }

  /** From zero, every model of the rules has `x` end at 4, in its eleventh version; every
      run has it end at 14. */
  lemma PlainFlowLostExample(rs: seq<seq<Rule>>, m: Model, orders: seq<seq<Flow>>, div0: real -> real)
    requires RunEmits(Ten(), Enc(X(0), X(0), 0), rs) && RunSat(rs, m, div0) && m(Ver("x", 0)) == 0.0
    requires Orderings(orders, Ten())
    ensures m(Ver("x", 11)) == 4.0
    ensures Lookup(RunAll(orders, Valued(0.0), div0))("x") == 14.0
  {
    hide *;
    var enc, mem := Enc(X(0), X(0), 0), Mem(Valued(0.0), Valued(0.0), 0);
    TenFits();
    TenOrderly();
    StartsAtZero(m);
    var orders' := RunFollows(Ten(), enc, rs, m, mem, div0);
    TenOrders(orders');
    TenOrders(orders);
    TenMem(div0);
    TenRun(div0);
    EndOfX(m, RunNext(Ten(), enc), RunMem(Ten(), mem, div0));
  }

  lemma StartsAtZero(m: Model)
    requires m(Ver("x", 0)) == 0.0
    ensures Holding(m, Enc(X(0), X(0), 0), Mem(Valued(0.0), Valued(0.0), 0))
  {
  }

  lemma EndOfX(m: Model, enc: Enc, mem: Mem)
    requires Holding(m, enc, mem) && enc.ssa == X(11) && mem.cur == Valued(4.0)
    ensures m(Ver("x", 11)) == 4.0 && Lookup(Valued(14.0))("x") == 14.0
  {
    assert "x" in enc.ssa.Keys && Count(enc.ssa, "x") == 11;
  }

  lemma TenOrderly()
    ensures RunOrderly(Ten())
  {
    assert forall fs, f :: fs in Ten() && f in fs ==> f == Inc() || f == IncTen();
  }

  /** Equal flows have one order. */
  lemma TenOrders(orders: seq<seq<Flow>>)
    requires Orderings(orders, Ten())
    ensures orders == Ten()
  {
    var two := [Inc(), Inc()];
    assert SameFlows(orders[0], two) && SameFlows(orders[1], [IncTen()]) && SameFlows(orders[2], two);
    OneFlow(orders[1], [IncTen()]);
    TwoAlike(orders[0]);
    TwoAlike(orders[2]);
  }

  lemma TwoAlike(order: seq<Flow>)
    requires SameFlows(order, [Inc(), Inc()])
    ensures order == [Inc(), Inc()]
  {
    SameFlowsMention(order, [Inc(), Inc()]);
    assert order[0] in multiset(order) && order[1] in multiset(order);
    assert multiset([Inc(), Inc()]) == multiset{Inc(), Inc()};
  }

  // The versions of `x`.

  lemma TenFits()
    ensures RunFits(Ten(), Enc(X(0), X(0), 0)) && Sound(Enc(X(0), X(0), 0))
    ensures RunNext(Ten(), Enc(X(0), X(0), 0)) == Enc(X(11), X(11), 1)
  {
    hide StepFits, StepNext;
    TwoFit(0, 0, 0);
    TenFit(5, 5);
    TwoFit(6, 5, 1);
    var rest := [[IncTen()], [Inc(), Inc()]];
    assert Ten()[1..] == rest && rest[1..] == [[Inc(), Inc()]] && |rest[1..][1..]| == 0;
    assert RunFits(rest[1..], Enc(X(6), X(5), 1)) && RunNext(rest[1..], Enc(X(6), X(5), 1)) == Enc(X(11), X(11), 1);
    assert RunFits(rest, Enc(X(5), X(5), 1)) && RunNext(rest, Enc(X(5), X(5), 1)) == Enc(X(11), X(11), 1);
  }

  lemma TenFit(n: int, start: int)
    requires start <= n < MAX_VERSION
    ensures StepFits([IncTen()], Enc(X(n), X(start), 1))
    ensures StepNext([IncTen()], Enc(X(n), X(start), 1)) == Enc(X(n + 1), X(start), 1)
  {
    OneMentions(IncTen());
    assert Bump(X(n), "x") == X(n + 1) && |[IncTen()][1..]| == 0;
  }

  lemma TwoFit(n: int, start: int, level: nat)
    requires start <= n < MAX_VERSION - 5
    ensures StepFits([Inc(), Inc()], Enc(X(n), X(start), level))
    ensures StepNext([Inc(), Inc()], Enc(X(n), X(start), level)) == Enc(X(n + 5), X(n + 5), 1)
  {
    var two := [Inc(), Inc()];
    TwoOrders(Inc(), Inc());
    TwoNext(n);
    TwoNext(n + 2);
    OnlyX();
    hide Permuts, Fits, OrderNext, Mentioned, Written, ReadBy;
    var perms := [two, two];
    var once := perms[1..];
    assert once == [two] && |once[1..]| == 0;
    assert once[0] == two && Fits(once[0], X(n + 2));
    assert AllFit(once[1..], OrderNext(once[0], X(n + 2)));
    assert AllFit(once, X(n + 2));
    assert OrdersNext(once, X(n + 2)) == X(n + 4);
    assert BumpAll(X(n + 4), {"x"}) == X(n + 5);
  }

  lemma OnlyX()
    ensures Mentioned([Inc(), Inc()]) == Written([Inc(), Inc()]) == {"x"} && ReadBy([Inc(), Inc()]) == {}
  {
    assert Inc() in [Inc(), Inc()] && forall f :: f in [Inc(), Inc()] ==> f == Inc();
  }

  lemma TwoNext(n: int)
    requires n < MAX_VERSION - 1
    ensures Fits([Inc(), Inc()], X(n)) && OrderNext([Inc(), Inc()], X(n)) == X(n + 2)
  {
    var one, two := [Inc()], [Inc(), Inc()];
    assert two[1..] == one && |one[1..]| == 0;
    assert Bump(X(n), "x") == X(n + 1) && Bump(X(n + 1), "x") == X(n + 2);
    assert OrderNext(one, X(n + 1)) == OrderNext(one[1..], X(n + 2)) == X(n + 2);
    assert Fits(one[1..], X(n + 2)) && Fits(one, X(n + 1));
  }

  // The values of `x`.

  lemma TenMem(div0: real -> real)
    ensures RunMem(Ten(), Mem(Valued(0.0), Valued(0.0), 0), div0).cur == Valued(4.0)
  {
    hide *;
    var two, mem0, mem1 := [Inc(), Inc()], Mem(Valued(0.0), Valued(0.0), 0), Mem(Valued(2.0), Valued(2.0), 1);
    TenParts(mem0, Valued(0.0), div0);
    TwoIncsMem(mem0, 0.0, div0);
    TwoIncsMem(mem1, 2.0, div0);
    TenLost(mem1, div0);
    assert 0.0 + 2.0 == 2.0 && 2.0 + 2.0 == 4.0;
  }

  lemma TenRun(div0: real -> real)
    ensures RunAll(Ten(), Valued(0.0), div0) == Valued(14.0)
  {
    hide *;
    TenParts(Mem(Valued(0.0), Valued(0.0), 0), Valued(0.0), div0);
    TwoIncs(0.0, div0);
    TwoIncs(12.0, div0);
    PlainTen(2.0, div0);
    assert 0.0 + 2.0 == 2.0 && 2.0 + 10.0 == 12.0 && 12.0 + 2.0 == 14.0;
  }

  lemma TenParts(mem: Mem, s: Store, div0: real -> real)
    ensures var (two, ten) := ([Inc(), Inc()], [IncTen()]);
      && RunMem(Ten(), mem, div0) == StepMem(two, StepMem(ten, StepMem(two, mem, div0), div0), div0)
      && RunAll(Ten(), s, div0) == RunFlows(two, RunFlows(ten, RunFlows(two, s, div0), div0), div0)
  {
    hide StepMem, RunFlows;
    var two, ten := [Inc(), Inc()], [IncTen()];
    var rest := [ten, two];
    var none: seq<seq<Flow>> := [];
    assert Ten()[1..] == rest && rest[1..] == [two] && [two][1..] == none;
    var mem1, s1 := StepMem(two, mem, div0), RunFlows(two, s, div0);
    var mem2, s2 := StepMem(ten, mem1, div0), RunFlows(ten, s1, div0);
    assert RunMem(none, StepMem(two, mem2, div0), div0) == StepMem(two, mem2, div0) == RunMem([two], mem2, div0);
    assert RunAll(none, RunFlows(two, s2, div0), div0) == RunFlows(two, s2, div0) == RunAll([two], s2, div0);
    assert RunMem(rest, mem1, div0) == RunMem([two], mem2, div0) && RunAll(rest, s1, div0) == RunAll([two], s2, div0);
  }

  lemma TenLost(mem: Mem, div0: real -> real)
    requires mem.level == 1
    ensures StepMem([Inc(), Inc()], StepMem([IncTen()], mem, div0), div0) == StepMem([Inc(), Inc()], mem, div0)
  {
    hide StepMem;
    OnlyX();
    LostStep(IncTen(), [Inc(), Inc()], mem, div0);
  }

  lemma PlainTen(n: real, div0: real -> real)
    ensures RunFlows([IncTen()], Valued(n), div0) == Valued(n + 10.0)
  {
    RunOne(IncTen(), Valued(n), div0);
    var e: Expr<string> := Ref("x");
    assert Eval(e, Lookup(Valued(n)), div0) == n;
  }

  lemma TwoIncs(n: real, div0: real -> real)
    ensures RunFlows([Inc(), Inc()], Valued(n), div0) == Valued(n + 2.0)
  {
    assert [Inc(), Inc()][1..] == [Inc()];
    var e: Expr<string> := Ref("x");
    assert Eval(e, Lookup(Valued(n)), div0) == n && Eval(e, Lookup(Valued(n + 1.0)), div0) == n + 1.0;
    assert RunFlow(Inc(), Valued(n), div0) == Valued(n + 1.0);
    RunOne(Inc(), Valued(n + 1.0), div0);
    assert RunFlow(Inc(), Valued(n + 1.0), div0) == Valued(n + 2.0);
  }

  lemma TwoIncsMem(mem: Mem, n: real, div0: real -> real)
    requires mem.cur == mem.start == Valued(n)
    ensures StepMem([Inc(), Inc()], mem, div0) == Mem(Valued(n + 2.0), Valued(n + 2.0), 1)
  {
    OnlyX();
    assert Base({"x"}, mem) == Valued(n);
    TwoIncs(n, div0);
  }
}
