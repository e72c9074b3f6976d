/** Two flows that read each other's variable: what the orders leave and what the rules
    allow. */
module CrossExample {
  import opened Lang
  import opened Emission
  import opened Encoding
  import opened Exactness
  import opened Orders
  import opened Permutations
  import opened Parallel
  import opened ParallelModels
  import opened ParallelReads
  import opened CrossReads

  /** `x := x + y` and `y := y + x`. */
  function Left(): Flow {
    Flow("x", Plus, Ref("y"))
  }

  function Right(): Flow {
    Flow("y", Plus, Ref("x"))
  }

  function Values(x: real, y: real): Store {
    map["x" := x, "y" := y]
  }

  function Versions(x: int, y: int): Counters {
    map["x" := x, "y" := y]
  }

  /** From `x = y = 1` the orders leave 2 and 3, or 3 and 2. The rules allow 2 and 4 for `x`
      and only 3 for `y`, although both flows read right. */
  lemma Crossed(ru: seq<Rule>, m0: Model, div0: real -> real)
    requires GroupEmits([Left(), Right()], Versions(0, 0), Versions(0, 0), ru)
    requires m0(Ver("x", 0)) == m0(Ver("y", 0)) == 1.0
    ensures Upright([Left(), Right()]) && !Allowed([Left(), Right()])
    ensures var (fs, enc) := ([Left(), Right()], Enc(Versions(0, 0), Versions(0, 0), 0));
      && "x" in StepNext(fs, enc).ssa && "y" in StepNext(fs, enc).ssa
      && (forall value :: Allows(fs, enc, ru, m0, div0, "x", value) <==> value in {2.0, 4.0})
      && (forall value :: Gives(fs, Values(1.0, 1.0), div0, "x", value) <==> value in {2.0, 3.0})
      && (forall value :: Allows(fs, enc, ru, m0, div0, "y", value) <==> value in {3.0})
      && (forall value :: Gives(fs, Values(1.0, 1.0), div0, "y", value) <==> value in {2.0, 3.0})
  {
    hide GroupEmits, Allows, Gives, StepNext, Permuts, StepFits, OrderValues, OptionValues;
    var fs, enc := [Left(), Right()], Enc(Versions(0, 0), Versions(0, 0), 0);
    var mem := Mem(Values(1.0, 1.0), Values(1.0, 1.0), 0);
    Mentions();
    CrossFits(enc);
    CrossValues(div0);
    FreshVersion(fs, enc, "x");
    FreshVersion(fs, enc, "y");
    forall value
      ensures Allows(fs, enc, ru, m0, div0, "x", value) <==> value in {2.0, 4.0}
      ensures Gives(fs, Values(1.0, 1.0), div0, "x", value) <==> value in {2.0, 3.0}
      ensures Allows(fs, enc, ru, m0, div0, "y", value) <==> value in {3.0}
      ensures Gives(fs, Values(1.0, 1.0), div0, "y", value) <==> value in {2.0, 3.0}
    {
      GroupAllows(fs, enc, ru, m0, mem, div0, "x", value);
      GroupAllows(fs, enc, ru, m0, mem, div0, "y", value);
      OrdersGive(fs, Values(1.0, 1.0), div0, "x", value);
      OrdersGive(fs, Values(1.0, 1.0), div0, "y", value);
    }
  }

  lemma Mentions()
    ensures var fs := [Left(), Right()];
      Written(fs) == ReadBy(fs) == Mentioned(fs) == {"x", "y"} && Upright(fs)
  {
    var fs := [Left(), Right()];
    assert Left() in fs && Right() in fs && forall f :: f in fs ==> f == Left() || f == Right();
    assert Refs(Left().rest) == {"y"} && Refs(Right().rest) == {"x"};
  }

  lemma CrossValues(div0: real -> real)
    ensures var (fs, s) := ([Left(), Right()], Values(1.0, 1.0));
      && OptionValues(fs, Mem(s, s, 0), div0, "x") == {2.0, 4.0} && OptionValues(fs, Mem(s, s, 0), div0, "y") == {3.0}
      && OrderValues(fs, s, div0, "x") == {2.0, 3.0} && OrderValues(fs, s, div0, "y") == {2.0, 3.0}
  {
    hide Permuts, RunFlows, OrderRun, Lookup, OptionRuns;
    var fs, s := [Left(), Right()], Values(1.0, 1.0);
    TwoOrders(Left(), Right());
    OrderEffects(div0);
    SecondEffect(div0);
    TwoOptions(Left(), Right(), Mem(s, s, 0), div0);
    var runs := OptionRuns(Permuts(fs, 0), s, s, div0);
    assert runs[0] in runs && runs[1] in runs;
    assert [Left(), Right()] in Permuts(fs, 0) && [Right(), Left()] in Permuts(fs, 0);
    ValuesAt(2.0, 3.0);
    ValuesAt(3.0, 2.0);
    ValuesAt(4.0, 3.0);
  }

  lemma ValuesAt(x: real, y: real)
    ensures Lookup(Values(x, y))("x") == x && Lookup(Values(x, y))("y") == y
  {
  }

  lemma OrderEffects(div0: real -> real)
    ensures RunFlows([Left(), Right()], Values(1.0, 1.0), div0) == Values(2.0, 3.0)
    ensures RunFlows([Right(), Left()], Values(1.0, 1.0), div0) == Values(3.0, 2.0)
  {
    LeftRuns(1.0, 1.0, div0);
    RightRuns(2.0, 1.0, div0);
    RightRuns(1.0, 1.0, div0);
    LeftRuns(1.0, 2.0, div0);
    RunOne(Right(), Values(2.0, 1.0), div0);
    RunOne(Left(), Values(1.0, 2.0), div0);
    assert [Left(), Right()][1..] == [Right()] && [Right(), Left()][1..] == [Left()];
  }

  lemma LeftRuns(x: real, y: real, div0: real -> real)
    ensures RunFlow(Left(), Values(x, y), div0) == Values(x + y, y)
  {
    var u, v: Expr<string> := Ref("x"), Ref("y");
    assert Eval(u, Lookup(Values(x, y)), div0) == x && Eval(v, Lookup(Values(x, y)), div0) == y;
  }

  lemma RightRuns(x: real, y: real, div0: real -> real)
    ensures RunFlow(Right(), Values(x, y), div0) == Values(x, y + x)
  {
    var u, v: Expr<string> := Ref("x"), Ref("y");
    assert Eval(u, Lookup(Values(x, y)), div0) == x && Eval(v, Lookup(Values(x, y)), div0) == y;
  }

  /** The second option finds the other variable where the first option left it. */
  lemma SecondEffect(div0: real -> real)
    ensures SecondOption(Left(), Right(), Mem(Values(1.0, 1.0), Values(1.0, 1.0), 0), div0) == Values(4.0, 3.0)
  {
    var one := Values(1.0, 1.0);
    LeftReads(1.0, 1.0, 1.0, 1.0, div0);
    RightReads(2.0, 1.0, 2.0, 1.0, div0);
    RightReads(2.0, 3.0, 1.0, 1.0, div0);
    LeftReads(2.0, 3.0, 1.0, 3.0, div0);
    TwoRun(Left(), Right(), one, one, div0);
    TwoRun(Right(), Left(), Values(2.0, 3.0), one, div0);
    hide Reading, OrderRun, Body;
    assert one["x" := 2.0] == Values(2.0, 1.0) && Values(2.0, 1.0)["y" := 3.0] == Values(2.0, 3.0);
    assert Values(2.0, 3.0)["y" := 3.0] == Values(2.0, 3.0) && one["y" := 3.0] == Values(1.0, 3.0);
    assert Values(2.0, 3.0)["x" := 4.0] == Values(4.0, 3.0);
  }

  lemma TwoRun(f: Flow, g: Flow, cur: Store, start: Store, div0: real -> real)
    ensures var n := Reading(Body(f), cur, start, true, div0);
      var (cur', start') := (cur[f.x := n], start[f.x := n]);
      OrderRun([f, g], cur, start, div0) == cur'[g.x := Reading(Body(g), cur', start', true, div0)]
  {
    hide Reading, Body;
    var n := Reading(Body(f), cur, start, true, div0);
    var one := [f, g][1..];
    assert one == [g] && |one[1..]| == 0;
    var cur', start' := cur[f.x := n], start[f.x := n];
    var k := Reading(Body(g), cur', start', true, div0);
    assert OrderRun(one, cur', start', div0) == OrderRun(one[1..], cur'[g.x := k], start'[g.x := k], div0);
  }

  lemma LeftReads(x: real, y: real, x0: real, y0: real, div0: real -> real)
    ensures Reading(Body(Left()), Values(x, y), Values(x0, y0), true, div0) == x0 + y
  {
    var u, v: Expr<string> := Ref("x"), Ref("y");
    assert FlagAfter(u, true) == false by { assert "x" in Refs(u); }
    assert Reading(u, Values(x, y), Values(x0, y0), true, div0) == x0;
    assert Reading(v, Values(x, y), Values(x0, y0), false, div0) == y;
  }

  lemma RightReads(x: real, y: real, x0: real, y0: real, div0: real -> real)
    ensures Reading(Body(Right()), Values(x, y), Values(x0, y0), true, div0) == y0 + x
  {
    var u, v: Expr<string> := Ref("x"), Ref("y");
    assert FlagAfter(v, true) == false by { assert "y" in Refs(v); }
    assert Reading(v, Values(x, y), Values(x0, y0), true, div0) == y0;
    assert Reading(u, Values(x, y), Values(x0, y0), false, div0) == x;
  }

  lemma CrossFits(enc: Enc)
    requires enc == Enc(Versions(0, 0), Versions(0, 0), 0)
    ensures StepFits([Left(), Right()], enc) && Sound(enc)
  {
    Mentions();
    TwoOrders(Left(), Right());
    CrossNext(Left(), Right(), 0, 0);
    CrossNext(Right(), Left(), 1, 1);
    hide Permuts, Fits, OrderNext, Mentioned;
    var perms := [[Left(), Right()], [Right(), Left()]];
    var once := perms[1..];
    assert once == [[Right(), Left()]] && |once[1..]| == 0;
    assert AllFit(once[1..], OrderNext(once[0], Versions(1, 1)));
    assert AllFit(once, Versions(1, 1)) && OrdersNext(once, Versions(1, 1)) == Versions(2, 2);
  }

  lemma CrossNext(f: Flow, g: Flow, x: int, y: int)
    requires {f.x, g.x} == {"x", "y"} && x < MAX_VERSION && y < MAX_VERSION
    ensures Fits([f, g], Versions(x, y)) && OrderNext([f, g], Versions(x, y)) == Versions(x + 1, y + 1)
  {
    var one := [f, g][1..];
    assert one == [g] && |one[1..]| == 0;
    var ssa := Bump(Versions(x, y), f.x);
    assert f.x in {"x", "y"} && g.x in {"x", "y"} && "x" in {f.x, g.x} && "y" in {f.x, g.x};
    assert Bump(ssa, g.x) == Versions(x + 1, y + 1);
    assert OrderNext(one, ssa) == OrderNext(one[1..], Bump(ssa, g.x)) == Versions(x + 1, y + 1);
    assert Fits(one[1..], Bump(ssa, g.x)) && Fits(one, ssa);
  }
}
