/** A group of two flows that misread: what the orders leave and what the rules allow. */
module MisreadExample {
  import opened Lang
  import opened Emission
  import opened Encoding
  import opened Exactness
  import opened Orders
  import opened Permutations
  import opened Parallel
  import opened ParallelModels
  import opened ParallelReads

  /** `c := c + (a + b)`. */
  function Sum(): Flow {
    Flow("c", Plus, Bin(Plus, Ref("a"), Ref("b")))
  }

  /** Its rule takes the frame's start for `a` and the newest version of `c`. */
  lemma SumRule(ssa: Counters, starts: Counters)
    ensures FlowRule(Sum(), ssa, starts) ==
            Define(Ver("c", Advanced(ssa, "c")),
                   Bin(Plus, Ref(Ver("c", Count(ssa, "c"))),
                       Bin(Plus, Ref(Ver("a", Count(starts, "a"))), Ref(Ver("b", Count(ssa, "b"))))))
  {
    var a, b, c: Expr<string> := Ref("a"), Ref("b"), Ref("c");
    var sum := Bin(Plus, a, b);
    assert FlagAfter(a, true) == FlagAfter(sum, true) == false by { assert "a" in Refs(a) && "a" in Refs(sum); }
    assert Convert(ssa, starts, sum, true) == Bin(Plus, Convert(ssa, starts, a, true), Convert(ssa, starts, b, false));
    assert Convert(ssa, starts, c, false) == Ref(Ver("c", Count(ssa, "c")));
  }

  function Values(c: real): Store {
    map["a" := 1.0, "b" := 2.0, "c" := c]
  }

  function Versions(c: int): Counters {
    map["a" := 0, "b" := 0, "c" := c]
  }

  /** Twice in parallel, from `c = 0` with `a = 1` and `b = 2`: every order leaves 6, and the
      rules allow 12 as well. */
  lemma SumTwice(ru: seq<Rule>, m0: Model, div0: real -> real)
    requires GroupEmits([Sum(), Sum()], Versions(0), Versions(0), ru)
    requires m0(Ver("a", 0)) == 1.0 && m0(Ver("b", 0)) == 2.0 && m0(Ver("c", 0)) == 0.0
    ensures var (fs, enc) := ([Sum(), Sum()], Enc(Versions(0), Versions(0), 0));
      && "c" in StepNext(fs, enc).ssa
      && Allows(fs, enc, ru, m0, div0, "c", 12.0)
      && forall value :: Gives(fs, Values(0.0), div0, "c", value) <==> value == 6.0
  {
    hide GroupEmits, Allows, Gives, RunFlows, StepNext, Permuts, Chained, StepFits, OrderValues;
    var fs, enc, mem := [Sum(), Sum()], Enc(Versions(0), Versions(0), 0), Mem(Values(0.0), Values(0.0), 0);
    SumFits(enc);
    assert "c" in Written(fs) && Misread(fs, "c") && Allowed(fs) by {
      assert Sum() in fs && forall f :: f in fs ==> f == Sum();
      assert Refs(Sum().rest) == {"a", "b"};
    }
    MisreadAllows(fs, enc, ru, m0, mem, div0, "c", 12.0);
    TwoChained(Sum(), Sum(), Values(0.0), div0, "c");
    SumRuns(0.0, div0);
    SumRuns(6.0, div0);
    RunConcat(fs, fs, Values(0.0), div0);
    assert fs + fs == [Sum(), Sum(), Sum(), Sum()];
    assert Chained(fs, 1, Values(0.0), div0, "c") == 12.0;
    forall value ensures Gives(fs, Values(0.0), div0, "c", value) <==> value == 6.0 {
      OrdersGive(fs, Values(0.0), div0, "c", value);
    }
  }

  lemma SumRuns(c: real, div0: real -> real)
    ensures RunFlows([Sum(), Sum()], Values(c), div0) == Values(c + 6.0)
    ensures Lookup(Values(c + 6.0))("c") == c + 6.0
  {
    SumRun(c, div0);
    SumRun(c + 3.0, div0);
    assert c + 3.0 + 3.0 == c + 6.0;
    hide RunFlow, Values, Lookup, Sum;
    assert [Sum(), Sum()][1..] == [Sum()];
    RunOne(Sum(), Values(c + 3.0), div0);
    LookupC(c + 6.0);
  }

  lemma LookupC(c: real)
    ensures Lookup(Values(c))("c") == c
  {
  }

  lemma SumRun(n: real, div0: real -> real)
    ensures RunFlow(Sum(), Values(n), div0) == Values(n + 3.0)
  {
    var a, b, c: Expr<string> := Ref("a"), Ref("b"), Ref("c");
    var sum: Expr<string> := Bin(Plus, a, b);
    var s := Values(n);
    assert Eval(a, Lookup(s), div0) == 1.0 && Eval(b, Lookup(s), div0) == 2.0 && Eval(c, Lookup(s), div0) == n;
    assert Eval(sum, Lookup(s), div0) == 3.0;
  }

  lemma SumFits(enc: Enc)
    requires enc == Enc(Versions(0), Versions(0), 0)
    ensures StepFits([Sum(), Sum()], enc) && Sound(enc)
  {
    var fs := [Sum(), Sum()];
    assert Sum() in fs && forall g :: g in fs ==> g == Sum();
    assert Refs(Sum().rest) == {"a", "b"};
    assert Written(fs) == {"c"} && ReadBy(fs) == {"a", "b"};
    TwoOrders(Sum(), Sum());
    SumNext(0);
    SumNext(2);
    hide Permuts, Fits, OrderNext;
    var perms := [fs, fs];
    var once := perms[1..];
    assert once == [fs] && |once[1..]| == 0;
    assert OrdersNext(once, Versions(2)) == Versions(4);
  }

  lemma SumNext(c: int)
    requires c < MAX_VERSION - 1
    ensures Fits([Sum(), Sum()], Versions(c)) && OrderNext([Sum(), Sum()], Versions(c)) == Versions(c + 2)
  {
    var one, two := [Sum()], [Sum(), Sum()];
    assert two[1..] == one && |one[1..]| == 0;
    assert Bump(Versions(c), "c") == Versions(c + 1) && Bump(Versions(c + 1), "c") == Versions(c + 2);
    assert OrderNext(one, Versions(c + 1)) == OrderNext(one[1..], Versions(c + 2)) == Versions(c + 2);
    assert Fits(one[1..], Versions(c + 2)) && Fits(one, Versions(c + 1));
  }
}
