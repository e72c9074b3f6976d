/** Groups whose flows may read what others write. Each option starts its own variables from
    the group's frames and finds the others where the option before left them, and every
    variable picks its option for itself. */
module CrossReads {
  import opened Lang
  import opened Emission
  import opened Encoding
  import opened Exactness
  import opened Forks
  import opened Orders
  import opened Permutations
  import opened Parallel
  import opened ParallelModels
  import opened ParallelReads
  import opened ParallelRuns

  // One variable.

  /** In fresh frames the first option is its order, whatever its flows read. */
  lemma {:induction false} FirstOption(fs: seq<Flow>, cur: Store, start: Store, s: Store, div0: real -> real)
    requires forall y :: Lookup(cur)(y) == Lookup(start)(y) == Lookup(s)(y)
    ensures forall y :: Lookup(OrderRun(fs, cur, start, div0))(y) == Lookup(RunFlows(fs, s, div0))(y)
    decreases |fs|
  {
    hide Reading;
    if fs != [] {
      var f := fs[0];
      var n := Reading(Body(f), cur, start, true, div0);
      ReadingNewest(Body(f), cur, start, true, div0);
      EvalDepends(Body(f), Lookup(cur), Lookup(s), div0);
      assert n == Eval(Body(f), Lookup(s), div0);
      forall y: string
        ensures Lookup(cur[f.x := n])(y) == Lookup(start[f.x := n])(y) == Lookup(RunFlow(f, s, div0))(y)
      {
        assert Lookup(cur)(y) == Lookup(start)(y) == Lookup(s)(y);
      }
      FirstOption(fs[1..], cur[f.x := n], start[f.x := n], RunFlow(f, s, div0), div0);
    }
  }

  /** What the second of two orders leaves as an option. */
  function SecondOption(f: Flow, g: Flow, mem: Mem, div0: real -> real): Store {
    OrderRun([g, f], OrderRun([f, g], mem.cur, mem.start, div0), mem.start, div0)
  }

  lemma TwoOptions(f: Flow, g: Flow, mem: Mem, div0: real -> real)
    requires Fresh(mem, {})
    ensures var runs := OptionRuns(Permuts([f, g], 0), mem.cur, mem.start, div0);
      && |runs| == 2 && runs[1] == SecondOption(f, g, mem, div0)
      && forall y :: Lookup(runs[0])(y) == Lookup(RunFlows([f, g], mem.cur, div0))(y)
  {
    hide Permuts, OrderRun, RunFlows, Lookup;
    TwoOrders(f, g);
    var perms := [[f, g], [g, f]];
    assert perms[1..] == [[g, f]] && |perms[1..][1..]| == 0;
    var cur := OrderRun([f, g], mem.cur, mem.start, div0);
    assert OptionRuns(perms[1..], cur, mem.start, div0) == [OrderRun([g, f], cur, mem.start, div0)];
    FirstOption([f, g], mem.cur, mem.start, mem.cur, div0);
  }

  /** Two flows, whatever they read: exact for a variable if and only if the second option
      leaves what the second order leaves. */
  lemma TwoFlowsExact(f: Flow, g: Flow, enc: Enc, ru: seq<Rule>, m0: Model, mem: Mem, div0: real -> real, x: string)
    requires StepFits([f, g], enc) && Sound(enc) && GroupEmits([f, g], enc.ssa, enc.starts, ru)
    requires Holding(m0, enc, mem) && x in {f.x, g.x} && Fresh(mem, {})
    ensures x in StepNext([f, g], enc).ssa
    ensures (forall value ::
              Allows([f, g], enc, ru, m0, div0, x, value) <==> Gives([f, g], mem.cur, div0, x, value))
       <==> Lookup(SecondOption(f, g, mem, div0))(x) == Lookup(RunFlows([g, f], mem.cur, div0))(x)
  {
    hide GroupEmits, Holding, StepFits, Sound, StepNext, Fresh, Allows, Gives, Lookup, RunFlows, Permuts, OrderRun,
         OptionRuns, SecondOption;
    var fs, s := [f, g], mem.cur;
    assert x in Written(fs) by { assert f in fs && g in fs; }
    GroupExact(fs, enc, ru, m0, mem, s, div0, x);
    TwoOptions(f, g, mem, div0);
    TwoOrders(f, g);
    var runs := OptionRuns(Permuts(fs, 0), mem.cur, mem.start, div0);
    var first, second := Lookup(RunFlows([f, g], s, div0))(x), Lookup(RunFlows([g, f], s, div0))(x);
    assert runs[0] in runs && runs[1] in runs;
    assert OptionValues(fs, mem, div0, x) == {first, Lookup(runs[1])(x)};
    assert [f, g] in Permuts(fs, 0) && [g, f] in Permuts(fs, 0);
    assert OrderValues(fs, s, div0, x) == {first, second};
  }

  // All variables of a group at once.

  ghost predicate SameOn(xs: set<string>, a: Store, b: Store) {
    forall x :: x in xs ==> Lookup(a)(x) == Lookup(b)(x)
  }

  /** Some model of the group's rules gives all its fresh versions their value in `after`. */
  ghost predicate AllowsAll(fs: seq<Flow>, enc: Enc, ru: seq<Rule>, m0: Model, div0: real -> real, after: Store) {
    exists m :: AgreeOn(enc.ssa, m0, m) && Sat(ru, m, div0) && Leaves(fs, enc, m, after)
  }

  ghost predicate Leaves(fs: seq<Flow>, enc: Enc, m: Model, after: Store) {
    forall x :: x in Mentioned(fs) ==> m(Ver(x, Advanced(OrdersNext(Permuts(fs, 0), enc.ssa), x))) == Lookup(after)(x)
  }

  /** Exactly the outcomes of picking an option for each variable are allowed. */
  lemma GroupAllowsAll(fs: seq<Flow>, enc: Enc, ru: seq<Rule>, m0: Model, mem: Mem, div0: real -> real, after: Store)
    requires |fs| > 1 && StepFits(fs, enc) && Sound(enc) && GroupEmits(fs, enc.ssa, enc.starts, ru)
    requires Holding(m0, enc, mem)
    ensures AllowsAll(fs, enc, ru, m0, div0, after) <==>
            exists pick :: Picks(pick, Written(fs), |Permuts(fs, 0)|)
                           && SameOn(Mentioned(fs), AfterGroup(fs, pick, mem, div0), after)
  {
    hide GroupEmits, AgreeOn, Sat, Holding, StepFits, Sound, Permuts, Lookup, Written, Mentioned, OrdersNext, Picks,
         AfterGroup, Leaves, SameOn;
    if AllowsAll(fs, enc, ru, m0, div0, after) {
      var m: Model :| AgreeOn(enc.ssa, m0, m) && Sat(ru, m, div0) && Leaves(fs, enc, m, after);
      HoldingKept(enc, m0, m, mem);
      var pick := AllPicked(fs, enc, ru, m, mem, div0);
      SameLeft(fs, enc, m, AfterGroup(fs, pick, mem, div0), after);
    }
    if pick :| Picks(pick, Written(fs), |Permuts(fs, 0)|)
               && SameOn(Mentioned(fs), AfterGroup(fs, pick, mem, div0), after) {
      var m := AllRealized(fs, enc, ru, m0, mem, div0, pick);
      LeftSame(fs, enc, m, AfterGroup(fs, pick, mem, div0), after);
    }
  }

  lemma SameLeft(fs: seq<Flow>, enc: Enc, m: Model, a: Store, b: Store)
    requires Leaves(fs, enc, m, a) && Leaves(fs, enc, m, b)
    ensures SameOn(Mentioned(fs), a, b)
  {
    hide Permuts, OrdersNext, Mentioned, Lookup;
  }

  lemma LeftSame(fs: seq<Flow>, enc: Enc, m: Model, a: Store, b: Store)
    requires Leaves(fs, enc, m, a) && SameOn(Mentioned(fs), a, b)
    ensures Leaves(fs, enc, m, b)
  {
    hide Permuts, OrdersNext, Mentioned, Lookup;
  }

  lemma AllPicked(fs: seq<Flow>, enc: Enc, ru: seq<Rule>, m: Model, mem: Mem, div0: real -> real)
    returns (pick: map<string, nat>)
    requires |fs| > 1 && StepFits(fs, enc) && Sound(enc) && GroupEmits(fs, enc.ssa, enc.starts, ru)
    requires Holding(m, enc, mem) && Sat(ru, m, div0)
    ensures Picks(pick, Written(fs), |Permuts(fs, 0)|) && Leaves(fs, enc, m, AfterGroup(fs, pick, mem, div0))
  {
    var perms := Permuts(fs, 0);
    var caps :| IsCap(caps, Mentioned(fs), perms, enc.ssa, enc.starts)
      && ru == OrdersRules(perms, enc.ssa, enc.starts) + caps;
    hide IsCap, OrdersRules, OrdersNext, Permuts, Sat, OrderEnds, Mentioned, StepFits, Sound, Holding, GroupEmits,
         PickedAt;
    SatConcat(OrdersRules(perms, enc.ssa, enc.starts), caps, m, div0);
    var xs := Listing(Mentioned(fs));
    pick := PicksOf(xs, fs, caps, enc, m, div0);
    GroupLeaves(fs, enc, m, mem, div0, pick);
  }

  lemma AllRealized(fs: seq<Flow>, enc: Enc, ru: seq<Rule>, m0: Model, mem: Mem, div0: real -> real,
                    pick: map<string, nat>)
    returns (m: Model)
    requires |fs| > 1 && StepFits(fs, enc) && Sound(enc) && GroupEmits(fs, enc.ssa, enc.starts, ru)
    requires Holding(m0, enc, mem) && Picks(pick, Written(fs), |Permuts(fs, 0)|)
    ensures AgreeOn(enc.ssa, m0, m) && Sat(ru, m, div0) && Leaves(fs, enc, m, AfterGroup(fs, pick, mem, div0))
  {
    var full;
    m, full := PicksRealized(fs, enc, ru, pick, m0, mem, div0);
    GroupLeaves(fs, enc, m, mem, div0, full);
    AfterSame(fs, pick, full, mem, div0);
  }

  lemma GroupLeaves(fs: seq<Flow>, enc: Enc, m: Model, mem: Mem, div0: real -> real, pick: map<string, nat>)
    requires |fs| > 1 && StepFits(fs, enc) && Sound(enc) && Holding(m, enc, mem)
    requires Sat(OrdersRules(Permuts(fs, 0), enc.ssa, enc.starts), m, div0)
    requires forall x :: x in Mentioned(fs) ==>
      x in pick && PickedAt(Permuts(fs, 0), pick[x], enc.ssa, enc.starts, m, x)
    ensures Picks(pick, Written(fs), |Permuts(fs, 0)|) && Leaves(fs, enc, m, AfterGroup(fs, pick, mem, div0))
  {
    hide Permuts, OrdersRules, OrdersNext, Sat, OptionRuns, Lookup, AllFit, ReadsNewest, OrderEnds, Holding, Sound,
         StepFits;
    var after := AfterGroup(fs, pick, mem, div0);
    forall x | x in Mentioned(fs)
      ensures m(Ver(x, Advanced(OrdersNext(Permuts(fs, 0), enc.ssa), x))) == Lookup(after)(x)
    {
      EndHolds(fs, enc, m, mem, div0, x, pick[x]);
      LookupIn(after, x);
    }
  }

  /** So variables mix freely: of two allowed outcomes each may take its own. */
  lemma AllowedMix(fs: seq<Flow>, enc: Enc, ru: seq<Rule>, m0: Model, mem: Mem, div0: real -> real, a: Store, b: Store,
                   mix: Store)
    requires |fs| > 1 && StepFits(fs, enc) && Sound(enc) && GroupEmits(fs, enc.ssa, enc.starts, ru)
    requires Holding(m0, enc, mem)
    requires AllowsAll(fs, enc, ru, m0, div0, a) && AllowsAll(fs, enc, ru, m0, div0, b)
    requires forall x :: x in Mentioned(fs) ==> Lookup(mix)(x) == Lookup(a)(x) || Lookup(mix)(x) == Lookup(b)(x)
    ensures AllowsAll(fs, enc, ru, m0, div0, mix)
  {
    hide GroupEmits, Holding, StepFits, Sound, Permuts, Written, Mentioned, AllowsAll;
    GroupAllowsAll(fs, enc, ru, m0, mem, div0, a);
    GroupAllowsAll(fs, enc, ru, m0, mem, div0, b);
    GroupAllowsAll(fs, enc, ru, m0, mem, div0, mix);
    var pickA :| Picks(pickA, Written(fs), |Permuts(fs, 0)|)
      && SameOn(Mentioned(fs), AfterGroup(fs, pickA, mem, div0), a);
    var pickB :| Picks(pickB, Written(fs), |Permuts(fs, 0)|)
      && SameOn(Mentioned(fs), AfterGroup(fs, pickB, mem, div0), b);
    var pick := MixedPick(fs, mem, div0, pickA, pickB, a, b, mix);
  }

  lemma MixedPick(fs: seq<Flow>, mem: Mem, div0: real -> real, pickA: map<string, nat>, pickB: map<string, nat>,
                  a: Store, b: Store, mix: Store)
    returns (pick: map<string, nat>)
    requires Picks(pickA, Written(fs), |Permuts(fs, 0)|) && Picks(pickB, Written(fs), |Permuts(fs, 0)|)
    requires SameOn(Mentioned(fs), AfterGroup(fs, pickA, mem, div0), a)
    requires SameOn(Mentioned(fs), AfterGroup(fs, pickB, mem, div0), b)
    requires forall x :: x in Mentioned(fs) ==> Lookup(mix)(x) == Lookup(a)(x) || Lookup(mix)(x) == Lookup(b)(x)
    ensures Picks(pick, Written(fs), |Permuts(fs, 0)|)
    ensures SameOn(Mentioned(fs), AfterGroup(fs, pick, mem, div0), mix)
  {
    hide Permuts, OptionRuns, Written, Mentioned, ReadsNewest, Lookup;
    pick := map x | x in Written(fs) :: if Lookup(mix)(x) == Lookup(a)(x) then pickA[x] else pickB[x];
    forall x | x in Mentioned(fs) ensures Lookup(AfterGroup(fs, pick, mem, div0))(x) == Lookup(mix)(x) {
      LookupIn(AfterGroup(fs, pick, mem, div0), x);
      LookupIn(AfterGroup(fs, pickA, mem, div0), x);
      LookupIn(AfterGroup(fs, pickB, mem, div0), x);
    }
  }

  /** Running the flows atomically in some order leaves these values. */
  ghost predicate GivesAll(fs: seq<Flow>, s: Store, div0: real -> real, after: Store) {
    exists order :: SameFlows(order, fs) && SameOn(Mentioned(fs), RunFlows(order, s, div0), after)
  }

  /** Two flows of different variables, whatever they read: the rules are exact for both
      variables together if and only if they are for each, and the orders do not differ in
      both. */
  lemma TwoFlowsJointly(f: Flow, g: Flow, enc: Enc, ru: seq<Rule>, m0: Model, mem: Mem, div0: real -> real)
    requires StepFits([f, g], enc) && Sound(enc) && GroupEmits([f, g], enc.ssa, enc.starts, ru)
    requires Holding(m0, enc, mem) && f.x != g.x && Fresh(mem, {})
    ensures var (a, b) := (RunFlows([f, g], mem.cur, div0), RunFlows([g, f], mem.cur, div0));
      var c := SecondOption(f, g, mem, div0);
      (forall after :: AllowsAll([f, g], enc, ru, m0, div0, after) <==> GivesAll([f, g], mem.cur, div0, after))
      <==> && SameOn({f.x, g.x}, c, b)
           && (Lookup(a)(f.x) == Lookup(b)(f.x) || Lookup(a)(g.x) == Lookup(b)(g.x))
  {
    hide GroupEmits, Holding, StepFits, Sound, Fresh, AllowsAll, GivesAll, RunFlows, SecondOption, Kept, Lookup;
    var fs, s := [f, g], mem.cur;
    var a, b, c := RunFlows([f, g], s, div0), RunFlows([g, f], s, div0), SecondOption(f, g, mem, div0);
    if SameOn({f.x, g.x}, c, b) && (Lookup(a)(f.x) == Lookup(b)(f.x) || Lookup(a)(g.x) == Lookup(b)(g.x)) {
      forall after ensures AllowsAll(fs, enc, ru, m0, div0, after) <==> GivesAll(fs, s, div0, after) {
        TwoAllowed(f, g, enc, ru, m0, mem, div0, after);
        TwoGiven(f, g, s, div0, after);
      }
    }
    if forall after :: AllowsAll(fs, enc, ru, m0, div0, after) <==> GivesAll(fs, s, div0, after) {
      MixedExact(f, g, enc, ru, m0, mem, div0, c, c);
      MixedExact(f, g, enc, ru, m0, mem, div0, b, b);
      MixedExact(f, g, enc, ru, m0, mem, div0, c, a);
    }
  }

  /** What exactness says of the outcome with `f.x` as in `p` and `g.x` as in `q`. */
  lemma MixedExact(f: Flow, g: Flow, enc: Enc, ru: seq<Rule>, m0: Model, mem: Mem, div0: real -> real, p: Store,
                   q: Store)
    requires StepFits([f, g], enc) && Sound(enc) && GroupEmits([f, g], enc.ssa, enc.starts, ru)
    requires Holding(m0, enc, mem) && f.x != g.x && Fresh(mem, {})
    requires forall after :: AllowsAll([f, g], enc, ru, m0, div0, after) <==> GivesAll([f, g], mem.cur, div0, after)
    ensures var (a, b) := (RunFlows([f, g], mem.cur, div0), RunFlows([g, f], mem.cur, div0));
      var c := SecondOption(f, g, mem, div0);
      PickOf(f.x, a, c, p) && PickOf(g.x, a, c, q) <==>
      || (Lookup(p)(f.x) == Lookup(a)(f.x) && Lookup(q)(g.x) == Lookup(a)(g.x))
      || (Lookup(p)(f.x) == Lookup(b)(f.x) && Lookup(q)(g.x) == Lookup(b)(g.x))
  {
    hide GroupEmits, Holding, StepFits, Sound, Fresh, AllowsAll, GivesAll, RunFlows, SecondOption, Kept, Lookup;
    var after := mem.cur[f.x := Lookup(p)(f.x)][g.x := Lookup(q)(g.x)];
    Mixture(f, g, mem.cur, p, q);
    TwoAllowed(f, g, enc, ru, m0, mem, div0, after);
    TwoGiven(f, g, mem.cur, div0, after);
  }

  ghost predicate AtBoth(f: Flow, g: Flow, a: Store, after: Store) {
    Lookup(after)(f.x) == Lookup(a)(f.x) && Lookup(after)(g.x) == Lookup(a)(g.x)
  }

  ghost predicate PickOf(x: string, a: Store, c: Store, after: Store) {
    Lookup(after)(x) == Lookup(a)(x) || Lookup(after)(x) == Lookup(c)(x)
  }

  /** What a group only reads is left alone. */
  ghost predicate Kept(fs: seq<Flow>, s: Store, after: Store) {
    SameOn(Mentioned(fs) - Written(fs), s, after)
  }

  lemma Mixture(f: Flow, g: Flow, s: Store, p: Store, q: Store)
    requires f.x != g.x
    ensures var after := s[f.x := Lookup(p)(f.x)][g.x := Lookup(q)(g.x)];
      Kept([f, g], s, after) && Lookup(after)(f.x) == Lookup(p)(f.x) && Lookup(after)(g.x) == Lookup(q)(g.x)
  {
    TwoWritten(f, g);
  }

  lemma TwoWritten(f: Flow, g: Flow)
    ensures Written([f, g]) == {f.x, g.x} <= Mentioned([f, g])
  {
    assert f in [f, g] && g in [f, g] && forall h :: h in [f, g] ==> h == f || h == g;
  }

  lemma TwoGiven(f: Flow, g: Flow, s: Store, div0: real -> real, after: Store)
    ensures GivesAll([f, g], s, div0, after) <==>
      && Kept([f, g], s, after)
      && (AtBoth(f, g, RunFlows([f, g], s, div0), after) || AtBoth(f, g, RunFlows([g, f], s, div0), after))
  {
    hide RunFlows, Permuts, Lookup, Mentioned;
    var fs := [f, g];
    TwoWritten(f, g);
    ExactlyAllOrders(fs);
    TwoOrders(f, g);
    forall order | SameFlows(order, fs)
      ensures order == [f, g] || order == [g, f]
      ensures SameOn(Mentioned(fs) - Written(fs), s, RunFlows(order, s, div0))
    {
      assert order in Permuts(fs, 0);
      SameFlowsMention(order, fs);
      forall x | x in Mentioned(fs) - Written(fs) ensures Lookup(RunFlows(order, s, div0))(x) == Lookup(s)(x) {
        OthersKept(order, s, x, div0);
      }
    }
    assert [f, g] in Permuts(fs, 0) && [g, f] in Permuts(fs, 0);
    assert SameFlows([f, g], fs) && SameFlows([g, f], fs);
  }

  lemma TwoAllowed(f: Flow, g: Flow, enc: Enc, ru: seq<Rule>, m0: Model, mem: Mem, div0: real -> real, after: Store)
    requires StepFits([f, g], enc) && Sound(enc) && GroupEmits([f, g], enc.ssa, enc.starts, ru)
    requires Holding(m0, enc, mem) && f.x != g.x && Fresh(mem, {})
    ensures var (a, c) := (RunFlows([f, g], mem.cur, div0), SecondOption(f, g, mem, div0));
      AllowsAll([f, g], enc, ru, m0, div0, after) <==>
      Kept([f, g], mem.cur, after) && PickOf(f.x, a, c, after) && PickOf(g.x, a, c, after)
  {
    hide GroupEmits, Holding, StepFits, Sound, RunFlows, Permuts, AllowsAll, SecondOption, Mentioned, Written,
         OptionRuns, Lookup, ReadsNewest;
    var fs, s := [f, g], mem.cur;
    var a, c := RunFlows([f, g], s, div0), SecondOption(f, g, mem, div0);
    GroupAllowsAll(fs, enc, ru, m0, mem, div0, after);
    TwoOptions(f, g, mem, div0);
    TwoOrders(f, g);
    TwoWritten(f, g);
    forall pick: map<string, nat> | Picks(pick, Written(fs), 2)
      ensures SameOn(Mentioned(fs), AfterGroup(fs, pick, mem, div0), after) <==>
        && Kept(fs, s, after)
        && Lookup(after)(f.x) == Lookup(if pick[f.x] == 0 then a else c)(f.x)
        && Lookup(after)(g.x) == Lookup(if pick[g.x] == 0 then a else c)(g.x)
    {
      AfterTwo(f, g, mem, div0, pick, after);
    }
    if PickOf(f.x, a, c, after) && PickOf(g.x, a, c, after) {
      var pick: map<string, nat> := map[f.x := if Lookup(after)(f.x) == Lookup(a)(f.x) then 0 else 1,
                                        g.x := if Lookup(after)(g.x) == Lookup(a)(g.x) then 0 else 1];
      assert Picks(pick, Written(fs), 2);
    }
  }

  lemma AfterTwo(f: Flow, g: Flow, mem: Mem, div0: real -> real, pick: map<string, nat>, after: Store)
    requires f.x != g.x && Fresh(mem, {}) && |Permuts([f, g], 0)| == 2 && Picks(pick, Written([f, g]), 2)
    requires Written([f, g]) == {f.x, g.x} <= Mentioned([f, g])
    ensures var (a, c) := (RunFlows([f, g], mem.cur, div0), SecondOption(f, g, mem, div0));
      SameOn(Mentioned([f, g]), AfterGroup([f, g], pick, mem, div0), after) <==>
      && Kept([f, g], mem.cur, after)
      && Lookup(after)(f.x) == Lookup(if pick[f.x] == 0 then a else c)(f.x)
      && Lookup(after)(g.x) == Lookup(if pick[g.x] == 0 then a else c)(g.x)
  {
    hide RunFlows, Permuts, SecondOption, Mentioned, Written, OptionRuns, Lookup, ReadsNewest;
    var fs := [f, g];
    TwoOptions(f, g, mem, div0);
    var left := AfterGroup(fs, pick, mem, div0);
    forall x | x in Mentioned(fs)
      ensures Lookup(left)(x) ==
        if x in Written(fs) then Lookup(OptionRuns(Permuts(fs, 0), mem.cur, mem.start, div0)[pick[x]])(x)
        else Lookup(mem.cur)(x)
    {
      LookupIn(left, x);
    }
  }
}
