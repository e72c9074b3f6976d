/** The fork of a parallel group: one choice per order and variable, ending where the
    variable stands after that order. */
module ParallelForks {
  import opened Lang
  import opened Emission
  import opened Encoding
  import opened Exactness
  import opened Forks
  import opened Orders
  import opened Permutations
  import opened Parallel

  /** The rules of an order mention its variables. */
  lemma OrderBases(fs: seq<Flow>, ssa: Counters, starts: Counters)
    requires Fits(fs, ssa) && StartsExist(starts, ssa, Mentioned(fs))
    ensures Bases(RulesVers(OrderRules(fs, ssa, starts))) == Mentioned(fs)
  {
    hide Mentioned, Written, OrderRules, RulesVers, OrderNext;
    OrderMentions(fs, ssa, starts);
    var changes := RulesVers(OrderRules(fs, ssa, starts));
    forall x | x in Mentioned(fs) ensures x in Bases(changes) {
      var n :| Ver(x, n) in changes;
      assert Ver(x, n).base == x;
    }
  }

  lemma ChoiceEnd(changes: seq<Ver>, x: string, b: string)
    requires x in Bases(changes)
    ensures Collected(Nums(changes, x)) != []
    ensures GetEnd(Choice(x, b, Collected(Nums(changes, x)))) == EndOf(changes, x)
  {
    var v :| v in changes && v.base == x;
    NumsAre(changes, x);
    CollectedSorted(Nums(changes, x));
    assert v.num in Nums(changes, x);
  }

  /** The first `i` choices end at the first `i` of all the ends; `rest` are the others. */
  predicate EndAt(choices: seq<Choice>, all: seq<int>, i: nat, rest: seq<int>) {
    && |choices| == i <= |all| && all[i..] == rest
    && forall j :: 0 <= j < i ==> choices[j].values != [] && GetEnd(choices[j]) == all[j]
  }

  /** The fork once the first `i` orders of the group have been recorded. */
  ghost predicate Recorded(fork: Fork, xs: set<string>, perms: seq<seq<Flow>>, ssa0: Counters, starts: Counters,
                           i: nat, ssa: Counters) {
    && i <= |perms| && fork.Keys == (if i == 0 then {} else xs)
    && (forall x :: x in xs ==>
      EndAt(Choices(fork, x), OrderEnds(perms, ssa0, starts, x), i, OrderEnds(perms[i..], ssa, starts, x)))
    && forall x :: x in xs ==>
      Choices(fork, x) + OrderChoices(perms[i..], ssa, starts, x) == OrderChoices(perms, ssa0, starts, x)
  }

  /** The choices for `x`, one for each of the orders. */
  function OrderChoices(perms: seq<seq<Flow>>, ssa: Counters, starts: Counters, x: string): seq<Choice> {
    if perms == [] then []
    else
      [Choice(x, "", Collected(Nums(RulesVers(OrderRules(perms[0], ssa, starts)), x)))]
        + OrderChoices(perms[1..], OrderNext(perms[0], ssa), starts, x)
  }

  /** The rules of the order at place `i`, which starts from the counters the others left. */
  function OptionRules(perms: seq<seq<Flow>>, i: nat, ssa: Counters, starts: Counters): seq<Rule>
    requires i < |perms|
  {
    OrderRules(perms[i], OrdersNext(perms[..i], ssa), starts)
  }

  lemma {:induction false} OrderChoicesAt(perms: seq<seq<Flow>>, ssa: Counters, starts: Counters, x: string, i: nat)
    requires i < |perms|
    ensures |OrderChoices(perms, ssa, starts, x)| == |perms|
    ensures OrderChoices(perms, ssa, starts, x)[i] ==
            Choice(x, "", Collected(Nums(RulesVers(OptionRules(perms, i, ssa, starts)), x)))
  {
    hide OrderRules, OrderNext, RulesVers, Nums, Collected;
    if |perms| > 1 {
      OrderChoicesAt(perms[1..], OrderNext(perms[0], ssa), starts, x, if i > 0 then i - 1 else 0);
    }
    if i > 0 {
      assert perms[..i][0] == perms[0] && perms[..i][1..] == perms[1..][..i - 1];
    } else {
      assert perms[..0] == [];
    }
  }

  lemma RecordNothing(xs: set<string>, perms: seq<seq<Flow>>, ssa: Counters, starts: Counters)
    ensures Recorded(map[], xs, perms, ssa, starts, 0, ssa)
  {
    assert perms[0..] == perms;
  }

  lemma RecordStep(fork: Fork, fork': Fork, xs: set<string>, perms: seq<seq<Flow>>, ssa0: Counters,
                   starts: Counters, i: nat, ssa: Counters, changes: seq<Ver>)
    requires Recorded(fork, xs, perms, ssa0, starts, i, ssa) && i < |perms|
    requires changes == RulesVers(OrderRules(perms[i], ssa, starts)) && Bases(changes) == xs
    requires IsBranched(fork', fork, changes, "")
    ensures Recorded(fork', xs, perms, ssa0, starts, i + 1, OrderNext(perms[i], ssa))
  {
    hide EndAt, Collected, Nums, Bases, OrderEnds, OrderNext, RulesVers, OrderRules, OrderChoices;
    forall x | x in xs
      ensures EndAt(Choices(fork', x), OrderEnds(perms, ssa0, starts, x), i + 1,
        OrderEnds(perms[i + 1..], OrderNext(perms[i], ssa), starts, x))
      ensures Choices(fork', x) + OrderChoices(perms[i + 1..], OrderNext(perms[i], ssa), starts, x) ==
        OrderChoices(perms, ssa0, starts, x)
    {
      assert Choices(fork', x) == Choices(fork, x) + [Choice(x, "", Collected(Nums(changes, x)))];
      RecordOne(Choices(fork, x), perms, i, ssa, starts, x, OrderEnds(perms, ssa0, starts, x));
    }
  }

  lemma RecordOne(choices: seq<Choice>, perms: seq<seq<Flow>>, i: nat, ssa: Counters, starts: Counters, x: string,
                  all: seq<int>)
    requires i < |perms| && x in Bases(RulesVers(OrderRules(perms[i], ssa, starts)))
    requires EndAt(choices, all, i, OrderEnds(perms[i..], ssa, starts, x))
    ensures var c := Choice(x, "", Collected(Nums(RulesVers(OrderRules(perms[i], ssa, starts)), x)));
      var ssa' := OrderNext(perms[i], ssa);
      && EndAt(choices + [c], all, i + 1, OrderEnds(perms[i + 1..], ssa', starts, x))
      && choices + [c] + OrderChoices(perms[i + 1..], ssa', starts, x) ==
         choices + OrderChoices(perms[i..], ssa, starts, x)
  {
    hide EndAt, Collected, Nums, Bases, OrderEnds, OrderNext, RulesVers, OrderRules, OrderChoices, EndOf;
    var changes, ssa' := RulesVers(OrderRules(perms[i], ssa, starts)), OrderNext(perms[i], ssa);
    var c := Choice(x, "", Collected(Nums(changes, x)));
    assert perms[i..][0] == perms[i] && perms[i..][1..] == perms[i + 1..];
    ChoiceEnd(changes, x, "");
    EndsStep(perms[i..], ssa, starts, x);
    EndAtSnoc(choices, c, all, i, OrderEnds(perms[i + 1..], ssa', starts, x));
    ChoicesStep(perms[i..], ssa, starts, x);
    var rest := OrderChoices(perms[i + 1..], ssa', starts, x);
    assert choices + [c] + rest == choices + ([c] + rest);
  }

  lemma ChoicesStep(perms: seq<seq<Flow>>, ssa: Counters, starts: Counters, x: string)
    requires perms != []
    ensures OrderChoices(perms, ssa, starts, x) ==
            [Choice(x, "", Collected(Nums(RulesVers(OrderRules(perms[0], ssa, starts)), x)))]
            + OrderChoices(perms[1..], OrderNext(perms[0], ssa), starts, x)
  {
  }

  lemma EndAtSnoc(choices: seq<Choice>, c: Choice, all: seq<int>, i: nat, rest: seq<int>)
    requires c.values != [] && EndAt(choices, all, i, [GetEnd(c)] + rest)
    ensures EndAt(choices + [c], all, i + 1, rest)
  {
    assert all[i] == all[i..][0] && all[i + 1..] == all[i..][1..];
  }

  lemma EndsStep(perms: seq<seq<Flow>>, ssa: Counters, starts: Counters, x: string)
    requires perms != []
    ensures OrderEnds(perms, ssa, starts, x) ==
            [EndOf(RulesVers(OrderRules(perms[0], ssa, starts)), x)]
            + OrderEnds(perms[1..], OrderNext(perms[0], ssa), starts, x)
  {
  }

  predicate Filled(choices: seq<Choice>) {
    forall i :: 0 <= i < |choices| ==> choices[i].values != []
  }

  /** The ends of the choices, as `capParallel` collects them. */
  function ChoiceEndsOf(choices: seq<Choice>): seq<int>
    requires Filled(choices)
  {
    seq(|choices|, i requires 0 <= i < |choices| => GetEnd(choices[i]))
  }

  /** Every variable of the fork has a choice per order, with the end of that order. */
  ghost predicate Ready(fork: Fork, perms: seq<seq<Flow>>, ssa: Counters, starts: Counters) {
    forall x :: x in fork ==> Filled(fork[x]) && ChoiceEndsOf(fork[x]) == OrderEnds(perms, ssa, starts, x)
  }

  /** Every variable of the fork has a choice per order, with all its versions. */
  ghost predicate Chosen(fork: Fork, perms: seq<seq<Flow>>, ssa: Counters, starts: Counters) {
    forall x :: x in fork ==> fork[x] == OrderChoices(perms, ssa, starts, x)
  }

  lemma RecordedAll(fork: Fork, xs: set<string>, perms: seq<seq<Flow>>, ssa0: Counters, starts: Counters, ssa: Counters)
    requires Recorded(fork, xs, perms, ssa0, starts, |perms|, ssa) && perms != []
    ensures fork.Keys == xs && Ready(fork, perms, ssa0, starts) && Chosen(fork, perms, ssa0, starts)
  {
    assert perms[|perms|..] == [];
    forall x | x in fork
      ensures Filled(fork[x]) && ChoiceEndsOf(fork[x]) == OrderEnds(perms, ssa0, starts, x)
      ensures fork[x] == OrderChoices(perms, ssa0, starts, x)
    {
      assert EndAt(Choices(fork, x), OrderEnds(perms, ssa0, starts, x), |perms|, OrderEnds([], ssa, starts, x));
    }
  }

  lemma {:induction false} CapSnoc(caps: seq<Rule>, xs: set<string>, perms: seq<seq<Flow>>, ssa: Counters,
                                   starts: Counters, x: string)
    requires IsCap(caps, xs, perms, ssa, starts) && x !in xs
    ensures IsCap(caps + [Phi(Ver(x, Advanced(OrdersNext(perms, ssa), x)), OrderEnds(perms, ssa, starts, x))],
                  xs + {x}, perms, ssa, starts)
  {
    var cap := Phi(Ver(x, Advanced(OrdersNext(perms, ssa), x)), OrderEnds(perms, ssa, starts, x));
    hide OrdersNext, OrderEnds;
    if caps == [] {
      assert ([] + [cap])[1..] == [] && {x} - {x} == {} && {} + {x} == {x};
    } else {
      var y := caps[0].end.base;
      CapSnoc(caps[1..], xs - {y}, perms, ssa, starts, x);
      assert (caps + [cap])[1..] == caps[1..] + [cap];
      assert xs + {x} - {y} == xs - {y} + {x};
    }
  }

  // What the fork reads off the rules of a group.

  /** Every literal a flow adds is taken for a static value. */
  predicate FlowsStatic(fs: seq<Flow>, show: real -> string) {
    forall f :: f in fs ==> TermStatic(f.rest, show)
  }

  /** Of the callstacks only groups have forks. */
  predicate GroupsStatic(callstacks: seq<seq<Flow>>, show: real -> string) {
    forall i :: 0 <= i < |callstacks| && |callstacks[i]| > 1 ==> FlowsStatic(callstacks[i], show)
  }

  /** The fork of a group reads an order exactly when every literal the flows add is taken
      for a static value. */
  lemma {:induction false} OrderReads(order: seq<Flow>, ssa: Counters, starts: Counters, show: real -> string)
    ensures RulesStatic(OrderRules(order, ssa, starts), show) <==> FlowsStatic(order, show)
  {
    hide TermStatic, Convert;
    if order == [] {
    } else {
      var f, ru := order[0], OrderRules(order, ssa, starts);
      OrderReads(order[1..], Bump(ssa, f.x), starts[f.x := Advanced(ssa, f.x)], show);
      assert ru[1..] == OrderRules(order[1..], Bump(ssa, f.x), starts[f.x := Advanced(ssa, f.x)]);
      StaticStep(ru, show);
      FlowStatic(f, ssa, starts, show);
      assert forall g :: g in order <==> g == f || g in order[1..];
    }
  }

  lemma FlowStatic(f: Flow, ssa: Counters, starts: Counters, show: real -> string)
    ensures RuleStatic(FlowRule(f, ssa, starts), show) <==> TermStatic(f.rest, show)
  {
    ConvertStatic(ssa, starts, Body(f), true, show);
  }

  /** Every order has the same flows. */
  lemma OrdersStatic(fs: seq<Flow>, show: real -> string)
    ensures forall i :: 0 <= i < |Permuts(fs, 0)| ==> (FlowsStatic(Permuts(fs, 0)[i], show) <==> FlowsStatic(fs, show))
  {
    hide Permuts, TermStatic;
    ExactlyAllOrders(fs);
    forall i | 0 <= i < |Permuts(fs, 0)|
      ensures FlowsStatic(Permuts(fs, 0)[i], show) <==> FlowsStatic(fs, show)
    {
      var order := Permuts(fs, 0)[i];
      assert order in Permuts(fs, 0);
      assert multiset(order) == multiset(fs);
      assert forall f :: f in order <==> f in multiset(order);
      assert forall f :: f in fs <==> f in multiset(fs);
    }
  }
}
