/** Recovering phi versions from the recorded forks, for the display of results: the phi is
    guessed to follow the greatest end of the branches. */
module Meta {
  import opened Lang
  import opened Emission
  import opened Encoding
  import opened Exactness
  import opened Forks
  import opened Orders
  import opened Permutations
  import opened Parallel
  import opened ParallelForks
  import opened ParallelRuns
  import opened MisreadExample

  datatype Branch = Branch(trail: seq<int>, phi: int, base: string)

  type Tree = map<string, seq<Branch>>

  /** The greatest of the numbers, or zero. */
  function Greatest(nums: seq<int>): int {
    if nums == [] then 0
    else
      var g := Greatest(nums[..|nums| - 1]);
      if g < nums[|nums| - 1] then nums[|nums| - 1] else g
  }

  method MaxInt16(nums: seq<int>) returns (temp: int)
    ensures temp == Greatest(nums)
  {
    temp := 0;
    var i := 0;
    while i < |nums|
      invariant 0 <= i <= |nums| && temp == Greatest(nums[..i])
    {
      assert nums[..i + 1][..i] == nums[..i];
      if temp < nums[i] {
        temp := nums[i];
      }
      i := i + 1;
    }
    assert nums[..i] == nums;
  }

  lemma {:induction false} GreatestIs(nums: seq<int>)
    ensures forall n :: n in nums ==> n <= Greatest(nums)
    ensures Greatest(nums) == 0 || Greatest(nums) in nums
  {
    if nums != [] {
      GreatestIs(nums[..|nums| - 1]);
      assert nums == nums[..|nums| - 1] + [nums[|nums| - 1]];
    }
  }

  function BranchesOf(choices: seq<Choice>, base: string): seq<Branch>
    requires Filled(choices)
  {
    var phi := Greatest(ChoiceEndsOf(choices)) + 1;
    seq(|choices|, i requires 0 <= i < |choices| => Branch(choices[i].values, phi, base))
  }

  predicate AllFilled(fork: Fork) {
    forall k :: k in fork ==> Filled(fork[k])
  }

  function OfFork(fork: Fork, k: string): seq<Branch>
    requires AllFilled(fork)
  {
    if k in fork then BranchesOf(fork[k], k) else []
  }

  /** The branches of `k` in all forks. */
  function Branches(forks: seq<Fork>, k: string): seq<Branch>
    requires forall i :: 0 <= i < |forks| ==> AllFilled(forks[i])
  {
    if forks == [] then []
    else
      var fork := forks[|forks| - 1];
      assert AllFilled(fork);
      Branches(forks[..|forks| - 1], k) + OfFork(fork, k)
  }

  function At(tree: Tree, k: string): seq<Branch> {
    if k in tree then tree[k] else []
  }

  method LoadMeta(forks: seq<Fork>) returns (tree: Tree)
    requires forall i :: 0 <= i < |forks| ==> AllFilled(forks[i])
    ensures forall k :: At(tree, k) == Branches(forks, k)
  {
    tree := map[];
    var i := 0;
    while i < |forks|
      invariant 0 <= i <= |forks| && forall k :: At(tree, k) == Branches(forks[..i], k)
    {
      assert forks[..i + 1][..i] == forks[..i] && forks[..i + 1][i] == forks[i];
      tree := AddFork(tree, forks[i]);
      i := i + 1;
    }
    assert forks[..i] == forks;
  }

  method AddFork(tree0: Tree, fork: Fork) returns (tree: Tree)
    requires AllFilled(fork)
    ensures forall k :: At(tree, k) == At(tree0, k) + OfFork(fork, k)
  {
    hide BranchesOf, Filled;
    tree := tree0;
    var keys := fork.Keys;
    while keys != {}
      invariant keys <= fork.Keys
      invariant forall k :: At(tree, k) == At(tree0, k) + (if k in keys then [] else OfFork(fork, k))
    {
      var k :| k in keys;
      var branches := ForkBranches(fork[k], k);
      tree := tree[k := At(tree, k) + branches];
      keys := keys - {k};
    }
  }

  method ForkBranches(c: seq<Choice>, k: string) returns (branches: seq<Branch>)
    requires Filled(c)
    ensures branches == BranchesOf(c, k)
  {
    var ends := GetForkEndPoints(c);
    var phi := MaxInt16(ends);
    branches := [];
    var i := 0;
    while i < |c|
      invariant 0 <= i <= |c| && branches == BranchesOf(c, k)[..i]
    {
      branches := branches + [Branch(c[i].values, phi + 1, k)];
      i := i + 1;
    }
    assert branches == BranchesOf(c, k);
  }

  method GetForkEndPoints(c: seq<Choice>) returns (ends: seq<int>)
    requires Filled(c)
    ensures ends == ChoiceEndsOf(c)
  {
    ends := [];
    var i := 0;
    while i < |c|
      invariant 0 <= i <= |c| && ends == ChoiceEndsOf(c)[..i]
    {
      ends := ends + [GetEnd(c[i])];
      i := i + 1;
    }
    assert ends == ChoiceEndsOf(c);
  }

  // What the branches hold.

  /** A branch of `x` for an arm with the rules `ru`: its trail holds exactly the versions of
      `x` occurring there, sorted, and so ends at the greatest. */
  ghost predicate Follows(b: Branch, x: string, ru: seq<Rule>) {
    && b.base == x && b.trail != [] && Sorted(b.trail)
    && forall n :: n in b.trail <==> Occurs(Ver(x, n), ru)
  }

  function End(b: Branch): int
    requires b.trail != []
  {
    b.trail[|b.trail| - 1]
  }

  ghost predicate FollowsTo(b: Branch, x: string, ru: seq<Rule>, end: int) {
    Follows(b, x, ru) && End(b) == end
  }

  lemma ChoiceFollows(ru: seq<Rule>, x: string, b: string, phi: int)
    requires x in Bases(RulesVers(ru))
    ensures var c := Choice(x, b, Collected(Nums(RulesVers(ru), x)));
      c.values != [] && Follows(Branch(c.values, phi, x), x, ru)
  {
    hide Occurs, RulesVers, Nums, Collected;
    var nums := Nums(RulesVers(ru), x);
    RulesVersAre(ru);
    NumsAre(RulesVers(ru), x);
    CollectedSorted(nums);
    var v :| v in RulesVers(ru) && v.base == x;
    assert v.num in nums;
    var c := Collected(nums);
    assert forall n :: n in c <==> n in multiset(c);
    assert forall n :: n in nums <==> n in multiset(nums);
  }

  /** Each fork adds its branches after those of the forks before it. */
  lemma LastFork(before: seq<Fork>, fork: Fork, k: string)
    requires (forall i :: 0 <= i < |before| ==> AllFilled(before[i])) && AllFilled(fork)
    ensures forall i :: 0 <= i <= |before| ==> AllFilled((before + [fork])[i])
    ensures Branches(before + [fork], k) == Branches(before, k) + OfFork(fork, k)
  {
    hide AllFilled;
    assert (before + [fork])[..|before|] == before;
  }

  /** For the fork of a conditional the tree gains, in order, one branch for each arm that
      mentions the variable, with the versions of that arm, and ending where the arm does. */
  lemma ConditionalBranches(before: seq<Fork>, fork: Fork, p: Prog, q: Prog, ssa: Counters, codeT: Code, codeF: Code,
                            x: string)
    requires forall i :: 0 <= i < |before| ==> AllFilled(before[i])
    requires Encodes(p, ssa, codeT) && Encodes(q, Next(p, ssa), codeF)
    requires Encodable(p, ssa) && Encodable(q, Next(p, ssa))
    requires Armed(fork, Flatten(codeT), Flatten(codeF)) && x in fork
    ensures AllFilled(fork) && forall i :: 0 <= i <= |before| ==> AllFilled((before + [fork])[i])
    ensures Branches(before, x) <= Branches(before + [fork], x)
    ensures var bs := Branches(before + [fork], x)[|Branches(before, x)|..];
      && |bs| == (if x in Forked(p) then 1 else 0) + (if x in Forked(q) then 1 else 0)
      && (x in Forked(p) ==> FollowsTo(bs[0], x, Flatten(codeT), Count(Next(p, ssa), x)))
      && (x in Forked(q) ==> FollowsTo(bs[|bs| - 1], x, Flatten(codeF), Count(Next(q, Next(p, ssa)), x)))
  {
    hide Encodes, Encodable, Armed, Forked, Next, Flatten, FollowsTo, Branches, OfFork, AllFilled;
    ArmedFilled(fork, Flatten(codeT), Flatten(codeF));
    LastFork(before, fork, x);
    ArmBranches(fork, p, q, ssa, codeT, codeF, x);
    TailAt(Branches(before, x), OfFork(fork, x));
  }

  lemma TailAt<T>(a: seq<T>, b: seq<T>)
    ensures a <= a + b && (a + b)[|a|..] == b
  {
  }

  lemma ArmBranches(fork: Fork, p: Prog, q: Prog, ssa: Counters, codeT: Code, codeF: Code, x: string)
    requires Encodes(p, ssa, codeT) && Encodes(q, Next(p, ssa), codeF)
    requires Encodable(p, ssa) && Encodable(q, Next(p, ssa))
    requires Armed(fork, Flatten(codeT), Flatten(codeF)) && x in fork && AllFilled(fork)
    ensures var bs := OfFork(fork, x);
      && |bs| == (if x in Forked(p) then 1 else 0) + (if x in Forked(q) then 1 else 0)
      && (x in Forked(p) ==> FollowsTo(bs[0], x, Flatten(codeT), Count(Next(p, ssa), x)))
      && (x in Forked(q) ==> FollowsTo(bs[|bs| - 1], x, Flatten(codeF), Count(Next(q, Next(p, ssa)), x)))
  {
    hide Encodes, Encodable, Armed, Forked, Next, Flatten, Follows, UpTo, RulesVers, Bases, Nums, Collected, Greatest;
    var t, f := Flatten(codeT), Flatten(codeF);
    ArmedChoices(fork, t, f, x);
    MentionsUpTo(p, ssa, codeT);
    MentionsUpTo(q, Next(p, ssa), codeF);
    BasesAre(RulesVers(t), Forked(p), Next(p, ssa));
    BasesAre(RulesVers(f), Forked(q), Next(q, Next(p, ssa)));
    var phi := Greatest(ChoiceEndsOf(fork[x])) + 1;
    if x in Forked(p) {
      ChoiceFollows(t, x, "true", phi);
      ChoiceEnds(RulesVers(t), Forked(p), Next(p, ssa), x, "true");
    }
    if x in Forked(q) {
      ChoiceFollows(f, x, "false", phi);
      ChoiceEnds(RulesVers(f), Forked(q), Next(q, Next(p, ssa)), x, "false");
    }
  }

  lemma ArmedFilled(fork: Fork, t: seq<Rule>, f: seq<Rule>)
    requires Armed(fork, t, f)
    ensures AllFilled(fork)
  {
    hide Armed, Bases, RulesVers, Nums, Collected;
    forall k | k in fork ensures Filled(fork[k]) {
      ArmedChoices(fork, t, f, k);
      if k in Bases(RulesVers(t)) {
        ChoiceFollows(t, k, "true", 0);
      }
      if k in Bases(RulesVers(f)) {
        ChoiceFollows(f, k, "false", 0);
      }
    }
  }

  /** For the fork of a group it gains one branch for each order, likewise. */
  lemma GroupBranches(before: seq<Fork>, fork: Fork, perms: seq<seq<Flow>>, ssa: Counters, starts: Counters, x: string)
    requires forall i :: 0 <= i < |before| ==> AllFilled(before[i])
    requires Ready(fork, perms, ssa, starts) && Chosen(fork, perms, ssa, starts) && x in fork
    ensures AllFilled(fork) && forall i :: 0 <= i <= |before| ==> AllFilled((before + [fork])[i])
    ensures Branches(before, x) <= Branches(before + [fork], x)
    ensures var bs := Branches(before + [fork], x)[|Branches(before, x)|..];
      && |bs| == |perms| == |OrderEnds(perms, ssa, starts, x)|
      && forall i :: 0 <= i < |perms| ==>
           FollowsTo(bs[i], x, OptionRules(perms, i, ssa, starts), OrderEnds(perms, ssa, starts, x)[i])
  {
    hide FollowsTo, Branches, OrderEnds, OptionRules, OfFork, OrderChoices, AllFilled, Ready, Chosen;
    ReadyFilled(fork, perms, ssa, starts);
    LastFork(before, fork, x);
    OptionBranches(fork, perms, ssa, starts, x);
    TailAt(Branches(before, x), OfFork(fork, x));
  }

  lemma ReadyFilled(fork: Fork, perms: seq<seq<Flow>>, ssa: Counters, starts: Counters)
    requires Ready(fork, perms, ssa, starts)
    ensures AllFilled(fork)
  {
  }

  lemma OptionBranches(fork: Fork, perms: seq<seq<Flow>>, ssa: Counters, starts: Counters, x: string)
    requires Ready(fork, perms, ssa, starts) && Chosen(fork, perms, ssa, starts) && x in fork && AllFilled(fork)
    ensures var bs := OfFork(fork, x);
      && |bs| == |perms| == |OrderEnds(perms, ssa, starts, x)|
      && forall i :: 0 <= i < |perms| ==>
           FollowsTo(bs[i], x, OptionRules(perms, i, ssa, starts), OrderEnds(perms, ssa, starts, x)[i])
  {
    hide Follows, RulesVers, Bases, Nums, Collected, OrderChoices, OrderEnds, OptionRules, Greatest;
    var c := fork[x];
    var phi, ends := Greatest(ChoiceEndsOf(c)) + 1, OrderEnds(perms, ssa, starts, x);
    if perms != [] {
      OrderChoicesAt(perms, ssa, starts, x, 0);
    } else {
      NoChoices(ssa, starts, x);
    }
    forall i | 0 <= i < |perms|
      ensures c[i].values != [] && Follows(Branch(c[i].values, phi, x), x, OptionRules(perms, i, ssa, starts))
      ensures GetEnd(c[i]) == ends[i]
    {
      OrderChoicesAt(perms, ssa, starts, x, i);
      FilledMentions(RulesVers(OptionRules(perms, i, ssa, starts)), x);
      ChoiceFollows(OptionRules(perms, i, ssa, starts), x, "", phi);
      assert ChoiceEndsOf(c)[i] == GetEnd(c[i]);
    }
  }

  lemma NoChoices(ssa: Counters, starts: Counters, x: string)
    ensures OrderChoices([], ssa, starts, x) == []
  {
  }

  lemma FilledMentions(changes: seq<Ver>, x: string)
    requires Collected(Nums(changes, x)) != []
    ensures x in Bases(changes)
  {
    hide Bases;
    if x !in Bases(changes) {
      NoNums(changes, x);
    }
  }

  /** The guess is right for a conditional: its phi follows the greatest end of its arms. */
  lemma ConditionalGuess(fork: Fork, p: Prog, q: Prog, ssa: Counters, x: string, b: Branch)
    requires IsFork(fork, Forked(p), Forked(q), Next(p, ssa), Next(q, Next(p, ssa)))
    requires Encodable(p, ssa) && Encodable(q, Next(p, ssa)) && CanBump(Next(q, Next(p, ssa)), Forked(p) + Forked(q))
    requires x in fork && forall y :: y in ssa ==> 0 <= ssa[y]
    requires b in BranchesOf(fork[x], x)
    ensures b.phi == NextIf(p, q, ssa)[x]
  {
    hide Next, NextIf, Forked, Encodable, CanBump, Greatest, TwoWay;
    IfGrows(p, q, ssa);
    var ssaT, ssaF := Next(p, ssa), Next(q, Next(p, ssa));
    assert TwoWay(fork[x], x in Forked(p), x in Forked(q), Count(ssaT, x), Count(ssaF, x));
    TwoWayGreatest(fork[x], x in Forked(p), x in Forked(q), Count(ssaT, x), Count(ssaF, x));
  }

  lemma TwoWayGreatest(choices: seq<Choice>, inT: bool, inF: bool, endT: int, endF: int)
    requires TwoWay(choices, inT, inF, endT, endF) && (inT || inF) && 0 <= endT <= endF && (!inF ==> endT == endF)
    ensures Filled(choices) && Greatest(ChoiceEndsOf(choices)) == endF
  {
    hide Greatest;
    var ends := ChoiceEndsOf(choices);
    assert ends[|ends| - 1] == endF;
    assert forall i :: 0 <= i < |ends| ==> ends[i] == endT || ends[i] == endF;
    GreatestAt(ends, endF);
  }

  lemma GreatestAt(nums: seq<int>, n: int)
    requires n in nums && n >= 0 && forall m :: m in nums ==> m <= n
    ensures Greatest(nums) == n
  {
    GreatestIs(nums);
  }

  /** And for a parallel group the guess is its phi if and only if the group writes the
      variable, reads it at its newest version, or finds its frame fresh. */
  lemma ParallelGuess(fork: Fork, fs: seq<Flow>, enc: Enc, x: string, b: Branch)
    requires |fs| > 1 && StepFits(fs, enc) && Sound(enc) && Ready(fork, Permuts(fs, 0), enc.ssa, enc.starts)
    requires x in Mentioned(fs) && x in fork && 0 <= enc.starts[x]
    requires b in BranchesOf(fork[x], x)
    ensures b.phi == StepNext(fs, enc).ssa[x] <==>
            x in Written(fs) || ReadsNewest(fs, x) || enc.starts[x] == enc.ssa[x]
  {
    var perms := Permuts(fs, 0);
    hide Permuts, AllFit, OrdersNext, OrderEnds, Mentioned, Written, Greatest, Runnable, ReadsNewest;
    PermsOf(fs, enc);
    OrdersGrow(perms, Mentioned(fs), Written(fs), enc.ssa, enc.starts);
    ExactlyAllOrders(fs);
    assert fs in perms;
    var ends := OrderEnds(perms, enc.ssa, enc.starts, x);
    if x in Written(fs) {
      LastEnds(perms, Mentioned(fs), Written(fs), enc.ssa, enc.starts, x);
      GreatestAt(ends, OrdersNext(perms, enc.ssa)[x]);
    } else {
      ReadsEndAt(perms, fs, Mentioned(fs), Written(fs), enc.ssa, enc.starts, x);
      EndsAre(perms, enc.ssa, enc.starts, x);
      assert ends[0] in ends;
      GreatestAt(ends, ReadAt(fs, enc.ssa, enc.starts, x));
    }
  }

  lemma {:induction false} LastEnds(perms: seq<seq<Flow>>, xs: set<string>, w: set<string>, ssa: Counters,
                                    starts: Counters, x: string)
    requires perms != [] && Runnable(perms, xs, w, ssa, starts) && x in w && 0 <= starts[x]
    ensures x in OrdersNext(perms, ssa) && 0 <= OrdersNext(perms, ssa)[x]
    ensures OrdersNext(perms, ssa)[x] in OrderEnds(perms, ssa, starts, x)
    ensures forall n :: n in OrderEnds(perms, ssa, starts, x) ==> n <= OrdersNext(perms, ssa)[x]
    decreases |perms|
  {
    hide Mentioned, Written, OrderNext, OrderRules, EndOf, RulesVers, AllFit;
    var ssa' := OrderNext(perms[0], ssa);
    FirstRuns(perms, xs, w, ssa, starts);
    OrderEnd(perms[0], ssa, starts, x);
    OrdersGrow(perms[1..], xs, w, ssa', starts);
    if |perms| > 1 {
      LastEnds(perms[1..], xs, w, ssa', starts, x);
    }
  }

  /** A stale frame of `a` before `c := c + (a + b)` twice: the guess for `a` is wrong. */
  lemma StaleGuess(fork: Fork, enc: Enc, b: Branch)
    requires var fs := [Sum(), Sum()];
      && StepFits(fs, enc) && Sound(enc) && Ready(fork, Permuts(fs, 0), enc.ssa, enc.starts)
      && "a" in Mentioned(fs) && "a" in fork && 0 <= enc.starts["a"] < enc.ssa["a"]
      && b in BranchesOf(fork["a"], "a")
    ensures b.phi != StepNext([Sum(), Sum()], enc).ssa["a"]
  {
    hide StepFits, Sound, Ready, Permuts, Mentioned, BranchesOf, StepNext;
    var fs := [Sum(), Sum()];
    ParallelGuess(fork, fs, enc, "a", b);
    assert forall f :: f in fs ==> f == Sum();
    SumReads();
  }

  lemma SumReads()
    ensures "a" !in NewestRefs(Body(Sum()), true)
  {
    var x, y, c: Expr<string> := Ref("a"), Ref("b"), Ref("c");
    var sum := Bin(Plus, x, y);
    assert FlagAfter(x, true) == FlagAfter(sum, true) == false by { assert "a" in Refs(x) && "a" in Refs(sum); }
    assert NewestRefs(sum, true) == NewestRefs(x, true) + NewestRefs(y, false);
    assert NewestRefs(c, false) == {"c"};
  }
}
