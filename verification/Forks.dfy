/** Per-branch bookkeeping of a fork: which versions of each variable each branch
    mentions, kept sorted so that a branch ends at its last value. */
module Forks {
  import opened Lang
  import opened Encoding
  import opened Exactness

  /** Nesting depth of conditionals and parallel groups. */
  class PhiState {
    var levels: nat

    constructor ()
      ensures levels == 0
    {
      levels := 0;
    }

    predicate Check()
      reads this
    {
      levels > 0
    }

    method In()
      modifies this
      ensures levels == old(levels) + 1
    {
      levels := levels + 1;
    }

    method Out()
      modifies this
      ensures levels == if old(levels) > 0 then old(levels) - 1 else 0
    {
      if levels != 0 {
        levels := levels - 1;
      }
    }
  }

  datatype Choice = Choice(base: string, branch: string, values: seq<int>)

  type Fork = map<string, seq<Choice>>

  predicate Sorted(s: seq<int>) {
    |s| < 2 || (s[0] <= s[1] && Sorted(s[1..]))
  }

  /** Appending `n` to a sorted list and sorting again. */
  function Insert(s: seq<int>, n: int): seq<int> {
    if s == [] || n <= s[0] then [n] + s else [s[0]] + Insert(s[1..], n)
  }

  function AddChoiceValue(c: Choice, n: int): Choice {
    c.(values := Insert(c.values, n))
  }

  function GetEnd(c: Choice): int
    requires c.values != []
  {
    c.values[|c.values| - 1]
  }

  lemma {:induction false} InsertKeepsSorted(s: seq<int>, n: int)
    requires Sorted(s)
    ensures Sorted(Insert(s, n)) && multiset(Insert(s, n)) == multiset(s) + multiset{n}
    ensures Insert(s, n)[0] == if s == [] || n <= s[0] then n else s[0]
  {
    if s == [] || n <= s[0] {
      assert ([n] + s)[1..] == s;
    } else {
      InsertKeepsSorted(s[1..], n);
      assert s == [s[0]] + s[1..];
      assert Insert(s, n)[1..] == Insert(s[1..], n);
    }
  }

  lemma {:induction false} SortedEnd(s: seq<int>)
    requires Sorted(s) && s != []
    ensures forall n :: n in s ==> n <= s[|s| - 1]
  {
    if |s| > 1 {
      SortedEnd(s[1..]);
      assert s[1] in s[1..];
      assert s == [s[0]] + s[1..];
    }
  }

  /** The values a choice holds after receiving `nums` one by one. */
  function Collected(nums: seq<int>): seq<int> {
    if nums == [] then [] else Insert(Collected(nums[..|nums| - 1]), nums[|nums| - 1])
  }

  lemma {:induction false} CollectedIs(nums: seq<int>)
    ensures Sorted(Collected(nums)) && multiset(Collected(nums)) == multiset(nums)
  {
    if nums != [] {
      var init, last := nums[..|nums| - 1], nums[|nums| - 1];
      hide Insert, Sorted;
      assert nums == init + [last];
      assert multiset(nums) == multiset(init) + multiset{last};
      CollectedIs(init);
      InsertKeepsSorted(Collected(init), last);
    }
  }

  /** A choice's values are what it was given, sorted, so its end is their maximum. */
  lemma CollectedSorted(nums: seq<int>)
    ensures Sorted(Collected(nums)) && multiset(Collected(nums)) == multiset(nums)
    ensures nums != [] ==>
              && Collected(nums) != []
              && GetEnd(Choice("", "", Collected(nums))) in nums
              && forall n :: n in nums ==> n <= GetEnd(Choice("", "", Collected(nums)))
  {
    CollectedIs(nums);
    var c := Collected(nums);
    assert |c| == |multiset(c)| == |multiset(nums)| == |nums|;
    assert forall n :: n in nums <==> n in multiset(nums);
    assert forall n :: n in c <==> n in multiset(c);
    if nums != [] {
      SortedEnd(c);
      assert c[|c| - 1] in c;
    }
  }

  /** The versions of `x` among `changes`, in order. */
  function Nums(changes: seq<Ver>, x: string): seq<int> {
    if changes == [] then []
    else
      var v := changes[|changes| - 1];
      var nums := Nums(changes[..|changes| - 1], x);
      if x in {v.base} then nums + [v.num] else nums
  }

  function Bases(changes: seq<Ver>): set<string> {
    set v | v in changes :: v.base
  }

  function Choices(fork: Fork, x: string): seq<Choice> {
    if x in fork then fork[x] else []
  }

  /** The fork once a branch named `b` with the versions `changes` is added: every
      variable mentioned gets one more choice, holding all its versions. */
  ghost predicate IsBranched(fork: Fork, fork0: Fork, changes: seq<Ver>, b: string) {
    && fork.Keys == fork0.Keys + Bases(changes)
    && forall x :: x in fork ==> fork[x] == BranchChoices(fork0, changes, b, x)
  }

  function BranchChoices(fork: Fork, changes: seq<Ver>, b: string, x: string): seq<Choice> {
    Choices(fork, x) + (if x in Bases(changes) then [Choice(x, b, Collected(Nums(changes, x)))] else [])
  }

  /** One more change adds a version to the choice of its variable, or opens that choice. */
  lemma OneMore(fork: Fork, changes: seq<Ver>, i: nat, b: string)
    requires i < |changes|
    ensures var v := changes[i];
            && Bases(changes[..i + 1]) == Bases(changes[..i]) + {v.base}
            && (forall x: string :: x !in {v.base} ==>
                  BranchChoices(fork, changes[..i + 1], b, x) == BranchChoices(fork, changes[..i], b, x))
            && var done := BranchChoices(fork, changes[..i], b, v.base);
               var seen := v.base in Bases(changes[..i]);
               && (seen ==> done != [])
               && BranchChoices(fork, changes[..i + 1], b, v.base) == NextChoices(done, seen, v, b)
  {
    hide Nums, Collected, Bases, Insert, BranchChoices, Choices, NextChoices;
    NumsStep(changes, i);
    OneMoreHere(fork, changes, i, b);
    forall x: string | x !in {changes[i].base}
      ensures BranchChoices(fork, changes[..i + 1], b, x) == BranchChoices(fork, changes[..i], b, x)
    {
      OneMoreElsewhere(fork, changes, i, b, x);
    }
  }

  lemma OneMoreElsewhere(fork: Fork, changes: seq<Ver>, i: nat, b: string, x: string)
    requires i < |changes| && x !in {changes[i].base}
    ensures BranchChoices(fork, changes[..i + 1], b, x) == BranchChoices(fork, changes[..i], b, x)
  {
    hide Nums, Collected, Bases, Insert, Choices;
    NumsStep(changes, i);
  }

  lemma OneMoreHere(fork: Fork, changes: seq<Ver>, i: nat, b: string)
    requires i < |changes|
    ensures var v := changes[i];
            var done := BranchChoices(fork, changes[..i], b, v.base);
            var seen := v.base in Bases(changes[..i]);
            && (seen ==> done != [])
            && BranchChoices(fork, changes[..i + 1], b, v.base) == NextChoices(done, seen, v, b)
  {
    hide Nums, Collected, Bases, Insert, Choices;
    var c, v := changes[..i], changes[i];
    NumsStep(changes, i);
    CollectedSnoc(Nums(c, v.base), v.num);
    if v.base in Bases(c) {
      var done := BranchChoices(fork, c, b, v.base);
      assert done[..|done| - 1] == Choices(fork, v.base);
    } else {
      NoNums(c, v.base);
      CollectedOne(v.num);
    }
  }

  lemma CollectedSnoc(nums: seq<int>, n: int)
    ensures Collected(nums + [n]) == Insert(Collected(nums), n)
  {
    assert (nums + [n])[..|nums|] == nums;
  }

  lemma CollectedOne(n: int)
    ensures Collected([] + [n]) == [n]
  {
    assert ([] + [n])[..0] == [];
  }

  lemma BranchNothing(fork: Fork, b: string)
    ensures IsBranched(fork, fork, [], b) && Bases([]) == {}
  {
  }

  /** A variable seen in this branch has this branch's choice last. */
  lemma SeenIsLast(fork: Fork, fork0: Fork, changes: seq<Ver>, b: string)
    requires IsBranched(fork, fork0, changes, b)
    ensures forall x :: x in Bases(changes) ==> x in fork && fork[x] != [] && fork[x][|fork[x]| - 1].branch == b
  {
  }

  /** The choices of a variable once a branch mentions one more version of it. */
  function NextChoices(done: seq<Choice>, seen: bool, v: Ver, b: string): seq<Choice>
    requires seen ==> done != []
  {
    if seen then done[..|done| - 1] + [AddChoiceValue(done[|done| - 1], v.num)]
    else done + [Choice(v.base, b, [v.num])]
  }

  lemma BranchStep(fork: Fork, fork0: Fork, changes: seq<Ver>, i: nat, b: string)
    requires i < |changes| && IsBranched(fork, fork0, changes[..i], b)
    requires changes[i].base in Bases(changes[..i]) ==> Choices(fork, changes[i].base) != []
    ensures Bases(changes[..i + 1]) == Bases(changes[..i]) + {changes[i].base}
    ensures IsBranched(fork[changes[i].base := NextChoices(Choices(fork, changes[i].base),
                              changes[i].base in Bases(changes[..i]), changes[i], b)],
                       fork0, changes[..i + 1], b)
  {
    OneMore(fork0, changes, i, b);
    assert BranchChoices(fork0, changes[..i], b, changes[i].base) == Choices(fork, changes[i].base);
    BranchUpdate(fork, fork0, changes, i, b);
  }

  lemma BranchUpdate(fork: Fork, fork0: Fork, changes: seq<Ver>, i: nat, b: string)
    requires i < |changes| && IsBranched(fork, fork0, changes[..i], b)
    requires Bases(changes[..i + 1]) == Bases(changes[..i]) + {changes[i].base}
    requires forall x: string :: x !in {changes[i].base} ==>
               BranchChoices(fork0, changes[..i + 1], b, x) == BranchChoices(fork0, changes[..i], b, x)
    ensures IsBranched(fork[changes[i].base := BranchChoices(fork0, changes[..i + 1], b, changes[i].base)],
                       fork0, changes[..i + 1], b)
  {
    hide BranchChoices, Bases;
  }

  lemma NumsStep(changes: seq<Ver>, i: nat)
    requires i < |changes|
    ensures Bases(changes[..i + 1]) == Bases(changes[..i]) + {changes[i].base}
    ensures forall x: string :: Nums(changes[..i + 1], x) ==
              if x in {changes[i].base} then Nums(changes[..i], x) + [changes[i].num] else Nums(changes[..i], x)
  {
    var c, c', v := changes[..i], changes[..i + 1], changes[i];
    assert c'[..|c'| - 1] == c && c'[|c'| - 1] == v && c' == c + [v];
    assert forall w :: w in c' <==> w in c || w == v;
  }

  lemma NoNums(changes: seq<Ver>, x: string)
    requires x !in Bases(changes)
    ensures Nums(changes, x) == []
  {
    NumsAre(changes, x);
    var nums := Nums(changes, x);
    assert forall n :: Ver(x, n) in changes ==> x in Bases(changes);
    assert |nums| > 0 ==> nums[0] in nums;
  }

  lemma {:induction false} NumsAre(changes: seq<Ver>, x: string)
    ensures forall n :: n in Nums(changes, x) <==> Ver(x, n) in changes
  {
    if changes != [] {
      NumsAre(changes[..|changes| - 1], x);
      assert changes == changes[..|changes| - 1] + [changes[|changes| - 1]];
    }
  }

  // Which versions the rules of a program mention (allStateChangesInRule).

  function ExprVers(e: Expr<Ver>): seq<Ver> {
    match e
    case Lit(_) => []
    case Ref(v) => [v]
    case Bin(_, l, r) => ExprVers(l) + ExprVers(r)
  }

  function EqnVers(eqs: seq<Eqn>): seq<Ver> {
    if eqs == [] then [] else [eqs[0].phi, eqs[0].val] + EqnVers(eqs[1..])
  }

  /** The guard of an `Ite` and `Phi` rules do not contribute. */
  function RuleVers(r: Rule): seq<Ver> {
    match r
    case Define(v, e) => [v] + ExprVers(e)
    case Ite(_, t, f) => EqnVers(t) + EqnVers(f)
    case Phi(_, _) => []
  }

  function RulesVers(ru: seq<Rule>): seq<Ver> {
    if ru == [] then [] else RuleVers(ru[0]) + RulesVers(ru[1..])
  }

  lemma {:induction false} RulesVersConcat(a: seq<Rule>, b: seq<Rule>)
    ensures RulesVers(a + b) == RulesVers(a) + RulesVers(b)
  {
    if a == [] {
      assert a + b == b;
    } else {
      assert (a + b)[0] == a[0] && (a + b)[1..] == a[1..] + b;
      RulesVersConcat(a[1..], b);
    }
  }

  /** The version stands somewhere in the rules, the guards of `Ite` and `Phi` rules aside. */
  ghost predicate Occurs(v: Ver, ru: seq<Rule>) {
    exists i :: 0 <= i < |ru| && OccursIn(v, ru[i])
  }

  ghost predicate OccursIn(v: Ver, r: Rule) {
    match r
    case Define(w, e) => v == w || v in Refs(e)
    case Ite(_, t, f) => OccursAmong(v, t) || OccursAmong(v, f)
    case Phi(_, _) => false
  }

  ghost predicate OccursAmong(v: Ver, eqs: seq<Eqn>) {
    exists i :: 0 <= i < |eqs| && (v == eqs[i].phi || v == eqs[i].val)
  }

  /** What a fork is built from are exactly the versions occurring in the rules. */
  lemma {:induction false} RulesVersAre(ru: seq<Rule>)
    ensures forall v :: v in RulesVers(ru) <==> Occurs(v, ru)
  {
    hide OccursIn, RuleVers;
    if ru != [] {
      RulesVersAre(ru[1..]);
      RuleVersAre(ru[0]);
      forall v ensures Occurs(v, ru) <==> OccursIn(v, ru[0]) || Occurs(v, ru[1..]) {
        OccursStep(v, ru);
      }
    }
  }

  lemma OccursStep(v: Ver, ru: seq<Rule>)
    requires ru != []
    ensures Occurs(v, ru) <==> OccursIn(v, ru[0]) || Occurs(v, ru[1..])
  {
    hide OccursIn;
    if i :| 0 <= i < |ru[1..]| && OccursIn(v, ru[1..][i]) {
      assert ru[i + 1] == ru[1..][i];
    }
    if i :| 0 < i < |ru| && OccursIn(v, ru[i]) {
      assert ru[i] == ru[1..][i - 1];
    }
  }

  lemma RuleVersAre(r: Rule)
    ensures forall v :: v in RuleVers(r) <==> OccursIn(v, r)
  {
    match r
    case Define(_, e) => ExprVersAre(e);
    case Ite(_, t, f) => EqnVersAre(t); EqnVersAre(f);
    case Phi(_, _) =>
  }

  lemma {:induction false} ExprVersAre(e: Expr<Ver>)
    ensures forall v :: v in ExprVers(e) <==> v in Refs(e)
  {
    match e
    case Lit(_) =>
    case Ref(_) =>
    case Bin(_, l, r) => ExprVersAre(l); ExprVersAre(r);
  }

  lemma {:induction false} EqnVersAre(eqs: seq<Eqn>)
    ensures forall v :: v in EqnVers(eqs) <==> OccursAmong(v, eqs)
  {
    if eqs != [] {
      EqnVersAre(eqs[1..]);
      assert forall i :: 0 < i < |eqs| ==> eqs[i] == eqs[1..][i - 1];
      forall v ensures v in EqnVers(eqs) <==> OccursAmong(v, eqs) {
        assert v in EqnVers(eqs) <==> v == eqs[0].phi || v == eqs[0].val || v in EqnVers(eqs[1..]);
        if i :| 0 <= i < |eqs[1..]| && (v == eqs[1..][i].phi || v == eqs[1..][i].val) {
          assert eqs[i + 1] == eqs[1..][i];
        }
      }
    }
  }

  /** `changes` mentions exactly the variables of `xs`, each up to its counter in `ssa`. */
  ghost predicate UpTo(changes: seq<Ver>, xs: set<string>, ssa: Counters) {
    && (forall v :: v in changes ==> v.base in xs && v.num <= Count(ssa, v.base))
    && (forall x :: x in xs ==> Ver(x, Count(ssa, x)) in changes)
  }

  lemma {:induction false} ExprUpTo(ssa: Counters, e: Expr<string>)
    requires Refs(e) <= ssa.Keys
    ensures UpTo(ExprVers(At(ssa, e)), Refs(e), ssa)
  {
    match e
    case Lit(_) =>
    case Ref(_) =>
    case Bin(_, l, r) => ExprUpTo(ssa, l); ExprUpTo(ssa, r);
  }

  lemma {:induction false} ArmUpTo(eqs: seq<Eqn>, fork: set<string>, phi: Counters, end: Counters)
    requires IsArm(eqs, fork, phi, end)
    requires forall x :: x in fork ==> Count(end, x) <= Count(phi, x)
    ensures UpTo(EqnVers(eqs), fork, phi)
  {
    if eqs != [] {
      ArmUpTo(eqs[1..], fork - {eqs[0].phi.base}, phi, end);
    }
  }

  lemma UpToConcat(a: seq<Ver>, b: seq<Ver>, xs: set<string>, ys: set<string>, ssa: Counters, ssa': Counters)
    requires UpTo(a, xs, ssa) && UpTo(b, ys, ssa') && Grown(ssa, ssa', ys) && xs <= ssa.Keys
    ensures UpTo(a + b, xs + ys, ssa')
  {
    forall x | x in xs + ys ensures Ver(x, Count(ssa', x)) in a + b {
      if x in ys { assert Ver(x, Count(ssa', x)) in b; } else { assert Ver(x, Count(ssa, x)) in a; }
    }
  }

  /** The rules of a program mention exactly its forked variables, and each of them last
      at its newest version. */
  lemma {:induction false} MentionsUpTo(p: Prog, ssa: Counters, code: Code)
    requires Encodes(p, ssa, code) && Encodable(p, ssa)
    ensures UpTo(RulesVers(Flatten(code)), Forked(p), Next(p, ssa))
  {
    hide IsIte, CanBump, BumpAll, Rhs, UpTo, RuleVers, RuleHolds;
    match p
    case Done => EmptyUpTo(ssa);
    case Assign(x, e, next) =>
      MentionsUpTo(next, Bump(ssa, x), code.next);
      NextGrows(next, Bump(ssa, x));
      StoreUpTo(x, e, ssa);
      UpToConcat(RuleVers(code.rule), RulesVers(Flatten(code.next)), {x} + Refs(e), Forked(next),
                 Bump(ssa, x), Next(p, ssa));
      assert Flatten(code)[1..] == Flatten(code.next);
    case If(c, t, _, f, next) =>
      MentionsUpTo(t, ssa, code.t);
      MentionsUpTo(f, Next(t, ssa), code.f);
      MentionsUpTo(next, NextIf(t, f, ssa), code.next);
      NextGrows(next, NextIf(t, f, ssa));
      assert Forked(p) == Forked(t) + Forked(f) + Forked(next) && Next(p, ssa) == Next(next, NextIf(t, f, ssa));
      BranchUpTo(c, t, f, ssa, code);
      IfGrows(t, f, ssa);
      assert Forked(t) + Forked(f) <= NextIf(t, f, ssa).Keys;
      var j := if code.join.Some? then [code.join.value] else [];
      hide Encodes, Encodable, Forked, Next, NextIf, Silent;
      RulesVersConcat(Flatten(code.t), Flatten(code.f));
      RulesVersConcat(Flatten(code.t) + Flatten(code.f), j);
      RulesVersConcat(Flatten(code.t) + Flatten(code.f) + j, Flatten(code.next));
      UpToConcat(RulesVers(Flatten(code.t)) + RulesVers(Flatten(code.f)) + RulesVers(j), RulesVers(Flatten(code.next)),
                 Forked(t) + Forked(f), Forked(next), NextIf(t, f, ssa), Next(p, ssa));
  }

  lemma EmptyUpTo(ssa: Counters)
    ensures UpTo([], {}, ssa)
  {
  }

  lemma StoreUpTo(x: string, e: Expr<string>, ssa: Counters)
    requires {x} + Refs(e) <= ssa.Keys && CanBump(ssa, {x}) && (e.Ref? ==> Count(ssa, e.v) == Count(ssa, x))
    ensures UpTo(RuleVers(Define(Ver(x, Advanced(ssa, x)), Rhs(ssa, x, e))), {x} + Refs(e), Bump(ssa, x))
  {
    ExprUpTo(ssa, e);
    var changes := ExprVers(Rhs(ssa, x, e));
    assert changes == ExprVers(At(ssa, e));
    forall y | y in {x} + Refs(e) ensures Ver(y, Count(Bump(ssa, x), y)) in [Ver(x, Advanced(ssa, x))] + changes {
      if y != x { assert Ver(y, Count(ssa, y)) in changes; }
    }
  }

  lemma BranchUpTo(c: Cond<string>, t: Prog, f: Prog, ssa: Counters, code: Code)
    requires code.Branched?
    requires Encodable(t, ssa) && Encodable(f, Next(t, ssa))
    requires CanBump(Next(f, Next(t, ssa)), Forked(t) + Forked(f))
    requires UpTo(RulesVers(Flatten(code.t)), Forked(t), Next(t, ssa))
    requires UpTo(RulesVers(Flatten(code.f)), Forked(f), Next(f, Next(t, ssa)))
    requires if Silent(t) && Silent(f) then code.join.None? else code.join.Some? && IsIte(code.join.value, c, t, f, ssa)
    ensures var j := if code.join.Some? then [code.join.value] else [];
            UpTo(RulesVers(Flatten(code.t)) + RulesVers(Flatten(code.f)) + RulesVers(j),
                 Forked(t) + Forked(f), NextIf(t, f, ssa))
  {
    hide Next, NextIf, Forked, Encodable, Silent, IsIte, CanBump, Flatten, UpTo, BumpAll, RuleVers;
    var a, b := RulesVers(Flatten(code.t)), RulesVers(Flatten(code.f));
    var ssaF, phi, fork := Next(f, Next(t, ssa)), NextIf(t, f, ssa), Forked(t) + Forked(f);
    IfGrows(t, f, ssa);
    if code.join.Some? {
      var r := code.join.value;
      JoinUpTo(r, c, t, f, ssa);
      CapGrows(ssaF, fork);
      assert RulesVers([r]) == RuleVers(r) by { assert [r][1..] == []; }
    } else {
      ClosedBranch(t, f, ssa);
      EmptyUpTo(phi);
    }
    UpToConcat(a, b, Forked(t), Forked(f), Next(t, ssa), ssaF);
    UpToConcat(a + b, RulesVers(if code.join.Some? then [code.join.value] else []), fork, fork, ssaF, phi);
    assert fork + fork == fork;
  }

  lemma ClosedBranch(t: Prog, f: Prog, ssa: Counters)
    requires Silent(t) && Silent(f)
    ensures Forked(t) == {} && Forked(f) == {}
    ensures NextIf(t, f, ssa) == Next(f, Next(t, ssa))
  {
    WritesAreForked(t);
    WritesAreForked(f);
    var ssaF := Next(f, Next(t, ssa));
    assert BumpAll(ssaF, {}) == ssaF;
  }

  lemma JoinUpTo(r: Rule, c: Cond<string>, t: Prog, f: Prog, ssa: Counters)
    requires Encodable(t, ssa) && Encodable(f, Next(t, ssa))
    requires CanBump(Next(f, Next(t, ssa)), Forked(t) + Forked(f))
    requires IsIte(r, c, t, f, ssa)
    ensures UpTo(RuleVers(r), Forked(t) + Forked(f), NextIf(t, f, ssa))
  {
    var fork, ssaF, phi := Forked(t) + Forked(f), Next(f, Next(t, ssa)), NextIf(t, f, ssa);
    var endT, endF := Ends(fork, Forked(t), Next(t, ssa), ssa), Ends(fork, Forked(f), ssaF, ssa);
    forall x | x in fork
      ensures Count(endT, x) <= Count(phi, x) && Count(endF, x) <= Count(phi, x)
    {
      EndsExist(t, f, ssa, x);
      IfGrows(t, f, ssa);
    }
    ArmUpTo(r.t, fork, phi, endT);
    ArmUpTo(r.f, fork, phi, endF);
  }

  /** Where the branch a choice records belongs to an arm of the program, the choice ends
      at the variable's newest version in that arm. */
  lemma ChoiceEnds(changes: seq<Ver>, xs: set<string>, ssa: Counters, x: string, b: string)
    requires UpTo(changes, xs, ssa) && x in xs
    ensures Bases(changes) == xs
    ensures var nums := Nums(changes, x);
            Collected(nums) != [] && GetEnd(Choice(x, b, Collected(nums))) == Count(ssa, x)
  {
    var nums := Nums(changes, x);
    NumsAre(changes, x);
    CollectedSorted(nums);
    assert Count(ssa, x) in nums;
    var end := GetEnd(Choice(x, b, Collected(nums)));
    assert Ver(x, end) in changes;
    forall y | y in xs ensures y in Bases(changes) { assert Ver(y, Count(ssa, y)) in changes; }
  }

  // A two-way fork.

  /** The choices of a variable that the true branch mentions (if `inT`) up to `endT` and
      the false branch (if `inF`) up to `endF`. */
  predicate TwoWay(choices: seq<Choice>, inT: bool, inF: bool, endT: int, endF: int) {
    && |choices| == (if inT then 1 else 0) + (if inF then 1 else 0)
    && (forall i :: 0 <= i < |choices| ==> choices[i].values != [])
    && (inT ==> choices[0].branch == "true" && GetEnd(choices[0]) == endT)
    && (inF ==> choices[|choices| - 1].branch == "false" && GetEnd(choices[|choices| - 1]) == endF)
  }

  /** `fork` records a true branch mentioning `xs` and a false branch mentioning `ys`. */
  ghost predicate IsFork(fork: Fork, xs: set<string>, ys: set<string>, endT: Counters, endF: Counters) {
    && fork.Keys == xs + ys
    && forall x :: x in fork ==> TwoWay(fork[x], x in xs, x in ys, Count(endT, x), Count(endF, x))
  }

  /** Building the true and then the false branch on an empty fork records the fork. */
  lemma BuildsFork(fork1: Fork, fork2: Fork, t: seq<Ver>, f: seq<Ver>, xs: set<string>, ys: set<string>,
                   endT: Counters, endF: Counters)
    requires IsBranched(fork1, map[], t, "true") && IsBranched(fork2, fork1, f, "false")
    requires UpTo(t, xs, endT) && UpTo(f, ys, endF)
    ensures IsFork(fork2, xs, ys, endT, endF)
  {
    BasesAre(t, xs, endT);
    BasesAre(f, ys, endF);
    forall x | x in fork2
      ensures TwoWay(fork2[x], x in xs, x in ys, Count(endT, x), Count(endF, x))
    {
      BuildsChoices(fork1, fork2, t, f, xs, ys, endT, endF, x);
    }
  }

  /** `fork` was built from the rules of a true and then of a false branch. */
  ghost predicate Armed(fork: Fork, t: seq<Rule>, f: seq<Rule>) {
    exists fork1 :: IsBranched(fork1, map[], RulesVers(t), "true") && IsBranched(fork, fork1, RulesVers(f), "false")
  }

  /** Then the choices of a variable are those of the two branches, where they mention it. */
  lemma ArmedChoices(fork: Fork, t: seq<Rule>, f: seq<Rule>, x: string)
    requires Armed(fork, t, f)
    ensures x in fork <==> x in Bases(RulesVers(t)) || x in Bases(RulesVers(f))
    ensures Choices(fork, x) ==
      (if x in Bases(RulesVers(t)) then [Choice(x, "true", Collected(Nums(RulesVers(t), x)))] else [])
      + (if x in Bases(RulesVers(f)) then [Choice(x, "false", Collected(Nums(RulesVers(f), x)))] else [])
  {
    hide Bases, Collected, Nums, RulesVers;
    var fork1 :| IsBranched(fork1, map[], RulesVers(t), "true") && IsBranched(fork, fork1, RulesVers(f), "false");
    assert Choices(map[], x) == [];
  }

  lemma BuildsChoices(fork1: Fork, fork2: Fork, t: seq<Ver>, f: seq<Ver>, xs: set<string>, ys: set<string>,
                      endT: Counters, endF: Counters, x: string)
    requires IsBranched(fork1, map[], t, "true") && IsBranched(fork2, fork1, f, "false")
    requires UpTo(t, xs, endT) && UpTo(f, ys, endF) && Bases(t) == xs && Bases(f) == ys
    requires x in fork2
    ensures TwoWay(fork2[x], x in xs, x in ys, Count(endT, x), Count(endF, x))
  {
    if x in xs { ChoiceEnds(t, xs, endT, x, "true"); }
    if x in ys { ChoiceEnds(f, ys, endF, x, "false"); }
    hide UpTo, Bases, Nums, Collected;
    var cT, cF := Choice(x, "true", Collected(Nums(t, x))), Choice(x, "false", Collected(Nums(f, x)));
    assert Choices(fork1, x) == (if x in xs then [cT] else []) by {
      assert Choices(map[], x) == [];
      assert x in fork1 <==> x in xs;
    }
    assert fork2[x] == Choices(fork1, x) + (if x in ys then [cF] else []);
    hide IsBranched, BranchChoices, Choices;
    MakesTwoWay(cT, cF, x in xs, x in ys, Count(endT, x), Count(endF, x));
  }

  lemma MakesTwoWay(cT: Choice, cF: Choice, inT: bool, inF: bool, endT: int, endF: int)
    requires inT ==> cT.branch == "true" && cT.values != [] && GetEnd(cT) == endT
    requires inF ==> cF.branch == "false" && cF.values != [] && GetEnd(cF) == endF
    ensures TwoWay((if inT then [cT] else []) + (if inF then [cF] else []), inT, inF, endT, endF)
  {
  }

  lemma BasesAre(changes: seq<Ver>, xs: set<string>, ssa: Counters)
    requires UpTo(changes, xs, ssa)
    ensures Bases(changes) == xs
  {
    forall x | x in xs ensures x in Bases(changes) { assert Ver(x, Count(ssa, x)) in changes; }
  }

  /** The equations `capCond` emits for one variable and branch. */
  function BranchEqns(choices: seq<Choice>, b: string, phi: Ver): seq<Eqn>
    requires forall i :: 0 <= i < |choices| ==> choices[i].values != []
  {
    if choices == [] then []
    else
      (if choices[0].branch == b then [Eqn(phi, Ver(phi.base, GetEnd(choices[0])))] else [])
      + BranchEqns(choices[1..], b, phi)
  }

  lemma TwoWayEqns(choices: seq<Choice>, inT: bool, inF: bool, endT: int, endF: int, phi: Ver)
    requires TwoWay(choices, inT, inF, endT, endF)
    ensures BranchEqns(choices, "true", phi) == if inT then [Eqn(phi, Ver(phi.base, endT))] else []
    ensures BranchEqns(choices, "false", phi) == if inF then [Eqn(phi, Ver(phi.base, endF))] else []
    ensures |choices| == 1 ==> (choices[0].branch == "true" <==> !inF) && (choices[0].branch == "false" <==> !inT)
  {
    assert "true" != "false" by { assert |"true"| != |"false"|; }
    if |choices| == 1 {
      assert choices[1..] == [];
    } else if |choices| == 2 {
      var last := choices[1..];
      assert last[1..] == [] && last[0] == choices[1];
      assert BranchEqns(last, "true", phi) == [];
      assert BranchEqns(last, "false", phi) == [Eqn(phi, Ver(phi.base, endF))] + [];
    }
  }

  // Building an arm equation by equation.

  lemma {:induction false} ArmSnoc(eqs: seq<Eqn>, fork: set<string>, phi: Counters, end: Counters, x: string)
    requires IsArm(eqs, fork, phi, end) && x !in fork
    ensures IsArm(eqs + [Eqn(Ver(x, Count(phi, x)), Ver(x, Count(end, x)))], fork + {x}, phi, end)
  {
    var eq := Eqn(Ver(x, Count(phi, x)), Ver(x, Count(end, x)));
    if eqs == [] {
      assert ([] + [eq])[1..] == [];
      assert fork + {x} - {x} == {};
    } else {
      var y := eqs[0].phi.base;
      ArmSnoc(eqs[1..], fork - {y}, phi, end, x);
      assert (eqs + [eq])[1..] == eqs[1..] + [eq];
      assert fork + {x} - {y} == fork - {y} + {x};
    }
  }

  lemma {:induction false} ArmConcat(a: seq<Eqn>, b: seq<Eqn>, xs: set<string>, ys: set<string>,
                                     phi: Counters, end: Counters)
    requires IsArm(a, xs, phi, end) && IsArm(b, ys, phi, end) && xs !! ys
    ensures IsArm(a + b, xs + ys, phi, end)
  {
    if a == [] {
      assert a + b == b && xs + ys == ys;
    } else {
      var x := a[0].phi.base;
      ArmConcat(a[1..], b, xs - {x}, ys, phi, end);
      assert (a + b)[1..] == a[1..] + b;
      assert xs + ys - {x} == xs - {x} + ys;
    }
  }

  lemma {:induction false} ArmSame(eqs: seq<Eqn>, fork: set<string>, phi: Counters, end: Counters,
                                   phi': Counters, end': Counters)
    requires IsArm(eqs, fork, phi, end)
    requires forall x :: x in fork ==> Count(phi, x) == Count(phi', x) && Count(end, x) == Count(end', x)
    ensures IsArm(eqs, fork, phi', end')
  {
    if eqs != [] {
      ArmSame(eqs[1..], fork - {eqs[0].phi.base}, phi, end, phi', end');
    }
  }

  lemma ArmNothing(phi: Counters, end: Counters)
    ensures IsArm([], {}, phi, end)
  {
  }

  /** Capping branch `b` of `fork` gives each variable of `mine` one equation to its end. */
  ghost predicate HasBranch(fork: Fork, b: string, mine: set<string>, end: Counters) {
    && mine <= fork.Keys
    && forall x :: x in fork ==> CapsTo(fork[x], b, x, x in mine, Count(end, x))
  }

  ghost predicate CapsTo(choices: seq<Choice>, b: string, x: string, mine: bool, end: int) {
    && (forall i :: 0 <= i < |choices| ==> choices[i].values != [])
    && forall n :: BranchEqns(choices, b, Ver(x, n)) == if mine then [Eqn(Ver(x, n), Ver(x, end))] else []
  }

  /** Both branches of a two-way fork cap to their ends, and the variables with a single
      choice are those only one branch mentions. */
  lemma ForkBranches(fork: Fork, xs: set<string>, ys: set<string>, endT: Counters, endF: Counters)
    requires IsFork(fork, xs, ys, endT, endF)
    ensures fork.Keys == xs + ys
    ensures HasBranch(fork, "true", xs, endT) && HasBranch(fork, "false", ys, endF)
  {
    forall x | x in fork
      ensures CapsTo(fork[x], "true", x, x in xs, Count(endT, x))
      ensures CapsTo(fork[x], "false", x, x in ys, Count(endF, x))
    {
      forall n
        ensures BranchEqns(fork[x], "true", Ver(x, n)) ==
          if x in xs then [Eqn(Ver(x, n), Ver(x, Count(endT, x)))] else []
        ensures BranchEqns(fork[x], "false", Ver(x, n)) ==
          if x in ys then [Eqn(Ver(x, n), Ver(x, Count(endF, x)))] else []
      {
        TwoWayEqns(fork[x], x in xs, x in ys, Count(endT, x), Count(endF, x), Ver(x, n));
      }
    }
  }

  /** The variables of `only` are those with a single choice, and it is of branch `b`. */
  ghost predicate SingleIn(fork: Fork, b: string, only: set<string>) {
    && only <= fork.Keys
    && forall x :: x in fork ==> ((|fork[x]| == 1 && fork[x][0].branch == b) <==> x in only)
  }

  lemma ForkSingles(fork: Fork, xs: set<string>, ys: set<string>, endT: Counters, endF: Counters)
    requires IsFork(fork, xs, ys, endT, endF)
    ensures SingleIn(fork, "true", xs - ys) && SingleIn(fork, "false", ys - xs)
  {
    forall x | x in fork
      ensures (|fork[x]| == 1 && fork[x][0].branch == "true") <==> x in xs - ys
      ensures (|fork[x]| == 1 && fork[x][0].branch == "false") <==> x in ys - xs
    {
      TwoWayEqns(fork[x], x in xs, x in ys, Count(endT, x), Count(endF, x), Ver(x, 0));
    }
  }

  /** One round of `capCond`. */
  lemma ArmGrows(eqs: seq<Eqn>, more: seq<Eqn>, done: set<string>, mine: set<string>, phi: Counters, phi': Counters,
                 end: Counters, x: string)
    requires IsArm(eqs, done * mine, phi, end) && x !in done
    requires forall y :: y in done ==> Count(phi, y) == Count(phi', y)
    requires more == if x in mine then [Eqn(Ver(x, Count(phi', x)), Ver(x, Count(end, x)))] else []
    ensures IsArm(eqs + more, (done + {x}) * mine, phi', end)
  {
    ArmSame(eqs, done * mine, phi, end, phi', end);
    if x in mine {
      ArmSnoc(eqs, done * mine, phi', end, x);
      assert (done + {x}) * mine == done * mine + {x};
    } else {
      assert (done + {x}) * mine == done * mine;
      assert eqs + [] == eqs;
    }
  }
}
