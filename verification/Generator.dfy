/** The constraint generator (`Generator`): walks basic blocks, keeping counters, phi
    stacks and forks, and emits rules. Its methods are proved against `Encoding`. */
module Generators {
  import opened Lang
  import opened Emission
  import opened Encoding
  import opened Exactness
  import Models
  import Names
  import opened Variables
  import opened Forks
  import opened Blocks
  import opened Orders
  import opened Permutations
  import opened Parallel
  import opened ParallelForks

  // What the instruction parser computes.

  /** The right-hand side of a store; only arithmetic goes through the flag. */
  function StoreTerm(ssa: Counters, starts: Counters, x: string, e: Expr<string>, start: bool): Expr<Ver> {
    match e
    case Ref(y) => Ref(Ver(y, Count(ssa, x)))
    case _ => Convert(ssa, starts, e, start)
  }

  function StoreFlag(e: Expr<string>, start: bool): bool {
    if e.Ref? then start else FlagAfter(e, start)
  }

  /** The rule a store emits, unless it panics. */
  function StoreResult(ssa: Counters, x: string, t: Expr<Ver>, show: real -> string): Option<Rule> {
    match StoreOutcome(t, show)
    case None => None
    case Some(e) => Some(Define(Ver(x, Advanced(ssa, x)), e))
  }

  lemma StoreNewest(ssa: Counters, starts: Counters, x: string, e: Expr<string>, show: real -> string)
    requires Shows(show)
    ensures StoreTerm(ssa, starts, x, e, false) == Rhs(ssa, x, e) && !StoreFlag(e, false)
    ensures StoreResult(ssa, x, Rhs(ssa, x, e), show) ==
            if Storable(e) then Some(Define(Ver(x, Advanced(ssa, x)), Rhs(ssa, x, e))) else None
  {
    ConvertNewest(ssa, starts, e);
    StoreSucceeds(Rhs(ssa, x, e), show);
    RhsStorable(e, ssa, x);
  }

  function StoreRules(insts: seq<Inst>, ssa: Counters): seq<Rule> {
    if insts == [] then []
    else
      var Store(x, e) := insts[0];
      [Define(Ver(x, Advanced(ssa, x)), Rhs(ssa, x, e))] + StoreRules(insts[1..], Bump(ssa, x))
  }

  function AfterStores(insts: seq<Inst>, ssa: Counters): Counters {
    if insts == [] then ssa else AfterStores(insts[1..], Bump(ssa, insts[0].x))
  }

  function Prefix(ru: seq<Rule>, code: Code): Code {
    if ru == [] then code else Stored(ru[0], Prefix(ru[1..], code))
  }

  lemma {:induction false} StoresEncode(insts: seq<Inst>, tail: Prog, ssa: Counters, code: Code)
    requires Encodes(tail, AfterStores(insts, ssa), code)
    ensures Encodes(Stores(insts, tail), ssa, Prefix(StoreRules(insts, ssa), code))
    ensures Flatten(Prefix(StoreRules(insts, ssa), code)) == StoreRules(insts, ssa) + Flatten(code)
  {
    if insts != [] {
      StoresEncode(insts[1..], tail, Bump(ssa, insts[0].x), code);
      var ru := StoreRules(insts, ssa);
      assert ru[1..] == StoreRules(insts[1..], Bump(ssa, insts[0].x));
    }
  }

  lemma {:induction false} StoresNext(insts: seq<Inst>, tail: Prog, ssa: Counters)
    ensures Next(Stores(insts, tail), ssa) == Next(tail, AfterStores(insts, ssa))
  {
    if insts != [] {
      StoresNext(insts[1..], tail, Bump(ssa, insts[0].x));
    }
  }

  /** The programs the generator is proved for: no counter wraps, copies are aligned, and
      emitting succeeds. */
  predicate Generable(p: Prog, ssa: Counters, show: real -> string) {
    Encodable(p, ssa) && Emittable(p, show)
  }

  lemma OneStore(insts: seq<Inst>, i: nat, tail: Prog, ssa: Counters, show: real -> string, keys: set<string>)
    requires i < |insts| && Generable(Stores(insts[i..], tail), ssa, show) && Stacked(Stores(insts[i..], tail)) <= keys
    ensures var Store(x, e) := insts[i];
      && CanBump(ssa, {x}) && x in keys && x in ssa && ssa[x] < MAX_VERSION && Refs(e) <= ssa.Keys && Storable(e)
      && Generable(Stores(insts[i + 1..], tail), Bump(ssa, x), show) && Stacked(Stores(insts[i + 1..], tail)) <= keys
      && StoreRules(insts[i..], ssa) ==
         [Define(Ver(x, Advanced(ssa, x)), Rhs(ssa, x, e))] + StoreRules(insts[i + 1..], Bump(ssa, x))
      && AfterStores(insts[i..], ssa) == AfterStores(insts[i + 1..], Bump(ssa, x))
      && Generable(Assign(x, e, Stores(insts[i + 1..], tail)), ssa, show)
  {
    hide Rhs;
    assert insts[i..][0] == insts[i] && insts[i..][1..] == insts[i + 1..];
  }

  lemma NoStores(tail: Prog, ssa: Counters)
    ensures Stores([], tail) == tail && StoreRules([], ssa) == [] && AfterStores([], ssa) == ssa
  {
  }

  /** Variables whose stacks `p` touches: those stored to, and those in a fork. */
  function Stacked(p: Prog): set<string> {
    match p
    case Done => {}
    case Assign(x, _, next) => {x} + Stacked(next)
    case If(_, t, _, f, next) => Forked(t) + Forked(f) + Stacked(t) + Stacked(f) + Stacked(next)
  }

  lemma StoreKeepsStacks(ssa: Counters, phis: Stacks, inside: bool, x: string)
    requires Synced(ssa, phis) && x in phis && CanBump(ssa, {x})
    ensures Synced(Bump(ssa, x), StorePhis(phis, inside, x, ssa[x] + 1))
    ensures StorePhis(phis, inside, x, ssa[x] + 1).Keys == phis.Keys
    ensures inside ==> OnlyTops(phis, StorePhis(phis, inside, x, ssa[x] + 1))
  {
  }

  /** `phis'` adds to `phis` the version in `ssa` of each variable of `done` it lacks. */
  ghost predicate PhisFor(phis': map<string, int>, phis: map<string, int>, done: set<string>, ssa: Counters) {
    && phis'.Keys == phis.Keys + done && done <= ssa.Keys
    && forall x :: x in phis' ==> phis'[x] == if x in phis then phis[x] else ssa[x]
  }

  lemma BranchMine(fork: Fork, b: string, mine: set<string>, end: Counters)
    requires HasBranch(fork, b, mine, end)
    ensures mine <= fork.Keys
  {
  }

  lemma BumpNothing(ssa: Counters, phis: map<string, int>)
    ensures BumpAll(ssa, {} - phis.Keys) == ssa
    ensures PhisFor(phis, phis, {}, ssa)
  {
  }

  lemma PhisStep(phis': map<string, int>, phis: map<string, int>, done: set<string>, ssa: Counters, x: string)
    requires PhisFor(phis', phis, done, ssa) && x !in done && x in ssa
    ensures x in phis' <==> x in phis
    ensures x in phis ==> PhisFor(phis', phis, done + {x}, ssa)
    ensures x !in phis ==> PhisFor(phis'[x := Bump(ssa, x)[x]], phis, done + {x}, Bump(ssa, x))
    ensures forall y :: y in done ==> y in phis' && Count(phis'[x := Bump(ssa, x)[x]], y) == Count(phis', y)
  {
  }

  /** Advancing one more variable, unless it already has its phi. */
  lemma BumpStep(ssa: Counters, done: set<string>, had: set<string>, x: string)
    requires x !in done && done + {x} <= ssa.Keys
    ensures BumpAll(ssa, done + {x} - had) ==
            if x in had then BumpAll(ssa, done - had) else Bump(BumpAll(ssa, done - had), x)
    ensures BumpAll(ssa, done - had).Keys == Bump(BumpAll(ssa, done - had), x).Keys == ssa.Keys
    ensures forall y :: y in ssa && y !in {x} ==> Bump(BumpAll(ssa, done - had), x)[y] == BumpAll(ssa, done - had)[y]
  {
    if x in had {
      assert done + {x} - had == done - had;
    }
  }

  /** The stack of a variable only one branch mentions, once its phi `n` is synced: at the
      outermost level a frame is pushed, deeper down the top frame grows. */
  function SyncStack(stack: seq<Frame>, outermost: bool, n: int): seq<Frame>
    requires stack != []
  {
    if outermost then Push(stack, n) else Extend(stack, n)
  }

  function Starts(phis: Stacks): Counters
    requires NonEmpty(phis)
  {
    map x | x in phis :: Start(phis[x])
  }

  /** `phis'` differs from `phis` by the syncing of the variables of `done`. */
  ghost predicate SyncedFor(phis: Stacks, phis': Stacks, done: set<string>, outermost: bool, ssa: Counters)
    requires NonEmpty(phis)
  {
    && phis'.Keys == phis.Keys && NonEmpty(phis')
    && forall x :: x in phis ==>
         phis'[x] == if x in done then SyncStack(phis[x], outermost, Count(ssa, x)) else phis[x]
  }

  lemma SyncNothing(phis: Stacks, outermost: bool, ssa: Counters)
    requires NonEmpty(phis)
    ensures SyncedFor(phis, phis, {}, outermost, ssa)
  {
  }

  lemma SyncStep(phis: Stacks, phis': Stacks, done: set<string>, only: set<string>, outermost: bool, ssa: Counters,
                 x: string)
    requires NonEmpty(phis) && SyncedFor(phis, phis', done * only, outermost, ssa)
    requires x in phis && x !in done
    ensures NonEmpty(phis') && phis'.Keys == phis.Keys && phis'[x] == phis[x]
    ensures Count(Starts(phis), x) == Start(phis'[x])
    ensures x in only ==>
              SyncedFor(phis, phis'[x := SyncStack(phis'[x], outermost, Count(ssa, x))], (done + {x}) * only,
                outermost, ssa)
    ensures x !in only ==> SyncedFor(phis, phis', (done + {x}) * only, outermost, ssa)
  {
  }

  lemma BumpedOnce(ssa: Counters, fork: set<string>, phis: map<string, int>)
    requires fork <= ssa.Keys && CanBump(ssa, fork) && forall x :: x in fork ==> 0 <= ssa[x]
    requires PhisFor(phis, map[], fork, BumpAll(ssa, fork))
    ensures BumpAll(BumpAll(ssa, fork), fork - phis.Keys) == BumpAll(ssa, fork)
    ensures BumpAll(ssa, fork).Keys == ssa.Keys
  {
    assert fork - phis.Keys == {};
  }

  lemma BumpedNonNegative(ssa: Counters, fork: set<string>)
    requires fork <= ssa.Keys && CanBump(ssa, fork)
    ensures forall x :: x in ssa && 0 <= ssa[x] ==> x in BumpAll(ssa, fork) && 0 <= BumpAll(ssa, fork)[x]
  {
  }

  lemma PhisTwice(phis: map<string, int>, phis': map<string, int>, fork: set<string>, ssa: Counters)
    requires PhisFor(phis, map[], fork, ssa) && PhisFor(phis', phis, fork, ssa)
    ensures phis' == phis
  {
  }

  /** An arm's own equations and its syncs together cover the fork. */
  lemma FullArm(eqs: seq<Eqn>, syncs: seq<Eqn>, mine: set<string>, other: set<string>, phis: map<string, int>,
                ssa: Counters, end: Counters, starts: Counters, before: Counters)
    requires IsArm(eqs, mine, phis, end) && IsArm(syncs, other - mine, ssa, starts)
    requires PhisFor(phis, map[], mine + other, ssa)
    requires forall x :: x in mine + other ==> Count(starts, x) == Count(before, x)
    ensures IsArm(eqs + syncs, mine + other, ssa, Ends(mine + other, mine, end, before))
  {
    var ends := Ends(mine + other, mine, end, before);
    ArmSame(eqs, mine, phis, end, ssa, ends);
    ArmSame(syncs, other - mine, ssa, starts, ssa, ends);
    ArmConcat(eqs, syncs, mine, other - mine, ssa, ends);
    assert mine + (other - mine) == mine + other;
  }

  lemma SyncedTwice(phis: Stacks, phis': Stacks, phis'': Stacks, xs: set<string>, ys: set<string>, outermost: bool,
                    ssa: Counters)
    requires NonEmpty(phis) && SyncedFor(phis, phis', xs, outermost, ssa)
    requires SyncedFor(phis', phis'', ys, outermost, ssa) && xs !! ys
    ensures SyncedFor(phis, phis'', xs + ys, outermost, ssa)
    ensures forall x :: x in phis && x in ys ==> Count(Starts(phis'), x) == Count(Starts(phis), x)
  {
  }

  // What a fork reads.

  lemma NothingRead(texts: seq<string>)
    ensures texts[..0] == [] && ReadChanges(texts[..0]) == Some([])
  {
  }

  /** One more text is read, or all of them cannot be. */
  lemma OneRead(texts: seq<string>, i: nat, changes: seq<Ver>)
    requires i < |texts| && ReadChanges(texts[..i]) == Some(changes)
    ensures var v := Names.GetVarBase(texts[i]);
      if v.None? then ReadChanges(texts).None? else ReadChanges(texts[..i + 1]) == Some(changes + [v.value])
  {
    hide Names.GetVarBase;
    var v := Names.GetVarBase(texts[i]);
    if v.Some? {
      ReadOne(texts[i], v.value);
      ReadConcat(texts[..i], [texts[i]]);
      assert texts[..i + 1] == texts[..i] + [texts[i]];
    } else {
      assert texts[i..][0] == texts[i];
      ReadConcat(texts[..i], texts[i..]);
      assert texts == texts[..i] + texts[i..];
    }
  }

  lemma ArmsStatic(p: Prog, q: Prog, ssa: Counters, codeT: Code, codeF: Code, show: real -> string)
    requires Generable(p, ssa, show) && Generable(q, Next(p, ssa), show)
    requires Encodes(p, ssa, codeT) && Encodes(q, Next(p, ssa), codeF)
    ensures Encodable(p, ssa) && Encodable(q, Next(p, ssa))
    ensures RulesStatic(Flatten(codeT), show) && RulesStatic(Flatten(codeF), show)
  {
    hide Encodes, Encodable, Emittable, Next, Flatten, RulesStatic;
    EmittableStatic(p, show);
    EmittableStatic(q, show);
    CodeStatic(p, ssa, codeT, show);
    CodeStatic(q, Next(p, ssa), codeF, show);
  }

  // What a conditional does to the stacks.

  /** On entry every frame pushed starts with the version current there. */
  lemma PushedStarts(ssa: Counters, phis: Stacks)
    requires Synced(ssa, phis)
    ensures Synced(ssa, Pushed(phis)) && Pushed(phis).Keys == phis.Keys
    ensures forall x :: x in phis ==> Start(Pushed(phis)[x]) == ssa[x]
  {
  }

  /** However deeply further conditionals nest in the arms, the top frame's first entry
      stays the version current on entry. */
  lemma StartsKept(ssa: Counters, phis: Stacks, armed: Stacks)
    requires Synced(ssa, phis) && OnlyTops(Pushed(phis), armed)
    ensures NonEmpty(armed) && armed.Keys == phis.Keys
    ensures forall x :: x in phis ==> Count(Starts(armed), x) == Count(ssa, x)
  {
    PushedStarts(ssa, phis);
    forall x | x in phis ensures Start(armed[x]) == ssa[x] {
      assert SameBelow(Pushed(phis)[x], armed[x]);
    }
  }

  /** After a conditional the stacks are in step with the counters again, and below the
      outermost level only their top frames have changed. */
  lemma CapStacks(ssa0: Counters, phis0: Stacks, armed: Stacks, synced: Stacks, one: set<string>,
                  outermost: bool, ssa: Counters, phis: map<string, int>)
    requires Synced(ssa0, phis0) && OnlyTops(Pushed(phis0), armed) && NonEmpty(armed)
    requires SyncedFor(armed, synced, one, outermost, ssa) && one <= phis.Keys <= phis0.Keys
    requires ssa.Keys == ssa0.Keys
    requires forall x :: x in ssa ==> if x in phis then phis[x] == ssa[x] >= 0 else ssa[x] == ssa0[x]
    ensures NonEmpty(synced) && NonEmpty(Popped(synced)) && Popped(synced).Keys == phis0.Keys
    ensures var final := Appended(Popped(synced), phis);
            && Synced(ssa, final) && final.Keys == phis0.Keys
            && (!outermost ==> OnlyTops(phis0, final))
  {
    hide Extend, Push, Last, SameBelow, Appended, Popped, Synced, OnlyTops;
    SyncedNonEmpty(ssa0, phis0);
    CapPops(ssa0, phis0, armed, synced, one, outermost, ssa, phis);
    var popped := Popped(synced);
    AppendedKeys(popped, phis);
    var final := Appended(popped, phis);
    forall x | x in final
      ensures final[x] != [] && Last(final[x]) == ssa[x] >= 0
      ensures !outermost ==> SameBelow(phis0[x], final[x])
    {
      CapStackAt(ssa0, phis0, armed, synced, one, outermost, ssa, phis, x);
    }
    SyncedFrom(ssa, phis0, final, outermost);
  }

  lemma SyncedFrom(ssa: Counters, phis0: Stacks, phis: Stacks, outermost: bool)
    requires phis.Keys == phis0.Keys <= ssa.Keys
    requires forall x :: x in phis ==> phis[x] != [] && Last(phis[x]) == ssa[x] >= 0
    requires forall x :: x in phis && !outermost ==> SameBelow(phis0[x], phis[x])
    ensures Synced(ssa, phis) && (!outermost ==> OnlyTops(phis0, phis))
  {
  }

  lemma CapPops(ssa0: Counters, phis0: Stacks, armed: Stacks, synced: Stacks, one: set<string>,
                outermost: bool, ssa: Counters, phis: map<string, int>)
    requires Synced(ssa0, phis0) && OnlyTops(Pushed(phis0), armed) && NonEmpty(armed)
    requires SyncedFor(armed, synced, one, outermost, ssa) && one <= phis.Keys <= phis0.Keys
    requires ssa.Keys == ssa0.Keys
    requires forall x :: x in ssa ==> if x in phis then phis[x] == ssa[x] >= 0 else ssa[x] == ssa0[x]
    ensures NonEmpty(synced) && NonEmpty(Popped(synced)) && Popped(synced).Keys == synced.Keys == phis0.Keys
  {
    hide Extend, Push, Last, SameBelow, SyncStack, Synced;
    forall x | x in phis0 ensures Popped(synced)[x] != [] {
      CapStackAt(ssa0, phis0, armed, synced, one, outermost, ssa, phis, x);
    }
  }

  lemma AppendedKeys(phis: Stacks, state: map<string, int>)
    requires NonEmpty(phis) && state.Keys <= phis.Keys
    ensures Appended(phis, state).Keys == phis.Keys
    ensures forall x :: x in phis ==>
      Appended(phis, state)[x] == if x in state then Extend(phis[x], state[x]) else phis[x]
  {
  }

  lemma CapStackAt(ssa0: Counters, phis0: Stacks, armed: Stacks, synced: Stacks, one: set<string>,
                   outermost: bool, ssa: Counters, phis: map<string, int>, x: string)
    requires Synced(ssa0, phis0) && OnlyTops(Pushed(phis0), armed) && NonEmpty(armed)
    requires SyncedFor(armed, synced, one, outermost, ssa) && one <= phis.Keys <= phis0.Keys
    requires ssa.Keys == ssa0.Keys
    requires forall x :: x in ssa ==> if x in phis then phis[x] == ssa[x] >= 0 else ssa[x] == ssa0[x]
    requires x in phis0
    ensures x in synced && synced[x] != [] && Popped(synced)[x] != []
    ensures Last(if x in phis then Extend(Popped(synced)[x], phis[x]) else Popped(synced)[x]) == ssa[x] >= 0
    ensures !outermost ==>
      SameBelow(phis0[x], if x in phis then Extend(Popped(synced)[x], phis[x]) else Popped(synced)[x])
  {
    hide SyncStack, Extend, Push, Last, SameBelow;
    assert SameBelow(Pushed(phis0)[x], armed[x]);
    assert synced[x] == if x in one then SyncStack(armed[x], outermost, Count(ssa, x)) else armed[x];
    CapStack(phis0[x], armed[x], synced[x], x in one, outermost, ssa[x], x in phis);
  }

  lemma CapStack(stack: seq<Frame>, armed: seq<Frame>, synced: seq<Frame>, one: bool, outermost: bool, n: int,
                 capped: bool)
    requires stack != [] && SameBelow(Push(stack, Last(stack)), armed) && (one ==> capped)
    requires synced == if one then SyncStack(armed, outermost, n) else armed
    ensures var popped := synced[..|synced| - 1];
            && popped != []
            && (!capped ==> popped == stack)
            && (capped ==> Last(Extend(popped, n)) == n)
            && (!outermost ==> SameBelow(stack, if capped then Extend(popped, n) else popped))
  {
    assert armed[..|armed| - 1] == stack by { assert Push(stack, Last(stack))[..|stack|] == stack; }
    if one && outermost {
      assert synced[..|synced| - 1] == armed;
    } else {
      assert synced[..|synced| - 1] == stack;
    }
  }

  lemma PhisGrown(ssa0: Counters, ssaF: Counters, ssa: Counters, phis: map<string, int>, fork: set<string>)
    requires PhisFor(phis, map[], fork, ssa) && Grown(ssa0, ssa, fork)
    requires forall x :: x in fork ==> Count(ssaF, x) >= 0 && ssa[x] == Count(ssaF, x) + 1
    ensures phis.Keys == fork && ssa.Keys == ssa0.Keys
    ensures forall x :: x in ssa ==> if x in phis then phis[x] == ssa[x] >= 0 else ssa[x] == ssa0[x]
  {
  }

  lemma {:induction false} SilentEmitsNothing(p: Prog, ssa: Counters, code: Code)
    requires Encodes(p, ssa, code)
    ensures Flatten(code) == [] <==> Silent(p)
  {
    match p
    case Done =>
    case Assign(_, _, _) =>
    case If(c, t, _, f, next) =>
      SilentEmitsNothing(t, ssa, code.t);
      SilentEmitsNothing(f, Next(t, ssa), code.f);
      SilentEmitsNothing(next, NextIf(t, f, ssa), code.next);
  }

  // Facts about a conditional, unfolded and folded once.

  lemma NothingEncodes(ssa: Counters)
    ensures Encodes(Done, ssa, Nothing) && Flatten(Nothing) == [] && Next(Done, ssa) == ssa
  {
  }

  lemma OpenIf(c: Cond<string>, t: Prog, hasElse: bool, f: Prog, next: Prog, ssa: Counters, show: real -> string,
               phis: Stacks)
    requires Generable(If(c, t, hasElse, f, next), ssa, show) && Synced(ssa, phis)
    requires Stacked(If(c, t, hasElse, f, next)) <= phis.Keys
    ensures CondRefs(c) <= ssa.Keys && Guardable(c, t, f, show) && NonEmpty(phis) && NonEmpty(Pushed(phis))
    ensures Generable(t, ssa, show) && Generable(f, Next(t, ssa), show) && Generable(next, NextIf(t, f, ssa), show)
    ensures CanBump(Next(f, Next(t, ssa)), Forked(t) + Forked(f)) && Forked(t) + Forked(f) <= phis.Keys
    ensures Stacked(t) <= phis.Keys && Stacked(f) <= phis.Keys && Stacked(next) <= phis.Keys
    ensures Synced(ssa, Pushed(phis)) && Pushed(phis).Keys == phis.Keys
  {
    PushedStarts(ssa, phis);
  }

  lemma CloseIf(c: Cond<string>, t: Prog, hasElse: bool, f: Prog, next: Prog, ssa: Counters, code: Code)
    requires code.Branched? && Encodes(t, ssa, code.t) && Encodes(f, Next(t, ssa), code.f)
    requires Encodes(next, NextIf(t, f, ssa), code.next)
    requires if Silent(t) && Silent(f) then code.join.None? else code.join.Some? && IsIte(code.join.value, c, t, f, ssa)
    ensures Encodes(If(c, t, hasElse, f, next), ssa, code)
    ensures Next(If(c, t, hasElse, f, next), ssa) == Next(next, NextIf(t, f, ssa))
    ensures Flatten(code) == Flatten(code.t) + Flatten(code.f)
                             + (if code.join.Some? then [code.join.value] else []) + Flatten(code.next)
  {
  }

  // Programs one after the other.

  lemma {:induction false} SplitGenerable(p: Prog, q: Prog, ssa: Counters, show: real -> string)
    ensures Generable(Append(p, q), ssa, show) <==> Generable(p, ssa, show) && Generable(q, Next(p, ssa), show)
    ensures Stacked(Append(p, q)) == Stacked(p) + Stacked(q)
  {
    match p
    case Done =>
    case Assign(x, _, next) => SplitGenerable(next, q, Bump(ssa, x), show);
    case If(_, t, _, f, next) => SplitGenerable(next, q, NextIf(t, f, ssa), show);
  }

  function AppendCode(a: Code, b: Code): Code {
    match a
    case Nothing => b
    case Stored(r, next) => Stored(r, AppendCode(next, b))
    case Branched(t, f, join, next) => Branched(t, f, join, AppendCode(next, b))
  }

  lemma {:induction false} AppendNext(p: Prog, q: Prog, ssa: Counters)
    ensures Next(Append(p, q), ssa) == Next(q, Next(p, ssa))
  {
    match p
    case Done =>
    case Assign(x, _, next) => AppendNext(next, q, Bump(ssa, x));
    case If(_, t, _, f, next) => AppendNext(next, q, NextIf(t, f, ssa));
  }

  lemma {:induction false} AppendFlat(a: Code, b: Code)
    ensures Flatten(AppendCode(a, b)) == Flatten(a) + Flatten(b)
  {
    match a
    case Nothing =>
    case Stored(r, next) =>
      AppendFlat(next, b);
      ConcatAssoc([r], Flatten(next), Flatten(b));
    case Branched(t, f, join, next) =>
      AppendFlat(next, b);
      ConcatAssoc(Flatten(t) + Flatten(f) + (if join.Some? then [join.value] else []), Flatten(next), Flatten(b));
  }

  lemma ConcatAssoc(a: seq<Rule>, b: seq<Rule>, c: seq<Rule>)
    ensures a + (b + c) == (a + b) + c
  {
  }

  lemma {:induction false} AppendEncodes(p: Prog, q: Prog, ssa: Counters, a: Code, b: Code)
    requires Encodes(p, ssa, a) && Encodes(q, Next(p, ssa), b)
    ensures Encodes(Append(p, q), ssa, AppendCode(a, b))
    ensures Flatten(AppendCode(a, b)) == Flatten(a) + Flatten(b)
    ensures Next(Append(p, q), ssa) == Next(q, Next(p, ssa))
  {
    hide IsIte, BumpAll, Rhs, Silent, Forked, Flatten, Advanced;
    AppendNext(p, q, ssa);
    AppendFlat(a, b);
    match p
    case Done =>
    case Assign(x, _, next) => AppendEncodes(next, q, Bump(ssa, x), a.next, b);
    case If(_, t, _, f, next) => AppendEncodes(next, q, NextIf(t, f, ssa), a.next, b);
  }

  // Functions one after the other.

  /** Every function is walkable, and its walk meets one return. */
  predicate Returning(fns: seq<seq<Block>>) {
    forall i :: 0 <= i < |fns| ==> Traversable(fns[i]) && ReturnsFrom(fns[i], 0) == 1
  }

  function ReadAll(fns: seq<seq<Block>>): Prog
    requires Returning(fns)
  {
    if fns == [] then Done else Append(ReadFrom(fns[0], 0), ReadAll(fns[1..]))
  }

  lemma NextFunction(fns: seq<seq<Block>>, i: nat, ssa: Counters, show: real -> string)
    requires i < |fns| && Returning(fns[i..]) && Generable(ReadAll(fns[i..]), ssa, show)
    ensures Traversable(fns[i]) && ReturnsFrom(fns[i], 0) == 1 && Returning(fns[i + 1..])
    ensures var (p, rest) := (ReadFrom(fns[i], 0), ReadAll(fns[i + 1..]));
      && ReadAll(fns[i..]) == Append(p, rest) && Generable(p, ssa, show) && Generable(rest, Next(p, ssa), show)
      && Stacked(ReadAll(fns[i..])) == Stacked(p) + Stacked(rest)
  {
    hide Traversable, Generable, Stacked, ReadFrom, ReturnsFrom;
    assert fns[i..][0] == fns[i] && fns[i..][1..] == fns[i + 1..];
    SplitGenerable(ReadFrom(fns[i], 0), ReadAll(fns[i + 1..]), ssa, show);
  }

  lemma CapStep(choices: seq<Choice>, i: nat, b: string, phi: Ver)
    requires i < |choices| && forall i :: 0 <= i < |choices| ==> choices[i].values != []
    ensures BranchEqns(choices[i..], b, phi) ==
            (if choices[i].branch == b then [Eqn(phi, Ver(phi.base, GetEnd(choices[i])))] else [])
            + BranchEqns(choices[i + 1..], b, phi)
  {
    assert choices[i..][0] == choices[i] && choices[i..][1..] == choices[i + 1..];
  }

  lemma NoCaps(b: string, phi: Ver)
    ensures BranchEqns([], b, phi) == []
  {
  }

  // Groups of flows.

  predicate NonNegative(counters: Counters) {
    forall x :: x in counters ==> 0 <= counters[x]
  }

  /** A store outside conditionals and groups opens a frame with its version. */
  lemma StoreOpens(phis: Stacks, x: string, n: int)
    requires NonEmpty(phis) && x in phis
    ensures NonEmpty(StorePhis(phis, false, x, n)) && StorePhis(phis, false, x, n).Keys == phis.Keys
    ensures Starts(StorePhis(phis, false, x, n)) == Starts(phis)[x := n]
  {
  }

  lemma StoreExtends(phis: Stacks, x: string, n: int)
    requires NonEmpty(phis) && x in phis
    ensures NonEmpty(StorePhis(phis, true, x, n)) && Starts(StorePhis(phis, true, x, n)) == Starts(phis)
  {
  }

  /** A flow of a group is stored with the flag set. */
  lemma StoreStarts(f: Flow, ssa: Counters, starts: Counters, show: real -> string)
    requires Shows(show)
    ensures StoreResult(ssa, f.x, StoreTerm(ssa, starts, f.x, Body(f), true), show) == Some(FlowRule(f, ssa, starts))
    ensures !StoreFlag(Body(f), true)
  {
    var e := Body(f);
    assert f.x in Refs(e);
    StoreSucceeds(Convert(ssa, starts, e, true), show);
    ConvertStorable(e, ssa, starts, true);
  }

  lemma StartsKeys(phis: Stacks)
    requires NonEmpty(phis)
    ensures Starts(phis).Keys == phis.Keys
  {
  }

  lemma StartsLoaded(phis: Stacks, state: map<string, int>)
    requires NonEmpty(phis) && state.Keys == phis.Keys && -1 !in state.Values
    ensures NonEmpty(Loaded(phis, state)) && Loaded(phis, state).Keys == phis.Keys
    ensures Starts(Loaded(phis, state)) == state
  {
    assert forall x :: x in state ==> state[x] in state.Values;
  }

  /** Capping opens a frame with the phi, at the outermost level. */
  lemma SyncedRestarts(phis: Stacks, phis': Stacks, xs: set<string>, ssa: Counters)
    requires NonEmpty(phis) && SyncedFor(phis, phis', xs, true, ssa) && xs <= phis.Keys
    ensures NonEmpty(phis') && Starts(phis') == Restart(Starts(phis), xs, ssa)
  {
  }

  lemma SyncedBump(phis: Stacks, phis': Stacks, done: set<string>, outermost: bool, ssa: Counters, x: string)
    requires NonEmpty(phis) && SyncedFor(phis, phis', done, outermost, ssa) && x in phis && x !in done && x in ssa
    ensures NonEmpty(phis') && phis'.Keys == phis.Keys
    ensures SyncedFor(phis, phis'[x := SyncStack(phis'[x], outermost, Bump(ssa, x)[x])], done + {x}, outermost,
      Bump(ssa, x))
  {
  }

  lemma BumpAllStep(ssa: Counters, done: set<string>, x: string)
    requires done + {x} <= ssa.Keys && x !in done
    ensures BumpAll(ssa, done + {x}) == Bump(BumpAll(ssa, done), x)
    ensures Bump(BumpAll(ssa, done), x)[x] == Advanced(ssa, x)
  {
  }

  lemma BumpAllNothing(ssa: Counters)
    ensures BumpAll(ssa, {}) == ssa
  {
  }

  lemma BumpAllAt(ssa: Counters, done: set<string>, x: string)
    requires done <= ssa.Keys && x in ssa && x !in done
    ensures BumpAll(ssa, done).Keys == ssa.Keys && BumpAll(ssa, done)[x] == ssa[x]
    ensures Bump(ssa, x)[x] == Bump(BumpAll(ssa, done), x)[x] == Advanced(ssa, x)
  {
  }

  lemma CapNothing(perms: seq<seq<Flow>>, ssa: Counters, starts: Counters)
    ensures IsCap([], {}, perms, ssa, starts)
  {
  }

  /** Frames start at versions that exist, nothing is negative, and the level is at most
      the one a group leaves behind. */
  predicate Tidy(enc: Enc) {
    Sound(enc) && NonNegative(enc.ssa) && NonNegative(enc.starts) && enc.level <= 1
  }

  lemma NextCall(calls: seq<Flow>, i: nat, ssa: Counters, starts: Counters)
    requires i < |calls| && Fits(calls[i..], ssa) && Mentioned(calls) <= ssa.Keys && NonNegative(ssa)
    ensures var f := calls[i];
      && f.x in Written(calls) && {f.x} + Refs(f.rest) <= Mentioned(calls) && CanBump(ssa, {f.x}) && 0 <= ssa[f.x]
      && Fits(calls[i + 1..], Bump(ssa, f.x)) && NonNegative(Bump(ssa, f.x)) && Bump(ssa, f.x).Keys == ssa.Keys
      && OrderRules(calls[i..], ssa, starts) ==
         [FlowRule(f, ssa, starts)] + OrderRules(calls[i + 1..], Bump(ssa, f.x), starts[f.x := Advanced(ssa, f.x)])
      && OrderNext(calls[i..], ssa) == OrderNext(calls[i + 1..], Bump(ssa, f.x))
  {
    hide FlowRule;
    assert calls[i] in calls && calls[i..][0] == calls[i] && calls[i..][1..] == calls[i + 1..];
  }

  lemma NoCalls(ssa: Counters, starts: Counters)
    ensures OrderRules([], ssa, starts) == [] && OrderNext([], ssa) == ssa
  {
  }

  lemma OptionsOf(fs: seq<Flow>, enc: Enc)
    requires |fs| > 1 && StepFits(fs, enc) && Sound(enc)
    ensures Permuts(fs, 0) != [] && Runnable(Permuts(fs, 0), Mentioned(fs), Written(fs), enc.ssa, enc.starts)
    ensures Mentioned(fs) <= enc.ssa.Keys && Mentioned(fs) <= enc.starts.Keys
    ensures CanBump(OrdersNext(Permuts(fs, 0), enc.ssa), Mentioned(fs))
    ensures forall i :: 0 <= i < |Permuts(fs, 0)| ==> Permuts(fs, 0)[i] != []
  {
    hide AllFit, OrdersNext, Mentioned, Written, CanBump, Runnable;
    PermsOf(fs, enc);
    forall i | 0 <= i < |Permuts(fs, 0)| ensures Permuts(fs, 0)[i] != [] {
      SameFlowsMention(Permuts(fs, 0)[i], fs);
    }
    ExactlyAllOrders(fs);
    assert fs in Permuts(fs, 0);
  }

  /** The rules `ru` are those of the first `i` options, and the rest still fit. */
  predicate FirstOptions(perms: seq<seq<Flow>>, i: nat, ru: seq<Rule>, xs: set<string>, w: set<string>, ssa0: Counters,
                         starts: Counters, ssa: Counters) {
    && i <= |perms| && ssa.Keys == ssa0.Keys && Runnable(perms[i..], xs, w, ssa, starts)
    && OrdersRules(perms, ssa0, starts) == ru + OrdersRules(perms[i..], ssa, starts)
    && OrdersNext(perms, ssa0) == OrdersNext(perms[i..], ssa)
  }

  lemma NoOptions(perms: seq<seq<Flow>>, xs: set<string>, w: set<string>, ssa: Counters, starts: Counters)
    requires Runnable(perms, xs, w, ssa, starts)
    ensures FirstOptions(perms, 0, [], xs, w, ssa, starts, ssa)
  {
    assert perms[0..] == perms;
  }

  /** One more option. */
  lemma NextOption(perms: seq<seq<Flow>>, i: nat, ru: seq<Rule>, xs: set<string>, w: set<string>, ssa0: Counters,
                   starts: Counters, ssa: Counters)
    requires i < |perms| && FirstOptions(perms, i, ru, xs, w, ssa0, starts, ssa) && NonNegative(ssa)
    ensures Fits(perms[i], ssa) && Mentioned(perms[i]) == xs && Written(perms[i]) == w && w <= xs && xs <= ssa.Keys
    ensures Bases(RulesVers(OrderRules(perms[i], ssa, starts))) == xs
    ensures var ssa' := OrderNext(perms[i], ssa);
      && ssa'.Keys == ssa.Keys && NonNegative(ssa') && (forall x :: x in ssa ==> ssa[x] <= ssa'[x])
      && FirstOptions(perms, i + 1, ru + OrderRules(perms[i], ssa, starts), xs, w, ssa0, starts, ssa')
  {
    hide Fits, OrderRules, OrderNext, Runnable, Mentioned, Written, RulesVers, Bases;
    assert perms[i..][0] == perms[i] && perms[i..][1..] == perms[i + 1..];
    FirstRuns(perms[i..], xs, w, ssa, starts);
    OrderBases(perms[i], ssa, starts);
  }

  lemma AllOptions(perms: seq<seq<Flow>>, ru: seq<Rule>, xs: set<string>, w: set<string>, ssa0: Counters,
                   starts: Counters, ssa: Counters)
    requires FirstOptions(perms, |perms|, ru, xs, w, ssa0, starts, ssa)
    ensures ru == OrdersRules(perms, ssa0, starts) && ssa == OrdersNext(perms, ssa0) && ssa.Keys == ssa0.Keys
  {
    assert perms[|perms|..] == [];
  }

  lemma TidySound(enc: Enc)
    requires Tidy(enc)
    ensures Sound(enc) && NonNegative(enc.ssa)
  {
  }

  lemma StaysTidy(ssa: Counters, ssa': Counters, starts: Counters, level: nat)
    requires Tidy(Enc(ssa, starts, level)) && ssa'.Keys == ssa.Keys && NonNegative(ssa')
    requires forall x :: x in ssa ==> ssa[x] <= ssa'[x]
    ensures Tidy(Enc(ssa', starts, 1)) && NonNegative(ssa) && NonNegative(starts) && level <= 1
  {
  }

  lemma GroupEmitted(fs: seq<Flow>, enc: Enc, ru: seq<Rule>, caps: seq<Rule>)
    requires |fs| > 1 && ru == OrdersRules(Permuts(fs, 0), enc.ssa, enc.starts)
    requires IsCap(caps, Mentioned(fs), Permuts(fs, 0), enc.ssa, enc.starts)
    ensures StepEmits(fs, enc, ru + caps)
  {
    hide IsCap, Permuts, Mentioned, OrdersRules;
  }

  lemma NothingEmitted(enc: Enc)
    ensures StepEmits([], enc, []) && StepNext([], enc) == enc
  {
  }

  lemma StepTidy(fs: seq<Flow>, enc: Enc)
    requires StepFits(fs, enc) && Tidy(enc)
    ensures Tidy(StepNext(fs, enc))
  {
    hide StepFits;
    StepKeeps(fs, enc);
    hide OrdersNext, Permuts;
    var enc' := StepNext(fs, enc);
    assert forall x :: x in enc'.starts ==>
      enc'.starts[x] == Count(enc'.ssa, x) || enc'.starts[x] == Count(enc.starts, x);
  }

  /** A plain flow opens a frame at level 0 only. */
  lemma SingleStore(f: Flow, fs: seq<Flow>, ssa: Counters, phis: Stacks, level: nat, show: real -> string)
    requires Shows(show) && fs == [f] && NonEmpty(phis)
    requires StepFits(fs, Enc(ssa, Starts(phis), level)) && Tidy(Enc(ssa, Starts(phis), level))
    ensures f.x in phis && f.x in ssa && 0 <= ssa[f.x] < MAX_VERSION && Refs(Body(f)) <= ssa.Keys
    ensures var phis' := StorePhis(phis, level > 0, f.x, ssa[f.x] + 1);
      && NonEmpty(phis')
      && Enc(Bump(ssa, f.x), Starts(phis'), level) == StepNext(fs, Enc(ssa, Starts(phis), level))
    ensures var r := StoreResult(ssa, f.x, StoreTerm(ssa, Starts(phis), f.x, Body(f), false), show);
      r.Some? && !StoreFlag(Body(f), false) && StepEmits(fs, Enc(ssa, Starts(phis), level), [r.value])
  {
    hide StorePhis, NonEmpty, Starts, StoreTerm, StoreResult, StoreFlag, Rhs;
    OneMentions(f);
    StartsKeys(phis);
    StoreOpens(phis, f.x, ssa[f.x] + 1);
    StoreExtends(phis, f.x, ssa[f.x] + 1);
    StoreNewest(ssa, Starts(phis), f.x, Body(f), show);
  }

  lemma {:induction false} RunSnoc(steps: seq<seq<Flow>>, enc: Enc, rs: seq<seq<Rule>>, fs: seq<Flow>, ru: seq<Rule>)
    requires RunEmits(steps, enc, rs) && StepEmits(fs, RunNext(steps, enc), ru)
    ensures RunEmits(steps + [fs], enc, rs + [ru])
    ensures RunNext(steps + [fs], enc) == StepNext(fs, RunNext(steps, enc))
    decreases |steps|
  {
    hide StepEmits, StepNext;
    if steps == [] {
      assert ([] + [fs])[1..] == [] && ([] + [ru])[1..] == [];
    } else {
      RunSnoc(steps[1..], StepNext(steps[0], enc), rs[1..], fs, ru);
      assert (steps + [fs])[1..] == steps[1..] + [fs] && (rs + [ru])[1..] == rs[1..] + [ru];
    }
  }

  class Generator {
    const variables: VarData
    const inPhiState: PhiState
    const returnVoid: PhiState
    var forks: seq<Fork>
    var parallelRunStart: bool
    const show: real -> string

    /** `show` prints numbers. */
    constructor (show: real -> string)
      requires Shows(show)
      ensures fresh(variables) && fresh(inPhiState) && fresh(returnVoid) && Valid()
      ensures variables.ssa == map[] && variables.phis == map[]
      ensures inPhiState.levels == 0 && returnVoid.levels == 0
      ensures forks == [] && !parallelRunStart && this.show == show
    {
      this.show := show;
      variables := new VarData();
      inPhiState := new PhiState();
      returnVoid := new PhiState();
      forks := [];
      parallelRunStart := false;
    }

    ghost predicate Valid() {
      inPhiState != returnVoid && Shows(show)
    }

    // Instructions.

    method ConvertInfixVar(x: string) returns (v: Ver)
      requires NonEmpty(variables.phis) && x in variables.ssa
      modifies this`parallelRunStart
      ensures Ref(v) == Convert(variables.ssa, Starts(variables.phis), Ref(x), old(parallelRunStart))
      ensures !parallelRunStart
    {
      if parallelRunStart {
        v := Ver(x, variables.GetStartState(x));
        parallelRunStart := false;
      } else {
        v := Ver(x, variables.ssa[x]);
      }
    }

    /** The instructions of an expression: nested operations are parsed first, then the
        operands of the operation itself are converted. */
    method ConvertExpr(e: Expr<string>) returns (t: Expr<Ver>)
      requires NonEmpty(variables.phis) && Refs(e) <= variables.ssa.Keys
      modifies this`parallelRunStart
      ensures t == Convert(variables.ssa, Starts(variables.phis), e, old(parallelRunStart))
      ensures parallelRunStart == FlagAfter(e, old(parallelRunStart))
    {
      hide Starts;
      match e
      case Lit(r) => t := Lit(r);
      case Ref(x) =>
        var v := ConvertInfixVar(x);
        t := Ref(v);
      case Bin(op, l, r) =>
        var l', r': Expr<Ver>;
        if l.Bin? {
          l' := ConvertExpr(l);
        }
        if r.Bin? {
          r' := ConvertExpr(r);
        }
        if !l.Bin? {
          l' := ConvertExpr(l);
        }
        if !r.Bin? {
          r' := ConvertExpr(r);
        }
        t := Bin(op, l', r');
    }

    /** An operand of a comparison; the temporary of an operation is not resolved, and the
        solver reads decimals only. */
    method ConvertOperand(e: Expr<string>) returns (t: Outcome<Expr<Ver>>)
      requires NonEmpty(variables.phis) && Refs(e) <= variables.ssa.Keys && !parallelRunStart
      modifies this`parallelRunStart
      ensures t == Operand(variables.ssa, e, show) && !parallelRunStart
    {
      ConvertNewest(variables.ssa, Starts(variables.phis), e);
      var t' := ConvertExpr(e);
      t := if e.Bin? || !Readable(e, show) then Unreadable else Emitted(t');
    }

    method ConvertCond(c: Cond<string>) returns (t: Outcome<Cond<Ver>>)
      requires NonEmpty(variables.phis) && CondRefs(c) <= variables.ssa.Keys && !parallelRunStart
      modifies this`parallelRunStart
      ensures t == Guard(variables.ssa, c, show) && !parallelRunStart
    {
      hide Operand, NonEmpty, Connective;
      match c
      case Cmp(rel, l, r) =>
        var l' := ConvertOperand(l);
        var r' := ConvertOperand(r);
        t := Both(l', r', (a, b) => Cmp(rel, a, b));
      case And(c0, c1) =>
        var t0 := ConvertCond(c0);
        var t1 := ConvertCond(c1);
        t := Connective(c0, c1, Both(t0, t1, (a, b) => And(a, b)));
      case Or(c0, c1) =>
        var t0 := ConvertCond(c0);
        var t1 := ConvertCond(c1);
        t := Connective(c0, c1, Both(t0, t1, (a, b) => Or(a, b)));
      case Not(c0) =>
        var t0 := ConvertCond(c0);
        t := Both(t0, Emitted(()), (a, _) => Not(a));
    }

    /** Whether the text of an operand names a variable at all (`isASolvable` panics if not). */
    method IsNamed(t: Expr<Ver>) returns (ok: bool)
      ensures ok == Names.GetVarBase(Text(t, show)).Some?
    {
      var base := Names.GetVarBase(Text(t, show));
      ok := base.Some?;
    }

    method StoreRule(x: string, e: Expr<string>) returns (r: Option<Rule>)
      requires NonEmpty(variables.phis) && Refs(e) <= variables.ssa.Keys
      requires 0 <= Count(variables.ssa, x) < MAX_VERSION
      modifies variables, this`parallelRunStart
      ensures variables.ssa == Bump(old(variables.ssa), x)
      ensures variables.phis ==
              StorePhis(old(variables.phis), inPhiState.Check(), x, Count(old(variables.ssa), x) + 1)
      ensures r == StoreResult(old(variables.ssa), x,
                               StoreTerm(old(variables.ssa), old(Starts(variables.phis)), x, e,
                                 old(parallelRunStart)), show)
      ensures parallelRunStart == StoreFlag(e, old(parallelRunStart))
    {
      hide Starts, Text, Names.GetVarBase, Convert, FlagAfter, Extend, Push, Last, Start, Advanced, Refs, Shows;
      var t: Expr<Ver>;
      if !e.Ref? {
        t := ConvertExpr(e);
      }
      var n := if x in variables.ssa then variables.ssa[x] else 0;
      if !inPhiState.Check() {
        variables.NewPhi(x, n + 1);
      } else {
        variables.StoreLastState(x, n + 1);
      }
      var id := variables.AdvanceSSA(x);
      if e.Ref? {
        t := Ref(Ver(e.v, n));
      }
      if t.Bin? {
        var ok := IsNamed(t.left);
        if !ok {
          return None;
        }
      }
      r := Some(Define(Ver(x, id), t));
    }

    method ParseInstruct(insts: seq<Inst>, ghost tail: Prog) returns (ru: seq<Rule>)
      requires Valid() && Synced(variables.ssa, variables.phis) && !parallelRunStart
      requires Generable(Stores(insts, tail), variables.ssa, show)
      requires Stacked(Stores(insts, tail)) <= variables.phis.Keys
      modifies variables, this`parallelRunStart
      ensures ru == StoreRules(insts, old(variables.ssa))
      ensures variables.ssa == AfterStores(insts, old(variables.ssa))
      ensures Synced(variables.ssa, variables.phis) && !parallelRunStart
      ensures variables.phis.Keys == old(variables.phis).Keys
      ensures Generable(tail, variables.ssa, show) && Stacked(tail) <= variables.phis.Keys
      ensures inPhiState.Check() ==> OnlyTops(old(variables.phis), variables.phis)
    {
      hide Synced, OnlyTops, StorePhis, NonEmpty, StoreTerm, StoreResult, StoreFlag, Starts, Rhs, Generable,
           Stacked, Refs, StoreRules, AfterStores, CanBump, Bump, Stores, Shows;
      SyncedNonEmpty(variables.ssa, variables.phis);
      OnlyTopsRefl(variables.phis);
      NoStores(tail, variables.ssa);
      assert insts[0..] == insts;
      ru := [];
      var i := 0;
      while i < |insts|
        invariant 0 <= i <= |insts|
        invariant StoreRules(insts, old(variables.ssa)) == ru + StoreRules(insts[i..], variables.ssa)
        invariant AfterStores(insts, old(variables.ssa)) == AfterStores(insts[i..], variables.ssa)
        invariant Synced(variables.ssa, variables.phis) && !parallelRunStart
        invariant Generable(Stores(insts[i..], tail), variables.ssa, show)
        invariant Stacked(Stores(insts[i..], tail)) <= variables.phis.Keys == old(variables.phis).Keys
        invariant inPhiState.Check() ==> OnlyTops(old(variables.phis), variables.phis)
      {
        var Store(x, e) := insts[i];
        OneStore(insts, i, tail, variables.ssa, show, variables.phis.Keys);
        SyncedNonEmpty(variables.ssa, variables.phis);
        StoreNewest(variables.ssa, Starts(variables.phis), x, e, show);
        ghost var before := variables.phis;
        StoreKeepsStacks(variables.ssa, variables.phis, inPhiState.Check(), x);
        var r := StoreRule(x, e);
        if inPhiState.Check() {
          OnlyTopsTrans(old(variables.phis), before, variables.phis);
        }
        ru := ru + [r.value];
        i := i + 1;
      }
      assert insts[i..] == [];
      NoStores(tail, variables.ssa);
    }

    // Forks.

    /** Inside a conditional or parallel group the newest fork is replaced. */
    method NewFork()
      modifies this`forks
      ensures forks == (if old(forks) != [] && inPhiState.Check() then old(forks)[..|old(forks)| - 1] else old(forks))
                       + [map[]]
    {
      if |forks| == 0 {
        forks := [map[]];
        return;
      }
      if inPhiState.Check() {
        forks := forks[..|forks| - 1] + [map[]];
      } else {
        forks := forks + [map[]];
      }
    }

    /** The texts `allStateChangesInRule` collects from the rules of a branch. */
    method CollectChanges(rules: seq<Rule>) returns (texts: seq<string>)
      ensures texts == RulesChanges(rules, show)
    {
      texts := [];
      assert rules[0..] == rules;
      for i := 0 to |rules|
        invariant RulesChanges(rules, show) == texts + RulesChanges(rules[i..], show)
      {
        assert rules[i..][0] == rules[i] && rules[i..][1..] == rules[i + 1..];
        texts := texts + RuleChanges(rules[i], show);
      }
      assert rules[|rules|..] == [];
    }

    /** Reads the versions a branch mentions off its rules; not `ok` is a panic. */
    method BuildForkChoice(rules: seq<Rule>, b: string) returns (ok: bool)
      requires Valid() && forks != []
      modifies this`forks
      ensures ok <==> RulesStatic(rules, show)
      ensures |forks| == |old(forks)| && forks[..|forks| - 1] == old(forks)[..|forks| - 1]
      ensures ok ==> IsBranched(forks[|forks| - 1], old(forks)[|forks| - 1], RulesVers(rules), b)
    {
      hide BranchChoices, Bases, AddChoiceValue, IsBranched, Names.GetVarBase, RulesStatic, RulesChanges, RulesVers,
           Shows, ReadChanges;
      var stateChanges := CollectChanges(rules);
      ChangesRead(rules, show);
      var fork := forks[|forks| - 1];
      var seenVar: set<string> := {};
      ghost var fork0, changes := fork, [];
      BranchNothing(fork, b);
      NothingRead(stateChanges);
      var i := 0;
      while i < |stateChanges|
        invariant 0 <= i <= |stateChanges|
        invariant forks == old(forks) && ReadChanges(stateChanges[..i]) == Some(changes)
        invariant IsBranched(fork, fork0, changes, b) && seenVar == Bases(changes)
      {
        OneRead(stateChanges, i, changes);
        var v := Names.GetVarBase(stateChanges[i]);
        if v.None? {
          return false;
        }
        var Ver(base, n) := v.value;
        ghost var more := changes + [v.value];
        assert more[..|changes|] == changes && more[..|changes| + 1] == more;
        SeenIsLast(fork, fork0, changes, b);
        BranchStep(fork, fork0, more, |changes|, b);
        if base in fork {
          var choices := fork[base];
          if base in seenVar && choices[|choices| - 1].branch == b {
            fork := fork[base := choices[..|choices| - 1] + [AddChoiceValue(choices[|choices| - 1], n)]];
          } else {
            seenVar := seenVar + {base};
            fork := fork[base := choices + [Choice(base, b, [n])]];
          }
        } else {
          seenVar := seenVar + {base};
          fork := fork[base := [] + [Choice(base, b, [n])]];
        }
        changes := more;
        i := i + 1;
      }
      assert stateChanges[..i] == stateChanges;
      forks := forks[..|forks| - 1] + [fork];
      ok := true;
    }

    method CapRule(choices: seq<Choice>, b: string, phi: Ver) returns (eqs: seq<Eqn>)
      requires forall i :: 0 <= i < |choices| ==> choices[i].values != []
      ensures eqs == BranchEqns(choices, b, phi)
    {
      hide BranchEqns;
      NoCaps(b, phi);
      assert choices[0..] == choices;
      eqs := [];
      var i := 0;
      while i < |choices|
        invariant 0 <= i <= |choices|
        invariant BranchEqns(choices, b, phi) == eqs + BranchEqns(choices[i..], b, phi)
      {
        CapStep(choices, i, b, phi);
        var c := choices[i];
        if c.branch == b {
          eqs := eqs + [Eqn(phi, Ver(phi.base, GetEnd(c)))];
        }
        i := i + 1;
      }
    }

    /** The fork's phi for `k`, created unless an earlier branch did, and what branch `b`
        contributes to it. */
    method CapVariable(k: string, b: string, phis: map<string, int>, ghost mine: set<string>, ghost end: Counters)
      returns (eqs: seq<Eqn>, phis': map<string, int>)
      requires forks != [] && HasBranch(forks[|forks| - 1], b, mine, end) && k in forks[|forks| - 1]
      modifies variables`ssa
      ensures variables.ssa == if k in phis then old(variables.ssa) else Bump(old(variables.ssa), k)
      ensures phis' == if k in phis then phis else phis[k := Bump(old(variables.ssa), k)[k]]
      ensures eqs == if k in mine then [Eqn(Ver(k, phis'[k]), Ver(k, Count(end, k)))] else []
    {
      var fork := forks[|forks| - 1];
      var id: int;
      phis' := phis;
      if k !in phis {
        id := variables.AdvanceSSA(k);
        phis' := phis'[k := id];
      } else {
        id := phis[k];
      }
      assert CapsTo(fork[k], b, k, k in mine, Count(end, k));
      eqs := CapRule(fork[k], b, Ver(k, id));
    }

    /** Equations tying each variable branch `b` mentions to its phi. The first of the two
        calls for a fork creates the phis; the second finds them in `phis`. */
    method CapCond(b: string, phis: map<string, int>, ghost mine: set<string>, ghost end: Counters)
      returns (eqs: seq<Eqn>, phis': map<string, int>)
      requires forks != [] && HasBranch(forks[|forks| - 1], b, mine, end)
      requires forks[|forks| - 1].Keys <= variables.ssa.Keys
      modifies variables`ssa
      ensures variables.ssa == BumpAll(old(variables.ssa), forks[|forks| - 1].Keys - phis.Keys)
      ensures PhisFor(phis', phis, forks[|forks| - 1].Keys, variables.ssa)
      ensures IsArm(eqs, mine, phis', end)
    {
      hide IsArm, HasBranch, BumpAll, Bump, PhisFor;
      var fork := forks[|forks| - 1];
      var keys := fork.Keys;
      BranchMine(fork, b, mine, end);
      BumpNothing(variables.ssa, phis);
      eqs, phis' := [], phis;
      ghost var done := {};
      ArmNothing(phis', end);
      assert {} * mine == {};
      while keys != {}
        invariant forks == old(forks) && done <= fork.Keys && keys == fork.Keys - done
        invariant variables.ssa == BumpAll(old(variables.ssa), done - phis.Keys)
        invariant variables.ssa.Keys == old(variables.ssa).Keys
        invariant PhisFor(phis', phis, done, variables.ssa)
        invariant IsArm(eqs, done * mine, phis', end)
      {
        var k :| k in keys;
        ghost var phis0 := phis';
        BumpStep(old(variables.ssa), done, phis.Keys, k);
        PhisStep(phis', phis, done, variables.ssa, k);
        var more: seq<Eqn>;
        more, phis' := CapVariable(k, b, phis', mine, end);
        ArmGrows(eqs, more, done, mine, phis0, phis', end, k);
        eqs := eqs + more;
        keys, done := keys - {k}, done + {k};
      }
      assert done == fork.Keys && done * mine == mine;
    }
  
    /** The equation tying `k` to the version current on entry, and its stack update. */
    method SyncVariable(k: string) returns (eq: Eqn)
      requires NonEmpty(variables.phis) && k in variables.phis && k in variables.ssa && 0 <= variables.ssa[k]
      modifies variables
      ensures variables.ssa == old(variables.ssa)
      ensures variables.phis ==
        old(variables.phis)[k := SyncStack(old(variables.phis)[k], inPhiState.levels == 1, variables.ssa[k])]
      ensures eq == Eqn(Ver(k, variables.ssa[k]), Ver(k, Start(old(variables.phis)[k])))
    {
      var start := variables.GetStartState(k);
      var n := variables.GetSSA(k);
      eq := Eqn(Ver(k, n), Ver(k, start));
      if inPhiState.levels == 1 {
        variables.NewPhi(k, n);
      } else {
        variables.StoreLastState(k, n);
      }
    }

    /** One branch of `capCondSyncRules`: for each variable only branch `b` mentions, the
        other branch gets an equation to the version current on entry. */
    method SyncRules(b: string, ghost only: set<string>) returns (eqs: seq<Eqn>)
      requires forks != [] && SingleIn(forks[|forks| - 1], b, only)
      requires NonEmpty(variables.phis) && forks[|forks| - 1].Keys <= variables.phis.Keys <= variables.ssa.Keys
      requires forall x :: x in variables.phis ==> 0 <= variables.ssa[x]
      modifies variables
      ensures variables.ssa == old(variables.ssa)
      ensures SyncedFor(old(variables.phis), variables.phis, only, inPhiState.levels == 1, variables.ssa)
      ensures IsArm(eqs, only, variables.ssa, Starts(old(variables.phis)))
    {
      var fork := forks[|forks| - 1];
      var keys := fork.Keys;
      ghost var phis0, starts, done := variables.phis, Starts(variables.phis), {};
      assert only <= fork.Keys && {} * only == {};
      ArmNothing(variables.ssa, starts);
      SyncNothing(phis0, inPhiState.levels == 1, variables.ssa);
      hide IsArm, Start, SyncedFor, SyncStack, Starts;
      eqs := [];
      while keys != {}
        invariant forks == old(forks) && done <= fork.Keys && keys == fork.Keys - done
        invariant variables.ssa == old(variables.ssa)
        invariant SyncedFor(phis0, variables.phis, done * only, inPhiState.levels == 1, variables.ssa)
        invariant IsArm(eqs, done * only, variables.ssa, starts)
      {
        var k :| k in keys;
        var c := fork[k];
        SyncStep(phis0, variables.phis, done, only, inPhiState.levels == 1, variables.ssa, k);
        if |c| == 1 && c[0].branch == b {
          var eq := SyncVariable(k);
          ArmGrows(eqs, [eq], done, only, variables.ssa, variables.ssa, starts, k);
          eqs := eqs + [eq];
        } else {
          ArmGrows(eqs, [], done, only, variables.ssa, variables.ssa, starts, k);
          assert eqs + [] == eqs;
        }
        keys, done := keys - {k}, done + {k};
      }
      assert done * only == only;
    }
  
    /** The fork of a conditional whose arms emitted `t` and `f`. */
    method ForkArms(t: seq<Rule>, f: seq<Rule>, ghost xs: set<string>, ghost ys: set<string>,
                    ghost endT: Counters, ghost endF: Counters)
      requires Valid() && RulesStatic(t, show) && RulesStatic(f, show)
      requires UpTo(RulesVers(t), xs, endT) && UpTo(RulesVers(f), ys, endF)
      modifies this`forks
      ensures forks != [] && forks[|forks| - 1].Keys == xs + ys
      ensures IsFork(forks[|forks| - 1], xs, ys, endT, endF) && Armed(forks[|forks| - 1], t, f)
    {
      hide UpTo, IsBranched, IsFork, RulesStatic, RulesVers, Shows;
      NewFork();
      var okT := BuildForkChoice(t, "true");
      ghost var fork1 := forks[|forks| - 1];
      var okF := BuildForkChoice(f, "false");
      BuildsFork(fork1, forks[|forks| - 1], RulesVers(t), RulesVers(f), xs, ys, endT, endF);
      ForkBranches(forks[|forks| - 1], xs, ys, endT, endF);
    }

    /** The equations of both arms for the current fork, with the phis they create. */
    method CapArms(ghost xs: set<string>, ghost ys: set<string>, ghost endT: Counters, ghost endF: Counters)
      returns (tEnds: seq<Eqn>, fEnds: seq<Eqn>, phis: map<string, int>)
      requires forks != [] && IsFork(forks[|forks| - 1], xs, ys, endT, endF)
      requires xs + ys <= variables.ssa.Keys && CanBump(variables.ssa, xs + ys)
      requires forall x :: x in xs + ys ==> 0 <= variables.ssa[x]
      modifies variables`ssa
      ensures variables.ssa == BumpAll(old(variables.ssa), xs + ys) && variables.ssa.Keys == old(variables.ssa).Keys
      ensures PhisFor(phis, map[], xs + ys, variables.ssa)
      ensures IsArm(tEnds, xs, phis, endT) && IsArm(fEnds, ys, phis, endF)
    {
      hide IsArm, IsFork, Armed, HasBranch, PhisFor, BumpAll, CanBump;
      ForkBranches(forks[|forks| - 1], xs, ys, endT, endF);
      var none: map<string, int> := map[];
      assert xs + ys - none.Keys == xs + ys;
      tEnds, phis := CapCond("true", none, xs, endT);
      ghost var phisT := phis;
      BumpedOnce(old(variables.ssa), xs + ys, phis);
      fEnds, phis := CapCond("false", phis, ys, endF);
      PhisTwice(phisT, phis, xs + ys, variables.ssa);
    }

    /** `capCondSyncRules` for the current two-way fork: what each arm still lacks. */
    method CapCondSyncRules(ghost xs: set<string>, ghost ys: set<string>, ghost endT: Counters, ghost endF: Counters)
      returns (syncT: seq<Eqn>, syncF: seq<Eqn>)
      requires forks != [] && IsFork(forks[|forks| - 1], xs, ys, endT, endF)
      requires NonEmpty(variables.phis) && xs + ys <= variables.phis.Keys <= variables.ssa.Keys
      requires forall x :: x in variables.phis ==> 0 <= variables.ssa[x]
      modifies variables
      ensures variables.ssa == old(variables.ssa)
      ensures SyncedFor(old(variables.phis), variables.phis, (xs - ys) + (ys - xs),
                        inPhiState.levels == 1, variables.ssa)
      ensures IsArm(syncT, ys - xs, variables.ssa, Starts(old(variables.phis)))
      ensures IsArm(syncF, xs - ys, variables.ssa, Starts(old(variables.phis)))
    {
      hide IsArm, IsFork, Armed, HasBranch, SingleIn, SyncStack, Starts;
      ForkBranches(forks[|forks| - 1], xs, ys, endT, endF);
      ForkSingles(forks[|forks| - 1], xs, ys, endT, endF);
      syncF := SyncRules("true", xs - ys);
      ghost var phis1 := variables.phis;
      syncT := SyncRules("false", ys - xs);
      hide SyncedFor;
      SyncedTwice(old(variables.phis), phis1, variables.phis, xs - ys, ys - xs, inPhiState.levels == 1, variables.ssa);
      ArmSame(syncT, ys - xs, variables.ssa, Starts(phis1), variables.ssa, Starts(old(variables.phis)));
    }

    /** Caps a conditional whose arms emitted `t` and `f` (the part of parseTermCon under
        isBranchClosed), and returns the `Ite` with the phis it created. */
    method JoinArms(c: Cond<Ver>, t: seq<Rule>, f: seq<Rule>, ghost xs: set<string>, ghost ys: set<string>,
                    ghost endT: Counters, ghost endF: Counters, ghost before: Counters)
      returns (ite: Rule, phis: map<string, int>)
      requires Valid() && RulesStatic(t, show) && RulesStatic(f, show)
      requires UpTo(RulesVers(t), xs, endT) && UpTo(RulesVers(f), ys, endF)
      requires NonEmpty(variables.phis) && xs + ys <= variables.phis.Keys <= variables.ssa.Keys
      requires CanBump(variables.ssa, xs + ys) && forall x :: x in variables.phis ==> 0 <= variables.ssa[x]
      requires forall x :: x in xs + ys ==> Count(Starts(variables.phis), x) == Count(before, x)
      modifies this`forks, variables, inPhiState
      ensures variables.ssa == BumpAll(old(variables.ssa), xs + ys)
      ensures PhisFor(phis, map[], xs + ys, variables.ssa)
      ensures ite.Ite? && ite.c == c
      ensures IsArm(ite.t, xs + ys, variables.ssa, Ends(xs + ys, xs, endT, before))
      ensures IsArm(ite.f, xs + ys, variables.ssa, Ends(xs + ys, ys, endF, before))
      ensures SyncedFor(old(variables.phis), variables.phis, (xs - ys) + (ys - xs),
                        old(inPhiState.levels) == 0, variables.ssa)
      ensures inPhiState.levels == old(inPhiState.levels)
      ensures forks != [] && IsFork(forks[|forks| - 1], xs, ys, endT, endF) && Armed(forks[|forks| - 1], t, f)
    {
      hide UpTo, IsArm, IsFork, Armed, PhisFor, SyncedFor, Ends, BumpAll, Starts, RulesVers, CanBump, Last, Start,
           RulesStatic, Shows;
      inPhiState.In();
      ForkArms(t, f, xs, ys, endT, endF);
      var tEnds, fEnds;
      tEnds, fEnds, phis := CapArms(xs, ys, endT, endF);
      BumpedNonNegative(old(variables.ssa), xs + ys);
      var syncT, syncF := CapCondSyncRules(xs, ys, endT, endF);
      FullArm(tEnds, syncT, xs, ys, phis, variables.ssa, endT, Starts(old(variables.phis)), before);
      assert ys + xs == xs + ys;
      FullArm(fEnds, syncF, ys, xs, phis, variables.ssa, endF, Starts(old(variables.phis)), before);
      ite := Ite(c, tEnds + syncT, fEnds + syncF);
      inPhiState.Out();
    }
  
    /** Emits the `Ite` of a conditional unless both its arms emitted nothing. */
    method CapConditional(c: Cond<string>, cond: Outcome<Cond<Ver>>, t: seq<Rule>, f: seq<Rule>, ghost p: Prog,
                          ghost q: Prog, ghost codeT: Code, ghost codeF: Code, ghost ssa0: Counters)
      returns (join: Option<Rule>, phis: map<string, int>)
      requires Valid() && Encodes(p, ssa0, codeT) && t == Flatten(codeT)
      requires Encodes(q, Next(p, ssa0), codeF) && f == Flatten(codeF)
      requires Generable(p, ssa0, show) && Generable(q, Next(p, ssa0), show)
      requires !(Silent(p) && Silent(q)) ==> cond == Emitted(CondAt(ssa0, c))
      requires variables.ssa == Next(q, Next(p, ssa0)) && CanBump(variables.ssa, Forked(p) + Forked(q))
      requires NonEmpty(variables.phis) && Forked(p) + Forked(q) <= variables.phis.Keys <= variables.ssa.Keys
      requires forall x :: x in variables.phis ==> 0 <= variables.ssa[x]
      requires forall x :: x in variables.phis ==> Count(Starts(variables.phis), x) == Count(ssa0, x)
      modifies this`forks, variables, inPhiState
      ensures variables.ssa == NextIf(p, q, ssa0)
      ensures PhisFor(phis, map[], Forked(p) + Forked(q), variables.ssa)
      ensures SyncedFor(old(variables.phis), variables.phis, (Forked(p) - Forked(q)) + (Forked(q) - Forked(p)),
                        old(inPhiState.levels) == 0, variables.ssa)
      ensures inPhiState.levels == old(inPhiState.levels)
      ensures if Silent(p) && Silent(q) then join.None? else join.Some? && IsIte(join.value, c, p, q, ssa0)
      ensures join.Some? ==>
                && forks != [] && Armed(forks[|forks| - 1], t, f)
                && IsFork(forks[|forks| - 1], Forked(p), Forked(q), Next(p, ssa0), Next(q, Next(p, ssa0)))
    {
      hide Encodes, Generable, Forked, Next, Starts, UpTo, RulesVers, IsFork, Armed, IsArm, Ends, SyncStack, BumpAll,
           RulesStatic, Shows;
      ArmsStatic(p, q, ssa0, codeT, codeF, show);
      SilentEmitsNothing(p, ssa0, codeT);
      SilentEmitsNothing(q, Next(p, ssa0), codeF);
      if |t| != 0 || |f| != 0 {
        MentionsUpTo(p, ssa0, codeT);
        MentionsUpTo(q, Next(p, ssa0), codeF);
        var ite;
        ite, phis := JoinArms(cond.value, t, f, Forked(p), Forked(q), Next(p, ssa0), Next(q, Next(p, ssa0)), ssa0);
        join := Some(ite);
      } else {
        ClosedBranch(p, q, ssa0);
        join, phis := None, map[];
        SyncNothing(variables.phis, inPhiState.levels == 0, variables.ssa);
        assert Forked(p) - Forked(q) + (Forked(q) - Forked(p)) == {};
      }
    }

    /** Leaving a conditional: top frames go, and the phis are recorded in the ones below. */
    method CloseFrames(phis: map<string, int>, ghost ssa0: Counters, ghost phis0: Stacks, ghost armed: Stacks,
                       ghost one: set<string>)
      requires Synced(ssa0, phis0) && OnlyTops(Pushed(phis0), armed) && NonEmpty(armed)
      requires SyncedFor(armed, variables.phis, one, inPhiState.levels == 0, variables.ssa)
      requires one <= phis.Keys <= phis0.Keys
      requires variables.ssa.Keys == ssa0.Keys
      requires forall x :: x in variables.ssa ==>
        if x in phis then phis[x] == variables.ssa[x] >= 0 else variables.ssa[x] == ssa0[x]
      modifies variables
      ensures variables.ssa == old(variables.ssa)
      ensures Synced(variables.ssa, variables.phis) && variables.phis.Keys == phis0.Keys
      ensures inPhiState.levels > 0 ==> OnlyTops(phis0, variables.phis)
    {
      hide Synced, OnlyTops, SyncedFor, Pushed, Popped, Appended, NonEmpty, SyncStack, Last, Start;
      CapStacks(ssa0, phis0, armed, variables.phis, one, inPhiState.levels == 0, variables.ssa, phis);
      variables.PopPhis();
      variables.AppendState(phis);
    }

    /** Caps a conditional and leaves it. */
    method LeaveConditional(c: Cond<string>, cond: Outcome<Cond<Ver>>, t: seq<Rule>, f: seq<Rule>, ghost p: Prog,
                            ghost q: Prog, ghost codeT: Code, ghost codeF: Code, ghost ssa0: Counters,
                            ghost phis0: Stacks)
      returns (join: Option<Rule>)
      requires Valid() && Encodes(p, ssa0, codeT) && t == Flatten(codeT)
      requires Encodes(q, Next(p, ssa0), codeF) && f == Flatten(codeF)
      requires Generable(p, ssa0, show) && Generable(q, Next(p, ssa0), show)
      requires !(Silent(p) && Silent(q)) ==> cond == Emitted(CondAt(ssa0, c))
      requires variables.ssa == Next(q, Next(p, ssa0)) && CanBump(variables.ssa, Forked(p) + Forked(q))
      requires Synced(ssa0, phis0) && Synced(variables.ssa, variables.phis)
      requires OnlyTops(Pushed(phis0), variables.phis) && Forked(p) + Forked(q) <= phis0.Keys
      modifies this`forks, variables, inPhiState
      ensures variables.ssa == NextIf(p, q, ssa0)
      ensures Synced(variables.ssa, variables.phis) && variables.phis.Keys == phis0.Keys
      ensures inPhiState.levels == old(inPhiState.levels)
      ensures inPhiState.levels > 0 ==> OnlyTops(phis0, variables.phis)
      ensures if Silent(p) && Silent(q) then join.None? else join.Some? && IsIte(join.value, c, p, q, ssa0)
      ensures join.Some? ==>
                && forks != [] && Armed(forks[|forks| - 1], t, f)
                && IsFork(forks[|forks| - 1], Forked(p), Forked(q), Next(p, ssa0), Next(q, Next(p, ssa0)))
    {
      hide Encodes, Encodable, Emittable, Forked, Next, NextIf, Starts, IsFork, Armed, IsIte, SyncStack, Flatten,
           Synced, OnlyTops, SyncedFor, PhisFor, Pushed, Popped, Appended, CanBump, Silent, CondAt, Last, Start,
           Shows;
      ghost var armed, ssaF := variables.phis, variables.ssa;
      StartsKept(ssa0, phis0, armed);
      SyncedNonEmpty(ssaF, armed);
      IfGrows(p, q, ssa0);
      assert NonEmpty(armed) && (Forked(p) - Forked(q)) + (Forked(q) - Forked(p)) <= Forked(p) + Forked(q);
      var phis;
      join, phis := CapConditional(c, cond, t, f, p, q, codeT, codeF, ssa0);
      PhisGrown(ssa0, ssaF, variables.ssa, phis, Forked(p) + Forked(q));
      CloseFrames(phis, ssa0, phis0, armed, (Forked(p) - Forked(q)) + (Forked(q) - Forked(p)));
    }
  
    // The block walk.

    /** Walks an arm one level deeper than its conditional. */
    method ParseArm(blocks: seq<Block>, b: nat) returns (ru: seq<Rule>, ghost code: Code)
      requires Valid() && Synced(variables.ssa, variables.phis) && !parallelRunStart
      requires Traversable(blocks) && b < |blocks|
      requires Generable(Read(blocks, b), variables.ssa, show) && Stacked(Read(blocks, b)) <= variables.phis.Keys
      modifies this`forks, this`parallelRunStart, variables, inPhiState, returnVoid
      ensures Synced(variables.ssa, variables.phis) && !parallelRunStart
      ensures variables.ssa == Next(Read(blocks, b), old(variables.ssa))
      ensures Encodes(Read(blocks, b), old(variables.ssa), code) && ru == Flatten(code)
      ensures OnlyTops(old(variables.phis), variables.phis)
      ensures inPhiState.levels == old(inPhiState.levels)
      ensures returnVoid.levels == old(returnVoid.levels) + Returns(blocks, b)
      decreases |blocks| - b, 2
    {
      inPhiState.In();
      ru, code := ParseBlock(blocks, b);
      inPhiState.Out();
    }

    method ParseBlock(blocks: seq<Block>, b: nat) returns (ru: seq<Rule>, ghost code: Code)
      requires Valid() && Synced(variables.ssa, variables.phis) && !parallelRunStart
      requires Traversable(blocks) && b < |blocks|
      requires Generable(Read(blocks, b), variables.ssa, show) && Stacked(Read(blocks, b)) <= variables.phis.Keys
      modifies this`forks, this`parallelRunStart, variables, inPhiState, returnVoid
      ensures Synced(variables.ssa, variables.phis) && !parallelRunStart
      ensures variables.phis.Keys == old(variables.phis).Keys
      ensures variables.ssa == Next(Read(blocks, b), old(variables.ssa))
      ensures Encodes(Read(blocks, b), old(variables.ssa), code) && ru == Flatten(code)
      ensures old(inPhiState.levels) > 0 ==> OnlyTops(old(variables.phis), variables.phis)
      ensures inPhiState.levels == old(inPhiState.levels)
      ensures returnVoid.levels == old(returnVoid.levels) + Returns(blocks, b)
      decreases |blocks| - b, 1
    {
      hide Encodes, Generable, Stacked, Forked, Next, Flatten, OnlyTops, Synced;
      ghost var ssa0, phis0 := variables.ssa, variables.phis;
      ghost var insts, tail := blocks[b].insts, ReadTerm(blocks, b);
      ru := ParseInstruct(blocks[b].insts, tail);
      ghost var phis1 := variables.phis;
      StoresNext(insts, tail, ssa0);
      var r2: seq<Rule> := [];
      code := Nothing;
      if IsCond(blocks[b]) {
        r2, code := ParseTermCon(blocks, b);
      } else {
        NothingEncodes(variables.ssa);
        if blocks[b].term == Some(Ret) {
          returnVoid.In();
        }
      }
      if inPhiState.levels > 0 && IsCond(blocks[b]) {
        OnlyTopsTrans(phis0, phis1, variables.phis);
      }
      StoresEncode(insts, tail, ssa0, code);
      code := Prefix(StoreRules(insts, ssa0), code);
      ru := ru + r2;
    }

    method ParseTermCon(blocks: seq<Block>, b: nat) returns (ru: seq<Rule>, ghost code: Code)
      requires Valid() && Synced(variables.ssa, variables.phis) && !parallelRunStart
      requires Traversable(blocks) && b < |blocks| && IsCond(blocks[b])
      requires Generable(ReadTerm(blocks, b), variables.ssa, show)
      requires Stacked(ReadTerm(blocks, b)) <= variables.phis.Keys
      modifies this`forks, this`parallelRunStart, variables, inPhiState, returnVoid
      ensures Synced(variables.ssa, variables.phis) && !parallelRunStart
      ensures variables.phis.Keys == old(variables.phis).Keys
      ensures variables.ssa == Next(ReadTerm(blocks, b), old(variables.ssa))
      ensures Encodes(ReadTerm(blocks, b), old(variables.ssa), code) && ru == Flatten(code)
      ensures old(inPhiState.levels) > 0 ==> OnlyTops(old(variables.phis), variables.phis)
      ensures inPhiState.levels == old(inPhiState.levels)
      ensures returnVoid.levels == old(returnVoid.levels) + Returns(blocks, b)
      decreases |blocks| - b, 0
    {
      hide Encodes, Generable, Stacked, Forked, Next, NextIf, Flatten, OnlyTops, Synced, Pushed, CanBump, CondRefs,
           IsIte, IsFork, Silent, Shows, Connected, Printable;
      assert Branches(blocks, b);
      var CondBr(c, tb, fb) := blocks[b].term.value;
      var hasElse := blocks[fb].kind == False;
      ghost var p, q := Read(blocks, tb), if hasElse then Read(blocks, fb) else Done;
      ghost var rest := if hasElse then Done else Read(blocks, fb);
      ghost var ssa0, phis0 := variables.ssa, variables.phis;
      OpenIf(c, p, hasElse, q, rest, ssa0, show, phis0);

      inPhiState.In();
      GuardSucceeds(variables.ssa, c, show);
      var cond := ConvertCond(c);
      inPhiState.Out();
      variables.InitPhis();

      ghost var codeT, codeF;
      var t, f: seq<Rule>;
      t, codeT := ParseArm(blocks, tb);
      ghost var phis1 := variables.phis;
      f, codeF := [], Nothing;
      if hasElse {
        f, codeF := ParseArm(blocks, fb);
        OnlyTopsTrans(Pushed(phis0), phis1, variables.phis);
      } else {
        NothingEncodes(variables.ssa);
      }

      var join := LeaveConditional(c, cond, t, f, p, q, codeT, codeF, ssa0, phis0);
      ru := t + f + (if join.Some? then [join.value] else []);

      ghost var codeA := Nothing;
      ghost var phis2 := variables.phis;
      if hasElse {
        NothingEncodes(variables.ssa);
      } else {
        var after;
        after, codeA := ParseBlock(blocks, fb);
        ru := ru + after;
        if inPhiState.levels > 0 {
          OnlyTopsTrans(phis0, phis2, variables.phis);
        }
      }
      code := Branched(codeT, codeF, join, codeA);
      CloseIf(c, p, hasElse, q, rest, ssa0, code);
    }

    /** A whole function: its blocks are walked in order until a return has been met, and one
        return is forgotten again. */
    method ParseFunction(blocks: seq<Block>) returns (ru: seq<Rule>)
      requires Valid() && Synced(variables.ssa, variables.phis) && !parallelRunStart
      requires Traversable(blocks) && returnVoid.levels == 0
      requires Generable(ReadFrom(blocks, 0), variables.ssa, show)
      requires Stacked(ReadFrom(blocks, 0)) <= variables.phis.Keys
      modifies this`forks, this`parallelRunStart, variables, inPhiState, returnVoid
      ensures Synced(variables.ssa, variables.phis) && !parallelRunStart
      ensures variables.ssa == Next(ReadFrom(blocks, 0), old(variables.ssa))
      ensures Produces(ReadFrom(blocks, 0), old(variables.ssa), show, ru)
      ensures inPhiState.levels == old(inPhiState.levels)
      ensures returnVoid.levels == if ReturnsFrom(blocks, 0) > 0 then ReturnsFrom(blocks, 0) - 1 else 0
      ensures variables.phis.Keys == old(variables.phis).Keys
    {
      hide Encodes, Stacked, Next, Flatten, Synced, OnlyTops, Encodable, Emittable, Emitting, Shows;
      EmissionSucceeds(ReadFrom(blocks, 0), variables.ssa, show);
      hide Generable;
      ghost var ssa0, done, code, rest := variables.ssa, Done, Nothing, ReadFrom(blocks, 0);
      NothingEncodes(ssa0);
      ru := [];
      var i := 0;
      while i < |blocks|
        invariant 0 <= i <= |blocks|
        invariant Synced(variables.ssa, variables.phis) && !parallelRunStart
        invariant variables.phis.Keys == old(variables.phis).Keys
        invariant rest == if returnVoid.levels > 0 then Done else ReadFrom(blocks, i)
        invariant ReturnsFrom(blocks, 0) == if returnVoid.levels > 0 then returnVoid.levels else ReturnsFrom(blocks, i)
        invariant ReadFrom(blocks, 0) == Append(done, rest)
        invariant variables.ssa == Next(done, ssa0) && Encodes(done, ssa0, code) && ru == Flatten(code)
        invariant Generable(rest, variables.ssa, show) && Stacked(rest) <= variables.phis.Keys
        invariant inPhiState.levels == old(inPhiState.levels)
      {
        if !returnVoid.Check() {
          ghost var p, ssa1 := Read(blocks, i), variables.ssa;
          ghost var rest' := if Returns(blocks, i) > 0 then Done else ReadFrom(blocks, i + 1);
          assert rest == Append(p, rest');
          SplitGenerable(p, rest', ssa1, show);
          var r, codeB := ParseBlock(blocks, i);
          AppendEncodes(done, p, ssa0, code, codeB);
          AppendAssoc(done, p, rest');
          ru := ru + r;
          done, code, rest := Append(done, p), AppendCode(code, codeB), rest';
        }
        i := i + 1;
      }
      AppendDone(done);
      returnVoid.Out();
    }

    /** Functions one after the other, as plain calls parse them. Each meets one return, so
        the next finds none pending. */
    method ParseFunctions(fns: seq<seq<Block>>) returns (ru: seq<Rule>)
      requires Valid() && Synced(variables.ssa, variables.phis) && !parallelRunStart && returnVoid.levels == 0
      requires Returning(fns)
      requires Generable(ReadAll(fns), variables.ssa, show) && Stacked(ReadAll(fns)) <= variables.phis.Keys
      modifies this`forks, this`parallelRunStart, variables, inPhiState, returnVoid
      ensures Synced(variables.ssa, variables.phis) && !parallelRunStart
      ensures variables.ssa == Next(ReadAll(fns), old(variables.ssa))
      ensures Produces(ReadAll(fns), old(variables.ssa), show, ru)
      ensures inPhiState.levels == old(inPhiState.levels) && returnVoid.levels == 0
    {
      hide Encodes, Stacked, Next, Flatten, Synced, Encodable, Emittable, Emitting, Shows, Traversable;
      EmissionSucceeds(ReadAll(fns), variables.ssa, show);
      ghost var ssa0, done, code := variables.ssa, Done, Nothing;
      NothingEncodes(ssa0);
      assert fns[0..] == fns;
      ru := [];
      var i := 0;
      while i < |fns|
        invariant 0 <= i <= |fns| && returnVoid.levels == 0
        invariant Synced(variables.ssa, variables.phis) && !parallelRunStart && Returning(fns[i..])
        invariant ReadAll(fns) == Append(done, ReadAll(fns[i..]))
        invariant variables.ssa == Next(done, ssa0) && Encodes(done, ssa0, code) && ru == Flatten(code)
        invariant Generable(ReadAll(fns[i..]), variables.ssa, show)
        invariant Stacked(ReadAll(fns[i..])) <= variables.phis.Keys
        invariant inPhiState.levels == old(inPhiState.levels)
      {
        NextFunction(fns, i, variables.ssa, show);
        ghost var p, rest, ssa1 := ReadFrom(fns[i], 0), ReadAll(fns[i + 1..]), variables.ssa;
        var r := ParseFunction(fns[i]);
        ghost var codeF := Models.CodeOf(p, ssa1, r);
        AppendEncodes(done, p, ssa0, code, codeF);
        AppendAssoc(done, p, rest);
        ru := ru + r;
        done, code := Append(done, p), AppendCode(code, codeF);
        i := i + 1;
      }
      assert fns[i..] == [];
      AppendDone(done);
    }

    // Groups of flows.

    /** The function of a flow: one block, with one store and a return. */
    method ParseFlow(f: Flow) returns (ru: seq<Rule>)
      requires Valid() && NonEmpty(variables.phis) && returnVoid.levels == 0
      requires Refs(Body(f)) <= variables.ssa.Keys && 0 <= Count(variables.ssa, f.x) < MAX_VERSION
      requires StoreResult(variables.ssa, f.x,
        StoreTerm(variables.ssa, Starts(variables.phis), f.x, Body(f), parallelRunStart), show).Some?
      modifies variables, this`parallelRunStart, returnVoid
      ensures variables.ssa == Bump(old(variables.ssa), f.x) && returnVoid.levels == 0
      ensures variables.phis ==
              StorePhis(old(variables.phis), inPhiState.Check(), f.x, Count(old(variables.ssa), f.x) + 1)
      ensures ru == [old(StoreResult(variables.ssa, f.x,
        StoreTerm(variables.ssa, Starts(variables.phis), f.x, Body(f), parallelRunStart), show).value)]
      ensures parallelRunStart == StoreFlag(Body(f), old(parallelRunStart))
    {
      hide Starts, NonEmpty, StoreTerm, StoreResult, StoreFlag, StorePhis, Shows, Bump;
      ru := [];
      if !returnVoid.Check() {
        var stored := StoreRule(f.x, Body(f));
        ru := [stored.value];
        returnVoid.In();
      }
      returnVoid.Out();
    }

    /** The generator's state as flows see it. */
    function State(): Enc
      requires NonEmpty(variables.phis)
      reads this, variables, inPhiState
    {
      Enc(variables.ssa, Starts(variables.phis), inPhiState.levels)
    }

    /** One call of a group: it reads its first variable from that variable's frame, and is
        generated as though outside any conditional or group. */
    method RunCall(f: Flow) returns (ru: seq<Rule>)
      requires Valid() && NonEmpty(variables.phis) && inPhiState.levels <= 1 && !parallelRunStart
      requires returnVoid.levels == 0
      requires {f.x} + Refs(f.rest) <= variables.ssa.Keys && f.x in variables.phis
      requires 0 <= variables.ssa[f.x] && CanBump(variables.ssa, {f.x})
      modifies this`parallelRunStart, variables, inPhiState, returnVoid
      ensures NonEmpty(variables.phis) && variables.phis.Keys == old(variables.phis.Keys)
      ensures ru == [FlowRule(f, old(variables.ssa), old(Starts(variables.phis)))] && returnVoid.levels == 0
      ensures variables.ssa == Bump(old(variables.ssa), f.x)
      ensures Starts(variables.phis) == old(Starts(variables.phis))[f.x := Advanced(old(variables.ssa), f.x)]
      ensures inPhiState.levels == 1 && !parallelRunStart
    {
      hide NonEmpty, StorePhis, StoreTerm, StoreResult, StoreFlag, Starts, Shows;
      StoreStarts(f, variables.ssa, Starts(variables.phis), show);
      StoreOpens(variables.phis, f.x, Count(variables.ssa, f.x) + 1);
      parallelRunStart := true;
      inPhiState.Out();
      ru := ParseFlow(f);
      inPhiState.In();
    }

    /** One order of a group. */
    method RunOrder(calls: seq<Flow>) returns (raw: seq<Rule>)
      requires Valid() && NonEmpty(variables.phis) && NonNegative(variables.ssa) && inPhiState.levels <= 1
      requires Mentioned(calls) <= variables.ssa.Keys && Written(calls) <= variables.phis.Keys
      requires Fits(calls, variables.ssa) && calls != [] && !parallelRunStart && returnVoid.levels == 0
      modifies this`parallelRunStart, variables, inPhiState, returnVoid
      ensures NonEmpty(variables.phis) && variables.phis.Keys == old(variables.phis.Keys)
      ensures raw == OrderRules(calls, old(variables.ssa), old(Starts(variables.phis)))
      ensures variables.ssa == OrderNext(calls, old(variables.ssa))
      ensures inPhiState.levels == 1 && !parallelRunStart && returnVoid.levels == 0
    {
      hide NonEmpty, Starts, FlowRule, OrderRules, OrderNext, Fits, Mentioned, Written, Advanced, Bump;
      ghost var ssa0, starts0 := variables.ssa, Starts(variables.phis);
      raw := [];
      var i := 0;
      assert calls[0..] == calls;
      while i < |calls|
        invariant 0 <= i <= |calls| && inPhiState.levels <= 1 && (i > 0 ==> inPhiState.levels == 1) && !parallelRunStart
        invariant returnVoid.levels == 0
        invariant NonEmpty(variables.phis) && variables.phis.Keys == old(variables.phis.Keys)
        invariant NonNegative(variables.ssa) && variables.ssa.Keys == ssa0.Keys && Fits(calls[i..], variables.ssa)
        invariant OrderRules(calls, ssa0, starts0) ==
          raw + OrderRules(calls[i..], variables.ssa, Starts(variables.phis))
        invariant OrderNext(calls, ssa0) == OrderNext(calls[i..], variables.ssa)
      {
        var f := calls[i];
        NextCall(calls, i, variables.ssa, Starts(variables.phis));
        var r := RunCall(f);
        raw := raw + r;
        i := i + 1;
      }
      assert calls[i..] == [];
      NoCalls(variables.ssa, Starts(variables.phis));
    }

    /** One option of a group's fork: its rules, its choices, and everything back to where
        the group started; not `ok` is the panic of the fork. */
    method RunOption(calls: seq<Flow>) returns (raw: seq<Rule>, ok: bool)
      requires Valid() && NonEmpty(variables.phis) && NonNegative(variables.ssa) && inPhiState.levels <= 1
      requires NonNegative(Starts(variables.phis)) && forks != []
      requires Mentioned(calls) <= variables.ssa.Keys && Written(calls) <= variables.phis.Keys
      requires Fits(calls, variables.ssa) && calls != [] && !parallelRunStart && returnVoid.levels == 0
      modifies this`forks, this`parallelRunStart, variables, inPhiState, returnVoid
      ensures NonEmpty(variables.phis) && (ok ==> Starts(variables.phis) == old(Starts(variables.phis)))
      ensures ok <==> FlowsStatic(calls, show)
      ensures raw == OrderRules(calls, old(variables.ssa), old(Starts(variables.phis)))
      ensures variables.ssa == OrderNext(calls, old(variables.ssa))
      ensures inPhiState.levels == 1 && !parallelRunStart && returnVoid.levels == 0
      ensures forks != [] && (ok ==> IsBranched(forks[|forks| - 1], old(forks[|forks| - 1]), RulesVers(raw), ""))
    {
      hide OrderRules, OrderNext, IsBranched, Fits, Start, Last, Written, Mentioned, RulesVers, FlowsStatic,
           RulesStatic, Shows;
      ghost var ssa0, starts0 := variables.ssa, Starts(variables.phis);
      var varState := variables.SaveState();
      assert varState == Starts(variables.phis);
      assert -1 !in varState.Values;
      hide Starts, NonEmpty;
      raw := RunOrder(calls);
      OrderReads(calls, ssa0, starts0, show);
      ok := BuildForkChoice(raw, "");
      if !ok {
        return;
      }
      StartsLoaded(variables.phis, varState);
      variables.LoadState(varState);
    }

    /** The phi of one variable of a group. */
    method CapOption(k: string, ghost ends: seq<int>) returns (cap: Rule)
      requires forks != [] && k in forks[|forks| - 1] && k in variables.phis && NonEmpty(variables.phis)
      requires Filled(forks[|forks| - 1][k]) && ChoiceEndsOf(forks[|forks| - 1][k]) == ends
      modifies variables
      requires k in variables.ssa && 0 <= variables.ssa[k] < MAX_VERSION
      ensures variables.ssa == Bump(old(variables.ssa), k)
      ensures variables.phis ==
              old(variables.phis)[k := SyncStack(old(variables.phis)[k], inPhiState.levels == 1, variables.ssa[k])]
      ensures NonEmpty(variables.phis) && cap == Phi(Ver(k, variables.ssa[k]), ends)
    {
      var v := forks[|forks| - 1][k];
      var id := variables.AdvanceSSA(k);
      var nums: seq<int> := [];
      var i := 0;
      while i < |v|
        invariant 0 <= i <= |v| && nums == ends[..i]
      {
        nums := nums + [GetEnd(v[i])];
        i := i + 1;
      }
      assert nums == ends;
      cap := Phi(Ver(k, id), nums);
      if inPhiState.levels == 1 {
        variables.NewPhi(k, id);
      } else {
        variables.StoreLastState(k, id);
      }
    }

    /** A fresh version of every variable of the fork, tied to the end of one option. */
    method CapParallel(ghost perms: seq<seq<Flow>>, ghost ssa0: Counters, ghost starts0: Counters)
      returns (ru: seq<Rule>)
      requires forks != [] && Ready(forks[|forks| - 1], perms, ssa0, starts0)
      requires variables.ssa == OrdersNext(perms, ssa0) && NonNegative(variables.ssa)
      requires NonEmpty(variables.phis) && forks[|forks| - 1].Keys <= variables.phis.Keys <= variables.ssa.Keys
      requires CanBump(variables.ssa, forks[|forks| - 1].Keys)
      modifies variables
      ensures variables.ssa == BumpAll(old(variables.ssa), forks[|forks| - 1].Keys)
      ensures SyncedFor(old(variables.phis), variables.phis, forks[|forks| - 1].Keys,
                        inPhiState.levels == 1, variables.ssa)
      ensures IsCap(ru, forks[|forks| - 1].Keys, perms, ssa0, starts0)
    {
      hide IsCap, SyncedFor, BumpAll, OrdersNext, OrderEnds, ChoiceEndsOf, Filled, NonEmpty, SyncStack, Bump, Advanced;
      var fork := forks[|forks| - 1];
      ghost var ssa1, phis0, done, outermost := variables.ssa, variables.phis, {}, inPhiState.levels == 1;
      BumpAllNothing(ssa1);
      SyncNothing(phis0, outermost, ssa1);
      CapNothing(perms, ssa0, starts0);
      ru := [];
      var keys := fork.Keys;
      while keys != {}
        invariant forks == old(forks) && done <= fork.Keys && keys == fork.Keys - done
        invariant variables.ssa == BumpAll(ssa1, done) && NonEmpty(variables.phis)
        invariant variables.phis.Keys == phis0.Keys
        invariant SyncedFor(phis0, variables.phis, done, outermost, variables.ssa)
        invariant IsCap(ru, done, perms, ssa0, starts0)
      {
        var k :| k in keys;
        BumpAllStep(ssa1, done, k);
        BumpAllAt(ssa1, done, k);
        SyncedBump(phis0, variables.phis, done, outermost, variables.ssa, k);
        CapSnoc(ru, done, perms, ssa0, starts0, k);
        var cap := CapOption(k, OrderEnds(perms, ssa0, starts0, k));
        ru := ru + [cap];
        keys, done := keys - {k}, done + {k};
      }
      assert done == fork.Keys;
    }

    /** The options of a group, each from the same start. */
    method RunOptions(perm: seq<seq<Flow>>, ghost fs: seq<Flow>) returns (ru: seq<Rule>, ok: bool)
      requires Valid() && NonEmpty(variables.phis) && Tidy(State()) && !parallelRunStart && returnVoid.levels == 0
      requires |fs| > 1 && perm == Permuts(fs, 0) && StepFits(fs, State())
      requires forks != [] && forks[|forks| - 1] == map[]
      modifies this`forks, this`parallelRunStart, variables, inPhiState, returnVoid
      ensures NonEmpty(variables.phis) && forks != [] && returnVoid.levels == 0 && (ok <==> FlowsStatic(fs, show))
      ensures ok ==> Starts(variables.phis) == old(Starts(variables.phis))
      ensures ok ==> inPhiState.levels == 1 && !parallelRunStart && Tidy(State())
      ensures ok ==>
        variables.ssa.Keys == old(variables.ssa.Keys) && variables.ssa == OrdersNext(perm, old(variables.ssa))
      ensures ok ==> Recorded(forks[|forks| - 1], Mentioned(fs), perm, old(variables.ssa),
        old(Starts(variables.phis)), |perm|, variables.ssa)
      ensures ok ==> ru == OrdersRules(perm, old(variables.ssa), old(Starts(variables.phis)))
    {
      hide Mentioned, Written, OrderRules, OrderNext, OrdersRules, OrdersNext, OrderEnds, Permuts, Recorded,
           RulesVers, AllFit, Fits, IsBranched, NonEmpty, Starts, CanBump, Sound, NonNegative,
           Start, Tidy, StepFits, Last, Bases, FirstOptions, Runnable, Shows, FlowsStatic;
      ghost var enc := State();
      ghost var xs, w := Mentioned(fs), Written(fs);
      TidySound(enc);
      OptionsOf(fs, enc);
      OrdersStatic(fs, show);
      RecordNothing(xs, perm, enc.ssa, enc.starts);
      NoOptions(perm, xs, w, enc.ssa, enc.starts);
      ru, ok := [], true;
      var i := 0;
      while i < |perm|
        invariant 0 <= i <= |perm| && forks != [] && ok && (i > 0 ==> FlowsStatic(fs, show))
        invariant inPhiState.levels == (if i == 0 then enc.level else 1) && !parallelRunStart
        invariant NonEmpty(variables.phis) && Starts(variables.phis) == enc.starts && Tidy(State())
        invariant returnVoid.levels == 0
        invariant FirstOptions(perm, i, ru, xs, w, enc.ssa, enc.starts, variables.ssa)
        invariant Recorded(forks[|forks| - 1], xs, perm, enc.ssa, enc.starts, i, variables.ssa)
      {
        var calls := perm[i];
        ghost var ssa, fork := variables.ssa, forks[|forks| - 1];
        TidySound(State());
        NextOption(perm, i, ru, xs, w, enc.ssa, enc.starts, ssa);
        StaysTidy(ssa, OrderNext(calls, ssa), enc.starts, inPhiState.levels);
        StartsKeys(variables.phis);
        var raw;
        raw, ok := RunOption(calls);
        if !ok {
          return;
        }
        RecordStep(fork, forks[|forks| - 1], xs, perm, enc.ssa, enc.starts, i, ssa, RulesVers(raw));
        ru := ru + raw;
        i := i + 1;
      }
      AllOptions(perm, ru, xs, w, enc.ssa, enc.starts, variables.ssa);
    }

    /** Runs the options, then caps the fork. */
    method RunParallel(perm: seq<seq<Flow>>, ghost fs: seq<Flow>) returns (ru: seq<Rule>, ok: bool)
      requires Valid() && NonEmpty(variables.phis) && Tidy(State()) && !parallelRunStart && returnVoid.levels == 0
      requires |fs| > 1 && perm == Permuts(fs, 0) && StepFits(fs, State())
      modifies this`forks, this`parallelRunStart, variables, inPhiState, returnVoid
      ensures NonEmpty(variables.phis) && returnVoid.levels == 0 && (ok <==> FlowsStatic(fs, show))
      ensures ok ==> StepEmits(fs, old(State()), ru) && State() == StepNext(fs, old(State())) && !parallelRunStart
      ensures ok ==> forks != [] && forks[|forks| - 1].Keys == Mentioned(fs)
      ensures ok ==> Ready(forks[|forks| - 1], perm, old(State()).ssa, old(State()).starts)
      ensures ok ==> Chosen(forks[|forks| - 1], perm, old(State()).ssa, old(State()).starts)
    {
      hide Mentioned, Written, OrdersRules, OrdersNext, Permuts, Recorded, AllFit, IsCap, NonEmpty, Starts,
           SyncedFor, CanBump, Restart, BumpAll, Ready, Chosen, StepEmits, Runnable, FlowsStatic;
      ghost var enc := State();
      TidySound(enc);
      OptionsOf(fs, enc);
      NewFork();
      ru, ok := RunOptions(perm, fs);
      if !ok {
        return;
      }
      RecordedAll(forks[|forks| - 1], Mentioned(fs), perm, enc.ssa, enc.starts, variables.ssa);
      StartsKeys(variables.phis);
      ghost var phis0 := variables.phis;
      var caps := CapParallel(perm, enc.ssa, enc.starts);
      SyncedRestarts(phis0, variables.phis, Mentioned(fs), variables.ssa);
      GroupEmitted(fs, enc, ru, caps);
      ru := ru + caps;
    }

    /** One callstack: nothing, a plain flow, or a group in all orders. */
    method GenerateFromCallstack(callstack: seq<Flow>) returns (ru: seq<Rule>, ok: bool)
      requires Valid() && NonEmpty(variables.phis) && Tidy(State()) && !parallelRunStart && returnVoid.levels == 0
      requires StepFits(callstack, State())
      modifies this`forks, this`parallelRunStart, variables, inPhiState, returnVoid
      ensures NonEmpty(variables.phis) && returnVoid.levels == 0
      ensures ok <==> (|callstack| > 1 ==> FlowsStatic(callstack, show))
      ensures ok ==> !parallelRunStart && Tidy(State())
      ensures ok ==> StepEmits(callstack, old(State()), ru) && State() == StepNext(callstack, old(State()))
    {
      hide Starts, NonEmpty, Permuts, StepEmits, StepFits, Tidy, StepNext, StorePhis, StoreTerm, StoreResult,
           StoreFlag, Advanced, Bump, Shows, FlowsStatic;
      ghost var enc := State();
      StepTidy(callstack, enc);
      NothingEmitted(enc);
      if |callstack| == 0 {
        assert callstack == [];
        ru, ok := [], true;
      } else if |callstack| > 1 {
        var p := new Flow[|callstack|](i requires 0 <= i < |callstack| => callstack[i]);
        assert p[..] == callstack;
        var perm := ParallelPermutations(p);
        ru, ok := RunParallel(perm, callstack);
      } else {
        assert callstack == [callstack[0]];
        SingleStore(callstack[0], callstack, variables.ssa, variables.phis, inPhiState.levels, show);
        ru := ParseFlow(callstack[0]);
        ok := true;
      }
    }

    /** The callstacks of a run, one after the other. */
    method GenerateRun(callstacks: seq<seq<Flow>>) returns (rs: seq<seq<Rule>>, ok: bool)
      requires Valid() && NonEmpty(variables.phis) && Tidy(State()) && !parallelRunStart && returnVoid.levels == 0
      requires RunFits(callstacks, State())
      modifies this`forks, this`parallelRunStart, variables, inPhiState, returnVoid
      ensures NonEmpty(variables.phis) && returnVoid.levels == 0 && (ok <==> GroupsStatic(callstacks, show))
      ensures ok ==> !parallelRunStart && Tidy(State())
      ensures ok ==> RunEmits(callstacks, old(State()), rs) && State() == RunNext(callstacks, old(State()))
    {
      hide StepEmits, StepFits, StepNext, Tidy, NonEmpty, Starts, FlowsStatic;
      ghost var enc := State();
      rs, ok := [], true;
      assert callstacks[0..] == callstacks && callstacks[..0] == [];
      var i := 0;
      while i < |callstacks|
        invariant 0 <= i <= |callstacks| && NonEmpty(variables.phis) && !parallelRunStart && Tidy(State())
        invariant ok && GroupsStatic(callstacks[..i], show) && returnVoid.levels == 0
        invariant RunFits(callstacks[i..], State()) && RunNext(callstacks, enc) == RunNext(callstacks[i..], State())
        invariant RunEmits(callstacks[..i], enc, rs) && RunNext(callstacks[..i], enc) == State()
      {
        assert callstacks[i..][0] == callstacks[i] && callstacks[i..][1..] == callstacks[i + 1..];
        ghost var mid := State();
        var ru;
        ru, ok := GenerateFromCallstack(callstacks[i]);
        if !ok {
          return;
        }
        assert callstacks[..i + 1] == callstacks[..i] + [callstacks[i]];
        RunSnoc(callstacks[..i], enc, rs, callstacks[i], ru);
        rs := rs + [ru];
        i := i + 1;
      }
      assert callstacks[..i] == callstacks;
    }
  }
}
