/** The exact meaning of the rules for any sequence of callstacks, however its flows read and
    whichever frames are stale: what is allowed is what the encoder's own run of the
    callstacks leads to, with one option of each group picked for each variable. */
module ParallelRuns {
  import opened Lang
  import opened Emission
  import opened Encoding
  import opened Exactness
  import opened Forks
  import opened Orders
  import opened Permutations
  import opened Parallel
  import opened ParallelModels
  import opened ParallelReads

  // What a group only reads.

  /** The variables an expression reads at their newest version. */
  function NewestRefs(e: Expr<string>, start: bool): set<string> {
    match e
    case Lit(_) => {}
    case Ref(x) => if start then {} else {x}
    case Bin(_, l, r) =>
      var afterL := if l.Bin? then FlagAfter(l, start) else start;
      var afterR := if r.Bin? then FlagAfter(r, afterL) else afterL;
      NewestRefs(l, if l.Bin? then start else afterR)
      + NewestRefs(r, if r.Bin? then afterL else if l.Bin? then afterR else FlagAfter(l, afterR))
  }

  lemma {:induction false} ConvertNewestRefs(ssa: Counters, starts: Counters, e: Expr<string>, start: bool)
    ensures forall x :: x in NewestRefs(e, start) ==> Ver(x, Count(ssa, x)) in Refs(Convert(ssa, starts, e, start))
    ensures forall v :: v in Refs(Convert(ssa, starts, e, start)) ==>
      v.base in NewestRefs(e, start) || v.num == Count(starts, v.base)
  {
    match e
    case Lit(_) =>
    case Ref(_) =>
    case Bin(_, l, r) =>
      var afterL := if l.Bin? then FlagAfter(l, start) else start;
      var afterR := if r.Bin? then FlagAfter(r, afterL) else afterL;
      ConvertNewestRefs(ssa, starts, l, if l.Bin? then start else afterR);
      ConvertNewestRefs(ssa, starts, r, if r.Bin? then afterL else if l.Bin? then afterR else FlagAfter(l, afterR));
  }

  /** Some flow reads `x` at its newest version. */
  predicate ReadsNewest(fs: seq<Flow>, x: string) {
    exists f :: f in fs && x in NewestRefs(Body(f), true)
  }

  /** What a variable that is only read ends at: its newest version if some flow reads that,
      and otherwise where its frame starts. */
  function ReadAt(fs: seq<Flow>, ssa: Counters, starts: Counters, x: string): int {
    if ReadsNewest(fs, x) then Count(ssa, x) else Count(starts, x)
  }

  /** The versions of a variable that is only read are bounded by that, and it is mentioned. */
  ghost predicate ReadsAt(changes: seq<Ver>, fs: seq<Flow>, ssa: Counters, starts: Counters, x: string) {
    && (forall v :: v in changes && v.base == x && !ReadsNewest(fs, x) ==> v.num == Count(starts, x))
    && (ReadsNewest(fs, x) ==> Ver(x, Count(ssa, x)) in changes)
  }

  lemma FlowReadsAt(f: Flow, ssa: Counters, starts: Counters, x: string)
    requires f.x != x
    ensures ReadsAt(RuleVers(FlowRule(f, ssa, starts)), [f], ssa, starts, x)
  {
    ConvertNewestRefs(ssa, starts, Body(f), true);
    VersAreRefs(Convert(ssa, starts, Body(f), true));
    OneReads(f, x);
  }

  lemma OneReads(f: Flow, x: string)
    ensures ReadsNewest([f], x) <==> x in NewestRefs(Body(f), true)
  {
    assert f in [f];
  }

  lemma FirstReads(fs: seq<Flow>, x: string)
    requires fs != []
    ensures ReadsNewest(fs, x) <==> ReadsNewest([fs[0]], x) || ReadsNewest(fs[1..], x)
  {
    OneReads(fs[0], x);
    assert fs[0] in fs;
    hide NewestRefs;
    if ReadsNewest(fs, x) {
      var f :| f in fs && x in NewestRefs(Body(f), true);
      assert f == fs[0] || f in fs[1..];
    }
  }

  lemma {:induction false} OrderReadsAt(fs: seq<Flow>, ssa: Counters, starts: Counters, x: string)
    requires x !in Written(fs)
    ensures ReadsAt(RulesVers(OrderRules(fs, ssa, starts)), fs, ssa, starts, x)
    decreases |fs|
  {
    hide FlowRule, RuleVers, ReadsNewest;
    if fs == [] {
      NoReads(x);
    } else {
      var f, gs := fs[0], fs[1..];
      assert f.x in Written(fs) && Written(gs) <= Written(fs);
      var ssa', starts' := Bump(ssa, f.x), starts[f.x := Advanced(ssa, f.x)];
      FlowReadsAt(f, ssa, starts, x);
      FirstReads(fs, x);
      OrderReadsAt(gs, ssa', starts', x);
      var r, ru := FlowRule(f, ssa, starts), OrderRules(gs, ssa', starts');
      assert OrderRules(fs, ssa, starts) == [r] + ru && ([r] + ru)[1..] == ru;
    }
  }

  lemma NoReads(x: string)
    ensures !ReadsNewest([], x)
  {
  }

  /** Whatever the order. */
  lemma {:induction false} ReadsEndAt(perms: seq<seq<Flow>>, fs: seq<Flow>, xs: set<string>, w: set<string>,
                                      ssa: Counters, starts: Counters, x: string)
    requires Runnable(perms, xs, w, ssa, starts) && x in xs - w
    requires forall i :: 0 <= i < |perms| ==> SameFlows(perms[i], fs)
    ensures forall n :: n in OrderEnds(perms, ssa, starts, x) ==> n == ReadAt(fs, ssa, starts, x)
    decreases |perms|
  {
    hide Mentioned, Written, OrderNext, OrderRules, AllFit, Fits, EndOf, RulesVers, Runnable, ReadsNewest,
         SameFlows;
    if perms != [] {
      FirstRuns(perms, xs, w, ssa, starts);
      SameReads(perms[0], fs, x);
      ReadEndAt(perms[0], ssa, starts, x);
      ReadsEndAt(perms[1..], fs, xs, w, OrderNext(perms[0], ssa), starts, x);
    }
  }

  lemma SameReads(fs: seq<Flow>, gs: seq<Flow>, x: string)
    requires SameFlows(fs, gs)
    ensures ReadsNewest(fs, x) <==> ReadsNewest(gs, x)
  {
    hide NewestRefs;
    assert forall f :: f in fs <==> f in multiset(fs);
    assert forall f :: f in gs <==> f in multiset(gs);
  }

  lemma ReadEndAt(fs: seq<Flow>, ssa: Counters, starts: Counters, x: string)
    requires Fits(fs, ssa) && StartsExist(starts, ssa, Mentioned(fs))
    requires x in Mentioned(fs) - Written(fs)
    ensures EndOf(RulesVers(OrderRules(fs, ssa, starts)), x) == ReadAt(fs, ssa, starts, x)
  {
    var changes := RulesVers(OrderRules(fs, ssa, starts));
    OrderMentions(fs, ssa, starts);
    OrderReadsAt(fs, ssa, starts, x);
    assert StartsExist(starts, ssa, Mentioned(fs)) && Count(starts, x) <= Count(ssa, x);
    hide OrderRules, RulesVers, EndOf, ReadsNewest, Mentioned, Written, Fits, OrderNext, StartsExist;
    if ReadsNewest(fs, x) {
      EndsAt(changes, x, Count(ssa, x));
    } else {
      EndsAt(changes, x, Count(starts, x));
    }
  }

  // One callstack.

  /** What a group leaves in the variables it mentions, each variable it writes taking the
      option picked for it. */
  function AfterGroup(fs: seq<Flow>, pick: map<string, nat>, mem: Mem, div0: real -> real): Store
    requires Picks(pick, Written(fs), |Permuts(fs, 0)|)
  {
    OptionCount(Permuts(fs, 0), mem.cur, mem.start, div0);
    var runs := OptionRuns(Permuts(fs, 0), mem.cur, mem.start, div0);
    map x | x in Mentioned(fs) ::
      if x in Written(fs) then Lookup(runs[pick[x]])(x)
      else Lookup(if ReadsNewest(fs, x) then mem.cur else mem.start)(x)
  }

  /** Picks are only needed for groups. */
  predicate StepPicks(fs: seq<Flow>, pick: map<string, nat>) {
    |fs| > 1 ==> Picks(pick, Written(fs), |Permuts(fs, 0)|)
  }

  /** The encoder's own run of a callstack. */
  function StepPicked(fs: seq<Flow>, pick: map<string, nat>, mem: Mem, div0: real -> real): Mem
    requires StepPicks(fs, pick)
  {
    if |fs| <= 1 then StepMem(fs, mem, div0)
    else
      var after := AfterGroup(fs, pick, mem, div0);
      Mem(Update(mem.cur, after, Mentioned(fs)), Update(mem.start, after, Mentioned(fs)), 1)
  }

  /** The end a variable of a group is tied to holds what its option leaves. */
  lemma EndHolds(fs: seq<Flow>, enc: Enc, m: Model, mem: Mem, div0: real -> real, x: string, i: nat)
    requires |fs| > 1 && StepFits(fs, enc) && Sound(enc) && Holding(m, enc, mem)
    requires Sat(OrdersRules(Permuts(fs, 0), enc.ssa, enc.starts), m, div0)
    requires x in Mentioned(fs) && i < |Permuts(fs, 0)|
    ensures var (ends, runs) :=
      (OrderEnds(Permuts(fs, 0), enc.ssa, enc.starts, x), OptionRuns(Permuts(fs, 0), mem.cur, mem.start, div0));
      && i < |ends| && i < |runs|
      && m(Ver(x, ends[i])) ==
         if x in Written(fs) then Lookup(runs[i])(x) else Lookup(if ReadsNewest(fs, x) then mem.cur else mem.start)(x)
  {
    hide Permuts, OrdersRules, OrdersNext, Sat, Runnable, OptionRuns, Lookup, AllFit, Allowed, ReadsNewest, OrderEnds;
    OptionCount(Permuts(fs, 0), mem.cur, mem.start, div0);
    if x in Written(fs) {
      OptionEnd(fs, enc, m, mem, div0, x, i);
    } else {
      PermsOf(fs, enc);
      EndsAre(Permuts(fs, 0), enc.ssa, enc.starts, x);
      ReadsEndAt(Permuts(fs, 0), fs, Mentioned(fs), Written(fs), enc.ssa, enc.starts, x);
      var ends := OrderEnds(Permuts(fs, 0), enc.ssa, enc.starts, x);
      assert ends[i] in ends;
    }
  }

  /** Every model of a group's rules picks an option for each variable. */
  lemma {:induction false} PicksOf(xs: seq<string>, fs: seq<Flow>, caps: seq<Rule>, enc: Enc, m: Model,
                                   div0: real -> real)
    returns (pick: map<string, nat>)
    requires IsCap(caps, Mentioned(fs), Permuts(fs, 0), enc.ssa, enc.starts) && Sat(caps, m, div0)
    requires forall x :: x in xs ==> x in Mentioned(fs)
    ensures forall x :: x in pick <==> x in xs
    ensures forall x :: x in pick ==> PickedAt(Permuts(fs, 0), pick[x], enc.ssa, enc.starts, m, x)
  {
    hide IsCap, OrdersNext, Permuts, Sat, OrderEnds, Mentioned, PickedAt;
    if xs == [] {
      pick := map[];
    } else {
      var rest := PicksOf(xs[1..], fs, caps, enc, m, div0);
      var x := xs[0];
      var i := CapsForce(caps, Mentioned(fs), Permuts(fs, 0), enc.ssa, enc.starts, m, div0, x);
      assert PickedAt(Permuts(fs, 0), i, enc.ssa, enc.starts, m, x) by {
        ThusPicked(Permuts(fs, 0), i, enc.ssa, enc.starts, m, x);
      }
      pick := rest[x := i];
    }
  }

  ghost predicate PickedAt(perms: seq<seq<Flow>>, i: nat, ssa: Counters, starts: Counters, m: Model, x: string) {
    && i < |perms| && i < |OrderEnds(perms, ssa, starts, x)|
    && m(Ver(x, Advanced(OrdersNext(perms, ssa), x))) == m(Ver(x, OrderEnds(perms, ssa, starts, x)[i]))
  }

  lemma ThusPicked(perms: seq<seq<Flow>>, i: nat, ssa: Counters, starts: Counters, m: Model, x: string)
    requires i < |perms| && i < |OrderEnds(perms, ssa, starts, x)|
    requires m(Ver(x, Advanced(OrdersNext(perms, ssa), x))) == m(Ver(x, OrderEnds(perms, ssa, starts, x)[i]))
    ensures PickedAt(perms, i, ssa, starts, m, x)
  {
  }

  /** A model of a group's rules is the group run with those picks. */
  lemma GroupPicked(fs: seq<Flow>, enc: Enc, m: Model, mem: Mem, div0: real -> real, pick: map<string, nat>)
    requires |fs| > 1 && StepFits(fs, enc) && Sound(enc) && Holding(m, enc, mem)
    requires Sat(OrdersRules(Permuts(fs, 0), enc.ssa, enc.starts), m, div0)
    requires forall x :: x in Mentioned(fs) ==>
      x in pick && PickedAt(Permuts(fs, 0), pick[x], enc.ssa, enc.starts, m, x)
    ensures StepPicks(fs, pick) && Holding(m, StepNext(fs, enc), StepPicked(fs, pick, mem, div0))
  {
    hide Permuts, OrdersRules, OrdersNext, Sat, OptionRuns, Lookup, AllFit, Allowed, ReadsNewest, OrderEnds,
         Holding, Sound, StepFits, StepNext, Update;
    assert Picks(pick, Written(fs), |Permuts(fs, 0)|);
    var after := AfterGroup(fs, pick, mem, div0);
    forall x | x in Mentioned(fs)
      ensures m(Ver(x, Advanced(OrdersNext(Permuts(fs, 0), enc.ssa), x))) == Lookup(after)(x)
    {
      EndHolds(fs, enc, m, mem, div0, x, pick[x]);
      LookupIn(after, x);
    }
    AfterHolds(fs, after, enc, m, mem);
  }

  lemma LookupIn(s: Store, x: string)
    ensures x in s ==> Lookup(s)(x) == s[x]
  {
  }

  lemma StepFollowed(fs: seq<Flow>, enc: Enc, ru: seq<Rule>, m: Model, mem: Mem, div0: real -> real)
    returns (pick: map<string, nat>)
    requires StepFits(fs, enc) && Sound(enc) && StepEmits(fs, enc, ru) && Sat(ru, m, div0) && Holding(m, enc, mem)
    ensures StepPicks(fs, pick) && Holding(m, StepNext(fs, enc), StepPicked(fs, pick, mem, div0))
  {
    if |fs| == 0 {
      pick := map[];
    } else if |fs| == 1 {
      pick := map[];
      assert RuleHolds(ru[0], m, div0);
      SingleFollows(fs[0], fs, enc, m, mem, div0);
    } else {
      var perms := Permuts(fs, 0);
      var caps :| IsCap(caps, Mentioned(fs), perms, enc.ssa, enc.starts)
        && ru == OrdersRules(perms, enc.ssa, enc.starts) + caps;
      hide IsCap, OrdersRules, OrdersNext, Permuts, Sat, OrderEnds, Mentioned, StepFits, Sound, Holding, StepNext,
           StepEmits, PickedAt, StepPicked, StepPicks;
      SatConcat(OrdersRules(perms, enc.ssa, enc.starts), caps, m, div0);
      var xs := Listing(Mentioned(fs));
      pick := PicksOf(xs, fs, caps, enc, m, div0);
      GroupPicked(fs, enc, m, mem, div0, pick);
    }
  }

  lemma StepRealized(fs: seq<Flow>, enc: Enc, ru: seq<Rule>, pick: map<string, nat>, m0: Model, mem: Mem,
                     div0: real -> real)
    returns (m: Model)
    requires StepFits(fs, enc) && Sound(enc) && StepEmits(fs, enc, ru) && StepPicks(fs, pick) && Holding(m0, enc, mem)
    ensures AgreeOn(enc.ssa, m0, m) && Sat(ru, m, div0) && RulesExist(ru, StepNext(fs, enc).ssa)
    ensures Holding(m, StepNext(fs, enc), StepPicked(fs, pick, mem, div0))
  {
    if |fs| == 0 {
      m := m0;
    } else if |fs| == 1 {
      m := SingleHas(fs[0], fs, enc, ru, m0, mem, div0);
    } else {
      hide Permuts, Sat, Mentioned, Written, StepFits, Sound, Holding, StepNext, GroupEmits, AfterGroup, Update,
           RulesExist, AgreeOn;
      var full;
      m, full := PicksRealized(fs, enc, ru, pick, m0, mem, div0);
      GroupPicked(fs, enc, m, mem, div0, full);
      SamePicks(fs, pick, full, mem, div0);
    }
  }

  lemma PicksRealized(fs: seq<Flow>, enc: Enc, ru: seq<Rule>, pick: map<string, nat>, m0: Model, mem: Mem,
                      div0: real -> real)
    returns (m: Model, full: map<string, nat>)
    requires |fs| > 1 && StepFits(fs, enc) && Sound(enc) && GroupEmits(fs, enc.ssa, enc.starts, ru)
    requires Picks(pick, Written(fs), |Permuts(fs, 0)|) && Holding(m0, enc, mem)
    ensures AgreeOn(enc.ssa, m0, m) && Sat(ru, m, div0) && RulesExist(ru, StepNext(fs, enc).ssa)
    ensures Holding(m, enc, mem) && Sat(OrdersRules(Permuts(fs, 0), enc.ssa, enc.starts), m, div0)
    ensures forall x :: x in Mentioned(fs) ==>
      x in full && PickedAt(Permuts(fs, 0), full[x], enc.ssa, enc.starts, m, x)
    ensures Written(fs) <= Mentioned(fs) && forall x :: x in Written(fs) ==> full[x] == pick[x]
  {
    hide IsCap, OrdersRules, OrdersNext, Permuts, Sat, OrderEnds, Mentioned, Written, StepFits, Sound, Holding,
         StepNext, GroupEmits, RulesExist, AgreeOn, Advanced;
    OptionsOf(fs, enc);
    full := map x | x in Mentioned(fs) :: if x in Written(fs) then pick[x] else 0;
    m := OptionHas(fs, enc, ru, full, m0, div0);
    HoldingKept(enc, m0, m, mem);
  }

  lemma OptionsOf(fs: seq<Flow>, enc: Enc)
    requires |fs| > 1 && StepFits(fs, enc) && Sound(enc)
    ensures |Permuts(fs, 0)| > 0 && Written(fs) <= Mentioned(fs)
  {
    hide Permuts, AllFit, OrdersNext;
    ExactlyAllOrders(fs);
    assert fs in Permuts(fs, 0);
  }

  /** Only the picks for what the group writes matter. */
  lemma SamePicks(fs: seq<Flow>, pick: map<string, nat>, pick': map<string, nat>, mem: Mem, div0: real -> real)
    requires StepPicks(fs, pick) && StepPicks(fs, pick') && |fs| > 1
    requires forall x :: x in Written(fs) ==> pick[x] == pick'[x]
    ensures StepPicked(fs, pick, mem, div0) == StepPicked(fs, pick', mem, div0)
  {
    hide AfterGroup, Permuts, Update;
    AfterSame(fs, pick, pick', mem, div0);
  }

  lemma AfterSame(fs: seq<Flow>, pick: map<string, nat>, pick': map<string, nat>, mem: Mem, div0: real -> real)
    requires Picks(pick, Written(fs), |Permuts(fs, 0)|) && Picks(pick', Written(fs), |Permuts(fs, 0)|)
    requires forall x :: x in Written(fs) ==> pick[x] == pick'[x]
    ensures AfterGroup(fs, pick, mem, div0) == AfterGroup(fs, pick', mem, div0)
  {
    hide Permuts, OptionRuns, Lookup, ReadsNewest, Mentioned, Written;
  }

  // Whole runs.

  predicate RunPicks(steps: seq<seq<Flow>>, picks: seq<map<string, nat>>) {
    |picks| == |steps| && forall i :: 0 <= i < |steps| ==> StepPicks(steps[i], picks[i])
  }

  function RunPicked(steps: seq<seq<Flow>>, picks: seq<map<string, nat>>, mem: Mem, div0: real -> real): Mem
    requires RunPicks(steps, picks)
  {
    if steps == [] then mem
    else RunPicked(steps[1..], picks[1..], StepPicked(steps[0], picks[0], mem, div0), div0)
  }

  lemma {:induction false} RunFollowed(steps: seq<seq<Flow>>, enc: Enc, rs: seq<seq<Rule>>, m: Model, mem: Mem,
                                       div0: real -> real)
    returns (picks: seq<map<string, nat>>)
    requires RunFits(steps, enc) && Sound(enc) && RunEmits(steps, enc, rs) && RunSat(rs, m, div0)
    requires Holding(m, enc, mem)
    ensures RunPicks(steps, picks) && Holding(m, RunNext(steps, enc), RunPicked(steps, picks, mem, div0))
    decreases |steps|
  {
    hide StepFits, Sound, StepEmits, Sat, Holding, StepNext, StepPicked, StepPicks;
    if steps == [] {
      picks := [];
    } else {
      StepKeeps(steps[0], enc);
      assert Sat(rs[0], m, div0);
      var pick := StepFollowed(steps[0], enc, rs[0], m, mem, div0);
      assert RunSat(rs[1..], m, div0);
      var rest := RunFollowed(steps[1..], StepNext(steps[0], enc), rs[1..], m,
        StepPicked(steps[0], pick, mem, div0), div0);
      picks := [pick] + rest;
      assert picks[1..] == rest;
    }
  }

  lemma {:induction false} RunRealized(steps: seq<seq<Flow>>, enc: Enc, rs: seq<seq<Rule>>,
                                       picks: seq<map<string, nat>>, m0: Model, mem: Mem, div0: real -> real)
    returns (m: Model)
    requires RunFits(steps, enc) && Sound(enc) && RunEmits(steps, enc, rs)
    requires RunPicks(steps, picks) && Holding(m0, enc, mem)
    ensures AgreeOn(enc.ssa, m0, m) && RunSat(rs, m, div0)
    ensures Holding(m, RunNext(steps, enc), RunPicked(steps, picks, mem, div0))
    decreases |steps|
  {
    hide StepFits, Sound, StepEmits, Sat, Holding, StepNext, StepPicked, AgreeOn, RulesExist, StepPicks;
    if steps == [] {
      m := m0;
      ParallelModels.Nothing(enc.ssa, m0, div0);
    } else {
      var enc' := StepNext(steps[0], enc);
      StepKeeps(steps[0], enc);
      var m1 := StepRealized(steps[0], enc, rs[0], picks[0], m0, mem, div0);
      m := RunRealized(steps[1..], enc', rs[1..], picks[1..], m1, StepPicked(steps[0], picks[0], mem, div0), div0);
      AgreeBelow(enc.ssa, enc'.ssa, m1, m);
      AgreeTrans(enc.ssa, m0, m1, m);
      SatKept(rs[0], enc'.ssa, m1, m, div0);
      assert forall i :: 1 <= i < |rs| ==> rs[i] == rs[1..][i - 1];
    }
  }

  /** For every sequence of callstacks, a value of a variable's final version is allowed by
      some model of the rules exactly when some picks lead the encoder's run to it. */
  lemma RunAllows(steps: seq<seq<Flow>>, enc: Enc, rs: seq<seq<Rule>>, m0: Model, mem: Mem, div0: real -> real,
                  x: string, value: real)
    requires RunFits(steps, enc) && Sound(enc) && RunEmits(steps, enc, rs) && Holding(m0, enc, mem)
    requires x in RunNext(steps, enc).ssa
    ensures (exists m ::
              AgreeOn(enc.ssa, m0, m) && RunSat(rs, m, div0) && m(Ver(x, RunNext(steps, enc).ssa[x])) == value)
       <==> (exists picks ::
              RunPicks(steps, picks) && Lookup(RunPicked(steps, picks, mem, div0).cur)(x) == value)
  {
    hide RunSat, AgreeOn, RunPicks, RunNext, RunFits, RunEmits, Holding, Sound, Lookup, RunPicked;
    if exists m :: AgreeOn(enc.ssa, m0, m) && RunSat(rs, m, div0) && m(Ver(x, RunNext(steps, enc).ssa[x])) == value {
      var m: Model :|
        AgreeOn(enc.ssa, m0, m) && RunSat(rs, m, div0) && m(Ver(x, RunNext(steps, enc).ssa[x])) == value;
      HoldingKept(enc, m0, m, mem);
      var picks := RunFollowed(steps, enc, rs, m, mem, div0);
      NewestHolds(m, RunNext(steps, enc), RunPicked(steps, picks, mem, div0), x);
    }
    if exists picks :: RunPicks(steps, picks) && Lookup(RunPicked(steps, picks, mem, div0).cur)(x) == value {
      var picks :| RunPicks(steps, picks) && Lookup(RunPicked(steps, picks, mem, div0).cur)(x) == value;
      var m := RunRealized(steps, enc, rs, picks, m0, mem, div0);
      NewestHolds(m, RunNext(steps, enc), RunPicked(steps, picks, mem, div0), x);
      assert m(Ver(x, RunNext(steps, enc).ssa[x])) == value;
    }
  }

  lemma NewestHolds(m: Model, enc: Enc, mem: Mem, x: string)
    requires Holding(m, enc, mem) && x in enc.ssa
    ensures m(Ver(x, enc.ssa[x])) == Lookup(mem.cur)(x)
  {
  }
}
