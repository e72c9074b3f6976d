/** The conditional encoding has exactly one model over the versions it introduces. That
    model is what the rules mean (`Meant`), and where no else arm needs what its then arm
    writes, it is the run of the program. */
module Exactness {
  import opened Lang
  import opened Encoding

  /** Variables whose value before `p` matters to the rules of `p`: those read before
      being defined, and those only one arm of a conditional mentions. */
  function Needs(p: Prog): set<string> {
    match p
    case Done => {}
    case Assign(x, e, next) => Refs(e) + (Needs(next) - {x})
    case If(c, t, _, f, next) =>
      CondRefs(c) + Needs(t) + Needs(f) + (Forked(t) - Forked(f)) + (Forked(f) - Forked(t))
      + (Needs(next) - Forked(t) - Forked(f))
  }

  /** No counter wraps, nothing is read before it is stored, and copies are aligned, as one
      walk over `p` with the counters it meets:
      - everything touched has been stored before, and no counter is at its maximum
        when it is advanced;
      - at a bare copy both variables have the same counter, since the source is
        numbered with the destination's. */
  predicate Encodable(p: Prog, ssa: Counters) {
    match p
    case Done => true
    case Assign(x, e, next) =>
      && Refs(e) + {x} <= ssa.Keys && CanBump(ssa, {x})
      && (e.Ref? ==> Count(ssa, e.v) == Count(ssa, x))
      && Encodable(next, Bump(ssa, x))
    case If(c, t, _, f, next) =>
      && CondRefs(c) <= ssa.Keys
      && Encodable(t, ssa) && Encodable(f, Next(t, ssa))
      && CanBump(Next(f, Next(t, ssa)), Forked(t) + Forked(f))
      && Encodable(next, NextIf(t, f, ssa))
  }

  /** No else arm needs the old value of a variable its then arm writes. Reads use the
      newest version, and that is the then arm's. */
  predicate Separate(p: Prog) {
    match p
    case Done => true
    case Assign(_, _, next) => Separate(next)
    case If(_, t, _, f, next) => Needs(f) !! Writes(t) && Separate(t) && Separate(f) && Separate(next)
  }

  /** `s` with the variables of `xs` as in `after`. */
  function Update(s: Store, after: Store, xs: set<string>): Store {
    map x | x in s.Keys + xs :: if x in xs then Lookup(after)(x) else s[x]
  }

  /** What the rules say of a program. Both arms of a conditional are emitted one after the
      other, so the else arm starts where the then arm ends; then the variables the arm
      taken mentions are as at its end, and all others as before the conditional. */
  function Meant(p: Prog, s: Store, div0: real -> real): Store {
    match p
    case Done => s
    case Assign(x, e, next) => Meant(next, s[x := Eval(e, Lookup(s), div0)], div0)
    case If(c, t, _, f, next) =>
      var sT := Meant(t, s, div0);
      var sF := Meant(f, sT, div0);
      Meant(next, if Holds(c, Lookup(s), div0) then Update(s, sT, Forked(t)) else Update(s, sF, Forked(f)), div0)
  }

  predicate CanBump(ssa: Counters, xs: set<string>) {
    forall x :: x in xs && x in ssa ==> ssa[x] < MAX_VERSION
  }

  /** Versions that exist at counters `ssa`. */
  predicate Existing(ssa: Counters, v: Ver) {
    v.base in ssa && v.num <= ssa[v.base]
  }

  ghost predicate AgreeOn(ssa: Counters, m: Model, m': Model) {
    forall v :: Existing(ssa, v) ==> m(v) == m'(v)
  }

  /** Each variable of `xs` has in `m`, at its newest version, its value in `s`. */
  ghost predicate Tracks(m: Model, ssa: Counters, s: Store, xs: set<string>) {
    forall x :: x in xs ==> m(Ver(x, Count(ssa, x))) == Lookup(s)(x)
  }

  // Bookkeeping facts about counters.

  lemma {:induction false} WritesAreForked(p: Prog)
    ensures Writes(p) <= Forked(p)
    ensures Silent(p) ==> Forked(p) == {}
  {
    match p
    case Done =>
    case Assign(_, _, next) => WritesAreForked(next);
    case If(_, t, _, f, next) => WritesAreForked(t); WritesAreForked(f); WritesAreForked(next);
  }

  /** `ssa'` comes from `ssa` by advancing variables of `xs`. */
  predicate Grown(ssa: Counters, ssa': Counters, xs: set<string>) {
    && ssa'.Keys == ssa.Keys && xs <= ssa.Keys
    && forall x :: x in ssa ==> if x in xs then ssa[x] <= ssa'[x] else ssa[x] == ssa'[x]
  }

  lemma {:induction false} NextGrows(p: Prog, ssa: Counters)
    requires Encodable(p, ssa)
    ensures Grown(ssa, Next(p, ssa), Forked(p))
  {
    match p
    case Done =>
    case Assign(x, e, next) => NextGrows(next, Bump(ssa, x));
    case If(c, t, _, f, next) =>
      NextGrows(t, ssa);
      NextGrows(f, Next(t, ssa));
      CapGrows(Next(f, Next(t, ssa)), Forked(t) + Forked(f));
      NextGrows(next, NextIf(t, f, ssa));
  }

  lemma CapGrows(ssa: Counters, fork: set<string>)
    requires fork <= ssa.Keys && CanBump(ssa, fork)
    ensures Grown(ssa, BumpAll(ssa, fork), fork)
    ensures forall x :: x in fork ==> BumpAll(ssa, fork)[x] == ssa[x] + 1
  {
  }

  lemma IfGrows(t: Prog, f: Prog, ssa: Counters)
    requires Encodable(t, ssa) && Encodable(f, Next(t, ssa))
    requires CanBump(Next(f, Next(t, ssa)), Forked(t) + Forked(f))
    ensures Grown(ssa, Next(t, ssa), Forked(t))
    ensures Grown(Next(t, ssa), Next(f, Next(t, ssa)), Forked(f))
    ensures Grown(ssa, NextIf(t, f, ssa), Forked(t) + Forked(f))
    ensures forall x :: x in Forked(t) + Forked(f) ==> NextIf(t, f, ssa)[x] == Next(f, Next(t, ssa))[x] + 1
  {
    NextGrows(t, ssa);
    NextGrows(f, Next(t, ssa));
    CapGrows(Next(f, Next(t, ssa)), Forked(t) + Forked(f));
  }

  lemma {:induction false} EvalAt(ssa: Counters, e: Expr<string>, m: Model, s: Store, div0: real -> real)
    requires Tracks(m, ssa, s, Refs(e))
    ensures Eval(At(ssa, e), m, div0) == Eval(e, Lookup(s), div0)
  {
    match e
    case Lit(_) =>
    case Ref(_) =>
    case Bin(_, l, r) => EvalAt(ssa, l, m, s, div0); EvalAt(ssa, r, m, s, div0);
  }

  lemma {:induction false} HoldsAt(ssa: Counters, c: Cond<string>, m: Model, s: Store, div0: real -> real)
    requires Tracks(m, ssa, s, CondRefs(c))
    ensures Holds(CondAt(ssa, c), m, div0) == Holds(c, Lookup(s), div0)
  {
    match c
    case Cmp(_, l, r) => EvalAt(ssa, l, m, s, div0); EvalAt(ssa, r, m, s, div0);
    case And(c0, c1) => HoldsAt(ssa, c0, m, s, div0); HoldsAt(ssa, c1, m, s, div0);
    case Or(c0, c1) => HoldsAt(ssa, c0, m, s, div0); HoldsAt(ssa, c1, m, s, div0);
    case Not(c0) => HoldsAt(ssa, c0, m, s, div0);
  }

  lemma {:induction false} RunWrites(p: Prog, s: Store, div0: real -> real)
    ensures forall x :: x !in Writes(p) ==> Lookup(Run(p, s, div0))(x) == Lookup(s)(x)
  {
    match p
    case Done =>
    case Assign(x, e, next) => RunWrites(next, s[x := Eval(e, Lookup(s), div0)], div0);
    case If(c, t, _, f, next) =>
      RunWrites(t, s, div0);
      RunWrites(f, s, div0);
      RunWrites(next, if Holds(c, Lookup(s), div0) then Run(t, s, div0) else Run(f, s, div0), div0);
  }

  // Soundness: every model follows what the rules mean.

  /** An arm's equations hold exactly when every phi takes the value of that arm's end. */
  lemma {:induction false} ArmMeaning(eqs: seq<Eqn>, fork: set<string>, phi: Counters, end: Counters, m: Model)
    requires IsArm(eqs, fork, phi, end)
    ensures EqnsHold(eqs, m) <==>
            forall x :: x in fork ==> m(Ver(x, Count(phi, x))) == m(Ver(x, Count(end, x)))
  {
    if eqs != [] {
      ArmMeaning(eqs[1..], fork - {eqs[0].phi.base}, phi, end, m);
      assert EqnsHold(eqs, m) <==> m(eqs[0].phi) == m(eqs[0].val) && EqnsHold(eqs[1..], m) by {
        assert forall i :: 1 <= i < |eqs| ==> eqs[i] == eqs[1..][i - 1];
      }
    }
  }

  lemma EndsTrack(fork: set<string>, mentioned: set<string>, after: Counters, before: Counters,
                  m: Model, s: Store, s': Store)
    requires Tracks(m, after, s', fork * mentioned) && Tracks(m, before, s, fork - mentioned)
    ensures Tracks(m, Ends(fork, mentioned, after, before), Update(s, s', mentioned), fork)
  {
  }

  lemma TracksOn(m: Model, ssa: Counters, ssa': Counters, xs: set<string>, s: Store, known: set<string>)
    requires Grown(ssa, ssa', xs) && known <= ssa.Keys && Tracks(m, ssa, s, known)
    ensures Tracks(m, ssa', s, known - xs)
  {
  }

  /** Every model of the rules of `p` that starts out tracking the store on `known` ends up
      tracking what the rules mean, on `known` and on all they mention. */
  lemma {:induction false} FollowsMeant(p: Prog, ssa: Counters, code: Code, m: Model,
                                        div0: real -> real, s: Store, known: set<string>)
    requires Encodes(p, ssa, code) && CodeHolds(code, m, div0)
    requires Encodable(p, ssa)
    requires Needs(p) <= known <= ssa.Keys && Tracks(m, ssa, s, known)
    ensures Tracks(m, Next(p, ssa), Meant(p, s, div0), known + Forked(p))
  {
    hide IsIte, RuleHolds, BumpAll, Rhs, Lookup, CanBump, Update;
    match p
    case Done =>
    case Assign(x, e, next) =>
      StoreFollows(x, e, ssa, code.rule, m, div0, s, known);
      var known' := known + {x} + Refs(e);
      FollowsMeant(next, Bump(ssa, x), code.next, m, div0, s[x := Eval(e, Lookup(s), div0)], known');
      assert known + Forked(p) == known' + Forked(next);
    case If(c, t, _, f, next) =>
      var known' := known + Forked(t) + Forked(f);
      assert known + Forked(p) == known' + Forked(next);
      IfGrows(t, f, ssa);
      var sT := Meant(t, s, div0);
      var sF := Meant(f, sT, div0);
      if Silent(t) && Silent(f) {
        EmptyArms(t, f, s, sT);
        EmptyArms(t, f, s, sF);
      } else {
        FollowsMeant(t, ssa, code.t, m, div0, s, known);
        FollowsMeant(f, Next(t, ssa), code.f, m, div0, sT, known + Forked(t));
        JoinFollows(c, t, f, ssa, code.join.value, m, div0, s, sT, sF, known);
      }
      var s' := if Holds(c, Lookup(s), div0) then Update(s, sT, Forked(t)) else Update(s, sF, Forked(f));
      FollowsMeant(next, NextIf(t, f, ssa), code.next, m, div0, s', known');
  }

  lemma StoreFollows(x: string, e: Expr<string>, ssa: Counters, r: Rule, m: Model,
                     div0: real -> real, s: Store, known: set<string>)
    requires {x} + Refs(e) <= ssa.Keys && CanBump(ssa, {x})
    requires e.Ref? ==> Count(ssa, e.v) == Count(ssa, x)
    requires Refs(e) <= known <= ssa.Keys && Tracks(m, ssa, s, known)
    requires r == Define(Ver(x, Advanced(ssa, x)), Rhs(ssa, x, e)) && RuleHolds(r, m, div0)
    ensures Tracks(m, Bump(ssa, x), s[x := Eval(e, Lookup(s), div0)], known + {x} + Refs(e))
  {
    if !e.Ref? {
      EvalAt(ssa, e, m, s, div0);
    }
  }

  lemma EmptyArms(t: Prog, f: Prog, s: Store, after: Store)
    requires Silent(t) && Silent(f)
    ensures Forked(t) == {} && Forked(f) == {}
    ensures Update(s, after, {}) == s
  {
    WritesAreForked(t);
    WritesAreForked(f);
  }

  /** Once both arms are tracked to their ends, the `Ite` makes the phis track the one taken. */
  lemma JoinFollows(c: Cond<string>, t: Prog, f: Prog, ssa: Counters, r: Rule, m: Model,
                    div0: real -> real, s: Store, sT: Store, sF: Store, known: set<string>)
    requires Grown(ssa, NextIf(t, f, ssa), Forked(t) + Forked(f))
    requires CondRefs(c) + (Forked(t) - Forked(f)) + (Forked(f) - Forked(t)) <= known <= ssa.Keys
    requires Tracks(m, ssa, s, known)
    requires Tracks(m, Next(t, ssa), sT, Forked(t)) && Tracks(m, Next(f, Next(t, ssa)), sF, Forked(f))
    requires IsIte(r, c, t, f, ssa) && RuleHolds(r, m, div0)
    ensures Tracks(m, NextIf(t, f, ssa),
                   if Holds(c, Lookup(s), div0) then Update(s, sT, Forked(t)) else Update(s, sF, Forked(f)),
                   known + Forked(t) + Forked(f))
  {
    hide Next, NextIf, Forked, IsArm, Ends, CondRefs, Update;
    var fork, phi := Forked(t) + Forked(f), NextIf(t, f, ssa);
    HoldsAt(ssa, c, m, s, div0);
    if Holds(c, Lookup(s), div0) {
      ArmFollows(Forked(t), r.t, fork, phi, Next(t, ssa), ssa, m, s, sT, known);
    } else {
      ArmFollows(Forked(f), r.f, fork, phi, Next(f, Next(t, ssa)), ssa, m, s, sF, known);
    }
  }

  /** The equations of the arm taken make every phi of the fork track that arm's end `s'`,
      where the arm mentions the variable, and the store `s` on entry where it does not. */
  lemma ArmFollows(mentioned: set<string>, eqs: seq<Eqn>, fork: set<string>, phi: Counters, after: Counters,
                   ssa: Counters, m: Model, s: Store, s': Store, known: set<string>)
    requires mentioned <= fork && fork - mentioned <= known <= ssa.Keys && Grown(ssa, phi, fork)
    requires Tracks(m, ssa, s, known) && Tracks(m, after, s', mentioned)
    requires IsArm(eqs, fork, phi, Ends(fork, mentioned, after, ssa)) && EqnsHold(eqs, m)
    ensures Tracks(m, phi, Update(s, s', mentioned), known + fork)
  {
    EndsTrack(fork, mentioned, after, ssa, m, s, s');
    ArmMeaning(eqs, fork, phi, Ends(fork, mentioned, after, ssa), m);
    TracksOn(m, ssa, phi, fork, s, known);
  }

  // Where the rules mean the run.

  lemma {:induction false} HoldsDepends<V>(c: Cond<V>, env: V -> real, env': V -> real, div0: real -> real)
    requires forall v :: v in CondRefs(c) ==> env(v) == env'(v)
    ensures Holds(c, env, div0) == Holds(c, env', div0)
  {
    match c
    case Cmp(_, l, r) => EvalDepends(l, env, env', div0); EvalDepends(r, env, env', div0);
    case And(c0, c1) => HoldsDepends(c0, env, env', div0); HoldsDepends(c1, env, env', div0);
    case Or(c0, c1) => HoldsDepends(c0, env, env', div0); HoldsDepends(c1, env, env', div0);
    case Not(c0) => HoldsDepends(c0, env, env', div0);
  }

  /** The two stores hold the same values of `xs`. */
  ghost predicate Alike(s: Store, s': Store, xs: set<string>) {
    forall x :: x in xs ==> Lookup(s)(x) == Lookup(s')(x)
  }

  ghost predicate SameValues(s: Store, s': Store) {
    forall x :: Lookup(s)(x) == Lookup(s')(x)
  }

  /** What a program leaves depends only on the variables it needs. */
  lemma {:induction false} MeantDepends(p: Prog, s: Store, s': Store, known: set<string>, div0: real -> real)
    requires Needs(p) <= known && Alike(s, s', known)
    ensures Alike(Meant(p, s, div0), Meant(p, s', div0), known + Forked(p))
  {
    hide Lookup, Update, Alike;
    match p
    case Done => assert known + Forked(p) == known;
    case Assign(x, e, next) =>
      StoreAlike(x, e, s, s', known, div0);
      MeantDepends(next, s[x := Eval(e, Lookup(s), div0)], s'[x := Eval(e, Lookup(s'), div0)], known + {x}, div0);
      assert known + Forked(p) == known + {x} + Forked(next);
    case If(c, t, _, f, next) =>
      var known' := known + Forked(t) + Forked(f);
      assert known + Forked(p) == known' + Forked(next);
      MeantDepends(t, s, s', known, div0);
      var sT, sT' := Meant(t, s, div0), Meant(t, s', div0);
      MeantDepends(f, sT, sT', known + Forked(t), div0);
      var sF, sF' := Meant(f, sT, div0), Meant(f, sT', div0);
      ChoiceAlike(c, s, s', known, div0);
      UpdateAlike(s, s', sT, sT', known, Forked(t), Forked(f), known + Forked(t));
      UpdateAlike(s, s', sF, sF', known, Forked(f), Forked(t), known + Forked(t) + Forked(f));
      assert known + Forked(f) + Forked(t) == known';
      MeantDepends(next,
        if Holds(c, Lookup(s), div0) then Update(s, sT, Forked(t)) else Update(s, sF, Forked(f)),
        if Holds(c, Lookup(s'), div0) then Update(s', sT', Forked(t)) else Update(s', sF', Forked(f)), known', div0);
  }

  lemma StoreAlike(x: string, e: Expr<string>, s: Store, s': Store, known: set<string>, div0: real -> real)
    requires Refs(e) <= known && Alike(s, s', known)
    ensures Alike(s[x := Eval(e, Lookup(s), div0)], s'[x := Eval(e, Lookup(s'), div0)], known + {x})
  {
    EvalDepends(e, Lookup(s), Lookup(s'), div0);
  }

  lemma ChoiceAlike(c: Cond<string>, s: Store, s': Store, known: set<string>, div0: real -> real)
    requires CondRefs(c) <= known && Alike(s, s', known)
    ensures Holds(c, Lookup(s), div0) == Holds(c, Lookup(s'), div0)
  {
    HoldsDepends(c, Lookup(s), Lookup(s'), div0);
  }

  lemma UpdateAlike(s: Store, s': Store, after: Store, after': Store, known: set<string>, xs: set<string>,
                    ys: set<string>, more: set<string>)
    requires Alike(s, s', known) && Alike(after, after', more) && xs <= more && ys - xs <= known
    ensures Alike(Update(s, after, xs), Update(s', after', xs), known + xs + ys)
  {
    hide Lookup, Update;
    forall x | x in known + xs + ys
      ensures Lookup(Update(s, after, xs))(x) == Lookup(Update(s', after', xs))(x)
    {
      UpdatedAt(s, after, xs, x);
      UpdatedAt(s', after', xs, x);
    }
  }

  lemma UpdatedAt(s: Store, after: Store, xs: set<string>, x: string)
    ensures Lookup(Update(s, after, xs))(x) == if x in xs then Lookup(after)(x) else Lookup(s)(x)
  {
  }

  lemma MeantSame(p: Prog, s: Store, s': Store, div0: real -> real)
    requires SameValues(s, s')
    ensures SameValues(Meant(p, s, div0), Meant(p, s', div0))
  {
    hide Lookup, Meant;
    forall x ensures Lookup(Meant(p, s, div0))(x) == Lookup(Meant(p, s', div0))(x) {
      MeantDepends(p, s, s', Needs(p) + {x}, div0);
      assert x in Needs(p) + {x} + Forked(p);
    }
  }

  /** Where arms keep apart the rules mean the run. */
  lemma {:induction false} MeantIsRun(p: Prog, s: Store, div0: real -> real)
    requires Separate(p)
    ensures SameValues(Meant(p, s, div0), Run(p, s, div0))
  {
    hide Lookup, Update, Needs, Writes, Forked;
    match p
    case Done =>
    case Assign(x, e, next) => MeantIsRun(next, s[x := Eval(e, Lookup(s), div0)], div0);
    case If(c, t, _, f, next) =>
      MeantIsRun(t, s, div0);
      MeantIsRun(f, s, div0);
      ArmsMeanRuns(t, f, s, div0);
      var sT := Meant(t, s, div0);
      var meant := if Holds(c, Lookup(s), div0) then Update(s, sT, Forked(t))
                   else Update(s, Meant(f, sT, div0), Forked(f));
      var ran := if Holds(c, Lookup(s), div0) then Run(t, s, div0) else Run(f, s, div0);
      MeantIsRun(next, ran, div0);
      MeantSame(next, meant, ran, div0);
  }

  lemma ArmsMeanRuns(t: Prog, f: Prog, s: Store, div0: real -> real)
    requires Needs(f) !! Writes(t)
    requires SameValues(Meant(t, s, div0), Run(t, s, div0)) && SameValues(Meant(f, s, div0), Run(f, s, div0))
    ensures SameValues(Update(s, Meant(t, s, div0), Forked(t)), Run(t, s, div0))
    ensures SameValues(Update(s, Meant(f, Meant(t, s, div0), div0), Forked(f)), Run(f, s, div0))
  {
    hide Meant, Run, Lookup, Update, Needs, Forked, Writes;
    WritesAreForked(t);
    WritesAreForked(f);
    RunWrites(t, s, div0);
    RunWrites(f, s, div0);
    var sT := Meant(t, s, div0);
    MeantDepends(f, s, sT, Needs(f), div0);
    forall x
      ensures Lookup(Update(s, sT, Forked(t)))(x) == Lookup(Run(t, s, div0))(x)
      ensures Lookup(Update(s, Meant(f, sT, div0), Forked(f)))(x) == Lookup(Run(f, s, div0))(x)
    {
      UpdatedAt(s, sT, Forked(t), x);
      UpdatedAt(s, Meant(f, sT, div0), Forked(f), x);
      assert x in Forked(f) ==> x in Needs(f) + Forked(f);
    }
  }

  /** There every model of the rules tracks the run. */
  lemma FollowsRun(p: Prog, ssa: Counters, code: Code, m: Model, div0: real -> real, s: Store, known: set<string>)
    requires Encodes(p, ssa, code) && CodeHolds(code, m, div0)
    requires Encodable(p, ssa) && Separate(p)
    requires Needs(p) <= known <= ssa.Keys && Tracks(m, ssa, s, known)
    ensures Tracks(m, Next(p, ssa), Run(p, s, div0), known + Forked(p))
  {
    hide Encodes, Encodable, CodeHolds, Needs, Meant, Run, Next;
    FollowsMeant(p, ssa, code, m, div0, s, known);
    MeantIsRun(p, s, div0);
  }

  /** An arm is total and functional: it has one equation for the phi of each variable of
      the fork, to that variable's end, and no others. */
  lemma {:induction false} ArmTotalFunctional(eqs: seq<Eqn>, fork: set<string>, phi: Counters, end: Counters)
    requires IsArm(eqs, fork, phi, end)
    ensures |eqs| == |fork|
    ensures forall i :: 0 <= i < |eqs| ==>
      var x := eqs[i].phi.base;
      x in fork && eqs[i] == Eqn(Ver(x, Count(phi, x)), Ver(x, Count(end, x)))
    ensures forall i, j :: 0 <= i < j < |eqs| ==> eqs[i].phi.base !in {eqs[j].phi.base}
    ensures forall x :: x in fork ==> Eqn(Ver(x, Count(phi, x)), Ver(x, Count(end, x))) in eqs
  {
    if eqs != [] {
      ArmTotalFunctional(eqs[1..], fork - {eqs[0].phi.base}, phi, end);
    }
  }

  // Uniqueness: the starting versions determine all later ones.

  lemma {:induction false} EvalAgree(e: Expr<string>, ssa: Counters, m: Model, m': Model, div0: real -> real)
    requires Refs(e) <= ssa.Keys && AgreeOn(ssa, m, m')
    ensures Eval(At(ssa, e), m, div0) == Eval(At(ssa, e), m', div0)
  {
    match e
    case Lit(_) =>
    case Ref(x) => assert Existing(ssa, Ver(x, Count(ssa, x)));
    case Bin(_, l, r) => EvalAgree(l, ssa, m, m', div0); EvalAgree(r, ssa, m, m', div0);
  }

  lemma {:induction false} HoldsAgree(c: Cond<string>, ssa: Counters, m: Model, m': Model, div0: real -> real)
    requires CondRefs(c) <= ssa.Keys && AgreeOn(ssa, m, m')
    ensures Holds(CondAt(ssa, c), m, div0) == Holds(CondAt(ssa, c), m', div0)
  {
    match c
    case Cmp(_, l, r) => EvalAgree(l, ssa, m, m', div0); EvalAgree(r, ssa, m, m', div0);
    case And(c0, c1) => HoldsAgree(c0, ssa, m, m', div0); HoldsAgree(c1, ssa, m, m', div0);
    case Or(c0, c1) => HoldsAgree(c0, ssa, m, m', div0); HoldsAgree(c1, ssa, m, m', div0);
    case Not(c0) => HoldsAgree(c0, ssa, m, m', div0);
  }

  lemma RhsAgrees(x: string, e: Expr<string>, ssa: Counters, m: Model, m': Model, div0: real -> real)
    requires Refs(e) + {x} <= ssa.Keys && AgreeOn(ssa, m, m')
    requires e.Ref? ==> Count(ssa, e.v) == Count(ssa, x)
    ensures Eval(Rhs(ssa, x, e), m, div0) == Eval(Rhs(ssa, x, e), m', div0)
  {
    if e.Ref? {
      assert Existing(ssa, Ver(e.v, Count(ssa, x)));
    } else {
      EvalAgree(e, ssa, m, m', div0);
    }
  }

  lemma GrownAgree(ssa: Counters, ssa': Counters, xs: set<string>, m: Model, m': Model)
    requires Grown(ssa, ssa', xs) && AgreeOn(ssa', m, m')
    ensures AgreeOn(ssa, m, m')
  {
    forall v | Existing(ssa, v) ensures m(v) == m'(v) { assert Existing(ssa', v); }
  }

  /** The two ends an `Ite` refers to exist before its phis do. */
  lemma EndsExist(t: Prog, f: Prog, ssa: Counters, x: string)
    requires Encodable(t, ssa) && Encodable(f, Next(t, ssa))
    requires CanBump(Next(f, Next(t, ssa)), Forked(t) + Forked(f))
    requires x in Forked(t) + Forked(f)
    ensures var (fork, ssaT, ssaF) := (Forked(t) + Forked(f), Next(t, ssa), Next(f, Next(t, ssa)));
            && Existing(ssaF, Ver(x, Count(Ends(fork, Forked(t), ssaT, ssa), x)))
            && Existing(ssaF, Ver(x, Count(Ends(fork, Forked(f), ssaF, ssa), x)))
  {
    IfGrows(t, f, ssa);
  }

  /** Two models of the rules of `p` that agree on the versions existing before agree on
      all versions existing after. */
  lemma {:induction false} Determined(p: Prog, ssa: Counters, code: Code, m: Model, m': Model, div0: real -> real)
    requires Encodes(p, ssa, code) && Encodable(p, ssa)
    requires CodeHolds(code, m, div0) && CodeHolds(code, m', div0)
    requires AgreeOn(ssa, m, m')
    ensures AgreeOn(Next(p, ssa), m, m')
  {
    hide IsIte, BumpAll, RuleHolds, Rhs;
    match p
    case Done =>
    case Assign(x, e, next) =>
      StoreDetermined(x, e, ssa, code.rule, m, m', div0);
      Determined(next, Bump(ssa, x), code.next, m, m', div0);
    case If(c, t, _, f, next) =>
      Determined(t, ssa, code.t, m, m', div0);
      Determined(f, Next(t, ssa), code.f, m, m', div0);
      JoinDetermined(c, t, f, ssa, code.join, m, m', div0);
      Determined(next, NextIf(t, f, ssa), code.next, m, m', div0);
  }

  lemma StoreDetermined(x: string, e: Expr<string>, ssa: Counters, r: Rule, m: Model, m': Model, div0: real -> real)
    requires Refs(e) + {x} <= ssa.Keys && AgreeOn(ssa, m, m') && CanBump(ssa, {x})
    requires e.Ref? ==> Count(ssa, e.v) == Count(ssa, x)
    requires r == Define(Ver(x, Advanced(ssa, x)), Rhs(ssa, x, e))
    requires RuleHolds(r, m, div0) && RuleHolds(r, m', div0)
    ensures AgreeOn(Bump(ssa, x), m, m')
  {
    RhsAgrees(x, e, ssa, m, m', div0);
    forall v | Existing(Bump(ssa, x), v) ensures m(v) == m'(v) {
      assert Existing(ssa, v) || v == Ver(x, Advanced(ssa, x));
    }
  }

  lemma JoinDetermined(c: Cond<string>, t: Prog, f: Prog, ssa: Counters, join: Option<Rule>,
                       m: Model, m': Model, div0: real -> real)
    requires Encodable(t, ssa) && Encodable(f, Next(t, ssa)) && CondRefs(c) <= ssa.Keys
    requires CanBump(Next(f, Next(t, ssa)), Forked(t) + Forked(f))
    requires if Silent(t) && Silent(f) then join.None? else join.Some? && IsIte(join.value, c, t, f, ssa)
    requires join.Some? ==> RuleHolds(join.value, m, div0) && RuleHolds(join.value, m', div0)
    requires AgreeOn(Next(f, Next(t, ssa)), m, m')
    ensures AgreeOn(NextIf(t, f, ssa), m, m')
  {
    var fork, ssaF, phi := Forked(t) + Forked(f), Next(f, Next(t, ssa)), NextIf(t, f, ssa);
    IfGrows(t, f, ssa);
    if join.Some? {
      GrownAgree(Next(t, ssa), ssaF, Forked(f), m, m');
      GrownAgree(ssa, Next(t, ssa), Forked(t), m, m');
      HoldsAgree(c, ssa, m, m', div0);
      PhiDetermined(join.value, c, t, f, ssa, m, m', div0);
    } else {
      WritesAreForked(t);
      WritesAreForked(f);
    }
    hide Encodable, Next, NextIf, Forked, IsIte, RuleHolds, Silent;
    forall v | Existing(phi, v) ensures m(v) == m'(v) {
      assert Existing(ssaF, v) || (v.base in fork && v == Ver(v.base, Count(phi, v.base)));
    }
  }

  lemma PhiDetermined(r: Rule, c: Cond<string>, t: Prog, f: Prog, ssa: Counters, m: Model, m': Model,
                      div0: real -> real)
    requires Encodable(t, ssa) && Encodable(f, Next(t, ssa))
    requires CanBump(Next(f, Next(t, ssa)), Forked(t) + Forked(f))
    requires IsIte(r, c, t, f, ssa) && RuleHolds(r, m, div0) && RuleHolds(r, m', div0)
    requires AgreeOn(Next(f, Next(t, ssa)), m, m')
    requires Holds(CondAt(ssa, c), m, div0) == Holds(CondAt(ssa, c), m', div0)
    ensures forall x :: x in Forked(t) + Forked(f) ==>
              m(Ver(x, Count(NextIf(t, f, ssa), x))) == m'(Ver(x, Count(NextIf(t, f, ssa), x)))
  {
    var fork, ssaF, phi := Forked(t) + Forked(f), Next(f, Next(t, ssa)), NextIf(t, f, ssa);
    var endT, endF := Ends(fork, Forked(t), Next(t, ssa), ssa), Ends(fork, Forked(f), ssaF, ssa);
    ArmMeaning(r.t, fork, phi, endT, m);
    ArmMeaning(r.t, fork, phi, endT, m');
    ArmMeaning(r.f, fork, phi, endF, m);
    ArmMeaning(r.f, fork, phi, endF, m');
    forall x | x in fork ensures m(Ver(x, Count(phi, x))) == m'(Ver(x, Count(phi, x))) {
      EndsExist(t, f, ssa, x);
    }
  }
}
