/** The main theorems on conditionals: what the rules of a program allow, when that is its
    run, and how far that reaches. */
module Models {
  import opened Lang
  import opened Emission
  import opened Encoding
  import opened Exactness
  import Forks

  // Existence: any start can be extended to a model.

  /** Rules only speak of versions existing when they have been emitted. */
  lemma {:induction false} CodeAgrees(p: Prog, ssa: Counters, code: Code, m: Model, m': Model, div0: real -> real)
    requires Encodes(p, ssa, code) && Encodable(p, ssa)
    requires AgreeOn(Next(p, ssa), m, m') && CodeHolds(code, m, div0)
    ensures CodeHolds(code, m', div0)
  {
    hide IsIte, BumpAll, RuleHolds, Rhs;
    NextGrows(p, ssa);
    GrownAgree(ssa, Next(p, ssa), Forked(p), m, m');
    match p
    case Done =>
    case Assign(x, e, next) =>
      StoreAgrees(x, e, next, ssa, code.rule, m, m', div0);
      CodeAgrees(next, Bump(ssa, x), code.next, m, m', div0);
    case If(c, t, _, f, next) =>
      CodeAgrees(next, NextIf(t, f, ssa), code.next, m, m', div0);
      IfGrows(t, f, ssa);
      NextGrows(next, NextIf(t, f, ssa));
      CapGrows(Next(f, Next(t, ssa)), Forked(t) + Forked(f));
      GrownAgree(NextIf(t, f, ssa), Next(p, ssa), Forked(next), m, m');
      GrownAgree(Next(f, Next(t, ssa)), NextIf(t, f, ssa), Forked(t) + Forked(f), m, m');
      GrownAgree(Next(t, ssa), Next(f, Next(t, ssa)), Forked(f), m, m');
      CodeAgrees(t, ssa, code.t, m, m', div0);
      CodeAgrees(f, Next(t, ssa), code.f, m, m', div0);
      if code.join.Some? {
        JoinAgrees(code.join.value, c, t, f, ssa, m, m', div0);
      }
  }

  lemma StoreAgrees(x: string, e: Expr<string>, next: Prog, ssa: Counters, r: Rule,
                    m: Model, m': Model, div0: real -> real)
    requires Encodable(Assign(x, e, next), ssa)
    requires AgreeOn(Next(next, Bump(ssa, x)), m, m') && AgreeOn(ssa, m, m')
    requires r == Define(Ver(x, Advanced(ssa, x)), Rhs(ssa, x, e)) && RuleHolds(r, m, div0)
    ensures RuleHolds(r, m', div0)
  {
    RhsAgrees(x, e, ssa, m, m', div0);
    NextGrows(next, Bump(ssa, x));
    GrownAgree(Bump(ssa, x), Next(next, Bump(ssa, x)), Forked(next), m, m');
    assert Existing(Bump(ssa, x), Ver(x, Advanced(ssa, x)));
  }

  lemma JoinAgrees(r: Rule, c: Cond<string>, t: Prog, f: Prog, ssa: Counters, m: Model, m': Model, div0: real -> real)
    requires Encodable(t, ssa) && Encodable(f, Next(t, ssa)) && CondRefs(c) <= ssa.Keys
    requires CanBump(Next(f, Next(t, ssa)), Forked(t) + Forked(f))
    requires IsIte(r, c, t, f, ssa) && RuleHolds(r, m, div0)
    requires AgreeOn(NextIf(t, f, ssa), m, m') && AgreeOn(Next(f, Next(t, ssa)), m, m') && AgreeOn(ssa, m, m')
    ensures RuleHolds(r, m', div0)
  {
    var fork, ssaF, phi := Forked(t) + Forked(f), Next(f, Next(t, ssa)), NextIf(t, f, ssa);
    var endT, endF := Ends(fork, Forked(t), Next(t, ssa), ssa), Ends(fork, Forked(f), ssaF, ssa);
    HoldsAgree(c, ssa, m, m', div0);
    ArmMeaning(r.t, fork, phi, endT, m);
    ArmMeaning(r.t, fork, phi, endT, m');
    ArmMeaning(r.f, fork, phi, endF, m);
    ArmMeaning(r.f, fork, phi, endF, m');
    forall x | x in fork
      ensures m(Ver(x, Count(phi, x))) == m'(Ver(x, Count(phi, x)))
      ensures m(Ver(x, Count(endT, x))) == m'(Ver(x, Count(endT, x)))
      ensures m(Ver(x, Count(endF, x))) == m'(Ver(x, Count(endF, x)))
    {
      EndsExist(t, f, ssa, x);
      IfGrows(t, f, ssa);
      assert Existing(phi, Ver(x, Count(phi, x)));
    }
  }

  /** Every assignment to the existing versions extends to a model of the rules of `p`. */
  lemma {:induction false} HasModel(p: Prog, ssa: Counters, code: Code, m0: Model, div0: real -> real)
    returns (m: Model)
    requires Encodes(p, ssa, code) && Encodable(p, ssa)
    ensures AgreeOn(ssa, m0, m) && CodeHolds(code, m, div0)
  {
    hide IsIte, BumpAll, RuleHolds, Rhs;
    match p
    case Done =>
      m := m0;
    case Assign(x, e, next) =>
      var m1 := StoreModel(x, e, ssa, code.rule, m0, div0);
      m := HasModel(next, Bump(ssa, x), code.next, m1, div0);
      GrownAgree(ssa, Bump(ssa, x), {x}, m1, m);
      assert RuleHolds(code.rule, m, div0) by {
        StoreKept(x, e, ssa, code.rule, m1, m, div0);
      }
    case If(c, t, _, f, next) =>
      IfGrows(t, f, ssa);
      CapGrows(Next(f, Next(t, ssa)), Forked(t) + Forked(f));
      var m1 := HasModel(t, ssa, code.t, m0, div0);
      var m2 := HasModel(f, Next(t, ssa), code.f, m1, div0);
      var m3 := JoinModel(c, t, f, ssa, code.join, m2, div0);
      m := HasModel(next, NextIf(t, f, ssa), code.next, m3, div0);
      ArmsKept(t, f, ssa, code, m0, m1, m2, m3, m, div0);
      if code.join.Some? {
        JoinAgrees(code.join.value, c, t, f, ssa, m3, m, div0);
      }
  }

  lemma StoreModel(x: string, e: Expr<string>, ssa: Counters, r: Rule, m0: Model, div0: real -> real) returns (m: Model)
    requires Refs(e) + {x} <= ssa.Keys && CanBump(ssa, {x}) && (e.Ref? ==> Count(ssa, e.v) == Count(ssa, x))
    requires r == Define(Ver(x, Advanced(ssa, x)), Rhs(ssa, x, e))
    ensures AgreeOn(ssa, m0, m) && RuleHolds(r, m, div0)
  {
    m := (v: Ver) => if v == r.v then Eval(r.e, m0, div0) else m0(v);
    RhsAgrees(x, e, ssa, m0, m, div0);
  }

  lemma StoreKept(x: string, e: Expr<string>, ssa: Counters, r: Rule, m: Model, m': Model, div0: real -> real)
    requires Refs(e) + {x} <= ssa.Keys && (e.Ref? ==> Count(ssa, e.v) == Count(ssa, x))
    requires r == Define(Ver(x, Advanced(ssa, x)), Rhs(ssa, x, e))
    requires AgreeOn(ssa, m, m') && AgreeOn(Bump(ssa, x), m, m') && RuleHolds(r, m, div0)
    ensures RuleHolds(r, m', div0)
  {
    RhsAgrees(x, e, ssa, m, m', div0);
    assert Existing(Bump(ssa, x), r.v);
  }

  lemma JoinModel(c: Cond<string>, t: Prog, f: Prog, ssa: Counters, join: Option<Rule>, m0: Model, div0: real -> real)
    returns (m: Model)
    requires Encodable(t, ssa) && Encodable(f, Next(t, ssa)) && CondRefs(c) <= ssa.Keys
    requires CanBump(Next(f, Next(t, ssa)), Forked(t) + Forked(f))
    requires join.Some? ==> IsIte(join.value, c, t, f, ssa)
    ensures AgreeOn(Next(f, Next(t, ssa)), m0, m)
    ensures join.Some? ==> RuleHolds(join.value, m, div0)
  {
    if join.None? {
      return m0;
    }
    var r, fork, ssaF, phi := join.value, Forked(t) + Forked(f), Next(f, Next(t, ssa)), NextIf(t, f, ssa);
    var endT, endF := Ends(fork, Forked(t), Next(t, ssa), ssa), Ends(fork, Forked(f), ssaF, ssa);
    var end := if Holds(r.c, m0, div0) then endT else endF;
    IfGrows(t, f, ssa);
    m := (v: Ver) =>
      if v.base in fork && v.num == Count(phi, v.base) then m0(Ver(v.base, Count(end, v.base))) else m0(v);
    assert AgreeOn(ssaF, m0, m) by {
      hide Encodable, Next, Forked, IsIte, Ends, NextIf;
      forall v | Existing(ssaF, v) ensures m(v) == m0(v) {
        assert v.base in fork ==> Count(phi, v.base) == ssaF[v.base] + 1;
      }
    }
    GrownAgree(Next(t, ssa), ssaF, Forked(f), m0, m);
    GrownAgree(ssa, Next(t, ssa), Forked(t), m0, m);
    HoldsAgree(c, ssa, m0, m, div0);
    forall x | x in fork
      ensures m(Ver(x, Count(phi, x))) == m(Ver(x, Count(end, x)))
    {
      EndsExist(t, f, ssa, x);
      assert m(Ver(x, Count(end, x))) == m0(Ver(x, Count(end, x)));
    }
    ArmMeaning(r.t, fork, phi, endT, m);
    ArmMeaning(r.f, fork, phi, endF, m);
  }

  lemma ArmsKept(t: Prog, f: Prog, ssa: Counters, code: Code, m0: Model, m1: Model, m2: Model, m3: Model, m: Model,
                 div0: real -> real)
    requires code.Branched? && Encodes(t, ssa, code.t) && Encodes(f, Next(t, ssa), code.f)
    requires Encodable(t, ssa) && Encodable(f, Next(t, ssa))
    requires CanBump(Next(f, Next(t, ssa)), Forked(t) + Forked(f))
    requires CodeHolds(code.t, m1, div0) && CodeHolds(code.f, m2, div0)
    requires AgreeOn(ssa, m0, m1) && AgreeOn(Next(t, ssa), m1, m2)
    requires AgreeOn(Next(f, Next(t, ssa)), m2, m3) && AgreeOn(NextIf(t, f, ssa), m3, m)
    ensures AgreeOn(ssa, m0, m) && CodeHolds(code.t, m, div0) && CodeHolds(code.f, m, div0)
    ensures AgreeOn(Next(f, Next(t, ssa)), m3, m) && AgreeOn(ssa, m3, m)
  {
    var ssaT, ssaF, fork := Next(t, ssa), Next(f, Next(t, ssa)), Forked(t) + Forked(f);
    IfGrows(t, f, ssa);
    CapGrows(ssaF, fork);
    GrownAgree(ssaF, NextIf(t, f, ssa), fork, m3, m);
    assert AgreeOn(ssaF, m2, m);
    GrownAgree(ssaT, ssaF, Forked(f), m2, m);
    assert AgreeOn(ssaT, m1, m);
    GrownAgree(ssa, ssaT, Forked(t), m1, m);
    GrownAgree(ssaT, ssaF, Forked(f), m3, m);
    GrownAgree(ssa, ssaT, Forked(t), m3, m);
    CodeAgrees(t, ssa, code.t, m1, m, div0);
    CodeAgrees(f, ssaT, code.f, m2, m, div0);
  }

  lemma {:induction false} NeedsAreStored(p: Prog, ssa: Counters)
    requires Encodable(p, ssa)
    ensures Needs(p) <= ssa.Keys
  {
    hide CanBump, BumpAll;
    match p
    case Done =>
    case Assign(x, e, next) => NeedsAreStored(next, Bump(ssa, x));
    case If(c, t, _, f, next) =>
      IfGrows(t, f, ssa);
      NeedsAreStored(t, ssa);
      NeedsAreStored(f, Next(t, ssa));
      NeedsAreStored(next, NextIf(t, f, ssa));
  }

  /** What the rules of a program allow, whatever order the generator lists an arm's
      equations in. Take any values `m0` for the versions existing before `p`, holding the
      store `s`: some model of the rules extends them, all models extending them agree on
      every version existing after `p`, and in each of them every variable's newest version
      has the value the rules mean. */
  lemma ConditionalMeant(p: Prog, ssa: Counters, show: real -> string, ru: seq<Rule>, m0: Model, s: Store,
                         div0: real -> real)
    requires Produces(p, ssa, show, ru) && Encodable(p, ssa)
    requires Tracks(m0, ssa, s, ssa.Keys)
    ensures exists m :: AgreeOn(ssa, m0, m) && Sat(ru, m, div0)
    ensures forall m, m' :: AgreeOn(ssa, m0, m) && Sat(ru, m, div0) && AgreeOn(ssa, m0, m') && Sat(ru, m', div0) ==>
              AgreeOn(Next(p, ssa), m, m')
    ensures forall m :: AgreeOn(ssa, m0, m) && Sat(ru, m, div0) ==>
              Tracks(m, Next(p, ssa), Meant(p, s, div0), Next(p, ssa).Keys)
  {
    hide Shows, Emitting, Emits, Encodes, Encodable, Next, Meant, Flatten, CodeHolds, Sat;
    var code := CodeOf(p, ssa, ru);
    var m0' := HasModel(p, ssa, code, m0, div0);
    CodeHoldsFlat(code, m0', div0);
    forall m: Model, m': Model | AgreeOn(ssa, m0, m) && Sat(ru, m, div0) && AgreeOn(ssa, m0, m') && Sat(ru, m', div0)
      ensures AgreeOn(Next(p, ssa), m, m')
    {
      CodeHoldsFlat(code, m, div0);
      CodeHoldsFlat(code, m', div0);
      Determined(p, ssa, code, m, m', div0);
    }
    NeedsAreStored(p, ssa);
    NextGrows(p, ssa);
    forall m: Model | AgreeOn(ssa, m0, m) && Sat(ru, m, div0)
      ensures Tracks(m, Next(p, ssa), Meant(p, s, div0), Next(p, ssa).Keys)
    {
      CodeHoldsFlat(code, m, div0);
      forall x | x in ssa.Keys ensures m(Ver(x, Count(ssa, x))) == Lookup(s)(x) {
        assert Existing(ssa, Ver(x, Count(ssa, x)));
      }
      FollowsMeant(p, ssa, code, m, div0, s, ssa.Keys);
    }
  }

  lemma CodeOf(p: Prog, ssa: Counters, ru: seq<Rule>) returns (code: Code)
    requires Emits(p, ssa, ru)
    ensures Encodes(p, ssa, code) && ru == Flatten(code)
  {
    hide Encodes, Flatten;
    code :| Encodes(p, ssa, code) && ru == Flatten(code);
  }

  /** The rules are exact for a variable if and only if what they mean is what the run
      leaves: each model has the run's value of `x` exactly in that case, and there is one. */
  lemma ConditionalExactWhen(p: Prog, ssa: Counters, show: real -> string, ru: seq<Rule>, m0: Model, s: Store,
                             div0: real -> real)
    requires Produces(p, ssa, show, ru) && Encodable(p, ssa)
    requires Tracks(m0, ssa, s, ssa.Keys)
    ensures exists m :: AgreeOn(ssa, m0, m) && Sat(ru, m, div0)
    ensures forall m, x :: AgreeOn(ssa, m0, m) && Sat(ru, m, div0) && x in ssa ==>
              (m(Ver(x, Count(Next(p, ssa), x))) == Lookup(Run(p, s, div0))(x) <==>
               Lookup(Meant(p, s, div0))(x) == Lookup(Run(p, s, div0))(x))
  {
    hide Produces, Encodable, Next, Meant, Run, Sat;
    ConditionalMeant(p, ssa, show, ru, m0, s, div0);
    NextGrows(p, ssa);
  }

  /** So the encoding is exact where no else arm needs what its then arm writes: in every
      model each variable's newest version has the value that running `p` from `s` gives. */
  lemma ConditionalExact(p: Prog, ssa: Counters, show: real -> string, ru: seq<Rule>, m0: Model, s: Store,
                         div0: real -> real)
    requires Produces(p, ssa, show, ru) && Encodable(p, ssa) && Separate(p)
    requires Tracks(m0, ssa, s, ssa.Keys)
    ensures exists m :: AgreeOn(ssa, m0, m) && Sat(ru, m, div0)
    ensures forall m, m' :: AgreeOn(ssa, m0, m) && Sat(ru, m, div0) && AgreeOn(ssa, m0, m') && Sat(ru, m', div0) ==>
              AgreeOn(Next(p, ssa), m, m')
    ensures forall m :: AgreeOn(ssa, m0, m) && Sat(ru, m, div0) ==>
              Tracks(m, Next(p, ssa), Run(p, s, div0), Next(p, ssa).Keys)
  {
    hide Produces, Encodable, Next, Meant, Run, Sat, Lookup, Separate;
    ConditionalMeant(p, ssa, show, ru, m0, s, div0);
    MeantIsRun(p, s, div0);
  }

  // The order of the rules.

  ghost predicate Uses(r: Rule, v: Ver) {
    match r
    case Define(_, e) => v in Refs(e)
    case Ite(c, t, f) => v in CondRefs(c) || UsedIn(t, v) || UsedIn(f, v)
    case Phi(end, nums) => v.base == end.base && v.num in nums
  }

  ghost predicate UsedIn(eqs: seq<Eqn>, v: Ver) {
    exists i :: 0 <= i < |eqs| && eqs[i].val == v
  }

  ghost predicate Introduces(r: Rule, v: Ver) {
    match r
    case Define(w, _) => v == w
    case Ite(_, t, _) => exists i :: 0 <= i < |t| && t[i].phi == v
    case Phi(end, _) => v == end
  }

  ghost predicate IntroducedBy(ru: seq<Rule>, v: Ver) {
    exists j :: 0 <= j < |ru| && Introduces(ru[j], v)
  }

  /** From the versions of `ssa` on, each rule uses what is there or was introduced before,
      and in the end all versions of `ssa'` are there. */
  ghost predicate InOrder(ru: seq<Rule>, ssa: Counters, ssa': Counters) {
    && (forall i, v :: 0 <= i < |ru| && Uses(ru[i], v) ==> Existing(ssa, v) || IntroducedBy(ru[..i], v))
    && forall v :: Existing(ssa', v) ==> Existing(ssa, v) || IntroducedBy(ru, v)
  }

  lemma InOrderConcat(a: seq<Rule>, b: seq<Rule>, ssa: Counters, ssa': Counters, ssa'': Counters)
    requires InOrder(a, ssa, ssa') && InOrder(b, ssa', ssa'')
    ensures InOrder(a + b, ssa, ssa'')
  {
    hide Uses, Introduces, Existing;
    forall i, v | 0 <= i < |a + b| && Uses((a + b)[i], v)
      ensures Existing(ssa, v) || IntroducedBy((a + b)[..i], v)
    {
      if i < |a| {
        assert (a + b)[..i] == a[..i];
      } else {
        assert (a + b)[..i] == a + b[..i - |a|];
        IntroducedConcat(a, b[..i - |a|], v);
      }
    }
    forall v ensures IntroducedBy(a, v) || IntroducedBy(b, v) ==> IntroducedBy(a + b, v) {
      IntroducedConcat(a, b, v);
    }
  }

  lemma IntroducedConcat(a: seq<Rule>, b: seq<Rule>, v: Ver)
    ensures IntroducedBy(a, v) || IntroducedBy(b, v) ==> IntroducedBy(a + b, v)
  {
    hide Introduces;
    if j :| 0 <= j < |a| && Introduces(a[j], v) {
      assert (a + b)[j] == a[j];
    }
    if j :| 0 <= j < |b| && Introduces(b[j], v) {
      assert (a + b)[|a| + j] == b[j];
    }
  }

  lemma OneInOrder(r: Rule, ssa: Counters, ssa': Counters)
    requires forall v :: Uses(r, v) ==> Existing(ssa, v)
    requires forall v :: Existing(ssa', v) ==> Existing(ssa, v) || Introduces(r, v)
    ensures InOrder([r], ssa, ssa')
  {
    hide Uses, Introduces, Existing;
    forall v | Introduces(r, v) ensures IntroducedBy([r], v) {
      assert Introduces([r][0], v);
    }
  }

  lemma NothingInOrder(ssa: Counters)
    ensures InOrder([], ssa, ssa)
  {
  }

  /** The rules of a program use a version only once it has been introduced. */
  lemma {:induction false} IntroducedBeforeUse(p: Prog, ssa: Counters, code: Code)
    requires Encodes(p, ssa, code) && Encodable(p, ssa)
    ensures InOrder(Flatten(code), ssa, Next(p, ssa))
  {
    hide IsIte, BumpAll, Rhs, InOrder, CanBump, Forked;
    match p
    case Done => NothingInOrder(ssa);
    case Assign(x, e, next) =>
      IntroducedBeforeUse(next, Bump(ssa, x), code.next);
      StoreInOrder(x, e, ssa, code.rule);
      InOrderConcat([code.rule], Flatten(code.next), ssa, Bump(ssa, x), Next(p, ssa));
    case If(c, t, _, f, next) =>
      IntroducedBeforeUse(t, ssa, code.t);
      IntroducedBeforeUse(f, Next(t, ssa), code.f);
      IntroducedBeforeUse(next, NextIf(t, f, ssa), code.next);
      var j, ssaF := if code.join.Some? then [code.join.value] else [], Next(f, Next(t, ssa));
      if code.join.Some? {
        JoinInOrder(c, t, f, ssa, code.join.value);
      } else {
        Forks.ClosedBranch(t, f, ssa);
        NothingInOrder(ssaF);
      }
      InOrderConcat(Flatten(code.t), Flatten(code.f), ssa, Next(t, ssa), ssaF);
      InOrderConcat(Flatten(code.t) + Flatten(code.f), j, ssa, ssaF, NextIf(t, f, ssa));
      InOrderConcat(Flatten(code.t) + Flatten(code.f) + j, Flatten(code.next), ssa, NextIf(t, f, ssa), Next(p, ssa));
  }

  lemma StoreInOrder(x: string, e: Expr<string>, ssa: Counters, r: Rule)
    requires Refs(e) + {x} <= ssa.Keys && CanBump(ssa, {x}) && (e.Ref? ==> Count(ssa, e.v) == Count(ssa, x))
    requires r == Define(Ver(x, Advanced(ssa, x)), Rhs(ssa, x, e))
    ensures InOrder([r], ssa, Bump(ssa, x))
  {
    AtExisting(e, ssa);
    forall v | Existing(Bump(ssa, x), v) ensures Existing(ssa, v) || Introduces(r, v) {
      if v.base != x { assert Existing(ssa, v); }
    }
    OneInOrder(r, ssa, Bump(ssa, x));
  }

  lemma {:induction false} AtExisting(e: Expr<string>, ssa: Counters)
    requires Refs(e) <= ssa.Keys
    ensures forall v :: v in Refs(At(ssa, e)) ==> Existing(ssa, v)
  {
    match e
    case Lit(_) =>
    case Ref(_) =>
    case Bin(_, l, r) => AtExisting(l, ssa); AtExisting(r, ssa);
  }

  lemma {:induction false} CondAtExisting(c: Cond<string>, ssa: Counters)
    requires CondRefs(c) <= ssa.Keys
    ensures forall v :: v in CondRefs(CondAt(ssa, c)) ==> Existing(ssa, v)
  {
    match c
    case Cmp(_, l, r) => AtExisting(l, ssa); AtExisting(r, ssa);
    case And(c0, c1) => CondAtExisting(c0, ssa); CondAtExisting(c1, ssa);
    case Or(c0, c1) => CondAtExisting(c0, ssa); CondAtExisting(c1, ssa);
    case Not(c0) => CondAtExisting(c0, ssa);
  }

  lemma JoinInOrder(c: Cond<string>, t: Prog, f: Prog, ssa: Counters, r: Rule)
    requires Encodable(t, ssa) && Encodable(f, Next(t, ssa)) && CondRefs(c) <= ssa.Keys
    requires CanBump(Next(f, Next(t, ssa)), Forked(t) + Forked(f)) && IsIte(r, c, t, f, ssa)
    ensures InOrder([r], Next(f, Next(t, ssa)), NextIf(t, f, ssa))
  {
    var fork, ssaF, phi := Forked(t) + Forked(f), Next(f, Next(t, ssa)), NextIf(t, f, ssa);
    var endT, endF := Ends(fork, Forked(t), Next(t, ssa), ssa), Ends(fork, Forked(f), ssaF, ssa);
    hide Encodable, Next, NextIf, Forked, Ends, IsArm;
    ArmTotalFunctional(r.t, fork, phi, endT);
    ArmTotalFunctional(r.f, fork, phi, endF);
    CondAtExisting(c, ssa);
    IfGrows(t, f, ssa);
    forall v | Uses(r, v) ensures Existing(ssaF, v) {
      if UsedIn(r.t, v) || UsedIn(r.f, v) {
        var x := v.base;
        EndsExist(t, f, ssa, x);
      }
    }
    forall v | Existing(phi, v) ensures Existing(ssaF, v) || Introduces(r, v) {
      if v.base in fork && !Existing(ssaF, v) {
        var x := v.base;
        assert v == Ver(x, Count(phi, x));
        var i :| 0 <= i < |r.t| && r.t[i] == Eqn(Ver(x, Count(phi, x)), Ver(x, Count(endT, x)));
      }
    }
    OneInOrder(r, ssaF, phi);
  }

  // The first store of a variable.

  /** The first store of a variable defines its version 0, and then all is as before. */
  lemma FirstStore(x: string, e: Expr<string>, next: Prog, ssa: Counters, show: real -> string, ru: seq<Rule>,
                   m0: Model, s: Store, div0: real -> real)
    requires x !in ssa && Refs(e) <= ssa.Keys && (e.Ref? ==> ssa[e.v] == 0)
    requires Produces(Assign(x, e, next), ssa, show, ru) && Encodable(next, ssa[x := 0])
    requires Tracks(m0, ssa, s, ssa.Keys)
    ensures ru != [] && ru[0] == Define(Ver(x, 0), At(ssa, e))
    ensures Next(Assign(x, e, next), ssa) == Next(next, ssa[x := 0])
    ensures exists m :: AgreeOn(ssa, m0, m) && Sat(ru, m, div0)
    ensures forall m :: AgreeOn(ssa, m0, m) && Sat(ru, m, div0) ==>
              Tracks(m, Next(next, ssa[x := 0]), Meant(Assign(x, e, next), s, div0), Next(next, ssa[x := 0]).Keys)
  {
    hide Shows, Emitting, Emits, Encodable, Sat;
    var p, ssa' := Assign(x, e, next), ssa[x := 0];
    var code := CodeOf(p, ssa, ru);
    assert Bump(ssa, x) == ssa' && Rhs(ssa, x, e) == At(ssa, e);
    var m1 := FirstModel(x, e, next, ssa, code, m0, div0);
    CodeHoldsFlat(code, m1, div0);
    forall m: Model | AgreeOn(ssa, m0, m) && Sat(ru, m, div0)
      ensures Tracks(m, Next(next, ssa'), Meant(p, s, div0), Next(next, ssa').Keys)
    {
      CodeHoldsFlat(code, m, div0);
      FirstFollows(x, e, next, ssa, code, m0, m, s, div0);
    }
  }

  lemma FirstModel(x: string, e: Expr<string>, next: Prog, ssa: Counters, code: Code, m0: Model, div0: real -> real)
    returns (m: Model)
    requires x !in ssa && Refs(e) <= ssa.Keys && Encodable(next, ssa[x := 0]) && code.Stored?
    requires code.rule == Define(Ver(x, 0), At(ssa, e)) && Encodes(next, ssa[x := 0], code.next)
    ensures AgreeOn(ssa, m0, m) && CodeHolds(code, m, div0)
  {
    hide Encodes, Encodable;
    var value := Eval(At(ssa, e), m0, div0);
    var m1 := (v: Ver) => if v == Ver(x, 0) then value else m0(v);
    m := HasModel(next, ssa[x := 0], code.next, m1, div0);
    forall v | Existing(ssa, v) ensures m(v) == m0(v) { assert Existing(ssa[x := 0], v); }
    EvalAgree(e, ssa, m0, m, div0);
    assert Existing(ssa[x := 0], Ver(x, 0));
  }

  lemma FirstFollows(x: string, e: Expr<string>, next: Prog, ssa: Counters, code: Code, m0: Model, m: Model,
                     s: Store, div0: real -> real)
    requires x !in ssa && Refs(e) <= ssa.Keys && Encodable(next, ssa[x := 0]) && code.Stored?
    requires code.rule == Define(Ver(x, 0), At(ssa, e)) && Encodes(next, ssa[x := 0], code.next)
    requires AgreeOn(ssa, m0, m) && CodeHolds(code, m, div0) && Tracks(m0, ssa, s, ssa.Keys)
    ensures Tracks(m, Next(next, ssa[x := 0]), Meant(Assign(x, e, next), s, div0), Next(next, ssa[x := 0]).Keys)
  {
    hide Encodes, Encodable, Next, Needs;
    var ssa', s' := ssa[x := 0], s[x := Eval(e, Lookup(s), div0)];
    forall y | y in ssa.Keys ensures m(Ver(y, Count(ssa, y))) == Lookup(s)(y) {
      assert Existing(ssa, Ver(y, Count(ssa, y)));
    }
    EvalAt(ssa, e, m, s, div0);
    assert Tracks(m, ssa', s', ssa'.Keys);
    NeedsAreStored(next, ssa');
    NextGrows(next, ssa');
    FollowsMeant(next, ssa', code.next, m, div0, s', ssa'.Keys);
  }

  // The fragment in terms a user can check on the program text.

  /** An upper bound on how often `p` advances any one counter. */
  function Advances(p: Prog): nat {
    match p
    case Done => 0
    case Assign(_, _, next) => 1 + Advances(next)
    case If(_, t, _, f, next) => 1 + Advances(t) + Advances(f) + Advances(next)
  }

  /** Every counter can be advanced `n` more times without wrapping. */
  predicate Room(ssa: Counters, n: nat) {
    forall x :: x in ssa ==> ssa[x] + n <= MAX_VERSION
  }

  /** No bare copies, and no else arm needs what its then arm writes. */
  predicate Independent(p: Prog) {
    match p
    case Done => true
    case Assign(_, e, next) => !e.Ref? && Independent(next)
    case If(c, t, _, f, next) => Needs(f) !! Writes(t) && Independent(t) && Independent(f) && Independent(next)
  }

  /** A program with stores and guards that can be emitted, without bare copies, with every
      else arm independent of what its then arm writes, everything stored before and fewer
      than 32768 versions is emitted, and exactly. */
  lemma IndependentEncodable(p: Prog, ssa: Counters, show: real -> string)
    requires Shows(show) && Emittable(p, show) && Independent(p)
    requires Touched(p) <= ssa.Keys && Room(ssa, Advances(p))
    ensures Encodable(p, ssa) && Separate(p) && Emitting(p, ssa, show) == Emitted(())
  {
    IndependentFits(p, ssa, 0);
    EmissionSucceeds(p, ssa, show);
  }

  lemma {:induction false} IndependentFits(p: Prog, ssa: Counters, n: nat)
    requires Independent(p) && Touched(p) <= ssa.Keys && Room(ssa, Advances(p) + n)
    ensures Encodable(p, ssa) && Separate(p)
    ensures Next(p, ssa).Keys == ssa.Keys && Room(Next(p, ssa), n)
    decreases p
  {
    match p
    case Done =>
    case Assign(x, e, next) => IndependentFits(next, Bump(ssa, x), n);
    case If(c, t, _, f, next) =>
      IndependentFits(t, ssa, Advances(f) + 1 + Advances(next) + n);
      IndependentFits(f, Next(t, ssa), 1 + Advances(next) + n);
      CapRoom(t, f, ssa, Advances(next) + n);
      IndependentFits(next, NextIf(t, f, ssa), n);
  }

  lemma CapRoom(t: Prog, f: Prog, ssa: Counters, n: nat)
    requires Encodable(t, ssa) && Encodable(f, Next(t, ssa))
    requires Room(Next(f, Next(t, ssa)), n + 1)
    ensures CanBump(Next(f, Next(t, ssa)), Forked(t) + Forked(f))
    ensures NextIf(t, f, ssa).Keys == ssa.Keys && Room(NextIf(t, f, ssa), n)
  {
    NextGrows(t, ssa);
    NextGrows(f, Next(t, ssa));
    CapGrows(Next(f, Next(t, ssa)), Forked(t) + Forked(f));
  }

  // Where arms do not keep apart.

  /** An else arm that merely reads the variable its then arm stores makes the store
      unconditional: the choice of the else arm ends at the version it read. The rules are
      then exact for the variable if and only if the guard holds or the store changes
      nothing. */
  lemma ElseOnlyReads(c: Cond<string>, x: string, e: Expr<string>, y: string, e': Expr<string>, ssa: Counters,
                      show: real -> string, ru: seq<Rule>, m0: Model, m: Model, s: Store, div0: real -> real)
    requires x !in {y} && x in Refs(e') && x in ssa
    requires var p := If(c, Assign(x, e, Done), true, Assign(y, e', Done), Done);
             Produces(p, ssa, show, ru) && Encodable(p, ssa)
    requires Tracks(m0, ssa, s, ssa.Keys) && AgreeOn(ssa, m0, m) && Sat(ru, m, div0)
    ensures var p := If(c, Assign(x, e, Done), true, Assign(y, e', Done), Done);
            var end := m(Ver(x, Count(Next(p, ssa), x)));
            && end == Eval(e, Lookup(s), div0)
            && (end == Lookup(Run(p, s, div0))(x) <==>
                Holds(c, Lookup(s), div0) || Eval(e, Lookup(s), div0) == Lookup(s)(x))
  {
    hide Produces, Encodable, Next, Sat, Meant, Run, Eval, Holds, Lookup;
    var p := If(c, Assign(x, e, Done), true, Assign(y, e', Done), Done);
    ConditionalMeant(p, ssa, show, ru, m0, s, div0);
    NextGrows(p, ssa);
    assert x in Next(p, ssa).Keys;
    OnlyReadsMeant(c, x, e, y, e', s, div0);
    OnlyReadsRun(c, x, e, y, e', s, div0);
  }

  lemma OnlyReadsMeant(c: Cond<string>, x: string, e: Expr<string>, y: string, e': Expr<string>, s: Store,
                       div0: real -> real)
    requires x !in {y} && x in Refs(e')
    ensures var p := If(c, Assign(x, e, Done), true, Assign(y, e', Done), Done);
            Lookup(Meant(p, s, div0))(x) == Eval(e, Lookup(s), div0)
  {
    hide Eval, Holds, Update;
    var t, f := Assign(x, e, Done), Assign(y, e', Done);
    var sT := s[x := Eval(e, Lookup(s), div0)];
    var sF := sT[y := Eval(e', Lookup(sT), div0)];
    assert Meant(t, s, div0) == sT && Meant(f, sT, div0) == sF by {
      assert Meant(Done, sT, div0) == sT && Meant(Done, sF, div0) == sF;
    }
    assert x in Forked(t) && x in Forked(f);
    UpdatedAt(s, sT, Forked(t), x);
    UpdatedAt(s, sF, Forked(f), x);
  }

  lemma OnlyReadsRun(c: Cond<string>, x: string, e: Expr<string>, y: string, e': Expr<string>, s: Store,
                     div0: real -> real)
    requires x !in {y}
    ensures var p := If(c, Assign(x, e, Done), true, Assign(y, e', Done), Done);
            Lookup(Run(p, s, div0))(x) == if Holds(c, Lookup(s), div0) then Eval(e, Lookup(s), div0) else Lookup(s)(x)
  {
    hide Eval, Holds;
    OneRun(x, e, s, div0);
    var s' := s[y := Eval(e', Lookup(s), div0)];
    assert Run(Done, s', div0) == s';
  }

  /** `if z > 0 { x = 1 } else { y = x + 1 }` from z = 0 and x = 0: every model of its rules
      ends with x at 1, and the run leaves 0. */
  lemma ElseOnlyReadsExample(show: real -> string, ru: seq<Rule>, m0: Model, m: Model, div0: real -> real)
    requires var p := If(Cmp(Gt, Ref("z"), Lit(0.0)), Assign("x", Lit(1.0), Done), true,
                         Assign("y", Bin(Plus, Ref("x"), Lit(1.0)), Done), Done);
             Produces(p, map["x" := 0, "y" := 0, "z" := 0], show, ru)
    requires forall v :: m0(v) == 0.0
    requires AgreeOn(map["x" := 0, "y" := 0, "z" := 0], m0, m) && Sat(ru, m, div0)
    ensures m(Ver("x", 2)) == 1.0
    ensures var p := If(Cmp(Gt, Ref("z"), Lit(0.0)), Assign("x", Lit(1.0), Done), true,
                        Assign("y", Bin(Plus, Ref("x"), Lit(1.0)), Done), Done);
            Count(Next(p, map["x" := 0, "y" := 0, "z" := 0]), "x") == 2 && Lookup(Run(p, map[], div0))("x") == 0.0
  {
    hide Produces, Sat;
    var ssa := map["x" := 0, "y" := 0, "z" := 0];
    var c := Cmp(Gt, Ref("z"), Lit(0.0));
    var e: Expr<string>, e' := Lit(1.0), Bin(Plus, Ref("x"), Lit(1.0));
    var t, f := Assign("x", e, Done), Assign("y", e', Done);
    var p := If(c, t, true, f, Done);
    assert "x" !in {"y"} by { assert "x"[0] != "y"[0]; }
    var ssaT := Bump(ssa, "x");
    var ssaF := Bump(ssaT, "y");
    assert Next(t, ssa) == ssaT && Next(f, ssaT) == ssaF by {
      assert Next(Done, ssaT) == ssaT && Next(Done, ssaF) == ssaF;
    }
    assert Encodable(t, ssa) && Encodable(f, ssaT);
    ElseOnlyReads(c, "x", e, "y", e', ssa, show, ru, m0, m, map[], div0);
    assert !Holds(c, Lookup(map[]), div0);
  }

  /** An else arm updating the variable its then arm stores reads the then arm's version.
      The constraints then follow the run if and only if the guard holds or the update
      happens to give the same value from the then arm's value as from the old one. */
  lemma ElseReadsThenArm(c: Cond<string>, x: string, e: Expr<string>, op: Arith, k: real,
                         ssa: Counters, ru: seq<Rule>, m: Model, s: Store, div0: real -> real)
    requires !e.Ref? && CondRefs(c) + Refs(e) + {x} <= ssa.Keys && ssa[x] + 3 <= MAX_VERSION
    requires Tracks(m, ssa, s, ssa.Keys)
    requires var p := If(c, Assign(x, e, Done), true, Assign(x, Bin(op, Ref(x), Lit(k)), Done), Done);
             Emits(p, ssa, ru) && Sat(ru, m, div0)
    ensures var p := If(c, Assign(x, e, Done), true, Assign(x, Bin(op, Ref(x), Lit(k)), Done), Done);
            (m(Ver(x, Count(Next(p, ssa), x))) == Lookup(Run(p, s, div0))(x)) <==>
            || Holds(c, Lookup(s), div0)
            || Apply(op, Eval(e, Lookup(s), div0), k, div0) == Apply(op, Lookup(s)(x), k, div0)
  {
    hide Next, Emits, Sat, Holds;
    var t, f := Assign(x, e, Done), Assign(x, Bin(op, Ref(x), Lit(k)), Done);
    var p := If(c, t, true, f, Done);
    ElseReadsRules(c, x, e, op, k, ssa, ru, m, s, div0);
    OneRun(x, e, s, div0);
    OneRun(x, Bin(op, Ref(x), Lit(k)), s, div0);
    assert Run(p, s, div0) == if Holds(c, Lookup(s), div0) then Run(t, s, div0) else Run(f, s, div0);
  }

  /** What the rules of `ElseReadsThenArm` say of the newest version. */
  lemma ElseReadsRules(c: Cond<string>, x: string, e: Expr<string>, op: Arith, k: real,
                       ssa: Counters, ru: seq<Rule>, m: Model, s: Store, div0: real -> real)
    requires !e.Ref? && CondRefs(c) + Refs(e) + {x} <= ssa.Keys && ssa[x] + 3 <= MAX_VERSION
    requires Tracks(m, ssa, s, ssa.Keys)
    requires var p := If(c, Assign(x, e, Done), true, Assign(x, Bin(op, Ref(x), Lit(k)), Done), Done);
             Emits(p, ssa, ru) && Sat(ru, m, div0)
    ensures var p := If(c, Assign(x, e, Done), true, Assign(x, Bin(op, Ref(x), Lit(k)), Done), Done);
            m(Ver(x, Count(Next(p, ssa), x))) ==
            var v := Eval(e, Lookup(s), div0);
            if Holds(c, Lookup(s), div0) then v else Apply(op, v, k, div0)
  {
    hide IsIte, Flatten, BumpAll, Sat;
    var t, f := Assign(x, e, Done), Assign(x, Bin(op, Ref(x), Lit(k)), Done);
    var p, n := If(c, t, true, f, Done), ssa[x];
    var code :| Encodes(p, ssa, code) && ru == Flatten(code);
    CodeHoldsFlat(code, m, div0);
    OneStore(x, e, ssa, code.t);
    OneStore(x, Bin(op, Ref(x), Lit(k)), Next(t, ssa), code.f);
    JoinedValue(c, x, t, f, ssa, code.join.value, m, s, div0);
    assert Next(p, ssa) == NextIf(t, f, ssa);
    assert RuleHolds(code.t.rule, m, div0) && RuleHolds(code.f.rule, m, div0);
    EvalAt(ssa, e, m, s, div0);
    assert Eval(Bin(op, Ref(Ver(x, n + 1)), Lit(k)), m, div0) == Apply(op, m(Ver(x, n + 1)), k, div0);
  }

  lemma OneRun(x: string, e: Expr<string>, s: Store, div0: real -> real)
    ensures Lookup(Run(Assign(x, e, Done), s, div0))(x) == Eval(e, Lookup(s), div0)
  {
    var s' := s[x := Eval(e, Lookup(s), div0)];
    assert Run(Done, s', div0) == s';
  }

  lemma OneStore(x: string, e: Expr<string>, ssa: Counters, code: Code)
    requires Encodes(Assign(x, e, Done), ssa, code) && x in ssa && ssa[x] < MAX_VERSION && !e.Ref?
    ensures Next(Assign(x, e, Done), ssa) == ssa[x := ssa[x] + 1]
    ensures Forked(Assign(x, e, Done)) == {x} + Refs(e)
    ensures code == Stored(Define(Ver(x, ssa[x] + 1), At(ssa, e)), Nothing)
  {
    assert Next(Done, Bump(ssa, x)) == Bump(ssa, x);
  }

  /** The phi an `Ite` gives a variable both arms mention. */
  lemma JoinedValue(c: Cond<string>, x: string, t: Prog, f: Prog, ssa: Counters, r: Rule, m: Model, s: Store,
                    div0: real -> real)
    requires Tracks(m, ssa, s, CondRefs(c)) && x in Forked(t) && x in Forked(f)
    requires IsIte(r, c, t, f, ssa) && RuleHolds(r, m, div0)
    ensures m(Ver(x, Count(NextIf(t, f, ssa), x))) ==
            m(Ver(x, Count(if Holds(c, Lookup(s), div0) then Next(t, ssa) else Next(f, Next(t, ssa)), x)))
  {
    hide Next, NextIf, Forked;
    var fork, phi, ssaT := Forked(t) + Forked(f), NextIf(t, f, ssa), Next(t, ssa);
    HoldsAt(ssa, c, m, s, div0);
    ArmMeaning(r.t, fork, phi, Ends(fork, Forked(t), ssaT, ssa), m);
    ArmMeaning(r.f, fork, phi, Ends(fork, Forked(f), Next(f, ssaT), ssa), m);
  }

  /** A bare copy is numbered with the destination's counter, so it copies the source's
      value in every model if and only if the two counters agree. */
  lemma CopyExactWhenAligned(x: string, y: string, ssa: Counters, s: Store, div0: real -> real)
    requires x in ssa && y in ssa && x != y
    ensures (forall m :: Tracks(m, ssa, s, {x, y}) &&
                         RuleHolds(Define(Ver(x, Advanced(ssa, x)), Rhs(ssa, x, Ref(y))), m, div0) ==>
                         m(Ver(x, Advanced(ssa, x))) == Lookup(s)(y))
            <==> ssa[x] == ssa[y]
  {
    var r := Define(Ver(x, Advanced(ssa, x)), Rhs(ssa, x, Ref(y)));
    if ssa[x] != ssa[y] {
      var other := Lookup(s)(y) + 1.0;
      var m := (v: Ver) =>
        if v == Ver(y, ssa[y]) then Lookup(s)(y)
        else if v == Ver(x, ssa[x]) then Lookup(s)(x)
        else other;
      assert Tracks(m, ssa, s, {x, y}) && RuleHolds(r, m, div0);
      assert m(Ver(x, Advanced(ssa, x))) != Lookup(s)(y);
    }
  }
}
