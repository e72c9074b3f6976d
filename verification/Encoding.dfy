/** What the constraint generator emits for a program, stated declaratively: one
    definition per store, both arms of a conditional unconditionally, then one `Ite`
    tying a fresh version of every variable in the fork to one arm. The order in which
    an arm lists its equations is left open, as map iteration leaves it. */
module Encoding {
  import opened Lang

  /** One SSA name: variable `base` at version `num`. */
  datatype Ver = Ver(base: string, num: int)

  datatype Eqn = Eqn(phi: Ver, val: Ver)

  datatype Rule =
    | Define(v: Ver, e: Expr<Ver>)
    | Ite(c: Cond<Ver>, t: seq<Eqn>, f: seq<Eqn>)
    | Phi(end: Ver, nums: seq<int>)

  type Counters = map<string, int>

  const MAX_VERSION := 32767

  /** Go's int16 addition of one. */
  function Inc16(n: int): int {
    if n == MAX_VERSION then -MAX_VERSION - 1 else n + 1
  }

  /** Reading a missing key of a Go map yields zero. */
  function Count(ssa: Counters, x: string): int {
    if x in ssa then ssa[x] else 0
  }

  /** The counter `AdvanceSSA` leaves for `x`. */
  function Advanced(ssa: Counters, x: string): int {
    if x in ssa then Inc16(ssa[x]) else 0
  }

  function Bump(ssa: Counters, x: string): Counters {
    ssa[x := Advanced(ssa, x)]
  }

  function BumpAll(ssa: Counters, xs: set<string>): Counters {
    map x | x in ssa.Keys + xs :: if x in xs then Advanced(ssa, x) else ssa[x]
  }

  function At(ssa: Counters, e: Expr<string>): Expr<Ver> {
    match e
    case Lit(r) => Lit(r)
    case Ref(x) => Ref(Ver(x, Count(ssa, x)))
    case Bin(op, l, r) => Bin(op, At(ssa, l), At(ssa, r))
  }

  function CondAt(ssa: Counters, c: Cond<string>): Cond<Ver> {
    match c
    case Cmp(rel, l, r) => Cmp(rel, At(ssa, l), At(ssa, r))
    case And(c0, c1) => And(CondAt(ssa, c0), CondAt(ssa, c1))
    case Or(c0, c1) => Or(CondAt(ssa, c0), CondAt(ssa, c1))
    case Not(c0) => Not(CondAt(ssa, c0))
  }

  /** The right-hand side a store emits. A bare copy is numbered with the counter of
      the variable stored to; arithmetic is numbered with each operand's own counter. */
  function Rhs(ssa: Counters, x: string, e: Expr<string>): Expr<Ver> {
    if e.Ref? then Ref(Ver(e.v, Count(ssa, x))) else At(ssa, e)
  }

  /** Variables occurring in the rules of `p`; these make up the fork of a conditional.
      Guards do not contribute. */
  function Forked(p: Prog): set<string> {
    match p
    case Done => {}
    case Assign(x, e, next) => {x} + Refs(e) + Forked(next)
    case If(_, t, _, f, next) => Forked(t) + Forked(f) + Forked(next)
  }

  /** `p` gives rise to no rule at all; a conditional between two silent arms is closed
      and emits nothing itself. */
  predicate Silent(p: Prog) {
    match p
    case Done => true
    case Assign(_, _, _) => false
    case If(_, t, _, f, next) => Silent(t) && Silent(f) && Silent(next)
  }

  /** The counters after `p`. */
  function Next(p: Prog, ssa: Counters): Counters {
    match p
    case Done => ssa
    case Assign(x, _, next) => Next(next, Bump(ssa, x))
    case If(_, t, _, f, next) => Next(next, BumpAll(Next(f, Next(t, ssa)), Forked(t) + Forked(f)))
  }

  /** The counters once a conditional is capped. */
  function NextIf(t: Prog, f: Prog, ssa: Counters): Counters {
    BumpAll(Next(f, Next(t, ssa)), Forked(t) + Forked(f))
  }

  /** `eqs` holds exactly one equation for each variable of `fork`, tying its version
      in `phi` to its version in `end`. */
  ghost predicate IsArm(eqs: seq<Eqn>, fork: set<string>, phi: Counters, end: Counters) {
    if eqs == [] then fork == {}
    else
      var x := eqs[0].phi.base;
      && x in fork
      && eqs[0] == Eqn(Ver(x, Count(phi, x)), Ver(x, Count(end, x)))
      && IsArm(eqs[1..], fork - {x}, phi, end)
  }

  /** Where each variable stands at the end of an arm that mentions `mentioned`. */
  function Ends(fork: set<string>, mentioned: set<string>, after: Counters, before: Counters): Counters {
    map x | x in fork :: if x in mentioned then Count(after, x) else Count(before, x)
  }

  /** The rules of a program, kept in the shape of the program that emitted them. */
  datatype Code =
    | Nothing
    | Stored(rule: Rule, next: Code)
    | Branched(t: Code, f: Code, join: Option<Rule>, next: Code)

  /** The rules in the order they are emitted. */
  function Flatten(code: Code): seq<Rule> {
    match code
    case Nothing => []
    case Stored(r, next) => [r] + Flatten(next)
    case Branched(t, f, join, next) =>
      Flatten(t) + Flatten(f) + (if join.Some? then [join.value] else []) + Flatten(next)
  }

  /** `code` is an encoding of `p` started at counters `ssa`. */
  ghost predicate Encodes(p: Prog, ssa: Counters, code: Code) {
    match p
    case Done => code.Nothing?
    case Assign(x, e, next) =>
      && code.Stored?
      && code.rule == Define(Ver(x, Advanced(ssa, x)), Rhs(ssa, x, e))
      && Encodes(next, Bump(ssa, x), code.next)
    case If(c, t, _, f, next) =>
      && code.Branched?
      && Encodes(t, ssa, code.t)
      && Encodes(f, Next(t, ssa), code.f)
      && (if Silent(t) && Silent(f) then code.join.None? else code.join.Some? && IsIte(code.join.value, c, t, f, ssa))
      && Encodes(next, NextIf(t, f, ssa), code.next)
  }

  /** `ru` is what the generator may emit for `p` at counters `ssa`. */
  ghost predicate Emits(p: Prog, ssa: Counters, ru: seq<Rule>) {
    exists code :: Encodes(p, ssa, code) && ru == Flatten(code)
  }

  /** The constraint joining the arms `t` and `f`: the guard as read before either arm,
      and in each arm one equation per forked variable for the same fresh version. An
      arm that does not mention a variable leaves it at its version on entry. */
  ghost predicate IsIte(r: Rule, c: Cond<string>, t: Prog, f: Prog, ssa: Counters) {
    var ssaT := Next(t, ssa);
    var fork := Forked(t) + Forked(f);
    && r.Ite? && r.c == CondAt(ssa, c)
    && IsArm(r.t, fork, NextIf(t, f, ssa), Ends(fork, Forked(t), ssaT, ssa))
    && IsArm(r.f, fork, NextIf(t, f, ssa), Ends(fork, Forked(f), Next(f, ssaT), ssa))
  }

  // Meaning of rules (Core and Reals theories of SMT-LIB 2.6).

  type Model = Ver -> real

  ghost predicate EqnsHold(eqs: seq<Eqn>, m: Model) {
    forall i :: 0 <= i < |eqs| ==> m(eqs[i].phi) == m(eqs[i].val)
  }

  ghost predicate RuleHolds(r: Rule, m: Model, div0: real -> real) {
    match r
    case Define(v, e) => m(v) == Eval(e, m, div0)
    case Ite(c, t, f) => if Holds(c, m, div0) then EqnsHold(t, m) else EqnsHold(f, m)
    case Phi(end, nums) => exists i :: 0 <= i < |nums| && m(end) == m(Ver(end.base, nums[i]))
  }

  ghost predicate Sat(ru: seq<Rule>, m: Model, div0: real -> real) {
    forall i :: 0 <= i < |ru| ==> RuleHolds(ru[i], m, div0)
  }

  ghost predicate CodeHolds(code: Code, m: Model, div0: real -> real) {
    match code
    case Nothing => true
    case Stored(r, next) => RuleHolds(r, m, div0) && CodeHolds(next, m, div0)
    case Branched(t, f, join, next) =>
      && CodeHolds(t, m, div0) && CodeHolds(f, m, div0)
      && (join.Some? ==> RuleHolds(join.value, m, div0))
      && CodeHolds(next, m, div0)
  }

  lemma {:induction false} CodeHoldsFlat(code: Code, m: Model, div0: real -> real)
    ensures Sat(Flatten(code), m, div0) <==> CodeHolds(code, m, div0)
  {
    match code
    case Nothing =>
    case Stored(r, next) =>
      CodeHoldsFlat(next, m, div0);
      SatConcat([r], Flatten(next), m, div0);
      assert [r][0] == r;
    case Branched(t, f, join, next) =>
      var j := if join.Some? then [join.value] else [];
      CodeHoldsFlat(t, m, div0);
      CodeHoldsFlat(f, m, div0);
      CodeHoldsFlat(next, m, div0);
      SatConcat(Flatten(t), Flatten(f), m, div0);
      SatConcat(Flatten(t) + Flatten(f), j, m, div0);
      SatConcat(Flatten(t) + Flatten(f) + j, Flatten(next), m, div0);
      assert Flatten(code) == Flatten(t) + Flatten(f) + j + Flatten(next);
      assert Sat(j, m, div0) <==> (join.Some? ==> RuleHolds(join.value, m, div0)) by {
        assert join.Some? ==> j[0] == join.value;
      }
  }

  lemma SatConcat(a: seq<Rule>, b: seq<Rule>, m: Model, div0: real -> real)
    ensures Sat(a + b, m, div0) <==> Sat(a, m, div0) && Sat(b, m, div0)
  {
    if Sat(a + b, m, div0) {
      forall i | 0 <= i < |a| ensures RuleHolds(a[i], m, div0) { assert (a + b)[i] == a[i]; }
      forall i | 0 <= i < |b| ensures RuleHolds(b[i], m, div0) { assert (a + b)[|a| + i] == b[i]; }
    }
  }
}
