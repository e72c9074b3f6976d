/** The programs the encoder sees: stores of arithmetic into named stocks, nested
    conditionals, and the meaning of running them. `Expr` and `Cond` are generic in
    what a reference names: a variable in a program, an SSA version in a constraint. */
module Lang {
  datatype Option<+T> = None | Some(value: T)

  datatype Arith = Plus | Minus | Times | Divide

  datatype Expr<V> = Lit(value: real) | Ref(v: V) | Bin(op: Arith, left: Expr<V>, right: Expr<V>)

  datatype Rel = Gt | Ge | Lt | Le | Equal

  datatype Cond<V> =
    | Cmp(rel: Rel, l: Expr<V>, r: Expr<V>)
    | And(c0: Cond<V>, c1: Cond<V>)
    | Or(c0: Cond<V>, c1: Cond<V>)
    | Not(c: Cond<V>)

  /** A block of statements. `hasElse` tells an absent else arm from an empty one: they
      mean the same when run, but the compiler lays out different blocks for them. */
  datatype Prog =
    | Done
    | Assign(x: string, e: Expr<string>, next: Prog)
    | If(c: Cond<string>, thenArm: Prog, hasElse: bool, elseArm: Prog, next: Prog)

  predicate WellFormed(p: Prog) {
    match p
    case Done => true
    case Assign(_, _, next) => WellFormed(next)
    case If(_, t, hasElse, f, next) =>
      (!hasElse ==> f == Done) && WellFormed(t) && WellFormed(f) && WellFormed(next)
  }

  function Append(p: Prog, q: Prog): Prog {
    match p
    case Done => q
    case Assign(x, e, next) => Assign(x, e, Append(next, q))
    case If(c, t, hasElse, f, next) => If(c, t, hasElse, f, Append(next, q))
  }

  lemma {:induction false} AppendAssoc(p: Prog, q: Prog, r: Prog)
    ensures Append(Append(p, q), r) == Append(p, Append(q, r))
  {
    match p
    case Done =>
    case Assign(_, _, next) => AppendAssoc(next, q, r);
    case If(_, _, _, _, next) => AppendAssoc(next, q, r);
  }

  lemma {:induction false} AppendDone(p: Prog)
    ensures Append(p, Done) == p
  {
    match p
    case Done =>
    case Assign(_, _, next) => AppendDone(next);
    case If(_, _, _, _, next) => AppendDone(next);
  }

  type Store = map<string, real>

  /** Division by zero is total but uninterpreted in SMT-LIB, so every statement
      below holds for each choice of `div0`. */
  function Apply(op: Arith, a: real, b: real, div0: real -> real): real {
    match op
    case Plus => a + b
    case Minus => a - b
    case Times => a * b
    case Divide => if b == 0.0 then div0(a) else a / b
  }

  function Eval<V>(e: Expr<V>, env: V -> real, div0: real -> real): real {
    match e
    case Lit(r) => r
    case Ref(v) => env(v)
    case Bin(op, l, r) => Apply(op, Eval(l, env, div0), Eval(r, env, div0), div0)
  }

  predicate Compare(rel: Rel, a: real, b: real) {
    match rel
    case Gt => a > b
    case Ge => a >= b
    case Lt => a < b
    case Le => a <= b
    case Equal => a == b
  }

  predicate Holds<V>(c: Cond<V>, env: V -> real, div0: real -> real) {
    match c
    case Cmp(rel, l, r) => Compare(rel, Eval(l, env, div0), Eval(r, env, div0))
    case And(c0, c1) => Holds(c0, env, div0) && Holds(c1, env, div0)
    case Or(c0, c1) => Holds(c0, env, div0) || Holds(c1, env, div0)
    case Not(c0) => !Holds(c0, env, div0)
  }

  function Refs<V>(e: Expr<V>): set<V> {
    match e
    case Lit(_) => {}
    case Ref(v) => {v}
    case Bin(_, l, r) => Refs(l) + Refs(r)
  }

  /** An expression's value depends only on what it refers to. */
  lemma {:induction false} EvalDepends<V>(e: Expr<V>, env: V -> real, env': V -> real, div0: real -> real)
    requires forall v :: v in Refs(e) ==> env(v) == env'(v)
    ensures Eval(e, env, div0) == Eval(e, env', div0)
  {
    match e
    case Lit(_) =>
    case Ref(_) =>
    case Bin(_, l, r) => EvalDepends(l, env, env', div0); EvalDepends(r, env, env', div0);
  }

  function CondRefs<V>(c: Cond<V>): set<V> {
    match c
    case Cmp(_, l, r) => Refs(l) + Refs(r)
    case And(c0, c1) => CondRefs(c0) + CondRefs(c1)
    case Or(c0, c1) => CondRefs(c0) + CondRefs(c1)
    case Not(c0) => CondRefs(c0)
  }

  // Shapes that matter when instructions are emitted.

  /** The expression, written out without parentheses, ends in a variable. */
  predicate EndsInRef<V>(e: Expr<V>) {
    match e
    case Lit(_) => false
    case Ref(_) => true
    case Bin(_, _, r) => EndsInRef(r)
  }

  /** The left operand of the store's operation, if it has one, ends in a variable. */
  predicate Storable<V>(e: Expr<V>) {
    e.Bin? ==> EndsInRef(e.left)
  }

  predicate Junction<V>(c: Cond<V>) {
    c.And? || c.Or?
  }

  /** No connective joins two connectives. */
  predicate Connected<V>(c: Cond<V>) {
    match c
    case Cmp(_, _, _) => true
    case And(c0, c1) => Connected(c0) && Connected(c1) && !(Junction(c0) && Junction(c1))
    case Or(c0, c1) => Connected(c0) && Connected(c1) && !(Junction(c0) && Junction(c1))
    case Not(c0) => Connected(c0)
  }

  /** The value of each variable; a variable without a value reads as zero. */
  function Lookup(s: Store): string -> real {
    x => if x in s then s[x] else 0.0
  }

  function Run(p: Prog, s: Store, div0: real -> real): Store {
    match p
    case Done => s
    case Assign(x, e, next) => Run(next, s[x := Eval(e, Lookup(s), div0)], div0)
    case If(c, t, _, f, next) =>
      Run(next, if Holds(c, Lookup(s), div0) then Run(t, s, div0) else Run(f, s, div0), div0)
  }

  function Writes(p: Prog): set<string> {
    match p
    case Done => {}
    case Assign(x, _, next) => {x} + Writes(next)
    case If(_, t, _, f, next) => Writes(t) + Writes(f) + Writes(next)
  }

  /** Every variable the program reads or writes. */
  function Touched(p: Prog): set<string> {
    match p
    case Done => {}
    case Assign(x, e, next) => {x} + Refs(e) + Touched(next)
    case If(c, t, _, f, next) => CondRefs(c) + Touched(t) + Touched(f) + Touched(next)
  }
}
