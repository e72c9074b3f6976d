/** Negating the two sides of an assertion, with constant folding. */
module Negation {
  import opened Lang

  datatype Op = Calc(arith: Arith) | Modulo | Comp(rel: Rel) | NotEqual | AndAlso | OrElse | Then

  /** Expressions; variables are numbers or flags. */
  datatype Ast =
    | Int(i: int)
    | Float(r: real)
    | Bool(b: bool)
    | Number(x: string)
    | Flag(x: string)
    | Infix(op: Op, left: Ast, right: Ast)
    | Not(e: Ast)
    | Negative(e: Ast)

  /** The generator panics on operators it cannot fold; dividing by zero gives an infinity
      rather than a number. */
  datatype Outcome = Panics | NotANumber | Is(ast: Ast)

  /** `OP_NEGATE`; operators without an entry stay. */
  function OpNegate(op: Op): Op {
    match op
    case Comp(Equal) => NotEqual
    case Comp(Gt) => Comp(Le)
    case Comp(Ge) => Comp(Lt)
    case Comp(Lt) => Comp(Ge)
    case Comp(Le) => Comp(Gt)
    case NotEqual => Comp(Equal)
    case AndAlso => OrElse
    case OrElse => AndAlso
    case Calc(_) => op
    case Modulo => op
    case Then => op
  }

  predicate IsCompare(op: Op) {
    op.Comp? || op == NotEqual || op == AndAlso || op == OrElse
  }

  predicate Literal(e: Ast) {
    e.Int? || e.Float?
  }

  function LiteralValue(e: Ast): real
    requires Literal(e)
  {
    if e.Int? then e.i as real else e.r
  }

  const TWO63 := 0x8000_0000_0000_0000

  /** Go's int64 arithmetic. */
  function Wrap64(n: int): int {
    (n + TWO63) % (2 * TWO63) - TWO63
  }

  function EvalInt(a: int, b: int, op: Op): Outcome {
    match op
    case Calc(Plus) => Is(Int(Wrap64(a + b)))
    case Calc(Minus) => Is(Int(Wrap64(a - b)))
    case Calc(Times) => Is(Int(Wrap64(a * b)))
    case _ => Panics
  }

  function EvalFloat(a: real, b: real, op: Op): Outcome {
    match op
    case Calc(Plus) => Is(Float(a + b))
    case Calc(Minus) => Is(Float(a - b))
    case Calc(Times) => Is(Float(a * b))
    case Calc(Divide) => if b == 0.0 then NotANumber else Is(Float(a / b))
    case _ => Panics
  }

  /** Folds an operation on two literals; integers stay integers unless divided. */
  function Evaluate(op: Op, l: Ast, r: Ast): Outcome {
    if IsCompare(op) || !Literal(l) || !Literal(r) then Is(Infix(op, l, r))
    else if l.Int? && r.Int? && op != Calc(Divide) then EvalInt(l.i, r.i, op)
    else EvalFloat(LiteralValue(l), LiteralValue(r), op)
  }

  function Negate(e: Ast): Outcome {
    match e
    case Infix(op, l, r) =>
      var l', r' := Negate(l), Negate(r);
      if !l'.Is? then l' else if !r'.Is? then r' else Evaluate(OpNegate(op), l'.ast, r'.ast)
    case Bool(b) => Is(Bool(!b))
    case Not(inner) => Is(inner)
    case Negative(inner) =>
      var inner' := Negate(inner);
      if !inner'.Is? then inner' else Is(Negative(inner'.ast))
    case _ => Is(e)
  }

  // Meaning.

  predicate Numeric(e: Ast) {
    match e
    case Infix(op, l, r) => op.Calc? && Numeric(l) && Numeric(r)
    case Negative(inner) => Numeric(inner)
    case _ => e.Int? || e.Float? || e.Number?
  }

  predicate Boolean(e: Ast) {
    match e
    case Infix(op, l, r) =>
      match op {
        case Comp(rel) => (Numeric(l) && Numeric(r)) || (rel == Equal && Boolean(l) && Boolean(r))
        case NotEqual => (Numeric(l) && Numeric(r)) || (Boolean(l) && Boolean(r))
        case AndAlso => Boolean(l) && Boolean(r)
        case OrElse => Boolean(l) && Boolean(r)
        case _ => false
      }
    case Not(inner) => Boolean(inner)
    case _ => e.Bool? || e.Flag?
  }

  datatype Env = Env(numbers: string -> real, flags: string -> bool)

  function Value(e: Ast, env: Env, div0: real -> real): real {
    match e
    case Int(i) => i as real
    case Float(r) => r
    case Number(x) => env.numbers(x)
    case Infix(Calc(a), l, r) => Apply(a, Value(l, env, div0), Value(r, env, div0), div0)
    case Negative(inner) => -Value(inner, env, div0)
    case _ => 0.0
  }

  predicate Truth(e: Ast, env: Env, div0: real -> real) {
    match e
    case Bool(b) => b
    case Flag(x) => env.flags(x)
    case Infix(op, l, r) =>
      match op {
        case Comp(rel) =>
          if Numeric(l) then Compare(rel, Value(l, env, div0), Value(r, env, div0))
          else Truth(l, env, div0) == Truth(r, env, div0)
        case NotEqual =>
          if Numeric(l) then Value(l, env, div0) != Value(r, env, div0)
          else Truth(l, env, div0) != Truth(r, env, div0)
        case AndAlso => Truth(l, env, div0) && Truth(r, env, div0)
        case OrElse => Truth(l, env, div0) || Truth(r, env, div0)
        case _ => false
      }
    case Not(inner) => !Truth(inner, env, div0)
    case _ => false
  }

  predicate Fits64(n: int) {
    -TWO63 <= n < TWO63
  }

  /** The fold neither overflows nor divides by zero. */
  predicate SafeFold(a: Arith, l: Ast, r: Ast) {
    Literal(l) && Literal(r) ==>
      match a
      case Plus => l.Int? && r.Int? ==> Fits64(l.i + r.i)
      case Minus => l.Int? && r.Int? ==> Fits64(l.i - r.i)
      case Times => l.Int? && r.Int? ==> Fits64(l.i * r.i)
      case Divide => LiteralValue(r) != 0.0
  }

  /** No fold in the expression does. What is under `!` is not touched. */
  predicate Safe(e: Ast) {
    match e
    case Infix(op, l, r) =>
      Safe(l) && Safe(r) && (op.Calc? && Negate(l).Is? && Negate(r).Is? ==>
        SafeFold(op.arith, Negate(l).ast, Negate(r).ast))
    case Negative(inner) => Safe(inner)
    case _ => true
  }

  /** Arithmetic keeps its value. */
  lemma {:induction false} NumericKept(e: Ast, env: Env, div0: real -> real)
    requires Numeric(e) && Safe(e)
    ensures Negate(e).Is? && Numeric(Negate(e).ast)
    ensures Value(Negate(e).ast, env, div0) == Value(e, env, div0)
  {
    match e
    case Infix(op, l, r) =>
      NumericKept(l, env, div0);
      NumericKept(r, env, div0);
      FoldKept(op.arith, Negate(l).ast, Negate(r).ast, env, div0);
    case Negative(inner) => NumericKept(inner, env, div0);
    case _ =>
  }

  /** Folding keeps the value exactly when it neither overflows nor divides by zero. */
  lemma FoldKept(a: Arith, l: Ast, r: Ast, env: Env, div0: real -> real)
    requires Numeric(l) && Numeric(r)
    ensures var folded := Evaluate(Calc(a), l, r);
      && (folded.Is? ==> Numeric(folded.ast))
      && (folded.Is? && Value(folded.ast, env, div0) == Apply(a, Value(l, env, div0), Value(r, env, div0), div0)
          <==> SafeFold(a, l, r))
  {
    hide Wrap64, Fits64;
    if l.Int? && r.Int? && a != Divide {
      IntKept(a, l.i, r.i, div0);
    }
  }

  lemma IntKept(a: Arith, i: int, j: int, div0: real -> real)
    requires a != Divide
    ensures var folded := EvalInt(i, j, Calc(a));
      folded.Is? && folded.ast.Int?
        && (folded.ast.i as real == Apply(a, i as real, j as real, div0) <==> SafeFold(a, Int(i), Int(j)))
  {
    hide Wrap64, Fits64;
    match a
    case Plus => WrapsNot(i + j);
    case Minus => WrapsNot(i - j);
    case Times => WrapsNot(i * j); ProductKept(i, j);
  }

  lemma WrapsNot(n: int)
    ensures Wrap64(n) == n <==> Fits64(n)
  {
  }

  lemma ProductKept(a: int, b: int)
    ensures (a * b) as real == a as real * b as real
  {
  }

  /** What negating does to the truth of a Boolean expression. */
  datatype Effect = Flipped | Kept | Neither

  /** Comparisons of numbers and Boolean literals flip, a flag on its own does not; an
      equivalence flips when its sides are affected alike; `&&` and `||` flip when both
      sides do. */
  function EffectOf(e: Ast): Effect {
    match e
    case Bool(_) => Flipped
    case Not(_) => Flipped
    case Infix(op, l, r) =>
      if Numeric(l) then Flipped
      else
        var (a, b) := (EffectOf(l), EffectOf(r));
        if a == Neither || b == Neither then Neither
        else if op == AndAlso || op == OrElse then (if a == Flipped && b == Flipped then Flipped else Neither)
        else if a == b then Flipped
        else Kept
    case _ => Kept
  }

  /** No flag stands outside a `!`. */
  predicate FlagFree(e: Ast) {
    match e
    case Infix(_, l, r) => FlagFree(l) && FlagFree(r)
    case _ => !e.Flag?
  }

  /** The truth of a Boolean expression with the flags standing outside any `!` negated. */
  predicate BareFlipped(e: Ast, env: Env, div0: real -> real) {
    match e
    case Bool(b) => b
    case Flag(x) => !env.flags(x)
    case Infix(op, l, r) =>
      if Numeric(l) then Truth(e, env, div0)
      else
        var (a, b) := (BareFlipped(l, env, div0), BareFlipped(r, env, div0));
        match op {
          case Comp(_) => a == b
          case NotEqual => a != b
          case AndAlso => a && b
          case OrElse => a || b
          case _ => false
        }
    case Not(inner) => !Truth(inner, env, div0)
    case _ => false
  }

  /** Negating any Boolean expression negates it and its bare flags. */
  lemma {:induction false} NegationMeans(e: Ast, env: Env, div0: real -> real)
    requires Boolean(e) && Safe(e)
    ensures Negate(e).Is? && Boolean(Negate(e).ast)
    ensures Truth(Negate(e).ast, env, div0) <==> !BareFlipped(e, env, div0)
  {
    match e
    case Infix(op, l, r) =>
      if Numeric(l) {
        BooleanIsNotNumeric(l);
        NumericKept(l, env, div0);
        NumericKept(r, env, div0);
      } else {
        NegationMeans(l, env, div0);
        NegationMeans(r, env, div0);
        BooleanIsNotNumeric(Negate(l).ast);
        BooleanIsNotNumeric(Negate(r).ast);
      }
    case _ =>
  }

  /** So the negation is exact in a valuation if and only if negating the bare flags leaves
      the truth of the expression as it is. */
  lemma NegationExactWhen(e: Ast, env: Env, div0: real -> real)
    requires Boolean(e) && Safe(e)
    ensures Negate(e).Is?
    ensures (Truth(Negate(e).ast, env, div0) <==> !Truth(e, env, div0)) <==>
            (BareFlipped(e, env, div0) <==> Truth(e, env, div0))
  {
    NegationMeans(e, env, div0);
  }

  /** Where the shape decides: the effect computed for it, in every valuation. */
  lemma {:induction false} EffectMeans(e: Ast, env: Env, div0: real -> real)
    requires Boolean(e)
    ensures EffectOf(e) == Flipped ==> (BareFlipped(e, env, div0) <==> Truth(e, env, div0))
    ensures EffectOf(e) == Kept ==> (BareFlipped(e, env, div0) <==> !Truth(e, env, div0))
  {
    match e
    case Infix(op, l, r) =>
      BooleanIsNotNumeric(l);
      if !Numeric(l) {
        EffectMeans(l, env, div0);
        EffectMeans(r, env, div0);
      }
    case _ =>
  }

  /** `flag && x > 1` is negated to `flag || x <= 1`, which is right only while `x > 1`
      is false. */
  lemma FlagAndComparison(flag: string, x: string, env: Env, div0: real -> real)
    ensures var e := Infix(AndAlso, Flag(flag), Infix(Comp(Gt), Number(x), Int(1)));
      && Boolean(e) && Negate(e) == Is(Infix(OrElse, Flag(flag), Infix(Comp(Le), Number(x), Int(1))))
      && ((Truth(Negate(e).ast, env, div0) <==> !Truth(e, env, div0)) <==> env.numbers(x) <= 1.0)
  {
    var above := Infix(Comp(Gt), Number(x), Int(1));
    assert Boolean(above) && Boolean(Flag(flag)) && !Numeric(Flag(flag)) && Numeric(Number(x)) && Numeric(Int(1));
    assert Negate(above) == Is(Infix(Comp(Le), Number(x), Int(1)));
    NegationMeans(Infix(AndAlso, Flag(flag), above), env, div0);
  }

  lemma {:induction false} BooleanIsNotNumeric(e: Ast)
    ensures !(Boolean(e) && Numeric(e))
    ensures Boolean(e) ==> !Literal(e)
  {
  }

  /** Without flags standing alone the negation is exact. */
  lemma {:induction false} FlagFreeFlips(e: Ast)
    requires Boolean(e) && FlagFree(e)
    ensures EffectOf(e) == Flipped
  {
    match e
    case Infix(op, l, r) =>
      if !Numeric(l) {
        FlagFreeFlips(l);
        FlagFreeFlips(r);
      }
    case _ =>
  }

  lemma NegationExact(e: Ast, env: Env, div0: real -> real)
    requires Boolean(e) && Safe(e) && FlagFree(e)
    ensures Negate(e).Is? && Boolean(Negate(e).ast)
    ensures Truth(Negate(e).ast, env, div0) <==> !Truth(e, env, div0)
  {
    FlagFreeFlips(e);
    EffectMeans(e, env, div0);
    NegationMeans(e, env, div0);
  }

  /** A flag compared with a literal keeps its truth: operator and literal both flip. */
  lemma FlagAgainstLiteral(x: string, b: bool, env: Env, div0: real -> real)
    ensures var e := Infix(Comp(Equal), Flag(x), Bool(b));
      && Boolean(e) && Negate(e) == Is(Infix(NotEqual, Flag(x), Bool(!b)))
      && (Truth(Negate(e).ast, env, div0) <==> Truth(e, env, div0))
  {
    assert Boolean(Flag(x)) && Boolean(Bool(b)) && !Numeric(Flag(x));
    EffectMeans(Infix(Comp(Equal), Flag(x), Bool(b)), env, div0);
    NegationMeans(Infix(Comp(Equal), Flag(x), Bool(b)), env, div0);
  }

  /** Overflow is where folding goes wrong: the sum of two literals can change sign. */
  lemma FoldOverflows(env: Env, div0: real -> real)
    ensures var e := Infix(Calc(Plus), Int(TWO63 - 1), Int(1));
      && Negate(e) == Is(Int(-TWO63)) && Value(Negate(e).ast, env, div0) != Value(e, env, div0)
  {
    var l, r := Int(TWO63 - 1), Int(1);
    assert Wrap64(TWO63) == -TWO63 && Negate(l) == Is(l) && Negate(r) == Is(r);
    FoldKept(Plus, l, r, env, div0);
  }
}
