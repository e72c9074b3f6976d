/** The Boolean structure of assertions: SMT-LIB's `and`, `or` and `not` over clauses. */
module Formulas {
  import opened Lang

  datatype Formula<C> =
    | Clause(c: C)
    | All(parts: seq<Formula<C>>)
    | Any(parts: seq<Formula<C>>)
    | Neg(f: Formula<C>)

  datatype Filter = NoFilter | Nmt | Nft

  /** An empty conjunction holds and an empty disjunction does not. */
  predicate True<C>(f: Formula<C>, v: C -> bool) {
    match f
    case Clause(c) => v(c)
    case All(parts) => forall i :: 0 <= i < |parts| ==> True(parts[i], v)
    case Any(parts) => exists i :: 0 <= i < |parts| && True(parts[i], v)
    case Neg(g) => !True(g, v)
  }

  /** The truth of clauses that are comparisons. */
  function Valuation<V>(env: V -> real, div0: real -> real): Cond<V> -> bool {
    c => Holds(c, env, div0)
  }

  /** Several parts are joined; a single one stands alone. */
  function Join<C>(all: bool, parts: seq<Formula<C>>): Formula<C> {
    if |parts| == 1 then parts[0] else if all then All(parts) else Any(parts)
  }

  lemma JoinMeans<C>(all: bool, parts: seq<Formula<C>>, v: C -> bool)
    ensures True(Join(all, parts), v) <==>
            if all then forall i :: 0 <= i < |parts| ==> True(parts[i], v)
            else exists i :: 0 <= i < |parts| && True(parts[i], v)
  {
  }

  /** The comparison operator an assertion negates to (`OP_NEGATE`); equality has none of
      its own and is wrapped in `not`. */
  function Opposite(rel: Rel): Option<Rel> {
    match rel
    case Gt => Some(Le)
    case Ge => Some(Lt)
    case Lt => Some(Ge)
    case Le => Some(Gt)
    case Equal => None
  }
}
