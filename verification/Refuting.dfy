/** Refuting a counting assertion: the filter is negated and a model of the negation is
    reported as a counterexample. */
module Refuting {
  import opened Lang
  import opened Formulas
  import opened Filters
  import opened Counting
  import opened Temporals
  import opened Bounds

  /** What the user asked of the number of clauses that hold. */
  predicate Bound(filter: Filter, n: int, count: nat) {
    match filter
    case NoFilter => true
    case Nmt => count <= n
    case Nft => count >= n
  }

  function NegateTemporal(filter: Filter, n: int): (Filter, int) {
    match filter
    case NoFilter => (NoFilter, 0)
    case Nmt => (Nft, n + 1)
    case Nft => (Nmt, n - 1)
  }

  /** Negating twice gives the filter back, and the two bounds never hold together. */
  lemma NegatedTwice(filter: Filter, n: int, count: nat)
    requires filter != NoFilter
    ensures var (filter', n') := NegateTemporal(filter, n);
      && NegateTemporal(filter', n') == (filter, n)
      && (Bound(filter, n, count) <==> !Bound(filter', n', count))
  {
  }

  /** No false alarms: where the negated formula holds, the user's bound is violated. And
      where the formula is exact, no violation is overlooked but that of `nft` by a trace
      on which no clause holds at all. */
  lemma Refuted(list1: seq<string>, list2: seq<string>, rel: Rel, filter: Filter, n: int, env: string -> real,
                div0: real -> real)
    requires filter != NoFilter && DistinctText(Pairs(list1, list2))
    requires 1 <= NegateTemporal(filter, n).1 <= |Pairs(list1, list2)|
    ensures var ((filter', n'), c) := (NegateTemporal(filter, n), Pairs(list1, list2));
      var count := |Holding(c, rel, env)|;
      && Filtered(list1, list2, rel, filter', n', false).Some?
      && var f := Filtered(list1, list2, rel, filter', n', false).value;
         && (True(f, Valuation(env, div0)) ==> !Bound(filter, n, count))
         && (n' <= 2 || n' == |c| ==>
               (True(f, Valuation(env, div0)) <==> !Bound(filter, n, count) && (filter == Nft ==> count > 0)))
  {
    hide DistinctText, Filtered, Pairs, Valuation, True, Holding;
    if filter == Nmt {
      NoFewerThan(list1, list2, rel, n + 1, false, env, div0);
    } else {
      NoMoreThan(list1, list2, rel, n - 1, false, env, div0);
    }
  }

  /** `nft 1` becomes `nmt 0`, for which the subsets cannot be enumerated once there are
      two clauses, and for which there is nothing to join when there is one. */
  lemma AtLeastOne(list1: seq<string>, list2: seq<string>, rel: Rel)
    requires |Pairs(list1, list2)| > 0
    ensures NegateTemporal(Nft, 1) == (Nmt, 0)
    ensures Filtered(list1, list2, rel, Nmt, 0, false) == None
  {
    if |Pairs(list1, list2)| == 1 {
      assert Combos(Pairs(list1, list2), 0) == Some([]);
    }
  }

  // Where the formulas are exact.

  lemma {:induction false} OneColumn(names: seq<string>, y: string)
    ensures |Pairs(names, [y])| == |names|
    ensures forall k :: 0 <= k < |names| ==> Pairs(names, [y])[k] == (names[k], y)
  {
    if names != [] {
      OneColumn(names[1..], y);
      assert [y][1..] == [];
      assert Row(names[0], [y]) == [(names[0], y)] + Row(names[0], []);
    }
  }

  lemma TextsSame(a: string, b: string, y: string)
    requires a + y == b + y
    ensures a == b
  {
    assert |a| == |b|;
    assert a == (a + y)[..|a|] == (b + y)[..|b|] == b;
  }

  predicate Different(names: seq<string>) {
    forall i, j :: 0 <= i < j < |names| ==> names[i] != names[j]
  }

  lemma ColumnDistinct(names: seq<string>, y: string)
    requires Different(names)
    ensures DistinctText(Pairs(names, [y]))
  {
    OneColumn(names, y);
    forall i, j | 0 <= i < j < |names| ensures Text(Pairs(names, [y])[i]) != Text(Pairs(names, [y])[j]) {
      if Text(Pairs(names, [y])[i]) == Text(Pairs(names, [y])[j]) {
        TextsSame(names[i], names[j], y);
      }
    }
  }

  /** Any set of clauses of a column of equations can be the one that holds. */
  lemma Achieve(names: seq<string>, y: string, ps: set<int>) returns (env: string -> real)
    requires Different(names) && y !in names && ps <= Range(0, |names|)
    ensures Holding(Pairs(names, [y]), Equal, env) == ps
  {
    OneColumn(names, y);
    var on := set k | k in ps :: names[k];
    env := x => if x in on || x == y then 0.0 else 1.0;
    forall k | 0 <= k < |names| ensures HoldsPair(Equal, Pairs(names, [y])[k], env) <==> k in ps {
      assert names[k] in names;
      if names[k] in on {
        var j :| j in ps && names[j] == names[k];
        SameName(names, j, k);
      }
    }
  }

  lemma SameName(names: seq<string>, j: int, k: int)
    requires Different(names) && 0 <= j < |names| && 0 <= k < |names| && names[j] == names[k]
    ensures j == k
  {
  }

  /** On these values the formula says what the filter promises. */
  predicate NmtCounts(names: seq<string>, y: string, n: nat, assumed: bool, env: string -> real,
                      div0: real -> real) {
    var f := Filtered(names, [y], Equal, Nmt, n, assumed);
    f.Some? && (True(f.value, Valuation(env, div0)) <==> 1 <= |Holding(Pairs(names, [y]), Equal, env)| <= n)
  }

  predicate NftCounts(names: seq<string>, y: string, n: nat, assumed: bool, env: string -> real,
                      div0: real -> real) {
    var f := Filtered(names, [y], Equal, Nft, n, assumed);
    f.Some? && (True(f.value, Valuation(env, div0)) <==> |Holding(Pairs(names, [y]), Equal, env)| >= n)
  }

  /** For clauses that can hold independently, the formulas count exactly when `n` is at
      most two or the number of clauses, and for no other `n`. */
  lemma ExactWhen(names: seq<string>, y: string, n: nat, assumed: bool, div0: real -> real)
    requires Different(names) && y !in names && 1 <= n <= |names|
    ensures (forall env :: NmtCounts(names, y, n, assumed, env, div0)) <==> n <= 2 || n == |names|
    ensures (forall env :: NftCounts(names, y, n, assumed, env, div0)) <==> n <= 2 || n == |names|
  {
    hide DistinctText, Filtered, Pairs, Valuation, True, Holding;
    OneColumn(names, y);
    ColumnDistinct(names, y);
    if n <= 2 || n == |names| {
      forall env: string -> real
        ensures NmtCounts(names, y, n, assumed, env, div0) && NftCounts(names, y, n, assumed, env, div0)
      {
        NoMoreThan(names, [y], Equal, n, assumed, env, div0);
        NoFewerThan(names, [y], Equal, n, assumed, env, div0);
      }
    } else {
      var env := Achieve(names, y, Range(0, n - 1) + {n});
      Missed(names, [y], Equal, n, assumed, env, div0);
      assert !NmtCounts(names, y, n, assumed, env, div0);
      assert !NftCounts(names, y, n, assumed, env, div0);
    }
  }
}
