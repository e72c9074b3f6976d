/** Temporal operators over the finite list of states of a run. Assertions are encoded
    negated (a model is a counterexample), assumptions as they stand; the two encodings
    swap `and` and `or`. */
module Temporals {
  import opened Lang
  import opened Formulas

  datatype Temporal = Eventually | Always | EventuallyAlways | Unspecified

  /** One conjunction per suffix of the list. */
  function Suffixes<C>(ir: seq<Formula<C>>): seq<Formula<C>> {
    seq(|ir|, i requires 0 <= i < |ir| => All(ir[i..]))
  }

  method EventuallyAlwaysRule<C>(ir: seq<Formula<C>>) returns (f: Formula<C>)
    ensures f == Any(Suffixes(ir)) && |f.parts| == |ir|
    ensures forall i :: 0 <= i < |ir| ==> f.parts[i] == All(ir[i..])
  {
    var progression: seq<Formula<C>> := [];
    var i := 0;
    while i < |ir|
      invariant 0 <= i <= |ir| && progression == Suffixes(ir)[..i]
    {
      progression := progression + [All(ir[i..])];
      i := i + 1;
    }
    assert progression == Suffixes(ir);
    f := Any(progression);
  }

  /** What a temporal operator makes of the states' formulas. `assumed` tells assumptions
      from assertions. */
  function Encoded<C>(temp: Temporal, ir: seq<Formula<C>>, filter: Filter, assumed: bool): Formula<C>
    requires ir != []
  {
    match temp
    case Eventually => Join(!assumed, ir)
    case Always => Join(assumed, ir)
    case EventuallyAlways => if |ir| > 1 then Any(Suffixes(ir)) else ir[0]
    case Unspecified => Join(filter == NoFilter && assumed, ir)
  }

  method ApplyTemporalLogic<C>(temp: Temporal, ir: seq<Formula<C>>, filter: Filter, assumed: bool)
    returns (f: Formula<C>)
    requires ir != []
    ensures f == Encoded(temp, ir, filter, assumed)
  {
    if |ir| == 1 {
      return ir[0];
    }
    match temp
    case Eventually => f := if assumed then Any(ir) else All(ir);
    case Always => f := if assumed then All(ir) else Any(ir);
    case EventuallyAlways => f := EventuallyAlwaysRule(ir);
    case Unspecified =>
      match filter
      case Nft => f := Any(ir);
      case Nmt => f := Any(ir);
      case NoFilter => f := if assumed then All(ir) else Any(ir);
  }

  predicate HoldsFrom(holds: seq<bool>, i: nat) {
    forall j :: i <= j < |holds| ==> holds[j]
  }

  /** What the user means by each operator, `holds` being the states in which the
      constraint holds. From some point on it holds throughout, for `EventuallyAlways`. */
  ghost predicate Meant(temp: Temporal, holds: seq<bool>) {
    match temp
    case Eventually => exists i :: 0 <= i < |holds| && holds[i]
    case EventuallyAlways => exists i :: 0 <= i < |holds| && HoldsFrom(holds, i)
    case _ => forall i :: 0 <= i < |holds| ==> holds[i]
  }

  function States<C>(ir: seq<Formula<C>>, v: C -> bool): seq<bool> {
    seq(|ir|, i requires 0 <= i < |ir| => True(ir[i], v))
  }

  /** On a finite list, eventually always is holding at the end. */
  lemma LastDecides(holds: seq<bool>)
    requires holds != []
    ensures Meant(EventuallyAlways, holds) <==> holds[|holds| - 1]
  {
    if holds[|holds| - 1] {
      assert HoldsFrom(holds, |holds| - 1);
    }
  }

  lemma SuffixesMean<C>(ir: seq<Formula<C>>, v: C -> bool)
    requires ir != []
    ensures True(Any(Suffixes(ir)), v) <==> True(ir[|ir| - 1], v)
  {
    var n := |ir| - 1;
    assert ir[n..] == [ir[n]];
    if True(ir[n], v) {
      assert True(All(ir[n..]), v);
      assert True(Suffixes(ir)[n], v);
    }
    if True(Any(Suffixes(ir)), v) {
      var i :| 0 <= i < |ir| && True(Suffixes(ir)[i], v);
      assert True(ir[i..][n - i], v);
    }
  }

  /** An assumption is encoded as it is meant. A filter matters only where there is no
      temporal operator. */
  lemma Assumed<C>(temp: Temporal, ir: seq<Formula<C>>, filter: Filter, v: C -> bool)
    requires ir != [] && (temp == Unspecified ==> filter == NoFilter)
    ensures True(Encoded(temp, ir, filter, true), v) <==> Meant(temp, States(ir, v))
  {
    JoinMeans(true, ir, v);
    JoinMeans(false, ir, v);
    var holds := States(ir, v);
    if temp == EventuallyAlways {
      LastDecides(holds);
      SuffixesMean(ir, v);
    } else if temp == Eventually {
      if i :| 0 <= i < |ir| && True(ir[i], v) {
        assert holds[i];
      }
    } else if i :| 0 <= i < |ir| && !True(ir[i], v) {
      assert !holds[i];
    }
  }

  /** The encoding of an assertion, made of the negated states, holds exactly in the runs
      that violate it. */
  lemma Asserted<C>(temp: Temporal, ir: seq<Formula<C>>, negated: seq<Formula<C>>, filter: Filter, v: C -> bool)
    requires temp == Unspecified ==> filter == NoFilter
    requires |negated| == |ir| > 0 && forall i :: 0 <= i < |ir| ==> (True(negated[i], v) <==> !True(ir[i], v))
    ensures True(Encoded(temp, negated, filter, false), v) <==> !True(Encoded(temp, ir, filter, true), v)
    ensures True(Encoded(temp, negated, filter, false), v) <==> !Meant(temp, States(ir, v))
  {
    Assumed(temp, ir, filter, v);
    JoinMeans(true, ir, v);
    JoinMeans(false, ir, v);
    JoinMeans(true, negated, v);
    JoinMeans(false, negated, v);
    if temp == EventuallyAlways {
      SuffixesMean(ir, v);
      SuffixesMean(negated, v);
    }
  }

  /** Under a filter alone some part has to hold, in assumptions and in assertions. */
  lemma FilteredJoin<C>(ir: seq<Formula<C>>, filter: Filter, assumed: bool, v: C -> bool)
    requires ir != [] && filter != NoFilter
    ensures True(Encoded(Unspecified, ir, filter, assumed), v) <==> exists i :: 0 <= i < |ir| && True(ir[i], v)
  {
    JoinMeans(false, ir, v);
  }
}
