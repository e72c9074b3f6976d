/** What the `nmt` and `nft` formulas mean: how many of the clauses may hold. */
module Counting {
  import opened Lang
  import opened Formulas
  import opened Filters
  import opened Temporals

  type Pair = (string, string)

  function Text(p: Pair): string {
    p.0 + p.1
  }

  predicate Inside(o: seq<Pair>, p: Pair) {
    exists i :: 0 <= i < |o| && Text(o[i]) == Text(p)
  }

  function Outside(o: seq<Pair>, c: seq<Pair>): seq<Pair> {
    if c == [] then []
    else (if Inside(o, c[0]) then [] else [c[0]]) + Outside(o, c[1..])
  }

  method NotInSet(o: seq<Pair>, c: seq<Pair>) returns (s: seq<Pair>)
    ensures s == Outside(o, c)
  {
    hide Inside;
    s := [];
    var i := 0;
    while i < |c|
      invariant 0 <= i <= |c| && s + Outside(o, c[i..]) == Outside(o, c)
    {
      assert c[i..][0] == c[i] && c[i..][1..] == c[i + 1..];
      var found := Found(o, c[i]);
      if !found {
        s := s + [c[i]];
      }
      i := i + 1;
    }
  }

  method Found(o: seq<Pair>, p: Pair) returns (found: bool)
    ensures found <==> Inside(o, p)
  {
    var j := 0;
    while j < |o|
      invariant 0 <= j <= |o| && forall k :: 0 <= k < j ==> Text(o[k]) != Text(p)
    {
      if Text(p) == Text(o[j]) {
        return true;
      }
      j := j + 1;
    }
    found := false;
  }

  /** Clause by clause, in order. */
  lemma {:induction false} OutsideInOrder(o: seq<Pair>, a: seq<Pair>, b: seq<Pair>)
    ensures Outside(o, a + b) == Outside(o, a) + Outside(o, b)
  {
    hide Outside;
    if a == [] {
      assert a + b == b && Outside(o, []) == [] by { NothingOutside(o); }
    } else {
      OutsideInOrder(o, a[1..], b);
      OutsideFirst(o, a);
      OutsideFirst(o, a + b);
      assert (a + b)[0] == a[0] && (a + b)[1..] == a[1..] + b;
    }
  }

  lemma NothingOutside(o: seq<Pair>)
    ensures Outside(o, []) == []
  {
  }

  lemma OutsideFirst(o: seq<Pair>, c: seq<Pair>)
    requires c != []
    ensures Outside(o, c) == (if Inside(o, c[0]) then [] else [c[0]]) + Outside(o, c[1..])
  {
  }

  // The formulas.

  function On(rel: Rel, p: Pair): Formula<Cond<string>> {
    Clause(Cmp(rel, Ref(p.0), Ref(p.1)))
  }

  function Off(rel: Rel, p: Pair): Formula<Cond<string>> {
    match Opposite(rel)
    case Some(opposite) => On(opposite, p)
    case None => Neg(On(rel, p))
  }

  function Ons(rel: Rel, ps: seq<Pair>): seq<Formula<Cond<string>>> {
    seq(|ps|, i requires 0 <= i < |ps| => On(rel, ps[i]))
  }

  function Offs(rel: Rel, ps: seq<Pair>): seq<Formula<Cond<string>>> {
    seq(|ps|, i requires 0 <= i < |ps| => Off(rel, ps[i]))
  }

  /** What one subset `o` of the clauses `c` contributes: for `nmt` some of it and nothing
      else holds, for `nft` all of it holds. */
  function Part(rel: Rel, filter: Filter, o: seq<Pair>, c: seq<Pair>): Formula<Cond<string>>
    requires filter != NoFilter
  {
    if filter == Nmt then All([Join(false, Ons(rel, o)), Join(true, Offs(rel, Outside(o, c)))])
    else Join(true, Ons(rel, o))
  }

  function Parts(rel: Rel, filter: Filter, combos: seq<seq<Pair>>, c: seq<Pair>): seq<Formula<Cond<string>>>
    requires filter != NoFilter
  {
    seq(|combos|, i requires 0 <= i < |combos| => Part(rel, filter, combos[i], c))
  }

  function Expanded(list1: seq<string>, list2: seq<string>, rel: Rel, filter: Filter, n: nat)
    : Option<seq<Formula<Cond<string>>>>
  {
    var c := Pairs(list1, list2);
    if filter == NoFilter then Some(Ons(rel, c))
    else if Combos(c, n).None? then None
    else Some(Parts(rel, filter, Combos(c, n).value, c))
  }

  method ExpandAssertStateGraph(list1: seq<string>, list2: seq<string>, rel: Rel, filter: Filter, n: nat)
    returns (x: Option<seq<Formula<Cond<string>>>>)
    ensures x == Expanded(list1, list2, rel, filter, n)
  {
    hide Part, Combos;
    var c := Cartesian(list1, list2);
    if filter == NoFilter {
      var ons := Write(rel, c, true);
      return Some(ons);
    }
    var combos := Combinations(c, n);
    if combos.None? {
      return None;
    }
    var out: seq<Formula<Cond<string>>> := [];
    var i := 0;
    while i < |combos.value|
      invariant 0 <= i <= |combos.value| && out == Parts(rel, filter, combos.value[..i], c)
    {
      var part := WritePart(rel, filter, combos.value[i], c);
      assert combos.value[..i + 1] == combos.value[..i] + [combos.value[i]];
      out := out + [part];
      i := i + 1;
    }
    assert combos.value[..i] == combos.value;
    x := Some(out);
  }

  method WritePart(rel: Rel, filter: Filter, on: seq<Pair>, c: seq<Pair>) returns (part: Formula<Cond<string>>)
    requires filter != NoFilter
    ensures part == Part(rel, filter, on, c)
  {
    var o := Write(rel, on, true);
    if filter == Nmt {
      var off := NotInSet(on, c);
      var f := Write(rel, off, false);
      part := All([Join(false, o), Join(true, f)]);
    } else {
      part := Join(true, o);
    }
  }

  method Write(rel: Rel, ps: seq<Pair>, on: bool) returns (fs: seq<Formula<Cond<string>>>)
    ensures fs == if on then Ons(rel, ps) else Offs(rel, ps)
  {
    fs := [];
    var i := 0;
    while i < |ps|
      invariant 0 <= i <= |ps| && fs == if on then Ons(rel, ps[..i]) else Offs(rel, ps[..i])
    {
      fs := fs + [if on then On(rel, ps[i]) else Off(rel, ps[i])];
      i := i + 1;
    }
    assert ps[..i] == ps;
  }

  /** The whole formula of an assertion or assumption with a temporal operator or a filter.
      Nothing to join makes the generator index an empty list. */
  function Written(list1: seq<string>, list2: seq<string>, rel: Rel, temp: Temporal, filter: Filter, n: nat,
                   assumed: bool): Option<Formula<Cond<string>>>
  {
    var x := Expanded(list1, list2, rel, filter, n);
    if x.None? || x.value == [] then None else Some(Encoded(temp, x.value, filter, assumed))
  }

  method ParseAssert(list1: seq<string>, list2: seq<string>, rel: Rel, temp: Temporal, filter: Filter, n: nat,
                     assumed: bool)
    returns (f: Option<Formula<Cond<string>>>)
    ensures f == Written(list1, list2, rel, temp, filter, n, assumed)
  {
    var ir := ExpandAssertStateGraph(list1, list2, rel, filter, n);
    if ir.None? || |ir.value| == 0 {
      return None;
    }
    var rule := ApplyTemporalLogic(temp, ir.value, filter, assumed);
    f := Some(rule);
  }

  /** The formula of a filter without temporal operator. */
  function Filtered(list1: seq<string>, list2: seq<string>, rel: Rel, filter: Filter, n: nat, assumed: bool)
    : Option<Formula<Cond<string>>>
    requires filter != NoFilter
  {
    Written(list1, list2, rel, Unspecified, filter, n, assumed)
  }

  // Meaning.

  predicate HoldsPair(rel: Rel, p: Pair, env: string -> real) {
    Compare(rel, env(p.0), env(p.1))
  }

  lemma OnMeans(rel: Rel, p: Pair, env: string -> real, div0: real -> real)
    ensures True(On(rel, p), Valuation(env, div0)) <==> HoldsPair(rel, p, env)
    ensures True(Off(rel, p), Valuation(env, div0)) <==> !HoldsPair(rel, p, env)
  {
  }

  /** The positions of the clauses that hold. */
  function Holding(c: seq<Pair>, rel: Rel, env: string -> real): set<int> {
    set k | 0 <= k < |c| && HoldsPair(rel, c[k], env)
  }

  predicate DistinctText(c: seq<Pair>) {
    forall i, j :: 0 <= i < j < |c| ==> Text(c[i]) != Text(c[j])
  }

  /** The subset `o` takes the clauses at positions `ps`. */
  predicate Takes(o: seq<Pair>, ps: set<int>, c: seq<Pair>) {
    && (forall k :: k in ps ==> 0 <= k < |c| && c[k] in o)
    && (forall x :: x in o ==> exists k :: k in ps && 0 <= k < |c| && c[k] == x)
  }

  lemma {:induction false} OutsideAre(o: seq<Pair>, c: seq<Pair>)
    ensures forall p :: p in Outside(o, c) <==> p in c && !Inside(o, p)
  {
    if c != [] {
      OutsideAre(o, c[1..]);
      assert forall p :: p in c <==> p == c[0] || p in c[1..];
    }
  }

  lemma SameText(c: seq<Pair>, j: int, k: int)
    requires DistinctText(c) && 0 <= j < |c| && 0 <= k < |c| && Text(c[j]) == Text(c[k])
    ensures j == k
  {
  }

  lemma InsideAt(o: seq<Pair>, ps: set<int>, c: seq<Pair>, k: int)
    requires DistinctText(c) && Takes(o, ps, c) && 0 <= k < |c|
    ensures Inside(o, c[k]) <==> k in ps
  {
    if k in ps {
      var i :| 0 <= i < |o| && o[i] == c[k];
      assert Text(o[i]) == Text(c[k]);
    }
    if Inside(o, c[k]) {
      var i :| 0 <= i < |o| && Text(o[i]) == Text(c[k]);
      assert o[i] in o;
      var j :| j in ps && 0 <= j < |c| && c[j] == o[i];
      SameText(c, j, k);
    }
  }

  /** What a part says about the holding clauses. */
  lemma PartMeans(rel: Rel, filter: Filter, o: seq<Pair>, ps: set<int>, c: seq<Pair>, env: string -> real,
                  div0: real -> real)
    requires filter != NoFilter && DistinctText(c) && Takes(o, ps, c)
    ensures True(Part(rel, filter, o, c), Valuation(env, div0)) <==>
            var holding := Holding(c, rel, env);
            if filter == Nmt then holding * ps != {} && holding <= ps else ps <= holding
  {
    OnsMean(rel, o, ps, c, env, div0);
    OffsMean(rel, o, ps, c, env, div0);
    hide Ons, Offs, Outside, Takes, DistinctText, Holding, Join;
    if filter == Nmt {
      var a, b := Join(false, Ons(rel, o)), Join(true, Offs(rel, Outside(o, c)));
      assert [a, b][0] == a && [a, b][1] == b;
      assert True(All([a, b]), Valuation(env, div0))
        <==> True(a, Valuation(env, div0)) && True(b, Valuation(env, div0));
    }
  }

  lemma OnsMean(rel: Rel, o: seq<Pair>, ps: set<int>, c: seq<Pair>, env: string -> real, div0: real -> real)
    requires Takes(o, ps, c)
    ensures True(Join(false, Ons(rel, o)), Valuation(env, div0)) <==> Holding(c, rel, env) * ps != {}
    ensures True(Join(true, Ons(rel, o)), Valuation(env, div0)) <==> ps <= Holding(c, rel, env)
  {
    var v, holding := Valuation(env, div0), Holding(c, rel, env);
    JoinMeans(false, Ons(rel, o), v);
    JoinMeans(true, Ons(rel, o), v);
    hide Join, Valuation;
    forall i | 0 <= i < |o| ensures True(Ons(rel, o)[i], v) <==> HoldsPair(rel, o[i], env) {
      OnMeans(rel, o[i], env, div0);
    }
    hide True, On, HoldsPair;
    if i :| 0 <= i < |o| && HoldsPair(rel, o[i], env) {
      assert o[i] in o;
      var k :| k in ps && 0 <= k < |c| && c[k] == o[i];
      assert k in holding * ps;
    }
    if k :| k in holding * ps {
      var i :| 0 <= i < |o| && o[i] == c[k];
      assert True(Ons(rel, o)[i], v);
    }
    if ps <= holding {
      forall i | 0 <= i < |o| ensures HoldsPair(rel, o[i], env) {
        assert o[i] in o;
        var k :| k in ps && 0 <= k < |c| && c[k] == o[i];
        assert k in holding;
      }
    }
    if forall i :: 0 <= i < |o| ==> HoldsPair(rel, o[i], env) {
      forall k | k in ps ensures k in holding {
        var i :| 0 <= i < |o| && o[i] == c[k];
      }
    }
  }

  lemma OffsMean(rel: Rel, o: seq<Pair>, ps: set<int>, c: seq<Pair>, env: string -> real, div0: real -> real)
    requires DistinctText(c) && Takes(o, ps, c)
    ensures True(Join(true, Offs(rel, Outside(o, c))), Valuation(env, div0)) <==> Holding(c, rel, env) <= ps
  {
    var v, holding, off := Valuation(env, div0), Holding(c, rel, env), Outside(o, c);
    JoinMeans(true, Offs(rel, off), v);
    OutsideAre(o, c);
    hide Join, Valuation, Takes;
    forall i | 0 <= i < |off| ensures True(Offs(rel, off)[i], v) <==> !HoldsPair(rel, off[i], env) {
      OnMeans(rel, off[i], env, div0);
    }
    hide True, Off, HoldsPair, Inside, Outside, DistinctText;
    if holding <= ps {
      forall i | 0 <= i < |off| ensures !HoldsPair(rel, off[i], env) {
        assert off[i] in off;
        var k :| 0 <= k < |c| && c[k] == off[i];
        InsideAt(o, ps, c, k);
      }
    }
    if forall i :: 0 <= i < |off| ==> !HoldsPair(rel, off[i], env) {
      forall k | 0 <= k < |c| && k !in ps ensures !HoldsPair(rel, c[k], env) {
        InsideAt(o, ps, c, k);
        assert c[k] in off;
        var i :| 0 <= i < |off| && off[i] == c[k];
      }
    }
  }

  // Without a filter.

  /** The comparison in each state that the lists pair. */
  function Compared(list1: seq<string>, list2: seq<string>, rel: Rel, env: string -> real): seq<bool> {
    var c := Pairs(list1, list2);
    seq(|c|, k requires 0 <= k < |c| => HoldsPair(rel, c[k], env))
  }

  /** Without a filter the comparisons of all pairs go under the operator: an assumption is
      written as it is meant, and an assertion, whose operator has been negated, so that the
      formula holds exactly in the runs that violate it. */
  lemma ComparisonWritten(temp: Temporal, rel: Rel, list1: seq<string>, list2: seq<string>, n: nat,
                          env: string -> real, div0: real -> real)
    requires list1 != [] && list2 != []
    ensures Written(list1, list2, rel, temp, NoFilter, n, true).Some?
    ensures True(Written(list1, list2, rel, temp, NoFilter, n, true).value, Valuation(env, div0)) <==>
            Meant(temp, Compared(list1, list2, rel, env))
    ensures Written(list1, list2, rel, temp, NoFilter, n, false).Some?
    ensures forall opposite :: Opposite(opposite) == Some(rel) ==>
      (True(Written(list1, list2, rel, temp, NoFilter, n, false).value, Valuation(env, div0)) <==>
       !Meant(temp, Compared(list1, list2, opposite, env)))
  {
    hide Encoded, Meant, Pairs, Valuation;
    var c, v := Pairs(list1, list2), Valuation(env, div0);
    PairsAre(list1, list2);
    PairAsked(list1, list2);
    Assumed(temp, Ons(rel, c), NoFilter, v);
    StatesCompared(c, rel, env, div0);
    forall opposite | Opposite(opposite) == Some(rel)
      ensures True(Written(list1, list2, rel, temp, NoFilter, n, false).value, v) <==>
              !Meant(temp, Compared(list1, list2, opposite, env))
    {
      assert Offs(opposite, c) == Ons(rel, c);
      ComparisonAsserted(temp, opposite, c, env, div0);
    }
  }

  lemma PairAsked(list1: seq<string>, list2: seq<string>)
    requires list1 != [] && list2 != []
    ensures Pairs(list1, list2) != []
  {
    hide Pairs;
    PairsAt(list1, list2, 0, 0);
  }

  lemma StatesCompared(ps: seq<Pair>, rel: Rel, env: string -> real, div0: real -> real)
    ensures States(Ons(rel, ps), Valuation(env, div0)) ==
            seq(|ps|, i requires 0 <= i < |ps| => HoldsPair(rel, ps[i], env))
  {
    forall i | 0 <= i < |ps| ensures True(Ons(rel, ps)[i], Valuation(env, div0)) <==> HoldsPair(rel, ps[i], env) {
      OnMeans(rel, ps[i], env, div0);
    }
  }

  /** In particular for comparisons: the assertion's operator is negated and the states of
      the left and right hand sides are paired. */
  lemma ComparisonAsserted(temp: Temporal, rel: Rel, ps: seq<Pair>, env: string -> real, div0: real -> real)
    requires ps != []
    ensures True(Encoded(temp, Offs(rel, ps), NoFilter, false), Valuation(env, div0)) <==>
            !Meant(temp, seq(|ps|, i requires 0 <= i < |ps| => HoldsPair(rel, ps[i], env)))
  {
    var v := Valuation(env, div0);
    forall i | 0 <= i < |ps|
      ensures True(Offs(rel, ps)[i], v) <==> !True(Ons(rel, ps)[i], v)
      ensures True(Ons(rel, ps)[i], v) <==> HoldsPair(rel, ps[i], env)
    {
      OnMeans(rel, ps[i], env, div0);
    }
    Asserted(temp, Ons(rel, ps), Offs(rel, ps), NoFilter, v);
    assert States(Ons(rel, ps), v) == seq(|ps|, i requires 0 <= i < |ps| => HoldsPair(rel, ps[i], env));
  }
}
