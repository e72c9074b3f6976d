/** Counting filters bound the number of clauses that hold: always on one side, exactly
    when the subsets enumerated are all the subsets of their size. */
module Bounds {
  import opened Lang
  import opened Formulas
  import opened Filters
  import opened Counting
  import opened Temporals

  function Range(a: int, b: int): (s: set<int>)
    ensures forall k :: k in s <==> a <= k < b
    decreases b - a
  {
    if a >= b then {} else Range(a, b - 1) + {b - 1}
  }

  lemma {:induction false} RangeSize(a: int, b: int)
    requires a <= b
    ensures |Range(a, b)| == b - a
    decreases b - a
  {
    if a < b {
      RangeSize(a, b - 1);
    }
  }

  lemma SubsetSize(s: set<int>, t: set<int>)
    requires s <= t
    ensures |s| <= |t| && (|s| == |t| ==> s == t)
  {
    assert t == s + (t - s);
    assert |t| == |s| + |t - s|;
  }

  function Positions(idx: int, i: int, n: int): set<int> {
    {idx} + Range(i + 1, i + n)
  }

  function Min(a: int, b: int): int {
    if a < b then a else b
  }

  lemma PositionsSize(idx: int, i: int, n: int)
    requires idx <= i && n >= 1
    ensures |Positions(idx, i, n)| == n
  {
    RangeSize(i + 1, i + n);
    var run := Range(i + 1, i + n);
    assert |{idx} + run| == |{idx}| + |run| by { assert {idx} !! run; }
  }

  lemma WindowTakes(c: seq<Pair>, idx: nat, i: nat, n: nat)
    requires idx <= i && i + n <= |c| && n >= 1
    ensures Takes(Window(c, idx, i, n), Positions(idx, i, n), c) && |Positions(idx, i, n)| == n
  {
    hide Takes, Window;
    PositionsSize(idx, i, n);
    var ps := Positions(idx, i, n);
    var at := seq(n, j => if j == 0 then idx else i + j);
    forall k | k in ps ensures k in at {
      assert at[if k == idx then 0 else k - i] == k;
    }
    forall j | 0 <= j < n
      ensures j < |Window(c, idx, i, n)| && at[j] in ps && at[j] < |c| && Window(c, idx, i, n)[j] == c[at[j]]
    {
      WindowAt(c, idx, i, n, j);
    }
    WindowAt(c, idx, i, n, 0);
    TakesBy(Window(c, idx, i, n), ps, c, at);
  }

  lemma TakesBy(o: seq<Pair>, ps: set<int>, c: seq<Pair>, at: seq<int>)
    requires |at| == |o| && forall j :: 0 <= j < |o| ==> 0 <= at[j] < |c| && at[j] in ps && o[j] == c[at[j]]
    requires forall k :: k in ps ==> k in at
    ensures Takes(o, ps, c)
  {
    forall k | k in ps ensures 0 <= k < |c| && c[k] in o {
      var j :| 0 <= j < |at| && at[j] == k;
      assert o[j] in o;
    }
    forall x | x in o ensures exists k :: k in ps && 0 <= k < |c| && c[k] == x {
      var j :| 0 <= j < |o| && o[j] == x;
      assert at[j] in ps;
    }
  }

  lemma WindowAt<T>(c: seq<T>, idx: nat, i: nat, n: nat, j: nat)
    requires idx <= i && i + n <= |c| && n >= 1
    ensures |Window(c, idx, i, n)| == n
    ensures j < n ==> Window(c, idx, i, n)[j] == c[if j == 0 then idx else i + j]
    ensures j < n ==> c[if j == 0 then idx else i + j] in Window(c, idx, i, n)
  {
    if j < n {
      assert Window(c, idx, i, n)[j] in Window(c, idx, i, n);
    }
  }

  lemma AllTaken(c: seq<Pair>)
    ensures Takes(c, Range(0, |c|), c) && |Range(0, |c|)| == |c|
  {
    RangeSize(0, |c|);
    forall x | x in c ensures exists k :: k in Range(0, |c|) && 0 <= k < |c| && c[k] == x {
      var k :| 0 <= k < |c| && c[k] == x;
      assert k in Range(0, |c|);
    }
  }

  /** Every subset enumerated takes `n` clauses, or all of fewer. */
  lemma ComboTakes(c: seq<Pair>, n: nat, o: seq<Pair>) returns (ps: set<int>)
    requires n >= 1 && Combos(c, n).Some? && o in Combos(c, n).value
    ensures Takes(o, ps, c) && |ps| == Min(n, |c|)
    ensures 2 <= n < |c| ==> exists idx, i :: 0 <= idx <= i && i + n <= |c| && ps == Positions(idx, i, n)
  {
    if |c| <= n {
      AllTaken(c);
      ps := Range(0, |c|);
    } else if n == 1 {
      var i :| 0 <= i < |c| && o == [c[i]];
      ps := {i};
    } else {
      WindowsFromAre(c, 0, n);
      var idx, i :| 0 <= idx <= i && i + n <= |c| && o == Window(c, idx, i, n);
      WindowTakes(c, idx, i, n);
      ps := Positions(idx, i, n);
    }
  }

  /** Some subset enumerated takes exactly these clauses. */
  predicate Enumerated(c: seq<Pair>, n: nat, ps: set<int>) {
    Combos(c, n).Some? && exists o :: o in Combos(c, n).value && Takes(o, ps, c)
  }

  lemma WindowEnumerated(c: seq<Pair>, idx: nat, i: nat, n: nat)
    requires 2 <= n < |c| && idx <= i && i + n <= |c|
    ensures Enumerated(c, n, Positions(idx, i, n))
  {
    hide Takes, Window, Positions, WindowsFrom;
    WindowIn(c, idx, i, n);
    WindowTakes(c, idx, i, n);
    assert Window(c, idx, i, n) in Combos(c, n).value;
  }

  lemma SmallEnumerated(c: seq<Pair>, n: nat, ps: set<int>)
    requires (n == 1 < |c| && exists i :: 0 <= i < |c| && ps == {i}) || (n >= |c| && ps == Range(0, |c|))
    ensures Enumerated(c, n, ps)
  {
    if n >= |c| {
      AllTaken(c);
      assert c in Combos(c, n).value;
    } else {
      var i :| 0 <= i < |c| && ps == {i};
      assert Singles(c)[i] == [c[i]];
      assert [c[i]] in Combos(c, n).value && Takes([c[i]], {i}, c);
    }
  }

  lemma Several(c: seq<Pair>, n: nat)
    requires n >= 1
    ensures Combos(c, n).Some? && Combos(c, n).value != []
  {
    if 2 <= n < |c| {
      WindowEnumerated(c, 0, 0, n);
    }
  }

  /** The formula holds when the holding clauses fit one of the enumerated subsets. */
  lemma FilteredMeans(list1: seq<string>, list2: seq<string>, rel: Rel, filter: Filter, n: nat, assumed: bool,
                      env: string -> real, div0: real -> real)
    requires filter != NoFilter && n >= 1 && DistinctText(Pairs(list1, list2))
    ensures Filtered(list1, list2, rel, filter, n, assumed).Some?
    ensures var (c, f) := (Pairs(list1, list2), Filtered(list1, list2, rel, filter, n, assumed).value);
      var holding := Holding(c, rel, env);
      && (True(f, Valuation(env, div0)) ==>
            exists ps :: Enumerated(c, n, ps) && |ps| == Min(n, |c|) && Fits(filter, holding, ps)
              && (2 <= n < |c| ==> exists idx, i :: 0 <= idx <= i && i + n <= |c| && ps == Positions(idx, i, n)))
      && (forall ps :: Enumerated(c, n, ps) && Fits(filter, holding, ps) ==> True(f, Valuation(env, div0)))
  {
    hide Part, Takes, DistinctText, Holding, Join, Valuation, True, Combos, Pairs, Positions, Enumerated, Fits;
    var c, v := Pairs(list1, list2), Valuation(env, div0);
    Several(c, n);
    var combos := Combos(c, n).value;
    var parts, holding := Parts(rel, filter, combos, c), Holding(c, rel, env);
    JoinMeans(false, parts, v);
    if True(Join(false, parts), v) {
      var j :| 0 <= j < |parts| && True(parts[j], v);
      assert combos[j] in combos;
      var ps := PartFits(rel, filter, combos[j], c, n, env, div0);
    }
    forall ps | Enumerated(c, n, ps) && Fits(filter, holding, ps) ensures True(Join(false, parts), v) {
      var j := FitsPart(rel, filter, ps, c, n, env, div0);
      assert True(parts[j], v);
    }
  }

  lemma PartFits(rel: Rel, filter: Filter, o: seq<Pair>, c: seq<Pair>, n: nat, env: string -> real, div0: real -> real)
    returns (ps: set<int>)
    requires filter != NoFilter && n >= 1 && DistinctText(c) && Combos(c, n).Some? && o in Combos(c, n).value
    requires True(Part(rel, filter, o, c), Valuation(env, div0))
    ensures Enumerated(c, n, ps) && |ps| == Min(n, |c|) && Fits(filter, Holding(c, rel, env), ps)
    ensures 2 <= n < |c| ==> exists idx, i :: 0 <= idx <= i && i + n <= |c| && ps == Positions(idx, i, n)
  {
    hide Part, Takes, DistinctText, Holding, Valuation, True, Combos, Positions;
    ps := ComboTakes(c, n, o);
    PartMeans(rel, filter, o, ps, c, env, div0);
  }

  lemma FitsPart(rel: Rel, filter: Filter, ps: set<int>, c: seq<Pair>, n: nat, env: string -> real, div0: real -> real)
    returns (j: nat)
    requires filter != NoFilter && n >= 1 && DistinctText(c) && Enumerated(c, n, ps)
    requires Fits(filter, Holding(c, rel, env), ps)
    ensures j < |Combos(c, n).value| && True(Part(rel, filter, Combos(c, n).value[j], c), Valuation(env, div0))
  {
    hide Part, Takes, DistinctText, Holding, Valuation, True, Combos;
    var combos := Combos(c, n).value;
    var o :| o in combos && Takes(o, ps, c);
    PartMeans(rel, filter, o, ps, c, env, div0);
    j :| 0 <= j < |combos| && combos[j] == o;
  }

  predicate Fits(filter: Filter, holding: set<int>, ps: set<int>) {
    if filter == Nmt then holding * ps != {} && holding <= ps else ps <= holding
  }

  /** No more than `n`: the formula demands that between one and `n` clauses hold. */
  lemma NoMoreThan(list1: seq<string>, list2: seq<string>, rel: Rel, n: nat, assumed: bool, env: string -> real,
                   div0: real -> real)
    requires n >= 1 && DistinctText(Pairs(list1, list2))
    ensures Filtered(list1, list2, rel, Nmt, n, assumed).Some?
    ensures var (c, f) := (Pairs(list1, list2), Filtered(list1, list2, rel, Nmt, n, assumed).value);
      var count := |Holding(c, rel, env)|;
      && (True(f, Valuation(env, div0)) ==> 1 <= count <= n)
      && (n <= 2 || n >= |c| ==> (True(f, Valuation(env, div0)) <==> 1 <= count <= n))
  {
    hide DistinctText, Filtered, Pairs, Valuation, True, Enumerated;
    var c := Pairs(list1, list2);
    var f, v, holding := Filtered(list1, list2, rel, Nmt, n, assumed), Valuation(env, div0), Holding(c, rel, env);
    FilteredMeans(list1, list2, rel, Nmt, n, assumed, env, div0);
    if True(f.value, v) {
      var ps :| Enumerated(c, n, ps) && |ps| == Min(n, |c|) && Fits(Nmt, holding, ps);
      SubsetSize(holding, ps);
      assert holding != {};
    }
    if (n <= 2 || n >= |c|) && 1 <= |holding| <= n {
      var ps := Cover(c, n, holding);
      assert holding * ps == holding;
      assert Fits(Nmt, holding, ps);
    }
  }

  /** No fewer than `n`: the formula demands that at least `n` clauses hold. */
  lemma NoFewerThan(list1: seq<string>, list2: seq<string>, rel: Rel, n: nat, assumed: bool, env: string -> real,
                    div0: real -> real)
    requires 1 <= n <= |Pairs(list1, list2)| && DistinctText(Pairs(list1, list2))
    ensures Filtered(list1, list2, rel, Nft, n, assumed).Some?
    ensures var (c, f) := (Pairs(list1, list2), Filtered(list1, list2, rel, Nft, n, assumed).value);
      var count := |Holding(c, rel, env)|;
      && (True(f, Valuation(env, div0)) ==> count >= n)
      && (n <= 2 || n == |c| ==> (True(f, Valuation(env, div0)) <==> count >= n))
  {
    hide DistinctText, Filtered, Pairs, Valuation, True, Enumerated;
    var c := Pairs(list1, list2);
    var f, v, holding := Filtered(list1, list2, rel, Nft, n, assumed), Valuation(env, div0), Holding(c, rel, env);
    FilteredMeans(list1, list2, rel, Nft, n, assumed, env, div0);
    if True(f.value, v) {
      var ps :| Enumerated(c, n, ps) && |ps| == Min(n, |c|) && Fits(Nft, holding, ps);
      SubsetSize(ps, holding);
    }
    if (n <= 2 || n == |c|) && |holding| >= n {
      var ps := Within(c, n, holding);
      assert Fits(Nft, holding, ps);
    }
  }

  /** A nonempty set of at most `n` positions lies within an enumerated subset. */
  lemma Cover(c: seq<Pair>, n: nat, holding: set<int>) returns (ps: set<int>)
    requires n >= 1 && (n <= 2 || n >= |c|) && 1 <= |holding| <= n && holding <= Range(0, |c|)
    ensures Enumerated(c, n, ps) && holding <= ps
  {
    if n >= |c| {
      ps := Range(0, |c|);
      SmallEnumerated(c, n, ps);
    } else if n == 1 {
      var k :| k in holding;
      SubsetSize({k}, holding);
      ps := {k};
      SmallEnumerated(c, n, ps);
    } else {
      var a, b := Two(c, holding);
      ps := PairEnumerated(c, a, b);
    }
  }

  /** At least `n` positions contain an enumerated subset. */
  lemma Within(c: seq<Pair>, n: nat, holding: set<int>) returns (ps: set<int>)
    requires n >= 1 && (n <= 2 || n == |c|) && |holding| >= n && holding <= Range(0, |c|)
    ensures Enumerated(c, n, ps) && ps <= holding
  {
    RangeSize(0, |c|);
    SubsetSize(holding, Range(0, |c|));
    if n == |c| {
      ps := Range(0, |c|);
      SmallEnumerated(c, n, ps);
    } else if n == 1 {
      var k :| k in holding;
      ps := {k};
      SmallEnumerated(c, n, ps);
    } else {
      var a :| a in holding;
      assert |holding - {a}| >= 1;
      var b :| b in holding - {a};
      ps := PairEnumerated(c, a, b);
    }
  }

  /** Two positions of the list that cover a set of one or two. */
  lemma Two(c: seq<Pair>, holding: set<int>) returns (a: int, b: int)
    requires 1 <= |holding| <= 2 < |c| && holding <= Range(0, |c|)
    ensures a != b && a in Range(0, |c|) && b in Range(0, |c|) && holding <= {a, b}
  {
    a :| a in holding;
    if rest :| rest in holding - {a} {
      b := rest;
      SubsetSize({a, b}, holding);
      assert |{a, b}| == 2;
    } else {
      b := if a == 0 then 1 else 0;
      assert holding - {a} == {};
    }
  }

  lemma PairEnumerated(c: seq<Pair>, a: int, b: int) returns (ps: set<int>)
    requires a != b && a in Range(0, |c|) && b in Range(0, |c|) && |c| > 2
    ensures Enumerated(c, 2, ps) && ps == {a, b}
  {
    var lo, hi := if a < b then a else b, if a < b then b else a;
    WindowEnumerated(c, lo, hi - 1, 2);
    ps := Positions(lo, hi - 1, 2);
  }

  // Between: with `3 <= n < |c|` some subsets of size `n` are not enumerated.

  /** The first `n - 1` positions and position `n` are not a window, nor contain one. */
  lemma NotAWindow(idx: int, i: int, n: int)
    requires 0 <= idx <= i && n >= 3
    ensures !(Positions(idx, i, n) <= Range(0, n - 1) + {n})
  {
    if i == 0 || i + 1 > n {
      assert i + n - 1 in Positions(idx, i, n);
    } else {
      var k := if i == 1 then n - 1 else i + n - 1;
      assert k in Positions(idx, i, n);
    }
  }

  /** When exactly those `n` clauses hold, both formulas come out false. */
  lemma Missed(list1: seq<string>, list2: seq<string>, rel: Rel, n: nat, assumed: bool, env: string -> real,
               div0: real -> real)
    requires 3 <= n < |Pairs(list1, list2)| && DistinctText(Pairs(list1, list2))
    requires Holding(Pairs(list1, list2), rel, env) == Range(0, n - 1) + {n}
    ensures |Holding(Pairs(list1, list2), rel, env)| == n
    ensures Filtered(list1, list2, rel, Nmt, n, assumed).Some?
    ensures !True(Filtered(list1, list2, rel, Nmt, n, assumed).value, Valuation(env, div0))
    ensures Filtered(list1, list2, rel, Nft, n, assumed).Some?
    ensures !True(Filtered(list1, list2, rel, Nft, n, assumed).value, Valuation(env, div0))
  {
    hide DistinctText, Filtered, Pairs, Valuation, True, Enumerated, Positions;
    var c := Pairs(list1, list2);
    var holding := Range(0, n - 1) + {n};
    RangeSize(0, n - 1);
    assert |holding| == n by { assert Range(0, n - 1) !! {n}; }
    FilteredMeans(list1, list2, rel, Nmt, n, assumed, env, div0);
    FilteredMeans(list1, list2, rel, Nft, n, assumed, env, div0);
    forall ps, idx, i | 0 <= idx <= i && ps == Positions(idx, i, n) && |ps| == n
      ensures !Fits(Nmt, holding, ps) && !Fits(Nft, holding, ps)
    {
      NotAWindow(idx, i, n);
      if holding <= ps {
        SubsetSize(holding, ps);
      }
    }
  }
}
