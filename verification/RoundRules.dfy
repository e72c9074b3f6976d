/** Assertions over the round log: a variable against a literal, and two variables against
    each other. */
module RoundRules {
  import opened Lang
  import opened Encoding
  import opened Formulas
  import opened Rounds

  type Rule = Formula<Cond<Ver>>

  // A variable against a literal.

  function Clauses(x: string, nums: seq<int>, rel: Rel, literal: real): seq<Rule> {
    seq(|nums|, i requires 0 <= i < |nums| => Clause(Cmp(rel, Ref(Ver(x, nums[i])), Lit(literal))))
  }

  type RulesByRound = map<int, seq<Rule>>

  /** Rounds beyond `rounds` are not looked at. */
  function Balanced(x: string, states: ByRound, rel: Rel, literal: real, rounds: nat): RulesByRound {
    map i | i in states && 0 <= i <= rounds :: Clauses(x, states[i], rel, literal)
  }

  /** Pairs each version with the literal, the version first on whichever side it stood. */
  method Balance(x: string, states: ByRound, rel: Rel, literal: real, rounds: nat) returns (ret: RulesByRound)
    ensures ret == Balanced(x, states, rel, literal, rounds)
  {
    ret := map[];
    var i := 0;
    while i <= rounds
      invariant 0 <= i <= rounds + 1
      invariant ret == map k | k in states && 0 <= k < i :: Clauses(x, states[k], rel, literal)
    {
      if i in states {
        ret := ret[i := Clauses(x, states[i], rel, literal)];
      }
      i := i + 1;
    }
  }

  /** The rules of rounds `i` to `rounds`, in order. */
  function Flat(states: RulesByRound, i: nat, rounds: nat): seq<Rule>
    decreases rounds + 1 - i
  {
    if i > rounds then [] else (if i in states then states[i] else []) + Flat(states, i + 1, rounds)
  }

  method FlattenStates(wraps: seq<RulesByRound>, rounds: nat) returns (asserts: seq<Rule>)
    ensures asserts == FlatAll(wraps, rounds)
  {
    asserts := [];
    var j := 0;
    while j < |wraps|
      invariant 0 <= j <= |wraps| && asserts + FlatAll(wraps[j..], rounds) == FlatAll(wraps, rounds)
    {
      assert wraps[j..][0] == wraps[j] && wraps[j..][1..] == wraps[j + 1..];
      hide Flat;
      var flat := FlattenWrap(wraps[j], rounds);
      asserts := asserts + flat;
      j := j + 1;
    }
  }

  method FlattenWrap(states: RulesByRound, rounds: nat) returns (asserts: seq<Rule>)
    ensures asserts == Flat(states, 0, rounds)
  {
    asserts := [];
    var i := 0;
    while i <= rounds
      invariant 0 <= i <= rounds + 1 && asserts + Flat(states, i, rounds) == Flat(states, 0, rounds)
    {
      if i in states {
        asserts := asserts + states[i];
      }
      i := i + 1;
    }
    assert asserts == asserts + Flat(states, i, rounds);
  }

  function FlatAll(wraps: seq<RulesByRound>, rounds: nat): seq<Rule> {
    if wraps == [] then [] else Flat(wraps[0], 0, rounds) + FlatAll(wraps[1..], rounds)
  }

  /** How many rules the rounds `i` to `rounds` of one group hold. */
  function Size(states: RulesByRound, i: nat, rounds: nat): nat
    decreases rounds + 1 - i
  {
    if i > rounds then 0 else (if i in states then |states[i]| else 0) + Size(states, i + 1, rounds)
  }

  function SizeAll(wraps: seq<RulesByRound>, rounds: nat): nat {
    if wraps == [] then 0 else Size(wraps[0], 0, rounds) + SizeAll(wraps[1..], rounds)
  }

  lemma {:induction false} FlatAt(states: RulesByRound, i: nat, rounds: nat, round: nat)
    requires i <= round <= rounds && round in states
    ensures Size(states, round, rounds) <= Size(states, i, rounds) == |Flat(states, i, rounds)|
    ensures var from := Size(states, i, rounds) - Size(states, round, rounds);
      from + |states[round]| <= |Flat(states, i, rounds)|
      && Flat(states, i, rounds)[from..from + |states[round]|] == states[round]
    decreases rounds + 1 - i
  {
    FlatSize(states, i, rounds);
    if i < round {
      FlatAt(states, i + 1, rounds, round);
      var here, rest := if i in states then states[i] else [], Flat(states, i + 1, rounds);
      var from := Size(states, i + 1, rounds) - Size(states, round, rounds);
      Shifted(here, rest, from, from + |states[round]|);
    } else {
      assert Flat(states, i, rounds) == states[i] + Flat(states, i + 1, rounds);
    }
  }

  lemma Shifted(a: seq<Rule>, b: seq<Rule>, i: nat, j: nat)
    requires i <= j <= |b|
    ensures (a + b)[|a| + i..|a| + j] == b[i..j]
  {
  }

  lemma {:induction false} FlatSize(states: RulesByRound, i: nat, rounds: nat)
    ensures |Flat(states, i, rounds)| == Size(states, i, rounds)
    decreases rounds + 1 - i
  {
    if i <= rounds {
      FlatSize(states, i + 1, rounds);
    }
  }

  /** Every round of every group is there whole, after all earlier rounds of the group and
      all rounds of the groups before it; and nothing else is. */
  lemma {:induction false} FlattenedAt(wraps: seq<RulesByRound>, rounds: nat, j: nat, round: nat)
    requires j < |wraps| && round <= rounds && round in wraps[j]
    ensures |FlatAll(wraps, rounds)| == SizeAll(wraps, rounds)
    ensures Size(wraps[j], round, rounds) <= Size(wraps[j], 0, rounds)
    ensures var from := SizeAll(wraps[..j], rounds) + Size(wraps[j], 0, rounds) - Size(wraps[j], round, rounds);
      from + |wraps[j][round]| <= |FlatAll(wraps, rounds)|
      && FlatAll(wraps, rounds)[from..from + |wraps[j][round]|] == wraps[j][round]
  {
    hide Flat, Size;
    FlatAllSize(wraps, rounds);
    FlatAt(wraps[j], 0, rounds, round);
    var here, rest := Flat(wraps[0], 0, rounds), FlatAll(wraps[1..], rounds);
    var n := |wraps[j][round]|;
    if j > 0 {
      FlattenedAt(wraps[1..], rounds, j - 1, round);
      FlatSize(wraps[0], 0, rounds);
      assert wraps[..j][0] == wraps[0] && wraps[..j][1..] == wraps[1..][..j - 1];
      var from := SizeAll(wraps[1..][..j - 1], rounds) + Size(wraps[j], 0, rounds) - Size(wraps[j], round, rounds);
      Shifted(here, rest, from, from + n);
    } else {
      var from := Size(wraps[0], 0, rounds) - Size(wraps[0], round, rounds);
      assert (here + rest)[from..from + n] == here[from..from + n];
    }
  }

  lemma {:induction false} FlatAllSize(wraps: seq<RulesByRound>, rounds: nat)
    ensures |FlatAll(wraps, rounds)| == SizeAll(wraps, rounds)
  {
    if wraps != [] {
      FlatSize(wraps[0], 0, rounds);
      FlatAllSize(wraps[1..], rounds);
    }
  }

  method JoinStates(wraps: seq<RulesByRound>, all: bool, rounds: nat) returns (f: Rule)
    ensures f == Join(all, FlatAll(wraps, rounds))
  {
    var asserts := FlattenStates(wraps, rounds);
    if |asserts| == 1 {
      return asserts[0];
    }
    f := if all then All(asserts) else Any(asserts);
  }

  /** Every version of `x` the log records from round `i` on. */
  function Recorded(log: seq<seq<Ver>>, i: nat, x: string): seq<int>
    decreases |log| - i
  {
    if i >= |log| then [] else Versions(log[i], x) + Recorded(log, i + 1, x)
  }

  /** While the log stays within the rounds looked at, there is one clause per version
      recorded, in the order of the log. */
  lemma {:induction false} OneClauseEach(log: seq<seq<Ver>>, i: nat, x: string, rel: Rel, literal: real, rounds: nat)
    requires i <= |log| <= rounds + 1
    ensures Flat(Balanced(x, Grouped(Logged(log, x)), rel, literal, rounds), i, rounds) ==
            Clauses(x, Recorded(log, i, x), rel, literal)
    decreases rounds + 1 - i
  {
    var states := Grouped(Logged(log, x));
    var balanced := Balanced(x, states, rel, literal, rounds);
    GroupedAre(log, x);
    hide Grouped, Logged, Versions;
    if i < |log| {
      OneClauseEach(log, i + 1, x, rel, literal, rounds);
      assert (if i in balanced then balanced[i] else []) == Clauses(x, Versions(log[i], x), rel, literal) by {
        assert OfRound(states, i) == Versions(log[i], x);
      }
      assert Clauses(x, Versions(log[i], x) + Recorded(log, i + 1, x), rel, literal) ==
        Clauses(x, Versions(log[i], x), rel, literal) + Clauses(x, Recorded(log, i + 1, x), rel, literal);
    } else {
      NothingLater(balanced, i, rounds);
    }
  }

  lemma {:induction false} NothingLater(states: RulesByRound, i: nat, rounds: nat)
    requires forall k :: k in states ==> k < i
    ensures Flat(states, i, rounds) == []
    decreases rounds + 1 - i
  {
    if i <= rounds {
      NothingLater(states, i + 1, rounds);
    }
  }

  /** The joined rule holds when every version (some version) of the variable satisfies it. */
  lemma LiteralRule(log: seq<seq<Ver>>, x: string, rel: Rel, literal: real, all: bool, rounds: nat, m: Model,
                    div0: real -> real)
    requires |log| <= rounds + 1
    ensures var f := Join(all, FlatAll([Balanced(x, Grouped(Logged(log, x)), rel, literal, rounds)], rounds));
      True(f, Valuation(m, div0)) <==>
      if all then
        forall r, p ::
          0 <= r < |log| && 0 <= p < |log[r]| && log[r][p].base == x ==> Compare(rel, m(log[r][p]), literal)
      else
        exists r, p :: 0 <= r < |log| && 0 <= p < |log[r]| && log[r][p].base == x && Compare(rel, m(log[r][p]), literal)
  {
    var wrap, nums := Balanced(x, Grouped(Logged(log, x)), rel, literal, rounds), Recorded(log, 0, x);
    assert FlatAll([wrap], rounds) == Clauses(x, nums, rel, literal) by {
      OneClauseEach(log, 0, x, rel, literal, rounds);
      assert [wrap][1..] == [];
    }
    var parts, v := Clauses(x, nums, rel, literal), Valuation(m, div0);
    JoinMeans(all, parts, v);
    forall i | 0 <= i < |parts| ensures True(parts[i], v) <==> Compare(rel, m(Ver(x, nums[i])), literal) {
      ClauseMeans(rel, Ver(x, nums[i]), literal, m, div0);
    }
    RecordedAre(log, 0, x);
    hide *;
    if all {
      if True(Join(all, parts), v) {
        forall r, p | 0 <= r < |log| && 0 <= p < |log[r]| && log[r][p].base == x
          ensures Compare(rel, m(log[r][p]), literal) {
          assert log[r][p].num in nums;
          var i :| 0 <= i < |nums| && nums[i] == log[r][p].num;
          assert True(parts[i], v);
        }
      }
    }
  }

  lemma ClauseMeans(rel: Rel, w: Ver, literal: real, m: Model, div0: real -> real)
    ensures True(Clause(Cmp(rel, Ref(w), Lit(literal))), Valuation(m, div0)) <==> Compare(rel, m(w), literal)
  {
  }

  lemma {:induction false} RecordedAre(log: seq<seq<Ver>>, i: nat, x: string)
    ensures forall n :: n in Recorded(log, i, x) <==>
      exists r, p :: i <= r < |log| && 0 <= p < |log[r]| && log[r][p] == Ver(x, n)
    decreases |log| - i
  {
    if i < |log| {
      RecordedAre(log, i + 1, x);
      VersionsAre(log[i], x);
    }
  }

  lemma {:induction false} VersionsAre(round: seq<Ver>, x: string)
    ensures forall n :: n in Versions(round, x) <==> exists p :: 0 <= p < |round| && round[p] == Ver(x, n)
  {
    if round != [] {
      VersionsAre(round[..|round| - 1], x);
    }
  }

  /** One side of a comparison. */
  datatype Side = Literal(value: real) | Variable(x: string, states: ByRound)

  /** A literal against a variable, on whichever side it stands (the constant cases of
      `mergeByRound`). */
  method MergeLiteral(left: Side, right: Side, rel: Rel, rounds: nat) returns (ret: RulesByRound)
    requires left.Literal? != right.Literal?
    ensures ret == if left.Literal? then Balanced(right.x, right.states, rel, left.value, rounds)
                   else Balanced(left.x, left.states, rel, right.value, rounds)
  {
    if left.Literal? {
      ret := Balance(right.x, right.states, rel, left.value, rounds);
    } else {
      ret := Balance(left.x, left.states, rel, right.value, rounds);
    }
  }

  /** The comparison as written, literal first, of every (some) recorded version. */
  ghost predicate LiteralFirst(log: seq<seq<Ver>>, x: string, rel: Rel, literal: real, all: bool, m: Model) {
    if all then
      forall r, p :: 0 <= r < |log| && 0 <= p < |log[r]| && log[r][p].base == x ==> Compare(rel, literal, m(log[r][p]))
    else
      exists r, p :: 0 <= r < |log| && 0 <= p < |log[r]| && log[r][p].base == x && Compare(rel, literal, m(log[r][p]))
  }

  predicate Unrecorded(log: seq<seq<Ver>>, x: string) {
    forall r, p :: 0 <= r < |log| && 0 <= p < |log[r]| ==> log[r][p].base != x
  }

  /** With the literal on the left the version still comes first in the clauses, which turns
      the comparison around: the joined rule means what was written if and only if the
      operator is equality or there is no version to compare. */
  lemma LiteralOnTheLeft(log: seq<seq<Ver>>, x: string, rel: Rel, literal: real, all: bool, rounds: nat,
                         div0: real -> real)
    requires |log| <= rounds + 1
    ensures var f := Join(all, FlatAll([Balanced(x, Grouped(Logged(log, x)), rel, literal, rounds)], rounds));
      (forall m :: True(f, Valuation(m, div0)) <==> LiteralFirst(log, x, rel, literal, all, m))
      <==> rel == Equal || Unrecorded(log, x)
  {
    hide Join, FlatAll, Balanced, Grouped, Logged, True, Valuation;
    var f := Join(all, FlatAll([Balanced(x, Grouped(Logged(log, x)), rel, literal, rounds)], rounds));
    forall m: Model {
      LiteralRule(log, x, rel, literal, all, rounds, m, div0);
    }
    if rel != Equal && !Unrecorded(log, x) {
      var m: Model := _ => literal + 1.0;
      var r, p :| 0 <= r < |log| && 0 <= p < |log[r]| && log[r][p].base == x;
      LiteralRule(log, x, rel, literal, all, rounds, m, div0);
      assert True(f, Valuation(m, div0)) <==> Compare(rel, literal + 1.0, literal);
      assert LiteralFirst(log, x, rel, literal, all, m) <==> Compare(rel, literal, literal + 1.0);
    }
  }

  /** `5 > x`, with `x` written once: the rule is `x_0 > 5`. */
  lemma LiteralOnTheLeftExample(m: Model, div0: real -> real)
    requires m(Ver("x", 0)) == 6.0
    ensures var log := [[Ver("x", 0)]];
      var f := Join(true, FlatAll([Balanced("x", Grouped(Logged(log, "x")), Gt, 5.0, 0)], 0));
      True(f, Valuation(m, div0)) && !LiteralFirst(log, "x", Gt, 5.0, true, m)
  {
    hide Join, FlatAll, Balanced, Grouped, Logged, True, Valuation;
    var log := [[Ver("x", 0)]];
    LiteralRule(log, "x", Gt, 5.0, true, 0, m, div0);
    assert log[0][0] == Ver("x", 0);
  }

  // Two variables against each other.

  /** The last write to `x`, if any. */
  function Latest(writes: seq<Ver>, x: string): Option<Ver> {
    if writes == [] then None
    else if writes[|writes| - 1].base in {x} then Some(writes[|writes| - 1])
    else Latest(writes[..|writes| - 1], x)
  }

  type Pairing = (Ver, Ver)

  /** What the last of the writes adds: the newest versions of both variables, if it is a
      write to one of them and both have been written. */
  function Pairs(writes: seq<Ver>, l: string, r: string): seq<Pairing> {
    if writes != [] && writes[|writes| - 1].base in {l, r} && Latest(writes, l).Some? && Latest(writes, r).Some?
    then [(Latest(writes, l).value, Latest(writes, r).value)]
    else []
  }

  /** The pairs of a round, `before` being the writes of the rounds before it. */
  function Coexisting(before: seq<Ver>, round: seq<Ver>, l: string, r: string): seq<Pairing> {
    if round == [] then []
    else Coexisting(before, round[..|round| - 1], l, r) + Pairs(before + round, l, r)
  }

  function Concat(log: seq<seq<Ver>>): seq<Ver> {
    if log == [] then [] else Concat(log[..|log| - 1]) + log[|log| - 1]
  }

  method TermCombos(log: seq<seq<Ver>>, l: string, r: string) returns (combos: map<int, seq<Pairing>>)
    requires l != r
    ensures combos == map i | 0 <= i < |log| :: Coexisting(Concat(log[..i]), log[i], l, r)
  {
    var llast: Option<Ver> := None;
    var rlast: Option<Ver> := None;
    combos := map[];
    var i := 0;
    while i < |log|
      invariant 0 <= i <= |log|
      invariant llast == Latest(Concat(log[..i]), l) && rlast == Latest(Concat(log[..i]), r)
      invariant combos == map k | 0 <= k < i :: Coexisting(Concat(log[..k]), log[k], l, r)
    {
      var c: seq<Pairing>;
      c, llast, rlast := RoundCombos(log[i], Concat(log[..i]), l, r, llast, rlast);
      assert log[..i + 1][..i] == log[..i];
      combos := combos[i := c];
      i := i + 1;
    }
  }

  /** One round; the newest versions are carried from round to round. */
  method RoundCombos(round: seq<Ver>, ghost before: seq<Ver>, l: string, r: string, llast0: Option<Ver>,
                     rlast0: Option<Ver>)
    returns (c: seq<Pairing>, llast: Option<Ver>, rlast: Option<Ver>)
    requires l != r && llast0 == Latest(before, l) && rlast0 == Latest(before, r)
    ensures c == Coexisting(before, round, l, r)
    ensures llast == Latest(before + round, l) && rlast == Latest(before + round, r)
  {
    llast, rlast, c := llast0, rlast0, [];
    assert before + [] == before;
    var p := 0;
    while p < |round|
      invariant 0 <= p <= |round| && c == Coexisting(before, round[..p], l, r)
      invariant llast == Latest(before + round[..p], l) && rlast == Latest(before + round[..p], r)
    {
      var vr := round[p];
      OneMoreWrite(before + round[..p], vr, l, r);
      assert before + round[..p] + [vr] == before + round[..p + 1];
      assert round[..p + 1][..p] == round[..p] && round[..p + 1][p] == vr;
      assert Coexisting(before, round[..p + 1], l, r) == c + Pairs(before + round[..p + 1], l, r);
      if vr.base == l {
        llast := Some(vr);
      }
      if vr.base == l && rlast.Some? {
        c := c + [(llast.value, rlast.value)];
      }
      if vr.base == r {
        rlast := Some(vr);
      }
      if vr.base == r && llast.Some? {
        c := c + [(llast.value, rlast.value)];
      }
      p := p + 1;
    }
    assert round[..p] == round;
  }

  lemma OneMoreWrite(writes: seq<Ver>, vr: Ver, l: string, r: string)
    requires l != r
    ensures Latest(writes + [vr], l) == if vr.base == l then Some(vr) else Latest(writes, l)
    ensures Latest(writes + [vr], r) == if vr.base == r then Some(vr) else Latest(writes, r)
    ensures Pairs(writes + [vr], l, r) ==
            if vr.base == l && Latest(writes, r).Some? then [(vr, Latest(writes, r).value)]
            else if vr.base == r && Latest(writes, l).Some? then [(Latest(writes, l).value, vr)]
            else []
  {
    assert (writes + [vr])[..|writes|] == writes;
  }

  /** The pairs stand in the order of the writes. */
  lemma {:induction false} CoexistingInOrder(before: seq<Ver>, a: seq<Ver>, b: seq<Ver>, l: string, r: string)
    ensures Coexisting(before, a + b, l, r) == Coexisting(before, a, l, r) + Coexisting(before + a, b, l, r)
  {
    hide Pairs;
    if b == [] {
      assert a + b == a;
    } else {
      var n := |b| - 1;
      CoexistingInOrder(before, a, b[..n], l, r);
      assert (a + b)[..|a| + n] == a + b[..n] && before + (a + b) == (before + a) + b;
    }
  }

  /** At some moment of the run these are the newest versions of both variables. */
  ghost predicate Coexist(writes: seq<Ver>, l: string, r: string, pair: Pairing) {
    exists k :: 0 <= k <= |writes| && Latest(writes[..k], l) == Some(pair.0) && Latest(writes[..k], r) == Some(pair.1)
  }

  /** Some round reports the pair. */
  ghost predicate Reported(log: seq<seq<Ver>>, l: string, r: string, pair: Pairing) {
    exists i :: 0 <= i < |log| && pair in Coexisting(Concat(log[..i]), log[i], l, r)
  }

  /** The pairs reported are exactly the states of the two variables that coexist. */
  lemma ReportedCoexist(log: seq<seq<Ver>>, l: string, r: string, pair: Pairing)
    ensures Reported(log, l, r, pair) <==> Coexist(Concat(log), l, r, pair)
  {
    hide Coexisting, Latest, Concat;
    if Reported(log, l, r, pair) {
      var i :| 0 <= i < |log| && pair in Coexisting(Concat(log[..i]), log[i], l, r);
      CoexistAt(log, l, r, pair, i);
    }
    if Coexist(Concat(log), l, r, pair) {
      var k :| 0 <= k <= |Concat(log)| && Latest(Concat(log)[..k], l) == Some(pair.0)
        && Latest(Concat(log)[..k], r) == Some(pair.1);
      ReportedBy(log, l, r, pair, k);
    }
  }

  lemma CoexistAt(log: seq<seq<Ver>>, l: string, r: string, pair: Pairing, i: nat)
    requires i < |log| && pair in Coexisting(Concat(log[..i]), log[i], l, r)
    ensures Coexist(Concat(log), l, r, pair)
  {
    hide Coexisting, Latest, Concat;
    InRound(Concat(log[..i]), log[i], l, r, pair);
    var k :| 0 < k <= |log[i]| && pair in Pairs(Concat(log[..i]) + log[i][..k], l, r);
    PrefixOf(log, i, k);
    var n := |Concat(log[..i])| + k;
    assert Latest(Concat(log)[..n], l) == Some(pair.0) && Latest(Concat(log)[..n], r) == Some(pair.1);
  }

  lemma {:induction false} InRound(before: seq<Ver>, round: seq<Ver>, l: string, r: string, pair: Pairing)
    ensures pair in Coexisting(before, round, l, r) <==>
      exists k :: 0 < k <= |round| && pair in Pairs(before + round[..k], l, r)
  {
    hide Pairs;
    if round != [] {
      var n := |round| - 1;
      InRound(before, round[..n], l, r, pair);
      assert round[..|round|] == round;
      assert forall k :: 0 < k <= n ==> round[..n][..k] == round[..k];
    }
  }

  lemma {:induction false} PrefixOf(log: seq<seq<Ver>>, i: nat, k: nat)
    requires i < |log| && k <= |log[i]|
    ensures |Concat(log[..i])| + k <= |Concat(log)|
    ensures Concat(log)[..|Concat(log[..i])| + k] == Concat(log[..i]) + log[i][..k]
  {
    var n := |log| - 1;
    if i < n {
      PrefixOf(log[..n], i, k);
      assert log[..n][..i] == log[..i];
    }
  }

  /** The moment is reported where one of the two variables was last written. */
  lemma {:induction false} ReportedBy(log: seq<seq<Ver>>, l: string, r: string, pair: Pairing, k: nat)
    requires k <= |Concat(log)|
    requires Latest(Concat(log)[..k], l) == Some(pair.0) && Latest(Concat(log)[..k], r) == Some(pair.1)
    ensures Reported(log, l, r, pair)
    decreases k
  {
    var writes := Concat(log)[..k];
    var n := k - 1;
    assert writes[..n] == Concat(log)[..n];
    if writes[n].base in {l, r} {
      var i, j := RoundOf(log, n);
      PrefixOf(log, i, j + 1);
      assert pair in Pairs(Concat(log[..i]) + log[i][..j + 1], l, r);
      InRound(Concat(log[..i]), log[i], l, r, pair);
    } else {
      ReportedBy(log, l, r, pair, n);
    }
  }

  lemma {:induction false} RoundOf(log: seq<seq<Ver>>, n: nat) returns (i: nat, j: nat)
    requires n < |Concat(log)|
    ensures i < |log| && j < |log[i]| && |Concat(log[..i])| + j == n
  {
    var last := |log| - 1;
    if n < |Concat(log[..last])| {
      i, j := RoundOf(log[..last], n);
      assert log[..last][..i] == log[..i];
    } else {
      i, j := last, n - |Concat(log[..last])|;
    }
  }
}
