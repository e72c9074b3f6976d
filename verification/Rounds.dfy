/** The round log: which versions of each variable were written in which round, an index
    into it, and what assertions read off it. */
module Rounds {
  import opened Lang
  import opened Encoding
  import opened Formulas

  datatype Entry = Entry(num: int, round: nat, pos: nat)

  /** The writes to `x` in round number `r`, in order. */
  function Found(round: seq<Ver>, r: nat, x: string): seq<Entry> {
    if round == [] then []
    else
      var n := |round| - 1;
      Found(round[..n], r, x) + (if round[n].base in {x} then [Entry(round[n].num, r, n)] else [])
  }

  function Logged(log: seq<seq<Ver>>, x: string): seq<Entry> {
    if log == [] then []
    else Logged(log[..|log| - 1], x) + Found(log[|log| - 1], |log| - 1, x)
  }

  predicate Before(a: Entry, b: Entry) {
    a.round < b.round || (a.round == b.round && a.pos < b.pos)
  }

  lemma {:induction false} FoundAre(round: seq<Ver>, r: nat, x: string)
    ensures forall e :: e in Found(round, r, x) <==> e.round == r && e.pos < |round| && round[e.pos] == Ver(x, e.num)
    ensures forall i, j :: 0 <= i < j < |Found(round, r, x)| ==> Before(Found(round, r, x)[i], Found(round, r, x)[j])
  {
    if round != [] {
      FoundAre(round[..|round| - 1], r, x);
    }
  }

  /** The index lists each write of a variable once, in order, at its true position. */
  lemma {:induction false} LoggedAre(log: seq<seq<Ver>>, x: string)
    ensures forall e :: e in Logged(log, x) <==>
      e.round < |log| && e.pos < |log[e.round]| && log[e.round][e.pos] == Ver(x, e.num)
    ensures forall i, j :: 0 <= i < j < |Logged(log, x)| ==> Before(Logged(log, x)[i], Logged(log, x)[j])
  {
    if log != [] {
      var n := |log| - 1;
      LoggedAre(log[..n], x);
      FoundAre(log[n], n, x);
      var a, b := Logged(log[..n], x), Found(log[n], n, x);
      assert forall i :: 0 <= i < |a| ==> a[i] in a;
      assert forall i :: 0 <= i < |b| ==> b[i] in b;
    }
  }

  // Versions by round.

  function Versions(round: seq<Ver>, x: string): seq<int> {
    if round == [] then []
    else
      var n := |round| - 1;
      Versions(round[..n], x) + (if round[n].base in {x} then [round[n].num] else [])
  }

  /** These are the versions of the writes found there, in order. */
  lemma {:induction false} VersionsAreFound(round: seq<Ver>, r: nat, x: string)
    ensures |Versions(round, x)| == |Found(round, r, x)|
    ensures forall i :: 0 <= i < |Versions(round, x)| ==> Versions(round, x)[i] == Found(round, r, x)[i].num
  {
    if round != [] {
      VersionsAreFound(round[..|round| - 1], r, x);
    }
  }

  type ByRound = map<int, seq<int>>

  function OfRound(ir: ByRound, r: int): seq<int> {
    if r in ir then ir[r] else []
  }

  function Grouped(states: seq<Entry>): ByRound {
    if states == [] then map[]
    else
      var ir, s := Grouped(states[..|states| - 1]), states[|states| - 1];
      ir[s.round := OfRound(ir, s.round) + [s.num]]
  }

  lemma {:induction false} GroupedFound(states: seq<Entry>, round: seq<Ver>, r: nat, x: string)
    requires r !in Grouped(states)
    ensures var ir := Grouped(states + Found(round, r, x));
      if Versions(round, x) == [] then ir == Grouped(states) else ir == Grouped(states)[r := Versions(round, x)]
  {
    hide Grouped;
    if round == [] {
      assert states + [] == states;
    } else {
      var n := |round| - 1;
      GroupedFound(states, round[..n], r, x);
      var done := states + Found(round[..n], r, x);
      if round[n].base in {x} {
        var e := Entry(round[n].num, r, n);
        assert states + Found(round, r, x) == done + [e];
        GroupedSnoc(done, e);
        assert Versions(round, x) == Versions(round[..n], x) + [e.num];
      } else {
        assert Found(round, r, x) == Found(round[..n], r, x);
        assert Versions(round, x) == Versions(round[..n], x);
      }
    }
  }

  lemma GroupedSnoc(states: seq<Entry>, e: Entry)
    ensures Grouped([]) == map[]
    ensures Grouped(states + [e]) == Grouped(states)[e.round := OfRound(Grouped(states), e.round) + [e.num]]
  {
    assert (states + [e])[..|states|] == states;
  }

  lemma GroupedOne(e: Entry)
    ensures Grouped([e]) == map[e.round := [e.num]]
  {
    assert [e][..0] == [];
    assert OfRound(map[], e.round) + [e.num] == [e.num];
  }

  /** Grouping the index gives, for each round that writes `x`, its versions of `x`. */
  lemma {:induction false} GroupedAre(log: seq<seq<Ver>>, x: string)
    ensures forall r :: r in Grouped(Logged(log, x)) <==> 0 <= r < |log| && Versions(log[r], x) != []
    ensures forall r :: 0 <= r < |log| ==> OfRound(Grouped(Logged(log, x)), r) == Versions(log[r], x)
  {
    if log != [] {
      var n := |log| - 1;
      hide Grouped, Found, Versions;
      GroupedAre(log[..n], x);
      GroupedFound(Logged(log[..n], x), log[n], n, x);
    }
  }

  /** `states` holds the first entry of version `num`, which is entry `i`. */
  predicate FirstAt(entries: seq<Entry>, num: int, i: int, states: seq<Entry>) {
    && 0 <= i < |entries| && entries[i].num == num && states == [entries[i]]
    && forall k :: 0 <= k < i ==> entries[k].num != num
  }

  class RoundLog {
    const rounds: nat
    var roundVars: seq<seq<Ver>>
    var rVarLookup: map<string, seq<Entry>>

    constructor (rounds: nat)
      ensures Valid() && roundVars == [] && this.rounds == rounds
    {
      this.rounds := rounds;
      roundVars, rVarLookup := [], map[];
    }

    function Lookup(x: string): seq<Entry>
      reads this
    {
      if x in rVarLookup then rVarLookup[x] else []
    }

    /** The index agrees with the log. */
    ghost predicate Valid()
      reads this
    {
      forall x :: Lookup(x) == Logged(roundVars, x)
    }

    function CurrentRound(): int
      reads this
    {
      |roundVars| - 1
    }

    method NewRound()
      requires Valid()
      modifies this
      ensures Valid() && roundVars == old(roundVars) + [[]]
    {
      ghost var before := roundVars;
      roundVars := roundVars + [[]];
      forall x ensures Lookup(x) == Logged(roundVars, x) {
        assert roundVars[..|before|] == before;
      }
    }

    method AddVarToRoundLookup(base: string, num: int, idx: nat, idx2: nat)
      modifies this`rVarLookup
      ensures forall x :: Lookup(x) == old(Lookup(x)) + (if x in {base} then [Entry(num, idx, idx2)] else [])
    {
      rVarLookup := rVarLookup[base := Lookup(base) + [Entry(num, idx, idx2)]];
    }

    /** The write goes to the current round; the first one opens round 0. */
    method AddVarToRound(base: string, num: int)
      requires Valid()
      modifies this
      ensures Valid()
      ensures roundVars ==
              if old(roundVars) == [] then [[Ver(base, num)]]
              else old(roundVars)[|old(roundVars)| - 1 := old(roundVars)[|old(roundVars)| - 1] + [Ver(base, num)]]
    {
      ghost var before := roundVars;
      if CurrentRound() == -1 {
        roundVars := [[Ver(base, num)]];
        AddVarToRoundLookup(base, num, 0, |roundVars[CurrentRound()]| - 1);
        forall x ensures Lookup(x) == Logged(roundVars, x) {
          OneMoreLogged([], [], base, num, x);
        }
        return;
      }
      var r := CurrentRound();
      roundVars := roundVars[r := roundVars[r] + [Ver(base, num)]];
      AddVarToRoundLookup(base, num, r, |roundVars[r]| - 1);
      forall x ensures Lookup(x) == Logged(roundVars, x) {
        OneMoreLogged(before[..r], before[r], base, num, x);
        assert before == before[..r] + [before[r]];
        assert roundVars == before[..r] + [before[r] + [Ver(base, num)]];
      }
    }

    /** All versions of a variable, or the first entry of one of them if it is there. */
    method LookupVarRounds(base: string, num: Option<int>) returns (states: Option<seq<Entry>>)
      ensures num.None? ==> states == Some(Lookup(base))
      ensures num.Some? ==> (states.None? <==> forall e :: e in Lookup(base) ==> e.num != num.value)
      ensures num.Some? && states.Some? ==> exists i :: FirstAt(Lookup(base), num.value, i, states.value)
    {
      if num.None? {
        return Some(Lookup(base));
      }
      var i := 0;
      while i < |Lookup(base)|
        invariant 0 <= i <= |Lookup(base)|
        invariant forall k :: 0 <= k < i ==> Lookup(base)[k].num != num.value
      {
        if Lookup(base)[i].num == num.value {
          assert FirstAt(Lookup(base), num.value, i, [Lookup(base)[i]]);
          return Some([Lookup(base)[i]]);
        }
        i := i + 1;
      }
      states := None;
    }

    method VarRounds(base: string, num: Option<int>) returns (ir: Option<ByRound>)
      requires Valid()
      ensures num.None? ==> ir == Some(Grouped(Logged(roundVars, base)))
      ensures num.Some? ==> (ir.None? <==> forall e :: e in Logged(roundVars, base) ==> e.num != num.value)
      ensures num.Some? && ir.Some? ==>
        exists e :: e in Logged(roundVars, base) && e.num == num.value && ir.value == map[e.round := [e.num]]
    {
      hide Grouped, Logged;
      assert Lookup(base) == Logged(roundVars, base);
      GroupedSnoc([], Entry(0, 0, 0));
      var states := LookupVarRounds(base, num);
      if states.None? {
        return None;
      }
      var out: ByRound := map[];
      var i := 0;
      while i < |states.value|
        invariant 0 <= i <= |states.value| && out == Grouped(states.value[..i])
      {
        var s := states.value[i];
        assert states.value[..i + 1] == states.value[..i] + [s];
        GroupedSnoc(states.value[..i], s);
        out := out[s.round := OfRound(out, s.round) + [s.num]];
        i := i + 1;
      }
      assert states.value[..i] == states.value;
      if num.Some? {
        var e := states.value[0];
        assert states.value == [e];
        GroupedOne(e);
      }
      ir := Some(out);
    }
  }

  lemma OneMoreLogged(log: seq<seq<Ver>>, round: seq<Ver>, base: string, num: int, x: string)
    ensures Logged(log + [round + [Ver(base, num)]], x) ==
            Logged(log + [round], x) + (if x in {base} then [Entry(num, |log|, |round|)] else [])
    ensures Logged([[]], x) == [] && Logged([], x) == []
  {
    var v := Ver(base, num);
    assert (log + [round + [v]])[..|log|] == log && (log + [round])[..|log|] == log;
    assert (round + [v])[..|round|] == round;
    var empty: seq<seq<Ver>> := [[]];
    assert empty[..0] == [];
  }
}
