/** The SSA counters and the phi stacks (`VarData`). Each variable has a stack of frames,
    one pushed per conditional entered; a frame lists versions, starting with the one
    current when it was pushed. */
module Variables {
  import opened Encoding

  type Frame = f: seq<int> | f != [] witness [0]
  type Stacks = map<string, seq<Frame>>

  function Last(stack: seq<Frame>): int
    requires stack != []
  {
    var top := stack[|stack| - 1];
    top[|top| - 1]
  }

  function Start(stack: seq<Frame>): int
    requires stack != []
  {
    stack[|stack| - 1][0]
  }

  function Push(stack: seq<Frame>, n: int): (r: seq<Frame>)
    ensures r != []
  {
    var frame: Frame := [n];
    stack + [frame]
  }

  /** Appending `n` to the top frame. */
  function Extend(stack: seq<Frame>, n: int): (r: seq<Frame>)
    requires stack != []
    ensures r != []
  {
    var top: Frame := stack[|stack| - 1] + [n];
    stack[|stack| - 1 := top]
  }

  predicate NonEmpty(phis: Stacks) {
    forall x :: x in phis ==> phis[x] != []
  }

  /** Every variable with a stack has its newest version on top of it. */
  predicate Synced(ssa: Counters, phis: Stacks) {
    forall x :: x in phis ==> x in ssa && phis[x] != [] && Last(phis[x]) == ssa[x] >= 0
  }

  /** `stack'` only lengthened the top frame of `stack`. */
  predicate SameBelow(stack: seq<Frame>, stack': seq<Frame>) {
    && |stack'| == |stack| > 0
    && stack'[..|stack| - 1] == stack[..|stack| - 1]
    && stack[|stack| - 1] <= stack'[|stack| - 1]
  }

  function Pushed(phis: Stacks): Stacks
    requires NonEmpty(phis)
  {
    map x | x in phis :: Push(phis[x], Last(phis[x]))
  }

  function Popped(phis: Stacks): Stacks
    requires NonEmpty(phis)
  {
    map x | x in phis :: phis[x][..|phis[x]| - 1]
  }

  /** Each version of `state` appended to the top frame of its variable; a variable without
      a stack gets its first frame. */
  function Appended(phis: Stacks, state: map<string, int>): Stacks
    requires NonEmpty(phis)
  {
    map x | x in phis.Keys + state.Keys ::
      if x !in state then phis[x] else if x in phis then Extend(phis[x], state[x]) else Push([], 0)
  }

  /** Each version of `state` pushed as a frame, -1 standing for the last state; a variable
      without a stack gets its first frame. */
  function Loaded(phis: Stacks, state: map<string, int>): Stacks
    requires NonEmpty(phis)
  {
    map x | x in phis.Keys + state.Keys ::
      if x !in state then phis[x]
      else if x in phis then Push(phis[x], if state[x] != -1 then state[x] else Last(phis[x]))
      else Push([], 0)
  }

  /** What a state says about the variables of `done`. */
  function Part(state: map<string, int>, done: set<string>): map<string, int> {
    map x | x in state && x in done :: state[x]
  }

  lemma AppendStep(phis: Stacks, state: map<string, int>, done: set<string>, x: string)
    requires NonEmpty(phis) && x in state && x !in done
    ensures var now, next := Appended(phis, Part(state, done)), Appended(phis, Part(state, done + {x}));
      && (x in now ==> now[x] != [])
      && next == now[x := if x in now then Extend(now[x], state[x]) else Push([], 0)]
  {
    hide Extend, Push;
  }

  lemma LoadStep(phis: Stacks, state: map<string, int>, done: set<string>, x: string)
    requires NonEmpty(phis) && x in state && x !in done
    ensures var now, next := Loaded(phis, Part(state, done)), Loaded(phis, Part(state, done + {x}));
      && (x in now ==> now[x] != [])
      && next == now[x := if x !in now then Push([], 0)
                          else Push(now[x], if state[x] != -1 then state[x] else Last(now[x]))]
  {
    hide Push, Last;
  }

  lemma AllParts(phis: Stacks, state: map<string, int>)
    requires NonEmpty(phis)
    ensures Appended(phis, Part(state, {})) == phis == Loaded(phis, Part(state, {}))
    ensures Part(state, state.Keys) == state
  {
  }

  /** `SameBelow` for every variable at once. */
  predicate OnlyTops(phis: Stacks, phis': Stacks) {
    phis'.Keys == phis.Keys && forall x :: x in phis ==> SameBelow(phis[x], phis'[x])
  }

  lemma SyncedNonEmpty(ssa: Counters, phis: Stacks)
    requires Synced(ssa, phis)
    ensures NonEmpty(phis) && phis.Keys <= ssa.Keys
    ensures forall x :: x in phis ==> 0 <= Count(ssa, x)
  {
  }

  lemma OnlyTopsRefl(phis: Stacks)
    requires NonEmpty(phis)
    ensures OnlyTops(phis, phis)
  {
  }

  lemma OnlyTopsTrans(phis: Stacks, phis': Stacks, phis'': Stacks)
    requires OnlyTops(phis, phis') && OnlyTops(phis', phis'')
    ensures OnlyTops(phis, phis'')
  {
  }

  /** The stacks after a store of version `n` to `x`: outside any conditional or parallel
      group a new frame is pushed, inside one the top frame grows. */
  function StorePhis(phis: Stacks, inside: bool, x: string, n: int): Stacks
    requires x in phis ==> phis[x] != []
  {
    if x !in phis then phis[x := Push([], 0)]
    else if inside then phis[x := Extend(phis[x], n)]
    else phis[x := Push(phis[x], n)]
  }

  class VarData {
    var ssa: Counters
    var phis: Stacks

    constructor ()
      ensures ssa == map[] && phis == map[]
    {
      ssa, phis := map[], map[];
    }

    method GetSSA(id: string) returns (n: int)
      modifies this`ssa
      ensures n == Count(old(ssa), id)
      ensures ssa == old(ssa)[id := n]
    {
      if id !in ssa {
        ssa := ssa[id := 0];
      }
      n := ssa[id];
    }

    method AdvanceSSA(id: string) returns (n: int)
      modifies this`ssa
      ensures ssa == Bump(old(ssa), id) && n == ssa[id]
    {
      if id in ssa {
        ssa := ssa[id := Inc16(ssa[id])];
      } else {
        ssa := ssa[id := 0];
      }
      n := ssa[id];
    }

    function GetLastState(id: string): (n: int)
      requires id in phis ==> phis[id] != []
      reads this
    {
      if id in phis then Last(phis[id]) else 0
    }

    function GetStartState(id: string): (n: int)
      requires id in phis ==> phis[id] != []
      reads this
    {
      if id in phis then Start(phis[id]) else 0
    }

    /** A variable's first frame is [0] whatever `init` says; -1 stands for the last state. */
    method NewPhi(id: string, init: int)
      requires id in phis ==> phis[id] != []
      modifies this`phis
      ensures phis == old(phis)[id :=
        if id !in old(phis) then Push([], 0)
        else Push(old(phis)[id], if init != -1 then init else Last(old(phis)[id]))]
    {
      if id !in phis {
        phis := phis[id := Push([], 0)];
        return;
      }
      if init != -1 {
        phis := phis[id := Push(phis[id], init)];
        return;
      }
      phis := phis[id := Push(phis[id], GetLastState(id))];
    }

    method StoreLastState(id: string, n: int)
      requires id in phis ==> phis[id] != []
      modifies this`phis
      ensures phis == old(phis)[id := if id in old(phis) then Extend(old(phis)[id], n) else Push([], 0)]
    {
      if id in phis {
        var p := phis[id];
        var updated: Frame := p[|p| - 1] + [n];
        phis := phis[id := p[..|p| - 1] + [updated]];
        assert phis[id] == Extend(p, n);
      } else {
        NewPhi(id, 0);
      }
    }

    /** Entering a conditional: every stack gets a frame holding its last state. */
    method InitPhis()
      requires NonEmpty(phis)
      modifies this`phis
      ensures phis == Pushed(old(phis))
    {
      var keys := phis.Keys;
      while keys != {}
        invariant keys <= phis.Keys == old(phis).Keys && NonEmpty(phis)
        invariant forall x :: x in phis ==>
          phis[x] == if x in keys then old(phis)[x] else Push(old(phis)[x], Last(old(phis)[x]))
      {
        var k :| k in keys;
        NewPhi(k, -1);
        keys := keys - {k};
      }
    }

    method PopPhi(id: string)
      requires id in phis ==> phis[id] != []
      modifies this`phis
      ensures phis == if id in old(phis) then old(phis)[id := old(phis)[id][..|old(phis)[id]| - 1]] else old(phis)
    {
      if id in phis {
        phis := phis[id := phis[id][..|phis[id]| - 1]];
      }
    }

    /** Leaving a conditional: every stack loses its top frame. */
    method PopPhis()
      requires NonEmpty(phis)
      modifies this`phis
      ensures phis == Popped(old(phis))
    {
      ghost var target := Popped(phis);
      var keys := phis.Keys;
      while keys != {}
        invariant keys <= phis.Keys == old(phis).Keys
        invariant forall x :: x in phis ==> phis[x] == if x in keys then old(phis)[x] else target[x]
      {
        var k :| k in keys;
        PopPhi(k);
        keys := keys - {k};
      }
    }

    method SaveState() returns (state: map<string, int>)
      requires NonEmpty(phis)
      ensures state == map x | x in phis :: Start(phis[x])
    {
      state := map[];
      var keys := phis.Keys;
      while keys != {}
        invariant keys <= phis.Keys
        invariant state == map x | x in phis.Keys - keys :: Start(phis[x])
      {
        var k :| k in keys;
        state := state[k := GetStartState(k)];
        keys := keys - {k};
      }
    }

    method LoadState(state: map<string, int>)
      requires NonEmpty(phis)
      modifies this`phis
      ensures phis == Loaded(old(phis), state)
    {
      hide Loaded, Part, Push, Last, NonEmpty;
      AllParts(phis, state);
      var keys := state.Keys;
      assert state.Keys - keys == {};
      while keys != {}
        invariant keys <= state.Keys && phis == Loaded(old(phis), Part(state, state.Keys - keys))
      {
        var k :| k in keys;
        LoadStep(old(phis), state, state.Keys - keys, k);
        assert state.Keys - (keys - {k}) == state.Keys - keys + {k};
        NewPhi(k, state[k]);
        keys := keys - {k};
      }
      assert state.Keys - {} == state.Keys;
    }

    method AppendState(state: map<string, int>)
      requires NonEmpty(phis)
      modifies this`phis
      ensures phis == Appended(old(phis), state)
    {
      hide Appended, Part, Push, Extend, NonEmpty;
      AllParts(phis, state);
      var keys := state.Keys;
      assert state.Keys - keys == {};
      while keys != {}
        invariant keys <= state.Keys && phis == Appended(old(phis), Part(state, state.Keys - keys))
      {
        var k :| k in keys;
        AppendStep(old(phis), state, state.Keys - keys, k);
        assert state.Keys - (keys - {k}) == state.Keys - keys + {k};
        StoreLastState(k, state[k]);
        keys := keys - {k};
      }
      assert state.Keys - {} == state.Keys;
    }
  }
}
