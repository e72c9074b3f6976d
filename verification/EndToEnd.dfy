/** From structured program to constraints: compiled to blocks, walked by the generator,
    and read as constraints whose models are the runs of the blocks. */
module EndToEnd {
  import opened Lang
  import opened Emission
  import opened Encoding
  import opened Exactness
  import opened Models
  import opened Variables
  import opened Blocks
  import opened ControlFlow
  import opened ReadBack
  import opened Generators

  /** Compiling and generating: the rules encode `p` itself. */
  method Translate(p: Prog, g: Generator) returns (blocks: seq<Block>, ru: seq<Rule>)
    requires WellFormed(p) && ReadsBack(p)
    requires g.Valid() && Synced(g.variables.ssa, g.variables.phis) && !g.parallelRunStart && g.returnVoid.levels == 0
    requires Encodable(p, g.variables.ssa) && Emittable(p, g.show) && Stacked(p) <= g.variables.phis.Keys
    modifies g`forks, g`parallelRunStart, g.variables, g.inPhiState, g.returnVoid
    ensures Function(blocks, p) && Produces(p, old(g.variables.ssa), g.show, ru)
    ensures g.variables.ssa == Next(p, old(g.variables.ssa)) && Synced(g.variables.ssa, g.variables.phis)
    ensures g.returnVoid.levels == 0 && g.inPhiState.levels == old(g.inPhiState.levels)
  {
    blocks := CompileFunction(p);
    ReadsBackExactly(blocks, p);
    ReadWhole(blocks, p);
    ru := g.ParseFunction(blocks);
  }

  // Functions one after the other.

  function Concat(ps: seq<Prog>): Prog {
    if ps == [] then Done else Append(ps[0], Concat(ps[1..]))
  }

  /** Compiling functions and generating them one after the other: the rules encode all of
      them, in order. */
  method TranslateAll(ps: seq<Prog>, g: Generator) returns (fns: seq<seq<Block>>, ru: seq<Rule>)
    requires forall i :: 0 <= i < |ps| ==> WellFormed(ps[i]) && ReadsBack(ps[i])
    requires g.Valid() && Synced(g.variables.ssa, g.variables.phis) && !g.parallelRunStart && g.returnVoid.levels == 0
    requires Encodable(Concat(ps), g.variables.ssa) && Emittable(Concat(ps), g.show)
    requires Stacked(Concat(ps)) <= g.variables.phis.Keys
    modifies g`forks, g`parallelRunStart, g.variables, g.inPhiState, g.returnVoid
    ensures |fns| == |ps| && forall i :: 0 <= i < |ps| ==> Function(fns[i], ps[i])
    ensures Produces(Concat(ps), old(g.variables.ssa), g.show, ru)
    ensures g.variables.ssa == Next(Concat(ps), old(g.variables.ssa)) && Synced(g.variables.ssa, g.variables.phis)
    ensures g.returnVoid.levels == 0 && g.inPhiState.levels == old(g.inPhiState.levels)
  {
    fns := CompileAll(ps);
    ReadInOrder(fns, ps);
    ru := g.ParseFunctions(fns);
  }

  method CompileAll(ps: seq<Prog>) returns (fns: seq<seq<Block>>)
    requires forall i :: 0 <= i < |ps| ==> WellFormed(ps[i])
    ensures |fns| == |ps| && forall i :: 0 <= i < |ps| ==> Function(fns[i], ps[i])
  {
    fns := [];
    var i := 0;
    while i < |ps|
      invariant 0 <= i == |fns| <= |ps| && forall k :: 0 <= k < i ==> Function(fns[k], ps[k])
    {
      hide Function, WellFormed;
      var blocks := CompileFunction(ps[i]);
      fns := fns + [blocks];
      i := i + 1;
    }
  }

  lemma {:induction false} ReadInOrder(fns: seq<seq<Block>>, ps: seq<Prog>)
    requires |fns| == |ps|
    requires forall i :: 0 <= i < |ps| ==> WellFormed(ps[i]) && ReadsBack(ps[i]) && Function(fns[i], ps[i])
    ensures Returning(fns) && ReadAll(fns) == Concat(ps)
  {
    hide Function, WellFormed, ReadsBack, ReturnsFrom, ReadFrom, Traversable;
    forall i | 0 <= i < |fns| ensures Traversable(fns[i]) && ReturnsFrom(fns[i], 0) == 1 {
      ReadWhole(fns[i], ps[i]);
    }
    if ps != [] {
      ReadWhole(fns[0], ps[0]);
      ReadsBackExactly(fns[0], ps[0]);
      ReadInOrder(fns[1..], ps[1..]);
    }
  }

  function RunEach(ps: seq<Prog>, s: Store, div0: real -> real): Store {
    if ps == [] then s else RunEach(ps[1..], Run(ps[0], s, div0), div0)
  }

  lemma {:induction false} RunAppend(p: Prog, q: Prog, s: Store, div0: real -> real)
    ensures Run(Append(p, q), s, div0) == Run(q, Run(p, s, div0), div0)
  {
    match p
    case Done =>
    case Assign(x, e, next) => RunAppend(next, q, s[x := Eval(e, Lookup(s), div0)], div0);
    case If(c, t, _, f, next) =>
      RunAppend(next, q, if Holds(c, Lookup(s), div0) then Run(t, s, div0) else Run(f, s, div0), div0);
  }

  /** What they encode is running the functions one after the other. */
  lemma {:induction false} RunsInOrder(ps: seq<Prog>, s: Store, div0: real -> real)
    ensures Run(Concat(ps), s, div0) == RunEach(ps, s, div0)
  {
    if ps != [] {
      RunAppend(ps[0], Concat(ps[1..]), s, div0);
      RunsInOrder(ps[1..], Run(ps[0], s, div0), div0);
    }
  }

  /** The rules have a model whatever the initial store, and the newest version of a variable
      holds its value in the store with which the compiled blocks return exactly when that is
      what the rules mean. Where arms keep apart it is, so models are runs. */
  lemma ModelsAreRuns(blocks: seq<Block>, p: Prog, ssa: Counters, show: real -> string, ru: seq<Rule>, m0: Model,
                      s: Store, div0: real -> real)
    returns (n: nat, end: State)
    requires Function(blocks, p) && Produces(p, ssa, show, ru) && Encodable(p, ssa)
    requires Tracks(m0, ssa, s, ssa.Keys)
    ensures Reaches(blocks, State(0, 0, s), end, n, div0)
    ensures end.b < |blocks| && end.i == |blocks[end.b].insts| && blocks[end.b].term == Some(Ret)
    ensures exists m :: AgreeOn(ssa, m0, m) && Sat(ru, m, div0)
    ensures forall m, x :: AgreeOn(ssa, m0, m) && Sat(ru, m, div0) && x in ssa ==>
              (m(Ver(x, Count(Next(p, ssa), x))) == Lookup(end.s)(x) <==>
               Lookup(Meant(p, s, div0))(x) == Lookup(end.s)(x))
    ensures Separate(p) ==> forall m :: AgreeOn(ssa, m0, m) && Sat(ru, m, div0) ==>
              Tracks(m, Next(p, ssa), end.s, Next(p, ssa).Keys)
  {
    hide *;
    n, end := RunsToReturn(blocks, p, s, div0);
    ConditionalExactWhen(p, ssa, show, ru, m0, s, div0);
    if Separate(p) {
      ConditionalExact(p, ssa, show, ru, m0, s, div0);
    }
  }

  /** So where arms keep apart every model of their rules holds the store that running the
      functions one after the other leaves. */
  lemma FunctionsAreRuns(ps: seq<Prog>, ssa: Counters, show: real -> string, ru: seq<Rule>, m0: Model, s: Store,
                         div0: real -> real)
    requires Produces(Concat(ps), ssa, show, ru) && Encodable(Concat(ps), ssa) && Separate(Concat(ps))
    requires Tracks(m0, ssa, s, ssa.Keys)
    ensures exists m :: AgreeOn(ssa, m0, m) && Sat(ru, m, div0)
    ensures forall m :: AgreeOn(ssa, m0, m) && Sat(ru, m, div0) ==>
              Tracks(m, Next(Concat(ps), ssa), RunEach(ps, s, div0), Next(Concat(ps), ssa).Keys)
  {
    hide *;
    ConditionalExact(Concat(ps), ssa, show, ru, m0, s, div0);
    RunsInOrder(ps, s, div0);
  }
}
