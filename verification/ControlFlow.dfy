/** Running the compiled blocks: they do what the structured program does, they never get
    stuck, and no run can visit a block twice. */
module ControlFlow {
  import opened Lang
  import opened Blocks
  import opened Compilers

  datatype State = State(b: nat, i: nat, s: Store)

  /** One instruction or jump; none after a return, or where a terminator is missing. */
  function Step(blocks: seq<Block>, st: State, div0: real -> real): Option<State> {
    if st.b >= |blocks| then None
    else if st.i < |blocks[st.b].insts| then
      var Store(x, e) := blocks[st.b].insts[st.i];
      Some(State(st.b, st.i + 1, st.s[x := Eval(e, Lookup(st.s), div0)]))
    else
      match blocks[st.b].term
      case Some(Br(to)) => Some(State(to, 0, st.s))
      case Some(CondBr(c, t, f)) => Some(State(if Holds(c, Lookup(st.s), div0) then t else f, 0, st.s))
      case _ => None
  }

  predicate Reaches(blocks: seq<Block>, st: State, st': State, n: nat, div0: real -> real)
    decreases n
  {
    if n == 0 then st == st'
    else Step(blocks, st, div0).Some? && Reaches(blocks, Step(blocks, st, div0).value, st', n - 1, div0)
  }

  lemma {:induction false} ReachesTrans(blocks: seq<Block>, st: State, mid: State, st': State, n: nat, m: nat,
                                        div0: real -> real)
    requires Reaches(blocks, st, mid, n, div0) && Reaches(blocks, mid, st', m, div0)
    ensures Reaches(blocks, st, st', n + m, div0)
    decreases n
  {
    if n > 0 {
      ReachesTrans(blocks, Step(blocks, st, div0).value, mid, st', n - 1, m, div0);
    }
  }

  /** Blocks realizing `p` run it: from where it begins to where it ends. */
  lemma {:induction false} RegionRuns(blocks: seq<Block>, b: nat, i: nat, p: Prog, lo: nat, s: Store,
                                      div0: real -> real) returns (n: nat)
    requires b < |blocks| && lo + Created(p) <= |blocks| && Shape(blocks, b, i, p, lo) && WellFormed(p)
    ensures Reaches(blocks, State(b, i, s), State(End(p, b, lo), EndPos(p, i), Run(p, s, div0)), n, div0)
    decreases p, 1
  {
    hide ForkShape;
    match p
    case Done => n := 0;
    case Assign(x, e, next) =>
      var m := RegionRuns(blocks, b, i + 1, next, lo, s[x := Eval(e, Lookup(s), div0)], div0);
      n := m + 1;
    case If(c, t, hasElse, f, next) =>
      var loN := lo + Own(hasElse) + Created(t) + Created(f);
      var s' := if Holds(c, Lookup(s), div0) then Run(t, s, div0) else Run(f, s, div0);
      var k := ForkRuns(blocks, b, i, p, lo, s, div0);
      var m := RegionRuns(blocks, lo, 0, next, loN, s', div0);
      n := k + m;
      ReachesTrans(blocks, State(b, i, s), State(lo, 0, s'),
                   State(End(p, b, lo), EndPos(p, i), Run(p, s, div0)), k, m, div0);
  }

  lemma {:induction false} ForkRuns(blocks: seq<Block>, b: nat, i: nat, p: Prog, lo: nat, s: Store,
                                    div0: real -> real) returns (n: nat)
    requires p.If? && b < |blocks| && lo + Own(p.hasElse) + Created(p.thenArm) + Created(p.elseArm) <= |blocks|
    requires ForkShape(blocks, b, i, p, lo) && WellFormed(p)
    ensures Reaches(blocks, State(b, i, s),
                    State(lo, 0, Run(if Holds(p.c, Lookup(s), div0) then p.thenArm else p.elseArm, s, div0)), n, div0)
    decreases p, 0
  {
    hide ArmShape;
    var loT := lo + Own(p.hasElse);
    if Holds(p.c, Lookup(s), div0) {
      var m := ArmRuns(blocks, True, lo + 1, p.thenArm, loT, lo, s, div0);
      n := m + 1;
    } else if p.hasElse {
      var m := ArmRuns(blocks, False, lo + 2, p.elseArm, loT + Created(p.thenArm), lo, s, div0);
      n := m + 1;
    } else {
      n := 1;
      assert Reaches(blocks, State(lo, 0, s), State(lo, 0, s), 0, div0);
    }
  }

  lemma {:induction false} ArmRuns(blocks: seq<Block>, kind: Kind, b: nat, p: Prog, lo: nat, after: nat, s: Store,
                                   div0: real -> real) returns (n: nat)
    requires b < |blocks| && lo + Created(p) <= |blocks| && ArmShape(blocks, kind, b, p, lo, after) && WellFormed(p)
    ensures Reaches(blocks, State(b, 0, s), State(after, 0, Run(p, s, div0)), n, div0)
    decreases p, 2
  {
    hide Shape;
    var m := RegionRuns(blocks, b, 0, p, lo, s, div0);
    var end := State(End(p, b, lo), EndPos(p, 0), Run(p, s, div0));
    assert Reaches(blocks, State(after, 0, end.s), State(after, 0, end.s), 0, div0);
    ReachesTrans(blocks, State(b, 0, s), end, State(after, 0, end.s), m, 1, div0);
    n := m + 1;
  }

  /** The blocks of a function: block 0 on, ending in a return. */
  predicate Function(blocks: seq<Block>, p: Prog) {
    && WellFormed(p) && |blocks| == 1 + Created(p)
    && Shape(blocks, 0, 0, p, 1)
    && End(p, 0, 1) < |blocks| && EndsWith(blocks, End(p, 0, 1), EndPos(p, 0), Ret)
  }

  method CompileFunction(p: Prog) returns (blocks: seq<Block>)
    requires WellFormed(p)
    ensures Function(blocks, p)
  {
    var c := new Compiler();
    c.CompileBlock(p);
    blocks := c.blocks;
  }

  /** Whatever the initial store, the blocks return, with the store the program leaves. */
  lemma RunsToReturn(blocks: seq<Block>, p: Prog, s: Store, div0: real -> real) returns (n: nat, end: State)
    requires Function(blocks, p)
    ensures Reaches(blocks, State(0, 0, s), end, n, div0)
    ensures end.s == Run(p, s, div0)
    ensures end.b < |blocks| && end.i == |blocks[end.b].insts| && blocks[end.b].term == Some(Ret)
  {
    n := RegionRuns(blocks, 0, 0, p, 1, s, div0);
    end := State(End(p, 0, 1), EndPos(p, 0), Run(p, s, div0));
  }

  // No cycles, and a terminator everywhere.

  /** How many edges the longest path through the blocks of `p` has. */
  function Depth(p: Prog): nat {
    match p
    case Done => 0
    case Assign(_, _, next) => Depth(next)
    case If(_, t, _, f, next) => 2 + Max(Depth(t), Depth(f)) + Depth(next)
  }

  function Max(a: nat, b: nat): nat {
    if a < b then b else a
  }

  /** Block `k` is `b` or one of the blocks `p` creates from `lo` on. */
  predicate Within(p: Prog, b: nat, lo: nat, k: nat) {
    k == b || lo <= k < lo + Created(p)
  }

  /** A position for each of the blocks of `p`, counted from `r`. */
  function Rank(p: Prog, b: nat, lo: nat, r: nat, k: nat): nat {
    match p
    case Done => r
    case Assign(_, _, next) => Rank(next, b, lo, r, k)
    case If(_, t, hasElse, f, next) =>
      var loT := lo + Own(hasElse);
      var loF := loT + Created(t);
      if k == b then r
      else if Within(t, lo + 1, loT, k) then Rank(t, lo + 1, loT, r + 1, k)
      else if hasElse && Within(f, lo + 2, loF, k) then Rank(f, lo + 2, loF, r + 1, k)
      else Rank(next, lo, loF + Created(f), r + 2 + Max(Depth(t), Depth(f)), k)
  }

  lemma {:induction false} RankRange(p: Prog, b: nat, lo: nat, r: nat, k: nat)
    requires b < lo
    ensures r <= Rank(p, b, lo, r, k) <= r + Depth(p)
    ensures Rank(p, b, lo, r, b) == r
    decreases p
  {
    match p
    case Done =>
    case Assign(_, _, next) => RankRange(next, b, lo, r, k);
    case If(_, t, hasElse, f, next) =>
      var loT := lo + Own(hasElse);
      var loF := loT + Created(t);
      RankRange(t, lo + 1, loT, r + 1, k);
      if hasElse {
        RankRange(f, lo + 2, loF, r + 1, k);
      }
      RankRange(next, lo, loF + Created(f), r + 2 + Max(Depth(t), Depth(f)), k);
  }

  function Targets(term: Term): set<nat> {
    match term
    case Ret => {}
    case Br(to) => {to}
    case CondBr(_, t, f) => {t, f}
  }

  /** Every block of `p` but the one it ends in has a terminator, which leads to blocks
      of `p` further on. */
  predicate Forward(blocks: seq<Block>, p: Prog, b: nat, lo: nat, r: nat, k: nat) {
    && k < |blocks| && blocks[k].term.Some? && Branches(blocks, k)
    && forall k' :: k' in Targets(blocks[k].term.value) ==>
         Within(p, b, lo, k') && Rank(p, b, lo, r, k) < Rank(p, b, lo, r, k')
  }

  lemma {:induction false} Edges(blocks: seq<Block>, b: nat, i: nat, p: Prog, lo: nat, r: nat, k: nat)
    requires b < lo && lo + Created(p) <= |blocks| && Shape(blocks, b, i, p, lo) && WellFormed(p)
    requires Within(p, b, lo, k) && k != End(p, b, lo)
    ensures Forward(blocks, p, b, lo, r, k)
    decreases p, 1
  {
    hide ForkShape;
    match p
    case Done =>
    case Assign(_, _, next) => Edges(blocks, b, i + 1, next, lo, r, k);
    case If(_, t, hasElse, f, next) =>
      var loN := lo + Own(hasElse) + Created(t) + Created(f);
      if Within(next, lo, loN, k) {
        Edges(blocks, lo, 0, next, loN, r + 2 + Max(Depth(t), Depth(f)), k);
      } else {
        ForkEdges(blocks, b, i, p, lo, r, k);
      }
  }

  lemma {:induction false} ForkEdges(blocks: seq<Block>, b: nat, i: nat, p: Prog, lo: nat, r: nat, k: nat)
    requires p.If? && b < lo && lo + Created(p) <= |blocks| && WellFormed(p)
    requires ForkShape(blocks, b, i, p, lo)
    requires k == b || lo < k < lo + Own(p.hasElse) + Created(p.thenArm) + Created(p.elseArm)
    ensures Forward(blocks, p, b, lo, r, k)
    decreases p, 0
  {
    hide Shape, Rank, Forward;
    var If(_, t, hasElse, f, next) := p;
    var loT := lo + Own(hasElse);
    var loF := loT + Created(t);
    if k == b {
      BranchEdges(blocks, b, i, p, lo, r);
    } else if Within(t, lo + 1, loT, k) {
      ArmEdges(blocks, True, lo + 1, t, loT, lo, r + 1, k);
      LiftThen(blocks, b, p, lo, r, k);
    } else {
      assert f == Done ==> Created(f) == 0;
      assert hasElse;
      ArmEdges(blocks, False, lo + 2, f, loF, lo, r + 1, k);
      LiftElse(blocks, b, p, lo, r, k);
    }
  }

  lemma LiftThen(blocks: seq<Block>, b: nat, p: Prog, lo: nat, r: nat, k: nat)
    requires p.If? && b < lo < k < |blocks|
    requires var (t, loT) := (p.thenArm, lo + Own(p.hasElse));
      && Within(t, lo + 1, loT, k) && Rank(t, lo + 1, loT, r + 1, k) <= r + 1 + Depth(t)
      && (blocks[k].term == Some(Br(lo)) || Forward(blocks, t, lo + 1, loT, r + 1, k))
    ensures Forward(blocks, p, b, lo, r, k)
  {
    var If(_, t, hasElse, f, next) := p;
    RankRange(next, lo, lo + Own(hasElse) + Created(t) + Created(f), r + 2 + Max(Depth(t), Depth(f)), lo);
  }

  lemma LiftElse(blocks: seq<Block>, b: nat, p: Prog, lo: nat, r: nat, k: nat)
    requires p.If? && p.hasElse && b < lo < k < |blocks| && !Within(p.thenArm, lo + 1, lo + 3, k)
    requires var (f, loF) := (p.elseArm, lo + 3 + Created(p.thenArm));
      && Within(f, lo + 2, loF, k) && Rank(f, lo + 2, loF, r + 1, k) <= r + 1 + Depth(f)
      && (blocks[k].term == Some(Br(lo)) || Forward(blocks, f, lo + 2, loF, r + 1, k))
    ensures Forward(blocks, p, b, lo, r, k)
  {
    var If(_, t, hasElse, f, next) := p;
    RankRange(next, lo, lo + 3 + Created(t) + Created(f), r + 2 + Max(Depth(t), Depth(f)), lo);
  }

  lemma BranchEdges(blocks: seq<Block>, b: nat, i: nat, p: Prog, lo: nat, r: nat)
    requires p.If? && b < lo && lo + Created(p) <= |blocks| && WellFormed(p)
    requires ForkShape(blocks, b, i, p, lo)
    ensures Forward(blocks, p, b, lo, r, b)
  {
    hide Shape;
    var If(_, t, hasElse, f, next) := p;
    var loT := lo + Own(hasElse);
    var loF := loT + Created(t);
    RankRange(t, lo + 1, loT, r + 1, lo + 1);
    if hasElse {
      RankRange(f, lo + 2, loF, r + 1, lo + 2);
    }
    RankRange(next, lo, loF + Created(f), r + 2 + Max(Depth(t), Depth(f)), lo);
  }

  lemma {:induction false} ArmEdges(blocks: seq<Block>, kind: Kind, b: nat, p: Prog, lo: nat, after: nat, r: nat,
                                    k: nat)
    requires b < lo && lo + Created(p) <= |blocks| && ArmShape(blocks, kind, b, p, lo, after) && WellFormed(p)
    requires Within(p, b, lo, k)
    ensures Rank(p, b, lo, r, k) <= r + Depth(p)
    ensures k == End(p, b, lo) ==> blocks[k].term == Some(Br(after))
    ensures k != End(p, b, lo) ==> Forward(blocks, p, b, lo, r, k)
    decreases p, 2
  {
    RankRange(p, b, lo, r, k);
    if k != End(p, b, lo) {
      Edges(blocks, b, 0, p, lo, r, k);
    }
  }

  /** Every block of a compiled function has a terminator, and ranks grow along each edge:
      there is no cycle. */
  lemma Acyclic(blocks: seq<Block>, p: Prog, k: nat)
    requires Function(blocks, p) && k < |blocks|
    ensures blocks[k].term.Some?
    ensures forall k' :: k' in Targets(blocks[k].term.value) ==>
      k' < |blocks| && Rank(p, 0, 1, 0, k) < Rank(p, 0, 1, 0, k')
    ensures Branches(blocks, k)
  {
    hide Shape;
    if k != End(p, 0, 1) {
      Edges(blocks, 0, 0, p, 1, 0, k);
    }
  }

  /** A run only moves on, in its block or to a block of higher rank. */
  lemma {:induction false} NeverBack(blocks: seq<Block>, p: Prog, st: State, st': State, n: nat, div0: real -> real)
    requires Function(blocks, p) && st.b < |blocks| && Reaches(blocks, st, st', n, div0)
    ensures st'.b < |blocks|
    ensures Rank(p, 0, 1, 0, st.b) < Rank(p, 0, 1, 0, st'.b) || (st'.b == st.b && st'.i == st.i + n)
    decreases n
  {
    hide Shape;
    if n > 0 {
      var mid := Step(blocks, st, div0).value;
      Acyclic(blocks, p, st.b);
      NeverBack(blocks, p, mid, st', n - 1, div0);
    }
  }
}
