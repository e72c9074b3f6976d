/** The control-flow builder (`compileIf`, `compileBlock`): mutable basic blocks whose
    terminators may be overwritten, and a stack of after blocks. */
module Compilers {
  import opened Lang
  import opened Blocks

  // The layout of the blocks a program creates.

  /** How many blocks compiling `p` creates. */
  function Created(p: Prog): nat {
    match p
    case Done => 0
    case Assign(_, _, next) => Created(next)
    case If(_, t, hasElse, f, next) => Own(hasElse) + Created(t) + Created(f) + Created(next)
  }

  /** The blocks of a conditional itself: after, true and perhaps false. */
  function Own(hasElse: bool): nat {
    if hasElse then 3 else 2
  }

  /** The block compilation ends in when it starts in `b` and the first new block is `lo`. */
  function End(p: Prog, b: nat, lo: nat): nat {
    match p
    case Done => b
    case Assign(_, _, next) => End(next, b, lo)
    case If(_, t, hasElse, f, next) => End(next, lo, lo + Own(hasElse) + Created(t) + Created(f))
  }

  /** The number of instructions in the block compilation ends in. */
  function EndPos(p: Prog, i: nat): nat {
    match p
    case Done => i
    case Assign(_, _, next) => EndPos(next, i + 1)
    case If(_, _, _, _, next) => EndPos(next, 0)
  }

  predicate Branching(p: Prog) {
    match p
    case Done => false
    case Assign(_, _, next) => Branching(next)
    case If(_, _, _, _, _) => true
  }

  /** Block `b` ends at instruction `i` with the terminator `term`. */
  predicate EndsWith(blocks: seq<Block>, b: nat, i: nat, term: Term) {
    b < |blocks| && |blocks[b].insts| == i && blocks[b].term == Some(term)
  }

  /** The blocks realize `p` from instruction `i` of block `b` on, its new blocks being
      those from `lo` on. Where `p` ends, instructions may follow and any terminator may
      stand: later statements are still to come. */
  predicate Shape(blocks: seq<Block>, b: nat, i: nat, p: Prog, lo: nat)
    requires b < |blocks| && lo + Created(p) <= |blocks|
    decreases p, 1
  {
    match p
    case Done => i <= |blocks[b].insts|
    case Assign(x, e, next) =>
      i < |blocks[b].insts| && blocks[b].insts[i] == Store(x, e) && Shape(blocks, b, i + 1, next, lo)
    case If(_, t, hasElse, f, next) =>
      ForkShape(blocks, b, i, p, lo) && Shape(blocks, lo, 0, next, lo + Own(hasElse) + Created(t) + Created(f))
  }

  /** The branch into a conditional, and its arms. */
  predicate ForkShape(blocks: seq<Block>, b: nat, i: nat, p: Prog, lo: nat)
    requires p.If? && b < |blocks| && lo + Own(p.hasElse) + Created(p.thenArm) + Created(p.elseArm) <= |blocks|
    decreases p, 0
  {
    var If(c, t, hasElse, f, _) := p;
    var loT := lo + Own(hasElse);
    && EndsWith(blocks, b, i, CondBr(c, lo + 1, if hasElse then lo + 2 else lo))
    && blocks[lo].kind == After
    && ArmShape(blocks, True, lo + 1, t, loT, lo)
    && (hasElse ==> ArmShape(blocks, False, lo + 2, f, loT + Created(t), lo))
  }

  /** An arm has its own block and jumps to the after block where it ends. */
  predicate ArmShape(blocks: seq<Block>, kind: Kind, b: nat, p: Prog, lo: nat, after: nat)
    requires b < |blocks| && lo + Created(p) <= |blocks|
    decreases p, 2
  {
    && blocks[b].kind == kind
    && Shape(blocks, b, 0, p, lo)
    && EndsWith(blocks, End(p, b, lo), EndPos(p, 0), Br(after))
  }

  lemma {:induction false} EndRange(p: Prog, b: nat, lo: nat)
    ensures if Branching(p) then lo <= End(p, b, lo) < lo + Created(p) else End(p, b, lo) == b && Created(p) == 0
  {
    match p
    case Done =>
    case Assign(_, _, next) => EndRange(next, b, lo);
    case If(_, t, hasElse, f, next) => EndRange(next, lo, lo + Own(hasElse) + Created(t) + Created(f));
  }

  lemma {:induction false} EndPosGrows(p: Prog, i: nat)
    ensures !Branching(p) ==> EndPos(p, i) >= i
  {
    match p
    case Done =>
    case Assign(_, _, next) => EndPosGrows(next, i + 1);
    case If(_, _, _, _, _) =>
  }

  /** The same blocks at `b` and from `lo` to `hi`. */
  predicate Same(blocks: seq<Block>, blocks': seq<Block>, b: nat, lo: nat, hi: nat) {
    && hi <= |blocks| && hi <= |blocks'| && b < |blocks| && b < |blocks'|
    && blocks'[b] == blocks[b]
    && forall k :: lo <= k < hi ==> blocks'[k] == blocks[k]
  }

  lemma {:induction false} ShapeSame(blocks: seq<Block>, blocks': seq<Block>, b: nat, i: nat, p: Prog, lo: nat)
    requires Same(blocks, blocks', b, lo, lo + Created(p)) && Shape(blocks, b, i, p, lo)
    ensures Shape(blocks', b, i, p, lo)
    decreases p, 1
  {
    hide ForkShape;
    match p
    case Done =>
    case Assign(x, e, next) => ShapeSame(blocks, blocks', b, i + 1, next, lo);
    case If(_, t, hasElse, f, next) =>
      var loN := lo + Own(hasElse) + Created(t) + Created(f);
      ForkAfter(blocks, b, i, p, lo);
      ForkSame(blocks, blocks', b, i, p, lo);
      ShapeSame(blocks, blocks', lo, 0, next, loN);
  }

  lemma {:induction false} ForkSame(blocks: seq<Block>, blocks': seq<Block>, b: nat, i: nat, p: Prog, lo: nat)
    requires p.If? && Same(blocks, blocks', b, lo + 1, lo + Own(p.hasElse) + Created(p.thenArm) + Created(p.elseArm))
    requires ForkShape(blocks, b, i, p, lo) && blocks'[lo].kind == After
    ensures ForkShape(blocks', b, i, p, lo)
    decreases p, 0
  {
    hide ArmShape;
    var If(_, t, hasElse, f, _) := p;
    var loT := lo + Own(hasElse);
    ArmSame(blocks, blocks', True, lo + 1, t, loT, lo);
    if hasElse {
      ArmSame(blocks, blocks', False, lo + 2, f, loT + Created(t), lo);
    }
  }

  lemma {:induction false} ArmSame(blocks: seq<Block>, blocks': seq<Block>, kind: Kind, b: nat, p: Prog, lo: nat,
                                   after: nat)
    requires Same(blocks, blocks', b, lo, lo + Created(p)) && ArmShape(blocks, kind, b, p, lo, after)
    ensures ArmShape(blocks', kind, b, p, lo, after)
    decreases p, 2
  {
    hide Shape;
    EndRange(p, b, lo);
    ShapeSame(blocks, blocks', b, 0, p, lo);
  }

  /** Older blocks are left alone, but for the terminator of `b` and new instructions
      at its end. */
  predicate OthersKept(blocks: seq<Block>, blocks': seq<Block>, b: nat) {
    && |blocks| <= |blocks'| && b < |blocks|
    && blocks'[b].kind == blocks[b].kind && blocks[b].insts <= blocks'[b].insts
    && forall k :: 0 <= k < |blocks| && k != b ==> blocks'[k] == blocks[k]
  }

  lemma KeptSame(blocks: seq<Block>, blocks': seq<Block>, e: nat, b: nat, lo: nat, hi: nat)
    requires OthersKept(blocks, blocks', e) && b != e && !(lo <= e < hi) && b < |blocks| && hi <= |blocks|
    ensures Same(blocks, blocks', b, lo, hi)
  {
  }

  lemma KeptInsts(blocks: seq<Block>, blocks': seq<Block>, e: nat, b: nat)
    requires OthersKept(blocks, blocks', e) && b < |blocks|
    ensures |blocks| <= |blocks'| && |blocks[b].insts| <= |blocks'[b].insts|
    ensures forall i :: 0 <= i < |blocks[b].insts| ==> blocks'[b].insts[i] == blocks[b].insts[i]
    ensures b != e ==> blocks'[b] == blocks[b]
    ensures blocks'[b].kind == blocks[b].kind
  {
    if b == e {
      assert blocks[b].insts <= blocks'[b].insts;
    }
  }

  /** What `p` was compiled to survives work on the block it ends in. */
  lemma {:induction false} ShapeKept(blocks: seq<Block>, blocks': seq<Block>, b: nat, i: nat, p: Prog, lo: nat)
    requires b < lo && lo + Created(p) <= |blocks| && Shape(blocks, b, i, p, lo)
    requires OthersKept(blocks, blocks', End(p, b, lo))
    ensures |blocks| <= |blocks'| && Shape(blocks', b, i, p, lo)
    decreases p
  {
    hide ForkShape, OthersKept, Same;
    var e := End(p, b, lo);
    EndRange(p, b, lo);
    KeptInsts(blocks, blocks', e, b);
    match p
    case Done =>
    case Assign(x, _, next) => ShapeKept(blocks, blocks', b, i + 1, next, lo);
    case If(_, t, hasElse, f, next) =>
      var loN := lo + Own(hasElse) + Created(t) + Created(f);
      EndRange(next, lo, loN);
      KeptInsts(blocks, blocks', e, lo);
      KeptSame(blocks, blocks', e, b, lo + 1, loN);
      ForkAfter(blocks, b, i, p, lo);
      ForkSame(blocks, blocks', b, i, p, lo);
      ShapeKept(blocks, blocks', lo, 0, next, loN);
  }

  lemma ForkAfter(blocks: seq<Block>, b: nat, i: nat, p: Prog, lo: nat)
    requires p.If? && b < |blocks| && lo + Own(p.hasElse) + Created(p.thenArm) + Created(p.elseArm) <= |blocks|
    requires ForkShape(blocks, b, i, p, lo)
    ensures blocks[lo].kind == After
  {
  }

  lemma ForkNext(blocks: seq<Block>, b: nat, i: nat, p: Prog, next: Prog, lo: nat)
    requires p.If? && b < |blocks| && lo + Own(p.hasElse) + Created(p.thenArm) + Created(p.elseArm) <= |blocks|
    requires ForkShape(blocks, b, i, p, lo)
    ensures ForkShape(blocks, b, i, If(p.c, p.thenArm, p.hasElse, p.elseArm, next), lo)
  {
    hide ArmShape;
  }

  /** Where `p` ends, `q` may follow. */
  lemma {:induction false} ShapeAppend(blocks: seq<Block>, b: nat, i: nat, p: Prog, q: Prog, lo: nat)
    requires b < |blocks| && b < lo && lo + Created(p) + Created(q) <= |blocks|
    requires Shape(blocks, b, i, p, lo)
    requires End(p, b, lo) < |blocks| && Shape(blocks, End(p, b, lo), EndPos(p, i), q, lo + Created(p))
    ensures Created(Append(p, q)) == Created(p) + Created(q)
    ensures Shape(blocks, b, i, Append(p, q), lo)
    decreases p
  {
    hide ForkShape;
    CreatedAppend(p, q);
    match p
    case Done =>
    case Assign(_, _, next) => ShapeAppend(blocks, b, i + 1, next, q, lo);
    case If(_, t, hasElse, f, next) =>
      ForkNext(blocks, b, i, p, Append(next, q), lo);
      ShapeAppend(blocks, lo, 0, next, q, lo + Own(hasElse) + Created(t) + Created(f));
  }

  lemma {:induction false} CreatedAppend(p: Prog, q: Prog)
    ensures Created(Append(p, q)) == Created(p) + Created(q)
    ensures Branching(Append(p, q)) == (Branching(p) || Branching(q))
  {
    match p
    case Done =>
    case Assign(_, _, next) => CreatedAppend(next, q);
    case If(_, _, _, _, next) => CreatedAppend(next, q);
  }

  lemma {:induction false} EndAppend(p: Prog, q: Prog, b: nat, i: nat, lo: nat)
    ensures End(Append(p, q), b, lo) == End(q, End(p, b, lo), lo + Created(p))
    ensures EndPos(Append(p, q), i) == EndPos(q, EndPos(p, i))
  {
    match p
    case Done =>
    case Assign(_, _, next) => EndAppend(next, q, b, i + 1, lo);
    case If(_, t, hasElse, f, next) => EndAppend(next, q, lo, 0, lo + Own(hasElse) + Created(t) + Created(f));
  }

  /** The first statement alone. */
  function Head(p: Prog): Prog
    requires !p.Done?
  {
    p.(next := Done)
  }

  lemma HeadEnds(p: Prog, b: nat, i: nat, lo: nat)
    requires p.If?
    ensures End(Head(p), b, lo) == lo && EndPos(Head(p), i) == 0
  {
    var next := lo + Own(p.hasElse) + Created(p.thenArm) + Created(p.elseArm);
    assert End(Done, lo, next) == lo && EndPos(Done, 0) == 0;
  }

  /** A program with a conditional leaves its first block by a conditional branch. */
  lemma {:induction false} BranchingTerm(blocks: seq<Block>, b: nat, i: nat, p: Prog, lo: nat)
    requires b < |blocks| && lo + Created(p) <= |blocks| && Shape(blocks, b, i, p, lo) && Branching(p)
    ensures blocks[b].term.Some?
    decreases p
  {
    if p.Assign? {
      BranchingTerm(blocks, b, i + 1, p.next, lo);
    }
  }

  lemma ShapeFork(blocks: seq<Block>, b: nat, i: nat, p: Prog, lo: nat)
    requires p.If? && b < |blocks| && lo + Created(Head(p)) <= |blocks|
    requires EndsWith(blocks, b, i, CondBr(p.c, lo + 1, if p.hasElse then lo + 2 else lo))
    requires blocks[lo].kind == After
    requires ArmShape(blocks, True, lo + 1, p.thenArm, lo + Own(p.hasElse), lo)
    requires p.hasElse ==> ArmShape(blocks, False, lo + 2, p.elseArm, lo + Own(p.hasElse) + Created(p.thenArm), lo)
    ensures Shape(blocks, b, i, Head(p), lo)
  {
    hide ArmShape;
  }

  /** What compiling `p` from the end of block `b` does: only `b` and new blocks change,
      they realize `p`, and the block `e` it ends in goes `onward` if there was a
      conditional and keeps the terminator of `b` otherwise. */
  predicate Compiled(before: seq<Block>, after: seq<Block>, b: nat, i: nat, p: Prog, onward: Term, e: nat) {
    && OthersKept(before, after, b) && |before[b].insts| == i
    && |after| == |before| + Created(p)
    && e == End(p, b, |before|) && e < |after|
    && Shape(after, b, i, p, |before|)
    && |after[e].insts| == EndPos(p, i)
    && after[e].term == if Branching(p) then Some(onward) else before[b].term
  }

  lemma CompiledNothing(blocks: seq<Block>, b: nat, onward: Term)
    requires b < |blocks|
    ensures Compiled(blocks, blocks, b, |blocks[b].insts|, Done, onward, b)
  {
  }

  lemma CompiledAppend(before: seq<Block>, mid: seq<Block>, after: seq<Block>, b: nat, i: nat, p: Prog, e: nat,
                       q: Prog, onward: Term, e': nat)
    requires Compiled(before, mid, b, i, p, onward, e)
    requires Compiled(mid, after, e, |mid[e].insts|, q, onward, e')
    ensures Compiled(before, after, b, i, Append(p, q), onward, e')
  {
    hide Shape;
    EndRange(p, b, |before|);
    ShapeKept(mid, after, b, i, p, |before|);
    ShapeAppend(after, b, i, p, q, |before|);
    CreatedAppend(p, q);
    EndAppend(p, q, b, i, |before|);
  }

  class Compiler {
    var blocks: seq<Block>
    var contextBlock: nat
    var contextCondAfter: seq<nat>

    /** The run block (`setup`). */
    constructor ()
      ensures blocks == [Block(Entry, [], Some(Ret))] && contextBlock == 0 && contextCondAfter == []
    {
      blocks := [Block(Entry, [], Some(Ret))];
      contextBlock := 0;
      contextCondAfter := [];
    }

    predicate Valid()
      reads this
    {
      contextBlock < |blocks|
    }

    /** Where a finished conditional jumps: to the enclosing after block, or it returns. */
    function Onward(): Term
      reads this
    {
      if contextCondAfter == [] then Ret else Br(contextCondAfter[|contextCondAfter| - 1])
    }

    method NewBlock(kind: Kind) returns (b: nat)
      modifies this`blocks
      ensures b == |old(blocks)| && blocks == old(blocks) + [Block(kind, [], None)]
    {
      b := |blocks|;
      blocks := blocks + [Block(kind, [], None)];
    }

    method NewStore(x: string, e: Expr<string>)
      requires Valid()
      modifies this`blocks
      ensures blocks == old(blocks)[contextBlock :=
        old(blocks)[contextBlock].(insts := old(blocks)[contextBlock].insts + [Store(x, e)])]
      ensures Compiled(old(blocks), blocks, contextBlock, |old(blocks)[contextBlock].insts|, Assign(x, e, Done),
        Onward(), contextBlock)
    {
      blocks := blocks[contextBlock := blocks[contextBlock].(insts := blocks[contextBlock].insts + [Store(x, e)])];
    }

    method SetTerm(b: nat, term: Term)
      requires b < |blocks|
      modifies this`blocks
      ensures blocks == old(blocks)[b := old(blocks)[b].(term := Some(term))]
    {
      blocks := blocks[b := blocks[b].(term := Some(term))];
    }

    method CompileBlock(p: Prog)
      requires Valid() && WellFormed(p)
      modifies this
      ensures contextCondAfter == old(contextCondAfter)
      ensures Compiled(old(blocks), blocks, old(contextBlock), |old(blocks)[old(contextBlock)].insts|, p,
        Onward(), contextBlock)
      decreases p, 1
    {
      hide Compiled;
      ghost var before, b, i, done := blocks, contextBlock, |blocks[contextBlock].insts|, Done;
      CompiledNothing(blocks, b, Onward());
      var rest := p;
      while !rest.Done?
        invariant Valid() && WellFormed(rest) && Append(done, rest) == p
        invariant rest < p || rest == p
        invariant contextCondAfter == old(contextCondAfter)
        invariant Compiled(before, blocks, b, i, done, Onward(), contextBlock)
        decreases rest
      {
        ghost var mid, m := blocks, contextBlock;
        if rest.Assign? {
          NewStore(rest.x, rest.e);
        } else {
          CompileIf(rest);
        }
        CompiledAppend(before, mid, blocks, b, i, done, m, Head(rest), Onward(), contextBlock);
        AppendAssoc(done, Head(rest), rest.next);
        done := Append(done, Head(rest));
        rest := rest.next;
      }
      AppendDone(done);
    }

    /** One arm: compiled from its own block, it jumps to the after block unless something
        in it has set a terminator already. */
    method CompileArm(b: nat, p: Prog, after: nat)
      requires b < |blocks| && blocks[b].insts == [] && blocks[b].term.None?
      requires contextCondAfter != [] && contextCondAfter[|contextCondAfter| - 1] == after && WellFormed(p)
      modifies this
      ensures contextCondAfter == old(contextCondAfter)
      ensures |blocks| == |old(blocks)| + Created(p)
      ensures OthersKept(old(blocks), blocks, b)
      ensures ArmShape(blocks, old(blocks)[b].kind, b, p, |old(blocks)|, after)
      decreases p, 2
    {
      contextBlock := b;
      CompileBlock(p);
      ghost var blocks0, lo := blocks, |old(blocks)|;
      EndRange(p, b, lo);
      if Branching(p) {
        BranchingTerm(blocks, b, 0, p, lo);
      }
      if blocks[b].term.None? {
        SetTerm(b, Br(after));
        ShapeKept(blocks0, blocks, b, 0, p, lo);
      }
    }

    /** The blocks of the conditional, its after block on the stack, and the branch into it. */
    method EnterIf(n: Prog) returns (after: nat, trueBlock: nat, falseBlock: nat)
      requires Valid() && n.If?
      modifies this`blocks, this`contextCondAfter
      ensures after == |old(blocks)| && trueBlock == after + 1
      ensures falseBlock == if n.hasElse then after + 2 else after
      ensures contextCondAfter == old(contextCondAfter) + [after]
      ensures |blocks| == after + Own(n.hasElse) && OthersKept(old(blocks), blocks, contextBlock)
      ensures EndsWith(blocks, contextBlock, |old(blocks)[contextBlock].insts|, CondBr(n.c, trueBlock, falseBlock))
      ensures blocks[after] == Block(After, [], None) && blocks[trueBlock] == Block(True, [], None)
      ensures n.hasElse ==> blocks[falseBlock] == Block(False, [], None)
    {
      after := NewBlock(After);
      trueBlock := NewBlock(True);
      falseBlock := after;
      contextCondAfter := contextCondAfter + [after];
      if n.hasElse {
        falseBlock := NewBlock(False);
      }
      SetTerm(contextBlock, CondBr(n.c, trueBlock, falseBlock));
    }

    /** On to the after block, which jumps to the enclosing one or returns. */
    method LeaveIf(after: nat)
      requires after < |blocks| && contextCondAfter != []
      modifies this
      ensures contextBlock == after && contextCondAfter == old(contextCondAfter)[..|old(contextCondAfter)| - 1]
      ensures blocks == old(blocks)[after := old(blocks)[after].(term := Some(Onward()))]
    {
      contextBlock := after;
      contextCondAfter := contextCondAfter[..|contextCondAfter| - 1];
      if |contextCondAfter| > 0 {
        SetTerm(after, Br(contextCondAfter[|contextCondAfter| - 1]));
      } else {
        SetTerm(after, Ret);
      }
    }

    method CompileIf(n: Prog)
      requires Valid() && WellFormed(n) && n.If?
      modifies this
      ensures Valid() && contextCondAfter == old(contextCondAfter)
      ensures Compiled(old(blocks), blocks, old(contextBlock), |old(blocks)[old(contextBlock)].insts|, Head(n),
        Onward(), contextBlock)
      decreases n, 0
    {
      hide Shape, ForkShape, ArmShape;
      ghost var b, i := contextBlock, |blocks[contextBlock].insts|;
      var after, trueBlock, falseBlock := EnterIf(n);
      ghost var loT := |blocks|;
      CompileArm(trueBlock, n.thenArm, after);
      ghost var loF, blocks0 := |blocks|, blocks;
      if n.hasElse {
        CompileArm(falseBlock, n.elseArm, after);
        ArmSame(blocks0, blocks, True, trueBlock, n.thenArm, loT, after);
      }
      ghost var blocks1 := blocks;
      LeaveIf(after);
      ArmSame(blocks1, blocks, True, trueBlock, n.thenArm, loT, after);
      if n.hasElse {
        ArmSame(blocks1, blocks, False, falseBlock, n.elseArm, loF, after);
      }
      ShapeFork(blocks, b, i, n, after);
      HeadEnds(n, b, i, after);
    }
  }
}
