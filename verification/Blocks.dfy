/** Basic blocks as the compiler leaves them, and the program the generator sees when it
    walks them. Loads, arithmetic and comparisons feeding a store or a branch are folded
    into the expression they compute. */
module Blocks {
  import opened Lang

  /** What the name of a block ends in; the generator dispatches on it. */
  datatype Kind = Entry | After | True | False

  datatype Inst = Store(x: string, e: Expr<string>)

  datatype Term = Ret | Br(to: nat) | CondBr(c: Cond<string>, t: nat, f: nat)

  datatype Block = Block(kind: Kind, insts: seq<Inst>, term: Option<Term>)

  /** Conditional branches lead to later blocks of the kinds the generator expects (it
      panics on others); a missing else arm branches straight to the after block. */
  predicate Traversable(blocks: seq<Block>) {
    forall b :: 0 <= b < |blocks| ==> Branches(blocks, b)
  }

  predicate Branches(blocks: seq<Block>, b: nat)
    requires b < |blocks|
  {
    blocks[b].term.Some? && blocks[b].term.value.CondBr? ==>
      var (t, f) := (blocks[b].term.value.t, blocks[b].term.value.f);
      && b < t < |blocks| && b < f < |blocks|
      && blocks[t].kind == True && blocks[f].kind in {False, After}
  }

  function Stores(insts: seq<Inst>, tail: Prog): Prog {
    if insts == [] then tail else Assign(insts[0].x, insts[0].e, Stores(insts[1..], tail))
  }

  predicate IsCond(b: Block) {
    b.term.Some? && b.term.value.CondBr?
  }

  /** The program seen from block `b` on (parseBlock, parseTermCon, parseTerms). With an
      else arm the after block is not among the successors, so nothing after the
      conditional is seen. */
  function Read(blocks: seq<Block>, b: nat): Prog
    requires Traversable(blocks) && b < |blocks|
    decreases |blocks| - b, 1
  {
    Stores(blocks[b].insts, ReadTerm(blocks, b))
  }

  function ReadTerm(blocks: seq<Block>, b: nat): Prog
    requires Traversable(blocks) && b < |blocks|
    decreases |blocks| - b, 0
  {
    if !IsCond(blocks[b]) then Done
    else
      assert Branches(blocks, b);
      var CondBr(c, t, f) := blocks[b].term.value;
      if blocks[f].kind == After then If(c, Read(blocks, t), false, Done, Read(blocks, f))
      else If(c, Read(blocks, t), true, Read(blocks, f), Done)
  }

  /** How many returns the walk from `b` meets. */
  function Returns(blocks: seq<Block>, b: nat): nat
    requires Traversable(blocks) && b < |blocks|
    decreases |blocks| - b
  {
    if IsCond(blocks[b]) then
      assert Branches(blocks, b);
      Returns(blocks, blocks[b].term.value.t) + Returns(blocks, blocks[b].term.value.f)
    else if blocks[b].term == Some(Ret) then 1
    else 0
  }

  /** The program seen for a whole function (parseFunction): blocks are walked in the
      order they were created until a return has been met. */
  function ReadFrom(blocks: seq<Block>, b: nat): Prog
    requires Traversable(blocks) && b <= |blocks|
    decreases |blocks| - b
  {
    if b == |blocks| then Done
    else Append(Read(blocks, b), if Returns(blocks, b) > 0 then Done else ReadFrom(blocks, b + 1))
  }

  /** How many returns that walk meets: those of the block it stops at. */
  function ReturnsFrom(blocks: seq<Block>, b: nat): nat
    requires Traversable(blocks) && b <= |blocks|
    decreases |blocks| - b
  {
    if b == |blocks| then 0
    else if Returns(blocks, b) > 0 then Returns(blocks, b)
    else ReturnsFrom(blocks, b + 1)
  }
}
