/** What the generator sees of the blocks the compiler builds. */
module ReadBack {
  import opened Lang
  import opened Blocks
  import opened Compilers
  import opened ControlFlow

  /** A list of statements as the walk sees it: nothing after an if-else. */
  function Visible(p: Prog): Prog {
    match p
    case Done => Done
    case Assign(x, e, next) => Assign(x, e, Visible(next))
    case If(c, t, hasElse, f, next) =>
      if hasElse then If(c, Visible(t), true, Visible(f), Done)
      else If(c, Visible(t), false, Done, Visible(next))
  }

  /** An if-else is the last statement of its list. */
  predicate Tidy(p: Prog) {
    match p
    case Done => true
    case Assign(_, _, next) => Tidy(next)
    case If(_, t, hasElse, f, next) => (hasElse ==> next == Done) && Tidy(t) && Tidy(f) && Tidy(next)
  }

  /** Exactly the tidy programs are seen whole. */
  lemma {:induction false} VisibleWhole(p: Prog)
    requires WellFormed(p)
    ensures Visible(p) == p <==> Tidy(p)
  {
    match p
    case Done =>
    case Assign(_, _, next) => VisibleWhole(next);
    case If(_, t, _, f, next) =>
      VisibleWhole(t);
      VisibleWhole(f);
      VisibleWhole(next);
  }

  /** No if-else among the statements of the list itself. */
  predicate Straight(p: Prog) {
    match p
    case Done => true
    case Assign(_, _, next) => Straight(next)
    case If(_, _, hasElse, _, next) => !hasElse && Straight(next)
  }

  /** The walk started inside the blocks of `p` sees the rest of `p`, and meets the return
      unless it has lost its way at an if-else. */
  lemma {:induction false} ReadRegion(blocks: seq<Block>, b: nat, i: nat, p: Prog, lo: nat)
    requires Traversable(blocks) && b < lo && lo + Created(p) <= |blocks| && WellFormed(p)
    requires Shape(blocks, b, i, p, lo)
    requires var e := End(p, b, lo); e < |blocks| && |blocks[e].insts| == EndPos(p, i) && !IsCond(blocks[e])
    ensures i <= |blocks[b].insts|
    ensures Stores(blocks[b].insts[i..], ReadTerm(blocks, b)) == Visible(p)
    ensures Returns(blocks, b) == if Straight(p) && blocks[End(p, b, lo)].term == Some(Ret) then 1 else 0
    decreases p, 1
  {
    hide ForkShape;
    match p
    case Done =>
    case Assign(x, e, next) =>
      ReadRegion(blocks, b, i + 1, next, lo);
      assert blocks[b].insts[i..][1..] == blocks[b].insts[i + 1..];
    case If(_, t, hasElse, f, next) =>
      ReadFork(blocks, b, i, p, lo);
      if !hasElse {
        ReadRegion(blocks, lo, 0, next, lo + 2 + Created(t) + Created(f));
        assert blocks[lo].insts[0..] == blocks[lo].insts;
      }
  }

  lemma {:induction false} ReadFork(blocks: seq<Block>, b: nat, i: nat, p: Prog, lo: nat)
    requires Traversable(blocks) && p.If? && b < lo && WellFormed(p)
    requires lo + Own(p.hasElse) + Created(p.thenArm) + Created(p.elseArm) <= |blocks|
    requires ForkShape(blocks, b, i, p, lo)
    ensures i == |blocks[b].insts|
    ensures ReadTerm(blocks, b) ==
            If(p.c, Visible(p.thenArm), p.hasElse, Visible(p.elseArm), if p.hasElse then Done else Read(blocks, lo))
    ensures Returns(blocks, b) == if p.hasElse then 0 else Returns(blocks, lo)
    decreases p, 0
  {
    hide ArmShape;
    var If(_, t, hasElse, f, _) := p;
    var loT := lo + Own(hasElse);
    ReadArm(blocks, True, lo + 1, t, loT, lo);
    if hasElse {
      ReadArm(blocks, False, lo + 2, f, loT + Created(t), lo);
      assert blocks[lo + 2].kind == False by { ArmKind(blocks, False, lo + 2, f, loT + Created(t), lo); }
    }
  }

  lemma ArmKind(blocks: seq<Block>, kind: Kind, b: nat, p: Prog, lo: nat, after: nat)
    requires b < |blocks| && lo + Created(p) <= |blocks| && ArmShape(blocks, kind, b, p, lo, after)
    ensures blocks[b].kind == kind
  {
  }

  lemma {:induction false} ReadArm(blocks: seq<Block>, kind: Kind, b: nat, p: Prog, lo: nat, after: nat)
    requires Traversable(blocks) && b < lo && lo + Created(p) <= |blocks| && WellFormed(p)
    requires ArmShape(blocks, kind, b, p, lo, after)
    ensures Read(blocks, b) == Visible(p) && Returns(blocks, b) == 0
    decreases p, 2
  {
    hide Shape;
    ReadRegion(blocks, b, 0, p, lo);
    assert blocks[b].insts[0..] == blocks[b].insts;
  }

  lemma AllBranches(blocks: seq<Block>, p: Prog)
    requires Function(blocks, p)
    ensures Traversable(blocks)
  {
    hide Function, Branches;
    forall k: nat | k < |blocks| ensures Branches(blocks, k) {
      Acyclic(blocks, p, k);
    }
  }

  /** Everything the walk reads in the blocks an arm creates, one block after the other: of
      each conditional the after block, the arms, what they create, and what follows. */
  function Reread(p: Prog): Prog {
    match p
    case Done => Done
    case Assign(_, _, next) => Reread(next)
    case If(_, t, hasElse, f, next) =>
      Append(Visible(next), Append(Visible(t), Append(if hasElse then Visible(f) else Done,
             Append(Reread(t), Append(Reread(f), Reread(next))))))
  }

  /** What the walk over the blocks a function creates reads, up to the first return. */
  function Rest(p: Prog): Prog {
    match p
    case Done => Done
    case Assign(_, _, next) => Rest(next)
    case If(_, t, hasElse, f, next) =>
      if Straight(next) then Visible(next)
      else Append(Visible(next), Append(Visible(t), Append(if hasElse then Visible(f) else Done,
                  Append(Reread(t), Append(Reread(f), Rest(next))))))
  }

  /** The program the generator sees for a function: the blocks of its list as far as they
      are visible, then, unless they led to the return, every later block over again. */
  function Seen(p: Prog): Prog {
    Append(Visible(p), if Straight(p) then Done else Rest(p))
  }

  /** Walking on from the blocks of a region that meets no return. */
  lemma {:induction false} WalkArm(blocks: seq<Block>, b: nat, i: nat, p: Prog, lo: nat)
    requires Traversable(blocks) && b < lo && lo + Created(p) <= |blocks| && WellFormed(p)
    requires Shape(blocks, b, i, p, lo)
    requires var e := End(p, b, lo);
      e < |blocks| && |blocks[e].insts| == EndPos(p, i) && !IsCond(blocks[e]) && blocks[e].term != Some(Ret)
    ensures ReadFrom(blocks, lo) == Append(Reread(p), ReadFrom(blocks, lo + Created(p)))
    ensures ReturnsFrom(blocks, lo) == ReturnsFrom(blocks, lo + Created(p))
    decreases p, 1
  {
    hide ForkShape, ArmShape, Visible, Returns, ReadTerm;
    match p
    case Done =>
    case Assign(_, _, next) => WalkArm(blocks, b, i + 1, next, lo);
    case If(_, t, hasElse, f, next) =>
      var lo' := lo + Own(hasElse) + Created(t) + Created(f);
      ReadAt(blocks, lo, next, lo');
      WalkArms(blocks, b, i, p, lo);
      WalkArm(blocks, lo, 0, next, lo');
      var v := if hasElse then Visible(f) else Done;
      AppendMany(Visible(next), Visible(t), v, Reread(t), Reread(f), Reread(next), ReadFrom(blocks, lo + Created(p)));
  }

  /** The block a list starts in reads as the list is visible. */
  lemma ReadAt(blocks: seq<Block>, b: nat, p: Prog, lo: nat)
    requires Traversable(blocks) && b < lo && lo + Created(p) <= |blocks| && WellFormed(p) && Shape(blocks, b, 0, p, lo)
    requires var e := End(p, b, lo); e < |blocks| && |blocks[e].insts| == EndPos(p, 0) && !IsCond(blocks[e])
    ensures Read(blocks, b) == Visible(p)
    ensures Returns(blocks, b) == if Straight(p) && blocks[End(p, b, lo)].term == Some(Ret) then 1 else 0
    ensures ReadFrom(blocks, b) == Append(Visible(p), if Returns(blocks, b) > 0 then Done else ReadFrom(blocks, b + 1))
    ensures ReturnsFrom(blocks, b) == if Returns(blocks, b) > 0 then Returns(blocks, b) else ReturnsFrom(blocks, b + 1)
  {
    hide Shape, Visible, Returns, ReadTerm;
    ReadRegion(blocks, b, 0, p, lo);
    assert blocks[b].insts[0..] == blocks[b].insts;
  }

  /** Walking the arms of a conditional, from its true block on. */
  lemma {:induction false} WalkArms(blocks: seq<Block>, b: nat, i: nat, p: Prog, lo: nat)
    requires Traversable(blocks) && p.If? && b < lo && WellFormed(p)
    requires lo + Own(p.hasElse) + Created(p.thenArm) + Created(p.elseArm) <= |blocks|
    requires ForkShape(blocks, b, i, p, lo)
    ensures
      var If(_, t, hasElse, f, _) := p;
      ReadFrom(blocks, lo + 1) ==
      Append(Visible(t), Append(if hasElse then Visible(f) else Done,
             Append(Reread(t), Append(Reread(f), ReadFrom(blocks, lo + Own(hasElse) + Created(t) + Created(f))))))
    ensures ReturnsFrom(blocks, lo + 1) ==
            ReturnsFrom(blocks, lo + Own(p.hasElse) + Created(p.thenArm) + Created(p.elseArm))
    decreases p, 0
  {
    hide Visible, ArmShape, Reread, Read, ReadFrom, Append;
    var If(_, t, hasElse, f, _) := p;
    var loT := lo + Own(hasElse);
    WalkFrom(blocks, True, lo + 1, t, loT, lo);
    var end := ReadFrom(blocks, loT + Created(t) + Created(f));
    if hasElse {
      WalkFrom(blocks, False, lo + 2, f, loT + Created(t), lo);
      assert ReadFrom(blocks, lo + 2) == Append(Visible(f), Append(Reread(t), Append(Reread(f), end)));
    } else {
      NothingReread();
      assert ReadFrom(blocks, loT) == Append(Done, ReadFrom(blocks, loT)) by { DoneAppend(ReadFrom(blocks, loT)); }
      assert end == Append(Done, end) by { DoneAppend(end); }
    }
  }

  lemma DoneAppend(p: Prog)
    ensures Append(Done, p) == p
  {
  }

  /** Walking on from an arm's own block, and from the blocks it creates. */
  lemma WalkFrom(blocks: seq<Block>, kind: Kind, b: nat, p: Prog, lo: nat, after: nat)
    requires Traversable(blocks) && b < lo && lo + Created(p) <= |blocks| && WellFormed(p)
    requires ArmShape(blocks, kind, b, p, lo, after)
    ensures ReadFrom(blocks, b) == Append(Visible(p), ReadFrom(blocks, b + 1))
    ensures ReadFrom(blocks, lo) == Append(Reread(p), ReadFrom(blocks, lo + Created(p)))
    ensures ReturnsFrom(blocks, b) == ReturnsFrom(blocks, b + 1)
    ensures ReturnsFrom(blocks, lo) == ReturnsFrom(blocks, lo + Created(p))
    decreases p, 2
  {
    hide Visible, Returns, ReadTerm, Reread, Append;
    ReadArm(blocks, kind, b, p, lo, after);
    WalkArm(blocks, b, 0, p, lo);
  }

  lemma NothingReread()
    ensures Reread(Done) == Done
  {
  }

  lemma AppendMany(a: Prog, b: Prog, c: Prog, d: Prog, e: Prog, f: Prog, end: Prog)
    ensures Append(a, Append(b, Append(c, Append(d, Append(e, Append(f, end)))))) ==
            Append(Append(a, Append(b, Append(c, Append(d, Append(e, f))))), end)
  {
    AppendAssoc(a, Append(b, Append(c, Append(d, Append(e, f)))), end);
    AppendAssoc(b, Append(c, Append(d, Append(e, f))), end);
    AppendAssoc(c, Append(d, Append(e, f)), end);
    AppendAssoc(d, Append(e, f), end);
    AppendAssoc(e, f, end);
  }

  /** Walking on from the blocks of a function's own list. */
  lemma {:induction false} WalkTop(blocks: seq<Block>, b: nat, i: nat, p: Prog, lo: nat)
    requires Traversable(blocks) && b < lo && lo + Created(p) == |blocks| && WellFormed(p)
    requires Shape(blocks, b, i, p, lo) && EndsWith(blocks, End(p, b, lo), EndPos(p, i), Ret)
    ensures ReadFrom(blocks, lo) == Rest(p)
    ensures !Straight(p) ==> ReturnsFrom(blocks, lo) == 1
    decreases p
  {
    hide ForkShape, ArmShape, Visible, Returns, ReadTerm, Reread;
    match p
    case Done =>
    case Assign(_, _, next) => WalkTop(blocks, b, i + 1, next, lo);
    case If(_, t, hasElse, f, next) =>
      var lo' := lo + Own(hasElse) + Created(t) + Created(f);
      ReadAt(blocks, lo, next, lo');
      WalkArms(blocks, b, i, p, lo);
      WalkTop(blocks, lo, 0, next, lo');
      AppendDone(Visible(next));
  }

  /** What the walk over a compiled function sees, whatever the program, and that it meets
      one return. */
  lemma ReadWhole(blocks: seq<Block>, p: Prog)
    requires Function(blocks, p)
    ensures Traversable(blocks) && ReadFrom(blocks, 0) == Seen(p) && ReturnsFrom(blocks, 0) == 1
  {
    hide Visible, Returns, ReadTerm, Shape, Rest;
    AllBranches(blocks, p);
    ReadAt(blocks, 0, p, 1);
    WalkTop(blocks, 0, 0, p, 1);
  }

  // When the program is read back.

  /** Tidy arms everywhere at the top. */
  predicate TidyArms(p: Prog) {
    match p
    case Done => true
    case Assign(_, _, next) => TidyArms(next)
    case If(_, t, _, f, next) => Tidy(t) && Tidy(f) && TidyArms(next)
  }

  /** No arm has statements after an if-else; at the top no if-else follows a conditional
      without one; and every if-else but the last has empty arms. */
  predicate ReadsBack(p: Prog) {
    match p
    case Done => true
    case Assign(_, _, next) => ReadsBack(next)
    case If(_, t, hasElse, f, next) =>
      && Tidy(t) && Tidy(f)
      && (if Straight(next) then TidyArms(next) else hasElse && t == Done && f == Done && ReadsBack(next))
  }

  /** The number of statements of the list itself. */
  function Len(p: Prog): nat {
    match p
    case Done => 0
    case Assign(_, _, next) => 1 + Len(next)
    case If(_, _, _, _, next) => 1 + Len(next)
  }

  lemma {:induction false} LenAppend(p: Prog, q: Prog)
    ensures Len(Append(p, q)) == Len(p) + Len(q)
  {
    match p
    case Done =>
    case Assign(_, _, next) => LenAppend(next, q);
    case If(_, _, _, _, next) => LenAppend(next, q);
  }

  lemma {:induction false} VisibleLen(p: Prog)
    ensures Straight(p) ==> Len(Visible(p)) == Len(p)
    ensures Visible(p) == Done <==> p == Done
  {
    match p
    case Done =>
    case Assign(_, _, next) => VisibleLen(next);
    case If(_, _, _, _, next) => VisibleLen(next);
  }

  /** The walk sees at least as many statements as the list has. */
  lemma {:induction false} SeenLen(p: Prog)
    requires !Straight(p)
    ensures Len(Visible(p)) + Len(Rest(p)) >= Len(p)
  {
    match p
    case Assign(_, _, next) => SeenLen(next);
    case If(_, t, hasElse, f, next) =>
      VisibleLen(next);
      if !Straight(next) {
        SeenLen(next);
        RestLen(p);
      }
  }

  lemma RestLen(p: Prog)
    requires p.If? && !Straight(p.next)
    ensures var If(_, t, hasElse, f, next) := p;
      Len(Rest(p)) == Len(Visible(next)) + Len(Visible(t)) + (if hasElse then Len(Visible(f)) else 0)
                      + Len(Reread(t)) + Len(Reread(f)) + Len(Rest(next))
  {
    var If(_, t, hasElse, f, next) := p;
    var v := if hasElse then Visible(f) else Done;
    LenAppend(Reread(f), Rest(next));
    LenAppend(Reread(t), Append(Reread(f), Rest(next)));
    LenAppend(v, Append(Reread(t), Append(Reread(f), Rest(next))));
    LenAppend(Visible(t), Append(v, Append(Reread(t), Append(Reread(f), Rest(next)))));
    LenAppend(Visible(next), Append(Visible(t), Append(v, Append(Reread(t), Append(Reread(f), Rest(next))))));
  }

  /** The exact condition, on what is seen. */
  lemma {:induction false} SeenWhole(p: Prog)
    requires WellFormed(p)
    ensures Seen(p) == p <==> ReadsBack(p)
  {
    match p
    case Done =>
    case Assign(_, _, next) => SeenWhole(next);
    case If(c, t, hasElse, f, next) =>
      VisibleWhole(t);
      VisibleWhole(f);
      if Straight(next) {
        StraightWhole(next);
        if hasElse {
          assert Seen(p) == If(c, Visible(t), true, Visible(f), Append(Done, Visible(next)));
        } else {
          AppendDone(Visible(p));
        }
      } else {
        SeenWhole(next);
        SeenOnce(p);
      }
  }

  lemma {:induction false} StraightWhole(p: Prog)
    requires WellFormed(p) && Straight(p)
    ensures Visible(p) == p <==> TidyArms(p)
  {
    match p
    case Done =>
    case Assign(_, _, next) => StraightWhole(next);
    case If(_, t, _, f, next) =>
      VisibleWhole(t);
      StraightWhole(next);
  }

  /** Where an if-else is still to come, a conditional is seen whole only if nothing of it is
      seen twice. */
  lemma SeenOnce(p: Prog)
    requires WellFormed(p) && p.If? && !Straight(p.next)
    ensures Seen(p) == p <==>
            && p.hasElse && p.thenArm == Done && p.elseArm == Done && Seen(p.next) == p.next
  {
    var If(c, t, hasElse, f, next) := p;
    SeenLen(next);
    RestLen(p);
    VisibleLen(next);
    VisibleLen(t);
    VisibleLen(f);
    LenAppend(Visible(p), Rest(p));
    LenNothing(Visible(t));
    LenNothing(Visible(f));
  }

  lemma LenNothing(p: Prog)
    ensures Len(p) == 0 <==> p == Done
  {
  }

  /** The generator sees the program that was compiled exactly when it reads back. */
  lemma ReadsBackExactly(blocks: seq<Block>, p: Prog)
    requires Function(blocks, p) && WellFormed(p)
    ensures Traversable(blocks) && (ReadFrom(blocks, 0) == p <==> ReadsBack(p))
  {
    ReadWhole(blocks, p);
    SeenWhole(p);
  }

  // Where it does not.

  /** An if-else before another one: the walk takes its arms again, one after the other and
      unconditionally, before what follows. Here the arms have no conditionals. */
  lemma ArmsAgain(blocks: seq<Block>, p: Prog)
    requires Function(blocks, p) && p.If? && p.next.If? && p.hasElse && p.next.hasElse && Straight(p.next.next)
    requires !Branching(p.thenArm) && !Branching(p.elseArm)
    ensures Traversable(blocks)
    ensures
      var If(c, t, _, f, If(c', t', _, f', rest)) := p;
      ReadFrom(blocks, 0) ==
      If(c, t, true, f, If(c', Visible(t'), true, Visible(f'), Append(t, Append(f, Visible(rest)))))
  {
    ReadWhole(blocks, p);
    SimpleWhole(p.thenArm);
    SimpleWhole(p.elseArm);
    var If(c, t, _, f, q) := p;
    var tail := Append(t, Append(f, Visible(q.next)));
    assert Visible(q) == If(q.c, Visible(q.thenArm), true, Visible(q.elseArm), Done);
    assert Rest(p) == Append(Visible(q), tail);
    assert Append(Visible(q), tail) == If(q.c, Visible(q.thenArm), true, Visible(q.elseArm), tail);
    assert Seen(p) == If(c, t, true, f, Append(Done, Rest(p)));
  }

  /** A conditional without an else before an if-else: the walk takes what follows twice. */
  lemma TailAgain(blocks: seq<Block>, p: Prog)
    requires Function(blocks, p) && p.If? && p.next.If? && !p.hasElse && p.next.hasElse && Straight(p.next.next)
    requires WellFormed(p) && !Branching(p.thenArm)
    ensures Traversable(blocks)
    ensures
      var If(c, t, _, _, If(c', t', _, f', rest)) := p;
      ReadFrom(blocks, 0) ==
      If(c, t, false, Done,
         If(c', Visible(t'), true, Visible(f'),
            If(c', Visible(t'), true, Visible(f'), Append(t, Visible(rest)))))
  {
    ReadWhole(blocks, p);
    SimpleWhole(p.thenArm);
    NothingReread();
    var If(c, t, _, _, q) := p;
    var tail := Append(t, Visible(q.next));
    var again := If(q.c, Visible(q.thenArm), true, Visible(q.elseArm), tail);
    assert Rest(p) == Append(Visible(q),
      Append(Visible(t), Append(Done, Append(Reread(t), Append(Reread(Done), Visible(q.next))))));
    assert Rest(p) == Append(Visible(q), tail) == again;
    assert Seen(p) == If(c, t, false, Done, Append(Visible(q), again));
  }

  lemma {:induction false} SimpleWhole(p: Prog)
    requires !Branching(p)
    ensures Visible(p) == p && Reread(p) == Done
  {
    if p.Assign? {
      SimpleWhole(p.next);
    }
  }

  function Less(bound: real): Cond<string> {
    Cmp(Lt, Ref("x"), Lit(bound))
  }

  function Add(k: real, next: Prog): Prog {
    Assign("x", Bin(Plus, Ref("x"), Lit(k)), next)
  }

  function Twice(): Prog {
    If(Less(1.0), Add(1.0, Done), true, Add(2.0, Done), If(Less(1.0), Add(1.0, Done), true, Done, Done))
  }

  /** So the constraints can be about another program: here the compiled blocks leave `x`
      at 1, the program the generator sees leaves it at 4. */
  lemma ArmsAgainDiffers(blocks: seq<Block>, div0: real -> real)
    requires Function(blocks, Twice())
    ensures Traversable(blocks)
    ensures Lookup(Run(Twice(), map["x" := 0.0], div0))("x") == 1.0
    ensures Lookup(Run(ReadFrom(blocks, 0), map["x" := 0.0], div0))("x") == 4.0
  {
    ArmsAgain(blocks, Twice());
    var s0, s1, s2 := map["x" := 0.0], map["x" := 0.0]["x" := 1.0], map["x" := 0.0]["x" := 1.0]["x" := 2.0];
    assert Holds(Less(1.0), Lookup(s0), div0) && !Holds(Less(1.0), Lookup(s1), div0);
    var two := Add(1.0, Add(2.0, Done));
    assert ReadFrom(blocks, 0) ==
      If(Less(1.0), Add(1.0, Done), true, Add(2.0, Done), If(Less(1.0), Add(1.0, Done), true, Done, two));
    assert Run(Add(1.0, Done), s0, div0) == s1;
    assert Run(two, s1, div0) == Run(Add(2.0, Done), s2, div0) == s2["x" := 4.0];
    assert Run(ReadFrom(blocks, 0), s0, div0) == Run(ReadFrom(blocks, 0).next, s1, div0) == Run(two, s1, div0);
  }

  function Tail(): Prog {
    If(Less(3.0), Add(1.0, Done), true, Done, Done)
  }

  /** And here they leave it at 1, while what the generator sees leaves it at 2. */
  lemma TailAgainDiffers(blocks: seq<Block>, div0: real -> real)
    requires Function(blocks, If(Less(1.0), Done, false, Done, Tail()))
    ensures Traversable(blocks)
    ensures Lookup(Run(If(Less(1.0), Done, false, Done, Tail()), map["x" := 0.0], div0))("x") == 1.0
    ensures Lookup(Run(ReadFrom(blocks, 0), map["x" := 0.0], div0))("x") == 2.0
  {
    var p := If(Less(1.0), Done, false, Done, Tail());
    TailAgain(blocks, p);
    var s0, s1 := map["x" := 0.0], map["x" := 0.0]["x" := 1.0];
    assert Holds(Less(3.0), Lookup(s0), div0) && Holds(Less(3.0), Lookup(s1), div0);
    var twice := If(Less(3.0), Add(1.0, Done), true, Done, Tail());
    assert ReadFrom(blocks, 0) == If(Less(1.0), Done, false, Done, twice);
    assert Run(Add(1.0, Done), s0, div0) == s1;
    assert Run(Add(1.0, Done), s1, div0) == s1["x" := 2.0];
    assert Run(p, s0, div0) == Run(Tail(), s0, div0) == s1;
    assert Run(ReadFrom(blocks, 0), s0, div0) == Run(twice, s0, div0) == Run(Tail(), s1, div0) == s1["x" := 2.0];
  }
}
