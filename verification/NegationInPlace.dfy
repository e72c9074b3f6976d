/** Negation as it is carried out: operators and literals are overwritten in the nodes of
    the expression, and only folded constants are new nodes. */
module NegationInPlace {
  import opened Negation

  /** What a node holds besides its operands. */
  datatype Shape = Leaf(ast: Ast) | Operator(op: Op) | Bang | Sign

  class Node {
    var shape: Shape
    var left: Node?
    var right: Node?
    ghost var Repr: set<object>

    constructor (leaf: Ast)
      ensures shape == Leaf(leaf) && left == null && right == null && Repr == {this}
    {
      shape, left, right, Repr := Leaf(leaf), null, null, {this};
    }

    /** A tree: operands own disjoint sets of nodes. */
    ghost predicate Valid()
      reads this, Repr
      decreases Repr
    {
      && this in Repr
      && (left != null ==> left in Repr && left.Repr <= Repr && this !in left.Repr && left.Valid())
      && (right != null ==> right in Repr && right.Repr <= Repr && this !in right.Repr && right.Valid())
      && (left != null && right != null ==> left.Repr !! right.Repr)
      && match shape
         case Leaf(ast) => left == null && right == null && !ast.Infix? && !ast.Not? && !ast.Negative?
         case Operator(_) => left != null && right != null
         case _ => left == null && right != null
    }

    /** The expression the tree stands for. */
    ghost function Abs(): Ast
      requires Valid()
      reads this, Repr
      decreases Repr
    {
      match shape
      case Leaf(ast) => ast
      case Operator(op) => Infix(op, left.Abs(), right.Abs())
      case Bang => Not(right.Abs())
      case Sign => Negative(right.Abs())
    }
  }

  /** Overwrites the expression with its negation. Nothing outside its nodes changes; there
      is no result exactly where the value-level negation has none. */
  method NegateNode(n: Node) returns (r: Node?)
    requires n.Valid()
    modifies n.Repr
    ensures r == null <==> !Negate(old(n.Abs())).Is?
    ensures r != null ==> r.Valid() && fresh(r.Repr - old(n.Repr)) && Is(r.Abs()) == Negate(old(n.Abs()))
    decreases n.Repr, 2
  {
    match n.shape
    case Operator(_) => r := NegateInfix(n);
    case Leaf(Bool(b)) =>
      n.shape := Leaf(Bool(!b));
      r := n;
    case Leaf(_) =>
      r := n;
    case Bang =>
      r := n.right;
    case Sign =>
      var q := NegateNode(n.right);
      if q == null {
        return null;
      }
      n.right := q;
      n.Repr := {n} + q.Repr;
      r := n;
  }

  method NegateInfix(n: Node) returns (r: Node?)
    requires n.Valid() && n.shape.Operator?
    modifies n.Repr
    ensures r == null <==> !Negate(old(n.Abs())).Is?
    ensures r != null ==> r.Valid() && fresh(r.Repr - old(n.Repr)) && Is(r.Abs()) == Negate(old(n.Abs()))
    decreases n.Repr, 1
  {
    hide Negate, Evaluate, OpNegate;
    NegateParts(n.shape.op, n.left.Abs(), n.right.Abs());
    n.shape := Operator(OpNegate(n.shape.op));
    var l, q := NegateOperands(n);
    if l == null || q == null {
      return null;
    }
    n.left, n.right := l, q;
    n.Repr := {n} + l.Repr + q.Repr;
    r := EvaluateNode(n);
  }

  /** The operands one after the other; neither touches the other or the node itself. */
  method NegateOperands(n: Node) returns (l: Node?, q: Node?)
    requires n.Valid() && n.shape.Operator?
    modifies n.left.Repr, n.right.Repr
    ensures l == null || q == null ==> !Negate(old(n.left.Abs())).Is? || !Negate(old(n.right.Abs())).Is?
    ensures l != null && q != null ==>
      && l.Valid() && q.Valid() && l.Repr !! q.Repr && n !in l.Repr && n !in q.Repr
      && fresh(l.Repr - old(n.left.Repr)) && fresh(q.Repr - old(n.right.Repr))
      && Is(l.Abs()) == Negate(old(n.left.Abs())) && Is(q.Abs()) == Negate(old(n.right.Abs()))
    decreases n.Repr, 0
  {
    hide Negate;
    l := NegateNode(n.left);
    if l != null {
      q := NegateNode(n.right);
    } else {
      q := null;
    }
  }

  lemma NegateParts(op: Op, l: Ast, r: Ast)
    ensures var (l', r') := (Negate(l), Negate(r));
      Negate(Infix(op, l, r)) ==
      if !l'.Is? then l' else if !r'.Is? then r' else Evaluate(OpNegate(op), l'.ast, r'.ast)
  {
  }

  /** Two literal operands are folded into a new node. */
  method EvaluateNode(n: Node) returns (r: Node?)
    requires n.Valid() && n.shape.Operator?
    ensures r == null <==> !Folded(n).Is?
    ensures r != null ==> r.Valid() && fresh(r.Repr - n.Repr) && Is(r.Abs()) == Folded(n)
  {
    if IsCompare(n.shape.op) || !n.left.shape.Leaf? || !n.right.shape.Leaf?
       || !Literal(n.left.shape.ast) || !Literal(n.right.shape.ast) {
      return n;
    }
    var folded := Evaluate(n.shape.op, n.left.shape.ast, n.right.shape.ast);
    if !folded.Is? {
      return null;
    }
    r := new Node(folded.ast);
  }

  ghost function Folded(n: Node): Outcome
    requires n.Valid() && n.shape.Operator?
    reads n, n.Repr
  {
    Evaluate(n.shape.op, n.left.Abs(), n.right.Abs())
  }
}
