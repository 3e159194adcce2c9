/** The same rewritings done the way the source does them: on heap nodes, in
    place, reusing the nodes of the expression that is rewritten. */
module KconfigInPlace {
  import opened KconfigExpr
  import opened KconfigYn
  import KconfigTransform
  import KconfigEq

  /** The global trans_count. */
  class Counter {
    var transCount: nat
  }

  datatype Tag = TSymbol | TNot | TAnd | TOr | TEqual | TUnequal

  /** struct expr.  `tree` is the expression the node stands for and `Repr` the
      nodes it is made of. */
  class Node {
    var tag: Tag
    var a: Symbol
    var b: Symbol
    var left: Node?
    var right: Node?
    ghost var tree: Expr
    ghost var Repr: set<Node>

    constructor Symbol(s: Symbol)
      ensures Valid() && fresh(Repr) && tree == Sym(s) && Repr == {this}
      ensures tag == TSymbol && a == s
    {
      tag, a, b := TSymbol, s, No;
      left, right := null, null;
      tree, Repr := Sym(s), {this};
    }

    constructor Group(tag: Tag, left: Node, right: Node)
      requires tag == TAnd || tag == TOr
      requires left.Valid() && right.Valid() && left.Repr !! right.Repr
      ensures Valid() && fresh(Repr - left.Repr - right.Repr)
      ensures tree == if tag == TAnd then And(left.tree, right.tree) else Or(left.tree, right.tree)
    {
      this.tag, a, b := tag, No, No;
      this.left, this.right := left, right;
      tree := if tag == TAnd then And(left.tree, right.tree) else Or(left.tree, right.tree);
      Repr := {this} + left.Repr + right.Repr;
    }

    constructor Negation(left: Node)
      requires left.Valid()
      ensures Valid() && Repr == {this} + left.Repr && this !in left.Repr && tree == Not(left.tree)
      ensures fresh(this)
    {
      tag, a, b := TNot, No, No;
      this.left, right := left, null;
      tree, Repr := Not(left.tree), {this} + left.Repr;
    }

    constructor Comparison(tag: Tag, a: Symbol, b: Symbol)
      requires tag == TEqual || tag == TUnequal
      ensures Valid() && fresh(Repr) && tree == if tag == TEqual then Equal(a, b) else Unequal(a, b)
    {
      this.tag, this.a, this.b := tag, a, b;
      left, right := null, null;
      tree, Repr := if tag == TEqual then Equal(a, b) else Unequal(a, b), {this};
    }

    ghost predicate Valid()
      reads this, Repr
      decreases Repr
    {
      && this in Repr
      && match tag
         case TSymbol => tree == Sym(a)
         case TEqual => tree == Equal(a, b)
         case TUnequal => tree == Unequal(a, b)
         case TNot =>
           && left != null && left in Repr && left.Repr <= Repr - {this} && left.Valid()
           && tree == Not(left.tree)
         case _ =>
           && left != null && left in Repr && left.Repr <= Repr - {this} && left.Valid()
           && right != null && right in Repr && right.Repr <= Repr - {this} && right.Valid()
           && left.Repr !! right.Repr
           && tree == if tag == TAnd then And(left.tree, right.tree) else Or(left.tree, right.tree)
    }

    /** A group node whose operands are in order, though what the node itself
        stands for may not have been recorded yet. */
    ghost predicate Open(nodes: set<Node>)
      reads this, nodes
    {
      && (tag == TAnd || tag == TOr)
      && left != null && right != null && left in nodes && right in nodes
      && left.Repr <= nodes && right.Repr <= nodes
      && this !in left.Repr && this !in right.Repr && left.Repr !! right.Repr
      && left.Valid() && right.Valid()
      && nodes == {this} + left.Repr + right.Repr
    }

    /** *e = *from, for a node whose old contents are no longer needed. */
    method Become(from: Node)
      requires from.Valid() && this !in from.Repr
      modifies this
      ensures Valid() && tree == from.tree && Repr == {this} + from.Repr - {from}
    {
      tag, a, b, left, right := from.tag, from.a, from.b, from.left, from.right;
      tree, Repr := from.tree, {this} + from.Repr - {from};
    }

    /** The node turns into a symbol node. */
    method BecomeSymbol(s: Symbol)
      modifies this
      ensures Valid() && tree == Sym(s) && Repr == {this}
    {
      tag, a, left, right := TSymbol, s, null, null;
      tree, Repr := Sym(s), {this};
    }

    /** A group turns into the negation of its left operand. */
    method BecomeNot()
      requires Valid() && (tag == TAnd || tag == TOr)
      modifies this
      ensures Valid() && tag == TNot && left == old(left) && Repr == {this} + left.Repr && tree == Not(left.tree)
    {
      tag, right := TNot, null;
      tree, Repr := Not(left.tree), {this} + left.Repr;
    }

    /** Stores the left operand back. */
    method SetLeft(l: Node) returns (ghost nodes: set<Node>)
      requires (tag == TAnd || tag == TOr) && l.Valid() && right != null && right.Valid()
      requires this !in l.Repr && this !in right.Repr && l.Repr !! right.Repr
      modifies this`left
      ensures left == l && Open(nodes) && nodes == {this} + l.Repr + right.Repr
    {
      left := l;
      nodes := {this} + l.Repr + right.Repr;
    }

    /** Stores the right operand back, when the left one is in order. */
    method SetRight(r: Node)
      requires (tag == TAnd || tag == TOr) && r.Valid() && left != null && left.Valid()
      requires this !in r.Repr && this !in left.Repr && left.Repr !! r.Repr
      modifies this`right, this`tree, this`Repr
      ensures Valid() && right == r && Repr == {this} + left.Repr + r.Repr
      ensures tree == if tag == TAnd then And(left.tree, r.tree) else Or(left.tree, r.tree)
    {
      right := r;
      Regroup();
    }

    /** Records what the node stands for after its operands were rewritten. */
    ghost method Regroup()
      requires left != null && right != null && Open({this} + left.Repr + right.Repr)
      modifies this`tree, this`Repr
      ensures Valid() && Repr == {this} + left.Repr + right.Repr
      ensures tree == if tag == TAnd then And(left.tree, right.tree) else Or(left.tree, right.tree)
    {
      tree := if tag == TAnd then And(left.tree, right.tree) else Or(left.tree, right.tree);
      Repr := {this} + left.Repr + right.Repr;
    }
  }

  /** The decision after both operands are clean: which operand, if any, settles
      the group (`absorber`) or can be dropped (`unit`). */
  method DropConstants(e: Node, absorber: Symbol, unit: Symbol)
    requires e.Valid() && (e.tag == TAnd || e.tag == TOr) && absorber != unit
    modifies e.Repr
    ensures e.Valid() && e.Repr <= old(e.Repr)
    ensures e.tree ==
      var l, r := old(e.left.tree), old(e.right.tree);
      if l == Sym(absorber) then Sym(absorber)
      else if l == Sym(unit) then r
      else if r == Sym(absorber) then Sym(absorber)
      else if r == Sym(unit) then l
      else old(e.tree)
  {
    if e.left.tag == TSymbol {
      if e.left.a == absorber {
        e.BecomeSymbol(absorber);
        return;
      } else if e.left.a == unit {
        e.Become(e.right);
        return;
      }
    }
    if e.right.tag == TSymbol {
      if e.right.a == absorber {
        e.BecomeSymbol(absorber);
      } else if e.right.a == unit {
        e.Become(e.left);
      }
    }
  }

  /** expr_eliminate_yn: the same node is returned, standing for the simplified
      expression, made of nodes it already had. */
  method EliminateYn(e: Node) returns (r: Node)
    requires e.Valid()
    modifies e.Repr
    ensures r == e && e.Valid() && e.Repr <= old(e.Repr)
    ensures e.tree == KconfigYn.EliminateYn(old(e.tree))
    decreases e.tree, 1
  {
    r := e;
    if e.tag == TAnd || e.tag == TOr {
      EliminateYnBelow(e);
      if e.tag == TAnd {
        DropConstants(e, No, Yes);
      } else {
        DropConstants(e, Yes, No);
      }
    }
  }

  /** Both operands of a group. */
  method EliminateYnBelow(e: Node)
    requires e.Valid() && (e.tag == TAnd || e.tag == TOr)
    modifies e.Repr
    ensures e.Valid() && e.Repr <= old(e.Repr) && e.tag == old(e.tag)
    ensures e.tree
         == var l, r := KconfigYn.EliminateYn(old(e.tree).l), KconfigYn.EliminateYn(old(e.tree).r);
            Build(OpOf(old(e.tree)), l, r)
    decreases e.tree, 0
  {
    var l := EliminateYn(e.left);
    e.left := l;
    var x := EliminateYn(e.right);
    e.right := x;
    e.Regroup();
  }

  /** expr_trans_bool: NOT, AND and OR nodes are kept and their operands
      rewritten; a comparison with n loses its right side. */
  method TransBool(e: Node) returns (r: Node)
    requires e.Valid()
    modifies e.Repr
    ensures r == e && e.Valid() && e.Repr <= old(e.Repr)
    ensures e.tree == KconfigYn.TransBool(old(e.tree))
    decreases e.tree
  {
    r := e;
    if e.tag == TAnd || e.tag == TOr {
      var l := TransBool(e.left);
      e.left := l;
      var x := TransBool(e.right);
      e.right := x;
      e.Regroup();
    } else if e.tag == TNot {
      var l := TransBool(e.left);
      e.left := l;
      e.tree, e.Repr := Not(l.tree), {e} + l.Repr;
    } else if e.tag == TUnequal && IsKind(e.a, Tristate) && e.b == No {
      e.BecomeSymbol(e.a);
    }
  }

  /** expr_copy: all new nodes. */
  method Copy(e: Node) returns (c: Node)
    requires e.Valid()
    ensures c.Valid() && fresh(c.Repr) && c.tree == e.tree
    decreases e.tree
  {
    if e.tag == TSymbol {
      c := new Node.Symbol(e.a);
    } else if e.tag == TNot {
      var l := Copy(e.left);
      c := new Node.Negation(l);
    } else if e.tag == TAnd || e.tag == TOr {
      var l := Copy(e.left);
      var r := Copy(e.right);
      c := new Node.Group(e.tag, l, r);
    } else {
      c := new Node.Comparison(e.tag, e.a, e.b);
    }
  }

  predicate HasOp(tag: Tag, op: Op) {
    tag == if op == AndOp then TAnd else TOr
  }

  /** __expr_eliminate_eq on two trees that share no node.  A slot is returned
      as the pointer to store back into it; cancelled operands are replaced by
      new constant nodes. */
  method CancelEq(counter: Counter, op: Op, e1: Node, e2: Node) returns (r1: Node, r2: Node)
    requires e1.Valid() && e2.Valid() && e1.Repr !! e2.Repr
    modifies counter, e1.Repr, e2.Repr
    ensures r1.Valid() && r2.Valid() && r1.Repr !! r2.Repr
    ensures fresh(r1.Repr - old(e1.Repr)) && fresh(r2.Repr - old(e2.Repr))
    ensures (r1.tree, r2.tree) == KconfigEq.CancelEq(op, old(e1.tree), old(e2.tree))
    decreases Size(e1.tree) + Size(e2.tree), if IsOp(e1.tree, op) || IsOp(e2.tree, op) then 0 else 3, 2
  {
    if HasOp(e1.tag, op) {
      r1, r2 := CancelFirst(counter, op, e1, e2);
    } else if HasOp(e2.tag, op) {
      r1, r2 := CancelSecond(counter, op, e1, e2);
    } else if e1.tag == TSymbol && e2.tag == TSymbol && e1.a == e2.a && YesOrNoFlag(e1.a) {
      r1, r2 := e1, e2;
    } else {
      var equal := ExprEq(counter, e1, e2);
      if equal {
        counter.transCount := counter.transCount + 1;
        r1 := new Node.Symbol(if op == AndOp then Yes else No);
        r2 := new Node.Symbol(if op == AndOp then Yes else No);
      } else {
        r1, r2 := e1, e2;
      }
    }
  }

  /** Cancels between the left half of e1 and e2. */
  method CancelLeft(counter: Counter, op: Op, e1: Node, e2: Node) returns (r2: Node, ghost nodes: set<Node>)
    requires HasOp(e1.tag, op) && e1.Valid() && e2.Valid() && e1.Repr !! e2.Repr
    modifies counter, e1.Repr, e2.Repr
    ensures e1.Open(nodes) && r2.Valid() && nodes !! r2.Repr
    ensures fresh(nodes - old(e1.Repr)) && fresh(r2.Repr - old(e2.Repr))
    ensures e1.tag == old(e1.tag) && e1.right == old(e1.right) && e1.right.tree == old(e1.right.tree)
    ensures (e1.left.tree, r2.tree) == KconfigEq.CancelEq(op, old(e1.left.tree), old(e2.tree))
    decreases Size(e1.tree) + Size(e2.tree), 0, 0
  {
    ghost var right, rightNodes := e1.right.tree, e1.right.Repr;
    var l, y := CancelEq(counter, op, e1.left, e2);
    assert e1.right.Valid() && e1.right.tree == right && e1.right.Repr == rightNodes;
    nodes := e1.SetLeft(l);
    r2 := y;
  }

  /** Cancels between the right half of e1 and e2. */
  method CancelRight(counter: Counter, op: Op, e1: Node, e2: Node, ghost nodes: set<Node>, ghost bound: nat)
      returns (r2: Node)
    requires HasOp(e1.tag, op) && e1.Open(nodes) && e2.Valid() && nodes !! e2.Repr
    requires Size(e1.right.tree) + Size(e2.tree) < bound
    modifies counter, nodes, e2.Repr
    ensures e1.Valid() && r2.Valid() && e1.Repr !! r2.Repr
    ensures fresh(e1.Repr - nodes) && fresh(r2.Repr - old(e2.Repr))
    ensures var (r, z) := KconfigEq.CancelEq(op, old(e1.right.tree), old(e2.tree));
            e1.tree == Build(op, old(e1.left.tree), r) && r2.tree == z
    decreases bound, 0, 0
  {
    ghost var left, leftNodes := e1.left.tree, e1.left.Repr;
    var r, z := CancelEq(counter, op, e1.right, e2);
    assert e1.left.Valid() && e1.left.tree == left && e1.left.Repr == leftNodes;
    e1.SetRight(r);
    r2 := z;
  }

  /** The first expression is a group: its two halves, one after the other. */
  method CancelFirst(counter: Counter, op: Op, e1: Node, e2: Node) returns (r1: Node, r2: Node)
    requires HasOp(e1.tag, op)
    requires e1.Valid() && e2.Valid() && e1.Repr !! e2.Repr
    modifies counter, e1.Repr, e2.Repr
    ensures r1.Valid() && r2.Valid() && r1.Repr !! r2.Repr
    ensures fresh(r1.Repr - old(e1.Repr)) && fresh(r2.Repr - old(e2.Repr))
    ensures (r1.tree, r2.tree) == KconfigEq.CancelEq(op, old(e1.tree), old(e2.tree))
    decreases Size(e1.tree) + Size(e2.tree), 0, 1
  {
    ghost var bound := Size(e1.tree) + Size(e2.tree);
    ghost var nodes;
    r2, nodes := CancelLeft(counter, op, e1, e2);
    r2 := CancelRight(counter, op, e1, r2, nodes, bound);
    r1 := e1;
  }

  /** The second expression is a group and the first is not. */
  method CancelSecond(counter: Counter, op: Op, e1: Node, e2: Node) returns (r1: Node, r2: Node)
    requires !HasOp(e1.tag, op) && HasOp(e2.tag, op)
    requires e1.Valid() && e2.Valid() && e1.Repr !! e2.Repr
    modifies counter, e1.Repr, e2.Repr
    ensures r1.Valid() && r2.Valid() && r1.Repr !! r2.Repr
    ensures fresh(r1.Repr - old(e1.Repr)) && fresh(r2.Repr - old(e2.Repr))
    ensures (r1.tree, r2.tree) == KconfigEq.CancelEq(op, old(e1.tree), old(e2.tree))
    decreases Size(e1.tree) + Size(e2.tree), 0, 1
  {
    ghost var bound := Size(e1.tree) + Size(e2.tree);
    ghost var nodes;
    r1, nodes := CancelWithLeft(counter, op, e1, e2);
    r1 := CancelWithRight(counter, op, r1, e2, nodes, bound);
    r2 := e2;
  }

  method CancelWithLeft(counter: Counter, op: Op, e1: Node, e2: Node) returns (r1: Node, ghost nodes: set<Node>)
    requires !HasOp(e1.tag, op) && HasOp(e2.tag, op) && e1.Valid() && e2.Valid() && e1.Repr !! e2.Repr
    modifies counter, e1.Repr, e2.Repr
    ensures e2.Open(nodes) && r1.Valid() && r1.Repr !! nodes
    ensures fresh(r1.Repr - old(e1.Repr)) && fresh(nodes - old(e2.Repr))
    ensures e2.tag == old(e2.tag) && e2.right == old(e2.right) && e2.right.tree == old(e2.right.tree)
    ensures (r1.tree, e2.left.tree) == KconfigEq.CancelEq(op, old(e1.tree), old(e2.left.tree))
    decreases Size(e1.tree) + Size(e2.tree), 0, 0
  {
    ghost var right, rightNodes := e2.right.tree, e2.right.Repr;
    var y, l := CancelEq(counter, op, e1, e2.left);
    assert e2.right.Valid() && e2.right.tree == right && e2.right.Repr == rightNodes;
    nodes := e2.SetLeft(l);
    r1 := y;
  }

  method CancelWithRight(counter: Counter, op: Op, e1: Node, e2: Node, ghost nodes: set<Node>, ghost bound: nat)
      returns (r1: Node)
    requires HasOp(e2.tag, op) && e2.Open(nodes) && e1.Valid() && e1.Repr !! nodes
    requires Size(e1.tree) + Size(e2.right.tree) < bound
    modifies counter, e1.Repr, nodes
    ensures r1.Valid() && e2.Valid() && r1.Repr !! e2.Repr
    ensures fresh(r1.Repr - old(e1.Repr)) && fresh(e2.Repr - nodes)
    ensures var (z, r) := KconfigEq.CancelEq(op, old(e1.tree), old(e2.right.tree));
            r1.tree == z && e2.tree == Build(op, old(e2.left.tree), r)
    decreases bound, 0, 0
  {
    ghost var left, leftNodes := e2.left.tree, e2.left.Repr;
    var z, r := CancelEq(counter, op, e1, e2.right);
    assert e2.left.Valid() && e2.left.tree == left && e2.left.Repr == leftNodes;
    e2.SetRight(r);
    r1 := z;
  }

  method FirstPass(counter: Counter, e1: Node, e2: Node) returns (r1: Node, r2: Node)
    requires e1.Valid() && e2.Valid() && e1.Repr !! e2.Repr
    modifies counter, e1.Repr, e2.Repr
    ensures r1.Valid() && r2.Valid() && r1.Repr !! r2.Repr
    ensures fresh(r1.Repr - old(e1.Repr)) && fresh(r2.Repr - old(e2.Repr))
    ensures (r1.tree, r2.tree) == KconfigEq.FirstPass(old(e1.tree), old(e2.tree))
    decreases Size(e1.tree) + Size(e2.tree), 1, 0
  {
    r1, r2 := e1, e2;
    if e1.tag == TAnd || e1.tag == TOr {
      r1, r2 := CancelEq(counter, if e1.tag == TAnd then AndOp else OrOp, e1, e2);
    }
  }

  method SecondPass(counter: Counter, e1: Node, e2: Node) returns (r1: Node, r2: Node)
    requires e1.Valid() && e2.Valid() && e1.Repr !! e2.Repr
    modifies counter, e1.Repr, e2.Repr
    ensures r1.Valid() && r2.Valid() && r1.Repr !! r2.Repr
    ensures fresh(r1.Repr - old(e1.Repr)) && fresh(r2.Repr - old(e2.Repr))
    ensures (r1.tree, r2.tree) == KconfigEq.SecondPass(old(e1.tree), old(e2.tree))
    decreases Size(e1.tree) + Size(e2.tree), 1, 0
  {
    r1, r2 := e1, e2;
    if e1.tag != e2.tag && (e2.tag == TAnd || e2.tag == TOr) {
      r1, r2 := CancelEq(counter, if e2.tag == TAnd then AndOp else OrOp, e1, e2);
    }
  }

  /** expr_eliminate_eq. */
  method EliminateEq(counter: Counter, e1: Node, e2: Node) returns (r1: Node, r2: Node)
    requires e1.Valid() && e2.Valid() && e1.Repr !! e2.Repr
    modifies counter, e1.Repr, e2.Repr
    ensures r1.Valid() && r2.Valid() && r1.Repr !! r2.Repr
    ensures fresh(r1.Repr - old(e1.Repr)) && fresh(r2.Repr - old(e2.Repr))
    ensures (r1.tree, r2.tree) == KconfigEq.EliminateEq(old(e1.tree), old(e2.tree))
    decreases Size(e1.tree) + Size(e2.tree), 1, 1
  {
    r1, r2 := FirstPass(counter, e1, e2);
    r1, r2 := SecondPass(counter, r1, r2);
    r1 := EliminateYn(r1);
    r2 := EliminateYn(r2);
  }

  /** expr_eq: the comparison cancels operands on copies, so the expressions it
      compares are left as they were, and so is the counter. */
  method ExprEq(counter: Counter, e1: Node, e2: Node) returns (equal: bool)
    requires e1.Valid() && e2.Valid()
    modifies counter
    ensures counter.transCount == old(counter.transCount)
    ensures equal == KconfigEq.ExprEq(e1.tree, e2.tree)
    decreases Size(e1.tree) + Size(e2.tree), 2, 0
  {
    if e1.tag != e2.tag {
      return false;
    }
    match e1.tag
    case TSymbol => equal := e1.a == e2.a;
    case TEqual => equal := e1.a == e2.a && e1.b == e2.b;
    case TUnequal => equal := e1.a == e2.a && e1.b == e2.b;
    case TNot => equal := ExprEq(counter, e1.left, e2.left);
    case _ => equal := SameGroups(counter, e1, e2);
  }

  /** Two groups of one operator. */
  method SameGroups(counter: Counter, e1: Node, e2: Node) returns (equal: bool)
    requires e1.Valid() && e2.Valid() && e1.tag == e2.tag && (e1.tag == TAnd || e1.tag == TOr)
    modifies counter
    ensures counter.transCount == old(counter.transCount)
    ensures equal == KconfigEq.ExprEq(e1.tree, e2.tree)
    decreases Size(e1.tree) + Size(e2.tree), 1, 2
  {
    var c1 := Copy(e1);
    var c2 := Copy(e2);
    var oldCount := counter.transCount;
    c1, c2 := EliminateEq(counter, c1, c2);
    equal := c1.tag == TSymbol && c2.tag == TSymbol && c1.a == c2.a;
    counter.transCount := oldCount;
  }
}
