/** expr_extract_eq on heap nodes: what two expressions have in common is moved
    out of both. */
module KconfigExtractInPlace {
  import opened Basics
  import opened KconfigExpr
  import opened KconfigInPlace
  import KconfigEq

  /** What was moved out so far: a variable that starts as NULL. */
  ghost function Moved(ep: Node?): Option<Expr>
    reads ep
  {
    if ep == null then None else Some(ep.tree)
  }

  ghost function Nodes(ep: Node?): set<Node>
    reads ep
  {
    if ep == null then {} else ep.Repr
  }

  ghost predicate Sure(ep: Node?)
    reads ep, Nodes(ep)
  {
    ep == null || ep.Valid()
  }

  /** expr_extract_eq.  A slot is returned as the pointer to store back into it;
      the first of two equal operands is moved out. */
  method ExtractEq(counter: Counter, op: Op, ep: Node?, e1: Node, e2: Node) returns (ep': Node?, r1: Node, r2: Node)
    requires Sure(ep) && e1.Valid() && e2.Valid() && e1.Repr !! e2.Repr && Nodes(ep) !! e1.Repr + e2.Repr
    modifies counter, e1.Repr, e2.Repr
    ensures counter.transCount == old(counter.transCount)
    ensures Sure(ep') && r1.Valid() && r2.Valid() && r1.Repr !! r2.Repr && Nodes(ep') !! r1.Repr + r2.Repr
    ensures fresh(r1.Repr - old(e1.Repr)) && fresh(r2.Repr - old(e2.Repr))
    ensures fresh(Nodes(ep') - old(Nodes(ep)) - old(e1.Repr))
    ensures (Moved(ep'), r1.tree, r2.tree) == KconfigEq.ExtractEq(op, old(Moved(ep)), old(e1.tree), old(e2.tree))
    decreases Size(e1.tree) + Size(e2.tree), 2
  {
    if HasOp(e1.tag, op) {
      ep', r1, r2 := ExtractFirst(counter, op, ep, e1, e2);
    } else if HasOp(e2.tag, op) {
      ep', r1, r2 := ExtractSecond(counter, op, ep, e1, e2);
    } else {
      ep', r1, r2 := ep, e1, e2;
      var equal := ExprEq(counter, e1, e2);
      if equal {
        if ep == null {
          ep' := e1;
        } else {
          ep' := new Node.Group(if op == AndOp then TAnd else TOr, ep, e1);
        }
        r1 := new Node.Symbol(if op == AndOp then Yes else No);
        r2 := new Node.Symbol(if op == AndOp then Yes else No);
      }
    }
  }

  /** The first expression is a group: its two halves, one after the other. */
  method ExtractFirst(counter: Counter, op: Op, ep: Node?, e1: Node, e2: Node)
      returns (ep': Node?, r1: Node, r2: Node)
    requires HasOp(e1.tag, op)
    requires Sure(ep) && e1.Valid() && e2.Valid() && e1.Repr !! e2.Repr && Nodes(ep) !! e1.Repr + e2.Repr
    modifies counter, e1.Repr, e2.Repr
    ensures counter.transCount == old(counter.transCount)
    ensures Sure(ep') && r1.Valid() && r2.Valid() && r1.Repr !! r2.Repr && Nodes(ep') !! r1.Repr + r2.Repr
    ensures fresh(r1.Repr - old(e1.Repr)) && fresh(r2.Repr - old(e2.Repr))
    ensures fresh(Nodes(ep') - old(Nodes(ep)) - old(e1.Repr))
    ensures (Moved(ep'), r1.tree, r2.tree) == KconfigEq.ExtractEq(op, old(Moved(ep)), old(e1.tree), old(e2.tree))
    decreases Size(e1.tree) + Size(e2.tree), 1
  {
    ghost var bound := Size(e1.tree) + Size(e2.tree);
    ghost var nodes;
    ep', r2, nodes := ExtractLeft(counter, op, ep, e1, e2);
    ep', r2 := ExtractRight(counter, op, ep', e1, r2, nodes, bound);
    r1 := e1;
  }

  /** Between the left half of e1 and e2. */
  method ExtractLeft(counter: Counter, op: Op, ep: Node?, e1: Node, e2: Node)
      returns (ep': Node?, r2: Node, ghost nodes: set<Node>)
    requires HasOp(e1.tag, op)
    requires Sure(ep) && e1.Valid() && e2.Valid() && e1.Repr !! e2.Repr && Nodes(ep) !! e1.Repr + e2.Repr
    modifies counter, e1.Repr, e2.Repr
    ensures counter.transCount == old(counter.transCount)
    ensures Sure(ep') && e1.Open(nodes) && r2.Valid() && nodes !! r2.Repr && Nodes(ep') !! nodes + r2.Repr
    ensures fresh(nodes - old(e1.Repr)) && fresh(r2.Repr - old(e2.Repr))
    ensures fresh(Nodes(ep') - old(Nodes(ep)) - old(e1.Repr))
    ensures e1.tag == old(e1.tag) && e1.right == old(e1.right) && e1.right.tree == old(e1.right.tree)
    ensures (Moved(ep'), e1.left.tree, r2.tree)
         == KconfigEq.ExtractEq(op, old(Moved(ep)), old(e1.left.tree), old(e2.tree))
    decreases Size(e1.tree) + Size(e2.tree), 0
  {
    ghost var right, rightNodes := e1.right.tree, e1.right.Repr;
    var l;
    ep', l, r2 := ExtractEq(counter, op, ep, e1.left, e2);
    assert e1.right.Valid() && e1.right.tree == right && e1.right.Repr == rightNodes;
    nodes := e1.SetLeft(l);
  }

  /** Between the right half of e1 and e2. */
  method ExtractRight(counter: Counter, op: Op, ep: Node?, e1: Node, e2: Node, ghost nodes: set<Node>,
      ghost bound: nat)
    returns (ep': Node?, r2: Node)
    requires HasOp(e1.tag, op) && e1.Open(nodes) && Size(e1.right.tree) + Size(e2.tree) < bound
    requires Sure(ep) && e2.Valid() && nodes !! e2.Repr && Nodes(ep) !! nodes + e2.Repr
    modifies counter, nodes, e2.Repr
    ensures counter.transCount == old(counter.transCount)
    ensures Sure(ep') && e1.Valid() && r2.Valid() && e1.Repr !! r2.Repr && Nodes(ep') !! e1.Repr + r2.Repr
    ensures fresh(e1.Repr - nodes) && fresh(r2.Repr - old(e2.Repr))
    ensures fresh(Nodes(ep') - old(Nodes(ep)) - nodes)
    ensures var (m, r, z) := KconfigEq.ExtractEq(op, old(Moved(ep)), old(e1.right.tree), old(e2.tree));
            Moved(ep') == m && e1.tree == Build(op, old(e1.left.tree), r) && r2.tree == z
    decreases bound, 0
  {
    ghost var left, leftNodes := e1.left.tree, e1.left.Repr;
    var r;
    ep', r, r2 := ExtractEq(counter, op, ep, e1.right, e2);
    assert e1.left.Valid() && e1.left.tree == left && e1.left.Repr == leftNodes;
    e1.SetRight(r);
  }

  /** The second expression is a group and the first is not. */
  method ExtractSecond(counter: Counter, op: Op, ep: Node?, e1: Node, e2: Node)
      returns (ep': Node?, r1: Node, r2: Node)
    requires !HasOp(e1.tag, op) && HasOp(e2.tag, op)
    requires Sure(ep) && e1.Valid() && e2.Valid() && e1.Repr !! e2.Repr && Nodes(ep) !! e1.Repr + e2.Repr
    modifies counter, e1.Repr, e2.Repr
    ensures counter.transCount == old(counter.transCount)
    ensures Sure(ep') && r1.Valid() && r2.Valid() && r1.Repr !! r2.Repr && Nodes(ep') !! r1.Repr + r2.Repr
    ensures fresh(r1.Repr - old(e1.Repr)) && fresh(r2.Repr - old(e2.Repr))
    ensures fresh(Nodes(ep') - old(Nodes(ep)) - old(e1.Repr))
    ensures (Moved(ep'), r1.tree, r2.tree) == KconfigEq.ExtractEq(op, old(Moved(ep)), old(e1.tree), old(e2.tree))
    decreases Size(e1.tree) + Size(e2.tree), 1
  {
    ghost var bound := Size(e1.tree) + Size(e2.tree);
    ghost var nodes;
    ep', r1, nodes := ExtractWithLeft(counter, op, ep, e1, e2);
    ep', r1 := ExtractWithRight(counter, op, ep', r1, e2, nodes, bound);
    r2 := e2;
  }

  method ExtractWithLeft(counter: Counter, op: Op, ep: Node?, e1: Node, e2: Node)
      returns (ep': Node?, r1: Node, ghost nodes: set<Node>)
    requires !HasOp(e1.tag, op) && HasOp(e2.tag, op)
    requires Sure(ep) && e1.Valid() && e2.Valid() && e1.Repr !! e2.Repr && Nodes(ep) !! e1.Repr + e2.Repr
    modifies counter, e1.Repr, e2.Repr
    ensures counter.transCount == old(counter.transCount)
    ensures Sure(ep') && e2.Open(nodes) && r1.Valid() && r1.Repr !! nodes && Nodes(ep') !! nodes + r1.Repr
    ensures fresh(r1.Repr - old(e1.Repr)) && fresh(nodes - old(e2.Repr))
    ensures fresh(Nodes(ep') - old(Nodes(ep)) - old(e1.Repr))
    ensures e2.tag == old(e2.tag) && e2.right == old(e2.right) && e2.right.tree == old(e2.right.tree)
    ensures (Moved(ep'), r1.tree, e2.left.tree)
         == KconfigEq.ExtractEq(op, old(Moved(ep)), old(e1.tree), old(e2.left.tree))
    decreases Size(e1.tree) + Size(e2.tree), 0
  {
    ghost var right, rightNodes := e2.right.tree, e2.right.Repr;
    var l;
    ep', r1, l := ExtractEq(counter, op, ep, e1, e2.left);
    assert e2.right.Valid() && e2.right.tree == right && e2.right.Repr == rightNodes;
    nodes := e2.SetLeft(l);
  }

  method ExtractWithRight(counter: Counter, op: Op, ep: Node?, e1: Node, e2: Node, ghost nodes: set<Node>,
      ghost bound: nat)
    returns (ep': Node?, r1: Node)
    requires HasOp(e2.tag, op) && e2.Open(nodes) && Size(e1.tree) + Size(e2.right.tree) < bound
    requires Sure(ep) && e1.Valid() && e1.Repr !! nodes && Nodes(ep) !! nodes + e1.Repr
    modifies counter, e1.Repr, nodes
    ensures counter.transCount == old(counter.transCount)
    ensures Sure(ep') && r1.Valid() && e2.Valid() && r1.Repr !! e2.Repr && Nodes(ep') !! r1.Repr + e2.Repr
    ensures fresh(r1.Repr - old(e1.Repr)) && fresh(e2.Repr - nodes)
    ensures fresh(Nodes(ep') - old(Nodes(ep)) - old(e1.Repr))
    ensures var (m, z, r) := KconfigEq.ExtractEq(op, old(Moved(ep)), old(e1.tree), old(e2.right.tree));
            Moved(ep') == m && r1.tree == z && e2.tree == Build(op, old(e2.left.tree), r)
    decreases bound, 0
  {
    ghost var left, leftNodes := e2.left.tree, e2.left.Repr;
    var r;
    ep', r1, r := ExtractEq(counter, op, ep, e1, e2.right);
    assert e2.left.Valid() && e2.left.tree == left && e2.left.Repr == leftNodes;
    e2.SetRight(r);
  }

  /** expr_extract_eq_and and expr_extract_eq_or. */
  method ExtractEqOp(counter: Counter, op: Op, e1: Node, e2: Node) returns (ep: Node?, r1: Node, r2: Node)
    requires e1.Valid() && e2.Valid() && e1.Repr !! e2.Repr
    modifies counter, e1.Repr, e2.Repr
    ensures counter.transCount == old(counter.transCount)
    ensures Sure(ep) && r1.Valid() && r2.Valid() && fresh(r1.Repr - old(e1.Repr)) && fresh(r2.Repr - old(e2.Repr))
    ensures (Moved(ep), r1.tree, r2.tree) == KconfigEq.ExtractEqOp(op, old(e1.tree), old(e2.tree))
  {
    ep, r1, r2 := ExtractEq(counter, op, null, e1, e2);
    if ep != null {
      r1 := EliminateYn(r1);
      r2 := EliminateYn(r2);
    }
  }
}
