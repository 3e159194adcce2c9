/** expr_transform on heap nodes: NOT nodes and the groups under them are turned
    into each other, and only the second NOT of a pushed pair is new. */
module KconfigTransformInPlace {
  import opened KconfigExpr
  import opened KconfigTransform
  import opened KconfigInPlace

  /** A comparison of a boolean symbol with a constant, in place. */
  method TransformComparison(e: Node)
    requires e.Valid() && (e.tag == TEqual || e.tag == TUnequal)
    modifies e.Repr
    ensures e.Valid() && fresh(e.Repr - old(e.Repr)) && e.tree == KconfigTransform.Transform(old(e.tree))
  {
    if !IsKind(e.a, Boolean) {
      return;
    }
    if e.b == Mod {
      e.BecomeSymbol(if e.tag == TEqual then No else Yes);
    } else if e.b == if e.tag == TEqual then Yes else No {
      e.BecomeSymbol(e.a);
    } else if e.b == if e.tag == TEqual then No else Yes {
      var x := new Node.Symbol(e.a);
      e.tag, e.left := TNot, x;
      e.tree, e.Repr := Not(x.tree), {e, x};
    }
  }

  /** !(a || b) to !a && !b, and the dual: the NOT node becomes the group, the
      group becomes the NOT over its left operand. */
  method PushNot(e: Node)
    requires e.Valid() && e.tag == TNot && (e.left.tag == TAnd || e.left.tag == TOr)
    modifies e.Repr
    ensures e.Valid() && fresh(e.Repr - old(e.Repr))
    ensures old(e.left.tree).Or? ==> e.tree == And(Not(old(e.left.tree).l), Not(old(e.left.tree).r))
    ensures old(e.left.tree).And? ==> e.tree == Or(Not(old(e.left.tree).l), Not(old(e.left.tree).r))
  {
    var group := e.left;
    var right := new Node.Negation(group.right);
    e.tag := if group.tag == TOr then TAnd else TOr;
    group.BecomeNot();
    assert right.left.Valid();
    e.right := right;
    e.Regroup();
  }

  method TransformGroup(e: Node)
    requires e.Valid() && (e.tag == TAnd || e.tag == TOr)
    modifies e.Repr
    ensures e.Valid() && fresh(e.Repr - old(e.Repr)) && e.tree == KconfigTransform.Transform(old(e.tree))
    decreases Weight(e.tree), 0
  {
    ghost var right, rightNodes := e.right.tree, e.right.Repr;
    var l := Transform(e.left);
    assert e.right.Valid() && e.right.tree == right && e.right.Repr == rightNodes;
    ghost var nodes := e.SetLeft(l);
    var x := Transform(e.right);
    e.SetRight(x);
  }

  method Transform(e: Node) returns (r: Node)
    requires e.Valid()
    modifies e.Repr
    ensures r.Valid() && fresh(r.Repr - old(e.Repr)) && r.tree == KconfigTransform.Transform(old(e.tree))
    decreases Weight(e.tree), 1
  {
    WeightPositive(e.tree);
    r := e;
    if e.tag == TAnd || e.tag == TOr {
      TransformGroup(e);
    } else if e.tag == TNot {
      WeightPositive(e.tree.e);
      var l := Transform(e.left);
      e.left := l;
      e.tree, e.Repr := Not(l.tree), {e} + l.Repr;
      r := Negate(e);
    } else if e.tag != TSymbol {
      TransformComparison(e);
    }
  }

  /** The second half, for a NOT node whose operand is transformed. */
  method Negate(e: Node) returns (r: Node)
    requires e.Valid() && e.tag == TNot
    modifies e.Repr
    ensures r.Valid() && fresh(r.Repr - old(e.Repr)) && r.tree == KconfigTransform.Negate(old(e.left.tree))
    decreases 2 * Weight(e.left.tree), 0
  {
    var x := e.left;
    WeightPositive(x.tree);
    if x.tag == TNot {
      WeightPositive(x.left.tree);
      r := Transform(x.left);
    } else if x.tag == TEqual || x.tag == TUnequal {
      r := x;
      r.tag := if x.tag == TEqual then TUnequal else TEqual;
      r.tree := if r.tag == TEqual then Equal(r.a, r.b) else Unequal(r.a, r.b);
    } else if x.tag == TAnd || x.tag == TOr {
      PushedWeight(x.left.tree, x.right.tree);
      PushNot(e);
      r := Transform(e);
    } else {
      r := e;
      if x.a == Yes {
        r := x;
        r.BecomeSymbol(No);
      } else if x.a == Mod {
        r := x;
      } else if x.a == No {
        r := x;
        r.BecomeSymbol(Yes);
      }
    }
  }
}
