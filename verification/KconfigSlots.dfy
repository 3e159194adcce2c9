/** Slots of an expression tree.  The source passes `struct expr **` and may pass
    the same slot twice; here a slot is a path from one root, so two slots of
    one tree, aliased or not, are two paths, and a store through one of them is
    seen through the other. */
module KconfigSlots {
  import opened KconfigExpr

  /** false goes left, true goes right. */
  type Path = seq<bool>

  /** The path descends through groups of operator `op` only. */
  predicate OnSpine(op: Op, root: Expr, p: Path) {
    p == [] || (IsOp(root, op) && OnSpine(op, if p[0] then root.r else root.l, p[1..]))
  }

  function Get(op: Op, root: Expr, p: Path): Expr
    requires OnSpine(op, root, p)
  {
    if p == [] then root else Get(op, if p[0] then root.r else root.l, p[1..])
  }

  function Put(op: Op, root: Expr, p: Path, x: Expr): Expr
    requires OnSpine(op, root, p)
  {
    if p == [] then x
    else if p[0] then Build(op, root.l, Put(op, root.r, p[1..], x))
    else Build(op, Put(op, root.l, p[1..], x), root.r)
  }

  /** Both trees split into operands of `op` at the same places. */
  predicate SameSpine(op: Op, a: Expr, b: Expr) {
    && (IsOp(a, op) <==> IsOp(b, op))
    && (IsOp(a, op) ==> SameSpine(op, a.l, b.l) && SameSpine(op, a.r, b.r))
  }

  /** The number of groups of `op` at the top of the tree. */
  function SpineSize(op: Op, e: Expr): nat {
    if IsOp(e, op) then 1 + SpineSize(op, e.l) + SpineSize(op, e.r) else 0
  }

  lemma {:induction false} SameSpineRefl(op: Op, a: Expr)
    ensures SameSpine(op, a, a)
  {
    if IsOp(a, op) {
      SameSpineRefl(op, a.l);
      SameSpineRefl(op, a.r);
    }
  }

  lemma {:induction false} SameSpineTrans(op: Op, a: Expr, b: Expr, c: Expr)
    requires SameSpine(op, a, b) && SameSpine(op, b, c)
    ensures SameSpine(op, a, c)
  {
    if IsOp(a, op) {
      SameSpineTrans(op, a.l, b.l, c.l);
      SameSpineTrans(op, a.r, b.r, c.r);
    }
  }

  /** Slots stay slots, with the same shape below them. */
  lemma {:induction false} SpineSlots(op: Op, a: Expr, b: Expr, p: Path)
    requires SameSpine(op, a, b) && OnSpine(op, a, p)
    ensures OnSpine(op, b, p) && SameSpine(op, Get(op, a, p), Get(op, b, p))
    ensures SpineSize(op, Get(op, a, p)) == SpineSize(op, Get(op, b, p))
  {
    if p == [] {
      SpineSizes(op, a, b);
    } else if p[0] {
      SpineSlots(op, a.r, b.r, p[1..]);
    } else {
      SpineSlots(op, a.l, b.l, p[1..]);
    }
  }

  lemma {:induction false} SpineSizes(op: Op, a: Expr, b: Expr)
    requires SameSpine(op, a, b)
    ensures SpineSize(op, a) == SpineSize(op, b)
  {
    if IsOp(a, op) {
      SpineSizes(op, a.l, b.l);
      SpineSizes(op, a.r, b.r);
    }
  }

  /** Descending one step below a slot that holds a group of `op`. */
  lemma {:induction false} Descend(op: Op, root: Expr, p: Path, right: bool)
    requires OnSpine(op, root, p) && IsOp(Get(op, root, p), op)
    ensures OnSpine(op, root, p + [right])
    ensures Get(op, root, p + [right]) == if right then Get(op, root, p).r else Get(op, root, p).l
  {
    if p == [] {
      assert p + [right] == [right];
      assert OnSpine(op, if right then root.r else root.l, []);
    } else {
      assert (p + [right])[1..] == p[1..] + [right];
      Descend(op, if p[0] then root.r else root.l, p[1..], right);
    }
  }

  /** Storing an operand in an operand's slot: shape, contents and size. */
  lemma {:induction false} PutLeaf(op: Op, root: Expr, p: Path, x: Expr)
    requires OnSpine(op, root, p) && !IsOp(Get(op, root, p), op) && !IsOp(x, op)
    ensures SameSpine(op, root, Put(op, root, p, x))
    ensures OnSpine(op, Put(op, root, p, x), p) && Get(op, Put(op, root, p, x), p) == x
    ensures Size(Put(op, root, p, x)) == Size(root) - Size(Get(op, root, p)) + Size(x)
  {
    if p != [] {
      PutLeaf(op, if p[0] then root.r else root.l, p[1..], x);
      SameSpineRefl(op, root.l);
      SameSpineRefl(op, root.r);
    }
  }

  /** Two different operands' slots do not overlap. */
  lemma {:induction false} PutOther(op: Op, root: Expr, p: Path, q: Path, x: Expr)
    requires OnSpine(op, root, p) && OnSpine(op, root, q) && p != q
    requires !IsOp(Get(op, root, p), op) && !IsOp(Get(op, root, q), op) && !IsOp(x, op)
    ensures OnSpine(op, Put(op, root, p, x), q)
    ensures Get(op, Put(op, root, p, x), q) == Get(op, root, q)
  {
    assert p != [] && q != [];
    if p[0] == q[0] {
      PutOther(op, if p[0] then root.r else root.l, p[1..], q[1..], x);
    }
  }

  lemma {:induction false} SlotSize(op: Op, root: Expr, p: Path)
    requires OnSpine(op, root, p)
    ensures Size(Get(op, root, p)) <= Size(root)
    ensures p != [] ==> Size(Get(op, root, p)) < Size(root)
  {
    if p != [] {
      SlotSize(op, if p[0] then root.r else root.l, p[1..]);
    }
  }

  /** The value of the tree with the operand in slot p left out. */
  function Rest(op: Op, root: Expr, p: Path, env: Env): Tri
    requires OnSpine(op, root, p)
  {
    if p == [] then (if op == AndOp then 2 else 0)
    else if p[0] then Combine(op, Value(root.l, env), Rest(op, root.r, p[1..], env))
    else Combine(op, Value(root.r, env), Rest(op, root.l, p[1..], env))
  }

  /** A group is its operand combined with the rest, whatever the operand is. */
  lemma {:induction false} SlotValue(op: Op, root: Expr, p: Path, x: Expr, env: Env)
    requires OnSpine(op, root, p)
    ensures Value(root, env) == Combine(op, Value(Get(op, root, p), env), Rest(op, root, p, env))
    ensures Value(Put(op, root, p, x), env) == Combine(op, Value(x, env), Rest(op, root, p, env))
  {
    if p == [] {
      CombineSwap(op, Value(root, env), Rest(op, root, p, env), 0);
    } else {
      var (down, side) := if p[0] then (root.r, root.l) else (root.l, root.r);
      SlotValue(op, down, p[1..], x, env);
      GroupValue(op, root, p, env);
      GroupValue(op, Put(op, root, p, x), p, env);
      CombineSwap(op, Value(side, env), Value(Get(op, root, p), env), Rest(op, down, p[1..], env));
      CombineSwap(op, Value(side, env), Value(x, env), Rest(op, down, p[1..], env));
    }
  }

  /** The two halves of a group, the half on the path second. */
  lemma GroupValue(op: Op, root: Expr, p: Path, env: Env)
    requires IsOp(root, op) && p != []
    ensures Value(root, env) ==
            Combine(op, Value(if p[0] then root.l else root.r, env), Value(if p[0] then root.r else root.l, env))
  {
    ValueOfGroup(op, root, env);
    CombineSwap(op, Value(root.l, env), Value(root.r, env), 0);
  }

  /** Replacing two operands by two others that combine to the same value leaves
      the value of the whole group unchanged. */
  lemma {:induction false} TwoSlots(op: Op, root: Expr, p: Path, q: Path, x: Expr, y: Expr, env: Env)
    requires OnSpine(op, root, p) && OnSpine(op, root, q) && p != q
    requires !IsOp(Get(op, root, p), op) && !IsOp(Get(op, root, q), op) && !IsOp(x, op)
    requires Combine(op, Value(x, env), Value(y, env))
          == Combine(op, Value(Get(op, root, p), env), Value(Get(op, root, q), env))
    ensures OnSpine(op, Put(op, root, p, x), q)
    ensures Value(Put(op, Put(op, root, p, x), q, y), env) == Value(root, env)
  {
    PutOther(op, root, p, q, x);
    if p[0] == q[0] {
      TwoSlots(op, if p[0] then root.r else root.l, p[1..], q[1..], x, y, env);
      GroupValue(op, root, p, env);
      GroupValue(op, Put(op, Put(op, root, p, x), q, y), p, env);
    } else {
      TwoSides(op, root, p, q, x, y, env);
    }
  }

  lemma TwoSides(op: Op, root: Expr, p: Path, q: Path, x: Expr, y: Expr, env: Env)
    requires OnSpine(op, root, p) && OnSpine(op, root, q) && p != [] && q != [] && p[0] != q[0]
    requires OnSpine(op, Put(op, root, p, x), q)
    requires Combine(op, Value(x, env), Value(y, env))
          == Combine(op, Value(Get(op, root, p), env), Value(Get(op, root, q), env))
    ensures Value(Put(op, Put(op, root, p, x), q, y), env) == Value(root, env)
  {
    var (a, b) := if p[0] then (root.r, root.l) else (root.l, root.r);
    SlotValue(op, a, p[1..], x, env);
    SlotValue(op, b, q[1..], y, env);
    GroupValue(op, root, q, env);
    GroupValue(op, Put(op, Put(op, root, p, x), q, y), q, env);
    var ra, rb := Rest(op, a, p[1..], env), Rest(op, b, q[1..], env);
    CombineLaws(op, Value(x, env), Value(y, env), ra, rb);
    CombineLaws(op, Value(Get(op, root, p), env), Value(Get(op, root, q), env), ra, rb);
  }
}
