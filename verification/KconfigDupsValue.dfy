/** What expr_eliminate_dups does to the meaning, and that it stops. */
module KconfigDupsValue {
  import opened KconfigExpr
  import opened KconfigYn
  import opened KconfigTransform
  import opened KconfigEq
  import opened KconfigJoin
  import opened KconfigSlots
  import opened KconfigDups

  // ---------------------------------------------------------------- dups1 is exact

  lemma JoinSlotsValue(op: Op, root: Expr, p: Path, q: Path, env: Env)
    requires Valid(env) && OnSpine(op, root, p) && OnSpine(op, root, q) && p != q
    requires !IsOp(Get(op, root, p), op) && !IsOp(Get(op, root, q), op)
    ensures Value(JoinSlots(op, root, p, q).0, env) == Value(root, env)
  {
    var e1, e2 := Get(op, root, p), Get(op, root, q);
    if Join(op, e1, e2).Some? {
      var y := Join(op, e1, e2).value;
      JoinValue(op, e1, e2, env);
      UnitLaws(op, Value(y, env), env);
      TwoSlots(op, root, p, q, Unit(op), y, env);
    }
  }

  /** Joining operands never changes the value, whatever the tristates are. */
  lemma {:induction false} Dups1Value(op: Op, root: Expr, p: Path, q: Path, env: Env)
    requires Valid(env) && OnSpine(op, root, p) && OnSpine(op, root, q)
    ensures Value(Dups1(op, root, p, q).0, env) == Value(root, env)
    decreases Size(root), SpineSize(op, Get(op, root, p)), SpineSize(op, Get(op, root, q))
  {
    var (e1, e2) := (Get(op, root, p), Get(op, root, q));
    if IsOp(e1, op) {
      Descend(op, root, p, false);
      Descend(op, root, p, true);
      var (r1, n1) := Dups1(op, root, p + [false], q);
      SpineSlots(op, root, r1, p + [true]);
      SpineSlots(op, root, r1, q);
      Dups1Value(op, root, p + [false], q, env);
      Dups1Value(op, r1, p + [true], q, env);
    } else if IsOp(e2, op) {
      Descend(op, root, q, false);
      Descend(op, root, q, true);
      var (r1, n1) := Dups1(op, root, p, q + [false]);
      SpineSlots(op, root, r1, p);
      SpineSlots(op, root, r1, q + [true]);
      Dups1Value(op, root, p, q + [false], env);
      Dups1Value(op, r1, p, q + [true], env);
    } else if p != q {
      SlotSize(op, root, p);
      var (x, n1) := if IsGroup(e1) then Dups1(OpOf(e1), e1, [], []) else (e1, 0);
      if IsGroup(e1) {
        Dups1Value(OpOf(e1), e1, [], [], env);
      }
      PutLeaf(op, root, p, x);
      PutOther(op, root, p, q, x);
      SlotValue(op, root, p, x, env);
      JoinSlotsValue(op, Put(op, root, p, x), p, q, env);
    }
  }

  // ---------------------------------------------------------------- dups2 sharpens

  /** m may become anything; n and y stay. */
  predicate Sharpens(v: Tri, v': Tri) {
    v == 1 || v' == v
  }

  lemma SharpenOperand(op: Op, v: Tri, v': Tri, w: Tri)
    requires Sharpens(v, v')
    ensures Sharpens(Combine(op, v, w), Combine(op, v', w))
  {
  }

  lemma SharpenSlot(op: Op, root: Expr, p: Path, x: Expr, env: Env)
    requires OnSpine(op, root, p) && Sharpens(Value(Get(op, root, p), env), Value(x, env))
    ensures Sharpens(Value(root, env), Value(Put(op, root, p, x), env))
  {
    SlotValue(op, root, p, x, env);
    SharpenOperand(op, Value(Get(op, root, p), env), Value(x, env), Rest(op, root, p, env));
  }

  /** A group is at least as decided as any of its parts. */
  lemma SlotAbsorbs(op: Op, root: Expr, p: Path, env: Env)
    requires OnSpine(op, root, p)
    ensures Combine(op, Value(root, env), Value(Get(op, root, p), env)) == Value(root, env)
  {
    SlotValue(op, root, p, root, env);
    CombineLaws(op, Value(Get(op, root, p), env), Rest(op, root, p, env), Value(Get(op, root, p), env), 0);
    CombineSwap(op, Value(Get(op, root, p), env), Rest(op, root, p, env), 0);
  }

  /** If the negation of x cancels against e2, then e2 is no better than the
      negation of x. */
  lemma ContradictsValue(op: Op, x: Expr, e2: Expr, env: Env)
    requires Valid(env) && Contradicts(op, x, e2)
    ensures Combine(op, Value(e2, env), 2 - Value(x, env)) == Value(e2, env)
  {
    var t := Transform(Not(x));
    TransformValue(Not(x), env);
    assert Value(t, env) == 2 - Value(x, env);
    ExtractEqExact(op, t, e2, env);
    var common := ValueOr(op, ExtractEqOp(op, t, e2).0, env);
    var left := Value(ExtractEqOp(op, t, e2).2, env);
    UnitLaws(op, common, env);
    CombineLaws(op, common, left, common, 0);
    CombineSwap(op, common, left, 0);
  }

  /** Collapsing a contradictory operand: the group was m or already decided. */
  lemma CollapseSharpens(op: Op, root: Expr, p: Path, q: Path, env: Env)
    requires Valid(env) && OnSpine(op, root, p) && OnSpine(op, root, q)
    requires Contradicts(op, Get(op, root, p), Get(op, root, q))
    ensures Sharpens(Value(root, env), Value(Put(op, root, p, Absorber(op)), env))
  {
    ContradictsValue(op, Get(op, root, p), Get(op, root, q), env);
    SlotAbsorbs(op, root, p, env);
    SlotAbsorbs(op, root, q, env);
    SlotValue(op, root, p, Absorber(op), env);
    Squeezed(op, Value(root, env), Value(Get(op, root, p), env), Value(Get(op, root, q), env), Rest(op, root, p, env));
  }

  lemma Squeezed(op: Op, v: Tri, x: Tri, y: Tri, rest: Tri)
    requires Combine(op, v, x) == v && Combine(op, v, y) == v && Combine(op, y, 2 - x) == y
    ensures Sharpens(v, Combine(op, if op == AndOp then 0 else 2, rest))
  {
  }

  lemma {:induction false} Dups2Value(op: Op, root: Expr, p: Path, q: Path, env: Env)
    requires Valid(env) && OnSpine(op, root, p) && OnSpine(op, root, q)
    ensures Sharpens(Value(root, env), Value(Dups2(op, root, p, q).0, env))
    decreases Size(root), SpineSize(op, Get(op, root, p)), SpineSize(op, Get(op, root, q)), 1
  {
    if IsOp(Get(op, root, p), op) {
      Descend(op, root, p, false);
      Descend(op, root, p, true);
      var (r1, n1) := Dups2(op, root, p + [false], q);
      SpineSlots(op, root, r1, p + [true]);
      SpineSlots(op, root, r1, q);
      Dups2Value(op, root, p + [false], q, env);
      Dups2Value(op, r1, p + [true], q, env);
    } else {
      Dups2LeafValue(op, root, p, q, env);
    }
  }

  lemma {:induction false} Dups2LeafValue(op: Op, root: Expr, p: Path, q: Path, env: Env)
    requires Valid(env) && OnSpine(op, root, p) && OnSpine(op, root, q) && !IsOp(Get(op, root, p), op)
    ensures Sharpens(Value(root, env), Value(Dups2(op, root, p, q).0, env))
    decreases Size(root), SpineSize(op, Get(op, root, p)), SpineSize(op, Get(op, root, q)), 0, 1
  {
    var (r1, n1) := Dups2Inner(op, root, p, q);
    Dups2InnerValue(op, root, p, q, env);
    SpineSlots(op, root, r1, p);
    SpineSlots(op, root, r1, q);
    var e1 := Get(op, r1, p);
    if p != q && IsGroup(e1) {
      SlotSize(op, r1, p);
      var (x, n2) := Dups2(OpOf(e1), e1, [], []);
      Dups2Value(OpOf(e1), e1, [], [], env);
      PutLeaf(op, r1, p, x);
      SharpenSlot(op, r1, p, x, env);
      var r2 := Put(op, r1, p, x);
      SpineSlots(op, r1, r2, q);
      if Contradicts(op, x, Get(op, r2, q)) {
        CollapseSharpens(op, r2, p, q, env);
      }
    }
  }

  lemma {:induction false} Dups2InnerValue(op: Op, root: Expr, p: Path, q: Path, env: Env)
    requires Valid(env) && OnSpine(op, root, p) && OnSpine(op, root, q) && !IsOp(Get(op, root, p), op)
    ensures Sharpens(Value(root, env), Value(Dups2Inner(op, root, p, q).0, env))
    decreases Size(root), SpineSize(op, Get(op, root, p)), SpineSize(op, Get(op, root, q)), 0, 0
  {
    if IsOp(Get(op, root, q), op) {
      Descend(op, root, q, false);
      Descend(op, root, q, true);
      var (r1, n1) := Dups2(op, root, p, q + [false]);
      SpineSlots(op, root, r1, p);
      SpineSlots(op, root, r1, q + [true]);
      Dups2Value(op, root, p, q + [false], env);
      Dups2Value(op, r1, p, q + [true], env);
    }
  }
}
