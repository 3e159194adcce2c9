/** expr_transform: negations pushed to the symbols, comparisons of boolean
    symbols turned into plain tests. */
module KconfigTransform {
  import opened KconfigExpr
  import opened KconfigYn

  /** The measure that makes the rewriting stop.  Node count does not: pushing a
      NOT through a group adds a node before the group is transformed again. */
  function Weight(e: Expr): nat {
    match e
    case Sym(_) => 1
    case Not(x) => 2 * Weight(x)
    case And(l, r) => Weight(l) + Weight(r) + 1
    case Or(l, r) => Weight(l) + Weight(r) + 1
    case _ => 2
  }

  lemma {:induction false} WeightPositive(e: Expr)
    ensures Weight(e) >= 1
  {
    match e
    case Not(x) => WeightPositive(x);
    case _ =>
  }

  lemma PushedWeight(a: Expr, b: Expr)
    ensures Weight(And(Not(a), Not(b))) == 2 * Weight(a) + 2 * Weight(b) + 1
    ensures Weight(Or(Not(a), Not(b))) == 2 * Weight(a) + 2 * Weight(b) + 1
  {
    assert Weight(Not(a)) == 2 * Weight(a) && Weight(Not(b)) == 2 * Weight(b);
  }

  /** A comparison of a boolean symbol with one of the constants. */
  predicate BooleanTest(a: Symbol, b: Symbol) {
    IsKind(a, Boolean) && (b == Yes || b == Mod || b == No)
  }

  function Transform(e: Expr): (r: Expr)
    ensures Weight(r) <= Weight(e)
    decreases Weight(e), 1
  {
    match e
    case Sym(_) => e
    case Equal(a, b) =>
      if !IsKind(a, Boolean) then e
      else if b == No then Not(Sym(a))
      else if b == Mod then Sym(No)
      else if b == Yes then Sym(a)
      else e
    case Unequal(a, b) =>
      if !IsKind(a, Boolean) then e
      else if b == No then Sym(a)
      else if b == Mod then Sym(Yes)
      else if b == Yes then Not(Sym(a))
      else e
    case And(l, r) => And(Transform(l), Transform(r))
    case Or(l, r) => Or(Transform(l), Transform(r))
    case Not(x) =>
      WeightPositive(x);
      Negate(Transform(x))
  }

  /** The second half of expr_transform for a NOT whose operand is transformed. */
  function Negate(x: Expr): (r: Expr)
    ensures Weight(r) <= 2 * Weight(x)
    decreases 2 * Weight(x), 0
  {
    WeightPositive(x);
    match x
    case Not(y) => WeightPositive(y); Transform(y)
    case Equal(a, b) => Unequal(a, b)
    case Unequal(a, b) => Equal(a, b)
    case Or(a, b) => PushedWeight(a, b); Transform(And(Not(a), Not(b)))
    case And(a, b) => PushedWeight(a, b); Transform(Or(Not(a), Not(b)))
    case Sym(s) =>
      if s == Yes then Sym(No)
      else if s == Mod then Sym(Mod)
      else if s == No then Sym(Yes)
      else Not(x)
  }

  /** The meaning is the same in every valid environment. */
  lemma {:induction false} TransformValue(e: Expr, env: Env)
    requires Valid(env)
    ensures Value(Transform(e), env) == Value(e, env)
    decreases Weight(e), 1
  {
    match e
    case Sym(_) =>
    case Equal(a, b) =>
    case Unequal(a, b) =>
    case And(l, r) => TransformValue(l, env); TransformValue(r, env);
    case Or(l, r) => TransformValue(l, env); TransformValue(r, env);
    case Not(x) =>
      WeightPositive(x);
      TransformValue(x, env);
      NegateValue(Transform(x), env);
  }

  lemma {:induction false} NegateValue(x: Expr, env: Env)
    requires Valid(env)
    ensures Value(Negate(x), env) == 2 - Value(x, env)
    decreases 2 * Weight(x), 0
  {
    WeightPositive(x);
    match x
    case Not(y) => WeightPositive(y); TransformValue(y, env);
    case Equal(a, b) =>
    case Unequal(a, b) =>
    case Or(a, b) => PushedWeight(a, b); TransformValue(And(Not(a), Not(b)), env);
    case And(a, b) => PushedWeight(a, b); TransformValue(Or(Not(a), Not(b)), env);
    case Sym(s) =>
  }

  /** The form the rewriting arrives at. */
  predicate Normal(e: Expr) {
    match e
    case Sym(_) => true
    case Not(x) => x.Sym? && x.s.Named?
    case And(l, r) => Normal(l) && Normal(r)
    case Or(l, r) => Normal(l) && Normal(r)
    case Equal(a, b) => !BooleanTest(a, b)
    case Unequal(a, b) => !BooleanTest(a, b)
  }

  lemma {:induction false} NormalIsNnf(e: Expr)
    requires Normal(e)
    ensures Nnf(e)
  {
    match e
    case And(l, r) => NormalIsNnf(l); NormalIsNnf(r);
    case Or(l, r) => NormalIsNnf(l); NormalIsNnf(r);
    case _ =>
  }

  lemma {:induction false} TransformNormal(e: Expr)
    ensures Normal(Transform(e))
    decreases Weight(e), 1
  {
    match e
    case And(l, r) => TransformNormal(l); TransformNormal(r);
    case Or(l, r) => TransformNormal(l); TransformNormal(r);
    case Not(x) =>
      WeightPositive(x);
      TransformNormal(x);
      NegateNormal(Transform(x));
    case _ =>
  }

  lemma {:induction false} NegateNormal(x: Expr)
    requires Normal(x)
    ensures Normal(Negate(x))
    decreases 2 * Weight(x), 0
  {
    WeightPositive(x);
    match x
    case Not(y) => WeightPositive(y); TransformNormal(y);
    case Or(a, b) => PushedWeight(a, b); TransformNormal(And(Not(a), Not(b)));
    case And(a, b) => PushedWeight(a, b); TransformNormal(Or(Not(a), Not(b)));
    case _ =>
  }

  /** Exactly the expressions in that form are left alone... */
  lemma {:induction false} TransformFixes(e: Expr)
    ensures Transform(e) == e <==> Normal(e)
  {
    TransformNormal(e);
    if Normal(e) {
      NormalIsFixed(e);
    }
  }

  lemma {:induction false} NormalIsFixed(e: Expr)
    requires Normal(e)
    ensures Transform(e) == e
  {
    match e
    case And(l, r) => NormalIsFixed(l); NormalIsFixed(r);
    case Or(l, r) => NormalIsFixed(l); NormalIsFixed(r);
    case _ =>
  }

  /** ...so a second pass changes nothing, and the result is in negation normal
      form, as expr_trans_bool needs. */
  lemma TransformIdempotent(e: Expr)
    ensures Transform(Transform(e)) == Transform(e) && Nnf(Transform(e))
  {
    TransformNormal(e);
    NormalIsFixed(Transform(e));
    NormalIsNnf(Transform(e));
  }

  /** The symbols tested, from left to right. */
  function Tested(e: Expr): seq<Symbol> {
    match e
    case Sym(s) => [s]
    case Equal(a, _) => [a]
    case Unequal(a, _) => [a]
    case Not(x) => Tested(x)
    case And(l, r) => Tested(l) + Tested(r)
    case Or(l, r) => Tested(l) + Tested(r)
  }

  /** No constant stands alone, and no test of a boolean symbol for m will become one. */
  predicate NoConstant(e: Expr) {
    match e
    case Sym(s) => s.Named?
    case Equal(a, b) => !(IsKind(a, Boolean) && b == Mod)
    case Unequal(a, b) => !(IsKind(a, Boolean) && b == Mod)
    case Not(x) => NoConstant(x)
    case And(l, r) => NoConstant(l) && NoConstant(r)
    case Or(l, r) => NoConstant(l) && NoConstant(r)
  }

  /** The order of the tests is kept, through all the pushing of negations. */
  lemma {:induction false} TransformOrder(e: Expr)
    requires NoConstant(e)
    ensures Tested(Transform(e)) == Tested(e) && NoConstant(Transform(e))
    decreases Weight(e), 1
  {
    match e
    case And(l, r) => TransformOrder(l); TransformOrder(r);
    case Or(l, r) => TransformOrder(l); TransformOrder(r);
    case Not(x) =>
      WeightPositive(x);
      TransformOrder(x);
      NegateOrder(Transform(x));
    case _ =>
  }

  lemma {:induction false} NegateOrder(x: Expr)
    requires NoConstant(x)
    ensures Tested(Negate(x)) == Tested(x) && NoConstant(Negate(x))
    decreases 2 * Weight(x), 0
  {
    WeightPositive(x);
    match x
    case Not(y) => WeightPositive(y); TransformOrder(y);
    case Or(a, b) => PushedWeight(a, b); TransformOrder(And(Not(a), Not(b)));
    case And(a, b) => PushedWeight(a, b); TransformOrder(Or(Not(a), Not(b)));
    case _ =>
  }
}
