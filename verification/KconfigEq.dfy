/** expr_eq, expr_eliminate_eq and expr_extract_eq: comparing two groups by
    cancelling their operands pairwise. */
module KconfigEq {
  import opened Basics
  import opened KconfigExpr
  import opened KconfigYn

  /** __expr_eliminate_eq: every pair of equal operands of the two groups of
      operator `op` is replaced by the operator's unit on both sides. */
  function CancelEq(op: Op, e1: Expr, e2: Expr): (r: (Expr, Expr))
    ensures Size(r.0) <= Size(e1) && Size(r.1) <= Size(e2)
    ensures IsOp(e1, op) ==> IsOp(r.0, op)
    ensures IsOp(e2, op) ==> IsOp(r.1, op)
    decreases Size(e1) + Size(e2), if IsOp(e1, op) || IsOp(e2, op) then 0 else 3
  {
    if IsOp(e1, op) then
      var (l, e2') := CancelEq(op, e1.l, e2);
      var (r, e2'') := CancelEq(op, e1.r, e2');
      (Build(op, l, r), e2'')
    else if IsOp(e2, op) then
      var (e1', l) := CancelEq(op, e1, e2.l);
      var (e1'', r) := CancelEq(op, e1', e2.r);
      (e1'', Build(op, l, r))
    else if e1.Sym? && e2.Sym? && e1.s == e2.s && YesOrNoFlag(e1.s) then (e1, e2)
    else if !ExprEq(e1, e2) then (e1, e2)
    else (Unit(op), Unit(op))
  }

  /** The first cancelling pass of expr_eliminate_eq. */
  function FirstPass(e1: Expr, e2: Expr): (r: (Expr, Expr))
    ensures Size(r.0) <= Size(e1) && Size(r.1) <= Size(e2)
    decreases Size(e1) + Size(e2), 1, 0
  {
    if IsGroup(e1) then CancelEq(OpOf(e1), e1, e2) else (e1, e2)
  }

  /** The second pass, if the second expression is another kind of group. */
  function SecondPass(e1: Expr, e2: Expr): (r: (Expr, Expr))
    ensures Size(r.0) <= Size(e1) && Size(r.1) <= Size(e2)
    decreases Size(e1) + Size(e2), 1, 0
  {
    if IsGroup(e2) && !IsOp(e1, OpOf(e2)) then CancelEq(OpOf(e2), e1, e2) else (e1, e2)
  }

  function EliminateEq(e1: Expr, e2: Expr): (r: (Expr, Expr))
    ensures Size(r.0) <= Size(e1) && Size(r.1) <= Size(e2)
    decreases Size(e1) + Size(e2), 1, 1
  {
    var (a, b) := FirstPass(e1, e2);
    var (c, d) := SecondPass(a, b);
    (EliminateYn(c), EliminateYn(d))
  }

  predicate ExprEq(e1: Expr, e2: Expr)
    decreases Size(e1) + Size(e2), 2
  {
    match (e1, e2)
    case (Sym(s), Sym(t)) => s == t
    case (Not(x), Not(y)) => ExprEq(x, y)
    case (Equal(a, b), Equal(c, d)) => a == c && b == d
    case (Unequal(a, b), Unequal(c, d)) => a == c && b == d
    case (And(_, _), And(_, _)) =>
      var (a, b) := EliminateEq(e1, e2);
      a.Sym? && b.Sym? && a.s == b.s
    case (Or(_, _), Or(_, _)) =>
      var (a, b) := EliminateEq(e1, e2);
      a.Sym? && b.Sym? && a.s == b.s
    case _ => false
  }

  /** What was cancelled is a common factor of both sides. */
  lemma {:induction false} CancelEqFactor(op: Op, e1: Expr, e2: Expr, env: Env) returns (c: Tri)
    requires Valid(env)
    ensures Value(e1, env) == Combine(op, c, Value(CancelEq(op, e1, e2).0, env))
    ensures Value(e2, env) == Combine(op, c, Value(CancelEq(op, e1, e2).1, env))
    decreases Size(e1) + Size(e2), if IsOp(e1, op) || IsOp(e2, op) then 0 else 3
  {
    if IsOp(e1, op) {
      var (l, e2') := CancelEq(op, e1.l, e2);
      var (r, e2'') := CancelEq(op, e1.r, e2');
      var c1 := CancelEqFactor(op, e1.l, e2, env);
      var c2 := CancelEqFactor(op, e1.r, e2', env);
      c := Combine(op, c1, c2);
      JoinFactors(op, e1, l, r, c1, c2, env);
      CombineLaws(op, c1, c2, Value(e2'', env), 0);
    } else if IsOp(e2, op) {
      var (e1', l) := CancelEq(op, e1, e2.l);
      var (e1'', r) := CancelEq(op, e1', e2.r);
      var c1 := CancelEqFactor(op, e1, e2.l, env);
      var c2 := CancelEqFactor(op, e1', e2.r, env);
      c := Combine(op, c1, c2);
      JoinFactors(op, e2, l, r, c1, c2, env);
      CombineLaws(op, c1, c2, Value(e1'', env), 0);
    } else {
      c := CancelLeaves(op, e1, e2, env);
    }
  }

  lemma JoinFactors(op: Op, e: Expr, l: Expr, r: Expr, c1: Tri, c2: Tri, env: Env)
    requires IsOp(e, op)
    requires Value(e.l, env) == Combine(op, c1, Value(l, env)) && Value(e.r, env) == Combine(op, c2, Value(r, env))
    ensures Value(e, env) == Combine(op, Combine(op, c1, c2), Value(Build(op, l, r), env))
  {
    ValueOfGroup(op, e, env);
    ValueOfBuild(op, l, r, env);
    CombineLaws(op, c1, c2, Value(l, env), Value(r, env));
  }

  lemma {:induction false} CancelLeaves(op: Op, e1: Expr, e2: Expr, env: Env) returns (c: Tri)
    requires Valid(env) && !IsOp(e1, op) && !IsOp(e2, op)
    ensures Value(e1, env) == Combine(op, c, Value(CancelEq(op, e1, e2).0, env))
    ensures Value(e2, env) == Combine(op, c, Value(CancelEq(op, e1, e2).1, env))
    decreases Size(e1) + Size(e2), 2, 1
  {
    if (e1.Sym? && e2.Sym? && e1.s == e2.s && YesOrNoFlag(e1.s)) || !ExprEq(e1, e2) {
      c := Value(Unit(op), env);
      UnitLaws(op, Value(e1, env), env);
      UnitLaws(op, Value(e2, env), env);
    } else {
      ExprEqSound(e1, e2, env);
      c := Value(e1, env);
      UnitLaws(op, c, env);
    }
  }

  /** expr_eq is sound: expressions it calls equal have the same value in every
      valid environment. */
  lemma {:induction false} ExprEqSound(e1: Expr, e2: Expr, env: Env)
    requires Valid(env) && ExprEq(e1, e2)
    ensures Value(e1, env) == Value(e2, env)
    decreases Size(e1) + Size(e2), 2, 0
  {
    match (e1, e2)
    case (Not(x), Not(y)) => ExprEqSound(x, y, env);
    case (And(_, _), And(_, _)) => GroupsEqual(AndOp, e1, e2, env);
    case (Or(_, _), Or(_, _)) => GroupsEqual(OrOp, e1, e2, env);
    case _ =>
  }

  lemma {:induction false} GroupsEqual(op: Op, e1: Expr, e2: Expr, env: Env)
    requires Valid(env) && IsOp(e1, op) && IsOp(e2, op) && ExprEq(e1, e2)
    ensures Value(e1, env) == Value(e2, env)
    decreases Size(e1) + Size(e2), 1
  {
    var (a, b) := CancelEq(op, e1, e2);
    assert FirstPass(e1, e2) == (a, b) && SecondPass(a, b) == (a, b);
    var c := CancelEqFactor(op, e1, e2, env);
    EliminateYnValue(a, env);
    EliminateYnValue(b, env);
    assert EliminateYn(a) == EliminateYn(b);
  }

  /** If what is left of the second expression is y, the first one never exceeds
      it: a condition m or y under the first is at least as much under the second. */
  lemma EliminateEqDominates(e1: Expr, e2: Expr, env: Env)
    requires Valid(env) && EliminateEq(e1, e2).1 == Sym(Yes)
    ensures Value(e1, env) <= Value(e2, env)
  {
    var (a, b) := FirstPass(e1, e2);
    EliminateYnValue(SecondPass(a, b).1, env);
    SecondPassOrder(a, b, env);
    FirstPassOrder(e1, e2, env);
  }

  lemma FirstPassOrder(e1: Expr, e2: Expr, env: Env)
    requires Valid(env) && Value(FirstPass(e1, e2).0, env) <= Value(FirstPass(e1, e2).1, env)
    ensures Value(e1, env) <= Value(e2, env)
  {
    if IsGroup(e1) {
      CancelKeepsOrder(OpOf(e1), e1, e2, env);
    }
  }

  /** Cancelling a common factor keeps the order. */
  lemma CancelKeepsOrder(op: Op, e1: Expr, e2: Expr, env: Env)
    requires Valid(env) && Value(CancelEq(op, e1, e2).0, env) <= Value(CancelEq(op, e1, e2).1, env)
    ensures Value(e1, env) <= Value(e2, env)
  {
    var c := CancelEqFactor(op, e1, e2, env);
  }

  lemma SecondPassOrder(e1: Expr, e2: Expr, env: Env)
    requires Valid(env) && Value(SecondPass(e1, e2).1, env) == 2
    ensures Value(e1, env) <= Value(e2, env)
  {
    if IsGroup(e2) && !IsOp(e1, OpOf(e2)) {
      CancelKeepsOrder(OpOf(e2), e1, e2, env);
    }
  }

  /** An optional expression; nothing extracted yet counts as the unit. */
  function ValueOr(op: Op, ep: Option<Expr>, env: Env): Tri {
    if ep.Some? then Value(ep.value, env) else if op == AndOp then 2 else 0
  }

  /** expr_extract_eq: like CancelEq, but collecting what is cancelled. */
  function ExtractEq(op: Op, ep: Option<Expr>, e1: Expr, e2: Expr): (r: (Option<Expr>, Expr, Expr))
    ensures Size(r.1) <= Size(e1) && Size(r.2) <= Size(e2)
    decreases Size(e1) + Size(e2)
  {
    if IsOp(e1, op) then
      var (ep', l, e2') := ExtractEq(op, ep, e1.l, e2);
      var (ep'', r, e2'') := ExtractEq(op, ep', e1.r, e2');
      (ep'', Build(op, l, r), e2'')
    else if IsOp(e2, op) then
      var (ep', e1', l) := ExtractEq(op, ep, e1, e2.l);
      var (ep'', e1'', r) := ExtractEq(op, ep', e1', e2.r);
      (ep'', e1'', Build(op, l, r))
    else if ExprEq(e1, e2) then
      (Some(if ep.Some? then Build(op, ep.value, e1) else e1), Unit(op), Unit(op))
    else (ep, e1, e2)
  }

  /** expr_extract_eq_and and expr_extract_eq_or. */
  function ExtractEqOp(op: Op, e1: Expr, e2: Expr): (r: (Option<Expr>, Expr, Expr)) {
    var (ep, a, b) := ExtractEq(op, None, e1, e2);
    if ep.Some? then (ep, EliminateYn(a), EliminateYn(b)) else (ep, a, b)
  }

  lemma {:induction false} ExtractEqFactor(op: Op, ep: Option<Expr>, e1: Expr, e2: Expr, env: Env) returns (d: Tri)
    requires Valid(env)
    ensures ValueOr(op, ExtractEq(op, ep, e1, e2).0, env) == Combine(op, ValueOr(op, ep, env), d)
    ensures Value(e1, env) == Combine(op, d, Value(ExtractEq(op, ep, e1, e2).1, env))
    ensures Value(e2, env) == Combine(op, d, Value(ExtractEq(op, ep, e1, e2).2, env))
    decreases Size(e1) + Size(e2)
  {
    if IsOp(e1, op) {
      var (ep', l, e2') := ExtractEq(op, ep, e1.l, e2);
      var (ep'', r, e2'') := ExtractEq(op, ep', e1.r, e2');
      var d1 := ExtractEqFactor(op, ep, e1.l, e2, env);
      var d2 := ExtractEqFactor(op, ep', e1.r, e2', env);
      d := Combine(op, d1, d2);
      JoinFactors(op, e1, l, r, d1, d2, env);
      CombineLaws(op, d1, d2, Value(e2'', env), 0);
      CombineLaws(op, ValueOr(op, ep, env), d1, d2, 0);
    } else if IsOp(e2, op) {
      var (ep', e1', l) := ExtractEq(op, ep, e1, e2.l);
      var (ep'', e1'', r) := ExtractEq(op, ep', e1', e2.r);
      var d1 := ExtractEqFactor(op, ep, e1, e2.l, env);
      var d2 := ExtractEqFactor(op, ep', e1', e2.r, env);
      d := Combine(op, d1, d2);
      JoinFactors(op, e2, l, r, d1, d2, env);
      CombineLaws(op, d1, d2, Value(e1'', env), 0);
      CombineLaws(op, ValueOr(op, ep, env), d1, d2, 0);
    } else {
      d := ExtractLeaves(op, ep, e1, e2, env);
    }
  }

  lemma ExtractLeaves(op: Op, ep: Option<Expr>, e1: Expr, e2: Expr, env: Env) returns (d: Tri)
    requires Valid(env) && !IsOp(e1, op) && !IsOp(e2, op)
    ensures ValueOr(op, ExtractEq(op, ep, e1, e2).0, env) == Combine(op, ValueOr(op, ep, env), d)
    ensures Value(e1, env) == Combine(op, d, Value(ExtractEq(op, ep, e1, e2).1, env))
    ensures Value(e2, env) == Combine(op, d, Value(ExtractEq(op, ep, e1, e2).2, env))
  {
    if ExprEq(e1, e2) {
      ExprEqSound(e1, e2, env);
      d := Value(e1, env);
      UnitLaws(op, d, env);
      if ep.Some? {
        ValueOfBuild(op, ep.value, e1, env);
      }
    } else {
      d := Value(Unit(op), env);
      UnitLaws(op, Value(e1, env), env);
      UnitLaws(op, Value(e2, env), env);
      UnitLaws(op, ValueOr(op, ep, env), env);
    }
  }

  /** Extraction factors both expressions exactly: each equals the common part
      combined with what is left of it. */
  lemma ExtractEqExact(op: Op, e1: Expr, e2: Expr, env: Env)
    requires Valid(env)
    ensures var common := ExtractEqOp(op, e1, e2).0;
            && Value(e1, env) == Combine(op, ValueOr(op, common, env), Value(ExtractEqOp(op, e1, e2).1, env))
            && Value(e2, env) == Combine(op, ValueOr(op, common, env), Value(ExtractEqOp(op, e1, e2).2, env))
  {
    var d := ExtractEqFactor(op, None, e1, e2, env);
    EliminateYnValue(ExtractEq(op, None, e1, e2).1, env);
    EliminateYnValue(ExtractEq(op, None, e1, e2).2, env);
  }
}
