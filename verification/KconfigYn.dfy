/** expr_eliminate_yn and expr_trans_bool. */
module KconfigYn {
  import opened KconfigExpr

  function EliminateYn(e: Expr): (r: Expr)
    ensures Size(r) <= Size(e)
  {
    match e
    case And(l, r) =>
      var l', r' := EliminateYn(l), EliminateYn(r);
      if l' == Sym(No) then Sym(No)
      else if l' == Sym(Yes) then r'
      else if r' == Sym(No) then Sym(No)
      else if r' == Sym(Yes) then l'
      else And(l', r')
    case Or(l, r) =>
      var l', r' := EliminateYn(l), EliminateYn(r);
      if l' == Sym(No) then r'
      else if l' == Sym(Yes) then Sym(Yes)
      else if r' == Sym(No) then l'
      else if r' == Sym(Yes) then Sym(Yes)
      else Or(l', r')
    case _ => e
  }

  /** No operand of a group, at any depth of groups, is the constant y or n. */
  predicate NoConstantOperand(e: Expr) {
    IsGroup(e) ==>
      && e.l !in {Sym(Yes), Sym(No)} && e.r !in {Sym(Yes), Sym(No)}
      && NoConstantOperand(e.l) && NoConstantOperand(e.r)
  }

  lemma {:induction false} EliminateYnValue(e: Expr, env: Env)
    requires Valid(env)
    ensures Value(EliminateYn(e), env) == Value(e, env)
  {
    if IsGroup(e) {
      EliminateYnValue(e.l, env);
      EliminateYnValue(e.r, env);
    }
  }

  /** The result has no constant operands, and if there was one to remove the
      expression became strictly smaller. */
  lemma {:induction false} EliminateYnNormal(e: Expr)
    ensures NoConstantOperand(EliminateYn(e))
    ensures NoConstantOperand(e) ==> EliminateYn(e) == e
    ensures !NoConstantOperand(e) ==> Size(EliminateYn(e)) < Size(e)
  {
    if IsGroup(e) {
      EliminateYnNormal(e.l);
      EliminateYnNormal(e.r);
    }
  }

  /** FOO!=n becomes FOO for tristate FOO. */
  function TransBool(e: Expr): Expr {
    match e
    case Not(x) => Not(TransBool(x))
    case And(l, r) => And(TransBool(l), TransBool(r))
    case Or(l, r) => Or(TransBool(l), TransBool(r))
    case Unequal(a, b) => if IsKind(a, Tristate) && b == No then Sym(a) else e
    case _ => e
  }

  /** Negation normal form: NOT stands only on a symbol other than y, m, n. */
  predicate Nnf(e: Expr) {
    match e
    case Not(x) => x.Sym? && x.s.Named?
    case And(l, r) => Nnf(l) && Nnf(r)
    case Or(l, r) => Nnf(l) && Nnf(r)
    case _ => true
  }

  /** On negation normal form, whether the value is n stays the same, and the
      value never grows. */
  lemma {:induction false} TransBoolKeepsNo(e: Expr, env: Env)
    requires Valid(env) && Nnf(e)
    ensures Value(TransBool(e), env) == 0 <==> Value(e, env) == 0
    ensures Value(TransBool(e), env) <= Value(e, env)
  {
    match e
    case And(l, r) => TransBoolKeepsNo(l, env); TransBoolKeepsNo(r, env);
    case Or(l, r) => TransBoolKeepsNo(l, env); TransBoolKeepsNo(r, env);
    case Not(x) =>
    case Sym(_) =>
    case Equal(_, _) =>
    case Unequal(a, b) =>
  }

  /** Under a NOT the rewriting is wrong: !(FOO!=n) is n for FOO=m, and !FOO is m. */
  lemma TransBoolNeedsNnf(foo: Symbol, env: Env)
    requires Valid(env) && IsKind(foo, Tristate) && env.tri(foo) == 1
    ensures var e := Not(Unequal(foo, No));
            !Nnf(e) && Value(e, env) == 0 && Value(TransBool(e), env) == 1
  {
    assert env.str(foo) == "m";
    assert Value(Unequal(foo, No), env) == 2;
  }

  /** The disjunction of the values of the prompts, as sym_calc_visibility forms it. */
  function AnyVisible(prompts: seq<Expr>, env: Env): Tri {
    if |prompts| == 0 then 0 else Max(AnyVisible(prompts[..|prompts| - 1], env), Value(prompts[|prompts| - 1], env))
  }

  /** The visibility of a symbol that is not tristate, or of any symbol while
      modules are off: m counts as y. */
  function Promoted(v: Tri): Tri {
    if v == 1 then 2 else v
  }

  /** A symbol that is not tristate sees the same visibility whether or not its
      prompt conditions went through expr_trans_bool. */
  lemma {:induction false} VisibilityUnchanged(prompts: seq<Expr>, env: Env)
    requires Valid(env) && forall i :: 0 <= i < |prompts| ==> Nnf(prompts[i])
    ensures var reduced := seq(|prompts|, i requires 0 <= i < |prompts| => TransBool(prompts[i]));
            Promoted(AnyVisible(reduced, env)) == Promoted(AnyVisible(prompts, env))
  {
    var reduced := seq(|prompts|, i requires 0 <= i < |prompts| => TransBool(prompts[i]));
    if |prompts| > 0 {
      var n := |prompts| - 1;
      VisibilityUnchanged(prompts[..n], env);
      assert reduced[..n] == seq(n, i requires 0 <= i < n => TransBool(prompts[..n][i]));
      TransBoolKeepsNo(prompts[n], env);
    }
  }

  /** No test `s != n` of a tristate symbol s is left, at any depth. */
  predicate NoTestLeft(e: Expr) {
    match e
    case Not(x) => NoTestLeft(x)
    case And(l, r) => NoTestLeft(l) && NoTestLeft(r)
    case Or(l, r) => NoTestLeft(l) && NoTestLeft(r)
    case Unequal(a, b) => !(IsKind(a, Tristate) && b == No)
    case _ => true
  }

  /** The rewriting removes all of them, and does nothing where there is none. */
  lemma {:induction false} TransBoolRemoves(e: Expr)
    ensures NoTestLeft(TransBool(e))
    ensures TransBool(e) == e <==> NoTestLeft(e)
  {
    match e
    case Not(x) => TransBoolRemoves(x);
    case And(l, r) => TransBoolRemoves(l); TransBoolRemoves(r);
    case Or(l, r) => TransBoolRemoves(l); TransBoolRemoves(r);
    case _ =>
  }

  /** Where no symbol is m, it keeps every value, below NOT too. */
  lemma {:induction false} TransBoolExact(e: Expr, env: Env)
    requires Valid(env) && forall s: Symbol :: IsKind(s, Tristate) ==> env.tri(s) != 1
    ensures Value(TransBool(e), env) == Value(e, env)
  {
    match e
    case Not(x) => TransBoolExact(x, env);
    case And(l, r) => TransBoolExact(l, env); TransBoolExact(r, env);
    case Or(l, r) => TransBoolExact(l, env); TransBoolExact(r, env);
    case Unequal(a, b) =>
    case _ =>
  }
}
