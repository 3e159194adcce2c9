/** The one way expr_eliminate_dups changes a value: an m becomes n (or y).  And
    exactly when it changes none. */
module KconfigDupsLoss {
  import opened Basics
  import opened KconfigExpr
  import opened KconfigYn
  import opened KconfigTransform
  import opened KconfigEq
  import opened KconfigSlots
  import opened KconfigJoin
  import opened KconfigDups
  import opened KconfigDupsLoop

  lemma Branches(op: Op, e: Expr)
    requires IsOp(e, op)
    ensures OnSpine(op, e, [false]) && Get(op, e, [false]) == e.l
    ensures OnSpine(op, e, [true]) && Get(op, e, [true]) == e.r
    ensures forall x :: Put(op, e, [false], x) == Build(op, x, e.r)
    ensures var none: Path := []; none + [false] == [false] && none + [true] == [true]
  {
    var left: Path, right: Path := [false], [true];
    assert left[1..] == [] && right[1..] == [];
    assert OnSpine(op, e.l, []) && OnSpine(op, e.r, []);
    forall x ensures Put(op, e, left, x) == Build(op, x, e.r) {
      assert Put(op, e.l, [], x) == x;
    }
  }

  /** Two different operands that have no rule and are clean themselves. */
  lemma NoRule(op: Op, e: Expr, p: Path, q: Path)
    requires OnSpine(op, e, p) && OnSpine(op, e, q) && p != q
    requires !IsOp(Get(op, e, p), op) && !IsOp(Get(op, e, q), op)
    requires Join(op, Get(op, e, p), Get(op, e, q)).None?
    requires IsGroup(Get(op, e, p)) ==> Dups1(OpOf(Get(op, e, p)), Get(op, e, p), [], []) == (Get(op, e, p), 0)
    ensures Dups1(op, e, p, q) == (e, 0)
  {
    PutBack(op, e, p);
  }

  /** A group of two operands: what the four calls of dups1 amount to when
      neither order of the operands can be joined. */
  lemma TwoOperandsDups1(op: Op, e: Expr)
    requires IsOp(e, op) && !IsOp(e.l, op) && !IsOp(e.r, op)
    requires Join(op, e.l, e.r).None? && Join(op, e.r, e.l).None?
    requires IsGroup(e.l) ==> Dups1(OpOf(e.l), e.l, [], []) == (e.l, 0)
    requires IsGroup(e.r) ==> Dups1(OpOf(e.r), e.r, [], []) == (e.r, 0)
    ensures Dups1(op, e, [], []) == (e, 0)
  {
    Branches(op, e);
    OperandAgainstGroup(op, e, false);
    OperandAgainstGroup(op, e, true);
  }

  /** One operand against both. */
  lemma OperandAgainstGroup(op: Op, e: Expr, right: bool)
    requires IsOp(e, op) && !IsOp(e.l, op) && !IsOp(e.r, op)
    requires Join(op, e.l, e.r).None? && Join(op, e.r, e.l).None?
    requires IsGroup(e.l) ==> Dups1(OpOf(e.l), e.l, [], []) == (e.l, 0)
    requires IsGroup(e.r) ==> Dups1(OpOf(e.r), e.r, [], []) == (e.r, 0)
    ensures OnSpine(op, e, [right]) && Dups1(op, e, [right], []) == (e, 0)
  {
    Branches(op, e);
    NoRule(op, e, [right], [!right]);
    assert Dups1(op, e, [right], [right]) == (e, 0);
  }

  /** dups2 does nothing for an operand that is not a group. */
  lemma {:induction false} PlainOperand(op: Op, root: Expr, p: Path, q: Path)
    requires OnSpine(op, root, p) && OnSpine(op, root, q) && !IsGroup(Get(op, root, p))
    ensures Dups2(op, root, p, q) == (root, 0)
    decreases SpineSize(op, Get(op, root, q))
  {
    if IsOp(Get(op, root, q), op) {
      Descend(op, root, q, false);
      Descend(op, root, q, true);
      PlainOperand(op, root, p, q + [false]);
      PlainOperand(op, root, p, q + [true]);
    }
  }

  lemma FlatDups2(op: Op, e: Expr)
    requires IsOp(e, op) && !IsGroup(e.l) && !IsGroup(e.r)
    ensures Dups2(op, e, [], []) == (e, 0)
  {
    Branches(op, e);
    PlainOperand(op, e, [false], []);
    PlainOperand(op, e, [true], []);
  }

  /** !(a || n) is !a && y, and all of it cancels against !a. */
  lemma OrContradicts(a: Symbol)
    requires a.Named?
    ensures Contradicts(AndOp, Or(Sym(a), Sym(No)), Not(Sym(a)))
  {
    var t := And(Not(Sym(a)), Sym(Yes));
    assert Transform(Not(Sym(a))) == Not(Sym(a)) && Transform(Not(Sym(No))) == Sym(Yes);
    assert Transform(And(Not(Sym(a)), Not(Sym(No)))) == t;
    assert Transform(Or(Sym(a), Sym(No))) == Or(Sym(a), Sym(No));
    assert Transform(Not(Or(Sym(a), Sym(No)))) == t;
    assert ExprEq(Not(Sym(a)), Not(Sym(a))) && ExprEq(Sym(Yes), Sym(Yes));
    var first := ExtractEq(AndOp, None, Not(Sym(a)), Not(Sym(a)));
    assert first == (Some(Not(Sym(a))), Sym(Yes), Sym(Yes));
    var second := ExtractEq(AndOp, first.0, Sym(Yes), Sym(Yes));
    assert second == (Some(And(Not(Sym(a)), Sym(Yes))), Sym(Yes), Sym(Yes));
    assert ExtractEq(AndOp, None, t, Not(Sym(a))) == (second.0, And(Sym(Yes), Sym(Yes)), Sym(Yes));
    assert EliminateYn(And(Sym(Yes), Sym(Yes))) == Sym(Yes);
  }

  /** The operand in the left slot is compared with itself, then with the right
      operand, which it contradicts. */
  lemma LeftOperand(op: Op, e: Expr)
    requires IsOp(e, op) && IsGroup(e.l) && !IsOp(e.l, op) && !IsGroup(e.r)
    requires Dups2(OpOf(e.l), e.l, [], []) == (e.l, 0) && Contradicts(op, e.l, e.r)
    ensures Dups2Inner(op, e, [false], []) == (Build(op, Absorber(op), e.r), 1)
  {
    Branches(op, e);
    var left: Path, right: Path := [false], [true];
    assert Dups2Inner(op, e, left, left) == (e, 0) && Dups2Inner(op, e, left, right) == (e, 0);
    assert Dups2(op, e, left, left) == (e, 0);
    assert Put(op, e, left, e.l) == e;
    assert Dups2(op, e, left, right) == (Put(op, e, left, Absorber(op)), 1);
  }

  lemma ContradictionCollapses(op: Op, e: Expr)
    requires IsOp(e, op) && IsGroup(e.l) && !IsOp(e.l, op) && !IsGroup(e.r)
    requires Dups2(OpOf(e.l), e.l, [], []) == (e.l, 0) && Contradicts(op, e.l, e.r)
    ensures Dups2(op, e, [], []) == (Build(op, Absorber(op), e.r), 1)
  {
    Branches(op, e);
    var e' := Build(op, Absorber(op), e.r);
    Branches(op, e');
    LeftOperand(op, e);
    assert Dups2(op, e, [false], []) == (e', 1);
    PlainOperand(op, e', [true], []);
  }

  /** (a || n) && !a becomes n && !a in the first round. */
  lemma LossRound(a: Symbol)
    requires a.Named?
    ensures Round(And(Or(Sym(a), Sym(No)), Not(Sym(a)))) == (And(Sym(No), Not(Sym(a))), 1)
  {
    var x, y := Or(Sym(a), Sym(No)), Not(Sym(a));
    TwoOperandsDups1(OrOp, x);
    TwoOperandsDups1(AndOp, And(x, y));
    FlatDups2(OrOp, x);
    OrContradicts(a);
    ContradictionCollapses(AndOp, And(x, y));
  }

  /** With a = m, (a || n) && !a is m and is rewritten to n. */
  lemma DupsCanLoseModule(a: Symbol, env: Env)
    requires Valid(env) && a.Named? && env.tri(a) == 1
    ensures var e := And(Or(Sym(a), Sym(No)), Not(Sym(a)));
            Value(e, env) == 1 && Dups(e) == Sym(No) && Value(Dups(e), env) == 0
  {
    LossRound(a);
    assert EliminateYn(And(Sym(No), Not(Sym(a)))) == Sym(No);
    assert Dups(Sym(No)) == Sym(No);
    assert Value(Sym(a), env) == 1;
    var y := Not(Sym(a));
    assert Value(y, env) == 2 - Value(y.e, env);
  }

  /** Every symbol that e takes the value of is y, n or one of `among`. */
  predicate LeavesIn(e: Expr, among: set<Symbol>) {
    match e
    case Sym(s) => s in among || s == Yes || s == No
    case Not(x) => LeavesIn(x, among)
    case And(l, r) => LeavesIn(l, among) && LeavesIn(r, among)
    case Or(l, r) => LeavesIn(l, among) && LeavesIn(r, among)
    case _ => true
  }

  lemma {:induction false} LeavesDecide(e: Expr, among: set<Symbol>, env: Env)
    requires Valid(env) && LeavesIn(e, among) && forall s :: s in among ==> env.tri(s) != 1
    ensures NoModule(e, env)
  {
    match e
    case Not(x) => LeavesDecide(x, among, env);
    case And(l, r) => LeavesDecide(l, among, env); LeavesDecide(r, among, env);
    case Or(l, r) => LeavesDecide(l, among, env); LeavesDecide(r, among, env);
    case _ =>
  }

  /** The rewriting is exact on all expressions over a set of symbols exactly
      when none of these symbols is m. */
  lemma DupsExactIff(among: set<Symbol>, env: Env)
    requires Valid(env) && forall s :: s in among ==> s.Named?
    ensures (forall e :: LeavesIn(e, among) ==> Value(Dups(e), env) == Value(e, env))
       <==> (forall s :: s in among ==> env.tri(s) != 1)
  {
    if s :| s in among && env.tri(s) == 1 {
      DupsCanLoseModule(s, env);
      var x, y := Or(Sym(s), Sym(No)), Not(Sym(s));
      assert LeavesIn(Sym(s), among) && LeavesIn(Sym(No), among);
      assert LeavesIn(x, among);
      assert LeavesIn(y, among);
      assert LeavesIn(And(x, y), among);
    } else {
      forall e | LeavesIn(e, among) ensures Value(Dups(e), env) == Value(e, env) {
        LeavesDecide(e, among, env);
        DupsExactWithoutModules(e, env);
      }
    }
  }
}
