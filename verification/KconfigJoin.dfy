/** expr_join_or and expr_join_and: two operands of a group that one expression
    can stand for. */
module KconfigJoin {
  import opened Basics
  import opened KconfigExpr
  import opened KconfigEq

  /** The symbol the first operand is about, if the rules can handle it. */
  function FirstSymbol(e: Expr): Option<Symbol> {
    match e
    case Sym(s) => Some(s)
    case Equal(a, _) => Some(a)
    case Unequal(a, _) => Some(a)
    case Not(Sym(s)) => Some(s)
    case Not(Equal(a, _)) => Some(a)
    case Not(Unequal(a, _)) => Some(a)
    case _ => None
  }

  /** The same for the second operand, where NOT is accepted on symbols only. */
  function SecondSymbol(e: Expr): Option<Symbol> {
    match e
    case Sym(s) => Some(s)
    case Equal(a, _) => Some(a)
    case Unequal(a, _) => Some(a)
    case Not(Sym(s)) => Some(s)
    case _ => None
  }

  /** Both operands are about one boolean or tristate symbol. */
  predicate SameSymbol(e1: Expr, e2: Expr) {
    && FirstSymbol(e1).Some? && FirstSymbol(e1) == SecondSymbol(e2)
    && (IsKind(FirstSymbol(e1).value, Boolean) || IsKind(FirstSymbol(e1).value, Tristate))
  }

  predicate BothEqual(e1: Expr, e2: Expr, c: Symbol, d: Symbol) {
    e1.Equal? && e2.Equal? && ((e1.b == c && e2.b == d) || (e1.b == d && e2.b == c))
  }

  predicate BothUnequal(e1: Expr, e2: Expr, c: Symbol, d: Symbol) {
    e1.Unequal? && e2.Unequal? && ((e1.b == c && e2.b == d) || (e1.b == d && e2.b == c))
  }

  function JoinOr(e1: Expr, e2: Expr): Option<Expr> {
    if ExprEq(e1, e2) then Some(e1) else OrRules(e1, e2)
  }

  predicate SymbolAndNegation(e1: Expr, e2: Expr) {
    e1.Sym? && e2.Not? && e2.e.Sym?
  }

  /** The rules of expr_join_or for two different operands. */
  function OrRules(e1: Expr, e2: Expr): Option<Expr> {
    if !SameSymbol(e1, e2) then None
    else
      var sym := FirstSymbol(e1).value;
      if IsKind(sym, Tristate) && BothEqual(e1, e2, Yes, Mod) then Some(Unequal(sym, No))
      else if IsKind(sym, Tristate) && BothEqual(e1, e2, Yes, No) then Some(Unequal(sym, Mod))
      else if IsKind(sym, Tristate) && BothEqual(e1, e2, Mod, No) then Some(Unequal(sym, Yes))
      else if IsKind(sym, Boolean) && (SymbolAndNegation(e2, e1) || SymbolAndNegation(e1, e2)) then Some(Sym(Yes))
      else None
  }

  /** One operand is the symbol itself and the other an (un)equality with c. */
  predicate WithEqual(e1: Expr, e2: Expr, c: Symbol) {
    (e1.Sym? && e2.Equal? && e2.b == c) || (e2.Sym? && e1.Equal? && e1.b == c)
  }

  predicate WithUnequal(e1: Expr, e2: Expr, c: Symbol) {
    (e1.Sym? && e2.Unequal? && e2.b == c) || (e2.Sym? && e1.Unequal? && e1.b == c)
  }

  /** (a='b') && (a!='c'): contradictory if 'b' is 'c', otherwise a='b'. */
  function EqualUnequal(sym: Symbol, b: Symbol, c: Symbol): Expr {
    if b != c then Equal(sym, b) else Sym(No)
  }

  function JoinAnd(e1: Expr, e2: Expr): Option<Expr> {
    if ExprEq(e1, e2) then Some(e1) else AndRules(e1, e2)
  }

  /** The rules of expr_join_and for two different operands. */
  function AndRules(e1: Expr, e2: Expr): Option<Expr> {
    if !SameSymbol(e1, e2) then None
    else
      var sym := FirstSymbol(e1).value;
      if WithEqual(e1, e2, Yes) then Some(Equal(sym, Yes))
      else if WithUnequal(e1, e2, No) then Some(Sym(sym))
      else if WithUnequal(e1, e2, Mod) then Some(Equal(sym, Yes))
      else if !IsKind(sym, Tristate) then None
      else if e1.Equal? && e2.Unequal? && ConstFlag(e1.b) && ConstFlag(e2.b) then Some(EqualUnequal(sym, e1.b, e2.b))
      else if e1.Unequal? && e2.Equal? && ConstFlag(e1.b) && ConstFlag(e2.b) then Some(EqualUnequal(sym, e2.b, e1.b))
      else if BothUnequal(e1, e2, Yes, No) then Some(Equal(sym, Mod))
      else if BothUnequal(e1, e2, Yes, Mod) then Some(Equal(sym, No))
      else if BothUnequal(e1, e2, Mod, No) then Some(Equal(sym, Yes))
      else None
  }

  function Join(op: Op, e1: Expr, e2: Expr): Option<Expr> {
    if op == AndOp then JoinAnd(e1, e2) else JoinOr(e1, e2)
  }

  lemma RulesShape(e1: Expr, e2: Expr)
    ensures OrRules(e1, e2).Some? ==> Size(OrRules(e1, e2).value) == 1
    ensures AndRules(e1, e2).Some? ==> Size(AndRules(e1, e2).value) == 1
  {
  }

  /** A joined operand is the first one again, or a single node. */
  lemma JoinShape(op: Op, e1: Expr, e2: Expr)
    requires Join(op, e1, e2).Some?
    ensures Join(op, e1, e2).value == e1 || (Size(Join(op, e1, e2).value) == 1 && !IsGroup(Join(op, e1, e2).value))
  {
  }

  lemma JoinOrValue(e1: Expr, e2: Expr, env: Env)
    requires Valid(env) && JoinOr(e1, e2).Some?
    ensures Value(JoinOr(e1, e2).value, env) == Max(Value(e1, env), Value(e2, env))
  {
    if ExprEq(e1, e2) {
      ExprEqSound(e1, e2, env);
    } else {
      var sym := FirstSymbol(e1).value;
      assert env.str(sym) == Letter(env.tri(sym));
    }
  }

  lemma JoinAndValue(e1: Expr, e2: Expr, env: Env)
    requires Valid(env) && JoinAnd(e1, e2).Some?
    ensures Value(JoinAnd(e1, e2).value, env) == Min(Value(e1, env), Value(e2, env))
  {
    if ExprEq(e1, e2) {
      ExprEqSound(e1, e2, env);
    } else {
      var sym := FirstSymbol(e1).value;
      assert env.str(sym) == Letter(env.tri(sym));
    }
  }

  /** A joined operand means, on every tristate value, what the two meant. */
  lemma JoinValue(op: Op, e1: Expr, e2: Expr, env: Env)
    requires Valid(env) && Join(op, e1, e2).Some?
    ensures Value(Join(op, e1, e2).value, env) == Combine(op, Value(e1, env), Value(e2, env))
  {
    if op == AndOp {
      JoinAndValue(e1, e2, env);
    } else {
      JoinOrValue(e1, e2, env);
    }
  }

  /** Of the constants y, m and n the one that is neither c nor d. */
  function Third(c: Symbol, d: Symbol): Symbol {
    if c != Yes && d != Yes then Yes else if c != Mod && d != Mod then Mod else No
  }

  /** The rules for two comparisons of a tristate symbol with constants: the set of values
      that one of them allows, or that both allow, is told by one comparison. */
  lemma ComparisonsJoin(a: Symbol, c: Symbol, d: Symbol)
    requires IsKind(a, Tristate) && !c.Named? && !d.Named? && c != d
    ensures JoinOr(Equal(a, c), Equal(a, d)) == Some(Unequal(a, Third(c, d)))
    ensures JoinAnd(Unequal(a, c), Unequal(a, d)) == Some(Equal(a, Third(c, d)))
  {
  }

  /** An equality decides whether an inequality with another constant, quoted ones included, holds. */
  lemma EqualityDecides(a: Symbol, c: Symbol, d: Symbol)
    requires IsKind(a, Tristate) && ConstFlag(c) && ConstFlag(d)
    ensures JoinAnd(Equal(a, c), Unequal(a, d)) == JoinAnd(Unequal(a, d), Equal(a, c))
         == Some(if c == d then Sym(No) else Equal(a, c))
  {
  }

  /** The rules for a symbol and one of its comparisons, or its negation. */
  lemma SymbolJoins(a: Symbol)
    requires IsKind(a, Boolean) || IsKind(a, Tristate)
    ensures JoinAnd(Sym(a), Equal(a, Yes)) == JoinAnd(Equal(a, Yes), Sym(a)) == Some(Equal(a, Yes))
    ensures JoinAnd(Sym(a), Unequal(a, No)) == JoinAnd(Unequal(a, No), Sym(a)) == Some(Sym(a))
    ensures JoinAnd(Sym(a), Unequal(a, Mod)) == JoinAnd(Unequal(a, Mod), Sym(a)) == Some(Equal(a, Yes))
    ensures IsKind(a, Boolean) ==>
              JoinOr(Sym(a), Not(Sym(a))) == JoinOr(Not(Sym(a)), Sym(a)) == Some(Sym(Yes))
  {
  }
}
