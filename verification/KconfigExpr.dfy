/** Dependency expressions of the configuration language, and what they mean. */
module KconfigExpr {
  /** n = 0, m = 1, y = 2. */
  type Tri = x: int | 0 <= x <= 2

  function Min(a: Tri, b: Tri): Tri { if a < b then a else b }

  function Max(a: Tri, b: Tri): Tri { if a > b then a else b }

  datatype Kind = Unknown | Boolean | Tristate | Text

  /** symbol_yes, symbol_mod, symbol_no, and every other symbol.  Two symbols are
      the same object exactly when they are equal here. */
  datatype Symbol = Yes | Mod | No | Named(id: nat, kind: Kind, quoted: bool)

  predicate IsKind(s: Symbol, k: Kind) {
    s.Named? && s.kind == k
  }

  /** Some bit of SYMBOL_YES or SYMBOL_NO is set; quoted names carry all three. */
  predicate YesOrNoFlag(s: Symbol) {
    s == Yes || s == No || (s.Named? && s.quoted)
  }

  /** Some bit of SYMBOL_CONST is set. */
  predicate ConstFlag(s: Symbol) {
    !s.Named? || s.quoted
  }

  datatype Expr =
    | Sym(s: Symbol)
    | Not(e: Expr)
    | And(l: Expr, r: Expr)
    | Or(l: Expr, r: Expr)
    | Equal(a: Symbol, b: Symbol)
    | Unequal(a: Symbol, b: Symbol)

  /** The calculated values of all symbols: their tristate and their string. */
  datatype Env = Env(tri: Symbol -> Tri, str: Symbol -> string)

  function Letter(v: Tri): string {
    if v == 0 then "n" else if v == 1 then "m" else "y"
  }

  /** What symbol calculation guarantees: the constants have their own values,
      boolean symbols are n or y, the string of a boolean or tristate symbol is
      its letter, and different constants have different strings. */
  ghost predicate Valid(env: Env) {
    && env.tri(Yes) == 2 && env.tri(Mod) == 1 && env.tri(No) == 0
    && env.str(Yes) == "y" && env.str(Mod) == "m" && env.str(No) == "n"
    && (forall s: Symbol :: IsKind(s, Boolean) ==> env.tri(s) != 1)
    && (forall s: Symbol :: IsKind(s, Boolean) || IsKind(s, Tristate) ==> env.str(s) == Letter(env.tri(s)))
    && (forall s, t :: ConstFlag(s) && ConstFlag(t) && env.str(s) == env.str(t) ==> s == t)
  }

  function Value(e: Expr, env: Env): Tri {
    match e
    case Sym(s) => env.tri(s)
    case Not(x) => 2 - Value(x, env)
    case And(l, r) => Min(Value(l, env), Value(r, env))
    case Or(l, r) => Max(Value(l, env), Value(r, env))
    case Equal(a, b) => if env.str(a) == env.str(b) then 2 else 0
    case Unequal(a, b) => if env.str(a) == env.str(b) then 0 else 2
  }

  function Size(e: Expr): nat {
    match e
    case Not(x) => 1 + Size(x)
    case And(l, r) => 1 + Size(l) + Size(r)
    case Or(l, r) => 1 + Size(l) + Size(r)
    case _ => 1
  }

  /** The two operators that build groups. */
  datatype Op = AndOp | OrOp

  predicate IsOp(e: Expr, op: Op) {
    if op == AndOp then e.And? else e.Or?
  }

  predicate IsGroup(e: Expr) {
    e.And? || e.Or?
  }

  function OpOf(e: Expr): Op
    requires IsGroup(e)
  {
    if e.And? then AndOp else OrOp
  }

  function Build(op: Op, l: Expr, r: Expr): Expr {
    if op == AndOp then And(l, r) else Or(l, r)
  }

  /** The operand that changes nothing: y for AND, n for OR. */
  function Unit(op: Op): Expr {
    if op == AndOp then Sym(Yes) else Sym(No)
  }

  function Combine(op: Op, a: Tri, b: Tri): Tri {
    if op == AndOp then Min(a, b) else Max(a, b)
  }

  lemma CombineLaws(op: Op, a: Tri, b: Tri, x: Tri, y: Tri)
    ensures Combine(op, Combine(op, a, x), Combine(op, b, y)) == Combine(op, Combine(op, a, b), Combine(op, x, y))
    ensures Combine(op, a, Combine(op, b, x)) == Combine(op, Combine(op, a, b), x)
  {
  }

  lemma CombineSwap(op: Op, a: Tri, b: Tri, x: Tri)
    ensures Combine(op, a, b) == Combine(op, b, a)
    ensures Combine(op, a, Combine(op, b, x)) == Combine(op, b, Combine(op, a, x))
  {
  }

  lemma ValueOfGroup(op: Op, e: Expr, env: Env)
    requires IsOp(e, op)
    ensures Value(e, env) == Combine(op, Value(e.l, env), Value(e.r, env)) && e == Build(op, e.l, e.r)
  {
  }

  lemma ValueOfBuild(op: Op, l: Expr, r: Expr, env: Env)
    ensures Value(Build(op, l, r), env) == Combine(op, Value(l, env), Value(r, env))
  {
  }

  lemma UnitLaws(op: Op, v: Tri, env: Env)
    requires Valid(env)
    ensures Combine(op, Value(Unit(op), env), v) == v && Combine(op, v, Value(Unit(op), env)) == v
  {
  }

  /** Every leaf, and every string comparison, is decided: no `m` anywhere. */
  predicate NoModule(e: Expr, env: Env) {
    match e
    case Sym(s) => env.tri(s) != 1
    case Not(x) => NoModule(x, env)
    case And(l, r) => NoModule(l, env) && NoModule(r, env)
    case Or(l, r) => NoModule(l, env) && NoModule(r, env)
    case _ => true
  }

  lemma {:induction false} NoModuleDecides(e: Expr, env: Env)
    requires NoModule(e, env)
    ensures Value(e, env) != 1
  {
    match e
    case Sym(_) =>
    case Not(x) => NoModuleDecides(x, env);
    case And(l, r) => NoModuleDecides(l, env); NoModuleDecides(r, env);
    case Or(l, r) => NoModuleDecides(l, env); NoModuleDecides(r, env);
    case Equal(_, _) =>
    case Unequal(_, _) =>
  }

  /** The three-valued logic: NOT swaps y and n and leaves m, AND and OR are dual to each
      other, and comparisons are decided by the strings, for symbols of any type. */
  lemma ValueLaws(x: Expr, y: Expr, a: Symbol, b: Symbol, env: Env)
    ensures Value(Not(x), env) == 1 <==> Value(x, env) == 1
    ensures Value(Not(x), env) == 0 <==> Value(x, env) == 2
    ensures Value(Or(x, y), env) == Value(Not(And(Not(x), Not(y))), env)
    ensures Value(And(x, y), env) in {Value(x, env), Value(y, env)}
    ensures Value(And(x, y), env) <= Value(x, env) && Value(And(x, y), env) <= Value(y, env)
    ensures Value(Equal(a, b), env) == 2 <==> env.str(a) == env.str(b)
    ensures Value(Equal(a, b), env) in {0, 2} && Value(Unequal(a, b), env) == Value(Not(Equal(a, b)), env)
  {
    assert Value(Not(Not(x)), env) == 2 - Value(Not(x), env);
    assert Value(Not(Not(y)), env) == 2 - Value(Not(y), env);
    assert Value(Not(And(Not(x), Not(y))), env) == 2 - Value(And(Not(x), Not(y)), env);
  }
}
