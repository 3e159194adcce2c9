/** Calculated symbol values: the equations, their only solution, and the memoised
    calculation of sym_calc_value, for boolean and tristate symbols. */
module KconfigValues {
  import opened Basics
  import opened KconfigExpr
  import opened KconfigDeps

  /** The symbols to calculate, the fixed values of all others, and modules_val. */
  datatype Config = Config(table: Table, base: Env, modules: Tri)

  /** Values set by the user, for the symbols that are not new. */
  type User = map<Symbol, Tri>

  /** What sym_calc_value works out for one symbol. */
  datatype Calc = Calc(visible: Tri, revTri: Tri, tri: Tri, write: bool)

  ghost predicate Proper(c: Config) {
    forall s :: s in c.table ==> (IsKind(s, Boolean) || IsKind(s, Tristate)) && !c.table[s].isChoice
  }

  /** sym_get_type: without modules a tristate symbol is a boolean one. */
  predicate ActsBoolean(c: Config, s: Symbol) {
    !IsKind(s, Tristate) || c.modules == 0
  }

  function Promote(c: Config, s: Symbol, v: Tri): (r: Tri)
    ensures ActsBoolean(c, s) ==> r != 1
    ensures !ActsBoolean(c, s) || v != 1 ==> r == v
  {
    if v == 1 && ActsBoolean(c, s) then 2 else v
  }

  /** expr_calc_value; no expression counts as y. */
  function ValueOpt(e: Option<Expr>, env: Env): Tri {
    if e.None? then 2 else Value(e.value, env)
  }

  /** How visible the prompts are together. */
  function PromptsValue(props: seq<Property>, env: Env): Tri {
    if props == [] then 0
    else
      var p := props[|props| - 1];
      Max(PromptsValue(props[..|props| - 1], env), if p.kind == Prompt then ValueOpt(p.visible, env) else 0)
  }

  lemma PromptsNext(props: seq<Property>, i: nat, env: Env)
    requires i < |props|
    ensures PromptsValue(props[..i + 1], env)
         == Max(PromptsValue(props[..i], env), if props[i].kind == Prompt then ValueOpt(props[i].visible, env) else 0)
    ensures props[..|props|] == props
  {
    assert props[..i + 1][..i] == props[..i];
  }

  /** The value of the first default whose condition is not n. */
  function DefaultValue(props: seq<Property>, env: Env): Option<Tri> {
    if props == [] then None
    else if props[0].kind == Default && ValueOpt(props[0].visible, env) != 0 then Some(ValueOpt(props[0].expr, env))
    else DefaultValue(props[1..], env)
  }

  function OrNo(v: Option<Tri>): Tri {
    if v.Some? then v.value else 0
  }

  /** The right-hand side of a symbol's equation. */
  function Equation(c: Config, user: User, s: Symbol, env: Env): Calc
    requires s in c.table
  {
    var d := c.table[s];
    var vis := Promote(c, s, PromptsValue(d.props, env));
    var rev := Promote(c, s, if d.revDep.Some? then Value(d.revDep.value, env) else 0);
    var def := DefaultValue(d.props, env);
    if Max(vis, rev) != 0 then
      var wanted := if s in user then user[s] else OrNo(def);
      Calc(vis, rev, Promote(c, s, Max(Min(wanted, vis), rev)), true)
    else
      Calc(vis, rev, Promote(c, s, OrNo(def)), def.Some?)
  }

  /** All values together satisfy all equations. */
  ghost predicate Solves(c: Config, user: User, env: Env) {
    && (forall s :: s in c.table ==> env.tri(s) == Equation(c, user, s, env).tri && env.str(s) == Letter(env.tri(s)))
    && (forall s :: s !in c.table ==> env.tri(s) == c.base.tri(s) && env.str(s) == c.base.str(s))
  }

  // --- A symbol depends on its dependencies only ---

  ghost predicate Agree(a: Env, b: Env, among: set<Symbol>) {
    forall s :: s in among ==> a.tri(s) == b.tri(s) && a.str(s) == b.str(s)
  }

  lemma {:induction false} ValueLocal(e: Expr, a: Env, b: Env)
    requires Agree(a, b, Mentioned(e))
    ensures Value(e, a) == Value(e, b)
  {
    match e
    case Sym(s) =>
    case Not(x) => ValueLocal(x, a, b);
    case And(l, r) => ValueLocal(l, a, b); ValueLocal(r, a, b);
    case Or(l, r) => ValueLocal(l, a, b); ValueLocal(r, a, b);
    case Equal(_, _) =>
    case Unequal(_, _) =>
  }

  lemma ValueOptLocal(e: Option<Expr>, a: Env, b: Env)
    requires Agree(a, b, MentionedOpt(e))
    ensures ValueOpt(e, a) == ValueOpt(e, b)
  {
    if e.Some? {
      ValueLocal(e.value, a, b);
    }
  }

  lemma {:induction false} PromptsLocal(isChoice: bool, props: seq<Property>, a: Env, b: Env)
    requires Agree(a, b, PropsDeps(isChoice, props))
    ensures PromptsValue(props, a) == PromptsValue(props, b)
  {
    if props != [] {
      PromptsLocal(isChoice, props[..|props| - 1], a, b);
      if props[|props| - 1].kind == Prompt {
        ValueOptLocal(props[|props| - 1].visible, a, b);
      }
    }
  }

  lemma {:induction false} DefaultLocal(props: seq<Property>, k: nat, a: Env, b: Env)
    requires k <= |props| && Agree(a, b, PropsDeps(false, props))
    ensures DefaultValue(props[k..], a) == DefaultValue(props[k..], b)
    decreases |props| - k
  {
    if k < |props| {
      PropInPropsDeps(false, props, k);
      if props[k].kind == Default {
        ValueOptLocal(props[k].visible, a, b);
        ValueOptLocal(props[k].expr, a, b);
      }
      DefaultLocal(props, k + 1, a, b);
      assert props[k..][1..] == props[k + 1..];
    }
  }

  lemma EquationLocal(c: Config, user: User, s: Symbol, a: Env, b: Env)
    requires Proper(c) && s in c.table && Agree(a, b, Deps(c.table, s))
    ensures Equation(c, user, s, a) == Equation(c, user, s, b)
  {
    var d := c.table[s];
    PromptsLocal(d.isChoice, d.props, a, b);
    DefaultLocal(d.props, 0, a, b);
    assert d.props[0..] == d.props;
    if d.revDep.Some? {
      ValueLocal(d.revDep.value, a, b);
    }
  }

  // --- Without circular dependencies there is exactly one solution ---

  /** An order in which every symbol comes after all it depends on. */
  ghost predicate Ordered(c: Config, order: seq<Symbol>) {
    && Sorted(c.table, order)
    && (forall s :: s in c.table ==> s in order)
    && (forall i, j :: 0 <= i < j < |order| ==> order[i] != order[j])
  }

  function UpdatedTri(env: Env, s: Symbol, v: Tri, x: Symbol): Tri {
    if x == s then v else env.tri(x)
  }

  function Update(env: Env, s: Symbol, v: Tri): Env {
    Env(x => UpdatedTri(env, s, v, x), x => if x == s then Letter(v) else env.str(x))
  }

  /** The values of the first n symbols of the order. */
  function Solution(c: Config, user: User, order: seq<Symbol>, n: nat): Env
    requires n <= |order|
  {
    if n == 0 then c.base
    else
      var before := Solution(c, user, order, n - 1);
      var s := order[n - 1];
      if s in c.table then Update(before, s, Equation(c, user, s, before).tri) else before
  }

  lemma {:induction false} SolutionKeeps(c: Config, user: User, order: seq<Symbol>, m: nat, n: nat, s: Symbol)
    requires m <= n <= |order| && (s !in order[m..n] || s !in c.table)
    ensures Solution(c, user, order, n).tri(s) == Solution(c, user, order, m).tri(s)
    ensures Solution(c, user, order, n).str(s) == Solution(c, user, order, m).str(s)
    decreases n
  {
    if m < n {
      assert order[m..n] == order[m..n - 1] + [order[n - 1]];
      SolutionKeeps(c, user, order, m, n - 1, s);
    }
  }

  lemma DepsSettled(c: Config, user: User, order: seq<Symbol>, i: nat)
    requires Ordered(c, order) && i < |order|
    ensures Agree(Solution(c, user, order, i), Solution(c, user, order, |order|), Deps(c.table, order[i]))
  {
    forall t | t in Deps(c.table, order[i])
      ensures Solution(c, user, order, i).tri(t) == Solution(c, user, order, |order|).tri(t)
      ensures Solution(c, user, order, i).str(t) == Solution(c, user, order, |order|).str(t)
    {
      var j :| 0 <= j < i && order[j] == t;
      NotLater(order, j, i);
      SolutionKeeps(c, user, order, i, |order|, t);
    }
  }

  lemma SolutionAt(c: Config, user: User, order: seq<Symbol>, i: nat)
    requires Proper(c) && Ordered(c, order) && i < |order| && order[i] in c.table
    ensures var env := Solution(c, user, order, |order|);
            env.tri(order[i]) == Equation(c, user, order[i], env).tri && env.str(order[i]) == Letter(env.tri(order[i]))
  {
    var n, s := |order|, order[i];
    var before, env := Solution(c, user, order, i), Solution(c, user, order, n);
    DepsSettled(c, user, order, i);
    EquationLocal(c, user, s, before, env);
    NotLater(order, i, i + 1);
    SolutionKeeps(c, user, order, i + 1, n, s);
  }

  lemma NotLater(order: seq<Symbol>, j: nat, i: nat)
    requires j < i <= |order| && forall i, j :: 0 <= i < j < |order| ==> order[i] != order[j]
    ensures order[j] !in order[i..]
  {
  }

  lemma SolutionSolves(c: Config, user: User, order: seq<Symbol>)
    requires Proper(c) && Ordered(c, order)
    ensures Solves(c, user, Solution(c, user, order, |order|))
  {
    var env := Solution(c, user, order, |order|);
    forall s | s in c.table ensures env.tri(s) == Equation(c, user, s, env).tri && env.str(s) == Letter(env.tri(s)) {
      var i :| 0 <= i < |order| && order[i] == s;
      SolutionAt(c, user, order, i);
    }
    forall s | s !in c.table ensures env.tri(s) == c.base.tri(s) && env.str(s) == c.base.str(s) {
      SolutionKeeps(c, user, order, 0, |order|, s);
    }
  }

  ghost predicate AgreeTo(a: Env, b: Env, order: seq<Symbol>, n: nat)
    requires n <= |order|
  {
    forall t :: t in order[..n] ==> a.tri(t) == b.tri(t) && a.str(t) == b.str(t)
  }

  /** Solutions agree as far along the order as the user's values do. */
  lemma {:induction false} SolutionsAgree(c: Config, u: User, w: User, order: seq<Symbol>, a: Env, b: Env, n: nat)
    requires Proper(c) && Ordered(c, order) && Solves(c, u, a) && Solves(c, w, b) && n <= |order|
    requires forall t :: t in order[..n] ==> SameWish(u, w, t)
    ensures AgreeTo(a, b, order, n)
  {
    if n > 0 {
      var s := order[n - 1];
      assert order[..n] == order[..n - 1] + [s];
      SolutionsAgree(c, u, w, order, a, b, n - 1);
      if s in c.table {
        DepsBefore(c, order, n - 1);
        AgreeAt(c, u, w, s, a, b);
      }
    }
  }

  lemma DepsBefore(c: Config, order: seq<Symbol>, i: nat)
    requires Ordered(c, order) && i < |order|
    ensures forall t :: t in Deps(c.table, order[i]) ==> t in order[..i]
  {
  }

  lemma AgreeAt(c: Config, u: User, w: User, s: Symbol, a: Env, b: Env)
    requires Proper(c) && Solves(c, u, a) && Solves(c, w, b) && s in c.table
    requires Agree(a, b, Deps(c.table, s)) && SameWish(u, w, s)
    ensures a.tri(s) == b.tri(s) && a.str(s) == b.str(s)
  {
    EquationLocal(c, u, s, a, b);
    assert Equation(c, u, s, b) == Equation(c, w, s, b);
  }

  predicate SameWish(u: User, w: User, s: Symbol) {
    (s in u <==> s in w) && (s in u ==> u[s] == w[s])
  }

  /** There are no two ways to assign values to symbols. */
  lemma OneSolution(c: Config, user: User, order: seq<Symbol>, a: Env, b: Env, s: Symbol)
    requires Proper(c) && Ordered(c, order) && Solves(c, user, a) && Solves(c, user, b)
    ensures a.tri(s) == b.tri(s) && a.str(s) == b.str(s)
  {
    SolutionsAgree(c, user, user, order, a, b, |order|);
    assert order[..|order|] == order;
  }

  // --- Saving keeps the solution ---

  /** User values u that are the calculated ones, given at least for the visible symbols. */
  ghost predicate Faithful(c: Config, user: User, env: Env, u: User) {
    forall s :: s in c.table ==> if s in u then u[s] == env.tri(s) else Equation(c, user, s, env).visible == 0
  }

  /** Values that solve the equations still do when they become the user's own. */
  lemma FaithfulSolves(c: Config, user: User, env: Env, u: User)
    requires Proper(c) && Solves(c, user, env) && Faithful(c, user, env, u)
    ensures Solves(c, u, env)
    ensures forall s :: s in c.table ==> Equation(c, u, s, env) == Equation(c, user, s, env)
  {
    forall s | s in c.table ensures Equation(c, u, s, env) == Equation(c, user, s, env) {
      assert env.tri(s) == Equation(c, user, s, env).tri;
    }
  }

  // --- Setting a value ---

  /** sym_tristate_within_range, for a symbol that is no choice. */
  predicate WithinRange(c: Config, s: Symbol, visible: Tri, revTri: Tri, v: Tri) {
    && visible != 0
    && !(ActsBoolean(c, s) && v == 1)
    && visible > revTri
    && revTri <= v <= visible
  }

  /** A value within the range is the one the symbol then has; where the prompts leave
      room at all, a value outside the range never is; where they do not, setting
      a value changes nothing. */
  lemma SetTakesEffect(c: Config, user: User, order: seq<Symbol>, a: Env, b: Env, i: nat, v: Tri)
    requires Proper(c) && Ordered(c, order) && i < |order| && order[i] in c.table
    requires Solves(c, user, a) && Solves(c, user[order[i] := v], b)
    ensures var k := Equation(c, user, order[i], a);
            if k.visible > k.revTri then WithinRange(c, order[i], k.visible, k.revTri, v) <==> b.tri(order[i]) == v
            else b.tri(order[i]) == a.tri(order[i])
  {
    var s := order[i];
    SolutionsAgree(c, user, user[s := v], order, a, b, i);
    DepsBefore(c, order, i);
    EquationLocal(c, user, s, a, b);
    assert b.tri(s) == Equation(c, user[s := v], s, b).tri;
    assert a.tri(s) == Equation(c, user, s, a).tri;
  }

  /** Asking for the value a symbol has anyway changes no value. */
  lemma SetSame(c: Config, user: User, env: Env, s: Symbol)
    requires Proper(c) && Solves(c, user, env) && s in c.table
    ensures Solves(c, user[s := env.tri(s)], env)
    ensures Equation(c, user[s := env.tri(s)], s, env) == Equation(c, user, s, env)
  {
    assert env.tri(s) == Equation(c, user, s, env).tri;
  }
}
