/** sym_calc_value: the calculated values are cached in the symbols. */
module KconfigCalc {
  import opened Basics
  import opened KconfigExpr
  import opened KconfigDeps
  import opened KconfigValues

  /** The place of a symbol in an order of dependencies. */
  ghost function Rank(order: seq<Symbol>, s: Symbol): (r: nat)
    requires s in order
    ensures r < |order| && order[r] == s && s !in order[..r]
  {
    if order[0] == s then 0 else 1 + Rank(order[1..], s)
  }

  lemma RankOfDep(c: Config, order: seq<Symbol>, s: Symbol, t: Symbol)
    requires Ordered(c, order) && s in order && t in Deps(c.table, s)
    ensures t in order && Rank(order, t) < Rank(order, s)
  {
    var i := Rank(order, s);
    assert t in order[..i];
    var j :| 0 <= j < i && order[j] == t;
  }

  /** The ordered symbols of a set come before place n. */
  ghost predicate Below(order: seq<Symbol>, among: set<Symbol>, n: nat) {
    forall t :: t in among && t in order ==> Rank(order, t) < n
  }

  /** The fields of all symbols. */
  datatype Fields = Fields(curr: map<Symbol, Tri>, visible: map<Symbol, Tri>, revTri: map<Symbol, Tri>,
                           valid: set<Symbol>, write: set<Symbol>)

  /** What the fields of a symbol should hold. */
  ghost predicate Holds(f: Fields, s: Symbol, e: Calc) {
    && s in f.curr && s in f.visible && s in f.revTri
    && f.curr[s] == e.tri && f.visible[s] == e.visible && f.revTri[s] == e.revTri
  }

  /** Every symbol marked valid holds what its equation says, unless it is under calculation. */
  ghost predicate Cached(c: Config, user: User, env: Env, f: Fields, busy: set<Symbol>) {
    && busy <= f.valid
    && (forall s :: s in c.table && s in f.valid && s !in busy ==> Holds(f, s, Equation(c, user, s, env)))
  }

  /** The write flag of a symbol calculated lately says whether it is worth saving. */
  ghost predicate WriteKnown(c: Config, user: User, env: Env, f: Fields, known: set<Symbol>) {
    forall s :: s in c.table && s in known ==> (s in f.write <==> Equation(c, user, s, env).write)
  }

  /** A calculation that leaves the symbols under calculation alone. */
  ghost predicate Extends(f: Fields, g: Fields, busy: set<Symbol>) {
    && f.valid <= g.valid
    && (forall s :: s in busy && s in f.visible ==> s in g.visible && f.visible[s] == g.visible[s])
    && (forall s :: s in busy && s in f.revTri ==> s in g.revTri && f.revTri[s] == g.revTri[s])
    && (forall s :: s in busy ==> (s in f.write <==> s in g.write))
  }

  lemma ExtendsAgain(f: Fields, g: Fields, h: Fields, busy: set<Symbol>)
    requires Extends(f, g, busy) && Extends(g, h, busy)
    ensures Extends(f, h, busy)
  {
  }

  lemma CalculationExtends(f: Fields, started: Fields, g: Fields, h: Fields, busy: set<Symbol>, s: Symbol)
    requires s !in busy && started == f.(valid := f.valid + {s}, write := f.write - {s})
    requires Extends(started, g, busy) && h == g.(curr := h.curr)
    ensures Extends(f, h, busy)
  {
  }

  class Symbols {
    const c: Config
    var userTri: map<Symbol, Tri>     // user.tri
    var isNew: set<Symbol>            // SYMBOL_NEW: user.tri does not count
    var curr: map<Symbol, Tri>        // curr.tri
    var visible: map<Symbol, Tri>
    var revTri: map<Symbol, Tri>      // rev_dep.tri
    var valid: set<Symbol>            // SYMBOL_VALID
    var write: set<Symbol>            // SYMBOL_WRITE
    ghost const order: seq<Symbol>
    ghost var busy: set<Symbol>       // under calculation
    ghost var stale: set<Symbol>      // written since they were calculated, and their write flags cleared

    /** All symbols as the parser leaves them, none calculated yet. */
    constructor (c: Config, userTri: map<Symbol, Tri>, isNew: set<Symbol>, ghost order: seq<Symbol>)
      requires Proper(c) && Ordered(c, order)
      ensures this.c == c && this.userTri == userTri && this.isNew == isNew && this.order == order
      ensures Valid(Solution(c, User(), order, |order|)) && busy == {} && valid == {}
    {
      this.c, this.userTri, this.isNew, this.order := c, userTri, isNew, order;
      curr, visible, revTri := map[], map[], map[];
      valid, write, busy, stale := {}, {}, {}, {};
      new;
      SolutionSolves(c, User(), order);
    }

    ghost function User(): User
      reads this`userTri, this`isNew
    {
      map s | s in userTri && s !in isNew :: userTri[s]
    }

    ghost function View(): Fields
      reads this`curr, this`visible, this`revTri, this`valid, this`write
    {
      Fields(curr, visible, revTri, valid, write)
    }

    ghost predicate Valid(env: Env)
      reads this
    {
      && Proper(c) && Ordered(c, order) && Solves(c, User(), env)
      && Cached(c, User(), env, View(), busy)
      && stale <= valid && WriteKnown(c, User(), env, View(), valid - busy - stale)
    }

    /** expr_calc_value. */
    method CalcExpr(e: Expr, ghost env: Env, ghost n: nat) returns (v: Tri)
      requires Valid(env) && Below(order, Mentioned(e), n)
      requires forall b :: b in busy ==> b in order && Rank(order, b) >= n
      modifies this`curr, this`visible, this`revTri, this`valid, this`write, this`busy
      ensures Valid(env) && v == Value(e, env)
      ensures Extends(old(View()), View(), old(busy)) && busy == old(busy)
      decreases n, 1, e
    {
      match e
      case Sym(s) =>
        v := CalcSym(s, env, n);
      case Not(x) =>
        v := CalcExpr(x, env, n);
        v := 2 - v;
      case And(l, r) =>
        v := CalcExpr(l, env, n);
        var w := CalcExpr(r, env, n);
        v := Min(v, w);
      case Or(l, r) =>
        v := CalcExpr(l, env, n);
        var w := CalcExpr(r, env, n);
        v := Max(v, w);
      case Equal(a, b) =>
        var same := CalcEqual(a, b, env, n);
        v := if same then 2 else 0;
      case Unequal(a, b) =>
        var same := CalcEqual(a, b, env, n);
        v := if same then 0 else 2;
    }

    method CalcExprOpt(e: Option<Expr>, ghost env: Env, ghost n: nat) returns (v: Tri)
      requires Valid(env) && Below(order, MentionedOpt(e), n)
      requires forall b :: b in busy ==> b in order && Rank(order, b) >= n
      modifies this`curr, this`visible, this`revTri, this`valid, this`write, this`busy
      ensures Valid(env) && v == ValueOpt(e, env)
      ensures Extends(old(View()), View(), old(busy)) && busy == old(busy)
      decreases n, 2
    {
      v := 2;
      if e.Some? {
        v := CalcExpr(e.value, env, n);
      }
    }

    /** A symbol's tristate value, calculated if need be. */
    method CalcSym(s: Symbol, ghost env: Env, ghost n: nat) returns (v: Tri)
      requires Valid(env) && (s in order ==> Rank(order, s) < n)
      requires forall b :: b in busy ==> b in order && Rank(order, b) >= n
      modifies this`curr, this`visible, this`revTri, this`valid, this`write, this`busy
      ensures Valid(env) && v == env.tri(s) && (s in c.table ==> s in valid)
      ensures Extends(old(View()), View(), old(busy)) && busy == old(busy)
      decreases n, 0, 1
    {
      if s !in c.table {
        return c.base.tri(s);
      }
      CalcValue(s, env);
      v := curr[s];
    }

    /** The strings of two symbols compared. */
    method CalcEqual(a: Symbol, b: Symbol, ghost env: Env, ghost n: nat) returns (same: bool)
      requires Valid(env) && Below(order, {a, b}, n)
      requires forall x :: x in busy ==> x in order && Rank(order, x) >= n
      modifies this`curr, this`visible, this`revTri, this`valid, this`write, this`busy
      ensures Valid(env) && same == (env.str(a) == env.str(b))
      ensures Extends(old(View()), View(), old(busy)) && busy == old(busy)
      decreases n, 0, 2
    {
      var v := CalcSym(a, env, n);
      var w := CalcSym(b, env, n);
      same := (if a in c.table then Letter(v) else c.base.str(a)) ==
          (if b in c.table then Letter(w) else c.base.str(b));
    }

    /** sym_calc_value. */
    method CalcValue(s: Symbol, ghost env: Env)
      requires Valid(env) && s in c.table && s in order
      requires forall b :: b in busy ==> b in order && Rank(order, b) > Rank(order, s)
      modifies this`curr, this`visible, this`revTri, this`valid, this`write, this`busy
      ensures Valid(env) && s in valid && s in curr && curr[s] == env.tri(s)
      ensures Extends(old(View()), View(), old(busy)) && busy == old(busy)
      decreases Rank(order, s), 6
    {
      if s in valid {
        return;
      }
      ghost var f := View();
      Start(s, env);
      ghost var started := View();
      var tri := CalcFresh(s, env, Rank(order, s));
      ghost var g := View();
      Finish(s, tri, env);
      CalculationExtends(f, started, g, View(), old(busy), s);
    }

    method CalcFresh(s: Symbol, ghost env: Env, ghost n: nat) returns (tri: Tri)
      requires Valid(env) && s in c.table && s in busy && s !in write && s in order && n == Rank(order, s)
      requires forall b :: b in busy ==> b in order && Rank(order, b) >= n
      modifies this`curr, this`visible, this`revTri, this`valid, this`write, this`busy
      ensures Valid(env) && Promote(c, s, tri) == Equation(c, User(), s, env).tri
      ensures s in visible && visible[s] == Equation(c, User(), s, env).visible
      ensures s in revTri && revTri[s] == Equation(c, User(), s, env).revTri
      ensures s in write <==> Equation(c, User(), s, env).write
      ensures Extends(old(View()), View(), old(busy) - {s}) && busy == old(busy)
      decreases n, 5
    {
      DepsBelow(c, order, s);
      CalcVisibility(s, env, n);
      SetCurr(s, 0, env);
      tri := CalcTri(s, env, n);
    }

    method SetVisible(s: Symbol, v: Tri, ghost env: Env)
      requires Valid(env) && s in busy
      modifies this`visible
      ensures Valid(env) && visible == old(visible)[s := v]
    {
      visible := visible[s := v];
    }

    method SetRevTri(s: Symbol, v: Tri, ghost env: Env)
      requires Valid(env) && s in busy
      modifies this`revTri
      ensures Valid(env) && revTri == old(revTri)[s := v]
    {
      revTri := revTri[s := v];
    }

    method SetCurr(s: Symbol, v: Tri, ghost env: Env)
      requires Valid(env) && s in busy
      modifies this`curr
      ensures Valid(env) && curr == old(curr)[s := v]
    {
      curr := curr[s := v];
    }

    method SetWrite(s: Symbol, ghost env: Env)
      requires Valid(env) && s in busy
      modifies this`write
      ensures Valid(env) && write == old(write) + {s}
    {
      write := write + {s};
    }

    /** The symbol counts as valid from now on, and not as one to write. */
    method Start(s: Symbol, ghost env: Env)
      requires Valid(env) && s in c.table && s !in valid
      modifies this`valid, this`write, this`busy
      ensures Valid(env) && valid == old(valid) + {s} && write == old(write) - {s} && busy == old(busy) + {s}
    {
      valid, write, busy := valid + {s}, write - {s}, busy + {s};
    }

    method Finish(s: Symbol, tri: Tri, ghost env: Env)
      requires Valid(env) && s in c.table && s in busy && s !in stale
      requires s in visible && visible[s] == Equation(c, User(), s, env).visible
      requires s in revTri && revTri[s] == Equation(c, User(), s, env).revTri
      requires Promote(c, s, tri) == Equation(c, User(), s, env).tri
      requires s in write <==> Equation(c, User(), s, env).write
      modifies this`curr, this`busy
      ensures Valid(env) && s in curr && curr[s] == env.tri(s)
      ensures busy == old(busy) - {s}
    {
      SetCurr(s, Promote(c, s, tri), env);
      Completed(c, User(), env, View(), busy, stale, s);
      busy := busy - {s};
    }

    /** sym_calc_visibility. */
    method CalcVisibility(s: Symbol, ghost env: Env, ghost n: nat)
      requires Valid(env) && s in c.table && s in busy && Below(order, Deps(c.table, s), n)
      requires forall b :: b in busy ==> b in order && Rank(order, b) >= n
      modifies this`curr, this`visible, this`revTri, this`valid, this`write, this`busy
      ensures Valid(env) && s in visible && s in revTri
      ensures visible[s] == Equation(c, User(), s, env).visible && revTri[s] == Equation(c, User(), s, env).revTri
      ensures Extends(old(View()), View(), old(busy) - {s}) && busy == old(busy)
      ensures s in write <==> s in old(write)
      decreases n, 4
    {
      var tri := CalcPrompts(s, env, n);
      SetVisible(s, Promote(c, s, tri), env);
      tri := 0;
      if c.table[s].revDep.Some? {
        tri := CalcExpr(c.table[s].revDep.value, env, n);
      }
      SetRevTri(s, Promote(c, s, tri), env);
    }

    /** The visible conditions of all prompts together. */
    method CalcPrompts(s: Symbol, ghost env: Env, ghost n: nat) returns (tri: Tri)
      requires Valid(env) && s in c.table && Below(order, Deps(c.table, s), n)
      requires forall b :: b in busy ==> b in order && Rank(order, b) >= n
      modifies this`curr, this`visible, this`revTri, this`valid, this`write, this`busy
      ensures Valid(env) && tri == PromptsValue(c.table[s].props, env)
      ensures Extends(old(View()), View(), old(busy)) && busy == old(busy)
      decreases n, 3, 1
    {
      ghost var props := c.table[s].props;
      tri := 0;
      var i := 0;
      while i < |c.table[s].props|
        invariant i <= |props| && Valid(env) && tri == PromptsValue(props[..i], env)
        invariant Extends(old(View()), View(), old(busy)) && busy == old(busy)
      {
        ghost var before := View();
        tri := CalcPrompt(s, i, tri, env, n);
        ExtendsAgain(old(View()), before, View(), busy);
        i := i + 1;
      }
      assert props[..i] == props;
    }

    method CalcPrompt(s: Symbol, i: nat, was: Tri, ghost env: Env, ghost n: nat) returns (tri: Tri)
      requires Valid(env) && s in c.table && Below(order, Deps(c.table, s), n)
      requires forall b :: b in busy ==> b in order && Rank(order, b) >= n
      requires i < |c.table[s].props| && was == PromptsValue(c.table[s].props[..i], env)
      modifies this`curr, this`visible, this`revTri, this`valid, this`write, this`busy
      ensures Valid(env) && tri == PromptsValue(c.table[s].props[..i + 1], env)
      ensures Extends(old(View()), View(), old(busy)) && busy == old(busy)
      decreases n, 3, 0
    {
      var d := c.table[s];
      tri := was;
      PropInPropsDeps(d.isChoice, d.props, i);
      if d.props[i].kind == Prompt {
        var v := CalcExprOpt(d.props[i].visible, env, n);
        tri := Max(tri, v);
      }
      PromptsNext(d.props, i, env);
    }

    /** The new value, from the user's wish or the defaults. */
    method CalcTri(s: Symbol, ghost env: Env, ghost n: nat) returns (tri: Tri)
      requires Valid(env) && s in c.table && s in busy && s !in write && Below(order, Deps(c.table, s), n)
      requires forall b :: b in busy ==> b in order && Rank(order, b) >= n
      requires s in visible && visible[s] == Equation(c, User(), s, env).visible
      requires s in revTri && revTri[s] == Equation(c, User(), s, env).revTri
      modifies this`curr, this`visible, this`revTri, this`valid, this`write, this`busy
      ensures Valid(env) && Promote(c, s, tri) == Equation(c, User(), s, env).tri
      ensures s in visible && visible[s] == old(visible)[s] && s in revTri && revTri[s] == old(revTri)[s]
      ensures Extends(old(View()), View(), old(busy) - {s}) && busy == old(busy)
      ensures s in write <==> Equation(c, User(), s, env).write
      decreases n, 4
    {
      tri := 0;
      if Max(visible[s], revTri[s]) != 0 {
        SetWrite(s, env);
        if s in userTri && s !in isNew {
          tri := userTri[s];
        } else {
          var def := CalcDefault(s, env, n);
          tri := OrNo(def);
        }
        tri := Max(Min(tri, visible[s]), revTri[s]);
      } else {
        var def := CalcDefault(s, env, n);
        if def.Some? {
          SetWrite(s, env);
          tri := def.value;
        }
      }
    }

    /** sym_get_default_prop, and the value of the default it finds. */
    method CalcDefault(s: Symbol, ghost env: Env, ghost n: nat) returns (def: Option<Tri>)
      requires Valid(env) && s in c.table && Below(order, Deps(c.table, s), n)
      requires forall b :: b in busy ==> b in order && Rank(order, b) >= n
      modifies this`curr, this`visible, this`revTri, this`valid, this`write, this`busy
      ensures Valid(env) && def == DefaultValue(c.table[s].props, env)
      ensures Extends(old(View()), View(), old(busy)) && busy == old(busy)
      decreases n, 3
    {
      var d := c.table[s];
      var i := 0;
      assert d.props[0..] == d.props;
      while i < |d.props|
        invariant i <= |d.props| && Valid(env) && DefaultValue(d.props, env) == DefaultValue(d.props[i..], env)
        invariant Extends(old(View()), View(), old(busy)) && busy == old(busy)
      {
        PropInPropsDeps(d.isChoice, d.props, i);
        assert d.props[i..][1..] == d.props[i + 1..];
        if d.props[i].kind == Default {
          var v := CalcExprOpt(d.props[i].visible, env, n);
          if v != 0 {
            v := CalcExprOpt(d.props[i].expr, env, n);
            return Some(v);
          }
        }
        i := i + 1;
      }
      def := None;
    }
  }

  /** The symbols in `syms` have the values of env. */
  ghost predicate Settled(st: Symbols, syms: seq<Symbol>, env: Env)
    reads st
  {
    forall s :: s in syms && s in st.c.table ==> s in st.valid && s in st.curr && st.curr[s] == env.tri(s)
  }

  /** All symbols in turn. */
  method CalcAll(st: Symbols, syms: seq<Symbol>, ghost env: Env)
    requires st.Valid(env) && st.busy == {}
    modifies st`curr, st`visible, st`revTri, st`valid, st`write, st`busy
    ensures st.Valid(env) && st.busy == {} && Settled(st, syms, env)
  {
    var i := 0;
    while i < |syms|
      invariant CalculatedTo(st, syms, i, env)
    {
      CalcNext(st, syms, i, env);
      i := i + 1;
    }
    AllSettled(st, env);
  }

  ghost predicate CalculatedTo(st: Symbols, syms: seq<Symbol>, i: nat, env: Env)
    reads st
  {
    && i <= |syms| && st.Valid(env) && st.busy == {}
    && forall s :: s in syms[..i] && s in st.c.table ==> s in st.valid
  }

  method CalcNext(st: Symbols, syms: seq<Symbol>, i: nat, ghost env: Env)
    requires i < |syms| && CalculatedTo(st, syms, i, env)
    modifies st`curr, st`visible, st`revTri, st`valid, st`write, st`busy
    ensures CalculatedTo(st, syms, i + 1, env)
  {
    if syms[i] in st.c.table {
      st.CalcValue(syms[i], env);
    }
    assert syms[..i + 1] == syms[..i] + [syms[i]];
  }

  lemma AllSettled(st: Symbols, env: Env)
    requires st.Valid(env) && st.busy == {}
    ensures forall s :: s in st.c.table && s in st.valid ==> s in st.curr && st.curr[s] == env.tri(s)
  {
    forall s | s in st.c.table && s in st.valid ensures s in st.curr && st.curr[s] == env.tri(s) {
      assert Holds(st.View(), s, Equation(st.c, st.User(), s, env));
    }
  }

  /** The parser's check for circular dependencies, and then the calculation of
      every symbol.  There is something to calculate exactly when there is no
      circle, and then each symbol gets its value in the only solution. */
  method CheckAndCalculate(c: Config, userTri: map<Symbol, Tri>, isNew: set<Symbol>, syms: seq<Symbol>)
    returns (st: Symbols?, ghost env: Env)
    requires Proper(c) && forall s :: s in c.table ==> s in syms
    ensures st == null <==> HasCycle(c.table)
    ensures st != null ==>
      && fresh(st) && st.c == c && st.userTri == userTri && st.isNew == isNew
      && st.Valid(env) && st.busy == {} && Settled(st, syms, env)
      && forall other, s :: Solves(c, st.User(), other) ==> other.tri(s) == env.tri(s) && other.str(s) == env.str(s)
  {
    var checker := new Checker(c.table);
    checker.CheckAll(syms);
    env := c.base;
    if checker.reports != [] {
      return null, env;
    }
    st, env := Calculate(c, userTri, isNew, syms, checker.order);
  }

  method Calculate(c: Config, userTri: map<Symbol, Tri>, isNew: set<Symbol>, syms: seq<Symbol>,
      ghost order: seq<Symbol>)
    returns (st: Symbols, ghost env: Env)
    requires Proper(c) && Ordered(c, order)
    ensures fresh(st) && st.c == c && st.userTri == userTri && st.isNew == isNew
    ensures st.Valid(env) && st.busy == {} && Settled(st, syms, env)
    ensures forall other, s :: Solves(c, st.User(), other) ==> other.tri(s) == env.tri(s) && other.str(s) == env.str(s)
  {
    st := new Symbols(c, userTri, isNew, order);
    ghost var user := st.User();
    env := Solution(c, user, order, |order|);
    CalcAll(st, syms, env);
    forall other, s | Solves(c, user, other) ensures other.tri(s) == env.tri(s) && other.str(s) == env.str(s) {
      OneSolution(c, user, order, other, env, s);
    }
  }

  /** A symbol whose fields are as they should be is no longer under calculation. */
  lemma Completed(c: Config, user: User, env: Env, f: Fields, busy: set<Symbol>, stale: set<Symbol>, s: Symbol)
    requires Solves(c, user, env) && Cached(c, user, env, f, busy)
    requires WriteKnown(c, user, env, f, f.valid - busy - stale)
    requires s in c.table && Holds(f, s, Equation(c, user, s, env))
    requires s in f.write <==> Equation(c, user, s, env).write
    ensures Cached(c, user, env, f, busy - {s}) && WriteKnown(c, user, env, f, f.valid - (busy - {s}) - stale)
    ensures f.curr[s] == env.tri(s)
  {
  }

  lemma DepsBelow(c: Config, order: seq<Symbol>, s: Symbol)
    requires Ordered(c, order) && s in c.table
    ensures s in order && Below(order, Deps(c.table, s), Rank(order, s))
  {
    forall t | t in Deps(c.table, s) ensures t in order && Rank(order, t) < Rank(order, s) {
      RankOfDep(c, order, s, t);
    }
  }
}
