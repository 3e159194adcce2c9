/** sym_check_deps: the search for recursive dependencies. */
module KconfigDeps {
  import opened Basics
  import opened KconfigExpr

  datatype PropType = Prompt | Default | Choice | Select | OtherProp

  datatype Property = Property(kind: PropType, visible: Option<Expr>, expr: Option<Expr>)

  /** What the search reads of a symbol. */
  datatype Decl = Decl(isChoice: bool, revDep: Option<Expr>, props: seq<Property>)

  type Table = map<Symbol, Decl>

  function Mentioned(e: Expr): set<Symbol> {
    match e
    case Sym(s) => {s}
    case Not(x) => Mentioned(x)
    case And(l, r) => Mentioned(l) + Mentioned(r)
    case Or(l, r) => Mentioned(l) + Mentioned(r)
    case Equal(a, b) => {a, b}
    case Unequal(a, b) => {a, b}
  }

  function MentionedOpt(e: Option<Expr>): set<Symbol> {
    if e.Some? then Mentioned(e.value) else {}
  }

  /** A property's share of the dependencies: conditions of everything but choice
      and select properties, values of defaults of symbols that are no choices. */
  function PropDeps(isChoice: bool, p: Property): set<Symbol> {
    if p.kind == Choice || p.kind == Select then {}
    else MentionedOpt(p.visible) + if p.kind == Default && !isChoice then MentionedOpt(p.expr) else {}
  }

  function PropsDeps(isChoice: bool, props: seq<Property>): set<Symbol> {
    if |props| == 0 then {} else PropsDeps(isChoice, props[..|props| - 1]) + PropDeps(isChoice, props[|props| - 1])
  }

  /** The symbols that sym depends on. */
  function Deps(table: Table, sym: Symbol): set<Symbol> {
    if sym !in table then {}
    else MentionedOpt(table[sym].revDep) + PropsDeps(table[sym].isChoice, table[sym].props)
  }

  /** Each symbol of the path depends on the next one. */
  ghost predicate IsPath(table: Table, p: seq<Symbol>) {
    forall i :: 0 <= i < |p| - 1 ==> p[i + 1] in Deps(table, p[i])
  }

  ghost predicate IsCycle(table: Table, p: seq<Symbol>) {
    |p| >= 2 && p[0] == p[|p| - 1] && IsPath(table, p)
  }

  ghost predicate HasCycle(table: Table) {
    exists p :: IsCycle(table, p)
  }

  /** A printed report: each symbol is named after one it depends on, and the
      last name closes the circle. */
  ghost predicate IsReport(table: Table, names: seq<Symbol>) {
    && |names| >= 2 && names[0] == names[|names| - 1]
    && forall i :: 0 <= i < |names| - 1 ==> names[i] in Deps(table, names[i + 1])
  }

  function Reverse(s: seq<Symbol>): (r: seq<Symbol>)
    ensures |r| == |s| && forall i :: 0 <= i < |s| ==> r[i] == s[|s| - 1 - i]
  {
    seq(|s|, i requires 0 <= i < |s| => s[|s| - 1 - i])
  }

  lemma ReportIsCycle(table: Table, names: seq<Symbol>)
    requires IsReport(table, names)
    ensures IsCycle(table, Reverse(names)) && HasCycle(table)
  {
    var p := Reverse(names);
    forall i | 0 <= i < |p| - 1 ensures p[i + 1] in Deps(table, p[i]) {
      var j := |names| - 2 - i;
      assert names[j] in Deps(table, names[j + 1]);
    }
    assert IsCycle(table, p);
  }

  /** In `order`, every symbol comes after all it depends on. */
  ghost predicate Sorted(table: Table, order: seq<Symbol>) {
    forall i, t :: 0 <= i < |order| && t in Deps(table, order[i]) ==> t in order[..i]
  }

  /** A path that starts inside a sorted order goes down in it. */
  lemma {:induction false} PathDescends(table: Table, order: seq<Symbol>, p: seq<Symbol>, i: nat)
    requires Sorted(table, order) && IsPath(table, p) && |p| >= 1 && i < |order| && order[i] == p[0]
    ensures |p| >= 2 ==> p[|p| - 1] in order[..i]
  {
    if |p| >= 2 {
      assert p[1] in Deps(table, p[0]);
      var j :| 0 <= j < i && order[j] == p[1];
      assert IsPath(table, p[1..]) by {
        forall k | 0 <= k < |p[1..]| - 1 ensures p[1..][k + 1] in Deps(table, p[1..][k]) {
          assert p[k + 2] in Deps(table, p[k + 1]);
        }
      }
      PathDescends(table, order, p[1..], j);
      if |p| > 2 {
        assert p[1..][|p[1..]| - 1] == p[|p| - 1];
      }
    }
  }

  /** No cycle among symbols that can be sorted, if nothing else has dependencies. */
  lemma SortedHasNoCycle(table: Table, order: seq<Symbol>)
    requires Sorted(table, order) && forall s :: s in table ==> s in order
    requires forall i, j :: 0 <= i < j < |order| ==> order[i] != order[j]
    ensures !HasCycle(table)
  {
    if p :| IsCycle(table, p) {
      assert p[1] in Deps(table, p[0]);
      var i :| 0 <= i < |order| && order[i] == p[0];
      PathDescends(table, order, p, i);
    }
  }

  lemma {:induction false} PropInPropsDeps(isChoice: bool, props: seq<Property>, i: nat)
    requires i < |props|
    ensures PropDeps(isChoice, props[i]) <= PropsDeps(isChoice, props)
  {
    if i < |props| - 1 {
      PropInPropsDeps(isChoice, props[..|props| - 1], i);
    }
  }

  /** The flag bits and the output of the search, with the path of symbols being
      checked (outermost first) and the order in which symbols were finished. */
  datatype Search = Search(check: set<Symbol>, checked: set<Symbol>, reports: seq<seq<Symbol>>,
                           path: seq<Symbol>, order: seq<Symbol>)

  /** The state of the flags, whatever is being printed. */
  ghost predicate Flags(table: Table, s: Search) {
    && (forall x :: x in s.check <==> x in s.path)
    && (forall i, j :: 0 <= i < j < |s.path| ==> s.path[i] != s.path[j])
    && IsPath(table, s.path)
    && s.check <= s.checked
    && (s.reports == [] ==>
          && Sorted(table, s.order)
          && (forall x :: x in s.order <==> x in s.checked && x !in s.check)
          && (forall i, j :: 0 <= i < j < |s.order| ==> s.order[i] != s.order[j]))
  }

  /** Between searches every report is complete. */
  ghost predicate Steady(table: Table, s: Search) {
    Flags(table, s) && forall i :: 0 <= i < |s.reports| ==> IsReport(table, s.reports[i])
  }

  /** A line of names under way, from the symbol found twice to `at`. */
  ghost predicate PartialReport(table: Table, names: seq<Symbol>, found: Symbol, at: Symbol) {
    && |names| >= 1 && names[0] == found && names[|names| - 1] == at
    && forall i :: 0 <= i < |names| - 1 ==> names[i] in Deps(table, names[i + 1])
  }

  /** While a warning is being printed its last line has come as far as `at`. */
  ghost predicate Unwinding(table: Table, s: Search, found: Symbol, at: Symbol) {
    && Flags(table, s) && found in s.path && |s.reports| > 0
    && (forall i :: 0 <= i < |s.reports| - 1 ==> IsReport(table, s.reports[i]))
    && PartialReport(table, s.reports[|s.reports| - 1], found, at)
  }

  /** Visited and left again. */
  predicate Done(s: Search, among: set<Symbol>) {
    among <= s.checked && among !! s.check
  }

  /** What a search among some symbols comes back with. */
  ghost predicate Outcome(table: Table, s: Search, found: Option<Symbol>, among: set<Symbol>) {
    if found.None? then Steady(table, s) && Done(s, among)
    else exists at :: at in among && Unwinding(table, s, found.value, at)
  }

  function Push(s: Search, sym: Symbol): Search {
    s.(check := s.check + {sym}, checked := s.checked + {sym}, path := s.path + [sym])
  }

  /** Leaving a symbol; it counts as finished as long as nothing was reported. */
  function Pop(s: Search): Search
    requires s.path != []
  {
    var sym := s.path[|s.path| - 1];
    s.(check := s.check - {sym}, path := s.path[..|s.path| - 1],
       order := if s.reports == [] then s.order + [sym] else s.order)
  }

  lemma PushSteady(table: Table, s: Search, sym: Symbol)
    requires Steady(table, s) && sym !in s.checked && (s.path != [] ==> sym in Deps(table, s.path[|s.path| - 1]))
    ensures Steady(table, Push(s, sym))
  {
    var s' := Push(s, sym);
    forall i | 0 <= i < |s'.path| - 1 ensures s'.path[i + 1] in Deps(table, s'.path[i]) {
      if i < |s.path| - 1 {
        assert s.path[i + 1] in Deps(table, s.path[i]);
      }
    }
  }

  lemma PopFlags(table: Table, s: Search)
    requires Flags(table, s) && s.path != [] && s.reports != []
    ensures Flags(table, Pop(s))
  {
  }

  lemma PopSteady(table: Table, s: Search)
    requires Steady(table, s) && s.path != []
    requires Done(s, Deps(table, s.path[|s.path| - 1]))
    ensures Outcome(table, Pop(s), None, {s.path[|s.path| - 1]})
  {
    var s', sym := Pop(s), s.path[|s.path| - 1];
    assert sym in s.check && sym in s.checked;
    if s.reports == [] {
      SortedAppend(table, s.order, sym);
      assert forall x :: x in s'.order <==> x in s.order || x == sym;
    }
  }

  lemma SortedAppend(table: Table, order: seq<Symbol>, sym: Symbol)
    requires Sorted(table, order) && forall t :: t in Deps(table, sym) ==> t in order
    ensures Sorted(table, order + [sym])
  {
    var order' := order + [sym];
    forall i, t | 0 <= i < |order'| && t in Deps(table, order'[i]) ensures t in order'[..i] {
      if i < |order| {
        assert order'[..i] == order[..i];
      } else {
        assert order'[..i] == order;
      }
    }
  }

  /** Printing the name of the symbol that is being left. */
  function Name(s: Search, sym: Symbol): Search
    requires s.reports != []
  {
    s.(reports := s.reports[|s.reports| - 1 := s.reports[|s.reports| - 1] + [sym]])
  }

  lemma NameExtends(table: Table, names: seq<Symbol>, found: Symbol, at: Symbol, sym: Symbol)
    requires PartialReport(table, names, found, at) && at in Deps(table, sym)
    ensures PartialReport(table, names + [sym], found, sym)
    ensures sym == found ==> IsReport(table, names + [sym])
  {
  }

  lemma PopUnwinding(table: Table, s: Search, found: Symbol, at: Symbol)
    requires Unwinding(table, s, found, at) && s.path != [] && at in Deps(table, s.path[|s.path| - 1])
    ensures var sym := s.path[|s.path| - 1];
            Outcome(table, Pop(Name(s, sym)), if found == sym then None else Some(found), {sym})
  {
    var sym := s.path[|s.path| - 1];
    var s' := Pop(Name(s, sym));
    NameExtends(table, s.reports[|s.reports| - 1], found, at, sym);
    PopFlags(table, Name(s, sym));
    if found != sym {
      assert found in s'.path;
      assert Unwinding(table, s', found, sym);
    }
  }

  class Checker {
    const table: Table
    var check: set<Symbol>             // SYMBOL_CHECK: on the current path
    var checked: set<Symbol>           // SYMBOL_CHECKED: visited at some time
    var reports: seq<seq<Symbol>>      // one list of names for each warning printed
    ghost var path: seq<Symbol>
    ghost var order: seq<Symbol>

    constructor (table: Table)
      ensures Valid() && this.table == table && path == [] && checked == {} && reports == []
    {
      this.table := table;
      check, checked, reports := {}, {}, [];
      path, order := [], [];
    }

    ghost function View(): Search
      reads this
    {
      Search(check, checked, reports, path, order)
    }

    ghost predicate Valid()
      reads this
    {
      Steady(table, View())
    }

    ghost function Unvisited(): nat
      reads this
    {
      |table.Keys - checked|
    }

    /** sym_check_expr_deps: stops at the first recursion found. */
    method CheckExprDeps(e: Expr) returns (found: Option<Symbol>)
      requires Valid() && path != [] && Mentioned(e) <= Deps(table, path[|path| - 1])
      modifies this
      ensures Outcome(table, View(), found, Mentioned(e))
      ensures path == old(path) && check == old(check) && old(checked) <= checked
      decreases Unvisited(), 1, e
    {
      match e
      case Sym(s) => found := CheckDeps(s);
      case Not(x) => found := CheckExprDeps(x);
      case And(l, r) => found := CheckTwo(l, r, e);
      case Or(l, r) => found := CheckTwo(l, r, e);
      case Equal(a, b) => found := CheckPair(a, b);
      case Unequal(a, b) => found := CheckPair(a, b);
    }

    method CheckOptional(e: Option<Expr>) returns (found: Option<Symbol>)
      requires Valid() && path != [] && MentionedOpt(e) <= Deps(table, path[|path| - 1])
      modifies this
      ensures Outcome(table, View(), found, MentionedOpt(e))
      ensures path == old(path) && check == old(check) && old(checked) <= checked
      decreases Unvisited(), 2
    {
      found := None;
      if e.Some? {
        found := CheckExprDeps(e.value);
      }
    }

    method CheckTwo(l: Expr, r: Expr, ghost e: Expr) returns (found: Option<Symbol>)
      requires Valid() && path != [] && Mentioned(l) + Mentioned(r) <= Deps(table, path[|path| - 1])
      requires (e.And? || e.Or?) && e.l == l && e.r == r
      modifies this
      ensures Outcome(table, View(), found, Mentioned(l) + Mentioned(r))
      ensures path == old(path) && check == old(check) && old(checked) <= checked
      decreases Unvisited(), 1, e, 0
    {
      found := CheckExprDeps(l);
      if found.None? {
        Fewer(table.Keys, old(checked), checked);
        found := CheckExprDeps(r);
      }
    }

    method CheckPair(a: Symbol, b: Symbol) returns (found: Option<Symbol>)
      requires Valid() && path != [] && {a, b} <= Deps(table, path[|path| - 1])
      modifies this
      ensures Outcome(table, View(), found, {a, b})
      ensures path == old(path) && check == old(check) && old(checked) <= checked
      decreases Unvisited(), 0, 2
    {
      found := CheckDeps(a);
      if found.None? {
        Fewer(table.Keys, old(checked), checked);
        found := CheckDeps(b);
      }
    }

    /** sym_check_deps. */
    method CheckDeps(sym: Symbol) returns (found: Option<Symbol>)
      requires Valid() && (path != [] ==> sym in Deps(table, path[|path| - 1]))
      modifies this
      ensures Outcome(table, View(), found, {sym})
      ensures path == old(path) && check == old(check) && old(checked) <= checked
      decreases Unvisited(), 0, 1
    {
      if sym in check {
        StartReport(sym);
        return Some(sym);
      }
      if sym in checked {
        return None;
      }
      found := CheckFresh(sym);
    }

    method CheckFresh(sym: Symbol) returns (found: Option<Symbol>)
      requires Valid() && sym !in checked && (path != [] ==> sym in Deps(table, path[|path| - 1]))
      modifies this
      ensures Outcome(table, View(), found, {sym})
      ensures path == old(path) && check == old(check) && old(checked) <= checked
      decreases Unvisited(), 0, 0
    {
      Enter(sym);
      found := None;
      if sym in table {
        found := CheckDecl(table[sym]);
      }
      found := Leave(sym, found);
    }

    /** A symbol met again on its own path. */
    method StartReport(sym: Symbol)
      requires Valid() && sym in check
      modifies this`reports
      ensures Unwinding(table, View(), sym, sym)
    {
      reports := reports + [[sym]];
    }

    method Enter(sym: Symbol)
      requires Valid() && sym !in checked && (path != [] ==> sym in Deps(table, path[|path| - 1]))
      modifies this
      ensures Valid() && View() == Push(old(View()), sym)
      ensures sym in table ==> Unvisited() < old(Unvisited())
      ensures sym !in table ==> Unvisited() == old(Unvisited())
    {
      PushSteady(table, View(), sym);
      if sym in table {
        FewerBy(table.Keys, checked, sym);
      } else {
        assert table.Keys - (checked + {sym}) == table.Keys - checked;
      }
      check, checked := check + {sym}, checked + {sym};
      path := path + [sym];
    }

    /** The part from the label `out` on. */
    method Leave(sym: Symbol, found: Option<Symbol>) returns (r: Option<Symbol>)
      requires path != [] && path[|path| - 1] == sym && Outcome(table, View(), found, Deps(table, sym))
      modifies this
      ensures Outcome(table, View(), r, {sym})
      ensures path == old(path)[..|old(path)| - 1] && check == old(check) - {sym} && checked == old(checked)
    {
      r := found;
      if found.Some? {
        PrintName(sym, found.value);
        if found.value == sym {
          r := None;
        }
      } else {
        PopSteady(table, View());
      }
      check := check - {sym};
      order := if reports == [] then order + [sym] else order;
      path := path[..|path| - 1];
    }

    /** The name of a symbol on the way out of a recursion. */
    method PrintName(sym: Symbol, found: Symbol)
      requires path != [] && path[|path| - 1] == sym && Outcome(table, View(), Some(found), Deps(table, sym))
      modifies this`reports
      ensures path != [] && Outcome(table, Pop(View()), if found == sym then None else Some(found), {sym})
    {
      ghost var at :| at in Deps(table, sym) && Unwinding(table, View(), found, at);
      PopUnwinding(table, View(), found, at);
      reports := reports[|reports| - 1 := reports[|reports| - 1] + [sym]];
      assert View() == Name(old(View()), sym);
    }

    /** The reverse dependencies, then the properties in order. */
    method CheckDecl(d: Decl) returns (found: Option<Symbol>)
      requires Valid() && path != [] && path[|path| - 1] in table && d == table[path[|path| - 1]]
      modifies this
      ensures Outcome(table, View(), found, Deps(table, old(path)[|old(path)| - 1]))
      ensures path == old(path) && check == old(check) && old(checked) <= checked
      decreases Unvisited(), 4
    {
      ghost var sym := path[|path| - 1];
      found := CheckOptional(d.revDep);
      if found.Some? {
        return;
      }
      var i := 0;
      while i < |d.props|
        invariant i <= |d.props| && found.None? && Valid()
        invariant path == old(path) && check == old(check) && old(checked) <= checked
        invariant Done(View(), MentionedOpt(d.revDep) + PropsDeps(d.isChoice, d.props[..i]))
      {
        PropInPropsDeps(d.isChoice, d.props, i);
        Fewer(table.Keys, old(checked), checked);
        found := CheckProperty(d.isChoice, d.props[i]);
        if found.Some? {
          return;
        }
        assert d.props[..i + 1][..i] == d.props[..i];
        i := i + 1;
      }
      assert d.props[..i] == d.props;
    }

    method CheckProperty(isChoice: bool, p: Property) returns (found: Option<Symbol>)
      requires Valid() && path != [] && PropDeps(isChoice, p) <= Deps(table, path[|path| - 1])
      modifies this
      ensures Outcome(table, View(), found, PropDeps(isChoice, p))
      ensures path == old(path) && check == old(check) && old(checked) <= checked
      decreases Unvisited(), 3
    {
      found := None;
      if p.kind == Choice || p.kind == Select {
        return;
      }
      found := CheckOptional(p.visible);
      if found.None? && p.kind == Default && !isChoice {
        Fewer(table.Keys, old(checked), checked);
        found := CheckOptional(p.expr);
      }
    }

    /** conf_parse checks every symbol in turn.  It prints at least one warning if
        and only if some symbol depends on itself, directly or not, and every
        warning printed names such a circle. */
    method CheckAll(syms: seq<Symbol>)
      requires Valid() && path == [] && checked == {} && reports == []
      requires forall s :: s in table ==> s in syms
      modifies this
      ensures reports != [] <==> HasCycle(table)
      ensures forall i :: 0 <= i < |reports| ==> IsReport(table, reports[i])
      ensures reports == [] ==> Sorted(table, order) && forall s :: s in table ==> s in order
      ensures reports == [] ==> forall i, j :: 0 <= i < j < |order| ==> order[i] != order[j]
    {
      var i := 0;
      while i < |syms|
        invariant i <= |syms| && Valid() && path == []
        invariant check == {} && forall j :: 0 <= j < i ==> syms[j] in checked
      {
        var found := CheckDeps(syms[i]);
        i := i + 1;
      }
      if reports == [] {
        SortedHasNoCycle(table, order);
      } else {
        ReportIsCycle(table, reports[0]);
      }
    }
  }

  lemma Fewer(keys: set<Symbol>, a: set<Symbol>, b: set<Symbol>)
    requires a <= b
    ensures |keys - b| <= |keys - a|
  {
    SubsetSize(keys - b, keys - a);
  }

  lemma FewerBy(keys: set<Symbol>, a: set<Symbol>, s: Symbol)
    requires s in keys && s !in a
    ensures |keys - (a + {s})| < |keys - a|
  {
    assert keys - (a + {s}) == (keys - a) - {s};
  }

  /** What a symbol depends on: what its reverse dependency mentions, the conditions of its
      properties other than choices and selects, and the values of the defaults of a
      symbol that is no choice. */
  lemma DepsAre(table: Table, sym: Symbol, t: Symbol)
    requires sym in table
    ensures t in Deps(table, sym) <==>
              var d := table[sym];
              || t in MentionedOpt(d.revDep)
              || (exists p :: p in d.props && p.kind in {Prompt, Default, OtherProp} && t in MentionedOpt(p.visible))
              || (!d.isChoice && exists p :: p in d.props && p.kind == Default && t in MentionedOpt(p.expr))
  {
    PropsDepsAre(table[sym].isChoice, table[sym].props, t);
  }

  lemma {:induction false} PropsDepsAre(isChoice: bool, props: seq<Property>, t: Symbol)
    ensures t in PropsDeps(isChoice, props) <==> exists p :: p in props && t in PropDeps(isChoice, p)
  {
    if |props| > 0 {
      var n := |props| - 1;
      PropsDepsAre(isChoice, props[..n], t);
      assert props[n] in props;
      assert forall p :: p in props <==> p in props[..n] || p == props[n];
    }
  }

  /** A table without the select properties. */
  function WithoutSelects(props: seq<Property>): seq<Property> {
    if |props| == 0 then []
    else WithoutSelects(props[..|props| - 1]) + if props[|props| - 1].kind == Select then [] else [props[|props| - 1]]
  }

  /** They make the selected symbol depend on the selecting one, and not the other way round. */
  lemma {:induction false} SelectsDoNotCount(isChoice: bool, props: seq<Property>)
    ensures PropsDeps(isChoice, WithoutSelects(props)) == PropsDeps(isChoice, props)
  {
    if |props| > 0 {
      var n := |props| - 1;
      SelectsDoNotCount(isChoice, props[..n]);
      var w := WithoutSelects(props[..n]);
      assert (w + [props[n]])[..|w|] == w && w + [] == w;
    }
  }
}
