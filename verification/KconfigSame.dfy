/** What expr_eq decides: whether two expressions are the same up to the order and
    the grouping of the operands of AND and OR. */
module KconfigSame {
  import opened Basics
  import opened KconfigExpr
  import opened KconfigYn
  import opened KconfigEq

  /** An expression without the order and the grouping of operands. */
  datatype Key = Atom(e: Expr) | Negated(k: Key) | Operands(op: Op, parts: multiset<Key>)

  function KeyOf(e: Expr): Key
    decreases e, 1
  {
    match e
    case Not(x) => Negated(KeyOf(x))
    case And(_, _) => Operands(AndOp, Parts(AndOp, e))
    case Or(_, _) => Operands(OrOp, Parts(OrOp, e))
    case _ => Atom(e)
  }

  /** The operands of a group, however it is nested. */
  function Parts(op: Op, e: Expr): multiset<Key>
    decreases e, if IsOp(e, op) then 0 else 2
  {
    if IsOp(e, op) then Parts(op, e.l) + Parts(op, e.r) else multiset{KeyOf(e)}
  }

  /** A symbol that the comparison never cancels: y, n, and every quoted name. */
  predicate Flagged(e: Expr) {
    e.Sym? && YesOrNoFlag(e.s)
  }

  /** No operand of a group, at any depth and below NOT too, is such a symbol. */
  predicate Plain(e: Expr) {
    match e
    case Not(x) => Plain(x)
    case And(l, r) => !Flagged(l) && !Flagged(r) && Plain(l) && Plain(r)
    case Or(l, r) => !Flagged(l) && !Flagged(r) && Plain(l) && Plain(r)
    case _ => true
  }

  /** A group under comparison: operands that are plain, and units in place of others. */
  predicate Partial(op: Op, e: Expr) {
    if IsOp(e, op) then Partial(op, e.l) && Partial(op, e.r) else e == Unit(op) || (Plain(e) && !Flagged(e))
  }

  /** The operands that are left. */
  function Left(op: Op, e: Expr): multiset<Key> {
    if IsOp(e, op) then Left(op, e.l) + Left(op, e.r) else if e == Unit(op) then multiset{} else multiset{KeyOf(e)}
  }

  lemma {:induction false} PlainIsPartial(op: Op, e: Expr)
    requires Plain(e) && !Flagged(e)
    ensures Partial(op, e) && Left(op, e) == Parts(op, e)
  {
    if IsOp(e, op) {
      PlainIsPartial(op, e.l);
      PlainIsPartial(op, e.r);
    }
  }

  lemma {:induction false} PlainHasNoConstant(e: Expr)
    requires Plain(e)
    ensures NoConstantOperand(e)
  {
    if IsGroup(e) {
      PlainHasNoConstant(e.l);
      PlainHasNoConstant(e.r);
    }
  }

  /** How often the operand with key k is left. */
  function Count(op: Op, e: Expr, k: Key): nat {
    if IsOp(e, op) then Count(op, e.l, k) + Count(op, e.r, k)
    else if e != Unit(op) && KeyOf(e) == k then 1 else 0
  }

  lemma {:induction false} CountIs(op: Op, e: Expr, k: Key)
    ensures Left(op, e)[k] == Count(op, e, k)
  {
    if IsOp(e, op) {
      CountIs(op, e.l, k);
      CountIs(op, e.r, k);
    }
  }

  lemma CountBuild(op: Op, l: Expr, r: Expr, k: Key)
    ensures Count(op, Build(op, l, r), k) == Count(op, l, k) + Count(op, r, k)
    ensures Partial(op, Build(op, l, r)) <==> Partial(op, l) && Partial(op, r)
  {
  }

  function Over(a: nat, b: nat): nat {
    if a > b then a - b else 0
  }

  lemma OverTwice(a: nat, b: nat, c: nat)
    ensures Over(a, c) + Over(b, Over(c, a)) == Over(a + b, c)
    ensures Over(Over(c, a), b) == Over(c, a + b)
  {
  }

  /** The pair r is what is left of x and y: of each operand as many as one side has more of
      than the other. */
  predicate Counted(op: Op, x: Expr, y: Expr, r: (Expr, Expr), k: Key) {
    && Partial(op, r.0) && Partial(op, r.1)
    && Count(op, r.0, k) == Over(Count(op, x, k), Count(op, y, k))
    && Count(op, r.1, k) == Over(Count(op, y, k), Count(op, x, k))
  }

  lemma FirstCounts(op: Op, x1: Expr, x2: Expr, y: Expr, r1: (Expr, Expr), r2: (Expr, Expr), k: Key)
    requires Counted(op, x1, y, r1, k) && Counted(op, x2, r1.1, r2, k)
    ensures Counted(op, Build(op, x1, x2), y, (Build(op, r1.0, r2.0), r2.1), k)
  {
    CountBuild(op, x1, x2, k);
    CountBuild(op, r1.0, r2.0, k);
    OverTwice(Count(op, x1, k), Count(op, x2, k), Count(op, y, k));
  }

  lemma SecondCounts(op: Op, x: Expr, y1: Expr, y2: Expr, r1: (Expr, Expr), r2: (Expr, Expr), k: Key)
    requires Counted(op, x, y1, r1, k) && Counted(op, r1.0, y2, r2, k)
    ensures Counted(op, x, Build(op, y1, y2), (r2.0, Build(op, r1.1, r2.1)), k)
  {
    CountBuild(op, y1, y2, k);
    CountBuild(op, r1.1, r2.1, k);
    OverTwice(Count(op, y1, k), Count(op, y2, k), Count(op, x, k));
  }

  lemma CancelIs(op: Op, x: Expr, y: Expr)
    ensures IsOp(x, op) ==>
              var r1 := CancelEq(op, x.l, y);
              var r2 := CancelEq(op, x.r, r1.1);
              CancelEq(op, x, y) == (Build(op, r1.0, r2.0), r2.1) && x == Build(op, x.l, x.r)
    ensures !IsOp(x, op) && IsOp(y, op) ==>
              var r1 := CancelEq(op, x, y.l);
              var r2 := CancelEq(op, r1.0, y.r);
              CancelEq(op, x, y) == (r2.0, Build(op, r1.1, r2.1)) && y == Build(op, y.l, y.r)
  {
  }

  /** Cancelling takes away what both sides have, as often as both have it. */
  lemma {:induction false} CancelCounts(op: Op, x: Expr, y: Expr, k: Key)
    requires Partial(op, x) && Partial(op, y)
    ensures Counted(op, x, y, CancelEq(op, x, y), k)
    decreases Size(x) + Size(y), if IsOp(x, op) || IsOp(y, op) then 0 else 3
  {
    if IsOp(x, op) {
      CancelIs(op, x, y);
      var r1 := CancelEq(op, x.l, y);
      CancelCounts(op, x.l, y, k);
      var r2 := CancelEq(op, x.r, r1.1);
      CancelCounts(op, x.r, r1.1, k);
      FirstCounts(op, x.l, x.r, y, r1, r2, k);
    } else if IsOp(y, op) {
      CancelIs(op, x, y);
      var r1 := CancelEq(op, x, y.l);
      CancelCounts(op, x, y.l, k);
      var r2 := CancelEq(op, r1.0, y.r);
      CancelCounts(op, r1.0, y.r, k);
      SecondCounts(op, x, y.l, y.r, r1, r2, k);
    } else {
      if x != Unit(op) && y != Unit(op) {
        ExprEqKeys(x, y);
      }
      CancelOne(op, x, y, k);
    }
  }

  lemma CancelOneIs(op: Op, x: Expr, y: Expr)
    requires Partial(op, x) && Partial(op, y) && !IsOp(x, op) && !IsOp(y, op)
    ensures CancelEq(op, x, y)
         == if x != Unit(op) && y != Unit(op) && ExprEq(x, y) then (Unit(op), Unit(op)) else (x, y)
  {
  }

  /** Two operands. */
  lemma CancelOne(op: Op, x: Expr, y: Expr, k: Key)
    requires Partial(op, x) && Partial(op, y) && !IsOp(x, op) && !IsOp(y, op)
    requires x != Unit(op) && y != Unit(op) ==> (ExprEq(x, y) <==> KeyOf(x) == KeyOf(y))
    ensures Counted(op, x, y, CancelEq(op, x, y), k)
  {
    CancelOneIs(op, x, y);
  }

  /** r is what operands with the keys m come down to. */
  predicate ComesTo(op: Op, m: multiset<Key>, r: Expr) {
    if m == multiset{} then r == Unit(op) else !Flagged(r) && (r.Sym? ==> m == multiset{KeyOf(r)})
  }

  lemma TwoComeTo(op: Op, m: multiset<Key>, n: multiset<Key>, l: Expr, r: Expr)
    requires ComesTo(op, m, l) && ComesTo(op, n, r)
    ensures ComesTo(op, m + n, if l == Unit(op) then r else if r == Unit(op) then l else Build(op, l, r))
  {
    if m == multiset{} {
      assert m + n == n;
    } else if n == multiset{} {
      assert m + n == m;
    } else {
      assert |m + n| == |m| + |n|;
    }
  }

  lemma EliminateGroup(op: Op, e: Expr)
    requires IsOp(e, op)
    ensures var l, r := EliminateYn(e.l), EliminateYn(e.r);
            (l == Unit(op) || !Flagged(l)) && (r == Unit(op) || !Flagged(r)) ==>
              EliminateYn(e) == if l == Unit(op) then r else if r == Unit(op) then l else Build(op, l, r)
  {
  }

  /** What is left after the units are dropped. */
  lemma {:induction false} LeftAlone(op: Op, e: Expr)
    requires Partial(op, e)
    ensures ComesTo(op, Left(op, e), EliminateYn(e))
  {
    if IsOp(e, op) {
      LeftAlone(op, e.l);
      LeftAlone(op, e.r);
      TwoComeTo(op, Left(op, e.l), Left(op, e.r), EliminateYn(e.l), EliminateYn(e.r));
      EliminateGroup(op, e);
    } else if e != Unit(op) {
      PlainHasNoConstant(e);
      EliminateYnNormal(e);
    }
  }

  lemma GroupEq(op: Op, e1: Expr, e2: Expr)
    requires IsOp(e1, op) && IsOp(e2, op)
    ensures var (a, b) := CancelEq(op, e1, e2);
            var (x, y) := (EliminateYn(a), EliminateYn(b));
            ExprEq(e1, e2) <==> x.Sym? && y.Sym? && x.s == y.s
  {
    var (a, b) := CancelEq(op, e1, e2);
    assert FirstPass(e1, e2) == (a, b) && SecondPass(a, b) == (a, b);
  }

  /** The remainders of both sides come to one symbol only if nothing remains. */
  lemma SameRemainder(op: Op, m: multiset<Key>, n: multiset<Key>, m': multiset<Key>, n': multiset<Key>, x: Expr,
      y: Expr)
    requires ComesTo(op, m', x) && ComesTo(op, n', y)
    requires forall k :: m'[k] == Over(m[k], n[k]) && n'[k] == Over(n[k], m[k])
    ensures (x.Sym? && y.Sym? && x.s == y.s) <==> m == n
  {
    if m == n {
      assert m' == multiset{} && n' == multiset{};
    } else {
      Differ(m, n);
      var k :| m[k] != n[k];
      assert m'[k] > 0 || n'[k] > 0;
      assert multiset{KeyOf(x)}[KeyOf(x)] == 1 && m'[KeyOf(x)] == Over(m[KeyOf(x)], n[KeyOf(x)]);
      assert n'[KeyOf(x)] == Over(n[KeyOf(x)], m[KeyOf(x)]);
    }
  }

  lemma Differ(m: multiset<Key>, n: multiset<Key>)
    ensures m != n ==> exists k :: m[k] != n[k]
  {
  }

  /** Two groups of one operator. */
  lemma {:induction false} GroupKeys(op: Op, e1: Expr, e2: Expr)
    requires IsOp(e1, op) && IsOp(e2, op) && Plain(e1) && Plain(e2)
    ensures ExprEq(e1, e2) <==> Parts(op, e1) == Parts(op, e2)
    decreases Size(e1) + Size(e2), 1
  {
    PlainIsPartial(op, e1);
    PlainIsPartial(op, e2);
    var (a, b) := CancelEq(op, e1, e2);
    CancelCounts(op, e1, e2, KeyOf(e1));
    forall k
      ensures Left(op, a)[k] == Over(Parts(op, e1)[k], Parts(op, e2)[k])
      ensures Left(op, b)[k] == Over(Parts(op, e2)[k], Parts(op, e1)[k])
    {
      CancelCounts(op, e1, e2, k);
      CountIs(op, e1, k);
      CountIs(op, e2, k);
      CountIs(op, a, k);
      CountIs(op, b, k);
    }
    LeftAlone(op, a);
    LeftAlone(op, b);
    SameRemainder(op, Parts(op, e1), Parts(op, e2), Left(op, a), Left(op, b), EliminateYn(a), EliminateYn(b));
    GroupEq(op, e1, e2);
  }

  /** expr_eq decides just that. */
  lemma {:induction false} ExprEqKeys(e1: Expr, e2: Expr)
    requires Plain(e1) && Plain(e2)
    ensures ExprEq(e1, e2) <==> KeyOf(e1) == KeyOf(e2)
    decreases Size(e1) + Size(e2), 2
  {
    match (e1, e2)
    case (Not(x), Not(y)) => ExprEqKeys(x, y);
    case (And(_, _), And(_, _)) => GroupKeys(AndOp, e1, e2);
    case (Or(_, _), Or(_, _)) => GroupKeys(OrOp, e1, e2);
    case _ =>
  }

  /** So an expression equals itself... */
  lemma ExprEqReflexive(e: Expr)
    requires Plain(e)
    ensures ExprEq(e, e)
  {
    ExprEqKeys(e, e);
  }

  /** ... and neither the order of operands nor their grouping matters. */
  lemma ExprEqReorders(op: Op, a: Expr, b: Expr, c: Expr)
    requires Plain(a) && Plain(b) && Plain(c) && !Flagged(a) && !Flagged(b) && !Flagged(c)
    ensures ExprEq(Build(op, a, b), Build(op, b, a))
    ensures ExprEq(Build(op, Build(op, a, b), c), Build(op, a, Build(op, b, c)))
  {
    Commutes(op, a, b);
    Associates(op, a, b, c);
  }

  lemma Commutes(op: Op, a: Expr, b: Expr)
    requires Plain(a) && Plain(b) && !Flagged(a) && !Flagged(b)
    ensures ExprEq(Build(op, a, b), Build(op, b, a))
  {
    var x, y := Build(op, a, b), Build(op, b, a);
    assert Parts(op, x) == Parts(op, a) + Parts(op, b) && Parts(op, y) == Parts(op, b) + Parts(op, a);
    GroupKeys(op, x, y);
  }

  lemma Associates(op: Op, a: Expr, b: Expr, c: Expr)
    requires Plain(a) && Plain(b) && Plain(c) && !Flagged(a) && !Flagged(b) && !Flagged(c)
    ensures ExprEq(Build(op, Build(op, a, b), c), Build(op, a, Build(op, b, c)))
  {
    var ab, bc := Build(op, a, b), Build(op, b, c);
    var x, y := Build(op, ab, c), Build(op, a, bc);
    assert Parts(op, ab) == Parts(op, a) + Parts(op, b) && Parts(op, bc) == Parts(op, b) + Parts(op, c);
    assert Parts(op, x) == Parts(op, ab) + Parts(op, c) && Parts(op, y) == Parts(op, a) + Parts(op, bc);
    GroupKeys(op, x, y);
  }

  lemma SymbolsStay(p: Symbol, q: Symbol)
    requires p != q || YesOrNoFlag(p)
    ensures CancelEq(AndOp, Sym(p), Sym(q)) == (Sym(p), Sym(q))
  {
  }

  /** Two quoted names as operands are too much: such a group does not even equal itself. */
  lemma QuotedDiffer(p: Symbol, q: Symbol)
    requires p.Named? && q.Named? && p.quoted && q.quoted && p != q
    ensures !ExprEq(And(Sym(p), Sym(q)), And(Sym(p), Sym(q)))
  {
    var x, y := Sym(p), Sym(q);
    var e := And(x, y);
    SymbolsStay(p, p);
    SymbolsStay(p, q);
    SymbolsStay(q, p);
    SymbolsStay(q, q);
    assert CancelEq(AndOp, x, e) == (x, e);
    assert CancelEq(AndOp, y, e) == (y, e);
    GroupEq(AndOp, e, e);
  }

  lemma EliminateFirst(op: Op, e1: Expr, e2: Expr)
    requires IsOp(e1, op) && (IsOp(e2, op) || !IsGroup(e2))
    ensures EliminateEq(e1, e2) == (EliminateYn(CancelEq(op, e1, e2).0), EliminateYn(CancelEq(op, e1, e2).1))
  {
    var r := CancelEq(op, e1, e2);
    assert FirstPass(e1, e2) == r;
    PlainStays(op, e1, e2);
    assert SecondPass(r.0, r.1) == r;
  }

  /** A single operand stays one. */
  lemma {:induction false} PlainStays(op: Op, x: Expr, y: Expr)
    ensures !IsGroup(y) ==> !IsGroup(CancelEq(op, x, y).1)
    decreases x
  {
    if IsOp(x, op) {
      PlainStays(op, x.l, y);
      PlainStays(op, x.r, CancelEq(op, x.l, y).1);
    }
  }

  lemma EliminateSecond(op: Op, e1: Expr, e2: Expr)
    requires !IsGroup(e1) && IsOp(e2, op)
    ensures EliminateEq(e1, e2) == (EliminateYn(CancelEq(op, e1, e2).0), EliminateYn(CancelEq(op, e1, e2).1))
  {
    var r := CancelEq(op, e1, e2);
    assert FirstPass(e1, e2) == (e1, e2);
    assert SecondPass(e1, e2) == r;
  }

  /** Of two groups of one operator, or of a group and a single operand, nothing is left of the
      second exactly when all its operands are among those of the first, each as often. */
  lemma EliminateEqContains(op: Op, e1: Expr, e2: Expr)
    requires Plain(e1) && Plain(e2) && !Flagged(e1) && !Flagged(e2)
    requires (IsOp(e1, op) || !IsGroup(e1)) && (IsOp(e2, op) || !IsGroup(e2)) && (IsOp(e1, op) || IsOp(e2, op))
    ensures EliminateEq(e1, e2).1 == Unit(op) <==> forall k :: Parts(op, e2)[k] <= Parts(op, e1)[k]
  {
    var b := CancelEq(op, e1, e2).1;
    PlainIsPartial(op, e1);
    PlainIsPartial(op, e2);
    if IsOp(e1, op) {
      EliminateFirst(op, e1, e2);
    } else {
      EliminateSecond(op, e1, e2);
    }
    CancelCounts(op, e1, e2, KeyOf(e1));
    forall k ensures Left(op, b)[k] == Over(Parts(op, e2)[k], Parts(op, e1)[k]) {
      CancelCounts(op, e1, e2, k);
      CountIs(op, e1, k);
      CountIs(op, e2, k);
      CountIs(op, b, k);
    }
    LeftAlone(op, b);
    NothingLeft(Left(op, b));
  }

  lemma NothingLeft(m: multiset<Key>)
    ensures m == multiset{} <==> forall k :: m[k] == 0
  {
    if forall k :: m[k] == 0 {
      assert forall k :: k !in m;
    }
  }
}
