/** An expression whose double expr_eliminate_dups simplifies less than itself. */
module KconfigDoubleLoss {
  import opened Basics
  import opened KconfigExpr
  import opened KconfigYn
  import opened KconfigEq
  import opened KconfigSame
  import opened KconfigSlots
  import opened KconfigJoin
  import opened KconfigDups
  import opened KconfigDupsLoop
  import opened KconfigDupsClean

  /** a && a!='m' for a boolean a is a='y', but a='y' && a!='m' is left alone. */
  lemma Rules(a: Symbol)
    requires IsKind(a, Boolean) && !a.quoted
    ensures var x, y, c, u := Sym(a), Unequal(a, Mod), Equal(a, Yes), Sym(Yes);
            && JoinAnd(x, y) == Some(c) && JoinAnd(c, x) == Some(c)
            && JoinAnd(c, y) == None && JoinAnd(y, c) == None
            && (forall z :: z in {x, y, c} ==> JoinAnd(u, z) == None && JoinAnd(z, u) == None)
  {
  }

  /** Four operands in two pairs, and their slots. */
  function Pairs(a: Expr, b: Expr, c: Expr, d: Expr): Expr {
    And(And(a, b), And(c, d))
  }

  function At(i: bool, j: bool): Path {
    [i, j]
  }

  /** The operand in one of the places replaced. */
  function With(a: Expr, b: Expr, c: Expr, d: Expr, i: bool, j: bool, x: Expr): Expr {
    Pairs(if !i && !j then x else a, if !i && j then x else b, if i && !j then x else c, if i && j then x else d)
  }

  lemma SlotsOf(a: Expr, b: Expr, c: Expr, d: Expr, i: bool, j: bool)
    ensures OnSpine(AndOp, Pairs(a, b, c, d), At(i, j)) && OnSpine(AndOp, Pairs(a, b, c, d), [i])
    ensures Get(AndOp, Pairs(a, b, c, d), At(i, j)) == Of(a, b, c, d, i, j)
    ensures Get(AndOp, Pairs(a, b, c, d), [i]) == if i then And(c, d) else And(a, b)
    ensures forall x :: Put(AndOp, Pairs(a, b, c, d), At(i, j), x) == With(a, b, c, d, i, j, x)
    ensures [i] + [j] == At(i, j)
  {
    var r, side := Pairs(a, b, c, d), if i then And(c, d) else And(a, b);
    var none: Path := [];
    assert At(i, j)[1..] == [j] && [j][1..] == none && [i][1..] == none;
    assert OnSpine(AndOp, if j then side.r else side.l, none);
    assert OnSpine(AndOp, side, [j]) && Get(AndOp, side, [j]) == if j then side.r else side.l;
    forall x ensures Put(AndOp, r, At(i, j), x) == With(a, b, c, d, i, j, x) {
      assert Put(AndOp, if j then side.r else side.l, none, x) == x;
    }
  }

  function Of(a: Expr, b: Expr, c: Expr, d: Expr, i: bool, j: bool): Expr {
    if i then if j then d else c else if j then b else a
  }

  predicate Flat(a: Expr, b: Expr, c: Expr, d: Expr) {
    !IsGroup(a) && !IsGroup(b) && !IsGroup(c) && !IsGroup(d)
  }

  /** One operand against another, without a rule. */
  lemma NoMeeting(a: Expr, b: Expr, c: Expr, d: Expr, i: bool, j: bool, k: bool, l: bool)
    requires Flat(a, b, c, d)
    requires (i == k && j == l) || JoinAnd(Of(a, b, c, d, i, j), Of(a, b, c, d, k, l)) == None
    ensures OnSpine(AndOp, Pairs(a, b, c, d), At(i, j)) && OnSpine(AndOp, Pairs(a, b, c, d), At(k, l))
    ensures Dups1(AndOp, Pairs(a, b, c, d), At(i, j), At(k, l)) == (Pairs(a, b, c, d), 0)
  {
    SlotsOf(a, b, c, d, i, j);
    SlotsOf(a, b, c, d, k, l);
    PutBack(AndOp, Pairs(a, b, c, d), At(i, j));
  }

  /** And with a rule: it takes the other one's place, and a unit takes its own. */
  lemma Meeting(a: Expr, b: Expr, c: Expr, d: Expr, i: bool, j: bool, k: bool, l: bool, x: Expr)
    requires Flat(a, b, c, d) && (i != k || j != l)
    requires JoinAnd(Of(a, b, c, d, i, j), Of(a, b, c, d, k, l)) == Some(x)
    ensures OnSpine(AndOp, Pairs(a, b, c, d), At(i, j)) && OnSpine(AndOp, Pairs(a, b, c, d), At(k, l))
    ensures var u := Sym(Yes);
            var r := With(a, b, c, d, i, j, u);
            Dups1(AndOp, Pairs(a, b, c, d), At(i, j), At(k, l)) == (With(r.l.l, r.l.r, r.r.l, r.r.r, k, l, x), 1)
  {
    var u := Sym(Yes);
    var r := With(a, b, c, d, i, j, u);
    assert At(i, j) != At(k, l);
    SlotsOf(a, b, c, d, i, j);
    SlotsOf(a, b, c, d, k, l);
    SlotsOf(r.l.l, r.l.r, r.r.l, r.r.r, k, l);
    PutBack(AndOp, Pairs(a, b, c, d), At(i, j));
  }

  /** The meetings of one operand with one pair, and with all. */
  lemma Unfold(a: Expr, b: Expr, c: Expr, d: Expr, i: bool, j: bool, k: bool, r1: Expr, n1: nat, r2: Expr, n2: nat)
    requires Flat(a, b, c, d) && OnSpine(AndOp, Pairs(a, b, c, d), At(i, j))
    requires OnSpine(AndOp, Pairs(a, b, c, d), At(k, false))
    requires Dups1(AndOp, Pairs(a, b, c, d), At(i, j), At(k, false)) == (r1, n1)
    requires OnSpine(AndOp, r1, At(i, j)) && OnSpine(AndOp, r1, At(k, true))
    requires Dups1(AndOp, r1, At(i, j), At(k, true)) == (r2, n2)
    ensures OnSpine(AndOp, Pairs(a, b, c, d), [k])
    ensures Dups1(AndOp, Pairs(a, b, c, d), At(i, j), [k]) == (r2, n1 + n2)
  {
    SlotsOf(a, b, c, d, i, j);
    SlotsOf(a, b, c, d, k, false);
    SlotsOf(a, b, c, d, k, true);
  }

  lemma UnfoldAll(a: Expr, b: Expr, c: Expr, d: Expr, i: bool, j: bool, r1: Expr, n1: nat, r2: Expr, n2: nat)
    requires Flat(a, b, c, d) && OnSpine(AndOp, Pairs(a, b, c, d), At(i, j))
    requires OnSpine(AndOp, Pairs(a, b, c, d), [false])
    requires Dups1(AndOp, Pairs(a, b, c, d), At(i, j), [false]) == (r1, n1)
    requires OnSpine(AndOp, r1, At(i, j)) && OnSpine(AndOp, r1, [true])
    requires Dups1(AndOp, r1, At(i, j), [true]) == (r2, n2)
    ensures Dups1(AndOp, Pairs(a, b, c, d), At(i, j), []) == (r2, n1 + n2)
  {
    SlotsOf(a, b, c, d, i, j);
    var none: Path := [];
    assert none + [false] == [false] && none + [true] == [true];
  }

  /** An operand that meets no rule with any other. */
  lemma Alone(a: Expr, b: Expr, c: Expr, d: Expr, i: bool, j: bool)
    requires Flat(a, b, c, d)
    requires forall k, l :: (k != i || l != j) ==> JoinAnd(Of(a, b, c, d, i, j), Of(a, b, c, d, k, l)) == None
    ensures OnSpine(AndOp, Pairs(a, b, c, d), At(i, j))
    ensures Dups1(AndOp, Pairs(a, b, c, d), At(i, j), []) == (Pairs(a, b, c, d), 0)
  {
    var r := Pairs(a, b, c, d);
    NoMeeting(a, b, c, d, i, j, false, false);
    NoMeeting(a, b, c, d, i, j, false, true);
    NoMeeting(a, b, c, d, i, j, true, false);
    NoMeeting(a, b, c, d, i, j, true, true);
    Unfold(a, b, c, d, i, j, false, r, 0, r, 0);
    Unfold(a, b, c, d, i, j, true, r, 0, r, 0);
    UnfoldAll(a, b, c, d, i, j, r, 0, r, 0);
  }

  // --- The run ---

  lemma FirstOperand(a: Symbol)
    requires IsKind(a, Boolean) && !a.quoted
    ensures var x, y, c, u := Sym(a), Unequal(a, Mod), Equal(a, Yes), Sym(Yes);
            && OnSpine(AndOp, Pairs(x, y, x, y), At(false, false))
            && Dups1(AndOp, Pairs(x, y, x, y), At(false, false), []) == (Pairs(u, c, x, y), 1)
  {
    var x, y, c, u := Sym(a), Unequal(a, Mod), Equal(a, Yes), Sym(Yes);
    Rules(a);
    var r1 := Pairs(u, c, x, y);
    NoMeeting(x, y, x, y, false, false, false, false);
    Meeting(x, y, x, y, false, false, false, true, c);
    Unfold(x, y, x, y, false, false, false, Pairs(x, y, x, y), 0, r1, 1);
    NoMeeting(u, c, x, y, false, false, true, false);
    NoMeeting(u, c, x, y, false, false, true, true);
    Unfold(u, c, x, y, false, false, true, r1, 0, r1, 0);
    UnfoldAll(x, y, x, y, false, false, r1, 1, r1, 0);
  }

  lemma SecondOperand(a: Symbol)
    requires IsKind(a, Boolean) && !a.quoted
    ensures var x, y, c, u := Sym(a), Unequal(a, Mod), Equal(a, Yes), Sym(Yes);
            && OnSpine(AndOp, Pairs(u, c, x, y), At(false, true))
            && Dups1(AndOp, Pairs(u, c, x, y), At(false, true), []) == (Pairs(u, u, c, y), 1)
  {
    var x, y, c, u := Sym(a), Unequal(a, Mod), Equal(a, Yes), Sym(Yes);
    Rules(a);
    var r1, r2 := Pairs(u, c, x, y), Pairs(u, u, c, y);
    NoMeeting(u, c, x, y, false, true, false, false);
    NoMeeting(u, c, x, y, false, true, false, true);
    Unfold(u, c, x, y, false, true, false, r1, 0, r1, 0);
    Meeting(u, c, x, y, false, true, true, false, c);
    NoMeeting(u, u, c, y, false, true, true, true);
    Unfold(u, c, x, y, false, true, true, r2, 1, r2, 0);
    UnfoldAll(u, c, x, y, false, true, r1, 0, r2, 1);
  }

  lemma OtherOperands(a: Symbol)
    requires IsKind(a, Boolean) && !a.quoted
    ensures var y, c, u := Unequal(a, Mod), Equal(a, Yes), Sym(Yes);
            var r := Pairs(u, u, c, y);
            && OnSpine(AndOp, r, At(true, false)) && OnSpine(AndOp, r, At(true, true))
            && Dups1(AndOp, r, At(true, false), []) == (r, 0) && Dups1(AndOp, r, At(true, true), []) == (r, 0)
  {
    var y, c, u := Unequal(a, Mod), Equal(a, Yes), Sym(Yes);
    Rules(a);
    Alone(u, u, c, y, true, false);
    Alone(u, u, c, y, true, true);
  }

  lemma FirstPass2(a: Symbol)
    requires IsKind(a, Boolean) && !a.quoted
    ensures var x, y, c, u := Sym(a), Unequal(a, Mod), Equal(a, Yes), Sym(Yes);
            Dups1(AndOp, Pairs(x, y, x, y), [], []) == (Pairs(u, u, c, y), 2)
  {
    var x, y, c, u := Sym(a), Unequal(a, Mod), Equal(a, Yes), Sym(Yes);
    var r, r2 := Pairs(x, y, x, y), Pairs(u, u, c, y);
    var none: Path := [];
    FirstOperand(a);
    SecondOperand(a);
    OtherOperands(a);
    SlotsOf(x, y, x, y, false, false);
    SlotsOf(u, c, x, y, false, true);
    SlotsOf(u, u, c, y, true, false);
    SlotsOf(u, u, c, y, true, true);
    assert none + [false] == [false] && none + [true] == [true];
    assert Dups1(AndOp, r, [false], []) == (r2, 2);
    assert Dups1(AndOp, r2, [true], []) == (r2, 0);
  }

  lemma SecondPass2(a: Expr, b: Expr, c: Expr, d: Expr)
    requires Flat(a, b, c, d)
    ensures Dups2(AndOp, Pairs(a, b, c, d), [], []) == (Pairs(a, b, c, d), 0)
  {
    var r := Pairs(a, b, c, d);
    forall p, q | IsLeaf(AndOp, r, p) && OnSpine(AndOp, r, q) ensures Settled2(AndOp, r, p, q) {
      FlatAt(a, b, c, d, p);
    }
    Dups2Idle(AndOp, r, [], []);
  }

  lemma OneDown(op: Op, root: Expr, p: Path)
    requires IsLeaf(op, root, p)
    ensures IsOp(root, op) ==>
              var down := if p != [] && p[0] then root.r else root.l;
              p != [] && IsLeaf(op, down, p[1..]) && Get(op, root, p) == Get(op, down, p[1..])
    ensures !IsOp(root, op) ==> p == [] && Get(op, root, p) == root
  {
  }

  lemma FlatAt(a: Expr, b: Expr, c: Expr, d: Expr, p: Path)
    requires Flat(a, b, c, d) && IsLeaf(AndOp, Pairs(a, b, c, d), p)
    ensures !IsGroup(Get(AndOp, Pairs(a, b, c, d), p))
  {
    var r := Pairs(a, b, c, d);
    OneDown(AndOp, r, p);
    var side := if p[0] then r.r else r.l;
    OneDown(AndOp, side, p[1..]);
    OneDown(AndOp, if p[1] then side.r else side.l, p[1..][1..]);
  }

  lemma HalvesOf(x: Expr, y: Expr)
    requires !IsGroup(x) && !IsGroup(y)
    ensures IsLeaf(AndOp, And(x, y), [false]) && Get(AndOp, And(x, y), [false]) == x
    ensures IsLeaf(AndOp, And(x, y), [true]) && Get(AndOp, And(x, y), [true]) == y
    ensures [false] != [true]
  {
    var none: Path := [];
    assert [false][1..] == none && [true][1..] == none;
    assert OnSpine(AndOp, x, none) && OnSpine(AndOp, y, none);
  }

  lemma TwoClean(x: Expr, y: Expr)
    requires !IsGroup(x) && !IsGroup(y) && JoinAnd(x, y) == None && JoinAnd(y, x) == None
    ensures Clean(And(x, y))
  {
    var e := And(x, y);
    forall p | IsLeaf(AndOp, e, p) ensures p == [false] || p == [true] {
      OneDown(AndOp, e, p);
      OneDown(AndOp, if p[0] then y else x, p[1..]);
      assert p == [p[0]] + p[1..];
    }
    HalvesOf(x, y);
  }

  /** For a boolean a, `a && a!='m'` is simplified to `a='y'`, but twice over it is left with
      `a='y' && a!='m'`: what is simplified first decides. */
  lemma DoubleDiffers(a: Symbol)
    requires IsKind(a, Boolean) && !a.quoted
    ensures var e := And(Sym(a), Unequal(a, Mod));
            && Plain(e) && !Clean(e)
            && Dups(And(e, e)) == And(Equal(a, Yes), Unequal(a, Mod)) && Dups(e) != Dups(And(e, e))
  {
    var x, y, c, u := Sym(a), Unequal(a, Mod), Equal(a, Yes), Sym(Yes);
    var e := And(x, y);
    Rules(a);
    FirstPass2(a);
    SecondPass2(u, u, c, y);
    assert Round(And(e, e)) == (Pairs(u, u, c, y), 2);
    assert EliminateYn(And(u, u)) == u && EliminateYn(And(c, y)) == And(c, y);
    assert EliminateYn(And(And(u, u), And(c, y))) == And(c, y);
    TwoClean(c, y);
    DupsFixes(And(c, y));
    NotClean(x, y);
    RoundClean(e);
    RoundShrinks(e);
  }

  lemma NotClean(x: Expr, y: Expr)
    requires !IsGroup(x) && !IsGroup(y) && JoinAnd(x, y).Some?
    ensures !Clean(And(x, y))
  {
    var e := And(x, y);
    HalvesOf(x, y);
    assert Join(AndOp, Get(AndOp, e, [false]), Get(AndOp, e, [true])).Some?;
  }
}
