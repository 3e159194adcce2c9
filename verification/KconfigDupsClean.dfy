/** When expr_eliminate_dups has nothing to do, and what it makes of a group whose two
    halves are the same. */
module KconfigDupsClean {
  import opened Basics
  import opened KconfigExpr
  import opened KconfigYn
  import opened KconfigEq
  import opened KconfigSame
  import opened KconfigTransform
  import opened KconfigSlots
  import opened KconfigJoin
  import opened KconfigDups
  import opened KconfigDupsLoop

  /** A slot that holds an operand. */
  predicate IsLeaf(op: Op, root: Expr, p: Path) {
    OnSpine(op, root, p) && !IsOp(Get(op, root, p), op)
  }

  lemma {:induction false} BelowSlot(op: Op, root: Expr, p: Path, q: Path)
    requires OnSpine(op, root, p) && OnSpine(op, root, q) && p <= q && IsOp(Get(op, root, p), op)
    requires IsLeaf(op, root, q)
    ensures p + [false] <= q || p + [true] <= q
  {
    Extends(p, q);
    if |p| < |q| {
      var b := q[|p|];
      assert q[..|p| + 1] == p + [b] && p + [b] <= q;
    }
  }

  lemma Extends(p: Path, q: Path)
    requires p <= q
    ensures |p| < |q| || p == q
  {
  }

  // --- The first pass ---

  /** The operands in two different slots: no rule for them, and nothing to do inside. */
  predicate Settled1(op: Op, root: Expr, p: Path, q: Path)
    requires OnSpine(op, root, p) && OnSpine(op, root, q)
  {
    var x := Get(op, root, p);
    p == q || (Join(op, x, Get(op, root, q)).None? && (IsGroup(x) ==> Dups1(OpOf(x), x, [], []).1 == 0))
  }

  ghost predicate AllSettled1(op: Op, root: Expr, p: Path, q: Path) {
    forall p', q' :: p <= p' && q <= q' && IsLeaf(op, root, p') && IsLeaf(op, root, q') ==> Settled1(op, root, p', q')
  }

  lemma {:induction false} Dups1Idle(op: Op, root: Expr, p: Path, q: Path)
    requires OnSpine(op, root, p) && OnSpine(op, root, q)
    ensures Dups1(op, root, p, q).1 == 0 <==> AllSettled1(op, root, p, q)
    ensures Dups1(op, root, p, q).1 == 0 ==> Dups1(op, root, p, q).0 == root
    decreases SpineSize(op, Get(op, root, p)), SpineSize(op, Get(op, root, q))
  {
    Dups1Marks(op, root, p, q);
    if IsOp(Get(op, root, p), op) {
      Descend(op, root, p, false);
      Descend(op, root, p, true);
      Dups1Marks(op, root, p + [false], q);
      Dups1Idle(op, root, p + [false], q);
      Dups1Idle(op, root, p + [true], q);
      SplitFirst1(op, root, p, q);
    } else if IsOp(Get(op, root, q), op) {
      Descend(op, root, q, false);
      Descend(op, root, q, true);
      Dups1Marks(op, root, p, q + [false]);
      Dups1Idle(op, root, p, q + [false]);
      Dups1Idle(op, root, p, q + [true]);
      SplitSecond1(op, root, p, q);
    } else {
      LeafIdle1(op, root, p, q);
    }
  }

  lemma SplitFirst1(op: Op, root: Expr, p: Path, q: Path)
    requires OnSpine(op, root, p) && IsOp(Get(op, root, p), op)
    ensures AllSettled1(op, root, p, q)
       <==> AllSettled1(op, root, p + [false], q) && AllSettled1(op, root, p + [true], q)
  {
    forall p' | p <= p' && IsLeaf(op, root, p') ensures p + [false] <= p' || p + [true] <= p' {
      BelowSlot(op, root, p, p');
    }
  }

  lemma SplitSecond1(op: Op, root: Expr, p: Path, q: Path)
    requires OnSpine(op, root, q) && IsOp(Get(op, root, q), op)
    ensures AllSettled1(op, root, p, q)
       <==> AllSettled1(op, root, p, q + [false]) && AllSettled1(op, root, p, q + [true])
  {
    forall q' | q <= q' && IsLeaf(op, root, q') ensures q + [false] <= q' || q + [true] <= q' {
      BelowSlot(op, root, q, q');
    }
  }

  /** An operand's slot has no slots below it. */
  lemma {:induction false} LeafEnds(op: Op, root: Expr, p: Path, q: Path)
    requires IsLeaf(op, root, p) && OnSpine(op, root, q) && p <= q
    ensures p == q
  {
    if p == [] {
      assert q == [];
    } else {
      LeafEnds(op, if p[0] then root.r else root.l, p[1..], q[1..]);
    }
  }

  lemma LeafIdle1(op: Op, root: Expr, p: Path, q: Path)
    requires IsLeaf(op, root, p) && IsLeaf(op, root, q)
    ensures Dups1(op, root, p, q).1 == 0 <==> AllSettled1(op, root, p, q)
  {
    forall p', q' | p <= p' && q <= q' && IsLeaf(op, root, p') && IsLeaf(op, root, q') ensures p' == p && q' == q {
      LeafEnds(op, root, p, p');
      LeafEnds(op, root, q, q');
    }
    LeafPair1(op, root, p, q);
    assert AllSettled1(op, root, p, q) <==> Settled1(op, root, p, q);
  }

  lemma LeafPair1(op: Op, root: Expr, p: Path, q: Path)
    requires IsLeaf(op, root, p) && IsLeaf(op, root, q)
    ensures Dups1(op, root, p, q).1 == 0 <==> Settled1(op, root, p, q)
  {
    if p != q {
      var e1 := Get(op, root, p);
      SlotSize(op, root, p);
      var (x, n1) := if IsGroup(e1) then Dups1(OpOf(e1), e1, [], []) else (e1, 0);
      if IsGroup(e1) {
        Dups1Marks(OpOf(e1), e1, [], []);
      }
      PutLeaf(op, root, p, x);
      PutOther(op, root, p, q, x);
      PutBack(op, root, p);
    }
  }

  // --- The second pass ---

  /** An operand and anything else in another slot: no contradiction, and nothing to do inside. */
  predicate Settled2(op: Op, root: Expr, p: Path, q: Path)
    requires OnSpine(op, root, p) && OnSpine(op, root, q)
  {
    var x := Get(op, root, p);
    p == q || (IsGroup(x) ==> Dups2(OpOf(x), x, [], []).1 == 0 && !Contradicts(op, x, Get(op, root, q)))
  }

  ghost predicate AllSettled2(op: Op, root: Expr, p: Path, q: Path) {
    forall p', q' :: p <= p' && q <= q' && IsLeaf(op, root, p') && OnSpine(op, root, q') ==> Settled2(op, root, p', q')
  }

  lemma {:induction false} Dups2Idle(op: Op, root: Expr, p: Path, q: Path)
    requires OnSpine(op, root, p) && OnSpine(op, root, q)
    ensures Dups2(op, root, p, q).1 == 0 <==> AllSettled2(op, root, p, q)
    ensures Dups2(op, root, p, q).1 == 0 ==> Dups2(op, root, p, q).0 == root
    decreases SpineSize(op, Get(op, root, p)), SpineSize(op, Get(op, root, q)), 1
  {
    Dups2Marks(op, root, p, q);
    if IsOp(Get(op, root, p), op) {
      Descend(op, root, p, false);
      Descend(op, root, p, true);
      Dups2Marks(op, root, p + [false], q);
      Dups2Idle(op, root, p + [false], q);
      Dups2Idle(op, root, p + [true], q);
      SplitFirst2(op, root, p, q);
    } else {
      LeafIdle2(op, root, p, q);
    }
  }

  lemma SplitFirst2(op: Op, root: Expr, p: Path, q: Path)
    requires OnSpine(op, root, p) && IsOp(Get(op, root, p), op)
    ensures AllSettled2(op, root, p, q)
       <==> AllSettled2(op, root, p + [false], q) && AllSettled2(op, root, p + [true], q)
  {
    forall p' | p <= p' && IsLeaf(op, root, p') ensures p + [false] <= p' || p + [true] <= p' {
      BelowSlot(op, root, p, p');
    }
  }

  lemma {:induction false} LeafIdle2(op: Op, root: Expr, p: Path, q: Path)
    requires IsLeaf(op, root, p) && OnSpine(op, root, q)
    ensures Dups2(op, root, p, q).1 == 0 <==> AllSettled2(op, root, p, q)
    decreases SpineSize(op, Get(op, root, p)), SpineSize(op, Get(op, root, q)), 0
  {
    Dups2InnerMarks(op, root, p, q);
    if IsOp(Get(op, root, q), op) {
      Descend(op, root, q, false);
      Descend(op, root, q, true);
      Dups2Marks(op, root, p, q + [false]);
      Dups2Idle(op, root, p, q + [false]);
      Dups2Idle(op, root, p, q + [true]);
    }
    SplitSecond2(op, root, p, q);
    LeafPair2(op, root, p, q);
  }

  /** The slots from q down are q itself and those of its halves. */
  lemma SplitSecond2(op: Op, root: Expr, p: Path, q: Path)
    requires IsLeaf(op, root, p) && OnSpine(op, root, q)
    ensures AllSettled2(op, root, p, q) <==>
              && Settled2(op, root, p, q)
              && (IsOp(Get(op, root, q), op) ==>
                    AllSettled2(op, root, p, q + [false]) && AllSettled2(op, root, p, q + [true]))
  {
    forall p' | p <= p' && IsLeaf(op, root, p') ensures p' == p {
      LeafEnds(op, root, p, p');
    }
    forall q' | q <= q' && OnSpine(op, root, q')
      ensures q' == q || (IsOp(Get(op, root, q), op) && (q + [false] <= q' || q + [true] <= q'))
    {
      SlotOrBelow(op, root, q, q');
    }
  }

  lemma SlotOrBelow(op: Op, root: Expr, p: Path, q: Path)
    requires OnSpine(op, root, p) && OnSpine(op, root, q) && p <= q
    ensures q == p || (IsOp(Get(op, root, p), op) && (p + [false] <= q || p + [true] <= q))
  {
    Extends(p, q);
    if |p| < |q| {
      var b := q[|p|];
      assert q[..|p| + 1] == p + [b] && p + [b] <= q;
      if !IsOp(Get(op, root, p), op) {
        LeafEnds(op, root, p, q);
      }
    }
  }

  lemma LeafPair2(op: Op, root: Expr, p: Path, q: Path)
    requires IsLeaf(op, root, p) && OnSpine(op, root, q)
    ensures Dups2(op, root, p, q).1 == 0 <==> Dups2Inner(op, root, p, q).1 == 0 && Settled2(op, root, p, q)
  {
    Dups2InnerMarks(op, root, p, q);
    var e1 := Get(op, root, p);
    if p != q && IsGroup(e1) && Dups2Inner(op, root, p, q).1 == 0 {
      SlotSize(op, root, p);
      Dups2Marks(OpOf(e1), e1, [], []);
      PutBack(op, root, p);
    }
  }

  // --- Nothing to do ---

  /** No two operands of the group have a rule, no group among them contradicts anything
      else in it, and the groups among them are clean themselves. */
  ghost predicate Clean(e: Expr)
    decreases Size(e)
  {
    IsGroup(e) ==>
      var op := OpOf(e);
      NoRule(op, e) && NoContradiction(op, e) && forall p :: IsLeaf(op, e, p) ==> CleanAt(op, e, p)
  }

  ghost predicate NoRule(op: Op, e: Expr) {
    forall p, q :: IsLeaf(op, e, p) && IsLeaf(op, e, q) && p != q ==> Join(op, Get(op, e, p), Get(op, e, q)).None?
  }

  ghost predicate NoContradiction(op: Op, e: Expr) {
    forall p, q :: IsLeaf(op, e, p) && OnSpine(op, e, q) && p != q && IsGroup(Get(op, e, p)) ==>
      !Contradicts(op, Get(op, e, p), Get(op, e, q))
  }

  ghost predicate CleanAt(op: Op, e: Expr, p: Path)
    requires IsOp(e, op) && IsLeaf(op, e, p)
    decreases Size(e), 0
  {
    SlotSize(op, e, p);
    Clean(Get(op, e, p))
  }

  /** The leftmost operand. */
  lemma {:induction false} SomeLeaf(op: Op, root: Expr) returns (p: Path)
    ensures IsLeaf(op, root, p)
  {
    p := [];
    if IsOp(root, op) {
      var q := SomeLeaf(op, root.l);
      p := [false] + q;
      assert p[1..] == q;
    }
  }

  /** An operand of a group is not alone. */
  lemma OtherLeaf(op: Op, root: Expr, p: Path) returns (q: Path)
    requires IsOp(root, op) && IsLeaf(op, root, p)
    ensures IsLeaf(op, root, q) && q != p
  {
    var l := SomeLeaf(op, root.l);
    var r := SomeLeaf(op, root.r);
    q := if p[0] then [false] + l else [true] + r;
    assert ([false] + l)[1..] == l && ([true] + r)[1..] == r;
  }

  /** What both passes together find in a group. */
  lemma GroupIdle(op: Op, e: Expr)
    requires IsOp(e, op)
    ensures Round(e).1 == 0 <==> AllSettled1(op, e, [], []) && AllSettled2(op, e, [], [])
  {
    Dups1Idle(op, e, [], []);
    Dups2Idle(op, e, [], []);
  }

  /** A round finds nothing exactly when the expression is clean. */
  lemma {:induction false} RoundClean(e: Expr)
    ensures Round(e).1 == 0 <==> Clean(e)
    decreases Size(e)
  {
    if IsGroup(e) {
      var op := OpOf(e);
      GroupIdle(op, e);
      forall p | IsLeaf(op, e, p) ensures CleanAt(op, e, p) <==> Round(Get(op, e, p)).1 == 0 {
        SlotSize(op, e, p);
        RoundClean(Get(op, e, p));
      }
      if Clean(e) {
        CleanSettles(op, e);
      } else if Round(e).1 == 0 {
        SettledClean(op, e);
      }
    }
  }

  lemma InsideIdle(g: Expr)
    requires IsGroup(g)
    ensures Round(g).1 == 0 <==> Dups1(OpOf(g), g, [], []).1 == 0 && Dups2(OpOf(g), g, [], []).1 == 0
  {
    Dups1Marks(OpOf(g), g, [], []);
  }

  lemma CleanInside(op: Op, e: Expr, p: Path)
    requires IsOp(e, op) && Clean(e) && IsLeaf(op, e, p) && IsGroup(Get(op, e, p))
    requires CleanAt(op, e, p) <==> Round(Get(op, e, p)).1 == 0
    ensures var x := Get(op, e, p); Dups1(OpOf(x), x, [], []).1 == 0 && Dups2(OpOf(x), x, [], []).1 == 0
  {
    assert CleanAt(op, e, p);
    InsideIdle(Get(op, e, p));
  }

  /** Nothing to do inside any operand. */
  ghost predicate Quiet(op: Op, e: Expr) {
    forall p :: IsLeaf(op, e, p) && IsGroup(Get(op, e, p)) ==> Inactive(Get(op, e, p))
  }

  predicate Inactive(x: Expr)
    requires IsGroup(x)
  {
    Dups1(OpOf(x), x, [], []).1 == 0 && Dups2(OpOf(x), x, [], []).1 == 0
  }

  lemma CleanSettles(op: Op, e: Expr)
    requires IsOp(e, op) && Clean(e)
    requires forall p :: IsLeaf(op, e, p) ==> (CleanAt(op, e, p) <==> Round(Get(op, e, p)).1 == 0)
    ensures AllSettled1(op, e, [], []) && AllSettled2(op, e, [], [])
  {
    forall p | IsLeaf(op, e, p) && IsGroup(Get(op, e, p)) ensures Inactive(Get(op, e, p)) {
      CleanInside(op, e, p);
    }
    SettledBy(op, e);
  }

  lemma SettledBy(op: Op, e: Expr)
    requires NoRule(op, e) && NoContradiction(op, e) && Quiet(op, e)
    ensures AllSettled1(op, e, [], []) && AllSettled2(op, e, [], [])
  {
    forall p, q | IsLeaf(op, e, p) && IsLeaf(op, e, q) ensures Settled1(op, e, p, q) {
    }
    forall p, q | IsLeaf(op, e, p) && OnSpine(op, e, q) ensures Settled2(op, e, p, q) {
    }
  }

  lemma SettledClean(op: Op, e: Expr)
    requires IsOp(e, op) && AllSettled1(op, e, [], []) && AllSettled2(op, e, [], [])
    requires forall p :: IsLeaf(op, e, p) ==> (CleanAt(op, e, p) <==> Round(Get(op, e, p)).1 == 0)
    ensures Clean(e)
  {
    forall p, q | IsLeaf(op, e, p) && IsLeaf(op, e, q) && p != q ensures Join(op, Get(op, e, p), Get(op, e, q)).None? {
      assert Settled1(op, e, p, q);
    }
    forall p, q | IsLeaf(op, e, p) && OnSpine(op, e, q) && p != q && IsGroup(Get(op, e, p))
      ensures !Contradicts(op, Get(op, e, p), Get(op, e, q))
    {
      assert Settled2(op, e, p, q);
    }
    forall p | IsLeaf(op, e, p) ensures CleanAt(op, e, p) {
      var q := OtherLeaf(op, e, p);
      assert Settled1(op, e, p, q) && Settled2(op, e, p, q);
      if IsGroup(Get(op, e, p)) {
        InsideIdle(Get(op, e, p));
      }
    }
  }

  /** The rewriting leaves an expression alone exactly when it is clean, and what it
      makes of any expression is clean. */
  lemma DupsFixes(e: Expr)
    ensures Dups(e) == e <==> Clean(e)
    ensures Clean(Dups(e))
  {
    RoundClean(e);
    RoundMarks(e);
    RoundClean(Dups(e));
    if Round(e).1 > 0 {
      RoundShrinks(e);
    }
  }

  // --- When a group is contradicted ---

  /** Extraction takes away what both sides have, like cancelling. */
  lemma {:induction false} ExtractCounts(op: Op, ep: Option<Expr>, x: Expr, y: Expr, k: Key)
    requires Partial(op, x) && Partial(op, y)
    ensures var r := ExtractEq(op, ep, x, y); Counted(op, x, y, (r.1, r.2), k)
    ensures var r := ExtractEq(op, ep, x, y); r.0.Some? || (r.1 == x && r.2 == y)
    decreases Size(x) + Size(y)
  {
    if IsOp(x, op) {
      var r1 := ExtractEq(op, ep, x.l, y);
      ExtractCounts(op, ep, x.l, y, k);
      var r2 := ExtractEq(op, r1.0, x.r, r1.2);
      ExtractCounts(op, r1.0, x.r, r1.2, k);
      FirstCounts(op, x.l, x.r, y, (r1.1, r1.2), (r2.1, r2.2), k);
      ExtractKeeps(op, r1.0, x.r, r1.2);
    } else if IsOp(y, op) {
      var r1 := ExtractEq(op, ep, x, y.l);
      ExtractCounts(op, ep, x, y.l, k);
      var r2 := ExtractEq(op, r1.0, r1.1, y.r);
      ExtractCounts(op, r1.0, r1.1, y.r, k);
      SecondCounts(op, x, y.l, y.r, (r1.1, r1.2), (r2.1, r2.2), k);
      ExtractKeeps(op, r1.0, r1.1, y.r);
    } else {
      ExtractOne(op, ep, x, y, k);
    }
  }

  lemma {:induction false} ExtractKeeps(op: Op, ep: Option<Expr>, x: Expr, y: Expr)
    ensures ep.Some? ==> ExtractEq(op, ep, x, y).0.Some?
    decreases Size(x) + Size(y)
  {
    if IsOp(x, op) {
      var r1 := ExtractEq(op, ep, x.l, y);
      ExtractKeeps(op, ep, x.l, y);
      ExtractKeeps(op, r1.0, x.r, r1.2);
    } else if IsOp(y, op) {
      var r1 := ExtractEq(op, ep, x, y.l);
      ExtractKeeps(op, ep, x, y.l);
      ExtractKeeps(op, r1.0, r1.1, y.r);
    }
  }

  lemma ExtractOne(op: Op, ep: Option<Expr>, x: Expr, y: Expr, k: Key)
    requires Partial(op, x) && Partial(op, y) && !IsOp(x, op) && !IsOp(y, op)
    ensures var r := ExtractEq(op, ep, x, y); Counted(op, x, y, (r.1, r.2), k)
  {
    if x != Unit(op) && y != Unit(op) {
      ExprEqKeys(x, y);
    }
  }

  /** What extraction leaves of two plain expressions. */
  lemma ExtractLeaves2(op: Op, t: Expr, y: Expr)
    requires Plain(t) && !Flagged(t) && Plain(y) && !Flagged(y)
    ensures var r := ExtractEq(op, None, t, y);
            && Partial(op, r.1) && (r.0.Some? || r.1 == t)
            && forall k :: Left(op, r.1)[k] == Over(Parts(op, t)[k], Parts(op, y)[k])
  {
    var r := ExtractEq(op, None, t, y);
    PlainIsPartial(op, t);
    PlainIsPartial(op, y);
    ExtractCounts(op, None, t, y, KeyOf(t));
    forall k ensures Left(op, r.1)[k] == Over(Parts(op, t)[k], Parts(op, y)[k]) {
      ExtractCounts(op, None, t, y, k);
      CountIs(op, t, k);
      CountIs(op, y, k);
      CountIs(op, r.1, k);
    }
  }

  /** A group is contradicted exactly when all operands of its negation are among the other
      operands, each as often. */
  lemma ContradictsExactly(op: Op, x: Expr, y: Expr)
    requires var t := Transform(Not(x)); Plain(t) && !Flagged(t)
    requires Plain(y) && !Flagged(y)
    ensures Contradicts(op, x, y) <==> forall k :: Parts(op, Transform(Not(x)))[k] <= Parts(op, y)[k]
  {
    var t := Transform(Not(x));
    var r := ExtractEq(op, None, t, y);
    ExtractLeaves2(op, t, y);
    PlainIsPartial(op, t);
    LeftAlone(op, r.1);
    NothingLeft(Left(op, r.1));
    HasPart(op, t);
  }

  lemma {:induction false} HasPart(op: Op, t: Expr)
    ensures Parts(op, t) != multiset{}
  {
    if IsOp(t, op) {
      HasPart(op, t.l);
      assert |Parts(op, t)| == |Parts(op, t.l)| + |Parts(op, t.r)|;
    }
  }
}
