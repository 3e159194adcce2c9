/** The fixpoint loop of expr_eliminate_dups. */
module KconfigDupsLoop {
  import opened KconfigExpr
  import opened KconfigYn
  import opened KconfigSlots
  import opened KconfigJoin
  import opened KconfigDups
  import opened KconfigDupsValue

  /** A constant operand anywhere below a slot shows in the whole tree. */
  lemma {:induction false} MarkShows(op: Op, root: Expr, p: Path)
    requires OnSpine(op, root, p)
    requires !NoConstantOperand(Get(op, root, p)) || (p != [] && Get(op, root, p) in {Sym(Yes), Sym(No)})
    ensures !NoConstantOperand(root)
  {
    if p != [] {
      var down := if p[0] then root.r else root.l;
      if p[1..] != [] || !NoConstantOperand(Get(op, root, p)) {
        MarkShows(op, down, p[1..]);
      }
    }
  }

  /** A round's count says whether it changed anything, and if it did, it left a
      constant operand behind for expr_eliminate_yn to remove. */
  predicate Marked(root: Expr, r: (Expr, nat)) {
    if r.1 == 0 then r.0 == root else !NoConstantOperand(r.0)
  }

  lemma JoinSlotsMarks(op: Op, root: Expr, p: Path, q: Path)
    requires OnSpine(op, root, p) && OnSpine(op, root, q) && p != q
    requires !IsOp(Get(op, root, p), op) && !IsOp(Get(op, root, q), op)
    ensures Marked(root, JoinSlots(op, root, p, q))
  {
    var joined := Join(op, Get(op, root, p), Get(op, root, q));
    if joined.Some? {
      JoinShape(op, Get(op, root, p), Get(op, root, q));
      PutLeaf(op, root, p, Unit(op));
      PutOther(op, root, p, q, Unit(op));
      var root' := Put(op, root, p, Unit(op));
      PutLeaf(op, root', q, joined.value);
      PutOther(op, root', q, p, joined.value);
      MarkShows(op, Put(op, root', q, joined.value), p);
    }
  }

  lemma {:induction false} PutBack(op: Op, root: Expr, p: Path)
    requires OnSpine(op, root, p)
    ensures Put(op, root, p, Get(op, root, p)) == root
  {
    if p != [] {
      PutBack(op, if p[0] then root.r else root.l, p[1..]);
    }
  }

  lemma {:induction false} Dups1Marks(op: Op, root: Expr, p: Path, q: Path)
    requires OnSpine(op, root, p) && OnSpine(op, root, q)
    ensures Marked(root, Dups1(op, root, p, q))
    decreases Size(root), SpineSize(op, Get(op, root, p)), SpineSize(op, Get(op, root, q))
  {
    var (e1, e2) := (Get(op, root, p), Get(op, root, q));
    if IsOp(e1, op) {
      Descend(op, root, p, false);
      Descend(op, root, p, true);
      var (r1, n1) := Dups1(op, root, p + [false], q);
      SpineSlots(op, root, r1, p + [true]);
      SpineSlots(op, root, r1, q);
      Dups1Marks(op, root, p + [false], q);
      Dups1Marks(op, r1, p + [true], q);
    } else if IsOp(e2, op) {
      Descend(op, root, q, false);
      Descend(op, root, q, true);
      var (r1, n1) := Dups1(op, root, p, q + [false]);
      SpineSlots(op, root, r1, p);
      SpineSlots(op, root, r1, q + [true]);
      Dups1Marks(op, root, p, q + [false]);
      Dups1Marks(op, r1, p, q + [true]);
    } else if p != q {
      Dups1LeafMarks(op, root, p, q);
    }
  }

  lemma {:induction false} Dups1LeafMarks(op: Op, root: Expr, p: Path, q: Path)
    requires OnSpine(op, root, p) && OnSpine(op, root, q) && p != q
    requires !IsOp(Get(op, root, p), op) && !IsOp(Get(op, root, q), op)
    ensures Marked(root, Dups1(op, root, p, q))
    decreases Size(root), SpineSize(op, Get(op, root, p)), SpineSize(op, Get(op, root, q)), 0
  {
    var e1 := Get(op, root, p);
    SlotSize(op, root, p);
    var (x, n1) := if IsGroup(e1) then Dups1(OpOf(e1), e1, [], []) else (e1, 0);
    if IsGroup(e1) {
      Dups1Marks(OpOf(e1), e1, [], []);
    }
    PutLeaf(op, root, p, x);
    PutOther(op, root, p, q, x);
    PutBack(op, root, p);
    var root' := Put(op, root, p, x);
    if n1 > 0 {
      MarkShows(op, root', p);
    }
    JoinSlotsMarks(op, root', p, q);
  }

  lemma {:induction false} Dups2Marks(op: Op, root: Expr, p: Path, q: Path)
    requires OnSpine(op, root, p) && OnSpine(op, root, q)
    ensures Marked(root, Dups2(op, root, p, q))
    decreases Size(root), SpineSize(op, Get(op, root, p)), SpineSize(op, Get(op, root, q)), 1
  {
    if IsOp(Get(op, root, p), op) {
      Descend(op, root, p, false);
      Descend(op, root, p, true);
      var (r1, n1) := Dups2(op, root, p + [false], q);
      SpineSlots(op, root, r1, p + [true]);
      SpineSlots(op, root, r1, q);
      Dups2Marks(op, root, p + [false], q);
      Dups2Marks(op, r1, p + [true], q);
    } else {
      Dups2LeafMarks(op, root, p, q);
    }
  }

  lemma {:induction false} Dups2LeafMarks(op: Op, root: Expr, p: Path, q: Path)
    requires OnSpine(op, root, p) && OnSpine(op, root, q) && !IsOp(Get(op, root, p), op)
    ensures Marked(root, Dups2(op, root, p, q))
    decreases Size(root), SpineSize(op, Get(op, root, p)), SpineSize(op, Get(op, root, q)), 0, 1
  {
    var (r1, n1) := Dups2Inner(op, root, p, q);
    Dups2InnerMarks(op, root, p, q);
    SpineSlots(op, root, r1, p);
    SpineSlots(op, root, r1, q);
    var e1 := Get(op, r1, p);
    if p != q && IsGroup(e1) {
      SlotSize(op, r1, p);
      var (x, n2) := Dups2(OpOf(e1), e1, [], []);
      Dups2Marks(OpOf(e1), e1, [], []);
      PutLeaf(op, r1, p, x);
      PutBack(op, r1, p);
      var r2 := Put(op, r1, p, x);
      SpineSlots(op, r1, r2, q);
      if n2 > 0 {
        MarkShows(op, r2, p);
      }
      if Contradicts(op, x, Get(op, r2, q)) {
        PutLeaf(op, r2, p, Absorber(op));
        MarkShows(op, Put(op, r2, p, Absorber(op)), p);
      }
    }
  }

  lemma {:induction false} Dups2InnerMarks(op: Op, root: Expr, p: Path, q: Path)
    requires OnSpine(op, root, p) && OnSpine(op, root, q) && !IsOp(Get(op, root, p), op)
    ensures Marked(root, Dups2Inner(op, root, p, q))
    decreases Size(root), SpineSize(op, Get(op, root, p)), SpineSize(op, Get(op, root, q)), 0, 0
  {
    if IsOp(Get(op, root, q), op) {
      Descend(op, root, q, false);
      Descend(op, root, q, true);
      var (r1, n1) := Dups2(op, root, p, q + [false]);
      SpineSlots(op, root, r1, p);
      SpineSlots(op, root, r1, q + [true]);
      Dups2Marks(op, root, p, q + [false]);
      Dups2Marks(op, r1, p, q + [true]);
    }
  }

  // ---------------------------------------------------------------- one round

  /** One turn of the loop up to the test of trans_count. */
  function Round(e: Expr): (r: (Expr, nat))
    ensures Size(r.0) <= Size(e)
  {
    if IsGroup(e) then
      var (r1, n1) := Dups1(OpOf(e), e, [], []);
      var (r2, n2) := Dups2(OpOf(e), r1, [], []);
      (r2, n1 + n2)
    else (e, 0)
  }

  lemma RoundMarks(e: Expr)
    ensures Marked(e, Round(e))
  {
    if IsGroup(e) {
      var (r1, n1) := Dups1(OpOf(e), e, [], []);
      Dups1Marks(OpOf(e), e, [], []);
      Dups2Marks(OpOf(e), r1, [], []);
    }
  }

  lemma RoundValue(e: Expr, env: Env)
    requires Valid(env)
    ensures Sharpens(Value(e, env), Value(Round(e).0, env))
  {
    if IsGroup(e) {
      var (r1, n1) := Dups1(OpOf(e), e, [], []);
      Dups1Value(OpOf(e), e, [], [], env);
      Dups2Value(OpOf(e), r1, [], [], env);
    }
  }

  /** A round that counts a transformation makes the expression strictly smaller
      once the constant operands are gone. */
  lemma RoundShrinks(e: Expr)
    requires Round(e).1 > 0
    ensures Size(EliminateYn(Round(e).0)) < Size(e)
  {
    RoundMarks(e);
    EliminateYnNormal(Round(e).0);
  }

  /** What the loop computes. */
  function Dups(e: Expr): (r: Expr)
    ensures Round(r).1 == 0 && Size(r) <= Size(e)
    decreases Size(e)
  {
    var (r, n) := Round(e);
    if n == 0 then
      RoundMarks(e);
      r
    else
      RoundShrinks(e);
      Dups(EliminateYn(r))
  }

  /** A value that was y or n is never changed. */
  lemma {:induction false} DupsSharpens(e: Expr, env: Env)
    requires Valid(env)
    ensures Sharpens(Value(e, env), Value(Dups(e), env))
    decreases Size(e)
  {
    var (r, n) := Round(e);
    RoundValue(e, env);
    if n > 0 {
      RoundShrinks(e);
      EliminateYnValue(r, env);
      DupsSharpens(EliminateYn(r), env);
    }
  }

  /** Where no leaf is m, the value is preserved exactly. */
  lemma DupsExactWithoutModules(e: Expr, env: Env)
    requires Valid(env) && NoModule(e, env)
    ensures Value(Dups(e), env) == Value(e, env)
  {
    NoModuleDecides(e, env);
    DupsSharpens(e, env);
  }

  /** Running it again changes nothing. */
  lemma DupsIdempotent(e: Expr)
    ensures Dups(Dups(e)) == Dups(e)
  {
    RoundMarks(Dups(e));
  }
}
