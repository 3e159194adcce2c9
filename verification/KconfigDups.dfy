/** expr_eliminate_dups: redundant operands joined, contradictory groups
    collapsed, until a round finds nothing more. */
module KconfigDups {
  import opened Basics
  import opened KconfigExpr
  import opened KconfigYn
  import opened KconfigTransform
  import opened KconfigEq
  import opened KconfigJoin
  import opened KconfigSlots

  /** The end of expr_eliminate_dups1: join the operands in slots p and q. */
  function JoinSlots(op: Op, root: Expr, p: Path, q: Path): (r: (Expr, nat))
    requires OnSpine(op, root, p) && OnSpine(op, root, q) && p != q
    requires !IsOp(Get(op, root, p), op) && !IsOp(Get(op, root, q), op)
    ensures SameSpine(op, root, r.0) && Size(r.0) <= Size(root)
  {
    var (e1, e2) := (Get(op, root, p), Get(op, root, q));
    var joined := Join(op, e1, e2);
    if joined.None? then
      SameSpineRefl(op, root);
      (root, 0)
    else
      JoinShape(op, e1, e2);
      PutLeaf(op, root, p, Unit(op));
      PutOther(op, root, p, q, Unit(op));
      var root' := Put(op, root, p, Unit(op));
      PutLeaf(op, root', q, joined.value);
      SameSpineTrans(op, root, root', Put(op, root', q, joined.value));
      SizePositive(e1);
      SizePositive(e2);
      (Put(op, root', q, joined.value), 1)
  }

  lemma SizePositive(e: Expr)
    ensures Size(e) >= 1
  {
  }

  /** expr_eliminate_dups1 on two slots of one tree, with the number of
      transformations counted.  Both slots start at the root. */
  function Dups1(op: Op, root: Expr, p: Path, q: Path): (r: (Expr, nat))
    requires OnSpine(op, root, p) && OnSpine(op, root, q)
    ensures SameSpine(op, root, r.0) && Size(r.0) <= Size(root)
    decreases Size(root), SpineSize(op, Get(op, root, p)), SpineSize(op, Get(op, root, q))
  {
    var (e1, e2) := (Get(op, root, p), Get(op, root, q));
    if IsOp(e1, op) then
      Descend(op, root, p, false);
      Descend(op, root, p, true);
      var (r1, n1) := Dups1(op, root, p + [false], q);
      SpineSlots(op, root, r1, p + [true]);
      SpineSlots(op, root, r1, q);
      var (r2, n2) := Dups1(op, r1, p + [true], q);
      SameSpineTrans(op, root, r1, r2);
      (r2, n1 + n2)
    else if IsOp(e2, op) then
      Descend(op, root, q, false);
      Descend(op, root, q, true);
      var (r1, n1) := Dups1(op, root, p, q + [false]);
      SpineSlots(op, root, r1, p);
      SpineSlots(op, root, r1, q + [true]);
      var (r2, n2) := Dups1(op, r1, p, q + [true]);
      SameSpineTrans(op, root, r1, r2);
      (r2, n1 + n2)
    else if p == q then
      SameSpineRefl(op, root);
      (root, 0)
    else
      SlotSize(op, root, p);
      var (x, n1) := if IsGroup(e1) then Dups1(OpOf(e1), e1, [], []) else (e1, 0);
      PutLeaf(op, root, p, x);
      PutOther(op, root, p, q, x);
      var root' := Put(op, root, p, x);
      var (r, n2) := JoinSlots(op, root', p, q);
      SameSpineTrans(op, root, root', r);
      (r, n1 + n2)
  }

  /** The operand that decides a group: n for AND, y for OR. */
  function Absorber(op: Op): Expr {
    if op == AndOp then Sym(No) else Sym(Yes)
  }

  /** The negation of x cancels completely against what is in e2. */
  predicate Contradicts(op: Op, x: Expr, e2: Expr) {
    ExtractEqOp(op, Transform(Not(x)), e2).1 == Unit(op)
  }

  /** expr_eliminate_dups2.  After descending into a group in slot q the source
      goes on with the whole group as the second operand; so does this. */
  function Dups2(op: Op, root: Expr, p: Path, q: Path): (r: (Expr, nat))
    requires OnSpine(op, root, p) && OnSpine(op, root, q)
    ensures SameSpine(op, root, r.0) && Size(r.0) <= Size(root)
    decreases Size(root), SpineSize(op, Get(op, root, p)), SpineSize(op, Get(op, root, q)), 1
  {
    if IsOp(Get(op, root, p), op) then
      Descend(op, root, p, false);
      Descend(op, root, p, true);
      var (r1, n1) := Dups2(op, root, p + [false], q);
      SpineSlots(op, root, r1, p + [true]);
      SpineSlots(op, root, r1, q);
      var (r2, n2) := Dups2(op, r1, p + [true], q);
      SameSpineTrans(op, root, r1, r2);
      (r2, n1 + n2)
    else
      var (r1, n1) := Dups2Inner(op, root, p, q);
      SpineSlots(op, root, r1, p);
      SpineSlots(op, root, r1, q);
      var e1 := Get(op, r1, p);
      if p == q || !IsGroup(e1) then (r1, n1)
      else
        SlotSize(op, r1, p);
        var (x, n2) := Dups2(OpOf(e1), e1, [], []);
        PutLeaf(op, r1, p, x);
        var r2 := Put(op, r1, p, x);
        SpineSlots(op, r1, r2, q);
        SameSpineTrans(op, root, r1, r2);
        if Contradicts(op, x, Get(op, r2, q)) then
          PutLeaf(op, r2, p, Absorber(op));
          SameSpineTrans(op, root, r2, Put(op, r2, p, Absorber(op)));
          SizePositive(x);
          (Put(op, r2, p, Absorber(op)), n1 + n2 + 1)
        else (r2, n1 + n2)
  }

  /** The descent into a group in slot q. */
  function Dups2Inner(op: Op, root: Expr, p: Path, q: Path): (r: (Expr, nat))
    requires OnSpine(op, root, p) && OnSpine(op, root, q) && !IsOp(Get(op, root, p), op)
    ensures SameSpine(op, root, r.0) && Size(r.0) <= Size(root)
    decreases Size(root), SpineSize(op, Get(op, root, p)), SpineSize(op, Get(op, root, q)), 0
  {
    if IsOp(Get(op, root, q), op) then
      Descend(op, root, q, false);
      Descend(op, root, q, true);
      var (r1, n1) := Dups2(op, root, p, q + [false]);
      SpineSlots(op, root, r1, p);
      SpineSlots(op, root, r1, q + [true]);
      var (r2, n2) := Dups2(op, r1, p, q + [true]);
      SameSpineTrans(op, root, r1, r2);
      (r2, n1 + n2)
    else
      SameSpineRefl(op, root);
      (root, 0)
  }

  // The first pass over a group, half by half.

  lemma First1Is(op: Op, root: Expr, p: Path, q: Path, r: Expr, n: nat)
    requires OnSpine(op, root, p) && OnSpine(op, root, q) && IsOp(Get(op, root, p), op)
    requires OnSpine(op, root, p + [false]) && OnSpine(op, r, p + [true]) && OnSpine(op, r, q)
    requires (r, n) == Dups1(op, root, p + [false], q)
    ensures var (r2, n2) := Dups1(op, r, p + [true], q);
            Dups1(op, root, p, q) == (r2, n + n2)
  {
  }

  lemma Second1Is(op: Op, root: Expr, p: Path, q: Path, r: Expr, n: nat)
    requires OnSpine(op, root, p) && OnSpine(op, root, q) && !IsOp(Get(op, root, p), op) && IsOp(Get(op, root, q), op)
    requires OnSpine(op, root, q + [false]) && OnSpine(op, r, q + [true]) && OnSpine(op, r, p)
    requires (r, n) == Dups1(op, root, p, q + [false])
    ensures var (r2, n2) := Dups1(op, r, p, q + [true]);
            Dups1(op, root, p, q) == (r2, n + n2)
  {
  }
}
