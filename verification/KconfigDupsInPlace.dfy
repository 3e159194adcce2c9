/** expr_eliminate_dups on heap nodes, with the counter it works with. */
module KconfigDupsInPlace {
  import opened Basics
  import opened KconfigExpr
  import opened KconfigSlots
  import opened KconfigInPlace
  import opened KconfigTransformInPlace
  import opened KconfigExtractInPlace
  import opened KconfigCells
  import KconfigEq
  import KconfigJoin
  import KconfigTransform
  import KconfigDups
  import KconfigDupsLoop

  // ---------------------------------------------------------------- joining

  /** An operand that the rules of expr_join_or and expr_join_and can be about. */
  method Peek(e: Node) returns (x: Option<Expr>)
    requires e.Valid()
    ensures x.Some? ==> x.value == e.tree
    ensures x.None? ==> KconfigJoin.FirstSymbol(e.tree).None? && KconfigJoin.SecondSymbol(e.tree).None?
  {
    match e.tag
    case TSymbol => x := Some(Sym(e.a));
    case TEqual => x := Some(Equal(e.a, e.b));
    case TUnequal => x := Some(Unequal(e.a, e.b));
    case TNot =>
      var y := e.left;
      x := if y.tag == TSymbol then Some(Not(Sym(y.a)))
           else if y.tag == TEqual then Some(Not(Equal(y.a, y.b)))
           else if y.tag == TUnequal then Some(Not(Unequal(y.a, y.b)))
           else None;
    case _ => x := None;
  }

  /** expr_alloc_symbol or expr_alloc_comp. */
  method Alloc(x: Expr) returns (e: Node)
    requires Size(x) == 1
    ensures e.Valid() && fresh(e.Repr) && e.tree == x
  {
    if x.Sym? {
      e := new Node.Symbol(x.s);
    } else {
      e := new Node.Comparison(if x.Equal? then TEqual else TUnequal, x.a, x.b);
    }
  }

  /** expr_join_or and expr_join_and: NULL, or a new expression. */
  method Join(counter: Counter, op: Op, e1: Node, e2: Node) returns (j: Node?)
    requires e1.Valid() && e2.Valid()
    modifies counter
    ensures counter.transCount == old(counter.transCount)
    ensures j != null ==> j.Valid() && fresh(j.Repr)
    ensures (if j == null then None else Some(j.tree)) == KconfigJoin.Join(op, e1.tree, e2.tree)
  {
    j := null;
    var equal := ExprEq(counter, e1, e2);
    if equal {
      j := Copy(e1);
    } else {
      KconfigJoin.RulesShape(e1.tree, e2.tree);
      var x := Peek(e1);
      var y := Peek(e2);
      if x.Some? && y.Some? {
        var joined :=
          if op == AndOp then KconfigJoin.AndRules(x.value, y.value) else KconfigJoin.OrRules(x.value, y.value);
        if joined.Some? {
          j := Alloc(joined.value);
        }
      }
    }
  }

  // ---------------------------------------------------------------- the first pass

  /** The whole tree after a change to the nodes of one operand. */
  lemma OperandChanged(op: Op, c: Cell, p: Path, e: Node)
    requires Apart(op, c) && On(c, p) && OnSpine(op, TreeOf(op, c), p) && Sub(c, p).Leaf?
    requires Swapped(op, c, Sub(c, p), LeafOf(e)) && Storable(op, c, Sub(c, p), e)
    ensures var c' := PutCell(c, p, LeafOf(e));
            && Holds(op, c') && SameForks(c, c') && Foot(c') == Foot(c) - Foot(Sub(c, p)) + e.Repr
            && TreeOf(op, c') == Put(op, TreeOf(op, c), p, e.tree)
  {
    HoldsPut(op, c, p, LeafOf(e));
    PutCellFoot(op, c, p, LeafOf(e));
    PutLeafForks(c, p, LeafOf(e));
    PutCellTree(op, c, p, LeafOf(e));
  }

  lemma SlotLoads(op: Op, c: Cell, p: Path, s: Slot)
    requires Holds(op, c) && SlotIs(op, c, p, s)
    ensures Load(s) == Sub(c, p).n
    ensures (HasOp(Load(s).tag, op) <==> Sub(c, p).Fork?) && (Sub(c, p).Fork? <==> IsOp(Get(op, TreeOf(op, c), p), op))
  {
    SlotReads(op, c, p, s);
  }

  /** expr_eliminate_dups1. */
  method Dups1(counter: Counter, op: Op, s1: Slot, s2: Slot, ghost c: Cell, ghost p: Path, ghost q: Path)
      returns (ghost c': Cell)
    requires Holds(op, c) && c.Fork? && SlotIs(op, c, p, s1) && SlotIs(op, c, q, s2)
    modifies counter, Foot(c)
    ensures Holds(op, c') && SameForks(c, c') && fresh(Foot(c') - Foot(c))
    ensures var r := KconfigDups.Dups1(op, TreeOf(op, c), p, q);
            TreeOf(op, c') == r.0 && counter.transCount == old(counter.transCount) + r.1
    decreases Size(TreeOf(op, c)), SpineSize(op, Get(op, TreeOf(op, c), p)),
              SpineSize(op, Get(op, TreeOf(op, c), q)), 3
  {
    SlotLoads(op, c, p, s1);
    SlotLoads(op, c, q, s2);
    var e1, e2 := Load(s1), Load(s2);
    if HasOp(e1.tag, op) {
      c' := Dups1First(counter, op, e1, s2, c, p, q);
    } else if HasOp(e2.tag, op) {
      c' := Dups1Second(counter, op, s1, e2, c, p, q);
    } else if e1 == e2 {
      SameOperand(op, c, p, q);
      c' := c;
    } else {
      c' := Dups1Leaf(counter, op, s1, s2, c, p, q);
    }
  }

  lemma SameOperand(op: Op, c: Cell, p: Path, q: Path)
    requires Holds(op, c) && On(c, p) && On(c, q) && Sub(c, p).n == Sub(c, q).n && Sub(c, p).Leaf?
    requires OnSpine(op, TreeOf(op, c), p) && OnSpine(op, TreeOf(op, c), q)
    ensures p == q && SameForks(c, c) && KconfigDups.Dups1(op, TreeOf(op, c), p, q) == (TreeOf(op, c), 0)
  {
    PathsApart(op, c, p, q);
    SameForksRefl(c);
    Kind(op, c, p);
  }

  /** The first slot holds a group of the operator. */
  method Dups1First(counter: Counter, op: Op, e1: Node, s2: Slot, ghost c: Cell, ghost p: Path, ghost q: Path)
      returns (ghost c': Cell)
    requires Holds(op, c) && c.Fork? && On(c, p) && SlotIs(op, c, p, SlotAt(c, p)) && SlotIs(op, c, q, s2)
    requires Sub(c, p).Fork? && Sub(c, p).n == e1 && IsOp(Get(op, TreeOf(op, c), p), op)
    modifies counter, Foot(c)
    ensures Holds(op, c') && SameForks(c, c') && fresh(Foot(c') - Foot(c))
    ensures var r := KconfigDups.Dups1(op, TreeOf(op, c), p, q);
            TreeOf(op, c') == r.0 && counter.transCount == old(counter.transCount) + r.1
    decreases Size(TreeOf(op, c)), SpineSize(op, Get(op, TreeOf(op, c), p)),
              SpineSize(op, Get(op, TreeOf(op, c), q)), 2
  {
    SlotHalves(op, c, p, SlotAt(c, p));
    ghost var c1 := Dups1(counter, op, Side(e1, false), s2, c, p + [false], q);
    ghost var n := counter.transCount - old(counter.transCount);
    SlotAfter(op, c, c1, p + [true], Side(e1, true));
    SlotAfter(op, c, c1, q, s2);
    c' := Dups1(counter, op, Side(e1, true), s2, c1, p + [true], q);
    SameForksTrans(c, c1, c');
    KconfigDups.First1Is(op, TreeOf(op, c), p, q, TreeOf(op, c1), n);
  }

  /** The second slot holds a group of the operator and the first does not. */
  method Dups1Second(counter: Counter, op: Op, s1: Slot, e2: Node, ghost c: Cell, ghost p: Path, ghost q: Path)
      returns (ghost c': Cell)
    requires Holds(op, c) && c.Fork? && SlotIs(op, c, p, s1) && On(c, q) && SlotIs(op, c, q, SlotAt(c, q))
    requires Sub(c, q).Fork? && Sub(c, q).n == e2 && IsOp(Get(op, TreeOf(op, c), q), op)
    requires !IsOp(Get(op, TreeOf(op, c), p), op)
    modifies counter, Foot(c)
    ensures Holds(op, c') && SameForks(c, c') && fresh(Foot(c') - Foot(c))
    ensures var r := KconfigDups.Dups1(op, TreeOf(op, c), p, q);
            TreeOf(op, c') == r.0 && counter.transCount == old(counter.transCount) + r.1
    decreases Size(TreeOf(op, c)), SpineSize(op, Get(op, TreeOf(op, c), p)),
              SpineSize(op, Get(op, TreeOf(op, c), q)), 2
  {
    SlotHalves(op, c, q, SlotAt(c, q));
    ghost var c1 := Dups1(counter, op, s1, Side(e2, false), c, p, q + [false]);
    ghost var n := counter.transCount - old(counter.transCount);
    SlotAfter(op, c, c1, q + [true], Side(e2, true));
    SlotAfter(op, c, c1, p, s1);
    c' := Dups1(counter, op, s1, Side(e2, true), c1, p, q + [true]);
    SameForksTrans(c, c1, c');
    KconfigDups.Second1Is(op, TreeOf(op, c), p, q, TreeOf(op, c1), n);
  }

  /** Two different operands. */
  method Dups1Leaf(counter: Counter, op: Op, s1: Slot, s2: Slot, ghost c: Cell, ghost p: Path, ghost q: Path)
      returns (ghost c': Cell)
    requires Holds(op, c) && c.Fork? && SlotIs(op, c, p, s1) && SlotIs(op, c, q, s2) && p != q
    requires Sub(c, p).Leaf? && Sub(c, q).Leaf?
    requires !IsOp(Get(op, TreeOf(op, c), p), op) && !IsOp(Get(op, TreeOf(op, c), q), op)
    modifies counter, Foot(c)
    ensures Holds(op, c') && SameForks(c, c') && fresh(Foot(c') - Foot(c))
    ensures var r := KconfigDups.Dups1(op, TreeOf(op, c), p, q);
            TreeOf(op, c') == r.0 && counter.transCount == old(counter.transCount) + r.1
    decreases Size(TreeOf(op, c)), SpineSize(op, Get(op, TreeOf(op, c), p)),
              SpineSize(op, Get(op, TreeOf(op, c), q)), 2
  {
    ghost var c1 := Dups1Operand(counter, op, s1, c, p);
    SlotStays(op, c, c1, p, s1);
    SlotStays(op, c, c1, q, s2);
    Kind(op, c1, p);
    Kind(op, c1, q);
    c' := JoinSlots(counter, op, s1, s2, c1, p, q);
    SameForksTrans(c, c1, c');
  }

  lemma Kind(op: Op, c: Cell, p: Path)
    requires Holds(op, c) && On(c, p) && OnSpine(op, TreeOf(op, c), p)
    ensures Sub(c, p).Fork? <==> IsOp(Get(op, TreeOf(op, c), p), op)
  {
    PathsAreSlots(op, c, p);
  }

  /** A group that is an operand of another one is itself cleaned of duplicates. */
  method Dups1Group(counter: Counter, e: Node, ghost bound: nat)
    requires e.Valid() && (e.tag == TAnd || e.tag == TOr) && Size(e.tree) < bound
    modifies counter, e.Repr
    ensures e.Valid() && fresh(e.Repr - old(e.Repr)) && IsOp(e.tree, OpOf(old(e.tree)))
    ensures var r := KconfigDups.Dups1(OpOf(old(e.tree)), old(e.tree), [], []);
            e.tree == r.0 && counter.transCount == old(counter.transCount) + r.1
    decreases bound, 0, 0, 0
  {
    var op := if e.tag == TAnd then AndOp else OrOp;
    ghost var b := SpineOf(op, e);
    SpineHolds(op, e);
    b := Dups1(counter, op, Top(e), Top(e), b, [], []);
    Settle(op, b);
  }

  /** What the function does to one operand. */
  function Cleaned1(e: Expr): (Expr, nat) {
    if IsGroup(e) then KconfigDups.Dups1(OpOf(e), e, [], []) else (e, 0)
  }

  /** The operand in a slot, if it is a group. */
  method Dups1Operand(counter: Counter, op: Op, s: Slot, ghost c: Cell, ghost p: Path) returns (ghost c': Cell)
    requires Holds(op, c) && SlotIs(op, c, p, s) && Sub(c, p).Leaf?
    modifies counter, Foot(c)
    ensures Holds(op, c') && SameForks(c, c') && fresh(Foot(c') - Foot(c))
    ensures var (x, n) := Cleaned1(Get(op, TreeOf(op, c), p));
            TreeOf(op, c') == Put(op, TreeOf(op, c), p, x) && counter.transCount == old(counter.transCount) + n
    decreases Size(TreeOf(op, c)), 0, 0, 1
  {
    SlotReads(op, c, p, s);
    var e := Load(s);
    if e.tag == TAnd || e.tag == TOr {
      SlotSize(op, TreeOf(op, c), p);
      Exist(c);
      ghost var bound := Size(TreeOf(op, c));
      ghost var was := Sub(c, p);
      PathsAreSlots(op, c, p);
      Dups1Group(counter, e, bound);
      forall d | d in Parts(c) && d != was ensures Sound(op, d, was, LeafOf(e)) {
        assert old(allocated(d)) && old(Sound(op, d, c, c));
        LeafApart(op, c, p, d);
      }
      OperandChanged(op, c, p, e);
      c' := PutCell(c, p, LeafOf(e));
    } else {
      SameForksRefl(c);
      KconfigDupsLoop.PutBack(op, TreeOf(op, c), p);
      c' := c;
    }
  }

  /** Joins the operands in two slots if there is a rule. */
  method JoinSlots(counter: Counter, op: Op, s1: Slot, s2: Slot, ghost c: Cell, ghost p: Path, ghost q: Path)
      returns (ghost c': Cell)
    requires Holds(op, c) && SlotIs(op, c, p, s1) && SlotIs(op, c, q, s2) && p != q
    requires Sub(c, p).Leaf? && Sub(c, q).Leaf?
    requires !IsOp(Get(op, TreeOf(op, c), p), op) && !IsOp(Get(op, TreeOf(op, c), q), op)
    modifies counter, Foot(c)
    ensures Holds(op, c') && SameForks(c, c') && fresh(Foot(c') - Foot(c))
    ensures var r := KconfigDups.JoinSlots(op, TreeOf(op, c), p, q);
            TreeOf(op, c') == r.0 && counter.transCount == old(counter.transCount) + r.1
  {
    var j := JoinLoaded(counter, op, s1, s2, c, p, q);
    if j == null {
      SameForksRefl(c);
      c' := c;
    } else {
      KconfigJoin.JoinShape(op, Get(op, TreeOf(op, c), p), Get(op, TreeOf(op, c), q));
      Exist(c);
      var unit := new Node.Symbol(if op == AndOp then Yes else No);
      counter.transCount := counter.transCount + 1;
      c' := StoreTwo(op, s1, unit, s2, j, c, p, q);
    }
  }

  method JoinLoaded(counter: Counter, op: Op, s1: Slot, s2: Slot, ghost c: Cell, ghost p: Path, ghost q: Path)
      returns (j: Node?)
    requires Holds(op, c) && SlotIs(op, c, p, s1) && SlotIs(op, c, q, s2)
    requires Sub(c, p).Leaf? && Sub(c, q).Leaf?
    modifies counter
    ensures counter.transCount == old(counter.transCount) && Holds(op, c)
    ensures j != null ==> j.Valid() && fresh(j.Repr) && j.Repr !! Foot(c)
    ensures (if j == null then None else Some(j.tree))
         == KconfigJoin.Join(op, Get(op, TreeOf(op, c), p), Get(op, TreeOf(op, c), q))
  {
    SlotReads(op, c, p, s1);
    SlotReads(op, c, q, s2);
    Exist(c);
    j := Join(counter, op, Load(s1), Load(s2));
  }

  /** New operands for two slots. */
  method StoreTwo(op: Op, s1: Slot, x: Node, s2: Slot, y: Node, ghost c: Cell, ghost p: Path, ghost q: Path)
      returns (ghost c': Cell)
    requires Holds(op, c) && SlotIs(op, c, p, s1) && SlotIs(op, c, q, s2) && p != q
    requires Sub(c, p).Leaf? && Sub(c, q).Leaf?
    requires x.Valid() && y.Valid() && !IsOp(x.tree, op) && !IsOp(y.tree, op)
    requires x.Repr !! Foot(c) && y.Repr !! Foot(c) && x.Repr !! y.Repr
    modifies Foot(c)
    ensures Holds(op, c') && SameForks(c, c') && Foot(c') <= Foot(c) + old(x.Repr) + old(y.Repr)
    ensures var root := TreeOf(op, c);
            && OnSpine(op, Put(op, root, p, old(x.tree)), q)
            && TreeOf(op, c') == Put(op, Put(op, root, p, old(x.tree)), q, old(y.tree))
  {
    SlotInside(op, c, p, s1);
    SlotInside(op, c, q, s2);
    ghost var c1 := StoreOne(op, s1, x, c, p);
    SlotStays(op, c, c1, q, s2);
    c' := StoreOne(op, s2, y, c1, q);
    SameForksTrans(c, c1, c');
  }

  method StoreOne(op: Op, s: Slot, x: Node, ghost c: Cell, ghost p: Path) returns (ghost c': Cell)
    requires Holds(op, c) && SlotIs(op, c, p, s) && Sub(c, p).Leaf?
    requires x.Valid() && !IsOp(x.tree, op) && x.Repr !! Foot(c)
    modifies if s.Side? then {s.n} else {}
    ensures Holds(op, c') && SameForks(c, c') && Foot(c') <= Foot(c) + old(x.Repr)
    ensures TreeOf(op, c') == Put(op, TreeOf(op, c), p, old(x.tree))
  {
    SlotInside(op, c, p, s);
    c' := Store(op, s, x, c, p);
    PutCellTree(op, c, p, LeafOf(x));
  }

  // ---------------------------------------------------------------- the second pass

  /** Whether the negation of e1 cancels completely against what is in e2, tried on
      copies. */
  method Contradicts(counter: Counter, op: Op, e1: Node, e2: Node) returns (all: bool)
    requires e1.Valid() && e2.Valid()
    modifies counter
    ensures counter.transCount == old(counter.transCount)
    ensures all == KconfigDups.Contradicts(op, e1.tree, e2.tree)
  {
    var tmp1 := NegatedCopy(e1);
    var tmp2 := Copy(e2);
    var tmp;
    tmp, tmp1, tmp2 := ExtractEqOp(counter, op, tmp1, tmp2);
    all := tmp1.tag == TSymbol && tmp1.a == if op == AndOp then Yes else No;
  }

  method NegatedCopy(e: Node) returns (r: Node)
    requires e.Valid()
    ensures r.Valid() && fresh(r.Repr) && r.tree == KconfigTransform.Transform(Not(e.tree))
  {
    var copy := Copy(e);
    r := new Node.Negation(copy);
    r := Transform(r);
  }

  /** expr_eliminate_dups2. */
  method Dups2(counter: Counter, op: Op, s1: Slot, s2: Slot, ghost c: Cell, ghost p: Path, ghost q: Path)
      returns (ghost c': Cell)
    requires Holds(op, c) && c.Fork? && SlotIs(op, c, p, s1) && SlotIs(op, c, q, s2)
    modifies counter, Foot(c)
    ensures Holds(op, c') && SameForks(c, c') && fresh(Foot(c') - Foot(c))
    ensures var r := KconfigDups.Dups2(op, TreeOf(op, c), p, q);
            TreeOf(op, c') == r.0 && counter.transCount == old(counter.transCount) + r.1
    decreases Size(TreeOf(op, c)), SpineSize(op, Get(op, TreeOf(op, c), p)),
              SpineSize(op, Get(op, TreeOf(op, c), q)), 5
  {
    SlotLoads(op, c, p, s1);
    var e1 := Load(s1);
    if HasOp(e1.tag, op) {
      c' := Dups2First(counter, op, e1, s2, c, p, q);
    } else {
      c' := Dups2Rest(counter, op, s1, s2, c, p, q);
    }
  }

  lemma First2Is(op: Op, root: Expr, p: Path, q: Path, r: Expr, n: nat)
    requires OnSpine(op, root, p) && OnSpine(op, root, q) && IsOp(Get(op, root, p), op)
    requires OnSpine(op, root, p + [false]) && OnSpine(op, r, p + [true]) && OnSpine(op, r, q)
    requires (r, n) == KconfigDups.Dups2(op, root, p + [false], q)
    ensures var (r2, n2) := KconfigDups.Dups2(op, r, p + [true], q);
            KconfigDups.Dups2(op, root, p, q) == (r2, n + n2)
  {
  }

  /** The first slot holds a group of the operator. */
  method Dups2First(counter: Counter, op: Op, e1: Node, s2: Slot, ghost c: Cell, ghost p: Path, ghost q: Path)
      returns (ghost c': Cell)
    requires Holds(op, c) && c.Fork? && On(c, p) && SlotIs(op, c, p, SlotAt(c, p)) && SlotIs(op, c, q, s2)
    requires Sub(c, p).Fork? && Sub(c, p).n == e1 && IsOp(Get(op, TreeOf(op, c), p), op)
    modifies counter, Foot(c)
    ensures Holds(op, c') && SameForks(c, c') && fresh(Foot(c') - Foot(c))
    ensures var r := KconfigDups.Dups2(op, TreeOf(op, c), p, q);
            TreeOf(op, c') == r.0 && counter.transCount == old(counter.transCount) + r.1
    decreases Size(TreeOf(op, c)), SpineSize(op, Get(op, TreeOf(op, c), p)),
              SpineSize(op, Get(op, TreeOf(op, c), q)), 3
  {
    SlotHalves(op, c, p, SlotAt(c, p));
    ghost var c1 := Dups2(counter, op, Side(e1, false), s2, c, p + [false], q);
    ghost var n := counter.transCount - old(counter.transCount);
    SlotAfter(op, c, c1, p + [true], Side(e1, true));
    SlotAfter(op, c, c1, q, s2);
    c' := Dups2(counter, op, Side(e1, true), s2, c1, p + [true], q);
    SameForksTrans(c, c1, c');
    First2Is(op, TreeOf(op, c), p, q, TreeOf(op, c1), n);
  }

  lemma Second2Is(op: Op, root: Expr, p: Path, q: Path, r: Expr, n: nat)
    requires OnSpine(op, root, p) && OnSpine(op, root, q) && !IsOp(Get(op, root, p), op) && IsOp(Get(op, root, q), op)
    requires OnSpine(op, root, q + [false]) && OnSpine(op, r, q + [true]) && OnSpine(op, r, p)
    requires (r, n) == KconfigDups.Dups2(op, root, p, q + [false])
    ensures var (r2, n2) := KconfigDups.Dups2(op, r, p, q + [true]);
            KconfigDups.Dups2Inner(op, root, p, q) == (r2, n + n2)
  {
  }

  /** The descent into a group in the second slot, which does not end the call. */
  method Dups2Inner(counter: Counter, op: Op, s1: Slot, s2: Slot, ghost c: Cell, ghost p: Path, ghost q: Path)
      returns (ghost c': Cell)
    requires Holds(op, c) && c.Fork? && SlotIs(op, c, p, s1) && SlotIs(op, c, q, s2)
    requires !IsOp(Get(op, TreeOf(op, c), p), op)
    modifies counter, Foot(c)
    ensures Holds(op, c') && SameForks(c, c') && fresh(Foot(c') - Foot(c))
    ensures var r := KconfigDups.Dups2Inner(op, TreeOf(op, c), p, q);
            TreeOf(op, c') == r.0 && counter.transCount == old(counter.transCount) + r.1
    decreases Size(TreeOf(op, c)), SpineSize(op, Get(op, TreeOf(op, c), p)),
              SpineSize(op, Get(op, TreeOf(op, c), q)), 2
  {
    SlotLoads(op, c, q, s2);
    var e2 := Load(s2);
    if HasOp(e2.tag, op) {
      c' := Dups2Second(counter, op, s1, e2, c, p, q);
    } else {
      SameForksRefl(c);
      c' := c;
    }
  }

  method Dups2Second(counter: Counter, op: Op, s1: Slot, e2: Node, ghost c: Cell, ghost p: Path, ghost q: Path)
      returns (ghost c': Cell)
    requires Holds(op, c) && c.Fork? && SlotIs(op, c, p, s1) && On(c, q) && SlotIs(op, c, q, SlotAt(c, q))
    requires Sub(c, q).Fork? && Sub(c, q).n == e2 && IsOp(Get(op, TreeOf(op, c), q), op)
    requires !IsOp(Get(op, TreeOf(op, c), p), op)
    modifies counter, Foot(c)
    ensures Holds(op, c') && SameForks(c, c') && fresh(Foot(c') - Foot(c))
    ensures var r := KconfigDups.Dups2Inner(op, TreeOf(op, c), p, q);
            TreeOf(op, c') == r.0 && counter.transCount == old(counter.transCount) + r.1
    decreases Size(TreeOf(op, c)), SpineSize(op, Get(op, TreeOf(op, c), p)),
              SpineSize(op, Get(op, TreeOf(op, c), q)), 1
  {
    SlotHalves(op, c, q, SlotAt(c, q));
    ghost var c1 := Dups2(counter, op, s1, Side(e2, false), c, p, q + [false]);
    ghost var n := counter.transCount - old(counter.transCount);
    SlotAfter(op, c, c1, q + [true], Side(e2, true));
    SlotAfter(op, c, c1, p, s1);
    c' := Dups2(counter, op, s1, Side(e2, true), c1, p, q + [true]);
    assert Foot(c') - Foot(c) <= (Foot(c') - Foot(c1)) + (Foot(c1) - Foot(c));
    SameForksTrans(c, c1, c');
    Second2Is(op, TreeOf(op, c), p, q, TreeOf(op, c1), n);
  }

  /** The first slot holds an operand. */
  method Dups2Rest(counter: Counter, op: Op, s1: Slot, s2: Slot, ghost c: Cell, ghost p: Path, ghost q: Path)
      returns (ghost c': Cell)
    requires Holds(op, c) && c.Fork? && SlotIs(op, c, p, s1) && SlotIs(op, c, q, s2)
    requires Sub(c, p).Leaf? && !IsOp(Get(op, TreeOf(op, c), p), op)
    modifies counter, Foot(c)
    ensures Holds(op, c') && SameForks(c, c') && fresh(Foot(c') - Foot(c))
    ensures var r := KconfigDups.Dups2(op, TreeOf(op, c), p, q);
            TreeOf(op, c') == r.0 && counter.transCount == old(counter.transCount) + r.1
    decreases Size(TreeOf(op, c)), SpineSize(op, Get(op, TreeOf(op, c), p)),
              SpineSize(op, Get(op, TreeOf(op, c), q)), 4
  {
    ghost var c1 := Dups2Inner(counter, op, s1, s2, c, p, q);
    ghost var n := counter.transCount - old(counter.transCount);
    SlotStays(op, c, c1, p, s1);
    SlotStays(op, c, c1, q, s2);
    Kind(op, c1, p);
    c' := Dups2Leaf(counter, op, s1, s2, c1, p, q);
    SameForksTrans(c, c1, c');
    RestIs(op, TreeOf(op, c), p, q, TreeOf(op, c1), n);
  }

  /** What the function does once the second slot has been searched. */
  function Collapsed(op: Op, root: Expr, p: Path, q: Path): (Expr, nat)
    requires OnSpine(op, root, p) && OnSpine(op, root, q) && !IsOp(Get(op, root, p), op)
  {
    var e := Get(op, root, p);
    if p == q || !IsGroup(e) then (root, 0)
    else
      var (x, n) := KconfigDups.Dups2(OpOf(e), e, [], []);
      PutLeaf(op, root, p, x);
      var root' := Put(op, root, p, x);
      SpineSlots(op, root, root', q);
      if KconfigDups.Contradicts(op, x, Get(op, root', q)) then (Put(op, root', p, KconfigDups.Absorber(op)), n + 1)
      else (root', n)
  }

  lemma RestIs(op: Op, root: Expr, p: Path, q: Path, r: Expr, n: nat)
    requires OnSpine(op, root, p) && OnSpine(op, root, q) && !IsOp(Get(op, root, p), op)
    requires OnSpine(op, r, p) && OnSpine(op, r, q) && !IsOp(Get(op, r, p), op)
    requires (r, n) == KconfigDups.Dups2Inner(op, root, p, q)
    ensures KconfigDups.Dups2(op, root, p, q) == (Collapsed(op, r, p, q).0, n + Collapsed(op, r, p, q).1)
  {
  }

  /** From the comparison of the two pointers on. */
  method Dups2Leaf(counter: Counter, op: Op, s1: Slot, s2: Slot, ghost c: Cell, ghost p: Path, ghost q: Path)
      returns (ghost c': Cell)
    requires Holds(op, c) && c.Fork? && SlotIs(op, c, p, s1) && SlotIs(op, c, q, s2)
    requires Sub(c, p).Leaf? && !IsOp(Get(op, TreeOf(op, c), p), op)
    modifies counter, Foot(c)
    ensures Holds(op, c') && SameForks(c, c') && fresh(Foot(c') - Foot(c))
    ensures var r := Collapsed(op, TreeOf(op, c), p, q);
            TreeOf(op, c') == r.0 && counter.transCount == old(counter.transCount) + r.1
    decreases Size(TreeOf(op, c)), 0, 0, 3
  {
    SlotReads(op, c, p, s1);
    SlotReads(op, c, q, s2);
    var e1, e2 := Load(s1), Load(s2);
    if e1 != e2 && (e1.tag == TAnd || e1.tag == TOr) {
      c' := Dups2Differ(counter, op, s1, s2, c, p, q);
    } else {
      NothingCollapsed(op, c, p, q);
      c' := c;
    }
  }

  lemma NothingCollapsed(op: Op, c: Cell, p: Path, q: Path)
    requires Apart(op, c) && On(c, p) && On(c, q)
    requires OnSpine(op, TreeOf(op, c), p) && OnSpine(op, TreeOf(op, c), q) && !IsOp(Get(op, TreeOf(op, c), p), op)
    requires Sub(c, p).n == Sub(c, q).n || !IsGroup(Get(op, TreeOf(op, c), p))
    ensures SameForks(c, c) && Collapsed(op, TreeOf(op, c), p, q) == (TreeOf(op, c), 0)
  {
    SameForksRefl(c);
    if Sub(c, p).n == Sub(c, q).n {
      PathsApart(op, c, p, q);
    }
  }

  /** A group in the first slot, and something else in the second. */
  method Dups2Differ(counter: Counter, op: Op, s1: Slot, s2: Slot, ghost c: Cell, ghost p: Path, ghost q: Path)
      returns (ghost c': Cell)
    requires Holds(op, c) && SlotIs(op, c, p, s1) && SlotIs(op, c, q, s2) && p != q
    requires Sub(c, p).Leaf? && !IsOp(Get(op, TreeOf(op, c), p), op) && IsGroup(Get(op, TreeOf(op, c), p))
    modifies counter, Foot(c)
    ensures Holds(op, c') && SameForks(c, c') && fresh(Foot(c') - Foot(c))
    ensures var r := Collapsed(op, TreeOf(op, c), p, q);
            TreeOf(op, c') == r.0 && counter.transCount == old(counter.transCount) + r.1
    decreases Size(TreeOf(op, c)), 0, 0, 2
  {
    ghost var c1 := Dups2Operand(counter, op, s1, c, p);
    SlotStays(op, c, c1, p, s1);
    SlotStays(op, c, c1, q, s2);
    ghost var e := Get(op, TreeOf(op, c), p);
    PutLeaf(op, TreeOf(op, c), p, KconfigDups.Dups2(OpOf(e), e, [], []).0);
    c' := CollapseIf(counter, op, s1, s2, c1, p, q);
    SameForksTrans(c, c1, c');
  }

  /** A group that is an operand of another one, by itself. */
  method Dups2Group(counter: Counter, e: Node, ghost bound: nat)
    requires e.Valid() && (e.tag == TAnd || e.tag == TOr) && Size(e.tree) < bound
    modifies counter, e.Repr
    ensures e.Valid() && fresh(e.Repr - old(e.Repr)) && IsOp(e.tree, OpOf(old(e.tree)))
    ensures var r := KconfigDups.Dups2(OpOf(old(e.tree)), old(e.tree), [], []);
            e.tree == r.0 && counter.transCount == old(counter.transCount) + r.1
    decreases bound, 0, 0, 0
  {
    var op := if e.tag == TAnd then AndOp else OrOp;
    ghost var b := SpineOf(op, e);
    SpineHolds(op, e);
    b := Dups2(counter, op, Top(e), Top(e), b, [], []);
    Settle(op, b);
  }

  method Dups2Operand(counter: Counter, op: Op, s: Slot, ghost c: Cell, ghost p: Path) returns (ghost c': Cell)
    requires Holds(op, c) && SlotIs(op, c, p, s) && Sub(c, p).Leaf?
    requires IsGroup(Get(op, TreeOf(op, c), p))
    modifies counter, Foot(c)
    ensures Holds(op, c') && SameForks(c, c') && fresh(Foot(c') - Foot(c))
    ensures var e := Get(op, TreeOf(op, c), p);
            var (x, n) := KconfigDups.Dups2(OpOf(e), e, [], []);
            TreeOf(op, c') == Put(op, TreeOf(op, c), p, x) && counter.transCount == old(counter.transCount) + n
    decreases Size(TreeOf(op, c)), 0, 0, 1
  {
    SlotReads(op, c, p, s);
    var e := Load(s);
    SlotSize(op, TreeOf(op, c), p);
    Exist(c);
    ghost var bound := Size(TreeOf(op, c));
    ghost var was := Sub(c, p);
    PathsAreSlots(op, c, p);
    Dups2Group(counter, e, bound);
    forall d | d in Parts(c) && d != was ensures Sound(op, d, was, LeafOf(e)) {
      assert old(allocated(d)) && old(Sound(op, d, c, c));
      LeafApart(op, c, p, d);
    }
    OperandChanged(op, c, p, e);
    c' := PutCell(c, p, LeafOf(e));
  }

  /** A group that contradicts the other slot gives way to the constant. */
  method CollapseIf(counter: Counter, op: Op, s1: Slot, s2: Slot, ghost c: Cell, ghost p: Path, ghost q: Path)
      returns (ghost c': Cell)
    requires Holds(op, c) && SlotIs(op, c, p, s1) && SlotIs(op, c, q, s2) && Sub(c, p).Leaf?
    modifies counter, Foot(c)
    ensures Holds(op, c') && SameForks(c, c') && fresh(Foot(c') - Foot(c))
    ensures var root := TreeOf(op, c);
            (TreeOf(op, c'), counter.transCount - old(counter.transCount)) ==
              if KconfigDups.Contradicts(op, Get(op, root, p), Get(op, root, q)) then
                (Put(op, root, p, KconfigDups.Absorber(op)), 1)
              else (root, 0)
  {
    var all := TestSlots(counter, op, s1, s2, c, p, q);
    if all {
      Exist(c);
      SlotInside(op, c, p, s1);
      var x := new Node.Symbol(if op == AndOp then No else Yes);
      counter.transCount := counter.transCount + 1;
      c' := StoreOne(op, s1, x, c, p);
    } else {
      SameForksRefl(c);
      c' := c;
    }
  }

  method TestSlots(counter: Counter, op: Op, s1: Slot, s2: Slot, ghost c: Cell, ghost p: Path, ghost q: Path)
      returns (all: bool)
    requires Holds(op, c) && SlotIs(op, c, p, s1) && SlotIs(op, c, q, s2) && Sub(c, p).Leaf?
    modifies counter, ForkNodes(c)`tree, ForkNodes(c)`Repr
    ensures counter.transCount == old(counter.transCount) && Holds(op, c)
    ensures all == KconfigDups.Contradicts(op, Get(op, TreeOf(op, c), p), Get(op, TreeOf(op, c), q))
  {
    SlotHolds(op, c, q);
    PathsAreSlots(op, c, q);
    SettlePart(op, c, q);
    SlotReads(op, c, p, s1);
    SlotLoads(op, c, q, s2);
    Exist(c);
    all := Contradicts(counter, op, Load(s1), Load(s2));
  }

  // ---------------------------------------------------------------- the loop

  /** Both passes over a group. */
  method RoundGroup(counter: Counter, e: Node)
    requires e.Valid() && (e.tag == TAnd || e.tag == TOr)
    modifies counter, e.Repr
    ensures e.Valid() && fresh(e.Repr - old(e.Repr))
    ensures var (r1, n1) := KconfigDups.Dups1(OpOf(old(e.tree)), old(e.tree), [], []);
            var (r2, n2) := KconfigDups.Dups2(OpOf(old(e.tree)), r1, [], []);
            e.tree == r2 && counter.transCount == old(counter.transCount) + n1 + n2
  {
    Dups1Group(counter, e, Size(e.tree) + 1);
    Dups2Group(counter, e, Size(e.tree) + 1);
  }

  lemma RoundIs(e: Expr)
    ensures IsGroup(e) ==>
              var (r1, n1) := KconfigDups.Dups1(OpOf(e), e, [], []);
              var (r2, n2) := KconfigDups.Dups2(OpOf(e), r1, [], []);
              KconfigDupsLoop.Round(e) == (r2, n1 + n2)
    ensures !IsGroup(e) ==> KconfigDupsLoop.Round(e) == (e, 0)
  {
  }

  /** One turn of the loop up to the test of the counter. */
  method RoundInPlace(counter: Counter, e: Node)
    requires e.Valid()
    modifies counter, e.Repr
    ensures e.Valid() && fresh(e.Repr - old(e.Repr))
    ensures (e.tree, counter.transCount) == KconfigDupsLoop.Round(old(e.tree))
  {
    RoundIs(e.tree);
    counter.transCount := 0;
    if e.tag == TAnd || e.tag == TOr {
      RoundGroup(counter, e);
    }
  }

  /** expr_eliminate_dups: the expression is rewritten on the nodes it has, and the
      counter has its old value at the end. */
  method EliminateDups(counter: Counter, e: Node) returns (r: Node)
    requires e.Valid()
    modifies counter, e.Repr
    ensures counter.transCount == old(counter.transCount)
    ensures r == e && r.Valid() && fresh(r.Repr - old(e.Repr))
    ensures r.tree == KconfigDupsLoop.Dups(old(e.tree))
  {
    var oldCount := counter.transCount;
    r := e;
    while true
      invariant r == e && r.Valid() && fresh(r.Repr - old(e.Repr))
      invariant KconfigDupsLoop.Dups(r.tree) == KconfigDupsLoop.Dups(old(e.tree))
      decreases Size(r.tree)
    {
      ghost var before := r.tree;
      RoundInPlace(counter, r);
      if counter.transCount == 0 {
        KconfigDupsLoop.RoundMarks(before);
        break;
      }
      KconfigDupsLoop.RoundShrinks(before);
      r := EliminateYn(r);
    }
    counter.transCount := oldCount;
  }
}
