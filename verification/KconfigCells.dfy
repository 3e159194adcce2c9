/** The operands of a group on the heap.  `expr_eliminate_dups` walks over the
    group nodes of one operator with pointers to pointers, any two of which may be
    the same, and overwrites operands; a cell is the picture of that part of the
    heap, and its paths are those of KconfigSlots. */
module KconfigCells {
  import opened KconfigExpr
  import opened KconfigSlots
  import opened KconfigInPlace

  /** A group node of the operator, or an operand with what it stands for and the
      nodes it is made of. */
  datatype Cell = Leaf(n: Node, tree: Expr, repr: set<Node>) | Fork(n: Node, l: Cell, r: Cell)

  ghost function Foot(c: Cell): set<Node> {
    match c
    case Leaf(n, _, repr) => {n} + repr
    case Fork(n, l, r) => {n} + Foot(l) + Foot(r)
  }

  ghost function TreeOf(op: Op, c: Cell): Expr {
    match c
    case Leaf(_, tree, _) => tree
    case Fork(_, l, r) => Build(op, TreeOf(op, l), TreeOf(op, r))
  }

  /** No two cells share a node. */
  ghost predicate Apart(op: Op, c: Cell) {
    match c
    case Leaf(n, tree, repr) => n in repr && !IsOp(tree, op)
    case Fork(n, l, r) => Apart(op, l) && Apart(op, r) && n !in Foot(l) && n !in Foot(r) && Foot(l) !! Foot(r)
  }

  ghost function Parts(c: Cell): (parts: set<Cell>)
    ensures c in parts
    ensures forall d :: d in parts ==> d.n in Foot(c) && Foot(d) <= Foot(c)
  {
    match c
    case Leaf(_, _, _) => {c}
    case Fork(_, l, r) => {c} + Parts(l) + Parts(r)
  }

  /** The heap is as the cell says; `now` has taken the place of `was`. */
  ghost predicate Sound(op: Op, d: Cell, was: Cell, now: Cell)
    reads Foot(d)
  {
    match d
    case Leaf(n, tree, repr) => n.Repr == repr && n.Valid() && n.tree == tree
    case Fork(n, l, r) => HasOp(n.tag, op) && n.left == Root(l, was, now) && n.right == Root(r, was, now)
  }

  ghost function Root(d: Cell, was: Cell, now: Cell): Node {
    if d == was then now.n else d.n
  }

  ghost predicate Holds(op: Op, c: Cell)
    reads Foot(c)
  {
    Apart(op, c) && forall d :: d in Parts(c) ==> Sound(op, d, c, c)
  }

  // ---------------------------------------------------------------- paths

  predicate On(c: Cell, p: Path) {
    p == [] || (c.Fork? && On(if p[0] then c.r else c.l, p[1..]))
  }

  function Sub(c: Cell, p: Path): Cell
    requires On(c, p)
  {
    if p == [] then c else Sub(if p[0] then c.r else c.l, p[1..])
  }

  function PutCell(c: Cell, p: Path, x: Cell): Cell
    requires On(c, p)
  {
    if p == [] then x
    else if p[0] then Fork(c.n, c.l, PutCell(c.r, p[1..], x))
    else Fork(c.n, PutCell(c.l, p[1..], x), c.r)
  }

  /** Cell paths are the slots of the expression. */
  lemma {:induction false} PathsAreSlots(op: Op, c: Cell, p: Path)
    requires Apart(op, c)
    ensures On(c, p) <==> OnSpine(op, TreeOf(op, c), p)
    ensures On(c, p) ==> TreeOf(op, Sub(c, p)) == Get(op, TreeOf(op, c), p) && Sub(c, p) in Parts(c)
    ensures On(c, p) ==> Apart(op, Sub(c, p)) && (Sub(c, p).Fork? <==> IsOp(Get(op, TreeOf(op, c), p), op))
  {
    if p != [] && c.Fork? {
      PathsAreSlots(op, if p[0] then c.r else c.l, p[1..]);
    }
  }

  lemma {:induction false} PutCellTree(op: Op, c: Cell, p: Path, x: Cell)
    requires Apart(op, c) && On(c, p) && OnSpine(op, TreeOf(op, c), p)
    ensures TreeOf(op, PutCell(c, p, x)) == Put(op, TreeOf(op, c), p, TreeOf(op, x))
  {
    if p != [] {
      PathsAreSlots(op, if p[0] then c.r else c.l, p[1..]);
      PutCellTree(op, if p[0] then c.r else c.l, p[1..], x);
    }
  }

  /** Different paths lead to different nodes. */
  lemma {:induction false} PathsApart(op: Op, c: Cell, p: Path, q: Path)
    requires Apart(op, c) && On(c, p) && On(c, q) && Sub(c, p).n == Sub(c, q).n
    ensures p == q
  {
    if p != [] {
      PathsAreSlots(op, if p[0] then c.r else c.l, p[1..]);
    }
    if q != [] {
      PathsAreSlots(op, if q[0] then c.r else c.l, q[1..]);
    }
    if p != [] && q != [] && p[0] == q[0] {
      PathsApart(op, if p[0] then c.r else c.l, p[1..], q[1..]);
    }
  }

  /** A leaf shares no node with any other part. */
  lemma {:induction false} LeafApart(op: Op, c: Cell, p: Path, d: Cell)
    requires Apart(op, c) && On(c, p) && Sub(c, p).Leaf? && d in Parts(c) && d != Sub(c, p)
    ensures d.n !in Foot(Sub(c, p)) && (d.Leaf? ==> Foot(d) !! Foot(Sub(c, p)))
  {
    if p != [] {
      var (down, side) := if p[0] then (c.r, c.l) else (c.l, c.r);
      PathsAreSlots(op, down, p[1..]);
      if d in Parts(down) {
        LeafApart(op, down, p[1..], d);
      }
    }
  }

  /** A group node is in no other part. */
  lemma {:induction false} ForkApart(op: Op, c: Cell, f: Cell, d: Cell)
    requires Apart(op, c) && f in Parts(c) && f.Fork? && d in Parts(c) && d != f
    ensures d.n != f.n && (d.Leaf? ==> f.n !in Foot(d))
  {
    if c.Fork? && f != c && d != c {
      if f in Parts(c.l) && d in Parts(c.l) {
        ForkApart(op, c.l, f, d);
      } else if f in Parts(c.r) && d in Parts(c.r) {
        ForkApart(op, c.r, f, d);
      }
    }
  }

  lemma ChildBelow(op: Op, c: Cell, d: Cell)
    requires Apart(op, c) && d in Parts(c) && d.Fork?
    ensures d.l.n in Foot(c) && d.r.n in Foot(c) && d.l.n != c.n && d.r.n != c.n
  {
    assert d.l in Parts(d.l) && d.r in Parts(d.r);
  }

  /** No operand belongs to two groups. */
  lemma {:induction false} ChildrenApart(op: Op, c: Cell, f: Cell, d: Cell)
    requires Apart(op, c) && f in Parts(c) && f.Fork? && d in Parts(c) && d.Fork? && d != f
    ensures d.l.n != f.l.n && d.l.n != f.r.n && d.r.n != f.l.n && d.r.n != f.r.n
  {
    var inner, outer := if f == c then d else f, if f == c then f else d;
    if outer == c {
      var (side, other) := if inner in Parts(c.l) then (c.l, c.r) else (c.r, c.l);
      ChildBelow(op, side, inner);
      assert other in Parts(other);
    } else {
      assert Foot(c.l) !! Foot(c.r);
      if f in Parts(c.l) && d in Parts(c.l) {
        ChildrenApart(op, c.l, f, d);
      } else if f in Parts(c.r) && d in Parts(c.r) {
        ChildrenApart(op, c.r, f, d);
      } else {
        ChildBelow(op, if f in Parts(c.l) then c.l else c.r, f);
        ChildBelow(op, if d in Parts(c.l) then c.l else c.r, d);
      }
    }
  }

  // ---------------------------------------------------------------- a leaf replaced

  /** The new operand may use nodes of the old one, but none of the rest. */
  ghost predicate Fits(op: Op, c: Cell, was: Cell, x: Cell) {
    Apart(op, x) && Foot(x) !! Foot(c) - Foot(was)
  }

  lemma {:induction false} PutCellFoot(op: Op, c: Cell, p: Path, x: Cell)
    requires Apart(op, c) && On(c, p) && Sub(c, p).Leaf? && Fits(op, c, Sub(c, p), x)
    ensures Foot(PutCell(c, p, x)) == Foot(c) - Foot(Sub(c, p)) + Foot(x)
    ensures Apart(op, PutCell(c, p, x)) && PutCell(c, p, x).n == Root(c, Sub(c, p), x)
  {
    if p != [] {
      var (down, side) := if p[0] then (c.r, c.l) else (c.l, c.r);
      PathsAreSlots(op, down, p[1..]);
      PutCellFoot(op, down, p[1..], x);
    }
  }

  /** All parts but the old leaf are as they were, with the new one in its place. */
  ghost predicate Swapped(op: Op, c: Cell, was: Cell, x: Cell)
    reads Foot(c)
  {
    forall d :: d in Parts(c) && d != was ==> Sound(op, d, was, x)
  }

  lemma {:induction false} SideUntouched(op: Op, side: Cell, was: Cell, x: Cell)
    requires Apart(op, side) && was.n !in Foot(side) && Swapped(op, side, was, x)
    ensures Holds(op, side)
  {
    forall d | d in Parts(side) ensures Sound(op, d, side, side) {
      assert Sound(op, d, was, x);
      if d.Fork? {
        PartsOfChild(side, d);
      }
    }
  }

  lemma {:induction false} PartsOfChild(c: Cell, d: Cell)
    requires d in Parts(c) && d.Fork?
    ensures d.l in Parts(c) && d.r in Parts(c)
  {
    if d != c {
      PartsOfChild(if d in Parts(c.l) then c.l else c.r, d);
    }
  }

  lemma HoldsFork(op: Op, c: Cell)
    requires c.Fork? && Apart(op, c) && Holds(op, c.l) && Holds(op, c.r) && Sound(op, c, c, c)
    ensures Holds(op, c)
  {
    forall d | d in Parts(c) ensures Sound(op, d, c, c) {
      assert d in Parts(c.l) ==> Sound(op, d, c.l, c.l);
      assert d in Parts(c.r) ==> Sound(op, d, c.r, c.r);
    }
  }

  lemma {:induction false} HoldsPut(op: Op, c: Cell, p: Path, x: Cell)
    requires Apart(op, c) && On(c, p) && Sub(c, p).Leaf? && x.Leaf? && Fits(op, c, Sub(c, p), x)
    requires Swapped(op, c, Sub(c, p), x) && Holds(op, x)
    ensures Holds(op, PutCell(c, p, x))
  {
    if p != [] {
      var was, c' := Sub(c, p), PutCell(c, p, x);
      var (down, side) := if p[0] then (c.r, c.l) else (c.l, c.r);
      PathsAreSlots(op, down, p[1..]);
      HoldsPut(op, down, p[1..], x);
      SideUntouched(op, side, was, x);
      PutRoots(op, c, p, x);
      RootSound(op, c, was, x, c');
      HoldsFork(op, c');
    }
  }

  lemma PutRoots(op: Op, c: Cell, p: Path, x: Cell)
    requires Apart(op, c) && On(c, p) && p != [] && Sub(c, p).Leaf? && Fits(op, c, Sub(c, p), x)
    ensures var was, c' := Sub(c, p), PutCell(c, p, x);
            c'.l.n == Root(c.l, was, x) && c'.r.n == Root(c.r, was, x) && Apart(op, c')
  {
    var (down, side) := if p[0] then (c.r, c.l) else (c.l, c.r);
    PathsAreSlots(op, down, p[1..]);
    PutCellFoot(op, c, p, x);
    PutCellFoot(op, down, p[1..], x);
  }

  lemma RootSound(op: Op, c: Cell, was: Cell, x: Cell, c': Cell)
    requires c.Fork? && c'.Fork? && c'.n == c.n && Sound(op, c, was, x)
    requires c'.l.n == Root(c.l, was, x) && c'.r.n == Root(c.r, was, x)
    ensures Sound(op, c', c', c')
  {
  }

  /** The group nodes are the same and so are the places of the operands. */
  ghost predicate SameForks(c: Cell, c': Cell) {
    && (c.Fork? <==> c'.Fork?)
    && (c.Fork? ==> c'.n == c.n && SameForks(c.l, c'.l) && SameForks(c.r, c'.r))
  }

  lemma {:induction false} SameForksRefl(c: Cell)
    ensures SameForks(c, c)
  {
    if c.Fork? {
      SameForksRefl(c.l);
      SameForksRefl(c.r);
    }
  }

  lemma {:induction false} SameForksTrans(a: Cell, b: Cell, c: Cell)
    requires SameForks(a, b) && SameForks(b, c)
    ensures SameForks(a, c)
  {
    if a.Fork? {
      SameForksTrans(a.l, b.l, c.l);
      SameForksTrans(a.r, b.r, c.r);
    }
  }

  lemma {:induction false} PutLeafForks(c: Cell, p: Path, x: Cell)
    requires On(c, p) && Sub(c, p).Leaf? && x.Leaf?
    ensures SameForks(c, PutCell(c, p, x))
  {
    if p != [] {
      PutLeafForks(if p[0] then c.r else c.l, p[1..], x);
      SameForksRefl(if p[0] then c.l else c.r);
    }
  }

  // ---------------------------------------------------------------- slots

  /** `&e` of a variable that is not stored to, or the address of a field. */
  datatype Slot = Top(e: Node) | Side(n: Node, right: bool)

  function SlotAt(c: Cell, p: Path): Slot
    requires On(c, p)
  {
    if p == [] then Top(c.n)
    else if p[1..] == [] then Side(c.n, p[0])
    else SlotAt(if p[0] then c.r else c.l, p[1..])
  }

  lemma {:induction false} SlotBelow(c: Cell, p: Path, right: bool)
    requires On(c, p) && Sub(c, p).Fork?
    ensures On(c, p + [right]) && SlotAt(c, p + [right]) == Side(Sub(c, p).n, right)
  {
    if p == [] {
      assert (p + [right])[1..] == [];
      assert On(if right then c.r else c.l, []);
    } else {
      assert (p + [right])[1..] == p[1..] + [right];
      SlotBelow(if p[0] then c.r else c.l, p[1..], right);
    }
  }

  lemma {:induction false} SameSlots(c: Cell, c': Cell, p: Path)
    requires SameForks(c, c') && On(c, p) && (p == [] ==> c.Fork?)
    ensures On(c', p) && SlotAt(c', p) == SlotAt(c, p)
  {
    if p != [] {
      var (down, down') := if p[0] then (c.r, c'.r) else (c.l, c'.l);
      if p[1..] != [] {
        SameSlots(down, down', p[1..]);
      } else {
        assert On(down', []);
      }
    }
  }

  function Load(s: Slot): Node?
    reads if s.Side? then {s.n} else {}
  {
    match s
    case Top(e) => e
    case Side(n, right) => if right then n.right else n.left
  }

  /** What a slot holds. */
  lemma {:induction false} SlotHolds(op: Op, c: Cell, p: Path)
    requires Holds(op, c) && On(c, p)
    ensures Load(SlotAt(c, p)) == Sub(c, p).n && Sub(c, p) in Parts(c) && Holds(op, Sub(c, p))
    ensures HasOp(Sub(c, p).n.tag, op) <==> Sub(c, p).Fork?
  {
    assert Sound(op, c, c, c);
    if p != [] {
      var down := if p[0] then c.r else c.l;
      forall d | d in Parts(down) ensures Sound(op, d, down, down) {
        assert Sound(op, d, c, c);
      }
      SlotHolds(op, down, p[1..]);
    }
  }

  /** The group whose field a slot is. */
  lemma {:induction false} SlotParent(op: Op, c: Cell, p: Path) returns (f: Cell)
    requires Apart(op, c) && On(c, p) && p != []
    ensures f in Parts(c) && f.Fork? && SlotAt(c, p).Side? && SlotAt(c, p).n == f.n
    ensures Sub(c, p) == if SlotAt(c, p).right then f.r else f.l
    ensures f.l != f.r
  {
    if p[1..] == [] {
      f := c;
    } else {
      f := SlotParent(op, if p[0] then c.r else c.l, p[1..]);
    }
    ForkSides(op, c, f);
  }

  lemma {:induction false} ForkSides(op: Op, c: Cell, f: Cell)
    requires Apart(op, c) && f in Parts(c) && f.Fork?
    ensures f.l != f.r
  {
    if f != c {
      ForkSides(op, if f in Parts(c.l) then c.l else c.r, f);
    } else {
      assert f.l in Parts(f.l) && f.r in Parts(f.r);
    }
  }

  /** An operand's node as a leaf. */
  ghost function LeafOf(x: Node): Cell
    reads x
  {
    Leaf(x, x.tree, x.Repr)
  }

  /** An operand that can go into a slot whose operand is `was`. */
  ghost predicate Storable(op: Op, c: Cell, was: Cell, x: Node)
    reads x, x.Repr
  {
    x.Valid() && !IsOp(x.tree, op) && x.Repr !! Foot(c) - Foot(was)
  }

  lemma {:induction false} Exist(c: Cell)
    ensures forall d :: d in Parts(c) ==> allocated(d)
    ensures forall x :: x in Foot(c) ==> allocated(x)
  {
    if c.Fork? {
      Exist(c.l);
      Exist(c.r);
    }
  }

  /** The assignment itself. */
  method Assign(op: Op, s: Slot, x: Node, ghost c: Cell, ghost was: Cell, ghost f: Cell)
    requires Holds(op, c) && f in Parts(c) && f.Fork? && f.l != f.r && s.Side? && s.n == f.n
    requires was == (if s.right then f.r else f.l) && was.Leaf? && s.n !in x.Repr && x.Valid()
    modifies if s.Side? then {s.n} else {}
    ensures Swapped(op, c, was, LeafOf(x)) && x.Valid() && x.tree == old(x.tree) && x.Repr == old(x.Repr)
  {
    Exist(c);
    if s.right {
      s.n.right := x;
    } else {
      s.n.left := x;
    }
    forall d | d in Parts(c) && d != was ensures Sound(op, d, was, LeafOf(x)) {
      assert old(allocated(d)) && old(Sound(op, d, c, c));
      if d != f {
        ForkApart(op, c, f, d);
        if d.Fork? {
          ChildrenApart(op, c, f, d);
        }
      }
    }
  }

  /** A store through a slot. */
  method Store(op: Op, s: Slot, x: Node, ghost c: Cell, ghost p: Path) returns (ghost c': Cell)
    requires Holds(op, c) && On(c, p) && p != [] && s == SlotAt(c, p) && Sub(c, p).Leaf?
    requires Storable(op, c, Sub(c, p), x)
    modifies if s.Side? then {s.n} else {}
    ensures c' == PutCell(c, p, LeafOf(x)) && Holds(op, c') && SameForks(c, c') && x.tree == old(x.tree)
    ensures Foot(c') == Foot(c) - Foot(Sub(c, p)) + x.Repr && x.Repr == old(x.Repr)
  {
    ghost var f := SlotParent(op, c, p);
    LeafApart(op, c, p, f);
    Assign(op, s, x, c, Sub(c, p), f);
    HoldsPut(op, c, p, LeafOf(x));
    PutCellFoot(op, c, p, LeafOf(x));
    PutLeafForks(c, p, LeafOf(x));
    c' := PutCell(c, p, LeafOf(x));
  }

  // ---------------------------------------------------------------- in and out of the picture

  ghost function SpineOf(op: Op, e: Node): Cell
    requires e.Valid()
    reads e, e.Repr
    decreases e.tree
  {
    if HasOp(e.tag, op) then Fork(e, SpineOf(op, e.left), SpineOf(op, e.right)) else LeafOf(e)
  }

  lemma {:induction false} SpineHolds(op: Op, e: Node)
    requires e.Valid()
    ensures var c := SpineOf(op, e);
            && Holds(op, c) && Foot(c) <= e.Repr && TreeOf(op, c) == e.tree && c.n == e
            && (c.Fork? <==> HasOp(e.tag, op))
    decreases e.tree
  {
    if HasOp(e.tag, op) {
      SpineHolds(op, e.left);
      SpineHolds(op, e.right);
      HoldsFork(op, SpineOf(op, e));
    }
  }

  lemma HoldsSides(op: Op, c: Cell)
    requires Holds(op, c) && c.Fork?
    ensures Holds(op, c.l) && Holds(op, c.r) && Sound(op, c, c, c)
  {
    forall d | d in Parts(c.l) ensures Sound(op, d, c.l, c.l) {
      assert Sound(op, d, c, c);
    }
    forall d | d in Parts(c.r) ensures Sound(op, d, c.r, c.r) {
      assert Sound(op, d, c, c);
    }
  }

  ghost function ForkNodes(c: Cell): (r: set<Node>)
    ensures r <= Foot(c)
  {
    match c
    case Leaf(_, _, _) => {}
    case Fork(n, l, r) => {n} + ForkNodes(l) + ForkNodes(r)
  }

  lemma {:induction false} LeavesApart(op: Op, c: Cell, d: Cell)
    requires Apart(op, c) && d in Parts(c) && d.Leaf?
    ensures Foot(d) !! ForkNodes(c)
  {
    if c.Fork? {
      LeavesApart(op, if d in Parts(c.l) then c.l else c.r, d);
    }
  }

  lemma {:induction false} SubForks(c: Cell, p: Path)
    requires On(c, p)
    ensures ForkNodes(Sub(c, p)) <= ForkNodes(c)
  {
    if p != [] {
      SubForks(if p[0] then c.r else c.l, p[1..]);
    }
  }

  /** Records what the group nodes stand for after their operands were overwritten. */
  ghost method Settle(op: Op, c: Cell)
    requires Holds(op, c)
    modifies ForkNodes(c)`tree, ForkNodes(c)`Repr
    ensures c.n.Valid() && c.n.tree == TreeOf(op, c) && c.n.Repr == Foot(c)
    decreases c
  {
    assert Sound(op, c, c, c);
    if c.Fork? {
      HoldsSides(op, c);
      Exist(c.r);
      Settle(op, c.l);
      assert Holds(op, c.r);
      Settle(op, c.r);
      c.n.Regroup();
    }
  }

  /** The same for a part of the tree; the picture of the tree stays right. */
  ghost method SettlePart(op: Op, c: Cell, p: Path)
    requires Holds(op, c) && On(c, p) && Holds(op, Sub(c, p))
    modifies ForkNodes(c)`tree, ForkNodes(c)`Repr
    ensures Sub(c, p).n.Valid() && Sub(c, p).n.tree == TreeOf(op, Sub(c, p)) && Holds(op, c)
  {
    Exist(c);
    SubForks(c, p);
    Settle(op, Sub(c, p));
    forall d | d in Parts(c) ensures Sound(op, d, c, c) {
      assert old(allocated(d)) && old(Sound(op, d, c, c));
      if d.Leaf? {
        LeavesApart(op, c, d);
      }
    }
  }

  // ---------------------------------------------------------------- slots of the expression

  /** Slot s of the tree in the heap is slot p of the expression. */
  ghost predicate SlotIs(op: Op, c: Cell, p: Path, s: Slot) {
    On(c, p) && OnSpine(op, TreeOf(op, c), p) && s == SlotAt(c, p) && (p == [] ==> c.Fork?)
  }

  lemma SlotDown(op: Op, c: Cell, p: Path, s: Slot, right: bool)
    requires Apart(op, c) && SlotIs(op, c, p, s) && Sub(c, p).Fork?
    ensures SlotIs(op, c, p + [right], Side(Sub(c, p).n, right))
  {
    SlotBelow(c, p, right);
    PathsAreSlots(op, c, p + [right]);
  }

  lemma SlotStays(op: Op, c: Cell, c': Cell, p: Path, s: Slot)
    requires Apart(op, c) && Apart(op, c') && SameForks(c, c') && SlotIs(op, c, p, s)
    ensures SlotIs(op, c', p, s) && (Sub(c', p).Fork? <==> Sub(c, p).Fork?)
  {
    SameSlots(c, c', p);
    PathsAreSlots(op, c', p);
    SameKinds(c, c', p);
  }

  lemma {:induction false} SameKinds(c: Cell, c': Cell, p: Path)
    requires SameForks(c, c') && On(c, p) && On(c', p)
    ensures Sub(c', p).Fork? <==> Sub(c, p).Fork?
  {
    if p != [] {
      SameKinds(if p[0] then c.r else c.l, if p[0] then c'.r else c'.l, p[1..]);
    }
  }

  lemma {:induction false} SameForksSpine(op: Op, c: Cell, c': Cell)
    requires Apart(op, c) && Apart(op, c') && SameForks(c, c')
    ensures SameSpine(op, TreeOf(op, c), TreeOf(op, c'))
  {
    if c.Fork? {
      SameForksSpine(op, c.l, c'.l);
      SameForksSpine(op, c.r, c'.r);
    }
  }

  /** The two slots below a group, and how much smaller the groups in them are. */
  lemma SlotHalves(op: Op, c: Cell, p: Path, s: Slot)
    requires Apart(op, c) && SlotIs(op, c, p, s) && Sub(c, p).Fork?
    ensures SlotIs(op, c, p + [false], Side(Sub(c, p).n, false)) && SlotIs(op, c, p + [true], Side(Sub(c, p).n, true))
    ensures SpineSize(op, Get(op, TreeOf(op, c), p + [false])) < SpineSize(op, Get(op, TreeOf(op, c), p))
    ensures SpineSize(op, Get(op, TreeOf(op, c), p + [true])) < SpineSize(op, Get(op, TreeOf(op, c), p))
  {
    SlotDown(op, c, p, s, false);
    SlotDown(op, c, p, s, true);
    PathsAreSlots(op, c, p);
    Descend(op, TreeOf(op, c), p, false);
    Descend(op, TreeOf(op, c), p, true);
  }

  /** The same slot after some operands were overwritten. */
  lemma SlotAfter(op: Op, c: Cell, c': Cell, p: Path, s: Slot)
    requires Apart(op, c) && Apart(op, c') && SameForks(c, c') && SlotIs(op, c, p, s)
    ensures SlotIs(op, c', p, s)
    ensures SpineSize(op, Get(op, TreeOf(op, c'), p)) == SpineSize(op, Get(op, TreeOf(op, c), p))
    ensures IsOp(Get(op, TreeOf(op, c'), p), op) == IsOp(Get(op, TreeOf(op, c), p), op)
  {
    SlotStays(op, c, c', p, s);
    SameForksSpine(op, c, c');
    SpineSlots(op, TreeOf(op, c), TreeOf(op, c'), p);
  }

  /** What the slot holds, in the heap and in the expression. */
  lemma SlotReads(op: Op, c: Cell, p: Path, s: Slot)
    requires Holds(op, c) && SlotIs(op, c, p, s)
    ensures var k := Sub(c, p);
            && Load(s) == k.n && k.n in Foot(c) && Foot(k) <= Foot(c)
            && (HasOp(k.n.tag, op) <==> k.Fork?) && (k.Fork? <==> IsOp(Get(op, TreeOf(op, c), p), op))
            && (k.Leaf? ==> p != [] && k == LeafOf(k.n) && k.n.Valid() && k.tree == Get(op, TreeOf(op, c), p))
            && k in Parts(c)
  {
    SlotHolds(op, c, p);
    PathsAreSlots(op, c, p);
    assert Sound(op, Sub(c, p), c, c);
  }

  lemma SlotInside(op: Op, c: Cell, p: Path, s: Slot)
    requires Apart(op, c) && SlotIs(op, c, p, s) && Sub(c, p).Leaf?
    ensures p != [] && s.Side? && s.n in Foot(c)
  {
    var f := SlotParent(op, c, p);
  }
}
