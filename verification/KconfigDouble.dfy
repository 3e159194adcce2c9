/** What expr_eliminate_dups makes of `e && e` and `e || e`. */
module KconfigDouble {
  import opened Basics
  import opened KconfigExpr
  import opened KconfigYn
  import opened KconfigTransform
  import opened KconfigEq
  import opened KconfigSame
  import opened KconfigSlots
  import opened KconfigJoin
  import opened KconfigDups
  import opened KconfigDupsLoop
  import opened KconfigDupsClean

  /** The same group with a unit for every operand. */
  function Blank(op: Op, e: Expr): (r: Expr)
    ensures SameSpine(op, e, r)
  {
    if IsOp(e, op) then Build(op, Blank(op, e.l), Blank(op, e.r)) else Unit(op)
  }

  function Operands(op: Op, e: Expr): (n: nat)
    ensures n > 0
  {
    if IsOp(e, op) then Operands(op, e.l) + Operands(op, e.r) else 1
  }

  /** Some operands of e have been replaced by units. */
  predicate Partly(op: Op, u: Expr, e: Expr) {
    if IsOp(e, op) then IsOp(u, op) && Partly(op, u.l, e.l) && Partly(op, u.r, e.r) else u == Unit(op) || u == e
  }

  lemma {:induction false} PartlyBlank(op: Op, e: Expr)
    ensures Partly(op, e, e) && Partly(op, Blank(op, e), e)
  {
    if IsOp(e, op) {
      PartlyBlank(op, e.l);
      PartlyBlank(op, e.r);
    }
  }

  lemma {:induction false} PartlySlot(op: Op, u: Expr, e: Expr, p: Path)
    requires Partly(op, u, e)
    ensures OnSpine(op, u, p) <==> OnSpine(op, e, p)
    ensures OnSpine(op, e, p) ==> Partly(op, Get(op, u, p), Get(op, e, p))
  {
    if p != [] && IsOp(e, op) {
      PartlySlot(op, if p[0] then u.r else u.l, if p[0] then e.r else e.l, p[1..]);
    }
  }

  lemma {:induction false} PartlyPut(op: Op, u: Expr, e: Expr, p: Path, x: Expr)
    requires Partly(op, u, e) && OnSpine(op, u, p) && OnSpine(op, e, p) && Partly(op, x, Get(op, e, p))
    ensures Partly(op, Put(op, u, p, x), e)
  {
    if p != [] {
      PartlyPut(op, if p[0] then u.r else u.l, if p[0] then e.r else e.l, p[1..], x);
    }
  }

  /** Both halves of a slot overwritten. */
  lemma {:induction false} PutHalves(op: Op, u: Expr, p: Path, x: Expr, y: Expr)
    requires OnSpine(op, u, p) && IsOp(Get(op, u, p), op)
    ensures OnSpine(op, u, p + [false]) && OnSpine(op, Put(op, u, p + [false], x), p + [true])
    ensures Get(op, Put(op, u, p + [false], x), p + [true]) == Get(op, u, p).r
    ensures Put(op, Put(op, u, p + [false], x), p + [true], y) == Put(op, u, p, Build(op, x, y))
  {
    if p == [] {
      assert p + [false] == [false] && p + [true] == [true];
      assert [false][1..] == [] && [true][1..] == [];
      assert OnSpine(op, u.l, []) && OnSpine(op, u.r, []) && Put(op, u.l, [], x) == x && Put(op, u.r, [], y) == y;
    } else {
      assert (p + [false])[1..] == p[1..] + [false] && (p + [true])[1..] == p[1..] + [true];
      PutHalves(op, if p[0] then u.r else u.l, p[1..], x, y);
    }
  }

  // --- The doubled group ---

  function Left0(p: Path): (r: Path)
    ensures r != [] && !r[0] && r[1..] == p
  {
    [false] + p
  }

  function Right0(p: Path): (r: Path)
    ensures r != [] && r[0] && r[1..] == p
  {
    [true] + p
  }

  lemma Inside(op: Op, u: Expr, e: Expr, p: Path)
    ensures OnSpine(op, u, p) ==>
              && OnSpine(op, Build(op, u, e), Left0(p)) && Get(op, Build(op, u, e), Left0(p)) == Get(op, u, p)
              && forall x :: Put(op, Build(op, u, e), Left0(p), x) == Build(op, Put(op, u, p, x), e)
    ensures OnSpine(op, e, p) ==>
              && OnSpine(op, Build(op, u, e), Right0(p)) && Get(op, Build(op, u, e), Right0(p)) == Get(op, e, p)
              && forall x :: Put(op, Build(op, u, e), Right0(p), x) == Build(op, u, Put(op, e, p, x))
  {
  }

  /** Slots of the whole are the root and the slots of the halves. */
  lemma Outside(op: Op, u: Expr, e: Expr, q: Path) returns (s: Path)
    requires OnSpine(op, Build(op, u, e), q) && q != []
    ensures if q[0] then q == Right0(s) && OnSpine(op, e, s) else q == Left0(s) && OnSpine(op, u, s)
  {
    s := q[1..];
  }

  /** Different operands of e have no rule, there is nothing to do inside them, and none is
      a symbol that is not compared. */
  ghost predicate Quietly(op: Op, e: Expr) {
    NoRule(op, e) && Quiet(op, e) && Plain(e) && !Flagged(e)
  }

  lemma {:induction false} OperandPlain(op: Op, e: Expr, p: Path)
    requires Plain(e) && !Flagged(e) && OnSpine(op, e, p)
    ensures Plain(Get(op, e, p)) && !Flagged(Get(op, e, p))
  {
    if p != [] {
      OperandPlain(op, if p[0] then e.r else e.l, p[1..]);
    }
  }

  lemma NoUnitRule(op: Op, x: Expr)
    requires Plain(x) && !Flagged(x)
    ensures Join(op, x, Unit(op)).None? && Join(op, Unit(op), x).None?
  {
  }

  /** An operand of the left half, or a unit in its place, against an operand other than its twin. */
  lemma PairIdle(op: Op, u: Expr, e: Expr, p: Path, q: Path)
    requires Quietly(op, e) && Partly(op, u, e) && IsLeaf(op, e, p) && OnSpine(op, u, p)
    requires IsLeaf(op, Build(op, u, e), q) && OnSpine(op, Build(op, u, e), Left0(p))
    requires if q != [] && !q[0] then Get(op, u, p) == Get(op, e, p) else q != Right0(p) || Get(op, u, p) == Unit(op)
    ensures Settled1(op, Build(op, u, e), Left0(p), q)
  {
    var s := Outside(op, u, e, q);
    PartlySlot(op, u, e, p);
    PartlySlot(op, u, e, s);
    Inside(op, u, e, p);
    Inside(op, u, e, s);
    OperandPlain(op, e, p);
    OperandPlain(op, e, s);
    NoUnitRule(op, Get(op, e, p));
    NoUnitRule(op, Get(op, e, s));
  }

  /** The operand in slot p, of the left half or a unit in its place, meets those below slot q
      of the whole, its twin not among them. */
  lemma ScanIdle(op: Op, u: Expr, e: Expr, p: Path, q: Path)
    requires Quietly(op, e) && Partly(op, u, e) && IsLeaf(op, e, p) && OnSpine(op, u, p)
    requires OnSpine(op, Build(op, u, e), q) && OnSpine(op, Build(op, u, e), Left0(p)) && q != []
    requires if !q[0] then Get(op, u, p) == Get(op, e, p) else !(q[1..] <= p) || Get(op, u, p) == Unit(op)
    ensures Dups1(op, Build(op, u, e), Left0(p), q) == (Build(op, u, e), 0)
  {
    var root := Build(op, u, e);
    PartlySlot(op, u, e, p);
    Inside(op, u, e, p);
    forall p', q' | Left0(p) <= p' && q <= q' && IsLeaf(op, root, p') && IsLeaf(op, root, q')
      ensures Settled1(op, root, p', q')
    {
      LeafEnds(op, root, Left0(p), p');
      assert q'[0] == q[0] && q[1..] <= q'[1..];
      PairIdle(op, u, e, p, q');
    }
    Dups1Idle(op, root, Left0(p), q);
  }

  lemma PutThenGet(op: Op, u: Expr, p: Path, x: Expr)
    requires IsLeaf(op, u, p) && !IsOp(x, op)
    ensures OnSpine(op, Put(op, u, p, x), p) && Get(op, Put(op, u, p, x), p) == x
  {
    PutLeaf(op, u, p, x);
  }

  /** Once a unit is in its place, nothing more happens. */
  lemma ScanAfter(op: Op, u: Expr, e: Expr, p: Path, q: Path)
    requires Quietly(op, e) && Partly(op, u, e) && IsLeaf(op, e, p) && OnSpine(op, u, p)
    requires Get(op, u, p) == Get(op, e, p)
    requires OnSpine(op, e, q)
    ensures var root' := Build(op, Put(op, u, p, Unit(op)), e);
            && OnSpine(op, root', Left0(p)) && OnSpine(op, root', Right0(q))
            && Dups1(op, root', Left0(p), Right0(q)) == (root', 0)
  {
    var u' := Put(op, u, p, Unit(op));
    PartlyPut(op, u, e, p, Unit(op));
    PutThenGet(op, u, p, Unit(op));
    Inside(op, u', e, p);
    Inside(op, u', e, q);
    ScanIdle(op, u', e, p, Right0(q));
  }

  /** It meets its twin somewhere below slot q of the right half: the twin stays, and a
      unit takes its own place. */
  lemma {:induction false} MeetTwin(op: Op, u: Expr, e: Expr, p: Path, q: Path)
    requires Quietly(op, e) && Partly(op, u, e) && IsLeaf(op, e, p) && OnSpine(op, u, p)
    requires Get(op, u, p) == Get(op, e, p)
    requires OnSpine(op, e, q) && q <= p
    requires OnSpine(op, Build(op, u, e), Left0(p)) && OnSpine(op, Build(op, u, e), Right0(q))
    ensures Dups1(op, Build(op, u, e), Left0(p), Right0(q)) == (Build(op, Put(op, u, p, Unit(op)), e), 1)
    decreases SpineSize(op, Get(op, e, q))
  {
    var root := Build(op, u, e);
    Inside(op, u, e, p);
    Inside(op, u, e, q);
    if IsOp(Get(op, e, q), op) {
      Descend(op, e, q, false);
      Descend(op, e, q, true);
      Inside(op, u, e, q + [false]);
      Inside(op, u, e, q + [true]);
      assert Right0(q) + [false] == Right0(q + [false]) && Right0(q) + [true] == Right0(q + [true]);
      BelowSlot(op, e, q, p);
      if q + [false] <= p {
        MeetTwin(op, u, e, p, q + [false]);
        ScanAfter(op, u, e, p, q + [true]);
        Second1Is(op, root, Left0(p), Right0(q), Build(op, Put(op, u, p, Unit(op)), e), 1);
      } else {
        ScanIdle(op, u, e, p, Right0(q + [false]));
        MeetTwin(op, u, e, p, q + [true]);
        Second1Is(op, root, Left0(p), Right0(q), root, 0);
      }
    } else {
      LeafEnds(op, e, q, p);
      MeetsTwin(op, u, e, p);
    }
  }

  /** The twin itself. */
  lemma MeetsTwin(op: Op, u: Expr, e: Expr, p: Path)
    requires Quietly(op, e) && Partly(op, u, e) && IsLeaf(op, e, p) && OnSpine(op, u, p)
    requires Get(op, u, p) == Get(op, e, p)
    requires OnSpine(op, Build(op, u, e), Left0(p)) && OnSpine(op, Build(op, u, e), Right0(p))
    ensures Dups1(op, Build(op, u, e), Left0(p), Right0(p)) == (Build(op, Put(op, u, p, Unit(op)), e), 1)
  {
    var root, x := Build(op, u, e), Get(op, e, p);
    Inside(op, u, e, p);
    OperandPlain(op, e, p);
    ExprEqReflexive(x);
    assert IsGroup(x) ==> Inactive(x);
    if IsGroup(x) {
      Dups1Marks(OpOf(x), x, [], []);
    }
    PutBack(op, root, Left0(p));
    var root' := Put(op, root, Left0(p), Unit(op));
    Inside(op, Put(op, u, p, Unit(op)), e, p);
    PutBack(op, root', Right0(p));
  }

  /** The operands below slot p of the left half, one after the other, meet everything. */
  lemma {:induction false} LeftRun(op: Op, u: Expr, e: Expr, p: Path)
    requires Quietly(op, e) && Partly(op, u, e) && OnSpine(op, e, p) && OnSpine(op, u, p)
    requires Get(op, u, p) == Get(op, e, p) && OnSpine(op, Build(op, u, e), Left0(p))
    ensures Dups1(op, Build(op, u, e), Left0(p), [])
         == (Build(op, Put(op, u, p, Blank(op, Get(op, e, p))), e), Operands(op, Get(op, e, p)))
    decreases SpineSize(op, Get(op, e, p))
  {
    Inside(op, u, e, p);
    if IsOp(Get(op, e, p), op) {
      LeftHalves(op, u, e, p);
      var u' := Put(op, u, p + [false], Blank(op, Get(op, e, p).l));
      LeftRun(op, u, e, p + [false]);
      LeftRun(op, u', e, p + [true]);
      PutHalves(op, u, p, Blank(op, Get(op, e, p).l), Blank(op, Get(op, e, p).r));
      LeftBoth(op, Build(op, u, e), p, Build(op, u', e), Operands(op, Get(op, e, p).l),
               Build(op, Put(op, u, p, Blank(op, Get(op, e, p))), e), Operands(op, Get(op, e, p).r));
    } else {
      LeftOne(op, u, e, p);
    }
  }

  /** From its halves to a group of the left half. */
  lemma LeftBoth(op: Op, r: Expr, p: Path, r1: Expr, n1: nat, r2: Expr, n2: nat)
    requires OnSpine(op, r, Left0(p)) && IsOp(Get(op, r, Left0(p)), op) && IsOp(r, op)
    requires OnSpine(op, r, Left0(p + [false])) && Dups1(op, r, Left0(p + [false]), []) == (r1, n1)
    requires OnSpine(op, r1, Left0(p + [true])) && Dups1(op, r1, Left0(p + [true]), []) == (r2, n2)
    ensures Dups1(op, r, Left0(p), []) == (r2, n1 + n2)
  {
    assert Left0(p) + [false] == Left0(p + [false]) && Left0(p) + [true] == Left0(p + [true]);
    First1Is(op, r, Left0(p), [], r1, n1);
  }

  lemma LeftHalves(op: Op, u: Expr, e: Expr, p: Path)
    requires Partly(op, u, e) && OnSpine(op, e, p) && OnSpine(op, u, p)
    requires Get(op, u, p) == Get(op, e, p) && IsOp(Get(op, e, p), op)
    ensures OnSpine(op, e, p + [false]) && OnSpine(op, e, p + [true])
    ensures OnSpine(op, u, p + [false]) && OnSpine(op, Build(op, u, e), Left0(p + [false]))
    ensures Get(op, e, p + [false]) == Get(op, e, p).l && Get(op, e, p + [true]) == Get(op, e, p).r
    ensures Get(op, u, p + [false]) == Get(op, e, p).l
    ensures var u' := Put(op, u, p + [false], Blank(op, Get(op, e, p).l));
            && Partly(op, u', e) && OnSpine(op, u', p + [true]) && Get(op, u', p + [true]) == Get(op, e, p).r
            && OnSpine(op, Build(op, u', e), Left0(p + [true]))
  {
    var b := Blank(op, Get(op, e, p).l);
    Descend(op, e, p, false);
    Descend(op, e, p, true);
    Descend(op, u, p, false);
    PartlyBlank(op, Get(op, e, p).l);
    PutHalves(op, u, p, b, b);
    PartlyPut(op, u, e, p + [false], b);
    Inside(op, u, e, p + [false]);
    Inside(op, Put(op, u, p + [false], b), e, p + [true]);
  }

  /** One operand of the left half meets everything. */
  lemma LeftOne(op: Op, u: Expr, e: Expr, p: Path)
    requires Quietly(op, e) && Partly(op, u, e) && IsLeaf(op, e, p) && OnSpine(op, u, p)
    requires Get(op, u, p) == Get(op, e, p) && OnSpine(op, Build(op, u, e), Left0(p))
    ensures Dups1(op, Build(op, u, e), Left0(p), []) == (Build(op, Put(op, u, p, Unit(op)), e), 1)
  {
    var root: Expr, none: Path := Build(op, u, e), [];
    Inside(op, u, e, p);
    Inside(op, u, e, []);
    assert none + [false] == Left0([]) && none + [true] == Right0([]);
    assert OnSpine(op, u, []) && OnSpine(op, e, []);
    ScanIdle(op, u, e, p, Left0([]));
    MeetTwin(op, u, e, p, []);
  }

  /** Then the operands of the right half meet units and each other. */
  lemma RightRun(op: Op, e: Expr)
    requires Quietly(op, e)
    ensures var root := Build(op, Blank(op, e), e);
            OnSpine(op, root, [true]) && Dups1(op, root, [true], []) == (root, 0)
  {
    var root := Build(op, Blank(op, e), e);
    assert OnSpine(op, e, []);
    Inside(op, Blank(op, e), e, []);
    assert Right0([]) == [true];
    forall p', q' | [true] <= p' && IsLeaf(op, root, p') && IsLeaf(op, root, q') ensures Settled1(op, root, p', q') {
      RightPair(op, e, p', q');
    }
    Dups1Idle(op, root, [true], []);
  }

  lemma RightPair(op: Op, e: Expr, p: Path, q: Path)
    requires Quietly(op, e)
    requires var root := Build(op, Blank(op, e), e); IsLeaf(op, root, p) && IsLeaf(op, root, q) && [true] <= p
    ensures Settled1(op, Build(op, Blank(op, e), e), p, q)
  {
    var u := Blank(op, e);
    PartlyBlank(op, e);
    var s := Outside(op, u, e, p);
    var t := Outside(op, u, e, q);
    Inside(op, u, e, s);
    Inside(op, u, e, t);
    PartlySlot(op, u, e, t);
    BlankSlot(op, e, t);
    OperandPlain(op, e, s);
    NoUnitRule(op, Get(op, e, s));
  }

  lemma {:induction false} BlankSlot(op: Op, e: Expr, p: Path)
    requires OnSpine(op, e, p)
    ensures OnSpine(op, Blank(op, e), p) && Get(op, Blank(op, e), p) == Blank(op, Get(op, e, p))
  {
    if p != [] {
      BlankSlot(op, if p[0] then e.r else e.l, p[1..]);
    }
  }

  /** The first pass over a doubled group leaves one of each operand. */
  lemma DoubleJoins(op: Op, e: Expr)
    requires Quietly(op, e)
    ensures Dups1(op, Build(op, e, e), [], []) == (Build(op, Blank(op, e), e), Operands(op, e))
  {
    var none: Path := [];
    assert OnSpine(op, e, none);
    PartlyBlank(op, e);
    Inside(op, e, e, none);
    assert Left0(none) == none + [false] && none + [true] == [true];
    LeftRun(op, e, e, none);
    RightRun(op, e);
  }

  // --- Contradictions with units ---

  predicate AllUnits(op: Op, v: Expr) {
    if IsOp(v, op) then AllUnits(op, v.l) && AllUnits(op, v.r) else v == Unit(op)
  }

  predicate SomeUnit(op: Op, t: Expr) {
    if IsOp(t, op) then SomeUnit(op, t.l) || SomeUnit(op, t.r) else t == Unit(op)
  }

  /** Units can be taken out of a group of units, and units they stay. */
  lemma {:induction false} ExtractUnits(op: Op, ep: Option<Expr>, t: Expr, v: Expr)
    requires AllUnits(op, v)
    ensures var r := ExtractEq(op, ep, t, v);
            r.1 == t && r.2 == v && (r.0.Some? <==> ep.Some? || SomeUnit(op, t))
    decreases Size(t) + Size(v)
  {
    if IsOp(t, op) {
      ExtractUnits(op, ep, t.l, v);
      ExtractUnits(op, ExtractEq(op, ep, t.l, v).0, t.r, v);
    } else if IsOp(v, op) {
      ExtractUnits(op, ep, t, v.l);
      ExtractUnits(op, ExtractEq(op, ep, t, v.l).0, t, v.r);
    }
  }

  /** What was taken out before makes no difference to what is. */
  lemma {:induction false} ExtractAgain(op: Op, ep: Option<Expr>, t: Expr, y: Expr)
    ensures var r, n := ExtractEq(op, ep, t, y), ExtractEq(op, None, t, y);
            r.1 == n.1 && r.2 == n.2 && (r.0.Some? <==> ep.Some? || n.0.Some?)
    ensures ExtractEq(op, None, t, y).0.None? ==> ExtractEq(op, None, t, y).1 == t && ExtractEq(op, None, t, y).2 == y
    decreases Size(t) + Size(y)
  {
    if IsOp(t, op) {
      var r, n := ExtractEq(op, ep, t.l, y), ExtractEq(op, None, t.l, y);
      ExtractAgain(op, ep, t.l, y);
      ExtractAgain(op, r.0, t.r, n.2);
      ExtractAgain(op, n.0, t.r, n.2);
    } else if IsOp(y, op) {
      var r, n := ExtractEq(op, ep, t, y.l), ExtractEq(op, None, t, y.l);
      ExtractAgain(op, ep, t, y.l);
      ExtractAgain(op, r.0, n.1, y.r);
      ExtractAgain(op, n.0, n.1, y.r);
    }
  }

  /** Units beside y change nothing but that units are taken out. */
  lemma {:induction false} ExtractBeside(op: Op, ep: Option<Expr>, t: Expr, b: Expr, y: Expr)
    requires AllUnits(op, b)
    ensures var r, n := ExtractEq(op, ep, t, Build(op, b, y)), ExtractEq(op, None, t, y);
            r.1 == n.1 && r.2 == Build(op, b, n.2) && (r.0.Some? <==> ep.Some? || SomeUnit(op, t) || n.0.Some?)
    decreases Size(t)
  {
    if IsOp(t, op) {
      var r, n := ExtractEq(op, ep, t.l, Build(op, b, y)), ExtractEq(op, None, t.l, y);
      ExtractBeside(op, ep, t.l, b, y);
      ExtractBeside(op, r.0, t.r, b, n.2);
      ExtractAgain(op, n.0, t.r, n.2);
    } else {
      ExtractUnits(op, ep, t, b);
      ExtractAgain(op, ExtractEq(op, ep, t, b).0, t, y);
    }
  }

  lemma UnitsContradict(op: Op, x: Expr, v: Expr)
    requires AllUnits(op, v)
    ensures Contradicts(op, x, v) <==> Contradicts(op, x, Unit(op))
  {
    ExtractUnits(op, None, Transform(Not(x)), v);
    ExtractUnits(op, None, Transform(Not(x)), Unit(op));
  }

  lemma BesideContradicts(op: Op, x: Expr, b: Expr, y: Expr)
    requires AllUnits(op, b)
    ensures Contradicts(op, x, y) ==> Contradicts(op, x, Build(op, b, y))
    ensures Contradicts(op, x, Build(op, b, y)) ==> Contradicts(op, x, y) || Contradicts(op, x, Unit(op))
  {
    var t := Transform(Not(x));
    ExtractBeside(op, None, t, b, y);
    ExtractAgain(op, None, t, y);
    ExtractUnits(op, None, t, Unit(op));
  }

  lemma {:induction false} BlankUnits(op: Op, e: Expr)
    ensures AllUnits(op, Blank(op, e))
  {
    if IsOp(e, op) {
      BlankUnits(op, e.l);
      BlankUnits(op, e.r);
    }
  }

  // --- The second pass over the doubled group ---

  /** No group among the operands of e is contradicted by the unit or by the whole of e. */
  ghost predicate Sturdy(op: Op, e: Expr) {
    forall p :: IsLeaf(op, e, p) && IsGroup(Get(op, e, p)) ==>
      !Contradicts(op, Get(op, e, p), Unit(op)) && !Contradicts(op, Get(op, e, p), e)
  }

  lemma RightSettled(op: Op, e: Expr, p: Path, q: Path)
    requires Quietly(op, e) && NoContradiction(op, e) && Sturdy(op, e)
    requires var root := Build(op, Blank(op, e), e); IsLeaf(op, root, p) && OnSpine(op, root, q)
    ensures Settled2(op, Build(op, Blank(op, e), e), p, q)
  {
    var u := Blank(op, e);
    var s := Outside(op, u, e, p);
    Inside(op, u, e, s);
    BlankUnits(op, e);
    if p[0] {
      var x := Get(op, e, s);
      if IsGroup(x) && q != p {
        assert Inactive(x);
        RightClash(op, e, s, q);
      }
    } else {
      PartlyBlank(op, e);
      PartlySlot(op, u, e, s);
      BlankSlot(op, e, s);
    }
  }

  lemma RightClash(op: Op, e: Expr, s: Path, q: Path)
    requires IsLeaf(op, e, s) && IsGroup(Get(op, e, s)) && NoContradiction(op, e) && Sturdy(op, e)
    requires OnSpine(op, Build(op, Blank(op, e), e), q) && q != Right0(s)
    ensures !Contradicts(op, Get(op, e, s), Get(op, Build(op, Blank(op, e), e), q))
  {
    var u, x := Blank(op, e), Get(op, e, s);
    BlankUnits(op, e);
    if q == [] {
      BesideContradicts(op, x, u, e);
    } else {
      var t := Outside(op, u, e, q);
      Inside(op, u, e, t);
      if !q[0] {
        PartlyBlank(op, e);
        PartlySlot(op, u, e, t);
        BlankSlot(op, e, t);
        BlankUnits(op, Get(op, e, t));
        UnitsContradict(op, x, Get(op, u, t));
      }
    }
  }

  lemma DoubleSettled(op: Op, e: Expr)
    requires Quietly(op, e) && NoContradiction(op, e)
    ensures AllSettled2(op, Build(op, Blank(op, e), e), [], []) <==> Sturdy(op, e)
  {
    var u, root := Blank(op, e), Build(op, Blank(op, e), e);
    if Sturdy(op, e) {
      forall p, q | IsLeaf(op, root, p) && OnSpine(op, root, q) ensures Settled2(op, root, p, q) {
        RightSettled(op, e, p, q);
      }
    }
    if AllSettled2(op, root, [], []) {
      forall p | IsLeaf(op, e, p) && IsGroup(Get(op, e, p))
        ensures !Contradicts(op, Get(op, e, p), Unit(op)) && !Contradicts(op, Get(op, e, p), e)
      {
        SettledSturdy(op, e, p);
      }
    }
  }

  lemma SettledSturdy(op: Op, e: Expr, p: Path)
    requires AllSettled2(op, Build(op, Blank(op, e), e), [], []) && IsLeaf(op, e, p) && IsGroup(Get(op, e, p))
    ensures !Contradicts(op, Get(op, e, p), Unit(op)) && !Contradicts(op, Get(op, e, p), e)
  {
    var u, root := Blank(op, e), Build(op, Blank(op, e), e);
    var none: Path := [];
    assert OnSpine(op, u, none) && OnSpine(op, root, none) && Get(op, root, none) == root;
    BlankUnits(op, e);
    Inside(op, u, e, p);
    Inside(op, u, e, none);
    assert Settled2(op, root, Right0(p), Left0(none)) && Settled2(op, root, Right0(p), none);
    UnitsContradict(op, Get(op, e, p), u);
    BesideContradicts(op, Get(op, e, p), u, e);
  }

  // --- What a contradiction does ---

  /** Some operands were replaced by the constant that decides the group. */
  predicate Touched(op: Op, root: Expr, r: Expr) {
    if IsOp(root, op) then IsOp(r, op) && Touched(op, root.l, r.l) && Touched(op, root.r, r.r)
    else r == root || r == Absorber(op)
  }

  predicate Decided(op: Op, r: Expr) {
    if IsOp(r, op) then Decided(op, r.l) || Decided(op, r.r) else r == Absorber(op)
  }

  /** The second pass finds nothing inside the operands. */
  predicate Still(op: Op, e: Expr) {
    if IsOp(e, op) then Still(op, e.l) && Still(op, e.r) else IsGroup(e) ==> Dups2(OpOf(e), e, [], []).1 == 0
  }

  lemma {:induction false} TouchedTrans(op: Op, a: Expr, b: Expr, c: Expr)
    requires Touched(op, a, b) && Touched(op, b, c)
    ensures Touched(op, a, c) && (Decided(op, b) ==> Decided(op, c))
  {
    if IsOp(a, op) {
      TouchedTrans(op, a.l, b.l, c.l);
      TouchedTrans(op, a.r, b.r, c.r);
    }
  }

  lemma {:induction false} TouchedStill(op: Op, a: Expr, b: Expr)
    requires Still(op, a) && Touched(op, a, b)
    ensures Still(op, b)
  {
    if IsOp(a, op) {
      TouchedStill(op, a.l, b.l);
      TouchedStill(op, a.r, b.r);
    }
  }

  lemma {:induction false} TouchedSame(op: Op, a: Expr)
    ensures Touched(op, a, a)
  {
    if IsOp(a, op) {
      TouchedSame(op, a.l);
      TouchedSame(op, a.r);
    }
  }

  lemma {:induction false} TouchOne(op: Op, a: Expr, p: Path)
    requires IsLeaf(op, a, p)
    ensures Touched(op, a, Put(op, a, p, Absorber(op))) && Decided(op, Put(op, a, p, Absorber(op)))
  {
    if p != [] {
      TouchOne(op, if p[0] then a.r else a.l, p[1..]);
      TouchedSame(op, if p[0] then a.l else a.r);
    }
  }

  lemma {:induction false} StillAt(op: Op, a: Expr, p: Path)
    requires Still(op, a) && IsLeaf(op, a, p) && IsGroup(Get(op, a, p))
    ensures Dups2(OpOf(Get(op, a, p)), Get(op, a, p), [], []).1 == 0
  {
    if p != [] {
      StillAt(op, if p[0] then a.r else a.l, p[1..]);
    }
  }

  /** The second pass only ever puts that constant in, and if it counts, it has. */
  predicate Decides(op: Op, root: Expr, r: (Expr, nat)) {
    Touched(op, root, r.0) && (r.1 > 0 ==> Decided(op, r.0))
  }

  lemma DecidesThen(op: Op, root: Expr, a: (Expr, nat), b: (Expr, nat))
    requires Decides(op, root, a) && Decides(op, a.0, b)
    ensures Decides(op, root, (b.0, a.1 + b.1))
  {
    TouchedTrans(op, root, a.0, b.0);
  }

  lemma {:induction false} Dups2Decides(op: Op, root: Expr, p: Path, q: Path)
    requires OnSpine(op, root, p) && OnSpine(op, root, q) && Still(op, root)
    ensures Decides(op, root, Dups2(op, root, p, q))
    decreases SpineSize(op, Get(op, root, p)), SpineSize(op, Get(op, root, q)), 1
  {
    if IsOp(Get(op, root, p), op) {
      Descend(op, root, p, false);
      Descend(op, root, p, true);
      var r1 := Dups2(op, root, p + [false], q);
      SpineSlots(op, root, r1.0, p + [true]);
      SpineSlots(op, root, r1.0, q);
      Dups2Decides(op, root, p + [false], q);
      TouchedStill(op, root, r1.0);
      Dups2Decides(op, r1.0, p + [true], q);
      DecidesThen(op, root, r1, Dups2(op, r1.0, p + [true], q));
    } else {
      var r1 := Dups2Inner(op, root, p, q);
      InnerDecides(op, root, p, q);
      SpineSlots(op, root, r1.0, p);
      SpineSlots(op, root, r1.0, q);
      TouchedStill(op, root, r1.0);
      OwnDecides(op, root, r1, p, q);
    }
  }

  lemma {:induction false} InnerDecides(op: Op, root: Expr, p: Path, q: Path)
    requires IsLeaf(op, root, p) && OnSpine(op, root, q) && Still(op, root)
    ensures Decides(op, root, Dups2Inner(op, root, p, q))
    decreases SpineSize(op, Get(op, root, p)), SpineSize(op, Get(op, root, q)), 0
  {
    TouchedSame(op, root);
    if IsOp(Get(op, root, q), op) {
      Descend(op, root, q, false);
      Descend(op, root, q, true);
      var r1 := Dups2(op, root, p, q + [false]);
      SpineSlots(op, root, r1.0, p);
      SpineSlots(op, root, r1.0, q + [true]);
      Dups2Decides(op, root, p, q + [false]);
      TouchedStill(op, root, r1.0);
      Dups2Decides(op, r1.0, p, q + [true]);
      DecidesThen(op, root, r1, Dups2(op, r1.0, p, q + [true]));
    }
  }

  /** The test of one operand, after the search of the other slot has made r1 of the tree. */
  lemma OwnDecides(op: Op, root: Expr, r1: (Expr, nat), p: Path, q: Path)
    requires IsLeaf(op, root, p) && OnSpine(op, root, q) && r1 == Dups2Inner(op, root, p, q)
    requires IsLeaf(op, r1.0, p) && OnSpine(op, r1.0, q) && Still(op, r1.0) && Decides(op, root, r1)
    ensures Decides(op, root, Dups2(op, root, p, q))
  {
    var e1 := Get(op, r1.0, p);
    if p != q && IsGroup(e1) {
      SlotSize(op, r1.0, p);
      StillAt(op, r1.0, p);
      Dups2Marks(OpOf(e1), e1, [], []);
      PutBack(op, r1.0, p);
      TouchOne(op, r1.0, p);
      DecidesThen(op, root, r1, (Put(op, r1.0, p, Absorber(op)), 1));
    }
  }

  lemma {:induction false} DecidedValue(op: Op, r: Expr)
    requires Decided(op, r)
    ensures EliminateYn(r) == Absorber(op)
  {
    if IsOp(r, op) {
      if Decided(op, r.l) {
        DecidedValue(op, r.l);
      } else {
        DecidedValue(op, r.r);
      }
    }
  }

  // --- The doubled group ---

  lemma {:induction false} BlankGone(op: Op, e: Expr)
    ensures EliminateYn(Blank(op, e)) == Unit(op)
  {
    if IsOp(e, op) {
      BlankGone(op, e.l);
      BlankGone(op, e.r);
    }
  }

  lemma {:induction false} QuietStill(op: Op, e: Expr)
    requires Quiet(op, e)
    ensures Still(op, e) && Still(op, Blank(op, e))
  {
    if IsOp(e, op) {
      forall p | IsLeaf(op, e.l, p) && IsGroup(Get(op, e.l, p)) ensures Inactive(Get(op, e.l, p)) {
        assert Left0(p)[1..] == p && IsLeaf(op, e, Left0(p)) && Get(op, e, Left0(p)) == Get(op, e.l, p);
      }
      forall p | IsLeaf(op, e.r, p) && IsGroup(Get(op, e.r, p)) ensures Inactive(Get(op, e.r, p)) {
        assert Right0(p)[1..] == p && IsLeaf(op, e, Right0(p)) && Get(op, e, Right0(p)) == Get(op, e.r, p);
      }
      QuietStill(op, e.l);
      QuietStill(op, e.r);
    } else {
      var none: Path := [];
      assert OnSpine(op, e, none) && Get(op, e, none) == e;
    }
  }

  /** One round over a doubled group. */
  lemma DoubleRound(op: Op, e: Expr)
    requires Quietly(op, e) && NoContradiction(op, e)
    ensures Round(Build(op, e, e)).1 > 0
    ensures EliminateYn(Round(Build(op, e, e)).0) == if Sturdy(op, e) then e else Absorber(op)
  {
    var root := Build(op, Blank(op, e), e);
    DoubleJoins(op, e);
    Dups2Idle(op, root, [], []);
    DoubleSettled(op, e);
    if Sturdy(op, e) {
      BlankGone(op, e);
      PlainHasNoConstant(e);
      EliminateYnNormal(e);
    } else {
      QuietStill(op, e);
      Dups2Decides(op, root, [], []);
      DecidedValue(op, Dups2(op, root, [], []).0);
    }
  }

  /** A clean expression is what is left of it doubled, exactly when none of its operands is
      a group that is contradicted by the unit or by the whole; otherwise the constant that decides the group is. */
  lemma DoubleCollapses(op: Op, e: Expr)
    requires Plain(e) && !Flagged(e) && Clean(e)
    ensures Dups(Build(op, e, e)) == (if Sturdy(op, e) then Dups(e) else Absorber(op))
    ensures Dups(Build(op, e, e)) == Dups(e) <==> Sturdy(op, e)
  {
    CleanQuiet(op, e);
    DoubleRound(op, e);
    DupsFixes(e);
    assert Dups(Absorber(op)) == Absorber(op);
    RoundShrinks(Build(op, e, e));
  }

  lemma CleanQuiet(op: Op, e: Expr)
    requires Clean(e)
    ensures NoRule(op, e) && Quiet(op, e) && NoContradiction(op, e)
  {
    if IsOp(e, op) {
      forall p | IsLeaf(op, e, p) && IsGroup(Get(op, e, p)) ensures Inactive(Get(op, e, p)) {
        RoundClean(Get(op, e, p));
        assert CleanAt(op, e, p);
        InsideIdle(Get(op, e, p));
      }
    } else {
      forall p | OnSpine(op, e, p) ensures p == [] {
      }
      RoundClean(e);
      if IsGroup(e) {
        InsideIdle(e);
      }
    }
  }
}
