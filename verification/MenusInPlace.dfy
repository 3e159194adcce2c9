/** menu_finalize on the linked entries, and the walk of conf_write over them. */
module MenusInPlace {
  import opened Menus
  import opened MenuRules

  ghost function Nodes(ts: seq<Tree>): set<Entry> {
    set x | x in Pre(ts)
  }

  /** Entries linked by `next` from `first` up to `end`, all with the same parent, and
      with their children below them: the trees ts. */
  ghost predicate Linked(first: Entry?, ts: seq<Tree>, parent: Entry?, end: Entry?)
    reads Nodes(ts)
  {
    if ts == [] then first == end
    else
      HeadIn(ts);
      && first == ts[0].node && first.parent == parent
      && Linked(first.list, ts[0].kids, first, null) && Linked(first.next, ts[1..], parent, end)
  }

  lemma HeadIn(ts: seq<Tree>)
    requires ts != []
    ensures ts[0].node in Nodes(ts) && Nodes(ts[0].kids) <= Nodes(ts) && Nodes(ts[1..]) <= Nodes(ts)
    ensures Nodes(ts) == {ts[0].node} + Nodes(ts[0].kids) + Nodes(ts[1..])
  {
  }

  function Head(ts: seq<Tree>, end: Entry?): Entry? {
    if ts == [] then end else ts[0].node
  }

  lemma {:induction false} LinkedHead(first: Entry?, ts: seq<Tree>, parent: Entry?, end: Entry?)
    requires Linked(first, ts, parent, end)
    ensures first == Head(ts, end)
  {
  }

  lemma {:induction false} LinkedConcat(first: Entry?, a: seq<Tree>, b: seq<Tree>, parent: Entry?, end: Entry?)
    ensures Linked(first, a + b, parent, end)
       <==> Linked(first, a, parent, Head(b, end)) && Linked(Head(b, end), b, parent, end)
  {
    if a == [] {
      assert a + b == b;
    } else {
      assert (a + b)[0] == a[0] && (a + b)[1..] == a[1..] + b;
      if first == a[0].node {
        LinkedConcat(first.next, a[1..], b, parent, end);
      }
    }
  }

  lemma {:induction false} Exist(ts: seq<Tree>)
    ensures forall x :: x in Nodes(ts) ==> allocated(x)
  {
    if ts != [] {
      Exist(ts[0].kids);
      Exist(ts[1..]);
      HeadIn(ts);
    }
  }

  lemma LastIn(ts: seq<Tree>)
    requires ts != []
    ensures ts[|ts| - 1].node in Nodes(ts)
  {
    var a, k := ts[..|ts| - 1], ts[|ts| - 1];
    SplitLast(ts);
    PreConcat(a, [k]);
    PreCons(k, []);
  }

  lemma SplitLast(ts: seq<Tree>)
    requires ts != []
    ensures ts == ts[..|ts| - 1] + [ts[|ts| - 1]] == ts[..|ts| - 1] + ([ts[|ts| - 1]] + [])
  {
  }

  lemma Onward(a: seq<Tree>, b: seq<Tree>)
    requires b != []
    ensures a + b == a + ([b[0]] + b[1..]) == (a + [b[0]]) + b[1..] && b == [b[0]] + b[1..]
  {
  }

  /** Two stretches of entries that share none. */
  lemma Apart(a: seq<Tree>, b: seq<Tree>)
    requires NoDup(Pre(a) + Pre(b))
    ensures NoDup(Pre(a)) && NoDup(Pre(b)) && Nodes(a) !! Nodes(b)
  {
    NoDupConcat(Pre(a), Pre(b));
  }

  /** An entry, its children and its followers. */
  lemma Parts(t: Tree, rest: seq<Tree>)
    ensures Pre([t] + rest) == [t.node] + (Pre(t.kids) + Pre(rest)) == Pre([t]) + Pre(rest)
    ensures Nodes([t] + rest) == {t.node} + Nodes(t.kids) + Nodes(rest) && Nodes([t]) == {t.node} + Nodes(t.kids)
  {
    PreCons(t, rest);
    InThree([t.node], Pre(t.kids), Pre(rest));
  }

  lemma InThree(a: seq<Entry>, b: seq<Entry>, c: seq<Entry>)
    ensures a + b + c == a + (b + c)
    ensures forall x :: x in a + b + c <==> x in a || x in b || x in c
  {
  }

  lemma PartsApart(t: Tree, rest: seq<Tree>)
    requires NoDup(Pre([t] + rest))
    ensures NoDup(Pre(t.kids)) && NoDup(Pre(rest)) && NoDup(Pre(t.kids) + Pre(rest)) && NoDup(Pre([t]))
    ensures t.node !in Nodes(t.kids) && t.node !in Nodes(rest) && Nodes(t.kids) !! Nodes(rest)
  {
    Parts(t, rest);
    NoDupConcat([t.node], Pre(t.kids) + Pre(rest));
    NoDupConcat(Pre(t.kids), Pre(rest));
    NoDupConcat(Pre([t]), Pre(rest));
    assert t.node in [t.node];
  }

  /** One entry with its children between others. */
  lemma MiddleApart(a: seq<Tree>, k: Tree, b: seq<Tree>)
    requires NoDup(Pre(a + ([k] + b)))
    ensures Nodes(a) !! Nodes([k]) && Nodes(a) !! Nodes(b) && Nodes([k]) !! Nodes(b)
    ensures k.node !in Nodes(k.kids) && Nodes([k]) == {k.node} + Nodes(k.kids)
    ensures Nodes(a + ([k] + b)) == Nodes(a) + Nodes([k]) + Nodes(b)
    ensures NoDup(Pre(a)) && NoDup(Pre([k] + b))
  {
    PreConcat(a, [k] + b);
    Apart(a, [k] + b);
    Parts(k, b);
    PartsApart(k, b);
  }

  lemma LinkedSnoc(first: Entry?, a: seq<Tree>, k: Tree, parent: Entry?, end: Entry?)
    requires Linked(first, a, parent, k.node) && Linked(k.node, [k], parent, end)
    ensures Linked(first, a + [k], parent, end)
  {
    LinkedConcat(first, a, [k], parent, end);
  }

  lemma LinkedOne(k: Tree, rest: seq<Tree>, parent: Entry?, end: Entry?)
    ensures Linked(k.node, [k], parent, end) <==>
            k.node.parent == parent && Linked(k.node.list, k.kids, k.node, null) && k.node.next == end
    ensures Linked(k.node, [k] + rest, parent, end) <==>
            && k.node.parent == parent
            && Linked(k.node.list, k.kids, k.node, null) && Linked(k.node.next, rest, parent, end)
  {
    assert ([k] + rest)[1..] == rest && [k][1..] == [];
  }

  // --- Splicing the children of promptless entries ---

  /** An entry gets the parent that those before it have already. */
  method SetParent(e: Entry, p: Entry, ghost q: Entry?, ghost first: Entry?, ghost a: seq<Tree>, ghost k: Tree,
      ghost rest: seq<Tree>)
    requires NoDup(Pre(a + ([k] + rest))) && k.node == e
    requires Linked(first, a, p, e) && Linked(e, [k] + rest, q, null)
    modifies e`parent
    ensures Linked(first, a + [k], p, e.next) && Linked(e.next, rest, q, null) && e.next == Head(rest, null)
  {
    MiddleApart(a, k, rest);
    LinkedOne(k, rest, q, null);
    e.parent := p;
    LinkedOne(k, rest, p, e.next);
    LinkedSnoc(first, a, k, p, e.next);
    LinkedHead(e.next, rest, q, null);
  }

  /** All children of `menu` get the parent p; the last of them is returned. */
  method NewParent(menu: Entry, p: Entry, ghost ts: seq<Tree>) returns (last: Entry)
    requires ts != [] && NoDup(Pre(ts)) && menu !in Nodes(ts) && Linked(menu.list, ts, menu, null)
    modifies Nodes(ts)
    ensures last == ts[|ts| - 1].node && last in Nodes(ts) && Linked(menu.list, ts, p, null)
  {
    LinkedHead(menu.list, ts, menu, null);
    LastIn(ts);
    ghost var a: seq<Tree> := [];
    ghost var b: seq<Tree> := ts;
    assert a + b == ts;
    last := menu.list;
    while true
      invariant b != [] && ts == a + b && last == b[0].node
      invariant Linked(menu.list, a, p, last) && Linked(last, b, menu, null)
      decreases |b|
    {
      ghost var k, rest := b[0], b[1..];
      Onward(a, b);
      MiddleApart(a, k, rest);
      SetParent(last, p, menu, menu.list, a, k, rest);
      if last.next == null {
        assert rest == [] && ts == a + [k];
        return;
      }
      a, b := a + [k], rest;
      last := last.next;
    }
  }

  lemma LastNext(first: Entry?, ts: seq<Tree>, p: Entry?, end: Entry?)
    requires ts != [] && Linked(first, ts, p, end)
    ensures ts[|ts| - 1].node.next == end
  {
    var a, k := ts[..|ts| - 1], ts[|ts| - 1];
    SplitLast(ts);
    LinkedConcat(first, a, [k], p, end);
    LinkedOne(k, [], p, end);
  }

  /** The end of a list of entries is tied to something else. */
  method Tie(last: Entry, to: Entry?, ghost first: Entry?, ghost ts: seq<Tree>, ghost p: Entry?, ghost end: Entry?)
    requires ts != [] && NoDup(Pre(ts)) && last == ts[|ts| - 1].node && Linked(first, ts, p, end)
    modifies last`next
    ensures Linked(first, ts, p, to) && last.next == to
  {
    ghost var a, k := ts[..|ts| - 1], ts[|ts| - 1];
    SplitLast(ts);
    MiddleApart(a, k, []);
    LinkedConcat(first, a, [k], p, end);
    LinkedOne(k, [], p, end);
    last.next := to;
    LinkedOne(k, [], p, to);
    LinkedSnoc(first, a, k, p, to);
  }

  /** The children of `menu` move up behind it. */
  method MoveUp(menu: Entry, p: Entry, ghost t: Tree, ghost rest: seq<Tree>)
    requires t.node == menu && t.kids != [] && NoDup(Pre([t] + rest)) && Linked(menu, [t] + rest, p, null)
    modifies Nodes([t])
    ensures Linked(menu, [Tree(menu, [])] + (t.kids + rest), p, null)
  {
    PartsApart(t, rest);
    LinkedOne(t, rest, p, null);
    var last := MoveKids(menu, p, t.kids, rest);
    LinkedOne(Tree(menu, []), t.kids + rest, p, null);
  }

  method MoveKids(menu: Entry, p: Entry, ghost kids: seq<Tree>, ghost rest: seq<Tree>) returns (last: Entry)
    requires kids != [] && NoDup(Pre(kids)) && menu !in Nodes(kids) && menu !in Nodes(rest) &&
        Nodes(kids) !! Nodes(rest)
    requires Linked(menu.list, kids, menu, null) && Linked(menu.next, rest, p, null)
    modifies menu`next, menu`list, Nodes(kids)
    ensures menu.list == null && Linked(menu.next, kids + rest, p, null)
  {
    last := JoinKids(menu, p, kids, rest);
    menu.next := menu.list;
    menu.list := null;
  }

  /** The children of `menu`, all with the parent p, run on into what follows `menu`. */
  method JoinKids(menu: Entry, p: Entry, ghost kids: seq<Tree>, ghost rest: seq<Tree>) returns (last: Entry)
    requires kids != [] && NoDup(Pre(kids)) && menu !in Nodes(kids) && menu !in Nodes(rest) &&
        Nodes(kids) !! Nodes(rest)
    requires Linked(menu.list, kids, menu, null) && Linked(menu.next, rest, p, null)
    modifies Nodes(kids)
    ensures menu !in Nodes(kids + rest) && Linked(menu.list, kids + rest, p, null)
  {
    LinkedHead(menu.next, rest, p, null);
    Exist(rest);
    last := NewParent(menu, p, kids);
    assert Linked(Head(rest, null), rest, p, null);
    Tie(last, menu.next, menu.list, kids, p, null);
    assert Linked(Head(rest, null), rest, p, null);
    LinkedConcat(menu.list, kids, rest, p, null);
    PreConcat(kids, rest);
  }

  /** What one turn of the last loop of menu_finalize makes of the entries ahead of it. */
  ghost function Turn(todo: seq<Tree>): (r: (Tree, seq<Tree>))
    requires todo != []
    ensures r.0.node == todo[0].node
  {
    var t, rest := todo[0], todo[1..];
    if t.kids != [] && !t.node.hasText then (Tree(t.node, []), t.kids + rest) else (t, rest)
  }

  lemma TurnKeeps(todo: seq<Tree>)
    requires todo != []
    ensures var (k, ahead) := Turn(todo);
            Flatten(todo) == [k] + Flatten(ahead) && Pre([k] + ahead) == Pre(todo) && |Pre(ahead)| < |Pre(todo)|
  {
    var (k, ahead) := Turn(todo);
    var t, rest := todo[0], todo[1..];
    assert todo == [t] + rest;
    PreCons(t, rest);
    PreCons(k, ahead);
    PreConcat(t.kids, rest);
  }

  lemma TurnFlattens(done: seq<Tree>, todo: seq<Tree>)
    requires todo != []
    ensures var (k, ahead) := Turn(todo);
            && (done + [k]) + Flatten(ahead) == done + Flatten(todo)
            && Pre((done + [k]) + ahead) == Pre(done + todo) && |Pre(ahead)| < |Pre(todo)|
  {
    var (k, ahead) := Turn(todo);
    TurnKeeps(todo);
    Reassoc(done, k, ahead);
    Reassoc(done, k, Flatten(ahead));
    PreConcat(done, [k] + ahead);
    PreConcat(done, todo);
  }

  lemma Reassoc(d: seq<Tree>, k: Tree, f: seq<Tree>)
    ensures (d + [k]) + f == d + ([k] + f)
  {
  }

  /** One turn of that loop. */
  method FlattenOne(p: Entry, menu: Entry, ghost done: seq<Tree>, ghost todo: seq<Tree>)
    requires todo != [] && NoDup(Pre(done + todo)) && p !in Nodes(done + todo) && menu == todo[0].node
    requires Linked(p.list, done, p, menu) && Linked(menu, todo, p, null)
    modifies Nodes(todo)
    ensures var (k, ahead) := Turn(todo);
            && Linked(p.list, done + [k], p, menu.next) && Linked(menu.next, ahead, p, null)
            && menu.next == Head(ahead, null)
  {
    ghost var t, rest := todo[0], todo[1..];
    assert todo == [t] + rest;
    MiddleApart(done, t, rest);
    LinkedOne(t, rest, p, null);
    LinkedHead(menu.list, t.kids, menu, null);
    Exist(done);
    if menu.list != null && !menu.hasText {
      MoveUp(menu, p, t, rest);
    }
    ghost var (k, ahead) := Turn(todo);
    assert Linked(p.list, done, p, menu);
    LinkedOne(k, ahead, p, null);
    LinkedOne(k, ahead, p, menu.next);
    LinkedSnoc(p.list, done, k, p, menu.next);
    LinkedHead(menu.next, ahead, p, null);
  }

  /** The last loop of menu_finalize. */
  method FlattenKids(p: Entry, ghost ts: seq<Tree>)
    requires NoDup(Pre(ts)) && p !in Nodes(ts) && Linked(p.list, ts, p, null)
    modifies Nodes(ts)
    ensures Linked(p.list, Flatten(ts), p, null)
  {
    var menu := p.list;
    ghost var done: seq<Tree> := [];
    ghost var todo: seq<Tree> := ts;
    assert done + Flatten(todo) == Flatten(ts) && done + todo == ts;
    LinkedHead(menu, todo, p, null);
    while menu != null
      invariant Linked(p.list, done, p, menu) && Linked(menu, todo, p, null) && menu == Head(todo, null)
      invariant done + Flatten(todo) == Flatten(ts) && Pre(done + todo) == Pre(ts)
      decreases |Pre(todo)|
    {
      NodesWithin(done, todo, ts);
      TurnFlattens(done, todo);
      FlattenOne(p, menu, done, todo);
      ghost var (k, ahead) := Turn(todo);
      done, todo := done + [k], ahead;
      menu := menu.next;
    }
    assert done + [] == done;
  }

  lemma NodesWithin(done: seq<Tree>, todo: seq<Tree>, ts: seq<Tree>)
    requires Pre(done + todo) == Pre(ts)
    ensures Nodes(todo) <= Nodes(ts) && Nodes(done) <= Nodes(ts) && Nodes(done + todo) == Nodes(ts)
  {
    PreConcat(done, todo);
  }

  // --- menu_finalize ---

  /** menu_finalize.  Entries below `m` and entries that follow it may come under it or
      under each other; the calls, of which there is one for each entry, come in the order of a walk. */
  method MenuFinalize(joins: (Entry, Entry) -> bool, m: Entry, ghost t: Tree, ghost rest: seq<Tree>,
      ghost parent: Entry?)
    returns (calls: seq<Entry>)
    requires t.node == m && NoDup(Pre([t] + rest)) && Linked(m, [t] + rest, parent, null)
    modifies Nodes([t] + rest)
    ensures var (t', rest') := Finalize(joins, t, rest);
            Linked(m, [t'] + rest', parent, null) && calls == Pre([t'])
    decreases |Pre([t] + rest)|, 0
  {
    Parts(t, rest);
    PartsApart(t, rest);
    LinkedOne(t, rest, parent, null);
    LinkedHead(m.list, t.kids, m, null);
    ghost var kids, left := t.kids, rest;
    calls := [];
    if m.list != null {
      Exist(rest);
      calls := FinalizeKids(joins, m, t.kids);
      kids := FinalizeAll(joins, t.kids);
    } else if m.hasSym {
      calls := AbsorbNext(joins, m, rest, parent);
      kids, left := Absorb(joins, m, rest).0, Absorb(joins, m, rest).1;
    }
    assert NoDup(Pre(kids) + Pre(left));
    assert Linked(m.list, kids, m, null) && Linked(m.next, left, parent, null) && m.parent == parent;
    Apart(kids, left);
    Exist(left);
    FlattenKids(m, kids);
    LinkedOne(Tree(m, Flatten(kids)), left, parent, null);
    Parts(Tree(m, Flatten(kids)), left);
    PreCons(Tree(m, Flatten(kids)), []);
    calls := [m] + calls;
  }

  /** One entry of a list finalised, behind some that are already in place. */
  method FinalizeOne(joins: (Entry, Entry) -> bool, menu: Entry, ghost first: Entry?, ghost done: seq<Tree>,
      ghost p: Entry?,
                     ghost todo: seq<Tree>, ghost q: Entry?)
    returns (calls: seq<Entry>)
    requires todo != [] && NoDup(Pre(done + todo)) && menu == todo[0].node
    requires Linked(first, done, p, menu) && Linked(menu, todo, q, null)
    modifies Nodes(todo)
    ensures var (k, left) := Finalize(joins, todo[0], todo[1..]);
            Linked(first, done, p, menu) && Linked(menu, [k] + left, q, null) && calls == Pre([k])
    decreases |Pre(todo)|, 1
  {
    assert todo == [todo[0]] + todo[1..];
    MiddleApart(done, todo[0], todo[1..]);
    Exist(done);
    calls := MenuFinalize(joins, menu, todo[0], todo[1..], q);
  }

  /** How far a list has come: what is done, and what is ahead. */
  lemma OneFurther(joins: (Entry, Entry) -> bool, done: seq<Tree>, todo: seq<Tree>)
    requires todo != []
    ensures var (k, left) := Finalize(joins, todo[0], todo[1..]);
            && k.node == todo[0].node && (done + [k]) + left == done + ([k] + left)
            && Pre((done + [k]) + left) == Pre(done + todo) && |Pre(left)| < |Pre(todo)| && Pre(done + [k]) ==
                Pre(done) + Pre([k])
            && FinalizeAll(joins, todo) == [k] + FinalizeAll(joins, left)
            && (done + [k]) + FinalizeAll(joins, left) == done + FinalizeAll(joins, todo)
  {
    var (k, left) := Finalize(joins, todo[0], todo[1..]);
    assert todo == [todo[0]] + todo[1..];
    PreCons(k, left);
    Reassoc(done, k, left);
    Reassoc(done, k, FinalizeAll(joins, left));
    PreConcat(done, [k] + left);
    PreConcat(done, todo);
    PreConcat(done, [k]);
  }

  method FinalizeKids(joins: (Entry, Entry) -> bool, p: Entry, ghost ts: seq<Tree>) returns (calls: seq<Entry>)
    requires NoDup(Pre(ts)) && p !in Nodes(ts) && Linked(p.list, ts, p, null)
    modifies Nodes(ts)
    ensures Linked(p.list, FinalizeAll(joins, ts), p, null) && calls == Pre(FinalizeAll(joins, ts))
    decreases |Pre(ts)|, 3
  {
    calls := [];
    var menu := p.list;
    ghost var done: seq<Tree> := [];
    ghost var todo: seq<Tree> := ts;
    assert done + FinalizeAll(joins, todo) == FinalizeAll(joins, ts) && done + todo == ts;
    LinkedHead(menu, todo, p, null);
    while menu != null
      invariant Linked(p.list, done, p, menu) && Linked(menu, todo, p, null) && menu == Head(todo, null)
      invariant done + FinalizeAll(joins, todo) == FinalizeAll(joins, ts) && Pre(done + todo) == Pre(ts) && calls ==
          Pre(done)
      decreases |Pre(todo)|
    {
      NodesWithin(done, todo, ts);
      PreConcat(done, todo);
      OneFurther(joins, done, todo);
      var more := FinalizeOne(joins, menu, p.list, done, p, todo, p);
      ghost var (k, left) := Finalize(joins, todo[0], todo[1..]);
      LinkedOne(k, left, p, null);
      LinkedOne(k, left, p, menu.next);
      LinkedSnoc(p.list, done, k, p, menu.next);
      LinkedHead(menu.next, left, p, null);
      calls := calls + more;
      done, todo := done + [k], left;
      menu := menu.next;
    }
    assert done + [] == done;
  }

  ghost predicate Absorbed(joins: (Entry, Entry) -> bool, p: Entry, rest: seq<Tree>, kids: seq<Tree>, todo: seq<Tree>) {
    && Absorb(joins, p, rest) == (kids + Absorb(joins, p, todo).0, Absorb(joins, p, todo).1)
    && Pre(kids + todo) == Pre(rest)
  }

  lemma AbsorbFurther(joins: (Entry, Entry) -> bool, p: Entry, rest: seq<Tree>, kids: seq<Tree>, todo: seq<Tree>)
    requires todo != [] && joins(p, todo[0].node) && Absorbed(joins, p, rest, kids, todo)
    ensures var (k, left) := Finalize(joins, todo[0], todo[1..]);
            Absorbed(joins, p, rest, kids + [k], left) && |Pre(left)| < |Pre(todo)| && Pre(kids + [k]) ==
                Pre(kids) + Pre([k])
  {
    var (k, left) := Finalize(joins, todo[0], todo[1..]);
    OneFurther(joins, kids, todo);
    Reassoc(kids, k, Absorb(joins, p, left).0);
  }

  lemma AbsorbedAll(joins: (Entry, Entry) -> bool, p: Entry, rest: seq<Tree>, kids: seq<Tree>, todo: seq<Tree>)
    requires Absorbed(joins, p, rest, kids, todo) && (todo == [] || !joins(p, todo[0].node))
    ensures Absorb(joins, p, rest) == (kids, todo)
  {
    assert kids + [] == kids;
  }

  /** A follower is finalised and becomes a child of p. */
  method AbsorbOne(joins: (Entry, Entry) -> bool, p: Entry, menu: Entry, ghost kids: seq<Tree>, ghost todo: seq<Tree>,
      ghost parent: Entry?)
    returns (calls: seq<Entry>)
    requires todo != [] && NoDup(Pre(kids + todo)) && p !in Nodes(kids + todo) && menu == todo[0].node
    requires Linked(p.next, kids, p, menu) && Linked(menu, todo, parent, null)
    modifies Nodes(todo)
    ensures var (k, left) := Finalize(joins, todo[0], todo[1..]);
            && Linked(p.next, kids + [k], p, menu.next) && Linked(menu.next, left, parent, null)
            && menu.next == Head(left, null) && calls == Pre([k])
    decreases |Pre(todo)|, 2
  {
    OneFurther(joins, kids, todo);
    PreConcat(kids, todo);
    Apart(kids, todo);
    NodesWithin(kids, todo, kids + todo);
    calls := FinalizeOne(joins, menu, p.next, kids, p, todo, parent);
    ghost var (k, left) := Finalize(joins, todo[0], todo[1..]);
    HeadIn(todo);
    SetParent(menu, p, parent, p.next, kids, k, left);
  }

  /** One turn of the loop below. */
  method AbsorbStep(joins: (Entry, Entry) -> bool, p: Entry, menu: Entry, ghost rest: seq<Tree>,
      ghost kids: seq<Tree>, ghost todo: seq<Tree>,
                    ghost parent: Entry?)
    returns (calls: seq<Entry>, ghost kids': seq<Tree>, ghost todo': seq<Tree>)
    requires NoDup(Pre(rest)) && p !in Nodes(rest) && Absorbed(joins, p, rest, kids, todo)
    requires todo != [] && menu == todo[0].node && joins(p, menu)
    requires Linked(p.next, kids, p, menu) && Linked(menu, todo, parent, null)
    modifies Nodes(rest)
    ensures Absorbed(joins, p, rest, kids', todo') && |Pre(todo')| < |Pre(todo)| && Pre(kids') == Pre(kids) + calls
    ensures Linked(p.next, kids', p, menu.next) && Linked(menu.next, todo', parent, null)
    ensures menu.next == Head(todo', null)
    ensures kids' != [] && kids'[|kids'| - 1].node == menu
    decreases |Pre(todo)|, 3
  {
    NodesWithin(kids, todo, rest);
    AbsorbFurther(joins, p, rest, kids, todo);
    calls := AbsorbOne(joins, p, menu, kids, todo, parent);
    ghost var (k, left) := Finalize(joins, todo[0], todo[1..]);
    kids', todo' := kids + [k], left;
  }

  /** The loop over the followers of p, up to the first that does not join it. */
  method GatherNext(joins: (Entry, Entry) -> bool, p: Entry, ghost rest: seq<Tree>, ghost parent: Entry?)
    returns (calls: seq<Entry>, lastMenu: Entry?, ghost kids: seq<Tree>, ghost todo: seq<Tree>)
    requires NoDup(Pre(rest)) && p !in Nodes(rest) && Linked(p.next, rest, parent, null)
    modifies Nodes(rest)
    ensures Absorb(joins, p, rest) == (kids, todo) && calls == Pre(kids)
    ensures Linked(p.next, kids, p, Head(todo, null)) && Linked(Head(todo, null), todo, parent, null)
    ensures if kids == [] then lastMenu == null else lastMenu == kids[|kids| - 1].node
    decreases |Pre(rest)|, 4
  {
    calls, lastMenu, kids, todo := [], null, [], rest;
    var menu := p.next;
    assert kids + todo == rest && kids + Absorb(joins, p, rest).0 == Absorb(joins, p, rest).0;
    LinkedHead(menu, todo, parent, null);
    while menu != null && joins(p, menu)
      invariant Linked(p.next, kids, p, menu) && Linked(menu, todo, parent, null) && menu == Head(todo, null)
      invariant Absorbed(joins, p, rest, kids, todo) && calls == Pre(kids) && |Pre(todo)| <= |Pre(rest)|
      invariant if kids == [] then lastMenu == null else lastMenu == kids[|kids| - 1].node
      decreases |Pre(todo)|
    {
      var more;
      more, kids, todo := AbsorbStep(joins, p, menu, rest, kids, todo, parent);
      calls := calls + more;
      lastMenu := menu;
      menu := menu.next;
    }
    AbsorbedAll(joins, p, rest, kids, todo);
  }

  /** The followers of p that join it become its children. */
  method AbsorbNext(joins: (Entry, Entry) -> bool, p: Entry, ghost rest: seq<Tree>, ghost parent: Entry?)
      returns (calls: seq<Entry>)
    requires NoDup(Pre(rest)) && p !in Nodes(rest) && Linked(p.next, rest, parent, null) && p.list == null
    modifies p`list, p`next, Nodes(rest)
    ensures var (kids, left) := Absorb(joins, p, rest);
            Linked(p.list, kids, p, null) && Linked(p.next, left, parent, null) && calls == Pre(kids)
    decreases |Pre(rest)|, 5
  {
    ghost var kids, todo;
    var lastMenu;
    calls, lastMenu, kids, todo := GatherNext(joins, p, rest, parent);
    if lastMenu != null {
      PreConcat(kids, todo);
      Adopt(p, lastMenu, Head(todo, null), kids, todo, rest, parent);
    }
  }

  /** The followers from the first to `lastMenu` become the children of p. */
  method Adopt(p: Entry, lastMenu: Entry, ghost menu: Entry?, ghost kids: seq<Tree>, ghost todo: seq<Tree>,
      ghost rest: seq<Tree>, ghost parent: Entry?)
    requires kids != [] && Pre(kids + todo) == Pre(rest) && NoDup(Pre(rest)) && p !in Nodes(rest)
    requires lastMenu == kids[|kids| - 1].node && Linked(p.next, kids, p, menu) && Linked(menu, todo, parent, null)
    modifies p`list, p`next, Nodes(rest)
    ensures Linked(p.list, kids, p, null) && Linked(p.next, todo, parent, null)
  {
    NodesWithin(kids, todo, rest);
    PreConcat(kids, todo);
    Apart(kids, todo);
    LastIn(kids);
    Exist(todo);
    LastNext(p.next, kids, p, menu);
    p.list := p.next;
    p.next := lastMenu.next;
    Tie(lastMenu, null, p.list, kids, p, menu);
  }

  // --- The walk of conf_write ---

  /** What is still to come after an entry whose parent is p: for p, and for each entry
      above it, the trees that follow it. */
  ghost predicate Context(p: Entry?, frames: seq<seq<Tree>>)
    reads *
    decreases |frames|
  {
    if frames == [] then p == null
    else p != null && Linked(p.next, frames[0], p.parent, null) && Context(p.parent, frames[1..])
  }

  ghost function PreAll(frames: seq<seq<Tree>>): seq<Entry> {
    if frames == [] then [] else Pre(frames[0]) + PreAll(frames[1..])
  }

  /** Where the walk is: at the first of `todo`, with `frames` to come after these. */
  ghost predicate Here(menu: Entry?, todo: seq<Tree>, p: Entry?, frames: seq<seq<Tree>>)
    reads *
  {
    todo != [] && Linked(menu, todo, p, null) && Context(p, frames)
  }

  /** From the last child of p up to the first entry above that has a follower. */
  method Climb(p: Entry?, ghost frames: seq<seq<Tree>>)
    returns (menu: Entry?, ghost todo: seq<Tree>, ghost q: Entry?, ghost above: seq<seq<Tree>>)
    requires Context(p, frames)
    ensures menu == null ==> PreAll(frames) == []
    ensures menu != null ==> Here(menu, todo, q, above) && Pre(todo) + PreAll(above) == PreAll(frames)
  {
    menu, todo, q, above := p, [], null, frames;
    while menu != null
      invariant Context(menu, above) && PreAll(above) == PreAll(frames)
      decreases |above|
    {
      LinkedHead(menu.next, above[0], menu.parent, null);
      if menu.next != null {
        todo, q, above := above[0], menu.parent, above[1..];
        menu := menu.next;
        return;
      }
      menu, above := menu.parent, above[1..];
    }
  }

  /** One entry met: where the walk goes from it. */
  method Onwards(menu: Entry, ghost todo: seq<Tree>, ghost p: Entry?, ghost frames: seq<seq<Tree>>)
    returns (menu': Entry?, ghost todo': seq<Tree>, ghost p': Entry?, ghost frames': seq<seq<Tree>>)
    requires Here(menu, todo, p, frames)
    ensures menu' == null ==> Pre(todo) + PreAll(frames) == [menu]
    ensures menu' != null ==>
      && Here(menu', todo', p', frames')
      && Pre(todo) + PreAll(frames) == [menu] + (Pre(todo') + PreAll(frames'))
  {
    ghost var t, rest := todo[0], todo[1..];
    assert todo == [t] + rest;
    PreCons(t, rest);
    LinkedOne(t, rest, p, null);
    LinkedHead(menu.list, t.kids, menu, null);
    LinkedHead(menu.next, rest, p, null);
    if menu.list != null {
      menu', todo', p', frames' := menu.list, t.kids, menu, [rest] + frames;
      assert frames'[1..] == frames;
      PreReassoc(menu, Pre(t.kids), Pre(rest), PreAll(frames));
    } else if menu.next != null {
      menu', todo', p', frames' := menu.next, rest, p, frames;
      PreReassoc(menu, [], Pre(rest), PreAll(frames));
    } else {
      menu', todo', p', frames' := Climb(menu.parent, frames);
    }
  }

  lemma PreReassoc(m: Entry, a: seq<Entry>, b: seq<Entry>, c: seq<Entry>)
    ensures ([m] + a + b) + c == [m] + (a + (b + c))
  {
  }

  lemma VisitedNext(visited: seq<Entry>, e: Entry, ahead: seq<Entry>, more: seq<Entry>)
    ensures ahead == [e] + more ==> visited + ahead == (visited + [e]) + more
    ensures ahead == [e] ==> visited + ahead == visited + [e]
  {
  }

  /** The loop of conf_write, which goes down by `list`, on by `next`, and up by `parent`
      without a stack, meets every entry below the root once, in order. */
  method Walk(root: Entry, ghost ts: seq<Tree>) returns (visited: seq<Entry>)
    requires root.next == null && root.parent == null && Linked(root.list, ts, root, null)
    ensures visited == Pre(ts)
  {
    visited := [];
    var menu := root.list;
    ghost var todo := ts;
    ghost var p: Entry? := root;
    ghost var frames: seq<seq<Tree>> := [[]];
    LinkedHead(menu, todo, p, null);
    assert frames[1..] == [];
    while menu != null
      invariant menu != null ==> Here(menu, todo, p, frames) && visited + (Pre(todo) + PreAll(frames)) == Pre(ts)
      invariant menu == null ==> visited == Pre(ts)
      decreases |Pre(ts)| - |visited|, menu != null
    {
      ghost var ahead := Pre(todo) + PreAll(frames);
      var was := menu;
      menu, todo, p, frames := Onwards(menu, todo, p, frames);
      VisitedNext(visited, was, ahead, Pre(todo) + PreAll(frames));
      visited := visited + [was];
    }
  }

  /** The tree of a parsed configuration, restructured and then walked: each entry is finalised
      once, the walk meets the same entries in the order they had before, no entry without
      a prompt text is left with children, and the links show the one lawful family of the
      entries as they were declared. */
  method FinalizeThenWalk(joins: (Entry, Entry) -> bool, root: Entry, ghost t: Tree)
    returns (calls: seq<Entry>, visited: seq<Entry>, ghost kids: seq<Tree>, ghost family: Family)
    requires t.node == root && NoDup(Pre([t])) && Linked(root, [t], null, null)
    modifies Nodes([t])
    ensures calls == Pre([t]) && visited == Pre(t.kids)
    ensures Linked(root.list, kids, root, null) && Pre(kids) == Pre(t.kids) && Neat(kids) && Tidy(kids)
    ensures Lawful(joins, DeclOf([t]), family, null) && Display(family) == Tree(root, kids)
  {
    assert [t] + [] == [t];
    DeclaresOf([t]);
    family := FinalizeLawful(joins, DeclOf([t]), t, []);
    calls := MenuFinalize(joins, root, t, [], null);
    ghost var (t', rest') := Finalize(joins, t, []);
    AloneStays(joins, t);
    assert [t'] + [] == [t'];
    LinkedOne(t', [], null, null);
    PreCons(t, []);
    PreCons(t', []);
    kids := t'.kids;
    Exist(kids);
    visited := Walk(root, kids);
  }

  lemma AloneStays(joins: (Entry, Entry) -> bool, t: Tree)
    ensures var r := Finalize(joins, t, []);
            r.1 == [] && Pre(r.0.kids) == Pre(t.kids) && Neat(r.0.kids) && Tidy(r.0.kids)
  {
    var r := Finalize(joins, t, []);
    assert r.1 == [];
    PreCons(t, []);
    PreCons(r.0, []);
    FinalizeNeat(joins, t, []);
  }
}
