/** The menu tree: its restructuring in menu_finalize, on values. */
module Menus {

  /** A menu entry.  Whether it belongs to a symbol and whether its prompt has a text are settled
      before the tree is restructured; the links are not. */
  class Entry {
    var next: Entry?
    var list: Entry?
    var parent: Entry?
    const hasSym: bool
    const hasText: bool

    constructor (hasSym: bool, hasText: bool)
      ensures next == null && list == null && parent == null
      ensures this.hasSym == hasSym && this.hasText == hasText
    {
      next, list, parent := null, null, null;
      this.hasSym, this.hasText := hasSym, hasText;
    }
  }

  datatype Tree = Tree(node: Entry, kids: seq<Tree>)

  /** The entries in the order of a walk: each before its children, these before its followers. */
  function Pre(ts: seq<Tree>): (r: seq<Entry>)
    ensures ts != [] ==> r != []
  {
    if ts == [] then [] else [ts[0].node] + Pre(ts[0].kids) + Pre(ts[1..])
  }

  lemma {:induction false} PreConcat(a: seq<Tree>, b: seq<Tree>)
    ensures Pre(a + b) == Pre(a) + Pre(b)
  {
    if a == [] {
      assert a + b == b;
    } else {
      PreConcat(a[1..], b);
      assert (a + b)[1..] == a[1..] + b;
    }
  }

  lemma PreCons(t: Tree, rest: seq<Tree>)
    ensures Pre([t] + rest) == [t.node] + Pre(t.kids) + Pre(rest)
    ensures Pre([t]) == [t.node] + Pre(t.kids)
  {
    assert ([t] + rest)[1..] == rest && [t][1..] == [];
  }

  ghost predicate NoDup(s: seq<Entry>) {
    forall i, j :: 0 <= i < j < |s| ==> s[i] != s[j]
  }

  lemma NoDupConcat(a: seq<Entry>, b: seq<Entry>)
    requires NoDup(a + b)
    ensures NoDup(a) && NoDup(b) && forall x :: x in a ==> x !in b
  {
    var s := a + b;
    forall i, j | 0 <= i < j < |a| ensures a[i] != a[j] {
      assert s[i] == a[i] && s[j] == a[j];
    }
    forall i, j | 0 <= i < j < |b| ensures b[i] != b[j] {
      assert s[|a| + i] == b[i] && s[|a| + j] == b[j];
    }
    forall i, j | 0 <= i < |a| && 0 <= j < |b| ensures a[i] != b[j] {
      assert s[i] == a[i] && s[|a| + j] == b[j];
    }
  }

  /** Children of entries without a prompt text move up behind them. */
  function Flatten(ts: seq<Tree>): (r: seq<Tree>)
    ensures Pre(r) == Pre(ts)
    decreases |Pre(ts)|
  {
    if ts == [] then []
    else
      var t, rest := ts[0], ts[1..];
      assert ts == [t] + rest;
      PreCons(t, rest);
      if t.kids != [] && !t.node.hasText then
        PreConcat(t.kids, rest);
        var r := Flatten(t.kids + rest);
        PreCons(Tree(t.node, []), r);
        [Tree(t.node, [])] + r
      else
        var r := Flatten(rest);
        PreCons(t, r);
        [t] + r
  }

  /** The first entry of a list finalised, and what is left of the list behind it. */
  function Finalize(joins: (Entry, Entry) -> bool, t: Tree, rest: seq<Tree>): (r: (Tree, seq<Tree>))
    ensures r.0.node == t.node && Pre([r.0] + r.1) == Pre([t] + rest)
    decreases |Pre([t] + rest)|, 0
  {
    PreCons(t, rest);
    if t.kids != [] then
      var kids := Flatten(FinalizeAll(joins, t.kids));
      PreCons(Tree(t.node, kids), rest);
      (Tree(t.node, kids), rest)
    else if t.node.hasSym then
      var (kids, left) := Absorb(joins, t.node, rest);
      PreCons(Tree(t.node, Flatten(kids)), left);
      (Tree(t.node, Flatten(kids)), left)
    else (t, rest)
  }

  /** The followers that become children of p, finalised, and the other ones. */
  function Absorb(joins: (Entry, Entry) -> bool, p: Entry, rest: seq<Tree>): (r: (seq<Tree>, seq<Tree>))
    ensures Pre(r.0) + Pre(r.1) == Pre(rest)
    decreases |Pre(rest)|, 1
  {
    if rest == [] || !joins(p, rest[0].node) then ([], rest)
    else
      assert [rest[0]] + rest[1..] == rest;
      var (m, left) := Finalize(joins, rest[0], rest[1..]);
      PreCons(m, left);
      var (more, others) := Absorb(joins, p, left);
      PreCons(m, more);
      ([m] + more, others)
  }

  /** All entries of a list finalised, those that are not absorbed on the way. */
  function FinalizeAll(joins: (Entry, Entry) -> bool, ts: seq<Tree>): (r: seq<Tree>)
    ensures Pre(r) == Pre(ts) && (ts != [] ==> r != [])
    decreases |Pre(ts)|, 1
  {
    if ts == [] then []
    else
      assert [ts[0]] + ts[1..] == ts;
      var (m, left) := Finalize(joins, ts[0], ts[1..]);
      PreCons(m, left);
      var more := FinalizeAll(joins, left);
      PreCons(m, more);
      [m] + more
  }

  /** Below these entries nothing without a prompt text has children. */
  predicate Neat(ts: seq<Tree>) {
    forall i :: 0 <= i < |ts| ==> Tidy(ts[i].kids) && Neat(ts[i].kids)
  }

  predicate Tidy(ts: seq<Tree>) {
    forall i :: 0 <= i < |ts| ==> ts[i].kids != [] ==> ts[i].node.hasText
  }

  lemma {:induction false} FlattenNeat(ts: seq<Tree>)
    requires Neat(ts)
    ensures Neat(Flatten(ts)) && Tidy(Flatten(ts))
    decreases |Pre(ts)|
  {
    if ts != [] {
      var t, rest := ts[0], ts[1..];
      assert ts == [t] + rest;
      PreCons(t, rest);
      if t.kids != [] && !t.node.hasText {
        PreConcat(t.kids, rest);
        FlattenNeat(t.kids + rest);
      } else {
        FlattenNeat(rest);
      }
    }
  }

  /** Finalised entries are neat, however deep. */
  lemma {:induction false} FinalizeNeat(joins: (Entry, Entry) -> bool, t: Tree, rest: seq<Tree>)
    ensures Neat([Finalize(joins, t, rest).0])
    decreases |Pre([t] + rest)|, 0
  {
    PreCons(t, rest);
    if t.kids != [] {
      FinalizeAllNeat(joins, t.kids);
      FlattenNeat(FinalizeAll(joins, t.kids));
    } else if t.node.hasSym {
      AbsorbNeat(joins, t.node, rest);
      FlattenNeat(Absorb(joins, t.node, rest).0);
    }
  }

  lemma {:induction false} AbsorbNeat(joins: (Entry, Entry) -> bool, p: Entry, rest: seq<Tree>)
    ensures Neat(Absorb(joins, p, rest).0)
    decreases |Pre(rest)|, 1
  {
    if rest != [] && joins(p, rest[0].node) {
      assert [rest[0]] + rest[1..] == rest;
      var (m, left) := Finalize(joins, rest[0], rest[1..]);
      PreCons(m, left);
      FinalizeNeat(joins, rest[0], rest[1..]);
      AbsorbNeat(joins, p, left);
    }
  }

  lemma {:induction false} FinalizeAllNeat(joins: (Entry, Entry) -> bool, ts: seq<Tree>)
    ensures Neat(FinalizeAll(joins, ts))
    decreases |Pre(ts)|, 1
  {
    if ts != [] {
      assert [ts[0]] + ts[1..] == ts;
      var (m, left) := Finalize(joins, ts[0], ts[1..]);
      PreCons(m, left);
      FinalizeNeat(joins, ts[0], ts[1..]);
      FinalizeAllNeat(joins, left);
    }
  }
}
