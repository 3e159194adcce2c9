/** Who ends up under whom: what menu_finalize decides, for any answer to the
    question whether an entry depends on another one. */
module MenuRules {
  import opened Menus

  // --- Moving up ---

  /** Children are shown under their entry if it has a prompt text, and otherwise behind it. */
  function Shown(ts: seq<Tree>): seq<Tree> {
    if ts == [] then [] else ShownOne(ts[0]) + Shown(ts[1..])
  }

  function ShownOne(t: Tree): seq<Tree> {
    if t.node.hasText then [t] else [Tree(t.node, [])] + Shown(t.kids)
  }

  lemma {:induction false} ShownConcat(a: seq<Tree>, b: seq<Tree>)
    ensures Shown(a + b) == Shown(a) + Shown(b)
  {
    if a == [] {
      assert a + b == b;
    } else {
      ShownConcat(a[1..], b);
      assert (a + b)[1..] == a[1..] + b && (a + b)[0] == a[0];
      Regroup(ShownOne(a[0]), Shown(a[1..]), Shown(b));
    }
  }

  lemma Regroup(x: seq<Tree>, y: seq<Tree>, z: seq<Tree>)
    ensures x + (y + z) == (x + y) + z
  {
  }

  /** The loop that moves children up one level at a time brings each where it is shown. */
  lemma {:induction false} FlattenShows(ts: seq<Tree>)
    ensures Flatten(ts) == Shown(ts)
    decreases |Pre(ts)|
  {
    if ts != [] {
      var t, rest := ts[0], ts[1..];
      assert ts == [t] + rest;
      PreCons(t, rest);
      if t.kids != [] && !t.node.hasText {
        PreConcat(t.kids, rest);
        FlattenShows(t.kids + rest);
        ShownConcat(t.kids, rest);
        Regroup([Tree(t.node, [])], Shown(t.kids), Shown(rest));
      } else {
        FlattenShows(rest);
        if !t.node.hasText {
          assert Shown(t.kids) == [] && ShownOne(t) == [t];
        }
      }
    }
  }

  lemma {:induction false} ShownPre(ts: seq<Tree>)
    ensures Pre(Shown(ts)) == Pre(ts)
  {
    FlattenShows(ts);
  }

  // --- Coming under another entry ---

  /** An entry with those that come under it, before any of them moves up. */
  datatype Family = Family(node: Entry, kids: seq<Family>)

  function Display(f: Family): Tree {
    Tree(f.node, Shown(DisplayAll(f.kids)))
  }

  function DisplayAll(fs: seq<Family>): (r: seq<Tree>)
    ensures |r| == |fs| && (fs != [] ==> r[0].node == fs[0].node)
  {
    if fs == [] then [] else [Display(fs[0])] + DisplayAll(fs[1..])
  }

  function PreF(fs: seq<Family>): seq<Entry> {
    if fs == [] then [] else [fs[0].node] + PreF(fs[0].kids) + PreF(fs[1..])
  }

  lemma {:induction false} DisplayPre(fs: seq<Family>)
    ensures Pre(DisplayAll(fs)) == PreF(fs)
  {
    if fs != [] {
      DisplayPre(fs[0].kids);
      DisplayPre(fs[1..]);
      ShownPre(DisplayAll(fs[0].kids));
      PreCons(Display(fs[0]), DisplayAll(fs[1..]));
    }
  }

  /** What is declared below each entry, in pre-order. */
  type Declaration = map<Entry, seq<Entry>>

  predicate Declares(decl: Declaration, ts: seq<Tree>) {
    ts != [] ==>
      && ts[0].node in decl && decl[ts[0].node] == Pre(ts[0].kids)
      && Declares(decl, ts[0].kids) && Declares(decl, ts[1..])
  }

  /** A family, with `next` the entry behind it on its level or null:
      - below an entry declared with children are just those that were declared there;
      - under an entry declared without, come only entries joined to it, and none if
        it has no symbol; and it is not followed by one that is joined to it. */
  predicate Lawful(joins: (Entry, Entry) -> bool, decl: Declaration, f: Family, next: Entry?)
    decreases f, 0
  {
    && f.node in decl
    && if decl[f.node] != [] then PreF(f.kids) == decl[f.node] && AllLawful(joins, decl, f.kids, null)
       else
         && (forall j :: 0 <= j < |f.kids| ==> f.node.hasSym && joins(f.node, f.kids[j].node))
         && (f.node.hasSym && next != null ==> !joins(f.node, next))
         && AllLawful(joins, decl, f.kids, next)
  }

  predicate AllLawful(joins: (Entry, Entry) -> bool, decl: Declaration, fs: seq<Family>, next: Entry?)
    decreases fs, 1
  {
    fs != [] ==>
      && Lawful(joins, decl, fs[0], if |fs| > 1 then fs[1].node else next)
      && AllLawful(joins, decl, fs[1..], next)
  }

  function Next(ts: seq<Tree>): Entry? {
    if ts == [] then null else ts[0].node
  }

  lemma ConsLawful(joins: (Entry, Entry) -> bool, decl: Declaration, f: Family, more: seq<Family>, next: Entry?)
    requires Lawful(joins, decl, f, if more != [] then more[0].node else next) && AllLawful(joins, decl, more, next)
    ensures AllLawful(joins, decl, [f] + more, next) && DisplayAll([f] + more) == [Display(f)] + DisplayAll(more)
  {
    assert ([f] + more)[1..] == more;
  }

  // --- What menu_finalize makes is lawful ---

  /** The first entry of a list finalised. */
  lemma {:induction false} FinalizeLawful(joins: (Entry, Entry) -> bool, decl: Declaration, t: Tree, rest: seq<Tree>)
      returns (f: Family)
    requires Declares(decl, [t]) && Declares(decl, rest)
    ensures var (t', rest') := Finalize(joins, t, rest);
            t' == Display(f) && Lawful(joins, decl, f, Next(rest')) && Declares(decl, rest')
    ensures t.kids != [] || !t.node.hasSym ==> Finalize(joins, t, rest).1 == rest
    decreases |Pre([t] + rest)|, 0
  {
    PreCons(t, rest);
    if t.kids != [] {
      var fs := AllFinalizedLawful(joins, decl, t.kids);
      FlattenShows(DisplayAll(fs));
      DisplayPre(fs);
      f := Family(t.node, fs);
    } else if t.node.hasSym {
      var fs := AbsorbLawful(joins, decl, t.node, rest);
      FlattenShows(DisplayAll(fs));
      f := Family(t.node, fs);
    } else {
      f := Family(t.node, []);
    }
  }

  /** What comes under p from the front of a list. */
  ghost predicate LawfulUnder(joins: (Entry, Entry) -> bool, decl: Declaration, p: Entry, rest: seq<Tree>,
      fs: seq<Family>)
  {
    var (kids, left) := Absorb(joins, p, rest);
    && kids == DisplayAll(fs) && AllLawful(joins, decl, fs, Next(left)) && Declares(decl, left)
    && (forall j :: 0 <= j < |fs| ==> joins(p, fs[j].node)) && (left != [] ==> !joins(p, left[0].node))
    && (if fs == [] then left == rest else rest != [] && fs[0].node == rest[0].node)
  }

  lemma {:induction false} AbsorbLawful(joins: (Entry, Entry) -> bool, decl: Declaration, p: Entry, rest: seq<Tree>)
      returns (fs: seq<Family>)
    requires Declares(decl, rest)
    ensures LawfulUnder(joins, decl, p, rest, fs)
    decreases |Pre(rest)|, 1
  {
    fs := [];
    if rest != [] && joins(p, rest[0].node) {
      assert [rest[0]] + rest[1..] == rest;
      var (m, left) := Finalize(joins, rest[0], rest[1..]);
      PreCons(m, left);
      var f := FinalizeLawful(joins, decl, rest[0], rest[1..]);
      var more := AbsorbLawful(joins, decl, p, left);
      fs := [f] + more;
      OneMore(joins, decl, p, rest, f, more);
    }
  }

  lemma AbsorbStep(joins: (Entry, Entry) -> bool, p: Entry, rest: seq<Tree>)
    requires rest != [] && joins(p, rest[0].node)
    ensures var (m, left) := Finalize(joins, rest[0], rest[1..]);
            var (more, others) := Absorb(joins, p, left);
            Absorb(joins, p, rest) == ([m] + more, others)
  {
    assert [rest[0]] + rest[1..] == rest;
    PreCons(Finalize(joins, rest[0], rest[1..]).0, Finalize(joins, rest[0], rest[1..]).1);
  }

  lemma OneMore(joins: (Entry, Entry) -> bool, decl: Declaration, p: Entry, rest: seq<Tree>, f: Family,
      more: seq<Family>)
    requires rest != [] && joins(p, rest[0].node) && f.node == rest[0].node
    requires var (m, left) := Finalize(joins, rest[0], rest[1..]);
             && m == Display(f) && Lawful(joins, decl, f, Next(left))
             && LawfulUnder(joins, decl, p, left, more)
    ensures LawfulUnder(joins, decl, p, rest, [f] + more)
  {
    AbsorbStep(joins, p, rest);
    var (m, left) := Finalize(joins, rest[0], rest[1..]);
    ConsLawful(joins, decl, f, more, Next(Absorb(joins, p, left).1));
  }

  lemma {:induction false} AllFinalizedLawful(joins: (Entry, Entry) -> bool, decl: Declaration, ts: seq<Tree>)
      returns (fs: seq<Family>)
    requires Declares(decl, ts)
    ensures FinalizeAll(joins, ts) == DisplayAll(fs) && AllLawful(joins, decl, fs, null)
    ensures fs == [] <==> ts == []
    ensures fs != [] ==> fs[0].node == ts[0].node
    decreases |Pre(ts)|, 1
  {
    fs := [];
    if ts != [] {
      assert [ts[0]] + ts[1..] == ts;
      var (m, left) := Finalize(joins, ts[0], ts[1..]);
      PreCons(m, left);
      var f := FinalizeLawful(joins, decl, ts[0], ts[1..]);
      var more := AllFinalizedLawful(joins, decl, left);
      ConsLawful(joins, decl, f, more, null);
      fs := [f] + more;
    }
  }

  // --- And nothing else is ---

  function First(s: seq<Entry>): Entry? {
    if s == [] then null else s[0]
  }

  lemma Behind(n: Entry, k: seq<Entry>, r: seq<Entry>, xs: seq<Entry>)
    ensures ([n] + k + r) + xs == [n] + (k + (r + xs))
  {
  }

  lemma SameCons(n: Entry, x: seq<Entry>, m: Entry, y: seq<Entry>)
    requires [n] + x == [m] + y
    ensures n == m && x == y
  {
    assert ([n] + x)[0] == n && ([m] + y)[0] == m;
    assert ([n] + x)[1..] == x && ([m] + y)[1..] == y;
  }

  lemma SameFront(k: seq<Entry>, x: seq<Entry>, y: seq<Entry>)
    requires k + x == k + y
    ensures x == y
  {
    assert (k + x)[|k|..] == x && (k + y)[|k|..] == y;
  }

  /** What comes behind the first family of a list that has xs behind it. */
  lemma BehindFirst(a: seq<Family>, xs: seq<Entry>)
    requires a != []
    ensures PreF(a) + xs == [a[0].node] + (PreF(a[0].kids) + (PreF(a[1..]) + xs))
  {
    Behind(a[0].node, PreF(a[0].kids), PreF(a[1..]), xs);
  }

  lemma FirstOf(a: seq<Family>, xs: seq<Entry>)
    ensures First(PreF(a) + xs) == if a != [] then a[0].node else First(xs)
  {
    if a == [] {
      assert PreF(a) + xs == xs;
    } else {
      BehindFirst(a, xs);
    }
  }

  /** Two families of one entry, in front of the same entries. */
  lemma {:induction false} OneFamily(joins: (Entry, Entry) -> bool, decl: Declaration, f: Family, g: Family,
      xs: seq<Entry>, ys: seq<Entry>)
    requires Lawful(joins, decl, f, First(xs)) && Lawful(joins, decl, g, First(ys)) && f.node == g.node
    requires PreF(f.kids) + xs == PreF(g.kids) + ys
    ensures f == g && xs == ys
    decreases |PreF(f.kids) + xs|, 1
  {
    if decl[f.node] != [] {
      OneList(joins, decl, f.kids, g.kids);
      SameFront(PreF(f.kids), xs, ys);
    } else {
      OneFollowing(joins, decl, f.node, f.kids, g.kids, xs, ys);
    }
  }

  /** Two lists of the same entries. */
  lemma {:induction false} OneList(joins: (Entry, Entry) -> bool, decl: Declaration, a: seq<Family>, b: seq<Family>)
    requires AllLawful(joins, decl, a, null) && AllLawful(joins, decl, b, null) && PreF(a) == PreF(b)
    ensures a == b
    decreases |PreF(a)|, 0
  {
    if a != [] && b != [] {
      var x: seq<Entry>, y: seq<Entry> := PreF(a[1..]), PreF(b[1..]);
      assert x + [] == x && y + [] == y && PreF(a) + [] == PreF(a) && PreF(b) + [] == PreF(b);
      BehindFirst(a, []);
      BehindFirst(b, []);
      SameCons(a[0].node, PreF(a[0].kids) + x, b[0].node, PreF(b[0].kids) + y);
      FirstOf(a[1..], []);
      FirstOf(b[1..], []);
      OneFamily(joins, decl, a[0], b[0], x, y);
      OneList(joins, decl, a[1..], b[1..]);
    }
  }

  /** Two lists of what comes under p. */
  lemma {:induction false} OneFollowing(joins: (Entry, Entry) -> bool, decl: Declaration, p: Entry, a: seq<Family>,
      b: seq<Family>, xs: seq<Entry>, ys: seq<Entry>)
    requires AllLawful(joins, decl, a, First(xs)) && AllLawful(joins, decl, b, First(ys))
    requires forall j :: 0 <= j < |a| ==> p.hasSym && joins(p, a[j].node)
    requires forall j :: 0 <= j < |b| ==> p.hasSym && joins(p, b[j].node)
    requires p.hasSym && xs != [] ==> !joins(p, xs[0])
    requires p.hasSym && ys != [] ==> !joins(p, ys[0])
    requires PreF(a) + xs == PreF(b) + ys
    ensures a == b && xs == ys
    decreases |PreF(a) + xs|, 0
  {
    FirstOf(a, xs);
    FirstOf(b, ys);
    if a == [] || b == [] {
      assert a == b;
      SameFront([], xs, ys);
    } else {
      var x, y := PreF(a[1..]) + xs, PreF(b[1..]) + ys;
      BehindFirst(a, xs);
      BehindFirst(b, ys);
      SameCons(a[0].node, PreF(a[0].kids) + x, b[0].node, PreF(b[0].kids) + y);
      FirstOf(a[1..], xs);
      FirstOf(b[1..], ys);
      OneFamily(joins, decl, a[0], b[0], x, y);
      OneFollowing(joins, decl, p, a[1..], b[1..], xs, ys);
    }
  }

  /** Whatever order it decides in, menu_finalize can only end up with one tree. */
  lemma OnlyOutcome(joins: (Entry, Entry) -> bool, decl: Declaration, t: Tree, f: Family)
    requires Declares(decl, [t]) && Lawful(joins, decl, f, null)
    requires f.node == t.node && PreF(f.kids) == Pre(t.kids)
    ensures Display(f) == Finalize(joins, t, []).0
  {
    var g := FinalizeLawful(joins, decl, t, []);
    var r := Finalize(joins, t, []);
    assert r.1 == [];
    PreCons(t, []);
    PreCons(r.0, []);
    DisplayPre(g.kids);
    ShownPre(DisplayAll(g.kids));
    var none: seq<Entry> := [];
    assert PreF(f.kids) + none == PreF(g.kids) + none by {
      SameCons(t.node, Pre(r.0.kids), t.node, Pre(t.kids));
    }
    OneFamily(joins, decl, f, g, none, none);
  }

  // --- The declaration of a tree ---

  function DeclOf(ts: seq<Tree>): Declaration {
    if ts == [] then map[] else map[ts[0].node := Pre(ts[0].kids)] + DeclOf(ts[0].kids) + DeclOf(ts[1..])
  }

  lemma {:induction false} DeclaresMore(d: Declaration, d': Declaration, ts: seq<Tree>)
    requires Declares(d, ts) && forall x :: x in Pre(ts) && x in d ==> x in d' && d'[x] == d[x]
    ensures Declares(d', ts)
  {
    if ts != [] {
      DeclaresMore(d, d', ts[0].kids);
      DeclaresMore(d, d', ts[1..]);
    }
  }

  lemma {:induction false} KeyIn(ts: seq<Tree>, x: Entry)
    ensures x in DeclOf(ts) <==> x in Pre(ts)
  {
    if ts != [] {
      KeyIn(ts[0].kids, x);
      KeyIn(ts[1..], x);
    }
  }

  lemma PartsDiffer(n: Entry, k: seq<Entry>, r: seq<Entry>)
    requires NoDup([n] + k + r)
    ensures NoDup(k) && NoDup(r) && n !in k && n !in r && forall x :: x in k ==> x !in r
  {
    NoDupConcat([n] + k, r);
    NoDupConcat([n], k);
    assert n in [n] && n in [n] + k;
  }

  lemma Merged(a: Declaration, k: Declaration, r: Declaration)
    ensures forall x :: x in r ==> x in a + k + r && (a + k + r)[x] == r[x]
    ensures forall x :: x in k && x !in r ==> x in a + k + r && (a + k + r)[x] == k[x]
    ensures forall x :: x in a && x !in k && x !in r ==> x in a + k + r && (a + k + r)[x] == a[x]
  {
  }

  lemma {:induction false} DeclaresOf(ts: seq<Tree>)
    requires NoDup(Pre(ts))
    ensures Declares(DeclOf(ts), ts)
  {
    if ts != [] {
      var t, rest := ts[0], ts[1..];
      PartsDiffer(t.node, Pre(t.kids), Pre(rest));
      DeclaresOf(t.kids);
      DeclaresOf(rest);
      DeclaresBoth(ts);
    }
  }

  lemma DeclaresBoth(ts: seq<Tree>)
    requires ts != [] && Declares(DeclOf(ts[0].kids), ts[0].kids) && Declares(DeclOf(ts[1..]), ts[1..])
    requires ts[0].node !in Pre(ts[0].kids) && ts[0].node !in Pre(ts[1..])
    requires forall x :: x in Pre(ts[0].kids) ==> x !in Pre(ts[1..])
    ensures Declares(DeclOf(ts), ts)
  {
    var n, kids, rest := ts[0].node, ts[0].kids, ts[1..];
    var k, r := DeclOf(kids), DeclOf(rest);
    KeyIn(kids, n);
    KeyIn(rest, n);
    Merged(map[n := Pre(kids)], k, r);
    forall x | x in Pre(kids) ensures x !in r {
      KeyIn(rest, x);
    }
    DeclaresMore(k, map[n := Pre(kids)] + k + r, kids);
    DeclaresMore(r, map[n := Pre(kids)] + k + r, rest);
  }
}
