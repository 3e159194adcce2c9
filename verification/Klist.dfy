/** Intrusive circular doubly-linked lists. */
module Klist {

  class ListHead {
    var next: ListHead?
    var prev: ListHead?

    /** LIST_HEAD_INIT: a list by itself. */
    constructor ()
      ensures IsList(this, [])
    {
      next, prev := this, this;
    }
  }

  function Succ(n: nat, i: nat): nat
    requires i < n
  {
    if i == n - 1 then 0 else i + 1
  }

  function Pred(n: nat, i: nat): nat
    requires i < n
  {
    if i == 0 then n - 1 else i - 1
  }

  ghost predicate Distinct(s: seq<ListHead>) {
    forall i, j :: 0 <= i < j < |s| ==> s[i] != s[j]
  }

  /** The place i of the circle s: its neighbours are the places before and after. */
  ghost predicate At(s: seq<ListHead>, i: nat)
    requires i < |s|
    reads s
  {
    s[i].next == s[Succ(|s|, i)] && s[i].prev == s[Pred(|s|, i)]
  }

  /** The nodes of s, in this order, are one circle: next and prev are inverse to each other. */
  ghost predicate Ring(s: seq<ListHead>)
    reads s
  {
    |s| >= 1 && Distinct(s) && forall i :: 0 <= i < |s| ==> At(s, i)
  }

  /** The circle through `head` holds `items`, first to last. */
  ghost predicate IsList(head: ListHead, items: seq<ListHead>)
    reads head, items
  {
    Ring([head] + items)
  }

  function Before(ring: seq<ListHead>, i: nat): ListHead
    requires i < |ring|
  {
    ring[Pred(|ring|, i)]
  }

  function After(ring: seq<ListHead>, i: nat): ListHead
    requires i < |ring|
  {
    ring[Succ(|ring|, i)]
  }

  /** What follows the head of a list. */
  function First(head: ListHead, items: seq<ListHead>): ListHead {
    if items == [] then head else items[0]
  }

  /** What the head of a list follows. */
  function Last(head: ListHead, items: seq<ListHead>): ListHead {
    if items == [] then head else items[|items| - 1]
  }

  lemma Ends(head: ListHead, items: seq<ListHead>)
    requires IsList(head, items)
    ensures head.next == First(head, items) && head.prev == Last(head, items)
  {
    assert At([head] + items, 0);
  }

  function Remove<T>(s: seq<T>, i: nat): (r: seq<T>)
    requires i < |s|
    ensures |r| == |s| - 1 && forall k :: 0 <= k < |r| ==> r[k] == if k < i then s[k] else s[k + 1]
  {
    s[..i] + s[i + 1..]
  }

  /** Any node of a circle may serve as its head. */
  lemma Rotate(s: seq<ListHead>, i: nat)
    requires Ring(s) && i < |s|
    ensures Ring(s[i..] + s[..i]) && IsList(s[i], s[i + 1..] + s[..i])
  {
    var t := s[i..] + s[..i];
    forall k | 0 <= k < |t| ensures At(t, k) {
      assert At(s, if k < |s| - i then i + k else k - (|s| - i));
    }
    assert t == [s[i]] + (s[i + 1..] + s[..i]);
  }

  /** What a list holds is determined by the pointers. */
  lemma {:induction false} ListIsUnique(head: ListHead, a: seq<ListHead>, b: seq<ListHead>)
    requires IsList(head, a) && IsList(head, b)
    ensures a == b
  {
    var s, t := [head] + a, [head] + b;
    if |s| <= |t| {
      SameSteps(s, t, |s| - 1);
    } else {
      SameSteps(t, s, |t| - 1);
    }
    assert s[1..] == a && t[1..] == b;
  }

  lemma {:induction false} SameSteps(s: seq<ListHead>, t: seq<ListHead>, n: nat)
    requires Ring(s) && Ring(t) && s[0] == t[0] && n < |s| <= |t|
    ensures forall k :: 0 <= k <= n ==> s[k] == t[k]
    ensures n == |s| - 1 ==> s == t
  {
    if n > 0 {
      SameSteps(s, t, n - 1);
      assert At(s, n - 1) && At(t, n - 1);
    }
    if n == |s| - 1 {
      assert At(s, n) && At(t, n);
    }
  }

  /** Two circles with a node in common are the same circle. */
  lemma OneCircle(s: seq<ListHead>, i: nat, t: seq<ListHead>, j: nat)
    requires Ring(s) && Ring(t) && i < |s| && j < |t| && s[i] == t[j]
    ensures s[i..] + s[..i] == t[j..] + t[..j]
  {
    Rotate(s, i);
    Rotate(t, j);
    ListIsUnique(s[i], s[i + 1..] + s[..i], t[j + 1..] + t[..j]);
    assert s[i..] + s[..i] == [s[i]] + (s[i + 1..] + s[..i]);
    assert t[j..] + t[..j] == [t[j]] + (t[j + 1..] + t[..j]);
  }

  method Init(list: ListHead)
    modifies list
    ensures IsList(list, [])
  {
    list.next := list;
    list.prev := list;
  }

  /** The pointers once the nodes of a have gone in behind place i. */
  lemma SpliceLinks(a: seq<ListHead>, ring: seq<ListHead>, i: nat)
    requires Distinct(a) && a != [] && Distinct(ring) && i < |ring| && Disjoint(a, ring)
    requires forall j {:trigger a[j].next} :: 0 <= j < |a| ==>
               a[j].next == if j == |a| - 1 then ring[Succ(|ring|, i)] else a[j + 1]
    requires forall j {:trigger a[j].prev} :: 0 <= j < |a| ==> a[j].prev == if j == 0 then ring[i] else a[j - 1]
    requires forall j {:trigger ring[j].next} :: 0 <= j < |ring| ==> ring[j].next == if j ==
        i then a[0] else ring[Succ(|ring|, j)]
    requires forall j {:trigger ring[j].prev} :: 0 <= j < |ring| ==>
               ring[j].prev == if j == Succ(|ring|, i) then a[|a| - 1] else ring[Pred(|ring|, j)]
    ensures Ring(ring[..i + 1] + a + ring[i + 1..])
  {
    var t := ring[..i + 1] + a + ring[i + 1..];
    SpliceDistinct(a, ring, i);
    SpliceIndex(a, ring, i);
    forall j | 0 <= j < |t| ensures At(t, j) {
      assert t[j] == SpliceAt(a, ring, i, j);
      assert t[Succ(|t|, j)] == SpliceAt(a, ring, i, Succ(|t|, j));
      assert t[Pred(|t|, j)] == SpliceAt(a, ring, i, Pred(|t|, j));
    }
  }

  /** The entry at place j after a splice behind place i. */
  ghost function SpliceAt(a: seq<ListHead>, ring: seq<ListHead>, i: nat, j: nat): ListHead
    requires i < |ring| && j < |ring| + |a|
  {
    if j <= i then ring[j] else if j <= i + |a| then a[j - i - 1] else ring[j - |a|]
  }

  lemma SpliceIndex(a: seq<ListHead>, ring: seq<ListHead>, i: nat)
    requires i < |ring|
    ensures forall k: nat :: k < |ring| + |a| ==> (ring[..i + 1] + a + ring[i + 1..])[k] == SpliceAt(a, ring, i, k)
  {
  }

  lemma SpliceDistinct(a: seq<ListHead>, ring: seq<ListHead>, i: nat)
    requires Distinct(a) && Distinct(ring) && i < |ring| && Disjoint(a, ring)
    ensures Distinct(ring[..i + 1] + a + ring[i + 1..])
  {
    forall x, y | 0 <= x < |a| && 0 <= y < |ring| ensures a[x] != ring[y] {
      assert a[x] in a && ring[y] in ring;
    }
  }

  /** __list_add: between two neighbours, the places i and Succ(i) of a circle. */
  method AddBetween(entry: ListHead, prev: ListHead, next: ListHead, ghost ring: seq<ListHead>, ghost i: nat)
    requires Ring(ring) && entry !in ring && i < |ring| && prev == ring[i] && next == ring[Succ(|ring|, i)]
    modifies entry, prev`next, next`prev
    ensures Ring(ring[..i + 1] + [entry] + ring[i + 1..])
  {
    next.prev := entry;
    entry.next := next;
    entry.prev := prev;
    prev.next := entry;
    forall j {:trigger ring[j].next} {:trigger ring[j].prev} | 0 <= j < |ring|
      ensures ring[j].next == if j == i then entry else ring[Succ(|ring|, j)]
      ensures ring[j].prev == if j == Succ(|ring|, i) then entry else ring[Pred(|ring|, j)]
    {
      assert old(At(ring, j));
    }
    SpliceLinks([entry], ring, i);
  }

  method Add(entry: ListHead, head: ListHead, ghost items: seq<ListHead>)
    requires IsList(head, items) && entry != head && entry !in items
    modifies entry, head`next, First(head, items)`prev
    ensures IsList(head, [entry] + items)
  {
    ghost var ring := [head] + items;
    Ends(head, items);
    AddBetween(entry, head, head.next, ring, 0);
    assert ring[..1] + [entry] + ring[1..] == [head] + ([entry] + items);
  }

  method AddTail(entry: ListHead, head: ListHead, ghost items: seq<ListHead>)
    requires IsList(head, items) && entry != head && entry !in items
    modifies entry, head`prev, Last(head, items)`next
    ensures IsList(head, items + [entry])
  {
    ghost var ring := [head] + items;
    Ends(head, items);
    AddBetween(entry, head.prev, head, ring, |items|);
    assert ring[..|items| + 1] + [entry] + ring[|items| + 1..] == [head] + (items + [entry]);
  }

  /** The pointers once place i is bypassed. */
  lemma UnlinkLinks(ring: seq<ListHead>, i: nat)
    requires Distinct(ring) && i < |ring| && |ring| > 1
    requires forall j {:trigger ring[j].next} :: 0 <= j < |ring| && j != i ==>
      ring[j].next == ring[if j == Pred(|ring|, i) then Succ(|ring|, i) else Succ(|ring|, j)]
    requires forall j {:trigger ring[j].prev} :: 0 <= j < |ring| && j != i ==>
      ring[j].prev == ring[if j == Succ(|ring|, i) then Pred(|ring|, i) else Pred(|ring|, j)]
    ensures Ring(Remove(ring, i))
  {
    var t := Remove(ring, i);
    forall k | 0 <= k < |t| ensures At(t, k) {
      assert t[k] == ring[if k < i then k else k + 1];
    }
  }

  /** __list_del: the node at place i is bypassed; a node alone stays alone. */
  method Unlink(prev: ListHead, next: ListHead, ghost ring: seq<ListHead>, ghost i: nat)
    requires Ring(ring) && i < |ring| && prev == ring[Pred(|ring|, i)] && next == ring[Succ(|ring|, i)]
    modifies prev`next, next`prev
    ensures if |ring| > 1 then Ring(Remove(ring, i)) else Ring(ring)
  {
    next.prev := prev;
    prev.next := next;
    if |ring| > 1 {
      forall j {:trigger ring[j].next} {:trigger ring[j].prev} | 0 <= j < |ring| && j != i
        ensures ring[j].next == ring[if j == Pred(|ring|, i) then Succ(|ring|, i) else Succ(|ring|, j)]
        ensures ring[j].prev == ring[if j == Succ(|ring|, i) then Pred(|ring|, i) else Pred(|ring|, j)]
      {
        assert old(At(ring, j));
      }
      UnlinkLinks(ring, i);
    } else {
      assert At(ring, 0);
    }
  }

  /** list_del: the node itself ends up with no neighbours at all. */
  method Del(entry: ListHead, ghost ring: seq<ListHead>, ghost i: nat)
    requires Ring(ring) && i < |ring| && ring[i] == entry
    modifies entry, Before(ring, i)`next, After(ring, i)`prev
    ensures |ring| > 1 ==> Ring(Remove(ring, i))
    ensures entry.next == null && entry.prev == null
  {
    assert At(ring, i);
    Unlink(entry.prev, entry.next, ring, i);
    assert entry !in Remove(ring, i);
    entry.next := null;
    entry.prev := null;
  }

  method DelInit(entry: ListHead, ghost ring: seq<ListHead>, ghost i: nat)
    requires Ring(ring) && i < |ring| && ring[i] == entry
    modifies entry, Before(ring, i)`next, After(ring, i)`prev
    ensures |ring| > 1 ==> Ring(Remove(ring, i))
    ensures IsList(entry, [])
  {
    assert At(ring, i);
    Unlink(entry.prev, entry.next, ring, i);
    assert entry !in Remove(ring, i);
    Init(entry);
  }

  /** list_replace: the new node takes the old one's place, even where the old one was alone. */
  method Replace(was: ListHead, entry: ListHead, ghost ring: seq<ListHead>, ghost i: nat)
    requires Ring(ring) && i < |ring| && ring[i] == was && entry !in ring
    modifies entry, Before(ring, i)`next, After(ring, i)`prev
    ensures Ring(ring[i := entry])
  {
    assert At(ring, i);
    entry.next := was.next;
    entry.next.prev := entry;
    entry.prev := was.prev;
    entry.prev.next := entry;
    ghost var t := ring[i := entry];
    forall k | 0 <= k < |t| ensures At(t, k) {
      assert old(At(ring, k));
    }
  }

  method ReplaceInit(was: ListHead, entry: ListHead, ghost ring: seq<ListHead>, ghost i: nat)
    requires Ring(ring) && i < |ring| && ring[i] == was && entry !in ring
    modifies was, entry, Before(ring, i)`next, After(ring, i)`prev
    ensures Ring(ring[i := entry]) && IsList(was, [])
  {
    Replace(was, entry, ring, i);
    assert was !in ring[i := entry];
    Init(was);
  }

  ghost predicate Disjoint(a: seq<ListHead>, b: seq<ListHead>) {
    forall x :: x in a ==> x !in b
  }

  lemma RemovedIsGone(ring: seq<ListHead>, i: nat)
    requires Distinct(ring) && i < |ring|
    ensures ring[i] !in Remove(ring, i) && forall x :: x in Remove(ring, i) ==> x in ring
  {
  }

  /** The first half of list_move and list_move_tail: what is left of the list. */
  method Detach(list: ListHead, head: ListHead, ghost ring: seq<ListHead>, ghost i: nat, ghost items: seq<ListHead>)
    returns (ghost rest: seq<ListHead>)
    requires Ring(ring) && i < |ring| && ring[i] == list && IsList(head, items) && list != head
    requires ring == [head] + items || Disjoint(ring, [head] + items)
    modifies Before(ring, i)`next, After(ring, i)`prev
    ensures IsList(head, rest) && list !in [head] + rest
    ensures ring == [head] + items ==> i > 0 && rest == Remove(items, i - 1)
    ensures ring != [head] + items ==>
      rest == items && Disjoint(Remove(ring, i), [list] + ([head] + items)) && (|ring| > 1 ==> Ring(Remove(ring, i)))
  {
    assert At(ring, i) && Before(ring, i) in ring && After(ring, i) in ring;
    RemovedIsGone(ring, i);
    Unlink(list.prev, list.next, ring, i);
    rest := items;
    if ring == [head] + items {
      RemoveTail(head, items, i);
      rest := Remove(items, i - 1);
    }
  }

  lemma RemoveTail(head: ListHead, items: seq<ListHead>, i: nat)
    requires 0 < i <= |items|
    ensures Remove([head] + items, i) == [head] + Remove(items, i - 1)
  {
  }

  /** list_move, to the front of the same list or of another one. */
  method Move(list: ListHead, head: ListHead, ghost ring: seq<ListHead>, ghost i: nat, ghost items: seq<ListHead>)
    requires Ring(ring) && i < |ring| && ring[i] == list && IsList(head, items) && list != head
    requires ring == [head] + items || Disjoint(ring, [head] + items)
    modifies list, Before(ring, i)`next, After(ring, i)`prev, head`next, First(head, items)`prev
    ensures ring == [head] + items ==> IsList(head, [list] + Remove(items, i - 1))
    ensures ring != [head] + items ==> IsList(head, [list] + items) && (|ring| > 1 ==> Ring(Remove(ring, i)))
  {
    ghost var rest := Detach(list, head, ring, i, items);
    assert First(head, items) in [head] + items && list in [list] + ([head] + items) && head in [head] + items;
    Add(list, head, rest);
  }

  /** list_move_tail, to the back of the same list or of another one. */
  method MoveTail(list: ListHead, head: ListHead, ghost ring: seq<ListHead>, ghost i: nat, ghost items: seq<ListHead>)
    requires Ring(ring) && i < |ring| && ring[i] == list && IsList(head, items) && list != head
    requires ring == [head] + items || Disjoint(ring, [head] + items)
    modifies list, Before(ring, i)`next, After(ring, i)`prev, head`prev, Last(head, items)`next
    ensures ring == [head] + items ==> IsList(head, Remove(items, i - 1) + [list])
    ensures ring != [head] + items ==> IsList(head, items + [list]) && (|ring| > 1 ==> Ring(Remove(ring, i)))
  {
    ghost var rest := Detach(list, head, ring, i, items);
    assert Last(head, items) in [head] + items && list in [list] + ([head] + items) && head in [head] + items;
    AddTail(list, head, rest);
  }

  predicate IsLast(list: ListHead, head: ListHead)
    reads list
  {
    list.next == head
  }

  predicate Empty(head: ListHead)
    reads head
  {
    head.next == head
  }

  predicate EmptyCareful(head: ListHead)
    reads head
  {
    head.next == head && head.next == head.prev
  }

  predicate IsSingular(head: ListHead)
    reads head
  {
    !Empty(head) && head.next == head.prev
  }

  /** What the tests say about the list. */
  lemma Tests(head: ListHead, items: seq<ListHead>)
    requires IsList(head, items)
    ensures Empty(head) <==> items == []
    ensures EmptyCareful(head) <==> items == []
    ensures IsSingular(head) <==> |items| == 1
    ensures forall k :: 0 <= k < |items| ==> items[k] != head && (IsLast(items[k], head) <==> k == |items| - 1)
  {
    Ends(head, items);
    var s := [head] + items;
    forall k | 0 <= k < |items| ensures items[k] != head && (IsLast(items[k], head) <==> k == |items| - 1) {
      assert At(s, k + 1) && s[k + 1] == items[k] && s[0] == head;
    }
    if |items| >= 1 {
      assert s[1] == items[0] && s[|s| - 1] == items[|items| - 1] && s[0] == head;
    }
  }

  /** The pointers after the six assignments of a cut behind place m. */
  lemma CutLinks(list: ListHead, ring: seq<ListHead>, m: nat)
    requires Distinct(ring) && list !in ring && 0 < m < |ring|
    requires list.next == ring[1] && list.prev == ring[m]
    requires forall j {:trigger ring[j].next} :: 0 <= j < |ring| && j != m ==>
      ring[j].next == ring[if j == 0 then Succ(|ring|, m) else Succ(|ring|, j)]
    requires ring[m].next == list && ring[1].prev == list
    requires forall j {:trigger ring[j].prev} :: 0 <= j < |ring| && j != 1 ==>
      ring[j].prev == ring[if j == Succ(|ring|, m) then 0 else Pred(|ring|, j)]
    ensures Ring([list] + ring[1..m + 1]) && Ring([ring[0]] + ring[m + 1..])
  {
    var a, b := [list] + ring[1..m + 1], [ring[0]] + ring[m + 1..];
    assert forall j :: 0 <= j < |a| ==> a[j] == if j == 0 then list else ring[j];
    assert forall j :: 0 <= j < |ring| ==> list != ring[j];
    forall j | 0 <= j < |a| ensures At(a, j) {
    }
    assert forall j :: 0 <= j < |b| ==> b[j] == ring[if j == 0 then 0 else j + m];
    forall j | 0 <= j < |b| ensures At(b, j) {
    }
  }

  /** __list_cut_position. */
  method CutAt(list: ListHead, head: ListHead, entry: ListHead, ghost items: seq<ListHead>, ghost k: nat)
    requires IsList(head, items) && k < |items| && items[k] == entry && list !in [head] + items
    modifies list, head, First(head, items)`prev, entry`next, First(head, items[k + 1..])`prev
    ensures IsList(list, items[..k + 1]) && IsList(head, items[k + 1..])
  {
    ghost var ring := [head] + items;
    Ends(head, items);
    assert At(ring, k + 1);
    var newFirst := entry.next;
    list.next := head.next;
    list.next.prev := list;
    list.prev := entry;
    entry.next := list;
    head.next := newFirst;
    newFirst.prev := head;
    ghost var m := k + 1;
    assert newFirst == ring[Succ(|ring|, m)];
    forall j {:trigger ring[j].next} {:trigger ring[j].prev} | 0 <= j < |ring|
      ensures j != m ==> ring[j].next == ring[if j == 0 then Succ(|ring|, m) else Succ(|ring|, j)]
      ensures j != 1 ==> ring[j].prev == ring[if j == Succ(|ring|, m) then 0 else Pred(|ring|, j)]
    {
      assert old(At(ring, j)) && ring[j] != list && ring[0] == head && ring[1] == items[0] && ring[m] == entry;
    }
    CutLinks(list, ring, m);
    assert ring[1..k + 2] == items[..k + 1] && ring[k + 2..] == items[k + 1..];
  }

  /** list_cut_position: splits the list behind `entry`, and does nothing to a list
      that is empty or that has a single entry other than `entry`. */
  method CutPosition(list: ListHead, head: ListHead, entry: ListHead, ghost items: seq<ListHead>)
    requires IsList(head, items) && list !in [head] + items
    requires |items| > 1 ==> entry == head || entry in items
    modifies list, head, First(head, items)`prev, entry`next, items
    ensures entry in items ==>
              exists k :: 0 <= k < |items| && items[k] == entry &&
                IsList(list, items[..k + 1]) && IsList(head, items[k + 1..])
    ensures entry == head ==> IsList(head, items)
    ensures entry == head && items != [] ==> IsList(list, [])
    ensures items == [] || (entry != head && entry !in items) ==>
              IsList(head, items) && list.next == old(list.next) && list.prev == old(list.prev)
  {
    Tests(head, items);
    Ends(head, items);
    if Empty(head) {
      return;
    }
    if IsSingular(head) && head.next != entry && head != entry {
      return;
    }
    if entry == head {
      Init(list);
    } else {
      ghost var k :| 0 <= k < |items| && items[k] == entry;
      CutAt(list, head, entry, items, k);
      assert IsList(list, items[..k + 1]) && IsList(head, items[k + 1..]);
    }
  }

  /** __list_splice: the entries of one list go between two neighbours in another. */
  method SpliceBetween(list: ListHead, prev: ListHead, next: ListHead, ghost a: seq<ListHead>,
      ghost ring: seq<ListHead>, ghost i: nat)
    requires IsList(list, a) && a != [] && Ring(ring) && Disjoint([list] + a, ring)
    requires i < |ring| && prev == ring[i] && next == ring[Succ(|ring|, i)]
    modifies First(list, a)`prev, Last(list, a)`next, prev`next, next`prev
    ensures Ring(ring[..i + 1] + a + ring[i + 1..])
    ensures list.next == old(list.next) && list.prev == old(list.prev)
  {
    Ends(list, a);
    ghost var s := [list] + a;
    var first := list.next;
    var last := list.prev;
    first.prev := prev;
    prev.next := first;
    last.next := next;
    next.prev := last;
    assert s[0] == list && s[1] == a[0] == first && s[|a|] == a[|a| - 1] == last && prev in ring && next in ring;
    forall j {:trigger ring[j].next} {:trigger ring[j].prev} | 0 <= j < |ring|
      ensures ring[j].next == if j == i then a[0] else ring[Succ(|ring|, j)]
      ensures ring[j].prev == if j == Succ(|ring|, i) then a[|a| - 1] else ring[Pred(|ring|, j)]
    {
      assert ring[j] in ring && first in s && last in s;
      assert old(At(ring, j));
    }
    forall j {:trigger a[j].next} {:trigger a[j].prev} | 0 <= j < |a|
      ensures a[j].next == if j == |a| - 1 then ring[Succ(|ring|, i)] else a[j + 1]
      ensures a[j].prev == if j == 0 then ring[i] else a[j - 1]
    {
      assert a[j] == s[j + 1] && s[j + 1] in s;
      assert old(At(s, j + 1));
    }
    assert list in s && s[1..] == a;
    forall x | x in a ensures x !in ring {
      assert x in s;
    }
    SpliceLinks(a, ring, i);
  }

  method Splice(list: ListHead, head: ListHead, ghost a: seq<ListHead>, ghost items: seq<ListHead>)
    requires IsList(list, a) && IsList(head, items) && Disjoint([list] + a, [head] + items)
    modifies First(list, a)`prev, Last(list, a)`next, head`next, First(head, items)`prev
    ensures IsList(head, a + items)
    ensures list.next == old(list.next) && list.prev == old(list.prev)
  {
    Tests(list, a);
    Ends(head, items);
    if !Empty(list) {
      ghost var ring := [head] + items;
      SpliceBetween(list, head, head.next, a, ring, 0);
      assert ring[..1] + a + ring[1..] == [head] + (a + items);
    } else {
      assert a + items == items;
    }
  }

  method SpliceTail(list: ListHead, head: ListHead, ghost a: seq<ListHead>, ghost items: seq<ListHead>)
    requires IsList(list, a) && IsList(head, items) && Disjoint([list] + a, [head] + items)
    modifies First(list, a)`prev, Last(list, a)`next, head`prev, Last(head, items)`next
    ensures IsList(head, items + a)
    ensures list.next == old(list.next) && list.prev == old(list.prev)
  {
    Tests(list, a);
    Ends(head, items);
    if !Empty(list) {
      ghost var ring := [head] + items;
      SpliceBetween(list, head.prev, head, a, ring, |items|);
      assert ring[..|items| + 1] + a + ring[|items| + 1..] == [head] + (items + a);
    } else {
      assert items + a == items;
    }
  }

  method SpliceInit(list: ListHead, head: ListHead, ghost a: seq<ListHead>, ghost items: seq<ListHead>)
    requires IsList(list, a) && IsList(head, items) && Disjoint([list] + a, [head] + items)
    modifies list, First(list, a)`prev, Last(list, a)`next, head`next, First(head, items)`prev
    ensures IsList(head, a + items) && IsList(list, [])
  {
    Tests(list, a);
    assert a == [] ==> a + items == items;
    if !Empty(list) {
      assert list in [list] + a && list !in a && list !in [head] + items;
      Splice(list, head, a, items);
      Init(list);
    }
  }

  method SpliceTailInit(list: ListHead, head: ListHead, ghost a: seq<ListHead>, ghost items: seq<ListHead>)
    requires IsList(list, a) && IsList(head, items) && Disjoint([list] + a, [head] + items)
    modifies list, First(list, a)`prev, Last(list, a)`next, head`prev, Last(head, items)`next
    ensures IsList(head, items + a) && IsList(list, [])
  {
    Tests(list, a);
    assert a == [] ==> items + a == items;
    if !Empty(list) {
      assert list in [list] + a && list !in a && list !in [head] + items;
      SpliceTail(list, head, a, items);
      Init(list);
    }
  }

  /** list_for_each meets every entry once, in order. */
  method ForEach(head: ListHead, ghost items: seq<ListHead>) returns (visited: seq<ListHead>)
    requires IsList(head, items)
    ensures visited == items
  {
    Ends(head, items);
    Tests(head, items);
    ghost var s := [head] + items;
    visited := [];
    var pos := head.next;
    while pos != head
      invariant |visited| <= |items| && visited == items[..|visited|]
      invariant pos == s[if |visited| == |items| then 0 else |visited| + 1]
      decreases |items| - |visited|
    {
      assert At(s, |visited| + 1);
      visited := visited + [pos];
      pos := pos.next;
    }
  }

  function Without(items: seq<ListHead>, doomed: set<ListHead>): seq<ListHead> {
    if items == [] then []
    else
      var rest := Without(items[..|items| - 1], doomed);
      var x := items[|items| - 1];
      if x in doomed then rest else rest + [x]
  }

  lemma {:induction false} WithoutIn(items: seq<ListHead>, doomed: set<ListHead>)
    ensures forall x :: x in Without(items, doomed) <==> x in items && x !in doomed
  {
    if items != [] {
      WithoutIn(items[..|items| - 1], doomed);
      assert items == items[..|items| - 1] + [items[|items| - 1]];
    }
  }

  lemma WithoutNext(items: seq<ListHead>, doomed: set<ListHead>, k: nat)
    requires k < |items|
    ensures items[k..] == [items[k]] + items[k + 1..]
    ensures Without(items[..k + 1], doomed)
         == Without(items[..k], doomed) + if items[k] in doomed then [] else [items[k]]
  {
    assert items[..k + 1][..k] == items[..k];
    assert Without(items[..k], doomed) + [] == Without(items[..k], doomed);
  }

  /** The neighbours of entry k are entries (or the head), none of them deleted before. */
  lemma Neighbours(head: ListHead, items: seq<ListHead>, doomed: set<ListHead>, k: nat)
    requires Distinct([head] + items) && k < |items|
    ensures var l := Last(head, Without(items[..k], doomed));
            var f := First(head, items[k + 1..]);
            && (l == head || l in items) && (f == head || f in items)
            && forall j :: 0 <= j < k && items[j] in doomed ==> items[j] != items[k] && items[j] != l && items[j] != f
  {
    var s := [head] + items;
    WithoutIn(items[..k], doomed);
    forall j | 0 <= j < |items| ensures items[j] != head {
      assert s[j + 1] == items[j] && s[0] == head;
    }
    forall i, j | 0 <= i < j < |items| ensures items[i] != items[j] {
      assert s[i + 1] == items[i] && s[j + 1] == items[j];
    }
    var kept := Without(items[..k], doomed);
    if kept != [] {
      assert kept[|kept| - 1] in kept;
    }
  }

  /** An entry between `kept` and `rest`. */
  lemma Between(head: ListHead, kept: seq<ListHead>, pos: ListHead, rest: seq<ListHead>)
    requires IsList(head, kept + ([pos] + rest))
    ensures pos.prev == Last(head, kept) && pos.next == First(head, rest)
  {
    assert At([head] + (kept + ([pos] + rest)), |kept| + 1);
  }

  method DelBetween(head: ListHead, pos: ListHead, ghost kept: seq<ListHead>, ghost rest: seq<ListHead>)
    requires IsList(head, kept + ([pos] + rest))
    modifies pos, Last(head, kept)`next, First(head, rest)`prev
    ensures IsList(head, kept + rest)
    ensures pos.next == null && pos.prev == null
  {
    ghost var ring := [head] + (kept + ([pos] + rest));
    Del(pos, ring, |kept| + 1);
    assert Remove(ring, |kept| + 1) == [head] + (kept + rest);
  }

  /** After k entries: those left in the list, and no links in those deleted. */
  ghost predicate Passed(head: ListHead, doomed: set<ListHead>, items: seq<ListHead>, k: nat)
    requires k <= |items|
    reads head, items, Without(items[..k], doomed)
  {
    && IsList(head, Without(items[..k], doomed) + items[k..])
    && forall j :: 0 <= j < k && items[j] in doomed ==> items[j].next == null && items[j].prev == null
  }

  method DelOne(head: ListHead, doomed: set<ListHead>, pos: ListHead, ghost items: seq<ListHead>, ghost k: nat)
    requires Distinct([head] + items) && k < |items| && pos == items[k] && Passed(head, doomed, items, k)
    modifies head, items
    ensures Passed(head, doomed, items, k + 1)
  {
    ghost var kept, rest := Without(items[..k], doomed), items[k + 1..];
    WithoutNext(items, doomed, k);
    if pos in doomed {
      Neighbours(head, items, doomed, k);
      DelBetween(head, pos, kept, rest);
      assert kept + [] == kept;
    } else {
      assert kept + ([pos] + rest) == kept + [pos] + rest;
    }
  }

  /** list_for_each_safe with list_del on some of the entries met: the rest stays, in order. */
  method DelSome(head: ListHead, doomed: set<ListHead>, ghost items: seq<ListHead>)
    requires IsList(head, items)
    modifies head, items
    ensures IsList(head, Without(items, doomed))
    ensures forall j :: 0 <= j < |items| && items[j] in doomed ==> items[j].next == null && items[j].prev == null
  {
    Ends(head, items);
    Tests(head, items);
    ghost var k := 0;
    var pos := head.next;
    assert [] + items[0..] == items && items[..0] == [];
    while pos != head
      invariant k <= |items| && Passed(head, doomed, items, k)
      invariant pos == if k == |items| then head else items[k]
      decreases |items| - k
    {
      WithoutNext(items, doomed, k);
      Between(head, Without(items[..k], doomed), pos, items[k + 1..]);
      var n := pos.next;
      DelOne(head, doomed, pos, items, k);
      k := k + 1;
      pos := n;
    }
    assert items[..k] == items && items[k..] == [];
    assert Without(items, doomed) + [] == Without(items, doomed);
  }
}
