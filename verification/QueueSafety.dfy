/** Ownership and FIFO of the message queue, when each ring has one taking
    thread or one putting thread, or the depth or the number of threads is at
    most two. */
module QueueSafety {
  import opened Basics
  import opened QueueModel
  import opened QueueCounters
  import Arith

  /** Put tickets that the initial freelist already used up. */
  function Base(depth: nat, r: RingId): nat {
    if r == Freelist then depth else 0
  }

  /** The thread is between drawing a put ticket and storing its message. */
  predicate HoldsPut(pc: Pc, r: RingId) {
    (pc.PutSpin? || pc.PutStore?) && pc.r == r
  }

  /** The thread is between drawing a take ticket and clearing the slot. */
  predicate HoldsTake(pc: Pc, r: RingId) {
    (pc.TakeSpin? || pc.TakeClear?) && pc.r == r
  }

  predicate Putting(pc: Pc, r: RingId) {
    (pc.PutTicket? || pc.PutSpin? || pc.PutStore? || pc.PutCount? || pc.PutCheck? || pc.PutDec? || pc.PutPost?) &&
        pc.r == r
  }

  predicate Taking(pc: Pc, r: RingId) {
    !pc.Idle? && !Putting(pc, r) && pc.r == r
  }

  /** Tickets are either finished or held by the thread that drew them. */
  ghost predicate Tickets(depth: nat, g: Ring, ts: seq<Thread>, r: RingId) {
    && |g.putter| == |g.msgs| >= Base(depth, r)
    && g.takePos == |g.taker| % WORD
    && g.putPos == (|g.msgs| - Base(depth, r)) % WORD
    && (forall k :: k in g.stored ==> k < |g.msgs|)
    && (forall k :: 0 <= k < |g.msgs| && k !in g.stored ==>
          g.putter[k] < |ts| && HoldsPut(ts[g.putter[k]].pc, r) && ts[g.putter[k]].pc.k == k)
    && (forall k :: k in g.results ==> k < |g.taker| && k in g.stored && g.results[k] == g.msgs[k])
    && (forall k :: 0 <= k < |g.taker| && k !in g.results ==>
          g.taker[k] < |ts| && HoldsTake(ts[g.taker[k]].pc, r) && ts[g.taker[k]].pc.k == k)
  }

  /** What a thread in the middle of an operation on ring g knows. */
  ghost predicate ThreadOk(depth: nat, g: Ring, th: Thread, t: nat, r: RingId)
    requires depth > 0
  {
    var pc := th.pc;
    && (HoldsTake(pc, r) ==>
          pc.k < |g.taker| && g.taker[pc.k] == t && pc.k !in g.results && pc.pos == pc.k % depth)
    && (pc.TakeClear? && pc.r == r ==> pc.k in g.stored && pc.k < |g.msgs| && pc.rv == g.msgs[pc.k])
    && (HoldsPut(pc, r) ==>
          && pc.k < |g.putter| == |g.msgs| && g.putter[pc.k] == t && pc.k !in g.stored
          && g.msgs[pc.k] == pc.m && pc.pos == pc.k % depth)
    && (pc.PutStore? && pc.r == r ==> pc.pos < |g.slots| && g.slots[pc.pos] == None)
    && (pc.PutTicket? && pc.r == r ==> pc.m in th.hand)
  }

  /** A slot holds exactly the message of the one stored, untaken ticket on it. */
  ghost predicate Slots(depth: nat, g: Ring, loc: map<nat, Loc>, r: RingId)
    requires depth > 0
  {
    && |g.slots| == depth
    && (forall k :: k in g.stored && k !in g.results ==> k < |g.msgs| && g.slots[k % depth] == Some(g.msgs[k]))
    && (forall i :: 0 <= i < depth && g.slots[i].Some? ==>
          && g.slots[i].value in loc && loc[g.slots[i].value].InRing? && loc[g.slots[i].value].r == r
          && loc[g.slots[i].value].k in g.stored && loc[g.slots[i].value].k % depth == i)
  }

  /** An untaken put ticket is where its message is, and conversely. */
  ghost predicate Located(g: Ring, loc: map<nat, Loc>, r: RingId) {
    && (forall k :: 0 <= k < |g.msgs| && k !in g.results ==> g.msgs[k] in loc && loc[g.msgs[k]] == InRing(r, k))
    && (forall b :: b in loc && loc[b].InRing? && loc[b].r == r ==>
          loc[b].k < |g.msgs| && loc[b].k !in g.results && g.msgs[loc[b].k] == b)
  }

  ghost predicate Hands(depth: nat, ts: seq<Thread>, loc: map<nat, Loc>) {
    && (forall b :: b in loc <==> 0 <= b < depth)
    && (forall b :: b in loc && loc[b].InHand? ==> loc[b].t < |ts| && b in ts[loc[b].t].hand)
    && (forall t, b :: 0 <= t < |ts| && b in ts[t].hand ==> b in loc && loc[b] == InHand(t))
  }

  /** The sole taker (putter) of a ring is the only one at work there, and the
      ticket it holds is the last one drawn. */
  ghost predicate Sole(c: Config, g: Ring, th: Thread, t: nat, r: RingId) {
    && (r in c.soleTaker ==>
          && (Taking(th.pc, r) ==> c.soleTaker[r] == t)
          && (HoldsTake(th.pc, r) ==> th.pc.k == |g.taker| - 1))
    && (r in c.solePutter ==>
          && (Putting(th.pc, r) ==> c.solePutter[r] == t)
          && (HoldsPut(th.pc, r) ==> th.pc.k == |g.msgs| - 1))
  }

  ghost predicate Worker(c: Config, g: Ring, th: Thread, t: nat, r: RingId)
    requires c.depth > 0
  {
    ThreadOk(c.depth, g, th, t, r) && Sole(c, g, th, t, r)
  }

  /** Two untaken put tickets that want the same slot. */
  predicate SameSlot(depth: nat, g: Ring, j: nat, k: nat)
    requires depth > 0
  {
    j < k < |g.msgs| && j !in g.results && k !in g.results && j % depth == k % depth
  }

  /** Of two untaken tickets on one slot the earlier is stored; the later is not,
      and no taker has drawn its number. */
  ghost predicate Parted(depth: nat, g: Ring)
    requires depth > 0
  {
    forall j: nat, k: nat :: SameSlot(depth, g, j, k) ==> j in g.stored && k !in g.stored && k >= |g.taker|
  }

  ghost predicate RingSafe(c: Config, g: Ring, ts: seq<Thread>, loc: map<nat, Loc>, r: RingId)
    requires c.depth > 0
  {
    && Tickets(c.depth, g, ts, r)
    && Slots(c.depth, g, loc, r)
    && Located(g, loc, r)
    && Parted(c.depth, g)
    && (forall t :: 0 <= t < |ts| ==> Worker(c, g, ts[t], t, r))
  }

  ghost predicate Safe(c: Config, s: State)
    requires c.depth > 0
  {
    && |s.threads| == c.threads
    && Hands(c.depth, s.threads, s.loc)
    && (forall r: RingId :: RingSafe(c, Rg(s, r), s.threads, s.loc, r) && CountInv(Rg(s, r), s.threads, r))
  }

  function ToSet(f: seq<nat>): (r: set<nat>)
    ensures forall x :: x in r <==> x in f
  {
    if |f| == 0 then {} else ToSet(f[..|f| - 1]) + {f[|f| - 1]}
  }

  predicate Distinct(f: seq<nat>) {
    forall j, k :: 0 <= j < k < |f| ==> f[j] != f[k]
  }

  lemma {:induction false} DistinctSize(f: seq<nat>)
    requires Distinct(f)
    ensures |ToSet(f)| == |f|
  {
    if |f| > 0 {
      DistinctSize(f[..|f| - 1]);
      assert f[|f| - 1] !in f[..|f| - 1];
    }
  }

  lemma Pigeonhole(f: seq<nat>, n: nat)
    requires Distinct(f) && forall k :: 0 <= k < |f| ==> f[k] < n
    ensures |f| <= n
  {
    DistinctSize(f);
    SubsetSize(ToSet(f), Below(n));
    BelowSize(n);
  }

  lemma {:induction false} BelowSize(n: nat)
    ensures |Below(n)| == n
  {
    if n > 0 {
      BelowSize(n - 1);
      assert n - 1 !in Below(n - 1);
    }
  }

  /** With one taker, only the last take ticket can be unfinished. */
  lemma UnfinishedTakeIsLast(c: Config, g: Ring, ts: seq<Thread>, loc: map<nat, Loc>, r: RingId, k: nat)
    requires c.depth > 0 && RingSafe(c, g, ts, loc, r) && r in c.soleTaker
    requires k < |g.taker| && k !in g.results
    ensures k == |g.taker| - 1
  {
    assert Worker(c, g, ts[g.taker[k]], g.taker[k], r);
  }

  /** The first put ticket that a sole taker has not finished. */
  function FirstUntaken(g: Ring): nat {
    if |g.taker| > 0 && |g.taker| - 1 !in g.results then |g.taker| - 1 else |g.taker|
  }

  lemma UntakenFrom(c: Config, g: Ring, ts: seq<Thread>, loc: map<nat, Loc>, r: RingId)
    requires c.depth > 0 && RingSafe(c, g, ts, loc, r) && CountInv(g, ts, r) && r in c.soleTaker
    ensures FirstUntaken(g) <= |g.msgs|
    ensures forall k :: 0 <= k < |g.msgs| ==> (k !in g.results <==> FirstUntaken(g) <= k)
  {
    forall k | 0 <= k < |g.taker| && k !in g.results ensures k == |g.taker| - 1 {
      UnfinishedTakeIsLast(c, g, ts, loc, r, k);
    }
  }

  /** With one taker, the untaken put tickets are consecutive and, since their
      messages are different blocks, there are at most `depth` of them. */
  lemma Window(c: Config, g: Ring, ts: seq<Thread>, loc: map<nat, Loc>, r: RingId)
    requires c.depth > 0 && RingSafe(c, g, ts, loc, r) && Hands(c.depth, ts, loc) && CountInv(g, ts, r)
    requires r in c.soleTaker
    ensures FirstUntaken(g) <= |g.msgs| <= FirstUntaken(g) + c.depth
    ensures forall k :: 0 <= k < |g.msgs| ==> (k !in g.results <==> FirstUntaken(g) <= k)
  {
    UntakenFrom(c, g, ts, loc, r);
    var first := FirstUntaken(g);
    forall k | first <= k < |g.msgs| ensures g.msgs[k] < c.depth && loc[g.msgs[k]] == InRing(r, k) {
    }
    Pigeonhole(g.msgs[first..], c.depth);
  }

  /** Two untaken tickets never share a slot. */
  lemma UntakenApart(c: Config, g: Ring, ts: seq<Thread>, loc: map<nat, Loc>, r: RingId, j: nat, k: nat)
    requires c.depth > 0 && RingSafe(c, g, ts, loc, r) && Hands(c.depth, ts, loc) && CountInv(g, ts, r)
    requires r in c.soleTaker
    requires j < k < |g.msgs| && j !in g.results && k !in g.results
    ensures j % c.depth != k % c.depth
  {
    Window(c, g, ts, loc, r);
    Arith.ModApart(j, k, c.depth);
  }

  /** Untaken put tickets from `lo` on, and one more block in a thread's hands. */
  lemma Span(c: Config, g: Ring, ts: seq<Thread>, loc: map<nat, Loc>, r: RingId, lo: nat, t: nat, m: nat)
    requires c.depth > 0 && RingSafe(c, g, ts, loc, r) && Hands(c.depth, ts, loc)
    requires lo <= |g.msgs| && forall k :: lo <= k < |g.msgs| ==> k !in g.results
    requires t < |ts| && m in ts[t].hand
    ensures |g.msgs| - lo < c.depth
  {
    var f := g.msgs[lo..] + [m];
    assert loc[m] == InHand(t);
    forall k | lo <= k < |g.msgs| ensures g.msgs[k] < c.depth && loc[g.msgs[k]] == InRing(r, k) {
    }
    forall j, k | 0 <= j < k < |f| ensures f[j] != f[k] {
      assert j < |g.msgs| - lo && f[j] == g.msgs[lo + j];
      assert k < |g.msgs| - lo ==> f[k] == g.msgs[lo + k];
    }
    Pigeonhole(f, c.depth);
  }

  /** Three untaken put tickets need three blocks. */
  lemma ThreeBlocks(c: Config, g: Ring, ts: seq<Thread>, loc: map<nat, Loc>, r: RingId, i: nat, j: nat, k: nat)
    requires c.depth > 0 && RingSafe(c, g, ts, loc, r) && Hands(c.depth, ts, loc)
    requires i < j < k < |g.msgs| && i !in g.results && j !in g.results && k !in g.results
    ensures c.depth > 2
  {
    forall l | l in {i, j, k} ensures g.msgs[l] < c.depth && loc[g.msgs[l]] == InRing(r, l) {
    }
    Pigeonhole([g.msgs[i], g.msgs[j], g.msgs[k]], c.depth);
  }

  /** A ticket that is not stored is held by a thread not yet counted. */
  lemma Unstored(c: Config, g: Ring, ts: seq<Thread>, loc: map<nat, Loc>, r: RingId, k: nat)
    requires c.depth > 0 && RingSafe(c, g, ts, loc, r) && CountInv(g, ts, r)
    requires k < |g.msgs| && k !in g.stored
    ensures g.putter[k] < |ts| && HoldsPut(ts[g.putter[k]].pc, r)
    ensures Tally(ts, r, Uncounted) >= 1 && |g.taker| + Tally(ts, r, Claimed) < |g.msgs|
  {
    TallyMember(ts, g.putter[k], r, Uncounted);
  }

  /** Two threads, one with a message of its own: nobody is taking. */
  lemma NoTakerHolds(c: Config, g: Ring, ts: seq<Thread>, loc: map<nat, Loc>, r: RingId)
    requires c.depth > 0 && RingSafe(c, g, ts, loc, r) && CountInv(g, ts, r)
    requires forall t :: 0 <= t < |ts| ==> !HoldsTake(ts[t].pc, r)
    ensures forall k :: |g.taker| <= k < |g.msgs| <==> 0 <= k < |g.msgs| && k !in g.results
  {
  }

  /** Each cause that keeps a ring safe, when a put ticket is drawn: a ticket
      that is not stored yet is on another slot. */
  lemma PutDrawTaker(c: Config, g: Ring, ts: seq<Thread>, loc: map<nat, Loc>, t: nat, r: RingId, j: nat)
    requires c.depth > 0 && RingSafe(c, g, ts, loc, r) && Hands(c.depth, ts, loc) && CountInv(g, ts, r)
    requires t < |ts| && ts[t].pc.PutTicket? && ts[t].pc.r == r && r in c.soleTaker
    requires j < |g.msgs| && j !in g.results
    ensures j % c.depth != |g.msgs| % c.depth
  {
    assert Worker(c, g, ts[t], t, r);
    UntakenFrom(c, g, ts, loc, r);
    Span(c, g, ts, loc, r, FirstUntaken(g), t, ts[t].pc.m);
    Arith.ModApart(j, |g.msgs|, c.depth);
  }

  lemma PutDrawShallow(c: Config, g: Ring, ts: seq<Thread>, loc: map<nat, Loc>, t: nat, r: RingId, j: nat)
    requires 0 < c.depth <= 2 && RingSafe(c, g, ts, loc, r) && Hands(c.depth, ts, loc) && CountInv(g, ts, r)
    requires t < |ts| && ts[t].pc.PutTicket? && ts[t].pc.r == r
    requires j < |g.msgs| && j !in g.stored
    ensures j % c.depth != |g.msgs| % c.depth
  {
    assert Worker(c, g, ts[t], t, r);
    Unstored(c, g, ts, loc, r, j);
    var n, m := |g.msgs|, ts[t].pc.m;
    assert loc[m] == InHand(t) && loc[g.msgs[j]] == InRing(r, j) && loc[g.msgs[n - 1]] == InRing(r, n - 1);
    if j < n - 1 {
      Pigeonhole([g.msgs[j], g.msgs[n - 1], m], c.depth);
    } else {
      Pigeonhole([g.msgs[j], m], c.depth);
      Arith.ModApart(j, n, 2);
    }
  }

  lemma PutDrawFew(c: Config, g: Ring, ts: seq<Thread>, loc: map<nat, Loc>, t: nat, r: RingId, j: nat)
    requires c.depth > 0 && |ts| <= 2 && RingSafe(c, g, ts, loc, r) && Hands(c.depth, ts, loc) && CountInv(g, ts, r)
    requires t < |ts| && ts[t].pc.PutTicket? && ts[t].pc.r == r
    requires j < |g.msgs| && j !in g.stored
    ensures j % c.depth != |g.msgs| % c.depth
  {
    assert Worker(c, g, ts[t], t, r);
    Unstored(c, g, ts, loc, r, j);
    NoTakerHolds(c, g, ts, loc, r);
    Span(c, g, ts, loc, r, |g.taker|, t, ts[t].pc.m);
    Arith.ModApart(j, |g.msgs|, c.depth);
  }

  lemma PutDrawPutter(c: Config, g: Ring, ts: seq<Thread>, loc: map<nat, Loc>, t: nat, r: RingId, j: nat)
    requires c.depth > 0 && RingSafe(c, g, ts, loc, r) && r in c.solePutter
    requires t < |ts| && ts[t].pc.PutTicket? && ts[t].pc.r == r
    requires j < |g.msgs|
    ensures j in g.stored
  {
    forall u | 0 <= u < |ts| ensures !HoldsPut(ts[u].pc, r) {
      assert Worker(c, g, ts[t], t, r) && Worker(c, g, ts[u], u, r);
    }
  }

  lemma PutDraw(c: Config, g: Ring, ts: seq<Thread>, loc: map<nat, Loc>, t: nat, r: RingId, j: nat)
    requires c.depth > 0 && Guarded(c, r) && |ts| == c.threads
    requires RingSafe(c, g, ts, loc, r) && Hands(c.depth, ts, loc) && CountInv(g, ts, r)
    requires t < |ts| && ts[t].pc.PutTicket? && ts[t].pc.r == r
    requires j < |g.msgs| && j !in g.results && j % c.depth == |g.msgs| % c.depth
    ensures j in g.stored
  {
    if j !in g.stored {
      if r in c.soleTaker {
        PutDrawTaker(c, g, ts, loc, t, r, j);
      } else if r in c.solePutter {
        PutDrawPutter(c, g, ts, loc, t, r, j);
      } else if c.depth <= 2 {
        PutDrawShallow(c, g, ts, loc, t, r, j);
      } else {
        PutDrawFew(c, g, ts, loc, t, r, j);
      }
    }
  }

  /** When a take ticket is drawn, the put ticket of that number shares its slot
      with no earlier one. */
  lemma TakeDraw(c: Config, g: Ring, ts: seq<Thread>, loc: map<nat, Loc>, t: nat, r: RingId, j: nat)
    requires c.depth > 0 && Guarded(c, r) && |ts| == c.threads
    requires RingSafe(c, g, ts, loc, r) && Hands(c.depth, ts, loc) && CountInv(g, ts, r)
    requires t < |ts| && ts[t].pc.TakeTicket? && ts[t].pc.r == r
    ensures !SameSlot(c.depth, g, j, |g.taker|)
  {
    var n := |g.taker|;
    if SameSlot(c.depth, g, j, n) {
      assert Worker(c, g, ts[t], t, r);
      Unstored(c, g, ts, loc, r, n);
      TallyMember(ts, t, r, Claimed);
      var u, v := g.taker[j], g.putter[n];
      assert Worker(c, g, ts[u], u, r) && Worker(c, g, ts[v], v, r);
      if r !in c.soleTaker && r !in c.solePutter && c.depth <= 2 {
        ThreeBlocks(c, g, ts, loc, r, j, n, n + 1);
      }
    }
  }

  /** The parts of a ring that ownership is about. */
  predicate SameContents(g: Ring, g': Ring) {
    g' == g.(count := g'.count, blocked := g'.blocked, sem := g'.sem)
  }

  /** A thread without a ticket may move on without disturbing the tickets. */
  lemma TicketsFrame(depth: nat, g: Ring, g': Ring, ts: seq<Thread>, t: nat, th: Thread, r: RingId)
    requires t < |ts| && Tickets(depth, g, ts, r) && SameContents(g, g')
    requires !HoldsPut(ts[t].pc, r) && !HoldsTake(ts[t].pc, r)
    ensures Tickets(depth, g', ts[t := th], r)
  {
  }

  lemma PartedFrame(depth: nat, g: Ring, g': Ring)
    requires depth > 0 && Parted(depth, g)
    requires g'.msgs == g.msgs && g'.stored == g.stored && g'.taker == g.taker && g.results.Keys <= g'.results.Keys
    ensures Parted(depth, g')
  {
    forall j: nat, k: nat | SameSlot(depth, g', j, k) ensures SameSlot(depth, g, j, k) {
    }
  }

  lemma SlotsFrame(depth: nat, g: Ring, g': Ring, loc: map<nat, Loc>, r: RingId)
    requires depth > 0 && Slots(depth, g, loc, r) && Located(g, loc, r) && SameContents(g, g')
    ensures Slots(depth, g', loc, r) && Located(g', loc, r)
  {
  }

  lemma WorkerFrame(c: Config, g: Ring, g': Ring, th: Thread, t: nat, r: RingId)
    requires c.depth > 0 && Worker(c, g, th, t, r) && SameContents(g, g')
    ensures Worker(c, g', th, t, r)
  {
  }

  /** A step that neither holds a ticket nor changes slots or history. */
  lemma QuietStep(c: Config, g: Ring, g': Ring, ts: seq<Thread>, loc: map<nat, Loc>, t: nat, th: Thread, r: RingId)
    requires c.depth > 0 && t < |ts| && RingSafe(c, g, ts, loc, r) && SameContents(g, g')
    requires !HoldsPut(ts[t].pc, r) && !HoldsTake(ts[t].pc, r)
    requires !HoldsPut(th.pc, r) && !HoldsTake(th.pc, r)
    requires th.pc.PutTicket? && th.pc.r == r ==> th.pc.m in th.hand
    requires r in c.soleTaker && Taking(th.pc, r) ==> c.soleTaker[r] == t
    requires r in c.solePutter && Putting(th.pc, r) ==> c.solePutter[r] == t
    ensures RingSafe(c, g', ts[t := th], loc, r)
  {
    TicketsFrame(c.depth, g, g', ts, t, th, r);
    SlotsFrame(c.depth, g, g', loc, r);
    PartedFrame(c.depth, g, g');
    var ts' := ts[t := th];
    forall u | 0 <= u < |ts'| ensures Worker(c, g', ts'[u], u, r) {
      if u != t {
        WorkerFrame(c, g, g', ts[u], u, r);
      }
    }
  }

  predicate CallAllowed(c: Config, th: Thread, t: nat, call: Call) {
    th.pc.Idle? ==>
      match call
      case Take(r, _) => r in c.soleTaker ==> c.soleTaker[r] == t
      case Put(r, m) => m in th.hand && (r in c.solePutter ==> c.solePutter[r] == t)
  }

  lemma QuietPcs(c: Config, g: Ring, ts: seq<Thread>, loc: map<nat, Loc>, t: nat, call: Call, r: RingId)
    requires c.depth > 0 && t < |ts| && Ready(g, ts[t].pc) && RingSafe(c, g, ts, loc, r)
    requires r == RingOf(ts[t].pc, call) && !HoldsPut(ts[t].pc, r) && !HoldsTake(ts[t].pc, r)
    requires !ts[t].pc.PutTicket? && !ts[t].pc.TakeTicket?
    requires CallAllowed(c, ts[t], t, call)
    ensures var e := Act(c.depth, g, ts[t], loc, t, call);
            && e.hand == ts[t].hand && e.loc == loc
            && RingSafe(c, e.ring, ts[t := Thread(e.pc, e.hand)], loc, r)
  {
    var e := Act(c.depth, g, ts[t], loc, t, call);
    assert Worker(c, g, ts[t], t, r);
    QuietStep(c, g, e.ring, ts, loc, t, Thread(e.pc, e.hand), r);
  }

  // ---------------------------------------------------------------- drawing tickets

  function DrawTake(g: Ring, t: nat): Ring {
    g.(takePos := (g.takePos + 1) % WORD, taker := g.taker + [t])
  }

  function DrawPut(g: Ring, t: nat, m: nat): Ring {
    g.(putPos := (g.putPos + 1) % WORD, msgs := g.msgs + [m], putter := g.putter + [t])
  }

  lemma DrawTakeTickets(c: Config, g: Ring, ts: seq<Thread>, t: nat, th: Thread, r: RingId)
    requires t < |ts| && Tickets(c.depth, g, ts, r) && !HoldsPut(ts[t].pc, r) && !HoldsTake(ts[t].pc, r)
    requires HoldsTake(th.pc, r) && th.pc.k == |g.taker|
    ensures Tickets(c.depth, DrawTake(g, t), ts[t := th], r)
  {
  }

  lemma DrawTakeWorker(c: Config, g: Ring, t: nat, u: nat, th: Thread, r: RingId)
    requires c.depth > 0 && u != t && Worker(c, g, th, u, r)
    requires r in c.soleTaker ==> c.soleTaker[r] == t
    ensures Worker(c, DrawTake(g, t), th, u, r)
  {
  }

  lemma DrawTakeParted(depth: nat, g: Ring, t: nat)
    requires depth > 0 && Parted(depth, g)
    requires forall j: nat :: !SameSlot(depth, g, j, |g.taker|)
    ensures Parted(depth, DrawTake(g, t))
  {
    forall j: nat, k: nat | SameSlot(depth, DrawTake(g, t), j, k)
      ensures j in g.stored && k !in g.stored && k > |g.taker|
    {
      assert SameSlot(depth, g, j, k);
    }
  }

  lemma TakeTicketSafe(c: Config, g: Ring, ts: seq<Thread>, loc: map<nat, Loc>, t: nat, call: Call)
    requires ValidConfig(c) && t < |ts| == c.threads && ts[t].pc.TakeTicket? && Guarded(c, ts[t].pc.r)
    requires RingSafe(c, g, ts, loc, ts[t].pc.r) && Hands(c.depth, ts, loc) && CountInv(g, ts, ts[t].pc.r)
    ensures var e := Act(c.depth, g, ts[t], loc, t, call);
            && e.hand == ts[t].hand && e.loc == loc
            && RingSafe(c, e.ring, ts[t := Thread(e.pc, e.hand)], loc, ts[t].pc.r)
  {
    var r := ts[t].pc.r;
    var e := Act(c.depth, g, ts[t], loc, t, call);
    var ts' := ts[t := Thread(e.pc, e.hand)];
    assert Worker(c, g, ts[t], t, r);
    Arith.WrapMod(|g.taker|, WORD, c.depth);
    DrawTakeTickets(c, g, ts, t, Thread(e.pc, e.hand), r);
    forall j: nat ensures !SameSlot(c.depth, g, j, |g.taker|) {
      TakeDraw(c, g, ts, loc, t, r, j);
    }
    DrawTakeParted(c.depth, g, t);
    forall u | 0 <= u < |ts'| ensures Worker(c, e.ring, ts'[u], u, r) {
      if u != t {
        DrawTakeWorker(c, g, t, u, ts[u], r);
      }
    }
  }

  lemma DrawPutTickets(c: Config, g: Ring, ts: seq<Thread>, t: nat, m: nat, th: Thread, r: RingId)
    requires t < |ts| && Tickets(c.depth, g, ts, r) && !HoldsPut(ts[t].pc, r) && !HoldsTake(ts[t].pc, r)
    requires HoldsPut(th.pc, r) && th.pc.k == |g.msgs|
    ensures Tickets(c.depth, DrawPut(g, t, m), ts[t := th], r)
  {
  }

  lemma DrawPutWorker(c: Config, g: Ring, t: nat, m: nat, u: nat, th: Thread, r: RingId)
    requires c.depth > 0 && u != t && Worker(c, g, th, u, r)
    requires r in c.solePutter ==> c.solePutter[r] == t
    ensures Worker(c, DrawPut(g, t, m), th, u, r)
  {
  }

  /** The message leaves the putter's hands and becomes the ticket's. */
  lemma DrawPutLocated(c: Config, g: Ring, ts: seq<Thread>, loc: map<nat, Loc>, t: nat, m: nat, r: RingId)
    requires c.depth > 0 && t < |ts| && m in ts[t].hand
    requires Slots(c.depth, g, loc, r) && Located(g, loc, r) && Hands(c.depth, ts, loc) && Tickets(c.depth, g, ts, r)
    ensures var loc' := loc[m := InRing(r, |g.msgs|)];
            && Slots(c.depth, DrawPut(g, t, m), loc', r) && Located(DrawPut(g, t, m), loc', r)
  {
    assert loc[m] == InHand(t);
  }

  lemma DrawPutHands(c: Config, ts: seq<Thread>, loc: map<nat, Loc>, t: nat, th: Thread, m: nat, r: RingId, k: nat)
    requires t < |ts| && m in ts[t].hand && Hands(c.depth, ts, loc) && th.hand == ts[t].hand - {m}
    ensures Hands(c.depth, ts[t := th], loc[m := InRing(r, k)])
  {
    assert loc[m] == InHand(t);
  }

  /** The counter gives slot `ticket % depth`, however often it has wrapped. */
  lemma PutPosition(depth: nat, g: Ring, ts: seq<Thread>, r: RingId)
    requires depth > 0 && WORD % depth == 0 && Tickets(depth, g, ts, r)
    ensures g.putPos % depth == |g.msgs| % depth
  {
    var b := Base(depth, r);
    Arith.WrapMod(|g.msgs| - b, WORD, depth);
    Arith.ModShift(|g.msgs| - b, if r == Freelist then 1 else 0, depth);
  }

  lemma DrawPutParted(depth: nat, g: Ring, ts: seq<Thread>, t: nat, m: nat, r: RingId)
    requires depth > 0 && Parted(depth, g) && Tickets(depth, g, ts, r) && CountInv(g, ts, r)
    requires forall j :: 0 <= j < |g.msgs| && j !in g.results && j % depth == |g.msgs| % depth ==> j in g.stored
    ensures Parted(depth, DrawPut(g, t, m))
  {
    forall j: nat, k: nat | SameSlot(depth, DrawPut(g, t, m), j, k)
      ensures j in g.stored && k !in g.stored && k >= |g.taker|
    {
      assert k < |g.msgs| ==> SameSlot(depth, g, j, k);
    }
  }

  lemma PutTicketSafe(c: Config, g: Ring, ts: seq<Thread>, loc: map<nat, Loc>, t: nat, call: Call)
    requires ValidConfig(c) && t < |ts| == c.threads && ts[t].pc.PutTicket? && Guarded(c, ts[t].pc.r)
    requires RingSafe(c, g, ts, loc, ts[t].pc.r) && Hands(c.depth, ts, loc) && CountInv(g, ts, ts[t].pc.r)
    ensures var e := Act(c.depth, g, ts[t], loc, t, call);
            && RingSafe(c, e.ring, ts[t := Thread(e.pc, e.hand)], e.loc, ts[t].pc.r)
            && Hands(c.depth, ts[t := Thread(e.pc, e.hand)], e.loc)
  {
    var r := ts[t].pc.r;
    var e := Act(c.depth, g, ts[t], loc, t, call);
    var ts' := ts[t := Thread(e.pc, e.hand)];
    assert Worker(c, g, ts[t], t, r);
    PutPosition(c.depth, g, ts, r);
    DrawPutTickets(c, g, ts, t, ts[t].pc.m, Thread(e.pc, e.hand), r);
    DrawPutLocated(c, g, ts, loc, t, ts[t].pc.m, r);
    forall j | 0 <= j < |g.msgs| && j !in g.results && j % c.depth == |g.msgs| % c.depth ensures j in g.stored {
      PutDraw(c, g, ts, loc, t, r, j);
    }
    DrawPutParted(c.depth, g, ts, t, ts[t].pc.m, r);
    DrawPutHands(c, ts, loc, t, Thread(e.pc, e.hand), ts[t].pc.m, r, |g.msgs|);
    forall u | 0 <= u < |ts'| ensures Worker(c, e.ring, ts'[u], u, r) {
      if u != t {
        DrawPutWorker(c, g, t, ts[t].pc.m, u, ts[u], r);
      }
    }
  }

  // ---------------------------------------------------------------- slot tests

  /** A taker that finds its slot full has found its own message: the slot has
      been filled under the put ticket with the same number. */
  lemma TakeReads(c: Config, g: Ring, ts: seq<Thread>, loc: map<nat, Loc>, t: nat, r: RingId)
    requires c.depth > 0 && t < |ts| && ts[t].pc.TakeSpin? && ts[t].pc.r == r
    requires RingSafe(c, g, ts, loc, r) && Hands(c.depth, ts, loc) && CountInv(g, ts, r)
    requires ts[t].pc.pos < |g.slots| && g.slots[ts[t].pc.pos].Some?
    ensures var k := ts[t].pc.k; k in g.stored && g.slots[ts[t].pc.pos].value == g.msgs[k]
  {
    var k := ts[t].pc.k;
    assert Worker(c, g, ts[t], t, r);
    var j := loc[g.slots[ts[t].pc.pos].value].k;
    assert j < k ==> SameSlot(c.depth, g, j, k);
    assert k < j ==> SameSlot(c.depth, g, k, j);
  }

  /** A thread keeping its ticket from the test to the store or clear. */
  lemma TestedTickets(depth: nat, g: Ring, ts: seq<Thread>, t: nat, th: Thread, r: RingId)
    requires t < |ts| && Tickets(depth, g, ts, r)
    requires HoldsPut(th.pc, r) == HoldsPut(ts[t].pc, r) && HoldsTake(th.pc, r) == HoldsTake(ts[t].pc, r)
    requires HoldsPut(th.pc, r) || HoldsTake(th.pc, r) ==> th.pc.k == ts[t].pc.k
    ensures Tickets(depth, g, ts[t := th], r)
  {
  }

  lemma SpinSafe(c: Config, g: Ring, ts: seq<Thread>, loc: map<nat, Loc>, t: nat, call: Call)
    requires ValidConfig(c) && t < |ts| && (ts[t].pc.TakeSpin? || ts[t].pc.PutSpin?) && Ready(g, ts[t].pc)
    requires RingSafe(c, g, ts, loc, ts[t].pc.r) && Hands(c.depth, ts, loc) && CountInv(g, ts, ts[t].pc.r)
    ensures var e := Act(c.depth, g, ts[t], loc, t, call);
            && e.hand == ts[t].hand && e.loc == loc
            && RingSafe(c, e.ring, ts[t := Thread(e.pc, e.hand)], loc, ts[t].pc.r)
  {
    var r := ts[t].pc.r;
    var e := Act(c.depth, g, ts[t], loc, t, call);
    var ts' := ts[t := Thread(e.pc, e.hand)];
    assert Worker(c, g, ts[t], t, r);
    if ts[t].pc.TakeSpin? && g.slots[ts[t].pc.pos].Some? {
      TakeReads(c, g, ts, loc, t, r);
    }
    TestedTickets(c.depth, g, ts, t, Thread(e.pc, e.hand), r);
    forall u | 0 <= u < |ts'| ensures Worker(c, e.ring, ts'[u], u, r) {
      if u != t {
        assert Worker(c, g, ts[u], u, r);
      }
    }
  }

  // ---------------------------------------------------------------- storing

  function Fill(g: Ring, m: nat, pos: nat, k: nat): Ring
    requires pos < |g.slots|
  {
    g.(slots := g.slots[pos := Some(m)], stored := g.stored + {k})
  }

  /** No other thread is about to store into the slot of a live put ticket. */
  lemma PuttersApart(c: Config, g: Ring, ts: seq<Thread>, loc: map<nat, Loc>, t: nat, u: nat, r: RingId)
    requires c.depth > 0 && RingSafe(c, g, ts, loc, r)
    requires t < |ts| && u < |ts| && t != u && HoldsPut(ts[t].pc, r) && HoldsPut(ts[u].pc, r)
    ensures ts[t].pc.pos != ts[u].pc.pos && ts[t].pc.k != ts[u].pc.k
  {
    assert Worker(c, g, ts[t], t, r) && Worker(c, g, ts[u], u, r);
    var j, k := ts[t].pc.k, ts[u].pc.k;
    assert !SameSlot(c.depth, g, j, k) && !SameSlot(c.depth, g, k, j);
  }

  lemma FillSlots(c: Config, g: Ring, loc: map<nat, Loc>, m: nat, pos: nat, k: nat, r: RingId)
    requires c.depth > 0 && Slots(c.depth, g, loc, r) && Located(g, loc, r)
    requires pos < |g.slots| && g.slots[pos].None? && k < |g.msgs| && k !in g.results
    requires g.msgs[k] == m && pos == k % c.depth
    ensures Slots(c.depth, Fill(g, m, pos, k), loc, r) && Located(Fill(g, m, pos, k), loc, r)
  {
  }

  lemma FillTickets(c: Config, g: Ring, ts: seq<Thread>, t: nat, th: Thread, r: RingId)
    requires t < |ts| && Tickets(c.depth, g, ts, r) && HoldsPut(ts[t].pc, r) && ts[t].pc.pos < |g.slots|
    requires ts[t].pc.k < |g.msgs|
    ensures Tickets(c.depth, Fill(g, ts[t].pc.m, ts[t].pc.pos, ts[t].pc.k), ts[t := th], r)
  {
  }

  /** The slot was empty, so no stored ticket is on it. */
  lemma FillParted(c: Config, g: Ring, loc: map<nat, Loc>, m: nat, pos: nat, k: nat, r: RingId)
    requires c.depth > 0 && Slots(c.depth, g, loc, r) && Parted(c.depth, g)
    requires pos < |g.slots| && g.slots[pos].None? && pos == k % c.depth && k !in g.stored
    ensures Parted(c.depth, Fill(g, m, pos, k))
  {
    forall i: nat, j: nat | SameSlot(c.depth, Fill(g, m, pos, k), i, j)
      ensures i in g.stored && j !in g.stored && j >= |g.taker| && j != k
    {
      assert SameSlot(c.depth, g, i, j);
    }
  }

  lemma PutStoreSafe(c: Config, g: Ring, ts: seq<Thread>, loc: map<nat, Loc>, t: nat, call: Call)
    requires ValidConfig(c) && t < |ts| && ts[t].pc.PutStore? && Ready(g, ts[t].pc)
    requires RingSafe(c, g, ts, loc, ts[t].pc.r) && Hands(c.depth, ts, loc) && CountInv(g, ts, ts[t].pc.r)
    ensures var e := Act(c.depth, g, ts[t], loc, t, call);
            && e.hand == ts[t].hand && e.loc == loc
            && RingSafe(c, e.ring, ts[t := Thread(e.pc, e.hand)], loc, ts[t].pc.r)
  {
    var pc, r := ts[t].pc, ts[t].pc.r;
    var e := Act(c.depth, g, ts[t], loc, t, call);
    var ts' := ts[t := Thread(e.pc, e.hand)];
    assert Worker(c, g, ts[t], t, r);
    FillSlots(c, g, loc, pc.m, pc.pos, pc.k, r);
    FillTickets(c, g, ts, t, Thread(e.pc, e.hand), r);
    FillParted(c, g, loc, pc.m, pc.pos, pc.k, r);
    forall u | 0 <= u < |ts'| ensures Worker(c, e.ring, ts'[u], u, r) {
      if u != t {
        assert Worker(c, g, ts[u], u, r);
        if HoldsPut(ts[u].pc, r) {
          PuttersApart(c, g, ts, loc, t, u, r);
        }
      }
    }
  }

  // ---------------------------------------------------------------- clearing

  function Drain(g: Ring, pos: nat, k: nat, rv: nat): Ring
    requires pos < |g.slots|
  {
    g.(slots := g.slots[pos := None], results := g.results[k := rv])
  }

  lemma DrainSlots(c: Config, g: Ring, loc: map<nat, Loc>, t: nat, pos: nat, k: nat, rv: nat, r: RingId)
    requires c.depth > 0 && Slots(c.depth, g, loc, r) && Located(g, loc, r)
    requires pos < |g.slots| && k in g.stored && k !in g.results && k < |g.msgs|
    requires g.msgs[k] == rv && pos == k % c.depth
    ensures Slots(c.depth, Drain(g, pos, k, rv), loc[rv := InHand(t)], r)
    ensures Located(Drain(g, pos, k, rv), loc[rv := InHand(t)], r)
  {
    assert loc[rv] == InRing(r, k);
  }

  lemma DrainTickets(c: Config, g: Ring, ts: seq<Thread>, t: nat, th: Thread, r: RingId)
    requires t < |ts| && Tickets(c.depth, g, ts, r) && ts[t].pc.TakeClear? && ts[t].pc.r == r
    requires ts[t].pc.pos < |g.slots| && ts[t].pc.k < |g.taker|
    requires ts[t].pc.k in g.stored && ts[t].pc.rv == g.msgs[ts[t].pc.k]
    ensures Tickets(c.depth, Drain(g, ts[t].pc.pos, ts[t].pc.k, ts[t].pc.rv), ts[t := th], r)
  {
  }

  lemma DrainHands(c: Config, g: Ring, ts: seq<Thread>, loc: map<nat, Loc>, t: nat, th: Thread, k: nat, rv: nat,
      r: RingId)
    requires t < |ts| && Hands(c.depth, ts, loc) && rv in loc && loc[rv] == InRing(r, k) && th.hand == ts[t].hand + {rv}
    ensures Hands(c.depth, ts[t := th], loc[rv := InHand(t)])
  {
  }

  lemma TakeClearSafe(c: Config, g: Ring, ts: seq<Thread>, loc: map<nat, Loc>, t: nat, call: Call)
    requires ValidConfig(c) && t < |ts| && ts[t].pc.TakeClear? && Ready(g, ts[t].pc)
    requires RingSafe(c, g, ts, loc, ts[t].pc.r) && Hands(c.depth, ts, loc)
    ensures var e := Act(c.depth, g, ts[t], loc, t, call);
            && RingSafe(c, e.ring, ts[t := Thread(e.pc, e.hand)], e.loc, ts[t].pc.r)
            && Hands(c.depth, ts[t := Thread(e.pc, e.hand)], e.loc)
  {
    var pc, r := ts[t].pc, ts[t].pc.r;
    var e := Act(c.depth, g, ts[t], loc, t, call);
    var ts' := ts[t := Thread(e.pc, e.hand)];
    assert Worker(c, g, ts[t], t, r);
    DrainSlots(c, g, loc, t, pc.pos, pc.k, pc.rv, r);
    DrainTickets(c, g, ts, t, Thread(e.pc, e.hand), r);
    DrainHands(c, g, ts, loc, t, Thread(e.pc, e.hand), pc.k, pc.rv, r);
    PartedFrame(c.depth, g, e.ring);
    forall u | 0 <= u < |ts'| ensures Worker(c, e.ring, ts'[u], u, r) {
      if u != t {
        assert Worker(c, g, ts[u], u, r);
      }
    }
  }

  // ---------------------------------------------------------------- whole steps

  /** One message changed place; ring r is not involved. */
  predicate MovedElsewhere(loc: map<nat, Loc>, loc': map<nat, Loc>, r: RingId) {
    || loc' == loc
    || exists b :: b in loc && b in loc' && loc' == loc[b := loc'[b]]
         && (loc[b].InRing? ==> loc[b].r != r) && (loc'[b].InRing? ==> loc'[b].r != r)
  }

  lemma MovedFrame(c: Config, g: Ring, loc: map<nat, Loc>, loc': map<nat, Loc>, r: RingId)
    requires c.depth > 0 && Slots(c.depth, g, loc, r) && Located(g, loc, r) && MovedElsewhere(loc, loc', r)
    ensures Slots(c.depth, g, loc', r) && Located(g, loc', r)
  {
  }

  lemma HandsFrame(depth: nat, ts: seq<Thread>, loc: map<nat, Loc>, t: nat, th: Thread)
    requires t < |ts| && Hands(depth, ts, loc) && th.hand == ts[t].hand
    ensures Hands(depth, ts[t := th], loc)
  {
  }

  /** Steps that move no message between a thread and the ring. */
  lemma StillSafe(c: Config, g: Ring, ts: seq<Thread>, loc: map<nat, Loc>, t: nat, call: Call, r: RingId)
    requires ValidConfig(c) && t < |ts| && Ready(g, ts[t].pc) && r == RingOf(ts[t].pc, call)
    requires CallAllowed(c, ts[t], t, call) && !ts[t].pc.PutTicket? && !ts[t].pc.TakeClear?
    requires RingSafe(c, g, ts, loc, r) && Hands(c.depth, ts, loc) && CountInv(g, ts, r)
    requires |ts| == c.threads && Guarded(c, r)
    ensures var e := Act(c.depth, g, ts[t], loc, t, call);
            && e.hand == ts[t].hand && e.loc == loc
            && RingSafe(c, e.ring, ts[t := Thread(e.pc, e.hand)], loc, r)
  {
    if ts[t].pc.TakeTicket? {
      TakeTicketSafe(c, g, ts, loc, t, call);
    } else if ts[t].pc.TakeSpin? || ts[t].pc.PutSpin? {
      SpinSafe(c, g, ts, loc, t, call);
    } else if ts[t].pc.PutStore? {
      PutStoreSafe(c, g, ts, loc, t, call);
    } else {
      QuietPcs(c, g, ts, loc, t, call, r);
    }
  }

  /** What a step does to its own ring and to the hands. */
  lemma ActSafe(c: Config, g: Ring, ts: seq<Thread>, loc: map<nat, Loc>, t: nat, call: Call, r: RingId)
    requires ValidConfig(c) && t < |ts| && Ready(g, ts[t].pc) && r == RingOf(ts[t].pc, call)
    requires CallAllowed(c, ts[t], t, call)
    requires RingSafe(c, g, ts, loc, r) && Hands(c.depth, ts, loc) && CountInv(g, ts, r)
    requires |ts| == c.threads && Guarded(c, r)
    ensures var e := Act(c.depth, g, ts[t], loc, t, call);
            && RingSafe(c, e.ring, ts[t := Thread(e.pc, e.hand)], e.loc, r)
            && Hands(c.depth, ts[t := Thread(e.pc, e.hand)], e.loc)
  {
    if ts[t].pc.PutTicket? {
      PutTicketSafe(c, g, ts, loc, t, call);
    } else if ts[t].pc.TakeClear? {
      TakeClearSafe(c, g, ts, loc, t, call);
    } else {
      StillSafe(c, g, ts, loc, t, call, r);
      var e := Act(c.depth, g, ts[t], loc, t, call);
      HandsFrame(c.depth, ts, loc, t, Thread(e.pc, e.hand));
    }
  }

  lemma ActMoves(c: Config, g: Ring, ts: seq<Thread>, loc: map<nat, Loc>, t: nat, call: Call, r: RingId, r': RingId)
    requires c.depth > 0 && t < |ts| && Ready(g, ts[t].pc) && r == RingOf(ts[t].pc, call) && r' != r
    requires RingSafe(c, g, ts, loc, r) && Hands(c.depth, ts, loc)
    ensures var e := Act(c.depth, g, ts[t], loc, t, call);
            && MovedElsewhere(loc, e.loc, r')
            && (e.pc.Idle? || e.pc.r == r)
  {
    assert Worker(c, g, ts[t], t, r);
    var e := Act(c.depth, g, ts[t], loc, t, call);
    if ts[t].pc.PutTicket? {
      assert loc[ts[t].pc.m] == InHand(t);
      assert e.loc == loc[ts[t].pc.m := e.loc[ts[t].pc.m]];
    } else if ts[t].pc.TakeClear? {
      assert loc[ts[t].pc.rv] == InRing(r, ts[t].pc.k);
      assert e.loc == loc[ts[t].pc.rv := e.loc[ts[t].pc.rv]];
    }
  }

  lemma OtherRingSafe(c: Config, g: Ring, ts: seq<Thread>, loc: map<nat, Loc>, loc': map<nat, Loc>, t: nat,
      th: Thread, r: RingId)
    requires c.depth > 0 && t < |ts| && RingSafe(c, g, ts, loc, r) && MovedElsewhere(loc, loc', r)
    requires ts[t].pc.Idle? || ts[t].pc.r != r
    requires th.pc.Idle? || th.pc.r != r
    ensures RingSafe(c, g, ts[t := th], loc', r)
  {
    QuietStep(c, g, g, ts, loc, t, th, r);
    MovedFrame(c, g, loc, loc', r);
  }

  lemma StepSafe(c: Config, s: State, t: nat, call: Call)
    requires ValidConfig(c) && (forall r: RingId :: Guarded(c, r)) && Enabled(c, s, t, call) && Safe(c, s)
    ensures Safe(c, Step(c, s, t, call))
  {
    var ts, r := s.threads, RingOf(s.threads[t].pc, call);
    var e, s' := EffectOf(c, s, t, call), Step(c, s, t, call);
    assert RingSafe(c, Rg(s, r), ts, s.loc, r) && CountInv(Rg(s, r), ts, r);
    ActSafe(c, Rg(s, r), ts, s.loc, t, call, r);
    forall r': RingId ensures RingSafe(c, Rg(s', r'), s'.threads, s'.loc, r') {
      if r' != r {
        ActMoves(c, Rg(s, r), ts, s.loc, t, call, r, r');
        assert RingSafe(c, Rg(s, r'), ts, s.loc, r');
        OtherRingSafe(c, Rg(s, r'), ts, s.loc, s'.loc, t, s'.threads[t], r');
      }
    }
    StepSafeCount(c, s, t, call);
  }

  lemma StepSafeCount(c: Config, s: State, t: nat, call: Call)
    requires c.depth > 0 && Enabled(c, s, t, call)
    requires forall r: RingId :: CountInv(Rg(s, r), s.threads, r)
    ensures forall r: RingId :: CountInv(Rg(Step(c, s, t, call), r), Step(c, s, t, call).threads, r)
  {
    var r, s' := RingOf(s.threads[t].pc, call), Step(c, s, t, call);
    assert CountInv(Rg(s, r), s.threads, r);
    ActKeepsCount(c.depth, Rg(s, r), s.threads, s.loc, t, call);
    forall r': RingId ensures CountInv(Rg(s', r'), s'.threads, r') {
      if r' != r {
        forall kind ensures Tally(s'.threads, r', kind) == Tally(s.threads, r', kind) {
          ActKeepsOther(c.depth, Rg(s, r), s.threads, s.loc, t, call, r', kind);
        }
        assert CountInv(Rg(s, r'), s.threads, r');
      }
    }
  }

  lemma FullSlots(depth: nat, loc: map<nat, Loc>)
    requires depth > 0 && loc == map b | 0 <= b < depth :: InRing(Freelist, b)
    ensures Slots(depth, FullRing(depth), loc, Freelist)
  {
    forall k: nat | k < depth ensures k % depth == k {
      Arith.SmallMod(k, depth);
    }
  }

  lemma IdleSafe(c: Config, g: Ring, ts: seq<Thread>, loc: map<nat, Loc>, r: RingId)
    requires c.depth > 0 && Tickets(c.depth, g, ts, r) && Slots(c.depth, g, loc, r) && Located(g, loc, r)
    requires forall t :: 0 <= t < |ts| ==> ts[t].pc.Idle?
    ensures RingSafe(c, g, ts, loc, r)
  {
  }

  lemma FullRingSafe(c: Config)
    requires c.depth > 0
    ensures RingSafe(c, FullRing(c.depth), Init(c).threads, Init(c).loc, Freelist)
  {
    FullSlots(c.depth, Init(c).loc);
    IdleSafe(c, FullRing(c.depth), Init(c).threads, Init(c).loc, Freelist);
  }

  lemma EmptyRingSafe(c: Config)
    requires c.depth > 0
    ensures RingSafe(c, EmptyRing(c.depth), Init(c).threads, Init(c).loc, Queue)
  {
    IdleSafe(c, EmptyRing(c.depth), Init(c).threads, Init(c).loc, Queue);
  }

  lemma InitSafe(c: Config)
    requires c.depth > 0
    ensures Safe(c, Init(c))
  {
    FullRingSafe(c);
    EmptyRingSafe(c);
    InitCounters(c);
    forall r: RingId
      ensures RingSafe(c, Rg(Init(c), r), Init(c).threads, Init(c).loc, r)
      ensures CountInv(Rg(Init(c), r), Init(c).threads, r)
    {
    }
  }

  lemma {:induction false} RunSafe(c: Config, run: seq<State>, choices: seq<Choice>, i: nat)
    requires ValidConfig(c) && IsRun(c, run, choices) && i < |run| && forall r: RingId :: Guarded(c, r)
    ensures Safe(c, run[i])
    decreases i
  {
    if i == 0 {
      InitSafe(c);
    } else {
      RunSafe(c, run, choices, i - 1);
      StepSafe(c, run[i - 1], choices[i - 1].t, choices[i - 1].call);
    }
  }

  // ---------------------------------------------------------------- results

  /** Where a block can be: in a slot, held by a thread, or on its way from a
      thread that has drawn a put ticket to its slot. */
  datatype Place = InSlot(r: RingId, i: nat) | Held(t: nat) | InTransit(t: nat)

  predicate At(s: State, p: Place, b: nat) {
    match p
    case InSlot(r, i) => i < |Rg(s, r).slots| && Rg(s, r).slots[i] == Some(b)
    case Held(t) => t < |s.threads| && b in s.threads[t].hand
    case InTransit(t) =>
      && t < |s.threads| && (s.threads[t].pc.PutSpin? || s.threads[t].pc.PutStore?) && s.threads[t].pc.m == b
  }

  /** Ownership.  In every reachable state of every interleaving, each of the
      `depth` blocks is in exactly one place, and nothing else is anywhere. */
  lemma EachBlockInOnePlace(c: Config, run: seq<State>, choices: seq<Choice>, i: nat, b: nat)
    requires ValidConfig(c) && IsRun(c, run, choices) && i < |run| && forall r: RingId :: Guarded(c, r)
    ensures b < c.depth ==> exists p :: At(run[i], p, b)
    ensures forall p, q :: At(run[i], p, b) && At(run[i], q, b) ==> p == q
    ensures forall p :: At(run[i], p, b) ==> b < c.depth
  {
    var s := run[i];
    RunSafe(c, run, choices, i);
    forall p | At(s, p, b) ensures b in s.loc && p == PlaceOf(c, s, b) {
      AtIsPlaceOf(c, s, p, b);
    }
    if b < c.depth {
      PlaceOfIsAt(c, s, b);
    }
  }

  function PlaceOf(c: Config, s: State, b: nat): Place
    requires c.depth > 0 && b in s.loc
  {
    match s.loc[b]
    case InHand(t) => Held(t)
    case InRing(r, k) =>
      if k in Rg(s, r).stored || k >= |Rg(s, r).putter| then InSlot(r, k % c.depth) else InTransit(Rg(s, r).putter[k])
  }

  lemma AtIsPlaceOf(c: Config, s: State, p: Place, b: nat)
    requires c.depth > 0 && Safe(c, s) && At(s, p, b)
    ensures b in s.loc && p == PlaceOf(c, s, b)
  {
    match p
    case InSlot(r, i) => assert RingSafe(c, Rg(s, r), s.threads, s.loc, r);
    case Held(t) =>
    case InTransit(t) =>
      var r := s.threads[t].pc.r;
      assert RingSafe(c, Rg(s, r), s.threads, s.loc, r);
      assert Worker(c, Rg(s, r), s.threads[t], t, r);
  }

  lemma PlaceOfIsAt(c: Config, s: State, b: nat)
    requires c.depth > 0 && Safe(c, s) && b < c.depth
    ensures b in s.loc && At(s, PlaceOf(c, s, b), b)
  {
    if s.loc[b].InRing? {
      var r, k := s.loc[b].r, s.loc[b].k;
      assert RingSafe(c, Rg(s, r), s.threads, s.loc, r);
      if k !in Rg(s, r).stored {
        var t := Rg(s, r).putter[k];
        assert Worker(c, Rg(s, r), s.threads[t], t, r);
      }
    }
  }

  /** FIFO.  In every reachable state of every interleaving, the k-th take
      ticket of a ring returned, if it has returned, the message put under the
      k-th put ticket, and no two takers or two putters are on one slot. */
  lemma Fifo(c: Config, run: seq<State>, choices: seq<Choice>, i: nat, r: RingId)
    requires ValidConfig(c) && IsRun(c, run, choices) && i < |run| && forall r: RingId :: Guarded(c, r)
    ensures var g := Rg(run[i], r);
            forall k :: k in g.results ==> k < |g.taker| && k < |g.msgs| && g.results[k] == g.msgs[k]
    ensures var ts := run[i].threads;
            forall t, u :: 0 <= t < u < |ts| ==>
              !(HoldsPut(ts[t].pc, r) && HoldsPut(ts[u].pc, r) && ts[t].pc.pos == ts[u].pc.pos)
    ensures var ts := run[i].threads;
            forall t, u :: 0 <= t < u < |ts| ==>
              !(HoldsTake(ts[t].pc, r) && HoldsTake(ts[u].pc, r) && ts[t].pc.pos == ts[u].pc.pos)
  {
    RunSafe(c, run, choices, i);
    var s := run[i];
    var g, ts, loc := Rg(s, r), s.threads, s.loc;
    assert RingSafe(c, g, ts, loc, r) && CountInv(g, ts, r);
    forall t, u | 0 <= t < u < |ts| && HoldsPut(ts[t].pc, r) && HoldsPut(ts[u].pc, r)
      ensures ts[t].pc.pos != ts[u].pc.pos
    {
      PuttersApart(c, g, ts, loc, t, u, r);
    }
    forall t, u | 0 <= t < u < |ts| && HoldsTake(ts[t].pc, r) && HoldsTake(ts[u].pc, r)
      ensures ts[t].pc.pos != ts[u].pc.pos
    {
      TakersApart(c, g, ts, loc, t, u, r);
    }
  }

  lemma TakersApart(c: Config, g: Ring, ts: seq<Thread>, loc: map<nat, Loc>, t: nat, u: nat, r: RingId)
    requires c.depth > 0 && RingSafe(c, g, ts, loc, r) && CountInv(g, ts, r)
    requires t < |ts| && u < |ts| && t != u && HoldsTake(ts[t].pc, r) && HoldsTake(ts[u].pc, r)
    ensures ts[t].pc.pos != ts[u].pc.pos
  {
    assert Worker(c, g, ts[t], t, r) && Worker(c, g, ts[u], u, r);
    var j, k := ts[t].pc.k, ts[u].pc.k;
    assert !SameSlot(c.depth, g, j, k) && !SameSlot(c.depth, g, k, j);
  }
}
