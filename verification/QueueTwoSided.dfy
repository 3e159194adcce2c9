/** Exactly when the message queue keeps its promise of ownership.  On a ring
    with several takers and several putters, three threads and a depth of at
    least three suffice to bring one message into two threads' hands. */
module QueueTwoSided {
  import opened Basics
  import opened QueueModel
  import opened QueueSafety
  import opened QueueRuns
  import Arith

  /** In no reachable state is a block in two places. */
  ghost predicate Owned(c: Config) {
    forall s, b, p, q :: Reachable(c, s) && At(s, p, b) && At(s, q, b) ==> p == q
  }

  /** In every reachable state, what a take ticket has returned is the message
      put under the put ticket of the same number. */
  ghost predicate InOrder(c: Config) {
    forall s, r, k :: Reachable(c, s) && k in Rg(s, r).results ==> MatchesPut(Rg(s, r), k)
  }

  predicate MatchesPut(g: Ring, k: nat)
    requires k in g.results
  {
    k < |g.msgs| && g.results[k] == g.msgs[k]
  }

  /** The thread allowed to allocate does not exist. */
  predicate NobodyAllocates(c: Config) {
    Freelist in c.soleTaker && c.soleTaker[Freelist] >= c.threads
  }

  // ---------------------------------------------------------------- a full ring

  /** Slots from lo up to hi hold the blocks of their own numbers, the others nothing. */
  predicate Holding(slots: seq<Option<nat>>, depth: nat, lo: nat, hi: nat) {
    && |slots| == depth
    && forall i :: 0 <= i < depth ==> slots[i] == if lo <= i < hi then Some(i) else None
  }

  /** Ring r holds every block, in order, and nothing is going on. */
  ghost predicate Full(c: Config, s: State, r: RingId)
    requires c.depth > 0
  {
    && AllIdle(c, s)
    && var g := Rg(s, r);
       && Holding(g.slots, c.depth, 0, c.depth) && g.count == c.depth && g.blocked == 0
       && g.takePos % c.depth == 0 && g.putPos % c.depth == 0 && |g.msgs| == c.depth && |g.taker| == 0
  }

  /** Thread t has carried the first i blocks from the freelist to the queue. */
  ghost predicate Carried(c: Config, s: State, i: nat)
    requires c.depth > 0
  {
    && AllIdle(c, s)
    && var f, q := s.freelist, s.queue;
       && Holding(f.slots, c.depth, i, c.depth) && f.count == c.depth - i && f.takePos % c.depth == i % c.depth
       && Holding(q.slots, c.depth, 0, i) && q.count == i && q.putPos % c.depth == i % c.depth
       && q.takePos % c.depth == 0 && q.blocked == 0 && |q.msgs| == i && |q.taker| == 0
  }

  lemma CarryOne(c: Config, s: State, t: nat, i: nat) returns (s': State)
    requires ValidConfig(c) && Reachable(c, s) && Carried(c, s, i) && i < c.depth
    requires t < c.threads && MayTake(c, t, Freelist) && MayPut(c, t, Queue)
    ensures Reachable(c, s') && Carried(c, s', i + 1)
  {
    Arith.SmallMod(i, c.depth);
    var s1 := TakeOne(c, s, t, Freelist, i);
    s' := PutOne(c, s1, t, Queue, i);
  }

  lemma {:induction false} Carry(c: Config, t: nat, i: nat) returns (s: State)
    requires ValidConfig(c) && i <= c.depth
    requires t < c.threads && MayTake(c, t, Freelist) && MayPut(c, t, Queue)
    ensures Reachable(c, s) && Carried(c, s, i)
  {
    if i == 0 {
      InitReachable(c);
      s := Init(c);
    } else {
      s := Carry(c, t, i - 1);
      s := CarryOne(c, s, t, i - 1);
    }
  }

  lemma FillRing(c: Config, r: RingId) returns (s: State)
    requires ValidConfig(c) && 0 < c.threads && r !in c.solePutter && !(r == Queue && NobodyAllocates(c))
    ensures Reachable(c, s) && Full(c, s, r)
  {
    if r == Freelist {
      InitReachable(c);
      s := Init(c);
    } else {
      s := Carry(c, if Freelist in c.soleTaker then c.soleTaker[Freelist] else 0, c.depth);
    }
  }

  // ---------------------------------------------------------------- the overtaking

  /** Thread 0 has read block 0 and not cleared its slot; thread 1 holds block 1
      and thread 2 the blocks from 2 up to i. */
  ghost predicate Stopped(c: Config, s: State, r: RingId, i: nat)
    requires c.depth > 0
  {
    && |s.threads| == c.threads >= 3
    && (var pc := s.threads[0].pc; pc.TakeClear? && pc.r == r && pc.mode == Try && pc.pos == 0 && pc.rv == 0)
    && s.threads[0].pc.k == 0 && s.threads[1].pc.Idle? && (1 < i ==> 1 in s.threads[1].hand)
    && s.threads[2].pc.Idle? && (forall b :: 2 <= b < i ==> b in s.threads[2].hand)
    && var g := Rg(s, r);
       && |g.slots| == c.depth && g.slots[0] == Some(0)
       && (forall k :: 1 <= k < c.depth ==> g.slots[k] == if k < i then None else Some(k))
       && g.count == c.depth - i && g.blocked == 0
       && g.takePos % c.depth == i % c.depth && g.putPos % c.depth == 0 && |g.msgs| == c.depth && |g.taker| == i
  }

  lemma StopFirst(c: Config, r: RingId) returns (s: State)
    requires ValidConfig(c) && c.depth > 2 && c.threads > 2 && r !in c.soleTaker && r !in c.solePutter
    requires !(r == Queue && NobodyAllocates(c))
    ensures Reachable(c, s) && Stopped(c, s, r, 1)
  {
    s := FillRing(c, r);
    s := TakeToClear(c, s, 0, r);
  }

  lemma {:induction false} StopAll(c: Config, r: RingId, i: nat) returns (s: State)
    requires ValidConfig(c) && c.depth > 2 && c.threads > 2 && r !in c.soleTaker && r !in c.solePutter
    requires !(r == Queue && NobodyAllocates(c)) && 0 < i <= c.depth
    ensures Reachable(c, s) && Stopped(c, s, r, i)
  {
    if i == 1 {
      s := StopFirst(c, r);
    } else {
      s := StopAll(c, r, i - 1);
      Arith.SmallMod(i - 1, c.depth);
      s := TakeOne(c, s, if i == 2 then 1 else 2, r, i - 1);
    }
  }

  /** Thread 1 waits for slot 0 with the message of ticket `depth`, and thread 2
      has put a message past it. */
  lemma Overtake(c: Config, r: RingId) returns (s: State)
    requires ValidConfig(c) && c.depth > 2 && c.threads > 2 && r !in c.soleTaker && r !in c.solePutter
    requires !(r == Queue && NobodyAllocates(c))
    ensures Reachable(c, s) && |s.threads| == c.threads && s.threads[2].pc.Idle?
    ensures var pc := s.threads[0].pc; pc.TakeClear? && pc.r == r && pc.mode == Try && pc.pos == 0 && pc.rv == 0
    ensures s.threads[0].pc.k != c.depth
    ensures var g := Rg(s, r);
            && |g.slots| == c.depth && g.slots[0] == Some(0) && g.count > 0 && g.takePos % c.depth == 0
            && |g.taker| == c.depth < |g.msgs| && g.msgs[c.depth] == 1
  {
    s := StopAll(c, r, c.depth);
    Arith.SmallMod(1, c.depth);
    s := PutToTest(c, s, 1, r, 1);
    s := PutOne(c, s, 2, r, 2);
  }

  /** Ownership fails on every ring with several takers and putters, at every
      depth and number of threads from three up: thread 0 stops between reading
      and clearing slot 0, threads 1 and 2 take the other blocks, thread 1 draws
      the put ticket that wants slot 0 and waits there, thread 2 puts a message
      past it, and its next take ticket leads it to slot 0 again.  That ticket's
      message is block 1, but it returns block 0. */
  lemma TwoSidedFails(c: Config, r: RingId) returns (s: State)
    requires ValidConfig(c) && c.depth > 2 && c.threads > 2 && r !in c.soleTaker && r !in c.solePutter
    requires !(r == Queue && NobodyAllocates(c))
    ensures Reachable(c, s) && At(s, Held(0), 0) && At(s, Held(2), 0)
    ensures c.depth in Rg(s, r).results && !MatchesPut(Rg(s, r), c.depth)
  {
    s := Overtake(c, r);
    s := TakeOne(c, s, 2, r, 0);
    s := Clear(c, s, 0, r);
  }

  // ---------------------------------------------------------------- no allocation

  /** Without allocation the blocks stay where they were at the start. */
  ghost predicate Untouched(c: Config, s: State) {
    && |s.threads| == c.threads
    && Holding(s.freelist.slots, c.depth, 0, c.depth) && Holding(s.queue.slots, c.depth, 0, 0)
    && s.freelist.results == s.queue.results == map[]
    && forall t :: 0 <= t < |s.threads| ==> Unburdened(s.threads[t])
  }

  predicate Unburdened(th: Thread) {
    th.hand == {} && (th.pc.Idle? || (Taking(th.pc, Queue) && !th.pc.TakeClear?))
  }

  lemma StepUntouched(c: Config, s: State, t: nat, call: Call)
    requires c.depth > 0 && NobodyAllocates(c) && Untouched(c, s) && Enabled(c, s, t, call)
    ensures Untouched(c, Step(c, s, t, call))
  {
    assert Unburdened(s.threads[t]);
  }

  lemma {:induction false} RunUntouched(c: Config, run: seq<State>, choices: seq<Choice>, i: nat)
    requires IsRun(c, run, choices) && i < |run| && NobodyAllocates(c)
    ensures Untouched(c, run[i])
    decreases i
  {
    if i > 0 {
      RunUntouched(c, run, choices, i - 1);
      StepUntouched(c, run[i - 1], choices[i - 1].t, choices[i - 1].call);
    }
  }

  // ---------------------------------------------------------------- the condition

  lemma GuardedOwned(c: Config)
    requires ValidConfig(c) && forall r: RingId :: Guarded(c, r)
    ensures Owned(c) && InOrder(c)
  {
    forall s, r, k | Reachable(c, s) && k in Rg(s, r).results ensures MatchesPut(Rg(s, r), k) {
      var run, choices :| IsRun(c, run, choices) && run[|choices|] == s;
      Fifo(c, run, choices, |choices|, r);
    }
    forall s, b, p, q | Reachable(c, s) && At(s, p, b) && At(s, q, b) ensures p == q {
      var run, choices :| IsRun(c, run, choices) && run[|choices|] == s;
      EachBlockInOnePlace(c, run, choices, |choices|, b);
    }
  }

  lemma ReachableUntouched(c: Config, s: State)
    requires NobodyAllocates(c) && Reachable(c, s)
    ensures Untouched(c, s)
  {
    var run, choices :| IsRun(c, run, choices) && run[|choices|] == s;
    RunUntouched(c, run, choices, |choices|);
  }

  lemma IdleOwned(c: Config)
    requires NobodyAllocates(c)
    ensures Owned(c) && InOrder(c)
  {
    forall s | Reachable(c, s) ensures Untouched(c, s) {
      ReachableUntouched(c, s);
    }
    forall s, b, p, q | Reachable(c, s) && At(s, p, b) && At(s, q, b) ensures p == q {
      assert p == InSlot(Freelist, b) && q == InSlot(Freelist, b);
    }
  }

  /** What a queue needs to keep its promises: on each ring one taking or one
      putting thread, or a depth or a number of threads of at most two, or no
      thread that may allocate. */
  predicate Suitable(c: Config) {
    OneSided(c) || c.depth <= 2 || c.threads <= 2 || NobodyAllocates(c)
  }

  /** Ownership holds in every run exactly when the queue is used suitably, and
      so does the order of the messages. */
  lemma OwnershipExact(c: Config)
    requires ValidConfig(c)
    ensures Owned(c) <==> Suitable(c)
    ensures InOrder(c) <==> Suitable(c)
  {
    if NobodyAllocates(c) {
      IdleOwned(c);
    } else if r: RingId :| !Guarded(c, r) {
      var s := TwoSidedFails(c, r);
      assert r !in c.soleTaker && r !in c.solePutter;
    } else {
      assert forall r: RingId :: Guarded(c, r) && !Suitable(c) ==> r in c.soleTaker || r in c.solePutter;
      GuardedOwned(c);
    }
  }
}
