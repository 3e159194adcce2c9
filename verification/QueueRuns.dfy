/** Building runs of the queue: whole operations of one thread, undisturbed. */
module QueueRuns {
  import opened Basics
  import opened QueueModel
  import Arith
  import Pow2

  ghost predicate Reachable(c: Config, s: State) {
    exists run, choices :: IsRun(c, run, choices) && run[|choices|] == s
  }

  lemma InitReachable(c: Config)
    requires c.depth > 0
    ensures Reachable(c, Init(c))
  {
    var run, choices := [Init(c)], [];
    assert IsRun(c, run, choices) && run[|choices|] == Init(c);
  }

  lemma StepReachable(c: Config, s: State, t: nat, call: Call)
    requires c.depth > 0 && Reachable(c, s) && Enabled(c, s, t, call)
    ensures Reachable(c, Step(c, s, t, call))
  {
    var run, choices :| IsRun(c, run, choices) && run[|choices|] == s;
    var run', choices' := run + [Step(c, s, t, call)], choices + [Choice(t, call)];
    forall i | 0 <= i < |choices'|
      ensures Enabled(c, run'[i], choices'[i].t, choices'[i].call)
      ensures run'[i + 1] == Step(c, run'[i], choices'[i].t, choices'[i].call)
    {
      if i < |choices| {
        assert Enabled(c, run[i], choices[i].t, choices[i].call);
      }
    }
    assert IsRun(c, run', choices') && run'[|choices'|] == Step(c, s, t, call);
  }

  // ---------------------------------------------------------------- operations

  predicate AllIdle(c: Config, s: State) {
    |s.threads| == c.threads && forall t :: 0 <= t < |s.threads| ==> s.threads[t].pc.Idle?
  }

  function Other(r: RingId): RingId {
    if r == Freelist then Queue else Freelist
  }

  /** From s to s' only thread t moved, and only on ring r, where nobody sleeps. */
  ghost predicate Moved(s: State, s': State, t: nat, r: RingId) {
    && t < |s.threads| && |s'.threads| == |s.threads|
    && (forall u :: 0 <= u < |s.threads| && u != t ==> s'.threads[u] == s.threads[u])
    && Rg(s', Other(r)) == Rg(s, Other(r))
    && Rg(s', r).blocked == Rg(s, r).blocked && Rg(s', r).sem == Rg(s, r).sem
  }

  /** No ticket was drawn and no take finished. */
  predicate SameTickets(g: Ring, g': Ring) {
    g'.msgs == g.msgs && g'.taker == g.taker && g'.results == g.results
  }

  /** One step of thread t, at work on ring r. */
  lemma OneStep(c: Config, s: State, t: nat, call: Call, r: RingId) returns (s': State)
    requires c.depth > 0 && Reachable(c, s) && Enabled(c, s, t, call) && r == RingOf(s.threads[t].pc, call)
    ensures Reachable(c, s') && Rg(s', Other(r)) == Rg(s, Other(r))
    ensures var e := Act(c.depth, Rg(s, r), s.threads[t], s.loc, t, call);
            Rg(s', r) == e.ring && s'.threads == s.threads[t := Thread(e.pc, e.hand)]
  {
    StepReachable(c, s, t, call);
    s' := Step(c, s, t, call);
  }

  predicate MayTake(c: Config, t: nat, r: RingId) {
    r in c.soleTaker ==> c.soleTaker[r] == t
  }

  predicate MayPut(c: Config, t: nat, r: RingId) {
    r in c.solePutter ==> c.solePutter[r] == t
  }

  /** A take that finds entries, up to the drawing of its ticket. */
  lemma TakeToTicket(c: Config, s: State, t: nat, r: RingId) returns (s': State)
    requires c.depth > 0 && Reachable(c, s) && t < |s.threads| && s.threads[t].pc.Idle? && MayTake(c, t, r)
    requires Rg(s, r).count > 0
    ensures Reachable(c, s') && Moved(s, s', t, r)
    ensures s'.threads[t] == Thread(TakeTicket(r, Try), s.threads[t].hand)
    ensures Rg(s', r) == Rg(s, r).(count := Rg(s, r).count - 1)
  {
    var call := Take(r, false);
    var s1 := OneStep(c, s, t, call, r);
    s' := OneStep(c, s1, t, call, r);
  }

  /** A take up to the test of the slot. */
  lemma TakeToTest(c: Config, s: State, t: nat, r: RingId) returns (s': State)
    requires c.depth > 0 && Reachable(c, s) && t < |s.threads| && s.threads[t].pc.Idle? && MayTake(c, t, r)
    requires Rg(s, r).count > 0
    ensures Reachable(c, s') && Moved(s, s', t, r)
    ensures var g, g' := Rg(s, r), Rg(s', r);
            && g'.slots == g.slots && g'.putPos == g.putPos && g'.count == g.count - 1
            && g'.takePos == (g.takePos + 1) % WORD && SameTickets(g.(taker := g.taker + [t]), g')
    ensures var pc, g := s'.threads[t].pc, Rg(s, r);
            && s'.threads[t].hand == s.threads[t].hand && pc.TakeSpin? && pc.r == r && pc.mode == Try
            && pc.pos == g.takePos % c.depth && pc.k == |g.taker|
  {
    var s1 := TakeToTicket(c, s, t, r);
    s' := OneStep(c, s1, t, Take(r, false), r);
  }

  /** A take, undisturbed, up to the point of clearing the slot. */
  lemma TakeToClear(c: Config, s: State, t: nat, r: RingId) returns (s': State)
    requires ValidConfig(c) && Reachable(c, s) && t < |s.threads| && s.threads[t].pc.Idle? && MayTake(c, t, r)
    requires var g := Rg(s, r); g.count > 0 && |g.slots| == c.depth && g.slots[g.takePos % c.depth].Some?
    ensures Reachable(c, s') && Moved(s, s', t, r)
    ensures var g, g' := Rg(s, r), Rg(s', r);
            && g'.slots == g.slots && g'.putPos == g.putPos && g'.count == g.count - 1
            && g'.takePos % c.depth == (g.takePos % c.depth + 1) % c.depth
            && SameTickets(g.(taker := g.taker + [t]), g')
    ensures var g, th, th' := Rg(s, r), s.threads[t], s'.threads[t];
            && th'.hand == th.hand && th'.pc.TakeClear? && th'.pc.r == r && th'.pc.mode == Try
            && th'.pc.k == |g.taker| && th'.pc.pos == g.takePos % c.depth && g.slots[th'.pc.pos] == Some(th'.pc.rv)
  {
    Pow2.SlotAdvances(Rg(s, r).takePos, c.depth);
    var s1 := TakeToTest(c, s, t, r);
    s' := OneStep(c, s1, t, Take(r, false), r);
  }

  lemma Clear(c: Config, s: State, t: nat, r: RingId) returns (s': State)
    requires ValidConfig(c) && Reachable(c, s) && t < |s.threads|
    requires var pc := s.threads[t].pc;
             pc.TakeClear? && pc.r == r && pc.mode == Try && pc.pos < |Rg(s, r).slots|
    ensures Reachable(c, s') && Moved(s, s', t, r)
    ensures var pc := s.threads[t].pc;
            && s'.threads[t] == Thread(Idle, s.threads[t].hand + {pc.rv})
            && Rg(s', r).slots == Rg(s, r).slots[pc.pos := None]
    ensures var pc, g, g' := s.threads[t].pc, Rg(s, r), Rg(s', r);
            && g'.putPos == g.putPos && g'.takePos == g.takePos && g'.count == g.count
            && SameTickets(g.(results := g.results[pc.k := pc.rv]), g')
  {
    var call := Take(r, false);
    s' := OneStep(c, s, t, call, r);
  }

  /** A whole take: the block of the next slot comes into the thread's hands. */
  lemma TakeOne(c: Config, s: State, t: nat, r: RingId, b: nat) returns (s': State)
    requires ValidConfig(c) && Reachable(c, s) && t < |s.threads| && s.threads[t].pc.Idle? && MayTake(c, t, r)
    requires var g := Rg(s, r); g.count > 0 && |g.slots| == c.depth && g.slots[g.takePos % c.depth] == Some(b)
    ensures Reachable(c, s') && Moved(s, s', t, r)
    ensures s'.threads[t] == Thread(Idle, s.threads[t].hand + {b})
    ensures var g, g' := Rg(s, r), Rg(s', r);
            && g'.slots == g.slots[g.takePos % c.depth := None] && g'.putPos == g.putPos && g'.count == g.count - 1
            && g'.takePos % c.depth == (g.takePos % c.depth + 1) % c.depth
            && SameTickets(g.(taker := g.taker + [t], results := g.results[|g.taker| := b]), g')
  {
    var s1 := TakeToClear(c, s, t, r);
    s' := Clear(c, s1, t, r);
  }

  /** A put of message m up to the test of the slot. */
  lemma PutToTest(c: Config, s: State, t: nat, r: RingId, m: nat) returns (s': State)
    requires ValidConfig(c) && Reachable(c, s) && t < |s.threads| && s.threads[t].pc.Idle? && MayPut(c, t, r)
    requires m in s.threads[t].hand
    ensures Reachable(c, s') && Moved(s, s', t, r)
    ensures var g, g' := Rg(s, r), Rg(s', r);
            && g'.slots == g.slots && g'.takePos == g.takePos && g'.count == g.count
            && g'.putPos % c.depth == (g.putPos % c.depth + 1) % c.depth
            && SameTickets(g.(msgs := g.msgs + [m]), g')
    ensures var pc := s'.threads[t].pc;
            && s'.threads[t].hand == s.threads[t].hand - {m} && pc.PutSpin? && pc.r == r && pc.m == m
            && pc.pos == Rg(s, r).putPos % c.depth
  {
    var call := Put(r, m);
    Pow2.SlotAdvances(Rg(s, r).putPos, c.depth);
    var s1 := OneStep(c, s, t, call, r);
    s' := OneStep(c, s1, t, call, r);
  }

  /** From the test of an empty slot to the count. */
  lemma PutToCount(c: Config, s: State, t: nat, r: RingId) returns (s': State)
    requires c.depth > 0 && Reachable(c, s) && t < |s.threads|
    requires var pc, g := s.threads[t].pc, Rg(s, r);
             pc.PutSpin? && pc.r == r && pc.pos < |g.slots| && g.slots[pc.pos].None?
    ensures Reachable(c, s') && Moved(s, s', t, r)
    ensures s'.threads[t] == Thread(PutCount(r), s.threads[t].hand)
    ensures var pc, g, g' := s.threads[t].pc, Rg(s, r), Rg(s', r);
            && g'.slots == g.slots[pc.pos := Some(pc.m)] && g'.count == g.count
            && g'.putPos == g.putPos && g'.takePos == g.takePos && SameTickets(g, g')
  {
    var call := Take(r, false);
    var s1 := OneStep(c, s, t, call, r);
    s' := OneStep(c, s1, t, call, r);
  }

  /** From the test of an empty slot to the end of the put; nobody is asleep. */
  lemma PutToEnd(c: Config, s: State, t: nat, r: RingId) returns (s': State)
    requires ValidConfig(c) && Reachable(c, s) && t < |s.threads| && Rg(s, r).blocked == 0
    requires var pc, g := s.threads[t].pc, Rg(s, r);
             pc.PutSpin? && pc.r == r && pc.pos < |g.slots| && g.slots[pc.pos].None?
    ensures Reachable(c, s') && Moved(s, s', t, r)
    ensures s'.threads[t] == Thread(Idle, s.threads[t].hand)
    ensures var pc, g, g' := s.threads[t].pc, Rg(s, r), Rg(s', r);
            && g'.slots == g.slots[pc.pos := Some(pc.m)] && g'.count == g.count + 1
            && g'.putPos == g.putPos && g'.takePos == g.takePos && SameTickets(g, g')
  {
    var call := Take(r, false);
    var s1 := PutToCount(c, s, t, r);
    var s2 := OneStep(c, s1, t, call, r);
    s' := OneStep(c, s2, t, call, r);
  }

  /** A whole put of message m into an empty slot. */
  lemma PutOne(c: Config, s: State, t: nat, r: RingId, m: nat) returns (s': State)
    requires ValidConfig(c) && Reachable(c, s) && t < |s.threads| && s.threads[t].pc.Idle? && MayPut(c, t, r)
    requires m in s.threads[t].hand && Rg(s, r).blocked == 0
    requires var g := Rg(s, r); |g.slots| == c.depth && g.slots[g.putPos % c.depth].None?
    ensures Reachable(c, s') && Moved(s, s', t, r)
    ensures s'.threads[t] == Thread(Idle, s.threads[t].hand - {m})
    ensures var g, g' := Rg(s, r), Rg(s', r);
            && g'.slots == g.slots[g.putPos % c.depth := Some(m)] && g'.count == g.count + 1
            && g'.takePos == g.takePos && g'.putPos % c.depth == (g.putPos % c.depth + 1) % c.depth
            && SameTickets(g.(msgs := g.msgs + [m]), g')
  {
    var s1 := PutToTest(c, s, t, r, m);
    s' := PutToEnd(c, s1, t, r);
  }
}
