/** What one call of alloc, tryread, read, free or write does between its first
    step and its return, in any run: no condition on the other threads. */
module QueueCalls {
  import opened Basics
  import opened QueueModel
  import opened QueueSafety

  // ---------------------------------------------------------------- tickets and their holders

  /** A thread in the middle of a take or put holds a ticket that it drew itself. */
  ghost predicate Held(g: Ring, th: Thread, t: nat, r: RingId) {
    && |g.putter| == |g.msgs|
    && (HoldsTake(th.pc, r) ==> th.pc.k < |g.taker| && g.taker[th.pc.k] == t)
    && (HoldsPut(th.pc, r) ==> th.pc.k < |g.putter| && g.putter[th.pc.k] == t && g.msgs[th.pc.k] == th.pc.m)
  }

  ghost predicate AllHeld(s: State) {
    forall r: RingId, t :: 0 <= t < |s.threads| ==> Held(Rg(s, r), s.threads[t], t, r)
  }

  /** Tickets are only ever added. */
  predicate Grows(g: Ring, g': Ring) {
    g.taker <= g'.taker && g.putter <= g'.putter && g.msgs <= g'.msgs && g.stored <= g'.stored
  }

  lemma ActHeld(depth: nat, g: Ring, th: Thread, loc: map<nat, Loc>, t: nat, call: Call)
    requires depth > 0 && Ready(g, th.pc) && Held(g, th, t, RingOf(th.pc, call))
    ensures var e := Act(depth, g, th, loc, t, call);
            Held(e.ring, Thread(e.pc, e.hand), t, RingOf(th.pc, call)) && (e.pc.Idle? || e.pc.r == RingOf(th.pc, call))
  {
  }

  lemma ActGrows(depth: nat, g: Ring, th: Thread, loc: map<nat, Loc>, t: nat, call: Call)
    requires depth > 0 && Ready(g, th.pc) && Held(g, th, t, RingOf(th.pc, call))
    ensures var e := Act(depth, g, th, loc, t, call); Grows(g, e.ring) && |e.ring.putter| == |e.ring.msgs|
  {
  }

  lemma HeldGrows(g: Ring, g': Ring, th: Thread, t: nat, r: RingId)
    requires Held(g, th, t, r) && Grows(g, g') && |g'.putter| == |g'.msgs|
    ensures Held(g', th, t, r)
  {
  }

  lemma StepHeld(c: Config, s: State, t: nat, call: Call)
    requires c.depth > 0 && Enabled(c, s, t, call) && AllHeld(s)
    ensures AllHeld(Step(c, s, t, call))
  {
    var r0, s' := RingOf(s.threads[t].pc, call), Step(c, s, t, call);
    assert Held(Rg(s, r0), s.threads[t], t, r0);
    ActHeld(c.depth, Rg(s, r0), s.threads[t], s.loc, t, call);
    ActGrows(c.depth, Rg(s, r0), s.threads[t], s.loc, t, call);
    forall r: RingId, u | 0 <= u < |s'.threads| ensures Held(Rg(s', r), s'.threads[u], u, r) {
      assert Held(Rg(s, r), s.threads[u], u, r);
      if u != t && r == r0 {
        HeldGrows(Rg(s, r), Rg(s', r), s.threads[u], u, r);
      }
    }
  }

  lemma {:induction false} RunHeld(c: Config, run: seq<State>, choices: seq<Choice>, i: nat)
    requires IsRun(c, run, choices) && i < |run|
    ensures AllHeld(run[i])
    decreases i
  {
    if i > 0 {
      RunHeld(c, run, choices, i - 1);
      StepHeld(c, run[i - 1], choices[i - 1].t, choices[i - 1].call);
    }
  }

  // ---------------------------------------------------------------- calls

  /** From step i to state j thread t carries out one call: idle, it makes the call at
      step i, and state j is the first one after that in which it is idle again. */
  ghost predicate CallSpan(run: seq<State>, choices: seq<Choice>, i: nat, j: nat, t: nat, call: Call) {
    && i < j < |run| == |choices| + 1
    && t < |run[i].threads| && run[i].threads[t].pc.Idle? && choices[i] == Choice(t, call)
    && (forall m :: i < m < j ==> t < |run[m].threads| && !run[m].threads[t].pc.Idle?)
    && t < |run[j].threads| && run[j].threads[t].pc.Idle?
  }

  /** Since there were n take tickets, thread t has drawn none. */
  ghost predicate DrewNone(g: Ring, n: nat, t: nat) {
    n <= |g.taker| && forall k :: n <= k < |g.taker| ==> g.taker[k] != t
  }

  /** Since then it has drawn just ticket k. */
  ghost predicate DrewOne(g: Ring, n: nat, t: nat, k: nat) {
    n <= k < |g.taker| && forall l :: n <= l < |g.taker| ==> (g.taker[l] == t <==> l == k)
  }

  /** The modes of the attempts of a call. */
  predicate Fits(mode: Mode, blocking: bool) {
    blocking <==> mode != Try
  }

  predicate Searching(pc: Pc, r: RingId, blocking: bool) {
    || ((pc.TakeClaim? || pc.TakeTicket? || pc.TakeUndo?) && pc.r == r && Fits(pc.mode, blocking))
    || ((pc.TakeRegister? || pc.TakeWait?) && pc.r == r && blocking)
  }

  predicate Fetching(pc: Pc, r: RingId, blocking: bool) {
    HoldsTake(pc, r) && Fits(pc.mode, blocking)
  }

  /** The thread has what its ticket k gave it on top of what it had. */
  ghost predicate Received(g: Ring, th: Thread, n: nat, hand: set<nat>, t: nat, k: nat) {
    DrewOne(g, n, t, k) && k in g.results && th.hand == hand + {g.results[k]}
  }

  /** How far a take has come: looking for an entry, holding a ticket, or done. */
  ghost predicate TakeProgress(g: Ring, th: Thread, n: nat, hand: set<nat>, t: nat, r: RingId, blocking: bool) {
    || (Searching(th.pc, r, blocking) && DrewNone(g, n, t) && th.hand == hand)
    || (Fetching(th.pc, r, blocking) && DrewOne(g, n, t, th.pc.k) && th.hand == hand)
    || (th.pc == TakeUnregister(r) && blocking && exists k :: Received(g, th, n, hand, t, k))
  }

  /** A call that may fail returns without anything. */
  ghost predicate Empty(g: Ring, th: Thread, n: nat, hand: set<nat>, t: nat) {
    DrewNone(g, n, t) && th.hand == hand
  }

  /** What a step of another thread does to the tickets that matter here. */
  predicate OthersTake(g: Ring, g': Ring, u: nat) {
    && (g'.taker == g.taker || g'.taker == g.taker + [u])
    && g.results.Keys <= g'.results.Keys
    && forall k :: k in g.results && k < |g.taker| && g.taker[k] != u ==> g'.results[k] == g.results[k]
  }

  lemma ActOthers(depth: nat, g: Ring, th: Thread, loc: map<nat, Loc>, u: nat, call: Call)
    requires depth > 0 && Ready(g, th.pc) && Held(g, th, u, RingOf(th.pc, call))
    ensures OthersTake(g, Act(depth, g, th, loc, u, call).ring, u)
  {
  }

  lemma OthersProgress(g: Ring, g': Ring, th: Thread, u: nat, n: nat, hand: set<nat>, t: nat, r: RingId, blocking: bool)
    requires OthersTake(g, g', u) && t != u && TakeProgress(g, th, n, hand, t, r, blocking)
    ensures TakeProgress(g', th, n, hand, t, r, blocking)
  {
    if k :| Received(g, th, n, hand, t, k) {
      assert Received(g', th, n, hand, t, k);
    }
  }

  /** A step of another thread. */
  lemma TakeOther(c: Config, s: State, u: nat, call: Call, n: nat, hand: set<nat>, t: nat, r: RingId, blocking: bool)
    requires c.depth > 0 && Enabled(c, s, u, call) && AllHeld(s) && t < |s.threads| && t != u
    requires TakeProgress(Rg(s, r), s.threads[t], n, hand, t, r, blocking)
    ensures var s' := Step(c, s, u, call); TakeProgress(Rg(s', r), s'.threads[t], n, hand, t, r, blocking)
  {
    var r0, s' := RingOf(s.threads[u].pc, call), Step(c, s, u, call);
    assert Held(Rg(s, r0), s.threads[u], u, r0);
    ActOthers(c.depth, Rg(s, r0), s.threads[u], s.loc, u, call);
    if r == r0 {
      OthersProgress(Rg(s, r), Rg(s', r), s.threads[t], u, n, hand, t, r, blocking);
    }
  }

  /** A step of the thread itself, short of its return. */
  lemma TakeOwn(c: Config, s: State, call: Call, n: nat, hand: set<nat>, t: nat, r: RingId, blocking: bool)
    requires c.depth > 0 && Enabled(c, s, t, call)
    requires TakeProgress(Rg(s, r), s.threads[t], n, hand, t, r, blocking)
    ensures var s', g' := Step(c, s, t, call), Rg(Step(c, s, t, call), r);
            var th' := s'.threads[t];
            if th'.pc.Idle? then
              || (exists k :: Received(g', th', n, hand, t, k))
              || (s.threads[t].pc == TakeUndo(r, Try) && Empty(g', th', n, hand, t))
            else TakeProgress(g', th', n, hand, t, r, blocking)
  {
    var s', g, g' := Step(c, s, t, call), Rg(s, r), Rg(Step(c, s, t, call), r);
    var pc := s.threads[t].pc;
    if pc.TakeClear? {
      assert Received(g', s'.threads[t], n, hand, t, pc.k);
    } else if pc.TakeUnregister? {
      var k :| Received(g, s.threads[t], n, hand, t, k);
      assert Received(g', s'.threads[t], n, hand, t, k);
    }
  }

  /** A refused attempt: the count was not positive when the thread took its one off. */
  ghost predicate RefusedAt(run: seq<State>, choices: seq<Choice>, i: nat, j: nat, t: nat, r: RingId) {
    exists m :: i < m < j <= |choices| && |run| == |choices| + 1 && choices[m].t == t && t < |run[m].threads|
      && run[m].threads[t].pc == TakeClaim(r, Try) && Rg(run[m], r).count <= 0
  }

  /** At each state inside the call, its progress, and how a non-blocking attempt came to give up. */
  ghost predicate TakeAt(run: seq<State>, choices: seq<Choice>, i: nat, m: nat, t: nat, r: RingId, blocking: bool)
    requires i < |run| && m < |run| && t < |run[i].threads| && t < |run[m].threads|
  {
    && TakeProgress(Rg(run[m], r), run[m].threads[t], |Rg(run[i], r).taker|, run[i].threads[t].hand, t, r, blocking)
    && (run[m].threads[t].pc == TakeUndo(r, Try) ==> RefusedAt(run, choices, i, m, t, r))
  }

  lemma TakeStep(c: Config, run: seq<State>, choices: seq<Choice>, i: nat, m: nat, t: nat, r: RingId, blocking: bool)
    requires IsRun(c, run, choices) && i < m < |choices| && t < |run[i].threads| && t < |run[m].threads|
    requires TakeAt(run, choices, i, m, t, r, blocking)
    ensures |run[m + 1].threads| == |run[m].threads|
    ensures !run[m + 1].threads[t].pc.Idle? ==> TakeAt(run, choices, i, m + 1, t, r, blocking)
    ensures run[m + 1].threads[t].pc.Idle? ==>
              TakeDone(run, choices, i, m + 1, t, r, blocking)
  {
    var n, hand := |Rg(run[i], r).taker|, run[i].threads[t].hand;
    var s, u, call := run[m], choices[m].t, choices[m].call;
    assert Enabled(c, s, u, call) && run[m + 1] == Step(c, s, u, call);
    if u == t {
      TakeOwn(c, s, call, n, hand, t, r, blocking);
      if s.threads[t].pc == TakeClaim(r, Try) && Rg(s, r).count <= 0 {
        assert RefusedAt(run, choices, i, m + 1, t, r);
      }
    } else {
      RunHeld(c, run, choices, m);
      TakeOther(c, s, u, call, n, hand, t, r, blocking);
    }
    if RefusedAt(run, choices, i, m, t, r) {
      assert RefusedAt(run, choices, i, m + 1, t, r);
    }
  }

  /** The outcome of a take: the thread drew one ticket, and its hand is what it was
      plus the result of that ticket; or, of a call that does not block, nothing,
      after an attempt at a count that was not positive. */
  ghost predicate TakeDone(run: seq<State>, choices: seq<Choice>, i: nat, j: nat, t: nat, r: RingId, blocking: bool)
    requires i < |run| && j < |run| && t < |run[i].threads| && t < |run[j].threads|
  {
    var g, g', hand := Rg(run[i], r), Rg(run[j], r), run[i].threads[t].hand;
    || (exists k :: Received(g', run[j].threads[t], |g.taker|, hand, t, k))
    || (!blocking && Empty(g', run[j].threads[t], |g.taker|, hand, t) && RefusedAt(run, choices, i, j, t, r))
  }

  lemma {:induction false} TakeInside(c: Config, run: seq<State>, choices: seq<Choice>, i: nat, j: nat, m: nat, t: nat,
      r: RingId, blocking: bool)
    requires IsRun(c, run, choices) && CallSpan(run, choices, i, j, t, Take(r, blocking)) && i < m < j
    ensures TakeAt(run, choices, i, m, t, r, blocking)
    decreases m
  {
    if m == i + 1 {
      assert run[m] == Step(c, run[i], t, Take(r, blocking));
    } else {
      TakeInside(c, run, choices, i, j, m - 1, t, r, blocking);
      TakeStep(c, run, choices, i, m - 1, t, r, blocking);
    }
  }

  /** A call takes more than one step. */
  lemma CallGoesOn(c: Config, run: seq<State>, choices: seq<Choice>, i: nat, j: nat, t: nat, call: Call)
    requires IsRun(c, run, choices) && CallSpan(run, choices, i, j, t, call)
    ensures j > i + 1
  {
    assert Enabled(c, run[i], t, call) && run[i + 1] == Step(c, run[i], t, call);
  }

  /** Every take that returns has done what it is for. */
  lemma TakeReturns(c: Config, run: seq<State>, choices: seq<Choice>, i: nat, j: nat, t: nat, r: RingId, blocking: bool)
    requires IsRun(c, run, choices) && CallSpan(run, choices, i, j, t, Take(r, blocking))
    ensures TakeDone(run, choices, i, j, t, r, blocking)
  {
    CallGoesOn(c, run, choices, i, j, t, Take(r, blocking));
    TakeInside(c, run, choices, i, j, j - 1, t, r, blocking);
    TakeStep(c, run, choices, i, j - 1, t, r, blocking);
  }

  // ---------------------------------------------------------------- puts

  /** Since there were n put tickets, thread t has drawn none. */
  ghost predicate PutNone(g: Ring, n: nat, t: nat) {
    n <= |g.putter| == |g.msgs| && forall k :: n <= k < |g.putter| ==> g.putter[k] != t
  }

  /** Since then it has drawn just ticket k, for message m. */
  ghost predicate PutOne(g: Ring, n: nat, t: nat, k: nat, m: nat) {
    && n <= k < |g.putter| == |g.msgs| && g.msgs[k] == m
    && forall l :: n <= l < |g.putter| ==> (g.putter[l] == t <==> l == k)
  }

  /** Message m has left the thread's hand and is stored under its ticket k. */
  ghost predicate Delivered(g: Ring, th: Thread, n: nat, hand: set<nat>, t: nat, k: nat, m: nat) {
    PutOne(g, n, t, k, m) && k in g.stored && th.hand == hand - {m}
  }

  /** How far a put of message m has come. */
  ghost predicate PutProgress(g: Ring, th: Thread, n: nat, hand: set<nat>, t: nat, r: RingId, m: nat) {
    || (th.pc == PutTicket(r, m) && PutNone(g, n, t) && th.hand == hand)
    || (HoldsPut(th.pc, r) && th.pc.m == m && PutOne(g, n, t, th.pc.k, m) && th.hand == hand - {m})
    || (th.pc in {PutCount(r), PutCheck(r), PutDec(r), PutPost(r)} && exists k :: Delivered(g, th, n, hand, t, k, m))
  }

  predicate OthersPut(g: Ring, g': Ring, u: nat) {
    && ((g'.putter == g.putter && g'.msgs == g.msgs) || (g'.putter == g.putter + [u] && |g'.msgs| == |g.msgs| + 1))
    && g.msgs <= g'.msgs && g.stored <= g'.stored
  }

  lemma ActOthersPut(depth: nat, g: Ring, th: Thread, loc: map<nat, Loc>, u: nat, call: Call)
    requires depth > 0 && Ready(g, th.pc) && Held(g, th, u, RingOf(th.pc, call))
    ensures OthersPut(g, Act(depth, g, th, loc, u, call).ring, u)
  {
  }

  lemma OthersPutProgress(g: Ring, g': Ring, th: Thread, u: nat, n: nat, hand: set<nat>, t: nat, r: RingId, m: nat)
    requires OthersPut(g, g', u) && t != u && PutProgress(g, th, n, hand, t, r, m)
    ensures PutProgress(g', th, n, hand, t, r, m)
  {
    if k :| Delivered(g, th, n, hand, t, k, m) {
      assert Delivered(g', th, n, hand, t, k, m);
    }
  }

  /** A step of the thread itself. */
  lemma PutOwn(depth: nat, g: Ring, th: Thread, loc: map<nat, Loc>, call: Call, n: nat, hand: set<nat>, t: nat,
      r: RingId, m: nat)
    requires depth > 0 && Ready(g, th.pc) && PutProgress(g, th, n, hand, t, r, m) && |g.putter| == |g.msgs|
    ensures var e := Act(depth, g, th, loc, t, call);
            var th' := Thread(e.pc, e.hand);
            if e.pc.Idle? then exists k :: Delivered(e.ring, th', n, hand, t, k, m)
            else PutProgress(e.ring, th', n, hand, t, r, m)
  {
    var e := Act(depth, g, th, loc, t, call);
    if th.pc.PutStore? {
      assert Delivered(e.ring, Thread(e.pc, e.hand), n, hand, t, th.pc.k, m);
    } else if !th.pc.PutTicket? && !th.pc.PutSpin? {
      var k :| Delivered(g, th, n, hand, t, k, m);
      assert Delivered(e.ring, Thread(e.pc, e.hand), n, hand, t, k, m);
    }
  }

  /** One step of anyone. */
  lemma PutStep(c: Config, s: State, u: nat, call: Call, n: nat, hand: set<nat>, t: nat, r: RingId, m: nat)
    requires c.depth > 0 && Enabled(c, s, u, call) && AllHeld(s) && t < |s.threads|
    requires PutProgress(Rg(s, r), s.threads[t], n, hand, t, r, m)
    ensures var s' := Step(c, s, u, call);
            if s'.threads[t].pc.Idle? then exists k :: Delivered(Rg(s', r), s'.threads[t], n, hand, t, k, m)
            else PutProgress(Rg(s', r), s'.threads[t], n, hand, t, r, m)
  {
    var r0, s' := RingOf(s.threads[u].pc, call), Step(c, s, u, call);
    assert Held(Rg(s, r0), s.threads[u], u, r0);
    if u == t {
      PutOwn(c.depth, Rg(s, r), s.threads[t], s.loc, call, n, hand, t, r, m);
      var e := EffectOf(c, s, t, call);
      assert Rg(s', r) == e.ring && s'.threads[t] == Thread(e.pc, e.hand);
    } else if r == r0 {
      ActOthersPut(c.depth, Rg(s, r0), s.threads[u], s.loc, u, call);
      OthersPutProgress(Rg(s, r), Rg(s', r), s.threads[t], u, n, hand, t, r, m);
    }
  }

  lemma {:induction false} PutInside(c: Config, run: seq<State>, choices: seq<Choice>, i: nat, j: nat, l: nat, t: nat,
      r: RingId, m: nat)
    requires IsRun(c, run, choices) && CallSpan(run, choices, i, j, t, Put(r, m)) && i < l < j
    ensures PutProgress(Rg(run[l], r), run[l].threads[t], |Rg(run[i], r).putter|, run[i].threads[t].hand, t, r, m)
    decreases l
  {
    var n, hand := |Rg(run[i], r).putter|, run[i].threads[t].hand;
    RunHeld(c, run, choices, l - 1);
    assert Enabled(c, run[l - 1], choices[l - 1].t, choices[l - 1].call);
    if l == i + 1 {
      assert run[l] == Step(c, run[i], t, Put(r, m));
      assert Held(Rg(run[i], r), run[i].threads[t], t, r);
    } else {
      PutInside(c, run, choices, i, j, l - 1, t, r, m);
      PutStep(c, run[l - 1], choices[l - 1].t, choices[l - 1].call, n, hand, t, r, m);
    }
  }

  /** Every put that returns: the thread drew one ticket, the message is stored
      under it, and the thread's hand is what it was without the message. */
  lemma PutReturns(c: Config, run: seq<State>, choices: seq<Choice>, i: nat, j: nat, t: nat, r: RingId, m: nat)
    requires IsRun(c, run, choices) && CallSpan(run, choices, i, j, t, Put(r, m))
    ensures exists k ::
              Delivered(Rg(run[j], r), run[j].threads[t], |Rg(run[i], r).putter|, run[i].threads[t].hand, t, k, m)
  {
    var n, hand := |Rg(run[i], r).putter|, run[i].threads[t].hand;
    CallGoesOn(c, run, choices, i, j, t, Put(r, m));
    PutInside(c, run, choices, i, j, j - 1, t, r, m);
    RunHeld(c, run, choices, j - 1);
    assert Enabled(c, run[j - 1], choices[j - 1].t, choices[j - 1].call);
    PutStep(c, run[j - 1], choices[j - 1].t, choices[j - 1].call, n, hand, t, r, m);
  }
}
