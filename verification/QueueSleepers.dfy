/** Exactly when a wake-up can be lost.  With two threads taking from one ring,
    the failed try of one hides an entry from the other just long enough. */
module QueueSleepers {
  import opened Basics
  import opened QueueModel
  import opened QueueCounters
  import opened QueueSafety
  import opened QueueWakeup
  import opened QueueRuns
  import Arith

  /** A thread sleeps although there is an entry, and nobody is about to wake it. */
  ghost predicate Forgotten(s: State, t: nat, r: RingId) {
    && t < |s.threads| && s.threads[t].pc == TakeWait(r)
    && Rg(s, r).sem == 0 && Rg(s, r).count > 0
    && forall u :: 0 <= u < |s.threads| ==> !Putting(s.threads[u].pc, r)
  }

  /** No wake-up on ring r is ever lost. */
  ghost predicate Awake(c: Config, r: RingId) {
    forall s, t :: Reachable(c, s) ==> !Forgotten(s, t, r)
  }

  // ---------------------------------------------------------------- one taker

  lemma OneTakerAwake(c: Config, r: RingId)
    requires c.depth > 0 && r in c.soleTaker
    ensures Awake(c, r)
  {
    forall s, t | Reachable(c, s) ensures !Forgotten(s, t, r) {
      if Forgotten(s, t, r) {
        var run, choices :| IsRun(c, run, choices) && run[|choices|] == s;
        RunWatched(c, run, choices, |choices|, r);
        forall kind | kind in {Posting, Notifying} ensures Tally(s.threads, r, kind) == 0 {
          TallyNone(s.threads, r, kind);
        }
      }
    }
  }

  lemma {:induction false} TallyNone(ts: seq<Thread>, r: RingId, kind: Kind)
    requires forall u :: 0 <= u < |ts| ==> !IsKind(ts[u].pc, r, kind)
    ensures Tally(ts, r, kind) == 0
  {
    if |ts| > 0 {
      TallyNone(ts[..|ts| - 1], r, kind);
    }
  }

  /** A single thread may as well be named as the taker of every ring. */
  lemma OneThreadAwake(c: Config, r: RingId)
    requires c.depth > 0 && c.threads <= 1
    ensures Awake(c, r)
  {
    var c' := c.(soleTaker := c.soleTaker[r := 0]);
    forall s | Reachable(c, s) && !(r in c.soleTaker) ensures Reachable(c', s) {
      var run, choices :| IsRun(c, run, choices) && run[|choices|] == s;
      SameRun(c, c', run, choices, r);
    }
    if r in c.soleTaker {
      OneTakerAwake(c, r);
    } else {
      OneTakerAwake(c', r);
    }
  }

  lemma SameRun(c: Config, c': Config, run: seq<State>, choices: seq<Choice>, r: RingId)
    requires IsRun(c, run, choices) && c.threads <= 1
    requires c' == c.(soleTaker := c.soleTaker[r := 0]) && r !in c.soleTaker
    ensures IsRun(c', run, choices)
  {
    forall i | 0 <= i < |choices|
      ensures Enabled(c', run[i], choices[i].t, choices[i].call)
      ensures run[i + 1] == Step(c', run[i], choices[i].t, choices[i].call)
    {
      assert Enabled(c, run[i], choices[i].t, choices[i].call);
      RunKeepsCounters(c, run, choices, i);
    }
  }

  // ---------------------------------------------------------------- two takers

  /** A take that finds no entry: its count is taken off and not yet put back. */
  lemma TakeRefused(c: Config, s: State, t: nat, r: RingId) returns (s': State)
    requires c.depth > 0 && Reachable(c, s) && t < |s.threads| && s.threads[t].pc.Idle? && MayTake(c, t, r)
    requires Rg(s, r).count <= 0
    ensures Reachable(c, s') && Moved(s, s', t, r)
    ensures s'.threads[t] == Thread(TakeUndo(r, Try), s.threads[t].hand)
    ensures Rg(s', r) == Rg(s, r).(count := Rg(s, r).count - 1)
  {
    var s1 := OneStep(c, s, t, Take(r, false), r);
    s' := OneStep(c, s1, t, Take(r, false), r);
  }

  lemma TakeGivesUp(c: Config, s: State, t: nat, r: RingId) returns (s': State)
    requires c.depth > 0 && Reachable(c, s) && t < |s.threads| && s.threads[t].pc == TakeUndo(r, Try)
    ensures Reachable(c, s') && Moved(s, s', t, r)
    ensures s'.threads[t] == Thread(Idle, s.threads[t].hand)
    ensures Rg(s', r) == Rg(s, r).(count := Rg(s, r).count + 1)
  {
    s' := OneStep(c, s, t, Take(r, false), r);
  }

  /** A blocking take that finds no entry, up to its registration. */
  lemma TakeRegisters(c: Config, s: State, t: nat, r: RingId) returns (s': State)
    requires c.depth > 0 && Reachable(c, s) && t < |s.threads| && s.threads[t].pc.Idle? && MayTake(c, t, r)
    requires Rg(s, r).count <= 0
    ensures Reachable(c, s') && Only(s, s', t, r)
    ensures s'.threads[t] == Thread(TakeRegister(r), s.threads[t].hand) && Rg(s', r) == Rg(s, r)
  {
    var call := Take(r, true);
    var s1 := OneStep(c, s, t, call, r);
    var s2 := OneStep(c, s1, t, call, r);
    s' := OneStep(c, s2, t, call, r);
  }

  ghost predicate Only(s: State, s': State, t: nat, r: RingId) {
    && t < |s.threads| && |s'.threads| == |s.threads|
    && (forall u :: 0 <= u < |s.threads| && u != t ==> s'.threads[u] == s.threads[u])
  }

  /** The registered attempt fails as well, and the thread goes to sleep. */
  lemma TakeSleeps(c: Config, s: State, t: nat, r: RingId) returns (s': State)
    requires c.depth > 0 && Reachable(c, s) && t < |s.threads| && s.threads[t].pc == TakeRegister(r)
    requires Rg(s, r).count <= 0
    ensures Reachable(c, s') && Only(s, s', t, r)
    ensures s'.threads[t] == Thread(TakeWait(r), s.threads[t].hand)
    ensures Rg(s', r).count == Rg(s, r).count && Rg(s', r).sem == Rg(s, r).sem
  {
    var call := Take(r, true);
    var s1 := OneStep(c, s, t, call, r);
    var s2 := OneStep(c, s1, t, call, r);
    s' := OneStep(c, s2, t, call, r);
  }

  /** Ring r has no entries, thread t a message that it may put there, and nothing
      is going on. */
  ghost predicate Dry(c: Config, s: State, t: nat, m: nat, r: RingId)
    requires c.depth > 0
  {
    && AllIdle(c, s) && t < c.threads && m in s.threads[t].hand
    && var g := Rg(s, r);
       && |g.slots| == c.depth && g.slots[g.putPos % c.depth].None? && g.count == 0 && g.blocked == 0 && g.sem == 0
  }

  /** Thread t has allocated the first i blocks. */
  ghost predicate Drained(c: Config, s: State, t: nat, i: nat)
    requires c.depth > 0
  {
    && AllIdle(c, s) && t < c.threads && (i > 0 ==> 0 in s.threads[t].hand)
    && var f, q := s.freelist, s.queue;
       && |f.slots| == c.depth && (forall k :: 0 <= k < c.depth ==> f.slots[k] == if k < i then None else Some(k))
       && f.count == c.depth - i && f.takePos % c.depth == i % c.depth && f.putPos % c.depth == 0
       && f.blocked == 0 && f.sem == 0 && q == EmptyRing(c.depth)
  }

  lemma DrainOne(c: Config, s: State, t: nat, i: nat) returns (s': State)
    requires ValidConfig(c) && Reachable(c, s) && Drained(c, s, t, i) && i < c.depth && MayTake(c, t, Freelist)
    ensures Reachable(c, s') && Drained(c, s', t, i + 1)
  {
    Arith.SmallMod(i, c.depth);
    s' := TakeOne(c, s, t, Freelist, i);
    assert s'.queue == Rg(s', Other(Freelist));
  }

  lemma {:induction false} Drain(c: Config, t: nat, i: nat) returns (s: State)
    requires ValidConfig(c) && i <= c.depth && t < c.threads && MayTake(c, t, Freelist)
    ensures Reachable(c, s) && Drained(c, s, t, i)
  {
    if i == 0 {
      InitReachable(c);
      s := Init(c);
      Arith.SmallMod(0, c.depth);
    } else {
      s := Drain(c, t, i - 1);
      s := DrainOne(c, s, t, i - 1);
    }
  }

  lemma DryUp(c: Config, t: nat, r: RingId) returns (s: State)
    requires ValidConfig(c) && t < c.threads && MayTake(c, t, Freelist)
    ensures Reachable(c, s) && Dry(c, s, t, 0, r)
  {
    s := Drain(c, t, if r == Freelist then c.depth else 1);
    Arith.SmallMod(0, c.depth);
  }

  /** Thread u is about to take back its count, and so hides the one entry. */
  ghost predicate Hidden(c: Config, s: State, t: nat, u: nat, r: RingId) {
    && |s.threads| == c.threads && t < c.threads && u < c.threads && t != u
    && s.threads[u].pc == TakeUndo(r, Try)
    && (forall v :: 0 <= v < |s.threads| && v != u && v != t ==> s.threads[v].pc.Idle?)
    && Rg(s, r).count == 0 && Rg(s, r).sem == 0
  }

  lemma Hide(c: Config, t: nat, u: nat, r: RingId) returns (s: State)
    requires ValidConfig(c) && t < c.threads && u < c.threads && t != u && r !in c.soleTaker
    requires MayTake(c, t, Freelist) && MayPut(c, t, r)
    ensures Reachable(c, s) && Hidden(c, s, t, u, r) && s.threads[t].pc.Idle?
  {
    s := DryUp(c, t, r);
    s := TakeRefused(c, s, u, r);
    s := PutOne(c, s, t, r, 0);
  }

  lemma SleepHidden(c: Config, s: State, t: nat, u: nat, r: RingId) returns (s': State)
    requires c.depth > 0 && Reachable(c, s) && Hidden(c, s, t, u, r) && s.threads[t].pc.Idle? && MayTake(c, t, r)
    ensures Reachable(c, s') && Hidden(c, s', t, u, r) && s'.threads[t].pc == TakeWait(r)
  {
    s' := TakeRegisters(c, s, t, r);
    s' := TakeSleeps(c, s', t, r);
  }

  lemma Reappears(c: Config, s: State, t: nat, u: nat, r: RingId) returns (s': State)
    requires c.depth > 0 && Reachable(c, s) && Hidden(c, s, t, u, r) && s.threads[t].pc == TakeWait(r)
    ensures Reachable(c, s') && Forgotten(s', t, r)
  {
    s' := TakeGivesUp(c, s, u, r);
    forall v | 0 <= v < |s'.threads| ensures !Putting(s'.threads[v].pc, r) {
      assert v == u || s'.threads[v] == s.threads[v];
    }
  }

  /** Thread u tries to take and fails; before it takes back its count, thread t
      puts a message and, finding no entry for itself, goes to sleep. */
  lemma TwoTakersForget(c: Config, t: nat, r: RingId) returns (s: State)
    requires ValidConfig(c) && t < c.threads && c.threads > 1 && r !in c.soleTaker
    requires MayTake(c, t, Freelist) && MayPut(c, t, r)
    ensures Reachable(c, s) && Forgotten(s, t, r)
  {
    var u := if t == 0 then 1 else 0;
    s := Hide(c, t, u, r);
    s := SleepHidden(c, s, t, u, r);
    s := Reappears(c, s, t, u, r);
  }

  /** If some thread may allocate and put what it allocates into ring r, then
      wake-ups on r are never lost exactly when one thread only takes from r. */
  lemma AwakeExact(c: Config, t: nat, r: RingId)
    requires ValidConfig(c) && t < c.threads && MayTake(c, t, Freelist) && MayPut(c, t, r)
    ensures Awake(c, r) <==> r in c.soleTaker || c.threads == 1
  {
    if r in c.soleTaker {
      OneTakerAwake(c, r);
    } else if c.threads == 1 {
      OneThreadAwake(c, r);
    } else {
      var s := TwoTakersForget(c, t, r);
    }
  }
}
