/** No lost wake-up: a ring with one taking thread, and any number of threads
    putting.  Nothing here depends on who owns which message. */
module QueueWakeup {
  import opened Basics
  import opened QueueModel
  import opened QueueCounters
  import opened QueueSafety

  /** Only `taker` is ever at work taking from ring r. */
  ghost predicate OnlyTaker(ts: seq<Thread>, taker: nat, r: RingId) {
    forall t :: 0 <= t < |ts| && t != taker ==> !Taking(ts[t].pc, r)
  }

  /** The taker has failed its registered attempt and not been woken. */
  predicate GoingToSleep(pc: Pc, r: RingId) {
    pc == TakeWait(r) || pc == TakeUndo(r, Registered)
  }

  /** A taker on its way to sleep has an empty ring, or a token, or a putter
      that has not finished with the sleepers. */
  ghost predicate Watched(g: Ring, ts: seq<Thread>, taker: nat, r: RingId) {
    taker < |ts| && GoingToSleep(ts[taker].pc, r) ==>
      || g.sem > 0
      || Tally(ts, r, Notifying) > 0
      || g.count + (if ts[taker].pc.TakeUndo? then 1 else 0) <= 0
  }

  lemma {:induction false} TallyOnly(ts: seq<Thread>, taker: nat, r: RingId, kind: Kind)
    requires forall t :: 0 <= t < |ts| && t != taker ==> !IsKind(ts[t].pc, r, kind)
    ensures Tally(ts, r, kind) == if taker < |ts| && IsKind(ts[taker].pc, r, kind) then 1 else 0
  {
    if |ts| > 0 {
      TallyOnly(ts[..|ts| - 1], taker, r, kind);
    }
  }

  lemma {:induction false} PostingNotifies(ts: seq<Thread>, r: RingId)
    ensures Tally(ts, r, Posting) <= Tally(ts, r, Notifying)
  {
    if |ts| > 0 {
      PostingNotifies(ts[..|ts| - 1], r);
    }
  }

  lemma ActOnlyTaker(c: Config, g: Ring, ts: seq<Thread>, loc: map<nat, Loc>, t: nat, call: Call, r: RingId)
    requires c.depth > 0 && t < |ts| && Ready(g, ts[t].pc) && CallAllowed(c, ts[t], t, call)
    requires r in c.soleTaker && OnlyTaker(ts, c.soleTaker[r], r)
    ensures var e := Act(c.depth, g, ts[t], loc, t, call);
            OnlyTaker(ts[t := Thread(e.pc, e.hand)], c.soleTaker[r], r)
  {
  }

  /** A putter that finds nobody to wake leaves a token or another poster. */
  lemma UnwatchedCheck(g: Ring, ts: seq<Thread>, taker: nat, r: RingId)
    requires taker < |ts| && OnlyTaker(ts, taker, r) && SemInv(g, ts, r)
    requires GoingToSleep(ts[taker].pc, r) && g.blocked == 0
    ensures g.sem > 0 || Tally(ts, r, Posting) > 0
  {
    TallyOnly(ts, taker, r, Waiting);
  }

  /** Steps of the putters. */
  lemma PutKeepsWatched(c: Config, g: Ring, ts: seq<Thread>, loc: map<nat, Loc>, t: nat, call: Call, taker: nat,
      r: RingId)
    requires c.depth > 0 && t < |ts| && Ready(g, ts[t].pc) && r == RingOf(ts[t].pc, call) && t != taker
    requires OnlyTaker(ts, taker, r) && SemInv(g, ts, r) && Watched(g, ts, taker, r)
    ensures var e := Act(c.depth, g, ts[t], loc, t, call);
            Watched(e.ring, ts[t := Thread(e.pc, e.hand)], taker, r)
  {
    var e := Act(c.depth, g, ts[t], loc, t, call);
    TallyUpdate(ts, t, Thread(e.pc, e.hand), r, Notifying);
    if taker < |ts| && GoingToSleep(ts[taker].pc, r) && ts[t].pc.PutCheck? && e.pc.Idle? {
      UnwatchedCheck(g, ts, taker, r);
      TallyUpdate(ts, t, Thread(e.pc, e.hand), r, Posting);
      PostingNotifies(ts[t := Thread(e.pc, e.hand)], r);
    }
  }

  /** Steps of the taker. */
  lemma TakeKeepsWatched(c: Config, g: Ring, ts: seq<Thread>, loc: map<nat, Loc>, call: Call, taker: nat, r: RingId)
    requires c.depth > 0 && taker < |ts| && Ready(g, ts[taker].pc) && r == RingOf(ts[taker].pc, call)
    requires Watched(g, ts, taker, r)
    ensures var e := Act(c.depth, g, ts[taker], loc, taker, call);
            Watched(e.ring, ts[taker := Thread(e.pc, e.hand)], taker, r)
  {
    var e := Act(c.depth, g, ts[taker], loc, taker, call);
    TallyUpdate(ts, taker, Thread(e.pc, e.hand), r, Notifying);
  }

  lemma OtherKeepsWatched(c: Config, g0: Ring, g: Ring, ts: seq<Thread>, loc: map<nat, Loc>, t: nat, call: Call,
      taker: nat, r: RingId)
    requires c.depth > 0 && t < |ts| && Ready(g0, ts[t].pc) && r != RingOf(ts[t].pc, call)
    requires Watched(g, ts, taker, r)
    ensures var e := Act(c.depth, g0, ts[t], loc, t, call);
            Watched(g, ts[t := Thread(e.pc, e.hand)], taker, r)
  {
    ActKeepsOther(c.depth, g0, ts, loc, t, call, r, Notifying);
  }

  lemma {:induction false} RunWatched(c: Config, run: seq<State>, choices: seq<Choice>, i: nat, r: RingId)
    requires IsRun(c, run, choices) && i < |run| && r in c.soleTaker
    ensures Counters(run[i]) && OnlyTaker(run[i].threads, c.soleTaker[r], r)
    ensures Watched(Rg(run[i], r), run[i].threads, c.soleTaker[r], r)
    decreases i
  {
    RunCounters(c, run, choices, i, r);
    if i > 0 {
      RunWatched(c, run, choices, i - 1, r);
      var s, t, call := run[i - 1], choices[i - 1].t, choices[i - 1].call;
      var r0 := RingOf(s.threads[t].pc, call);
      assert SemInv(Rg(s, r), s.threads, r);
      ActOnlyTaker(c, Rg(s, r0), s.threads, s.loc, t, call, r);
      if r0 != r {
        OtherKeepsWatched(c, Rg(s, r0), Rg(s, r), s.threads, s.loc, t, call, c.soleTaker[r], r);
      } else if t == c.soleTaker[r] {
        TakeKeepsWatched(c, Rg(s, r), s.threads, s.loc, call, t, r);
      } else {
        PutKeepsWatched(c, Rg(s, r), s.threads, s.loc, t, call, c.soleTaker[r], r);
      }
    }
  }

  /** No lost wake-up.  In every reachable state of every interleaving: if the
      taker of a ring sleeps on a zero semaphore and no post is in flight, then
      blocked_readers is exactly 1, so every putter that still has to look at it
      will decide to post, and either the ring has no entries or some putter is
      still about to look or has decided to post. */
  lemma NoLostWakeup(c: Config, run: seq<State>, choices: seq<Choice>, i: nat, r: RingId)
    requires IsRun(c, run, choices) && i < |run| && r in c.soleTaker && c.soleTaker[r] < |run[i].threads|
    requires run[i].threads[c.soleTaker[r]].pc == TakeWait(r)
    requires Rg(run[i], r).sem == 0 && Tally(run[i].threads, r, Posting) == 0
    ensures Rg(run[i], r).blocked == 1
    ensures
      || Rg(run[i], r).count <= 0
      || exists t :: 0 <= t < |run[i].threads| && run[i].threads[t].pc in {PutCheck(r), PutDec(r)}
  {
    RunWatched(c, run, choices, i, r);
    var g, ts, taker := Rg(run[i], r), run[i].threads, c.soleTaker[r];
    assert SemInv(g, ts, r);
    TallyOnly(ts, taker, r, Waiting);
    if g.count > 0 {
      var t := TallyWitness(ts, r, Notifying);
      if ts[t].pc.PutPost? {
        TallyMember(ts, t, r, Posting);
      }
    }
  }

  /** Once the putters have gone, a taker sleeps only on an empty ring: every
      message that was put has been taken. */
  lemma SleepsOnlyWhenEmpty(c: Config, run: seq<State>, choices: seq<Choice>, i: nat, r: RingId)
    requires IsRun(c, run, choices) && i < |run| && r in c.soleTaker && c.soleTaker[r] < |run[i].threads|
    requires run[i].threads[c.soleTaker[r]].pc == TakeWait(r)
    requires Rg(run[i], r).sem == 0
    requires forall t :: 0 <= t < |run[i].threads| ==> !Putting(run[i].threads[t].pc, r)
    ensures |Rg(run[i], r).taker| == |Rg(run[i], r).msgs|
  {
    RunWatched(c, run, choices, i, r);
    var g, ts, taker := Rg(run[i], r), run[i].threads, c.soleTaker[r];
    forall kind | kind in {Posting, Notifying, Uncounted, Claimed, Undoing} ensures Tally(ts, r, kind) == 0 {
      TallyOnly(ts, taker, r, kind);
    }
    assert CountInv(g, ts, r);
  }

  /** A sole taker is refused only when every counted put has been taken. */
  lemma RefusedOnlyWhenEmpty(c: Config, run: seq<State>, choices: seq<Choice>, i: nat, r: RingId, mode: Mode)
    requires IsRun(c, run, choices) && i < |run| && r in c.soleTaker && c.soleTaker[r] < |run[i].threads|
    requires run[i].threads[c.soleTaker[r]].pc == TakeClaim(r, mode)
    ensures Rg(run[i], r).count == |Rg(run[i], r).msgs| - Tally(run[i].threads, r, Uncounted) - |Rg(run[i], r).taker|
    ensures Rg(run[i], r).count >= 0
  {
    RunWatched(c, run, choices, i, r);
    var g, ts, taker := Rg(run[i], r), run[i].threads, c.soleTaker[r];
    TallyOnly(ts, taker, r, Claimed);
    TallyOnly(ts, taker, r, Undoing);
    assert CountInv(g, ts, r);
  }
}
