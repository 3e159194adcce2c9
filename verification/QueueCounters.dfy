/** The counter equations of the message queue: true in every reachable state,
    for any number of threads and with no restriction on who takes or puts. */
module QueueCounters {
  import opened Basics
  import opened QueueModel

  /** The kinds of threads that the counters account for. */
  datatype Kind = Claimed | Undoing | Uncounted | Posting | Waiting | Notifying

  predicate IsKind(pc: Pc, r: RingId, kind: Kind) {
    match kind
    case Claimed => pc.TakeTicket? && pc.r == r
    case Undoing => pc.TakeUndo? && pc.r == r
    case Uncounted => (pc.PutSpin? || pc.PutStore? || pc.PutCount?) && pc.r == r
    case Posting => pc.PutPost? && pc.r == r
    // between counting a put and finishing with the sleepers
    case Notifying => (pc.PutCheck? || pc.PutDec? || pc.PutPost?) && pc.r == r
    // from the increment of blocked_readers to the decrement or the wake-up
    case Waiting =>
      || ((pc.TakeUnregister? || pc.TakeWait?) && pc.r == r)
      || ((pc.TakeClaim? || pc.TakeTicket? || pc.TakeSpin? || pc.TakeClear? || pc.TakeUndo?) && pc.r == r &&
          pc.mode == Registered)
  }

  function Tally(ts: seq<Thread>, r: RingId, kind: Kind): nat {
    if |ts| == 0 then 0
    else Tally(ts[..|ts| - 1], r, kind) + if IsKind(ts[|ts| - 1].pc, r, kind) then 1 else 0
  }

  lemma {:induction false} TallyUpdate(ts: seq<Thread>, t: nat, th: Thread, r: RingId, kind: Kind)
    requires t < |ts|
    ensures Tally(ts[t := th], r, kind)
         == Tally(ts, r, kind)
          + (if IsKind(th.pc, r, kind) then 1 else 0) - (if IsKind(ts[t].pc, r, kind) then 1 else 0)
  {
    var n := |ts| - 1;
    if t == n {
      assert ts[t := th][..n] == ts[..n];
    } else {
      assert ts[t := th][..n] == ts[..n][t := th];
      TallyUpdate(ts[..n], t, th, r, kind);
    }
  }

  lemma {:induction false} TallyIdle(ts: seq<Thread>, r: RingId, kind: Kind)
    requires forall t :: 0 <= t < |ts| ==> ts[t].pc == Idle
    ensures Tally(ts, r, kind) == 0
  {
    if |ts| > 0 {
      TallyIdle(ts[..|ts| - 1], r, kind);
    }
  }

  lemma {:induction false} TallyBound(ts: seq<Thread>, r: RingId, kind: Kind)
    ensures Tally(ts, r, kind) <= |ts|
  {
    if |ts| > 0 {
      TallyBound(ts[..|ts| - 1], r, kind);
    }
  }

  lemma {:induction false} TallyMember(ts: seq<Thread>, t: nat, r: RingId, kind: Kind)
    requires t < |ts| && IsKind(ts[t].pc, r, kind)
    ensures Tally(ts, r, kind) >= 1
  {
    if t < |ts| - 1 {
      TallyMember(ts[..|ts| - 1], t, r, kind);
    }
  }

  /** A positive tally names a thread. */
  lemma {:induction false} TallyWitness(ts: seq<Thread>, r: RingId, kind: Kind) returns (t: nat)
    requires Tally(ts, r, kind) > 0
    ensures t < |ts| && IsKind(ts[t].pc, r, kind)
  {
    if IsKind(ts[|ts| - 1].pc, r, kind) {
      t := |ts| - 1;
    } else {
      t := TallyWitness(ts[..|ts| - 1], r, kind);
    }
  }

  /** Puts whose increment of the counter has happened. */
  function Counted(g: Ring, ts: seq<Thread>, r: RingId): int {
    |g.msgs| - Tally(ts, r, Uncounted)
  }

  ghost predicate CountInv(g: Ring, ts: seq<Thread>, r: RingId) {
    && g.count == Counted(g, ts, r) - |g.taker| - Tally(ts, r, Claimed) - Tally(ts, r, Undoing)
    && |g.taker| + Tally(ts, r, Claimed) <= Counted(g, ts, r)
  }

  ghost predicate SemInv(g: Ring, ts: seq<Thread>, r: RingId) {
    && g.blocked < WORD
    && (g.blocked + g.sem + Tally(ts, r, Posting) - Tally(ts, r, Waiting)) % WORD == 0
  }

  lemma ActKeepsCount(depth: nat, g: Ring, ts: seq<Thread>, loc: map<nat, Loc>, t: nat, call: Call)
    requires depth > 0 && t < |ts| && Ready(g, ts[t].pc)
    requires CountInv(g, ts, RingOf(ts[t].pc, call))
    ensures var e := Act(depth, g, ts[t], loc, t, call);
            CountInv(e.ring, ts[t := Thread(e.pc, e.hand)], RingOf(ts[t].pc, call))
  {
    var r := RingOf(ts[t].pc, call);
    var e := Act(depth, g, ts[t], loc, t, call);
    TallyUpdate(ts, t, Thread(e.pc, e.hand), r, Claimed);
    TallyUpdate(ts, t, Thread(e.pc, e.hand), r, Undoing);
    TallyUpdate(ts, t, Thread(e.pc, e.hand), r, Uncounted);
  }

  lemma WrapAdd(b: int, d: int, rest: int)
    ensures ((b + d) % WORD + rest) % WORD == (b + d + rest) % WORD
  {
    var q := (b + d) / WORD;
    assert b + d == q * WORD + (b + d) % WORD;
  }

  /** Steps that change blocked_readers. */
  lemma ActKeepsSemBlocked(depth: nat, g: Ring, ts: seq<Thread>, loc: map<nat, Loc>, t: nat, call: Call)
    requires depth > 0 && t < |ts| && Ready(g, ts[t].pc)
    requires ts[t].pc.TakeRegister? || ts[t].pc.TakeUnregister? || ts[t].pc.PutDec?
    requires SemInv(g, ts, ts[t].pc.r)
    ensures var e := Act(depth, g, ts[t], loc, t, call);
            SemInv(e.ring, ts[t := Thread(e.pc, e.hand)], ts[t].pc.r)
  {
    var r := ts[t].pc.r;
    var e := Act(depth, g, ts[t], loc, t, call);
    TallyUpdate(ts, t, Thread(e.pc, e.hand), r, Posting);
    TallyUpdate(ts, t, Thread(e.pc, e.hand), r, Waiting);
    var rest := g.sem + Tally(ts, r, Posting) - Tally(ts, r, Waiting);
    var d := if ts[t].pc.TakeRegister? then 1 else -1;
    WrapAdd(g.blocked, d, rest - d);
  }

  lemma ActKeepsSem(depth: nat, g: Ring, ts: seq<Thread>, loc: map<nat, Loc>, t: nat, call: Call)
    requires depth > 0 && t < |ts| && Ready(g, ts[t].pc)
    requires SemInv(g, ts, RingOf(ts[t].pc, call))
    ensures var e := Act(depth, g, ts[t], loc, t, call);
            SemInv(e.ring, ts[t := Thread(e.pc, e.hand)], RingOf(ts[t].pc, call))
  {
    var r := RingOf(ts[t].pc, call);
    var e := Act(depth, g, ts[t], loc, t, call);
    if ts[t].pc.TakeRegister? || ts[t].pc.TakeUnregister? || ts[t].pc.PutDec? {
      ActKeepsSemBlocked(depth, g, ts, loc, t, call);
    } else {
      TallyUpdate(ts, t, Thread(e.pc, e.hand), r, Posting);
      TallyUpdate(ts, t, Thread(e.pc, e.hand), r, Waiting);
    }
  }

  /** A step on one ring leaves the other ring's counts alone. */
  lemma ActKeepsOther(depth: nat, g: Ring, ts: seq<Thread>, loc: map<nat, Loc>, t: nat, call: Call, r: RingId,
      kind: Kind)
    requires depth > 0 && t < |ts| && Ready(g, ts[t].pc) && r != RingOf(ts[t].pc, call)
    ensures var e := Act(depth, g, ts[t], loc, t, call);
            Tally(ts[t := Thread(e.pc, e.hand)], r, kind) == Tally(ts, r, kind)
  {
    var e := Act(depth, g, ts[t], loc, t, call);
    TallyUpdate(ts, t, Thread(e.pc, e.hand), r, kind);
  }

  /** The counters of every ring agree with what the threads are doing. */
  ghost predicate Counters(s: State) {
    forall r: RingId :: CountInv(Rg(s, r), s.threads, r) && SemInv(Rg(s, r), s.threads, r)
  }

  lemma InitCounters(c: Config)
    requires c.depth > 0
    ensures Counters(Init(c))
  {
    forall r: RingId, kind: Kind ensures Tally(Init(c).threads, r, kind) == 0 {
      TallyIdle(Init(c).threads, r, kind);
    }
  }

  lemma StepCounters(c: Config, s: State, t: nat, call: Call)
    requires c.depth > 0 && Enabled(c, s, t, call) && Counters(s)
    ensures Counters(Step(c, s, t, call))
  {
    var r := RingOf(s.threads[t].pc, call);
    ActKeepsCount(c.depth, Rg(s, r), s.threads, s.loc, t, call);
    ActKeepsSem(c.depth, Rg(s, r), s.threads, s.loc, t, call);
    var s' := Step(c, s, t, call);
    forall r': RingId ensures CountInv(Rg(s', r'), s'.threads, r') && SemInv(Rg(s', r'), s'.threads, r') {
      if r' != r {
        forall kind ensures Tally(s'.threads, r', kind) == Tally(s.threads, r', kind) {
          ActKeepsOther(c.depth, Rg(s, r), s.threads, s.loc, t, call, r', kind);
        }
        assert CountInv(Rg(s, r'), s.threads, r') && SemInv(Rg(s, r'), s.threads, r');
      }
    }
  }

  lemma {:induction false} RunKeepsCounters(c: Config, run: seq<State>, choices: seq<Choice>, i: nat)
    requires IsRun(c, run, choices) && i < |run|
    ensures Counters(run[i]) && |run[i].threads| == c.threads
    decreases i
  {
    if i == 0 {
      InitCounters(c);
    } else {
      RunKeepsCounters(c, run, choices, i - 1);
      StepCounters(c, run[i - 1], choices[i - 1].t, choices[i - 1].call);
    }
  }

  /** In every reachable state of every interleaving, for each ring:
      - `count` is the number of counted puts minus the take tickets drawn, the
        takers about to draw one, and the takers about to undo their decrement;
      - it never passes below minus the number of threads, nor above the number
        of puts that have not been matched by a take ticket;
      - blocked_readers + semaphore + posts in flight equals the number of
        registered readers modulo 2^32. */
  lemma RunCounters(c: Config, run: seq<State>, choices: seq<Choice>, i: nat, r: RingId)
    requires IsRun(c, run, choices) && i < |run|
    ensures Counters(run[i])
    ensures var g, ts := Rg(run[i], r), run[i].threads;
            && g.count == |g.msgs| - Tally(ts, r, Uncounted) - |g.taker| - Tally(ts, r, Claimed) - Tally(ts, r, Undoing)
            && -(c.threads as int) <= g.count <= |g.msgs| - |g.taker|
            && (g.blocked + g.sem + Tally(ts, r, Posting)) % WORD == Tally(ts, r, Waiting) % WORD
  {
    RunKeepsCounters(c, run, choices, i);
    var g, ts := Rg(run[i], r), run[i].threads;
    assert CountInv(g, ts, r) && SemInv(g, ts, r);
    TallyBound(ts, r, Undoing);
    CongruentSum(g.blocked + g.sem + Tally(ts, r, Posting), Tally(ts, r, Waiting));
  }

  lemma CongruentSum(a: int, b: int)
    requires (a - b) % WORD == 0
    ensures a % WORD == b % WORD
  {
    var q := (a - b) / WORD;
    assert a == b + q * WORD;
  }
}
