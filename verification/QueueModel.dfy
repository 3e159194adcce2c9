/** The lock-free message queue as an interleaved state machine.

    Every step is one atomic operation of one thread: one fetch-and-add, one
    slot load, one slot store, or one semaphore operation.  `alloc`/`free` and
    `tryread`/`write` run the same code over two different rings, so the steps
    are written once, for a ring `r`.

    The fields of `Ring` after `sem`, and `State.loc`, are history: they record
    what happened and no step branches on them. */
module QueueModel {
  import opened Basics

  datatype RingId = Freelist | Queue

  datatype Ring = Ring(
    slots: seq<Option<nat>>,    // freelist[] / queue_data[]
    count: int,                 // free_blocks / entries
    takePos: nat,               // allocpos / readpos, a 32-bit counter
    putPos: nat,                // freepos / writepos, a 32-bit counter
    blocked: nat,               // blocked_readers, a 32-bit counter
    sem: nat,                   // value of the semaphore
    msgs: seq<nat>,             // the message of each put ticket
    putter: seq<nat>,           // the thread that drew each put ticket
    taker: seq<nat>,            // the thread that drew each take ticket
    stored: set<nat>,           // put tickets whose slot store has happened
    results: map<nat, nat>)     // what each finished take ticket returned

  /** How an attempt to take was reached: a non-blocking call, an attempt of a
      blocking call outside its registration, or one while it is registered. */
  datatype Mode = Try | Fresh | Registered

  datatype Pc =
    | Idle
    | TakeClaim(r: RingId, mode: Mode)
    | TakeTicket(r: RingId, mode: Mode)
    | TakeSpin(r: RingId, mode: Mode, pos: nat, k: nat)
    | TakeClear(r: RingId, mode: Mode, pos: nat, k: nat, rv: nat)
    | TakeUndo(r: RingId, mode: Mode)
    | TakeRegister(r: RingId)
    | TakeUnregister(r: RingId)
    | TakeWait(r: RingId)
    | PutTicket(r: RingId, m: nat)
    | PutSpin(r: RingId, m: nat, pos: nat, k: nat)
    | PutStore(r: RingId, m: nat, pos: nat, k: nat)
    | PutCount(r: RingId)
    | PutCheck(r: RingId)
    | PutDec(r: RingId)
    | PutPost(r: RingId)

  datatype Thread = Thread(pc: Pc, hand: set<nat>)

  datatype Loc = InRing(r: RingId, k: nat) | InHand(t: nat)

  datatype State = State(freelist: Ring, queue: Ring, threads: seq<Thread>, loc: map<nat, Loc>)

  /** What an idle thread may call. */
  datatype Call = Take(r: RingId, blocking: bool) | Put(r: RingId, m: nat)

  /** `soleTaker`/`solePutter` name, for the rings in their domain, the only
      thread that takes from (puts into) that ring. */
  datatype Config = Config(depth: nat, threads: nat, soleTaker: map<RingId, nat>, solePutter: map<RingId, nat>)

  /** The depth that message_queue_init computes is a power of two up to 2^31. */
  predicate ValidConfig(c: Config) {
    c.depth > 0 && WORD % c.depth == 0
  }

  /** Each ring has one taking thread or one putting thread. */
  predicate OneSided(c: Config) {
    forall r: RingId :: r in c.soleTaker || r in c.solePutter
  }

  /** What makes a ring safe: it has one taking or one putting thread, or there
      are too few blocks or too few threads for a slot to be mistaken. */
  predicate Guarded(c: Config, r: RingId) {
    r in c.soleTaker || r in c.solePutter || c.depth <= 2 || c.threads <= 2
  }

  function Rg(s: State, r: RingId): Ring {
    if r == Freelist then s.freelist else s.queue
  }

  function SetRg(s: State, r: RingId, g: Ring): State {
    if r == Freelist then s.(freelist := g) else s.(queue := g)
  }

  function EmptyRing(depth: nat): Ring {
    Ring(seq(depth, _ => None), 0, 0, 0, 0, 0, [], [], [], {}, map[])
  }

  /** The first n tickets. */
  function Below(n: nat): (r: set<nat>)
    ensures forall k: nat :: k in r <==> k < n
  {
    if n == 0 then {} else Below(n - 1) + {n - 1}
  }

  /** The freelist starts full: block i sits in slot i under put ticket i. */
  function FullRing(depth: nat): Ring {
    Ring(seq(depth, i => Some(i)), depth, 0, 0, 0, 0,
         seq(depth, i => i), seq(depth, _ => 0), [], Below(depth), map[])
  }

  function Init(c: Config): State {
    State(FullRing(c.depth), EmptyRing(c.depth),
          seq(c.threads, _ => Thread(Idle, {})),
          map b | 0 <= b < c.depth :: InRing(Freelist, b))
  }

  predicate Allowed(c: Config, s: State, t: nat, call: Call)
    requires t < |s.threads|
  {
    match call
    case Take(r, _) => r in c.soleTaker ==> c.soleTaker[r] == t
    case Put(r, m) => m in s.threads[t].hand && (r in c.solePutter ==> c.solePutter[r] == t)
  }

  /** The ring on which a thread is working, or is about to work. */
  function RingOf(pc: Pc, call: Call): RingId {
    if pc.Idle? then call.r else pc.r
  }

  /** The array index is in bounds, and a sleeper needs a token. */
  predicate Ready(g: Ring, pc: Pc) {
    match pc
    case TakeWait(_) => g.sem > 0
    case TakeSpin(_, _, pos, _) => pos < |g.slots|
    case TakeClear(_, _, pos, _, _) => pos < |g.slots|
    case PutSpin(_, _, pos, _) => pos < |g.slots|
    case PutStore(_, _, pos, _) => pos < |g.slots|
    case _ => true
  }

  predicate Enabled(c: Config, s: State, t: nat, call: Call) {
    && t < |s.threads|
    && (s.threads[t].pc.Idle? ==> Allowed(c, s, t, call))
    && Ready(Rg(s, RingOf(s.threads[t].pc, call)), s.threads[t].pc)
  }

  /** What a step writes: the thread's program counter and messages, the ring
      it works on, and the location history. */
  datatype Effect = Effect(pc: Pc, ring: Ring, hand: set<nat>, loc: map<nat, Loc>)

  function AfterFailure(r: RingId, mode: Mode): Pc {
    match mode
    case Try => Idle
    case Fresh => TakeRegister(r)
    case Registered => TakeWait(r)
  }

  function AfterSuccess(r: RingId, mode: Mode): Pc {
    if mode == Registered then TakeUnregister(r) else Idle
  }

  /** The step of thread `t`, whose record is `th`, on ring `g`. */
  function Act(depth: nat, g: Ring, th: Thread, loc: map<nat, Loc>, t: nat, call: Call): Effect
    requires depth > 0 && Ready(g, th.pc)
  {
    var e := Effect(th.pc, g, th.hand, loc);
    match th.pc
    case Idle =>
      (match call
       case Take(r, blocking) => e.(pc := TakeClaim(r, if blocking then Fresh else Try))
       case Put(r, m) => e.(pc := PutTicket(r, m)))

    // tryread / alloc
    case TakeClaim(r, mode) =>
      e.(pc := if g.count > 0 then TakeTicket(r, mode) else TakeUndo(r, mode),
         ring := g.(count := g.count - 1))
    case TakeTicket(r, mode) =>
      e.(pc := TakeSpin(r, mode, g.takePos % depth, |g.taker|),
         ring := g.(takePos := (g.takePos + 1) % WORD, taker := g.taker + [t]))
    case TakeSpin(r, mode, pos, k) =>
      if g.slots[pos].None? then e else e.(pc := TakeClear(r, mode, pos, k, g.slots[pos].value))
    case TakeClear(r, mode, pos, k, rv) =>
      e.(pc := AfterSuccess(r, mode),
         ring := g.(slots := g.slots[pos := None], results := g.results[k := rv]),
         hand := th.hand + {rv},
         loc := loc[rv := InHand(t)])
    case TakeUndo(r, mode) =>
      e.(pc := AfterFailure(r, mode), ring := g.(count := g.count + 1))

    // read / alloc_blocking
    case TakeRegister(r) =>
      e.(pc := TakeClaim(r, Registered), ring := g.(blocked := (g.blocked + 1) % WORD))
    case TakeUnregister(r) =>
      e.(pc := Idle, ring := g.(blocked := (g.blocked - 1) % WORD))
    case TakeWait(r) =>
      e.(pc := TakeClaim(r, Fresh), ring := g.(sem := g.sem - 1))

    // write / free
    case PutTicket(r, m) =>
      e.(pc := PutSpin(r, m, g.putPos % depth, |g.msgs|),
         ring := g.(putPos := (g.putPos + 1) % WORD, msgs := g.msgs + [m], putter := g.putter + [t]),
         hand := th.hand - {m},
         loc := loc[m := InRing(r, |g.msgs|)])
    case PutSpin(r, m, pos, k) =>
      if g.slots[pos].None? then e.(pc := PutStore(r, m, pos, k)) else e
    case PutStore(r, m, pos, k) =>
      e.(pc := PutCount(r), ring := g.(slots := g.slots[pos := Some(m)], stored := g.stored + {k}))
    case PutCount(r) =>
      e.(pc := PutCheck(r), ring := g.(count := g.count + 1))
    case PutCheck(r) =>
      e.(pc := if g.blocked != 0 then PutDec(r) else Idle)
    case PutDec(r) =>
      e.(pc := PutPost(r), ring := g.(blocked := (g.blocked - 1) % WORD))
    case PutPost(r) =>
      e.(pc := Idle, ring := g.(sem := g.sem + 1))
  }

  function Apply(s: State, t: nat, r: RingId, e: Effect): State
    requires t < |s.threads|
  {
    SetRg(s, r, e.ring).(threads := s.threads[t := Thread(e.pc, e.hand)], loc := e.loc)
  }

  function EffectOf(c: Config, s: State, t: nat, call: Call): Effect
    requires c.depth > 0 && Enabled(c, s, t, call)
  {
    Act(c.depth, Rg(s, RingOf(s.threads[t].pc, call)), s.threads[t], s.loc, t, call)
  }

  function Step(c: Config, s: State, t: nat, call: Call): State
    requires c.depth > 0 && Enabled(c, s, t, call)
  {
    Apply(s, t, RingOf(s.threads[t].pc, call), EffectOf(c, s, t, call))
  }

  /** One scheduling decision: which thread moves, and what it calls when idle. */
  datatype Choice = Choice(t: nat, call: Call)

  /** `run` is an execution of the queue: any interleaving, any clients. */
  ghost predicate IsRun(c: Config, run: seq<State>, choices: seq<Choice>) {
    && c.depth > 0
    && |run| == |choices| + 1
    && run[0] == Init(c)
    && forall i :: 0 <= i < |choices| ==>
         && Enabled(c, run[i], choices[i].t, choices[i].call)
         && run[i + 1] == Step(c, run[i], choices[i].t, choices[i].call)
  }
}
