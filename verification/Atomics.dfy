/** Byte and halfword atomics made from a compare-and-swap on words. */
module Atomics {

  /** The places a byte or a halfword can have in a word, from the low end. */
  datatype Lane = B0 | B1 | B2 | B3 | H0 | H1

  function Load(k: Lane, w: bv32): bv32 {
    match k
    case B0 => w & 0xFF
    case B1 => (w & 0xFF00) >> 8
    case B2 => (w & 0xFF_0000) >> 16
    case B3 => (w & 0xFF00_0000) >> 24
    case H0 => w & 0xFFFF
    case H1 => (w & 0xFFFF_0000) >> 16
  }

  function Store(k: Lane, w: bv32, v: bv32): bv32 {
    match k
    case B0 => (v & 0xFF) | (w & !0xFF)
    case B1 => ((v << 8) & 0xFF00) | (w & !0xFF00)
    case B2 => ((v << 16) & 0xFF_0000) | (w & !0xFF_0000)
    case B3 => ((v << 24) & 0xFF00_0000) | (w & !0xFF00_0000)
    case H0 => (v & 0xFFFF) | (w & !0xFFFF)
    case H1 => ((v << 16) & 0xFFFF_0000) | (w & !0xFFFF_0000)
  }

  /** The bytes of a word, from the low end. */
  function Byte(w: bv32, i: nat): bv32 {
    if i == 0 then w & 0xFF
    else if i == 1 then (w >> 8) & 0xFF
    else if i == 2 then (w >> 16) & 0xFF
    else (w >> 24) & 0xFF
  }

  predicate Own(k: Lane, i: nat) {
    match k
    case B0 => i == 0
    case B1 => i == 1
    case B2 => i == 2
    case B3 => i == 3
    case H0 => i == 0 || i == 1
    case H1 => i == 2 || i == 3
  }

  /** A value modulo the width of a lane. */
  function Cut(k: Lane, v: bv32): bv32 {
    if k.H0? || k.H1? then v & 0xFFFF else v & 0xFF
  }

  /** A lane holds its own bytes. */
  lemma LoadIsBytes(k: Lane, w: bv32)
    ensures Load(k, w) == match k
      case B0 => Byte(w, 0)
      case B1 => Byte(w, 1)
      case B2 => Byte(w, 2)
      case B3 => Byte(w, 3)
      case H0 => Byte(w, 0) | (Byte(w, 1) << 8)
      case H1 => Byte(w, 2) | (Byte(w, 3) << 8)
  {
    match k
    case B0 =>
    case B1 =>
    case B2 =>
    case B3 =>
    case H0 =>
    case H1 =>
  }

  lemma StoredB0(w: bv32, v: bv32)
    ensures Load(B0, Store(B0, w, v)) == v & 0xFF
  {
  }

  lemma StoredB1(w: bv32, v: bv32)
    ensures Load(B1, Store(B1, w, v)) == v & 0xFF
  {
  }

  lemma StoredB2(w: bv32, v: bv32)
    ensures Load(B2, Store(B2, w, v)) == v & 0xFF
  {
  }

  lemma StoredB3(w: bv32, v: bv32)
    ensures Load(B3, Store(B3, w, v)) == v & 0xFF
  {
  }

  lemma StoredH0(w: bv32, v: bv32)
    ensures Load(H0, Store(H0, w, v)) == v & 0xFFFF
  {
  }

  lemma StoredH1(w: bv32, v: bv32)
    ensures Load(H1, Store(H1, w, v)) == v & 0xFFFF
  {
  }

  /** A store sets its lane... */
  lemma StoredIsLoaded(k: Lane, w: bv32, v: bv32)
    ensures Load(k, Store(k, w, v)) == Cut(k, v)
  {
    match k
    case B0 => StoredB0(w, v);
    case B1 => StoredB1(w, v);
    case B2 => StoredB2(w, v);
    case B3 => StoredB3(w, v);
    case H0 => StoredH0(w, v);
    case H1 => StoredH1(w, v);
  }

  /** ... and no other byte. */
  lemma OthersKept(k: Lane, w: bv32, v: bv32, i: nat)
    requires i < 4 && !Own(k, i)
    ensures Byte(Store(k, w, v), i) == Byte(w, i)
  {
    match k
    case B0 =>
    case B1 =>
    case B2 =>
    case B3 =>
    case H0 =>
    case H1 =>
  }

  // --- Addresses ---

  /** Mask and shift that go with a lane. */
  predicate Computed(k: Lane, m: bv32, s: bv32) {
    match k
    case B0 => m == 0xFF && s == 0
    case B1 => m == 0xFF && s == 8
    case B2 => m == 0xFF && s == 16
    case B3 => m == 0xFF && s == 24
    case H0 => m == 0xFFFF && s == 0
    case H1 => m == 0xFFFF && s == 16
  }

  /** The lane at an address: its bytes count from the low end on a little-endian
      machine, and from the high end on a big-endian one. */
  function LaneFor(wide: bool, little: bool, ptr: bv32): Lane {
    var o := ptr & 3;
    if wide then if (o == 0) == little then H0 else H1
    else if o == 0 then if little then B0 else B3
    else if o == 1 then if little then B1 else B2
    else if o == 2 then if little then B2 else B1
    else if little then B3 else B0
  }

  function MaskOf(wide: bool): bv32 {
    if wide then 0xFFFF else 0xFF
  }

  function ShiftOf(wide: bool, little: bool, ptr: bv32): (s: bv32)
    ensures s < 32
  {
    ((ptr & 3) << 3) ^ if little then 0 else if wide then 16 else 24
  }

  lemma AddressLane(wide: bool, little: bool, ptr: bv32)
    requires wide ==> ptr & 1 == 0
    ensures Computed(LaneFor(wide, little, ptr), MaskOf(wide), ShiftOf(wide, little, ptr))
  {
  }

  /** Where the byte at an address is in its word. */
  function PlaceOf(little: bool, address: bv32): nat {
    var o := if address & 3 == 0 then 0 else if address & 3 == 1 then 1 else if address & 3 == 2 then 2 else 3;
    if little then o else 3 - o
  }

  /** The lane of an address consists of the bytes at that address, and at the next one if
      it is a halfword. */
  lemma LaneOwns(wide: bool, little: bool, ptr: bv32, i: nat)
    requires (wide ==> ptr & 1 == 0) && i < 4
    ensures Own(LaneFor(wide, little, ptr), i) <==>
              i == PlaceOf(little, ptr) || (wide && i == PlaceOf(little, ptr + 1))
  {
    var o := ptr & 3;
    NextPlace(ptr);
    assert o == 0 || o == 1 || o == 2 || o == 3;
  }

  lemma NextPlace(ptr: bv32)
    ensures ptr & 1 == 0 ==> (ptr & 3 == 0 || ptr & 3 == 2) && (ptr + 1) & 3 == (ptr & 3) + 1
  {
  }

  /** The code's expressions, for a mask m << s. */
  function Extract(m: bv32, s: bv32, w: bv32): bv32
    requires s < 32
  {
    (w & (m << s)) >> s
  }

  function Insert(m: bv32, s: bv32, w: bv32, v: bv32): bv32
    requires s < 32
  {
    ((v << s) & (m << s)) | (w & !(m << s))
  }

  /** They load and store the lane. */
  lemma CodeLoad(k: Lane, m: bv32, s: bv32, w: bv32)
    requires Computed(k, m, s)
    ensures s < 32 && Extract(m, s, w) == Load(k, w)
  {
    match k
    case B0 =>
    case B1 =>
    case B2 =>
    case B3 =>
    case H0 =>
    case H1 =>
  }

  lemma CodeStore(k: Lane, m: bv32, s: bv32, w: bv32, v: bv32)
    requires Computed(k, m, s)
    ensures s < 32 && Insert(m, s, w, v) == Store(k, w, v)
  {
    match k
    case B0 =>
    case B1 =>
    case B2 =>
    case B3 =>
    case H0 =>
    case H1 =>
  }

  // --- The loops ---

  datatype Op = Add | Sub | Or | And | Xor | Nand | Put

  function Apply(op: Op, x: bv32, v: bv32): bv32 {
    match op
    case Add => x + v
    case Sub => x - v
    case Or => x | v
    case And => x & v
    case Xor => x ^ v
    case Nand => !(x & v)
    case Put => v
  }

  // A bitwise operation works on any part m of the bits by itself, and on words
  // of all ones and all zeros by its table.

  const ONES: bv32 := 0xFFFF_FFFF

  lemma OrOp(x: bv32, v: bv32, m: bv32)
    ensures Apply(Or, x, v) & m == Apply(Or, x & m, v & m) & m
    ensures Apply(Or, ONES, ONES) == ONES && Apply(Or, ONES, 0) == ONES
    ensures Apply(Or, 0, ONES) == ONES && Apply(Or, 0, 0) == 0
  {
  }

  lemma AndOp(x: bv32, v: bv32, m: bv32)
    ensures Apply(And, x, v) & m == Apply(And, x & m, v & m) & m
    ensures Apply(And, ONES, ONES) == ONES && Apply(And, ONES, 0) == 0
    ensures Apply(And, 0, ONES) == 0 && Apply(And, 0, 0) == 0
  {
  }

  lemma XorOp(x: bv32, v: bv32, m: bv32)
    ensures Apply(Xor, x, v) & m == Apply(Xor, x & m, v & m) & m
    ensures Apply(Xor, ONES, ONES) == 0 && Apply(Xor, ONES, 0) == ONES
    ensures Apply(Xor, 0, ONES) == ONES && Apply(Xor, 0, 0) == 0
  {
  }

  lemma NandOp(x: bv32, v: bv32, m: bv32)
    ensures Apply(Nand, x, v) & m == Apply(Nand, x & m, v & m) & m
    ensures Apply(Nand, ONES, ONES) == 0 && Apply(Nand, ONES, 0) == ONES
    ensures Apply(Nand, 0, ONES) == ONES && Apply(Nand, 0, 0) == ONES
  {
  }

  /** Addition counts up, one by one... */
  lemma AddOp(x: bv32, v: bv32)
    ensures Apply(Add, x, 0) == x && Apply(Add, x, v + 1) == Apply(Add, x, v) + 1
  {
  }

  /** ... and subtraction counts down. */
  lemma SubOp(x: bv32, v: bv32)
    ensures Apply(Sub, x, 0) == x && Apply(Sub, x, v + 1) == Apply(Sub, x, v) - 1
  {
  }

  /** One round of a loop: the word as it was read, and as it was when the
      compare-and-swap came to it. */
  datatype Round = Round(seen: bv32, found: bv32)

  datatype Result = Spinning | Returned(round: nat, after: bv32, value: bv32)

  /** Nobody else's change came between the reading and the swap of the last round,
      and every round before it lost to one. */
  ghost predicate FirstWon(rounds: seq<Round>, i: nat) {
    i < |rounds| && rounds[i].seen == rounds[i].found && forall j :: 0 <= j < i ==> rounds[j].seen != rounds[j].found
  }

  /** The word changes from `before` to `after` by a store of v into one lane. */
  ghost predicate LaneStore(k: Lane, before: bv32, after: bv32, v: bv32) {
    Load(k, after) == Cut(k, v) && forall i: nat :: i < 4 && !Own(k, i) ==> Byte(after, i) == Byte(before, i)
  }

  lemma StoreIsLaneStore(k: Lane, w: bv32, v: bv32)
    ensures LaneStore(k, w, Store(k, w, v), v)
  {
    StoredIsLoaded(k, w, v);
    forall i: nat | i < 4 && !Own(k, i) ensures Byte(Store(k, w, v), i) == Byte(w, i) {
      OthersKept(k, w, v, i);
    }
  }

  /** SUBWORD_SYNC_OP, and with Put SUBWORD_TEST_AND_SET.  Whatever others do to the word
      between the accesses, the operation happens at one moment, that of the first swap
      that succeeds, on the lane alone, and returns its value before or after. */
  method FetchAndOp(wide: bool, little: bool, ptr: bv32, op: Op, val: bv32, returnsNew: bool,
      rounds: seq<Round>) returns (r: Result)
    requires wide ==> ptr & 1 == 0
    ensures r.Spinning? <==> forall j :: 0 <= j < |rounds| ==> rounds[j].seen != rounds[j].found
    ensures r.Returned? ==>
      var k := LaneFor(wide, little, ptr);
      && FirstWon(rounds, r.round)
      && var before := rounds[r.round].found;
         && LaneStore(k, before, r.after, Apply(op, Load(k, before), val))
         && r.value == Load(k, if returnsNew then r.after else before)
  {
    var mask, shift := MaskOf(wide), ShiftOf(wide, little, ptr);
    var i := 0;
    while i < |rounds|
      invariant i <= |rounds| && forall j :: 0 <= j < i ==> rounds[j].seen != rounds[j].found
    {
      var oldval := rounds[i].seen;
      var newval := Insert(mask, shift, oldval, Apply(op, Extract(mask, shift, oldval), val));
      if rounds[i].found == oldval {
        RoundEffect(wide, little, ptr, op, oldval, val);
        return Returned(i, newval, Extract(mask, shift, if returnsNew then newval else oldval));
      }
      i := i + 1;
    }
    r := Spinning;
  }

  /** What one round does if its swap succeeds. */
  lemma RoundEffect(wide: bool, little: bool, ptr: bv32, op: Op, w: bv32, val: bv32)
    requires wide ==> ptr & 1 == 0
    ensures var k, m, s := LaneFor(wide, little, ptr), MaskOf(wide), ShiftOf(wide, little, ptr);
            var after := Insert(m, s, w, Apply(op, Extract(m, s, w), val));
            && LaneStore(k, w, after, Apply(op, Load(k, w), val))
            && Extract(m, s, w) == Load(k, w) && Extract(m, s, after) == Load(k, after)
  {
    var k, m, s := LaneFor(wide, little, ptr), MaskOf(wide), ShiftOf(wide, little, ptr);
    AddressLane(wide, little, ptr);
    CodeLoad(k, m, s, w);
    var v := Apply(op, Extract(m, s, w), val);
    CodeStore(k, m, s, w, v);
    CodeLoad(k, m, s, Insert(m, s, w, v));
    StoreIsLaneStore(k, w, v);
  }

  datatype CasResult = CasSpinning | Refused(round: nat, value: bv32) | Swapped(round: nat, after: bv32, value: bv32)

  /** Each of the first n rounds found the expected value in the lane and lost its
      swap to a change of the word. */
  ghost predicate AllLost(k: Lane, rounds: seq<Round>, n: nat, oldval: bv32) {
    && n <= |rounds|
    && forall j :: 0 <= j < n ==> rounds[j].seen != rounds[j].found && Load(k, rounds[j].seen) == oldval
  }

  /** SUBWORD_VAL_CAS.  A change of other bytes in the meantime only costs another round:
      the operation stores exactly when it finds the expected value in its lane, and
      returns what it found there (so SUBWORD_BOOL_CAS tells which it was). */
  method CompareAndSwap(wide: bool, little: bool, ptr: bv32, oldval: bv32, newval: bv32, rounds: seq<Round>)
      returns (r: CasResult)
    requires wide ==> ptr & 1 == 0
    ensures var k := LaneFor(wide, little, ptr);
            match r
            case Refused(n, value) =>
              n < |rounds| && AllLost(k, rounds, n, oldval) && value == Load(k, rounds[n].seen) != oldval
            case Swapped(n, after, value) =>
              && n < |rounds| && AllLost(k, rounds, n, oldval) && rounds[n].seen == rounds[n].found
              && var before := rounds[n].found;
                 value == oldval == Load(k, before) && LaneStore(k, before, after, newval)
            case CasSpinning => AllLost(k, rounds, |rounds|, oldval)
  {
    var mask, shift := MaskOf(wide), ShiftOf(wide, little, ptr);
    var i := 0;
    while i < |rounds|
      invariant i <= |rounds| && AllLost(LaneFor(wide, little, ptr), rounds, i, oldval)
    {
      var actual := rounds[i].seen;
      RoundEffect(wide, little, ptr, Put, actual, newval);
      if Extract(mask, shift, actual) != oldval {
        return Refused(i, Extract(mask, shift, actual));
      }
      var word := Insert(mask, shift, actual, newval);
      if rounds[i].found == actual {
        return Swapped(i, word, oldval);
      }
      i := i + 1;
    }
    r := CasSpinning;
  }
}
