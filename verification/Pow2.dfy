/** round_to_pow2 of the message queue, on 32-bit words, and why the depth it
    computes makes a wrapping ticket counter step from slot to slot. */
module Pow2 {
  import opened Basics
  import opened QueueModel
  import Arith

  predicate IsPow2(p: bv32) {
    p != 0 && p & (p - 1) == 0
  }

  function Smear(x: bv32): bv32 {
    var a := x | (x >> 1);
    var b := a | (a >> 2);
    var c := b | (b >> 4);
    var d := c | (c >> 8);
    d | (d >> 16)
  }

  /** The least power of two that is at least x, for 1 <= x <= 2^31. */
  function RoundToPow2(x: bv32): (r: bv32)
    ensures 1 <= x <= 0x8000_0000 ==> IsPow2(r) && x <= r && forall p: bv32 :: IsPow2(p) && x <= p ==> r <= p
  {
    Smear(x - 1) + 1
  }

  /** Outside that range the computation gives no usable depth. */
  lemma RoundingFails(x: bv32)
    ensures RoundToPow2(x) == 0 <==> x == 0 || x > 0x8000_0000
  {
  }

  /** A power of two divides 2^32. */
  lemma Pow2Divides(p: bv32)
    requires IsPow2(p)
    ensures p as int > 0 && WORD % (p as int) == 0
  {
  }

  /** The queue that message_queue_init sets up for a requested depth x. */
  lemma InitDepth(x: bv32, threads: nat, soleTaker: map<RingId, nat>, solePutter: map<RingId, nat>)
    requires 1 <= x <= 0x8000_0000
    ensures ValidConfig(Config(RoundToPow2(x) as int, threads, soleTaker, solePutter))
  {
    Pow2Divides(RoundToPow2(x));
  }

  /** If the depth divides 2^32, adding one to a 32-bit ticket counter moves to
      the next slot. */
  lemma SlotAdvances(pos: nat, depth: nat)
    requires depth > 0 && WORD % depth == 0
    ensures ((pos + 1) % WORD) % depth == (pos % depth + 1) % depth
  {
    Arith.WrapMod(pos + 1, WORD, depth);
    Arith.ModAdd(pos, 1, depth);
  }

  /** If it does not, the step from 2^32 - 1 to 0 goes wrong. */
  lemma SlotSkips(depth: nat)
    requires depth > 0 && WORD % depth != 0
    ensures ((WORD - 1 + 1) % WORD) % depth != ((WORD - 1) % depth + 1) % depth
  {
    Arith.ModAdd(WORD - 1, 1, depth);
    Arith.SmallMod(0, depth);
  }

  /** Adding one to a 32-bit ticket counter moves to the next slot at every
      value of the counter, 2^32 - 1 included, exactly when the depth divides
      2^32. */
  lemma NextSlot(depth: nat)
    requires depth > 0
    ensures WORD % depth == 0 <==>
      forall pos: nat :: pos < WORD ==> ((pos + 1) % WORD) % depth == (pos % depth + 1) % depth
  {
    if WORD % depth == 0 {
      forall pos: nat | pos < WORD ensures ((pos + 1) % WORD) % depth == (pos % depth + 1) % depth {
        SlotAdvances(pos, depth);
      }
    } else {
      SlotSkips(depth);
    }
  }
}
