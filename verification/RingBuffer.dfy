/** The byte ring buffer: a deque of fixed-size blocks in one array. */
module RingBuffer {
  import opened Basics
  import Arith

  type Byte = x: int | 0 <= x < 256

  /** Where a slot of the buffer begins. */
  function Start(slot: nat, size: nat): nat {
    slot * size
  }

  lemma SlotInside(slot: nat, size: nat, count: nat)
    requires slot < count
    ensures Start(slot, size) + size <= count * size
  {
    Arith.MulBound(count - slot, size);
    assert (count - slot) * size == count * size - slot * size;
  }

  /** The slot of a free-running position. */
  function Slot(at: nat, count: nat): (slot: nat)
    requires count > 0
    ensures slot < count
  {
    at % count
  }

  /** Positions may be taken modulo 2^32. */
  lemma SlotWrap(at: nat, i: nat, count: nat)
    requires count > 0 && WORD % count == 0
    ensures Slot(at % WORD + i, count) == Slot(at + i, count)
  {
    Arith.WrapMod(at, WORD, count);
    Arith.ModAdd(at % WORD, i, count);
    Arith.ModAdd(at, i, count);
  }

  lemma SlotsApart(at: nat, other: nat, count: nat)
    requires count > 0 && at < other < at + count
    ensures Slot(at, count) != Slot(other, count)
  {
    Arith.ModApart(at, other, count);
  }

  /** The block in a slot. */
  function Block(buf: seq<Byte>, size: nat, count: nat, slot: nat): (r: seq<Byte>)
    requires |buf| >= count * size && slot < count
    ensures |r| == size
  {
    SlotInside(slot, size, count);
    buf[Start(slot, size)..Start(slot, size) + size]
  }

  /** The n blocks from position `from` on, round the buffer. */
  function Blocks(buf: seq<Byte>, size: nat, count: nat, from: nat, n: nat): (r: seq<seq<Byte>>)
    requires |buf| >= count * size && count > 0
    ensures |r| == n
  {
    seq(n, i requires 0 <= i < n => Block(buf, size, count, Slot(from + i, count)))
  }

  lemma BlocksWrap(buf: seq<Byte>, size: nat, count: nat, from: nat, n: nat)
    requires |buf| >= count * size && count > 0 && WORD % count == 0
    ensures Blocks(buf, size, count, from % WORD, n) == Blocks(buf, size, count, from, n)
  {
    var wrapped, direct := Blocks(buf, size, count, from % WORD, n), Blocks(buf, size, count, from, n);
    forall i | 0 <= i < n ensures wrapped[i] == direct[i] {
      SlotWrap(from, i, count);
    }
  }

  /** The contents of a slot replaced. */
  function Stored(buf: seq<Byte>, size: nat, count: nat, slot: nat, block: seq<Byte>): (r: seq<Byte>)
    requires |buf| >= count * size && slot < count && |block| == size
    ensures |r| == |buf|
    ensures Block(r, size, count, slot) == block
    ensures forall j :: 0 <= j < |buf| && !(Start(slot, size) <= j < Start(slot, size) + size) ==> r[j] == buf[j]
  {
    SlotInside(slot, size, count);
    buf[..Start(slot, size)] + block + buf[Start(slot, size) + size..]
  }

  lemma OtherBlocks(buf: seq<Byte>, size: nat, count: nat, slot: nat, block: seq<Byte>, other: nat)
    requires |buf| >= count * size && slot < count && |block| == size && other < count && other != slot
    ensures Block(Stored(buf, size, count, slot, block), size, count, other) == Block(buf, size, count, other)
  {
    if other < slot {
      SlotInside(other, size, slot);
    } else {
      SlotInside(slot, size, other);
    }
    SlotInside(other, size, count);
  }

  /** A block stored at a position that is not in use leaves those in use as they are. */
  lemma StoredFree(buf: seq<Byte>, size: nat, count: nat, from: nat, n: nat, at: nat, block: seq<Byte>)
    requires |buf| >= count * size && |block| == size && count > 0
    requires from + n <= at < from + count
    ensures Blocks(Stored(buf, size, count, Slot(at, count), block), size, count, from, n)
         == Blocks(buf, size, count, from, n)
  {
    var after := Blocks(Stored(buf, size, count, Slot(at, count), block), size, count, from, n);
    var before := Blocks(buf, size, count, from, n);
    forall i | 0 <= i < n ensures after[i] == before[i] {
      SlotsApart(from + i, at, count);
      OtherBlocks(buf, size, count, Slot(at, count), block, Slot(from + i, count));
    }
  }

  /** One more block at the front. */
  lemma StoredFront(buf: seq<Byte>, size: nat, count: nat, from: nat, n: nat, block: seq<Byte>)
    requires |buf| >= count * size && |block| == size && n < count && from > 0
    ensures Blocks(Stored(buf, size, count, Slot(from - 1, count), block), size, count, from - 1, n + 1)
         == [block] + Blocks(buf, size, count, from, n)
  {
    var buf' := Stored(buf, size, count, Slot(from - 1, count), block);
    Arith.ModShift(from - 1, 1, count);
    StoredFree(buf, size, count, from, n, from - 1 + count, block);
    BlocksSplit(buf', size, count, from - 1, 1, n);
  }

  lemma BlocksSplit(buf: seq<Byte>, size: nat, count: nat, from: nat, m: nat, n: nat)
    requires |buf| >= count * size && count > 0
    ensures Blocks(buf, size, count, from, m + n)
         == Blocks(buf, size, count, from, m) + Blocks(buf, size, count, from + m, n)
  {
  }

  /** How far the head is ahead of the tail, in 32-bit words. */
  function Used(head: nat, tail: nat): (n: nat)
    ensures n < WORD
  {
    (head - tail) % WORD
  }

  function Up(at: nat): nat {
    (at + 1) % WORD
  }

  function Down(at: nat): nat {
    (at - 1) % WORD
  }

  /** One wrap at most is ever needed. */
  lemma Reduced(x: int)
    requires -(WORD as int) <= x < 2 * WORD
    ensures x % WORD == if x < 0 then x + WORD else if x < WORD then x else x - WORD
  {
  }

  lemma HeadMove(head: nat, tail: nat)
    requires head < WORD && tail < WORD && Used(head, tail) < WORD - 1
    ensures Used(Up(head), tail) == Used(head, tail) + 1
  {
    Reduced(head - tail);
    Reduced(head + 1);
    Reduced(Up(head) - tail);
  }

  lemma TailMove(head: nat, tail: nat)
    requires head < WORD && tail < WORD
    ensures Used(head, tail) < WORD - 1 ==> Used(head, Down(tail)) == Used(head, tail) + 1
    ensures Used(head, tail) > 0 ==> Used(head, Up(tail)) == Used(head, tail) - 1
  {
    Reduced(head - tail);
    if Used(head, tail) < WORD - 1 {
      Reduced(tail - 1);
      Reduced(head - Down(tail));
    }
    if Used(head, tail) > 0 {
      Reduced(tail + 1);
      Reduced(head - Up(tail));
    }
  }

  lemma HeadSlot(head: nat, tail: nat, count: nat)
    requires head < WORD && tail < WORD && count > 0 && WORD % count == 0
    ensures Slot(head, count) == Slot(tail + Used(head, tail), count)
  {
    var n := Used(head, tail);
    Reduced(head - tail);
    Reduced(tail + n);
    SlotWrap(tail + n, 0, count);
  }

  lemma DownSlot(tail: nat, count: nat)
    requires tail < WORD && count > 0 && WORD % count == 0
    ensures (tail + WORD) % WORD == tail && (tail + WORD - 1) % WORD == Down(tail)
    ensures Slot(Down(tail), count) == Slot(tail + WORD - 1, count)
  {
    Reduced(tail + WORD);
    Reduced(tail + WORD - 1);
    Reduced(tail - 1);
    SlotWrap(tail + WORD - 1, 0, count);
  }

  /** The blocks in use, front to back. */
  function View(buf: seq<Byte>, size: nat, count: nat, head: nat, tail: nat): (r: seq<seq<Byte>>)
    requires |buf| >= count * size && count > 0
    ensures |r| == Used(head, tail)
  {
    Blocks(buf, size, count, tail, Used(head, tail))
  }

  ghost predicate Fits(buf: seq<Byte>, size: nat, count: nat, head: nat, tail: nat) {
    && head < WORD && tail < WORD && 0 < count < WORD && WORD % count == 0
    && count * size <= |buf| && count * size <= WORD && Used(head, tail) <= count
  }

  lemma HeadUp(buf: seq<Byte>, size: nat, count: nat, head: nat, tail: nat)
    requires Fits(buf, size, count, head, tail) && Used(head, tail) < count
    ensures Fits(buf, size, count, Up(head), tail)
    ensures View(buf, size, count, Up(head), tail)
         == View(buf, size, count, head, tail) + [Block(buf, size, count, Slot(head, count))]
  {
    var n := Used(head, tail);
    HeadMove(head, tail);
    HeadSlot(head, tail, count);
    BlocksSplit(buf, size, count, tail, n, 1);
  }

  lemma HeadStored(buf: seq<Byte>, size: nat, count: nat, head: nat, tail: nat, block: seq<Byte>)
    requires Fits(buf, size, count, head, tail) && Used(head, tail) < count && |block| == size
    ensures View(Stored(buf, size, count, Slot(head, count), block), size, count, head, tail)
         == View(buf, size, count, head, tail)
  {
    var n := Used(head, tail);
    HeadSlot(head, tail, count);
    StoredFree(buf, size, count, tail, n, tail + n, block);
  }

  lemma TailUp(buf: seq<Byte>, size: nat, count: nat, head: nat, tail: nat)
    requires Fits(buf, size, count, head, tail) && Used(head, tail) > 0
    ensures Fits(buf, size, count, head, Up(tail))
    ensures View(buf, size, count, head, tail)
         == [Block(buf, size, count, Slot(tail, count))] + View(buf, size, count, head, Up(tail))
  {
    var n := Used(head, tail);
    TailMove(head, tail);
    BlocksSplit(buf, size, count, tail, 1, n - 1);
    BlocksWrap(buf, size, count, tail + 1, n - 1);
  }

  lemma TailDown(buf: seq<Byte>, size: nat, count: nat, head: nat, tail: nat, block: seq<Byte>)
    requires Fits(buf, size, count, head, tail) && Used(head, tail) < count && |block| == size
    ensures Fits(buf, size, count, head, Down(tail))
    ensures View(Stored(buf, size, count, Slot(Down(tail), count), block), size, count, head, Down(tail))
         == [block] + View(buf, size, count, head, tail)
  {
    var n, from := Used(head, tail), tail + WORD;
    TailMove(head, tail);
    DownSlot(tail, count);
    BlocksWrap(buf, size, count, from, n);
    StoredFront(buf, size, count, from, n, block);
    BlocksWrap(Stored(buf, size, count, Slot(Down(tail), count), block), size, count, from - 1, n + 1);
  }

  class RingBuf {
    var buffer: array<Byte>
    var elementSize: nat
    var elementCount: nat
    var head: nat               // where the writes go
    var tail: nat               // where the reads come from

    ghost predicate Valid()
      reads this, buffer
    {
      Fits(buffer[..], elementSize, elementCount, head, tail)
    }

    /** The blocks in the buffer, front to back. */
    ghost function Contents(): seq<seq<Byte>>
      requires Valid()
      reads this, buffer
    {
      View(buffer[..], elementSize, elementCount, head, tail)
    }

    /** ringbuf_init; the number of elements is a power of two (Pow2.Pow2Divides). */
    constructor (buffer: array<Byte>, elementSize: nat, elementCount: nat)
      requires 0 < elementCount < WORD && WORD % elementCount == 0
      requires elementCount * elementSize <= buffer.Length && elementCount * elementSize <= WORD
      ensures Valid() && Contents() == [] && this.buffer == buffer
      ensures this.elementSize == elementSize && this.elementCount == elementCount
    {
      head, tail := 0, 0;
      this.buffer, this.elementSize, this.elementCount := buffer, elementSize, elementCount;
    }

    function Count(): (n: nat)
      requires Valid()
      reads this, buffer
      ensures n == |Contents()| <= elementCount
    {
      Used(head, tail)
    }

    predicate Full()
      requires Valid()
      reads this, buffer
      ensures Full() <==> |Contents()| == elementCount
    {
      Count() == elementCount
    }

    predicate Empty()
      requires Valid()
      reads this, buffer
      ensures Empty() <==> Contents() == []
    {
      Count() == 0
    }

    /** The offset of a position, computed in 32-bit words. */
    function Offset(at: nat): (o: nat)
      requires Valid()
      reads this, buffer
      ensures o == Start(Slot(at, elementCount), elementSize) && o + elementSize <= buffer.Length
    {
      SlotInside(Slot(at, elementCount), elementSize, elementCount);
      (Slot(at, elementCount) * elementSize) % WORD
    }

    /** ringbuf_peek: where the front block is. */
    function Peek(): (o: Option<nat>)
      requires Valid()
      reads this, buffer
      ensures o.None? <==> Contents() == []
      ensures o.Some? ==> o.value + elementSize <= buffer.Length
      ensures o.Some? ==> buffer[o.value..o.value + elementSize] == Contents()[0]
    {
      if Empty() then None
      else
        TailUp(buffer[..], elementSize, elementCount, head, tail);
        Some(Offset(tail))
    }

    /** The copy loop: one block of bytes goes into the buffer. */
    method CopyIn(data: array<Byte>, o: nat)
      requires data != buffer && data.Length >= elementSize && o + elementSize <= buffer.Length
      modifies buffer
      ensures buffer[..] == old(buffer[..o]) + data[..elementSize] + old(buffer[o + elementSize..])
    {
      var i := 0;
      while i < elementSize
        invariant i <= elementSize
        invariant forall j :: 0 <= j < buffer.Length ==>
          buffer[j] == if o <= j < o + i then data[j - o] else old(buffer[j])
      {
        buffer[o + i] := data[i];
        i := i + 1;
      }
    }

    /** The copy loop the other way. */
    method CopyOut(data: array<Byte>, o: nat)
      requires data != buffer && data.Length >= elementSize && o + elementSize <= buffer.Length
      modifies data
      ensures data[..] == buffer[o..o + elementSize] + old(data[elementSize..])
    {
      var i := 0;
      while i < elementSize
        invariant i <= elementSize
        invariant forall j :: 0 <= j < data.Length ==> data[j] == if j < i then buffer[o + j] else old(data[j])
      {
        data[i] := buffer[o + i];
        i := i + 1;
      }
    }

    /** The front block leaves; it is copied if there is somewhere to copy it to. */
    method Pop(data: array?<Byte>) returns (status: bool)
      requires Valid() && (data != null ==> data != buffer && data.Length >= elementSize)
      modifies this`tail, data
      ensures Valid() && status == (old(Contents()) != [])
      ensures status ==> old(Contents()) == [old(Contents())[0]] + Contents()
      ensures status && data != null ==> data[..] == old(Contents())[0] + old(data[elementSize..])
      ensures !status ==> tail == old(tail) && (data != null ==> data[..] == old(data[..]))
    {
      status := false;
      if !Empty() {
        TailUp(buffer[..], elementSize, elementCount, head, tail);
        if data != null {
          CopyOut(data, Offset(tail));
        }
        tail := Up(tail);
        status := true;
      }
    }

    /** A block joins at the back, unless the buffer is full. */
    method Put(data: array?<Byte>) returns (status: bool)
      requires Valid() && (data != null ==> data != buffer && data.Length >= elementSize)
      modifies this`head, buffer
      ensures Valid() && status == (data != null && |old(Contents())| < elementCount)
      ensures status ==> Contents() == old(Contents()) + [data[..elementSize]]
      ensures status ==>
        var slot := Slot(old(head), elementCount);
        buffer[..] == Stored(old(buffer[..]), elementSize, elementCount, slot, data[..elementSize])
      ensures !status ==> head == old(head) && buffer[..] == old(buffer[..])
    {
      status := false;
      if data != null && !Full() {
        HeadStored(buffer[..], elementSize, elementCount, head, tail, data[..elementSize]);
        CopyIn(data, Offset(head));
        HeadUp(buffer[..], elementSize, elementCount, head, tail);
        head := Up(head);
        status := true;
      }
    }

    /** A block joins at the front, unless the buffer is full. */
    method PutFront(data: array?<Byte>) returns (status: bool)
      requires Valid() && (data != null ==> data != buffer && data.Length >= elementSize)
      modifies this`tail, buffer
      ensures Valid() && status == (data != null && |old(Contents())| < elementCount)
      ensures status ==> Contents() == [data[..elementSize]] + old(Contents())
      ensures status ==>
        buffer[..] == Stored(old(buffer[..]), elementSize, elementCount, Slot(tail, elementCount), data[..elementSize])
      ensures !status ==> tail == old(tail) && buffer[..] == old(buffer[..])
    {
      status := false;
      if data != null && !Full() {
        TailDown(buffer[..], elementSize, elementCount, head, tail, data[..elementSize]);
        tail := Down(tail);
        CopyIn(data, Offset(tail));
        status := true;
      }
    }

    /** ringbuf_data_peek: where the next block may be written.  Whatever is written
        there leaves the contents as they are. */
    function DataPeek(): (o: Option<nat>)
      requires Valid()
      reads this, buffer
      ensures o.None? <==> |Contents()| == elementCount
      ensures o.Some? ==> o.value == Start(Slot(head, elementCount), elementSize)
    {
      if Full() then None else Some(Offset(head))
    }

    /** ringbuf_data_put: what is at the place returned by DataPeek joins at the back. */
    method DataPut(place: Option<nat>) returns (status: bool)
      requires Valid()
      modifies this`head
      ensures Valid() && status == (old(DataPeek()).Some? && place == old(DataPeek()))
      ensures status ==> Contents() == old(Contents()) + [buffer[place.value..place.value + elementSize]]
      ensures !status ==> head == old(head)
    {
      status := false;
      if !Full() && place == Some(Offset(head)) {
        HeadUp(buffer[..], elementSize, elementCount, head, tail);
        head := Up(head);
        status := true;
      }
    }
  }
}
