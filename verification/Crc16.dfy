/** The CRC-16 of the curtain frames. */
module Crc16 {

  /** The entry chosen by the low four bits of k. */
  function Pick(k: bv8, e0: bv8, e1: bv8, e2: bv8, e3: bv8, e4: bv8, e5: bv8, e6: bv8, e7: bv8,
                e8: bv8, e9: bv8, eA: bv8, eB: bv8, eC: bv8, eD: bv8, eE: bv8, eF: bv8): bv8 {
    if k & 8 == 0 then
      if k & 4 == 0 then
        if k & 2 == 0 then if k & 1 == 0 then e0 else e1 else if k & 1 == 0 then e2 else e3
      else
        if k & 2 == 0 then if k & 1 == 0 then e4 else e5 else if k & 1 == 0 then e6 else e7
    else
      if k & 4 == 0 then
        if k & 2 == 0 then if k & 1 == 0 then e8 else e9 else if k & 1 == 0 then eA else eB
      else
        if k & 2 == 0 then if k & 1 == 0 then eC else eD else if k & 1 == 0 then eE else eF
  }

  /** crc_high[i], sixteen entries a row. */
  function CrcHigh(i: bv8): bv8 {
    Pick(i >> 4,
      Pick(i, 0x00, 0xC1, 0x81, 0x40, 0x01, 0xC0, 0x80, 0x41, 0x01, 0xC0, 0x80, 0x41, 0x00, 0xC1, 0x81, 0x40),
      Pick(i, 0x01, 0xC0, 0x80, 0x41, 0x00, 0xC1, 0x81, 0x40, 0x00, 0xC1, 0x81, 0x40, 0x01, 0xC0, 0x80, 0x41),
      Pick(i, 0x01, 0xC0, 0x80, 0x41, 0x00, 0xC1, 0x81, 0x40, 0x00, 0xC1, 0x81, 0x40, 0x01, 0xC0, 0x80, 0x41),
      Pick(i, 0x00, 0xC1, 0x81, 0x40, 0x01, 0xC0, 0x80, 0x41, 0x01, 0xC0, 0x80, 0x41, 0x00, 0xC1, 0x81, 0x40),
      Pick(i, 0x01, 0xC0, 0x80, 0x41, 0x00, 0xC1, 0x81, 0x40, 0x00, 0xC1, 0x81, 0x40, 0x01, 0xC0, 0x80, 0x41),
      Pick(i, 0x00, 0xC1, 0x81, 0x40, 0x01, 0xC0, 0x80, 0x41, 0x01, 0xC0, 0x80, 0x41, 0x00, 0xC1, 0x81, 0x40),
      Pick(i, 0x00, 0xC1, 0x81, 0x40, 0x01, 0xC0, 0x80, 0x41, 0x01, 0xC0, 0x80, 0x41, 0x00, 0xC1, 0x81, 0x40),
      Pick(i, 0x01, 0xC0, 0x80, 0x41, 0x00, 0xC1, 0x81, 0x40, 0x00, 0xC1, 0x81, 0x40, 0x01, 0xC0, 0x80, 0x41),
      Pick(i, 0x01, 0xC0, 0x80, 0x41, 0x00, 0xC1, 0x81, 0x40, 0x00, 0xC1, 0x81, 0x40, 0x01, 0xC0, 0x80, 0x41),
      Pick(i, 0x00, 0xC1, 0x81, 0x40, 0x01, 0xC0, 0x80, 0x41, 0x01, 0xC0, 0x80, 0x41, 0x00, 0xC1, 0x81, 0x40),
      Pick(i, 0x00, 0xC1, 0x81, 0x40, 0x01, 0xC0, 0x80, 0x41, 0x01, 0xC0, 0x80, 0x41, 0x00, 0xC1, 0x81, 0x40),
      Pick(i, 0x01, 0xC0, 0x80, 0x41, 0x00, 0xC1, 0x81, 0x40, 0x00, 0xC1, 0x81, 0x40, 0x01, 0xC0, 0x80, 0x41),
      Pick(i, 0x00, 0xC1, 0x81, 0x40, 0x01, 0xC0, 0x80, 0x41, 0x01, 0xC0, 0x80, 0x41, 0x00, 0xC1, 0x81, 0x40),
      Pick(i, 0x01, 0xC0, 0x80, 0x41, 0x00, 0xC1, 0x81, 0x40, 0x00, 0xC1, 0x81, 0x40, 0x01, 0xC0, 0x80, 0x41),
      Pick(i, 0x01, 0xC0, 0x80, 0x41, 0x00, 0xC1, 0x81, 0x40, 0x00, 0xC1, 0x81, 0x40, 0x01, 0xC0, 0x80, 0x41),
      Pick(i, 0x00, 0xC1, 0x81, 0x40, 0x01, 0xC0, 0x80, 0x41, 0x01, 0xC0, 0x80, 0x41, 0x00, 0xC1, 0x81, 0x40))
  }

  /** crc_low[i], sixteen entries a row. */
  function CrcLow(i: bv8): bv8 {
    Pick(i >> 4,
      Pick(i, 0x00, 0xC0, 0xC1, 0x01, 0xC3, 0x03, 0x02, 0xC2, 0xC6, 0x06, 0x07, 0xC7, 0x05, 0xC5, 0xC4, 0x04),
      Pick(i, 0xCC, 0x0C, 0x0D, 0xCD, 0x0F, 0xCF, 0xCE, 0x0E, 0x0A, 0xCA, 0xCB, 0x0B, 0xC9, 0x09, 0x08, 0xC8),
      Pick(i, 0xD8, 0x18, 0x19, 0xD9, 0x1B, 0xDB, 0xDA, 0x1A, 0x1E, 0xDE, 0xDF, 0x1F, 0xDD, 0x1D, 0x1C, 0xDC),
      Pick(i, 0x14, 0xD4, 0xD5, 0x15, 0xD7, 0x17, 0x16, 0xD6, 0xD2, 0x12, 0x13, 0xD3, 0x11, 0xD1, 0xD0, 0x10),
      Pick(i, 0xF0, 0x30, 0x31, 0xF1, 0x33, 0xF3, 0xF2, 0x32, 0x36, 0xF6, 0xF7, 0x37, 0xF5, 0x35, 0x34, 0xF4),
      Pick(i, 0x3C, 0xFC, 0xFD, 0x3D, 0xFF, 0x3F, 0x3E, 0xFE, 0xFA, 0x3A, 0x3B, 0xFB, 0x39, 0xF9, 0xF8, 0x38),
      Pick(i, 0x28, 0xE8, 0xE9, 0x29, 0xEB, 0x2B, 0x2A, 0xEA, 0xEE, 0x2E, 0x2F, 0xEF, 0x2D, 0xED, 0xEC, 0x2C),
      Pick(i, 0xE4, 0x24, 0x25, 0xE5, 0x27, 0xE7, 0xE6, 0x26, 0x22, 0xE2, 0xE3, 0x23, 0xE1, 0x21, 0x20, 0xE0),
      Pick(i, 0xA0, 0x60, 0x61, 0xA1, 0x63, 0xA3, 0xA2, 0x62, 0x66, 0xA6, 0xA7, 0x67, 0xA5, 0x65, 0x64, 0xA4),
      Pick(i, 0x6C, 0xAC, 0xAD, 0x6D, 0xAF, 0x6F, 0x6E, 0xAE, 0xAA, 0x6A, 0x6B, 0xAB, 0x69, 0xA9, 0xA8, 0x68),
      Pick(i, 0x78, 0xB8, 0xB9, 0x79, 0xBB, 0x7B, 0x7A, 0xBA, 0xBE, 0x7E, 0x7F, 0xBF, 0x7D, 0xBD, 0xBC, 0x7C),
      Pick(i, 0xB4, 0x74, 0x75, 0xB5, 0x77, 0xB7, 0xB6, 0x76, 0x72, 0xB2, 0xB3, 0x73, 0xB1, 0x71, 0x70, 0xB0),
      Pick(i, 0x50, 0x90, 0x91, 0x51, 0x93, 0x53, 0x52, 0x92, 0x96, 0x56, 0x57, 0x97, 0x55, 0x95, 0x94, 0x54),
      Pick(i, 0x9C, 0x5C, 0x5D, 0x9D, 0x5F, 0x9F, 0x9E, 0x5E, 0x5A, 0x9A, 0x9B, 0x5B, 0x99, 0x59, 0x58, 0x98),
      Pick(i, 0x88, 0x48, 0x49, 0x89, 0x4B, 0x8B, 0x8A, 0x4A, 0x4E, 0x8E, 0x8F, 0x4F, 0x8D, 0x4D, 0x4C, 0x8C),
      Pick(i, 0x44, 0x84, 0x85, 0x45, 0x87, 0x47, 0x46, 0x86, 0x82, 0x42, 0x43, 0x83, 0x41, 0x81, 0x80, 0x40))
  }

  /** One shift of the register; the generator 0xA001 is applied when a one falls out. */
  function Shift(r: bv16): bv16 {
    (r >> 1) ^ ((0 - (r & 1)) & 0xA001)
  }

  lemma ShiftOut(r: bv16)
    ensures Shift(r) == if r & 1 == 1 then (r >> 1) ^ 0xA001 else r >> 1
  {
    assert r & 1 == 0 || r & 1 == 1;
  }

  /** The sum of two registers, as polynomials over two elements. */
  function Sum(a: bv16, b: bv16): bv16 {
    a ^ b
  }

  function Wide(b: bv8): bv16 {
    b as bv16
  }

  /** n shifts. */
  function Shifts(r: bv16, n: nat): bv16
    decreases n, r
  {
    if n == 0 then r else Shift(Shifts(r, n - 1))
  }

  function Word(hi: bv8, lo: bv8): bv16 {
    (Wide(hi) << 8) | Wide(lo)
  }

  function Hi(r: bv16): bv8 {
    (r >> 8) as bv8
  }

  function Lo(r: bv16): bv8 {
    (r & 0xFF) as bv8
  }

  /** The register after one more byte, bit by bit. */
  function Feed(r: bv16, b: bv8): bv16 {
    Shifts(Sum(r, Wide(b)), 8)
  }

  /** The register after a string of bytes. */
  function Crc(r: bv16, s: seq<bv8>): bv16 {
    if s == [] then r else Feed(Crc(r, s[..|s| - 1]), s[|s| - 1])
  }

  const PRESET: bv16 := 0xFFFF

  /** The two bytes sent after a string, low byte first. */
  function CrcBytes(s: seq<bv8>): seq<bv8> {
    [Lo(Crc(PRESET, s)), Hi(Crc(PRESET, s))]
  }

  // --- One byte ---

  lemma EightShifts(r: bv16)
    ensures Shifts(r, 8) == Shift(Shift(Shift(Shift(Shift(Shift(Shift(Shift(r))))))))
  {
    assert Shifts(r, 1) == Shift(Shifts(r, 0));
    assert Shifts(r, 2) == Shift(Shifts(r, 1));
    assert Shifts(r, 4) == Shift(Shift(Shifts(r, 2)));
    assert Shifts(r, 6) == Shift(Shift(Shifts(r, 4)));
  }

  lemma {:induction false} ShiftsLinear(a: bv16, b: bv16, n: nat)
    ensures Shifts(Sum(a, b), n) == Sum(Shifts(a, n), Shifts(b, n))
  {
    if n > 0 {
      ShiftsLinear(a, b, n - 1);
      ShiftLinear(Shifts(a, n - 1), Shifts(b, n - 1));
    }
  }

  lemma ShiftLinear(a: bv16, b: bv16)
    ensures Shift(Sum(a, b)) == Sum(Shift(a), Shift(b))
  {
  }

  lemma {:induction false} ShiftsZero(r: bv16, n: nat)
    ensures Shifts(r, n) == 0 <==> r == 0
  {
    if n > 0 {
      ShiftsZero(r, n - 1);
      ShiftZero(Shifts(r, n - 1));
    }
  }

  lemma ShiftZero(r: bv16)
    ensures Shift(r) == 0 <==> r == 0
  {
  }

  lemma SumZero(a: bv16, b: bv16)
    ensures Sum(a, b) == 0 <==> a == b
  {
  }

  lemma ShiftsInjective(a: bv16, b: bv16, n: nat)
    ensures Shifts(a, n) == Shifts(b, n) <==> a == b
  {
    ShiftsLinear(a, b, n);
    ShiftsZero(Sum(a, b), n);
    SumZero(a, b);
    SumZero(Shifts(a, n), Shifts(b, n));
  }

  function Parity(i: bv8): bv8 {
    var a := i ^ (i >> 4);
    var b := a ^ (a >> 2);
    (b ^ (b >> 1)) & 1
  }

  lemma HighEntry(i: bv8)
    ensures CrcHigh(i) == (i << 6) ^ (i << 7) ^ Parity(i)
  {
  }

  lemma LowEntry(i: bv8)
    ensures CrcLow(i) == (i >> 2) ^ (i >> 1) ^ (Parity(i) << 6) ^ (Parity(i) << 7)
  {
  }

  lemma ByteShifts(i: bv8)
    ensures Shift(Shift(Shift(Shift(Shift(Shift(Shift(Shift(Wide(i))))))))) ==
             Word((i >> 2) ^ (i >> 1) ^ (Parity(i) << 6) ^ (Parity(i) << 7), (i << 6) ^ (i << 7) ^ Parity(i))
  {
  }

  /** Every table entry is the register after eight shifts of its index. */
  lemma TableEntry(i: bv8)
    ensures Word(CrcLow(i), CrcHigh(i)) == Shifts(Wide(i), 8)
  {
    HighEntry(i);
    LowEntry(i);
    ByteShifts(i);
    EightShifts(Wide(i));
  }

  lemma HighByteMoves(hi: bv8)
    ensures Shifts(Wide(hi) << 8, 8) == Wide(hi)
  {
    EightShifts(Wide(hi) << 8);
  }

  lemma WordXor(hi: bv8, lo: bv8, b: bv8, c: bv8)
    ensures Sum(Word(hi, lo), Wide(b)) == Sum(Wide(hi) << 8, Wide(lo ^ b))
    ensures Sum(Wide(hi), Word(c, b)) == Word(c, hi ^ b)
  {
  }

  /** The table-driven step is the bit-by-bit one. */
  lemma TableStep(hi: bv8, lo: bv8, b: bv8)
    ensures Word(CrcLow(lo ^ b), hi ^ CrcHigh(lo ^ b)) == Feed(Word(hi, lo), b)
  {
    var i := lo ^ b;
    WordXor(hi, lo, b, 0);
    WordXor(hi, lo, CrcHigh(i), CrcLow(i));
    ShiftsLinear(Wide(hi) << 8, Wide(i), 8);
    HighByteMoves(hi);
    TableEntry(i);
  }

  lemma WordParts(r: bv16, hi: bv8, lo: bv8)
    ensures Word(Hi(r), Lo(r)) == r
    ensures Word(hi, lo) == r <==> hi == Hi(r) && lo == Lo(r)
  {
  }

  /** The table-driven loop. */
  method TableCrc(frame: array<bv8>, len: nat) returns (hi: bv8, lo: bv8)
    requires len <= frame.Length
    ensures Word(hi, lo) == Crc(PRESET, frame[..len])
  {
    hi, lo := 0xFF, 0xFF;
    var usLen, p := len, 0;
    while usLen != 0
      invariant usLen + p == len
      invariant Word(hi, lo) == Crc(PRESET, frame[..p])
    {
      var b := frame[p];
      TableStep(hi, lo, b);
      assert frame[..p + 1] == frame[..p] + [b];
      usLen := usLen - 1;
      p := p + 1;
      var i := lo ^ b;
      lo := hi ^ CrcHigh(i);
      hi := CrcLow(i);
    }
  }

  /** modbus_crc16: the CRC of the first `len` bytes of `frame` is stored at `at`,
      which may lie in the same buffer. */
  method ModbusCrc16(result: array<bv8>, at: nat, frame: array<bv8>, len: nat)
    requires at + 2 <= result.Length && len <= frame.Length
    modifies result
    ensures result[..] == old(result[..at]) + CrcBytes(old(frame[..len])) + old(result[at + 2..])
  {
    var hi, lo := TableCrc(frame, len);
    WordParts(Crc(PRESET, frame[..len]), hi, lo);
    result[at] := lo;
    result[at + 1] := hi;
  }

  // --- Whole frames ---

  lemma {:induction false} CrcConcat(r: bv16, s: seq<bv8>, t: seq<bv8>)
    ensures Crc(r, s + t) == Crc(Crc(r, s), t)
  {
    if t == [] {
      assert s + t == s;
    } else {
      CrcConcat(r, s, t[..|t| - 1]);
      assert (s + t)[..|s + t| - 1] == s + t[..|t| - 1];
    }
  }

  lemma CrcOfOne(r: bv16, x: bv8)
    ensures Crc(r, [x]) == Feed(r, x)
  {
    assert [x][..0] == [];
  }

  lemma CrcOfTwo(r: bv16, x: bv8, y: bv8)
    ensures Crc(r, [x, y]) == Feed(Feed(r, x), y)
  {
    assert [x, y][..1] == [x] && [x][..0] == [];
    assert Crc(r, [x]) == Feed(r, x);
  }

  /** Two more bytes clear the register exactly when they are its own two. */
  lemma TwoBytes(r: bv16, x: bv8, y: bv8)
    ensures Feed(Feed(r, x), y) == 0 <==> x == Lo(r) && y == Hi(r)
  {
    SumZero(Feed(r, x), Wide(y));
    ShiftsZero(Sum(Feed(r, x), Wide(y)), 8);
    HighByteMoves(y);
    ShiftsInjective(Sum(r, Wide(x)), Wide(y) << 8, 8);
    LowByteOff(r, x, y);
  }

  lemma LowByteOff(r: bv16, x: bv8, y: bv8)
    ensures Sum(r, Wide(x)) == Wide(y) << 8 <==> x == Lo(r) && y == Hi(r)
  {
  }

  /** The check made on a received frame. */
  predicate CrcMatches(frame: seq<bv8>)
    requires |frame| >= 2
  {
    var n := |frame| - 2;
    frame[n] == Lo(Crc(PRESET, frame[..n])) && frame[n + 1] == Hi(Crc(PRESET, frame[..n]))
  }

  /** A frame passes exactly when the register ends at zero after all of it. */
  lemma MatchesIffZero(frame: seq<bv8>)
    requires |frame| >= 2
    ensures CrcMatches(frame) <==> Crc(PRESET, frame) == 0
  {
    var n := |frame| - 2;
    var r, x, y := Crc(PRESET, frame[..n]), frame[n], frame[n + 1];
    assert frame == frame[..n] + [x, y];
    CrcConcat(PRESET, frame[..n], [x, y]);
    CrcOfTwo(r, x, y);
    TwoBytes(r, x, y);
  }

  /** What is sent passes the check, and nothing else does with the same bytes in front. */
  lemma SentMatches(s: seq<bv8>, tail: seq<bv8>)
    requires |tail| == 2
    ensures CrcMatches(s + tail) <==> tail == CrcBytes(s)
    ensures Crc(PRESET, s + CrcBytes(s)) == 0
  {
    assert (s + tail)[..|s|] == s && (s + CrcBytes(s))[..|s|] == s;
    MatchesIffZero(s + CrcBytes(s));
  }

  // --- Errors on the wire ---

  function Xor(s: seq<bv8>, t: seq<bv8>): (r: seq<bv8>)
    requires |s| == |t|
    ensures |r| == |s|
  {
    seq(|s|, i requires 0 <= i < |s| => s[i] ^ t[i])
  }

  lemma FeedLinear(a: bv16, b: bv16, x: bv8, y: bv8)
    ensures Feed(Sum(a, b), x ^ y) == Sum(Feed(a, x), Feed(b, y))
  {
    SumRegroup(a, b, x, y);
    ShiftsLinear(Sum(a, Wide(x)), Sum(b, Wide(y)), 8);
  }

  lemma SumRegroup(a: bv16, b: bv16, x: bv8, y: bv8)
    ensures Sum(Sum(a, b), Wide(x ^ y)) == Sum(Sum(a, Wide(x)), Sum(b, Wide(y)))
  {
  }

  lemma {:induction false} CrcLinear(a: bv16, b: bv16, s: seq<bv8>, t: seq<bv8>)
    requires |s| == |t|
    ensures Crc(Sum(a, b), Xor(s, t)) == Sum(Crc(a, s), Crc(b, t))
  {
    if s != [] {
      var n := |s| - 1;
      CrcLinear(a, b, s[..n], t[..n]);
      FeedLinear(Crc(a, s[..n]), Crc(b, t[..n]), s[n], t[n]);
      assert Xor(s, t)[..n] == Xor(s[..n], t[..n]);
    }
  }

  predicate AllZero(s: seq<bv8>) {
    forall i :: 0 <= i < |s| ==> s[i] == 0
  }

  /** What the register starts with goes onto the first two bytes. */
  lemma StartOnTwo(r: bv16, x: bv8, y: bv8)
    ensures Feed(Feed(r, x), y) == Feed(Feed(0, x ^ Lo(r)), y ^ Hi(r))
  {
    var x', y' := x ^ Lo(r), y ^ Hi(r);
    XorBack(x, Lo(r));
    XorBack(y, Hi(r));
    SumUnit(r);
    FeedLinear(r, 0, Lo(r), x');
    SumUnit(Feed(Feed(0, x'), y'));
    FeedLinear(Feed(r, Lo(r)), Feed(0, x'), Hi(r), y');
    TwoBytes(r, Lo(r), Hi(r));
  }

  lemma XorBack(x: bv8, a: bv8)
    ensures a ^ (x ^ a) == x
  {
  }

  /** The preset of all ones is what complementing the first two bytes amounts to. */
  lemma PresetComplements(s: seq<bv8>)
    requires |s| >= 2
    ensures Crc(PRESET, s) == Crc(0, [!s[0], !s[1]] + s[2..])
  {
    var head, tail := s[..2], s[2..];
    assert s == [s[0], s[1]] + tail;
    CrcConcat(PRESET, [s[0], s[1]], tail);
    CrcConcat(0, [!s[0], !s[1]], tail);
    CrcOfTwo(PRESET, s[0], s[1]);
    CrcOfTwo(0, !s[0], !s[1]);
    StartOnTwo(PRESET, s[0], s[1]);
    AllOnes(s[0]);
    AllOnes(s[1]);
  }

  lemma AllOnes(x: bv8)
    ensures x ^ Lo(PRESET) == !x && x ^ Hi(PRESET) == !x
  {
  }

  lemma {:induction false} ZerosKeep(r: bv16, s: seq<bv8>)
    requires AllZero(s)
    ensures Crc(r, s) == 0 <==> r == 0
  {
    if s != [] {
      var n := |s| - 1;
      ZerosKeep(r, s[..n]);
      var q := Crc(r, s[..n]);
      assert Sum(q, Wide(0)) == q;
      ShiftsZero(q, 8);
    }
  }

  /** Bit j of a byte, the least significant one, which is sent first, being bit 0. */
  predicate ByteBit(b: bv8, j: nat)
    requires j < 8
  {
    if j == 0 then b & 0x01 != 0 else if j == 1 then b & 0x02 != 0
    else if j == 2 then b & 0x04 != 0 else if j == 3 then b & 0x08 != 0
    else if j == 4 then b & 0x10 != 0 else if j == 5 then b & 0x20 != 0
    else if j == 6 then b & 0x40 != 0 else b & 0x80 != 0
  }

  /** Bit p of a string, in the order of sending. */
  predicate Bit(s: seq<bv8>, p: nat)
    requires p < 8 * |s|
  {
    ByteBit(s[p / 8], p % 8)
  }

  lemma NoBits(b: bv8)
    requires forall j: nat :: j < 8 ==> !ByteBit(b, j)
    ensures b == 0
  {
    assert !ByteBit(b, 0) && !ByteBit(b, 1) && !ByteBit(b, 2) && !ByteBit(b, 3);
    assert !ByteBit(b, 4) && !ByteBit(b, 5) && !ByteBit(b, 6) && !ByteBit(b, 7);
  }

  /** The s bits of a byte that are sent first. */
  function FirstBits(s: nat): bv8
    requires s < 8
  {
    if s == 0 then 0x00 else if s == 1 then 0x01 else if s == 2 then 0x03 else if s == 3 then 0x07
    else if s == 4 then 0x0F else if s == 5 then 0x1F else if s == 6 then 0x3F else 0x7F
  }

  lemma FirstBitsClear(b: bv8, s: nat)
    requires s < 8 && forall j: nat :: j < s ==> !ByteBit(b, j)
    ensures b & FirstBits(s) == 0
  {
    assert s > 0 ==> !ByteBit(b, 0);
    assert s > 1 ==> !ByteBit(b, 1);
    assert s > 2 ==> !ByteBit(b, 2);
    assert s > 3 ==> !ByteBit(b, 3);
    assert s > 4 ==> !ByteBit(b, 4);
    assert s > 5 ==> !ByteBit(b, 5);
    assert s > 6 ==> !ByteBit(b, 6);
  }

  lemma LastBitsClear(b: bv8, s: nat)
    requires s < 8 && forall j: nat :: s <= j < 8 ==> !ByteBit(b, j)
    ensures b & !FirstBits(s) == 0
  {
    assert s < 1 ==> !ByteBit(b, 0);
    assert s < 2 ==> !ByteBit(b, 1);
    assert s < 3 ==> !ByteBit(b, 2);
    assert s < 4 ==> !ByteBit(b, 3);
    assert s < 5 ==> !ByteBit(b, 4);
    assert s < 6 ==> !ByteBit(b, 5);
    assert s < 7 ==> !ByteBit(b, 6);
    assert !ByteBit(b, 7);
  }

  /** Sixteen bits of three bytes do not clear the register unless they are all zero. */
  lemma ThreeBytes(s: nat, a: bv8, b: bv8, c: bv8)
    requires s < 8 && a & FirstBits(s) == 0 && c & !FirstBits(s) == 0
    requires Feed(Feed(Feed(0, a), b), c) == 0
    ensures a == 0 && b == 0 && c == 0
  {
    EightShifts(Sum(0, Wide(a)));
    EightShifts(Sum(Feed(0, a), Wide(b)));
    EightShifts(Sum(Feed(Feed(0, a), b), Wide(c)));
  }

  /** All ones of e lie among the 16 bits from p on, in the order of sending. */
  ghost predicate Within16(e: seq<bv8>, p: nat) {
    forall i: nat :: i < 8 * |e| && Bit(e, i) ==> p <= i < p + 16
  }

  /** The bytes around a burst that starts at bit p. */
  lemma BurstBytes(e: seq<bv8>, p: nat)
    requires Within16(e, p)
    ensures forall k: nat :: k < |e| && (k < p / 8 || k > p / 8 + 2) ==> e[k] == 0
    ensures p / 8 < |e| ==> e[p / 8] & FirstBits(p % 8) == 0
    ensures p / 8 + 2 < |e| ==> e[p / 8 + 2] & !FirstBits(p % 8) == 0
  {
    forall k: nat, j: nat | k < |e| && j < 8 && (8 * k + j < p || 8 * k + j >= p + 16) ensures !ByteBit(e[k], j) {
      assert (8 * k + j) / 8 == k && (8 * k + j) % 8 == j;
      assert !Bit(e, 8 * k + j);
    }
    forall k: nat | k < |e| && (k < p / 8 || k > p / 8 + 2) ensures e[k] == 0 {
      NoBits(e[k]);
    }
    if p / 8 < |e| {
      FirstBitsClear(e[p / 8], p % 8);
    }
    if p / 8 + 2 < |e| {
      LastBitsClear(e[p / 8 + 2], p % 8);
    }
  }

  /** Three bytes among zeros clear the register when they do by themselves. */
  lemma AmongZeros(before: seq<bv8>, a: bv8, b: bv8, c: bv8, after: seq<bv8>)
    requires AllZero(before) && AllZero(after)
    ensures Crc(0, before + ([a, b, c] + after)) == 0 <==> Feed(Feed(Feed(0, a), b), c) == 0
  {
    CrcConcat(0, before, [a, b, c] + after);
    ZerosKeep(0, before);
    CrcConcat(0, [a, b, c], after);
    ZerosKeep(Crc(0, [a, b, c]), after);
    assert [a, b, c] == [a, b] + [c];
    CrcConcat(0, [a, b], [c]);
    CrcOfTwo(0, a, b);
    CrcOfOne(Crc(0, [a, b]), c);
  }

  lemma ZeroTail(e: seq<bv8>)
    ensures Crc(0, e + [0, 0]) == 0 <==> Crc(0, e) == 0
  {
    CrcConcat(0, e, [0, 0]);
    ZerosKeep(Crc(0, e), [0, 0]);
  }

  /** A burst leaves something in the register. */
  lemma BurstShows(e: seq<bv8>, p: nat)
    requires !AllZero(e) && Within16(e, p)
    ensures Crc(0, e) != 0
  {
    var k, f := p / 8, e + [0, 0];
    BurstBytes(e, p);
    ZeroClear(p % 8);
    ZeroTail(e);
    var bad :| 0 <= bad < |e| && e[bad] != 0;
    BurstAt(f, k, p % 8, bad);
  }

  lemma BurstAt(f: seq<bv8>, k: nat, s: nat, bad: nat)
    requires k + 3 <= |f| && bad < |f| && f[bad] != 0 && s < 8
    requires forall j: nat :: j < |f| && (j < k || j > k + 2) ==> f[j] == 0
    requires f[k] & FirstBits(s) == 0 && f[k + 2] & !FirstBits(s) == 0
    ensures Crc(0, f) != 0
  {
    var before, after := f[..k], f[k + 3..];
    assert f == before + ([f[k], f[k + 1], f[k + 2]] + after);
    AmongZeros(before, f[k], f[k + 1], f[k + 2], after);
    if Crc(0, f) == 0 {
      ThreeBytes(s, f[k], f[k + 1], f[k + 2]);
    }
  }

  lemma ZeroClear(s: nat)
    requires s < 8
    ensures 0 & FirstBits(s) == 0 && 0 & !FirstBits(s) == 0
  {
  }

  /** Any burst of at most 16 wrong bits in a frame that would pass makes it fail. */
  lemma BurstDetected(frame: seq<bv8>, e: seq<bv8>, p: nat)
    requires |frame| >= 2 && |e| == |frame| && CrcMatches(frame)
    requires !AllZero(e) && Within16(e, p)
    ensures !CrcMatches(Xor(frame, e))
  {
    MatchesIffZero(frame);
    MatchesIffZero(Xor(frame, e));
    CrcLinear(PRESET, 0, frame, e);
    SumUnit(PRESET);
    SumUnit(Crc(0, e));
    BurstShows(e, p);
  }

  lemma SumUnit(a: bv16)
    ensures Sum(a, 0) == a && Sum(0, a) == a
  {
  }
}
