/** The frames exchanged with a curtain motor: building them, and checking replies. */
module CurtainFrames {
  import opened Basics
  import opened Crc16

  datatype Command =
    | Open | Close | Stop | Percent | Delete | Refactory
    | WoAddr | RoPercent | RwDirection | RwHandle | RwSwitchPassive | RwSwitchActive | RoVersion
    | Unknown

  datatype Package = Package(addrLow: bv8, addrHigh: bv8, command: bv8, dataAddr: bv8,
                             data0: bv8, data1: bv8, data2: bv8, cmd: Command)

  const READ: bv8 := 0x01

  /** An address a motor must not be given. */
  predicate BadAddress(p: Package) {
    p.cmd == WoAddr && (p.data1 == 0x00 || p.data2 == 0x00 || p.data1 == 0xFF || p.data2 == 0xFF)
  }

  /** How many bytes come before the CRC; none for an unknown command. */
  function BodyLength(p: Package): (n: nat)
    ensures n == 0 || 5 <= n <= 8
  {
    match p.cmd
    case Open | Close | Stop | Delete | Refactory => 5
    case Percent | RoPercent | RoVersion => 6
    case WoAddr => 8
    case RwDirection | RwHandle | RwSwitchPassive | RwSwitchActive => if p.command == READ then 6 else 7
    case Unknown => 0
  }

  /** The byte at each place before the CRC. */
  function ByteAt(p: Package, i: nat): bv8
    requires i < 8
  {
    if i == 0 then 0x55 else if i == 1 then p.addrLow else if i == 2 then p.addrHigh
    else if i == 3 then p.command else if i == 4 then p.dataAddr
    else if i == 5 then p.data0 else if i == 6 then p.data1 else p.data2
  }

  /** The bytes before the CRC. */
  function Body(p: Package): (s: seq<bv8>)
    ensures |s| == BodyLength(p)
  {
    seq(BodyLength(p), i requires 0 <= i < BodyLength(p) => ByteAt(p, i))
  }

  /** The frame that goes out for a package. */
  function Frame(p: Package): seq<bv8> {
    if BodyLength(p) == 0 then [] else Body(p) + CrcBytes(Body(p))
  }

  /** doya_send_package: the frame is built in a local buffer and copied if it fits. */
  method SendPackage(sendBuffer: array?<bv8>, bufferLen: int, p: Package) returns (packageLen: int)
    requires sendBuffer != null ==> bufferLen <= sendBuffer.Length
    modifies sendBuffer
    ensures packageLen == if sendBuffer == null || BadAddress(p) || bufferLen < |Frame(p)| then -1 else |Frame(p)|
    ensures packageLen >= 0 ==> sendBuffer[..] == Frame(p) + old(sendBuffer[packageLen..])
    ensures packageLen < 0 && sendBuffer != null ==> sendBuffer[..] == old(sendBuffer[..])
  {
    if sendBuffer == null {
      return -1;
    }
    if p.cmd == WoAddr {
      if p.data1 == 0x00 || p.data2 == 0x00 {
        return -1;
      }
      if p.data1 == 0xFF || p.data2 == 0xFF {
        return -1;
      }
    }
    var buffer := new bv8[20];
    packageLen := Build(buffer, p);
    if bufferLen < packageLen {
      return -1;
    }
    forall i | 0 <= i < packageLen {
      sendBuffer[i] := buffer[i];
    }
  }

  /** The switch over the commands: the bytes, then the CRC behind them. */
  method Build(buffer: array<bv8>, p: Package) returns (packageLen: int)
    requires buffer.Length == 20
    modifies buffer
    ensures packageLen == |Frame(p)| && buffer[..packageLen] == Frame(p)
  {
    var len := Fill(buffer, p);
    forall i: nat | i < len ensures buffer[i] == Body(p)[i] {
    }
    assert buffer[..len] == Body(p);
    packageLen := 0;
    if len > 0 {
      ModbusCrc16(buffer, len, buffer, len);
      packageLen := len + 2;
    }
  }

  method Fill(buffer: array<bv8>, p: Package) returns (len: nat)
    requires buffer.Length == 20
    modifies buffer
    ensures len == BodyLength(p)
    ensures buffer[0] == 0x55 && buffer[1] == p.addrLow && buffer[2] == p.addrHigh
    ensures buffer[3] == p.command && buffer[4] == p.dataAddr
    ensures (len > 5 ==> buffer[5] == p.data0) && (len > 6 ==> buffer[6] == p.data1)
    ensures len > 7 ==> buffer[7] == p.data2
  {
    buffer[0] := 0x55;
    buffer[1] := p.addrLow;
    buffer[2] := p.addrHigh;
    buffer[3] := p.command;
    buffer[4] := p.dataAddr;
    len := 0;
    if p.cmd.Open? || p.cmd.Close? || p.cmd.Stop? || p.cmd.Delete? || p.cmd.Refactory? {
      len := 5;
    } else if p.cmd.Percent? || p.cmd.RoPercent? || p.cmd.RoVersion? {
      buffer[5] := p.data0;
      len := 6;
    } else if p.cmd.WoAddr? {
      buffer[5] := p.data0;
      buffer[6] := p.data1;
      buffer[7] := p.data2;
      len := 8;
    } else if !p.cmd.Unknown? {
      buffer[5] := p.data0;
      if p.command == READ {
        len := 6;
      } else {
        buffer[6] := p.data1;
        len := 7;
      }
    }
  }

  /** Every frame sent passes the check, and still fails it after any burst of at most 16 wrong bits. */
  lemma SentFramePasses(p: Package, e: seq<bv8>, at: nat)
    requires BodyLength(p) > 0 && |e| == |Frame(p)| && !AllZero(e) && Within16(e, at)
    ensures CrcMatches(Frame(p)) && !CrcMatches(Xor(Frame(p), e))
  {
    SentMatches(Body(p), CrcBytes(Body(p)));
    BurstDetected(Frame(p), e, at);
  }

  /** What a motor finds in a frame. */
  datatype Sent = Sent(addrLow: bv8, addrHigh: bv8, command: bv8, dataAddr: bv8, data: seq<bv8>)

  /** A frame of 7 to 10 bytes with the mark in front and its CRC behind. */
  function Decode(frame: seq<bv8>): Option<Sent> {
    if 7 <= |frame| <= 10 && frame[0] == 0x55 && CrcMatches(frame) then
      Some(Sent(frame[1], frame[2], frame[3], frame[4], frame[5..|frame| - 2]))
    else None
  }

  /** The data bytes that go with a command. */
  function Carried(p: Package): seq<bv8> {
    match p.cmd
    case Percent | RoPercent | RoVersion => [p.data0]
    case WoAddr => [p.data0, p.data1, p.data2]
    case RwDirection | RwHandle | RwSwitchPassive | RwSwitchActive =>
      if p.command == READ then [p.data0] else [p.data0, p.data1]
    case _ => []
  }

  /** A frame tells everything of its package that the command needs, and no frame
      is built for an unknown command. */
  lemma FrameTells(p: Package)
    ensures p.cmd.Unknown? ==> Frame(p) == []
    ensures !p.cmd.Unknown? ==>
              && Decode(Frame(p)) == Some(Sent(p.addrLow, p.addrHigh, p.command, p.dataAddr, Carried(p)))
              && |Frame(p)| == 7 + |Carried(p)|
  {
    if !p.cmd.Unknown? {
      SentMatches(Body(p), CrcBytes(Body(p)));
      assert Frame(p)[..BodyLength(p)] == Body(p);
      assert Frame(p)[5..|Frame(p)| - 2] == Carried(p);
    }
  }

  /** So packages that differ in that have different frames. */
  lemma FramesDiffer(p: Package, q: Package)
    requires !p.cmd.Unknown? && Frame(p) == Frame(q)
    ensures p.addrLow == q.addrLow && p.addrHigh == q.addrHigh && p.command == q.command && p.dataAddr == q.dataAddr
    ensures Carried(p) == Carried(q)
  {
    FrameTells(p);
    FrameTells(q);
  }

  /** The packages that are refused are those that would give a motor an address
      with a byte 00 or FF. */
  lemma BadAddressShows(p: Package)
    ensures BadAddress(p) <==>
              p.cmd == WoAddr && Decode(Frame(p)).Some? && |Decode(Frame(p)).value.data| == 3 &&
              exists i | 1 <= i <= 2 :: Decode(Frame(p)).value.data[i] in {0x00, 0xFF}
  {
    FrameTells(p);
    if p.cmd == WoAddr {
      var data := Decode(Frame(p)).value.data;
      assert data[1] == p.data1 && data[2] == p.data2;
    }
  }

  // --- Replies ---

  datatype Request = CurtainOpen | CurtainClose | CurtainSetPercent | CurtainGetDeviceInfo | OtherRequest

  datatype Reply = Accepted(percent: bv8) | Taken | InvalidArgument | IoError | NotPermitted

  /** doya_recv_package_handle.  A reply to a device query is compared with two
      zero bytes: its CRC is not computed. */
  method RecvPackageHandle(request: Request, buffer: array?<bv8>, len: nat) returns (r: Reply)
    requires buffer != null ==> len <= buffer.Length
    requires request in {CurtainOpen, CurtainClose, CurtainSetPercent} ==> len >= 2
    ensures buffer == null ==> r == InvalidArgument
    ensures buffer != null && request in {CurtainOpen, CurtainClose, CurtainSetPercent} ==>
              r == if CrcMatches(buffer[..len]) then Taken else IoError
    ensures buffer != null && request == CurtainGetDeviceInfo ==>
              r == if len == 7 && buffer[5] == 0 && buffer[6] == 0 then Accepted(buffer[4]) else IoError
    ensures buffer != null && request == OtherRequest ==> r == NotPermitted
  {
    var crc := new bv8[2];
    crc[0], crc[1] := 0, 0;
    if buffer == null {
      return InvalidArgument;
    }
    match request {
      case CurtainOpen | CurtainClose | CurtainSetPercent =>
        ModbusCrc16(crc, 0, buffer, len - 2);
        assert crc[..] == CrcBytes(buffer[..len - 2]);
        assert buffer[..len][..len - 2] == buffer[..len - 2];
        if crc[0] != buffer[len - 2] || crc[1] != buffer[len - 1] {
          return IoError;
        }
        r := Taken;
      case CurtainGetDeviceInfo =>
        if len != 7 {
          return IoError;
        }
        if crc[0] != buffer[len - 2] || crc[1] != buffer[len - 1] {
          return IoError;
        }
        r := Accepted(buffer[4]);
      case OtherRequest =>
        r := NotPermitted;
    }
  }

  /** What the branch for device queries takes for a good reply. */
  predicate InfoTaken(frame: seq<bv8>) {
    |frame| == 7 && frame[5] == 0 && frame[6] == 0
  }

  /** Whatever two bytes follow them, that branch judges five bytes rightly exactly
      when their CRC happens to be zero. */
  lemma InfoCheckExact(body: seq<bv8>)
    requires |body| == 5
    ensures (forall tail: seq<bv8> :: |tail| == 2 ==> (InfoTaken(body + tail) <==> CrcMatches(body + tail)))
       <==> Crc(PRESET, body) == 0
  {
    ZeroParts(Crc(PRESET, body));
    forall tail: seq<bv8> | |tail| == 2
      ensures InfoTaken(body + tail) <==> tail == [0, 0]
      ensures CrcMatches(body + tail) <==> tail == CrcBytes(body)
    {
      SentMatches(body, tail);
      assert (body + tail)[5] == tail[0] && (body + tail)[6] == tail[1];
    }
    if forall tail: seq<bv8> :: |tail| == 2 ==> (InfoTaken(body + tail) <==> CrcMatches(body + tail)) {
      assert InfoTaken(body + [0, 0]);
      assert CrcBytes(body)[0] == 0 && CrcBytes(body)[1] == 0;
    }
  }

  lemma ZeroParts(r: bv16)
    ensures r == 0 <==> Lo(r) == 0 && Hi(r) == 0
  {
  }

  /** A correct reply that is refused, and one with a wrong CRC that is taken. */
  lemma InfoCheckFails()
    ensures var body: seq<bv8> := [0, 0, 0, 0, 0];
            && CrcMatches(body + CrcBytes(body)) && !InfoTaken(body + CrcBytes(body))
            && InfoTaken(body + [0, 0]) && !CrcMatches(body + [0, 0])
  {
    var body: seq<bv8> := [0, 0, 0, 0, 0];
    ZerosKeep(PRESET, body);
    ZeroParts(Crc(PRESET, body));
    SentMatches(body, CrcBytes(body));
    SentMatches(body, [0, 0]);
    assert CrcBytes(body)[0] != 0 || CrcBytes(body)[1] != 0;
  }
}
