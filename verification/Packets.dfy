/** Packet framing: a four byte little-endian header (size, opcode) followed by the payload.
    `Frame` is what the sender writes, `Decode` is what the receiver makes of a byte stream. */
module Packets {
  import opened Options

  type byte = x: int | 0 <= x < 0x100
  type uint16 = x: int | 0 <= x < 0x1_0000

  const HEADER_SIZE: nat := 4
  const MAX_PACKET_SIZE: nat := 65531
  const MAX_PAYLOAD: nat := MAX_PACKET_SIZE - HEADER_SIZE

  datatype PacketHeader = PacketHeader(size: uint16, opcode: uint16)

  datatype Packet = Packet(header: PacketHeader, payload: seq<byte>)

  datatype ReadResult = Success | Incomplete | InvalidHeader | InvalidOpcode | PacketTooLarge

  /** `Got` carries the packet and the number of bytes it takes off the stream. */
  datatype Decoded = Fail(reason: ReadResult) | Got(packet: Packet, consumed: nat)

  predicate IsValidOpcode(opcode: uint16) {
    opcode in {
      1000, 1001, 1002, 1003, 1004, 1005, 1006, 1007, 1008,
      2000, 2001, 2002, 2003, 2004, 2005, 2006, 2007, 2008, 2009, 2010, 2011, 2012, 2013
    }
  }

  function LittleEndian(x: uint16): seq<byte> {
    [x % 0x100, x / 0x100]
  }

  function ReadUint16(lo: byte, hi: byte): uint16 {
    lo + 0x100 * hi
  }

  function Frame(opcode: uint16, payload: seq<byte>): seq<byte>
    requires |payload| + HEADER_SIZE < 0x1_0000
  {
    LittleEndian(HEADER_SIZE + |payload|) + LittleEndian(opcode) + payload
  }

  /** The packet a receiver is expected to see for this opcode and payload. */
  function PacketOf(opcode: uint16, payload: seq<byte>): Packet
    requires |payload| + HEADER_SIZE < 0x1_0000
  {
    Packet(PacketHeader(HEADER_SIZE + |payload|, opcode), payload)
  }

  /** A packet whose frame every receiver accepts. */
  predicate Sendable(p: Packet) {
    |p.payload| <= MAX_PAYLOAD && IsValidOpcode(p.header.opcode) && p == PacketOf(p.header.opcode, p.payload)
  }

  function FrameOf(p: Packet): seq<byte>
    requires Sendable(p)
  {
    Frame(p.header.opcode, p.payload)
  }

  function Decode(s: seq<byte>): Decoded {
    if |s| < HEADER_SIZE then Fail(Incomplete)
    else
      var size := ReadUint16(s[0], s[1]);
      var opcode := ReadUint16(s[2], s[3]);
      if size < HEADER_SIZE then Fail(InvalidHeader)
      else if size > MAX_PACKET_SIZE then Fail(PacketTooLarge)
      else if !IsValidOpcode(opcode) then Fail(InvalidOpcode)
      else if |s| < size then Fail(Incomplete)
      else Got(Packet(PacketHeader(size, opcode), s[HEADER_SIZE..size]), size)
  }

  /** The nine opcodes of clients and the fourteen of the server. */
  predicate Known(opcode: int) {
    1000 <= opcode <= 1008 || 2000 <= opcode <= 2013
  }

  /** A frame begins with its size and then its opcode, low byte first. */
  lemma FrameBytes(opcode: uint16, payload: seq<byte>)
    requires |payload| + 4 < 65536
    ensures var f := Frame(opcode, payload);
            && |f| == 4 + |payload| && f[4..] == payload
            && f[0] == (4 + |payload|) % 256 && f[1] == (4 + |payload|) / 256
            && f[2] == opcode % 256 && f[3] == opcode / 256
  {
  }

  /** Once the header is there, each error is found exactly for these bytes. */
  lemma ErrorsExactly(s: seq<byte>)
    requires |s| >= 4
    ensures var size, opcode := s[0] as int + 256 * s[1] as int, s[2] as int + 256 * s[3] as int;
            && (Decode(s) == Fail(InvalidHeader) <==> size < 4)
            && (Decode(s) == Fail(PacketTooLarge) <==> size > 65531)
            && (Decode(s) == Fail(InvalidOpcode) <==> 4 <= size <= 65531 && !Known(opcode))
            && (Decode(s) == Fail(Incomplete) <==> 4 <= size <= 65531 && Known(opcode) && |s| < size)
            && (Decode(s).Got? ==> Decode(s) == Got(Packet(PacketHeader(size, opcode), s[4..size]), size))
  {
  }

  /** Decoding undoes framing, whatever bytes follow, exactly when the payload fits and the opcode is known;
      the two ways to miss are told apart. */
  lemma RoundTrip(opcode: uint16, payload: seq<byte>, rest: seq<byte>)
    requires |payload| + HEADER_SIZE < 0x1_0000
    ensures var s := Frame(opcode, payload) + rest;
            && (Decode(s) == Got(PacketOf(opcode, payload), 4 + |payload|) <==> |payload| <= 65527 && Known(opcode))
            && (Decode(s) == Fail(PacketTooLarge) <==> |payload| > 65527)
            && (Decode(s) == Fail(InvalidOpcode) <==> |payload| <= 65527 && !Known(opcode))
            && s[4 + |payload|..] == rest
  {
    var s := Frame(opcode, payload) + rest;
    assert s[HEADER_SIZE..HEADER_SIZE + |payload|] == payload;
    assert s[HEADER_SIZE + |payload|..] == rest;
  }

  /** A successful decode takes exactly the bytes that framing the decoded packet would produce. */
  lemma DecodeSound(s: seq<byte>)
    requires Decode(s).Got?
    ensures var d := Decode(s);
            && Sendable(d.packet)
            && HEADER_SIZE <= d.consumed == |FrameOf(d.packet)| <= |s|
            && s == FrameOf(d.packet) + s[d.consumed..]
  {
    var d := Decode(s);
    assert s[..4] == LittleEndian(d.packet.header.size) + LittleEndian(d.packet.header.opcode);
    assert s == s[..4] + s[4..d.consumed] + s[d.consumed..];
  }

  /** Once the decoder has an answer other than "incomplete", more bytes do not change it. */
  lemma DecodeStable(s: seq<byte>, more: seq<byte>)
    requires Decode(s) != Fail(Incomplete)
    ensures Decode(s + more) == Decode(s)
    ensures Decode(s).Got? ==> (s + more)[Decode(s).consumed..] == s[Decode(s).consumed..] + more
  {
    var t := s + more;
    assert t[0] == s[0] && t[1] == s[1] && t[2] == s[2] && t[3] == s[3];
    if Decode(s).Got? {
      assert t[4..Decode(s).consumed] == s[4..Decode(s).consumed];
      assert t[Decode(s).consumed..] == s[Decode(s).consumed..] + more;
    }
  }

  /** The decoder waits exactly when it lacks a header or holds a proper prefix of an acceptable frame. */
  lemma IncompleteMeansPrefix(s: seq<byte>)
    ensures Decode(s) == Fail(Incomplete) <==>
            || |s| < HEADER_SIZE
            || exists p: Packet :: Sendable(p) && s < FrameOf(p)
  {
    if Decode(s) == Fail(Incomplete) && |s| >= HEADER_SIZE {
      var size := ReadUint16(s[0], s[1]);
      var payload := s[4..] + seq(size - |s|, _ => 0 as byte);
      var p := PacketOf(ReadUint16(s[2], s[3]), payload);
      assert FrameOf(p)[..|s|] == s;
      assert Sendable(p) && s < FrameOf(p);
    }
    forall p: Packet | Sendable(p) && s < FrameOf(p) && |s| >= HEADER_SIZE
      ensures Decode(s) == Fail(Incomplete)
    {
      var f := FrameOf(p);
      assert s[0] == f[0] && s[1] == f[1] && s[2] == f[2] && s[3] == f[3];
    }
  }

  /** The largest undecided remainder, and a remainder that reaches it. */
  lemma ResidualBound(s: seq<byte>)
    ensures Decode(s) == Fail(Incomplete) ==> |s| <= MAX_PACKET_SIZE - 1
    ensures exists t: seq<byte> :: |t| == MAX_PACKET_SIZE - 1 && Decode(t) == Fail(Incomplete)
  {
    var payload := seq(MAX_PAYLOAD, _ => 0 as byte);
    var f := Frame(1000, payload);
    var t := f[..MAX_PACKET_SIZE - 1];
    assert t[0] == f[0] && t[1] == f[1] && t[2] == f[2] && t[3] == f[3];
    assert |t| == MAX_PACKET_SIZE - 1 && Decode(t) == Fail(Incomplete);
  }

  /** The serialized message, if it could be serialized at all, framed for sending.
      Nothing is framed when the message is too large or serializes to no bytes. */
  function MakePacketFromProto(opcode: uint16, serialized: seq<byte>, serializes: bool): (r: seq<byte>)
    ensures r != [] <==> serializes && 0 < |serialized| <= MAX_PAYLOAD
    ensures r != [] && IsValidOpcode(opcode) ==>
              Decode(r) == Got(PacketOf(opcode, serialized), |r|) && Sendable(PacketOf(opcode, serialized))
  {
    if !serializes then []
    else if |serialized| > MAX_PACKET_SIZE - HEADER_SIZE then []
    else if serialized == [] then []
    else
      RoundTrip(opcode, serialized, []);
      assert Frame(opcode, serialized) + [] == Frame(opcode, serialized);
      Frame(opcode, serialized)
  }

  /** Fills a fresh byte vector. A missing payload pointer leaves the payload bytes zero. The size field wraps at
      sixteen bits; what is written is then longer than the vector, and there is no result. */
  method MakePacket(opcode: uint16, payload: array?<byte>, payloadLen: uint16) returns (r: Option<array<byte>>)
    requires payload != null ==> payloadLen <= payload.Length
    ensures r.None? <==> HEADER_SIZE + payloadLen >= 0x1_0000
    ensures r.Some? ==>
              && fresh(r.value)
              && r.value[..] ==
                 Frame(opcode, if payload == null then seq(payloadLen, _ => 0 as byte) else payload[..payloadLen])
  {
    var size: uint16 := (HEADER_SIZE + payloadLen) % 0x1_0000;
    if size < HEADER_SIZE + payloadLen {
      return None;
    }
    var pkt := new byte[size](_ => 0);
    pkt[0], pkt[1] := size % 0x100, size / 0x100;
    pkt[2], pkt[3] := opcode % 0x100, opcode / 0x100;
    if payloadLen > 0 && payload != null {
      for i := 0 to payloadLen
        invariant pkt[..HEADER_SIZE] == LittleEndian(size) + LittleEndian(opcode)
        invariant pkt[HEADER_SIZE..HEADER_SIZE + i] == payload[..i]
      {
        pkt[HEADER_SIZE + i] := payload[i];
      }
    }
    assert pkt[..] == pkt[..HEADER_SIZE] + pkt[HEADER_SIZE..];
    r := Some(pkt);
  }

  /** The receive buffer that packets are taken from. */
  class ByteStream {
    var bytes: seq<byte>

    constructor ()
      ensures bytes == []
    {
      bytes := [];
    }

    /** Takes one packet off the front, or leaves the stream as it is and says why not. */
    method TryGetPacket() returns (result: ReadResult, out: Packet)
      modifies this
      ensures Decode(old(bytes)).Got? <==> result == Success
      ensures result == Success ==>
                out == Decode(old(bytes)).packet && bytes == old(bytes)[Decode(old(bytes)).consumed..]
      ensures result != Success ==> Decode(old(bytes)) == Fail(result) && bytes == old(bytes)
    {
      out := Packet(PacketHeader(0, 0), []);
      if |bytes| < HEADER_SIZE {
        return Incomplete, out;
      }
      var header := PacketHeader(ReadUint16(bytes[0], bytes[1]), ReadUint16(bytes[2], bytes[3]));
      if header.size < HEADER_SIZE {
        return InvalidHeader, out;
      }
      if header.size > MAX_PACKET_SIZE {
        return PacketTooLarge, out;
      }
      if !IsValidOpcode(header.opcode) {
        return InvalidOpcode, out;
      }
      if |bytes| < header.size {
        return Incomplete, out;
      }
      var payload := [];
      if header.size > HEADER_SIZE {
        payload := bytes[HEADER_SIZE..header.size];
      }
      bytes := bytes[header.size..];
      return Success, Packet(header, payload);
    }
  }
}
