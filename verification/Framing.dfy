/** Messages on a byte stream: packing, unpacking and the reader loop. */
module Framing {
  import opened Wrappers
  import opened Bytes

  newtype uint32 = x: int | 0 <= x < 0x1_0000_0000

  datatype Msg = Msg(len: uint32, id: uint32, data: Bytes)

  const HEAD_LEN: nat := 8

  /** The length field keeps the low 32 bits of the length. */
  function NewMsg(id: uint32, data: Bytes): Msg {
    Msg((|data| % 0x1_0000_0000) as uint32, id, data)
  }

  // ---- little-endian numbers ----

  function Encode(x: uint32): (b: Bytes)
    ensures |b| == 4
  {
    var n := x as int;
    [(n % 256) as Byte, (n / 256 % 256) as Byte, (n / 65536 % 256) as Byte, (n / 16777216) as Byte]
  }

  function Decode(b: Bytes): uint32
    requires |b| == 4
  {
    (b[0] as int + 256 * (b[1] as int) + 65536 * (b[2] as int) + 16777216 * (b[3] as int)) as uint32
  }

  /** The number of some bytes, the least significant first. */
  function LittleEndian(b: Bytes): nat {
    if b == [] then 0 else b[0] as int + 256 * LittleEndian(b[1..])
  }

  /** Four bytes are decoded, and so, by the round trips, encoded, with the least significant byte first. */
  lemma DecodeIsLittleEndian(b: Bytes)
    requires |b| == 4
    ensures Decode(b) as int == LittleEndian(b)
  {
    assert LittleEndian(b[3..]) == b[3] as int by {
      assert b[3..][1..] == [];
    }
    assert b[2..][1..] == b[3..] && b[1..][1..] == b[2..];
    assert LittleEndian(b[2..]) == b[2] as int + 256 * (b[3] as int);
    assert LittleEndian(b[1..]) == b[1] as int + 256 * LittleEndian(b[2..]);
  }

  lemma DecodeEncode(x: uint32)
    ensures Decode(Encode(x)) == x
  {
    var n := x as int;
    var a := n / 256;
    assert n / 65536 == a / 256 && n / 16777216 == a / 256 / 256;
  }

  lemma LowByte(low: int, high: int)
    requires 0 <= low < 256
    ensures (low + 256 * high) % 256 == low && (low + 256 * high) / 256 == high
  {
  }

  lemma EncodeDecode(b: Bytes)
    requires |b| == 4
    ensures Encode(Decode(b)) == b
  {
    var p := b[2] as int + 256 * (b[3] as int);
    var m := b[1] as int + 256 * p;
    var n := b[0] as int + 256 * m;
    LowByte(b[0] as int, m);
    LowByte(b[1] as int, p);
    LowByte(b[2] as int, b[3] as int);
    assert n == Decode(b) as int;
    assert n / 65536 == n / 256 / 256 && n / 16777216 == n / 256 / 256 / 256;
  }

  // ---- packing ----

  function Packet(msg: Msg): Bytes {
    Encode(msg.len) + Encode(msg.id) + msg.data
  }

  method Pack(msg: Msg) returns (packet: Bytes)
    ensures packet == Packet(msg)
  {
    var buf: Bytes := [];
    buf := buf + Encode(msg.len);
    buf := buf + Encode(msg.id);
    buf := buf + msg.data;
    packet := buf;
  }

  function Packets(msgs: seq<Msg>): Bytes {
    if msgs == [] then [] else Packet(msgs[0]) + Packets(msgs[1..])
  }

  /** The header of a message; fails on a short packet and on a length over the limit. */
  method Unpack(packet: Bytes, maxPacketSize: uint32) returns (msg: Option<Msg>)
    ensures msg == if |packet| < HEAD_LEN || Decode(packet[..4]) > maxPacketSize then None
      else Some(Msg(Decode(packet[..4]), Decode(packet[4..8]), []))
  {
    var reader := packet;
    if |reader| < 4 {
      return None;
    }
    var len := Decode(reader[..4]);
    reader := reader[4..];
    if |reader| < 4 {
      return None;
    }
    var id := Decode(reader[..4]);
    if len > maxPacketSize {
      return None;
    }
    assert packet[4..][..4] == packet[4..8];
    return Some(Msg(len, id, []));
  }

  // ---- reading ----

  /** The first message of a stream, if it is complete and within the limit, and the bytes after it. */
  function ReadMsg(stream: Bytes, maxPacketSize: uint32): Option<(Msg, Bytes)> {
    if |stream| < HEAD_LEN then None
    else
      var len := Decode(stream[..4]);
      if len > maxPacketSize || |stream| < HEAD_LEN + len as int then None
      else Some((Msg(len, Decode(stream[4..8]), stream[8..8 + len as int]), stream[8 + len as int..]))
  }

  function Delivered(stream: Bytes, maxPacketSize: uint32): seq<Msg>
    decreases |stream|
  {
    match ReadMsg(stream, maxPacketSize)
    case None => []
    case Some((msg, rest)) => [msg] + Delivered(rest, maxPacketSize)
  }

  /** One round of the reader loop at position `pos`. */
  method ReadNext(stream: Bytes, pos: nat, maxPacketSize: uint32) returns (msg: Option<Msg>, next: nat)
    requires pos <= |stream|
    ensures msg.None? ==> ReadMsg(stream[pos..], maxPacketSize).None?
    ensures msg.Some? ==> pos < next <= |stream| && ReadMsg(stream[pos..], maxPacketSize) == Some((msg.value, stream[next..]))
  {
    hide Decode;
    next := pos;
    if |stream| - pos < HEAD_LEN {
      return None, next;
    }
    ghost var left := stream[pos..];
    var packetHead := stream[pos..pos + HEAD_LEN];
    next := pos + HEAD_LEN;
    msg := Unpack(packetHead, maxPacketSize);
    assert packetHead == left[..8];
    assert left[..8][..4] == left[..4] && left[..8][4..8] == left[4..8];
    if msg.None? {
      return;
    }
    var len := msg.value.len as int;
    var data: Bytes := [];
    if len > 0 {
      if |stream| - next < len {
        return None, next;
      }
      data := stream[next..next + len];
      next := next + len;
    }
    assert data == left[8..8 + len] && stream[next..] == left[8 + len..];
    msg := Some(msg.value.(data := data));
  }

  /** The reader loop of a connection until the stream ends or breaks. */
  method StartReader(stream: Bytes, maxPacketSize: uint32) returns (pushed: seq<Msg>)
    ensures pushed == Delivered(stream, maxPacketSize)
  {
    hide ReadMsg;
    pushed := [];
    var pos := 0;
    assert stream[0..] == stream;
    while true
      invariant 0 <= pos <= |stream|
      invariant pushed + Delivered(stream[pos..], maxPacketSize) == Delivered(stream, maxPacketSize)
      decreases |stream| - pos
    {
      var msg, next := ReadNext(stream, pos, maxPacketSize);
      if msg.None? {
        break;
      }
      ghost var rest := Delivered(stream[next..], maxPacketSize);
      assert pushed + ([msg.value] + rest) == pushed + [msg.value] + rest;
      pushed := pushed + [msg.value];
      pos := next;
    }
  }

  // ---- the two undo each other ----

  /** Reading a packet back, followed by anything. */
  lemma ReadPacket(msg: Msg, rest: Bytes, maxPacketSize: uint32)
    requires msg.len as int <= |msg.data|
    ensures ReadMsg(Packet(msg) + rest, maxPacketSize) ==
      if msg.len > maxPacketSize then None
      else Some((msg.(data := msg.data[..msg.len as int]), msg.data[msg.len as int..] + rest))
  {
    var stream, len := Packet(msg) + rest, msg.len as int;
    assert stream[..4] == Encode(msg.len) && stream[4..8] == Encode(msg.id);
    DecodeEncode(msg.len);
    DecodeEncode(msg.id);
    assert stream[8..] == msg.data + rest;
    assert stream[8..8 + len] == stream[8..][..len] == msg.data[..len];
    assert stream[8 + len..] == stream[8..][len..] == msg.data[len..] + rest;
  }

  datatype Payload = Payload(id: uint32, data: Bytes)

  function Messages(ps: seq<Payload>): (msgs: seq<Msg>)
    ensures |msgs| == |ps|
  {
    if ps == [] then [] else [NewMsg(ps[0].id, ps[0].data)] + Messages(ps[1..])
  }

  /** What the reader makes of a packet followed by other bytes. */
  lemma DeliverPacket(msg: Msg, rest: Bytes, maxPacketSize: uint32)
    requires msg.len as int <= |msg.data|
    ensures var got := Delivered(Packet(msg) + rest, maxPacketSize);
      && (msg.len > maxPacketSize ==> got == [])
      && (msg.len <= maxPacketSize ==> got != [] && |got[0].data| == msg.len as int)
      && (msg.len <= maxPacketSize && msg.len as int == |msg.data| ==> got == [msg] + Delivered(rest, maxPacketSize))
  {
    hide ReadMsg, Packet;
    ReadPacket(msg, rest, maxPacketSize);
    if msg.len as int == |msg.data| {
      assert msg.data[..|msg.data|] == msg.data && msg.data[|msg.data|..] + rest == rest;
    }
  }

  lemma {:induction false} MessagesRoundTrip(ps: seq<Payload>, maxPacketSize: uint32)
    ensures Delivered(Packets(Messages(ps)), maxPacketSize) == Messages(ps) <==>
      forall i | 0 <= i < |ps| :: |ps[i].data| <= maxPacketSize as int
    decreases |ps|
  {
    hide Packet, Delivered;
    if ps == [] {
      NothingDelivered(maxPacketSize);
    } else {
      var msg, rest := NewMsg(ps[0].id, ps[0].data), Messages(ps[1..]);
      assert Messages(ps)[1..] == rest && Messages(ps)[0] == msg;
      DeliverPacket(msg, Packets(rest), maxPacketSize);
      MessagesRoundTrip(ps[1..], maxPacketSize);
      var got := Delivered(Packets(Messages(ps)), maxPacketSize);
      if |msg.data| <= maxPacketSize as int {
        assert got == [msg] + Delivered(Packets(rest), maxPacketSize);
        assert got[1..] == Delivered(Packets(rest), maxPacketSize);
        assert forall i | 0 <= i < |ps| - 1 :: ps[1..][i] == ps[i + 1];
      } else {
        assert got == [] || |got[0].data| < |msg.data|;
      }
    }
  }

  lemma {:induction false} MessageAt(ps: seq<Payload>, i: nat)
    requires i < |ps|
    ensures Messages(ps)[i] == NewMsg(ps[i].id, ps[i].data)
    decreases |ps|
  {
    if i > 0 {
      MessageAt(ps[1..], i - 1);
    }
  }

  /** Nothing over the limit is delivered. */
  lemma {:induction false} DeliveredWithinLimit(stream: Bytes, maxPacketSize: uint32, i: nat)
    requires i < |Delivered(stream, maxPacketSize)|
    ensures Delivered(stream, maxPacketSize)[i].len <= maxPacketSize
    decreases |stream|
  {
    if i > 0 {
      var (msg, rest) := ReadMsg(stream, maxPacketSize).value;
      DeliveredWithinLimit(rest, maxPacketSize, i - 1);
    }
  }

  /** `msg` is what was passed to NewMsg: the same id and data, and the length of the data. */
  ghost predicate IsMessageOf(msg: Msg, p: Payload) {
    msg.id == p.id && msg.data == p.data && msg.len as int == |p.data|
  }

  lemma NewMsgFits(p: Payload, maxPacketSize: uint32)
    requires |p.data| <= maxPacketSize as int
    ensures IsMessageOf(NewMsg(p.id, p.data), p)
  {
  }

  /** Packing and sending a list of payloads delivers exactly those payloads, each with its id, data and length,
      if and only if no data is over the limit.  */
  lemma RoundTrip(ps: seq<Payload>, maxPacketSize: uint32)
    ensures var got := Delivered(Packets(Messages(ps)), maxPacketSize);
      (forall i | 0 <= i < |ps| :: |ps[i].data| <= maxPacketSize as int) <==>
      |got| == |ps| && forall i | 0 <= i < |ps| :: IsMessageOf(got[i], ps[i])
  {
    hide Delivered, Packets, Messages, NewMsg;
    var got := Delivered(Packets(Messages(ps)), maxPacketSize);
    MessagesRoundTrip(ps, maxPacketSize);
    if forall i | 0 <= i < |ps| :: |ps[i].data| <= maxPacketSize as int {
      forall i: nat | i < |ps| ensures IsMessageOf(got[i], ps[i]) {
        MessageAt(ps, i);
        NewMsgFits(ps[i], maxPacketSize);
      }
    }
    if |got| == |ps| && forall i | 0 <= i < |ps| :: IsMessageOf(got[i], ps[i]) {
      forall i: nat | i < |ps| ensures |ps[i].data| <= maxPacketSize as int {
        DeliveredWithinLimit(Packets(Messages(ps)), maxPacketSize, i);
      }
    }
  }

  lemma NothingDelivered(maxPacketSize: uint32)
    ensures Delivered([], maxPacketSize) == []
  {
  }

  lemma RepackOne(stream: Bytes, maxPacketSize: uint32)
    requires ReadMsg(stream, maxPacketSize).Some?
    ensures var (msg, rest) := ReadMsg(stream, maxPacketSize).value;
      stream == Packet(msg) + rest && msg.len as int == |msg.data| <= maxPacketSize as int
  {
    EncodeDecode(stream[..4]);
    EncodeDecode(stream[4..8]);
    var len := Decode(stream[..4]) as int;
    assert stream == stream[..4] + stream[4..8] + stream[8..8 + len] + stream[8 + len..];
  }

  /** For any stream, packing the delivered messages again gives back a prefix of it; what is left does not
      start with a complete message within the limit.  */
  lemma {:induction false} Repack(stream: Bytes, maxPacketSize: uint32) returns (rest: Bytes)
    ensures stream == Packets(Delivered(stream, maxPacketSize)) + rest
    ensures ReadMsg(rest, maxPacketSize).None?
    decreases |stream|
  {
    match ReadMsg(stream, maxPacketSize)
    case None =>
      rest := stream;
    case Some((msg, tail)) =>
      RepackOne(stream, maxPacketSize);
      rest := Repack(tail, maxPacketSize);
      var more := Delivered(tail, maxPacketSize);
      assert ([msg] + more)[1..] == more;
      assert Packet(msg) + (Packets(more) + rest) == Packet(msg) + Packets(more) + rest;
  }
}
