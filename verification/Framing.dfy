/**
 SBN frames: a packed header (size, type, processor id, all big-endian) and a payload; the sender
 that prints them and the receiver that parses them.
 */
module Framing {
  import opened Defs
  import opened Stream

  // The values of the types other than the heartbeat come from the SBN headers; only that they
  // differ matters here.
  const NO_MSG: uint8 := 0x00
  const SUB_MSG: uint8 := 0x01
  const UNSUB_MSG: uint8 := 0x02
  const APP_MSG: uint8 := 0x03
  const PROTO_MSG: uint8 := 0x04
  const HEARTBEAT_MSG: uint8 := 0xA0

  const CCSDS_PRIMARY_HDR_SZ: nat := 6

  // ---- big-endian packing ----

  function Pack32(x: uint32): (b: seq<uint8>)
    ensures |b| == 4
  {
    Pack16(x / 0x1_0000) + Pack16(x % 0x1_0000)
  }

  function Unpack32(b: seq<uint8>): uint32
    requires |b| == 4
  {
    (Unpack16(b[..2]) as int) * 0x1_0000 + Unpack16(b[2..])
  }

  datatype Header = Header(size: uint16, kind: uint8, cpuId: uint32)

  function PackHeader(h: Header): (b: seq<uint8>)
    ensures |b| == PACKED_HDR_SZ
  {
    Pack16(h.size) + [h.kind] + Pack32(h.cpuId)
  }

  function UnpackHeader(b: seq<uint8>): Header
    requires |b| == PACKED_HDR_SZ
  {
    Header(Unpack16(b[..2]), b[2], Unpack32(b[3..]))
  }

  /** Packing and unpacking a header are inverse in both directions. */
  lemma HeaderRoundTrip(h: Header, b: seq<uint8>)
    requires |b| == PACKED_HDR_SZ
    ensures UnpackHeader(PackHeader(h)) == h
    ensures PackHeader(UnpackHeader(b)) == b
  {
    var p := PackHeader(h);
    assert p[..2] == Pack16(h.size) && p[2] == h.kind && p[3..] == Pack32(h.cpuId);
    var c := Pack32(h.cpuId);
    assert c[..2] == Pack16(h.cpuId / 0x1_0000) && c[2..] == Pack16(h.cpuId % 0x1_0000);
    var d := b[3..];
    assert Pack16(Unpack16(b[..2])) == b[..2];
    assert Pack16(Unpack16(d[..2])) == d[..2] && Pack16(Unpack16(d[2..])) == d[2..];
    assert Pack32(Unpack32(d)) == d;
    assert b == b[..2] + [b[2]] + d;
  }

  /** Where each field is: the size in bytes 0 and 1, the type in byte 2, the processor id in bytes 3 to
      6, high bytes first. */
  lemma HeaderBytes(h: Header)
    ensures var b := PackHeader(h);
            && (b[0] as int) * 0x100 + b[1] == h.size && b[2] == h.kind
            && (b[3] as int) * 0x100_0000 + (b[4] as int) * 0x1_0000 + (b[5] as int) * 0x100 + b[6] == h.cpuId
  {
    HighByteFirst(h.size, 0, 0);
    HighByteFirst(h.cpuId / 0x1_0000, 0, 0);
    HighByteFirst(h.cpuId % 0x1_0000, 0, 0);
  }

  // ---- the receiver ----

  predicate Discarded(kind: uint8) {
    kind == NO_MSG || kind == SUB_MSG || kind == UNSUB_MSG || kind == PROTO_MSG || kind == HEARTBEAT_MSG
  }

  /** Status of recv_msg, the application payload it read completely, if any, and what is left. */
  datatype Parsed = Parsed(status: Status, app: Option<seq<uint8>>, rest: Script)

  /** recv_msg without the pipe table. An application message counts as success even when its
      payload could not be read. */
  function Parse(s: Script): (r: Parsed)
    ensures r.app.Some? ==> |r.app.value| <= MAX_MESSAGE_SIZE
  {
    var h := ReadBytes(s, PACKED_HDR_SZ);
    if h.status != Success then Parsed(h.status, None, h.rest)
    else
      var hdr := UnpackHeader(h.bytes);
      if Discarded(hdr.kind) then
        var p := ReadBytes(h.rest, hdr.size);
        Parsed(p.status, None, p.rest)
      else if hdr.kind == APP_MSG then
        var p := ReadBytes(h.rest, hdr.size);
        Parsed(Success, if p.status == Success then Some(p.bytes) else None, p.rest)
      else Parsed(EventError, None, h.rest)
  }

  /** recv_msg in terms of the bytes that arrive before the next failure or close, in every case:
      cut off inside the header or the payload, unknown type, oversized, or complete. An oversized
      payload is left in the stream, where the next call will take it for a header. */
  lemma ParseMeaning(s: Script)
    ensures var r, bytes := Parse(s), Lead(s);
            if |bytes| < PACKED_HDR_SZ then r == Parsed(StopStatus(s), None, AfterStop(s))
            else
              var hdr, more := UnpackHeader(bytes[..PACKED_HDR_SZ]), bytes[PACKED_HDR_SZ..];
              var app := hdr.kind == APP_MSG;
              if hdr.kind !in {NO_MSG, SUB_MSG, UNSUB_MSG, PROTO_MSG, HEARTBEAT_MSG, APP_MSG} then
                r.status == EventError && r.app == None && Lead(r.rest) == more && Stop(r.rest) == Stop(s)
              else if hdr.size > MAX_MESSAGE_SIZE then
                && r.status == (if app then Success else BadArgument) && r.app == None
                && Lead(r.rest) == more && Stop(r.rest) == Stop(s)
              else if |more| < hdr.size then
                r == Parsed(if app then Success else StopStatus(s), None, AfterStop(s))
              else
                && r.status == Success && r.app == (if app then Some(more[..hdr.size]) else None)
                && Lead(r.rest) == more[hdr.size..] && Stop(r.rest) == Stop(s)
  {
    CollectExact(s, PACKED_HDR_SZ);
    var h := ReadBytes(s, PACKED_HDR_SZ);
    if h.status == Success {
      assert h.bytes == Lead(s)[..PACKED_HDR_SZ];
      assert Lead(h.rest) == Lead(s)[PACKED_HDR_SZ..];
      var size := UnpackHeader(h.bytes).size;
      CollectExact(h.rest, size);
      var p := Collect(h.rest, size);
      if p.status == Success {
        assert p.bytes == Lead(h.rest)[..size];
        assert Lead(p.rest) == Lead(h.rest)[size..];
      }
    }
  }

  /** Every successful recv_msg has consumed at least a header, and none adds input. */
  lemma ParseProgress(s: Script)
    ensures Size(Parse(s).rest) <= Size(s)
    ensures Parse(s).status == Success ==> Size(Parse(s).rest) + PACKED_HDR_SZ <= Size(s)
  {
    var h := ReadBytes(s, PACKED_HDR_SZ);
    SizeShrinks(s, PACKED_HDR_SZ);
    if h.status == Success {
      SizeShrinks(h.rest, UnpackHeader(h.bytes).size);
    }
  }

  /** recv_msg cannot tell two chunkings of the same stream apart. */
  lemma ParseChunking(a: Script, b: Script)
    requires SameStream(a, b)
    ensures var x, y := Parse(a), Parse(b);
            x.status == y.status && x.app == y.app && SameStream(x.rest, y.rest)
  {
    ParseMeaning(a);
    ParseMeaning(b);
  }

  // ---- frames ----

  datatype Frame = Frame(kind: uint8, cpuId: uint32, payload: seq<uint8>)

  predicate WellFormed(f: Frame) {
    && f.kind in {NO_MSG, SUB_MSG, UNSUB_MSG, PROTO_MSG, HEARTBEAT_MSG, APP_MSG}
    && |f.payload| <= MAX_MESSAGE_SIZE
  }

  function PackFrame(f: Frame): seq<uint8>
    requires WellFormed(f)
  {
    PackHeader(Header(|f.payload|, f.kind, f.cpuId)) + f.payload
  }

  /** One well-formed frame at the head of the stream is parsed as itself and consumed exactly. */
  lemma ParseFrame(s: Script, f: Frame, more: seq<uint8>)
    requires WellFormed(f) && Lead(s) == PackFrame(f) + more
    ensures var r := Parse(s);
            && r.status == Success
            && r.app == (if f.kind == APP_MSG then Some(f.payload) else None)
            && Lead(r.rest) == more && Stop(r.rest) == Stop(s)
  {
    var hdr := Header(|f.payload|, f.kind, f.cpuId);
    HeaderRoundTrip(hdr, PackHeader(hdr));
    ParseMeaning(s);
    Regroup(PackHeader(hdr), f.payload, more);
    SplitBack(PackHeader(hdr), f.payload + more);
    SplitBack(f.payload, more);
  }

  /** recv_msg by the type byte, for a frame that has arrived completely: a type other than the
      application message is read and dropped, an application message is delivered; either way the frame
      is consumed exactly. */
  lemma RecvKnownType(s: Script, b: seq<uint8>, payload: seq<uint8>, more: seq<uint8>)
    requires |b| == 7 && Lead(s) == b + (payload + more)
    requires (b[0] as int) * 0x100 + b[1] == |payload| <= MAX_MESSAGE_SIZE
    requires b[2] in {NO_MSG, SUB_MSG, UNSUB_MSG, PROTO_MSG, HEARTBEAT_MSG, APP_MSG}
    ensures var r := Parse(s);
            && r.status == Success && r.app == (if b[2] == APP_MSG then Some(payload) else None)
            && Lead(r.rest) == more && Stop(r.rest) == Stop(s)
  {
    var h := UnpackHeader(b);
    assert b[..2] == [b[0], b[1]];
    HeaderRoundTrip(h, b);
    Regroup(b, payload, more);
    ParseFrame(s, Frame(b[2], h.cpuId, payload), more);
  }

  /** Any type but these six different ones is an error, and the payload stays in the stream to be taken
      for the next header. */
  lemma RecvUnknownType(s: Script, b: seq<uint8>, more: seq<uint8>)
    requires |b| == 7 && Lead(s) == b + more
    requires b[2] !in {NO_MSG, SUB_MSG, UNSUB_MSG, PROTO_MSG, HEARTBEAT_MSG, APP_MSG}
    ensures |{NO_MSG, SUB_MSG, UNSUB_MSG, PROTO_MSG, HEARTBEAT_MSG, APP_MSG}| == 6 && HEARTBEAT_MSG == 0xA0
    ensures var r := Parse(s);
            r.status == EventError && r.app == None && Lead(r.rest) == more && Stop(r.rest) == Stop(s)
  {
    SplitBack(b, more);
    ParseMeaning(s);
  }

  /** What send_heartbeat writes. */
  function HeartbeatBytes(): (b: seq<uint8>)
    ensures |b| == PACKED_HDR_SZ
  {
    PackHeader(Header(0, HEARTBEAT_MSG, 2))
  }

  /** A heartbeat is a whole frame: a receiver accepts it, delivers nothing and reads on after it. */
  lemma HeartbeatIsFrame(s: Script, more: seq<uint8>)
    requires Lead(s) == HeartbeatBytes() + more
    ensures HeartbeatBytes() == [0, 0, 0xA0, 0, 0, 0, 2]
    ensures Parse(s).status == Success && Parse(s).app == None && Lead(Parse(s).rest) == more
  {
    var f := Frame(HEARTBEAT_MSG, 2, []);
    assert PackFrame(f) == HeartbeatBytes();
    ParseFrame(s, f, more);
  }

  // ---- the subscription message ----

  const SUBSCRIPTION_SIZE: uint16 := 54

  /** What SendSubToSbn writes: the stated size is a constant; SBN's identification string and packed
      message id are parameters, then come the number of subscriptions and two bytes of quality of
      service. */
  function SubscriptionMessage(ident: seq<uint8>, packedId: seq<uint8>): seq<uint8> {
    PackHeader(Header(SUBSCRIPTION_SIZE, SUB_MSG, 2)) + (ident + Pack16(1) + packedId + [0, 0])
  }

  /** The bytes: size 54, the subscription type, processor 2, then the identification string, one
      subscription, the packed id and the two zero bytes. */
  lemma SubscriptionBytes(ident: seq<uint8>, packedId: seq<uint8>)
    ensures SubscriptionMessage(ident, packedId)
            == [0, 54, SUB_MSG, 0, 0, 0, 2] + (ident + [0, 1] + packedId + [0, 0])
  {
    assert PackHeader(Header(SUBSCRIPTION_SIZE, SUB_MSG, 2)) == [0, 54, SUB_MSG, 0, 0, 0, 2];
    assert Pack16(1) == [0, 1];
  }

  /** It is one whole frame for whoever parses it exactly when the identification string and the
      packed id together have the 50 bytes its constant size leaves them. */
  lemma SubscriptionIsFrame(s: Script, ident: seq<uint8>, packedId: seq<uint8>, more: seq<uint8>)
    requires Lead(s) == SubscriptionMessage(ident, packedId) + more
    ensures Parse(s).status == Success && Lead(Parse(s).rest) == more <==> |ident| + |packedId| == 50
  {
    var hdr, body := Header(SUBSCRIPTION_SIZE, SUB_MSG, 2), ident + Pack16(1) + packedId + [0, 0];
    HeaderRoundTrip(hdr, PackHeader(hdr));
    Regroup(PackHeader(hdr), body, more);
    SplitBack(PackHeader(hdr), body + more);
    SplitBack(body, more);
    ParseMeaning(s);
  }

  // ---- the sender ----

  /** The length field of a CCSDS primary header (section 4.1.3.5 of CCSDS 133.0-B-2): the length of
      the packet data field minus one, in its last two bytes. */
  function LengthField(msg: seq<uint8>): uint16
    requires |msg| >= CCSDS_PRIMARY_HDR_SZ
  {
    Unpack16(msg[4..6])
  }

  /** CFE_SBN_Client_GetTotalMsgLength: six bytes of header and the data, returned as a uint16. */
  function TotalMsgLength(msg: seq<uint8>): uint16
    requires |msg| >= CCSDS_PRIMARY_HDR_SZ
  {
    (LengthField(msg) as int + 7) % 0x1_0000
  }

  /** Status of SendMsg and the bytes it passed to write, none if it refused the message. */
  datatype Sent = Sent(status: Status, frame: seq<uint8>)

  /** SendMsg on the memory that starts at `msg`, with the result of write. */
  function SendMsg(msg: seq<uint8>, cpuId: int, written: int): Sent
    requires |msg| >= CCSDS_PRIMARY_HDR_SZ && |msg| >= TotalMsgLength(msg)
  {
    var size := TotalMsgLength(msg);
    if size + PACKED_HDR_SZ > MAX_MESSAGE_SIZE then Sent(MessageTooBig, [])
    else
      var frame := PackHeader(Header(size, APP_MSG, cpuId % 0x1_0000_0000)) + msg[..size];
      Sent(if written != |frame| then BufferAllocError else Success, frame)
  }

  /** A packet: a message as long as bytes 4 and 5 say, which hold the length of the data behind its six
      header bytes minus one. */
  predicate IsPacket(msg: seq<uint8>) {
    |msg| >= 6 && |msg| == 6 + ((msg[4] as int) * 0x100 + msg[5] + 1)
  }

  /** SendMsg's result in terms of the bytes at msg. Bytes 4 and 5 give the length, reduced to 16 bits.
      Either the frame would be too big, and nothing is passed to write; or it is the length, the
      application type, the processor id and then the front of the memory, unchanged; a short write is
      reported as an allocation error. */
  predicate SendsFront(msg: seq<uint8>, cpuId: int, written: int, r: Sent)
    requires |msg| >= 6
  {
    var size, b := ((msg[4] as int) * 0x100 + msg[5] + 7) % 0x1_0000, r.frame;
    if size + 7 > MAX_MESSAGE_SIZE then r == Sent(MessageTooBig, [])
    else
      && |b| == size + 7 && size <= |msg| && b[7..] == msg[..size]
      && (b[0] as int) * 0x100 + b[1] == size && b[2] == APP_MSG
      && (b[3] as int) * 0x100_0000 + (b[4] as int) * 0x1_0000 + (b[5] as int) * 0x100 + b[6]
         == cpuId % 0x1_0000_0000
      && r.status == (if written == size + 7 then Success else BufferAllocError)
  }

  lemma SendByBytes(msg: seq<uint8>, cpuId: int, written: int)
    requires |msg| >= 6 && |msg| >= ((msg[4] as int) * 0x100 + msg[5] + 7) % 0x1_0000
    ensures SendsFront(msg, cpuId, written, SendMsg(msg, cpuId, written))
  {
    var size := TotalMsgLength(msg);
    if size + PACKED_HDR_SZ <= MAX_MESSAGE_SIZE {
      var h := Header(size, APP_MSG, cpuId % 0x1_0000_0000);
      HeaderBytes(h);
      SplitBack(PackHeader(h), msg[..size]);
    }
  }

  /** What SendMsg writes is the well-formed frame of the message's first TotalMsgLength bytes. */
  lemma SendIsFrame(msg: seq<uint8>, cpuId: int, written: int)
    requires |msg| >= CCSDS_PRIMARY_HDR_SZ && |msg| >= TotalMsgLength(msg)
    requires SendMsg(msg, cpuId, written).status != MessageTooBig
    ensures var f := Frame(APP_MSG, cpuId % 0x1_0000_0000, msg[..TotalMsgLength(msg)]);
            WellFormed(f) && SendMsg(msg, cpuId, written).frame == PackFrame(f)
    ensures SendMsg(msg, cpuId, written).status == Success <==> written == PACKED_HDR_SZ + TotalMsgLength(msg)
  {
  }

  /** Frame round trip. What SendMsg emits for a packet is parsed by recv_msg out of any chunking
      and consumed exactly; the payload is the packet, byte for byte, exactly when its length fits 16
      bits, that is when the length field is at most 65528. Beyond that the total length wraps, the size
      check passes, and the payload is at most six bytes of it. */
  lemma SendReceiveRoundTrip(msg: seq<uint8>, cpuId: int, written: int, s: Script, more: seq<uint8>)
    requires IsPacket(msg)
    requires SendMsg(msg, cpuId, written).status != MessageTooBig
    requires Lead(s) == SendMsg(msg, cpuId, written).frame + more
    ensures var r := Parse(s);
            && r.status == Success && r.app.Some?
            && Lead(r.rest) == more && Stop(r.rest) == Stop(s)
            && (r.app.value == msg <==> (msg[4] as int) * 0x100 + msg[5] <= 65528)
            && ((msg[4] as int) * 0x100 + msg[5] > 65528 ==> |r.app.value| <= 6 && |msg| > MAX_MESSAGE_SIZE)
  {
    var sent := msg[..TotalMsgLength(msg)];
    SendIsFrame(msg, cpuId, written);
    ParseFrame(s, Frame(APP_MSG, cpuId % 0x1_0000_0000, sent), more);
    SentPart(msg);
  }

  /** How much of a packet the 16-bit total length covers. */
  lemma SentPart(msg: seq<uint8>)
    requires IsPacket(msg)
    ensures var sent := msg[..TotalMsgLength(msg)];
            if (msg[4] as int) * 0x100 + msg[5] <= 65528 then sent == msg
            else |sent| <= 6 && sent != msg && |msg| > MAX_MESSAGE_SIZE
  {
  }

  /** A packet is refused for its size exactly when it and its frame header exceed the limit and the
      length did not wrap. */
  lemma SendRefuses(msg: seq<uint8>, cpuId: int, written: int)
    requires IsPacket(msg)
    ensures SendMsg(msg, cpuId, written).status == MessageTooBig
            <==> MAX_MESSAGE_SIZE - 7 < |msg| < 0x1_0000
  {
  }
}
