/** Packets of 1024 bytes on both sides of the connection, and the loop that rebuilds the
    encrypted body of a file message. */
module Framing {
  import opened Octets
  import opened Protocol
  import opened Wrappers

  function Flatten(chunks: seq<Bytes>): Bytes {
    if chunks == [] then [] else chunks[0] + Flatten(chunks[1..])
  }

  /** The receiving end of a connection: what each `recv` could return at most, in order. An
      exhausted queue is a closed connection. */
  class Connection {
    var incoming: seq<Bytes>

    constructor (chunks: seq<Bytes>)
      ensures incoming == chunks
    {
      incoming := chunks;
    }

    /** `recv(max)`: the next chunk, or its first `max` bytes; empty once closed. */
    method Recv(max: nat) returns (data: Bytes)
      modifies this
      ensures (data, incoming) == RecvFrom(old(incoming), max)
    {
      if incoming == [] {
        data := [];
      } else if |incoming[0]| <= max {
        data, incoming := incoming[0], incoming[1..];
      } else {
        data, incoming := incoming[0][..max], [incoming[0][max..]] + incoming[1..];
      }
    }
  }

  function RecvFrom(chunks: seq<Bytes>, max: nat): (Bytes, seq<Bytes>) {
    if chunks == [] then ([], [])
    else if |chunks[0]| <= max then (chunks[0], chunks[1..])
    else (chunks[0][..max], [chunks[0][max..]] + chunks[1..])
  }

  // ----- the client's side: TcpClientChannel::Write -----

  function PacketCount(length: nat): nat { (length + 1023) / 1024 }

  /** The packets written for a buffer of `length` bytes at the start of `memory`. */
  function Packets(memory: Bytes, length: nat): (r: seq<Bytes>)
    requires PacketCount(length) * PACKET_SIZE <= |memory|
    ensures |r| == PacketCount(length)
    decreases length
  {
    if length == 0 then []
    else [memory[..1024]] + Packets(memory[1024..], if length < 1024 then 0 else length - 1024)
  }

  /** The sending end. The socket takes `room` more packets before a write to it fails. */
  class Channel {
    var isOpen: bool
    var room: nat
    var sent: seq<Bytes>

    constructor (room: nat)
      ensures isOpen && this.room == room && sent == []
    {
      isOpen, this.room, sent := true, room, [];
    }

    /** Every packet takes 1024 bytes from the buffer pointer, also past the end of the message. A
        failure leaves the packets before it sent and closes the channel. */
    method Write(memory: Bytes, length: nat) returns (ok: bool)
      requires PacketCount(length) * PACKET_SIZE <= |memory|
      modifies this
      ensures ok == (old(isOpen) && PacketCount(length) <= old(room))
      ensures isOpen == (old(isOpen) && ok)
      ensures var fit := if PacketCount(length) <= old(room) then PacketCount(length) else old(room);
              sent == old(sent) + if old(isOpen) then Packets(memory, length)[..fit] else []
    {
      if !isOpen {
        return false;
      }
      var bytesToWrite, pointer := length, 0;
      ghost var count := 0;
      while bytesToWrite > 0
        invariant pointer + PacketCount(bytesToWrite) * PACKET_SIZE <= |memory| && isOpen
        invariant count + PacketCount(bytesToWrite) == PacketCount(length) && count + room == old(room)
        invariant sent == old(sent) + Packets(memory, length)[..count]
        invariant Packets(memory, length)[count..] == Packets(memory[pointer..], bytesToWrite)
        decreases bytesToWrite
      {
        if room == 0 {
          isOpen := false;
          return false;
        }
        ghost var here := memory[pointer..];
        var packet := memory[pointer..pointer + 1024];
        assert here[..1024] == packet && here[1024..] == memory[pointer + 1024..];
        assert Packets(memory, length)[count..][0] == packet;
        assert Packets(memory, length)[count..][1..] == Packets(memory, length)[count + 1..];
        sent, room, count := sent + [packet], room - 1, count + 1;
        pointer := pointer + 1024;
        bytesToWrite := if bytesToWrite < 1024 then 0 else bytesToWrite - 1024;
      }
      ok := true;
    }
  }

  lemma {:induction false} PacketsFlatten(memory: Bytes, length: nat)
    requires PacketCount(length) * PACKET_SIZE <= |memory|
    ensures Flatten(Packets(memory, length)) == memory[..PacketCount(length) * PACKET_SIZE]
    ensures forall p :: p in Packets(memory, length) ==> |p| == PACKET_SIZE
    decreases length
  {
    if length > 0 {
      var left := if length < 1024 then 0 else length - 1024;
      PacketsFlatten(memory[1024..], left);
      var n := PacketCount(left) * PACKET_SIZE;
      assert PacketCount(length) == PacketCount(left) + 1;
      assert memory[..1024] + memory[1024..][..n] == memory[..1024 + n];
    }
  }

  // ----- the server's side: Server.write -----

  function ServerPackets(data: Bytes): (packets: seq<Bytes>)
    decreases |data|
  {
    if data == [] then []
    else if |data| <= PACKET_SIZE then [data + seq(PACKET_SIZE - |data|, _ => 0)]
    else [data[..PACKET_SIZE]] + ServerPackets(data[PACKET_SIZE..])
  }

  method ServerWrite(data: Bytes) returns (packets: seq<Bytes>)
    ensures packets == ServerPackets(data)
  {
    var size, sent := |data|, 0;
    packets := [];
    assert data[0..] == data;
    while sent < size
      invariant sent <= size ==> packets + ServerPackets(data[sent..]) == ServerPackets(data)
      invariant sent > size ==> packets == ServerPackets(data)
    {
      var leftOver := if size - sent > PACKET_SIZE then PACKET_SIZE else size - sent;
      var packet := data[sent..sent + leftOver];
      packet := packet + seq(PACKET_SIZE - |packet|, _ => 0);
      ghost var rest := data[sent..];
      NextServerPacket(rest);
      assert rest[..leftOver] == data[sent..sent + leftOver];
      ghost var more := if |rest| > PACKET_SIZE then ServerPackets(rest[PACKET_SIZE..]) else [];
      assert ServerPackets(rest) == [packet] + more;
      assert packets + ([packet] + more) == (packets + [packet]) + more;
      assert |rest| > PACKET_SIZE ==> rest[PACKET_SIZE..] == data[sent + PACKET_SIZE..];
      packets := packets + [packet];
      sent := sent + |packet|;
      assert sent == size ==> data[sent..] == [];
      assert packets + [] == packets;
    }
    assert sent == size ==> data[sent..] == [];
  }

  lemma NextServerPacket(rest: Bytes)
    requires rest != []
    ensures var left := if |rest| > PACKET_SIZE then PACKET_SIZE else |rest|;
      && ServerPackets(rest) == [rest[..left] + seq(PACKET_SIZE - left, _ => 0)]
                                + if |rest| > PACKET_SIZE then ServerPackets(rest[PACKET_SIZE..]) else []
  {
    assert |rest| > PACKET_SIZE ==> rest[..PACKET_SIZE] + seq(0, _ => 0) == rest[..PACKET_SIZE];
    assert |rest| <= PACKET_SIZE ==> rest[..|rest|] == rest;
  }

  /** Responses go out in 1024-byte packets, the last one filled with zeros. */
  lemma {:induction false} ServerPacketsFlatten(data: Bytes)
    ensures |ServerPackets(data)| == PacketCount(|data|)
    ensures forall p :: p in ServerPackets(data) ==> |p| == PACKET_SIZE
    ensures Flatten(ServerPackets(data)) == data + seq(PacketCount(|data|) * PACKET_SIZE - |data|, _ => 0)
    decreases |data|
  {
    if |data| > PACKET_SIZE {
      ServerPacketsFlatten(data[PACKET_SIZE..]);
      assert data == data[..PACKET_SIZE] + data[PACKET_SIZE..];
    } else if data != [] {
      var packet := data + seq(PACKET_SIZE - |data|, _ => 0);
      assert Flatten([packet]) == packet + Flatten([]);
    }
  }

  // ----- RequestToSendFile.unpack -----

  /** What the unpack of a file message comes to: `Spins` is the loop that keeps receiving
      nothing from a closed connection. */
  datatype FileUnpack = Unpacked(request: Request) | Rejected | Spins

  /** The receive loop: `need` bytes gathered from the queue, the rest of the last chunk dropped. */
  function Collect(chunks: seq<Bytes>, max: nat, need: nat): Option<(Bytes, seq<Bytes>)>
    decreases need
  {
    if need == 0 then Some(([], chunks))
    else
      var (data, rest) := RecvFrom(chunks, max);
      if data == [] then None
      else if need < |data| then Some((data[..need], rest))
      else Prepend(data, Collect(rest, max, need - |data|))
  }

  function Prepend(data: Bytes, r: Option<(Bytes, seq<Bytes>)>): Option<(Bytes, seq<Bytes>)> {
    match r
    case None => None
    case Some((more, rest)) => Some((data + more, rest))
  }

  lemma PrependTwice(a: Bytes, b: Bytes, r: Option<(Bytes, seq<Bytes>)>)
    ensures Prepend(a, Prepend(b, r)) == Prepend(a + b, r)
    ensures Prepend([], r) == r
    ensures Prepend(a, None) == None
  {
    match r {
      case None =>
      case Some((more, rest)) =>
        assert a + (b + more) == (a + b) + more;
        assert [] + more == more;
    }
  }

  /** One turn of the loop. */
  lemma CollectStep(chunks: seq<Bytes>, max: nat, need: nat)
    requires need > 0
    ensures var (data, rest) := RecvFrom(chunks, max);
            var take := if need < |data| then need else |data|;
            if data == [] then Collect(chunks, max, need) == None
            else Collect(chunks, max, need) == Prepend(data[..take], Collect(rest, max, need - take))
  {
    var (data, rest) := RecvFrom(chunks, max);
    if data != [] && need < |data| {
      assert data[..need] + [] == data[..need];
    } else {
      assert data[..|data|] == data;
    }
  }

  lemma CollectDone(data: Bytes, chunks: seq<Bytes>, max: nat)
    ensures Prepend(data, Collect(chunks, max, 0)) == Some((data, chunks))
  {
    assert data + [] == data;
  }

  const BODY_OFFSET := 282

  /** Header checks of the unpack, up to the number of body bytes it takes from the first packet. */
  function BodyInFirstPacket(data: Bytes): Option<(Header, nat)> {
    var h := UnpackHeader(data);
    if h.None? || |data| < BODY_OFFSET || h.value.payloadSize < NAME_SIZE + 4 then None
    else
      var size := h.value.payloadSize - NAME_SIZE - 4;
      var first := if size > PACKET_SIZE then PACKET_SIZE - BODY_OFFSET else size;
      if |data| < BODY_OFFSET + first then None else Some((h.value, first))
  }

  function UnpackFile(data: Bytes, chunks: seq<Bytes>): (r: (FileUnpack, seq<Bytes>))
    ensures r.0.Unpacked? ==> r.0.request.SendFile?
  {
    match BodyInFirstPacket(data)
    case None => (Rejected, chunks)
    case Some((h, first)) =>
      match Collect(chunks, |data|, h.payloadSize - 259 - first)
      case None => (Spins, [])
      case Some((more, rest)) =>
        (Unpacked(SendFile(h.clientId, FromLe(data[23..27]), BeforeNul(data[27..282]),
                             data[282..282 + first] + more)), rest)
  }

  method UnpackSendFile(conn: Connection, data: Bytes) returns (result: FileUnpack)
    modifies conn
    ensures result == UnpackFile(data, old(conn.incoming)).0
    ensures !result.Spins? ==> conn.incoming == UnpackFile(data, old(conn.incoming)).1
  {
    hide UnpackHeader, FromLe, BeforeNul, Collect, Prepend;
    var header := UnpackHeader(data);
    if header.None? || |data| < 282 {
      return Rejected;
    }
    var contentSize := FromLe(data[23..27]);
    var fileName := BeforeNul(data[27..282]);
    var encryptedContentSize: int := header.value.payloadSize - NAME_SIZE - 4;
    var bytesRead := encryptedContentSize;
    if bytesRead > PACKET_SIZE {
      bytesRead := PACKET_SIZE - 282;
    }
    if bytesRead < 0 || |data| < 282 + bytesRead {
      return Rejected;
    }
    ghost var first: nat := bytesRead;
    var fileContent := data[282..282 + bytesRead];
    PrependTwice([], [], Collect(conn.incoming, |data|, encryptedContentSize - bytesRead));
    assert fileContent[first..] == [];
    while bytesRead < encryptedContentSize
      invariant first <= bytesRead <= encryptedContentSize
      invariant |fileContent| == bytesRead && fileContent[..first] == data[282..282 + first]
      invariant Collect(old(conn.incoming), |data|, encryptedContentSize - first)
             == Prepend(fileContent[first..], Collect(conn.incoming, |data|, encryptedContentSize - bytesRead))
    {
      ghost var before, need := conn.incoming, encryptedContentSize - bytesRead;
      CollectStep(before, |data|, need);
      var chunk := conn.Recv(|data|);
      var dataSize := |chunk|;
      if encryptedContentSize - bytesRead < dataSize {
        dataSize := encryptedContentSize - bytesRead;
      }
      if dataSize == 0 {
        PrependTwice(fileContent[first..], [], None);
        return Spins;
      }
      ghost var was := fileContent[first..];
      fileContent := fileContent + chunk[..dataSize];
      bytesRead := bytesRead + dataSize;
      assert fileContent[first..] == was + chunk[..dataSize];
      PrependTwice(was, chunk[..dataSize], Collect(conn.incoming, |data|, encryptedContentSize - bytesRead));
    }
    assert fileContent == data[282..282 + first] + fileContent[first..];
    CollectDone(fileContent[first..], conn.incoming, |data|);
    result := Unpacked(SendFile(header.value.clientId, contentSize, fileName, fileContent));
  }

  // ----- the loop, for any way the bytes arrive -----

  predicate Arriving(chunks: seq<Bytes>) {
    forall c :: c in chunks ==> c != []
  }

  /** One receive from a stream that still has bytes: at most `max` of its first ones. */
  lemma ReceivesFirst(chunks: seq<Bytes>, max: nat)
    requires Arriving(chunks) && chunks != [] && max > 0
    ensures var (data, rest) := RecvFrom(chunks, max);
      0 < |data| <= max && Flatten(chunks) == data + Flatten(rest) && Arriving(rest)
  {
    var (data, rest) := RecvFrom(chunks, max);
    assert chunks[0] in chunks;
    if |chunks[0]| > max {
      assert rest[1..] == chunks[1..] && rest[0] == chunks[0][max..];
      assert chunks[0] == chunks[0][..max] + chunks[0][max..];
      assert Flatten(rest) == chunks[0][max..] + Flatten(chunks[1..]);
      forall c | c in rest ensures c != [] {
        assert rest == [rest[0]] + chunks[1..];
        assert c == rest[0] || c in chunks;
      }
    } else {
      assert forall c :: c in rest ==> c in chunks;
    }
  }

  /** However the stream was split into non-empty chunks, the loop gathers exactly its first
      `need` bytes, or spins when there are fewer. What is left is an end of the stream, short by
      less than one receive. */
  lemma {:induction false} CollectAnySplit(chunks: seq<Bytes>, max: nat, need: nat)
    requires Arriving(chunks) && max > 0
    ensures Collect(chunks, max, need).Some? <==> need <= |Flatten(chunks)|
    ensures need <= |Flatten(chunks)| ==>
      var (gathered, rest) := Collect(chunks, max, need).value;
      var left := |Flatten(rest)|;
      && gathered == Flatten(chunks)[..need]
      && left + need <= |Flatten(chunks)| < left + need + max
      && Flatten(rest) == Flatten(chunks)[|Flatten(chunks)| - left..]
    decreases need
  {
    if need > 0 && chunks != [] {
      var (data, rest) := RecvFrom(chunks, max);
      ReceivesFirst(chunks, max);
      if need >= |data| {
        CollectAnySplit(rest, max, need - |data|);
        if need <= |Flatten(chunks)| {
          assert Flatten(chunks)[..need] == data + Flatten(rest)[..need - |data|];
        }
      } else {
        assert Flatten(chunks)[..need] == data[..need];
      }
    }
  }

  lemma {:induction false} PacketsLength(packets: seq<Bytes>)
    requires forall p :: p in packets ==> |p| == PACKET_SIZE
    ensures |Flatten(packets)| == |packets| * PACKET_SIZE
  {
    if packets != [] {
      assert packets[0] in packets && forall p :: p in packets[1..] ==> p in packets;
      PacketsLength(packets[1..]);
    }
  }

  /** On whole packets the loop stops at a packet boundary. */
  lemma {:induction false} CollectPackets(packets: seq<Bytes>, later: seq<Bytes>, need: nat)
    requires forall p :: p in packets ==> |p| == PACKET_SIZE
    requires |packets| == PacketCount(need)
    ensures need <= |Flatten(packets)|
    ensures Collect(packets + later, PACKET_SIZE, need) == Some((Flatten(packets)[..need], later))
    decreases |packets|
  {
    PacketsLength(packets);
    if packets == [] {
      assert packets + later == later;
    } else {
      var first, tail := packets[0], packets[1..];
      assert first in packets && forall p :: p in tail ==> p in packets;
      assert (packets + later)[1..] == tail + later;
      if need >= PACKET_SIZE {
        CollectPackets(tail, later, need - PACKET_SIZE);
        TakeAcross(first, Flatten(tail), need);
      } else {
        assert tail == [] && tail + later == later;
        assert Flatten(packets)[..need] == first[..need];
      }
    }
  }

  lemma TakeAcross(a: Bytes, b: Bytes, n: nat)
    requires |a| <= n <= |a| + |b|
    ensures (a + b)[..n] == a + b[..n - |a|]
  {}

  // ----- a file message from end to end -----

  /** The sizes of encrypted body that survive the unpack. */
  predicate InFramingDomain(size: nat) {
    size <= 742 || 1024 < size
  }

  lemma {:induction false} PacketsTail(memory: Bytes, length: nat)
    requires 0 < length && PacketCount(length) * PACKET_SIZE <= |memory|
    ensures var left := if length < 1024 then 0 else length - 1024;
            && PacketCount(left) == PacketCount(length) - 1
            && Packets(memory, length)[0] == memory[..1024]
            && Packets(memory, length)[1..] == Packets(memory[1024..], left)
  {}

  lemma FileMessageFields(r: Request, memory: Bytes, n: nat)
    requires r.SendFile? && Fitting(r)
    requires PackRequest(r) <= memory && BODY_OFFSET <= n <= |memory|
    ensures UnpackHeader(memory[..n]) == Some(Header(r.headerId, CLIENT_VERSION, 1102, 259 + |r.content|))
    ensures FromLe(memory[23..27]) == r.contentSize && BeforeNul(memory[27..282]) == r.fileName
    ensures memory[282..282 + |r.content|] == r.content
  {
    hide Le, FromLe, UnpackHeader, RequestHeader;
    var h := RequestHeader(r.headerId, 1102, |Payload(r)|);
    var size, f := Le(r.contentSize, 4), Fixed(r.fileName, NAME_SIZE);
    var packed := h + (size + (f + r.content));
    assert packed == PackRequest(r);
    assert memory[..|packed|] == packed;
    assert packed[..23] == h && packed[23..27] == size && packed[27..282] == f && packed[282..] == r.content;
    assert memory[23..27] == size && memory[27..282] == f && memory[282..282 + |r.content|] == r.content;
    assert memory[..n] == h + memory[23..n];
    HeaderRoundTrip(r.headerId, 1102, |Payload(r)|, memory[23..n]);
    Widths();
    FromLeOfLe(r.contentSize, 4);
    FixedRoundTrip(r.fileName, NAME_SIZE);
  }

  function FirstPart(size: nat): nat { if size > PACKET_SIZE then 742 else size }

  lemma FirstPacketOfFile(r: Request, memory: Bytes)
    requires r.SendFile? && Fitting(r)
    requires PackRequest(r) <= memory && 1024 <= |memory|
    ensures BodyInFirstPacket(memory[..1024])
         == if InFramingDomain(|r.content|)
            then Some((Header(r.headerId, CLIENT_VERSION, 1102, 259 + |r.content|), FirstPart(|r.content|)))
            else None
  {
    hide PackRequest, UnpackHeader, FromLe, BeforeNul;
    FileMessageFields(r, memory, 1024);
  }

  lemma RestOfFile(r: Request, memory: Bytes, later: seq<Bytes>)
    requires r.SendFile? && PackRequest(r) <= memory && InFramingDomain(|r.content|)
    requires PacketCount(|PackRequest(r)|) * PACKET_SIZE <= |memory| && 1024 <= |memory| && 282 + |r.content| <= |memory|
    requires |PackRequest(r)| == 282 + |r.content|
    ensures var first, tail := FirstPart(|r.content|), Packets(memory, |PackRequest(r)|)[1..];
            && |r.content| - first <= |Flatten(tail)|
            && Collect(tail + later, PACKET_SIZE, |r.content| - first)
               == Some((Flatten(tail)[..|r.content| - first], later))
            && memory[..1024][282..282 + first] + Flatten(tail)[..|r.content| - first] == memory[282..282 + |r.content|]
  {
    hide PackRequest, Collect, Packets;
    var length, size := |PackRequest(r)|, |r.content|;
    var first := FirstPart(size);
    var left := if length < 1024 then 0 else length - 1024;
    PacketsTail(memory, length);
    var tail := Packets(memory, length)[1..];
    PacketsFlatten(memory[1024..], left);
    assert PacketCount(size - first) == PacketCount(left);
    CollectPackets(tail, later, size - first);
    BodyAcross(memory, tail, size, first, size - first);
  }

  /** The packets of a file message, whatever bytes follow it in the client's memory: inside the
      domain the server gets back the request and stands at the next message boundary, outside
      it the first packet is rejected. */
  lemma FileMessageDelivered(r: Request, memory: Bytes, later: seq<Bytes>)
    requires r.SendFile? && Fitting(r)
    requires PackRequest(r) <= memory && PacketCount(|PackRequest(r)|) * PACKET_SIZE <= |memory|
    ensures var packets := Packets(memory, |PackRequest(r)|);
            && packets != []
            && UnpackFile(packets[0], packets[1..] + later)
               == if |r.content| <= 742 || 1024 < |r.content| then (Unpacked(r), later)
                  else (Rejected, packets[1..] + later)
  {
    hide PackRequest, FromLe, BeforeNul, UnpackHeader, Collect, Packets, BodyInFirstPacket, Flatten, UnpackFile;
    BodyFollowsFields(r);
    PacketsTail(memory, |PackRequest(r)|);
    FirstPacketOfFile(r, memory);
    FileMessageFields(r, memory, 1024);
    var data, tail := memory[..1024], Packets(memory, |PackRequest(r)|)[1..];
    assert data[23..27] == memory[23..27] && data[27..282] == memory[27..282];
    if InFramingDomain(|r.content|) {
      RestOfFile(r, memory, later);
      var first := FirstPart(|r.content|);
      UnpackedParts(data, tail + later, Header(r.headerId, CLIENT_VERSION, 1102, 259 + |r.content|), first,
                    Flatten(tail)[..|r.content| - first], later);
    } else {
      RejectedParts(data, tail + later);
    }
  }

  /** Any first packet is rejected unless it holds the fields and the part of the body that the unpack
      takes from it: all of a body of at most 1024 bytes, else 742. */
  lemma RejectedExactly(data: Bytes, chunks: seq<Bytes>)
    ensures UnpackFile(data, chunks).0.Rejected? <==>
      |data| < 282
      || var size: int := FromLe(data[19..23]) - 259;
         size < 0 || |data| < 282 + if size > 1024 then 742 else size
  {
    hide FromLe, BeforeNul, Collect;
  }

  lemma UnpackedParts(data: Bytes, chunks: seq<Bytes>, h: Header, first: nat, more: Bytes, rest: seq<Bytes>)
    requires BodyInFirstPacket(data) == Some((h, first))
      && Collect(chunks, |data|, h.payloadSize - 259 - first) == Some((more, rest))
    ensures UnpackFile(data, chunks)
         == (Unpacked(SendFile(h.clientId, FromLe(data[23..27]), BeforeNul(data[27..282]),
                             data[282..282 + first] + more)), rest)
  {}

  lemma RejectedParts(data: Bytes, chunks: seq<Bytes>)
    requires BodyInFirstPacket(data) == None
    ensures UnpackFile(data, chunks) == (Rejected, chunks)
  {}

  lemma BodyFollowsFields(r: Request)
    requires r.SendFile?
    ensures |PackRequest(r)| == 282 + |r.content|
  {}

  lemma BodyAcross(memory: Bytes, packets: seq<Bytes>, size: nat, first: nat, need: nat)
    requires first <= 742 && size == first + need && (need > 0 ==> first == 742)
    requires 1024 <= |memory| && 282 + size <= |memory|
    requires Flatten(packets) <= memory[1024..] && need <= |Flatten(packets)|
    ensures memory[..1024][282..282 + first] + Flatten(packets)[..need] == memory[282..282 + size]
  {
    assert Flatten(packets)[..need] == memory[1024..][..need] == memory[1024..1024 + need];
    assert memory[..1024][282..282 + first] == memory[282..282 + first];
    if need == 0 {
      assert Flatten(packets)[..need] == [];
    } else {
      assert memory[282..1024] + memory[1024..1024 + need] == memory[282..1024 + need];
    }
  }

  /** A client that closes after some but not all packets of a file message leaves the server
      receiving nothing for ever. */
  lemma FileMessageCut(r: Request, memory: Bytes, q: nat)
    requires r.SendFile? && Fitting(r) && InFramingDomain(|r.content|)
    requires PackRequest(r) <= memory && PacketCount(|PackRequest(r)|) * PACKET_SIZE <= |memory|
    requires 1 <= q < PacketCount(|PackRequest(r)|)
    ensures var packets := Packets(memory, |PackRequest(r)|);
      UnpackFile(packets[0], packets[1..q]).0 == Spins
  {
    hide PackRequest, FromLe, BeforeNul, UnpackHeader, Packets, BodyInFirstPacket, UnpackFile, Collect;
    BodyFollowsFields(r);
    var length := |PackRequest(r)|;
    PacketsTail(memory, length);
    FirstPacketOfFile(r, memory);
    var packets := Packets(memory, length);
    PacketsFlatten(memory, length);
    var some := packets[1..q];
    forall c | c in some ensures |c| == PACKET_SIZE {
      assert c in packets;
    }
    PacketsLength(some);
    CollectAnySplit(some, PACKET_SIZE, |r.content| - FirstPart(|r.content|));
    CutParts(packets[0], some, Header(r.headerId, CLIENT_VERSION, 1102, 259 + |r.content|), FirstPart(|r.content|));
  }

  lemma CutParts(data: Bytes, chunks: seq<Bytes>, h: Header, first: nat)
    requires BodyInFirstPacket(data) == Some((h, first)) && |data| == PACKET_SIZE
    requires h.payloadSize >= 259 + first && Collect(chunks, PACKET_SIZE, h.payloadSize - 259 - first) == None
    ensures UnpackFile(data, chunks).0 == Spins
  {}
}
