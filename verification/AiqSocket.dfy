/** The packets of rkaiq/rkaiq_api/rkaiq_socket.cpp: how they are built, received in pieces and
    taken apart. The 32-bit fields stand for their bit patterns. */
module AiqSocket {
  import opened Basics
  import opened Bytes
  import opened Murmur
  import opened Socket

  const HEADER_SIZE: nat := 6
  const OVERHEAD: nat := 22
  const MAGIC: seq<Byte> := [82, 75]
  /** commandResult of every request: -1 */
  const NO_RESULT: U32 := 0xFFFF_FFFF

  datatype Message = Message(commandID: U32, commandResult: U32, data: seq<Byte>)

  /** The layout on the wire, without alignment gaps; of a size the four low bytes are sent. */
  function Assemble(size: nat, id: U32, result: U32, dataSize: nat, data: seq<Byte>, hash: U32): seq<Byte> {
    MAGIC + Le(size, 4) + Le(id, 4) + Le(result, 4) + Le(dataSize, 4) + data + Le(hash, 4)
  }

  function Encode(m: Message): (s: seq<Byte>)
    ensures |s| == OVERHEAD + |m.data|
  {
    Assemble(OVERHEAD + |m.data|, m.commandID, m.commandResult, |m.data|, m.data, DataHash(m.data))
  }

  datatype Build = Built(dataToSend: array<Byte>) | Outside

  /** One copy to the running offset, which is an `int`: a negative one is before the buffer. */
  method CopyField(buf: array<Byte>, offset: int, bytes: seq<Byte>) returns (ok: bool, next: int)
    requires -0x8000_0000 <= offset < 0x8000_0000 && |bytes| < TWO_TO_THE_32
    modifies buf
    ensures ok <==> 0 <= offset && offset + |bytes| <= buf.Length
    ensures ok ==> next == Int32(offset + |bytes|) && buf[..offset + |bytes|] == old(buf[..offset]) + bytes
    ensures -0x8000_0000 <= next < 0x8000_0000
  {
    ok, next := 0 <= offset && offset + |bytes| <= buf.Length, 0;
    if ok {
      Copy(buf, offset, bytes);
      next := Int32(offset + |bytes|);
    }
  }

  function Front(size: nat, id: U32, result: U32, dataSize: nat): (f: seq<Byte>)
    ensures |f| == 18
  {
    MAGIC + Le(size, 4) + Le(id, 4) + Le(result, 4) + Le(dataSize, 4)
  }

  method CopyFront(dataToSend: array<Byte>, size: U32, id: U32, result: U32, dataSize: U32) returns (ok: bool, offset: int)
    modifies dataToSend
    ensures ok <==> dataToSend.Length >= 18
    ensures ok ==> offset == 18 && dataToSend[..18] == Front(size, id, result, dataSize)
  {
    hide Int32;
    ok, offset := CopyField(dataToSend, 0, MAGIC);
    if !ok { return; }
    ok, offset := CopyField(dataToSend, offset, Le(size, 4));
    if !ok { return; }
    ok, offset := CopyField(dataToSend, offset, Le(id, 4));
    if !ok { return; }
    ok, offset := CopyField(dataToSend, offset, Le(result, 4));
    if !ok { return; }
    ok, offset := CopyField(dataToSend, offset, Le(dataSize, 4));
  }

  /** The copies of RkAiqSocketClientINETSend, field by field, into a buffer of packetSize bytes. */
  method CopyFields(dataToSend: array<Byte>, id: U32, result: U32, dataSize: U32, data: seq<Byte>, hash: U32) returns (ok: bool)
    requires |data| == dataSize && dataToSend.Length == (OVERHEAD + dataSize) % TWO_TO_THE_32
    modifies dataToSend
    ensures ok <==> OffsetsFit(dataSize)
    ensures ok ==> dataToSend[..] == Assemble(OVERHEAD + dataSize, id, result, dataSize, data, hash)
  {
    var size := (OVERHEAD + dataSize) % TWO_TO_THE_32;
    OffsetsFitExactly(dataSize);
    hide Int32, OffsetsFit, Le;
    var offset;
    ok, offset := CopyFront(dataToSend, size, id, result, dataSize);
    if !ok { return; }
    ok, offset := CopyField(dataToSend, offset, data);
    if !ok { return; }
    ok, offset := CopyField(dataToSend, offset, Le(hash, 4));
    if ok {
      assert dataToSend[..OVERHEAD + dataSize] == Front(size, id, result, dataSize) + data + Le(hash, 4);
      assert dataToSend[..] == dataToSend[..OVERHEAD + dataSize];
    }
  }

  /** Data and hash are written inside the packet exactly when the offset behind the data fits. */
  lemma OffsetsFitExactly(dataSize: U32)
    ensures var size := (OVERHEAD + dataSize) % TWO_TO_THE_32; var behind := Int32(18 + dataSize);
      && (18 + dataSize <= size && 0 <= behind && behind + 4 <= size <==> OffsetsFit(dataSize))
      && (OffsetsFit(dataSize) ==> size == OVERHEAD + dataSize && behind == 18 + dataSize)
  {
  }

  /** The data end where an `int` can point. */
  predicate OffsetsFit(dataSize: nat) {
    18 + dataSize < 0x8000_0000
  }

  /** Built exactly while the offsets fit; otherwise a field is written outside the packet. */
  method BuildPacket(commandID: U32, data: seq<Byte>) returns (b: Build)
    requires |data| < TWO_TO_THE_32
    ensures b.Built? <==> OffsetsFit(|data|)
    ensures b.Built? ==> fresh(b.dataToSend) && b.dataToSend[..] == Encode(Message(commandID, NO_RESULT, data))
  {
    var hash := MurMurHash(data, Int32(|data|));
    var dataToSend := new Byte[(OVERHEAD + |data|) % TWO_TO_THE_32](i => 0);
    var ok := CopyFields(dataToSend, commandID, NO_RESULT, |data|, data, hash);
    return if ok then Built(dataToSend) else Outside;
  }

  // ---------------------------------------------------------------- receiving

  /** Overrun: a field or a receive lies outside the packet. A wrong hash is logged only, so it is part
      of the reply and not a failure. */
  datatype Reply = BadMagic | BadSize | Timeout | Overrun | WrongDataSize | Received(message: Message, hashMatches: bool)

  /** Takes a complete packet apart, after its magic was tested. */
  function Parse(packet: seq<Byte>, dataSize: nat): Reply {
    if |packet| < OVERHEAD then Overrun
    else
      var n := Field(packet, 14, 4);
      if |packet| < OVERHEAD + n || !OffsetsFit(n) then Overrun
      else if n != dataSize then WrongDataSize
      else
        Pow256Values();
        var data := packet[18..18 + n];
        var m := Message(Field(packet, 6, 4), Field(packet, 10, 4), data);
        Received(m, Field(packet, 18 + n, 4) == DataHash(data))
  }

  function Zeros(n: nat): seq<Byte> {
    seq(n, i => 0)
  }

  /** The header is one receive into six zeroed bytes; `first` is what that receive delivered. */
  function HeaderOf(stream: seq<Byte>, first: nat): (h: seq<Byte>)
    requires first <= HEADER_SIZE && first <= |stream|
    ensures |h| == HEADER_SIZE
  {
    stream[..first] + Zeros(HEADER_SIZE - first)
  }

  /** The bytes that the receives bring which begin at 2^31 or later go to a negative offset: whether
      there are any depends on the cuts. */
  predicate BeginsLate(cuts: seq<nat>, waiting: nat, offset: nat, remain: nat)
    decreases remain
  {
    var n := Delivered(cuts, waiting, Min(remain, MAX_PACKET_SIZE));
    n > 0 && (offset >= 0x8000_0000 || BeginsLate(LaterCuts(cuts), waiting - n, offset + n, remain - n))
  }

  /** The body, whose size counter is an `int`: from 2^31 on nothing is received. */
  function Body(stream: seq<Byte>, rest: nat): (b: seq<Byte>)
    requires Int32(rest) > 0 ==> rest <= |stream|
    ensures |b| == rest
  {
    if Int32(rest) > 0 then stream[..rest] else Zeros(rest)
  }

  function Packet(stream: seq<Byte>, first: nat, packetSize: nat): (p: seq<Byte>)
    requires first <= HEADER_SIZE <= packetSize && first <= |stream|
    requires Int32(packetSize - HEADER_SIZE) > 0 ==> first + packetSize - HEADER_SIZE <= |stream|
    ensures |p| == packetSize
  {
    HeaderOf(stream, first) + Body(stream[first..], packetSize - HEADER_SIZE)
  }

  /** What comes of a receive when the clock leaves time for the whole packet; `cuts` are those of the
      receives behind the header. */
  function Outcome(stream: seq<Byte>, first: nat, cuts: seq<nat>, dataSize: U32): Reply
    requires first <= HEADER_SIZE && first <= |stream|
  {
    var header := HeaderOf(stream, first);
    var packetSize := Field(header, 2, 4);
    var rest := packetSize - HEADER_SIZE;
    if header[..2] != MAGIC then BadMagic
    else if packetSize == 0 || (packetSize - dataSize) % TWO_TO_THE_32 > 200 then BadSize
    else if rest < 0 then Overrun
    else if Int32(rest) > 0 && BeginsLate(cuts, |stream| - first, HEADER_SIZE, rest) then Overrun
    else if Int32(rest) > 0 && |stream| < first + rest then Timeout
    else Parse(Packet(stream, first, packetSize), dataSize)
  }

  /** A packet size passes exactly when it is not zero and at most 200 bytes above the data size that is
      expected, where the difference is taken modulo 2^32. */
  lemma SizeIsChecked(stream: seq<Byte>, first: nat, cuts: seq<nat>, dataSize: U32)
    requires first <= HEADER_SIZE && first <= |stream| && HeaderOf(stream, first)[..2] == [82, 75]
    ensures var size := Field(HeaderOf(stream, first), 2, 4);
      Outcome(stream, first, cuts, dataSize) == BadSize <==>
        size == 0 || !(dataSize <= size <= dataSize + 200 || size + 0x1_0000_0000 <= dataSize + 200)
  {
    var header := HeaderOf(stream, first);
    var size := Field(header, 2, 4);
    Pow256Values();
    assert size < TWO_TO_THE_32;
    hide HeaderOf, Field, Parse, BeginsLate, Packet;
    if size < dataSize {
      assert (size - dataSize) % TWO_TO_THE_32 == size - dataSize + TWO_TO_THE_32;
    }
  }

  datatype Filling = Filled | TimedOut | Overran

  /** One receive, seen from those that are still to come. */
  lemma LateStep(cuts: seq<nat>, waiting: nat, offset: nat, remain: nat)
    ensures var n := Delivered(cuts, waiting, Min(remain, MAX_PACKET_SIZE));
      && n <= waiting && n <= remain && n <= 8192 && (waiting > 0 && remain > 0 ==> n > 0)
      && (BeginsLate(cuts, waiting, offset, remain) <==>
            (n > 0 && offset >= 0x8000_0000) || BeginsLate(LaterCuts(cuts), waiting - n, offset + n, remain - n))
  {
  }

  lemma NothingLate(cuts: seq<nat>, waiting: nat, offset: nat, remain: nat)
    requires waiting == 0 || remain == 0
    ensures !BeginsLate(cuts, waiting, offset, remain)
  {
  }

  /** One round of the receive loop: a receive to an `int` offset. */
  method ReceiveRound(c: Connection, packet: array<Byte>, remainSize: nat) returns (ok: bool, n: nat)
    requires remainSize <= packet.Length < TWO_TO_THE_32
    modifies c, packet
    ensures var stream, at := old(c.incoming), packet.Length - remainSize;
      && n <= remainSize && n <= |stream| && (n == 0 ==> remainSize == 0 || stream == []) && c.incoming == stream[n..]
      && (n == 0 ==> packet[..] == old(packet[..]))
      && (ok && n > 0 ==> packet[..][..at + n] == old(packet[..])[..at] + stream[..n])
    ensures var waiting, at := |old(c.incoming)|, packet.Length - remainSize;
      var late := BeginsLate(old(c.cuts), waiting, at, remainSize);
      && (!ok ==> late)
      && (ok ==> late == BeginsLate(c.cuts, waiting - n, at + n, remainSize - n))
  {
    var at := packet.Length - remainSize;
    var offset := Int32(at);
    var targetSize := if remainSize > MAX_PACKET_SIZE then MAX_PACKET_SIZE else remainSize;
    IntOffset(at);
    SmallerOf(remainSize, MAX_PACKET_SIZE);
    LateStep(c.cuts, |c.incoming|, at, remainSize);
    hide BeginsLate, Delivered, LaterCuts, Int32, Min;
    var chunk := c.Receive(targetSize);
    n := |chunk|;
    ok := n == 0 || offset >= 0;
    if ok && n > 0 {
      Copy(packet, offset, chunk);
    }
  }

  /** The header and the first bytes of the stream are in the packet. */
  ghost predicate HasGot(packet: seq<Byte>, header: seq<Byte>, stream: seq<Byte>, got: nat) {
    && |header| == HEADER_SIZE && got <= |stream| && HEADER_SIZE + got <= |packet|
    && packet[..HEADER_SIZE + got] == header + stream[..got]
  }

  lemma GotMore(was: seq<Byte>, packet: seq<Byte>, header: seq<Byte>, stream: seq<Byte>, got: nat, n: nat)
    requires HasGot(was, header, stream, got) && got + n <= |stream| && HEADER_SIZE + got + n <= |packet|
    requires packet[..HEADER_SIZE + got + n] == was[..HEADER_SIZE + got] + stream[got..][..n]
    ensures HasGot(packet, header, stream, got + n)
  {
    assert stream[got..][..n] == stream[got..got + n];
    assert stream[..got] + stream[got..got + n] == stream[..got + n];
    assert header + stream[..got] + stream[got..got + n] == header + stream[..got + n];
  }

  lemma IntOffset(n: U32)
    ensures if n < 0x8000_0000 then Int32(n) == n else Int32(n) < 0
  {
  }

  lemma SmallerOf(a: nat, b: nat)
    ensures Min(a, b) == if a > b then b else a
  {
  }

  lemma GotAll(packet: seq<Byte>, header: seq<Byte>, stream: seq<Byte>, got: nat)
    requires HasGot(packet, header, stream, got) && |packet| == HEADER_SIZE + got
    ensures got <= |stream| && packet == header + stream[..got]
  {
    assert packet == packet[..HEADER_SIZE + got];
  }

  /** ... that fills up the packet. */
  method ReceiveMore(c: Connection, packet: array<Byte>, remainSize: nat, ghost header: seq<Byte>, ghost stream: seq<Byte>, ghost got: nat)
    returns (ok: bool, n: nat)
    requires 0 < remainSize == packet.Length - HEADER_SIZE - got && packet.Length < TWO_TO_THE_32
    requires got <= |stream| && c.incoming == stream[got..] && HasGot(packet[..], header, stream, got)
    modifies c, packet
    ensures n <= remainSize && got + n <= |stream| && (n == 0 ==> got == |stream|)
    ensures var late := BeginsLate(old(c.cuts), |stream| - got, HEADER_SIZE + got, remainSize);
      && (!ok ==> late)
      && (ok ==> late == BeginsLate(c.cuts, |stream| - (got + n), HEADER_SIZE + (got + n), remainSize - n))
    ensures ok ==> c.incoming == stream[got + n..] && HasGot(packet[..], header, stream, got + n)
  {
    hide BeginsLate, HasGot;
    ghost var was := packet[..];
    ok, n := ReceiveRound(c, packet, remainSize);
    assert stream[got..][n..] == stream[got + n..];
    if ok && n > 0 {
      GotMore(was, packet[..], header, stream, got, n);
    }
  }

  /** The receive loop. The clock is tested before every receive; `budget` is the number of receives it
      lets pass. */
  method ReceiveRest(c: Connection, packet: array<Byte>, budget: nat) returns (end: Filling)
    requires HEADER_SIZE <= packet.Length < TWO_TO_THE_32 && Int32(packet.Length - HEADER_SIZE) > 0
    modifies c, packet
    ensures var need := packet.Length - HEADER_SIZE; var stream := old(c.incoming);
      var late := BeginsLate(old(c.cuts), |stream|, HEADER_SIZE, need);
      && (end.Overran? ==> late)
      && (end.Filled? ==> !late && need <= |stream| && packet[..] == old(packet[..])[..HEADER_SIZE] + stream[..need])
      && (end.TimedOut? ==> budget < |stream| || (!late && |stream| < need))
  {
    hide Int32, BeginsLate;
    IntOffset(packet.Length - HEADER_SIZE);
    var remainSize := Int32(packet.Length - HEADER_SIZE);
    var clock := budget;
    ghost var stream, header, got := c.incoming, packet[..][..HEADER_SIZE], 0;
    ghost var late := BeginsLate(c.cuts, |stream|, HEADER_SIZE, remainSize);
    assert HasGot(packet[..], header, stream, 0);
    hide HasGot;
    while remainSize > 0
      invariant 0 <= got <= |stream| && c.incoming == stream[got..]
      invariant remainSize == packet.Length - HEADER_SIZE - got >= 0
      invariant HasGot(packet[..], header, stream, got)
      invariant BeginsLate(c.cuts, |stream| - got, HEADER_SIZE + got, remainSize) == late
      invariant clock >= 0 && (got < |stream| ==> budget - clock <= got)
      decreases clock
    {
      if clock == 0 {
        if got == |stream| {
          NothingLate(c.cuts, 0, HEADER_SIZE + got, remainSize);
        }
        return TimedOut;
      }
      var ok, n := ReceiveMore(c, packet, remainSize, header, stream, got);
      if !ok {
        return Overran;
      }
      remainSize, got, clock := remainSize - n, got + n, clock - 1;
    }
    NothingLate(c.cuts, |stream| - got, HEADER_SIZE + got, 0);
    GotAll(packet[..], header, stream, got);
    return Filled;
  }

  method ReceiveBody(c: Connection, header: seq<Byte>, packetSize: U32, budget: nat) returns (end: Filling, packet: seq<Byte>)
    requires |header| == HEADER_SIZE <= packetSize
    modifies c
    ensures var stream := old(c.incoming); var rest := packetSize - HEADER_SIZE;
      var late := Int32(rest) > 0 && BeginsLate(old(c.cuts), |stream|, HEADER_SIZE, rest);
      && (end.Overran? ==> late)
      && (end.Filled? ==> !late && (Int32(rest) > 0 ==> rest <= |stream|) && packet == header + Body(stream, rest))
      && (end.TimedOut? ==> Int32(rest) > 0 && (budget < |stream| || (!late && |stream| < rest)))
  {
    var receivedPacket := new Byte[packetSize](i => 0);
    Copy(receivedPacket, 0, header);
    assert receivedPacket[..HEADER_SIZE] == header;
    end := Filled;
    if Int32(packetSize - HEADER_SIZE) > 0 {
      end := ReceiveRest(c, receivedPacket, budget);
    }
    packet := receivedPacket[..];
  }

  /** The receiving half of RkAiqSocketClientINETReceive. */
  method ReceiveReply(c: Connection, dataSize: U32, budget: nat) returns (r: Reply)
    modifies c
    ensures var stream := old(c.incoming); var first := Delivered(old(c.cuts), |stream|, HEADER_SIZE);
      var outcome := Outcome(stream, first, LaterCuts(old(c.cuts)), dataSize);
      && (r == Timeout || r == outcome)
      && (budget >= |stream| ==> r == outcome)
  {
    hide Parse, BeginsLate, LaterCuts;
    ghost var stream, first := c.incoming, Delivered(c.cuts, |c.incoming|, HEADER_SIZE);
    var chunk := c.Receive(HEADER_SIZE);
    var tmpStr := chunk + Zeros(HEADER_SIZE - |chunk|);
    assert tmpStr == HeaderOf(stream, first);
    if tmpStr[..2] != MAGIC {
      var discarded := c.Receive(MAX_PACKET_SIZE);
      return BadMagic;
    }
    var packetSize := Field(tmpStr, 2, 4);
    if packetSize == 0 || (packetSize - dataSize) % TWO_TO_THE_32 > 200 {
      return BadSize;
    }
    if packetSize < HEADER_SIZE {
      return Overrun;
    }
    hide Field, Delivered;
    var end, packet := ReceiveBody(c, tmpStr, packetSize, budget);
    match end
    case Overran => return Overrun;
    case TimedOut => return Timeout;
    case Filled =>
      assert packet == Packet(stream, first, packetSize);
      r := Parse(packet, dataSize);
  }

  // ---------------------------------------------------------------- round trip

  /** The size field has 32 bits. */
  ghost predicate SizeFits(m: Message) {
    OVERHEAD + |m.data| < TWO_TO_THE_32
  }

  lemma {:induction false} FieldsOfEncode(m: Message)
    requires SizeFits(m)
    ensures var e := Encode(m); var n := |m.data|;
      && e[..2] == [82, 75] && Field(e, 2, 4) == |e| == 22 + n && Field(e, 6, 4) == m.commandID
      && Field(e, 10, 4) == m.commandResult && Field(e, 14, 4) == n
      && e[18..18 + n] == m.data && Field(e, 18 + n, 4) == DataHash(m.data)
  {
    FieldsOfAssemble(OVERHEAD + |m.data|, m.commandID, m.commandResult, |m.data|, m.data, DataHash(m.data));
  }

  lemma {:induction false} FieldsOfAssemble(size: U32, id: U32, result: U32, dataSize: U32, data: seq<Byte>, hash: U32)
    ensures var e := Assemble(size, id, result, dataSize, data, hash); var n := |data|;
      && e[..2] == MAGIC && Field(e, 2, 4) == size && Field(e, 6, 4) == id && Field(e, 10, 4) == result
      && Field(e, 14, 4) == dataSize && e[18..18 + n] == data && Field(e, 18 + n, 4) == hash
  {
    Pow256Values();
    Slices(MAGIC, Le(size, 4), Le(id, 4), Le(result, 4), Le(dataSize, 4), data, Le(hash, 4));
    FromLeOfLe(size, 4);
    FromLeOfLe(id, 4);
    FromLeOfLe(result, 4);
    FromLeOfLe(dataSize, 4);
    FromLeOfLe(hash, 4);
  }

  lemma Slices(magic: seq<Byte>, size: seq<Byte>, id: seq<Byte>, result: seq<Byte>, dataSize: seq<Byte>, data: seq<Byte>, hash: seq<Byte>)
    requires |magic| == 2 && |size| == |id| == |result| == |dataSize| == |hash| == 4
    ensures var e := magic + size + id + result + dataSize + data + hash; var n := |data|;
      && e[..2] == magic && e[2..6] == size && e[6..10] == id && e[10..14] == result && e[14..18] == dataSize
      && e[18..18 + n] == data && e[18 + n..18 + n + 4] == hash
  {
  }

  /** A packet whose hash field is not the hash of its data comes out with its data, and with the
      mismatch: the parser says whether field and data agree. */
  lemma {:induction false} HashIsCompared(id: U32, result: U32, data: seq<Byte>, hash: U32)
    requires OffsetsFit(|data|)
    ensures Parse(Assemble(OVERHEAD + |data|, id, result, |data|, data, hash), |data|) ==
      Received(Message(id, result, data), hash == DataHash(data))
  {
    FieldsOfAssemble(OVERHEAD + |data|, id, result, |data|, data, hash);
  }

  /** Data damaged inside one aligned word, or inside the tail, come out with a mismatch. */
  lemma {:induction false} DamageIsReported(m: Message, damaged: seq<Byte>)
    requires OffsetsFit(|m.data|) && OneWordApart(m.data, damaged)
    ensures |damaged| == |m.data|
    ensures Parse(Assemble(OVERHEAD + |damaged|, m.commandID, m.commandResult, |damaged|, damaged, DataHash(m.data)), |m.data|) ==
      Received(Message(m.commandID, m.commandResult, damaged), false)
  {
    HashIsCompared(m.commandID, m.commandResult, damaged, DataHash(m.data));
    HashDetectsWordError(m.data, damaged);
  }

  /** A packet is determined by what is parsed out of it. */
  lemma {:induction false} ParseDetermines(packet: seq<Byte>, m: Message)
    requires OffsetsFit(|m.data|) && |packet| >= 6
    requires packet[..2] == MAGIC && Field(packet, 2, 4) == |packet| == OVERHEAD + |m.data|
    requires Parse(packet, |m.data|) == Received(m, true)
    ensures packet == Encode(m)
  {
    var e, n := Encode(m), |m.data|;
    FieldsOfEncode(m);
    FromLeInjective(packet[2..6], e[2..6]);
    FromLeInjective(packet[6..10], e[6..10]);
    FromLeInjective(packet[10..14], e[10..14]);
    FromLeInjective(packet[14..18], e[14..18]);
    FromLeInjective(packet[18 + n..18 + n + 4], e[18 + n..18 + n + 4]);
    Pieces(packet, n);
    Pieces(e, n);
  }

  lemma Pieces(s: seq<Byte>, n: nat)
    requires |s| == OVERHEAD + n
    ensures s == s[..2] + s[2..6] + s[6..10] + s[10..14] + s[14..18] + s[18..18 + n] + s[18 + n..18 + n + 4]
  {
  }

  lemma {:induction false} HashOfNothing()
    ensures DataHash([]) != 0
  {
    assert Mix(Seed(0), []) == Seed(0);
    XorZero(0);
    assert Shr32(0, 13) == 0 by { ShrShrinks(0, 13); }
    assert Shr32(0, 15) == 0 by { ShrShrinks(0, 15); }
    assert Finish(0) == 0;
    XorZero(97);
    if Finish(97) == 0 {
      FinishInjective(97, 0);
    }
  }

  lemma {:induction false} NeverAllZeros(m: Message, from: nat)
    requires OffsetsFit(|m.data|) && from <= HEADER_SIZE
    ensures exists k :: from <= k < |Encode(m)| && Encode(m)[k] != 0
  {
    var e, n := Encode(m), |m.data|;
    FieldsOfEncode(m);
    if n != 0 {
      var i := NonZeroByte(e[14..18]);
      assert e[14 + i] != 0;
    } else {
      assert m.data == [];
      HashOfNothing();
      var i := NonZeroByte(e[18..22]);
      assert e[18 + i] != 0;
    }
  }

  lemma {:induction false} NonZeroByte(s: seq<Byte>) returns (i: nat)
    requires FromLe(s) != 0
    ensures i < |s| && s[i] != 0
  {
    i := 0;
    if s[0] == 0 {
      i := NonZeroByte(s[1..]);
      i := i + 1;
    }
  }

  lemma {:induction false} ShortHeaderSize(m: Message, rest: seq<Byte>, first: nat, cuts: seq<nat>)
    requires OffsetsFit(|m.data|) && 1 <= first < HEADER_SIZE
    requires Outcome(Encode(m) + rest, first, cuts, |m.data|) == Received(m, true)
    ensures var stream := Encode(m) + rest; var size := OVERHEAD + |m.data|;
      && HeaderOf(stream, first)[..2] == MAGIC && Field(HeaderOf(stream, first), 2, 4) == size
      && Parse(Packet(stream, first, size), |m.data|) == Received(m, true)
  {
    hide Encode, Packet, Parse, Field;
    var header := HeaderOf(Encode(m) + rest, first);
    assert first >= 2 by {
      assert header[..2][1] == header[1] && MAGIC[1] != 0;
    }
    FieldsOfEncode(m);
    ShortSize(Encode(m), rest, |m.data|, first);
  }

  /** A header cut short leaves zeros where its bytes should be, and all later bytes late: it can
      stand for the same packet only if everything behind is zero, but then so is the hash. */
  lemma {:induction false} ShortHeaderIsSeen(m: Message, rest: seq<Byte>, first: nat, cuts: seq<nat>)
    requires OffsetsFit(|m.data|) && 1 <= first < HEADER_SIZE
    ensures Outcome(Encode(m) + rest, first, cuts, |m.data|) != Received(m, true)
  {
    var e := Encode(m);
    if Outcome(e + rest, first, cuts, |m.data|) == Received(m, true) {
      ShortHeaderSize(m, rest, first, cuts);
      var header, packet := HeaderOf(e + rest, first), Packet(e + rest, first, |e|);
      assert packet[..2] == header[..2] && packet[2..6] == header[2..6];
      ParseDetermines(packet, m);
      forall k: nat | first <= k < |e| ensures e[k] == 0 {
        ShiftedZeros(e, rest, first, k);
      }
      NeverAllZeros(m, first);
    }
  }

  lemma {:induction false} FromLeOfZeros(n: nat)
    ensures FromLe(Zeros(n)) == 0
  {
    if n > 0 {
      assert Zeros(n)[1..] == Zeros(n - 1);
      FromLeOfZeros(n - 1);
    }
  }

  lemma {:induction false} ShiftedZeros(e: seq<Byte>, rest: seq<Byte>, first: nat, k: nat)
    requires 1 <= first < HEADER_SIZE <= |e| && first <= k < |e| && |e| - HEADER_SIZE < 0x8000_0000
    requires Packet(e + rest, first, |e|) == e
    ensures e[k] == 0
    decreases k
  {
    var packet := Packet(e + rest, first, |e|);
    if k < HEADER_SIZE {
      assert packet[k] == 0;
    } else {
      assert packet[k] == (e + rest)[first + (k - HEADER_SIZE)];
      assert e[k] == e[k - (HEADER_SIZE - first)];
      ShiftedZeros(e, rest, first, k - (HEADER_SIZE - first));
    }
  }

  /** Losing high bytes of the size field is seen by the size test, unless they are zero. */
  lemma {:induction false} ShortSize(e: seq<Byte>, rest: seq<Byte>, n: nat, first: nat)
    requires OVERHEAD + n - HEADER_SIZE < 0x8000_0000 && 2 <= first < HEADER_SIZE <= |e|
    requires Field(e, 2, 4) == OVERHEAD + n
    ensures var size := Field(HeaderOf(e + rest, first), 2, 4);
      || size == OVERHEAD + n
      || size == 0
      || (size - n) % TWO_TO_THE_32 > 200
  {
    var sizeField, sent := e[2..6], first - 2;
    assert (e + rest)[..first] == e[..2] + sizeField[..sent];
    assert HeaderOf(e + rest, first) == e[..2] + (sizeField[..sent] + Zeros(4 - sent));
    assert HeaderOf(e + rest, first)[2..6] == sizeField[..sent] + Zeros(4 - sent);
    LowBytes(sizeField, sent);
    CutSize(n, sent);
  }

  lemma {:induction false} LowBytes(s: seq<Byte>, k: nat)
    requires k <= |s|
    ensures FromLe(s[..k] + Zeros(|s| - k)) == FromLe(s) % Pow256(k)
  {
    if k == 0 {
      assert s[..0] + Zeros(|s|) == Zeros(|s|);
      FromLeOfZeros(|s|);
    } else {
      var z := s[..k] + Zeros(|s| - k);
      assert z[1..] == s[1..][..k - 1] + Zeros(|s[1..]| - (k - 1));
      LowBytes(s[1..], k - 1);
      DigitAndRest(s[0], FromLe(s[1..]), Pow256(k - 1));
    }
  }

  lemma DigitAndRest(d: Byte, n: nat, p: nat)
    requires p > 0
    ensures (d + 256 * n) % (256 * p) == d + 256 * (n % p)
  {
    var q := n / p;
    assert n == q * p + n % p;
    assert d + 256 * n == (256 * p) * q + (d + 256 * (n % p));
    assert d + 256 * (n % p) < 256 * p by {
      assert n % p <= p - 1;
    }
    QuotientIs(d + 256 * n, 256 * p, q, d + 256 * (n % p));
  }

  lemma CutSize(n: nat, sent: nat)
    requires OVERHEAD + n - HEADER_SIZE < 0x8000_0000 && sent <= 3
    ensures var size := (OVERHEAD + n) % Pow256(sent);
      size == 0 || (size - n) % TWO_TO_THE_32 > 200 || size == OVERHEAD + n
  {
    assert Pow256(1) == 256 && Pow256(2) == 65536 && Pow256(3) == 0x100_0000;
  }

  // ---------------------------------------------------------------- which sizes and cuts go through

  /** A packet of at most 2^31 bytes has no receive that begins later. */
  lemma {:induction false} NeverLate(cuts: seq<nat>, waiting: nat, offset: nat, remain: nat)
    requires offset + remain <= 0x8000_0000
    ensures !BeginsLate(cuts, waiting, offset, remain)
    decreases remain
  {
    var n := Delivered(cuts, waiting, Min(remain, MAX_PACKET_SIZE));
    if n > 0 {
      NeverLate(LaterCuts(cuts), waiting - n, offset + n, remain - n);
    }
  }

  /** Of a longer one, received byte by byte, some do. */
  lemma {:induction false} LateByteByByte(cuts: seq<nat>, waiting: nat, offset: nat, remain: nat)
    requires offset + remain > 0x8000_0000 && waiting >= remain > 0
    requires |cuts| >= remain && forall i :: 0 <= i < |cuts| ==> cuts[i] == 1
    ensures BeginsLate(cuts, waiting, offset, remain)
    decreases remain
  {
    if offset < 0x8000_0000 {
      LateByteByByte(LaterCuts(cuts), waiting - 1, offset + 1, remain - 1);
    }
  }

  lemma {:induction false} ParseOfEncode(m: Message)
    requires SizeFits(m)
    ensures Parse(Encode(m), |m.data|) == if OffsetsFit(|m.data|) then Received(m, true) else Overrun
  {
    FieldsOfEncode(m);
  }

  lemma {:induction false} FullHeaderParsed(m: Message, rest: seq<Byte>)
    requires SizeFits(m)
    ensures var size := OVERHEAD + |m.data|; var stream := Encode(m) + rest;
      size < TWO_TO_THE_32 && HEADER_SIZE <= |stream| && (Int32(size - HEADER_SIZE) > 0 ==> size <= |stream|)
    ensures var size := OVERHEAD + |m.data|;
      Parse(Packet(Encode(m) + rest, HEADER_SIZE, size), |m.data|) ==
        if size - HEADER_SIZE >= 0x8000_0000 then WrongDataSize
        else if !OffsetsFit(|m.data|) then Overrun
        else Received(m, true)
  {
    assert OVERHEAD + |m.data| < TWO_TO_THE_32;
    hide *;
    var e, n := Encode(m), |m.data|;
    if |e| - HEADER_SIZE < 0x8000_0000 {
      ParseOfEncode(m);
      FullHeaderPacket(e, rest);
    } else {
      NothingBehindHeader(e + rest, HEADER_SIZE, |e|);
      EmptyPacket(Packet(e + rest, HEADER_SIZE, |e|), n);
    }
  }

  /** With a whole header, less than 2^31 bytes behind it are received, and more are not: then the data
      size is read as zero. */
  lemma {:induction false} FullHeader(m: Message, rest: seq<Byte>, cuts: seq<nat>)
    requires SizeFits(m)
    ensures var size := OVERHEAD + |m.data|; var stream := Encode(m) + rest;
      Outcome(stream, HEADER_SIZE, cuts, |m.data|) ==
        if size - HEADER_SIZE >= 0x8000_0000 then WrongDataSize
        else if BeginsLate(cuts, |stream| - HEADER_SIZE, HEADER_SIZE, size - HEADER_SIZE) || !OffsetsFit(|m.data|) then Overrun
        else Received(m, true)
  {
    hide HeaderOf, Parse, BeginsLate, Field, Packet, Outcome, Int32, Encode, FromLe;
    var e, n := Encode(m), |m.data|;
    FullHeaderParsed(m, rest);
    FullHeaderFields(m, rest);
    FullHeaderOutcome(e + rest, cuts, n);
  }

  lemma FullHeaderOutcome(stream: seq<Byte>, cuts: seq<nat>, n: nat)
    requires OVERHEAD + n < TWO_TO_THE_32 && |stream| >= OVERHEAD + n
    requires HeaderOf(stream, HEADER_SIZE)[..2] == MAGIC && Field(HeaderOf(stream, HEADER_SIZE), 2, 4) == OVERHEAD + n
    ensures var rest := OVERHEAD + n - HEADER_SIZE;
      Outcome(stream, HEADER_SIZE, cuts, n) ==
        if rest < 0x8000_0000 && BeginsLate(cuts, |stream| - HEADER_SIZE, HEADER_SIZE, rest) then Overrun
        else Parse(Packet(stream, HEADER_SIZE, OVERHEAD + n), n)
  {
    hide HeaderOf, Parse, BeginsLate, Field, Packet;
  }

  lemma EmptyPacket(packet: seq<Byte>, n: U32)
    requires |packet| >= OVERHEAD && Field(packet, 14, 4) == 0 && n != 0
    ensures Parse(packet, n) == WrongDataSize
  {
  }

  lemma NothingBehindHeader(stream: seq<Byte>, first: nat, size: nat)
    requires first <= HEADER_SIZE && first <= |stream| && size - HEADER_SIZE >= 0x8000_0000 && size < TWO_TO_THE_32
    ensures Int32(size - HEADER_SIZE) <= 0 && Field(Packet(stream, first, size), 14, 4) == 0
  {
    assert Packet(stream, first, size)[14..18] == Zeros(4);
    FromLeOfZeros(4);
  }

  lemma {:induction false} FullHeaderFields(m: Message, rest: seq<Byte>)
    requires SizeFits(m)
    ensures var header := HeaderOf(Encode(m) + rest, HEADER_SIZE);
      header[..2] == MAGIC && Field(header, 2, 4) == OVERHEAD + |m.data|
  {
    var e := Encode(m);
    FieldsOfEncode(m);
    assert HeaderOf(e + rest, HEADER_SIZE) == e[..6];
    assert e[..6][2..6] == e[2..6] && e[..6][..2] == e[..2];
  }

  lemma {:induction false} FullHeaderPacket(e: seq<Byte>, rest: seq<Byte>)
    requires HEADER_SIZE < |e| && |e| - HEADER_SIZE < 0x8000_0000
    ensures Packet(e + rest, HEADER_SIZE, |e|) == e
  {
    assert HeaderOf(e + rest, HEADER_SIZE) == e[..6];
    assert e[..6] + e[6..] == e;
  }

  lemma LargeIsNotReceived(m: Message, stream: seq<Byte>, first: nat, cuts: seq<nat>)
    requires SizeFits(m) && !OffsetsFit(|m.data|) && first <= HEADER_SIZE && first <= |stream|
    ensures !Outcome(stream, first, cuts, |m.data|).Received?
  {
    hide HeaderOf, Packet, BeginsLate, Field;
  }

  /** The reply arrives as it was sent exactly when the first receive delivers the whole six-byte
      header, the offset behind the data fits an `int`, and no receive begins at 2^31 or later. */
  lemma {:induction false} RoundTripExactly(m: Message, rest: seq<Byte>, first: nat, cuts: seq<nat>)
    requires SizeFits(m) && 1 <= first <= HEADER_SIZE
    ensures var stream := Encode(m) + rest; var size := OVERHEAD + |m.data|;
      Outcome(stream, first, cuts, |m.data|) == Received(m, true) <==>
        first == HEADER_SIZE && OffsetsFit(|m.data|) && !BeginsLate(cuts, |stream| - first, HEADER_SIZE, size - HEADER_SIZE)
  {
    if !OffsetsFit(|m.data|) {
      LargeIsNotReceived(m, Encode(m) + rest, first, cuts);
    } else if first == HEADER_SIZE {
      FullHeader(m, rest, cuts);
    } else {
      ShortHeaderIsSeen(m, rest, first, cuts);
    }
  }

  ghost predicate ArrivesHoweverCut(m: Message, stream: seq<Byte>)
    requires SizeFits(m) && |stream| >= HEADER_SIZE
  {
    forall cuts :: Outcome(stream, HEADER_SIZE, cuts, |m.data|) == Received(m, true)
  }

  /** Behind a whole header, the body may be cut in any way exactly when the packet has at most 2^31
      bytes. */
  lemma {:induction false} AnyCutExactly(m: Message, rest: seq<Byte>)
    requires SizeFits(m)
    ensures ArrivesHoweverCut(m, Encode(m) + rest) <==> OVERHEAD + |m.data| <= 0x8000_0000
  {
    hide Outcome, Encode, BeginsLate;
    var size, stream := OVERHEAD + |m.data|, Encode(m) + rest;
    if size <= 0x8000_0000 {
      forall cuts ensures Outcome(stream, HEADER_SIZE, cuts, |m.data|) == Received(m, true) {
        NeverLate(cuts, |stream| - HEADER_SIZE, HEADER_SIZE, size - HEADER_SIZE);
        RoundTripExactly(m, rest, HEADER_SIZE, cuts);
      }
    } else {
      var cuts := seq(size, i => 1);
      LateByteByByte(cuts, |stream| - HEADER_SIZE, HEADER_SIZE, size - HEADER_SIZE);
      RoundTripExactly(m, rest, HEADER_SIZE, cuts);
    }
  }
}
