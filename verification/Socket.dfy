/** A stream socket that hands its bytes over in pieces of any positive size, and the loop that
    reassembles a packet from them. */
module Socket {
  import opened Bytes

  const MAX_PACKET_SIZE: nat := 8192

  function Min(a: nat, b: nat): nat {
    if a <= b then a else b
  }

  /** How many bytes one receive delivers: what the next cut says, but at least one byte, and no
      more than asked for and waiting. Zero only when nothing is waiting. */
  function Delivered(cuts: seq<nat>, waiting: nat, target: nat): (n: nat)
    ensures n <= target && n <= waiting
    ensures target > 0 && waiting > 0 ==> n > 0
  {
    var most := Min(target, waiting);
    if cuts == [] then most else Min(most, if cuts[0] == 0 then 1 else cuts[0])
  }

  /** The cuts of the receives behind the next. */
  function LaterCuts(cuts: seq<nat>): seq<nat> {
    if cuts == [] then [] else cuts[1..]
  }

  class Connection {
    /** The bytes on their way, and the sizes in which the coming receives cut them. */
    var incoming: seq<Byte>
    var cuts: seq<nat>

    constructor (incoming: seq<Byte>, cuts: seq<nat>)
      ensures this.incoming == incoming && this.cuts == cuts
    {
      this.incoming, this.cuts := incoming, cuts;
    }

    method Receive(target: nat) returns (chunk: seq<Byte>)
      modifies this
      ensures var n := Delivered(old(cuts), |old(incoming)|, target);
        chunk == old(incoming)[..n] && incoming == old(incoming)[n..]
      ensures cuts == LaterCuts(old(cuts))
    {
      var n := Delivered(cuts, |incoming|, target);
      chunk := incoming[..n];
      incoming := incoming[n..];
      cuts := LaterCuts(cuts);
    }
  }

  method Copy(buf: array<Byte>, offset: nat, bytes: seq<Byte>)
    requires offset + |bytes| <= buf.Length
    modifies buf
    ensures buf[..] == old(buf[..offset]) + bytes + old(buf[offset + |bytes|..])
    ensures buf[..offset + |bytes|] == old(buf[..offset]) + bytes
  {
    forall i | 0 <= i < |bytes| {
      buf[offset + i] := bytes[i];
    }
    assert buf[..offset] == old(buf[..offset]);
    assert buf[offset..offset + |bytes|] == bytes;
    assert buf[offset + |bytes|..] == old(buf[offset + |bytes|..]);
    assert buf[..] == buf[..offset] + buf[offset..offset + |bytes|] + buf[offset + |bytes|..];
  }

  /** One receive into the buffer, at an offset. */
  method ReceiveAt(c: Connection, buf: array<Byte>, offset: nat, target: nat) returns (n: nat)
    requires offset + target <= buf.Length
    modifies c, buf
    ensures n <= target && n <= |old(c.incoming)| && (target > 0 && old(c.incoming) != [] ==> n > 0)
    ensures c.incoming == old(c.incoming)[n..]
    ensures buf[..offset + n] == old(buf[..offset]) + old(c.incoming)[..n]
  {
    hide Delivered;
    var chunk := c.Receive(target);
    n := |chunk|;
    Copy(buf, offset, chunk);
  }

  /** Receives until the packet is full. The clock is tested before every receive; `budget` is the
      number of receives it lets pass. */
  method Fill(c: Connection, packet: array<Byte>, have: nat, budget: nat) returns (ok: bool)
    requires have <= packet.Length
    modifies c, packet
    ensures var need := packet.Length - have; var stream := old(c.incoming);
      && (ok ==>
            && need <= |stream| && c.incoming == stream[need..]
            && packet[..] == old(packet[..have]) + stream[..need])
      && (!ok ==> budget < need || |stream| < need)
  {
    var remainSize := packet.Length - have;
    var clock := budget;
    ghost var stream, begin, got := c.incoming, packet[..have], 0;
    while remainSize > 0
      invariant 0 <= got <= |stream| && c.incoming == stream[got..]
      invariant remainSize == packet.Length - have - got >= 0
      invariant packet[..have + got] == begin + stream[..got]
      invariant clock >= 0 && (got < |stream| ==> budget - clock <= got)
      decreases clock
    {
      if clock == 0 {
        return false;
      }
      var offset := packet.Length - remainSize;
      var targetSize := if remainSize > MAX_PACKET_SIZE then MAX_PACKET_SIZE else remainSize;
      var n := ReceiveAt(c, packet, offset, targetSize);
      assert stream[..got] + stream[got..][..n] == stream[..got + n];
      assert begin + stream[..got] + stream[got..][..n] == begin + stream[..got + n];
      remainSize := remainSize - n;
      got := got + n;
      clock := clock - 1;
    }
    assert packet[..] == packet[..have + got];
    return true;
  }
}
