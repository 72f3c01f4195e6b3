/** NetworkPacket of sniffy-core: a run of bytes sent or received on a socket
    at a timestamp. `combine` appends the bytes of a later packet in place
    when the direction matches and the delay is within bounds. */
module NetworkPackets {
  import opened Wrappers
  import opened JavaText

  /** What a packet holds at one moment, as a value. */
  datatype Packet = Packet(sent: bool, timestamp: Int64, stackTrace: Option<string>, bytes: seq<Byte>)

  /** The test both combine overloads make before appending: the same
      direction, and the other timestamp at most maxDelay after this one (the
      difference taken in long arithmetic). */
  predicate Joins(sent: bool, timestamp: Int64, thatSent: bool, thatTimestamp: Int64, maxDelay: Int64) {
    sent == thatSent && !(Wrap64(thatTimestamp - timestamp) > maxDelay)
  }

  /** For timestamps in the range System.currentTimeMillis produces, a packet
      of the same direction that is not later always passes the delay test
      when the bound is not negative, and a later one passes exactly when it
      is at most maxDelay later. */
  lemma JoinsMeaning(sent: bool, timestamp: Int64, thatTimestamp: Int64, maxDelay: Int64)
    requires 0 <= timestamp && 0 <= thatTimestamp
    ensures Joins(sent, timestamp, sent, thatTimestamp, maxDelay) <==> thatTimestamp - timestamp <= maxDelay
    ensures thatTimestamp <= timestamp && 0 <= maxDelay ==> Joins(sent, timestamp, sent, thatTimestamp, maxDelay)
    ensures !Joins(sent, timestamp, !sent, thatTimestamp, maxDelay)
  {
  }

  /** What ByteArrayOutputStream.write throws for a range outside the array. */
  datatype PacketError = IndexOutOfBounds

  /** The range traffic[off..off+len) lies inside the array. */
  predicate InBounds(traffic: seq<Byte>, off: int, len: int) {
    0 <= off && 0 <= len && off + len <= |traffic|
  }

  class NetworkPacket {
    const sent: bool
    const timestamp: Int64
    /** Only the Spy's version of the class records it. */
    const stackTrace: Option<string>
    /** The contents of the ByteArrayOutputStream. */
    var bytes: seq<Byte>

    function Value(): (p: Packet)
      reads this
      ensures p.sent == sent && p.timestamp == timestamp && p.stackTrace == stackTrace && p.bytes == bytes
    {
      Packet(sent, timestamp, stackTrace, bytes)
    }

    /** The constructor for a range inside the array: it keeps
        traffic[off..off+len). NewNetworkPacket also covers other ranges. */
    constructor (sent: bool, timestamp: Int64, stackTrace: Option<string>, traffic: seq<Byte>, off: int, len: int)
      requires InBounds(traffic, off, len)
      ensures this.sent == sent && this.timestamp == timestamp && this.stackTrace == stackTrace
      ensures bytes == traffic[off..off + len]
    {
      this.sent := sent;
      this.timestamp := timestamp;
      this.stackTrace := stackTrace;
      bytes := traffic[off..off + len];
    }

    /** combine(sent, timestamp, traffic, off, len, maxDelay): false when the
        test fails; otherwise the range is appended, and a range outside the
        array throws IndexOutOfBoundsException, leaving the bytes as they were. */
    method CombineTraffic(sent: bool, timestamp: Int64, traffic: seq<Byte>, off: int, len: int, maxDelay: Int64)
      returns (r: Result<bool, PacketError>)
      modifies this
      ensures r.Err? <==> Joins(this.sent, this.timestamp, sent, timestamp, maxDelay) && !InBounds(traffic, off, len)
      ensures r.Ok? ==> (r.value <==> Joins(this.sent, this.timestamp, sent, timestamp, maxDelay))
      ensures bytes == if r == Ok(true) then old(bytes) + traffic[off..off + len] else old(bytes)
    {
      if this.sent != sent {
        return Ok(false);
      }
      if Wrap64(timestamp - this.timestamp) > maxDelay {
        return Ok(false);
      }
      if !InBounds(traffic, off, len) {
        return Err(IndexOutOfBounds);
      }
      bytes := bytes + traffic[off..off + len];
      return Ok(true);
    }

    /** combine(that, maxDelay). The bytes of `that` are copied out before
        they are appended, so combining a packet with itself doubles it. */
    method Combine(that: NetworkPacket, maxDelay: Int64) returns (r: bool)
      modifies this
      ensures r <==> Joins(sent, timestamp, that.sent, that.timestamp, maxDelay)
      ensures bytes == if r then old(bytes) + old(that.bytes) else old(bytes)
    {
      if this.sent != that.sent {
        return false;
      }
      if Wrap64(that.timestamp - this.timestamp) > maxDelay {
        return false;
      }
      var copy := that.bytes;
      bytes := bytes + copy;
      return true;
    }

    /** getBytes: a copy of everything written so far. */
    method GetBytes() returns (b: seq<Byte>)
      ensures b == bytes
    {
      return bytes;
    }

    /** compareTo: by timestamp only. */
    function CompareTo(that: NetworkPacket): (c: int)
      ensures c == -1 || c == 0 || c == 1
      ensures c == -1 <==> timestamp < that.timestamp
      ensures c == 0 <==> timestamp == that.timestamp
      ensures c == 1 <==> timestamp > that.timestamp
    {
      if timestamp < that.timestamp then -1 else if timestamp == that.timestamp then 0 else 1
    }
  }

  /** new NetworkPacket(sent, timestamp, traffic, off, len), with
      ByteArrayOutputStream.write's IndexOutOfBoundsException for a range
      outside the array. */
  method NewNetworkPacket(sent: bool, timestamp: Int64, stackTrace: Option<string>, traffic: seq<Byte>, off: int, len: int)
    returns (r: Result<NetworkPacket, PacketError>)
    ensures r.Err? <==> !InBounds(traffic, off, len)
    ensures r.Ok? ==> fresh(r.value) && r.value.Value() == Packet(sent, timestamp, stackTrace, traffic[off..off + len])
  {
    if !InBounds(traffic, off, len) {
      return Err(IndexOutOfBounds);
    }
    var p := new NetworkPacket(sent, timestamp, stackTrace, traffic, off, len);
    return Ok(p);
  }

  /** compareTo is a total preorder: antisymmetric in sign and transitive. */
  lemma CompareToIsOrder(a: NetworkPacket, b: NetworkPacket, c: NetworkPacket)
    ensures a.CompareTo(b) == -b.CompareTo(a)
    ensures a.CompareTo(b) <= 0 && b.CompareTo(c) <= 0 ==> a.CompareTo(c) <= 0
  {
  }

  /** The values of a sequence of packets. */
  function Values(ps: seq<NetworkPacket>): (vs: seq<Packet>)
    reads set p | p in ps
    ensures |vs| == |ps| && forall i :: 0 <= i < |ps| ==> vs[i] == ps[i].Value()
  {
    if |ps| == 0 then [] else Values(ps[..|ps| - 1]) + [ps[|ps| - 1].Value()]
  }

  /** Packets whose bytes did not change between two states have the same values. */
  twostate lemma ValuesUnchanged(ps: seq<NetworkPacket>)
    requires forall p :: p in ps ==> old(allocated(p)) && p.bytes == old(p.bytes)
    ensures Values(ps) == old(Values(ps))
  {
    if |ps| > 0 {
      ValuesUnchanged(ps[..|ps| - 1]);
    }
  }

  /** Values is determined pointwise. */
  lemma ValuesPointwise(ps: seq<NetworkPacket>, vs: seq<Packet>)
    requires |ps| == |vs| && forall k :: 0 <= k < |ps| ==> ps[k].Value() == vs[k]
    ensures Values(ps) == vs
  {
  }
}
