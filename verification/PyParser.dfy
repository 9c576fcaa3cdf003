/** The Python side of the wire: the parser that consumes a header as soon as it is complete and
    remembers its fields until the payload has arrived. */
module PyParser {
  import opened Bytes
  import opened Crc32
  import opened Protocol
  import opened Streams
  import opened Wrappers

  class PacketParser {
    const maxPayloadBytes: nat
    var buffer: seq<Byte>
    var expected: Option<Header>

    constructor (maxPayloadBytes: nat)
      ensures this.maxPayloadBytes == maxPayloadBytes && buffer == [] && expected == None
    {
      this.maxPayloadBytes := maxPayloadBytes;
      buffer := [];
      expected := None;
    }

    ghost function W(): Wire {
      WireOf(Codec(maxPayloadBytes, Crc))
    }

    /** A remembered header has passed the length check. */
    ghost predicate Valid()
      reads this
    {
      expected.Some? ==> expected.value.length <= maxPayloadBytes
    }

    /** The state between feeds: a complete header has been taken out of the buffer. */
    ghost predicate Settled()
      reads this
    {
      Valid() && (expected == None ==> |buffer| < HEADER_SIZE)
    }

    /** The undecoded bytes: the remembered fields stand for the header they were read from. */
    ghost function Pending(): seq<Byte>
      reads this
    {
      if expected.Some? then HeaderBytes(expected.value) + buffer else buffer
    }

    /** A feed that does not overflow returns what the whole-stream decoder finds in the pending
        and the new bytes together, and leaves pending exactly what that decoder left.  After a
        malformed packet the part of it that was read is gone from the buffer. */
    method Feed(chunk: seq<Byte>) returns (r: Result<seq<Packet>, FeedError>)
      requires Valid()
      modifies this
      ensures Valid()
      ensures |old(buffer)| + |chunk| > maxPayloadBytes + HEADER_SIZE ==>
                r == Failure(Overflow) && buffer == old(buffer) && expected == old(expected)
      ensures |old(buffer)| + |chunk| <= maxPayloadBytes + HEADER_SIZE ==>
                var d := DecodeStream(Codec(maxPayloadBytes, Crc), old(Pending()) + chunk);
                match d.end
                case Rest(rest) =>
                  r == Success(d.packets) && Pending() == rest && (expected.None? ==> |buffer| < HEADER_SIZE)
                case Broken(fault, skip, bad) =>
                  r == Failure(BadPacket(fault)) && expected == None && skip <= |bad| && buffer == bad[skip..]
    {
      if |buffer| + |chunk| > maxPayloadBytes + HEADER_SIZE {
        return Failure(Overflow);
      }
      ghost var stream := Pending() + chunk;
      buffer := buffer + chunk;
      assert Pending() == stream;
      ResumeFromStart(W(), stream);
      var packets := [];
      while true
        invariant Valid()
        invariant Resume(W(), packets, Pending()) == Decode(W(), stream)
        decreases |Pending()|
      {
        TakeNothing(W(), packets, Pending());
        ghost var pending := Pending();
        var f := TakeFront();
        match f {
          case NeedMore => break;
          case Malformed(fault, _) => return Failure(BadPacket(fault));
          case Ready(p, _) =>
            TakeOne(W(), packets, pending);
            packets := packets + [p];
        }
      }
      r := Success(packets);
    }

    /** One pass of the loop body: a complete header and then a complete payload are consumed. */
    method TakeFront() returns (f: Front)
      requires Valid()
      modifies this
      ensures Valid() && f == W().read(old(Pending()))
      ensures f.NeedMore? ==> Pending() == old(Pending()) && (expected == None ==> |buffer| < HEADER_SIZE)
      ensures f.Malformed? ==> expected == None && f.skip <= |old(Pending())| && buffer == old(Pending())[f.skip..]
      ensures f.Ready? ==> expected == None && 0 < f.size <= |old(Pending())| && Pending() == old(Pending())[f.size..]
    {
      if expected == None {
        if |buffer| < HEADER_SIZE {
          return NeedMore;
        }
        var fault := TakeHeader();
        if fault.Some? {
          return Malformed(fault.value, HEADER_SIZE);
        }
      }
      var size := HEADER_SIZE + expected.value.length;
      if |buffer| < expected.value.length {
        IncompletePayload();
        return NeedMore;
      }
      var p := TakePayload();
      f := if p == None then Malformed(BadCrc, size) else Ready(p.value, size);
    }

    /** The header branch of the loop body. */
    method TakeHeader() returns (fault: Option<Fault>)
      requires expected == None && |buffer| >= HEADER_SIZE
      modifies this
      ensures fault == None ==> Valid() && expected.Some? && Pending() == old(Pending())
      ensures fault.Some? ==> expected == None && buffer == old(buffer)[HEADER_SIZE..] &&
                              W().read(old(Pending())) == Malformed(fault.value, HEADER_SIZE)
    {
      var header := ParseHeader(buffer, maxPayloadBytes);
      if header.Success? {
        HeaderIsCanonical(buffer, maxPayloadBytes);
        assert buffer == buffer[..HEADER_SIZE] + buffer[HEADER_SIZE..];
        expected := Some(header.value);
        fault := None;
      } else {
        fault := Some(header.error);
      }
      buffer := buffer[HEADER_SIZE..];
    }

    lemma IncompletePayload()
      requires Valid() && expected.Some? && |buffer| < expected.value.length
      ensures W().read(Pending()) == NeedMore
    {
      HeaderRoundTrip(expected.value, buffer, maxPayloadBytes);
    }

    /** The payload branch of the loop body. */
    method TakePayload() returns (p: Option<Packet>)
      requires Valid() && expected.Some? && |buffer| >= expected.value.length
      modifies this
      ensures expected == None
      ensures var h := old(expected.value); var size := HEADER_SIZE + h.length;
              |old(Pending())| >= size && buffer == old(Pending())[size..] &&
              W().read(old(Pending())) == if p == None then Malformed(BadCrc, size) else Ready(p.value, size)
    {
      var h := expected.value;
      FrontAfterHeader(Codec(maxPayloadBytes, Crc), h, buffer);
      var payload := buffer[..h.length];
      buffer := buffer[h.length..];
      expected := None;
      var crc := ComputeCrc(payload);
      p := if crc != h.crc then None else Some(PacketOf(h, payload));
    }
  }
}
