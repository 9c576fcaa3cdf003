/** The C++ side of the wire: byte buffers filled in place, and the parser that keeps a packet's
    header in its buffer until the whole packet has arrived. */
module CppParser {
  import opened Bytes
  import opened Crc32
  import opened Protocol
  import opened Streams
  import opened Wrappers

  /** `write_u16`, `write_u32` and `write_u64`, which differ only in the width. */
  method WriteBigEndian(output: array<Byte>, at: nat, width: nat, value: nat)
    requires at + width <= output.Length
    modifies output
    ensures Holds(output[..], at, width, value)
    ensures forall i :: 0 <= i < output.Length && !(at <= i < at + width) ==> output[i] == old(output[i])
  {
    var index := 0;
    while index < width
      invariant index <= width
      invariant forall i :: at <= i < at + index ==> output[i] == Digit(value, width, i - at)
      invariant forall i :: 0 <= i < output.Length && !(at <= i < at + width) ==> output[i] == old(output[i])
    {
      output[at + index] := value / Pow256(width - 1 - index) % 256;
      index := index + 1;
    }
  }

  /** `read_u16`, `read_u32` and `read_u64`: the high bytes are shifted up and the next byte or-ed in. */
  method ReadBigEndian(input: seq<Byte>, at: nat, width: nat) returns (value: nat)
    requires at + width <= |input|
    ensures value == Field(input, at, width)
  {
    value := 0;
    var index := 0;
    while index < width
      invariant index <= width
      invariant value == Field(input, at, index)
    {
      value := value * 256 + input[at + index];
      index := index + 1;
    }
  }

  method WriteHeader(result: array<Byte>, h: Header)
    requires result.Length >= HEADER_SIZE
    modifies result
    ensures result[..HEADER_SIZE] == HeaderBytes(h)
    ensures forall i :: HEADER_SIZE <= i < result.Length ==> result[i] == old(result[i])
  {
    result[0] := 0x49;
    result[1] := 0x47;
    result[2] := 0x4E;
    result[3] := 0x53;
    result[4] := VERSION;
    result[5] := h.kind;
    WriteBigEndian(result, 6, 2, h.flags);
    WriteBigEndian(result, 8, 4, h.length);
    WriteBigEndian(result, 12, 8, h.sequence);
    WriteBigEndian(result, 20, 8, h.monotonicNs);
    WriteBigEndian(result, 28, 4, h.crc);
    LayoutIsUnique(result[..], h);
  }

  /** The buffer that is sent is exactly the encoding of the packet, whatever limit the receiver has. */
  method SerializePacket(p: Packet, ghost limit: nat) returns (result: array<Byte>)
    ensures fresh(result) && result[..] == Encode(Codec(limit, Crc), p)
  {
    var n := |p.payload|;
    result := new Byte[HEADER_SIZE + n](_ => 0);
    var crc := ComputeCrc(p.payload);
    var h := Header(p.kind, p.flags, n % U32_LIMIT, p.sequence, p.monotonicNs, crc);
    WriteHeader(result, h);
    forall i | 0 <= i < n {
      result[HEADER_SIZE + i] := p.payload[i];
    }
    assert result[..HEADER_SIZE] == HeaderBytes(h) && result[HEADER_SIZE..] == p.payload;
    assert result[..] == result[..HEADER_SIZE] + result[HEADER_SIZE..];
  }

  class PacketParser {
    const maximumPayload: nat
    var buffer: seq<Byte>

    constructor (maximumPayload: nat)
      ensures this.maximumPayload == maximumPayload && buffer == []
    {
      this.maximumPayload := maximumPayload;
      buffer := [];
    }

    ghost function W(): Wire {
      WireOf(Codec(maximumPayload, Crc))
    }

    /** One pass of the loop body: reads the front of the buffer without consuming it. */
    method Front() returns (f: Front)
      requires |buffer| >= HEADER_SIZE
      ensures f == W().read(buffer)
    {
      var codec := Codec(maximumPayload, Crc);
      if !(buffer[0] == 0x49 && buffer[1] == 0x47 && buffer[2] == 0x4E && buffer[3] == 0x53) {
        return Malformed(BadMagic, HEADER_SIZE);
      }
      if buffer[4] != VERSION {
        return Malformed(BadVersion, HEADER_SIZE);
      }
      if !Known(buffer[5]) {
        return Malformed(UnknownKind, HEADER_SIZE);
      }
      var length := ReadBigEndian(buffer, 8, 4);
      if length > maximumPayload {
        return Malformed(TooLong, HEADER_SIZE);
      }
      if |buffer| < HEADER_SIZE + length {
        return NeedMore;
      }
      var flags := ReadBigEndian(buffer, 6, 2);
      var sequence := ReadBigEndian(buffer, 12, 8);
      var monotonicNs := ReadBigEndian(buffer, 20, 8);
      var payload := buffer[HEADER_SIZE..HEADER_SIZE + length];
      var expected := ReadBigEndian(buffer, 28, 4);
      var crc := ComputeCrc(payload);
      if crc != expected {
        return Malformed(BadCrc, HEADER_SIZE + length);
      }
      Pow256Values();
      f := Ready(Packet(buffer[5], flags, sequence, monotonicNs, payload), HEADER_SIZE + length);
    }

    /** A feed that does not overflow returns what the whole-stream decoder finds in the buffered
        and the new bytes together, and keeps exactly what that decoder left. */
    method Feed(data: seq<Byte>) returns (r: Result<seq<Packet>, FeedError>)
      modifies this
      ensures |old(buffer)| + |data| > maximumPayload + HEADER_SIZE ==> r == Failure(Overflow) && buffer == old(buffer)
      ensures |old(buffer)| + |data| <= maximumPayload + HEADER_SIZE ==>
                var d := DecodeStream(Codec(maximumPayload, Crc), old(buffer) + data);
                buffer == d.end.bytes &&
                r == if d.end.Rest? then Success(d.packets) else Failure(BadPacket(d.end.fault))
    {
      if |buffer| + |data| > maximumPayload + HEADER_SIZE {
        return Failure(Overflow);
      }
      buffer := buffer + data;
      ghost var stream := buffer;
      ResumeFromStart(W(), stream);
      var packets := [];
      while |buffer| >= HEADER_SIZE
        invariant Resume(W(), packets, buffer) == Decode(W(), stream)
        decreases |buffer|
      {
        var f := Front();
        TakeNothing(W(), packets, buffer);
        match f {
          case Malformed(fault, _) => return Failure(BadPacket(fault));
          case NeedMore => break;
          case Ready(p, size) =>
            assert InRange(f, buffer);
            TakeOne(W(), packets, buffer);
            packets := packets + [p];
            buffer := buffer[size..];
        }
      }
      assert W().read(buffer) == NeedMore;
      TakeNothing(W(), packets, buffer);
      r := Success(packets);
    }
  }
}
