/** The packet format, its encoder, and what the front of a byte stream means. */
module Protocol {
  import opened Bytes
  import opened Wrappers

  const HEADER_SIZE: nat := 32
  const VERSION: Byte := 1
  const HELLO: Byte := 1
  const MAGIC: seq<Byte> := [0x49, 0x47, 0x4E, 0x53]

  predicate Known(kind: Byte) {
    kind in {1, 2, 10, 11, 12, 13, 14, 15, 16, 20, 100, 101, 102, 103, 104, 105, 106}
  }

  type Kind = k: Byte | Known(k) witness 1

  datatype Packet = Packet(kind: Kind, flags: U16, sequence: U64, monotonicNs: U64, payload: seq<Byte>)

  datatype Header = Header(kind: Kind, flags: U16, length: U32, sequence: U64, monotonicNs: U64, crc: U32)

  datatype Fault = BadMagic | BadVersion | UnknownKind | TooLong | BadCrc

  /** Why a parser refuses a chunk. */
  datatype FeedError = Overflow | BadPacket(fault: Fault)

  /** What a parser is configured with.  Nothing but the detection of corruption depends on which
      checksum is used, so it is a parameter until there. */
  datatype Codec = Codec(limit: nat, crc: seq<Byte> -> U32)

  // ---------------------------------------------------------------- encoding

  /** The layout of the 32-byte header, byte by byte. */
  function HeaderByte(h: Header, i: nat): Byte
    requires i < HEADER_SIZE
  {
    if i < 4 then MAGIC[i]
    else if i == 4 then VERSION
    else if i == 5 then h.kind
    else if i < 8 then Digit(h.flags, 2, i - 6)
    else if i < 12 then Digit(h.length, 4, i - 8)
    else if i < 20 then Digit(h.sequence, 8, i - 12)
    else if i < 28 then Digit(h.monotonicNs, 8, i - 20)
    else Digit(h.crc, 4, i - 28)
  }

  function HeaderBytes(h: Header): (s: seq<Byte>)
    ensures |s| == HEADER_SIZE
  {
    seq(HEADER_SIZE, i requires 0 <= i < HEADER_SIZE => HeaderByte(h, i))
  }

  /** The length field is the payload size cast to 32 bits. */
  function HeaderOf(c: Codec, p: Packet): Header {
    Header(p.kind, p.flags, |p.payload| % U32_LIMIT, p.sequence, p.monotonicNs, c.crc(p.payload))
  }

  function Encode(c: Codec, p: Packet): (s: seq<Byte>)
    ensures |s| == HEADER_SIZE + |p.payload|
  {
    HeaderBytes(HeaderOf(c, p)) + p.payload
  }

  /** A packet that the parser can receive, with a length that fits its field. */
  predicate Fits(c: Codec, p: Packet) {
    |p.payload| <= c.limit && |p.payload| < U32_LIMIT
  }

  // ---------------------------------------------------------------- decoding

  function ReadU16(s: seq<Byte>, at: nat): U16
    requires at + 2 <= |s|
  {
    Pow256Values();
    Field(s, at, 2)
  }

  function ReadU32(s: seq<Byte>, at: nat): U32
    requires at + 4 <= |s|
  {
    Pow256Values();
    Field(s, at, 4)
  }

  function ReadU64(s: seq<Byte>, at: nat): U64
    requires at + 8 <= |s|
  {
    Pow256Values();
    Field(s, at, 8)
  }

  /** The checks on a header, in the order in which both parsers make them. */
  function ParseHeader(s: seq<Byte>, limit: nat): Result<Header, Fault>
    requires |s| >= HEADER_SIZE
  {
    if !(s[0] == MAGIC[0] && s[1] == MAGIC[1] && s[2] == MAGIC[2] && s[3] == MAGIC[3]) then Failure(BadMagic)
    else if s[4] != VERSION then Failure(BadVersion)
    else if !Known(s[5]) then Failure(UnknownKind)
    else if ReadU32(s, 8) > limit then Failure(TooLong)
    else Success(HeaderFields(s))
  }

  function HeaderFields(s: seq<Byte>): Header
    requires |s| >= HEADER_SIZE && Known(s[5])
  {
    Header(s[5], ReadU16(s, 6), ReadU32(s, 8), ReadU64(s, 12), ReadU64(s, 20), ReadU32(s, 28))
  }

  function PacketOf(h: Header, payload: seq<Byte>): Packet {
    Packet(h.kind, h.flags, h.sequence, h.monotonicNs, payload)
  }

  /** What the front of a stream holds.  `size` is the length of the packet, and `skip` the part
      of a malformed packet that had to be read before it was found malformed. */
  datatype Front = NeedMore | Malformed(fault: Fault, skip: nat) | Ready(packet: Packet, size: nat)

  function ReadFront(c: Codec, s: seq<Byte>): (f: Front)
    ensures f.Malformed? ==> HEADER_SIZE <= f.skip <= |s|
    ensures f.Ready? ==> HEADER_SIZE <= f.size <= |s|
  {
    if |s| < HEADER_SIZE then NeedMore
    else match ParseHeader(s, c.limit)
      case Failure(fault) => Malformed(fault, HEADER_SIZE)
      case Success(h) =>
        if |s| < HEADER_SIZE + h.length then NeedMore
        else
          var payload := s[HEADER_SIZE..HEADER_SIZE + h.length];
          if c.crc(payload) != h.crc then Malformed(BadCrc, HEADER_SIZE + h.length)
          else Ready(PacketOf(h, payload), HEADER_SIZE + h.length)
  }

  // ---------------------------------------------------------------- header round trips

  ghost predicate Layout(s: seq<Byte>, h: Header)
    requires |s| >= HEADER_SIZE
  {
    && s[0] == MAGIC[0] && s[1] == MAGIC[1] && s[2] == MAGIC[2] && s[3] == MAGIC[3]
    && s[4] == VERSION && s[5] == h.kind
    && Holds(s, 6, 2, h.flags) && Holds(s, 8, 4, h.length)
    && Holds(s, 12, 8, h.sequence) && Holds(s, 20, 8, h.monotonicNs) && Holds(s, 28, 4, h.crc)
  }

  lemma LayoutOfHeader(h: Header, tail: seq<Byte>)
    ensures Layout(HeaderBytes(h) + tail, h)
  {
  }

  lemma FieldsOfLayout(s: seq<Byte>, h: Header)
    requires |s| >= HEADER_SIZE && Layout(s, h)
    ensures HeaderFields(s) == h
  {
    Pow256Values();
    ReadOfWrite(s, 6, 2, h.flags);
    ReadOfWrite(s, 8, 4, h.length);
    ReadOfWrite(s, 12, 8, h.sequence);
    ReadOfWrite(s, 20, 8, h.monotonicNs);
    ReadOfWrite(s, 28, 4, h.crc);
  }

  /** A header written by either encoder is read back field by field. */
  lemma HeaderRoundTrip(h: Header, tail: seq<Byte>, limit: nat)
    ensures ParseHeader(HeaderBytes(h) + tail, limit) == if h.length > limit then Failure(TooLong) else Success(h)
  {
    LayoutOfHeader(h, tail);
    FieldsOfLayout(HeaderBytes(h) + tail, h);
  }

  lemma LayoutOfAccepted(s: seq<Byte>, limit: nat)
    requires |s| >= HEADER_SIZE && ParseHeader(s, limit).Success?
    ensures Layout(s, HeaderFields(s))
  {
    WriteOfRead(s, 6, 2);
    WriteOfRead(s, 8, 4);
    WriteOfRead(s, 12, 8);
    WriteOfRead(s, 20, 8);
    WriteOfRead(s, 28, 4);
  }

  lemma LayoutIsUnique(s: seq<Byte>, h: Header)
    requires |s| >= HEADER_SIZE && Layout(s, h)
    ensures s[..HEADER_SIZE] == HeaderBytes(h)
  {
    forall i | 0 <= i < HEADER_SIZE ensures s[i] == HeaderByte(h, i) {
    }
  }

  /** An accepted header is the only byte string that encodes its fields. */
  lemma HeaderIsCanonical(s: seq<Byte>, limit: nat)
    requires |s| >= HEADER_SIZE && ParseHeader(s, limit).Success?
    ensures HeaderBytes(ParseHeader(s, limit).value) == s[..HEADER_SIZE]
  {
    LayoutOfAccepted(s, limit);
    LayoutIsUnique(s, HeaderFields(s));
  }

  // ---------------------------------------------------------------- packets

  /** What follows an acceptable header decides between a packet and a wrong checksum. */
  lemma FrontAfterHeader(c: Codec, h: Header, rest: seq<Byte>)
    requires h.length <= c.limit && h.length <= |rest|
    ensures var payload, size := rest[..h.length], HEADER_SIZE + h.length;
            && ReadFront(c, HeaderBytes(h) + rest) ==
               (if c.crc(payload) != h.crc then Malformed(BadCrc, size) else Ready(PacketOf(h, payload), size))
            && (HeaderBytes(h) + rest)[size..] == rest[h.length..]
  {
    var s := HeaderBytes(h) + rest;
    HeaderRoundTrip(h, rest, c.limit);
    assert s[HEADER_SIZE..HEADER_SIZE + h.length] == rest[..h.length];
  }

  lemma FrontOfEncoded(c: Codec, p: Packet, tail: seq<Byte>)
    requires Fits(c, p)
    ensures ReadFront(c, Encode(c, p) + tail) == Ready(p, |Encode(c, p)|)
  {
    assert Encode(c, p) + tail == HeaderBytes(HeaderOf(c, p)) + (p.payload + tail);
    FrontAfterHeader(c, HeaderOf(c, p), p.payload + tail);
    assert (p.payload + tail)[..|p.payload|] == p.payload;
  }

  lemma HeaderOfPacket(c: Codec, h: Header, payload: seq<Byte>)
    requires |payload| == h.length && c.crc(payload) == h.crc
    ensures Encode(c, PacketOf(h, payload)) == HeaderBytes(h) + payload
  {
    assert HeaderOf(c, PacketOf(h, payload)) == h;
  }

  lemma EncodedIsCanonical(c: Codec, s: seq<Byte>)
    requires ReadFront(c, s).Ready?
    ensures var f := ReadFront(c, s); Fits(c, f.packet) && s[..f.size] == Encode(c, f.packet)
  {
    HeaderIsCanonical(s, c.limit);
    var h := ParseHeader(s, c.limit).value;
    var payload := s[HEADER_SIZE..HEADER_SIZE + h.length];
    HeaderOfPacket(c, h, payload);
    assert s[..HEADER_SIZE + h.length] == s[..HEADER_SIZE] + payload;
  }

  /** The bytes of a packet short of its end are an incomplete packet. */
  lemma PrefixNeedsMore(c: Codec, p: Packet, n: nat)
    requires Fits(c, p) && n < |Encode(c, p)|
    ensures ReadFront(c, Encode(c, p)[..n]) == NeedMore
  {
    var s := Encode(c, p)[..n];
    if n >= HEADER_SIZE {
      assert s == HeaderBytes(HeaderOf(c, p)) + p.payload[..n - HEADER_SIZE];
      HeaderRoundTrip(HeaderOf(c, p), p.payload[..n - HEADER_SIZE], c.limit);
    }
  }

  /** More bytes never change what the front of a stream has been read as. */
  lemma FrontIsStable(c: Codec, s: seq<Byte>, more: seq<Byte>)
    requires !ReadFront(c, s).NeedMore?
    ensures ReadFront(c, s + more) == ReadFront(c, s)
  {
    var t := s + more;
    HeaderIsStable(c, s, t);
    if ParseHeader(s, c.limit).Success? {
      var n := ParseHeader(s, c.limit).value.length;
      assert t[HEADER_SIZE..HEADER_SIZE + n] == s[HEADER_SIZE..HEADER_SIZE + n];
    }
  }

  lemma HeaderIsStable(c: Codec, s: seq<Byte>, t: seq<Byte>)
    requires |s| >= HEADER_SIZE && s <= t
    ensures ParseHeader(t, c.limit) == ParseHeader(s, c.limit)
  {
    FieldIsLocal(s, t, 6, 2);
    FieldIsLocal(s, t, 8, 4);
    FieldIsLocal(s, t, 12, 8);
    FieldIsLocal(s, t, 20, 8);
    FieldIsLocal(s, t, 28, 4);
  }

  /** A wrong checksum is found out as soon as the packet is complete. */
  lemma WrongChecksumRejected(c: Codec, p: Packet, bad: seq<Byte>, tail: seq<Byte>)
    requires Fits(c, p) && |bad| == |p.payload| && c.crc(bad) != c.crc(p.payload)
    ensures ReadFront(c, HeaderBytes(HeaderOf(c, p)) + (bad + tail)) == Malformed(BadCrc, HEADER_SIZE + |bad|)
  {
    var s := HeaderBytes(HeaderOf(c, p)) + (bad + tail);
    HeaderRoundTrip(HeaderOf(c, p), bad + tail, c.limit);
    assert s[HEADER_SIZE..HEADER_SIZE + |bad|] == bad;
  }
}
