/** The meaning of a byte stream: one recursive decoder of whole streams, against which the two
    incremental parsers are proved for every way of cutting the stream into chunks. */
module Streams {
  import opened Bytes
  import opened Protocol
  import Crc32

  /** The wire format, reduced to what streams need to know about it. */
  datatype Wire = Wire(read: seq<Byte> -> Front, encode: Packet -> seq<Byte>, fits: Packet -> bool)

  /** What has been read at the front of a stream does not change when more bytes follow. */
  ghost predicate Stable(w: Wire) {
    forall s, t :: !w.read(s).NeedMore? ==> w.read(s + t) == w.read(s)
  }

  /** An encoded packet is read back, whatever follows it. */
  ghost predicate ReadsBack(w: Wire) {
    forall p, t :: w.fits(p) ==> w.read(w.encode(p) + t) == Ready(p, |w.encode(p)|)
  }

  /** Only encoded packets are accepted. */
  ghost predicate Canonical(w: Wire) {
    forall s :: w.read(s).Ready? ==>
      w.fits(w.read(s).packet) && w.read(s).size <= |s| && s[..w.read(s).size] == w.encode(w.read(s).packet)
  }

  /** Part of a packet is not a packet, nor a fault. */
  ghost predicate PrefixFree(w: Wire) {
    forall p, n :: w.fits(p) && 0 <= n < |w.encode(p)| ==> w.read(w.encode(p)[..n]).NeedMore?
  }

  ghost predicate Sized(w: Wire) {
    forall s :: InRange(w.read(s), s)
  }

  predicate InRange(f: Front, s: seq<Byte>) {
    match f
    case NeedMore => true
    case Malformed(_, skip) => skip <= |s|
    case Ready(_, size) => 0 < size <= |s|
  }

  ghost predicate Lawful(w: Wire) {
    Sized(w) && Stable(w) && ReadsBack(w) && Canonical(w) && PrefixFree(w)
  }

  /** The wire format of the program, with any limit and any checksum. */
  function WireOf(c: Codec): Wire {
    Wire(s => ReadFront(c, s), p => Encode(c, p), p => Fits(c, p))
  }

  lemma WireIsLawful(c: Codec)
    ensures Lawful(WireOf(c))
  {
    var w := WireOf(c);
    forall s ensures InRange(w.read(s), s) {
      assert w.read(s) == ReadFront(c, s);
    }
    forall s, t | !w.read(s).NeedMore? ensures w.read(s + t) == w.read(s) {
      FrontIsStable(c, s, t);
    }
    forall p, t | w.fits(p) ensures w.read(w.encode(p) + t) == Ready(p, |w.encode(p)|) {
      FrontOfEncoded(c, p, t);
    }
    forall s | w.read(s).Ready?
      ensures w.fits(w.read(s).packet) && w.read(s).size <= |s| && s[..w.read(s).size] == w.encode(w.read(s).packet)
    {
      EncodedIsCanonical(c, s);
    }
    forall p, n | w.fits(p) && 0 <= n < |w.encode(p)| ensures w.read(w.encode(p)[..n]).NeedMore? {
      PrefixNeedsMore(c, p, n);
    }
  }

  // ---------------------------------------------------------------- whole streams

  /** What is left of a stream: an incomplete packet, or everything from the first malformed packet on. */
  datatype End = Rest(bytes: seq<Byte>) | Broken(fault: Fault, skip: nat, bytes: seq<Byte>)

  datatype Decoded = Decoded(packets: seq<Packet>, end: End)

  function Decode(w: Wire, s: seq<Byte>): Decoded
    decreases |s|
  {
    match w.read(s)
    case NeedMore => Decoded([], Rest(s))
    case Malformed(fault, skip) => Decoded([], Broken(fault, skip, s))
    case Ready(p, size) =>
      if !(0 < size <= |s|) then Decoded([], Rest(s))
      else
        var d := Decode(w, s[size..]);
        Decoded([p] + d.packets, d.end)
  }

  /** The meaning of a stream in the program's own format. */
  function DecodeStream(c: Codec, s: seq<Byte>): Decoded {
    Decode(WireOf(c), s)
  }

  /** The result of decoding `s` when `taken` has been decoded before it. */
  function Resume(w: Wire, taken: seq<Packet>, s: seq<Byte>): Decoded
  {
    Decoded(taken + Decode(w, s).packets, Decode(w, s).end)
  }

  lemma TakeOne(w: Wire, taken: seq<Packet>, s: seq<Byte>)
    requires w.read(s).Ready? && 0 < w.read(s).size <= |s|
    ensures Resume(w, taken, s) == Resume(w, taken + [w.read(s).packet], s[w.read(s).size..])
  {
    var f := w.read(s);
    var d := Decode(w, s[f.size..]);
    assert taken + ([f.packet] + d.packets) == (taken + [f.packet]) + d.packets;
  }

  lemma TakeNothing(w: Wire, taken: seq<Packet>, s: seq<Byte>)
    ensures w.read(s).NeedMore? ==> Resume(w, taken, s) == Decoded(taken, Rest(s))
    ensures w.read(s).Malformed? ==>
              var f := w.read(s); Resume(w, taken, s) == Decoded(taken, Broken(f.fault, f.skip, s))
  {
    assert taken + [] == taken;
  }

  lemma ResumeFromStart(w: Wire, s: seq<Byte>)
    ensures Resume(w, [], s) == Decode(w, s)
  {
    assert [] + Decode(w, s).packets == Decode(w, s).packets;
  }

  function EncodeAll(w: Wire, ps: seq<Packet>): seq<Byte>
    decreases |ps|
  {
    if ps == [] then [] else w.encode(ps[0]) + EncodeAll(w, ps[1..])
  }

  predicate AllFit(w: Wire, ps: seq<Packet>) {
    forall i :: 0 <= i < |ps| ==> w.fits(ps[i])
  }

  lemma DecodeOne(w: Wire, s: seq<Byte>)
    requires w.read(s).Ready? && 0 < w.read(s).size <= |s|
    ensures var f := w.read(s); Decode(w, s) == After([f.packet], Decode(w, s[f.size..]))
  {
  }

  /** A decoding with packets put before it. */
  function After(ps: seq<Packet>, d: Decoded): Decoded {
    d.(packets := ps + d.packets)
  }

  lemma AfterAfter(a: seq<Packet>, b: seq<Packet>, d: Decoded)
    ensures After(a, After(b, d)) == After(a + b, d) && After([], d) == d
  {
    assert a + (b + d.packets) == (a + b) + d.packets;
    assert [] + d.packets == d.packets;
  }

  lemma DecodeOneMore(w: Wire, s: seq<Byte>, more: seq<Byte>)
    requires Sized(w) && Stable(w) && w.read(s).Ready?
    ensures var f := w.read(s);
            0 < f.size <= |s| && Decode(w, s + more) == After([f.packet], Decode(w, s[f.size..] + more))
  {
    var f := w.read(s);
    assert InRange(f, s);
    assert w.read(s + more) == f;
    assert (s + more)[f.size..] == s[f.size..] + more;
    DecodeOne(w, s + more);
  }

  /** Decoding a longer stream continues from where decoding its first part stopped. */
  lemma {:induction false} DecodeContinues(w: Wire, s: seq<Byte>, more: seq<Byte>)
    requires Sized(w) && Stable(w)
    ensures var d := Decode(w, s);
            match d.end
            case Broken(fault, skip, bad) => Decode(w, s + more) == Decoded(d.packets, Broken(fault, skip, bad + more))
            case Rest(r) => Decode(w, s + more) == After(d.packets, Decode(w, r + more))
    decreases |s|
  {
    var f := w.read(s);
    match f {
      case NeedMore =>
        AfterAfter([], [], Decode(w, s + more));
      case Malformed(_, _) =>
        assert w.read(s + more) == f;
      case Ready(p, size) =>
        DecodeOneMore(w, s, more);
        DecodeOne(w, s);
        DecodeContinues(w, s[size..], more);
        var d := Decode(w, s[size..]);
        AfterAfter([p], d.packets, Decode(w, d.end.bytes + more));
    }
  }

  lemma EncodeCons(w: Wire, p: Packet, ps: seq<Packet>, rest: seq<Byte>, s: seq<Byte>, size: nat)
    requires size <= |s| && s[..size] == w.encode(p) && s[size..] == EncodeAll(w, ps) + rest
    ensures s == EncodeAll(w, [p] + ps) + rest
  {
    assert ([p] + ps)[1..] == ps;
    assert s == s[..size] + s[size..];
    assert w.encode(p) + (EncodeAll(w, ps) + rest) == (w.encode(p) + EncodeAll(w, ps)) + rest;
  }

  /** What is left of a stream is an incomplete packet, or begins with a malformed one. */
  lemma {:induction false} EndOfDecode(w: Wire, s: seq<Byte>)
    requires Sized(w) && Canonical(w)
    ensures var d := Decode(w, s);
            s == EncodeAll(w, d.packets) + d.end.bytes && AllFit(w, d.packets) &&
            match d.end
            case Rest(r) => w.read(r) == NeedMore
            case Broken(fault, skip, bad) => w.read(bad) == Malformed(fault, skip)
    decreases |s|
  {
    var f := w.read(s);
    assert InRange(f, s);
    if f.Ready? {
      DecodeOne(w, s);
      EndOfDecode(w, s[f.size..]);
      var d := Decode(w, s[f.size..]);
      EncodeCons(w, f.packet, d.packets, d.end.bytes, s, f.size);
    }
  }

  lemma DecodeEncoded(w: Wire, p: Packet, more: seq<Byte>)
    requires Sized(w) && ReadsBack(w) && w.fits(p)
    ensures Decode(w, w.encode(p) + more) == After([p], Decode(w, more))
  {
    var s := w.encode(p) + more;
    assert w.read(s) == Ready(p, |w.encode(p)|);
    assert InRange(w.read(s), s);
    assert s[|w.encode(p)|..] == more;
    DecodeOne(w, s);
  }

  /** Any list of packets decodes to exactly itself, and what follows decodes as if it were alone. */
  lemma {:induction false} StreamRoundTrip(w: Wire, ps: seq<Packet>, tail: seq<Byte>)
    requires Sized(w) && ReadsBack(w) && AllFit(w, ps)
    ensures Decode(w, EncodeAll(w, ps) + tail) == After(ps, Decode(w, tail))
    decreases |ps|
  {
    if ps == [] {
      assert EncodeAll(w, ps) + tail == tail;
      AfterAfter([], [], Decode(w, tail));
    } else {
      var more := EncodeAll(w, ps[1..]) + tail;
      assert EncodeAll(w, ps) + tail == w.encode(ps[0]) + more;
      DecodeEncoded(w, ps[0], more);
      StreamRoundTrip(w, ps[1..], tail);
      AfterAfter([ps[0]], ps[1..], Decode(w, tail));
      assert ps == [ps[0]] + ps[1..];
    }
  }

  /** The decoder is characterised without mentioning how it works: it returns `ps` and the
      incomplete packet `r` exactly when the stream is the encoding of `ps` followed by `r`. */
  lemma DecodeIsInverse(w: Wire, s: seq<Byte>, ps: seq<Packet>, r: seq<Byte>)
    requires Lawful(w)
    ensures Decode(w, s) == Decoded(ps, Rest(r)) <==>
            s == EncodeAll(w, ps) + r && AllFit(w, ps) && w.read(r) == NeedMore
  {
    EndOfDecode(w, s);
    if s == EncodeAll(w, ps) + r && AllFit(w, ps) && w.read(r) == NeedMore {
      StreamRoundTrip(w, ps, r);
      assert ps + [] == ps;
    }
  }

  lemma MalformedAfter(w: Wire, ps: seq<Packet>, s: seq<Byte>, fault: Fault, skip: nat)
    requires Sized(w) && ReadsBack(w) && AllFit(w, ps) && w.read(s) == Malformed(fault, skip)
    ensures Decode(w, EncodeAll(w, ps) + s) == Decoded(ps, Broken(fault, skip, s))
  {
    StreamRoundTrip(w, ps, s);
    assert ps + [] == ps;
  }

  /** The bytes of a packet whose payload has been replaced on the way. */
  function Corrupted(c: Codec, p: Packet, bad: seq<Byte>): seq<Byte> {
    HeaderBytes(HeaderOf(c, p)) + bad
  }

  lemma WrongPayloadRejected(c: Codec, ps: seq<Packet>, p: Packet, bad: seq<Byte>, tail: seq<Byte>)
    requires AllFit(WireOf(c), ps) && Fits(c, p) && |bad| == |p.payload| && c.crc(bad) != c.crc(p.payload)
    ensures var d := DecodeStream(c, EncodeAll(WireOf(c), ps) + (Corrupted(c, p, bad) + tail));
            d.packets == ps && d.end.Broken? && d.end.fault == BadCrc
  {
    var s := Corrupted(c, p, bad) + tail;
    assert s == HeaderBytes(HeaderOf(c, p)) + (bad + tail);
    WrongChecksumRejected(c, p, bad, tail);
    assert WireOf(c).read(s) == Malformed(BadCrc, HEADER_SIZE + |bad|);
    WireIsLawful(c);
    MalformedAfter(WireOf(c), ps, s, BadCrc, HEADER_SIZE + |bad|);
  }

  /** Corruption of a payload inside four consecutive bytes is always rejected, at that packet. */
  lemma CorruptionRejected(c: Codec, ps: seq<Packet>, p: Packet, bad: seq<Byte>,
                           start: nat, width: nat, tail: seq<Byte>)
    requires c == Codec(c.limit, Crc32.Crc) && AllFit(WireOf(c), ps) && Fits(c, p)
    requires Crc32.Burst(p.payload, bad, start, width) && width <= 4
    ensures var d := DecodeStream(c, EncodeAll(WireOf(c), ps) + (Corrupted(c, p, bad) + tail));
            d.packets == ps && d.end.Broken? && d.end.fault == BadCrc
  {
    assert c.crc(bad) != c.crc(p.payload) by {
      Crc32.CrcDetectsBurst(p.payload, bad, start, width);
    }
    WrongPayloadRejected(c, ps, p, bad, tail);
  }
}
