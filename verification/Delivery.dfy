/** From the sender's numbering to the receiver's sequence gate: what the laptop dispatches is what
    the device sent, once each and in order. */
module Delivery {
  import opened Bytes
  import opened Crc32
  import opened Protocol
  import opened Streams
  import opened Sessions
  import opened Wrappers

  // ---------------------------------------------------------------- the sender

  datatype RangeError = FieldOutOfRange

  /** `struct.pack` raises for a field that does not fit. */
  predicate Packable(payload: seq<Byte>, sequence: int, monotonicNs: int, flags: int) {
    0 <= flags < U16_LIMIT && |payload| < U32_LIMIT && 0 <= sequence < U64_LIMIT && 0 <= monotonicNs < U64_LIMIT
  }

  function EncodePacket(c: Codec, kind: Kind, payload: seq<Byte>, sequence: int, monotonicNs: int, flags: int)
    : Result<seq<Byte>, RangeError>
  {
    if Packable(payload, sequence, monotonicNs, flags)
    then Success(Encode(c, Packet(kind, flags, sequence, monotonicNs, payload)))
    else Failure(FieldOutOfRange)
  }

  /** Whatever `encode_packet` does not refuse, and fits the receiver's limit, is read back as the
      arguments of the call, from any stream it begins. */
  lemma EncodePacketReadsBack(c: Codec, kind: Kind, payload: seq<Byte>, sequence: int,
                            monotonicNs: int, flags: int, tail: seq<Byte>)
    requires EncodePacket(c, kind, payload, sequence, monotonicNs, flags).Success? && |payload| <= c.limit
    ensures var f := ReadFront(c, EncodePacket(c, kind, payload, sequence, monotonicNs, flags).value + tail);
            f.Ready? && f.packet.kind == kind && f.packet.payload == payload && f.packet.sequence == sequence &&
            f.packet.monotonicNs == monotonicNs && f.packet.flags == flags && f.size == HEADER_SIZE + |payload|
  {
    FrontOfEncoded(c, Packet(kind, flags, sequence, monotonicNs, payload), tail);
  }

  datatype Item = Item(kind: Kind, payload: seq<Byte>, monotonicNs: U64)

  predicate Sendable(first: nat, items: seq<Item>) {
    first + |items| <= U64_LIMIT && forall i :: 0 <= i < |items| ==> |items[i].payload| < U32_LIMIT
  }

  /** The packets made of the items, numbered upward from `first`. */
  function Numbered(first: nat, items: seq<Item>): (ps: seq<Packet>)
    requires first + |items| <= U64_LIMIT
    ensures |ps| == |items|
  {
    seq(|items|, i requires 0 <= i < |items| =>
        Packet(items[i].kind, 0, first + i, items[i].monotonicNs, items[i].payload))
  }

  // ---------------------------------------------------------------- the receiver

  /** One device connection.  Authentication and the handling of a packet's contents are foreign:
      `auth` says whether a HELLO is accepted and `accepts` whether dispatching raises nothing. */
  datatype Link = Link(authenticated: bool, lastSequence: int, dispatched: seq<Packet>, open: bool)

  const FRESH := Link(false, -1, [], true)

  function Receive(auth: Packet -> bool, accepts: Packet -> bool, l: Link, p: Packet): Link {
    if !l.open || p.sequence <= l.lastSequence then l
    else
      var m := l.(lastSequence := p.sequence);
      if !l.authenticated then
        if p.kind == HELLO && auth(p) then m.(authenticated := true) else m.(open := false)
      else if accepts(p) then m.(dispatched := l.dispatched + [p])
      else m.(open := false)
  }

  function ReceiveAll(auth: Packet -> bool, accepts: Packet -> bool, l: Link, ps: seq<Packet>): Link
    decreases |ps|
  {
    if ps == [] then l else ReceiveAll(auth, accepts, Receive(auth, accepts, l, ps[0]), ps[1..])
  }

  class Connection {
    var authenticated: bool
    var lastSequence: int
    var dispatched: seq<Packet>
    var open: bool

    constructor ()
      ensures View() == FRESH
    {
      authenticated, lastSequence, dispatched, open := false, -1, [], true;
    }

    function View(): Link
      reads this
    {
      Link(authenticated, lastSequence, dispatched, open)
    }

    /** The loop over the packets of one chunk. */
    method HandlePackets(auth: Packet -> bool, accepts: Packet -> bool, packets: seq<Packet>)
      requires open
      modifies this
      ensures View() == ReceiveAll(auth, accepts, old(View()), packets)
    {
      var i := 0;
      while i < |packets|
        invariant i <= |packets| && open
        invariant ReceiveAll(auth, accepts, View(), packets[i..]) == ReceiveAll(auth, accepts, old(View()), packets)
      {
        var p := packets[i];
        assert packets[i..][1..] == packets[i + 1..];
        i := i + 1;
        if p.sequence <= lastSequence {
          continue;
        }
        lastSequence := p.sequence;
        if !authenticated {
          if p.kind != HELLO || !auth(p) {
            open := false;
            ClosedStaysClosed(auth, accepts, View(), packets[i..]);
            return;
          }
          authenticated := true;
          continue;
        }
        if !accepts(p) {
          open := false;
          ClosedStaysClosed(auth, accepts, View(), packets[i..]);
          return;
        }
        dispatched := dispatched + [p];
      }
    }
  }

  lemma {:induction false} ClosedStaysClosed(auth: Packet -> bool, accepts: Packet -> bool, l: Link, ps: seq<Packet>)
    requires !l.open
    ensures ReceiveAll(auth, accepts, l, ps) == l
    decreases |ps|
  {
    if ps != [] {
      ClosedStaysClosed(auth, accepts, l, ps[1..]);
    }
  }

  predicate Increasing(ps: seq<Packet>) {
    forall i, j :: 0 <= i < j < |ps| ==> ps[i].sequence < ps[j].sequence
  }

  /** What the gate lets through never exceeds the last number seen. */
  ghost predicate GateInvariant(l: Link) {
    Increasing(l.dispatched) && forall i :: 0 <= i < |l.dispatched| ==> l.dispatched[i].sequence <= l.lastSequence
  }

  /** Whatever arrives, in whatever order and however often repeated, no packet is dispatched
      twice and none out of order. */
  lemma {:induction false} DispatchedInOrder(auth: Packet -> bool, accepts: Packet -> bool, l: Link, ps: seq<Packet>)
    requires GateInvariant(l)
    ensures var m := ReceiveAll(auth, accepts, l, ps);
            GateInvariant(m) && l.dispatched <= m.dispatched && l.lastSequence <= m.lastSequence &&
            (forall p :: p in m.dispatched ==> p in l.dispatched || p in ps)
    decreases |ps|
  {
    if ps != [] {
      DispatchedInOrder(auth, accepts, Receive(auth, accepts, l, ps[0]), ps[1..]);
    }
  }

  /** A strictly increasing sequence passes the gate whole. */
  lemma {:induction false} NothingDropped(auth: Packet -> bool, accepts: Packet -> bool, l: Link, ps: seq<Packet>)
    requires l.open && l.authenticated && Increasing(ps) && (ps != [] ==> l.lastSequence < ps[0].sequence)
    requires forall p :: p in ps ==> accepts(p)
    ensures var m := ReceiveAll(auth, accepts, l, ps); m.open && m.dispatched == l.dispatched + ps
    decreases |ps|
  {
    if ps != [] {
      assert accepts(ps[0]);
      var m := Receive(auth, accepts, l, ps[0]);
      NothingDropped(auth, accepts, m, ps[1..]);
      assert l.dispatched + ps == (l.dispatched + [ps[0]]) + ps[1..];
    }
  }

  /** End to end: items numbered by the sender, in a stream cut into chunks of at most `chunk` bytes,
      are dispatched by the receiver exactly once each, in order, right after the HELLO. */
  lemma EndToEnd(
    limit: nat, auth: Packet -> bool, accepts: Packet -> bool, first: nat, items: seq<Item>, payload: nat, chunk: nat,
    chunks: seq<seq<Byte>>)
    requires Sendable(first, items) && items != [] && payload <= limit
    requires forall i :: 0 <= i < |items| ==> |items[i].payload| <= payload
    requires Bound(ConsumeHeader, payload, chunk, limit) && Small(chunks, chunk)
    requires Concat(chunks) == EncodeAll(WireOf(Codec(limit, Crc)), Numbered(first, items))
    requires var ps := Numbered(first, items);
             ps[0].kind == HELLO && auth(ps[0]) && forall p :: p in ps[1..] ==> accepts(p)
    ensures var ps := Numbered(first, items);
            Session(WireOf(Codec(limit, Crc)), limit, ConsumeHeader, [], chunks) == Outcome(ps, None, []) &&
            ReceiveAll(auth, accepts, FRESH, ps).dispatched == ps[1..] && ReceiveAll(auth, accepts, FRESH, ps).open
  {
    ProgramPacketsArrive(Codec(limit, Crc), ConsumeHeader, payload, chunk, Numbered(first, items), chunks);
    HelloThenAll(auth, accepts, Numbered(first, items));
  }

  predicate AllWithin(ps: seq<Packet>, payload: nat) {
    forall i :: 0 <= i < |ps| ==> |ps[i].payload| <= payload && |ps[i].payload| < U32_LIMIT
  }

  /** Within the bound, packets arrive as themselves through either parser of the program. */
  lemma ProgramPacketsArrive(c: Codec, style: Style, payload: nat, chunk: nat, ps: seq<Packet>, chunks: seq<seq<Byte>>)
    requires payload <= c.limit && AllWithin(ps, payload)
    requires Bound(style, payload, chunk, c.limit) && Small(chunks, chunk)
    requires Concat(chunks) == EncodeAll(WireOf(c), ps)
    ensures Session(WireOf(c), c.limit, style, [], chunks) == Outcome(ps, None, [])
  {
    WireIsLawful(c);
    FitForWire(c, ps, payload);
    PacketsArrive(WireOf(c), c.limit, style, payload, chunk, ps, chunks);
  }

  /** And so do those before a packet that a broken connection cut off. */
  lemma ProgramCutStreamArrives(c: Codec, style: Style, payload: nat, chunk: nat, ps: seq<Packet>, broken: Packet,
                                tail: seq<Byte>, chunks: seq<seq<Byte>>)
    requires payload <= c.limit && AllWithin(ps + [broken], payload)
    requires Bound(style, payload, chunk, c.limit) && Small(chunks, chunk)
    requires tail <= WireOf(c).encode(broken) && tail != WireOf(c).encode(broken)
    requires Concat(chunks) == EncodeAll(WireOf(c), ps) + tail
    ensures Session(WireOf(c), c.limit, style, [], chunks) == Outcome(ps, None, tail)
  {
    WireIsLawful(c);
    FitForWire(c, ps + [broken], payload);
    CutStreamArrives(WireOf(c), c.limit, style, payload, chunk, ps, broken, tail, chunks);
  }

  /** After an accepted HELLO, strictly increasing packets are all dispatched. */
  lemma HelloThenAll(auth: Packet -> bool, accepts: Packet -> bool, ps: seq<Packet>)
    requires Increasing(ps) && ps != [] && ps[0].kind == HELLO && auth(ps[0]) && forall p :: p in ps[1..] ==> accepts(p)
    ensures var l := ReceiveAll(auth, accepts, FRESH, ps); l.dispatched == ps[1..] && l.open
  {
    NothingDropped(auth, accepts, Receive(auth, accepts, FRESH, ps[0]), ps[1..]);
    assert [] + ps[1..] == ps[1..];
  }

  lemma FitForWire(c: Codec, ps: seq<Packet>, payload: nat)
    requires payload <= c.limit && AllWithin(ps, payload)
    ensures Short(WireOf(c), ps, payload) && WireOf(c).read([]).NeedMore?
  {
  }
}
