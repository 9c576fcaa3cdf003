/** The device's sender: consecutive numbers, connections that break, and reconnections. */
module EdgeStream {
  import opened Bytes
  import opened Crc32
  import opened Protocol
  import opened Streams
  import opened Sessions
  import opened Delivery
  import opened Wrappers

  /** How an attempt to connect ends: without a connection, with a connection on which the HELLO or its
      acknowledgement failed or on which the acknowledgement was not JSON, or accepted.  A packet whose
      sending fails may have arrived all the same. */
  datatype Greeting = Unreachable | HelloFailed(arrived: bool) | AckUnreadable(arrived: bool) | HelloAccepted

  datatype Transfer = Transferred | Failed(arrived: bool)

  /** `links` holds, for every connection in turn, the packets that arrived on it whole. */
  datatype Sender = Sender(sequence: nat, connected: bool, nextReconnect: real, links: seq<seq<Packet>>)

  const IDLE := Sender(1, false, 0.0, [])

  /** What the caller of `connect` and `send` sees raised: a field that does not fit its place, or an
      acknowledgement that is not JSON. */
  datatype SendError = NotPacked(error: RangeError) | NotJson

  predicate Packs(item: Item, sequence: nat) {
    sequence < U64_LIMIT && |item.payload| < U32_LIMIT
  }

  function Made(item: Item, sequence: nat): Packet
    requires Packs(item, sequence)
  {
    Packet(item.kind, 0, sequence, item.monotonicNs, item.payload)
  }

  function OnLast(links: seq<seq<Packet>>, p: Packet): seq<seq<Packet>> {
    if links == [] then links else links[|links| - 1 := links[|links| - 1] + [p]]
  }

  const BACKOFF := 2.0

  /** `connect` at `now`; a failure is noticed at `later`. */
  function Connected(s: Sender, hello: Item, now: real, later: real, g: Greeting): Sender {
    if now < s.nextReconnect then s
    else if g.Unreachable? then s.(connected := false, nextReconnect := later + BACKOFF)
    else if !Packs(hello, s.sequence) then s
    else
      var p := Made(hello, s.sequence);
      Sender(
        sequence := s.sequence + 1,
        connected := g.HelloAccepted? || (g.AckUnreadable? && s.connected),
        nextReconnect := if g.HelloFailed? then later + BACKOFF else s.nextReconnect,
        links := s.links + [if g.HelloAccepted? || g.arrived then [p] else []])
  }

  /** `send` on an open connection. */
  function Transmitted(s: Sender, item: Item, later: real, t: Transfer): Sender {
    if !Packs(item, s.sequence) then s
    else
      var p := Made(item, s.sequence);
      var arrived := t.Transferred? || t.arrived;
      Sender(
        sequence := s.sequence + 1,
        connected := t.Transferred?,
        nextReconnect := if t.Transferred? then s.nextReconnect else later + BACKOFF,
        links := if arrived then OnLast(s.links, p) else s.links)
  }

  /** A call of `connect` without a connection, or of `send`, with what the network does to it. */
  datatype Call =
    | Dial(hello: Item, now: real, later: real, greeting: Greeting)
    | Pass(item: Item, hello: Item, now: real, later: real, greeting: Greeting, transfer: Transfer)

  function Dialled(s: Sender, c: Call): Sender {
    if s.connected then s else Connected(s, c.hello, c.now, c.later, c.greeting)
  }

  function Sent(s: Sender, c: Call): Sender {
    var m := Dialled(s, c);
    if c.Pass? && m.connected then Transmitted(m, c.item, c.later, c.transfer) else m
  }

  class BackendStream {
    var sequence: nat
    var connected: bool
    var nextReconnect: real
    ghost var links: seq<seq<Packet>>

    ghost function View(): Sender
      reads this
    {
      Sender(sequence, connected, nextReconnect, links)
    }

    constructor ()
      ensures View() == IDLE
    {
      sequence, connected, nextReconnect, links := 1, false, 0.0, [];
    }

    /** `packet`: encodes with the current number and then advances it; a refusal does not. */
    method NextPacket(c: Codec, item: Item) returns (r: Result<seq<Byte>, RangeError>)
      modifies this`sequence
      ensures r == EncodePacket(c, item.kind, item.payload, old(sequence), item.monotonicNs, 0)
      ensures r.Success? <==> Packs(item, old(sequence))
      ensures sequence == if r.Success? then old(sequence) + 1 else old(sequence)
    {
      r := EncodePacket(c, item.kind, item.payload, sequence, item.monotonicNs, 0);
      if r.Success? {
        sequence := sequence + 1;
      }
    }

    /** The bytes of a run of sends are the encoding of the items under consecutive numbers. */
    method SendAll(c: Codec, items: seq<Item>) returns (bytes: seq<Byte>)
      requires Sendable(sequence, items)
      modifies this`sequence
      ensures sequence == old(sequence) + |items|
      ensures bytes == EncodeAll(WireOf(c), Numbered(old(sequence), items))
    {
      bytes := [];
      ghost var first := sequence;
      var i := 0;
      while i < |items|
        invariant i <= |items| && sequence == first + i
        invariant bytes == EncodeAll(WireOf(c), Numbered(first, items[..i]))
      {
        var r := NextPacket(c, items[i]);
        var p := Packet(items[i].kind, 0, first + i, items[i].monotonicNs, items[i].payload);
        assert Numbered(first, items[..i + 1]) == Numbered(first, items[..i]) + [p];
        EncodeAllAppend(WireOf(c), Numbered(first, items[..i]), p);
        bytes := bytes + r.value;
        i := i + 1;
      }
      assert items[..|items|] == items;
    }

    method Connect(c: Codec, hello: Item, now: real, later: real, g: Greeting) returns (r: Result<bool, SendError>)
      modifies this
      ensures View() == Connected(old(View()), hello, now, later, g)
      ensures r.Failure? <==> now >= old(nextReconnect) && !g.Unreachable? &&
                              (!Packs(hello, old(sequence)) || g.AckUnreadable?)
      ensures r.Success? ==> r.value == (now >= old(nextReconnect) && g.HelloAccepted?)
    {
      if now < nextReconnect {
        return Success(false);
      }
      if g.Unreachable? {
        connected := false;
        nextReconnect := later + BACKOFF;
        return Success(false);
      }
      ghost var first := sequence;
      var packet := NextPacket(c, hello);
      if packet.Failure? {
        return Failure(NotPacked(packet.error));
      }
      links := links + [if g.HelloAccepted? || g.arrived then [Made(hello, first)] else []];
      if g.HelloFailed? {
        connected := false;
        nextReconnect := later + BACKOFF;
        return Success(false);
      }
      if g.AckUnreadable? {
        return Failure(NotJson);
      }
      connected := true;
      return Success(true);
    }

    method Send(c: Codec, call: Call) returns (r: Result<bool, SendError>)
      requires call.Pass?
      modifies this
      ensures View() == Sent(old(View()), call)
      ensures var m := Dialled(old(View()), call);
              r == Success(true) <==> m.connected && Packs(call.item, m.sequence) && call.transfer.Transferred?
    {
      if !connected {
        var greeted := Connect(c, call.hello, call.now, call.later, call.greeting);
        if greeted.Failure? {
          return greeted;
        }
        if !greeted.value {
          return Success(false);
        }
      }
      ghost var number := sequence;
      var packet := NextPacket(c, call.item);
      if packet.Failure? {
        return Failure(NotPacked(packet.error));
      }
      if call.transfer.Transferred? || call.transfer.arrived {
        links := OnLast(links, Made(call.item, number));
      }
      if call.transfer.Failed? {
        connected := false;
        nextReconnect := call.later + BACKOFF;
        return Success(false);
      }
      return Success(true);
    }
  }

  // ---------------------------------------------------------------- whole runs

  function Run(calls: seq<Call>): Sender {
    if calls == [] then IDLE else Sent(Run(calls[..|calls| - 1]), calls[|calls| - 1])
  }

  predicate Below(ps: seq<Packet>, n: nat) {
    forall i :: 0 <= i < |ps| ==> ps[i].sequence < n
  }

  predicate Before(ps: seq<Packet>, qs: seq<Packet>) {
    forall i, j :: 0 <= i < |ps| && 0 <= j < |qs| ==> ps[i].sequence < qs[j].sequence
  }

  /** A connection's packets begin with its HELLO and are numbered upward. */
  predicate Proper(ps: seq<Packet>) {
    Increasing(ps) && (ps != [] ==> ps[0].kind == HELLO)
  }

  /** Every connection is proper, and no number is used twice, on one connection or on two. */
  ghost predicate Ordered(s: Sender) {
    && (forall l :: 0 <= l < |s.links| ==> Proper(s.links[l]) && Below(s.links[l], s.sequence))
    && (forall l, m :: 0 <= l < m < |s.links| ==> Before(s.links[l], s.links[m]))
    && (s.connected ==> s.links != [] && s.links[|s.links| - 1] != [])
  }

  lemma ConnectedOrdered(s: Sender, hello: Item, now: real, later: real, g: Greeting)
    requires Ordered(s) && !s.connected && hello.kind == HELLO
    ensures Ordered(Connected(s, hello, now, later, g))
  {
  }

  lemma TransmittedOrdered(s: Sender, item: Item, later: real, t: Transfer)
    requires Ordered(s) && s.connected
    ensures Ordered(Transmitted(s, item, later, t))
  {
  }

  /** Over every run of sends with failures and reconnections, what arrives on each connection begins
      with its HELLO and is numbered upward, also from one connection to the next. */
  lemma {:induction false} AlwaysOrdered(calls: seq<Call>)
    requires forall i :: 0 <= i < |calls| ==> calls[i].hello.kind == HELLO
    ensures Ordered(Run(calls))
  {
    if calls != [] {
      var front, c := calls[..|calls| - 1], calls[|calls| - 1];
      AlwaysOrdered(front);
      var s := Run(front);
      if !s.connected {
        ConnectedOrdered(s, c.hello, c.now, c.later, c.greeting);
      }
      if c.Pass? && Dialled(s, c).connected {
        TransmittedOrdered(Dialled(s, c), c.item, c.later, c.transfer);
      }
    }
  }

  /** End to end with failures: whatever the network does, and however a connection's bytes, which may
      break off inside a further packet, are cut into chunks within the bound, the receiver dispatches
      every packet that arrived on that connection after its HELLO, once each and in order. */
  lemma EveryLinkIsDispatched(
    calls: seq<Call>, link: nat, limit: nat, payload: nat, chunk: nat, auth: Packet -> bool, accepts: Packet -> bool,
    broken: Packet, tail: seq<Byte>, chunks: seq<seq<Byte>>)
    requires forall i :: 0 <= i < |calls| ==> calls[i].hello.kind == HELLO
    requires link < |Run(calls).links| && Run(calls).links[link] != [] && payload <= limit
    requires AllWithin(Run(calls).links[link] + [broken], payload)
    requires var w := WireOf(Codec(limit, Crc));
             && tail <= w.encode(broken) && tail != w.encode(broken)
             && Concat(chunks) == EncodeAll(w, Run(calls).links[link]) + tail
    requires Bound(ConsumeHeader, payload, chunk, limit) && Small(chunks, chunk)
    requires var ps := Run(calls).links[link]; auth(ps[0]) && forall p :: p in ps[1..] ==> accepts(p)
    ensures var ps := Run(calls).links[link];
            && Session(WireOf(Codec(limit, Crc)), limit, ConsumeHeader, [], chunks) == Outcome(ps, None, tail)
            && ReceiveAll(auth, accepts, FRESH, ps).dispatched == ps[1..] && ReceiveAll(auth, accepts, FRESH, ps).open
  {
    var ps := Run(calls).links[link];
    AlwaysOrdered(calls);
    ProgramCutStreamArrives(Codec(limit, Crc), ConsumeHeader, payload, chunk, ps, broken, tail, chunks);
    HelloThenAll(auth, accepts, ps);
  }
}
