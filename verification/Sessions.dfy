/** Whole sessions: a stream cut into chunks, fed to either parser until it refuses one. */
module Sessions {
  import opened Bytes
  import opened Protocol
  import opened Streams
  import CppParser
  import PyParser
  import opened Wrappers

  /** Which bytes count against the buffer limit: the C++ parser keeps the header of an incomplete
      packet in its buffer, the Python parser has already taken it out. */
  datatype Style = RetainHeader | ConsumeHeader

  function Buffered(style: Style, pending: seq<Byte>): nat {
    if style == RetainHeader || |pending| < HEADER_SIZE then |pending| else |pending| - HEADER_SIZE
  }

  /** The packets returned, why the session stopped early if it did, and the undecoded bytes. */
  datatype Outcome = Outcome(packets: seq<Packet>, stop: Option<FeedError>, pending: seq<Byte>)

  function Session(w: Wire, limit: nat, style: Style, pending: seq<Byte>, chunks: seq<seq<Byte>>): Outcome
    decreases |chunks|
  {
    if chunks == [] then Outcome([], None, pending)
    else if Buffered(style, pending) + |chunks[0]| > limit + HEADER_SIZE then Outcome([], Some(Overflow), pending)
    else
      var d := Decode(w, pending + chunks[0]);
      match d.end
      case Broken(fault, _, bad) => Outcome([], Some(BadPacket(fault)), bad)
      case Rest(rest) =>
        var o := Session(w, limit, style, rest, chunks[1..]);
        o.(packets := d.packets + o.packets)
  }

  function Concat(chunks: seq<seq<Byte>>): seq<Byte>
    decreases |chunks|
  {
    if chunks == [] then [] else chunks[0] + Concat(chunks[1..])
  }

  // ---------------------------------------------------------------- both parsers run sessions

  /** One outcome after another. */
  function Then(o: Outcome, rest: Outcome): Outcome {
    rest.(packets := o.packets + rest.packets)
  }

  /** A session in terms of what one feed does. */
  function FeedAll(feed: (seq<Byte>, seq<Byte>) -> Outcome, pending: seq<Byte>, chunks: seq<seq<Byte>>): Outcome
    decreases |chunks|
  {
    if chunks == [] then Outcome([], None, pending)
    else
      var o := feed(pending, chunks[0]);
      if o.stop.Some? then o else Then(o, FeedAll(feed, o.pending, chunks[1..]))
  }

  lemma ThenAgain(a: Outcome, b: Outcome, c: Outcome)
    ensures Then(a, Then(b, c)) == Then(Then(a, b), c)
  {
    assert a.packets + (b.packets + c.packets) == (a.packets + b.packets) + c.packets;
  }

  lemma {:induction false} FeedAllPrefix(
    feed: (seq<Byte>, seq<Byte>) -> Outcome, pending: seq<Byte>, chunks: seq<seq<Byte>>, n: nat)
    requires n <= |chunks| && FeedAll(feed, pending, chunks[..n]).stop == None
    ensures var o := FeedAll(feed, pending, chunks[..n]);
            FeedAll(feed, pending, chunks) == Then(o, FeedAll(feed, o.pending, chunks[n..]))
    decreases n
  {
    if n == 0 {
      assert chunks[0..] == chunks;
      assert [] + FeedAll(feed, pending, chunks).packets == FeedAll(feed, pending, chunks).packets;
    } else {
      assert chunks[..n][1..] == chunks[1..][..n - 1] && chunks[1..][n - 1..] == chunks[n..];
      var first := feed(pending, chunks[0]);
      FeedAllPrefix(feed, first.pending, chunks[1..], n - 1);
      var o := FeedAll(feed, first.pending, chunks[1..][..n - 1]);
      ThenAgain(first, o, FeedAll(feed, o.pending, chunks[n..]));
    }
  }

  function FeedOf(w: Wire, limit: nat, style: Style): (seq<Byte>, seq<Byte>) -> Outcome {
    (pending: seq<Byte>, chunk: seq<Byte>) =>
      if Buffered(style, pending) + |chunk| > limit + HEADER_SIZE then Outcome([], Some(Overflow), pending)
      else
        var d := Decode(w, pending + chunk);
        if d.end.Broken? then Outcome([], Some(BadPacket(d.end.fault)), d.end.bytes)
        else Outcome(d.packets, None, d.end.bytes)
  }

  lemma {:induction false} SessionFeedsAll(w: Wire, limit: nat, style: Style, pending: seq<Byte>,
      chunks: seq<seq<Byte>>)
    ensures Session(w, limit, style, pending, chunks) == FeedAll(FeedOf(w, limit, style), pending, chunks)
    decreases |chunks|
  {
    if chunks != [] {
      var o := FeedOf(w, limit, style)(pending, chunks[0]);
      if o.stop.None? {
        SessionFeedsAll(w, limit, style, o.pending, chunks[1..]);
      }
    }
  }

  lemma SessionPrefix(w: Wire, limit: nat, style: Style, pending: seq<Byte>, chunks: seq<seq<Byte>>, n: nat)
    requires n <= |chunks| && Session(w, limit, style, pending, chunks[..n]).stop == None
    ensures var o := Session(w, limit, style, pending, chunks[..n]);
            Session(w, limit, style, pending, chunks) == Then(o, Session(w, limit, style, o.pending, chunks[n..]))
  {
    var feed, o := FeedOf(w, limit, style), Session(w, limit, style, pending, chunks[..n]);
    SessionFeedsAll(w, limit, style, pending, chunks[..n]);
    SessionFeedsAll(w, limit, style, pending, chunks);
    SessionFeedsAll(w, limit, style, o.pending, chunks[n..]);
    FeedAllPrefix(feed, pending, chunks, n);
  }

  /** One more accepted chunk. */
  lemma SessionStep(w: Wire, limit: nat, style: Style, pending: seq<Byte>, chunks: seq<seq<Byte>>, n: nat)
    requires n < |chunks| && Session(w, limit, style, pending, chunks[..n]).stop == None
    ensures var o := Session(w, limit, style, pending, chunks[..n]);
            var one := Session(w, limit, style, o.pending, [chunks[n]]);
            Session(w, limit, style, pending, chunks[..n + 1]) == one.(packets := o.packets + one.packets) &&
            (one.stop.Some? ==> Session(w, limit, style, pending, chunks) == one.(packets := o.packets))
  {
    var o := Session(w, limit, style, pending, chunks[..n]);
    assert chunks[..n + 1][..n] == chunks[..n] && chunks[..n + 1][n..] == [chunks[n]];
    SessionPrefix(w, limit, style, pending, chunks[..n + 1], n);
    SessionPrefix(w, limit, style, pending, chunks, n);
    assert chunks[n..][0] == chunks[n];
    assert o.packets + [] == o.packets;
  }

  /** One C++ feed is a session of one chunk. */
  method FeedCpp(parser: CppParser.PacketParser, chunk: seq<Byte>) returns (r: Result<seq<Packet>, FeedError>)
    modifies parser
    ensures Session(parser.W(), parser.maximumPayload, RetainHeader, old(parser.buffer), [chunk]) ==
            Outcome(if r.Success? then r.value else [], if r.Success? then None else Some(r.error), parser.buffer)
  {
    OneChunk(parser.W(), parser.maximumPayload, RetainHeader, parser.buffer, chunk);
    r := parser.Feed(chunk);
  }

  /** The C++ parser, fed chunk by chunk, runs the session. */
  method RunCpp(parser: CppParser.PacketParser, chunks: seq<seq<Byte>>)
      returns (packets: seq<Packet>, stop: Option<FeedError>)
    modifies parser
    ensures Session(parser.W(), parser.maximumPayload, RetainHeader, old(parser.buffer), chunks) ==
            Outcome(packets, stop, parser.buffer)
  {
    ghost var w, limit, start := parser.W(), parser.maximumPayload, parser.buffer;
    packets, stop := [], None;
    var i := 0;
    while i < |chunks|
      invariant i <= |chunks|
      invariant Session(w, limit, RetainHeader, start, chunks[..i]) == Outcome(packets, None, parser.buffer)
    {
      SessionStep(w, limit, RetainHeader, start, chunks, i);
      var r := FeedCpp(parser, chunks[i]);
      if r.Failure? {
        stop := Some(r.error);
        return;
      }
      packets := packets + r.value;
      i := i + 1;
    }
    assert chunks[..|chunks|] == chunks;
  }

  lemma OneChunk(w: Wire, limit: nat, style: Style, pending: seq<Byte>, chunk: seq<Byte>)
    ensures var d := Decode(w, pending + chunk);
            Session(w, limit, style, pending, [chunk]) ==
            if Buffered(style, pending) + |chunk| > limit + HEADER_SIZE then Outcome([], Some(Overflow), pending)
            else if d.end.Broken? then Outcome([], Some(BadPacket(d.end.fault)), d.end.bytes)
            else Outcome(d.packets, None, d.end.bytes)
  {
    var d := Decode(w, pending + chunk);
    assert d.packets + [] == d.packets;
  }

  /** One Python feed is a session of one chunk. */
  method FeedPy(parser: PyParser.PacketParser, chunk: seq<Byte>) returns (r: Result<seq<Packet>, FeedError>)
    requires parser.Settled()
    modifies parser
    ensures r.Success? ==> parser.Settled()
    ensures var o := Session(parser.W(), parser.maxPayloadBytes, ConsumeHeader, old(parser.Pending()), [chunk]);
            match r
            case Success(packets) => o == Outcome(packets, None, parser.Pending())
            case Failure(error) => o.packets == [] && o.stop == Some(error)
  {
    OneChunk(parser.W(), parser.maxPayloadBytes, ConsumeHeader, parser.Pending(), chunk);
    r := parser.Feed(chunk);
  }

  /** The Python parser, fed chunk by chunk, runs the session too. */
  method RunPy(parser: PyParser.PacketParser, chunks: seq<seq<Byte>>)
      returns (packets: seq<Packet>, stop: Option<FeedError>)
    requires parser.Settled()
    modifies parser
    ensures var o := Session(parser.W(), parser.maxPayloadBytes, ConsumeHeader, old(parser.Pending()), chunks);
            packets == o.packets && stop == o.stop && (stop == None ==>
                parser.Settled() && parser.Pending() == o.pending)
  {
    ghost var w, limit, start := parser.W(), parser.maxPayloadBytes, parser.Pending();
    packets, stop := [], None;
    var i := 0;
    while i < |chunks|
      invariant i <= |chunks| && parser.Settled()
      invariant Session(w, limit, ConsumeHeader, start, chunks[..i]) == Outcome(packets, None, parser.Pending())
    {
      SessionStep(w, limit, ConsumeHeader, start, chunks, i);
      var r := FeedPy(parser, chunks[i]);
      if r.Failure? {
        stop := Some(r.error);
        return;
      }
      packets := packets + r.value;
      i := i + 1;
    }
    assert chunks[..|chunks|] == chunks;
  }

  // ---------------------------------------------------------------- chunking does not matter

  /** The session returned the packets of the whole-stream decoder and left exactly its undecoded
      bytes, or it stopped at the same malformed packet for the same reason. */
  predicate Follows(w: Wire, o: Outcome, d: Decoded) {
    match d.end
    case Rest(rest) => o == Outcome(d.packets, None, rest)
    case Broken(fault, skip, bad) =>
      && o.stop == Some(BadPacket(fault)) && o.packets <= d.packets
      && o.pending <= bad && w.read(o.pending) == Malformed(fault, skip)
  }

  /** What the first `n` chunks decode to. */
  function Upto(w: Wire, pending: seq<Byte>, chunks: seq<seq<Byte>>, n: nat): Decoded
    requires n <= |chunks|
  {
    Decode(w, pending + Concat(chunks[..n]))
  }

  /** The n-th chunk was refused, the first that completed a malformed packet: the session returned all
      that the chunks before it decode to and, of this one, left the bytes from that packet on. */
  predicate StopsAt(w: Wire, o: Outcome, pending: seq<Byte>, chunks: seq<seq<Byte>>, n: nat) {
    && n < |chunks| && Upto(w, pending, chunks, n).end.Rest?
    && var d := Upto(w, pending, chunks, n + 1);
       d.end.Broken? && o == Outcome(Upto(w, pending, chunks, n).packets, Some(BadPacket(d.end.fault)), d.end.bytes)
  }

  /** The session follows the whole-stream decoder, and if it stopped then at a chunk of its own. */
  ghost predicate Refines(w: Wire, o: Outcome, pending: seq<Byte>, chunks: seq<seq<Byte>>) {
    var d := Decode(w, pending + Concat(chunks));
    Follows(w, o, d) && (d.end.Broken? ==> exists n: nat :: StopsAt(w, o, pending, chunks, n))
  }

  lemma FollowsLater(w: Wire, packets: seq<Packet>, o: Outcome, d: Decoded)
    requires Follows(w, o, d)
    ensures Follows(w, o.(packets := packets + o.packets), Decoded(packets + d.packets, d.end))
  {
  }

  lemma {:induction false} SessionFollows(w: Wire, limit: nat, style: Style, pending: seq<Byte>,
      chunks: seq<seq<Byte>>)
    requires Sized(w) && Stable(w) && Canonical(w) && w.read(pending).NeedMore?
    requires Session(w, limit, style, pending, chunks).stop != Some(Overflow)
    ensures Follows(w, Session(w, limit, style, pending, chunks), Decode(w, pending + Concat(chunks)))
    decreases |chunks|
  {
    if chunks == [] {
      assert pending + Concat(chunks) == pending;
    } else {
      var d := Decode(w, pending + chunks[0]);
      assert pending + Concat(chunks) == (pending + chunks[0]) + Concat(chunks[1..]);
      DecodeContinues(w, pending + chunks[0], Concat(chunks[1..]));
      EndOfDecode(w, pending + chunks[0]);
      if d.end.Rest? {
        SessionFollows(w, limit, style, d.end.bytes, chunks[1..]);
        FollowsLater(w, d.packets, Session(w, limit, style, d.end.bytes, chunks[1..]),
                     Decode(w, d.end.bytes + Concat(chunks[1..])));
      }
    }
  }

  lemma UptoLater(w: Wire, pending: seq<Byte>, chunks: seq<seq<Byte>>, n: nat)
    requires Sized(w) && Stable(w) && n < |chunks| && Decode(w, pending + chunks[0]).end.Rest?
    ensures var d := Decode(w, pending + chunks[0]);
            Upto(w, pending, chunks, n + 1) == After(d.packets, Upto(w, d.end.bytes, chunks[1..], n))
  {
    assert chunks[..n + 1][1..] == chunks[1..][..n];
    assert pending + Concat(chunks[..n + 1]) == (pending + chunks[0]) + Concat(chunks[1..][..n]);
    DecodeContinues(w, pending + chunks[0], Concat(chunks[1..][..n]));
  }

  lemma StopsLater(w: Wire, o: Outcome, pending: seq<Byte>, chunks: seq<seq<Byte>>, n: nat)
    requires Sized(w) && Stable(w) && chunks != [] && Decode(w, pending + chunks[0]).end.Rest?
    requires StopsAt(w, o, Decode(w, pending + chunks[0]).end.bytes, chunks[1..], n)
    ensures var d := Decode(w, pending + chunks[0]);
            StopsAt(w, o.(packets := d.packets + o.packets), pending, chunks, n + 1)
  {
    UptoLater(w, pending, chunks, n);
    UptoLater(w, pending, chunks, n + 1);
  }

  lemma StopsAtOnce(w: Wire, pending: seq<Byte>, chunks: seq<seq<Byte>>)
    requires w.read(pending).NeedMore? && chunks != [] && Decode(w, pending + chunks[0]).end.Broken?
    ensures var d := Decode(w, pending + chunks[0]);
            StopsAt(w, Outcome([], Some(BadPacket(d.end.fault)), d.end.bytes), pending, chunks, 0)
  {
    assert pending + Concat(chunks[..0]) == pending;
    assert chunks[..1][1..] == [] && Concat(chunks[..1]) == chunks[0] + [];
    assert pending + Concat(chunks[..1]) == pending + chunks[0];
  }

  lemma {:induction false} StopsSomewhere(w: Wire, limit: nat, style: Style, pending: seq<Byte>,
      chunks: seq<seq<Byte>>) returns (n: nat)
    requires Sized(w) && Stable(w) && Canonical(w) && w.read(pending).NeedMore?
    requires var stop := Session(w, limit, style, pending, chunks).stop; stop.Some? && stop.value.BadPacket?
    ensures StopsAt(w, Session(w, limit, style, pending, chunks), pending, chunks, n)
    decreases |chunks|
  {
    var d := Decode(w, pending + chunks[0]);
    EndOfDecode(w, pending + chunks[0]);
    if d.end.Rest? {
      var m := StopsSomewhere(w, limit, style, d.end.bytes, chunks[1..]);
      StopsLater(w, Session(w, limit, style, d.end.bytes, chunks[1..]), pending, chunks, m);
      n := m + 1;
    } else {
      StopsAtOnce(w, pending, chunks);
      n := 0;
    }
  }

  /** However a stream is cut, and whichever parser reads it: unless a buffer overflows, the session
      refines the whole-stream decoder. */
  lemma ChunkingIndependent(w: Wire, limit: nat, style: Style, pending: seq<Byte>, chunks: seq<seq<Byte>>)
    requires Sized(w) && Stable(w) && Canonical(w) && w.read(pending).NeedMore?
    requires Session(w, limit, style, pending, chunks).stop != Some(Overflow)
    ensures Refines(w, Session(w, limit, style, pending, chunks), pending, chunks)
  {
    SessionFollows(w, limit, style, pending, chunks);
    if Decode(w, pending + Concat(chunks)).end.Broken? {
      var n := StopsSomewhere(w, limit, style, pending, chunks);
    }
  }

  /** Two sessions over the same bytes agree on every packet; or both stop at the same malformed packet,
      having returned what the chunks before it, in their own cutting, decode to. */
  lemma SessionsAgree(w: Wire, limit1: nat, style1: Style, chunks1: seq<seq<Byte>>, limit2: nat, style2: Style,
      chunks2: seq<seq<Byte>>)
    requires Lawful(w) && w.read([]).NeedMore? && Concat(chunks1) == Concat(chunks2)
    requires Session(w, limit1, style1, [], chunks1).stop != Some(Overflow)
    requires Session(w, limit2, style2, [], chunks2).stop != Some(Overflow)
    ensures var o1, o2 := Session(w, limit1, style1, [], chunks1), Session(w, limit2, style2, [], chunks2);
            && o1.stop == o2.stop && (o1.stop == None ==> o1 == o2)
            && (o1.packets <= o2.packets || o2.packets <= o1.packets)
            && (o1.stop.Some? ==>
                  && w.read(o1.pending) == w.read(o2.pending)
                  && (o1.pending <= o2.pending || o2.pending <= o1.pending)
                  && (exists n: nat :: StopsAt(w, o1, [], chunks1, n))
                  && (exists n: nat :: StopsAt(w, o2, [], chunks2, n)))
  {
    ChunkingIndependent(w, limit1, style1, [], chunks1);
    ChunkingIndependent(w, limit2, style2, [], chunks2);
    var d := Decode(w, [] + Concat(chunks1));
    var o1, o2 := Session(w, limit1, style1, [], chunks1), Session(w, limit2, style2, [], chunks2);
    PrefixesAreComparable(o1.packets, o2.packets, d.packets);
    if d.end.Broken? {
      PrefixesAreComparable(o1.pending, o2.pending, d.end.bytes);
    }
  }

  lemma PrefixesAreComparable<T>(a: seq<T>, b: seq<T>, c: seq<T>)
    requires a <= c && b <= c
    ensures a <= b || b <= a
  {
  }

  // ---------------------------------------------------------------- the buffer bound

  /** Chunks of at most `chunk` bytes and payloads of at most `payload` cannot overflow. */
  predicate Bound(style: Style, payload: nat, chunk: nat, limit: nat) {
    match style
    case RetainHeader => payload + 31 + chunk <= limit + HEADER_SIZE
    case ConsumeHeader => (if payload <= 32 then 31 else payload - 1) + chunk <= limit + HEADER_SIZE
  }

  predicate Small(chunks: seq<seq<Byte>>, chunk: nat) {
    forall i :: 0 <= i < |chunks| ==> |chunks[i]| <= chunk
  }

  predicate Short(w: Wire, ps: seq<Packet>, payload: nat) {
    forall i :: 0 <= i < |ps| ==> w.fits(ps[i]) && |w.encode(ps[i])| <= HEADER_SIZE + payload
  }

  /** Every prefix of an encoded stream decodes without a fault and leaves less than one packet. */
  lemma {:induction false} PrefixOfEncoded(w: Wire, ps: seq<Packet>, payload: nat, n: nat)
    requires Sized(w) && ReadsBack(w) && PrefixFree(w) && w.read([]).NeedMore?
    requires Short(w, ps, payload) && n <= |EncodeAll(w, ps)|
    ensures var d := Decode(w, EncodeAll(w, ps)[..n]); d.end.Rest? && |d.end.bytes| < HEADER_SIZE + payload
    decreases |ps|
  {
    var s := EncodeAll(w, ps)[..n];
    if n == 0 {
      assert s == [];
    } else {
      var first, rest := w.encode(ps[0]), EncodeAll(w, ps[1..]);
      assert w.fits(ps[0]);
      if n < |first| {
        assert s == first[..n];
        assert w.read(first[..n]).NeedMore?;
      } else {
        assert s == first + rest[..n - |first|];
        PrefixOfEncoded(w, ps[1..], payload, n - |first|);
        assert w.read(s) == Ready(ps[0], |first|);
        assert InRange(w.read(s), s);
        assert s[|first|..] == rest[..n - |first|];
      }
    }
  }

  lemma {:induction false} NeverStops(
    w: Wire, limit: nat, style: Style, payload: nat, chunk: nat, ps: seq<Packet>, history: seq<Byte>,
        chunks: seq<seq<Byte>>)
    requires Sized(w) && Stable(w) && ReadsBack(w) && PrefixFree(w) && w.read([]).NeedMore?
    requires Short(w, ps, payload) && Small(chunks, chunk)
    requires Bound(style, payload, chunk, limit) && history + Concat(chunks) <= EncodeAll(w, ps)
    ensures Session(w, limit, style, Decode(w, history).end.bytes, chunks).stop == None
    decreases |chunks|
  {
    if chunks != [] {
      var s, longer := EncodeAll(w, ps), history + chunks[0];
      assert history == s[..|history|];
      assert longer + Concat(chunks[1..]) == history + Concat(chunks);
      assert longer == s[..|longer|];
      PrefixOfEncoded(w, ps, payload, |history|);
      PrefixOfEncoded(w, ps, payload, |longer|);
      DecodeContinues(w, history, chunks[0]);
      assert |chunks[0]| <= chunk;
      NeverStops(w, limit, style, payload, chunk, ps, longer, chunks[1..]);
    }
  }

  /** Within the bound, any list of packets, however its encoding is cut, arrives as itself. */
  lemma PacketsArrive(w: Wire, limit: nat, style: Style, payload: nat, chunk: nat, ps: seq<Packet>,
      chunks: seq<seq<Byte>>)
    requires Lawful(w) && w.read([]).NeedMore? && Short(w, ps, payload) && Small(chunks, chunk)
    requires Bound(style, payload, chunk, limit) && Concat(chunks) == EncodeAll(w, ps)
    ensures Session(w, limit, style, [], chunks) == Outcome(ps, None, [])
  {
    assert [] + Concat(chunks) == EncodeAll(w, ps);
    NeverStops(w, limit, style, payload, chunk, ps, [], chunks);
    ChunkingIndependent(w, limit, style, [], chunks);
    StreamRoundTrip(w, ps, []);
    assert EncodeAll(w, ps) + [] == EncodeAll(w, ps) && ps + [] == ps;
  }

  lemma {:induction false} EncodeAllAppend(w: Wire, ps: seq<Packet>, p: Packet)
    ensures EncodeAll(w, ps + [p]) == EncodeAll(w, ps) + w.encode(p)
    decreases |ps|
  {
    if ps == [] {
      assert [p][1..] == [];
      assert EncodeAll(w, [p]) == w.encode(p) + [];
    } else {
      assert (ps + [p])[1..] == ps[1..] + [p];
      EncodeAllAppend(w, ps[1..], p);
    }
  }

  /** The same for a stream that breaks off inside a packet: all packets before it arrive. */
  lemma CutStreamArrives(w: Wire, limit: nat, style: Style, payload: nat, chunk: nat, ps: seq<Packet>, p: Packet,
                         tail: seq<Byte>, chunks: seq<seq<Byte>>)
    requires Lawful(w) && w.read([]).NeedMore? && Short(w, ps + [p], payload) && Small(chunks, chunk)
    requires tail <= w.encode(p) && tail != w.encode(p)
    requires Bound(style, payload, chunk, limit) && Concat(chunks) == EncodeAll(w, ps) + tail
    ensures Session(w, limit, style, [], chunks) == Outcome(ps, None, tail)
  {
    EncodeAllAppend(w, ps, p);
    assert [] + Concat(chunks) == EncodeAll(w, ps) + tail;
    NeverStops(w, limit, style, payload, chunk, ps + [p], [], chunks);
    ChunkingIndependent(w, limit, style, [], chunks);
    assert w.fits((ps + [p])[|ps|]);
    assert tail == w.encode(p)[..|tail|] && w.read(w.encode(p)[..|tail|]).NeedMore?;
    forall i | 0 <= i < |ps| ensures w.fits(ps[i]) {
      assert (ps + [p])[i] == ps[i];
    }
    StreamRoundTrip(w, ps, tail);
    assert ps + [] == ps;
  }

  // ---------------------------------------------------------------- the bound cannot be improved

  function Singles(s: seq<Byte>): seq<seq<Byte>>
    decreases |s|
  {
    if s == [] then [] else [[s[0]]] + Singles(s[1..])
  }

  lemma {:induction false} SinglesOf(s: seq<Byte>, chunk: nat)
    requires chunk > 0
    ensures Concat(Singles(s)) == s && Small(Singles(s), chunk)
    decreases |s|
  {
    if s != [] {
      SinglesOf(s[1..], chunk);
      assert s == [s[0]] + s[1..];
    }
  }

  lemma {:induction false} ConcatAppend(a: seq<seq<Byte>>, b: seq<seq<Byte>>)
    ensures Concat(a + b) == Concat(a) + Concat(b)
    decreases |a|
  {
    if a == [] {
      assert a + b == b;
    } else {
      assert (a + b)[1..] == a[1..] + b;
      ConcatAppend(a[1..], b);
    }
  }

  lemma SinglesFirst(s: seq<Byte>, k: nat, n: nat, tail: seq<seq<Byte>>)
    requires k < n <= |s|
    ensures Singles(s[k..n]) + tail == [[s[k]]] + (Singles(s[k + 1..n]) + tail)
  {
    assert s[k..n][1..] == s[k + 1..n];
  }

  /** A feed that completes no packet only grows what is pending. */
  lemma FeedBuffers(w: Wire, limit: nat, style: Style, pending: seq<Byte>, chunk: seq<Byte>, rest: seq<seq<Byte>>)
    requires Buffered(style, pending) + |chunk| <= limit + HEADER_SIZE && w.read(pending + chunk).NeedMore?
    ensures Session(w, limit, style, pending, [chunk] + rest) == Session(w, limit, style, pending + chunk, rest)
  {
    assert ([chunk] + rest)[1..] == rest;
    var o := Session(w, limit, style, pending + chunk, rest);
    assert [] + o.packets == o.packets;
  }

  /** Single bytes of an incomplete packet are all buffered. */
  lemma {:induction false} SinglesAreBuffered(w: Wire, limit: nat, style: Style, p: Packet, n: nat, k: nat,
      tail: seq<seq<Byte>>)
    requires PrefixFree(w) && w.fits(p) && k <= n < |w.encode(p)| <= HEADER_SIZE + limit
    ensures Session(w, limit, style, w.encode(p)[..k], Singles(w.encode(p)[k..n]) + tail) ==
            Session(w, limit, style, w.encode(p)[..n], tail)
    decreases n - k
  {
    var s := w.encode(p);
    if k == n {
      assert Singles(s[k..n]) + tail == tail;
    } else {
      SinglesFirst(s, k, n, tail);
      assert s[..k] + [s[k]] == s[..k + 1];
      assert w.read(s[..k + 1]).NeedMore?;
      FeedBuffers(w, limit, style, s[..k], [s[k]], Singles(s[k + 1..n]) + tail);
      SinglesAreBuffered(w, limit, style, p, n, k + 1, tail);
    }
  }

  function Copies(p: Packet, n: nat): seq<Packet> {
    seq(n, _ => p)
  }

  lemma {:induction false} CopiesLength(w: Wire, p: Packet, n: nat)
    requires |w.encode(p)| > 0
    ensures |EncodeAll(w, Copies(p, n))| >= n && (n > 0 ==> w.encode(p) <= EncodeAll(w, Copies(p, n)))
    decreases n
  {
    if n > 0 {
      assert Copies(p, n)[1..] == Copies(p, n - 1);
      CopiesLength(w, p, n - 1);
    }
  }

  /** The bytes buffered at the worst moment. */
  function Peak(style: Style, payload: nat, chunk: nat, limit: nat): nat {
    if style == ConsumeHeader && 31 + chunk > limit + HEADER_SIZE then 31 else payload + 31
  }

  function Cut(s: seq<Byte>, n: nat, chunk: nat): seq<seq<Byte>>
    requires n + chunk <= |s|
  {
    Singles(s[..n]) + ([s[n..n + chunk]] + Singles(s[n + chunk..]))
  }

  lemma CutOfStream(s: seq<Byte>, n: nat, chunk: nat)
    requires n + chunk <= |s| && chunk > 0
    ensures Small(Cut(s, n, chunk), chunk) && Concat(Cut(s, n, chunk)) == s
  {
    var first, mid, last := s[..n], s[n..n + chunk], s[n + chunk..];
    SinglesOf(first, chunk);
    SinglesOf(last, chunk);
    ThreeParts(Singles(first), mid, Singles(last), chunk);
    assert s == first + mid + last;
  }

  lemma ThreeParts(a: seq<seq<Byte>>, mid: seq<Byte>, b: seq<seq<Byte>>, chunk: nat)
    requires Small(a, chunk) && Small(b, chunk) && |mid| <= chunk
    ensures Small(a + ([mid] + b), chunk) && Concat(a + ([mid] + b)) == Concat(a) + mid + Concat(b)
  {
    ConcatAppend(a, [mid] + b);
    assert ([mid] + b)[1..] == b;
  }

  lemma CutOverflows(w: Wire, limit: nat, style: Style, p: Packet, s: seq<Byte>, n: nat, chunk: nat)
    requires PrefixFree(w) && w.fits(p) && n < |w.encode(p)| <= HEADER_SIZE + limit
    requires n + chunk <= |s| && w.encode(p) <= s && Buffered(style, s[..n]) + chunk > limit + HEADER_SIZE
    ensures Session(w, limit, style, [], Cut(s, n, chunk)).stop == Some(Overflow)
  {
    var e := w.encode(p);
    var tail := [s[n..n + chunk]] + Singles(s[n + chunk..]);
    SinglesAreBuffered(w, limit, style, p, n, 0, tail);
    assert e[..0] == [] && e[0..n] == s[..n] && e[..n] == s[..n];
    assert Session(w, limit, style, s[..n], tail).stop == Some(Overflow);
  }

  lemma ManyCopies(c: Codec, payload: nat, n: nat) returns (p: Packet, ps: seq<Packet>)
    requires payload <= c.limit && payload < U32_LIMIT && n > 0
    ensures WireOf(c).fits(p) && |WireOf(c).encode(p)| == HEADER_SIZE + payload
    ensures Short(WireOf(c), ps, payload) && |EncodeAll(WireOf(c), ps)| >= n
    ensures WireOf(c).encode(p) <= EncodeAll(WireOf(c), ps)
  {
    p := Packet(HELLO, 0, 1, 0, seq(payload, _ => 0));
    ps := Copies(p, n);
    CopiesLength(WireOf(c), p, n);
  }

  lemma CutIsWitness(w: Wire, limit: nat, style: Style, p: Packet, ps: seq<Packet>, n: nat, chunk: nat)
      returns (chunks: seq<seq<Byte>>)
    requires PrefixFree(w) && w.fits(p) && n < |w.encode(p)| <= HEADER_SIZE + limit && chunk > 0
    requires n + chunk <= |EncodeAll(w, ps)| && w.encode(p) <= EncodeAll(w, ps)
    requires Buffered(style, EncodeAll(w, ps)[..n]) + chunk > limit + HEADER_SIZE
    ensures Small(chunks, chunk) && Concat(chunks) == EncodeAll(w, ps)
    ensures Session(w, limit, style, [], chunks).stop == Some(Overflow)
  {
    var s := EncodeAll(w, ps);
    chunks := Cut(s, n, chunk);
    CutOfStream(s, n, chunk);
    CutOverflows(w, limit, style, p, s, n, chunk);
  }

  /** Whenever the bound fails, some stream of payloads of that size, cut into chunks of that
      size, does overflow: the bound is exact. */
  lemma BoundIsExact(c: Codec, style: Style, payload: nat, chunk: nat) returns (ps: seq<Packet>, chunks: seq<seq<Byte>>)
    requires chunk > 0 && payload <= c.limit && payload < U32_LIMIT && !Bound(style, payload, chunk, c.limit)
    ensures Lawful(WireOf(c)) && Short(WireOf(c), ps, payload) && Small(chunks, chunk)
    ensures Concat(chunks) == EncodeAll(WireOf(c), ps)
    ensures Session(WireOf(c), c.limit, style, [], chunks).stop == Some(Overflow)
  {
    WireIsLawful(c);
    var n := Peak(style, payload, chunk, c.limit);
    var p: Packet;
    p, ps := ManyCopies(c, payload, n + chunk);
    assert |EncodeAll(WireOf(c), ps)[..n]| == n;
    chunks := CutIsWitness(WireOf(c), c.limit, style, p, ps, n, chunk);
  }
}
