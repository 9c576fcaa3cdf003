/** The device's blocking reader of the HELLO acknowledgement, a third reader of the packet format. */
module Handshake {
  import opened Bytes
  import opened Crc32
  import opened Protocol
  import opened Wrappers

  const HELLO_ACK: Byte := 2

  datatype AckError = ConnectionClosed | InvalidAck | CrcFailed | NotJson | DeviceRejected

  /** What the foreign JSON parser makes of the payload. */
  datatype Answer = Unreadable | Rejecting | Accepting

  /** What the bytes of a stream say about the acknowledgement, and how many of them it takes. */
  function Acknowledged(answer: seq<Byte> -> Answer, s: seq<Byte>): Result<nat, AckError> {
    if |s| < HEADER_SIZE then Failure(ConnectionClosed)
    else if !(s[..4] == MAGIC && s[4] == VERSION && s[5] == HELLO_ACK) then Failure(InvalidAck)
    else
      var size := HEADER_SIZE + ReadU32(s, 8);
      if |s| < size then Failure(ConnectionClosed)
      else if Crc(s[HEADER_SIZE..size]) != ReadU32(s, 28) then Failure(CrcFailed)
      else Judged(answer(s[HEADER_SIZE..size]), size)
  }

  function Judged(a: Answer, size: nat): Result<nat, AckError> {
    match a
    case Unreadable => Failure(NotJson)
    case Rejecting => Failure(DeviceRejected)
    case Accepting => Success(size)
  }

  /** A socket: the bytes that still arrive before the peer closes it. */
  class Socket {
    var stream: seq<Byte>

    constructor (stream: seq<Byte>)
      ensures this.stream == stream
    {
      this.stream := stream;
    }

    /** `recv` returns some of the next bytes, none only at the end. */
    method Recv(most: nat) returns (chunk: seq<Byte>)
      requires most > 0
      modifies this
      ensures chunk + stream == old(stream) && |chunk| <= most && (chunk == [] ==> old(stream) == [])
    {
      if stream == [] {
        return [];
      }
      var n: nat :| 0 < n <= |stream| && n <= most;
      chunk := stream[..n];
      stream := stream[n..];
    }

    /** However the bytes arrive, exactly `length` of them are taken, or the stream was too short. */
    method ReceiveExact(length: nat) returns (r: Result<seq<Byte>, AckError>)
      modifies this
      ensures r.Success? <==> |old(stream)| >= length
      ensures r.Success? ==> r.value == old(stream)[..length] && stream == old(stream)[length..]
      ensures r.Failure? ==> r.error == ConnectionClosed && stream == []
    {
      var result := [];
      while |result| < length
        invariant result + stream == old(stream) && |result| <= length
        decreases length - |result|
      {
        var chunk := Recv(length - |result|);
        if chunk == [] {
          return Failure(ConnectionClosed);
        }
        result := result + chunk;
      }
      return Success(result);
    }

    method ReceiveAck(answer: seq<Byte> -> Answer) returns (r: Result<nat, AckError>)
      modifies this
      ensures r == Acknowledged(answer, old(stream))
      ensures r.Success? ==> r.value <= |old(stream)| && stream == old(stream)[r.value..]
    {
      ghost var s := stream;
      var header := ReceiveExact(HEADER_SIZE);
      if header.Failure? {
        return Failure(header.error);
      }
      var h := header.value;
      assert s == h + stream;
      HeaderWords(h, stream);
      if h[..4] != MAGIC || h[4] != VERSION || h[5] != HELLO_ACK {
        return Failure(InvalidAck);
      }
      var length := ReadU32(h, 8);
      var body := ReceiveExact(length);
      if body.Failure? {
        return Failure(body.error);
      }
      var payload := body.value;
      assert payload == s[HEADER_SIZE..HEADER_SIZE + length];
      var crc := ComputeCrc(payload);
      if crc != ReadU32(h, 28) {
        return Failure(CrcFailed);
      }
      var verdict := answer(payload);
      if verdict.Unreadable? {
        return Failure(NotJson);
      }
      if verdict.Rejecting? {
        return Failure(DeviceRejected);
      }
      return Success(HEADER_SIZE + length);
    }
  }

  lemma HeaderWords(h: seq<Byte>, rest: seq<Byte>)
    requires |h| == HEADER_SIZE
    ensures ReadU32(h + rest, 8) == ReadU32(h, 8) && ReadU32(h + rest, 28) == ReadU32(h, 28)
    ensures (h + rest)[..4] == h[..4] && (h + rest)[4] == h[4] && (h + rest)[5] == h[5]
  {
    FieldIsLocal(h, h + rest, 8, 4);
    FieldIsLocal(h, h + rest, 28, 4);
  }

  /** The reader agrees with the stream decoder on every packet that is at the front of a stream: it
      takes an acknowledgement that accepts the device, of exactly its size, and nothing else. */
  lemma AcknowledgementIsAPacket(limit: nat, answer: seq<Byte> -> Answer, s: seq<Byte>)
    requires ReadFront(Codec(limit, Crc), s).Ready?
    ensures var f := ReadFront(Codec(limit, Crc), s);
            Acknowledged(answer, s) ==
            if f.packet.kind != HELLO_ACK then Failure(InvalidAck)
            else Judged(answer(f.packet.payload), f.size)
  {
    assert s[..4] == MAGIC;
  }

  /** And conversely what it takes is a packet, for every receiver with room for it. */
  lemma AcknowledgedWasAPacket(limit: nat, answer: seq<Byte> -> Answer, s: seq<Byte>)
    requires Acknowledged(answer, s).Success? && Acknowledged(answer, s).value <= HEADER_SIZE + limit
    ensures var f := ReadFront(Codec(limit, Crc), s);
            f.Ready? && f.packet.kind == HELLO_ACK && f.size == Acknowledged(answer, s).value &&
            answer(f.packet.payload).Accepting?
  {
    assert s[0] == s[..4][0] && s[1] == s[..4][1] && s[2] == s[..4][2] && s[3] == s[..4][3];
  }
}
