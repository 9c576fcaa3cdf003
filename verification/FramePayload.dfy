/** The payload of a FRAME packet: a length-prefixed metadata object followed by a JPEG. */
module FramePayload {
  import opened Bytes
  import opened Wrappers

  /** What the foreign JSON parser makes of the metadata bytes. */
  datatype Json = Invalid | NotAnObject | Object

  datatype FrameError = TruncatedLength | InvalidLength | InvalidJson | MetadataNotObject | InvalidJpeg

  /** Both encoders: the metadata length in its four low-order bytes, the metadata and the image. */
  function MakeFrame(metadata: seq<Byte>, jpeg: seq<Byte>): seq<Byte> {
    BigEndian(|metadata|, 4) + metadata + jpeg
  }

  predicate IsJpeg(s: seq<Byte>) {
    |s| >= 4 && s[0] == 0xFF && s[1] == 0xD8 && s[|s| - 2] == 0xFF && s[|s| - 1] == 0xD9
  }

  function DecodeFrame(json: seq<Byte> -> Json, payload: seq<Byte>): Result<(seq<Byte>, seq<Byte>), FrameError> {
    if |payload| < 4 then Failure(TruncatedLength)
    else
      var length := Field(payload, 0, 4);
      if length == 0 || 4 + length >= |payload| then Failure(InvalidLength)
      else
        var metadata, jpeg := payload[4..4 + length], payload[4 + length..];
        if json(metadata) == Invalid then Failure(InvalidJson)
        else if json(metadata) == NotAnObject then Failure(MetadataNotObject)
        else if !IsJpeg(jpeg) then Failure(InvalidJpeg)
        else Success((metadata, jpeg))
  }

  /** A frame decodes to a metadata object and an image exactly when it is what the encoders make
      of them, the metadata is a nonempty object and the image is delimited as a JPEG. */
  lemma DecodeFrameIsInverse(json: seq<Byte> -> Json, payload: seq<Byte>, metadata: seq<Byte>, jpeg: seq<Byte>)
    ensures DecodeFrame(json, payload) == Success((metadata, jpeg)) <==>
            payload == MakeFrame(metadata, jpeg) && 0 < |metadata| < U32_LIMIT &&
            json(metadata) == Object && IsJpeg(jpeg)
  {
    if payload == MakeFrame(metadata, jpeg) && 0 < |metadata| < U32_LIMIT {
      LengthOfFrame(metadata, jpeg);
    }
    if |payload| >= 4 && 4 + Field(payload, 0, 4) < |payload| {
      FrameOfParts(payload);
    }
  }

  lemma LengthOfFrame(metadata: seq<Byte>, jpeg: seq<Byte>)
    requires |metadata| < U32_LIMIT
    ensures var payload := MakeFrame(metadata, jpeg);
            |payload| == 4 + |metadata| + |jpeg| && Field(payload, 0, 4) == |metadata| &&
            payload[4..4 + |metadata|] == metadata && payload[4 + |metadata|..] == jpeg
  {
    Pow256Values();
    ReadOfWrite(MakeFrame(metadata, jpeg), 0, 4, |metadata|);
  }

  lemma FrameOfParts(payload: seq<Byte>)
    requires |payload| >= 4 && 4 + Field(payload, 0, 4) <= |payload|
    ensures var length := Field(payload, 0, 4);
            length < U32_LIMIT && payload == MakeFrame(payload[4..4 + length], payload[4 + length..])
  {
    var length := Field(payload, 0, 4);
    Pow256Values();
    PrefixOfFrame(payload, length);
    Reassemble(payload, length, BigEndian(length, 4));
  }

  lemma PrefixOfFrame(payload: seq<Byte>, length: nat)
    requires |payload| >= 4 && length == Field(payload, 0, 4)
    ensures payload[0..4] == BigEndian(length, 4)
  {
    WriteOfRead(payload, 0, 4);
    HeldBytes(payload, 0, 4, length);
  }

  lemma Reassemble(payload: seq<Byte>, length: nat, prefix: seq<Byte>)
    requires 4 + length <= |payload| && payload[0..4] == prefix
    ensures payload == prefix + payload[4..4 + length] + payload[4 + length..]
  {
  }
}
