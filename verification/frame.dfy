/**
 The frame codec both peers share: an 8-byte big-endian header of three lengths
 (2-byte metadata length, 1-byte media-type length, 5-byte payload length), then
 the metadata and media-type bytes back to back, then the payload.
 */
module Frame {
  import opened Wrappers
  import opened Bytes

  const JsonLengthWidth: nat := 2
  const MediaTypeLengthWidth: nat := 1
  const PayloadLengthWidth: nat := 5
  const HeaderSize: nat := 8

  /** The three lengths a header carries. */
  datatype Header = Header(jsonLength: nat, mediaTypeLength: nat, payloadLength: nat)

  /** Each field fits the width the header gives it. */
  predicate Fits(h: Header) {
    && h.jsonLength < 0x1_0000
    && h.mediaTypeLength < 0x100
    && h.payloadLength < 0x100_0000_0000
  }

  lemma WidthBounds()
    ensures Pow256(JsonLengthWidth) == 0x1_0000
    ensures Pow256(MediaTypeLengthWidth) == 0x100
    ensures Pow256(PayloadLengthWidth) == 0x100_0000_0000
  {
  }

  /**
   `protocol_header(json_length, media_type_length, payload_length)`: the three
   `to_bytes` calls concatenated; None when one of them raises OverflowError.
   */
  function ProtocolHeader(h: Header): (r: Option<seq<byte>>)
    ensures r.Some? <==> Fits(h)
    ensures r.Some? ==> |r.value| == HeaderSize
  {
    WidthBounds();
    var json := ToBytes(h.jsonLength, JsonLengthWidth);
    var mediaType := ToBytes(h.mediaTypeLength, MediaTypeLengthWidth);
    var payload := ToBytes(h.payloadLength, PayloadLengthWidth);
    if json.Some? && mediaType.Some? && payload.Some? then Some(json.value + mediaType.value + payload.value)
    else None
  }

  /**
   The receivers' decoding: `header[0:2]`, `header[2:3]` and `header[3:8]` read
   big-endian. Total: a short header gives short (possibly empty) slices.
   */
  function DecodeHeader(header: seq<byte>): (h: Header)
    ensures Fits(h)
  {
    WidthBounds();
    Header(FromBigEndian(Slice(header, 0, 2)),
           FromBigEndian(Slice(header, 2, 3)),
           FromBigEndian(Slice(header, 3, 8)))
  }

  /** Decoding an encoded header recovers the three lengths. */
  lemma HeaderRoundTrip(h: Header)
    requires Fits(h)
    ensures DecodeHeader(ProtocolHeader(h).value) == h
  {
    WidthBounds();
    var json := BigEndian(h.jsonLength, 2);
    var mediaType := BigEndian(h.mediaTypeLength, 1);
    var payload := BigEndian(h.payloadLength, 5);
    var b := ProtocolHeader(h).value;
    assert b == json + mediaType + payload;
    assert Slice(b, 0, 2) == json;
    assert Slice(b, 2, 3) == mediaType;
    assert Slice(b, 3, 8) == payload;
  }

  /** Every 8-byte string is the encoding of the header it decodes to. */
  lemma HeaderBytesRoundTrip(b: seq<byte>)
    requires |b| == HeaderSize
    ensures ProtocolHeader(DecodeHeader(b)) == Some(b)
  {
    WidthBounds();
    BigEndianOfFromBigEndian(b[0..2]);
    BigEndianOfFromBigEndian(b[2..3]);
    BigEndianOfFromBigEndian(b[3..8]);
    assert b == b[0..2] + b[2..3] + b[3..8];
  }

  /**
   Splitting the body at the declared metadata length: `body[:json_length]` and
   `body[json_length:]`; there is no delimiter between the two.
   */
  function SplitBody(body: seq<byte>, jsonLength: nat): (r: (seq<byte>, seq<byte>))
    ensures r.0 + r.1 == body
    ensures |r.0| == Min(jsonLength, |body|)
  {
    (Slice(body, 0, jsonLength), Slice(body, jsonLength, |body|))
  }

  /** The split undoes the sender's `json_string_bytes + media_type_bytes`. */
  lemma SplitBodyInvertsConcat(json: seq<byte>, media: seq<byte>)
    ensures SplitBody(json + media, |json|) == (json, media)
  {
    var r := SplitBody(json + media, |json|);
    assert r.0 == json;
  }

  /** What a receiver has read of a frame before its payload. */
  datatype Head = Head(header: seq<byte>, fields: Header, body: seq<byte>, json: seq<byte>, mediaType: seq<byte>)
  {
    /** How many stream bytes the header and body reads took. */
    function Consumed(): nat {
      |header| + |body|
    }
  }

  /**
   `recv(8)`, decode, `recv(json_length + media_type_length)`, split: the receivers'
   first two reads, over a stream whose reads yield all they ask for while it lasts.
   */
  function ReadHead(stream: seq<byte>): (h: Head)
    ensures h.fields == DecodeHeader(h.header)
    ensures |h.header| == Min(HeaderSize, |stream|)
    ensures |h.body| == Min(h.fields.jsonLength + h.fields.mediaTypeLength, |stream| - |h.header|)
    ensures h.Consumed() <= |stream| && h.header + h.body == stream[..h.Consumed()]
    ensures |h.json| == Min(h.fields.jsonLength, |h.body|) && h.json + h.mediaType == h.body
  {
    var header := Take(stream, HeaderSize);
    ReadBody(stream, header, DecodeHeader(header))
  }

  /** The second read, once `header` has been taken off the front of the stream. */
  function ReadBody(stream: seq<byte>, header: seq<byte>, fields: Header): (h: Head)
    requires |header| <= |stream| && header == stream[..|header|]
    ensures h.header == header && h.fields == fields
    ensures |h.body| == Min(fields.jsonLength + fields.mediaTypeLength, |stream| - |header|)
    ensures h.Consumed() <= |stream| && h.header + h.body == stream[..h.Consumed()]
    ensures |h.json| == Min(fields.jsonLength, |h.body|) && h.json + h.mediaType == h.body
  {
    var rest := stream[|header|..];
    var body := Take(rest, fields.jsonLength + fields.mediaTypeLength);
    var parts := SplitBody(body, fields.jsonLength);
    assert stream == header + rest;
    Head(header, fields, body, parts.0, parts.1)
  }

  /** The sender's header-and-body bytes for a frame, None when a length overflows its field. */
  function EncodeHead(json: seq<byte>, mediaType: seq<byte>, payloadLength: nat): (r: Option<seq<byte>>)
    ensures r.Some? <==> Fits(Header(|json|, |mediaType|, payloadLength))
    ensures r.Some? ==> |r.value| == HeaderSize + |json| + |mediaType|
  {
    match ProtocolHeader(Header(|json|, |mediaType|, payloadLength))
    case Some(header) => Some(header + json + mediaType)
    case None => None
  }

  /**
   The frame round trip: whatever follows an encoded head, the receiver reads back
   exactly the lengths, metadata and media type that were sent, and stops at the
   payload.
   */
  lemma ReadHeadRoundTrip(json: seq<byte>, mediaType: seq<byte>, payloadLength: nat, rest: seq<byte>)
    requires EncodeHead(json, mediaType, payloadLength).Some?
    ensures var h := ReadHead(EncodeHead(json, mediaType, payloadLength).value + rest);
      && h.fields == Header(|json|, |mediaType|, payloadLength)
      && h.json == json
      && h.mediaType == mediaType
      && h.Consumed() == HeaderSize + |json| + |mediaType|
  {
    var fields := Header(|json|, |mediaType|, payloadLength);
    var header := ProtocolHeader(fields).value;
    var stream := header + json + mediaType + rest;
    assert EncodeHead(json, mediaType, payloadLength).value + rest == stream;
    HeaderRoundTrip(fields);
    assert Take(stream, HeaderSize) == header;
    assert stream[|header|..] == (json + mediaType) + rest;
    assert Take(stream[|header|..], |json| + |mediaType|) == json + mediaType;
    SplitBodyInvertsConcat(json, mediaType);
  }

  /**
   The payload loop's result over a stream: the `n` bytes after `from`, or None when
   the peer stops sending first and the loop waits forever.
   */
  function ReadPayload(stream: seq<byte>, from: nat, n: nat): (r: Option<seq<byte>>)
    ensures r.Some? <==> from + n <= |stream|
    ensures r.Some? ==> r.value == stream[from..from + n]
  {
    if from + n <= |stream| then Some(stream[from..from + n]) else None
  }
}
