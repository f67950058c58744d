/**
 What happens on one connection, as a sequence of actions: what each peer read,
 stored, ran and sent. Sending is modelled as delivering every byte handed over
 (the `sendall` behaviour); the bytes a trace puts on the wire are `Wire`.
 */
module Conn {
  import opened Wrappers
  import opened Bytes
  import opened Json
  import opened Frame
  import Transfer

  /** The exceptions the connection code raises, by kind. */
  datatype Exn =
    | NoData                       // raised explicitly for a declared payload length of 0
    | BadJson                      // the metadata block does not decode and parse as JSON
    | NotSubscriptable             // TypeError: a metadata document that is not an object indexed by key
    | BadMediaType                 // the media-type bytes are not UTF-8
    | KeyMissing(key: string)      // KeyError on a metadata lookup
    | NotAString(key: string)      // TypeError: a file name that is not a string
    | NotAPath                     // TypeError: the reply sent for an output path of None
    | FieldOverflow                // OverflowError from to_bytes
    | Io(message: string)          // OSError from the file system, or ffmpeg.Error
    | NotFound(path: string)       // FileNotFoundError opening a file to send
    | ClosedSocket                 // OSError: a send on a connection already closed

  /** One of the five media operations, with the metadata values the server passes on. */
  datatype Transform =
    | Compress
    | ChangeResolution(resolution: JsonValue)
    | ChangeAspectRatio(aspectRatio: JsonValue)
    | ConvertToAudio
    | CreateGif(startTime: JsonValue, duration: JsonValue)

  /** The operation code the client sends for a transform. */
  function Code(t: Transform): (k: int)
    ensures 1 <= k <= 5
    ensures (k == 1 <==> t.Compress?) && (k == 2 <==> t.ChangeResolution?) && (k == 3 <==> t.ChangeAspectRatio?)
    ensures (k == 4 <==> t.ConvertToAudio?) && (k == 5 <==> t.CreateGif?)
  {
    match t
    case Compress => 1
    case ChangeResolution(_) => 2
    case ChangeAspectRatio(_) => 3
    case ConvertToAudio => 4
    case CreateGif(_, _) => 5
  }

  /** A transform applied to an input file, writing an output file. */
  datatype Job = Job(transform: Transform, input: string, output: string)

  datatype Action =
    | RecvHeader(got: seq<byte>)
    | RecvBody(got: seq<byte>)
    | RecvAck(got: seq<byte>)
    | Store(path: string, data: seq<byte>)   // file opened, filled with the received payload, closed
    | StoreFailed(path: string)              // opening or writing that file raised
    | SendAck(code: byte)
    | RunTransform(job: Job)
    | SendHeader(header: seq<byte>)
    | SendBody(body: seq<byte>)
    | SendChunk(chunk: seq<byte>)
    | Close

  /** The bytes one action puts on the wire. */
  function Sent(a: Action): seq<byte> {
    match a
    case SendAck(code) => [code]
    case SendHeader(header) => header
    case SendBody(body) => body
    case SendChunk(chunk) => chunk
    case _ => []
  }

  /** Everything a trace sends, in order. */
  function Wire(t: seq<Action>): seq<byte> {
    if |t| == 0 then [] else Sent(t[0]) + Wire(t[1..])
  }

  lemma {:induction false} WireAppend(a: seq<Action>, b: seq<Action>)
    ensures Wire(a + b) == Wire(a) + Wire(b)
  {
    if |a| > 0 {
      assert (a + b)[1..] == a[1..] + b;
      WireAppend(a[1..], b);
    } else {
      assert a + b == b;
    }
  }

  lemma WireSingle(a: Action)
    ensures Wire([a]) == Sent(a)
  {
    assert [a][1..] == [];
  }

  lemma WirePair(a: Action, b: Action)
    ensures Wire([a, b]) == Sent(a) + Sent(b)
  {
    assert [a, b][1..] == [b];
    WireSingle(b);
  }
  /** Actions that send nothing can be dropped from the end of a trace without changing its wire. */
  lemma WireQuietTail(a: seq<Action>, b: seq<Action>)
    requires Wire(b) == []
    ensures Wire(a + b) == Wire(a)
  {
    WireAppend(a, b);
    assert Wire(a) + [] == Wire(a);
  }

  /** A trace that runs a job, sends a frame and closes puts on the wire what its start did, then the frame. */
  lemma ServedWire(t: seq<Action>, start: seq<Action>, job: Job, frame: seq<Action>, head: seq<byte>, payload: seq<byte>)
    requires t == start + [RunTransform(job)] + frame + [Close]
    requires Wire(start) == [0] && Wire(frame) == head + payload
    ensures Wire(t) == [0] + head + payload
  {
    var ran := start + [RunTransform(job)];
    WireSingle(Close);
    WireSingle(RunTransform(job));
    calc {
      Wire(t);
    == { WireQuietTail(ran + frame, [Close]); }
      Wire(ran + frame);
    == { WireAppend(ran, frame); }
      Wire(ran) + Wire(frame);
    == { WireQuietTail(start, [RunTransform(job)]); }
      [0] + (head + payload);
    }
  }

  /** One `send` per piece. */
  function ChunkActions(pieces: seq<seq<byte>>): (r: seq<Action>)
    ensures |r| == |pieces|
    ensures forall i :: 0 <= i < |r| ==> r[i] == SendChunk(pieces[i])
  {
    if |pieces| == 0 then [] else [SendChunk(pieces[0])] + ChunkActions(pieces[1..])
  }

  /** The send loop's actions for a payload. */
  function PayloadActions(payload: seq<byte>): seq<Action> {
    ChunkActions(Transfer.Chunks(payload, Transfer.ChunkSize))
  }

  lemma {:induction false} WireChunks(pieces: seq<seq<byte>>)
    ensures Wire(ChunkActions(pieces)) == Transfer.Flatten(pieces)
  {
    if |pieces| > 0 {
      WireChunks(pieces[1..]);
      assert ChunkActions(pieces)[1..] == ChunkActions(pieces[1..]);
    }
  }

  /** `sendall(header)`, `sendall(body)`, then the send loop over the payload. */
  function FrameActions(header: seq<byte>, body: seq<byte>, payload: seq<byte>): (r: seq<Action>)
    ensures Wire(r) == header + body + payload
    ensures |r| >= 2 && r[0] == SendHeader(header) && r[1] == SendBody(body)
    ensures forall i :: 2 <= i < |r| ==> r[i].SendChunk?
  {
    var r := [SendHeader(header), SendBody(body)] + PayloadActions(payload);
    WireAppend([SendHeader(header), SendBody(body)], PayloadActions(payload));
    WireChunks(Transfer.Chunks(payload, Transfer.ChunkSize));
    Transfer.ChunksSpec(payload, Transfer.ChunkSize);
    assert Wire([SendHeader(header), SendBody(body)]) == header + body;
    r
  }

  /** A stretch of trace that only sends frame parts: a frame under way. */
  ghost predicate OnlySends(s: seq<Action>) {
    forall i :: 0 <= i < |s| ==> s[i].SendHeader? || s[i].SendBody? || s[i].SendChunk?
  }

  /**
   Sending a frame (`protocol_header`, `sendall` of header and body, the send loop
   over the payload): on the wire it is exactly the encoded head followed by the
   payload; None when a length does not fit its header field and `to_bytes` raises.
   */
  function SendFrame(json: seq<byte>, mediaType: seq<byte>, payload: seq<byte>): (r: Option<seq<Action>>)
    ensures r.Some? <==> EncodeHead(json, mediaType, |payload|).Some?
    ensures r.Some? ==> Wire(r.value) == EncodeHead(json, mediaType, |payload|).value + payload
    ensures r.Some? ==> OnlySends(r.value)
  {
    match ProtocolHeader(Header(|json|, |mediaType|, |payload|))
    case None => None
    case Some(header) =>
      var frame := FrameActions(header, json + mediaType, payload);
      assert header + (json + mediaType) + payload == header + json + mediaType + payload;
      Some(frame)
  }

  /**
   The payload loop (`while file_size > 0`: `recv`, write, subtract) run over the
   stream after `from`: it stalls exactly when `ReadPayload` has no result, and
   otherwise writes exactly the bytes `ReadPayload` gives.
   */
  method ReceiveFrom(stream: seq<byte>, from: nat, n: nat) returns (written: seq<byte>, stalled: bool)
    requires from <= |stream|
    ensures stalled <==> ReadPayload(stream, from, n).None?
    ensures !stalled ==> ReadPayload(stream, from, n) == Some(written)
  {
    var requests, sizes;
    written, requests, sizes, stalled := Transfer.ReceivePayload(stream[from..], n);
    assert !stalled ==> stream[from..][..n] == stream[from..from + n];
  }

  /** `meta[key]` used as a path component: KeyError when absent, TypeError when not a string. */
  function StringField(meta: JsonObject, key: string): (r: Result<string, Exn>)
    ensures key !in meta ==> r == Failure(KeyMissing(key))
    ensures key in meta && meta[key].JStr? ==> r == Success(meta[key].s)
    ensures key in meta && !meta[key].JStr? ==> r == Failure(NotAString(key))
  {
    if key !in meta then Failure(KeyMissing(key))
    else if meta[key].JStr? then Success(meta[key].s)
    else Failure(NotAString(key))
  }
}
