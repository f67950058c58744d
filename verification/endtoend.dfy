/**
 The two programs on one connection: what the client sends is what the server
 reads, the operation the client chose is the transform the server runs, and
 what the server sends back is what the client saves or shows.

 Each side's world is a parameter of its own; a lemma here joins them by
 requiring that the bytes one side reads are the bytes the other side's run puts
 on the wire.
 */
module EndToEnd {
  import opened Wrappers
  import opened Bytes
  import Utf8
  import opened Paths
  import opened Json
  import opened Frame
  import opened Conn
  import opened Server
  import opened ServerFacts
  import opened Client
  import opened ClientFacts
  import Validate

  /** The transform the server runs for an operation code and the details the client asked for it. */
  function TransformFor(operation: int, d: Details): (t: Transform)
    requires Validate.AcceptOperation(operation) && DetailsFit(operation, d)
    ensures Code(t) == operation
  {
    match d
    case NoDetails => if operation == 1 then Compress else ConvertToAudio
    case Resolution(v) => ChangeResolution(JStr(v))
    case AspectRatio(v) => ChangeAspectRatio(JStr(v))
    case GifRange(start, length) => CreateGif(JInt(start), JFloat(length as real))
  }

  /**
   The server's `process` undoes the client's metadata: the operations the
   client's prompt accepts are exactly the ones the server knows, each is routed
   to its transform with the details the client added, and any other code is
   routed nowhere.
   */
  lemma DispatchInvertsRequest(name: string, operation: int, d: Details, inputPath: string)
    requires DetailsFit(operation, d)
    ensures Validate.AcceptOperation(operation) <==> KnownOperation(JInt(operation))
    ensures var r := Dispatch(RequestMetadata(name, operation, d), inputPath, name);
      && (Validate.AcceptOperation(operation) ==>
            r == Success(Some(StartJob(TransformFor(operation, d), inputPath, name))))
      && (!Validate.AcceptOperation(operation) ==> r == Success(None))
  {
    var meta := RequestMetadata(name, operation, d);
    match d
    case NoDetails =>
    case Resolution(v) =>
      assert "resolution" in meta && meta["resolution"] == JStr(v);
    case AspectRatio(v) =>
      assert "aspect_ratio" in meta && meta["aspect_ratio"] == JStr(v);
    case GifRange(start, length) =>
      assert "start_time" in meta && meta["start_time"] == JInt(start);
      assert "duration" in meta && meta["duration"] == JFloat(length as real);
  }

  /** The job the server starts for the client's request: the transform, the stored upload, the output path. */
  function RequestedJob(cw: ClientWorld): (job: Job)
    requires Validate.AcceptOperation(cw.request.operation) && DetailsFit(cw.request.operation, cw.request.details)
    ensures Code(job.transform) == cw.request.operation
    ensures job.input == Join(ProcessedDir, Basename(cw.request.filePath))
    ensures Basename(job.output) == OutputName(job.transform, Basename(cw.request.filePath))
  {
    var name := Basename(cw.request.filePath);
    var t := TransformFor(cw.request.operation, cw.request.details);
    OutputNames(t, name);
    StartJob(t, Join(ProcessedDir, name), name)
  }

  /** A frame followed by nothing else reads back as that frame: its metadata, media type and payload. */
  lemma FrameReadBack(json: seq<byte>, media: seq<byte>, payload: seq<byte>)
    requires EncodeHead(json, media, |payload|).Some?
    ensures var stream := EncodeHead(json, media, |payload|).value + payload;
      var head := ReadHead(stream);
      && head.json == json && head.mediaType == media && head.fields.payloadLength == |payload|
      && head.Consumed() + |payload| == |stream|
      && ReadPayload(stream, head.Consumed(), head.fields.payloadLength) == Some(payload)
  {
    var enc := EncodeHead(json, media, |payload|).value;
    ReadHeadRoundTrip(json, media, |payload|, payload);
    assert (enc + payload)[|enc|..|enc| + |payload|] == payload;
  }

  /**
   The server reads the client's request as the client meant it: the metadata it
   parses is the client's, the file name is the basename of the client's path,
   the media type decodes, and the payload is the whole file.
   */
  lemma RequestArrives(cw: ClientWorld, sw: ServerWorld)
    requires RequestFrame(cw).Some? && |cw.contents.value| > 0
    requires sw.incoming == Wire(UploadFile(cw).trace)
    requires sw.codec == cw.codec && RoundTrips(cw.codec)
    ensures ReachesStore(sw) && !PayloadCutShort(sw)
    ensures UploadMeta(sw) == RequestMetadata(Basename(cw.request.filePath), cw.request.operation, cw.request.details)
    ensures UploadName(sw) == Basename(cw.request.filePath)
    ensures DeclaredPayload(sw) == cw.contents.value
  {
    var c := cw.contents.value;
    var json := RequestJson(cw);
    var media := RequestMediaType(cw.request.filePath);
    RequestOnWire(cw);
    assert sw.incoming == EncodeHead(json, media, |c|).value + c;
    FrameReadBack(json, media, c);
    Utf8.EncodeValid(Extension(cw.request.filePath));
    assert cw.codec.loads(json) == Success(RequestMetadata(Basename(cw.request.filePath), cw.request.operation, cw.request.details));
    StoredRequest(sw, json, media, c);
  }

  /** A request frame the server reads whole: what the store step sees. */
  lemma StoredRequest(sw: ServerWorld, json: seq<byte>, media: seq<byte>, c: seq<byte>)
    requires var head := ReadHead(sw.incoming);
      && head.json == json && head.mediaType == media && head.fields.payloadLength == |c| && |c| > 0
      && head.Consumed() + |c| == |sw.incoming|
      && ReadPayload(sw.incoming, head.Consumed(), head.fields.payloadLength) == Some(c)
    requires Utf8.Valid(media) && sw.codec.loads(json).Success?
    requires var meta := sw.codec.loads(json).value; "file_name" in meta && meta["file_name"].JStr?
    ensures ReachesStore(sw) && !PayloadCutShort(sw)
    ensures UploadMeta(sw) == sw.codec.loads(json).value
    ensures UploadName(sw) == sw.codec.loads(json).value["file_name"].s
    ensures DeclaredPayload(sw) == c
  {
  }

  /** The server starts the job the client asked for. */
  lemma RequestDispatched(cw: ClientWorld, sw: ServerWorld)
    requires RequestFrame(cw).Some? && |cw.contents.value| > 0
    requires Validate.AcceptOperation(cw.request.operation) && DetailsFit(cw.request.operation, cw.request.details)
    requires sw.incoming == Wire(UploadFile(cw).trace)
    requires sw.codec == cw.codec && RoundTrips(cw.codec)
    ensures ReachesStore(sw) && !PayloadCutShort(sw)
    ensures Dispatch(UploadMeta(sw), UploadPath(sw), UploadName(sw)) == Success(Some(RequestedJob(cw)))
  {
    RequestArrives(cw, sw);
    DispatchInvertsRequest(UploadName(sw), cw.request.operation, cw.request.details, UploadPath(sw));
  }

  /**
   What the client reads when the server sends 0x00 and then a frame, and the
   acknowledgement arrives before the frame does: the acknowledgement reads as
   accepted, and the head and payload are the frame's.
   */
  lemma ReplyAfterAck(w: ClientWorld, json: seq<byte>, media: seq<byte>, payload: seq<byte>)
    requires EncodeHead(json, media, |payload|).Some?
    requires w.incoming == [0] + EncodeHead(json, media, |payload|).value + payload
    requires w.ackRead <= 1
    ensures Ack(w) == [0] && ClassifyAck(Ack(w)) == Accepted
    ensures var head := ReadHead(Reply(w));
      && head.json == json && head.mediaType == media && head.fields.payloadLength == |payload|
      && ReadPayload(Reply(w), head.Consumed(), head.fields.payloadLength) == Some(payload)
  {
    var enc := EncodeHead(json, media, |payload|).value;
    assert w.incoming == [0] + (enc + payload);
    LoneAckByte(w.incoming, w.ackRead, enc + payload);
    FrameReadBack(json, media, payload);
    AckCodes(0);
  }

  /** A lone 0x00 read before the rest arrives is the whole acknowledgement, and the rest is the reply. */
  lemma LoneAckByte(incoming: seq<byte>, arrived: nat, rest: seq<byte>)
    requires incoming == [0] + rest && arrived <= 1
    ensures AckBytes(incoming, arrived) == [0] && incoming[1..] == rest
  {
    assert Min(AckReadSize, 1) == 1;
    assert incoming[..1] == [0];
  }

  /** A success frame after 0x00 is saved: its payload, under its file name in the download directory. */
  lemma SuccessReplySaved(w: ClientWorld, name: string, media: seq<byte>, payload: seq<byte>)
    requires RequestFrame(w).Some? && RoundTrips(w.codec) && w.saveFault.None? && w.ackRead <= 1
    requires Utf8.Valid(media)
    requires var json := w.codec.dumps(SuccessMetadata(name));
      && EncodeHead(json, media, |payload|).Some?
      && w.incoming == [0] + EncodeHead(json, media, |payload|).value + payload
    ensures UploadFile(w).ending == Downloaded(Join(ReceiveDir, name), payload)
  {
    var json := w.codec.dumps(SuccessMetadata(name));
    ReplyAfterAck(w, json, media, payload);
    SuccessMetadataLoads(w.codec, name);
    DownloadFaithful(w, Join(ReceiveDir, name), payload);
  }

  /** An error frame after 0x00 is shown: the client ends with the frame's message and saves nothing. */
  lemma ErrorReplyShown(w: ClientWorld, message: string)
    requires RequestFrame(w).Some? && RoundTrips(w.codec) && w.ackRead <= 1
    requires var json := w.codec.dumps(ErrorMetadata(message));
      && EncodeHead(json, [], 0).Some?
      && w.incoming == [0] + EncodeHead(json, [], 0).value
    ensures UploadFile(w).ending == RemoteError(JStr(message))
    ensures Closing(UploadFile(w).ending) == [Close]
  {
    var json := w.codec.dumps(ErrorMetadata(message));
    assert w.incoming == [0] + EncodeHead(json, [], 0).value + [];
    ReplyAfterAck(w, json, [], []);
    ErrorMetadataLoads(w.codec, message);
    assert Utf8.Valid([]);
    ErrorFlagStops(w);
  }

  lemma SuccessMetadataLoads(c: Codec, name: string)
    requires RoundTrips(c)
    ensures var m := c.loads(c.dumps(SuccessMetadata(name)));
      && m.Success? && "error" in m.value && !PyEqualsInt(m.value["error"], 1)
      && "file_name" in m.value && m.value["file_name"] == JStr(name)
  {
    assert ExchangeableObject(SuccessMetadata(name));
    assert c.loads(c.dumps(SuccessMetadata(name))) == Success(SuccessMetadata(name));
  }

  lemma ErrorMetadataLoads(c: Codec, message: string)
    requires RoundTrips(c)
    ensures var m := c.loads(c.dumps(ErrorMetadata(message)));
      && m.Success? && "error" in m.value && PyEqualsInt(m.value["error"], 1)
      && "error_message" in m.value && m.value["error_message"] == JStr(message)
  {
    assert ExchangeableObject(ErrorMetadata(message));
    assert c.loads(c.dumps(ErrorMetadata(message))) == Success(ErrorMetadata(message));
  }

  /** A lone 0x01 ends the client's run as a rejected upload. */
  lemma RejectionShown(w: ClientWorld)
    requires RequestFrame(w).Some? && w.incoming == [1]
    ensures UploadFile(w).ending == UploadRejected
  {
    assert Ack(w) == [1];
    AckCodes(1);
  }

  /**
   One whole exchange that goes well: the client's file arrives, the server runs
   the transform the client chose and sends back its output, and the client saves
   exactly that output, under the name the transform gives it, in its download
   directory.
   */
  lemma TransformedDownload(cw: ClientWorld, sw: ServerWorld, out: seq<byte>)
    requires RequestFrame(cw).Some? && |cw.contents.value| > 0
    requires Validate.AcceptOperation(cw.request.operation) && DetailsFit(cw.request.operation, cw.request.details)
    requires sw.incoming == Wire(UploadFile(cw).trace)
    requires sw.codec == cw.codec && RoundTrips(cw.codec)
    requires sw.storeFault.None? && sw.run(RequestedJob(cw)).None? && sw.outputs(RequestedJob(cw).output) == Some(out)
    requires SuccessFrame(sw.codec, RequestedJob(cw).output, out).Some?
    requires cw.incoming == Wire(HandleConnection(sw).trace) && cw.ackRead <= 1 && cw.saveFault.None?
    ensures UploadFile(cw).ending ==
      Downloaded(Join(ReceiveDir, OutputName(TransformFor(cw.request.operation, cw.request.details), Basename(cw.request.filePath))), out)
  {
    var job := RequestedJob(cw);
    RequestDispatched(cw, sw);
    HappyWire(sw, job, out);
    Utf8.EncodeValid(Extension(job.output));
    SuccessReplySaved(cw, Basename(job.output), Utf8.Encode(Extension(job.output)), out);
  }

  /** A transform that raises is answered, after 0x00, with the error frame carrying the exception's message. */
  lemma FailedRunWire(w: ServerWorld, job: Job, message: string)
    requires ReachesStore(w) && w.storeFault.None? && !PayloadCutShort(w)
    requires Dispatch(UploadMeta(w), UploadPath(w), UploadName(w)) == Success(Some(job))
    requires w.run(job) == Some(message)
    ensures var json := w.codec.dumps(ErrorMetadata(w.describe(Io(message))));
      var o := HandleConnection(w);
      && (EncodeHead(json, [], 0).Some? ==> o.ending == Served && Wire(o.trace) == [0] + EncodeHead(json, [], 0).value)
      && (EncodeHead(json, [], 0).None? ==> o.ending == Crashed(FieldOverflow))
  {
    var p := Raised(StoredStart(w) + [RunTransform(job)], true, Io(message));
    FailedRunRaises(w, job, message);
    assert ErrorMessage(w, p.error) == w.describe(Io(message));
    ErrorReply(w, p);
    RanWire(w, job);
  }

  /** A stored upload whose transform raises leaves the `try` block right after the run, connection open. */
  lemma FailedRunRaises(w: ServerWorld, job: Job, message: string)
    requires ReachesStore(w) && w.storeFault.None? && !PayloadCutShort(w)
    requires Dispatch(UploadMeta(w), UploadPath(w), UploadName(w)) == Success(Some(job))
    requires w.run(job) == Some(message)
    ensures HandleConnection(w) == Finish(w, Raised(StoredStart(w) + [RunTransform(job)], true, Io(message)))
  {
    StoredProcesses(w, false);
    ProcessRunFails(w, StoredStart(w), UploadMeta(w), UploadPath(w), UploadName(w), job, message);
  }

  lemma RanWire(w: ServerWorld, job: Job)
    requires ReachesStore(w)
    ensures Wire(StoredStart(w) + [RunTransform(job)]) == [0]
  {
    StoredStartWire(w);
    WireAppend(StoredStart(w), [RunTransform(job)]);
    WireSingle(RunTransform(job));
  }

  lemma ProcessRunFails(w: ServerWorld, pre: seq<Action>, meta: JsonObject, path: string, name: string, job: Job, message: string)
    requires Dispatch(meta, path, name) == Success(Some(job)) && w.run(job) == Some(message)
    ensures Process(w, pre, true, meta, path, name) == Raised(pre + [RunTransform(job)], true, Io(message))
  {
  }

  /**
   One whole exchange whose transform fails: the client is told, with the
   message the server's exception carries, and saves nothing.
   */
  lemma FailedTransformShown(cw: ClientWorld, sw: ServerWorld, message: string)
    requires RequestFrame(cw).Some? && |cw.contents.value| > 0
    requires Validate.AcceptOperation(cw.request.operation) && DetailsFit(cw.request.operation, cw.request.details)
    requires sw.incoming == Wire(UploadFile(cw).trace)
    requires sw.codec == cw.codec && RoundTrips(cw.codec)
    requires sw.storeFault.None? && sw.run(RequestedJob(cw)) == Some(message)
    requires EncodeHead(sw.codec.dumps(ErrorMetadata(sw.describe(Io(message)))), [], 0).Some?
    requires cw.incoming == Wire(HandleConnection(sw).trace) && cw.ackRead <= 1
    ensures UploadFile(cw).ending == RemoteError(JStr(sw.describe(Io(message))))
    ensures Closing(UploadFile(cw).ending) == [Close]
  {
    RequestDispatched(cw, sw);
    FailedRunWire(sw, RequestedJob(cw), message);
    ErrorReplyShown(cw, sw.describe(Io(message)));
  }

  /** A failed store puts only 0x01 on the wire. */
  lemma FailedStoreWire(w: ServerWorld)
    requires ReachesStore(w)
    ensures Wire(FailedStoreStart(w)) == [1]
  {
    var head := ReadHead(w.incoming);
    ReadsThenRefusal(RecvHeader(head.header), RecvBody(head.body), UploadPath(w));
  }

  lemma ReadsThenRefusal(header: Action, body: Action, path: string)
    requires header.RecvHeader? && body.RecvBody?
    ensures Wire([header, body] + [StoreFailed(path), SendAck(1), Close]) == [1]
  {
    var recvs := [header, body];
    var failed := [StoreFailed(path), SendAck(1), Close];
    WirePair(header, body);
    WirePair(SendAck(1), Close);
    WireSingle(failed[0]);
    calc {
      Wire(recvs + failed);
    == { WireAppend(recvs, failed); }
      Wire(recvs) + Wire(failed);
    == { assert failed == [failed[0]] + [SendAck(1), Close];
         WireAppend([failed[0]], [SendAck(1), Close]); }
      [1];
    }
  }

  /**
   One whole exchange whose upload cannot be stored: with the failed-store branch
   ending the connection, the client reads 0x01 and reports the upload as
   rejected.
   */
  lemma StoreFaultRejected(cw: ClientWorld, sw: ServerWorld)
    requires RequestFrame(cw).Some? && |cw.contents.value| > 0
    requires sw.incoming == Wire(UploadFile(cw).trace)
    requires sw.codec == cw.codec && RoundTrips(cw.codec)
    requires sw.storeFault.Some?
    requires cw.incoming == Wire(HandleConnection(sw).trace)
    ensures UploadFile(cw).ending == UploadRejected
  {
    RequestArrives(cw, sw);
    StoreFaultAnswered(sw);
    FailedStoreWire(sw);
    RejectionShown(cw);
  }

  /**
   An error raised before the upload is stored (an empty payload, metadata that
   does not parse, a media type that does not decode, a missing or non-string
   file name) is answered with the error frame alone: no acknowledgement byte
   comes first.
   */
  lemma EarlyErrorWire(w: ServerWorld)
    requires !ReachesStore(w)
    ensures Attempt(w, false).Raised? && Attempt(w, false).open
    ensures var json := w.codec.dumps(ErrorMetadata(ErrorMessage(w, Attempt(w, false).error)));
      var o := HandleConnection(w);
      EncodeHead(json, [], 0).Some? ==> o.ending == Served && Wire(o.trace) == EncodeHead(json, [], 0).value
  {
    var p := Attempt(w, false);
    RaisedBeforeStore(w);
    assert HandleConnection(w) == Finish(w, p);
    ErrorReply(w, p);
    QuietWire(p.trace);
  }

  /** Before the upload file, the `try` block can only raise, with the connection open, after reads alone. */
  lemma RaisedBeforeStore(w: ServerWorld)
    requires !ReachesStore(w)
    ensures var p := Attempt(w, false);
      && p.Raised? && p.open
      && forall i :: 0 <= i < |p.trace| ==> Sent(p.trace[i]) == []
  {
    AttemptBeforeStore(w, false);
  }

  /**
   The client takes the first bytes of an unacknowledged error frame for the
   acknowledgement. Once two or more of them have arrived, they read as the
   metadata length (or more), which is neither 0 nor 1 for any metadata of two
   bytes or more: the client stops on an unexpected acknowledgement and never
   shows the server's message.
   */
  lemma UnacknowledgedErrorMisread(w: ClientWorld, json: seq<byte>)
    requires RequestFrame(w).Some? && 2 <= |json|
    requires EncodeHead(json, [], 0).Some? && w.incoming == EncodeHead(json, [], 0).value
    requires 2 <= w.ackRead
    ensures UploadFile(w).ending.UnexpectedAck? && UploadFile(w).ending.value >= |json|
  {
    AckReadsLength(w.incoming, w.ackRead, json);
  }

  /** An acknowledgement read of two bytes or more over a frame reads at least the metadata length. */
  lemma AckReadsLength(incoming: seq<byte>, arrived: nat, json: seq<byte>)
    requires EncodeHead(json, [], 0).Some? && incoming == EncodeHead(json, [], 0).value
    requires 2 <= arrived
    ensures FromBigEndian(AckBytes(incoming, arrived)) >= |json|
  {
    var fields := Header(|json|, 0, 0);
    var header := ProtocolHeader(fields).value;
    HeaderRoundTrip(fields);
    var got := AckBytes(incoming, arrived);
    assert |got| >= 2;
    assert got[..2] == header[..2] == Slice(header, 0, 2);
    FromBigEndianPrefix(got, 2);
  }
}
