/**
 The server's handling of one connection (`handle_message`): read the upload,
 store it and acknowledge, dispatch the operation (`process`), and reply with the
 output (`send_file`) or with an error frame; always close the connection.

 The world the handler runs in is a parameter: the bytes the client sends, the
 JSON library, whether the upload file can be written, what each transform does,
 and the contents of the files it produces.
 */
module Server {
  import opened Wrappers
  import opened Bytes
  import Utf8
  import opened Paths
  import opened Json
  import opened Frame
  import opened Conn

  /** `self.dpath`: uploads and outputs live here. */
  const ProcessedDir: string := "processed"

  /** The message of the exception raised for an empty upload. */
  const NoDataMessage: string := "No data to read from client."

  datatype ServerWorld = ServerWorld(
    incoming: seq<byte>,                   // every byte the client sends on the connection
    codec: Codec,                          // json.dumps / json.loads
    storeFault: Option<string>,            // opening or writing the upload file raises OSError
    run: Job -> Option<string>,            // a transform: None on success, else the message it raises
    outputs: string -> Option<seq<byte>>,  // the contents of a file, None when it cannot be opened
    describe: Exn -> string)               // `str(e)` for exceptions the code does not raise itself

  /** How a connection ends: the accept loop goes on, an exception escapes it, or a read never returns. */
  datatype Ending = Served | Crashed(error: Exn) | Stalled

  datatype Outcome = Outcome(trace: seq<Action>, ending: Ending)

  /** Where the `try` block of `handle_message` stopped, and whether the connection was still open. */
  datatype Progress =
    | Done(trace: seq<Action>, open: bool)
    | Raised(trace: seq<Action>, open: bool, error: Exn)
    | Hung(trace: seq<Action>)

  /** The name each transform gives its output: a prefix on the upload's name, or on its stem with a new extension. */
  function OutputName(t: Transform, fileName: string): string {
    match t
    case Compress => "compressed_" + fileName
    case ChangeResolution(_) => "changed_resolution_" + fileName
    case ChangeAspectRatio(_) => "changed_aspect_ratio_" + fileName
    case ConvertToAudio => "converted_to_audio_" + Stem(fileName) + ".mp3"
    case CreateGif(_, _) => "created_gif_" + Stem(fileName) + ".gif"
  }

  /** The media type the reply announces for a transform's output. */
  function OutputExtension(t: Transform, fileName: string): string {
    match t
    case ConvertToAudio => ".mp3"
    case CreateGif(_, _) => ".gif"
    case _ => DotSuffix(fileName)
  }

  function OutputPath(t: Transform, fileName: string): string {
    Join(ProcessedDir, OutputName(t, fileName))
  }

  /**
   For an uploaded name without '/', the output file sits directly in the
   processed directory under its transform's name, and its extension (the media
   type of the reply) is the upload's last-dot suffix, ".mp3" or ".gif".
   */
  lemma OutputNames(t: Transform, fileName: string)
    requires '/' !in fileName
    ensures Basename(OutputPath(t, fileName)) == OutputName(t, fileName)
    ensures Extension(OutputPath(t, fileName)) == OutputExtension(t, fileName)
  {
    var stem := Stem(fileName);
    StemWithoutSlash(fileName);
    match t
    case Compress =>
      NamedOutput("compressed_", fileName);
    case ChangeResolution(_) =>
      NamedOutput("changed_resolution_", fileName);
    case ChangeAspectRatio(_) =>
      NamedOutput("changed_aspect_ratio_", fileName);
    case ConvertToAudio =>
      NewExtensionOutput("converted_to_audio_", stem, ".mp3");
    case CreateGif(_, _) =>
      NewExtensionOutput("created_gif_", stem, ".gif");
  }

  lemma NamedOutput(prefix: string, fileName: string)
    requires |prefix| > 0 && forall k :: 0 <= k < |prefix| ==> prefix[k] != '.' && prefix[k] != '/'
    requires '/' !in fileName
    ensures Basename(Join(ProcessedDir, prefix + fileName)) == prefix + fileName
    ensures Extension(Join(ProcessedDir, prefix + fileName)) == DotSuffix(fileName)
  {
    var q := prefix + fileName;
    NoSlashAppend(prefix, fileName);
    assert q[0] == prefix[0];
    JoinedName(ProcessedDir, q);
    DotSuffixAppend(prefix, fileName);
  }

  lemma NoSlashAppend(a: string, b: string)
    requires '/' !in a && '/' !in b
    ensures '/' !in a + b
  {
    forall k | 0 <= k < |a + b| ensures (a + b)[k] != '/' {
      if k < |a| { assert (a + b)[k] == a[k]; } else { assert (a + b)[k] == b[k - |a|]; }
    }
  }

  lemma NewExtensionOutput(prefix: string, stem: string, ext: string)
    requires |prefix| > 0 && prefix[0] != '.' && prefix[0] != '/' && '/' !in prefix
    requires '/' !in stem
    requires |ext| > 0 && ext[0] == '.' && '.' !in ext[1..] && '/' !in ext
    ensures Basename(Join(ProcessedDir, prefix + stem + ext)) == prefix + stem + ext
    ensures Extension(Join(ProcessedDir, prefix + stem + ext)) == ext
  {
    var q := prefix + stem + ext;
    NoSlashAppend(prefix, stem);
    NoSlashAppend(prefix + stem, ext);
    assert q[0] == prefix[0];
    JoinedName(ProcessedDir, q);
    DotSuffixOfExtension(ext);
    DotSuffixAppend(prefix + stem, ext);
  }

  /** Python's `operation == 1 ... == 5` chain finds a match. */
  predicate KnownOperation(op: JsonValue) {
    PyEqualsInt(op, 1) || PyEqualsInt(op, 2) || PyEqualsInt(op, 3) || PyEqualsInt(op, 4) || PyEqualsInt(op, 5)
  }

  /** The keys `process` reads after "operation", by which branch of its chain the code takes. */
  function KeysRead(op: JsonValue): set<string> {
    if PyEqualsInt(op, 1) then {}
    else if PyEqualsInt(op, 2) then {"resolution"}
    else if PyEqualsInt(op, 3) then {"aspect_ratio"}
    else if PyEqualsInt(op, 4) then {}
    else if PyEqualsInt(op, 5) then {"start_time", "duration"}
    else {}
  }

  function StartJob(t: Transform, inputPath: string, fileName: string): Job {
    Job(t, inputPath, OutputPath(t, fileName))
  }

  /**
   `process`: route the operation code to its transform, reading the parameters
   that transform needs; None for a code matching none of 1-5.
   */
  function Dispatch(meta: JsonObject, inputPath: string, fileName: string): (r: Result<Option<Job>, Exn>)
    ensures "operation" !in meta ==> r == Failure(KeyMissing("operation"))
    ensures r == Success(None) <==> "operation" in meta && !KnownOperation(meta["operation"])
    ensures r.Success? && r.value.Some? ==>
      && PyEqualsInt(meta["operation"], Code(r.value.value.transform))
      && r.value.value == StartJob(r.value.value.transform, inputPath, fileName)
    ensures r.Success? && r.value.Some? && r.value.value.transform.ChangeResolution? ==>
      "resolution" in meta && r.value.value.transform.resolution == meta["resolution"]
    ensures r.Success? && r.value.Some? && r.value.value.transform.ChangeAspectRatio? ==>
      "aspect_ratio" in meta && r.value.value.transform.aspectRatio == meta["aspect_ratio"]
    ensures r.Success? && r.value.Some? && r.value.value.transform.CreateGif? ==>
      && "start_time" in meta && r.value.value.transform.startTime == meta["start_time"]
      && "duration" in meta && r.value.value.transform.duration == meta["duration"]
    ensures r.Failure? ==> r.error.KeyMissing? && r.error.key !in meta
    ensures r.Failure? ==> r.error.key == "operation" || ("operation" in meta && r.error.key in KeysRead(meta["operation"]))
    ensures "operation" in meta && KeysRead(meta["operation"]) <= meta.Keys ==> r.Success?
  {
    if "operation" !in meta then Failure(KeyMissing("operation"))
    else
      var op := meta["operation"];
      if PyEqualsInt(op, 1) then Success(Some(StartJob(Compress, inputPath, fileName)))
      else if PyEqualsInt(op, 2) then
        if "resolution" !in meta then Failure(KeyMissing("resolution"))
        else Success(Some(StartJob(ChangeResolution(meta["resolution"]), inputPath, fileName)))
      else if PyEqualsInt(op, 3) then
        if "aspect_ratio" !in meta then Failure(KeyMissing("aspect_ratio"))
        else Success(Some(StartJob(ChangeAspectRatio(meta["aspect_ratio"]), inputPath, fileName)))
      else if PyEqualsInt(op, 4) then Success(Some(StartJob(ConvertToAudio, inputPath, fileName)))
      else if PyEqualsInt(op, 5) then
        if "start_time" !in meta then Failure(KeyMissing("start_time"))
        else if "duration" !in meta then Failure(KeyMissing("duration"))
        else Success(Some(StartJob(CreateGif(meta["start_time"], meta["duration"]), inputPath, fileName)))
      else Success(None)
  }

  function SuccessMetadata(fileName: string): JsonObject {
    map["file_name" := JStr(fileName), "error" := JBool(false), "error_message" := JNull]
  }

  function ErrorMetadata(message: string): JsonObject {
    map["error" := JBool(true), "error_message" := JStr(message)]
  }

  /** The reply for an output file: metadata naming it by its basename, its extension as media type, its bytes as payload. */
  function SuccessFrame(codec: Codec, path: string, contents: seq<byte>): Option<seq<Action>> {
    SendFrame(codec.dumps(SuccessMetadata(Basename(path))), Utf8.Encode(Extension(path)), contents)
  }

  /**
   The error reply: the metadata `{"error": true, "error_message": message}` with
   an empty media type and a payload length of 0, and nothing after it.
   */
  function ErrorFrame(codec: Codec, message: string): (r: Option<seq<Action>>)
    ensures var json := codec.dumps(ErrorMetadata(message));
      && (r.Some? <==> EncodeHead(json, [], 0).Some?)
      && (r.Some? ==> Wire(r.value) == EncodeHead(json, [], 0).value)
    ensures r.Some? ==> OnlySends(r.value) && |r.value| == 2
  {
    var json := codec.dumps(ErrorMetadata(message));
    match ProtocolHeader(Header(|json|, 0, 0))
    case None => None
    case Some(header) =>
      var frame := [SendHeader(header), SendBody(json)];
      WirePair(frame[0], frame[1]);
      assert header + json + [] == header + json;
      Some(frame)
  }

  /** `str(e)`: the handler's own message for an empty upload, the library's for the rest. */
  function ErrorMessage(w: ServerWorld, e: Exn): string {
    if e == NoData then NoDataMessage else w.describe(e)
  }

  /**
   `send_file`: take the extension, open the output, build the reply and send it;
   each step can raise, and the first send raises on a closed connection.
   */
  function SendFile(w: ServerWorld, trace: seq<Action>, open: bool, path: string): (p: Progress)
    ensures !p.Hung? && p.open == open
    ensures !p.Done? ==> p.trace == trace
    ensures p.Done? ==>
      && open && w.outputs(path).Some? && SuccessFrame(w.codec, path, w.outputs(path).value).Some?
      && p.trace == trace + SuccessFrame(w.codec, path, w.outputs(path).value).value
  {
    match w.outputs(path)
    case None => Raised(trace, open, NotFound(path))
    case Some(contents) =>
      match SuccessFrame(w.codec, path, contents)
      case None => Raised(trace, open, FieldOverflow)
      case Some(frame) =>
        if !open then Raised(trace, open, ClosedSocket)
        else
          Done(trace + frame, open)
  }

  /**
   From `process` on: dispatch, run the transform, send the output. An unknown
   operation makes `process` return None, and `send_file(None)` raises.
   */
  function Process(w: ServerWorld, trace: seq<Action>, open: bool, meta: JsonObject, inputPath: string, fileName: string): (p: Progress)
    ensures !p.Hung? && p.open == open
    ensures p.Done? ==> open
    ensures |trace| <= |p.trace| && p.trace[..|trace|] == trace
    ensures |p.trace| > |trace| ==>
      && var d := Dispatch(meta, inputPath, fileName);
      && d.Success? && d.value.Some? && p.trace[|trace|] == RunTransform(d.value.value)
      && OnlySends(p.trace[|trace| + 1..])
  {
    match Dispatch(meta, inputPath, fileName)
    case Failure(e) => Raised(trace, open, e)
    case Success(None) => Raised(trace, open, NotAPath)
    case Success(Some(job)) =>
      var started := trace + [RunTransform(job)];
      match w.run(job)
      case Some(message) => Raised(started, open, Io(message))
      case None =>
        var p := SendFile(w, started, open, job.output);
        assert p.trace[..|trace|] == trace && p.trace[|trace|] == RunTransform(job);
        assert p.trace[|trace| + 1..] == p.trace[|started|..];
        p
  }

  /**
   Receive the payload into the upload file and acknowledge. A failure to open or
   write the file is answered with 0x01 and the connection is closed; as written
   (`fallThrough`), control then goes on into `process` on the closed connection.
   */
  function StoreUpload(w: ServerWorld, head: Head, trace: seq<Action>, meta: JsonObject, fileName: string, fallThrough: bool): (p: Progress)
    ensures var data := ReadPayload(w.incoming, head.Consumed(), head.fields.payloadLength);
      && (p.Hung? <==> w.storeFault.None? && data.None?)
      && (p.Hung? ==> p.trace == trace)
      && (w.storeFault.None? && data.Some? ==>
            p.open && trace + [Store(Join(ProcessedDir, fileName), data.value), SendAck(0)] <= p.trace)
    ensures w.storeFault.Some? ==> !p.open && trace + [StoreFailed(Join(ProcessedDir, fileName)), SendAck(1)] <= p.trace
    ensures w.storeFault.Some? && !fallThrough ==> p.Done? && p.trace == trace + [StoreFailed(Join(ProcessedDir, fileName)), SendAck(1)]
    ensures w.storeFault.Some? && fallThrough ==> !p.Done? && trace + [StoreFailed(Join(ProcessedDir, fileName)), SendAck(1), Close] <= p.trace
    ensures p.Raised? && !p.open ==> fallThrough
    ensures trace <= p.trace
  {
    var inputPath := Join(ProcessedDir, fileName);
    match w.storeFault
    case Some(_) =>
      if fallThrough then
        var closed := trace + [StoreFailed(inputPath), SendAck(1), Close];
        var p := Process(w, closed, false, meta, inputPath, fileName);
        assert closed <= p.trace by { assert p.trace[..|closed|] == closed; }
        assert trace + [StoreFailed(inputPath), SendAck(1)] <= closed;
        p
      else Done(trace + [StoreFailed(inputPath), SendAck(1)], false)
    case None =>
      match ReadPayload(w.incoming, head.Consumed(), head.fields.payloadLength)
      case None => Hung(trace)
      case Some(data) =>
        var p := Process(w, trace + [Store(inputPath, data), SendAck(0)], true, meta, inputPath, fileName);
        assert trace + [Store(inputPath, data), SendAck(0)] <= p.trace;
        p
  }

  /** Parse the metadata, decode the media type, find the file name, then store. */
  function Unpack(w: ServerWorld, head: Head, trace: seq<Action>, fallThrough: bool): (p: Progress)
    ensures w.codec.loads(head.json) == Failure(NotJson) ==> p == Raised(trace, true, BadJson)
    ensures w.codec.loads(head.json) == Failure(NotObject) ==>
      p == Raised(trace, true, if Utf8.Valid(head.mediaType) then NotSubscriptable else BadMediaType)
    ensures w.codec.loads(head.json).Success? && !Utf8.Valid(head.mediaType) ==> p == Raised(trace, true, BadMediaType)
    ensures w.codec.loads(head.json).Success? && Utf8.Valid(head.mediaType) ==>
      var meta := w.codec.loads(head.json).value;
      && ("file_name" !in meta ==> p == Raised(trace, true, KeyMissing("file_name")))
      && ("file_name" in meta && !meta["file_name"].JStr? ==> p == Raised(trace, true, NotAString("file_name")))
      && ("file_name" in meta && meta["file_name"].JStr? ==> p == StoreUpload(w, head, trace, meta, meta["file_name"].s, fallThrough))
    ensures !p.Hung? && !p.open ==> w.storeFault.Some?
    ensures p.Raised? && !p.open ==> fallThrough
    ensures trace <= p.trace
  {
    match w.codec.loads(head.json)
    case Failure(NotJson) => Raised(trace, true, BadJson)
    case Failure(NotObject) =>
      if !Utf8.Valid(head.mediaType) then Raised(trace, true, BadMediaType)
      else Raised(trace, true, NotSubscriptable)
    case Success(meta) =>
      if !Utf8.Valid(head.mediaType) then Raised(trace, true, BadMediaType)
      else
        match StringField(meta, "file_name")
        case Failure(e) => Raised(trace, true, e)
        case Success(fileName) => StoreUpload(w, head, trace, meta, fileName, fallThrough)
  }

  /** The `try` block: read the header, reject an empty upload, read the body, go on. */
  function Attempt(w: ServerWorld, fallThrough: bool): (p: Progress)
    ensures var head := ReadHead(w.incoming);
      && |p.trace| >= 1 && p.trace[0] == RecvHeader(head.header)
      && (head.fields.payloadLength == 0 <==> p == Raised([RecvHeader(head.header)], true, NoData))
      && (head.fields.payloadLength > 0 ==> |p.trace| >= 2 && p.trace[1] == RecvBody(head.body))
    ensures !p.Hung? && !p.open ==> w.storeFault.Some?
    ensures p.Raised? && !p.open ==> fallThrough
  {
    var head := ReadHead(w.incoming);
    if head.fields.payloadLength == 0 then Raised([RecvHeader(head.header)], true, NoData)
    else
      var read := [RecvHeader(head.header), RecvBody(head.body)];
      var p := Unpack(w, head, read, fallThrough);
      assert p.trace[0] == read[0] && p.trace[1] == read[1];
      p
  }

  /**
   The `except` block, which sends an error frame, and the `finally` block, which
   closes the connection, after the `try` block stopped at `p`. An exception raised
   inside the `except` block escapes and ends the accept loop.
   */
  function Finish(w: ServerWorld, p: Progress): (o: Outcome)
    ensures o.ending.Stalled? <==> p.Hung?
    ensures p.Hung? ==> o.trace == p.trace
    ensures !p.Hung? ==> |o.trace| > |p.trace| && o.trace[..|p.trace|] == p.trace && o.trace[|o.trace| - 1] == Close
    ensures p.Done? ==> o == Outcome(p.trace + [Close], Served)
    ensures p.Raised? ==> var reply := ErrorFrame(w.codec, ErrorMessage(w, p.error));
      && (o.ending.Crashed? <==> reply.None? || !p.open)
      && (reply.Some? && p.open ==> o.trace == p.trace + reply.value + [Close])
      && (o.ending.Crashed? ==> o.trace == p.trace + [Close] && o.ending.error == if reply.None? then FieldOverflow else ClosedSocket)
  {
    match p
    case Hung(t) => Outcome(t, Stalled)
    case Done(t, _) => Outcome(t + [Close], Served)
    case Raised(t, open, e) =>
      match ErrorFrame(w.codec, ErrorMessage(w, e))
      case None => Outcome(t + [Close], Crashed(FieldOverflow))
      case Some(frame) =>
        if open then Outcome(t + frame + [Close], Served)
        else Outcome(t + [Close], Crashed(ClosedSocket))
  }

  /** One pass of the accept loop's body. */
  function Handle(w: ServerWorld, fallThrough: bool): (o: Outcome)
    ensures |o.trace| > 0 && o.trace[0].RecvHeader?
    ensures !o.ending.Stalled? ==> o.trace[|o.trace| - 1] == Close
    ensures o.ending == Crashed(ClosedSocket) ==> fallThrough && w.storeFault.Some?
  {
    Finish(w, Attempt(w, fallThrough))
  }

  /** `handle_message` as written: after a failed store it falls through into `process`. */
  function HandleConnectionAsWritten(w: ServerWorld): (o: Outcome)
    ensures w.storeFault.None? ==> o == HandleConnection(w)
  {
    Handle(w, true)
  }

  /** `handle_message` with the failed-store branch ending the connection, as evidently intended. */
  function HandleConnection(w: ServerWorld): (o: Outcome)
    ensures o.ending.Crashed? ==> o.ending.error == FieldOverflow
  {
    Handle(w, false)
  }
}
