/**
 The client's side of one connection (`upload_file` and `recieve_file`): send the
 request frame with the file as payload, read the one-byte acknowledgement, then
 read the reply frame and save its payload under the name the reply gives.

 The world is a parameter, as for the server: the file's contents, the JSON
 library, every byte the server sends, how much of it the first read takes, and
 whether the download file can be written.
 */
module Client {
  import opened Wrappers
  import opened Bytes
  import Utf8
  import opened Paths
  import opened Json
  import opened Frame
  import opened Conn
  import Validate

  /** `self.dpath`, spelled as the client spells it: downloads are saved here. */
  const ReceiveDir: string := "recieve"

  /** The size of the read that takes the acknowledgement. */
  const AckReadSize: nat := 16

  /** What `input_operation_details` adds to the metadata for each operation. */
  datatype Details =
    | NoDetails
    | Resolution(resolution: string)
    | AspectRatio(aspectRatio: string)
    | GifRange(startTime: nat, duration: nat)

  /** The answers typed at the detail prompts; an operation reads only the ones it asks for. */
  datatype Answers = Answers(resolution: string, aspectRatio: string, startTime: string, duration: string)

  /** The details are of the kind the operation asks for. */
  predicate DetailsFit(operation: int, d: Details) {
    match d
    case NoDetails => operation != 2 && operation != 3 && operation != 5
    case Resolution(_) => operation == 2
    case AspectRatio(_) => operation == 3
    case GifRange(_, _) => operation == 5
  }

  /**
   `input_operation_details`: the details the answers give, or None when an answer
   is rejected and the prompt asks again. The video length is what
   `get_video_duration` reports, in whole seconds.
   */
  function ChooseDetails(operation: int, answers: Answers, videoLength: nat): (r: Option<Details>)
    ensures r.Some? ==> DetailsFit(operation, r.value)
    ensures operation == 2 ==> (r.Some? <==> answers.resolution in Validate.MenuKeys)
    ensures operation == 2 && r.Some? ==> (answers.resolution, r.value.resolution) in Validate.Resolutions
    ensures operation == 3 ==> (r.Some? <==> answers.aspectRatio in Validate.MenuKeys)
    ensures operation == 3 && r.Some? ==> (answers.aspectRatio, r.value.aspectRatio) in Validate.AspectRatios
    ensures operation == 5 ==> (r.Some? <==>
      && Validate.ParseClock(answers.startTime).Some? && Validate.ParseClock(answers.startTime).value < videoLength
      && |answers.duration| > 0 && Validate.AllDigits(answers.duration) && 0 < Validate.Decimal(answers.duration)
      && Validate.ParseClock(answers.startTime).value + Validate.Decimal(answers.duration) <= videoLength)
    ensures operation == 5 && r.Some? ==>
      && Validate.ParseClock(answers.startTime) == Some(r.value.startTime)
      && Validate.AllDigits(answers.duration) && r.value.duration == Validate.Decimal(answers.duration)
      && r.value.startTime < videoLength
      && 0 < r.value.duration && r.value.startTime + r.value.duration <= videoLength
    ensures operation != 2 && operation != 3 && operation != 5 ==> r == Some(NoDetails)
  {
    if operation == 2 then
      match Validate.ChooseResolution(answers.resolution)
      case Some(v) => Some(Resolution(v))
      case None => None
    else if operation == 3 then
      match Validate.ChooseAspectRatio(answers.aspectRatio)
      case Some(v) => Some(AspectRatio(v))
      case None => None
    else if operation == 5 then
      match Validate.AcceptStartTime(answers.startTime, videoLength)
      case None => None
      case Some(start) =>
        match Validate.AcceptDuration(answers.duration, start, videoLength)
        case None => None
        case Some(d) => Some(GifRange(start, d))
    else Some(NoDetails)
  }

  /** The metadata keys the details add. */
  function DetailKeys(d: Details): set<string> {
    match d
    case NoDetails => {}
    case Resolution(_) => {"resolution"}
    case AspectRatio(_) => {"aspect_ratio"}
    case GifRange(_, _) => {"start_time", "duration"}
  }

  /**
   Every detail the prompts offer is reached by some answers: a menu entry by its
   key, a GIF range by typing its start as the client shows times and its length
   as digits. Typed times stop at 99:99:99, so the start must lie below 100 hours.
   */
  lemma EveryDetailChoosable(operation: int, d: Details, videoLength: nat)
    requires DetailsFit(operation, d)
    requires d.Resolution? ==> exists key :: (key, d.resolution) in Validate.Resolutions
    requires d.AspectRatio? ==> exists key :: (key, d.aspectRatio) in Validate.AspectRatios
    requires d.GifRange? ==>
      && d.startTime < videoLength && d.startTime < 100 * 3600
      && 0 < d.duration && d.startTime + d.duration <= videoLength
    ensures exists answers :: ChooseDetails(operation, answers, videoLength) == Some(d)
  {
    match d
    case NoDetails =>
      assert ChooseDetails(operation, Answers("", "", "", ""), videoLength) == Some(d);
    case Resolution(v) =>
      var key :| (key, v) in Validate.Resolutions;
      var answers := Answers(key, "", "", "");
      assert ChooseDetails(operation, answers, videoLength) == Some(d);
    case AspectRatio(v) =>
      var key :| (key, v) in Validate.AspectRatios;
      var answers := Answers("", key, "", "");
      assert ChooseDetails(operation, answers, videoLength) == Some(d);
    case GifRange(start, length) =>
      var answers := Answers("", "", Validate.FormatClock(start), Validate.ShowNat(length));
      Validate.ClockRoundTrip(start);
      Validate.DurationAnswer(length, start, videoLength);
      assert ChooseDetails(operation, answers, videoLength) == Some(d);
  }

  /**
   The metadata object: the file's name and the operation code, then what the
   operation's details add; the GIF length goes out as a float (`float(duration)`).
   */
  function RequestMetadata(fileName: string, operation: int, d: Details): (m: JsonObject)
    ensures m.Keys == {"file_name", "operation"} + DetailKeys(d)
    ensures m["file_name"] == JStr(fileName) && m["operation"] == JInt(operation)
    ensures d.Resolution? ==> m["resolution"] == JStr(d.resolution)
    ensures d.AspectRatio? ==> m["aspect_ratio"] == JStr(d.aspectRatio)
    ensures d.GifRange? ==> m["start_time"] == JInt(d.startTime) && m["duration"] == JFloat(d.duration as real)
    ensures ExchangeableObject(m)
  {
    var base := map["file_name" := JStr(fileName), "operation" := JInt(operation)];
    match d
    case NoDetails => base
    case Resolution(v) => base["resolution" := JStr(v)]
    case AspectRatio(v) => base["aspect_ratio" := JStr(v)]
    case GifRange(start, length) => base["start_time" := JInt(start)]["duration" := JFloat(length as real)]
  }

  /** The path, operation and details the prompts settled on. */
  datatype Request = Request(filePath: string, operation: int, details: Details)

  datatype ClientWorld = ClientWorld(
    request: Request,
    contents: Option<seq<byte>>,     // the file at the path; None when it cannot be opened
    codec: Codec,                    // json.dumps / json.loads
    incoming: seq<byte>,             // every byte the server sends on the connection
    ackRead: nat,                    // how many bytes had arrived when `recv(16)` ran
    saveFault: Option<string>)       // opening the download file raises OSError

  /** How the client's run ends. */
  datatype ClientEnding =
    | Downloaded(path: string, data: seq<byte>)   // the reply's payload saved under path
    | DownloadFailed(path: string)                // opening the download file raised; reported, not raised
    | RemoteError(message: JsonValue)             // the reply's error flag is set: message shown, exit(1)
    | UploadRejected                              // acknowledgement 0x01: exit(1)
    | UnexpectedAck(value: nat)                   // any other acknowledgement: exit(1)
    | Aborted(error: Exn)                         // an exception caught by `upload_file`
    | Stalled                                     // a read waits for bytes that never come

  datatype ClientOutcome = ClientOutcome(trace: seq<Action>, ending: ClientEnding)

  /** The media type the request announces: the path's extension in UTF-8. */
  function RequestMediaType(filePath: string): seq<byte> {
    Utf8.Encode(Extension(filePath))
  }

  /** The metadata bytes the request carries. */
  function RequestJson(w: ClientWorld): seq<byte> {
    w.codec.dumps(RequestMetadata(Basename(w.request.filePath), w.request.operation, w.request.details))
  }

  /**
   `recv(16)`: once anything has arrived it returns what has, at most 16 bytes;
   it returns nothing only when the server closed without sending.
   */
  function AckBytes(incoming: seq<byte>, arrived: nat): (got: seq<byte>)
    ensures 0 < |got| <= AckReadSize || (got == [] && incoming == [])
    ensures |got| <= |incoming| && got == incoming[..|got|]
  {
    Take(incoming, Min(AckReadSize, if arrived == 0 then 1 else arrived))
  }

  /** How the client reads the acknowledgement `int.from_bytes(response_bytes, "big")`. */
  datatype AckVerdict = Accepted | Rejected | Unrecognised(value: nat)

  function ClassifyAck(got: seq<byte>): (v: AckVerdict)
    ensures v == Accepted <==> FromBigEndian(got) == 0
    ensures v == Rejected <==> FromBigEndian(got) == 1
    ensures v.Unrecognised? ==> v.value == FromBigEndian(got) && v.value > 1
  {
    var response := FromBigEndian(got);
    if response == 0 then Accepted else if response == 1 then Rejected else Unrecognised(response)
  }

  /**
   The two codes the server sends read as the client expects: 0x00 accepted,
   0x01 rejected. An empty read also reads as 0, so a connection closed before any
   acknowledgement counts as an accepted upload.
   */
  lemma AckCodes(code: byte)
    ensures ClassifyAck([code]) == (if code == 0 then Accepted else if code == 1 then Rejected else Unrecognised(code))
    ensures ClassifyAck([]) == Accepted
  {
    assert [code][..0] == [];
  }

  /**
   `recieve_file` over what follows the acknowledgement: read the head, parse it,
   stop on the error flag, then save the payload under the reply's file name.
   */
  function ReceiveFile(w: ClientWorld, trace: seq<Action>, stream: seq<byte>): (o: ClientOutcome)
    ensures var head := ReadHead(stream);
      o.trace == trace + [RecvHeader(head.header), RecvBody(head.body)] + Closing(o.ending)
    ensures !o.ending.UploadRejected? && !o.ending.UnexpectedAck?
  {
    var head := ReadHead(stream);
    var read := trace + [RecvHeader(head.header), RecvBody(head.body)];
    match w.codec.loads(head.json)
    case Failure(NotJson) => ClientOutcome(read + [Close], Aborted(BadJson))
    case Failure(NotObject) =>
      if !Utf8.Valid(head.mediaType) then ClientOutcome(read + [Close], Aborted(BadMediaType))
      else ClientOutcome(read + [Close], Aborted(NotSubscriptable))
    case Success(meta) =>
      if !Utf8.Valid(head.mediaType) then ClientOutcome(read + [Close], Aborted(BadMediaType))
      else if "error" !in meta then ClientOutcome(read + [Close], Aborted(KeyMissing("error")))
      else if PyEqualsInt(meta["error"], 1) then
        if "error_message" !in meta then ClientOutcome(read + [Close], Aborted(KeyMissing("error_message")))
        else ClientOutcome(read + [Close], RemoteError(meta["error_message"]))
      else
        match StringField(meta, "file_name")
        case Failure(e) => ClientOutcome(read + [Close], Aborted(e))
        case Success(name) =>
          SaveDownload(w, read, stream, head, Join(ReceiveDir, name))
  }

  /** The client's last actions, by how its run ended: the download saved or not, then the close. */
  function Closing(e: ClientEnding): seq<Action> {
    match e
    case Downloaded(path, data) => [Store(path, data), Close]
    case DownloadFailed(path) => [StoreFailed(path), Close]
    case Stalled => []
    case _ => [Close]
  }

  /** Open the download file, then read the payload into it; a failure to open is reported and swallowed. */
  function SaveDownload(w: ClientWorld, trace: seq<Action>, stream: seq<byte>, head: Head, path: string): (o: ClientOutcome)
    ensures o.trace == trace + Closing(o.ending)
    ensures o.ending.Downloaded? ==>
      && o.ending.path == path
      && ReadPayload(stream, head.Consumed(), head.fields.payloadLength) == Some(o.ending.data)
    ensures o.ending.Stalled? <==>
      w.saveFault.None? && ReadPayload(stream, head.Consumed(), head.fields.payloadLength).None?
    ensures o.ending.DownloadFailed? <==> w.saveFault.Some?
    ensures o.ending.DownloadFailed? ==> o.ending.path == path
    ensures o.ending.Downloaded? || o.ending.DownloadFailed? || o.ending.Stalled?
  {
    match w.saveFault
    case Some(_) => ClientOutcome(trace + [StoreFailed(path), Close], DownloadFailed(path))
    case None =>
      match ReadPayload(stream, head.Consumed(), head.fields.payloadLength)
      case None => ClientOutcome(trace, Stalled)
      case Some(data) => ClientOutcome(trace + [Store(path, data), Close], Downloaded(path, data))
  }

  /** The request frame the client sends, when the file opens and its lengths fit the header. */
  function RequestFrame(w: ClientWorld): (r: Option<seq<Action>>)
    ensures r.Some? <==>
      w.contents.Some? && EncodeHead(RequestJson(w), RequestMediaType(w.request.filePath), |w.contents.value|).Some?
    ensures r.Some? ==>
      && OnlySends(r.value)
      && Wire(r.value) == EncodeHead(RequestJson(w), RequestMediaType(w.request.filePath), |w.contents.value|).value + w.contents.value
  {
    match w.contents
    case None => None
    case Some(contents) => SendFrame(RequestJson(w), RequestMediaType(w.request.filePath), contents)
  }

  /**
   `upload_file`: open the file, send the request frame, read and classify the
   acknowledgement, and on 0 go on to `recieve_file`; the `finally` block closes
   the connection on every path that ends.
   */
  function UploadFile(w: ClientWorld): (o: ClientOutcome)
    ensures RequestFrame(w).None? ==> o.trace == [Close] && o.ending.Aborted?
    ensures RequestFrame(w).Some? ==> RequestFrame(w).value <= o.trace
    ensures o.ending == UploadRejected <==>
      RequestFrame(w).Some? && ClassifyAck(AckBytes(w.incoming, w.ackRead)) == Rejected
    ensures o.ending.Downloaded? || o.ending.DownloadFailed? || o.ending.RemoteError? ==>
      RequestFrame(w).Some? && ClassifyAck(AckBytes(w.incoming, w.ackRead)) == Accepted
  {
    AfterSending(w, RequestFrame(w))
  }

  /** The rest of `upload_file`, once the request frame has been sent (or could not be). */
  function AfterSending(w: ClientWorld, frame: Option<seq<Action>>): (o: ClientOutcome)
    ensures frame.None? ==>
      o == ClientOutcome([Close], Aborted(if w.contents.None? then NotFound(w.request.filePath) else FieldOverflow))
    ensures frame.Some? ==> var got := AckBytes(w.incoming, w.ackRead);
      && frame.value + [RecvAck(got)] <= o.trace
      && (o.ending == UploadRejected <==> ClassifyAck(got) == Rejected)
      && (o.ending.UnexpectedAck? <==> ClassifyAck(got).Unrecognised?)
      && (ClassifyAck(got) != Accepted ==> o.trace == frame.value + [RecvAck(got), Close])
  {
    match frame
    case None => ClientOutcome([Close], Aborted(if w.contents.None? then NotFound(w.request.filePath) else FieldOverflow))
    case Some(sent) =>
      var got := AckBytes(w.incoming, w.ackRead);
      var acked := sent + [RecvAck(got)];
      match ClassifyAck(got)
      case Rejected => ClientOutcome(acked + [Close], UploadRejected)
      case Unrecognised(v) => ClientOutcome(acked + [Close], UnexpectedAck(v))
      case Accepted => ReceiveFile(w, acked, w.incoming[|got|..])
  }
}
