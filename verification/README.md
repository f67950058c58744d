# Video_Processer connection model

A Dafny model of the part of Video_Processer that both programs share: the
framing of every message on the TCP connection, and what each side does on one
connection.

The client (`client.py`) runs `upload_file` and `recieve_file`. It sends one
frame carrying the chosen video, waits for a one-byte acknowledgement, then
reads one reply frame and saves its payload. The server (`server.py`) runs one
pass of `handle_message`'s loop. It reads the frame and stores the upload. It
acknowledges with 0x00 or 0x01, dispatches the operation in `process`, and sends
back either the output file (`send_file`) or an error frame. It always closes
the connection.

A frame is an 8-byte header followed by a body and a payload. The header holds
three big-endian lengths: a 2-byte metadata length, a 1-byte media-type length
and a 5-byte payload length. The body is the JSON metadata followed by the UTF-8
media type, with nothing between them. The payload follows the body.

Modules, in dependency order:

- `Wrappers`: `Option` and `Result`.
- `Bytes`: bytes, `int.from_bytes`/`to_bytes`, Python slicing, and `recv` as
  `Take`.
- `Utf8`: the encoder and the validity check that `.decode("utf-8")` applies.
- `Paths`: the POSIX `os.path.basename`, `join` and `splitext`.
- `Json`: JSON values, and the JSON library as an opaque codec. It also holds
  Python's `==` between a JSON value and an int.
- `Frame`: the header codec, the body split, the receivers' first two reads and
  the payload read.
- `Transfer`: the chunked send loop and the chunked receive loop.
  - `ReceivePayload` models the receive loop with `recv` returning any
    non-empty part of what it asks for.
  - It also holds the send loop that ignores `send`'s return value.
- `Conn`: the actions of a connection (reads, stores, acknowledgements,
  transforms, sends, close) and the bytes a trace puts on the wire.
- `Server`, `ServerFacts`: `handle_message`, `process` and `send_file` as pure
  functions of a server world. The facts are lemmas about them.
- `Validate`: the client's prompts as accept/reject functions. These are the
  file path, the operation, the resolution and aspect-ratio menus, the clock
  time and the GIF duration.
- `Client`, `ClientFacts`: `upload_file` and `recieve_file` as pure functions of
  a client world. The facts are lemmas about them.
- `EndToEnd`: lemmas that join the two sides. In each, the bytes one side reads
  are the bytes the other side's run puts on the wire.

A world holds everything a run depends on that the code does not compute:

- the bytes the peer sends;
- the JSON library;
- whether a file can be opened or written;
- what a transform does and what an output file contains;
- `str(e)` for library exceptions;
- how many acknowledgement bytes had arrived when the client read them.

A run is a trace of actions and an ending:

- served;
- an exception escaping the accept loop;
- a read that never returns;
- the client's exit codes and caught exceptions.

`handle_message` has two versions:

- `HandleConnectionAsWritten` falls through from the failed-store branch into
  `process`, as the code does.
- `HandleConnection` ends the connection there.

Both are stated and compared (see Findings).

Two properties of the protocol as written are proved, not fixed:

- `EndToEnd.EarlyErrorWire` and `EndToEnd.UnacknowledgedErrorMisread`: an error
  raised before the upload is stored comes without an acknowledgement byte.
  The client then reads the start of the error frame as the acknowledgement.
- `Client.AckCodes`: a connection closed before any acknowledgement reads as
  0, which is "accepted".

## Model

| member | source | states |
|---|---|---|
| `Json.RoundTripsCanHold` | server.py:43 | the assumption the end-to-end lemmas make, that `json.loads` gives back every exchanged object `json.dumps` wrote, is met by some codec, so those lemmas do not hold vacuously |
| `Bytes.ToBytes` | client.py:176 | `n.to_bytes(w, "big")` yields w bytes that read back as n exactly when n fits in w bytes, and raises otherwise |
| `Bytes.BigEndianOfFromBigEndian` | server.py:35-37 | every fixed-width byte string is the encoding of the number it reads as, so the big-endian decoding loses nothing |
| `Bytes.FromBigEndianPrefix` | client.py:56 | reading more bytes never gives a smaller number than reading only their first k |
| `Bytes.Slice` | server.py:35-37 | Python slicing clamps both bounds: inside the string it is the sub-sequence, past the end it is the rest of the string, and it is empty when it starts at or after its end or past the string, so a short header gives short fields rather than an error |
| `Bytes.Take` | server.py:34 | `recv(n)` yields min(n, available) bytes, and they are the first bytes of the stream |
| `Frame.ProtocolHeader` | server.py:199-200 | `protocol_header` gives exactly 8 bytes when the lengths fit 2, 1 and 5 bytes, and raises otherwise |
| `Frame.DecodeHeader` | server.py:34-37 | any header, even a short one, decodes to lengths within their field widths |
| `Frame.HeaderRoundTrip` | client.py:180-183 | reading the slices `[0:2]`, `[2:3]` and `[3:8]` of an encoded header recovers the three lengths that were encoded |
| `Frame.HeaderBytesRoundTrip` | server.py:34-37 | every 8-byte header is the encoding of the lengths it decodes to |
| `Frame.SplitBody` | server.py:42-44 | the metadata part and the media-type part concatenate back to the body, and the metadata part is as long as the declared length allows |
| `Frame.SplitBodyInvertsConcat` | client.py:185-187 | splitting `json + media` at the metadata length gives back exactly the metadata and the media type |
| `Frame.ReadHead` | server.py:34-44 | the header read takes min(8, available) bytes and the body read min(metadata + media-type length, what remains); together they are a prefix of the stream; the fields are the header's decoding; the metadata part is min(metadata length, body length) bytes and the rest of the body is the media type |
| `Frame.ReadBody` | client.py:185-187 | the body read continues the stream right after the header that was read and takes min(metadata + media-type length, what remains) bytes; it splits at min(metadata length, body length) into metadata and media type |
| `Frame.EncodeHead` | client.py:44-47 | the sender's header and body exist exactly when the three lengths fit, and are 8 + metadata + media-type bytes long |
| `Frame.ReadHeadRoundTrip` | server.py:34-44 | whatever follows an encoded head, the receiver reads back exactly the lengths, metadata and media type that were sent, and stops where the payload starts |
| `Conn.ReceiveFrom` | server.py:52-57 | the receive loop run on the stream after the head stalls exactly when the stream holds fewer than the declared bytes there, and otherwise writes exactly those bytes; this is the payload read the connection functions use |
| `Transfer.ChunksSpec` | client.py:49-53 | the pieces the send loop reads from the file concatenate to the file; each has 1 to 1400 bytes, and all but the last have 1400 |
| `Transfer.FullReadsComplete` | client.py:200-205 | when every `recv` fills its request, the receive loop makes ceil(n / 1400) requests of 1 to 1400 bytes summing to n |
| `Transfer.ChunksMatchFullReads` | server.py:192-196 | the sender's piece sizes equal, one for one, the requests of a receiver whose reads are all filled |
| `Transfer.SendChunks` | server.py:192-196 | the send loop sends exactly the 1400-byte pieces of the file, in order, with ceil(size / 1400) calls |
| `Transfer.ReceivePayload` | server.py:52-57 | with each `recv` returning 1 to the requested number of bytes: the loop waits forever exactly when the stream is shorter than declared, and otherwise writes exactly the declared number of first bytes; each request is the rest or 1400, whichever is smaller, and stays within the declared size |
| `Transfer.DeliveredIgnoringCountsComplete` | client.py:50-53 | the send loop as written delivers the file exactly when every `send` takes its whole piece |
| `Transfer.ShortSendLosesBytes` | client.py:52 | a two-byte file whose one `send` takes one byte reaches the peer as one byte |
| `Transfer.SendAll` | client.py:45 | `sendall` delivers every byte, however few each call takes, in at most one call per byte |
| `Utf8.EncodeValid` | server.py:44 | the UTF-8 encoding of every string decodes, so the server's decoding of a media type the client encoded never raises |
| `Utf8.EncodeAscii` | client.py:23 | ASCII text encodes one byte per character |
| `Paths.Basename` | client.py:31 | the basename is a suffix of the path without '/', preceded in the path by a '/' whenever it is not the whole path, so it is exactly what follows the last '/'; it is the whole path when there is no '/' |
| `Paths.Join` | server.py:47 | an absolute second part replaces the first; otherwise the parts are concatenated, with one '/' put between them exactly when the first is non-empty and does not end in '/' |
| `Paths.Splitext` | client.py:22 | stem and extension concatenate to the path; the extension is empty or a dot followed by neither a dot nor a '/'; it is non-empty exactly when the last path component has a dot after some character that is not a dot |
| `Paths.JoinedName` | server.py:126 | joining a plain name to the processed directory keeps the name as the basename and its last-dot suffix as the extension |
| `Paths.PlainExtension` | server.py:167 | for a name without '/' that does not start with a dot, the extension is its last-dot suffix |
| `Conn.Code` | server.py:105-119 | each transform has its own operation code: 1 exactly for compress, 2 for resolution, 3 for aspect ratio, 4 for audio, 5 for GIF |
| `Conn.WireChunks` | server.py:192-196 | the bytes of the send loop's calls concatenate to the pieces' bytes |
| `Conn.FrameActions` | server.py:187-196 | a frame is sent as the header, then the body, then only payload pieces, and the wire carries header + body + payload |
| `Conn.SendFrame` | server.py:187-196 | a frame can be sent exactly when its head fits the header; it then puts the encoded head and the payload on the wire, with sends only |
| `Server.OutputNames` | server.py:125-163 | for a name without '/', the output's basename is the transform's prefixed name, and its extension (the reply's media type) is the upload's last-dot suffix, ".mp3" or ".gif" |
| `Server.Dispatch` | server.py:102-122 | `process` raises KeyError without "operation"; it returns None exactly for a code equal to none of 1-5; otherwise it starts the transform whose code equals the operation, with the metadata values that transform reads, on the stored upload; a KeyError names a key that is absent and is "operation" or one the operation reads, and none is raised when all those keys are present |
| `Server.StoreUpload` | server.py:49-68 | the upload hangs exactly when the file opens and the stream is short; a stored payload is followed by 0x00 on an open connection; a failed store is followed by 0x01 and leaves the connection closed; corrected, it ends the connection there, and as written it closes it and goes on |
| `Server.Unpack` | server.py:42-47 | metadata that does not decode and parse as JSON raises at once; a document that is not an object raises TypeError (unless the media type fails to decode first), media-type bytes that are not UTF-8 raise UnicodeDecodeError; a missing file name KeyError, a non-string one TypeError; otherwise the upload is stored under that name |
| `Server.Attempt` | server.py:34-42 | the `try` block starts with the header read; it raises "No data" right after it exactly when the declared payload length is 0, and otherwise reads the body next; a closed connection after it can only come from a failed store |
| `Server.Finish` | server.py:77-99 | the handler waits forever exactly when the `try` block did; otherwise it closes as its last action; a served `try` block is closed at once; an exception is answered with its error frame on an open connection, and escapes (OverflowError or a send on a closed socket) exactly when the frame does not fit or the connection is closed |
| `Server.Handle` | server.py:28-99 | every connection starts with the header read and, unless it hangs, ends with the close; the send on a closed socket happens only as written and only after a failed store |
| `Server.HandleConnectionAsWritten` | server.py:28-99 | `handle_message` as written behaves as the corrected one whenever the upload can be stored |
| `Server.HandleConnection` | server.py:28-99 | with the failed-store branch ending the connection, only an error message too long for the header ends the accept loop |
| `Server.ErrorFrame` | server.py:80-94 | the error frame exists exactly when its metadata fits the header; it is the header (media length 0, payload length 0) and the metadata, nothing else |
| `Server.SendFile` | server.py:166-196 | `send_file` completes only on an open connection with a readable output whose frame fits, and then sends exactly the success frame; otherwise it raises without sending |
| `Server.Process` | server.py:72-74 | after the storage step the trace only grows by the dispatched job's transform and then sends |
| `ServerFacts.AckFidelity` | server.py:49-65 | 0x00 is sent only right after the declared payload was stored, 0x01 only right after storing failed; each storage step is acknowledged at once, at most once per connection |
| `ServerFacts.EmptyUploadRejected` | server.py:39-40 | a declared payload length of 0 is answered with the "No data to read from client." error frame after reading only the header; no body read, storage, acknowledgement or transform |
| `ServerFacts.AlwaysCloses` | server.py:97-99 | every connection that does not hang ends with the close; the handler hangs exactly when the stream ends before the declared payload |
| `ServerFacts.HangsExactly` | server.py:52-57 | the `try` block waits forever exactly when it reaches the upload file and the stream is shorter than declared, after reading only the header and body |
| `ServerFacts.TryNeverCloses` | server.py:62-68 | with the failed-store branch ending the connection, the `try` block never closes it itself |
| `ServerFacts.ClosesOnce` | server.py:97-99 | with the failed-store branch ending the connection, the connection is closed once, as the last action |
| `ServerFacts.StoreFaultAsWritten` | server.py:62-74 | as written, after a failed store the handler sends 0x01, closes, still runs the dispatched transform, and then the exception raised inside `except` ends the accept loop |
| `ServerFacts.StoreFaultAnswered` | server.py:62-68 | with the failed-store branch ending the connection, a failed store is answered with 0x01 and the close, nothing is dispatched, and the server goes on |
| `ServerFacts.StaysOpen` | server.py:77-94 | with that correction, an exception always reaches `except` on an open connection |
| `ServerFacts.CrashesOnlyOnOversizedError` | server.py:88-92 | with that correction, the accept loop ends only when the error metadata is too long for the header |
| `ServerFacts.TransformAfterStore` | server.py:49-72 | with the failed-store branch ending the connection, a transform runs at most once, and only as the fifth action, right after the payload was stored at its input path and acknowledged with 0x00 |
| `ServerFacts.NoTransformWithoutStore` | server.py:49-72 | with the failed-store branch ending the connection, when the payload is not stored no action of the `try` block runs a transform |
| `ServerFacts.ErrorReply` | server.py:77-99 | an exception on an open connection is answered with exactly the frame carrying its message, then the close; if that frame does not fit, the accept loop ends |
| `ServerFacts.HappyPath` | server.py:28-99 | a stored upload whose transform succeeds gives: both reads, the store, 0x00, the transform, the success frame, the close |
| `ServerFacts.HappyWire` | server.py:166-196 | on the wire, a successful exchange is 0x00 and then one frame: the output's basename in the metadata, its extension as media type, its contents as payload |
| `Client.ChooseDetails` | client.py:104-166 | the details fit the operation; resolutions and aspect ratios are accepted exactly for menu keys "1"-"3" and are that key's menu entry; a GIF range is accepted exactly when the start parses as `HH:MM:SS` to a time inside the video and the length is all digits, above 0 and ends by the video's end, and it is those parsed values; other operations add nothing |
| `Client.EveryDetailChoosable` | client.py:104-166 | conversely, every fitting detail the prompts offer is reached by some answers: a menu entry by its key, a GIF range by typing its start as `HH:MM:SS` and its length in digits |
| `Client.RequestMetadata` | client.py:35-40 | the metadata has exactly the keys "file_name", "operation" and the ones the details add; it carries the file name, the operation code and each detail unchanged, the GIF length as a float; every value is one the JSON codec carries back |
| `Client.AckBytes` | client.py:55 | `recv(16)` yields 1 to 16 bytes from the front of the stream, or nothing only when the server sent nothing |
| `Client.ClassifyAck` | client.py:56-65 | the acknowledgement is accepted exactly when it reads as 0, rejected exactly when it reads as 1, and unrecognised with its value otherwise |
| `Client.AckCodes` | client.py:56-58 | the one-byte codes read as sent: 0x00 accepted, 0x01 rejected; an empty read also reads as accepted |
| `Client.ReceiveFile` | client.py:179-210 | `recieve_file` reads the header and body, then closes after its outcome; it never ends as a rejected or unexpected acknowledgement |
| `Client.RequestFrame` | client.py:41-47 | the request frame exists exactly when the file opens and its lengths fit the header; it only sends, and puts on the wire the encoded head and then the file's contents |
| `Client.UploadFile` | client.py:19-74 | a file that does not open, or a frame that does not fit, ends the run with only the close; otherwise the frame is sent first; the run ends as rejected exactly when the acknowledgement reads as 1, and it downloads or reports a remote outcome only after one that reads as 0 |
| `Client.AfterSending` | client.py:55-67 | after the frame the acknowledgement is read; it ends as rejected exactly when it reads as 1 and as unexpected exactly when it reads as neither 0 nor 1, and both endings close right after that read |
| `Client.SaveDownload` | client.py:194-210 | the download is saved under the joined path with exactly the announced payload; the run waits forever exactly when the file opens and the payload is short; a failure to open is reported, not raised |
| `ClientFacts.UploadLayout` | client.py:19-74 | every run is the request frame's sends, then reads only, then the closing actions its ending calls for; when the file does not open or a length overflows, nothing is sent or read |
| `ClientFacts.RequestOnWire` | client.py:41-53 | the client puts exactly one frame on the wire (its metadata, media type and file length in the header, then the metadata, media type and file), or nothing |
| `ClientFacts.ClientCloses` | client.py:72-74 | the socket is closed once, as the last action, on every run that ends; a run that waits forever never closes it |
| `ClientFacts.DownloadFaithful` | client.py:179-210 | a download under a path with given contents happens exactly when: the acknowledgement reads as 0; the reply's error flag is unset; the path joins the reply's file name to the download directory; the file opens; the contents are the announced payload |
| `ClientFacts.StoresOnlyOnDownload` | client.py:198-206 | nothing is written unless the run ends with that download |
| `ClientFacts.ErrorFlagStops` | client.py:189-192 | a reply whose error flag equals True (also 1 or 1.0) ends the run with its message, or with the KeyError for a missing message, before any payload is read |
| `Validate.AcceptedMediaType` | client.py:78-84 | an accepted path ends in ".mp4" or ".avi"; that suffix is the media type sent, unless the last path component has nothing but dots before it |
| `Validate.AcceptedOperationsAreCodes` | client.py:94-97 | the operations the prompt accepts are exactly the codes of the five transforms |
| `Validate.Lookup` | client.py:115-116 | a menu answer finds a value exactly when the table pairs it with that value, and finds none when no key matches |
| `Validate.ChooseResolution` | client.py:107-117 | a resolution is chosen exactly for "1", "2" or "3", and it is that key's entry |
| `Validate.ChooseAspectRatio` | client.py:122-132 | an aspect ratio is chosen exactly for "1", "2" or "3", and it is that key's entry |
| `Validate.MenusDistinguish` | client.py:107-132 | different accepted answers choose different values |
| `Validate.DecimalShowNat` | client.py:157-158 | a whole number written in decimal reads back as itself |
| `Validate.Pad2` | client.py:142 | `:02` writes a number below 100 as two digits that read back as it |
| `Validate.ParseClock` | client.py:144-146 | a start time parses exactly when it matches `^\d{2}:\d{2}:\d{2}$` (a final newline included, as `$` allows), and then stands for HH*3600 + MM*60 + SS seconds, its three two-digit fields read as decimal (so at most 99:99:99's worth, and "00:75:00" is 4500) |
| `Validate.ClockRoundTrip` | client.py:142-146 | a length under 100 hours shown as `HH:MM:SS` parses back to the same number of seconds |
| `Validate.AcceptStartTime` | client.py:143-149 | a start time is accepted exactly when it parses to less than the video length |
| `Validate.AcceptDuration` | client.py:156-160 | a duration is accepted exactly when it is all digits, above 0, and ends by the end of the video |
| `Validate.DurationAnswer` | client.py:155-161 | typing a whole number d is accepted exactly when 0 < d and start + d is within the video |
| `EndToEnd.TransformFor` | server.py:105-122 | the transform the server runs for a request carries the request's operation code |
| `EndToEnd.DispatchInvertsRequest` | server.py:102-122 | `process` undoes the client's metadata: the operations the client accepts are the ones the server knows, each routed to its transform with the client's details; other codes are routed nowhere |
| `EndToEnd.RequestedJob` | server.py:46-47 | the job for a request has the request's operation, works on the stored upload, and names its output with the transform's prefix |
| `EndToEnd.FrameReadBack` | client.py:180-187 | a frame followed by nothing reads back as its metadata, media type and payload |
| `EndToEnd.RequestArrives` | server.py:34-57 | the server reads the client's request as the client meant it: the client's metadata, the basename of its path, and the whole file as payload |
| `EndToEnd.RequestDispatched` | server.py:72 | the server starts the job the client asked for |
| `EndToEnd.ReplyAfterAck` | client.py:55-67 | 0x00 arriving alone reads as accepted, and the frame after it reads back whole |
| `EndToEnd.SuccessReplySaved` | client.py:189-206 | a success frame after 0x00 is saved: its payload, under its file name, in the download directory |
| `EndToEnd.ErrorReplyShown` | client.py:189-192 | an error frame after 0x00 ends the client's run with its message and nothing saved |
| `EndToEnd.RejectionShown` | client.py:60-62 | a lone 0x01 ends the client's run as a rejected upload |
| `EndToEnd.TransformedDownload` | client.py:19-74 | a whole exchange that goes well ends with the client saving exactly the transform's output, under the transform's output name |
| `EndToEnd.FailedRunWire` | server.py:77-94 | a transform that raises is answered with 0x00 and then the error frame carrying the exception's message |
| `EndToEnd.FailedTransformShown` | server.py:72-94 | a whole exchange whose transform fails ends with the client showing the exception's message and saving nothing |
| `EndToEnd.FailedStoreWire` | server.py:62-68 | a failed store puts only 0x01 on the wire |
| `EndToEnd.StoreFaultRejected` | server.py:62-68 | a whole exchange whose upload cannot be stored ends with the client reporting a rejected upload |
| `EndToEnd.EarlyErrorWire` | server.py:77-94 | an error raised before the upload is stored is answered with the error frame alone, with no acknowledgement byte first |
| `EndToEnd.UnacknowledgedErrorMisread` | client.py:55-65 | once two bytes of such a frame have arrived, the client reads them as an acknowledgement of at least the metadata length; it stops on an unexpected acknowledgement and never shows the message |

## Left out

- Sockets, `bind`/`listen`/`accept`/`connect`, and the repetition of the accept
  loop: one connection is modelled, and an exception escaping it is the
  `Crashed` ending.
- ffmpeg and `ffmpeg.probe`: a transform is a world function that succeeds or
  raises. The video length is a given whole number of seconds rather than a
  float, so the client's comparisons against it are on whole seconds.
- Removing old outputs and the stored input around each transform, and creating
  the directories: file-system effects that no property here depends on.
- JSON text: `json.dumps`/`json.loads` form an opaque codec. The end-to-end
  lemmas assume that what one side dumps, the other loads back unchanged.
- `Json.RoundTrips`: promised only for objects of scalars whose floats are whole
  numbers, which are all the peers exchange. Python's `json` also round-trips
  other finite floats and bounds the digits of ints; neither is modelled.
- `print` output and the texts of the client's messages.
- The `input()` retry loops: each prompt is a function of one answer, and None
  means the prompt asks again.
- `int(input(...))` in `input_operation`: the operation is the integer already
  parsed, and the ValueError retry is not modelled.
- `Validate.ParseClock`: accepts ASCII digits only. Python's `\d` and
  `str.isdigit` also accept other Unicode digits.
- `Validate.AcceptDuration`: accepts ASCII digits only. For a character such as
  "²", `str.isdigit` is True but `float` raises ValueError at client.py:158.
  That exception aborts the upload through `upload_file`'s `except`. The model
  instead rejects the answer, which means "ask again".
- `Client.EveryDetailChoosable`: covers GIF starts below 100 hours only, since a
  typed `HH:MM:SS` time stops at 99:99:99.
- Sending in `Conn`, `Server`, `Client` and `EndToEnd` delivers each piece in
  full, as `sendall` does. The short-send finding (`Transfer.ShortSendLosesBytes`)
  is proved in `Transfer` alone, and the connection-level lemmas assume every
  `send` takes its whole piece.
- `recv` timing in the connection functions: a read yields all it asks for while
  the stream lasts. Short reads are modelled only in `Transfer.ReceivePayload`.
  How many acknowledgement bytes had arrived is a world parameter.
- The end-to-end lemmas that go past the acknowledgement need it to arrive
  alone. The server sends it before running the transform, but the code does
  not guarantee this.
- `Server.StoreUpload`: a failure to open or write the upload file is one fault,
  taken before any payload is read. A write that fails part-way leaves
  different bytes unread.
- The client's download write faults are modelled only at open. This is where
  the reply's file name makes them reachable.
- Header fields are never truncated: `int.to_bytes` raises OverflowError for a
  length too wide for its field, and the model follows it (`Bytes.ToBytes`,
  `Frame.ProtocolHeader`).
- An exception raised inside the `except` at server.py:77-94 escapes
  `handle_message` and ends the accept loop; the model makes it the `Crashed`
  ending (`ServerFacts.CrashesOnlyOnOversizedError`,
  `ServerFacts.StoreFaultAsWritten`).

## Findings

| source | as written | input that shows it | evidently intended | confidence | as-written member | corrected member |
|---|---|---|---|---|---|---|
| server.py:62-74 | after a failed store, the `except` sends 0x01 and closes the connection but does not leave the `try` block; `process` and `send_file` then run on the closed connection, and the error reply raised from that escapes the accept loop | an upload whose file cannot be opened for writing, with a known operation | end the connection after 0x01 and go on to the next one | not executed | `ServerFacts.StoreFaultAsWritten` | `ServerFacts.StoreFaultAnswered` |
| client.py:52 | the send loop calls `send(data)` and ignores how many bytes it took (also server.py:195) | a two-byte file whose one `send` takes one byte | send every byte, as `sendall` does | not executed | `Transfer.ShortSendLosesBytes` | `Transfer.SendAll` |
