/**
 What the client's run promises: it sends exactly the request frame, it always
 closes the connection unless a read waits forever, it saves a download only
 after an acknowledgement of 0 and a reply without the error flag, and what it
 saves is the reply's payload under the reply's file name.
 */
module ClientFacts {
  import opened Wrappers
  import opened Bytes
  import Utf8
  import opened Paths
  import opened Json
  import opened Frame
  import opened Conn
  import opened Client

  /** The acknowledgement bytes, as the client reads them. */
  function Ack(w: ClientWorld): seq<byte> {
    AckBytes(w.incoming, w.ackRead)
  }

  /** What follows the acknowledgement on the connection. */
  function Reply(w: ClientWorld): seq<byte> {
    w.incoming[|Ack(w)|..]
  }

  /** Actions that neither send nor close: the client's reads. */
  ghost predicate OnlyReads(s: seq<Action>) {
    forall i :: 0 <= i < |s| ==> s[i].RecvAck? || s[i].RecvHeader? || s[i].RecvBody?
  }

  /**
   Every run is laid out the same way: the sends of the request frame, the reads,
   and the closing actions its ending calls for.
   */
  lemma UploadLayout(w: ClientWorld) returns (sent: seq<Action>, recvs: seq<Action>)
    ensures var o := UploadFile(w);
      && o.trace == sent + recvs + Closing(o.ending)
      && OnlySends(sent) && OnlyReads(recvs)
      && (RequestFrame(w).Some? ==> sent == RequestFrame(w).value)
      && (RequestFrame(w).None? ==> sent == [] && recvs == [])
  {
    var frame := RequestFrame(w);
    recvs := SendingLayout(w, frame);
    sent := if frame.Some? then frame.value else [];
  }

  /** The layout after sending, for any frame sent. */
  lemma SendingLayout(w: ClientWorld, frame: Option<seq<Action>>) returns (recvs: seq<Action>)
    ensures var o := AfterSending(w, frame);
      && o.trace == (if frame.Some? then frame.value else []) + recvs + Closing(o.ending)
      && OnlyReads(recvs)
      && (frame.None? ==> recvs == [])
  {
    var o := AfterSending(w, frame);
    match frame
    case None =>
      recvs := [];
    case Some(sent) =>
      var got := AckBytes(w.incoming, w.ackRead);
      if ClassifyAck(got) == Accepted {
        recvs := AcceptedLayout(w, sent, got);
      } else {
        recvs := [RecvAck(got)];
      }
  }

  /** After an acknowledgement read as accepted: the acknowledgement read, the reply's two reads, the closing actions. */
  lemma AcceptedLayout(w: ClientWorld, sent: seq<Action>, got: seq<byte>) returns (recvs: seq<Action>)
    requires got == AckBytes(w.incoming, w.ackRead) && ClassifyAck(got) == Accepted
    ensures var o := AfterSending(w, Some(sent));
      o.trace == sent + recvs + Closing(o.ending) && OnlyReads(recvs)
  {
    var o := ReceiveFile(w, sent + [RecvAck(got)], w.incoming[|got|..]);
    var head := ReadHead(w.incoming[|got|..]);
    recvs := [RecvAck(got), RecvHeader(head.header), RecvBody(head.body)];
    Regroup(sent, recvs[0], recvs[1], recvs[2], Closing(o.ending));
  }

  lemma Regroup(a: seq<Action>, x: Action, y: Action, z: Action, tail: seq<Action>)
    ensures a + [x] + [y, z] + tail == a + [x, y, z] + tail
  {
    assert a + [x] + [y, z] == a + [x, y, z];
  }

  /** Reads and closes put nothing on the wire. */
  lemma {:induction false} QuietWire(s: seq<Action>)
    requires forall i :: 0 <= i < |s| ==> Sent(s[i]) == []
    ensures Wire(s) == []
  {
    if |s| > 0 {
      QuietWire(s[1..]);
    }
  }

  lemma ClosingQuiet(e: ClientEnding)
    ensures Wire(Closing(e)) == []
  {
    QuietWire(Closing(e));
  }

  /**
   The client puts exactly one frame on the wire: the header for its metadata,
   media type and file size, the metadata and media type, then the file; when the
   file does not open or a length overflows its field, it sends nothing.
   */
  lemma RequestOnWire(w: ClientWorld)
    ensures var json := RequestJson(w);
      var media := RequestMediaType(w.request.filePath);
      Wire(UploadFile(w).trace) ==
        if w.contents.Some? && EncodeHead(json, media, |w.contents.value|).Some?
        then EncodeHead(json, media, |w.contents.value|).value + w.contents.value
        else []
  {
    SendingWire(w, RequestFrame(w));
  }

  lemma SendingWire(w: ClientWorld, frame: Option<seq<Action>>)
    ensures Wire(AfterSending(w, frame).trace) == if frame.Some? then Wire(frame.value) else []
  {
    var recvs := SendingLayout(w, frame);
    var o := AfterSending(w, frame);
    var sent := if frame.Some? then frame.value else [];
    WireAppend(sent + recvs, Closing(o.ending));
    WireAppend(sent, recvs);
    QuietWire(recvs);
    ClosingQuiet(o.ending);
    if frame.None? {
      assert Wire([]) == [];
    }
  }

  /**
   The connection is closed exactly once, as the last action, on every run that
   ends; a run that waits forever never closes it.
   */
  lemma ClientCloses(w: ClientWorld)
    ensures var o := UploadFile(w);
      && (o.ending.Stalled? ==> Close !in o.trace)
      && (!o.ending.Stalled? ==>
            && |o.trace| > 0 && o.trace[|o.trace| - 1] == Close
            && Close !in o.trace[..|o.trace| - 1])
  {
    SendingCloses(w, RequestFrame(w));
  }

  lemma SendingCloses(w: ClientWorld, frame: Option<seq<Action>>)
    requires frame.Some? ==> OnlySends(frame.value)
    ensures var o := AfterSending(w, frame);
      && (o.ending.Stalled? ==> Close !in o.trace)
      && (!o.ending.Stalled? ==>
            && |o.trace| > 0 && o.trace[|o.trace| - 1] == Close
            && Close !in o.trace[..|o.trace| - 1])
  {
    var recvs := SendingLayout(w, frame);
    var o := AfterSending(w, frame);
    var sent := if frame.Some? then frame.value else [];
    NoCloseBefore(sent, recvs);
    ClosingAtEnd(sent + recvs, o.ending);
  }

  lemma NoCloseBefore(sent: seq<Action>, recvs: seq<Action>)
    requires OnlySends(sent) && OnlyReads(recvs)
    ensures Close !in sent + recvs
    ensures forall i :: 0 <= i < |sent + recvs| ==> !(sent + recvs)[i].Store?
  {
    var before := sent + recvs;
    forall i | 0 <= i < |before| ensures before[i] != Close && !before[i].Store? {
      if i < |sent| { assert before[i] == sent[i]; } else { assert before[i] == recvs[i - |sent|]; }
    }
  }

  lemma ClosingAtEnd(before: seq<Action>, e: ClientEnding)
    requires Close !in before
    ensures var t := before + Closing(e);
      && (e.Stalled? ==> Close !in t)
      && (!e.Stalled? ==> |t| > 0 && t[|t| - 1] == Close && Close !in t[..|t| - 1])
  {
    var tail := Closing(e);
    var t := before + tail;
    if !e.Stalled? {
      assert t[..|t| - 1] == before + tail[..|tail| - 1];
      assert Close !in tail[..|tail| - 1];
    } else {
      assert t == before;
    }
  }

  /**
   What the client saves is fixed by the reply: a download under `path` with
   contents `data` happens exactly when the acknowledgement reads as 0, the
   reply's metadata parses with its error flag unset and names the file that
   `path` joins to the download directory, its media type decodes, the download
   file opens, and `data` is the payload the reply's header announces.
   */
  ghost predicate SavedReply(w: ClientWorld, path: string, data: seq<byte>) {
    var stream := Reply(w);
    var head := ReadHead(stream);
    && ClassifyAck(Ack(w)) == Accepted
    && w.codec.loads(head.json).Success?
    && Utf8.Valid(head.mediaType)
    && var meta := w.codec.loads(head.json).value;
    && "error" in meta && !PyEqualsInt(meta["error"], 1)
    && "file_name" in meta && meta["file_name"].JStr?
    && path == Join(ReceiveDir, meta["file_name"].s)
    && ReadPayload(stream, head.Consumed(), head.fields.payloadLength) == Some(data)
  }

  lemma DownloadFaithful(w: ClientWorld, path: string, data: seq<byte>)
    ensures UploadFile(w).ending == Downloaded(path, data) <==>
      RequestFrame(w).Some? && w.saveFault.None? && SavedReply(w, path, data)
  {
    match RequestFrame(w)
    case None =>
    case Some(frame) =>
      var got := Ack(w);
      if ClassifyAck(got) == Accepted {
        ReceiveDownloads(w, frame + [RecvAck(got)], Reply(w), path, data);
      }
  }

  /** `recieve_file` saves exactly the announced payload, under the announced name, when nothing stops it. */
  lemma ReceiveDownloads(w: ClientWorld, trace: seq<Action>, stream: seq<byte>, path: string, data: seq<byte>)
    ensures var head := ReadHead(stream);
      ReceiveFile(w, trace, stream).ending == Downloaded(path, data) <==>
        && w.codec.loads(head.json).Success?
        && Utf8.Valid(head.mediaType)
        && var meta := w.codec.loads(head.json).value;
        && "error" in meta && !PyEqualsInt(meta["error"], 1)
        && "file_name" in meta && meta["file_name"].JStr?
        && path == Join(ReceiveDir, meta["file_name"].s)
        && w.saveFault.None?
        && ReadPayload(stream, head.Consumed(), head.fields.payloadLength) == Some(data)
  {
  }

  /** A download is saved only as the run's last step before the close: nothing else is ever written. */
  lemma StoresOnlyOnDownload(w: ClientWorld)
    ensures var o := UploadFile(w);
      forall i :: 0 <= i < |o.trace| && o.trace[i].Store? ==>
        o.ending.Downloaded? && o.trace[i] == Store(o.ending.path, o.ending.data)
  {
    var sent, recvs := UploadLayout(w);
    var o := UploadFile(w);
    NoCloseBefore(sent, recvs);
    StoreInClosing(sent + recvs, o.ending);
  }

  lemma StoreInClosing(before: seq<Action>, e: ClientEnding)
    requires forall i :: 0 <= i < |before| ==> !before[i].Store?
    ensures var t := before + Closing(e);
      forall i :: 0 <= i < |t| && t[i].Store? ==> e.Downloaded? && t[i] == Store(e.path, e.data)
  {
    var t := before + Closing(e);
    forall i | 0 <= i < |t| && t[i].Store? ensures e.Downloaded? && t[i] == Store(e.path, e.data) {
      assert t[i] == Closing(e)[i - |before|];
    }
  }

  /**
   A reply with its error flag set (`== True`: also 1 or 1.0) ends the run before
   any payload is read: the message is shown and the client exits, or the lookup
   of the message raises; nothing is saved.
   */
  lemma ErrorFlagStops(w: ClientWorld)
    requires RequestFrame(w).Some? && ClassifyAck(Ack(w)) == Accepted
    requires var head := ReadHead(Reply(w));
      && w.codec.loads(head.json).Success? && Utf8.Valid(head.mediaType)
      && "error" in w.codec.loads(head.json).value && PyEqualsInt(w.codec.loads(head.json).value["error"], 1)
    ensures var meta := w.codec.loads(ReadHead(Reply(w)).json).value;
      var o := UploadFile(w);
      && o.ending == (if "error_message" in meta then RemoteError(meta["error_message"]) else Aborted(KeyMissing("error_message")))
      && Closing(o.ending) == [Close]
  {
    var trace := RequestFrame(w).value + [RecvAck(Ack(w))];
    AcceptedRun(w);
    ReceiveErrorFlag(w, trace, Reply(w));
  }

  /** After an accepted acknowledgement the run is `recieve_file` over the rest of the stream. */
  lemma AcceptedRun(w: ClientWorld)
    requires RequestFrame(w).Some? && ClassifyAck(Ack(w)) == Accepted
    ensures UploadFile(w) == ReceiveFile(w, RequestFrame(w).value + [RecvAck(Ack(w))], Reply(w))
  {
  }

  lemma ReceiveErrorFlag(w: ClientWorld, trace: seq<Action>, stream: seq<byte>)
    requires var head := ReadHead(stream);
      && w.codec.loads(head.json).Success? && Utf8.Valid(head.mediaType)
      && "error" in w.codec.loads(head.json).value && PyEqualsInt(w.codec.loads(head.json).value["error"], 1)
    ensures var meta := w.codec.loads(ReadHead(stream).json).value;
      var o := ReceiveFile(w, trace, stream);
      && o.ending == (if "error_message" in meta then RemoteError(meta["error_message"]) else Aborted(KeyMissing("error_message")))
      && Closing(o.ending) == [Close]
  {
  }
}
