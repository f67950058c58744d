/**
 What the server's connection handler guarantees, over every world it can run
 in: how an empty upload is answered, that each acknowledgement tells the truth
 about the stored file, that the connection is always closed, and how a failure
 to store the upload ends the connection as written and as intended.
 */
module ServerFacts {
  import opened Wrappers
  import opened Bytes
  import Utf8
  import opened Paths
  import opened Json
  import opened Frame
  import opened Conn
  import opened Server

  /** The bytes after the frame head that the header declares as payload (fewer when the stream ends early). */
  function DeclaredPayload(w: ServerWorld): seq<byte> {
    var head := ReadHead(w.incoming);
    Slice(w.incoming, head.Consumed(), head.Consumed() + head.fields.payloadLength)
  }

  /** The metadata parses, the media type decodes and the file name is a string: the handler reaches the upload file. */
  predicate ReachesStore(w: ServerWorld) {
    var head := ReadHead(w.incoming);
    && head.fields.payloadLength > 0
    && w.codec.loads(head.json).Success?
    && Utf8.Valid(head.mediaType)
    && StringField(w.codec.loads(head.json).value, "file_name").Success?
  }

  function UploadMeta(w: ServerWorld): JsonObject
    requires ReachesStore(w)
  {
    w.codec.loads(ReadHead(w.incoming).json).value
  }

  function UploadName(w: ServerWorld): string
    requires ReachesStore(w)
  {
    StringField(UploadMeta(w), "file_name").value
  }

  /** Where the upload is stored. */
  function UploadPath(w: ServerWorld): string
    requires ReachesStore(w)
  {
    Join(ProcessedDir, UploadName(w))
  }

  /** Neither a storage step nor an acknowledgement. */
  predicate Passive(a: Action) {
    !a.Store? && !a.StoreFailed? && !a.SendAck?
  }

  ghost predicate Quiet(s: seq<Action>) {
    forall i :: 0 <= i < |s| ==> Passive(s[i])
  }

  /**
   Every acknowledgement follows the storage step it reports: 0x00 right after the
   declared payload was stored, 0x01 right after storing failed; every storage
   step is acknowledged at once; and there is at most one acknowledgement.
   */
  ghost predicate AcksFaithful(s: seq<Action>, payload: seq<byte>) {
    && (|s| > 0 ==> !s[0].SendAck? && !s[|s| - 1].Store? && !s[|s| - 1].StoreFailed?)
    && (forall i, j :: 0 <= i && j == i + 1 && j < |s| && s[j].SendAck? ==>
          (s[j].code == 0 && s[i].Store? && s[i].data == payload) || (s[j].code == 1 && s[i].StoreFailed?))
    && (forall i, j :: 0 <= i && j == i + 1 && j < |s| && s[i].Store? ==> s[j] == SendAck(0))
    && (forall i, j :: 0 <= i && j == i + 1 && j < |s| && s[i].StoreFailed? ==> s[j] == SendAck(1))
    && (forall i, j :: 0 <= i < j < |s| && s[i].SendAck? ==> !s[j].SendAck?)
  }

  /** Running a transform or sending a reply: what the handler does after storage. */
  predicate Working(a: Action) {
    a.RunTransform? || a.SendHeader? || a.SendBody? || a.SendChunk?
  }

  ghost predicate Busy(s: seq<Action>) {
    forall i :: 0 <= i < |s| ==> Working(s[i])
  }

  lemma BusyIsQuiet(s: seq<Action>)
    requires Busy(s)
    ensures Quiet(s) && Close !in s
  {
    forall i | 0 <= i < |s| ensures Passive(s[i]) && s[i] != Close {
      assert Working(s[i]);
    }
  }

  lemma OnlySendsIsQuiet(s: seq<Action>)
    requires OnlySends(s)
    ensures Quiet(s)
  {
    forall i | 0 <= i < |s| ensures Passive(s[i]) {
      assert s[i].SendHeader? || s[i].SendBody? || s[i].SendChunk?;
    }
  }

  lemma QuietAppend(a: seq<Action>, b: seq<Action>)
    requires Quiet(a) && Quiet(b)
    ensures Quiet(a + b)
  {
    forall i | 0 <= i < |a + b| ensures Passive((a + b)[i]) {
      if i < |a| { assert (a + b)[i] == a[i]; } else { assert (a + b)[i] == b[i - |a|]; }
    }
  }

  /** What `Process` adds to a trace only runs the transform and replies. */
  lemma ProcessIsBusy(s: seq<Action>, t: seq<Action>)
    requires |t| <= |s| && (|s| > |t| ==> s[|t|].RunTransform? && OnlySends(s[|t| + 1..]))
    ensures Busy(s[|t|..])
  {
    forall i | 0 <= i < |s[|t|..]| ensures Working(s[|t|..][i]) {
      if i > 0 { assert s[|t|..][i] == s[|t| + 1..][i - 1]; }
    }
  }

  /**
   What the upload-file step leaves in a trace: nothing, the stored payload and
   0x00, or the failure and 0x01 (followed, as written, by the inner close).
   */
  predicate StorageStep(st: seq<Action>, payload: seq<byte>) {
    || |st| == 0
    || (|st| == 2 && st[0].Store? && st[0].data == payload && st[1] == SendAck(0))
    || (2 <= |st| <= 3 && st[0].StoreFailed? && st[1] == SendAck(1) && st[2..] <= [Close])
  }

  /** The reads a handler makes before storage: the header, then the body. */
  predicate ReadsOnly(r: seq<Action>) {
    |r| <= 2 && (|r| > 0 ==> r[0].RecvHeader?) && (|r| > 1 ==> r[1].RecvBody?)
  }

  /** `Process` continues a trace with the transform and the reply only. */
  lemma ProcessAfter(w: ServerWorld, pre: seq<Action>, open: bool, meta: JsonObject, path: string, name: string)
    returns (rest: seq<Action>)
    ensures Process(w, pre, open, meta, path, name).trace == pre + rest && Busy(rest)
  {
    var q := Process(w, pre, open, meta, path, name);
    rest := q.trace[|pre|..];
    ProcessIsBusy(q.trace, pre);
  }

  /** A failed store, as written: 0x01, the close, then `process` on the closed connection. */
  lemma StoreFailedShape(w: ServerWorld, head: Head, t: seq<Action>, meta: JsonObject, name: string)
    returns (rest: seq<Action>)
    requires w.storeFault.Some?
    ensures var path := Join(ProcessedDir, name);
      StoreUpload(w, head, t, meta, name, true).trace == t + [StoreFailed(path), SendAck(1), Close] + rest
    ensures Busy(rest)
  {
    var path := Join(ProcessedDir, name);
    rest := ProcessAfter(w, t + [StoreFailed(path), SendAck(1), Close], false, meta, path, name);
  }

  /** A stored upload: the payload written, 0x00, then `process`. */
  lemma StoredShape(w: ServerWorld, head: Head, t: seq<Action>, meta: JsonObject, name: string, fallThrough: bool)
    returns (st: seq<Action>, rest: seq<Action>)
    requires w.storeFault.None?
    ensures var payload := Slice(w.incoming, head.Consumed(), head.Consumed() + head.fields.payloadLength);
      && StoreUpload(w, head, t, meta, name, fallThrough).trace == t + st + rest
      && StorageStep(st, payload) && Busy(rest) && |st| != 3
  {
    var path := Join(ProcessedDir, name);
    st, rest := [], [];
    var data := ReadPayload(w.incoming, head.Consumed(), head.fields.payloadLength);
    if data.Some? {
      st := [Store(path, data.value), SendAck(0)];
      rest := ProcessAfter(w, t + st, true, meta, path, name);
    }
  }

  /** Before the upload file, the `try` block only reads the header and the body. */
  lemma AttemptBeforeStore(w: ServerWorld, fallThrough: bool)
    requires !ReachesStore(w)
    ensures ReadsOnly(Attempt(w, fallThrough).trace)
  {
  }

  lemma AttemptReachesStore(w: ServerWorld, fallThrough: bool)
    requires ReachesStore(w)
    ensures var head := ReadHead(w.incoming);
      Attempt(w, fallThrough)
      == StoreUpload(w, head, [RecvHeader(head.header), RecvBody(head.body)], UploadMeta(w), UploadName(w), fallThrough)
  {
  }

  /** `StoreUpload` split into the storage step and what follows it. */
  lemma StoreUploadShape(w: ServerWorld, head: Head, t: seq<Action>, meta: JsonObject, name: string, fallThrough: bool)
    returns (st: seq<Action>, rest: seq<Action>)
    ensures var payload := Slice(w.incoming, head.Consumed(), head.Consumed() + head.fields.payloadLength);
      && StoreUpload(w, head, t, meta, name, fallThrough).trace == t + st + rest
      && StorageStep(st, payload) && Busy(rest) && (|st| == 3 ==> fallThrough)
  {
    if w.storeFault.None? {
      st, rest := StoredShape(w, head, t, meta, name, fallThrough);
    } else if fallThrough {
      st := [StoreFailed(Join(ProcessedDir, name)), SendAck(1), Close];
      rest := StoreFailedShape(w, head, t, meta, name);
    } else {
      st, rest := [StoreFailed(Join(ProcessedDir, name)), SendAck(1)], [];
    }
  }

  /** The handler's `try` block: the reads, the storage step, then only the transform and the reply. */
  lemma AttemptShape(w: ServerWorld, fallThrough: bool) returns (recvs: seq<Action>, st: seq<Action>, rest: seq<Action>)
    ensures Attempt(w, fallThrough).trace == recvs + st + rest
    ensures ReadsOnly(recvs) && StorageStep(st, DeclaredPayload(w)) && Busy(rest) && (|st| == 3 ==> fallThrough)
  {
    if !ReachesStore(w) {
      AttemptBeforeStore(w, fallThrough);
      recvs, st, rest := Attempt(w, fallThrough).trace, [], [];
    } else {
      var head := ReadHead(w.incoming);
      recvs := [RecvHeader(head.header), RecvBody(head.body)];
      AttemptReachesStore(w, fallThrough);
      st, rest := StoreUploadShape(w, head, recvs, UploadMeta(w), UploadName(w), fallThrough);
    }
  }

  /** Where each part of `recvs + st + tail` lands in `s`. */
  ghost predicate Laid(s: seq<Action>, recvs: seq<Action>, st: seq<Action>) {
    forall i :: 0 <= i < |s| ==>
      && (i < |recvs| ==> s[i] == recvs[i] && Passive(s[i]))
      && (|recvs| <= i < |recvs| + |st| ==> s[i] == st[i - |recvs|])
      && (|recvs| + |st| <= i ==> Passive(s[i]))
  }

  lemma LaidOut(recvs: seq<Action>, st: seq<Action>, tail: seq<Action>)
    requires ReadsOnly(recvs) && Quiet(tail)
    ensures Laid(recvs + st + tail, recvs, st)
  {
    var s := recvs + st + tail;
    assert forall i :: 0 <= i < |s| ==>
      && (i < |recvs| ==> s[i] == recvs[i] && Passive(s[i]))
      && (|recvs| <= i < |recvs| + |st| ==> s[i] == st[i - |recvs|])
      && (|recvs| + |st| <= i ==> s[i] == tail[i - |recvs| - |st|] && Passive(s[i]));
  }

  lemma LaidAcksFaithful(s: seq<Action>, recvs: seq<Action>, st: seq<Action>, payload: seq<byte>)
    requires ReadsOnly(recvs) && StorageStep(st, payload) && |recvs| + |st| <= |s| && Laid(s, recvs, st)
    ensures AcksFaithful(s, payload)
  {
  }

  /** The trace shape the handler produces keeps every acknowledgement faithful. */
  lemma ShapeAcksFaithful(recvs: seq<Action>, st: seq<Action>, tail: seq<Action>, payload: seq<byte>)
    requires ReadsOnly(recvs) && StorageStep(st, payload) && Quiet(tail)
    ensures AcksFaithful(recvs + st + tail, payload)
  {
    LaidOut(recvs, st, tail);
    LaidAcksFaithful(recvs + st + tail, recvs, st, payload);
  }

  /** After the `try` block the handler adds nothing (a hang), or an optional error frame and the close. */
  lemma FinishShape(w: ServerWorld, p: Progress) returns (reply: seq<Action>)
    ensures var o := Finish(w, p);
      && OnlySends(reply)
      && (o.ending.Stalled? <==> p.Hung?)
      && (p.Hung? ==> o.trace == p.trace)
      && (!p.Hung? ==> o.trace == p.trace + reply + [Close])
  {
    reply := [];
    if p.Raised? && p.open {
      var frame := ErrorFrame(w.codec, ErrorMessage(w, p.error));
      if frame.Some? {
        reply := frame.value;
      }
    }
  }

  /**
   Acknowledgement fidelity: 0x00 is sent only right after the declared payload
   was written to the upload file, 0x01 only right after that failed, each
   storage step is acknowledged at once, and at most once per connection.
   */
  lemma AckFidelity(w: ServerWorld, fallThrough: bool)
    ensures AcksFaithful(Handle(w, fallThrough).trace, DeclaredPayload(w))
  {
    var recvs, st, rest := AttemptShape(w, fallThrough);
    FinishedAcksFaithful(w, Attempt(w, fallThrough), recvs, st, rest, DeclaredPayload(w));
  }

  lemma FinishedAcksFaithful(w: ServerWorld, p: Progress, recvs: seq<Action>, st: seq<Action>, rest: seq<Action>, payload: seq<byte>)
    requires p.trace == recvs + st + rest && ReadsOnly(recvs) && StorageStep(st, payload) && Busy(rest)
    ensures AcksFaithful(Finish(w, p).trace, payload)
  {
    var reply := FinishShape(w, p);
    if p.Hung? {
      ShapeThenQuiet(recvs, st, rest, [], payload);
      assert p.trace + [] == p.trace;
    } else {
      OnlySendsIsQuiet(reply);
      QuietAppend(reply, [Close]);
      ShapeThenQuiet(recvs, st, rest, reply + [Close], payload);
      assert p.trace + reply + [Close] == p.trace + (reply + [Close]);
    }
  }

  lemma ShapeThenQuiet(recvs: seq<Action>, st: seq<Action>, rest: seq<Action>, extra: seq<Action>, payload: seq<byte>)
    requires ReadsOnly(recvs) && StorageStep(st, payload) && Busy(rest) && Quiet(extra)
    ensures AcksFaithful(recvs + st + rest + extra, payload)
  {
    BusyIsQuiet(rest);
    QuietAppend(rest, extra);
    assert recvs + st + rest + extra == recvs + st + (rest + extra);
    ShapeAcksFaithful(recvs, st, rest + extra, payload);
  }

  /**
   An upload declaring an empty payload is answered with the error frame carrying
   "No data to read from client." after reading only the header: no body read,
   no storage, no acknowledgement, no transform. When that frame's metadata is too
   long for the header, the exception escapes the handler instead.
   */
  lemma EmptyUploadRejected(w: ServerWorld, fallThrough: bool)
    requires ReadHead(w.incoming).fields.payloadLength == 0
    ensures var h := ReadHead(w.incoming).header;
      match ErrorFrame(w.codec, NoDataMessage)
      case Some(frame) => Handle(w, fallThrough) == Outcome([RecvHeader(h)] + frame + [Close], Served)
      case None => Handle(w, fallThrough) == Outcome([RecvHeader(h), Close], Crashed(FieldOverflow))
  {
  }

  /**
   The connection is closed on every path that does not hang: a reply (if any) is
   followed by the close, and nothing follows the close. The handler hangs exactly
   when it reaches the upload file and the stream ends before the declared payload.
   */
  lemma AlwaysCloses(w: ServerWorld, fallThrough: bool)
    ensures var o := Handle(w, fallThrough);
      && (o.ending.Stalled? <==> PayloadCutShort(w))
      && (!o.ending.Stalled? ==> |o.trace| > 0 && o.trace[|o.trace| - 1] == Close)
      && (o.ending.Stalled? ==> Close !in o.trace)
  {
    HangsExactly(w, fallThrough);
    var reply := FinishShape(w, Attempt(w, fallThrough));
  }

  /** The handler reaches the upload file and the stream ends before the declared payload does. */
  predicate PayloadCutShort(w: ServerWorld) {
    var head := ReadHead(w.incoming);
    ReachesStore(w) && w.storeFault.None? && |w.incoming| < head.Consumed() + head.fields.payloadLength
  }

  /** The `try` block hangs exactly on a payload cut short, after reading the header and the body. */
  lemma HangsExactly(w: ServerWorld, fallThrough: bool)
    ensures Attempt(w, fallThrough).Hung? <==> PayloadCutShort(w)
    ensures Attempt(w, fallThrough).Hung? ==>
      Attempt(w, fallThrough).trace == [RecvHeader(ReadHead(w.incoming).header), RecvBody(ReadHead(w.incoming).body)]
  {
    if ReachesStore(w) {
      AttemptReachesStore(w, fallThrough);
    } else {
      AttemptBeforeStore(w, fallThrough);
    }
  }

  /** With the failed-store branch ending the connection, the `try` block never closes the connection itself. */
  lemma TryNeverCloses(w: ServerWorld)
    ensures Close !in Attempt(w, false).trace
  {
    var recvs, st, rest := AttemptShape(w, false);
    NoCloseBeforeReply(recvs, st, rest, DeclaredPayload(w));
  }

  lemma NoCloseBeforeReply(recvs: seq<Action>, st: seq<Action>, rest: seq<Action>, payload: seq<byte>)
    requires ReadsOnly(recvs) && StorageStep(st, payload) && |st| <= 2 && Busy(rest)
    ensures Close !in recvs + st + rest
  {
    BusyIsQuiet(rest);
    assert forall i :: 0 <= i < |recvs + st| ==> (recvs + st)[i] != Close by {
      assert forall i :: 0 <= i < |recvs| ==> recvs[i] != Close;
    }
    assert forall i :: 0 <= i < |recvs + st + rest| ==> (recvs + st + rest)[i] != Close by {
      assert forall i :: |recvs + st| <= i < |recvs + st + rest| ==> (recvs + st + rest)[i] == rest[i - |recvs + st|];
    }
  }

  /** With the failed-store branch ending the connection, the handler closes exactly once, as its last action. */
  lemma ClosesOnce(w: ServerWorld)
    ensures var o := HandleConnection(w);
      !o.ending.Stalled? ==> forall i :: 0 <= i < |o.trace| - 1 ==> o.trace[i] != Close
  {
    TryNeverCloses(w);
    FinishClosesLast(w, Attempt(w, false));
  }

  /** After a `try` block that did not close, the handler's only close is its last action. */
  lemma FinishClosesLast(w: ServerWorld, p: Progress)
    requires Close !in p.trace
    ensures var o := Finish(w, p);
      !o.ending.Stalled? ==> forall i :: 0 <= i < |o.trace| - 1 ==> o.trace[i] != Close
  {
    var reply := FinishShape(w, p);
    var a := p.trace;
    forall i | 0 <= i < |reply| ensures reply[i] != Close {
      assert reply[i].SendHeader? || reply[i].SendBody? || reply[i].SendChunk?;
    }
    forall i | 0 <= i < |a + reply| ensures (a + reply)[i] != Close {
      if i >= |a| { assert (a + reply)[i] == reply[i - |a|]; }
    }
  }

  /** The first five actions when storing the upload fails: both reads, the failure, 0x01 and the close. */
  function FailedStoreStart(w: ServerWorld): seq<Action>
    requires ReachesStore(w)
  {
    var head := ReadHead(w.incoming);
    [RecvHeader(head.header), RecvBody(head.body)] + [StoreFailed(UploadPath(w)), SendAck(1), Close]
  }

  /**
   As written, a failure to store the upload does not end the connection: after
   0x01 and the close, the handler dispatches the operation anyway (running the
   transform on the file it could not store), every send then meets the closed
   connection, and the exception raised inside the `except` block ends the accept
   loop: the server stops serving.
   */
  lemma StoreFaultAsWritten(w: ServerWorld)
    requires ReachesStore(w) && w.storeFault.Some?
    ensures var o := HandleConnectionAsWritten(w);
      && o.ending.Crashed?
      && |o.trace| > 5 && o.trace[..5] == FailedStoreStart(w)
      && (Dispatch(UploadMeta(w), UploadPath(w), UploadName(w)).Success? &&
          Dispatch(UploadMeta(w), UploadPath(w), UploadName(w)).value.Some? ==>
          o.trace[5] == RunTransform(Dispatch(UploadMeta(w), UploadPath(w), UploadName(w)).value.value))
  {
    var pre := FailedStoreStart(w);
    var p := Process(w, pre, false, UploadMeta(w), UploadPath(w), UploadName(w));
    FailedStoreProcesses(w);
    assert HandleConnectionAsWritten(w) == Finish(w, p);
    ProcessOnClosed(w, pre, UploadMeta(w), UploadPath(w), UploadName(w));
    FinishClosed(w, p);
  }

  lemma FailedStoreProcesses(w: ServerWorld)
    requires ReachesStore(w) && w.storeFault.Some?
    ensures Attempt(w, true) == Process(w, FailedStoreStart(w), false, UploadMeta(w), UploadPath(w), UploadName(w))
  {
    AttemptReachesStore(w, true);
    var head := ReadHead(w.incoming);
    var t := [RecvHeader(head.header), RecvBody(head.body)];
    assert t + [StoreFailed(UploadPath(w)), SendAck(1), Close] == FailedStoreStart(w);
  }

  /** `Process` on a closed connection always raises, and it runs the transform whenever the operation is known. */
  lemma ProcessOnClosed(w: ServerWorld, pre: seq<Action>, meta: JsonObject, path: string, name: string)
    ensures var q := Process(w, pre, false, meta, path, name);
      && q.Raised? && !q.open && |pre| <= |q.trace| && q.trace[..|pre|] == pre
      && (Dispatch(meta, path, name).Success? && Dispatch(meta, path, name).value.Some? ==>
            |q.trace| > |pre| && q.trace[|pre|] == RunTransform(Dispatch(meta, path, name).value.value))
  {
  }

  /** A `try` block that raised after the close ends the accept loop, with the close as the handler's last action. */
  lemma FinishClosed(w: ServerWorld, p: Progress)
    requires p.Raised? && !p.open
    ensures Finish(w, p).ending.Crashed? && Finish(w, p).trace == p.trace + [Close]
    ensures forall i :: 0 <= i < |p.trace| ==> Finish(w, p).trace[i] == p.trace[i]
    ensures |p.trace| >= 5 ==> Finish(w, p).trace[..5] == p.trace[..5]
  {
  }

  /**
   With the failed-store branch ending the connection, a failure to store the
   upload is answered with 0x01 and the connection closed, nothing is dispatched,
   and the server goes on to the next connection.
   */
  lemma StoreFaultAnswered(w: ServerWorld)
    requires ReachesStore(w) && w.storeFault.Some?
    ensures HandleConnection(w) == Outcome(FailedStoreStart(w), Served)
  {
    AttemptReachesStore(w, false);
  }

  /** With the failed-store branch ending the connection, the `try` block never stops with the connection closed. */
  lemma StaysOpen(w: ServerWorld)
    ensures Attempt(w, false).Raised? ==> Attempt(w, false).open
  {
    if ReachesStore(w) {
      AttemptReachesStore(w, false);
    } else {
      AttemptBeforeStore(w, false);
    }
  }

  /**
   With the failed-store branch ending the connection, the only exception that can
   escape the handler (and stop the server) is an error frame whose metadata is
   too long for the header; a send on a closed connection cannot happen.
   */
  lemma CrashesOnlyOnOversizedError(w: ServerWorld)
    ensures var o := HandleConnection(w);
      o.ending.Crashed? ==>
        && o.ending.error == FieldOverflow
        && Attempt(w, false).Raised?
        && ErrorFrame(w.codec, ErrorMessage(w, Attempt(w, false).error)).None?
  {
    StaysOpen(w);
  }

  /** Each transform run in a trace sits at position `k` and reads the file at `path`. */
  ghost predicate TransformsOnlyAt(s: seq<Action>, k: nat, path: string) {
    forall i :: 0 <= i < |s| && s[i].RunTransform? ==> i == k && s[i].job.input == path
  }

  lemma ProcessTransformsOnce(w: ServerWorld, pre: seq<Action>, open: bool, meta: JsonObject, path: string, name: string)
    requires forall i :: 0 <= i < |pre| ==> !pre[i].RunTransform?
    ensures TransformsOnlyAt(Process(w, pre, open, meta, path, name).trace, |pre|, path)
  {
    var q := Process(w, pre, open, meta, path, name);
    if |q.trace| > |pre| {
      var job := Dispatch(meta, path, name).value.value;
      assert job.input == path;
      forall i | |pre| < i < |q.trace| ensures !q.trace[i].RunTransform? {
        assert q.trace[i] == q.trace[|pre| + 1..][i - |pre| - 1];
      }
    }
    forall i | 0 <= i < |pre| ensures q.trace[i] == pre[i] {
      assert q.trace[..|pre|][i] == pre[i];
    }
  }

  lemma FinishTransformsOnlyAt(w: ServerWorld, p: Progress, k: nat, path: string)
    requires TransformsOnlyAt(p.trace, k, path)
    ensures TransformsOnlyAt(Finish(w, p).trace, k, path)
  {
    var reply := FinishShape(w, p);
    var s := Finish(w, p).trace;
    if !p.Hung? {
      forall i | |p.trace| <= i < |s| ensures !s[i].RunTransform? {
        if i < |p.trace| + |reply| {
          assert s[i] == reply[i - |p.trace|];
        } else {
          assert s[i] == Close;
        }
      }
    }
  }

  /**
   With the failed-store branch ending the connection, a transform runs at most
   once, only right after the declared payload was stored and 0x00 was sent, and
   it reads the file the payload was stored in.
   */
  lemma TransformAfterStore(w: ServerWorld)
    ensures var o := HandleConnection(w);
      forall i :: 0 <= i < |o.trace| && o.trace[i].RunTransform? ==>
        && i == 4
        && o.trace[2] == Store(o.trace[4].job.input, DeclaredPayload(w))
        && o.trace[3] == SendAck(0)
  {
    var p := Attempt(w, false);
    var s := HandleConnection(w).trace;
    assert HandleConnection(w) == Finish(w, p);
    if ReachesStore(w) && w.storeFault.None? && !PayloadCutShort(w) {
      StoredTransformOnly(w);
      TransformsBehindStore(s, UploadPath(w), DeclaredPayload(w));
    } else {
      NoTransformWithoutStore(w);
      FinishTransformsOnlyAt(w, p, |s|, "");
    }
  }

  /** Transforms only at position 4, reading `path`, behind the store of `path` and 0x00. */
  lemma TransformsBehindStore(s: seq<Action>, path: string, payload: seq<byte>)
    requires TransformsOnlyAt(s, 4, path) && |s| >= 4 && s[2] == Store(path, payload) && s[3] == SendAck(0)
    ensures forall i :: 0 <= i < |s| && s[i].RunTransform? ==>
      i == 4 && s[2] == Store(s[4].job.input, payload) && s[3] == SendAck(0)
  {
  }

  /** Once the payload is stored, every transform reads the stored file and follows the first four actions. */
  lemma StoredTransformOnly(w: ServerWorld)
    requires ReachesStore(w) && w.storeFault.None? && !PayloadCutShort(w)
    ensures var s := HandleConnection(w).trace;
      TransformsOnlyAt(s, 4, UploadPath(w)) && |s| >= 4 && s[..4] == StoredStart(w)
  {
    var p := Attempt(w, false);
    var pre := StoredStart(w);
    StoredProcesses(w, false);
    ProcessTransformsOnce(w, pre, true, UploadMeta(w), UploadPath(w), UploadName(w));
    FinishTransformsOnlyAt(w, p, 4, UploadPath(w));
    FinishKeeps(w, p, 4);
    assert p.trace[..4] == pre;
  }

  /** The handler's reply and close come after what the `try` block did. */
  lemma FinishKeeps(w: ServerWorld, p: Progress, k: nat)
    requires k <= |p.trace|
    ensures k <= |Finish(w, p).trace| && Finish(w, p).trace[..k] == p.trace[..k]
  {
    var reply := FinishShape(w, p);
  }

  /** The first four actions when the upload is stored: both reads, the stored payload, 0x00. */
  function StoredStart(w: ServerWorld): (r: seq<Action>)
    requires ReachesStore(w)
    ensures |r| == 4 && r[2] == Store(UploadPath(w), DeclaredPayload(w)) && r[3] == SendAck(0)
    ensures forall i :: 0 <= i < |r| ==> !r[i].RunTransform?
  {
    var head := ReadHead(w.incoming);
    [RecvHeader(head.header), RecvBody(head.body)] + [Store(UploadPath(w), DeclaredPayload(w)), SendAck(0)]
  }

  /** With the upload stored, the handler goes on to `process` with the connection open. */
  lemma StoredProcesses(w: ServerWorld, fallThrough: bool)
    requires ReachesStore(w) && w.storeFault.None? && !PayloadCutShort(w)
    ensures Attempt(w, fallThrough) == Process(w, StoredStart(w), true, UploadMeta(w), UploadPath(w), UploadName(w))
  {
    AttemptReachesStore(w, fallThrough);
    var head := ReadHead(w.incoming);
    var t := [RecvHeader(head.header), RecvBody(head.body)];
    var data := DeclaredPayload(w);
    PayloadRead(w);
    StoreUploadStored(w, head, t, UploadMeta(w), UploadName(w), fallThrough, data);
    assert t + [Store(UploadPath(w), data), SendAck(0)] == StoredStart(w);
  }

  /** When the stream is long enough, the receive loop (server.py:52-57) hands back exactly the declared payload. */
  lemma PayloadRead(w: ServerWorld)
    requires ReachesStore(w) && w.storeFault.None? && !PayloadCutShort(w)
    ensures var head := ReadHead(w.incoming);
      ReadPayload(w.incoming, head.Consumed(), head.fields.payloadLength) == Some(DeclaredPayload(w))
  {
  }

  lemma StoreUploadStored(w: ServerWorld, head: Head, t: seq<Action>, meta: JsonObject, name: string, fallThrough: bool, data: seq<byte>)
    requires w.storeFault.None? && ReadPayload(w.incoming, head.Consumed(), head.fields.payloadLength) == Some(data)
    ensures var path := Join(ProcessedDir, name);
      StoreUpload(w, head, t, meta, name, fallThrough) == Process(w, t + [Store(path, data), SendAck(0)], true, meta, path, name)
  {
  }

  /** Without a stored payload, the `try` block runs no transform. */
  lemma NoTransformWithoutStore(w: ServerWorld)
    requires var head := ReadHead(w.incoming);
      !(ReachesStore(w) && w.storeFault.None?
        && ReadPayload(w.incoming, head.Consumed(), head.fields.payloadLength).Some?)
    ensures var t := Attempt(w, false).trace;
      forall i :: 0 <= i < |t| ==> !t[i].RunTransform?
  {
    if ReachesStore(w) {
      AttemptReachesStore(w, false);
    } else {
      AttemptBeforeStore(w, false);
    }
  }

  /**
   An error is answered, on an open connection, with exactly the frame that
   carries its message and then the close; when that frame does not fit the
   header, the handler crashes instead.
   */
  lemma ErrorReply(w: ServerWorld, p: Progress)
    requires p.Raised? && p.open
    ensures var json := w.codec.dumps(ErrorMetadata(ErrorMessage(w, p.error)));
      var o := Finish(w, p);
      && (EncodeHead(json, [], 0).Some? ==>
            o.ending == Served && Wire(o.trace) == Wire(p.trace) + EncodeHead(json, [], 0).value)
      && (EncodeHead(json, [], 0).None? ==> o == Outcome(p.trace + [Close], Crashed(FieldOverflow)))
  {
    var frame := ErrorFrame(w.codec, ErrorMessage(w, p.error));
    if frame.Some? {
      WireAppend(p.trace + frame.value, [Close]);
      WireAppend(p.trace, frame.value);
      assert Wire([Close]) == [];
    }
  }

  /**
   The successful exchange: the payload is stored and acknowledged with 0x00, the
   transform runs once, the output goes back in a success frame, and the
   connection is closed.
   */
  lemma HappyPath(w: ServerWorld, job: Job, contents: seq<byte>)
    requires ReachesStore(w) && w.storeFault.None? && !PayloadCutShort(w)
    requires Dispatch(UploadMeta(w), UploadPath(w), UploadName(w)) == Success(Some(job))
    requires w.run(job).None? && w.outputs(job.output) == Some(contents)
    requires SuccessFrame(w.codec, job.output, contents).Some?
    ensures HandleConnection(w) ==
      Outcome(StoredStart(w) + [RunTransform(job)] + SuccessFrame(w.codec, job.output, contents).value + [Close], Served)
  {
    StoredProcesses(w, false);
  }

  /**
   On the wire, the successful exchange is the byte 0x00 and then one frame: the
   metadata naming the output by its basename, its extension as media type, and
   its contents as payload.
   */
  lemma HappyWire(w: ServerWorld, job: Job, contents: seq<byte>)
    requires ReachesStore(w) && w.storeFault.None? && !PayloadCutShort(w)
    requires Dispatch(UploadMeta(w), UploadPath(w), UploadName(w)) == Success(Some(job))
    requires w.run(job).None? && w.outputs(job.output) == Some(contents)
    requires SuccessFrame(w.codec, job.output, contents).Some?
    ensures var json := w.codec.dumps(SuccessMetadata(Basename(job.output)));
      var media := Utf8.Encode(Extension(job.output));
      && EncodeHead(json, media, |contents|).Some?
      && Wire(HandleConnection(w).trace) == [0] + EncodeHead(json, media, |contents|).value + contents
  {
    var json := w.codec.dumps(SuccessMetadata(Basename(job.output)));
    var media := Utf8.Encode(Extension(job.output));
    var frame := SendFrame(json, media, contents);
    assert frame == SuccessFrame(w.codec, job.output, contents);
    HappyPath(w, job, contents);
    StoredStartWire(w);
    ServedWire(HandleConnection(w).trace, StoredStart(w), job, frame.value, EncodeHead(json, media, |contents|).value, contents);
  }

  lemma StoredStartWire(w: ServerWorld)
    requires ReachesStore(w)
    ensures Wire(StoredStart(w)) == [0]
  {
    var head := ReadHead(w.incoming);
    var recvs := [RecvHeader(head.header), RecvBody(head.body)];
    var stored := [Store(UploadPath(w), DeclaredPayload(w)), SendAck(0)];
    assert StoredStart(w) == recvs + stored;
    WireAppend(recvs, stored);
    WirePair(recvs[0], recvs[1]);
    WirePair(stored[0], stored[1]);
  }
}
