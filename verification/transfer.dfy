/**
 Moving a payload in pieces: the send loops that hand the file to the socket
 `chunk_size` bytes at a time, and the receive loops that ask for at most
 `chunk_size` bytes and count down the declared length.
 */
module Transfer {
  import opened Bytes

  /** `self.chunk_size` on both peers. */
  const ChunkSize: nat := 1400

  function Sum(s: seq<nat>): nat {
    if |s| == 0 then 0 else s[0] + Sum(s[1..])
  }

  function Flatten(s: seq<seq<byte>>): seq<byte> {
    if |s| == 0 then [] else s[0] + Flatten(s[1..])
  }

  /** The number of pieces of at most c that n bytes need: the ceiling of n / c. */
  function CeilDiv(n: nat, c: nat): nat
    requires c > 0
  {
    (n + c - 1) / c
  }

  lemma {:induction false} SumAppend(s: seq<nat>, x: nat)
    ensures Sum(s + [x]) == Sum(s) + x
  {
    if |s| > 0 {
      assert (s + [x])[1..] == s[1..] + [x];
      SumAppend(s[1..], x);
    } else {
      assert s + [x] == [x];
    }
  }

  lemma {:induction false} FlattenAppend(s: seq<seq<byte>>, x: seq<byte>)
    ensures Flatten(s + [x]) == Flatten(s) + x
  {
    if |s| > 0 {
      assert (s + [x])[1..] == s[1..] + [x];
      FlattenAppend(s[1..], x);
    } else {
      assert s + [x] == [x];
    }
  }

  lemma MulBound(k: int, c: int)
    requires c > 0 && -c < k * c < c
    ensures k == 0
  {
  }

  /** Division by c is determined by any quotient and remainder in range. */
  lemma DivUnique(a: nat, c: nat, q: nat, r: nat)
    requires c > 0 && r < c && a == q * c + r
    ensures a / c == q
  {
    var q', r' := a / c, a % c;
    assert (q - q') * c == r' - r;
    MulBound(q - q', c);
  }

  /** One more piece of c bytes adds one to the count. */
  lemma CeilDivStep(n: nat, c: nat)
    requires c > 0 && n > 0
    ensures CeilDiv(n, c) == 1 + CeilDiv(n - Min(n, c), c)
  {
    if n <= c {
      DivUnique(n + c - 1, c, 1, n - 1);
      DivUnique(c - 1, c, 0, c - 1);
    } else {
      var x := n - c + c - 1;
      DivUnique(x, c, x / c, x % c);
      DivUnique(x + c, c, x / c + 1, x % c);
    }
  }

  /**
   The pieces the send loop hands to the socket: `f.read(chunk_size)` until it
   returns nothing. They are never empty, never larger than c, all full but the
   last, and together they are the file in order.
   */
  function Chunks(data: seq<byte>, c: nat): seq<seq<byte>>
    requires c > 0
    decreases |data|
  {
    if |data| == 0 then []
    else
      var n := Min(c, |data|);
      [data[..n]] + Chunks(data[n..], c)
  }

  /**
   The pieces are never empty, never larger than c, all full but the last, and
   together they are the file in order.
   */
  lemma {:induction false} ChunksSpec(data: seq<byte>, c: nat)
    requires c > 0
    ensures Flatten(Chunks(data, c)) == data
    ensures forall i :: 0 <= i < |Chunks(data, c)| ==> 0 < |Chunks(data, c)[i]| <= c
    ensures forall i :: 0 <= i < |Chunks(data, c)| - 1 ==> |Chunks(data, c)[i]| == c
    decreases |data|
  {
    if |data| > 0 {
      var n := Min(c, |data|);
      var r := Chunks(data, c);
      ChunksSpec(data[n..], c);
      assert r[1..] == Chunks(data[n..], c);
      assert data == data[..n] + data[n..];
      forall i | 0 <= i < |r| - 1
        ensures |r[i]| == c
      {
        if i > 0 {
          assert r[i] == r[1..][i - 1];
        } else {
          assert |data[n..]| > 0;
        }
      }
    }
  }

  /**
   The read sizes of a receiver counting down n when every recv yields all it asks
   for: min(remaining, c) each time.
   */
  function FullReads(n: nat, c: nat): seq<nat>
    requires c > 0
    decreases n
  {
    if n == 0 then [] else [Min(n, c)] + FullReads(n - Min(n, c), c)
  }

  /**
   A receiver whose every read is filled reads ceil(n / c) times, never more than c
   at once, and the sizes add up to exactly n.
   */
  lemma {:induction false} FullReadsComplete(n: nat, c: nat)
    requires c > 0
    ensures |FullReads(n, c)| == CeilDiv(n, c)
    ensures Sum(FullReads(n, c)) == n
    ensures forall i :: 0 <= i < |FullReads(n, c)| ==> 0 < FullReads(n, c)[i] <= c
    decreases n
  {
    if n > 0 {
      var r := FullReads(n, c);
      FullReadsComplete(n - Min(n, c), c);
      CeilDivStep(n, c);
      assert r[1..] == FullReads(n - Min(n, c), c);
    } else {
      assert (c - 1) / c == 0;
    }
  }

  /** The sender's pieces have exactly the sizes a filled receiver asks for. */
  lemma {:induction false} ChunksMatchFullReads(data: seq<byte>, c: nat)
    requires c > 0
    ensures |Chunks(data, c)| == |FullReads(|data|, c)|
    ensures forall i :: 0 <= i < |Chunks(data, c)| ==> |Chunks(data, c)[i]| == FullReads(|data|, c)[i]
    decreases |data|
  {
    if |data| > 0 {
      var n := Min(c, |data|);
      ChunksMatchFullReads(data[n..], c);
      assert Chunks(data, c)[1..] == Chunks(data[n..], c);
      assert FullReads(|data|, c)[1..] == FullReads(|data[n..]|, c);
    }
  }

  /** Reading the next piece at `pos` and chunking the rest is chunking from `pos`. */
  lemma ChunksFrom(file: seq<byte>, pos: nat)
    requires pos < |file|
    ensures Chunks(file[pos..], ChunkSize)
         == [file[pos..Min(pos + ChunkSize, |file|)]] + Chunks(file[Min(pos + ChunkSize, |file|)..], ChunkSize)
  {
    var rest := file[pos..];
    var n := Min(ChunkSize, |rest|);
    assert rest[..n] == file[pos..Min(pos + ChunkSize, |file|)];
    assert rest[n..] == file[Min(pos + ChunkSize, |file|)..];
  }

  /**
   The send loop of the upload (and of the server's reply): read a piece, send it,
   read the next, until a read comes back empty. What it sends is the file cut
   into ceil(|file| / chunk size) pieces.
   */
  method SendChunks(file: seq<byte>) returns (sent: seq<seq<byte>>)
    ensures sent == Chunks(file, ChunkSize)
    ensures |sent| == CeilDiv(|file|, ChunkSize)
  {
    var pos := 0;
    sent := [];
    var data := file[pos..Min(pos + ChunkSize, |file|)];
    while |data| > 0
      invariant pos <= |file|
      invariant data == file[pos..Min(pos + ChunkSize, |file|)]
      invariant sent + Chunks(file[pos..], ChunkSize) == Chunks(file, ChunkSize)
      decreases |file| - pos
    {
      ChunksFrom(file, pos);
      sent := sent + [data];
      pos := pos + |data|;
      data := file[pos..Min(pos + ChunkSize, |file|)];
    }
    assert file[pos..] == [];
    ChunksMatchFullReads(file, ChunkSize);
    FullReadsComplete(|file|, ChunkSize);
  }

  /**
   Round i asked for `requests[i]` and got `sizes[i]`: at least one byte, no more
   than asked, and the request was the chunk size or all that remained.
   */
  ghost predicate Rounds(sizes: seq<nat>, requests: seq<nat>, fileSize: nat) {
    && |requests| == |sizes|
    && (forall i :: 0 <= i < |sizes| ==> 1 <= sizes[i] <= requests[i] <= ChunkSize)
    && (forall i :: 0 <= i < |sizes| ==> Sum(sizes[..i]) + requests[i] <= fileSize)
    && (forall i :: 0 <= i < |sizes| ==> requests[i] == ChunkSize || Sum(sizes[..i]) + requests[i] == fileSize)
  }

  /** One more round that asks for min(remaining, chunk size) and gets n of it keeps the rounds well formed. */
  lemma RoundsAppend(sizes: seq<nat>, requests: seq<nat>, fileSize: nat, want: nat, n: nat)
    requires Rounds(sizes, requests, fileSize)
    requires Sum(sizes) < fileSize
    requires want == Min(fileSize - Sum(sizes), ChunkSize) && 1 <= n <= want
    ensures Rounds(sizes + [n], requests + [want], fileSize)
    ensures Sum(sizes + [n]) == Sum(sizes) + n
  {
    SumAppend(sizes, n);
    var s, r := sizes + [n], requests + [want];
    assert s[..|sizes|] == sizes;
    forall i | 0 <= i < |s|
      ensures 1 <= s[i] <= r[i] <= ChunkSize
      ensures Sum(s[..i]) + r[i] <= fileSize
      ensures r[i] == ChunkSize || Sum(s[..i]) + r[i] == fileSize
    {
      if i < |sizes| {
        assert s[..i] == sizes[..i];
      }
    }
  }

  /** Every round got all it asked for. */
  ghost predicate AllFilled(sizes: seq<nat>, requests: seq<nat>)
    requires |requests| == |sizes|
  {
    forall i :: 0 <= i < |sizes| ==> sizes[i] == requests[i]
  }

  lemma AllFilledAppend(sizes: seq<nat>, requests: seq<nat>, n: nat, want: nat)
    requires |requests| == |sizes|
    ensures AllFilled(sizes + [n], requests + [want]) <==> AllFilled(sizes, requests) && n == want
  {
    var s, r := sizes + [n], requests + [want];
    assert forall i :: 0 <= i < |sizes| ==> s[i] == sizes[i] && r[i] == requests[i];
    assert s[|sizes|] == n && r[|sizes|] == want;
    if AllFilled(s, r) {
      assert forall i :: 0 <= i < |sizes| ==> s[i] == r[i];
    }
  }

  /**
   The receive loop of both peers. Each round asks for min(remaining, chunk size),
   gets between one byte and that many while the peer still has bytes, writes them
   and subtracts their count. If the peer stops before the declared size, recv
   yields nothing from then on and the loop never ends: `stalled`.
   */
  method ReceivePayload(incoming: seq<byte>, fileSize: nat)
    returns (written: seq<byte>, requests: seq<nat>, sizes: seq<nat>, stalled: bool)
    ensures stalled <==> |incoming| < fileSize
    ensures !stalled ==> written == incoming[..fileSize]
    ensures stalled ==> written == incoming
    ensures |requests| == |sizes| && Sum(sizes) == |written|
    ensures forall i :: 0 <= i < |sizes| ==> 1 <= sizes[i] <= requests[i] <= ChunkSize
    ensures forall i :: 0 <= i < |sizes| ==> Sum(sizes[..i]) + requests[i] <= fileSize
    ensures forall i :: 0 <= i < |sizes| ==> requests[i] == ChunkSize || Sum(sizes[..i]) + requests[i] == fileSize
    ensures !stalled && (forall i :: 0 <= i < |sizes| ==> sizes[i] == requests[i]) ==> sizes == FullReads(fileSize, ChunkSize)
  {
    var remaining: nat := fileSize;
    written, requests, sizes, stalled := [], [], [], false;
    while remaining > 0
      invariant |written| + remaining == fileSize
      invariant |written| <= |incoming| && written == incoming[..|written|]
      invariant Sum(sizes) == |written|
      invariant Rounds(sizes, requests, fileSize)
      invariant AllFilled(sizes, requests) ==> sizes + FullReads(remaining, ChunkSize) == FullReads(fileSize, ChunkSize)
      decreases remaining
    {
      var want := if remaining <= ChunkSize then remaining else ChunkSize;
      if |written| == |incoming| {
        stalled := true;
        return;
      }
      var available := |incoming| - |written|;
      var n :| 1 <= n <= want && n <= available;
      RoundsAppend(sizes, requests, fileSize, want, n);
      AllFilledAppend(sizes, requests, n, want);
      if n == want && AllFilled(sizes, requests) {
        assert FullReads(remaining, ChunkSize) == [n] + FullReads(remaining - n, ChunkSize);
      }
      written := written + incoming[|written|..|written| + n];
      requests := requests + [want];
      sizes := sizes + [n];
      remaining := remaining - n;
    }
  }

  /**
   What the peer gets from the send loop as written: `send(piece)` returns how many
   bytes it took, `accepted[i]` for piece i, and the loop ignores that count.
   */
  function DeliveredIgnoringCounts(pieces: seq<seq<byte>>, accepted: seq<nat>): seq<byte>
    requires |accepted| == |pieces|
  {
    if |pieces| == 0 then []
    else pieces[0][..Min(accepted[0], |pieces[0]|)] + DeliveredIgnoringCounts(pieces[1..], accepted[1..])
  }

  /** The peer gets the whole file exactly when every `send` took its whole piece. */
  lemma {:induction false} DeliveredIgnoringCountsComplete(pieces: seq<seq<byte>>, accepted: seq<nat>)
    requires |accepted| == |pieces|
    ensures DeliveredIgnoringCounts(pieces, accepted) == Flatten(pieces)
        <==> forall i :: 0 <= i < |pieces| ==> accepted[i] >= |pieces[i]|
  {
    if |pieces| > 0 {
      DeliveredIgnoringCountsComplete(pieces[1..], accepted[1..]);
      var d := DeliveredIgnoringCounts(pieces, accepted);
      var head := pieces[0][..Min(accepted[0], |pieces[0]|)];
      var tail := DeliveredIgnoringCounts(pieces[1..], accepted[1..]);
      assert Flatten(pieces) == pieces[0] + Flatten(pieces[1..]);
      assert d == head + tail;
      if accepted[0] >= |pieces[0]| {
        assert head == pieces[0];
        assert d == Flatten(pieces) <==> tail == Flatten(pieces[1..]) by {
          if d == Flatten(pieces) {
            assert tail == d[|head|..];
          }
        }
        assert (forall i :: 0 <= i < |pieces| ==> accepted[i] >= |pieces[i]|)
           <==> (forall i :: 0 <= i < |pieces| - 1 ==> accepted[1..][i] >= |pieces[1..][i]|) by {
          forall i | 0 <= i < |pieces| - 1 ensures accepted[1..][i] == accepted[i + 1] && pieces[1..][i] == pieces[i + 1] { }
        }
      } else {
        assert |tail| <= |Flatten(pieces[1..])| by {
          TailBound(pieces[1..], accepted[1..]);
        }
        assert |d| < |Flatten(pieces)|;
      }
    }
  }

  lemma {:induction false} TailBound(pieces: seq<seq<byte>>, accepted: seq<nat>)
    requires |accepted| == |pieces|
    ensures |DeliveredIgnoringCounts(pieces, accepted)| <= |Flatten(pieces)|
  {
    if |pieces| > 0 {
      TailBound(pieces[1..], accepted[1..]);
    }
  }

  /** A two-byte file whose single `send` takes one byte reaches the peer as one byte. */
  lemma ShortSendLosesBytes()
    ensures Chunks([7, 7], ChunkSize) == [[7, 7]]
    ensures DeliveredIgnoringCounts(Chunks([7, 7], ChunkSize), [1]) == [7]
  {
    var file: seq<byte> := [7, 7];
    assert file[..2] == file;
    assert Chunks(file[2..], ChunkSize) == [];
    assert Chunks(file, ChunkSize) == [file];
  }

  /**
   The corrected send: `sendall`, which calls `send` again on what is left until
   every byte is taken, however few bytes each call takes.
   */
  method SendAll(data: seq<byte>) returns (delivered: seq<byte>, calls: nat)
    ensures delivered == data
    ensures calls <= |data|
  {
    delivered, calls := [], 0;
    while |delivered| < |data|
      invariant |delivered| <= |data| && delivered == data[..|delivered|]
      invariant calls <= |delivered|
      decreases |data| - |delivered|
    {
      var k :| 1 <= k <= |data| - |delivered|;
      delivered := delivered + data[|delivered|..|delivered| + k];
      calls := calls + 1;
    }
  }
}
