/**
 Byte strings as the Python code handles them: `int.from_bytes(b, "big")`,
 `int.to_bytes(width, "big")`, slicing with clamped bounds, and reading from a
 stream that yields as many bytes as it still has.
 */
module Bytes {
  import opened Wrappers

  /** One octet of a Python `bytes` object. */
  type byte = b: int | 0 <= b < 256

  function Min(a: nat, b: nat): nat {
    if a <= b then a else b
  }

  /** 256 to the power w: the number of distinct w-byte strings. */
  function Pow256(w: nat): (r: nat)
    ensures r > 0
  {
    if w == 0 then 1 else 256 * Pow256(w - 1)
  }

  /** `int.from_bytes(s, "big")`: total over every byte string; the empty one reads as 0. */
  function FromBigEndian(s: seq<byte>): (n: nat)
    ensures n < Pow256(|s|)
  {
    if |s| == 0 then 0
    else
      var high := FromBigEndian(s[..|s| - 1]);
      assert high * 256 + 255 < 256 * Pow256(|s| - 1) by {
        assert high + 1 <= Pow256(|s| - 1);
      }
      high * 256 + s[|s| - 1]
  }

  /** The w-byte big-endian representation of n, which must fit in w bytes. */
  function BigEndian(n: nat, w: nat): (s: seq<byte>)
    requires n < Pow256(w)
    ensures |s| == w
    ensures FromBigEndian(s) == n
  {
    if w == 0 then []
    else
      var s := BigEndian(n / 256, w - 1) + [n % 256];
      assert s[..|s| - 1] == BigEndian(n / 256, w - 1);
      s
  }

  /**
   `n.to_bytes(w, "big")`: Python raises OverflowError instead of truncating when n
   needs more than w bytes; that case is None here.
   */
  function ToBytes(n: nat, w: nat): (r: Option<seq<byte>>)
    ensures r.Some? <==> n < Pow256(w)
    ensures r.Some? ==> |r.value| == w && FromBigEndian(r.value) == n
  {
    if n < Pow256(w) then Some(BigEndian(n, w)) else None
  }

  /** Reading a fixed width back and writing it again gives the same bytes: big-endian is injective per width. */
  lemma {:induction false} BigEndianOfFromBigEndian(s: seq<byte>)
    ensures BigEndian(FromBigEndian(s), |s|) == s
  {
    if |s| > 0 {
      var init := s[..|s| - 1];
      var n := FromBigEndian(s);
      assert n / 256 == FromBigEndian(init);
      assert n % 256 == s[|s| - 1];
      BigEndianOfFromBigEndian(init);
      assert s == init + [s[|s| - 1]];
    }
  }

  /** Reading more bytes never gives a smaller number than reading only their first k. */
  lemma {:induction false} FromBigEndianPrefix(s: seq<byte>, k: nat)
    requires k <= |s|
    ensures FromBigEndian(s[..k]) <= FromBigEndian(s)
  {
    if k < |s| {
      var init := s[..|s| - 1];
      FromBigEndianPrefix(init, k);
      assert init[..k] == s[..k];
    } else {
      assert s[..k] == s;
    }
  }

  /** Python's `s[i:j]` for non-negative bounds: both bounds are clamped to the length. */
  function Slice<T>(s: seq<T>, i: nat, j: nat): (r: seq<T>)
    ensures i <= j <= |s| ==> r == s[i..j]
    ensures i <= |s| <= j ==> r == s[i..]
    ensures j <= i || |s| <= i ==> r == []
    ensures |r| <= |s|
  {
    var a := Min(i, |s|);
    var b := Min(j, |s|);
    if a <= b then s[a..b] else []
  }

  /**
   What one `recv(n)` yields from a peer that has sent `s` and stopped: n bytes when
   it has that many, otherwise all it has.
   */
  function Take(s: seq<byte>, n: nat): (r: seq<byte>)
    ensures |r| == Min(n, |s|)
    ensures r == s[..|r|]
  {
    if n <= |s| then s[..n] else s
  }
}
