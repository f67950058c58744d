/**
 UTF-8 as Python's strict codec applies it: `str.encode("utf-8")` for the media
 type a peer sends, and the well-formedness `bytes.decode("utf-8")` demands of
 the media type it receives (section 4 of RFC 3629).
 */
module Utf8 {
  import opened Bytes

  /** The one to four bytes of a single scalar value. */
  function EncodeChar(c: char): (b: seq<byte>)
    ensures 1 <= |b| <= 4
  {
    var n := c as int;
    if n < 0x80 then [n]
    else if n < 0x800 then [0xC0 + n / 64, 0x80 + n % 64]
    else if n < 0x1_0000 then [0xE0 + n / 4096, 0x80 + (n / 64) % 64, 0x80 + n % 64]
    else [0xF0 + n / 262144, 0x80 + (n / 4096) % 64, 0x80 + (n / 64) % 64, 0x80 + n % 64]
  }

  /** `s.encode("utf-8")`. */
  function Encode(s: string): seq<byte> {
    if |s| == 0 then [] else EncodeChar(s[0]) + Encode(s[1..])
  }

  predicate IsTail(b: byte) {
    0x80 <= b < 0xC0
  }

  /** How many bytes the sequence a lead byte opens must have; 0 for bytes that open none. */
  function Width(lead: byte): nat {
    if lead < 0x80 then 1
    else if 0xC2 <= lead <= 0xDF then 2
    else if 0xE0 <= lead <= 0xEF then 3
    else if 0xF0 <= lead <= 0xF4 then 4
    else 0
  }

  /** The byte-sequence rules of RFC 3629 for one character: no overlong forms, no surrogates, nothing above U+10FFFF. */
  predicate WellFormedChar(s: seq<byte>) {
    if |s| == 1 then s[0] < 0x80
    else if |s| == 2 then 0xC2 <= s[0] <= 0xDF && IsTail(s[1])
    else if |s| == 3 then
      && (|| (s[0] == 0xE0 && 0xA0 <= s[1] <= 0xBF)
          || (0xE1 <= s[0] <= 0xEC && IsTail(s[1]))
          || (s[0] == 0xED && 0x80 <= s[1] <= 0x9F)
          || (0xEE <= s[0] <= 0xEF && IsTail(s[1])))
      && IsTail(s[2])
    else if |s| == 4 then
      && (|| (s[0] == 0xF0 && 0x90 <= s[1] <= 0xBF)
          || (0xF1 <= s[0] <= 0xF3 && IsTail(s[1]))
          || (s[0] == 0xF4 && 0x80 <= s[1] <= 0x8F))
      && IsTail(s[2]) && IsTail(s[3])
    else false
  }

  /** The bytes decode without UnicodeDecodeError: they split into well-formed characters. */
  predicate Valid(s: seq<byte>)
    decreases |s|
  {
    |s| == 0 ||
    (var w := Width(s[0]);
     0 < w <= |s| && WellFormedChar(s[..w]) && Valid(s[w..]))
  }

  /** Every character encodes to one well-formed sequence whose lead byte announces its length. */
  lemma EncodeCharWellFormed(c: char)
    ensures WellFormedChar(EncodeChar(c))
    ensures Width(EncodeChar(c)[0]) == |EncodeChar(c)|
  {
    var n := c as int;
    if n < 0x80 {
    } else if n < 0x800 {
      assert 2 <= n / 64 < 32;
    } else if n < 0x1_0000 {
      assert 0 <= n / 4096 < 16;
      if n / 4096 == 0 {
        assert 32 <= (n / 64) % 64;
      } else if n / 4096 == 13 {
        assert n < 0xD800;
        assert (n / 64) % 64 < 32;
      }
    } else {
      assert 0 <= n / 262144 <= 4;
      if n / 262144 == 0 {
        assert 16 <= (n / 4096) % 64;
      } else if n / 262144 == 4 {
        assert (n / 4096) % 64 < 16;
      }
    }
  }

  /** What Python encodes, Python decodes: the encoding of every string is well-formed. */
  lemma {:induction false} EncodeValid(s: string)
    ensures Valid(Encode(s))
  {
    if |s| > 0 {
      var head := EncodeChar(s[0]);
      var e := Encode(s);
      EncodeCharWellFormed(s[0]);
      EncodeValid(s[1..]);
      assert e == head + Encode(s[1..]);
      assert e[0] == head[0];
      assert e[..|head|] == head;
      assert e[|head|..] == Encode(s[1..]);
    }
  }

  /** ASCII text encodes byte for byte. */
  lemma {:induction false} EncodeAscii(s: string)
    requires forall i :: 0 <= i < |s| ==> s[i] as int < 0x80
    ensures |Encode(s)| == |s|
    ensures forall i :: 0 <= i < |s| ==> Encode(s)[i] == s[i] as int
  {
    if |s| > 0 {
      EncodeAscii(s[1..]);
    }
  }
}
