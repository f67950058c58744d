/**
 The `os.path` functions (POSIX flavour) the peers use to name files:
 `basename`, `join`, `splitext`, and `str.endswith`.
 */
module Paths {

  /** `s.rfind(c)`: the index of the last c in s, or -1. */
  function RFind(s: string, c: char): (i: int)
    ensures -1 <= i < |s|
    ensures i >= 0 ==> s[i] == c
    ensures forall k :: i < k < |s| ==> s[k] != c
    ensures i == -1 <==> c !in s
  {
    if |s| == 0 then -1
    else if s[|s| - 1] == c then |s| - 1
    else RFind(s[..|s| - 1], c)
  }

  /** `os.path.basename(p)`: everything after the last '/'. */
  function Basename(p: string): (b: string)
    ensures '/' !in b
    ensures |b| <= |p| && b == p[|p| - |b|..]
    ensures |b| < |p| ==> p[|p| - |b| - 1] == '/'
    ensures '/' !in p ==> b == p
  {
    p[RFind(p, '/') + 1..]
  }

  /** `os.path.join(a, b)`: an absolute b replaces a; otherwise one '/' separates them. */
  function Join(a: string, b: string): (r: string)
    ensures |b| > 0 && b[0] == '/' ==> r == b
    ensures (|b| == 0 || b[0] != '/') && (|a| == 0 || a[|a| - 1] == '/') ==> r == a + b
    ensures (|b| == 0 || b[0] != '/') && |a| > 0 && a[|a| - 1] != '/' ==> r == a + "/" + b
  {
    if |b| > 0 && b[0] == '/' then b
    else if |a| == 0 || a[|a| - 1] == '/' then a + b
    else a + "/" + b
  }

  /**
   `os.path.splitext(p)`: the extension runs from the last '.' of the last path
   component, unless the component holds nothing but dots before it.
   */
  function Splitext(p: string): (r: (string, string))
    ensures r.0 + r.1 == p
    ensures r.1 == [] || (r.1[0] == '.' && '.' !in r.1[1..] && '/' !in r.1)
    ensures r.1 != [] <==> exists k, i :: RFind(p, '/') < k < i < |p| && p[k] != '.' && p[i] == '.'
  {
    var sep := RFind(p, '/');
    var dot := RFind(p, '.');
    if dot > sep && exists k :: sep < k < dot && p[k] != '.' then
      assert '/' !in p[dot..] by {
        forall k | dot <= k < |p| ensures p[k] != '/' { }
      }
      (p[..dot], p[dot..])
    else (p, [])
  }

  function Extension(p: string): string {
    Splitext(p).1
  }

  function Stem(p: string): string {
    Splitext(p).0
  }

  /** The suffix of s from its last '.', or empty when it has none. */
  function DotSuffix(s: string): string {
    var dot := RFind(s, '.');
    if dot >= 0 then s[dot..] else []
  }

  /** `s.endswith(t)`. */
  predicate EndsWith(s: string, t: string) {
    |t| <= |s| && s[|s| - |t|..] == t
  }

  /** Where the last c of a + b is: in b when b has one, otherwise in a. */
  lemma {:induction false} RFindAppend(a: string, b: string, c: char)
    ensures RFind(a + b, c) == if c in b then |a| + RFind(b, c) else RFind(a, c)
    decreases |b|
  {
    if |b| > 0 {
      var ab := a + b;
      assert ab[..|ab| - 1] == a + b[..|b| - 1];
      if b[|b| - 1] != c {
        RFindAppend(a, b[..|b| - 1], c);
        assert c in b <==> c in b[..|b| - 1] by {
          if c in b {
            var k :| 0 <= k < |b| && b[k] == c;
            assert b[..|b| - 1][k] == c;
          }
        }
        if c in b {
          assert RFind(b, c) == RFind(b[..|b| - 1], c);
        }
      }
    } else {
      assert a + b == a;
    }
  }

  /** The stem of a name without '/' has none either. */
  lemma StemWithoutSlash(p: string)
    requires '/' !in p
    ensures '/' !in Stem(p)
  {
    var stem := Stem(p);
    assert stem + Extension(p) == p;
    forall k | 0 <= k < |stem| ensures stem[k] != '/' {
      assert stem[k] == p[k];
    }
  }

  /** A prefix without a dot, or a suffix holding one, leaves the last-dot suffix unchanged. */
  lemma DotSuffixAppend(a: string, b: string)
    requires '.' in b || '.' !in a
    ensures DotSuffix(a + b) == DotSuffix(b)
  {
    RFindAppend(a, b, '.');
    if '.' in b {
      var d := RFind(b, '.');
      assert (a + b)[|a| + d..] == b[d..];
    }
  }

  /** A suffix that starts with its only dot is its own last-dot suffix. */
  lemma DotSuffixOfExtension(ext: string)
    requires |ext| > 0 && ext[0] == '.' && '.' !in ext[1..]
    ensures DotSuffix(ext) == ext
  {
    forall k | 0 < k < |ext| ensures ext[k] != '.' {
      assert ext[k] == ext[1..][k - 1];
    }
  }

  /**
   A relative name q without '/' joined under a directory keeps q as its basename,
   and its extension is everything from q's last dot when q does not start with one.
   */
  lemma JoinedName(dir: string, q: string)
    requires |dir| > 0 && dir[|dir| - 1] != '/'
    requires |q| > 0 && q[0] != '/' && q[0] != '.' && '/' !in q
    ensures Basename(Join(dir, q)) == q
    ensures Extension(Join(dir, q)) == DotSuffix(q)
  {
    var pre := dir + "/";
    assert Join(dir, q) == pre + q;
    RFindAppend(pre, q, '/');
    assert RFind(pre + q, '/') == |dir|;
    assert (pre + q)[|dir| + 1..] == q;
    JoinedExtension(dir, q);
  }

  lemma JoinedExtension(dir: string, q: string)
    requires |q| > 0 && q[0] != '/' && q[0] != '.' && '/' !in q
    requires RFind(dir + "/" + q, '/') == |dir|
    ensures Splitext(dir + "/" + q).1 == DotSuffix(q)
  {
    var pre := dir + "/";
    var p := pre + q;
    var sep := |dir|;
    RFindAppend(pre, q, '.');
    var dot := RFind(p, '.');
    if '.' in q {
      var d := RFind(q, '.');
      assert d > 0;
      assert dot == |pre| + d;
      assert sep < sep + 1 < dot && p[sep + 1] != '.';
      assert p[dot..] == q[d..];
    } else {
      assert dot < |pre|;
      RFindAppend(dir, "/", '.');
      assert dot <= sep;
    }
  }

  /** A name that neither contains '/' nor starts with '.' has the extension from its last dot. */
  lemma PlainExtension(q: string)
    requires |q| > 0 && q[0] != '.' && '/' !in q
    ensures Extension(q) == DotSuffix(q)
  {
    var dot := RFind(q, '.');
    if dot >= 0 {
      assert dot > 0;
      assert RFind(q, '/') == -1;
      assert q[0] != '.';
    }
  }
}
