/**
 The client's input checks: the accept/reject decisions behind its prompts for
 a file path, an operation, a resolution, an aspect ratio and a GIF time range.
 A rejected answer makes the client ask again; here it is None (or false).
 */
module Validate {
  import opened Wrappers
  import opened Paths
  import Json
  import Conn

  /** The extensions `input_file_path` accepts. */
  const VideoExtensions: seq<string> := [".mp4", ".avi"]

  /** `file_path.endswith(('.mp4', '.avi'))`. */
  predicate AcceptFilePath(p: string) {
    EndsWith(p, ".mp4") || EndsWith(p, ".avi")
  }

  /**
   What an accepted path sends as its media type: its last four characters, the
   video extension, unless its file name is nothing but dots before them, when
   `splitext` finds no extension at all.
   */
  lemma AcceptedMediaType(p: string)
    requires AcceptFilePath(p)
    ensures p[|p| - 4..] in VideoExtensions
    ensures Extension(p) ==
      if exists k :: RFind(p, '/') < k < |p| - 4 && p[k] != '.' then p[|p| - 4..] else []
  {
    VideoSuffixDots(p);
  }

  /** In an accepted path the last '.' is the extension's, and every '/' comes before it. */
  lemma VideoSuffixDots(p: string)
    requires AcceptFilePath(p)
    ensures p[|p| - 4..] in VideoExtensions
    ensures RFind(p, '.') == |p| - 4 && RFind(p, '/') < |p| - 4
  {
    var n := |p| - 4;
    var ext := p[n..];
    assert ext == ".mp4" || ext == ".avi";
    assert p[n] == ext[0] == '.';
    assert forall k :: n <= k < |p| ==> p[k] == ext[k - n];
    assert forall k :: n < k < |p| ==> p[k] != '.' && p[k] != '/';
    LastAt(p, '.', n);
    NoneFrom(p, '/', n);
  }

  lemma LastAt(s: string, c: char, i: nat)
    requires i < |s| && s[i] == c && forall k :: i < k < |s| ==> s[k] != c
    ensures RFind(s, c) == i
  {
  }

  lemma NoneFrom(s: string, c: char, i: nat)
    requires forall k :: i <= k < |s| ==> s[k] != c
    ensures RFind(s, c) < i
  {
  }

  /** `operation in range(1, 6)`. */
  predicate AcceptOperation(op: int) {
    1 <= op < 6
  }

  /** The operations the prompt accepts are exactly the codes of the five transforms. */
  lemma AcceptedOperationsAreCodes(op: int)
    ensures AcceptOperation(op) <==> exists t :: Conn.Code(t) == op
  {
    if AcceptOperation(op) {
      var t :=
        if op == 1 then Conn.Compress
        else if op == 2 then Conn.ChangeResolution(Json.JNull)
        else if op == 3 then Conn.ChangeAspectRatio(Json.JNull)
        else if op == 4 then Conn.ConvertToAudio
        else Conn.CreateGif(Json.JNull, Json.JNull);
      assert Conn.Code(t) == op;
    }
  }

  /** A dict literal: its keys are distinct. */
  ghost predicate UniqueKeys(table: seq<(string, string)>) {
    forall i, j :: 0 <= i < j < |table| ==> table[i].0 != table[j].0
  }

  /** `key in table` and `table[key]`, None when the key is absent. */
  function Lookup(table: seq<(string, string)>, key: string): (r: Option<string>)
    requires UniqueKeys(table)
    ensures forall v :: r == Some(v) <==> (key, v) in table
    ensures r.None? <==> forall i :: 0 <= i < |table| ==> table[i].0 != key
  {
    if |table| == 0 then None
    else if table[0].0 == key then
      assert forall i :: 0 < i < |table| ==> table[i].0 != table[0].0;
      Some(table[0].1)
    else
      var r := Lookup(table[1..], key);
      assert forall i :: 0 < i < |table| ==> table[i] == table[1..][i - 1];
      r
  }

  /** The resolutions offered for operation 2, keyed by the answer typed. */
  const Resolutions: seq<(string, string)> := [("1", "1920:1080"), ("2", "1280:720"), ("3", "720:480")]

  /** The aspect ratios offered for operation 3, keyed by the answer typed. */
  const AspectRatios: seq<(string, string)> := [("1", "16/9"), ("2", "4/3"), ("3", "1/1")]

  /** The answers the two menus accept. */
  const MenuKeys: seq<string> := ["1", "2", "3"]

  /**
   The resolution chosen by an answer: the answers "1", "2", "3" and nothing else
   are accepted, each choosing its own entry and no two the same resolution.
   */
  function ChooseResolution(answer: string): (r: Option<string>)
    ensures r.Some? <==> answer in MenuKeys
    ensures r.Some? ==> (answer, r.value) in Resolutions
  {
    Lookup(Resolutions, answer)
  }

  /** The aspect-ratio menu: "1", "2", "3" and nothing else, each choosing a different ratio. */
  function ChooseAspectRatio(answer: string): (r: Option<string>)
    ensures r.Some? <==> answer in MenuKeys
    ensures r.Some? ==> (answer, r.value) in AspectRatios
  {
    Lookup(AspectRatios, answer)
  }

  /** No two answers choose the same resolution, or the same aspect ratio. */
  lemma MenusDistinguish(a: string, b: string)
    ensures ChooseResolution(a).Some? && ChooseResolution(a) == ChooseResolution(b) ==> a == b
    ensures ChooseAspectRatio(a).Some? && ChooseAspectRatio(a) == ChooseAspectRatio(b) ==> a == b
  {
    if ChooseResolution(a).Some? && ChooseResolution(a) == ChooseResolution(b) {
      var v := ChooseResolution(a).value;
      assert (a, v) in Resolutions && (b, v) in Resolutions;
    }
    if ChooseAspectRatio(a).Some? && ChooseAspectRatio(a) == ChooseAspectRatio(b) {
      var v := ChooseAspectRatio(a).value;
      assert (a, v) in AspectRatios && (b, v) in AspectRatios;
    }
  }

  predicate IsDigit(c: char) {
    '0' <= c <= '9'
  }

  predicate AllDigits(s: string) {
    forall i :: 0 <= i < |s| ==> IsDigit(s[i])
  }

  function DigitValue(c: char): (v: nat)
    requires IsDigit(c)
    ensures v < 10
  {
    (c as int) - ('0' as int)
  }

  function DigitChar(v: nat): (c: char)
    requires v < 10
    ensures IsDigit(c) && DigitValue(c) == v
  {
    ('0' as int + v) as char
  }

  /** `int(s)` for a string of decimal digits. */
  function Decimal(s: string): nat
    requires AllDigits(s)
  {
    if |s| == 0 then 0 else Decimal(s[..|s| - 1]) * 10 + DigitValue(s[|s| - 1])
  }

  /** `str(n)`: decimal digits without leading zeros. */
  function ShowNat(n: nat): (s: string)
    ensures |s| > 0 && AllDigits(s)
    ensures n >= 10 <==> |s| >= 2
  {
    if n < 10 then [DigitChar(n)] else ShowNat(n / 10) + [DigitChar(n % 10)]
  }

  /** `int` reads back what `str` writes. */
  lemma {:induction false} DecimalShowNat(n: nat)
    ensures Decimal(ShowNat(n)) == n
  {
    var s := ShowNat(n);
    if n >= 10 {
      DecimalShowNat(n / 10);
      assert s[..|s| - 1] == ShowNat(n / 10);
    }
  }

  /** `f"{n:02}"`: at least two digits, zero-padded. */
  function Pad2(n: nat): (s: string)
    ensures AllDigits(s) && Decimal(s) == n
    ensures n < 100 ==> |s| == 2
  {
    DecimalShowNat(n);
    if n < 10 then
      var s := "0" + ShowNat(n);
      assert s[..1] == "0";
      s
    else ShowNat(n)
  }

  /** How many seconds "HH:MM:SS" stands for. */
  function Seconds(hours: nat, minutes: nat, seconds: nat): nat {
    hours * 3600 + minutes * 60 + seconds
  }

  /**
   `re.match(r'^\d{2}:\d{2}:\d{2}$', s)`: two digits, a colon, two digits, a
   colon, two digits; `$` also matches before one final newline.
   */
  predicate ClockPattern(s: string) {
    && (|s| == 8 || (|s| == 9 && s[8] == '\n'))
    && IsDigit(s[0]) && IsDigit(s[1]) && s[2] == ':'
    && IsDigit(s[3]) && IsDigit(s[4]) && s[5] == ':'
    && IsDigit(s[6]) && IsDigit(s[7])
  }

  /**
   The start-time answer in seconds: the pattern, then `split(":")` and `int` on
   each part (`int` ignores the newline the pattern lets through).
   */
  function ParseClock(s: string): (r: Option<nat>)
    ensures r.Some? <==> ClockPattern(s)
    ensures r.Some? ==> r.value <= Seconds(99, 99, 99)
    ensures r.Some? ==> r.value == Seconds(
      DigitValue(s[0]) * 10 + DigitValue(s[1]),
      DigitValue(s[3]) * 10 + DigitValue(s[4]),
      DigitValue(s[6]) * 10 + DigitValue(s[7]))
  {
    if ClockPattern(s) then
      TwoDigits(s[0..2]);
      TwoDigits(s[3..5]);
      TwoDigits(s[6..8]);
      Some(Seconds(Decimal(s[0..2]), Decimal(s[3..5]), Decimal(s[6..8])))
    else None
  }

  lemma TwoDigits(s: string)
    requires |s| == 2 && AllDigits(s)
    ensures Decimal(s) == DigitValue(s[0]) * 10 + DigitValue(s[1]) && Decimal(s) < 100
  {
    assert s[..1][..0] == [];
    assert Decimal(s[..1]) == DigitValue(s[0]);
  }

  /** How the client shows a video length: `f"{HH:02}:{MM:02}:{SS:02}"`. */
  function FormatClock(total: nat): string {
    Pad2(total / 3600) + ":" + Pad2(total % 3600 / 60) + ":" + Pad2(total % 60)
  }

  /** Typing back a shown time gives the same number of seconds, for anything under 100 hours. */
  lemma ClockRoundTrip(total: nat)
    requires total < 100 * 3600
    ensures ParseClock(FormatClock(total)) == Some(total)
  {
    var hours, minutes, seconds := total / 3600, total % 3600 / 60, total % 60;
    assert Seconds(hours, minutes, seconds) == total;
    ClockFields(Pad2(hours), Pad2(minutes), Pad2(seconds));
  }

  /** Where the three fields of "HH:MM:SS" sit. */
  lemma ClockFields(h: string, m: string, sec: string)
    requires |h| == 2 && |m| == 2 && |sec| == 2
    requires AllDigits(h) && AllDigits(m) && AllDigits(sec)
    ensures var s := h + ":" + m + ":" + sec;
      ClockPattern(s) && s[0..2] == h && s[3..5] == m && s[6..8] == sec
  {
    var s := h + ":" + m + ":" + sec;
    assert s[0..2] == h && s[3..5] == m && s[6..8] == sec;
    assert s[0] == h[0] && s[1] == h[1] && s[3] == m[0] && s[4] == m[1] && s[6] == sec[0] && s[7] == sec[1];
  }

  /** A start time is accepted when it parses and lies before the end of the video. */
  function AcceptStartTime(s: string, videoLength: nat): (r: Option<nat>)
    ensures r.Some? <==> ParseClock(s).Some? && ParseClock(s).value < videoLength
    ensures r.Some? ==> r == ParseClock(s)
  {
    match ParseClock(s)
    case Some(start) => if start < videoLength then Some(start) else None
    case None => None
  }

  /**
   `duration.isdigit()`, then `0 < duration` and `start_time + duration <=
   video_duration`: a GIF length in whole seconds that ends within the video.
   */
  function AcceptDuration(s: string, start: nat, videoLength: nat): (r: Option<nat>)
    ensures r.Some? ==> |s| > 0 && AllDigits(s) && r.value == Decimal(s)
    ensures r.Some? ==> 0 < r.value && start + r.value <= videoLength
    ensures |s| > 0 && AllDigits(s) && 0 < Decimal(s) && start + Decimal(s) <= videoLength ==> r.Some?
  {
    if |s| > 0 && AllDigits(s) then
      var d := Decimal(s);
      if 0 < d && start + d <= videoLength then Some(d) else None
    else None
  }

  /** Typing a length the way `str` writes it is accepted exactly when that length fits the video. */
  lemma DurationAnswer(d: nat, start: nat, videoLength: nat)
    ensures AcceptDuration(ShowNat(d), start, videoLength) == Some(d) <==> 0 < d && start + d <= videoLength
    ensures AcceptDuration(ShowNat(d), start, videoLength).None? <==> !(0 < d && start + d <= videoLength)
  {
    DecimalShowNat(d);
  }
}
