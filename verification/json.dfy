/**
 The metadata block as the peers see it after `json.loads`: an object of scalar
 values. The text encoding of JSON is left abstract: a `Codec` pairs whatever
 `json.dumps(...).encode("utf-8")` produces with what `json.loads` makes of bytes.
 */
module Json {
  import opened Wrappers
  import opened Bytes

  /** One member value; arrays, nested objects and non-finite floats are `JOther`. */
  datatype JsonValue = JNull | JBool(b: bool) | JInt(i: int) | JFloat(x: real) | JStr(s: string) | JOther

  type JsonObject = map<string, JsonValue>

  /** Why `json.loads` gave no object: the bytes are not JSON text, or the text is not an object. */
  datatype LoadError = NotJson | NotObject

  /**
   The JSON library: `dumps` renders an object as UTF-8 bytes; `loads` parses
   bytes, failing when decoding or parsing raises or the document is not an object.
   */
  datatype Codec = Codec(dumps: JsonObject -> seq<byte>, loads: seq<byte> -> Result<JsonObject, LoadError>)

  /** A value the peers exchange: any scalar, with a float only when it is a whole number. */
  predicate Exchangeable(v: JsonValue) {
    v.JFloat? ==> v.x.Floor as real == v.x
  }

  ghost predicate ExchangeableObject(o: JsonObject) {
    forall k :: k in o ==> Exchangeable(o[k])
  }

  /** What one peer dumps, the other loads back unchanged, for every object the peers exchange. */
  ghost predicate RoundTrips(c: Codec) {
    forall o :: ExchangeableObject(o) ==> c.loads(c.dumps(o)) == Success(o)
  }

  /** Python's `v == n` for an int n: True equals 1, False equals 0, 2.0 equals 2, a string equals no int. */
  predicate PyEqualsInt(v: JsonValue, n: int) {
    match v
    case JInt(i) => i == n
    case JBool(b) => (if b then 1 else 0) == n
    case JFloat(x) => x == n as real
    case _ => false
  }

  // A codec that meets `RoundTrips`: objects are written as a list of numbers
  // (a count, then per member its key and a tagged value), and each number is
  // written in unary as bytes.

  /** n in unary: n ones, then a zero. */
  function Unary(n: nat): seq<byte> {
    if n == 0 then [0] else [1] + Unary(n - 1)
  }

  /** Reads one unary number off the front of s. */
  function ParseUnary(s: seq<byte>): Option<(nat, seq<byte>)> {
    if |s| == 0 then None
    else if s[0] == 0 then Some((0, s[1..]))
    else match ParseUnary(s[1..])
      case None => None
      case Some(p) => Some((p.0 + 1, p.1))
  }

  lemma {:induction false} ParseUnaryOf(n: nat, rest: seq<byte>)
    ensures ParseUnary(Unary(n) + rest) == Some((n, rest))
  {
    if n > 0 {
      ParseUnaryOf(n - 1, rest);
      assert (Unary(n) + rest)[1..] == Unary(n - 1) + rest;
    }
  }

  function EncodeNats(ns: seq<nat>): seq<byte> {
    if |ns| == 0 then [] else Unary(ns[0]) + EncodeNats(ns[1..])
  }

  function DecodeNats(s: seq<byte>): Option<seq<nat>>
    decreases |s|
  {
    if |s| == 0 then Some([])
    else match ParseUnary(s)
      case None => None
      case Some(p) =>
        if |p.1| < |s| then
          match DecodeNats(p.1)
          case None => None
          case Some(ns) => Some([p.0] + ns)
        else None
  }

  lemma {:induction false} DecodeNatsOf(ns: seq<nat>)
    ensures DecodeNats(EncodeNats(ns)) == Some(ns)
  {
    if |ns| > 0 {
      var rest := EncodeNats(ns[1..]);
      ParseUnaryOf(ns[0], rest);
      DecodeNatsOf(ns[1..]);
      assert [ns[0]] + ns[1..] == ns;
    }
  }

  predicate IsCodePoint(n: nat) {
    n < 0xD800 || 0xE000 <= n < 0x11_0000
  }

  function EncodeString(s: string): seq<nat> {
    [|s|] + seq(|s|, i requires 0 <= i < |s| => s[i] as int)
  }

  /** A string: its length, then that many code points. */
  function DecodeString(ns: seq<nat>): Option<(string, seq<nat>)> {
    if |ns| == 0 || |ns| < 1 + ns[0] then None
    else
      var points := ns[1..1 + ns[0]];
      if forall i :: 0 <= i < |points| ==> IsCodePoint(points[i]) then
        Some((seq(|points|, i requires 0 <= i < |points| => points[i] as char), ns[1 + ns[0]..]))
      else None
  }

  lemma DecodeStringOf(s: string, rest: seq<nat>)
    ensures DecodeString(EncodeString(s) + rest) == Some((s, rest))
  {
    var ns := EncodeString(s) + rest;
    var points := ns[1..1 + |s|];
    forall i | 0 <= i < |s| ensures points[i] == s[i] as int && IsCodePoint(points[i]) && points[i] as char == s[i] {
      assert points[i] == ns[1 + i];
    }
    assert seq(|points|, i requires 0 <= i < |points| => points[i] as char) == s;
    assert ns[1 + |s|..] == rest;
  }

  /** A signed whole number: its sign, then its magnitude. */
  function EncodeInt(i: int): seq<nat> {
    if i < 0 then [1, -i] else [0, i]
  }

  function DecodeInt(ns: seq<nat>): Option<(int, seq<nat>)> {
    if |ns| < 2 then None
    else
      var i: int := if ns[0] == 1 then -(ns[1] as int) else ns[1];
      Some((i, ns[2..]))
  }

  lemma DecodeIntOf(i: int, rest: seq<nat>)
    ensures DecodeInt(EncodeInt(i) + rest) == Some((i, rest))
  {
    assert (EncodeInt(i) + rest)[2..] == rest;
  }

  function EncodeValue(v: JsonValue): seq<nat> {
    match v
    case JNull => [0]
    case JBool(b) => [1, if b then 1 else 0]
    case JInt(i) => [2] + EncodeInt(i)
    case JFloat(x) => [3] + EncodeInt(x.Floor)
    case JStr(s) => [4] + EncodeString(s)
    case JOther => [5]
  }

  function DecodeValue(ns: seq<nat>): Option<(JsonValue, seq<nat>)> {
    if |ns| == 0 then None
    else if ns[0] == 0 then Some((JNull, ns[1..]))
    else if ns[0] == 1 then (if |ns| < 2 then None else Some((JBool(ns[1] == 1), ns[2..])))
    else if ns[0] == 2 then
      match DecodeInt(ns[1..])
      case None => None
      case Some(p) => Some((JInt(p.0), p.1))
    else if ns[0] == 3 then
      match DecodeInt(ns[1..])
      case None => None
      case Some(p) => Some((JFloat(p.0 as real), p.1))
    else if ns[0] == 4 then
      match DecodeString(ns[1..])
      case None => None
      case Some(p) => Some((JStr(p.0), p.1))
    else if ns[0] == 5 then Some((JOther, ns[1..]))
    else None
  }

  lemma DecodeValueOf(v: JsonValue, rest: seq<nat>)
    requires Exchangeable(v)
    ensures DecodeValue(EncodeValue(v) + rest) == Some((v, rest))
  {
    match v
    case JNull =>
    case JBool(b) =>
    case JInt(i) =>
      DecodeNumberOf(2, i, EncodeValue(v) + rest, rest);
    case JFloat(x) =>
      DecodeNumberOf(3, x.Floor, EncodeValue(v) + rest, rest);
    case JStr(s) =>
      DecodeStrOf(s, EncodeValue(v) + rest, rest);
    case JOther =>
  }

  /** A number behind its tag: 2 reads back as an int, 3 as a whole float. */
  lemma DecodeNumberOf(tag: nat, i: int, ns: seq<nat>, rest: seq<nat>)
    requires tag == 2 || tag == 3
    requires ns == [tag] + EncodeInt(i) + rest
    ensures DecodeValue(ns) == Some((if tag == 2 then JInt(i) else JFloat(i as real), rest))
  {
    assert ns[1..] == EncodeInt(i) + rest;
    DecodeIntOf(i, rest);
  }

  lemma DecodeStrOf(s: string, ns: seq<nat>, rest: seq<nat>)
    requires ns == [4] + EncodeString(s) + rest
    ensures DecodeValue(ns) == Some((JStr(s), rest))
  {
    assert ns[1..] == EncodeString(s) + rest;
    DecodeStringOf(s, rest);
  }

  /** The members of an object, each as its key and value, in some fixed order. */
  ghost function EncodeMembers(o: JsonObject): seq<nat>
    decreases |o|
  {
    if |o| == 0 then []
    else
      var k :| k in o;
      EncodeString(k) + EncodeValue(o[k]) + EncodeMembers(o - {k})
  }

  function DecodeMembers(ns: seq<nat>, count: nat): Option<(JsonObject, seq<nat>)> {
    if count == 0 then Some((map[], ns))
    else
      match DecodeString(ns)
      case None => None
      case Some(key) =>
        match DecodeValue(key.1)
        case None => None
        case Some(value) =>
          match DecodeMembers(value.1, count - 1)
          case None => None
          case Some(others) => Some((others.0[key.0 := value.0], others.1))
  }

  lemma {:induction false} DecodeMembersOf(o: JsonObject, rest: seq<nat>)
    requires ExchangeableObject(o)
    ensures DecodeMembers(EncodeMembers(o) + rest, |o|) == Some((o, rest))
    decreases |o|
  {
    if |o| > 0 {
      var k :| k in o && EncodeMembers(o) == EncodeString(k) + EncodeValue(o[k]) + EncodeMembers(o - {k});
      DecodeMembersOf(o - {k}, rest);
      DecodeMembersCons(o, k, EncodeMembers(o), EncodeMembers(o - {k}), rest);
    } else {
      assert o == map[];
      assert EncodeMembers(o) + rest == rest;
    }
  }

  /** Decoding one more member in front of the others adds it to their object. */
  lemma DecodeMembersCons(o: JsonObject, k: string, encoded: seq<nat>, encodedOthers: seq<nat>, rest: seq<nat>)
    requires k in o && Exchangeable(o[k])
    requires encoded == EncodeString(k) + EncodeValue(o[k]) + encodedOthers
    requires DecodeMembers(encodedOthers + rest, |o - {k}|) == Some((o - {k}, rest))
    ensures DecodeMembers(encoded + rest, |o|) == Some((o, rest))
  {
    var others := o - {k};
    var tail := encodedOthers + rest;
    var value := EncodeValue(o[k]);
    Reassociate(EncodeString(k), value, encodedOthers, rest);
    DecodeStringOf(k, value + tail);
    DecodeValueOf(o[k], tail);
    RemoveRestore(o, k);
    DecodeMembersStep(encoded + rest, k, value + tail, o[k], tail, others, rest, |others|);
  }

  /** Taking a key out of a map and putting it back gives the map again, one member larger. */
  lemma RemoveRestore(o: JsonObject, k: string)
    requires k in o
    ensures |o - {k}| + 1 == |o| && (o - {k})[k := o[k]] == o
  {
    var others := o - {k};
    assert others.Keys == o.Keys - {k};
    assert others[k := o[k]] == o;
  }

  lemma Reassociate(a: seq<nat>, b: seq<nat>, c: seq<nat>, d: seq<nat>)
    ensures a + b + c + d == a + (b + (c + d))
  {
  }

  lemma DecodeMembersStep(ns: seq<nat>, key: string, afterKey: seq<nat>, value: JsonValue, afterValue: seq<nat>,
                          others: JsonObject, rest: seq<nat>, count: nat)
    requires DecodeString(ns) == Some((key, afterKey))
    requires DecodeValue(afterKey) == Some((value, afterValue))
    requires DecodeMembers(afterValue, count) == Some((others, rest))
    ensures DecodeMembers(ns, count + 1) == Some((others[key := value], rest))
  {
  }

  ghost function WitnessDumps(o: JsonObject): seq<byte> {
    EncodeNats([|o|] + EncodeMembers(o))
  }

  function WitnessLoads(s: seq<byte>): Result<JsonObject, LoadError> {
    match DecodeNats(s)
    case None => Failure(NotJson)
    case Some(ns) =>
      if |ns| == 0 then Failure(NotJson)
      else match DecodeMembers(ns[1..], ns[0])
        case Some(p) => if |p.1| == 0 then Success(p.0) else Failure(NotJson)
        case None => Failure(NotJson)
  }

  /** The round trip the end-to-end lemmas assume is one a codec can meet. */
  lemma RoundTripsCanHold()
    ensures exists c :: RoundTrips(c)
  {
    var c := Codec(WitnessDumps, WitnessLoads);
    forall o | ExchangeableObject(o) ensures c.loads(c.dumps(o)) == Success(o) {
      var ns := [|o|] + EncodeMembers(o);
      DecodeNatsOf(ns);
      assert ns[1..] == EncodeMembers(o) + [];
      DecodeMembersOf(o, []);
    }
    assert RoundTrips(c);
  }
}
