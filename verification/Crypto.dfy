/** What the handshake signs and seals. The primitives are ideal: a log of signatures made and envelopes sealed. */
module Crypto {
  import opened Results

  /** A key pair, named by a number: the holder signs and opens, everyone else verifies and seals. */
  type Key = nat

  /** How the randoms enter a signed payload; decoding falls back to the text itself, so it is total. */
  datatype Encoding = WireStrings | RawBytes(decode: string -> string)

  datatype Order = R1R2 | R2R1

  datatype Signature = Signature(key: Key, payload: string, text: string)

  datatype Envelope = Envelope(key: Key, vkek: string)

  datatype Library = Library(signatures: set<Signature>, envelopes: map<string, Envelope>)

  predicate Verifies(lib: Library, key: Key, payload: string, text: string) {
    Signature(key, payload, text) in lib.signatures
  }

  function Open(lib: Library, key: Key, text: string): Option<string> {
    if text in lib.envelopes && lib.envelopes[text].key == key then Some(lib.envelopes[text].vkek) else None
  }

  function Sign(lib: Library, s: Signature): Library {
    lib.(signatures := lib.signatures + {s})
  }

  function Seal(lib: Library, text: string, e: Envelope): Library {
    lib.(envelopes := lib.envelopes[text := e])
  }

  function Octets(random: string, enc: Encoding): string {
    match enc
    case WireStrings => random
    case RawBytes(decode) => decode(random)
  }

  function SignAuthPayload(random1: string, random2: string, serverId: string, enc: Encoding): string {
    Octets(random2, enc) + Octets(random1, enc) + serverId
  }

  function Sign2Payload(
    random1: string, random2: string, deviceId: string, cryptKey: string, order: Order, enc: Encoding): string
  {
    (if order == R2R1 then Octets(random2, enc) + Octets(random1, enc)
     else Octets(random1, enc) + Octets(random2, enc))
    + deviceId + cryptKey
  }

  lemma PartsAreEqual(a: string, b: string, c: string, d: string, a': string, b': string, c': string, d': string)
    requires |a| == |a'| && |b| == |b'| && |c| == |c'|
    ensures a + b + c + d == a' + b' + c' + d' <==> a == a' && b == b' && c == c' && d == d'
  {
    if a + b + c + d == a' + b' + c' + d' {
      var s := a + b + c + d;
      assert a == s[..|a|] == a';
      assert b == s[|a|..|a| + |b|] == b';
      assert c == s[|a| + |b|..|a| + |b| + |c|] == c';
      assert d == s[|a| + |b| + |c|..] == d';
    }
  }

  /** With randoms and device IDs of fixed length, what is signed fixes every operand, in either order. */
  lemma Sign2PayloadIsInjective(
    r1: string, r2: string, id: string, ck: string, r1': string, r2': string, id': string, ck': string,
    order: Order, enc: Encoding)
    requires |Octets(r1, enc)| == |Octets(r1', enc)| && |Octets(r2, enc)| == |Octets(r2', enc)| && |id| == |id'|
    ensures
      Sign2Payload(r1, r2, id, ck, order, enc) == Sign2Payload(r1', r2', id', ck', order, enc)
      <==>
      Octets(r1, enc) == Octets(r1', enc) && Octets(r2, enc) == Octets(r2', enc) && id == id' && ck == ck'
  {
    var (a, b) := if order == R2R1 then (Octets(r2, enc), Octets(r1, enc)) else (Octets(r1, enc), Octets(r2, enc));
    var (a', b') :=
      if order == R2R1 then (Octets(r2', enc), Octets(r1', enc)) else (Octets(r1', enc), Octets(r2', enc));
    PartsAreEqual(a, b, id, ck, a', b', id', ck');
  }

  lemma SignAuthPayloadIsInjective(
    r1: string, r2: string, id: string, r1': string, r2': string, id': string, enc: Encoding)
    requires |Octets(r1, enc)| == |Octets(r1', enc)| && |Octets(r2, enc)| == |Octets(r2', enc)|
    ensures
      SignAuthPayload(r1, r2, id, enc) == SignAuthPayload(r1', r2', id', enc)
      <==> Octets(r1, enc) == Octets(r1', enc) && Octets(r2, enc) == Octets(r2', enc) && id == id'
  {
    PartsAreEqual(Octets(r2, enc), Octets(r1, enc), "", id, Octets(r2', enc), Octets(r1', enc), "", id');
    assert Octets(r2, enc) + Octets(r1, enc) + "" == Octets(r2, enc) + Octets(r1, enc);
    assert Octets(r2', enc) + Octets(r1', enc) + "" == Octets(r2', enc) + Octets(r1', enc);
  }

  /** Without fixed lengths the payload has no separators to tell its operands apart. */
  lemma PayloadsWithoutSeparatorsCollide()
    ensures SignAuthPayload("ab", "c", "1", WireStrings) == SignAuthPayload("b", "ca", "1", WireStrings)
    ensures Sign2Payload("a", "bc", "1", "k", R1R2, WireStrings) == Sign2Payload("ab", "c", "1", "k", R1R2, WireStrings)
    ensures Sign2Payload("a", "b", "1", "2k", R2R1, WireStrings) == Sign2Payload("a", "b", "12", "k", R2R1, WireStrings)
  {
    assert SignAuthPayload("ab", "c", "1", WireStrings) == "cab1";
    assert SignAuthPayload("b", "ca", "1", WireStrings) == "cab1";
    assert Sign2Payload("a", "bc", "1", "k", R1R2, WireStrings) == "abc1k";
    assert Sign2Payload("ab", "c", "1", "k", R1R2, WireStrings) == "abc1k";
    assert Sign2Payload("a", "b", "1", "2k", R2R1, WireStrings) == "ba12k";
    assert Sign2Payload("a", "b", "12", "k", R2R1, WireStrings) == "ba12k";
  }

  lemma ThreeSlices(a: string, b: string, c: string)
    ensures
      var p := a + b + c;
      && |p| == |a| + |b| + |c|
      && p[..|a|] == a && p[|a|..|a| + |b|] == b && p[|a| + |b|..] == c
  {
  }

  /** What sign1 covers, octet by octet: random2, random1, server ID, the randoms as they stand or decoded. */
  lemma SignAuthOctets(random1: string, random2: string, serverId: string, enc: Encoding)
    ensures
      var a := match enc case WireStrings => random2 case RawBytes(decode) => decode(random2);
      var b := match enc case WireStrings => random1 case RawBytes(decode) => decode(random1);
      var p := SignAuthPayload(random1, random2, serverId, enc);
      && |p| == |a| + |b| + |serverId|
      && p[..|a|] == a && p[|a|..|a| + |b|] == b && p[|a| + |b|..] == serverId
  {
    ThreeSlices(Octets(random2, enc), Octets(random1, enc), serverId);
  }

  /** What sign2 covers: the randoms in the configured order, device ID, envelope. */
  lemma Sign2Octets(
    random1: string, random2: string, deviceId: string, cryptKey: string, order: Order, enc: Encoding)
    ensures
      var r1 := match enc case WireStrings => random1 case RawBytes(decode) => decode(random1);
      var r2 := match enc case WireStrings => random2 case RawBytes(decode) => decode(random2);
      var (a, b) := if order == R1R2 then (r1, r2) else (r2, r1);
      var p := Sign2Payload(random1, random2, deviceId, cryptKey, order, enc);
      && |p| == |a| + |b| + |deviceId| + |cryptKey|
      && p[..|a|] == a && p[|a|..|a| + |b|] == b
      && p[|a| + |b|..|a| + |b| + |deviceId|] == deviceId && p[|a| + |b| + |deviceId|..] == cryptKey
  {
    var (a, b) := if order == R2R1 then (Octets(random2, enc), Octets(random1, enc))
                  else (Octets(random1, enc), Octets(random2, enc));
    var p := a + b + deviceId + cryptKey;
    assert p == (a + b) + (deviceId + cryptKey);
    ThreeSlices(a, b, deviceId + cryptKey);
    ThreeSlices(a + b, deviceId, cryptKey);
  }
}
