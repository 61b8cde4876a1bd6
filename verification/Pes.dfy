/** PES packets as src/ps.rs writes and reads them. */
module Pes {
  import opened Octets
  import opened Results

  datatype PesPacket = PesPacket(
    streamId: byte, length: nat, pts: Option<nat>, dts: Option<nat>, data: Bytes)

  /** A parse either yields a packet, reports an error, or runs off the end of the buffer. */
  datatype PesOutcome = Parsed(pes: PesPacket, consumed: nat) | Bail | Panic

  // --- 33-bit time stamps ---

  const TWO7 := 0x80
  const TWO15 := 0x8000
  const TWO22 := 0x40_0000
  const TWO30 := 0x4000_0000
  const TWO33 := 0x2_0000_0000

  /** The bit fields never overlap, so each `|` of the source is a sum. */
  function EncodeTimestamp(value: nat, prefix: nat): (b: Bytes)
    requires prefix < 16
    ensures |b| == 5
  {
    [ prefix * 16 + value / TWO30 % 8 * 2 + 1,
      value / TWO22 % 256,
      value / TWO15 % 128 * 2 + 1,
      value / TWO7 % 256,
      value % 128 * 2 + 1 ]
  }

  function DecodeTimestamp(b: Bytes): nat {
    if |b| < 5 then 0
    else b[0] / 2 % 8 * TWO30 + b[1] * TWO22 + b[2] / 2 % 128 * TWO15 + b[3] * TWO7 + b[4] / 2 % 128
  }

  /** A time stamp comes back modulo 2^33, whatever the prefix nibble. */
  lemma TimestampRoundTrip(value: nat, prefix: nat)
    requires prefix < 16
    ensures DecodeTimestamp(EncodeTimestamp(value, prefix)) == value % TWO33
  {
    StampFields(value);
    hide DecodeTimestamp;
    FieldsAreDecoded(
      prefix, value / TWO30 % 8, value / TWO22 % 256, value / TWO15 % 128, value / TWO7 % 256, value % 128);
  }

  lemma FieldsAreDecoded(prefix: nat, f30: nat, f22: nat, f15: nat, f7: nat, f0: nat)
    requires prefix < 16 && f30 < 8 && f22 < 256 && f15 < 128 && f7 < 256 && f0 < 128
    ensures
      DecodeTimestamp([prefix * 16 + f30 * 2 + 1, f22, f15 * 2 + 1, f7, f0 * 2 + 1]) ==
      f30 * TWO30 + f22 * TWO22 + f15 * TWO15 + f7 * TWO7 + f0
  {
    FieldOfMarkedByte(prefix, f30);
    FieldOfMarkedByte(0, f15);
    FieldOfMarkedByte(0, f0);
  }

  lemma FieldOfMarkedByte(prefix: nat, field: nat)
    requires prefix < 16 && (field < 8 || (prefix == 0 && field < 128))
    ensures (prefix * 16 + field * 2 + 1) / 2 % 128 == (prefix * 8 + field) % 128
    ensures field < 8 ==> (prefix * 16 + field * 2 + 1) / 2 % 8 == field
  {
  }

  lemma StampFields(value: nat)
    ensures
      value % TWO33 ==
      value / TWO30 % 8 * TWO30 + value / TWO22 % 256 * TWO22 + value / TWO15 % 128 * TWO15 +
      value / TWO7 % 256 * TWO7 + value % 128
  {
    var q7 := value / TWO7;
    var q15 := q7 / 256;
    var q22 := q15 / 128;
    var q30 := q22 / 256;
    assert q15 == value / TWO15;
    assert q22 == value / TWO22;
    assert q30 == value / TWO30;
    var q33 := q30 / 8;
    assert q33 == value / TWO33;
  }

  // --- Building ---

  function OptionalLength(pts: Option<nat>, dts: Option<nat>): (n: byte)
  {
    (if pts.Some? then 5 else 0) + (if dts.Some? then 5 else 0)
  }

  /** What the length field says: 0 means unbounded, for lack of content or of room. */
  function DeclaredLength(optional: byte, payload: nat): (n: nat)
    ensures n < 0x1_0000
  {
    if optional > 0 || payload > 0 then
      if 3 + optional + payload <= 65535 then 3 + optional + payload else 0
    else 0
  }

  function HeaderFlags(pts: Option<nat>, dts: Option<nat>): byte {
    (match (pts, dts)
     case (Some(_), Some(_)) => 3
     case (Some(_), None) => 2
     case (None, Some(_)) => 1
     case (None, None) => 0) * 64
  }

  function WithStamp(header: Bytes, stamp: Option<nat>, prefix: nat): (b: Bytes)
    requires prefix < 16
    ensures |b| == |header| + if stamp.Some? then 5 else 0
    ensures header <= b
  {
    if stamp.Some? then header + EncodeTimestamp(stamp.value, prefix) else header
  }

  /** Everything in front of the payload, the gap byte included. */
  function PesHeader(streamId: byte, payload: nat, pts: Option<nat>, dts: Option<nat>): (b: Bytes)
    ensures |b| == 9 + OptionalLength(pts, dts)
  {
    var optional := OptionalLength(pts, dts);
    var fixed := [0, 0, 1, streamId] + Be16(DeclaredLength(optional, payload)) + [HeaderFlags(pts, dts)] + [optional];
    WithStamp(WithStamp(fixed, pts, if dts.Some? then 3 else 2), dts, 1) + [0]
  }

  function PesBytes(streamId: byte, payload: Bytes, pts: Option<nat>, dts: Option<nat>): Bytes {
    PesHeader(streamId, |payload|, pts, dts) + payload
  }

  method BuildPesPacket(streamId: byte, payload: Bytes, pts: Option<nat>, dts: Option<nat>) returns (pes: Bytes)
    ensures pes == PesBytes(streamId, payload, pts, dts)
  {
    pes := [0, 0, 1, streamId];
    var optionalHeaderLen: byte := 0;
    if pts.Some? {
      optionalHeaderLen := optionalHeaderLen + 5;
    }
    if dts.Some? {
      optionalHeaderLen := optionalHeaderLen + 5;
    }
    pes := pes + Be16(DeclaredLength(optionalHeaderLen, |payload|));
    pes := pes + [HeaderFlags(pts, dts)];
    pes := pes + [optionalHeaderLen];
    ghost var fixed := pes;
    if pts.Some? {
      var prefix := if dts.Some? then 3 else 2;
      pes := pes + EncodeTimestamp(pts.value, prefix);
    }
    assert pes == WithStamp(fixed, pts, if dts.Some? then 3 else 2);
    if dts.Some? {
      pes := pes + EncodeTimestamp(dts.value, 1);
    }
    assert pes == WithStamp(WithStamp(fixed, pts, if dts.Some? then 3 else 2), dts, 1);
    pes := pes + [0];
    assert pes == PesHeader(streamId, |payload|, pts, dts);
    pes := pes + payload;
  }

  // --- Parsing ---

  function ParsePes(data: Bytes): PesOutcome {
    if |data| < 6 || !(CODE3 <= data) || |data| < 9 then Bail
    else
      var id := data[3];
      var length := FromBe16(data[4], data[5]);
      if id == 0xBE then
        Parsed(PesPacket(id, length, None, None, []), Min(6 + length, |data|))
      else if 0xC0 <= id <= 0xEF then
        ParseElementary(data, id, length)
      else
        var end := if length > 0 then Min(6 + length, |data|) else |data|;
        Parsed(PesPacket(id, length, None, None, data[6..end]), end)
  }

  /** Audio and video: flags, header length, time stamps, gap byte, payload. */
  function ParseElementary(data: Bytes, id: byte, length: nat): PesOutcome
    requires |data| >= 9
  {
    var stamps := data[6] / 64;
    var headerLength := data[7];
    var offset := 9 + headerLength;
    if 8 + headerLength > |data| then Bail
    else if (stamps >= 2 && |data| < 13) || (stamps == 3 && |data| < 18) || offset > |data| then Panic
    else
      var pts := if stamps >= 2 then Some(DecodeTimestamp(data[8..13])) else None;
      var dts := if stamps == 3 then Some(DecodeTimestamp(data[13..18])) else None;
      var end := if length > 0 then Min(offset + Max(length - (3 + headerLength), 0), |data|) else |data|;
      Parsed(PesPacket(id, length, pts, dts, data[offset..end]), end)
  }

  method ParsePesPacket(data: Bytes) returns (r: PesOutcome)
    ensures r == ParsePes(data)
  {
    if |data| < 6 {
      return Bail;
    }
    if data[0] != 0 || data[1] != 0 || data[2] != 1 {
      return Bail;
    }
    var streamId := data[3];
    var length := FromBe16(data[4], data[5]);
    if |data| < 6 + 3 {
      return Bail;
    }
    var offset: nat := 6;
    if streamId == 0xBE {
      if length > 0 {
        offset := offset + length;
      }
      return Parsed(PesPacket(streamId, length, None, None, []), Min(offset, |data|));
    }
    if 0xC0 <= streamId <= 0xEF {
      if offset + 2 > |data| {
        return Bail;
      }
      var flags := data[offset];
      var headerLength: nat := data[offset + 1];
      offset := offset + 2;
      if offset + headerLength > |data| {
        return Bail;
      }
      var pts, dts := None, None;
      var ptsDtsFlags := flags / 64 % 4;
      if ptsDtsFlags == 2 || ptsDtsFlags == 3 {
        if offset + 5 > |data| {
          return Panic;
        }
        pts := Some(DecodeTimestamp(data[offset..offset + 5]));
      }
      if ptsDtsFlags == 3 {
        if offset + 10 > |data| {
          return Panic;
        }
        dts := Some(DecodeTimestamp(data[offset + 5..offset + 10]));
      }
      offset := 6 + 3 + headerLength;
      var remainingLen := if length > 0 then Max(length - (offset - 6), 0) else Max(|data| - offset, 0);
      var payloadEnd := Min(offset + remainingLen, |data|);
      if offset > payloadEnd {
        return Panic;
      }
      return Parsed(PesPacket(streamId, length, pts, dts, data[offset..payloadEnd]), payloadEnd);
    } else {
      var payloadEnd := if length > 0 then Min(6 + length, |data|) else |data|;
      return Parsed(PesPacket(streamId, length, None, None, data[6..payloadEnd]), payloadEnd);
    }
  }

  // --- Round trip ---

  function Wrapped(stamp: Option<nat>): Option<nat> {
    match stamp
    case None => None
    case Some(v) => Some(v % TWO33)
  }

  /** What a faithful parse of a built packet reports. */
  function Expected(streamId: byte, payload: Bytes, pts: Option<nat>, dts: Option<nat>): PesOutcome {
    var optional := OptionalLength(pts, dts);
    Parsed(
      PesPacket(streamId, DeclaredLength(optional, |payload|), Wrapped(pts), Wrapped(dts), payload),
      9 + optional + |payload|)
  }

  /** The declared length counts the bytes behind it, or the buffer ends with the packet. */
  predicate Delimited(payload: Bytes, pts: Option<nat>, dts: Option<nat>, suffix: Bytes) {
    suffix == [] || DeclaredLength(OptionalLength(pts, dts), |payload|) > 0
  }

  /**
   * A built packet, whatever follows it, parses back to its stream id, its payload, its time
   * stamps modulo 2^33 and its own size exactly when the stream is audio or video, a DTS comes
   * with a PTS, and either nothing follows or the length field is not the unbounded 0.
   */
  lemma PesRoundTrip(streamId: byte, payload: Bytes, pts: Option<nat>, dts: Option<nat>, suffix: Bytes)
    ensures
      ParsePes(PesBytes(streamId, payload, pts, dts) + suffix) == Expected(streamId, payload, pts, dts) <==>
      0xC0 <= streamId <= 0xEF && (dts.Some? ==> pts.Some?) && Delimited(payload, pts, dts, suffix)
  {
    var optional := OptionalLength(pts, dts);
    var length := DeclaredLength(optional, |payload|);
    var header := PesHeader(streamId, |payload|, pts, dts);
    var all := PesBytes(streamId, payload, pts, dts) + suffix;
    HeaderBytes(streamId, |payload|, pts, dts);
    assert forall k :: 0 <= k < |header| ==> all[k] == header[k];
    assert CODE3 <= all;
    if 0xC0 <= streamId <= 0xEF {
      assert all[9 + optional..9 + optional + |payload|] == payload;
      if pts.Some? {
        assert all[8..13] == header[8..13];
        TimestampRoundTrip(pts.value, if dts.Some? then 3 else 2);
        if dts.Some? {
          assert all[13..18] == header[13..18];
          TimestampRoundTrip(dts.value, 1);
        }
      }
    }
  }

  lemma HeaderBytes(streamId: byte, payload: nat, pts: Option<nat>, dts: Option<nat>)
    ensures
      var h := PesHeader(streamId, payload, pts, dts);
      var optional := OptionalLength(pts, dts);
      && CODE3 <= h && h[3] == streamId
      && FromBe16(h[4], h[5]) == DeclaredLength(optional, payload)
      && h[6] / 64 == (if pts.Some? then if dts.Some? then 3 else 2 else if dts.Some? then 1 else 0)
      && h[7] == optional
      && (pts.Some? ==> h[8..13] == EncodeTimestamp(pts.value, if dts.Some? then 3 else 2))
      && (pts.Some? && dts.Some? ==> h[13..18] == EncodeTimestamp(dts.value, 1))
  {
    var optional := OptionalLength(pts, dts);
    var field := Be16(DeclaredLength(optional, payload));
    var fixed := [0, 0, 1, streamId] + field + [HeaderFlags(pts, dts)] + [optional];
    assert fixed[4] == field[0] && fixed[5] == field[1];
    var withPts := WithStamp(fixed, pts, if dts.Some? then 3 else 2);
    assert pts.Some? ==> withPts[8..] == EncodeTimestamp(pts.value, if dts.Some? then 3 else 2);
    var withBoth := WithStamp(withPts, dts, 1);
    assert pts.Some? && dts.Some? ==> withBoth[13..] == EncodeTimestamp(dts.value, 1);
    assert PesHeader(streamId, payload, pts, dts) == withBoth + [0];
  }

  // --- The bytes of a packet ---

  /** Big-endian. */
  function Number(b: Bytes): nat
    requires |b| == 2
  {
    var (high: nat, low: nat) := (b[0], b[1]);
    high * 256 + low
  }

  /** The 33 bits where section 2.4.3.7 of ISO/IEC 13818-1 puts them. */
  function Stamp33(b: Bytes): nat
    requires |b| == 5
  {
    var (b0: nat, b1: nat, b2: nat, b3: nat, b4: nat) := (b[0], b[1], b[2], b[3], b[4]);
    b0 / 2 % 8 * 0x4000_0000 + b1 * 0x40_0000 + b2 / 2 * 0x8000 + b3 * 0x80 + b4 / 2
  }

  /**
   * A built packet byte by byte: start code and id, a big-endian length that counts what follows it unless that is
   * nothing or too much, the stamp flags alone in their byte, the length of the stamps, the stamps with the prefix that
   * tells which they are and their marker bits, one zero byte, and the payload.
   */
  lemma PesLayout(streamId: byte, payload: Bytes, pts: Option<nat>, dts: Option<nat>)
    ensures
      var p := PesBytes(streamId, payload, pts, dts);
      var stamps := (if pts.Some? then 5 else 0) + (if dts.Some? then 5 else 0);
      var counted := 3 + stamps + |payload|;
      && |p| == 9 + stamps + |payload| && p[..4] == [0, 0, 1, streamId]
      && Number(p[4..6]) == (if (stamps == 0 && payload == []) || counted > 65535 then 0 else counted)
      && p[6] == (if pts.Some? then 128 else 0) + (if dts.Some? then 64 else 0) && p[7] == stamps
      && (pts.Some? ==>
            && p[8] / 16 == (if dts.Some? then 3 else 2) && p[8] % 2 == p[10] % 2 == p[12] % 2 == 1
            && Stamp33(p[8..13]) == pts.value % 0x2_0000_0000)
      && (dts.Some? ==>
            var i := if pts.Some? then 13 else 8;
            && p[i] / 16 == 1 && p[i] % 2 == p[i + 2] % 2 == p[i + 4] % 2 == 1
            && Stamp33(p[i..i + 5]) == dts.value % 0x2_0000_0000)
      && p[8 + stamps] == 0 && p[9 + stamps..] == payload
  {
    var optional := OptionalLength(pts, dts);
    var length := DeclaredLength(optional, |payload|);
    var fixed := [0, 0, 1, streamId] + Be16(length) + [HeaderFlags(pts, dts)] + [optional];
    var a := if pts.Some? then EncodeTimestamp(pts.value, if dts.Some? then 3 else 2) else [];
    var b := if dts.Some? then EncodeTimestamp(dts.value, 1) else [];
    if pts.Some? {
      StampBytes(pts.value, if dts.Some? then 3 else 2);
    }
    if dts.Some? {
      StampBytes(dts.value, 1);
    }
    hide EncodeTimestamp, Stamp33;
    assert PesBytes(streamId, payload, pts, dts) == fixed + a + b + [0] + payload;
    PartsOfPacket(fixed, a, b, payload);
    assert Number(fixed[4..6]) == length;
  }

  lemma StampBytes(value: nat, prefix: nat)
    requires prefix < 16
    ensures
      var e := EncodeTimestamp(value, prefix);
      && |e| == 5 && e[0] / 16 == prefix && e[0] % 2 == e[2] % 2 == e[4] % 2 == 1
      && Stamp33(e) == value % 0x2_0000_0000
  {
    TimestampRoundTrip(value, prefix);
    StampIsDecoded(EncodeTimestamp(value, prefix));
    hide DecodeTimestamp, Stamp33;
  }

  lemma PartsOfPacket(fixed: Bytes, a: Bytes, b: Bytes, payload: Bytes)
    requires |fixed| == 8 && (a == [] || |a| == 5) && (b == [] || |b| == 5)
    ensures
      var p := fixed + a + b + [0] + payload;
      && |p| == 9 + |a| + |b| + |payload| && p[..4] == fixed[..4]
      && p[4..6] == fixed[4..6] && p[6] == fixed[6] && p[7] == fixed[7]
      && (a != [] ==> p[8..13] == a && p[8] == a[0] && p[10] == a[2] && p[12] == a[4])
      && (b != [] ==>
            var i := 8 + |a|;
            p[i..i + 5] == b && p[i] == b[0] && p[i + 2] == b[2] && p[i + 4] == b[4])
      && p[8 + |a| + |b|] == 0 && p[9 + |a| + |b|..] == payload
  {
  }

  /** What the parser makes of ids that are neither audio nor video: padding is skipped, others are taken whole. */
  lemma OtherIdsAreTaken(d: Bytes)
    requires |d| >= 9 && CODE3 <= d && !(0xC0 <= d[3] <= 0xEF)
    ensures
      var declared := Number(d[4..6]);
      ParsePes(d) == Parsed(
        PesPacket(
          d[3], declared, None, None,
          if d[3] == 0xBE then [] else if declared == 0 || 6 + declared > |d| then d[6..] else d[6..6 + declared]),
        if declared == 0 then (if d[3] == 0xBE then 6 else |d|) else if 6 + declared > |d| then |d| else 6 + declared)
  {
    assert d[6..|d|] == d[6..];
  }

  /** Too few bytes, no start code, or a header announced beyond the end are errors; stamps cut off are not. */
  lemma ParserRefuses(d: Bytes)
    ensures ParsePes(d) == Bail <==>
      |d| < 9 || d[0] != 0 || d[1] != 0 || d[2] != 1 || (0xC0 <= d[3] <= 0xEF && 8 + d[7] > |d|)
    ensures ParsePes(d) == Panic <==>
      && |d| >= 9 && d[0] == 0 && d[1] == 0 && d[2] == 1 && 0xC0 <= d[3] <= 0xEF && 8 + d[7] <= |d|
      && ((d[6] >= 128 && |d| < 13) || (d[6] >= 192 && |d| < 18) || 9 + d[7] > |d|)
  {
    assert |d| >= 3 ==> (CODE3 <= d <==> d[0] == 0 && d[1] == 0 && d[2] == 1);
  }

  /**
   * An audio or video packet of any origin: what its flags announce is read from the two places behind them, and its
   * payload reaches from behind the announced header and the gap byte to where the declared length ends, to the end of
   * the buffer if that comes first or no length is declared, and is empty if the length ends within the header.
   */
  lemma ElementaryIsCut(d: Bytes)
    requires |d| >= 9 && d[0] == 0 && d[1] == 0 && d[2] == 1 && 0xC0 <= d[3] <= 0xEF && 9 + d[7] <= |d|
    requires (d[6] >= 128 ==> |d| >= 13) && (d[6] >= 192 ==> |d| >= 18)
    ensures
      var (announced: nat, declared) := (d[7], Number(d[4..6]));
      var from := 9 + announced;
      var end :=
        if declared == 0 || 6 + declared > |d| then |d| else if 6 + declared < from then from else 6 + declared;
      ParsePes(d) == Parsed(
        PesPacket(
          d[3], declared, if d[6] >= 128 then Some(Stamp33(d[8..13])) else None,
          if d[6] >= 192 then Some(Stamp33(d[13..18])) else None, d[from..end]),
        end)
  {
    assert CODE3 <= d;
    if d[6] >= 128 {
      StampIsDecoded(d[8..13]);
    }
    if d[6] >= 192 {
      StampIsDecoded(d[13..18]);
    }
    hide DecodeTimestamp, Stamp33;
  }

  lemma StampIsDecoded(b: Bytes)
    requires |b| == 5
    ensures DecodeTimestamp(b) == Stamp33(b)
  {
    var (b2: nat, b4: nat) := (b[2], b[4]);
    assert b2 / 2 % 128 == b2 / 2 && b4 / 2 % 128 == b4 / 2;
  }
}
