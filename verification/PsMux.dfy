/** The multiplexer of src/ps.rs. */
module PsMux {
  import opened Octets
  import opened Results
  import opened Pes
  import AnnexB

  const MAX_PES_CHUNK_BYTES := 65000
  const STREAM_TYPE_H264: byte := 0x1B
  const STREAM_TYPE_H265: byte := 0x24
  const VIDEO: byte := 0xE0
  const U64_VALUES := 0x1_0000_0000_0000_0000

  /** 14 bytes; the bit fields never overlap, so each `|` of the source is a sum. */
  function PackHeader(scr: nat, muxRate: nat): (h: Bytes)
    ensures |h| == 14
  {
    var base := scr / 300;
    var ext := scr % 300;
    var rate := muxRate % 0x40_0000;
    [ 0, 0, 1, 0xBA,
      0x44 + Shr(base, 30) % 8 * 8 + Shr(base, 28) % 4,
      Shr(base, 20) % 256,
      0x04 + Shr(base, 15) % 32 * 8 + Shr(base, 13) % 4,
      Shr(base, 5) % 256,
      0x04 + base % 32 * 8 + Shr(ext, 7) % 4,
      0x01 + ext % 128 * 2,
      rate / 0x4000,
      rate / 0x40 % 256,
      0x03 + rate % 64 * 4,
      0xF8 ]
  }

  /** 17 bytes: one stream entry and a truncated CRC of zero. */
  function StreamMap(streamType: byte): (m: Bytes)
    ensures |m| == 17
  {
    [0, 0, 1, 0xBB, 0, 11, 0x01, 0, 0, 0, 4, streamType, 0xE0, 0, 0, 0, 0]
  }

  function FirstChunk(es: Bytes): (n: nat)
    ensures n <= |es| && n <= MAX_PES_CHUNK_BYTES
  {
    Min(MAX_PES_CHUNK_BYTES, |es|)
  }

  /** The elementary stream in bounded packets, the time stamps on the first only. */
  function PesChain(es: Bytes, stamp: Option<(nat, nat)>): Bytes
    decreases |es|
  {
    var n := FirstChunk(es);
    ChunkPes(es[..n], stamp) + if n == |es| then [] else PesChain(es[n..], None)
  }

  function ChunkPes(chunk: Bytes, stamp: Option<(nat, nat)>): Bytes {
    match stamp
    case Some((pts, dts)) => PesBytes(VIDEO, chunk, Some(pts), Some(dts))
    case None => PesBytes(VIDEO, chunk, None, None)
  }

  function Headers(isKeyFrame: bool, pts: nat, streamType: byte): Bytes {
    PackHeader(pts * 300 % U64_VALUES, 10000) + if isKeyFrame then StreamMap(streamType) else []
  }

  function Mux(nalus: seq<Bytes>, isKeyFrame: bool, pts: nat, dts: nat, streamType: byte): Bytes {
    Headers(isKeyFrame, pts, streamType) + PesChain(AnnexB.Stream(nalus), Some((pts, dts)))
  }

  method MuxNalusToPs(nalus: seq<Bytes>, isKeyFrame: bool, pts: nat, dts: nat, streamType: byte)
    returns (ps: Bytes)
    ensures ps == Mux(nalus, isKeyFrame, pts, dts, streamType)
  {
    ps := [];
    var scr := pts * 300 % U64_VALUES;
    var muxRate := 10000;
    ps := ps + PackHeader(scr, muxRate);
    if isKeyFrame {
      ps := ps + StreamMap(streamType);
    }
    assert ps == Headers(isKeyFrame, pts, streamType);
    var payload := JoinNalus(nalus);
    ps := AddPesPackets(ps, payload, pts, dts);
  }

  /** The first loop: the units with their start codes. */
  method JoinNalus(nalus: seq<Bytes>) returns (payload: Bytes)
    ensures payload == AnnexB.Stream(nalus)
  {
    payload := [];
    for i := 0 to |nalus|
      invariant payload == AnnexB.Stream(nalus[..i])
    {
      if i == 0 {
        payload := payload + [0, 0, 0, 1];
      } else {
        payload := payload + [0, 0, 1];
      }
      payload := payload + nalus[i];
      StreamGrows(nalus[..i], nalus[i]);
      assert nalus[..i + 1] == nalus[..i] + [nalus[i]];
    }
    assert nalus[..|nalus|] == nalus;
  }

  function StampOf(start: nat, pts: nat, dts: nat): Option<(nat, nat)> {
    if start == 0 then Some((pts, dts)) else None
  }

  /** The second loop: one bounded packet after another. */
  method AddPesPackets(head: Bytes, payload: Bytes, pts: nat, dts: nat) returns (ps: Bytes)
    ensures ps == head + PesChain(payload, Some((pts, dts)))
  {
    ps := head;
    var start := 0;
    assert payload[0..] == payload;
    while true
      invariant 0 <= start <= |payload|
      invariant
        ps + PesChain(payload[start..], StampOf(start, pts, dts)) == head + PesChain(payload, Some((pts, dts)))
      decreases |payload| - start
    {
      var end := Min(start + MAX_PES_CHUNK_BYTES, |payload|);
      var chunk := payload[start..end];
      ChainStep(ps, payload, start, end, StampOf(start, pts, dts));
      var pes;
      if start == 0 {
        pes := BuildPesPacket(0xE0, chunk, Some(pts), Some(dts));
      } else {
        pes := BuildPesPacket(0xE0, chunk, None, None);
      }
      ps := ps + pes;
      if end == |payload| {
        break;
      }
      start := end;
    }
  }

  lemma ChainStep(ps: Bytes, payload: Bytes, start: nat, end: nat, stamp: Option<(nat, nat)>)
    requires start <= |payload| && end == Min(start + MAX_PES_CHUNK_BYTES, |payload|)
    ensures
      ps + PesChain(payload[start..], stamp) ==
      ps + ChunkPes(payload[start..end], stamp) + if end == |payload| then [] else PesChain(payload[end..], None)
  {
    var rest := payload[start..];
    assert payload[start..end] == rest[..FirstChunk(rest)];
    assert rest[FirstChunk(rest)..] == payload[end..];
  }

  lemma {:induction false} StreamGrows(nalus: seq<Bytes>, n: Bytes)
    ensures AnnexB.Stream(nalus + [n]) == AnnexB.Stream(nalus) + (if nalus == [] then CODE4 else CODE3) + n
  {
    if nalus == [] {
      assert nalus + [n] == [n];
    } else {
      ChainGrows(nalus, n);
    }
  }

  lemma {:induction false} ChainGrows(nalus: seq<Bytes>, n: Bytes)
    requires nalus != []
    ensures AnnexB.Chain(nalus + [n]) == AnnexB.Chain(nalus) + CODE3 + n
  {
    assert (nalus + [n])[1..] == nalus[1..] + [n];
    if |nalus| > 1 {
      ChainGrows(nalus[1..], n);
    } else {
      assert nalus[1..] + [n] == [n];
    }
  }

  // --- What the pack header carries ---

  function At(h: Bytes, i: nat): nat
    requires i < |h|
  {
    h[i]
  }

  /** The 33-bit clock base where section 2.5.3.3 of ISO/IEC 13818-1 puts it, markers skipped. */
  function ClockBase(h: Bytes): nat
    requires |h| == 14
  {
    At(h, 4) / 8 % 8 * 0x4000_0000 + At(h, 4) % 4 * 0x1000_0000 + At(h, 5) * 0x10_0000 + At(h, 6) / 8 * 0x8000
    + At(h, 6) % 4 * 0x2000 + At(h, 7) * 0x20 + At(h, 8) / 8
  }

  function ClockExtension(h: Bytes): nat
    requires |h| == 14
  {
    At(h, 8) % 4 * 0x80 + At(h, 9) / 2
  }

  function ProgramMuxRate(h: Bytes): nat
    requires |h| == 14
  {
    At(h, 10) * 0x4000 + At(h, 11) * 0x40 + At(h, 12) / 4
  }

  /** The marker bits are set and no stuffing is announced. */
  predicate Marked(h: Bytes)
    requires |h| == 14
  {
    && At(h, 4) / 64 == 1 && At(h, 4) / 4 % 2 == 1 && At(h, 6) / 4 % 2 == 1 && At(h, 8) / 4 % 2 == 1
    && At(h, 9) % 2 == 1 && At(h, 12) % 4 == 3 && At(h, 13) % 8 == 0
  }

  function Pow2(k: nat): (p: nat)
    ensures p >= 1
  {
    if k == 0 then 1 else 2 * Pow2(k - 1)
  }

  lemma AtLeastOnce(p: nat, k: int)
    requires p >= 1
    ensures (k >= 1 ==> p * k >= p) && (k <= -1 ==> p * k + p <= 0)
  {
  }

  lemma UniqueQuotient(n: nat, p: nat, q: nat, r: nat)
    requires p >= 1 && n == p * q + r && r < p
    ensures n / p == q
  {
    var k := n / p - q;
    assert p * (n / p) + n % p == n;
    assert p * k == p * (n / p) - p * q;
    AtLeastOnce(p, k);
  }

  lemma HalvesDivide(v: nat, p: nat)
    requires p >= 1
    ensures v / 2 / p == v / (2 * p)
  {
    var half, q, r := v / 2, v / 2 / p, v / 2 % p;
    var m := p * q;
    assert half == m + r;
    assert 2 * p * q == 2 * m;
    UniqueQuotient(v, 2 * p, q, 2 * r + v % 2);
  }

  lemma {:induction false} ShiftDivides(v: nat, k: nat)
    ensures Shr(v, k) == v / Pow2(k)
  {
    if k > 0 && v > 0 {
      ShiftDivides(v / 2, k - 1);
      HalvesDivide(v, Pow2(k - 1));
    }
  }

  /** The fields of the clock base, from the low end up. */
  lemma ClockFields(b: nat)
    ensures b % 0x2_0000_0000 ==
      b / 0x4000_0000 % 8 * 0x4000_0000 + b / 0x1000_0000 % 4 * 0x1000_0000 + b / 0x10_0000 % 256 * 0x10_0000
      + b / 0x8000 % 32 * 0x8000 + b / 0x2000 % 4 * 0x2000 + b / 0x20 % 256 * 0x20 + b % 32
  {
    var x1, x2, x3, x4 := b / 0x20, b / 0x2000, b / 0x8000, b / 0x10_0000;
    var x5, x6, x7 := b / 0x1000_0000, b / 0x4000_0000, b / 0x2_0000_0000;
    assert x2 == x1 / 256 && x3 == x2 / 4 && x4 == x3 / 32 && x5 == x4 / 256 && x6 == x5 / 4 && x7 == x6 / 8;
    SumOfFields(b, x1, x2, x3, x4, x5, x6, x7);
  }

  lemma SumOfFields(b: nat, x1: nat, x2: nat, x3: nat, x4: nat, x5: nat, x6: nat, x7: nat)
    requires x1 == b / 32 && x2 == x1 / 256 && x3 == x2 / 4 && x4 == x3 / 32 && x5 == x4 / 256 && x6 == x5 / 4
    requires x7 == x6 / 8
    ensures b == x7 * 0x2_0000_0000 +
      (x6 % 8 * 0x4000_0000 + x5 % 4 * 0x1000_0000 + x4 % 256 * 0x10_0000 + x3 % 32 * 0x8000 + x2 % 4 * 0x2000
       + x1 % 256 * 0x20 + b % 32)
  {
  }

  lemma MarkedFields(x: nat, y: nat)
    requires x < 32 && y < 4
    ensures var b := 4 + x * 8 + y; b / 8 == x && b % 4 == y && b / 4 % 2 == 1
    ensures x < 8 ==> var b := 0x44 + x * 8 + y; b / 8 % 8 == x && b % 4 == y && b / 4 % 2 == 1 && b / 64 == 1
  {
  }

  lemma RateFields(rate: nat)
    ensures rate == rate / 0x4000 * 0x4000 + rate / 0x40 % 256 * 0x40 + rate % 64
  {
    assert rate / 0x40 / 256 == rate / 0x4000;
  }

  lemma Shifts(base: nat, ext: nat)
    ensures Shr(base, 30) == base / 0x4000_0000 && Shr(base, 28) == base / 0x1000_0000
    ensures Shr(base, 20) == base / 0x10_0000 && Shr(base, 15) == base / 0x8000 && Shr(base, 13) == base / 0x2000
    ensures Shr(base, 5) == base / 0x20 && Shr(ext, 7) == ext / 0x80
  {
    PowersOfTwo();
    hide Shr, Pow2;
    ShiftDivides(base, 30);
    ShiftDivides(base, 28);
    ShiftDivides(base, 20);
    ShiftDivides(base, 15);
    ShiftDivides(base, 13);
    ShiftDivides(base, 5);
    ShiftDivides(ext, 7);
  }

  lemma PackHeaderBits(scr: nat, muxRate: nat)
    ensures
      var h, base, ext, rate := PackHeader(scr, muxRate), scr / 300, scr % 300, muxRate % 0x40_0000;
      && At(h, 4) == 0x44 + base / 0x4000_0000 % 8 * 8 + base / 0x1000_0000 % 4
      && At(h, 5) == base / 0x10_0000 % 256
      && At(h, 6) == 4 + base / 0x8000 % 32 * 8 + base / 0x2000 % 4
      && At(h, 7) == base / 0x20 % 256
      && At(h, 8) == 4 + base % 32 * 8 + ext / 0x80 % 4
      && At(h, 9) == 1 + ext % 0x80 * 2
      && At(h, 10) == rate / 0x4000 && At(h, 11) == rate / 0x40 % 256 && At(h, 12) == 3 + rate % 64 * 4
      && At(h, 13) == 0xF8
  {
    Shifts(scr / 300, scr % 300);
    hide Shr;
  }

  lemma PackHeaderMarks(scr: nat, muxRate: nat)
    ensures Marked(PackHeader(scr, muxRate))
  {
    PackHeaderBits(scr, muxRate);
    hide PackHeader, At;
    var base, ext := scr / 300, scr % 300;
    MarkedFields(base / 0x4000_0000 % 8, base / 0x1000_0000 % 4);
    MarkedFields(base / 0x8000 % 32, base / 0x2000 % 4);
    MarkedFields(base % 32, ext / 0x80 % 4);
  }

  /** The header carries the clock reference and the rate in the bits of its standard layout. */
  lemma PackHeaderCarriesClock(scr: nat, muxRate: nat)
    ensures
      var h := PackHeader(scr, muxRate);
      && ClockBase(h) == scr / 300 % 0x2_0000_0000 && ClockExtension(h) == scr % 300
      && ProgramMuxRate(h) == muxRate % 0x40_0000 && Marked(h)
  {
    PackHeaderBits(scr, muxRate);
    PackHeaderMarks(scr, muxRate);
    hide PackHeader, At, Marked;
    var base, ext := scr / 300, scr % 300;
    MarkedFields(base / 0x4000_0000 % 8, base / 0x1000_0000 % 4);
    MarkedFields(base / 0x8000 % 32, base / 0x2000 % 4);
    MarkedFields(base % 32, ext / 0x80 % 4);
    ClockFields(base);
    RateFields(muxRate % 0x40_0000);
  }

  lemma PowersOfTwo()
    ensures Pow2(5) == 0x20 && Pow2(7) == 0x80 && Pow2(13) == 0x2000 && Pow2(15) == 0x8000
    ensures Pow2(20) == 0x10_0000 && Pow2(28) == 0x1000_0000 && Pow2(30) == 0x4000_0000
  {
    assert Pow2(10) == 0x400;
    assert Pow2(20) == 0x10_0000;
  }

  // --- What a muxed buffer opens with ---

  lemma ChainOpens(es: Bytes, pts: nat, dts: nat)
    ensures
      var chain := PesChain(es, Some((pts, dts)));
      && |chain| >= 19 && chain[..4] == [0, 0, 1, 0xE0]
      && Stamp33(chain[8..13]) == pts % 0x2_0000_0000 && Stamp33(chain[13..18]) == dts % 0x2_0000_0000
  {
    var chunk := es[..FirstChunk(es)];
    PesLayout(VIDEO, chunk, Some(pts), Some(dts));
    hide PesBytes, Stamp33;
    var p := PesBytes(VIDEO, chunk, Some(pts), Some(dts));
    var chain := PesChain(es, Some((pts, dts)));
    assert p <= chain;
    assert chain[..4] == p[..4] && chain[8..13] == p[8..13] && chain[13..18] == p[13..18];
  }

  /**
   * The first 14 bytes of every buffer carry the time stamp on the 27 MHz clock: its base is the stamp itself, modulo
   * 2^33, with no extension, as long as the product fits 64 bits. A key frame has its stream map next, any other frame
   * its first packet, which carries both stamps.
   */
  lemma MuxCarriesClock(nalus: seq<Bytes>, isKeyFrame: bool, pts: nat, dts: nat, streamType: byte)
    ensures
      var ps := Mux(nalus, isKeyFrame, pts, dts, streamType);
      var ticks := pts * 300 % 0x1_0000_0000_0000_0000;
      && |ps| > 31 && ps[..4] == [0, 0, 1, 0xBA] && Marked(ps[..14])
      && ClockBase(ps[..14]) == ticks / 300 % 0x2_0000_0000 && ClockExtension(ps[..14]) == ticks % 300
      && (pts * 300 < 0x1_0000_0000_0000_0000 ==>
            ClockBase(ps[..14]) == pts % 0x2_0000_0000 && ClockExtension(ps[..14]) == 0)
      && ProgramMuxRate(ps[..14]) == 10000
      && (isKeyFrame ==>
            && ps[14..31] == [0, 0, 1, 0xBB, 0, 11, 1, 0, 0, 0, 4, streamType, 0xE0, 0, 0, 0, 0]
            && |ps| > 35 && ps[31..35] == [0, 0, 1, 0xE0])
      && (!isKeyFrame ==> ps[14..18] == [0, 0, 1, 0xE0])
      && var at := if isKeyFrame then 31 else 14;
        && |ps| >= at + 19
        && Stamp33(ps[at + 8..at + 13]) == pts % 0x2_0000_0000
        && Stamp33(ps[at + 13..at + 18]) == dts % 0x2_0000_0000
  {
    hide PackHeader, PesChain, StreamMap, ClockBase, ClockExtension, ProgramMuxRate, Marked, Stamp33, Mux;
    ClockOfHeader(pts);
    MapBytes(streamType);
    PartsOfMux(nalus, isKeyFrame, pts, dts, streamType);
  }

  lemma ClockOfHeader(pts: nat)
    ensures
      var h := PackHeader(pts * 300 % U64_VALUES, 10000);
      var ticks := pts * 300 % 0x1_0000_0000_0000_0000;
      && h[..4] == [0, 0, 1, 0xBA] && Marked(h)
      && ClockBase(h) == ticks / 300 % 0x2_0000_0000 && ClockExtension(h) == ticks % 300
      && (pts * 300 < 0x1_0000_0000_0000_0000 ==>
            ClockBase(h) == pts % 0x2_0000_0000 && ClockExtension(h) == 0)
      && ProgramMuxRate(h) == 10000
  {
    hide PackHeader, ClockBase, ClockExtension, ProgramMuxRate, Marked;
    var ticks := pts * 300 % U64_VALUES;
    HeaderCode(ticks);
    StampInTicks(pts);
    PackHeaderCarriesClock(ticks, 10000);
  }

  lemma HeaderCode(scr: nat)
    ensures PackHeader(scr, 10000)[..4] == [0, 0, 1, 0xBA]
  {
  }

  lemma PartsOfMux(nalus: seq<Bytes>, isKeyFrame: bool, pts: nat, dts: nat, streamType: byte)
    ensures
      var ps := Mux(nalus, isKeyFrame, pts, dts, streamType);
      var h := PackHeader(pts * 300 % U64_VALUES, 10000);
      var at := if isKeyFrame then 31 else 14;
      && |ps| >= at + 19 && ps[..14] == h && ps[..4] == h[..4]
      && (isKeyFrame ==> ps[14..31] == StreamMap(streamType))
      && ps[at..at + 4] == [0, 0, 1, 0xE0]
      && Stamp33(ps[at + 8..at + 13]) == pts % 0x2_0000_0000
      && Stamp33(ps[at + 13..at + 18]) == dts % 0x2_0000_0000
  {
    hide PackHeader, PesChain, StreamMap, AnnexB.Stream, Stamp33;
    var es := AnnexB.Stream(nalus);
    var chain := PesChain(es, Some((pts, dts)));
    var h := PackHeader(pts * 300 % U64_VALUES, 10000);
    var m := if isKeyFrame then StreamMap(streamType) else [];
    ChainOpens(es, pts, dts);
    PartsOfBuffer(h, m, chain);
    assert h + m + chain == Mux(nalus, isKeyFrame, pts, dts, streamType);
  }

  lemma MapBytes(streamType: byte)
    ensures StreamMap(streamType) == [0, 0, 1, 0xBB, 0, 11, 1, 0, 0, 0, 4, streamType, 0xE0, 0, 0, 0, 0]
  {
  }

  lemma StampInTicks(pts: nat)
    ensures
      var ticks := pts * 300 % 0x1_0000_0000_0000_0000;
      pts * 300 < 0x1_0000_0000_0000_0000 ==> ticks / 300 == pts && ticks % 300 == 0
  {
  }

  lemma PartsOfBuffer(h: Bytes, m: Bytes, chain: Bytes)
    requires |h| == 14 && (m == [] || |m| == 17) && |chain| >= 19
    ensures
      var ps := h + m + chain;
      && |ps| > 31 && ps[..14] == h && ps[..4] == h[..4]
      && (m != [] ==> ps[14..31] == m)
      && var at := if m == [] then 14 else 31;
        && |ps| >= at + 19 && ps[at..at + 4] == chain[..4]
        && ps[at + 8..at + 13] == chain[8..13] && ps[at + 13..at + 18] == chain[13..18]
  {
  }
}
