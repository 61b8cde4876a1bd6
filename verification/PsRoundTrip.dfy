/**
 * What the scanning demultiplexer makes of what the multiplexer wrote: whether a byte of a
 * header, of a chunk or of the seam between them can pass for a video start code.
 */
module PsRoundTrip {
  import opened Octets
  import opened Results
  import opened Pes
  import opened PsMux
  import opened PsDemux
  import AnnexB

  // --- False video start codes in one packet ---

  /** Read behind the two zero bytes that end a bare header, the chunk opens like a video packet. */
  predicate OpensLikeVideo(chunk: Bytes) {
    || (|chunk| >= 2 && chunk[0] == 1 && IsVideo(chunk[1]))
    || (|chunk| >= 3 && chunk[0] == 0 && chunk[1] == 1 && IsVideo(chunk[2]))
  }

  predicate NoVideoCode(d: Bytes) {
    forall i :: 0 <= i < |d| ==> !VideoAt(d, i)
  }

  predicate CleanChunk(chunk: Bytes, first: bool) {
    NoVideoCode(chunk) && (first || !OpensLikeVideo(chunk))
  }

  /** Packets follow packets: what comes next is nothing or a start code. */
  predicate StartsPacket(rest: Bytes) {
    rest == [] || CODE3 <= rest
  }

  /** Where a video start code can begin behind the front of a stamped packet: inside the chunk. */
  lemma VideoCodesOfStampedPacket(chunk: Bytes, pts: nat, dts: nat, rest: Bytes, i: nat)
    requires StartsPacket(rest) && (chunk == [] || CODE4 <= chunk)
    requires 0 < i < 19 + |chunk|
    ensures VideoAt(ChunkPes(chunk, Some((pts, dts))) + rest, i) <==> i >= 19 && VideoAt(chunk, i - 19)
  {
    HeaderZeros(|chunk|, Some((pts, dts)));
    StampedSeam(PesHeader(VIDEO, |chunk|, Some(pts), Some(dts)), chunk, rest, i);
  }

  /** A bare header ends in zeros, so there a start code may also begin in its last two bytes. */
  lemma VideoCodesOfBarePacket(chunk: Bytes, rest: Bytes, i: nat)
    requires StartsPacket(rest)
    requires 0 < i < 9 + |chunk|
    ensures
      VideoAt(ChunkPes(chunk, None) + rest, i) <==>
      || (i >= 9 && VideoAt(chunk, i - 9))
      || (i == 7 && |chunk| >= 2 && chunk[0] == 1 && IsVideo(chunk[1]))
      || (i == 8 && |chunk| >= 3 && chunk[0] == 0 && chunk[1] == 1 && IsVideo(chunk[2]))
  {
    HeaderZeros(|chunk|, None);
    BareSeam(PesHeader(VIDEO, |chunk|, None, None), chunk, rest, i);
  }

  predicate StampedHeader(h: Bytes) {
    |h| == 19 && h[2] == 1 && h[3] != 0 && h[6] > 1 && h[7] > 1 && h[8] > 1 && h[10] % 2 == 1 && h[12] % 2 == 1
    && h[13] > 1 && h[15] % 2 == 1 && h[17] % 2 == 1 && h[18] == 0
  }

  predicate BareHeader(h: Bytes) {
    |h| == 9 && h[2] == 1 && h[3] > 1 && h[6] == 0 && h[7] == 0 && h[8] == 0
  }

  lemma StampedSeam(h: Bytes, chunk: Bytes, rest: Bytes, i: nat)
    requires StampedHeader(h) && StartsPacket(rest) && (chunk == [] || CODE4 <= chunk)
    requires 0 < i < 19 + |chunk|
    ensures VideoAt(h + chunk + rest, i) <==> i >= 19 && VideoAt(chunk, i - 19)
  {
    var d := h + chunk + rest;
    assert d == h + (chunk + rest);
    if i >= 19 {
      ChunkEnd(h, chunk, rest, i);
    } else {
      var next := chunk + rest;
      assert next == [] || (next[0] == 0 && next[1] == 0);
      assert i < 16 ==> d[i] == h[i] && d[i + 1] == h[i + 1] && d[i + 2] == h[i + 2];
      assert d[17] == h[17];
      assert next != [] ==> d[20] == next[1];
    }
  }

  lemma BareSeam(h: Bytes, chunk: Bytes, rest: Bytes, i: nat)
    requires BareHeader(h) && StartsPacket(rest)
    requires 0 < i < 9 + |chunk|
    ensures
      VideoAt(h + chunk + rest, i) <==>
      || (i >= 9 && VideoAt(chunk, i - 9))
      || (i == 7 && |chunk| >= 2 && chunk[0] == 1 && IsVideo(chunk[1]))
      || (i == 8 && |chunk| >= 3 && chunk[0] == 0 && chunk[1] == 1 && IsVideo(chunk[2]))
  {
    var d := h + chunk + rest;
    assert forall k :: 0 <= k < 9 ==> d[k] == h[k];
    if i >= 9 {
      ChunkEnd(h, chunk, rest, i);
    } else if i >= 7 {
      var next := chunk + rest;
      assert forall k :: 0 <= k < |next| ==> d[9 + k] == next[k];
      assert forall k :: 0 <= k < |chunk| ==> next[k] == chunk[k];
      assert forall k :: 0 <= k < |rest| ==> next[|chunk| + k] == rest[k];
    }
  }

  /** A start code that begins in the chunk lies in the chunk, or is not followed by a video id. */
  lemma ChunkEnd(h: Bytes, chunk: Bytes, rest: Bytes, i: nat)
    requires StartsPacket(rest)
    requires |h| <= i < |h| + |chunk|
    ensures VideoAt(h + chunk + rest, i) <==> VideoAt(chunk, i - |h|)
  {
    var d := h + chunk + rest;
    assert forall k :: 0 <= k < |chunk| ==> d[|h| + k] == chunk[k];
    assert forall k :: 0 <= k < |rest| ==> d[|h| + |chunk| + k] == rest[k];
  }

  /** Which bytes of a header rule out a start code that begins behind its front. */
  lemma HeaderZeros(payload: nat, stamp: Option<(nat, nat)>)
    ensures
      match stamp
      case Some((pts, dts)) => StampedHeader(PesHeader(VIDEO, payload, Some(pts), Some(dts)))
      case None => BareHeader(PesHeader(VIDEO, payload, None, None))
  {
    match stamp
    case Some((pts, dts)) =>
      HeaderBytes(VIDEO, payload, Some(pts), Some(dts));
      var h := PesHeader(VIDEO, payload, Some(pts), Some(dts));
      var p := EncodeTimestamp(pts, 3);
      var q := EncodeTimestamp(dts, 1);
      assert h[8] == h[8..13][0] == p[0] && h[10] == h[8..13][2] == p[2] && h[12] == h[8..13][4] == p[4];
      assert h[13] == h[13..18][0] == q[0] && h[15] == h[13..18][2] == q[2] && h[17] == h[13..18][4] == q[4];
    case None =>
      HeaderBytes(VIDEO, payload, None, None);
  }

  // --- One packet, then the whole chain ---

  function ExpectedOf(chunk: Bytes, stamp: Option<(nat, nat)>): PesOutcome {
    match stamp
    case Some((pts, dts)) => Expected(VIDEO, chunk, Some(pts), Some(dts))
    case None => Expected(VIDEO, chunk, None, None)
  }

  /**
   * A packet adds its own parse, correct whatever follows, and one more outcome for every false
   * video start code; it adds none of those exactly when its chunk is clean.
   */
  lemma PacketOutcomes(chunk: Bytes, stamp: Option<(nat, nat)>, rest: Bytes)
    requires StartsPacket(rest) && |chunk| <= MAX_PES_CHUNK_BYTES
    requires if stamp.Some? then chunk == [] || CODE4 <= chunk else chunk != []
    ensures
      var all := VideoPes(ChunkPes(chunk, stamp) + rest);
      && |all| >= 1 + |VideoPes(rest)|
      && (|all| == 1 + |VideoPes(rest)| <==> CleanChunk(chunk, stamp.Some?))
      && (CleanChunk(chunk, stamp.Some?) ==> all == [ExpectedOf(chunk, stamp)] + VideoPes(rest))
  {
    var packet := ChunkPes(chunk, stamp);
    var d := packet + rest;
    PacketFront(chunk, stamp, rest);
    var x := packet[1..];
    assert d[1..] == x + rest;
    PassOver(x, rest);
    forall i | 0 <= i < |x|
      ensures VideoAt(x + rest, i) <==> VideoAt(d, i + 1)
    {
    }
    CleanPacket(chunk, stamp, rest);
    assert (forall i :: 0 <= i < |x| ==> !VideoAt(x + rest, i))
      <==> (forall i :: 0 < i < |packet| ==> !VideoAt(d, i)) by {
      forall i | 0 < i < |packet|
        ensures VideoAt(d, i) <==> VideoAt(x + rest, i - 1)
      {
      }
    }
  }

  lemma PacketFront(chunk: Bytes, stamp: Option<(nat, nat)>, rest: Bytes)
    requires |chunk| <= MAX_PES_CHUNK_BYTES
    requires stamp.None? ==> chunk != []
    ensures
      var d := ChunkPes(chunk, stamp) + rest;
      && |d| >= 9 && |ChunkPes(chunk, stamp)| >= 9 && VideoAt(d, 0)
      && ParsePes(d) == ExpectedOf(chunk, stamp)
  {
    match stamp
    case Some((pts, dts)) =>
      PesRoundTrip(VIDEO, chunk, Some(pts), Some(dts), rest);
      HeaderBytes(VIDEO, |chunk|, Some(pts), Some(dts));
      var h := PesHeader(VIDEO, |chunk|, Some(pts), Some(dts));
      assert forall k :: 0 <= k < 4 ==> (h + chunk + rest)[k] == h[k];
    case None =>
      PesRoundTrip(VIDEO, chunk, None, None, rest);
      HeaderBytes(VIDEO, |chunk|, None, None);
      var h := PesHeader(VIDEO, |chunk|, None, None);
      assert forall k :: 0 <= k < 4 ==> (h + chunk + rest)[k] == h[k];
  }

  lemma CleanPacket(chunk: Bytes, stamp: Option<(nat, nat)>, rest: Bytes)
    requires StartsPacket(rest)
    requires stamp.Some? ==> chunk == [] || CODE4 <= chunk
    ensures
      var packet := ChunkPes(chunk, stamp);
      CleanChunk(chunk, stamp.Some?) <==> forall i :: 0 < i < |packet| ==> !VideoAt(packet + rest, i)
  {
    match stamp
    case Some((pts, dts)) => CleanStampedPacket(chunk, pts, dts, rest);
    case None => CleanBarePacket(chunk, rest);
  }

  lemma CleanStampedPacket(chunk: Bytes, pts: nat, dts: nat, rest: Bytes)
    requires StartsPacket(rest) && (chunk == [] || CODE4 <= chunk)
    ensures
      var packet := ChunkPes(chunk, Some((pts, dts)));
      NoVideoCode(chunk) <==> forall i :: 0 < i < |packet| ==> !VideoAt(packet + rest, i)
  {
    var packet := ChunkPes(chunk, Some((pts, dts)));
    forall i | 0 < i < |packet|
      ensures VideoAt(packet + rest, i) <==> i >= 19 && VideoAt(chunk, i - 19)
    {
      VideoCodesOfStampedPacket(chunk, pts, dts, rest, i);
    }
    if forall i :: 0 < i < |packet| ==> !VideoAt(packet + rest, i) {
      forall i | 0 <= i < |chunk|
        ensures !VideoAt(chunk, i)
      {
        assert !VideoAt(packet + rest, i + 19);
      }
    }
  }

  lemma CleanBarePacket(chunk: Bytes, rest: Bytes)
    requires StartsPacket(rest)
    ensures
      var packet := ChunkPes(chunk, None);
      CleanChunk(chunk, false) <==> forall i :: 0 < i < |packet| ==> !VideoAt(packet + rest, i)
  {
    var packet := ChunkPes(chunk, None);
    forall i | 0 < i < |packet|
      ensures
        VideoAt(packet + rest, i) <==>
        || (i >= 9 && VideoAt(chunk, i - 9))
        || (i == 7 && |chunk| >= 2 && chunk[0] == 1 && IsVideo(chunk[1]))
        || (i == 8 && |chunk| >= 3 && chunk[0] == 0 && chunk[1] == 1 && IsVideo(chunk[2]))
    {
      VideoCodesOfBarePacket(chunk, rest, i);
    }
    if forall i :: 0 < i < |packet| ==> !VideoAt(packet + rest, i) {
      forall i | 0 <= i < |chunk|
        ensures !VideoAt(chunk, i)
      {
        assert !VideoAt(packet + rest, i + 9);
      }
      assert !VideoAt(packet + rest, 7) && !VideoAt(packet + rest, 8);
    }
  }

  function Chunks(es: Bytes): seq<Bytes>
    decreases |es|
  {
    var n := FirstChunk(es);
    [es[..n]] + if n == |es| then [] else Chunks(es[n..])
  }

  predicate CleanChunks(es: Bytes, first: bool)
    decreases |es|
  {
    var n := FirstChunk(es);
    CleanChunk(es[..n], first) && (n == |es| || CleanChunks(es[n..], false))
  }

  function ExpectedOutcomes(es: Bytes, stamp: Option<(nat, nat)>): seq<PesOutcome>
    decreases |es|
  {
    var n := FirstChunk(es);
    [ExpectedOf(es[..n], stamp)] + if n == |es| then [] else ExpectedOutcomes(es[n..], None)
  }

  lemma ChainStartsPacket(es: Bytes, stamp: Option<(nat, nat)>)
    ensures StartsPacket(PesChain(es, stamp))
  {
    var n := FirstChunk(es);
    match stamp
    case Some((pts, dts)) => HeaderBytes(VIDEO, n, Some(pts), Some(dts));
    case None => HeaderBytes(VIDEO, n, None, None);
  }

  /**
   * The demultiplexer sees at least one video packet per chunk. It sees exactly those - each with
   * its own chunk - if and only if every chunk is clean.
   */
  lemma {:induction false} ChainOutcomes(es: Bytes, stamp: Option<(nat, nat)>)
    requires if stamp.Some? then es == [] || CODE4 <= es else es != []
    ensures
      var all := VideoPes(PesChain(es, stamp));
      && |all| >= |Chunks(es)|
      && (|all| == |Chunks(es)| <==> CleanChunks(es, stamp.Some?))
      && (CleanChunks(es, stamp.Some?) ==> all == ExpectedOutcomes(es, stamp))
    decreases |es|
  {
    var n := FirstChunk(es);
    var rest := if n == |es| then [] else PesChain(es[n..], None);
    if n < |es| {
      ChainOutcomes(es[n..], None);
      ChainStartsPacket(es[n..], None);
    }
    PacketOutcomes(es[..n], stamp, rest);
  }

  // --- The headers in front ---

  /** Neither the pack header nor the stream map holds or completes a video start code. */
  lemma HeadersAreSilent(isKeyFrame: bool, pts: nat, streamType: byte, rest: Bytes)
    requires CODE3 <= rest
    ensures VideoPes(Headers(isKeyFrame, pts, streamType) + rest) == VideoPes(rest)
  {
    var pack := PackHeader(pts * 300 % U64_VALUES, 10000);
    var psm := StreamMap(streamType);
    if isKeyFrame {
      SilentStreamMap(streamType, rest);
      SilentPackHeader(pts * 300 % U64_VALUES, psm + rest);
      assert pack + psm + rest == pack + (psm + rest);
    } else {
      SilentPackHeader(pts * 300 % U64_VALUES, rest);
      assert pack + [] + rest == pack + rest;
    }
  }

  lemma SilentStreamMap(streamType: byte, rest: Bytes)
    requires CODE3 <= rest
    ensures VideoPes(StreamMap(streamType) + rest) == VideoPes(rest)
  {
    var psm := StreamMap(streamType);
    assert forall k :: 0 <= k < 17 ==> (psm + rest)[k] == psm[k];
    assert (psm + rest)[17] == 0 && (psm + rest)[18] == 0;
    PassOver(psm, rest);
  }

  lemma SilentPackHeader(scr: nat, rest: Bytes)
    requires CODE3 <= rest
    ensures VideoPes(PackHeader(scr, 10000) + rest) == VideoPes(rest)
  {
    var pack := PackHeader(scr, 10000);
    PackHeaderBytes(scr);
    assert forall k :: 0 <= k < 14 ==> (pack + rest)[k] == pack[k];
    PassOver(pack, rest);
  }

  lemma PackHeaderBytes(scr: nat)
    ensures
      var h := PackHeader(scr, 10000);
      h[2] == 1 && h[3] == 0xBA && h[4] > 1 && h[6] > 1 && h[8] > 1 && h[9] > 0 && h[11] > 1 && h[12] > 1 && h[13] > 1
  {
  }

  // --- The whole round trip ---

  /** The parses of the chunks give the elementary stream back. */
  lemma {:induction false} KeptChunks(es: Bytes, stamp: Option<(nat, nat)>)
    ensures Panic !in ExpectedOutcomes(es, stamp)
    ensures Concat(Kept(ExpectedOutcomes(es, stamp))) == es
    ensures Kept(ExpectedOutcomes(es, stamp)) == [] <==> es == []
    decreases |es|
  {
    var n := FirstChunk(es);
    var outcome := ExpectedOf(es[..n], stamp);
    var later := if n == |es| then [] else ExpectedOutcomes(es[n..], None);
    assert outcome.Parsed? && outcome.pes.data == es[..n];
    if n < |es| {
      KeptChunks(es[n..], None);
    }
    assert ExpectedOutcomes(es, stamp) == [outcome] + later && ([outcome] + later)[1..] == later;
    var kept := if n == 0 then [] else [es[..n]];
    assert Kept([outcome] + later) == kept + Kept(later);
    ConcatAppend(kept, Kept(later));
    assert Concat(kept) == es[..n];
  }

  /** The outcomes on a multiplexed buffer are those on its packets. */
  lemma MuxOutcomes(nalus: seq<Bytes>, isKeyFrame: bool, pts: nat, dts: nat, streamType: byte)
    ensures
      var ps := Mux(nalus, isKeyFrame, pts, dts, streamType);
      && VideoPes(ps) == VideoPes(PesChain(AnnexB.Stream(nalus), Some((pts, dts))))
      && StartCodes(ps, 0) != []
  {
    var es := AnnexB.Stream(nalus);
    MuxStartsWithVideo(es, Some((pts, dts)));
    HeadersAreSilent(isKeyFrame, pts, streamType, PesChain(es, Some((pts, dts))));
    FirstCodeIsFound(Headers(isKeyFrame, pts, streamType), PesChain(es, Some((pts, dts))));
  }

  lemma FirstCodeIsFound(head: Bytes, rest: Bytes)
    requires CODE3 <= head && |head| > 3
    ensures StartCodes(head + rest, 0) != []
  {
    assert forall k :: 0 <= k < 3 ==> (head + rest)[k] == head[k];
  }

  /** When no byte passes for a start code, the demultiplexer meets each chunk once, in order. */
  lemma DemuxMeetsChunks(nalus: seq<Bytes>, isKeyFrame: bool, pts: nat, dts: nat, streamType: byte)
    requires CleanChunks(AnnexB.Stream(nalus), true)
    ensures
      var ps := Mux(nalus, isKeyFrame, pts, dts, streamType);
      && VideoPes(ps) == ExpectedOutcomes(AnnexB.Stream(nalus), Some((pts, dts)))
      && StartCodes(ps, 0) != []
  {
    ChainOutcomes(AnnexB.Stream(nalus), Some((pts, dts)));
    MuxOutcomes(nalus, isKeyFrame, pts, dts, streamType);
  }

  /** ... and splits the stream that was packed. */
  lemma DemuxSplitsStream(nalus: seq<Bytes>, isKeyFrame: bool, pts: nat, dts: nat, streamType: byte)
    requires CleanChunks(AnnexB.Stream(nalus), true)
    ensures NalUnits(Mux(nalus, isKeyFrame, pts, dts, streamType)) == Demuxed(AnnexB.Split(AnnexB.Stream(nalus)))
  {
    DemuxMeetsChunks(nalus, isKeyFrame, pts, dts, streamType);
    KeptChunks(AnnexB.Stream(nalus), Some((pts, dts)));
  }

  lemma MuxStartsWithVideo(es: Bytes, stamp: Option<(nat, nat)>)
    requires stamp.Some?
    ensures CODE3 <= PesChain(es, stamp)
  {
    ChainStartsPacket(es, stamp);
    assert ChunkPes(es[..FirstChunk(es)], stamp) != [];
  }

  /**
   * Multiplexing then demultiplexing returns exactly the units that went in, for any number of
   * them, key frame or not, whatever the time stamps and the stream type, if and only if the
   * units can be told apart in the stream - provided no byte passes for a start code.
   */
  lemma DemuxInvertsMux(nalus: seq<Bytes>, isKeyFrame: bool, pts: nat, dts: nat, streamType: byte)
    requires CleanChunks(AnnexB.Stream(nalus), true)
    ensures
      NalUnits(Mux(nalus, isKeyFrame, pts, dts, streamType)) == Demuxed(nalus) <==> AnnexB.Splittable(nalus)
  {
    DemuxSplitsStream(nalus, isKeyFrame, pts, dts, streamType);
    AnnexB.SplitInvertsStream(nalus);
  }

  // --- The condition a caller can check ---

  predicate NoVideoUnit(nalus: seq<Bytes>) {
    forall k :: 0 <= k < |nalus| ==> nalus[k] != [] ==> !IsVideo(nalus[k][0])
  }

  /** No chunk behind the first opens like a video packet. */
  predicate SeamsClear(es: Bytes) {
    forall k :: 0 < k < |es| && k % MAX_PES_CHUNK_BYTES == 0 ==> !OpensLikeVideo(es[k..])
  }

  predicate MuxSafe(nalus: seq<Bytes>) {
    AnnexB.Splittable(nalus) && NoVideoUnit(nalus) && SeamsClear(AnnexB.Stream(nalus))
  }

  /** In a splittable stream only the first byte of a unit can follow a start code. */
  lemma VideoCodesOfStream(nalus: seq<Bytes>)
    requires AnnexB.Splittable(nalus)
    ensures NoVideoCode(AnnexB.Stream(nalus)) <==> NoVideoUnit(nalus)
  {
    if nalus != [] {
      var tail := CODE3 + AnnexB.Chain(nalus);
      var es := AnnexB.Stream(nalus);
      assert es == [0] + tail;
      VideoCodesOfChain(nalus);
      forall i
        ensures VideoAt(es, i) <==> VideoAt(tail, i - 1)
      {
        ZeroInFront(tail, i);
      }
      if NoVideoCode(es) {
        forall i | 0 <= i < |tail|
          ensures !VideoAt(tail, i)
        {
          assert !VideoAt(es, i + 1);
        }
      }
    }
  }

  lemma ZeroInFront(tail: Bytes, i: int)
    requires CODE3 <= tail
    ensures VideoAt([0] + tail, i) <==> VideoAt(tail, i - 1)
  {
    var d := [0] + tail;
    assert d[2] == tail[1];
  }

  lemma {:induction false} VideoCodesOfChain(nalus: seq<Bytes>)
    requires nalus != [] && AnnexB.Splittable(nalus)
    ensures NoVideoCode(CODE3 + AnnexB.Chain(nalus)) <==> NoVideoUnit(nalus)
  {
    var n := nalus[0];
    var rest := if |nalus| == 1 then [] else CODE3 + AnnexB.Chain(nalus[1..]);
    var d := CODE3 + AnnexB.Chain(nalus);
    assert d == CODE3 + n + rest;
    if |nalus| > 1 {
      VideoCodesOfChain(nalus[1..]);
    }
    assert n != [];
    forall i
      ensures VideoAt(d, i) <==> (i == 0 && IsVideo(n[0])) || VideoAt(rest, i - 3 - |n|)
    {
      UnitSeam(n, rest, i);
    }
    assert NoVideoCode(d) <==> !IsVideo(n[0]) && NoVideoCode(rest) by {
      if NoVideoCode(d) {
        assert !VideoAt(d, 0);
        forall i | 0 <= i < |rest|
          ensures !VideoAt(rest, i)
        {
          assert !VideoAt(d, i + 3 + |n|);
        }
      }
    }
    assert NoVideoUnit(nalus) <==> !IsVideo(n[0]) && NoVideoUnit(nalus[1..]) by {
      assert nalus == [n] + nalus[1..];
    }
  }

  lemma UnitSeam(n: Bytes, rest: Bytes, i: int)
    requires rest == [] || CODE3 <= rest
    requires if rest == [] then AnnexB.CleanLast(n) else AnnexB.CleanInner(n)
    ensures VideoAt(CODE3 + n + rest, i) <==> (i == 0 && IsVideo(n[0])) || VideoAt(rest, i - 3 - |n|)
  {
    var d := CODE3 + n + rest;
    assert forall k :: 0 <= k < |n| ==> d[3 + k] == n[k];
    assert forall k :: 0 <= k < |rest| ==> d[3 + |n| + k] == rest[k];
    if 3 <= i < 3 + |n| && Code3At(d, i) {
      if i + 3 <= 3 + |n| {
        assert Code3At(n, i - 3);
      }
    }
  }

  lemma {:induction false} ClearStreamHasCleanChunks(es: Bytes, first: bool)
    requires NoVideoCode(es) && SeamsClear(es)
    requires first || !OpensLikeVideo(es)
    ensures CleanChunks(es, first)
    decreases |es|
  {
    var n := FirstChunk(es);
    var chunk := es[..n];
    assert forall i :: VideoAt(chunk, i) ==> VideoAt(es, i);
    assert OpensLikeVideo(chunk) ==> OpensLikeVideo(es);
    if n < |es| {
      var rest := es[n..];
      assert forall i :: 0 <= i < |rest| && VideoAt(rest, i) ==> VideoAt(es, n + i);
      forall k | 0 < k < |rest| && k % MAX_PES_CHUNK_BYTES == 0
        ensures !OpensLikeVideo(rest[k..])
      {
        assert rest[k..] == es[n + k..];
      }
      ClearStreamHasCleanChunks(rest, false);
    }
  }

  /** The round trip under the condition a caller can check before muxing. */
  lemma SafeUnitsRoundTrip(nalus: seq<Bytes>, isKeyFrame: bool, pts: nat, dts: nat, streamType: byte)
    requires MuxSafe(nalus)
    ensures NalUnits(Mux(nalus, isKeyFrame, pts, dts, streamType)) == Demuxed(nalus)
  {
    VideoCodesOfStream(nalus);
    ClearStreamHasCleanChunks(AnnexB.Stream(nalus), true);
    DemuxInvertsMux(nalus, isKeyFrame, pts, dts, streamType);
  }

  /**
   * For units that fit one packet the demultiplexer meets a single video packet exactly when no
   * unit starts with a byte of the video range.
   */
  lemma OnePacketIsClean(nalus: seq<Bytes>, isKeyFrame: bool, pts: nat, dts: nat, streamType: byte)
    requires AnnexB.Splittable(nalus) && |AnnexB.Stream(nalus)| <= MAX_PES_CHUNK_BYTES
    ensures |VideoPes(Mux(nalus, isKeyFrame, pts, dts, streamType))| == 1 <==> NoVideoUnit(nalus)
  {
    var es := AnnexB.Stream(nalus);
    VideoCodesOfStream(nalus);
    ChainOutcomes(es, Some((pts, dts)));
    MuxOutcomes(nalus, isKeyFrame, pts, dts, streamType);
    assert es[..|es|] == es;
  }
}
