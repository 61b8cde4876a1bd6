/** The same packets for a reader that trusts the declared lengths. */
module PsWalk {
  import opened Octets
  import opened Results
  import opened Pes
  import opened PsMux
  import opened PsDemux
  import opened PsRoundTrip
  import AnnexB

  /** Cuts the buffer by the 16-bit length fields alone; fails unless it ends where a packet ends. */
  function DeclaredPackets(d: Bytes): Option<seq<Bytes>> {
    if d == [] then Some([])
    else if |d| < 6 || !(CODE3 <= d) then None
    else
      var size := 6 + FromBe16(d[4], d[5]);
      if size == 6 || size > |d| then None
      else
        match DeclaredPackets(d[size..])
        case None => None
        case Some(rest) => Some([d[..size]] + rest)
  }

  /** The payload behind the optional fields that the packet's own header length announces. */
  function Payload(packet: Bytes): Bytes {
    if |packet| < 9 || 9 + packet[7] > |packet| then [] else packet[9 + packet[7]..]
  }

  function Payloads(packets: seq<Bytes>): seq<Bytes> {
    if packets == [] then [] else [Payload(packets[0])] + Payloads(packets[1..])
  }

  function ChunkPackets(es: Bytes, stamp: Option<(nat, nat)>): seq<Bytes>
    decreases |es|
  {
    var n := FirstChunk(es);
    [ChunkPes(es[..n], stamp)] + if n == |es| then [] else ChunkPackets(es[n..], None)
  }

  lemma DeclaredFront(packet: Bytes, rest: Bytes)
    requires |packet| > 6 && CODE3 <= packet && 6 + FromBe16(packet[4], packet[5]) == |packet|
    requires DeclaredPackets(rest).Some?
    ensures DeclaredPackets(packet + rest) == Some([packet] + DeclaredPackets(rest).value)
  {
    var d := packet + rest;
    assert d[4] == packet[4] && d[5] == packet[5] && CODE3 <= d;
    assert d[..|packet|] == packet && d[|packet|..] == rest;
  }

  lemma ChunkPacketShape(chunk: Bytes, stamp: Option<(nat, nat)>)
    requires |chunk| <= MAX_PES_CHUNK_BYTES
    requires stamp.None? ==> chunk != []
    ensures
      var p := ChunkPes(chunk, stamp);
      && |p| == 9 + (if stamp.Some? then 10 else 0) + |chunk|
      && CODE3 <= p && p[3] == VIDEO && 6 + FromBe16(p[4], p[5]) == |p|
      && p[6] / 64 == (if stamp.Some? then 3 else 0)
      && Payload(p) == chunk
  {
    var (pts, dts) := match stamp case Some((p, q)) => (Some(p), Some(q)) case None => (None, None);
    HeaderBytes(VIDEO, |chunk|, pts, dts);
    var h := PesHeader(VIDEO, |chunk|, pts, dts);
    assert ChunkPes(chunk, stamp) == h + chunk;
    assert (h + chunk)[|h|..] == chunk;
  }

  lemma ChunkPacketsStep(es: Bytes, stamp: Option<(nat, nat)>)
    requires stamp.None? ==> es != []
    ensures
      var n := FirstChunk(es);
      var packet := ChunkPes(es[..n], stamp);
      var later := if n == |es| then [] else ChunkPackets(es[n..], None);
      && ChunkPackets(es, stamp) == [packet] + later
      && ChunkPackets(es, stamp)[1..] == later
      && PesChain(es, stamp) == packet + (if n == |es| then [] else PesChain(es[n..], None))
  {
  }

  lemma {:induction false} WalkChain(es: Bytes, stamp: Option<(nat, nat)>)
    requires stamp.None? ==> es != []
    ensures DeclaredPackets(PesChain(es, stamp)) == Some(ChunkPackets(es, stamp))
    decreases |es|
  {
    var n := FirstChunk(es);
    ChunkPacketsStep(es, stamp);
    ChunkPacketShape(es[..n], stamp);
    if n < |es| {
      WalkChain(es[n..], None);
      DeclaredFront(ChunkPes(es[..n], stamp), PesChain(es[n..], None));
    } else {
      DeclaredFront(ChunkPes(es[..n], stamp), []);
    }
  }

  lemma FirstPayload(es: Bytes, stamp: Option<(nat, nat)>)
    requires stamp.None? ==> es != []
    ensures
      var n := FirstChunk(es);
      Payloads(ChunkPackets(es, stamp)) == [es[..n]] + Payloads(if n == |es| then [] else ChunkPackets(es[n..], None))
  {
    ChunkPacketsStep(es, stamp);
    ChunkPacketShape(es[..FirstChunk(es)], stamp);
    hide ChunkPackets, ChunkPes, Payload, FirstChunk, PesChain;
  }

  lemma NoPayloads()
    ensures Payloads([]) == []
  {
  }

  lemma {:induction false} ChainPayloads(es: Bytes, stamp: Option<(nat, nat)>)
    requires stamp.None? ==> es != []
    ensures Concat(Payloads(ChunkPackets(es, stamp))) == es
    decreases |es|
  {
    var n := FirstChunk(es);
    FirstPayload(es, stamp);
    hide ChunkPackets, Payloads, FirstChunk;
    if n < |es| {
      ChainPayloads(es[n..], None);
    }
    var later := if n == |es| then [] else ChunkPackets(es[n..], None);
    NoPayloads();
    assert Concat([es[..n]] + Payloads(later)) == es[..n] + Concat(Payloads(later)) by {
      assert ([es[..n]] + Payloads(later))[1..] == Payloads(later);
    }
  }

  /** A packet whose flags announce both time stamps, or none. */
  predicate Stamped(packet: Bytes) {
    |packet| >= 9 && packet[6] / 64 == 3
  }

  predicate Unstamped(packet: Bytes) {
    |packet| >= 9 && packet[6] / 64 == 0
  }

  lemma {:induction false} ChainStamps(es: Bytes, stamp: Option<(nat, nat)>)
    requires stamp.None? ==> es != []
    ensures
      var packets := ChunkPackets(es, stamp);
      && (if stamp.Some? then Stamped(packets[0]) else Unstamped(packets[0]))
      && forall k :: 0 < k < |packets| ==> Unstamped(packets[k])
    decreases |es|
  {
    var n := FirstChunk(es);
    ChunkPacketsStep(es, stamp);
    ChunkPacketShape(es[..n], stamp);
    var packets := ChunkPackets(es, stamp);
    if n < |es| {
      ChainStamps(es[n..], None);
      assert forall k :: 0 < k < |packets| ==> packets[k] == packets[1..][k - 1];
    }
  }

  function PacketCount(size: nat): nat {
    Max(1, (size + MAX_PES_CHUNK_BYTES - 1) / MAX_PES_CHUNK_BYTES)
  }

  lemma OnePacketMore(size: nat)
    requires size > MAX_PES_CHUNK_BYTES
    ensures PacketCount(size) == 1 + PacketCount(size - MAX_PES_CHUNK_BYTES)
  {
  }

  lemma {:induction false} ChainSize(es: Bytes, stamp: Option<(nat, nat)>)
    requires stamp.None? ==> es != []
    ensures |ChunkPackets(es, stamp)| == PacketCount(|es|)
    ensures |PesChain(es, stamp)| == (if stamp.Some? then 10 else 0) + |es| + 9 * PacketCount(|es|)
    decreases |es|
  {
    var n := FirstChunk(es);
    ChunkPacketsStep(es, stamp);
    ChunkPacketShape(es[..n], stamp);
    if n < |es| {
      OnePacketMore(|es|);
      ChainSize(es[n..], None);
    } else {
      assert PacketCount(n) == 1;
    }
  }

  /**
   * The muxer's output can be walked by declared length alone. Behind the 14-byte pack header,
   * and the stream map of a key frame, each packet's length field counts exactly the bytes that
   * follow it, the payloads add up to the elementary stream, only the first packet is stamped,
   * the walk ends at the end of the buffer, and the size is known in advance.
   */
  lemma MuxWalksByLength(nalus: seq<Bytes>, isKeyFrame: bool, pts: nat, dts: nat, streamType: byte)
    ensures
      var es := AnnexB.Stream(nalus);
      var ps := Mux(nalus, isKeyFrame, pts, dts, streamType);
      var packets := ChunkPackets(es, Some((pts, dts)));
      && |ps| == 14 + (if isKeyFrame then 17 else 0) + 10 + |es| + 9 * PacketCount(|es|)
      && DeclaredPackets(ps[14..]) == Some((if isKeyFrame then [StreamMap(streamType)] else []) + packets)
      && Concat(Payloads(packets)) == es
      && Stamped(packets[0])
      && (forall k :: 0 < k < |packets| ==> Unstamped(packets[k]))
  {
    var es := AnnexB.Stream(nalus);
    var stamp := Some((pts, dts));
    WalkChain(es, stamp);
    ChainPayloads(es, stamp);
    ChainStamps(es, stamp);
    ChainSize(es, stamp);
    BehindPackHeader(PackHeader(pts * 300 % U64_VALUES, 10000), isKeyFrame, streamType, PesChain(es, stamp));
  }

  lemma BehindPackHeader(pack: Bytes, isKeyFrame: bool, streamType: byte, chain: Bytes)
    requires |pack| == 14 && DeclaredPackets(chain).Some?
    ensures
      var ps := pack + (if isKeyFrame then StreamMap(streamType) else []) + chain;
      DeclaredPackets(ps[14..]) ==
      Some((if isKeyFrame then [StreamMap(streamType)] else []) + DeclaredPackets(chain).value)
  {
    if isKeyFrame {
      var psm := StreamMap(streamType);
      assert psm[4] == 0 && psm[5] == 11 && CODE3 <= psm;
      hide StreamMap, DeclaredPackets;
      assert (pack + psm + chain)[14..] == psm + chain;
      DeclaredFront(psm, chain);
    } else {
      hide StreamMap, DeclaredPackets;
      assert (pack + [] + chain)[14..] == chain;
      assert [] + DeclaredPackets(chain).value == DeclaredPackets(chain).value;
    }
  }

  /** Every packet but the last is full with 65000 bytes of stream; only an empty stream gives an empty packet. */
  lemma {:induction false} ChunksAreFull(es: Bytes, stamp: Option<(nat, nat)>, k: nat)
    requires (stamp.None? ==> es != []) && k < |ChunkPackets(es, stamp)|
    ensures
      var chunks := Payloads(ChunkPackets(es, stamp));
      && |chunks| == |ChunkPackets(es, stamp)|
      && |chunks[k]| <= 65000 && (k + 1 < |chunks| ==> |chunks[k]| == 65000) && (es != [] ==> chunks[k] != [])
    decreases |es|
  {
    var n := FirstChunk(es);
    FirstPayload(es, stamp);
    ChunkPacketsStep(es, stamp);
    hide ChunkPackets, Payloads, ChunkPes, PesChain;
    var later := if n == |es| then [] else ChunkPackets(es[n..], None);
    PayloadsAreAsMany(later);
    if k > 0 {
      ChunksAreFull(es[n..], None, k - 1);
    }
  }

  lemma {:induction false} PayloadsAreAsMany(packets: seq<Bytes>)
    ensures |Payloads(packets)| == |packets|
  {
    if packets != [] {
      PayloadsAreAsMany(packets[1..]);
    }
  }
}
