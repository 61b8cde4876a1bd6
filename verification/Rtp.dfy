/**
 * RTP packets of the playback path: cutting a multiplexed frame into payloads, and the receiver
 * that collects payloads up to a marker and demultiplexes them.
 */
module Rtp {
  import opened Octets
  import opened Results
  import opened PsMux
  import opened PsDemux
  import Pes
  import PsFalsePackets
  import PsRoundTrip

  const MAX_RTP_PAYLOAD := 1400
  const PS_PAYLOAD_TYPE := 96
  const TIMESTAMP_STEP := 3000
  const U16_VALUES := 0x1_0000
  const U32_VALUES := 0x1_0000_0000

  type u16 = x: int | 0 <= x < U16_VALUES
  type u32 = x: int | 0 <= x < U32_VALUES

  /** The arguments a packet is built from. */
  datatype Packet = Packet(
    ssrc: u32, payloadType: nat, sequenceNumber: u16, timestamp: u32, payload: Bytes, marker: bool)

  /** One frame's bytes in payloads of at most 1400 bytes, the marker on the last. */
  function Packets(ps: Bytes, ssrc: u32, sequenceNumber: nat, timestamp: u32): seq<Packet>
    decreases |ps|
  {
    if ps == [] then []
    else
      var n := Min(MAX_RTP_PAYLOAD, |ps|);
      [Packet(ssrc, PS_PAYLOAD_TYPE, sequenceNumber % U16_VALUES, timestamp, ps[..n], n == |ps|)] +
      Packets(ps[n..], ssrc, sequenceNumber + 1, timestamp)
  }

  /** All packets of a session that sent these frames, one after another. */
  function AllPackets(ssrc: u32, frames: seq<Bytes>): seq<Packet> {
    if frames == [] then []
    else
      var n := |frames| - 1;
      var before := AllPackets(ssrc, frames[..n]);
      before + Packets(frames[n], ssrc, |before|, TIMESTAMP_STEP * n % U32_VALUES)
  }

  predicate NoneEmpty(frames: seq<Bytes>) {
    forall k :: 0 <= k < |frames| ==> frames[k] != []
  }

  // --- The receiver ---

  /** The buffers completed by a marker, in order. */
  function Buffers(packets: seq<Packet>, partial: Bytes): seq<Bytes> {
    if packets == [] then []
    else
      var collected := partial + packets[0].payload;
      if packets[0].marker then [collected] + Buffers(packets[1..], []) else Buffers(packets[1..], collected)
  }

  /** What has been collected since the last marker. */
  function Remainder(packets: seq<Packet>, partial: Bytes): Bytes {
    if packets == [] then partial
    else Remainder(packets[1..], if packets[0].marker then [] else partial + packets[0].payload)
  }

  lemma {:induction false} BuffersConcat(a: seq<Packet>, b: seq<Packet>, partial: Bytes)
    ensures Buffers(a + b, partial) == Buffers(a, partial) + Buffers(b, Remainder(a, partial))
    ensures Remainder(a + b, partial) == Remainder(b, Remainder(a, partial))
    decreases |a|
  {
    if a == [] {
      assert a + b == b;
    } else {
      assert (a + b)[1..] == a[1..] + b;
      BuffersConcat(a[1..], b, if a[0].marker then [] else partial + a[0].payload);
    }
  }

  lemma {:induction false} BuffersOfFrame(ps: Bytes, ssrc: u32, sequenceNumber: nat, timestamp: u32, partial: Bytes)
    requires ps != []
    ensures Buffers(Packets(ps, ssrc, sequenceNumber, timestamp), partial) == [partial + ps]
    ensures Remainder(Packets(ps, ssrc, sequenceNumber, timestamp), partial) == []
    decreases |ps|
  {
    var n := Min(MAX_RTP_PAYLOAD, |ps|);
    var packets := Packets(ps, ssrc, sequenceNumber, timestamp);
    assert packets[1..] == Packets(ps[n..], ssrc, sequenceNumber + 1, timestamp);
    if n < |ps| {
      BuffersOfFrame(ps[n..], ssrc, sequenceNumber + 1, timestamp, partial + ps[..n]);
      assert partial + ps[..n] + ps[n..] == partial + ps;
    } else {
      assert ps[..n] == ps;
    }
  }

  /** Collecting payloads up to each marker gives back the frames that were sent, one by one. */
  lemma {:induction false} BuffersOfSession(ssrc: u32, frames: seq<Bytes>)
    requires NoneEmpty(frames)
    ensures Buffers(AllPackets(ssrc, frames), []) == frames
    ensures Remainder(AllPackets(ssrc, frames), []) == []
  {
    if frames != [] {
      var n := |frames| - 1;
      var before := AllPackets(ssrc, frames[..n]);
      var last := Packets(frames[n], ssrc, |before|, TIMESTAMP_STEP * n % U32_VALUES);
      BuffersOfSession(ssrc, frames[..n]);
      assert AllPackets(ssrc, frames) == before + last;
      BuffersBehind(before, last, frames[..n]);
      BuffersOfFrame(frames[n], ssrc, |before|, TIMESTAMP_STEP * n % U32_VALUES, []);
      assert [] + frames[n] == frames[n];
    }
  }

  lemma BuffersBehind(a: seq<Packet>, b: seq<Packet>, frames: seq<Bytes>)
    requires Buffers(a, []) == frames && Remainder(a, []) == []
    ensures Buffers(a + b, []) == frames + Buffers(b, []) && Remainder(a + b, []) == Remainder(b, [])
  {
    BuffersConcat(a, b, []);
  }

  // --- Multiplexed frames ---

  /** A frame that went out, with the time stamp it was multiplexed with. */
  datatype Delivery = Delivery(nalus: seq<Bytes>, isKey: bool, pts: nat)

  function MuxedBytes(d: Delivery): (ps: Bytes)
    ensures ps != []
  {
    assert |Headers(d.isKey, d.pts, STREAM_TYPE_H264)| >= 14;
    Mux(d.nalus, d.isKey, d.pts, d.pts, STREAM_TYPE_H264)
  }

  method MuxDelivery(d: Delivery) returns (ps: Bytes)
    ensures ps == MuxedBytes(d)
  {
    ps := MuxNalusToPs(d.nalus, d.isKey, d.pts, d.pts, STREAM_TYPE_H264);
  }

  function MuxedAll(deliveries: seq<Delivery>): (frames: seq<Bytes>)
    ensures |frames| == |deliveries| && NoneEmpty(frames)
  {
    seq(|deliveries|, k requires 0 <= k < |deliveries| => MuxedBytes(deliveries[k]))
  }

  /** One more delivery adds its own packets, numbered and stamped on from the rest. */
  lemma SessionGrows(ssrc: u32, deliveries: seq<Delivery>, d: Delivery)
    ensures
      var before := AllPackets(ssrc, MuxedAll(deliveries));
      AllPackets(ssrc, MuxedAll(deliveries + [d])) ==
      before + Packets(MuxedBytes(d), ssrc, |before|, TIMESTAMP_STEP * |deliveries| % U32_VALUES)
  {
    hide MuxedBytes;
    var frames := MuxedAll(deliveries + [d]);
    assert frames[..|deliveries|] == MuxedAll(deliveries);
    assert frames[|deliveries|] == MuxedBytes(d);
  }

  lemma NextModulo(a: nat, b: nat)
    requires a % U16_VALUES == b % U16_VALUES
    ensures (a + 1) % U16_VALUES == (b + 1) % U16_VALUES
  {
  }

  lemma {:induction false} PacketsModulo(ps: Bytes, ssrc: u32, a: nat, b: nat, timestamp: u32)
    requires a % U16_VALUES == b % U16_VALUES
    ensures Packets(ps, ssrc, a, timestamp) == Packets(ps, ssrc, b, timestamp)
    decreases |ps|
  {
    if ps != [] {
      NextModulo(a, b);
      PacketsModulo(ps[Min(MAX_RTP_PAYLOAD, |ps|)..], ssrc, a + 1, b + 1, timestamp);
    }
  }

  lemma {:induction false} NoMarkerNoBuffer(packets: seq<Packet>, partial: Bytes)
    requires forall i :: 0 <= i < |packets| ==> !packets[i].marker
    ensures Buffers(packets, partial) == [] && Markers(packets) == 0
    decreases |packets|
  {
    if packets != [] {
      NoMarkerNoBuffer(packets[1..], partial + packets[0].payload);
    }
  }

  /** The units come back from the buffer: always if they are safe, and exactly then if one packet holds them. */
  predicate Returns(ps: Bytes, nalus: seq<Bytes>) {
    && (PsRoundTrip.MuxSafe(nalus) ==> NalUnits(ps) == Demuxed(nalus))
    && (PsFalsePackets.FitsOnePacket(nalus) ==>
          (NalUnits(ps) == Demuxed(nalus) <==> PsFalsePackets.FalsePacketsVanish(nalus)))
  }

  lemma MuxedReturns(d: Delivery)
    ensures Returns(MuxedBytes(d), d.nalus)
  {
    hide NalUnits, PsRoundTrip.MuxSafe, PsFalsePackets.FitsOnePacket, PsFalsePackets.FalsePacketsVanish;
    if PsRoundTrip.MuxSafe(d.nalus) {
      PsRoundTrip.SafeUnitsRoundTrip(d.nalus, d.isKey, d.pts, d.pts, STREAM_TYPE_H264);
    }
    if PsFalsePackets.FitsOnePacket(d.nalus) {
      PsFalsePackets.OnePacketRoundTrip(d.nalus, d.isKey, d.pts, d.pts, STREAM_TYPE_H264);
    }
  }

  /** Demultiplexing each reassembled buffer returns the delivered frames' units, in order. */
  lemma ReceiverSeesDeliveries(ssrc: u32, deliveries: seq<Delivery>)
    ensures
      var buffers := Buffers(AllPackets(ssrc, MuxedAll(deliveries)), []);
      && |buffers| == |deliveries|
      && forall k :: 0 <= k < |deliveries| ==> Returns(buffers[k], deliveries[k].nalus)
  {
    hide Returns;
    BuffersOfSession(ssrc, MuxedAll(deliveries));
    forall k | 0 <= k < |deliveries|
      ensures Returns(MuxedAll(deliveries)[k], deliveries[k].nalus)
    {
      MuxedReturns(deliveries[k]);
    }
  }

  // --- Packet by packet ---

  predicate WellFormed(ssrc: u32, packets: seq<Packet>, first: nat) {
    forall i :: 0 <= i < |packets| ==>
      && packets[i].ssrc == ssrc && packets[i].payloadType == PS_PAYLOAD_TYPE
      && packets[i].sequenceNumber == (first + i) % U16_VALUES
      && 1 <= |packets[i].payload| <= MAX_RTP_PAYLOAD
  }

  lemma {:induction false} FramePackets(ps: Bytes, ssrc: u32, first: nat, timestamp: u32)
    ensures WellFormed(ssrc, Packets(ps, ssrc, first, timestamp), first)
    ensures
      var packets := Packets(ps, ssrc, first, timestamp);
      && (ps != [] ==> packets != [])
      && forall i :: 0 <= i < |packets| ==>
           && packets[i].timestamp == timestamp && (packets[i].marker <==> i == |packets| - 1)
           && (!packets[i].marker ==> |packets[i].payload| == MAX_RTP_PAYLOAD)
    decreases |ps|
  {
    if ps != [] {
      var n := Min(MAX_RTP_PAYLOAD, |ps|);
      var packets := Packets(ps, ssrc, first, timestamp);
      var later := Packets(ps[n..], ssrc, first + 1, timestamp);
      FramePackets(ps[n..], ssrc, first + 1, timestamp);
      assert packets[1..] == later;
      assert forall i :: 0 < i < |packets| ==> packets[i] == later[i - 1];
    }
  }

  /**
   * Sequence numbers run on from 0 modulo 2^16 across frames, no payload is empty or too long,
   * and there is exactly one marker per frame.
   */
  lemma {:induction false} SessionPackets(ssrc: u32, frames: seq<Bytes>)
    requires NoneEmpty(frames)
    ensures WellFormed(ssrc, AllPackets(ssrc, frames), 0)
    ensures Markers(AllPackets(ssrc, frames)) == |frames|
  {
    if frames != [] {
      var n := |frames| - 1;
      var before := AllPackets(ssrc, frames[..n]);
      var packets := Packets(frames[n], ssrc, |before|, TIMESTAMP_STEP * n % U32_VALUES);
      SessionPackets(ssrc, frames[..n]);
      FramePackets(frames[n], ssrc, |before|, TIMESTAMP_STEP * n % U32_VALUES);
      MarkersConcat(before, packets);
      OneMarker(packets);
    }
  }

  function Markers(packets: seq<Packet>): nat {
    if packets == [] then 0 else (if packets[0].marker then 1 else 0) + Markers(packets[1..])
  }

  lemma {:induction false} MarkersConcat(a: seq<Packet>, b: seq<Packet>)
    ensures Markers(a + b) == Markers(a) + Markers(b)
  {
    if a == [] {
      assert a + b == b;
    } else {
      assert (a + b)[1..] == a[1..] + b;
      MarkersConcat(a[1..], b);
    }
  }

  lemma {:induction false} OneMarker(packets: seq<Packet>)
    requires packets != []
    requires forall i :: 0 <= i < |packets| ==> (packets[i].marker <==> i == |packets| - 1)
    ensures Markers(packets) == 1
  {
    if |packets| > 1 {
      OneMarker(packets[1..]);
    } else {
      assert packets[1..] == [];
    }
  }

  // --- What the packets and buffers carry ---

  /** The packet at index i of a session: its number, its frame's time stamp, its type and size. */
  predicate IsStamped(packets: seq<Packet>, i: nat)
    requires i < |packets|
  {
    && packets[i].sequenceNumber == i % 0x1_0000
    && packets[i].timestamp == 3000 * Markers(packets[..i]) % 0x1_0000_0000
    && packets[i].payloadType == 96 && 1 <= |packets[i].payload| <= 1400
    && (!packets[i].marker ==> |packets[i].payload| == 1400)
  }

  /** Packets of the frame behind n markers are stamped 3000 n, modulo 2^32. */
  lemma {:induction false} PacketsAreStamped(ssrc: u32, frames: seq<Bytes>, i: nat)
    requires NoneEmpty(frames) && i < |AllPackets(ssrc, frames)|
    ensures IsStamped(AllPackets(ssrc, frames), i)
  {
    var n := |frames| - 1;
    var before := AllPackets(ssrc, frames[..n]);
    var packets := Packets(frames[n], ssrc, |before|, TIMESTAMP_STEP * n % U32_VALUES);
    var all := AllPackets(ssrc, frames);
    assert all == before + packets;
    SessionPackets(ssrc, frames);
    if i < |before| {
      PacketsAreStamped(ssrc, frames[..n], i);
      assert all[..i] == before[..i];
    } else {
      var j := i - |before|;
      SessionPackets(ssrc, frames[..n]);
      FramePackets(frames[n], ssrc, |before|, TIMESTAMP_STEP * n % U32_VALUES);
      assert all[..i] == before + packets[..j];
      MarkersConcat(before, packets[..j]);
      NoMarkerNoBuffer(packets[..j], []);
    }
  }

  /**
   * A delivered buffer opens with the clock and the stamps of its frame, which is at this place in its list, and holds
   * an H.264 stream map exactly if it is a key frame's.
   */
  predicate OpensAs(ps: Bytes, place: nat, isKey: bool) {
    var at := if isKey then 31 else 14;
    && |ps| >= at + 19
    && (900_000 * (place + 1) < 0x1_0000_0000_0000_0000 ==>
          ClockBase(ps[..14]) == 3000 * (place + 1) % 0x2_0000_0000 && ClockExtension(ps[..14]) == 0)
    && Pes.Stamp33(ps[at + 8..at + 13]) == 3000 * (place + 1) % 0x2_0000_0000
    && Pes.Stamp33(ps[at + 13..at + 18]) == 3000 * (place + 1) % 0x2_0000_0000
    && (ps[14..18] == [0, 0, 1, 0xBB] <==> isKey) && (isKey ==> ps[25] == 0x1B)
  }

  lemma MuxedOpens(d: Delivery, place: nat)
    requires d.pts == 3000 * (place + 1)
    ensures OpensAs(MuxedBytes(d), place, d.isKey)
  {
    MuxCarriesClock(d.nalus, d.isKey, d.pts, d.pts, STREAM_TYPE_H264);
    hide Mux, ClockBase, ClockExtension, ProgramMuxRate, Marked, Pes.Stamp33;
    var ps := MuxedBytes(d);
    assert ps == Mux(d.nalus, d.isKey, d.pts, d.pts, 0x1B);
    if d.isKey {
      assert ps[25] == ps[14..31][11] && ps[14..18] == ps[14..31][..4];
    } else {
      assert ps[14..18][3] == 0xE0;
    }
  }
}
