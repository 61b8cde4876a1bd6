/** The demultiplexer of src/ps.rs: it scans for start codes and never follows a declared length. */
module PsDemux {
  import opened Octets
  import opened Results
  import opened Pes
  import AnnexB

  // --- Start-code scan ---

  /** The positions the scan reports from index i on. */
  function StartCodes(d: Bytes, i: nat): seq<nat>
    decreases |d| - i
  {
    if i + 3 >= |d| then []
    else if Code3At(d, i) then [i] + StartCodes(d, i + 3)
    else StartCodes(d, i + 1)
  }

  method FindPsStartCodes(data: Bytes) returns (positions: seq<nat>)
    ensures positions == StartCodes(data, 0)
  {
    positions := [];
    if |data| < 4 {
      return;
    }
    var i := 0;
    while i + 3 < |data|
      invariant positions + StartCodes(data, i) == StartCodes(data, 0)
    {
      if data[i] == 0 && data[i + 1] == 0 && data[i + 2] == 1 {
        positions := positions + [i];
        i := i + 3;
      } else {
        i := i + 1;
      }
    }
  }

  // --- Video packets ---

  predicate IsVideo(id: byte) {
    0xE0 <= id <= 0xEF
  }

  /** A start code at index i is followed by a video stream id. */
  predicate VideoAt(d: Bytes, i: int) {
    Code3At(d, i) && i + 3 < |d| && IsVideo(d[i + 3])
  }

  /** One parse, of the rest of the buffer, at every video start code. */
  function VideoPes(d: Bytes): seq<PesOutcome> {
    if |d| < 4 then []
    else (if VideoAt(d, 0) then [ParsePes(d)] else []) + VideoPes(d[1..])
  }

  /** Parses that fail or carry nothing are passed over. */
  function Kept(outcomes: seq<PesOutcome>): seq<Bytes> {
    if outcomes == [] then []
    else
      (if outcomes[0].Parsed? && outcomes[0].pes.data != [] then [outcomes[0].pes.data] else []) +
      Kept(outcomes[1..])
  }

  datatype Demux<+T> = Demuxed(value: T) | NoStartCode | Panicked

  function H264Payloads(d: Bytes): Demux<seq<Bytes>> {
    if StartCodes(d, 0) == [] then NoStartCode
    else if Panic in VideoPes(d) then Panicked
    else Demuxed(Kept(VideoPes(d)))
  }

  function NalUnits(d: Bytes): Demux<seq<Bytes>> {
    match H264Payloads(d)
    case Demuxed(payloads) => Demuxed(if payloads == [] then [] else AnnexB.Split(Concat(payloads)))
    case NoStartCode => NoStartCode
    case Panicked => Panicked
  }

  /** The parse at one position, if it holds a video start code. */
  function ParseAt(d: Bytes, pos: nat): seq<PesOutcome> {
    if VideoAt(d, pos) then [ParsePes(d[pos..])] else []
  }

  function ParsesAt(d: Bytes, positions: seq<nat>): seq<PesOutcome> {
    if positions == [] then [] else ParseAt(d, positions[0]) + ParsesAt(d, positions[1..])
  }

  /** Skipping behind each code found loses no video start code. */
  lemma {:induction false} ScanMeetsEveryVideoCode(d: Bytes, i: nat)
    requires i <= |d|
    ensures ParsesAt(d, StartCodes(d, i)) == VideoPes(d[i..])
    ensures forall p :: p in StartCodes(d, i) ==> p + 3 < |d| && Code3At(d, p)
    decreases |d| - i
  {
    if i + 3 < |d| {
      var r := d[i..];
      assert VideoAt(r, 0) <==> VideoAt(d, i);
      assert r[1..] == d[i + 1..];
      if Code3At(d, i) {
        ScanMeetsEveryVideoCode(d, i + 3);
        SkipTwo(d, i);
        assert StartCodes(d, i)[1..] == StartCodes(d, i + 3);
      } else {
        ScanMeetsEveryVideoCode(d, i + 1);
      }
    }
  }

  lemma SkipTwo(d: Bytes, i: nat)
    requires i + 3 < |d| && Code3At(d, i)
    ensures VideoPes(d[i + 1..]) == VideoPes(d[i + 3..])
  {
    assert d[i + 1..][1..] == d[i + 2..];
    assert d[i + 2..][1..] == d[i + 3..];
    assert !VideoAt(d[i + 1..], 0) && !VideoAt(d[i + 2..], 0);
    if |d| == i + 4 {
      assert VideoPes(d[i + 1..]) == [];
    }
  }

  method ParsePsToH264(psData: Bytes) returns (r: Demux<seq<Bytes>>)
    ensures r == H264Payloads(psData)
  {
    var startCodes := FindPsStartCodes(psData);
    ScanMeetsEveryVideoCode(psData, 0);
    assert psData[0..] == psData;
    if |startCodes| == 0 {
      return NoStartCode;
    }
    var h264Data := [];
    var i := 0;
    ghost var all := VideoPes(psData);
    while i < |startCodes|
      invariant 0 <= i <= |startCodes|
      invariant h264Data + Kept(ParsesAt(psData, startCodes[i..])) == Kept(all)
      invariant Panic in all <==> Panic in ParsesAt(psData, startCodes[i..])
    {
      assert startCodes[i] in startCodes;
      ParsesStep(psData, startCodes, i, h264Data);
      var panicked;
      h264Data, panicked := CollectAt(psData, startCodes[i], h264Data);
      if panicked {
        return Panicked;
      }
      i := i + 1;
    }
    assert startCodes[|startCodes|..] == [];
    assert h264Data == Kept(all);
    return Demuxed(h264Data);
  }

  /** One turn of the loop: the payload of the packet at pos, if it is video and parses. */
  method CollectAt(psData: Bytes, pos: nat, h264Data: seq<Bytes>) returns (r: seq<Bytes>, panicked: bool)
    requires pos + 3 < |psData| && Code3At(psData, pos)
    ensures panicked <==> Panic in ParseAt(psData, pos)
    ensures !panicked ==> r == h264Data + Kept(ParseAt(psData, pos))
  {
    r, panicked := h264Data, false;
    var streamId := psData[pos + 3];
    if streamId == 0xBA || streamId == 0xBB {
      return;
    } else if 0xE0 <= streamId <= 0xEF {
      var outcome := ParsePesPacket(psData[pos..]);
      match outcome {
        case Parsed(pes, _) =>
          if |pes.data| != 0 {
            r := r + [pes.data];
          }
        case Bail =>
        case Panic =>
          panicked := true;
      }
    }
  }

  lemma ParsesStep(d: Bytes, positions: seq<nat>, i: nat, before: seq<Bytes>)
    requires i < |positions|
    ensures
      var here := ParseAt(d, positions[i]);
      var all := ParsesAt(d, positions[i..]);
      var later := ParsesAt(d, positions[i + 1..]);
      && (Panic in all <==> Panic in here || Panic in later)
      && before + Kept(all) == (before + Kept(here)) + Kept(later)
  {
    assert positions[i..][1..] == positions[i + 1..];
    KeptAppend(ParseAt(d, positions[i]), ParsesAt(d, positions[i + 1..]));
  }

  lemma {:induction false} KeptAppend(a: seq<PesOutcome>, b: seq<PesOutcome>)
    ensures Kept(a + b) == Kept(a) + Kept(b)
  {
    if a == [] {
      assert a + b == b;
    } else {
      assert (a + b)[1..] == a[1..] + b;
      KeptAppend(a[1..], b);
    }
  }

  method ParsePsToNalUnits(psData: Bytes) returns (r: Demux<seq<Bytes>>)
    ensures r == NalUnits(psData)
  {
    var parsed := ParsePsToH264(psData);
    if !parsed.Demuxed? {
      return parsed;
    }
    var pesPayloads := parsed.value;
    if |pesPayloads| == 0 {
      return Demuxed([]);
    }
    var combined := [];
    for k := 0 to |pesPayloads|
      invariant combined + Concat(pesPayloads[k..]) == Concat(pesPayloads)
    {
      assert pesPayloads[k..][1..] == pesPayloads[k + 1..];
      combined := combined + pesPayloads[k];
    }
    assert pesPayloads[|pesPayloads|..] == [];
    assert combined == Concat(pesPayloads);
    var nalUnits := AnnexB.SplitNalUnits(combined);
    return Demuxed(nalUnits);
  }

  // --- Passing over bytes ---

  /**
   * The bytes in front of d add one outcome for each video start code that begins among them,
   * and nothing when none does.
   */
  lemma {:induction false} PassOver(x: Bytes, d: Bytes)
    ensures |VideoPes(x + d)| >= |VideoPes(d)|
    ensures |VideoPes(x + d)| == |VideoPes(d)| <==> forall i :: 0 <= i < |x| ==> !VideoAt(x + d, i)
    ensures |VideoPes(x + d)| == |VideoPes(d)| ==> VideoPes(x + d) == VideoPes(d)
  {
    var all := x + d;
    if x == [] {
      assert all == d;
    } else {
      assert all[1..] == x[1..] + d;
      PassOver(x[1..], d);
      assert forall i :: 0 <= i < |x| - 1 ==> (VideoAt(x[1..] + d, i) <==> VideoAt(all, i + 1));
      assert forall i :: 0 < i < |x| ==> (VideoAt(all, i) <==> VideoAt(x[1..] + d, i - 1));
      if |all| < 4 {
        assert forall i :: !VideoAt(all, i);
      }
    }
  }

  // --- When there is nothing to demultiplex ---

  /** Only the ids E0 to EF are parsed. */
  lemma OnlyVideoIdsAreParsed(d: Bytes, pos: nat)
    requires pos + 3 < |d| && d[pos] == 0 && d[pos + 1] == 0 && d[pos + 2] == 1
    ensures ParseAt(d, pos) == if 0xE0 <= d[pos + 3] <= 0xEF then [ParsePes(d[pos..])] else []
  {
  }

  lemma {:induction false} NoCodesMeanNone(d: Bytes, i: nat)
    requires i <= |d|
    ensures StartCodes(d, i) == [] <==> forall p :: i <= p && p + 3 < |d| ==> !Code3At(d, p)
    decreases |d| - i
  {
    if i + 3 < |d| && !Code3At(d, i) {
      NoCodesMeanNone(d, i + 1);
    }
  }

  lemma {:induction false} ParsesAreAtCodes(d: Bytes, o: PesOutcome)
    ensures o in VideoPes(d) <==> exists p: nat :: p < |d| && VideoAt(d, p) && ParsePes(d[p..]) == o
    decreases |d|
  {
    if |d| >= 4 {
      var t := d[1..];
      ParsesAreAtCodes(t, o);
      assert forall p: nat :: p < |t| ==> (VideoAt(t, p) <==> VideoAt(d, p + 1)) && t[p..] == d[p + 1..];
      if o in VideoPes(t) {
        var p: nat :| p < |t| && VideoAt(t, p) && ParsePes(t[p..]) == o;
        assert VideoAt(d, p + 1) && d[p + 1..] == t[p..];
      }
      if p: nat :| p < |d| && VideoAt(d, p) && ParsePes(d[p..]) == o {
        if p > 0 {
          assert VideoAt(t, p - 1) && t[p - 1..] == d[p..];
        } else {
          assert d[0..] == d;
        }
      }
      if VideoAt(d, 0) {
        assert d[0..] == d;
      }
    }
  }

  /**
   * Without any start code that has a byte behind it the buffer is refused; with a video packet whose stamps or header
   * run off the buffer the parser fails; a buffer of other packets alone yields nothing.
   */
  lemma DemuxOutcomes(d: Bytes)
    ensures NalUnits(d) == NoStartCode <==> forall p: nat :: p + 3 < |d| ==> !Code3At(d, p)
    ensures NalUnits(d) == Panicked <==> exists p: nat :: p < |d| && VideoAt(d, p) && ParsePes(d[p..]) == Panic
    ensures
      (exists p: nat :: p + 3 < |d| && Code3At(d, p)) && (forall p: nat :: p < |d| ==> !VideoAt(d, p)) ==>
        NalUnits(d) == Demuxed([])
  {
    NoCodesMeanNone(d, 0);
    ParsesAreAtCodes(d, Panic);
    NothingWithoutVideo(d);
    if p: nat :| p < |d| && VideoAt(d, p) && ParsePes(d[p..]) == Panic {
      assert p + 3 < |d| && Code3At(d, p);
    }
    hide StartCodes, VideoPes, ParsePes;
  }

  lemma {:induction false} NothingWithoutVideo(d: Bytes)
    ensures (forall p: nat :: p < |d| ==> !VideoAt(d, p)) ==> VideoPes(d) == []
    decreases |d|
  {
    if |d| >= 4 && forall p: nat :: p < |d| ==> !VideoAt(d, p) {
      var t := d[1..];
      assert forall p: nat :: p < |t| ==> (VideoAt(t, p) <==> VideoAt(d, p + 1));
      NothingWithoutVideo(t);
      assert !VideoAt(d, 0);
    }
  }
}
