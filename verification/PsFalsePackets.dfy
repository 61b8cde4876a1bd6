/**
 * Units that start with a byte of the video range pass for packets: the demultiplexer parses the
 * stream behind their start code as a PES header and appends what that header seems to carry.
 */
module PsFalsePackets {
  import opened Octets
  import opened Results
  import opened Pes
  import opened PsMux
  import opened PsDemux
  import opened PsRoundTrip
  import AnnexB
  import PsWalk

  // --- The false packets of a stream that fits one packet ---

  /** Units that can be told apart in their stream, which one packet carries. */
  predicate FitsOnePacket(nalus: seq<Bytes>) {
    nalus != [] && AnnexB.Splittable(nalus) && |AnnexB.Stream(nalus)| <= MAX_PES_CHUNK_BYTES
  }

  /** The stream from a unit's start code to the end. */
  function From(nalus: seq<Bytes>): Bytes
    requires nalus != []
  {
    CODE3 + AnnexB.Chain(nalus)
  }

  /** The stream from the second unit's start code on. */
  function Behind(nalus: seq<Bytes>): Bytes
    requires nalus != []
  {
    if |nalus| == 1 then [] else From(nalus[1..])
  }

  /** One parse for each unit that starts in the video range, of the stream from there on. */
  function FalseParses(nalus: seq<Bytes>): seq<PesOutcome> {
    if nalus == [] then []
    else
      (if nalus[0] != [] && IsVideo(nalus[0][0]) then [ParsePes(From(nalus))] else []) + FalseParses(nalus[1..])
  }

  lemma {:induction false} FalseParsesAreMet(nalus: seq<Bytes>)
    requires nalus != [] && AnnexB.Splittable(nalus)
    ensures VideoPes(From(nalus)) == FalseParses(nalus)
    decreases |nalus|
  {
    var n, rest := nalus[0], Behind(nalus);
    var d := From(nalus);
    assert d == CODE3 + n + rest;
    var front := d[1..3 + |n|];
    assert d[1..] == front + rest;
    if |nalus| > 1 {
      FalseParsesAreMet(nalus[1..]);
    }
    forall i | 0 <= i < |front|
      ensures !VideoAt(front + rest, i)
    {
      UnitSeam(n, rest, i + 1);
      assert VideoAt(front + rest, i) <==> VideoAt(d, i + 1);
    }
    PassOver(front, rest);
    UnitSeam(n, rest, 0);
    assert VideoPes(rest) == FalseParses(nalus[1..]);
  }

  /** Behind the front of a stamped packet no video start code begins before its first unit. */
  lemma UpToTheUnit(es: Bytes, stamp: Option<(nat, nat)>)
    requires CODE4 <= es && |es| <= MAX_PES_CHUNK_BYTES && stamp.Some?
    ensures VideoPes(ChunkPes(es, stamp)[1..]) == VideoPes(es[1..])
  {
    var packet := ChunkPes(es, stamp);
    PsWalk.ChunkPacketShape(es, stamp);
    var front := packet[1..20];
    assert packet[19..] == es;
    assert packet[1..] == front + es[1..];
    assert packet + [] == packet;
    forall i | 0 <= i < |front|
      ensures !VideoAt(front + es[1..], i)
    {
      assert VideoAt(front + es[1..], i) <==> VideoAt(packet, i + 1);
      VideoCodesOfStampedPacket(es, stamp.value.0, stamp.value.1, [], i + 1);
    }
    PassOver(front, es[1..]);
  }

  /** The demultiplexer meets the one packet there is, and then the false ones. */
  lemma OnePacketOutcomes(nalus: seq<Bytes>, isKeyFrame: bool, pts: nat, dts: nat, streamType: byte)
    requires FitsOnePacket(nalus)
    ensures
      VideoPes(Mux(nalus, isKeyFrame, pts, dts, streamType))
      == [ExpectedOf(AnnexB.Stream(nalus), Some((pts, dts)))] + FalseParses(nalus)
  {
    var es, stamp := AnnexB.Stream(nalus), Some((pts, dts));
    assert CODE4 <= es && es[1..] == From(nalus);
    hide Mux, PesChain, ChunkPes, FalseParses, ExpectedOf, VideoPes, ParsePes, AnnexB.Stream, From;
    MuxOutcomes(nalus, isKeyFrame, pts, dts, streamType);
    ChainOfOne(es, stamp);
    FrontOfOne(es, stamp);
    FrontIsParsed(ChunkPes(es, stamp));
    UpToTheUnit(es, stamp);
    FalseParsesAreMet(nalus);
  }

  lemma ChainOfOne(es: Bytes, stamp: Option<(nat, nat)>)
    requires |es| <= MAX_PES_CHUNK_BYTES
    ensures PesChain(es, stamp) == ChunkPes(es, stamp)
  {
    assert es[..|es|] == es && ChunkPes(es, stamp) + [] == ChunkPes(es, stamp);
    hide ChunkPes;
  }

  lemma FrontOfOne(es: Bytes, stamp: Option<(nat, nat)>)
    requires |es| <= MAX_PES_CHUNK_BYTES && stamp.Some?
    ensures
      var packet := ChunkPes(es, stamp);
      |packet| >= 9 && VideoAt(packet, 0) && ParsePes(packet) == ExpectedOf(es, stamp)
  {
    hide ChunkPes, ParsePes, ExpectedOf, VideoAt;
    PacketFront(es, stamp, []);
    assert ChunkPes(es, stamp) + [] == ChunkPes(es, stamp);
  }

  lemma FrontIsParsed(d: Bytes)
    requires |d| >= 4 && VideoAt(d, 0)
    ensures VideoPes(d) == [ParsePes(d)] + VideoPes(d[1..])
  {
    hide ParsePes;
  }

  /** What the false packets carry is split together with the stream. */
  lemma OnePacketUnits(nalus: seq<Bytes>, isKeyFrame: bool, pts: nat, dts: nat, streamType: byte)
    requires FitsOnePacket(nalus)
    ensures
      NalUnits(Mux(nalus, isKeyFrame, pts, dts, streamType)) ==
      if Panic in FalseParses(nalus) then Panicked
      else Demuxed(AnnexB.Split(AnnexB.Stream(nalus) + Concat(Kept(FalseParses(nalus)))))
  {
    var es, parses := AnnexB.Stream(nalus), FalseParses(nalus);
    MuxOutcomes(nalus, isKeyFrame, pts, dts, streamType);
    OnePacketOutcomes(nalus, isKeyFrame, pts, dts, streamType);
    hide Mux, FalseParses, VideoPes, AnnexB.Split;
    var first := ExpectedOf(es, Some((pts, dts)));
    assert first.Parsed? && first.pes.data == es && es != [];
    assert ([first] + parses)[1..] == parses;
    assert Kept([first] + parses) == [es] + Kept(parses);
    assert ([es] + Kept(parses))[1..] == Kept(parses);
    assert Concat([es] + Kept(parses)) == es + Concat(Kept(parses));
  }

  // --- What may follow a stream without changing its units ---

  /** Start codes with nothing between them; a bare three-byte code at the end would be data. */
  predicate OnlyCodes(d: Bytes)
    decreases |d|
  {
    d == [] || (CODE4 <= d && OnlyCodes(d[4..])) || (CODE3 <= d && |d| > 3 && OnlyCodes(d[3..]))
  }

  lemma {:induction false} OnlyCodesLeaveNothing(d: Bytes)
    ensures AnnexB.Cut([], d) == [] <==> OnlyCodes(d)
    decreases |d|
  {
    if |d| >= 4 && CODE4 <= d {
      assert d[2] == 0;
      assert AnnexB.Cut([], d) == AnnexB.Cut([], d[4..]);
      OnlyCodesLeaveNothing(d[4..]);
    } else if |d| >= 4 && CODE3 <= d {
      assert AnnexB.Cut([], d) == AnnexB.Cut([], d[3..]);
      OnlyCodesLeaveNothing(d[3..]);
    } else if |d| >= 4 {
      assert [] + [d[0]] == [d[0]];
      CutKeepsWhatItHas([d[0]], d[1..]);
    } else {
      assert [] + d == d;
    }
  }

  lemma {:induction false} CutKeepsWhatItHas(unit: Bytes, d: Bytes)
    requires unit != []
    ensures AnnexB.Cut(unit, d) != [] && unit <= AnnexB.Cut(unit, d)[0]
    decreases |d|
  {
    if |d| >= 4 && !(CODE4 <= d) && !(CODE3 <= d) {
      CutKeepsWhatItHas(unit + [d[0]], d[1..]);
    }
  }

  /** A unit keeps its end in front of d: d is empty, or codes alone that take none of the unit's zeros. */
  predicate KeepsEnd(n: Bytes, d: Bytes) {
    || d == []
    || (OnlyCodes(d) && AnnexB.NoCode(n) && (n == [] || n[|n| - 1] != 0 || CODE4 <= d))
  }

  /** Bytes so few that they may be the front of a start code, or one. */
  predicate MayPassForCode(n: Bytes) {
    |n| <= 3 && (n == CODE3 || forall k :: 0 <= k < |n| ==> n[k] == 0)
  }

  /** The unit goes into a start code, and behind that code comes the same unit again. */
  predicate Restarts(n: Bytes, d: Bytes) {
    var s := n + d;
    && MayPassForCode(n) && |s| >= 4
    && if CODE4 <= s then AnnexB.Cut([], s[4..]) == [n] else CODE3 <= s && AnnexB.Cut([], s[3..]) == [n]
  }

  /** A start code at the front of n and d takes in all of n. */
  lemma CodeTakesUnit(n: Bytes, d: Bytes)
    requires n != [] && AnnexB.NoCodeButBareEnd(n) && |n + d| >= 4 && (CODE4 <= n + d || CODE3 <= n + d)
    ensures d != [] && MayPassForCode(n) && !KeepsEnd(n, d)
  {
    var s := n + d;
    assert forall k :: 0 <= k < |n| ==> s[k] == n[k];
    assert forall k :: 0 <= k < |d| ==> s[|n| + k] == d[k];
    if |n| >= 3 && CODE3 <= s {
      assert Code3At(n, 0);
    }
    if |n| >= 4 && CODE4 <= s {
      assert Code3At(n, 1);
    }
    assert |n| == 1 ==> d[0] == 0 && d[1] == (if CODE4 <= s then 0 else 1) && (CODE4 <= s ==> d[2] == 1);
    assert |n| == 2 ==> d[0] == (if CODE4 <= s then 0 else 1) && (CODE4 <= s ==> d[1] == 1);
    assert |n| == 3 ==> Code3At(n, 0) || d[0] == 1;
  }

  lemma KeepsEndBehindFirst(n: Bytes, d: Bytes)
    requires n != [] && AnnexB.NoCodeButBareEnd(n) && |n + d| >= 4 && !(CODE4 <= n + d) && !(CODE3 <= n + d)
    ensures KeepsEnd(n[1..], d) <==> KeepsEnd(n, d)
  {
    AnnexB.NoCodeInTail(n);
    assert !Code3At(n, 0);
    assert AnnexB.NoCode(n[1..]) ==> AnnexB.NoCode(n) by {
      assert forall p :: 0 < p < |n| && Code3At(n, p) ==> Code3At(n[1..], p - 1);
    }
    assert forall k :: 0 <= k < |d| ==> (n + d)[|n| + k] == d[k];
  }

  /** Behind at least one collected byte, a unit stays alone exactly if it keeps its end. */
  lemma {:induction false} UnitStaysAlone(unit: Bytes, n: Bytes, d: Bytes)
    requires unit != [] && AnnexB.NoCodeButBareEnd(n)
    ensures AnnexB.Cut(unit, n + d) == [unit + n] <==> KeepsEnd(n, d)
    decreases |n|
  {
    if n == [] {
      NothingStaysAlone(unit, d);
      assert n + d == d && unit + n == unit;
    } else if |n + d| < 4 {
      assert unit + (n + d) == unit + n <==> d == [] by {
        assert |unit + (n + d)| == |unit + n| + |d|;
      }
    } else if CODE4 <= n + d || CODE3 <= n + d {
      CodeTakesUnit(n, d);
      assert AnnexB.Cut(unit, n + d)[0] == unit;
      assert |unit| < |unit + n|;
    } else {
      KeepsEndBehindFirst(n, d);
      assert (n + d)[1..] == n[1..] + d;
      AnnexB.NoCodeInTail(n);
      hide KeepsEnd;
      UnitStaysAlone(unit + [n[0]], n[1..], d);
      assert unit + [n[0]] + n[1..] == unit + n;
    }
  }

  lemma NothingStaysAlone(unit: Bytes, d: Bytes)
    requires unit != []
    ensures AnnexB.Cut(unit, d) == [unit] <==> OnlyCodes(d)
  {
    if |d| >= 4 && CODE4 <= d {
      assert d[2] == 0;
      OnlyCodesLeaveNothing(d[4..]);
      AloneInFront(unit, AnnexB.Cut([], d[4..]));
    } else if |d| >= 4 && CODE3 <= d {
      OnlyCodesLeaveNothing(d[3..]);
      AloneInFront(unit, AnnexB.Cut([], d[3..]));
    } else if |d| >= 4 {
      CutKeepsWhatItHas(unit + [d[0]], d[1..]);
    } else {
      assert |unit + d| == |unit| + |d|;
      assert d == [] ==> unit + d == unit;
    }
  }

  lemma AloneInFront(unit: Bytes, later: seq<Bytes>)
    ensures [unit] + later == [unit] <==> later == []
  {
    assert |[unit] + later| == 1 + |later|;
  }

  /** The last unit of a stream comes out of it and more exactly if it keeps its end or restarts. */
  lemma LastStaysAlone(n: Bytes, d: Bytes)
    requires AnnexB.CleanLast(n)
    ensures AnnexB.Cut([], n + d) == [n] <==> KeepsEnd(n, d) || Restarts(n, d)
  {
    if |n + d| < 4 {
      assert n + d == n <==> d == [] by {
        assert |n + d| == |n| + |d|;
      }
      assert [] + (n + d) == n + d;
    } else if CODE4 <= n + d || CODE3 <= n + d {
      CodeTakesUnit(n, d);
    } else {
      KeepsEndBehindFirst(n, d);
      AnnexB.NoCodeInTail(n);
      hide KeepsEnd;
      assert (n + d)[1..] == n[1..] + d && [] + [n[0]] == [n[0]] && [n[0]] + n[1..] == n;
      UnitStaysAlone([n[0]], n[1..], d);
    }
  }

  lemma SameBehindFirst(nalus: seq<Bytes>, later: seq<Bytes>)
    requires nalus != []
    ensures [nalus[0]] + later == nalus <==> later == nalus[1..]
  {
    assert ([nalus[0]] + later)[1..] == later;
    assert nalus == [nalus[0]] + nalus[1..];
  }

  /** What may follow the last unit of a stream. */
  predicate Follows(nalus: seq<Bytes>, d: Bytes)
    requires nalus != []
  {
    var last := nalus[|nalus| - 1];
    KeepsEnd(last, d) || Restarts(last, d)
  }

  /** The first unit is cut off the stream and whatever follows it. */
  lemma FirstIsCut(nalus: seq<Bytes>, d: Bytes)
    requires |nalus| > 1 && AnnexB.Splittable(nalus)
    ensures AnnexB.Splittable(nalus[1..])
    ensures
      AnnexB.Cut([], AnnexB.Chain(nalus) + d) == [nalus[0]] + AnnexB.Cut([], AnnexB.Chain(nalus[1..]) + d)
  {
    var n := nalus[0];
    assert AnnexB.CleanInner(n);
    var rest := AnnexB.Chain(nalus[1..]) + d;
    assert AnnexB.Chain(nalus) + d == n + CODE3 + rest;
    assert AnnexB.Chain(nalus[1..]) != [] by {
      assert nalus[1] != [];
    }
    assert AnnexB.Trim(n) == n && [] + n == n;
    hide AnnexB.Cut, AnnexB.Chain;
    AnnexB.CutInner([], n, rest);
  }

  /** Units come back from their stream and more exactly if the more may follow the last of them. */
  lemma {:induction false} UnitsStayAlone(nalus: seq<Bytes>, d: Bytes)
    requires nalus != [] && AnnexB.Splittable(nalus)
    ensures AnnexB.Cut([], AnnexB.Chain(nalus) + d) == nalus <==> Follows(nalus, d)
    decreases |nalus|
  {
    hide AnnexB.Cut, KeepsEnd, Restarts, AnnexB.CleanLast, AnnexB.CleanInner;
    if |nalus| == 1 {
      assert AnnexB.CleanLast(nalus[0]);
      LastStaysAlone(nalus[0], d);
      assert nalus == [nalus[0]];
    } else {
      FirstIsCut(nalus, d);
      hide AnnexB.Chain, AnnexB.Splittable;
      UnitsStayAlone(nalus[1..], d);
      SameBehindFirst(nalus, AnnexB.Cut([], AnnexB.Chain(nalus[1..]) + d));
    }
  }

  lemma SplitWithMore(nalus: seq<Bytes>, d: Bytes)
    requires nalus != [] && AnnexB.Splittable(nalus)
    ensures AnnexB.Split(AnnexB.Stream(nalus) + d) == nalus <==> Follows(nalus, d)
  {
    var more := AnnexB.Chain(nalus) + d;
    assert AnnexB.Stream(nalus) + d == CODE4 + more;
    hide AnnexB.Split, AnnexB.Cut, Follows, AnnexB.Splittable, AnnexB.Stream, AnnexB.Chain;
    AnnexB.SplitBehindFirstCode(more);
    UnitsStayAlone(nalus, d);
  }

  // --- The round trip with false packets ---

  /** No false packet makes the parser run off the buffer, and what they all carry may follow the stream. */
  predicate FalsePacketsVanish(nalus: seq<Bytes>)
    requires nalus != []
  {
    Panic !in FalseParses(nalus) && Follows(nalus, Concat(Kept(FalseParses(nalus))))
  }

  /** For every splittable stream that fits one packet, whatever the first bytes of its units. */
  lemma OnePacketRoundTrip(nalus: seq<Bytes>, isKeyFrame: bool, pts: nat, dts: nat, streamType: byte)
    requires FitsOnePacket(nalus)
    ensures NalUnits(Mux(nalus, isKeyFrame, pts, dts, streamType)) == Demuxed(nalus) <==> FalsePacketsVanish(nalus)
  {
    OnePacketUnits(nalus, isKeyFrame, pts, dts, streamType);
    SplitWithMore(nalus, Concat(Kept(FalseParses(nalus))));
    hide NalUnits, Mux, AnnexB.Split, FalseParses, Kept, Concat, Follows, AnnexB.Splittable;
  }

  // --- A single false packet ---

  /** The start codes of a splittable stream: none behind a zero, and no two in a row but at its very end. */
  predicate CodesApart(d: Bytes) {
    forall i :: 0 <= i < |d| && Code3At(d, i) ==>
      (i > 0 ==> d[i - 1] != 0) && (Code3At(d, i + 3) ==> i + 6 == |d|)
  }

  lemma CodeSeam(n: Bytes, rest: Bytes, i: int)
    requires rest == [] || CODE3 <= rest
    requires if rest == [] then AnnexB.CleanLast(n) else AnnexB.CleanInner(n)
    ensures Code3At(CODE3 + n + rest, i) ==>
      i == 0 || (rest != [] && Code3At(rest, i - 3 - |n|)) || (rest == [] && i == |n| && Code3At(n, i - 3))
  {
    var d := CODE3 + n + rest;
    assert forall k :: 0 <= k < |n| ==> d[3 + k] == n[k];
    assert forall k :: 0 <= k < |rest| ==> d[3 + |n| + k] == rest[k];
    if 3 <= i < 3 + |n| && Code3At(d, i) {
      if i + 3 <= 3 + |n| {
        assert Code3At(n, i - 3);
      }
    }
  }

  /** Codes stay apart when a unit is put in front of the rest of its stream. */
  lemma CodesApartBehind(n: Bytes, rest: Bytes, i: nat)
    requires rest == [] || (CODE3 <= rest && CodesApart(rest))
    requires if rest == [] then AnnexB.CleanLast(n) else AnnexB.CleanInner(n)
    requires Code3At(CODE3 + n + rest, i)
    ensures
      var d := CODE3 + n + rest;
      (i > 0 ==> d[i - 1] != 0) && (Code3At(d, i + 3) ==> i + 6 == |d|)
  {
    var d := CODE3 + n + rest;
    CodeSeam(n, rest, i);
    CodeSeam(n, rest, i + 3);
    assert forall k :: 0 <= k < |n| ==> d[3 + k] == n[k];
    var j := i - 3 - |n|;
    if rest != [] && i > 0 {
      assert d[i - 1] == if j == 0 then n[|n| - 1] else rest[j - 1];
    }
  }

  lemma {:induction false} SplittableKeepsCodesApart(nalus: seq<Bytes>)
    requires nalus != [] && AnnexB.Splittable(nalus)
    ensures CodesApart(From(nalus))
    decreases |nalus|
  {
    var n, rest := nalus[0], Behind(nalus);
    var d := From(nalus);
    assert d == CODE3 + n + rest;
    if |nalus| > 1 {
      SplittableKeepsCodesApart(nalus[1..]);
    }
    assert if rest == [] then AnnexB.CleanLast(n) else AnnexB.CleanInner(n);
    hide AnnexB.CleanLast, AnnexB.CleanInner, AnnexB.Chain, AnnexB.Splittable;
    forall i: nat | i < |d| && Code3At(d, i)
      ensures (i > 0 ==> d[i - 1] != 0) && (Code3At(d, i + 3) ==> i + 6 == |d|)
    {
      hide CodesApart;
      CodesApartBehind(n, rest, i);
    }
  }

  /** Codes alone begin with a four-byte code, or with two codes in a row. */
  lemma OnlyCodesBegin(s: Bytes)
    requires OnlyCodes(s) && s != []
    ensures Code4At(s, 0) || (Code3At(s, 0) && ((Code3At(s, 3) && |s| > 6) || Code4At(s, 3)))
  {
    if CODE3 <= s && !(CODE4 <= s) {
      var t := s[3..];
      assert t != [] && OnlyCodes(t);
      assert CODE4 <= t || CODE3 <= t;
      assert forall i :: 0 <= i < |t| ==> t[i] == s[3 + i];
    }
  }

  /** A stretch of such a stream is not made of start codes alone, unless it is empty. */
  lemma StretchHoldsData(d: Bytes, lo: nat, hi: nat)
    requires CodesApart(d) && lo <= hi <= |d|
    ensures OnlyCodes(d[lo..hi]) <==> lo == hi
  {
    var s := d[lo..hi];
    assert forall i :: 0 <= i < |s| ==> s[i] == d[lo + i];
    assert !Code4At(s, 0) by {
      assert Code4At(s, 0) ==> Code3At(d, lo + 1);
    }
    assert !(Code3At(s, 0) && Code3At(s, 3) && |s| > 6) by {
      assert Code3At(s, 0) && Code3At(s, 3) ==> Code3At(d, lo) && Code3At(d, lo + 3);
    }
    assert !Code4At(s, 3) by {
      assert Code4At(s, 3) ==> Code3At(d, lo + 4);
    }
    if OnlyCodes(s) && s != [] {
      OnlyCodesBegin(s);
    }
  }

  /** The header bytes make the parser slice behind the end of the buffer. */
  predicate RunsOff(r: Bytes)
    requires |r| >= 9
  {
    var stamps, announced: nat := r[6] / 64, r[7];
    (stamps >= 2 && |r| < 13) || (stamps == 3 && |r| < 18) || 9 + announced > |r|
  }

  /**
   * Read as a PES header, the bytes behind the start code are too few, announce more header than
   * there is, or announce a packet that carries nothing.
   */
  predicate Harmless(r: Bytes) {
    || |r| < 9
    || var announced: nat := r[7];
       || 8 + announced > |r|
       || (!RunsOff(r) && (9 + announced == |r| || 0 < FromBe16(r[4], r[5]) <= 3 + announced))
  }

  /** The parse of a harmless header carries nothing; any other runs off the buffer or carries data. */
  lemma HarmlessParse(r: Bytes)
    requires |r| > 3 && CODE3 <= r && IsVideo(r[3]) && CodesApart(r)
    ensures
      var parse, data := ParsePes(r), Concat(Kept([ParsePes(r)]));
      && (Harmless(r) <==> parse != Panic && data == [])
      && (OnlyCodes(data) <==> data == [])
  {
    var parse := ParsePes(r);
    assert [parse][1..] == [];
    if parse.Parsed? {
      var data := parse.pes.data;
      assert Kept([parse]) == (if data != [] then [data] else []);
      var one: seq<Bytes> := [data];
      assert one[1..] == [] && Concat(one) == data;
      var announced: nat := r[7];
      var lo := 9 + announced;
      StretchHoldsData(r, lo, parse.consumed);
      assert data == r[lo..parse.consumed];
    }
  }

  lemma {:induction false} NoFalseParse(nalus: seq<Bytes>)
    requires NoVideoUnit(nalus)
    ensures FalseParses(nalus) == []
  {
    if nalus != [] {
      assert nalus[0] != [] ==> !IsVideo(nalus[0][0]);
      assert NoVideoUnit(nalus[1..]) by {
        assert forall k :: 0 <= k < |nalus| - 1 ==> nalus[1..][k] == nalus[k + 1];
      }
      NoFalseParse(nalus[1..]);
    }
  }

  /** Unit k is the only one that starts in the video range. */
  predicate OnlyVideoUnit(nalus: seq<Bytes>, k: nat) {
    && k < |nalus|
    && forall j :: 0 <= j < |nalus| && nalus[j] != [] ==> (IsVideo(nalus[j][0]) <==> j == k)
  }

  lemma {:induction false} OneFalseParse(nalus: seq<Bytes>, k: nat)
    requires AnnexB.Splittable(nalus) && OnlyVideoUnit(nalus, k)
    ensures FalseParses(nalus) == [ParsePes(From(nalus[k..]))]
    decreases k
  {
    assert nalus[0] != [];
    assert forall j :: 0 <= j < |nalus| - 1 ==> nalus[1..][j] == nalus[j + 1];
    if k == 0 {
      assert nalus[0..] == nalus;
      NoFalseParse(nalus[1..]);
    } else {
      OneFalseParse(nalus[1..], k - 1);
      assert nalus[1..][k - 1..] == nalus[k..];
    }
  }

  /**
   * With exactly one unit in the video range, a splittable stream that fits one packet comes back
   * exactly if the bytes behind that unit's start code make a harmless header - provided the last
   * unit is more than the front of a start code.
   */
  lemma OneVideoUnitRoundTrip(
    nalus: seq<Bytes>, k: nat, isKeyFrame: bool, pts: nat, dts: nat, streamType: byte)
    requires FitsOnePacket(nalus) && OnlyVideoUnit(nalus, k)
    requires !MayPassForCode(nalus[|nalus| - 1])
    ensures
      NalUnits(Mux(nalus, isKeyFrame, pts, dts, streamType)) == Demuxed(nalus)
      <==> Harmless(From(nalus[k..]))
  {
    OnePacketRoundTrip(nalus, isKeyFrame, pts, dts, streamType);
    OneFalseParse(nalus, k);
    LaterUnits(nalus, k);
    hide Mux, NalUnits, FalseParses, Harmless, OnlyCodes, CodesApart, ParsePes, AnnexB.Splittable, From, Kept, Concat;
    HarmlessParse(From(nalus[k..]));
  }

  lemma LaterUnits(nalus: seq<Bytes>, k: nat)
    requires AnnexB.Splittable(nalus) && OnlyVideoUnit(nalus, k)
    ensures
      var r := From(nalus[k..]);
      |r| > 3 && CODE3 <= r && IsVideo(r[3]) && CodesApart(r)
  {
    var later := nalus[k..];
    assert later[0] == nalus[k] && later[0] != [];
    assert AnnexB.Splittable(later);
    SplittableKeepsCodesApart(later);
    hide CodesApart;
    assert From(later)[3] == later[0][0];
  }

  /** A single unit of the video range: its start code and its own bytes are the header. */
  lemma VideoRangeUnitRoundTrip(n: Bytes, isKeyFrame: bool, pts: nat, dts: nat, streamType: byte)
    requires AnnexB.CleanLast(n) && IsVideo(n[0]) && |AnnexB.Stream([n])| <= MAX_PES_CHUNK_BYTES
    ensures
      NalUnits(Mux([n], isKeyFrame, pts, dts, streamType)) == Demuxed([n]) <==> Harmless(CODE3 + n)
  {
    assert [n][0..] == [n];
    OneVideoUnitRoundTrip([n], 0, isKeyFrame, pts, dts, streamType);
  }

  /**
   * The first unit announces a packet that carries the second once more. A zero byte then goes into the
   * start code and comes back alone, so this is what the condition on the last unit is for; any other
   * byte comes back twice.
   */
  lemma LastUnitIsRepeated(last: byte, pts: nat, dts: nat)
    requires last != 1 && !IsVideo(last)
    ensures
      var nalus := Repeating(last);
      && !Harmless(From(nalus))
      && NalUnits(Mux(nalus, false, pts, dts, STREAM_TYPE_H264))
         == Demuxed(if last == 0 then nalus else nalus + [[last]])
  {
    hide Mux, NalUnits, AnnexB.Split, AnnexB.Stream, AnnexB.Splittable, Harmless, FalseParses, From;
    var nalus := Repeating(last);
    RepeatIsCarried(last);
    OnePacketUnits(nalus, false, pts, dts, STREAM_TYPE_H264);
    if last == 0 {
      RestartOfZero();
      SplitWithMore(nalus, CODE3 + [last]);
    } else {
      RepeatedStream(last);
    }
  }

  function Repeating(last: byte): seq<Bytes> {
    [[0xE0, 0, 0, 2, 0, 5], [last]]
  }

  lemma RepeatedStream(last: byte)
    requires last != 0
    ensures AnnexB.Split(AnnexB.Stream(Repeating(last)) + (CODE3 + [last])) == Repeating(last) + [[last]]
  {
    var nalus := Repeating(last);
    var longer := nalus + [[last]];
    assert longer[1..] == [[last], [last]] && longer[1..][1..] == [[last]] && nalus[1..] == [[last]];
    assert AnnexB.Chain(longer) == longer[0] + CODE3 + AnnexB.Chain(longer[1..]);
    assert AnnexB.Chain(longer[1..]) == [last] + CODE3 + [last];
    assert AnnexB.Chain(nalus) == nalus[0] + CODE3 + [last];
    assert AnnexB.Chain(longer) == nalus[0] + CODE3 + ([last] + CODE3 + [last]);
    assert AnnexB.Chain(longer) == AnnexB.Chain(nalus) + (CODE3 + [last]);
    assert CODE4 + AnnexB.Chain(longer) == CODE4 + AnnexB.Chain(nalus) + (CODE3 + [last]);
    hide AnnexB.Split, AnnexB.Chain;
    AnnexB.SplitInvertsStream(longer);
  }

  lemma RestartOfZero()
    ensures Restarts([0], CODE3 + [0])
  {
    var s: Bytes := [0] + (CODE3 + [0]);
    assert s == CODE4 + [0] && s[4..] == [0];
    assert [] + [0] == [0];
  }

  lemma RepeatIsCarried(last: byte)
    requires last != 1 && !IsVideo(last)
    ensures
      var nalus := Repeating(last);
      && AnnexB.Splittable(nalus) && |AnnexB.Stream(nalus)| <= MAX_PES_CHUNK_BYTES && !Harmless(From(nalus))
      && Panic !in FalseParses(nalus) && Concat(Kept(FalseParses(nalus))) == CODE3 + [last]
  {
    var nalus := Repeating(last);
    RepeatingStream(last);
    var data: Bytes := CODE3 + [last];
    RepeatIsParsed(last);
    var parse := ParsePes(From(nalus));
    hide ParsePes, From, AnnexB.Chain, AnnexB.Stream, Harmless;
    assert nalus[1..] == [[last]] && [[last]][1..] == [];
    assert FalseParses([[last]]) == [];
    assert FalseParses(nalus) == [parse];
    assert [parse][1..] == [];
    var one: seq<Bytes> := [data];
    assert Kept([parse]) == one;
    assert one[1..] == [] && Concat(one) == data;
  }

  lemma RepeatingStream(last: byte)
    requires last != 1
    ensures
      var nalus := Repeating(last);
      && AnnexB.Splittable(nalus) && |AnnexB.Stream(nalus)| <= MAX_PES_CHUNK_BYTES
      && From(nalus) == [0, 0, 1, 0xE0, 0, 0, 2, 0, 5, 0, 0, 1, last]
  {
    var nalus := Repeating(last);
    assert nalus[1..] == [[last]];
    assert AnnexB.Chain(nalus) == nalus[0] + CODE3 + AnnexB.Chain(nalus[1..]);
  }

  /** Without stamps, without announced header bytes and with length 0 the packet is all that is left. */
  lemma BareHeaderIsParsed(r: Bytes)
    requires |r| >= 9 && CODE3 <= r && IsVideo(r[3]) && r[4] == 0 && r[5] == 0 && r[6] < 64 && r[7] == 0
    ensures ParsePes(r) == Parsed(PesPacket(r[3], 0, None, None, r[9..]), |r|)
  {
    assert r[9..|r|] == r[9..];
  }

  lemma RepeatIsParsed(last: byte)
    ensures
      var r: Bytes := [0, 0, 1, 0xE0, 0, 0, 2, 0, 5, 0, 0, 1, last];
      !Harmless(r) && ParsePes(r) == Parsed(PesPacket(0xE0, 0, None, None, CODE3 + [last]), |r|)
  {
    var r: Bytes := [0, 0, 1, 0xE0, 0, 0, 2, 0, 5, 0, 0, 1, last];
    assert r[9..] == CODE3 + [last];
    hide ParsePes;
    BareHeaderIsParsed(r);
  }

  /** The shortest video-range unit comes back, though it is not safe to mux; a longer one grows. */
  lemma VideoRangeUnitIsDoubled(id: byte, last: byte, pts: nat, dts: nat)
    requires IsVideo(id) && last > 1
    ensures !MuxSafe([[id]]) && NalUnits(Mux([[id]], false, pts, dts, STREAM_TYPE_H264)) == Demuxed([[id]])
    ensures
      var unit := [id, 0, 0, 0, 0, 0, last];
      NalUnits(Mux([unit], false, pts, dts, STREAM_TYPE_H264)) == Demuxed([unit + [last]])
  {
    hide Mux, NalUnits, ParsePes, FalseParses, Harmless, AnnexB.Split, AnnexB.Stream, AnnexB.Splittable, MuxSafe;
    ShortestUnit(id);
    VideoRangeUnitRoundTrip([id], false, pts, dts, STREAM_TYPE_H264);
    var unit: Bytes := [id, 0, 0, 0, 0, 0, last];
    DoublingStream(unit, last);
    OnePacketUnits([unit], false, pts, dts, STREAM_TYPE_H264);
    LastByteIsCarried(id, last);
    AnnexB.SplitInvertsStream([unit + [last]]);
  }

  lemma ShortestUnit(id: byte)
    requires IsVideo(id)
    ensures !MuxSafe([[id]]) && AnnexB.CleanLast([id]) && |AnnexB.Stream([[id]])| == 5 && Harmless(CODE3 + [id])
  {
    assert [[id]][0] == [id];
  }

  lemma DoublingStream(unit: Bytes, last: byte)
    requires last > 1 && |unit| == 7 && IsVideo(unit[0]) && unit[1..] == [0, 0, 0, 0, 0, last]
    ensures AnnexB.Splittable([unit]) && |AnnexB.Stream([unit])| == 11
    ensures AnnexB.Splittable([unit + [last]]) && AnnexB.Stream([unit]) + [last] == AnnexB.Stream([unit + [last]])
  {
    var longer := unit + [last];
    assert longer[1..] == [0, 0, 0, 0, 0, last, last];
    assert forall k :: 1 <= k < 7 ==> unit[k] == unit[1..][k - 1] && longer[k] == longer[1..][k - 1];
  }

  lemma LastByteIsCarried(id: byte, last: byte)
    requires IsVideo(id)
    ensures
      var parses := FalseParses([[id, 0, 0, 0, 0, 0, last]]);
      Panic !in parses && Concat(Kept(parses)) == [last]
  {
    var unit: Bytes := [id, 0, 0, 0, 0, 0, last];
    var r: Bytes := [0, 0, 1, id, 0, 0, 0, 0, 0, last];
    assert From([unit]) == r && [unit][1..] == [];
    LastByteIsParsed(id, last);
    hide ParsePes, From;
    var parse := ParsePes(r);
    assert FalseParses([unit]) == [parse];
    assert [parse][1..] == [];
    var one: seq<Bytes> := [[last]];
    assert Kept([parse]) == one;
    assert one[1..] == [] && Concat(one) == [last];
  }

  lemma LastByteIsParsed(id: byte, last: byte)
    requires IsVideo(id)
    ensures
      var r: Bytes := [0, 0, 1, id, 0, 0, 0, 0, 0, last];
      ParsePes(r) == Parsed(PesPacket(id, 0, None, None, [last]), 10)
  {
    var r: Bytes := [0, 0, 1, id, 0, 0, 0, 0, 0, last];
    assert r[9..] == [last];
    hide ParsePes;
    BareHeaderIsParsed(r);
  }
}
