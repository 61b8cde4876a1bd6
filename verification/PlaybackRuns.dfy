/** What holds over every run of the playback task, whatever commands arrive and whenever. */
module PlaybackRuns {
  import opened Octets
  import opened Results
  import opened Frames
  import opened Rtp
  import opened Playback

  // --- Commands and deliveries along a run ---

  /** The command, if any, that this turn acts on. */
  function Heeded(cfg: Config, s: State, e: Event): Option<Control> {
    if s.ending == Running && e.heard.Command? &&
       (s.paused || (s.idx < |s.frames| && !Underflows(s) && Listens(cfg, s, e.now)))
    then Some(e.heard.control)
    else None
  }

  /** The start of the frame list in use after this turn, given the one before. */
  function NextFrom(cfg: Config, s: State, from: nat, e: Event): nat {
    match Heeded(cfg, s, e)
    case Some(Play(Some(seek), _)) => seek
    case _ => from
  }

  predicate Seeks(cfg: Config, s: State, e: Event) {
    var heeded := Heeded(cfg, s, e);
    heeded.Some? && heeded.value.Play? && heeded.value.startMs.Some?
  }

  /** The frame, if any, that goes out whole in this turn. */
  function Outgoing(cfg: Config, s: State, e: Event): Option<Frame> {
    var next := Step(cfg, s, e);
    if s.idx < |s.frames| && |next.sent| > |s.sent| && next.ending == Running then Some(s.frames[s.idx]) else None
  }

  function SentFrames(cfg: Config, s: State, events: seq<Event>): seq<Frame>
    decreases |events|
  {
    if events == [] then []
    else
      (match Outgoing(cfg, s, events[0]) case Some(frame) => [frame] case None => []) +
      SentFrames(cfg, Step(cfg, s, events[0]), events[1..])
  }

  /** One stretch between seeks: where its frame list starts and how many of its frames went out. */
  datatype Era = Era(from: nat, count: nat)

  function Eras(cfg: Config, s: State, from: nat, events: seq<Event>): seq<Era>
    decreases |events|
  {
    if events == [] then [Era(from, s.idx)]
    else
      (if Seeks(cfg, s, events[0]) then [Era(from, s.idx)] else []) +
      Eras(cfg, Step(cfg, s, events[0]), NextFrom(cfg, s, from, events[0]), events[1..])
  }

  /** In each era the first frames of its list, in order, once each. */
  function Played(cfg: Config, eras: seq<Era>): seq<Frame> {
    if eras == [] then []
    else
      var list := Selected(cfg.recs, eras[0].from, cfg.endMs);
      list[..Min(eras[0].count, |list|)] + Played(cfg, eras[1..])
  }

  // --- The invariant ---

  /** Every frame list a session can be asked for is in time order. */
  ghost predicate AllOrdered(cfg: Config) {
    forall from: nat :: TimeOrdered(Selected(cfg.recs, from, cfg.endMs))
  }

  predicate Sound(cfg: Config, from: nat, s: State) {
    && s.frames == Selected(cfg.recs, from, cfg.endMs) && s.idx <= |s.frames|
    && (s.ending != SendFailed ==> s.pts == 3000 * s.idx)
    && (s.ending == Finished ==> s.idx == |s.frames|)
    && s.mediaEnds == (if s.ending == Finished && cfg.reportsEnd then 1 else 0)
    && (s.ending == Running && s.baseMs.Some? && s.idx < |s.frames| ==> s.baseMs.value <= s.frames[s.idx].absMs)
    && s.ending != Underflow
  }

  lemma SendSteps(cfg: Config, s: State, failing: Option<nat>)
    requires s.idx < |s.frames|
    ensures
      var next := Send(cfg, s, failing);
      && next.(pts := s.pts, sent := s.sent, idx := s.idx, sequenceNumber := s.sequenceNumber,
               timestamp := s.timestamp, ending := s.ending) == s
      && next.pts == s.pts + 3000
      && (next.ending == SendFailed || (next.ending == s.ending && next.idx == s.idx + 1 && |next.sent| > |s.sent|))
      && (next.ending == SendFailed ==> next.idx == s.idx || s.ending == SendFailed)
  {
    FramePackets(MuxedBytes(DeliveryOf(s.frames[s.idx], s.pts + 3000)), cfg.ssrc, s.sequenceNumber, s.timestamp);
  }

  lemma StepKeepsSound(cfg: Config, from: nat, s: State, e: Event)
    requires AllOrdered(cfg) && Sound(cfg, from, s)
    ensures Sound(cfg, NextFrom(cfg, s, from, e), Step(cfg, s, e))
  {
    hide MuxedBytes;
    if s.ending == Running && !s.paused && s.idx < |s.frames| && !Underflows(s) && Heeded(cfg, s, e).None? {
      SendSteps(cfg, Anchored(s), e.failing);
      SendSteps(cfg, Anchored(s).(controlOpen := false), e.failing);
      assert TimeOrdered(Selected(cfg.recs, from, cfg.endMs));
    }
  }

  function LastFrom(cfg: Config, s: State, from: nat, events: seq<Event>): nat
    decreases |events|
  {
    if events == [] then from
    else LastFrom(cfg, Step(cfg, s, events[0]), NextFrom(cfg, s, from, events[0]), events[1..])
  }

  /**
   * Over every run: the index stays within the list of the last seek, the frame at hand is never
   * earlier than its pacing base, and the end of media is reported at most once, only when the
   * list is exhausted, and never when the session is stopped or fails.
   */
  lemma {:induction false} RunKeepsSound(cfg: Config, from: nat, s: State, events: seq<Event>)
    requires AllOrdered(cfg) && Sound(cfg, from, s)
    ensures Sound(cfg, LastFrom(cfg, s, from, events), Run(cfg, s, events))
    decreases |events|
  {
    if events != [] {
      StepKeepsSound(cfg, from, s, events[0]);
      RunKeepsSound(cfg, NextFrom(cfg, s, from, events[0]), Step(cfg, s, events[0]), events[1..]);
    }
  }

  lemma StartIsSound(cfg: Config, startMs: nat, now: nat)
    ensures Sound(cfg, startMs, Start(cfg, startMs, now))
  {
  }

  // --- Which frames go out ---

  lemma StepPlays(cfg: Config, from: nat, s: State, e: Event)
    requires AllOrdered(cfg) && Sound(cfg, from, s)
    ensures
      var next := Step(cfg, s, e);
      var out := Outgoing(cfg, s, e);
      && (Seeks(cfg, s, e) ==> out.None? && next.idx == 0)
      && (out.Some? ==> s.idx < |s.frames| && out.value == s.frames[s.idx] && next.idx == s.idx + 1)
      && (out.None? && !Seeks(cfg, s, e) ==> next.idx == s.idx)
      && (!Seeks(cfg, s, e) ==> NextFrom(cfg, s, from, e) == from)
  {
    hide MuxedBytes;
    if s.ending == Running && !s.paused && s.idx < |s.frames| && !Underflows(s) && Heeded(cfg, s, e).None? {
      SendSteps(cfg, Anchored(s), e.failing);
      SendSteps(cfg, Anchored(s).(controlOpen := false), e.failing);
    }
  }

  /**
   * What goes out between two seeks is exactly a prefix of the frame list built for the first of
   * them: in order, without a gap, no frame twice - whatever is paused, resumed, sped up or slowed
   * down in between.
   */
  lemma {:induction false} ErasPlayPrefixes(cfg: Config, from: nat, s: State, events: seq<Event>)
    requires AllOrdered(cfg) && Sound(cfg, from, s)
    ensures Played(cfg, Eras(cfg, s, from, events)) == s.frames[..s.idx] + SentFrames(cfg, s, events)
    decreases |events|
  {
    if events == [] {
      assert Eras(cfg, s, from, events)[1..] == [];
      assert s.frames[..s.idx] + [] == s.frames[..s.idx];
    } else {
      var e := events[0];
      var next := Step(cfg, s, e);
      var nextFrom := NextFrom(cfg, s, from, e);
      StepKeepsSound(cfg, from, s, e);
      StepPlays(cfg, from, s, e);
      ErasPlayPrefixes(cfg, nextFrom, next, events[1..]);
      EraStep(cfg, s, from, events);
    }
  }

  lemma EraStep(cfg: Config, s: State, from: nat, events: seq<Event>)
    requires events != [] && AllOrdered(cfg) && Sound(cfg, from, s)
    requires
      var next := Step(cfg, s, events[0]);
      var nextFrom := NextFrom(cfg, s, from, events[0]);
      && Sound(cfg, nextFrom, next)
      && Played(cfg, Eras(cfg, next, nextFrom, events[1..])) ==
         next.frames[..next.idx] + SentFrames(cfg, next, events[1..])
    ensures Played(cfg, Eras(cfg, s, from, events)) == s.frames[..s.idx] + SentFrames(cfg, s, events)
  {
    hide Step, Heeded, Outgoing, Seeks, AllOrdered, Played;
    var e := events[0];
    var next := Step(cfg, s, e);
    StepPlays(cfg, from, s, e);
    var eras := Eras(cfg, next, NextFrom(cfg, s, from, e), events[1..]);
    EraJoins(
      cfg, s, next, Era(from, s.idx), eras, SentFrames(cfg, next, events[1..]), Outgoing(cfg, s, e), Seeks(cfg, s, e));
  }

  /** An era ends at a seek; in front of it a frame that went out joins those played before. */
  lemma EraJoins(
    cfg: Config, s: State, next: State, era: Era, eras: seq<Era>, later: seq<Frame>, out: Option<Frame>, seeks: bool)
    requires era.count == s.idx <= |s.frames| && s.frames == Selected(cfg.recs, era.from, cfg.endMs)
    requires next.idx <= |next.frames|
    requires Played(cfg, eras) == next.frames[..next.idx] + later
    requires seeks ==> out.None? && next.idx == 0
    requires !seeks ==> next.frames == s.frames
    requires out.Some? ==> s.idx < |s.frames| && out.value == s.frames[s.idx] && next.idx == s.idx + 1
    requires out.None? && !seeks ==> next.idx == s.idx
    ensures
      Played(cfg, (if seeks then [era] else []) + eras) ==
      s.frames[..s.idx] + ((match out case Some(frame) => [frame] case None => []) + later)
  {
    if seeks {
      assert ([era] + eras)[1..] == eras;
      assert next.frames[..0] + later == later == [] + later;
    } else {
      assert [] + eras == eras;
      hide Played, Selected;
      match out
      case Some(frame) =>
        assert s.frames[..s.idx + 1] + later == s.frames[..s.idx] + ([frame] + later);
      case None =>
        assert [] + later == later;
    }
  }

  /** From its start, a session plays a prefix of one frame list after another. */
  lemma SessionPlaysPrefixes(cfg: Config, startMs: nat, now: nat, events: seq<Event>)
    requires AllOrdered(cfg)
    ensures
      SentFrames(cfg, Start(cfg, startMs, now), events)
      == Played(cfg, Eras(cfg, Start(cfg, startMs, now), startMs, events))
  {
    var s := Start(cfg, startMs, now);
    StartIsSound(cfg, startMs, now);
    ErasPlayPrefixes(cfg, startMs, s, events);
    assert s.frames[..0] + SentFrames(cfg, s, events) == SentFrames(cfg, s, events);
  }

  // --- Pausing ---

  predicate NoPlay(events: seq<Event>) {
    forall i :: 0 <= i < |events| ==> !(events[i].heard.Command? && events[i].heard.control.Play?)
  }

  /** Nothing goes out between a Pause and the next Play. */
  lemma {:induction false} NothingSentWhilePaused(cfg: Config, s: State, events: seq<Event>)
    requires s.paused && NoPlay(events)
    ensures Run(cfg, s, events).sent == s.sent && Run(cfg, s, events).mediaEnds == s.mediaEnds
    ensures Run(cfg, s, events).paused
    decreases |events|
  {
    if events != [] {
      assert !(events[0].heard.Command? && events[0].heard.control.Play?);
      assert forall i :: 0 <= i < |events| - 1 ==> events[1..][i] == events[i + 1];
      NothingSentWhilePaused(cfg, Step(cfg, s, events[0]), events[1..]);
    }
  }

  // --- What the receiver gets ---

  function Deliveries(cfg: Config, s: State, events: seq<Event>): seq<Delivery>
    decreases |events|
  {
    if events == [] then []
    else
      (match Outgoing(cfg, s, events[0]) case Some(frame) => [DeliveryOf(frame, s.pts + 3000)] case None => []) +
      Deliveries(cfg, Step(cfg, s, events[0]), events[1..])
  }

  lemma {:induction false} DeliveriesAreFrames(cfg: Config, s: State, events: seq<Event>)
    ensures |Deliveries(cfg, s, events)| == |SentFrames(cfg, s, events)|
    ensures forall k :: 0 <= k < |Deliveries(cfg, s, events)| ==>
      Deliveries(cfg, s, events)[k].nalus == SentFrames(cfg, s, events)[k].nalus
    decreases |events|
  {
    hide Step, Outgoing;
    if events != [] {
      DeliveriesAreFrames(cfg, Step(cfg, s, events[0]), events[1..]);
    }
  }

  /** Packets of a frame whose sending broke off before the last of them. */
  predicate BrokenOff(ssrc: u32, part: seq<Packet>, first: nat) {
    WellFormed(ssrc, part, first) && forall i :: 0 <= i < |part| ==> !part[i].marker
  }

  ghost predicate PacketsMatch(cfg: Config, s: State, ds: seq<Delivery>) {
    var whole := AllPackets(cfg.ssrc, MuxedAll(ds));
    if s.ending == SendFailed then
      exists part :: s.sent == whole + part && BrokenOff(cfg.ssrc, part, |whole|)
    else
      && s.sent == whole
      && s.sequenceNumber == |whole| % U16_VALUES
      && s.timestamp == TIMESTAMP_STEP * |ds| % U32_VALUES
  }

  lemma SendMatches(cfg: Config, s: State, ds: seq<Delivery>, failing: Option<nat>)
    requires s.idx < |s.frames| && s.ending == Running && PacketsMatch(cfg, s, ds)
    ensures
      var next := Send(cfg, s, failing);
      PacketsMatch(cfg, next,
                   if next.ending == SendFailed then ds else ds + [DeliveryOf(s.frames[s.idx], s.pts + 3000)])
  {
    hide MuxedBytes;
    var d := DeliveryOf(s.frames[s.idx], s.pts + 3000);
    var whole := AllPackets(cfg.ssrc, MuxedAll(ds));
    var ps := MuxedBytes(d);
    var packets := Packets(ps, cfg.ssrc, s.sequenceNumber, s.timestamp);
    var next := Send(cfg, s, failing);
    PacketsModulo(ps, cfg.ssrc, s.sequenceNumber, |whole|, s.timestamp);
    FramePackets(ps, cfg.ssrc, |whole|, s.timestamp);
    if next.ending == SendFailed {
      var part := packets[..failing.value];
      assert BrokenOff(cfg.ssrc, part, |whole|);
    } else {
      SessionGrows(cfg.ssrc, ds, d);
      CountersWrap(|whole|, |packets|, |ds|);
    }
  }

  lemma CountersWrap(whole: nat, added: nat, frames: nat)
    ensures (whole % U16_VALUES + added) % U16_VALUES == (whole + added) % U16_VALUES
    ensures (TIMESTAMP_STEP * frames % U32_VALUES + TIMESTAMP_STEP) % U32_VALUES ==
            TIMESTAMP_STEP * (frames + 1) % U32_VALUES
  {
    SequenceWraps(whole, added);
    TimestampWraps(TIMESTAMP_STEP * frames);
    assert TIMESTAMP_STEP * frames + TIMESTAMP_STEP == TIMESTAMP_STEP * (frames + 1);
  }

  lemma SequenceWraps(whole: nat, added: nat)
    ensures (whole % U16_VALUES + added) % U16_VALUES == (whole + added) % U16_VALUES
  {
    assert whole + added == whole / U16_VALUES * U16_VALUES + (whole % U16_VALUES + added);
  }

  lemma TimestampWraps(timestamp: nat)
    ensures (timestamp % U32_VALUES + TIMESTAMP_STEP) % U32_VALUES == (timestamp + TIMESTAMP_STEP) % U32_VALUES
  {
    WholeTurnsVanish(timestamp / U32_VALUES, timestamp % U32_VALUES + TIMESTAMP_STEP);
  }

  lemma WholeTurnsVanish(turns: nat, rest: nat)
    ensures (turns * U32_VALUES + rest) % U32_VALUES == rest % U32_VALUES
  {
  }

  lemma StepMatches(cfg: Config, s: State, e: Event, ds: seq<Delivery>)
    requires PacketsMatch(cfg, s, ds)
    ensures
      PacketsMatch(cfg, Step(cfg, s, e),
                   ds + match Outgoing(cfg, s, e) case Some(frame) => [DeliveryOf(frame, s.pts + 3000)] case None => [])
  {
    hide MuxedBytes, AllPackets;
    assert ds + [] == ds;
    if s.ending == Running && !s.paused && s.idx < |s.frames| && !Underflows(s) && Heeded(cfg, s, e).None? {
      var ready := if cfg.paced && Listens(cfg, s, e.now) && e.heard.Closed? then Anchored(s).(controlOpen := false)
                   else Anchored(s);
      SendMatches(cfg, ready, ds, e.failing);
      SendSteps(cfg, ready, e.failing);
    }
  }

  lemma {:induction false} RunMatches(cfg: Config, s: State, events: seq<Event>, ds: seq<Delivery>)
    requires PacketsMatch(cfg, s, ds)
    ensures PacketsMatch(cfg, Run(cfg, s, events), ds + Deliveries(cfg, s, events))
    decreases |events|
  {
    hide Step, Outgoing, PacketsMatch;
    if events == [] {
      assert ds + [] == ds;
    } else {
      var e := events[0];
      var now := match Outgoing(cfg, s, e) case Some(frame) => [DeliveryOf(frame, s.pts + 3000)] case None => [];
      StepMatches(cfg, s, e, ds);
      RunMatches(cfg, Step(cfg, s, e), events[1..], ds + now);
      assert ds + now + Deliveries(cfg, Step(cfg, s, e), events[1..]) == ds + Deliveries(cfg, s, events);
    }
  }

  /**
   * End to end, over every run: sequence numbers are consecutive modulo 2^16 across pauses and
   * seeks, every payload has 1 to 1400 bytes, there is one marker per frame that went out whole,
   * and a receiver that collects payloads up to each marker and demultiplexes them gets exactly
   * the units of those frames, in order: of every frame that is safe to mux, and of a frame that
   * fits one packet exactly if the false packets in it vanish.
   */
  lemma ReceiverSeesWhatWasPlayed(cfg: Config, startMs: nat, now: nat, events: seq<Event>)
    ensures
      var s := Start(cfg, startMs, now);
      var sent := Run(cfg, s, events).sent;
      var frames := SentFrames(cfg, s, events);
      var buffers := Buffers(sent, []);
      && WellFormed(cfg.ssrc, sent, 0)
      && Markers(sent) == |buffers| == |frames|
      && forall k :: 0 <= k < |frames| ==> Returns(buffers[k], frames[k].nalus)
  {
    hide Step, Outgoing, MuxedBytes, AllPackets, Returns;
    var s := Start(cfg, startMs, now);
    var ds := Deliveries(cfg, s, events);
    var whole := AllPackets(cfg.ssrc, MuxedAll(ds));
    NothingSentYet(cfg, s);
    RunMatches(cfg, s, events, []);
    assert [] + ds == ds;
    DeliveriesAreFrames(cfg, s, events);
    SessionPackets(cfg.ssrc, MuxedAll(ds));
    BuffersOfSession(cfg.ssrc, MuxedAll(ds));
    ReceiverSeesDeliveries(cfg.ssrc, ds);
    var end := Run(cfg, s, events);
    if end.ending == SendFailed {
      var part :| end.sent == whole + part && BrokenOff(cfg.ssrc, part, |whole|);
      NoMarkerNoBuffer(part, []);
      BuffersConcat(whole, part, []);
      MarkersConcat(whole, part);
      assert Buffers(whole, []) + [] == Buffers(whole, []);
    }
  }

  lemma NothingSentYet(cfg: Config, s: State)
    requires s.sent == [] && s.sequenceNumber == 0 && s.timestamp == 0 && s.ending == Running
    ensures PacketsMatch(cfg, s, [])
  {
    assert MuxedAll([]) == [];
  }

  /** The places in their lists of the frames that go out whole. */
  function SentPlaces(cfg: Config, s: State, events: seq<Event>): seq<nat>
    decreases |events|
  {
    if events == [] then []
    else
      (if Outgoing(cfg, s, events[0]).Some? then [s.idx] else []) +
      SentPlaces(cfg, Step(cfg, s, events[0]), events[1..])
  }

  /** A frame's stamp tells its place in the list in use. */
  predicate StampFits(s: State) {
    s.ending == Running ==> s.pts == 3000 * s.idx
  }

  lemma StepKeepsStamp(cfg: Config, s: State, e: Event)
    requires StampFits(s)
    ensures StampFits(Step(cfg, s, e))
    ensures Outgoing(cfg, s, e).Some? ==> s.ending == Running
  {
    hide MuxedBytes;
  }

  predicate StampedAs(ds: seq<Delivery>, frames: seq<Frame>, places: seq<nat>) {
    && |ds| == |frames| == |places|
    && forall k :: 0 <= k < |ds| ==> ds[k].pts == 3000 * (places[k] + 1) && ds[k].isKey == frames[k].isKey
  }

  lemma FrontIsStamped(
    out: Option<Frame>, pts: nat, idx: nat, ds: seq<Delivery>, frames: seq<Frame>, places: seq<nat>)
    requires StampedAs(ds, frames, places) && (out.Some? ==> pts == 3000 * idx)
    ensures
      StampedAs(
        (match out case Some(frame) => [DeliveryOf(frame, pts + 3000)] case None => []) + ds,
        (match out case Some(frame) => [frame] case None => []) + frames,
        (if out.Some? then [idx] else []) + places)
  {
    if out.None? {
      assert [] + ds == ds && [] + frames == frames && [] + places == places;
    }
  }

  lemma FirstEventIsStamped(cfg: Config, s: State, events: seq<Event>)
    requires events != [] && StampFits(s)
    requires
      var next := Step(cfg, s, events[0]);
      StampedAs(
        Deliveries(cfg, next, events[1..]), SentFrames(cfg, next, events[1..]), SentPlaces(cfg, next, events[1..]))
    ensures StampedAs(Deliveries(cfg, s, events), SentFrames(cfg, s, events), SentPlaces(cfg, s, events))
  {
    var (out, next) := (Outgoing(cfg, s, events[0]), Step(cfg, s, events[0]));
    StepKeepsStamp(cfg, s, events[0]);
    hide Step, Outgoing, DeliveryOf, StampedAs;
    FrontIsStamped(
      out, s.pts, s.idx, Deliveries(cfg, next, events[1..]), SentFrames(cfg, next, events[1..]),
      SentPlaces(cfg, next, events[1..]));
  }

  lemma {:induction false} DeliveriesAreStamped(cfg: Config, s: State, events: seq<Event>)
    requires StampFits(s)
    ensures StampedAs(Deliveries(cfg, s, events), SentFrames(cfg, s, events), SentPlaces(cfg, s, events))
    decreases |events|
  {
    if events != [] {
      StepKeepsStamp(cfg, s, events[0]);
      hide Step, StampedAs, Deliveries, SentFrames, SentPlaces, StampFits;
      DeliveriesAreStamped(cfg, Step(cfg, s, events[0]), events[1..]);
      FirstEventIsStamped(cfg, s, events);
    }
  }

  /** Over every run the receiver's buffers are the multiplexed deliveries. */
  lemma BuffersAreDeliveries(cfg: Config, startMs: nat, now: nat, events: seq<Event>)
    ensures
      var s := Start(cfg, startMs, now);
      var (sent, ds) := (Run(cfg, s, events).sent, Deliveries(cfg, s, events));
      && Buffers(sent, []) == MuxedAll(ds)
      && (Run(cfg, s, events).ending != SendFailed ==> sent == AllPackets(cfg.ssrc, MuxedAll(ds)))
  {
    hide Step, Outgoing, MuxedBytes, AllPackets;
    var s := Start(cfg, startMs, now);
    var ds := Deliveries(cfg, s, events);
    var whole := AllPackets(cfg.ssrc, MuxedAll(ds));
    NothingSentYet(cfg, s);
    RunMatches(cfg, s, events, []);
    assert [] + ds == ds;
    BuffersOfSession(cfg.ssrc, MuxedAll(ds));
    var end := Run(cfg, s, events);
    if end.ending == SendFailed {
      var part :| end.sent == whole + part && BrokenOff(cfg.ssrc, part, |whole|);
      NoMarkerNoBuffer(part, []);
      BuffersConcat(whole, part, []);
      assert Buffers(whole, []) + [] == Buffers(whole, []);
    }
  }

  /**
   * Over every run each buffer opens with the clock and the stamps of its frame's place in its list, 3000 a frame and
   * anew after a seek, and holds a stream map exactly if the frame is a key frame; and every packet carries its own
   * number and, 3000 a frame all through the session, its frame's RTP time stamp.
   */
  lemma BuffersOpenAsSent(cfg: Config, startMs: nat, now: nat, events: seq<Event>)
    ensures
      var s := Start(cfg, startMs, now);
      var sent := Run(cfg, s, events).sent;
      var (frames, places, buffers) :=
        (SentFrames(cfg, s, events), SentPlaces(cfg, s, events), Buffers(sent, []));
      && |buffers| == |frames| == |places|
      && (forall k :: 0 <= k < |frames| ==> OpensAs(buffers[k], places[k], frames[k].isKey))
      && (Run(cfg, s, events).ending != SendFailed ==> forall i :: 0 <= i < |sent| ==> IsStamped(sent, i))
  {
    var s := Start(cfg, startMs, now);
    var ds := Deliveries(cfg, s, events);
    BuffersAreDeliveries(cfg, startMs, now, events);
    DeliveriesAreStamped(cfg, s, events);
    var (frames, places) := (SentFrames(cfg, s, events), SentPlaces(cfg, s, events));
    hide Step, Outgoing, MuxedBytes, AllPackets, OpensAs, IsStamped, Run, Deliveries, SentFrames, SentPlaces;
    forall k | 0 <= k < |ds|
      ensures OpensAs(MuxedAll(ds)[k], places[k], frames[k].isKey)
    {
      MuxedOpens(ds[k], places[k]);
    }
    forall i | 0 <= i < |AllPackets(cfg.ssrc, MuxedAll(ds))|
      ensures IsStamped(AllPackets(cfg.ssrc, MuxedAll(ds)), i)
    {
      PacketsAreStamped(cfg.ssrc, MuxedAll(ds), i);
    }
  }

  // --- Pacing ---

  lemma DelayReaches(offset: nat, speed: real, ms: int)
    requires speed > 0.0 && offset as real < 18_446_744_073_709_551_616.0 * speed
    ensures Delay(offset, speed) >= ms <==> ms <= 0 || offset as real >= ms as real * speed
  {
    var x := offset as real / speed;
    assert x * speed == offset as real;
    ScaledOrder(0.0, x, speed);
    ScaledOrder(ms as real, x, speed);
    ScaledOrder(18_446_744_073_709_551_616.0, x, speed);
    FloorReaches(x, ms);
    FloorReaches(x, 0);
    FloorReaches(x, 18_446_744_073_709_551_616);
  }

  lemma FloorReaches(x: real, n: int)
    ensures x.Floor >= n <==> x >= n as real
  {
  }

  lemma ScaledOrder(a: real, b: real, speed: real)
    requires speed > 0.0
    ensures a <= b <==> a * speed <= b * speed
  {
    assert (b - a) * speed == b * speed - a * speed;
    if a <= b {
      assert (b - a) * speed >= 0.0;
    } else {
      assert (a - b) * speed > 0.0;
    }
  }

  lemma DelayExtremes(offset: nat, speed: real)
    ensures speed > 0.0 && offset as real >= 18_446_744_073_709_551_616.0 * speed ==>
      Delay(offset, speed) == 0xFFFF_FFFF_FFFF_FFFF
    ensures speed == 0.0 && offset > 0 ==> Delay(offset, speed) == 0xFFFF_FFFF_FFFF_FFFF
    ensures speed < 0.0 || offset == 0 ==> Delay(offset, speed) == 0
  {
    if speed > 0.0 {
      var x := offset as real / speed;
      assert x * speed == offset as real;
      ScaledOrder(18_446_744_073_709_551_616.0, x, speed);
      if offset == 0 {
        assert 0.0 / speed == 0.0;
      }
    }
  }

  /**
   * So long after the anchor a frame so far behind its base is not yet due: the offset reaches into the next
   * millisecond at this speed. Saturated delays end after 2^64 - 1 milliseconds; a negative speed, or none with no
   * offset, delays nothing.
   */
  predicate NotYetDue(offset: nat, speed: real, waited: int) {
    if speed > 0.0 && offset as real < 18_446_744_073_709_551_616.0 * speed then
      offset as real >= (waited + 1) as real * speed
    else if speed > 0.0 || (speed == 0.0 && offset > 0) then waited < 0xFFFF_FFFF_FFFF_FFFF
    else waited < 0
  }

  lemma NotYetDueIsDelay(offset: nat, speed: real, waited: int)
    ensures NotYetDue(offset, speed, waited) <==> Delay(offset, speed) > waited
  {
    hide Delay;
    if speed > 0.0 && offset as real < 18_446_744_073_709_551_616.0 * speed {
      DelayReaches(offset, speed, waited + 1);
      if waited + 1 <= 0 {
        assert (waited + 1) as real * speed <= 0.0;
      }
    } else {
      DelayExtremes(offset, speed);
    }
  }

  /**
   * What a paced turn does with a frame not before its base: a command is acted on exactly if the channel is open and
   * the frame, at the session's speed, not yet due; the channel is seen to close then only; in all other cases the
   * frame goes out.
   */
  lemma PacedTurn(cfg: Config, s: State, e: Event)
    requires cfg.paced && s.ending == Running && !s.paused && s.idx < |s.frames|
    requires s.baseMs.Some? ==> s.baseMs.value <= s.frames[s.idx].absMs
    ensures
      var frame := s.frames[s.idx];
      var base := if s.baseMs.Some? then s.baseMs.value else frame.absMs;
      var ready := s.(baseMs := Some(base));
      var early := s.controlOpen && NotYetDue(frame.absMs - base, s.speed, e.now - s.pacingBase);
      Step(cfg, s, e) ==
        match e.heard
        case Command(control, at) => if early then Apply(cfg, ready, control, at) else Send(cfg, ready, e.failing)
        case Closed => Send(cfg, ready.(controlOpen := s.controlOpen && !early), e.failing)
        case Silence => Send(cfg, ready, e.failing)
  {
    ListensEarly(cfg, s, e.now);
    hide Delay, NotYetDue, Send, Apply, Listens;
  }

  lemma ListensEarly(cfg: Config, s: State, now: nat)
    requires cfg.paced && s.idx < |s.frames| && !Underflows(s)
    ensures
      var frame := s.frames[s.idx];
      var base := if s.baseMs.Some? then s.baseMs.value else frame.absMs;
      Listens(cfg, s, now) <==> s.controlOpen && NotYetDue(frame.absMs - base, s.speed, now - s.pacingBase)
  {
    NotYetDueIsDelay(s.frames[s.idx].absMs - Base(s), s.speed, now - s.pacingBase);
    hide Delay, NotYetDue;
  }

  /** A download acts on a command whenever one is there, and else sends. */
  lemma DownloadTurn(cfg: Config, s: State, e: Event)
    requires !cfg.paced && s.ending == Running && !s.paused && s.idx < |s.frames|
    requires s.baseMs.Some? ==> s.baseMs.value <= s.frames[s.idx].absMs
    ensures
      var base := if s.baseMs.Some? then s.baseMs.value else s.frames[s.idx].absMs;
      var ready := s.(baseMs := Some(base));
      Step(cfg, s, e) ==
        if e.heard.Command? then Apply(cfg, ready, e.heard.control, e.heard.at) else Send(cfg, ready, e.failing)
  {
    hide Send, Apply;
  }

  /** The commands a run acts on, each with the time it was heard. */
  function Acted(cfg: Config, s: State, events: seq<Event>): seq<(Control, nat)>
    decreases |events|
  {
    if events == [] then []
    else
      (match Heeded(cfg, s, events[0])
       case Some(control) => [(control, events[0].heard.at)]
       case None => [])
      + Acted(cfg, Step(cfg, s, events[0]), events[1..])
  }

  /** The speed last asked for. */
  function SpeedOf(commands: seq<(Control, nat)>, before: real): real {
    if commands == [] then before
    else
      match commands[|commands| - 1].0
      case Play(_, Some(v)) => v
      case _ => SpeedOf(commands[..|commands| - 1], before)
  }

  /** The time of the last Play. */
  function AnchorOf(commands: seq<(Control, nat)>, before: nat): nat {
    if commands == [] then before
    else
      match commands[|commands| - 1].0
      case Play(_, _) => commands[|commands| - 1].1
      case Pause => AnchorOf(commands[..|commands| - 1], before)
  }

  /** Whether the last command is a Pause. */
  function PausedBy(commands: seq<(Control, nat)>, before: bool): bool {
    if commands == [] then before else commands[|commands| - 1].0.Pause?
  }

  lemma {:induction false} OneCommandEarlier(c: (Control, nat), later: seq<(Control, nat)>, v: real, at: nat, p: bool)
    ensures SpeedOf([c] + later, v) == SpeedOf(later, match c.0 case Play(_, Some(x)) => x case _ => v)
    ensures AnchorOf([c] + later, at) == AnchorOf(later, if c.0.Play? then c.1 else at)
    ensures PausedBy([c] + later, p) == PausedBy(later, c.0.Pause?)
    decreases |later|
  {
    var all := [c] + later;
    if later == [] {
      assert all == [c] && all[..0] == [];
    } else {
      var n := |later| - 1;
      assert all[|all| - 1] == later[n] && all[..|all| - 1] == [c] + later[..n];
      OneCommandEarlier(c, later[..n], v, at, p);
    }
  }

  lemma StepObeys(cfg: Config, s: State, e: Event)
    ensures
      var next := Step(cfg, s, e);
      match Heeded(cfg, s, e)
      case None => next.speed == s.speed && next.pacingBase == s.pacingBase && next.paused == s.paused
      case Some(control) =>
        && next.speed == (match control case Play(_, Some(x)) => x case _ => s.speed)
        && next.pacingBase == (if control.Play? then e.heard.at else s.pacingBase)
        && next.paused == control.Pause? && (control.Play? ==> next.baseMs == None)
  {
    hide MuxedBytes;
  }

  /**
   * Over every run, speed, anchor and pause are those of the last commands acted on: the speed last asked for, the time
   * of the last Play, and a Pause with no Play behind it.
   */
  lemma {:induction false} CommandsRule(cfg: Config, s: State, events: seq<Event>)
    ensures Run(cfg, s, events).speed == SpeedOf(Acted(cfg, s, events), s.speed)
    ensures Run(cfg, s, events).pacingBase == AnchorOf(Acted(cfg, s, events), s.pacingBase)
    ensures Run(cfg, s, events).paused == PausedBy(Acted(cfg, s, events), s.paused)
    decreases |events|
  {
    if events != [] {
      var (e, next) := (events[0], Step(cfg, s, events[0]));
      StepObeys(cfg, s, e);
      hide Step, Heeded;
      CommandsRule(cfg, next, events[1..]);
      var later := Acted(cfg, next, events[1..]);
      match Heeded(cfg, s, e) {
        case None => assert [] + later == later;
        case Some(control) => OneCommandEarlier((control, e.heard.at), later, s.speed, s.pacingBase, s.paused);
      }
    }
  }

  /** From its start a session runs at speed 1, anchored at its start and not paused, until it is told otherwise. */
  lemma SessionObeys(cfg: Config, startMs: nat, now: nat, events: seq<Event>)
    ensures
      var s := Start(cfg, startMs, now);
      var (end, commands) := (Run(cfg, s, events), Acted(cfg, s, events));
      && end.speed == SpeedOf(commands, 1.0) && end.pacingBase == AnchorOf(commands, now)
      && end.paused == PausedBy(commands, false)
  {
    CommandsRule(cfg, Start(cfg, startMs, now), events);
    hide Run, Acted, SpeedOf, AnchorOf, PausedBy;
  }

  /** Where the frame list stood at the last Play acted on. */
  function AnchorIndex(cfg: Config, s: State, events: seq<Event>, at: nat): nat
    decreases |events|
  {
    if events == [] then at
    else
      var next := Step(cfg, s, events[0]);
      var now := match Heeded(cfg, s, events[0]) case Some(Play(_, _)) => next.idx case _ => at;
      AnchorIndex(cfg, next, events[1..], now)
  }

  /** The base is that of the frame at this index, or still to be taken from it. */
  predicate BasedOn(s: State, at: nat) {
    match s.baseMs
    case None => s.idx == at
    case Some(base) => at < |s.frames| && base == s.frames[at].absMs
  }

  lemma StepKeepsBase(cfg: Config, s: State, e: Event, at: nat)
    requires BasedOn(s, at)
    ensures
      var next := Step(cfg, s, e);
      BasedOn(next, match Heeded(cfg, s, e) case Some(Play(_, _)) => next.idx case _ => at)
  {
    hide MuxedBytes, Selected;
  }

  lemma StepKeepsChannel(cfg: Config, s: State, e: Event)
    ensures s.controlOpen && !e.heard.Closed? ==> Step(cfg, s, e).controlOpen
  {
    hide MuxedBytes, Selected;
  }

  lemma {:induction false} RunKeepsBase(cfg: Config, s: State, events: seq<Event>, at: nat)
    requires BasedOn(s, at)
    ensures BasedOn(Run(cfg, s, events), AnchorIndex(cfg, s, events, at))
    decreases |events|
  {
    if events != [] {
      StepKeepsBase(cfg, s, events[0], at);
      hide Step, BasedOn, Heeded;
      var next := Step(cfg, s, events[0]);
      var now := match Heeded(cfg, s, events[0]) case Some(Play(_, _)) => next.idx case _ => at;
      RunKeepsBase(cfg, next, events[1..], now);
    }
  }

  lemma {:induction false} RunKeepsChannel(cfg: Config, s: State, events: seq<Event>)
    requires s.controlOpen && forall i :: 0 <= i < |events| ==> !events[i].heard.Closed?
    ensures Run(cfg, s, events).controlOpen
    decreases |events|
  {
    if events != [] {
      StepKeepsChannel(cfg, s, events[0]);
      hide Step;
      RunKeepsChannel(cfg, Step(cfg, s, events[0]), events[1..]);
    }
  }

  /**
   * Frames are paced against the frame that came first behind the start or behind the last Play, wherever a seek or a
   * pause left the list; and the control channel stays open while nobody closes it.
   */
  lemma SessionIsPacedFromPlay(cfg: Config, startMs: nat, now: nat, events: seq<Event>)
    ensures
      var s := Start(cfg, startMs, now);
      var (end, at) := (Run(cfg, s, events), AnchorIndex(cfg, s, events, 0));
      && (end.baseMs.Some? ==> at < |end.frames| && end.baseMs.value == end.frames[at].absMs)
      && (end.baseMs.None? ==> end.idx == at)
      && ((forall i :: 0 <= i < |events| ==> !events[i].heard.Closed?) ==> end.controlOpen)
  {
    var s := Start(cfg, startMs, now);
    RunKeepsBase(cfg, s, events, 0);
    if forall i :: 0 <= i < |events| ==> !events[i].heard.Closed? {
      RunKeepsChannel(cfg, s, events);
    }
    hide Run, AnchorIndex;
  }

  /** While paused a turn does nothing but act on a command, or stop when the channel closes. */
  lemma PausedTurn(cfg: Config, s: State, e: Event)
    requires s.ending == Running && s.paused
    ensures
      Step(cfg, s, e) ==
        match e.heard
        case Command(control, at) => Apply(cfg, s, control, at)
        case Closed => s.(ending := Stopped)
        case Silence => s
  {
  }

  // --- When a run can go wrong, and when it completes ---

  const NO_NEWS := Event(0, Silence, None)

  function Quiet(n: nat): seq<Event> {
    if n == 0 then [] else [NO_NEWS] + Quiet(n - 1)
  }

  lemma QuietStep(cfg: Config, from: nat, s: State)
    requires AllOrdered(cfg) && Sound(cfg, from, s) && s.ending == Running && !s.paused && s.idx < |s.frames|
    ensures
      var next := Step(cfg, s, NO_NEWS);
      && Sound(cfg, from, next) && next.ending == Running && !next.paused
      && next.frames == s.frames && next.idx == s.idx + 1
      && Outgoing(cfg, s, NO_NEWS) == Some(s.frames[s.idx])
  {
    hide MuxedBytes;
    StepKeepsSound(cfg, from, s, NO_NEWS);
    SendSteps(cfg, Anchored(s), None);
  }

  lemma QuietEnd(cfg: Config, s: State)
    requires s.ending == Running && !s.paused && s.idx == |s.frames|
    ensures
      var next := Step(cfg, s, NO_NEWS);
      && next.ending == Finished && next.mediaEnds == s.mediaEnds + (if cfg.reportsEnd then 1 else 0)
      && Outgoing(cfg, s, NO_NEWS) == None
  {
  }

  /** Left alone, with every packet going out, a session plays its whole list and reports its end. */
  lemma {:induction false} UndisturbedSessionCompletes(cfg: Config, from: nat, s: State)
    requires AllOrdered(cfg) && Sound(cfg, from, s) && s.ending == Running && !s.paused
    ensures
      var events := Quiet(|s.frames| - s.idx + 1);
      && SentFrames(cfg, s, events) == s.frames[s.idx..]
      && Run(cfg, s, events).ending == Finished
      && Run(cfg, s, events).mediaEnds == if cfg.reportsEnd then 1 else 0
    decreases |s.frames| - s.idx
  {
    hide Step, Outgoing;
    var events := Quiet(|s.frames| - s.idx + 1);
    assert events[0] == NO_NEWS && events[1..] == Quiet(|s.frames| - s.idx);
    var next := Step(cfg, s, NO_NEWS);
    if s.idx < |s.frames| {
      QuietStep(cfg, from, s);
      UndisturbedSessionCompletes(cfg, from, next);
      assert [s.frames[s.idx]] + s.frames[s.idx + 1..] == s.frames[s.idx..];
    } else {
      QuietEnd(cfg, s);
      assert events[1..] == [];
      assert [] + [] == s.frames[s.idx..];
    }
  }

  /**
   * Up to and including index k the frames are in order, and the session plays them at its first
   * speed from its first base, on a clock that stands still.
   */
  predicate Climbing(s: State, k: nat) {
    && s.ending == Running && !s.paused && s.idx <= k < |s.frames|
    && TimeOrdered(s.frames[..k + 1])
    && s.speed == 1.0 && s.controlOpen && s.pacingBase == 0
    && (s.baseMs == None || s.baseMs == Some(s.frames[0].absMs))
    && (s.baseMs == None ==> s.idx == 0)
    && !Underflows(s)
  }

  lemma ClimbStep(cfg: Config, s: State, k: nat)
    requires Climbing(s, k) && s.idx < k
    ensures
      var next := Step(cfg, s, NO_NEWS);
      Climbing(next, k) && next.frames == s.frames && next.idx == s.idx + 1
  {
    hide MuxedBytes;
    SendSteps(cfg, Anchored(s), None);
    assert s.frames[..k + 1][s.idx] == s.frames[s.idx];
    assert s.frames[..k + 1][s.idx + 1] == s.frames[s.idx + 1];
  }

  lemma {:induction false} Climb(cfg: Config, s: State, k: nat)
    requires Climbing(s, k)
    ensures
      var end := Run(cfg, s, Quiet(k - s.idx));
      Climbing(end, k) && end.frames == s.frames && end.idx == k
    decreases k - s.idx
  {
    hide Step;
    if s.idx < k {
      ClimbStep(cfg, s, k);
      Climb(cfg, Step(cfg, s, NO_NEWS), k);
      assert Quiet(k - s.idx)[1..] == Quiet(k - s.idx - 1);
    }
  }

  const RESUME := Event(0, Command(Play(None, None), 0), None)

  /** From here the frame at hand goes out and the next one lies before its base. */
  lemma NextUnderflows(cfg: Config, s: State)
    requires s.ending == Running && !s.paused && s.idx + 1 < |s.frames| && !Underflows(s)
    requires s.frames[s.idx + 1].absMs < Base(s)
    ensures Step(cfg, Step(cfg, s, NO_NEWS), NO_NEWS).ending == Underflow
  {
    hide MuxedBytes;
    SendSteps(cfg, Anchored(s), None);
  }

  /** At speed 1 a frame behind the base is due later than the base. */
  lemma DueBehindBase(s: State)
    requires s.idx < |s.frames| && s.speed == 1.0 && Base(s) < s.frames[s.idx].absMs
    ensures Due(s) > s.pacingBase
  {
    var offset := s.frames[s.idx].absMs - Base(s);
    assert offset as real / 1.0 == offset as real;
    assert (offset as real).Floor == offset;
  }

  /**
   * Where the next frame precedes the one at hand, it either precedes the base already, or the one
   * at hand is not due yet: then the task listens, and a Play makes the frame at hand the base.
   */
  lemma DescentUnderflows(cfg: Config, s: State) returns (events: seq<Event>)
    requires s.idx + 1 < |s.frames| && Climbing(s, s.idx)
    requires s.frames[s.idx].absMs > s.frames[s.idx + 1].absMs
    ensures Run(cfg, s, events).ending == Underflow
  {
    if s.frames[s.idx + 1].absMs < Base(s) {
      events := [NO_NEWS, NO_NEWS, NO_NEWS];
      NextUnderflows(cfg, s);
    } else {
      events := [RESUME, NO_NEWS, NO_NEWS];
      DueBehindBase(s);
      assert Listens(cfg, s, 0);
      NextUnderflows(cfg, Step(cfg, s, RESUME));
    }
    RunThree(cfg, s, events[0], events[1], events[2]);
  }

  lemma RunThree(cfg: Config, s: State, a: Event, b: Event, c: Event)
    ensures Run(cfg, s, [a, b, c]) == Step(cfg, Step(cfg, Step(cfg, s, a), b), c)
  {
    hide Step;
    assert [a, b, c][1..] == [b, c] && [b, c][1..] == [c] && [c][1..] == [];
    var s1 := Step(cfg, s, a);
    assert Run(cfg, s, [a, b, c]) == Run(cfg, s1, [b, c]);
    var s2 := Step(cfg, s1, b);
    assert Run(cfg, s1, [b, c]) == Run(cfg, s2, [c]);
    assert Run(cfg, s2, [c]) == Run(cfg, Step(cfg, s2, c), []);
  }

  /** A list out of order has a first frame that the next one precedes. */
  lemma {:induction false} FirstDescent(frames: seq<Frame>, n: nat) returns (k: nat)
    requires n <= |frames| && TimeOrdered(frames[..n]) && !TimeOrdered(frames)
    ensures k + 1 < |frames| && TimeOrdered(frames[..k + 1]) && frames[k].absMs > frames[k + 1].absMs
    decreases |frames| - n
  {
    assert frames[..|frames|] == frames;
    if n > 0 && frames[n].absMs < frames[n - 1].absMs {
      k := n - 1;
    } else {
      var longer := frames[..n + 1];
      forall i, j | 0 <= i < j < |longer|
        ensures longer[i].absMs <= longer[j].absMs
      {
        assert longer[i] == frames[..n][i];
        assert j < n ==> longer[j] == frames[..n][j];
        assert frames[..n][i].absMs <= frames[..n][n - 1].absMs;
      }
      k := FirstDescent(frames, n + 1);
    }
  }

  ghost predicate NeverUnderflows(cfg: Config) {
    forall startMs: nat, now: nat, events: seq<Event> ::
      Run(cfg, Start(cfg, startMs, now), events).ending != Underflow
  }

  /**
   * The pacing subtraction is safe over all runs, paced or not, seeks and resumes included, if and
   * only if every frame list the recordings can yield is in time order.
   */
  lemma SafeIffOrdered(cfg: Config)
    ensures NeverUnderflows(cfg) <==> AllOrdered(cfg)
  {
    if AllOrdered(cfg) {
      OrderedSessionsAreSafe(cfg);
    } else {
      var from: nat :| !TimeOrdered(Selected(cfg.recs, from, cfg.endMs));
      var events := DisorderUnderflows(cfg, from);
    }
  }

  lemma DisorderUnderflows(cfg: Config, from: nat) returns (events: seq<Event>)
    requires !TimeOrdered(Selected(cfg.recs, from, cfg.endMs))
    ensures Run(cfg, Start(cfg, from, 0), events).ending == Underflow
  {
    hide Step, Selected, Quiet, Run;
    var s := Start(cfg, from, 0);
    var k := FirstDescent(s.frames, 0);
    Climb(cfg, s, k);
    var tail := DescentUnderflows(cfg, Run(cfg, s, Quiet(k)));
    RunAppend(cfg, s, Quiet(k), tail);
    events := Quiet(k) + tail;
  }

  lemma OrderedSessionsAreSafe(cfg: Config)
    requires AllOrdered(cfg)
    ensures NeverUnderflows(cfg)
  {
    forall startMs: nat, now: nat, events: seq<Event>
      ensures Run(cfg, Start(cfg, startMs, now), events).ending != Underflow
    {
      StartIsSound(cfg, startMs, now);
      RunKeepsSound(cfg, startMs, Start(cfg, startMs, now), events);
    }
  }

  /** Well-kept recordings yield ordered lists only, so their sessions are safe, paced or not. */
  lemma WellRecordedSessionsAreSafe(cfg: Config)
    requires WellRecorded(cfg.recs)
    ensures AllOrdered(cfg) && NeverUnderflows(cfg)
  {
    forall from: nat
      ensures TimeOrdered(Selected(cfg.recs, from, cfg.endMs))
    {
      FramesOrdered(cfg.recs, from, cfg.endMs);
    }
    OrderedSessionsAreSafe(cfg);
  }
}
