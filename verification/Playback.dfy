/**
 * The playback task of src/playback.rs as a state machine: every turn of its loop takes one look
 * at the clock and the control channel, and either applies a command, sends a frame or ends.
 */
module Playback {
  import opened Octets
  import opened Results
  import opened Frames
  import opened Rtp

  const U64_MAX := 0xFFFF_FFFF_FFFF_FFFF

  datatype Control = Pause | Play(startMs: Option<nat>, speed: Option<real>)

  /** What the control channel had to say, and when it said it. */
  datatype Heard = Command(control: Control, at: nat) | Closed | Silence

  /** One turn: the time at its start, what is heard, and which packet, if any, fails to go out. */
  datatype Event = Event(now: nat, heard: Heard, failing: Option<nat>)

  /** What stays fixed over a session. */
  datatype Config = Config(recs: seq<Recording>, endMs: nat, paced: bool, reportsEnd: bool, ssrc: u32)

  /** Stopped: the control channel closed while paused. Underflow: a frame earlier than its base. */
  datatype Ending = Running | Finished | Stopped | SendFailed | Underflow

  datatype State = State(
    frames: seq<Frame>, idx: nat, pacingBase: nat, baseMs: Option<nat>, pts: nat, speed: real, paused: bool,
    controlOpen: bool, sequenceNumber: u16, timestamp: u32,
    sent: seq<Packet>, mediaEnds: nat, ending: Ending)

  function Start(cfg: Config, startMs: nat, now: nat): State {
    State(Selected(cfg.recs, startMs, cfg.endMs), 0, now, None, 0, 1.0, false, true, 0, 0, [], 0, Running)
  }

  function Apply(cfg: Config, s: State, control: Control, now: nat): State {
    match control
    case Pause => s.(paused := true)
    case Play(startMs, speed) =>
      var resumed := s.(paused := false, speed := if speed.Some? then speed.value else s.speed,
                        pacingBase := now, baseMs := None);
      match startMs
      case None => resumed
      case Some(seek) => resumed.(frames := Selected(cfg.recs, seek, cfg.endMs), idx := 0, pts := 0)
  }

  /** `(offset as f64 / speed) as u64`: truncated, saturated, 0 for a negative speed. */
  function Delay(offset: nat, speed: real): nat {
    if speed > 0.0 then
      var ms := (offset as real / speed).Floor;
      if ms <= 0 then 0 else Min(ms, U64_MAX)
    else if speed == 0.0 && offset > 0 then U64_MAX
    else 0
  }

  function DeliveryOf(frame: Frame, pts: nat): Delivery {
    Delivery(frame.nalus, frame.isKey, pts)
  }

  /** All packets of the current frame, or those before the one that fails. */
  function Send(cfg: Config, s: State, failing: Option<nat>): State
    requires s.idx < |s.frames|
  {
    var pts := s.pts + 3000;
    var packets :=
      Packets(MuxedBytes(DeliveryOf(s.frames[s.idx], pts)), cfg.ssrc, s.sequenceNumber, s.timestamp);
    if failing.Some? && failing.value < |packets| then
      s.(pts := pts, sent := s.sent + packets[..failing.value], ending := SendFailed,
         sequenceNumber := (s.sequenceNumber + failing.value + 1) % U16_VALUES)
    else
      s.(pts := pts, sent := s.sent + packets, idx := s.idx + 1,
         sequenceNumber := (s.sequenceNumber + |packets|) % U16_VALUES,
         timestamp := (s.timestamp + TIMESTAMP_STEP) % U32_VALUES)
  }

  /** The pacing base is set by the first frame looked at since the last Play. */
  function Base(s: State): nat
    requires s.idx < |s.frames|
  {
    if s.baseMs.Some? then s.baseMs.value else s.frames[s.idx].absMs
  }

  function Anchored(s: State): State
    requires s.idx < |s.frames|
  {
    s.(baseMs := Some(Base(s)))
  }

  /** The current frame lies before its base: the unsigned difference does not exist. */
  predicate Underflows(s: State) {
    s.idx < |s.frames| && s.frames[s.idx].absMs < Base(s)
  }

  /** When the current frame is due. */
  function Due(s: State): nat
    requires s.idx < |s.frames| && !Underflows(s)
  {
    s.pacingBase + Delay(s.frames[s.idx].absMs - Base(s), s.speed)
  }

  /**
   * The task listens to the control channel before a frame: always when downloading, and only
   * while the frame is not yet due when playing back.
   */
  predicate Listens(cfg: Config, s: State, now: nat)
    requires s.idx < |s.frames| && !Underflows(s)
  {
    if cfg.paced then Due(s) > now && s.controlOpen else true
  }

  /** One turn of the loop. */
  function Step(cfg: Config, s: State, e: Event): State {
    if s.ending != Running then s
    else if s.paused then
      match e.heard
      case Command(control, at) => Apply(cfg, s, control, at)
      case Closed => s.(ending := Stopped)
      case Silence => s
    else if s.idx >= |s.frames| then
      s.(ending := Finished, mediaEnds := s.mediaEnds + if cfg.reportsEnd then 1 else 0)
    else if Underflows(s) then Anchored(s).(ending := Underflow)
    else if Listens(cfg, s, e.now) && e.heard.Command? then
      Apply(cfg, Anchored(s), e.heard.control, e.heard.at)
    else
      var closing := cfg.paced && Listens(cfg, s, e.now) && e.heard.Closed?;
      Send(cfg, if closing then Anchored(s).(controlOpen := false) else Anchored(s), e.failing)
  }

  function Run(cfg: Config, s: State, events: seq<Event>): State
    decreases |events|
  {
    if events == [] then s else Run(cfg, Step(cfg, s, events[0]), events[1..])
  }

  lemma {:induction false} RunAppend(cfg: Config, s: State, a: seq<Event>, b: seq<Event>)
    ensures Run(cfg, s, a + b) == Run(cfg, Run(cfg, s, a), b)
    decreases |a|
  {
    if a == [] {
      assert a + b == b;
    } else {
      assert (a + b)[0] == a[0] && (a + b)[1..] == a[1..] + b;
      RunAppend(cfg, Step(cfg, s, a[0]), a[1..], b);
    }
  }

  // --- The task itself ---

  class Task {
    const cfg: Config
    var frames: seq<Frame>
    var idx: nat
    var pacingBase: nat
    var baseMs: Option<nat>
    var pts: nat
    var speed: real
    var paused: bool
    var controlOpen: bool
    var sequenceNumber: u16
    var timestamp: u32
    var sent: seq<Packet>
    var mediaEnds: nat
    var ending: Ending

    ghost function View(): State
      reads this
    {
      State(frames, idx, pacingBase, baseMs, pts, speed, paused, controlOpen, sequenceNumber, timestamp,
            sent, mediaEnds, ending)
    }

    constructor (cfg: Config, startMs: nat, now: nat)
      ensures this.cfg == cfg && View() == Start(cfg, startMs, now)
    {
      this.cfg := cfg;
      idx, pacingBase, baseMs, pts, speed, paused := 0, now, None, 0, 1.0, false;
      controlOpen, sequenceNumber, timestamp := true, 0, 0;
      sent, mediaEnds, ending := [], 0, Running;
      new;
      frames := BuildFrames(cfg.recs, startMs, cfg.endMs);
    }

    method ApplyControl(control: Control, now: nat)
      modifies this
      ensures View() == Apply(cfg, old(View()), control, now)
    {
      match control {
        case Pause =>
          paused := true;
        case Play(startMs, newSpeed) =>
          paused := false;
          if newSpeed.Some? {
            speed := newSpeed.value;
          }
          if startMs.Some? {
            frames := BuildFrames(cfg.recs, startMs.value, cfg.endMs);
            idx := 0;
            pts := 0;
          }
          pacingBase := now;
          baseMs := None;
      }
    }

    /** One frame: multiplex it, cut it, send the pieces. */
    method SendFrame(failing: Option<nat>)
      requires idx < |frames|
      modifies this
      ensures View() == Send(cfg, old(View()), failing)
    {
      hide MuxedBytes;
      var frame := frames[idx];
      pts := pts + 3000;
      var psData := MuxDelivery(DeliveryOf(frame, pts));
      var failed := SendPieces(psData, failing);
      if failed {
        ending := SendFailed;
        return;
      }
      timestamp := (timestamp + TIMESTAMP_STEP) % U32_VALUES;
      idx := idx + 1;
    }

    /** The inner loop: the pieces of one frame, up to the one that fails, if any. */
    method SendPieces(psData: Bytes, failing: Option<nat>) returns (failed: bool)
      modifies this`sequenceNumber, this`sent
      ensures
        var packets := Packets(psData, cfg.ssrc, old(sequenceNumber), timestamp);
        && (failed <==> failing.Some? && failing.value < |packets|)
        && sent == old(sent) + (if failed then packets[..failing.value] else packets)
        && sequenceNumber ==
           (old(sequenceNumber) + if failed then failing.value + 1 else |packets|) % U16_VALUES
    {
      ghost var packets := Packets(psData, cfg.ssrc, sequenceNumber, timestamp);
      ghost var first := sequenceNumber;
      var chunkCount := (|psData| + MAX_RTP_PAYLOAD - 1) / MAX_RTP_PAYLOAD;
      var i, start := 0, 0;
      assert psData[0..] == psData;
      while start < |psData|
        invariant 0 <= start <= |psData| && start == Min(MAX_RTP_PAYLOAD * i, |psData|)
        invariant i <= |packets| && (failing.Some? ==> i <= failing.value)
        invariant packets[i..] == Packets(psData[start..], cfg.ssrc, first + i, timestamp)
        invariant sequenceNumber == (first + i) % U16_VALUES
        invariant sent == old(sent) + packets[..i]
        decreases |psData| - start
      {
        var end := Min(start + MAX_RTP_PAYLOAD, |psData|);
        var chunk := psData[start..end];
        var isLast := i == chunkCount - 1;
        var packet := Packet(cfg.ssrc, PS_PAYLOAD_TYPE, sequenceNumber, timestamp, chunk, isLast);
        NextPiece(psData, i, start, cfg.ssrc, first, timestamp);
        TakeOne(packets, i);
        WrapsAround(first + i);
        sequenceNumber := (sequenceNumber + 1) % U16_VALUES;
        if failing == Some(i) {
          return true;
        }
        sent := sent + [packet];
        i, start := i + 1, end;
      }
      TakenAll(psData, packets, i, cfg.ssrc, first + i, timestamp);
      return false;
    }

    /** One turn of the loop: false once the task has ended. */
    method Turn(e: Event) returns (more: bool)
      modifies this
      ensures View() == Step(cfg, old(View()), e)
      ensures more <==> ending == Running
    {
      hide MuxedBytes;
      if ending != Running {
        return false;
      }
      if paused {
        match e.heard {
          case Command(control, at) => ApplyControl(control, at);
          case Closed => ending := Stopped;
          case Silence =>
        }
        return ending == Running;
      }
      if idx >= |frames| {
        if cfg.reportsEnd {
          mediaEnds := mediaEnds + 1;
        }
        ending := Finished;
        return false;
      }
      var absMs := frames[idx].absMs;
      if baseMs.None? {
        baseMs := Some(absMs);
      }
      if absMs < baseMs.value {
        ending := Underflow;
        return false;
      }
      var offset := absMs - baseMs.value;
      var target := pacingBase + Delay(offset, speed);
      if cfg.paced {
        if target > e.now && controlOpen {
          match e.heard {
            case Command(control, at) =>
              ApplyControl(control, at);
              return true;
            case Closed => controlOpen := false;
            case Silence =>
          }
        }
      } else if e.heard.Command? {
        ApplyControl(e.heard.control, e.heard.at);
        return true;
      }
      SendFrame(e.failing);
      return ending == Running;
    }

    method RunLoop(events: seq<Event>)
      modifies this
      ensures View() == Run(cfg, old(View()), events)
    {
      var i := 0;
      assert events[0..] == events;
      while i < |events|
        invariant 0 <= i <= |events|
        invariant Run(cfg, View(), events[i..]) == Run(cfg, old(View()), events)
      {
        assert events[i..][1..] == events[i + 1..];
        var more := Turn(events[i]);
        i := i + 1;
        if !more {
          EndedStays(cfg, View(), events[i..]);
          return;
        }
      }
    }
  }

  lemma {:induction false} EndedStays(cfg: Config, s: State, events: seq<Event>)
    requires s.ending != Running
    ensures Run(cfg, s, events) == s
    decreases |events|
  {
    if events != [] {
      EndedStays(cfg, s, events[1..]);
    }
  }

  lemma TakenAll(ps: Bytes, packets: seq<Packet>, i: nat, ssrc: u32, first: nat, timestamp: u32)
    requires i <= |packets| && packets[i..] == Packets(ps[|ps|..], ssrc, first, timestamp)
    ensures i == |packets| && packets[..i] == packets
  {
  }

  lemma WrapsAround(count: nat)
    ensures (count % U16_VALUES + 1) % U16_VALUES == (count + 1) % U16_VALUES
  {
  }

  lemma TakeOne<T>(s: seq<T>, i: nat)
    requires i < |s|
    ensures s[i] == s[i..][0] && s[i + 1..] == s[i..][1..] && s[..i + 1] == s[..i] + [s[i]]
  {
  }

  /** The piece at index i is the last exactly when it ends the frame. */
  lemma NextPiece(ps: Bytes, i: nat, start: nat, ssrc: u32, first: nat, timestamp: u32)
    requires start == MAX_RTP_PAYLOAD * i < |ps|
    ensures
      var end := Min(start + MAX_RTP_PAYLOAD, |ps|);
      var isLast := i == (|ps| + MAX_RTP_PAYLOAD - 1) / MAX_RTP_PAYLOAD - 1;
      var packets := Packets(ps[start..], ssrc, first + i, timestamp);
      && packets != []
      && packets[0] == Packet(ssrc, PS_PAYLOAD_TYPE, (first + i) % U16_VALUES, timestamp, ps[start..end], isLast)
      && packets[1..] == Packets(ps[end..], ssrc, first + i + 1, timestamp)
  {
    var rest := ps[start..];
    var end := Min(start + MAX_RTP_PAYLOAD, |ps|);
    assert rest[..end - start] == ps[start..end] && rest[end - start..] == ps[end..];
  }
}
