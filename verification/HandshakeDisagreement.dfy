/** Whole runs, from the first challenge on, at whose end device and platform hold different keys. */
module HandshakeDisagreement {
  import opened Results
  import opened Headers
  import opened Crypto
  import opened PlatformSide
  import opened Handshake
  import opened HandshakeRuns
  import D = DeviceSide

  /** The exchange that one answer of the device opens. */
  function JobOf(setup: Setup, w: World, opts: D.Options, x: Draws): Job {
    Job(opts.deviceId, SentText(setup, opts, x), Sent(setup, opts, x), opts.key, |Issued(w, opts.deviceId)|)
  }

  /** A matched device has answered the pending challenge of a session with nothing cached. */
  ghost predicate Answered(setup: Setup, w: World, opts: D.Options, announced: Option<Key>, x: Draws) {
    && opts.deviceId in w.sessions
    && var s := w.sessions[opts.deviceId];
      && s.mode == Some(setup.platform.mode) && s.random1 == x.random1 && s.lastAuth == ""
      && (announced.Some? ==> s.announced == announced)
      && Signature(opts.key, D.AuthPayload(opts, Posed(setup, x), x.random2), x.sign1) in w.lib.signatures
  }

  lemma AnsweredIsAcceptable(setup: Setup, w: World, opts: D.Options, announced: Option<Key>, x: Draws)
    requires Matched(setup, opts, announced) && Quotable(x) && Answered(setup, w, opts, announced, x)
    ensures Acceptable(setup, w, JobOf(setup, w, opts, x))
  {
    hide Judge, SentText, Quotable, BuildSecurityInfo;
    MatchedAuthorizationIsAccepted(setup, opts, announced, x, w.lib, w.sessions[opts.deviceId]);
  }

  // --- The challenge and its answers ---

  function Asked(setup: Setup, device: string, announced: Option<Key>, x: Draws): Event
    requires device in setup.devices
  {
    Event.Challenge(setup.devices[device].deviceId, x.random1, announced)
  }

  function Said(setup: Setup, device: string, x: Draws): Event {
    Answer(device, BuildChallenge(setup.platform.mode, x.random1), x.random2, x.sign1)
  }

  /** The world a device's answer leads to is ready for its REGISTER. */
  lemma OneAnswer(setup: Setup, device: string, announced: Option<Key>, x: Draws) returns (w: World)
    requires device in setup.devices && Matched(setup, setup.devices[device], announced) && Quotable(x)
    ensures
      var events := [Asked(setup, device, announced, x), Said(setup, device, x)];
      Legal(setup, EMPTY, events) && w == Run(setup, EMPTY, events)
    ensures Answered(setup, w, setup.devices[device], announced, x)
    ensures w.states == map[device := D.Answering(D.INITIAL, Posed(setup, x), x.random2)]
    ensures w.pending == map[] && w.jobs == map[] && w.lib.envelopes == map[] && w.completed == []
  {
    hide BuildChallenge, D.AuthPayload, Quotable, Legal, Run, Enabled;
    var e1, e2 := Asked(setup, device, announced, x), Said(setup, device, x);
    w := DeviceAnswers(setup, EMPTY, device, announced, x);
    RunsOfTwo(setup, EMPTY, e1, e2);
  }

  // --- The device takes the answer to the first completion ---

  function First(x: Draws): Sealed {
    Sealed(x.vkek, x.cryptKey, x.sign2)
  }

  /** However often the platform completed since, the first answer still opens. */
  lemma FirstAnswerIsTaken(
    setup: Setup, w: World, v: World, device: string, announced: Option<Key>, x: Draws, call: nat)
    requires device in setup.devices && Matched(setup, setup.devices[device], announced) && Quotable(x)
    requires device in v.states && call !in v.pending
    requires
      var st := v.states[device];
      st.mode.Some? && st.random1 == x.random1 && st.random2 == x.random2
    requires Open(v.lib, setup.devices[device].key, x.cryptKey) == Some(x.vkek)
    requires IsLogged(setup, v.lib, CompletionOf(JobOf(setup, w, setup.devices[device], x), First(x)))
    ensures Legal(setup, v, Confirming(setup, device, x, call))
    ensures
      var u := Run(setup, v, Confirming(setup, device, x, call));
      u.sessions == v.sessions && device in u.states && u.states[device].vkek == Some(x.vkek)
  {
    hide SentText, Quotable, Sign2Payload, Open;
    DeviceConfirms(setup, v, device, announced, x, call);
  }

  /** Both ends' keys at the end: the device's and the one in the platform's session. */
  predicate Hold(setup: Setup, w: World, device: string, theirs: string, ours: string)
    requires device in setup.devices
  {
    && device in w.states && w.states[device].vkek == Some(theirs)
    && setup.devices[device].deviceId in w.sessions
    && w.sessions[setup.devices[device].deviceId].vkek == Some(ours)
  }

  // --- Two copies at once ---

  function Race(setup: Setup, device: string, x: Draws, vkek: string, cryptKey: string): seq<Event>
    requires device in setup.devices
  {
    var (id, text) := (setup.devices[device].deviceId, SentText(setup, setup.devices[device], x));
    [Begin(1, id, text), Begin(2, id, text), Finish(1, x.vkek, x.cryptKey, x.sign2),
     Finish(2, vkek, cryptKey, x.sign2)]
  }

  function RacedSession(
    setup: Setup, device: string, announced: Option<Key>, x: Draws, vkek: string, cryptKey: string): seq<Event>
    requires device in setup.devices
  {
    [Asked(setup, device, announced, x), Said(setup, device, x)] + Race(setup, device, x, vkek, cryptKey)
    + Confirming(setup, device, x, 0)
  }

  /**
   * From the very start: one challenge, one answer, its REGISTER twice at once, and the device takes the answer to
   * the first copy. It then holds the first key and the platform the second.
   */
  lemma RaceLeavesTwoKeys(
    setup: Setup, device: string, announced: Option<Key>, x: Draws, vkek: string, cryptKey: string)
    requires KeysApart(setup)
    requires device in setup.devices && Matched(setup, setup.devices[device], announced) && Quotable(x)
    requires cryptKey != x.cryptKey
    ensures Reachable(setup, RacedSession(setup, device, announced, x, vkek, cryptKey))
    ensures
      var v := Run(setup, EMPTY, RacedSession(setup, device, announced, x, vkek, cryptKey));
      Hold(setup, v, device, x.vkek, vkek)
  {
    hide SentText, Quotable, Sign2Payload, Open, Judge, Inv, Legal, Run, Matched, Verifies, BuildChallenge;
    var opts := setup.devices[device];
    var opening := [Asked(setup, device, announced, x), Said(setup, device, x)];
    var w := OneAnswer(setup, device, announced, x);
    ReachableKeepsInv(setup, opening);
    AnsweredIsAcceptable(setup, w, opts, announced, x);
    RacingCopiesDisagree(
      setup, w, opts.deviceId, SentText(setup, opts, x), Sent(setup, opts, x), opts.key, 1, 2, x.vkek, vkek,
      x.cryptKey, cryptKey, x.sign2);
    var race := Race(setup, device, x, vkek, cryptKey);
    var v := Run(setup, w, race);
    FirstAnswerIsTaken(setup, w, v, device, announced, x, 0);
    RunAppend(setup, EMPTY, opening, race);
    RunAppend(setup, EMPTY, opening + race, Confirming(setup, device, x, 0));
  }

  // --- Two answers in turns ---

  /** A second answer to the same challenge comes before the one the device means. */
  lemma TwoAnswers(setup: Setup, device: string, announced: Option<Key>, other: Draws, x: Draws) returns (w: World)
    requires device in setup.devices && Matched(setup, setup.devices[device], announced)
    requires Quotable(other) && Quotable(x) && other.random1 == x.random1
    ensures
      var events := [Asked(setup, device, announced, x), Said(setup, device, other)] + [Said(setup, device, x)];
      Legal(setup, EMPTY, events) && w == Run(setup, EMPTY, events)
    ensures Answered(setup, w, setup.devices[device], announced, x)
    ensures Answered(setup, w, setup.devices[device], announced, other)
    ensures
      && device in w.states && w.states[device].mode.Some?
      && w.states[device].random1 == x.random1 && w.states[device].random2 == x.random2
    ensures w.pending == map[] && w.jobs == map[] && w.lib.envelopes == map[] && w.completed == []
  {
    hide BuildChallenge, D.AuthPayload, Legal, Run;
    var w1 := OneAnswer(setup, device, announced, other);
    var opening := [Asked(setup, device, announced, x), Said(setup, device, other)];
    w := AnsweredWorld(setup, w1, device, x);
    hide Step;
    OneLater(setup, opening, Said(setup, device, x));
  }

  lemma OneLater(setup: Setup, events: seq<Event>, e: Event)
    requires Legal(setup, EMPTY, events) && Enabled(setup, Run(setup, EMPTY, events), e)
    ensures Legal(setup, EMPTY, events + [e])
    ensures Run(setup, EMPTY, events + [e]) == Step(setup, Run(setup, EMPTY, events), e)
  {
    var w := Run(setup, EMPTY, events);
    assert Legal(setup, Step(setup, w, e), []) && Run(setup, Step(setup, w, e), []) == Step(setup, w, e);
    hide Step, Enabled, Legal, Run;
    RunOfOne(setup, w, e, []);
    assert [e] + [] == [e];
    RunAppend(setup, EMPTY, events, [e]);
  }

  lemma AnswersDiffer(setup: Setup, opts: D.Options, announced: Option<Key>, x: Draws, other: Draws)
    requires Matched(setup, opts, announced) && Quotable(x) && Quotable(other) && x.random2 != other.random2
    ensures SentText(setup, opts, x) != SentText(setup, opts, other)
  {
    AuthorizationRoundTrip(Posed(setup, x), x.random2, opts.serverId, opts.deviceId, x.sign1);
    AuthorizationRoundTrip(Posed(setup, other), other.random2, opts.serverId, opts.deviceId, other.sign1);
    hide ParseAuthorization, BuildAuthorization, IsWord;
    assert Sent(setup, opts, x).random2 != Sent(setup, opts, other).random2;
  }

  /** Which challenge the jobs answer plays no part in what is sent. */
  function Turns(setup: Setup, device: string, x: Draws, other: Draws, last: Sealed): seq<Event>
    requires device in setup.devices
  {
    var opts := setup.devices[device];
    Alternation(
      1, JobOf(setup, EMPTY, opts, x), JobOf(setup, EMPTY, opts, other), First(x), First(other), last)
  }

  lemma TurnsInAnyWorld(setup: Setup, device: string, w: World, x: Draws, other: Draws, last: Sealed)
    requires device in setup.devices
    ensures
      var opts := setup.devices[device];
      Turns(setup, device, x, other, last)
      == Alternation(1, JobOf(setup, w, opts, x), JobOf(setup, w, opts, other), First(x), First(other), last)
  {
    hide SentText;
  }

  function AlternatingSession(
    setup: Setup, device: string, announced: Option<Key>, x: Draws, other: Draws, last: Sealed): seq<Event>
    requires device in setup.devices
  {
    [Asked(setup, device, announced, x), Said(setup, device, other)] + [Said(setup, device, x)]
    + Turns(setup, device, x, other, last) + Confirming(setup, device, x, 0)
  }

  /**
   * From the very start, no call overlapping another: one challenge, two answers, their REGISTERs in the order first,
   * second, first, and the device takes the answer to the first round. It then holds the first key and the platform
   * the third.
   */
  lemma TurnsLeaveTwoKeys(
    setup: Setup, device: string, announced: Option<Key>, x: Draws, other: Draws, last: Sealed)
    requires KeysApart(setup)
    requires device in setup.devices && Matched(setup, setup.devices[device], announced)
    requires Quotable(x) && Quotable(other) && other.random1 == x.random1 && other.random2 != x.random2
    requires x.cryptKey != other.cryptKey && x.cryptKey != last.cryptKey && other.cryptKey != last.cryptKey
    ensures Reachable(setup, AlternatingSession(setup, device, announced, x, other, last))
    ensures
      var v := Run(setup, EMPTY, AlternatingSession(setup, device, announced, x, other, last));
      Hold(setup, v, device, x.vkek, last.vkek)
  {
    hide SentText, Quotable, Sign2Payload, Open, Judge, Legal, Run, Matched, Verifies, BuildChallenge, Alternation;
    var opts := setup.devices[device];
    var opening := [Asked(setup, device, announced, x), Said(setup, device, other)] + [Said(setup, device, x)];
    var w := TwoAnswers(setup, device, announced, other, x);
    AnsweredIsAcceptable(setup, w, opts, announced, x);
    AnsweredIsAcceptable(setup, w, opts, announced, other);
    AnswersDiffer(setup, opts, announced, x, other);
    var (jobA, jobB) := (JobOf(setup, w, opts, x), JobOf(setup, w, opts, other));
    var turns := Turns(setup, device, x, other, last);
    TurnsInAnyWorld(setup, device, w, x, other, last);
    hide Acceptable, Turns;
    AlternatingAnswersDisagree(setup, w, 1, jobA, jobB, First(x), First(other), last);
    var v := Run(setup, w, turns);
    FirstAnswerIsTaken(setup, w, v, device, announced, x, 0);
    RunAppend(setup, EMPTY, opening, turns);
    RunAppend(setup, EMPTY, opening + turns, Confirming(setup, device, x, 0));
  }
}
