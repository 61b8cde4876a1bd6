/**
 * The GB 35114 handshake on an open network. Devices and platform calls take their steps in any order; headers are
 * arbitrary text, so messages may be lost, repeated, reordered or made up. A `verify_register` or `verify_ok` call
 * is two steps: what it decides from the state it read, and what it writes later.
 */
module Handshake {
  import opened Results
  import opened Headers
  import opened Crypto
  import opened PlatformSide
  import D = DeviceSide

  datatype Setup = Setup(platform: Config, devices: map<string, D.Options>)

  /** A `verify_register` call between its two critical sections; epoch counts the challenges issued when it read. */
  datatype Job = Job(deviceId: string, authorization: string, auth: Authorization, cert: Key, epoch: nat)

  datatype Completion = Completion(job: Job, vkek: string, cryptKey: string, sign2: string)

  /** A SecurityInfo a device took, and the handshake state it checked it against. */
  datatype Acceptance = Acceptance(device: string, state: D.Handshake, info: SecurityInfo, vkek: string)

  datatype World = World(
    sessions: Sessions,
    jobs: map<nat, Job>,
    states: map<string, D.Handshake>,
    pending: map<nat, Acceptance>,
    lib: Library,
    issued: map<string, seq<string>>,
    completed: seq<Completion>,
    accepted: seq<Acceptance>)

  const EMPTY := World(map[], map[], map[], map[], Library({}, map[]), map[], [], [])

  datatype Event =
    | Challenge(deviceId: string, random1: string, announced: Option<Key>)
    | Begin(call: nat, deviceId: string, authorization: string)
    | Finish(call: nat, vkek: string, cryptKey: string, sign2: string)
    | Answer(device: string, header: string, random2: string, sign1: string)
    | Check(call: nat, device: string, info: string)
    | Keep(call: nat)
    | ForeignSignature(signature: Signature)
    | ForeignEnvelope(text: string, envelope: Envelope)

  function Issued(w: World, deviceId: string): seq<string> {
    if deviceId in w.issued then w.issued[deviceId] else []
  }

  function StateOf(w: World, device: string): D.Handshake {
    if device in w.states then w.states[device] else D.INITIAL
  }

  function InfoOf(setup: Setup, c: Completion): SecurityInfo {
    Respond(setup.platform, c.job.deviceId, c.job.auth, c.cryptKey, c.sign2)
  }

  function SignatureOf(setup: Setup, c: Completion): Option<Signature> {
    if c.job.auth.mode == Bidirection && setup.platform.identity.Some? then
      Some(Signature(
        setup.platform.identity.value,
        Sign2Payload(c.job.auth.random1, c.job.auth.random2, c.job.deviceId, c.cryptKey, setup.platform.order,
                     setup.platform.encoding),
        c.sign2))
    else None
  }

  function Logged(lib: Library, s: Option<Signature>): Library {
    if s.Some? then Sign(lib, s.value) else lib
  }

  /** What may happen next. Only the platform signs with its own key, and every envelope text is new. */
  predicate Enabled(setup: Setup, w: World, e: Event) {
    match e
    case Challenge(_, _, _) => true
    case Begin(call, _, _) => call !in w.jobs
    case Finish(call, _, cryptKey, _) =>
      && call in w.jobs && cryptKey !in w.lib.envelopes
      && (w.jobs[call].auth.mode == Bidirection ==> setup.platform.identity.Some?)
    case Answer(device, _, _, _) => device in setup.devices
    case Check(call, device, _) => device in setup.devices && call !in w.pending
    case Keep(call) => call in w.pending
    case ForeignSignature(s) => Some(s.key) != setup.platform.identity
    case ForeignEnvelope(text, _) => text !in w.lib.envelopes
  }

  function Step(setup: Setup, w: World, e: Event): World
    requires Enabled(setup, w, e)
  {
    match e
    case Challenge(deviceId, random1, announced) =>
      var s := Challenged(SessionOf(w.sessions, deviceId), setup.platform.mode, random1, announced);
      w.(sessions := w.sessions[deviceId := s], issued := w.issued[deviceId := Issued(w, deviceId) + [random1]])
    case Begin(call, deviceId, authorization) =>
      (match Judge(setup.platform, w.lib, deviceId, authorization, Lookup(w.sessions, deviceId))
       case Replay(_) => w
       case Reject(_) => w
       case Accept(auth, cert) =>
         w.(jobs := w.jobs[call := Job(deviceId, authorization, auth, cert, |Issued(w, deviceId)|)]))
    case Finish(call, vkek, cryptKey, sign2) =>
      var c := Completion(w.jobs[call], vkek, cryptKey, sign2);
      var s := Completed(SessionOf(w.sessions, c.job.deviceId), c.job.authorization, vkek,
                         BuildSecurityInfo(InfoOf(setup, c)));
      w.(sessions := w.sessions[c.job.deviceId := s],
         jobs := w.jobs - {call},
         lib := Logged(Seal(w.lib, cryptKey, Envelope(c.job.cert, vkek)), SignatureOf(setup, c)),
         completed := w.completed + [c])
    case Answer(device, header, random2, sign1) =>
      (match ParseChallenge(header)
       case Refused => w
       case OutOfRange => w
       case Good(ch) =>
         var opts := setup.devices[device];
         w.(states := w.states[device := D.Answering(StateOf(w, device), ch, random2)],
            lib := Sign(w.lib, Signature(opts.key, D.AuthPayload(opts, ch, random2), sign1))))
    case Check(call, device, info) =>
      (match D.OpenedInfo(setup.devices[device], w.lib, StateOf(w, device), info)
       case Refused => w
       case OutOfRange => w
       case Good((si, vkek)) => w.(pending := w.pending[call := Acceptance(device, StateOf(w, device), si, vkek)]))
    case Keep(call) =>
      var a := w.pending[call];
      w.(states := w.states[a.device := StateOf(w, a.device).(vkek := Some(a.vkek))],
         pending := w.pending - {call},
         accepted := w.accepted + [a])
    case ForeignSignature(s) => w.(lib := Sign(w.lib, s))
    case ForeignEnvelope(text, envelope) => w.(lib := Seal(w.lib, text, envelope))
  }

  predicate Legal(setup: Setup, w: World, events: seq<Event>)
    decreases |events|
  {
    events == [] || (Enabled(setup, w, events[0]) && Legal(setup, Step(setup, w, events[0]), events[1..]))
  }

  function Run(setup: Setup, w: World, events: seq<Event>): World
    requires Legal(setup, w, events)
    decreases |events|
  {
    if events == [] then w else Run(setup, Step(setup, w, events[0]), events[1..])
  }

  /** Devices do not hold the platform's key. */
  predicate KeysApart(setup: Setup) {
    forall d :: d in setup.devices ==> Some(setup.devices[d].key) != setup.platform.identity
  }

  // --- What every reachable world keeps ---

  function LastCompletion(completed: seq<Completion>, deviceId: string): Option<Completion> {
    if completed == [] then None
    else
      var c := completed[|completed| - 1];
      if c.job.deviceId == deviceId then Some(c) else LastCompletion(completed[..|completed| - 1], deviceId)
  }

  function KeyOf(c: Option<Completion>): Option<string> {
    match c
    case None => None
    case Some(c) => Some(c.vkek)
  }

  /** An accepted Authorization answers an issued challenge with a valid signature for this server. */
  predicate GoodJob(setup: Setup, w: World, j: Job) {
    && j.authorization != ""
    && ParseAuthorization(j.authorization) == Good(j.auth)
    && j.auth.serverId == setup.platform.serverId
    && (j.auth.deviceId == "" || j.auth.deviceId == j.deviceId)
    && j.auth.mode == setup.platform.mode
    && 0 < j.epoch <= |Issued(w, j.deviceId)| && j.auth.random1 == Issued(w, j.deviceId)[j.epoch - 1]
    && (j.epoch == |Issued(w, j.deviceId)| ==>
          CertOf(setup.platform, SessionOf(w.sessions, j.deviceId), j.deviceId) == Some(j.cert))
    && Verifies(w.lib, j.cert,
                SignAuthPayload(j.auth.random1, j.auth.random2, j.auth.serverId, setup.platform.encoding),
                j.auth.sign1)
  }

  predicate GoodCompletion(setup: Setup, w: World, c: Completion) {
    && GoodJob(setup, w, c.job)
    && c.cryptKey in w.lib.envelopes && w.lib.envelopes[c.cryptKey] == Envelope(c.job.cert, c.vkek)
    && (c.job.auth.mode == Bidirection ==>
          SignatureOf(setup, c).Some? && SignatureOf(setup, c).value in w.lib.signatures)
  }

  /** The session holds the key of the latest completion, and its cached answer is the one that sealed it. */
  predicate Fits(setup: Setup, s: Session, issued: seq<string>, last: Option<Completion>) {
    && issued != [] && s.random1 == issued[|issued| - 1]
    && s.mode == Some(setup.platform.mode)
    && s.vkek == KeyOf(last)
    && (s.lastAuth == "" <==> s.lastInfo == "")
    && (s.lastAuth != "" ==>
        && last.Some? && s.lastAuth == last.value.job.authorization
        && s.lastInfo == BuildSecurityInfo(InfoOf(setup, last.value)))
  }

  predicate GoodSession(setup: Setup, w: World, deviceId: string)
    requires deviceId in w.sessions
  {
    Fits(setup, w.sessions[deviceId], Issued(w, deviceId), LastCompletion(w.completed, deviceId))
  }

  /** A signature by the platform's key belongs to a completion. */
  predicate FromCompletion(setup: Setup, w: World, s: Signature) {
    exists i :: 0 <= i < |w.completed| && SignatureOf(setup, w.completed[i]) == Some(s)
  }

  predicate GoodAcceptance(setup: Setup, w: World, a: Acceptance) {
    && a.device in setup.devices
    && var opts := setup.devices[a.device];
      && Open(w.lib, opts.key, a.info.cryptKey) == Some(a.vkek)
      && (a.info.mode == Bidirection ==> D.Vouched(opts, w.lib, a.state, a.info))
  }

  ghost predicate Inv(setup: Setup, w: World) {
    && (forall k :: k in w.jobs ==> GoodJob(setup, w, w.jobs[k]) && w.jobs[k].deviceId in w.sessions)
    && (forall i :: 0 <= i < |w.completed| ==>
          GoodCompletion(setup, w, w.completed[i]) && w.completed[i].job.deviceId in w.sessions)
    && (forall d :: d in w.sessions ==> GoodSession(setup, w, d))
    && (forall d :: d !in w.sessions ==> Issued(w, d) == [])
    && (forall s :: s in w.lib.signatures && Some(s.key) == setup.platform.identity ==> FromCompletion(setup, w, s))
    && (forall k :: k in w.pending ==> GoodAcceptance(setup, w, w.pending[k]))
    && (forall i :: 0 <= i < |w.accepted| ==> GoodAcceptance(setup, w, w.accepted[i]))
  }

  /** Later worlds issue more challenges, log more signatures and envelopes, and change none. */
  ghost predicate Grows(w: World, v: World) {
    && (forall d :: Issued(w, d) <= Issued(v, d))
    && w.lib.signatures <= v.lib.signatures
    && (forall t :: t in w.lib.envelopes ==> t in v.lib.envelopes && v.lib.envelopes[t] == w.lib.envelopes[t])
    && w.completed <= v.completed
    && w.accepted <= v.accepted
    && w.sessions.Keys <= v.sessions.Keys
    && (forall d :: Issued(w, d) == Issued(v, d) ==>
          SessionOf(w.sessions, d).announced == SessionOf(v.sessions, d).announced)
  }

  lemma StepGrows(setup: Setup, w: World, e: Event)
    requires Enabled(setup, w, e)
    ensures Grows(w, Step(setup, w, e))
  {
  }

  lemma JobStaysGood(setup: Setup, w: World, v: World, j: Job)
    requires Grows(w, v) && GoodJob(setup, w, j)
    ensures GoodJob(setup, v, j)
  {
  }

  lemma CompletionStaysGood(setup: Setup, w: World, v: World, c: Completion)
    requires Grows(w, v) && GoodCompletion(setup, w, c)
    ensures GoodCompletion(setup, v, c)
  {
    JobStaysGood(setup, w, v, c.job);
  }

  lemma AcceptanceStaysGood(setup: Setup, w: World, v: World, a: Acceptance)
    requires Grows(w, v) && GoodAcceptance(setup, w, a)
    ensures GoodAcceptance(setup, v, a)
  {
  }

  lemma SignatureStaysFromCompletion(setup: Setup, w: World, v: World, s: Signature)
    requires Grows(w, v) && FromCompletion(setup, w, s)
    ensures FromCompletion(setup, v, s)
  {
    var i :| 0 <= i < |w.completed| && SignatureOf(setup, w.completed[i]) == Some(s);
    assert v.completed[i] == w.completed[i];
  }

  lemma BuiltIsNotEmpty(si: SecurityInfo)
    ensures BuildSecurityInfo(si) != ""
  {
  }

  /** What a step does to the calls in flight and the completions. */
  lemma StepMoves(setup: Setup, w: World, e: Event)
    requires Enabled(setup, w, e)
    ensures var v := Step(setup, w, e);
      && (forall k :: k in v.jobs ==> (k in w.jobs && v.jobs[k] == w.jobs[k]) || (e.Begin? && k == e.call))
      && (forall k :: k in v.pending ==> (k in w.pending && v.pending[k] == w.pending[k]) || (e.Check? && k == e.call))
      && (!e.Finish? ==> v.completed == w.completed)
      && (e.Finish? ==> v.completed == w.completed + [Completion(w.jobs[e.call], e.vkek, e.cryptKey, e.sign2)])
      && (!e.Keep? ==> v.accepted == w.accepted)
      && (e.Keep? ==> v.accepted == w.accepted + [w.pending[e.call]])
  {
    hide Judge, BuildSecurityInfo, D.OpenedInfo, ParseChallenge;
  }

  lemma BegunJobIsGood(setup: Setup, w: World, e: Event)
    requires e.Begin? && Enabled(setup, w, e) && Inv(setup, w)
    ensures var v := Step(setup, w, e);
      e.call in v.jobs ==> GoodJob(setup, v, v.jobs[e.call]) && v.jobs[e.call].deviceId in v.sessions
  {
    hide ParseAuthorization, SignAuthPayload, Inv;
    EmptyIsRefused();
    if e.deviceId in w.sessions {
      assert GoodSession(setup, w, e.deviceId) by { InvSession(setup, w, e.deviceId); }
    }
  }

  lemma InvSession(setup: Setup, w: World, d: string)
    requires Inv(setup, w) && d in w.sessions
    ensures GoodSession(setup, w, d)
  {
  }

  lemma EmptyIsRefused()
    ensures ParseAuthorization("") == Refused
  {
  }

  lemma NewCompletionIsGood(setup: Setup, w: World, e: Event)
    requires e.Finish? && Enabled(setup, w, e) && Inv(setup, w)
    ensures var v := Step(setup, w, e);
      var c := Completion(w.jobs[e.call], e.vkek, e.cryptKey, e.sign2);
      GoodCompletion(setup, v, c) && c.job.deviceId in v.sessions
  {
    assert GoodJob(setup, w, w.jobs[e.call]);
    hide GoodJob, BuildSecurityInfo, Sign2Payload, Inv;
    StepGrows(setup, w, e);
    JobStaysGood(setup, w, Step(setup, w, e), w.jobs[e.call]);
  }

  lemma StepKeepsJobs(setup: Setup, w: World, e: Event)
    requires Enabled(setup, w, e) && Inv(setup, w)
    ensures var v := Step(setup, w, e);
      && (forall k :: k in v.jobs ==> GoodJob(setup, v, v.jobs[k]) && v.jobs[k].deviceId in v.sessions)
      && (forall i :: 0 <= i < |v.completed| ==>
            GoodCompletion(setup, v, v.completed[i]) && v.completed[i].job.deviceId in v.sessions)
  {
    hide Step, Enabled, GoodJob, GoodCompletion, GoodSession, GoodAcceptance, FromCompletion;
    var v := Step(setup, w, e);
    StepGrows(setup, w, e);
    StepMoves(setup, w, e);
    forall k | k in v.jobs ensures GoodJob(setup, v, v.jobs[k]) && v.jobs[k].deviceId in v.sessions {
      if k in w.jobs && v.jobs[k] == w.jobs[k] {
        JobStaysGood(setup, w, v, w.jobs[k]);
      } else {
        BegunJobIsGood(setup, w, e);
      }
    }
    forall i | 0 <= i < |v.completed|
      ensures GoodCompletion(setup, v, v.completed[i]) && v.completed[i].job.deviceId in v.sessions
    {
      if i < |w.completed| {
        CompletionStaysGood(setup, w, v, w.completed[i]);
      } else {
        NewCompletionIsGood(setup, w, e);
      }
    }
  }

  lemma LastAfter(completed: seq<Completion>, c: Completion, deviceId: string)
    ensures LastCompletion(completed + [c], deviceId)
      == if c.job.deviceId == deviceId then Some(c) else LastCompletion(completed, deviceId)
  {
    assert (completed + [c])[..|completed|] == completed;
  }

  /** The sessions a step leaves alone, with the history that describes them. */
  lemma OtherSessionsStay(setup: Setup, w: World, e: Event, d: string)
    requires Enabled(setup, w, e)
    requires e.Challenge? ==> d != e.deviceId
    requires e.Finish? ==> d != w.jobs[e.call].deviceId
    ensures var v := Step(setup, w, e);
      && Lookup(v.sessions, d) == Lookup(w.sessions, d) && Issued(v, d) == Issued(w, d)
      && LastCompletion(v.completed, d) == LastCompletion(w.completed, d)
  {
    hide Judge, BuildSecurityInfo, D.OpenedInfo, ParseChallenge, LastCompletion;
    if e.Finish? {
      LastAfter(w.completed, Completion(w.jobs[e.call], e.vkek, e.cryptKey, e.sign2), d);
    }
  }

  lemma {:induction false} NoneWithoutSession(completed: seq<Completion>, sessions: Sessions, d: string)
    requires forall i :: 0 <= i < |completed| ==> completed[i].job.deviceId in sessions
    requires d !in sessions
    ensures LastCompletion(completed, d) == None
  {
    if completed != [] {
      NoneWithoutSession(completed[..|completed| - 1], sessions, d);
    }
  }

  lemma ChallengedFits(
    setup: Setup, s: Session, issued: seq<string>, last: Option<Completion>, random1: string, announced: Option<Key>)
    requires s.vkek == KeyOf(last)
    ensures Fits(setup, Challenged(s, setup.platform.mode, random1, announced), issued + [random1], last)
  {
  }

  lemma CompletedFits(setup: Setup, s: Session, issued: seq<string>, last: Option<Completion>, c: Completion)
    requires Fits(setup, s, issued, last) && c.job.authorization != ""
    ensures Fits(setup, Completed(s, c.job.authorization, c.vkek, BuildSecurityInfo(InfoOf(setup, c))), issued, Some(c))
  {
    BuiltIsNotEmpty(InfoOf(setup, c));
    hide BuildSecurityInfo, InfoOf;
  }

  lemma ChallengedSessionIsGood(setup: Setup, w: World, e: Event)
    requires e.Challenge? && Inv(setup, w)
    ensures GoodSession(setup, Step(setup, w, e), e.deviceId)
  {
    var s, last := SessionOf(w.sessions, e.deviceId), LastCompletion(w.completed, e.deviceId);
    assert s.vkek == KeyOf(last) by {
      hide GoodJob, GoodCompletion, GoodAcceptance, FromCompletion, LastCompletion;
      if e.deviceId !in w.sessions {
        NoneWithoutSession(w.completed, w.sessions, e.deviceId);
      } else {
        InvSession(setup, w, e.deviceId);
      }
    }
    hide Inv, Fits, Challenged, LastCompletion;
    ChallengedFits(setup, s, Issued(w, e.deviceId), last, e.random1, e.announced);
  }

  lemma FinishMoves(setup: Setup, w: World, e: Event)
    requires e.Finish? && Enabled(setup, w, e)
    ensures
      var v, c := Step(setup, w, e), Completion(w.jobs[e.call], e.vkek, e.cryptKey, e.sign2);
      && v.completed == w.completed + [c] && v.issued == w.issued
      && v.sessions == w.sessions[c.job.deviceId :=
           Completed(SessionOf(w.sessions, c.job.deviceId), c.job.authorization, e.vkek,
                     BuildSecurityInfo(InfoOf(setup, c)))]
      && v.lib == Logged(Seal(w.lib, e.cryptKey, Envelope(c.job.cert, e.vkek)), SignatureOf(setup, c))
  {
  }

  lemma FinishedSessionIsGood(setup: Setup, w: World, e: Event)
    requires e.Finish? && Enabled(setup, w, e) && Inv(setup, w)
    ensures GoodSession(setup, Step(setup, w, e), w.jobs[e.call].deviceId)
  {
    var j := w.jobs[e.call];
    var c := Completion(j, e.vkek, e.cryptKey, e.sign2);
    assert j.authorization != "" && j.deviceId in w.sessions;
    InvSession(setup, w, j.deviceId);
    FinishMoves(setup, w, e);
    LastAfter(w.completed, c, j.deviceId);
    hide Step, BuildSecurityInfo, Completed, Fits, LastCompletion, Inv, InfoOf;
    CompletedFits(setup, w.sessions[j.deviceId], Issued(w, j.deviceId), LastCompletion(w.completed, j.deviceId), c);
  }

  lemma StepKeepsSessions(setup: Setup, w: World, e: Event)
    requires Enabled(setup, w, e) && Inv(setup, w)
    ensures var v := Step(setup, w, e);
      && (forall d :: d in v.sessions ==> GoodSession(setup, v, d))
      && (forall d :: d !in v.sessions ==> Issued(v, d) == [])
  {
    hide Step, Enabled, GoodJob, GoodCompletion, GoodAcceptance, FromCompletion, LastCompletion;
    var v := Step(setup, w, e);
    forall d | d in v.sessions ensures GoodSession(setup, v, d) {
      SessionAfter(setup, w, e, d);
    }
    forall d | d !in v.sessions ensures Issued(v, d) == [] {
      SessionAfter(setup, w, e, d);
    }
  }

  lemma SessionAfter(setup: Setup, w: World, e: Event, d: string)
    requires Enabled(setup, w, e) && Inv(setup, w)
    ensures var v := Step(setup, w, e);
      && (d in v.sessions ==> GoodSession(setup, v, d))
      && (d !in v.sessions ==> Issued(v, d) == [])
  {
    var v := Step(setup, w, e);
    if e.Challenge? && d == e.deviceId {
      ChallengedSessionIsGood(setup, w, e);
    } else if e.Finish? && d == w.jobs[e.call].deviceId {
      FinishedSessionIsGood(setup, w, e);
    } else {
      OtherSessionsStay(setup, w, e, d);
      hide Step, GoodJob, GoodCompletion, GoodAcceptance, FromCompletion, LastCompletion;
      if d in w.sessions {
        InvSession(setup, w, d);
      }
    }
  }

  lemma StepSigns(setup: Setup, w: World, e: Event)
    requires Enabled(setup, w, e) && KeysApart(setup)
    ensures var v := Step(setup, w, e);
      forall s :: s in v.lib.signatures && Some(s.key) == setup.platform.identity ==>
        s in w.lib.signatures
        || (e.Finish? && SignatureOf(setup, Completion(w.jobs[e.call], e.vkek, e.cryptKey, e.sign2)) == Some(s))
  {
    hide Judge, BuildSecurityInfo, D.OpenedInfo, ParseChallenge, Sign2Payload, SignAuthPayload;
  }

  lemma StepKeepsSignatures(setup: Setup, w: World, e: Event)
    requires Enabled(setup, w, e) && Inv(setup, w) && KeysApart(setup)
    ensures var v := Step(setup, w, e);
      forall s :: s in v.lib.signatures && Some(s.key) == setup.platform.identity ==> FromCompletion(setup, v, s)
  {
    var v := Step(setup, w, e);
    StepGrows(setup, w, e);
    StepMoves(setup, w, e);
    StepSigns(setup, w, e);
    hide Step, Enabled, SignatureOf, Grows;
    forall s | s in v.lib.signatures && Some(s.key) == setup.platform.identity ensures FromCompletion(setup, v, s) {
      if s in w.lib.signatures {
        SignatureStaysFromCompletion(setup, w, v, s);
      } else {
        assert SignatureOf(setup, v.completed[|w.completed|]) == Some(s);
      }
    }
  }

  lemma CheckedIsGood(setup: Setup, w: World, e: Event)
    requires e.Check? && Enabled(setup, w, e)
    ensures var v := Step(setup, w, e);
      e.call in v.pending ==> GoodAcceptance(setup, v, v.pending[e.call])
  {
    hide Sign2Payload, ParseSecurityInfo;
  }

  lemma StepKeepsAcceptances(setup: Setup, w: World, e: Event)
    requires Enabled(setup, w, e) && Inv(setup, w)
    ensures var v := Step(setup, w, e);
      && (forall k :: k in v.pending ==> GoodAcceptance(setup, v, v.pending[k]))
      && (forall i :: 0 <= i < |v.accepted| ==> GoodAcceptance(setup, v, v.accepted[i]))
  {
    var v := Step(setup, w, e);
    StepGrows(setup, w, e);
    StepMoves(setup, w, e);
    assert e.Keep? ==> e.call in w.pending;
    hide Step, Enabled, GoodJob, GoodCompletion, GoodSession, GoodAcceptance, FromCompletion;
    forall k | k in v.pending ensures GoodAcceptance(setup, v, v.pending[k]) {
      if k in w.pending && v.pending[k] == w.pending[k] {
        AcceptanceStaysGood(setup, w, v, w.pending[k]);
      } else {
        CheckedIsGood(setup, w, e);
      }
    }
    forall i | 0 <= i < |v.accepted| ensures GoodAcceptance(setup, v, v.accepted[i]) {
      AcceptanceStaysGood(setup, w, v, if i < |w.accepted| then w.accepted[i] else w.pending[e.call]);
    }
  }

  lemma StepKeepsInv(setup: Setup, w: World, e: Event)
    requires Enabled(setup, w, e) && Inv(setup, w) && KeysApart(setup)
    ensures Inv(setup, Step(setup, w, e))
  {
    hide Step, Enabled, GoodJob, GoodCompletion, GoodSession, GoodAcceptance, FromCompletion;
    StepKeepsJobs(setup, w, e);
    StepKeepsSessions(setup, w, e);
    StepKeepsSignatures(setup, w, e);
    StepKeepsAcceptances(setup, w, e);
  }

  /** The invariant holds over every interleaving. */
  lemma {:induction false} RunKeepsInv(setup: Setup, w: World, events: seq<Event>)
    requires Legal(setup, w, events) && Inv(setup, w) && KeysApart(setup)
    ensures Inv(setup, Run(setup, w, events)) && Grows(w, Run(setup, w, events))
    decreases |events|
  {
    if events != [] {
      hide Step, Enabled, Inv, Grows;
      var v := Step(setup, w, events[0]);
      StepKeepsInv(setup, w, events[0]);
      StepGrows(setup, w, events[0]);
      RunKeepsInv(setup, v, events[1..]);
      GrowsTwice(w, v, Run(setup, w, events));
    }
  }

  lemma GrowsTwice(u: World, v: World, w: World)
    requires Grows(u, v) && Grows(v, w)
    ensures Grows(u, w)
  {
    forall d ensures Issued(u, d) <= Issued(w, d) {
      assert Issued(u, d) <= Issued(v, d) <= Issued(w, d);
    }
  }
}
