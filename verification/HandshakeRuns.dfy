/** What the handshake guarantees over every interleaving of its steps. */
module HandshakeRuns {
  import opened Results
  import opened Headers
  import opened Crypto
  import opened PlatformSide
  import opened Handshake
  import D = DeviceSide

  predicate Reachable(setup: Setup, events: seq<Event>) {
    KeysApart(setup) && Legal(setup, EMPTY, events)
  }

  lemma ReachableKeepsInv(setup: Setup, events: seq<Event>)
    requires Reachable(setup, events)
    ensures Inv(setup, Run(setup, EMPTY, events))
  {
    assert Inv(setup, EMPTY);
    RunKeepsInv(setup, EMPTY, events);
  }

  // --- The platform's session ---

  /**
   * A cached answer belongs to the latest completion for the device: the Authorization it answers was validly signed
   * for this server over an issued random1, and the key sealed in it is the session's key.
   */
  lemma SessionHoldsSealedKey(setup: Setup, events: seq<Event>, d: string) returns (c: Completion)
    requires Reachable(setup, events)
    requires var w := Run(setup, EMPTY, events); d in w.sessions && w.sessions[d].lastAuth != ""
    ensures
      var w := Run(setup, EMPTY, events);
      var s, auth := w.sessions[d], ParseAuthorization(w.sessions[d].lastAuth);
      && auth == Good(c.job.auth) && c.job.deviceId == d
      && auth.fields.serverId == setup.platform.serverId && auth.fields.random1 in Issued(w, d)
      && Verifies(w.lib, c.job.cert,
                  SignAuthPayload(auth.fields.random1, auth.fields.random2, setup.platform.serverId,
                                  setup.platform.encoding),
                  auth.fields.sign1)
      && s.lastInfo == BuildSecurityInfo(InfoOf(setup, c)) && InfoOf(setup, c).cryptKey == c.cryptKey
      && (ParseSecurityInfo(s.lastInfo) == Good(InfoOf(setup, c)) <==> Printable(InfoOf(setup, c)))
      && s.vkek.Some? && Open(w.lib, c.job.cert, c.cryptKey) == s.vkek
  {
    var w := Run(setup, EMPTY, events);
    ReachableKeepsInv(setup, events);
    InvSession(setup, w, d);
    c := LastCompletion(w.completed, d).value;
    var i := LastIsACompletion(w.completed, d);
    assert GoodCompletion(setup, w, w.completed[i]);
    hide Inv, Run, Legal, LastCompletion, BuildSecurityInfo, ParseSecurityInfo, SignAuthPayload, ParseAuthorization,
         Printable;
    SecurityInfoRoundTrip(InfoOf(setup, c));
    assert Issued(w, d)[c.job.epoch - 1] in Issued(w, d);
  }

  lemma {:induction false} LastIsACompletion(completed: seq<Completion>, d: string) returns (i: nat)
    requires LastCompletion(completed, d).Some?
    ensures i < |completed| && LastCompletion(completed, d) == Some(completed[i]) && completed[i].job.deviceId == d
    ensures forall j :: i < j < |completed| ==> completed[j].job.deviceId != d
  {
    i := |completed| - 1;
    if completed[i].job.deviceId != d {
      i := LastIsACompletion(completed[..i], d);
    }
  }

  /** A call replays the cached answer exactly for the byte-identical Authorization, and then changes nothing. */
  lemma RetransmissionReplays(setup: Setup, w: World, d: string, authorization: string, call: nat, draw: Draw)
    requires Inv(setup, w) && call !in w.jobs
    ensures
      var cached := SessionOf(w.sessions, d);
      var verdict := Judge(setup.platform, w.lib, d, authorization, Lookup(w.sessions, d));
      && (verdict.Replay? <==> cached.lastAuth != "" && authorization == cached.lastAuth)
      && (verdict.Replay? ==>
          && verdict.info == cached.lastInfo
          && Step(setup, w, Begin(call, d, authorization)) == w
          && Registered(setup.platform, w.lib, w.sessions, d, authorization, draw)
             == (Answered(cached.lastInfo), w.sessions))
  {
    EmptyIsRefused();
    if SessionOf(w.sessions, d).lastAuth != "" {
      CachedAuthorizationParses(setup, w, d);
    }
    hide Inv, BuildSecurityInfo;
    JudgeReplays(setup.platform, w.lib, w.sessions, d, authorization);
    hide Judge, ParseAuthorization;
    BeginAccepts(setup, w, call, d, authorization);
    hide Step;
  }

  lemma JudgeReplays(cfg: Config, lib: Library, sessions: Sessions, d: string, authorization: string)
    ensures
      var verdict, cached := Judge(cfg, lib, d, authorization, Lookup(sessions, d)), SessionOf(sessions, d);
      && (verdict.Replay? <==>
          d in sessions && authorization == cached.lastAuth && ParseAuthorization(authorization).Good?)
      && (verdict.Replay? ==> verdict.info == cached.lastInfo)
  {
    hide ParseAuthorization, SignAuthPayload, Verifies;
  }

  lemma CachedAuthorizationParses(setup: Setup, w: World, d: string)
    requires Inv(setup, w) && SessionOf(w.sessions, d).lastAuth != ""
    ensures ParseAuthorization(SessionOf(w.sessions, d).lastAuth).Good?
  {
    InvSession(setup, w, d);
    var i := LastIsACompletion(w.completed, d);
    assert GoodCompletion(setup, w, w.completed[i]);
    hide ParseAuthorization, BuildSecurityInfo, SignAuthPayload, Inv, LastCompletion;
  }

  /** Only a completion for the device changes its key; a challenge, a replay or a refusal never does. */
  lemma KeyChangesOnlyByCompletion(setup: Setup, w: World, events: seq<Event>, d: string)
    requires KeysApart(setup) && Inv(setup, w) && Legal(setup, w, events) && d in w.sessions
    ensures
      var v := Run(setup, w, events);
      && d in v.sessions
      && (w.sessions[d].vkek.Some? ==> v.sessions[d].vkek.Some?)
      && ((forall i :: |w.completed| <= i < |v.completed| ==> v.completed[i].job.deviceId != d) ==>
            v.sessions[d].vkek == w.sessions[d].vkek)
  {
    var v := Run(setup, w, events);
    RunKeepsInv(setup, w, events);
    InvSession(setup, w, d);
    InvSession(setup, v, d);
    hide Inv, Run, Legal, BuildSecurityInfo;
    LastIsKept(w.completed, v.completed, d);
  }

  lemma {:induction false} LastIsKept(a: seq<Completion>, b: seq<Completion>, d: string)
    requires a <= b
    ensures LastCompletion(a, d).Some? ==> LastCompletion(b, d).Some?
    ensures (forall i :: |a| <= i < |b| ==> b[i].job.deviceId != d) ==> LastCompletion(b, d) == LastCompletion(a, d)
    decreases |b|
  {
    if |a| < |b| {
      LastIsKept(a, b[..|b| - 1], d);
    } else {
      assert a == b;
    }
  }

  /** A certificate announced once stays until another one is announced. */
  lemma {:induction false} AnnouncedCertificateStays(setup: Setup, w: World, events: seq<Event>, d: string)
    requires Legal(setup, w, events) && d in w.sessions && w.sessions[d].announced.Some?
    ensures
      var v := Run(setup, w, events);
      && d in v.sessions && v.sessions[d].announced.Some?
      && ((forall e :: e in events ==> !(e.Challenge? && e.deviceId == d && e.announced.Some?)) ==>
            v.sessions[d].announced == w.sessions[d].announced)
    decreases |events|
  {
    if events != [] {
      StepKeepsAnnounced(setup, w, events[0], d);
      hide Step, Enabled;
      AnnouncedCertificateStays(setup, Step(setup, w, events[0]), events[1..], d);
    }
  }

  lemma StepKeepsAnnounced(setup: Setup, w: World, e: Event, d: string)
    requires Enabled(setup, w, e) && d in w.sessions
    ensures
      var v := Step(setup, w, e);
      && d in v.sessions
      && (if e.Challenge? && e.deviceId == d && e.announced.Some? then v.sessions[d].announced.Some?
          else v.sessions[d].announced == w.sessions[d].announced)
  {
    hide Judge, BuildSecurityInfo, D.OpenedInfo, ParseChallenge;
  }

  predicate Distinct(s: seq<string>) {
    forall i, j :: 0 <= i < j < |s| ==> s[i] != s[j]
  }

  /**
   * A completion answers the challenge now pending exactly if none was issued since the call read the session:
   * the second critical section does not look at random1 again.
   */
  lemma CompletionMayBeStale(setup: Setup, w: World, e: Event)
    requires KeysApart(setup) && Inv(setup, w) && e.Finish? && Enabled(setup, w, e)
    requires Distinct(Issued(w, w.jobs[e.call].deviceId))
    ensures
      var j := w.jobs[e.call];
      var v := Step(setup, w, e);
      && j.deviceId in v.sessions && v.sessions[j.deviceId].lastAuth == j.authorization
      && (v.sessions[j.deviceId].random1 == j.auth.random1 <==> j.epoch == |Issued(w, j.deviceId)|)
  {
    var j := w.jobs[e.call];
    assert GoodJob(setup, w, j) && j.deviceId in w.sessions;
    InvSession(setup, w, j.deviceId);
    FinishMoves(setup, w, e);
    hide Step, Inv, BuildSecurityInfo, InfoOf, ParseAuthorization, SignAuthPayload, LastCompletion, Distinct, Verifies;
    var issued := Issued(w, j.deviceId);
    DistinctPlaces(issued, j.epoch - 1, |issued| - 1);
  }

  lemma DistinctPlaces(s: seq<string>, i: nat, j: nat)
    requires Distinct(s) && i < |s| && j < |s|
    ensures s[i] == s[j] <==> i == j
  {
  }

  /**
   * An Authorization that was accepted before is accepted again exactly while its challenge is the
   * pending one and it is not the cached one: completing an exchange does not use up random1, and only
   * the latest Authorization is recognised as a retransmission.
   */
  lemma AcceptedAgain(setup: Setup, w: World, j: Job)
    requires Inv(setup, w) && GoodJob(setup, w, j) && j.deviceId in w.sessions
    requires Distinct(Issued(w, j.deviceId))
    ensures
      var verdict := Judge(setup.platform, w.lib, j.deviceId, j.authorization, Lookup(w.sessions, j.deviceId));
      && (verdict.Accept? <==>
          j.epoch == |Issued(w, j.deviceId)| && w.sessions[j.deviceId].lastAuth != j.authorization)
      && (verdict.Accept? ==> verdict == Accept(j.auth, j.cert))
  {
    InvSession(setup, w, j.deviceId);
    var issued := Issued(w, j.deviceId);
    DistinctPlaces(issued, j.epoch - 1, |issued| - 1);
    hide Inv, Distinct, ParseAuthorization, SignAuthPayload, Verifies, BuildSecurityInfo, LastCompletion, Issued,
         CertOf;
  }

  /** In particular each completed exchange can be completed once more exactly under that condition. */
  lemma CompletedAgain(setup: Setup, w: World, i: nat)
    requires Inv(setup, w) && i < |w.completed| && Distinct(Issued(w, w.completed[i].job.deviceId))
    ensures
      var j := w.completed[i].job;
      && j.deviceId in w.sessions
      && (Judge(setup.platform, w.lib, j.deviceId, j.authorization, Lookup(w.sessions, j.deviceId)).Accept? <==>
          j.epoch == |Issued(w, j.deviceId)| && w.sessions[j.deviceId].lastAuth != j.authorization)
  {
    var j := w.completed[i].job;
    assert GoodCompletion(setup, w, w.completed[i]) && j.deviceId in w.sessions;
    hide Inv, GoodJob, Judge, Distinct, Issued;
    AcceptedAgain(setup, w, j);
  }

  /** What the platform draws and computes to complete an exchange. */
  datatype Sealed = Sealed(vkek: string, cryptKey: string, sign2: string)

  function CompletionOf(job: Job, x: Sealed): Completion {
    Completion(job, x.vkek, x.cryptKey, x.sign2)
  }

  /** One call of `verify_register` with nothing in between. */
  function Round(call: nat, job: Job, x: Sealed): seq<Event> {
    [Begin(call, job.deviceId, job.authorization), Finish(call, x.vkek, x.cryptKey, x.sign2)]
  }

  /** The platform accepts this call if it comes now, and can complete it. */
  predicate Acceptable(setup: Setup, w: World, job: Job) {
    && job.deviceId in w.sessions && job.epoch == |Issued(w, job.deviceId)|
    && (job.auth.mode == Bidirection ==> setup.platform.identity.Some?)
    && Judge(setup.platform, w.lib, job.deviceId, job.authorization, Lookup(w.sessions, job.deviceId))
       == Accept(job.auth, job.cert)
  }

  predicate IsLogged(setup: Setup, lib: Library, c: Completion) {
    SignatureOf(setup, c).Some? ==> SignatureOf(setup, c).value in lib.signatures
  }

  /** What a completed round leaves of the world. */
  ghost predicate Rounded(setup: Setup, w: World, v: World, job: Job, x: Sealed) {
    && job.deviceId in w.sessions && job.deviceId in v.sessions
    && v.sessions[job.deviceId]
       == Completed(w.sessions[job.deviceId], job.authorization, x.vkek,
                    BuildSecurityInfo(InfoOf(setup, CompletionOf(job, x))))
    && v.jobs == w.jobs && v.issued == w.issued && v.states == w.states && v.pending == w.pending
    && v.completed == w.completed + [CompletionOf(job, x)]
    && w.lib.signatures <= v.lib.signatures && IsLogged(setup, v.lib, CompletionOf(job, x))
    && v.lib.envelopes == w.lib.envelopes[x.cryptKey := Envelope(job.cert, x.vkek)]
  }

  lemma RoundCompletes(setup: Setup, w: World, call: nat, job: Job, x: Sealed)
    requires Acceptable(setup, w, job) && call !in w.jobs && x.cryptKey !in w.lib.envelopes
    ensures Legal(setup, w, Round(call, job, x))
    ensures Rounded(setup, w, Run(setup, w, Round(call, job, x)), job, x)
  {
    hide Judge, BuildSecurityInfo, InfoOf, Sign2Payload;
    var e1 := Begin(call, job.deviceId, job.authorization);
    var e2 := Finish(call, x.vkek, x.cryptKey, x.sign2);
    BeginAccepts(setup, w, call, job.deviceId, job.authorization);
    var w1 := Step(setup, w, e1);
    FinishMoves(setup, w1, e2);
    assert Step(setup, w1, e2).jobs == w.jobs;
    hide Step, Enabled, Legal, Run;
    RunsOfTwo(setup, w, e1, e2);
  }

  /** A call that nothing comes between leaves the sessions, and gives the answer, of its two sections in a row. */
  lemma UninterruptedCall(setup: Setup, w: World, call: nat, job: Job, x: Sealed)
    requires Acceptable(setup, w, job) && call !in w.jobs && x.cryptKey !in w.lib.envelopes
    ensures Legal(setup, w, Round(call, job, x))
    ensures
      Registered(
        setup.platform, w.lib, w.sessions, job.deviceId, job.authorization,
        Draw(x.vkek, Some(x.cryptKey), Some(x.sign2)))
      == (Answered(BuildSecurityInfo(InfoOf(setup, CompletionOf(job, x)))),
          Run(setup, w, Round(call, job, x)).sessions)
  {
    RoundCompletes(setup, w, call, job, x);
    RoundSessions(setup, w, call, job, x);
    hide Judge, BuildSecurityInfo, Legal, Run, Round;
  }

  lemma RoundSessions(setup: Setup, w: World, call: nat, job: Job, x: Sealed)
    requires Acceptable(setup, w, job) && call !in w.jobs && x.cryptKey !in w.lib.envelopes
    ensures Legal(setup, w, Round(call, job, x))
    ensures Run(setup, w, Round(call, job, x)).sessions
      == w.sessions[job.deviceId :=
           Completed(w.sessions[job.deviceId], job.authorization, x.vkek,
                     BuildSecurityInfo(InfoOf(setup, CompletionOf(job, x))))]
  {
    hide Judge, BuildSecurityInfo, InfoOf, Sign2Payload;
    var e1 := Begin(call, job.deviceId, job.authorization);
    var e2 := Finish(call, x.vkek, x.cryptKey, x.sign2);
    BeginAccepts(setup, w, call, job.deviceId, job.authorization);
    FinishMoves(setup, Step(setup, w, e1), e2);
    hide Step, Enabled, Legal, Run;
    RunsOfTwo(setup, w, e1, e2);
  }

  /** After a round every other Authorization that was acceptable still is. */
  lemma OtherStaysAcceptable(setup: Setup, w: World, v: World, job: Job, x: Sealed, other: Job)
    requires Rounded(setup, w, v, job, x) && Acceptable(setup, w, other)
    requires other.deviceId == job.deviceId && other.authorization != job.authorization
    ensures Acceptable(setup, v, other)
  {
    hide ParseAuthorization, SignAuthPayload, BuildSecurityInfo, InfoOf;
  }

  /** After two rounds the first Authorization is acceptable once more. */
  lemma FirstIsAcceptableAgain(
    setup: Setup, w: World, w1: World, w2: World, jobA: Job, jobB: Job, x1: Sealed, x2: Sealed)
    requires Acceptable(setup, w, jobA) && jobA.deviceId == jobB.deviceId
    requires jobA.authorization != jobB.authorization
    requires Rounded(setup, w, w1, jobA, x1) && Rounded(setup, w1, w2, jobB, x2)
    ensures Acceptable(setup, w2, jobA)
  {
    hide ParseAuthorization, SignAuthPayload, BuildSecurityInfo, InfoOf;
  }

  function Alternation(call: nat, jobA: Job, jobB: Job, x1: Sealed, x2: Sealed, x3: Sealed): seq<Event> {
    Round(call, jobA, x1) + Round(call, jobB, x2) + Round(call, jobA, x3)
  }

  lemma AlternatingRounds(
    setup: Setup, w: World, call: nat, jobA: Job, jobB: Job, x1: Sealed, x2: Sealed, x3: Sealed)
    returns (w1: World, w2: World, v: World)
    requires Acceptable(setup, w, jobA) && Acceptable(setup, w, jobB) && call !in w.jobs
    requires jobA.deviceId == jobB.deviceId && jobA.authorization != jobB.authorization
    requires x1.cryptKey !in w.lib.envelopes && x2.cryptKey !in w.lib.envelopes && x3.cryptKey !in w.lib.envelopes
    requires x1.cryptKey != x2.cryptKey && x1.cryptKey != x3.cryptKey && x2.cryptKey != x3.cryptKey
    ensures Rounded(setup, w, w1, jobA, x1) && Rounded(setup, w1, w2, jobB, x2) && Rounded(setup, w2, v, jobA, x3)
    ensures Legal(setup, w, Alternation(call, jobA, jobB, x1, x2, x3))
    ensures v == Run(setup, w, Alternation(call, jobA, jobB, x1, x2, x3))
  {
    hide Acceptable, Legal, Run, Round, BuildSecurityInfo, InfoOf;
    var r1, r2, r3 := Round(call, jobA, x1), Round(call, jobB, x2), Round(call, jobA, x3);
    RoundCompletes(setup, w, call, jobA, x1);
    w1 := Run(setup, w, r1);
    OtherStaysAcceptable(setup, w, w1, jobA, x1, jobB);
    RoundCompletes(setup, w1, call, jobB, x2);
    w2 := Run(setup, w1, r2);
    FirstIsAcceptableAgain(setup, w, w1, w2, jobA, jobB, x1, x2);
    RoundCompletes(setup, w2, call, jobA, x3);
    v := Run(setup, w2, r3);
    hide Rounded;
    RunAppend(setup, w, r1, r2);
    RunAppend(setup, w, r1 + r2, r3);
  }

  /**
   * No call overlaps another here: if the device answered one challenge twice, and the platform gets the first
   * answer, the second, and the first again, it completes the first twice and ends with a third key, while the
   * answer to the first round still opens to the first.
   */
  lemma AlternatingAnswersDisagree(
    setup: Setup, w: World, call: nat, jobA: Job, jobB: Job, x1: Sealed, x2: Sealed, x3: Sealed)
    requires Acceptable(setup, w, jobA) && Acceptable(setup, w, jobB) && call !in w.jobs
    requires jobA.deviceId == jobB.deviceId && jobA.authorization != jobB.authorization
    requires x1.cryptKey !in w.lib.envelopes && x2.cryptKey !in w.lib.envelopes && x3.cryptKey !in w.lib.envelopes
    requires x1.cryptKey != x2.cryptKey && x1.cryptKey != x3.cryptKey && x2.cryptKey != x3.cryptKey
    ensures Legal(setup, w, Alternation(call, jobA, jobB, x1, x2, x3))
    ensures
      var v := Run(setup, w, Alternation(call, jobA, jobB, x1, x2, x3));
      && v.issued == w.issued
      && SessionOf(v.sessions, jobA.deviceId).vkek == Some(x3.vkek)
      && v.completed == w.completed + [CompletionOf(jobA, x1), CompletionOf(jobB, x2), CompletionOf(jobA, x3)]
      && Open(v.lib, jobA.cert, x1.cryptKey) == Some(x1.vkek)
      && v.states == w.states && v.pending == w.pending && IsLogged(setup, v.lib, CompletionOf(jobA, x1))
  {
    hide Acceptable, Legal, Run, Alternation, BuildSecurityInfo, InfoOf, SignatureOf;
    var w1, w2, v := AlternatingRounds(setup, w, call, jobA, jobB, x1, x2, x3);
  }

  /**
   * Two copies of one REGISTER that both read the session before either writes it are both completed: the platform
   * keeps the second key, while the answer to the first copy still opens to the first.
   */
  lemma RacingCopiesDisagree(
    setup: Setup, w: World, d: string, authorization: string, auth: Authorization, cert: Key,
    call1: nat, call2: nat, vkek1: string, vkek2: string, cryptKey1: string, cryptKey2: string, sign2: string)
    requires KeysApart(setup) && Inv(setup, w)
    requires setup.platform.mode == Bidirection ==> setup.platform.identity.Some?
    requires Judge(setup.platform, w.lib, d, authorization, Lookup(w.sessions, d)) == Accept(auth, cert)
    requires call1 != call2 && call1 !in w.jobs && call2 !in w.jobs
    requires cryptKey1 != cryptKey2 && cryptKey1 !in w.lib.envelopes && cryptKey2 !in w.lib.envelopes
    ensures
      var events :=
        [Begin(call1, d, authorization), Begin(call2, d, authorization), Finish(call1, vkek1, cryptKey1, sign2),
         Finish(call2, vkek2, cryptKey2, sign2)];
      var job := Job(d, authorization, auth, cert, |Issued(w, d)|);
      && Legal(setup, w, events)
      && var v := Run(setup, w, events);
        && d in v.sessions && v.sessions[d].vkek == Some(vkek2)
        && v.completed == w.completed
           + [Completion(job, vkek1, cryptKey1, sign2), Completion(job, vkek2, cryptKey2, sign2)]
        && Open(v.lib, cert, cryptKey1) == Some(vkek1)
        && v.states == w.states && v.pending == w.pending
        && IsLogged(setup, v.lib, Completion(job, vkek1, cryptKey1, sign2))
  {
    var e1, e2 := Begin(call1, d, authorization), Begin(call2, d, authorization);
    var e3, e4 := Finish(call1, vkek1, cryptKey1, sign2), Finish(call2, vkek2, cryptKey2, sign2);
    var job := Job(d, authorization, auth, cert, |Issued(w, d)|);
    AcceptedModeIsConfigured(setup, w, d, authorization);
    hide Judge, Inv, BuildSecurityInfo, InfoOf, Issued, Sign2Payload;
    BeginAccepts(setup, w, call1, d, authorization);
    var w1 := Step(setup, w, e1);
    BeginAccepts(setup, w1, call2, d, authorization);
    var w2 := Step(setup, w1, e2);
    assert w2 == w.(jobs := w.jobs[call1 := job][call2 := job]);
    SecondFinish(setup, w2, call1, call2, job, e3, e4);
    hide Step, Enabled;
    RunsOfFour(setup, w, e1, e2, e3, e4);
  }

  lemma SecondFinish(setup: Setup, w: World, call1: nat, call2: nat, job: Job, e3: Event, e4: Event)
    requires call1 != call2 && call1 in w.jobs && call2 in w.jobs && w.jobs[call1] == w.jobs[call2] == job
    requires setup.platform.identity.Some? || job.auth.mode == Unidirection
    requires e3.Finish? && e4.Finish? && e3.call == call1 && e4.call == call2
    requires e3.cryptKey != e4.cryptKey && e3.cryptKey !in w.lib.envelopes && e4.cryptKey !in w.lib.envelopes
    ensures Enabled(setup, w, e3) && Enabled(setup, Step(setup, w, e3), e4)
    ensures
      var v := Step(setup, Step(setup, w, e3), e4);
      && job.deviceId in v.sessions && v.sessions[job.deviceId].vkek == Some(e4.vkek)
      && v.completed == w.completed
         + [Completion(job, e3.vkek, e3.cryptKey, e3.sign2), Completion(job, e4.vkek, e4.cryptKey, e4.sign2)]
      && Open(v.lib, job.cert, e3.cryptKey) == Some(e3.vkek)
      && v.states == w.states && v.pending == w.pending
      && IsLogged(setup, v.lib, Completion(job, e3.vkek, e3.cryptKey, e3.sign2))
  {
    hide BuildSecurityInfo, InfoOf, Sign2Payload;
    var w3 := Step(setup, w, e3);
    assert call2 in w3.jobs && w3.jobs[call2] == job;
    FinishMoves(setup, w, e3);
    assert e4.cryptKey !in w3.lib.envelopes;
    FinishMoves(setup, w3, e4);
  }

  lemma AcceptedModeIsConfigured(setup: Setup, w: World, d: string, authorization: string)
    requires Inv(setup, w)
    ensures
      var verdict := Judge(setup.platform, w.lib, d, authorization, Lookup(w.sessions, d));
      verdict.Accept? ==> verdict.auth.mode == setup.platform.mode
  {
    hide ParseAuthorization, SignAuthPayload, BuildSecurityInfo, Verifies, LastCompletion;
    if d in w.sessions {
      InvSession(setup, w, d);
    }
    hide Inv;
  }

  lemma BeginAccepts(setup: Setup, w: World, call: nat, d: string, authorization: string)
    requires call !in w.jobs
    ensures Enabled(setup, w, Begin(call, d, authorization))
    ensures
      match Judge(setup.platform, w.lib, d, authorization, Lookup(w.sessions, d))
      case Accept(auth, cert) =>
        Step(setup, w, Begin(call, d, authorization))
          == w.(jobs := w.jobs[call := Job(d, authorization, auth, cert, |Issued(w, d)|)])
      case _ => Step(setup, w, Begin(call, d, authorization)) == w
  {
    hide Judge;
  }

  lemma RunsOfTwo(setup: Setup, w: World, e1: Event, e2: Event)
    requires Enabled(setup, w, e1) && Enabled(setup, Step(setup, w, e1), e2)
    ensures Legal(setup, w, [e1, e2])
    ensures Run(setup, w, [e1, e2]) == Step(setup, Step(setup, w, e1), e2)
  {
    hide Step, Enabled;
    RunOfOne(setup, Step(setup, w, e1), e2, []);
    RunOfOne(setup, w, e1, [e2]);
  }

  lemma RunsOfFour(setup: Setup, w: World, e1: Event, e2: Event, e3: Event, e4: Event)
    requires Enabled(setup, w, e1)
    requires Enabled(setup, Step(setup, w, e1), e2)
    requires Enabled(setup, Step(setup, Step(setup, w, e1), e2), e3)
    requires Enabled(setup, Step(setup, Step(setup, Step(setup, w, e1), e2), e3), e4)
    ensures Legal(setup, w, [e1, e2, e3, e4])
    ensures Run(setup, w, [e1, e2, e3, e4])
      == Step(setup, Step(setup, Step(setup, Step(setup, w, e1), e2), e3), e4)
  {
    hide Step, Enabled;
    var w1 := Step(setup, w, e1);
    var w2 := Step(setup, w1, e2);
    RunOfOne(setup, Step(setup, w2, e3), e4, []);
    RunOfOne(setup, w2, e3, [e4]);
    RunOfOne(setup, w1, e2, [e3, e4]);
    RunOfOne(setup, w, e1, [e2, e3, e4]);
  }

  lemma {:induction false} RunAppend(setup: Setup, w: World, a: seq<Event>, b: seq<Event>)
    requires Legal(setup, w, a) && Legal(setup, Run(setup, w, a), b)
    ensures Legal(setup, w, a + b) && Run(setup, w, a + b) == Run(setup, Run(setup, w, a), b)
    decreases |a|
  {
    if a == [] {
      assert a + b == b;
    } else {
      assert (a + b)[1..] == a[1..] + b;
      RunAppend(setup, Step(setup, w, a[0]), a[1..], b);
    }
  }

  lemma RunOfOne(setup: Setup, w: World, e: Event, rest: seq<Event>)
    requires Enabled(setup, w, e) && Legal(setup, Step(setup, w, e), rest)
    ensures Legal(setup, w, [e] + rest)
    ensures Run(setup, w, [e] + rest) == Run(setup, Step(setup, w, e), rest)
  {
    assert ([e] + rest)[1..] == rest;
  }

  // --- Agreement ---

  /**
   * Randoms are n octets and device IDs m characters in everything the platform completed, and in this answer if it
   * is a Bidirection one; a Unidirection answer carries none, and what other devices take does not matter.
   */
  predicate FixedLengths(setup: Setup, w: World, a: Acceptance, n: nat, m: nat) {
    && (forall i :: 0 <= i < |w.completed| ==>
          && |Octets(w.completed[i].job.auth.random1, setup.platform.encoding)| == n
          && |Octets(w.completed[i].job.auth.random2, setup.platform.encoding)| == n
          && |w.completed[i].job.deviceId| == m)
    && (a.info.mode == Bidirection ==>
          && |Octets(a.info.random1, setup.platform.encoding)| == n
          && |Octets(a.info.random2, setup.platform.encoding)| == n
          && |a.info.deviceId| == m)
  }

  /** The device trusts this platform's certificate and is configured alike. */
  ghost predicate Paired(setup: Setup, opts: D.Options) {
    && opts.platformCert == setup.platform.identity && opts.platformCert.Some?
    && opts.order == setup.platform.order && opts.encoding == setup.platform.encoding
  }

  /** Both ends mean one exchange: device, randoms, envelope, the key it is sealed to and the key inside. */
  predicate Agree(opts: D.Options, a: Acceptance, c: Completion) {
    && c.job.deviceId == opts.deviceId
    && Octets(c.job.auth.random1, opts.encoding) == Octets(a.state.random1, opts.encoding)
    && Octets(c.job.auth.random2, opts.encoding) == Octets(a.state.random2, opts.encoding)
    && c.cryptKey == a.info.cryptKey && c.job.cert == opts.key && c.vkek == a.vkek
  }

  predicate SameLengths(opts: D.Options, a: Acceptance, c: Completion) {
    && |c.job.deviceId| == |opts.deviceId|
    && |Octets(c.job.auth.random1, opts.encoding)| == |Octets(a.state.random1, opts.encoding)|
    && |Octets(c.job.auth.random2, opts.encoding)| == |Octets(a.state.random2, opts.encoding)|
  }

  /** The completion's signature is over the very octets the device checked. */
  predicate SignedBy(setup: Setup, opts: D.Options, a: Acceptance, c: Completion)
    requires opts.platformCert.Some?
  {
    SignatureOf(setup, c) == Some(Signature(
      opts.platformCert.value,
      Sign2Payload(a.state.random1, a.state.random2, opts.deviceId, a.info.cryptKey, opts.order, opts.encoding),
      a.info.sign2))
  }

  /**
   * If a device takes a Bidirection SecurityInfo, a completion of the platform made its signature over the very octets
   * the device checked. As the payload has no separators, the ends agree exactly if their operands are equally long.
   */
  lemma AnswerIsSigned(setup: Setup, events: seq<Event>, k: nat) returns (i: nat)
    requires Reachable(setup, events)
    requires k < |Run(setup, EMPTY, events).accepted|
    requires
      var a := Run(setup, EMPTY, events).accepted[k];
      a.info.mode == Bidirection && a.device in setup.devices && Paired(setup, setup.devices[a.device])
    ensures i < |Run(setup, EMPTY, events).completed|
    ensures
      var w := Run(setup, EMPTY, events);
      var a, c := w.accepted[k], w.completed[i];
      var opts := setup.devices[a.device];
      && GoodCompletion(setup, w, c) && c.job.auth.mode == Bidirection && SignedBy(setup, opts, a, c)
      && (Agree(opts, a, c) <==> SameLengths(opts, a, c))
  {
    var w := Run(setup, EMPTY, events);
    ReachableKeepsInv(setup, events);
    var a := w.accepted[k];
    var opts := setup.devices[a.device];
    assert GoodAcceptance(setup, w, a);
    var s := Signature(
      opts.platformCert.value,
      Sign2Payload(a.state.random1, a.state.random2, opts.deviceId, a.info.cryptKey, opts.order, opts.encoding),
      a.info.sign2);
    assert FromCompletion(setup, w, s);
    i :| 0 <= i < |w.completed| && SignatureOf(setup, w.completed[i]) == Some(s);
    var c := w.completed[i];
    assert GoodCompletion(setup, w, c);
    hide Inv, Run, Legal, ParseAuthorization, SignAuthPayload, Sign2Payload;
    if SameLengths(opts, a, c) {
      Sign2PayloadIsInjective(
        c.job.auth.random1, c.job.auth.random2, c.job.deviceId, c.cryptKey,
        a.state.random1, a.state.random2, opts.deviceId, a.info.cryptKey, opts.order, opts.encoding);
    }
  }

  /** With randoms and device IDs of fixed length, whatever a device takes it agrees on with the platform. */
  lemma Agreement(setup: Setup, events: seq<Event>, k: nat, n: nat, m: nat) returns (i: nat)
    requires Reachable(setup, events)
    requires k < |Run(setup, EMPTY, events).accepted|
    requires
      var w := Run(setup, EMPTY, events);
      var a := w.accepted[k];
      && a.info.mode == Bidirection
      && a.device in setup.devices && Paired(setup, setup.devices[a.device])
      && FixedLengths(setup, w, a, n, m)
    ensures i < |Run(setup, EMPTY, events).completed|
    ensures
      var w := Run(setup, EMPTY, events);
      var a, c := w.accepted[k], w.completed[i];
      var opts := setup.devices[a.device];
      Agree(opts, a, c) && c.job.auth.mode == Bidirection && GoodCompletion(setup, w, c)
  {
    i := AnswerIsSigned(setup, events, k);
    var w := Run(setup, EMPTY, events);
    ReachableKeepsInv(setup, events);
    assert GoodAcceptance(setup, w, w.accepted[k]);
    hide Inv, Run, Legal, GoodCompletion, ParseAuthorization, SignAuthPayload, Sign2Payload;
  }

  /**
   * A key that no completion drew came in a Unidirection answer, or in one whose signature a completion made for
   * operands of other lengths; with fixed lengths only the former is left.
   */
  lemma UndrawnKeyIsUnidirection(setup: Setup, events: seq<Event>, k: nat)
    requires Reachable(setup, events)
    requires k < |Run(setup, EMPTY, events).accepted|
    requires
      var w := Run(setup, EMPTY, events);
      var a := w.accepted[k];
      && a.device in setup.devices && Paired(setup, setup.devices[a.device])
      && forall i :: 0 <= i < |w.completed| ==> w.completed[i].vkek != a.vkek
    ensures
      var w := Run(setup, EMPTY, events);
      var a := w.accepted[k];
      var opts := setup.devices[a.device];
      && (a.info.mode == Unidirection
          || exists i :: 0 <= i < |w.completed| && SignedBy(setup, opts, a, w.completed[i])
                         && !SameLengths(opts, a, w.completed[i]))
      && forall n: nat, m: nat :: FixedLengths(setup, w, a, n, m) ==> a.info.mode == Unidirection
  {
    var w := Run(setup, EMPTY, events);
    var a := w.accepted[k];
    if a.info.mode == Bidirection {
      var i := AnswerIsSigned(setup, events, k);
      hide GoodCompletion;
      assert w.completed[i].vkek != a.vkek;
    }
    forall n: nat, m: nat | FixedLengths(setup, w, a, n, m)
      ensures a.info.mode == Unidirection
    {
      UndrawnAtFixedLengths(setup, events, k, n, m);
    }
  }

  lemma UndrawnAtFixedLengths(setup: Setup, events: seq<Event>, k: nat, n: nat, m: nat)
    requires Reachable(setup, events)
    requires k < |Run(setup, EMPTY, events).accepted|
    requires
      var w := Run(setup, EMPTY, events);
      var a := w.accepted[k];
      && a.device in setup.devices && Paired(setup, setup.devices[a.device]) && FixedLengths(setup, w, a, n, m)
      && forall i :: 0 <= i < |w.completed| ==> w.completed[i].vkek != a.vkek
    ensures Run(setup, EMPTY, events).accepted[k].info.mode == Unidirection
  {
    if Run(setup, EMPTY, events).accepted[k].info.mode == Bidirection {
      var i := Agreement(setup, events, k, n, m);
    }
  }

  /** Both sections of a check that succeeds. */
  lemma CheckThenKeep(
    setup: Setup, w: World, call: nat, device: string, info: string, si: SecurityInfo, vkek: string)
    requires device in setup.devices && call !in w.pending
    requires D.OpenedInfo(setup.devices[device], w.lib, StateOf(w, device), info) == Good((si, vkek))
    ensures Legal(setup, w, [Check(call, device, info), Keep(call)])
    ensures
      var v := Run(setup, w, [Check(call, device, info), Keep(call)]);
      && v.sessions == w.sessions && v.completed == w.completed
      && device in v.states && v.states[device].vkek == Some(vkek)
  {
    hide D.OpenedInfo, Legal, Run;
    var e1, e2 := Check(call, device, info), Keep(call);
    assert Step(setup, w, e1) == w.(pending := w.pending[call := Acceptance(device, StateOf(w, device), si, vkek)]);
    RunsOfTwo(setup, w, e1, e2);
  }

  /**
   * Whatever challenge a device answered, it takes an answer exactly if its envelope opens and, if the answer is
   * Bidirection, it is vouched for; then it holds the key inside, without any completion having to draw it.
   */
  lemma AnswerIsTaken(setup: Setup, w: World, call: nat, device: string, info: string, si: SecurityInfo)
    requires device in setup.devices && call !in w.pending
    requires StateOf(w, device).mode.Some? && ParseSecurityInfo(info) == Good(si)
    ensures Enabled(setup, w, Check(call, device, info))
    ensures
      var opts := setup.devices[device];
      call in Step(setup, w, Check(call, device, info)).pending <==>
      && Open(w.lib, opts.key, si.cryptKey).Some?
      && (si.mode == Bidirection ==> D.Vouched(opts, w.lib, StateOf(w, device), si))
    ensures
      var events := [Check(call, device, info), Keep(call)];
      call in Step(setup, w, Check(call, device, info)).pending ==>
      && Legal(setup, w, events)
      && var v := Run(setup, w, events);
        && device in v.states && v.states[device].vkek == Open(w.lib, setup.devices[device].key, si.cryptKey)
        && v.sessions == w.sessions && v.completed == w.completed
  {
    var opts, st := setup.devices[device], StateOf(w, device);
    D.AnswerModeDecides(opts, w.lib, st, info, si);
    OpenedHoldsKey(opts, w.lib, st, info, si);
    hide ParseSecurityInfo, D.Vouched, D.OpenedInfo, Legal, Run;
    if D.OpenedInfo(opts, w.lib, st, info).Good? {
      CheckThenKeep(setup, w, call, device, info, si, Open(w.lib, opts.key, si.cryptKey).value);
    }
  }

  lemma OpenedHoldsKey(opts: D.Options, lib: Library, st: D.Handshake, info: string, si: SecurityInfo)
    requires st.mode.Some? && ParseSecurityInfo(info) == Good(si)
    ensures
      var read := D.OpenedInfo(opts, lib, st, info);
      read.Good? ==> read.fields.0 == si && Open(lib, opts.key, si.cryptKey) == Some(read.fields.1)
  {
    hide ParseSecurityInfo, D.Vouched;
  }

  /** No later completion is for the same device. */
  predicate Latest(w: World, id: string, i: nat) {
    forall j :: i < j < |w.completed| ==> w.completed[j].job.deviceId != id
  }

  /** No key was drawn twice. */
  predicate DrawnApart(completed: seq<Completion>) {
    forall i, j :: 0 <= i < j < |completed| ==> completed[i].vkek != completed[j].vkek
  }

  /**
   * With wire strings the randoms themselves agree, and, keys being drawn apart, both ends hold one key
   * exactly as long as no later completion for the device replaces it.
   */
  lemma BothHoldTheKey(setup: Setup, events: seq<Event>, k: nat, n: nat, m: nat) returns (i: nat)
    requires Reachable(setup, events)
    requires k < |Run(setup, EMPTY, events).accepted|
    requires
      var w := Run(setup, EMPTY, events);
      var a := w.accepted[k];
      && a.info.mode == Bidirection
      && a.device in setup.devices && Paired(setup, setup.devices[a.device])
      && FixedLengths(setup, w, a, n, m) && setup.platform.encoding.WireStrings?
    ensures i < |Run(setup, EMPTY, events).completed|
    ensures
      var w := Run(setup, EMPTY, events);
      var a, c, id := w.accepted[k], w.completed[i], setup.devices[w.accepted[k].device].deviceId;
      && c.job.auth.random1 == a.state.random1 && c.job.auth.random2 == a.state.random2
      && c.vkek == a.vkek && a.state.random1 in Issued(w, id)
      && id in w.sessions
      && (Latest(w, id, i) ==> w.sessions[id].vkek == Some(a.vkek))
      && (DrawnApart(w.completed) ==> (w.sessions[id].vkek == Some(a.vkek) <==> Latest(w, id, i)))
  {
    i := Agreement(setup, events, k, n, m);
    var w := Run(setup, EMPTY, events);
    var c, id := w.completed[i], setup.devices[w.accepted[k].device].deviceId;
    ReachableKeepsInv(setup, events);
    assert id in w.sessions;
    InvSession(setup, w, id);
    hide Inv, Run, Legal, ParseAuthorization, SignAuthPayload, BuildSecurityInfo;
    assert Issued(w, id)[c.job.epoch - 1] in Issued(w, id);
    if Latest(w, id, i) {
      LastIs(w.completed, id, i);
    } else {
      LastIsLater(w.completed, id, i);
    }
  }

  lemma LastIsLater(completed: seq<Completion>, d: string, i: nat)
    requires i < |completed| && completed[i].job.deviceId == d
    requires exists j :: i < j < |completed| && completed[j].job.deviceId == d
    ensures LastCompletion(completed, d).Some?
    ensures DrawnApart(completed) ==> LastCompletion(completed, d).value.vkek != completed[i].vkek
  {
    var j :| i < j < |completed| && completed[j].job.deviceId == d;
    SomeIsLast(completed, d, j);
    var k := LastIsACompletion(completed, d);
    hide LastCompletion;
    assert k >= j;
  }

  lemma {:induction false} SomeIsLast(completed: seq<Completion>, d: string, j: nat)
    requires j < |completed| && completed[j].job.deviceId == d
    ensures LastCompletion(completed, d).Some?
  {
    if j < |completed| - 1 {
      SomeIsLast(completed[..|completed| - 1], d, j);
    }
  }

  lemma {:induction false} LastIs(completed: seq<Completion>, d: string, i: nat)
    requires i < |completed| && completed[i].job.deviceId == d
    requires forall j :: i < j < |completed| ==> completed[j].job.deviceId != d
    ensures LastCompletion(completed, d) == Some(completed[i])
  {
    if i < |completed| - 1 {
      LastIs(completed[..|completed| - 1], d, i);
    }
  }

  // --- An undisturbed handshake ---

  /** Platform and device know each other's keys, names and conventions. */
  ghost predicate Matched(setup: Setup, opts: D.Options, announced: Option<Key>) {
    && opts.serverId == setup.platform.serverId && IsWord(opts.serverId) && IsWord(opts.deviceId)
    && opts.order == setup.platform.order && opts.encoding == setup.platform.encoding
    && (if opts.deviceId in setup.platform.deviceCerts then setup.platform.deviceCerts[opts.deviceId] == opts.key
        else announced == Some(opts.key))
    && (setup.platform.mode == Bidirection ==>
        setup.platform.identity.Some? && opts.platformCert == setup.platform.identity)
  }

  /** The random draws and library results of one handshake; all are printed between quotes. */
  datatype Draws = Draws(
    random1: string, random2: string, sign1: string, vkek: string, cryptKey: string, sign2: string)

  predicate Quotable(x: Draws) {
    IsWord(x.random1) && IsWord(x.random2) && IsWord(x.sign1) && IsWord(x.cryptKey) && IsWord(x.sign2)
  }

  function Posed(setup: Setup, x: Draws): Headers.Challenge {
    Headers.Challenge(setup.platform.mode, CHALLENGE_ALGORITHM, x.random1)
  }

  function Sent(setup: Setup, opts: D.Options, x: Draws): Authorization {
    Authorized(Posed(setup, x), x.random2, opts.serverId, opts.deviceId, x.sign1)
  }

  function SentText(setup: Setup, opts: D.Options, x: Draws): string {
    D.AnswerHeader(opts, Posed(setup, x), x.random2, x.sign1)
  }

  function Returned(setup: Setup, opts: D.Options, x: Draws): SecurityInfo {
    Respond(setup.platform, opts.deviceId, Sent(setup, opts, x), x.cryptKey, x.sign2)
  }

  lemma MatchedAuthorizationIsAccepted(
    setup: Setup, opts: D.Options, announced: Option<Key>, x: Draws, lib: Library, s: Session)
    requires Matched(setup, opts, announced) && Quotable(x)
    requires Signature(opts.key, D.AuthPayload(opts, Posed(setup, x), x.random2), x.sign1) in lib.signatures
    requires s.mode == Some(setup.platform.mode) && s.random1 == x.random1 && s.lastAuth == ""
    requires announced.Some? ==> s.announced == announced
    ensures Judge(setup.platform, lib, opts.deviceId, SentText(setup, opts, x), Some(s))
      == Accept(Sent(setup, opts, x), opts.key)
  {
    AuthorizationRoundTrip(Posed(setup, x), x.random2, opts.serverId, opts.deviceId, x.sign1);
    EmptyIsRefused();
    hide ParseAuthorization, BuildAuthorization, SignAuthPayload, IsWord;
  }

  lemma ReturnedFields(setup: Setup, opts: D.Options, x: Draws)
    ensures
      var si := Returned(setup, opts, x);
      && si.mode == setup.platform.mode && si.algorithm == CAPABILITY_ALGORITHM && si.cryptKey == x.cryptKey
      && (if si.mode == Bidirection then
            si.random1 == x.random1 && si.random2 == x.random2 && si.deviceId == opts.deviceId
            && si.serverId == setup.platform.serverId && si.sign2 == x.sign2
          else si.random1 == si.random2 == si.deviceId == si.serverId == si.sign2 == "")
  {
  }

  lemma CheckedInfoIsOpened(
    opts: D.Options, lib: Library, st: D.Handshake, info: string, si: SecurityInfo, vkek: string)
    requires st.mode.Some? && ParseSecurityInfo(info) == Good(si) && Open(lib, opts.key, si.cryptKey) == Some(vkek)
    requires si.mode == Bidirection ==> D.Vouched(opts, lib, st, si)
    ensures D.OpenedInfo(opts, lib, st, info) == Good((si, vkek))
  {
    hide ParseSecurityInfo, Open, Verifies, Sign2Payload;
  }

  lemma MatchedInfoIsOpened(
    setup: Setup, opts: D.Options, announced: Option<Key>, x: Draws, lib: Library, st: D.Handshake)
    requires Matched(setup, opts, announced) && Quotable(x)
    requires st.mode.Some? && st.random1 == x.random1 && st.random2 == x.random2
    requires Open(lib, opts.key, x.cryptKey) == Some(x.vkek)
    requires setup.platform.mode == Bidirection ==>
      Verifies(lib, setup.platform.identity.value,
               Sign2Payload(x.random1, x.random2, opts.deviceId, x.cryptKey, opts.order, opts.encoding), x.sign2)
    ensures D.OpenedInfo(opts, lib, st, BuildSecurityInfo(Returned(setup, opts, x)))
      == Good((Returned(setup, opts, x), x.vkek))
  {
    hide ParseSecurityInfo, BuildSecurityInfo, Sign2Payload, Verifies, Open, D.OpenedInfo, Returned, IsWord, Unquoted;
    var si := Returned(setup, opts, x);
    ReturnedFields(setup, opts, x);
    AlgorithmIsUnquoted();
    SecurityInfoRoundTrip(si);
    assert Printable(si);
    hide Printable, Quotable;
    CheckedInfoIsOpened(opts, lib, st, BuildSecurityInfo(si), si, x.vkek);
  }

  /** Challenge, answer, and both sections of the platform's verification. */
  function Registering(setup: Setup, device: string, announced: Option<Key>, x: Draws, call: nat): seq<Event>
    requires device in setup.devices
  {
    var opts := setup.devices[device];
    [Event.Challenge(opts.deviceId, x.random1, announced),
     Answer(device, BuildChallenge(setup.platform.mode, x.random1), x.random2, x.sign1),
     Begin(call, opts.deviceId, SentText(setup, opts, x)),
     Finish(call, x.vkek, x.cryptKey, x.sign2)]
  }

  /** Both sections of the device's check of the answer. */
  function Confirming(setup: Setup, device: string, x: Draws, call: nat): seq<Event>
    requires device in setup.devices
  {
    [Check(call, device, BuildSecurityInfo(Returned(setup, setup.devices[device], x))), Keep(call)]
  }

  lemma PlatformRegisters(
    setup: Setup, w: World, device: string, announced: Option<Key>, x: Draws, call: nat) returns (v: World)
    requires device in setup.devices && Matched(setup, setup.devices[device], announced) && Quotable(x)
    requires call !in w.jobs && x.cryptKey !in w.lib.envelopes
    ensures Legal(setup, w, Registering(setup, device, announced, x, call))
    ensures v == Run(setup, w, Registering(setup, device, announced, x, call))
    ensures v.states == w.states[device := D.Answering(StateOf(w, device), Posed(setup, x), x.random2)]
    ensures v.pending == w.pending
    ensures
      var opts := setup.devices[device];
      && opts.deviceId in v.sessions && v.sessions[opts.deviceId].vkek == Some(x.vkek)
      && v.sessions[opts.deviceId].lastAuth == SentText(setup, opts, x)
      && Open(v.lib, opts.key, x.cryptKey) == Some(x.vkek)
      && (setup.platform.mode == Bidirection ==>
          Verifies(v.lib, setup.platform.identity.value,
                   Sign2Payload(x.random1, x.random2, opts.deviceId, x.cryptKey, opts.order, opts.encoding), x.sign2))
  {
    hide Legal, Run, SentText, Judge, Sign2Payload, Quotable, Verifies, Open, BuildChallenge, Enabled, Step;
    var opts := setup.devices[device];
    var id := opts.deviceId;
    var e1 := Event.Challenge(id, x.random1, announced);
    var e2 := Answer(device, BuildChallenge(setup.platform.mode, x.random1), x.random2, x.sign1);
    var w2 := DeviceAnswers(setup, w, device, announced, x);
    var e3 := Begin(call, id, SentText(setup, opts, x));
    MatchedAuthorizationIsAccepted(setup, opts, announced, x, w2.lib, w2.sessions[id]);
    BeginAccepts(setup, w2, call, id, SentText(setup, opts, x));
    var w3 := Step(setup, w2, e3);
    var e4 := Finish(call, x.vkek, x.cryptKey, x.sign2);
    AfterFinish(setup, w3, opts, announced, x, e4);
    v := Step(setup, w3, e4);
    RunsOfFour(setup, w, e1, e2, e3, e4);
  }

  lemma DeviceAnswers(setup: Setup, w: World, device: string, announced: Option<Key>, x: Draws) returns (v: World)
    requires device in setup.devices && Matched(setup, setup.devices[device], announced) && Quotable(x)
    ensures
      var e1 := Event.Challenge(setup.devices[device].deviceId, x.random1, announced);
      var e2 := Answer(device, BuildChallenge(setup.platform.mode, x.random1), x.random2, x.sign1);
      && Enabled(setup, w, e1) && Enabled(setup, Step(setup, w, e1), e2)
      && v == Step(setup, Step(setup, w, e1), e2)
    ensures v.states == w.states[device := D.Answering(StateOf(w, device), Posed(setup, x), x.random2)]
    ensures v.pending == w.pending && v.jobs == w.jobs && v.lib.envelopes == w.lib.envelopes
    ensures
      var opts := setup.devices[device];
      && opts.deviceId in v.sessions
      && Lookup(v.sessions, opts.deviceId) == Some(v.sessions[opts.deviceId])
      && var s := v.sessions[opts.deviceId];
        && s.mode == Some(setup.platform.mode) && s.random1 == x.random1 && s.lastAuth == ""
        && (announced.Some? ==> s.announced == announced)
        && Signature(opts.key, D.AuthPayload(opts, Posed(setup, x), x.random2), x.sign1) in v.lib.signatures
  {
    var e1 := Event.Challenge(setup.devices[device].deviceId, x.random1, announced);
    var w1 := Step(setup, w, e1);
    v := AnsweredWorld(setup, w1, device, x);
  }

  lemma AfterFinish(setup: Setup, w: World, opts: D.Options, announced: Option<Key>, x: Draws, e: Event)
    requires Matched(setup, opts, announced)
    requires e.Finish? && e.call in w.jobs && e.cryptKey !in w.lib.envelopes
    requires e == Finish(e.call, x.vkek, x.cryptKey, x.sign2)
    requires
      var j := w.jobs[e.call];
      && j.deviceId == opts.deviceId && j.authorization == SentText(setup, opts, x)
      && j.auth == Sent(setup, opts, x) && j.cert == opts.key
    ensures Enabled(setup, w, e)
    ensures
      var v := Step(setup, w, e);
      && v.states == w.states && v.pending == w.pending
      && opts.deviceId in v.sessions && v.sessions[opts.deviceId].vkek == Some(x.vkek)
      && v.sessions[opts.deviceId].lastAuth == SentText(setup, opts, x)
      && Open(v.lib, opts.key, x.cryptKey) == Some(x.vkek)
      && (setup.platform.mode == Bidirection ==>
          Verifies(v.lib, setup.platform.identity.value,
                   Sign2Payload(x.random1, x.random2, opts.deviceId, x.cryptKey, opts.order, opts.encoding), x.sign2))
  {
    hide SentText, BuildSecurityInfo, Sign2Payload, InfoOf;
  }

  lemma DeviceConfirms(setup: Setup, w: World, device: string, announced: Option<Key>, x: Draws, call: nat)
    requires device in setup.devices && Matched(setup, setup.devices[device], announced) && Quotable(x)
    requires call !in w.pending && device in w.states
    requires
      var st, opts := w.states[device], setup.devices[device];
      && st.mode.Some? && st.random1 == x.random1 && st.random2 == x.random2
      && Open(w.lib, opts.key, x.cryptKey) == Some(x.vkek)
      && (setup.platform.mode == Bidirection ==>
          Verifies(w.lib, setup.platform.identity.value,
                   Sign2Payload(x.random1, x.random2, opts.deviceId, x.cryptKey, opts.order, opts.encoding), x.sign2))
    ensures Legal(setup, w, Confirming(setup, device, x, call))
    ensures
      var v := Run(setup, w, Confirming(setup, device, x, call));
      v.sessions == w.sessions && device in v.states && v.states[device].vkek == Some(x.vkek)
  {
    var opts := setup.devices[device];
    MatchedInfoIsOpened(setup, opts, announced, x, w.lib, w.states[device]);
    hide BuildSecurityInfo, D.OpenedInfo, Sign2Payload, Returned, Matched, Quotable, Verifies, Open, Legal, Run;
    CheckThenKeep(
      setup, w, call, device, BuildSecurityInfo(Returned(setup, opts, x)), Returned(setup, opts, x), x.vkek);
  }

  /** From any world, one undisturbed handshake between matched ends leaves both with the drawn key. */
  lemma HandshakeCompletes(
    setup: Setup, w: World, device: string, announced: Option<Key>, x: Draws, call1: nat, call2: nat)
    requires device in setup.devices && Matched(setup, setup.devices[device], announced) && Quotable(x)
    requires call1 !in w.jobs && call2 !in w.pending && x.cryptKey !in w.lib.envelopes
    ensures
      var events := Registering(setup, device, announced, x, call1) + Confirming(setup, device, x, call2);
      var id := setup.devices[device].deviceId;
      && Legal(setup, w, events)
      && var v := Run(setup, w, events);
        && device in v.states && v.states[device].vkek == Some(x.vkek)
        && id in v.sessions && v.sessions[id].vkek == Some(x.vkek)
        && v.sessions[id].lastAuth == SentText(setup, setup.devices[device], x)
  {
    hide Registering, Confirming, SentText, Legal, Run, Sign2Payload, Verifies, Open, Matched, Quotable;
    var v := PlatformRegisters(setup, w, device, announced, x, call1);
    DeviceConfirms(setup, v, device, announced, x, call2);
    RunAppend(setup, w, Registering(setup, device, announced, x, call1), Confirming(setup, device, x, call2));
  }

  lemma AnsweredWorld(setup: Setup, w: World, device: string, x: Draws) returns (v: World)
    requires device in setup.devices && IsWord(x.random1)
    ensures v == Step(setup, w, Answer(device, BuildChallenge(setup.platform.mode, x.random1), x.random2, x.sign1))
    ensures v == w.(
      states := w.states[device := D.Answering(StateOf(w, device), Posed(setup, x), x.random2)],
      lib := Sign(w.lib, Signature(
        setup.devices[device].key, D.AuthPayload(setup.devices[device], Posed(setup, x), x.random2), x.sign1)))
  {
    ChallengeRoundTrip(setup.platform.mode, x.random1);
    hide ParseChallenge, BuildChallenge;
    v := Step(setup, w, Answer(device, BuildChallenge(setup.platform.mode, x.random1), x.random2, x.sign1));
  }
}
