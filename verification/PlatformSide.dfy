/** The platform's REGISTER state machine: one session per device ID, guarded by a mutex taken twice per call. */
module PlatformSide {
  import opened Results
  import opened Headers
  import opened Crypto

  datatype Config = Config(
    serverId: string, identity: Option<Key>, deviceCerts: map<string, Key>, mode: Mode, encoding: Encoding,
    order: Order)

  /** The mode defaults to what the configured identity allows. */
  function Configured(
    serverId: string, identity: Option<Key>, deviceCerts: map<string, Key>, requested: Option<Mode>,
    encoding: Encoding, order: Order): (r: Result<Config>)
    ensures r.Ok? ==> r.value.serverId != "" && (r.value.mode == Bidirection ==> r.value.identity.Some?)
    ensures r.Err? <==> serverId == "" || (requested == Some(Bidirection) && identity == None)
    ensures r.Ok? && requested.Some? ==> r.value.mode == requested.value
    ensures r.Ok? && requested.None? ==> (r.value.mode == Bidirection <==> identity.Some?)
    ensures r.Ok? ==>
      var c := r.value;
      && c.serverId == serverId && c.identity == identity && c.deviceCerts == deviceCerts
      && c.encoding == encoding && c.order == order
  {
    if serverId == "" then Err
    else
      match requested
      case None =>
        Ok(Config(serverId, identity, deviceCerts, if identity.Some? then Bidirection else Unidirection, encoding,
                  order))
      case Some(mode) =>
        if mode == Bidirection && identity.None? then Err
        else Ok(Config(serverId, identity, deviceCerts, mode, encoding, order))
  }

  datatype Session = Session(
    mode: Option<Mode>, random1: string, announced: Option<Key>, vkek: Option<string>, lastAuth: string,
    lastInfo: string)

  type Sessions = map<string, Session>

  /** `entry(device_id).or_default()` */
  function SessionOf(sessions: Sessions, deviceId: string): Session {
    if deviceId in sessions then sessions[deviceId] else Session(None, "", None, None, "", "")
  }

  function Lookup(sessions: Sessions, deviceId: string): Option<Session> {
    if deviceId in sessions then Some(sessions[deviceId]) else None
  }

  /** A challenge forgets the completed exchange but keeps the negotiated key and any announced certificate. */
  function Challenged(s: Session, mode: Mode, random1: string, announced: Option<Key>): Session {
    Session(Some(mode), random1, if announced.Some? then announced else s.announced, s.vkek, "", "")
  }

  datatype Failure =
    | Malformed | OutOfRangeHeader | NoChallenge | ChallengeMismatch | ModeMismatch | ServerIdMismatch
    | DeviceIdMismatch | NoDeviceCert | BadSignature | NoIdentity | SealingFailed | SigningFailed | NoSession

  datatype Verdict = Replay(info: string) | Accept(auth: Authorization, cert: Key) | Reject(failure: Failure)

  /** The certificate a signature is checked against: the configured one, else the announced one. */
  function CertOf(cfg: Config, s: Session, deviceId: string): Option<Key> {
    if deviceId in cfg.deviceCerts then Some(cfg.deviceCerts[deviceId]) else s.announced
  }

  /** Everything `verify_register` decides from the session it read. */
  function Judge(cfg: Config, lib: Library, deviceId: string, authorization: string, session: Option<Session>)
    : Verdict
  {
    match ParseAuthorization(authorization)
    case Refused => Reject(Malformed)
    case OutOfRange => Reject(OutOfRangeHeader)
    case Good(auth) =>
      match session
      case None => Reject(NoChallenge)
      case Some(s) =>
        if authorization == s.lastAuth then Replay(s.lastInfo)
        else if auth.random1 != s.random1 then Reject(ChallengeMismatch)
        else if s.mode.None? then Reject(NoChallenge)
        else if auth.mode != s.mode.value then Reject(ModeMismatch)
        else if auth.serverId != cfg.serverId then Reject(ServerIdMismatch)
        else if auth.deviceId != "" && auth.deviceId != deviceId then Reject(DeviceIdMismatch)
        else
          var cert := CertOf(cfg, s, deviceId);
          if cert.None? then Reject(NoDeviceCert)
          else if !Verifies(lib, cert.value, SignAuthPayload(auth.random1, auth.random2, auth.serverId, cfg.encoding),
                            auth.sign1)
          then Reject(BadSignature)
          else Accept(auth, cert.value)
  }

  /** The answer to an accepted Authorization. */
  function Respond(cfg: Config, deviceId: string, auth: Authorization, cryptKey: string, sign2: string): SecurityInfo {
    match auth.mode
    case Unidirection => SecurityInfo(Unidirection, CAPABILITY_ALGORITHM, "", "", "", "", cryptKey, "")
    case Bidirection =>
      SecurityInfo(Bidirection, CAPABILITY_ALGORITHM, auth.random1, auth.random2, deviceId, cfg.serverId, cryptKey,
                   sign2)
  }

  function Completed(s: Session, authorization: string, vkek: string, info: string): Session {
    s.(vkek := Some(vkek), lastAuth := authorization, lastInfo := info)
  }

  /** The random draws and library results of one `verify_register` call. */
  datatype Draw = Draw(vkek: string, cryptKey: Option<string>, sign2: Option<string>)

  datatype Answer = Answered(info: string) | Failed(failure: Failure)

  function AnswerTo(cfg: Config, deviceId: string, auth: Authorization, draw: Draw): Answer {
    if draw.cryptKey.None? then Failed(SealingFailed)
    else if auth.mode == Bidirection && cfg.identity.None? then Failed(NoIdentity)
    else if auth.mode == Bidirection && draw.sign2.None? then Failed(SigningFailed)
    else
      var sign2 := if auth.mode == Bidirection then draw.sign2.value else "";
      Answered(BuildSecurityInfo(Respond(cfg, deviceId, auth, draw.cryptKey.value, sign2)))
  }

  /** `verify_register` with nothing in between its two critical sections. */
  function Registered(
    cfg: Config, lib: Library, sessions: Sessions, deviceId: string, authorization: string, draw: Draw)
    : (Answer, Sessions)
  {
    match Judge(cfg, lib, deviceId, authorization, Lookup(sessions, deviceId))
    case Replay(info) => (Answered(info), sessions)
    case Reject(failure) => (Failed(failure), sessions)
    case Accept(auth, cert) =>
      match AnswerTo(cfg, deviceId, auth, draw)
      case Failed(failure) => (Failed(failure), sessions)
      case Answered(info) =>
        (Answered(info),
         sessions[deviceId := Completed(SessionOf(sessions, deviceId), authorization, draw.vkek, info)])
  }

  class Platform {
    const cfg: Config
    var sessions: Sessions

    constructor (cfg: Config)
      ensures this.cfg == cfg && sessions == map[]
    {
      this.cfg := cfg;
      sessions := map[];
    }

    method Challenge(deviceId: string, random1: string, announced: Option<Key>) returns (header: string)
      modifies this
      ensures header == BuildChallenge(cfg.mode, random1)
      ensures sessions
        == old(sessions)[deviceId := Challenged(SessionOf(old(sessions), deviceId), cfg.mode, random1, announced)]
    {
      var session := SessionOf(sessions, deviceId);
      session := session.(mode := Some(cfg.mode));
      session := session.(random1 := random1);
      session := session.(lastAuth := "", lastInfo := "");
      if announced.Some? {
        session := session.(announced := announced);
      }
      sessions := sessions[deviceId := session];
      header := BuildChallenge(cfg.mode, random1);
    }

    /** The first critical section of `verify_register`. */
    method ReadSession(deviceId: string) returns (s: Option<Session>)
      ensures s == Lookup(sessions, deviceId)
    {
      s := if deviceId in sessions then Some(sessions[deviceId]) else None;
    }

    /** The second critical section: it writes whatever the session has become meanwhile. */
    method StoreCompletion(deviceId: string, authorization: string, vkek: string, info: string)
      modifies this
      ensures sessions
        == old(sessions)[deviceId := Completed(SessionOf(old(sessions), deviceId), authorization, vkek, info)]
    {
      var session := SessionOf(sessions, deviceId);
      session := session.(vkek := Some(vkek));
      session := session.(lastAuth := authorization);
      session := session.(lastInfo := info);
      sessions := sessions[deviceId := session];
    }

    method VerifyRegister(lib: Library, deviceId: string, authorization: string, draw: Draw) returns (answer: Answer)
      modifies this
      ensures (answer, sessions) == Registered(cfg, lib, old(sessions), deviceId, authorization, draw)
    {
      var session := ReadSession(deviceId);
      match Judge(cfg, lib, deviceId, authorization, session) {
        case Replay(info) => answer := Answered(info);
        case Reject(failure) => answer := Failed(failure);
        case Accept(auth, cert) =>
          answer := AnswerTo(cfg, deviceId, auth, draw);
          if answer.Answered? {
            StoreCompletion(deviceId, authorization, draw.vkek, answer.info);
          }
      }
    }

    method Vkek(deviceId: string) returns (vkek: Option<string>)
      ensures vkek == SessionOf(sessions, deviceId).vkek
    {
      vkek := if deviceId in sessions then sessions[deviceId].vkek else None;
    }
  }

  // --- The checks of a call, and their order ---

  /** What must hold, and what a call is refused for if it does not. */
  type Check = (bool, Failure)

  function FirstFailure(checks: seq<Check>): Option<Failure> {
    if checks == [] then None
    else if !checks[0].0 then Some(checks[0].1)
    else FirstFailure(checks[1..])
  }

  /** The configured certificate is used if there is one, else the one announced, if any. */
  predicate IsCertFor(cfg: Config, s: Session, deviceId: string, cert: Key) {
    if deviceId in cfg.deviceCerts then cert == cfg.deviceCerts[deviceId] else s.announced == Some(cert)
  }

  lemma CertIsFor(cfg: Config, s: Session, deviceId: string, cert: Key)
    ensures CertOf(cfg, s, deviceId) == Some(cert) <==> IsCertFor(cfg, s, deviceId, cert)
    ensures CertOf(cfg, s, deviceId) == None <==> deviceId !in cfg.deviceCerts && s.announced == None
  {
  }

  /** Everything an Authorization that is not a retransmission must meet, in the order it is checked. */
  function Checks(
    cfg: Config, lib: Library, deviceId: string, auth: Authorization, s: Session, cert: Key): seq<Check>
  {
    [ (auth.random1 == s.random1, ChallengeMismatch),
      (s.mode.Some?, NoChallenge),
      (s.mode == Some(auth.mode), ModeMismatch),
      (auth.serverId == cfg.serverId, ServerIdMismatch),
      (auth.deviceId in ["", deviceId], DeviceIdMismatch),
      (deviceId in cfg.deviceCerts || s.announced.Some?, NoDeviceCert),
      (Verifies(
         lib, cert, SignAuthPayload(auth.random1, auth.random2, auth.serverId, cfg.encoding), auth.sign1),
       BadSignature) ]
  }

  /**
   * A header that does not parse is refused before anything else, then a device without a session; the cached
   * Authorization gets the cached answer; any other is refused for the first check it fails, and else accepted with
   * its own fields and the certificate in use.
   */
  lemma CallsAreJudged(
    cfg: Config, lib: Library, deviceId: string, authorization: string, session: Option<Session>, cert: Key)
    requires
      session.Some? && (deviceId in cfg.deviceCerts || session.value.announced.Some?) ==>
        IsCertFor(cfg, session.value, deviceId, cert)
    ensures
      Judge(cfg, lib, deviceId, authorization, session) ==
        match (ParseAuthorization(authorization), session)
        case (Refused, _) => Reject(Malformed)
        case (OutOfRange, _) => Reject(OutOfRangeHeader)
        case (Good(_), None) => Reject(NoChallenge)
        case (Good(auth), Some(s)) =>
          if authorization == s.lastAuth then Replay(s.lastInfo)
          else
            match FirstFailure(Checks(cfg, lib, deviceId, auth, s, cert))
            case Some(failure) => Reject(failure)
            case None => Accept(auth, cert)
  {
    hide ParseAuthorization, SignAuthPayload, Verifies;
    match (ParseAuthorization(authorization), session) {
      case (Good(auth), Some(s)) =>
        CertIsFor(cfg, s, deviceId, cert);
        FailuresInOrder(Checks(cfg, lib, deviceId, auth, s, cert));
      case _ =>
    }
  }

  lemma FailuresInOrder(checks: seq<Check>)
    requires |checks| == 7
    ensures FirstFailure(checks) ==
      if !checks[0].0 then Some(checks[0].1)
      else if !checks[1].0 then Some(checks[1].1)
      else if !checks[2].0 then Some(checks[2].1)
      else if !checks[3].0 then Some(checks[3].1)
      else if !checks[4].0 then Some(checks[4].1)
      else if !checks[5].0 then Some(checks[5].1)
      else if !checks[6].0 then Some(checks[6].1)
      else None
  {
    FailureAt(checks, 0);
    FailureAt(checks, 1);
    FailureAt(checks, 2);
    FailureAt(checks, 3);
    FailureAt(checks, 4);
    FailureAt(checks, 5);
    FailureAt(checks, 6);
    assert FirstFailure(checks[7..]) == None;
    assert checks[0..] == checks;
    hide FirstFailure;
  }

  lemma FailureAt(checks: seq<Check>, k: nat)
    requires k < |checks|
    ensures FirstFailure(checks[k..]) == if !checks[k].0 then Some(checks[k].1) else FirstFailure(checks[k + 1..])
  {
    assert checks[k..][1..] == checks[k + 1..];
  }

  /** An accepted call that cannot be completed says why: the envelope first, then the identity, then the signature. */
  lemma CompletionsFail(cfg: Config, deviceId: string, auth: Authorization, draw: Draw)
    ensures
      AnswerTo(cfg, deviceId, auth, draw).Answered? <==>
      && draw.cryptKey.Some?
      && (auth.mode == Bidirection ==> cfg.identity.Some? && draw.sign2.Some?)
    ensures draw.cryptKey.None? ==> AnswerTo(cfg, deviceId, auth, draw) == Failed(SealingFailed)
    ensures
      draw.cryptKey.Some? && auth.mode == Bidirection && cfg.identity.None? ==>
        AnswerTo(cfg, deviceId, auth, draw) == Failed(NoIdentity)
    ensures
      draw.cryptKey.Some? && auth.mode == Bidirection && cfg.identity.Some? && draw.sign2.None? ==>
        AnswerTo(cfg, deviceId, auth, draw) == Failed(SigningFailed)
  {
    hide BuildSecurityInfo;
  }

  /** A call that fails or replays leaves every session as it was, and no call touches another device's session. */
  lemma FailedCallsChangeNothing(
    cfg: Config, lib: Library, sessions: Sessions, deviceId: string, authorization: string, draw: Draw)
    ensures
      var (answer, after) := Registered(cfg, lib, sessions, deviceId, authorization, draw);
      && (answer.Failed? ==> after == sessions)
      && (Judge(cfg, lib, deviceId, authorization, Lookup(sessions, deviceId)).Replay? ==> after == sessions)
      && forall other :: other != deviceId ==> Lookup(after, other) == Lookup(sessions, other)
  {
    hide Judge, AnswerTo, Completed;
  }

  /**
   * A challenge ends the exchange before it: whatever answered an earlier one, replayed or not, is refused from then
   * on and changes nothing, while the negotiated key stays. No other device notices.
   */
  lemma ChallengeStartsAnew(
    cfg: Config, lib: Library, sessions: Sessions, deviceId: string, random1: string, announced: Option<Key>,
    authorization: string, draw: Draw)
    requires ParseAuthorization(authorization).Good? && ParseAuthorization(authorization).fields.random1 != random1
    requires authorization != ""
    ensures
      var after := sessions[deviceId := Challenged(SessionOf(sessions, deviceId), cfg.mode, random1, announced)];
      && Registered(cfg, lib, after, deviceId, authorization, draw) == (Failed(ChallengeMismatch), after)
      && after[deviceId].vkek == (if deviceId in sessions then sessions[deviceId].vkek else None)
      && after[deviceId].mode == Some(cfg.mode) && after[deviceId].random1 == random1
      && (forall other :: other != deviceId ==> Lookup(after, other) == Lookup(sessions, other))
  {
    hide ParseAuthorization;
  }

  /**
   * What an accepted Authorization is answered with, letter by letter: in Bidirection its own randoms, the ID of the
   * device the call is for, the server's, the envelope and the signature; in Unidirection the envelope alone.
   */
  lemma AnswerOnWire(cfg: Config, deviceId: string, auth: Authorization, draw: Draw)
    requires draw.cryptKey.Some? && (auth.mode == Bidirection ==> cfg.identity.Some? && draw.sign2.Some?)
    ensures
      AnswerTo(cfg, deviceId, auth, draw) == Answered(
        if auth.mode == Unidirection then
          "Unidirection" + " " + (
            "cryptkey" + "=\"" + draw.cryptKey.value + "\"" + ", " + (
            "algorithm" + "=\"" + CAPABILITY_ALGORITHM + "\""))
        else
          "Bidirection" + " " + (
            "algorithm" + "=\"" + CAPABILITY_ALGORITHM + "\"" + "," + (
            "random1" + "=\"" + auth.random1 + "\"" + "," + (
            "random2" + "=\"" + auth.random2 + "\"" + "," + (
            "deviceid" + "=\"" + deviceId + "\"" + "," + (
            "serverid" + "=\"" + cfg.serverId + "\"" + "," + (
            "cryptkey" + "=\"" + draw.cryptKey.value + "\"" + "," + (
            "sign2" + "=\"" + draw.sign2.value + "\""))))))))
  {
    var sign2 := if auth.mode == Bidirection then draw.sign2.value else "";
    SecurityInfoOnWire(Respond(cfg, deviceId, auth, draw.cryptKey.value, sign2));
    hide BuildSecurityInfo;
  }
}
