/** The device's REGISTER state machine. */
module DeviceSide {
  import opened Results
  import opened Headers
  import opened Crypto

  datatype Options = Options(
    key: Key, platformCert: Option<Key>, deviceId: string, serverId: string, encoding: Encoding, order: Order)

  datatype Handshake = Handshake(mode: Option<Mode>, random1: string, random2: string, vkek: Option<string>)

  const INITIAL := Handshake(None, "", "", None)

  /** What sign1 covers in answer to a challenge. */
  function AuthPayload(opts: Options, ch: Challenge, random2: string): string {
    SignAuthPayload(ch.random1, random2, opts.serverId, opts.encoding)
  }

  function Answering(st: Handshake, ch: Challenge, random2: string): Handshake {
    st.(mode := Some(ch.mode), random1 := ch.random1, random2 := random2)
  }

  function AnswerHeader(opts: Options, ch: Challenge, random2: string, sign1: string): string {
    BuildAuthorization(ch, random2, opts.serverId, opts.deviceId, sign1)
  }

  /** A Bidirection answer echoes this handshake, this device and its server, and the platform signed it. */
  predicate Vouched(opts: Options, lib: Library, st: Handshake, si: SecurityInfo) {
    && opts.platformCert.Some?
    && si.random1 == st.random1 && si.random2 == st.random2
    && si.deviceId == opts.deviceId && si.serverId == opts.serverId
    && Verifies(lib, opts.platformCert.value,
                Sign2Payload(si.random1, si.random2, si.deviceId, si.cryptKey, opts.order, opts.encoding),
                si.sign2)
  }

  /** What a device that has answered a challenge reads in the platform's answer: its fields and the key. */
  function OpenedInfo(opts: Options, lib: Library, st: Handshake, info: string): Parsing<(SecurityInfo, string)> {
    if st.mode.None? then Refused
    else
      match ParseSecurityInfo(info)
      case Refused => Refused
      case OutOfRange => OutOfRange
      case Good(si) =>
        match Open(lib, opts.key, si.cryptKey)
        case None => Refused
        case Some(vkek) =>
          if si.mode == Bidirection && !Vouched(opts, lib, st, si) then Refused else Good((si, vkek))
  }

  /** The mode of the answer alone decides whether it must be vouched for, not that of the challenge. */
  lemma AnswerModeDecides(opts: Options, lib: Library, st: Handshake, info: string, si: SecurityInfo)
    requires st.mode.Some? && ParseSecurityInfo(info) == Good(si)
    ensures
      OpenedInfo(opts, lib, st, info).Good? <==>
      Open(lib, opts.key, si.cryptKey).Some? && (si.mode == Bidirection ==> Vouched(opts, lib, st, si))
    ensures
      si.mode == Unidirection ==>
      forall other: Handshake ::
        other.mode.Some? ==> OpenedInfo(opts, lib, other, info) == OpenedInfo(opts, lib, st, info)
  {
    hide ParseSecurityInfo, Vouched;
  }

  class Authenticator {
    const opts: Options
    var state: Handshake

    constructor (opts: Options)
      ensures this.opts == opts && state == INITIAL
    {
      this.opts := opts;
      state := INITIAL;
    }

    /** Options without a device or server ID make no authenticator. */
    static method Create(opts: Options) returns (r: Result<Authenticator>)
      ensures r.Err? <==> opts.deviceId == "" || opts.serverId == ""
      ensures r.Ok? ==> fresh(r.value) && r.value.opts == opts && r.value.state == INITIAL
    {
      if opts.deviceId == "" || opts.serverId == "" {
        return Err;
      }
      var a := new Authenticator(opts);
      r := Ok(a);
    }

    /** sign1 is what the library returns for AuthPayload, None if signing fails. */
    method AuthorizeWithChallenge(header: string, random2: string, sign1: Option<string>)
      returns (authorization: Parsing<string>)
      modifies this
      ensures match ParseChallenge(header)
        case Refused => authorization == Refused && state == old(state)
        case OutOfRange => authorization == OutOfRange && state == old(state)
        case Good(ch) =>
          && authorization
              == (if sign1.None? then Refused else Good(AnswerHeader(opts, ch, random2, sign1.value)))
          && state == (if sign1.None? then old(state) else Answering(old(state), ch, random2))
    {
      match ParseChallenge(header) {
        case Refused => authorization := Refused;
        case OutOfRange => authorization := OutOfRange;
        case Good(ch) =>
          if sign1.None? {
            return Refused;
          }
          state := state.(mode := Some(ch.mode));
          state := state.(random1 := ch.random1);
          state := state.(random2 := random2);
          authorization := Good(AnswerHeader(opts, ch, random2, sign1.value));
      }
    }

    /**
     * The key is taken exactly if a challenge was answered, the text is a SecurityInfo whose envelope opens
     * under the device's key, and, if it is Bidirection, it echoes this handshake with the platform's signature
     * on it; then the key is what the envelope holds. Otherwise nothing changes.
     */
    method VerifyOk(lib: Library, info: string) returns (accepted: bool)
      modifies this
      ensures
        accepted <==>
        && old(state).mode.Some? && ParseSecurityInfo(info).Good?
        && var si := ParseSecurityInfo(info).fields;
          && Open(lib, opts.key, si.cryptKey).Some?
          && (si.mode == Bidirection ==>
                && opts.platformCert.Some?
                && si.random1 == old(state).random1 && si.random2 == old(state).random2
                && si.deviceId == opts.deviceId && si.serverId == opts.serverId
                && Verifies(lib, opts.platformCert.value,
                            Sign2Payload(si.random1, si.random2, si.deviceId, si.cryptKey, opts.order, opts.encoding),
                            si.sign2))
      ensures accepted ==>
        state == old(state).(vkek := Open(lib, opts.key, ParseSecurityInfo(info).fields.cryptKey))
      ensures !accepted ==> state == old(state)
      ensures accepted <==> OpenedInfo(opts, lib, old(state), info).Good?
      ensures accepted ==> state.vkek == Some(OpenedInfo(opts, lib, old(state), info).fields.1)
    {
      hide ParseSecurityInfo, Sign2Payload;
      var random1, random2 := state.random1, state.random2;
      if state.mode.None? {
        return false;
      }
      var parsed := ParseSecurityInfo(info);
      if !parsed.Good? {
        return false;
      }
      var si := parsed.fields;
      var vkek := Open(lib, opts.key, si.cryptKey);
      if vkek.None? {
        return false;
      }
      if si.mode == Bidirection {
        if opts.platformCert.None? {
          return false;
        }
        if si.random1 != random1 || si.random2 != random2 || si.deviceId != opts.deviceId
          || si.serverId != opts.serverId {
          return false;
        }
        var payload :=
          Sign2Payload(si.random1, si.random2, si.deviceId, si.cryptKey, opts.order, opts.encoding);
        if !Verifies(lib, opts.platformCert.value, payload, si.sign2) {
          return false;
        }
      }
      state := state.(vkek := Some(vkek.value));
      accepted := true;
    }
  }
}
