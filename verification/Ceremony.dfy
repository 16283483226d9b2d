/** The client's getAssertion ceremony: probe, token acquisition, exchange with its keepalive loop, and drain. */
module Ceremony {
  import opened Wrappers
  import opened ByteOrder
  import opened Budget
  import opened Cbor
  import opened Credentials
  import opened GetAssertion
  import opened GetInfo
  import opened ClientPin
  import opened PinCrypto

  // ---- the device

  /** What the ceremony does that can be observed from outside, in order. */
  datatype Call =
    | ProbeInfo
    | SendPin(request: PinRequest)
    | AskPin
    | SendAssertion(assertion: Request)
    | DrainNext

  type Trace = seq<Call>

  datatype CoreError =
    | CoreTimeout(phase: Phase)
    | AmbiguousDevice
    | UnknownDevice
    | TransportFailed
    | DeviceGone
    | ChannelClosed
    | DeviceBusy

  /** What a call is met with: an event, an error of the transport, or the budget running out first. */
  datatype Answer =
    | Responds(status: byte, body: seq<byte>)
    | KeepsAlive(status: byte)
    | Faults(error: CoreError)
    | Expires

  /** Any device: its answer may depend on everything so far, and the budget lasts for `patience` calls. */
  datatype Device = Device(behaviour: Trace -> Answer, patience: nat)

  /** The decoders, as they are applied to a body: strict map decoding followed by `from_cbor`. */
  datatype Decoders = Decoders(
    info: seq<byte> -> Option<Info>,
    assertion: seq<byte> -> Option<Response>,
    pin: seq<byte> -> Option<PinResponse>,
    lenientPin: seq<byte> -> Option<PinResponse>,
    pinEncodes: PinRequest -> bool)

  datatype Env = Env(crypto: Crypto, decoders: Decoders, device: Device)

  // ---- errors

  datatype Cause =
    | FromDevice(error: CoreError)
    | UnsupportedProtocol
    | PinnedProtocolUnsupported
    | NoMutualProtocol
    | NotEncodable
    | CryptoFailed(crypto: CryptoError)
    | NoKeyAgreement
    | NoTokenMember
    | UnexpectedKeepalive
    | BadBody
    | DrainMissing

  datatype CeremonyError =
    | TimedOut(phase: Phase)
    | Ambiguous
    | Transport(cause: Cause)
    | PinRequired
    | PinProviderFailed
    | PinTooLong
    | IncorrectPin(remaining: Option<nat>)
    | PinBlocked
    | PinAuthBlocked
    | PinNotSet
    | NoCredentials
    | UserActionTimeout
    | UserCancelled
    | UpRejected
    | Ctap(status: byte)
    | CredentialMismatch(returned: seq<byte>, allowed: seq<seq<byte>>)

  /** `CeremonyError::from_core`. */
  function FromCore(e: CoreError): CeremonyError {
    match e
    case CoreTimeout(phase) => TimedOut(phase)
    case AmbiguousDevice => Ambiguous
    case _ => Transport(FromDevice(e))
  }

  /** `CeremonyError::from_status`, by status byte. */
  function FromStatus(status: byte): Option<CeremonyError> {
    if status == 0x00 then None
    else if status == 0x2E || status == 0x22 then Some(NoCredentials)
    else if status == 0x2F then Some(UserActionTimeout)
    else if status == 0x2D then Some(UserCancelled)
    else if status == 0x31 then Some(IncorrectPin(None))
    else if status == 0x32 then Some(PinBlocked)
    else if status == 0x34 then Some(PinAuthBlocked)
    else if status == 0x35 then Some(PinNotSet)
    else if status == 0x27 || status == 0x3B || status == 0x33 || status == 0x36 || status == 0x37 || status == 0x3C
      then Some(UpRejected)
    else Some(Ctap(status))
  }

  // ---- the input

  datatype UvPolicy = Discouraged | Preferred

  /** `pinProvider` is what the provider will say if there is one; `entropy` feeds the platform key and the IVs. */
  datatype Input = Input(
    rpId: seq<byte>,
    clientDataHash: seq<byte>,
    allowCredentials: Option<seq<Descriptor>>,
    policy: UvPolicy,
    pinUvAuth: Option<(seq<byte>, Protocol)>,
    pinProvider: Option<Option<seq<byte>>>,
    pinProtocol: Option<Protocol>,
    entropy: seq<byte>,
    drain: bool)

  datatype UvEffective = NotRequested | PinUvAuth | UvOption | PinUvAuthToken

  datatype Outcome = Outcome(assertions: seq<Response>, info: Info, uv: UvEffective)

  type Ended<T> = (Trace, Result<T, CeremonyError>)

  // ---- one hop

  /** One exchange raced against the remaining budget. */
  function Hop(env: Env, trace: Trace, call: Call, phase: Phase): (r: Ended<Answer>)
    ensures r.1.Ok? ==>
              && r.0 == trace + [call] && |trace| < env.device.patience
              && (r.1.value.Responds? || r.1.value.KeepsAlive?)
    ensures r.1.Ok? ==> r.1.value == env.device.behaviour(trace + [call])
  {
    if |trace| >= env.device.patience then (trace, Err(TimedOut(phase))) else
      var t := trace + [call];
      match env.device.behaviour(t)
      case Expires => (t, Err(TimedOut(phase)))
      case Faults(e) => (t, Err(FromCore(e)))
      case event => (t, Ok(event))
  }

  /** `response_of`. */
  function ResponseOf(event: Answer): Result<(byte, seq<byte>), CeremonyError> {
    if event.Responds? then Ok((event.status, event.body)) else Err(Transport(UnexpectedKeepalive))
  }

  function Decoded<T>(status: byte, body: seq<byte>, decode: seq<byte> -> Option<T>): Result<T, CeremonyError> {
    match FromStatus(status)
    case Some(e) => Err(e)
    case None =>
      match decode(body)
      case Some(x) => Ok(x)
      case None => Err(Transport(BadBody))
  }

  /** The probe and its decoding (`decode_info`). */
  function Probe(env: Env, trace: Trace): Ended<Info> {
    var (t, event) := Hop(env, trace, ProbeInfo, GetInfoPhase);
    if event.Err? then (t, Err(event.error)) else
      match ResponseOf(event.value)
      case Err(e) => (t, Err(e))
      case Ok((status, body)) => (t, Decoded(status, body, env.decoders.info))
  }

  /** The retry count in the body of a PIN-invalid answer, if it can be read. */
  function RetriesIn(env: Env, body: seq<byte>): Option<nat> {
    if body == [] then None else
      match env.decoders.lenientPin(body)
      case Some(r) => r.pinRetries
      case None => None
  }

  /** `client_pin_hop`. */
  function PinHop(env: Env, trace: Trace, req: PinRequest): Ended<PinResponse> {
    if !env.decoders.pinEncodes(req) then (trace, Err(Transport(NotEncodable))) else
      var (t, event) := Hop(env, trace, SendPin(req), ClientPinPhase);
      if event.Err? then (t, Err(event.error)) else
        match ResponseOf(event.value)
        case Err(e) => (t, Err(e))
        case Ok((status, body)) =>
          if status == 0x31 then (t, Err(IncorrectPin(RetriesIn(env, body))))
          else (t, Decoded(status, body, env.decoders.pin))
  }

  // ---- token acquisition

  function Implemented(advertised: seq<Protocol>): Option<Protocol> {
    if advertised == [] then None
    else if advertised[0].Other? then Implemented(advertised[1..])
    else Some(advertised[0])
  }

  /** Protocol selection: the pinned one if advertised, else the first advertised that is implemented. */
  function Select(pinned: Option<Protocol>, advertised: seq<Protocol>): Result<Protocol, CeremonyError> {
    match pinned
    case Some(p) => if p in advertised then Ok(p) else Err(Transport(PinnedProtocolUnsupported))
    case None =>
      match Implemented(advertised)
      case Some(p) => Ok(p)
      case None => Err(Transport(NoMutualProtocol))
  }

  /** `encapsulate`. */
  function Encapsulate(c: Crypto, secret: seq<byte>, peer: Value, p: Protocol): Result<Shared, CeremonyError> {
    match PeerPoint(peer)
    case None => Err(Transport(CryptoFailed(BadPeerKey)))
    case Some((x, y)) =>
      if c.onCurve(x, y) then Ok(Derive(c, c.agree(secret, x, y), p)) else Err(Transport(CryptoFailed(BadPeerKey)))
  }

  function KeyRequest(c: Crypto, secret: seq<byte>, p: Protocol): PinRequest {
    PinRequest(p, GetKeyAgreement, Some(CoseKey(c.pointX(secret), c.pointY(secret))), None, None, None, None)
  }

  function TokenRequest(c: Crypto, secret: seq<byte>, p: Protocol, hashEnc: seq<byte>, puat: bool,
                        rpId: seq<byte>): PinRequest {
    PinRequest(p, if puat then GetPinUvAuthTokenUsingPinWithPermissions else GetPinToken,
               Some(CoseKey(c.pointX(secret), c.pointY(secret))), None, Some(hashEnc),
               if puat then Some(PERMISSION_GA) else None, if puat then Some(rpId) else None)
  }

  /** The parameter for getAssertion and the protocol it belongs to. */
  type Material = (seq<byte>, Protocol)

  /** `acquire_pin_uv_auth_token`. */
  function Acquire(env: Env, input: Input, provider: Option<seq<byte>>, info: Info, trace: Trace): Ended<Material> {
    match Select(input.pinProtocol, info.protocols.GetOr([]))
    case Err(e) => (trace, Err(e))
    case Ok(p) =>
      match DrawScalar(env.crypto, input.entropy, 8)
      case (Err(e), _) => (trace, Err(Transport(CryptoFailed(e))))
      case (Ok(secret), pool) =>
        var (t, answer) := PinHop(env, trace, KeyRequest(env.crypto, secret, p));
        if answer.Err? then (t, Err(answer.error))
        else if answer.value.keyAgreement.None? then (t, Err(Transport(NoKeyAgreement)))
        else match Encapsulate(env.crypto, secret, answer.value.keyAgreement.value, p)
             case Err(e) => (t, Err(e))
             case Ok(shared) => WithPin(env, input, provider, info, secret, shared, pool, t + [AskPin])
  }

  /** From the PIN on: it is asked for once the secret is shared, and checked before any further traffic. */
  function WithPin(env: Env, input: Input, provider: Option<seq<byte>>, info: Info, secret: seq<byte>, shared: Shared,
                   pool: seq<byte>, trace: Trace): Ended<Material>
  {
    if provider.None? then (trace, Err(PinProviderFailed))
    else if |provider.value| > MAX_PIN_BYTES then (trace, Err(PinTooLong))
    else match Encrypt(env.crypto, shared, pool, PinHash(env.crypto, provider.value)).0
         case Err(e) => (trace, Err(Transport(CryptoFailed(e))))
         case Ok(hashEnc) =>
           var puat := OptionValue(info, OPTION_PIN_UV_AUTH_TOKEN);
           WithToken(env, input, shared,
                     PinHop(env, trace, TokenRequest(env.crypto, secret, shared.protocol, hashEnc, puat, input.rpId)))
  }

  /** The material from the answer to the token request. */
  function WithToken(env: Env, input: Input, shared: Shared, hop: Ended<PinResponse>): Ended<Material> {
    if hop.1.Err? then (hop.0, Err(hop.1.error))
    else if hop.1.value.pinUvAuthToken.None? then (hop.0, Err(Transport(NoTokenMember)))
    else match Decrypt(env.crypto, shared, hop.1.value.pinUvAuthToken.value)
         case Err(e) => (hop.0, Err(Transport(CryptoFailed(e))))
         case Ok(token) => (hop.0, Ok((Authenticate(env.crypto, shared, token, input.clientDataHash), shared.protocol)))
  }

  // ---- the request

  /** `build_request`, with the material the caller held or the ceremony acquired. */
  function BuildRequest(input: Input, material: Option<Material>, info: Info): Result<Request, CeremonyError> {
    var allowList := if input.allowCredentials == Some([]) then None else input.allowCredentials;
    var plain := Request(input.rpId, input.clientDataHash, allowList, None, None, None, None);
    match material
    case None => Ok(plain)
    case Some((param, p)) =>
      if info.protocols.Some? && p in info.protocols.value
      then Ok(plain.(pinUvAuthParam := Some(param), pinUvAuthProtocol := Some(p)))
      else Err(Transport(UnsupportedProtocol))
  }

  /** `uv_posture_without_token`: whether options.uv is sent. */
  function UvPosture(policy: UvPolicy, info: Info): Result<bool, CeremonyError> {
    if policy == Discouraged then Ok(false)
    else if OptionValue(info, UV.utf8) then Ok(true)
    else if OptionValue(info, OPTION_CLIENT_PIN) then Err(PinRequired)
    else Ok(false)
  }

  /** The request that goes out. */
  function WireRequest(input: Input, material: Option<Material>, info: Info): Result<Request, CeremonyError> {
    var request :- BuildRequest(input, material, info);
    if material.Some? then Ok(request) else
      var uv :- UvPosture(input.policy, info);
      Ok(if uv then request.(options := Some(Options(None, Some(true)))) else request)
  }

  /** `uv_effective`. */
  function Effective(r: Request): UvEffective {
    if r.pinUvAuthParam.Some? then PinUvAuth
    else if r.options.Some? && r.options.value.uv == Some(true) then UvOption
    else NotRequested
  }

  /** Whether a token is to be acquired: preferred verification, a PIN-capable device, and nothing held. */
  predicate MustAcquire(input: Input, info: Info) {
    && input.pinUvAuth.None? && input.policy == Preferred && OptionValue(info, OPTION_CLIENT_PIN)
    && info.protocols.Some? && info.protocols.value != []
  }

  // ---- the exchange

  /** `keepalive_loop`: the command again for every keepalive, never with a fresh budget. */
  function KeepaliveLoop(env: Env, trace: Trace, call: Call, seen: bool): (r: Ended<Answer>)
    ensures r.1.Ok? ==> r.1.value.Responds?
    decreases env.device.patience - |trace|
  {
    var phase := if seen then UserPresence else GetAssertionPhase;
    var (t, event) := Hop(env, trace, call, phase);
    match event
    case Err(TimedOut(_)) => (t, Err(TimedOut(if seen then UserPresence else event.error.phase)))
    case Err(e) => (t, Err(e))
    case Ok(KeepsAlive(_)) => KeepaliveLoop(env, t, call, true)
    case Ok(response) => (t, Ok(response))
  }

  /** `drain_hop`. */
  function DrainHop(env: Env, trace: Trace): Ended<Response> {
    var (t, event) := Hop(env, trace, DrainNext, GetNextAssertionPhase);
    if event.Err? then (t, Err(event.error)) else
      match ResponseOf(event.value)
      case Err(e) => (t, Err(e))
      case Ok((status, body)) => (t, Decoded(status, body, env.decoders.assertion))
  }

  function DrainAll(env: Env, trace: Trace, n: nat): (r: Ended<seq<Response>>)
    ensures r.1.Ok? ==> |r.1.value| == n
    decreases n
  {
    if n == 0 then (trace, Ok([])) else
      var (t, first) := DrainHop(env, trace);
      if first.Err? then (t, Err(first.error)) else
        var (u, rest) := DrainAll(env, t, n - 1);
        (u, if rest.Ok? then Ok([first.value] + rest.value) else rest)
  }

  predicate Allowed(list: Option<seq<Descriptor>>, id: seq<byte>) {
    list.Some? ==> exists i :: 0 <= i < |list.value| && list.value[i].id == id
  }

  function Ids(list: seq<Descriptor>): seq<seq<byte>> {
    if list == [] then [] else [list[0].id] + Ids(list[1..])
  }

  /** The exchange of the request and the check of the answer against the allow list. */
  function FirstAssertion(env: Env, trace: Trace, request: Request): Ended<Response> {
    var (t, event) := KeepaliveLoop(env, trace, SendAssertion(request), false);
    if event.Err? then (t, Err(event.error)) else
      match Decoded(event.value.status, event.value.body, env.decoders.assertion)
      case Err(e) => (t, Err(e))
      case Ok(first) =>
        if Allowed(request.allowList, first.credential.id) then (t, Ok(first))
        else (t, Err(CredentialMismatch(first.credential.id, Ids(request.allowList.value))))
  }

  /** From the built request to the outcome. */
  function Exchange(env: Env, input: Input, trace: Trace, info: Info, request: Request, acquired: bool): Ended<Outcome>
  {
    var (t, first) := FirstAssertion(env, trace, request);
    if first.Err? then (t, Err(first.error)) else
      var extra := if first.value.Number() > 1 then first.value.Number() - 1 else 0;
      if extra > 0 && !input.drain then (t, Err(Transport(DrainMissing))) else
        var (u, rest) := DrainAll(env, t, extra);
        if rest.Err? then (u, Err(rest.error))
        else (u, Ok(Outcome([first.value] + rest.value, info, if acquired then PinUvAuthToken else Effective(request))))
  }

  /** Phase 4a: the material to send, acquired if it must be. */
  function MaterialFor(env: Env, input: Input, info: Info, trace: Trace): Ended<Option<Material>> {
    if !MustAcquire(input, info) then (trace, Ok(input.pinUvAuth))
    else match input.pinProvider
         case None => (trace, Err(PinRequired))
         case Some(provider) =>
           var (t, m) := Acquire(env, input, provider, info, trace);
           (t, if m.Ok? then Ok(Some(m.value)) else Err(m.error))
  }

  /** `exchange_pipeline`. */
  function Pipeline(env: Env, input: Input): Ended<Outcome> {
    var (t, info) := Probe(env, []);
    if info.Err? then (t, Err(info.error)) else
      var (u, material) := MaterialFor(env, input, info.value, t);
      if material.Err? then (u, Err(material.error)) else
        match WireRequest(input, material.value, info.value)
        case Err(e) => (u, Err(e))
        case Ok(request) => Exchange(env, input, u, info.value, request, MustAcquire(input, info.value))
  }
}
