/**
 The authenticator's clientPIN state machine (section 6.5.5 of CTAP 2.1): retry counter, mismatch
 counter, power-cycle latch and the key-agreement registers.
 */
module PinToken {
  import opened Wrappers
  import opened ByteOrder
  import opened Cbor
  import opened GetAssertion
  import opened ClientPin
  import opened PinCrypto

  const MAX_PIN_RETRIES: nat := 8

  const INVALID_COMMAND: byte := 0x01
  const INVALID_PARAMETER: byte := 0x02
  const MISSING_PARAMETER: byte := 0x14
  const KEY_STORE_FULL: byte := 0x28
  const PIN_INVALID: byte := 0x31
  const PIN_BLOCKED: byte := 0x32
  const PIN_AUTH_INVALID: byte := 0x33
  const PIN_AUTH_BLOCKED: byte := 0x34
  const PIN_NOT_SET: byte := 0x35

  const DEFAULT_PIN_PROTOCOLS: seq<Protocol> := [Two, One]

  /** `PinAgreement`: one protocol's register. */
  datatype Agreement = Agreement(protocol: Option<Protocol>, secret: Option<seq<byte>>, publicKey: Option<Value>,
                                 pinToken: Option<seq<byte>>)

  const NO_AGREEMENT: Agreement := Agreement(None, None, None, None)

  /** `ClientPinState`; register `one` is protocol one's, `two` that of every other protocol. */
  datatype PinState = PinState(pinHash: Option<seq<byte>>, retries: nat, mismatches: nat, one: Agreement,
                               two: Agreement, locked: bool)
  {
    function Register(p: Protocol): Agreement {
      if p == One then one else two
    }

    function WithRegister(p: Protocol, a: Agreement): PinState {
      if p == One then this.(one := a) else this.(two := a)
    }
  }

  /** The part of `SoftAuthenticator` that clientPIN touches. */
  datatype Token = Token(pin: Option<PinState>, protocols: Option<seq<Protocol>>, wrongProtocolEcho: bool,
                         pinEchoDecrypt: bool)
  {
    function Advertised(): seq<Protocol> {
      protocols.GetOr(DEFAULT_PIN_PROTOCOLS)
    }
  }

  // ---- harness calls

  /** `set_pin`: the latch is left as it is. */
  function SetPinOn(c: Crypto, t: Token, pin: seq<byte>): Token {
    var hash := Some(PinHash(c, pin));
    match t.pin
    case Some(s) => t.(pin := Some(s.(pinHash := hash, retries := MAX_PIN_RETRIES, mismatches := 0)))
    case None => t.(pin := Some(PinState(hash, MAX_PIN_RETRIES, 0, NO_AGREEMENT, NO_AGREEMENT, false)))
  }

  function ClearPinOn(t: Token): Token {
    match t.pin
    case Some(s) => t.(pin := Some(s.(pinHash := None, retries := MAX_PIN_RETRIES, mismatches := 0)))
    case None => t
  }

  function PowerCycleOn(t: Token): Token {
    match t.pin
    case Some(s) => t.(pin := Some(s.(locked := false, mismatches := 0)))
    case None => t
  }

  // ---- one clientPIN request

  type PinAnswer = Result<PinResponse, byte>

  /** The state after a request, the answer, and the entropy left. */
  datatype Asked<T> = Asked(state: T, answer: PinAnswer, pool: seq<byte>)

  /** `PinAgreement::generate`, with the selector the register records. */
  function Generate(c: Crypto, pool: seq<byte>, recorded: Protocol): (Result<Agreement, CryptoError>, seq<byte>) {
    match DrawScalar(c, pool, 8)
    case (Err(e), rest) => (Err(e), rest)
    case (Ok(s), rest) => (Ok(Agreement(Some(recorded), Some(s), Some(CoseKey(c.pointX(s), c.pointY(s))), None)), rest)
  }

  /** `decapsulate`. */
  function Decapsulate(c: Crypto, a: Agreement, peer: Value): Result<seq<byte>, byte> {
    match PlatformPoint(peer)
    case None => Err(INVALID_PARAMETER)
    case Some((x, y)) =>
      if !c.onCurve(x, y) || a.secret.None? then Err(INVALID_PARAMETER) else Ok(c.agree(a.secret.value, x, y))
  }

  /** The selector the shared secret is derived under, the two knobs included. */
  function DerivedUnder(a: Agreement, echo: bool, requested: Protocol): Protocol {
    if echo then (if requested == One then Two else One) else a.protocol.GetOr(requested)
  }

  function Recorded(wrongEcho: bool, requested: Protocol): Protocol {
    if wrongEcho && requested == One then Two else requested
  }

  function Refused(s: PinState, status: byte, pool: seq<byte>): Asked<PinState> {
    Asked(s, Err(status), pool)
  }

  function KeyAgreementOn(c: Crypto, s: PinState, wrongEcho: bool, p: Protocol, pool: seq<byte>): Asked<PinState> {
    match Generate(c, pool, Recorded(wrongEcho, p))
    case (Err(_), rest) => Refused(s, KEY_STORE_FULL, rest)
    case (Ok(a), rest) => Asked(s.WithRegister(p, a), Ok(NO_MEMBERS.(keyAgreement := a.publicKey)), rest)
  }

  /** A PIN-bearing request, in the order the checks are made. */
  function AttemptOn(c: Crypto, s: PinState, echo: bool, req: PinRequest, pool: seq<byte>): Asked<PinState> {
    if s.pinHash.None? then Refused(s, PIN_NOT_SET, pool)
    else if s.retries == 0 then Refused(s, PIN_BLOCKED, pool)
    else if s.locked then Refused(s, PIN_AUTH_BLOCKED, pool)
    else if req.keyAgreement.None? then Refused(s, MISSING_PARAMETER, pool)
    else
      var a := s.Register(req.protocol);
      match Decapsulate(c, a, req.keyAgreement.value)
      case Err(status) => Refused(s, status, pool)
      case Ok(z) =>
        var shared := Derive(c, z, DerivedUnder(a, echo, req.protocol));
        if req.pinUvAuthParam.Some? && req.pinUvAuthParam.value != Authenticate(c, shared, [], [])
        then Refused(s, PIN_AUTH_INVALID, pool)
        else CompareOn(c, s.(retries := s.retries - 1), echo, req, shared, pool)
  }

  /** From the decrement on: decrypt, compare, and mint on a match. */
  function CompareOn(c: Crypto, s: PinState, echo: bool, req: PinRequest, shared: Shared,
                     pool: seq<byte>): Asked<PinState>
    requires s.pinHash.Some?
  {
    if req.pinHashEnc.None? then Refused(s, MISSING_PARAMETER, pool)
    else if echo then Refused(s, PIN_AUTH_INVALID, pool)
    else match Decrypt(c, shared, req.pinHashEnc.value)
         case Err(_) => Refused(s, PIN_AUTH_INVALID, pool)
         case Ok(hash) =>
           if hash != s.pinHash.value
           then Refused(s.(mismatches := s.mismatches + 1, locked := s.locked || s.mismatches + 1 >= 3), PIN_INVALID,
                        pool)
           else MintOn(c, s.(retries := MAX_PIN_RETRIES, mismatches := 0), req.protocol, shared, pool)
  }

  /** A fresh 32-byte token, stored in the register and returned encrypted. */
  function MintOn(c: Crypto, s: PinState, p: Protocol, shared: Shared, pool: seq<byte>): Asked<PinState> {
    match Fill(pool, 32)
    case Drawn(None, rest) => Refused(s, KEY_STORE_FULL, rest)
    case Drawn(Some(token), rest) =>
      var minted := s.WithRegister(p, s.Register(p).(pinToken := Some(token)));
      match Encrypt(c, shared, rest, token)
      case (Err(_), left) => Refused(minted, KEY_STORE_FULL, left)
      case (Ok(ct), left) => Asked(minted, Ok(NO_MEMBERS.(pinUvAuthToken := Some(ct))), left)
  }

  function PinBearing(req: PinRequest): bool {
    req.subCommand != GetPinRetries && req.subCommand != GetKeyAgreement
  }

  /** `client_pin_exchange` with the feature armed and the protocol admitted. */
  function AdmittedOn(c: Crypto, s: PinState, t: Token, req: PinRequest, pool: seq<byte>): Asked<PinState> {
    if req.subCommand == GetPinRetries then Asked(s, Ok(NO_MEMBERS.(pinRetries := Some(s.retries))), pool)
    else if req.subCommand == GetKeyAgreement then KeyAgreementOn(c, s, t.wrongProtocolEcho, req.protocol, pool)
    else AttemptOn(c, s, t.pinEchoDecrypt, req, pool)
  }

  /** `client_pin_exchange`. */
  function ExchangeOn(c: Crypto, t: Token, req: PinRequest, pool: seq<byte>): Asked<Token> {
    match t.pin
    case None => Asked(t, Err(INVALID_COMMAND), pool)
    case Some(s) =>
      if req.protocol.Other? || req.protocol !in t.Advertised() then Asked(t, Err(INVALID_PARAMETER), pool)
      else
        var asked := AdmittedOn(c, s, t, req, pool);
        Asked(t.(pin := Some(asked.state)), asked.answer, asked.pool)
  }
}
