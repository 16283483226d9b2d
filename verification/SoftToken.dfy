/** The soft authenticator as the object it is: PIN state and credential store updated in place. */
module SoftToken {
  import opened Wrappers
  import opened ByteOrder
  import opened GetAssertion
  import opened ClientPin
  import opened PinCrypto
  import opened PinToken
  import opened Assertions

  /** `UpUvMode`. */
  datatype Mode = AutoApprove | AlwaysFail | RequireExplicitPoke

  datatype KeepaliveEvent = KeepaliveEvent(status: byte, spacing: nat)

  /** The error-injection knobs; they reset after firing unless `persistent`. */
  datatype Knobs = Knobs(injectStatus: Option<byte>, keepalives: seq<KeepaliveEvent>, delay: Option<nat>, wrongId: bool,
                         persistent: bool)

  const NO_KNOBS: Knobs := Knobs(None, [], None, false, false)

  /** A randomness source that yields its bytes in order. */
  class Entropy {
    var pool: seq<byte>

    constructor (pool: seq<byte>)
      ensures this.pool == pool
    {
      this.pool := pool;
    }

    /** `fill_random` into a buffer of `n` bytes. */
    method FillRandom(n: nat) returns (bytes: Option<seq<byte>>)
      modifies this
      ensures Drawn(bytes, pool) == Fill(old(pool), n)
    {
      if n > |pool| {
        return None;
      }
      bytes := Some(pool[..n]);
      pool := pool[n..];
    }

    /** The bounded search for a scalar in range. */
    method DrawKey(c: Crypto, tries: nat) returns (scalar: Result<seq<byte>, CryptoError>)
      modifies this
      ensures (scalar, pool) == DrawScalar(c, old(pool), tries)
    {
      ghost var answer := DrawScalar(c, pool, tries);
      var i := 0;
      while i < tries
        invariant i <= tries && answer == DrawScalar(c, pool, tries - i)
      {
        var bytes := FillRandom(32);
        if bytes.None? {
          return Err(Random);
        }
        if c.validScalar(bytes.value) {
          return Ok(bytes.value);
        }
        i := i + 1;
      }
      scalar := Err(KeyGeneration);
    }

    method EncryptWith(c: Crypto, shared: Shared, plain: seq<byte>) returns (r: Result<seq<byte>, CryptoError>)
      modifies this
      ensures (r, pool) == Encrypt(c, shared, old(pool), plain)
    {
      if plain == [] || |plain| % 16 != 0 {
        return Err(BadCiphertextLength);
      }
      if shared.protocol == One {
        r := Ok(c.cbcEncrypt(shared.aesKey, Zeros(16), plain));
      } else {
        var iv := FillRandom(16);
        if iv.None? {
          return Err(Random);
        }
        r := Ok(iv.value + c.cbcEncrypt(shared.aesKey, iv.value, plain));
      }
    }
  }

  /** The record of a minting: the first drawn scalar in range, out of two, and the 32 bytes drawn after it. */
  function FreshCredential(c: Crypto, pool: seq<byte>, rpId: seq<byte>, userHandle: seq<byte>, resident: bool):
    (Result<Credential, CryptoError>, seq<byte>)
  {
    match DrawScalar(c, pool, 2)
    case (Err(e), rest) => (Err(e), rest)
    case (Ok(key), rest) =>
      match Fill(rest, 32)
      case Drawn(None, left) => (Err(Random), left)
      case Drawn(Some(id), left) => (Ok(Credential(id, rpId, userHandle, key, resident)), left)
  }

  /** Minting draws a scalar of 32 bytes, once more if that is out of range, and then an id of 32 bytes. */
  lemma {:induction false} MintingDraws(c: Crypto, pool: seq<byte>, rpId: seq<byte>, user: seq<byte>, resident: bool)
    ensures var (made, rest) := FreshCredential(c, pool, rpId, user, resident);
            if |pool| < 32 then made == Err(Random)
            else if c.validScalar(pool[..32]) then
              if |pool| < 64 then made == Err(Random)
              else made == Ok(Credential(pool[32..64], rpId, user, pool[..32], resident)) && rest == pool[64..]
            else if |pool| < 64 then made == Err(Random)
            else if !c.validScalar(pool[32..64]) then made == Err(KeyGeneration)
            else if |pool| < 96 then made == Err(Random)
            else made == Ok(Credential(pool[64..96], rpId, user, pool[32..64], resident)) && rest == pool[96..]
  {
    if |pool| >= 32 {
      var after := pool[32..];
      assert |pool| >= 64 ==> after[..32] == pool[32..64] && after[32..] == pool[64..];
      assert !c.validScalar(pool[..32]) ==> DrawScalar(c, pool, 2) == DrawScalar(c, after, 1);
      assert |pool| >= 64 && !c.validScalar(pool[32..64]) ==> DrawScalar(c, after, 1).0 == Err(KeyGeneration);
      assert |pool| >= 96 ==> pool[64..][..32] == pool[64..96] && pool[64..][32..] == pool[96..];
    }
  }

  /** `ClientPinState`. */
  class ClientPinState {
    var pinHash: Option<seq<byte>>
    var retries: nat
    var mismatches: nat
    var one: Agreement
    var two: Agreement
    var locked: bool

    function View(): PinState
      reads this
    {
      PinState(pinHash, retries, mismatches, one, two, locked)
    }

    constructor (hash: Option<seq<byte>>)
      ensures View() == PinState(hash, MAX_PIN_RETRIES, 0, NO_AGREEMENT, NO_AGREEMENT, false)
    {
      pinHash, retries, mismatches := hash, MAX_PIN_RETRIES, 0;
      one, two, locked := NO_AGREEMENT, NO_AGREEMENT, false;
    }

    method SetRegister(p: Protocol, a: Agreement)
      modifies this
      ensures View() == old(View()).WithRegister(p, a)
    {
      if p == One { one := a; } else { two := a; }
    }

    /** getKeyAgreement: a fresh key pair for every request. */
    method NewAgreement(c: Crypto, wrongEcho: bool, p: Protocol, entropy: Entropy) returns (answer: PinAnswer)
      modifies this, entropy
      ensures Asked(View(), answer, entropy.pool) == KeyAgreementOn(c, old(View()), wrongEcho, p, old(entropy.pool))
    {
      var recorded := if wrongEcho && p == One then Two else p;
      var scalar := entropy.DrawKey(c, 8);
      if scalar.Err? {
        return Err(KEY_STORE_FULL);
      }
      var key := CoseKey(c.pointX(scalar.value), c.pointY(scalar.value));
      SetRegister(p, Agreement(Some(recorded), Some(scalar.value), Some(key), None));
      answer := Ok(NO_MEMBERS.(keyAgreement := Some(key)));
    }

    /** A PIN-bearing request: the counter is spent before the comparison. */
    method Attempt(c: Crypto, echo: bool, req: PinRequest, entropy: Entropy) returns (answer: PinAnswer)
      modifies this, entropy
      ensures Asked(View(), answer, entropy.pool) == AttemptOn(c, old(View()), echo, req, old(entropy.pool))
    {
      if pinHash.None? {
        return Err(PIN_NOT_SET);
      }
      if retries == 0 {
        return Err(PIN_BLOCKED);
      }
      if locked {
        return Err(PIN_AUTH_BLOCKED);
      }
      if req.keyAgreement.None? {
        return Err(MISSING_PARAMETER);
      }
      var register := if req.protocol == One then one else two;
      var z := Decapsulate(c, register, req.keyAgreement.value);
      if z.Err? {
        return Err(z.error);
      }
      var shared := Derive(c, z.value, DerivedUnder(register, echo, req.protocol));
      if req.pinUvAuthParam.Some? {
        var expected := Authenticate(c, shared, [], []);
        if req.pinUvAuthParam.value != expected {
          return Err(PIN_AUTH_INVALID);
        }
      }
      retries := retries - 1;
      answer := Compare(c, echo, req, shared, entropy);
    }

    method Compare(c: Crypto, echo: bool, req: PinRequest, shared: Shared, entropy: Entropy) returns (answer: PinAnswer)
      requires pinHash.Some?
      modifies this, entropy
      ensures Asked(View(), answer, entropy.pool) == CompareOn(c, old(View()), echo, req, shared, old(entropy.pool))
    {
      if req.pinHashEnc.None? {
        return Err(MISSING_PARAMETER);
      }
      if echo {
        return Err(PIN_AUTH_INVALID);
      }
      var decrypted := Decrypt(c, shared, req.pinHashEnc.value);
      if decrypted.Err? {
        return Err(PIN_AUTH_INVALID);
      }
      if decrypted.value != pinHash.value {
        mismatches := mismatches + 1;
        if mismatches >= 3 {
          locked := true;
        }
        return Err(PIN_INVALID);
      }
      retries := MAX_PIN_RETRIES;
      mismatches := 0;
      answer := Mint(c, req.protocol, shared, entropy);
    }

    method Mint(c: Crypto, p: Protocol, shared: Shared, entropy: Entropy) returns (answer: PinAnswer)
      modifies this, entropy
      ensures Asked(View(), answer, entropy.pool) == MintOn(c, old(View()), p, shared, old(entropy.pool))
    {
      var token := entropy.FillRandom(32);
      if token.None? {
        return Err(KEY_STORE_FULL);
      }
      var register := if p == One then one else two;
      SetRegister(p, register.(pinToken := Some(token.value)));
      var encrypted := entropy.EncryptWith(c, shared, token.value);
      if encrypted.Err? {
        return Err(KEY_STORE_FULL);
      }
      answer := Ok(NO_MEMBERS.(pinUvAuthToken := Some(encrypted.value)));
    }
  }

  /** `SoftAuthenticator`. */
  class SoftAuthenticator {
    var clientPin: ClientPinState?
    var configuredProtocols: Option<seq<Protocol>>
    var wrongProtocolEcho: bool
    var pinEchoDecrypt: bool
    var credentials: seq<Credential>
    var signCount: nat
    var queue: seq<Parked>
    var advertisePuat: bool
    var upMode: Mode
    var uvMode: Mode
    var upPoked: bool
    var uvPoked: bool
    var knobs: Knobs
    const rng: Entropy

    /** What clientPIN touches. */
    function PinView(): Token
      reads this, clientPin
    {
      Token(if clientPin == null then None else Some(clientPin.View()), configuredProtocols, wrongProtocolEcho,
            pinEchoDecrypt)
    }

    /** What assertions touch. */
    function StoreView(): Store
      reads this
    {
      Store(credentials, signCount, queue)
    }

    constructor (initialSignCount: nat, upMode: Mode, uvMode: Mode, knobs: Knobs, rng: Entropy)
      requires initialSignCount < U32
      ensures PinView() == Token(None, None, false, false) && StoreView() == Store([], initialSignCount, [])
      ensures this.upMode == upMode && this.uvMode == uvMode && this.knobs == knobs && this.rng == rng
      ensures advertisePuat && !upPoked && !uvPoked
    {
      clientPin, configuredProtocols, wrongProtocolEcho, pinEchoDecrypt := null, None, false, false;
      credentials, signCount, queue := [], initialSignCount, [];
      this.upMode, this.uvMode, this.knobs, this.rng := upMode, uvMode, knobs, rng;
      advertisePuat, upPoked, uvPoked := true, false, false;
    }

    /** `poke_user_presence`. */
    method PokeUserPresence()
      modifies this`upPoked
      ensures upPoked
    {
      upPoked := true;
    }

    /** `poke_user_verification`. */
    method PokeUserVerification()
      modifies this`uvPoked
      ensures uvPoked
    {
      uvPoked := true;
    }

    /** `take_injected_status`. */
    method TakeInjectedStatus() returns (status: Option<byte>)
      modifies this`knobs
      ensures status == old(knobs).injectStatus
      ensures knobs == if old(knobs).persistent then old(knobs) else old(knobs).(injectStatus := None)
    {
      status := knobs.injectStatus;
      if !knobs.persistent {
        knobs := knobs.(injectStatus := None);
      }
    }

    /** `set_pin_protocols`. */
    method SetPinProtocols(protocols: seq<Protocol>)
      modifies this`configuredProtocols
      ensures PinView() == old(PinView()).(protocols := Some(protocols))
    {
      configuredProtocols := Some(protocols);
    }

    /** What a harness writes through `client_pin_knobs_mut`. */
    method SetPinKnobs(wrongEcho: bool, echoDecrypt: bool)
      modifies this`wrongProtocolEcho, this`pinEchoDecrypt
      ensures PinView() == old(PinView()).(wrongProtocolEcho := wrongEcho, pinEchoDecrypt := echoDecrypt)
    {
      wrongProtocolEcho, pinEchoDecrypt := wrongEcho, echoDecrypt;
    }

    method SetPin(c: Crypto, pin: seq<byte>)
      modifies this`clientPin, clientPin
      ensures PinView() == SetPinOn(c, old(PinView()), pin) && StoreView() == old(StoreView())
      ensures old(clientPin) == null ==> fresh(clientPin)
    {
      var hash := Some(PinHash(c, pin));
      if clientPin != null {
        clientPin.pinHash := hash;
        clientPin.retries := MAX_PIN_RETRIES;
        clientPin.mismatches := 0;
      } else {
        clientPin := new ClientPinState(hash);
      }
    }

    method ClearPin()
      modifies clientPin
      ensures PinView() == ClearPinOn(old(PinView()))
    {
      if clientPin != null {
        clientPin.pinHash := None;
        clientPin.retries := MAX_PIN_RETRIES;
        clientPin.mismatches := 0;
      }
    }

    method PowerCycle()
      modifies clientPin
      ensures PinView() == PowerCycleOn(old(PinView()))
    {
      if clientPin != null {
        clientPin.locked := false;
        clientPin.mismatches := 0;
      }
    }

    method ClientPinExchange(c: Crypto, req: PinRequest, entropy: Entropy) returns (answer: PinAnswer)
      modifies clientPin, entropy
      ensures Asked(PinView(), answer, entropy.pool) == ExchangeOn(c, old(PinView()), req, old(entropy.pool))
    {
      if clientPin == null {
        return Err(INVALID_COMMAND);
      }
      var advertised := configuredProtocols.GetOr(DEFAULT_PIN_PROTOCOLS);
      if req.protocol.Other? || req.protocol !in advertised {
        return Err(INVALID_PARAMETER);
      }
      match req.subCommand {
        case GetPinRetries =>
          answer := Ok(NO_MEMBERS.(pinRetries := Some(clientPin.retries)));
        case GetKeyAgreement =>
          answer := clientPin.NewAgreement(c, wrongProtocolEcho, req.protocol, entropy);
        case _ =>
          answer := clientPin.Attempt(c, pinEchoDecrypt, req, entropy);
      }
    }

    /** `make_credential`: a fresh key and id, one more on the counter, the record stored last. */
    method MakeCredential(c: Crypto, rpId: seq<byte>, userHandle: seq<byte>, resident: bool, entropy: Entropy)
      returns (r: Result<Credential, CryptoError>)
      modifies this`credentials, this`signCount, entropy
      ensures (r, entropy.pool) == FreshCredential(c, old(entropy.pool), rpId, userHandle, resident)
      ensures StoreView() == if r.Ok? then Stored(old(StoreView()), r.value) else old(StoreView())
    {
      var key :- entropy.DrawKey(c, 2);
      var id := entropy.FillRandom(32);
      if id.None? {
        return Err(Random);
      }
      var record := Credential(id.value, rpId, userHandle, key, resident);
      signCount := (signCount + 1) % U32;
      credentials := credentials + [record];
      r := Ok(record);
    }

    /** `sign_assertion`: one more on the counter, then the signature over it. */
    method SignAssertion(k: Signer, index: nat, shownId: seq<byte>, hash: seq<byte>, up: bool, uv: bool,
                         number: Option<nat>)
      returns (r: Response)
      requires index < |credentials|
      modifies this`signCount
      ensures signCount == (old(signCount) + 1) % U32
      ensures r == AssertionOf(k, credentials[index], shownId, hash, up, uv, signCount, number)
    {
      var record := credentials[index];
      signCount := (signCount + 1) % U32;
      r := AssertionOf(k, record, shownId, hash, up, uv, signCount, number);
    }

    /** The command processing of `exchange_get_assertion`. */
    method Assert(k: Signer, r: Request, up: bool, uv: bool, wrongId: bool) returns (reply: Reply)
      modifies this`signCount, this`queue
      ensures (StoreView(), reply) == AssertOn(k, old(StoreView()), r, up, uv, wrongId)
    {
      var matching := SelectCredentials(credentials, r);
      if matching.Err? {
        return Refusal(matching.error);
      }
      var m := matching.value;
      var shown := credentials[Shown(credentials, m[0], wrongId)].id;
      var response := SignAssertion(k, m[0], shown, r.clientDataHash, up, uv, if |m| > 1 then Some(|m|) else None);
      if |m| > 1 {
        var rest := ParkedRest(m[1..], up, uv);
        queue := if |rest| <= MAX_ASSERTION_QUEUE then rest else rest[..MAX_ASSERTION_QUEUE];
      }
      reply := Assertion(response);
    }

    method NextAssertion(k: Signer, hash: seq<byte>) returns (reply: Reply)
      requires InStore(StoreView())
      modifies this`signCount, this`queue
      ensures InStore(StoreView()) && (StoreView(), reply) == NextOn(k, old(StoreView()), hash)
    {
      NextKeepsStore(k, StoreView(), hash);
      if queue == [] {
        return Refusal(NOT_ALLOWED);
      }
      var next := queue[0];
      queue := queue[1..];
      var record := credentials[next.index];
      var response := SignAssertion(k, next.index, record.id, hash, next.up, next.uv, None);
      reply := Assertion(response);
    }
  }
}
