/** The ceremony as it runs: one session with a device, its trace growing call by call. */
module CeremonySession {
  import opened Wrappers
  import opened ByteOrder
  import opened Budget
  import opened GetAssertion
  import opened GetInfo
  import opened ClientPin
  import opened PinCrypto
  import opened SoftToken
  import opened Ceremony

  class Session {
    const env: Env
    var trace: Trace

    constructor (env: Env)
      ensures this.env == env && trace == []
    {
      this.env := env;
      trace := [];
    }

    /** One exchange, raced against the remaining budget. */
    method Race(call: Call, phase: Phase) returns (r: Result<Answer, CeremonyError>)
      modifies this
      ensures (trace, r) == Hop(env, old(trace), call, phase)
    {
      if |trace| >= env.device.patience {
        return Err(TimedOut(phase));
      }
      trace := trace + [call];
      var answer := env.device.behaviour(trace);
      match answer {
        case Expires => r := Err(TimedOut(phase));
        case Faults(e) => r := Err(FromCore(e));
        case Responds(_, _) => r := Ok(answer);
        case KeepsAlive(_) => r := Ok(answer);
      }
    }

    method RunProbe() returns (r: Result<Info, CeremonyError>)
      modifies this
      ensures (trace, r) == Probe(env, old(trace))
    {
      var event :- Race(ProbeInfo, GetInfoPhase);
      var response :- ResponseOf(event);
      var (status, body) := response;
      r := Decoded(status, body, env.decoders.info);
    }

    method ClientPinHop(req: PinRequest) returns (r: Result<PinResponse, CeremonyError>)
      modifies this
      ensures (trace, r) == PinHop(env, old(trace), req)
    {
      if !env.decoders.pinEncodes(req) {
        return Err(Transport(NotEncodable));
      }
      var event :- Race(SendPin(req), ClientPinPhase);
      var response :- ResponseOf(event);
      var (status, body) := response;
      if status == 0x31 {
        return Err(IncorrectPin(RetriesIn(env, body)));
      }
      r := Decoded(status, body, env.decoders.pin);
    }

    method AcquirePinUvAuthToken(input: Input, provider: Option<seq<byte>>, info: Info)
      returns (r: Result<Material, CeremonyError>)
      modifies this
      ensures (trace, r) == Acquire(env, input, provider, info, old(trace))
    {
      var p :- Select(input.pinProtocol, info.protocols.GetOr([]));
      var entropy := new Entropy(input.entropy);
      var secret := entropy.DrawKey(env.crypto, 8);
      if secret.Err? {
        return Err(Transport(CryptoFailed(secret.error)));
      }
      var answer :- ClientPinHop(KeyRequest(env.crypto, secret.value, p));
      if answer.keyAgreement.None? {
        return Err(Transport(NoKeyAgreement));
      }
      var shared :- Encapsulate(env.crypto, secret.value, answer.keyAgreement.value, p);
      trace := trace + [AskPin];
      r := RequestToken(input, provider, info, secret.value, shared, entropy);
    }

    /** From the PIN on. */
    method RequestToken(input: Input, provider: Option<seq<byte>>, info: Info, secret: seq<byte>, shared: Shared,
                        entropy: Entropy)
      returns (r: Result<Material, CeremonyError>)
      modifies this, entropy
      ensures (trace, r) == WithPin(env, input, provider, info, secret, shared, old(entropy.pool), old(trace))
    {
      if provider.None? {
        return Err(PinProviderFailed);
      }
      if |provider.value| > MAX_PIN_BYTES {
        return Err(PinTooLong);
      }
      var hashEnc := entropy.EncryptWith(env.crypto, shared, PinHash(env.crypto, provider.value));
      if hashEnc.Err? {
        return Err(Transport(CryptoFailed(hashEnc.error)));
      }
      var puat := OptionValue(info, OPTION_PIN_UV_AUTH_TOKEN);
      var answer :- ClientPinHop(TokenRequest(env.crypto, secret, shared.protocol, hashEnc.value, puat, input.rpId));
      if answer.pinUvAuthToken.None? {
        return Err(Transport(NoTokenMember));
      }
      var token := Decrypt(env.crypto, shared, answer.pinUvAuthToken.value);
      if token.Err? {
        return Err(Transport(CryptoFailed(token.error)));
      }
      r := Ok((Authenticate(env.crypto, shared, token.value, input.clientDataHash), shared.protocol));
    }

    method RunKeepaliveLoop(call: Call) returns (r: Result<Answer, CeremonyError>)
      modifies this
      ensures (trace, r) == KeepaliveLoop(env, old(trace), call, false)
    {
      var seen := false;
      ghost var answer := KeepaliveLoop(env, trace, call, false);
      while true
        invariant answer == KeepaliveLoop(env, trace, call, seen)
        decreases env.device.patience - |trace|
      {
        var phase := if seen then UserPresence else GetAssertionPhase;
        var event := Race(call, phase);
        if event.Err? {
          return if event.error.TimedOut? && seen then Err(TimedOut(UserPresence)) else Err(event.error);
        }
        if event.value.Responds? {
          return Ok(event.value);
        }
        seen := true;
      }
    }

    method RunDrainHop() returns (r: Result<Response, CeremonyError>)
      modifies this
      ensures (trace, r) == DrainHop(env, old(trace))
    {
      var event :- Race(DrainNext, GetNextAssertionPhase);
      var response :- ResponseOf(event);
      var (status, body) := response;
      r := Decoded(status, body, env.decoders.assertion);
    }

    /** The `for` loop over the remaining credentials. */
    method RunDrain(n: nat) returns (r: Result<seq<Response>, CeremonyError>)
      modifies this
      ensures (trace, r) == DrainAll(env, old(trace), n)
    {
      var got: seq<Response> := [];
      ghost var answer := DrainAll(env, trace, n);
      Prefixed([], answer);
      for i := 0 to n
        invariant answer == Prefix(got, DrainAll(env, trace, n - i))
      {
        ghost var before := trace;
        var next := RunDrainHop();
        if next.Err? {
          return Err(next.error);
        }
        PrefixStep(got, next.value, DrainAll(env, trace, n - i - 1));
        got := got + [next.value];
      }
      assert got + [] == got;
      r := Ok(got);
    }

    method RunExchange(input: Input, info: Info, request: Request,
                       acquired: bool) returns (r: Result<Outcome, CeremonyError>)
      modifies this
      ensures (trace, r) == Exchange(env, input, old(trace), info, request, acquired)
    {
      var first :- RunFirst(request);
      var extra := if first.Number() > 1 then first.Number() - 1 else 0;
      if extra > 0 && !input.drain {
        return Err(Transport(DrainMissing));
      }
      var rest :- RunDrain(extra);
      var effective := if acquired then PinUvAuthToken else Effective(request);
      r := Ok(Outcome([first] + rest, info, effective));
    }

    method RunFirst(request: Request) returns (r: Result<Response, CeremonyError>)
      modifies this
      ensures (trace, r) == FirstAssertion(env, old(trace), request)
    {
      var event :- RunKeepaliveLoop(SendAssertion(request));
      var first :- Decoded(event.status, event.body, env.decoders.assertion);
      var allowed := Allowed(request.allowList, first.credential.id);
      if !allowed {
        return Err(CredentialMismatch(first.credential.id, Ids(request.allowList.value)));
      }
      r := Ok(first);
    }

    /** `exchange_pipeline`. */
    method Run(input: Input) returns (r: Result<Outcome, CeremonyError>)
      requires trace == []
      modifies this
      ensures (trace, r) == Pipeline(env, input)
    {
      var info :- RunProbe();
      var material := input.pinUvAuth;
      var acquire := MustAcquire(input, info);
      if acquire {
        if input.pinProvider.None? {
          return Err(PinRequired);
        }
        var acquired :- AcquirePinUvAuthToken(input, input.pinProvider.value, info);
        material := Some(acquired);
      }
      var request :- WireRequest(input, material, info);
      r := RunExchange(input, info, request, acquire);
    }
  }

  ghost function Prefix(before: seq<Response>, e: Ended<seq<Response>>): Ended<seq<Response>> {
    (e.0, if e.1.Ok? then Ok(before + e.1.value) else e.1)
  }

  lemma {:induction false} PrefixStep(before: seq<Response>, x: Response, e: Ended<seq<Response>>)
    ensures Prefix(before, Prefix([x], e)) == Prefix(before + [x], e)
  {
    if e.1.Ok? { assert before + ([x] + e.1.value) == before + [x] + e.1.value; }
  }

  lemma {:induction false} Prefixed(none: seq<Response>, e: Ended<seq<Response>>)
    requires none == []
    ensures Prefix(none, e) == e
  {
    if e.1.Ok? { assert none + e.1.value == e.1.value; }
  }
}
