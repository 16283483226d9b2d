/** When the ceremony asks for user verification, when it asks for a PIN, and when it refuses instead. */
module CeremonyPosture {
  import opened Wrappers
  import opened ByteOrder
  import opened Utf8
  import opened Budget
  import opened Cbor
  import opened GetAssertion
  import opened GetInfo
  import opened ClientPin
  import opened PinCrypto
  import opened Ceremony

  // ---- what the probe says

  predicate SaysTrue(info: Info, name: Name) {
    info.options.Some? && name in info.options.value && info.options.value[name]
  }

  /** The device has a verifier of its own. */
  predicate SaysUv(info: Info) {
    SaysTrue(info, Ascii("uv"))
  }

  /** The device has a PIN set. */
  predicate SaysClientPin(info: Info) {
    SaysTrue(info, Ascii("clientPin"))
  }

  predicate ListsProtocols(info: Info) {
    info.protocols.Some? && |info.protocols.value| > 0
  }

  lemma {:induction false} NamesSpelled()
    ensures Ascii("uv") == UV.utf8 && Ascii("clientPin") == OPTION_CLIENT_PIN
    ensures UV != UP && Text(OPTION_CLIENT_PIN) != UP
  {
    assert |OPTION_CLIENT_PIN| == 9 && |UP.utf8| == 2 && UV.utf8[1] != UP.utf8[1];
  }

  lemma {:induction false} TokenNameSpelled()
    ensures Ascii("pinUvAuthToken") == OPTION_PIN_UV_AUTH_TOKEN && Text(OPTION_PIN_UV_AUTH_TOKEN) != UP
  {
    assert |OPTION_PIN_UV_AUTH_TOKEN| == 14 && |UP.utf8| == 2;
  }

  lemma {:induction false} TokenOptionRead(info: Info)
    ensures OptionValue(info, OPTION_PIN_UV_AUTH_TOKEN) == SaysPinUvAuthToken(info)
  {
    TokenNameSpelled();
  }

  lemma {:induction false} OptionsRead(info: Info)
    ensures OptionValue(info, UV.utf8) == SaysUv(info) && OptionValue(info, OPTION_CLIENT_PIN) == SaysClientPin(info)
  {
    NamesSpelled();
  }

  /** An option the device does not mention is false, except for user presence. */
  lemma {:induction false} OptionDefaults(info: Info, name: Name)
    requires info.options.None? || name !in info.options.value
    ensures OptionValue(info, name) <==> name == Ascii("up")
  {
    assert UP.utf8 == Ascii("up");
  }

  // ---- the posture

  /** Verification is preferred, nothing is held, a PIN is set and a protocol is listed. */
  predicate MustAsk(input: Input, info: Info) {
    input.policy.Preferred? && input.pinUvAuth.None? && SaysClientPin(info) && ListsProtocols(info)
  }

  /** Only a PIN would do, and none can be had. */
  predicate PinMissing(input: Input, info: Info) {
    && input.policy.Preferred? && input.pinUvAuth.None? && SaysClientPin(info)
    && if ListsProtocols(info) then input.pinProvider.None? else !SaysUv(info)
  }

  /** The material held is for a protocol the device does not list. */
  predicate HeldInVain(input: Input, info: Info) {
    && input.pinUvAuth.Some?
    && (info.protocols.None? || input.pinUvAuth.value.1 !in info.protocols.value)
  }

  /** The request as the input and the probe settle it, up to the parameter acquired. */
  ghost predicate Postured(input: Input, info: Info, r: Request) {
    && r.rpId == input.rpId && r.clientDataHash == input.clientDataHash && r.extensions.None?
    && r.allowList == (match input.allowCredentials
                       case Some(list) => if |list| == 0 then None else Some(list)
                       case None => None)
    && (r.pinUvAuthParam.Some? <==> input.pinUvAuth.Some? || MustAsk(input, info))
    && (r.pinUvAuthProtocol.Some? <==> r.pinUvAuthParam.Some?)
    && (r.pinUvAuthProtocol.Some? ==> info.protocols.Some? && r.pinUvAuthProtocol.value in info.protocols.value)
    && (MustAsk(input, info) ==> Chosen(input, info, r.pinUvAuthProtocol.value))
    && (input.pinUvAuth.Some? ==>
          r.pinUvAuthParam == Some(input.pinUvAuth.value.0) && r.pinUvAuthProtocol == Some(input.pinUvAuth.value.1))
    && r.options == if r.pinUvAuthParam.None? && input.policy.Preferred? && SaysUv(info)
                    then Some(Options(None, Some(true))) else None
  }

  /** The protocol pinned by the caller, if it is listed; else the first one listed that is implemented. */
  ghost predicate Chosen(input: Input, info: Info, p: Protocol) {
    && info.protocols.Some?
    && match input.pinProtocol
       case Some(pinned) => p == pinned && p in info.protocols.value
       case None => exists n :: 0 <= n < |info.protocols.value| && info.protocols.value[n] == p && !p.Other?
                                && forall m :: 0 <= m < n ==> info.protocols.value[m].Other?
  }

  predicate SaysPinUvAuthToken(info: Info) {
    SaysTrue(info, Ascii("pinUvAuthToken"))
  }

  /**
   The clientPIN requests: getKeyAgreement, and then a token by getPinUvAuthTokenUsingPinWithPermissions
   for getAssertion (0x02) with this relying party where the probe says pinUvAuthToken, by getPinToken elsewhere.
   */
  ghost predicate PinPostured(input: Input, info: Info, r: PinRequest) {
    && Chosen(input, info, r.protocol) && r.pinUvAuthParam.None? && r.keyAgreement.Some?
    && if r.subCommand == GetKeyAgreement then r.pinHashEnc.None? && r.permissions.None? && r.rpId.None?
       else
         && r.pinHashEnc.Some?
         && if SaysPinUvAuthToken(info) then
              r.subCommand == GetPinUvAuthTokenUsingPinWithPermissions && r.permissions == Some(0x02)
              && r.rpId == Some(input.rpId)
            else r.subCommand == GetPinToken && r.permissions.None? && r.rpId.None?
  }

  /** What the other steps report if they fail: neither of the refusals above, nor what ends a run at the prompt. */
  ghost predicate Elsewhere(e: CeremonyError) {
    e != PinRequired && e != Transport(UnsupportedProtocol) && !AtPrompt(e)
  }

  ghost predicate AtPrompt(e: CeremonyError) {
    e == PinProviderFailed || e == PinTooLong
  }

  /** The provider gave a PIN of at most 63 bytes. */
  predicate PinGiven(provider: Option<seq<byte>>) {
    provider.Some? && |provider.value| <= 63
  }

  /** Once the user is asked, a provider that fails or a PIN that is too long ends the run there; nothing else does. */
  ghost predicate PromptDecides<T>(provider: Option<seq<byte>>, u: Trace, r: Result<T, CeremonyError>) {
    && (r.Err? && r.error == PinProviderFailed <==> AskPin in u && provider.None?)
    && (r.Err? && r.error == PinTooLong <==> AskPin in u && provider.Some? && |provider.value| > 63)
    && (AskPin in u && !PinGiven(provider) ==> u[|u| - 1] == AskPin)
  }

  ghost predicate FailsElsewhere<T>(r: Result<T, CeremonyError>) {
    r.Err? ==> Elsewhere(r.error)
  }

  // ---- which calls are made

  /** `u` is `t` followed by calls of getAssertion with `r` and of the drain alone. */
  ghost predicate Sends(t: Trace, u: Trace, r: Request) {
    && |t| <= |u| && u[..|t|] == t
    && forall i :: |t| <= i < |u| ==> u[i] == SendAssertion(r) || u[i] == DrainNext
  }

  /** `u` is `t` followed by lawful clientPIN calls and the prompt alone. */
  ghost predicate Asks(input: Input, info: Info, t: Trace, u: Trace) {
    && |t| <= |u| && u[..|t|] == t
    && forall i :: |t| <= i < |u| ==> AskedAs(input, info, u[i])
  }

  ghost predicate AskedAs(input: Input, info: Info, call: Call) {
    call.AskPin? || (call.SendPin? && PinPostured(input, info, call.request))
  }

  lemma {:induction false} SendsMore(t: Trace, u: Trace, v: Trace, r: Request)
    requires Sends(t, u, r) && Sends(u, v, r)
    ensures Sends(t, v, r)
  {
    assert v[..|t|] == u[..|t|];
    forall i | |t| <= i < |v| ensures v[i] == SendAssertion(r) || v[i] == DrainNext {
      if i < |u| { assert v[i] == u[i]; }
    }
  }

  lemma {:induction false} HopExtends(env: Env, t: Trace, call: Call, phase: Phase)
    ensures var (u, r) := Hop(env, t, call, phase);
            (u == t || u == t + [call]) && FailsElsewhere(r)
  {
  }

  lemma {:induction false} LoopSends(env: Env, t: Trace, r: Request, seen: bool)
    ensures var (u, event) := KeepaliveLoop(env, t, SendAssertion(r), seen);
            Sends(t, u, r) && FailsElsewhere(event)
    decreases env.device.patience - |t|
  {
    var call, phase := SendAssertion(r), if seen then UserPresence else GetAssertionPhase;
    var (u, event) := Hop(env, t, call, phase);
    HopExtends(env, t, call, phase);
    if event.Ok? && event.value.KeepsAlive? {
      LoopSends(env, u, r, true);
      SendsMore(t, u, KeepaliveLoop(env, u, call, true).0, r);
    }
  }

  lemma {:induction false} DrainSends(env: Env, t: Trace, n: nat, r: Request)
    ensures var (u, rest) := DrainAll(env, t, n);
            Sends(t, u, r) && FailsElsewhere(rest)
    decreases n
  {
    if n > 0 {
      HopExtends(env, t, DrainNext, GetNextAssertionPhase);
      var (u, first) := DrainHop(env, t);
      if first.Ok? {
        DrainSends(env, u, n - 1, r);
        SendsMore(t, u, DrainAll(env, u, n - 1).0, r);
      }
    }
  }

  lemma {:induction false} ExchangeSends(env: Env, input: Input, t: Trace, info: Info, r: Request, acquired: bool)
    ensures var (u, o) := Exchange(env, input, t, info, r, acquired);
            Sends(t, u, r) && FailsElsewhere(o)
            && (o.Ok? ==> o.value.uv == if acquired then PinUvAuthToken else Effective(r))
  {
    LoopSends(env, t, r, false);
    var (u, first) := FirstAssertion(env, t, r);
    if first.Ok? {
      var extra := if first.value.Number() > 1 then first.value.Number() - 1 else 0;
      DrainSends(env, u, extra, r);
      SendsMore(t, u, DrainAll(env, u, extra).0, r);
    }
  }

  lemma {:induction false} PinHopAsks(env: Env, t: Trace, req: PinRequest)
    ensures var (u, r) := PinHop(env, t, req);
            (u == t || u == t + [SendPin(req)]) && FailsElsewhere(r)
  {
    HopExtends(env, t, SendPin(req), ClientPinPhase);
  }

  lemma {:induction false} WithTokenKeeps(env: Env, input: Input, shared: Shared, hop: Ended<PinResponse>)
    requires FailsElsewhere(hop.1)
    ensures var (u, m) := WithToken(env, input, shared, hop);
            u == hop.0 && FailsElsewhere(m) && (m.Ok? ==> m.value.1 == shared.protocol)
  {
  }

  lemma {:induction false} WithPinAsks(env: Env, input: Input, provider: Option<seq<byte>>, info: Info,
                                       secret: seq<byte>, shared: Shared, pool: seq<byte>, t: Trace)
    requires Chosen(input, info, shared.protocol) && |t| > 0 && t[|t| - 1] == AskPin
    ensures var (u, m) := WithPin(env, input, provider, info, secret, shared, pool, t);
            && Asks(input, info, t, u) && PromptDecides(provider, u, m)
            && (m.Err? ==> Elsewhere(m.error) || AtPrompt(m.error)) && (m.Ok? ==> m.value.1 == shared.protocol)
  {
    assert t[|t| - 1] in t;
    TokenOptionRead(info);
    if provider.Some? && |provider.value| <= MAX_PIN_BYTES {
      var sealed := Encrypt(env.crypto, shared, pool, PinHash(env.crypto, provider.value)).0;
      if sealed.Ok? {
        var puat := OptionValue(info, OPTION_PIN_UV_AUTH_TOKEN);
        var req := TokenRequest(env.crypto, secret, shared.protocol, sealed.value, puat, input.rpId);
        PinHopAsks(env, t, req);
        WithTokenKeeps(env, input, shared, PinHop(env, t, req));
        assert AskPin in t + [SendPin(req)];
      }
    }
  }

  lemma {:induction false} ImplementedListed(ps: seq<Protocol>) returns (n: nat)
    requires Implemented(ps).Some?
    ensures n < |ps| && ps[n] == Implemented(ps).value && !ps[n].Other?
    ensures forall m :: 0 <= m < n ==> ps[m].Other?
  {
    if ps[0].Other? {
      var k := ImplementedListed(ps[1..]);
      n := k + 1;
      assert forall m :: 1 <= m < n ==> ps[m] == ps[1..][m - 1];
    } else {
      n := 0;
    }
  }

  lemma {:induction false} SelectChosen(input: Input, info: Info)
    ensures var p := Select(input.pinProtocol, info.protocols.GetOr([]));
            FailsElsewhere(p) && (p.Ok? ==> Chosen(input, info, p.value))
  {
    var advertised := info.protocols.GetOr([]);
    if input.pinProtocol.None? && Implemented(advertised).Some? {
      var n := ImplementedListed(advertised);
    }
  }

  lemma {:induction false} EncapsulateKeeps(c: Crypto, secret: seq<byte>, peer: Value, p: Protocol)
    ensures var shared := Encapsulate(c, secret, peer, p);
            FailsElsewhere(shared) && (shared.Ok? ==> shared.value.protocol == p)
  {
  }

  ghost predicate Acquired(input: Input, info: Info, t: Trace, u: Trace, m: Result<Material, CeremonyError>) {
    && Asks(input, info, t, u) && (m.Err? ==> Elsewhere(m.error) || AtPrompt(m.error))
    && (m.Ok? ==> Chosen(input, info, m.value.1))
  }

  lemma {:induction false} AsksMore(input: Input, info: Info, t: Trace, u: Trace, v: Trace,
                                    m: Result<Material, CeremonyError>)
    requires Asks(input, info, t, u) && Acquired(input, info, u, v, m)
    ensures Acquired(input, info, t, v, m)
  {
    assert v[..|t|] == u[..|t|];
    forall i | |t| <= i < |v| ensures AskedAs(input, info, v[i]) {
      if i < |u| { assert v[i] == u[i]; }
    }
  }

  lemma {:induction false} AcquireAsks(env: Env, input: Input, provider: Option<seq<byte>>, info: Info, t: Trace)
    requires AskPin !in t
    ensures var (u, m) := Acquire(env, input, provider, info, t);
            Acquired(input, info, t, u, m) && PromptDecides(provider, u, m)
  {
    var p := Select(input.pinProtocol, info.protocols.GetOr([]));
    SelectChosen(input, info);
    var (secret, pool) := DrawScalar(env.crypto, input.entropy, 8);
    if p.Ok? && secret.Ok? {
      var req := KeyRequest(env.crypto, secret.value, p.value);
      PinHopAsks(env, t, req);
      var (u, answer) := PinHop(env, t, req);
      if answer.Ok? && answer.value.keyAgreement.Some? {
        SharedAsks(env, input, provider, info, secret.value, answer.value.keyAgreement.value, p.value, pool, t, u);
      }
    }
  }

  /** From the token's key on. */
  lemma {:induction false} SharedAsks(env: Env, input: Input, provider: Option<seq<byte>>, info: Info,
                                      secret: seq<byte>, peer: Value, p: Protocol, pool: seq<byte>, t: Trace, u: Trace)
    requires Asks(input, info, t, u) && Chosen(input, info, p)
    ensures match Encapsulate(env.crypto, secret, peer, p)
            case Err(e) => Elsewhere(e)
            case Ok(shared) =>
              var (v, m) := WithPin(env, input, provider, info, secret, shared, pool, u + [AskPin]);
              Acquired(input, info, t, v, m) && PromptDecides(provider, v, m)
  {
    EncapsulateKeeps(env.crypto, secret, peer, p);
    var shared := Encapsulate(env.crypto, secret, peer, p);
    if shared.Ok? {
      WithPinAsks(env, input, provider, info, secret, shared.value, pool, u + [AskPin]);
      var (v, m) := WithPin(env, input, provider, info, secret, shared.value, pool, u + [AskPin]);
      AsksMore(input, info, t, u + [AskPin], v, m);
    }
  }

  // ---- over the whole pipeline

  /** What is sent, what is asked for and how the run can end, given what the probe said. */
  ghost predicate PostureKept(input: Input, info: Info, t: Trace, r: Result<Outcome, CeremonyError>) {
    && |t| > 0 && t[0] == ProbeInfo
    && (forall i :: 0 <= i < |t| && t[i].SendAssertion? ==> Postured(input, info, t[i].assertion))
    && (forall i :: 0 <= i < |t| && (t[i].SendPin? || t[i].AskPin?) ==>
                      MustAsk(input, info) && input.pinProvider.Some? && AskedAs(input, info, t[i]))
    && (r == Err(PinRequired) <==> PinMissing(input, info))
    && (r == Err(Transport(UnsupportedProtocol)) <==> HeldInVain(input, info))
    && (PinMissing(input, info) || HeldInVain(input, info) ==> t == [ProbeInfo])
    && (if input.pinProvider.Some? then PromptDecides(input.pinProvider.value, t, r)
        else r.Err? ==> !AtPrompt(r.error))
    && (r.Ok? ==> r.value.uv == if input.pinUvAuth.Some? then PinUvAuth
                                else if MustAsk(input, info) then PinUvAuthToken
                                else if input.policy.Preferred? && SaysUv(info) then UvOption
                                else NotRequested)
  }

  /** The material to send, with nothing but clientPIN calls made for it, and those only where it must be acquired. */
  ghost predicate Settled(input: Input, info: Info, u: Trace, material: Option<Material>) {
    && Asks(input, info, [ProbeInfo], u) && (MustAsk(input, info) ==> input.pinProvider.Some?)
    && (AskPin in u ==> input.pinProvider.Some? && PinGiven(input.pinProvider.value))
    && if MustAsk(input, info)
       then material.Some? && Chosen(input, info, material.value.1)
       else u == [ProbeInfo] && material == input.pinUvAuth
  }

  /** Ended in the acquisition. */
  lemma {:induction false} StopsAsking(input: Input, info: Info, u: Trace, e: CeremonyError)
    requires Asks(input, info, [ProbeInfo], u) && MustAsk(input, info) && input.pinProvider.Some?
    requires (Elsewhere(e) || AtPrompt(e)) && PromptDecides<Outcome>(input.pinProvider.value, u, Err(e))
    ensures PostureKept(input, info, u, Err(e))
  {
    assert u[..1] == [ProbeInfo];
    assert forall i :: 0 <= i < |u| && u[i].SendAssertion? ==> i == 0;
  }

  /** Ended at once, one way or the other. */
  lemma {:induction false} StopsAtOnce(input: Input, info: Info)
    ensures PinMissing(input, info) ==> PostureKept(input, info, [ProbeInfo], Err(PinRequired))
    ensures HeldInVain(input, info) ==> PostureKept(input, info, [ProbeInfo], Err(Transport(UnsupportedProtocol)))
  {
  }

  lemma {:induction false} MaterialSettles(env: Env, input: Input, info: Info)
    ensures var (u, material) := MaterialFor(env, input, info, [ProbeInfo]);
            if material.Ok? then Settled(input, info, u, material.value)
            else PostureKept(input, info, u, Err(material.error))
  {
    OptionsRead(info);
    StopsAtOnce(input, info);
    if MustAsk(input, info) && input.pinProvider.Some? {
      AcquireAsks(env, input, input.pinProvider.value, info, [ProbeInfo]);
      var (u, m) := Acquire(env, input, input.pinProvider.value, info, [ProbeInfo]);
      if m.Err? { StopsAsking(input, info, u, m.error); }
    }
  }

  lemma {:induction false} RequestPostured(input: Input, info: Info, u: Trace, material: Option<Material>)
    requires Settled(input, info, u, material)
    ensures match WireRequest(input, material, info)
            case Err(e) => (e == PinRequired && PinMissing(input, info) && u == [ProbeInfo])
                           || (e == Transport(UnsupportedProtocol) && HeldInVain(input, info) && u == [ProbeInfo])
            case Ok(request) => Postured(input, info, request) && !PinMissing(input, info) && !HeldInVain(input, info)
  {
    OptionsRead(info);
  }

  /** Ended in or after the exchange of the request. */
  lemma {:induction false} SentKept(input: Input, info: Info, u: Trace, v: Trace, request: Request,
                                    r: Result<Outcome, CeremonyError>)
    requires Asks(input, info, [ProbeInfo], u) && (MustAsk(input, info) ==> input.pinProvider.Some?)
    requires !MustAsk(input, info) ==> u == [ProbeInfo]
    requires AskPin in u ==> input.pinProvider.Some? && PinGiven(input.pinProvider.value)
    requires Sends(u, v, request) && Postured(input, info, request) && FailsElsewhere(r)
    requires !PinMissing(input, info) && !HeldInVain(input, info)
    requires r.Ok? ==> r.value.uv == if MustAsk(input, info) then PinUvAuthToken else Effective(request)
    ensures PostureKept(input, info, v, r)
  {
    assert v[..|u|] == u && u[..1] == [ProbeInfo];
    forall i | 0 <= i < |v| ensures v[i] == if i < |u| then u[i] else v[i] {
      if i < |u| { assert v[..|u|][i] == u[i]; }
    }
    assert u[0] == ProbeInfo;
    assert forall i :: 0 <= i < |u| && u[i].SendAssertion? ==> i == 0;
    if AskPin in v {
      var i :| 0 <= i < |v| && v[i] == AskPin;
      assert i < |u| && u[i] == AskPin;
    }
  }

  /** From the material on. */
  lemma {:induction false} SettledFrom(env: Env, input: Input, info: Info, u: Trace, material: Option<Material>)
    requires Settled(input, info, u, material)
    ensures match WireRequest(input, material, info)
            case Err(e) => PostureKept(input, info, u, Err(e))
            case Ok(request) =>
              var (v, r) := Exchange(env, input, u, info, request, MustAcquire(input, info));
              PostureKept(input, info, v, r)
  {
    OptionsRead(info);
    RequestPostured(input, info, u, material);
    StopsAtOnce(input, info);
    var request := WireRequest(input, material, info);
    if request.Ok? {
      ExchangeSends(env, input, u, info, request.value, MustAcquire(input, info));
      var (v, r) := Exchange(env, input, u, info, request.value, MustAcquire(input, info));
      SentKept(input, info, u, v, request.value, r);
    }
  }

  /**
   Every run whose probe was answered: verification is asked for exactly as preferred and offered,
   a PIN only when it must be, and a run that cannot verify stops before anything is sent.
   */
  lemma {:induction false} PostureExact(env: Env, input: Input)
    requires Probe(env, []).1.Ok?
    ensures PostureKept(input, Probe(env, []).1.value, Pipeline(env, input).0, Pipeline(env, input).1)
  {
    var info := Probe(env, []).1.value;
    assert [] + [ProbeInfo] == [ProbeInfo];
    assert Probe(env, []) == ([ProbeInfo], Ok(info));
    MaterialSettles(env, input, info);
    var (u, material) := MaterialFor(env, input, info, [ProbeInfo]);
    if material.Ok? { SettledFrom(env, input, info, u, material.value); }
  }

  /** A run whose probe was not answered sends nothing else. */
  lemma {:induction false} NoProbeNothing(env: Env, input: Input)
    requires Probe(env, []).1.Err?
    ensures Pipeline(env, input).1 == Err(Probe(env, []).1.error) && Pipeline(env, input).1 != Err(PinRequired)
    ensures Pipeline(env, input).0 == [] || Pipeline(env, input).0 == [ProbeInfo]
  {
    assert [] + [ProbeInfo] == [ProbeInfo];
  }

  /** Discouraged: nothing about verification is asked of the device or the user unless the caller holds a token. */
  lemma {:induction false} DiscouragedStaysQuiet(env: Env, input: Input)
    requires input.policy.Discouraged?
    ensures var (t, r) := Pipeline(env, input);
            && r != Err(PinRequired)
            && forall i :: 0 <= i < |t| ==>
                 && !t[i].AskPin? && !t[i].SendPin?
                 && (t[i].SendAssertion? ==>
                       t[i].assertion.options.None? && (input.pinUvAuth.None? ==> t[i].assertion.pinUvAuthParam.None?))
  {
    if Probe(env, []).1.Ok? { PostureExact(env, input); } else { NoProbeNothing(env, input); }
  }

  /** Preferred, with any means of verification on the device: whatever is sent asks for it. */
  lemma {:induction false} NeverDowngraded(env: Env, input: Input)
    requires input.policy.Preferred? && Probe(env, []).1.Ok?
    requires SaysUv(Probe(env, []).1.value) || SaysClientPin(Probe(env, []).1.value)
    ensures var t := Pipeline(env, input).0;
            forall i :: 0 <= i < |t| && t[i].SendAssertion? ==>
                          t[i].assertion.pinUvAuthParam.Some?
                          || t[i].assertion.options == Some(Options(None, Some(true)))
  {
    PostureExact(env, input);
    var info, t := Probe(env, []).1.value, Pipeline(env, input).0;
    forall i | 0 <= i < |t| && t[i].SendAssertion?
      ensures t[i].assertion.pinUvAuthParam.Some? || t[i].assertion.options == Some(Options(None, Some(true)))
    {
      assert Postured(input, info, t[i].assertion);
      if PinMissing(input, info) { assert t == [ProbeInfo]; }
    }
  }
}
