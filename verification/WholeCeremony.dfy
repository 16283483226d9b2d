/** The whole ceremony against the whole token: from the PIN to the last assertion. */
module WholeCeremony {
  import opened Wrappers
  import opened ByteOrder
  import opened GetAssertion
  import opened GetInfo
  import opened PinCrypto
  import opened PinToken
  import opened Assertions
  import opened Ceremony
  import opened SoftDevice
  import opened SoftLink
  import opened TwoParty
  import opened DrainTogether

  /** The request that carries the acquired parameter. */
  function TokenedRequest(input: Input, param: seq<byte>, p: Protocol): Request {
    Request(input.rpId, input.clientDataHash,
            if input.allowCredentials == Some([]) then None else input.allowCredentials,
            None, None, Some(param), Some(p))
  }

  /** Which credentials match depends on the relying party and the allow list alone. */
  lemma {:induction false} MatchingSame(cs: seq<Credential>, q: Request, r: Request, from: nat)
    requires q.rpId == r.rpId && q.allowList == r.allowList
    ensures MatchingFrom(cs, q, from) == MatchingFrom(cs, r, from)
    decreases |cs| - from
  {
    if from < |cs| { MatchingSame(cs, q, r, from + 1); }
  }

  lemma {:induction false} PipelineFrom(env: Env, input: Input, t: Trace, info: Info, param: seq<byte>, p: Protocol,
                                        u: Trace,
                                        end: Ended<Outcome>)
    requires Probe(env, []) == (t, Ok(info)) && MaterialFor(env, input, info, t) == (u, Ok(Some((param, p))))
    requires info.protocols.Some? && p in info.protocols.value && MustAcquire(input, info)
    requires end == Exchange(env, input, u, info, TokenedRequest(input, param, p), true)
    ensures Pipeline(env, input) == end
  {
    assert WireRequest(input, Some((param, p)), info) == Ok(TokenedRequest(input, param, p));
  }

  /**
   With the right PIN and one to nine matching credentials the ceremony succeeds: one assertion of
   each in store order, verified by a token, under the parameter made from the token that the
   authenticator's register holds, with the retries back at their maximum.
   */
  lemma {:induction false} RightPinSucceeds(lib: Libraries, s: Soft, patience: nat, input: Input, pin: seq<byte>,
                                            k: Keys, m: seq<nat>)
    returns (token: seq<byte>, request: Request, end: Trace)
    requires Prepared(lib, s, input, pin, k) && PinHash(lib.crypto, pin) == s.token.pin.value.pinHash.value
    requires Approving(s) && GoodSigner(lib.signer) && input.drain
    requires m == Matching(s.store, TokenedRequest(input, [], k.p)) && 1 <= |m| <= 9 && patience >= 4 + |m|
    requires |m| == 1 ==> s.store.queue == []
    ensures request == TokenedRequest(input, ParamUnder(lib.crypto, k.p, token, input.clientDataHash), k.p)
    ensures Matching(s.store, request) == m
    ensures Pipeline(SoftEnv(lib, s, input.clientDataHash, patience), input)
         == (end, Ok(Outcome(AllResponses(lib.signer, s, request), ArmedInfo(s), PinUvAuthToken)))
    ensures var after := SoftAfter(lib, s, input.clientDataHash, end);
            && after.store == s.store.(queue := [], signCount := CountAfter(s.store.signCount, |m|))
            && after.token.pin.Some? && after.token.pin.value.Register(k.p).pinToken == Some(token)
            && after.token.pin.value.retries == MAX_PIN_RETRIES
  {
    var hash := input.clientDataHash;
    var t;
    token, t := RightPinAcquires(lib, s, hash, patience, input, pin, k);
    var param := ParamUnder(lib.crypto, k.p, token, hash);
    request := TokenedRequest(input, param, k.p);
    end := t + [SendAssertion(request)] + Hooks(|m| - 1);
    MatchingSame(s.store.credentials, request, TokenedRequest(input, [], k.p), 0);
    Advertised(s, input, k);
    Asserted(lib, s, hash, patience, input, t, SoftAfter(lib, s, hash, t), request, m);
    PipelineFrom(SoftEnv(lib, s, hash, patience), input, [ProbeInfo], ArmedInfo(s), param, k.p, t,
                 (end, Ok(Outcome(AllResponses(lib.signer, s, request), ArmedInfo(s), PinUvAuthToken))));
  }

  lemma {:induction false} Advertised(s: Soft, input: Input, k: Keys)
    requires s.token.pin.Some? && Armed(s.token) && input.policy == Preferred && input.pinUvAuth.None?
    requires Select(input.pinProtocol, s.token.Advertised()) == Ok(k.p)
    requires input.pinProtocol.Some? ==> Usable(input.pinProtocol.value, s.token)
    ensures ArmedInfo(s).protocols.Some? && k.p in ArmedInfo(s).protocols.value && MustAcquire(input, ArmedInfo(s))
  {
    ArmedInfoSays(s);
    SelectUsable(input.pinProtocol, s.token);
  }

  /** The exchange after the acquisition, which changed nothing but the PIN state and the entropy. */
  lemma {:induction false} Asserted(lib: Libraries, s: Soft, hash: seq<byte>, patience: nat, input: Input, t: Trace,
                                    now: Soft, r: Request, m: seq<nat>)
    requires now == SoftAfter(lib, s, hash, t) && now == s.(token := now.token, pool := now.pool)
    requires Approving(s) && GoodSigner(lib.signer) && input.drain && r.clientDataHash == hash
    requires m == Matching(s.store, r) && 1 <= |m| <= 9 && |t| + |m| <= patience && (|m| == 1 ==> s.store.queue == [])
    ensures Exchange(SoftEnv(lib, s, hash, patience), input, t, ArmedInfo(s), r, true) ==
            (t + [SendAssertion(r)] + Hooks(|m| - 1),
             Ok(Outcome(AllResponses(lib.signer, s, r), ArmedInfo(s), PinUvAuthToken)))
    ensures SoftAfter(lib, s, hash, t + [SendAssertion(r)] + Hooks(|m| - 1))
         == now.(store := s.store.(queue := [], signCount := CountAfter(s.store.signCount, |m|)))
  {
    CeremonyDrains(lib, s, hash, patience, t, now, input, ArmedInfo(s), r, true, m);
    SameResponses(lib.signer, s, now, r);
  }

  lemma {:induction false} SameResponses(k: Signer, s: Soft, now: Soft, r: Request)
    requires now.store == s.store && Matching(s.store, r) != []
    ensures AllResponses(k, now, r) == AllResponses(k, s, r)
  {
  }
}
