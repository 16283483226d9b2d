/** PIN token acquisition with both parties running: the client's ceremony against the soft token. */
module TwoParty {
  import opened Wrappers
  import opened ByteOrder
  import opened Budget
  import opened Cbor
  import opened CborTheorems
  import opened Members
  import opened GetAssertion
  import opened ClientPin
  import opened PinRequestFacts
  import opened PinCrypto
  import opened PinToken
  import opened Ceremony
  import opened SoftDevice
  import opened Sizes
  import opened SoftLink

  /** A PIN is set, retries are left, the latch is released and both clientPIN knobs are off. */
  ghost predicate Armed(t: Token) {
    && t.pin.Some? && t.pin.value.pinHash.Some? && t.pin.value.retries > 0 && !t.pin.value.locked
    && !t.wrongProtocolEcho && !t.pinEchoDecrypt && GoodProtocols(t.Advertised())
  }

  ghost predicate Usable(p: Protocol, t: Token) {
    !p.Other? && p in t.Advertised()
  }

  // ---- the token's side

  function AgreementOf(c: Crypto, p: Protocol, secret: seq<byte>): Agreement {
    Agreement(Some(p), Some(secret), Some(CoseKey(c.pointX(secret), c.pointY(secret))), None)
  }

  function AfterKey(c: Crypto, s: PinState, p: Protocol, secret: seq<byte>): PinState {
    s.WithRegister(p, AgreementOf(c, p, secret))
  }

  /** getKeyAgreement: a fresh register and its public key. */
  lemma {:induction false} KeyAnswered(c: Crypto, t: Token, p: Protocol, req: PinRequest, pool: seq<byte>,
                                       secret: seq<byte>, rest: seq<byte>)
    requires Armed(t) && Usable(p, t) && req.protocol == p && req.subCommand == GetKeyAgreement
    requires DrawScalar(c, pool, 8) == (Ok(secret), rest)
    ensures ExchangeOn(c, t, req, pool) ==
            Asked(t.(pin := Some(AfterKey(c, t.pin.value, p, secret))),
                  Ok(NO_MEMBERS.(keyAgreement := Some(CoseKey(c.pointX(secret), c.pointY(secret))))), rest)
  {
  }

  /** What a wrong PIN leaves behind. */
  function AfterMiss(s: PinState): PinState
    requires s.retries > 0
  {
    s.(retries := s.retries - 1, mismatches := s.mismatches + 1, locked := s.locked || s.mismatches + 1 >= 3)
  }

  /** What a right PIN leaves behind. */
  function AfterHit(s: PinState, p: Protocol, token: seq<byte>): PinState {
    var refilled := s.(retries := MAX_PIN_RETRIES, mismatches := 0);
    refilled.WithRegister(p, refilled.Register(p).(pinToken := Some(token)))
  }

  /** The token request, up to the comparison: both sides derive the same secret. */
  lemma {:induction false} AttemptCompares(c: Crypto, s: PinState, req: PinRequest, pool: seq<byte>, mine: seq<byte>,
                                           theirs: seq<byte>,
                                           shared: Shared, sent: seq<byte>, p: Protocol)
    requires Lawful(c) && c.validScalar(mine) && c.validScalar(theirs) && !p.Other?
    requires s.pinHash.Some? && s.retries > 0 && !s.locked && s.Register(p) == AgreementOf(c, p, mine)
    requires req.protocol == p && req.keyAgreement == Some(CoseKey(c.pointX(theirs), c.pointY(theirs)))
             && req.pinUvAuthParam.None?
    requires shared == Derive(c, c.agree(theirs, c.pointX(mine), c.pointY(mine)), p)
    requires req.pinHashEnc.Some? && Decrypt(c, shared, req.pinHashEnc.value) == Ok(sent)
    ensures AttemptOn(c, s, false, req, pool) ==
            if sent != s.pinHash.value then Asked(AfterMiss(s), Err(PIN_INVALID), pool)
            else MintOn(c, s.(retries := MAX_PIN_RETRIES, mismatches := 0), p, shared, pool)
  {
    CoseKeyRead(c.pointX(theirs), c.pointY(theirs));
    assert Decapsulate(c, s.Register(p), req.keyAgreement.value)
        == Ok(c.agree(mine, c.pointX(theirs), c.pointY(theirs)));
    assert DerivedUnder(s.Register(p), false, p) == p;
  }

  /** Minting, with entropy for the token and an IV. */
  lemma {:induction false} Minted(c: Crypto, s: PinState, p: Protocol, shared: Shared,
                                  pool: seq<byte>) returns (token: seq<byte>, sealed: seq<byte>, left: seq<byte>)
    requires Lawful(c) && |pool| >= 48
    ensures |token| == 32 && |sealed| <= 48 && Decrypt(c, shared, sealed) == Ok(token)
    ensures MintOn(c, s, p, shared, pool) ==
            Asked(s.WithRegister(p, s.Register(p).(pinToken := Some(token))),
                  Ok(NO_MEMBERS.(pinUvAuthToken := Some(sealed))), left)
  {
    token := pool[..32];
    var r := Encrypt(c, shared, pool[32..], token);
    assert Blocks(token);
    sealed, left := r.0.value, r.1;
    DecryptsBack(c, shared, pool[32..], token);
  }

  // ---- the client's side, hop by hop

  /** The request encodes, and the token reads in its bytes what the client put there. */
  ghost predicate Arrives(r: PinRequest) {
    PinEncodes(r) && Received(r) == Some(r)
  }

  lemma {:induction false} PinRequestFits(c: Crypto, r: PinRequest, secret: seq<byte>)
    requires Lawful(c) && c.validScalar(secret) && !r.protocol.Other?
    requires r.keyAgreement == Some(CoseKey(c.pointX(secret), c.pointY(secret))) && r.pinUvAuthParam.None?
    requires r.pinHashEnc.Some? ==> |r.pinHashEnc.value| <= 900
    requires r.permissions != Some(0) && (r.permissions.Some? ==> r.permissions.value < U32)
    requires r.rpId.Some? ==> Typed(Text(r.rpId.value)) && |r.rpId.value| <= STRING_MAX
    ensures Arrives(r)
  {
    var x, y := c.pointX(secret), c.pointY(secret);
    CoseKeyRead(x, y);
    CoseKeySize(x, y);
    CoseKeyCanonical(x, y);
    PinRequestSize(r);
    PinRequestExact(r);
    EncodeCharacterised(Map(Entries(PinRequestSlots(r))));
    PinRequestRoundTrip(r);
  }

  /** A request that arrives is answered by the token as it stands. */
  lemma {:induction false} PinStep(lib: Libraries, hash: seq<byte>, before: Soft, req: PinRequest, asked: Asked<Token>)
    requires Calm(before) && Arrives(req) && ExchangeOn(lib.crypto, before.token, req, before.pool) == asked
    ensures SoftStep(lib, before, hash, SendPin(req))
         == (before.(token := asked.state, pool := asked.pool), PinBody(asked.answer, RetriesOf(asked.state)))
  {
    assert Injected(before) == before;
  }

  /** A PIN hop the token answers with members: the client reads them, the key agreement canonicalised. */
  lemma {:induction false} PinHopAnswered(lib: Libraries, s: Soft, hash: seq<byte>, patience: nat, t: Trace,
                                          req: PinRequest, before: Soft, asked: Asked<Token>, r: PinResponse)
    requires |t| < patience && before == SoftAfter(lib, s, hash, t) && Calm(before) && Arrives(req)
    requires ExchangeOn(lib.crypto, before.token, req, before.pool) == asked && asked.answer == Ok(r)
    requires TypedPinResponse(r) && |Enc(PinResponseTo(r))| < U64
    ensures PinHop(SoftEnv(lib, s, hash, patience), t, req)
         == (t + [SendPin(req)], Ok(r.(keyAgreement := CanonOpt(r.keyAgreement))))
    ensures SoftAfter(lib, s, hash, t + [SendPin(req)]) == before.(token := asked.state, pool := asked.pool)
  {
    var after, answer := before.(token := asked.state, pool := asked.pool), Body(PinResponseTo(r));
    PinBodyRead(r);
    PinStep(lib, hash, before, req, asked);
    SoftHop(lib, s, hash, patience, t, SendPin(req), ClientPinPhase, before, after, answer);
  }

  /** A PIN hop the token refuses because the PIN is wrong: the client reads the retries left. */
  lemma {:induction false} PinHopMissed(lib: Libraries, s: Soft, hash: seq<byte>, patience: nat, t: Trace,
                                        req: PinRequest, before: Soft, asked: Asked<Token>)
    requires |t| < patience && before == SoftAfter(lib, s, hash, t) && Calm(before) && Arrives(req)
    requires ExchangeOn(lib.crypto, before.token, req, before.pool) == asked && asked.answer == Err(PIN_INVALID)
    requires RetriesOf(asked.state) <= 0xFF
    ensures PinHop(SoftEnv(lib, s, hash, patience), t, req)
         == (t + [SendPin(req)], Err(IncorrectPin(Some(RetriesOf(asked.state)))))
    ensures SoftAfter(lib, s, hash, t + [SendPin(req)]) == before.(token := asked.state, pool := asked.pool)
  {
    var n := RetriesOf(asked.state);
    var after, answer := before.(token := asked.state, pool := asked.pool), PinBody(Err(PIN_INVALID), n);
    MissBody(n);
    PinStep(lib, hash, before, req, asked);
    SoftHop(lib, s, hash, patience, t, SendPin(req), ClientPinPhase, before, after, answer);
  }

  lemma {:induction false} MissBody(n: nat)
    requires n <= 0xFF
    ensures var answer := PinBody(Err(PIN_INVALID), n);
            && answer.Responds? && answer.status == PIN_INVALID && answer.body != []
            && DecodePinLeniently(answer.body) == Some(NO_MEMBERS.(pinRetries := Some(n)))
  {
    var r := NO_MEMBERS.(pinRetries := Some(n));
    PinResponseSize(r);
    PinBodyRead(r);
  }

  // ---- the whole acquisition

  lemma {:induction false} SelectUsable(pinned: Option<Protocol>, t: Token)
    requires GoodProtocols(t.Advertised()) && (pinned.Some? ==> Usable(pinned.value, t))
    ensures Select(pinned, t.Advertised()).Ok? && Usable(Select(pinned, t.Advertised()).value, t)
  {
    if pinned.None? { ImplementedFound(t.Advertised()); }
  }

  lemma {:induction false} ImplementedFound(ps: seq<Protocol>)
    requires One in ps || Two in ps
    ensures Implemented(ps).Some? && !Implemented(ps).value.Other? && Implemented(ps).value in ps
  {
    if ps[0].Other? { ImplementedFound(ps[1..]); }
  }

  /** Both parties' key pairs, their entropy afterwards, and the protocol chosen. */
  datatype Keys = Keys(p: Protocol, mine: seq<byte>, theirs: seq<byte>, tokenPool: seq<byte>, clientPool: seq<byte>)

  /** `mine` is the token's secret, `theirs` the client's; both draws succeed and leave enough for IVs and a token. */
  ghost predicate Drew(lib: Libraries, s: Soft, input: Input, k: Keys) {
    && Select(input.pinProtocol, s.token.Advertised()) == Ok(k.p) && Usable(k.p, s.token)
    && DrawScalar(lib.crypto, s.pool, 8) == (Ok(k.mine), k.tokenPool) && |k.tokenPool| >= 48
    && DrawScalar(lib.crypto, input.entropy, 8) == (Ok(k.theirs), k.clientPool) && |k.clientPool| >= 16
  }

  function SharedBy(c: Crypto, k: Keys): Shared {
    Derive(c, c.agree(k.theirs, c.pointX(k.mine), c.pointY(k.mine)), k.p)
  }

  /** The token once it has handed out its key. */
  function Keyed(lib: Libraries, s: Soft, k: Keys): Soft
    requires s.token.pin.Some?
  {
    s.(token := s.token.(pin := Some(AfterKey(lib.crypto, s.token.pin.value, k.p, k.mine))), pool := k.tokenPool)
  }

  function PinTrace(lib: Libraries, k: Keys): Trace {
    [ProbeInfo] + [SendPin(KeyRequest(lib.crypto, k.theirs, k.p))] + [AskPin]
  }

  /** The first half: key agreement, the shared secret, and the PIN asked for. */
  lemma {:induction false} FirstHalf(lib: Libraries, s: Soft, hash: seq<byte>, patience: nat, input: Input,
                                     pin: seq<byte>, k: Keys)
    requires Lawful(lib.crypto) && Calm(s) && Armed(s.token) && Drew(lib, s, input, k) && patience >= 4
    requires SoftAfter(lib, s, hash, [ProbeInfo]) == s
    ensures Acquire(SoftEnv(lib, s, hash, patience), input, Some(pin), ArmedInfo(s), [ProbeInfo])
         == WithPin(SoftEnv(lib, s, hash, patience), input, Some(pin), ArmedInfo(s), k.theirs, SharedBy(lib.crypto, k),
                    k.clientPool, PinTrace(lib, k))
    ensures SoftAfter(lib, s, hash, PinTrace(lib, k)) == Keyed(lib, s, k)
  {
    var c := lib.crypto;
    var key := CoseKey(c.pointX(k.mine), c.pointY(k.mine));
    ArmedInfoSays(s);
    KeyHop(lib, s, hash, patience, input, k);
    CoseKeyRead(c.pointX(k.mine), c.pointY(k.mine));
    assert Encapsulate(c, k.theirs, Canon(key), k.p) == Ok(SharedBy(c, k));
    SoftMore(lib, s, hash, [ProbeInfo] + [SendPin(KeyRequest(c, k.theirs, k.p))], AskPin);
  }

  lemma {:induction false} KeyHop(lib: Libraries, s: Soft, hash: seq<byte>, patience: nat, input: Input, k: Keys)
    requires Lawful(lib.crypto) && Calm(s) && Armed(s.token) && Drew(lib, s, input, k) && patience >= 4
    requires SoftAfter(lib, s, hash, [ProbeInfo]) == s
    ensures var c, t := lib.crypto, [ProbeInfo] + [SendPin(KeyRequest(lib.crypto, k.theirs, k.p))];
            && PinHop(SoftEnv(lib, s, hash, patience), [ProbeInfo], KeyRequest(c, k.theirs, k.p))
            == (t, Ok(NO_MEMBERS.(keyAgreement := Some(Canon(CoseKey(c.pointX(k.mine), c.pointY(k.mine)))))))
            && SoftAfter(lib, s, hash, t) == Keyed(lib, s, k)
  {
    var c, req := lib.crypto, KeyRequest(lib.crypto, k.theirs, k.p);
    var r := NO_MEMBERS.(keyAgreement := Some(CoseKey(c.pointX(k.mine), c.pointY(k.mine))));
    PinRequestFits(c, req, k.theirs);
    KeyAnswered(c, s.token, k.p, req, s.pool, k.mine, k.tokenPool);
    KeyBody(c, k.mine);
    PinHopAnswered(lib, s, hash, patience, [ProbeInfo], req, s,
                   Asked(s.token.(pin := Some(AfterKey(c, s.token.pin.value, k.p, k.mine))), Ok(r), k.tokenPool), r);
  }

  lemma {:induction false} KeyBody(c: Crypto, secret: seq<byte>)
    requires Lawful(c) && c.validScalar(secret)
    ensures var r := NO_MEMBERS.(keyAgreement := Some(CoseKey(c.pointX(secret), c.pointY(secret))));
            TypedPinResponse(r) && |Enc(PinResponseTo(r))| < U64
  {
    CoseKeyRead(c.pointX(secret), c.pointY(secret));
    CoseKeySize(c.pointX(secret), c.pointY(secret));
    PinResponseSize(NO_MEMBERS.(keyAgreement := Some(CoseKey(c.pointX(secret), c.pointY(secret)))));
  }

  /** The token request the client sends for this PIN. */
  function TokenRequestFor(lib: Libraries, s: Soft, input: Input, pin: seq<byte>, k: Keys): PinRequest {
    var sealed := Encrypt(lib.crypto, SharedBy(lib.crypto, k), k.clientPool, PinHash(lib.crypto, pin)).0;
    TokenRequest(lib.crypto, k.theirs, k.p, if sealed.Ok? then sealed.value else [], s.advertisePuat, input.rpId)
  }

  /** The relying party's name is a string of the source: UTF-8, and no longer than memory allows. */
  ghost predicate NamesParty(input: Input) {
    Typed(Text(input.rpId)) && |input.rpId| <= STRING_MAX
  }

  /** The client can send it, it arrives as it was, and the token, at this point, compares what it carries. */
  lemma {:induction false} TokenRequested(lib: Libraries, s: Soft, input: Input, pin: seq<byte>, k: Keys)
    requires Lawful(lib.crypto) && Armed(s.token) && Drew(lib, s, input, k) && NamesParty(input)
    ensures var c, req, shared := lib.crypto, TokenRequestFor(lib, s, input, pin, k), SharedBy(lib.crypto, k);
            var now := Keyed(lib, s, k).token.pin.value;
            && Encrypt(c, shared, k.clientPool, PinHash(c, pin)).0.Ok? && Arrives(req)
            && AttemptOn(c, now, false, req, k.tokenPool) ==
               if PinHash(c, pin) != now.pinHash.value then Asked(AfterMiss(now), Err(PIN_INVALID), k.tokenPool)
               else MintOn(c, now.(retries := MAX_PIN_RETRIES, mismatches := 0), k.p, shared, k.tokenPool)
  {
    var c, req, shared := lib.crypto, TokenRequestFor(lib, s, input, pin, k), SharedBy(lib.crypto, k);
    var plain := PinHash(c, pin);
    assert |plain| == 16 && Blocks(plain);
    assert Encrypt(c, shared, k.clientPool, plain).0.Ok? && |Encrypt(c, shared, k.clientPool, plain).0.value| <= 32;
    PinRequestFits(c, req, k.theirs);
    DecryptsBack(c, shared, k.clientPool, plain);
    AttemptCompares(c, Keyed(lib, s, k).token.pin.value, req, k.tokenPool, k.mine, k.theirs, shared, plain, k.p);
  }

  /** The exchange is the attempt, with the token around it. */
  lemma {:induction false} AttemptExchanged(c: Crypto, t: Token, req: PinRequest, pool: seq<byte>, a: Asked<PinState>)
    requires Armed(t) && Usable(req.protocol, t) && PinBearing(req) && a == AttemptOn(c, t.pin.value, false, req, pool)
    ensures ExchangeOn(c, t, req, pool) == Asked(t.(pin := Some(a.state)), a.answer, a.pool)
  {
  }

  /** The token, keyed, is still armed. */
  lemma {:induction false} KeyedArmed(lib: Libraries, s: Soft, k: Keys)
    requires Calm(s) && Armed(s.token)
    ensures Calm(Keyed(lib, s, k)) && Armed(Keyed(lib, s, k).token)
    ensures Keyed(lib, s, k).token.Advertised() == s.token.Advertised()
    ensures Keyed(lib, s, k).token.pin.value.retries == s.token.pin.value.retries
    ensures Keyed(lib, s, k).token.pin.value.pinHash == s.token.pin.value.pinHash
  {
  }

  /** What the parameter must be: the MAC of the client data hash under the token's own register. */
  function ParamUnder(c: Crypto, p: Protocol, token: seq<byte>, clientDataHash: seq<byte>): seq<byte> {
    Authenticate(c, Shared([], p), token, clientDataHash)
  }

  /** The token request goes out once the PIN is there and fits. */
  lemma {:induction false} PinSent(lib: Libraries, s: Soft, env: Env, input: Input, pin: seq<byte>, k: Keys, t: Trace)
    requires env.crypto == lib.crypto && s.token.pin.Some? && |pin| <= MAX_PIN_BYTES
    requires Encrypt(lib.crypto, SharedBy(lib.crypto, k), k.clientPool, PinHash(lib.crypto, pin)).0.Ok?
    ensures WithPin(env, input, Some(pin), ArmedInfo(s), k.theirs, SharedBy(lib.crypto, k), k.clientPool, t)
         == WithToken(env, input, SharedBy(lib.crypto, k), PinHop(env, t, TokenRequestFor(lib, s, input, pin, k)))
  {
    ArmedInfoSays(s);
  }

  /** Everything that is settled when the PIN has been asked for. */
  ghost predicate Halfway(lib: Libraries, s: Soft, hash: seq<byte>, patience: nat, input: Input, pin: seq<byte>,
                          k: Keys)
  {
    && Lawful(lib.crypto) && Calm(s) && Armed(s.token) && Drew(lib, s, input, k) && patience >= 4
    && NamesParty(input) && |pin| <= MAX_PIN_BYTES && s.token.pin.value.retries <= 0xFF
    && SoftAfter(lib, s, hash, PinTrace(lib, k)) == Keyed(lib, s, k)
  }

  function TokenTrace(lib: Libraries, s: Soft, input: Input, pin: seq<byte>, k: Keys): Trace {
    PinTrace(lib, k) + [SendPin(TokenRequestFor(lib, s, input, pin, k))]
  }

  /** The token request answered: a token in the register, and the same token sealed for the client. */
  lemma {:induction false} HitHop(lib: Libraries, s: Soft, hash: seq<byte>, patience: nat, input: Input, pin: seq<byte>,
                                  k: Keys)
    returns (token: seq<byte>, sealed: seq<byte>, left: seq<byte>)
    requires Halfway(lib, s, hash, patience, input, pin, k)
             && PinHash(lib.crypto, pin) == s.token.pin.value.pinHash.value
    ensures |token| == 32 && Decrypt(lib.crypto, SharedBy(lib.crypto, k), sealed) == Ok(token)
    ensures PinHop(SoftEnv(lib, s, hash, patience), PinTrace(lib, k), TokenRequestFor(lib, s, input, pin, k))
         == (TokenTrace(lib, s, input, pin, k), Ok(NO_MEMBERS.(pinUvAuthToken := Some(sealed))))
    ensures SoftAfter(lib, s, hash, TokenTrace(lib, s, input, pin, k))
         == AfterToken(s, AfterHit(Keyed(lib, s, k).token.pin.value, k.p, token), left)
  {
    var c, req, now := lib.crypto, TokenRequestFor(lib, s, input, pin, k), Keyed(lib, s, k);
    var refilled := now.token.pin.value.(retries := MAX_PIN_RETRIES, mismatches := 0);
    TokenRequested(lib, s, input, pin, k);
    token, sealed, left := Minted(c, refilled, k.p, SharedBy(c, k), k.tokenPool);
    var r := NO_MEMBERS.(pinUvAuthToken := Some(sealed));
    var hit := Asked(AfterHit(now.token.pin.value, k.p, token), Ok(r), left);
    PinResponseSize(r);
    KeyedArmed(lib, s, k);
    AttemptExchanged(c, now.token, req, now.pool, hit);
    PinHopAnswered(lib, s, hash, patience, PinTrace(lib, k), req, now,
                   Asked(now.token.(pin := Some(hit.state)), Ok(r), left), r);
  }

  /** The token with its PIN state and entropy replaced. */
  function AfterToken(s: Soft, pin: PinState, pool: seq<byte>): Soft {
    s.(token := s.token.(pin := Some(pin)), pool := pool)
  }

  /** The second half with the right PIN. */
  lemma {:induction false} SecondHalfHit(lib: Libraries, s: Soft, hash: seq<byte>, patience: nat, input: Input,
                                         pin: seq<byte>, k: Keys)
    returns (token: seq<byte>, left: seq<byte>)
    requires Halfway(lib, s, hash, patience, input, pin, k)
             && PinHash(lib.crypto, pin) == s.token.pin.value.pinHash.value
    ensures |token| == 32
    ensures WithPin(SoftEnv(lib, s, hash, patience), input, Some(pin), ArmedInfo(s), k.theirs, SharedBy(lib.crypto, k),
                    k.clientPool, PinTrace(lib, k))
         == (TokenTrace(lib, s, input, pin, k), Ok((ParamUnder(lib.crypto, k.p, token, input.clientDataHash), k.p)))
    ensures SoftAfter(lib, s, hash, TokenTrace(lib, s, input, pin, k))
         == AfterToken(s, AfterHit(Keyed(lib, s, k).token.pin.value, k.p, token), left)
  {
    var sealed;
    token, sealed, left := HitHop(lib, s, hash, patience, input, pin, k);
    TokenRequested(lib, s, input, pin, k);
    PinSent(lib, s, SoftEnv(lib, s, hash, patience), input, pin, k, PinTrace(lib, k));
  }

  /** The second half with a wrong PIN. */
  lemma {:induction false} SecondHalfMiss(lib: Libraries, s: Soft, hash: seq<byte>, patience: nat, input: Input,
                                          pin: seq<byte>, k: Keys)
    requires Halfway(lib, s, hash, patience, input, pin, k)
             && PinHash(lib.crypto, pin) != s.token.pin.value.pinHash.value
    ensures WithPin(SoftEnv(lib, s, hash, patience), input, Some(pin), ArmedInfo(s), k.theirs, SharedBy(lib.crypto, k),
                    k.clientPool, PinTrace(lib, k))
         == (TokenTrace(lib, s, input, pin, k), Err(IncorrectPin(Some(s.token.pin.value.retries - 1))))
    ensures SoftAfter(lib, s, hash, TokenTrace(lib, s, input, pin, k))
         == AfterToken(s, AfterMiss(Keyed(lib, s, k).token.pin.value), k.tokenPool)
  {
    TokenRequested(lib, s, input, pin, k);
    MissHop(lib, s, hash, patience, input, pin, k);
    PinSent(lib, s, SoftEnv(lib, s, hash, patience), input, pin, k, PinTrace(lib, k));
  }

  /** The exchange at this point, with a wrong PIN. */
  lemma {:induction false} MissAsked(lib: Libraries, s: Soft, input: Input, pin: seq<byte>, k: Keys)
    requires Lawful(lib.crypto) && Calm(s) && Armed(s.token) && Drew(lib, s, input, k) && NamesParty(input)
    requires PinHash(lib.crypto, pin) != s.token.pin.value.pinHash.value
    ensures var now := Keyed(lib, s, k);
            && Arrives(TokenRequestFor(lib, s, input, pin, k)) && Calm(now) && now.token.pin.value.retries > 0
            && ExchangeOn(lib.crypto, now.token, TokenRequestFor(lib, s, input, pin, k), now.pool)
            == Asked(now.token.(pin := Some(AfterMiss(now.token.pin.value))), Err(PIN_INVALID), k.tokenPool)
  {
    var c, req, now := lib.crypto, TokenRequestFor(lib, s, input, pin, k), Keyed(lib, s, k);
    TokenRequested(lib, s, input, pin, k);
    KeyedArmed(lib, s, k);
    AttemptExchanged(c, now.token, req, now.pool,
                     Asked(AfterMiss(now.token.pin.value), Err(PIN_INVALID), k.tokenPool));
  }

  lemma {:induction false} MissHop(lib: Libraries, s: Soft, hash: seq<byte>, patience: nat, input: Input,
                                   pin: seq<byte>, k: Keys)
    requires Halfway(lib, s, hash, patience, input, pin, k)
             && PinHash(lib.crypto, pin) != s.token.pin.value.pinHash.value
    ensures PinHop(SoftEnv(lib, s, hash, patience), PinTrace(lib, k), TokenRequestFor(lib, s, input, pin, k))
         == (TokenTrace(lib, s, input, pin, k), Err(IncorrectPin(Some(s.token.pin.value.retries - 1))))
    ensures SoftAfter(lib, s, hash, TokenTrace(lib, s, input, pin, k))
         == AfterToken(s, AfterMiss(Keyed(lib, s, k).token.pin.value), k.tokenPool)
  {
    var now := Keyed(lib, s, k);
    var missed := Asked(now.token.(pin := Some(AfterMiss(now.token.pin.value))), Err(PIN_INVALID), k.tokenPool);
    MissAsked(lib, s, input, pin, k);
    MissLeaves(lib, s, k);
    PinHopMissed(lib, s, hash, patience, PinTrace(lib, k), TokenRequestFor(lib, s, input, pin, k), now, missed);
  }

  /** The token after the miss, seen from before the acquisition. */
  lemma {:induction false} MissLeaves(lib: Libraries, s: Soft, k: Keys)
    requires Armed(s.token)
    ensures var now := Keyed(lib, s, k);
            var after := now.token.(pin := Some(AfterMiss(now.token.pin.value)));
            && RetriesOf(after) == s.token.pin.value.retries - 1
            && now.(token := after, pool := k.tokenPool) == AfterToken(s, AfterMiss(now.token.pin.value), k.tokenPool)
  {
  }

  /** The client wants a token, has a PIN short enough to send, and both sides have the entropy the run needs. */
  ghost predicate Prepared(lib: Libraries, s: Soft, input: Input, pin: seq<byte>, k: Keys) {
    && Lawful(lib.crypto) && Calm(s) && Armed(s.token) && s.token.pin.value.retries <= MAX_PIN_RETRIES
    && input.policy == Preferred && input.pinUvAuth.None? && input.pinProvider == Some(Some(pin))
    && |pin| <= MAX_PIN_BYTES
    && NamesParty(input) && (input.pinProtocol.Some? ==> Usable(input.pinProtocol.value, s.token))
    && DrawScalar(lib.crypto, s.pool, 8) == (Ok(k.mine), k.tokenPool) && |k.tokenPool| >= 48
    && DrawScalar(lib.crypto, input.entropy, 8) == (Ok(k.theirs), k.clientPool) && |k.clientPool| >= 16
    && Select(input.pinProtocol, s.token.Advertised()) == Ok(k.p)
  }

  /** The probe, the decision to acquire, and everything up to the PIN. */
  lemma {:induction false} Started(lib: Libraries, s: Soft, hash: seq<byte>, patience: nat, input: Input,
                                   pin: seq<byte>, k: Keys)
    requires Prepared(lib, s, input, pin, k) && patience >= 4
    ensures Probe(SoftEnv(lib, s, hash, patience), []) == ([ProbeInfo], Ok(ArmedInfo(s)))
    ensures MustAcquire(input, ArmedInfo(s)) && Halfway(lib, s, hash, patience, input, pin, k)
    ensures Acquire(SoftEnv(lib, s, hash, patience), input, Some(pin), ArmedInfo(s), [ProbeInfo])
         == WithPin(SoftEnv(lib, s, hash, patience), input, Some(pin), ArmedInfo(s), k.theirs, SharedBy(lib.crypto, k),
                    k.clientPool, PinTrace(lib, k))
  {
    ProbeArmed(lib, s, hash, patience);
    ArmedInfoSays(s);
    SelectUsable(input.pinProtocol, s.token);
    FirstHalf(lib, s, hash, patience, input, pin, k);
  }

  /** The authenticator's PIN state after a successful acquisition with token `token`. */
  ghost predicate Holds(end: Soft, s: Soft, p: Protocol, token: seq<byte>) {
    && end == s.(token := end.token, pool := end.pool) && end.token.pin.Some?
    && end.token.pin.value.Register(p).pinToken == Some(token)
    && end.token.pin.value.retries == MAX_PIN_RETRIES && end.token.pin.value.mismatches == 0
  }

  /**
   The right PIN: the ceremony ends the acquisition holding the MAC of its client data hash under
   the very token that the authenticator keeps in the register, and the counters are refilled.
   */
  lemma {:induction false} RightPinAcquires(lib: Libraries, s: Soft, hash: seq<byte>, patience: nat, input: Input,
                                            pin: seq<byte>, k: Keys)
    returns (token: seq<byte>, t: Trace)
    requires Prepared(lib, s, input, pin, k) && patience >= 4
             && PinHash(lib.crypto, pin) == s.token.pin.value.pinHash.value
    ensures Probe(SoftEnv(lib, s, hash, patience), []) == ([ProbeInfo], Ok(ArmedInfo(s)))
    ensures MaterialFor(SoftEnv(lib, s, hash, patience), input, ArmedInfo(s), [ProbeInfo])
         == (t, Ok(Some((ParamUnder(lib.crypto, k.p, token, input.clientDataHash), k.p))))
    ensures |t| == 4 && |token| == 32 && Holds(SoftAfter(lib, s, hash, t), s, k.p, token)
  {
    var left;
    Started(lib, s, hash, patience, input, pin, k);
    token, left := SecondHalfHit(lib, s, hash, patience, input, pin, k);
    t := TokenTrace(lib, s, input, pin, k);
  }

  /** A wrong PIN: the ceremony ends with the exact number of retries left, one fewer than before. */
  lemma {:induction false} WrongPinCosts(lib: Libraries, s: Soft, hash: seq<byte>, patience: nat, input: Input,
                                         pin: seq<byte>, k: Keys)
    requires Prepared(lib, s, input, pin, k) && patience >= 4
             && PinHash(lib.crypto, pin) != s.token.pin.value.pinHash.value
    ensures var (t, r) := Pipeline(SoftEnv(lib, s, hash, patience), input);
            var before, end := s.token.pin.value, SoftAfter(lib, s, hash, t).token.pin;
            && r == Err(IncorrectPin(Some(before.retries - 1)))
            && end.Some? && end.value.retries == before.retries - 1 && end.value.mismatches == before.mismatches + 1
  {
    Started(lib, s, hash, patience, input, pin, k);
    SecondHalfMiss(lib, s, hash, patience, input, pin, k);
  }
}
