/** PIN guesses over whole runs of an authenticator, with harness calls and requests in any order. */
module PinRuns {
  import opened Wrappers
  import opened ByteOrder
  import opened GetAssertion
  import opened ClientPin
  import opened PinCrypto
  import opened PinToken

  /** The counters stay within bounds, and three mismatches mean the latch is engaged. */
  ghost predicate Safe(t: Token) {
    t.pin.Some? ==>
      var s := t.pin.value;
      s.retries + s.mismatches <= MAX_PIN_RETRIES && s.mismatches <= 3 && (s.mismatches == 3 ==> s.locked)
  }

  datatype Event =
    | SetPin(pin: seq<byte>)
    | ClearPin
    | PowerCycle
    | SetProtocols(protocols: seq<Protocol>)
    | SetKnobs(wrongEcho: bool, echoDecrypt: bool)
    | Ask(req: PinRequest, pool: seq<byte>)

  /** The token after an event, and the answer if it was a request. */
  function After(c: Crypto, t: Token, e: Event): Token {
    match e
    case SetPin(pin) => SetPinOn(c, t, pin)
    case ClearPin => ClearPinOn(t)
    case PowerCycle => PowerCycleOn(t)
    case SetProtocols(protocols) => t.(protocols := Some(protocols))
    case SetKnobs(wrongEcho, echoDecrypt) => t.(wrongProtocolEcho := wrongEcho, pinEchoDecrypt := echoDecrypt)
    case Ask(req, pool) => ExchangeOn(c, t, req, pool).state
  }

  function AfterAll(c: Crypto, t: Token, run: seq<Event>): Token
    decreases |run|
  {
    if run == [] then t else AfterAll(c, After(c, t, run[0]), run[1..])
  }

  /** The event is a guess the token answered with PIN invalid. */
  predicate WrongGuess(c: Crypto, t: Token, e: Event) {
    e.Ask? && ExchangeOn(c, t, e.req, e.pool).answer == Err(PIN_INVALID)
  }

  function WrongGuesses(c: Crypto, t: Token, run: seq<Event>): nat
    decreases |run|
  {
    if run == [] then 0
    else (if WrongGuess(c, t, run[0]) then 1 else 0) + WrongGuesses(c, After(c, t, run[0]), run[1..])
  }

  /** The event refills the retry counter: a harness call that does, or a guess that matched. */
  predicate Refills(c: Crypto, t: Token, e: Event) {
    match e
    case SetPin(_) => true
    case ClearPin => true
    case PowerCycle => false
    case SetProtocols(_) => false
    case SetKnobs(_, _) => false
    case Ask(req, pool) => PinBearing(req) && MatchedAnswer(ExchangeOn(c, t, req, pool).answer)
  }

  /** A matching guess is answered with a token, or with a full key store when entropy runs out. */
  predicate MatchedAnswer(a: PinAnswer) {
    a.Ok? || a == Err(KEY_STORE_FULL)
  }

  ghost predicate NoRefill(c: Crypto, t: Token, run: seq<Event>)
    decreases |run|
  {
    run == [] || (!Refills(c, t, run[0]) && NoRefill(c, After(c, t, run[0]), run[1..]))
  }

  function Retries(t: Token): nat {
    if t.pin.Some? then t.pin.value.retries else 0
  }

  function Mismatches(t: Token): nat {
    if t.pin.Some? then t.pin.value.mismatches else 0
  }

  // ---- one event

  /** What refills leaves eight retries and no mismatch, and what does not never adds a retry. */
  lemma {:induction false} RefillExact(c: Crypto, t: Token, e: Event)
    requires t.pin.Some? || e.SetPin?
    ensures Refills(c, t, e) ==> Retries(After(c, t, e)) == 8 && Mismatches(After(c, t, e)) == 0
    ensures !Refills(c, t, e) ==> Retries(After(c, t, e)) <= Retries(t)
  {
  }

  lemma {:induction false} EventSafe(c: Crypto, t: Token, e: Event)
    requires Safe(t)
    ensures Safe(After(c, t, e))
  {
  }

  /** What a PIN-bearing request does to the counters, by its answer. */
  lemma {:induction false} AttemptCounts(c: Crypto, s: PinState, echo: bool, req: PinRequest, pool: seq<byte>)
    ensures var a := AttemptOn(c, s, echo, req, pool);
            var n := a.state;
            && n.pinHash == s.pinHash
            && if MatchedAnswer(a.answer) then n.retries == MAX_PIN_RETRIES && n.mismatches == 0
               else if a.answer == Err(PIN_INVALID) then
                 n.retries == s.retries - 1 && n.mismatches == s.mismatches + 1 && !s.locked
               else n.retries <= s.retries && n.mismatches == s.mismatches && n.locked == s.locked
  {
  }

  /** A pinUvAuthParam that is absent, or the MAC the token expects. */
  predicate ParamAccepted(c: Crypto, s: PinState, echo: bool, req: PinRequest) {
    if req.pinUvAuthParam.None? then true
    else if req.keyAgreement.None? then false
    else
      var a := s.Register(req.protocol);
      var z := Decapsulate(c, a, req.keyAgreement.value);
      var param := req.pinUvAuthParam.value;
      z.Ok? && param == Authenticate(c, Derive(c, z.value, DerivedUnder(a, echo, req.protocol)), [], [])
  }

  /**
   The refusals that cost a retry: a wrong PIN, a missing parameter other than the key, and a failed
   authentication other than that of the parameter, which is a pinHashEnc that cannot be decrypted.
   */
  predicate Costs(c: Crypto, s: PinState, echo: bool, req: PinRequest, answer: PinAnswer) {
    || answer == Err(PIN_INVALID)
    || (answer == Err(MISSING_PARAMETER) && req.keyAgreement.Some?)
    || (answer == Err(PIN_AUTH_INVALID) && ParamAccepted(c, s, echo, req))
  }

  /** Those refusals cost exactly one retry and the others change nothing at all. */
  lemma {:induction false} RefusalCosts(c: Crypto, s: PinState, echo: bool, req: PinRequest, pool: seq<byte>)
    ensures var a := AttemptOn(c, s, echo, req, pool);
            !MatchedAnswer(a.answer) ==>
              if Costs(c, s, echo, req, a.answer) then
                var wrong := if a.answer == Err(PIN_INVALID) then 1 else 0;
                && s.retries > 0 && !s.locked
                && a.state == s.(retries := s.retries - 1, mismatches := s.mismatches + wrong,
                                 locked := wrong == 1 && s.mismatches + 1 >= 3)
              else a.state == s
  {
  }

  /** The status of a PIN-bearing request, whatever the knobs: the checks in their order, each with its own code. */
  lemma {:induction false} AttemptStatus(c: Crypto, s: PinState, echo: bool, req: PinRequest, pool: seq<byte>)
    ensures var answer := AttemptOn(c, s, echo, req, pool).answer;
            if s.pinHash.None? then answer == Err(0x35)
            else if s.retries == 0 then answer == Err(0x32)
            else if s.locked then answer == Err(0x34)
            else if req.keyAgreement.None? then answer == Err(0x14)
            else if !Decapsulate(c, s.Register(req.protocol), req.keyAgreement.value).Ok? then answer == Err(0x02)
            else if !ParamAccepted(c, s, echo, req) then answer == Err(0x33)
            else if req.pinHashEnc.None? then answer == Err(0x14)
            else if echo || SentHash(c, s, req).None? then answer == Err(0x33)
            else if SentHash(c, s, req) != s.pinHash then answer == Err(0x31)
            else MatchedAnswer(answer) && (answer.Ok? ==> answer.value.pinUvAuthToken.Some?)
  {
  }

  /**
   getKeyAgreement: a fresh key pair in the register of its protocol and no other change, the public half
   answered; without entropy status 0x28 and no change. The wrong-echo knob records protocol two for one.
   */
  lemma {:induction false} KeyAgreementFresh(c: Crypto, s: PinState, wrongEcho: bool, p: Protocol, pool: seq<byte>)
    ensures var asked, (secret, rest) := KeyAgreementOn(c, s, wrongEcho, p, pool), DrawScalar(c, pool, 8);
            && asked.pool == rest
            && (secret.Err? ==> asked.state == s && asked.answer == Err(0x28))
            && (secret.Ok? ==>
                  var key := CoseKey(c.pointX(secret.value), c.pointY(secret.value));
                  var recorded := if wrongEcho && p == One then Two else p;
                  && asked.answer == Ok(PinResponse(Some(key), None, None, None))
                  && asked.state.Register(p) == Agreement(Some(recorded), Some(secret.value), Some(key), None)
                  && asked.state.(one := s.one, two := s.two) == s
                  && (p == One ==> asked.state.two == s.two) && (p != One ==> asked.state.one == s.one))
  {
  }

  /** The hash the token decrypts from a request that carries one. */
  function SentHash(c: Crypto, s: PinState, req: PinRequest): Option<seq<byte>>
    requires req.keyAgreement.Some? && req.pinHashEnc.Some?
  {
    var a := s.Register(req.protocol);
    match Decapsulate(c, a, req.keyAgreement.value)
    case Err(_) => None
    case Ok(z) =>
      match Decrypt(c, Derive(c, z, a.protocol.GetOr(req.protocol)), req.pinHashEnc.value)
      case Ok(hash) => Some(hash)
      case Err(_) => None
  }

  /** A request that gets as far as the comparison pays even when there is nothing to compare. */
  lemma {:induction false} NothingToCompareCosts(c: Crypto, s: PinState, req: PinRequest, pool: seq<byte>)
    requires s.pinHash.Some? && s.retries > 0 && !s.locked && req.keyAgreement.Some?
    requires Decapsulate(c, s.Register(req.protocol), req.keyAgreement.value).Ok? && ParamAccepted(c, s, false, req)
    ensures var a := s.Register(req.protocol);
            var z := Decapsulate(c, a, req.keyAgreement.value).value;
            var shared := Derive(c, z, DerivedUnder(a, false, req.protocol));
            (req.pinHashEnc.None? || Decrypt(c, shared, req.pinHashEnc.value).Err?) ==>
              AttemptOn(c, s, false, req, pool).state == s.(retries := s.retries - 1)
  {
  }

  lemma {:induction false} EventCounts(c: Crypto, t: Token, e: Event)
    requires Safe(t) && !Refills(c, t, e)
    ensures var n := After(c, t, e);
            && Retries(n) + (if WrongGuess(c, t, e) then 1 else 0) <= Retries(t)
            && (!e.PowerCycle? ==> Mismatches(n) == Mismatches(t) + if WrongGuess(c, t, e) then 1 else 0)
  {
    if e.Ask? && t.pin.Some? && PinBearing(e.req) {
      AttemptCounts(c, t.pin.value, t.pinEchoDecrypt, e.req, e.pool);
    }
  }

  // ---- whole runs

  lemma {:induction false} RunSafe(c: Crypto, t: Token, run: seq<Event>)
    requires Safe(t)
    ensures Safe(AfterAll(c, t, run))
    decreases |run|
  {
    if run != [] {
      EventSafe(c, t, run[0]);
      RunSafe(c, After(c, t, run[0]), run[1..]);
    }
  }

  /** However often power is cycled: between refills there are at most eight wrong guesses, one retry each. */
  lemma {:induction false} GuessesBounded(c: Crypto, t: Token, run: seq<Event>)
    requires Safe(t) && NoRefill(c, t, run)
    ensures WrongGuesses(c, t, run) + Retries(AfterAll(c, t, run)) <= Retries(t) <= MAX_PIN_RETRIES
    decreases |run|
  {
    if run != [] {
      EventSafe(c, t, run[0]);
      EventCounts(c, t, run[0]);
      GuessesBounded(c, After(c, t, run[0]), run[1..]);
    }
  }

  function Refilled(c: Crypto, t: Token, run: seq<Event>): nat
    decreases |run|
  {
    if run == [] then 0 else (if Refills(c, t, run[0]) then 1 else 0) + Refilled(c, After(c, t, run[0]), run[1..])
  }

  /** Over any run at all: eight wrong guesses for what was there to begin with, and eight more for each refill. */
  lemma {:induction false} GuessesPaidFor(c: Crypto, t: Token, run: seq<Event>)
    requires Safe(t)
    ensures WrongGuesses(c, t, run) + Retries(AfterAll(c, t, run)) <= Retries(t) + MAX_PIN_RETRIES * Refilled(c, t, run)
    decreases |run|
  {
    if run != [] {
      var e := run[0];
      EventSafe(c, t, e);
      if Refills(c, t, e) {
        assert !WrongGuess(c, t, e);
        assert Retries(After(c, t, e)) <= MAX_PIN_RETRIES;
      } else {
        EventCounts(c, t, e);
      }
      GuessesPaidFor(c, After(c, t, e), run[1..]);
    }
  }

  /** The event is a request refused at the cost of a retry. */
  predicate Costly(c: Crypto, t: Token, e: Event) {
    && e.Ask? && t.pin.Some? && PinBearing(e.req)
    && Costs(c, t.pin.value, t.pinEchoDecrypt, e.req, ExchangeOn(c, t, e.req, e.pool).answer)
  }

  function CostlyRefusals(c: Crypto, t: Token, run: seq<Event>): nat
    decreases |run|
  {
    if run == [] then 0
    else (if Costly(c, t, run[0]) then 1 else 0) + CostlyRefusals(c, After(c, t, run[0]), run[1..])
  }

  lemma {:induction false} EventCosts(c: Crypto, t: Token, e: Event)
    requires Safe(t) && !Refills(c, t, e)
    ensures Retries(After(c, t, e)) + (if Costly(c, t, e) then 1 else 0) == Retries(t)
  {
    if e.Ask? && t.pin.Some? && PinBearing(e.req) {
      RefusalCosts(c, t.pin.value, t.pinEchoDecrypt, e.req, e.pool);
    }
  }

  /** Between refills every retry is accounted for: exactly the costly refusals spend them. */
  lemma {:induction false} RetriesAccounted(c: Crypto, t: Token, run: seq<Event>)
    requires Safe(t) && NoRefill(c, t, run)
    ensures Retries(AfterAll(c, t, run)) + CostlyRefusals(c, t, run) == Retries(t)
    decreases |run|
  {
    if run != [] {
      EventSafe(c, t, run[0]);
      EventCosts(c, t, run[0]);
      RetriesAccounted(c, After(c, t, run[0]), run[1..]);
    }
  }

  /**
   getPinRetries tells the count: after any run without a refill the answer to it, on a protocol the
   token lists, is what there was less the costly refusals, and asking changes nothing.
   */
  lemma {:induction false} RetriesTold(c: Crypto, t: Token, run: seq<Event>, req: PinRequest, pool: seq<byte>)
    requires Safe(t) && NoRefill(c, t, run) && req.subCommand == GetPinRetries
    ensures CostlyRefusals(c, t, run) <= Retries(t)
    ensures var now := AfterAll(c, t, run);
            var left: nat := Retries(t) - CostlyRefusals(c, t, run);
            ExchangeOn(c, now, req, pool) ==
            Asked(now,
                  if now.pin.None? then Err(0x01)
                  else if (req.protocol != One && req.protocol != Two) || req.protocol !in now.Advertised()
                  then Err(0x02)
                  else Ok(PinResponse(None, None, Some(left), None)),
                  pool)
  {
    RetriesAccounted(c, t, run);
  }

  /** Within one power cycle there are at most three, and the third engages the latch. */
  lemma {:induction false} GuessesPerCycle(c: Crypto, t: Token, run: seq<Event>)
    requires Safe(t) && NoRefill(c, t, run) && forall i :: 0 <= i < |run| ==> !run[i].PowerCycle?
    ensures Mismatches(t) + WrongGuesses(c, t, run) == Mismatches(AfterAll(c, t, run)) <= 3
    decreases |run|
  {
    if run != [] {
      EventSafe(c, t, run[0]);
      EventCounts(c, t, run[0]);
      GuessesPerCycle(c, After(c, t, run[0]), run[1..]);
    }
  }

  /** A request handed out a token. */
  predicate Granted(c: Crypto, t: Token, e: Event) {
    e.Ask? && PinBearing(e.req) && ExchangeOn(c, t, e.req, e.pool).answer.Ok?
  }

  predicate SetsPin(e: Event) {
    e.SetPin? || e.ClearPin?
  }

  ghost predicate NothingGranted(c: Crypto, t: Token, run: seq<Event>)
    decreases |run|
  {
    run == [] || (!Granted(c, t, run[0]) && NothingGranted(c, After(c, t, run[0]), run[1..]))
  }

  /** Every token a register holds after is one it held before. */
  predicate NoNewTokens(t: Token, n: Token) {
    t.pin.Some? && n.pin.Some?
    && (n.pin.value.one.pinToken.Some? ==> n.pin.value.one.pinToken == t.pin.value.one.pinToken)
    && (n.pin.value.two.pinToken.Some? ==> n.pin.value.two.pinToken == t.pin.value.two.pinToken)
  }

  lemma {:induction false} BlockedEvent(c: Crypto, t: Token, e: Event)
    requires t.pin.Some? && Retries(t) == 0 && !SetsPin(e)
    ensures var n := After(c, t, e);
            n.pin.Some? && Retries(n) == 0 && !Granted(c, t, e) && NoNewTokens(t, n)
  {
  }

  /** With no retries left, no token is minted or handed out until the PIN is set or cleared. */
  lemma {:induction false} BlockedForGood(c: Crypto, t: Token, run: seq<Event>)
    requires t.pin.Some? && Retries(t) == 0 && forall i :: 0 <= i < |run| ==> !SetsPin(run[i])
    ensures Retries(AfterAll(c, t, run)) == 0 && NothingGranted(c, t, run) && NoNewTokens(t, AfterAll(c, t, run))
    decreases |run|
  {
    if run != [] {
      BlockedEvent(c, t, run[0]);
      BlockedForGood(c, After(c, t, run[0]), run[1..]);
    }
  }

  /** While the latch is engaged and retries are left, every PIN-bearing request is refused, even a right one. */
  lemma {:induction false} LatchHolds(c: Crypto, t: Token, req: PinRequest, pool: seq<byte>)
    requires t.pin.Some? && t.pin.value.locked && PinBearing(req) && Retries(t) > 0 && t.pin.value.pinHash.Some?
    requires !req.protocol.Other? && req.protocol in t.Advertised()
    ensures ExchangeOn(c, t, req, pool) == Asked(t, Err(PIN_AUTH_BLOCKED), pool)
  {
    assert t.(pin := Some(t.pin.value)) == t;
  }

  predicate Latched(t: Token) {
    t.pin.Some? && t.pin.value.locked
  }

  lemma {:induction false} LatchedEvent(c: Crypto, t: Token, e: Event)
    requires Latched(t) && !e.PowerCycle?
    ensures var n := After(c, t, e);
            Latched(n) && !Granted(c, t, e) && !WrongGuess(c, t, e) && NoNewTokens(t, n)
  {
  }

  /**
   Until the power is cycled a latched token stays latched, whatever is set, cleared or asked: no
   token is minted or handed out, and no guess is told to be wrong.
   */
  lemma {:induction false} LatchedUntilCycled(c: Crypto, t: Token, run: seq<Event>)
    requires Latched(t) && forall i :: 0 <= i < |run| ==> !run[i].PowerCycle?
    ensures var n := AfterAll(c, t, run);
            Latched(n) && NothingGranted(c, t, run) && WrongGuesses(c, t, run) == 0 && NoNewTokens(t, n)
    decreases |run|
  {
    if run != [] {
      LatchedEvent(c, t, run[0]);
      LatchedUntilCycled(c, After(c, t, run[0]), run[1..]);
    }
  }

  /** Setting or clearing the PIN does not release the latch; cycling the power does. */
  lemma {:induction false} LatchOutlivesSetPin(c: Crypto, t: Token, pin: seq<byte>)
    requires t.pin.Some?
    ensures Latched(SetPinOn(c, t, pin)) == Latched(t) == Latched(ClearPinOn(t))
    ensures !Latched(PowerCycleOn(t))
  {
  }
}
