/** How a run ends by what it is answered: it goes on after good answers only, and a bad one is the error it names. */
module CeremonyStatus {
  import opened Wrappers
  import opened ByteOrder
  import opened Budget
  import opened Cbor
  import opened Credentials
  import opened GetAssertion
  import opened GetInfo
  import opened ClientPin
  import opened PinCrypto
  import opened Ceremony
  import opened CeremonyPosture

  /** An answer the ceremony goes on from; the prompt is not answered by the device. */
  predicate Good(call: Call, a: Answer) {
    || call.AskPin?
    || (a.Responds? && a.status == 0x00)
    || (a.KeepsAlive? && call.SendAssertion?)
  }

  /** The error that a status names, and no other. */
  predicate Named(status: byte, e: CeremonyError) {
    match e
    case NoCredentials => status == 0x2E || status == 0x22
    case UserActionTimeout => status == 0x2F
    case UserCancelled => status == 0x2D
    case IncorrectPin(_) => status == 0x31
    case PinBlocked => status == 0x32
    case PinAuthBlocked => status == 0x34
    case PinNotSet => status == 0x35
    case UpRejected => status in {0x27, 0x33, 0x36, 0x37, 0x3B, 0x3C}
    case Ctap(b) => b == status && status !in {0x00, 0x22, 0x27, 0x2D, 0x2E, 0x2F, 0x31, 0x32, 0x33, 0x34, 0x35, 0x36,
                                               0x37, 0x3B, 0x3C}
    case _ => false
  }

  /** Whether the last call is a request sent again after a keepalive. */
  predicate SentAgain(t: Trace) {
    |t| > 1 && t[|t| - 1].SendAssertion? && t[|t| - 2].SendAssertion?
  }

  /** The phase a timeout of the last call names. */
  function PhaseOfLast(t: Trace): Phase
    requires |t| > 0
  {
    match t[|t| - 1]
    case ProbeInfo => GetInfoPhase
    case SendPin(_) => ClientPinPhase
    case AskPin => ClientPinPhase
    case SendAssertion(_) => if SentAgain(t) then UserPresence else GetAssertionPhase
    case DrainNext => GetNextAssertionPhase
  }

  /** What the answer to the last call makes of the run; the retries are read off a refused clientPIN request alone. */
  ghost predicate EndsIn(env: Env, t: Trace, e: CeremonyError)
    requires |t| > 0
  {
    match env.device.behaviour(t)
    case Responds(status, body) =>
      && status != 0x00 && Named(status, e)
      && (e.IncorrectPin? ==> e.remaining == if t[|t| - 1].SendPin? then RetriesIn(env, body) else None)
    case KeepsAlive(_) => e == Transport(UnexpectedKeepalive)
    case Expires => e == TimedOut(PhaseOfLast(t))
    case Faults(CoreTimeout(phase)) => e == TimedOut(if SentAgain(t) then UserPresence else phase)
    case Faults(AmbiguousDevice) => e == Ambiguous
    case Faults(error) => e == Transport(FromDevice(error))
  }

  ghost predicate AllGood(env: Env, t: Trace) {
    forall k :: 0 <= k < |t| ==> Good(t[k], env.device.behaviour(t[..k + 1]))
  }

  /** Every answer was good; or all but the last, and the run ends in the error that one stands for. */
  ghost predicate Told<T>(env: Env, t: Trace, r: Result<T, CeremonyError>) {
    || AllGood(env, t)
    || (&& |t| > 0 && AllGood(env, t[..|t| - 1]) && !Good(t[|t| - 1], env.device.behaviour(t))
        && r.Err? && EndsIn(env, t, r.error))
  }

  ghost predicate ToldBy<T>(env: Env, t: Trace, r: Result<T, CeremonyError>) {
    Told(env, t, r) && (r.Ok? ==> AllGood(env, t))
  }

  lemma {:induction false} GoodMore(env: Env, t: Trace, call: Call)
    requires AllGood(env, t) && Good(call, env.device.behaviour(t + [call]))
    ensures AllGood(env, t + [call])
  {
    var u := t + [call];
    forall k | 0 <= k < |u| ensures Good(u[k], env.device.behaviour(u[..k + 1])) {
      if k < |t| { assert u[..k + 1] == t[..k + 1]; } else { assert u[..k + 1] == u; }
    }
  }

  lemma {:induction false} BadEnds<T>(env: Env, t: Trace, call: Call, r: Result<T, CeremonyError>)
    requires AllGood(env, t) && !Good(call, env.device.behaviour(t + [call]))
    requires r.Err? && EndsIn(env, t + [call], r.error)
    ensures ToldBy(env, t + [call], r)
  {
    assert (t + [call])[..|t|] == t;
  }

  /** An exchange that ends here: on, if the answer is good, and else in its error. */
  ghost predicate HopEnds<T>(env: Env, t: Trace, u: Trace, call: Call, r: Result<T, CeremonyError>) {
    || (u == t && r.Err?)
    || (u == t + [call]
        && (Good(call, env.device.behaviour(u))
            || (r.Err? && EndsIn(env, u, r.error))))
  }

  lemma {:induction false} HopTold<T>(env: Env, t: Trace, u: Trace, call: Call, r: Result<T, CeremonyError>)
    requires AllGood(env, t) && HopEnds(env, t, u, call, r)
    ensures ToldBy(env, u, r)
  {
    if u == t + [call] {
      if Good(call, env.device.behaviour(u)) { GoodMore(env, t, call); } else { BadEnds(env, t, call, r); }
    }
  }

  lemma {:induction false} StatusNamed(status: byte)
    ensures FromStatus(status).None? <==> status == 0x00
    ensures FromStatus(status).Some? ==>
              Named(status, FromStatus(status).value) && FromStatus(status).value != Transport(BadBody)
              && (FromStatus(status).value.IncorrectPin? ==> FromStatus(status).value.remaining.None?)
  {
  }

  lemma {:induction false} ProbeEnds(env: Env, t: Trace)
    ensures HopEnds(env, t, Probe(env, t).0, ProbeInfo, Probe(env, t).1)
  {
    forall status: byte { StatusNamed(status); }
  }

  lemma {:induction false} PinHopEnds(env: Env, t: Trace, req: PinRequest)
    ensures HopEnds(env, t, PinHop(env, t, req).0, SendPin(req), PinHop(env, t, req).1)
  {
    forall status: byte { StatusNamed(status); }
  }

  lemma {:induction false} DrainHopEnds(env: Env, t: Trace)
    ensures HopEnds(env, t, DrainHop(env, t).0, DrainNext, DrainHop(env, t).1)
  {
    forall status: byte { StatusNamed(status); }
  }

  // ---- the loops

  /** The last call, if there is one, is another. */
  predicate NotAsserting(t: Trace) {
    |t| > 0 ==> !t[|t| - 1].SendAssertion?
  }

  /** The keepalive loop leaves a response unread: it is the last answer, and all before it were good. */
  ghost predicate LoopEnds(env: Env, t: Trace, call: Call, u: Trace, event: Result<Answer, CeremonyError>) {
    if event.Err? then ToldBy(env, u, event) && (u == t || !env.device.behaviour(u).Responds?)
    else |u| > 0 && u[|u| - 1] == call && AllGood(env, u[..|u| - 1]) && event.value == env.device.behaviour(u)
         && event.value.Responds?
  }

  lemma {:induction false} LoopTold(env: Env, t: Trace, r: Request, seen: bool)
    requires AllGood(env, t) && (if seen then |t| > 0 && t[|t| - 1].SendAssertion? else NotAsserting(t))
    ensures var (u, event) := KeepaliveLoop(env, t, SendAssertion(r), seen);
            LoopEnds(env, t, SendAssertion(r), u, event)
    decreases env.device.patience - |t|
  {
    var call, phase := SendAssertion(r), if seen then UserPresence else GetAssertionPhase;
    var (u, event) := Hop(env, t, call, phase);
    if event.Ok? && event.value.KeepsAlive? {
      GoodMore(env, t, call);
      LoopTold(env, u, r, true);
    } else if event.Err? {
      var (v, end) := KeepaliveLoop(env, t, call, seen);
      assert u == t + [call] ==> SentAgain(u) == seen;
      HopTold(env, t, v, call, end);
    } else {
      assert u[..|u| - 1] == t;
    }
  }

  lemma {:induction false} FirstTold(env: Env, t: Trace, r: Request)
    requires AllGood(env, t) && NotAsserting(t)
    ensures ToldBy(env, FirstAssertion(env, t, r).0, FirstAssertion(env, t, r).1)
  {
    LoopTold(env, t, r, false);
    var (u, event) := KeepaliveLoop(env, t, SendAssertion(r), false);
    var (v, first) := FirstAssertion(env, t, r);
    if event.Ok? {
      var before := u[..|u| - 1];
      assert u == before + [SendAssertion(r)];
      StatusNamed(event.value.status);
      HopTold(env, before, v, SendAssertion(r), first);
    }
  }

  lemma {:induction false} DrainTold(env: Env, t: Trace, n: nat)
    requires AllGood(env, t)
    ensures ToldBy(env, DrainAll(env, t, n).0, DrainAll(env, t, n).1)
    decreases n
  {
    if n > 0 {
      DrainHopEnds(env, t);
      var (u, first) := DrainHop(env, t);
      HopTold(env, t, u, DrainNext, first);
      if first.Ok? { DrainTold(env, u, n - 1); }
    }
  }

  lemma {:induction false} ExchangeTold(env: Env, input: Input, t: Trace, info: Info, r: Request, acquired: bool)
    requires AllGood(env, t) && NotAsserting(t)
    ensures var (u, o) := Exchange(env, input, t, info, r, acquired); ToldBy(env, u, o)
  {
    FirstTold(env, t, r);
    var (u, first) := FirstAssertion(env, t, r);
    if first.Ok? { DrainTold(env, u, if first.value.Number() > 1 then first.value.Number() - 1 else 0); }
  }

  // ---- the acquisition

  lemma {:induction false} WithPinTold(env: Env, input: Input, provider: Option<seq<byte>>, info: Info,
                                       secret: seq<byte>, shared: Shared, pool: seq<byte>, t: Trace)
    requires AllGood(env, t)
    ensures var (u, m) := WithPin(env, input, provider, info, secret, shared, pool, t); ToldBy(env, u, m)
  {
    if provider.Some? && |provider.value| <= MAX_PIN_BYTES {
      var sealed := Encrypt(env.crypto, shared, pool, PinHash(env.crypto, provider.value)).0;
      if sealed.Ok? {
        var puat := OptionValue(info, OPTION_PIN_UV_AUTH_TOKEN);
        TokenTold(env, input, shared, t,
                  TokenRequest(env.crypto, secret, shared.protocol, sealed.value, puat, input.rpId));
      }
    }
  }

  lemma {:induction false} TokenTold(env: Env, input: Input, shared: Shared, t: Trace, req: PinRequest)
    requires AllGood(env, t)
    ensures var (u, m) := WithToken(env, input, shared, PinHop(env, t, req)); ToldBy(env, u, m)
  {
    PinHopEnds(env, t, req);
    HopTold(env, t, PinHop(env, t, req).0, SendPin(req), PinHop(env, t, req).1);
  }

  lemma {:induction false} SharedTold(env: Env, input: Input, provider: Option<seq<byte>>, info: Info,
                                      secret: seq<byte>, shared: Shared, pool: seq<byte>, t: Trace)
    requires AllGood(env, t)
    ensures var (u, m) := WithPin(env, input, provider, info, secret, shared, pool, t + [AskPin]); ToldBy(env, u, m)
  {
    GoodMore(env, t, AskPin);
    WithPinTold(env, input, provider, info, secret, shared, pool, t + [AskPin]);
  }

  lemma {:induction false} AcquireTold(env: Env, input: Input, provider: Option<seq<byte>>, info: Info, t: Trace)
    requires AllGood(env, t)
    ensures var (u, m) := Acquire(env, input, provider, info, t); ToldBy(env, u, m)
  {
    var p := Select(input.pinProtocol, info.protocols.GetOr([]));
    var (secret, pool) := DrawScalar(env.crypto, input.entropy, 8);
    if p.Ok? && secret.Ok? {
      var req := KeyRequest(env.crypto, secret.value, p.value);
      PinHopEnds(env, t, req);
      var (u, answer) := PinHop(env, t, req);
      HopTold(env, t, u, SendPin(req), answer);
      if answer.Ok? && answer.value.keyAgreement.Some? {
        var shared := Encapsulate(env.crypto, secret.value, answer.value.keyAgreement.value, p.value);
        if shared.Ok? {
          SharedTold(env, input, provider, info, secret.value, shared.value, pool, u);
        }
      }
    }
  }

  // ---- the whole run

  /**
   Against any device: the run goes on only from good answers, so every call but the last was answered
   well; if the last was not, the run ends in exactly the error that its answer stands for, and no run
   with a bad answer in it succeeds.
   */
  lemma {:induction false} PipelineTold(env: Env, input: Input)
    ensures var (t, r) := Pipeline(env, input);
            && (r.Ok? ==> AllGood(env, t))
            && (AllGood(env, t)
                || (&& |t| > 0 && AllGood(env, t[..|t| - 1]) && !Good(t[|t| - 1], env.device.behaviour(t))
                    && r.Err? && EndsIn(env, t, r.error)))
  {
    ProbeEnds(env, []);
    var (t, info) := Probe(env, []);
    HopTold(env, [], t, ProbeInfo, info);
    if info.Ok? {
      MaterialTold(env, input, info.value, t);
      var (u, material) := MaterialFor(env, input, info.value, t);
      if material.Ok? {
        var request := WireRequest(input, material.value, info.value);
        if request.Ok? {
          assert NotAsserting(t) && AskPin !in t;
          MaterialQuiet(env, input, info.value, t);
          ExchangeTold(env, input, u, info.value, request.value, MustAcquire(input, info.value));
        }
      }
    }
  }

  /** Getting the material sends no request. */
  lemma {:induction false} MaterialQuiet(env: Env, input: Input, info: Info, t: Trace)
    requires NotAsserting(t) && AskPin !in t
    ensures NotAsserting(MaterialFor(env, input, info, t).0)
  {
    if MustAcquire(input, info) && input.pinProvider.Some? {
      AcquireAsks(env, input, input.pinProvider.value, info, t);
      var u := Acquire(env, input, input.pinProvider.value, info, t).0;
      if |u| > |t| { assert AskedAs(input, info, u[|u| - 1]); } else { assert u == u[..|t|]; }
    }
  }

  lemma {:induction false} MaterialTold(env: Env, input: Input, info: Info, t: Trace)
    requires AllGood(env, t)
    ensures var (u, m) := MaterialFor(env, input, info, t); ToldBy(env, u, m)
  {
    if MustAcquire(input, info) && input.pinProvider.Some? {
      AcquireTold(env, input, input.pinProvider.value, info, t);
    }
  }

  // ---- what a good answer to the request makes of the run

  /** Descriptor by descriptor. */
  ghost predicate IdsOf(ids: seq<seq<byte>>, list: seq<Descriptor>) {
    |ids| == |list| && forall i :: 0 <= i < |ids| ==> ids[i] == list[i].id
  }

  /** The answer that ends the trace, read: a body that says nothing, a credential not asked for, or an assertion. */
  ghost predicate AnswerMeans(env: Env, input: Input, q: Request, body: seq<byte>, r: Result<Outcome, CeremonyError>) {
    match env.decoders.assertion(body)
    case None => r == Err(Transport(BadBody))
    case Some(x) =>
      if q.allowList.Some? && forall i :: 0 <= i < |q.allowList.value| ==> q.allowList.value[i].id != x.credential.id
      then
        && r.Err? && r.error.CredentialMismatch? && r.error.returned == x.credential.id
        && IdsOf(r.error.allowed, q.allowList.value)
      else if x.Number() <= 1 then r.Ok? && r.value.assertions == [x]
      else if !input.drain then r == Err(Transport(DrainMissing))
      else r == Err(TimedOut(GetNextAssertionPhase))
  }

  lemma {:induction false} IdsExact(list: seq<Descriptor>)
    ensures IdsOf(Ids(list), list)
  {
    if list != [] { IdsExact(list[1..]); }
  }

  /** The drain ends in its own call, unless there is no budget for one. */
  lemma {:induction false} DrainLast(env: Env, t: Trace, n: nat)
    ensures var (u, r) := DrainAll(env, t, n);
            (u == t && (n > 0 ==> r == Err(TimedOut(GetNextAssertionPhase)))) || (|u| > 0 && u[|u| - 1] == DrainNext)
    decreases n
  {
    if n > 0 {
      var (u, first) := DrainHop(env, t);
      if first.Ok? { DrainLast(env, u, n - 1); }
    }
  }

  lemma {:induction false} FirstMeans(env: Env, t: Trace, q: Request)
    requires AllGood(env, t) && NotAsserting(t)
    ensures var (u, first) := FirstAssertion(env, t, q);
            |u| > 0 && u[|u| - 1] == SendAssertion(q) && env.device.behaviour(u).Responds?
            && env.device.behaviour(u).status == 0x00 ==>
              FirstRead(env, q, env.device.behaviour(u).body, first)
  {
    LoopTold(env, t, q, false);
  }

  /** If the trace ends in a request that was answered well, the outcome is what that answer means. */
  ghost predicate Answered(env: Env, input: Input, t: Trace, r: Result<Outcome, CeremonyError>) {
    |t| > 0 && t[|t| - 1].SendAssertion? && env.device.behaviour(t).Responds? && env.device.behaviour(t).status == 0x00
    ==> AnswerMeans(env, input, t[|t| - 1].assertion, env.device.behaviour(t).body, r)
  }

  /** The first assertion, from the answer the trace ends in. */
  ghost predicate FirstRead(env: Env, q: Request, body: seq<byte>, first: Result<Response, CeremonyError>) {
    match env.decoders.assertion(body)
    case None => first == Err(Transport(BadBody))
    case Some(x) =>
      if Allowed(q.allowList, x.credential.id) then first == Ok(x)
      else first == Err(CredentialMismatch(x.credential.id, Ids(q.allowList.value)))
  }

  lemma {:induction false} ReadMeans(env: Env, input: Input, q: Request, body: seq<byte>,
                                     first: Result<Response, CeremonyError>, r: Result<Outcome, CeremonyError>)
    requires FirstRead(env, q, body, first) && (first.Err? ==> r == Err(first.error))
    requires first.Ok? ==>
               if first.value.Number() <= 1 then r.Ok? && r.value.assertions == [first.value]
               else if !input.drain then r == Err(Transport(DrainMissing))
               else r == Err(TimedOut(GetNextAssertionPhase))
    ensures AnswerMeans(env, input, q, body, r)
  {
    if q.allowList.Some? { IdsExact(q.allowList.value); }
  }

  lemma {:induction false} ExchangeAnswered(env: Env, input: Input, t: Trace, info: Info, q: Request, acquired: bool)
    requires AllGood(env, t) && NotAsserting(t)
    ensures var (u, r) := Exchange(env, input, t, info, q, acquired); Answered(env, input, u, r)
  {
    var (u, first) := FirstAssertion(env, t, q);
    var (v, r) := Exchange(env, input, t, info, q, acquired);
    ExchangeSends(env, input, t, info, q, acquired);
    OwnRequest(t, v, q);
    FirstMeans(env, t, q);
    if first.Ok? { DrainLast(env, u, if first.value.Number() > 1 then first.value.Number() - 1 else 0); }
    if !NotAsserting(v) && Good(SendAssertion(q), env.device.behaviour(v)) && env.device.behaviour(v).Responds? {
      assert v == u;
      ReadMeans(env, input, q, env.device.behaviour(v).body, first, r);
    }
  }

  /** Before the request there is no answer to it. */
  lemma {:induction false} NothingAnswered(env: Env, input: Input, t: Trace, r: Result<Outcome, CeremonyError>)
    requires NotAsserting(t)
    ensures Answered(env, input, t, r)
  {
  }

  /** Against any device: a run that ends in a good answer to its request ends in just what that answer says. */
  lemma {:induction false} PipelineAnswered(env: Env, input: Input)
    ensures Answered(env, input, Pipeline(env, input).0, Pipeline(env, input).1)
  {
    ProbeEnds(env, []);
    var (t, info) := Probe(env, []);
    HopTold(env, [], t, ProbeInfo, info);
    assert NotAsserting(t) && AskPin !in t;
    if info.Err? {
      NothingAnswered(env, input, t, Err(info.error));
    } else {
      MaterialAnswered(env, input, info.value, t);
    }
  }

  lemma {:induction false} MaterialAnswered(env: Env, input: Input, info: Info, t: Trace)
    requires AllGood(env, t) && NotAsserting(t) && AskPin !in t
    ensures var (u, material) := MaterialFor(env, input, info, t);
            match material
            case Err(e) => Answered(env, input, u, Err(e))
            case Ok(m) =>
              match WireRequest(input, m, info)
              case Err(e) => Answered(env, input, u, Err(e))
              case Ok(q) =>
                var (v, r) := Exchange(env, input, u, info, q, MustAcquire(input, info));
                Answered(env, input, v, r)
  {
    MaterialTold(env, input, info, t);
    MaterialQuiet(env, input, info, t);
    var (u, material) := MaterialFor(env, input, info, t);
    if material.Ok? {
      var request := WireRequest(input, material.value, info);
      if request.Ok? {
        ExchangeAnswered(env, input, u, info, request.value, MustAcquire(input, info));
      }
    }
  }

  lemma {:induction false} OwnRequest(t: Trace, u: Trace, q: Request)
    requires Sends(t, u, q) && NotAsserting(t)
    ensures !NotAsserting(u) ==> u[|u| - 1] == SendAssertion(q)
  {
    assert |u| == |t| ==> u == u[..|t|];
  }

  // ---- the acquisition before the prompt

  /** A key-agreement key that is a point of the curve. */
  predicate OnCurve(c: Crypto, key: Value) {
    match PeerPoint(key)
    case Some((x, y)) => c.onCurve(x, y)
    case None => false
  }

  /** A good answer to getKeyAgreement that the run ends on: unreadable, without a key, or with one off the curve. */
  ghost predicate KeyRefused(env: Env, body: seq<byte>, e: CeremonyError) {
    match env.decoders.pin(body)
    case None => e == Transport(BadBody)
    case Some(x) =>
      if x.keyAgreement.None? then e == Transport(NoKeyAgreement)
      else e == Transport(CryptoFailed(BadPeerKey)) && !OnCurve(env.crypto, x.keyAgreement.value)
  }

  /** And one to the token request: unreadable, or without a token. */
  ghost predicate TokenRefused(env: Env, body: seq<byte>, e: CeremonyError) {
    match env.decoders.pin(body)
    case None => e == Transport(BadBody)
    case Some(x) => x.pinUvAuthToken.None? ==> e == Transport(NoTokenMember)
  }

  predicate EndsOnPin(env: Env, t: Trace) {
    && |t| > 0 && t[|t| - 1].SendPin?
    && env.device.behaviour(t).Responds? && env.device.behaviour(t).status == 0x00
  }

  ghost predicate PinRefused(env: Env, t: Trace, e: CeremonyError)
    requires EndsOnPin(env, t)
  {
    if t[|t| - 1].request.subCommand == GetKeyAgreement then KeyRefused(env, env.device.behaviour(t).body, e)
    else TokenRefused(env, env.device.behaviour(t).body, e)
  }

  /** The token was read in the last answer. */
  predicate TokenRead(env: Env, t: Trace) {
    && EndsOnPin(env, t) && t[|t| - 1].request.subCommand != GetKeyAgreement
    && env.decoders.pin(env.device.behaviour(t).body).Some?
    && env.decoders.pin(env.device.behaviour(t).body).value.pinUvAuthToken.Some?
  }

  ghost predicate PinJudged<T>(env: Env, t: Trace, r: Result<T, CeremonyError>) {
    EndsOnPin(env, t) ==> r.Err? && PinRefused(env, t, r.error)
  }

  lemma {:induction false} WithPinJudges(env: Env, input: Input, provider: Option<seq<byte>>, info: Info,
                                         secret: seq<byte>, shared: Shared, pool: seq<byte>, t: Trace)
    requires |t| > 0 && t[|t| - 1] == AskPin
    ensures var (u, m) := WithPin(env, input, provider, info, secret, shared, pool, t);
            if m.Ok? then TokenRead(env, u) else PinJudged(env, u, m)
  {
    if provider.Some? && |provider.value| <= MAX_PIN_BYTES {
      var sealed := Encrypt(env.crypto, shared, pool, PinHash(env.crypto, provider.value)).0;
      if sealed.Ok? {
        var puat := OptionValue(info, OPTION_PIN_UV_AUTH_TOKEN);
        TokenJudges(env, input, shared, t,
                    TokenRequest(env.crypto, secret, shared.protocol, sealed.value, puat, input.rpId));
      }
    }
  }

  lemma {:induction false} TokenJudges(env: Env, input: Input, shared: Shared, t: Trace, req: PinRequest)
    requires |t| > 0 && t[|t| - 1] == AskPin && req.subCommand != GetKeyAgreement
    ensures var (u, m) := WithToken(env, input, shared, PinHop(env, t, req));
            if m.Ok? then TokenRead(env, u) else PinJudged(env, u, m)
  {
    if env.device.behaviour(t + [SendPin(req)]).Responds? {
      StatusNamed(env.device.behaviour(t + [SendPin(req)]).status);
    }
  }

  /** The hop for the token's key, and what becomes of its answer. */
  lemma {:induction false} KeyHopJudges(env: Env, t: Trace, secret: seq<byte>, p: Protocol)
    requires !EndsOnPin(env, t)
    ensures var (u, answer) := PinHop(env, t, KeyRequest(env.crypto, secret, p));
            match answer
            case Err(e) => PinJudged(env, u, answer)
            case Ok(x) =>
              && EndsOnPin(env, u) && u[|u| - 1].request.subCommand == GetKeyAgreement
              && env.decoders.pin(env.device.behaviour(u).body) == Some(x)
              && u == t + [SendPin(KeyRequest(env.crypto, secret, p))]
  {
    var call := SendPin(KeyRequest(env.crypto, secret, p));
    if env.device.behaviour(t + [call]).Responds? { StatusNamed(env.device.behaviour(t + [call]).status); }
  }

  lemma {:induction false} AcquireJudges(env: Env, input: Input, provider: Option<seq<byte>>, info: Info, t: Trace)
    requires !EndsOnPin(env, t)
    ensures var (u, m) := Acquire(env, input, provider, info, t);
            if m.Ok? then TokenRead(env, u) else PinJudged(env, u, m)
  {
    var p := Select(input.pinProtocol, info.protocols.GetOr([]));
    var (secret, pool) := DrawScalar(env.crypto, input.entropy, 8);
    if p.Ok? && secret.Ok? {
      KeyHopJudges(env, t, secret.value, p.value);
      var (u, answer) := PinHop(env, t, KeyRequest(env.crypto, secret.value, p.value));
      if answer.Ok? && answer.value.keyAgreement.Some? {
        var shared := Encapsulate(env.crypto, secret.value, answer.value.keyAgreement.value, p.value);
        if shared.Ok? { WithPinJudges(env, input, provider, info, secret.value, shared.value, pool, u + [AskPin]); }
      }
    }
  }

  /** The exchange leaves the trace as it is and fails, or ends in calls of its own. */
  lemma {:induction false} ExchangeLast(env: Env, input: Input, t: Trace, info: Info, q: Request, acquired: bool)
    requires !EndsOnPin(env, t) || TokenRead(env, t)
    ensures var (u, r) := Exchange(env, input, t, info, q, acquired); PinJudged(env, u, r)
  {
    ExchangeSends(env, input, t, info, q, acquired);
    var u := Exchange(env, input, t, info, q, acquired).0;
    assert |u| == |t| ==> u == u[..|t|];
    LoopGrows(env, t, SendAssertion(q), false);
    var (v, first) := FirstAssertion(env, t, q);
    if first.Ok? {
      var extra := if first.value.Number() > 1 then first.value.Number() - 1 else 0;
      DrainGrows(env, v, extra, q);
    }
  }

  lemma {:induction false} LoopGrows(env: Env, t: Trace, call: Call, seen: bool)
    ensures var (u, event) := KeepaliveLoop(env, t, call, seen); event.Ok? ==> |u| > |t|
    decreases env.device.patience - |t|
  {
    var phase := if seen then UserPresence else GetAssertionPhase;
    var (u, event) := Hop(env, t, call, phase);
    if event.Ok? && event.value.KeepsAlive? { LoopGrows(env, u, call, true); }
  }

  lemma {:induction false} DrainGrows(env: Env, t: Trace, n: nat, q: Request)
    ensures |DrainAll(env, t, n).0| >= |t|
  {
    DrainSends(env, t, n, q);
  }

  /** What must be said for a protocol to be chosen at all. */
  ghost predicate NoneChosen(input: Input, info: Info, e: CeremonyError) {
    && MustAsk(input, info) && input.pinProvider.Some?
    && match input.pinProtocol
       case Some(p) => p !in info.protocols.value && e == Transport(PinnedProtocolUnsupported)
       case None => (forall p :: p in info.protocols.value ==> p.Other?) && e == Transport(NoMutualProtocol)
  }

  lemma {:induction false} NoneImplemented(ps: seq<Protocol>)
    requires forall p :: p in ps ==> p.Other?
    ensures Implemented(ps).None?
  {
    if ps != [] {
      assert ps[0] in ps;
      forall p | p in ps[1..] ensures p.Other? { assert p in ps; }
      NoneImplemented(ps[1..]);
    }
  }

  /** Without a protocol in common the run ends right after the probe, and names the reason. */
  lemma {:induction false} NoneChosenEnds(env: Env, input: Input, e: CeremonyError)
    requires Probe(env, []).1.Ok? && NoneChosen(input, Probe(env, []).1.value, e)
    ensures Pipeline(env, input) == ([ProbeInfo], Err(e))
  {
    var info := Probe(env, []).1.value;
    CeremonyPosture.OptionsRead(info);
    assert [] + [ProbeInfo] == [ProbeInfo];
    if input.pinProtocol.None? { NoneImplemented(info.protocols.value); }
  }

  /** A run that ends on a good answer to a clientPIN request names what is wrong with that answer. */
  lemma {:induction false} PipelineJudgesPin(env: Env, input: Input)
    ensures PinJudged(env, Pipeline(env, input).0, Pipeline(env, input).1)
  {
    var (t, info) := Probe(env, []);
    assert !EndsOnPin(env, t);
    if info.Ok? { MaterialJudges(env, input, info.value, t); }
  }

  lemma {:induction false} MaterialJudges(env: Env, input: Input, info: Info, t: Trace)
    requires !EndsOnPin(env, t)
    ensures var (u, material) := MaterialFor(env, input, info, t);
            match material
            case Err(e) => PinJudged<Outcome>(env, u, Err(e))
            case Ok(m) =>
              match WireRequest(input, m, info)
              case Err(e) => PinJudged<Outcome>(env, u, Err(e))
              case Ok(q) =>
                var (v, r) := Exchange(env, input, u, info, q, MustAcquire(input, info));
                PinJudged(env, v, r)
  {
    if MustAcquire(input, info) && input.pinProvider.Some? {
      AcquireJudges(env, input, input.pinProvider.value, info, t);
    }
    var (u, material) := MaterialFor(env, input, info, t);
    if material.Ok? {
      var request := WireRequest(input, material.value, info);
      if request.Ok? { ExchangeLast(env, input, u, info, request.value, MustAcquire(input, info)); }
    }
  }

  /** The user is asked only after an answer with a key on the curve. */
  ghost predicate PromptsEarned(env: Env, t: Trace) {
    forall i :: 0 <= i < |t| && t[i].AskPin? ==> i > 0 && t[i - 1].SendPin? && KeyReceived(env, t[..i])
  }

  ghost predicate KeyReceived(env: Env, t: Trace) {
    var a := env.device.behaviour(t);
    && a.Responds? && a.status == 0x00 && env.decoders.pin(a.body).Some?
    && env.decoders.pin(a.body).value.keyAgreement.Some?
    && OnCurve(env.crypto, env.decoders.pin(a.body).value.keyAgreement.value)
  }

  lemma {:induction false} EarnedMore(env: Env, t: Trace, u: Trace)
    requires PromptsEarned(env, t) && t <= u && forall i :: |t| <= i < |u| ==> !u[i].AskPin?
    ensures PromptsEarned(env, u)
  {
    forall i | 0 <= i < |u| && u[i].AskPin? ensures i > 0 && u[i - 1].SendPin? && KeyReceived(env, u[..i]) {
      assert t[..i] == u[..i];
    }
  }

  lemma {:induction false} EarnedPrompt(env: Env, t: Trace)
    requires PromptsEarned(env, t) && |t| > 0 && t[|t| - 1].SendPin? && KeyReceived(env, t)
    ensures PromptsEarned(env, t + [AskPin])
  {
    var u := t + [AskPin];
    forall i | 0 <= i < |u| && u[i].AskPin? ensures i > 0 && u[i - 1].SendPin? && KeyReceived(env, u[..i]) {
      assert u[..i] == t[..i];
      if i == |t| { assert t[..i] == t; }
    }
  }

  lemma {:induction false} KeyEarned(env: Env, t: Trace, req: PinRequest, secret: seq<byte>, p: Protocol)
    requires PinHop(env, t, req).1.Ok? && PinHop(env, t, req).1.value.keyAgreement.Some?
    requires Encapsulate(env.crypto, secret, PinHop(env, t, req).1.value.keyAgreement.value, p).Ok?
    ensures PinHop(env, t, req).0 == t + [SendPin(req)] && KeyReceived(env, t + [SendPin(req)])
  {
    StatusNamed(env.device.behaviour(t + [SendPin(req)]).status);
  }

  lemma {:induction false} PromptEarned(env: Env, input: Input, provider: Option<seq<byte>>, info: Info,
                                        secret: seq<byte>, shared: Shared, pool: seq<byte>, u: Trace)
    requires PromptsEarned(env, u) && |u| > 0 && u[|u| - 1].SendPin? && KeyReceived(env, u)
    ensures PromptsEarned(env, WithPin(env, input, provider, info, secret, shared, pool, u + [AskPin]).0)
  {
    EarnedPrompt(env, u);
    EarnedMore(env, u + [AskPin], WithPin(env, input, provider, info, secret, shared, pool, u + [AskPin]).0);
  }

  lemma {:induction false} AcquireEarns(env: Env, input: Input, provider: Option<seq<byte>>, info: Info, t: Trace)
    requires PromptsEarned(env, t)
    ensures PromptsEarned(env, Acquire(env, input, provider, info, t).0)
  {
    var p := Select(input.pinProtocol, info.protocols.GetOr([]));
    var (secret, pool) := DrawScalar(env.crypto, input.entropy, 8);
    if p.Ok? && secret.Ok? {
      var req := KeyRequest(env.crypto, secret.value, p.value);
      var (u, answer) := PinHop(env, t, req);
      EarnedMore(env, t, u);
      if answer.Ok? && answer.value.keyAgreement.Some? {
        var shared := Encapsulate(env.crypto, secret.value, answer.value.keyAgreement.value, p.value);
        if shared.Ok? {
          KeyEarned(env, t, req, secret.value, p.value);
          PromptEarned(env, input, provider, info, secret.value, shared.value, pool, u);
        }
      }
    }
  }

  /** Against any device: no prompt without a key on the curve to protect the PIN with. */
  lemma {:induction false} PipelineEarnsPrompts(env: Env, input: Input)
    ensures PromptsEarned(env, Pipeline(env, input).0)
  {
    var (t, info) := Probe(env, []);
    if info.Ok? {
      var (u, material) := MaterialFor(env, input, info.value, t);
      if MustAcquire(input, info.value) && input.pinProvider.Some? {
        AcquireEarns(env, input, input.pinProvider.value, info.value, t);
      }
      if material.Ok? {
        var request := WireRequest(input, material.value, info.value);
        if request.Ok? {
          var acquired := MustAcquire(input, info.value);
          ExchangeSends(env, input, u, info.value, request.value, acquired);
          EarnedMore(env, u, Exchange(env, input, u, info.value, request.value, acquired).0);
        }
      }
    }
  }
}
