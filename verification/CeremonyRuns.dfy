/** What every run of the ceremony does, against any device, and what the request it sends looks like. */
module CeremonyRuns {
  import opened Wrappers
  import opened ByteOrder
  import opened Budget
  import opened GetAssertion
  import opened GetAssertionFacts
  import opened GetInfo
  import opened ClientPin
  import opened PinCrypto
  import opened Ceremony

  // ---- the shape of a trace

  /** How far a run has come; while asserting, with which request. */
  datatype Stage = Fresh | Probed | Agreed | PinAsked | TokenSent | Asserting(request: Request) | Draining

  /** The only steps there are. */
  function Next(input: Input, s: Stage, call: Call): Option<Stage> {
    match (s, call)
    case (Fresh, ProbeInfo) => Some(Probed)
    case (Probed, SendPin(r)) => if r.subCommand == GetKeyAgreement && MayAsk(input) then Some(Agreed) else None
    case (Agreed, AskPin) => Some(PinAsked)
    case (PinAsked, SendPin(r)) => if IsTokenRequest(r) && PinFits(input) then Some(TokenSent) else None
    case (Probed, SendAssertion(r)) => if WireOk(input, r) then Some(Asserting(r)) else None
    case (TokenSent, SendAssertion(r)) => if WireOk(input, r) && r.pinUvAuthParam.Some? then Some(Asserting(r))
                                          else None
    case (Asserting(q), SendAssertion(r)) => if r == q then Some(s) else None
    case (Asserting(_), DrainNext) => if input.drain then Some(Draining) else None
    case (Draining, DrainNext) => Some(Draining)
    case _ => None
  }

  /** Verification is preferred, no material is held, and there is a provider to ask. */
  predicate MayAsk(input: Input) {
    input.policy == Preferred && input.pinUvAuth.None? && input.pinProvider.Some?
  }

  predicate IsTokenRequest(r: PinRequest) {
    r.subCommand == GetPinToken || r.subCommand == GetPinUvAuthTokenUsingPinWithPermissions
  }

  predicate PinFits(input: Input) {
    input.pinProvider.Some? && input.pinProvider.value.Some? && |input.pinProvider.value.value| <= MAX_PIN_BYTES
  }

  /** The wire rules of section 6.2: uv and pinUvAuthParam exclude each other, no empty allow list, no extensions. */
  predicate WireOk(input: Input, r: Request) {
    && UvExclusive(r) && r.allowList != Some([]) && r.extensions.None?
    && (r.pinUvAuthParam.Some? <==> r.pinUvAuthProtocol.Some?)
    && r.rpId == input.rpId && r.clientDataHash == input.clientDataHash
    && (r.allowList.Some? ==> r.allowList == input.allowCredentials)
  }

  function StageAfter(input: Input, t: Trace): Option<Stage>
    decreases |t|
  {
    if t == [] then Some(Fresh) else
      match StageAfter(input, t[..|t| - 1])
      case None => None
      case Some(s) => Next(input, s, t[|t| - 1])
  }

  lemma {:induction false} OneMore(input: Input, t: Trace, call: Call)
    ensures StageAfter(input, t + [call]) == match StageAfter(input, t)
                                             case None => None
                                             case Some(s) => Next(input, s, call)
  {
    assert (t + [call])[..|t|] == t;
  }

  /** After a hop the run is at the next stage, or where it was if the hop never started. */
  ghost predicate Moved(input: Input, t: Trace, from: Stage, to: Stage) {
    StageAfter(input, t) == Some(from) || StageAfter(input, t) == Some(to)
  }

  lemma {:induction false} HopMoves(env: Env, input: Input, t: Trace, call: Call, phase: Phase, from: Stage, to: Stage)
    requires StageAfter(input, t) == Some(from) && Next(input, from, call) == Some(to)
    ensures var (u, r) := Hop(env, t, call, phase);
            Moved(input, u, from, to) && (r.Ok? ==> StageAfter(input, u) == Some(to))
  {
    OneMore(input, t, call);
  }

  lemma {:induction false} PinHopMoves(env: Env, input: Input, t: Trace, req: PinRequest, from: Stage, to: Stage)
    requires StageAfter(input, t) == Some(from) && Next(input, from, SendPin(req)) == Some(to)
    ensures var (u, r) := PinHop(env, t, req);
            Moved(input, u, from, to) && (r.Ok? ==> StageAfter(input, u) == Some(to))
  {
    HopMoves(env, input, t, SendPin(req), ClientPinPhase, from, to);
  }

  ghost predicate Lawful(input: Input, t: Trace) {
    StageAfter(input, t).Some?
  }

  /** Not yet at the request. */
  ghost predicate Early(input: Input, t: Trace) {
    Lawful(input, t) && !StageAfter(input, t).value.Asserting? && StageAfter(input, t).value != Draining
  }

  lemma {:induction false} AcquireMoves(env: Env, input: Input, info: Info, t: Trace)
    requires StageAfter(input, t) == Some(Probed) && MayAsk(input)
    ensures var (u, r) := Acquire(env, input, input.pinProvider.value, info, t);
            Early(input, u) && (r.Ok? ==> StageAfter(input, u) == Some(TokenSent))
  {
    var p := Select(input.pinProtocol, info.protocols.GetOr([]));
    var (secret, pool) := DrawScalar(env.crypto, input.entropy, 8);
    if p.Ok? && secret.Ok? {
      var req := KeyRequest(env.crypto, secret.value, p.value);
      var (u, answer) := PinHop(env, t, req);
      PinHopMoves(env, input, t, req, Probed, Agreed);
      if answer.Ok? && answer.value.keyAgreement.Some? {
        var shared := Encapsulate(env.crypto, secret.value, answer.value.keyAgreement.value, p.value);
        if shared.Ok? {
          OneMore(input, u, AskPin);
          WithPinMoves(env, input, info, secret.value, shared.value, pool, u + [AskPin]);
        }
      }
    }
  }

  lemma {:induction false} WithPinMoves(env: Env, input: Input, info: Info, secret: seq<byte>, shared: Shared,
                                        pool: seq<byte>, t: Trace)
    requires StageAfter(input, t) == Some(PinAsked) && MayAsk(input)
    ensures var (u, r) := WithPin(env, input, input.pinProvider.value, info, secret, shared, pool, t);
            Early(input, u) && (r.Ok? ==> StageAfter(input, u) == Some(TokenSent))
  {
    if PinFits(input) {
      var hashEnc := Encrypt(env.crypto, shared, pool, PinHash(env.crypto, input.pinProvider.value.value)).0;
      if hashEnc.Ok? {
        var puat := OptionValue(info, OPTION_PIN_UV_AUTH_TOKEN);
        PinHopMoves(env, input, t, TokenRequest(env.crypto, secret, shared.protocol, hashEnc.value, puat, input.rpId),
                    PinAsked, TokenSent);
      }
    }
  }

  lemma {:induction false} RequestWireOk(input: Input, material: Option<Material>, info: Info)
    ensures var r := WireRequest(input, material, info);
            r.Ok? ==> WireOk(input, r.value) && (r.value.pinUvAuthParam.Some? <==> material.Some?)
  {
  }

  // ---- counting

  /** How often the request went out. */
  function Requests(t: Trace): nat
    decreases |t|
  {
    if t == [] then 0 else Requests(t[..|t| - 1]) + if t[|t| - 1].SendAssertion? then 1 else 0
  }

  /** How often it was met with a keepalive. */
  function Keepalives(d: Device, t: Trace): nat
    decreases |t|
  {
    if t == [] then 0 else
      Keepalives(d, t[..|t| - 1]) + if t[|t| - 1].SendAssertion? && d.behaviour(t).KeepsAlive? then 1 else 0
  }

  function PinHops(t: Trace): nat
    decreases |t|
  {
    if t == [] then 0 else PinHops(t[..|t| - 1]) + if t[|t| - 1].SendPin? then 1 else 0
  }

  function Prompts(t: Trace): nat
    decreases |t|
  {
    if t == [] then 0 else Prompts(t[..|t| - 1]) + if t[|t| - 1].AskPin? then 1 else 0
  }

  function Drains(t: Trace): nat
    decreases |t|
  {
    if t == [] then 0 else Drains(t[..|t| - 1]) + if t[|t| - 1].DrainNext? then 1 else 0
  }

  lemma {:induction false} CountMore(d: Device, t: Trace, call: Call)
    ensures Requests(t + [call]) == Requests(t) + (if call.SendAssertion? then 1 else 0)
    ensures Keepalives(d, t + [call])
         == Keepalives(d, t) + (if call.SendAssertion? && d.behaviour(t + [call]).KeepsAlive? then 1 else 0)
    ensures Drains(t + [call]) == Drains(t) + (if call.DrainNext? then 1 else 0)
  {
    assert (t + [call])[..|t|] == t;
  }

  /** What the stages say about a trace: one prompt and two PIN hops at most, a token request only after both. */
  lemma {:induction false} StageCounts(input: Input, t: Trace)
    requires Lawful(input, t)
    ensures t != [] ==> t[0] == ProbeInfo
    ensures var s := StageAfter(input, t).value;
            && Prompts(t) <= 1 && PinHops(t) <= 2
            && (s == Fresh || s == Probed ==> Prompts(t) == 0 && PinHops(t) == 0)
            && (s == Agreed ==> Prompts(t) == 0 && PinHops(t) == 1)
            && (s == PinAsked ==> Prompts(t) == 1 && PinHops(t) == 1)
            && (s == TokenSent ==> Prompts(t) == 1 && PinHops(t) == 2)
            && (PinHops(t) == 2 ==> Prompts(t) == 1 && PinFits(input)) && (Prompts(t) == 1 ==> MayAsk(input))
            && (PinHops(t) > 0 ==> MayAsk(input))
            && (s == Fresh <==> t == [])
    decreases |t|
  {
    if t != [] {
      StageCounts(input, t[..|t| - 1]);
    }
  }

  // ---- the keepalive loop and the drain

  /** What the keepalive loop does between `t` and `u`: the request once, and once more for every keepalive. */
  ghost predicate LoopKept(d: Device, input: Input, t: Trace, u: Trace, r: Result<Answer, CeremonyError>,
                           request: Request, seen: bool) {
    var sent, kept := Requests(u) - Requests(t), Keepalives(d, u) - Keepalives(d, t);
    && Lawful(input, u) && Drains(u) == Drains(t) && 0 <= kept <= sent <= kept + 1
    && (r.Ok? ==> StageAfter(input, u) == Some(Asserting(request)) && sent == kept + 1)
    && ((seen || kept > 0) && r.Err? && r.error.TimedOut? ==> r == Err(TimedOut(UserPresence)))
  }

  lemma {:induction false} LoopRuns(env: Env, input: Input, t: Trace, request: Request, from: Stage, seen: bool)
    requires StageAfter(input, t) == Some(from) && Next(input, from, SendAssertion(request)) == Some(Asserting(request))
    ensures var (u, r) := KeepaliveLoop(env, t, SendAssertion(request), seen);
            LoopKept(env.device, input, t, u, r, request, seen)
    decreases env.device.patience - |t|
  {
    var call, phase := SendAssertion(request), if seen then UserPresence else GetAssertionPhase;
    var (u, event) := Hop(env, t, call, phase);
    HopMoves(env, input, t, call, phase, from, Asserting(request));
    CountMore(env.device, t, call);
    if event.Ok? && event.value.KeepsAlive? {
      LoopRuns(env, input, u, request, Asserting(request), true);
      var (v, r) := KeepaliveLoop(env, u, call, true);
      LoopOnce(env.device, input, t, u, v, r, request, seen);
    }
  }

  lemma {:induction false} LoopOnce(d: Device, input: Input, t: Trace, u: Trace, v: Trace,
                                    r: Result<Answer, CeremonyError>, request: Request, seen: bool)
    requires LoopKept(d, input, u, v, r, request, true)
    requires Requests(u) == Requests(t) + 1 && Keepalives(d, u) == Keepalives(d, t) + 1 && Drains(u) == Drains(t)
    ensures LoopKept(d, input, t, v, r, request, seen)
  {
  }

  ghost predicate CanDrain(input: Input, t: Trace) {
    input.drain && StageAfter(input, t).Some?
    && (StageAfter(input, t).value.Asserting? || StageAfter(input, t).value == Draining)
  }

  lemma {:induction false} DrainRuns(env: Env, input: Input, t: Trace, n: nat)
    requires CanDrain(input, t)
    ensures var (u, r) := DrainAll(env, t, n);
            && Lawful(input, u) && Requests(u) == Requests(t) && Keepalives(env.device, u) == Keepalives(env.device, t)
            && Drains(u) <= Drains(t) + n && (r.Ok? ==> Drains(u) == Drains(t) + n)
    decreases n
  {
    if n > 0 {
      DrainHopRuns(env, input, t);
      var (u, first) := DrainHop(env, t);
      if first.Ok? { DrainRuns(env, input, u, n - 1); }
    }
  }

  lemma {:induction false} DrainHopRuns(env: Env, input: Input, t: Trace)
    requires CanDrain(input, t)
    ensures var (u, r) := DrainHop(env, t);
            && CanDrain(input, u) && Requests(u) == Requests(t)
            && Keepalives(env.device, u) == Keepalives(env.device, t)
            && Drains(u) <= Drains(t) + 1 && (r.Ok? ==> Drains(u) == Drains(t) + 1)
  {
    HopMoves(env, input, t, DrainNext, GetNextAssertionPhase, StageAfter(input, t).value, Draining);
    CountMore(env.device, t, DrainNext);
  }

  /** What a whole run leaves behind. */
  ghost predicate RunOk(env: Env, input: Input, t: Trace, r: Result<Outcome, CeremonyError>) {
    var sent, kept := Requests(t), Keepalives(env.device, t);
    && Lawful(input, t) && kept <= sent <= kept + 1
    && (r.Ok? ==>
          && sent == kept + 1 && r.value.assertions != []
          && |r.value.assertions| == Max(1, r.value.assertions[0].Number()) && Drains(t) == |r.value.assertions| - 1)
  }

  lemma {:induction false} ExchangeRuns(env: Env, input: Input, t: Trace, info: Info, request: Request, acquired: bool,
                                        from: Stage)
    requires StageAfter(input, t) == Some(from) && Next(input, from, SendAssertion(request)) == Some(Asserting(request))
    requires Requests(t) == 0 && Keepalives(env.device, t) == 0 && Drains(t) == 0
    ensures var (u, r) := Exchange(env, input, t, info, request, acquired);
            RunOk(env, input, u, r) && (r.Ok? ==> Reported(r.value, u, info, request, acquired))
  {
    LoopRuns(env, input, t, request, from, false);
    var (u, first) := FirstAssertion(env, t, request);
    if first.Ok? {
      var extra := if first.value.Number() > 1 then first.value.Number() - 1 else 0;
      assert u[|u| - 1] == SendAssertion(request) by { LastRequest(input, u, request); }
      if extra > 0 && input.drain {
        DrainRuns(env, input, u, extra);
        DrainExtends(env, u, extra);
      }
    }
  }

  lemma {:induction false} LastRequest(input: Input, t: Trace, request: Request)
    requires StageAfter(input, t) == Some(Asserting(request))
    ensures t != [] && t[|t| - 1] == SendAssertion(request)
  {
  }

  lemma {:induction false} DrainExtends(env: Env, t: Trace, n: nat)
    ensures forall call :: call in t ==> call in DrainAll(env, t, n).0
    decreases n
  {
    if n > 0 {
      var (u, first) := DrainHop(env, t);
      if first.Ok? { DrainExtends(env, u, n - 1); }
    }
  }

  /**
   The outcome reports what happened: the request is in the trace, its allow list covers the answer,
   the posture is its own.
   */
  ghost predicate Reported(o: Outcome, t: Trace, info: Info, request: Request, acquired: bool) {
    && SendAssertion(request) in t && o.info == info && o.assertions != []
    && Allowed(request.allowList, o.assertions[0].credential.id)
    && o.uv == if acquired then PinUvAuthToken else Effective(request)
  }

  /** Until the request goes out there is nothing to count. */
  lemma {:induction false} NoRequestYet(d: Device, input: Input, t: Trace)
    requires Early(input, t)
    ensures Requests(t) == 0 && Keepalives(d, t) == 0 && Drains(t) == 0
    decreases |t|
  {
    if t != [] { NoRequestYet(d, input, t[..|t| - 1]); }
  }

  /**
   The rules of every run, against every device: probe, at most the two PIN hops with the prompt
   between them, then one lawful request, sent once more for every keepalive and no more, then the
   drain; and on success as many assertions as the first one announces.
   */
  lemma {:induction false} PipelineRuns(env: Env, input: Input)
    ensures var (t, r) := Pipeline(env, input);
            RunOk(env, input, t, r)
            && (r.Ok? ==> exists request :: WireOk(input, request)
                                            && Reported(r.value, t, r.value.info, request,
                                                        MustAcquire(input, r.value.info)))
  {
    assert StageAfter(input, []) == Some(Fresh);
    HopMoves(env, input, [], ProbeInfo, GetInfoPhase, Fresh, Probed);
    var (t, info) := Probe(env, []);
    NoRequestYet(env.device, input, t);
    if info.Ok? {
      var (u, material) := MaterialFor(env, input, info.value, t);
      MaterialMoves(env, input, info.value, t);
      NoRequest(env, input, info.value, u, material);
    }
  }

  lemma {:induction false} MaterialMoves(env: Env, input: Input, info: Info, t: Trace)
    requires StageAfter(input, t) == Some(Probed)
    ensures var (u, m) := MaterialFor(env, input, info, t);
            && Early(input, u)
            && (m.Ok? ==> StageAfter(input, u) == Some(if MustAcquire(input, info) then TokenSent else Probed))
            && (m.Ok? && MustAcquire(input, info) ==> m.value.Some?)
  {
    if MustAcquire(input, info) && input.pinProvider.Some? {
      AcquireMoves(env, input, info, t);
    }
  }

  lemma {:induction false} NoRequest(env: Env, input: Input, info: Info, u: Trace,
                                     material: Result<Option<Material>, CeremonyError>)
    requires Early(input, u)
    requires material.Ok? ==> StageAfter(input, u) == Some(if MustAcquire(input, info) then TokenSent else Probed)
    requires material.Ok? && MustAcquire(input, info) ==> material.value.Some?
    ensures RunOk(env, input, u, Err(PinRequired))
    ensures material.Ok? ==>
              match WireRequest(input, material.value, info)
              case Err(_) => true
              case Ok(request) =>
                var (v, r) := Exchange(env, input, u, info, request, MustAcquire(input, info));
                RunOk(env, input, v, r)
                && (r.Ok? ==> WireOk(input, request) && Reported(r.value, v, info, request, MustAcquire(input, info)))
  {
    NoRequestYet(env.device, input, u);
    if material.Ok? {
      RequestWireOk(input, material.value, info);
      var request := WireRequest(input, material.value, info);
      if request.Ok? {
        ExchangeRuns(env, input, u, info, request.value, MustAcquire(input, info), StageAfter(input, u).value);
      }
    }
  }

  // ---- the requests sent

  /** Whatever a lawful run sends keeps the wire rules, and so encodes. */
  lemma {:induction false} RequestsEncode(input: Input, t: Trace)
    requires Lawful(input, t)
    ensures forall i :: 0 <= i < |t| && t[i].SendAssertion? ==>
                          WireOk(input, t[i].assertion) && EncodeRequest(t[i].assertion).Ok?
    decreases |t|
  {
    if t != [] {
      var before, call := t[..|t| - 1], t[|t| - 1];
      RequestsEncode(input, before);
      if call.SendAssertion? {
        assert WireOk(input, call.assertion) by { AssertingKept(input, t); }
        RequestEncodable(call.assertion);
      }
      assert forall i :: 0 <= i < |t| - 1 ==> t[i] == before[i];
    }
  }

  /** The request a run is asserting with keeps the wire rules. */
  lemma {:induction false} AssertingKept(input: Input, t: Trace)
    requires Lawful(input, t)
    ensures StageAfter(input, t).value.Asserting? ==> WireOk(input, StageAfter(input, t).value.request)
    decreases |t|
  {
    if t != [] { AssertingKept(input, t[..|t| - 1]); }
  }

  /** Every getAssertion request any run of the pipeline sends encodes. */
  lemma {:induction false} PipelineEncodes(env: Env, input: Input)
    ensures var t := Pipeline(env, input).0;
            forall i :: 0 <= i < |t| && t[i].SendAssertion? ==> EncodeRequest(t[i].assertion).Ok?
  {
    PipelineRuns(env, input);
    RequestsEncode(input, Pipeline(env, input).0);
  }
}
