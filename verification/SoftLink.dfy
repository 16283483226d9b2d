/** The client's ceremony connected to the soft token, over the bytes they exchange. */
module SoftLink {
  import opened Wrappers
  import opened ByteOrder
  import opened Utf8
  import opened Budget
  import opened Cbor
  import CborDecoder
  import opened CborTheorems
  import opened Members
  import opened GetAssertion
  import opened GetAssertionFacts
  import opened GetInfo
  import opened GetInfoFacts
  import opened ClientPin
  import opened PinRequestFacts
  import opened PinToken
  import opened Assertions
  import opened SoftToken
  import opened Ceremony
  import opened SoftDevice
  import opened Sizes

  // ---- the decoders of the source

  function Strictly(body: seq<byte>): Result<Value, CborDecoder.DecodeError> {
    CborDecoder.DecodeMap(body, CborDecoder.Strict)
  }

  function DecodeInfo(body: seq<byte>): Option<Info> {
    var v := Strictly(body);
    if v.Err? then None else
      var i := InfoFrom(v.value);
      if i.Ok? then Some(i.value) else None
  }

  function DecodeAssertion(body: seq<byte>): Option<Response> {
    var v := Strictly(body);
    if v.Err? then None else
      var r := ResponseFrom(v.value);
      if r.Ok? then Some(r.value) else None
  }

  function DecodePin(body: seq<byte>): Option<PinResponse> {
    PinOf(Strictly(body))
  }

  function DecodePinLeniently(body: seq<byte>): Option<PinResponse> {
    PinOf(CborDecoder.DecodeMap(body, CborDecoder.Tolerant))
  }

  function PinOf(v: Result<Value, CborDecoder.DecodeError>): Option<PinResponse> {
    if v.Err? then None else
      var r := PinResponseFrom(v.value);
      if r.Ok? then Some(r.value) else None
  }

  function PinEncodes(r: PinRequest): bool {
    EncodePinRequest(r).Ok?
  }

  function SourceDecoders(): Decoders {
    Decoders(DecodeInfo, DecodeAssertion, DecodePin, DecodePinLeniently, PinEncodes)
  }

  // ---- the token behind the device interface

  /**
   One call on the token; the drain hook asks for the next assertion over `hash`. A clientPIN request
   reaches it as the bytes the client prints, and it acts on what it reads in them. A parked index
   outside the store would be a panic of the source; `StaysInStore` shows that it cannot arise.
   */
  function SoftStep(lib: Libraries, s: Soft, hash: seq<byte>, call: Call): Sent {
    if call.AskPin? then (s, Expires)
    else if call.DrainNext? then
      if !NextInStore(s.store) then (s, Faults(TransportFailed)) else
        var (store, reply) := NextOn(lib.signer, s.store, hash);
        (s.(store := store), Deliver(reply))
    else if call.SendPin? then
      match Received(call.request)
      case Some(request) => SendOn(lib, s, SendPin(request))
      case None => (s, Faults(TransportFailed))
    else SendOn(lib, s, call)
  }

  type Stepper = (Soft, Call) -> Sent

  function SoftStepper(lib: Libraries, hash: seq<byte>): Stepper {
    (s: Soft, call: Call) => SoftStep(lib, s, hash, call)
  }

  /** The token after a trace. */
  function After(step: Stepper, s: Soft, t: Trace): Soft
    decreases |t|
  {
    if t == [] then s else step(After(step, s, t[..|t| - 1]), t[|t| - 1]).0
  }

  /** Its answer to the last call of a trace. */
  function LastAnswer(step: Stepper, s: Soft, t: Trace): Answer {
    if t == [] then Expires else step(After(step, s, t[..|t| - 1]), t[|t| - 1]).1
  }

  function SoftAfter(lib: Libraries, s: Soft, hash: seq<byte>, t: Trace): Soft {
    After(SoftStepper(lib, hash), s, t)
  }

  function StepperDevice(step: Stepper, s: Soft, patience: nat): Device {
    Device((t: Trace) => LastAnswer(step, s, t), patience)
  }

  /** The ceremony's surroundings: the source's decoders and the token as the device. */
  function SoftEnv(lib: Libraries, s: Soft, hash: seq<byte>, patience: nat): Env {
    Env(lib.crypto, SourceDecoders(), StepperDevice(SoftStepper(lib, hash), s, patience))
  }

  lemma {:induction false} OneStepMore(step: Stepper, s: Soft, t: Trace, call: Call)
    ensures (After(step, s, t + [call]), LastAnswer(step, s, t + [call])) == step(After(step, s, t), call)
  {
    assert (t + [call])[..|t|] == t;
  }

  lemma {:induction false} SoftMore(lib: Libraries, s: Soft, hash: seq<byte>, t: Trace, call: Call)
    ensures SoftAfter(lib, s, hash, t + [call]) == SoftStep(lib, SoftAfter(lib, s, hash, t), hash, call).0
  {
    OneStepMore(SoftStepper(lib, hash), s, t, call);
  }

  /** A hop to a device that steps, when there is budget for it and it answers. */
  lemma {:induction false} StepperHop(env: Env, step: Stepper, s: Soft, t: Trace, call: Call, phase: Phase,
                                      before: Soft, after: Soft, answer: Answer)
    requires env.device == StepperDevice(step, s, env.device.patience) && |t| < env.device.patience
    requires before == After(step, s, t) && step(before, call) == (after, answer)
             && (answer.Responds? || answer.KeepsAlive?)
    ensures Hop(env, t, call, phase) == (t + [call], Ok(answer)) && After(step, s, t + [call]) == after
  {
    OneStepMore(step, s, t, call);
    assert env.device.behaviour(t + [call]) == LastAnswer(step, s, t + [call]);
  }

  /** A hop to the token. */
  lemma {:induction false} SoftHop(lib: Libraries, s: Soft, hash: seq<byte>, patience: nat, t: Trace, call: Call,
                                   phase: Phase,
                                   before: Soft, after: Soft, answer: Answer)
    requires |t| < patience && before == SoftAfter(lib, s, hash, t)
    requires SoftStep(lib, before, hash, call) == (after, answer) && (answer.Responds? || answer.KeepsAlive?)
    ensures Hop(SoftEnv(lib, s, hash, patience), t, call, phase) == (t + [call], Ok(answer))
    ensures SoftAfter(lib, s, hash, t + [call]) == after
  {
    StepperHop(SoftEnv(lib, s, hash, patience), SoftStepper(lib, hash), s, t, call, phase, before, after, answer);
  }

  lemma {:induction false} ProcessInStore(lib: Libraries, s: Soft, r: Request)
    requires InStore(s.store)
    ensures InStore(ProcessOn(lib, s, r).0.store)
  {
    AssertInStore(lib.signer, s.store, r, true, true, s.knobs.wrongId);
    assert Waited(s).store == s.store && Waited(s).knobs.wrongId == s.knobs.wrongId;
  }

  lemma {:induction false} VerificationInStore(lib: Libraries, s: Soft, r: Request)
    requires InStore(s.store)
    ensures InStore(VerificationOn(lib, s, r).0.store)
  {
    var (_, poked, left) := Await(s.uvMode, s.uvPoked, s.left);
    ProcessInStore(lib, s.(uvPoked := poked, left := left), r);
  }

  lemma {:induction false} PresenceInStore(lib: Libraries, s: Soft, r: Request)
    requires InStore(s.store)
    ensures InStore(PresenceOn(lib, s, r).0.store)
  {
    var (_, poked, left) := Await(s.upMode, s.upPoked, s.left);
    VerificationInStore(lib, s.(upPoked := poked, left := left), r);
  }

  lemma {:induction false} AssertionInStore(lib: Libraries, s: Soft, r: Request)
    requires InStore(s.store)
    ensures InStore(AssertionOn(lib, s, r).0.store)
  {
    var taken := if s.knobs.persistent then s else s.(knobs := s.knobs.(keepalives := []));
    var (left, events, _) := Stage(s.left, s.knobs.keepalives, s.events);
    PresenceInStore(lib, taken.(left := left, events := events), r);
  }

  lemma {:induction false} SendInStore(lib: Libraries, s: Soft, cmd: Call)
    requires IsCommand(cmd) && InStore(s.store)
    ensures InStore(SendOn(lib, s, cmd).0.store)
  {
    if cmd.SendAssertion? { AssertionInStore(lib, s, cmd.assertion); }
  }

  /** Whatever calls are made: parked credentials stay in the store, so no drain indexes outside it. */
  lemma {:induction false} StaysInStore(lib: Libraries, s: Soft, hash: seq<byte>, t: Trace)
    requires InStore(s.store)
    ensures var now := SoftAfter(lib, s, hash, t);
            && InStore(now.store) && NextInStore(now.store)
            && SoftStep(lib, now, hash, DrainNext).1 == Deliver(NextOn(lib.signer, now.store, hash).1)
    decreases |t|
  {
    if t != [] {
      var before, call := t[..|t| - 1], t[|t| - 1];
      StaysInStore(lib, s, hash, before);
      var now := SoftAfter(lib, s, hash, before);
      if call.DrainNext? {
        NextKeepsStore(lib.signer, now.store, hash);
      } else if call.SendPin? {
        if Received(call.request).Some? { SendInStore(lib, now, SendPin(Received(call.request).value)); }
      } else if IsCommand(call) {
        SendInStore(lib, now, call);
      }
    }
  }

  /** No knobs, nothing staged, connected, and time left. */
  ghost predicate Calm(s: Soft) {
    s.open && s.events == [] && s.pending.None? && s.knobs == NO_KNOBS && s.left > 0
  }

  // ---- bodies, there and back

  lemma {:induction false} InfoBody(i: Info)
    requires TypedInfo(i) && Modest(i) && Fault(i).None?
    ensures Body(InfoTo(i)).Responds? && Body(InfoTo(i)).status == 0
            && DecodeInfo(Body(InfoTo(i)).body) == Some(NormalInfo(i))
  {
    InfoSize(i);
    InfoRoundTrip(i);
  }

  lemma {:induction false} PinBodyRead(r: PinResponse)
    requires TypedPinResponse(r) && |Enc(PinResponseTo(r))| < U64
    ensures Body(PinResponseTo(r)).Responds? && Body(PinResponseTo(r)).status == 0 && Body(PinResponseTo(r)).body != []
    ensures DecodePin(Body(PinResponseTo(r)).body) == Some(r.(keyAgreement := CanonOpt(r.keyAgreement)))
    ensures DecodePinLeniently(Body(PinResponseTo(r)).body) == Some(r.(keyAgreement := CanonOpt(r.keyAgreement)))
  {
    PinResponseRoundTrip(r);
    EncodeCharacterised(PinResponseTo(r));
    var b := Encode(PinResponseTo(r)).value;
    assert CborDecoder.Decode(b, CborDecoder.Strict).Ok? && CborDecoder.Decode(b, CborDecoder.Tolerant).Ok?;
  }

  lemma {:induction false} AssertionBody(r: Response)
    requires TypedResponse(r) && ModestResponse(r) && !SelectedAmongMany(r)
    ensures Body(ResponseTo(r)).Responds? && Body(ResponseTo(r)).status == 0
    ensures DecodeAssertion(Body(ResponseTo(r)).body) == Some(r)
  {
    ResponseSize(r);
    ResponseRoundTrip(r);
  }

  // ---- the probe

  /** The advertised protocols: some, distinct, in normal form, and at least one that is implemented. */
  ghost predicate GoodProtocols(ps: seq<Protocol>) {
    && |ps| < U32 && !Repeats(ProtocolNumbers(ps)) && ProtocolsNormal(ps) == ps
    && (forall n :: 0 <= n < |ps| ==> ps[n].ToU32() < U32) && (One in ps || Two in ps)
  }

  function ArmedInfo(s: Soft): Info {
    InfoOf(s.token, s.uvMode != AlwaysFail, s.advertisePuat)
  }

  lemma {:induction false} NamesDiffer()
    ensures |OPTION_CLIENT_PIN| == 9 && |OPTION_PIN_UV_AUTH_TOKEN| == 14 && |RK| == 2 && |UP.utf8| == 2
            && |UV.utf8| == 2
    ensures RK != UP.utf8 && RK != UV.utf8 && UP.utf8 != UV.utf8
  {
    assert RK[0] != UP.utf8[0] && RK[0] != UV.utf8[0] && UP.utf8[1] != UV.utf8[1];
  }

  ghost predicate ShortAscii(n: Name) {
    |n| < 1000 && forall i :: 0 <= i < |n| ==> n[i] <= 0x7F
  }

  lemma {:induction false} NamesShort()
    ensures ShortAscii(OPTION_CLIENT_PIN) && ShortAscii(OPTION_PIN_UV_AUTH_TOKEN) && ShortAscii(RK)
    ensures ShortAscii(UP.utf8) && ShortAscii(UV.utf8) && ShortAscii(FIDO_2_0) && ShortAscii(FIDO_2_1)
  {
  }

  lemma {:induction false} InfoNames(t: Token, uvCapable: bool, puat: bool)
    ensures var i := InfoOf(t, uvCapable, puat);
            && (forall n :: 0 <= n < |i.versions| ==> ShortAscii(i.versions[n])) && |i.versions| == 2
            && i.options.Some? && |i.options.value| <= 5 && forall k :: k in i.options.value ==> ShortAscii(k)
  {
    NamesShort();
    var o := InfoOf(t, uvCapable, puat).options.value;
    var names := {RK, UP.utf8, UV.utf8, OPTION_CLIENT_PIN, OPTION_PIN_UV_AUTH_TOKEN};
    assert o.Keys <= names;
    SubsetSize(o.Keys, names);
    assert |o| == |o.Keys|;
  }

  lemma {:induction false} SubsetSize<T>(a: set<T>, b: set<T>)
    requires a <= b
    ensures |a| <= |b|
  {
    assert b == a + (b - a);
  }

  /** Short names, good protocols, and none of the members the token leaves out. */
  ghost predicate ArmedShape(i: Info) {
    && (forall n :: 0 <= n < |i.versions| ==> ShortAscii(i.versions[n])) && |i.versions| == 2
    && i.options.Some? && |i.options.value| <= 5 && (forall k :: k in i.options.value ==> ShortAscii(k))
    && |i.aaguid| == 16 && i.numbers == map[] && i.protocols.Some? && GoodProtocols(i.protocols.value)
    && i.extensions.None? && i.transports.None? && i.algorithms.None? && i.certifications.None?
    && i.vendorCommands.None?
  }

  /** A response of that shape is well formed, and comes back unchanged. */
  lemma {:induction false} ArmedShapeGood(i: Info)
    requires ArmedShape(i)
    ensures TypedInfo(i) && Modest(i) && Fault(i).None? && NormalInfo(i) == i
  {
    forall n | 0 <= n < |i.versions| ensures Typed(Text(i.versions[n])) { AsciiValid(i.versions[n]); }
    forall k | k in i.options.value ensures ValidUtf8(k) { AsciiValid(k); }
  }

  lemma {:induction false} ArmedInfoShape(s: Soft)
    requires s.token.pin.Some? && GoodProtocols(s.token.Advertised())
    ensures ArmedShape(ArmedInfo(s))
  {
    InfoNames(s.token, s.uvMode != AlwaysFail, s.advertisePuat);
    assert |AAGUID| == 16;
  }

  /** What the ceremony reads off it. */
  lemma {:induction false} ArmedInfoSays(s: Soft)
    requires s.token.pin.Some?
    ensures OptionValue(ArmedInfo(s), OPTION_CLIENT_PIN)
    ensures OptionValue(ArmedInfo(s), OPTION_PIN_UV_AUTH_TOKEN) == s.advertisePuat
    ensures ArmedInfo(s).protocols == Some(s.token.Advertised())
  {
    NamesDiffer();
  }

  lemma {:induction false} ProbeArmed(lib: Libraries, s: Soft, hash: seq<byte>, patience: nat)
    requires Calm(s) && s.token.pin.Some? && GoodProtocols(s.token.Advertised()) && patience > 0
    ensures Probe(SoftEnv(lib, s, hash, patience), []) == ([ProbeInfo], Ok(ArmedInfo(s)))
    ensures SoftAfter(lib, s, hash, [ProbeInfo]) == s
  {
    var i := ArmedInfo(s);
    ArmedInfoShape(s);
    InfoAnswered(i, Body(InfoTo(i)));
    ProbeStep(lib, s, hash);
    ProbeAnswered(lib, s, hash, patience, i, Body(InfoTo(i)));
  }

  lemma {:induction false} ProbeStep(lib: Libraries, s: Soft, hash: seq<byte>)
    requires Calm(s)
    ensures SoftStep(lib, s, hash, ProbeInfo) == (s, Body(InfoTo(ArmedInfo(s))))
  {
  }

  lemma {:induction false} InfoAnswered(i: Info, answer: Answer)
    requires ArmedShape(i) && answer == Body(InfoTo(i))
    ensures answer.Responds? && answer.status == 0 && DecodeInfo(answer.body) == Some(i)
  {
    ArmedShapeGood(i);
    InfoBody(i);
  }

  lemma {:induction false} ProbeAnswered(lib: Libraries, s: Soft, hash: seq<byte>, patience: nat, i: Info,
                                         answer: Answer)
    requires patience > 0 && SoftStep(lib, s, hash, ProbeInfo) == (s, answer)
    requires answer.Responds? && answer.status == 0 && DecodeInfo(answer.body) == Some(i)
    ensures Probe(SoftEnv(lib, s, hash, patience), []) == ([ProbeInfo], Ok(i))
    ensures SoftAfter(lib, s, hash, [ProbeInfo]) == s
  {
    SoftHop(lib, s, hash, patience, [], ProbeInfo, GetInfoPhase, s, s, answer);
    assert [] + [ProbeInfo] == [ProbeInfo];
  }
}
