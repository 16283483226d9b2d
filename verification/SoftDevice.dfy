/**
 The soft token as a device: one event per send, staged keepalives before the response, injected
 faults, and every wait charged to the caller's budget.
 */
module SoftDevice {
  import opened Wrappers
  import opened ByteOrder
  import opened Budget
  import opened Cbor
  import opened CborTheorems
  import opened GetAssertion
  import opened GetInfo
  import opened ClientPin
  import opened PinCrypto
  import opened PinToken
  import opened Assertions
  import opened SoftToken
  import opened Ceremony

  const OPERATION_DENIED: byte := 0x27
  const PROCESSING: byte := 0x01
  const UP_NEEDED: byte := 0x02
  const DELAY_HARD_CAP: nat := 60_000 * MILLISECOND
  const POKE_POLL_SLICE: nat := 100 * MILLISECOND

  /** "fidoh-soft-token", and the names "FIDO_2_0", "FIDO_2_1" and "rk". */
  const AAGUID: seq<byte> := [0x66, 0x69, 0x64, 0x6F, 0x68, 0x2D, 0x73, 0x6F, 0x66, 0x74, 0x2D, 0x74, 0x6F, 0x6B, 0x65,
                              0x6E]
  const FIDO_2_0: Name := [0x46, 0x49, 0x44, 0x4F, 0x5F, 0x32, 0x5F, 0x30]
  const FIDO_2_1: Name := [0x46, 0x49, 0x44, 0x4F, 0x5F, 0x32, 0x5F, 0x31]
  const RK: Name := [0x72, 0x6B]

  /** The libraries the token calls. */
  datatype Libraries = Libraries(crypto: Crypto, signer: Signer)

  /** The token, its staged events, its held-back response and the caller's remaining budget. */
  datatype Soft = Soft(
    token: Token,
    advertisePuat: bool,
    store: Store,
    pool: seq<byte>,
    upMode: Mode,
    uvMode: Mode,
    upPoked: bool,
    uvPoked: bool,
    knobs: Knobs,
    open: bool,
    events: seq<byte>,
    pending: Option<Answer>,
    overshoot: bool,
    left: nat)

  type Sent = (Soft, Answer)

  // ---- bodies

  /** `get_info_response_with_protocols`. */
  function InfoOf(t: Token, uvCapable: bool, puat: bool): Info {
    var plain := map[RK := true, UP.utf8 := true, UV.utf8 := uvCapable];
    var pin := if t.pin.Some? then plain[OPTION_CLIENT_PIN := true] else plain;
    Info([FIDO_2_0, FIDO_2_1], None, AAGUID,
         Some(if t.pin.Some? && puat then pin[OPTION_PIN_UV_AUTH_TOKEN := true] else pin),
         map[], if t.pin.Some? then Some(t.Advertised()) else None, None, None, None, None, None)
  }

  /** A success with an encoded body; an encoding that fails is a failure of the token. */
  function Body(v: Value): Answer {
    match Encode(v)
    case Ok(body) => Responds(0x00, body)
    case Err(_) => Faults(TransportFailed)
  }

  function Deliver(r: Reply): Answer {
    match r
    case Assertion(response) => Body(ResponseTo(response))
    case Refusal(status) => Responds(status, [])
  }

  /** A PIN-invalid answer carries the retries left. */
  function PinBody(answer: PinAnswer, retries: nat): Answer {
    match answer
    case Ok(response) => Body(PinResponseTo(response))
    case Err(status) =>
      if status == PIN_INVALID then
        match Body(PinResponseTo(NO_MEMBERS.(pinRetries := Some(retries))))
        case Responds(_, body) => Responds(PIN_INVALID, body)
        case fault => fault
      else Responds(status, [])
  }

  // ---- one send

  function Injected(s: Soft): Soft {
    if s.knobs.persistent then s else s.(knobs := s.knobs.(injectStatus := None))
  }

  function InfoOn(s: Soft): Sent {
    match s.knobs.injectStatus
    case Some(status) => (Injected(s), Responds(status, []))
    case None => (Injected(s), Body(InfoTo(InfoOf(s.token, s.uvMode != AlwaysFail, s.advertisePuat))))
  }

  function RetriesOf(t: Token): nat {
    if t.pin.Some? then t.pin.value.retries else 0
  }

  function PinOn(lib: Libraries, s: Soft, req: PinRequest): Sent {
    match s.knobs.injectStatus
    case Some(status) => (Injected(s), Responds(status, []))
    case None =>
      var asked := ExchangeOn(lib.crypto, s.token, req, s.pool);
      (Injected(s).(token := asked.state, pool := asked.pool), PinBody(asked.answer, RetriesOf(asked.state)))
  }

  /** The keepalives staged, each spacing charged first; the first one the budget cannot cover stops it. */
  function Stage(left: nat, ks: seq<KeepaliveEvent>, events: seq<byte>): (r: (nat, seq<byte>, bool))
    ensures ks != [] && r.2 ==> r.1 != []
    ensures |r.1| >= |events|
    decreases |ks|
  {
    if ks == [] then (left, events, true)
    else if ks[0].spacing > left then (0, events, false)
    else Stage(left - ks[0].spacing, ks[1..], events + [ks[0].status])
  }

  datatype Settled = Satisfied | Denied | Pending | OutOfBudget

  /** `await_up_uv`: the outcome, the latch and the budget after it. */
  function Await(mode: Mode, poked: bool, left: nat): (Settled, bool, nat) {
    match mode
    case AutoApprove => (Satisfied, poked, left)
    case AlwaysFail => (Denied, poked, left)
    case RequireExplicitPoke =>
      if poked then (Satisfied, false, left)
      else if POKE_POLL_SLICE > left then (OutOfBudget, false, 0)
      else (Pending, false, left - POKE_POLL_SLICE)
  }

  /** Presence, then verification, then the command; only `Satisfied` goes on. */
  function AssertionOn(lib: Libraries, s: Soft, r: Request): Sent {
    if s.knobs.injectStatus.Some? then (Injected(s), Responds(s.knobs.injectStatus.value, []))
    else
      var ks := s.knobs.keepalives;
      var taken := if s.knobs.persistent then s else s.(knobs := s.knobs.(keepalives := []));
      var (left, events, ok) := Stage(s.left, ks, s.events);
      var staged := taken.(left := left, events := events);
      if !ok then (staged, Faults(CoreTimeout(GetAssertionPhase)))
      else if events != [] then (staged.(events := events[1..]), KeepsAlive(events[0]))
      else PresenceOn(lib, staged, r)
  }

  function PresenceOn(lib: Libraries, s: Soft, r: Request): Sent {
    var (up, poked, left) := Await(s.upMode, s.upPoked, s.left);
    var next := s.(upPoked := poked, left := left);
    match up
    case Satisfied => VerificationOn(lib, next, r)
    case other => (next, Unsettled(other))
  }

  function VerificationOn(lib: Libraries, s: Soft, r: Request): Sent {
    var (uv, poked, left) := Await(s.uvMode, s.uvPoked, s.left);
    var next := s.(uvPoked := poked, left := left);
    match uv
    case Satisfied => ProcessOn(lib, next, r)
    case other => (next, Unsettled(other))
  }

  function Unsettled(outcome: Settled): Answer {
    if outcome == Denied then Responds(OPERATION_DENIED, [])
    else if outcome == OutOfBudget then Faults(CoreTimeout(GetAssertionPhase))
    else KeepsAlive(UP_NEEDED)
  }

  /** The delay is charged before the command is processed. */
  function ProcessOn(lib: Libraries, s: Soft, r: Request): Sent {
    var (done, reply) := AssertedOn(lib, Waited(s), r);
    Concluded(done, Deliver(reply), s.knobs.delay.Some? && reply.Assertion?)
  }

  function Waited(s: Soft): Soft {
    s.(knobs := if s.knobs.persistent then s.knobs else s.knobs.(delay := None),
       left := DelayLeaves(s.left, s.knobs.delay))
  }

  /** What a delay leaves of the budget: its own length is charged, cut to 60 seconds beyond what is there. */
  function DelayLeaves(left: nat, delay: Option<nat>): nat {
    if delay.None? then left else Left(left, InSlices(Min(delay.value, left + DELAY_HARD_CAP)))
  }

  function AssertedOn(lib: Libraries, s: Soft, r: Request): (Soft, Reply) {
    var (store, reply) := AssertOn(lib.signer, s.store, r, true, true, s.knobs.wrongId);
    (s.(store := store, knobs := WrongIdFired(s.knobs, reply)), reply)
  }

  function WrongIdFired(k: Knobs, reply: Reply): Knobs {
    if k.persistent || reply.Refusal? then k else k.(wrongId := false)
  }

  function Concluded(s: Soft, response: Answer, held: bool): Sent {
    if held then HeldBack(s, response) else (s, response)
  }

  /** A response held back after a delay; a failure of the token is reported at once. */
  function HeldBack(s: Soft, response: Answer): Sent {
    if response.Faults? then (s, response)
    else (s.(pending := Some(response), overshoot := true), KeepsAlive(PROCESSING))
  }

  function PhaseOf(cmd: Call): Phase {
    if cmd.ProbeInfo? then GetInfoPhase else if cmd.SendPin? then ClientPinPhase else GetAssertionPhase
  }

  predicate IsCommand(cmd: Call) {
    cmd.ProbeInfo? || cmd.SendPin? || cmd.SendAssertion?
  }

  /** `send`. */
  function SendOn(lib: Libraries, s: Soft, cmd: Call): Sent
    requires IsCommand(cmd)
  {
    if !s.open then (s, Faults(ChannelClosed))
    else if s.left == 0 then (s, Faults(CoreTimeout(PhaseOf(cmd))))
    else if s.events != [] then (s.(events := s.events[1..]), KeepsAlive(s.events[0]))
    else if s.pending.Some? then
      if s.overshoot then (s.(overshoot := false), KeepsAlive(PROCESSING)) else (s.(pending := None), s.pending.value)
    else if cmd.SendPin? then PinOn(lib, s, cmd.request)
    else if cmd.SendAssertion? then AssertionOn(lib, s, cmd.assertion)
    else InfoOn(s)
  }

  // ---- pokes

  function PokedUp(s: Soft): Soft {
    s.(upPoked := true)
  }

  function PokedUv(s: Soft): Soft {
    s.(uvPoked := true)
  }

  // ---- the device as it runs

  class Handle {
    const core: SoftAuthenticator
    var open: bool
    var events: seq<byte>
    var pending: Option<Answer>
    var overshoot: bool

    constructor (core: SoftAuthenticator)
      ensures this.core == core && open && events == [] && pending == None && !overshoot
    {
      this.core := core;
      open, events, pending, overshoot := true, [], None, false;
    }

    function View(deadline: Deadline): Soft
      reads this, core, core.clientPin, core.rng, deadline
    {
      Soft(core.PinView(), core.advertisePuat, core.StoreView(), core.rng.pool, core.upMode, core.uvMode, core.upPoked,
           core.uvPoked, core.knobs, open, events, pending, overshoot, deadline.remaining)
    }

    /** A harness poke, through the core it shares with the device. */
    method PokeUp(deadline: Deadline)
      modifies core`upPoked
      ensures View(deadline) == PokedUp(old(View(deadline)))
    {
      core.PokeUserPresence();
    }

    method PokeUv(deadline: Deadline)
      modifies core`uvPoked
      ensures View(deadline) == PokedUv(old(View(deadline)))
    {
      core.PokeUserVerification();
    }

    method Send(lib: Libraries, cmd: Call, deadline: Deadline) returns (r: Answer)
      requires IsCommand(cmd) && deadline.Valid()
      modifies this, core, core.clientPin, core.rng, deadline
      ensures deadline.Valid() && core.clientPin == old(core.clientPin)
      ensures (View(deadline), r) == SendOn(lib, old(View(deadline)), cmd)
    {
      if !open {
        return Faults(ChannelClosed);
      }
      if deadline.remaining == 0 {
        return Faults(CoreTimeout(PhaseOf(cmd)));
      }
      if events != [] {
        r := KeepsAlive(events[0]);
        events := events[1..];
        return;
      }
      if pending.Some? {
        if overshoot {
          overshoot := false;
          return KeepsAlive(PROCESSING);
        }
        r := pending.value;
        pending := None;
        return;
      }
      if cmd.SendPin? {
        r := ExchangeClientPin(lib, cmd.request, deadline);
      } else if cmd.SendAssertion? {
        r := ExchangeGetAssertion(lib, cmd.assertion, deadline);
      } else {
        r := ExchangeGetInfo(lib, deadline);
      }
    }

    method ExchangeGetInfo(lib: Libraries, deadline: Deadline) returns (r: Answer)
      modifies core`knobs
      ensures (View(deadline), r) == InfoOn(old(View(deadline)))
    {
      var status := core.TakeInjectedStatus();
      if status.Some? {
        return Responds(status.value, []);
      }
      r := Body(InfoTo(InfoOf(core.PinView(), core.uvMode != AlwaysFail, core.advertisePuat)));
    }

    method ExchangeClientPin(lib: Libraries, req: PinRequest, deadline: Deadline) returns (r: Answer)
      modifies core`knobs, core.clientPin, core.rng
      ensures (View(deadline), r) == PinOn(lib, old(View(deadline)), req)
    {
      var status := core.TakeInjectedStatus();
      if status.Some? {
        return Responds(status.value, []);
      }
      var answer := core.ClientPinExchange(lib.crypto, req, core.rng);
      r := PinBody(answer, RetriesOf(core.PinView()));
    }

    method ExchangeGetAssertion(lib: Libraries, request: Request, deadline: Deadline) returns (r: Answer)
      requires deadline.Valid()
      modifies this`events, this`pending, this`overshoot
      modifies core`signCount, core`queue, core`knobs, core`upPoked, core`uvPoked, deadline
      ensures deadline.Valid() && (View(deadline), r) == AssertionOn(lib, old(View(deadline)), request)
    {
      var status := core.TakeInjectedStatus();
      if status.Some? {
        return Responds(status.value, []);
      }
      var ks := core.knobs.keepalives;
      if !core.knobs.persistent {
        core.knobs := core.knobs.(keepalives := []);
      }
      var ok := StageKeepalives(ks, deadline);
      if !ok {
        return Faults(CoreTimeout(GetAssertionPhase));
      }
      if events != [] {
        r := KeepsAlive(events[0]);
        events := events[1..];
        return;
      }
      r := SettlePresence(lib, request, deadline);
    }

    /** Each spacing is charged before its keepalive is staged. */
    method StageKeepalives(ks: seq<KeepaliveEvent>, deadline: Deadline) returns (ok: bool)
      requires deadline.Valid()
      modifies this`events, deadline
      ensures deadline.Valid()
      ensures (deadline.remaining, events, ok) == Stage(old(deadline.remaining), ks, old(events))
    {
      ghost var answer := Stage(deadline.remaining, ks, events);
      for i := 0 to |ks|
        invariant deadline.Valid() && answer == Stage(deadline.remaining, ks[i..], events)
      {
        assert ks[i..][1..] == ks[i + 1..];
        var spent := deadline.ConsumeInSlices(ks[i].spacing, GetAssertionPhase);
        if spent.Err? {
          return false;
        }
        events := events + [ks[i].status];
      }
      ok := true;
    }

    /** `await_up_uv` for presence, then for verification. */
    method SettlePresence(lib: Libraries, request: Request, deadline: Deadline) returns (r: Answer)
      requires deadline.Valid()
      modifies this`pending, this`overshoot, core`signCount, core`queue, core`knobs, core`upPoked, core`uvPoked,
               deadline
      ensures deadline.Valid() && (View(deadline), r) == PresenceOn(lib, old(View(deadline)), request)
    {
      var up, latch := AwaitMode(core.upMode, core.upPoked, deadline);
      core.upPoked := latch;
      if up != Satisfied {
        return Unsettled(up);
      }
      var uv, latched := AwaitMode(core.uvMode, core.uvPoked, deadline);
      core.uvPoked := latched;
      if uv != Satisfied {
        return Unsettled(uv);
      }
      r := Process(lib, request, deadline);
    }

    method AwaitMode(mode: Mode, poked: bool, deadline: Deadline) returns (outcome: Settled, latch: bool)
      requires deadline.Valid()
      modifies deadline
      ensures deadline.Valid() && (outcome, latch, deadline.remaining) == Await(mode, poked, old(deadline.remaining))
    {
      latch := poked;
      match mode {
        case AutoApprove => outcome := Satisfied;
        case AlwaysFail => outcome := Denied;
        case RequireExplicitPoke =>
          latch := false;
          if poked {
            return Satisfied, latch;
          }
          var spent := deadline.ConsumeInSlices(POKE_POLL_SLICE, GetAssertionPhase);
          outcome := if spent.Err? then OutOfBudget else Pending;
      }
    }

    method Process(lib: Libraries, request: Request, deadline: Deadline) returns (r: Answer)
      requires deadline.Valid()
      modifies this`pending, this`overshoot, core`signCount, core`queue, core`knobs, deadline
      ensures deadline.Valid() && (View(deadline), r) == ProcessOn(lib, old(View(deadline)), request)
    {
      var delayed := ChargeDelay(deadline);
      var reply := AssertOnce(lib, request, deadline);
      r := Conclude(Deliver(reply), delayed && reply.Assertion?, deadline);
    }

    method ChargeDelay(deadline: Deadline) returns (delayed: bool)
      requires deadline.Valid()
      modifies core`knobs, deadline
      ensures deadline.Valid() && View(deadline) == Waited(old(View(deadline)))
              && delayed == old(core.knobs).delay.Some?
    {
      var delay := core.knobs.delay;
      if !core.knobs.persistent {
        core.knobs := core.knobs.(delay := None);
      }
      if delay.Some? {
        var bounded := Min(delay.value, deadline.remaining + DELAY_HARD_CAP);
        var _ := deadline.ConsumeInSlices(bounded, GetAssertionPhase);
      }
      delayed := delay.Some?;
    }

    method AssertOnce(lib: Libraries, request: Request, deadline: Deadline) returns (reply: Reply)
      modifies core`signCount, core`queue, core`knobs
      ensures (View(deadline), reply) == AssertedOn(lib, old(View(deadline)), request)
    {
      var wrongId := core.knobs.wrongId;
      reply := core.Assert(lib.signer, request, true, true, wrongId);
      if reply.Assertion? && !core.knobs.persistent {
        core.knobs := core.knobs.(wrongId := false);
      }
    }

    method Conclude(response: Answer, held: bool, deadline: Deadline) returns (r: Answer)
      modifies this`pending, this`overshoot
      ensures (View(deadline), r) == Concluded(old(View(deadline)), response, held)
    {
      r := response;
      if held {
        r := HoldBack(response, deadline);
      }
    }

    method HoldBack(response: Answer, deadline: Deadline) returns (r: Answer)
      modifies this`pending, this`overshoot
      ensures (View(deadline), r) == HeldBack(old(View(deadline)), response)
    {
      if response.Faults? {
        return response;
      }
      pending := Some(response);
      overshoot := true;
      r := KeepsAlive(PROCESSING);
    }
  }
}
