/** What the soft device does over several sends of one command. */
module SoftRuns {
  import opened Wrappers
  import opened ByteOrder
  import opened Utf8
  import opened Budget
  import opened GetAssertion
  import opened GetInfo
  import opened PinToken
  import opened Assertions
  import opened SoftToken
  import opened Ceremony
  import opened SoftDevice

  /** `n` sends of the same command: the state after them and the answers. */
  function Sends(lib: Libraries, s: Soft, cmd: Call, n: nat): (r: (Soft, seq<Answer>))
    requires IsCommand(cmd)
    ensures |r.1| == n
    decreases n
  {
    if n == 0 then (s, []) else
      var (next, first) := SendOn(lib, s, cmd);
      var (end, rest) := Sends(lib, next, cmd, n - 1);
      (end, [first] + rest)
  }

  /** Connected, nothing staged, no fault to inject. */
  ghost predicate Quiet(s: Soft) {
    s.open && s.events == [] && s.pending.None? && s.knobs.injectStatus.None?
  }

  function Spacing(ks: seq<KeepaliveEvent>): nat {
    if ks == [] then 0 else ks[0].spacing + Spacing(ks[1..])
  }

  function Statuses(ks: seq<KeepaliveEvent>): seq<byte> {
    if ks == [] then [] else [ks[0].status] + Statuses(ks[1..])
  }

  function KeepAlives(statuses: seq<byte>): seq<Answer> {
    if statuses == [] then [] else [KeepsAlive(statuses[0])] + KeepAlives(statuses[1..])
  }

  lemma Associative(a: seq<byte>, b: seq<byte>, c: seq<byte>)
    ensures a + b + c == a + (b + c)
  {
  }

  lemma {:induction false} StageAll(left: nat, ks: seq<KeepaliveEvent>, events: seq<byte>)
    ensures Spacing(ks) <= left ==> Stage(left, ks, events) == (left - Spacing(ks), events + Statuses(ks), true)
    ensures Spacing(ks) > left ==> Stage(left, ks, events).0 == 0 && !Stage(left, ks, events).2
    decreases |ks|
  {
    if ks == [] {
      assert events + [] == events;
    } else if ks[0].spacing <= left {
      var here, later := [ks[0].status], Statuses(ks[1..]);
      StageAll(left - ks[0].spacing, ks[1..], events + here);
      Associative(events, here, later);
    }
  }

  /** Staged events come out one per send, in order, while there is budget. */
  lemma {:induction false} EventsDrained(lib: Libraries, s: Soft, cmd: Call, n: nat)
    requires IsCommand(cmd) && s.open && s.left > 0
    ensures var (end, answers) := Sends(lib, s, cmd, |s.events| + n);
            var (after, rest) := Sends(lib, s.(events := []), cmd, n);
            end == after && answers == KeepAlives(s.events) + rest
    decreases |s.events|
  {
    if s.events == [] {
      assert s.(events := []) == s;
      assert [] + Sends(lib, s, cmd, n).1 == Sends(lib, s, cmd, n).1;
    } else {
      var next := s.(events := s.events[1..]);
      EventsDrained(lib, next, cmd, n);
      assert [KeepsAlive(s.events[0])] + (KeepAlives(s.events[1..]) + Sends(lib, s.(events := []), cmd, n).1)
          == KeepAlives(s.events) + Sends(lib, s.(events := []), cmd, n).1;
    }
  }

  /** The first send with a keepalive sequence armed. */
  lemma {:induction false} FirstStaged(lib: Libraries, s: Soft, r: Request)
    requires Quiet(s) && !s.knobs.persistent && s.knobs.keepalives != [] && Spacing(s.knobs.keepalives) <= s.left
             && s.left > 0
    ensures var ks := s.knobs.keepalives;
            SendOn(lib, s, SendAssertion(r)) ==
            (s.(knobs := s.knobs.(keepalives := []), events := Statuses(ks)[1..], left := s.left - Spacing(ks)),
             KeepsAlive(Statuses(ks)[0]))
  {
    StageAll(s.left, s.knobs.keepalives, []);
    assert [] + Statuses(s.knobs.keepalives) == Statuses(s.knobs.keepalives);
  }

  lemma {:induction false} StatusesLength(ks: seq<KeepaliveEvent>)
    ensures |Statuses(ks)| == |ks|
  {
    if ks != [] { StatusesLength(ks[1..]); }
  }

  /**
   A one-shot keepalive sequence whose spacings fit the budget with something to spare: every
   keepalive is surfaced once and in order, the spacings are charged in full, and then the command
   is answered as it would have been without the sequence.
   */
  lemma {:induction false} KeepaliveSequence(lib: Libraries, s: Soft, r: Request)
    requires Quiet(s) && !s.knobs.persistent && Spacing(s.knobs.keepalives) < s.left
    ensures var ks, cmd := s.knobs.keepalives, SendAssertion(r);
            var (end, answers) := Sends(lib, s, cmd, |ks| + 1);
            var (after, last) := SendOn(lib, s.(knobs := s.knobs.(keepalives := []), left := s.left - Spacing(ks)),
                                        cmd);
            end == after && answers == KeepAlives(Statuses(ks)) + [last]
  {
    var ks, cmd := s.knobs.keepalives, SendAssertion(r);
    var plain := s.(knobs := s.knobs.(keepalives := []), left := s.left - Spacing(ks));
    var (after, last) := SendOn(lib, plain, cmd);
    OneSend(lib, plain, cmd);
    if ks == [] {
      assert plain == s;
      assert [] + [last] == [last];
    } else {
      var staged := plain.(events := Statuses(ks)[1..]);
      var answers := Sends(lib, staged, cmd, |ks|).1;
      FirstStaged(lib, s, r);
      StatusesLength(ks);
      SequencePlayed(lib, plain, cmd, Statuses(ks), after, last);
      SendThen(lib, s, cmd, staged, KeepsAlive(Statuses(ks)[0]), |ks|, after, answers);
    }
  }

  const TIMES_OUT: Answer := Faults(CoreTimeout(GetAssertionPhase))

  function TimeOuts(n: nat): (r: seq<Answer>)
    ensures |r| == n
  {
    if n == 0 then [] else [TIMES_OUT] + TimeOuts(n - 1)
  }

  lemma {:induction false} SpentSends(lib: Libraries, s: Soft, r: Request, n: nat)
    requires s.open && s.left == 0
    ensures Sends(lib, s, SendAssertion(r), n) == (s, TimeOuts(n))
    decreases n
  {
    if n > 0 { SpentSends(lib, s, r, n - 1); }
  }

  /**
   A sequence whose spacings do not fit: when they take the budget exactly, the first keepalive is
   surfaced and nothing after it; when they take more, not even that one. Every other send times out.
   */
  lemma {:induction false} KeepaliveSequenceCut(lib: Libraries, s: Soft, r: Request, n: nat)
    requires Quiet(s) && !s.knobs.persistent && Spacing(s.knobs.keepalives) >= s.left
    ensures var ks := s.knobs.keepalives;
            var first := if Spacing(ks) == s.left > 0 then KeepsAlive(ks[0].status) else TIMES_OUT;
            Sends(lib, s, SendAssertion(r), n + 1).1 == [first] + TimeOuts(n)
  {
    var ks, cmd := s.knobs.keepalives, SendAssertion(r);
    if s.left > 0 {
      StageAll(s.left, ks, []);
      assert [] + Statuses(ks) == Statuses(ks);
    }
    var (next, first) := SendOn(lib, s, cmd);
    SpentSends(lib, next, r, n);
    SendThen(lib, s, cmd, next, first, n, next, TimeOuts(n));
  }

  lemma {:induction false} SendThen(lib: Libraries, s: Soft, cmd: Call, next: Soft, first: Answer, n: nat, end: Soft,
                                    rest: seq<Answer>)
    requires IsCommand(cmd) && SendOn(lib, s, cmd) == (next, first) && Sends(lib, next, cmd, n) == (end, rest)
    ensures Sends(lib, s, cmd, n + 1) == (end, [first] + rest)
  {
  }

  lemma {:induction false} OneSend(lib: Libraries, s: Soft, cmd: Call)
    requires IsCommand(cmd)
    ensures var (next, answer) := SendOn(lib, s, cmd);
            Sends(lib, s, cmd, 1) == (next, [answer])
  {
    var (next, answer) := SendOn(lib, s, cmd);
    assert Sends(lib, next, cmd, 0) == (next, []);
    assert [answer] + [] == [answer];
  }

  lemma {:induction false} SequencePlayed(lib: Libraries, plain: Soft, cmd: Call, statuses: seq<byte>, after: Soft,
                                          last: Answer)
    requires IsCommand(cmd) && statuses != [] && plain.open && plain.left > 0 && plain.events == []
    requires Sends(lib, plain, cmd, 1) == (after, [last])
    ensures var (end, answers) := Sends(lib, plain.(events := statuses[1..]), cmd, |statuses|);
            end == after && [KeepsAlive(statuses[0])] + answers == KeepAlives(statuses) + [last]
  {
    var staged := plain.(events := statuses[1..]);
    assert staged.(events := []) == plain;
    EventsDrained(lib, staged, cmd, 1);
    assert [KeepsAlive(statuses[0])] + (KeepAlives(statuses[1..]) + [last]) == KeepAlives(statuses) + [last];
  }

  // ---- a persistent sequence

  /** A persistent keepalive sequence is staged again before every response, so none is ever delivered. */
  lemma {:induction false} PersistentNeverAnswers(lib: Libraries, s: Soft, r: Request, n: nat)
    requires s.open && s.pending.None? && s.knobs.injectStatus.None? && s.knobs.persistent && s.knobs.keepalives != []
    ensures forall i :: 0 <= i < n ==> !Sends(lib, s, SendAssertion(r), n).1[i].Responds?
    decreases n
  {
    if n > 0 {
      var next := SendOn(lib, s, SendAssertion(r)).0;
      PersistentStep(lib, s, r);
      PersistentNeverAnswers(lib, next, r, n - 1);
    }
  }

  lemma {:induction false} PersistentStep(lib: Libraries, s: Soft, r: Request)
    requires s.open && s.pending.None? && s.knobs.injectStatus.None? && s.knobs.persistent && s.knobs.keepalives != []
    ensures var (next, answer) := SendOn(lib, s, SendAssertion(r));
            !answer.Responds? && next.open && next.pending.None? && next.knobs == s.knobs
  {
  }

  // ---- a delay

  /** Approving both requirements at once, with a one-shot delay armed and nothing else. */
  ghost predicate Delaying(s: Soft) {
    && Quiet(s) && !s.knobs.persistent && s.knobs.keepalives == [] && s.knobs.delay.Some?
    && s.upMode == AutoApprove && s.uvMode == AutoApprove && s.left > 0
  }

  /** The state after the delay is charged, and the assertion made in it. */
  function AfterDelay(lib: Libraries, s: Soft, r: Request): (Soft, Reply) {
    AssertedOn(lib, Waited(s), r)
  }

  lemma {:induction false} DelayCharged(left: nat, d: nat)
    ensures DelayLeaves(left, Some(d)) == if d <= left then left - d else 0
  {
  }

  lemma {:induction false} DelayedFirst(lib: Libraries, s: Soft, r: Request)
    requires Delaying(s) && AfterDelay(lib, s, r).1.Assertion? && Deliver(AfterDelay(lib, s, r).1).Responds?
    ensures var (done, reply) := AfterDelay(lib, s, r);
            SendOn(lib, s, SendAssertion(r))
            == (done.(pending := Some(Deliver(reply)), overshoot := true), KeepsAlive(PROCESSING))
  {
    var taken := s.(knobs := s.knobs.(keepalives := []));
    assert taken == s;
    assert SendOn(lib, s, SendAssertion(r)) == ProcessOn(lib, s, r);
  }

  /**
   The delay knob holds the response back for two progress signals and then delivers it, exactly
   when the delay is shorter than the budget; otherwise the budget is gone and every send times out.
   */
  lemma {:induction false} DelayedDelivery(lib: Libraries, s: Soft, r: Request)
    requires Delaying(s) && AfterDelay(lib, s, r).1.Assertion? && Deliver(AfterDelay(lib, s, r).1).Responds?
    ensures var response := Deliver(AfterDelay(lib, s, r).1);
            var timeout := Faults(CoreTimeout(GetAssertionPhase));
            Sends(lib, s, SendAssertion(r), 3).1 ==
            if s.knobs.delay.value < s.left then [KeepsAlive(PROCESSING), KeepsAlive(PROCESSING), response]
            else [KeepsAlive(PROCESSING), timeout, timeout]
  {
    var cmd := SendAssertion(r);
    var (done, reply) := AfterDelay(lib, s, r);
    DelayedFirst(lib, s, r);
    DelayCharged(s.left, s.knobs.delay.value);
    var held := done.(pending := Some(Deliver(reply)), overshoot := true);
    assert held.open && held.events == [] && held.left == DelayLeaves(s.left, s.knobs.delay);
    HeldSends(lib, held, cmd, Deliver(reply));
    assert Sends(lib, s, cmd, 3).1 == [KeepsAlive(PROCESSING)] + Sends(lib, held, cmd, 2).1;
  }

  lemma {:induction false} HeldSends(lib: Libraries, s: Soft, cmd: Call, response: Answer)
    requires cmd.SendAssertion? && s.open && s.events == [] && s.pending == Some(response) && s.overshoot
    ensures Sends(lib, s, cmd, 2).1 ==
            if s.left > 0 then [KeepsAlive(PROCESSING), response]
            else [Faults(CoreTimeout(GetAssertionPhase)), Faults(CoreTimeout(GetAssertionPhase))]
  {
    var (next, first) := SendOn(lib, s, cmd);
    var (end, second) := SendOn(lib, next, cmd);
    assert Sends(lib, end, cmd, 0).1 == [];
    assert Sends(lib, next, cmd, 1).1 == [second];
  }

  // ---- explicit pokes

  /** Both requirements wait for a poke, and nothing else is armed. */
  ghost predicate Poking(s: Soft) {
    Quiet(s) && s.knobs == NO_KNOBS && s.upMode == RequireExplicitPoke && s.uvMode == RequireExplicitPoke && s.left > 0
  }

  /**
   A send is answered only if both latches are set when it is made; a presence poke that comes
   alone is used up by the send that finds verification still missing.
   */
  lemma {:induction false} BothPokesAtOnce(lib: Libraries, s: Soft, r: Request)
    requires Poking(s) && Deliver(AssertedOn(lib, s, r).1).Responds?
    ensures var (next, answer) := SendOn(lib, s, SendAssertion(r));
            && (answer.Responds? <==> s.upPoked && s.uvPoked)
            && !next.upPoked && (next.uvPoked <==> s.uvPoked && !s.upPoked)
            && (!answer.Responds? ==> next.store == s.store)
  {
    assert s.(knobs := s.knobs.(keepalives := [])) == s;
    var settled := s.(upPoked := false, uvPoked := false);
    assert Waited(settled) == settled;
    assert AssertedOn(lib, settled, r).1 == AssertedOn(lib, s, r).1;
  }

  /** What a harness and a client do to the token in turn. */
  datatype Act = PokesUp | PokesUv | Asks

  function Acted(lib: Libraries, s: Soft, r: Request, act: Act): Soft {
    match act
    case PokesUp => PokedUp(s)
    case PokesUv => PokedUv(s)
    case Asks => SendOn(lib, s, SendAssertion(r)).0
  }

  function ActedAll(lib: Libraries, s: Soft, r: Request, acts: seq<Act>): Soft
    decreases |acts|
  {
    if acts == [] then s else ActedAll(lib, Acted(lib, s, r, acts[0]), r, acts[1..])
  }

  /** The two latches after the acts: a request uses up presence, and verification with it only if both are set. */
  function Latches(up: bool, uv: bool, acts: seq<Act>): (bool, bool)
    decreases |acts|
  {
    if acts == [] then (up, uv) else
      match acts[0]
      case PokesUp => Latches(true, uv, acts[1..])
      case PokesUv => Latches(up, true, acts[1..])
      case Asks => Latches(false, uv && !up, acts[1..])
  }

  lemma {:induction false} PokedStep(lib: Libraries, s: Soft, r: Request)
    requires Poking(s) && s.left > POKE_POLL_SLICE
    ensures var (next, answer) := SendOn(lib, s, SendAssertion(r));
            && Poking(next) && next.left >= s.left - POKE_POLL_SLICE
            && !next.upPoked && (next.uvPoked <==> s.uvPoked && !s.upPoked)
            && (answer == KeepsAlive(UP_NEEDED) <==> !(s.upPoked && s.uvPoked))
  {
    assert s.(knobs := s.knobs.(keepalives := [])) == s;
    var settled := s.(upPoked := false, uvPoked := false);
    assert Waited(settled) == settled;
  }

  /**
   Over every run of pokes and requests that the budget covers: a request made after it waits
   exactly when one of the two latches is not set, and the latches are those of the acts alone.
   */
  lemma {:induction false} PokedRuns(lib: Libraries, s: Soft, r: Request, acts: seq<Act>)
    requires Poking(s) && s.left > POKE_POLL_SLICE * (|acts| + 1)
    ensures var end := ActedAll(lib, s, r, acts);
            && Poking(end) && (end.upPoked, end.uvPoked) == Latches(s.upPoked, s.uvPoked, acts)
            && (SendOn(lib, end, SendAssertion(r)).1 == KeepsAlive(UP_NEEDED) <==> !(end.upPoked && end.uvPoked))
    decreases |acts|
  {
    if acts == [] {
      PokedStep(lib, s, r);
    } else {
      if acts[0].Asks? { PokedStep(lib, s, r); }
      PokedRuns(lib, Acted(lib, s, r, acts[0]), r, acts[1..]);
    }
  }

  // ---- faults and refusals

  /** An injected status is answered to the next command of any kind, and only to that one unless it persists. */
  lemma {:induction false} InjectedOnce(lib: Libraries, s: Soft, cmd: Call, status: byte)
    requires IsCommand(cmd) && s.open && s.left > 0 && s.events == [] && s.pending.None?
    requires s.knobs.injectStatus == Some(status)
    ensures var (next, answer) := SendOn(lib, s, cmd);
            && answer == Responds(status, [])
            && next == if s.knobs.persistent then s else s.(knobs := s.knobs.(injectStatus := None))
  {
  }

  /** With presence or verification set to fail the request is denied with 0x27 and nothing is signed. */
  lemma {:induction false} AlwaysFails(lib: Libraries, s: Soft, r: Request)
    requires Quiet(s) && s.left > 0 && s.knobs.keepalives == []
    requires s.upMode == AlwaysFail || (s.upMode == AutoApprove && s.uvMode == AlwaysFail)
    ensures SendOn(lib, s, SendAssertion(r)) == (s, Responds(0x27, []))
  {
  }

  /** The wrong-id knob is used up by an assertion and by nothing less, unless it persists. */
  lemma {:induction false} WrongIdOnce(lib: Libraries, s: Soft, r: Request)
    requires Quiet(s) && s.left > 0 && s.knobs.keepalives == [] && s.knobs.delay.None? && s.knobs.wrongId
    requires s.upMode == AutoApprove && s.uvMode == AutoApprove
    ensures SendOn(lib, s, SendAssertion(r)).0.knobs.wrongId <==> s.knobs.persistent || Matching(s.store, r) == []
  {
  }

  /** Waiting for a poke costs 100 ms and is answered with keepalive 0x02; without that much left it times out. */
  lemma {:induction false} WaitingAnswers(lib: Libraries, s: Soft, r: Request)
    requires Quiet(s) && s.left > 0 && s.knobs.keepalives == [] && s.upMode == RequireExplicitPoke && !s.upPoked
    ensures SendOn(lib, s, SendAssertion(r)) ==
            if s.left >= 100_000_000 then (s.(left := s.left - 100_000_000), KeepsAlive(0x02))
            else (s.(left := 0), Faults(CoreTimeout(GetAssertionPhase)))
  {
  }

  /** Before any command: a closed channel, a spent budget, a staged event and a response held back, in that order. */
  lemma {:induction false} SendOrder(lib: Libraries, s: Soft, cmd: Call)
    requires IsCommand(cmd)
    ensures !s.open ==> SendOn(lib, s, cmd) == (s, Faults(ChannelClosed))
    ensures s.open && s.left == 0 ==>
              SendOn(lib, s, cmd) == (s, Faults(CoreTimeout(match cmd
                                                            case ProbeInfo => GetInfoPhase
                                                            case SendPin(_) => ClientPinPhase
                                                            case _ => GetAssertionPhase)))
    ensures s.open && s.left > 0 && |s.events| > 0 ==>
              SendOn(lib, s, cmd) == (s.(events := s.events[1..]), KeepsAlive(s.events[0]))
    ensures s.open && s.left > 0 && s.events == [] && s.pending.Some? ==>
              SendOn(lib, s, cmd) == if s.overshoot then (s.(overshoot := false), KeepsAlive(0x01))
                                     else (s.(pending := None), s.pending.value)
  {
  }

  /** What getInfo tells of the token: the built-in verifier by its mode, the PIN by whether one was armed. */
  lemma {:induction false} InfoTells(t: Token, uvCapable: bool, puat: bool)
    ensures var i := InfoOf(t, uvCapable, puat);
            && i.versions == [Ascii("FIDO_2_0"), Ascii("FIDO_2_1")] && i.aaguid == Ascii("fidoh-soft-token")
            && i.protocols == ProtocolsTold(t) && i.options == Some(OptionsTold(t, uvCapable, puat))
  {
    NamesTold();
    assert InfoOf(t, uvCapable, puat).options.value == OptionsTold(t, uvCapable, puat);
  }

  /** Those set, or protocol two before one; none without a PIN. */
  function ProtocolsTold(t: Token): Option<seq<Protocol>> {
    if t.pin.None? then None else if t.protocols.None? then Some([Two, One]) else t.protocols
  }

  function OptionsTold(t: Token, uvCapable: bool, puat: bool): map<seq<byte>, bool> {
    var always := map[Ascii("rk") := true, Ascii("up") := true, Ascii("uv") := uvCapable];
    if t.pin.None? then always
    else if puat then always + map[Ascii("clientPin") := true, Ascii("pinUvAuthToken") := true]
    else always + map[Ascii("clientPin") := true]
  }

  lemma {:induction false} NamesTold()
    ensures FIDO_2_0 == Ascii("FIDO_2_0") && FIDO_2_1 == Ascii("FIDO_2_1") && AAGUID == Ascii("fidoh-soft-token")
    ensures RK == Ascii("rk") && UP.utf8 == Ascii("up") && UV.utf8 == Ascii("uv")
    ensures OPTION_CLIENT_PIN == Ascii("clientPin") && OPTION_PIN_UV_AUTH_TOKEN == Ascii("pinUvAuthToken")
  {
    assert FIDO_2_0 == Ascii("FIDO_2_0") && FIDO_2_1 == Ascii("FIDO_2_1");
    assert AAGUID == Ascii("fidoh-soft-token");
    assert OPTION_CLIENT_PIN == Ascii("clientPin");
    assert OPTION_PIN_UV_AUTH_TOKEN == Ascii("pinUvAuthToken");
  }
}
