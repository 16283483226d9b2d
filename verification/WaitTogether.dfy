/** The ceremony against a token that nobody pokes. */
module WaitTogether {
  import opened Wrappers
  import opened ByteOrder
  import opened Budget
  import opened GetAssertion
  import opened GetInfo
  import opened SoftToken
  import opened Ceremony
  import opened SoftDevice
  import opened SoftLink

  /** Connected, nothing staged, no knobs, and presence or verification waits for a poke that has not come. */
  ghost predicate Waiting(s: Soft) {
    && s.open && s.events == [] && s.pending.None? && s.knobs == NO_KNOBS
    && ((s.upMode == RequireExplicitPoke && !s.upPoked)
        || (s.upMode == AutoApprove && s.uvMode == RequireExplicitPoke && !s.uvPoked))
  }

  /** How many whole poll slices fit. */
  function Polls(left: nat): (n: nat)
    ensures n == left / POKE_POLL_SLICE
  {
    if left < POKE_POLL_SLICE then 0 else 1 + Polls(left - POKE_POLL_SLICE)
  }

  /** The request sent `n` times. */
  function Asked(r: Request, n: nat): (t: Trace)
    ensures |t| == n
  {
    if n == 0 then [] else Asked(r, n - 1) + [SendAssertion(r)]
  }

  lemma {:induction false} AskedNext(t: Trace, r: Request, n: nat)
    ensures t + Asked(r, n + 1) == (t + Asked(r, n)) + [SendAssertion(r)]
    ensures t + Asked(r, n + 1) == (t + [SendAssertion(r)]) + Asked(r, n)
    decreases n
  {
    if n > 0 {
      AskedNext(t, r, n - 1);
      assert t + Asked(r, n + 1) == (t + Asked(r, n)) + [SendAssertion(r)];
    }
  }

  // ---- the keepalive loop

  /** The answer to the request when it has been sent `i` times before. */
  function AnswerAt(d: Device, t: Trace, r: Request, i: nat): Answer {
    d.behaviour(t + Asked(r, i + 1))
  }

  /** A device that keeps alive `n` times and then faults for want of budget ends the loop in a timeout. */
  lemma {:induction false} LoopTimesOut(env: Env, t: Trace, r: Request, n: nat, seen: bool)
    requires |t| + n < env.device.patience
    requires forall i: nat :: i < n ==> AnswerAt(env.device, t, r, i).KeepsAlive?
    requires AnswerAt(env.device, t, r, n) == Faults(CoreTimeout(GetAssertionPhase))
    ensures KeepaliveLoop(env, t, SendAssertion(r), seen)
         == (t + Asked(r, n + 1), Err(TimedOut(if seen || n > 0 then UserPresence else GetAssertionPhase)))
    decreases n
  {
    var u := t + [SendAssertion(r)];
    AskedNext(t, r, 0);
    assert t + Asked(r, 1) == u;
    if n > 0 {
      assert AnswerAt(env.device, t, r, 0).KeepsAlive?;
      forall i: nat | i < n ensures AnswerAt(env.device, u, r, i) == AnswerAt(env.device, t, r, i + 1) {
        AskedNext(t, r, i + 1);
      }
      AskedNext(t, r, n);
      LoopTimesOut(env, u, r, n - 1, true);
    }
  }

  // ---- the token

  /** One send: a slice spent and a keepalive, or the rest of the budget spent and a timeout. */
  lemma {:induction false} WaitStep(lib: Libraries, s: Soft, hash: seq<byte>, r: Request)
    requires Waiting(s)
    ensures SoftStep(lib, s, hash, SendAssertion(r))
         == if s.left >= POKE_POLL_SLICE then (s.(left := s.left - POKE_POLL_SLICE), KeepsAlive(UP_NEEDED))
            else (s.(left := 0), Faults(CoreTimeout(GetAssertionPhase)))
  {
    assert s.(knobs := s.knobs.(keepalives := [])) == s;
    assert s.(left := s.left, events := s.events) == s;
    assert s.(upPoked := s.upPoked, left := s.left) == s && s.(left := s.left) == s;
  }

  /** The budget after `i` whole slices. */
  function LeftAt(left: nat, i: nat): (rest: nat)
    requires i <= Polls(left)
    ensures Polls(rest) == Polls(left) - i
    decreases i
  {
    if i == 0 then left else LeftAt(left, i - 1) - POKE_POLL_SLICE
  }

  /** The token after `i` slices. */
  function Spent(now: Soft, i: nat): Soft
    requires i <= Polls(now.left)
  {
    now.(left := LeftAt(now.left, i))
  }

  lemma {:induction false} WaitNext(lib: Libraries, now: Soft, hash: seq<byte>, r: Request, i: nat)
    requires Waiting(now) && i < Polls(now.left)
    ensures SoftStep(lib, Spent(now, i), hash, SendAssertion(r)).0 == Spent(now, i + 1)
  {
    WaitStep(lib, Spent(now, i), hash, r);
  }

  lemma {:induction false} OneSendMore(lib: Libraries, s: Soft, hash: seq<byte>, u: Trace, v: Trace, r: Request,
                                       before: Soft, after: Soft)
    requires before == SoftAfter(lib, s, hash, u) && v == u + [SendAssertion(r)]
    requires SoftStep(lib, before, hash, SendAssertion(r)).0 == after
    ensures SoftAfter(lib, s, hash, v) == after
  {
    SoftMore(lib, s, hash, u, SendAssertion(r));
  }

  lemma {:induction false} WaitState(lib: Libraries, s: Soft, hash: seq<byte>, t: Trace, now: Soft, r: Request, i: nat)
    requires now == SoftAfter(lib, s, hash, t) && Waiting(now) && i <= Polls(now.left)
    ensures SoftAfter(lib, s, hash, t + Asked(r, i)) == Spent(now, i)
    decreases i
  {
    if i == 0 {
      assert t + Asked(r, 0) == t;
      assert Spent(now, 0) == now;
    } else {
      var u, v, before := t + Asked(r, i - 1), t + Asked(r, i), Spent(now, i - 1);
      WaitState(lib, s, hash, t, now, r, i - 1);
      AskedNext(t, r, i - 1);
      WaitNext(lib, now, hash, r, i - 1);
      OneSendMore(lib, s, hash, u, v, r, before, Spent(now, i));
    }
  }

  lemma {:induction false} WaitAnswer(lib: Libraries, s: Soft, hash: seq<byte>, patience: nat, t: Trace, now: Soft,
                                      r: Request, i: nat)
    requires now == SoftAfter(lib, s, hash, t) && Waiting(now) && i <= Polls(now.left)
    ensures var device := SoftEnv(lib, s, hash, patience).device;
            AnswerAt(device, t, r, i)
            == if i < Polls(now.left) then KeepsAlive(UP_NEEDED) else Faults(CoreTimeout(GetAssertionPhase))
    ensures i == Polls(now.left) ==> SoftAfter(lib, s, hash, t + Asked(r, i + 1)) == now.(left := 0)
  {
    var u := t + Asked(r, i);
    WaitState(lib, s, hash, t, now, r, i);
    AskedNext(t, r, i);
    WaitStep(lib, Spent(now, i), hash, r);
    OneStepMore(SoftStepper(lib, hash), s, u, SendAssertion(r));
  }

  /**
   A ceremony against a token that is never poked: one keepalive for every whole poll slice in the
   budget, and then a timeout that names user presence if there was one and the getAssertion phase
   if not one fits. The token's budget is spent and nothing else has changed.
   */
  lemma {:induction false} NeverPoked(lib: Libraries, s: Soft, hash: seq<byte>, patience: nat, t: Trace, now: Soft,
                                      input: Input, info: Info, r: Request, acquired: bool)
    requires now == SoftAfter(lib, s, hash, t) && Waiting(now) && |t| + now.left / POKE_POLL_SLICE < patience
    ensures var n := now.left / POKE_POLL_SLICE;
            && Exchange(SoftEnv(lib, s, hash, patience), input, t, info, r, acquired)
               == (t + Asked(r, n + 1), Err(TimedOut(if n > 0 then UserPresence else GetAssertionPhase)))
            && SoftAfter(lib, s, hash, t + Asked(r, n + 1)) == now.(left := 0)
  {
    var env, n := SoftEnv(lib, s, hash, patience), Polls(now.left);
    forall i: nat | i <= n
      ensures AnswerAt(env.device, t, r, i)
           == if i < n then KeepsAlive(UP_NEEDED) else Faults(CoreTimeout(GetAssertionPhase))
    {
      WaitAnswer(lib, s, hash, patience, t, now, r, i);
    }
    WaitAnswer(lib, s, hash, patience, t, now, r, n);
    LoopTimesOut(env, t, r, n, false);
  }
}
