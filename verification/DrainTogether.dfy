/** A multi-credential getAssertion with both parties running: the ceremony drains the soft token. */
module DrainTogether {
  import opened Wrappers
  import opened ByteOrder
  import opened Budget
  import opened GetAssertion
  import opened GetAssertionFacts
  import opened GetInfo
  import opened Assertions
  import opened SoftToken
  import opened Ceremony
  import opened SoftDevice
  import opened Sizes
  import opened SoftLink

  /** A SHA-256 digest is 32 bytes, and signatures fit in memory. */
  ghost predicate GoodSigner(k: Signer) {
    (forall m :: |k.sha256(m)| == 32) && forall key, m :: |k.sign(key, m)| < U32
  }

  ghost predicate GoodCredentials(cs: seq<Credential>) {
    forall i :: 0 <= i < |cs| ==> |cs[i].id| < U32 && |cs[i].userHandle| < U32
  }

  /** An assertion goes through the wire unchanged. */
  lemma {:induction false} AssertionDelivered(k: Signer, c: Credential, hash: seq<byte>, count: nat,
                                              number: Option<nat>)
    requires GoodSigner(k) && |c.id| < U32 && |c.userHandle| < U32 && (number.Some? ==> number.value < U64)
    ensures var r := AssertionOf(k, c, c.id, hash, true, true, count, number);
            var answer := Deliver(Assertion(r));
            answer.Responds? && Decoded(answer.status, answer.body, SourceDecoders().assertion) == Ok(r)
  {
    var r := AssertionOf(k, c, c.id, hash, true, true, count, number);
    assert TypedResponse(r) && ModestResponse(r);
    AssertionBody(r);
  }

  /** The token with its first parked credential signed for. */
  function Popped(now: Soft): Soft
    requires now.store.queue != []
  {
    now.(store := now.store.(queue := now.store.queue[1..], signCount := (now.store.signCount + 1) % U32))
  }

  /** The assertion it makes then. */
  function NextResponse(k: Signer, now: Soft, hash: seq<byte>): Response
    requires now.store.queue != [] && NextInStore(now.store)
  {
    var c := now.store.credentials[now.store.queue[0].index];
    AssertionOf(k, c, c.id, hash, true, true, (now.store.signCount + 1) % U32, None)
  }

  /** A credential is parked whose presence and verification were given. */
  ghost predicate HasNext(now: Soft) {
    && now.store.queue != [] && NextInStore(now.store) && now.store.queue[0].up && now.store.queue[0].uv
    && GoodCredentials(now.store.credentials)
  }

  /** How a token drains: it pops what is parked and sends it, and refuses when nothing is. */
  ghost predicate Drains(step: Stepper, k: Signer, hash: seq<byte>) {
    && (forall x: Soft :: HasNext(x) ==> Popping(step, k, hash, x))
    && forall x: Soft :: x.store.queue == [] ==> step(x, DrainNext) == (x, Responds(NOT_ALLOWED, []))
  }

  ghost predicate Popping(step: Stepper, k: Signer, hash: seq<byte>, x: Soft)
    requires HasNext(x)
  {
    var (next, answer) := step(x, DrainNext);
    next == Popped(x) && answer.Responds?
    && Decoded(answer.status, answer.body, SourceDecoders().assertion) == Ok(NextResponse(k, x, hash))
  }

  lemma {:induction false} SoftDrains(lib: Libraries, hash: seq<byte>)
    requires GoodSigner(lib.signer)
    ensures Drains(SoftStepper(lib, hash), lib.signer, hash)
  {
    var step := SoftStepper(lib, hash);
    forall x: Soft | HasNext(x) ensures Popping(step, lib.signer, hash, x) {
      SoftPops(lib, hash, x);
    }
    forall x: Soft | x.store.queue == [] ensures step(x, DrainNext) == (x, Responds(NOT_ALLOWED, [])) {
      assert SoftStep(lib, x, hash, DrainNext) == (x, Responds(NOT_ALLOWED, []));
    }
  }

  lemma {:induction false} SoftPops(lib: Libraries, hash: seq<byte>, x: Soft)
    requires GoodSigner(lib.signer) && HasNext(x)
    ensures Popping(SoftStepper(lib, hash), lib.signer, hash, x)
  {
    var c := x.store.credentials[x.store.queue[0].index];
    AssertionDelivered(lib.signer, c, hash, (x.store.signCount + 1) % U32, None);
    assert SoftStep(lib, x, hash, DrainNext) == (Popped(x), Deliver(Assertion(NextResponse(lib.signer, x, hash))));
  }

  /** Surroundings with the source's decoders and a device that steps from `s`. */
  ghost predicate Linked(env: Env, step: Stepper, s: Soft) {
    env.decoders == SourceDecoders() && env.device == StepperDevice(step, s, env.device.patience)
  }

  /** One drain hop with a credential parked. */
  lemma {:induction false} DrainHopAnswered(env: Env, step: Stepper, s: Soft, k: Signer, hash: seq<byte>, t: Trace,
                                            now: Soft)
    requires Linked(env, step, s) && |t| < env.device.patience && now == After(step, s, t) && HasNext(now)
             && Popping(step, k, hash, now)
    ensures DrainHop(env, t) == (t + [DrainNext], Ok(NextResponse(k, now, hash)))
    ensures After(step, s, t + [DrainNext]) == Popped(now)
  {
    var (next, answer) := step(now, DrainNext);
    StepperHop(env, step, s, t, DrainNext, GetNextAssertionPhase, now, next, answer);
  }

  /** One drain hop with nothing parked. */
  lemma {:induction false} DrainHopRefused(env: Env, step: Stepper, s: Soft, t: Trace, now: Soft)
    requires Linked(env, step, s) && |t| < env.device.patience && now == After(step, s, t)
    requires step(now, DrainNext) == (now, Responds(NOT_ALLOWED, []))
    ensures DrainHop(env, t) == (t + [DrainNext], Err(Ctap(NOT_ALLOWED)))
  {
    StepperHop(env, step, s, t, DrainNext, GetNextAssertionPhase, now, now, Responds(NOT_ALLOWED, []));
  }

  // ---- the drain as a whole: hop `i` is made after `i` earlier ones

  function Hooks(n: nat): Trace {
    if n == 0 then [] else Hooks(n - 1) + [DrainNext]
  }

  lemma {:induction false} HooksNext(t: Trace, n: nat)
    ensures t + Hooks(n + 1) == (t + Hooks(n)) + [DrainNext] && |Hooks(n)| == n
    ensures t + Hooks(n + 1) == (t + [DrainNext]) + Hooks(n)
    decreases n
  {
    if n > 0 {
      HooksNext(t, n - 1);
      assert t + Hooks(n + 1) == (t + Hooks(n)) + [DrainNext];
      assert (t + [DrainNext]) + Hooks(n) == ((t + [DrainNext]) + Hooks(n - 1)) + [DrainNext];
    } else {
      assert Hooks(1) == [] + [DrainNext];
    }
  }

  /** Hop `i` from `t` on is answered with `xs[i]`. */
  ghost predicate HopsGive(env: Env, t: Trace, xs: seq<Response>) {
    forall i :: 0 <= i < |xs| ==> DrainHop(env, t + Hooks(i)) == (t + Hooks(i + 1), Ok(xs[i]))
  }

  lemma {:induction false} HopsShift(env: Env, t: Trace, xs: seq<Response>)
    requires xs != [] && HopsGive(env, t, xs)
    ensures DrainHop(env, t) == (t + [DrainNext], Ok(xs[0])) && HopsGive(env, t + [DrainNext], xs[1..])
  {
    var u, rest := t + [DrainNext], xs[1..];
    HooksNext(t, 0);
    assert t + Hooks(0) == t;
    assert DrainHop(env, t + Hooks(0)) == (t + Hooks(1), Ok(xs[0]));
    forall i | 0 <= i < |rest| ensures DrainHop(env, u + Hooks(i)) == (u + Hooks(i + 1), Ok(rest[i])) {
      HooksNext(t, i);
      HooksNext(t, i + 1);
      assert DrainHop(env, t + Hooks(i + 1)) == (t + Hooks(i + 2), Ok(xs[i + 1]));
    }
  }

  /** A drain whose hops are all answered. */
  lemma {:induction false} DrainAllHooks(env: Env, t: Trace, xs: seq<Response>)
    requires HopsGive(env, t, xs)
    ensures DrainAll(env, t, |xs|) == (t + Hooks(|xs|), Ok(xs))
    decreases |xs|
  {
    if xs == [] {
      assert t + [] == t;
    } else {
      HopsShift(env, t, xs);
      DrainAllHooks(env, t + [DrainNext], xs[1..]);
      HooksNext(t, |xs| - 1);
      assert [xs[0]] + xs[1..] == xs;
    }
  }

  /** A drain whose hops are answered up to one that is refused. */
  lemma {:induction false} DrainStops(env: Env, t: Trace, xs: seq<Response>, n: nat, e: CeremonyError)
    requires |xs| < n && HopsGive(env, t, xs)
    requires DrainHop(env, t + Hooks(|xs|)) == (t + Hooks(|xs| + 1), Err(e))
    ensures DrainAll(env, t, n) == (t + Hooks(|xs| + 1), Err(e))
    decreases |xs|
  {
    if xs == [] {
      assert t + Hooks(0) == t;
    } else {
      HopsShift(env, t, xs);
      HooksNext(t, |xs| - 1);
      HooksNext(t, |xs|);
      DrainStops(env, t + [DrainNext], xs[1..], n - 1, e);
    }
  }

  /** The credentials at `m` are parked. */
  ghost predicate Parking(now: Soft, m: seq<nat>) {
    && GoodCredentials(now.store.credentials) && now.store.queue == ParkedRest(m, true, true)
    && forall i :: 0 <= i < |m| ==> m[i] < |now.store.credentials|
  }

  /** What `n` drain hops leave of the token. */
  function AfterDrain(now: Soft, n: nat): Soft
    requires n <= |now.store.queue|
  {
    now.(store := now.store.(queue := now.store.queue[n..], signCount := CountAfter(now.store.signCount, n)))
  }

  lemma {:induction false} CountOnce(count: nat, n: nat)
    ensures CountAfter(count, n + 1) == (CountAfter(count, n) + 1) % U32
    decreases n
  {
    if n > 0 { CountOnce((count + 1) % U32, n - 1); }
  }

  lemma {:induction false} DrainStep(now: Soft, m: seq<nat>, n: nat)
    requires Parking(now, m) && n < |m|
    ensures HasNext(AfterDrain(now, n)) && AfterDrain(now, n).store.queue[0] == Parked(m[n], true, true)
    ensures AfterDrain(now, n + 1) == Popped(AfterDrain(now, n))
  {
    CountOnce(now.store.signCount, n);
    assert now.store.queue[n..][1..] == now.store.queue[n + 1..];
  }

  lemma {:induction false} DrainStateAt(env: Env, step: Stepper, s: Soft, k: Signer, hash: seq<byte>, t: Trace,
                                        now: Soft, m: seq<nat>, n: nat)
    requires Linked(env, step, s) && Drains(step, k, hash) && Parking(now, m)
    requires n <= |m| && |t| + |m| <= env.device.patience && now == After(step, s, t)
    ensures After(step, s, t + Hooks(n)) == AfterDrain(now, n) && |t + Hooks(n)| == |t| + n
    decreases n
  {
    if n == 0 {
      assert t + [] == t;
      UndrainedYet(now);
    } else {
      var before, u := AfterDrain(now, n - 1), t + Hooks(n - 1);
      DrainStateAt(env, step, s, k, hash, t, now, m, n - 1);
      DrainStep(now, m, n - 1);
      HooksNext(t, n - 1);
      assert Popping(step, k, hash, before);
      DrainHopAnswered(env, step, s, k, hash, u, before);
    }
  }

  lemma {:induction false} UndrainedYet(now: Soft)
    ensures AfterDrain(now, 0) == now
  {
    assert now.store.(queue := now.store.queue[0..]) == now.store;
  }

  function RestFrom(k: Signer, now: Soft, m: seq<nat>, hash: seq<byte>): (r: seq<Response>)
    requires forall i :: 0 <= i < |m| ==> m[i] < |now.store.credentials|
    ensures |r| == |m|
  {
    RestOf(k, now.store.credentials, m, hash, true, true, now.store.signCount)
  }

  lemma {:induction false} DrainAnswerAt(env: Env, step: Stepper, s: Soft, k: Signer, hash: seq<byte>, t: Trace,
                                         now: Soft, m: seq<nat>, i: nat)
    requires Linked(env, step, s) && Drains(step, k, hash) && Parking(now, m)
    requires i < |m| && |t| + |m| <= env.device.patience && now == After(step, s, t)
    ensures DrainHop(env, t + Hooks(i)) == (t + Hooks(i + 1), Ok(RestFrom(k, now, m, hash)[i]))
  {
    DrainStateAt(env, step, s, k, hash, t, now, m, i);
    NextOfRest(k, hash, now, m, i);
    HooksNext(t, i);
    DrainHopAnswered(env, step, s, k, hash, t + Hooks(i), AfterDrain(now, i));
  }

  lemma {:induction false} NextOfRest(k: Signer, hash: seq<byte>, now: Soft, m: seq<nat>, i: nat)
    requires Parking(now, m) && i < |m|
    ensures HasNext(AfterDrain(now, i)) && NextResponse(k, AfterDrain(now, i), hash) == RestFrom(k, now, m, hash)[i]
  {
    DrainStep(now, m, i);
    RestAt(k, now.store.credentials, m, hash, true, true, now.store.signCount, i);
  }

  /** Everything parked is drained, each credential once and in order. */
  lemma {:induction false} DrainAnswered(env: Env, step: Stepper, s: Soft, k: Signer, hash: seq<byte>, t: Trace,
                                         now: Soft, m: seq<nat>)
    requires Linked(env, step, s) && Drains(step, k, hash) && Parking(now, m)
    requires |t| + |m| <= env.device.patience && now == After(step, s, t)
    ensures DrainAll(env, t, |m|) == (t + Hooks(|m|), Ok(RestFrom(k, now, m, hash)))
    ensures After(step, s, t + Hooks(|m|)) == AfterDrain(now, |m|)
  {
    var xs := RestFrom(k, now, m, hash);
    forall i | 0 <= i < |xs| ensures DrainHop(env, t + Hooks(i)) == (t + Hooks(i + 1), Ok(xs[i])) {
      DrainAnswerAt(env, step, s, k, hash, t, now, m, i);
    }
    DrainAllHooks(env, t, xs);
    DrainStateAt(env, step, s, k, hash, t, now, m, |m|);
  }

  /** Asking for more than is parked ends in a refusal. */
  lemma {:induction false} DrainRefused(env: Env, step: Stepper, s: Soft, k: Signer, hash: seq<byte>, t: Trace,
                                        now: Soft, m: seq<nat>, n: nat)
    requires Linked(env, step, s) && Drains(step, k, hash) && Parking(now, m)
    requires |m| < n && |t| + n <= env.device.patience && now == After(step, s, t)
    ensures DrainAll(env, t, n) == (t + Hooks(|m| + 1), Err(Ctap(NOT_ALLOWED)))
  {
    var xs := RestFrom(k, now, m, hash);
    forall i | 0 <= i < |xs| ensures DrainHop(env, t + Hooks(i)) == (t + Hooks(i + 1), Ok(xs[i])) {
      DrainAnswerAt(env, step, s, k, hash, t, now, m, i);
    }
    DrainStateAt(env, step, s, k, hash, t, now, m, |m|);
    HooksNext(t, |m|);
    DrainHopRefused(env, step, s, t + Hooks(|m|), AfterDrain(now, |m|));
    DrainStops(env, t, xs, n, Ctap(NOT_ALLOWED));
  }

  // ---- the whole exchange

  /** Presence and verification are granted at once, nothing else is going on. */
  ghost predicate Approving(now: Soft) {
    Calm(now) && now.upMode == AutoApprove && now.uvMode == AutoApprove && GoodCredentials(now.store.credentials)
  }

  /** The token after the request, and the first assertion. */
  function AfterRequest(lib: Libraries, now: Soft, r: Request): Soft {
    now.(store := AssertOn(lib.signer, now.store, r, true, true, false).0)
  }

  function FirstResponse(k: Signer, now: Soft, r: Request): Response
    requires Matching(now.store, r) != []
  {
    var m := Matching(now.store, r);
    var c := now.store.credentials[m[0]];
    AssertionOf(k, c, c.id, r.clientDataHash, true, true, (now.store.signCount + 1) % U32,
                if |m| > 1 then Some(|m|) else None)
  }

  lemma {:induction false} RequestProcessed(lib: Libraries, now: Soft, r: Request, hash: seq<byte>)
    requires Approving(now) && Matching(now.store, r) != []
    ensures SoftStep(lib, now, hash, SendAssertion(r))
         == (AfterRequest(lib, now, r), Deliver(Assertion(FirstResponse(lib.signer, now, r))))
  {
    assert now.(knobs := now.knobs.(keepalives := [])) == now;
    assert now.(left := now.left, events := now.events) == now;
    assert now.(upPoked := now.upPoked, left := now.left) == now
           && now.(uvPoked := now.uvPoked, left := now.left) == now;
    assert Waited(now) == now;
    assert AssertedOn(lib, now, r) == (AfterRequest(lib, now, r), Assertion(FirstResponse(lib.signer, now, r)));
  }

  /** The exchange of the request alone: the first match, and it is on any allow list sent. */
  lemma {:induction false} FirstAnswered(lib: Libraries, s: Soft, hash: seq<byte>, patience: nat, t: Trace, now: Soft,
                                         r: Request)
    requires |t| < patience && now == SoftAfter(lib, s, hash, t) && Approving(now) && GoodSigner(lib.signer)
    requires Matching(now.store, r) != [] && |Matching(now.store, r)| < U64
    ensures FirstAssertion(SoftEnv(lib, s, hash, patience), t, r)
         == (t + [SendAssertion(r)], Ok(FirstResponse(lib.signer, now, r)))
    ensures SoftAfter(lib, s, hash, t + [SendAssertion(r)]) == AfterRequest(lib, now, r)
  {
    var first := FirstResponse(lib.signer, now, r);
    var answer := Deliver(Assertion(first));
    FirstFine(lib.signer, now, r);
    RequestProcessed(lib, now, r, hash);
    SoftHop(lib, s, hash, patience, t, SendAssertion(r), GetAssertionPhase, now, AfterRequest(lib, now, r), answer);
    FirstDecoded(SoftEnv(lib, s, hash, patience), t, r, answer, first);
  }

  lemma {:induction false} FirstFine(k: Signer, now: Soft, r: Request)
    requires Approving(now) && GoodSigner(k) && Matching(now.store, r) != [] && |Matching(now.store, r)| < U64
    ensures var first := FirstResponse(k, now, r);
            var answer := Deliver(Assertion(first));
            && answer.Responds? && Decoded(answer.status, answer.body, SourceDecoders().assertion) == Ok(first)
            && Allowed(r.allowList, first.credential.id)
  {
    FirstSelected(now.store, r);
    FirstDelivered(k, now, r);
  }

  lemma {:induction false} FirstDelivered(k: Signer, now: Soft, r: Request)
    requires Approving(now) && GoodSigner(k) && Matching(now.store, r) != [] && |Matching(now.store, r)| < U64
    ensures var first := FirstResponse(k, now, r);
            var answer := Deliver(Assertion(first));
            answer.Responds? && Decoded(answer.status, answer.body, SourceDecoders().assertion) == Ok(first)
  {
    var m := Matching(now.store, r);
    var c, number := now.store.credentials[m[0]], if |m| > 1 then Some(|m|) else None;
    var count := (now.store.signCount + 1) % U32;
    assert FirstResponse(k, now, r) == AssertionOf(k, c, c.id, r.clientDataHash, true, true, count, number);
    AssertionDelivered(k, c, r.clientDataHash, count, number);
  }

  lemma {:induction false} FirstSelected(s: Store, r: Request)
    requires Matching(s, r) != []
    ensures Allowed(r.allowList, s.credentials[Matching(s, r)[0]].id)
  {
    MatchingExact(s.credentials, r, 0);
    assert Matching(s, r)[0] in Matching(s, r);
  }

  lemma {:induction false} FirstDecoded(env: Env, t: Trace, r: Request, answer: Answer, first: Response)
    requires Hop(env, t, SendAssertion(r), GetAssertionPhase) == (t + [SendAssertion(r)], Ok(answer))
             && answer.Responds?
    requires Decoded(answer.status, answer.body, env.decoders.assertion) == Ok(first)
             && Allowed(r.allowList, first.credential.id)
    ensures FirstAssertion(env, t, r) == (t + [SendAssertion(r)], Ok(first))
  {
    assert KeepaliveLoop(env, t, SendAssertion(r), false) == (t + [SendAssertion(r)], Ok(answer));
  }

  /** From the first assertion to the outcome. */
  lemma {:induction false} ExchangeFrom(env: Env, input: Input, t: Trace, info: Info, r: Request, acquired: bool,
                                        u: Trace, first: Response,
                                        rest: Ended<seq<Response>>)
    requires FirstAssertion(env, t, r) == (u, Ok(first)) && input.drain
    requires rest == DrainAll(env, u, if first.Number() > 1 then first.Number() - 1 else 0)
    ensures Exchange(env, input, t, info, r, acquired) ==
            (rest.0, if rest.1.Err? then Err(rest.1.error)
                     else Ok(Outcome([first] + rest.1.value, info, if acquired then PinUvAuthToken else Effective(r))))
  {
  }

  /** The exchange against anything that drains, with `rest` parked after the first assertion. */
  lemma {:induction false} ExchangeDrains(env: Env, step: Stepper, s: Soft, k: Signer, hash: seq<byte>, input: Input,
                                          t: Trace, info: Info,
                                          r: Request, acquired: bool, u: Trace, first: Response, parked: Soft,
                                          rest: seq<nat>)
    requires Linked(env, step, s) && Drains(step, k, hash) && Parking(parked, rest) && input.drain
    requires FirstAssertion(env, t, r) == (u, Ok(first)) && first.Number() == |rest| + 1
    requires |u| + |rest| <= env.device.patience && parked == After(step, s, u)
    ensures Exchange(env, input, t, info, r, acquired) ==
            (u + Hooks(|rest|),
             Ok(Outcome([first] + RestFrom(k, parked, rest, hash), info,
                        if acquired then PinUvAuthToken else Effective(r))))
    ensures After(step, s, u + Hooks(|rest|)) == AfterDrain(parked, |rest|)
  {
    DrainAnswered(env, step, s, k, hash, u, parked, rest);
    ExchangeFrom(env, input, t, info, r, acquired, u, first, DrainAll(env, u, |rest|));
  }

  lemma {:induction false} ExchangeRefused(env: Env, step: Stepper, s: Soft, k: Signer, hash: seq<byte>, input: Input,
                                           t: Trace, info: Info,
                                           r: Request, acquired: bool, u: Trace, first: Response, parked: Soft,
                                           rest: seq<nat>, n: nat)
    requires Linked(env, step, s) && Drains(step, k, hash) && Parking(parked, rest) && input.drain
    requires FirstAssertion(env, t, r) == (u, Ok(first)) && first.Number() == n + 1 && |rest| < n
    requires |u| + n <= env.device.patience && parked == After(step, s, u)
    ensures Exchange(env, input, t, info, r, acquired) == (u + Hooks(|rest| + 1), Err(Ctap(NOT_ALLOWED)))
  {
    DrainRefused(env, step, s, k, hash, u, parked, rest, n);
    ExchangeFrom(env, input, t, info, r, acquired, u, first, DrainAll(env, u, n));
  }

  /** What the request parks: the further matches, eight of them at most, and nothing new for a single match. */
  lemma {:induction false} RequestParks(lib: Libraries, now: Soft, r: Request)
    requires Approving(now) && Matching(now.store, r) != [] && (|Matching(now.store, r)| == 1 ==> now.store.queue == [])
    ensures var m, parked := Matching(now.store, r), AfterRequest(lib, now, r);
            && Parking(parked, if |m| <= 9 then m[1..] else m[1..9])
            && FirstResponse(lib.signer, now, r).Number() == |m|
            && parked.store.signCount == (now.store.signCount + 1) % U32
            && parked.store.credentials == now.store.credentials
  {
    var m := Matching(now.store, r);
    if |m| == 1 { assert m[1..] == []; }
    if |m| > 9 { assert ParkedRest(m[1..], true, true)[..8] == ParkedRest(m[1..9], true, true); }
  }

  /** All the assertions for the credentials at `m`, under the counter values that follow the token's. */
  function AllResponses(k: Signer, now: Soft, r: Request): seq<Response>
    requires Matching(now.store, r) != []
  {
    [FirstResponse(k, now, r)]
    + RestOf(k, now.store.credentials, Matching(now.store, r)[1..], r.clientDataHash, true, true,
             (now.store.signCount + 1) % U32)
  }

  /**
   Both parties on a request that matches one to nine credentials: the ceremony returns an assertion
   of each, in store order, under consecutive counter values, and the token's queue is empty again.
   */
  lemma {:induction false} CeremonyDrains(lib: Libraries, s: Soft, hash: seq<byte>, patience: nat, t: Trace, now: Soft,
                                          input: Input, info: Info, r: Request, acquired: bool, m: seq<nat>)
    requires now == SoftAfter(lib, s, hash, t) && Approving(now) && GoodSigner(lib.signer) && input.drain
             && r.clientDataHash == hash
    requires m == Matching(now.store, r) && 1 <= |m| <= 9 && |t| + |m| <= patience
             && (|m| == 1 ==> now.store.queue == [])
    ensures Exchange(SoftEnv(lib, s, hash, patience), input, t, info, r, acquired) ==
            (t + [SendAssertion(r)] + Hooks(|m| - 1),
             Ok(Outcome(AllResponses(lib.signer, now, r), info, if acquired then PinUvAuthToken else Effective(r))))
    ensures SoftAfter(lib, s, hash, t + [SendAssertion(r)] + Hooks(|m| - 1))
         == now.(store := now.store.(queue := [], signCount := CountAfter(now.store.signCount, |m|)))
  {
    var u, parked, first := t + [SendAssertion(r)], AfterRequest(lib, now, r), FirstResponse(lib.signer, now, r);
    FirstAnswered(lib, s, hash, patience, t, now, r);
    RequestParks(lib, now, r);
    SoftExchangeDrains(lib, s, hash, patience, input, t, info, r, acquired, u, first, parked, m[1..]);
    ParkedDrained(lib, now, r, m);
  }

  /** The exchange against the token, with `rest` parked after the first assertion. */
  lemma {:induction false} SoftExchangeDrains(lib: Libraries, s: Soft, hash: seq<byte>, patience: nat, input: Input,
                                              t: Trace, info: Info, r: Request, acquired: bool, u: Trace,
                                              first: Response, parked: Soft, rest: seq<nat>)
    requires GoodSigner(lib.signer) && Parking(parked, rest) && input.drain && |u| + |rest| <= patience
    requires FirstAssertion(SoftEnv(lib, s, hash, patience), t, r) == (u, Ok(first)) && first.Number() == |rest| + 1
    requires parked == SoftAfter(lib, s, hash, u)
    ensures Exchange(SoftEnv(lib, s, hash, patience), input, t, info, r, acquired) ==
            (u + Hooks(|rest|),
             Ok(Outcome([first] + RestFrom(lib.signer, parked, rest, hash), info,
                        if acquired then PinUvAuthToken else Effective(r))))
    ensures SoftAfter(lib, s, hash, u + Hooks(|rest|)) == AfterDrain(parked, |rest|)
  {
    SoftDrains(lib, hash);
    ExchangeDrains(SoftEnv(lib, s, hash, patience), SoftStepper(lib, hash), s, lib.signer, hash, input, t, info, r,
                   acquired, u, first, parked, rest);
  }

  lemma {:induction false} ParkedDrained(lib: Libraries, now: Soft, r: Request, m: seq<nat>)
    requires Approving(now) && m == Matching(now.store, r) && 1 <= |m| <= 9 && (|m| == 1 ==> now.store.queue == [])
    ensures var parked := AfterRequest(lib, now, r);
            && Parking(parked, m[1..])
            && AfterDrain(parked, |m| - 1)
               == now.(store := now.store.(queue := [], signCount := CountAfter(now.store.signCount, |m|)))
            && [FirstResponse(lib.signer, now, r)] + RestFrom(lib.signer, parked, m[1..], r.clientDataHash)
               == AllResponses(lib.signer, now, r)
  {
    RequestParks(lib, now, r);
  }

  /** With ten or more matches the ceremony fails on the tenth assertion, which the token never parked. */
  lemma {:induction false} CeremonyOverflows(lib: Libraries, s: Soft, hash: seq<byte>, patience: nat, t: Trace,
                                             now: Soft,
                                             input: Input, info: Info, r: Request, acquired: bool, m: seq<nat>)
    requires now == SoftAfter(lib, s, hash, t) && Approving(now) && GoodSigner(lib.signer) && input.drain
             && r.clientDataHash == hash
    requires m == Matching(now.store, r) && 10 <= |m| < U64 && |t| + |m| <= patience
    ensures Exchange(SoftEnv(lib, s, hash, patience), input, t, info, r, acquired).1 == Err(Ctap(NOT_ALLOWED))
  {
    var u, parked, first := t + [SendAssertion(r)], AfterRequest(lib, now, r), FirstResponse(lib.signer, now, r);
    FirstAnswered(lib, s, hash, patience, t, now, r);
    SoftDrains(lib, hash);
    RequestParks(lib, now, r);
    ExchangeRefused(SoftEnv(lib, s, hash, patience), SoftStepper(lib, hash), s, lib.signer, hash, input, t, info, r,
                    acquired, u, first, parked, m[1..9], |m| - 1);
  }
}
