/** The authenticator's credential store, signature counter and multi-assertion queue. */
module Assertions {
  import opened Wrappers
  import opened ByteOrder
  import opened Credentials
  import opened GetAssertion

  const MAX_ASSERTION_QUEUE: nat := 8

  const NO_CREDENTIALS: byte := 0x2E
  const NOT_ALLOWED: byte := 0x30
  const FLAG_UP: byte := 0x01
  const FLAG_UV: byte := 0x04

  datatype Credential = Credential(id: seq<byte>, rpId: seq<byte>, userHandle: seq<byte>, key: seq<byte>,
                                   resident: bool)

  /** A credential waiting for getNextAssertion, with the outcomes it will be signed under. */
  datatype Parked = Parked(index: nat, up: bool, uv: bool)

  /** The part of `SoftAuthenticator` that assertions touch. */
  datatype Store = Store(credentials: seq<Credential>, signCount: nat, queue: seq<Parked>)

  /** The digest and the signature of the library. */
  datatype Signer = Signer(sha256: seq<byte> -> seq<byte>, sign: (seq<byte>, seq<byte>) -> seq<byte>)

  /** The outcome of a request: an assertion, or the status it is refused with. */
  datatype Reply = Assertion(response: Response) | Refusal(status: byte)

  // ---- selection

  /** The id is that of a descriptor in the list. */
  predicate Listed(list: seq<Descriptor>, id: seq<byte>) {
    exists i :: 0 <= i < |list| && list[i].id == id
  }

  predicate Selects(c: Credential, r: Request) {
    && c.rpId == r.rpId
    && match r.allowList
       case Some(list) => exists i :: 0 <= i < |list| && list[i].id == c.id
       case None => c.resident
  }

  /** The indices, from `from` on, of the credentials that match, in store order. */
  function MatchingFrom(cs: seq<Credential>, r: Request, from: nat): (m: seq<nat>)
    ensures forall i :: 0 <= i < |m| ==> from <= m[i] < |cs|
    decreases |cs| - from
  {
    if from >= |cs| then []
    else if Selects(cs[from], r) then [from] + MatchingFrom(cs, r, from + 1)
    else MatchingFrom(cs, r, from + 1)
  }

  /** Exactly the matching credentials, each once, in store order: those of the relying party, listed or resident. */
  lemma {:induction false} MatchingExact(cs: seq<Credential>, r: Request, from: nat)
    ensures forall k :: k in MatchingFrom(cs, r, from) <==> from <= k < |cs| && Selects(cs[k], r)
    ensures forall k :: k in MatchingFrom(cs, r, from) <==>
                        && from <= k < |cs| && cs[k].rpId == r.rpId
                        && if r.allowList.None? then cs[k].resident else Listed(r.allowList.value, cs[k].id)
    ensures forall i, j :: 0 <= i < j < |MatchingFrom(cs, r, from)| ==>
              MatchingFrom(cs, r, from)[i] < MatchingFrom(cs, r, from)[j]
    decreases |cs| - from
  {
    if from < |cs| {
      var rest := MatchingFrom(cs, r, from + 1);
      MatchingExact(cs, r, from + 1);
      MatchingOne(cs, r, from, rest);
    }
  }

  lemma {:induction false} MatchingOne(cs: seq<Credential>, r: Request, from: nat, rest: seq<nat>)
    requires from < |cs| && rest == MatchingFrom(cs, r, from + 1)
    requires forall k :: k in rest <==> from + 1 <= k < |cs| && Selects(cs[k], r)
    ensures forall k :: k in MatchingFrom(cs, r, from) <==> from <= k < |cs| && Selects(cs[k], r)
  {
    forall k ensures k in MatchingFrom(cs, r, from) <==> from <= k < |cs| && Selects(cs[k], r) {
      if Selects(cs[from], r) { assert k in [from] + rest <==> k == from || k in rest; }
    }
  }

  function Matching(s: Store, r: Request): seq<nat> {
    MatchingFrom(s.credentials, r, 0)
  }

  /** `select_credentials`, as it filters the store. */
  method SelectCredentials(cs: seq<Credential>, r: Request) returns (m: Result<seq<nat>, byte>)
    ensures m == if MatchingFrom(cs, r, 0) == [] then Err(NO_CREDENTIALS) else Ok(MatchingFrom(cs, r, 0))
    ensures forall k :: m.Ok? && k in m.value <==>
                        && 0 <= k < |cs| && cs[k].rpId == r.rpId
                        && if r.allowList.None? then cs[k].resident else Listed(r.allowList.value, cs[k].id)
    ensures m.Ok? ==> forall i, j :: 0 <= i < j < |m.value| ==> m.value[i] < m.value[j]
    ensures m.Err? ==> m == Err(0x2E)
  {
    var matching: seq<nat> := [];
    ghost var all := MatchingFrom(cs, r, 0);
    for i := 0 to |cs|
      invariant matching + MatchingFrom(cs, r, i) == all
    {
      var selected := Selects(cs[i], r);
      if selected {
        assert matching + ([i] + MatchingFrom(cs, r, i + 1)) == matching + [i] + MatchingFrom(cs, r, i + 1);
        matching := matching + [i];
      }
    }
    assert matching + [] == matching;
    SelectionMeans(cs, r, matching);
    m := if matching == [] then Err(NO_CREDENTIALS) else Ok(matching);
  }

  lemma {:induction false} SelectionMeans(cs: seq<Credential>, r: Request, m: seq<nat>)
    requires m == MatchingFrom(cs, r, 0)
    ensures forall k :: k in m <==>
                        && 0 <= k < |cs| && cs[k].rpId == r.rpId
                        && if r.allowList.None? then cs[k].resident else Listed(r.allowList.value, cs[k].id)
    ensures forall i, j :: 0 <= i < j < |m| ==> m[i] < m[j]
  {
    MatchingExact(cs, r, 0);
  }

  // ---- signing

  /** The flags byte. */
  function Flags(up: bool, uv: bool): byte {
    (if up then FLAG_UP else 0) + (if uv then FLAG_UV else 0)
  }

  /** `authenticator_data` without attested credential data. */
  function AuthData(k: Signer, rpId: seq<byte>, up: bool, uv: bool, signCount: nat): seq<byte> {
    k.sha256(rpId) + [Flags(up, uv)] + ToBE(signCount, 4)
  }

  /** The assertion of credential `c` under counter value `count`. */
  function AssertionOf(k: Signer, c: Credential, shownId: seq<byte>, hash: seq<byte>, up: bool, uv: bool, count: nat,
                       number: Option<nat>): Response
  {
    var authData := AuthData(k, c.rpId, up, uv, count);
    Response(Descriptor(shownId, None), authData, k.sign(c.key, authData + hash),
             if c.resident then Some(User(c.userHandle, None, None)) else None, number, None, None)
  }

  function Counted(s: Store): Store {
    s.(signCount := (s.signCount + 1) % U32)
  }

  /** The credential whose id is shown: with the knob on, the first one whose id differs, if any. */
  function Shown(cs: seq<Credential>, selected: nat, wrongId: bool): nat
    requires selected < |cs|
  {
    if wrongId then FirstOther(cs, cs[selected].id, 0, selected) else selected
  }

  function FirstOther(cs: seq<Credential>, id: seq<byte>, from: nat, default: nat): (i: nat)
    requires default < |cs|
    ensures i < |cs| && (cs[i].id == id ==> i == default)
    decreases |cs| - from
  {
    if from >= |cs| then default else if cs[from].id != id then from else FirstOther(cs, id, from + 1, default)
  }

  function ParkedRest(m: seq<nat>, up: bool, uv: bool): (q: seq<Parked>)
    ensures |q| == |m| && forall i :: 0 <= i < |m| ==> q[i] == Parked(m[i], up, uv)
  {
    if m == [] then [] else [Parked(m[0], up, uv)] + ParkedRest(m[1..], up, uv)
  }

  /** The queue after an assertion over the matches `m`: a single match leaves an old queue in place. */
  function QueueAfter(before: seq<Parked>, m: seq<nat>, up: bool, uv: bool): seq<Parked> {
    if |m| > 1 then
      var rest := ParkedRest(m[1..], up, uv);
      if |rest| <= MAX_ASSERTION_QUEUE then rest else rest[..MAX_ASSERTION_QUEUE]
    else before
  }

  /** The processing of getAssertion once presence and verification are settled. */
  function AssertOn(k: Signer, s: Store, r: Request, up: bool, uv: bool, wrongId: bool): (Store, Reply) {
    var m := Matching(s, r);
    if m == [] then (s, Refusal(NO_CREDENTIALS)) else
      var c := s.credentials[m[0]];
      var shown := s.credentials[Shown(s.credentials, m[0], wrongId)].id;
      var next := Counted(s);
      (next.(queue := QueueAfter(s.queue, m, up, uv)),
       Assertion(AssertionOf(k, c, shown, r.clientDataHash, up, uv, next.signCount,
                             if |m| > 1 then Some(|m|) else None)))
  }

  /** `get_next_assertion`. */
  function NextOn(k: Signer, s: Store, hash: seq<byte>): (Store, Reply)
    requires NextInStore(s)
  {
    if s.queue == [] then (s, Refusal(NOT_ALLOWED)) else
      var p := s.queue[0];
      var c := s.credentials[p.index];
      var next := Counted(s.(queue := s.queue[1..]));
      (next, Assertion(AssertionOf(k, c, c.id, hash, p.up, p.uv, next.signCount, None)))
  }

  predicate NextInStore(s: Store) {
    s.queue == [] || s.queue[0].index < |s.credentials|
  }

  /** Parked credentials are in the store. */
  ghost predicate InStore(s: Store) {
    forall i :: 0 <= i < |s.queue| ==> s.queue[i].index < |s.credentials|
  }

  lemma {:induction false} AssertInStore(k: Signer, s: Store, r: Request, up: bool, uv: bool, wrongId: bool)
    requires InStore(s)
    ensures InStore(AssertOn(k, s, r, up, uv, wrongId).0)
  {
  }

  lemma {:induction false} NextKeepsStore(k: Signer, s: Store, hash: seq<byte>)
    requires InStore(s)
    ensures InStore(NextOn(k, s, hash).0)
  {
  }

  // ---- whole runs of the store

  /** A minted credential: counted first, stored last. */
  function Stored(s: Store, record: Credential): Store {
    Counted(s).(credentials := s.credentials + [record])
  }

  /** One call that touches the store: a minting that succeeded, a settled getAssertion, or a getNextAssertion. */
  datatype StoreCall =
    | Make(record: Credential)
    | Ask(request: Request, up: bool, uv: bool, wrongId: bool)
    | Next(hash: seq<byte>)

  /** The store after a call; none where the call would index outside the store. */
  function CallOn(k: Signer, s: Store, call: StoreCall): Option<Store> {
    match call
    case Make(record) => Some(Stored(s, record))
    case Ask(r, up, uv, wrongId) => Some(AssertOn(k, s, r, up, uv, wrongId).0)
    case Next(hash) => if NextInStore(s) then Some(NextOn(k, s, hash).0) else None
  }

  function CallsOn(k: Signer, s: Store, run: seq<StoreCall>): Option<Store>
    decreases |run|
  {
    if run == [] then Some(s) else
      var next := CallOn(k, s, run[0]);
      if next.None? then None else CallsOn(k, next.value, run[1..])
  }

  /** A call the counter goes up for: a minting, or an assertion given. */
  predicate Signs(s: Store, call: StoreCall) {
    match call
    case Make(_) => true
    case Ask(r, _, _, _) => Matching(s, r) != []
    case Next(_) => s.queue != []
  }

  /** How often a run signs. */
  function Signatures(k: Signer, s: Store, run: seq<StoreCall>): nat
    decreases |run|
  {
    if run == [] then 0 else
      var next := CallOn(k, s, run[0]);
      (if Signs(s, run[0]) then 1 else 0) + if next.None? then 0 else Signatures(k, next.value, run[1..])
  }

  /** Parked credentials are in the store, at most eight of them. */
  ghost predicate Sound(s: Store) {
    InStore(s) && |s.queue| <= MAX_ASSERTION_QUEUE && s.signCount < U32
  }

  lemma {:induction false} CallSound(k: Signer, s: Store, call: StoreCall)
    requires Sound(s)
    ensures var next := CallOn(k, s, call);
            && next.Some? && Sound(next.value) && s.credentials <= next.value.credentials
            && next.value.signCount == (s.signCount + if Signs(s, call) then 1 else 0) % U32
  {
    match call
    case Make(_) =>
    case Ask(r, up, uv, wrongId) => AssertInStore(k, s, r, up, uv, wrongId);
    case Next(hash) => NextKeepsStore(k, s, hash);
  }

  /**
   Over every run of minting, getAssertion and getNextAssertion: no call indexes outside the store,
   at most eight credentials are parked, none is ever lost, and the counter has gone up once for
   every signature.
   */
  lemma {:induction false} StoreRunSound(k: Signer, s: Store, run: seq<StoreCall>)
    requires Sound(s)
    ensures var end := CallsOn(k, s, run);
            && end.Some? && Sound(end.value) && s.credentials <= end.value.credentials
            && end.value.signCount == (s.signCount + Signatures(k, s, run)) % U32
    decreases |run|
  {
    if run != [] {
      CallSound(k, s, run[0]);
      var next := CallOn(k, s, run[0]).value;
      StoreRunSound(k, next, run[1..]);
      CountedOn(s.signCount, if Signs(s, run[0]) then 1 else 0, Signatures(k, next, run[1..]));
    }
  }

  lemma {:induction false} CountedOn(count: nat, first: nat, rest: nat)
    ensures ((count + first) % U32 + rest) % U32 == (count + first + rest) % U32
  {
    SameModulo((count + first) % U32 + rest, (count + first) / U32);
  }

  // ---- draining

  /** The replies of `n` getNextAssertion calls, and the store after them. */
  function Drained(k: Signer, s: Store, hash: seq<byte>, n: nat): (r: (Store, seq<Reply>))
    requires InStore(s)
    ensures InStore(r.0) && |r.1| == n
    decreases n
  {
    if n == 0 then (s, []) else
      var (next, first) := NextOn(k, s, hash);
      NextKeepsStore(k, s, hash);
      var (end, rest) := Drained(k, next, hash, n - 1);
      (end, [first] + rest)
  }

  function CountAfter(count: nat, n: nat): nat
    decreases n
  {
    if n == 0 then count else CountAfter((count + 1) % U32, n - 1)
  }

  lemma {:induction false} CountAfterModulo(count: nat, n: nat)
    requires count < U32
    ensures CountAfter(count, n) == (count + n) % U32
    decreases n
  {
    if n > 0 {
      CountAfterModulo((count + 1) % U32, n - 1);
      CountedOn(count, 1, n - 1);
    }
  }

  /** The assertions of the credentials at `m`, in order, under the counter values that follow `count`. */
  function RestOf(k: Signer, cs: seq<Credential>, m: seq<nat>, hash: seq<byte>, up: bool, uv: bool,
                  count: nat): (r: seq<Response>)
    requires forall i :: 0 <= i < |m| ==> m[i] < |cs|
    ensures |r| == |m|
    decreases |m|
  {
    if m == [] then [] else
      [AssertionOf(k, cs[m[0]], cs[m[0]].id, hash, up, uv, (count + 1) % U32, None)]
      + RestOf(k, cs, m[1..], hash, up, uv, (count + 1) % U32)
  }

  function Asserted(rs: seq<Response>): seq<Reply> {
    if rs == [] then [] else [Assertion(rs[0])] + Asserted(rs[1..])
  }

  /** Draining answers each parked credential once, in order, under consecutive counter values. */
  lemma {:induction false} DrainRest(k: Signer, s: Store, hash: seq<byte>, m: seq<nat>, up: bool, uv: bool)
    requires s.queue == ParkedRest(m, up, uv) && forall i :: 0 <= i < |m| ==> m[i] < |s.credentials|
    ensures InStore(s)
    ensures Drained(k, s, hash, |m|)
         == (s.(queue := [], signCount := CountAfter(s.signCount, |m|)),
             Asserted(RestOf(k, s.credentials, m, hash, up, uv, s.signCount)))
    decreases |m|
  {
    if m != [] {
      var rest := m[1..];
      var next := s.(queue := s.queue[1..], signCount := (s.signCount + 1) % U32);
      assert next.queue == ParkedRest(rest, up, uv);
      DrainRest(k, next, hash, rest, up, uv);
      var first := AssertionOf(k, s.credentials[m[0]], s.credentials[m[0]].id, hash, up, uv, next.signCount, None);
      assert NextOn(k, s, hash) == (next, Assertion(first));
      var rs := RestOf(k, s.credentials, rest, hash, up, uv, next.signCount);
      assert ([first] + rs)[1..] == rs;
    }
  }

  /** A call after the last parked credential is not allowed. */
  lemma {:induction false} DrainDry(k: Signer, s: Store, hash: seq<byte>, n: nat)
    requires InStore(s) && |s.queue| < n
    ensures Drained(k, s, hash, n).1[|s.queue|] == Refusal(NOT_ALLOWED)
    decreases n
  {
    if s.queue != [] {
      NextKeepsStore(k, s, hash);
      DrainDry(k, NextOn(k, s, hash).0, hash, n - 1);
    }
  }

  /** What a getAssertion that matches several credentials answers and parks. */
  lemma {:induction false} AssertParks(k: Signer, s: Store, r: Request, up: bool, uv: bool)
    requires |Matching(s, r)| >= 2
    ensures var m := Matching(s, r);
            var (parked, first) := AssertOn(k, s, r, up, uv, false);
            && first == Assertion(AssertionOf(k, s.credentials[m[0]], s.credentials[m[0]].id, r.clientDataHash, up, uv,
                                         parked.signCount, Some(|m|)))
            && parked.credentials == s.credentials && ParkedAfter(parked, m, up, uv, s.signCount)
  {
  }

  /** A request with at most one match leaves what was parked before as it is. */
  lemma {:induction false} QueueKept(k: Signer, s: Store, r: Request, up: bool, uv: bool, wrongId: bool)
    requires |Matching(s, r)| <= 1
    ensures var (next, reply) := AssertOn(k, s, r, up, uv, wrongId);
            && next.queue == s.queue && next.credentials == s.credentials
            && (Matching(s, r) == [] ==> next == s && reply == Refusal(0x2E))
            && (Matching(s, r) != [] ==> reply.Assertion? && reply.response.numberOfCredentials.None?)
  {
  }

  /** What is parked after a request that matched the credentials at `m` under counter value `count`. */
  ghost predicate ParkedAfter(s: Store, m: seq<nat>, up: bool, uv: bool, count: nat) {
    && |m| >= 2 && (forall i :: 0 <= i < |m| ==> m[i] < |s.credentials|)
    && s.signCount == (count + 1) % U32
    && if |m| <= 9 then s.queue == ParkedRest(m[1..], up, uv) else |s.queue| == 8
  }

  /**
   Draining after such a request: with at most nine matches each further one is answered once, in
   store order, under consecutive counter values, and the queue is empty again; with more, the
   ninth call is refused.
   */
  lemma {:induction false} DrainComplete(k: Signer, s: Store, m: seq<nat>, hash: seq<byte>, up: bool, uv: bool,
                                         count: nat)
    requires InStore(s) && ParkedAfter(s, m, up, uv, count)
    ensures var (end, replies) := Drained(k, s, hash, |m| - 1);
            if |m| <= 9 then
              && replies == Asserted(RestOf(k, s.credentials, m[1..], hash, up, uv, s.signCount))
              && end == s.(queue := [], signCount := (count + |m|) % U32)
            else replies[8] == Refusal(NOT_ALLOWED)
  {
    if |m| <= 9 {
      DrainRest(k, s, hash, m[1..], up, uv);
      CountAfterModulo(s.signCount, |m| - 1);
      ModuloStep(count, |m|);
    } else {
      DrainDry(k, s, hash, |m| - 1);
    }
  }

  lemma {:induction false} ModuloStep(count: nat, n: nat)
    requires n > 0
    ensures ((count + 1) % U32 + (n - 1)) % U32 == (count + n) % U32
  {
    CountedOn(count, 1, n - 1);
  }

  lemma {:induction false} SameModulo(a: nat, q: nat)
    ensures (a + U32 * q) % U32 == a % U32
    decreases q
  {
    if q > 0 {
      SameModulo(a, q - 1);
      assert a + U32 * q == a + U32 * (q - 1) + U32;
    }
  }

  // ---- what an assertion shows

  /**
   The response shows credential `c`, signed under counter value `count`: its id and, if it is
   resident, its user handle; the digest of its relying party, the two flags and the counter; and
   the signature with its key over that and the client data hash.
   */
  ghost predicate Shows(k: Signer, resp: Response, c: Credential, hash: seq<byte>, up: bool, uv: bool, count: nat) {
    && resp.credential.id == c.id && resp.credential.transports.None?
    && (if c.resident then resp.user == Some(User(c.userHandle, None, None)) else resp.user.None?)
    && (exists flags: byte ::
          && resp.authData == k.sha256(c.rpId) + [flags] + ToBE(count, 4)
          && flags < 8 && (flags % 2 == 1 <==> up) && (flags / 4 == 1 <==> uv) && (flags / 2) % 2 == 0)
    && resp.signature == k.sign(c.key, resp.authData + hash)
  }

  lemma {:induction false} AssertionShows(k: Signer, c: Credential, hash: seq<byte>, up: bool, uv: bool, count: nat,
                                          number: Option<nat>)
    ensures Shows(k, AssertionOf(k, c, c.id, hash, up, uv, count, number), c, hash, up, uv, count)
  {
    assert k.sha256(c.rpId) + [Flags(up, uv)] + ToBE(count, 4) == AuthData(k, c.rpId, up, uv, count);
  }

  /** One of the credentials the request is about: of its relying party, and listed or resident. */
  ghost predicate Eligible(c: Credential, r: Request) {
    c.rpId == r.rpId && if r.allowList.None? then c.resident else Listed(r.allowList.value, c.id)
  }

  /** The `j`th reply of a drain with the credentials at `m` parked and the counter at `count` before it. */
  ghost predicate DrainReply(k: Signer, reply: Reply, cs: seq<Credential>, m: seq<nat>, hash: seq<byte>, up: bool,
                             uv: bool, count: nat, j: nat)
  {
    if j >= |m| then reply == Refusal(0x30)
    else m[j] < |cs| && reply.Assertion? && Shows(k, reply.response, cs[m[j]], hash, up, uv, (count + j + 1) % U32)
  }

  /** The credentials at `m` are parked and stored. */
  ghost predicate ParkedAt(s: Store, m: seq<nat>, up: bool, uv: bool) {
    s.queue == ParkedRest(m, up, uv) && forall i :: 0 <= i < |m| ==> m[i] < |s.credentials|
  }

  lemma {:induction false} NextShows(k: Signer, s: Store, hash: seq<byte>, m: seq<nat>, up: bool, uv: bool)
    requires ParkedAt(s, m, up, uv) && m != []
    ensures InStore(s)
    ensures var (next, first) := NextOn(k, s, hash);
            && ParkedAt(next, m[1..], up, uv) && next.credentials == s.credentials
            && next.signCount == (s.signCount + 1) % U32
            && first.Assertion? && Shows(k, first.response, s.credentials[m[0]], hash, up, uv, next.signCount)
  {
    AssertionShows(k, s.credentials[m[0]], hash, up, uv, (s.signCount + 1) % U32, None);
  }

  lemma {:induction false} ReplyLater(k: Signer, reply: Reply, cs: seq<Credential>, m: seq<nat>, hash: seq<byte>,
                                      up: bool, uv: bool, count: nat, j: nat)
    requires m != [] && DrainReply(k, reply, cs, m[1..], hash, up, uv, (count + 1) % U32, j)
    ensures DrainReply(k, reply, cs, m, hash, up, uv, count, j + 1)
  {
    CountedOn(count, 1, j + 1);
  }

  /** The replies of a drain are as they should be. */
  ghost predicate DrainReplies(k: Signer, replies: seq<Reply>, cs: seq<Credential>, m: seq<nat>, hash: seq<byte>,
                               up: bool, uv: bool, count: nat)
  {
    forall j :: 0 <= j < |replies| ==> DrainReply(k, replies[j], cs, m, hash, up, uv, count, j)
  }

  lemma {:induction false} RepliesCons(k: Signer, first: Reply, rest: seq<Reply>, cs: seq<Credential>, m: seq<nat>,
                                       hash: seq<byte>, up: bool, uv: bool, count: nat)
    requires m != [] && DrainReply(k, first, cs, m, hash, up, uv, count, 0)
    requires DrainReplies(k, rest, cs, m[1..], hash, up, uv, (count + 1) % U32)
    ensures DrainReplies(k, [first] + rest, cs, m, hash, up, uv, count)
  {
    forall j | 0 <= j < 1 + |rest| ensures DrainReply(k, ([first] + rest)[j], cs, m, hash, up, uv, count, j) {
      if j > 0 { ReplyLater(k, rest[j - 1], cs, m, hash, up, uv, count, j - 1); }
    }
  }

  lemma {:induction false} DrainShows(k: Signer, s: Store, hash: seq<byte>, m: seq<nat>, up: bool, uv: bool, n: nat)
    requires ParkedAt(s, m, up, uv)
    ensures InStore(s) && DrainReplies(k, Drained(k, s, hash, n).1, s.credentials, m, hash, up, uv, s.signCount)
    decreases n
  {
    if m == [] {
      DrainEmpty(k, s, hash, n);
    } else if n > 0 {
      NextShows(k, s, hash, m, up, uv);
      DrainShows(k, NextOn(k, s, hash).0, hash, m[1..], up, uv, n - 1);
      DrainedFirst(k, s, hash, n);
      NextReply(k, s, hash, m, up, uv, Drained(k, s, hash, n).1, Drained(k, NextOn(k, s, hash).0, hash, n - 1).1);
    }
  }

  lemma {:induction false} NextReply(k: Signer, s: Store, hash: seq<byte>, m: seq<nat>, up: bool, uv: bool,
                                     replies: seq<Reply>, later: seq<Reply>)
    requires ParkedAt(s, m, up, uv) && m != [] && InStore(s) && replies == [NextOn(k, s, hash).1] + later
    requires DrainReplies(k, later, s.credentials, m[1..], hash, up, uv, (s.signCount + 1) % U32)
    ensures DrainReplies(k, replies, s.credentials, m, hash, up, uv, s.signCount)
  {
    NextShows(k, s, hash, m, up, uv);
    RepliesCons(k, NextOn(k, s, hash).1, later, s.credentials, m, hash, up, uv, s.signCount);
  }

  lemma {:induction false} DrainedFirst(k: Signer, s: Store, hash: seq<byte>, n: nat)
    requires InStore(s) && n > 0
    ensures InStore(NextOn(k, s, hash).0)
    ensures Drained(k, s, hash, n).1 == [NextOn(k, s, hash).1] + Drained(k, NextOn(k, s, hash).0, hash, n - 1).1
  {
    NextKeepsStore(k, s, hash);
  }

  lemma {:induction false} DrainEmpty(k: Signer, s: Store, hash: seq<byte>, n: nat)
    requires s.queue == []
    ensures InStore(s) && forall j :: 0 <= j < n ==> Drained(k, s, hash, n).1[j] == Refusal(0x30)
    decreases n
  {
    if n > 0 { DrainEmpty(k, s, hash, n - 1); }
  }

  /**
   Who is asserted: the answer to a request, and each answer of the drain after it, shows an
   eligible credential of the relying party that asked, in store order and under consecutive
   counters; after at most eight more the drain is refused.
   */
  lemma {:induction false} AssertionsOwned(k: Signer, s: Store, r: Request, up: bool, uv: bool, hash: seq<byte>, n: nat)
    requires Matching(s, r) != [] && (|Matching(s, r)| == 1 ==> s.queue == [])
    ensures var m := Matching(s, r);
            var (parked, first) := AssertOn(k, s, r, up, uv, false);
            && InStore(parked)
            && (forall i :: 0 <= i < |m| ==> m[i] < |s.credentials| && Eligible(s.credentials[m[i]], r))
            && first.Assertion?
            && Shows(k, first.response, s.credentials[m[0]], r.clientDataHash, up, uv, (s.signCount + 1) % U32)
            && DrainReplies(k, Drained(k, parked, hash, n).1, s.credentials, Take(m[1..], 8), hash, up, uv,
                            (s.signCount + 1) % U32)
  {
    var m := Matching(s, r);
    var parked := AssertOn(k, s, r, up, uv, false).0;
    MatchesEligible(s, r);
    FirstShows(k, s, r, up, uv);
    DrainShows(k, parked, hash, Take(m[1..], 8), up, uv, n);
  }

  lemma {:induction false} MatchesEligible(s: Store, r: Request)
    ensures var m := Matching(s, r);
            forall i :: 0 <= i < |m| ==> m[i] < |s.credentials| && Eligible(s.credentials[m[i]], r)
  {
    var m := Matching(s, r);
    MatchingExact(s.credentials, r, 0);
    forall i | 0 <= i < |m| ensures Eligible(s.credentials[m[i]], r) { assert m[i] in m; }
  }

  lemma {:induction false} FirstShows(k: Signer, s: Store, r: Request, up: bool, uv: bool)
    requires Matching(s, r) != [] && (|Matching(s, r)| == 1 ==> s.queue == [])
    ensures var m := Matching(s, r);
            var (parked, first) := AssertOn(k, s, r, up, uv, false);
            && first.Assertion?
            && Shows(k, first.response, s.credentials[m[0]], r.clientDataHash, up, uv, (s.signCount + 1) % U32)
            && parked.credentials == s.credentials && parked.signCount == (s.signCount + 1) % U32
            && ParkedAt(parked, Take(m[1..], 8), up, uv)
  {
    var m := Matching(s, r);
    AssertionShows(k, s.credentials[m[0]], r.clientDataHash, up, uv, (s.signCount + 1) % U32,
                   if |m| > 1 then Some(|m|) else None);
    ParkedTaken(m[1..], up, uv);
  }

  /** The wrong-id knob: only the id differs, and it is another one if the store holds another. */
  lemma {:induction false} WrongIdShown(k: Signer, s: Store, r: Request, up: bool, uv: bool)
    requires Matching(s, r) != []
    ensures var c := s.credentials[Matching(s, r)[0]];
            var right, wrong := AssertOn(k, s, r, up, uv, false), AssertOn(k, s, r, up, uv, true);
            && right.1.Assertion? && wrong.1.Assertion? && right.0 == wrong.0
            && wrong.1.response.(credential := right.1.response.credential) == right.1.response
            && (wrong.1.response.credential.id != c.id <==>
                  exists i :: 0 <= i < |s.credentials| && s.credentials[i].id != c.id)
  {
    OtherFound(s.credentials, s.credentials[Matching(s, r)[0]].id, 0, Matching(s, r)[0]);
  }

  lemma {:induction false} OtherFound(cs: seq<Credential>, id: seq<byte>, from: nat, default: nat)
    requires default < |cs| && cs[default].id == id
    ensures cs[FirstOther(cs, id, from, default)].id != id <==> exists i :: from <= i < |cs| && cs[i].id != id
    decreases |cs| - from
  {
    if from < |cs| { OtherFound(cs, id, from + 1, default); }
  }

  lemma {:induction false} ParkedTaken(m: seq<nat>, up: bool, uv: bool)
    ensures ParkedRest(Take(m, 8), up, uv) == Take(ParkedRest(m, up, uv), 8)
  {
  }

  lemma {:induction false} RestAt(k: Signer, cs: seq<Credential>, m: seq<nat>, hash: seq<byte>, up: bool, uv: bool,
                                  count: nat, i: nat)
    requires i < |m| && forall j :: 0 <= j < |m| ==> m[j] < |cs|
    ensures RestOf(k, cs, m, hash, up, uv, count)[i]
         == AssertionOf(k, cs[m[i]], cs[m[i]].id, hash, up, uv, (CountAfter(count, i) + 1) % U32, None)
    decreases i
  {
    if i > 0 { RestAt(k, cs, m[1..], hash, up, uv, (count + 1) % U32, i - 1); }
  }
}
