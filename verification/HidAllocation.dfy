/** Exactly when a channel is allocated, and what ends the attempt otherwise. */
module HidAllocation {
  import opened Wrappers
  import opened ByteOrder
  import opened Budget
  import opened HidPacket
  import opened HidAssembler
  import opened HidTransaction
  import opened HidRuns

  /** Reports the handshake passes over: whole ones of another channel or command. */
  predicate Skipped(cid: nat, r: Report) {
    var hdr := ParseInitHeader(r);
    hdr.Ok? && (hdr.value.cid != cid || hdr.value.cmd != CMD_INIT)
  }

  /** A read after which the wait goes on. */
  predicate Passes(cid: nat, left: nat, poll: Poll) {
    match poll
    case Arrived(r) => Skipped(cid, r)
    case Nothing => left > 0
    case Gone => false
  }

  /** Read `k` brings the first report that is not passed over, while the device stays and the budget lasts. */
  ghost predicate DecisiveAt(cid: nat, left: nat, polls: seq<Poll>, k: nat) {
    && k < |polls| && polls[k].Arrived? && !Skipped(cid, polls[k].report)
    && forall j :: 0 <= j < k ==>
                     match polls[j]
                     case Arrived(r) => Skipped(cid, r)
                     case Nothing => Ticks(polls[..j]) < left
                     case Gone => false
  }

  ghost predicate Decided(cid: nat, left: nat, polls: seq<Poll>) {
    exists k: nat :: DecisiveAt(cid, left, polls, k)
  }

  /** What the handshake makes of the report that decides it. */
  function Verdict(nonce: seq<byte>, r: Report): Result<InitInfo, FramingError> {
    var hdr :- ParseInitHeader(r);
    Reply(nonce, PayloadOf(r, hdr).value)
  }

  function Concluded(v: Result<InitInfo, FramingError>): Result<InitInfo, Failure> {
    match v
    case Ok(info) => Ok(info)
    case Err(e) => Err(Framing(e))
  }

  /** The tick a read costs. */
  function Tick(poll: Poll): nat {
    if poll.Nothing? then READ_POLL_QUANTUM else 0
  }

  lemma {:induction false} DecisiveLater(cid: nat, left: nat, polls: seq<Poll>, k: nat)
    requires polls != [] && Passes(cid, left, polls[0])
    ensures DecisiveAt(cid, left, polls, k + 1)
       <==> DecisiveAt(cid, left - Min(Tick(polls[0]), left), polls[1..], k)
  {
    var rest, after := polls[1..], left - Min(Tick(polls[0]), left);
    if k < |rest| {
      forall j | 0 <= j <= k ensures polls[j + 1] == rest[j]
      && Ticks(polls[..j + 1]) == Tick(polls[0]) + Ticks(rest[..j]) {
        assert polls[..j + 1][1..] == rest[..j];
      }
      if DecisiveAt(cid, left, polls, k + 1) {
        forall j | 0 <= j < k
          ensures match rest[j]
                  case Arrived(r) => Skipped(cid, r)
                  case Nothing => Ticks(rest[..j]) < after
                  case Gone => false
        {
          assert polls[j + 1] == rest[j];
        }
      }
      if DecisiveAt(cid, after, rest, k) {
        forall j | 0 <= j < k + 1
          ensures match polls[j]
                  case Arrived(r) => Skipped(cid, r)
                  case Nothing => Ticks(polls[..j]) < left
                  case Gone => false
        {
          if j > 0 { assert polls[j] == rest[j - 1]; }
        }
      }
    }
  }

  lemma {:induction false} DecidedLater(cid: nat, left: nat, polls: seq<Poll>)
    requires polls != [] && Passes(cid, left, polls[0])
    ensures Decided(cid, left, polls) <==> Decided(cid, left - Min(Tick(polls[0]), left), polls[1..])
  {
    if Decided(cid, left, polls) {
      var k: nat :| DecisiveAt(cid, left, polls, k);
      assert k > 0;
      DecisiveLater(cid, left, polls, k - 1);
    }
    if Decided(cid, left - Min(Tick(polls[0]), left), polls[1..]) {
      var k: nat :| DecisiveAt(cid, left - Min(Tick(polls[0]), left), polls[1..], k);
      DecisiveLater(cid, left, polls, k);
    }
  }

  /** One read passed over. */
  lemma {:induction false} OnePassed(w: World, cid: nat, nonce: seq<byte>) returns (next: World)
    requires |nonce| == INIT_NONCE_LEN && w.polls != []
    requires Passes(cid, w.left, w.polls[0])
    ensures next.polls == w.polls[1..] && next.left == w.left - Min(Tick(w.polls[0]), w.left)
    ensures AwaitInit(w, cid, nonce).1 == AwaitInit(next, cid, nonce).1
  {
    if w.polls[0].Nothing? {
      next := w.Polled().Ticked(READ_POLL_QUANTUM);
      assert ReadReport(w, ChannelOpen) == ReadReport(next, ChannelOpen);
    } else {
      next := w.Polled();
    }
  }

  /** The wait for the answer ends with the verdict on the decisive report, or with silence or removal. */
  lemma {:induction false} AwaitDecided(w: World, cid: nat, nonce: seq<byte>)
    requires |nonce| == INIT_NONCE_LEN
    ensures var r := AwaitInit(w, cid, nonce).1;
            && (forall k: nat :: DecisiveAt(cid, w.left, w.polls, k) ==>
                                   r == Concluded(Verdict(nonce, w.polls[k].report)))
            && (!Decided(cid, w.left, w.polls) ==> r == Err(DeviceGone) || r == Err(TimedOut(ChannelOpen)))
    decreases |w.polls|
  {
    if w.polls == [] {
      AwaitSilence(w, cid, nonce);
    } else if Passes(cid, w.left, w.polls[0]) {
      var next := OnePassed(w, cid, nonce);
      AwaitDecided(next, cid, nonce);
      DecidedLater(cid, w.left, w.polls);
      forall k: nat | DecisiveAt(cid, w.left, w.polls, k)
        ensures AwaitInit(w, cid, nonce).1 == Concluded(Verdict(nonce, w.polls[k].report))
      {
        assert k > 0;
        DecisiveLater(cid, w.left, w.polls, k - 1);
        assert next.polls[k - 1] == w.polls[k];
      }
    } else {
      AwaitEnds(w, cid, nonce);
    }
  }

  lemma {:induction false} AwaitSilence(w: World, cid: nat, nonce: seq<byte>)
    requires |nonce| == INIT_NONCE_LEN && w.polls == []
    ensures AwaitInit(w, cid, nonce).1 == Err(TimedOut(ChannelOpen))
    decreases w.left
  {
    if w.left > 0 {
      var next := w.Polled().Ticked(READ_POLL_QUANTUM);
      assert ReadReport(w, ChannelOpen) == ReadReport(next, ChannelOpen);
      AwaitSilence(next, cid, nonce);
    }
  }

  /** The next read ends the wait. */
  lemma {:induction false} AwaitEnds(w: World, cid: nat, nonce: seq<byte>)
    requires |nonce| == INIT_NONCE_LEN && w.polls != [] && !Passes(cid, w.left, w.polls[0])
    ensures var r := AwaitInit(w, cid, nonce).1;
            match w.polls[0]
            case Gone => r == Err(DeviceGone)
            case Nothing => r == Err(TimedOut(ChannelOpen))
            case Arrived(report) => r == Concluded(Verdict(nonce, report)) && DecisiveAt(cid, w.left, w.polls, 0)
    ensures forall k: nat :: DecisiveAt(cid, w.left, w.polls, k) ==> k == 0
  {
  }

  /** What an answer says about the channel it grants. */
  function InfoIn(r: Report): InitInfo
    requires |r| == REPORT_SIZE
  {
    InitInfo(FromBE(r[15..19]), r[19], r[20..23], r[23])
  }

  /** The answer to the nonce on broadcast, with an unreserved channel in it. */
  ghost predicate Grants(nonce: seq<byte>, r: Report) {
    && |r| == REPORT_SIZE && Answers(BROADCAST_CID, nonce, r, InfoIn(r))
    && InfoIn(r).cid != 0 && InfoIn(r).cid != BROADCAST_CID
  }

  lemma {:induction false} VerdictExact(cid: nat, nonce: seq<byte>, r: Report)
    requires |nonce| == INIT_NONCE_LEN && !Skipped(cid, r)
    ensures Verdict(nonce, r).Ok? <==> |r| == REPORT_SIZE && Answers(cid, nonce, r, InfoIn(r))
    ensures Verdict(nonce, r).Ok? ==> Verdict(nonce, r) == Ok(InfoIn(r))
  {
    var hdr := ParseInitHeader(r);
    if hdr.Ok? {
      var payload := PayloadOf(r, hdr.value).value;
      if |payload| >= INIT_RESPONSE_LEN {
        assert payload[..8] == r[7..15] && payload[8..12] == r[15..19] && payload[13..16] == r[20..23];
      }
    }
  }

  /**
   A channel is allocated exactly when the request is accepted, the budget lasts to the first report
   that is not passed over, and that report answers the nonce just sent with an unreserved channel.
   */
  lemma {:induction false} AllocationExact(w: World, counter: nat)
    ensures var nonce := NonceAfter(counter);
            var r := Allocated(Handshake(w, BROADCAST_CID, nonce)).1;
            r.Ok? <==>
            && w.Writes()
            && exists k: nat ::
                 DecisiveAt(BROADCAST_CID, w.left, w.polls, k) && Grants(nonce, w.polls[k].report)
  {
    var nonce := NonceAfter(counter);
    RequestWritten(w, BROADCAST_CID, nonce);
    if w.Writes() {
      var sent := w.(written := w.written + Packets(BROADCAST_CID, CMD_INIT, nonce));
      AwaitDecided(sent, BROADCAST_CID, nonce);
      forall k: nat | DecisiveAt(BROADCAST_CID, w.left, w.polls, k)
        ensures Allocated(Handshake(w, BROADCAST_CID, nonce)).1.Ok? <==> Grants(nonce, w.polls[k].report)
      {
        VerdictExact(BROADCAST_CID, nonce, w.polls[k].report);
      }
    }
  }

  /** The request is one packet. */
  lemma {:induction false} RequestWritten(w: World, cid: nat, nonce: seq<byte>)
    requires cid < U32 && |nonce| == INIT_NONCE_LEN
    ensures var packets := Packets(cid, CMD_INIT, nonce);
            WriteAll(w, packets) == if w.Writes() then (w.(written := w.written + packets), true) else (w, false)
  {
    var packets := Packets(cid, CMD_INIT, nonce);
    assert packets == [packets[0]] && packets[1..] == [];
  }

  /**
   Another host's INIT answer on broadcast is not passed over: when it comes first it ends the
   allocation in a nonce mismatch, even if our own answer would follow.
   */
  lemma {:induction false} OtherHostsAnswer(w: World, counter: nat, k: nat)
    requires w.Writes() && DecisiveAt(BROADCAST_CID, w.left, w.polls, k) && |w.polls[k].report| == REPORT_SIZE
    requires FromBE(w.polls[k].report[5..7]) < INIT_NONCE_LEN || w.polls[k].report[7..15] != NonceAfter(counter)
    ensures Allocated(Handshake(w, BROADCAST_CID, NonceAfter(counter))).1 == Err(Framing(NonceMismatch))
  {
    var nonce, r := NonceAfter(counter), w.polls[k].report;
    RequestWritten(w, BROADCAST_CID, nonce);
    AwaitDecided(w.(written := w.written + Packets(BROADCAST_CID, CMD_INIT, nonce)), BROADCAST_CID, nonce);
    var payload := PayloadOf(r, ParseInitHeader(r).value).value;
    if |payload| >= INIT_NONCE_LEN { assert payload[..8] == r[7..15]; }
  }

  // ---- what is written, and the channel already held

  /** An INIT request: channel, command with the packet bit, length 8, the nonce, zeros. */
  ghost predicate IsInitRequest(p: Packet, cid: nat, nonce: seq<byte>) {
    && |p| == 64 && FromBE(p[..4]) == cid && p[4] == 0x86 && p[5..7] == [0x00, 0x08] && p[7..15] == nonce
    && forall i :: 15 <= i < 64 ==> p[i] == 0
  }

  lemma {:induction false} InitRequestLayout(cid: nat, nonce: seq<byte>)
    requires cid < U32 && |nonce| == INIT_NONCE_LEN
    ensures |Packets(cid, CMD_INIT, nonce)| == 1 && IsInitRequest(Packets(cid, CMD_INIT, nonce)[0], cid, nonce)
  {
    var p := Packets(cid, CMD_INIT, nonce)[0];
    InitPacketRead(cid, CMD_INIT, nonce);
    Pow256Values();
    FromBEToBE(cid, 4);
    assert ToBE(8, 2) == [0x00, 0x08];
    assert p[5..7] == ToBE(8, 2) && p[7..15] == nonce;
  }

  lemma {:induction false} AwaitKeepsWritten(w: World, cid: nat, nonce: seq<byte>)
    requires |nonce| == INIT_NONCE_LEN
    ensures AwaitInit(w, cid, nonce).0.written == w.written
    decreases |w.polls|
  {
    var (next, read) := ReadReport(w, ChannelOpen);
    ReadKeeps(w, ChannelOpen, cid);
    if read.Ok? && Skipped(cid, read.value) { AwaitKeepsWritten(next, cid, nonce); }
  }

  /** What a handshake from `w` to `end` writes: the one INIT request for `cid`, unless it is refused. */
  ghost predicate WroteInit(w: World, end: World, cid: nat, nonce: seq<byte>) {
    if w.Writes() then
      |end.written| == |w.written| + 1 && end.written[..|w.written|] == w.written
      && IsInitRequest(end.written[|w.written|], cid, nonce)
    else end.written == w.written
  }

  lemma {:induction false} HandshakeWrites(w: World, cid: nat, nonce: seq<byte>)
    requires cid < U32 && |nonce| == INIT_NONCE_LEN
    ensures WroteInit(w, Handshake(w, cid, nonce).0, cid, nonce)
  {
    RequestWritten(w, cid, nonce);
    InitRequestLayout(cid, nonce);
    if w.Writes() { AwaitKeepsWritten(w.(written := w.written + Packets(cid, CMD_INIT, nonce)), cid, nonce); }
  }

  /** Read `k` decides the handshake on `cid`, and answers the nonce there. */
  ghost predicate AnsweredAt(w: World, cid: nat, nonce: seq<byte>, k: nat) {
    && DecisiveAt(cid, w.left, w.polls, k)
    && var r := w.polls[k].report; |r| == REPORT_SIZE && Answers(cid, nonce, r, InfoIn(r))
  }

  lemma {:induction false} HandshakeExact(w: World, cid: nat, nonce: seq<byte>)
    requires cid < U32 && |nonce| == INIT_NONCE_LEN
    ensures var r := Handshake(w, cid, nonce).1;
            && (r.Ok? <==> w.Writes() && exists k: nat :: AnsweredAt(w, cid, nonce, k))
            && forall k: nat :: w.Writes() && AnsweredAt(w, cid, nonce, k) ==> r == Ok(InfoIn(w.polls[k].report))
  {
    RequestWritten(w, cid, nonce);
    if w.Writes() {
      var sent := w.(written := w.written + Packets(cid, CMD_INIT, nonce));
      AwaitDecided(sent, cid, nonce);
      forall k: nat | DecisiveAt(cid, w.left, w.polls, k)
        ensures Handshake(w, cid, nonce).1.Ok? <==> AnsweredAt(w, cid, nonce, k)
        ensures AnsweredAt(w, cid, nonce, k) ==> Handshake(w, cid, nonce).1 == Ok(InfoIn(w.polls[k].report))
      {
        VerdictExact(cid, nonce, w.polls[k].report);
      }
    }
  }

  /**
   A resync of a held channel: exactly the one INIT request goes out, on that channel, and it
   succeeds if and only if it is accepted, the budget lasts, and the first report not passed over on
   that channel answers the nonce just sent.
   */
  lemma {:induction false} ResyncExact(w: World, channel: nat, counter: nat)
    requires channel < U32
    ensures var nonce := NonceAfter(counter);
            var (end, r) := Resynced(w, Some(channel), nonce);
            && WroteInit(w, end, channel, nonce)
            && (r.Ok? <==> w.Writes() && exists k: nat :: AnsweredAt(w, channel, nonce, k))
            && forall k: nat :: w.Writes() && AnsweredAt(w, channel, nonce, k) ==> r == Ok(InfoIn(w.polls[k].report))
  {
    HandshakeWrites(w, channel, NonceAfter(counter));
    HandshakeExact(w, channel, NonceAfter(counter));
  }

  /** With no channel held a resync allocates: the request goes out on broadcast, and a reserved channel is refused. */
  lemma {:induction false} ResyncAllocates(w: World, counter: nat)
    ensures var nonce := NonceAfter(counter);
            var (end, r) := Resynced(w, None, nonce);
            && WroteInit(w, end, 0xFFFF_FFFF, nonce)
            && (r.Ok? <==>
                && w.Writes()
                && (exists k: nat :: AnsweredAt(w, 0xFFFF_FFFF, nonce, k)
                                     && 0 < InfoIn(w.polls[k].report).cid < 0xFFFF_FFFF))
  {
    var nonce := NonceAfter(counter);
    HandshakeWrites(w, BROADCAST_CID, nonce);
    HandshakeExact(w, BROADCAST_CID, nonce);
    ChannelRange(w, BROADCAST_CID, nonce);
    var r := Resynced(w, None, nonce).1;
    if r.Ok? {
      var k: nat :| AnsweredAt(w, BROADCAST_CID, nonce, k);
    }
  }
}
