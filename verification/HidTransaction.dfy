/** One transaction over a polled descriptor: write, receive, retry when busy, all on one budget. */
module HidTransaction {
  import opened Wrappers
  import opened ByteOrder
  import opened Budget
  import opened HidPacket
  import opened HidAssembler

  const READ_POLL_QUANTUM: nat := 5 * MILLISECOND
  const BUSY_RETRY_DELAY: nat := 50 * MILLISECOND
  const BROADCAST_CID: nat := 0xFFFF_FFFF
  const INIT_NONCE_LEN: nat := 8
  const INIT_RESPONSE_LEN: nat := 17

  datatype Failure = Framing(error: FramingError) | WriteFailed | TimedOut(phase: Phase) | DeviceGone

  /** What one non-blocking read finds. */
  datatype Poll = Arrived(report: Report) | Nothing | Gone

  /**
   What a transaction runs against: the reads still to come (nothing more after them), the reports
   written, the write from which on the device refuses, the budget left, the sleeps taken, and the
   keepalive statuses surfaced.
   */
  datatype World = World(polls: seq<Poll>, written: seq<Packet>, refuseFrom: Option<nat>,
                         left: nat, slept: seq<nat>, surfaced: seq<byte>)
  {
    function NextPoll(): Poll {
      if polls == [] then Nothing else polls[0]
    }

    function Polled(): World {
      this.(polls := Drop(polls, 1))
    }

    /** Sleeps for the slice the budget grants. */
    function Ticked(d: nat): World {
      var grant := Min(d, left);
      this.(left := left - grant, slept := slept + [grant])
    }

    function Surfaced(statuses: seq<byte>): World {
      this.(surfaced := surfaced + statuses)
    }

    predicate Writes() {
      refuseFrom.None? || |written| < refuseFrom.value
    }
  }

  // ---- what the loops answer

  function ReadReport(w: World, phase: Phase): (r: (World, Result<Report, Failure>))
    ensures |r.0.polls| <= |w.polls| && (r.1.Ok? ==> |r.0.polls| < |w.polls|)
    decreases |w.polls|, w.left
  {
    var next := w.Polled();
    match w.NextPoll()
    case Arrived(report) => (next, Ok(report))
    case Gone => (next, Err(DeviceGone))
    case Nothing =>
      if w.left == 0 then (next, Err(TimedOut(phase))) else ReadReport(next.Ticked(READ_POLL_QUANTUM), phase)
  }

  function WriteAll(w: World, packets: seq<Packet>): (r: (World, bool))
    ensures r.0.polls == w.polls
    decreases |packets|
  {
    if packets == [] then (w, true)
    else if !w.Writes() then (w, false)
    else WriteAll(w.(written := w.written + [packets[0]]), packets[1..])
  }

  function Receive(w: World, a: Asm, cmd: byte, phase: Phase): (r: (World, Result<Step, Failure>))
    ensures |r.0.polls| <= |w.polls| && (r.1.Ok? ==> |r.0.polls| < |w.polls| && r.1.value != Continue)
    decreases |w.polls|
  {
    var (next, read) := ReadReport(w, phase);
    if read.Err? then (next, Err(read.error)) else
      var s := StepOn(a, cmd, read.value);
      var after := next.Surfaced(s.surfaced);
      if s.result.Err? then (after, Err(Framing(s.result.error)))
      else if s.result.value != Continue then (after, Ok(s.result.value))
      else Receive(after, s.asm, cmd, phase)
  }

  /** The whole request written once, and the answer to it. */
  function Attempt(w: World, cid: nat, cmd: byte, payload: seq<byte>, phase: Phase): (r: (World, Result<Step, Failure>))
    requires cid < U32
    ensures |r.0.polls| <= |w.polls| && (r.1.Ok? ==> |r.0.polls| < |w.polls| && r.1.value != Continue)
  {
    match Encoded(cid, cmd, payload)
    case Err(e) => (w, Err(Framing(e)))
    case Ok(packets) =>
      var (sent, ok) := WriteAll(w, packets);
      if !ok then (sent, Err(WriteFailed)) else Receive(sent, Idle(cid), cmd, phase)
  }

  function Transact(w: World, cid: nat, cmd: byte, payload: seq<byte>, phase: Phase): (World, Result<Outcome, Failure>)
    requires cid < U32
    decreases |w.polls|
  {
    var (heard, r) := Attempt(w, cid, cmd, payload, phase);
    if r.Err? then (heard, Err(r.error))
    else if r.value.Resolved? then (heard, Ok(r.value.outcome))
    else if heard.left == 0 then (heard, Err(TimedOut(phase)))
    else Transact(heard.Ticked(BUSY_RETRY_DELAY), cid, cmd, payload, phase)
  }

  function OnChannel(w: World, cid: Option<nat>, cmd: byte, payload: seq<byte>, phase: Phase): (World,
                     Result<Outcome, Failure>)
    requires cid.Some? ==> cid.value < U32
  {
    match cid
    case None => (w, Err(Framing(UnexpectedCommand(cmd, CMD_CBOR))))
    case Some(c) => Transact(w, c, cmd, payload, phase)
  }

  datatype InitInfo = InitInfo(cid: nat, version: byte, device: seq<byte>, capabilities: byte)

  function DecodeInit(payload: seq<byte>): Result<InitInfo, FramingError> {
    if |payload| < INIT_RESPONSE_LEN then Err(InitResponseShort(|payload|))
    else Ok(InitInfo(FromBE(payload[8..12]), payload[12], payload[13..16], payload[16]))
  }

  function Reply(nonce: seq<byte>, payload: seq<byte>): Result<InitInfo, FramingError> {
    if Take(payload, INIT_NONCE_LEN) != nonce then Err(NonceMismatch) else DecodeInit(payload)
  }

  /** The wait for the answer to an INIT request. */
  function AwaitInit(w: World, cid: nat, nonce: seq<byte>): (r: (World, Result<InitInfo, Failure>))
    requires |nonce| == INIT_NONCE_LEN
    decreases |w.polls|
  {
    var (next, read) := ReadReport(w, ChannelOpen);
    if read.Err? then (next, Err(read.error)) else
      match ParseInitHeader(read.value)
      case Err(e) => (next, Err(Framing(e)))
      case Ok(hdr) =>
        if hdr.cid != cid || hdr.cmd != CMD_INIT then AwaitInit(next, cid, nonce) else
          match Reply(nonce, PayloadOf(read.value, hdr).value)
          case Err(e) => (next, Err(Framing(e)))
          case Ok(info) => (next, Ok(info))
  }

  function Handshake(w: World, cid: nat, nonce: seq<byte>): (World, Result<InitInfo, Failure>)
    requires cid < U32 && |nonce| == INIT_NONCE_LEN
  {
    var (sent, ok) := WriteAll(w, Packets(cid, CMD_INIT, nonce));
    if !ok then (sent, Err(WriteFailed)) else AwaitInit(sent, cid, nonce)
  }

  /** `NonceSource::next` after `counter` earlier calls: the counter wraps at 64 bits. */
  function NonceAfter(counter: nat): (nonce: seq<byte>)
    ensures |nonce| == INIT_NONCE_LEN
  {
    ToBE((counter + 1) % U64, 8)
  }

  // ---- the running objects

  /** A descriptor with the reads it will answer and the reports written to it. */
  class Fd {
    var polls: seq<Poll>
    var written: seq<Packet>
    const refuseFrom: Option<nat>

    constructor (polls: seq<Poll>, refuseFrom: Option<nat>)
      ensures this.polls == polls && written == [] && this.refuseFrom == refuseFrom
    {
      this.polls := polls;
      this.refuseFrom := refuseFrom;
      written := [];
    }

    method WriteReport(p: Packet) returns (ok: bool)
      modifies this`written
      ensures ok <==> refuseFrom.None? || |old(written)| < refuseFrom.value
      ensures written == if ok then old(written) + [p] else old(written)
    {
      ok := refuseFrom.None? || |written| < refuseFrom.value;
      if ok {
        written := written + [p];
      }
    }

    method ReadNonblocking() returns (poll: Poll)
      modifies this`polls
      ensures polls == Drop(old(polls), 1)
      ensures poll == if old(polls) == [] then Nothing else old(polls)[0]
    {
      if polls == [] {
        return Nothing;
      }
      poll := polls[0];
      polls := polls[1..];
    }
  }

  /** The caller's side: the sleeps its clock is asked for and the statuses its keepalive sink is given. */
  class Host {
    var slept: seq<nat>
    var surfaced: seq<byte>

    constructor ()
      ensures slept == [] && surfaced == []
    {
      slept, surfaced := [], [];
    }
  }

  function WorldOf(fd: Fd, deadline: Deadline, host: Host): World
    reads fd, deadline, host
  {
    World(fd.polls, fd.written, fd.refuseFrom, deadline.remaining, host.slept, host.surfaced)
  }

  /** A sleep of the next slice the budget grants, if it grants any. */
  method Pause(fd: Fd, deadline: Deadline, host: Host, d: nat) returns (slept: bool)
    requires deadline.Valid() && d < U64
    modifies deadline, host`slept
    ensures deadline.Valid() && (slept <==> old(deadline.remaining) > 0)
    ensures WorldOf(fd, deadline, host)
         == if slept then old(WorldOf(fd, deadline, host)).Ticked(d) else old(WorldOf(fd, deadline, host))
  {
    var granted := deadline.ConsumeSlice(d);
    if granted.Some? {
      host.slept := host.slept + [granted.value];
    }
    slept := granted.Some?;
  }

  /** `read_report_bounded`. */
  method ReadReportBounded(fd: Fd, deadline: Deadline, host: Host, phase: Phase) returns (r: Result<Report, Failure>)
    requires deadline.Valid()
    modifies fd`polls, deadline, host`slept
    ensures deadline.Valid()
    ensures (WorldOf(fd, deadline, host), r) == ReadReport(old(WorldOf(fd, deadline, host)), phase)
  {
    ghost var answer := ReadReport(WorldOf(fd, deadline, host), phase);
    while true
      invariant deadline.Valid() && answer == ReadReport(WorldOf(fd, deadline, host), phase)
      decreases |fd.polls|, deadline.remaining
    {
      var poll := fd.ReadNonblocking();
      match poll {
        case Arrived(report) => return Ok(report);
        case Gone => return Err(DeviceGone);
        case Nothing =>
      }
      var slept := Pause(fd, deadline, host, READ_POLL_QUANTUM);
      if !slept {
        return Err(TimedOut(phase));
      }
    }
  }

  /** One hidraw connection: its descriptor, its channel and its nonce counter. */
  class Fsm {
    const fd: Fd
    var cid: Option<nat>
    var info: Option<InitInfo>
    var nonces: nat

    ghost predicate Valid()
      reads this
    {
      cid.Some? ==> cid.value < U32
    }

    constructor (fd: Fd)
      ensures Valid() && this.fd == fd && cid == None && info == None && nonces == 0
    {
      this.fd := fd;
      cid, info, nonces := None, None, 0;
    }

    method WriteMessage(packets: seq<Packet>, deadline: Deadline, host: Host) returns (ok: bool)
      modifies fd`written
      ensures (WorldOf(fd, deadline, host), ok) == WriteAll(old(WorldOf(fd, deadline, host)), packets)
    {
      for i := 0 to |packets|
        invariant WriteAll(old(WorldOf(fd, deadline, host)), packets)
               == WriteAll(WorldOf(fd, deadline, host), packets[i..])
      {
        assert packets[i..][1..] == packets[i + 1..];
        var done := fd.WriteReport(packets[i]);
        if !done {
          return false;
        }
      }
      ok := true;
    }

    method ReceiveLoop(channel: nat, cmd: byte, phase: Phase, deadline: Deadline, host: Host)
      returns (r: Result<Step, Failure>)
      requires deadline.Valid()
      modifies fd`polls, deadline, host
      ensures deadline.Valid()
      ensures (WorldOf(fd, deadline, host), r) == Receive(old(WorldOf(fd, deadline, host)), Idle(channel), cmd, phase)
    {
      var assembler := new Assembler(channel);
      while true
        invariant deadline.Valid() && fresh(assembler)
        invariant Receive(old(WorldOf(fd, deadline, host)), Idle(channel), cmd, phase)
               == Receive(WorldOf(fd, deadline, host), assembler.View(), cmd, phase)
        decreases |fd.polls|
      {
        var report := ReadReportBounded(fd, deadline, host, phase);
        if report.Err? {
          return Err(report.error);
        }
        var step, surfaced := StepReport(assembler, cmd, report.value);
        host.surfaced := host.surfaced + surfaced;
        if step.Err? {
          return Err(Framing(step.error));
        }
        if step.value != Continue {
          return Ok(step.value);
        }
      }
    }

    method SendAndReceive(channel: nat, cmd: byte, payload: seq<byte>, phase: Phase, deadline: Deadline, host: Host)
      returns (r: Result<Step, Failure>)
      requires channel < U32 && deadline.Valid()
      modifies fd, deadline, host
      ensures deadline.Valid()
      ensures (WorldOf(fd, deadline, host), r)
           == Attempt(old(WorldOf(fd, deadline, host)), channel, cmd, payload, phase)
    {
      var packets := EncodeMessage(channel, cmd, payload);
      if packets.Err? {
        return Err(Framing(packets.error));
      }
      var sent := WriteMessage(packets.value, deadline, host);
      if !sent {
        return Err(WriteFailed);
      }
      r := ReceiveLoop(channel, cmd, phase, deadline, host);
    }

    method Transaction(cmd: byte, payload: seq<byte>, phase: Phase, deadline: Deadline, host: Host)
      returns (r: Result<Outcome, Failure>)
      requires Valid() && deadline.Valid()
      modifies fd, deadline, host
      ensures Valid() && deadline.Valid()
      ensures (WorldOf(fd, deadline, host), r)
           == OnChannel(old(WorldOf(fd, deadline, host)), cid, cmd, payload, phase)
    {
      if cid.None? {
        return Err(Framing(UnexpectedCommand(cmd, CMD_CBOR)));
      }
      r := RetryWhileBusy(cid.value, cmd, payload, phase, deadline, host);
    }

    method RetryWhileBusy(channel: nat, cmd: byte, payload: seq<byte>, phase: Phase, deadline: Deadline, host: Host)
      returns (r: Result<Outcome, Failure>)
      requires channel < U32 && deadline.Valid()
      modifies fd, deadline, host
      ensures deadline.Valid()
      ensures (WorldOf(fd, deadline, host), r)
           == Transact(old(WorldOf(fd, deadline, host)), channel, cmd, payload, phase)
    {
      ghost var answer := Transact(WorldOf(fd, deadline, host), channel, cmd, payload, phase);
      while true
        invariant deadline.Valid() && answer == Transact(WorldOf(fd, deadline, host), channel, cmd, payload, phase)
        decreases |fd.polls|
      {
        var step := SendAndReceive(channel, cmd, payload, phase, deadline, host);
        if step.Err? {
          return Err(step.error);
        }
        if step.value.Resolved? {
          return Ok(step.value.outcome);
        }
        var slept := Pause(fd, deadline, host, BUSY_RETRY_DELAY);
        if !slept {
          return Err(TimedOut(phase));
        }
      }
    }

    method NextNonce() returns (nonce: seq<byte>)
      modifies this`nonces
      ensures nonces == old(nonces) + 1 && nonce == NonceAfter(old(nonces))
    {
      nonces := nonces + 1;
      nonce := ToBE(nonces % U64, 8);
    }

    method ReadReply(report: Report, hdr: Header, nonce: seq<byte>) returns (r: Result<InitInfo, Failure>)
      requires ParseInitHeader(report) == Ok(hdr) && |nonce| == INIT_NONCE_LEN
      ensures match Reply(nonce, PayloadOf(report, hdr).value)
              case Ok(info) => r == Ok(info)
              case Err(e) => r == Err(Framing(e))
    {
      var payload := report[INIT_HEADER..];
      if |payload| > hdr.bcnt {
        payload := payload[..hdr.bcnt];
      }
      assert |payload| < INIT_NONCE_LEN ==> payload != nonce;
      if |payload| < INIT_NONCE_LEN || payload[..INIT_NONCE_LEN] != nonce {
        return Err(Framing(NonceMismatch));
      }
      assert payload == PayloadOf(report, hdr).value;
      var decoded := DecodeInit(payload);
      r := if decoded.Ok? then Ok(decoded.value) else Err(Framing(decoded.error));
    }

    /** `init_handshake`. It never classifies: any header of the right channel and command answers it. */
    method InitHandshake(channel: nat, deadline: Deadline, host: Host) returns (r: Result<InitInfo, Failure>)
      requires channel < U32 && deadline.Valid()
      modifies this`nonces, fd, deadline, host
      ensures deadline.Valid() && nonces == old(nonces) + 1
      ensures (WorldOf(fd, deadline, host), r)
           == Handshake(old(WorldOf(fd, deadline, host)), channel, NonceAfter(old(nonces)))
    {
      var nonce := NextNonce();
      var packets := EncodeMessage(channel, CMD_INIT, nonce);
      var sent := WriteMessage(packets.value, deadline, host);
      if !sent {
        return Err(WriteFailed);
      }
      ghost var answer := AwaitInit(WorldOf(fd, deadline, host), channel, nonce);
      assert answer == Handshake(old(WorldOf(fd, deadline, host)), channel, nonce);
      while true
        invariant deadline.Valid() && nonces == old(nonces) + 1
        invariant answer == AwaitInit(WorldOf(fd, deadline, host), channel, nonce)
        decreases |fd.polls|
      {
        var report := ReadReportBounded(fd, deadline, host, ChannelOpen);
        if report.Err? {
          return Err(report.error);
        }
        var hdr := ParseInitHeader(report.value);
        if hdr.Err? {
          return Err(Framing(hdr.error));
        }
        if hdr.value.cid == channel && hdr.value.cmd == CMD_INIT {
          r := ReadReply(report.value, hdr.value, nonce);
          return;
        }
      }
    }

    /** `allocate`: the channel changes only on success, and never to a reserved one. */
    method Allocate(deadline: Deadline, host: Host) returns (r: Result<InitInfo, Failure>)
      requires Valid() && deadline.Valid()
      modifies this, fd, deadline, host
      ensures Valid() && deadline.Valid() && nonces == old(nonces) + 1
      ensures r.Ok? ==> cid == Some(r.value.cid) && info == Some(r.value)
      ensures r.Err? ==> cid == old(cid) && info == old(info)
      ensures (WorldOf(fd, deadline, host), r) ==
              Allocated(Handshake(old(WorldOf(fd, deadline, host)), BROADCAST_CID, NonceAfter(old(nonces))))
    {
      var got := InitHandshake(BROADCAST_CID, deadline, host);
      if got.Err? {
        return got;
      }
      if got.value.cid == 0 || got.value.cid == BROADCAST_CID {
        return Err(Framing(ReservedCid(got.value.cid)));
      }
      ChannelRange(old(WorldOf(fd, deadline, host)), BROADCAST_CID, NonceAfter(old(nonces)));
      cid := Some(got.value.cid);
      info := Some(got.value);
      r := got;
    }

    /** `resync`: an INIT on the channel already held, which it keeps. */
    method Resync(deadline: Deadline, host: Host) returns (r: Result<InitInfo, Failure>)
      requires Valid() && deadline.Valid()
      modifies this, fd, deadline, host
      ensures Valid() && deadline.Valid() && nonces == old(nonces) + 1
      ensures old(cid).Some? ==> cid == old(cid) && info == old(info)
      ensures (WorldOf(fd, deadline, host), r)
           == Resynced(old(WorldOf(fd, deadline, host)), old(cid), NonceAfter(old(nonces)))
    {
      if cid.None? {
        r := Allocate(deadline, host);
      } else {
        r := InitHandshake(cid.value, deadline, host);
      }
    }
  }

  function Resynced(w: World, cid: Option<nat>, nonce: seq<byte>): (World, Result<InitInfo, Failure>)
    requires (cid.Some? ==> cid.value < U32) && |nonce| == INIT_NONCE_LEN
  {
    match cid
    case None => Allocated(Handshake(w, BROADCAST_CID, nonce))
    case Some(c) => Handshake(w, c, nonce)
  }

  function Allocated(h: (World, Result<InitInfo, Failure>)): (World, Result<InitInfo, Failure>) {
    if h.1.Ok? && (h.1.value.cid == 0 || h.1.value.cid == BROADCAST_CID)
    then (h.0, Err(Framing(ReservedCid(h.1.value.cid)))) else h
  }

  lemma {:induction false} ChannelRange(w: World, cid: nat, nonce: seq<byte>)
    requires cid < U32 && |nonce| == INIT_NONCE_LEN
    ensures Handshake(w, cid, nonce).1.Ok? ==> Handshake(w, cid, nonce).1.value.cid < U32
  {
    AwaitRange(WriteAll(w, Packets(cid, CMD_INIT, nonce)).0, cid, nonce);
  }

  lemma {:induction false} AwaitRange(w: World, cid: nat, nonce: seq<byte>)
    requires |nonce| == INIT_NONCE_LEN
    ensures AwaitInit(w, cid, nonce).1.Ok? ==> AwaitInit(w, cid, nonce).1.value.cid < U32
    decreases |w.polls|
  {
    var (next, read) := ReadReport(w, ChannelOpen);
    if read.Ok? && ParseInitHeader(read.value).Ok? {
      var hdr := ParseInitHeader(read.value).value;
      if hdr.cid != cid || hdr.cmd != CMD_INIT {
        AwaitRange(next, cid, nonce);
      } else {
        var payload := PayloadOf(read.value, hdr).value;
        if |payload| >= INIT_RESPONSE_LEN {
          ToBEFromBE(payload[8..12]);
          Pow256Values();
        }
      }
    }
  }
}
