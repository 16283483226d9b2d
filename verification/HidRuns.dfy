/** What holds over whole transactions, whatever the descriptor answers. */
module HidRuns {
  import opened Wrappers
  import opened ByteOrder
  import opened Budget
  import opened HidPacket
  import opened HidAssembler
  import opened HidReassembly
  import opened HidSoundness
  import opened HidTransaction

  // ---- what is counted along a run

  /** Sleeps taken and budget left: what must stay the same together. */
  function Holdings(w: World): nat {
    Sum(w.slept) + w.left
  }

  lemma {:induction false} SumAppend(s: seq<nat>, x: nat)
    ensures Sum(s + [x]) == Sum(s) + x
  {
    if s != [] {
      SumAppend(s[1..], x);
      assert (s + [x])[1..] == s[1..] + [x];
    }
  }

  /** A one-byte ERROR frame on our channel saying that the channel is busy. */
  predicate IsBusy(cid: nat, r: Report) {
    && |r| == REPORT_SIZE && FromBE(r[..4]) == cid && r[4] == Tagged(CMD_ERROR)
    && FromBE(r[5..7]) == 1 && r[INIT_HEADER] == CHANNEL_BUSY
  }

  /** How many of the reads to come bring a busy frame. */
  function BusyAhead(cid: nat, polls: seq<Poll>): nat {
    if polls == [] then 0 else
      (if polls[0].Arrived? && IsBusy(cid, polls[0].report) then 1 else 0) + BusyAhead(cid, polls[1..])
  }

  /** `n` whole copies, one after the other. */
  function Copies<T>(s: seq<T>, n: nat): seq<T> {
    if n == 0 then [] else s + Copies(s, n - 1)
  }

  // ---- step by step

  lemma {:induction false} TickKeeps(w: World, d: nat)
    ensures Holdings(w.Ticked(d)) == Holdings(w)
  {
    SumAppend(w.slept, Min(d, w.left));
  }

  lemma {:induction false} ReadKeeps(w: World, phase: Phase, cid: nat)
    ensures var (next, r) := ReadReport(w, phase);
            && Holdings(next) == Holdings(w) && next.written == w.written && next.refuseFrom == w.refuseFrom
            && next.surfaced == w.surfaced
            && BusyAhead(cid, w.polls) == BusyAhead(cid, next.polls) + (if r.Ok? && IsBusy(cid, r.value) then 1 else 0)
            && (r.Err? ==> r == Err(DeviceGone) || (r == Err(TimedOut(phase)) && next.left == 0))
    decreases |w.polls|, w.left
  {
    if w.NextPoll() == Nothing && w.left > 0 {
      TickKeeps(w.Polled(), READ_POLL_QUANTUM);
      ReadKeeps(w.Polled().Ticked(READ_POLL_QUANTUM), phase, cid);
    }
  }

  lemma {:induction false} StepBusy(a: Asm, cmd: byte, r: Report)
    ensures StepOn(a, cmd, r).result == Ok(Busy) <==> IsBusy(a.cid, r)
    ensures StepOn(a, cmd, r).asm.cid == a.cid
  {
  }

  lemma {:induction false} ReceiveKeeps(w: World, a: Asm, cmd: byte, phase: Phase)
    ensures var (next, r) := Receive(w, a, cmd, phase);
            && Holdings(next) == Holdings(w) && next.written == w.written && next.refuseFrom == w.refuseFrom
            && BusyAhead(a.cid, w.polls) == BusyAhead(a.cid, next.polls) + (if r == Ok(Busy) then 1 else 0)
            && (r.Err? && r.error.TimedOut? ==> r == Err(TimedOut(phase)) && next.left == 0)
            && r != Err(WriteFailed)
    decreases |w.polls|
  {
    var (next, read) := ReadReport(w, phase);
    ReadKeeps(w, phase, a.cid);
    if read.Ok? {
      var s := StepOn(a, cmd, read.value);
      StepBusy(a, cmd, read.value);
      if s.result == Ok(Continue) {
        ReceiveKeeps(next.Surfaced(s.surfaced), s.asm, cmd, phase);
      }
    }
  }

  lemma {:induction false} WritesAll(w: World, packets: seq<Packet>)
    requires w.refuseFrom.None?
    ensures WriteAll(w, packets) == (w.(written := w.written + packets), true)
    decreases |packets|
  {
    if packets == [] {
      assert w.written + packets == w.written;
    } else {
      WritesAll(w.(written := w.written + [packets[0]]), packets[1..]);
      assert w.written + [packets[0]] + packets[1..] == w.written + packets;
    }
  }

  /** From `w` to `end`, `n` whole copies went out and then part of another, which the device refused. */
  ghost predicate CutOff(w: World, end: World, packets: seq<Packet>, n: nat) {
    && w.refuseFrom.Some? && |end.written| >= w.refuseFrom.value
    && exists k: nat :: k < |packets| && end.written == w.written + (Copies(packets, n) + packets[..k])
  }

  lemma {:induction false} WritesOrCut(w: World, packets: seq<Packet>) returns (k: nat)
    ensures k <= |packets| && WriteAll(w, packets) == (w.(written := w.written + packets[..k]), k == |packets|)
    ensures k < |packets| ==> w.refuseFrom.Some? && |w.written| + k >= w.refuseFrom.value
    decreases |packets|
  {
    if packets == [] || !w.Writes() {
      k := 0;
      assert w.written + packets[..0] == w.written;
    } else {
      var j := WritesOrCut(w.(written := w.written + [packets[0]]), packets[1..]);
      k := j + 1;
      assert w.written + [packets[0]] + packets[1..][..j] == w.written + packets[..k];
    }
  }

  /** What an attempt from `w` to `next` writes: one whole copy, or part of one if the device refuses. */
  ghost predicate AttemptWrote(w: World, next: World, packets: seq<Packet>, refused: bool) {
    if refused then CutOff(w, next, packets, 0) else next.written == w.written + packets
  }

  /** One attempt writes one whole copy, or is cut off, and answers after at most one busy frame. */
  lemma {:induction false} AttemptKeeps(w: World, cid: nat, cmd: byte, payload: seq<byte>, phase: Phase)
    requires cid < U32 && |payload| <= MAX_MESSAGE_SIZE
    ensures var (next, r) := Attempt(w, cid, cmd, payload, phase);
            && Holdings(next) == Holdings(w) && next.refuseFrom == w.refuseFrom
            && AttemptWrote(w, next, Packets(cid, cmd, payload), r == Err(WriteFailed))
            && BusyAhead(cid, w.polls) == BusyAhead(cid, next.polls) + (if r == Ok(Busy) then 1 else 0)
            && (r.Err? && r.error.TimedOut? ==> r == Err(TimedOut(phase)) && next.left == 0)
  {
    var packets := Packets(cid, cmd, payload);
    var k := WritesOrCut(w, packets);
    if k < |packets| {
      assert Copies(packets, 0) + packets[..k] == packets[..k];
    } else {
      assert packets[..k] == packets;
      ReceiveKeeps(w.(written := w.written + packets), Idle(cid), cmd, phase);
    }
  }

  // ---- whole transactions

  /** Where the last attempt of a transaction starts: the request goes out there, and not again. */
  function LastAttempt(w: World, cid: nat, cmd: byte, payload: seq<byte>, phase: Phase): World
    requires cid < U32
    decreases |w.polls|
  {
    var (heard, r) := Attempt(w, cid, cmd, payload, phase);
    if r == Ok(Busy) && heard.left > 0
    then LastAttempt(heard.Ticked(BUSY_RETRY_DELAY), cid, cmd, payload, phase)
    else w
  }

  /** The last attempt met a busy frame too, and found the budget spent. */
  predicate EndedBusy(w: World, cid: nat, cmd: byte, payload: seq<byte>, phase: Phase)
    requires cid < U32
  {
    Attempt(LastAttempt(w, cid, cmd, payload, phase), cid, cmd, payload, phase).1 == Ok(Busy)
  }

  /** What a transaction from `w` to `end` with outcome `r` keeps and counts. */
  ghost predicate RunKept(w: World, end: World, cid: nat, packets: seq<Packet>, phase: Phase,
                          r: Result<Outcome, Failure>, endedBusy: bool)
  {
    var timedOut := r.Err? && r.error.TimedOut?;
    var busy := BusyAhead(cid, w.polls) - BusyAhead(cid, end.polls);
    && Holdings(end) == Holdings(w)
    && busy >= 0 && (endedBusy ==> busy > 0 && timedOut)
    && RunWrote(w, end, packets, busy, r == Err(WriteFailed), endedBusy)
    && (timedOut ==> r == Err(TimedOut(phase)) && end.left == 0)
  }

  /** The copies written: one more than busy frames met, as many if the last was met at zero budget or refused. */
  ghost predicate RunWrote(w: World, end: World, packets: seq<Packet>, busy: nat, refused: bool, endedBusy: bool) {
    if refused then CutOff(w, end, packets, busy)
    else end.written == w.written + Copies(packets, if endedBusy then busy else busy + 1)
  }

  /**
   Whatever arrives and in whatever rhythm: sleeps plus remaining budget make up the starting
   budget; the request went out once and once more for every busy frame met, except for a last one
   that found the budget spent or the device refusing; and a timeout is reported only with the
   budget spent, naming the caller's phase.
   */
  lemma {:induction false} TransactionRun(w: World, cid: nat, cmd: byte, payload: seq<byte>, phase: Phase)
    requires cid < U32 && |payload| <= MAX_MESSAGE_SIZE
    ensures var (end, r) := Transact(w, cid, cmd, payload, phase);
            RunKept(w, end, cid, Packets(cid, cmd, payload), phase, r, EndedBusy(w, cid, cmd, payload, phase))
    decreases |w.polls|
  {
    var packets := Packets(cid, cmd, payload);
    var (heard, r) := Attempt(w, cid, cmd, payload, phase);
    AttemptKeeps(w, cid, cmd, payload, phase);
    if r == Ok(Busy) && heard.left > 0 {
      var next := heard.Ticked(BUSY_RETRY_DELAY);
      TickKeeps(heard, BUSY_RETRY_DELAY);
      TransactionRun(next, cid, cmd, payload, phase);
      Reissued(w, cid, cmd, payload, phase);
      var (end, answer) := Transact(next, cid, cmd, payload, phase);
      RunExtended(w, next, end, cid, packets, phase, answer, EndedBusy(next, cid, cmd, payload, phase));
    } else {
      RunOnce(w, heard, cid, packets, phase, r);
    }
  }

  /** A busy frame met with budget left: the rest of the run is the run from the re-issue on. */
  lemma {:induction false} Reissued(w: World, cid: nat, cmd: byte, payload: seq<byte>, phase: Phase)
    requires cid < U32 && Attempt(w, cid, cmd, payload, phase).1 == Ok(Busy)
    requires Attempt(w, cid, cmd, payload, phase).0.left > 0
    ensures var next := Attempt(w, cid, cmd, payload, phase).0.Ticked(BUSY_RETRY_DELAY);
            && Transact(w, cid, cmd, payload, phase) == Transact(next, cid, cmd, payload, phase)
            && EndedBusy(w, cid, cmd, payload, phase) == EndedBusy(next, cid, cmd, payload, phase)
  {
  }

  /** How a transaction answers after its last attempt. */
  function Settled(r: Result<Step, Failure>, phase: Phase): Result<Outcome, Failure> {
    if r.Err? then Err(r.error) else if r.value.Resolved? then Ok(r.value.outcome) else Err(TimedOut(phase))
  }

  lemma {:induction false} RunOnce(w: World, end: World, cid: nat, packets: seq<Packet>, phase: Phase,
                                   r: Result<Step, Failure>)
    requires Holdings(end) == Holdings(w) && (r == Ok(Busy) ==> end.left == 0)
    requires AttemptWrote(w, end, packets, r == Err(WriteFailed))
    requires BusyAhead(cid, w.polls) == BusyAhead(cid, end.polls) + (if r == Ok(Busy) then 1 else 0)
    requires r.Err? && r.error.TimedOut? ==> r == Err(TimedOut(phase)) && end.left == 0
    requires r != Ok(Continue)
    ensures RunKept(w, end, cid, packets, phase, Settled(r, phase), r == Ok(Busy))
  {
    assert packets + Copies(packets, 0) == packets == Copies(packets, 1);
  }

  lemma {:induction false} RunExtended(w: World, next: World, end: World, cid: nat, packets: seq<Packet>, phase: Phase,
                                       r: Result<Outcome, Failure>, endedBusy: bool)
    requires Holdings(next) == Holdings(w) && next.written == w.written + packets && next.refuseFrom == w.refuseFrom
    requires BusyAhead(cid, w.polls) == BusyAhead(cid, next.polls) + 1
    requires RunKept(next, end, cid, packets, phase, r, endedBusy)
    ensures RunKept(w, end, cid, packets, phase, r, endedBusy)
  {
    CopiesExtended(w, next, end, packets, BusyAhead(cid, next.polls) - BusyAhead(cid, end.polls), r == Err(WriteFailed),
                   endedBusy);
  }

  lemma {:induction false} CopiesExtended(w: World, next: World, end: World, packets: seq<Packet>, busy: nat,
                                          refused: bool, endedBusy: bool)
    requires next.written == w.written + packets && next.refuseFrom == w.refuseFrom
    requires RunWrote(next, end, packets, busy, refused, endedBusy)
    ensures RunWrote(w, end, packets, busy + 1, refused, endedBusy)
  {
    if refused {
      var k: nat :| k < |packets| && end.written == next.written + (Copies(packets, busy) + packets[..k]);
      assert w.written + packets + (Copies(packets, busy) + packets[..k])
          == w.written + (packets + Copies(packets, busy) + packets[..k]);
    } else {
      var n := if endedBusy then busy else busy + 1;
      assert w.written + packets + Copies(packets, n) == w.written + (packets + Copies(packets, n));
    }
  }

  /** The next read brings a busy frame. */
  predicate BusyNext(cid: nat, w: World) {
    w.polls != [] && w.polls[0].Arrived? && IsBusy(cid, w.polls[0].report)
  }

  lemma {:induction false} BusyAtOnce(w: World, cid: nat, cmd: byte, payload: seq<byte>, phase: Phase)
    requires cid < U32 && |payload| <= MAX_MESSAGE_SIZE && w.refuseFrom.None? && BusyNext(cid, w)
    ensures var (heard, r) := Attempt(w, cid, cmd, payload, phase);
            && r == Ok(Busy) && heard.left == w.left && heard.polls == w.polls[1..] && heard.refuseFrom.None?
            && heard.written == w.written + Packets(cid, cmd, payload)
  {
    WritesAll(w, Packets(cid, cmd, payload));
    StepBusy(Idle(cid), cmd, w.polls[0].report);
  }

  /** With nothing left, a busy frame is met once and not answered: one copy for one busy frame. */
  lemma {:induction false} BusyWithNothingLeft(w: World, cid: nat, cmd: byte, payload: seq<byte>, phase: Phase)
    requires cid < U32 && |payload| <= MAX_MESSAGE_SIZE && w.refuseFrom.None? && w.left == 0 && BusyNext(cid, w)
    ensures EndedBusy(w, cid, cmd, payload, phase)
    ensures var (end, r) := Transact(w, cid, cmd, payload, phase);
            && r == Err(TimedOut(phase)) && end.polls == w.polls[1..]
            && end.written == w.written + Packets(cid, cmd, payload)
  {
    BusyAtOnce(w, cid, cmd, payload, phase);
  }

  // ---- a budget that always allows for the re-issue

  /** The wait a read can cause: a tick when it finds nothing, a delay when it brings a busy frame. */
  function Wait(cid: nat, poll: Poll): nat {
    match poll
    case Nothing => READ_POLL_QUANTUM
    case Arrived(r) => if IsBusy(cid, r) then BUSY_RETRY_DELAY else 0
    case Gone => 0
  }

  /** The waits the reads to come can cause. */
  function Waits(cid: nat, polls: seq<Poll>): nat {
    if polls == [] then 0 else Wait(cid, polls[0]) + Waits(cid, polls[1..])
  }

  lemma {:induction false} ReadWaits(w: World, phase: Phase, cid: nat)
    ensures var (next, r) := ReadReport(w, phase);
            r.Ok? ==>
              var delay := if IsBusy(cid, r.value) then BUSY_RETRY_DELAY else 0;
              next.left - Waits(cid, next.polls) >= w.left - Waits(cid, w.polls) + delay
    decreases |w.polls|, w.left
  {
    if w.NextPoll() == Nothing && w.left > 0 {
      ReadWaits(w.Polled().Ticked(READ_POLL_QUANTUM), phase, cid);
    }
  }

  lemma {:induction false} ReceiveWaits(w: World, a: Asm, cmd: byte, phase: Phase)
    ensures var (next, r) := Receive(w, a, cmd, phase);
            r == Ok(Busy) ==> next.left - Waits(a.cid, next.polls) >= w.left - Waits(a.cid, w.polls) + BUSY_RETRY_DELAY
    decreases |w.polls|
  {
    var (next, read) := ReadReport(w, phase);
    ReadWaits(w, phase, a.cid);
    if read.Ok? {
      var s := StepOn(a, cmd, read.value);
      StepBusy(a, cmd, read.value);
      if s.result == Ok(Continue) { ReceiveWaits(next.Surfaced(s.surfaced), s.asm, cmd, phase); }
    }
  }

  /** A budget above every wait but the last re-issue's: each busy frame is answered with another copy. */
  lemma {:induction false} EveryBusyReissued(w: World, cid: nat, cmd: byte, payload: seq<byte>, phase: Phase)
    requires cid < U32 && |payload| <= MAX_MESSAGE_SIZE && w.refuseFrom.None?
    requires w.left + BUSY_RETRY_DELAY > Waits(cid, w.polls)
    ensures !EndedBusy(w, cid, cmd, payload, phase)
    ensures var end := Transact(w, cid, cmd, payload, phase).0;
            var busy := BusyAhead(cid, w.polls) - BusyAhead(cid, end.polls);
            busy >= 0 && end.written == w.written + Copies(Packets(cid, cmd, payload), busy + 1)
  {
    ReissuesFit(w, cid, cmd, payload, phase);
    TransactionRun(w, cid, cmd, payload, phase);
  }

  lemma {:induction false} ReissuesFit(w: World, cid: nat, cmd: byte, payload: seq<byte>, phase: Phase)
    requires cid < U32 && |payload| <= MAX_MESSAGE_SIZE && w.refuseFrom.None?
    requires w.left + BUSY_RETRY_DELAY > Waits(cid, w.polls)
    ensures !EndedBusy(w, cid, cmd, payload, phase)
    decreases |w.polls|
  {
    var sent := w.(written := w.written + Packets(cid, cmd, payload));
    WritesAll(w, Packets(cid, cmd, payload));
    ReceiveWaits(sent, Idle(cid), cmd, phase);
    AttemptKeeps(w, cid, cmd, payload, phase);
    var (heard, r) := Attempt(w, cid, cmd, payload, phase);
    if r == Ok(Busy) { ReissuesFit(heard.Ticked(BUSY_RETRY_DELAY), cid, cmd, payload, phase); }
  }

  predicate AllBusy(cid: nat, polls: seq<Poll>) {
    forall i :: 0 <= i < |polls| ==> polls[i].Arrived? && IsBusy(cid, polls[i].report)
  }

  lemma {:induction false} BusyThenNext(w: World, cid: nat, cmd: byte, payload: seq<byte>, phase: Phase)
    returns (next: World)
    requires cid < U32 && |payload| <= MAX_MESSAGE_SIZE && w.refuseFrom.None? && BusyNext(cid, w) && w.left > 0
    ensures next.polls == w.polls[1..] && next.left == w.left - Min(BUSY_RETRY_DELAY, w.left) && next.refuseFrom.None?
    ensures EndedBusy(w, cid, cmd, payload, phase) == EndedBusy(next, cid, cmd, payload, phase)
  {
    BusyAtOnce(w, cid, cmd, payload, phase);
    Reissued(w, cid, cmd, payload, phase);
    next := Attempt(w, cid, cmd, payload, phase).0.Ticked(BUSY_RETRY_DELAY);
  }

  /** On a stream of nothing but busy frames that bound is exact. */
  lemma {:induction false} OnlyBusy(w: World, cid: nat, cmd: byte, payload: seq<byte>, phase: Phase)
    requires cid < U32 && |payload| <= MAX_MESSAGE_SIZE && w.refuseFrom.None? && w.polls != [] && AllBusy(cid, w.polls)
    ensures EndedBusy(w, cid, cmd, payload, phase) <==> w.left + BUSY_RETRY_DELAY <= Waits(cid, w.polls)
    decreases |w.polls|
  {
    if w.left == 0 {
      BusyWithNothingLeft(w, cid, cmd, payload, phase);
    } else {
      var next := BusyThenNext(w, cid, cmd, payload, phase);
      OnlyBusyNext(w, next, cid, cmd, payload, phase);
      if next.polls != [] { OnlyBusy(next, cid, cmd, payload, phase); }
    }
  }

  lemma {:induction false} OnlyBusyNext(w: World, next: World, cid: nat, cmd: byte, payload: seq<byte>, phase: Phase)
    requires cid < U32 && |payload| <= MAX_MESSAGE_SIZE && w.polls != [] && AllBusy(cid, w.polls)
    requires next.polls == w.polls[1..] && next.refuseFrom.None?
    ensures AllBusy(cid, next.polls) && (next.polls == [] ==> !EndedBusy(next, cid, cmd, payload, phase))
  {
    if next.polls == [] { ReissuesFit(next, cid, cmd, payload, phase); }
  }

  /** A request that is too long is refused before anything is written or waited for. */
  lemma {:induction false} TooLongRefused(w: World, cid: nat, cmd: byte, payload: seq<byte>, phase: Phase)
    requires cid < U32
    ensures |payload| > MAX_MESSAGE_SIZE ==>
              Transact(w, cid, cmd, payload, phase) == (w, Err(Framing(MessageTooLong(|payload|))))
  {
  }

  // ---- the reports a run reads

  /** The reports among the reads to come. */
  function Arrivals(polls: seq<Poll>): seq<Report> {
    if polls == [] then [] else
      (if polls[0].Arrived? then [polls[0].report] else []) + Arrivals(polls[1..])
  }

  lemma {:induction false} ReadArrives(w: World, phase: Phase)
    ensures var (next, r) := ReadReport(w, phase);
            Arrivals(w.polls) == (if r.Ok? then [r.value] else []) + Arrivals(next.polls)
    decreases |w.polls|, w.left
  {
    if w.NextPoll() == Nothing && w.left > 0 {
      ReadArrives(w.Polled().Ticked(READ_POLL_QUANTUM), phase);
    }
  }

  /** A delivered frame is the last message heard on the channel while it was awaited. */
  lemma {:induction false} ReceiveDelivers(w: World, a: Asm, cmd: byte, phase: Phase, frames: seq<Report>)
    returns (heard: seq<Report>)
    requires Safe(a) && Holds(a, cmd, frames)
    ensures var (next, r) := Receive(w, a, cmd, phase);
            && Arrivals(w.polls) == heard + Arrivals(next.polls)
            && (r.Ok? && r.value.Resolved? && r.value.outcome.Done? ==>
                  Says(a.cid, cmd, Collect(a.cid, frames, heard), r.value.outcome.frame))
            && (r.Err? && r.error.Framing? ==> !r.error.error.LengthMismatch?)
    decreases |w.polls|
  {
    var (next, read) := ReadReport(w, phase);
    ReadArrives(w, phase);
    ReadKeeps(w, phase, a.cid);
    heard := [];
    if read.Ok? {
      var s := StepOn(a, cmd, read.value);
      var now := CollectOne(a.cid, frames, read.value);
      StepSafe(a, cmd, read.value);
      StepCollects(a, cmd, frames, read.value);
      if s.result == Ok(Continue) {
        var rest := ReceiveDelivers(next.Surfaced(s.surfaced), s.asm, cmd, phase, now);
        heard := [read.value] + rest;
        assert heard[1..] == rest;
        var end := Receive(next.Surfaced(s.surfaced), s.asm, cmd, phase).0;
        assert [read.value] + (rest + Arrivals(end.polls)) == heard + Arrivals(end.polls);
      } else {
        heard := [read.value];
        assert heard[1..] == [];
      }
    }
  }

  /**
   The reports `before` were read up to the last attempt, which starts at `last` and writes the
   request for the last time; `heard` were read from there to `end`, and a delivered frame is the
   message in them.
   */
  ghost predicate DeliveredFrom(w: World, last: World, end: World, cid: nat, cmd: byte, packets: seq<Packet>,
                                r: Result<Outcome, Failure>, before: seq<Report>, heard: seq<Report>) {
    && Arrivals(w.polls) == before + Arrivals(last.polls)
    && end.written == last.written + packets
    && Arrivals(last.polls) == heard + Arrivals(end.polls)
    && (r.Ok? && r.value.Done? ==> Says(cid, cmd, Collect(cid, [], heard), r.value.frame))
  }

  lemma {:induction false} DeliveredLater(w: World, next: World, last: World, end: World, cid: nat, cmd: byte,
                                          packets: seq<Packet>, r: Result<Outcome, Failure>,
                                          first: seq<Report>, before: seq<Report>, heard: seq<Report>)
    requires Arrivals(w.polls) == first + Arrivals(next.polls)
    requires DeliveredFrom(next, last, end, cid, cmd, packets, r, before, heard)
    ensures DeliveredFrom(w, last, end, cid, cmd, packets, r, first + before, heard)
  {
    assert first + (before + Arrivals(last.polls)) == (first + before) + Arrivals(last.polls);
  }

  lemma {:induction false} DeliveredFirst(w: World, cid: nat, cmd: byte, payload: seq<byte>, phase: Phase)
    returns (heard: seq<Report>)
    requires cid < U32 && |payload| <= MAX_MESSAGE_SIZE && w.refuseFrom.None?
    requires Attempt(w, cid, cmd, payload, phase).1 != Ok(Busy) || Attempt(w, cid, cmd, payload, phase).0.left == 0
    ensures var (end, r) := Transact(w, cid, cmd, payload, phase);
            DeliveredFrom(w, w, end, cid, cmd, Packets(cid, cmd, payload), r, [], heard)
  {
    var end;
    end, heard := AttemptDelivers(w, cid, cmd, payload, phase);
    AttemptKeeps(w, cid, cmd, payload, phase);
    assert [] + Arrivals(w.polls) == Arrivals(w.polls);
  }

  /** Soundness of the whole transaction: the frame delivered is one message read since the last request. */
  lemma {:induction false} TransactionDelivers(w: World, cid: nat, cmd: byte, payload: seq<byte>, phase: Phase)
    returns (before: seq<Report>, heard: seq<Report>)
    requires cid < U32 && |payload| <= MAX_MESSAGE_SIZE && w.refuseFrom.None?
    ensures var (end, r) := Transact(w, cid, cmd, payload, phase);
            var last := LastAttempt(w, cid, cmd, payload, phase);
            DeliveredFrom(w, last, end, cid, cmd, Packets(cid, cmd, payload), r, before, heard)
    decreases |w.polls|
  {
    var (after, answer) := Attempt(w, cid, cmd, payload, phase);
    if answer == Ok(Busy) && after.left > 0 {
      var next := after.Ticked(BUSY_RETRY_DELAY);
      var _, first := AttemptDelivers(w, cid, cmd, payload, phase);
      AttemptKeeps(w, cid, cmd, payload, phase);
      before, heard := TransactionDelivers(next, cid, cmd, payload, phase);
      var (end, r) := Transact(next, cid, cmd, payload, phase);
      var last := LastAttempt(next, cid, cmd, payload, phase);
      DeliveredLater(w, next, last, end, cid, cmd, Packets(cid, cmd, payload), r, first, before, heard);
      before := first + before;
    } else {
      before := [];
      heard := DeliveredFirst(w, cid, cmd, payload, phase);
    }
  }

  lemma {:induction false} AttemptDelivers(w: World, cid: nat, cmd: byte, payload: seq<byte>, phase: Phase)
    returns (end: World, heard: seq<Report>)
    requires cid < U32 && |payload| <= MAX_MESSAGE_SIZE && w.refuseFrom.None?
    ensures end == Attempt(w, cid, cmd, payload, phase).0 && Arrivals(w.polls) == heard + Arrivals(end.polls)
    ensures var r := Attempt(w, cid, cmd, payload, phase).1;
            r.Ok? && r.value.Resolved? && r.value.outcome.Done? ==>
              Says(cid, cmd, Collect(cid, [], heard), r.value.outcome.frame)
  {
    var packets := Packets(cid, cmd, payload);
    WritesAll(w, packets);
    end := Attempt(w, cid, cmd, payload, phase).0;
    heard := ReceiveDelivers(w.(written := w.written + packets), Idle(cid), cmd, phase, []);
  }

  // ---- a patient caller gets the answer

  /** The ticks the reads to come cost. */
  function Ticks(polls: seq<Poll>): nat {
    if polls == [] then 0 else (if polls[0].Nothing? then READ_POLL_QUANTUM else 0) + Ticks(polls[1..])
  }

  /** The device stays, and the budget covers every empty read. */
  ghost predicate Patient(w: World) {
    (forall i :: 0 <= i < |w.polls| ==> !w.polls[i].Gone?) && w.left >= Ticks(w.polls)
  }

  lemma {:induction false} ReadPatiently(w: World, phase: Phase)
    requires Patient(w) && Arrivals(w.polls) != []
    ensures var (next, r) := ReadReport(w, phase);
            && r == Ok(Arrivals(w.polls)[0]) && Arrivals(next.polls) == Arrivals(w.polls)[1..] && Patient(next)
            && next.written == w.written && next.surfaced == w.surfaced
    decreases |w.polls|
  {
    if w.NextPoll() == Nothing {
      ReadPatiently(w.Polled().Ticked(READ_POLL_QUANTUM), phase);
    }
  }

  lemma {:induction false} ReceivePatiently(w: World, a: Asm, cmd: byte, phase: Phase, f: Fed)
    requires Patient(w) && f == Feed(a, cmd, Arrivals(w.polls))
    requires f.result.Ok? && f.result.value != Continue
    ensures Matches(w, f, Receive(w, a, cmd, phase))
    decreases |w.polls|
  {
    var (next, read) := ReadReport(w, phase);
    ReadPatiently(w, phase);
    var s := StepOn(a, cmd, read.value);
    if s.result == Ok(Continue) {
      var mid, g := next.Surfaced(s.surfaced), Feed(s.asm, cmd, Arrivals(next.polls));
      ReceivePatiently(mid, s.asm, cmd, phase, g);
      MatchesAfter(w, mid, s.surfaced, f, g, Receive(mid, s.asm, cmd, phase));
    } else {
      assert f == Fed(s.asm, s.surfaced, 1, s.result);
    }
  }

  /** The receive loop ends as the run `f` of the assembler ends, and surfaces what it surfaces. */
  ghost predicate Matches(w: World, f: Fed, end: (World, Result<Step, Failure>)) {
    && f.result.Ok? && end.1 == Ok(f.result.value)
    && end.0.surfaced == w.surfaced + f.surfaced && end.0.written == w.written
  }

  lemma {:induction false} MatchesAfter(w: World, mid: World, surfaced: seq<byte>, f: Fed, g: Fed,
                                        end: (World, Result<Step, Failure>))
    requires mid.surfaced == w.surfaced + surfaced && mid.written == w.written
    requires f == Before(surfaced, 1, g) && Matches(mid, g, end)
    ensures Matches(w, f, end)
  {
    assert w.surfaced + surfaced + g.surfaced == w.surfaced + (surfaced + g.surfaced);
  }

  /**
   Completeness of the whole transaction: when the answer's packets arrive in order among noise and
   the budget lasts, it is delivered whole, the keepalives are surfaced, and one copy was written.
   */
  lemma {:induction false} TransactionThroughNoise(w: World, cid: nat, cmd: byte, request: seq<byte>, phase: Phase,
                                                   answer: seq<byte>, gaps: seq<seq<Report>>, after: seq<Report>)
    requires cid < U32 && |request| <= MAX_MESSAGE_SIZE && |answer| <= MAX_MESSAGE_SIZE
    requires cmd < 0x80 && cmd != CMD_KEEPALIVE && cmd != CMD_ERROR
    requires |gaps| == |Packets(cid, cmd, answer)| && AllHarmless(cid, gaps[1..])
    requires forall j :: 0 <= j < |gaps[0]| ==> Harmless(cid, gaps[0][j]) || Stray(cid, gaps[0][j])
    requires Patient(w) && w.refuseFrom.None? && Arrivals(w.polls) == Weave(gaps, Packets(cid, cmd, answer)) + after
    ensures var (end, r) := Transact(w, cid, cmd, request, phase);
            && r == Ok(Done(FrameOf(cmd, answer)))
            && (cmd == 0x01 ==> r.value.frame == PingFrame(answer)) && (cmd == 0x08 ==> r.value.frame == WinkFrame)
            && (cmd == 0x10 ==> r.value.frame == CborFrame(answer))
            && end.surfaced == w.surfaced + Statuses(cid, Flat(gaps))
            && end.written == w.written + Packets(cid, cmd, request)
  {
    var sent := w.(written := w.written + Packets(cid, cmd, request));
    WritesAll(w, Packets(cid, cmd, request));
    ReassemblyThroughNoise(cid, cmd, answer, gaps, after);
    ReceivePatiently(sent, Idle(cid), cmd, phase, Feed(Idle(cid), cmd, Arrivals(w.polls)));
  }

  // ---- channel allocation

  /** The answer to an INIT request: on that channel, of that command, beginning with that nonce. */
  ghost predicate Answers(cid: nat, nonce: seq<byte>, r: Report, info: InitInfo) {
    && |r| == REPORT_SIZE && FromBE(r[..4]) == cid && r[4] % 0x80 == CMD_INIT
    && FromBE(r[5..7]) >= INIT_RESPONSE_LEN && r[7..15] == nonce
    && info == InitInfo(FromBE(r[15..19]), r[19], r[20..23], r[23])
  }

  lemma {:induction false} AwaitAnswered(w: World, cid: nat, nonce: seq<byte>)
    requires |nonce| == INIT_NONCE_LEN
    ensures var (next, r) := AwaitInit(w, cid, nonce);
            && Holdings(next) == Holdings(w)
            && (r.Ok? ==>
                  exists i :: 0 <= i < |Arrivals(w.polls)| && Answers(cid, nonce, Arrivals(w.polls)[i], r.value))
    decreases |w.polls|
  {
    var (next, read) := ReadReport(w, ChannelOpen);
    ReadKeeps(w, ChannelOpen, cid);
    ReadArrives(w, ChannelOpen);
    var (end, r) := AwaitInit(w, cid, nonce);
    if read.Ok? && ParseInitHeader(read.value).Ok? {
      var hdr := ParseInitHeader(read.value).value;
      if hdr.cid != cid || hdr.cmd != CMD_INIT {
        AwaitAnswered(next, cid, nonce);
        if r.Ok? {
          var i :| 0 <= i < |Arrivals(next.polls)| && Answers(cid, nonce, Arrivals(next.polls)[i], r.value);
          assert Arrivals(w.polls)[i + 1] == Arrivals(next.polls)[i];
        }
      } else if r.Ok? {
        ReplyAnswers(cid, nonce, read.value, hdr, r.value);
        assert Arrivals(w.polls)[0] == read.value;
      }
    }
  }

  lemma {:induction false} ReplyAnswers(cid: nat, nonce: seq<byte>, r: Report, hdr: Header, info: InitInfo)
    requires |nonce| == INIT_NONCE_LEN && ParseInitHeader(r) == Ok(hdr) && hdr.cid == cid && hdr.cmd == CMD_INIT
    requires Reply(nonce, PayloadOf(r, hdr).value) == Ok(info)
    ensures Answers(cid, nonce, r, info)
  {
    var payload := PayloadOf(r, hdr).value;
    assert |payload| >= INIT_RESPONSE_LEN;
    assert payload[..8] == r[7..15] && payload[8..12] == r[15..19] && payload[13..16] == r[20..23];
  }

  /** An allocated channel was handed out for the nonce just sent, and is none of the reserved ones. */
  lemma {:induction false} AllocationAnswered(w: World, counter: nat)
    ensures var (end, r) := Allocated(Handshake(w, BROADCAST_CID, NonceAfter(counter)));
            r.Ok? ==>
              && 0 < r.value.cid < BROADCAST_CID
              && exists i :: 0 <= i < |Arrivals(w.polls)|
                             && Answers(BROADCAST_CID, NonceAfter(counter), Arrivals(w.polls)[i], r.value)
  {
    var nonce := NonceAfter(counter);
    var (sent, ok) := WriteAll(w, Packets(BROADCAST_CID, CMD_INIT, nonce));
    if ok { AwaitAnswered(sent, BROADCAST_CID, nonce); }
    ChannelRange(w, BROADCAST_CID, nonce);
  }

  /** Nonces repeat only after 2^64 requests. */
  lemma {:induction false} NoncesDiffer(i: nat, j: nat)
    requires i < j
    ensures NonceAfter(i) == NonceAfter(j) <==> (j - i) % U64 == 0
  {
    SameBytes((i + 1) % U64, (j + 1) % U64);
    SameRemainder(i + 1, j + 1);
  }

  lemma {:induction false} SameBytes(m: nat, n: nat)
    requires m < U64 && n < U64
    ensures ToBE(m, 8) == ToBE(n, 8) <==> m == n
  {
    Pow256Values();
    FromBEToBE(m, 8);
    FromBEToBE(n, 8);
  }

  lemma {:induction false} SameRemainder(a: nat, b: nat)
    ensures a % U64 == b % U64 <==> (b - a) % U64 == 0
  {
    var p, q, k := a / U64, b / U64, (b - a) / U64;
    assert b - a == U64 * (q - p) + (b % U64 - a % U64);
    if (b - a) % U64 == 0 {
      assert U64 * (k - q + p) == b % U64 - a % U64;
      assert k - q + p == 0;
    }
  }
}
