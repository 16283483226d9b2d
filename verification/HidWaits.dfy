/** What a transaction waits for: 5 ms between reads that find nothing, 50 ms before it writes again, and no longer. */
module HidWaits {
  import opened Wrappers
  import opened ByteOrder
  import opened Budget
  import opened HidPacket
  import opened HidAssembler
  import opened HidTransaction

  /** Sleeps are added one by one, each whole unless it takes the last of the budget; without budget there is none. */
  ghost predicate Waits(w: World, end: World) {
    && w.slept <= end.slept && (w.left == 0 ==> end.slept == w.slept && end.left == 0)
    && forall i :: |w.slept| <= i < |end.slept| ==>
                     || end.slept[i] == 5_000_000
                     || end.slept[i] == 50_000_000
                     || (i == |end.slept| - 1 && end.left == 0 && end.slept[i] < 50_000_000)
  }

  lemma {:induction false} WaitsMore(w: World, u: World, v: World)
    requires Waits(w, u) && Waits(u, v)
    ensures Waits(w, v)
  {
    forall i | |w.slept| <= i < |v.slept|
      ensures || v.slept[i] == 5_000_000
              || v.slept[i] == 50_000_000
              || (i == |v.slept| - 1 && v.left == 0 && v.slept[i] < 50_000_000)
    {
      if i < |u.slept| { assert v.slept[i] == u.slept[i]; }
    }
  }

  lemma {:induction false} TickWaits(w: World, d: nat)
    requires d == READ_POLL_QUANTUM || d == BUSY_RETRY_DELAY
    ensures w.left > 0 ==> Waits(w, w.Ticked(d))
  {
  }

  lemma {:induction false} ReadWaits(w: World, phase: Phase)
    ensures Waits(w, ReadReport(w, phase).0)
    decreases |w.polls|, w.left
  {
    if w.NextPoll() == Nothing && w.left > 0 {
      var ticked := w.Polled().Ticked(READ_POLL_QUANTUM);
      TickWaits(w.Polled(), READ_POLL_QUANTUM);
      ReadWaits(ticked, phase);
      WaitsMore(w, ticked, ReadReport(ticked, phase).0);
    }
  }

  lemma {:induction false} WriteWaits(w: World, packets: seq<Packet>)
    ensures WriteAll(w, packets).0.slept == w.slept && WriteAll(w, packets).0.left == w.left
    decreases |packets|
  {
    if packets != [] && w.Writes() { WriteWaits(w.(written := w.written + [packets[0]]), packets[1..]); }
  }

  lemma {:induction false} ReceiveWaits(w: World, a: Asm, cmd: byte, phase: Phase)
    ensures Waits(w, Receive(w, a, cmd, phase).0)
    decreases |w.polls|
  {
    var (next, read) := ReadReport(w, phase);
    ReadWaits(w, phase);
    if read.Ok? {
      var s := StepOn(a, cmd, read.value);
      if s.result == Ok(Continue) {
        var after := next.Surfaced(s.surfaced);
        ReceiveWaits(after, s.asm, cmd, phase);
        WaitsMore(w, after, Receive(after, s.asm, cmd, phase).0);
      }
    }
  }

  lemma {:induction false} AttemptWaits(w: World, cid: nat, cmd: byte, payload: seq<byte>, phase: Phase)
    requires cid < U32
    ensures Waits(w, Attempt(w, cid, cmd, payload, phase).0)
  {
    if |payload| <= MAX_MESSAGE_SIZE {
      var sent := WriteAll(w, Packets(cid, cmd, payload)).0;
      WriteWaits(w, Packets(cid, cmd, payload));
      ReceiveWaits(sent, Idle(cid), cmd, phase);
    }
  }

  /** Over any stream: every sleep of a transaction is 5 ms or 50 ms, except that the last may take what was left. */
  lemma {:induction false} TransactionWaits(w: World, cid: nat, cmd: byte, payload: seq<byte>, phase: Phase)
    requires cid < U32
    ensures Waits(w, Transact(w, cid, cmd, payload, phase).0)
    decreases |w.polls|
  {
    var (heard, r) := Attempt(w, cid, cmd, payload, phase);
    AttemptWaits(w, cid, cmd, payload, phase);
    if r.Ok? && !r.value.Resolved? && heard.left > 0 {
      var ticked := heard.Ticked(BUSY_RETRY_DELAY);
      TickWaits(heard, BUSY_RETRY_DELAY);
      TransactionWaits(ticked, cid, cmd, payload, phase);
      WaitsMore(w, heard, ticked);
      WaitsMore(w, ticked, Transact(ticked, cid, cmd, payload, phase).0);
    }
  }

  /** Read by read: nothing there costs one tick of 5 ms while the budget lasts, a report costs nothing. */
  lemma {:induction false} EmptyReadTicks(w: World, phase: Phase)
    requires w.left >= 5_000_000 && w.polls != [] && w.polls[0] == Nothing
    ensures ReadReport(w, phase)
         == ReadReport(w.(polls := w.polls[1..], left := w.left - 5_000_000, slept := w.slept + [5_000_000]), phase)
  {
  }

  /** A busy frame costs 50 ms before the request goes out again. */
  lemma {:induction false} BusyWaits(w: World, cid: nat, cmd: byte, payload: seq<byte>, phase: Phase)
    requires cid < U32 && Attempt(w, cid, cmd, payload, phase).1 == Ok(Busy)
    requires Attempt(w, cid, cmd, payload, phase).0.left >= 50_000_000
    ensures var heard := Attempt(w, cid, cmd, payload, phase).0;
            Transact(w, cid, cmd, payload, phase)
            == Transact(heard.(left := heard.left - 50_000_000, slept := heard.slept + [50_000_000]), cid, cmd, payload,
                        phase)
  {
  }

  /** Without a channel nothing is written, read or waited for. */
  lemma {:induction false} NoChannelRefused(w: World, cmd: byte, payload: seq<byte>, phase: Phase)
    ensures var (end, r) := OnChannel(w, None, cmd, payload, phase);
            end == w && r == Err(Framing(UnexpectedCommand(cmd, 0x10)))
  {
  }
}
