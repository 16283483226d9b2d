/** Exactly when a transaction leaves a busy frame unanswered. */
module HidBusy {
  import opened Wrappers
  import opened ByteOrder
  import opened Budget
  import opened HidPacket
  import opened HidAssembler
  import opened HidReassembly
  import opened HidTransaction
  import opened HidRuns

  /** A frame that leaves an idle assembler as it is: other channels, keepalives and stray continuations. */
  predicate Ignored(cid: nat, r: Report) {
    Harmless(cid, r) || Stray(cid, r)
  }

  predicate BusyPoll(cid: nat, poll: Poll) {
    poll.Arrived? && IsBusy(cid, poll.report)
  }

  /** Nothing to come but busy frames, frames that are ignored, empty reads and the device's removal. */
  predicate NoAnswer(cid: nat, polls: seq<Poll>) {
    forall i :: 0 <= i < |polls| ==> polls[i].Arrived? ==> BusyPoll(cid, polls[i]) || Ignored(cid, polls[i].report)
  }

  /**
   The waits of the reads before read `k` take up the budget, read `k` brings a busy frame, and
   until then the device stays and no read is empty with the budget taken up.
   */
  ghost predicate LateBusyAt(cid: nat, left: nat, polls: seq<Poll>, k: nat) {
    && k < |polls| && BusyPoll(cid, polls[k]) && Waits(cid, polls[..k]) >= left
    && forall j :: 0 <= j < k ==> !polls[j].Gone? && (polls[j].Nothing? ==> Waits(cid, polls[..j]) < left)
  }

  ghost predicate LateBusy(cid: nat, left: nat, polls: seq<Poll>) {
    exists k: nat :: LateBusyAt(cid, left, polls, k)
  }

  lemma {:induction false} WaitsFirst(cid: nat, polls: seq<Poll>, k: nat)
    requires k < |polls|
    ensures Waits(cid, polls[..k + 1]) == Wait(cid, polls[0]) + Waits(cid, polls[1..][..k])
  {
    assert polls[..k + 1][1..] == polls[1..][..k];
  }

  /** One read further on, with what its wait leaves of the budget. */
  lemma {:induction false} LateBusyLater(cid: nat, left: nat, polls: seq<Poll>, k: nat)
    requires polls != [] && !polls[0].Gone? && (polls[0].Nothing? ==> left > 0)
    ensures LateBusyAt(cid, left, polls, k + 1)
       <==> LateBusyAt(cid, left - Min(Wait(cid, polls[0]), left), polls[1..], k)
  {
    var rest, after := polls[1..], left - Min(Wait(cid, polls[0]), left);
    if k < |rest| {
      forall j | 0 <= j <= k
        ensures Waits(cid, polls[..j + 1]) == Wait(cid, polls[0]) + Waits(cid, rest[..j]) && polls[j + 1] == rest[j]
      {
        WaitsFirst(cid, polls, j);
      }
      if LateBusyAt(cid, left, polls, k + 1) {
        forall j | 0 <= j < k ensures !rest[j].Gone? && (rest[j].Nothing? ==> Waits(cid, rest[..j]) < after) {
          assert !polls[j + 1].Gone?;
        }
      }
      if LateBusyAt(cid, after, rest, k) {
        forall j | 0 <= j < k + 1 ensures !polls[j].Gone? && (polls[j].Nothing? ==> Waits(cid, polls[..j]) < left) {
          if j > 0 { assert !rest[j - 1].Gone?; }
        }
      }
    }
  }

  lemma {:induction false} LateBusyNext(cid: nat, left: nat, polls: seq<Poll>)
    requires polls != [] && !polls[0].Gone? && (polls[0].Nothing? ==> left > 0)
             && (BusyPoll(cid, polls[0]) ==> left > 0)
    ensures LateBusy(cid, left, polls) <==> LateBusy(cid, left - Min(Wait(cid, polls[0]), left), polls[1..])
  {
    var after := left - Min(Wait(cid, polls[0]), left);
    if LateBusy(cid, left, polls) {
      var k: nat :| LateBusyAt(cid, left, polls, k);
      assert k > 0;
      LateBusyLater(cid, left, polls, k - 1);
    }
    if LateBusy(cid, after, polls[1..]) {
      var k: nat :| LateBusyAt(cid, after, polls[1..], k);
      LateBusyLater(cid, left, polls, k);
    }
  }

  /** From inside an attempt: it ends busy with nothing left, or the attempts after it do. */
  predicate EndsBusyFrom(w: World, cid: nat, cmd: byte, payload: seq<byte>, phase: Phase)
    requires cid < U32
  {
    var (heard, r) := Receive(w, Idle(cid), cmd, phase);
    r == Ok(Busy) && (heard.left == 0 || EndedBusy(heard.Ticked(BUSY_RETRY_DELAY), cid, cmd, payload, phase))
  }

  lemma {:induction false} AttemptEndsBusy(w: World, cid: nat, cmd: byte, payload: seq<byte>, phase: Phase)
    requires cid < U32 && |payload| <= MAX_MESSAGE_SIZE && w.refuseFrom.None?
    ensures var sent := w.(written := w.written + Packets(cid, cmd, payload));
            EndedBusy(w, cid, cmd, payload, phase) == EndsBusyFrom(sent, cid, cmd, payload, phase)
  {
    WritesAll(w, Packets(cid, cmd, payload));
    var (heard, r) := Attempt(w, cid, cmd, payload, phase);
    if r == Ok(Busy) && heard.left > 0 { Reissued(w, cid, cmd, payload, phase); }
  }

  lemma {:induction false} EmptyPassed(w: World, a: Asm, cmd: byte, phase: Phase)
    requires w.NextPoll() == Nothing && w.left > 0
    ensures Receive(w, a, cmd, phase) == Receive(w.Polled().Ticked(READ_POLL_QUANTUM), a, cmd, phase)
  {
    assert ReadReport(w, phase) == ReadReport(w.Polled().Ticked(READ_POLL_QUANTUM), phase);
  }

  lemma {:induction false} IgnoredPassed(w: World, cid: nat, cmd: byte, phase: Phase)
    requires w.NextPoll().Arrived? && Ignored(cid, w.NextPoll().report)
    ensures Receive(w, Idle(cid), cmd, phase)
         == Receive(w.Polled().Surfaced(StatusOf(cid, w.NextPoll().report)), Idle(cid), cmd, phase)
  {
    HarmlessStep(Idle(cid), cmd, w.NextPoll().report);
  }

  lemma {:induction false} BusyMet(w: World, cid: nat, cmd: byte, phase: Phase)
    requires BusyNext(cid, w)
    ensures var (heard, r) := Receive(w, Idle(cid), cmd, phase);
            r == Ok(Busy) && heard.polls == w.polls[1..] && heard.left == w.left && heard.refuseFrom == w.refuseFrom
  {
    StepBusy(Idle(cid), cmd, w.polls[0].report);
  }

  lemma {:induction false} BusyAnswered(w: World, cid: nat, cmd: byte, payload: seq<byte>, phase: Phase)
    returns (next: World)
    requires cid < U32 && |payload| <= MAX_MESSAGE_SIZE && w.refuseFrom.None? && BusyNext(cid, w) && w.left > 0
    ensures next.polls == w.polls[1..] && next.refuseFrom.None? && next.left == w.left - Min(BUSY_RETRY_DELAY, w.left)
    ensures EndsBusyFrom(w, cid, cmd, payload, phase) == EndsBusyFrom(next, cid, cmd, payload, phase)
  {
    BusyMet(w, cid, cmd, phase);
    var again := Receive(w, Idle(cid), cmd, phase).0.Ticked(BUSY_RETRY_DELAY);
    AttemptEndsBusy(again, cid, cmd, payload, phase);
    next := again.(written := again.written + Packets(cid, cmd, payload));
  }

  /** Past the next read, with its wait charged, the run ends as it would have. */
  lemma {:induction false} OneReadOn(w: World, cid: nat, cmd: byte, payload: seq<byte>, phase: Phase)
    returns (next: World)
    requires cid < U32 && |payload| <= MAX_MESSAGE_SIZE && w.refuseFrom.None? && NoAnswer(cid, w.polls)
    requires w.polls != [] && !w.polls[0].Gone? && (w.polls[0].Nothing? || BusyNext(cid, w) ==> w.left > 0)
    ensures next.polls == w.polls[1..] && next.refuseFrom.None?
    ensures next.left == w.left - Min(Wait(cid, w.polls[0]), w.left)
    ensures EndsBusyFrom(w, cid, cmd, payload, phase) == EndsBusyFrom(next, cid, cmd, payload, phase)
  {
    if BusyNext(cid, w) {
      next := BusyAnswered(w, cid, cmd, payload, phase);
    } else if w.polls[0].Nothing? {
      next := w.Polled().Ticked(READ_POLL_QUANTUM);
      EmptyPassed(w, Idle(cid), cmd, phase);
    } else {
      next := w.Polled().Surfaced(StatusOf(cid, w.polls[0].report));
      IgnoredPassed(w, cid, cmd, phase);
    }
  }

  lemma {:induction false} EndsBusyExactly(w: World, cid: nat, cmd: byte, payload: seq<byte>, phase: Phase)
    requires cid < U32 && |payload| <= MAX_MESSAGE_SIZE && w.refuseFrom.None? && NoAnswer(cid, w.polls)
    ensures EndsBusyFrom(w, cid, cmd, payload, phase) <==> LateBusy(cid, w.left, w.polls)
    decreases |w.polls|
  {
    if w.polls == [] || w.polls[0].Gone? || (w.polls[0].Nothing? && w.left == 0) {
      EndsQuietly(w, cid, cmd, phase);
    } else if BusyNext(cid, w) && w.left == 0 {
      BusyMet(w, cid, cmd, phase);
      assert LateBusyAt(cid, w.left, w.polls, 0);
    } else {
      var next := OneReadOn(w, cid, cmd, payload, phase);
      LateBusyNext(cid, w.left, w.polls);
      EndsBusyExactly(next, cid, cmd, payload, phase);
    }
  }

  /** Silence or removal ends the attempt, and no busy frame can be late. */
  lemma {:induction false} EndsQuietly(w: World, cid: nat, cmd: byte, phase: Phase)
    requires w.polls == [] || w.polls[0].Gone? || (w.polls[0].Nothing? && w.left == 0)
    ensures Receive(w, Idle(cid), cmd, phase).1.Err? && !LateBusy(cid, w.left, w.polls)
  {
    if w.polls == [] {
      assert |ReadReport(w, phase).0.polls| <= 0;
    } else {
      forall k: nat ensures !LateBusyAt(cid, w.left, w.polls, k) {
        if k > 0 { assert Waits(cid, w.polls[..0]) == 0; }
      }
    }
  }

  /**
   While no answer comes, a busy frame goes unanswered exactly when it is read with the waits before
   it having taken up the budget, and no empty read has ended the transaction before.
   */
  lemma {:induction false} BusyUnanswered(w: World, cid: nat, cmd: byte, payload: seq<byte>, phase: Phase)
    requires cid < U32 && |payload| <= MAX_MESSAGE_SIZE && w.refuseFrom.None? && NoAnswer(cid, w.polls)
    ensures EndedBusy(w, cid, cmd, payload, phase) <==> LateBusy(cid, w.left, w.polls)
  {
    AttemptEndsBusy(w, cid, cmd, payload, phase);
    EndsBusyExactly(w.(written := w.written + Packets(cid, cmd, payload)), cid, cmd, payload, phase);
  }
}
