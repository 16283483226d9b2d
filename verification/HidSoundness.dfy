/** Reassembly is sound: whatever arrives, what is delivered was sent as one message. */
module HidSoundness {
  import opened Wrappers
  import opened ByteOrder
  import opened HidPacket
  import opened HidAssembler

  /** A report of ours that is not a keepalive. */
  predicate Heard(cid: nat, r: Report) {
    |r| == REPORT_SIZE && FromBE(r[..4]) == cid && r[4] != Tagged(CMD_KEEPALIVE)
  }

  /** The latest initialization packet heard on the channel and the continuations heard since. */
  function Collect(cid: nat, frames: seq<Report>, reports: seq<Report>): seq<Report>
    decreases |reports|
  {
    if reports == [] then frames else Collect(cid, CollectOne(cid, frames, reports[0]), reports[1..])
  }

  function CollectOne(cid: nat, frames: seq<Report>, r: Report): seq<Report> {
    if !Heard(cid, r) then frames
    else if r[4] >= 0x80 then [r]
    else if frames == [] then []
    else frames + [r]
  }

  /** An initialization packet of `cmd` and continuations numbered from 0, all on channel `cid`. */
  ghost predicate IsMessage(cid: nat, cmd: byte, frames: seq<Report>) {
    && frames != [] && (forall i :: 0 <= i < |frames| ==> Heard(cid, frames[i]))
    && frames[0][4] >= 0x80 && frames[0][4] % 0x80 == cmd
    && forall i :: 1 <= i < |frames| ==> frames[i][4] == i - 1
  }

  function Announced(frames: seq<Report>): nat
    requires frames != [] && |frames[0]| == REPORT_SIZE
  {
    FromBE(frames[0][5..7])
  }

  /** The data areas of a message's packets, one after the other. */
  function DataOf(frames: seq<Report>): seq<byte>
    requires frames != [] && forall i :: 0 <= i < |frames| ==> |frames[i]| == REPORT_SIZE
  {
    if |frames| == 1 then frames[0][INIT_HEADER..]
    else DataOf(frames[..|frames| - 1]) + frames[|frames| - 1][CONT_HEADER..]
  }

  /** The assembler holds exactly the message in progress. */
  ghost predicate Holds(a: Asm, cmd: byte, frames: seq<Report>) {
    if a.active then
      && IsMessage(a.cid, cmd, frames) && a.bcnt == Announced(frames)
      && a.payload == DataOf(frames) && a.nextSeq == |frames| - 1
    else frames == []
  }

  /** `frame` is what the message in `frames` says, whole. */
  ghost predicate Says(cid: nat, cmd: byte, frames: seq<Report>, frame: Frame) {
    && IsMessage(cid, cmd, frames) && Announced(frames) <= |DataOf(frames)|
    && frame == FrameOf(cmd, DataOf(frames)[..Announced(frames)])
  }

  /** After step `s` the assembler holds the message so far, `now`, or has delivered it. */
  ghost predicate Collected(a: Asm, cmd: byte, now: seq<Report>, s: Stepped) {
    && (s.result == Ok(Continue) ==> Holds(s.asm, cmd, now))
    && (s.result.Ok? && s.result.value.Resolved? && s.result.value.outcome.Done? ==>
          Says(a.cid, cmd, now, s.result.value.outcome.frame))
  }

  lemma {:induction false} StepCollects(a: Asm, cmd: byte, frames: seq<Report>, r: Report)
    requires Safe(a) && Holds(a, cmd, frames)
    ensures Collected(a, cmd, CollectOne(a.cid, frames, r), StepOn(a, cmd, r))
  {
    if Heard(a.cid, r) {
      if r[4] >= 0x80 { InitCollects(a, cmd, r); } else { ContCollects(a, cmd, frames, r); }
    }
  }

  lemma {:induction false} InitCollects(a: Asm, cmd: byte, r: Report)
    requires Safe(a) && Heard(a.cid, r) && r[4] >= 0x80
    ensures Collected(a, cmd, [r], InitOn(a, cmd, r))
  {
  }

  lemma {:induction false} ContCollects(a: Asm, cmd: byte, frames: seq<Report>, r: Report)
    requires Safe(a) && Holds(a, cmd, frames) && Heard(a.cid, r) && r[4] < 0x80
    ensures Collected(a, cmd, CollectOne(a.cid, frames, r), ContOn(a, cmd, r))
  {
    if a.active && r[4] == a.nextSeq {
      var now := frames + [r];
      assert now[..|frames|] == frames;
      assert DataOf(now) == DataOf(frames) + r[CONT_HEADER..];
      assert IsMessage(a.cid, cmd, now);
    }
  }

  /**
   On any inbound run, a delivered frame is the announced part of the last message heard on the
   channel: one initialization packet of the awaited command and its continuations in sequence.
   */
  lemma {:induction false} DeliveredWasSent(a: Asm, cmd: byte, frames: seq<Report>, reports: seq<Report>)
    requires Safe(a) && Holds(a, cmd, frames)
    ensures var f := Feed(a, cmd, reports);
            f.result.Ok? && f.result.value.Resolved? && f.result.value.outcome.Done? ==>
              Says(a.cid, cmd, Collect(a.cid, frames, reports[..f.used]), f.result.value.outcome.frame)
    decreases |reports|
  {
    if reports != [] {
      var r, rest := reports[0], reports[1..];
      var s, f := StepOn(a, cmd, r), Feed(a, cmd, reports);
      StepSafe(a, cmd, r);
      StepCollects(a, cmd, frames, r);
      var now := CollectOne(a.cid, frames, r);
      if s.result == Ok(Continue) {
        DeliveredWasSent(s.asm, cmd, now, rest);
        assert reports[..f.used][1..] == rest[..f.used - 1];
      } else {
        assert reports[..1][1..] == [];
      }
      assert Collect(a.cid, frames, reports[..f.used]) == Collect(a.cid, now, reports[..f.used][1..]);
    }
  }
}
