/** Reassembly of an inbound message (`Assembler`, `Fsm::step`). */
module HidAssembler {
  import opened Wrappers
  import opened ByteOrder
  import opened HidPacket

  const CMD_PING: byte := 0x01
  const CMD_INIT: byte := 0x06
  const CMD_WINK: byte := 0x08
  const CMD_CBOR: byte := 0x10
  const CMD_KEEPALIVE: byte := 0x3B
  const CMD_ERROR: byte := 0x3F
  const CHANNEL_BUSY: byte := 0x06

  datatype Frame = CborFrame(body: seq<byte>) | PingFrame(echo: seq<byte>) | WinkFrame

  /** `TransactionOutcome`; a device error is held as its raw code. */
  datatype Outcome = Done(frame: Frame) | DeviceError(code: byte)

  datatype Step = Continue | Resolved(outcome: Outcome) | Busy

  type StepResult = Result<Step, FramingError>

  function FrameOf(cmd: byte, payload: seq<byte>): Frame {
    if cmd == CMD_PING then PingFrame(payload) else if cmd == CMD_WINK then WinkFrame else CborFrame(payload)
  }

  // ---- the assembler's state as a value, and what each operation makes of it

  datatype Asm = Asm(cid: nat, bcnt: nat, payload: seq<byte>, nextSeq: byte, active: bool) {
    predicate Complete() {
      active && |payload| >= bcnt
    }

    function Emptied(): Asm {
      this.(payload := [], active := false)
    }

    /** `begin`. */
    function Begun(hdr: Header, report: Report): Result<Asm, FramingError>
      requires |report| == REPORT_SIZE
    {
      if hdr.bcnt > MAX_MESSAGE_SIZE then Err(LengthBeyondMaximum(hdr.bcnt))
      else Ok(Asm(cid, hdr.bcnt, report[INIT_HEADER..], 0, true))
    }

    /** The continuation appended, whatever its number; the counter is one byte wide. */
    function Extended(report: Report): Asm
      requires |report| == REPORT_SIZE
    {
      this.(nextSeq := (nextSeq + 1) % 0x100, payload := payload + report[CONT_HEADER..])
    }

    function Overlong(): bool {
      |payload| > (if bcnt > MAX_MESSAGE_SIZE then bcnt else MAX_MESSAGE_SIZE)
    }
  }

  function Idle(cid: nat): Asm {
    Asm(cid, 0, [], 0, false)
  }

  /** What one report makes of the assembler, the keepalive statuses it surfaces, and how the step ends. */
  datatype Stepped = Stepped(asm: Asm, surfaced: seq<byte>, result: StepResult)

  function Resolve(a: Asm, awaited: byte): Stepped {
    if a.Complete() then Stepped(a.Emptied(), [], Ok(Resolved(Done(FrameOf(awaited, Take(a.payload, a.bcnt))))))
    else Stepped(a, [], Ok(Continue))
  }

  /** The single byte of a keepalive or error frame. */
  function StatusByte(cmd: byte, report: Report, hdr: Header): (r: Result<byte, FramingError>)
    requires |report| == REPORT_SIZE
  {
    var payload := PayloadOf(report, hdr).value;
    if |payload| != 1 then Err(UnexpectedBcnt(cmd, |payload|)) else Ok(payload[0])
  }

  /** A step that ends in a framing error. */
  function Failed(a: Asm, e: FramingError): Stepped {
    Stepped(a, [], Err(e))
  }

  function InitOn(a: Asm, awaited: byte, report: Report): Stepped
    requires |report| == REPORT_SIZE
  {
    var hdr := ParseInitHeader(report).value;
    if hdr.cid != a.cid then Stepped(a, [], Ok(Continue))
    else if hdr.cmd == CMD_KEEPALIVE then
      match StatusByte(CMD_KEEPALIVE, report, hdr)
      case Ok(status) => Stepped(a, [status], Ok(Continue))
      case Err(e) => Failed(a, e)
    else if hdr.cmd == CMD_ERROR then
      match StatusByte(CMD_ERROR, report, hdr)
      case Ok(code) => Stepped(a, [], Ok(if code == CHANNEL_BUSY then Busy else Resolved(DeviceError(code))))
      case Err(e) => Failed(a, e)
    else if hdr.cmd == awaited then
      match a.Begun(hdr, report)
      case Ok(begun) => Resolve(begun, awaited)
      case Err(e) => Failed(a, e)
    else Failed(a, UnexpectedCommand(hdr.cmd, awaited))
  }

  function ContOn(a: Asm, awaited: byte, report: Report): Stepped
    requires |report| == REPORT_SIZE
  {
    var (cid, number) := ParseContHeader(report).value;
    if cid != a.cid then Stepped(a, [], Ok(Continue))
    else if !a.active then Resolve(a, awaited)
    else if number != a.nextSeq then Failed(a, InvalidSeq(a.cid, number, a.nextSeq))
    else
      var b := a.Extended(report);
      if b.Overlong() then Failed(b, LengthMismatch(b.bcnt, |b.payload|)) else Resolve(b, awaited)
  }

  /** `step`. */
  function StepOn(a: Asm, awaited: byte, report: Report): Stepped {
    match Classify(report)
    case Err(e) => Failed(a, e)
    case Ok(Init) => InitOn(a, awaited, report)
    case Ok(Continuation) => ContOn(a, awaited, report)
  }

  // ---- the assembler as it is: an object updated in place

  class Assembler {
    const cid: nat
    var bcnt: nat
    var payload: seq<byte>
    var nextSeq: byte
    var active: bool

    function View(): Asm
      reads this
    {
      Asm(cid, bcnt, payload, nextSeq, active)
    }

    constructor (cid: nat)
      ensures View() == Idle(cid)
    {
      this.cid := cid;
      bcnt, payload, nextSeq, active := 0, [], 0, false;
    }

    method Begin(hdr: Header, report: Report) returns (r: Result<(), FramingError>)
      requires |report| == REPORT_SIZE
      modifies this
      ensures match old(View()).Begun(hdr, report)
              case Ok(begun) => r.Ok? && View() == begun
              case Err(e) => r == Err(e) && View() == old(View())
    {
      if hdr.bcnt > MAX_MESSAGE_SIZE {
        return Err(LengthBeyondMaximum(hdr.bcnt));
      }
      bcnt := hdr.bcnt;
      payload := [];
      payload := payload + report[INIT_HEADER..];
      nextSeq := 0;
      active := true;
      r := Ok(());
    }

    /** A continuation outside a message is ignored, one out of sequence is an error. */
    method PushContinuation(number: byte, report: Report) returns (r: Result<(), FramingError>)
      requires |report| == REPORT_SIZE
      modifies this
      ensures !old(active) ==> r.Ok? && View() == old(View())
      ensures old(active) && number != old(nextSeq) ==>
                r == Err(InvalidSeq(cid, number, old(nextSeq))) && View() == old(View())
      ensures old(active) && number == old(nextSeq) ==>
                && View() == old(View()).Extended(report)
                && (if View().Overlong() then r == Err(LengthMismatch(bcnt, |payload|)) else r.Ok?)
    {
      if !active {
        return Ok(());
      }
      if number != nextSeq {
        return Err(InvalidSeq(cid, number, nextSeq));
      }
      nextSeq := (nextSeq + 1) % 0x100;
      payload := payload + report[CONT_HEADER..];
      var limit := if bcnt > MAX_MESSAGE_SIZE then bcnt else MAX_MESSAGE_SIZE;
      if |payload| > limit {
        return Err(LengthMismatch(bcnt, |payload|));
      }
      r := Ok(());
    }

    method Finish() returns (message: seq<byte>)
      modifies this
      ensures View() == old(View()).Emptied() && message == Take(old(payload), old(bcnt))
    {
      if |payload| > bcnt {
        payload := payload[..bcnt];
      }
      active := false;
      message := payload;
      payload := [];
    }
  }

  /** One step of the receive loop; `surfaced` is what the keepalive sink is called with. */
  method StepReport(assembler: Assembler, awaited: byte, report: Report)
    returns (r: StepResult, surfaced: seq<byte>)
    modifies assembler
    ensures Stepped(assembler.View(), surfaced, r) == StepOn(old(assembler.View()), awaited, report)
  {
    surfaced := [];
    var kind :- Classify(report);
    if kind == Init {
      var hdr := ParseInitHeader(report).value;
      if hdr.cid != assembler.cid {
        return Ok(Continue), surfaced;
      }
      if hdr.cmd == CMD_KEEPALIVE {
        var payload := PayloadOf(report, hdr).value;
        if |payload| != 1 {
          return Err(UnexpectedBcnt(CMD_KEEPALIVE, |payload|)), surfaced;
        }
        surfaced := [payload[0]];
        r := Ok(Continue);
      } else if hdr.cmd == CMD_ERROR {
        var payload := PayloadOf(report, hdr).value;
        if |payload| != 1 {
          return Err(UnexpectedBcnt(CMD_ERROR, |payload|)), surfaced;
        }
        r := Ok(if payload[0] == CHANNEL_BUSY then Busy else Resolved(DeviceError(payload[0])));
      } else if hdr.cmd == awaited {
        var _ :- assembler.Begin(hdr, report);
        r := FinishIfComplete(assembler, awaited);
      } else {
        r := Err(UnexpectedCommand(hdr.cmd, awaited));
      }
    } else {
      var (pcid, number) := ParseContHeader(report).value;
      if pcid != assembler.cid {
        return Ok(Continue), surfaced;
      }
      var _ :- assembler.PushContinuation(number, report);
      r := FinishIfComplete(assembler, awaited);
    }
  }

  method FinishIfComplete(assembler: Assembler, awaited: byte) returns (r: StepResult)
    modifies assembler
    ensures Stepped(assembler.View(), [], r) == Resolve(old(assembler.View()), awaited)
  {
    if assembler.View().Complete() {
      var payload := assembler.Finish();
      r := Ok(Resolved(Done(FrameOf(awaited, payload))));
    } else {
      r := Ok(Continue);
    }
  }

  // ---- safety on every inbound run

  /** While a message is in progress: init packet plus `nextSeq` continuations, and more still to come. */
  ghost predicate Safe(a: Asm) {
    && a.nextSeq <= 128
    && (a.active ==> |a.payload| == INIT_PAYLOAD + CONT_PAYLOAD * a.nextSeq && |a.payload| < a.bcnt <= MAX_MESSAGE_SIZE)
  }

  /** No report breaks the invariant, wraps the one-byte counter or meets the length-mismatch branch. */
  lemma {:induction false} StepSafe(a: Asm, awaited: byte, report: Report)
    requires Safe(a)
    ensures Safe(StepOn(a, awaited, report).asm) && StepOn(a, awaited, report).asm.cid == a.cid
    ensures a.active && |report| == REPORT_SIZE ==> a.Extended(report).nextSeq == a.nextSeq + 1 <= 128
    ensures StepOn(a, awaited, report).result.Err? ==> !StepOn(a, awaited, report).result.error.LengthMismatch?
  {
  }

  /** Reports fed one after the other until a step does more than continue. */
  datatype Fed = Fed(asm: Asm, surfaced: seq<byte>, used: nat, result: StepResult)

  function Feed(a: Asm, awaited: byte, reports: seq<Report>): (f: Fed)
    ensures f.used <= |reports|
    decreases |reports|
  {
    if reports == [] then Fed(a, [], 0, Ok(Continue)) else
      var s := StepOn(a, awaited, reports[0]);
      if s.result != Ok(Continue) then Fed(s.asm, s.surfaced, 1, s.result) else
        Before(s.surfaced, 1, Feed(s.asm, awaited, reports[1..]))
  }

  /** `n` more reports and what they surfaced, ahead of a run. */
  function Before(surfaced: seq<byte>, n: nat, f: Fed): Fed {
    f.(surfaced := surfaced + f.surfaced, used := n + f.used)
  }

  lemma {:induction false} RunSafe(a: Asm, awaited: byte, reports: seq<Report>)
    requires Safe(a)
    ensures var f := Feed(a, awaited, reports);
            Safe(f.asm) && (f.result.Err? ==> !f.result.error.LengthMismatch?)
    decreases |reports|
  {
    if reports != [] {
      StepSafe(a, awaited, reports[0]);
      RunSafe(StepOn(a, awaited, reports[0]).asm, awaited, reports[1..]);
    }
  }
}
