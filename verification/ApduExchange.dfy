/** One CTAP exchange over APDUs: the response-assembly state machine (`Exchange`), and a card to run it against. */
module ApduExchange {
  import opened Wrappers
  import opened ByteOrder
  import opened Budget
  import opened ApduFrame

  const MAX_HOPS: nat := 64

  datatype StatusWord =
    | Success
    | MoreData(n: byte)
    | WrongLe(correct: byte)
    | NotFound
    | ConditionsNotSatisfied
    | FileInvalidated
    | NotAllowed
    | NotAllowed6D00
    | StatusUpdate
    | Warn(sw2: byte)
    | Other(sw1: byte, sw2: byte)

  /** `StatusWord::from_pair`. */
  function FromPair(sw1: byte, sw2: byte): StatusWord {
    if sw1 == 0x90 && sw2 == 0x00 then Success
    else if sw1 == 0x61 then MoreData(sw2)
    else if sw1 == 0x6C then WrongLe(sw2)
    else if sw1 == 0x6A && sw2 == 0x82 then NotFound
    else if sw1 == 0x69 && sw2 == 0x85 then ConditionsNotSatisfied
    else if sw1 == 0x62 && sw2 == 0x83 then FileInvalidated
    else if sw1 == 0x69 && sw2 == 0x86 then NotAllowed
    else if sw1 == 0x6D && sw2 == 0x00 then NotAllowed6D00
    else if sw1 == 0x91 && sw2 == 0x00 then StatusUpdate
    else if sw1 == 0x62 then Warn(sw2)
    else Other(sw1, sw2)
  }

  /** `StatusWord::to_pair`. */
  function ToPair(sw: StatusWord): seq<byte> {
    match sw
    case Success => [0x90, 0x00]
    case MoreData(n) => [0x61, n]
    case WrongLe(n) => [0x6C, n]
    case NotFound => [0x6A, 0x82]
    case ConditionsNotSatisfied => [0x69, 0x85]
    case FileInvalidated => [0x62, 0x83]
    case NotAllowed => [0x69, 0x86]
    case NotAllowed6D00 => [0x6D, 0x00]
    case StatusUpdate => [0x91, 0x00]
    case Warn(n) => [0x62, n]
    case Other(a, b) => [a, b]
  }

  /** Every pair of bytes has its own typed status word. */
  lemma {:induction false} StatusWordRoundTrip(sw1: byte, sw2: byte)
    ensures ToPair(FromPair(sw1, sw2)) == [sw1, sw2]
  {
  }

  datatype Cause = TooShort | LeDoesNotConverge(correct: byte) | Runaway | NoStatusByte | Refused(sw: StatusWord)

  datatype ExchangeError = ExchangeError(phase: Phase, cause: Cause)

  datatype Response = Response(data: seq<byte>, sw: StatusWord)

  /** `Response::parse`. */
  function ParseResponse(b: seq<byte>): Result<Response, ExchangeError> {
    if |b| < 2 then Err(ExchangeError(CommandExchange, TooShort))
    else Ok(Response(b[..|b| - 2], FromPair(b[|b| - 2], b[|b| - 1])))
  }

  datatype Step = Send(apdu: seq<byte>) | Done(status: byte, body: seq<byte>)

  type StepResult = Result<Step, ExchangeError>

  // ---- the machine's state as a value, and one step of it

  datatype Xch = Xch(commandData: seq<byte>, collected: seq<byte>, statusUpdate: bool, leRetried: bool, hopsLeft: nat,
                     phase: Phase)
  {
    function Failed(cause: Cause): (Xch, StepResult) {
      (this, Err(ExchangeError(phase, cause)))
    }

    /** The Le retry: extended length only when the command data needs it. */
    function Retry(correct: byte): seq<byte> {
      CommandFrame(commandData, correct, |commandData| > 255)
    }
  }

  function Begin(command: byte, payload: seq<byte>, phase: Phase): Xch {
    Xch([command] + payload, [], false, false, MAX_HOPS, phase)
  }

  function GetResponse(n: byte): seq<byte> {
    Case2(CLA_CTAP, INS_GET_RESPONSE, 0x00, 0x00, n, false)
  }

  function PollStatus(): seq<byte> {
    Case2(CLA_CTAP, INS_GETRESPONSE, 0x00, 0x00, SHORT_LE, false)
  }

  /** `step`. */
  function StepOn(x: Xch, response: seq<byte>): (Xch, StepResult) {
    match ParseResponse(response)
    case Err(e) => (x, Err(e))
    case Ok(r) =>
      match r.sw
      case Success =>
        var data := x.collected + r.data;
        var taken := x.(collected := []);
        if data == [] then taken.Failed(NoStatusByte) else (taken, Ok(Done(data[0], data[1..])))
      case MoreData(n) =>
        if x.hopsLeft == 0 then x.Failed(Runaway)
        else (x.(hopsLeft := x.hopsLeft - 1, collected := x.collected + r.data), Ok(Send(GetResponse(n))))
      case WrongLe(correct) =>
        if x.leRetried then x.Failed(LeDoesNotConverge(correct))
        else (x.(leRetried := true), Ok(Send(x.Retry(correct))))
      case StatusUpdate =>
        var updating := x.(statusUpdate := true);
        if x.hopsLeft == 0 then updating.Failed(Runaway)
        else (updating.(hopsLeft := x.hopsLeft - 1), Ok(Send(PollStatus())))
      case sw => x.Failed(Refused(sw))
  }

  // ---- the machine as it is: an object updated in place

  class Exchange {
    const commandData: seq<byte>
    var collected: seq<byte>
    var statusUpdate: bool
    var leRetried: bool
    var hopsLeft: nat
    const phase: Phase

    function View(): Xch
      reads this
    {
      Xch(commandData, collected, statusUpdate, leRetried, hopsLeft, phase)
    }

    constructor (command: byte, payload: seq<byte>, phase: Phase)
      ensures View() == Begin(command, payload, phase)
    {
      commandData := [command] + payload;
      collected, statusUpdate, leRetried, hopsLeft := [], false, false, MAX_HOPS;
      this.phase := phase;
    }

    method GuardHop() returns (ok: bool)
      modifies this`hopsLeft
      ensures ok <==> old(hopsLeft) > 0
      ensures hopsLeft == if ok then old(hopsLeft) - 1 else old(hopsLeft)
    {
      ok := hopsLeft > 0;
      if ok {
        hopsLeft := hopsLeft - 1;
      }
    }

    method Advance(response: seq<byte>) returns (r: StepResult)
      modifies this
      ensures (View(), r) == StepOn(old(View()), response)
    {
      var parsed :- ParseResponse(response);
      match parsed.sw {
        case Success =>
          var data := collected;
          collected := [];
          data := data + parsed.data;
          if data == [] {
            return Err(ExchangeError(phase, NoStatusByte));
          }
          r := Ok(Done(data[0], data[1..]));
        case MoreData(n) =>
          var ok := GuardHop();
          if !ok {
            return Err(ExchangeError(phase, Runaway));
          }
          collected := collected + parsed.data;
          r := Ok(Send(GetResponse(n)));
        case WrongLe(correct) =>
          if leRetried {
            return Err(ExchangeError(phase, LeDoesNotConverge(correct)));
          }
          leRetried := true;
          var extended := |commandData| > 255;
          r := Ok(Send(CommandFrame(commandData, correct, extended)));
        case StatusUpdate =>
          statusUpdate := true;
          var ok := GuardHop();
          if !ok {
            return Err(ExchangeError(phase, Runaway));
          }
          r := Ok(Send(PollStatus()));
        case _ =>
          r := Err(ExchangeError(phase, Refused(parsed.sw)));
      }
    }
  }

  // ---- whole response runs

  /** Responses fed one after the other until a step does more than send. */
  datatype Run = Run(end: Xch, sent: seq<seq<byte>>, used: nat, result: Option<StepResult>)

  function Fed(x: Xch, responses: seq<seq<byte>>): (f: Run)
    ensures f.used <= |responses| && (f.result.Some? ==> f.used > 0)
    decreases |responses|
  {
    if responses == [] then Run(x, [], 0, None) else
      var (next, r) := StepOn(x, responses[0]);
      if r.Ok? && r.value.Send? then
        var f := Fed(next, responses[1..]);
        f.(sent := [r.value.apdu] + f.sent, used := f.used + 1)
      else Run(next, [], 1, Some(r))
  }

  /** What the machine may still send: the hops left, and the Le retry if it is unused. */
  function Credit(x: Xch): nat {
    x.hopsLeft + if x.leRetried then 0 else 1
  }

  /** Every command sent costs one credit, so a run sends at most 65. */
  lemma {:induction false} SendsBounded(x: Xch, responses: seq<seq<byte>>)
    ensures var f := Fed(x, responses);
            |f.sent| + Credit(f.end) == Credit(x) && f.end.commandData == x.commandData
    decreases |responses|
  {
    if responses != [] {
      var (next, r) := StepOn(x, responses[0]);
      if r.Ok? && r.value.Send? { SendsBounded(next, responses[1..]); }
    }
  }

  lemma {:induction false} ExchangeSendsBounded(command: byte, payload: seq<byte>, phase: Phase,
                                                responses: seq<seq<byte>>)
    ensures |Fed(Begin(command, payload, phase), responses).sent| <= 65
  {
    SendsBounded(Begin(command, payload, phase), responses);
  }

  /** What one answer contributes: the data of `61xx` and `9000`; other answers bring none. */
  function Contribution(response: seq<byte>): seq<byte> {
    match ParseResponse(response)
    case Ok(r) => if r.sw.MoreData? || r.sw.Success? then r.data else []
    case Err(_) => []
  }

  function Gathered(responses: seq<seq<byte>>): seq<byte> {
    if responses == [] then [] else Contribution(responses[0]) + Gathered(responses[1..])
  }

  /** A run ends on `Done` only with exactly `data`. */
  ghost predicate EndsWith(f: Run, data: seq<byte>) {
    match f.result
    case Some(Ok(Done(status, body))) => [status] + body == data
    case Some(Ok(Send(_))) => false
    case _ => true
  }

  /** On `Done`, status and body are exactly what was gathered, whatever the card answered in between. */
  lemma {:induction false} DoneIsGathered(x: Xch, responses: seq<seq<byte>>)
    ensures EndsWith(Fed(x, responses), x.collected + Gathered(responses[..Fed(x, responses).used]))
    decreases |responses|
  {
    if responses != [] {
      var first, rest := responses[0], responses[1..];
      var (next, r) := StepOn(x, first);
      StepGathers(x, first);
      if r.Ok? && r.value.Send? {
        var f := Fed(next, rest);
        DoneIsGathered(next, rest);
        FirstGathered(responses, f.used + 1);
        assert responses[1..][..f.used] == responses[1..f.used + 1];
        assert x.collected + Contribution(first) + Gathered(rest[..f.used])
            == x.collected + (Contribution(first) + Gathered(rest[..f.used]));
      } else {
        FirstGathered(responses, 1);
        assert Contribution(first) + [] == Contribution(first);
      }
    }
  }

  lemma {:induction false} FirstGathered(responses: seq<seq<byte>>, n: nat)
    requires 1 <= n <= |responses|
    ensures Gathered(responses[..n]) == Contribution(responses[0]) + Gathered(responses[1..][..n - 1])
  {
    assert responses[..n][1..] == responses[1..][..n - 1];
  }

  lemma {:induction false} StepGathers(x: Xch, response: seq<byte>)
    ensures var (next, r) := StepOn(x, response);
            && (r.Ok? && r.value.Send? ==> next.collected == x.collected + Contribution(response))
            && (r.Ok? && r.value.Done? ==> [r.value.status] + r.value.body == x.collected + Contribution(response))
  {
    assert x.collected + [] == x.collected;
  }
}
