/** The exchange against cards: a response split in any way arrives unchanged as long as the limits hold. */
module ApduCard {
  import opened Wrappers
  import opened ByteOrder
  import opened Budget
  import opened ApduFrame
  import opened ApduExchange

  // ---- any sequence of partial answers

  /** An answer short of `9000`: a piece of the response, a status update, or a demand for another Le. */
  datatype Part = Piece(data: seq<byte>, more: byte) | Poll(ignored: seq<byte>) | Demand(ignored: seq<byte>, le: byte)

  function Answer(p: Part): seq<byte> {
    match p
    case Piece(data, n) => data + [0x61, n]
    case Poll(data) => data + [0x91, 0x00]
    case Demand(data, le) => data + [0x6C, le]
  }

  function Answers(parts: seq<Part>, last: seq<byte>): seq<seq<byte>> {
    if parts == [] then [last + [0x90, 0x00]] else [Answer(parts[0])] + Answers(parts[1..], last)
  }

  function Hops(parts: seq<Part>): nat {
    if parts == [] then 0 else (if parts[0].Demand? then 0 else 1) + Hops(parts[1..])
  }

  function Demands(parts: seq<Part>): nat {
    if parts == [] then 0 else (if parts[0].Demand? then 1 else 0) + Demands(parts[1..])
  }

  function Whole(parts: seq<Part>, last: seq<byte>): seq<byte> {
    if parts == [] then last else (if parts[0].Piece? then parts[0].data else []) + Whole(parts[1..], last)
  }

  lemma {:induction false} Parsed(data: seq<byte>, sw1: byte, sw2: byte)
    ensures ParseResponse(data + [sw1, sw2]) == Ok(Response(data, FromPair(sw1, sw2)))
  {
    var b := data + [sw1, sw2];
    assert b[..|b| - 2] == data;
  }

  /** The machine ends with `whole`, if the limits allow, at the last answer. */
  ghost predicate Assembles(f: Run, whole: seq<byte>, allowed: bool, n: nat) {
    if !allowed then f.result.Some? && f.result.value.Err? && f.used < n
    else f.used == n && f.result.Some? &&
         if whole == [] then f.result.value.Err? else f.result.value == Ok(Done(whole[0], whole[1..]))
  }

  /**
   However a card splits its answer and interleaves status updates and Le demands, the exchange
   returns the concatenated pieces if and only if there are at most 64 hops and one demand.
   */
  lemma {:induction false} SplitAnswer(x: Xch, parts: seq<Part>, last: seq<byte>)
    ensures Assembles(Fed(x, Answers(parts, last)), x.collected + Whole(parts, last),
                      Hops(parts) <= x.hopsLeft && Demands(parts) <= (if x.leRetried then 0 else 1), |parts| + 1)
    decreases |parts|
  {
    if parts == [] {
      Parsed(last, 0x90, 0x00);
    } else {
      var rest := parts[1..];
      var next := StepOn(x, Answer(parts[0])).0;
      PartStep(x, parts[0]);
      if StepOn(x, Answer(parts[0])).1.Ok? {
        SplitAnswer(next, rest, last);
        var piece := if parts[0].Piece? then parts[0].data else [];
        assert x.collected + piece + Whole(rest, last) == x.collected + (piece + Whole(rest, last));
        FedStep(x, Answer(parts[0]), Answers(rest, last), next.collected + Whole(rest, last),
                Hops(rest) <= next.hopsLeft && Demands(rest) <= (if next.leRetried then 0 else 1), |rest| + 1);
      }
    }
  }

  lemma {:induction false} FedStep(x: Xch, answer: seq<byte>, rest: seq<seq<byte>>, whole: seq<byte>, allowed: bool,
                                   n: nat)
    requires StepOn(x, answer).1.Ok? && StepOn(x, answer).1.value.Send?
    requires Assembles(Fed(StepOn(x, answer).0, rest), whole, allowed, n)
    ensures Assembles(Fed(x, [answer] + rest), whole, allowed, n + 1)
  {
    assert ([answer] + rest)[1..] == rest;
  }

  lemma {:induction false} PartStep(x: Xch, p: Part)
    ensures var (next, r) := StepOn(x, Answer(p));
            var hop, demand := if p.Demand? then 0 else 1, if p.Demand? then 1 else 0;
            if x.hopsLeft < hop || (x.leRetried && demand == 1) then r.Err?
            else
              && r.Ok? && r.value.Send? && next.hopsLeft == x.hopsLeft - hop
              && (next.leRetried <==> x.leRetried || demand == 1)
              && next.collected == x.collected + if p.Piece? then p.data else []
  {
    match p
    case Piece(data, n) => Parsed(data, 0x61, n);
    case Poll(data) =>
      Parsed(data, 0x91, 0x00);
      assert x.collected + [] == x.collected;
    case Demand(data, le) =>
      Parsed(data, 0x6C, le);
      assert x.collected + [] == x.collected;
  }

  // ---- a card that reads the commands it is sent

  /**
   A card holding its answer to the request `request` in `pieces`; it first asks for the Le it wants,
   then reports `updates` status updates, and hands out one piece for every further command. After a
   status update it awaits NFCCTAP_GETRESPONSE, after a piece GET RESPONSE for as much as it announced.
   */
  datatype Card = Card(request: seq<byte>, demand: Option<byte>, updates: nat, pieces: seq<seq<byte>>,
                       awaits: Option<byte>)
  {
    function Next(): (Card, seq<byte>)
      requires pieces != []
    {
      if updates > 0 then (this.(updates := updates - 1, awaits := Some(0x11)), [0x91, 0x00])
      else if |pieces| == 1 then (this.(awaits := None), pieces[0] + [0x90, 0x00])
      else (this.(pieces := pieces[1..], awaits := Some(0xC0)), pieces[0] + [0x61, |pieces[1]| % 0x100])
    }

    /** The command it awaits: in class 0x80, without data, and of the length announced if one was. */
    predicate Awaited(c: Command)
      requires pieces != []
    {
      && c.cla == 0x80 && Some(c.ins) == awaits && c.p1 == 0x00 && c.p2 == 0x00 && c.data == []
      && (c.ins == 0xC0 ==> c.le.Some? && c.le.value % 0x100 == |pieces[0]| % 0x100)
    }

    /** What the card answers to a command APDU. */
    function Reply(apdu: seq<byte>): (r: (Card, seq<byte>))
      requires pieces != []
      ensures r.0.pieces != []
    {
      match Parse(apdu)
      case None => (this, [0x67, 0x00])
      case Some(c) =>
        if (c.cla, c.ins, c.p1, c.p2) == (0x80, 0x10, 0x80, 0x00) && c.data == request then
          if demand.Some? && (c.le.None? || c.le.value % 0x100 != demand.value)
          then (this, [0x6C, demand.value]) else Next()
        else if Awaited(c) then Next()
        else (this, [0x6D, 0x00])
    }
  }

  function Joined(pieces: seq<seq<byte>>): seq<byte> {
    if pieces == [] then [] else pieces[0] + Joined(pieces[1..])
  }

  /** The send loop of the engine, against a card. */
  function Talk(x: Xch, card: Card, apdu: seq<byte>): Result<(byte, seq<byte>), ExchangeError>
    requires card.pieces != []
    decreases Credit(x)
  {
    var (next, response) := card.Reply(apdu);
    var (y, r) := StepOn(x, response);
    match r
    case Err(e) => Err(e)
    case Ok(Done(status, body)) => Ok((status, body))
    case Ok(Send(hop)) => Talk(y, next, hop)
  }

  /** One whole exchange. */
  method Transceive(command: byte, payload: seq<byte>, phase: Phase, card: Card)
    returns (r: Result<(byte, seq<byte>), ExchangeError>)
    requires card.pieces != []
    ensures r == Talk(Begin(command, payload, phase), card, Framed(command, payload))
  {
    var exchange := new Exchange(command, payload, phase);
    r := DriveExchange(exchange, card, Framed(command, payload));
  }

  /** The loop that drives an `Exchange`: transmit, step, until it is done. */
  method DriveExchange(exchange: Exchange, card: Card, apdu: seq<byte>)
    returns (r: Result<(byte, seq<byte>), ExchangeError>)
    requires card.pieces != []
    modifies exchange
    ensures r == Talk(old(exchange.View()), card, apdu)
  {
    var next, now := apdu, card;
    ghost var answer := Talk(exchange.View(), card, apdu);
    while true
      invariant now.pieces != [] && answer == Talk(exchange.View(), now, next)
      decreases Credit(exchange.View())
    {
      TalkOnce(exchange.View(), now, next);
      var (after, response) := now.Reply(next);
      now := after;
      var step := exchange.Advance(response);
      if step.Err? {
        return Err(step.error);
      }
      match step.value {
        case Send(hop) => next := hop;
        case Done(status, body) => return Ok((status, body));
      }
    }
  }

  /** What one round of the loop makes of the talk. */
  lemma {:induction false} TalkOnce(x: Xch, card: Card, apdu: seq<byte>)
    requires card.pieces != []
    ensures var (next, response) := card.Reply(apdu);
            var (y, r) := StepOn(x, response);
            && next.pieces != [] && (r.Ok? && r.value.Send? ==> Credit(y) < Credit(x))
            && Talk(x, card, apdu) == match r
                                      case Err(e) => Err(e)
                                      case Ok(Done(status, body)) => Ok((status, body))
                                      case Ok(Send(hop)) => Talk(y, next, hop)
  {
  }

  lemma {:induction false} TalkStep(x: Xch, card: Card, apdu: seq<byte>, y: Xch, next: Card, response: seq<byte>,
                                    hop: seq<byte>)
    requires card.pieces != [] && card.Reply(apdu) == (next, response) && StepOn(x, response) == (y, Ok(Send(hop)))
    ensures next.pieces != [] && Talk(x, card, apdu) == Talk(y, next, hop)
  {
  }

  /** What a card that has still something to follow answers, and what the exchange makes of it. */
  lemma {:induction false} NextStep(x: Xch, card: Card, hop: seq<byte>)
    requires card.pieces != [] && card.updates + |card.pieces| > 1
    requires hop == if card.updates > 0 then PollStatus() else GetResponse(|card.pieces[1]| % 0x100)
    ensures var (next, response) := card.Next();
            var (y, r) := StepOn(x, response);
            && next.pieces != [] && next.Reply(hop) == next.Next()
            && next.updates + |next.pieces| == card.updates + |card.pieces| - 1
            && if x.hopsLeft == 0 then r == Err(ExchangeError(x.phase, Runaway))
               else
                 && r == Ok(Send(hop)) && y.hopsLeft == x.hopsLeft - 1 && y.phase == x.phase
                 && y.collected + Joined(next.pieces) == x.collected + Joined(card.pieces)
  {
    if card.updates > 0 {
      Parsed([], 0x91, 0x00);
      assert [] + [0x91, 0x00] == [0x91, 0x00];
      NoDataParses(CLA_CTAP, INS_GETRESPONSE, 0x00, 0x00, SHORT_LE);
    } else {
      var first, n := card.pieces[0], |card.pieces[1]| % 0x100;
      Parsed(first, 0x61, n);
      NoDataParses(CLA_CTAP, INS_GET_RESPONSE, 0x00, 0x00, n);
      assert x.collected + first + Joined(card.pieces[1..]) == x.collected + (first + Joined(card.pieces[1..]));
    }
  }

  lemma {:induction false} LastStep(x: Xch, card: Card)
    requires |card.pieces| == 1 && card.updates == 0 && x.collected + Joined(card.pieces) != []
    ensures var whole := x.collected + Joined(card.pieces);
            StepOn(x, card.Next().1).1 == Ok(Done(whole[0], whole[1..]))
  {
    Parsed(card.pieces[0], 0x90, 0x00);
    assert card.pieces[0] + [] == card.pieces[0];
  }

  /** From a command the card accepts, everything it holds comes out. */
  lemma {:induction false} CardDrained(x: Xch, card: Card, apdu: seq<byte>, whole: seq<byte>)
    requires card.pieces != [] && card.Reply(apdu) == card.Next()
    requires whole == x.collected + Joined(card.pieces) && whole != []
    ensures Talk(x, card, apdu) == Expected(whole, card.updates + |card.pieces| - 1 <= x.hopsLeft, x.phase)
    decreases card.updates + |card.pieces|
  {
    var (next, response) := card.Next();
    if card.updates + |card.pieces| == 1 {
      LastStep(x, card);
    } else {
      var hop := if card.updates > 0 then PollStatus() else GetResponse(|card.pieces[1]| % 0x100);
      NextStep(x, card, hop);
      if x.hopsLeft > 0 {
        var y := StepOn(x, response).0;
        TalkStep(x, card, apdu, y, next, response, hop);
        CardDrained(y, next, hop, whole);
      }
    }
  }

  function Expected(whole: seq<byte>, allowed: bool, phase: Phase): Result<(byte, seq<byte>), ExchangeError>
    requires whole != []
  {
    if allowed then Ok((whole[0], whole[1..])) else Err(ExchangeError(phase, Runaway))
  }

  /**
   Two parties: whatever the card holds reaches the caller unchanged, through one Le retry if the
   card wants one, exactly when status updates and pieces stay within the hop limit.
   */
  lemma {:induction false} CardDelivers(command: byte, payload: seq<byte>, phase: Phase, card: Card)
    requires |payload| <= 65534 && card.request == [command] + payload && card.pieces != [] && Joined(card.pieces) != []
    ensures Talk(Begin(command, payload, phase), card, Framed(command, payload))
         == Expected(Joined(card.pieces), card.updates + |card.pieces| - 1 <= MAX_HOPS, phase)
  {
    FramedMeans(command, payload);
    CardOpened(Begin(command, payload, phase), card, Framed(command, payload), Joined(card.pieces));
  }

  lemma {:induction false} CardOpened(x: Xch, card: Card, apdu: seq<byte>, whole: seq<byte>)
    requires card.pieces != [] && whole == Joined(card.pieces) != [] && 1 <= |x.commandData| <= 65535
    requires x.collected == [] && !x.leRetried && card.request == x.commandData
    requires Parse(apdu) == Some(Message(x.commandData))
    ensures Talk(x, card, apdu) == Expected(whole, card.updates + |card.pieces| - 1 <= x.hopsLeft, x.phase)
  {
    assert [] + whole == whole;
    if card.demand.Some? && card.demand.value != 0 {
      RetryMeans(x, card.demand.value);
      DemandStep(x, card.demand.value);
      DemandMet(card, apdu, x.Retry(card.demand.value));
      CardReopened(x, card, apdu, x.Retry(card.demand.value), whole);
    } else {
      assert card.Reply(apdu) == card.Next();
      CardDrained(x, card, apdu, whole);
    }
  }

  lemma {:induction false} DemandMet(card: Card, apdu: seq<byte>, again: seq<byte>)
    requires card.pieces != [] && card.demand.Some? && card.demand.value != 0
    requires Parse(apdu) == Some(Message(card.request))
    requires Parse(again) == Some(Message(card.request).(le := Some(card.demand.value)))
    ensures card.Reply(apdu) == (card, [0x6C, card.demand.value]) && card.Reply(again) == card.Next()
  {
  }

  lemma {:induction false} CardReopened(x: Xch, card: Card, apdu: seq<byte>, again: seq<byte>, whole: seq<byte>)
    requires card.pieces != [] && whole == Joined(card.pieces) != [] && x.collected == []
    requires card.demand.Some? && card.Reply(apdu) == (card, [0x6C, card.demand.value])
    requires card.Reply(again) == card.Next()
    requires StepOn(x, [0x6C, card.demand.value]) == (x.(leRetried := true), Ok(Send(again)))
    ensures Talk(x, card, apdu) == Expected(whole, card.updates + |card.pieces| - 1 <= x.hopsLeft, x.phase)
  {
    var y := x.(leRetried := true);
    assert [] + whole == whole;
    TalkStep(x, card, apdu, y, card, [0x6C, card.demand.value], again);
    CardDrained(y, card, again, whole);
  }

  lemma {:induction false} DemandStep(x: Xch, le: byte)
    requires !x.leRetried
    ensures StepOn(x, [0x6C, le]) == (x.(leRetried := true), Ok(Send(x.Retry(le))))
  {
    Parsed([], 0x6C, le);
    assert [] + [0x6C, le] == [0x6C, le];
  }

  lemma {:induction false} RetryMeans(x: Xch, le: byte)
    requires 1 <= |x.commandData| <= 65535 && le > 0
    ensures Parse(x.Retry(le)) == Some(Message(x.commandData).(le := Some(le)))
  {
    if |x.commandData| <= 255 {
      ShortParses(CLA_CTAP, INS_MSG, P1_GETRESPONSE_SUPPORTED, 0x00, x.commandData, le);
    } else {
      ExtendedParses(CLA_CTAP, INS_MSG, P1_GETRESPONSE_SUPPORTED, 0x00, x.commandData, le);
    }
  }
}
