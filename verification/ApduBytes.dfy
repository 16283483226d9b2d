/** The NFC exchange byte by byte: the command sent, and what each status word makes of the exchange. */
module ApduBytes {
  import opened Wrappers
  import opened ByteOrder
  import opened Budget
  import opened ApduFrame
  import opened ApduExchange
  import opened ApduCard

  /** NFCCTAP_MSG in class 0x80 with parameters 0x80 and 0x00, in short or extended length, for 256 bytes of answer. */
  lemma {:induction false} FramedBytes(command: byte, payload: seq<byte>)
    requires |payload| <= 65534
    ensures var n := 1 + |payload|;
            Framed(command, payload) ==
            if n <= 255 then [0x80, 0x10, 0x80, 0x00, n] + [command] + payload + [0x00]
            else [0x80, 0x10, 0x80, 0x00, 0x00, n / 0x100, n % 0x100] + [command] + payload + [0x01, 0x00]
  {
    var data, n := [command] + payload, 1 + |payload|;
    if n <= 255 {
      assert Framed(command, payload) == [0x80, 0x10, 0x80, 0x00] + [n] + data + [0x00];
      assert [0x80, 0x10, 0x80, 0x00] + [n] + data == [0x80, 0x10, 0x80, 0x00, n] + [command] + payload;
    } else {
      ExtendedBytes(data, 256);
      assert [0x80, 0x10, 0x80, 0x00, 0x00, n / 0x100, n % 0x100] + data
          == [0x80, 0x10, 0x80, 0x00, 0x00, n / 0x100, n % 0x100] + [command] + payload;
    }
  }

  /** What the exchange makes of an answer, by the two bytes at its end. */
  ghost predicate AnswerMeans(x: Xch, data: seq<byte>, sw1: byte, sw2: byte, next: Xch, r: StepResult) {
    if sw1 == 0x90 && sw2 == 0x00 then
      && next == x.(collected := [])
      && if x.collected + data == [] then r == Err(ExchangeError(x.phase, NoStatusByte))
         else r == Ok(Done((x.collected + data)[0], (x.collected + data)[1..]))
    else if sw1 == 0x61 then
      if x.hopsLeft == 0 then next == x && r == Err(ExchangeError(x.phase, Runaway))
      else
        && next == x.(hopsLeft := x.hopsLeft - 1, collected := x.collected + data)
        && r == Ok(Send([0x80, 0xC0, 0x00, 0x00, sw2]))
    else if sw1 == 0x91 && sw2 == 0x00 then
      if x.hopsLeft == 0 then next == x.(statusUpdate := true) && r == Err(ExchangeError(x.phase, Runaway))
      else
        && next == x.(hopsLeft := x.hopsLeft - 1, statusUpdate := true)
        && r == Ok(Send([0x80, 0x11, 0x00, 0x00, 0x00]))
    else if sw1 == 0x6C then
      if x.leRetried then next == x && r == Err(ExchangeError(x.phase, LeDoesNotConverge(sw2)))
      else next == x.(leRetried := true) && r.Ok? && AskedAgain(x.commandData, sw2, r.value)
    else
      next == x && r.Err? && r.error.phase == x.phase && r.error.cause.Refused?
      && ToPair(r.error.cause.sw) == [sw1, sw2]
  }

  /** The same command once more, with the Le the card asked for. */
  ghost predicate AskedAgain(data: seq<byte>, le: byte, s: Step) {
    && s.Send?
    && (1 <= |data| <= 255 ==> s.apdu == [0x80, 0x10, 0x80, 0x00, |data|] + data + [le])
    && (256 <= |data| <= 65535 ==>
          s.apdu == [0x80, 0x10, 0x80, 0x00, 0x00, |data| / 0x100, |data| % 0x100] + data + [0x00, le])
  }

  /** The bytes of the message command, short or extended. */
  lemma {:induction false} ShortBytes(data: seq<byte>, le: byte)
    requires |data| <= 255
    ensures CommandFrame(data, le, false) == [0x80, 0x10, 0x80, 0x00, |data|] + data + [le]
  {
    assert [0x80, 0x10, 0x80, 0x00] + [|data|] == [0x80, 0x10, 0x80, 0x00, |data|];
  }

  lemma {:induction false} ExtendedBytes(data: seq<byte>, le: nat)
    requires |data| <= 65535 && le <= 256
    ensures CommandFrame(data, le, true)
         == [0x80, 0x10, 0x80, 0x00, 0x00, |data| / 0x100, |data| % 0x100] + data + [le / 0x100, le % 0x100]
  {
    BigEndian2(|data|);
    BigEndian2(le);
    assert [0x80, 0x10, 0x80, 0x00] + ([0x00] + [|data| / 0x100, |data| % 0x100])
        == [0x80, 0x10, 0x80, 0x00, 0x00, |data| / 0x100, |data| % 0x100];
  }

  lemma {:induction false} RetryBytes(x: Xch, le: byte)
    ensures AskedAgain(x.commandData, le, Send(x.Retry(le)))
  {
    if |x.commandData| <= 255 {
      ShortBytes(x.commandData, le);
    } else if |x.commandData| <= 65535 {
      ExtendedBytes(x.commandData, le);
    }
  }

  lemma {:induction false} HopBytes(n: byte)
    ensures GetResponse(n) == [0x80, 0xC0, 0x00, 0x00, n] && PollStatus() == [0x80, 0x11, 0x00, 0x00, 0x00]
  {
    assert [0x80, 0xC0, 0x00, 0x00] + [n] == [0x80, 0xC0, 0x00, 0x00, n];
    assert [0x80, 0x11, 0x00, 0x00] + [0x00] == [0x80, 0x11, 0x00, 0x00, 0x00];
  }

  /** One answer of the card, judged by its bytes alone; one without a status word is no answer. */
  lemma {:induction false} StepByBytes(x: Xch, data: seq<byte>, sw1: byte, sw2: byte)
    ensures var (next, r) := StepOn(x, data + [sw1, sw2]);
            AnswerMeans(x, data, sw1, sw2, next, r)
    ensures |data| < 2 ==> StepOn(x, data) == (x, Err(ExchangeError(CommandExchange, TooShort)))
  {
    Parsed(data, sw1, sw2);
    RetryBytes(x, sw2);
    HopBytes(sw2);
    StatusWordRoundTrip(sw1, sw2);
  }
}
