/** CTAPHID packets (section 11.2.4 of CTAP 2.1): splitting a message into 64-byte reports, and their headers. */
module HidPacket {
  import opened Wrappers
  import opened ByteOrder

  const REPORT_SIZE: nat := 64
  const INIT_HEADER: nat := 7
  const INIT_PAYLOAD: nat := REPORT_SIZE - INIT_HEADER
  const CONT_HEADER: nat := 5
  const CONT_PAYLOAD: nat := REPORT_SIZE - CONT_HEADER
  const MAX_MESSAGE_SIZE: nat := INIT_PAYLOAD + 128 * CONT_PAYLOAD

  type Packet = p: seq<byte> | |p| == REPORT_SIZE witness Zeros(REPORT_SIZE)

  /** A report as the descriptor hands it over: at most 64 bytes. */
  type Report = r: seq<byte> | |r| <= REPORT_SIZE

  datatype FramingError =
    | MessageTooLong(len: nat)
    | LengthBeyondMaximum(bcnt: nat)
    | ShortReport(got: nat)
    | LengthMismatch(expected: nat, got: nat)
    | InvalidSeq(cid: nat, got: nat, expected: nat)
    | NonceMismatch
    | ReservedCid(cid: nat)
    | InitResponseShort(got: nat)
    | UnexpectedCommand(got: nat, expected: nat)
    | UnexpectedBcnt(cmd: nat, got: nat)

  /** `cmd | CMD_TYPE_BIT`. */
  function Tagged(cmd: byte): (b: byte)
    ensures b >= 0x80 && b % 0x80 == cmd % 0x80
  {
    if cmd < 0x80 then cmd + 0x80 else cmd
  }

  // ---- the message as packets

  function Padded(s: seq<byte>): (p: Packet)
    requires |s| <= REPORT_SIZE
    ensures p[..|s|] == s
  {
    s + Zeros(REPORT_SIZE - |s|)
  }

  function InitPacket(cid: nat, cmd: byte, payload: seq<byte>): Packet
    requires cid < U32 && |payload| <= MAX_MESSAGE_SIZE
  {
    Padded(ToBE(cid, 4) + [Tagged(cmd)] + ToBE(|payload|, 2) + Take(payload, INIT_PAYLOAD))
  }

  function ContPacket(cid: nat, number: byte, data: seq<byte>): Packet
    requires cid < U32 && |data| <= CONT_PAYLOAD
  {
    Padded(ToBE(cid, 4) + [number] + data)
  }

  /** The continuation packets for what remains of a payload, numbered from `number` on. */
  function ContPackets(cid: nat, number: nat, rest: seq<byte>): (ps: seq<Packet>)
    requires cid < U32 && |rest| <= (128 - number) * CONT_PAYLOAD && number <= 128
    decreases |rest|
  {
    if rest == [] then [] else
      [ContPacket(cid, number, Take(rest, CONT_PAYLOAD))] + ContPackets(cid, number + 1, Drop(rest, CONT_PAYLOAD))
  }

  function Packets(cid: nat, cmd: byte, payload: seq<byte>): seq<Packet>
    requires cid < U32 && |payload| <= MAX_MESSAGE_SIZE
  {
    [InitPacket(cid, cmd, payload)] + ContPackets(cid, 0, Drop(payload, INIT_PAYLOAD))
  }

  function Encoded(cid: nat, cmd: byte, payload: seq<byte>): Result<seq<Packet>, FramingError>
    requires cid < U32
  {
    if |payload| > MAX_MESSAGE_SIZE then Err(MessageTooLong(|payload|)) else Ok(Packets(cid, cmd, payload))
  }

  /** `copy_from_slice`. */
  method CopyInto(a: array<byte>, at: nat, s: seq<byte>)
    requires at + |s| <= a.Length
    modifies a
    ensures a[..] == old(a[..at]) + s + old(a[at + |s|..])
  {
    for i := 0 to |s|
      invariant a[..at] == old(a[..at]) && a[at..at + i] == s[..i] && a[at + |s|..] == old(a[at + |s|..])
    {
      a[at + i] := s[i];
      assert a[at..at + i + 1] == a[at..at + i] + [s[i]];
    }
    assert a[..] == a[..at] + a[at..at + |s|] + a[at + |s|..];
  }

  /** `encode_message`. */
  method EncodeMessage(cid: nat, cmd: byte, payload: seq<byte>) returns (r: Result<seq<Packet>, FramingError>)
    requires cid < U32
    ensures r == Encoded(cid, cmd, payload)
  {
    if |payload| > MAX_MESSAGE_SIZE {
      return Err(MessageTooLong(|payload|));
    }
    var first := if |payload| < INIT_PAYLOAD then |payload| else INIT_PAYLOAD;
    var init := FillInit(cid, cmd, payload, first);
    var packets: seq<Packet> := [init];
    var rest := payload[first..];
    var number := 0;
    while rest != []
      invariant 0 <= number <= 128 && |rest| <= (128 - number) * CONT_PAYLOAD
      invariant Packets(cid, cmd, payload) == packets + ContPackets(cid, number, rest)
      decreases |rest|
    {
      var take := if |rest| < CONT_PAYLOAD then |rest| else CONT_PAYLOAD;
      var cont := FillCont(cid, number, rest[..take]);
      NextPacket(packets, cid, number, rest, cont);
      packets := packets + [cont];
      rest := rest[take..];
      number := number + 1;
    }
    assert packets + [] == packets;
    r := Ok(packets);
  }

  lemma {:induction false} NextPacket(packets: seq<Packet>, cid: nat, number: nat, rest: seq<byte>, cont: Packet)
    requires cid < U32 && number <= 128 && 0 < |rest| <= (128 - number) * CONT_PAYLOAD
    requires cont == ContPacket(cid, number, Take(rest, CONT_PAYLOAD))
    ensures packets + ContPackets(cid, number, rest)
         == packets + [cont] + ContPackets(cid, number + 1, Drop(rest, CONT_PAYLOAD))
  {
    var next := ContPackets(cid, number + 1, Drop(rest, CONT_PAYLOAD));
    assert packets + ([cont] + next) == packets + [cont] + next;
  }

  method FillInit(cid: nat, cmd: byte, payload: seq<byte>, first: nat) returns (p: Packet)
    requires cid < U32 && |payload| <= MAX_MESSAGE_SIZE && first <= INIT_PAYLOAD
    requires first <= |payload| && payload[..first] == Take(payload, INIT_PAYLOAD)
    ensures p == InitPacket(cid, cmd, payload)
  {
    var init := new byte[REPORT_SIZE](_ => 0);
    var channel, length, data := ToBE(cid, 4), ToBE(|payload|, 2), payload[..first];
    CopyInto(init, 0, channel);
    init[4] := Tagged(cmd);
    CopyInto(init, 5, length);
    assert init[INIT_HEADER..] == Zeros(INIT_PAYLOAD);
    CopyInto(init, INIT_HEADER, data);
    p := init[..];
    assert p[7 + first..] == Zeros(INIT_PAYLOAD)[first..];
    assert p[..4] == channel && p[5..7] == length && p[7..7 + first] == data;
    Layout(p, channel, Tagged(cmd), length, data);
  }

  lemma {:induction false} Layout(p: Packet, channel: seq<byte>, tag: byte, length: seq<byte>, data: seq<byte>)
    requires |channel| == 4 && |length| <= 2 && 5 + |length| + |data| <= REPORT_SIZE
    requires p[..4] == channel && p[4] == tag && p[5..5 + |length|] == length
    requires p[5 + |length|..5 + |length| + |data|] == data
    requires p[5 + |length| + |data|..] == Zeros(REPORT_SIZE - 5 - |length| - |data|)
    ensures p == Padded(channel + [tag] + length + data)
  {
    var body := channel + [tag] + length + data;
    assert p[..|body|] == p[..4] + [p[4]] + p[5..5 + |length|] + p[5 + |length|..|body|];
    assert p[|body|..] == Zeros(REPORT_SIZE - |body|);
  }

  method FillCont(cid: nat, number: byte, data: seq<byte>) returns (p: Packet)
    requires cid < U32 && |data| <= CONT_PAYLOAD
    ensures p == ContPacket(cid, number, data)
  {
    var cont := new byte[REPORT_SIZE](_ => 0);
    CopyInto(cont, 0, ToBE(cid, 4));
    cont[4] := number;
    CopyInto(cont, CONT_HEADER, data);
    p := cont[..];
    Layout(p, ToBE(cid, 4), number, [], data);
    assert ToBE(cid, 4) + [number] + [] + data == ToBE(cid, 4) + [number] + data;
  }

  /** `packet_count`. */
  function PacketCount(len: nat): nat {
    if len <= INIT_PAYLOAD then 1 else 1 + (len - INIT_PAYLOAD + CONT_PAYLOAD - 1) / CONT_PAYLOAD
  }

  lemma {:induction false} ContCount(cid: nat, number: nat, rest: seq<byte>)
    requires cid < U32 && number <= 128 && |rest| <= (128 - number) * CONT_PAYLOAD
    ensures |ContPackets(cid, number, rest)| == (|rest| + CONT_PAYLOAD - 1) / CONT_PAYLOAD
    decreases |rest|
  {
    if rest != [] { ContCount(cid, number + 1, Drop(rest, CONT_PAYLOAD)); }
  }

  /** The split rule: how many packets there are, at most 129, and so no number above 127. */
  lemma {:induction false} PacketsCounted(cid: nat, cmd: byte, payload: seq<byte>)
    requires cid < U32 && |payload| <= MAX_MESSAGE_SIZE
    ensures |Packets(cid, cmd, payload)| == PacketCount(|payload|) <= 129
  {
    ContCount(cid, 0, Drop(payload, INIT_PAYLOAD));
  }

  // ---- reading headers

  datatype Kind = Init | Continuation

  datatype Header = Header(cid: nat, cmd: nat, bcnt: nat)

  function Sized(report: Report): Result<(), FramingError> {
    if |report| < REPORT_SIZE then Err(ShortReport(|report|)) else Ok(())
  }

  function Classify(report: Report): Result<Kind, FramingError> {
    var _ :- Sized(report);
    Ok(if report[4] >= 0x80 then Init else Continuation)
  }

  function ParseInitHeader(report: Report): Result<Header, FramingError> {
    var _ :- Sized(report);
    Ok(Header(FromBE(report[..4]), report[4] % 0x80, FromBE(report[5..7])))
  }

  function ParseContHeader(report: Report): Result<(nat, byte), FramingError> {
    var _ :- Sized(report);
    Ok((FromBE(report[..4]), report[4]))
  }

  /** `payload_of`: what follows the header, cut to the announced length. */
  function PayloadOf(report: Report, hdr: Header): Result<seq<byte>, FramingError> {
    var _ :- Sized(report);
    Ok(Take(report[INIT_HEADER..], hdr.bcnt))
  }

  lemma {:induction false} InitPacketRead(cid: nat, cmd: byte, payload: seq<byte>)
    requires cid < U32 && |payload| <= MAX_MESSAGE_SIZE
    ensures var p := InitPacket(cid, cmd, payload);
            && Classify(p) == Ok(Init) && ParseInitHeader(p) == Ok(Header(cid, cmd % 0x80, |payload|))
            && Take(p[INIT_HEADER..], |payload|) == Take(payload, INIT_PAYLOAD)
  {
    var p := InitPacket(cid, cmd, payload);
    Pow256Values();
    FromBEToBE(cid, 4);
    FromBEToBE(|payload|, 2);
    assert p[..4] == ToBE(cid, 4) && p[5..7] == ToBE(|payload|, 2);
    assert p[INIT_HEADER..] == Take(payload, INIT_PAYLOAD) + Zeros(INIT_PAYLOAD - |Take(payload, INIT_PAYLOAD)|);
  }

  lemma {:induction false} ContPacketRead(cid: nat, number: byte, data: seq<byte>)
    requires cid < U32 && |data| <= CONT_PAYLOAD && number < 0x80
    ensures var p := ContPacket(cid, number, data);
            && Classify(p) == Ok(Continuation) && ParseContHeader(p) == Ok((cid, number))
            && Take(p[CONT_HEADER..], |data|) == data
  {
    var p := ContPacket(cid, number, data);
    Pow256Values();
    FromBEToBE(cid, 4);
    assert p[..4] == ToBE(cid, 4);
    assert p[CONT_HEADER..] == data + Zeros(CONT_PAYLOAD - |data|);
  }
}
