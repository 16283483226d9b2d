/**
 Command APDUs: the three ways one CTAP command is framed (section 11.3.5 of CTAP 2.1), and an
 independent reader of command APDUs after section 5.1 of ISO 7816-4 that says what they mean.
 */
module ApduFrame {
  import opened Wrappers
  import opened ByteOrder

  const CLA_CTAP: byte := 0x80
  const CLA_CHAIN: byte := 0x90
  const INS_MSG: byte := 0x10
  const INS_GETRESPONSE: byte := 0x11
  const INS_GET_RESPONSE: byte := 0xC0
  const P1_GETRESPONSE_SUPPORTED: byte := 0x80
  const SHORT_LE: nat := 256

  // ---- encoding

  /** `short_le`; a larger expectation is cut to its low byte. */
  function ShortLe(le: nat): byte {
    if le == 0 || le == 256 then 0 else le % 0x100
  }

  /** `as u16`, big-endian. */
  function Low16(n: nat): (s: seq<byte>)
    ensures |s| == 2
  {
    ToBE(n % U16, 2)
  }

  function Case2(cla: byte, ins: byte, p1: byte, p2: byte, le: nat, extended: bool): seq<byte> {
    [cla, ins, p1, p2] + if extended then [0x00] + Low16(le) else [ShortLe(le)]
  }

  function Case3(cla: byte, ins: byte, p1: byte, p2: byte, data: seq<byte>, extended: bool): seq<byte> {
    [cla, ins, p1, p2] + (if extended then [0x00] + Low16(|data|) else [|data| % 0x100]) + data
  }

  function Case4(cla: byte, ins: byte, p1: byte, p2: byte, data: seq<byte>, le: nat, extended: bool): seq<byte> {
    if extended then [cla, ins, p1, p2] + ([0x00] + Low16(|data|)) + data + Low16(le)
    else [cla, ins, p1, p2] + [|data| % 0x100] + data + [ShortLe(le)]
  }

  /** `command_frame`. */
  function CommandFrame(data: seq<byte>, le: nat, extended: bool): seq<byte> {
    Case4(CLA_CTAP, INS_MSG, P1_GETRESPONSE_SUPPORTED, 0x00, data, le, extended)
  }

  /** `framed`: extended length once the command data exceeds 255 bytes. */
  function Framed(command: byte, payload: seq<byte>): seq<byte> {
    CommandFrame([command] + payload, SHORT_LE, |payload| + 1 > 255)
  }

  /** One block of a chain: only the last carries Le. */
  function Block(cla: byte, chunk: seq<byte>, last: bool): seq<byte> {
    if last then Case4(cla, INS_MSG, P1_GETRESPONSE_SUPPORTED, 0x00, chunk, SHORT_LE, false)
    else Case3(cla, INS_MSG, P1_GETRESPONSE_SUPPORTED, 0x00, chunk, false)
  }

  /** The blocks of a chain over non-empty `data`. */
  function Blocks(cla: byte, data: seq<byte>, size: nat, build: (byte, seq<byte>, bool) -> seq<byte>): seq<seq<byte>>
    requires size > 0
    decreases |data|
  {
    if |data| <= size then [build(cla, data, true)]
    else [build(CLA_CHAIN, data[..size], false)] + Blocks(cla, data[size..], size, build)
  }

  /** `chain_short`. */
  method ChainShort(cla: byte, data: seq<byte>, size: nat, build: (byte, seq<byte>, bool) -> seq<byte>)
    returns (blocks: seq<seq<byte>>)
    requires 1 <= size <= 255
    ensures blocks == Blocks(cla, data, size, build)
  {
    blocks := [];
    if data == [] {
      blocks := blocks + [build(cla, data, true)];
      return;
    }
    var rest := data;
    while rest != []
      invariant rest != [] ==> Blocks(cla, data, size, build) == blocks + Blocks(cla, rest, size, build)
      invariant rest == [] ==> Blocks(cla, data, size, build) == blocks
      decreases |rest|
    {
      var end := if |rest| < size then |rest| else size;
      var chunk, tail := rest[..end], rest[end..];
      var last := tail == [];
      var block := build(if last then cla else CLA_CHAIN, chunk, last);
      NextBlock(blocks, cla, rest, size, build, end);
      blocks := blocks + [block];
      rest := tail;
    }
  }

  lemma {:induction false} NextBlock(blocks: seq<seq<byte>>, cla: byte, rest: seq<byte>, size: nat,
                                     build: (byte, seq<byte>, bool) -> seq<byte>, end: nat)
    requires size > 0 && rest != [] && end == (if |rest| < size then |rest| else size)
    ensures var last := end == |rest|;
            var block := build(if last then cla else CLA_CHAIN, rest[..end], last);
            blocks + Blocks(cla, rest, size, build)
            == blocks + [block] + if last then [] else Blocks(cla, rest[end..], size, build)
  {
    if end == |rest| {
      assert rest[..end] == rest;
    } else {
      var next, block := Blocks(cla, rest[end..], size, build), build(CLA_CHAIN, rest[..end], false);
      assert blocks + ([block] + next) == blocks + [block] + next;
    }
  }

  /** `framed_chained`. */
  method FramedChained(command: byte, payload: seq<byte>) returns (blocks: seq<seq<byte>>)
    ensures blocks == Chained(command, payload)
  {
    blocks := ChainShort(CLA_CTAP, [command] + payload, 255, Block);
  }

  function Chained(command: byte, payload: seq<byte>): seq<seq<byte>> {
    Blocks(CLA_CTAP, [command] + payload, 255, Block)
  }

  // ---- reading a command APDU

  /** A command as ISO 7816-4 reads it; `le` is the largest response expected, if one is. */
  datatype Command = Command(cla: byte, ins: byte, p1: byte, p2: byte, data: seq<byte>, le: Option<nat>)

  function ReadLe(b: seq<byte>): nat
    requires 1 <= |b| <= 2
  {
    if FromBE(b) == 0 then (if |b| == 1 then 0x100 else 0x1_0000) else FromBE(b)
  }

  /** The seven cases of section 5.1; nothing else is a command. */
  function Parse(b: seq<byte>): Option<Command> {
    if |b| < 4 then None else
      var body := b[4..];
      match Body(body)
      case None => None
      case Some((data, le)) => Some(Command(b[0], b[1], b[2], b[3], data, le))
  }

  /** Data and expected length from what follows the header. */
  function Body(body: seq<byte>): Option<(seq<byte>, Option<nat>)> {
    if |body| == 0 then Some(([], None))
    else if |body| == 1 then Some(([], Some(ReadLe(body))))
    else if body[0] != 0 then Sized(body[1..], body[0], 1)
    else if |body| == 3 then Some(([], Some(ReadLe(body[1..]))))
    else if |body| > 3 && FromBE(body[1..3]) > 0 then Sized(body[3..], FromBE(body[1..3]), 2)
    else None
  }

  /** `lc` data bytes, then nothing or an expected length of `width` bytes. */
  function Sized(rest: seq<byte>, lc: nat, width: nat): Option<(seq<byte>, Option<nat>)>
    requires 1 <= width <= 2
  {
    if |rest| == lc then Some((rest, None))
    else if |rest| == lc + width then Some((rest[..lc], Some(ReadLe(rest[lc..]))))
    else None
  }

  // ---- what the encodings mean

  /** The CTAP message command carrying `data`, answered in at most 256 bytes. */
  function Message(data: seq<byte>): Command {
    Command(CLA_CTAP, INS_MSG, P1_GETRESPONSE_SUPPORTED, 0x00, data, Some(256))
  }

  lemma {:induction false} OneByte(x: byte)
    ensures FromBE([x]) == x
  {
    assert [x][..0] == [];
  }

  lemma {:induction false} Low16Read(n: nat)
    ensures FromBE(Low16(n)) == n % U16
  {
    Pow256Values();
    FromBEToBE(n % U16, 2);
  }

  /** What a short-form command says. */
  lemma {:induction false} ShortParses(cla: byte, ins: byte, p1: byte, p2: byte, data: seq<byte>, le: nat)
    requires 1 <= |data| <= 255 && le <= 256
    ensures Parse(Case3(cla, ins, p1, p2, data, false)) == Some(Command(cla, ins, p1, p2, data, None))
    ensures Parse(Case4(cla, ins, p1, p2, data, le, false))
         == Some(Command(cla, ins, p1, p2, data, Some(if le == 0 then 256 else le)))
  {
    var b, c := Case3(cla, ins, p1, p2, data, false), Case4(cla, ins, p1, p2, data, le, false);
    OneByte(ShortLe(le));
    assert b[4..] == [|data|] + data && b[4..][1..] == data;
    assert c[4..] == [|data|] + data + [ShortLe(le)] && c[4..][1..] == data + [ShortLe(le)];
    assert (data + [ShortLe(le)])[..|data|] == data && (data + [ShortLe(le)])[|data|..] == [ShortLe(le)];
  }

  /** A command without data in short form. */
  lemma {:induction false} NoDataParses(cla: byte, ins: byte, p1: byte, p2: byte, le: nat)
    requires le <= 256
    ensures Parse(Case2(cla, ins, p1, p2, le, false))
         == Some(Command(cla, ins, p1, p2, [], Some(if le == 0 then 256 else le)))
  {
    OneByte(ShortLe(le));
    assert Case2(cla, ins, p1, p2, le, false)[4..] == [ShortLe(le)];
  }

  /** An extended-length command is read back exactly when its data fits the 16-bit length field. */
  lemma {:induction false} ExtendedParses(cla: byte, ins: byte, p1: byte, p2: byte, data: seq<byte>, le: nat)
    requires data != [] && le < U16
    ensures |data| < U16 <==>
            Parse(Case4(cla, ins, p1, p2, data, le, true))
            == Some(Command(cla, ins, p1, p2, data, Some(if le == 0 then U16 else le)))
  {
    var b, lc, tail := Case4(cla, ins, p1, p2, data, le, true), Low16(|data|), data + Low16(le);
    assert b[4..] == [0x00] + lc + tail;
    Low16Read(|data|);
    Low16Read(le);
    ExtendedBody(lc, tail);
    if |data| < U16 {
      assert tail[..|data|] == data && tail[|data|..] == Low16(le);
    }
  }

  lemma {:induction false} ExtendedBody(lc: seq<byte>, tail: seq<byte>)
    requires |lc| == 2 && |tail| > 2
    ensures Body([0x00] + lc + tail) == if FromBE(lc) > 0 then Sized(tail, FromBE(lc), 2) else None
  {
    var body := [0x00] + lc + tail;
    assert body[1..3] == lc && body[3..] == tail;
  }

  /**
   What framing means: class, instruction, parameters, the whole data and an Le of 256, for all and
   only the data that fits.
   */
  lemma {:induction false} FramedMeans(command: byte, payload: seq<byte>)
    ensures |payload| <= 65534 <==> Parse(Framed(command, payload)) == Some(Message([command] + payload))
  {
    var data := [command] + payload;
    if |data| <= 255 {
      ShortParses(CLA_CTAP, INS_MSG, P1_GETRESPONSE_SUPPORTED, 0x00, data, SHORT_LE);
    } else {
      ExtendedParses(CLA_CTAP, INS_MSG, P1_GETRESPONSE_SUPPORTED, 0x00, data, SHORT_LE);
    }
  }

  /** Two requests framed alike are alike, whichever of the two forms each took. */
  lemma {:induction false} FramedInjective(command: byte, payload: seq<byte>, other: byte, body: seq<byte>)
    requires |payload| <= 65534 && |body| <= 65534 && Framed(command, payload) == Framed(other, body)
    ensures command == other && payload == body
  {
    FramedMeans(command, payload);
    FramedMeans(other, body);
    assert ([command] + payload)[0] == ([other] + body)[0];
    assert ([command] + payload)[1..] == ([other] + body)[1..];
  }

  /** The command a card puts together from a chain: data up to the first block outside the chain. */
  function Unchain(blocks: seq<seq<byte>>): Option<Command>
    decreases |blocks|
  {
    if blocks == [] then None else
      match Parse(blocks[0])
      case None => None
      case Some(c) =>
        if c.cla != CLA_CHAIN then (if |blocks| == 1 then Some(c) else None)
        else if c.le.Some? then None
        else match Unchain(blocks[1..])
             case None => None
             case Some(rest) =>
               if (rest.ins, rest.p1, rest.p2) == (c.ins, c.p1, c.p2) then Some(rest.(data := c.data + rest.data))
               else None
  }

  lemma {:induction false} BlocksMean(data: seq<byte>)
    requires data != []
    ensures Unchain(Blocks(CLA_CTAP, data, 255, Block))
         == Some(Message(data))
    decreases |data|
  {
    var blocks := Blocks(CLA_CTAP, data, 255, Block);
    if |data| <= 255 {
      ShortParses(CLA_CTAP, INS_MSG, P1_GETRESPONSE_SUPPORTED, 0x00, data, SHORT_LE);
    } else {
      ShortParses(CLA_CHAIN, INS_MSG, P1_GETRESPONSE_SUPPORTED, 0x00, data[..255], SHORT_LE);
      BlocksMean(data[255..]);
      assert blocks[1..] == Blocks(CLA_CTAP, data[255..], 255, Block);
      assert data[..255] + data[255..] == data;
    }
  }

  /** Framing equivalence: the chain says what the single frame says, wherever the single frame can say it. */
  lemma {:induction false} ChainedMeansFramed(command: byte, payload: seq<byte>)
    ensures Unchain(Chained(command, payload)) == Some(Message([command] + payload))
    ensures |payload| <= 65534 <==> Unchain(Chained(command, payload)) == Parse(Framed(command, payload))
  {
    BlocksMean([command] + payload);
    FramedMeans(command, payload);
  }

  /** The shape of a chain: as many blocks as needed, each readable on its own, class and Le by position. */
  lemma {:induction false} ChainShape(data: seq<byte>, i: nat)
    requires data != [] && i < |Blocks(CLA_CTAP, data, 255, Block)|
    ensures |Blocks(CLA_CTAP, data, 255, Block)| == (|data| + 254) / 255
    ensures Parse(Blocks(CLA_CTAP, data, 255, Block)[i]) == Some(BlockMeant(data, i))
    decreases |data|
  {
    if |data| <= 255 {
      ShortParses(CLA_CTAP, INS_MSG, P1_GETRESPONSE_SUPPORTED, 0x00, data, SHORT_LE);
    } else {
      var rest := data[255..];
      ShortParses(CLA_CHAIN, INS_MSG, P1_GETRESPONSE_SUPPORTED, 0x00, data[..255], SHORT_LE);
      ChainShape(rest, if i == 0 then 0 else i - 1);
      if i > 0 {
        assert rest[255 * (i - 1)..] == data[255 * i..];
      }
    }
  }

  /** Block `i` of `data`: 255 bytes in class 0x90 without Le, and the remainder in class 0x80 with Le. */
  function BlockMeant(data: seq<byte>, i: nat): Command
    requires 255 * i < |data|
  {
    var rest := data[255 * i..];
    if |rest| <= 255 then Message(rest)
    else Command(CLA_CHAIN, INS_MSG, P1_GETRESPONSE_SUPPORTED, 0x00, rest[..255], None)
  }
}
