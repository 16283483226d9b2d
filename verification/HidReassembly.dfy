/** Reassembly is complete: a message gets through noise whole. */
module HidReassembly {
  import opened Wrappers
  import opened ByteOrder
  import opened HidPacket
  import opened HidAssembler

  /** Other clients' traffic, or a one-byte keepalive on our channel. */
  predicate Harmless(cid: nat, report: Report) {
    |report| == REPORT_SIZE && (FromBE(report[..4]) != cid || IsKeepalive(report))
  }

  predicate IsKeepalive(report: Report)
    requires |report| == REPORT_SIZE
  {
    report[4] == Tagged(CMD_KEEPALIVE) && FromBE(report[5..7]) == 1
  }

  /** A continuation on our channel, meaningless before the message begins. */
  predicate Stray(cid: nat, report: Report) {
    |report| == REPORT_SIZE && FromBE(report[..4]) == cid && report[4] < 0x80
  }

  /** The statuses that harmless reports carry for us. */
  function Statuses(cid: nat, noise: seq<Report>): seq<byte> {
    Gather(r => StatusOf(cid, r), noise)
  }

  function Gather(read: Report -> seq<byte>, reports: seq<Report>): seq<byte> {
    if reports == [] then [] else read(reports[0]) + Gather(read, reports[1..])
  }

  function StatusOf(cid: nat, r: Report): seq<byte> {
    if Harmless(cid, r) && FromBE(r[..4]) == cid then [r[INIT_HEADER]] else []
  }

  lemma {:induction false} HarmlessStep(a: Asm, awaited: byte, r: Report)
    requires Harmless(a.cid, r) || (!a.active && Stray(a.cid, r))
    ensures StepOn(a, awaited, r) == Stepped(a, StatusOf(a.cid, r), Ok(Continue))
  {
    if Harmless(a.cid, r) && FromBE(r[..4]) == a.cid {
      assert |Take(r[INIT_HEADER..], 1)| == 1;
    }
  }

  lemma {:induction false} NoiseIgnored(a: Asm, awaited: byte, noise: seq<Report>, rest: seq<Report>)
    requires forall i :: 0 <= i < |noise| ==> Harmless(a.cid, noise[i]) || (!a.active && Stray(a.cid, noise[i]))
    ensures Feed(a, awaited, noise + rest) == Before(Statuses(a.cid, noise), |noise|, Feed(a, awaited, rest))
  {
    if noise == [] {
      assert noise + rest == rest;
      assert [] + Feed(a, awaited, rest).surfaced == Feed(a, awaited, rest).surfaced;
    } else {
      HarmlessStep(a, awaited, noise[0]);
      NoiseIgnored(a, awaited, noise[1..], rest);
      assert (noise + rest)[1..] == noise[1..] + rest;
      BeforeTwice(StatusOf(a.cid, noise[0]), 1, Statuses(a.cid, noise[1..]), |noise| - 1, Feed(a, awaited, rest));
    }
  }

  lemma {:induction false} BeforeTwice(s: seq<byte>, m: nat, t: seq<byte>, n: nat, f: Fed)
    ensures Before(s, m, Before(t, n, f)) == Before(s + t, m + n, f)
  {
    assert s + (t + f.surfaced) == s + t + f.surfaced;
  }

  /** `gaps[i]` arrives before packet `i`. */
  function Weave(gaps: seq<seq<Report>>, packets: seq<Packet>): seq<Report>
    requires |gaps| == |packets|
  {
    if packets == [] then [] else gaps[0] + [packets[0]] + Weave(gaps[1..], packets[1..])
  }

  function Flat<T>(gaps: seq<seq<T>>): seq<T> {
    if gaps == [] then [] else gaps[0] + Flat(gaps[1..])
  }

  lemma {:induction false} StatusesJoin(cid: nat, s: seq<Report>, t: seq<Report>)
    ensures Statuses(cid, s + t) == Statuses(cid, s) + Statuses(cid, t)
  {
    GatherJoin(r => StatusOf(cid, r), s, t);
  }

  lemma {:induction false} GatherJoin(read: Report -> seq<byte>, s: seq<Report>, t: seq<Report>)
    ensures Gather(read, s + t) == Gather(read, s) + Gather(read, t)
  {
    if s == [] {
      assert s + t == t;
      assert [] + Gather(read, t) == Gather(read, t);
    } else {
      var rest := s[1..];
      GatherJoin(read, rest, t);
      assert (s + t)[1..] == rest + t;
      assert read(s[0]) + (Gather(read, rest) + Gather(read, t)) == read(s[0]) + Gather(read, rest) + Gather(read, t);
    }
  }

  ghost predicate AllHarmless(cid: nat, gaps: seq<seq<Report>>) {
    forall i, j :: 0 <= i < |gaps| && 0 <= j < |gaps[i]| ==> Harmless(cid, gaps[i][j])
  }

  /** A message of command `cmd` is delivered whole, at its last packet, whatever follows. */
  ghost predicate Delivered(f: Fed, cmd: byte, payload: seq<byte>, statuses: seq<byte>, used: nat) {
    f.surfaced == statuses && f.used == used && f.result == Ok(Resolved(Done(FrameOf(cmd, payload))))
  }

  /** A continuation in sequence extends the message, and resolves it when it brings the last byte. */
  lemma {:induction false} ContStep(a: Asm, cmd: byte, packet: Packet, data: seq<byte>, payload: seq<byte>,
                                    got: seq<byte>)
    requires Safe(a) && a.active && a.cid < U32 && a.bcnt == |payload| && got == a.payload + data
    requires 0 < |data| <= CONT_PAYLOAD && |got| <= |payload| && payload[..|got|] == got
    requires |data| < CONT_PAYLOAD ==> got == payload
    requires packet == ContPacket(a.cid, a.nextSeq, data)
    ensures var s := StepOn(a, cmd, packet);
            s.surfaced == [] &&
            if got == payload then s.result == Ok(Resolved(Done(FrameOf(cmd, payload))))
            else s.result == Ok(Continue) && s.asm == a.(nextSeq := a.nextSeq + 1, payload := got)
  {
    ContPacketRead(a.cid, a.nextSeq, data);
    var b := a.Extended(packet);
    var tail := packet[CONT_HEADER..];
    assert tail[..|data|] == data;
    assert b.payload[..|got|] == got;
    if |data| == CONT_PAYLOAD { assert tail == data; }
    if |got| == |payload| { assert got == payload; }
  }

  ghost predicate NoiseTo(a: Asm, gap: seq<Report>) {
    forall j :: 0 <= j < |gap| ==> Harmless(a.cid, gap[j]) || (!a.active && Stray(a.cid, gap[j]))
  }

  /** Noise, then the packet that completes the message. */
  lemma {:induction false} LastPacket(a: Asm, cmd: byte, payload: seq<byte>, gap: seq<Report>, packet: Report,
                                      more: seq<Report>, inbound: seq<Report>)
    requires NoiseTo(a, gap) && inbound == gap + ([packet] + more)
    requires StepOn(a, cmd, packet).result == Ok(Resolved(Done(FrameOf(cmd, payload))))
    requires StepOn(a, cmd, packet).surfaced == []
    ensures Delivered(Feed(a, cmd, inbound), cmd, payload, Statuses(a.cid, gap), |gap| + 1)
  {
    NoiseIgnored(a, cmd, gap, [packet] + more);
    assert Statuses(a.cid, gap) + [] == Statuses(a.cid, gap);
  }

  /** Noise, then a packet that takes the assembler to `b`, from where the message is delivered. */
  lemma {:induction false} OnePacket(a: Asm, b: Asm, cmd: byte, payload: seq<byte>, gap: seq<Report>, packet: Report,
                                     more: seq<Report>, inbound: seq<Report>, statuses: seq<byte>, used: nat)
    requires NoiseTo(a, gap) && inbound == gap + ([packet] + more)
    requires StepOn(a, cmd, packet) == Stepped(b, [], Ok(Continue))
    requires Delivered(Feed(b, cmd, more), cmd, payload, statuses, used)
    ensures Delivered(Feed(a, cmd, inbound), cmd, payload, Statuses(a.cid, gap) + statuses, |gap| + 1 + used)
  {
    NoiseIgnored(a, cmd, gap, [packet] + more);
    assert ([packet] + more)[1..] == more;
    assert [] + statuses == statuses;
  }

  /** From the middle of a message on. */
  lemma {:induction false} TailDelivered(a: Asm, cmd: byte, payload: seq<byte>, rest: seq<byte>, gaps: seq<seq<Report>>,
                                         packets: seq<Packet>, after: seq<Report>, inbound: seq<Report>)
    requires Safe(a) && a.active && a.cid < U32 && a.bcnt == |payload| && a.payload + rest == payload
    requires rest != [] && packets == ContPackets(a.cid, a.nextSeq, rest)
    requires |gaps| == |packets| && AllHarmless(a.cid, gaps) && inbound == Weave(gaps, packets) + after
    ensures Delivered(Feed(a, cmd, inbound), cmd, payload, Statuses(a.cid, Flat(gaps)), |Weave(gaps, packets)|)
    decreases |rest|
  {
    var data, left := Take(rest, CONT_PAYLOAD), Drop(rest, CONT_PAYLOAD);
    var got := a.payload + data;
    var woven := Weave(gaps[1..], packets[1..]);
    assert inbound == gaps[0] + ([packets[0]] + (woven + after));
    StatusesJoin(a.cid, gaps[0], Flat(gaps[1..]));
    assert data + left == rest && got + left == payload;
    ContStep(a, cmd, packets[0], data, payload, got);
    if left == [] {
      assert packets[1..] == [] && gaps[1..] == [];
      LastPacket(a, cmd, payload, gaps[0], packets[0], woven + after, inbound);
    } else {
      var b := a.(nextSeq := a.nextSeq + 1, payload := got);
      assert packets[1..] == ContPackets(a.cid, a.nextSeq + 1, left);
      TailDelivered(b, cmd, payload, left, gaps[1..], packets[1..], after, woven + after);
      OnePacket(a, b, cmd, payload, gaps[0], packets[0], woven + after, inbound,
                Statuses(a.cid, Flat(gaps[1..])), |woven|);
    }
  }

  lemma {:induction false} InitStep(cid: nat, cmd: byte, payload: seq<byte>, a: Asm)
    requires cid < U32 && |payload| <= MAX_MESSAGE_SIZE && a.cid == cid
    requires cmd < 0x80 && cmd != CMD_KEEPALIVE && cmd != CMD_ERROR
    ensures var s := StepOn(a, cmd, InitPacket(cid, cmd, payload));
            s.surfaced == [] &&
            if |payload| <= INIT_PAYLOAD then s.result == Ok(Resolved(Done(FrameOf(cmd, payload))))
            else s.result == Ok(Continue) && s.asm == Asm(cid, |payload|, payload[..INIT_PAYLOAD], 0, true)
  {
    InitPacketRead(cid, cmd, payload);
    var p := InitPacket(cid, cmd, payload);
    if |payload| <= INIT_PAYLOAD {
      assert Take(p[INIT_HEADER..], |payload|) == payload;
    } else {
      assert Take(p[INIT_HEADER..], |payload|) == p[INIT_HEADER..];
    }
  }

  /**
   Reassembly through noise: whatever foreign traffic, keepalives and, before the first packet,
   stray continuations arrive in between, the message completes exactly at its last packet with
   exactly its payload, and the sink has seen exactly the keepalives' statuses in their order.
   */
  lemma {:induction false} ReassemblyThroughNoise(cid: nat, cmd: byte, payload: seq<byte>,
                                                  gaps: seq<seq<Report>>, after: seq<Report>)
    requires cid < U32 && |payload| <= MAX_MESSAGE_SIZE
    requires cmd < 0x80 && cmd != CMD_KEEPALIVE && cmd != CMD_ERROR
    requires |gaps| == |Packets(cid, cmd, payload)| && AllHarmless(cid, gaps[1..])
    requires forall j :: 0 <= j < |gaps[0]| ==> Harmless(cid, gaps[0][j]) || Stray(cid, gaps[0][j])
    ensures var inbound := Weave(gaps, Packets(cid, cmd, payload));
            Delivered(Feed(Idle(cid), cmd, inbound + after), cmd, payload, Statuses(cid, Flat(gaps)), |inbound|)
  {
    var a, packets := Idle(cid), Packets(cid, cmd, payload);
    var inbound, woven := Weave(gaps, packets) + after, Weave(gaps[1..], packets[1..]);
    var rest := Drop(payload, INIT_PAYLOAD);
    assert inbound == gaps[0] + ([packets[0]] + (woven + after));
    StatusesJoin(cid, gaps[0], Flat(gaps[1..]));
    InitStep(cid, cmd, payload, a);
    assert packets[1..] == ContPackets(cid, 0, rest);
    if rest == [] {
      LastPacket(a, cmd, payload, gaps[0], packets[0], woven + after, inbound);
    } else {
      var b := Asm(cid, |payload|, payload[..INIT_PAYLOAD], 0, true);
      assert b.payload + rest == payload;
      TailDelivered(b, cmd, payload, rest, gaps[1..], packets[1..], after, woven + after);
      OnePacket(a, b, cmd, payload, gaps[0], packets[0], woven + after, inbound,
                Statuses(cid, Flat(gaps[1..])), |woven|);
    }
  }
}
