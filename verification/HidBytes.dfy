/**
 CTAPHID reports byte by byte, after sections 11.2.4 and 11.2.9 of CTAP 2.1: what is written, and what
 each one read means.
 */
module HidBytes {
  import opened Wrappers
  import opened ByteOrder
  import opened HidPacket
  import opened HidAssembler

  // ---- what is written

  /** Data byte `i` of packet `k`: the first carries 57 of the payload and the others 59, with zeros beyond it. */
  function DataByte(payload: seq<byte>, k: nat, i: nat): byte {
    var at := if k == 0 then i else 57 + 59 * (k - 1) + i;
    if at < |payload| then payload[at] else 0x00
  }

  /** Packet `k` of a message, all 64 bytes of it. */
  ghost predicate IsPacket(p: Packet, cid: nat, cmd: byte, payload: seq<byte>, k: nat) {
    && p[..4] == Four(cid)
    && if k == 0 then
         && p[4] == 0x80 + cmd % 0x80 && p[5] == |payload| / 0x100 % 0x100 && p[6] == |payload| % 0x100
         && forall i: nat :: i < 57 ==> p[7 + i] == DataByte(payload, 0, i)
       else
         p[4] == k - 1 && forall i: nat :: i < 59 ==> p[5 + i] == DataByte(payload, k, i)
  }

  lemma {:induction false} InitPacketBytes(cid: nat, cmd: byte, payload: seq<byte>)
    requires cid < U32 && |payload| <= MAX_MESSAGE_SIZE
    ensures IsPacket(InitPacket(cid, cmd, payload), cid, cmd, payload, 0)
  {
    var p := InitPacket(cid, cmd, payload);
    BigEndian4(cid);
    BigEndian2(|payload|);
    assert p[..4] == ToBE(cid, 4) && p[5..7] == ToBE(|payload|, 2);
    assert p[5] == p[5..7][0] && p[6] == p[5..7][1];
  }

  lemma {:induction false} ContPacketBytes(cid: nat, cmd: byte, payload: seq<byte>, number: nat, rest: seq<byte>)
    requires cid < U32 && number < 128 && |payload| == 57 + 59 * number + |rest|
    requires forall i: nat :: i < |rest| ==> rest[i] == payload[57 + 59 * number + i]
    ensures IsPacket(ContPacket(cid, number, Take(rest, CONT_PAYLOAD)), cid, cmd, payload, number + 1)
  {
    var p, data, k := ContPacket(cid, number, Take(rest, CONT_PAYLOAD)), Take(rest, CONT_PAYLOAD), number + 1;
    BigEndian4(cid);
    assert p[..4] == ToBE(cid, 4);
    forall i: nat | i < 59 ensures p[5 + i] == DataByte(payload, k, i) {
      assert p[5 + i] == if i < |data| then data[i] else 0x00;
    }
  }

  lemma {:induction false} ContPacketsBytes(cid: nat, cmd: byte, payload: seq<byte>, number: nat, rest: seq<byte>)
    requires cid < U32 && number <= 128 && |rest| <= (128 - number) * CONT_PAYLOAD
    requires rest != [] ==> |payload| == 57 + 59 * number + |rest|
    requires forall i: nat :: i < |rest| ==> rest[i] == payload[57 + 59 * number + i]
    ensures forall k: nat :: k < |ContPackets(cid, number, rest)| ==>
                               IsPacket(ContPackets(cid, number, rest)[k], cid, cmd, payload, number + 1 + k)
    decreases |rest|
  {
    if rest != [] {
      var ps, later := ContPackets(cid, number, rest), Drop(rest, CONT_PAYLOAD);
      ContPacketBytes(cid, cmd, payload, number, rest);
      ContPacketsBytes(cid, cmd, payload, number + 1, later);
      forall k: nat | k < |ps| ensures IsPacket(ps[k], cid, cmd, payload, number + 1 + k) {
        if k > 0 { assert ps[k] == ContPackets(cid, number + 1, later)[k - 1]; }
      }
    }
  }

  /** Every packet of a message: the channel, the tagged command and length or the number, 57 or 59 bytes, zeros. */
  lemma {:induction false} PacketsExact(cid: nat, cmd: byte, payload: seq<byte>)
    requires cid < U32 && |payload| <= MAX_MESSAGE_SIZE
    ensures forall k: nat :: k < |Packets(cid, cmd, payload)| ==>
                               IsPacket(Packets(cid, cmd, payload)[k], cid, cmd, payload, k)
  {
    var ps := Packets(cid, cmd, payload);
    InitPacketBytes(cid, cmd, payload);
    ContPacketsBytes(cid, cmd, payload, 0, Drop(payload, INIT_PAYLOAD));
    forall k: nat | k < |ps| ensures IsPacket(ps[k], cid, cmd, payload, k) {
      if k > 0 { assert ps[k] == ContPackets(cid, 0, Drop(payload, INIT_PAYLOAD))[k - 1]; }
    }
  }

  // ---- what a report read means

  ghost predicate Unmoved(a: Asm, s: Stepped) {
    s.asm == a && s.surfaced == []
  }

  /** A report on the assembler's own channel that begins a message, by its tag and length. */
  ghost predicate InitMeans(a: Asm, awaited: byte, r: Report, s: Stepped)
    requires |r| == 64
  {
    var cmd, len := r[4] % 0x80, r[5] as int * 0x100 + r[6];
    if cmd == 0x3B then
      && s.asm == a
      && if len == 1 then s.surfaced == [r[7]] && s.result == Ok(Continue)
         else s.surfaced == [] && s.result == Err(UnexpectedBcnt(0x3B, if len <= 57 then len else 57))
    else if cmd == 0x3F then
      && Unmoved(a, s)
      && if len != 1 then s.result == Err(UnexpectedBcnt(0x3F, if len <= 57 then len else 57))
         else if r[7] == 0x06 then s.result == Ok(Busy)
         else s.result == Ok(Resolved(DeviceError(r[7])))
    else if cmd != awaited then Unmoved(a, s) && s.result == Err(UnexpectedCommand(cmd, awaited))
    else if len > 7609 then Unmoved(a, s) && s.result == Err(LengthBeyondMaximum(len))
    else if len <= 57 then
      && s.surfaced == [] && !s.asm.active && s.asm.cid == a.cid
      && s.result == Ok(Resolved(Done(FrameOf(awaited, r[7..7 + len]))))
    else s.surfaced == [] && s.asm == Asm(a.cid, len, r[7..], 0, true) && s.result == Ok(Continue)
  }

  /** One that continues a message, by its number. */
  ghost predicate ContMeans(a: Asm, awaited: byte, r: Report, s: Stepped)
    requires |r| == 64
  {
    var got := a.payload + r[5..];
    if !a.active then Unmoved(a, s) && s.result == Ok(Continue)
    else if r[4] != a.nextSeq then Unmoved(a, s) && s.result == Err(InvalidSeq(a.cid, r[4], a.nextSeq))
    else
      && s.surfaced == []
      && if |got| > 7609 && |got| > a.bcnt then s.result.Err? && s.result.error.LengthMismatch?
         else if |got| >= a.bcnt then
           !s.asm.active && s.asm.cid == a.cid && s.result == Ok(Resolved(Done(FrameOf(awaited, got[..a.bcnt]))))
         else s.asm == Asm(a.cid, a.bcnt, got, (a.nextSeq + 1) % 0x100, true) && s.result == Ok(Continue)
  }

  /** One report, judged by its bytes alone: short, of another channel, beginning or continuing a message. */
  lemma {:induction false} StepByBytes(a: Asm, awaited: byte, r: Report)
    requires a.cid < U32
    ensures var s := StepOn(a, awaited, r);
            if |r| < 64 then Unmoved(a, s) && s.result == Err(ShortReport(|r|))
            else if r[..4] != Four(a.cid) then Unmoved(a, s) && s.result == Ok(Continue)
            else if r[4] >= 0x80 then InitMeans(a, awaited, r, s)
            else ContMeans(a, awaited, r, s)
  {
    if |r| == 64 {
      OwnChannel(a.cid, r[..4]);
      FromBigEndian(r[5..7]);
      if r[..4] == Four(a.cid) {
        if r[4] >= 0x80 { InitByBytes(a, awaited, r); } else { ContByBytes(a, awaited, r); }
      }
    }
  }

  lemma {:induction false} OwnChannel(cid: nat, head: seq<byte>)
    requires cid < U32 && |head| == 4
    ensures FromBE(head) == cid <==> head == Four(cid)
  {
    Pow256Values();
    BigEndian4(cid);
    FromBEToBE(cid, 4);
    ToBEFromBE(head);
  }

  lemma {:induction false} InitByBytes(a: Asm, awaited: byte, r: Report)
    requires |r| == 64 && FromBE(r[..4]) == a.cid && r[4] >= 0x80
    ensures InitMeans(a, awaited, r, StepOn(a, awaited, r))
  {
    var len := r[5] as int * 0x100 + r[6];
    FromBigEndian(r[5..7]);
    if len <= 57 { assert r[7..][..len] == r[7..7 + len]; }
  }

  lemma {:induction false} ContByBytes(a: Asm, awaited: byte, r: Report)
    requires |r| == 64 && FromBE(r[..4]) == a.cid && r[4] < 0x80
    ensures ContMeans(a, awaited, r, StepOn(a, awaited, r))
  {
  }
}
