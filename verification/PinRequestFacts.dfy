/** The clientPIN request on the wire: which members it has, what each holds, and that it can be read back. */
module PinRequestFacts {
  import opened Wrappers
  import opened ByteOrder
  import opened KeyOrder
  import opened Cbor
  import opened CborDecoder
  import opened CborTheorems
  import opened Members
  import opened Credentials
  import opened GetAssertion
  import opened ClientPin

  // ---- what the source's types guarantee

  ghost predicate TypedPinRequest(r: PinRequest) {
    && r.protocol.ToU32() < U32
    && (r.keyAgreement.Some? ==> Sound(r.keyAgreement.value, 1))
    && (r.pinUvAuthParam.Some? ==> |r.pinUvAuthParam.value| < U64)
    && (r.pinHashEnc.Some? ==> |r.pinHashEnc.value| < U64)
    && (r.permissions.Some? ==> r.permissions.value < U32)
    && (r.rpId.Some? ==> Typed(Text(r.rpId.value)))
  }

  /** The request as it can be told from its bytes: the key canonicalised, the protocol by its number. */
  function NormalPinRequest(r: PinRequest): PinRequest {
    r.(protocol := ProtocolOf(r.protocol.ToU32()), keyAgreement := CanonOpt(r.keyAgreement))
  }

  // ---- the members, one by one

  function AsInt(n: Option<nat>): Option<Value> {
    if n.Some? then Some(Int(n.value)) else None
  }

  function AsByteString(b: Option<seq<byte>>): Option<Value> {
    if b.Some? then Some(Bytes(b.value)) else None
  }

  function AsTextString(t: Option<seq<byte>>): Option<Value> {
    if t.Some? then Some(Text(t.value)) else None
  }

  const PIN_REQUEST_KEYS: set<Value> := {Int(0x01), Int(0x02), Int(0x03), Int(0x04), Int(0x06), Int(0x09), Int(0x0A)}

  /** The request map of section 6.5.5: these seven members, and none besides. */
  ghost predicate PinRequestOnWire(entries: seq<Entry>, r: PinRequest) {
    && Carries(entries, Int(0x01), Some(Int(match r.protocol case One => 1 case Two => 2 case Other(n) => n)))
    && Carries(entries, Int(0x02), Some(Int(match r.subCommand
                                       case GetPinRetries => 0x01
                                       case GetKeyAgreement => 0x02
                                       case GetPinToken => 0x05
                                       case GetPinUvAuthTokenUsingPinWithPermissions => 0x09)))
    && Carries(entries, Int(0x03), if r.keyAgreement.Some? then Some(Canon(r.keyAgreement.value)) else None)
    && Carries(entries, Int(0x04), AsByteString(r.pinUvAuthParam))
    && Carries(entries, Int(0x06), AsByteString(r.pinHashEnc))
    && Carries(entries, Int(0x09), AsInt(r.permissions))
    && Carries(entries, Int(0x0A), AsTextString(r.rpId))
    && OnlyKeys(entries, PIN_REQUEST_KEYS)
  }

  lemma {:induction false} PinRequestSimple(r: PinRequest)
    ensures SimpleSlots(PinRequestSlots(r))
  {
  }

  lemma {:induction false} SlotsNamed(entries: seq<Entry>, r: PinRequest)
    requires CarriesSlots(entries, PinRequestSlots(r))
    ensures Carries(entries, Int(1), Some(Int(r.protocol.ToU32())))
            && Carries(entries, Int(2), Some(Int(r.subCommand.ToU8())))
    ensures Carries(entries, Int(3), CanonOpt(r.keyAgreement))
            && Carries(entries, Int(4), AsByteString(r.pinUvAuthParam))
    ensures Carries(entries, Int(6), AsByteString(r.pinHashEnc)) && Carries(entries, Int(9), AsInt(r.permissions))
    ensures Carries(entries, Int(10), AsTextString(r.rpId))
  {
    var s := PinRequestSlots(r);
    assert Carries(entries, s[0].key, CanonOpt(s[0].val)) && Carries(entries, s[1].key, CanonOpt(s[1].val));
    assert Carries(entries, s[2].key, CanonOpt(s[2].val)) && Carries(entries, s[3].key, CanonOpt(s[3].val));
    assert Carries(entries, s[4].key, CanonOpt(s[4].val)) && Carries(entries, s[5].key, CanonOpt(s[5].val));
    assert Carries(entries, s[6].key, CanonOpt(s[6].val));
  }

  lemma {:induction false} KeysNamed(entries: seq<Entry>, r: PinRequest)
    requires CarriesSlots(entries, PinRequestSlots(r))
    ensures OnlyKeys(entries, PIN_REQUEST_KEYS)
  {
    forall j | 0 <= j < 7 ensures PinRequestSlots(r)[j].key in PIN_REQUEST_KEYS {}
  }

  lemma {:induction false} SlotsOnWire(r: PinRequest)
    ensures PinRequestOnWire(Canon(Map(Entries(PinRequestSlots(r)))).entries, r)
  {
    var slots := PinRequestSlots(r);
    PinRequestSimple(r);
    SlotsCarried(slots);
    SlotsNamed(Canon(Map(Entries(slots))).entries, r);
    KeysNamed(Canon(Map(Entries(slots))).entries, r);
  }

  lemma {:induction false} PinRequestSound(r: PinRequest)
    requires TypedPinRequest(r)
    ensures Sound(Map(Entries(PinRequestSlots(r))), 0)
  {
    PinRequestSimple(r);
    SimpleSlotsSound(PinRequestSlots(r), 0);
  }

  /**
   Every clientPIN request but one with permissions of zero encodes, and strictly decoded its bytes
   are a map of exactly the members it has.
   */
  lemma {:induction false} PinRequestExact(r: PinRequest)
    requires TypedPinRequest(r)
    ensures EncodePinRequest(r).Err? <==> r.permissions == Some(0)
    ensures EncodePinRequest(r).Err? ==> EncodePinRequest(r).error == EmptyPermissions
    ensures EncodePinRequest(r).Ok? && |EncodePinRequest(r).value| < U64 ==>
              var d := Decode(EncodePinRequest(r).value, Strict);
              d.Ok? && d.value.Map? && PinRequestOnWire(d.value.entries, r)
  {
    var v := Map(Entries(PinRequestSlots(r)));
    PinRequestSound(r);
    EncodeCharacterised(v);
    if EncodePinRequest(r).Ok? && |EncodePinRequest(r).value| < U64 {
      RoundTrip(v, Strict);
      SlotsOnWire(r);
    }
  }

  // ---- reading one

  function SubCommandOf(n: nat): Option<SubCommand> {
    match n
    case 0x01 => Some(GetPinRetries)
    case 0x02 => Some(GetKeyAgreement)
    case 0x05 => Some(GetPinToken)
    case 0x09 => Some(GetPinUvAuthTokenUsingPinWithPermissions)
    case _ => None
  }

  function AsSubCommand(v: Value, of: Value): Result<SubCommand, MemberError> {
    var n :- AsUint(v, of);
    if SubCommandOf(n).Some? then Ok(SubCommandOf(n).value) else Err(Invalid(of))
  }

  function AsU32(v: Value, of: Value): Result<nat, MemberError> {
    var n :- AsUint(v, of);
    if n >= U32 then Err(Invalid(of)) else Ok(n)
  }

  /** An authenticator's reading of the request map. */
  function PinRequestFrom(v: Value): Result<PinRequest, MemberError> {
    if !v.Map? then Err(NotAMap) else
      var m :- Parse(AnyMember, v.entries);
      PinRequestIn(m)
  }

  function PinRequestIn(m: Message): Result<PinRequest, MemberError> {
    var protocol :- Required(m, Int(0x01), AsProtocol);
    var subCommand :- Required(m, Int(0x02), AsSubCommand);
    var keyAgreement :- Optional(m, Int(0x03), AsAny);
    var pinUvAuthParam :- Optional(m, Int(0x04), AsBytes);
    var pinHashEnc :- Optional(m, Int(0x06), AsBytes);
    var permissions :- Optional(m, Int(0x09), AsU32);
    var rpId :- Optional(m, Int(0x0A), AsText);
    Ok(PinRequest(protocol, subCommand, keyAgreement, pinUvAuthParam, pinHashEnc, permissions, rpId))
  }

  /** The request an authenticator finds in bytes, if there is one. */
  function ReadPinRequest(b: seq<byte>): Option<PinRequest> {
    var v := DecodeMap(b, Strict);
    if v.Err? then None else
      var r := PinRequestFrom(v.value);
      if r.Ok? then Some(r.value) else None
  }

  /** What arrives of a request that is sent. */
  function Received(r: PinRequest): Option<PinRequest> {
    match EncodePinRequest(r)
    case Ok(b) => ReadPinRequest(b)
    case Err(_) => None
  }

  lemma {:induction false} MemberThere(entries: seq<Entry>, m: Message, key: Value, v: Option<Value>)
    requires HoldsEntries(m, map[], entries) && Carries(entries, key, v)
    ensures Get(m, key) == v
  {
    if v.Some? {
      var i :| 0 <= i < |entries| && entries[i] == Entry(key, v.value);
      assert Get(m, entries[i].key) == v;
    } else {
      assert forall i :: 0 <= i < |entries| ==> entries[i].key != key;
      assert Get(m, key) == Get(map[], key);
    }
  }

  lemma {:induction false} MembersThere(entries: seq<Entry>, m: Message, r: PinRequest)
    requires HoldsEntries(m, map[], entries) && PinRequestOnWire(entries, r)
    ensures Get(m, Int(1)) == Some(Int(r.protocol.ToU32())) && Get(m, Int(2)) == Some(Int(r.subCommand.ToU8()))
    ensures Get(m, Int(3)) == CanonOpt(r.keyAgreement) && Get(m, Int(4)) == AsByteString(r.pinUvAuthParam)
    ensures Get(m, Int(6)) == AsByteString(r.pinHashEnc) && Get(m, Int(9)) == AsInt(r.permissions)
    ensures Get(m, Int(10)) == AsTextString(r.rpId)
  {
    MemberThere(entries, m, Int(0x01), Some(Int(r.protocol.ToU32())));
    MemberThere(entries, m, Int(0x02), Some(Int(r.subCommand.ToU8())));
    MemberThere(entries, m, Int(0x03), CanonOpt(r.keyAgreement));
    MemberThere(entries, m, Int(0x04), AsByteString(r.pinUvAuthParam));
    MemberThere(entries, m, Int(0x06), AsByteString(r.pinHashEnc));
    MemberThere(entries, m, Int(0x09), AsInt(r.permissions));
    MemberThere(entries, m, Int(0x0A), AsTextString(r.rpId));
  }

  lemma {:induction false} FieldsRead(m: Message, r: PinRequest)
    requires TypedPinRequest(r)
    requires Get(m, Int(1)) == Some(Int(r.protocol.ToU32())) && Get(m, Int(2)) == Some(Int(r.subCommand.ToU8()))
    requires Get(m, Int(3)) == CanonOpt(r.keyAgreement) && Get(m, Int(4)) == AsByteString(r.pinUvAuthParam)
    requires Get(m, Int(6)) == AsByteString(r.pinHashEnc) && Get(m, Int(9)) == AsInt(r.permissions)
    requires Get(m, Int(10)) == AsTextString(r.rpId)
    ensures PinRequestIn(m) == Ok(NormalPinRequest(r))
  {
    assert Required(m, Int(0x01), AsProtocol) == Ok(ProtocolOf(r.protocol.ToU32()));
    assert Required(m, Int(0x02), AsSubCommand) == Ok(r.subCommand);
    assert Optional(m, Int(0x03), AsAny) == Ok(CanonOpt(r.keyAgreement));
    assert Optional(m, Int(0x04), AsBytes) == Ok(r.pinUvAuthParam);
    assert Optional(m, Int(0x06), AsBytes) == Ok(r.pinHashEnc);
    assert Optional(m, Int(0x09), AsU32) == Ok(r.permissions);
    assert Optional(m, Int(0x0A), AsText) == Ok(r.rpId);
  }

  lemma {:induction false} OnWireRead(entries: seq<Entry>, r: PinRequest)
    requires TypedPinRequest(r) && DistinctValues(entries) && PinRequestOnWire(entries, r)
    ensures PinRequestFrom(Map(entries)) == Ok(NormalPinRequest(r))
  {
    ParseHolds(AnyMember, map[], entries);
    var m := Parse(AnyMember, entries).value;
    MembersThere(entries, m, r);
    FieldsRead(m, r);
  }

  /** What is sent is what is read. */
  lemma {:induction false} PinRequestRoundTrip(r: PinRequest)
    requires TypedPinRequest(r) && EncodePinRequest(r).Ok? && |EncodePinRequest(r).value| < U64
    ensures ReadPinRequest(EncodePinRequest(r).value) == Some(NormalPinRequest(r))
  {
    var slots := PinRequestSlots(r);
    PinRequestExact(r);
    PinRequestSound(r);
    EncodeCharacterised(Map(Entries(slots)));
    RoundTrip(Map(Entries(slots)), Strict);
    PinRequestSimple(r);
    SimpleDistinct(slots);
    CanonKeysDistinct(slots);
    OnWireRead(Canon(Map(Entries(slots))).entries, r);
  }

  /** Two requests with the same bytes agree in every field, keys up to their canonical form. */
  lemma {:induction false} PinRequestInjective(q: PinRequest, r: PinRequest)
    requires TypedPinRequest(q) && TypedPinRequest(r)
    requires EncodePinRequest(q).Ok? && EncodePinRequest(q) == EncodePinRequest(r) && |EncodePinRequest(q).value| < U64
    ensures NormalPinRequest(q) == NormalPinRequest(r)
  {
    PinRequestRoundTrip(q);
    PinRequestRoundTrip(r);
  }

  // ---- the platform's key is in canonical form

  lemma {:induction false} SortedKept(es: seq<Entry>)
    requires forall i :: 0 <= i < |es| ==> Canon(es[i].key) == es[i].key && Canon(es[i].val) == es[i].val
    requires forall i, j :: 0 <= i < j < |es| ==> !KeyLess(Enc(es[j].key), Enc(es[i].key))
    ensures Canon(Map(es)) == Map(es)
  {
    var keyed := CanonEntries(es);
    CanonEntriesAt(es);
    SortOrderedIsIdentity(keyed);
    assert Carried(keyed) == es;
  }

  lemma {:induction false} CoseKeyBytes(x: seq<byte>, y: seq<byte>, i: nat)
    requires i < 5
    ensures |Entries(CoseSlots(x, y))| == 5
    ensures var e := Entries(CoseSlots(x, y))[i];
            && Enc(e.key) == [[1, 3, 0x20, 0x21, 0x22][i]] && Canon(e.key) == e.key && Canon(e.val) == e.val
  {
    CoseKeyEntries(x, y);
    SmallKey(Entries(CoseSlots(x, y))[i].key.n);
  }

  lemma {:induction false} CoseKeyCanonical(x: seq<byte>, y: seq<byte>)
    ensures Canon(CoseKey(x, y)) == CoseKey(x, y)
  {
    var es := Entries(CoseSlots(x, y));
    CoseKeyBytes(x, y, 0);
    forall i | 0 <= i < 5 ensures Canon(es[i].key) == es[i].key && Canon(es[i].val) == es[i].val {
      CoseKeyBytes(x, y, i);
    }
    forall i, j | 0 <= i < j < 5 ensures !KeyLess(Enc(es[j].key), Enc(es[i].key)) {
      CoseKeyBytes(x, y, i);
      CoseKeyBytes(x, y, j);
    }
    SortedKept(es);
  }
}
