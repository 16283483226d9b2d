/** The clientPIN request and response (section 6.5.5 of CTAP 2.1) and the key-agreement COSE key. */
module ClientPin {
  import opened Wrappers
  import opened ByteOrder
  import opened Cbor
  import opened CborEncoder
  import opened CborDecoder
  import opened CborTheorems
  import opened Members
  import opened Credentials
  import opened GetAssertion

  const MAX_PIN_BYTES: nat := 63
  const COSE_ALG_PIN_UV: int := -25
  const PERMISSION_GA: nat := 0x02

  datatype SubCommand = GetPinRetries | GetKeyAgreement | GetPinToken | GetPinUvAuthTokenUsingPinWithPermissions {
    function ToU8(): byte {
      match this
      case GetPinRetries => 0x01
      case GetKeyAgreement => 0x02
      case GetPinToken => 0x05
      case GetPinUvAuthTokenUsingPinWithPermissions => 0x09
    }
  }

  datatype PinRequest = PinRequest(
    protocol: Protocol,
    subCommand: SubCommand,
    keyAgreement: Option<Value>,
    pinUvAuthParam: Option<seq<byte>>,
    pinHashEnc: Option<seq<byte>>,
    permissions: Option<nat>,
    rpId: Option<seq<byte>>)

  datatype PinRequestError = EmptyPermissions | PinEncoding(error: EncodeError)

  function PinRequestSlots(r: PinRequest): seq<Slot> {
    [Slot(Int(1), Some(Int(r.protocol.ToU32()))), Slot(Int(2), Some(Int(r.subCommand.ToU8()))),
     Slot(Int(3), r.keyAgreement), Slot(Int(4), BytesSlot(r.pinUvAuthParam)), Slot(Int(6), BytesSlot(r.pinHashEnc)),
     Slot(Int(9), NumberSlot(r.permissions)),
     Slot(Int(10), Mapped(r.rpId, t => Text(t)))]
  }

  /** `ClientPinRequest::encode`. */
  function EncodePinRequest(r: PinRequest): Result<seq<byte>, PinRequestError> {
    if r.permissions == Some(0) then Err(EmptyPermissions)
    else match Encode(Map(Entries(PinRequestSlots(r))))
         case Ok(b) => Ok(b)
         case Err(e) => Err(PinEncoding(e))
  }

  datatype PinResponse = PinResponse(
    keyAgreement: Option<Value>,
    pinUvAuthToken: Option<seq<byte>>,
    pinRetries: Option<nat>,
    uvRetries: Option<nat>)

  const NO_MEMBERS: PinResponse := PinResponse(None, None, None, None)

  function PinResponseSlots(r: PinResponse): seq<Slot> {
    [Slot(Int(1), r.keyAgreement), Slot(Int(2), BytesSlot(r.pinUvAuthToken)), Slot(Int(3), NumberSlot(r.pinRetries)),
     Slot(Int(5), NumberSlot(r.uvRetries))]
  }

  /** `encode_client_pin_response` and the encoding of the result. */
  function PinResponseTo(r: PinResponse): Value {
    Map(Entries(PinResponseSlots(r)))
  }

  /** A counter of one byte. */
  function AsU8(v: Value, of: Value): Result<nat, MemberError> {
    var n :- AsUint(v, of);
    if n > 0xFF then Err(Invalid(of)) else Ok(n)
  }

  function PinResponseCheck(key: Value, v: Value): Option<MemberError> {
    if !key.Int? then None
    else if key.n == 2 then Problem(AsBytes(v, key))
    else if key.n == 3 || key.n == 5 then Problem(AsU8(v, key))
    else None
  }

  /** `ClientPinResponse::from_cbor`. */
  function PinResponseFrom(v: Value): Result<PinResponse, MemberError> {
    if !v.Map? then Err(NotAMap) else
      var m :- Parse(PinResponseCheck, v.entries);
      var keyAgreement :- Optional(m, Int(1), AsAny);
      var token :- Optional(m, Int(2), AsBytes);
      var pinRetries :- Optional(m, Int(3), AsU8);
      var uvRetries :- Optional(m, Int(5), AsU8);
      Ok(PinResponse(keyAgreement, token, pinRetries, uvRetries))
  }

  ghost predicate TypedPinResponse(r: PinResponse) {
    && (r.keyAgreement.Some? ==> Sound(r.keyAgreement.value, 1))
    && (r.pinUvAuthToken.Some? ==> |r.pinUvAuthToken.value| < U64)
    && (r.pinRetries.Some? ==> r.pinRetries.value <= 0xFF) && (r.uvRetries.Some? ==> r.uvRetries.value <= 0xFF)
  }

  lemma {:induction false} PinResponseMembers(r: PinResponse, m: Message)
    requires TypedPinResponse(r) && HoldsSlots(m, PinResponseSlots(r))
    ensures Optional(m, Int(1), AsAny) == Ok(CanonOpt(r.keyAgreement))
            && Optional(m, Int(2), AsBytes) == Ok(r.pinUvAuthToken)
    ensures Optional(m, Int(3), AsU8) == Ok(r.pinRetries) && Optional(m, Int(5), AsU8) == Ok(r.uvRetries)
  {
    var slots := PinResponseSlots(r);
    OptionalBack(m, slots, 0, AsAny, CanonOpt(r.keyAgreement));
    OptionalBack(m, slots, 1, AsBytes, r.pinUvAuthToken);
    OptionalBack(m, slots, 2, AsU8, r.pinRetries);
    OptionalBack(m, slots, 3, AsU8, r.uvRetries);
  }

  lemma {:induction false} PinResponseReady(r: PinResponse)
    requires TypedPinResponse(r)
    ensures SimpleSlots(PinResponseSlots(r)) && Acceptable(PinResponseCheck, PinResponseSlots(r))
  {
  }

  lemma {:induction false} PinResponseSound(r: PinResponse)
    requires TypedPinResponse(r) && SimpleSlots(PinResponseSlots(r))
    ensures Sound(PinResponseTo(r), 0)
  {
    SimpleSlotsSound(PinResponseSlots(r), 0);
  }

  /** A clientPIN response comes back through the wire with its key agreement canonicalised. */
  lemma {:induction false} PinResponseRoundTrip(r: PinResponse)
    requires TypedPinResponse(r) && |Enc(PinResponseTo(r))| < U64
    ensures Encode(PinResponseTo(r)).Ok?
    ensures forall p: Policy :: var d := Decode(Encode(PinResponseTo(r)).value, p);
                                && d.Ok? && d.value.Map?
                                && PinResponseFrom(d.value) == Ok(r.(keyAgreement := CanonOpt(r.keyAgreement)))
  {
    var v := PinResponseTo(r);
    PinResponseReady(r);
    PinResponseSound(r);
    EncodeCharacterised(v);
    SimpleDistinct(PinResponseSlots(r));
    CanonReads(PinResponseCheck, PinResponseSlots(r));
    PinResponseMembers(r, Parse(PinResponseCheck, Canon(v).entries).value);
    forall p: Policy ensures Decode(Encode(v).value, p) == Ok(Canon(v)) { RoundTrip(v, p); }
  }

  lemma {:induction false} PinResponseOrderIgnored(es: seq<Entry>, fs: seq<Entry>)
    requires multiset(es) == multiset(fs) && DistinctValues(es) && DistinctValues(fs)
    ensures PinResponseFrom(Map(es)).Ok? || PinResponseFrom(Map(fs)).Ok? ==>
              PinResponseFrom(Map(es)) == PinResponseFrom(Map(fs))
  {
    OrderIgnored(PinResponseCheck, es, fs);
  }

  // ---- the key-agreement key

  function CoseSlots(x: seq<byte>, y: seq<byte>): seq<Slot> {
    [Slot(Int(1), Some(Int(2))), Slot(Int(3), Some(Int(COSE_ALG_PIN_UV))), Slot(Int(-1), Some(Int(1))),
     Slot(Int(-2), Some(Bytes(x))), Slot(Int(-3), Some(Bytes(y)))]
  }

  /** `cose_key`, on either side. */
  function CoseKey(x: seq<byte>, y: seq<byte>): Value {
    Map(Entries(CoseSlots(x, y)))
  }

  /** Members that are of another type count as absent, and any key may occur. */
  function AnyMember(key: Value, v: Value): Option<MemberError> {
    None
  }

  function BytesOf(v: Option<Value>): Option<seq<byte>> {
    if v.Some? && v.value.Bytes? then Some(v.value.bytes) else None
  }

  /** `parse_peer_p256_key`, up to the curve check: kty EC2, alg -25 if given, crv P-256, 32-byte coordinates. */
  function PeerPoint(v: Value): Option<(seq<byte>, seq<byte>)> {
    if !v.Map? then None else
      match Parse(AnyMember, v.entries)
      case Err(_) => None
      case Ok(m) =>
        var x, y := BytesOf(Get(m, Int(-2))), BytesOf(Get(m, Int(-3)));
        if Get(m, Int(1)) != Some(Int(2)) then None
        else if Get(m, Int(3)).Some? && Get(m, Int(3)).value.Int? && Get(m, Int(3)) != Some(Int(COSE_ALG_PIN_UV))
          then None
        else if Get(m, Int(-1)) != Some(Int(1)) then None
        else if x.None? || y.None? || |x.value| != 32 || |y.value| != 32 then None
        else Some((x.value, y.value))
  }

  /** The last byte string under key `number`, on the authenticator's side. */
  function LastBytes(entries: seq<Entry>, number: int): Option<seq<byte>> {
    if entries == [] then None else
      var rest := LastBytes(entries[1..], number);
      if rest.Some? then rest
      else if entries[0].key == Int(number) && entries[0].val.Bytes? then Some(entries[0].val.bytes)
      else None
  }

  /** The part of `decapsulate` before the curve check. */
  function PlatformPoint(v: Value): Option<(seq<byte>, seq<byte>)> {
    if !v.Map? then None else
      var x, y := LastBytes(v.entries, -2), LastBytes(v.entries, -3);
      if x.None? || y.None? || |x.value| != 32 || |y.value| != 32 then None else Some((x.value, y.value))
  }

  lemma {:induction false} CoseKeyEntries(x: seq<byte>, y: seq<byte>)
    ensures Entries(CoseSlots(x, y))
         == [Entry(Int(1), Int(2)), Entry(Int(3), Int(COSE_ALG_PIN_UV)), Entry(Int(-1), Int(1)),
                                         Entry(Int(-2), Bytes(x)), Entry(Int(-3), Bytes(y))]
  {
    var s := CoseSlots(x, y);
    assert s[4..][1..] == [] && Entries(s[4..]) == [Entry(Int(-3), Bytes(y))];
    assert s[3..][1..] == s[4..] && Entries(s[3..]) == [Entry(Int(-2), Bytes(x))] + Entries(s[4..]);
    assert s[2..][1..] == s[3..] && Entries(s[2..]) == [Entry(Int(-1), Int(1))] + Entries(s[3..]);
    assert s[1..][1..] == s[2..] && Entries(s[1..]) == [Entry(Int(3), Int(COSE_ALG_PIN_UV))] + Entries(s[2..]);
    assert Entries(s) == [Entry(Int(1), Int(2))] + Entries(s[1..]);
  }

  /** Each side reads back the point the other side printed, the platform through the wire. */
  lemma {:induction false} CoseKeyRead(x: seq<byte>, y: seq<byte>)
    requires |x| == 32 && |y| == 32
    ensures PeerPoint(Canon(CoseKey(x, y))) == Some((x, y))
    ensures PlatformPoint(CoseKey(x, y)) == Some((x, y))
    ensures Sound(CoseKey(x, y), 1)
  {
    CosePeer(x, y);
    CosePlatform(x, y);
    CoseSound(x, y);
  }

  lemma {:induction false} CoseSound(x: seq<byte>, y: seq<byte>)
    requires |x| == 32 && |y| == 32
    ensures Sound(CoseKey(x, y), 1)
  {
    CoseSimple(x, y);
    SimpleSlotsSound(CoseSlots(x, y), 1);
  }

  lemma {:induction false} CoseSimple(x: seq<byte>, y: seq<byte>)
    ensures SimpleSlots(CoseSlots(x, y)) && Acceptable(AnyMember, CoseSlots(x, y))
  {
  }

  lemma {:induction false} CosePeer(x: seq<byte>, y: seq<byte>)
    requires |x| == 32 && |y| == 32
    ensures PeerPoint(Canon(CoseKey(x, y))) == Some((x, y))
  {
    var slots := CoseSlots(x, y);
    CoseSimple(x, y);
    SimpleDistinct(slots);
    CanonReads(AnyMember, slots);
    CoseMembers(x, y, Parse(AnyMember, Canon(CoseKey(x, y)).entries).value);
  }

  lemma {:induction false} CoseMembers(x: seq<byte>, y: seq<byte>, m: Message)
    requires HoldsSlots(m, CoseSlots(x, y))
    ensures Get(m, Int(1)) == Some(Int(2)) && Get(m, Int(3)) == Some(Int(COSE_ALG_PIN_UV))
            && Get(m, Int(-1)) == Some(Int(1))
    ensures Get(m, Int(-2)) == Some(Bytes(x)) && Get(m, Int(-3)) == Some(Bytes(y))
  {
    var s := CoseSlots(x, y);
    assert Get(m, s[0].key) == CanonOpt(s[0].val) && Get(m, s[1].key) == CanonOpt(s[1].val);
    assert Get(m, s[2].key) == CanonOpt(s[2].val) && Get(m, s[3].key) == CanonOpt(s[3].val);
    assert Get(m, s[4].key) == CanonOpt(s[4].val);
  }

  lemma {:induction false} CosePlatform(x: seq<byte>, y: seq<byte>)
    requires |x| == 32 && |y| == 32
    ensures PlatformPoint(CoseKey(x, y)) == Some((x, y))
  {
    CoseKeyEntries(x, y);
    var e := Entries(CoseSlots(x, y));
    assert e[4..][1..] == [] && LastBytes(e[4..], -2) == None && LastBytes(e[4..], -3) == Some(y);
    assert e[3..][1..] == e[4..] && LastBytes(e[3..], -2) == Some(x) && LastBytes(e[3..], -3) == Some(y);
    assert e[2..][1..] == e[3..] && e[1..][1..] == e[2..];
    assert LastBytes(e[2..], -2) == Some(x) && LastBytes(e[2..], -3) == Some(y);
    assert LastBytes(e[1..], -2) == Some(x) && LastBytes(e[1..], -3) == Some(y);
    assert LastBytes(e, -2) == Some(x) && LastBytes(e, -3) == Some(y);
  }
}
