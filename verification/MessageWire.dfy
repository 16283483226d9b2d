/**
 The getAssertion, getInfo and clientPIN messages as their bytes have them (sections 6.1 to 6.5 of CTAP 2.1):
 which key each member is under, what it holds, and that there is nothing else.
 */
module MessageWire {
  import opened Wrappers
  import opened ByteOrder
  import opened Utf8
  import opened Cbor
  import opened CborDecoder
  import opened CborTheorems
  import opened Members
  import opened Credentials
  import opened GetAssertion
  import opened GetAssertionFacts
  import opened GetInfo
  import opened GetInfoFacts
  import opened ClientPin

  // ---- looking a member up

  /** The value under a key. */
  function ValueUnder(entries: seq<Entry>, key: Value): Option<Value> {
    if entries == [] then None
    else if entries[0].key == key then Some(entries[0].val)
    else ValueUnder(entries[1..], key)
  }

  lemma {:induction false} CarriedUnder(entries: seq<Entry>, key: Value, v: Option<Value>)
    requires Carries(entries, key, v)
    ensures ValueUnder(entries, key) == v
  {
    if entries != [] && entries[0].key != key {
      var rest := entries[1..];
      if v.Some? {
        var i :| 0 <= i < |entries| && entries[i] == Entry(key, v.value);
        assert rest[i - 1] == Entry(key, v.value);
      }
      assert Carries(rest, key, v);
      CarriedUnder(rest, key, v);
    }
  }

  /** What a slot prints is found under its key. */
  lemma {:induction false} SlotUnder(slots: seq<Slot>, j: nat)
    requires SimpleSlots(slots) && j < |slots|
    ensures ValueUnder(Canon(Map(Entries(slots))).entries, slots[j].key) == CanonOpt(slots[j].val)
  {
    SlotCarried(slots, j);
    CarriedUnder(Canon(Map(Entries(slots))).entries, slots[j].key, CanonOpt(slots[j].val));
  }

  /** Every slot's value, or none, is what is found under its key. */
  ghost predicate Under(es: seq<Entry>, slots: seq<Slot>) {
    forall j :: 0 <= j < |slots| ==> ValueUnder(es, slots[j].key) == CanonOpt(slots[j].val)
  }

  lemma {:induction false} AllUnder(slots: seq<Slot>)
    requires SimpleSlots(slots)
    ensures Under(Canon(Map(Entries(slots))).entries, slots)
  {
    forall j | 0 <= j < |slots|
      ensures ValueUnder(Canon(Map(Entries(slots))).entries, slots[j].key) == CanonOpt(slots[j].val)
    {
      SlotUnder(slots, j);
    }
  }

  lemma {:induction false} KeysWithin(slots: seq<Slot>, keys: set<Value>)
    requires SimpleSlots(slots) && forall j :: 0 <= j < |slots| ==> slots[j].key in keys
    ensures OnlyKeys(Canon(Map(Entries(slots))).entries, keys)
  {
    SlotsCarried(slots);
  }

  /** An ASCII text. */
  function Word(s: string): Value
    requires forall i :: 0 <= i < |s| ==> s[i] as int <= 0x7F
  {
    Text(Ascii(s))
  }

  const ONE_TO_SEVEN: set<Value> := {Int(1), Int(2), Int(3), Int(4), Int(5), Int(6), Int(7)}
  const PIN_RESPONSE_KEYS: set<Value> := {Int(1), Int(2), Int(3), Int(5)}

  lemma {:induction false} TypeNames()
    ensures TYPE == Word("type") && PUBLIC_KEY == Word("public-key") && ALG == Word("alg")
  {
    assert PUBLIC_KEY.utf8 == Ascii("public-key");
  }

  lemma {:induction false} EntityNames()
    ensures ID == Word("id") && TRANSPORTS == Word("transports")
    ensures NAME == Word("name") && DISPLAY_NAME == Word("displayName")
  {
    assert TRANSPORTS.utf8 == Ascii("transports");
    assert DISPLAY_NAME.utf8 == Ascii("displayName");
  }

  lemma {:induction false} OptionNames()
    ensures UP == Word("up") && UV == Word("uv")
  {
  }

  // ---- members of their own shape

  ghost predicate DescriptorOnWire(v: Value, d: Descriptor) {
    && v.Map? && OnlyKeys(v.entries, {Word("type"), Word("id"), Word("transports")})
    && ValueUnder(v.entries, Word("type")) == Some(Word("public-key"))
    && ValueUnder(v.entries, Word("id")) == Some(Bytes(d.id))
    && TextsOnWire(ValueUnder(v.entries, Word("transports")), d.transports)
  }

  ghost predicate TextsOnWire(v: Option<Value>, ts: Option<seq<seq<byte>>>) {
    match ts
    case None => v.None?
    case Some(list) => v.Some? && v.value.Array? && |v.value.items| == |list|
                       && forall i :: 0 <= i < |list| ==> v.value.items[i] == Text(list[i])
  }

  ghost predicate UserOnWire(v: Value, u: User) {
    && v.Map? && OnlyKeys(v.entries, {Word("id"), Word("name"), Word("displayName")})
    && ValueUnder(v.entries, Word("id")) == Some(Bytes(u.id))
    && ValueUnder(v.entries, Word("name")) == (if u.name.Some? then Some(Text(u.name.value)) else None)
    && ValueUnder(v.entries, Word("displayName")) == if u.displayName.Some? then Some(Text(u.displayName.value))
                                                     else None
  }

  ghost predicate OptionsOnWire(v: Value, o: Options) {
    && v.Map? && OnlyKeys(v.entries, {Word("up"), Word("uv")})
    && ValueUnder(v.entries, Word("up")) == (if o.up.Some? then Some(Bool(o.up.value)) else None)
    && ValueUnder(v.entries, Word("uv")) == if o.uv.Some? then Some(Bool(o.uv.value)) else None
  }

  lemma {:induction false} DescriptorWired(d: Descriptor)
    ensures DescriptorOnWire(Canon(DescriptorTo(d)), d)
  {
    var slots := DescriptorSlots(d);
    TypeNames();
    EntityNames();
    DescriptorSimple(d);
    SlotUnder(slots, 0);
    SlotUnder(slots, 1);
    SlotUnder(slots, 2);
    KeysWithin(slots, {Word("type"), Word("id"), Word("transports")});
  }

  lemma {:induction false} UserWired(u: User)
    ensures UserOnWire(Canon(UserTo(u)), u)
  {
    var slots := UserSlots(u);
    EntityNames();
    UserSimple(u);
    SlotUnder(slots, 0);
    SlotUnder(slots, 1);
    SlotUnder(slots, 2);
    KeysWithin(slots, {Word("id"), Word("name"), Word("displayName")});
  }

  lemma {:induction false} OptionsWired(o: Options)
    ensures OptionsOnWire(Canon(OptionsTo(o)), o)
  {
    var slots := OptionsSlots(o);
    OptionNames();
    OptionsSimple(o);
    SlotUnder(slots, 0);
    SlotUnder(slots, 1);
    KeysWithin(slots, {Word("up"), Word("uv")});
  }

  // ---- the getAssertion request

  ghost predicate AllowListOnWire(v: Option<Value>, list: Option<seq<Descriptor>>) {
    match list
    case None => v.None?
    case Some(ds) => v.Some? && v.value.Array? && |v.value.items| == |ds|
                     && forall i :: 0 <= i < |ds| ==> DescriptorOnWire(v.value.items[i], ds[i])
  }

  ghost predicate RequestOnWire(es: seq<Entry>, r: Request) {
    && OnlyKeys(es, ONE_TO_SEVEN)
    && ValueUnder(es, Int(0x01)) == Some(Text(r.rpId))
    && ValueUnder(es, Int(0x02)) == Some(Bytes(r.clientDataHash))
    && AllowListOnWire(ValueUnder(es, Int(0x03)), r.allowList)
    && ValueUnder(es, Int(0x04)) == CanonOpt(r.extensions)
    && (match r.options
        case None => ValueUnder(es, Int(0x05)).None?
        case Some(o) => ValueUnder(es, Int(0x05)).Some? && OptionsOnWire(ValueUnder(es, Int(0x05)).value, o))
    && ValueUnder(es, Int(0x06)) == (if r.pinUvAuthParam.Some? then Some(Bytes(r.pinUvAuthParam.value)) else None)
    && ValueUnder(es, Int(0x07)) == match r.pinUvAuthProtocol
                                    case None => None
                                    case Some(One) => Some(Int(1))
                                    case Some(Two) => Some(Int(2))
                                    case Some(Other(n)) => Some(Int(n))
  }

  lemma {:induction false} AllowListWired(list: Option<seq<Descriptor>>)
    ensures AllowListOnWire(CanonOpt(AllowSlot(list)), list)
  {
    if list.Some? {
      forall i | 0 <= i < |list.value| { DescriptorWired(list.value[i]); }
    }
  }

  lemma {:induction false} RequestNamed(es: seq<Entry>, r: Request)
    requires Under(es, RequestSlots(r))
    ensures ValueUnder(es, Int(1)) == Some(Text(r.rpId)) && ValueUnder(es, Int(2)) == Some(Bytes(r.clientDataHash))
    ensures ValueUnder(es, Int(3)) == CanonOpt(AllowSlot(r.allowList))
            && ValueUnder(es, Int(4)) == CanonOpt(r.extensions)
    ensures ValueUnder(es, Int(5)) == CanonOpt(OptionsSlot(r.options))
    ensures ValueUnder(es, Int(6)) == BytesSlot(r.pinUvAuthParam)
    ensures ValueUnder(es, Int(7)) == ProtocolSlot(r.pinUvAuthProtocol)
  {
    var s := RequestSlots(r);
    assert ValueUnder(es, s[0].key) == CanonOpt(s[0].val) && ValueUnder(es, s[1].key) == CanonOpt(s[1].val);
    assert ValueUnder(es, s[2].key) == CanonOpt(s[2].val) && ValueUnder(es, s[3].key) == CanonOpt(s[3].val);
    assert ValueUnder(es, s[4].key) == CanonOpt(s[4].val) && ValueUnder(es, s[5].key) == CanonOpt(s[5].val);
    assert ValueUnder(es, s[6].key) == CanonOpt(s[6].val);
  }

  lemma {:induction false} RequestKeys(r: Request)
    ensures forall j :: 0 <= j < |RequestSlots(r)| ==> RequestSlots(r)[j].key in ONE_TO_SEVEN
  {
  }

  lemma {:induction false} RequestWired(r: Request)
    ensures RequestOnWire(Canon(RequestTo(r)).entries, r)
  {
    var es := Canon(RequestTo(r)).entries;
    RequestSimple(r);
    AllUnder(RequestSlots(r));
    RequestKeys(r);
    KeysWithin(RequestSlots(r), ONE_TO_SEVEN);
    RequestNamed(es, r);
    AllowListWired(r.allowList);
    if r.options.Some? { OptionsWired(r.options.value); }
  }

  /** Whatever request encodes, its bytes strictly decode to a map of exactly its members. */
  lemma {:induction false} RequestExact(r: Request)
    requires TypedRequest(r) && EncodeRequest(r).Ok? && |EncodeRequest(r).value| < U64
    ensures var d := Decode(EncodeRequest(r).value, Strict);
            d.Ok? && d.value.Map? && RequestOnWire(d.value.entries, r)
  {
    RequestSound(r);
    EncodeCharacterised(RequestTo(r));
    RoundTrip(RequestTo(r), Strict);
    RequestWired(r);
  }

  // ---- the getAssertion response

  ghost predicate ResponseOnWire(es: seq<Entry>, r: Response) {
    && OnlyKeys(es, ONE_TO_SEVEN)
    && ValueUnder(es, Int(0x01)).Some? && DescriptorOnWire(ValueUnder(es, Int(0x01)).value, r.credential)
    && ValueUnder(es, Int(0x02)) == Some(Bytes(r.authData))
    && ValueUnder(es, Int(0x03)) == Some(Bytes(r.signature))
    && (match r.user
        case None => ValueUnder(es, Int(0x04)).None?
        case Some(u) => ValueUnder(es, Int(0x04)).Some? && UserOnWire(ValueUnder(es, Int(0x04)).value, u))
    && ValueUnder(es, Int(0x05))
 == (if r.numberOfCredentials.Some? then Some(Int(r.numberOfCredentials.value)) else None)
    && ValueUnder(es, Int(0x06)) == (if r.userSelected.Some? then Some(Bool(r.userSelected.value)) else None)
    && ValueUnder(es, Int(0x07)) == if r.largeBlobKey.Some? then Some(Bytes(r.largeBlobKey.value)) else None
  }

  lemma {:induction false} ResponseNamed(es: seq<Entry>, r: Response)
    requires Under(es, ResponseSlots(r))
    ensures ValueUnder(es, Int(1)) == Some(Canon(DescriptorTo(r.credential)))
    ensures ValueUnder(es, Int(2)) == Some(Bytes(r.authData)) && ValueUnder(es, Int(3)) == Some(Bytes(r.signature))
    ensures ValueUnder(es, Int(4)) == CanonOpt(UserSlot(r.user))
            && ValueUnder(es, Int(5)) == NumberSlot(r.numberOfCredentials)
    ensures ValueUnder(es, Int(6)) == BoolSlot(r.userSelected) && ValueUnder(es, Int(7)) == BytesSlot(r.largeBlobKey)
  {
    var s := ResponseSlots(r);
    assert ValueUnder(es, s[0].key) == CanonOpt(s[0].val) && ValueUnder(es, s[1].key) == CanonOpt(s[1].val);
    assert ValueUnder(es, s[2].key) == CanonOpt(s[2].val) && ValueUnder(es, s[3].key) == CanonOpt(s[3].val);
    assert ValueUnder(es, s[4].key) == CanonOpt(s[4].val) && ValueUnder(es, s[5].key) == CanonOpt(s[5].val);
    assert ValueUnder(es, s[6].key) == CanonOpt(s[6].val);
  }

  lemma {:induction false} ResponseKeys(r: Response)
    ensures forall j :: 0 <= j < |ResponseSlots(r)| ==> ResponseSlots(r)[j].key in ONE_TO_SEVEN
  {
  }

  lemma {:induction false} ResponseWired(r: Response)
    ensures ResponseOnWire(Canon(ResponseTo(r)).entries, r)
  {
    var es := Canon(ResponseTo(r)).entries;
    ResponseSimple(r);
    AllUnder(ResponseSlots(r));
    ResponseKeys(r);
    KeysWithin(ResponseSlots(r), ONE_TO_SEVEN);
    ResponseNamed(es, r);
    DescriptorWired(r.credential);
    if r.user.Some? { UserWired(r.user.value); }
  }

  lemma {:induction false} ResponseExact(r: Response)
    requires TypedResponse(r) && EncodeResponse(r).Ok? && |EncodeResponse(r).value| < U64
    ensures var d := Decode(EncodeResponse(r).value, Strict);
            d.Ok? && d.value.Map? && ResponseOnWire(d.value.entries, r)
  {
    ResponseSound(r);
    EncodeCharacterised(ResponseTo(r));
    RoundTrip(ResponseTo(r), Strict);
    ResponseWired(r);
  }

  // ---- the clientPIN response

  ghost predicate PinResponseOnWire(es: seq<Entry>, r: PinResponse) {
    && OnlyKeys(es, PIN_RESPONSE_KEYS)
    && ValueUnder(es, Int(0x01)) == CanonOpt(r.keyAgreement)
    && ValueUnder(es, Int(0x02)) == (if r.pinUvAuthToken.Some? then Some(Bytes(r.pinUvAuthToken.value)) else None)
    && ValueUnder(es, Int(0x03)) == (if r.pinRetries.Some? then Some(Int(r.pinRetries.value)) else None)
    && ValueUnder(es, Int(0x05)) == if r.uvRetries.Some? then Some(Int(r.uvRetries.value)) else None
  }

  lemma {:induction false} PinResponseNamed(es: seq<Entry>, r: PinResponse)
    requires Under(es, PinResponseSlots(r)) && OnlyKeys(es, PIN_RESPONSE_KEYS)
    ensures PinResponseOnWire(es, r)
  {
    var s := PinResponseSlots(r);
    assert ValueUnder(es, s[0].key) == CanonOpt(s[0].val) && ValueUnder(es, s[1].key) == CanonOpt(s[1].val);
    assert ValueUnder(es, s[2].key) == CanonOpt(s[2].val) && ValueUnder(es, s[3].key) == CanonOpt(s[3].val);
  }

  lemma {:induction false} PinResponseKeys(r: PinResponse)
    ensures forall j :: 0 <= j < |PinResponseSlots(r)| ==> PinResponseSlots(r)[j].key in PIN_RESPONSE_KEYS
  {
  }

  lemma {:induction false} PinResponseExact(r: PinResponse)
    requires TypedPinResponse(r) && Encode(PinResponseTo(r)).Ok? && |Encode(PinResponseTo(r)).value| < U64
    ensures var d := Decode(Encode(PinResponseTo(r)).value, Strict);
            d.Ok? && d.value.Map? && PinResponseOnWire(d.value.entries, r)
  {
    PinResponseReady(r);
    PinResponseSound(r);
    RoundTrip(PinResponseTo(r), Strict);
    AllUnder(PinResponseSlots(r));
    PinResponseKeys(r);
    KeysWithin(PinResponseSlots(r), PIN_RESPONSE_KEYS);
    PinResponseNamed(Canon(PinResponseTo(r)).entries, r);
  }

  // ---- the key-agreement key, section 6.5.6

  ghost predicate CoseKeyOnWire(v: Value, x: seq<byte>, y: seq<byte>) {
    && v.Map? && OnlyKeys(v.entries, {Int(1), Int(3), Int(-1), Int(-2), Int(-3)})
    && ValueUnder(v.entries, Int(1)) == Some(Int(2)) && ValueUnder(v.entries, Int(3)) == Some(Int(-25))
    && ValueUnder(v.entries, Int(-1)) == Some(Int(1))
    && ValueUnder(v.entries, Int(-2)) == Some(Bytes(x)) && ValueUnder(v.entries, Int(-3)) == Some(Bytes(y))
  }

  lemma {:induction false} CoseKeyWired(x: seq<byte>, y: seq<byte>)
    ensures CoseKeyOnWire(Canon(CoseKey(x, y)), x, y)
  {
    var slots := CoseSlots(x, y);
    CoseSimple(x, y);
    SlotUnder(slots, 0);
    SlotUnder(slots, 1);
    SlotUnder(slots, 2);
    SlotUnder(slots, 3);
    SlotUnder(slots, 4);
    KeysWithin(slots, {Int(1), Int(3), Int(-1), Int(-2), Int(-3)});
  }

  // ---- the getInfo response

  ghost predicate AlgorithmsOnWire(v: Option<Value>, algs: Option<seq<int>>) {
    match algs
    case None => v.None?
    case Some(list) => v.Some? && v.value.Array? && |v.value.items| == |list|
                       && forall i :: 0 <= i < |list| ==> AlgorithmOnWire(v.value.items[i], list[i])
  }

  ghost predicate AlgorithmOnWire(v: Value, alg: int) {
    && v.Map? && OnlyKeys(v.entries, {Word("type"), Word("alg")})
    && ValueUnder(v.entries, Word("type")) == Some(Word("public-key"))
    && ValueUnder(v.entries, Word("alg")) == Some(Int(alg))
  }

  ghost predicate NumbersOnWire(v: Option<Value>, ns: Option<seq<nat>>) {
    match ns
    case None => v.None?
    case Some(list) => v.Some? && v.value.Array? && |v.value.items| == |list|
                       && forall i :: 0 <= i < |list| ==> v.value.items[i] == Int(list[i])
  }

  /** The twenty-one members; `numbers` holds those that are single unsigned numbers, under their own keys. */
  ghost predicate InfoOnWire(es: seq<Entry>, i: Info) {
    && (forall n :: 0 <= n < |es| ==> es[n].key.Int? && 1 <= es[n].key.n <= 21)
    && TextsOnWire(ValueUnder(es, Int(0x01)), Some(i.versions))
    && TextsOnWire(ValueUnder(es, Int(0x02)), i.extensions)
    && ValueUnder(es, Int(0x03)) == Some(Bytes(i.aaguid))
    && (ValueUnder(es, Int(0x04)).Some? <==> i.options.Some?)
    && (i.options.Some? ==> AsOptionMap(ValueUnder(es, Int(0x04)).value, Int(0x04)) == Ok(i.options.value))
    && NumbersOnWire(ValueUnder(es, Int(0x06)), Selectors(i.protocols))
    && TextsOnWire(ValueUnder(es, Int(0x09)), i.transports)
    && AlgorithmsOnWire(ValueUnder(es, Int(0x0A)), i.algorithms)
    && ValueUnder(es, Int(0x0C)) == (if i.forcePinChange.Some? then Some(Bool(i.forcePinChange.value)) else None)
    && ValueUnder(es, Int(0x13)) == CanonOpt(i.certifications)
    && NumbersOnWire(ValueUnder(es, Int(0x15)), i.vendorCommands)
    && forall k: nat :: k in {5, 7, 8, 11, 13, 14, 15, 16, 17, 18, 20} ==>
                          ValueUnder(es, Int(k)) == if k in i.numbers then Some(Int(i.numbers[k])) else None
  }

  ghost predicate MembersUnder(es: seq<Entry>, i: Info) {
    forall k: nat :: 1 <= k <= 21 ==> ValueUnder(es, Int(k)) == CanonOpt(MemberOf(i, k))
  }

  lemma {:induction false} InfoUnder(i: Info)
    ensures MembersUnder(Canon(InfoTo(i)).entries, i)
  {
    InfoSimple(i);
    forall k: nat | 1 <= k <= 21 ensures ValueUnder(Canon(InfoTo(i)).entries, Int(k)) == CanonOpt(MemberOf(i, k)) {
      SlotUnder(InfoSlots(i), IndexOf(k));
    }
  }

  lemma {:induction false} AlgorithmsWired(algs: seq<int>)
    requires forall i :: 0 <= i < |algs| ==> -I64 <= algs[i] < I64
    ensures AlgorithmsOnWire(CanonOpt(Some(Array(AlgorithmsTo(algs)))), Some(algs))
  {
    forall i | 0 <= i < |algs| ensures AlgorithmOnWire(Canon(AlgorithmsTo(algs)[i]), algs[i]) {
      AlgorithmWired(algs[i]);
    }
  }

  lemma {:induction false} AlgorithmWired(alg: int)
    requires -I64 <= alg < I64
    ensures AlgorithmOnWire(Canon(Map(Entries(AlgorithmSlots(alg)))), alg)
  {
    var slots := AlgorithmSlots(alg);
    TypeNames();
    AlgorithmSimple(alg);
    SlotUnder(slots, 0);
    SlotUnder(slots, 1);
    KeysWithin(slots, {Word("type"), Word("alg")});
  }

  lemma {:induction false} InfoKeys(i: Info)
    ensures forall n :: 0 <= n < |Canon(InfoTo(i)).entries| ==>
                          var key := Canon(InfoTo(i)).entries[n].key;
                          key.Int? && 1 <= key.n <= 21
  {
    InfoSimple(i);
    forall n | 0 <= n < |Canon(InfoTo(i)).entries|
      ensures Canon(InfoTo(i)).entries[n].key.Int? && 1 <= Canon(InfoTo(i)).entries[n].key.n <= 21
    {
      var k := KeyOrigin(InfoSlots(i), n);
    }
  }

  lemma {:induction false} InfoTexts(es: seq<Entry>, i: Info)
    requires MembersUnder(es, i)
    ensures TextsOnWire(ValueUnder(es, Int(1)), Some(i.versions)) && TextsOnWire(ValueUnder(es, Int(2)), i.extensions)
    ensures TextsOnWire(ValueUnder(es, Int(9)), i.transports)
  {
  }

  lemma {:induction false} InfoLists(es: seq<Entry>, i: Info)
    requires MembersUnder(es, i)
    ensures NumbersOnWire(ValueUnder(es, Int(6)), Selectors(i.protocols))
    ensures NumbersOnWire(ValueUnder(es, Int(21)), i.vendorCommands)
  {
  }

  lemma {:induction false} InfoAlgorithms(es: seq<Entry>, i: Info)
    requires MembersUnder(es, i) && TypedInfo(i)
    ensures AlgorithmsOnWire(ValueUnder(es, Int(10)), i.algorithms)
  {
    assert ValueUnder(es, Int(10)) == CanonOpt(MemberOf(i, 10));
    if i.algorithms.Some? { AlgorithmsWired(i.algorithms.value); }
  }

  lemma {:induction false} InfoPlain(es: seq<Entry>, i: Info)
    requires MembersUnder(es, i)
    ensures ValueUnder(es, Int(3)) == Some(Bytes(i.aaguid)) && ValueUnder(es, Int(12)) == BoolSlot(i.forcePinChange)
    ensures ValueUnder(es, Int(19)) == CanonOpt(i.certifications)
  {
  }

  lemma {:induction false} InfoNumbers(es: seq<Entry>, i: Info)
    requires MembersUnder(es, i)
    ensures forall k: nat :: k in {5, 7, 8, 11, 13, 14, 15, 16, 17, 18, 20} ==>
                               ValueUnder(es, Int(k)) == if k in i.numbers then Some(Int(i.numbers[k])) else None
  {
  }

  lemma {:induction false} InfoOptions(es: seq<Entry>, i: Info)
    requires MembersUnder(es, i)
    ensures ValueUnder(es, Int(4)).Some? <==> i.options.Some?
    ensures i.options.Some? ==> AsOptionMap(ValueUnder(es, Int(4)).value, Int(4)) == Ok(i.options.value)
  {
    if i.options.Some? { OptionMapBack(i.options.value, Int(4)); }
  }

  lemma {:induction false} InfoWired(i: Info)
    requires TypedInfo(i)
    ensures InfoOnWire(Canon(InfoTo(i)).entries, i)
  {
    var es := Canon(InfoTo(i)).entries;
    InfoKeys(i);
    InfoUnder(i);
    InfoTexts(es, i);
    InfoLists(es, i);
    InfoAlgorithms(es, i);
    InfoPlain(es, i);
    InfoNumbers(es, i);
    InfoOptions(es, i);
  }

  lemma {:induction false} InfoExact(i: Info)
    requires TypedInfo(i) && EncodeInfo(i).Ok? && |EncodeInfo(i).value| < U64
    ensures var d := Decode(EncodeInfo(i).value, Strict);
            d.Ok? && d.value.Map? && InfoOnWire(d.value.entries, i)
  {
    InfoSound(i);
    EncodeCharacterised(InfoTo(i));
    RoundTrip(InfoTo(i), Strict);
    InfoWired(i);
  }
}
