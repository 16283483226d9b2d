/** The getAssertion messages go through the codec and come back. */
module GetAssertionFacts {
  import opened Wrappers
  import opened ByteOrder
  import opened Cbor
  import opened CborDecoder
  import opened CborTheorems
  import opened Members
  import opened Credentials
  import opened GetAssertion

  // ---- what the source's types guarantee

  ghost predicate TypedProtocol(p: Option<Protocol>) {
    p.Some? ==> p.value.ToU32() < U32
  }

  ghost predicate TypedDescriptors(list: Option<seq<Descriptor>>) {
    list.Some? ==> |list.value| < U64 && forall i :: 0 <= i < |list.value| ==> TypedDescriptor(list.value[i])
  }

  /** Text is UTF-8, lengths and integers fit, and the uninterpreted extensions are sound CBOR. */
  ghost predicate TypedRequest(r: Request) {
    && Typed(Text(r.rpId)) && |r.clientDataHash| < U64 && TypedDescriptors(r.allowList)
    && (r.extensions.Some? ==> Sound(r.extensions.value, 1))
    && (r.pinUvAuthParam.Some? ==> |r.pinUvAuthParam.value| < U64) && TypedProtocol(r.pinUvAuthProtocol)
  }

  ghost predicate TypedResponse(r: Response) {
    && TypedDescriptor(r.credential) && |r.authData| < U64 && |r.signature| < U64
    && (r.user.Some? ==> TypedUser(r.user.value)) && (r.numberOfCredentials.Some? ==> r.numberOfCredentials.value < U64)
    && (r.largeBlobKey.Some? ==> |r.largeBlobKey.value| < U64)
  }

  /** The request as it comes back: extensions canonicalised, protocol selectors by their number. */
  function Normalised(r: Request): Request {
    r.(extensions := CanonOpt(r.extensions),
       pinUvAuthProtocol := if r.pinUvAuthProtocol.Some? then Some(ProtocolOf(r.pinUvAuthProtocol.value.ToU32()))
                            else None)
  }

  // ---- members

  lemma {:induction false} OptionsBack(o: Options, of: Value)
    ensures AsOptions(Canon(OptionsTo(o)), of) == Ok(o)
  {
    var slots := OptionsSlots(o);
    OptionsSimple(o);
    SimpleDistinct(slots);
    CanonReads(OptionsCheck, slots);
    OptionsMembers(o, Parse(OptionsCheck, Canon(OptionsTo(o)).entries).value);
  }

  lemma {:induction false} OptionsMembers(o: Options, m: Message)
    requires HoldsSlots(m, OptionsSlots(o))
    ensures Optional(m, UP, AsBool) == Ok(o.up) && Optional(m, UV, AsBool) == Ok(o.uv)
  {
    OptionalBack(m, OptionsSlots(o), 0, AsBool, o.up);
    OptionalBack(m, OptionsSlots(o), 1, AsBool, o.uv);
  }

  lemma {:induction false} OptionsSimple(o: Options)
    ensures SimpleSlots(OptionsSlots(o)) && UP != UV
    ensures Acceptable(OptionsCheck, OptionsSlots(o))
  {
    assert UP.utf8[1] != UV.utf8[1];
  }

  lemma {:induction false} OptionsSound(o: Options, depth: nat)
    requires depth < MAX_DEPTH
    ensures Sound(OptionsTo(o), depth)
  {
    OptionsSimple(o);
    SimpleSlotsSound(OptionsSlots(o), depth);
  }

  lemma {:induction false} DescriptorsBack(list: seq<Descriptor>, of: Value)
    ensures AsDescriptors(Canon(Array(DescriptorsTo(list))), of) == Ok(list)
  {
    DescriptorsParsed(list, CanonItems(DescriptorsTo(list)));
  }

  lemma {:induction false} DescriptorsParsed(list: seq<Descriptor>, items: seq<Value>)
    requires |items| == |list| && forall i :: 0 <= i < |list| ==> items[i] == Canon(DescriptorTo(list[i]))
    ensures DescriptorsOf(items) == Ok(list)
  {
    if list != [] {
      DescriptorBack(list[0]);
      DescriptorsParsed(list[1..], items[1..]);
      assert [list[0]] + list[1..] == list;
    }
  }

  lemma {:induction false} DescriptorsSound(list: seq<Descriptor>, depth: nat)
    requires |list| < U64 && depth < MAX_DEPTH - 2 && forall i :: 0 <= i < |list| ==> TypedDescriptor(list[i])
    ensures Sound(Array(DescriptorsTo(list)), depth)
  {
    forall i | 0 <= i < |list| { DescriptorSound(list[i], depth + 1); }
    ItemsSound(DescriptorsTo(list), depth);
  }

  // ---- the request

  lemma {:induction false} RequestSimple(r: Request)
    ensures SimpleSlots(RequestSlots(r))
  {
  }

  lemma {:induction false} RequestAccepted(r: Request)
    requires TypedRequest(r)
    ensures Acceptable(RequestCheck, RequestSlots(r))
  {
    var slots := RequestSlots(r);
    AllowListAccepted(r);
    OptionsAccepted(r);
    ProtocolAccepted(r);
    forall i | 0 <= i < |slots| && slots[i].val.Some?
      ensures RequestCheck(slots[i].key, Canon(slots[i].val.value)).None?
    {
      if i == 0 {} else if i == 1 {} else if i == 2 {} else if i == 3 {} else if i == 4 {} else if i == 5 {} else {}
    }
  }

  lemma {:induction false} AllowListAccepted(r: Request)
    ensures r.allowList.Some? ==> RequestCheck(Int(3), Canon(AllowSlot(r.allowList).value)).None?
  {
    if r.allowList.Some? { DescriptorsBack(r.allowList.value, Int(3)); }
  }

  lemma {:induction false} OptionsAccepted(r: Request)
    ensures r.options.Some? ==> RequestCheck(Int(5), Canon(OptionsSlot(r.options).value)).None?
  {
    if r.options.Some? { OptionsBack(r.options.value, Int(5)); }
  }

  lemma {:induction false} ProtocolAccepted(r: Request)
    requires TypedProtocol(r.pinUvAuthProtocol)
    ensures r.pinUvAuthProtocol.Some? ==> RequestCheck(Int(7), Canon(ProtocolSlot(r.pinUvAuthProtocol).value)).None?
  {
  }

  lemma {:induction false} AllowListRead(r: Request, m: Message)
    requires HoldsSlots(m, RequestSlots(r))
    ensures Optional(m, Int(3), AsDescriptors) == Ok(r.allowList)
  {
    if r.allowList.Some? { DescriptorsBack(r.allowList.value, Int(3)); }
    OptionalBack(m, RequestSlots(r), 2, AsDescriptors, r.allowList);
  }

  lemma {:induction false} OptionsRead(r: Request, m: Message)
    requires HoldsSlots(m, RequestSlots(r))
    ensures Optional(m, Int(5), AsOptions) == Ok(r.options)
  {
    if r.options.Some? { OptionsBack(r.options.value, Int(5)); }
    OptionalBack(m, RequestSlots(r), 4, AsOptions, r.options);
  }

  /** The members whose values are plain. */
  lemma {:induction false} PlainRead(r: Request, m: Message)
    requires TypedProtocol(r.pinUvAuthProtocol) && HoldsSlots(m, RequestSlots(r))
    ensures Required(m, Int(1), AsText) == Ok(r.rpId) && Required(m, Int(2), AsBytes) == Ok(r.clientDataHash)
    ensures Optional(m, Int(4), AsAny) == Ok(Normalised(r).extensions)
            && Optional(m, Int(6), AsBytes) == Ok(r.pinUvAuthParam)
    ensures Optional(m, Int(7), AsProtocol) == Ok(Normalised(r).pinUvAuthProtocol)
  {
    var slots := RequestSlots(r);
    RequiredBack(m, slots, 0, AsText, r.rpId);
    RequiredBack(m, slots, 1, AsBytes, r.clientDataHash);
    OptionalBack(m, slots, 3, AsAny, Normalised(r).extensions);
    OptionalBack(m, slots, 5, AsBytes, r.pinUvAuthParam);
    OptionalBack(m, slots, 6, AsProtocol, Normalised(r).pinUvAuthProtocol);
  }

  lemma {:induction false} RequestBuilt(r: Request, m: Message)
    requires TypedRequest(r) && r.allowList != Some([]) && HoldsSlots(m, RequestSlots(r))
    ensures BuildRequest(m) == Ok(Normalised(r))
  {
    AllowListRead(r, m);
    OptionsRead(r, m);
    PlainRead(r, m);
  }

  lemma {:induction false} RequestSound(r: Request)
    requires TypedRequest(r)
    ensures Sound(RequestTo(r), 0)
  {
    RequestSimple(r);
    if r.allowList.Some? { DescriptorsSound(r.allowList.value, 1); }
    if r.options.Some? { OptionsSound(r.options.value, 1); }
    SimpleSlotsSound(RequestSlots(r), 0);
  }

  // ---- encoding asks nothing of the sizes

  lemma {:induction false} FlatEncodable(items: seq<Value>, depth: nat)
    requires depth < MAX_DEPTH && forall i :: 0 <= i < |items| ==> Encodable(items[i], depth + 1)
    ensures Encodable(Array(items), depth)
  {
  }

  lemma {:induction false} DescriptorEncodable(d: Descriptor, depth: nat)
    requires depth < 3
    ensures Encodable(DescriptorTo(d), depth)
  {
    var slots := DescriptorSlots(d);
    DescriptorSimple(d);
    if d.transports.Some? { FlatEncodable(Texts(d.transports.value), depth + 1); }
    SimpleEncodable(slots, depth);
  }

  lemma {:induction false} DescriptorsEncodable(list: seq<Descriptor>)
    ensures Encodable(Array(DescriptorsTo(list)), 1)
  {
    forall i | 0 <= i < |list| { DescriptorEncodable(list[i], 2); }
    FlatEncodable(DescriptorsTo(list), 1);
  }

  /** Without extensions of its own choosing, any request encodes unless it breaks one of the two wire rules. */
  lemma {:induction false} RequestEncodable(r: Request)
    requires r.extensions.Some? ==> Encodable(r.extensions.value, 1)
    ensures EncodeRequest(r).Ok? <==> UvExclusive(r) && r.allowList != Some([])
  {
    RequestSimple(r);
    if r.allowList.Some? { DescriptorsEncodable(r.allowList.value); }
    if r.options.Some? { SimpleEncodable(OptionsSlots(r.options.value), 1); }
    SimpleEncodable(RequestSlots(r), 0);
    EncodeCharacterised(RequestTo(r));
  }

  /** Encoding a typed request fails only for the two wire rules; what it sends parses back to the request. */
  lemma {:induction false} RequestRoundTrip(r: Request)
    requires TypedRequest(r) && |Enc(RequestTo(r))| < U64
    ensures EncodeRequest(r).Ok? <==> UvExclusive(r) && r.allowList != Some([])
    ensures EncodeRequest(r).Ok? ==>
              var d := Decode(EncodeRequest(r).value, Strict);
              && d.Ok? && RequestFrom(d.value) == Ok(Normalised(r))
              && (RequestFrom(d.value) == Ok(r) <==> Normalised(r) == r)
  {
    var v := RequestTo(r);
    RequestSound(r);
    EncodeCharacterised(v);
    if EncodeRequest(r).Ok? {
      RoundTrip(v, Strict);
      RequestSimple(r);
      SimpleDistinct(RequestSlots(r));
      RequestAccepted(r);
      CanonReads(RequestCheck, RequestSlots(r));
      RequestBuilt(r, Parse(RequestCheck, Canon(v).entries).value);
    }
  }

  // ---- the response

  lemma {:induction false} ResponseSimple(r: Response)
    ensures SimpleSlots(ResponseSlots(r))
  {
  }

  lemma {:induction false} ResponseAccepted(r: Response)
    requires TypedResponse(r)
    ensures Acceptable(ResponseCheck, ResponseSlots(r))
  {
    DescriptorBack(r.credential);
    if r.user.Some? { UserBack(r.user.value); }
  }

  lemma {:induction false} CredentialRead(r: Response, m: Message)
    requires HoldsSlots(m, ResponseSlots(r))
    ensures Required(m, Int(1), AsDescriptor) == Ok(r.credential)
  {
    DescriptorBack(r.credential);
    RequiredBack(m, ResponseSlots(r), 0, AsDescriptor, r.credential);
  }

  lemma {:induction false} UserRead(r: Response, m: Message)
    requires HoldsSlots(m, ResponseSlots(r))
    ensures Optional(m, Int(4), AsUser) == Ok(r.user)
  {
    if r.user.Some? { UserBack(r.user.value); }
    OptionalBack(m, ResponseSlots(r), 3, AsUser, r.user);
  }

  lemma {:induction false} RestRead(r: Response, m: Message)
    requires TypedResponse(r) && HoldsSlots(m, ResponseSlots(r))
    ensures Required(m, Int(2), AsBytes) == Ok(r.authData) && Required(m, Int(3), AsBytes) == Ok(r.signature)
    ensures Optional(m, Int(5), AsUint) == Ok(r.numberOfCredentials)
            && Optional(m, Int(6), AsBool) == Ok(r.userSelected)
    ensures Optional(m, Int(7), AsBytes) == Ok(r.largeBlobKey)
  {
    var slots := ResponseSlots(r);
    RequiredBack(m, slots, 1, AsBytes, r.authData);
    RequiredBack(m, slots, 2, AsBytes, r.signature);
    OptionalBack(m, slots, 4, AsUint, r.numberOfCredentials);
    OptionalBack(m, slots, 5, AsBool, r.userSelected);
    OptionalBack(m, slots, 6, AsBytes, r.largeBlobKey);
  }

  lemma {:induction false} ResponseBuilt(r: Response, m: Message)
    requires TypedResponse(r) && HoldsSlots(m, ResponseSlots(r))
    ensures BuildResponse(m) == if SelectedAmongMany(r) then Err(Invalid(Int(6))) else Ok(r)
  {
    CredentialRead(r, m);
    UserRead(r, m);
    RestRead(r, m);
  }

  lemma {:induction false} ResponseSound(r: Response)
    requires TypedResponse(r)
    ensures Sound(ResponseTo(r), 0)
  {
    ResponseSimple(r);
    DescriptorSound(r.credential, 1);
    if r.user.Some? { UserSound(r.user.value, 1); }
    SimpleSlotsSound(ResponseSlots(r), 0);
  }

  /** Every typed response encodes; it comes back unless it reports a selection among several credentials. */
  lemma {:induction false} ResponseRoundTrip(r: Response)
    requires TypedResponse(r) && |Enc(ResponseTo(r))| < U64
    ensures EncodeResponse(r).Ok?
    ensures var d := Decode(EncodeResponse(r).value, Strict);
            && d.Ok? && d.value.Map?
            && ResponseFrom(d.value) == (if SelectedAmongMany(r) then Err(Invalid(Int(6))) else Ok(r))
  {
    var v := ResponseTo(r);
    ResponseSound(r);
    EncodeCharacterised(v);
    RoundTrip(v, Strict);
    ResponseSimple(r);
    SimpleDistinct(ResponseSlots(r));
    ResponseAccepted(r);
    CanonReads(ResponseCheck, ResponseSlots(r));
    ResponseBuilt(r, Parse(ResponseCheck, Canon(v).entries).value);
  }

  // ---- the order of entries does not matter

  lemma {:induction false} AssertionOrderIgnored(es: seq<Entry>, fs: seq<Entry>)
    requires multiset(es) == multiset(fs) && DistinctValues(es) && DistinctValues(fs)
    ensures RequestFrom(Map(es)).Ok? || RequestFrom(Map(fs)).Ok? ==> RequestFrom(Map(es)) == RequestFrom(Map(fs))
    ensures ResponseFrom(Map(es)).Ok? || ResponseFrom(Map(fs)).Ok? ==> ResponseFrom(Map(es)) == ResponseFrom(Map(fs))
    ensures DescriptorFrom(Map(es)).Ok? || DescriptorFrom(Map(fs)).Ok? ==>
              DescriptorFrom(Map(es)) == DescriptorFrom(Map(fs))
    ensures UserFrom(Map(es)).Ok? || UserFrom(Map(fs)).Ok? ==> UserFrom(Map(es)) == UserFrom(Map(fs))
  {
    OrderIgnored(RequestCheck, es, fs);
    OrderIgnored(ResponseCheck, es, fs);
    OrderIgnored(DescriptorCheck, es, fs);
    OrderIgnored(UserCheck, es, fs);
  }
}
