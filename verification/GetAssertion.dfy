/** The getAssertion request and response (section 6.2 of CTAP 2.1) and their CBOR forms. */
module GetAssertion {
  import opened Wrappers
  import opened ByteOrder
  import opened Cbor
  import opened CborEncoder
  import opened CborTheorems
  import opened Members
  import opened Credentials

  /** `PinUvAuthProtocol`. */
  datatype Protocol = One | Two | Other(value: nat) {
    function ToU32(): nat {
      match this
      case One => 1
      case Two => 2
      case Other(v) => v
    }
  }

  function ProtocolOf(n: nat): Protocol {
    if n == 1 then One else if n == 2 then Two else Other(n)
  }

  datatype Options = Options(up: Option<bool>, uv: Option<bool>)

  datatype Request = Request(
    rpId: seq<byte>,
    clientDataHash: seq<byte>,
    allowList: Option<seq<Descriptor>>,
    extensions: Option<Value>,
    options: Option<Options>,
    pinUvAuthParam: Option<seq<byte>>,
    pinUvAuthProtocol: Option<Protocol>)

  datatype RequestError = UvOptionWithPinUvAuthParam | EmptyAllowList | Encoding(error: EncodeError)

  const UP: Value := Text([0x75, 0x70])
  const UV: Value := Text([0x75, 0x76])

  // ---- the request, printed

  function BoolSlot(b: Option<bool>): Option<Value> {
    match b
    case Some(x) => Some(Bool(x))
    case None => None
  }

  function OptionsSlots(o: Options): seq<Slot> {
    [Slot(UP, BoolSlot(o.up)), Slot(UV, BoolSlot(o.uv))]
  }

  function OptionsTo(o: Options): Value {
    Map(Entries(OptionsSlots(o)))
  }

  function DescriptorsTo(list: seq<Descriptor>): (vs: seq<Value>)
    ensures |vs| == |list| && forall i :: 0 <= i < |list| ==> vs[i] == DescriptorTo(list[i])
  {
    if list == [] then [] else [DescriptorTo(list[0])] + DescriptorsTo(list[1..])
  }

  function AllowSlot(list: Option<seq<Descriptor>>): Option<Value> {
    match list
    case Some(l) => Some(Array(DescriptorsTo(l)))
    case None => None
  }

  function OptionsSlot(o: Option<Options>): Option<Value> {
    match o
    case Some(x) => Some(OptionsTo(x))
    case None => None
  }

  function BytesSlot(b: Option<seq<byte>>): Option<Value> {
    match b
    case Some(x) => Some(Bytes(x))
    case None => None
  }

  function ProtocolSlot(p: Option<Protocol>): Option<Value> {
    match p
    case Some(x) => Some(Int(x.ToU32()))
    case None => None
  }

  function RequestSlots(r: Request): seq<Slot> {
    [Slot(Int(1), Some(Text(r.rpId))), Slot(Int(2), Some(Bytes(r.clientDataHash))),
     Slot(Int(3), AllowSlot(r.allowList)),
     Slot(Int(4), r.extensions), Slot(Int(5), OptionsSlot(r.options)), Slot(Int(6), BytesSlot(r.pinUvAuthParam)),
     Slot(Int(7), ProtocolSlot(r.pinUvAuthProtocol))]
  }

  function RequestTo(r: Request): Value {
    Map(Entries(RequestSlots(r)))
  }

  /** `validate`: a uv option and a pinUvAuthParam exclude each other. */
  predicate UvExclusive(r: Request) {
    !(r.options.Some? && r.options.value.uv.Some? && r.pinUvAuthParam.Some?)
  }

  /** `GetAssertionRequest::encode`. */
  function EncodeRequest(r: Request): Result<seq<byte>, RequestError> {
    if !UvExclusive(r) then Err(UvOptionWithPinUvAuthParam)
    else if r.allowList == Some([]) then Err(EmptyAllowList)
    else match Encode(RequestTo(r))
         case Ok(b) => Ok(b)
         case Err(e) => Err(Encoding(e))
  }

  /** The same, as the source runs it: members are pushed one by one, absent ones skipped. */
  method EncodeRequestBytes(r: Request) returns (out: Result<seq<byte>, RequestError>)
    ensures out == EncodeRequest(r)
  {
    if r.options.Some? && r.options.value.uv.Some? && r.pinUvAuthParam.Some? {
      return Err(UvOptionWithPinUvAuthParam);
    }
    if r.allowList == Some([]) {
      return Err(EmptyAllowList);
    }
    var entries := PushPresent(RequestSlots(r));
    var encoded := EncodeBytes(Map(entries));
    match encoded {
      case Ok(b) => out := Ok(b);
      case Err(e) => out := Err(Encoding(e));
    }
  }

  // ---- the request, parsed

  function OptionsCheck(key: Value, v: Value): Option<MemberError> {
    if key == UP then Problem(AsBool(v, UP)) else if key == UV then Problem(AsBool(v, UV)) else None
  }

  function AsOptions(v: Value, of: Value): Result<Options, MemberError> {
    if !v.Map? then Err(TypeMismatch(of)) else
      var m :- Parse(OptionsCheck, v.entries);
      var up :- Optional(m, UP, AsBool);
      var uv :- Optional(m, UV, AsBool);
      Ok(Options(up, uv))
  }

  /** `descriptor_array`. */
  function AsDescriptors(v: Value, of: Value): Result<seq<Descriptor>, MemberError> {
    if v.Array? then DescriptorsOf(v.items) else Err(TypeMismatch(of))
  }

  function DescriptorsOf(items: seq<Value>): Result<seq<Descriptor>, MemberError> {
    if items == [] then Ok([]) else
      var first :- DescriptorFrom(items[0]);
      var rest :- DescriptorsOf(items[1..]);
      Ok([first] + rest)
  }

  function AsProtocol(v: Value, of: Value): Result<Protocol, MemberError> {
    var n :- AsUint(v, of);
    if n >= U32 then Err(Invalid(of)) else Ok(ProtocolOf(n))
  }

  function AsAny(v: Value, of: Value): Result<Value, MemberError> {
    Ok(v)
  }

  function RequestCheck(key: Value, v: Value): Option<MemberError> {
    if !key.Int? then None
    else if key.n == 1 then Problem(AsText(v, key))
    else if key.n == 2 then Problem(AsBytes(v, key))
    else if key.n == 3 then Problem(AsDescriptors(v, key))
    else if key.n == 5 then Problem(AsOptions(v, key))
    else if key.n == 6 then Problem(AsBytes(v, key))
    else if key.n == 7 then Problem(AsProtocol(v, key))
    else None
  }

  /** `GetAssertionRequest::from_cbor`; an empty allow list is normalised to none. */
  function RequestFrom(v: Value): Result<Request, MemberError> {
    if !v.Map? then Err(NotAMap) else
      var m :- Parse(RequestCheck, v.entries);
      BuildRequest(m)
  }

  function BuildRequest(m: Message): Result<Request, MemberError> {
    var rpId :- Required(m, Int(1), AsText);
    var clientDataHash :- Required(m, Int(2), AsBytes);
    var allowList :- Optional(m, Int(3), AsDescriptors);
    var extensions :- Optional(m, Int(4), AsAny);
    var options :- Optional(m, Int(5), AsOptions);
    var param :- Optional(m, Int(6), AsBytes);
    var protocol :- Optional(m, Int(7), AsProtocol);
    Ok(Request(rpId, clientDataHash, if allowList == Some([]) then None else allowList, extensions, options, param,
               protocol))
  }

  // ---- the response

  /** The two defaulted members are `None` when they are not on the wire. */
  datatype Response = Response(
    credential: Descriptor,
    authData: seq<byte>,
    signature: seq<byte>,
    user: Option<User>,
    numberOfCredentials: Option<nat>,
    userSelected: Option<bool>,
    largeBlobKey: Option<seq<byte>>)
  {
    /** What the member reports: absent means one. */
    function Number(): nat {
      numberOfCredentials.GetOr(1)
    }
  }

  function UserSlot(u: Option<User>): Option<Value> {
    match u
    case Some(x) => Some(UserTo(x))
    case None => None
  }

  function NumberSlot(n: Option<nat>): Option<Value> {
    match n
    case Some(x) => Some(Int(x))
    case None => None
  }

  function ResponseSlots(r: Response): seq<Slot> {
    [Slot(Int(1), Some(DescriptorTo(r.credential))), Slot(Int(2), Some(Bytes(r.authData))),
     Slot(Int(3), Some(Bytes(r.signature))), Slot(Int(4), UserSlot(r.user)),
     Slot(Int(5), NumberSlot(r.numberOfCredentials)),
     Slot(Int(6), BoolSlot(r.userSelected)), Slot(Int(7), BytesSlot(r.largeBlobKey))]
  }

  function ResponseTo(r: Response): Value {
    Map(Entries(ResponseSlots(r)))
  }

  /** `GetAssertionResponse::encode`. */
  function EncodeResponse(r: Response): Encoded {
    Encode(ResponseTo(r))
  }

  function AsDescriptor(v: Value, of: Value): Result<Descriptor, MemberError> {
    DescriptorFrom(v)
  }

  function AsUser(v: Value, of: Value): Result<User, MemberError> {
    UserFrom(v)
  }

  function ResponseCheck(key: Value, v: Value): Option<MemberError> {
    if !key.Int? then None
    else if key.n == 1 then Problem(AsDescriptor(v, key))
    else if key.n == 2 || key.n == 3 || key.n == 7 then Problem(AsBytes(v, key))
    else if key.n == 4 then Problem(AsUser(v, key))
    else if key.n == 5 then Problem(AsUint(v, key))
    else if key.n == 6 then Problem(AsBool(v, key))
    else None
  }

  /** `GetAssertionResponse::from_cbor`. */
  function ResponseFrom(v: Value): Result<Response, MemberError> {
    if !v.Map? then Err(NotAMap) else
      var m :- Parse(ResponseCheck, v.entries);
      BuildResponse(m)
  }

  function BuildResponse(m: Message): Result<Response, MemberError> {
    var credential :- Required(m, Int(1), AsDescriptor);
    var authData :- Required(m, Int(2), AsBytes);
    var signature :- Required(m, Int(3), AsBytes);
    var user :- Optional(m, Int(4), AsUser);
    var number :- Optional(m, Int(5), AsUint);
    var selected :- Optional(m, Int(6), AsBool);
    var largeBlobKey :- Optional(m, Int(7), AsBytes);
    var r := Response(credential, authData, signature, user, number, selected, largeBlobKey);
    if SelectedAmongMany(r) then Err(Invalid(Int(6))) else Ok(r)
  }

  /** userSelected must not be present when there are several credentials. */
  predicate SelectedAmongMany(r: Response) {
    r.userSelected.Some? && r.Number() > 1
  }
}
