/** Credential descriptors and user entities (`PublicKeyCredentialDescriptor`, `PublicKeyCredentialUserEntity`). */
module Credentials {
  import opened Wrappers
  import opened ByteOrder
  import opened Cbor
  import opened Members

  /** Names as UTF-8: "type", "public-key", "id", "transports", "name", "displayName". */
  const TYPE: Value := Text([0x74, 0x79, 0x70, 0x65])
  const PUBLIC_KEY: Value := Text([0x70, 0x75, 0x62, 0x6C, 0x69, 0x63, 0x2D, 0x6B, 0x65, 0x79])
  const ID: Value := Text([0x69, 0x64])
  const TRANSPORTS: Value := Text([0x74, 0x72, 0x61, 0x6E, 0x73, 0x70, 0x6F, 0x72, 0x74, 0x73])
  const NAME: Value := Text([0x6E, 0x61, 0x6D, 0x65])
  const DISPLAY_NAME: Value := Text([0x64, 0x69, 0x73, 0x70, 0x6C, 0x61, 0x79, 0x4E, 0x61, 0x6D, 0x65])

  /** Its type is always "public-key". */
  datatype Descriptor = Descriptor(id: seq<byte>, transports: Option<seq<seq<byte>>>)

  datatype User = User(id: seq<byte>, name: Option<seq<byte>>, displayName: Option<seq<byte>>)

  function Mapped(v: Option<seq<byte>>, f: seq<byte> -> Value): Option<Value> {
    match v
    case Some(x) => Some(f(x))
    case None => None
  }

  function TextsSlot(ts: Option<seq<seq<byte>>>): Option<Value> {
    match ts
    case Some(list) => Some(Array(Texts(list)))
    case None => None
  }

  /** A member that must be there. */
  function Required<T>(m: Message, key: Value, read: (Value, Value) -> Result<T, MemberError>): Result<T, MemberError> {
    if key in m then read(m[key], key) else Err(Missing(key))
  }

  /** A member that may be absent. */
  function Optional<T>(m: Message, key: Value, read: (Value, Value) -> Result<T, MemberError>)
    : Result<Option<T>, MemberError>
  {
    if key in m then
      var v :- read(m[key], key);
      Ok(Some(v))
    else Ok(None)
  }

  lemma {:induction false} RequiredBack<T>(m: Message, slots: seq<Slot>, i: nat,
                                           read: (Value, Value) -> Result<T, MemberError>, x: T)
    requires HoldsSlots(m, slots) && i < |slots| && slots[i].val.Some?
    requires read(Canon(slots[i].val.value), slots[i].key) == Ok(x)
    ensures Required(m, slots[i].key, read) == Ok(x)
  {
    assert Get(m, slots[i].key) == CanonOpt(slots[i].val);
  }

  lemma {:induction false} OptionalBack<T>(m: Message, slots: seq<Slot>, i: nat,
                                           read: (Value, Value) -> Result<T, MemberError>,
                                           x: Option<T>)
    requires HoldsSlots(m, slots) && i < |slots| && (slots[i].val.Some? <==> x.Some?)
    requires x.Some? ==> read(Canon(slots[i].val.value), slots[i].key) == Ok(x.value)
    ensures Optional(m, slots[i].key, read) == Ok(x)
  {
    assert Get(m, slots[i].key) == CanonOpt(slots[i].val);
  }

  function DescriptorSlots(d: Descriptor): seq<Slot> {
    [Slot(TYPE, Some(PUBLIC_KEY)), Slot(ID, Some(Bytes(d.id))), Slot(TRANSPORTS, TextsSlot(d.transports))]
  }

  /** `PublicKeyCredentialDescriptor::to_cbor`. */
  function DescriptorTo(d: Descriptor): Value {
    Map(Entries(DescriptorSlots(d)))
  }

  function DescriptorCheck(key: Value, v: Value): Option<MemberError> {
    if key == TYPE then (if v == PUBLIC_KEY then None else Some(TypeMismatch(TYPE)))
    else if key == ID then Problem(AsBytes(v, ID))
    else if key == TRANSPORTS then Problem(AsTexts(v, TRANSPORTS))
    else None
  }

  /** `PublicKeyCredentialDescriptor::from_cbor`. */
  function DescriptorFrom(v: Value): Result<Descriptor, MemberError> {
    if !v.Map? then Err(NotAMap) else
      var m :- Parse(DescriptorCheck, v.entries);
      if TYPE !in m then Err(Missing(TYPE)) else
        var id :- Required(m, ID, AsBytes);
        var transports :- Optional(m, TRANSPORTS, AsTexts);
        Ok(Descriptor(id, transports))
  }

  function UserSlots(u: User): seq<Slot> {
    [Slot(ID, Some(Bytes(u.id))), Slot(NAME, Mapped(u.name, t => Text(t))),
     Slot(DISPLAY_NAME, Mapped(u.displayName, t => Text(t)))]
  }

  function UserTo(u: User): Value {
    Map(Entries(UserSlots(u)))
  }

  function UserCheck(key: Value, v: Value): Option<MemberError> {
    if key == ID then Problem(AsBytes(v, ID))
    else if key == NAME then Problem(AsText(v, NAME))
    else if key == DISPLAY_NAME then Problem(AsText(v, DISPLAY_NAME))
    else None
  }

  function UserFrom(v: Value): Result<User, MemberError> {
    if !v.Map? then Err(NotAMap) else
      var m :- Parse(UserCheck, v.entries);
      var id :- Required(m, ID, AsBytes);
      var name :- Optional(m, NAME, AsText);
      var displayName :- Optional(m, DISPLAY_NAME, AsText);
      Ok(User(id, name, displayName))
  }

  ghost predicate TypedText(t: Option<seq<byte>>) {
    t.Some? ==> Typed(Text(t.value))
  }

  ghost predicate TypedTexts(ts: Option<seq<seq<byte>>>) {
    ts.Some? ==> |ts.value| < U64 && forall i :: 0 <= i < |ts.value| ==> Typed(Text(ts.value[i]))
  }

  ghost predicate TypedDescriptor(d: Descriptor) {
    |d.id| < U64 && TypedTexts(d.transports)
  }

  ghost predicate TypedUser(u: User) {
    |u.id| < U64 && TypedText(u.name) && TypedText(u.displayName)
  }

  lemma {:induction false} DescriptorSimple(d: Descriptor)
    ensures SimpleSlots(DescriptorSlots(d))
  {
    assert |TYPE.utf8| == 4 && |ID.utf8| == 2 && |TRANSPORTS.utf8| == 10;
  }

  /** Parsing undoes printing, canonical reordering notwithstanding. */
  lemma {:induction false} DescriptorBack(d: Descriptor)
    ensures DescriptorFrom(Canon(DescriptorTo(d))) == Ok(d)
  {
    var slots := DescriptorSlots(d);
    DescriptorSimple(d);
    SimpleDistinct(slots);
    DescriptorAccepted(d);
    CanonReads(DescriptorCheck, slots);
    DescriptorMembers(d, Parse(DescriptorCheck, Canon(DescriptorTo(d)).entries).value);
  }

  lemma {:induction false} DescriptorAccepted(d: Descriptor)
    ensures Acceptable(DescriptorCheck, DescriptorSlots(d))
  {
    if d.transports.Some? { TextsBack(d.transports.value, TRANSPORTS); }
    assert |TYPE.utf8| == 4 && |ID.utf8| == 2 && |TRANSPORTS.utf8| == 10;
  }

  lemma {:induction false} DescriptorMembers(d: Descriptor, m: Message)
    requires HoldsSlots(m, DescriptorSlots(d))
    ensures TYPE in m && Required(m, ID, AsBytes) == Ok(d.id) && Optional(m, TRANSPORTS, AsTexts) == Ok(d.transports)
  {
    var slots := DescriptorSlots(d);
    if d.transports.Some? { TextsBack(d.transports.value, TRANSPORTS); }
    assert Get(m, slots[0].key) == CanonOpt(slots[0].val);
    RequiredBack(m, slots, 1, AsBytes, d.id);
    OptionalBack(m, slots, 2, AsTexts, d.transports);
  }

  lemma {:induction false} DescriptorSound(d: Descriptor, depth: nat)
    requires TypedDescriptor(d) && depth < MAX_DEPTH - 1
    ensures Sound(DescriptorTo(d), depth)
  {
    var slots := DescriptorSlots(d);
    DescriptorSimple(d);
    forall i | 0 <= i < |slots| && slots[i].val.Some? ensures Sound(slots[i].val.value, depth + 1) {
      DescriptorValueSound(d, depth + 1, i);
    }
    SimpleSlotsSound(slots, depth);
  }

  lemma {:induction false} DescriptorValueSound(d: Descriptor, depth: nat, i: nat)
    requires TypedDescriptor(d) && depth < MAX_DEPTH && i < 3 && DescriptorSlots(d)[i].val.Some?
    ensures Sound(DescriptorSlots(d)[i].val.value, depth)
  {
    if i == 0 { PublicKeySound(depth); }
    if i == 2 { TextsSound(d.transports.value, depth); }
  }

  lemma {:induction false} PublicKeySound(depth: nat)
    ensures Sound(PUBLIC_KEY, depth)
  {
    SimpleSound(PUBLIC_KEY, depth);
  }

  lemma {:induction false} UserSimple(u: User)
    ensures SimpleSlots(UserSlots(u))
  {
    assert |ID.utf8| == 2 && |NAME.utf8| == 4 && |DISPLAY_NAME.utf8| == 11;
  }

  lemma {:induction false} UserBack(u: User)
    ensures UserFrom(Canon(UserTo(u))) == Ok(u)
  {
    var slots := UserSlots(u);
    UserSimple(u);
    SimpleDistinct(slots);
    UserAccepted(u);
    CanonReads(UserCheck, slots);
    UserMembers(u, Parse(UserCheck, Canon(UserTo(u)).entries).value);
  }

  lemma {:induction false} UserAccepted(u: User)
    ensures Acceptable(UserCheck, UserSlots(u))
  {
    assert |ID.utf8| == 2 && |NAME.utf8| == 4 && |DISPLAY_NAME.utf8| == 11;
  }

  lemma {:induction false} UserMembers(u: User, m: Message)
    requires HoldsSlots(m, UserSlots(u))
    ensures Required(m, ID, AsBytes) == Ok(u.id) && Optional(m, NAME, AsText) == Ok(u.name)
    ensures Optional(m, DISPLAY_NAME, AsText) == Ok(u.displayName)
  {
    var slots := UserSlots(u);
    RequiredBack(m, slots, 0, AsBytes, u.id);
    OptionalBack(m, slots, 1, AsText, u.name);
    OptionalBack(m, slots, 2, AsText, u.displayName);
  }

  lemma {:induction false} UserSound(u: User, depth: nat)
    requires TypedUser(u) && depth < MAX_DEPTH
    ensures Sound(UserTo(u), depth)
  {
    UserSimple(u);
    SimpleSlotsSound(UserSlots(u), depth);
  }
}
