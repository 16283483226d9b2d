/** The getInfo response (section 6.4 of CTAP 2.1): its twenty-one members, their checks and their CBOR form. */
module GetInfo {
  import opened Wrappers
  import opened ByteOrder
  import opened KeyOrder
  import opened Cbor
  import opened CborEncoder
  import opened CborTheorems
  import opened Members
  import opened Credentials
  import opened GetAssertion

  type Name = seq<byte>

  /** "alg", and the option identifiers the ceremony asks for. */
  const ALG: Value := Text([0x61, 0x6C, 0x67])
  const OPTION_CLIENT_PIN: Name := [0x63, 0x6C, 0x69, 0x65, 0x6E, 0x74, 0x50, 0x69, 0x6E]
  const OPTION_PIN_UV_AUTH_TOKEN: Name := [0x70, 0x69, 0x6E, 0x55, 0x76, 0x41, 0x75, 0x74, 0x68, 0x54, 0x6F, 0x6B, 0x65,
                                           0x6E]

  /**
   `numbers` holds the unsigned members by key: maxMsgSize 5, maxCredentialCountInList 7,
   maxCredentialIdLength 8, maxSerializedLargeBlobArray 11, minPINLength 13, firmwareVersion 14,
   maxCredBlobLength 15, maxRPIDsForSetMinPINLength 16, preferredPlatformUvAttempts 17,
   uvModality 18, remainingDiscoverableCredentials 20.
   */
  datatype Info = Info(
    versions: seq<Name>,
    extensions: Option<seq<Name>>,
    aaguid: seq<byte>,
    options: Option<map<Name, bool>>,
    numbers: map<nat, nat>,
    protocols: Option<seq<Protocol>>,
    transports: Option<seq<Name>>,
    algorithms: Option<seq<int>>,
    forcePinChange: Option<bool>,
    certifications: Option<Value>,
    vendorCommands: Option<seq<nat>>)

  predicate IsNumberKey(k: int) {
    k == 5 || k == 7 || k == 8 || k == 11 || 13 <= k <= 18 || k == 20
  }

  /** `option`: an absent identifier has its default, true for user presence only. */
  function OptionValue(info: Info, name: Name): bool {
    if info.options.Some? && name in info.options.value then info.options.value[name] else Text(name) == UP
  }

  // ---- printing

  /** Below every other name in byte order. */
  predicate IsLeast(least: Name, names: set<Name>) {
    least in names && forall k :: k in names ==> !LexLess(k, least)
  }

  lemma {:induction false} LeastExists(names: set<Name>)
    requires names != {}
    ensures exists least :: IsLeast(least, names)
  {
    var least := LeastOf(names);
  }

  lemma {:induction false} LeastUnique(names: set<Name>)
    ensures forall a, b :: IsLeast(a, names) && IsLeast(b, names) ==> a == b
  {
    forall a, b | IsLeast(a, names) && IsLeast(b, names) ensures a == b { LexTotal(a, b); }
  }

  function LeastName(names: set<Name>): (least: Name)
    requires names != {}
    ensures IsLeast(least, names)
  {
    LeastExists(names);
    LeastUnique(names);
    var least :| least in names && IsLeast(least, names);
    least
  }

  /** The identifiers of an options map in byte order, as a `BTreeMap` iterates. */
  function OptionSlots(options: map<Name, bool>): (s: seq<Slot>)
    ensures |s| == |options|
    decreases |options|
  {
    if options == map[] then [] else
      var least := LeastName(options.Keys);
      var rest := options - {least};
      assert options.Keys == rest.Keys + {least};
      [Slot(Text(least), Some(Bool(options[least])))] + OptionSlots(rest)
  }

  lemma {:induction false} LeastOf(names: set<Name>) returns (least: Name)
    requires names != {}
    ensures IsLeast(least, names)
    decreases |names|
  {
    var x :| x in names;
    var rest := names - {x};
    LexTotal(x, x);
    least := x;
    if rest != {} {
      var y := LeastOf(rest);
      LexTotal(x, y);
      if LexLess(x, y) {
        forall k | k in rest ensures !LexLess(k, x) {
          if LexLess(k, x) { LexTransitive(k, x, y); }
        }
      } else {
        least := y;
      }
    }
    assert forall k :: k in names ==> k == x || k in rest;
  }

  function ProtocolNumbers(ps: seq<Protocol>): (ns: seq<nat>)
    ensures |ns| == |ps| && forall i :: 0 <= i < |ps| ==> ns[i] == ps[i].ToU32()
  {
    if ps == [] then [] else [ps[0].ToU32()] + ProtocolNumbers(ps[1..])
  }

  function AlgorithmSlots(alg: int): seq<Slot> {
    [Slot(TYPE, Some(PUBLIC_KEY)), Slot(ALG, Some(Int(alg)))]
  }

  function AlgorithmsTo(algs: seq<int>): (vs: seq<Value>)
    ensures |vs| == |algs| && forall i :: 0 <= i < |algs| ==> vs[i] == Map(Entries(AlgorithmSlots(algs[i])))
  {
    if algs == [] then [] else [Map(Entries(AlgorithmSlots(algs[0])))] + AlgorithmsTo(algs[1..])
  }

  /** The value of member `k`, if the response has it. */
  function MemberOf(i: Info, k: nat): Option<Value> {
    if k == 1 then Some(Array(Texts(i.versions)))
    else if k == 2 then TextsSlot(i.extensions)
    else if k == 3 then Some(Bytes(i.aaguid))
    else if k == 4 then (if i.options.Some? then Some(Map(Entries(OptionSlots(i.options.value)))) else None)
    else if k == 6 then (if i.protocols.Some? then Some(Array(Uints(ProtocolNumbers(i.protocols.value)))) else None)
    else if k == 9 then TextsSlot(i.transports)
    else if k == 10 then (if i.algorithms.Some? then Some(Array(AlgorithmsTo(i.algorithms.value))) else None)
    else if k == 12 then BoolSlot(i.forcePinChange)
    else if k == 19 then i.certifications
    else if k == 21 then (if i.vendorCommands.Some? then Some(Array(Uints(i.vendorCommands.value))) else None)
    else if IsNumberKey(k) && k in i.numbers then Some(Int(i.numbers[k]))
    else None
  }

  /** The members in the order the printer pushes them: 1 to 4, the numbers, then 6, 9, 10, 12, 19 and 21. */
  function KeyAt(n: nat): (k: nat)
    requires n < 21
    ensures 1 <= k <= 21
  {
    if n < 5 then n + 1
    else if n < 7 then n + 2
    else if n == 7 then 11
    else if n <= 13 then n + 5
    else if n == 14 then 20
    else if n == 15 then 6
    else if n <= 17 then n - 7
    else if n == 18 then 12
    else if n == 19 then 19
    else 21
  }

  function InfoSlots(i: Info): (s: seq<Slot>)
    ensures |s| == 21
    ensures forall n :: 0 <= n < 21 ==> s[n] == Slot(Int(KeyAt(n)), MemberOf(i, KeyAt(n)))
  {
    seq(21, n requires 0 <= n < 21 => Slot(Int(KeyAt(n)), MemberOf(i, KeyAt(n))))
  }

  function InfoTo(i: Info): Value {
    Map(Entries(InfoSlots(i)))
  }

  /** `to_wire_cbor`. */
  function EncodeInfo(i: Info): Encoded {
    Encode(InfoTo(i))
  }

  /** The same, pushing the members present one by one. */
  method EncodeInfoBytes(i: Info) returns (r: Encoded)
    ensures r == EncodeInfo(i)
  {
    var entries := PushPresent(InfoSlots(i));
    r := EncodeBytes(Map(entries));
  }

  // ---- parsing

  /** `AuthenticatorOptions::from_cbor`: text keys and booleans only, unknown identifiers kept. */
  function AsOptionMap(v: Value, of: Value): Result<map<Name, bool>, MemberError> {
    if v.Map? then OptionsOf(v.entries, map[], of) else Err(TypeMismatch(of))
  }

  function OptionsOf(entries: seq<Entry>, known: map<Name, bool>, of: Value): Result<map<Name, bool>, MemberError>
    decreases |entries|
  {
    if entries == [] then Ok(known)
    else if !entries[0].key.Text? || !entries[0].val.Bool? then Err(TypeMismatch(of))
    else OptionsOf(entries[1..], known[entries[0].key.utf8 := entries[0].val.flag], of)
  }

  function AsProtocols(v: Value, of: Value): Result<seq<Protocol>, MemberError> {
    var ns :- AsUints(v, of);
    ProtocolsOf(ns, of)
  }

  function ProtocolsOf(ns: seq<nat>, of: Value): Result<seq<Protocol>, MemberError> {
    if ns == [] then Ok([]) else if ns[0] >= U32 then Err(Invalid(of)) else
      var rest :- ProtocolsOf(ns[1..], of);
      Ok([ProtocolOf(ns[0])] + rest)
  }

  const I64: int := 0x8000_0000_0000_0000

  /** An `alg` identifier, which must fit 64 signed bits. */
  function AsAlg(v: Value, of: Value): Result<int, MemberError> {
    if !v.Int? then Err(TypeMismatch(of)) else if -I64 <= v.n < I64 then Ok(v.n) else Err(Invalid(of))
  }

  function AlgorithmCheck(key: Value, v: Value): Option<MemberError> {
    if key == TYPE then (if v == PUBLIC_KEY then None else Some(TypeMismatch(TYPE)))
    else if key == ALG then Problem(AsAlg(v, ALG))
    else None
  }

  function AlgorithmFrom(v: Value): Result<int, MemberError> {
    if !v.Map? then Err(NotAMap) else
      var m :- Parse(AlgorithmCheck, v.entries);
      var alg :- Required(m, ALG, AsAlg);
      if TYPE in m then Ok(alg) else Err(Missing(TYPE))
  }

  /** `algorithms_member`. */
  function AsAlgorithms(v: Value, of: Value): Result<seq<int>, MemberError> {
    if v.Array? then AlgorithmsOf(v.items) else Err(TypeMismatch(of))
  }

  function AlgorithmsOf(items: seq<Value>): Result<seq<int>, MemberError> {
    if items == [] then Ok([]) else
      var first :- AlgorithmFrom(items[0]);
      var rest :- AlgorithmsOf(items[1..]);
      Ok([first] + rest)
  }

  function AsMap(v: Value, of: Value): Result<Value, MemberError> {
    if v.Map? then Ok(v) else Err(TypeMismatch(of))
  }

  function InfoCheck(key: Value, v: Value): Option<MemberError> {
    if !key.Int? then None
    else if key.n == 1 || key.n == 2 || key.n == 9 then Problem(AsTexts(v, key))
    else if key.n == 3 then Problem(AsBytes(v, key))
    else if key.n == 4 then Problem(AsOptionMap(v, key))
    else if key.n == 6 then Problem(AsProtocols(v, key))
    else if key.n == 10 then Problem(AsAlgorithms(v, key))
    else if key.n == 12 then Problem(AsBool(v, key))
    else if key.n == 19 then Problem(AsMap(v, key))
    else if key.n == 21 then Problem(AsUints(v, key))
    else if IsNumberKey(key.n) then Problem(AsUint(v, key))
    else None
  }

  function NumbersOf(m: Message): map<nat, nat> {
    map k: nat | 0 <= k < 21 && IsNumberKey(k) && Int(k) in m && AsUint(m[Int(k)], Int(k)).Ok? ::
      AsUint(m[Int(k)], Int(k)).value
  }

  /** `GetInfoResponse::from_cbor`. */
  function InfoFrom(v: Value): Result<Info, MemberError> {
    if !v.Map? then Err(NotAMap) else
      var m :- Parse(InfoCheck, v.entries);
      BuildInfo(m)
  }

  function BuildInfo(m: Message): Result<Info, MemberError> {
    var info :- CollectInfo(m);
    Validated(info)
  }

  /** The members put together, before they are validated. */
  function CollectInfo(m: Message): Result<Info, MemberError> {
    var versions :- Required(m, Int(1), AsTexts);
    var aaguid :- Required(m, Int(3), AsBytes);
    var extensions :- Optional(m, Int(2), AsTexts);
    var options :- Optional(m, Int(4), AsOptionMap);
    var protocols :- Optional(m, Int(6), AsProtocols);
    var transports :- Optional(m, Int(9), AsTexts);
    var algorithms :- Optional(m, Int(10), AsAlgorithms);
    var forcePinChange :- Optional(m, Int(12), AsBool);
    var certifications :- Optional(m, Int(19), AsMap);
    var vendorCommands :- Optional(m, Int(21), AsUints);
    Ok(Info(versions, extensions, aaguid, options, NumbersOf(m), protocols, transports, algorithms, forcePinChange,
            certifications, vendorCommands))
  }

  predicate Repeats<T(==)>(s: seq<T>) {
    exists i, j :: 0 <= i < j < |s| && s[i] == s[j]
  }

  /** A list member that is present must not be empty and must not repeat an element. */
  predicate BadList<T(==)>(list: Option<seq<T>>) {
    list.Some? && (list.value == [] || Repeats(list.value))
  }

  predicate Below(i: Info, k: nat, least: nat) {
    k in i.numbers && i.numbers[k] < least
  }

  /** The first rule of `validate` that is broken, by the key of its member. */
  function Fault(i: Info): Option<nat> {
    if |i.aaguid| != 16 then Some(3)
    else if i.protocols.Some? && (i.protocols.value == [] || Repeats(ProtocolNumbers(i.protocols.value))) then Some(6)
    else if Below(i, 7, 1) then Some(7)
    else if Below(i, 8, 1) then Some(8)
    else if BadList(i.transports) then Some(9)
    else if BadList(i.algorithms) then Some(10)
    else if Below(i, 11, 1024) then Some(11)
    else if Below(i, 15, 32) then Some(15)
    else if Below(i, 17, 1) then Some(17)
    else None
  }

  function Validated(i: Info): Result<Info, MemberError> {
    match Fault(i)
    case Some(k) => Err(Invalid(Int(k)))
    case None => Ok(i)
  }
}
