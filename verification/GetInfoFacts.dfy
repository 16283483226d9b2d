/** The getInfo response goes through the codec and comes back, or is refused for the rule it breaks. */
module GetInfoFacts {
  import opened Wrappers
  import opened ByteOrder
  import opened Utf8
  import opened Cbor
  import opened CborDecoder
  import opened CborStrict
  import opened CborTheorems
  import opened Members
  import opened Credentials
  import opened GetAssertion
  import opened GetInfo

  /** What the source's types guarantee, and that the uninterpreted certifications are sound CBOR. */
  ghost predicate TypedInfo(i: Info) {
    && TypedTexts(Some(i.versions)) && TypedTexts(i.extensions) && |i.aaguid| < U64 && TypedOptions(i.options)
    && (forall k :: k in i.numbers ==> IsNumberKey(k) && i.numbers[k] < U64)
    && TypedProtocols(i.protocols) && TypedTexts(i.transports) && TypedAlgorithms(i.algorithms)
    && (i.certifications.Some? ==> i.certifications.value.Map? && Sound(i.certifications.value, 1))
    && (i.vendorCommands.Some? ==>
          |i.vendorCommands.value| < U64 && forall n :: 0 <= n < |i.vendorCommands.value| ==>
            i.vendorCommands.value[n] < U64)
  }

  ghost predicate TypedOptions(o: Option<map<Name, bool>>) {
    o.Some? ==> |o.value| < U64 && forall k :: k in o.value ==> |k| < U64 && ValidUtf8(k)
  }

  ghost predicate TypedProtocols(ps: Option<seq<Protocol>>) {
    ps.Some? ==> |ps.value| < U64 && forall n :: 0 <= n < |ps.value| ==> ps.value[n].ToU32() < U32
  }

  ghost predicate TypedAlgorithms(algs: Option<seq<int>>) {
    algs.Some? ==> |algs.value| < U64 && forall n :: 0 <= n < |algs.value| ==> -I64 <= algs.value[n] < I64
  }

  /** Protocol selectors by their number. */
  function ProtocolsNormal(ps: seq<Protocol>): (r: seq<Protocol>)
    ensures |r| == |ps| && forall n :: 0 <= n < |ps| ==> r[n] == ProtocolOf(ps[n].ToU32())
  {
    if ps == [] then [] else [ProtocolOf(ps[0].ToU32())] + ProtocolsNormal(ps[1..])
  }

  /** The response as it comes back. */
  function NormalInfo(i: Info): Info {
    i.(protocols := if i.protocols.Some? then Some(ProtocolsNormal(i.protocols.value)) else None,
       certifications := CanonOpt(i.certifications))
  }

  // ---- options

  lemma {:induction false} TextInjective(s: seq<byte>, t: seq<byte>)
    requires |s| < U64 && |t| < U64 && Enc(Text(s)) == Enc(Text(t))
    ensures s == t
  {
    var b, h, g := Enc(Text(s)), Head(3, |s|), Head(3, |t|);
    assert b[0..|h|] == h && b[0..|g|] == g;
    HeadRead(b, 0, 3, |s|, 0, true);
    HeadRead(b, 0, 3, |t|, 0, true);
    assert b[|h|..] == s && b[|g|..] == t;
  }

  /** Every slot is an option with its value. */
  lemma {:induction false} OptionSlotAt(o: map<Name, bool>, n: nat)
    requires n < |OptionSlots(o)|
    ensures var s := OptionSlots(o)[n];
            s.key.Text? && s.key.utf8 in o && s.val == Some(Bool(o[s.key.utf8]))
    decreases n
  {
    if n > 0 {
      var least := LeastName(o.Keys);
      OptionSlotAt(o - {least}, n - 1);
    }
  }

  /** Every option has a slot. */
  lemma {:induction false} OptionIndex(o: map<Name, bool>, k: Name) returns (n: nat)
    requires k in o
    ensures n < |OptionSlots(o)| && OptionSlots(o)[n].key == Text(k)
    decreases |o|
  {
    var least := LeastName(o.Keys);
    if k == least {
      n := 0;
    } else {
      var rest := o - {least};
      assert o.Keys == rest.Keys + {least};
      n := OptionIndex(rest, k);
      n := n + 1;
    }
  }

  lemma {:induction false} OptionsDiffer(o: map<Name, bool>, m: nat, n: nat)
    requires m < n < |OptionSlots(o)|
    ensures OptionSlots(o)[m].key != OptionSlots(o)[n].key
    decreases m
  {
    var rest := o - {LeastName(o.Keys)};
    if m == 0 { OptionSlotAt(rest, n - 1); } else { OptionsDiffer(rest, m - 1, n - 1); }
  }

  lemma {:induction false} OptionSlotsDistinct(o: map<Name, bool>)
    requires TypedOptions(Some(o))
    ensures DistinctSlots(OptionSlots(o)) && PlainKeys(OptionSlots(o))
  {
    var s := OptionSlots(o);
    forall n | 0 <= n < |s| ensures s[n].key.Text? && |s[n].key.utf8| < U64 { OptionSlotAt(o, n); }
    forall m, n | 0 <= m < n < |s| ensures Enc(s[m].key) != Enc(s[n].key) {
      OptionsDiffer(o, m, n);
      if Enc(s[m].key) == Enc(s[n].key) { TextInjective(s[m].key.utf8, s[n].key.utf8); }
    }
  }

  /** Entry `j` of the canonical options map is an option with its value. */
  lemma {:induction false} CanonOptionAt(o: map<Name, bool>, j: nat)
    requires j < |Canon(Map(Entries(OptionSlots(o)))).entries|
    ensures IsOption(o, Canon(Map(Entries(OptionSlots(o)))).entries[j])
  {
    var s := OptionSlots(o);
    var i := CanonOrigin(Entries(s), j);
    var n := EntryOrigin(s, i);
    OptionSlotAt(o, n);
  }

  ghost predicate IsOption(o: map<Name, bool>, e: Entry) {
    e.key.Text? && e.key.utf8 in o && e.val == Bool(o[e.key.utf8])
  }

  lemma {:induction false} CanonOptionIndex(o: map<Name, bool>, k: Name) returns (j: nat)
    requires k in o
    ensures j < |Canon(Map(Entries(OptionSlots(o)))).entries|
            && Canon(Map(Entries(OptionSlots(o)))).entries[j].key == Text(k)
  {
    var s := OptionSlots(o);
    var n := OptionIndex(o, k);
    OptionSlotAt(o, n);
    var i := EntryTarget(s, n);
    j := CanonTarget(Entries(s), i);
  }

  /** Inserting options of `o` one by one adds just those. */
  lemma {:induction false} OptionsInserted(o: map<Name, bool>, entries: seq<Entry>, known: map<Name, bool>, of: Value)
    requires forall i :: 0 <= i < |entries| ==> IsOption(o, entries[i])
    requires forall k :: k in known ==> k in o && known[k] == o[k]
    ensures OptionsOf(entries, known, of).Ok?
    ensures var r := OptionsOf(entries, known, of).value;
            && (forall k :: k in r ==> k in o && r[k] == o[k]) && (forall k :: k in known ==> k in r)
            && forall i :: 0 <= i < |entries| ==> IsOption(o, entries[i]) && entries[i].key.utf8 in r
    decreases |entries|
  {
    if entries != [] {
      var rest := entries[1..];
      OptionsInserted(o, rest, known[entries[0].key.utf8 := entries[0].val.flag], of);
      forall i | 1 <= i < |entries| ensures entries[i] == rest[i - 1] {}
    }
  }

  lemma {:induction false} OptionMapBack(o: map<Name, bool>, of: Value)
    ensures AsOptionMap(Canon(Map(Entries(OptionSlots(o)))), of) == Ok(o)
  {
    var c := Canon(Map(Entries(OptionSlots(o)))).entries;
    forall j | 0 <= j < |c| ensures IsOption(o, c[j]) { CanonOptionAt(o, j); }
    OptionsInserted(o, c, map[], of);
    var r := OptionsOf(c, map[], of).value;
    forall k | k in o ensures k in r {
      var j := CanonOptionIndex(o, k);
    }
    assert r == o;
  }

  lemma {:induction false} OptionMapSound(o: map<Name, bool>, depth: nat)
    requires TypedOptions(Some(o)) && depth < MAX_DEPTH
    ensures Sound(Map(Entries(OptionSlots(o))), depth)
  {
    var s := OptionSlots(o);
    OptionSlotsDistinct(o);
    forall n | 0 <= n < |s| ensures SoundSlot(s[n], depth + 1) { OptionSlotSound(o, n, depth + 1); }
    SlotsSound(s, depth);
  }

  lemma {:induction false} OptionSlotSound(o: map<Name, bool>, n: nat, depth: nat)
    requires TypedOptions(Some(o)) && n < |OptionSlots(o)|
    ensures SoundSlot(OptionSlots(o)[n], depth)
  {
    OptionSlotAt(o, n);
  }

  // ---- algorithms and protocols

  lemma {:induction false} AlgorithmSimple(alg: int)
    requires -I64 <= alg < I64
    ensures SimpleSlots(AlgorithmSlots(alg)) && Acceptable(AlgorithmCheck, AlgorithmSlots(alg))
  {
    assert |TYPE.utf8| == 4 && |ALG.utf8| == 3;
  }

  lemma {:induction false} AlgorithmBack(alg: int)
    requires -I64 <= alg < I64
    ensures AlgorithmFrom(Canon(Map(Entries(AlgorithmSlots(alg))))) == Ok(alg)
  {
    var s := AlgorithmSlots(alg);
    AlgorithmSimple(alg);
    SimpleDistinct(s);
    CanonReads(AlgorithmCheck, s);
    AlgorithmMembers(alg, Parse(AlgorithmCheck, Canon(Map(Entries(s))).entries).value);
  }

  lemma {:induction false} AlgorithmMembers(alg: int, m: Message)
    requires -I64 <= alg < I64 && HoldsSlots(m, AlgorithmSlots(alg))
    ensures TYPE in m && Required(m, ALG, AsAlg) == Ok(alg)
  {
    var s := AlgorithmSlots(alg);
    RequiredBack(m, s, 1, AsAlg, alg);
    assert Get(m, s[0].key) == CanonOpt(s[0].val);
  }

  lemma {:induction false} AlgorithmsBack(algs: seq<int>, of: Value)
    requires TypedAlgorithms(Some(algs))
    ensures AsAlgorithms(Canon(Array(AlgorithmsTo(algs))), of) == Ok(algs)
  {
    AlgorithmsParsed(algs, CanonItems(AlgorithmsTo(algs)));
  }

  lemma {:induction false} AlgorithmsParsed(algs: seq<int>, items: seq<Value>)
    requires forall n :: 0 <= n < |algs| ==> -I64 <= algs[n] < I64
    requires |items| == |algs| && forall n :: 0 <= n < |algs| ==>
               items[n] == Canon(Map(Entries(AlgorithmSlots(algs[n]))))
    ensures AlgorithmsOf(items) == Ok(algs)
  {
    if algs != [] {
      AlgorithmBack(algs[0]);
      AlgorithmsParsed(algs[1..], items[1..]);
      assert [algs[0]] + algs[1..] == algs;
    }
  }

  lemma {:induction false} AlgorithmSound(alg: int, depth: nat)
    requires -I64 <= alg < I64 && depth < MAX_DEPTH
    ensures Sound(Map(Entries(AlgorithmSlots(alg))), depth)
  {
    var s := AlgorithmSlots(alg);
    AlgorithmSimple(alg);
    forall i | 0 <= i < |s| ensures Sound(s[i].val.value, depth + 1) { AlgorithmValueSound(alg, depth + 1, i); }
    SimpleSlotsSound(s, depth);
  }

  lemma {:induction false} AlgorithmValueSound(alg: int, depth: nat, i: nat)
    requires -I64 <= alg < I64 && i < 2
    ensures AlgorithmSlots(alg)[i].val.Some? && Sound(AlgorithmSlots(alg)[i].val.value, depth)
  {
    if i == 0 { PublicKeySound(depth); }
  }

  lemma {:induction false} AlgorithmsSound(algs: seq<int>, depth: nat)
    requires TypedAlgorithms(Some(algs)) && depth < MAX_DEPTH - 1
    ensures Sound(Array(AlgorithmsTo(algs)), depth)
  {
    forall n | 0 <= n < |algs| ensures Sound(AlgorithmsTo(algs)[n], depth + 1) {
      AlgorithmSound(algs[n], depth + 1);
    }
    ItemsSound(AlgorithmsTo(algs), depth);
  }

  lemma {:induction false} ProtocolsBack(ps: seq<Protocol>, of: Value)
    requires TypedProtocols(Some(ps))
    ensures AsProtocols(Canon(Array(Uints(ProtocolNumbers(ps)))), of) == Ok(ProtocolsNormal(ps))
  {
    UintsBack(ProtocolNumbers(ps), of);
    ProtocolsParsed(ps, of);
  }

  lemma {:induction false} ProtocolsParsed(ps: seq<Protocol>, of: Value)
    requires forall n :: 0 <= n < |ps| ==> ps[n].ToU32() < U32
    ensures ProtocolsOf(ProtocolNumbers(ps), of) == Ok(ProtocolsNormal(ps))
  {
    if ps != [] {
      ProtocolsParsed(ps[1..], of);
      assert ProtocolNumbers(ps)[1..] == ProtocolNumbers(ps[1..]);
    }
  }

  // ---- the whole response

  /** Where the printer puts member `k`. */
  function IndexOf(k: nat): (n: nat)
    requires 1 <= k <= 21
    ensures n < 21 && KeyAt(n) == k
  {
    if k <= 5 then k - 1
    else if k == 6 then 15
    else if k <= 8 then k - 2
    else if k <= 10 then k + 7
    else if k == 11 then 7
    else if k == 12 then 18
    else if k <= 18 then k - 5
    else if k == 19 then 19
    else if k == 20 then 14
    else 20
  }

  lemma {:induction false} InfoSimple(i: Info)
    ensures SimpleSlots(InfoSlots(i))
  {
    var s := InfoSlots(i);
    forall m, n | 0 <= m < n < 21 ensures s[m].key != s[n].key {
      assert KeyAt(m) != KeyAt(n);
    }
  }

  lemma {:induction false} MemberAccepted(i: Info, k: nat)
    requires TypedInfo(i) && 1 <= k <= 21 && MemberOf(i, k).Some?
    ensures InfoCheck(Int(k), Canon(MemberOf(i, k).value)).None?
  {
    if k == 1 { TextsBack(i.versions, Int(1)); }
    else if k == 2 { ExtensionsMember(i); }
    else if k == 4 { OptionsMember(i); }
    else if k == 6 { ProtocolsMember(i); }
    else if k == 9 { TransportsMember(i); }
    else if k == 10 { AlgorithmsMember(i); }
    else if k == 21 { CommandsMember(i); }
  }

  lemma {:induction false} MemberSound(i: Info, k: nat)
    requires TypedInfo(i) && 1 <= k <= 21 && MemberOf(i, k).Some?
    ensures Sound(MemberOf(i, k).value, 1)
  {
    if k == 1 { TextsSound(i.versions, 1); }
    else if k == 2 { TextsSound(i.extensions.value, 1); }
    else if k == 4 { OptionMapSound(i.options.value, 1); }
    else if k == 6 { UintsSound(ProtocolNumbers(i.protocols.value), 1); }
    else if k == 9 { TextsSound(i.transports.value, 1); }
    else if k == 10 { AlgorithmsSound(i.algorithms.value, 1); }
    else if k == 21 { UintsSound(i.vendorCommands.value, 1); }
  }

  lemma {:induction false} InfoSound(i: Info)
    requires TypedInfo(i)
    ensures Sound(InfoTo(i), 0)
  {
    var s := InfoSlots(i);
    InfoSimple(i);
    forall n | 0 <= n < 21 && s[n].val.Some? ensures Sound(s[n].val.value, 1) {
      MemberSound(i, KeyAt(n));
    }
    SimpleSlotsSound(s, 0);
  }

  lemma {:induction false} InfoAccepted(i: Info)
    requires TypedInfo(i)
    ensures Acceptable(InfoCheck, InfoSlots(i))
  {
    var s := InfoSlots(i);
    forall n | 0 <= n < 21 && s[n].val.Some? ensures InfoCheck(s[n].key, Canon(s[n].val.value)).None? {
      MemberAccepted(i, KeyAt(n));
    }
  }

  /** What is read for member `k`. */
  lemma {:induction false} OneRead<T>(i: Info, m: Message, k: nat, read: (Value, Value) -> Result<T, MemberError>,
                                      x: Option<T>)
    requires HoldsSlots(m, InfoSlots(i)) && 1 <= k <= 21 && (MemberOf(i, k).Some? <==> x.Some?)
    requires x.Some? ==> read(Canon(MemberOf(i, k).value), Int(k)) == Ok(x.value)
    ensures Optional(m, Int(k), read) == Ok(x)
    ensures x.Some? ==> Required(m, Int(k), read) == Ok(x.value)
  {
    OptionalBack(m, InfoSlots(i), IndexOf(k), read, x);
  }

  lemma {:induction false} VersionsRead(i: Info, m: Message)
    requires TypedInfo(i) && HoldsSlots(m, InfoSlots(i))
    ensures Required(m, Int(1), AsTexts) == Ok(i.versions)
  {
    TextsBack(i.versions, Int(1));
    OneRead(i, m, 1, AsTexts, Some(i.versions));
  }

  lemma {:induction false} ExtensionsRead(i: Info, m: Message)
    requires TypedInfo(i) && HoldsSlots(m, InfoSlots(i))
    ensures Optional(m, Int(2), AsTexts) == Ok(i.extensions)
  {
    ExtensionsMember(i);
    OneRead(i, m, 2, AsTexts, i.extensions);
  }

  lemma {:induction false} ExtensionsMember(i: Info)
    requires TypedInfo(i)
    ensures i.extensions.Some? ==> AsTexts(Canon(MemberOf(i, 2).value), Int(2)) == Ok(i.extensions.value)
  {
    if i.extensions.Some? { TextsBack(i.extensions.value, Int(2)); }
  }

  lemma {:induction false} TransportsRead(i: Info, m: Message)
    requires TypedInfo(i) && HoldsSlots(m, InfoSlots(i))
    ensures Optional(m, Int(9), AsTexts) == Ok(i.transports)
  {
    TransportsMember(i);
    OneRead(i, m, 9, AsTexts, i.transports);
  }

  lemma {:induction false} TransportsMember(i: Info)
    requires TypedInfo(i)
    ensures i.transports.Some? ==> AsTexts(Canon(MemberOf(i, 9).value), Int(9)) == Ok(i.transports.value)
  {
    if i.transports.Some? { TextsBack(i.transports.value, Int(9)); }
  }

  lemma {:induction false} CommandsRead(i: Info, m: Message)
    requires TypedInfo(i) && HoldsSlots(m, InfoSlots(i))
    ensures Optional(m, Int(21), AsUints) == Ok(i.vendorCommands)
  {
    CommandsMember(i);
    OneRead(i, m, 21, AsUints, i.vendorCommands);
  }

  lemma {:induction false} CommandsMember(i: Info)
    requires TypedInfo(i)
    ensures i.vendorCommands.Some? ==> AsUints(Canon(MemberOf(i, 21).value), Int(21)) == Ok(i.vendorCommands.value)
  {
    if i.vendorCommands.Some? {
      assert MemberOf(i, 21) == Some(Array(Uints(i.vendorCommands.value)));
      UintsBack(i.vendorCommands.value, Int(21));
    }
  }

  lemma {:induction false} OptionsRead(i: Info, m: Message)
    requires TypedInfo(i) && HoldsSlots(m, InfoSlots(i))
    ensures Optional(m, Int(4), AsOptionMap) == Ok(i.options)
  {
    OptionsMember(i);
    OneRead(i, m, 4, AsOptionMap, i.options);
  }

  lemma {:induction false} OptionsMember(i: Info)
    requires TypedInfo(i)
    ensures i.options.Some? ==> AsOptionMap(Canon(MemberOf(i, 4).value), Int(4)) == Ok(i.options.value)
  {
    if i.options.Some? { OptionMapBack(i.options.value, Int(4)); }
  }

  lemma {:induction false} ProtocolsRead(i: Info, m: Message)
    requires TypedInfo(i) && HoldsSlots(m, InfoSlots(i))
    ensures Optional(m, Int(6), AsProtocols) == Ok(NormalInfo(i).protocols)
  {
    ProtocolsMember(i);
    OneRead(i, m, 6, AsProtocols, NormalInfo(i).protocols);
  }

  lemma {:induction false} ProtocolsMember(i: Info)
    requires TypedInfo(i)
    ensures NormalInfo(i).protocols.Some? ==>
              AsProtocols(Canon(MemberOf(i, 6).value), Int(6)) == Ok(NormalInfo(i).protocols.value)
  {
    if i.protocols.Some? {
      var ps, v := i.protocols.value, MemberOf(i, 6).value;
      assert v == Array(Uints(ProtocolNumbers(ps)));
      ProtocolsBack(ps, Int(6));
    }
  }

  lemma {:induction false} AlgorithmsRead(i: Info, m: Message)
    requires TypedInfo(i) && HoldsSlots(m, InfoSlots(i))
    ensures Optional(m, Int(10), AsAlgorithms) == Ok(i.algorithms)
  {
    AlgorithmsMember(i);
    OneRead(i, m, 10, AsAlgorithms, i.algorithms);
  }

  lemma {:induction false} AlgorithmsMember(i: Info)
    requires TypedInfo(i)
    ensures i.algorithms.Some? ==> AsAlgorithms(Canon(MemberOf(i, 10).value), Int(10)) == Ok(i.algorithms.value)
  {
    if i.algorithms.Some? {
      var algs, v := i.algorithms.value, MemberOf(i, 10).value;
      assert v == Array(AlgorithmsTo(algs));
      AlgorithmsBack(algs, Int(10));
    }
  }

  lemma {:induction false} ScalarsRead(i: Info, m: Message)
    requires TypedInfo(i) && HoldsSlots(m, InfoSlots(i))
    ensures Required(m, Int(3), AsBytes) == Ok(i.aaguid) && Optional(m, Int(12), AsBool) == Ok(i.forcePinChange)
    ensures Optional(m, Int(19), AsMap) == Ok(NormalInfo(i).certifications)
  {
    OneRead(i, m, 3, AsBytes, Some(i.aaguid));
    OneRead(i, m, 12, AsBool, i.forcePinChange);
    OneRead(i, m, 19, AsMap, NormalInfo(i).certifications);
  }

  lemma {:induction false} NumberRead(i: Info, m: Message, k: nat)
    requires HoldsSlots(m, InfoSlots(i)) && IsNumberKey(k)
    ensures Get(m, Int(k)) == if k in i.numbers then Some(Int(i.numbers[k])) else None
  {
    var n := IndexOf(k);
    assert Get(m, InfoSlots(i)[n].key) == CanonOpt(InfoSlots(i)[n].val);
  }

  lemma {:induction false} NumbersRead(i: Info, m: Message)
    requires TypedInfo(i) && HoldsSlots(m, InfoSlots(i))
    ensures NumbersOf(m) == i.numbers
  {
    var r := NumbersOf(m);
    forall k: nat ensures (k in r <==> k in i.numbers) && (k in r ==> r[k] == i.numbers[k]) {
      if IsNumberKey(k) { NumberRead(i, m, k); }
    }
  }

  lemma {:induction false} InfoBuilt(i: Info, m: Message)
    requires TypedInfo(i) && HoldsSlots(m, InfoSlots(i))
    ensures BuildInfo(m) == Validated(NormalInfo(i))
  {
    VersionsRead(i, m);
    ExtensionsRead(i, m);
    TransportsRead(i, m);
    CommandsRead(i, m);
    OptionsRead(i, m);
    ProtocolsRead(i, m);
    AlgorithmsRead(i, m);
    ScalarsRead(i, m);
    NumbersRead(i, m);
  }

  lemma {:induction false} NumbersNormal(ps: seq<Protocol>)
    ensures ProtocolNumbers(ProtocolsNormal(ps)) == ProtocolNumbers(ps)
  {
    var ns, ms := ProtocolNumbers(ProtocolsNormal(ps)), ProtocolNumbers(ps);
    forall n | 0 <= n < |ps| ensures ns[n] == ms[n] {
      assert ProtocolOf(ps[n].ToU32()).ToU32() == ps[n].ToU32();
    }
  }

  lemma {:induction false} SameFault(i: Info)
    ensures Fault(NormalInfo(i)) == Fault(i)
  {
    if i.protocols.Some? {
      NumbersNormal(i.protocols.value);
    }
  }

  /**
   Every typed response encodes; strict decoding and parsing give it back with protocol selectors
   and certifications in normal form, or report the first rule that it breaks.
   */
  lemma {:induction false} InfoRoundTrip(i: Info)
    requires TypedInfo(i) && |Enc(InfoTo(i))| < U64
    ensures EncodeInfo(i).Ok?
    ensures var d := Decode(EncodeInfo(i).value, Strict);
            && d.Ok? && d.value.Map?
            && InfoFrom(d.value) == match Fault(i)
                                    case None => Ok(NormalInfo(i))
                                    case Some(k) => Err(Invalid(Int(k)))
  {
    var v := InfoTo(i);
    InfoSound(i);
    EncodeCharacterised(v);
    RoundTrip(v, Strict);
    InfoSimple(i);
    SimpleDistinct(InfoSlots(i));
    InfoAccepted(i);
    CanonReads(InfoCheck, InfoSlots(i));
    InfoBuilt(i, Parse(InfoCheck, Canon(v).entries).value);
    SameFault(i);
  }

  // ---- the rules of the table of section 6.4

  /** Present, a list has elements, and no two are the same. */
  ghost predicate NonEmptyDistinct<T>(list: Option<seq<T>>) {
    list.Some? ==> |list.value| >= 1 && forall a, b :: 0 <= a < b < |list.value| ==> list.value[a] != list.value[b]
  }

  ghost predicate AtLeast(i: Info, k: nat, least: nat) {
    k in i.numbers ==> i.numbers[k] >= least
  }

  function Selectors(ps: Option<seq<Protocol>>): Option<seq<nat>> {
    if ps.Some? then Some(ProtocolNumbers(ps.value)) else None
  }

  /** What the member numbered `k` must satisfy; of the others nothing is asked. */
  ghost predicate RuleKept(i: Info, k: nat) {
    match k
    case 0x03 => |i.aaguid| == 16
    case 0x06 => NonEmptyDistinct(Selectors(i.protocols))
    case 0x07 => AtLeast(i, 0x07, 1)
    case 0x08 => AtLeast(i, 0x08, 1)
    case 0x09 => NonEmptyDistinct(i.transports)
    case 0x0A => NonEmptyDistinct(i.algorithms)
    case 0x0B => AtLeast(i, 0x0B, 1024)
    case 0x0F => AtLeast(i, 0x0F, 32)
    case 0x11 => AtLeast(i, 0x11, 1)
    case _ => true
  }

  /** The member reported is the first whose rule is broken; with none broken, nothing is. */
  lemma {:induction false} FaultExact(i: Info)
    ensures Fault(i).None? <==> forall k: nat :: RuleKept(i, k)
    ensures forall k: nat :: Fault(i) == Some(k) <==> !RuleKept(i, k) && forall j: nat :: j < k ==> RuleKept(i, j)
  {
    ListsJudged(i);
    if Fault(i).None? {
      assert forall k: nat :: RuleKept(i, k);
    } else {
      var f := Fault(i).value;
      assert !RuleKept(i, f) && forall j: nat :: j < f ==> RuleKept(i, j);
    }
  }

  lemma {:induction false} ListsJudged(i: Info)
    ensures NonEmptyDistinct(Selectors(i.protocols)) <==>
            !(i.protocols.Some? && (i.protocols.value == [] || Repeats(ProtocolNumbers(i.protocols.value))))
    ensures NonEmptyDistinct(i.transports) <==> !BadList(i.transports)
    ensures NonEmptyDistinct(i.algorithms) <==> !BadList(i.algorithms)
  {
  }

  /** Of the typed responses exactly those that keep every rule come through the wire. */
  lemma {:induction false} InfoAcceptedExactly(i: Info)
    requires TypedInfo(i) && |Enc(InfoTo(i))| < U64
    ensures EncodeInfo(i).Ok? && Decode(EncodeInfo(i).value, Strict).Ok?
    ensures InfoFrom(Decode(EncodeInfo(i).value, Strict).value).Ok? <==> forall k: nat :: RuleKept(i, k)
  {
    InfoRoundTrip(i);
    FaultExact(i);
  }

  lemma {:induction false} InfoOrderIgnored(es: seq<Entry>, fs: seq<Entry>)
    requires multiset(es) == multiset(fs) && DistinctValues(es) && DistinctValues(fs)
    ensures InfoFrom(Map(es)).Ok? || InfoFrom(Map(fs)).Ok? ==> InfoFrom(Map(es)) == InfoFrom(Map(fs))
  {
    OrderIgnored(InfoCheck, es, fs);
  }
}
