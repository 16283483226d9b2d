/**
 CBOR maps as message bodies: members looked up by key. Reading stops at the first member of the
 wrong type, a repeated key keeps its last value, and unknown keys are skipped.
 */
module Members {
  import opened Wrappers
  import opened ByteOrder
  import opened KeyOrder
  import opened Utf8
  import opened Cbor
  import opened CborEncoderFacts

  /** What is wrong with a message, and the key of the member concerned. */
  datatype MemberError = NotAMap | TypeMismatch(of: Value) | Missing(of: Value) | Invalid(of: Value)

  type Message = map<Value, Value>

  /** What is wrong with a member, if anything. */
  type Check = (Value, Value) -> Option<MemberError>

  function Parse(check: Check, entries: seq<Entry>): Result<Message, MemberError> {
    ParseOnto(check, map[], entries)
  }

  function ParseOnto(check: Check, m: Message, entries: seq<Entry>): Result<Message, MemberError>
    decreases |entries|
  {
    if entries == [] then Ok(m) else
      match check(entries[0].key, entries[0].val)
      case Some(e) => Err(e)
      case None => ParseOnto(check, m[entries[0].key := entries[0].val], entries[1..])
  }

  /** The loop every `from_cbor` runs. */
  method ReadMembers(check: Check, entries: seq<Entry>) returns (r: Result<Message, MemberError>)
    ensures r == Parse(check, entries)
  {
    var m: Message := map[];
    for i := 0 to |entries|
      invariant Parse(check, entries) == ParseOnto(check, m, entries[i..])
    {
      assert entries[i..][1..] == entries[i + 1..];
      var wrong := check(entries[i].key, entries[i].val);
      if wrong.Some? {
        return Err(wrong.value);
      }
      m := m[entries[i].key := entries[i].val];
    }
    r := Ok(m);
  }

  function Get(m: Message, key: Value): Option<Value> {
    if key in m then Some(m[key]) else None
  }

  // ---- which members a reading holds

  ghost predicate DistinctValues(entries: seq<Entry>) {
    forall i, j :: 0 <= i < j < |entries| ==> entries[i].key != entries[j].key
  }

  /** `m` holds exactly the entries, on top of `before`. */
  ghost predicate HoldsEntries(m: Message, before: Message, entries: seq<Entry>) {
    && (forall i :: 0 <= i < |entries| ==> Get(m, entries[i].key) == Some(entries[i].val))
    && forall k: Value :: (forall i :: 0 <= i < |entries| ==> entries[i].key != k) ==> Get(m, k) == Get(before, k)
  }

  lemma {:induction false} ParseHolds(check: Check, m: Message, entries: seq<Entry>)
    ensures ParseOnto(check, m, entries).Ok? <==>
            forall i :: 0 <= i < |entries| ==> check(entries[i].key, entries[i].val).None?
    ensures DistinctValues(entries) && ParseOnto(check, m, entries).Ok? ==>
              HoldsEntries(ParseOnto(check, m, entries).value, m, entries)
    decreases |entries|
  {
    if entries != [] {
      var first, rest := entries[0], entries[1..];
      var next := m[first.key := first.val];
      ParseHolds(check, next, rest);
      assert forall i :: 1 <= i < |entries| ==> entries[i] == rest[i - 1];
      if DistinctValues(entries) && ParseOnto(check, m, entries).Ok? {
        HoldsStep(ParseOnto(check, next, rest).value, m, entries);
      }
    }
  }

  lemma {:induction false} HoldsStep(r: Message, m: Message, entries: seq<Entry>)
    requires entries != [] && DistinctValues(entries)
    requires HoldsEntries(r, m[entries[0].key := entries[0].val], entries[1..])
    ensures HoldsEntries(r, m, entries)
  {
    var rest := entries[1..];
    forall i | 0 <= i < |entries| ensures Get(r, entries[i].key) == Some(entries[i].val) {
      if i > 0 { assert rest[i - 1] == entries[i]; }
    }
    forall k: Value | forall i :: 0 <= i < |entries| ==> entries[i].key != k ensures Get(r, k) == Get(m, k) {
      assert entries[0].key != k;
      forall i | 0 <= i < |rest| ensures rest[i].key != k { assert rest[i] == entries[i + 1]; }
    }
  }

  lemma {:induction false} SameHoldings(m: Message, n: Message, es: seq<Entry>, fs: seq<Entry>)
    requires HoldsEntries(m, map[], es) && HoldsEntries(n, map[], fs) && multiset(es) == multiset(fs)
    ensures m == n
  {
    forall k: Value ensures Get(m, k) == Get(n, k) {
      forall i | 0 <= i < |es| ensures es[i] in fs { assert es[i] in multiset(fs); }
      forall j | 0 <= j < |fs| ensures fs[j] in es { assert fs[j] in multiset(es); }
    }
    forall k: Value ensures k in m <==> k in n {
      assert Get(m, k) == Get(n, k);
    }
    forall k: Value | k in m ensures m[k] == n[k] {
      assert Get(m, k) == Get(n, k);
    }
  }

  /** A message with distinct keys reads the same in any order of its entries. */
  lemma {:induction false} OrderIgnored(check: Check, es: seq<Entry>, fs: seq<Entry>)
    requires multiset(es) == multiset(fs) && DistinctValues(es) && DistinctValues(fs)
    ensures Parse(check, es).Ok? <==> Parse(check, fs).Ok?
    ensures Parse(check, es).Ok? ==> Parse(check, es) == Parse(check, fs)
  {
    ParseHolds(check, map[], es);
    ParseHolds(check, map[], fs);
    forall i | 0 <= i < |es| ensures exists j :: 0 <= j < |fs| && fs[j] == es[i] {
      assert es[i] in multiset(fs);
    }
    forall j | 0 <= j < |fs| ensures exists i :: 0 <= i < |es| && es[i] == fs[j] {
      assert fs[j] in multiset(es);
    }
    if Parse(check, es).Ok? {
      SameHoldings(Parse(check, es).value, Parse(check, fs).value, es, fs);
    }
  }

  // ---- writing a message and reading its canonical form

  /** A member that may be left out. */
  datatype Slot = Slot(key: Value, val: Option<Value>)

  /** The entries a printer pushes: the members present, in order. */
  function Entries(slots: seq<Slot>): seq<Entry> {
    if slots == [] then [] else
      (if slots[0].val.Some? then [Entry(slots[0].key, slots[0].val.value)] else []) + Entries(slots[1..])
  }

  /** The same, pushed one by one. */
  method PushPresent(slots: seq<Slot>) returns (entries: seq<Entry>)
    ensures entries == Entries(slots)
  {
    entries := [];
    for i := 0 to |slots|
      invariant entries + Entries(slots[i..]) == Entries(slots)
    {
      assert slots[i..][1..] == slots[i + 1..];
      if slots[i].val.Some? {
        entries := entries + [Entry(slots[i].key, slots[i].val.value)];
      }
    }
  }

  function CanonOpt(v: Option<Value>): Option<Value> {
    match v
    case Some(w) => Some(Canon(w))
    case None => None
  }

  ghost predicate DistinctSlots(slots: seq<Slot>) {
    forall i, j :: 0 <= i < j < |slots| ==> Enc(slots[i].key) != Enc(slots[j].key)
  }

  /** A member present that the printer writes is one the parser accepts in canonical form. */
  ghost predicate Acceptable(check: Check, slots: seq<Slot>) {
    forall i :: 0 <= i < |slots| && slots[i].val.Some? ==> check(slots[i].key, Canon(slots[i].val.value)).None?
  }

  /** Every slot's member is there, canonicalised, and no other. */
  ghost predicate HoldsSlots(m: Message, slots: seq<Slot>) {
    forall i :: 0 <= i < |slots| ==> Get(m, slots[i].key) == CanonOpt(slots[i].val)
  }

  ghost predicate OnlySlots(m: Message, slots: seq<Slot>) {
    forall k :: k in m ==> exists i :: 0 <= i < |slots| && slots[i].key == k
  }

  ghost predicate PlainKeys(slots: seq<Slot>) {
    forall i :: 0 <= i < |slots| ==> slots[i].key.Int? || slots[i].key.Text?
  }

  lemma {:induction false} EntryOrigin(slots: seq<Slot>, i: nat) returns (j: nat)
    requires i < |Entries(slots)|
    ensures j < |slots| && slots[j].val.Some? && Entries(slots)[i] == Entry(slots[j].key, slots[j].val.value)
  {
    var n := if slots[0].val.Some? then 1 else 0;
    if i < n {
      j := 0;
    } else {
      var k := EntryOrigin(slots[1..], i - n);
      j := k + 1;
    }
  }

  lemma {:induction false} EntryTarget(slots: seq<Slot>, j: nat) returns (i: nat)
    requires j < |slots| && slots[j].val.Some?
    ensures i < |Entries(slots)| && Entries(slots)[i] == Entry(slots[j].key, slots[j].val.value)
  {
    var n := if slots[0].val.Some? then 1 else 0;
    if j == 0 {
      i := 0;
    } else {
      var k := EntryTarget(slots[1..], j - 1);
      i := k + n;
    }
  }

  lemma {:induction false} EntriesDistinct(slots: seq<Slot>)
    requires DistinctSlots(slots)
    ensures forall i, j :: 0 <= i < j < |Entries(slots)| ==> Enc(Entries(slots)[i].key) != Enc(Entries(slots)[j].key)
  {
    if slots != [] {
      var es, rest, n := Entries(slots), Entries(slots[1..]), if slots[0].val.Some? then 1 else 0;
      EntriesDistinct(slots[1..]);
      forall i, j | 0 <= i < j < |es| ensures Enc(es[i].key) != Enc(es[j].key) {
        assert es[j] == rest[j - n];
        if i < n {
          var k := EntryOrigin(slots[1..], j - n);
          assert slots[1..][k] == slots[k + 1];
        } else {
          assert es[i] == rest[i - n];
        }
      }
    }
  }

  /** Canonicalising a message keeps its members, canonicalises their values, and only reorders. */
  lemma {:induction false} CanonReads(check: Check, slots: seq<Slot>)
    requires DistinctSlots(slots) && PlainKeys(slots) && Acceptable(check, slots)
    ensures var c := Canon(Map(Entries(slots))).entries;
            Parse(check, c).Ok? && HoldsSlots(Parse(check, c).value, slots) && OnlySlots(Parse(check, c).value, slots)
  {
    var es := Entries(slots);
    var c := Canon(Map(es)).entries;
    CanonKeysDistinct(slots);
    ParseHolds(check, map[], c);
    forall i | 0 <= i < |c| ensures check(c[i].key, c[i].val).None? {
      var j := CanonOrigin(es, i);
      var k := EntryOrigin(slots, j);
      assert Canon(slots[k].key) == slots[k].key;
    }
    var m := Parse(check, c).value;
    forall j | 0 <= j < |slots| ensures Get(m, slots[j].key) == CanonOpt(slots[j].val) {
      CanonHolds(slots, m, j);
    }
    forall k | k in m ensures exists j :: 0 <= j < |slots| && slots[j].key == k {
      CanonOnly(slots, m, k);
    }
  }

  lemma {:induction false} CanonOnly(slots: seq<Slot>, m: Message, k: Value)
    requires PlainKeys(slots) && k in m && HoldsEntries(m, map[], Canon(Map(Entries(slots))).entries)
    ensures exists j :: 0 <= j < |slots| && slots[j].key == k
  {
    var es := Entries(slots);
    var c := Canon(Map(es)).entries;
    assert Get(m, k) != Get(map[], k);
    var i :| 0 <= i < |c| && c[i].key == k;
    var p := CanonOrigin(es, i);
    var j := EntryOrigin(slots, p);
    assert slots[j].key == k;
  }

  lemma {:induction false} CanonKeysDistinct(slots: seq<Slot>)
    requires DistinctSlots(slots) && PlainKeys(slots)
    ensures DistinctValues(Canon(Map(Entries(slots))).entries)
  {
    var es := Entries(slots);
    var keyed, c := CanonEntries(es), Canon(Map(es)).entries;
    EntriesDistinct(slots);
    DistinctEntries(es);
    SortDistinct(keyed);
    forall i, j | 0 <= i < j < |c| ensures c[i].key != c[j].key {
      var p := CanonOrigin(es, i);
      var q := CanonOrigin(es, j);
      var r := EntryOrigin(slots, p);
      var s := EntryOrigin(slots, q);
      assert Sort(keyed)[i].key != Sort(keyed)[j].key;
    }
  }

  lemma {:induction false} CanonHolds(slots: seq<Slot>, m: Message, j: nat)
    requires DistinctSlots(slots) && PlainKeys(slots) && j < |slots|
    requires HoldsEntries(m, map[], Canon(Map(Entries(slots))).entries)
    ensures Get(m, slots[j].key) == CanonOpt(slots[j].val)
  {
    var es := Entries(slots);
    var c := Canon(Map(es)).entries;
    if slots[j].val.Some? {
      var i := EntryTarget(slots, j);
      var t := CanonTarget(es, i);
    } else {
      forall i | 0 <= i < |c| ensures c[i].key != slots[j].key {
        var p := CanonOrigin(es, i);
        var k := EntryOrigin(slots, p);
        assert k != j;
      }
    }
  }

  // ---- encoding a message

  /** What the encoder and the decoder ask of a value at level `depth`. */
  ghost predicate Sound(v: Value, depth: nat) {
    Typed(v) && InRange(v) && Encodable(v, depth)
  }

  ghost predicate SoundSlot(slot: Slot, depth: nat) {
    Sound(slot.key, depth) && (slot.val.Some? ==> Sound(slot.val.value, depth))
  }

  /** A message of sound members is sound, one level further out. */
  lemma {:induction false} SlotsSound(slots: seq<Slot>, depth: nat)
    requires DistinctSlots(slots) && |slots| < U64 && depth < MAX_DEPTH
    requires forall i :: 0 <= i < |slots| ==> SoundSlot(slots[i], depth + 1)
    ensures Sound(Map(Entries(slots)), depth)
  {
    var es := Entries(slots);
    EntriesDistinct(slots);
    EntriesFewer(slots);
    forall i | 0 <= i < |es| ensures Sound(es[i].key, depth + 1) && Sound(es[i].val, depth + 1) {
      var j := EntryOrigin(slots, i);
    }
  }

  lemma {:induction false} EntriesFewer(slots: seq<Slot>)
    ensures |Entries(slots)| <= |slots|
  {
    if slots != [] { EntriesFewer(slots[1..]); }
  }

  // ---- member values

  function AsText(v: Value, of: Value): Result<seq<byte>, MemberError> {
    if v.Text? then Ok(v.utf8) else Err(TypeMismatch(of))
  }

  function AsBytes(v: Value, of: Value): Result<seq<byte>, MemberError> {
    if v.Bytes? then Ok(v.bytes) else Err(TypeMismatch(of))
  }

  function AsBool(v: Value, of: Value): Result<bool, MemberError> {
    if v.Bool? then Ok(v.flag) else Err(TypeMismatch(of))
  }

  /** `uint_member`. */
  function AsUint(v: Value, of: Value): (r: Result<nat, MemberError>)
    ensures r.Ok? ==> r.value < U64
  {
    if !v.Int? || v.n < 0 then Err(TypeMismatch(of))
    else if v.n >= U64 then Err(Invalid(of))
    else Ok(v.n)
  }

  function AsTexts(v: Value, of: Value): Result<seq<seq<byte>>, MemberError> {
    if v.Array? then TextsOf(v.items, of) else Err(TypeMismatch(of))
  }

  function TextsOf(items: seq<Value>, of: Value): Result<seq<seq<byte>>, MemberError> {
    if items == [] then Ok([]) else
      var first :- AsText(items[0], of);
      var rest :- TextsOf(items[1..], of);
      Ok([first] + rest)
  }

  function AsUints(v: Value, of: Value): Result<seq<nat>, MemberError> {
    if v.Array? then UintsOf(v.items, of) else Err(TypeMismatch(of))
  }

  function UintsOf(items: seq<Value>, of: Value): (r: Result<seq<nat>, MemberError>)
    ensures r.Ok? ==> forall i :: 0 <= i < |r.value| ==> r.value[i] < U64
  {
    if items == [] then Ok([]) else
      var first :- AsUint(items[0], of);
      var rest :- UintsOf(items[1..], of);
      Ok([first] + rest)
  }

  function Problem<T>(r: Result<T, MemberError>): Option<MemberError> {
    if r.Ok? then None else Some(r.error)
  }

  function Texts(ts: seq<seq<byte>>): (vs: seq<Value>)
    ensures |vs| == |ts| && forall i :: 0 <= i < |ts| ==> vs[i] == Text(ts[i])
  {
    if ts == [] then [] else [Text(ts[0])] + Texts(ts[1..])
  }

  function Uints(ns: seq<nat>): (vs: seq<Value>)
    ensures |vs| == |ns| && forall i :: 0 <= i < |ns| ==> vs[i] == Int(ns[i])
  {
    if ns == [] then [] else [Int(ns[0])] + Uints(ns[1..])
  }

  lemma {:induction false} TextsBack(ts: seq<seq<byte>>, of: Value)
    ensures AsTexts(Canon(Array(Texts(ts))), of) == Ok(ts)
  {
    assert CanonItems(Texts(ts)) == Texts(ts);
    TextsRead(ts, of);
  }

  lemma {:induction false} TextsRead(ts: seq<seq<byte>>, of: Value)
    ensures TextsOf(Texts(ts), of) == Ok(ts)
  {
    if ts != [] {
      TextsRead(ts[1..], of);
      assert Texts(ts)[1..] == Texts(ts[1..]);
      assert [ts[0]] + ts[1..] == ts;
    }
  }

  lemma {:induction false} UintsBack(ns: seq<nat>, of: Value)
    requires forall i :: 0 <= i < |ns| ==> ns[i] < U64
    ensures AsUints(Canon(Array(Uints(ns))), of) == Ok(ns)
  {
    assert CanonItems(Uints(ns)) == Uints(ns);
    UintsRead(ns, of);
  }

  lemma {:induction false} UintsRead(ns: seq<nat>, of: Value)
    requires forall i :: 0 <= i < |ns| ==> ns[i] < U64
    ensures UintsOf(Uints(ns), of) == Ok(ns)
  {
    if ns != [] {
      UintsRead(ns[1..], of);
      assert Uints(ns)[1..] == Uints(ns[1..]);
      assert [ns[0]] + ns[1..] == ns;
    }
  }

  lemma {:induction false} TextsSound(ts: seq<seq<byte>>, depth: nat)
    requires |ts| < U64 && depth < MAX_DEPTH && forall i :: 0 <= i < |ts| ==> Typed(Text(ts[i]))
    ensures Sound(Array(Texts(ts)), depth)
  {
    ItemsSound(Texts(ts), depth);
  }

  lemma {:induction false} UintsSound(ns: seq<nat>, depth: nat)
    requires |ns| < U64 && depth < MAX_DEPTH && forall i :: 0 <= i < |ns| ==> ns[i] < U64
    ensures Sound(Array(Uints(ns)), depth)
  {
    ItemsSound(Uints(ns), depth);
  }

  lemma {:induction false} ItemsSound(items: seq<Value>, depth: nat)
    requires |items| < U64 && depth < MAX_DEPTH && forall i :: 0 <= i < |items| ==> Sound(items[i], depth + 1)
    ensures Sound(Array(items), depth)
  {
  }

  // ---- the keys messages use

  /** A small integer takes one byte. */
  lemma {:induction false} SmallKey(n: int)
    requires -24 <= n < 24
    ensures Enc(Int(n)) == [if n >= 0 then n else 0x1F - n]
  {
  }

  lemma {:induction false} ShortText(t: seq<byte>)
    requires |t| < 24
    ensures Enc(Text(t)) == [0x60 + |t|] + t
  {
  }

  lemma {:induction false} AsciiValid(t: seq<byte>)
    requires forall i :: 0 <= i < |t| ==> t[i] <= 0x7F
    ensures ValidUtf8(t)
    decreases |t|
  {
    if t != [] { AsciiValid(t[1..]); }
  }

  /** A small integer or a short ASCII text. */
  ghost predicate SimpleKey(k: Value) {
    match k
    case Int(n) => -24 <= n < 24
    case Text(t) => |t| < 24 && forall i :: 0 <= i < |t| ==> t[i] <= 0x7F
    case _ => false
  }

  ghost predicate SimpleSlots(slots: seq<Slot>) {
    && (forall i :: 0 <= i < |slots| ==> SimpleKey(slots[i].key))
    && forall i, j :: 0 <= i < j < |slots| ==> slots[i].key != slots[j].key
  }

  lemma {:induction false} SimpleKeysDiffer(j: Value, k: Value)
    requires SimpleKey(j) && SimpleKey(k) && j != k
    ensures Enc(j) != Enc(k)
  {
    if j.Int? { SmallKey(j.n); } else { ShortText(j.utf8); }
    if k.Int? { SmallKey(k.n); } else { ShortText(k.utf8); }
    assert j.Text? ==> Enc(j)[0] >= 0x60;
    assert k.Text? ==> Enc(k)[0] >= 0x60;
    if j.Text? && k.Text? {
      var s, t := j.utf8, k.utf8;
      assert ([0x60 + |s|] + s)[1..] == s && ([0x60 + |t|] + t)[1..] == t;
    }
  }

  lemma {:induction false} SimpleDistinct(slots: seq<Slot>)
    requires SimpleSlots(slots)
    ensures DistinctSlots(slots) && PlainKeys(slots)
  {
    forall i, j | 0 <= i < j < |slots| ensures Enc(slots[i].key) != Enc(slots[j].key) {
      SimpleKeysDiffer(slots[i].key, slots[j].key);
    }
  }

  lemma {:induction false} SimpleSound(k: Value, depth: nat)
    requires SimpleKey(k)
    ensures Sound(k, depth)
  {
    if k.Text? { AsciiValid(k.utf8); }
  }

  /** A message of simple keys and sound values is sound. */
  lemma {:induction false} SimpleSlotsSound(slots: seq<Slot>, depth: nat)
    requires SimpleSlots(slots) && |slots| < U64 && depth < MAX_DEPTH
    requires forall i :: 0 <= i < |slots| && slots[i].val.Some? ==> Sound(slots[i].val.value, depth + 1)
    ensures Sound(Map(Entries(slots)), depth)
  {
    SimpleDistinct(slots);
    forall i | 0 <= i < |slots| { SimpleSound(slots[i].key, depth + 1); }
    SlotsSound(slots, depth);
  }

  /** A message of simple keys whose values encode one level further in encodes, whatever its size. */
  lemma {:induction false} SimpleEncodable(slots: seq<Slot>, depth: nat)
    requires SimpleSlots(slots) && depth < MAX_DEPTH
    requires forall i :: 0 <= i < |slots| && slots[i].val.Some? ==> Encodable(slots[i].val.value, depth + 1)
    ensures Encodable(Map(Entries(slots)), depth)
  {
    var es := Entries(slots);
    SimpleDistinct(slots);
    EntriesDistinct(slots);
    forall i | 0 <= i < |es| ensures Encodable(es[i].key, depth + 1) && Encodable(es[i].val, depth + 1) {
      var j := EntryOrigin(slots, i);
      SimpleSound(slots[j].key, depth + 1);
    }
  }

  // ---- what a printed message holds on the wire

  /** Under `key` there is this value and no other; or none. */
  ghost predicate Carries(entries: seq<Entry>, key: Value, v: Option<Value>) {
    && (v.Some? ==> exists i :: 0 <= i < |entries| && entries[i] == Entry(key, v.value))
    && forall i :: 0 <= i < |entries| && entries[i].key == key ==> Some(entries[i].val) == v
  }

  ghost predicate OnlyKeys(entries: seq<Entry>, keys: set<Value>) {
    forall i :: 0 <= i < |entries| ==> entries[i].key in keys
  }

  /** Every slot's member is there, canonicalised, and nothing else is. */
  ghost predicate CarriesSlots(entries: seq<Entry>, slots: seq<Slot>) {
    && (forall j :: 0 <= j < |slots| ==> Carries(entries, slots[j].key, CanonOpt(slots[j].val)))
    && forall i :: 0 <= i < |entries| ==> exists j :: 0 <= j < |slots| && entries[i].key == slots[j].key
  }

  lemma {:induction false} KeyOrigin(slots: seq<Slot>, i: nat) returns (k: nat)
    requires SimpleSlots(slots) && i < |Entries(slots)|
    ensures k < |slots| && slots[k].val.Some?
    ensures Canon(Map(Entries(slots))).entries[i] == Entry(slots[k].key, Canon(slots[k].val.value))
  {
    var p := CanonOrigin(Entries(slots), i);
    k := EntryOrigin(slots, p);
    assert SimpleKey(slots[k].key);
  }

  lemma {:induction false} SlotCarried(slots: seq<Slot>, j: nat)
    requires SimpleSlots(slots) && j < |slots|
    ensures Carries(Canon(Map(Entries(slots))).entries, slots[j].key, CanonOpt(slots[j].val))
  {
    var es := Entries(slots);
    var c := Canon(Map(es)).entries;
    assert SimpleKey(slots[j].key);
    if slots[j].val.Some? {
      var i := EntryTarget(slots, j);
      var t := CanonTarget(es, i);
      assert c[t] == Entry(slots[j].key, Canon(slots[j].val.value));
    }
    forall i | 0 <= i < |c| && c[i].key == slots[j].key ensures Some(c[i].val) == CanonOpt(slots[j].val) {
      var k := KeyOrigin(slots, i);
      assert k == j;
    }
  }

  lemma {:induction false} SlotsCarried(slots: seq<Slot>)
    requires SimpleSlots(slots)
    ensures CarriesSlots(Canon(Map(Entries(slots))).entries, slots)
  {
    var c := Canon(Map(Entries(slots))).entries;
    forall j | 0 <= j < |slots| ensures Carries(c, slots[j].key, CanonOpt(slots[j].val)) { SlotCarried(slots, j); }
    forall i | 0 <= i < |c| ensures exists j :: 0 <= j < |slots| && c[i].key == slots[j].key {
      var k := KeyOrigin(slots, i);
      assert c[i].key == slots[k].key;
    }
  }
}
