/** The CBOR data items of CTAP2 messages, their canonical form and their canonical encoding. */
module Cbor {
  import opened ByteOrder
  import opened KeyOrder
  import opened Utf8

  /** `CborValue`. A text string is held as its UTF-8 bytes. */
  datatype Value =
    | Int(n: int)
    | Bytes(bytes: seq<byte>)
    | Text(utf8: seq<byte>)
    | Array(items: seq<Value>)
    | Map(entries: seq<Entry>)
    | Bool(flag: bool)
    | Null

  datatype Entry = Entry(key: Value, val: Value)

  const MAX_DEPTH: nat := 4

  /** Arguments of 24 and more follow the first byte in 1, 2, 4 or 8 bytes: width codes 0 to 3. */
  function Width(code: nat): (n: nat)
    requires code < 4
    ensures 1 <= n <= 8
  {
    if code == 0 then 1 else if code == 1 then 2 else if code == 2 then 4 else 8
  }

  /** The smallest argument for which width code `code` is the shortest one. */
  function Least(code: nat): nat
    requires code < 4
  {
    if code == 0 then 24 else if code == 1 then 0x100 else if code == 2 then 0x1_0000 else 0x1_0000_0000
  }

  function Code(arg: nat): (code: nat)
    ensures code < 4
  {
    if arg <= 0xFF then 0 else if arg <= 0xFFFF then 1 else if arg <= 0xFFFF_FFFF then 2 else 3
  }

  /** `as u64`: the low 64 bits. */
  function Low64(n: nat): (r: nat)
    ensures r < U64
  {
    if n < U64 then n else n % U64
  }

  /** The shortest head carrying `arg`, cut to 64 bits. */
  function Head(major: nat, arg: nat): (h: seq<byte>)
    requires major < 8
    ensures 1 <= |h| <= 9
  {
    var a := Low64(arg);
    if a < 24 then [major * 32 + a] else [major * 32 + 24 + Code(a)] + ToBE(a, Width(Code(a)))
  }

  /** The canonical bytes of a value; `Encodable` says when the encoder emits them. */
  function Enc(v: Value): (s: seq<byte>)
    ensures s != []
    decreases v
  {
    match v
    case Int(n) => if n >= 0 then Head(0, n) else Head(1, -1 - n)
    case Bytes(b) => Head(2, |b|) + b
    case Text(t) => Head(3, |t|) + t
    case Array(items) => Head(4, |items|) + EncItems(items)
    case Map(entries) => Head(5, |entries|) + Flatten(Sort(EncEntries(entries)))
    case Bool(b) => [if b then 0xF5 else 0xF4]
    case Null => [0xF6]
  }

  function EncItems(items: seq<Value>): seq<byte>
    decreases items
  {
    if items == [] then [] else Enc(items[0]) + EncItems(items[1..])
  }

  /** Each entry as its encoded key carrying its encoded value, in entry order. */
  function EncEntries(entries: seq<Entry>): (r: seq<Keyed<seq<byte>>>)
    ensures |r| == |entries|
    decreases entries
  {
    if entries == [] then [] else [EncEntry(entries[0])] + EncEntries(entries[1..])
  }

  function EncEntry(e: Entry): Keyed<seq<byte>>
    decreases e
  {
    Keyed(Enc(e.key), Enc(e.val))
  }

  lemma {:induction false} EncEntriesAt(entries: seq<Entry>)
    ensures forall i :: 0 <= i < |entries| ==>
                          EncEntries(entries)[i] == EncEntry(entries[i])
  {
    if entries != [] {
      EncEntriesAt(entries[1..]);
    }
  }

  function Flatten(pairs: seq<Keyed<seq<byte>>>): seq<byte> {
    if pairs == [] then [] else pairs[0].key + pairs[0].item + Flatten(pairs[1..])
  }

  /** Every map, at any level and inside keys too, reordered by its encoded keys. */
  function Canon(v: Value): Value
    decreases v
  {
    match v
    case Array(items) => Array(CanonItems(items))
    case Map(entries) => Map(Carried(Sort(CanonEntries(entries))))
    case _ => v
  }

  function CanonItems(items: seq<Value>): (r: seq<Value>)
    ensures |r| == |items| && forall i :: 0 <= i < |items| ==> r[i] == Canon(items[i])
    decreases items
  {
    if items == [] then [] else [Canon(items[0])] + CanonItems(items[1..])
  }

  function CanonEntries(entries: seq<Entry>): (r: seq<Keyed<Entry>>)
    ensures |r| == |entries|
    decreases entries
  {
    if entries == [] then [] else [CanonEntry(entries[0])] + CanonEntries(entries[1..])
  }

  function CanonEntry(e: Entry): Keyed<Entry>
    decreases e
  {
    Keyed(Enc(e.key), Entry(Canon(e.key), Canon(e.val)))
  }

  lemma {:induction false} CanonEntriesAt(entries: seq<Entry>)
    ensures forall i :: 0 <= i < |entries| ==>
                          CanonEntries(entries)[i] == CanonEntry(entries[i])
  {
    if entries != [] {
      CanonEntriesAt(entries[1..]);
    }
  }

  function Carried<T>(s: seq<Keyed<T>>): (r: seq<T>)
    ensures |r| == |s| && forall i :: 0 <= i < |s| ==> r[i] == s[i].item
  {
    if s == [] then [] else [s[0].item] + Carried(s[1..])
  }

  // ---- what makes a value encodable, each rule on its own

  /** No array or map sits at level `MAX_DEPTH` or deeper when `v` sits at level `depth`. */
  ghost predicate DepthOk(v: Value, depth: nat)
    decreases v
  {
    match v
    case Array(items) => depth < MAX_DEPTH && forall i :: 0 <= i < |items| ==> DepthOk(items[i], depth + 1)
    case Map(entries) =>
      depth < MAX_DEPTH
      && forall i :: 0 <= i < |entries| ==> DepthOk(entries[i].key, depth + 1) && DepthOk(entries[i].val, depth + 1)
    case _ => true
  }

  /** No map, at any level and inside keys too, holds two keys with the same encoding. */
  ghost predicate NoDuplicates(v: Value)
    decreases v
  {
    match v
    case Array(items) => forall i :: 0 <= i < |items| ==> NoDuplicates(items[i])
    case Map(entries) =>
      (forall i, j :: 0 <= i < j < |entries| ==> Enc(entries[i].key) != Enc(entries[j].key))
      && forall i :: 0 <= i < |entries| ==> NoDuplicates(entries[i].key) && NoDuplicates(entries[i].val)
    case _ => true
  }

  ghost predicate Encodable(v: Value, depth: nat) {
    DepthOk(v, depth) && NoDuplicates(v)
  }

  /** What the source's types guarantee: text is UTF-8, and no collection has 2^64 elements. */
  ghost predicate Typed(v: Value)
    decreases v
  {
    match v
    case Bytes(b) => |b| < U64
    case Text(t) => |t| < U64 && ValidUtf8(t)
    case Array(items) => |items| < U64 && forall i :: 0 <= i < |items| ==> Typed(items[i])
    case Map(entries) =>
      |entries| < U64 && forall i :: 0 <= i < |entries| ==> Typed(entries[i].key) && Typed(entries[i].val)
    case _ => true
  }

  /** Every integer fits the 64-bit argument of a head. */
  ghost predicate InRange(v: Value)
    decreases v
  {
    match v
    case Int(n) => -U64 <= n < U64
    case Array(items) => forall i :: 0 <= i < |items| ==> InRange(items[i])
    case Map(entries) => forall i :: 0 <= i < |entries| ==> InRange(entries[i].key) && InRange(entries[i].val)
    case _ => true
  }

  /** Every map is already in strictly ascending key order. */
  ghost predicate Canonical(v: Value)
    decreases v
  {
    match v
    case Array(items) => forall i :: 0 <= i < |items| ==> Canonical(items[i])
    case Map(entries) =>
      (forall i, j :: 0 <= i < j < |entries| ==> KeyLess(Enc(entries[i].key), Enc(entries[j].key)))
      && forall i :: 0 <= i < |entries| ==> Canonical(entries[i].key) && Canonical(entries[i].val)
    case _ => true
  }

  /** The number of data items in a value, itself included. */
  ghost function Nodes(v: Value): (k: nat)
    ensures k >= 1
    decreases v
  {
    match v
    case Array(items) => 1 + NodesItems(items)
    case Map(entries) => 1 + NodesEntries(entries)
    case _ => 1
  }

  ghost function NodesItems(items: seq<Value>): nat
    decreases items
  {
    if items == [] then 0 else Nodes(items[0]) + NodesItems(items[1..])
  }

  ghost function NodesEntries(entries: seq<Entry>): nat
    decreases entries
  {
    if entries == [] then 0 else NodesEntry(entries[0]) + NodesEntries(entries[1..])
  }

  ghost function NodesEntry(e: Entry): nat
    decreases e
  {
    Nodes(e.key) + Nodes(e.val)
  }

  // ---- canonicalisation

  /** Canonicalising changes neither the encoding nor any of the rules, and yields the canonical form. */
  ghost predicate CanonKeeps(v: Value) {
    && Enc(Canon(v)) == Enc(v)
    && (NoDuplicates(v) ==> Canonical(Canon(v)) && NoDuplicates(Canon(v)))
    && (Typed(v) ==> Typed(Canon(v)))
    && (InRange(v) <==> InRange(Canon(v)))
    && (forall d: nat :: DepthOk(v, d) <==> DepthOk(Canon(v), d))
  }

  lemma {:induction false} CanonFacts(v: Value)
    ensures CanonKeeps(v)
    decreases v
  {
    match v
    case Array(items) =>
      forall i | 0 <= i < |items| { CanonFacts(items[i]); }
      CanonArrayFacts(items);
    case Map(entries) =>
      forall i | 0 <= i < |entries| { CanonEntryFacts(entries[i]); }
      CanonMapFacts(entries);
    case _ =>
  }

  lemma {:induction false} CanonArrayFacts(items: seq<Value>)
    requires forall i :: 0 <= i < |items| ==> CanonKeeps(items[i])
    ensures CanonKeeps(Array(items))
  {
    CanonItemsEnc(items);
  }

  lemma {:induction false} CanonMapFacts(entries: seq<Entry>)
    requires forall i :: 0 <= i < |entries| ==> CanonKeeps(entries[i].key) && CanonKeeps(entries[i].val)
    ensures CanonKeeps(Map(entries))
  {
    CanonMapEnc(entries);
    if Typed(Map(entries)) { CanonMapTyped(entries); }
    CanonMapInRange(entries);
    forall d: nat { CanonMapDepth(entries, d); }
    if NoDuplicates(Map(entries)) { CanonMapSorted(entries); }
  }

  lemma {:induction false} CanonEntryFacts(e: Entry)
    ensures CanonKeeps(e.key) && CanonKeeps(e.val)
    decreases e
  {
    match e
    case Entry(k, w) =>
      CanonFacts(k);
      CanonFacts(w);
  }

  lemma {:induction false} CanonItemsEnc(items: seq<Value>)
    requires forall i :: 0 <= i < |items| ==> CanonKeeps(items[i])
    ensures EncItems(CanonItems(items)) == EncItems(items)
  {
    if items != [] {
      CanonItemsEnc(items[1..]);
      assert CanonItems(items)[1..] == CanonItems(items[1..]);
    }
  }

  function EncVal(e: Entry): seq<byte> {
    Enc(e.val)
  }

  lemma {:induction false} CarriedEnc(s: seq<Keyed<Entry>>)
    requires forall i :: 0 <= i < |s| ==> Enc(s[i].item.key) == s[i].key
    ensures EncEntries(Carried(s)) == MapItems(s, EncVal)
  {
    if s != [] {
      CarriedEnc(s[1..]);
      assert Carried(s)[1..] == Carried(s[1..]);
    }
  }

  lemma {:induction false} CanonEntriesEnc(entries: seq<Entry>)
    requires forall i :: 0 <= i < |entries| ==> CanonKeeps(entries[i].val)
    ensures MapItems(CanonEntries(entries), EncVal) == EncEntries(entries)
  {
    if entries != [] {
      CanonEntriesEnc(entries[1..]);
      assert CanonEntries(entries)[1..] == CanonEntries(entries[1..]);
    }
  }

  /** The sorted, canonicalised entries encode, in order, to the sorted encoded entries. */
  lemma {:induction false} CanonMapEnc(entries: seq<Entry>)
    requires forall i :: 0 <= i < |entries| ==> CanonKeeps(entries[i].key) && CanonKeeps(entries[i].val)
    ensures EncEntries(Canon(Map(entries)).entries) == Sort(EncEntries(entries))
    ensures Enc(Canon(Map(entries))) == Enc(Map(entries))
  {
    var keyed := CanonEntries(entries);
    CanonEntriesEnc(entries);
    SortMap(keyed, EncVal);
    SortedKeysKept(entries);
    CarriedEnc(Sort(keyed));
    SortOrdered(EncEntries(entries));
    SortOrderedIsIdentity(Sort(EncEntries(entries)));
  }

  lemma {:induction false} SortedKeysKept(entries: seq<Entry>)
    requires forall i :: 0 <= i < |entries| ==> CanonKeeps(entries[i].key)
    ensures forall j :: 0 <= j < |entries| ==>
                          Enc(Sort(CanonEntries(entries))[j].item.key) == Sort(CanonEntries(entries))[j].key
  {
    forall j | 0 <= j < |entries|
      ensures Enc(Sort(CanonEntries(entries))[j].item.key) == Sort(CanonEntries(entries))[j].key
    {
      var i := CanonOrigin(entries, j);
    }
  }

  /** Entry `j` of a canonicalised map is the canonical form of an original entry. */
  lemma {:induction false} CanonOrigin(entries: seq<Entry>, j: nat) returns (i: nat)
    requires j < |entries|
    ensures i < |entries| && Sort(CanonEntries(entries))[j] == CanonEntry(entries[i])
    ensures Canon(Map(entries)).entries[j] == Entry(Canon(entries[i].key), Canon(entries[i].val))
  {
    i := SortOrigin(CanonEntries(entries), j);
    CanonEntriesAt(entries);
  }

  lemma {:induction false} CanonTarget(entries: seq<Entry>, i: nat) returns (j: nat)
    requires i < |entries|
    ensures j < |entries|
    ensures Canon(Map(entries)).entries[j] == Entry(Canon(entries[i].key), Canon(entries[i].val))
  {
    j := SortTarget(CanonEntries(entries), i);
    CanonEntriesAt(entries);
  }

  lemma {:induction false} CanonMapTyped(entries: seq<Entry>)
    requires forall i :: 0 <= i < |entries| ==> CanonKeeps(entries[i].key) && CanonKeeps(entries[i].val)
    requires Typed(Map(entries))
    ensures Typed(Canon(Map(entries)))
  {
    var c := Canon(Map(entries)).entries;
    forall j | 0 <= j < |c| ensures Typed(c[j].key) && Typed(c[j].val) {
      var i := CanonOrigin(entries, j);
    }
  }

  lemma {:induction false} CanonMapInRange(entries: seq<Entry>)
    requires forall i :: 0 <= i < |entries| ==> CanonKeeps(entries[i].key) && CanonKeeps(entries[i].val)
    ensures InRange(Map(entries)) <==> InRange(Canon(Map(entries)))
  {
    var c := Canon(Map(entries)).entries;
    if InRange(Map(entries)) {
      forall j | 0 <= j < |c| ensures InRange(c[j].key) && InRange(c[j].val) {
        var i := CanonOrigin(entries, j);
      }
    }
    if InRange(Canon(Map(entries))) {
      forall i | 0 <= i < |entries| ensures InRange(entries[i].key) && InRange(entries[i].val) {
        var j := CanonTarget(entries, i);
      }
    }
  }

  lemma {:induction false} CanonMapDepth(entries: seq<Entry>, d: nat)
    requires forall i :: 0 <= i < |entries| ==> CanonKeeps(entries[i].key) && CanonKeeps(entries[i].val)
    ensures DepthOk(Map(entries), d) <==> DepthOk(Canon(Map(entries)), d)
  {
    var c := Canon(Map(entries)).entries;
    if DepthOk(Map(entries), d) {
      forall j | 0 <= j < |c| ensures DepthOk(c[j].key, d + 1) && DepthOk(c[j].val, d + 1) {
        var i := CanonOrigin(entries, j);
      }
    }
    if DepthOk(Canon(Map(entries)), d) {
      forall i | 0 <= i < |entries| ensures DepthOk(entries[i].key, d + 1) && DepthOk(entries[i].val, d + 1) {
        var j := CanonTarget(entries, i);
      }
    }
  }

  lemma {:induction false} CanonMapSorted(entries: seq<Entry>)
    requires forall i :: 0 <= i < |entries| ==> CanonKeeps(entries[i].key) && CanonKeeps(entries[i].val)
    requires NoDuplicates(Map(entries))
    ensures Canonical(Canon(Map(entries))) && NoDuplicates(Canon(Map(entries)))
  {
    var keyed, c := CanonEntries(entries), Canon(Map(entries)).entries;
    CanonEntriesAt(entries);
    SortDistinct(keyed);
    SortedKeysKept(entries);
    forall i, j | 0 <= i < j < |c| ensures KeyLess(Enc(c[i].key), Enc(c[j].key)) && Enc(c[i].key) != Enc(c[j].key) {
      assert KeyLess(Sort(keyed)[i].key, Sort(keyed)[j].key);
    }
    forall j | 0 <= j < |c|
      ensures Canonical(c[j].key) && Canonical(c[j].val) && NoDuplicates(c[j].key) && NoDuplicates(c[j].val)
    {
      var i := CanonOrigin(entries, j);
    }
  }
}
