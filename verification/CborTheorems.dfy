/** The codec as a whole: what encoding followed by decoding, and decoding followed by encoding, give. */
module CborTheorems {
  import opened Wrappers
  import opened ByteOrder
  import opened KeyOrder
  import opened Cbor
  import opened CborEncoder
  import opened CborEncoderFacts
  import opened CborReorder
  import opened CborDecoder
  import opened CborStrict
  import opened CborRead
  import opened CborRules

  /** `CborValue::encode`. */
  function Encode(v: Value): Encoded {
    EncodeAt(v, 0)
  }

  method EncodeBytes(v: Value) returns (r: Encoded)
    ensures r == Encode(v)
  {
    var enc := new Encoder();
    var done := enc.EncodeValue(v, 0);
    if done.Err? {
      return Err(done.error);
    }
    assert enc.out == Encode(v).value;
    r := Ok(enc.out);
  }

  /** Success and the two errors, each by the rule of the data model it stands for. */
  lemma {:induction false} EncodeCharacterised(v: Value)
    ensures Encode(v).Ok? <==> DepthOk(v, 0) && NoDuplicates(v)
    ensures Encode(v).Ok? ==> Encode(v).value == Enc(v) == Enc(Canon(v))
    ensures Encode(v) == Err(EncodeError.DepthLimitExceeded) ==> !DepthOk(v, 0)
    ensures Encode(v) == Err(EncodeError.DuplicateKey) ==> !NoDuplicates(v)
  {
    EncodeExact(v, 0);
    CanonFacts(v);
  }

  /** Byte identity: strict decoding accepts nothing but what re-encodes to the very same bytes. */
  lemma {:induction false} ByteIdentity(b: seq<byte>)
    requires Decode(b, Strict).Ok?
    ensures Encode(Decode(b, Strict).value) == Ok(b)
    ensures Canonical(Decode(b, Strict).value)
  {
    var r := ValueAt(b, 0, 0, true).value;
    StrictValue(b, 0, 0);
    AcceptedLawful(b, 0, 0, true);
    CanonicalNoDuplicates(r.value);
    EncodeExact(r.value, 0);
    assert b[0..|b|] == b;
  }

  lemma {:induction false} StrictInjective(b: seq<byte>, c: seq<byte>)
    requires Decode(b, Strict).Ok? && Decode(b, Strict) == Decode(c, Strict)
    ensures b == c
  {
    ByteIdentity(b);
    ByteIdentity(c);
  }

  /** An encoding is read back, canonicalised, wherever it stands and whatever surrounds it. */
  lemma {:induction false} ReadsBack(before: seq<byte>, v: Value, after: seq<byte>, depth: nat, strict: bool)
    requires Typed(v) && InRange(v) && Encodable(v, depth) && |before + Enc(v) + after| < U64
    ensures ValueAt(before + Enc(v) + after, |before|, depth, strict) == Ok(Read(Canon(v), |before + Enc(v)|))
  {
    var b, end := before + Enc(v) + after, |before + Enc(v)|;
    CanonFacts(v);
    assert b[|before|..end] == Enc(v);
    ReadCanonical(b, |before|, Canon(v), depth, end);
    var policy := if strict then Strict else Tolerant;
    assert ValueAt(b, |before|, depth, policy.Strict?) == Ok(Read(Canon(v), end));
  }

  /** Round trip: of the values that encode, exactly those whose integers fit 64 bits come back. */
  lemma {:induction false} RoundTrip(v: Value, policy: Policy)
    requires Typed(v) && Encode(v).Ok? && |Encode(v).value| < U64
    ensures Decode(Encode(v).value, policy) == Ok(Canon(v)) <==> InRange(v)
  {
    EncodeCharacterised(v);
    CanonFacts(v);
    var e := Enc(v);
    if InRange(v) {
      ReadsBack([], v, [], 0, policy.Strict?);
      assert [] + e + [] == e;
    }
    if Decode(e, policy) == Ok(Canon(v)) {
      AcceptedLawful(e, 0, 0, policy.Strict?);
    }
  }

  /** Strict decoding accepts exactly the bytes the encoder can emit for a value in range. */
  lemma {:induction false} StrictAcceptsExactlyTheImage(b: seq<byte>)
    requires |b| < U64
    ensures Decode(b, Strict).Ok? <==> exists v :: Typed(v) && InRange(v) && Encode(v) == Ok(b)
  {
    if Decode(b, Strict).Ok? {
      ByteIdentity(b);
      AcceptedLawful(b, 0, 0, true);
    }
    if v :| Typed(v) && InRange(v) && Encode(v) == Ok(b) {
      RoundTrip(v, Strict);
    }
  }

  /** The canonical form is unique: equal encodings mean values that differ only in how map entries are ordered. */
  lemma {:induction false} CanonicalUnique(v: Value, w: Value)
    requires Typed(v) && InRange(v) && Encode(v).Ok? && |Enc(v)| < U64
    requires Typed(w) && InRange(w) && Encode(w).Ok?
    ensures Encode(v) == Encode(w) <==> Canon(v) == Canon(w)
    ensures Encode(v) == Encode(w) <==> Reordered(v, w)
  {
    EncodeCharacterised(v);
    EncodeCharacterised(w);
    if Enc(v) == Enc(w) {
      RoundTrip(v, Strict);
      RoundTrip(w, Strict);
      CanonReordered(v, w);
    }
    if Reordered(v, w) { ReorderedAlike(v, w); }
  }

  /** No encoding is the beginning of another one. */
  lemma {:induction false} PrefixFree(v: Value, w: Value, tail: seq<byte>)
    requires Typed(v) && InRange(v) && Encode(v).Ok? && Typed(w) && InRange(w) && Encode(w).Ok?
    requires Enc(w) == Enc(v) + tail && |Enc(w)| < U64
    ensures tail == [] && Canon(v) == Canon(w)
  {
    EncodeCharacterised(v);
    EncodeCharacterised(w);
    FirstOf(Enc(w), v, tail);
    FirstOf(Enc(w), w, []);
  }

  lemma {:induction false} FirstOf(b: seq<byte>, v: Value, tail: seq<byte>)
    requires Typed(v) && InRange(v) && Encodable(v, 0) && b == Enc(v) + tail && |b| < U64
    ensures ValueAt(b, 0, 0, true) == Ok(Read(Canon(v), |Enc(v)|))
  {
    assert [] + Enc(v) + tail == b;
    ReadsBack([], v, tail, 0, true);
  }

  /** Listing map entries in another order, at any level and inside keys too, changes neither success nor the bytes. */
  lemma {:induction false} OrderIrrelevant(v: Value, w: Value)
    requires Reordered(v, w)
    ensures Encode(v).Ok? <==> Encode(w).Ok?
    ensures Encode(v).Ok? ==> Encode(v) == Encode(w)
  {
    ReorderedAlike(v, w);
    EncodeExact(v, 0);
    EncodeExact(w, 0);
  }

  lemma {:induction false} StrictWithinTolerant(b: seq<byte>)
    requires Decode(b, Strict).Ok?
    ensures Decode(b, Tolerant) == Decode(b, Strict)
  {
    StrictIsTolerated(b, 0, 0);
  }

  /**
   Re-encoding what tolerant decoding accepted: only two keys with one canonical form can stop it,
   it never takes more bytes, and strict decoding then reads the canonical form of the same value.
   */
  lemma {:induction false} ReEncodeTolerated(b: seq<byte>)
    requires |b| < U64 && Decode(b, Tolerant).Ok?
    ensures var v := Decode(b, Tolerant).value;
            match Encode(v)
            case Ok(s) => |s| <= |b| && Decode(s, Strict) == Ok(Canon(v))
            case Err(e) => e == EncodeError.DuplicateKey && !NoDuplicates(v)
  {
    var v := Decode(b, Tolerant).value;
    AcceptedLawful(b, 0, 0, false);
    EncodeCharacterised(v);
    if Encode(v).Ok? {
      RoundTrip(v, Strict);
    }
  }

  /** However many elements a head claims, no more items are built than there are bytes. */
  lemma {:induction false} LinearSize(b: seq<byte>, policy: Policy)
    requires Decode(b, policy).Ok?
    ensures Nodes(Decode(b, policy).value) <= |b|
  {
    AcceptedLawful(b, 0, 0, policy.Strict?);
  }

  // ---- the order of keys

  /** Major type first, then length, then bytes: the order the module's own header describes. */
  predicate MajorFirst(a: seq<byte>, b: seq<byte>)
    requires a != [] && b != []
  {
    a[0] / 32 < b[0] / 32 || (a[0] / 32 == b[0] / 32 && KeyLess(a, b))
  }

  /** The two orders part exactly where a key of lower major type has the longer encoding. */
  lemma {:induction false} OrdersPart(v: Value, w: Value)
    ensures var a, b := Enc(v), Enc(w);
            (KeyLess(a, b) <==> MajorFirst(a, b)) <==>
            !((a[0] / 32 < b[0] / 32 && |a| > |b|) || (b[0] / 32 < a[0] / 32 && |b| > |a|))
  {
  }

  lemma {:induction false} TwoEntries(b: seq<byte>, key: seq<byte>, val: seq<byte>, next: seq<byte>, last: seq<byte>)
    requires b == [0xA2] + key + val + (next + last)
    ensures var at := 1 + |key| + |val|;
            |b| >= at + |next| && b[0] == 0xA2 && b[1..at] == key + val && b[at..at + |next|] == next
  {
    assert b == [0xA2] + (key + val) + (next + last);
  }

  /** A map of two entries whose second key sorts below the first is refused at that second key. */
  lemma {:induction false} OutOfOrderRefused(b: seq<byte>, first: Entry, second: Entry, at: nat)
    requires b == Head(5, 2) + Enc(first.key) + Enc(first.val) + (Enc(second.key) + Enc(second.val)) && |b| < U64
    requires Plain(first.key, 1) && Plain(first.val, 1) && Plain(second.key, 1)
    requires KeyLess(Enc(second.key), Enc(first.key)) && at == 1 + |Enc(first.key)| + |Enc(first.val)|
    ensures Decode(b, Strict) == Err(UnsortedKeys(at))
  {
    var raw, own := Enc(first.key), Enc(second.key);
    var end := at + |own|;
    assert Head(5, 2) == [0xA2];
    TwoEntries(b, raw, Enc(first.val), own, Enc(second.val));
    ReadEntry(b, 1, first, 1, {}, None, 0, at);
    ReadCanonical(b, at, second.key, 1, end);
    KeyTotal(own, raw);
    UnsortedStep(b, at, second.key, own, end, raw);
    UnsortedMap(b, Keyed(raw, first), at);
  }

  lemma {:induction false} UnsortedStep(b: seq<byte>, at: nat, k: Value, own: seq<byte>, end: nat, raw: seq<byte>)
    requires At(b, at, own) && end == at + |own| && ValueIs(b, at, 1, k, end) && own != raw && !KeyLess(raw, own)
    ensures EntryAt(b, at, 1, Strict.Strict?, {raw}, Some(raw), 0) == Err(UnsortedKeys(at))
  {
  }

  lemma {:induction false} UnsortedMap(b: seq<byte>, first: Keyed<Entry>, at: nat)
    requires b != [] && b[0] == 0xA2 && EntryIs(b, 1, 1, {}, None, 0, first.key, first.item, at)
    requires EntryAt(b, at, 1, Strict.Strict?, {first.key}, Some(first.key), 0) == Err(UnsortedKeys(at))
    ensures Decode(b, Strict) == Err(UnsortedKeys(at))
  {
    assert EntryAt(b, 1, 1, Strict.Strict?, {}, None, 0) == Ok(Read(first, at));
    assert {} + {first.key} == {first.key};
    assert EntriesAt(b, at, 1, true, 1, {first.key}, Some(first.key), 0) == Err(UnsortedKeys(at));
    assert EntriesAt(b, 1, 1, true, 2, {}, None, 0) == Err(UnsortedKeys(at));
    assert MapAt(b, 1, 2, 0, 0, true) == Err(UnsortedKeys(at));
    assert ValueAt(b, 0, 0, true) == Err(UnsortedKeys(at));
  }

  /** Entries listed as the header describes are refused wherever the two orders part. */
  lemma {:induction false} MajorFirstRefused(b: seq<byte>, first: Entry, second: Entry, at: nat)
    requires b == Head(5, 2) + Enc(first.key) + Enc(first.val) + (Enc(second.key) + Enc(second.val)) && |b| < U64
    requires Plain(first.key, 1) && Plain(first.val, 1) && Plain(second.key, 1)
    requires MajorFirst(Enc(first.key), Enc(second.key)) && |Enc(first.key)| > |Enc(second.key)|
    requires at == 1 + |Enc(first.key)| + |Enc(first.val)|
    ensures Decode(b, Strict) == Err(UnsortedKeys(at))
  {
    OutOfOrderRefused(b, first, second, at);
  }

  /** The integers from 24 up and the empty text are such keys. */
  lemma {:induction false} OrdersDoPart(n: nat)
    requires 24 <= n < U64
    ensures MajorFirst(Enc(Int(n)), Enc(Text([]))) && KeyLess(Enc(Text([])), Enc(Int(n)))
  {
    var none: seq<byte> := [];
    assert Enc(Text(none)) == Head(3, |none|) + none == [0x60];
  }
}
