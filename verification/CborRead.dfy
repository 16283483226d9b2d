/** Decoding what the encoder wrote: a canonical value is read back as it is, wherever it stands. */
module CborRead {
  import opened Wrappers
  import opened ByteOrder
  import opened KeyOrder
  import opened Utf8
  import opened Cbor
  import opened CborDecoder
  import opened CborStrict

  /** Readable at level `depth`, and already canonical. */
  ghost predicate Plain(v: Value, depth: nat) {
    Canonical(v) && Typed(v) && InRange(v) && DepthOk(v, depth)
  }

  // ---- what either policy reads at `pos`, and where it stops

  ghost predicate HeadIs(b: seq<byte>, pos: nat, major: nat, arg: nat, end: nat) {
    && pos < end <= |b| && b[pos] / 32 == major && b[pos] % 32 <= 27
    && forall p: Policy :: ArgumentAt(b, pos + 1, b[pos] % 32, pos, p.Strict?) == Ok(Read(arg, end))
  }

  ghost predicate ValueIs(b: seq<byte>, pos: nat, depth: nat, v: Value, end: nat) {
    pos < end <= |b| && forall p: Policy :: ValueAt(b, pos, depth, p.Strict?) == Ok(Read(v, end))
  }

  ghost predicate ItemsAre(b: seq<byte>, pos: nat, depth: nat, items: seq<Value>, end: nat) {
    pos <= end <= |b| && forall p: Policy :: ItemsAt(b, pos, depth, p.Strict?, |items|) == Ok(Read(items, end))
  }

  ghost predicate EntryIs(b: seq<byte>, pos: nat, depth: nat, seen: set<seq<byte>>, prev: Option<seq<byte>>, at: nat,
                          raw: seq<byte>, e: Entry, end: nat) {
    && pos < end <= |b|
    && forall p: Policy :: EntryAt(b, pos, depth, p.Strict?, seen, prev, at) == Ok(Read(Keyed(raw, e), end))
  }

  ghost predicate EntriesAre(b: seq<byte>, pos: nat, depth: nat, seen: set<seq<byte>>, prev: Option<seq<byte>>, at: nat,
                             entries: seq<Entry>, end: nat) {
    && pos <= end <= |b|
    && forall p: Policy :: EntriesAt(b, pos, depth, p.Strict?, |entries|, seen, prev, at) == Ok(Read(entries, end))
  }

  lemma {:induction false} ReadCanonical(b: seq<byte>, pos: nat, v: Value, depth: nat, end: nat)
    requires Plain(v, depth) && At(b, pos, Enc(v)) && |b| < U64 && end == pos + |Enc(v)|
    ensures ValueIs(b, pos, depth, v, end)
    decreases v
  {
    match v
    case Int(n) => ReadInt(b, pos, n, depth, end);
    case Bytes(s) => ReadString(b, pos, 2, s, depth, end);
    case Text(s) => ReadString(b, pos, 3, s, depth, end);
    case Array(items) => ReadArray(b, pos, items, depth, end);
    case Map(entries) => ReadMap(b, pos, entries, depth, end);
    case Bool(_) => SimpleStep(b, pos, v, depth);
    case Null => SimpleStep(b, pos, v, depth);
  }

  // ---- one step of the decoder

  lemma {:induction false} HeadStep(b: seq<byte>, pos: nat, major: nat, arg: nat, end: nat)
    requires major < 8 && arg < U64 && At(b, pos, Head(major, arg)) && end == pos + |Head(major, arg)|
    ensures HeadIs(b, pos, major, arg, end)
  {
    forall p: Policy { HeadRead(b, pos, major, arg, pos, p.Strict?); }
    HeadRead(b, pos, major, arg, pos, true);
  }

  lemma {:induction false} SimpleStep(b: seq<byte>, pos: nat, v: Value, depth: nat)
    requires (v.Bool? || v.Null?) && At(b, pos, Enc(v))
    ensures ValueIs(b, pos, depth, v, pos + |Enc(v)|)
  {
    AtFirst(b, pos, Enc(v)[0], []);
  }

  lemma {:induction false} IntStep(b: seq<byte>, pos: nat, major: nat, arg: nat, end: nat, depth: nat)
    requires HeadIs(b, pos, major, arg, end) && major <= 1
    ensures ValueIs(b, pos, depth, Int(if major == 0 then arg else -1 - arg), end)
  {
  }

  lemma {:induction false} StringStep(b: seq<byte>, pos: nat, major: nat, p: nat, s: seq<byte>, depth: nat)
    requires HeadIs(b, pos, major, |s|, p) && 2 <= major <= 3 && |b| < U64
    requires At(b, p, s) && (major == 3 ==> ValidUtf8(s))
    ensures ValueIs(b, pos, depth, if major == 2 then Bytes(s) else Text(s), p + |s|)
  {
  }

  lemma {:induction false} ArrayStep(b: seq<byte>, pos: nat, p: nat, items: seq<Value>, end: nat, depth: nat)
    requires HeadIs(b, pos, 4, |items|, p) && depth < MAX_DEPTH && ItemsAre(b, p, depth + 1, items, end)
    ensures ValueIs(b, pos, depth, Array(items), end)
  {
  }

  lemma {:induction false} MapStep(b: seq<byte>, pos: nat, p: nat, entries: seq<Entry>, end: nat, depth: nat)
    requires HeadIs(b, pos, 5, |entries|, p) && depth < MAX_DEPTH
    requires EntriesAre(b, p, depth + 1, {}, None, pos, entries, end)
    ensures ValueIs(b, pos, depth, Map(entries), end)
  {
  }

  lemma {:induction false} ItemsStep(b: seq<byte>, pos: nat, items: seq<Value>, p: nat, end: nat, depth: nat)
    requires items != [] && ValueIs(b, pos, depth, items[0], p) && ItemsAre(b, p, depth, items[1..], end)
    ensures ItemsAre(b, pos, depth, items, end)
  {
    assert [items[0]] + items[1..] == items;
  }

  lemma {:induction false} EntryStep(b: seq<byte>, pos: nat, k: Value, raw: seq<byte>, w: Value, p: nat, end: nat,
                                     depth: nat, seen: set<seq<byte>>, prev: Option<seq<byte>>, at: nat)
    requires At(b, pos, raw) && p == pos + |raw| && ValueIs(b, pos, depth, k, p) && ValueIs(b, p, depth, w, end)
    requires raw !in seen && (prev.Some? ==> KeyLess(prev.value, raw))
    ensures EntryIs(b, pos, depth, seen, prev, at, raw, Entry(k, w), end)
  {
  }

  lemma {:induction false} EntriesStep(b: seq<byte>, pos: nat, entries: seq<Entry>, raw: seq<byte>, p: nat, end: nat,
                                       depth: nat, seen: set<seq<byte>>, prev: Option<seq<byte>>, at: nat)
    requires entries != [] && EntryIs(b, pos, depth, seen, prev, at, raw, entries[0], p)
    requires EntriesAre(b, p, depth, seen + {raw}, Some(raw), at, entries[1..], end)
    ensures EntriesAre(b, pos, depth, seen, prev, at, entries, end)
  {
    assert [entries[0]] + entries[1..] == entries;
  }

  // ---- value by value

  lemma {:induction false} ReadInt(b: seq<byte>, pos: nat, n: int, depth: nat, end: nat)
    requires -U64 <= n < U64 && At(b, pos, Enc(Int(n))) && end == pos + |Enc(Int(n))|
    ensures ValueIs(b, pos, depth, Int(n), end)
  {
    var major, arg := if n >= 0 then 0 else 1, if n >= 0 then n else -1 - n;
    assert Enc(Int(n)) == Head(major, arg);
    HeadStep(b, pos, major, arg, end);
    IntStep(b, pos, major, arg, end, depth);
  }

  lemma {:induction false} ReadString(b: seq<byte>, pos: nat, major: nat, s: seq<byte>, depth: nat, end: nat)
    requires 2 <= major <= 3 && |s| < U64 && |b| < U64 && (major == 3 ==> ValidUtf8(s))
    requires At(b, pos, Head(major, |s|) + s) && end == pos + |Head(major, |s|) + s|
    ensures ValueIs(b, pos, depth, if major == 2 then Bytes(s) else Text(s), end)
  {
    AtSplit(b, pos, Head(major, |s|), s);
    HeadStep(b, pos, major, |s|, end - |s|);
    StringStep(b, pos, major, end - |s|, s, depth);
  }

  lemma {:induction false} ReadArray(b: seq<byte>, pos: nat, items: seq<Value>, depth: nat, end: nat)
    requires Plain(Array(items), depth) && At(b, pos, Enc(Array(items))) && |b| < U64
             && end == pos + |Enc(Array(items))|
    ensures ValueIs(b, pos, depth, Array(items), end)
    decreases items, 1
  {
    var head, body := Head(4, |items|), EncItems(items);
    var p := pos + |head|;
    AtSplit(b, pos, head, body);
    HeadStep(b, pos, 4, |items|, p);
    ReadItems(b, p, items, depth + 1, end);
    ArrayStep(b, pos, p, items, end, depth);
  }

  lemma {:induction false} ReadMap(b: seq<byte>, pos: nat, entries: seq<Entry>, depth: nat, end: nat)
    requires Plain(Map(entries), depth) && At(b, pos, Enc(Map(entries))) && |b| < U64
             && end == pos + |Enc(Map(entries))|
    ensures ValueIs(b, pos, depth, Map(entries), end)
    decreases entries, 1
  {
    SortedMapEnc(entries);
    var head, body := Head(5, |entries|), Flatten(EncEntries(entries));
    var p := pos + |head|;
    AtSplit(b, pos, head, body);
    HeadStep(b, pos, 5, |entries|, p);
    ReadEntries(b, p, entries, depth + 1, {}, None, pos, end);
    MapStep(b, pos, p, entries, end, depth);
  }

  lemma {:induction false} ReadItems(b: seq<byte>, pos: nat, items: seq<Value>, depth: nat, end: nat)
    requires |b| < U64 && At(b, pos, EncItems(items)) && end == pos + |EncItems(items)|
    requires forall i :: 0 <= i < |items| ==> Plain(items[i], depth)
    ensures ItemsAre(b, pos, depth, items, end)
    decreases items, 0
  {
    if items != [] {
      var first, rest := items[0], items[1..];
      var p := pos + |Enc(first)|;
      AtSplit(b, pos, Enc(first), EncItems(rest));
      ReadCanonical(b, pos, first, depth, p);
      ReadItems(b, p, rest, depth, end);
      ItemsStep(b, pos, items, p, end, depth);
    }
  }

  lemma {:induction false} ReadEntry(b: seq<byte>, pos: nat, e: Entry, depth: nat,
                                     seen: set<seq<byte>>, prev: Option<seq<byte>>, at: nat, end: nat)
    requires |b| < U64 && At(b, pos, Enc(e.key) + Enc(e.val)) && end == pos + |Enc(e.key)| + |Enc(e.val)|
    requires Plain(e.key, depth) && Plain(e.val, depth)
    requires Enc(e.key) !in seen && (prev.Some? ==> KeyLess(prev.value, Enc(e.key)))
    ensures EntryIs(b, pos, depth, seen, prev, at, Enc(e.key), e, end)
    decreases e
  {
    match e
    case Entry(k, w) =>
      var raw, p := Enc(k), pos + |Enc(k)|;
      AtSplit(b, pos, raw, Enc(w));
      ReadCanonical(b, pos, k, depth, p);
      ReadCanonical(b, p, w, depth, end);
      EntryStep(b, pos, k, raw, w, p, end, depth, seen, prev, at);
  }

  ghost predicate PlainEntries(entries: seq<Entry>, depth: nat) {
    forall i :: 0 <= i < |entries| ==> Plain(entries[i].key, depth) && Plain(entries[i].val, depth)
  }

  lemma {:induction false} ReadEntries(b: seq<byte>, pos: nat, entries: seq<Entry>, depth: nat,
                                       seen: set<seq<byte>>, prev: Option<seq<byte>>, at: nat, end: nat)
    requires |b| < U64 && At(b, pos, Flatten(EncEntries(entries))) && end == pos + |Flatten(EncEntries(entries))|
    requires PlainEntries(entries, depth) && AscendingFrom(entries, prev) && Below(seen, prev)
    ensures EntriesAre(b, pos, depth, seen, prev, at, entries, end)
    decreases entries, 0
  {
    if entries != [] {
      var e, rest := entries[0], entries[1..];
      var raw, p := Enc(e.key), pos + |Enc(e.key)| + |Enc(e.val)|;
      FirstEntry(b, pos, entries, prev);
      BelowStep(seen, prev, raw);
      ReadEntry(b, pos, e, depth, seen, prev, at, p);
      ReadEntries(b, p, rest, depth, seen + {raw}, Some(raw), at, end);
      EntriesStep(b, pos, entries, raw, p, end, depth, seen, prev, at);
    }
  }

  /** The first entry of an ascending run, and what it leaves for the rest. */
  lemma {:induction false} FirstEntry(b: seq<byte>, pos: nat, entries: seq<Entry>, prev: Option<seq<byte>>)
    requires entries != [] && At(b, pos, Flatten(EncEntries(entries))) && AscendingFrom(entries, prev)
    ensures var e, rest := entries[0], entries[1..];
            var head := Enc(e.key) + Enc(e.val);
            && At(b, pos, head) && At(b, pos + |head|, Flatten(EncEntries(rest)))
            && |Flatten(EncEntries(entries))| == |head| + |Flatten(EncEntries(rest))|
            && (prev.Some? ==> KeyLess(prev.value, Enc(e.key)))
            && AscendingFrom(rest, Some(Enc(e.key)))
  {
    var e, rest := entries[0], entries[1..];
    assert EncEntries(entries)[1..] == EncEntries(rest);
    AtSplit(b, pos, Enc(e.key) + Enc(e.val), Flatten(EncEntries(rest)));
  }

  /** Every key seen so far is the previous one or below it. */
  ghost predicate Below(seen: set<seq<byte>>, prev: Option<seq<byte>>) {
    forall s :: s in seen ==> prev.Some? && (s == prev.value || KeyLess(s, prev.value))
  }

  lemma {:induction false} BelowStep(seen: set<seq<byte>>, prev: Option<seq<byte>>, raw: seq<byte>)
    requires Below(seen, prev) && (prev.Some? ==> KeyLess(prev.value, raw))
    ensures raw !in seen && Below(seen + {raw}, Some(raw))
  {
    forall s | s in seen ensures s != raw && KeyLess(s, raw) {
      if s != prev.value { KeyTransitive(s, prev.value, raw); }
      KeyTotal(s, raw);
    }
  }
}
