/**
 What any accepted input satisfies, under either policy, and why strict acceptance is tolerant
 acceptance with the same value.
 */
module CborRules {
  import opened Wrappers
  import opened ByteOrder
  import opened KeyOrder
  import opened Cbor
  import opened CborDecoder
  import opened CborStrict

  /**
   Within the depth limit, in 64-bit range, well typed, and no bigger, in items or in encoded bytes,
   than its `cost`.
   */
  ghost predicate Lawful(v: Value, depth: nat, cost: int) {
    DepthOk(v, depth) && Typed(v) && InRange(v) && Nodes(v) <= cost && |Enc(v)| <= cost
  }

  lemma {:induction false} AcceptedLawful(b: seq<byte>, pos: nat, depth: nat, strict: bool)
    requires pos <= |b| && ValueAt(b, pos, depth, strict).Ok?
    ensures var r := ValueAt(b, pos, depth, strict).value;
            Lawful(r.value, depth, r.pos - pos)
    decreases |b| - pos, 0
  {
    var major, info := b[pos] / 32, b[pos] % 32;
    if major <= 1 {
      IntegerLawful(b, pos, major, info, depth, strict);
    } else if major <= 3 {
      StringLawful(b, pos, major, info, depth, strict);
    } else if major == 4 {
      ArrayLawful(b, pos + 1, info, depth, pos, strict);
    } else if major == 5 {
      MapLawful(b, pos + 1, info, depth, pos, strict);
    }
  }

  lemma {:induction false} IntegerLawful(b: seq<byte>, pos: nat, major: byte, info: byte, depth: nat, strict: bool)
    requires pos < |b| && major <= 1 && IntegerAt(b, pos + 1, major, info, pos, strict).Ok?
    ensures var r := IntegerAt(b, pos + 1, major, info, pos, strict).value;
            Lawful(r.value, depth, r.pos - pos)
  {
    ArgumentRange(b, pos + 1, info, pos, strict);
    HeadShortest(b, pos, info, pos, strict, major);
  }

  lemma {:induction false} StringLawful(b: seq<byte>, pos: nat, major: byte, info: byte, depth: nat, strict: bool)
    requires pos < |b| && 2 <= major <= 3 && StringAt(b, pos + 1, major, info, pos, strict).Ok?
    ensures var r := StringAt(b, pos + 1, major, info, pos, strict).value;
            Lawful(r.value, depth, r.pos - pos)
  {
    ArgumentRange(b, pos + 1, info, pos, strict);
    HeadShortest(b, pos, info, pos, strict, major);
  }

  lemma {:induction false} ArrayLawful(b: seq<byte>, pos: nat, info: byte, depth: nat, offset: nat, strict: bool)
    requires 0 < pos <= |b| && ArrayAt(b, pos, info, depth, offset, strict).Ok?
    ensures var r := ArrayAt(b, pos, info, depth, offset, strict).value;
            Lawful(r.value, depth, r.pos - pos + 1)
    decreases |b| - pos, 3
  {
    ArgumentRange(b, pos, info, offset, strict);
    HeadShortest(b, pos - 1, info, offset, strict, 4);
    var len := LengthAt(b, pos, info, offset, strict).value;
    ItemsLawful(b, len.pos, depth + 1, strict, len.value);
  }

  lemma {:induction false} MapLawful(b: seq<byte>, pos: nat, info: byte, depth: nat, offset: nat, strict: bool)
    requires 0 < pos <= |b| && MapAt(b, pos, info, depth, offset, strict).Ok?
    ensures var r := MapAt(b, pos, info, depth, offset, strict).value;
            Lawful(r.value, depth, r.pos - pos + 1)
    decreases |b| - pos, 3
  {
    ArgumentRange(b, pos, info, offset, strict);
    HeadShortest(b, pos - 1, info, offset, strict, 5);
    var len := LengthAt(b, pos, info, offset, strict).value;
    EntriesLawful(b, len.pos, depth + 1, strict, len.value, {}, None, offset);
    var r := EntriesAt(b, len.pos, depth + 1, strict, len.value, {}, None, offset).value;
    EntriesTogether(r.value, depth, len.pos - pos + 1, r.pos - len.pos);
  }

  lemma {:induction false} EntriesTogether(entries: seq<Entry>, depth: nat, head: int, cost: int)
    requires AllEntriesLawful(entries, depth + 1, cost)
    requires depth < MAX_DEPTH && |entries| < U64 && |Head(5, |entries|)| <= head
    ensures Lawful(Map(entries), depth, head + cost)
  {
    SortedLength(EncEntries(entries));
  }

  ghost predicate AllLawful(items: seq<Value>, depth: nat, cost: int) {
    NodesItems(items) <= cost && |EncItems(items)| <= cost
    && forall i :: 0 <= i < |items| ==> DepthOk(items[i], depth) && Typed(items[i]) && InRange(items[i])
  }

  lemma {:induction false} ItemsLawful(b: seq<byte>, pos: nat, depth: nat, strict: bool, n: nat)
    requires pos <= |b| && ItemsAt(b, pos, depth, strict, n).Ok?
    ensures var r := ItemsAt(b, pos, depth, strict, n).value;
            AllLawful(r.value, depth, r.pos - pos)
    decreases |b| - pos, 1
  {
    if n > 0 {
      AcceptedLawful(b, pos, depth, strict);
      var first := ValueAt(b, pos, depth, strict).value;
      ItemsLawful(b, first.pos, depth, strict, n - 1);
      var rest := ItemsAt(b, first.pos, depth, strict, n - 1).value.value;
      assert ([first.value] + rest)[1..] == rest;
    }
  }

  ghost predicate AllEntriesLawful(entries: seq<Entry>, depth: nat, cost: int) {
    NodesEntries(entries) <= cost && |Flatten(EncEntries(entries))| <= cost
    && (forall i :: 0 <= i < |entries| ==> DepthOk(entries[i].key, depth) && DepthOk(entries[i].val, depth))
    && (forall i :: 0 <= i < |entries| ==> Typed(entries[i].key) && Typed(entries[i].val))
    && forall i :: 0 <= i < |entries| ==> InRange(entries[i].key) && InRange(entries[i].val)
  }

  ghost predicate EntryLawfulness(e: Entry, depth: nat, cost: int) {
    && DepthOk(e.key, depth) && Typed(e.key) && InRange(e.key)
    && DepthOk(e.val, depth) && Typed(e.val) && InRange(e.val)
    && NodesEntry(e) <= cost && |Enc(e.key)| + |Enc(e.val)| <= cost
  }

  lemma {:induction false} EntriesLawful(b: seq<byte>, pos: nat, depth: nat, strict: bool, n: nat,
                                         seen: set<seq<byte>>, prev: Option<seq<byte>>, at: nat)
    requires pos <= |b| && EntriesAt(b, pos, depth, strict, n, seen, prev, at).Ok?
    ensures var r := EntriesAt(b, pos, depth, strict, n, seen, prev, at).value;
            AllEntriesLawful(r.value, depth, r.pos - pos)
    decreases |b| - pos, 2
  {
    if n > 0 {
      EntryLawful(b, pos, depth, strict, seen, prev, at);
      var first := EntryAt(b, pos, depth, strict, seen, prev, at).value;
      var raw := first.value.key;
      EntriesLawful(b, first.pos, depth, strict, n - 1, seen + {raw}, Some(raw), at);
      var rest := EntriesAt(b, first.pos, depth, strict, n - 1, seen + {raw}, Some(raw), at).value;
      EntryJoins(first.value.item, rest.value, depth, first.pos - pos, rest.pos - first.pos);
    }
  }

  lemma {:induction false} EntryJoins(e: Entry, rest: seq<Entry>, depth: nat, c: int, d: int)
    requires EntryLawfulness(e, depth, c) && AllEntriesLawful(rest, depth, d)
    ensures AllEntriesLawful([e] + rest, depth, c + d)
  {
    assert ([e] + rest)[1..] == rest;
    assert EncEntries([e] + rest)[1..] == EncEntries(rest);
  }

  /** Sorting entries does not change how many bytes they take. */
  lemma {:induction false} SortedLength(pairs: seq<Keyed<seq<byte>>>)
    ensures |Flatten(Sort(pairs))| == |Flatten(pairs)|
  {
    if pairs != [] {
      SortedLength(pairs[1..]);
      InsertedLength(pairs[0], Sort(pairs[1..]));
    }
  }

  lemma {:induction false} InsertedLength(x: Keyed<seq<byte>>, s: seq<Keyed<seq<byte>>>)
    ensures |Flatten(Insert(x, s))| == |x.key| + |x.item| + |Flatten(s)|
  {
    if s != [] && KeyLess(s[0].key, x.key) {
      InsertedLength(x, s[1..]);
      assert Insert(x, s)[1..] == Insert(x, s[1..]);
    } else {
      assert ([x] + s)[1..] == s;
    }
  }

  lemma {:induction false} EntryLawful(b: seq<byte>, pos: nat, depth: nat, strict: bool,
                                       seen: set<seq<byte>>, prev: Option<seq<byte>>, at: nat)
    requires pos <= |b| && EntryAt(b, pos, depth, strict, seen, prev, at).Ok?
    ensures var r := EntryAt(b, pos, depth, strict, seen, prev, at).value;
            EntryLawfulness(r.value.item, depth, r.pos - pos)
    decreases |b| - pos, 1
  {
    AcceptedLawful(b, pos, depth, strict);
    AcceptedLawful(b, ValueAt(b, pos, depth, strict).value.pos, depth, strict);
  }

  // ---- strict acceptance is tolerant acceptance

  lemma {:induction false} ArgumentTolerated(b: seq<byte>, pos: nat, info: byte, offset: nat)
    requires ArgumentAt(b, pos, info, offset, true).Ok?
    ensures ArgumentAt(b, pos, info, offset, false) == ArgumentAt(b, pos, info, offset, true)
  {
  }

  lemma {:induction false} StrictIsTolerated(b: seq<byte>, pos: nat, depth: nat)
    requires pos <= |b| && ValueAt(b, pos, depth, true).Ok?
    ensures ValueAt(b, pos, depth, false) == ValueAt(b, pos, depth, true)
    decreases |b| - pos, 0
  {
    var major, info := b[pos] / 32, b[pos] % 32;
    if major == 4 {
      ArrayTolerated(b, pos + 1, info, depth, pos);
    } else if major == 5 {
      MapTolerated(b, pos + 1, info, depth, pos);
    } else if major < 4 {
      ArgumentTolerated(b, pos + 1, info, pos);
    }
  }

  lemma {:induction false} ArrayTolerated(b: seq<byte>, pos: nat, info: byte, depth: nat, offset: nat)
    requires pos <= |b| && ArrayAt(b, pos, info, depth, offset, true).Ok?
    ensures ArrayAt(b, pos, info, depth, offset, false) == ArrayAt(b, pos, info, depth, offset, true)
    decreases |b| - pos, 3
  {
    ArgumentTolerated(b, pos, info, offset);
    var len := LengthAt(b, pos, info, offset, true).value;
    ItemsTolerated(b, len.pos, depth + 1, len.value);
  }

  lemma {:induction false} MapTolerated(b: seq<byte>, pos: nat, info: byte, depth: nat, offset: nat)
    requires pos <= |b| && MapAt(b, pos, info, depth, offset, true).Ok?
    ensures MapAt(b, pos, info, depth, offset, false) == MapAt(b, pos, info, depth, offset, true)
    decreases |b| - pos, 3
  {
    ArgumentTolerated(b, pos, info, offset);
    var len := LengthAt(b, pos, info, offset, true).value;
    EntriesTolerated(b, len.pos, depth + 1, len.value, {}, None, offset);
  }

  lemma {:induction false} ItemsTolerated(b: seq<byte>, pos: nat, depth: nat, n: nat)
    requires pos <= |b| && ItemsAt(b, pos, depth, true, n).Ok?
    ensures ItemsAt(b, pos, depth, false, n) == ItemsAt(b, pos, depth, true, n)
    decreases |b| - pos, 1
  {
    if n > 0 {
      StrictIsTolerated(b, pos, depth);
      ItemsTolerated(b, ValueAt(b, pos, depth, true).value.pos, depth, n - 1);
    }
  }

  lemma {:induction false} EntriesTolerated(b: seq<byte>, pos: nat, depth: nat, n: nat,
                                            seen: set<seq<byte>>, prev: Option<seq<byte>>, at: nat)
    requires pos <= |b| && EntriesAt(b, pos, depth, true, n, seen, prev, at).Ok?
    ensures EntriesAt(b, pos, depth, false, n, seen, prev, at) == EntriesAt(b, pos, depth, true, n, seen, prev, at)
    decreases |b| - pos, 2
  {
    if n > 0 {
      EntryTolerated(b, pos, depth, seen, prev, at);
      var first := EntryAt(b, pos, depth, true, seen, prev, at).value;
      var raw := first.value.key;
      EntriesTolerated(b, first.pos, depth, n - 1, seen + {raw}, Some(raw), at);
    }
  }

  lemma {:induction false} EntryTolerated(b: seq<byte>, pos: nat, depth: nat,
                                          seen: set<seq<byte>>, prev: Option<seq<byte>>, at: nat)
    requires pos <= |b| && EntryAt(b, pos, depth, true, seen, prev, at).Ok?
    ensures EntryAt(b, pos, depth, false, seen, prev, at) == EntryAt(b, pos, depth, true, seen, prev, at)
    decreases |b| - pos, 1
  {
    StrictIsTolerated(b, pos, depth);
    StrictIsTolerated(b, ValueAt(b, pos, depth, true).value.pos, depth);
  }
}
