/**
 Strict decoding accepts canonical bytes only: whatever it accepts is, byte for byte, what the
 encoder emits for the value it returns.
 */
module CborStrict {
  import opened Wrappers
  import opened ByteOrder
  import opened KeyOrder
  import opened Cbor
  import opened CborDecoder

  // ---- heads

  lemma {:induction false} WidthRange(code: nat)
    requires code < 4
    ensures Pow256(Width(code)) == (if code == 3 then U64 else Least(code + 1))
  {
    Pow256Values();
  }

  lemma {:induction false} WideValue(b: seq<byte>, pos: nat, code: nat, offset: nat, strict: bool)
    requires code < 4 && Wide(b, pos, code, offset, strict).Ok?
    ensures var v := Wide(b, pos, code, offset, strict).value.value;
            && v < Pow256(Width(code)) <= U64 && At(b, pos, ToBE(v, Width(code)))
            && Code(v) <= code && (strict ==> v >= 24 && Code(v) == code)
  {
    ToBEFromBE(b[pos..pos + Width(code)]);
    WidthRange(code);
  }

  lemma {:induction false} ArgumentRange(b: seq<byte>, pos: nat, info: byte, offset: nat, strict: bool)
    requires ArgumentAt(b, pos, info, offset, strict).Ok?
    ensures ArgumentAt(b, pos, info, offset, strict).value.value < U64
  {
    if info >= 24 { WideValue(b, pos, info - 24, offset, strict); }
  }

  /** A head read strictly is the shortest head of its argument. */
  lemma {:induction false} HeadWritten(b: seq<byte>, pos: nat, major: nat, info: byte, offset: nat)
    requires pos < |b| && major < 8 && b[pos] == major * 32 + info
    requires ArgumentAt(b, pos + 1, info, offset, true).Ok?
    ensures var a := ArgumentAt(b, pos + 1, info, offset, true).value;
            var h := Head(major, a.value);
            a.value < U64 && At(b, pos, h) && a.pos == pos + |h|
  {
    if info >= 24 {
      WideValue(b, pos + 1, info - 24, offset, true);
      AtSplit(b, pos, [b[pos]], ToBE(Wide(b, pos + 1, info - 24, offset, true).value.value, Width(info - 24)));
    }
  }

  /** No head that either policy reads for an argument is shorter than the one the encoder writes. */
  lemma {:induction false} HeadShortest(b: seq<byte>, pos: nat, info: byte, offset: nat, strict: bool, major: nat)
    requires major < 8 && ArgumentAt(b, pos + 1, info, offset, strict).Ok?
    ensures var a := ArgumentAt(b, pos + 1, info, offset, strict).value;
            |Head(major, a.value)| <= a.pos - pos
  {
    ArgumentRange(b, pos + 1, info, offset, strict);
    if info >= 24 { WideValue(b, pos + 1, info - 24, offset, strict); }
  }

  lemma {:induction false} WideRead(b: seq<byte>, pos: nat, code: nat, arg: nat, offset: nat, strict: bool)
    requires code < 4 && Least(code) <= arg < Pow256(Width(code)) && At(b, pos, ToBE(arg, Width(code)))
    ensures Wide(b, pos, code, offset, strict) == Ok(Read(arg, pos + Width(code)))
  {
    FromBEToBE(arg, Width(code));
  }

  lemma {:induction false} CodeRange(arg: nat)
    requires 24 <= arg < U64
    ensures Least(Code(arg)) <= arg < Pow256(Width(Code(arg)))
  {
    WidthRange(Code(arg));
  }

  /** Reading back the shortest head, under either policy. */
  lemma {:induction false} HeadRead(b: seq<byte>, pos: nat, major: nat, arg: nat, offset: nat, strict: bool)
    requires major < 8 && arg < U64 && At(b, pos, Head(major, arg))
    ensures pos < |b| && b[pos] / 32 == major && b[pos] % 32 <= 27
    ensures ArgumentAt(b, pos + 1, b[pos] % 32, offset, strict) == Ok(Read(arg, pos + |Head(major, arg)|))
  {
    var code := Code(arg);
    if arg < 24 {
      AtFirst(b, pos, major * 32 + arg, []);
    } else {
      AtFirst(b, pos, major * 32 + 24 + code, ToBE(arg, Width(code)));
      CodeRange(arg);
      WideRead(b, pos + 1, code, arg, offset, strict);
    }
  }

  // ---- byte identity

  lemma {:induction false} CanonicalNoDuplicates(v: Value)
    requires Canonical(v)
    ensures NoDuplicates(v)
    decreases v
  {
    match v
    case Array(items) => forall i | 0 <= i < |items| { CanonicalNoDuplicates(items[i]); }
    case Map(entries) =>
      forall i | 0 <= i < |entries| { CanonicalEntry(entries[i]); }
      forall i, j | 0 <= i < j < |entries| ensures Enc(entries[i].key) != Enc(entries[j].key) {
        KeyTotal(Enc(entries[i].key), Enc(entries[j].key));
      }
    case _ =>
  }

  lemma {:induction false} CanonicalEntry(e: Entry)
    requires Canonical(e.key) && Canonical(e.val)
    ensures NoDuplicates(e.key) && NoDuplicates(e.val)
    decreases e
  {
    match e
    case Entry(k, w) =>
      CanonicalNoDuplicates(k);
      CanonicalNoDuplicates(w);
  }

  lemma {:induction false} SortedMapEnc(entries: seq<Entry>)
    requires forall i, j :: 0 <= i < j < |entries| ==> KeyLess(Enc(entries[i].key), Enc(entries[j].key))
    ensures Enc(Map(entries)) == Head(5, |entries|) + Flatten(EncEntries(entries))
  {
    EncEntriesAt(entries);
    AscendingOrdered(EncEntries(entries));
    SortOrderedIsIdentity(EncEntries(entries));
  }

  /** What strict decoding reads is canonical, and its encoding is exactly the bytes read. */
  ghost predicate Reproduced(b: seq<byte>, pos: nat, r: Read<Value>) {
    Canonical(r.value) && At(b, pos, Enc(r.value)) && r.pos == pos + |Enc(r.value)|
  }

  lemma {:induction false} StrictValue(b: seq<byte>, pos: nat, depth: nat)
    requires pos <= |b| && ValueAt(b, pos, depth, true).Ok?
    ensures Reproduced(b, pos, ValueAt(b, pos, depth, true).value)
    decreases |b| - pos, 0
  {
    var major, info := b[pos] / 32, b[pos] % 32;
    if major <= 1 {
      StrictInteger(b, pos, major, info);
    } else if major <= 3 {
      StrictString(b, pos, major, info);
    } else if major == 4 {
      StrictArrayAt(b, pos, info, depth);
    } else if major == 5 {
      StrictMapAt(b, pos, info, depth);
    } else if major == 7 {
      StrictSimple(b, pos, info);
    }
  }

  lemma {:induction false} StrictSimple(b: seq<byte>, pos: nat, info: byte)
    requires pos < |b| && b[pos] == 7 * 32 + info && SimpleAt(pos + 1, info, pos).Ok?
    ensures Reproduced(b, pos, SimpleAt(pos + 1, info, pos).value)
  {
  }

  lemma {:induction false} StrictInteger(b: seq<byte>, pos: nat, major: nat, info: byte)
    requires pos < |b| && major <= 1 && b[pos] == major * 32 + info && IntegerAt(b, pos + 1, major, info, pos, true).Ok?
    ensures Reproduced(b, pos, IntegerAt(b, pos + 1, major, info, pos, true).value)
  {
    HeadWritten(b, pos, major, info, pos);
  }

  lemma {:induction false} StrictString(b: seq<byte>, pos: nat, major: nat, info: byte)
    requires pos < |b| && 2 <= major <= 3 && b[pos] == major * 32 + info
    requires StringAt(b, pos + 1, major, info, pos, true).Ok?
    ensures Reproduced(b, pos, StringAt(b, pos + 1, major, info, pos, true).value)
  {
    HeadWritten(b, pos, major, info, pos);
    var a := ArgumentAt(b, pos + 1, info, pos, true).value;
    StringReproduced(b, pos, major, a.value, a.pos);
  }

  lemma {:induction false} StrictArrayAt(b: seq<byte>, pos: nat, info: byte, depth: nat)
    requires pos < |b| && b[pos] == 4 * 32 + info && ArrayAt(b, pos + 1, info, depth, pos, true).Ok?
    ensures Reproduced(b, pos, ArrayAt(b, pos + 1, info, depth, pos, true).value)
    decreases |b| - pos - 1, 3
  {
    HeadWritten(b, pos, 4, info, pos);
    var a := ArgumentAt(b, pos + 1, info, pos, true).value;
    StrictArray(b, pos, a.pos, depth + 1, a.value);
  }

  lemma {:induction false} StrictMapAt(b: seq<byte>, pos: nat, info: byte, depth: nat)
    requires pos < |b| && b[pos] == 5 * 32 + info && MapAt(b, pos + 1, info, depth, pos, true).Ok?
    ensures Reproduced(b, pos, MapAt(b, pos + 1, info, depth, pos, true).value)
    decreases |b| - pos - 1, 4
  {
    var a := ArgumentAt(b, pos + 1, info, pos, true).value;
    HeadWritten(b, pos, 5, info, pos);
    StrictMap(b, pos, a.pos, depth + 1, a.value, pos);
  }

  lemma {:induction false} StringReproduced(b: seq<byte>, pos: nat, major: nat, len: nat, start: nat)
    requires 2 <= major <= 3 && At(b, pos, Head(major, len)) && start == pos + |Head(major, len)| && start + len <= |b|
    ensures var raw := b[start..start + len];
            Reproduced(b, pos, Read(if major == 2 then Bytes(raw) else Text(raw), start + len))
  {
    var raw := b[start..start + len];
    AtSplit(b, pos, Head(major, len), raw);
    assert |raw| == len;
  }

  lemma {:induction false} StrictArray(b: seq<byte>, pos: nat, p: nat, depth: nat, n: nat)
    requires At(b, pos, Head(4, n)) && p == pos + |Head(4, n)| && ItemsAt(b, p, depth, true, n).Ok?
    ensures var xs := ItemsAt(b, p, depth, true, n).value;
            Reproduced(b, pos, Read(Array(xs.value), xs.pos))
    decreases |b| - pos - 1, 2
  {
    StrictItems(b, p, depth, n);
    AtSplit(b, pos, Head(4, n), EncItems(ItemsAt(b, p, depth, true, n).value.value));
  }

  lemma {:induction false} StrictMap(b: seq<byte>, pos: nat, p: nat, depth: nat, n: nat, at: nat)
    requires At(b, pos, Head(5, n)) && p == pos + |Head(5, n)| && EntriesAt(b, p, depth, true, n, {}, None, at).Ok?
    ensures var es := EntriesAt(b, p, depth, true, n, {}, None, at).value;
            Reproduced(b, pos, Read(Map(es.value), es.pos))
    decreases |b| - pos - 1, 3
  {
    StrictEntries(b, p, depth, n, {}, None, at);
    MapReproduced(b, pos, EntriesAt(b, p, depth, true, n, {}, None, at).value.value);
  }

  lemma {:induction false} MapReproduced(b: seq<byte>, pos: nat, entries: seq<Entry>)
    requires At(b, pos, Head(5, |entries|)) && At(b, pos + |Head(5, |entries|)|, Flatten(EncEntries(entries)))
    requires AscendingFrom(entries, None)
    requires forall i :: 0 <= i < |entries| ==> Canonical(entries[i].key) && Canonical(entries[i].val)
    ensures Reproduced(b, pos, Read(Map(entries), pos + |Head(5, |entries|)| + |Flatten(EncEntries(entries))|))
  {
    SortedMapEnc(entries);
    AtSplit(b, pos, Head(5, |entries|), Flatten(EncEntries(entries)));
  }

  lemma {:induction false} StrictItems(b: seq<byte>, pos: nat, depth: nat, n: nat)
    requires pos <= |b| && ItemsAt(b, pos, depth, true, n).Ok?
    ensures var r := ItemsAt(b, pos, depth, true, n).value;
            ItemsReproduced(b, pos, r.value, r.pos)
    decreases |b| - pos, 1
  {
    if n > 0 {
      StrictValue(b, pos, depth);
      var first := ValueAt(b, pos, depth, true).value;
      StrictItems(b, first.pos, depth, n - 1);
      var rest := ItemsAt(b, first.pos, depth, true, n - 1).value;
      ItemsCons(b, pos, first, rest.value, rest.pos);
    }
  }

  ghost predicate ItemsReproduced(b: seq<byte>, pos: nat, items: seq<Value>, end: nat) {
    At(b, pos, EncItems(items)) && end == pos + |EncItems(items)|
    && forall i :: 0 <= i < |items| ==> Canonical(items[i])
  }

  lemma {:induction false} ItemsCons(b: seq<byte>, pos: nat, first: Read<Value>, rest: seq<Value>, end: nat)
    requires Reproduced(b, pos, first) && ItemsReproduced(b, first.pos, rest, end)
    ensures ItemsReproduced(b, pos, [first.value] + rest, end)
  {
    assert ([first.value] + rest)[1..] == rest;
    AtSplit(b, pos, Enc(first.value), EncItems(rest));
  }

  /** One entry read strictly: canonical, reproduced, and its key above the previous one. */
  ghost predicate EntryReproduced(b: seq<byte>, pos: nat, e: Keyed<Entry>, end: nat, prev: Option<seq<byte>>) {
    && Enc(e.item.key) == e.key && At(b, pos, Enc(e.item.key) + Enc(e.item.val))
    && end == pos + |Enc(e.item.key) + Enc(e.item.val)|
    && Canonical(e.item.key) && Canonical(e.item.val)
    && (prev.Some? ==> KeyLess(prev.value, e.key))
  }

  lemma {:induction false} StrictEntry(b: seq<byte>, pos: nat, depth: nat,
                                       seen: set<seq<byte>>, prev: Option<seq<byte>>, at: nat)
    requires pos <= |b| && EntryAt(b, pos, depth, true, seen, prev, at).Ok?
    ensures var r := EntryAt(b, pos, depth, true, seen, prev, at).value;
            EntryReproduced(b, pos, r.value, r.pos, prev)
    decreases |b| - pos, 1
  {
    StrictValue(b, pos, depth);
    var key := ValueAt(b, pos, depth, true).value;
    StrictValue(b, key.pos, depth);
    AtSplit(b, pos, Enc(key.value), Enc(ValueAt(b, key.pos, depth, true).value.value));
  }

  ghost predicate EntriesReproduced(b: seq<byte>, pos: nat, entries: seq<Entry>, end: nat, prev: Option<seq<byte>>) {
    && At(b, pos, Flatten(EncEntries(entries))) && end == pos + |Flatten(EncEntries(entries))|
    && AscendingFrom(entries, prev)
    && forall i :: 0 <= i < |entries| ==> Canonical(entries[i].key) && Canonical(entries[i].val)
  }

  lemma {:induction false} StrictEntries(b: seq<byte>, pos: nat, depth: nat, n: nat,
                                         seen: set<seq<byte>>, prev: Option<seq<byte>>, at: nat)
    requires pos <= |b| && EntriesAt(b, pos, depth, true, n, seen, prev, at).Ok?
    ensures var r := EntriesAt(b, pos, depth, true, n, seen, prev, at).value;
            EntriesReproduced(b, pos, r.value, r.pos, prev)
    decreases |b| - pos, 2
  {
    if n > 0 {
      StrictEntry(b, pos, depth, seen, prev, at);
      var first := EntryAt(b, pos, depth, true, seen, prev, at).value;
      var raw := first.value.key;
      StrictEntries(b, first.pos, depth, n - 1, seen + {raw}, Some(raw), at);
      var rest := EntriesAt(b, first.pos, depth, true, n - 1, seen + {raw}, Some(raw), at).value;
      EntriesCons(b, pos, first, rest.value, rest.pos, prev);
    }
  }

  lemma {:induction false} EntriesCons(b: seq<byte>, pos: nat, first: Read<Keyed<Entry>>, rest: seq<Entry>, end: nat,
                                       prev: Option<seq<byte>>)
    requires EntryReproduced(b, pos, first.value, first.pos, prev)
    requires EntriesReproduced(b, first.pos, rest, end, Some(first.value.key))
    ensures EntriesReproduced(b, pos, [first.value.item] + rest, end, prev)
  {
    var e := first.value.item;
    assert ([e] + rest)[1..] == rest;
    AtSplit(b, pos, Enc(e.key) + Enc(e.val), Flatten(EncEntries(rest)));
    AscendingCons(e, rest, prev);
  }

  /** Keys strictly ascending, all above `prev`. */
  ghost predicate AscendingFrom(entries: seq<Entry>, prev: Option<seq<byte>>) {
    (forall i, j :: 0 <= i < j < |entries| ==> KeyLess(Enc(entries[i].key), Enc(entries[j].key)))
    && forall i :: prev.Some? && 0 <= i < |entries| ==> KeyLess(prev.value, Enc(entries[i].key))
  }

  lemma {:induction false} AscendingCons(e: Entry, rest: seq<Entry>, prev: Option<seq<byte>>)
    requires AscendingFrom(rest, Some(Enc(e.key)))
    requires prev.Some? ==> KeyLess(prev.value, Enc(e.key))
    ensures AscendingFrom([e] + rest, prev)
  {
    forall i | prev.Some? && 0 <= i < |rest| ensures KeyLess(prev.value, Enc(rest[i].key)) {
      KeyTransitive(prev.value, Enc(e.key), Enc(rest[i].key));
    }
  }
}
