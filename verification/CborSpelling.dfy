/**
 Every way of writing a value down: a head for each item in any width its argument fits, and the
 entries of each map in any order. Decoding reads all of them, strict decoding the tidy ones only.
 */
module CborSpelling {
  import opened Wrappers
  import opened ByteOrder
  import opened KeyOrder
  import opened Utf8
  import opened Cbor
  import opened CborDecoder

  /** Where an argument goes: 0 in the first byte, 1 to 4 in the 1, 2, 4 or 8 bytes after it. */
  type Form = f: nat | f <= 4

  datatype Spelling =
    | Number(negative: bool, arg: nat, form: Form)
    | Chars(text: bool, bytes: seq<byte>, form: Form)
    | Items(items: seq<Spelling>, form: Form)
    | Pairs(pairs: seq<Pair>, form: Form)
    | Flag(flag: bool)
    | Nil

  datatype Pair = Pair(key: Spelling, val: Spelling)

  function HeadAs(major: nat, arg: nat, form: Form): (h: seq<byte>)
    requires major < 8
    ensures h != []
  {
    if form == 0 then [major * 32 + arg % 24] else [major * 32 + 23 + form] + ToBE(arg, Width(form - 1))
  }

  predicate Fits(arg: nat, form: Form) {
    if form == 0 then arg < 24 else if form == 4 then arg < U64 else arg < Least(form)
  }

  /** No shorter form would do. */
  predicate Shortest(arg: nat, form: Form) {
    form == 0 || arg >= Least(form - 1)
  }

  /** The bytes. */
  function Spell(s: Spelling): (b: seq<byte>)
    ensures b != []
    decreases s
  {
    match s
    case Number(negative, arg, form) => HeadAs(if negative then 1 else 0, arg, form)
    case Chars(text, bytes, form) => HeadAs(if text then 3 else 2, |bytes|, form) + bytes
    case Items(items, form) => HeadAs(4, |items|, form) + SpellItems(items)
    case Pairs(pairs, form) => HeadAs(5, |pairs|, form) + SpellPairs(pairs)
    case Flag(flag) => [if flag then 0xF5 else 0xF4]
    case Nil => [0xF6]
  }

  function SpellItems(items: seq<Spelling>): seq<byte>
    decreases items
  {
    if items == [] then [] else Spell(items[0]) + SpellItems(items[1..])
  }

  function SpellPairs(pairs: seq<Pair>): seq<byte>
    decreases pairs
  {
    if pairs == [] then [] else SpellPair(pairs[0]) + SpellPairs(pairs[1..])
  }

  function SpellPair(p: Pair): seq<byte>
    decreases p
  {
    Spell(p.key) + Spell(p.val)
  }

  /** The value spelled, its map entries in the order they are written. */
  function Means(s: Spelling): Value
    decreases s
  {
    match s
    case Number(negative, arg, _) => Int(if negative then -1 - arg else arg)
    case Chars(text, bytes, _) => if text then Text(bytes) else Bytes(bytes)
    case Items(items, _) => Array(MeantItems(items))
    case Pairs(pairs, _) => Map(MeantPairs(pairs))
    case Flag(flag) => Bool(flag)
    case Nil => Null
  }

  function MeantItems(items: seq<Spelling>): (vs: seq<Value>)
    ensures |vs| == |items| && forall i :: 0 <= i < |items| ==> vs[i] == Means(items[i])
    decreases items
  {
    if items == [] then [] else [Means(items[0])] + MeantItems(items[1..])
  }

  function MeantPairs(pairs: seq<Pair>): (es: seq<Entry>)
    ensures |es| == |pairs|
    decreases pairs
  {
    if pairs == [] then [] else [MeantPair(pairs[0])] + MeantPairs(pairs[1..])
  }

  function MeantPair(p: Pair): Entry
    decreases p
  {
    Entry(Means(p.key), Means(p.val))
  }

  lemma {:induction false} MeantPairsAt(pairs: seq<Pair>)
    ensures forall i :: 0 <= i < |pairs| ==> MeantPairs(pairs)[i] == MeantPair(pairs[i])
  {
    if pairs != [] { MeantPairsAt(pairs[1..]); }
  }

  // ---- which spellings are read

  /** Arguments fit their forms, text is UTF-8, levels stay below the limit, and no map spells a key twice. */
  ghost predicate Legible(s: Spelling, depth: nat)
    decreases s
  {
    match s
    case Number(_, arg, form) => Fits(arg, form)
    case Chars(text, bytes, form) => Fits(|bytes|, form) && (text ==> ValidUtf8(bytes))
    case Items(items, form) =>
      Fits(|items|, form) && depth < MAX_DEPTH && forall i :: 0 <= i < |items| ==> Legible(items[i], depth + 1)
    case Pairs(pairs, form) =>
      && Fits(|pairs|, form) && depth < MAX_DEPTH
      && (forall i :: 0 <= i < |pairs| ==> Legible(pairs[i].key, depth + 1) && Legible(pairs[i].val, depth + 1))
      && forall i, j :: 0 <= i < j < |pairs| ==> Spell(pairs[i].key) != Spell(pairs[j].key)
    case _ => true
  }

  /** Every head is the shortest and the keys of every map ascend. */
  ghost predicate Tidy(s: Spelling)
    decreases s
  {
    match s
    case Number(_, arg, form) => Shortest(arg, form)
    case Chars(_, bytes, form) => Shortest(|bytes|, form)
    case Items(items, form) => Shortest(|items|, form) && forall i :: 0 <= i < |items| ==> Tidy(items[i])
    case Pairs(pairs, form) =>
      && Shortest(|pairs|, form)
      && (forall i :: 0 <= i < |pairs| ==> Tidy(pairs[i].key) && Tidy(pairs[i].val))
      && forall i, j :: 0 <= i < j < |pairs| ==> KeyLess(Spell(pairs[i].key), Spell(pairs[j].key))
    case _ => true
  }

  // ---- tolerant decoding reads them all

  ghost predicate HeadReads(b: seq<byte>, pos: nat, major: nat, arg: nat, end: nat) {
    && pos < end <= |b| && b[pos] / 32 == major && b[pos] % 32 <= 27
    && ArgumentAt(b, pos + 1, b[pos] % 32, pos, false) == Ok(Read(arg, end))
  }

  ghost predicate ValueReads(b: seq<byte>, pos: nat, depth: nat, v: Value, end: nat) {
    pos < end <= |b| && forall p: Policy :: p.Tolerant? ==> ValueAt(b, pos, depth, p.Strict?) == Ok(Read(v, end))
  }

  ghost predicate ItemsRead(b: seq<byte>, pos: nat, depth: nat, items: seq<Value>, end: nat) {
    && pos <= end <= |b|
    && forall p: Policy :: p.Tolerant? ==> ItemsAt(b, pos, depth, p.Strict?, |items|) == Ok(Read(items, end))
  }

  ghost predicate EntryReads(b: seq<byte>, pos: nat, depth: nat, seen: set<seq<byte>>, prev: Option<seq<byte>>,
                             at: nat, raw: seq<byte>, e: Entry, end: nat)
  {
    && pos < end <= |b|
    && forall p: Policy :: p.Tolerant? ==>
                             EntryAt(b, pos, depth, p.Strict?, seen, prev, at) == Ok(Read(Keyed(raw, e), end))
  }

  ghost predicate EntriesRead(b: seq<byte>, pos: nat, depth: nat, seen: set<seq<byte>>, prev: Option<seq<byte>>,
                              at: nat, es: seq<Entry>, end: nat)
  {
    && pos <= end <= |b|
    && forall p: Policy :: p.Tolerant? ==>
                             EntriesAt(b, pos, depth, p.Strict?, |es|, seen, prev, at) == Ok(Read(es, end))
  }

  // ---- one step of the decoder

  lemma {:induction false} WideFormRead(b: seq<byte>, pos: nat, arg: nat, code: nat, offset: nat)
    requires code < 4 && Fits(arg, code + 1) && At(b, pos, ToBE(arg, Width(code)))
    ensures Wide(b, pos, code, offset, false) == Ok(Read(arg, pos + Width(code)))
  {
    Pow256Values();
    FromBEToBE(arg, Width(code));
  }

  lemma {:induction false} HeadAsRead(b: seq<byte>, pos: nat, major: nat, arg: nat, form: Form, rest: seq<byte>)
    requires major < 8 && Fits(arg, form) && At(b, pos, HeadAs(major, arg, form) + rest)
    ensures var end := pos + |HeadAs(major, arg, form)|;
            HeadReads(b, pos, major, arg, end) && At(b, end, rest)
  {
    AtSplit(b, pos, HeadAs(major, arg, form), rest);
    if form == 0 {
      AtFirst(b, pos, major * 32 + arg % 24, []);
    } else {
      AtFirst(b, pos, major * 32 + 23 + form, ToBE(arg, Width(form - 1)));
      WideFormRead(b, pos + 1, arg, form - 1, pos);
    }
  }

  lemma {:induction false} NumberStep(b: seq<byte>, pos: nat, negative: bool, arg: nat, end: nat, depth: nat)
    requires HeadReads(b, pos, if negative then 1 else 0, arg, end)
    ensures ValueReads(b, pos, depth, Int(if negative then -1 - arg else arg), end)
  {
  }

  lemma {:induction false} CharsStep(b: seq<byte>, pos: nat, p: nat, text: bool, s: seq<byte>, depth: nat)
    requires HeadReads(b, pos, if text then 3 else 2, |s|, p) && |b| < U64
    requires At(b, p, s) && (text ==> ValidUtf8(s))
    ensures ValueReads(b, pos, depth, if text then Text(s) else Bytes(s), p + |s|)
  {
    var v := if text then Text(s) else Bytes(s);
    assert StringAt(b, pos + 1, b[pos] / 32, b[pos] % 32, pos, false) == Ok(Read(v, p + |s|));
  }

  lemma {:induction false} FlagStep(b: seq<byte>, pos: nat, s: Spelling, depth: nat)
    requires (s.Flag? || s.Nil?) && At(b, pos, Spell(s))
    ensures ValueReads(b, pos, depth, Means(s), pos + |Spell(s)|)
  {
    AtFirst(b, pos, Spell(s)[0], []);
  }

  lemma {:induction false} ArrayStep(b: seq<byte>, pos: nat, p: nat, items: seq<Value>, end: nat, depth: nat)
    requires HeadReads(b, pos, 4, |items|, p) && depth < MAX_DEPTH && ItemsRead(b, p, depth + 1, items, end)
    ensures ValueReads(b, pos, depth, Array(items), end)
  {
  }

  lemma {:induction false} MapStep(b: seq<byte>, pos: nat, p: nat, entries: seq<Entry>, end: nat, depth: nat)
    requires HeadReads(b, pos, 5, |entries|, p) && depth < MAX_DEPTH
    requires EntriesRead(b, p, depth + 1, {}, None, pos, entries, end)
    ensures ValueReads(b, pos, depth, Map(entries), end)
  {
  }

  lemma {:induction false} ItemsStep(b: seq<byte>, pos: nat, items: seq<Value>, p: nat, end: nat, depth: nat)
    requires items != [] && ValueReads(b, pos, depth, items[0], p) && ItemsRead(b, p, depth, items[1..], end)
    ensures ItemsRead(b, pos, depth, items, end)
  {
    assert [items[0]] + items[1..] == items;
  }

  lemma {:induction false} EntryStep(b: seq<byte>, pos: nat, k: Value, raw: seq<byte>, w: Value, p: nat, end: nat,
                                     depth: nat, seen: set<seq<byte>>, prev: Option<seq<byte>>, at: nat)
    requires At(b, pos, raw) && p == pos + |raw| && ValueReads(b, pos, depth, k, p)
    requires ValueReads(b, p, depth, w, end) && raw !in seen
    ensures EntryReads(b, pos, depth, seen, prev, at, raw, Entry(k, w), end)
  {
  }

  lemma {:induction false} EntriesStep(b: seq<byte>, pos: nat, es: seq<Entry>, raw: seq<byte>, p: nat, end: nat,
                                       depth: nat, seen: set<seq<byte>>, prev: Option<seq<byte>>, at: nat)
    requires es != [] && EntryReads(b, pos, depth, seen, prev, at, raw, es[0], p)
    requires EntriesRead(b, p, depth, seen + {raw}, Some(raw), at, es[1..], end)
    ensures EntriesRead(b, pos, depth, seen, prev, at, es, end)
  {
    assert [es[0]] + es[1..] == es;
  }

  // ---- spelling by spelling

  ghost predicate AllLegible(items: seq<Spelling>, depth: nat) {
    forall i :: 0 <= i < |items| ==> Legible(items[i], depth)
  }

  ghost predicate PairsLegible(pairs: seq<Pair>, depth: nat) {
    forall i :: 0 <= i < |pairs| ==> Legible(pairs[i].key, depth) && Legible(pairs[i].val, depth)
  }

  /** No key is among those seen, and none is spelled twice. */
  ghost predicate Fresh(pairs: seq<Pair>, seen: set<seq<byte>>) {
    && (forall i :: 0 <= i < |pairs| ==> Spell(pairs[i].key) !in seen)
    && forall i, j :: 0 <= i < j < |pairs| ==> Spell(pairs[i].key) != Spell(pairs[j].key)
  }

  /** Tolerant decoding reads any legible spelling, wherever it stands, and stops at its end. */
  lemma {:induction false} SpellingRead(b: seq<byte>, pos: nat, s: Spelling, depth: nat, end: nat)
    requires Legible(s, depth) && At(b, pos, Spell(s)) && |b| < U64 && end == pos + |Spell(s)|
    ensures ValueReads(b, pos, depth, Means(s), end)
    decreases s
  {
    match s
    case Number(_, _, _) => NumberRead(b, pos, s, depth, end);
    case Chars(_, _, _) => CharsRead(b, pos, s, depth, end);
    case Items(items, _) => ArrayRead(b, pos, s, items, depth, end);
    case Pairs(pairs, _) => MapRead(b, pos, s, pairs, depth, end);
    case _ => FlagStep(b, pos, s, depth);
  }

  lemma {:induction false} NumberRead(b: seq<byte>, pos: nat, s: Spelling, depth: nat, end: nat)
    requires s.Number? && Legible(s, depth) && At(b, pos, Spell(s)) && end == pos + |Spell(s)|
    ensures ValueReads(b, pos, depth, Means(s), end)
  {
    assert Spell(s) + [] == Spell(s);
    HeadAsRead(b, pos, if s.negative then 1 else 0, s.arg, s.form, []);
    NumberStep(b, pos, s.negative, s.arg, end, depth);
  }

  lemma {:induction false} CharsRead(b: seq<byte>, pos: nat, s: Spelling, depth: nat, end: nat)
    requires s.Chars? && Legible(s, depth) && At(b, pos, Spell(s)) && |b| < U64 && end == pos + |Spell(s)|
    ensures ValueReads(b, pos, depth, Means(s), end)
  {
    HeadAsRead(b, pos, if s.text then 3 else 2, |s.bytes|, s.form, s.bytes);
    CharsStep(b, pos, end - |s.bytes|, s.text, s.bytes, depth);
  }

  lemma {:induction false} ArrayRead(b: seq<byte>, pos: nat, s: Spelling, items: seq<Spelling>, depth: nat, end: nat)
    requires s.Items? && s.items == items && Legible(s, depth) && At(b, pos, Spell(s)) && |b| < U64
    requires end == pos + |Spell(s)|
    ensures ValueReads(b, pos, depth, Means(s), end)
    decreases items, 1
  {
    var p := pos + |HeadAs(4, |items|, s.form)|;
    HeadAsRead(b, pos, 4, |items|, s.form, SpellItems(items));
    SpelledItems(b, p, items, depth + 1, end);
    ArrayStep(b, pos, p, MeantItems(items), end, depth);
  }

  lemma {:induction false} MapRead(b: seq<byte>, pos: nat, s: Spelling, pairs: seq<Pair>, depth: nat, end: nat)
    requires s.Pairs? && s.pairs == pairs && Legible(s, depth) && At(b, pos, Spell(s)) && |b| < U64
    requires end == pos + |Spell(s)|
    ensures ValueReads(b, pos, depth, Means(s), end)
    decreases pairs, 1
  {
    var p := pos + |HeadAs(5, |pairs|, s.form)|;
    HeadAsRead(b, pos, 5, |pairs|, s.form, SpellPairs(pairs));
    SpelledPairs(b, p, pairs, depth + 1, {}, None, pos, end);
    MapStep(b, pos, p, MeantPairs(pairs), end, depth);
  }

  lemma {:induction false} SpelledItems(b: seq<byte>, pos: nat, items: seq<Spelling>, depth: nat, end: nat)
    requires |b| < U64 && At(b, pos, SpellItems(items)) && AllLegible(items, depth) && end == pos + |SpellItems(items)|
    ensures ItemsRead(b, pos, depth, MeantItems(items), end)
    decreases items, 0
  {
    if items != [] {
      var first, rest := items[0], items[1..];
      var p := pos + |Spell(first)|;
      AtSplit(b, pos, Spell(first), SpellItems(rest));
      SpellingRead(b, pos, first, depth, p);
      SpelledItems(b, p, rest, depth, end);
      assert MeantItems(items)[1..] == MeantItems(rest);
      ItemsStep(b, pos, MeantItems(items), p, end, depth);
    }
  }

  lemma {:induction false} PairRead(b: seq<byte>, pos: nat, p: Pair, depth: nat, seen: set<seq<byte>>,
                                    prev: Option<seq<byte>>, at: nat, end: nat)
    requires |b| < U64 && At(b, pos, SpellPair(p)) && end == pos + |SpellPair(p)|
    requires Legible(p.key, depth) && Legible(p.val, depth) && Spell(p.key) !in seen
    ensures EntryReads(b, pos, depth, seen, prev, at, Spell(p.key), MeantPair(p), end)
    decreases p
  {
    match p
    case Pair(k, w) =>
      var q := pos + |Spell(k)|;
      AtSplit(b, pos, Spell(k), Spell(w));
      SpellingRead(b, pos, k, depth, q);
      SpellingRead(b, q, w, depth, end);
      EntryStep(b, pos, Means(k), Spell(k), Means(w), q, end, depth, seen, prev, at);
  }

  lemma {:induction false} SpelledPairs(b: seq<byte>, pos: nat, pairs: seq<Pair>, depth: nat, seen: set<seq<byte>>,
                                        prev: Option<seq<byte>>, at: nat, end: nat)
    requires |b| < U64 && At(b, pos, SpellPairs(pairs)) && end == pos + |SpellPairs(pairs)|
    requires Fresh(pairs, seen) && PairsLegible(pairs, depth)
    ensures EntriesRead(b, pos, depth, seen, prev, at, MeantPairs(pairs), end)
    decreases pairs, 0
  {
    if pairs != [] {
      var p, rest := pairs[0], pairs[1..];
      var raw, q := Spell(p.key), pos + |SpellPair(p)|;
      AtSplit(b, pos, SpellPair(p), SpellPairs(rest));
      FreshRest(pairs, seen);
      PairRead(b, pos, p, depth, seen, prev, at, q);
      SpelledPairs(b, q, rest, depth, seen + {raw}, Some(raw), at, end);
      assert MeantPairs(pairs)[1..] == MeantPairs(rest);
      EntriesStep(b, pos, MeantPairs(pairs), raw, q, end, depth, seen, prev, at);
    }
  }

  lemma {:induction false} FreshRest(pairs: seq<Pair>, seen: set<seq<byte>>)
    requires pairs != [] && Fresh(pairs, seen)
    ensures Fresh(pairs[1..], seen + {Spell(pairs[0].key)})
  {
    var rest := pairs[1..];
    forall i | 0 <= i < |rest| ensures Spell(rest[i].key) !in seen + {Spell(pairs[0].key)} {
      assert rest[i] == pairs[i + 1];
    }
    forall i, j | 0 <= i < j < |rest| ensures Spell(rest[i].key) != Spell(rest[j].key) {
      assert rest[i] == pairs[i + 1] && rest[j] == pairs[j + 1];
    }
  }
}
