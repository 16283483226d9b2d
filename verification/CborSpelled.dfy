/**
 The languages of the two policies: tolerant decoding accepts the legible spellings and nothing
 else, strict decoding the tidy ones among them.
 */
module CborSpelled {
  import opened Wrappers
  import opened ByteOrder
  import opened KeyOrder
  import opened Utf8
  import opened Cbor
  import opened CborDecoder
  import opened CborStrict
  import opened CborRead
  import opened CborTheorems
  import opened CborSpelling

  // ---- a tidy spelling is the canonical encoding

  /** The form the encoder chooses. */
  function OwnForm(arg: nat): Form {
    if arg < 24 then 0 else Code(arg) + 1
  }

  lemma {:induction false} OwnHead(major: nat, arg: nat)
    requires major < 8 && arg < U64
    ensures Head(major, arg) == HeadAs(major, arg, OwnForm(arg))
  {
  }

  lemma {:induction false} OwnFormIsLeast(arg: nat, form: Form)
    requires Fits(arg, form)
    ensures arg < U64 && OwnForm(arg) <= form && (Shortest(arg, form) <==> OwnForm(arg) == form)
  {
  }

  lemma {:induction false} LongerForm(major: nat, arg: nat, f: Form, g: Form)
    requires major < 8 && f <= g
    ensures |HeadAs(major, arg, f)| <= |HeadAs(major, arg, g)|
    ensures |HeadAs(major, arg, f)| == |HeadAs(major, arg, g)| <==> f == g
  {
  }

  lemma {:induction false} ShortestHead(major: nat, arg: nat, form: Form)
    requires major < 8 && Fits(arg, form)
    ensures arg < U64 && |Head(major, arg)| <= |HeadAs(major, arg, form)|
    ensures Shortest(arg, form) <==> |Head(major, arg)| == |HeadAs(major, arg, form)|
    ensures Shortest(arg, form) ==> Head(major, arg) == HeadAs(major, arg, form)
  {
    OwnFormIsLeast(arg, form);
    OwnHead(major, arg);
    LongerForm(major, arg, OwnForm(arg), form);
  }

  /** `s` is written as the encoder would write its value, which is canonical. */
  ghost predicate AsEncoded(s: Spelling) {
    Spell(s) == Enc(Means(s)) && Canonical(Means(s))
  }

  lemma {:induction false} TidyEncoded(s: Spelling, depth: nat)
    requires Legible(s, depth) && Tidy(s)
    ensures AsEncoded(s)
    decreases s
  {
    match s
    case Number(negative, arg, form) => ShortestHead(if negative then 1 else 0, arg, form);
    case Chars(text, bytes, form) => ShortestHead(if text then 3 else 2, |bytes|, form);
    case Items(items, form) =>
      ShortestHead(4, |items|, form);
      forall i | 0 <= i < |items| { TidyEncoded(items[i], depth + 1); }
      ItemsEncoded(items);
    case Pairs(pairs, form) =>
      ShortestHead(5, |pairs|, form);
      forall i | 0 <= i < |pairs| ensures AsEncoded(pairs[i].key) && AsEncoded(pairs[i].val) {
        TidyPair(pairs[i], depth + 1);
      }
      PairsEncoded(pairs);
    case _ =>
  }

  lemma {:induction false} TidyPair(p: Pair, depth: nat)
    requires Legible(p.key, depth) && Legible(p.val, depth) && Tidy(p.key) && Tidy(p.val)
    ensures AsEncoded(p.key) && AsEncoded(p.val)
    decreases p
  {
    match p
    case Pair(k, w) =>
      TidyEncoded(k, depth);
      TidyEncoded(w, depth);
  }

  lemma {:induction false} ItemsEncoded(items: seq<Spelling>)
    requires forall i :: 0 <= i < |items| ==> AsEncoded(items[i])
    ensures SpellItems(items) == EncItems(MeantItems(items))
  {
    if items != [] {
      ItemsEncoded(items[1..]);
      assert MeantItems(items)[1..] == MeantItems(items[1..]);
    }
  }

  lemma {:induction false} PairsFlat(pairs: seq<Pair>)
    requires forall i :: 0 <= i < |pairs| ==> AsEncoded(pairs[i].key) && AsEncoded(pairs[i].val)
    ensures SpellPairs(pairs) == Flatten(EncEntries(MeantPairs(pairs)))
  {
    if pairs != [] {
      var es := MeantPairs(pairs);
      PairsFlat(pairs[1..]);
      assert es[1..] == MeantPairs(pairs[1..]);
      assert EncEntries(es)[1..] == EncEntries(es[1..]);
    }
  }

  lemma {:induction false} PairsEncoded(pairs: seq<Pair>)
    requires forall i :: 0 <= i < |pairs| ==> AsEncoded(pairs[i].key) && AsEncoded(pairs[i].val)
    requires forall i, j :: 0 <= i < j < |pairs| ==> KeyLess(Spell(pairs[i].key), Spell(pairs[j].key))
    ensures var es := MeantPairs(pairs);
            Canonical(Map(es)) && Enc(Map(es)) == Head(5, |pairs|) + SpellPairs(pairs)
  {
    var es := MeantPairs(pairs);
    MeantPairsAt(pairs);
    PairsFlat(pairs);
    forall i, j | 0 <= i < j < |es| ensures KeyLess(Enc(es[i].key), Enc(es[j].key)) {
      assert KeyLess(Spell(pairs[i].key), Spell(pairs[j].key));
    }
    SortedMapEnc(es);
  }

  /** What a legible spelling means fits the wire and the levels. */
  lemma {:induction false} LegibleMeaning(s: Spelling, depth: nat)
    requires Legible(s, depth)
    ensures Typed(Means(s)) && InRange(Means(s)) && DepthOk(Means(s), depth)
    decreases s
  {
    match s
    case Items(items, _) => forall i | 0 <= i < |items| { LegibleMeaning(items[i], depth + 1); }
    case Pairs(pairs, _) =>
      MeantPairsAt(pairs);
      forall i | 0 <= i < |pairs| { LegiblePair(pairs[i], depth + 1); }
    case _ =>
  }

  lemma {:induction false} LegiblePair(p: Pair, depth: nat)
    requires Legible(p.key, depth) && Legible(p.val, depth)
    ensures Typed(Means(p.key)) && InRange(Means(p.key)) && DepthOk(Means(p.key), depth)
    ensures Typed(Means(p.val)) && InRange(Means(p.val)) && DepthOk(Means(p.val), depth)
    decreases p
  {
    match p
    case Pair(k, w) =>
      LegibleMeaning(k, depth);
      LegibleMeaning(w, depth);
  }

  // ---- an untidy spelling is longer, or out of order

  /** No shorter than the canonical encoding, and tidy if no longer. */
  ghost predicate Slack(s: Spelling) {
    |Enc(Means(s))| <= |Spell(s)| && (|Enc(Means(s))| == |Spell(s)| ==> Tidy(s))
  }

  lemma {:induction false} SlackOf(s: Spelling, depth: nat)
    requires Legible(s, depth) && Canonical(Means(s))
    ensures Slack(s)
    decreases s
  {
    match s
    case Number(negative, arg, form) => ShortestHead(if negative then 1 else 0, arg, form);
    case Chars(text, bytes, form) => ShortestHead(if text then 3 else 2, |bytes|, form);
    case Items(items, form) =>
      ShortestHead(4, |items|, form);
      forall i | 0 <= i < |items| ensures Slack(items[i]) {
        assert Canonical(MeantItems(items)[i]);
        SlackOf(items[i], depth + 1);
      }
      ItemsSlack(items);
    case Pairs(pairs, form) =>
      ShortestHead(5, |pairs|, form);
      MeantPairsAt(pairs);
      forall i | 0 <= i < |pairs| ensures Slack(pairs[i].key) && Slack(pairs[i].val) {
        assert Canonical(MeantPairs(pairs)[i].key) && Canonical(MeantPairs(pairs)[i].val);
        PairSlack(pairs[i], depth + 1);
      }
      MapSlack(pairs, form, depth);
    case _ =>
  }

  lemma {:induction false} PairSlack(p: Pair, depth: nat)
    requires Legible(p.key, depth) && Legible(p.val, depth) && Canonical(Means(p.key)) && Canonical(Means(p.val))
    ensures Slack(p.key) && Slack(p.val)
    decreases p
  {
    match p
    case Pair(k, w) =>
      SlackOf(k, depth);
      SlackOf(w, depth);
  }

  lemma {:induction false} ItemsSlack(items: seq<Spelling>)
    requires forall i :: 0 <= i < |items| ==> Slack(items[i])
    ensures |EncItems(MeantItems(items))| <= |SpellItems(items)|
    ensures |EncItems(MeantItems(items))| == |SpellItems(items)| ==> forall i :: 0 <= i < |items| ==> Tidy(items[i])
  {
    if items != [] {
      ItemsSlack(items[1..]);
      assert MeantItems(items)[1..] == MeantItems(items[1..]);
    }
  }

  lemma {:induction false} PairsSlack(pairs: seq<Pair>)
    requires forall i :: 0 <= i < |pairs| ==> Slack(pairs[i].key) && Slack(pairs[i].val)
    ensures var n := |Flatten(EncEntries(MeantPairs(pairs)))|;
            && n <= |SpellPairs(pairs)|
            && (n == |SpellPairs(pairs)| ==> forall i :: 0 <= i < |pairs| ==> Tidy(pairs[i].key) && Tidy(pairs[i].val))
  {
    if pairs != [] {
      var es := MeantPairs(pairs);
      PairsSlack(pairs[1..]);
      assert es[1..] == MeantPairs(pairs[1..]);
      assert EncEntries(es)[1..] == EncEntries(es[1..]);
    }
  }

  lemma {:induction false} MapSlack(pairs: seq<Pair>, form: Form, depth: nat)
    requires Legible(Pairs(pairs, form), depth) && Canonical(Map(MeantPairs(pairs)))
    requires forall i :: 0 <= i < |pairs| ==> Slack(pairs[i].key) && Slack(pairs[i].val)
    ensures Slack(Pairs(pairs, form))
  {
    var es, s := MeantPairs(pairs), Pairs(pairs, form);
    ShortestHead(5, |pairs|, form);
    SortedMapEnc(es);
    PairsSlack(pairs);
    if |Enc(Means(s))| == |Spell(s)| {
      MeantPairsAt(pairs);
      forall i | 0 <= i < |pairs| ensures Spell(pairs[i].key) == Enc(es[i].key) {
        TidyEncoded(pairs[i].key, depth + 1);
      }
    }
  }

  // ---- everything tolerant decoding accepts is a spelling

  /** `s` is the spelling read between `pos` and `end`. */
  ghost predicate SpelledAt(b: seq<byte>, pos: nat, depth: nat, s: Spelling, v: Value, end: nat) {
    Legible(s, depth) && At(b, pos, Spell(s)) && end == pos + |Spell(s)| && Means(s) == v
  }

  lemma {:induction false} HeadSpelled(b: seq<byte>, pos: nat, info: byte, major: nat) returns (form: Form)
    requires pos < |b| && major < 8 && b[pos] == major * 32 + info
    requires ArgumentAt(b, pos + 1, info, pos, false).Ok?
    ensures var a := ArgumentAt(b, pos + 1, info, pos, false).value;
            Fits(a.value, form) && At(b, pos, HeadAs(major, a.value, form))
            && a.pos == pos + |HeadAs(major, a.value, form)|
  {
    var a := ArgumentAt(b, pos + 1, info, pos, false).value;
    if info < 24 {
      form := 0;
      AtFirst(b, pos, b[pos], []);
      assert HeadAs(major, info, 0) == [b[pos]];
    } else {
      form := info - 23;
      WideValue(b, pos + 1, info - 24, pos, false);
      WidthRange(info - 24);
      AtFirst(b, pos, b[pos], ToBE(a.value, Width(info - 24)));
    }
  }

  lemma {:induction false} ValueSpelled(b: seq<byte>, pos: nat, depth: nat) returns (s: Spelling)
    requires pos <= |b| && |b| < U64 && ValueAt(b, pos, depth, false).Ok?
    ensures var r := ValueAt(b, pos, depth, false).value;
            SpelledAt(b, pos, depth, s, r.value, r.pos)
    decreases |b| - pos, 0
  {
    var major, info := b[pos] / 32, b[pos] % 32;
    if major <= 1 {
      s := NumberSpelled(b, pos, depth);
    } else if major <= 3 {
      s := CharsSpelled(b, pos, depth);
    } else if major == 4 {
      s := ArraySpelled(b, pos, depth);
    } else if major == 5 {
      s := MapSpelled(b, pos, depth);
    } else {
      s := FlagSpelled(b, pos, depth);
    }
  }

  lemma {:induction false} NumberSpelled(b: seq<byte>, pos: nat, depth: nat) returns (s: Spelling)
    requires pos < |b| && ValueAt(b, pos, depth, false).Ok? && b[pos] / 32 <= 1
    ensures var r := ValueAt(b, pos, depth, false).value;
            SpelledAt(b, pos, depth, s, r.value, r.pos)
  {
    var major, info := b[pos] / 32, b[pos] % 32;
    var form := HeadSpelled(b, pos, info, major);
    s := Number(major == 1, ArgumentAt(b, pos + 1, info, pos, false).value.value, form);
  }

  /** A string read: its length is there, and what it says is the bytes after it. */
  lemma {:induction false} CharsThere(b: seq<byte>, pos: nat, depth: nat, len: Read<nat>)
    requires pos < |b| && ValueAt(b, pos, depth, false).Ok? && 2 <= b[pos] / 32 <= 3
    requires ArgumentAt(b, pos + 1, b[pos] % 32, pos, false) == Ok(len)
    ensures pos < len.pos && len.pos + len.value <= |b|
    ensures var raw := b[len.pos..len.pos + len.value];
            && ValueAt(b, pos, depth, false) == Ok(Read(if b[pos] / 32 == 3 then Text(raw) else Bytes(raw),
                                                        len.pos + len.value))
            && (b[pos] / 32 == 3 ==> ValidUtf8(raw))
  {
  }

  lemma {:induction false} CharsSpelled(b: seq<byte>, pos: nat, depth: nat) returns (s: Spelling)
    requires pos < |b| && ValueAt(b, pos, depth, false).Ok? && 2 <= b[pos] / 32 <= 3
    ensures var r := ValueAt(b, pos, depth, false).value;
            SpelledAt(b, pos, depth, s, r.value, r.pos)
  {
    var form, len := StringHead(b, pos, depth);
    CharsThere(b, pos, depth, len);
    var raw := b[len.pos..len.pos + len.value];
    s := Chars(b[pos] / 32 == 3, raw, form);
    CharsJoined(b, pos, depth, b[pos] / 32 == 3, raw, form);
  }

  lemma {:induction false} StringHead(b: seq<byte>, pos: nat, depth: nat) returns (form: Form, len: Read<nat>)
    requires pos < |b| && ValueAt(b, pos, depth, false).Ok? && 2 <= b[pos] / 32 <= 3
    ensures ArgumentAt(b, pos + 1, b[pos] % 32, pos, false) == Ok(len) && Fits(len.value, form)
    ensures var head := HeadAs(if b[pos] / 32 == 3 then 3 else 2, len.value, form);
            At(b, pos, head) && len.pos == pos + |head|
  {
    form := HeadSpelled(b, pos, b[pos] % 32, b[pos] / 32);
    len := ArgumentAt(b, pos + 1, b[pos] % 32, pos, false).value;
  }

  lemma {:induction false} CharsJoined(b: seq<byte>, pos: nat, depth: nat, text: bool, raw: seq<byte>, form: Form)
    requires Fits(|raw|, form) && At(b, pos, HeadAs(if text then 3 else 2, |raw|, form))
    requires At(b, pos + |HeadAs(if text then 3 else 2, |raw|, form)|, raw) && (text ==> ValidUtf8(raw))
    ensures SpelledAt(b, pos, depth, Chars(text, raw, form), if text then Text(raw) else Bytes(raw),
                      pos + |HeadAs(if text then 3 else 2, |raw|, form)| + |raw|)
  {
    AtSplit(b, pos, HeadAs(if text then 3 else 2, |raw|, form), raw);
  }

  lemma {:induction false} FlagSpelled(b: seq<byte>, pos: nat, depth: nat) returns (s: Spelling)
    requires pos < |b| && ValueAt(b, pos, depth, false).Ok? && b[pos] / 32 >= 6
    ensures var r := ValueAt(b, pos, depth, false).value;
            SpelledAt(b, pos, depth, s, r.value, r.pos)
  {
    var info := b[pos] % 32;
    s := if info == 20 then Flag(false) else if info == 21 then Flag(true) else Nil;
    AtFirst(b, pos, b[pos], []);
  }

  lemma {:induction false} ArraySpelled(b: seq<byte>, pos: nat, depth: nat) returns (s: Spelling)
    requires pos < |b| && |b| < U64 && ValueAt(b, pos, depth, false).Ok? && b[pos] / 32 == 4
    ensures var r := ValueAt(b, pos, depth, false).value;
            SpelledAt(b, pos, depth, s, r.value, r.pos)
    decreases |b| - pos - 1, 3
  {
    var info := b[pos] % 32;
    var form := HeadSpelled(b, pos, info, 4);
    var len := ArgumentAt(b, pos + 1, info, pos, false).value;
    var items := ItemsSpelled(b, len.pos, depth + 1, len.value);
    s := Items(items, form);
    AtSplit(b, pos, HeadAs(4, len.value, form), SpellItems(items));
  }

  lemma {:induction false} MapSpelled(b: seq<byte>, pos: nat, depth: nat) returns (s: Spelling)
    requires pos < |b| && |b| < U64 && ValueAt(b, pos, depth, false).Ok? && b[pos] / 32 == 5
    ensures var r := ValueAt(b, pos, depth, false).value;
            SpelledAt(b, pos, depth, s, r.value, r.pos)
    decreases |b| - pos - 1, 3
  {
    var info := b[pos] % 32;
    var form := HeadSpelled(b, pos, info, 5);
    var len := ArgumentAt(b, pos + 1, info, pos, false).value;
    var pairs := PairsSpelled(b, len.pos, depth + 1, len.value, {}, None, pos);
    s := Pairs(pairs, form);
    AtSplit(b, pos, HeadAs(5, len.value, form), SpellPairs(pairs));
  }

  /** The items read, and where they end. */
  ghost predicate ItemsWrittenAt(b: seq<byte>, pos: nat, depth: nat, items: seq<Spelling>, value: seq<Value>,
                                 end: nat) {
    && pos <= |b| && AllLegible(items, depth) && At(b, pos, SpellItems(items)) && end == pos + |SpellItems(items)|
    && MeantItems(items) == value
  }

  lemma {:induction false} ItemsSpelled(b: seq<byte>, pos: nat, depth: nat, n: nat) returns (items: seq<Spelling>)
    requires pos <= |b| && |b| < U64 && ItemsAt(b, pos, depth, false, n).Ok?
    ensures var r := ItemsAt(b, pos, depth, false, n).value;
            ItemsWrittenAt(b, pos, depth, items, r.value, r.pos) && |items| == n
    decreases |b| - pos, 1
  {
    items := [];
    if n > 0 {
      var v := ValueAt(b, pos, depth, false).value;
      var first := ValueSpelled(b, pos, depth);
      var rest := ItemsSpelled(b, v.pos, depth, n - 1);
      var later := ItemsAt(b, v.pos, depth, false, n - 1).value;
      items := [first] + rest;
      ItemsJoined(b, pos, depth, first, v.value, v.pos, rest, later.value, later.pos);
    }
  }

  lemma {:induction false} ItemsJoined(b: seq<byte>, pos: nat, depth: nat, first: Spelling, v: Value, next: nat,
                                       rest: seq<Spelling>, later: seq<Value>, end: nat)
    requires SpelledAt(b, pos, depth, first, v, next) && ItemsWrittenAt(b, next, depth, rest, later, end)
    ensures ItemsWrittenAt(b, pos, depth, [first] + rest, [v] + later, end)
  {
    var items := [first] + rest;
    assert items[1..] == rest;
    AtSplit(b, pos, Spell(first), SpellItems(rest));
  }

  lemma {:induction false} PairSpelled(b: seq<byte>, pos: nat, depth: nat, seen: set<seq<byte>>,
                                       prev: Option<seq<byte>>, at: nat) returns (p: Pair)
    requires pos <= |b| && |b| < U64 && EntryAt(b, pos, depth, false, seen, prev, at).Ok?
    ensures var r := EntryAt(b, pos, depth, false, seen, prev, at).value;
            && Legible(p.key, depth) && Legible(p.val, depth) && At(b, pos, SpellPair(p))
            && r.pos == pos + |SpellPair(p)| && r.value == Keyed(Spell(p.key), MeantPair(p))
            && Spell(p.key) !in seen
    decreases |b| - pos, 1
  {
    var key := ValueAt(b, pos, depth, false).value;
    var k := ValueSpelled(b, pos, depth);
    var w := ValueSpelled(b, key.pos, depth);
    p := Pair(k, w);
    assert b[pos..key.pos] == Spell(k);
    AtSplit(b, pos, Spell(k), Spell(w));
  }

  /** The pairs read, and where they end. */
  ghost predicate PairsAt(b: seq<byte>, pos: nat, depth: nat, seen: set<seq<byte>>, pairs: seq<Pair>,
                          value: seq<Entry>, end: nat) {
    && pos <= |b| && PairsLegible(pairs, depth) && Fresh(pairs, seen) && At(b, pos, SpellPairs(pairs))
    && end == pos + |SpellPairs(pairs)| && MeantPairs(pairs) == value
  }

  lemma {:induction false} PairsSpelled(b: seq<byte>, pos: nat, depth: nat, n: nat, seen: set<seq<byte>>,
                                        prev: Option<seq<byte>>, at: nat) returns (pairs: seq<Pair>)
    requires pos <= |b| && |b| < U64 && EntriesAt(b, pos, depth, false, n, seen, prev, at).Ok?
    ensures var r := EntriesAt(b, pos, depth, false, n, seen, prev, at).value;
            PairsAt(b, pos, depth, seen, pairs, r.value, r.pos) && |pairs| == n
    decreases |b| - pos, 2
  {
    pairs := [];
    if n > 0 {
      var e := EntryAt(b, pos, depth, false, seen, prev, at).value;
      var p := PairSpelled(b, pos, depth, seen, prev, at);
      var raw, next := e.value.key, e.pos;
      var rest := PairsSpelled(b, next, depth, n - 1, seen + {raw}, Some(raw), at);
      var later := EntriesAt(b, next, depth, false, n - 1, seen + {raw}, Some(raw), at).value;
      pairs := [p] + rest;
      PairsJoined(b, pos, depth, seen, p, rest, later.value, later.pos);
    }
  }

  lemma {:induction false} PairsJoined(b: seq<byte>, pos: nat, depth: nat, seen: set<seq<byte>>, p: Pair,
                                       rest: seq<Pair>, later: seq<Entry>, end: nat)
    requires pos <= |b| && Legible(p.key, depth) && Legible(p.val, depth) && At(b, pos, SpellPair(p))
    requires Spell(p.key) !in seen
    requires PairsAt(b, pos + |SpellPair(p)|, depth, seen + {Spell(p.key)}, rest, later, end)
    ensures PairsAt(b, pos, depth, seen, [p] + rest, [MeantPair(p)] + later, end)
  {
    var pairs := [p] + rest;
    assert pairs[1..] == rest;
    AtSplit(b, pos, SpellPair(p), SpellPairs(rest));
    FreshFirst(p, rest, seen);
  }

  lemma {:induction false} FreshFirst(p: Pair, rest: seq<Pair>, seen: set<seq<byte>>)
    requires Spell(p.key) !in seen && Fresh(rest, seen + {Spell(p.key)})
    ensures Fresh([p] + rest, seen)
  {
    var pairs := [p] + rest;
    forall i | 0 <= i < |pairs| ensures Spell(pairs[i].key) !in seen {
      if i > 0 { assert pairs[i] == rest[i - 1]; }
    }
    forall i, j | 0 <= i < j < |pairs| ensures Spell(pairs[i].key) != Spell(pairs[j].key) {
      assert pairs[j] == rest[j - 1];
      if i > 0 { assert pairs[i] == rest[i - 1]; }
    }
  }

  // ---- the two languages

  /** Decoding a legible spelling: tolerant decoding gives its value, strict decoding if and only if it is tidy. */
  lemma {:induction false} SpellingDecoded(s: Spelling)
    requires Legible(s, 0) && |Spell(s)| < U64
    ensures Decode(Spell(s), Tolerant) == Ok(Means(s))
    ensures Decode(Spell(s), Strict).Ok? <==> Tidy(s)
    ensures Tidy(s) ==> Decode(Spell(s), Strict) == Ok(Means(s))
  {
    var b, v := Spell(s), Means(s);
    SpellingRead(b, 0, s, 0, |b|);
    assert ValueAt(b, 0, 0, Tolerant.Strict?) == Ok(Read(v, |b|));
    if Tidy(s) {
      TidyEncoded(s, 0);
      LegibleMeaning(s, 0);
      ReadCanonical(b, 0, v, 0, |b|);
      assert ValueAt(b, 0, 0, Strict.Strict?) == Ok(Read(v, |b|));
    }
    if Decode(b, Strict).Ok? {
      StrictWithinTolerant(b);
      StrictValue(b, 0, 0);
      SlackOf(s, 0);
    }
  }

  /** The tolerant language: exactly the legible spellings, each read as what it means. */
  lemma {:induction false} TolerantLanguage(b: seq<byte>, v: Value)
    requires |b| < U64
    ensures Decode(b, Tolerant) == Ok(v) <==> exists s :: Legible(s, 0) && Spell(s) == b && Means(s) == v
  {
    if Decode(b, Tolerant) == Ok(v) {
      var s := ValueSpelled(b, 0, 0);
      assert b[0..|b|] == b;
    }
    if s :| Legible(s, 0) && Spell(s) == b && Means(s) == v {
      SpellingDecoded(s);
    }
  }

  // ---- the entries of a map in any order

  lemma {:induction false} PlainSpelling(v: Value, depth: nat) returns (s: Spelling)
    requires Plain(v, depth) && |Enc(v)| < U64
    ensures Legible(s, depth) && Spell(s) == Enc(v) && Means(s) == v && Tidy(s)
  {
    var b := Enc(v);
    ReadCanonical(b, 0, v, depth, |b|);
    assert ValueAt(b, 0, depth, Tolerant.Strict?) == Ok(Read(v, |b|));
    s := ValueSpelled(b, 0, depth);
    assert b[0..|b|] == b;
    SlackOf(s, depth);
  }

  lemma {:induction false} EntriesSpelling(entries: seq<Entry>, depth: nat) returns (pairs: seq<Pair>)
    requires PlainEntries(entries, depth) && |Flatten(EncEntries(entries))| < U64
    ensures |pairs| == |entries| && PairsLegible(pairs, depth) && MeantPairs(pairs) == entries
    ensures SpellPairs(pairs) == Flatten(EncEntries(entries))
    ensures forall i :: 0 <= i < |pairs| ==>
                          Spell(pairs[i].key) == Enc(entries[i].key) && Tidy(pairs[i].key) && Tidy(pairs[i].val)
  {
    pairs := [];
    if entries != [] {
      var e, es := entries[0], EncEntries(entries);
      assert es[1..] == EncEntries(entries[1..]);
      var k := PlainSpelling(e.key, depth);
      var w := PlainSpelling(e.val, depth);
      var rest := EntriesSpelling(entries[1..], depth);
      pairs := [Pair(k, w)] + rest;
      assert pairs[1..] == rest;
    }
  }

  /**
   A head of major type 5 in any form, and then canonical entries with distinct keys in any order:
   tolerant decoding gives exactly those entries in that order; strict decoding accepts if and only
   if the head is the shortest and the keys ascend.
   */
  lemma {:induction false} MapInAnyOrder(entries: seq<Entry>, form: Form)
    requires PlainEntries(entries, 1) && Fits(|entries|, form)
    requires forall i, j :: 0 <= i < j < |entries| ==> Enc(entries[i].key) != Enc(entries[j].key)
    requires |HeadAs(5, |entries|, form) + Flatten(EncEntries(entries))| < U64
    ensures var b := HeadAs(5, |entries|, form) + Flatten(EncEntries(entries));
            && Decode(b, Tolerant) == Ok(Map(entries))
            && (Decode(b, Strict).Ok? <==>
                && Shortest(|entries|, form)
                && forall i, j :: 0 <= i < j < |entries| ==> KeyLess(Enc(entries[i].key), Enc(entries[j].key)))
  {
    var pairs := EntriesSpelling(entries, 1);
    SpellingDecoded(Pairs(pairs, form));
  }
}
