/**
 Which error an input gets: one cut short is at its end too early, one with more after it has bytes trailing, and what
 only strict decoding refuses is not in canonical form.
 */
module CborErrors {
  import opened Wrappers
  import opened ByteOrder
  import opened Cbor
  import opened CborDecoder

  /** `c` is the beginning of `b`. */
  ghost predicate Begins(c: seq<byte>, b: seq<byte>) {
    |c| <= |b| && b[..|c|] == c
  }

  lemma {:induction false} SamePart(c: seq<byte>, b: seq<byte>, i: nat, j: nat)
    requires Begins(c, b) && i <= j <= |c|
    ensures c[i..j] == b[i..j]
  {
    assert b[..|c|][i..j] == b[i..j];
  }

  // ---- cut short: what is read from `b` is read from its beginning `c`, or `c` ends too early

  ghost predicate Cut<T>(c: seq<byte>, whole: Decoded<T>, part: Decoded<T>) {
    whole.Ok? ==>
      if whole.value.pos <= |c| then part == whole else part.Err? && part.error.UnexpectedEof?
  }

  lemma {:induction false} ArgumentCut(c: seq<byte>, b: seq<byte>, pos: nat, info: byte, offset: nat, strict: bool)
    requires Begins(c, b) && pos <= |c|
    ensures Cut(c, ArgumentAt(b, pos, info, offset, strict), ArgumentAt(c, pos, info, offset, strict))
  {
    if 24 <= info <= 27 && pos + Width(info - 24) <= |c| { SamePart(c, b, pos, pos + Width(info - 24)); }
  }

  lemma {:induction false} StringCut(c: seq<byte>, b: seq<byte>, pos: nat, major: byte, info: byte, offset: nat,
                                     strict: bool)
    requires Begins(c, b) && pos <= |c|
    ensures Cut(c, StringAt(b, pos, major, info, offset, strict), StringAt(c, pos, major, info, offset, strict))
  {
    ArgumentCut(c, b, pos, info, offset, strict);
    var len := LengthAt(b, pos, info, offset, strict);
    if len.Ok? && len.value.pos + len.value.value <= |c| {
      SamePart(c, b, len.value.pos, len.value.pos + len.value.value);
    }
  }

  lemma {:induction false} IntegerCut(c: seq<byte>, b: seq<byte>, pos: nat, major: byte, info: byte, offset: nat,
                                      strict: bool)
    requires Begins(c, b) && pos <= |c|
    ensures Cut(c, IntegerAt(b, pos, major, info, offset, strict), IntegerAt(c, pos, major, info, offset, strict))
  {
    ArgumentCut(c, b, pos, info, offset, strict);
  }

  lemma {:induction false} ValueCut(c: seq<byte>, b: seq<byte>, pos: nat, depth: nat, strict: bool)
    requires Begins(c, b) && pos <= |c|
    ensures Cut(c, ValueAt(b, pos, depth, strict), ValueAt(c, pos, depth, strict))
    decreases |b| - pos, 0
  {
    if pos < |c| {
      var major, info := b[pos] / 32, b[pos] % 32;
      SamePart(c, b, pos, pos + 1);
      assert b[pos] == b[pos..pos + 1][0] == c[pos..pos + 1][0] == c[pos];
      if major <= 1 {
        IntegerCut(c, b, pos + 1, major, info, pos, strict);
      } else if major <= 3 {
        StringCut(c, b, pos + 1, major, info, pos, strict);
      } else if major == 4 {
        ArrayCut(c, b, pos + 1, info, depth, pos, strict);
      } else if major == 5 {
        MapCut(c, b, pos + 1, info, depth, pos, strict);
      }
    }
  }

  lemma {:induction false} ArrayCut(c: seq<byte>, b: seq<byte>, pos: nat, info: byte, depth: nat, offset: nat,
                                    strict: bool)
    requires Begins(c, b) && pos <= |c|
    ensures Cut(c, ArrayAt(b, pos, info, depth, offset, strict), ArrayAt(c, pos, info, depth, offset, strict))
    decreases |b| - pos, 3
  {
    ArgumentCut(c, b, pos, info, offset, strict);
    var len := LengthAt(b, pos, info, offset, strict);
    if len.Ok? && len.value.pos <= |c| { ItemsCut(c, b, len.value.pos, depth + 1, strict, len.value.value); }
  }

  lemma {:induction false} MapCut(c: seq<byte>, b: seq<byte>, pos: nat, info: byte, depth: nat, offset: nat,
                                  strict: bool)
    requires Begins(c, b) && pos <= |c|
    ensures Cut(c, MapAt(b, pos, info, depth, offset, strict), MapAt(c, pos, info, depth, offset, strict))
    decreases |b| - pos, 3
  {
    ArgumentCut(c, b, pos, info, offset, strict);
    var len := LengthAt(b, pos, info, offset, strict);
    if len.Ok? && len.value.pos <= |c| {
      EntriesCut(c, b, len.value.pos, depth + 1, strict, len.value.value, {}, None, offset);
    }
  }

  lemma {:induction false} ItemsCut(c: seq<byte>, b: seq<byte>, pos: nat, depth: nat, strict: bool, n: nat)
    requires Begins(c, b) && pos <= |c|
    ensures Cut(c, ItemsAt(b, pos, depth, strict, n), ItemsAt(c, pos, depth, strict, n))
    decreases |b| - pos, 1
  {
    if n > 0 {
      ValueCut(c, b, pos, depth, strict);
      var first := ValueAt(b, pos, depth, strict);
      if first.Ok? && first.value.pos <= |c| { ItemsCut(c, b, first.value.pos, depth, strict, n - 1); }
    }
  }

  lemma {:induction false} EntryCut(c: seq<byte>, b: seq<byte>, pos: nat, depth: nat, strict: bool,
                                    seen: set<seq<byte>>, prev: Option<seq<byte>>, at: nat)
    requires Begins(c, b) && pos <= |c|
    ensures Cut(c, EntryAt(b, pos, depth, strict, seen, prev, at), EntryAt(c, pos, depth, strict, seen, prev, at))
    decreases |b| - pos, 1
  {
    ValueCut(c, b, pos, depth, strict);
    var key := ValueAt(b, pos, depth, strict);
    if key.Ok? && key.value.pos <= |c| {
      SamePart(c, b, pos, key.value.pos);
      ValueCut(c, b, key.value.pos, depth, strict);
    }
  }

  lemma {:induction false} EntriesCut(c: seq<byte>, b: seq<byte>, pos: nat, depth: nat, strict: bool, n: nat,
                                      seen: set<seq<byte>>, prev: Option<seq<byte>>, at: nat)
    requires Begins(c, b) && pos <= |c|
    ensures Cut(c, EntriesAt(b, pos, depth, strict, n, seen, prev, at),
                EntriesAt(c, pos, depth, strict, n, seen, prev, at))
    decreases |b| - pos, 2
  {
    if n > 0 {
      EntryCut(c, b, pos, depth, strict, seen, prev, at);
      var first := EntryAt(b, pos, depth, strict, seen, prev, at);
      if first.Ok? && first.value.pos <= |c| {
        var raw := first.value.value.key;
        EntriesCut(c, b, first.value.pos, depth, strict, n - 1, seen + {raw}, Some(raw), at);
      }
    }
  }

  /** Under either policy, an accepted input cut short anywhere ends too early, and is told so. */
  lemma {:induction false} CutShort(b: seq<byte>, n: nat, policy: Policy)
    requires Decode(b, policy).Ok? && n < |b|
    ensures Decode(b[..n], policy).Err? && Decode(b[..n], policy).error.UnexpectedEof?
  {
    ValueCut(b[..n], b, 0, 0, policy.Strict?);
  }

  // ---- more after it: what `c` gives, `b` gives

  lemma {:induction false} ArgumentKept(c: seq<byte>, b: seq<byte>, pos: nat, info: byte, offset: nat, strict: bool)
    requires Begins(c, b) && pos <= |c| && ArgumentAt(c, pos, info, offset, strict).Ok?
    ensures ArgumentAt(b, pos, info, offset, strict) == ArgumentAt(c, pos, info, offset, strict)
  {
    if 24 <= info { SamePart(c, b, pos, pos + Width(info - 24)); }
  }

  lemma {:induction false} ValueKept(c: seq<byte>, b: seq<byte>, pos: nat, depth: nat, strict: bool)
    requires Begins(c, b) && pos <= |c| && ValueAt(c, pos, depth, strict).Ok?
    ensures ValueAt(b, pos, depth, strict) == ValueAt(c, pos, depth, strict)
    decreases |c| - pos, 0
  {
    var major, info := c[pos] / 32, c[pos] % 32;
    SamePart(c, b, pos, pos + 1);
    assert b[pos] == b[pos..pos + 1][0] == c[pos..pos + 1][0] == c[pos];
    if major <= 3 {
      ArgumentKept(c, b, pos + 1, info, pos, strict);
      var len := ArgumentAt(c, pos + 1, info, pos, strict).value;
      if 2 <= major { SamePart(c, b, len.pos, len.pos + len.value); }
    } else if major == 4 {
      ArrayKept(c, b, pos + 1, info, depth, pos, strict);
    } else if major == 5 {
      MapKept(c, b, pos + 1, info, depth, pos, strict);
    }
  }

  lemma {:induction false} ArrayKept(c: seq<byte>, b: seq<byte>, pos: nat, info: byte, depth: nat, offset: nat,
                                     strict: bool)
    requires Begins(c, b) && pos <= |c| && ArrayAt(c, pos, info, depth, offset, strict).Ok?
    ensures ArrayAt(b, pos, info, depth, offset, strict) == ArrayAt(c, pos, info, depth, offset, strict)
    decreases |c| - pos, 3
  {
    ArgumentKept(c, b, pos, info, offset, strict);
    var len := LengthAt(c, pos, info, offset, strict).value;
    ItemsKept(c, b, len.pos, depth + 1, strict, len.value);
  }

  lemma {:induction false} MapKept(c: seq<byte>, b: seq<byte>, pos: nat, info: byte, depth: nat, offset: nat,
                                   strict: bool)
    requires Begins(c, b) && pos <= |c| && MapAt(c, pos, info, depth, offset, strict).Ok?
    ensures MapAt(b, pos, info, depth, offset, strict) == MapAt(c, pos, info, depth, offset, strict)
    decreases |c| - pos, 3
  {
    ArgumentKept(c, b, pos, info, offset, strict);
    var len := LengthAt(c, pos, info, offset, strict).value;
    EntriesKept(c, b, len.pos, depth + 1, strict, len.value, {}, None, offset);
  }

  lemma {:induction false} ItemsKept(c: seq<byte>, b: seq<byte>, pos: nat, depth: nat, strict: bool, n: nat)
    requires Begins(c, b) && pos <= |c| && ItemsAt(c, pos, depth, strict, n).Ok?
    ensures ItemsAt(b, pos, depth, strict, n) == ItemsAt(c, pos, depth, strict, n)
    decreases |c| - pos, 1
  {
    if n > 0 {
      ValueKept(c, b, pos, depth, strict);
      ItemsKept(c, b, ValueAt(c, pos, depth, strict).value.pos, depth, strict, n - 1);
    }
  }

  lemma {:induction false} EntryKept(c: seq<byte>, b: seq<byte>, pos: nat, depth: nat, strict: bool,
                                     seen: set<seq<byte>>, prev: Option<seq<byte>>, at: nat)
    requires Begins(c, b) && pos <= |c| && EntryAt(c, pos, depth, strict, seen, prev, at).Ok?
    ensures EntryAt(b, pos, depth, strict, seen, prev, at) == EntryAt(c, pos, depth, strict, seen, prev, at)
    decreases |c| - pos, 1
  {
    var key := ValueAt(c, pos, depth, strict).value;
    ValueKept(c, b, pos, depth, strict);
    SamePart(c, b, pos, key.pos);
    ValueKept(c, b, key.pos, depth, strict);
  }

  lemma {:induction false} EntriesKept(c: seq<byte>, b: seq<byte>, pos: nat, depth: nat, strict: bool, n: nat,
                                       seen: set<seq<byte>>, prev: Option<seq<byte>>, at: nat)
    requires Begins(c, b) && pos <= |c| && EntriesAt(c, pos, depth, strict, n, seen, prev, at).Ok?
    ensures EntriesAt(b, pos, depth, strict, n, seen, prev, at) == EntriesAt(c, pos, depth, strict, n, seen, prev, at)
    decreases |c| - pos, 2
  {
    if n > 0 {
      var first := EntryAt(c, pos, depth, strict, seen, prev, at).value;
      var raw := first.value.key;
      EntryKept(c, b, pos, depth, strict, seen, prev, at);
      EntriesKept(c, b, first.pos, depth, strict, n - 1, seen + {raw}, Some(raw), at);
    }
  }

  /** Under either policy, an accepted input with anything after it is refused where that begins. */
  lemma {:induction false} MoreAfter(b: seq<byte>, tail: seq<byte>, policy: Policy)
    requires Decode(b, policy).Ok? && tail != []
    ensures Decode(b + tail, policy) == Err(TrailingBytes(|b|))
  {
    ValueKept(b, b + tail, 0, 0, policy.Strict?);
  }

  // ---- what strict decoding alone refuses

  /** Refused, if at all, for a head longer than need be or for keys that do not ascend. */
  ghost predicate Untidy<T>(tolerant: Decoded<T>, strict: Decoded<T>) {
    tolerant.Ok? ==>
      strict == tolerant || (strict.Err? && (strict.error.NonCanonicalEncoding? || strict.error.UnsortedKeys?))
  }

  lemma {:induction false} ValueUntidy(b: seq<byte>, pos: nat, depth: nat)
    requires pos <= |b|
    ensures Untidy(ValueAt(b, pos, depth, false), ValueAt(b, pos, depth, true))
    decreases |b| - pos, 0
  {
    if pos < |b| {
      var major, info := b[pos] / 32, b[pos] % 32;
      if major == 4 {
        ArrayUntidy(b, pos + 1, info, depth, pos);
      } else if major == 5 {
        MapUntidy(b, pos + 1, info, depth, pos);
      }
    }
  }

  lemma {:induction false} ArrayUntidy(b: seq<byte>, pos: nat, info: byte, depth: nat, offset: nat)
    requires pos <= |b|
    ensures Untidy(ArrayAt(b, pos, info, depth, offset, false), ArrayAt(b, pos, info, depth, offset, true))
    decreases |b| - pos, 3
  {
    var len := LengthAt(b, pos, info, offset, false);
    if len.Ok? { ItemsUntidy(b, len.value.pos, depth + 1, len.value.value); }
  }

  lemma {:induction false} MapUntidy(b: seq<byte>, pos: nat, info: byte, depth: nat, offset: nat)
    requires pos <= |b|
    ensures Untidy(MapAt(b, pos, info, depth, offset, false), MapAt(b, pos, info, depth, offset, true))
    decreases |b| - pos, 3
  {
    var len := LengthAt(b, pos, info, offset, false);
    if len.Ok? { EntriesUntidy(b, len.value.pos, depth + 1, len.value.value, {}, None, offset); }
  }

  lemma {:induction false} ItemsUntidy(b: seq<byte>, pos: nat, depth: nat, n: nat)
    requires pos <= |b|
    ensures Untidy(ItemsAt(b, pos, depth, false, n), ItemsAt(b, pos, depth, true, n))
    decreases |b| - pos, 1
  {
    if n > 0 {
      ValueUntidy(b, pos, depth);
      var first := ValueAt(b, pos, depth, false);
      if first.Ok? { ItemsUntidy(b, first.value.pos, depth, n - 1); }
    }
  }

  lemma {:induction false} EntryUntidy(b: seq<byte>, pos: nat, depth: nat, seen: set<seq<byte>>,
                                       prev: Option<seq<byte>>, at: nat)
    requires pos <= |b|
    ensures Untidy(EntryAt(b, pos, depth, false, seen, prev, at), EntryAt(b, pos, depth, true, seen, prev, at))
    decreases |b| - pos, 1
  {
    ValueUntidy(b, pos, depth);
    var key := ValueAt(b, pos, depth, false);
    if key.Ok? { ValueUntidy(b, key.value.pos, depth); }
  }

  lemma {:induction false} EntriesUntidy(b: seq<byte>, pos: nat, depth: nat, n: nat, seen: set<seq<byte>>,
                                         prev: Option<seq<byte>>, at: nat)
    requires pos <= |b|
    ensures Untidy(EntriesAt(b, pos, depth, false, n, seen, prev, at),
                   EntriesAt(b, pos, depth, true, n, seen, prev, at))
    decreases |b| - pos, 2
  {
    if n > 0 {
      EntryUntidy(b, pos, depth, seen, prev, at);
      var first := EntryAt(b, pos, depth, false, seen, prev, at);
      if first.Ok? {
        var raw := first.value.value.key;
        EntriesUntidy(b, first.value.pos, depth, n - 1, seen + {raw}, Some(raw), at);
      }
    }
  }

  /** What tolerant decoding accepts, strict decoding accepts alike or refuses for one of the two canonical rules. */
  lemma {:induction false} OnlyUntidyRefused(b: seq<byte>)
    requires Decode(b, Tolerant).Ok?
    ensures Decode(b, Strict) == Decode(b, Tolerant)
            || (Decode(b, Strict).Err?
                && (Decode(b, Strict).error.NonCanonicalEncoding? || Decode(b, Strict).error.UnsortedKeys?))
  {
    ValueUntidy(b, 0, 0);
  }

  // ---- what is never accepted

  /** Tags, floats, other simple values, indefinite lengths and reserved arguments each have an error of their own. */
  lemma {:induction false} NeverAccepted(b: seq<byte>, policy: Policy)
    requires |b| > 0
    ensures var major, info, d := b[0] / 32, b[0] % 32, Decode(b, policy);
            && (major == 6 && info <= 23 ==> d == Err(TagNotAllowed(0, info)))
            && (major == 7 && 25 <= info <= 27 ==> d == Err(FloatNotSupported(0)))
            && (major == 7 && info !in {20, 21, 22, 25, 26, 27} ==> d == Err(InvalidStructure(0, UnsupportedSimple)))
            && (2 <= major <= 5 && info == 31 ==> d == Err(IndefiniteLength(0)))
            && (major <= 5 && 28 <= info <= 30 ==> d == Err(InvalidStructure(0, ReservedInfo)))
            && (major <= 1 && info == 31 ==> d == Err(InvalidStructure(0, ReservedInfo)))
  {
    var major, info, strict := b[0] / 32, b[0] % 32, policy.Strict?;
    assert major == 4 ==> ValueAt(b, 0, 0, strict) == ArrayAt(b, 1, info, 0, 0, strict);
    assert major == 5 ==> ValueAt(b, 0, 0, strict) == MapAt(b, 1, info, 0, 0, strict);
    assert 28 <= info && LengthAt(b, 1, info, 0, strict).Err? ==>
        (major == 4 ==> ArrayAt(b, 1, info, 0, 0, strict) == Err(LengthAt(b, 1, info, 0, strict).error))
        && (major == 5 ==> MapAt(b, 1, info, 0, 0, strict) == Err(LengthAt(b, 1, info, 0, strict).error));
  }

  /** A fifth level of arrays and maps is refused. */
  lemma {:induction false} TooDeep(b: seq<byte>, pos: nat, strict: bool)
    requires pos < |b| && 4 <= b[pos] / 32 <= 5
    ensures ValueAt(b, pos, 4, strict) == Err(DepthLimitExceeded(pos))
  {
  }

  /** A key spelled a second time in a map is refused under either policy, before its order is looked at. */
  lemma {:induction false} RepeatRefused(b: seq<byte>, pos: nat, depth: nat, strict: bool, seen: set<seq<byte>>,
                                         prev: Option<seq<byte>>, at: nat)
    requires pos <= |b| && ValueAt(b, pos, depth, strict).Ok?
    requires b[pos..ValueAt(b, pos, depth, strict).value.pos] in seen
    ensures EntryAt(b, pos, depth, strict, seen, prev, at) == Err(DuplicateKey(at))
  {
  }
}
