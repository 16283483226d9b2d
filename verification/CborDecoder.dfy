/** The decoder: `CborValue::decode`, `decode_map` and all of `Decoder`. */
module CborDecoder {
  import opened Wrappers
  import opened ByteOrder
  import opened KeyOrder
  import opened Utf8
  import opened Cbor

  /** What `InvalidStructure` says is wrong. */
  datatype Detail =
    | ReservedInfo
    | LengthOverflow
    | NotUtf8
    | UnsupportedSimple
    | ExpectedMap(found: Kind)

  /** How `describe` names a value that is not a map. */
  datatype Kind = AnInteger | AByteString | ATextString | AnArray | ASimpleValue

  datatype DecodeError =
    | UnexpectedEof(offset: nat)
    | TrailingBytes(offset: nat)
    | InvalidStructure(offset: nat, detail: Detail)
    | IndefiniteLength(offset: nat)
    | TagNotAllowed(offset: nat, tag: nat)
    | NonCanonicalEncoding(offset: nat)
    | UnsortedKeys(offset: nat)
    | DuplicateKey(offset: nat)
    | DepthLimitExceeded(offset: nat)
    | FloatNotSupported(offset: nat)

  datatype Policy = Strict | Tolerant

  /** A result and the position just after what was read for it. */
  datatype Read<+T> = Read(value: T, pos: nat)

  type Decoded<+T> = Result<Read<T>, DecodeError>

  // ---- what the decoder answers from position `pos` of input `b`

  /** `take::<N>()`: the next `n` bytes as a big-endian number. */
  function TakeAt(b: seq<byte>, pos: nat, n: nat, offset: nat): (r: Decoded<nat>)
    ensures r.Ok? ==> r.value.pos == pos + n <= |b| && r.value.value == FromBE(b[pos..pos + n])
  {
    if pos + n > |b| then Err(UnexpectedEof(offset)) else Ok(Read(FromBE(b[pos..pos + n]), pos + n))
  }

  function ArgumentAt(b: seq<byte>, pos: nat, info: byte, offset: nat, strict: bool): (r: Decoded<nat>)
    ensures r.Ok? && pos <= |b| ==> pos <= r.value.pos <= |b|
  {
    if info < 24 then Ok(Read(info, pos))
    else if info <= 27 then Wide(b, pos, info - 24, offset, strict)
    else Err(InvalidStructure(offset, ReservedInfo))
  }

  /** An argument of width code `code`; under strict decoding no shorter width must do. */
  function Wide(b: seq<byte>, pos: nat, code: nat, offset: nat, strict: bool): (r: Decoded<nat>)
    requires code < 4
    ensures r.Ok? ==> r.value.pos == pos + Width(code) <= |b|
  {
    var v :- TakeAt(b, pos, Width(code), offset);
    if strict && v.value < Least(code) then Err(NonCanonicalEncoding(offset)) else Ok(v)
  }

  /** `length_argument`; `usize` is 64 bits wide, so the conversion cannot fail. */
  function LengthAt(b: seq<byte>, pos: nat, info: byte, offset: nat, strict: bool): (r: Decoded<nat>)
    ensures r.Ok? && pos <= |b| ==> pos <= r.value.pos <= |b|
  {
    if info == 31 then Err(IndefiniteLength(offset)) else ArgumentAt(b, pos, info, offset, strict)
  }

  function SimpleAt(pos: nat, info: byte, offset: nat): (r: Decoded<Value>)
    ensures r.Ok? ==> r.value.pos == pos
  {
    if info == 20 then Ok(Read(Bool(false), pos))
    else if info == 21 then Ok(Read(Bool(true), pos))
    else if info == 22 then Ok(Read(Null, pos))
    else if 25 <= info <= 27 then Err(FloatNotSupported(offset))
    else Err(InvalidStructure(offset, UnsupportedSimple))
  }

  function IntegerAt(b: seq<byte>, pos: nat, major: byte, info: byte, offset: nat, strict: bool): (r: Decoded<Value>)
    ensures r.Ok? && pos <= |b| ==> pos <= r.value.pos <= |b|
  {
    var a :- ArgumentAt(b, pos, info, offset, strict);
    Ok(Read(Int(if major == 0 then a.value else -1 - a.value), a.pos))
  }

  function StringAt(b: seq<byte>, pos: nat, major: byte, info: byte, offset: nat, strict: bool): (r: Decoded<Value>)
    ensures r.Ok? && pos <= |b| ==> pos <= r.value.pos <= |b|
  {
    var len :- LengthAt(b, pos, info, offset, strict);
    var end := len.pos + len.value;
    if end >= U64 then Err(InvalidStructure(offset, LengthOverflow))
    else if end > |b| then Err(UnexpectedEof(len.pos))
    else
      var raw := b[len.pos..end];
      if major == 2 then Ok(Read(Bytes(raw), end))
      else if ValidUtf8(raw) then Ok(Read(Text(raw), end))
      else Err(InvalidStructure(offset, NotUtf8))
  }

  function ValueAt(b: seq<byte>, pos: nat, depth: nat, strict: bool): (r: Decoded<Value>)
    requires pos <= |b|
    ensures r.Ok? ==> pos < r.value.pos <= |b|
    decreases |b| - pos, 0
  {
    if pos == |b| then Err(UnexpectedEof(pos)) else
      var major, info, next := b[pos] / 32, b[pos] % 32, pos + 1;
      if major <= 1 then IntegerAt(b, next, major, info, pos, strict)
      else if major <= 3 then StringAt(b, next, major, info, pos, strict)
      else if major == 4 then ArrayAt(b, next, info, depth, pos, strict)
      else if major == 5 then MapAt(b, next, info, depth, pos, strict)
      else if major == 6 then
        var tag :- ArgumentAt(b, next, info, pos, false);
        Err(TagNotAllowed(pos, tag.value))
      else SimpleAt(next, info, pos)
  }

  function ArrayAt(b: seq<byte>, pos: nat, info: byte, depth: nat, offset: nat, strict: bool): (r: Decoded<Value>)
    requires pos <= |b|
    ensures r.Ok? ==> pos <= r.value.pos <= |b|
    decreases |b| - pos, 3
  {
    if depth >= MAX_DEPTH then Err(DepthLimitExceeded(offset)) else
      var len :- LengthAt(b, pos, info, offset, strict);
      var items :- ItemsAt(b, len.pos, depth + 1, strict, len.value);
      Ok(Read(Array(items.value), items.pos))
  }

  function MapAt(b: seq<byte>, pos: nat, info: byte, depth: nat, offset: nat, strict: bool): (r: Decoded<Value>)
    requires pos <= |b|
    ensures r.Ok? ==> pos <= r.value.pos <= |b|
    decreases |b| - pos, 3
  {
    if depth >= MAX_DEPTH then Err(DepthLimitExceeded(offset)) else
      var len :- LengthAt(b, pos, info, offset, strict);
      var entries :- EntriesAt(b, len.pos, depth + 1, strict, len.value, {}, None, offset);
      Ok(Read(Map(entries.value), entries.pos))
  }

  /** What was read before, put in front of what comes next. */
  function After<T>(before: seq<T>, d: Decoded<seq<T>>): (r: Decoded<seq<T>>)
    ensures r.Ok? <==> d.Ok?
    ensures r.Ok? ==> r.value == Read(before + d.value.value, d.value.pos)
  {
    if d.Ok? then Ok(Read(before + d.value.value, d.value.pos)) else d
  }

  function ItemsAt(b: seq<byte>, pos: nat, depth: nat, strict: bool, n: nat): (r: Decoded<seq<Value>>)
    requires pos <= |b|
    ensures r.Ok? ==> pos <= r.value.pos <= |b| && |r.value.value| == n
    decreases |b| - pos, 1
  {
    if n == 0 then Ok(Read([], pos)) else
      var first :- ValueAt(b, pos, depth, strict);
      After([first.value], ItemsAt(b, first.pos, depth, strict, n - 1))
  }

  /** One map entry and the raw bytes of its key; `seen` are the raw keys so far, `prev` the last of them. */
  function EntryAt(b: seq<byte>, pos: nat, depth: nat, strict: bool,
                   seen: set<seq<byte>>, prev: Option<seq<byte>>, at: nat): (r: Decoded<Keyed<Entry>>)
    requires pos <= |b|
    ensures r.Ok? ==> pos < r.value.pos <= |b|
    decreases |b| - pos, 1
  {
    var key :- ValueAt(b, pos, depth, strict);
    var raw := b[pos..key.pos];
    if raw in seen then Err(DuplicateKey(at))
    else if strict && prev.Some? && !KeyLess(prev.value, raw) then Err(UnsortedKeys(pos))
    else
      var val :- ValueAt(b, key.pos, depth, strict);
      Ok(Read(Keyed(raw, Entry(key.value, val.value)), val.pos))
  }

  /** The remaining `n` entries of the map that began at `at`. */
  function EntriesAt(b: seq<byte>, pos: nat, depth: nat, strict: bool, n: nat,
                     seen: set<seq<byte>>, prev: Option<seq<byte>>, at: nat): (r: Decoded<seq<Entry>>)
    requires pos <= |b|
    ensures r.Ok? ==> pos <= r.value.pos <= |b| && |r.value.value| == n
    decreases |b| - pos, 2
  {
    if n == 0 then Ok(Read([], pos)) else
      var e :- EntryAt(b, pos, depth, strict, seen, prev, at);
      var raw := e.value.key;
      After([e.value.item], EntriesAt(b, e.pos, depth, strict, n - 1, seen + {raw}, Some(raw), at))
  }

  /** `CborValue::decode`. */
  function Decode(b: seq<byte>, policy: Policy): Result<Value, DecodeError> {
    var v :- ValueAt(b, 0, 0, policy.Strict?);
    if v.pos != |b| then Err(TrailingBytes(v.pos)) else Ok(v.value)
  }

  /** `CborValue::decode_map`. */
  function DecodeMap(b: seq<byte>, policy: Policy): Result<Value, DecodeError> {
    var v :- Decode(b, policy);
    match v
    case Map(_) => Ok(v)
    case Int(_) => Err(InvalidStructure(0, ExpectedMap(AnInteger)))
    case Bytes(_) => Err(InvalidStructure(0, ExpectedMap(AByteString)))
    case Text(_) => Err(InvalidStructure(0, ExpectedMap(ATextString)))
    case Array(_) => Err(InvalidStructure(0, ExpectedMap(AnArray)))
    case _ => Err(InvalidStructure(0, ExpectedMap(ASimpleValue)))
  }

  /** A run of the decoder from `before` to `after` with outcome `r` does what `d` says. */
  ghost predicate Reads<T>(after: nat, r: Result<T, DecodeError>, d: Decoded<T>) {
    if d.Ok? then r == Ok(d.value.value) && after == d.value.pos else r == Err(d.error)
  }

  /** `Decoder`: a cursor over the input. `built` counts the data items put together so far. */
  class Decoder {
    const bytes: seq<byte>
    const strict: bool
    var pos: nat
    ghost var built: nat

    ghost predicate Valid()
      reads this
    {
      pos <= |bytes| && built <= pos
    }

    constructor (bytes: seq<byte>, policy: Policy)
      ensures Valid() && pos == 0 && built == 0 && this.bytes == bytes && strict == policy.Strict?
    {
      this.bytes := bytes;
      strict := policy.Strict?;
      pos := 0;
      built := 0;
    }

    method Take(n: nat, offset: nat) returns (r: Result<nat, DecodeError>)
      requires Valid()
      modifies this`pos
      ensures Valid() && old(pos) <= pos && Reads(pos, r, TakeAt(bytes, old(pos), n, offset))
    {
      if pos + n > |bytes| {
        return Err(UnexpectedEof(offset));
      }
      var buf := bytes[pos..pos + n];
      pos := pos + n;
      r := Ok(FromBE(buf));
    }

    method Argument(info: byte, offset: nat, minimal: bool) returns (r: Result<nat, DecodeError>)
      requires Valid()
      modifies this`pos
      ensures Valid() && old(pos) <= pos && Reads(pos, r, ArgumentAt(bytes, old(pos), info, offset, minimal))
    {
      if info < 24 {
        return Ok(info);
      } else if info == 24 {
        var v :- Take(1, offset);
        if minimal && v < 24 { return Err(NonCanonicalEncoding(offset)); }
        return Ok(v);
      } else if info == 25 {
        var v :- Take(2, offset);
        if minimal && v <= 0xFF { return Err(NonCanonicalEncoding(offset)); }
        return Ok(v);
      } else if info == 26 {
        var v :- Take(4, offset);
        if minimal && v <= 0xFFFF { return Err(NonCanonicalEncoding(offset)); }
        return Ok(v);
      } else if info == 27 {
        var v :- Take(8, offset);
        if minimal && v <= 0xFFFF_FFFF { return Err(NonCanonicalEncoding(offset)); }
        return Ok(v);
      }
      r := Err(InvalidStructure(offset, ReservedInfo));
    }

    method LengthArgument(info: byte, offset: nat) returns (r: Result<nat, DecodeError>)
      requires Valid()
      modifies this`pos
      ensures Valid() && old(pos) <= pos && Reads(pos, r, LengthAt(bytes, old(pos), info, offset, strict))
    {
      if info == 31 {
        return Err(IndefiniteLength(offset));
      }
      r := Argument(info, offset, strict);
    }

    /** `value`: one data item, no more items built than bytes read, whatever the outcome. */
    method ReadValue(depth: nat) returns (r: Result<Value, DecodeError>)
      requires Valid()
      modifies this
      ensures Valid() && old(pos) <= pos && built - old(built) <= pos - old(pos)
      ensures Reads(pos, r, ValueAt(bytes, old(pos), depth, strict))
      decreases |bytes| - pos, 1
    {
      var offset := pos;
      if pos == |bytes| {
        return Err(UnexpectedEof(offset));
      }
      var initial := bytes[pos];
      pos := pos + 1;
      var major, info := initial / 32, initial % 32;
      if major <= 1 {
        var n :- Argument(info, offset, strict);
        var signed: int := if major == 0 then n else -1 - (n as int);
        r := Ok(Int(signed));
      } else if major <= 3 {
        r := ReadString(major, info, offset);
      } else if major == 4 {
        r := ReadArray(info, depth, offset);
      } else if major == 5 {
        r := ReadMap(info, depth, offset);
      } else if major == 6 {
        var tag :- Argument(info, offset, false);
        r := Err(TagNotAllowed(offset, tag));
      } else {
        r := Simple(info, offset);
      }
      built := if r.Ok? then built + 1 else built;
    }

    method Simple(info: byte, offset: nat) returns (r: Result<Value, DecodeError>)
      ensures Reads(pos, r, SimpleAt(pos, info, offset))
    {
      match info {
        case 20 => r := Ok(Bool(false));
        case 21 => r := Ok(Bool(true));
        case 22 => r := Ok(Null);
        case _ =>
          if 25 <= info <= 27 {
            r := Err(FloatNotSupported(offset));
          } else {
            r := Err(InvalidStructure(offset, UnsupportedSimple));
          }
      }
    }

    method ReadString(major: byte, info: byte, offset: nat) returns (r: Result<Value, DecodeError>)
      requires Valid()
      modifies this`pos
      ensures Valid() && old(pos) <= pos
      ensures Reads(pos, r, StringAt(bytes, old(pos), major, info, offset, strict))
    {
      var len :- LengthArgument(info, offset);
      var end := pos + len;
      if end >= U64 {
        return Err(InvalidStructure(offset, LengthOverflow));
      }
      if end > |bytes| {
        return Err(UnexpectedEof(pos));
      }
      var raw := bytes[pos..end];
      pos := end;
      if major == 2 {
        r := Ok(Bytes(raw));
      } else if ValidUtf8(raw) {
        r := Ok(Text(raw));
      } else {
        r := Err(InvalidStructure(offset, NotUtf8));
      }
    }

    method ReadArray(info: byte, depth: nat, offset: nat) returns (r: Result<Value, DecodeError>)
      requires Valid()
      modifies this
      ensures Valid() && old(pos) <= pos && built - old(built) <= pos - old(pos)
      ensures Reads(pos, r, ArrayAt(bytes, old(pos), info, depth, offset, strict))
      decreases |bytes| - pos, 4
    {
      if depth >= MAX_DEPTH {
        return Err(DepthLimitExceeded(offset));
      }
      var len :- LengthArgument(info, offset);
      var items :- ReadItems(depth + 1, len);
      r := Ok(Array(items));
    }

    method ReadMap(info: byte, depth: nat, offset: nat) returns (r: Result<Value, DecodeError>)
      requires Valid()
      modifies this
      ensures Valid() && old(pos) <= pos && built - old(built) <= pos - old(pos)
      ensures Reads(pos, r, MapAt(bytes, old(pos), info, depth, offset, strict))
      decreases |bytes| - pos, 4
    {
      if depth >= MAX_DEPTH {
        return Err(DepthLimitExceeded(offset));
      }
      var len :- LengthArgument(info, offset);
      var entries :- ReadEntries(depth + 1, len, offset);
      r := Ok(Map(entries));
    }

    method ReadItems(depth: nat, len: nat) returns (r: Result<seq<Value>, DecodeError>)
      requires Valid()
      modifies this
      ensures Valid() && old(pos) <= pos && built - old(built) <= pos - old(pos)
      ensures Reads(pos, r, ItemsAt(bytes, old(pos), depth, strict, len))
      decreases |bytes| - pos, 2
    {
      var items: seq<Value> := [];
      AfterNothing(ItemsAt(bytes, pos, depth, strict, len));
      var k := 0;
      while k < len
        invariant 0 <= k <= len && Valid() && old(pos) <= pos && built - old(built) <= pos - old(pos)
        invariant ItemsAt(bytes, old(pos), depth, strict, len)
               == After(items, ItemsAt(bytes, pos, depth, strict, len - k))
      {
        var item :- ReadValue(depth);
        AfterStep(items, item, ItemsAt(bytes, pos, depth, strict, len - k - 1));
        items := items + [item];
        k := k + 1;
      }
      assert items + [] == items;
      r := Ok(items);
    }

    method ReadEntries(depth: nat, len: nat, offset: nat) returns (r: Result<seq<Entry>, DecodeError>)
      requires Valid()
      modifies this
      ensures Valid() && old(pos) <= pos && built - old(built) <= pos - old(pos)
      ensures Reads(pos, r, EntriesAt(bytes, old(pos), depth, strict, len, {}, None, offset))
      decreases |bytes| - pos, 3
    {
      var entries: seq<Entry> := [];
      var seen: set<seq<byte>> := {};
      var prev: Option<seq<byte>> := None;
      AfterNothing(EntriesAt(bytes, pos, depth, strict, len, seen, prev, offset));
      var k := 0;
      while k < len
        invariant 0 <= k <= len && Valid() && old(pos) <= pos && built - old(built) <= pos - old(pos)
        invariant EntriesAt(bytes, old(pos), depth, strict, len, {}, None, offset)
               == After(entries, EntriesAt(bytes, pos, depth, strict, len - k, seen, prev, offset))
      {
        var keyed :- ReadEntry(depth, seen, prev, offset);
        seen := seen + {keyed.key};
        prev := Some(keyed.key);
        AfterStep(entries, keyed.item, EntriesAt(bytes, pos, depth, strict, len - k - 1, seen, prev, offset));
        entries := entries + [keyed.item];
        k := k + 1;
      }
      assert entries + [] == entries;
      r := Ok(entries);
    }

    method ReadEntry(depth: nat, seen: set<seq<byte>>, prev: Option<seq<byte>>, offset: nat)
      returns (r: Result<Keyed<Entry>, DecodeError>)
      requires Valid()
      modifies this
      ensures Valid() && old(pos) <= pos && built - old(built) <= pos - old(pos)
      ensures Reads(pos, r, EntryAt(bytes, old(pos), depth, strict, seen, prev, offset))
      decreases |bytes| - pos, 2
    {
      var start := pos;
      var key :- ReadValue(depth);
      var raw := bytes[start..pos];
      if raw in seen {
        return Err(DuplicateKey(offset));
      }
      if strict {
        if prev.Some? && !KeyLess(prev.value, raw) {
          return Err(UnsortedKeys(start));
        }
      }
      var val :- ReadValue(depth);
      r := Ok(Keyed(raw, Entry(key, val)));
    }
  }

  lemma {:induction false} AfterStep<T>(before: seq<T>, x: T, d: Decoded<seq<T>>)
    ensures After(before, After([x], d)) == After(before + [x], d)
  {
    if d.Ok? {
      assert before + ([x] + d.value.value) == before + [x] + d.value.value;
    }
  }

  lemma {:induction false} AfterNothing<T>(d: Decoded<seq<T>>)
    ensures After([], d) == d
  {
    if d.Ok? {
      assert [] + d.value.value == d.value.value;
    }
  }

  /** `CborValue::decode`, as the cursor runs it. */
  method DecodeBytes(b: seq<byte>, policy: Policy) returns (r: Result<Value, DecodeError>)
    ensures r == Decode(b, policy)
  {
    var dec := new Decoder(b, policy);
    var value :- dec.ReadValue(0);
    if dec.pos != |b| {
      return Err(TrailingBytes(dec.pos));
    }
    r := Ok(value);
  }
}
