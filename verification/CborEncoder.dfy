/** The encoder: `CborValue::encode`, `encode_value` and `write_head`. */
module CborEncoder {
  import opened Wrappers
  import opened ByteOrder
  import opened KeyOrder
  import opened Cbor

  datatype EncodeError = DepthLimitExceeded | DuplicateKey

  type Encoded = Result<seq<byte>, EncodeError>

  // ---- what the encoder answers, errors included, in the order it meets them

  function EncodeAt(v: Value, depth: nat): Encoded
    decreases v
  {
    if depth >= MAX_DEPTH && (v.Array? || v.Map?) then Err(DepthLimitExceeded) else
    match v
    case Array(items) =>
      var body :- EncodeItems(items, depth + 1);
      Ok(Head(4, |items|) + body)
    case Map(entries) =>
      var body :- MapBody(entries, depth + 1);
      Ok(Head(5, |entries|) + body)
    case _ => Ok(Enc(v))
  }

  function MapBody(entries: seq<Entry>, depth: nat): Encoded
    decreases entries, 1
  {
    var keyed :- EncodeKeys(entries, depth);
    var sorted := Sort(keyed);
    if HasRepeat(sorted) then Err(DuplicateKey) else Joined(sorted)
  }

  /** `r`'s bytes (or entries) appended to what is there already. */
  function Appended<T>(before: seq<T>, r: Result<seq<T>, EncodeError>): Result<seq<T>, EncodeError> {
    if r.Ok? then Ok(before + r.value) else r
  }

  function EncodeItems(items: seq<Value>, depth: nat): Encoded
    decreases items
  {
    if items == [] then Ok([]) else
      var first :- EncodeAt(items[0], depth);
      Appended(first, EncodeItems(items[1..], depth))
  }

  /** The encoded keys, each carrying what encoding its value will answer. */
  function EncodeKeys(entries: seq<Entry>, depth: nat): (r: Result<seq<Keyed<Encoded>>, EncodeError>)
    ensures r.Ok? ==> |r.value| == |entries|
    decreases entries, 0
  {
    if entries == [] then Ok([]) else
      var first :- EncodeEntry(entries[0], depth);
      Appended([first], EncodeKeys(entries[1..], depth))
  }

  function EncodeEntry(e: Entry, depth: nat): Result<Keyed<Encoded>, EncodeError>
    decreases e
  {
    var k :- EncodeAt(e.key, depth);
    Ok(Keyed(k, EncodeAt(e.val, depth)))
  }

  function Joined(s: seq<Keyed<Encoded>>): Encoded {
    if s == [] then Ok([]) else
      var first :- s[0].item;
      Appended(s[0].key + first, Joined(s[1..]))
  }

  /** A run of the encoder with outcome `r`, from buffer `before` to buffer `after`, does what `e` says. */
  ghost predicate Emits(before: seq<byte>, after: seq<byte>, r: Result<(), EncodeError>, e: Encoded) {
    if e.Ok? then r.Ok? && after == before + e.value else r.Err? && r.error == e.error
  }

  /** The output buffer the encoder appends to. */
  class Encoder {
    var out: seq<byte>

    constructor ()
      ensures out == []
    {
      out := [];
    }

    method WriteHead(major: nat, arg: nat)
      requires major < 8
      modifies this
      ensures out == old(out) + Head(major, arg)
    {
      var mt := major * 32;
      var a := Low64(arg);
      if a < 24 {
        out := out + [mt + a];
      } else if a <= 0xFF {
        out := out + [mt + 24];
        out := out + [a];
      } else if a <= 0xFFFF {
        out := out + [mt + 25];
        out := out + ToBE(a, 2);
      } else if a <= 0xFFFF_FFFF {
        out := out + [mt + 26];
        out := out + ToBE(a, 4);
      } else {
        out := out + [mt + 27];
        out := out + ToBE(a, 8);
      }
    }

    /** `encode_value`: appends the canonical bytes, or stops with the first error met. */
    method EncodeValue(v: Value, depth: nat) returns (r: Result<(), EncodeError>)
      modifies this
      ensures Emits(old(out), out, r, EncodeAt(v, depth))
      decreases v, 2
    {
      if depth >= MAX_DEPTH && (v.Array? || v.Map?) {
        return Err(DepthLimitExceeded);
      }
      match v {
        case Int(n) =>
          if n >= 0 { WriteHead(0, n); } else { WriteHead(1, -1 - n); }
        case Bytes(b) =>
          WriteHead(2, |b|);
          out := out + b;
        case Text(t) =>
          WriteHead(3, |t|);
          out := out + t;
        case Array(items) =>
          WriteHead(4, |items|);
          r := EncodeArrayBody(items, depth + 1);
          return;
        case Map(entries) =>
          WriteHead(5, |entries|);
          r := EncodeMapBody(v, depth + 1);
          return;
        case Bool(flag) => out := out + [if flag then 0xF5 else 0xF4];
        case Null => out := out + [0xF6];
      }
      r := Ok(());
    }

    method EncodeArrayBody(items: seq<Value>, depth: nat) returns (r: Result<(), EncodeError>)
      modifies this
      ensures Emits(old(out), out, r, EncodeItems(items, depth))
      decreases items, 0
    {
      var i := 0;
      while i < |items|
        invariant 0 <= i <= |items|
        invariant Appended(old(out), EncodeItems(items, depth)) == Appended(out, EncodeItems(items[i..], depth))
      {
        ghost var before := out;
        assert items[i..][1..] == items[i + 1..];
        var _ :- EncodeValue(items[i], depth);
        AppendedTwice(before, EncodeAt(items[i], depth).value, EncodeItems(items[i + 1..], depth));
        i := i + 1;
      }
      r := Ok(());
    }

    /** The keys are encoded on their own, sorted, checked for repeats, and only then written out. */
    method EncodeMapBody(m: Value, depth: nat) returns (r: Result<(), EncodeError>)
      requires m.Map?
      modifies this
      ensures Emits(old(out), out, r, MapBody(m.entries, depth))
      decreases m, 1
    {
      var keys :- EncodeOwnKeys(m, depth);
      var sorted := Sort(keys);
      AnswersSort(keys, depth);
      forall j | 0 <= j < |sorted|
        ensures exists e :: 0 <= e < |m.entries| && sorted[j].item == m.entries[e].val
      {
        var i := SortOrigin(keys, j);
      }
      if HasRepeat(sorted) {
        return Err(DuplicateKey);
      }
      r := EmitSorted(m, sorted, depth);
    }

    method EncodeOwnKeys(m: Value, depth: nat) returns (r: Result<seq<Keyed<Value>>, EncodeError>)
      requires m.Map?
      ensures r.Err? ==> EncodeKeys(m.entries, depth) == Err(r.error)
      ensures r.Ok? ==> EncodeKeys(m.entries, depth) == Ok(Answers(r.value, depth))
      ensures r.Ok? ==> forall k :: 0 <= k < |r.value| ==>
                                      exists e :: 0 <= e < |m.entries| && r.value[k].item == m.entries[e].val
      decreases m, 0
    {
      var entries := m.entries;
      var keys: seq<Keyed<Value>> := [];
      assert entries[0..] == entries;
      AppendedTwice([], [], EncodeKeys(entries, depth));
      var i := 0;
      while i < |entries|
        invariant 0 <= i <= |entries| && |keys| == i
        invariant forall j :: 0 <= j < i ==> keys[j].item == entries[j].val
        invariant EncodeKeys(entries, depth) == Appended(Answers(keys, depth), EncodeKeys(entries[i..], depth))
      {
        assert entries[i..][1..] == entries[i + 1..];
        var own := new Encoder();
        var _ :- own.EncodeValue(entries[i].key, depth);
        assert own.out == EncodeAt(entries[i].key, depth).value;
        AnswersAppend(keys, Keyed(own.out, entries[i].val), depth);
        AppendedTwice(Answers(keys, depth), [EncodeEntry(entries[i], depth).value],
                      EncodeKeys(entries[i + 1..], depth));
        keys := keys + [Keyed(own.out, entries[i].val)];
        i := i + 1;
      }
      assert EncodeKeys(entries[i..], depth).value == [];
      assert Answers(keys, depth) + [] == Answers(keys, depth);
      r := Ok(keys);
    }

    method EmitSorted(m: Value, sorted: seq<Keyed<Value>>, depth: nat) returns (r: Result<(), EncodeError>)
      requires m.Map?
      requires forall k :: 0 <= k < |sorted| ==>
                             exists e :: 0 <= e < |m.entries| && sorted[k].item == m.entries[e].val
      modifies this
      ensures Emits(old(out), out, r, Joined(Answers(sorted, depth)))
      decreases m, 0
    {
      var i := 0;
      assert sorted[0..] == sorted;
      while i < |sorted|
        invariant 0 <= i <= |sorted|
        invariant Appended(old(out), Joined(Answers(sorted, depth)))
               == Appended(out, Joined(Answers(sorted[i..], depth)))
      {
        JoinedStep(out, sorted, i, depth);
        out := out + sorted[i].key;
        var _ :- EncodeValue(sorted[i].item, depth);
        i := i + 1;
      }
      r := Ok(());
    }
  }

  /** Each key with the answer of encoding the value it carries. */
  function Answers(keys: seq<Keyed<Value>>, depth: nat): seq<Keyed<Encoded>> {
    MapItems(keys, (v: Value) => EncodeAt(v, depth))
  }

  lemma {:induction false} AnswersSort(keys: seq<Keyed<Value>>, depth: nat)
    ensures Answers(Sort(keys), depth) == Sort(Answers(keys, depth))
  {
    SortMap(keys, (v: Value) => EncodeAt(v, depth));
  }

  /** Writing out pair `i`: its key, then its value, then the pairs that follow. */
  lemma {:induction false} JoinedStep(before: seq<byte>, sorted: seq<Keyed<Value>>, i: nat, depth: nat)
    requires i < |sorted|
    ensures Appended(before, Joined(Answers(sorted[i..], depth))) ==
            match EncodeAt(sorted[i].item, depth)
            case Err(e) => Err(e)
            case Ok(val) => Appended(before + sorted[i].key + val, Joined(Answers(sorted[i + 1..], depth)))
  {
    assert sorted[i..][1..] == sorted[i + 1..];
    var val := EncodeAt(sorted[i].item, depth);
    if val.Ok? {
      AppendedTwice(before, sorted[i].key + val.value, Joined(Answers(sorted[i + 1..], depth)));
      assert before + (sorted[i].key + val.value) == before + sorted[i].key + val.value;
    }
  }

  lemma {:induction false} AnswersAppend(keys: seq<Keyed<Value>>, x: Keyed<Value>, depth: nat)
    ensures Answers(keys + [x], depth) == Answers(keys, depth) + [Keyed(x.key, EncodeAt(x.item, depth))]
  {
  }

  lemma {:induction false} AppendedTwice<T>(a: seq<T>, b: seq<T>, r: Result<seq<T>, EncodeError>)
    ensures Appended(a, Appended(b, r)) == Appended(a + b, r)
    ensures Appended([], r) == r
  {
    if r.Ok? { assert [] + r.value == r.value && a + (b + r.value) == a + b + r.value; }
  }
}
