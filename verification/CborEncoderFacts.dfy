/**
 What the encoder promises: it succeeds exactly on the encodable values, and what it then emits is
 `Enc`.
 */
module CborEncoderFacts {
  import opened Wrappers
  import opened ByteOrder
  import opened KeyOrder
  import opened Cbor
  import opened CborEncoder

  /** The encoder's answer on `v` is the right one: the bytes, or an error whose rule `v` does break. */
  ghost predicate Right(v: Value, depth: nat) {
    match EncodeAt(v, depth)
    case Ok(s) => Encodable(v, depth) && s == Enc(v)
    case Err(DepthLimitExceeded) => !DepthOk(v, depth)
    case Err(DuplicateKey) => !NoDuplicates(v)
  }

  lemma {:induction false} EncodeExact(v: Value, depth: nat)
    ensures Right(v, depth)
    decreases v
  {
    match v
    case Array(items) =>
      if depth < MAX_DEPTH {
        forall i | 0 <= i < |items| { EncodeExact(items[i], depth + 1); }
        ItemsExact(items, depth + 1);
      }
    case Map(entries) =>
      if depth < MAX_DEPTH {
        forall i | 0 <= i < |entries| { EntryExact(entries[i], depth + 1); }
        MapExact(entries, depth);
      }
    case _ =>
  }

  lemma {:induction false} EntryExact(e: Entry, depth: nat)
    ensures Right(e.key, depth) && Right(e.val, depth)
    decreases e
  {
    match e
    case Entry(k, w) =>
      EncodeExact(k, depth);
      EncodeExact(w, depth);
  }

  lemma {:induction false} ItemsExact(items: seq<Value>, depth: nat)
    requires forall i :: 0 <= i < |items| ==> Right(items[i], depth)
    ensures match EncodeItems(items, depth)
            case Ok(s) => s == EncItems(items) && forall i :: 0 <= i < |items| ==> Encodable(items[i], depth)
            case Err(e) => exists i :: 0 <= i < |items| && EncodeAt(items[i], depth) == Err(e)
  {
    if items != [] {
      var rest := items[1..];
      ItemsExact(rest, depth);
      var r := EncodeItems(rest, depth);
      if EncodeAt(items[0], depth).Ok? && r.Err? {
        var i :| 0 <= i < |rest| && EncodeAt(rest[i], depth) == Err(r.error);
        assert items[i + 1] == rest[i];
      }
    }
  }

  lemma {:induction false} KeysExact(entries: seq<Entry>, depth: nat)
    requires forall i :: 0 <= i < |entries| ==> Right(entries[i].key, depth)
    ensures match EncodeKeys(entries, depth)
            case Ok(keyed) =>
              |keyed| == |entries|
              && forall i :: 0 <= i < |entries| ==>
                               keyed[i] == Keyed(Enc(entries[i].key), EncodeAt(entries[i].val, depth))
                               && Encodable(entries[i].key, depth)
            case Err(e) => exists i :: 0 <= i < |entries| && EncodeAt(entries[i].key, depth) == Err(e)
  {
    if entries != [] {
      var rest := entries[1..];
      KeysExact(rest, depth);
      var r := EncodeKeys(rest, depth);
      if EncodeAt(entries[0].key, depth).Ok? && r.Err? {
        var i :| 0 <= i < |rest| && EncodeAt(rest[i].key, depth) == Err(r.error);
        assert entries[i + 1] == rest[i];
      }
    }
  }

  function Emitted(e: Encoded): seq<byte> {
    if e.Ok? then e.value else []
  }

  lemma {:induction false} JoinedExact(s: seq<Keyed<Encoded>>)
    ensures match Joined(s)
            case Ok(body) => body == Flatten(MapItems(s, Emitted)) && forall i :: 0 <= i < |s| ==> s[i].item.Ok?
            case Err(e) => exists i :: 0 <= i < |s| && s[i].item == Err(e)
  {
    if s != [] {
      JoinedExact(s[1..]);
      if s[0].item.Ok? && Joined(s[1..]).Err? {
        var i :| 0 <= i < |s[1..]| && s[1..][i].item == Err(Joined(s[1..]).error);
        assert s[i + 1] == s[1..][i];
      }
    }
  }

  /** An error passed on from entry `i` is right for the whole map. */
  lemma {:induction false} PassedOn(entries: seq<Entry>, i: nat, depth: nat, e: EncodeError)
    requires depth < MAX_DEPTH && i < |entries| && MapBody(entries, depth + 1) == Err(e)
    requires Right(entries[i].key, depth + 1) && Right(entries[i].val, depth + 1)
    requires EncodeAt(entries[i].key, depth + 1) == Err(e) || EncodeAt(entries[i].val, depth + 1) == Err(e)
    ensures Right(Map(entries), depth)
  {
  }

  lemma {:induction false} Repeated(entries: seq<Entry>, depth: nat)
    requires depth < MAX_DEPTH && MapBody(entries, depth + 1) == Err(DuplicateKey)
    requires exists i, j :: 0 <= i < j < |entries| && Enc(entries[i].key) == Enc(entries[j].key)
    ensures Right(Map(entries), depth)
  {
  }

  lemma {:induction false} Succeeded(entries: seq<Entry>, depth: nat)
    requires depth < MAX_DEPTH && MapBody(entries, depth + 1) == Ok(Flatten(Sort(EncEntries(entries))))
    requires forall i :: 0 <= i < |entries| ==>
               Encodable(entries[i].key, depth + 1) && Encodable(entries[i].val, depth + 1)
    requires forall i, j :: 0 <= i < j < |entries| ==> Enc(entries[i].key) != Enc(entries[j].key)
    ensures Right(Map(entries), depth)
  {
  }

  lemma {:induction false} MapExact(entries: seq<Entry>, depth: nat)
    requires depth < MAX_DEPTH
    requires forall i :: 0 <= i < |entries| ==> Right(entries[i].key, depth + 1) && Right(entries[i].val, depth + 1)
    ensures Right(Map(entries), depth)
  {
    match EncodeKeys(entries, depth + 1)
    case Err(e) => KeyError(entries, depth, e);
    case Ok(keyed) =>
      if HasRepeat(Sort(keyed)) {
        RepeatedKey(entries, keyed, depth);
        Repeated(entries, depth);
      } else {
        RepeatAfterSort(keyed);
        SortedExact(entries, keyed, depth);
      }
  }

  lemma {:induction false} KeyError(entries: seq<Entry>, depth: nat, e: EncodeError)
    requires depth < MAX_DEPTH && EncodeKeys(entries, depth + 1) == Err(e)
    requires forall i :: 0 <= i < |entries| ==> Right(entries[i].key, depth + 1) && Right(entries[i].val, depth + 1)
    ensures Right(Map(entries), depth)
  {
    KeysExact(entries, depth + 1);
    var i :| 0 <= i < |entries| && EncodeAt(entries[i].key, depth + 1) == Err(e);
    PassedOn(entries, i, depth, e);
  }

  lemma {:induction false} RepeatedKey(entries: seq<Entry>, keyed: seq<Keyed<Encoded>>, depth: nat)
    requires EncodeKeys(entries, depth + 1) == Ok(keyed) && HasRepeat(Sort(keyed))
    requires forall i :: 0 <= i < |entries| ==> Right(entries[i].key, depth + 1)
    ensures exists i, j :: 0 <= i < j < |entries| && Enc(entries[i].key) == Enc(entries[j].key)
  {
    KeysExact(entries, depth + 1);
    RepeatAfterSort(keyed);
    var i, j :| 0 <= i < j < |keyed| && keyed[i].key == keyed[j].key;
    assert Enc(entries[i].key) == Enc(entries[j].key);
  }

  lemma {:induction false} SortedExact(entries: seq<Entry>, keyed: seq<Keyed<Encoded>>, depth: nat)
    requires depth < MAX_DEPTH && EncodeKeys(entries, depth + 1) == Ok(keyed)
    requires forall i :: 0 <= i < |entries| ==> Right(entries[i].key, depth + 1) && Right(entries[i].val, depth + 1)
    requires DistinctKeys(keyed) && !HasRepeat(Sort(keyed))
    ensures Right(Map(entries), depth)
  {
    KeysExact(entries, depth + 1);
    JoinedExact(Sort(keyed));
    match Joined(Sort(keyed))
    case Err(e) =>
      var j :| 0 <= j < |keyed| && Sort(keyed)[j].item == Err(e);
      var i := SortOrigin(keyed, j);
      PassedOn(entries, i, depth, e);
    case Ok(body) =>
      forall i | 0 <= i < |keyed| ensures keyed[i].item.Ok? {
        var j := SortTarget(keyed, i);
      }
      EmittedEntries(entries, keyed, depth + 1);
      SortMap(keyed, Emitted);
      DistinctEntries(entries);
      forall i, j | 0 <= i < j < |entries| ensures Enc(entries[i].key) != Enc(entries[j].key) {
        assert keyed[i].key != keyed[j].key;
      }
      Succeeded(entries, depth);
  }

  lemma {:induction false} EmittedEntries(entries: seq<Entry>, keyed: seq<Keyed<Encoded>>, depth: nat)
    requires |keyed| == |entries|
    requires forall i :: 0 <= i < |entries| ==> Right(entries[i].val, depth) && keyed[i].item.Ok?
    requires forall i :: 0 <= i < |entries| ==> keyed[i] == Keyed(Enc(entries[i].key), EncodeAt(entries[i].val, depth))
    ensures MapItems(keyed, Emitted) == EncEntries(entries)
    ensures forall i :: 0 <= i < |entries| ==> Encodable(entries[i].val, depth)
  {
    EncEntriesAt(entries);
  }

  lemma {:induction false} DistinctEntries(es: seq<Entry>)
    ensures (forall i, j :: 0 <= i < j < |es| ==> Enc(es[i].key) != Enc(es[j].key)) <==> DistinctKeys(EncEntries(es))
    ensures DistinctKeys(EncEntries(es)) <==> DistinctKeys(CanonEntries(es))
  {
    EncEntriesAt(es);
    CanonEntriesAt(es);
    if DistinctKeys(EncEntries(es)) {
      forall i, j | 0 <= i < j < |es| ensures Enc(es[i].key) != Enc(es[j].key) {
        assert EncEntries(es)[i].key != EncEntries(es)[j].key;
      }
    }
    if DistinctKeys(CanonEntries(es)) {
      forall i, j | 0 <= i < j < |es| ensures Enc(es[i].key) != Enc(es[j].key) {
        assert CanonEntries(es)[i].key != CanonEntries(es)[j].key;
      }
    }
  }
}
