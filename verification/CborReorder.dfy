/**
 The order in which map entries are listed, at any level and inside keys too, decides neither
 whether a value encodes nor its bytes; and values that encode alike differ in nothing else.
 */
module CborReorder {
  import opened KeyOrder
  import opened Cbor
  import opened CborEncoderFacts

  predicate Relisted(es: seq<Entry>, fs: seq<Entry>) {
    multiset(es) == multiset(fs)
  }

  /** `w` is `v` with the entries of any of its maps, however deep and inside keys too, listed in another order. */
  ghost predicate Reordered(v: Value, w: Value)
    decreases v
  {
    match v
    case Array(items) =>
      w.Array? && |items| == |w.items| && forall i :: 0 <= i < |items| ==> Reordered(items[i], w.items[i])
    case Map(es) =>
      w.Map?
      && exists fs: seq<Entry> ::
           Relisted(fs, w.entries) && |es| == |fs|
           && forall i :: 0 <= i < |es| ==> Reordered(es[i].key, fs[i].key) && Reordered(es[i].val, fs[i].val)
    case _ => v == w
  }

  /** `v` and `w` keep the same rules, and where no map repeats a key they have the same bytes and canonical form. */
  ghost predicate Alike(v: Value, w: Value) {
    && (forall d: nat :: DepthOk(v, d) <==> DepthOk(w, d))
    && (NoDuplicates(v) <==> NoDuplicates(w))
    && (NoDuplicates(v) ==> Enc(v) == Enc(w) && Canon(v) == Canon(w))
  }

  // ---- mapping a permuted sequence

  function Mapped<T, U>(s: seq<T>, f: T -> U): (r: seq<U>)
    ensures |r| == |s| && forall i :: 0 <= i < |s| ==> r[i] == f(s[i])
  {
    if s == [] then [] else [f(s[0])] + Mapped(s[1..], f)
  }

  lemma {:induction false} MappedWithout<T, U>(s: seq<T>, i: nat, f: T -> U) returns (rest: seq<T>)
    requires i < |s|
    ensures |rest| == |s| - 1
    ensures multiset(s) == multiset(rest) + multiset{s[i]}
    ensures multiset(Mapped(s, f)) == multiset(Mapped(rest, f)) + multiset{f(s[i])}
  {
    rest := s[..i] + s[i + 1..];
    assert s == s[..i] + [s[i]] + s[i + 1..];
    var m := Mapped(s, f);
    assert m == m[..i] + [m[i]] + m[i + 1..];
    assert Mapped(rest, f) == m[..i] + m[i + 1..];
  }

  lemma {:induction false} CancelOne<T>(a: multiset<T>, b: multiset<T>, x: T)
    requires a + multiset{x} == b + multiset{x}
    ensures a == b
  {
    assert a == (a + multiset{x}) - multiset{x};
    assert b == (b + multiset{x}) - multiset{x};
  }

  lemma {:induction false} MappedPermutation<T, U>(s: seq<T>, t: seq<T>, f: T -> U)
    requires multiset(s) == multiset(t)
    ensures multiset(Mapped(s, f)) == multiset(Mapped(t, f))
    decreases |s|
  {
    assert |s| == |multiset(s)| == |multiset(t)| == |t|;
    if s != [] {
      assert s[0] in multiset(t);
      var i :| 0 <= i < |t| && t[i] == s[0];
      var s' := MappedWithout(s, 0, f);
      var t' := MappedWithout(t, i, f);
      CancelOne(multiset(s'), multiset(t'), s[0]);
      MappedPermutation(s', t', f);
    }
  }

  lemma {:induction false} PermutedPairs(es: seq<Entry>, fs: seq<Entry>)
    requires multiset(es) == multiset(fs)
    ensures multiset(EncEntries(es)) == multiset(EncEntries(fs))
    ensures multiset(CanonEntries(es)) == multiset(CanonEntries(fs))
  {
    EncEntriesAt(es);
    EncEntriesAt(fs);
    CanonEntriesAt(es);
    CanonEntriesAt(fs);
    assert EncEntries(es) == Mapped(es, EncEntry) && EncEntries(fs) == Mapped(fs, EncEntry);
    assert CanonEntries(es) == Mapped(es, CanonEntry) && CanonEntries(fs) == Mapped(fs, CanonEntry);
    MappedPermutation(es, fs, EncEntry);
    MappedPermutation(es, fs, CanonEntry);
  }

  lemma {:induction false} PermutedDistinct(es: seq<Entry>, fs: seq<Entry>)
    requires Relisted(es, fs) && forall i, j :: 0 <= i < j < |es| ==> Enc(es[i].key) != Enc(es[j].key)
    ensures forall i, j :: 0 <= i < j < |fs| ==> Enc(fs[i].key) != Enc(fs[j].key)
  {
    PermutedPairs(es, fs);
    DistinctEntries(es);
    DistinctEntries(fs);
    DistinctPermutation(EncEntries(es), EncEntries(fs));
  }

  lemma {:induction false} PermutedRules(es: seq<Entry>, fs: seq<Entry>)
    requires Relisted(es, fs)
    ensures forall d: nat :: DepthOk(Map(es), d) ==> DepthOk(Map(fs), d)
    ensures NoDuplicates(Map(es)) ==> NoDuplicates(Map(fs))
  {
    forall i | 0 <= i < |fs| ensures fs[i] in es {
      assert fs[i] in multiset(fs);
    }
    if NoDuplicates(Map(es)) { PermutedDistinct(es, fs); }
  }

  lemma {:induction false} PermutedBytes(es: seq<Entry>, fs: seq<Entry>)
    requires Relisted(es, fs) && forall i, j :: 0 <= i < j < |es| ==> Enc(es[i].key) != Enc(es[j].key)
    ensures Enc(Map(es)) == Enc(Map(fs)) && Canon(Map(es)) == Canon(Map(fs))
  {
    PermutedPairs(es, fs);
    DistinctEntries(es);
    SortPermutation(EncEntries(es), EncEntries(fs));
    SortPermutation(CanonEntries(es), CanonEntries(fs));
    assert |es| == |multiset(es)| == |multiset(fs)| == |fs|;
  }

  /** One map, its entries listed in another order. */
  lemma {:induction false} PermutedAlike(es: seq<Entry>, fs: seq<Entry>)
    requires Relisted(es, fs)
    ensures Alike(Map(es), Map(fs))
  {
    PermutedRules(es, fs);
    PermutedRules(fs, es);
    if NoDuplicates(Map(es)) { PermutedBytes(es, fs); }
  }

  // ---- reordering keeps everything

  lemma {:induction false} ItemsAlike(a: seq<Value>, b: seq<Value>)
    requires |a| == |b| && forall i :: 0 <= i < |a| ==> Alike(a[i], b[i]) && NoDuplicates(a[i])
    ensures EncItems(a) == EncItems(b) && CanonItems(a) == CanonItems(b)
  {
    if a != [] { ItemsAlike(a[1..], b[1..]); }
  }

  lemma {:induction false} ArrayAlike(a: seq<Value>, b: seq<Value>)
    requires |a| == |b| && forall i :: 0 <= i < |a| ==> Alike(a[i], b[i])
    ensures Alike(Array(a), Array(b))
  {
    var v, w := Array(a), Array(b);
    assert v.items == a && w.items == b;
    forall d: nat ensures DepthOk(v, d) <==> DepthOk(w, d) {
      assert forall i :: 0 <= i < |a| ==> (DepthOk(a[i], d + 1) <==> DepthOk(b[i], d + 1));
    }
    assert forall i :: 0 <= i < |a| ==> (NoDuplicates(a[i]) <==> NoDuplicates(b[i]));
    if NoDuplicates(v) { ItemsAlike(a, b); }
  }

  ghost predicate EntriesPairwise(es: seq<Entry>, fs: seq<Entry>) {
    |es| == |fs| && forall i :: 0 <= i < |es| ==> Alike(es[i].key, fs[i].key) && Alike(es[i].val, fs[i].val)
  }

  lemma {:induction false} PairwiseRules(es: seq<Entry>, fs: seq<Entry>)
    requires EntriesPairwise(es, fs) && NoDuplicates(Map(es))
    ensures NoDuplicates(Map(fs)) && EncEntries(es) == EncEntries(fs) && CanonEntries(es) == CanonEntries(fs)
  {
    EncEntriesAt(es);
    EncEntriesAt(fs);
    CanonEntriesAt(es);
    CanonEntriesAt(fs);
    forall i | 0 <= i < |es|
      ensures EncEntry(es[i]) == EncEntry(fs[i]) && CanonEntry(es[i]) == CanonEntry(fs[i])
    {
      assert NoDuplicates(es[i].key) && NoDuplicates(es[i].val);
    }
    forall i, j | 0 <= i < j < |fs| ensures Enc(fs[i].key) != Enc(fs[j].key) {
      assert EncEntry(es[i]) == EncEntry(fs[i]) && EncEntry(es[j]) == EncEntry(fs[j]);
    }
  }

  lemma {:induction false} AlikeBack(v: Value, w: Value)
    requires Alike(v, w)
    ensures Alike(w, v)
  {
  }

  lemma {:induction false} PairwiseDepth(es: seq<Entry>, fs: seq<Entry>, d: nat)
    requires EntriesPairwise(es, fs)
    ensures DepthOk(Map(es), d) <==> DepthOk(Map(fs), d)
  {
    forall i | 0 <= i < |es|
      ensures DepthOk(es[i].key, d + 1) == DepthOk(fs[i].key, d + 1)
              && DepthOk(es[i].val, d + 1) == DepthOk(fs[i].val, d + 1)
    {
      assert Alike(es[i].key, fs[i].key) && Alike(es[i].val, fs[i].val);
    }
  }

  lemma {:induction false} EntriesAlike(es: seq<Entry>, fs: seq<Entry>)
    requires EntriesPairwise(es, fs)
    ensures Alike(Map(es), Map(fs))
  {
    forall i | 0 <= i < |es| ensures Alike(fs[i].key, es[i].key) && Alike(fs[i].val, es[i].val) {
      AlikeBack(es[i].key, fs[i].key);
      AlikeBack(es[i].val, fs[i].val);
    }
    assert EntriesPairwise(fs, es);
    forall d: nat { PairwiseDepth(es, fs, d); }
    if NoDuplicates(Map(es)) { PairwiseRules(es, fs); }
    if NoDuplicates(Map(fs)) { PairwiseRules(fs, es); }
  }

  /** Reordering maps anywhere in a value keeps its rules, and the bytes and canonical form of an encodable one. */
  lemma {:induction false} ReorderedAlike(v: Value, w: Value)
    requires Reordered(v, w)
    ensures Alike(v, w)
    decreases v
  {
    match v
    case Array(items) =>
      forall i | 0 <= i < |items| ensures Alike(items[i], w.items[i]) { ReorderedAlike(items[i], w.items[i]); }
      ArrayAlike(items, w.items);
    case Map(es) =>
      var fs: seq<Entry> :| Relisted(fs, w.entries) && |es| == |fs|
                && forall i :: 0 <= i < |es| ==> Reordered(es[i].key, fs[i].key) && Reordered(es[i].val, fs[i].val);
      forall i | 0 <= i < |es| ensures Alike(es[i].key, fs[i].key) && Alike(es[i].val, fs[i].val) {
        ReorderedAlike(es[i].key, fs[i].key);
        ReorderedAlike(es[i].val, fs[i].val);
      }
      EntriesAlike(es, fs);
      PermutedAlike(fs, w.entries);
    case _ =>
  }

  // ---- one canonical form means a reordering

  /** Two sequences with the same images up to order can be listed so that the images match one by one. */
  lemma {:induction false} Aligned<T, U>(s: seq<T>, t: seq<T>, f: T -> U) returns (r: seq<T>)
    requires multiset(Mapped(s, f)) == multiset(Mapped(t, f))
    ensures multiset(r) == multiset(t) && |r| == |s| && forall i :: 0 <= i < |s| ==> f(r[i]) == f(s[i])
    decreases |s|
  {
    assert |s| == |multiset(Mapped(s, f))| == |multiset(Mapped(t, f))| == |t|;
    r := t;
    if s != [] {
      var i := ImageOf(s, t, f);
      var t' := MappedWithout(t, i, f);
      SameRest(s, t, t', i, f);
      var rest := Aligned(s[1..], t', f);
      r := [t[i]] + rest;
    }
  }

  lemma {:induction false} ImageOf<T, U>(s: seq<T>, t: seq<T>, f: T -> U) returns (i: nat)
    requires s != [] && multiset(Mapped(s, f)) == multiset(Mapped(t, f))
    ensures i < |t| && f(t[i]) == f(s[0])
  {
    var m := Mapped(t, f);
    assert Mapped(s, f)[0] in multiset(m);
    i :| 0 <= i < |m| && m[i] == f(s[0]);
  }

  lemma {:induction false} SameRest<T, U>(s: seq<T>, t: seq<T>, rest: seq<T>, i: nat, f: T -> U)
    requires s != [] && i < |t| && f(t[i]) == f(s[0]) && multiset(Mapped(s, f)) == multiset(Mapped(t, f))
    requires multiset(Mapped(t, f)) == multiset(Mapped(rest, f)) + multiset{f(t[i])}
    ensures multiset(Mapped(s[1..], f)) == multiset(Mapped(rest, f))
  {
    var m := Mapped(s, f);
    assert m == [m[0]] + Mapped(s[1..], f);
    CancelOne(multiset(Mapped(s[1..], f)), multiset(Mapped(rest, f)), f(s[0]));
  }

  function CanonPair(e: Entry): Entry {
    Entry(Canon(e.key), Canon(e.val))
  }

  function ItemOf<T>(k: Keyed<T>): T {
    k.item
  }

  /** The entries of a canonical map are, up to order, the canonical forms of the entries. */
  lemma {:induction false} CanonEntriesOf(es: seq<Entry>)
    ensures multiset(Canon(Map(es)).entries) == multiset(Mapped(es, CanonPair))
  {
    var keyed := CanonEntries(es);
    CanonEntriesAt(es);
    SortMultiset(keyed);
    MappedPermutation(Sort(keyed), keyed, ItemOf<Entry>);
    assert Carried(Sort(keyed)) == Mapped(Sort(keyed), ItemOf<Entry>);
    assert Mapped(keyed, ItemOf<Entry>) == Mapped(es, CanonPair);
  }

  /** Values with one canonical form are reorderings of each other. */
  lemma {:induction false} CanonReordered(v: Value, w: Value)
    requires Canon(v) == Canon(w)
    ensures Reordered(v, w)
    decreases v
  {
    match v
    case Array(items) =>
      forall i | 0 <= i < |items| ensures Reordered(items[i], w.items[i]) {
        assert CanonItems(items)[i] == CanonItems(w.items)[i];
        CanonReordered(items[i], w.items[i]);
      }
    case Map(es) =>
      CanonEntriesOf(es);
      CanonEntriesOf(w.entries);
      var fs := Aligned(es, w.entries, CanonPair);
      forall i | 0 <= i < |es| ensures Reordered(es[i].key, fs[i].key) && Reordered(es[i].val, fs[i].val) {
        assert CanonPair(fs[i]) == CanonPair(es[i]);
        CanonReordered(es[i].key, fs[i].key);
        CanonReordered(es[i].val, fs[i].val);
      }
      assert Relisted(fs, w.entries);
    case _ =>
  }
}
