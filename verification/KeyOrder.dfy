/**
 The canonical order of encoded map keys (shorter encoding first, then byte-wise), and the sort
 the encoder applies to its keys.
 */
module KeyOrder {
  import opened ByteOrder

  /** Byte-wise lexical order. */
  predicate LexLess(a: seq<byte>, b: seq<byte>) {
    b != [] && (a == [] || a[0] < b[0] || (a[0] == b[0] && LexLess(a[1..], b[1..])))
  }

  /** `canonical_key_cmp(a, b) == Less`. */
  predicate KeyLess(a: seq<byte>, b: seq<byte>) {
    |a| < |b| || (|a| == |b| && LexLess(a, b))
  }

  /** An encoded key together with what it carries. */
  datatype Keyed<+T> = Keyed(key: seq<byte>, item: T)

  ghost predicate Ascending<T>(s: seq<Keyed<T>>) {
    forall i, j :: 0 <= i < j < |s| ==> KeyLess(s[i].key, s[j].key)
  }

  ghost predicate DistinctKeys<T>(s: seq<Keyed<T>>) {
    forall i, j :: 0 <= i < j < |s| ==> s[i].key != s[j].key
  }

  /** Stable insertion: `x` goes before the first element that is not below it. */
  function Insert<T>(x: Keyed<T>, s: seq<Keyed<T>>): (r: seq<Keyed<T>>)
    ensures |r| == |s| + 1
  {
    if s == [] || !KeyLess(s[0].key, x.key) then [x] + s
    else [s[0]] + Insert(x, s[1..])
  }

  /** The stable sort by `canonical_key_cmp` (`keys.sort_by`). */
  function Sort<T>(s: seq<Keyed<T>>): (r: seq<Keyed<T>>)
    ensures |r| == |s|
  {
    if s == [] then [] else Insert(s[0], Sort(s[1..]))
  }

  /** Two equal keys stand next to each other (`keys.windows(2)`). */
  predicate HasRepeat<T>(s: seq<Keyed<T>>) {
    exists i {:trigger s[i]} :: 0 <= i < |s| - 1 && s[i].key == s[i + 1].key
  }

  // ---- the order is a strict total order

  lemma {:induction false} LexTotal(a: seq<byte>, b: seq<byte>)
    ensures a != b ==> (LexLess(a, b) <==> !LexLess(b, a))
    ensures a == b ==> !LexLess(a, b)
  {
    if a != [] && b != [] {
      LexTotal(a[1..], b[1..]);
      if a[0] == b[0] && a[1..] == b[1..] {
        assert a == [a[0]] + a[1..] == b;
      }
    }
  }

  lemma {:induction false} LexTransitive(a: seq<byte>, b: seq<byte>, c: seq<byte>)
    requires LexLess(a, b) && LexLess(b, c)
    ensures LexLess(a, c)
  {
    if a != [] && a[0] == b[0] == c[0] {
      LexTransitive(a[1..], b[1..], c[1..]);
    }
  }

  lemma {:induction false} KeyTotal(a: seq<byte>, b: seq<byte>)
    ensures a != b ==> (KeyLess(a, b) <==> !KeyLess(b, a))
    ensures a == b ==> !KeyLess(a, b)
  {
    LexTotal(a, b);
  }

  lemma {:induction false} KeyTransitive(a: seq<byte>, b: seq<byte>, c: seq<byte>)
    requires KeyLess(a, b) && KeyLess(b, c)
    ensures KeyLess(a, c)
  {
    if |a| == |b| == |c| {
      LexTransitive(a, b, c);
    }
  }

  // ---- the sort

  lemma {:induction false} InsertMultiset<T>(x: Keyed<T>, s: seq<Keyed<T>>)
    ensures multiset(Insert(x, s)) == multiset([x]) + multiset(s)
  {
    if s != [] && KeyLess(s[0].key, x.key) {
      InsertMultiset(x, s[1..]);
      assert s == [s[0]] + s[1..];
    }
  }

  lemma {:induction false} SortMultiset<T>(s: seq<Keyed<T>>)
    ensures multiset(Sort(s)) == multiset(s)
  {
    if s != [] {
      SortMultiset(s[1..]);
      InsertMultiset(s[0], Sort(s[1..]));
      assert s == [s[0]] + s[1..];
    }
  }

  ghost predicate Ordered<T>(s: seq<Keyed<T>>) {
    forall i, j :: 0 <= i < j < |s| ==> !KeyLess(s[j].key, s[i].key)
  }

  lemma {:induction false} InsertOrdered<T>(x: Keyed<T>, s: seq<Keyed<T>>)
    requires Ordered(s)
    ensures Ordered(Insert(x, s))
  {
    if s == [] {
    } else if !KeyLess(s[0].key, x.key) {
      forall j | 0 <= j < |s| ensures !KeyLess(s[j].key, x.key) {
        if KeyLess(s[j].key, x.key) {
          KeyTotal(s[0].key, x.key);
          KeyTotal(s[0].key, s[j].key);
          if s[0].key != s[j].key && s[0].key != x.key { KeyTransitive(s[j].key, x.key, s[0].key); }
        }
      }
    } else {
      var rest := Insert(x, s[1..]);
      InsertOrdered(x, s[1..]);
      InsertMultiset(x, s[1..]);
      forall j | 0 <= j < |rest| ensures !KeyLess(rest[j].key, s[0].key) {
        assert rest[j] in multiset(rest);
        assert rest[j] == x || rest[j] in s[1..];
        KeyTotal(s[0].key, x.key);
      }
    }
  }

  lemma {:induction false} SortOrdered<T>(s: seq<Keyed<T>>)
    ensures Ordered(Sort(s))
  {
    if s != [] {
      SortOrdered(s[1..]);
      InsertOrdered(s[0], Sort(s[1..]));
    }
  }

  /** A sequence that is already in order is left as it is. */
  lemma {:induction false} SortOrderedIsIdentity<T>(s: seq<Keyed<T>>)
    requires Ordered(s)
    ensures Sort(s) == s
  {
    if s != [] {
      SortOrderedIsIdentity(s[1..]);
      assert s == [s[0]] + s[1..];
    }
  }

  lemma {:induction false} AscendingOrdered<T>(s: seq<Keyed<T>>)
    requires Ascending(s)
    ensures Ordered(s) && DistinctKeys(s)
  {
    forall i, j | 0 <= i < j < |s| ensures !KeyLess(s[j].key, s[i].key) && s[i].key != s[j].key {
      KeyTotal(s[i].key, s[j].key);
    }
  }

  /** Where a sorted element came from. */
  lemma {:induction false} SortOrigin<T>(s: seq<Keyed<T>>, j: nat) returns (i: nat)
    requires j < |s|
    ensures i < |s| && Sort(s)[j] == s[i]
  {
    SortMultiset(s);
    assert Sort(s)[j] in multiset(s);
    i :| i < |s| && s[i] == Sort(s)[j];
  }

  /** Where an element went. */
  lemma {:induction false} SortTarget<T>(s: seq<Keyed<T>>, i: nat) returns (j: nat)
    requires i < |s|
    ensures j < |s| && Sort(s)[j] == s[i]
  {
    SortMultiset(s);
    assert s[i] in multiset(Sort(s));
    j :| j < |s| && Sort(s)[j] == s[i];
  }

  /** Membership and multiplicity determine distinctness, so it does not depend on the order. */
  lemma {:induction false} DistinctPermutation<T>(s: seq<Keyed<T>>, t: seq<Keyed<T>>)
    requires multiset(s) == multiset(t) && DistinctKeys(s)
    ensures DistinctKeys(t)
  {
    forall i, j | 0 <= i < j < |t| ensures t[i].key != t[j].key {
      if t[i].key == t[j].key {
        assert t[i] in multiset(s) && t[j] in multiset(s);
        if t[i] == t[j] {
          assert t == t[..i] + [t[i]] + t[i + 1..j] + [t[j]] + t[j + 1..];
          assert multiset(s)[t[i]] >= 2;
          TwoIndices(s, t[i]);
        }
      }
    }
  }

  lemma {:induction false} TwoIndices<T>(s: seq<T>, x: T)
    requires multiset(s)[x] >= 2
    ensures exists i, j :: 0 <= i < j < |s| && s[i] == x && s[j] == x
  {
    var i :| 0 <= i < |s| && s[i] == x;
    var rest := s[..i] + s[i + 1..];
    assert s == s[..i] + [s[i]] + s[i + 1..];
    assert multiset(s) == multiset(rest) + multiset{x};
    assert x in multiset(rest);
    var k :| 0 <= k < |rest| && rest[k] == x;
    if k < i { assert s[k] == x; } else { assert s[k + 1] == x; }
  }

  /** Distinct keys sort to a strictly ascending sequence. */
  lemma {:induction false} SortDistinct<T>(s: seq<Keyed<T>>)
    requires DistinctKeys(s)
    ensures Ascending(Sort(s)) && DistinctKeys(Sort(s))
  {
    SortOrdered(s);
    SortMultiset(s);
    DistinctPermutation(s, Sort(s));
    var r := Sort(s);
    forall i, j | 0 <= i < j < |r| ensures KeyLess(r[i].key, r[j].key) {
      KeyTotal(r[i].key, r[j].key);
    }
  }

  lemma {:induction false} AscendingFirst<T>(s: seq<Keyed<T>>, t: seq<Keyed<T>>)
    requires Ascending(s) && Ascending(t) && multiset(s) == multiset(t) && s != [] && t != []
    ensures s[0] == t[0]
  {
    assert s[0] in multiset(t) && t[0] in multiset(s);
    KeyTotal(s[0].key, t[0].key);
  }

  lemma {:induction false} DropFirst<T>(s: seq<T>)
    requires s != []
    ensures multiset(s[1..]) == multiset(s) - multiset{s[0]}
  {
    assert s == [s[0]] + s[1..];
  }

  lemma {:induction false} AscendingUnique<T>(s: seq<Keyed<T>>, t: seq<Keyed<T>>)
    requires Ascending(s) && Ascending(t) && multiset(s) == multiset(t)
    ensures s == t
  {
    assert |s| == |multiset(s)| == |multiset(t)| == |t|;
    if s != [] {
      AscendingFirst(s, t);
      DropFirst(s);
      DropFirst(t);
      AscendingUnique(s[1..], t[1..]);
      assert s == [s[0]] + s[1..] && t == [t[0]] + t[1..];
    }
  }

  /** With distinct keys the sorted form does not depend on the order the entries came in. */
  lemma {:induction false} SortPermutation<T>(s: seq<Keyed<T>>, t: seq<Keyed<T>>)
    requires multiset(s) == multiset(t) && DistinctKeys(s)
    ensures Sort(s) == Sort(t)
  {
    DistinctPermutation(s, t);
    SortDistinct(s);
    SortDistinct(t);
    SortMultiset(s);
    SortMultiset(t);
    AscendingUnique(Sort(s), Sort(t));
  }

  /** Adjacent repeats after sorting are exactly the repeats before it. */
  lemma {:induction false} RepeatAfterSort<T>(s: seq<Keyed<T>>)
    ensures HasRepeat(Sort(s)) <==> !DistinctKeys(s)
  {
    var r := Sort(s);
    SortMultiset(s);
    if DistinctKeys(s) {
      SortDistinct(s);
    } else if !HasRepeat(r) {
      SortOrdered(s);
      NoRepeatAscending(r);
      forall i, j | 0 <= i < j < |r| ensures r[i].key != r[j].key {
        KeyTotal(r[i].key, r[j].key);
      }
      DistinctPermutation(r, s);
    }
  }

  lemma {:induction false} NoRepeatAscending<T>(r: seq<Keyed<T>>)
    requires Ordered(r) && !HasRepeat(r)
    ensures Ascending(r)
  {
    if |r| > 1 {
      forall i | 0 <= i < |r[1..]| - 1 ensures r[1..][i].key != r[1..][i + 1].key {
        assert r[1..][i] == r[i + 1];
      }
      NoRepeatAscending(r[1..]);
      KeyTotal(r[0].key, r[1].key);
      assert r[0].key != r[1].key;
      forall j | 1 < j < |r| ensures KeyLess(r[0].key, r[j].key) {
        assert r[1..][0] == r[1] && r[1..][j - 1] == r[j];
        KeyTransitive(r[0].key, r[1].key, r[j].key);
      }
      forall i, j | 0 <= i < j < |r| ensures KeyLess(r[i].key, r[j].key) {
        if i > 0 { assert r[1..][i - 1] == r[i] && r[1..][j - 1] == r[j]; }
      }
    }
  }

  // ---- sorting commutes with a change of what the keys carry

  function MapItems<T, U>(s: seq<Keyed<T>>, f: T -> U): (r: seq<Keyed<U>>)
    ensures |r| == |s| && forall i :: 0 <= i < |s| ==> r[i] == Keyed(s[i].key, f(s[i].item))
  {
    if s == [] then [] else [Keyed(s[0].key, f(s[0].item))] + MapItems(s[1..], f)
  }

  lemma {:induction false} InsertMap<T, U>(x: Keyed<T>, s: seq<Keyed<T>>, f: T -> U)
    ensures MapItems(Insert(x, s), f) == Insert(Keyed(x.key, f(x.item)), MapItems(s, f))
  {
    if s != [] && KeyLess(s[0].key, x.key) {
      InsertMap(x, s[1..], f);
      assert Insert(x, s)[1..] == Insert(x, s[1..]);
    } else {
      assert ([x] + s)[1..] == s;
    }
  }

  lemma {:induction false} SortMap<T, U>(s: seq<Keyed<T>>, f: T -> U)
    ensures MapItems(Sort(s), f) == Sort(MapItems(s, f))
  {
    if s != [] {
      SortMap(s[1..], f);
      InsertMap(s[0], Sort(s[1..]), f);
    }
  }
}
