/** The canonical encoding byte by byte, after section 3 of RFC 8949, and the key order read off the bytes. */
module CborBytes {
  import opened ByteOrder
  import opened KeyOrder
  import opened Cbor

  // ---- heads and simple values

  /** A small argument in the low five bits, or in the one or two bytes after them. */
  lemma {:induction false} ShortHeadBytes(major: nat, arg: nat)
    requires major < 8 && arg < 0x1_0000
    ensures Head(major, arg) == if arg <= 23 then [major * 0x20 + arg]
                                else if arg < 0x100 then [major * 0x20 + 0x18, arg]
                                else [major * 0x20 + 0x19, arg / 0x100, arg % 0x100]
  {
    BigEndian2(arg);
  }

  /** A larger one in the four or eight bytes after them. */
  lemma {:induction false} LongHeadBytes(major: nat, arg: nat)
    requires major < 8 && 0x1_0000 <= arg < 0x1_0000_0000_0000_0000
    ensures Head(major, arg) == if arg < 0x1_0000_0000 then [major * 0x20 + 0x1A] + Four(arg)
                                else [major * 0x20 + 0x1B] + (Four(arg / 0x1_0000_0000) + Four(arg))
  {
    BigEndian8(arg);
    BigEndian4(arg);
    BigEndian4(arg / 0x1_0000_0000);
  }

  /** The major types: 0 and 1 for integers, 2 and 3 for strings, 4 and 5 for arrays and maps; the simple values. */
  lemma {:induction false} ValueBytes(v: Value)
    ensures v.Int? && v.n >= 0 ==> Enc(v) == Head(0, v.n)
    ensures v.Int? && v.n < 0 ==> Enc(v) == Head(1, -1 - v.n)
    ensures v.Bytes? ==> Enc(v) == Head(2, |v.bytes|) + v.bytes
    ensures v.Text? ==> Enc(v) == Head(3, |v.utf8|) + v.utf8
    ensures v.Array? ==> Enc(v) == Head(4, |v.items|) + EncItems(v.items)
    ensures v.Map? ==> Head(5, |v.entries|) <= Enc(v)
    ensures v == Bool(false) ==> Enc(v) == [0xF4]
    ensures v == Bool(true) ==> Enc(v) == [0xF5]
    ensures v == Null ==> Enc(v) == [0xF6]
  {
  }

  // ---- the order of keys

  /** The first byte in which the two differ is smaller. */
  ghost predicate FirstDifferenceBelow(a: seq<byte>, b: seq<byte>, i: nat) {
    i < |a| && i < |b| && a[..i] == b[..i] && a[i] < b[i]
  }

  lemma {:induction false} LexDiffers(a: seq<byte>, b: seq<byte>)
    requires |a| == |b|
    ensures LexLess(a, b) <==> exists i: nat :: FirstDifferenceBelow(a, b, i)
  {
    if LexLess(a, b) {
      var i := LexFirst(a, b);
      assert FirstDifferenceBelow(a, b, i);
    } else if i: nat :| FirstDifferenceBelow(a, b, i) {
      LexFrom(a, b, i);
    }
  }

  lemma {:induction false} LexFirst(a: seq<byte>, b: seq<byte>) returns (i: nat)
    requires |a| == |b| && LexLess(a, b)
    ensures FirstDifferenceBelow(a, b, i)
  {
    if a[0] < b[0] {
      i := 0;
    } else {
      var j := LexFirst(a[1..], b[1..]);
      i := j + 1;
      assert a[..i] == [a[0]] + a[1..][..j] && b[..i] == [b[0]] + b[1..][..j];
    }
  }

  lemma {:induction false} LexFrom(a: seq<byte>, b: seq<byte>, i: nat)
    requires FirstDifferenceBelow(a, b, i)
    ensures LexLess(a, b)
  {
    if i > 0 {
      assert a[..i][0] == a[0] && b[..i][0] == b[0];
      assert a[1..][..i - 1] == a[..i][1..] && b[1..][..i - 1] == b[..i][1..];
      LexFrom(a[1..], b[1..], i - 1);
    }
  }

  /** Section 6 of CTAP 2.1: the shorter key first, and of two as long the one that is below at the first difference. */
  lemma {:induction false} KeyOrderExact(a: seq<byte>, b: seq<byte>)
    ensures KeyLess(a, b) <==>
            |a| < |b| || (|a| == |b| && exists i: nat :: FirstDifferenceBelow(a, b, i))
  {
    if |a| == |b| { LexDiffers(a, b); }
  }
}
