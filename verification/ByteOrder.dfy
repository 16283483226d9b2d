/** Bytes, and the big-endian integers every wire format of the repository is built from. */
module ByteOrder {

  type byte = b: int | 0 <= b < 256

  const U16: int := 0x1_0000
  const U32: int := 0x1_0000_0000
  const U64: int := 0x1_0000_0000_0000_0000

  /** The longest a byte string or text of the source can be: `isize::MAX` bytes. */
  const STRING_MAX: nat := 0x7FFF_FFFF_FFFF_FFFF

  function Pow256(k: nat): (p: nat)
    ensures p > 0
  {
    if k == 0 then 1 else 256 * Pow256(k - 1)
  }

  /** The low `k` bytes of `n`, most significant first (`to_be_bytes`). */
  function ToBE(n: nat, k: nat): (s: seq<byte>)
    ensures |s| == k
  {
    if k == 0 then [] else
      var low: byte := n % 256;
      ToBE(n / 256, k - 1) + [low]
  }

  /** The number a big-endian byte string denotes (`from_be_bytes`). */
  function FromBE(s: seq<byte>): nat {
    if s == [] then 0 else 256 * FromBE(s[..|s| - 1]) + s[|s| - 1]
  }

  lemma {:induction false} ToBEFromBE(s: seq<byte>)
    ensures FromBE(s) < Pow256(|s|)
    ensures ToBE(FromBE(s), |s|) == s
  {
    if s != [] {
      ToBEFromBE(s[..|s| - 1]);
      assert s == s[..|s| - 1] + [s[|s| - 1]];
    }
  }

  lemma {:induction false} FromBEToBE(n: nat, k: nat)
    requires n < Pow256(k)
    ensures FromBE(ToBE(n, k)) == n
  {
    if k > 0 {
      FromBEToBE(n / 256, k - 1);
      assert ToBE(n, k)[..k - 1] == ToBE(n / 256, k - 1);
    }
  }

  lemma {:induction false} Pow256Values()
    ensures Pow256(1) == 256 && Pow256(2) == U16 && Pow256(4) == U32 && Pow256(8) == U64
  {
    assert Pow256(2) == 256 * Pow256(1);
    assert Pow256(3) == 256 * Pow256(2);
    assert Pow256(4) == 256 * Pow256(3);
    assert Pow256(5) == 256 * Pow256(4);
    assert Pow256(6) == 256 * Pow256(5);
    assert Pow256(7) == 256 * Pow256(6);
  }

  // ---- the widths in use, byte by byte

  /** The low four bytes, most significant first. */
  function Four(n: nat): seq<byte> {
    [n / 0x100_0000 % 0x100, n / 0x1_0000 % 0x100, n / 0x100 % 0x100, n % 0x100]
  }

  lemma {:induction false} BigEndian2(n: nat)
    ensures ToBE(n, 1) == [n % 0x100] && ToBE(n, 2) == [n / 0x100 % 0x100, n % 0x100]
  {
    assert ToBE(n / 0x100, 1) == ToBE(n / 0x100 / 0x100, 0) + [n / 0x100 % 0x100];
  }

  lemma {:induction false} BigEndian4(n: nat)
    ensures ToBE(n, 4) == Four(n)
  {
    var high := n / 0x100 / 0x100;
    BigEndian2(high);
    assert ToBE(n / 0x100, 3) == ToBE(high, 2) + [n / 0x100 % 0x100];
    assert high == n / 0x1_0000 && high / 0x100 == n / 0x100_0000;
  }

  lemma {:induction false} BigEndian8(n: nat)
    ensures ToBE(n, 8) == ToBE(n / 0x1_0000_0000, 4) + ToBE(n, 4)
  {
    var a, b := n / 0x100, n / 0x1_0000;
    var c, d := n / 0x100_0000, n / 0x1_0000_0000;
    assert a / 0x100 == b && b / 0x100 == c && c / 0x100 == d;
    assert ToBE(n, 8) == ToBE(a, 7) + [n % 0x100] && ToBE(a, 7) == ToBE(b, 6) + [a % 0x100];
    assert ToBE(b, 6) == ToBE(c, 5) + [b % 0x100] && ToBE(c, 5) == ToBE(d, 4) + [c % 0x100];
    BigEndian4(n);
  }

  lemma {:induction false} FromBigEndian(s: seq<byte>)
    ensures |s| == 2 ==> FromBE(s) == s[0] as int * 0x100 + s[1]
    ensures |s| == 4 ==> FromBE(s) == s[0] as int * 0x100_0000 + s[1] as int * 0x1_0000 + s[2] as int * 0x100 + s[3]
  {
    if |s| == 2 {
      assert FromBE(s[..1]) == s[0];
    } else if |s| == 4 {
      assert s[..3][..2] == s[..2] && s[..2][..1] == s[..1];
      assert FromBE(s[..1]) == s[0] && FromBE(s[..2]) == s[0] as int * 0x100 + s[1];
      assert FromBE(s[..3]) == 0x100 * FromBE(s[..2]) + s[2];
    }
  }

  function Zeros(n: nat): (z: seq<byte>)
    ensures |z| == n && forall i :: 0 <= i < n ==> z[i] == 0
  {
    seq(n, _ => 0)
  }

  function Take<T>(s: seq<T>, n: nat): seq<T> {
    if n <= |s| then s[..n] else s
  }

  function Drop<T>(s: seq<T>, n: nat): seq<T> {
    if n <= |s| then s[n..] else []
  }

  /** `s` occupies `b` from `pos` on. */
  predicate At(b: seq<byte>, pos: nat, s: seq<byte>) {
    pos + |s| <= |b| && b[pos..pos + |s|] == s
  }

  lemma {:induction false} AtSplit(b: seq<byte>, pos: nat, s: seq<byte>, t: seq<byte>)
    ensures At(b, pos, s + t) <==> At(b, pos, s) && At(b, pos + |s|, t)
  {
    if At(b, pos, s + t) {
      assert b[pos..pos + |s|] == (s + t)[..|s|] == s;
      assert b[pos + |s|..pos + |s| + |t|] == (s + t)[|s|..] == t;
    }
    if At(b, pos, s) && At(b, pos + |s|, t) {
      assert b[pos..pos + |s + t|] == b[pos..pos + |s|] + b[pos + |s|..pos + |s| + |t|];
    }
  }

  lemma {:induction false} AtFirst(b: seq<byte>, pos: nat, x: byte, t: seq<byte>)
    ensures At(b, pos, [x] + t) <==> pos < |b| && b[pos] == x && At(b, pos + 1, t)
  {
    AtSplit(b, pos, [x], t);
    if pos < |b| { assert b[pos..pos + 1] == [b[pos]]; }
  }
}
