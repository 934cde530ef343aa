/** Bytes as the C++ code sees them: little-endian integers copied through `char*`,
    32-bit wrap-around, and in-place overwriting of a file at a position. */
module Bytes {
  type Byte = b: int | 0 <= b < 256
  type ByteSeq = seq<Byte>

  /** sizeof(ADDR_TYPE), that is sizeof(size_t). */
  const PTR := 8
  /** One more than the largest `uint`, and one more than the largest `size_t`. */
  const UINT_LIMIT := 0x1_0000_0000
  const ADDR_LIMIT := 0x1_0000_0000_0000_0000

  /** The value a `uint` holds after being assigned `x`. */
  function U32(x: nat): nat {
    x % UINT_LIMIT
  }

  /** A value that fits is kept; multiples of 2^32 are lost. */
  lemma U32Small(x: nat)
    ensures x < UINT_LIMIT ==> U32(x) == x
    ensures U32(x + 0x1_0000_0000) == U32(x)
  {
  }

  function Pow256(n: nat): nat {
    if n == 0 then 1 else 256 * Pow256(n - 1)
  }

  /** The low `n` bytes of `v`, least significant first. */
  function ToLE(v: nat, n: nat): (r: ByteSeq)
    ensures |r| == n
  {
    if n == 0 then [] else [v % 256] + ToLE(v / 256, n - 1)
  }

  function FromLE(s: ByteSeq): nat {
    if s == [] then 0 else s[0] + 256 * FromLE(s[1..])
  }

  lemma {:induction false} FromToLE(v: nat, n: nat)
    requires v < Pow256(n)
    ensures FromLE(ToLE(v, n)) == v
  {
    if n == 0 {
    } else {
      FromToLE(v / 256, n - 1);
      assert ToLE(v, n)[1..] == ToLE(v / 256, n - 1);
    }
  }

  lemma Widths()
    ensures Pow256(4) == UINT_LIMIT
    ensures Pow256(8) == ADDR_LIMIT
  {
    assert Pow256(1) == 256;
    assert Pow256(2) == 0x1_0000;
    assert Pow256(3) == 0x100_0000;
    assert Pow256(4) == 0x1_0000_0000;
    assert Pow256(5) == 0x100_0000_0000;
    assert Pow256(6) == 0x1_0000_0000_0000;
    assert Pow256(7) == 0x100_0000_0000_0000;
  }

  function Zeros(n: nat): (r: ByteSeq)
    ensures |r| == n && forall i :: 0 <= i < n ==> r[i] == 0
  {
    seq(n, _ => 0)
  }

  lemma {:induction false} ZerosAreZero(n: nat)
    ensures FromLE(Zeros(n)) == 0
  {
    if n != 0 {
      assert Zeros(n)[1..] == Zeros(n - 1);
      ZerosAreZero(n - 1);
    }
  }

  /** The `size_t` a read of sizeof(size_t) bytes at position `p` yields. */
  function Word(f: ByteSeq, p: nat): nat
    requires p + PTR <= |f|
  {
    FromLE(f[p..p + PTR])
  }

  /** The file after `data` is written at position `p`, overwriting or extending it. */
  function Poke(f: ByteSeq, p: nat, data: ByteSeq): (r: ByteSeq)
    requires p <= |f|
    ensures |r| == if p + |data| <= |f| then |f| else p + |data|
  {
    f[..p] + data + if p + |data| <= |f| then f[p + |data|..] else []
  }

  /** A slice of a slice is a slice. */
  lemma SubSlice(f: ByteSeq, a: nat, b: nat, lo: nat, hi: nat)
    requires a <= b <= |f| && lo <= hi <= b - a
    ensures f[a..b][lo..hi] == f[a + lo..a + hi]
  {
    var s, t := f[a..b][lo..hi], f[a + lo..a + hi];
    forall k | 0 <= k < |s| ensures s[k] == t[k] {
      assert s[k] == f[a..b][lo + k] == f[a + (lo + k)];
    }
  }

  /** Bytes outside the written range are not touched. */
  lemma PokeFrame(f: ByteSeq, p: nat, data: ByteSeq, lo: nat, hi: nat)
    requires p <= |f| && lo <= hi <= |f|
    requires hi <= p || p + |data| <= lo
    ensures Poke(f, p, data)[lo..hi] == f[lo..hi]
  {
  }

  /** What was written is what is read back. */
  lemma PokeHit(f: ByteSeq, p: nat, data: ByteSeq)
    requires p <= |f|
    ensures Poke(f, p, data)[p..p + |data|] == data
  {
  }

  lemma PokeWord(f: ByteSeq, p: nat, v: nat)
    requires p + PTR <= |f| && v < ADDR_LIMIT
    ensures Word(Poke(f, p, ToLE(v, PTR)), p) == v
  {
    PokeHit(f, p, ToLE(v, PTR));
    Widths();
    FromToLE(v, PTR);
  }

  lemma PokeLeft(a: ByteSeq, b: ByteSeq, p: nat, data: ByteSeq)
    requires p + |data| <= |a|
    ensures Poke(a + b, p, data) == Poke(a, p, data) + b
  {
    assert (a + b)[..p] == a[..p];
    assert (a + b)[p + |data|..] == a[p + |data|..] + b;
  }

  lemma PokeRight(a: ByteSeq, b: ByteSeq, p: nat, data: ByteSeq)
    requires p <= |b|
    ensures Poke(a + b, |a| + p, data) == a + Poke(b, p, data)
  {
    assert (a + b)[..|a| + p] == a + b[..p];
    if p + |data| <= |b| {
      assert (a + b)[|a| + p + |data|..] == b[p + |data|..];
    }
  }

  lemma PokeDrop(a: ByteSeq, p: nat, data: ByteSeq, k: nat)
    requires k <= p <= |a|
    ensures Poke(a, p, data)[k..] == Poke(a[k..], p - k, data)
  {
    assert a == a[..k] + a[k..];
    PokeRight(a[..k], a[k..], p - k, data);
  }

  /** Writing a buffer in two parts, the second into any extension of the first result, is writing it whole. */
  lemma PokeTwice(r: ByteSeq, p: nat, one: ByteSeq, two: ByteSeq, r': ByteSeq)
    requires p <= |r| && Poke(r, p, one) <= r' && p + |one| <= |r'|
    ensures Poke(r, p, one + two) <= Poke(r', p + |one|, two)
  {
    var whole, split := Poke(r, p, one + two), Poke(r', p + |one|, two);
    var first := Poke(r, p, one);
    assert |whole| <= |split|;
    forall q | 0 <= q < |whole| ensures whole[q] == split[q] {
      if q < p + |one| {
        assert split[q] == r'[q] == first[q];
      } else if q < p + |one| + |two| {
        assert split[q] == two[q - p - |one|];
      } else {
        assert split[q] == r'[q] == first[q] == r[q];
      }
    }
  }
}
