// Bytes, fixed-width integers and their little- and big-endian encodings.
module Bytes {

  type byte = x: int | 0 <= x < 0x100
  type u32 = x: int | 0 <= x < 0x1_0000_0000
  type u64 = x: int | 0 <= x < 0x1_0000_0000_0000_0000

  type bytes = seq<byte>

  type Hash = h: seq<byte> | |h| == 32 witness seq(32, _ => 0)

  const U32_RANGE: int := 0x1_0000_0000
  const U64_MAX: int := 0xffff_ffff_ffff_ffff
  /** The all-zero hash, the parent of a genesis block. */
  function ZeroHash(): (h: Hash)
    ensures forall i :: 0 <= i < 32 ==> h[i] == 0
  {
    seq(32, _ => 0)
  }

  /** `x` lies in `b` from `pos`. */
  predicate LiesAt(b: bytes, pos: nat, x: bytes) {
    pos + |x| <= |b| && b[pos..pos + |x|] == x
  }

  lemma SplitAt(b: bytes, pos: nat, x: bytes, y: bytes)
    requires LiesAt(b, pos, x + y)
    ensures LiesAt(b, pos, x) && LiesAt(b, pos + |x|, y)
  {
    assert b[pos..pos + |x|] == (x + y)[..|x|];
    assert b[pos + |x|..pos + |x| + |y|] == (x + y)[|x|..];
  }

  /** Number of values representable in `n` bytes. */
  function Range(n: nat): (r: nat)
    ensures r >= 1
  {
    if n == 0 then 1 else 0x100 * Range(n - 1)
  }

  lemma RangeConstants()
    ensures Range(1) == 0x100
    ensures Range(2) == 0x1_0000
    ensures Range(4) == 0x1_0000_0000
    ensures Range(8) == 0x1_0000_0000_0000_0000
  {
    assert Range(3) == 0x100_0000 && Range(5) == 0x100_0000_0000;
    assert Range(6) == 0x1_0000_0000_0000 && Range(7) == 0x100_0000_0000_0000;
  }

  /** The `n`-byte little-endian encoding of `v` (`to_le_bytes`). */
  function LeBytes(n: nat, v: nat): (b: bytes)
    requires v < Range(n)
    ensures |b| == n
  {
    if n == 0 then [] else [v % 0x100] + LeBytes(n - 1, v / 0x100)
  }

  /** The number a little-endian byte string denotes (`from_le_bytes`). */
  function LeNat(b: bytes): (v: nat)
    ensures v < Range(|b|)
  {
    if |b| == 0 then 0 else b[0] + 0x100 * LeNat(b[1..])
  }

  lemma {:induction false} LeRoundTrip(n: nat, v: nat)
    requires v < Range(n)
    ensures LeNat(LeBytes(n, v)) == v
  {
    if n > 0 {
      LeRoundTrip(n - 1, v / 0x100);
      assert LeBytes(n, v)[1..] == LeBytes(n - 1, v / 0x100);
    }
  }

  lemma {:induction false} LeNatInverse(b: bytes)
    ensures LeBytes(|b|, LeNat(b)) == b
  {
    if |b| > 0 {
      LeNatInverse(b[1..]);
      assert LeNat(b) % 0x100 == b[0] && LeNat(b) / 0x100 == LeNat(b[1..]);
      assert b == [b[0]] + b[1..];
    }
  }

  lemma {:induction false} LeInjective(n: nat, v: nat, w: nat)
    requires v < Range(n) && w < Range(n)
    requires LeBytes(n, v) == LeBytes(n, w)
    ensures v == w
  {
    LeRoundTrip(n, v);
    LeRoundTrip(n, w);
  }

  /** The `n`-byte big-endian encoding of `v` (`to_be_bytes`). */
  function BeBytes(n: nat, v: nat): (b: bytes)
    requires v < Range(n)
    ensures |b| == n
  {
    if n == 0 then [] else BeBytes(n - 1, v / 0x100) + [v % 0x100]
  }

  /** Byte-wise lexicographic order, the key order of the database. */
  predicate LexLess(a: bytes, b: bytes) {
    |b| > 0 && (|a| == 0 || a[0] < b[0] || (a[0] == b[0] && LexLess(a[1..], b[1..])))
  }

  /** For equal-length prefixes the last byte only breaks ties. */
  lemma {:induction false} LexLessSnoc(a: bytes, b: bytes, x: byte, y: byte)
    requires |a| == |b|
    ensures LexLess(a + [x], b + [y]) <==> LexLess(a, b) || (a == b && x < y)
  {
    if |a| > 0 {
      assert (a + [x])[1..] == a[1..] + [x] && (b + [y])[1..] == b[1..] + [y];
      LexLessSnoc(a[1..], b[1..], x, y);
      assert a == [a[0]] + a[1..] && b == [b[0]] + b[1..];
    }
  }

  /** Big-endian keys sort byte-wise exactly as the numbers sort. */
  lemma {:induction false} BeOrder(n: nat, v: nat, w: nat)
    requires v < Range(n) && w < Range(n)
    ensures LexLess(BeBytes(n, v), BeBytes(n, w)) <==> v < w
    ensures BeBytes(n, v) == BeBytes(n, w) <==> v == w
  {
    if n > 0 {
      BeOrder(n - 1, v / 0x100, w / 0x100);
      LexLessSnoc(BeBytes(n - 1, v / 0x100), BeBytes(n - 1, w / 0x100), v % 0x100, w % 0x100);
      if BeBytes(n, v) == BeBytes(n, w) {
        assert BeBytes(n, v)[n - 1] == v % 0x100 && BeBytes(n, w)[n - 1] == w % 0x100;
        assert BeBytes(n, v)[..n - 1] == BeBytes(n - 1, v / 0x100);
        assert BeBytes(n, w)[..n - 1] == BeBytes(n - 1, w / 0x100);
      }
    }
  }
}
