// Bitwise exclusive or on naturals, and the 8-byte repeating-key decoder of block files.
module Xor {
  import opened Bytes

  function Bits(n: nat): (r: nat)
    ensures r >= 1
  {
    if n == 0 then 1 else 2 * Bits(n - 1)
  }

  /** Exclusive or of two `n`-bit numbers, bit by bit from the lowest. */
  function XorBits(n: nat, a: nat, b: nat): (r: nat)
    requires a < Bits(n) && b < Bits(n)
    ensures r < Bits(n)
  {
    if n == 0 then 0 else (if a % 2 == b % 2 then 0 else 1) + 2 * XorBits(n - 1, a / 2, b / 2)
  }

  lemma XorStep(n: nat, a: nat, b: nat, bit: nat, high: nat)
    requires 0 < n && a < Bits(n) && b < Bits(n)
    requires bit == (if a % 2 == b % 2 then 0 else 1) && high == XorBits(n - 1, a / 2, b / 2)
    ensures XorBits(n, a, b) == bit + 2 * high
    ensures XorBits(n, a, b) % 2 == bit && XorBits(n, a, b) / 2 == high
  {
    LowBit(XorBits(n, a, b), bit, high);
  }

  lemma LowBit(v: nat, bit: nat, high: nat)
    requires bit < 2 && v == bit + 2 * high
    ensures v % 2 == bit && v / 2 == high
  {
  }

  lemma {:induction false} XorCancels(n: nat, a: nat, b: nat)
    requires a < Bits(n) && b < Bits(n)
    ensures XorBits(n, XorBits(n, a, b), b) == a
  {
    if n > 0 {
      XorCancels(n - 1, a / 2, b / 2);
      var bit, high := if a % 2 == b % 2 then 0 else 1, XorBits(n - 1, a / 2, b / 2);
      XorStep(n, a, b, bit, high);
      XorStep(n, bit + 2 * high, b, a % 2, a / 2);
    }
  }

  lemma {:induction false} XorZero(n: nat, b: nat)
    requires b < Bits(n)
    ensures XorBits(n, 0, b) == b
  {
    if n > 0 { XorZero(n - 1, b / 2); }
  }

  /** The number whose low `k` bits are those of `lo` and whose other bits are `hi`. */
  function Join(k: nat, lo: nat, hi: nat): nat {
    if k == 0 then hi else lo % 2 + 2 * Join(k - 1, lo / 2, hi)
  }

  lemma JoinStep(k: nat, lo: nat, hi: nat)
    requires k > 0
    ensures Join(k, lo, hi) % 2 == lo % 2 && Join(k, lo, hi) / 2 == Join(k - 1, lo / 2, hi)
  {
  }

  lemma {:induction false} JoinValue(k: nat, lo: nat, hi: nat)
    requires lo < Bits(k)
    ensures Join(k, lo, hi) == lo + Bits(k) * hi
  {
    if k > 0 {
      JoinValue(k - 1, lo / 2, hi);
      Doubled(Bits(k - 1), hi);
    }
  }

  lemma Doubled(b: nat, h: nat)
    ensures (2 * b) * h == 2 * (b * h)
  {
  }

  /** Exclusive or works on the low `k` bits and the rest independently. */
  lemma {:induction false} XorSplits(k: nat, n: nat, lo: nat, hi: nat, lo': nat, hi': nat)
    requires lo < Bits(k) && lo' < Bits(k) && hi < Bits(n) && hi' < Bits(n)
    ensures Join(k, lo, hi) < Bits(k + n) && Join(k, lo', hi') < Bits(k + n)
    ensures XorBits(k + n, Join(k, lo, hi), Join(k, lo', hi')) == Join(k, XorBits(k, lo, lo'), XorBits(n, hi, hi'))
  {
    if k > 0 {
      XorSplits(k - 1, n, lo / 2, hi, lo' / 2, hi');
      JoinStep(k, lo, hi);
      JoinStep(k, lo', hi');
      var bit, low := if lo % 2 == lo' % 2 then 0 else 1, XorBits(k - 1, lo / 2, lo' / 2);
      XorStep(k, lo, lo', bit, low);
      XorStep(k + n, Join(k, lo, hi), Join(k, lo', hi'), bit, Join(k - 1, low, XorBits(n, hi, hi')));
    }
  }

  lemma {:induction false} BitsOfBytes(n: nat)
    ensures Bits(8 * n) == Range(n)
  {
    if n > 0 {
      BitsOfBytes(n - 1);
      assert Bits(8 * n) == 2 * Bits(8 * n - 1) == 4 * Bits(8 * n - 2) == 8 * Bits(8 * n - 3);
      assert Bits(8 * n - 3) == 2 * Bits(8 * n - 4) == 4 * Bits(8 * n - 5) == 8 * Bits(8 * n - 6);
      assert Bits(8 * n - 6) == 2 * Bits(8 * n - 7) == 4 * Bits(8 * n - 8);
    }
  }

  function XorByte(a: byte, b: byte): byte {
    BitsOfBytes(1);
    XorBits(8, a, b)
  }

  lemma ZeroTakes(b: byte)
    ensures XorByte(0, b) == b
  {
    BitsOfBytes(1);
    XorZero(8, b);
  }

  lemma XorByteCancels(a: byte, b: byte)
    ensures XorByte(XorByte(a, b), b) == a
  {
    BitsOfBytes(1);
    XorCancels(8, a, b);
  }

  // ---- Words ----

  function XorWord(n: nat, v: nat, w: nat): (r: nat)
    requires v < Range(n) && w < Range(n)
    ensures r < Range(n)
  {
    BitsOfBytes(n);
    XorBits(8 * n, v, w)
  }

  function XorBytes(c: bytes, k: bytes): (r: bytes)
    requires |c| == |k|
    ensures |r| == |c| && forall i :: 0 <= i < |c| ==> r[i] == XorByte(c[i], k[i])
  {
    if |c| == 0 then [] else [XorByte(c[0], k[0])] + XorBytes(c[1..], k[1..])
  }

  /** Xor of two words, read and written little-endian, is xor byte by byte. */
  lemma {:induction false} XorLittleEndian(c: bytes, k: bytes)
    requires |c| == |k|
    ensures LeBytes(|c|, XorWord(|c|, LeNat(c), LeNat(k))) == XorBytes(c, k)
  {
    hide XorBits;
    hide Join;
    hide Bits;
    if |c| > 0 {
      var n := |c| - 1;
      var hi, hi' := LeNat(c[1..]), LeNat(k[1..]);
      BitsOfBytes(1);
      BitsOfBytes(n);
      BitsOfBytes(n + 1);
      XorSplits(8, 8 * n, c[0], hi, k[0], hi');
      assert 8 + 8 * n == 8 * |c|;
      var low, high := XorByte(c[0], k[0]), XorWord(n, hi, hi');
      JoinValue(8, c[0], hi);
      JoinValue(8, k[0], hi');
      JoinValue(8, low, high);
      assert XorWord(|c|, LeNat(c), LeNat(k)) == low + 0x100 * high;
      assert (low + 0x100 * high) % 0x100 == low && (low + 0x100 * high) / 0x100 == high;
      XorLittleEndian(c[1..], k[1..]);
    }
  }

  // ---- Files ----

  type XorKey = k: bytes | |k| == 8 witness seq(8, _ => 0)

  /** Byte `i` of the file is masked with byte `i % 8` of the key. */
  function Masked(buf: bytes, key: XorKey): (r: bytes)
    ensures |r| == |buf| && forall i :: 0 <= i < |buf| ==> r[i] == XorByte(buf[i], key[i % 8])
  {
    seq(|buf|, i requires 0 <= i < |buf| => XorByte(buf[i], key[i % 8]))
  }

  /** Masking twice gives the file back. */
  lemma MaskTwice(buf: bytes, key: XorKey)
    ensures Masked(Masked(buf, key), key) == buf
  {
    forall i | 0 <= i < |buf| ensures Masked(Masked(buf, key), key)[i] == buf[i] {
      XorByteCancels(buf[i], key[i % 8]);
    }
  }

  /** Masking a file and cutting it are independent at multiples of the key length. */
  lemma MaskAppend(buf: bytes, key: XorKey, i: nat, n: nat, out: bytes, tail: bytes)
    requires i + n <= |buf| && |tail| == n && out == Masked(buf, key)[..i]
    requires forall j :: 0 <= j < n ==> tail[j] == XorByte(buf[i + j], key[(i + j) % 8])
    ensures out + tail == Masked(buf, key)[..i + n]
  {
    forall j | 0 <= j < i + n ensures (out + tail)[j] == Masked(buf, key)[j] {
      if i <= j { assert (out + tail)[j] == tail[j - i]; }
    }
  }

  lemma ChunkAligned(buf: bytes, key: XorKey, i: nat, word: bytes)
    requires i % 8 == 0 && i + 8 <= |buf| && word == XorBytes(buf[i..i + 8], key)
    ensures forall j :: 0 <= j < 8 ==> word[j] == XorByte(buf[i + j], key[(i + j) % 8])
  {
    hide XorByte;
    hide XorBytes;
    forall j | 0 <= j < 8 ensures word[j] == XorByte(buf[i + j], key[(i + j) % 8]) {
      Residue(i, j);
      assert buf[i..i + 8][j] == buf[i + j];
    }
  }

  lemma Residue(i: nat, j: nat)
    requires i % 8 == 0 && j < 8
    ensures (i + j) % 8 == j
  {
  }

  method DecodeWord(buf: bytes, key: XorKey, i: nat, out: bytes) returns (more: bytes)
    requires i % 8 == 0 && i + 8 <= |buf| && out == Masked(buf, key)[..i]
    ensures more == Masked(buf, key)[..i + 8]
  {
    var v, k64 := LeNat(buf[i..i + 8]), LeNat(key);
    var word := LeBytes(8, XorWord(8, v, k64));
    XorLittleEndian(buf[i..i + 8], key);
    ChunkAligned(buf, key, i, word);
    MaskAppend(buf, key, i, 8, out, word);
    more := out + word;
  }

  /** `xor_decode`: whole 8-byte words first, then the remaining bytes. */
  method XorDecode(buf: bytes, key: XorKey) returns (out: bytes)
    ensures out == Masked(buf, key)
  {
    out := [];
    var i := 0;
    while i + 8 <= |buf|
      invariant 0 <= i <= |buf| && i % 8 == 0 && out == Masked(buf, key)[..i]
    {
      out := DecodeWord(buf, key, i, out);
      i := i + 8;
    }
    while i < |buf|
      invariant 0 <= i <= |buf| && out == Masked(buf, key)[..i]
    {
      MaskAppend(buf, key, i, 1, out, [XorByte(buf[i], key[i % 8])]);
      out := out + [XorByte(buf[i], key[i % 8])];
      i := i + 1;
    }
  }
}
