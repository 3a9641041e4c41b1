/** Bytes, addresses and prefixes as they travel in packets. */
module Bytes {
  import opened Seqno

  type Byte = x: int | 0 <= x < 256

  /** accumulate_short / DO_HTONS */
  function Short(x: U16): (s: seq<Byte>)
    ensures |s| == 2
  {
    [x / 256, x % 256]
  }

  /** DO_NTOHS */
  function Word(high: Byte, low: Byte): (x: U16) { high * 256 + low }

  lemma WordOfShort(x: U16)
    ensures Word(Short(x)[0], Short(x)[1]) == x
  {
  }

  function Zeros(n: nat): (s: seq<Byte>)
    ensures |s| == n && forall i :: 0 <= i < n ==> s[i] == 0
  {
    seq(n, _ => 0)
  }

  /** A 16-byte address, IPv4 addresses being mapped. */
  type Address = a: seq<Byte> | |a| == 16 witness [0, 0, 0, 0, 0, 0, 0, 0, 0, 0, 0, 0, 0, 0, 0, 0]

  const V4_PREFIX: seq<Byte> := [0, 0, 0, 0, 0, 0, 0, 0, 0, 0, 0xFF, 0xFF]

  predicate V4Mapped(a: Address) { a[..12] == V4_PREFIX }

  function Pow2(n: nat): (p: nat)
    ensures p >= 1
  {
    if n == 0 then 1 else 2 * Pow2(n - 1)
  }

  /** The first k bits of a byte. */
  function HighBits(b: Byte, k: nat): (r: Byte)
    requires k <= 8
  {
    var w := Pow2(8 - k);
    assert 0 <= b / w * w <= b;
    b / w * w
  }

  /** mask_prefix */
  function MaskPrefix(a: Address, plen: nat): (r: Address) {
    if plen >= 128 then a
    else if plen % 8 == 0 then a[..plen / 8] + Zeros(16 - plen / 8)
    else a[..plen / 8] + [HighBits(a[plen / 8], plen % 8)] + Zeros(15 - plen / 8)
  }

  /** Nothing is set beyond the prefix length. */
  predicate Masked(a: Address, plen: nat) { MaskPrefix(a, plen) == a }

  /** The number of bytes that hold plen bits. */
  function PrefixBytes(plen: nat): nat { (plen + 7) / 8 }

  /** Masking looks at the bytes that hold the prefix and at no others. */
  lemma MaskReads(a: Address, b: Address, plen: nat)
    requires plen <= 128 && a[..PrefixBytes(plen)] == b[..PrefixBytes(plen)]
    ensures MaskPrefix(a, plen) == MaskPrefix(b, plen)
  {
    var q, n := plen / 8, PrefixBytes(plen);
    assert a[..n][..q] == b[..n][..q];
    if plen % 8 != 0 { assert a[..n][q] == b[..n][q]; }
  }

  lemma MaskedTail(a: Address, plen: nat, i: nat)
    requires plen <= 128 && Masked(a, plen) && PrefixBytes(plen) <= i < 16
    ensures a[i] == 0
  {
    assert MaskPrefix(a, plen)[i] == 0;
  }

  /** A masked prefix shorter than 96 bits is not an IPv4 one. */
  lemma ShortIsNotMapped(a: Address, plen: nat)
    requires plen < 96 && Masked(a, plen)
    ensures !V4Mapped(a)
  {
    if PrefixBytes(plen) <= 11 {
      MaskedTail(a, plen, 11);
      assert a[..12][11] == 0;
    } else {
      assert plen / 8 == 11 && plen % 8 != 0;
      assert a[11] == HighBits(a[11], plen % 8);
      LowBitsClear(a[11], plen % 8);
      assert a[..12][11] != 0xFF;
    }
  }

  lemma LowBitsClear(b: Byte, k: nat)
    requires 1 <= k <= 7
    ensures HighBits(b, k) != 0xFF
  {
    var w := Pow2(8 - k);
    assert w == 2 * Pow2(7 - k);
    var q, h := b / w, Pow2(7 - k);
    assert q * w == 2 * (q * h);
  }
}
