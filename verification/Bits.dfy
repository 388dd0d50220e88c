/** Single bits of a byte, and packing a list of bits into bytes. */
module Bits {
  import opened Numbers

  function Mask(k: nat): byte
    requires k < 8
  {
    1 << k
  }

  function BitOf(b: byte, k: nat): bool
    requires k < 8
  {
    b & Mask(k) != 0
  }

  lemma Masks()
    ensures Mask(0) == 1 && Mask(1) == 2 && Mask(2) == 4 && Mask(3) == 8
    ensures Mask(4) == 16 && Mask(5) == 32 && Mask(6) == 64 && Mask(7) == 128
  {
  }

  lemma BitOfXor(a: byte, b: byte, k: nat)
    requires k < 8
    ensures BitOf(a ^ b, k) == (BitOf(a, k) != BitOf(b, k))
  {
    MaskIsOneBit(k);
    XorUnderMask(a, b, Mask(k));
  }

  lemma MaskIsOneBit(k: nat)
    requires k < 8
    ensures Mask(k) in {1, 2, 4, 8, 16, 32, 64, 128}
  {
  }

  lemma XorUnderMask(a: byte, b: byte, mask: byte)
    requires mask in {1, 2, 4, 8, 16, 32, 64, 128}
    ensures (a ^ b) & mask != 0 <==> ((a & mask != 0) != (b & mask != 0))
  {
  }

  lemma DifferentBit(a: byte, b: byte) returns (k: nat)
    requires a != b
    ensures k < 8 && BitOf(a, k) != BitOf(b, k)
  {
    k := 0;
    while k < 7 && BitOf(a, k) == BitOf(b, k)
      invariant 0 <= k <= 7
      invariant forall j :: 0 <= j < k ==> BitOf(a, j) == BitOf(b, j)
    {
      k := k + 1;
    }
    if BitOf(a, k) == BitOf(b, k) {
      SameBits(a, b);
    }
  }

  lemma SameBits(a: byte, b: byte)
    requires forall j :: 0 <= j < 8 ==> BitOf(a, j) == BitOf(b, j)
    ensures a == b
  {
    Masks();
    assert BitOf(a, 0) == BitOf(b, 0) && BitOf(a, 1) == BitOf(b, 1) && BitOf(a, 2) == BitOf(b, 2);
    assert BitOf(a, 3) == BitOf(b, 3) && BitOf(a, 4) == BitOf(b, 4) && BitOf(a, 5) == BitOf(b, 5);
    assert BitOf(a, 6) == BitOf(b, 6) && BitOf(a, 7) == BitOf(b, 7);
    EightBits(a, b);
  }

  lemma EightBits(a: byte, b: byte)
    requires a & 1 != 0 <==> b & 1 != 0
    requires a & 2 != 0 <==> b & 2 != 0
    requires a & 4 != 0 <==> b & 4 != 0
    requires a & 8 != 0 <==> b & 8 != 0
    requires a & 16 != 0 <==> b & 16 != 0
    requires a & 32 != 0 <==> b & 32 != 0
    requires a & 64 != 0 <==> b & 64 != 0
    requires a & 128 != 0 <==> b & 128 != 0
    ensures a == b
  {
  }

  lemma OrUnderMask(b: byte, added: byte, seen: byte)
    requires added in {1, 2, 4, 8, 16, 32, 64, 128} && seen in {1, 2, 4, 8, 16, 32, 64, 128}
    ensures (b | added) & seen != 0 <==> added == seen || b & seen != 0
  {
  }

  lemma MasksDiffer(j: nat, k: nat)
    requires j < 8 && k < 8
    ensures Mask(j) == Mask(k) <==> j == k
  {
    Masks();
  }

  /** Setting one bit of a byte sets that bit and no other. */
  lemma BitOfOr(b: byte, k: nat, j: nat)
    requires k < 8 && j < 8
    ensures BitOf(b | Mask(k), j) == (j == k || BitOf(b, j))
  {
    MaskIsOneBit(k);
    MaskIsOneBit(j);
    OrUnderMask(b, Mask(k), Mask(j));
    MasksDiffer(j, k);
  }

  // ----- packing -----

  function PackedSize(n: nat): nat {
    (n + 7) / 8
  }

  /** The bytes after the first n values have been packed. */
  function PackedPrefix(values: seq<bool>, n: nat): (packed: seq<byte>)
    requires n <= |values|
    ensures |packed| == PackedSize(|values|)
  {
    if n == 0 then seq(PackedSize(|values|), _ => 0)
    else
      var packed := PackedPrefix(values, n - 1);
      var i := n - 1;
      if values[i] then packed[i / 8 := packed[i / 8] | Mask(i % 8)] else packed
  }

  function PackedBits(values: seq<bool>): seq<byte> {
    PackedPrefix(values, |values|)
  }

  method PackBits(values: seq<bool>) returns (packed: seq<byte>)
    ensures packed == PackedBits(values)
  {
    packed := seq(PackedSize(|values|), _ => 0);
    for i := 0 to |values|
      invariant packed == PackedPrefix(values, i)
    {
      if values[i] {
        packed := packed[i / 8 := packed[i / 8] | (1 << (i % 8))];
      }
    }
  }

  lemma {:induction false} PackedPrefixBit(values: seq<bool>, n: nat, i: nat)
    requires n <= |values| && i < 8 * PackedSize(|values|)
    ensures i / 8 < PackedSize(|values|)
    ensures BitOf(PackedPrefix(values, n)[i / 8], i % 8) == (i < n && values[i])
  {
    if n == 0 {
      ZeroBit(i % 8);
    } else {
      PackedPrefixBit(values, n - 1, i);
      var k := n - 1;
      var before := PackedPrefix(values, k);
      if i / 8 == k / 8 {
        BitOfOr(before[k / 8], k % 8, i % 8);
      }
    }
  }

  lemma ZeroBit(k: nat)
    requires k < 8
    ensures !BitOf(0, k)
  {
    MaskIsOneBit(k);
  }

  /** Bit i of the packed bytes, least significant first, is value i; padding is clear. */
  lemma PackedBit(values: seq<bool>, i: nat)
    requires i < 8 * PackedSize(|values|)
    ensures i / 8 < |PackedBits(values)|
    ensures BitOf(PackedBits(values)[i / 8], i % 8) == (i < |values| && values[i])
  {
    PackedPrefixBit(values, |values|, i);
  }
}
