/** The setmap of a region: 256 bits in eight 32-bit words. */
module Bitmaps {
  const MAX_SETS := 256

  type Bitmap = w: seq<bv32> | |w| == 8 witness [0, 0, 0, 0, 0, 0, 0, 0]

  const NO_BITS: Bitmap := [0, 0, 0, 0, 0, 0, 0, 0]

  /** 1 << (i & 31) */
  function Mask(i: nat): bv32 { (1 as bv32) << ((i % 32) as bv5) }

  /** setmap[i >> 5] & (1 << (i & 31)) */
  predicate Bit(w: Bitmap, i: nat)
    requires i < MAX_SETS
  {
    w[i / 32] & Mask(i) != 0
  }

  function WithBit(w: Bitmap, i: nat): Bitmap
    requires i < MAX_SETS
  {
    w[i / 32 := w[i / 32] | Mask(i)]
  }

  lemma NarrowRoundTrip(k: nat)
    requires k < 32
    ensures (k as bv5) as nat == k
  {
  }

  lemma ShiftedBits(w: bv32, i: bv5, j: bv5)
    ensures (w | ((1 as bv32) << i)) & ((1 as bv32) << j) != 0 <==> i == j || w & ((1 as bv32) << j) != 0
  {
  }

  lemma MaskSet(w: bv32, i: nat, j: nat)
    ensures (w | Mask(i)) & Mask(j) != 0 <==> i % 32 == j % 32 || w & Mask(j) != 0
  {
    var m, n := i % 32, j % 32;
    NarrowRoundTrip(m);
    NarrowRoundTrip(n);
    ShiftedBits(w, m as bv5, n as bv5);
  }

  lemma SameBit(i: nat, j: nat)
    ensures i == j <==> i / 32 == j / 32 && i % 32 == j % 32
  {
  }

  /** Setting bit i sets bit i and leaves every other bit. */
  lemma BitSet(w: Bitmap, i: nat, j: nat)
    requires i < MAX_SETS && j < MAX_SETS
    ensures Bit(WithBit(w, i), j) <==> i == j || Bit(w, j)
  {
    SameBit(i, j);
    MaskSet(w[i / 32], i, j);
  }

  /** The set a bitmap stands for. */
  function BitsIn(w: Bitmap): set<nat> { set i: nat | i < MAX_SETS && Bit(w, i) }

  lemma BitsInWith(w: Bitmap, i: nat)
    requires i < MAX_SETS
    ensures BitsIn(WithBit(w, i)) == BitsIn(w) + {i}
  {
    forall j: nat | j < MAX_SETS ensures Bit(WithBit(w, i), j) <==> i == j || Bit(w, j) { BitSet(w, i, j); }
  }
}
