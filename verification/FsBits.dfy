/** The free-block bitmap of fs.c. */
module FsBits {
  import opened Blocks
  import opened Common

  const BPB := 8192  // bitmap bits per block

  /** x & (1 << k) is nonzero. */
  predicate BitOf(x: nat, k: nat) {
    if k == 0 then x % 2 == 1 else BitOf(x / 2, k - 1)
  }

  /** x | (1 << k) when v, x & ~(1 << k) otherwise. */
  function PutBit(x: nat, k: nat, v: bool): nat {
    if k == 0 then x - x % 2 + (if v then 1 else 0) else 2 * PutBit(x / 2, k - 1, v) + x % 2
  }

  lemma {:induction false} BitPut(x: nat, k: nat, v: bool, j: nat)
    ensures BitOf(PutBit(x, k, v), j) == if j == k then v else BitOf(x, j)
  {
    if k != 0 && j != 0 { BitPut(x / 2, k - 1, v, j - 1); }
  }

  lemma {:induction false} PutBitBound(x: nat, k: nat, v: bool, n: nat)
    requires x < Pow2(n) && k < n
    ensures PutBit(x, k, v) < Pow2(n)
  {
    var q := Pow2(n - 1);
    Halves(x, q);
    if k != 0 { PutBitBound(x / 2, k - 1, v, n - 1); }
  }

  lemma Halves(x: nat, q: nat)
    requires x < 2 * q
    ensures x / 2 < q && x - x % 2 + 1 < 2 * q && forall y: nat :: y < q ==> 2 * y + x % 2 < 2 * q
  {
  }

  lemma ByteBound()
    ensures Pow2(8) == 256
  {
  }

  function PutByteBit(x: Byte, k: nat, v: bool): Byte
    requires k < 8
  {
    ByteBound();
    PutBitBound(x, k, v, 8);
    PutBit(x, k, v)
  }

  /** Bit i of a bitmap block: data[i/8] & (1 << (i % 8)). */
  predicate BlockBit(b: Block, i: nat)
    requires i < BPB
  {
    BitOf(b[i / 8], i % 8)
  }

  lemma {:induction false} BitIs(x: nat, k: nat)
    ensures BitOf(x, k) <==> HasBit(x, Pow2(k))
  {
    if k == 0 {
      if x % 2 == 1 { assert BitForm(x, 1, x / 2, 0); }
      if HasBit(x, 1) {
        var hi: nat, lo: nat :| BitForm(x, 1, hi, lo);
        assert x == 2 * hi + 1;
      }
    } else {
      BitIs(x / 2, k - 1);
      var p := Pow2(k - 1);
      if HasBit(x / 2, p) {
        var hi: nat, lo: nat :| BitForm(x / 2, p, hi, lo);
        Doubled(p, hi);
        assert BitForm(x, 2 * p, hi, 2 * lo + x % 2);
      }
      if HasBit(x, 2 * p) {
        var hi: nat, lo: nat :| BitForm(x, 2 * p, hi, lo);
        Doubled(p, hi);
        assert BitForm(x / 2, p, hi, lo / 2);
      }
    }
  }

  lemma Doubled(p: nat, hi: nat)
    ensures 2 * (2 * p) * hi == 2 * (2 * p * hi)
  {
  }

  /** Bit i of a bitmap block is bit i % 8, counted from the low end, of byte i / 8. */
  lemma BlockBitIs(b: Block, i: nat)
    requires i < BPB
    ensures BlockBit(b, i) <==> HasBit(b[i / 8], Pow2(i % 8))
  {
    BitIs(b[i / 8], i % 8);
  }

  function PutBlockBit(b: Block, i: nat, v: bool): Block
    requires i < BPB
  {
    b[i / 8 := PutByteBit(b[i / 8], i % 8, v)]
  }

  lemma BlockBitPut(b: Block, i: nat, v: bool, j: nat)
    requires i < BPB && j < BPB
    ensures BlockBit(PutBlockBit(b, i, v), j) == if i == j then v else BlockBit(b, j)
  {
    if i / 8 == j / 8 {
      BitPut(b[i / 8], i % 8, v, j % 8);
    }
  }
}
