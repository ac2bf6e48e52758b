/** The free bit map: one bit per disk block, eight to a byte, as balloc and bfree address it. */
module Bitmap {

  function Mask(k: nat): (m: bv8)
    requires k < 8
  {
    (1 as bv8) << k
  }

  // Block b is marked in use.
  predicate Bit(bits: seq<bv8>, b: nat)
    requires b / 8 < |bits|
  {
    bits[b / 8] & Mask(b % 8) != 0
  }

  // bits with block b marked in use, and with it marked free.
  function SetBit(bits: seq<bv8>, b: nat): (r: seq<bv8>)
    requires b / 8 < |bits|
    ensures |r| == |bits|
  {
    bits[b / 8 := bits[b / 8] | Mask(b % 8)]
  }

  function ClearBit(bits: seq<bv8>, b: nat): (r: seq<bv8>)
    requires b / 8 < |bits|
    ensures |r| == |bits|
  {
    bits[b / 8 := bits[b / 8] & !Mask(b % 8)]
  }

  lemma MaskTable(k: nat)
    requires k < 8
    ensures Mask(k) == if k == 0 then 1 else if k == 1 then 2 else if k == 2 then 4 else if k == 3 then 8
                       else if k == 4 then 16 else if k == 5 then 32 else if k == 6 then 64 else 128
  {
  }

  lemma ByteSet(x: bv8, k: nat, j: nat)
    requires k < 8 && j < 8
    ensures (x | Mask(k)) & Mask(j) != 0 <==> j == k || x & Mask(j) != 0
  {
    MaskTable(k);
    MaskTable(j);
  }

  lemma ByteClear(x: bv8, k: nat, j: nat)
    requires k < 8 && j < 8
    ensures (x & !Mask(k)) & Mask(j) != 0 <==> j != k && x & Mask(j) != 0
  {
    MaskTable(k);
    MaskTable(j);
  }

  /** Setting the bit of block b marks b and no other block. */
  lemma SetOne(bits: seq<bv8>, b: nat, c: nat)
    requires b / 8 < |bits| && c / 8 < |bits|
    ensures Bit(SetBit(bits, b), c) <==> c == b || Bit(bits, c)
  {
    if b / 8 == c / 8 {
      ByteSet(bits[b / 8], b % 8, c % 8);
    }
  }

  /** Clearing the bit of block b frees b and no other block. */
  lemma ClearOne(bits: seq<bv8>, b: nat, c: nat)
    requires b / 8 < |bits| && c / 8 < |bits|
    ensures Bit(ClearBit(bits, b), c) <==> c != b && Bit(bits, c)
  {
    if b / 8 == c / 8 {
      ByteClear(bits[b / 8], b % 8, c % 8);
    }
  }
}
