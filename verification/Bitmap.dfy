/** The block bitmap (kernel/src/bmap.rs): one bit per block, in the bytes of the blocks from `start` on. */
module Bitmap {
  import opened Prelude
  import opened FsLayout

  const BPB: nat := 32768 // BSIZE * 8

  // ---- Bits of a number ----

  function Power(w: nat): (r: nat)
    ensures r > 0
  {
    if w == 0 then 1 else 2 * Power(w - 1)
  }

  predicate BitOf(x: nat, k: nat) {
    if k == 0 then x % 2 == 1 else BitOf(x / 2, k - 1)
  }

  /** `x` with bit `k` set or cleared: `x | 1 << k` and `x & !(1 << k)`. */
  function PutBit(x: nat, k: nat, bit: bool): nat {
    if k == 0 then x - x % 2 + (if bit then 1 else 0) else 2 * PutBit(x / 2, k - 1, bit) + x % 2
  }

  lemma {:induction false} PutBitSize(x: nat, k: nat, bit: bool, w: nat)
    requires x < Power(w) && k < w
    ensures PutBit(x, k, bit) < Power(w)
  {
    if k > 0 { PutBitSize(x / 2, k - 1, bit, w - 1); }
  }

  lemma {:induction false} PutBitBits(x: nat, k: nat, bit: bool, j: nat)
    ensures BitOf(PutBit(x, k, bit), j) == if j == k then bit else BitOf(x, j)
  {
    if j > 0 && k > 0 {
      PutBitBits(x / 2, k - 1, bit, j - 1);
      assert PutBit(x, k, bit) / 2 == PutBit(x / 2, k - 1, bit);
    } else if j > 0 {
      assert PutBit(x, k, bit) / 2 == x / 2;
    }
  }

  // ---- Bits of the disk ----

  /** Block `b` is marked as in use. */
  predicate Used(d: Disk, start: nat, b: nat) {
    UsedIn(At(d, start + b / BPB), b % BPB)
  }

  predicate UsedIn(blk: Block, i: nat)
    requires i < BPB
  {
    BitOf(blk[i / 8] as nat, i % 8)
  }

  function MarkIn(blk: Block, i: nat, bit: bool): (r: Block)
    requires i < BPB
  {
    PutBitSize(blk[i / 8] as nat, i % 8, bit, 8);
    assert Power(8) == 256;
    blk[i / 8 := PutBit(blk[i / 8] as nat, i % 8, bit) as Byte]
  }

  lemma MarkInBits(blk: Block, i: nat, bit: bool, j: nat)
    requires i < BPB && j < BPB
    ensures UsedIn(MarkIn(blk, i, bit), j) == if j == i then bit else UsedIn(blk, j)
  {
    PutBitSize(blk[i / 8] as nat, i % 8, bit, 8);
    PutBitBits(blk[i / 8] as nat, i % 8, bit, j % 8);
  }

  function Mark(d: Disk, start: nat, b: nat, bit: bool): Disk {
    Write(d, start + b / BPB, MarkIn(At(d, start + b / BPB), b % BPB, bit))
  }

  lemma MarkBits(d: Disk, start: nat, b: nat, bit: bool, x: nat)
    ensures Used(Mark(d, start, b, bit), start, x) == if x == b then bit else Used(d, start, x)
  {
    if x / BPB == b / BPB { MarkInBits(At(d, start + b / BPB), b % BPB, bit, x % BPB); }
  }

  // ---- Free blocks ----

  ghost function FreeSet(d: Disk, start: nat, size: nat): set<nat> {
    set b: nat | b < size && !Used(d, start, b)
  }

  ghost function FreeCount(d: Disk, start: nat, size: nat): nat {
    |FreeSet(d, start, size)|
  }

  ghost predicate SameBits(d: Disk, d': Disk, start: nat, size: nat) {
    forall x: nat {:trigger Used(d', start, x)} :: x < size ==> Used(d', start, x) == Used(d, start, x)
  }

  lemma FreeSame(d: Disk, d': Disk, start: nat, size: nat)
    requires SameBits(d, d', start, size)
    ensures FreeCount(d', start, size) == FreeCount(d, start, size)
  {
    assert FreeSet(d', start, size) == FreeSet(d, start, size);
  }

  lemma FreeTaken(d: Disk, d': Disk, start: nat, size: nat, b: nat)
    requires b < size && !Used(d, start, b)
    requires forall x: nat {:trigger Used(d', start, x)} :: x < size ==>
               Used(d', start, x) == (x == b || Used(d, start, x))
    ensures FreeCount(d', start, size) == FreeCount(d, start, size) - 1
  {
    assert b in FreeSet(d, start, size);
    assert FreeSet(d', start, size) == FreeSet(d, start, size) - {b};
  }

  lemma FreeReturned(d: Disk, d': Disk, start: nat, size: nat, gone: set<nat>)
    requires forall b :: b in gone ==> b < size && Used(d, start, b)
    requires forall x: nat {:trigger Used(d', start, x)} :: x < size ==>
               (Used(d', start, x) <==> Used(d, start, x) && x !in gone)
    ensures FreeCount(d', start, size) == FreeCount(d, start, size) + |gone|
  {
    assert FreeSet(d', start, size) == FreeSet(d, start, size) + gone;
    assert FreeSet(d, start, size) !! gone;
  }

  lemma FreeNone(d: Disk, start: nat, size: nat)
    requires forall x: nat :: x < size ==> Used(d, start, x)
    ensures FreeCount(d, start, size) == 0
  {
    assert FreeSet(d, start, size) == {};
  }
}
