/** Block layout and tree arithmetic of the treedisk file system. */
module TreeLayout {
  import opened Words

  const REFS_PER_BLOCK := 128
  const INODES_PER_BLOCK := 64
  const LOG_RPB := 7

  /** A block filled with null bytes. */
  function NullBlock(): (b: Block)
    ensures forall i :: 0 <= i < REFS_PER_BLOCK ==> b[i] == 0
  {
    seq(128, _ => 0)
  }

  /** Block b with word i set to w. */
  function SetRef(b: Block, i: nat, w: U32): Block
    requires i < REFS_PER_BLOCK
  {
    b[i := w]
  }

  // ----- superblock and inode views -----

  function NInodeBlocks(sb: Block): U32 { sb[0] }

  function FreeList(sb: Block): U32 { sb[1] }

  function InodeBlockNo(ino: nat): nat { 1 + ino / INODES_PER_BLOCK }

  function RootSlot(ino: nat): nat { 2 * (ino % INODES_PER_BLOCK) }

  function SizeSlot(ino: nat): nat { 2 * (ino % INODES_PER_BLOCK) + 1 }

  // ----- shifts -----

  function Pow2(n: nat): nat {
    if n == 0 then 1 else 2 * Pow2(n - 1)
  }

  lemma Pow2Positive(n: nat)
    ensures Pow2(n) > 0
  {}

  /** The original's shift: an over-long shift gives 0 instead of being undefined. */
  function LogShiftR(x: U32, nbits: nat): (r: U32)
  {
    if nbits >= 32 then 0
    else
      Pow2Positive(nbits);
      Shrinks(x, Pow2(nbits));
      x / Pow2(nbits)
  }

  lemma Shrinks(x: nat, d: nat)
    requires d > 0
    ensures 0 <= x / d <= x
  {
    var q := x / d;
    assert x == q * d + x % d;
    if q > x {
      assert q * d >= q by { MulAtLeast(q, d); }
    }
  }

  lemma MulAtLeast(q: nat, d: nat)
    requires d > 0
    ensures q * d >= q
  {
    if d > 1 { MulAtLeast(q, d - 1); assert q * d == q * (d - 1) + q; }
  }

  /** x shifted right by k base-128 digits. */
  function Shr(x: nat, k: nat): nat {
    if k == 0 then x else Shr(x, k - 1) / REFS_PER_BLOCK
  }

  /** The number of base-128 digits of x: the number of levels needed above offset x. */
  function Height(x: nat): nat {
    if x == 0 then 0 else 1 + Height(x / REFS_PER_BLOCK)
  }

  /** Levels of a tree that holds nblocks blocks. */
  function LevelsOf(nblocks: nat): nat {
    if nblocks == 0 then 0 else Height(nblocks - 1)
  }

  /** A height is exactly what the level loops search for: the number of digits after
      which nothing is left of x. */
  lemma {:induction false} HeightIsLeast(x: nat, k: nat)
    ensures Shr(x, k) == 0 <==> Height(x) <= k
    decreases k
  {
    if k > 0 {
      ShrFirst(x, k);
      HeightIsLeast(x / REFS_PER_BLOCK, k - 1);
    }
  }

  lemma {:induction false} ShrFirst(x: nat, k: nat)
    requires k > 0
    ensures Shr(x, k) == Shr(x / REFS_PER_BLOCK, k - 1)
  {
    if k > 1 { ShrFirst(x, k - 1); }
  }

  lemma {:induction false} ShrMonotone(x: nat, y: nat, k: nat)
    requires x <= y
    ensures Shr(x, k) <= Shr(y, k)
  {
    if k > 0 { ShrMonotone(x, y, k - 1); }
  }

  lemma HeightMonotone(x: nat, y: nat)
    requires x <= y
    ensures Height(x) <= Height(y)
  {
    HeightIsLeast(y, Height(y));
    ShrMonotone(x, y, Height(y));
    HeightIsLeast(x, Height(y));
  }

  /** Five levels are enough for every 32-bit offset. */
  lemma HeightBound(x: U32)
    ensures Height(x) <= 5
  {
    HeightIsLeast(x, 5);
    assert Shr(x, 1) == x / 128;
    assert Shr(x, 2) == x / 128 / 128;
    assert Shr(x, 3) == x / 128 / 128 / 128;
    assert Shr(x, 4) == x / 128 / 128 / 128 / 128;
    assert Shr(x, 5) == 0;
  }

  /** Shifting by whole levels, as the code does with a bit count, takes base-128 digits. */
  lemma ShiftIsDigits(x: U32, k: nat)
    ensures LogShiftR(x, k * LOG_RPB) == Shr(x, k)
  {
    if k >= 5 {
      HeightBound(x);
      HeightIsLeast(x, k);
    } else {
      DigitWeight(k);
      ShrSteps(x, k);
    }
  }

  lemma DigitWeight(k: nat)
    requires k < 5
    ensures Pow2(k * LOG_RPB) == if k == 0 then 1 else if k == 1 then 128 else if k == 2 then 128 * 128
                                 else if k == 3 then 128 * 128 * 128 else 128 * 128 * 128 * 128
  {
    assert Pow2(7) == 128;
    assert Pow2(14) == 128 * 128;
    assert Pow2(21) == 128 * 128 * 128;
    assert Pow2(28) == 128 * 128 * 128 * 128;
  }

  lemma ShrSteps(x: nat, k: nat)
    requires k < 5
    ensures Shr(x, k) == if k == 0 then x else if k == 1 then x / 128 else if k == 2 then x / (128 * 128)
                         else if k == 3 then x / (128 * 128 * 128) else x / (128 * 128 * 128 * 128)
  {
    assert Shr(x, 1) == x / 128;
    assert Shr(x, 2) == x / 128 / 128;
    assert Shr(x, 3) == x / 128 / 128 / 128;
  }

  /** One tree step: the digit used as slot number, and the position it leads to. */
  lemma ShrStep(x: nat, k: nat)
    requires k > 0
    ensures Shr(x, k - 1) == Shr(x, k) * REFS_PER_BLOCK + Shr(x, k - 1) % REFS_PER_BLOCK
    ensures Shr(x, k - 1) / REFS_PER_BLOCK == Shr(x, k)
  {}
}
