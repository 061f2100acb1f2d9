/** The page allocator: a byte-packed bitmap that refines a set of page numbers. */
module PageAlloc {
  const NPAGES := 1148            // 2048 pages of free memory less the 900 reserved ones
  const BITMAP_BYTES := 144

  function Mask(k: nat): bv8
    requires k < 8
  {
    1 << k
  }

  predicate HasBit(b: bv8, k: nat)
    requires k < 8
  {
    b & Mask(k) != 0
  }

  function WithBit(b: bv8, k: nat): bv8
    requires k < 8
  {
    b | Mask(k)
  }

  function WithoutBit(b: bv8, k: nat): bv8
    requires k < 8
  {
    b & !Mask(k)
  }

  /** Setting, clearing and testing one bit of a byte, for all pairs of bit positions. */
  lemma BitOps(b: bv8, k: nat, j: nat)
    requires k < 8 && j < 8
    ensures HasBit(WithBit(b, k), j) <==> j == k || HasBit(b, j)
    ensures HasBit(WithoutBit(b, k), j) <==> j != k && HasBit(b, j)
  {
    MaskValue(k);
    MaskValue(j);
  }

  lemma ByteOps(b: bv8, k: nat)
    requires k < 8
    ensures forall j: nat :: j < 8 ==> (HasBit(WithBit(b, k), j) <==> j == k || HasBit(b, j))
    ensures forall j: nat :: j < 8 ==> (HasBit(WithoutBit(b, k), j) <==> j != k && HasBit(b, j))
  {
    hide *;
    forall j: nat | j < 8
      ensures HasBit(WithBit(b, k), j) <==> j == k || HasBit(b, j)
      ensures HasBit(WithoutBit(b, k), j) <==> j != k && HasBit(b, j)
    {
      BitOps(b, k, j);
    }
  }

  lemma MaskValue(k: nat)
    requires k < 8
    ensures Mask(k) == if k == 0 then 1 else if k == 1 then 2 else if k == 2 then 4 else if k == 3 then 8
                       else if k == 4 then 16 else if k == 5 then 32 else if k == 6 then 64 else 128
  {}

  class PageBitmap {
    const bitmap: array<bv8>

    ghost predicate Valid() {
      bitmap.Length == BITMAP_BYTES
    }

    predicate Bit(i: nat)
      requires Valid() && i < NPAGES
      reads bitmap
    {
      HasBit(bitmap[i / 8], i % 8)
    }

    ghost function Used(): (s: set<nat>)
      requires Valid()
      reads bitmap
      ensures forall i :: i in s <==> 0 <= i < NPAGES && Bit(i)
    {
      set i | 0 <= i < NPAGES && Bit(i)
    }

    constructor ()
      ensures Valid() && fresh(bitmap) && Used() == {}
    {
      bitmap := new bv8[BITMAP_BYTES](_ => 0);
    }

    method Set(i: nat)
      requires Valid() && i < NPAGES
      modifies bitmap
      ensures Used() == old(Used()) + {i}
    {
      hide HasBit, WithBit;
      ByteOps(bitmap[i / 8], i % 8);
      bitmap[i / 8] := WithBit(bitmap[i / 8], i % 8);
    }

    method Clear(i: nat)
      requires Valid() && i < NPAGES
      modifies bitmap
      ensures Used() == old(Used()) - {i}
    {
      hide HasBit, WithoutBit;
      ByteOps(bitmap[i / 8], i % 8);
      bitmap[i / 8] := WithoutBit(bitmap[i / 8], i % 8);
    }

    /** The search of pmalloc: the lowest free page is taken; with none left it halts. */
    method Take() returns (found: bool, id: nat)
      requires Valid()
      modifies bitmap
      ensures found <==> exists i :: 0 <= i < NPAGES && i !in old(Used())
      ensures found ==> id < NPAGES && id !in old(Used()) && Used() == old(Used()) + {id}
                        && forall i :: 0 <= i < id ==> i in old(Used())
      ensures !found ==> Used() == old(Used())
    {
      id := 0;
      while id < NPAGES
        invariant id <= NPAGES
        invariant forall i :: 0 <= i < id ==> i in Used()
        invariant Used() == old(Used())
      {
        if !Bit(id) {
          Set(id);
          return true, id;
        }
        id := id + 1;
      }
      found := false;
    }
  }

  /** Among n pages of which fewer than n are in use, one is free. */
  lemma {:induction false} FreeExists(used: set<nat>, n: nat)
    requires (forall i :: i in used ==> 0 <= i < n) && |used| < n
    ensures exists i :: 0 <= i < n && i !in used
  {
    if n - 1 in used {
      FreeExists(used - {n - 1}, n - 1);
      var i :| 0 <= i < n - 1 && i !in used - {n - 1};
      assert i !in used;
    } else {
      assert 0 <= n - 1 < n;
    }
  }

  lemma Supply(pages: PageBitmap)
    requires pages.Valid()
    ensures (exists i :: 0 <= i < NPAGES && !pages.Bit(i)) <==> |pages.Used()| < NPAGES
  {
    var used := pages.Used();
    if |used| < NPAGES { FreeExists(used, NPAGES); } else { UsedAll(used, NPAGES); }
    assert forall i :: 0 <= i < NPAGES ==> (i in used <==> pages.Bit(i));
  }

  lemma {:induction false} CardBound(used: set<nat>, n: nat)
    requires forall i :: i in used ==> 0 <= i < n
    ensures |used| <= n
  {
    if n > 0 {
      CardBound(used - {n - 1}, n - 1);
    } else {
      assert used == {};
    }
  }

  lemma UsedAll(used: set<nat>, n: nat)
    requires (forall i :: i in used ==> 0 <= i < n) && |used| >= n
    ensures forall i :: 0 <= i < n ==> i in used
  {
    forall i | 0 <= i < n
      ensures i in used
    {
      CardBound(used + {i}, n);
    }
  }
}
