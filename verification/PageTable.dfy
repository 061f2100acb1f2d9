/** Sv32 page tables: what the hardware's walk makes of the tables that identity mapping builds. */
module PageTable {
  import opened PageAlloc
  import opened Words

  const FLAG_VALID_RWX := 0xF
  const FLAG_NEXT_LEVEL := 0x1
  const FREE_PPN0 := 0x80800        // the page frame of the first page of free memory

  type Table = s: seq<U32> | |s| == 1024 witness seq(1024, _ => 0)

  // ----- the walk of section 4.3.2 of the RISC-V Privileged Specification v1.10 -----

  /** The outcome of a walk: a page fault, or a physical page frame with permissions. */
  datatype Walk = Fault | Frame(ppn: nat, readable: bool, writable: bool, executable: bool)

  function EntryAt(mem: seq<Table>, ppn: nat, i: nat): U32 {
    if FREE_PPN0 <= ppn < FREE_PPN0 + |mem| && i < 1024 then mem[ppn - FREE_PPN0][i] else 0
  }

  function Flags(pte: U32): nat { pte % 1024 }

  predicate Valid(pte: U32) { Flags(pte) % 2 == 1 }
  predicate Readable(pte: U32) { Flags(pte) / 2 % 2 == 1 }
  predicate Writable(pte: U32) { Flags(pte) / 4 % 2 == 1 }
  predicate Executable(pte: U32) { Flags(pte) / 8 % 2 == 1 }
  predicate IsLeaf(pte: U32) { Readable(pte) || Executable(pte) }
  predicate Malformed(pte: U32) { !Valid(pte) || (!Readable(pte) && Writable(pte)) }
  function PpnOf(pte: U32): nat { pte / 1024 }

  function Leaf(pte: U32, ppn: nat): Walk {
    Frame(ppn, Readable(pte), Writable(pte), Executable(pte))
  }

  /** The walk for virtual page vpn from the root table in frame root. */
  function WalkPage(mem: seq<Table>, root: nat, vpn: nat): Walk {
    var pte1 := EntryAt(mem, root, vpn / 1024);
    if Malformed(pte1) then Fault
    else if IsLeaf(pte1) then
      if PpnOf(pte1) % 1024 != 0 then Fault else Leaf(pte1, PpnOf(pte1) + vpn % 1024)
    else
      var pte0 := EntryAt(mem, PpnOf(pte1), vpn % 1024);
      if Malformed(pte0) || !IsLeaf(pte0) then Fault else Leaf(pte0, PpnOf(pte0))
  }

  function Identity(vpn: nat): Walk { Frame(vpn, true, true, true) }

  /** The address that a virtual address reaches, if the walk does not fault. */
  function Reached(mem: seq<Table>, root: nat, va: nat): (bool, nat) {
    match WalkPage(mem, root, va / 4096)
    case Fault => (false, 0)
    case Frame(ppn, _, _, _) => (true, ppn * 4096 + va % 4096)
  }

  // ----- the entries that are written -----

  function Pointer(ppn: nat): (pte: U32)
    requires ppn < 0x10_0000
    ensures Valid(pte) && !IsLeaf(pte) && !Malformed(pte) && PpnOf(pte) == ppn
  {
    ppn * 1024 + FLAG_NEXT_LEVEL
  }

  function IdentityLeaf(vpn: nat): (pte: U32)
    requires vpn < 0x10_0000
    ensures !Malformed(pte) && IsLeaf(pte) && Leaf(pte, PpnOf(pte)) == Identity(vpn) && pte != 0
  {
    vpn * 1024 + FLAG_VALID_RWX
  }

  /** The shape of the tables: the root's entries are empty or point to second-level tables,
      one each; all tables are pages in use. */
  ghost predicate Shaped(mem: seq<Table>, root: nat, used: set<nat>) {
    && |mem| == NPAGES && FREE_PPN0 <= root < FREE_PPN0 + NPAGES && root - FREE_PPN0 in used
    && (forall i :: 0 <= i < 1024 ==> RootEntryOk(EntryAt(mem, root, i), root, used))
    && (forall i, j :: 0 <= i < j < 1024 && EntryAt(mem, root, i) != 0 ==> EntryAt(mem, root, i) != EntryAt(mem, root, j))
  }

  /** Every page is unmapped, with an empty entry, or mapped to itself. */
  ghost predicate OnlyIdentity(mem: seq<Table>, root: nat) {
    forall vpn: nat {:trigger SecondEntry(mem, root, vpn)} :: vpn < 0x10_0000 ==>
      SecondEntry(mem, root, vpn) == 0 || SecondEntry(mem, root, vpn) == IdentityLeaf(vpn)
  }

  /** The second-level entry for a page; 0 if there is no second-level table. */
  function SecondEntry(mem: seq<Table>, root: nat, vpn: nat): U32 {
    var pte1 := EntryAt(mem, root, vpn / 1024);
    if pte1 == 0 then 0 else EntryAt(mem, PpnOf(pte1), vpn % 1024)
  }

  lemma EmptyIsFault(mem: seq<Table>, root: nat, used: set<nat>, vpn: nat)
    requires Shaped(mem, root, used) && OnlyIdentity(mem, root) && vpn < 0x10_0000
    ensures WalkPage(mem, root, vpn) == if SecondEntry(mem, root, vpn) == 0 then Fault else Identity(vpn)
  {
    var pte1 := EntryAt(mem, root, vpn / 1024);
    assert RootEntryOk(pte1, root, used);
    assert pte1 != 0 ==> pte1 == Pointer(PpnOf(pte1));
    assert SecondEntry(mem, root, vpn) == 0 || SecondEntry(mem, root, vpn) == IdentityLeaf(vpn);
    ZeroFaults();
    hide Valid, Readable, Writable, Executable, Pointer, IdentityLeaf;
  }

  ghost predicate RootEntryOk(pte: U32, root: nat, used: set<nat>) {
    pte != 0 ==>
      && FREE_PPN0 <= PpnOf(pte) < FREE_PPN0 + NPAGES && pte == PpnOf(pte) * 1024 + 1
      && PpnOf(pte) != root && PpnOf(pte) - FREE_PPN0 in used
  }

  function WithEntry(mem: seq<Table>, ppn: nat, i: nat, pte: U32): (r: seq<Table>)
    ensures |r| == |mem|
    ensures forall q, j {:trigger EntryAt(r, q, j)} ::
              EntryAt(r, q, j) == if FREE_PPN0 <= ppn < FREE_PPN0 + |mem| && i < 1024 && q == ppn && j == i then pte
                                  else EntryAt(mem, q, j)
  {
    if FREE_PPN0 <= ppn < FREE_PPN0 + |mem| && i < 1024 then
      var t: Table := mem[ppn - FREE_PPN0][i := pte];
      mem[ppn - FREE_PPN0 := t]
    else mem
  }

  /** A second-level table for an empty root entry: since it is zeroed, the walk is as before. */
  lemma TableAdded(mem: seq<Table>, root: nat, used: set<nat>, vpn1: nat, id: nat, zero: Table)
    requires Shaped(mem, root, used) && vpn1 < 1024 && EntryAt(mem, root, vpn1) == 0
    requires id < NPAGES && id !in used && forall i :: 0 <= i < 1024 ==> zero[i] == 0
    ensures var ppn := FREE_PPN0 + id;
            var mem' := WithEntry(mem[id := zero], root, vpn1, Pointer(ppn));
            && Shaped(mem', root, used + {id})
            && EntryAt(mem', root, vpn1) == Pointer(ppn)
            && (OnlyIdentity(mem, root) ==> OnlyIdentity(mem', root))
            && forall vpn: nat {:trigger WalkPage(mem', root, vpn)} :: WalkPage(mem', root, vpn) == WalkPage(mem, root, vpn)
  {
    var ppn := FREE_PPN0 + id;
    var mem1 := mem[id := zero];
    var mem' := WithEntry(mem1, root, vpn1, Pointer(ppn));
    assert forall q, j {:trigger EntryAt(mem1, q, j)} :: EntryAt(mem1, q, j) == if q == ppn then 0 else EntryAt(mem, q, j);
    forall i | 0 <= i < 1024
      ensures RootEntryOk(EntryAt(mem', root, i), root, used + {id})
      ensures i != vpn1 ==> EntryAt(mem', root, i) == EntryAt(mem, root, i) != Pointer(ppn)
    {
      assert RootEntryOk(EntryAt(mem, root, i), root, used);
    }
    forall vpn: nat
      ensures WalkPage(mem', root, vpn) == WalkPage(mem, root, vpn)
      ensures SecondEntry(mem', root, vpn) == SecondEntry(mem, root, vpn)
    {
      assert vpn / 1024 < 1024 ==> RootEntryOk(EntryAt(mem, root, vpn / 1024), root, used);
      hide Valid, Readable, Writable, Executable;
      if vpn / 1024 == vpn1 {
        assert EntryAt(mem', ppn, vpn % 1024) == 0;
        ZeroFaults();
      }
    }
  }

  lemma ZeroFaults()
    ensures Malformed(0)
  {}

  /** Writing one second-level entry changes the walk of one page. */
  lemma LeafAdded(mem: seq<Table>, root: nat, used: set<nat>, vpn: nat)
    requires Shaped(mem, root, used) && vpn < 0x10_0000 && EntryAt(mem, root, vpn / 1024) != 0
    ensures var ppn := PpnOf(EntryAt(mem, root, vpn / 1024));
            var mem' := WithEntry(mem, ppn, vpn % 1024, IdentityLeaf(vpn));
            && Shaped(mem', root, used)
            && (OnlyIdentity(mem, root) ==> OnlyIdentity(mem', root))
            && (forall i :: 0 <= i < 1024 ==> EntryAt(mem', root, i) == EntryAt(mem, root, i))
            && forall x: nat {:trigger WalkPage(mem', root, x)} ::
                 WalkPage(mem', root, x) == if x == vpn then Identity(vpn) else WalkPage(mem, root, x)
  {
    var pte1 := EntryAt(mem, root, vpn / 1024);
    var ppn := PpnOf(pte1);
    assert RootEntryOk(pte1, root, used);
    var mem' := WithEntry(mem, ppn, vpn % 1024, IdentityLeaf(vpn));
    assert pte1 == Pointer(ppn);
    forall x: nat
      ensures WalkPage(mem', root, x) == if x == vpn then Identity(vpn) else WalkPage(mem, root, x)
      ensures SecondEntry(mem', root, x) == if x == vpn then IdentityLeaf(vpn) else SecondEntry(mem, root, x)
    {
      var e := EntryAt(mem, root, x / 1024);
      assert EntryAt(mem', root, x / 1024) == e;
      assert x / 1024 < 1024 ==> RootEntryOk(e, root, used);
      assert x / 1024 >= 1024 ==> e == 0;
      if x == vpn {
      } else if PpnOf(e) == ppn && e != 0 {
        assert e == pte1 && x / 1024 == vpn / 1024 && x % 1024 != vpn % 1024;
      }
      hide IdentityLeaf, Pointer, Valid, Readable, Writable, Executable;
      if e == 0 { ZeroFaults(); }
    }
  }

  /** A region of pages within one second-level table. */
  predicate InRegion(first: nat, npages: nat, vpn: nat) {
    first <= vpn < first + npages
  }

  function ZeroTable(): (t: Table)
    ensures forall i :: 0 <= i < 1024 ==> t[i] == 0
  {
    seq(1024, _ => 0)
  }

  lemma EmptyRoot(mem: seq<Table>, root: nat, used: set<nat>)
    requires |mem| == NPAGES && FREE_PPN0 <= root < FREE_PPN0 + NPAGES && root - FREE_PPN0 in used
    requires mem[root - FREE_PPN0] == ZeroTable()
    ensures Shaped(mem, root, used) && OnlyIdentity(mem, root)
    ensures forall vpn: nat :: WalkPage(mem, root, vpn) == Fault
  {
    assert forall i :: EntryAt(mem, root, i) == 0;
    ZeroFaults();
    hide Malformed;
  }

  // ----- the kernel's mapping -----

  /** The regions of the kernel's mapping, in the order of the calls: first page and number of
      pages of CLINT, UART0, SD card, boot ROM, disk image, DTIM, and eight parts of ITIM. */
  function RegionAt(k: nat): (nat, nat) {
    if k == 0 then (0x02000, 16) else if k == 1 then (0x10013, 1) else if k == 2 then (0x10024, 1)
    else if k == 3 then (0x20400, 1024) else if k == 4 then (0x20800, 1024) else if k == 5 then (0x80000, 1024)
    else (0x08000 + (k - 6) * 1024, 1024)
  }

  const NREGIONS := 14

  predicate InRegionAt(k: nat, vpn: nat) { InRegion(RegionAt(k).0, RegionAt(k).1, vpn) }

  ghost predicate InFirst(k: nat, vpn: nat) { exists j: nat :: j < k && InRegionAt(j, vpn) }

  /** The pages that the kernel maps. */
  predicate Listed(vpn: nat) {
    || InRegion(0x02000, 16, vpn) || vpn == 0x10013 || vpn == 0x10024 || InRegion(0x20400, 2048, vpn)
    || InRegion(0x80000, 1024, vpn) || InRegion(0x08000, 8192, vpn)
  }

  lemma AllRegions(vpn: nat)
    ensures InFirst(NREGIONS, vpn) <==> Listed(vpn)
  {
    if Listed(vpn) {
      var j := if InRegion(0x02000, 16, vpn) then 0 else if vpn == 0x10013 then 1 else if vpn == 0x10024 then 2
               else if InRegion(0x20400, 1024, vpn) then 3 else if InRegion(0x20800, 1024, vpn) then 4
               else if InRegion(0x80000, 1024, vpn) then 5 else 6 + (vpn - 0x08000) / 1024;
      assert InRegionAt(j, vpn);
    }
  }

  /** The regions are disjoint, and each lies within one second-level table. */
  lemma RegionsDisjoint(j: nat, k: nat, vpn: nat)
    requires j < k < NREGIONS && InRegionAt(k, vpn)
    ensures !InRegionAt(j, vpn)
  {}

  /** The second-level tables differ too, but for UART0 and SD card. */
  lemma TablesDiffer(j: nat, k: nat)
    requires j < k < NREGIONS
    ensures RegionAt(j).0 / 1024 == RegionAt(k).0 / 1024 <==> j == 1 && k == 2
  {}

  /** After the first k regions: exactly their pages are mapped, to themselves, and exactly
      their second-level tables exist. */
  ghost predicate MappedFirst(mem: seq<Table>, root: nat, k: nat) {
    && (forall vpn: nat {:trigger WalkPage(mem, root, vpn)} ::
          WalkPage(mem, root, vpn) == if InFirst(k, vpn) then Identity(vpn) else Fault)
    && (forall i {:trigger EntryAt(mem, root, i)} :: 0 <= i < 1024 ==>
          (EntryAt(mem, root, i) != 0 <==> exists j: nat :: j < k && TableOf(j) == i))
  }

  function TableOf(k: nat): nat { RegionAt(k).0 / 1024 }

  class Mapper {
    var mem: seq<Table>            // the pages of free memory
    var root: nat                  // page frame of the root table, 0 before there is one
    const pages: PageBitmap

    ghost predicate Valid()
      reads this, pages.bitmap
    {
      pages.Valid() && Shaped(mem, root, pages.Used()) && OnlyIdentity(mem, root)
    }

    constructor (ram: seq<Table>)
      requires |ram| == NPAGES
      ensures pages.Valid() && mem == ram && pages.Used() == {} && fresh(pages) && fresh(pages.bitmap)
    {
      mem, root := ram, 0;
      pages := new PageBitmap();
    }

    /** A zeroed page; fails when memory is exhausted. */
    method Alloc() returns (ok: bool, ppn: nat)
      requires pages.Valid() && |mem| == NPAGES
      modifies this`mem, pages.bitmap
      ensures ok <==> |old(pages.Used())| < NPAGES
      ensures ok ==> FREE_PPN0 <= ppn < FREE_PPN0 + NPAGES && ppn - FREE_PPN0 !in old(pages.Used())
                     && pages.Used() == old(pages.Used()) + {ppn - FREE_PPN0}
                     && mem == old(mem)[ppn - FREE_PPN0 := ZeroTable()]
      ensures !ok ==> mem == old(mem) && pages.Used() == old(pages.Used())
    {
      Supply(pages);
      var id;
      ok, id := pages.Take();
      ppn := FREE_PPN0 + id;
      if ok {
        mem := mem[id := ZeroTable()];
      }
    }

    lemma RootOk(vpn1: nat)
      requires Valid() && vpn1 < 1024
      ensures pages.Valid() && |mem| == NPAGES && FREE_PPN0 <= root && root - FREE_PPN0 in pages.Used()
      ensures RootEntryOk(EntryAt(mem, root, vpn1), root, pages.Used())
    {}

    /** The second-level table for a root entry, made if there is none. */
    method SecondLevel(vpn1: nat) returns (ok: bool, l2: nat)
      requires Valid() && vpn1 < 1024
      modifies this`mem, pages.bitmap
      ensures Valid()
      ensures ok <==> old(EntryAt(mem, root, vpn1)) != 0 || |old(pages.Used())| < NPAGES
      ensures |pages.Used()| == |old(pages.Used())| + if ok && old(EntryAt(mem, root, vpn1)) == 0 then 1 else 0
      ensures ok ==> EntryAt(mem, root, vpn1) != 0 && l2 == PpnOf(EntryAt(mem, root, vpn1))
      ensures ok ==> forall i :: 0 <= i < 1024 && i != vpn1 ==> EntryAt(mem, root, i) == old(EntryAt(mem, root, i))
      ensures forall vpn: nat {:trigger WalkPage(mem, root, vpn)} ::
                WalkPage(mem, root, vpn) == old(WalkPage(mem, root, vpn))
    {
      hide Shaped, OnlyIdentity, WithEntry, WalkPage;
      RootOk(vpn1);
      var pte := EntryAt(mem, root, vpn1);
      if pte % 2 == FLAG_NEXT_LEVEL {
        l2 := PpnOf(pte);
        return true, l2;
      }
      ghost var mem0, used0 := mem, pages.Used();
      ok, l2 := Alloc();
      if ok {
        TableAdded(mem0, root, used0, vpn1, l2 - FREE_PPN0, ZeroTable());
        mem := WithEntry(mem, root, vpn1, Pointer(l2));
      }
    }

    /** Map npages pages from addr on to themselves; fails if the request is ill-formed, if
        memory runs out, or if one of the pages is mapped already. */
    method SetupIdentityRegion(addr: nat, npages: nat) returns (ok: bool)
      requires Valid() && addr < 0x1_0000_0000 && addr / 4096 % 1024 + npages <= 1024
      modifies this`mem, pages.bitmap
      ensures Valid()
      ensures ok <==> && addr % 4096 == 0
                      && (old(EntryAt(mem, root, addr / 4096 / 1024)) != 0 || |old(pages.Used())| < NPAGES)
                      && forall vpn: nat :: InRegion(addr / 4096, npages, vpn) ==> old(WalkPage(mem, root, vpn)) == Fault
      ensures ok ==> forall vpn: nat {:trigger WalkPage(mem, root, vpn)} ::
                       WalkPage(mem, root, vpn) ==
                       if InRegion(addr / 4096, npages, vpn) then Identity(vpn) else old(WalkPage(mem, root, vpn))
      ensures ok ==> |pages.Used()| == |old(pages.Used())| + if old(EntryAt(mem, root, addr / 4096 / 1024)) == 0 then 1 else 0
      ensures ok ==> EntryAt(mem, root, addr / 4096 / 1024) != 0
                     && forall i :: 0 <= i < 1024 && i != addr / 4096 / 1024 ==>
                          EntryAt(mem, root, i) == old(EntryAt(mem, root, i))
    {
      hide WalkPage, IdentityLeaf, WithEntry, Shaped, OnlyIdentity, EntryAt;
      if addr % 4096 != 0 {
        return false;
      }
      ghost var mem0 := mem;
      var first := addr / 4096;
      var l2;
      ok, l2 := SecondLevel(first / 1024);
      if !ok {
        return;
      }
      var i := 0;
      ghost var mem1 := mem;
      while i < npages
        invariant 0 <= i <= npages && Valid()
        invariant forall k :: 0 <= k < 1024 ==> EntryAt(mem, root, k) == EntryAt(mem1, root, k)
        invariant forall vpn: nat {:trigger WalkPage(mem, root, vpn)} ::
                    WalkPage(mem, root, vpn) == if InRegion(first, i, vpn) then Identity(vpn) else WalkPage(mem0, root, vpn)
        invariant forall vpn: nat :: InRegion(first, i, vpn) ==> WalkPage(mem0, root, vpn) == Fault
        modifies this`mem
      {
        var vpn := first + i;
        assert vpn / 1024 == first / 1024 && vpn % 1024 == first % 1024 + i;
        EmptyIsFault(mem, root, pages.Used(), vpn);
        if EntryAt(mem, l2, first % 1024 + i) != 0 {
          assert InRegion(first, npages, vpn);
          return false;
        }
        LeafAdded(mem, root, pages.Used(), vpn);
        mem := WithEntry(mem, l2, first % 1024 + i, IdentityLeaf(vpn));
        i := i + 1;
      }
      ok := true;
    }
  
    /** Map the next of the kernel's regions. */
    method MapRegion(k: nat, addr: nat, npages: nat) returns (ok: bool)
      requires Valid() && k < NREGIONS && MappedFirst(mem, root, k)
      requires addr == RegionAt(k).0 * 4096 && npages == RegionAt(k).1
      modifies this`mem, pages.bitmap
      ensures Valid() && (ok <==> k == 2 || |old(pages.Used())| < NPAGES)
      ensures ok ==> MappedFirst(mem, root, k + 1)
      ensures ok ==> |pages.Used()| == |old(pages.Used())| + if k == 2 then 0 else 1
    {
      assert addr / 4096 == RegionAt(k).0 && addr / 4096 / 1024 == TableOf(k);
      Fresh(mem, root, k);
      ghost var mem0 := mem;
      ok := SetupIdentityRegion(addr, npages);
      if ok {
        RegionMapped(mem0, mem, root, k);
      }
    }

    lemma UsedBound()
      requires Valid()
      ensures pages.Valid() && |pages.Used()| <= NPAGES
    {
      CardBound(pages.Used(), NPAGES);
    }

    /** The regions before the parts of ITIM. */
    method FixedRegions() returns (ok: bool)
      requires Valid() && MappedFirst(mem, root, 0)
      modifies this`mem, pages.bitmap
      ensures Valid() && (ok <==> |old(pages.Used())| + 5 <= NPAGES)
      ensures ok ==> MappedFirst(mem, root, 6) && |pages.Used()| == |old(pages.Used())| + 5
    {
      hide Valid, MappedFirst;
      UsedBound();
      ok := MapRegion(0, 0x02000000, 16);
      if !ok { return; }
      ok := MapRegion(1, 0x10013000, 1);
      if !ok { return; }
      ok := MapRegion(2, 0x10024000, 1);
      if !ok { return; }
      ok := MapRegion(3, 0x20400000, 1024);
      if !ok { return; }
      ok := MapRegion(4, 0x20800000, 1024);
      if !ok { return; }
      ok := MapRegion(5, 0x80000000, 1024);
    }

    /** Build the kernel's tables. */
    method KernelIdentityMapping() returns (ok: bool)
      requires pages.Valid() && |mem| == NPAGES
      modifies this`mem, this`root, pages.bitmap
      ensures ok <==> |old(pages.Used())| + NREGIONS <= NPAGES
      ensures ok ==> Valid() && |pages.Used()| == |old(pages.Used())| + NREGIONS
      ensures ok ==> forall vpn: nat {:trigger WalkPage(mem, root, vpn)} ::
                       WalkPage(mem, root, vpn) == if Listed(vpn) then Frame(vpn, true, true, true) else Fault
      ensures ok ==> forall va: nat {:trigger Reached(mem, root, va)} ::
                       Reached(mem, root, va) == if Listed(va / 4096) then (true, va) else (false, 0)
    {
      CardBound(pages.Used(), NPAGES);
      ghost var n := |pages.Used()|;
      ok := NewRoot();
      if !ok { return; }
      hide Valid, MappedFirst, WalkPage, Reached, Listed;
      ok := FixedRegions();
      if !ok { return; }
      var i := 0;
      CardBound(pages.Used(), NPAGES);
      while i < 8
        invariant 0 <= i <= 8 && Valid() && MappedFirst(mem, root, 6 + i)
        invariant |pages.Used()| == n + 6 + i <= NPAGES
        modifies this`mem, pages.bitmap
      {
        ok := MapRegion(6 + i, 0x08000000 + i * 0x00400000, 1024);
        if !ok { return; }
        i := i + 1;
        CardBound(pages.Used(), NPAGES);
      }
      ok := true;
      AllMapped(mem, root);
    }

    method NewRoot() returns (ok: bool)
      requires pages.Valid() && |mem| == NPAGES
      modifies this`mem, this`root, pages.bitmap
      ensures ok <==> |old(pages.Used())| < NPAGES
      ensures ok ==> Valid() && MappedFirst(mem, root, 0) && |pages.Used()| == |old(pages.Used())| + 1
    {
      var base;
      ok, base := Alloc();
      if ok {
        root := base;
        EmptyRoot(mem, root, pages.Used());
      }
    }
  }

  lemma AllMapped(mem: seq<Table>, root: nat)
    requires MappedFirst(mem, root, NREGIONS)
    ensures forall vpn: nat {:trigger WalkPage(mem, root, vpn)} ::
                       WalkPage(mem, root, vpn) == if Listed(vpn) then Identity(vpn) else Fault
    ensures forall va: nat {:trigger Reached(mem, root, va)} ::
                       Reached(mem, root, va) == if Listed(va / 4096) then (true, va) else (false, 0)
  {
    forall vpn: nat
      ensures WalkPage(mem, root, vpn) == if Listed(vpn) then Identity(vpn) else Fault
    {
      AllRegions(vpn);
    }
    forall va: nat
      ensures Reached(mem, root, va) == if Listed(va / 4096) then (true, va) else (false, 0)
    {
      hide Listed;
      assert WalkPage(mem, root, va / 4096) == if Listed(va / 4096) then Identity(va / 4096) else Fault;
    }
  }

  lemma Fresh(mem: seq<Table>, root: nat, k: nat)
    requires MappedFirst(mem, root, k) && k < NREGIONS
    ensures forall vpn: nat :: InRegionAt(k, vpn) ==> WalkPage(mem, root, vpn) == Fault
    ensures EntryAt(mem, root, TableOf(k)) != 0 <==> k == 2
  {
    forall vpn: nat | InRegionAt(k, vpn)
      ensures !InFirst(k, vpn)
    {
      forall j: nat | j < k ensures !InRegionAt(j, vpn) { RegionsDisjoint(j, k, vpn); }
    }
    forall j: nat | j < k
      ensures TableOf(j) == TableOf(k) <==> j == 1 && k == 2
    {
      TablesDiffer(j, k);
    }
    assert k == 2 ==> TableOf(1) == TableOf(k);
  }

  lemma RegionMapped(mem0: seq<Table>, mem: seq<Table>, root: nat, k: nat)
    requires MappedFirst(mem0, root, k) && k < NREGIONS
    requires forall vpn: nat {:trigger WalkPage(mem, root, vpn)} ::
               WalkPage(mem, root, vpn) == if InRegionAt(k, vpn) then Identity(vpn) else WalkPage(mem0, root, vpn)
    requires EntryAt(mem, root, TableOf(k)) != 0
    requires forall i :: 0 <= i < 1024 && i != TableOf(k) ==> EntryAt(mem, root, i) == EntryAt(mem0, root, i)
    ensures MappedFirst(mem, root, k + 1)
  {
    forall vpn: nat
      ensures InFirst(k + 1, vpn) <==> InFirst(k, vpn) || InRegionAt(k, vpn)
    {
      if InFirst(k, vpn) {
        var j: nat :| j < k && InRegionAt(j, vpn);
        assert j < k + 1 && InRegionAt(j, vpn);
      }
    }
    forall i | 0 <= i < 1024
      ensures EntryAt(mem, root, i) != 0 <==> exists j: nat :: j < k + 1 && TableOf(j) == i
    {
      if i != TableOf(k) && EntryAt(mem0, root, i) != 0 {
        var j: nat :| j < k && TableOf(j) == i;
        assert j < k + 1 && TableOf(j) == i;
      }
    }
  }
}
