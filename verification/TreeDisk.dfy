/** The treedisk: many sparse virtual files inside one flat block store. */
module TreeDisk {
  import opened TreeLayout
  import opened TreeOwnership
  import opened TreeWrite
  import opened Words

  /** Panicked stands for the original's fatal error, after which nothing runs any more. */
  datatype Status = Done | Failed | Panicked

  class Treedisk {
    var disk: seq<Block>
    ghost var own: Own

    ghost predicate Valid()
      reads this
    {
      Inv(disk, own) && Settled(disk, own)
    }

    /** The inode's superblock and inode block, or None for a bad inode number. */
    method GetSnapshot(ino: U32) returns (r: Option<(Block, Block)>)
      requires Inv(disk, own)
      ensures r.None? <==> ino >= Inodes(disk)
      ensures r.Some? ==> r.value.0 == disk[0] && 0 < InodeBlockNo(ino) < |disk|
                          && InodeBlockNo(ino) <= NInodeBlocks(disk[0])
                          && r.value.1 == disk[InodeBlockNo(ino)]
    {
      var superblock := disk[0];
      if ino >= NInodeBlocks(superblock) * INODES_PER_BLOCK {
        return None;
      }
      return Some((superblock, disk[1 + ino / INODES_PER_BLOCK]));
    }

    /** The loop that counts tree levels above the last block number x. */
    static method CountLevels(x: U32) returns (nlevels: nat)
      ensures nlevels == Height(x)
    {
      nlevels := 0;
      ShiftIsDigits(x, 0);
      while LogShiftR(x, nlevels * LOG_RPB) != 0
        invariant Height(Shr(x, nlevels)) + nlevels == Height(x)
        invariant LogShiftR(x, nlevels * LOG_RPB) == Shr(x, nlevels)
        decreases Shr(x, nlevels)
      {
        nlevels := nlevels + 1;
        ShiftIsDigits(x, nlevels);
      }
    }

    /** Allocate a block; the caller's copy of the superblock is kept up to date. */
    method AllocBlock(superblock: Block) returns (r: Option<U32>, superblock': Block)
      requires disk != [] && superblock == disk[0] && FreeList(superblock) < |disk|
      modifies this`disk
      ensures r.None? <==> Head(old(disk)) == 0
      ensures r.None? ==> disk == old(disk) && superblock' == superblock
      ensures r.Some? ==> r.value == AllocBlockNo(old(disk)) && disk == AllocDisk(old(disk))
                          && superblock' == disk[0]
    {
      superblock' := superblock;
      var b := FreeList(superblock);
      if b == 0 {
        return None, superblock';
      }
      var freelistblock := disk[b];
      var i := REFS_PER_BLOCK - 1;
      while i > 0 && freelistblock[i] == 0
        invariant 0 <= i < REFS_PER_BLOCK
        invariant LastRef(freelistblock, i + 1) == LastRef(freelistblock, REFS_PER_BLOCK)
      {
        i := i - 1;
      }
      if i == 0 {
        superblock' := SetRef(superblock, 1, freelistblock[0]);
        disk := disk[0 := superblock'];
        return Some(b), superblock';
      } else {
        var free := freelistblock[i];
        disk := disk[b := SetRef(freelistblock, i, 0)];
        return Some(free), superblock';
      }
    }

    /** The number of blocks, returned as a signed integer, which also stands for a failure. */
    method GetSize(ino: U32) returns (r: int)
      requires Valid()
      ensures r == if ino < Inodes(disk) then Signed(|File(disk, own, ino)|) else -1
      ensures ino < Inodes(disk) ==> (r == |File(disk, own, ino)| <==> |File(disk, own, ino)| < 0x8000_0000)
      ensures r == -1 <==> ino >= Inodes(disk) || |File(disk, own, ino)| == WORD_LIMIT - 1
    {
      var snapshot := GetSnapshot(ino);
      if snapshot.None? {
        return -1;
      }
      return Signed(snapshot.value.1[SizeSlot(ino)]);
    }

    /** Reading walks down from the root; a hole anywhere on the way reads as null bytes. */
    method Read(ino: U32, off: U32) returns (r: Option<Block>)
      requires Valid()
      ensures r == if ino < Inodes(disk) && off < |File(disk, own, ino)|
                   then Some(File(disk, own, ino)[off]) else None
    {
      var snapshot := GetSnapshot(ino);
      if snapshot.None? {
        return None;
      }
      var (_, inodeblock) := snapshot.value;
      var nblocks := inodeblock[SizeSlot(ino)];
      if off >= nblocks {
        return None;
      }
      var nlevels := 0;
      if nblocks > 0 {
        nlevels := CountLevels(nblocks - 1);
      }
      HeightBound(nblocks - 1);
      PathTop(ino, off, nblocks);
      var b := inodeblock[RootSlot(ino)];
      assert Linked(own.node, Root(disk, ino), Key(ino, own.height[ino], 0));
      while true
        invariant 0 <= nlevels <= own.height[ino]
        invariant Linked(own.node, b, PathKey(ino, off, nlevels))
        decreases nlevels
      {
        if b == 0 {
          HoleOnPath(disk, own, ino, off, nlevels);
          return Some(NullBlock());
        }
        assert KeyOk(disk, own, PathKey(ino, off, nlevels));
        var block := disk[b];
        if nlevels == 0 {
          return Some(block);
        }
        ghost var p := PathKey(ino, off, nlevels);
        nlevels := nlevels - 1;
        ShiftIsDigits(off, nlevels);
        PathStep(ino, off, nlevels + 1);
        var index := LogShiftR(off, nlevels * LOG_RPB) % REFS_PER_BLOCK;
        assert Linked(own.node, NodeAt(disk, own, p)[index], Child(p, index));
        b := block[index];
      }
    }
  
    /** Allocation during a write, with block p of the disk still to be replaced by blk. */
    method AllocAsideOf(superblock: Block, p: nat, blk: Block, ghost s: Start, ghost made: set<Key>)
        returns (r: Option<U32>, superblock': Block)
      requires 0 < p < |disk| && superblock == disk[0]
      requires p in own.role ==> !own.role[p].FreeNode?
      requires During(s, disk[p := blk], own, made)
      modifies this
      ensures |disk| == |old(disk)| && superblock' == disk[0]
      ensures r.None? ==> Head(old(disk)[p := blk]) == 0 && own == old(own)
      ensures r.Some? ==> InFlight(s, disk[p := blk], own, made, r.value)
      ensures r.Some? ==> own.node == old(own.node) && own.height == old(own.height)
      ensures r.Some? ==> own.role.Keys == old(own.role.Keys)
      ensures r.Some? ==> r.value < |disk| && r.value as nat in old(own.role) && !old(own.role)[r.value].Tree?
    {
      hide AllocBlockNo, AllocDisk, AllocOwn, During, InFlight, FreeList;
      AllocReady(s, disk, own, made, p, blk);
      ghost var d0 := disk;
      r, superblock' := AllocBlock(superblock);
      if r.Some? {
        AllocDone(s, d0, own, made, p, blk);
        own := AllocOwn(d0[p := blk], own);
      }
    }

    /** One more indirect block on top of file ino. */
    method AddLevel(ino: U32, superblock: Block, inodeblock: Block, ghost s: Start, ghost made: set<Key>)
        returns (ok: bool, superblock': Block, inodeblock': Block)
      requires s.Ok() && s.ino == ino
      requires 0 < InodeBlockNo(ino) < |disk| && InodeBlockNo(ino) !in own.role && superblock == disk[0]
      requires During(s, disk[InodeBlockNo(ino) := inodeblock], own, made)
      requires LevelsOf(s.SizeBefore()) <= HeightOf(own, ino) < s.Levels()
      modifies this
      ensures ok ==> |disk| == |old(disk)| && own.role.Keys == old(own.role.Keys) && superblock' == disk[0]
      ensures ok ==> During(s, disk[InodeBlockNo(ino) := inodeblock'], own, made + {Key(ino, old(HeightOf(own, ino)) + 1, 0)})
      ensures ok ==> HeightOf(own, ino) == old(HeightOf(own, ino)) + 1
      ensures !ok ==> |s.MissingKeys()| > |FreeBlocks(s.own)|
    {
      hide Grew, Inv;
      ghost var v0, own0, k := disk[InodeBlockNo(ino) := inodeblock], own, Key(ino, HeightOf(own, ino) + 1, 0);
      var r;
      inodeblock' := inodeblock;
      r, superblock' := AllocAsideOf(superblock, InodeBlockNo(ino), inodeblock, s, made);
      if r.None? {
        NotYet(s, v0, own0, made);
        OutOfBlocks(s, v0, own0, made, k);
        return false, superblock', inodeblock';
      }
      var indir := r.value;
      var tib: Block := SetRef(NullBlock(), 0, inodeblock[RootSlot(ino)]);
      inodeblock' := SetRef(inodeblock, RootSlot(ino), indir);
      ghost var v := disk[InodeBlockNo(ino) := inodeblock];
      ghost var v': seq<Block> := disk[indir := tib][InodeBlockNo(ino) := inodeblock'];
      ghost var own' := Grown(own, ino, indir);
      assert During(s, v', own', made + {k}) && HeightOf(own', ino) == HeightOf(own, ino) + 1 by {
        StepGrow(s, v, own, made, indir, v');
      }
      disk := disk[indir := tib];
      own := own';
      assert disk[InodeBlockNo(ino) := inodeblock'] == v';
      ok := true;
    }

    /** Insert indirect blocks on top of file ino until its tree has nlevelsAfter levels. */
    method Grow(ino: U32, superblock: Block, inodeblock: Block, nlevels: nat, nlevelsAfter: nat, ghost s: Start)
        returns (ok: bool, superblock': Block, inodeblock': Block, grown: bool)
      requires s.Ok() && s.ino == ino && nlevels <= nlevelsAfter == s.Levels()
      requires 0 < InodeBlockNo(ino) < |disk| && InodeBlockNo(ino) !in own.role && superblock == disk[0]
      requires During(s, disk[InodeBlockNo(ino) := inodeblock], own, {})
      requires HeightOf(own, ino) == nlevels == LevelsOf(s.SizeBefore())
      modifies this
      ensures ok ==> |disk| == |old(disk)| && superblock' == disk[0]
      ensures ok ==> During(s, disk[InodeBlockNo(ino) := inodeblock'], own, s.TopKeys(nlevelsAfter))
      ensures ok ==> HeightOf(own, ino) == nlevelsAfter
      ensures ok && !grown ==> disk == old(disk) && inodeblock' == inodeblock
      ensures !ok ==> |s.MissingKeys()| > |FreeBlocks(s.own)|
    {
      hide Grew, Inv;
      superblock', inodeblock', grown := superblock, inodeblock, false;
      s.NoTopKeys();
      var n := nlevels;
      while nlevelsAfter > n
        invariant nlevels <= n <= nlevelsAfter
        invariant |disk| == |old(disk)| && superblock' == disk[0] && InodeBlockNo(ino) !in own.role
        invariant During(s, disk[InodeBlockNo(ino) := inodeblock'], own, s.TopKeys(n))
        invariant HeightOf(own, ino) == n
        invariant grown || (disk == old(disk) && inodeblock' == inodeblock)
      {
        ok, superblock', inodeblock' := AddLevel(ino, superblock', inodeblock', s, s.TopKeys(n));
        if !ok {
          return;
        }
        s.NextTopKey(n);
        n, grown := n + 1, true;
      }
      ok := true;
    }

    /** How many levels there are in the tree now, and how many are needed after writing. */
    static method Measure(inodeblock: Block, sizeSlot: nat, off: U32)
        returns (inodeblock': Block, dirty: bool, nlevels: nat, nlevelsAfter: nat)
      requires sizeSlot < REFS_PER_BLOCK
      ensures nlevels == LevelsOf(inodeblock[sizeSlot])
      ensures nlevels <= nlevelsAfter == LevelsAfter(inodeblock[sizeSlot], off)
      ensures inodeblock' == SetRef(inodeblock, sizeSlot, NewSize(inodeblock[sizeSlot], off))
      ensures !dirty ==> inodeblock' == inodeblock
    {
      inodeblock', dirty, nlevels := inodeblock, false, 0;
      if inodeblock[sizeSlot] > 0 {
        nlevels := CountLevels(inodeblock[sizeSlot] - 1);
      }
      if off >= inodeblock[sizeSlot] {
        inodeblock' := SetRef(inodeblock, sizeSlot, (off + 1) % WORD_LIMIT);
        dirty := true;
        nlevelsAfter := CountLevels(off);
      } else {
        nlevelsAfter := nlevels;
      }
      LevelsGrow(inodeblock[sizeSlot], off);
    }

    /** Writing block off of file ino; Finished spells out what a completed write promises.
        The write runs out of blocks just when more tree positions are missing than blocks
        are free.  The last offset is excluded: its successor is not a word (see
        SizeLawExactly). */
    method Write(ino: U32, off: U32, block: Block) returns (res: Status)
      requires Valid() && off < WORD_LIMIT - 1
      modifies this
      ensures res == Failed <==> ino >= Inodes(old(disk))
      ensures res == Failed ==> disk == old(disk) && own == old(own)
      ensures ino < Inodes(old(disk)) ==>
                var s := Start(old(disk), old(own), ino, off);
                && (res == Panicked <==> |s.MissingKeys()| > |FreeBlocks(s.own)|)
                && (res == Done ==> Valid() && Finished(s, disk, own, block))
    {
      hide Grew, Finished;
      var snapshot := GetSnapshot(ino);
      if snapshot.None? {
        return Failed;
      }
      var (superblock, inodeblock) := snapshot.value;
      var inodeBlockNo := InodeBlockNo(ino);
      ghost var s := Start(disk, own, ino, off);

      var dirty, nlevels, nlevelsAfter;
      inodeblock, dirty, nlevels, nlevelsAfter := Measure(inodeblock, SizeSlot(ino), off);
      WriteStarts(s, inodeblock);

      var ok, grown;
      ok, superblock, inodeblock, grown := Grow(ino, superblock, inodeblock, nlevels, nlevelsAfter, s);
      if !ok {
        return Panicked;
      }
      if dirty || grown {
        disk := disk[inodeBlockNo := inodeblock];
      }
      assert disk[inodeBlockNo := inodeblock] == disk;
      res := Walk(ino, off, block, superblock, inodeblock, nlevelsAfter, s);
    }

    /** One step of the walk: the block referenced from slot `slot` of block parentOff, which
        is in memory as parent; a hole is filled.  Returns that block, and its contents. */
    method Descend(superblock: Block, parentOff: nat, parent: Block, slot: nat, n: nat,
                   ghost s: Start, ghost made: set<Key>)
        returns (r: Option<U32>, superblock': Block, tib: Block, ghost made': set<Key>)
      requires s.Ok() && At(s, own, n, parentOff, slot)
      requires 0 < parentOff < |disk| && slot < REFS_PER_BLOCK && superblock == disk[0]
      requires During(s, disk[parentOff := parent], own, made)
      requires parent[slot] != 0 ==> disk[parentOff] == parent
      modifies this
      ensures r.None? ==> |s.MissingKeys()| > |FreeBlocks(s.own)|
      ensures r.Some? ==> 0 < r.value < |disk| == |old(disk)| && superblock' == disk[0]
      ensures r.Some? ==> During(s, if n == 0 then disk else disk[r.value as int := tib], own, made')
      ensures r.Some? ==> s.Path(n) in own.node && own.node[s.Path(n)] == r.value
      ensures r.Some? ==> old(own.node.Keys) <= own.node.Keys && own.height == old(own.height)
      ensures r.Some? ==> tib == NullBlock() || tib == disk[r.value]
    {
      hide Grew, Inv;
      superblock', made', tib := superblock, made, NullBlock();
      ghost var v0, own0 := disk[parentOff := parent], own;
      AtFacts(s, v0, own, made, n, parentOff, slot);
      var b := parent[slot];
      if b != 0 {
        assert v0 == disk && disk[b as int := disk[b]] == disk;
        return Some(b), superblock', disk[b], made;
      }
      r, superblock' := AllocAsideOf(superblock, parentOff, parent, s, made);
      if r.None? {
        PathIsNeeded(s, n);
        OutOfBlocks(s, v0, own0, made, s.Path(n));
        return;
      }
      b := r.value;
      ghost var v, d2 := disk[parentOff := parent], disk[parentOff := SetRef(parent, slot, b)];
      ghost var content := if n == 0 then d2[b] else tib;
      FillHole(s, v, own, made, b, n, parentOff, slot, content, d2[b as int := content]);
      assert n == 0 ==> d2[b as int := content] == d2;
      disk := disk[parentOff := SetRef(parent, slot, b)];
      own, made' := Placed(own, s.Path(n), b), made + {s.Path(n)};
    }

    /** Find the block by walking the tree, filling the holes on the way, and write it. */
    method Walk(ino: U32, off: U32, block: Block, superblock: Block, inodeblock: Block, nlevels: nat, ghost s: Start)
        returns (res: Status)
      requires s.Ok() && s.ino == ino && s.off == off && nlevels == s.Levels()
      requires 0 < InodeBlockNo(ino) < |disk| && superblock == disk[0] && inodeblock == disk[InodeBlockNo(ino)]
      requires During(s, disk, own, s.TopKeys(nlevels))
      requires HeightOf(own, ino) == nlevels
      modifies this
      ensures res != Failed
      ensures res == Panicked <==> |s.MissingKeys()| > |FreeBlocks(s.own)|
      ensures res == Done ==> Valid() && Finished(s, disk, own, block)
    {
      hide Grew, Inv, Finished, During, At, Settled;
      var superblock, n: nat := superblock, nlevels;
      var parentOff: nat, parent, slot: nat := InodeBlockNo(ino), inodeblock, RootSlot(ino);
      ghost var made := s.TopKeys(nlevels);
      var r;
      assert disk[parentOff := parent] == disk;
      MadeIsThere(s, disk, own, made);
      AtTop(s, own);
      while true
        invariant At(s, own, n, parentOff, slot) && HeightOf(own, ino) == nlevels
        invariant 0 < parentOff < |disk| && slot < REFS_PER_BLOCK && superblock == disk[0]
        invariant During(s, disk[parentOff := parent], own, made)
        invariant parent[slot] != 0 ==> disk[parentOff] == parent
        invariant s.PathKeys(n + 1) <= own.node.Keys && s.TopKeys(nlevels) <= own.node.Keys
        decreases n
      {
        ghost var own0, p0, slot0 := own, parentOff, slot;
        r, superblock, parent, made := Descend(superblock, parentOff, parent, slot, n, s, made);
        if r.None? {
          return Panicked;
        }
        s.NextPathKey(n);
        if n == 0 {
          break;
        }
        n := n - 1;
        ShiftIsDigits(off, n);
        slot := LogShiftR(off, n * LOG_RPB) % REFS_PER_BLOCK;
        parentOff := r.value;
        AtBelow(s, own0, own, n, p0, slot0, parentOff);
      }
      AllMade(s, disk, own, made);
      WriteEnds(s, disk, own, made, block, disk[r.value as int := block]);
      disk := disk[r.value as int := block];
      res := Done;
    }
  
    /** Chain the blocks from nextFree up to nblocks into a free list. */
    method SetupFreelist(nextFree: U32, nblocks: U32)
        returns (head: U32, ghost free: seq<nat>, ghost role: map<nat, Role>)
      requires 0 < nextFree <= nblocks == |disk|
      modifies this`disk
      ensures |disk| == nblocks && head == Top(free) && FreeListOk(disk, free, role)
      ensures forall b :: b in role <==> nextFree <= b < nblocks
      ensures forall b :: b in role ==> role[b].FreeNode? || role[b].FreeEntry?
    {
      var data, next := NullBlock(), nextFree;
      head, free, role := 0, [], map[];
      while next < nblocks
        invariant nextFree <= next <= nblocks == |disk|
        invariant head == Top(free) && FreeListOk(disk, free, role)
        invariant forall b :: b in role <==> nextFree <= b < next
        invariant forall b :: b in role ==> role[b].FreeNode? || role[b].FreeEntry?
      {
        data := SetRef(data, 0, head);
        head, next := next, next + 1;
        var i := 1;
        while i < REFS_PER_BLOCK && next < nblocks
          invariant 1 <= i <= REFS_PER_BLOCK && next == head + i <= nblocks
          invariant data[0] == Top(free)
          invariant forall t :: 1 <= t < i ==> data[t] == head + t
        {
          data := SetRef(data, i, next);
          next, i := next + 1, i + 1;
        }
        ghost var n := i;
        while i < REFS_PER_BLOCK
          invariant n <= i <= REFS_PER_BLOCK
          invariant data[0] == Top(free)
          invariant forall t :: 1 <= t < n ==> data[t] == head + t
          invariant forall t :: n <= t < i ==> data[t] == 0
        {
          data := SetRef(data, i, 0);
          i := i + 1;
        }
        PushNode(disk, free, role, head, n, data);
        disk := disk[head as int := data];
        free, role := free + [head as nat], NodeRoles(role, |free|, head, n);
      }
    }

    /** Create a file system, unless the store is too small or already holds one. */
    method Create(ninodes: U32) returns (ok: bool)
      requires |disk| < WORD_LIMIT
      modifies this
      ensures var nib := (ninodes + INODES_PER_BLOCK - 1) % WORD_LIMIT / INODES_PER_BLOCK;
              && (ok <==> |disk| >= nib + 2) && |disk| == |old(disk)|
              && (ok && NInodeBlocks(old(disk)[0]) == 0 ==>
                    && Valid() && NInodeBlocks(disk[0]) == nib
                    && (forall i :: 0 <= i < Inodes(disk) ==> File(disk, own, i) == [])
                    && FreeBlocks(own) == Range(nib + 1, |disk|))
              && (!ok || NInodeBlocks(old(disk)[0]) != 0 ==> disk == old(disk) && own == old(own))
    {
      var nInodeblocks := (ninodes + INODES_PER_BLOCK - 1) % WORD_LIMIT / INODES_PER_BLOCK;
      var nblocks: U32 := |disk|;
      if nblocks < nInodeblocks + 2 {
        return false;
      }
      if NInodeBlocks(disk[0]) == 0 {
        var freeList;
        ghost var free, role;
        freeList, free, role := SetupFreelist(nInodeblocks + 1, nblocks);
        ghost var d0 := disk;
        disk := disk[0 := SetRef(SetRef(NullBlock(), 0, nInodeblocks), 1, freeList)];
        ghost var d1 := disk;
        var i := 1;
        while i <= nInodeblocks
          invariant 1 <= i <= nInodeblocks + 1 && |disk| == nblocks
          invariant forall b :: 0 <= b < nblocks ==> disk[b] == if 1 <= b < i then NullBlock() else d1[b]
        {
          disk := disk[i := NullBlock()];
          i := i + 1;
        }
        own := Own(free, role, map[], seq(nInodeblocks * INODES_PER_BLOCK, _ => 0));
        FreeListElsewhere(d0, disk, free, role);
        NewFileSystem(disk, own);
      }
      return true;
    }
  }
}
