/** What holds between the individual block writes of one treedisk write. */
module TreeWrite {
  import opened TreeLayout
  import opened TreeOwnership
  import opened Words

  /** The recorded size after writing block off of a file of nblocks blocks; the increment
      is on a 32-bit word. */
  function NewSize(nblocks: U32, off: U32): U32 {
    if off >= nblocks then (off + 1) % WORD_LIMIT else nblocks
  }

  /** The size law "files grow to cover the written offset" holds except at the one offset
      whose successor is not a word; there the recorded size becomes 0. */
  lemma SizeLawExactly(nblocks: U32, off: U32)
    ensures NewSize(nblocks, off) == (if off + 1 > nblocks then off + 1 else nblocks) <==> off != WORD_LIMIT - 1
    ensures off == WORD_LIMIT - 1 ==> NewSize(nblocks, off) == 0
  {}

  function LevelsAfter(nblocks: U32, off: U32): nat {
    if off >= nblocks then Height(off) else LevelsOf(nblocks)
  }

  /** A file with block off replaced, padded with null blocks if it was shorter. */
  function Put(f: seq<Block>, off: nat, b: Block): seq<Block> {
    if off < |f| then f[off := b] else f + seq(off - |f|, _ => NullBlock()) + [b]
  }

  // ----- paths through a tree -----

  function PathKey(ino: nat, off: nat, h: nat): Key {
    Key(ino, h, Shr(off, h))
  }

  function Slot(off: nat, h: nat): nat {
    Shr(off, h) % REFS_PER_BLOCK
  }

  lemma PathStep(ino: nat, off: nat, h: nat)
    requires h > 0
    ensures Child(PathKey(ino, off, h), Slot(off, h - 1)) == PathKey(ino, off, h - 1)
    ensures Parent(PathKey(ino, off, h - 1)) == PathKey(ino, off, h)
  {
    ShrStep(off, h);
  }

  /** The path of every offset covered by a tree starts at the root. */
  lemma PathTop(ino: nat, off: U32, nblocks: U32)
    requires off < nblocks
    ensures PathKey(ino, off, LevelsOf(nblocks)) == Key(ino, LevelsOf(nblocks), 0)
  {
    HeightMonotone(off, nblocks - 1);
    HeightIsLeast(off, LevelsOf(nblocks));
  }

  /** A hole on the path means a null block at the offset. */
  lemma {:induction false} HoleOnPath(d: seq<Block>, own: Own, ino: nat, off: nat, h: nat)
    requires TreeInv(d, own) && ino < Inodes(d)
    requires h <= own.height[ino] && PathKey(ino, off, h) !in own.node
    ensures Key(ino, 0, off) !in own.node
    decreases h
  {
    if h > 0 {
      PathStep(ino, off, h);
      var k := PathKey(ino, off, h - 1);
      assert k in own.node ==> KeyOk(d, own, k);
      HoleOnPath(d, own, ino, off, h - 1);
    }
  }

  // ----- allocation while one block is still only in memory -----

  /** Allocation on the disk and on the disk with block p as it is in memory agree. */
  lemma AllocAside(d: seq<Block>, own: Own, p: nat, blk: Block)
    requires 0 < p < |d| && Inv(d[p := blk], own)
    requires p in own.role ==> !own.role[p].FreeNode?
    requires Head(d) != 0
    ensures Head(d) < |d|
    ensures AllocBlockNo(d[p := blk]) == AllocBlockNo(d)
    ensures AllocDisk(d[p := blk]) == AllocDisk(d)[p := blk]
  {
    AllocPicksFree(d[p := blk], own);
  }

  /** With an empty list nothing is free. */
  lemma NothingFree(d: seq<Block>, own: Own)
    requires Inv(d, own) && Head(d) == 0
    ensures FreeBlocks(own) == {}
  {
    assert own.free != [] ==> NodeOk(d, own.free, own.role, |own.free| - 1);
    assert own.free == [];
    forall b | b in own.role
      ensures b !in FreeBlocks(own)
    {
      assert FoundAgain(d, own.free, own.role, b);
    }
  }

  // ----- the running invariant of a write -----

  /** What a write starts from. */
  datatype Start = Start(d: seq<Block>, own: Own, ino: nat, off: U32)
  {
    ghost predicate Ok() {
      match this case Start(_, _, _, _) =>
        Inv(d, own) && Settled(d, own) && ino < Inodes(d) && off < WORD_LIMIT - 1
    }

    function SizeBefore(): U32 { Size(d, ino) }

    function Levels(): nat { LevelsAfter(SizeBefore(), off) }

    /** The unoccupied ones among the positions that the write passes through or adds on top. */
    ghost function MissingKeys(): set<Key> { PathKeys(0) + TopKeys(Levels()) - own.node.Keys }

    function Path(h: nat): Key { PathKey(ino, off, h) }

    /** Positions of the levels added on top, up to level n. */
    ghost function TopKeys(n: nat): set<Key> {
      set h: nat | LevelsOf(SizeBefore()) < h <= n :: Key(ino, h, 0)
    }

    lemma NoTopKeys()
      ensures TopKeys(LevelsOf(SizeBefore())) == {}
    {}

    lemma NextTopKey(n: nat)
      requires LevelsOf(SizeBefore()) <= n
      ensures TopKeys(n) + {Key(ino, n + 1, 0)} == TopKeys(n + 1)
    {
      assert TopKeys(n) + {Key(ino, n + 1, 0)} <= TopKeys(n + 1);
    }

    /** Positions on the path from the root down to height n. */
    ghost function PathKeys(n: nat): set<Key> {
      set h: nat | n <= h <= Levels() :: Path(h)
    }

    lemma NextPathKey(n: nat)
      requires n <= Levels()
      ensures PathKeys(n) == PathKeys(n + 1) + {Path(n)}
    {
      assert PathKeys(n + 1) + {Path(n)} <= PathKeys(n);
    }
  }

  /** Positions are only added, those in made, and each took one free block; flight counts the
      blocks allocated but not yet linked. */
  ghost predicate Counted(own0: Own, own: Own, made: set<Key>, flight: nat) {
    && own.node.Keys == own0.node.Keys + made
    && (forall k {:trigger own.node[k]} :: k in own0.node ==> own.node[k] == own0.node[k])
    && FreeBlocks(own) <= FreeBlocks(own0)
    && |FreeBlocks(own)| + |made| + flight == |FreeBlocks(own0)|
  }

  /** v is the disk with the block in memory applied, made are the positions filled so far. */
  ghost predicate Grew(s: Start, v: seq<Block>, own: Own, made: set<Key>, flight: nat) {
    match s case Start(d0, own0, ino, off) =>
      && Inv(v, own)
      && |v| == |d0| && ino < Inodes(d0) && Inodes(v) == Inodes(d0) && |own.height| == |own0.height|
      && (forall i :: 0 <= i < Inodes(d0) && i != ino ==>
            i < |own.height| && Size(v, i) == Size(d0, i) && own.height[i] == own0.height[i])
      && Size(v, ino) == NewSize(s.SizeBefore(), off)
      && SameContents(d0, own0, v, own, s.Path(0))
      && (forall k {:trigger k in made} :: k in made ==> k in s.MissingKeys())
      && Counted(own0, own, made, flight)
  }

  ghost predicate NoneHeld(own: Own) {
    forall b :: b in own.role ==> !own.role[b].Held?
  }

  ghost predicate During(s: Start, v: seq<Block>, own: Own, made: set<Key>) {
    match s case Start(_, _, _, _) => Grew(s, v, own, made, 0) && NoneHeld(own)
  }

  ghost predicate InFlight(s: Start, v: seq<Block>, own: Own, made: set<Key>, b: U32) {
    match s case Start(_, _, _, _) =>
      && Grew(s, v, own, made, 1)
      && (forall x :: x in own.role && own.role[x].Held? ==> x == b as nat)
      && b != 0 && b as nat in own.role && own.role[b] == Held
  }

  /** Allocation inside a write: one free block is now in flight, nothing else changed. */
  lemma AllocDuring(s: Start, v: seq<Block>, own: Own, made: set<Key>)
    requires During(s, v, own, made) && Head(v) != 0
    ensures InFlight(s, AllocDisk(v), AllocOwn(v, own), made, AllocBlockNo(v))
    ensures SameSizes(v, AllocDisk(v))
    ensures forall i :: 0 <= i < Inodes(v) ==> Root(AllocDisk(v), i) == Root(v, i)
    ensures forall q :: q in own.node ==> NodeAt(AllocDisk(v), own, q) == NodeAt(v, own, q)
  {
    var v1, own1 := AllocDisk(v), AllocOwn(v, own);
    AllocPicksFree(v, own);
    AllocStep(v, own);
    SameInodes(v, v1);
    forall q | q in own.node
      ensures NodeAt(v1, own1, q) == NodeAt(v, own, q)
    {
      assert KeyOk(v, own, q);
    }
    forall i, o | Key(i, 0, o) != s.Path(0)
      ensures Content(v1, own1, i, o) == Content(s.d, s.own, i, o)
    {
      assert Content(v, own, i, o) == Content(s.d, s.own, i, o);
      assert NodeAt(v1, own1, Key(i, 0, o)) == NodeAt(v, own, Key(i, 0, o));
    }
  }

  lemma ContentsChain(d0: seq<Block>, own0: Own, d1: seq<Block>, own1: Own, d2: seq<Block>, own2: Own, e: Key, k: Key)
    requires SameContents(d0, own0, d1, own1, e) && SameContents(d1, own1, d2, own2, k)
    requires k.h == 0 ==> k == e
    ensures SameContents(d0, own0, d2, own2, e)
  {
    forall i, o | Key(i, 0, o) != e
      ensures Content(d2, own2, i, o) == Content(d0, own0, i, o)
    {
      assert Content(d1, own1, i, o) == Content(d0, own0, i, o);
    }
  }

  lemma LinkingFreesNothing(own: Own, own': Own, b: nat, k: Key)
    requires b in own.role && own.role[b] == Held && own'.role == own.role[b := Tree(k)]
    ensures FreeBlocks(own') == FreeBlocks(own)
  {}

  lemma OneKeyMore(keys: set<Key>, node: map<Key, nat>, made: set<Key>, b: nat, k: Key)
    requires node.Keys == keys + made && k !in node
    ensures node[k := b].Keys == keys + (made + {k}) && |made + {k}| == |made| + 1
  {
    assert k !in node.Keys;
    assert node[k := b].Keys == node.Keys + {k};
  }

  lemma OneMore(own0: Own, own: Own, own': Own, made: set<Key>, b: nat, k: Key)
    requires Counted(own0, own, made, 1) && b in own.role && own.role[b] == Held && k !in own.node
    requires own'.node == own.node[k := b] && own'.role == own.role[b := Tree(k)]
    ensures Counted(own0, own', made + {k}, 0)
  {
    hide FreeBlocks;
    LinkingFreesNothing(own, own', b, k);
    OneKeyMore(own0.node.Keys, own.node, made, b, k);
    forall q | q in own0.node
      ensures own'.node[q] == own0.node[q]
    {
      assert q in own0.node.Keys;
    }
  }

  /** Linking the block in flight at a needed position k completes one step. */
  lemma StepDone(s: Start, v: seq<Block>, own: Own, made: set<Key>, b: U32, k: Key, v': seq<Block>, own': Own)
    requires InFlight(s, v, own, made, b)
    requires k in s.MissingKeys() && k !in own.node
    requires k.h == 0 ==> k == s.Path(0)
    requires own'.node == own.node[k := b as nat] && own'.role == own.role[b as nat := Tree(k)]
    requires |own'.height| == |own.height|
    requires forall i :: 0 <= i < |own.height| && i != s.ino ==> own'.height[i] == own.height[i]
    requires Inv(v', own') && |v'| == |v| && SameSizes(v, v')
    requires SameContents(v, own, v', own', k)
    ensures During(s, v', own', made + {k})
  {
    hide FreeInv, TreeInv, SameContents, Start.MissingKeys, Counted;
    OneMore(s.own, own, own', made, b, k);
    ContentsChain(s.d, s.own, v, own, v', own', s.Path(0), k);
  }

  lemma SizeCovers(s: Start, v: seq<Block>, own: Own, made: set<Key>, flight: nat)
    requires s.Ok() && Grew(s, v, own, made, flight)
    ensures s.off < Size(v, s.ino)
  {}

  lemma PathIsNeeded(s: Start, h: nat)
    requires h <= s.Levels() && s.Path(h) !in s.own.node
    ensures s.Path(h) in s.MissingKeys()
  {
  }

  lemma AboveTop(v: seq<Block>, own: Own, ino: nat)
    requires Inv(v, own)
    ensures Key(ino, HeightOf(own, ino) + 1, 0) !in own.node
  {
    var k := Key(ino, HeightOf(own, ino) + 1, 0);
    assert k in own.node ==> KeyOk(v, own, k);
  }

  /** One more level on top. */
  lemma StepGrow(s: Start, v: seq<Block>, own: Own, made: set<Key>, b: U32, v': seq<Block>)
    requires s.Ok() && InFlight(s, v, own, made, b)
    requires LevelsOf(s.SizeBefore()) <= HeightOf(own, s.ino) < s.Levels()
    requires InodeBlockNo(s.ino) < |v|
    requires v' == v[b := SetRef(NullBlock(), 0, Root(v, s.ino))]
                    [InodeBlockNo(s.ino) := SetRef(v[InodeBlockNo(s.ino)], RootSlot(s.ino), b)]
    ensures HeightOf(Grown(own, s.ino, b), s.ino) == HeightOf(own, s.ino) + 1
    ensures During(s, v', Grown(own, s.ino, b), made + {Key(s.ino, HeightOf(own, s.ino) + 1, 0)})
  {
    hide Inv, SameContents, NodeAt, LevelsOf, SetRef, Root, SameSizes, NInodeBlocks;
    var k := Key(s.ino, HeightOf(own, s.ino) + 1, 0);
    GrowTree(v, own, s.ino, b, v');
    AboveTop(v, own, s.ino);
    StepDone(s, v, own, made, b, k, v', Grown(own, s.ino, b));
  }

  /** A hole at the root filled. */
  lemma StepRoot(s: Start, v: seq<Block>, own: Own, made: set<Key>, b: U32, content: Block, v': seq<Block>)
    requires s.Ok() && InFlight(s, v, own, made, b)
    requires HeightOf(own, s.ino) == s.Levels() && s.Path(s.Levels()).idx == 0
    requires Root(v, s.ino) == 0
    requires s.Levels() > 0 ==> content == NullBlock()
    requires InodeBlockNo(s.ino) < |v|
    requires v' == v[InodeBlockNo(s.ino) := SetRef(v[InodeBlockNo(s.ino)], RootSlot(s.ino), b)][b := content]
    ensures During(s, v', Placed(own, s.Path(s.Levels()), b), made + {s.Path(s.Levels())})
  {
    var k := s.Path(s.Levels());
    assert Linked(own.node, Root(v, s.ino), k);
    PathIsNeeded(s, k.h);
    LinkRoot(v, own, s.ino, b, content, v');
    RootWritten(v, v', s.ino, b);
    StepDone(s, v, own, made, b, k, v', Placed(own, k, b));
  }

  /** A hole further down the path filled. */
  lemma StepChild(s: Start, v: seq<Block>, own: Own, made: set<Key>, b: U32, h: nat, content: Block, v': seq<Block>)
    requires s.Ok() && InFlight(s, v, own, made, b)
    requires h < s.Levels() && KeyOk(v, own, s.Path(h + 1))
    requires NodeAt(v, own, s.Path(h + 1))[Slot(s.off, h)] == 0
    requires h > 0 ==> content == NullBlock()
    requires var p := own.node[s.Path(h + 1)];
             v' == v[p := SetRef(v[p], Slot(s.off, h), b)][b := content]
    ensures During(s, v', Placed(own, s.Path(h), b), made + {s.Path(h)})
  {
    var k := s.Path(h);
    SizeCovers(s, v, own, made, 1);
    LinkOnPath(v, own, s.ino, s.off, b, h, content, v');
    PathIsNeeded(s, h);
    StepDone(s, v, own, made, b, k, v', Placed(own, k, b));
  }

  lemma LinkOnPath(v: seq<Block>, own: Own, ino: nat, off: nat, b: U32, h: nat, content: Block, v': seq<Block>)
    requires Inv(v, own) && KeyOk(v, own, PathKey(ino, off, h + 1))
    requires NodeAt(v, own, PathKey(ino, off, h + 1))[Slot(off, h)] == 0
    requires b as nat in own.role && own.role[b] == Held
    requires h > 0 ==> content == NullBlock()
    requires off < Size(v, ino)
    requires var p := own.node[PathKey(ino, off, h + 1)];
             v' == v[p := SetRef(v[p], Slot(off, h), b)][b := content]
    ensures PathKey(ino, off, h) !in own.node
    ensures Inv(v', Placed(own, PathKey(ino, off, h), b))
    ensures SameSizes(v, v') && |v'| == |v|
    ensures SameContents(v, own, v', Placed(own, PathKey(ino, off, h), b), PathKey(ino, off, h))
  {
    var p := PathKey(ino, off, h + 1);
    PathStep(ino, off, h + 1);
    assert Linked(own.node, NodeAt(v, own, p)[Slot(off, h)], Child(p, Slot(off, h)));
    LinkChild(v, own, p, Slot(off, h), b, content, v');
    SameInodes(v, v');
  }

  // ----- the walk -----

  /** The reference to the path's node of height h is in slot `slot` of block p. */
  ghost predicate At(s: Start, own: Own, h: nat, p: nat, slot: nat) {
    && h <= s.Levels()
    && HeightOf(own, s.ino) == s.Levels()
    && if h == s.Levels() then p == InodeBlockNo(s.ino) && slot == RootSlot(s.ino)
       else s.Path(h + 1) in own.node && own.node[s.Path(h + 1)] == p && slot == Slot(s.off, h)
  }

  lemma TopOfPath(s: Start)
    requires s.Ok()
    ensures s.Path(s.Levels()).idx == 0
  {
    if s.off >= s.SizeBefore() {
      HeightIsLeast(s.off, s.Levels());
    } else {
      PathTop(s.ino, s.off, s.SizeBefore());
    }
  }

  lemma AtTop(s: Start, own: Own)
    requires HeightOf(own, s.ino) == s.Levels()
    ensures At(s, own, s.Levels(), InodeBlockNo(s.ino), RootSlot(s.ino))
  {}

  lemma AtBelow(s: Start, own: Own, own': Own, h: nat, p: nat, slot: nat, b: nat)
    requires At(s, own, h + 1, p, slot) && own'.height == own.height
    requires s.Path(h + 1) in own'.node && own'.node[s.Path(h + 1)] == b
    ensures At(s, own', h, b, Slot(s.off, h))
  {}

  lemma AtFacts(s: Start, v: seq<Block>, own: Own, made: set<Key>, h: nat, p: nat, slot: nat)
    requires s.Ok() && During(s, v, own, made) && At(s, own, h, p, slot)
    ensures 0 < p < |v| && slot < REFS_PER_BLOCK && h <= s.Levels()
    ensures p in own.role ==> own.role[p].Tree?
    ensures Linked(own.node, v[p][slot], s.Path(h))
    ensures v[p][slot] != 0 ==> KeyOk(v, own, s.Path(h)) && v[p][slot] != p && v[p][slot] < |v|
    ensures made <= own.node.Keys && s.own.node.Keys <= own.node.Keys
  {
    TopOfPath(s);
    if h < s.Levels() {
      RefBelow(v, own, s.ino, s.off, h);
    } else {
      assert Linked(own.node, Root(v, s.ino), Key(s.ino, own.height[s.ino], 0));
      assert v[p][slot] != 0 ==> KeyOk(v, own, s.Path(h));
    }
  }

  lemma RefBelow(v: seq<Block>, own: Own, ino: nat, off: nat, h: nat)
    requires Inv(v, own) && PathKey(ino, off, h + 1) in own.node
    ensures var p := own.node[PathKey(ino, off, h + 1)];
            && 0 < p < |v| && p in own.role && own.role[p].Tree?
            && Linked(own.node, v[p][Slot(off, h)], PathKey(ino, off, h))
            && (v[p][Slot(off, h)] != 0 ==>
                  KeyOk(v, own, PathKey(ino, off, h)) && v[p][Slot(off, h)] != p && v[p][Slot(off, h)] < |v|)
  {
    var k := PathKey(ino, off, h + 1);
    PathStep(ino, off, h + 1);
    assert KeyOk(v, own, k);
    assert Linked(own.node, NodeAt(v, own, k)[Slot(off, h)], Child(k, Slot(off, h)));
    assert PathKey(ino, off, h) in own.node ==> KeyOk(v, own, PathKey(ino, off, h));
  }

  /** Filling the hole the walk has come to. */
  lemma FillHole(s: Start, v: seq<Block>, own: Own, made: set<Key>, b: U32, h: nat, p: nat, slot: nat,
                 content: Block, v': seq<Block>)
    requires s.Ok() && InFlight(s, v, own, made, b) && At(s, own, h, p, slot)
    requires p < |v| && slot < REFS_PER_BLOCK && v[p][slot] == 0
    requires h > 0 ==> content == NullBlock()
    requires v' == v[p := SetRef(v[p], slot, b)][b := content]
    ensures During(s, v', Placed(own, s.Path(h), b), made + {s.Path(h)})
  {
    TopOfPath(s);
    if h == s.Levels() {
      StepRoot(s, v, own, made, b, content, v');
    } else {
      assert KeyOk(v, own, s.Path(h + 1));
      StepChild(s, v, own, made, b, h, content, v');
    }
  }

  // ----- how a write ends -----

  lemma MadeIsThere(s: Start, v: seq<Block>, own: Own, made: set<Key>)
    requires During(s, v, own, made)
    ensures made <= own.node.Keys
  {}

  /** Running out of blocks while a needed position is unfilled: more was needed than free. */
  lemma OutOfBlocks(s: Start, v: seq<Block>, own: Own, made: set<Key>, k: Key)
    requires During(s, v, own, made) && Head(v) == 0
    requires k in s.MissingKeys() && k !in own.node
    ensures |s.MissingKeys()| > |FreeBlocks(s.own)|
  {
    NothingFree(v, own);
    assert made <= s.MissingKeys();
    CardSubset(made, s.MissingKeys());
  }

  /** With every needed position filled, exactly the missing ones were created. */
  lemma AllMade(s: Start, v: seq<Block>, own: Own, made: set<Key>)
    requires During(s, v, own, made)
    requires s.PathKeys(0) <= own.node.Keys && s.TopKeys(s.Levels()) <= own.node.Keys
    ensures made == s.MissingKeys()
    ensures |s.MissingKeys()| <= |FreeBlocks(s.own)|
  {
    assert made <= s.MissingKeys();
  }

  lemma LevelsGrow(nblocks: U32, off: U32)
    ensures LevelsOf(nblocks) <= LevelsAfter(nblocks, off) <= 5
    ensures off < WORD_LIMIT - 1 ==> LevelsAfter(nblocks, off) == LevelsOf(NewSize(nblocks, off))
  {
    HeightBound(off);
    if nblocks > 0 {
      HeightBound(nblocks - 1);
      if off >= nblocks { HeightMonotone(nblocks - 1, off); }
    }
  }

  /** The files after the data block itself is written. */
  lemma FilesAfter(s: Start, d: seq<Block>, own: Own, block: Block)
    requires s.Ok() && Inv(d, own)
    requires |d| == |s.d| && Inodes(d) == Inodes(s.d)
    requires SameContents(s.d, s.own, d, own, s.Path(0))
    requires Content(d, own, s.ino, s.off) == block
    requires Size(d, s.ino) == NewSize(s.SizeBefore(), s.off)
    requires forall i :: 0 <= i < Inodes(s.d) && i != s.ino ==> Size(d, i) == Size(s.d, i)
    ensures File(d, own, s.ino) == Put(File(s.d, s.own, s.ino), s.off, block)
    ensures forall i :: 0 <= i < Inodes(s.d) && i != s.ino ==> File(d, own, i) == File(s.d, s.own, i)
  {
    var f, g := File(d, own, s.ino), Put(File(s.d, s.own, s.ino), s.off, block);
    assert |f| == |g|;
    forall o | 0 <= o < |f|
      ensures f[o] == g[o]
    {
      if o != s.off {
        assert Content(d, own, s.ino, o) == Content(s.d, s.own, s.ino, o);
        if o >= s.SizeBefore() {
          NothingBeyondSize(s.d, s.own, s.ino, o);
        }
      }
    }
    forall i | 0 <= i < Inodes(s.d) && i != s.ino
      ensures File(d, own, i) == File(s.d, s.own, i)
    {
      forall o: nat
        ensures Content(d, own, i, o) == Content(s.d, s.own, i, o)
      {
        assert Key(i, 0, o) != s.Path(0);
      }
      assert File(d, own, i) == File(s.d, s.own, i);
    }
  }

  /** Before a level is added its position is missing. */
  lemma NotYet(s: Start, v: seq<Block>, own: Own, made: set<Key>)
    requires s.Ok() && During(s, v, own, made)
    requires LevelsOf(s.SizeBefore()) <= HeightOf(own, s.ino) < s.Levels()
    ensures var k := Key(s.ino, HeightOf(own, s.ino) + 1, 0);
            k !in own.node && k in s.MissingKeys()
  {
    var k := Key(s.ino, HeightOf(own, s.ino) + 1, 0);
    assert k in own.node ==> KeyOk(v, own, k);
  }

  /** The superblock on the disk is the one of the disk with block p applied. */
  lemma AllocReady(s: Start, d: seq<Block>, own: Own, made: set<Key>, p: nat, blk: Block)
    requires 0 < p < |d| && During(s, d[p := blk], own, made)
    ensures Head(d) == Head(d[p := blk]) < |d|
  {
    if Head(d) != 0 {
      AllocPicksFree(d[p := blk], own);
    }
  }

  lemma AllocDone(s: Start, d: seq<Block>, own: Own, made: set<Key>, p: nat, blk: Block)
    requires 0 < p < |d| && During(s, d[p := blk], own, made) && Head(d) != 0
    requires p in own.role ==> !own.role[p].FreeNode?
    ensures var b, own' := AllocBlockNo(d), AllocOwn(d[p := blk], own);
            && InFlight(s, AllocDisk(d)[p := blk], own', made, b)
            && own'.node == own.node && own'.height == own.height && own'.role.Keys == own.role.Keys
            && b < |d| && b as nat in own.role && !own.role[b].Tree?
  {
    AllocReady(s, d, own, made, p, blk);
    AllocAside(d, own, p, blk);
    AllocDuring(s, d[p := blk], own, made);
    AllocPicksFree(d[p := blk], own);
    hide AllocBlockNo, AllocDisk, FreeInv, TreeInv, InFlight;
  }

  /** The inode as a write records the new size in it. */
  lemma WriteStarts(s: Start, inodeblock: Block)
    requires s.Ok() && InodeBlockNo(s.ino) < |s.d|
    requires inodeblock == SetRef(s.d[InodeBlockNo(s.ino)], SizeSlot(s.ino), NewSize(s.SizeBefore(), s.off))
    ensures During(s, s.d[InodeBlockNo(s.ino) := inodeblock], s.own, {})
    ensures InodeBlockNo(s.ino) !in s.own.role
  {
    Resize(s.d, s.own, s.ino, NewSize(s.SizeBefore(), s.off), s.d[InodeBlockNo(s.ino) := inodeblock]);
  }

  /** What a completed write promises. */
  ghost predicate Finished(s: Start, d: seq<Block>, own: Own, block: Block) {
    match s case Start(d0, own0, ino, off) =>
      && Inv(d, own) && Settled(d, own)
      && |d| == |d0| && Inodes(d) == Inodes(d0)
      && File(d, own, ino) == Put(File(d0, own0, ino), off, block)
      && (forall i :: 0 <= i < Inodes(d) && i != ino ==> File(d, own, i) == File(d0, own0, i))
      && own.node.Keys == own0.node.Keys + s.MissingKeys()
      && (forall k {:trigger own.node[k]} :: k in own0.node ==> own.node[k] == own0.node[k])
      && FreeBlocks(own) <= FreeBlocks(own0)
      && |FreeBlocks(own)| + |s.MissingKeys()| == |FreeBlocks(own0)|
  }

  lemma WriteEnds(s: Start, d: seq<Block>, own: Own, made: set<Key>, block: Block, d': seq<Block>)
    requires s.Ok() && During(s, d, own, made) && made == s.MissingKeys()
    requires s.Path(0) in own.node && HeightOf(own, s.ino) == s.Levels()
    requires own.node[s.Path(0)] < |d| && d' == d[own.node[s.Path(0)] := block]
    ensures Inv(d', own) && Settled(d', own) && Finished(s, d', own, block)
  {
    assert KeyOk(d, own, s.Path(0));
    WriteLeaf(d, own, s.Path(0), block, d');
    SameInodes(d, d');
    ContentsChain(s.d, s.own, d, own, d', own, s.Path(0), s.Path(0));
    FilesAfter(s, d', own, block);
    LevelsGrow(s.SizeBefore(), s.off);
  }

  /** A file system with zeroed inodes and every block behind them on the free list. */
  lemma NewFileSystem(d: seq<Block>, own: Own)
    requires 0 < |d| < WORD_LIMIT && NInodeBlocks(d[0]) + 1 <= |d| && Inodes(d) < WORD_LIMIT
    requires FreeInv(d, own) && own.node == map[]
    requires forall b :: b in own.role <==> NInodeBlocks(d[0]) < b < |d|
    requires forall b :: b in own.role ==> own.role[b].FreeNode? || own.role[b].FreeEntry?
    requires own.height == seq(Inodes(d), _ => 0)
    requires forall b :: 1 <= b <= NInodeBlocks(d[0]) ==> d[b] == NullBlock()
    ensures Inv(d, own) && Settled(d, own)
    ensures forall i :: 0 <= i < Inodes(d) ==> File(d, own, i) == []
    ensures FreeBlocks(own) == Range(NInodeBlocks(d[0]) + 1, |d|)
  {
    hide FreeInv;
    forall i | 0 <= i < Inodes(d)
      ensures Root(d, i) == 0 && Size(d, i) == 0
    {
      assert 1 <= InodeBlockNo(i) <= NInodeBlocks(d[0]);
    }
    hide Root, Size, NInodeBlocks;
  }
}
