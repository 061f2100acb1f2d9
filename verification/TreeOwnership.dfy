/** Who owns each block of a treedisk, and how one step of the code changes that.

    Every node of every file tree has a position (file, height, index); its index counts
    nodes of that height from the left, so a position never changes when the tree gains a
    level.  Ownership is a map from positions to blocks together with its inverse. */
module TreeOwnership {
  import opened TreeLayout
  import opened Words

  datatype Key = Key(ino: nat, h: nat, idx: nat)

  datatype Role =
    | FreeNode(j: nat)          // list node number j, counted from the bottom of the stack
    | FreeEntry(j: nat, i: nat) // the block referenced from slot i of list node j
    | Held                      // allocated, not yet linked anywhere
    | Tree(key: Key)

  datatype Own = Own(
    free: seq<nat>,         // free-list nodes, bottom of the stack first
    role: map<nat, Role>,   // one role per block
    node: map<Key, nat>,    // the block at each occupied tree position
    height: seq<nat>)       // current number of tree levels per file

  function Child(k: Key, i: nat): Key
    requires k.h > 0
  {
    Key(k.ino, k.h - 1, k.idx * REFS_PER_BLOCK + i)
  }

  function Parent(k: Key): Key {
    Key(k.ino, k.h + 1, k.idx / REFS_PER_BLOCK)
  }

  lemma ParentOfChild(k: Key, i: nat)
    requires k.h > 0 && i < REFS_PER_BLOCK
    ensures Parent(Child(k, i)) == k && Child(k, i).idx % REFS_PER_BLOCK == i
  {}

  function Top(s: seq<nat>): nat {
    if s == [] then 0 else s[|s| - 1]
  }

  function BlockAt(d: seq<Block>, b: nat): Block {
    if b < |d| then d[b] else NullBlock()
  }

  function Inodes(d: seq<Block>): nat {
    NInodeBlocks(BlockAt(d, 0)) * INODES_PER_BLOCK
  }

  function Root(d: seq<Block>, ino: nat): U32 {
    BlockAt(d, InodeBlockNo(ino))[RootSlot(ino)]
  }

  function Size(d: seq<Block>, ino: nat): U32 {
    BlockAt(d, InodeBlockNo(ino))[SizeSlot(ino)]
  }

  /** The block at a tree position. */
  ghost function NodeAt(d: seq<Block>, own: Own, k: Key): Block {
    if k in own.node then BlockAt(d, own.node[k]) else NullBlock()
  }

  // ----- the invariant -----

  function HeightOf(own: Own, ino: nat): nat {
    if ino < |own.height| then own.height[ino] else 0
  }

  ghost predicate Shape(d: seq<Block>, own: Own) {
    && 0 < |d| < WORD_LIMIT
    && NInodeBlocks(d[0]) + 1 <= |d|
    && Inodes(d) < WORD_LIMIT
    && |own.height| == Inodes(d)
    && (forall b :: b in own.role <==> NInodeBlocks(d[0]) < b < |d|)
  }

  ghost predicate NodeOk(d: seq<Block>, free: seq<nat>, role: map<nat, Role>, j: nat) {
    && j < |free| && free[j] in role && role[free[j]] == FreeNode(j)
    && free[j] < |d|
    && d[free[j]][0] == Top(free[..j])
    && (forall i :: 1 <= i < REFS_PER_BLOCK && d[free[j]][i] != 0 ==>
          d[free[j]][i] in role && role[d[free[j]][i]] == FreeEntry(j, i))
  }

  ghost predicate FoundAgain(d: seq<Block>, free: seq<nat>, role: map<nat, Role>, b: nat) {
    b in role &&
    match role[b]
    case FreeNode(j) => j < |free| && free[j] == b
    case FreeEntry(j, i) => j < |free| && free[j] < |d| && 1 <= i < REFS_PER_BLOCK && d[free[j]][i] == b
    case _ => true
  }

  /** Every list node is linked to the one below it, and every block with a free role is
      found again in the list. */
  ghost predicate FreeListOk(d: seq<Block>, free: seq<nat>, role: map<nat, Role>) {
    && (forall j {:trigger NodeOk(d, free, role, j)} :: 0 <= j < |free| ==> NodeOk(d, free, role, j))
    && (forall b {:trigger FoundAgain(d, free, role, b)} :: b in role ==> FoundAgain(d, free, role, b))
  }

  ghost predicate FreeInv(d: seq<Block>, own: Own) {
    && Head(d) == Top(own.free)
    && FreeListOk(d, own.free, own.role)
  }

  /** The reference found at a position agrees with the map: 0 for a hole, else the block. */
  ghost predicate Linked(node: map<Key, nat>, ref: nat, k: Key) {
    if ref == 0 then k !in node else k in node && node[k] == ref
  }

  ghost predicate KeyOk(d: seq<Block>, own: Own, k: Key) {
    && k in own.node && own.node[k] in own.role && own.role[own.node[k]] == Tree(k)
    && k.ino < Inodes(d) && k.ino < |own.height|
    && k.h <= own.height[k.ino]
    && (k.h == own.height[k.ino] ==> k.idx == 0)
    && (k.h < own.height[k.ino] ==> Parent(k) in own.node)
    && (k.h == 0 ==> k.idx < Size(d, k.ino))
    && (k.h > 0 ==> forall i {:trigger Child(k, i)} :: 0 <= i < REFS_PER_BLOCK ==>
          Linked(own.node, NodeAt(d, own, k)[i], Child(k, i)))
  }

  ghost predicate TreeInv(d: seq<Block>, own: Own) {
    && |own.height| == Inodes(d)
    && (forall k {:trigger KeyOk(d, own, k)} :: k in own.node ==> KeyOk(d, own, k))
    && (forall b {:trigger own.role[b]} :: b in own.role && own.role[b].Tree? ==>
          own.role[b].key in own.node && own.node[own.role[b].key] == b)
    && (forall ino {:trigger Root(d, ino)} :: 0 <= ino < Inodes(d) ==>
          Linked(own.node, Root(d, ino), Key(ino, own.height[ino], 0)))
  }

  ghost predicate Inv(d: seq<Block>, own: Own) {
    && Shape(d, own)
    && FreeInv(d, own)
    && TreeInv(d, own)
  }

  /** Between calls no block is in flight and heights match the recorded sizes. */
  ghost predicate Settled(d: seq<Block>, own: Own) {
    && |own.height| == Inodes(d)
    && (forall b :: b in own.role ==> !own.role[b].Held?)
    && (forall ino :: 0 <= ino < Inodes(d) ==> own.height[ino] == LevelsOf(Size(d, ino)))
  }

  ghost function FreeBlocks(own: Own): set<nat> {
    set b | b in own.role && (own.role[b].FreeNode? || own.role[b].FreeEntry?)
  }

  // ----- what a file holds -----

  ghost function Content(d: seq<Block>, own: Own, ino: nat, off: nat): Block {
    NodeAt(d, own, Key(ino, 0, off))
  }

  ghost function File(d: seq<Block>, own: Own, ino: nat): (f: seq<Block>)
    ensures |f| == Size(d, ino)
  {
    seq(Size(d, ino), off requires 0 <= off => Content(d, own, ino, off))
  }

  // ----- allocation -----

  /** The highest occupied slot other than slot 0, or 0 if there is none. */
  function LastRef(b: Block, upto: nat): (i: nat)
    requires upto <= REFS_PER_BLOCK
    ensures i == 0 || (i < upto && b[i] != 0)
    ensures forall t :: i < t < upto ==> b[t] == 0
  {
    if upto <= 1 then 0
    else if b[upto - 1] != 0 then upto - 1
    else LastRef(b, upto - 1)
  }

  function Head(d: seq<Block>): U32 {
    FreeList(BlockAt(d, 0))
  }

  function AllocSlot(d: seq<Block>): (i: nat)
    ensures i < REFS_PER_BLOCK
  {
    LastRef(BlockAt(d, Head(d)), REFS_PER_BLOCK)
  }

  function AllocBlockNo(d: seq<Block>): U32 {
    if AllocSlot(d) == 0 then Head(d) else BlockAt(d, Head(d))[AllocSlot(d)]
  }

  function AllocDisk(d: seq<Block>): (d': seq<Block>)
    ensures |d'| == |d|
  {
    if Head(d) >= |d| then d
    else if AllocSlot(d) == 0 then d[0 := SetRef(d[0], 1, d[Head(d)][0])]
    else d[Head(d) as int := SetRef(d[Head(d)], AllocSlot(d), 0)]
  }

  ghost function AllocOwn(d: seq<Block>, own: Own): Own {
    own.(free := if AllocSlot(d) == 0 && own.free != [] then own.free[..|own.free| - 1] else own.free,
         role := own.role[AllocBlockNo(d) as nat := Held])
  }

  /** Taking the entry in slot i of the top list node. */
  lemma TakeEntry(d: seq<Block>, own: Own, i: nat)
    requires Shape(d, own) && FreeInv(d, own)
    requires own.free != [] && Top(own.free) < |d|
    requires 1 <= i < REFS_PER_BLOCK && d[Top(own.free)][i] != 0
    ensures var head, b: nat := Top(own.free), d[Top(own.free)][i];
            FreeListOk(d[head := SetRef(d[head], i, 0)], own.free, own.role[b := Held])
  {
    var top := |own.free| - 1;
    var head, b: nat := own.free[top], d[own.free[top]][i];
    assert NodeOk(d, own.free, own.role, top);
    var d', role' := d[head := SetRef(d[head], i, 0)], own.role[b := Held];
    forall j | 0 <= j < |own.free|
      ensures NodeOk(d', own.free, role', j)
    {
      assert NodeOk(d, own.free, own.role, j);
    }
    forall a | a in role'
      ensures FoundAgain(d', own.free, role', a)
    {
      assert FoundAgain(d, own.free, own.role, a);
    }
  }

  /** Taking the top list node itself once it lists no more blocks. */
  lemma TakeNode(d: seq<Block>, own: Own, d': seq<Block>)
    requires Shape(d, own) && FreeInv(d, own)
    requires own.free != [] && Top(own.free) < |d| && |d'| == |d|
    requires forall i :: 1 <= i < REFS_PER_BLOCK ==> d[Top(own.free)][i] == 0
    requires forall b :: 0 < b < |d| ==> d'[b] == d[b]
    ensures FreeListOk(d', own.free[..|own.free| - 1], own.role[Top(own.free) := Held])
  {
    var top := |own.free| - 1;
    assert NodeOk(d, own.free, own.role, top);
    var free', role' := own.free[..top], own.role[Top(own.free) := Held];
    forall j | 0 <= j < |free'|
      ensures NodeOk(d', free', role', j)
    {
      assert NodeOk(d, own.free, own.role, j);
      assert free'[..j] == own.free[..j];
    }
    forall b | b in role'
      ensures FoundAgain(d', free', role', b)
    {
      assert FoundAgain(d, own.free, own.role, b);
      if own.role[b].FreeEntry? {
        assert NodeOk(d, own.free, own.role, own.role[b].j);
      }
    }
  }

  /** The block that allocation picks, and the part of the disk it rewrites, were free. */
  lemma AllocPicksFree(d: seq<Block>, own: Own)
    requires Shape(d, own) && FreeInv(d, own)
    requires Head(d) != 0
    ensures var head := Head(d) as nat;
            head in own.role && own.role[head].FreeNode? && head < |d|
    ensures AllocBlockNo(d) in FreeBlocks(own)
  {
    assert NodeOk(d, own.free, own.role, |own.free| - 1);
  }

  lemma AllocKeepsFreeInv(d: seq<Block>, own: Own)
    requires Shape(d, own) && FreeInv(d, own)
    requires 0 != Head(d) < |d|
    ensures FreeInv(AllocDisk(d), AllocOwn(d, own))
    ensures FreeBlocks(AllocOwn(d, own)) == FreeBlocks(own) - {AllocBlockNo(d) as nat}
  {
    var top := |own.free| - 1;
    assert NodeOk(d, own.free, own.role, top);
    var i := AllocSlot(d);
    if i == 0 {
      TakeNode(d, own, AllocDisk(d));
      assert own.free[..top] == AllocOwn(d, own).free;
    } else {
      TakeEntry(d, own, i);
    }
  }

  /** Allocation takes exactly one block off the free list and disturbs no tree. */
  lemma AllocStep(d: seq<Block>, own: Own)
    requires Inv(d, own)
    requires Head(d) != 0
    ensures Head(d) < |d|
    ensures AllocBlockNo(d) in FreeBlocks(own)
    ensures Inv(AllocDisk(d), AllocOwn(d, own))
    ensures FreeBlocks(AllocOwn(d, own)) == FreeBlocks(own) - {AllocBlockNo(d) as nat}
  {
    AllocPicksFree(d, own);
    AllocKeepsFreeInv(d, own);
    TreesUndisturbed(d, own, AllocDisk(d), AllocOwn(d, own));
  }

  lemma SameInodes(d: seq<Block>, d': seq<Block>)
    requires d != [] && |d'| == |d| && NInodeBlocks(d[0]) < |d| && NInodeBlocks(d'[0]) == NInodeBlocks(d[0])
    requires forall b :: 1 <= b <= NInodeBlocks(d[0]) ==> d'[b] == d[b]
    ensures forall ino :: 0 <= ino < Inodes(d) ==> Root(d', ino) == Root(d, ino)
    ensures forall ino :: 0 <= ino < Inodes(d) ==> Size(d', ino) == Size(d, ino)
  {}

  lemma RootWritten(d: seq<Block>, d': seq<Block>, ino: nat, b: U32)
    requires d != [] && |d'| == |d| && NInodeBlocks(d[0]) < |d| && NInodeBlocks(d'[0]) == NInodeBlocks(d[0])
    requires ino < Inodes(d)
    requires forall t :: 1 <= t <= NInodeBlocks(d[0]) && t != InodeBlockNo(ino) ==> d'[t] == d[t]
    requires d'[InodeBlockNo(ino)] == SetRef(d[InodeBlockNo(ino)], RootSlot(ino), b)
    ensures forall i :: 0 <= i < Inodes(d) ==> Root(d', i) == if i == ino then b else Root(d, i)
    ensures forall i :: 0 <= i < Inodes(d) ==> Size(d', i) == Size(d, i)
  {}

  lemma SizeWritten(d: seq<Block>, d': seq<Block>, ino: nat, n: U32)
    requires d != [] && |d'| == |d| && NInodeBlocks(d[0]) < |d| && NInodeBlocks(d'[0]) == NInodeBlocks(d[0])
    requires ino < Inodes(d)
    requires forall t :: 1 <= t <= NInodeBlocks(d[0]) && t != InodeBlockNo(ino) ==> d'[t] == d[t]
    requires d'[InodeBlockNo(ino)] == SetRef(d[InodeBlockNo(ino)], SizeSlot(ino), n)
    ensures forall i :: 0 <= i < Inodes(d) ==> Root(d', i) == Root(d, i)
    ensures forall i :: 0 <= i < Inodes(d) ==> Size(d', i) == if i == ino then n else Size(d, i)
  {}

  /** Changing only blocks that are not tree nodes, and roles that are not tree roles,
      keeps every tree. */
  lemma TreesUndisturbed(d: seq<Block>, own: Own, d': seq<Block>, own': Own)
    requires Shape(d, own) && TreeInv(d, own) && Shape(d', own')
    requires NInodeBlocks(d[0]) == NInodeBlocks(d'[0]) && |d| == |d'|
    requires own'.node == own.node && own'.height == own.height
    requires forall b :: b in own.role ==> (own.role[b].Tree? || own'.role[b].Tree?) ==>
               own'.role[b] == own.role[b] && d'[b] == d[b]
    requires forall b :: 1 <= b <= NInodeBlocks(d[0]) ==> d'[b] == d[b]
    ensures TreeInv(d', own')
  {
    SameInodes(d, d');
    forall k | k in own.node
      ensures KeyOk(d', own', k)
    {
      assert KeyOk(d, own, k);
    }
  }

  /** Changing only blocks that are not list nodes, and roles that are not free roles,
      keeps the free list. */
  lemma FreeListUndisturbed(d: seq<Block>, own: Own, d': seq<Block>, own': Own)
    requires Shape(d, own) && FreeInv(d, own) && |d'| == |d|
    requires own'.free == own.free && own'.role.Keys == own.role.Keys
    requires d'[0] == d[0]
    requires forall b :: b in own.role && (own.role[b].FreeNode? || own.role[b].FreeEntry?) ==>
               own'.role[b] == own.role[b] && d'[b] == d[b]
    requires forall b :: b in own.role && (own'.role[b].FreeNode? || own'.role[b].FreeEntry?) ==>
               own'.role[b] == own.role[b]
    ensures FreeInv(d', own')
  {
    forall j | 0 <= j < |own.free|
      ensures NodeOk(d', own'.free, own'.role, j)
    {
      assert NodeOk(d, own.free, own.role, j);
    }
    forall b | b in own'.role
      ensures FoundAgain(d', own'.free, own'.role, b)
    {
      assert FoundAgain(d, own.free, own.role, b);
      if own.role[b].FreeEntry? {
        assert NodeOk(d, own.free, own.role, own.role[b].j);
      }
    }
  }

  // ----- changes to one tree -----

  ghost function Placed(own: Own, k: Key, b: nat): Own {
    own.(role := own.role[b := Tree(k)], node := own.node[k := b])
  }

  /** Nothing hangs below an unoccupied position. */
  lemma NoOrphans(d: seq<Block>, own: Own, k: Key, t: nat)
    requires TreeInv(d, own)
    requires k !in own.node && k.h > 0 && t < REFS_PER_BLOCK
    requires k.ino < |own.height| ==> k.h <= own.height[k.ino]
    ensures Child(k, t) !in own.node
  {
    ParentOfChild(k, t);
    assert Child(k, t) in own.node ==> KeyOk(d, own, Child(k, t));
  }

  /** A new node whose references are all holes, or a leaf, fits at an unoccupied position. */
  ghost predicate FitsAt(d: seq<Block>, own: Own, k: Key, content: Block) {
    && k !in own.node
    && k.ino < Inodes(d) && k.ino < |own.height| && k.h <= own.height[k.ino]
    && (k.h == own.height[k.ino] ==> k.idx == 0)
    && (k.h < own.height[k.ino] ==> Parent(k) in own.node)
    && (k.h == 0 ==> k.idx < Size(d, k.ino))
    && (k.h > 0 ==> content == NullBlock())
  }

  ghost predicate SameSizes(d: seq<Block>, d': seq<Block>) {
    Inodes(d') == Inodes(d) && forall ino :: 0 <= ino < Inodes(d) ==> Size(d', ino) == Size(d, ino)
  }

  /** Block x' is x with the reference to position k, if x has one, set to b. */
  ghost predicate RefSet(x: Block, x': Block, q: Key, k: Key, b: nat)
    requires q.h > 0
  {
    forall t {:trigger Child(q, t)} :: 0 <= t < REFS_PER_BLOCK ==> x'[t] == if k == Child(q, t) then b else x[t]
  }

  lemma NewKey(d: seq<Block>, own: Own, k: Key, b: nat, d': seq<Block>)
    requires TreeInv(d, own) && b in own.role
    requires FitsAt(d, own, k, BlockAt(d', b)) && SameSizes(d, d')
    ensures KeyOk(d', Placed(own, k, b), k)
  {
    forall t | 0 <= t < REFS_PER_BLOCK && k.h > 0
      ensures Linked(Placed(own, k, b).node, BlockAt(d', b)[t], Child(k, t))
    {
      NoOrphans(d, own, k, t);
    }
  }

  lemma KeptKey(d: seq<Block>, own: Own, k: Key, b: nat, d': seq<Block>, q: Key)
    requires KeyOk(d, own, q) && b in own.role && own.role[b] == Held
    requires b != 0 && k !in own.node && k.ino < Inodes(d) && SameSizes(d, d')
    requires q.h > 0 ==> RefSet(NodeAt(d, own, q), NodeAt(d', own, q), q, k, b)
    ensures KeyOk(d', Placed(own, k, b), q)
  {
    var own' := Placed(own, k, b);
    if q.h > 0 {
      forall t | 0 <= t < REFS_PER_BLOCK
        ensures Linked(own'.node, NodeAt(d', own', q)[t], Child(q, t))
      {
        assert Linked(own.node, NodeAt(d, own, q)[t], Child(q, t));
      }
    }
  }

  /** Putting a held block b at position k: d' may differ from d in block b and in the one
      reference that now leads to b. */
  lemma PlaceNode(d: seq<Block>, own: Own, k: Key, b: nat, d': seq<Block>)
    requires TreeInv(d, own)
    requires b != 0 && b in own.role && own.role[b] == Held
    requires FitsAt(d, own, k, BlockAt(d', b)) && SameSizes(d, d')
    requires forall ino :: 0 <= ino < Inodes(d) ==>
               Root(d', ino) == (if k == Key(ino, own.height[ino], 0) then b else Root(d, ino))
    requires forall q {:trigger KeyOk(d, own, q)} :: q in own.node && q.h > 0 ==>
               RefSet(NodeAt(d, own, q), NodeAt(d', own, q), q, k, b)
    ensures TreeInv(d', Placed(own, k, b))
  {
    NewKey(d, own, k, b, d');
    forall q | q in own.node
      ensures KeyOk(d', Placed(own, k, b), q)
    {
      assert KeyOk(d, own, q);
      KeptKey(d, own, k, b, d', q);
    }
    forall ino | 0 <= ino < Inodes(d)
      ensures Linked(own.node[k := b], Root(d', ino), Key(ino, own.height[ino], 0))
    {
      assert Linked(own.node, Root(d, ino), Key(ino, own.height[ino], 0));
    }
  }

  /** Every offset of every file, other than one, holds what it held. */
  ghost predicate SameContents(d: seq<Block>, own: Own, d': seq<Block>, own': Own, except: Key) {
    forall ino, off {:trigger Content(d', own', ino, off)} :: Key(ino, 0, off) != except ==>
      Content(d', own', ino, off) == Content(d, own, ino, off)
  }

  lemma SameLeaves(d: seq<Block>, own: Own, d': seq<Block>, k: Key, b: nat)
    requires TreeInv(d, own)
    requires forall q {:trigger KeyOk(d, own, q)} :: q in own.node && q.h == 0 && q != k ==>
               NodeAt(d', own, q) == NodeAt(d, own, q)
    ensures SameContents(d, own, d', Placed(own, k, b), k)
  {
    forall ino, off | Key(ino, 0, off) != k
      ensures Content(d', Placed(own, k, b), ino, off) == Content(d, own, ino, off)
    {
      var q := Key(ino, 0, off);
      if q in own.node {
        assert KeyOk(d, own, q);
      }
    }
  }

  /** Filling a hole below node p with a held block. */
  lemma LinkChild(d: seq<Block>, own: Own, p: Key, i: nat, b: U32, content: Block, d': seq<Block>)
    requires Inv(d, own) && KeyOk(d, own, p)
    requires p.h > 0 && i < REFS_PER_BLOCK && NodeAt(d, own, p)[i] == 0
    requires b as nat in own.role && own.role[b] == Held
    requires p.h > 1 ==> content == NullBlock()
    requires p.h == 1 ==> Child(p, i).idx < Size(d, p.ino)
    requires d' == d[own.node[p] := SetRef(d[own.node[p]], i, b)][b := content]
    ensures Inv(d', Placed(own, Child(p, i), b))
    ensures SameContents(d, own, d', Placed(own, Child(p, i), b), Child(p, i))
  {
    var k := Child(p, i);
    ParentOfChild(p, i);
    assert Linked(own.node, NodeAt(d, own, p)[i], k);
    SameInodes(d, d');
    forall q | q in own.node
      ensures q.h > 0 ==> RefSet(NodeAt(d, own, q), NodeAt(d', own, q), q, k, b)
      ensures q.h == 0 ==> NodeAt(d', own, q) == NodeAt(d, own, q)
    {
      assert KeyOk(d, own, q);
      if q.h > 0 {
        forall t | 0 <= t < REFS_PER_BLOCK
          ensures NodeAt(d', own, q)[t] == if k == Child(q, t) then b else NodeAt(d, own, q)[t]
        {
          ParentOfChild(q, t);
        }
      }
    }
    PlaceNode(d, own, k, b, d');
    FreeListUndisturbed(d, own, d', Placed(own, k, b));
    SameLeaves(d, own, d', k, b);
  }

  /** The same, when the hole is the root reference in the inode. */
  lemma LinkRoot(d: seq<Block>, own: Own, ino: nat, b: U32, content: Block, d': seq<Block>)
    requires Inv(d, own)
    requires ino < Inodes(d) && Root(d, ino) == 0
    requires b as nat in own.role && own.role[b] == Held
    requires own.height[ino] > 0 ==> content == NullBlock()
    requires own.height[ino] == 0 ==> Size(d, ino) > 0
    requires InodeBlockNo(ino) < |d|
    requires d' == d[InodeBlockNo(ino) := SetRef(d[InodeBlockNo(ino)], RootSlot(ino), b)][b := content]
    ensures Inv(d', Placed(own, Key(ino, own.height[ino], 0), b))
    ensures SameContents(d, own, d', Placed(own, Key(ino, own.height[ino], 0), b), Key(ino, own.height[ino], 0))
  {
    var k := Key(ino, own.height[ino], 0);
    assert Linked(own.node, Root(d, ino), k);
    RootWritten(d, d', ino, b);
    forall q | q in own.node
      ensures q.h > 0 ==> RefSet(NodeAt(d, own, q), NodeAt(d', own, q), q, k, b)
      ensures q.h == 0 ==> NodeAt(d', own, q) == NodeAt(d, own, q)
    {
      assert KeyOk(d, own, q);
      if q.h > 0 {
        forall t | 0 <= t < REFS_PER_BLOCK
          ensures NodeAt(d', own, q)[t] == if k == Child(q, t) then b else NodeAt(d, own, q)[t]
        {
          ParentOfChild(q, t);
        }
      }
    }
    PlaceNode(d, own, k, b, d');
    FreeListUndisturbed(d, own, d', Placed(own, k, b));
    SameLeaves(d, own, d', k, b);
  }

  ghost function Raised(own: Own, ino: nat): Own {
    if ino < |own.height| then own.(height := own.height[ino := own.height[ino] + 1]) else own
  }

  ghost function Grown(own: Own, ino: nat, b: nat): Own {
    Placed(Raised(own, ino), Key(ino, HeightOf(own, ino) + 1, 0), b)
  }

  /** Adding a level: a held block becomes the root, with the old root in its slot 0. */
  lemma GrowTree(d: seq<Block>, own: Own, ino: nat, b: U32, d': seq<Block>)
    requires Inv(d, own)
    requires ino < Inodes(d) && InodeBlockNo(ino) < |d|
    requires b as nat in own.role && own.role[b] == Held
    requires d' == d[b := SetRef(NullBlock(), 0, Root(d, ino))]
                    [InodeBlockNo(ino) := SetRef(d[InodeBlockNo(ino)], RootSlot(ino), b)]
    ensures |d'| == |d| && Inv(d', Grown(own, ino, b)) && SameSizes(d, d') && HeightOf(own, ino) == own.height[ino]
    ensures SameContents(d, own, d', Grown(own, ino, b), Key(ino, own.height[ino] + 1, 0))
  {
    var k := Key(ino, own.height[ino] + 1, 0);
    FreeListUndisturbed(d, own, d', Grown(own, ino, b));
    RootWritten(d, d', ino, b);
    forall q | q in own.node
      ensures NodeAt(d', own, q) == NodeAt(d, own, q)
    {
      assert KeyOk(d, own, q);
    }
    TreesAfterGrow(d, own, ino, b, d');
    SameLeaves(d, own, d', k, b);
    assert forall i, off :: Content(d', Grown(own, ino, b), i, off) == Content(d', Placed(own, k, b), i, off);
  }

  lemma TreesAfterGrow(d: seq<Block>, own: Own, ino: nat, b: U32, d': seq<Block>)
    requires TreeInv(d, own) && ino < Inodes(d)
    requires b != 0 && b as nat in own.role && own.role[b] == Held
    requires BlockAt(d', b) == SetRef(NullBlock(), 0, Root(d, ino)) && SameSizes(d, d')
    requires forall i :: 0 <= i < Inodes(d) ==> Root(d', i) == if i == ino then b else Root(d, i)
    requires forall q {:trigger KeyOk(d, own, q)} :: q in own.node ==> NodeAt(d', own, q) == NodeAt(d, own, q)
    ensures TreeInv(d', Grown(own, ino, b))
  {
    var k, own' := Key(ino, own.height[ino] + 1, 0), Grown(own, ino, b);
    assert k in own.node ==> KeyOk(d, own, k);
    forall q | q in own'.node
      ensures KeyOk(d', own', q)
    {
      if q == k {
        NewTop(d, own, ino, b, d');
      } else {
        assert KeyOk(d, own, q);
        UnderNewTop(d, own, ino, b, d', q);
      }
    }
    forall i | 0 <= i < Inodes(d)
      ensures Linked(own'.node, Root(d', i), Key(i, own'.height[i], 0))
    {
      assert Linked(own.node, Root(d, i), Key(i, own.height[i], 0));
    }
  }

  lemma NewTop(d: seq<Block>, own: Own, ino: nat, b: U32, d': seq<Block>)
    requires TreeInv(d, own) && ino < Inodes(d)
    requires b as nat in own.role
    requires BlockAt(d', b) == SetRef(NullBlock(), 0, Root(d, ino)) && SameSizes(d, d')
    ensures KeyOk(d', Grown(own, ino, b), Key(ino, own.height[ino] + 1, 0))
  {
    var k, own' := Key(ino, own.height[ino] + 1, 0), Grown(own, ino, b);
    forall t | 0 <= t < REFS_PER_BLOCK
      ensures Linked(own'.node, BlockAt(d', b)[t], Child(k, t))
    {
      if t == 0 {
        assert Linked(own.node, Root(d, ino), Child(k, 0));
      } else {
        assert Child(k, t) in own.node ==> KeyOk(d, own, Child(k, t));
      }
    }
  }

  lemma UnderNewTop(d: seq<Block>, own: Own, ino: nat, b: U32, d': seq<Block>, q: Key)
    requires KeyOk(d, own, q) && ino < |own.height|
    requires b as nat in own.role && own.role[b] == Held
    requires NodeAt(d', own, q) == NodeAt(d, own, q) && SameSizes(d, d')
    requires Key(ino, own.height[ino] + 1, 0) !in own.node
    ensures KeyOk(d', Grown(own, ino, b), q)
  {
    var own' := Grown(own, ino, b);
    if q.ino == ino && q.h == own.height[ino] {
      assert Parent(q) == Key(ino, own.height[ino] + 1, 0);
    }
    if q.h > 0 {
      forall t | 0 <= t < REFS_PER_BLOCK
        ensures Linked(own'.node, NodeAt(d', own', q)[t], Child(q, t))
      {
        assert Linked(own.node, NodeAt(d, own, q)[t], Child(q, t));
      }
    }
  }

  lemma InnerNodesKept(d: seq<Block>, own: Own, d': seq<Block>)
    requires TreeInv(d, own) && Inodes(d') == Inodes(d)
    requires forall i :: 0 <= i < Inodes(d) ==> Size(d, i) <= Size(d', i)
    requires forall i :: 0 <= i < Inodes(d) ==> Root(d', i) == Root(d, i)
    requires forall q {:trigger KeyOk(d, own, q)} :: q in own.node && q.h > 0 ==>
               NodeAt(d', own, q) == NodeAt(d, own, q)
    ensures TreeInv(d', own)
  {
    forall q | q in own.node
      ensures KeyOk(d', own, q)
    {
      assert KeyOk(d, own, q);
    }
  }

  /** Overwriting a data block changes what one file holds at one offset. */
  lemma WriteLeaf(d: seq<Block>, own: Own, k: Key, content: Block, d': seq<Block>)
    requires Inv(d, own) && KeyOk(d, own, k) && k.h == 0
    requires d' == d[own.node[k] := content]
    ensures Inv(d', own) && SameContents(d, own, d', own, k)
    ensures Content(d', own, k.ino, k.idx) == content
  {
    FreeListUndisturbed(d, own, d', own);
    SameInodes(d, d');
    forall q | q in own.node && q != k
      ensures NodeAt(d', own, q) == NodeAt(d, own, q)
    {
      assert KeyOk(d, own, q);
    }
    InnerNodesKept(d, own, d');
    SameLeaves(d, own, d', k, own.node[k]);
    assert Placed(own, k, own.node[k]) == own;
  }

  /** Raising a recorded size keeps the trees; the new offsets are holes. */
  lemma Resize(d: seq<Block>, own: Own, ino: nat, nblocks: U32, d': seq<Block>)
    requires Inv(d, own) && ino < Inodes(d) && Size(d, ino) <= nblocks
    requires InodeBlockNo(ino) < |d|
    requires d' == d[InodeBlockNo(ino) := SetRef(d[InodeBlockNo(ino)], SizeSlot(ino), nblocks)]
    ensures Inv(d', own)
    ensures Size(d', ino) == nblocks
    ensures forall i :: 0 <= i < Inodes(d) && i != ino ==> Size(d', i) == Size(d, i)
    ensures forall i, off :: Content(d', own, i, off) == Content(d, own, i, off)
  {
    FreeListUndisturbed(d, own, d', own);
    SizeWritten(d, d', ino, nblocks);
    forall q | q in own.node
      ensures NodeAt(d', own, q) == NodeAt(d, own, q)
    {
      assert KeyOk(d, own, q);
    }
    InnerNodesKept(d, own, d');
  }

  /** Beyond the recorded size a file holds nothing but null blocks. */
  lemma NothingBeyondSize(d: seq<Block>, own: Own, ino: nat, off: nat)
    requires Inv(d, own) && ino < Inodes(d) && Size(d, ino) <= off
    ensures Content(d, own, ino, off) == NullBlock()
  {
    assert Key(ino, 0, off) in own.node ==> KeyOk(d, own, Key(ino, 0, off));
  }

  // ----- consequences of the invariant -----

  /** What the layout documents: descend through the indirect blocks, digit by digit, where
      reference 0 is a hole.  This reads nothing but the disk. */
  function Lookup(d: seq<Block>, b: nat, h: nat, off: nat): Block
    decreases h
  {
    if b == 0 then NullBlock()
    else if h == 0 then BlockAt(d, b)
    else Lookup(d, BlockAt(d, b)[Shr(off, h - 1) % REFS_PER_BLOCK], h - 1, off)
  }

  /** The contents read through the ownership map are the documented ones. */
  lemma {:induction false} LookupIsContent(d: seq<Block>, own: Own, ino: nat, off: nat, b: nat, h: nat)
    requires TreeInv(d, own) && ino < Inodes(d) && h <= own.height[ino]
    requires Linked(own.node, b, Key(ino, h, Shr(off, h)))
    ensures Lookup(d, b, h, off) == Content(d, own, ino, off)
    decreases h
  {
    var k := Key(ino, h, Shr(off, h));
    if h > 0 {
      var i := Shr(off, h - 1) % REFS_PER_BLOCK;
      ShrStep(off, h);
      assert Child(k, i) == Key(ino, h - 1, Shr(off, h - 1));
      if b == 0 {
        NoOrphans(d, own, k, i);
        LookupIsContent(d, own, ino, off, 0, h - 1);
      } else {
        assert KeyOk(d, own, k);
        assert Linked(own.node, NodeAt(d, own, k)[i], Child(k, i));
        LookupIsContent(d, own, ino, off, NodeAt(d, own, k)[i], h - 1);
      }
    }
  }

  function Range(lo: nat, hi: nat): (s: set<nat>)
    ensures forall b :: b in s <==> lo <= b < hi
    ensures |s| == if lo < hi then hi - lo else 0
  {
    if lo >= hi then {} else Range(lo, hi - 1) + {hi - 1}
  }

  /** The blocks that hold the given positions. */
  ghost function Image(m: map<Key, nat>, ks: set<Key>): (r: set<nat>)
    requires ks <= m.Keys
    ensures forall k {:trigger m[k]} :: k in ks ==> m[k] in r
    ensures forall b {:trigger b in r} :: b in r ==> exists k :: k in ks && m[k] == b
  {
    set k | k in ks :: m[k]
  }

  lemma {:induction false} ImageCount(m: map<Key, nat>, ks: set<Key>)
    requires ks <= m.Keys
    requires forall k, q :: k in ks && q in ks && m[k] == m[q] ==> k == q
    ensures |Image(m, ks)| == |ks|
    decreases |ks|
  {
    if ks != {} {
      var k :| k in ks;
      var rest := ks - {k};
      ImageCount(m, rest);
      hide Image;
      assert Image(m, ks) == Image(m, rest) + {m[k]};
    } else {
      hide Image;
      assert Image(m, ks) == {};
    }
  }

  /** Nothing leaks and nothing is shared: at rest the free blocks and the occupied tree
      positions together account for every block behind the inode blocks. */
  lemma BlocksConserved(d: seq<Block>, own: Own)
    requires Inv(d, own) && Settled(d, own)
    ensures |FreeBlocks(own)| + |own.node| == |d| - 1 - NInodeBlocks(d[0])
  {
    var region := Range(NInodeBlocks(d[0]) + 1, |d|);
    forall k | k in own.node
      ensures own.node[k] in region && own.role[own.node[k]] == Tree(k)
    {
      assert KeyOk(d, own, k);
    }
    Partition(own, region);
  }

  /** If every block has one role, the free ones and those in trees are all there are. */
  lemma Partition(own: Own, region: set<nat>)
    requires forall k {:trigger own.node[k]} :: k in own.node ==>
               own.node[k] in region && own.node[k] in own.role && own.role[own.node[k]] == Tree(k)
    requires own.role.Keys == region
    requires forall b {:trigger own.role[b]} :: b in own.role ==>
               own.role[b].FreeNode? || own.role[b].FreeEntry? ||
               (own.role[b].Tree? && own.role[b].key in own.node && own.node[own.role[b].key] == b)
    ensures |FreeBlocks(own)| + |own.node| == |region|
  {
    var free, owned := FreeBlocks(own), Image(own.node, own.node.Keys);
    ImageCount(own.node, own.node.Keys);
    forall b | b in region
      ensures b in free || b in owned
    {
      if b !in free { assert own.node[own.role[b].key] in owned; }
    }
    forall b | b in owned
      ensures b in region && b !in free
    {
      var k :| k in own.node.Keys && own.node[k] == b;
    }
    Union(free, owned, region);
  }

  lemma Union(a: set<nat>, b: set<nat>, c: set<nat>)
    requires a <= c && b <= c && a !! b && forall x :: x in c ==> x in a || x in b
    ensures |a| + |b| == |c|
  {
    assert a + b == c;
  }

  // ----- building the free list -----

  /** The roles of a new list node at block head and its n - 1 entries that follow it. */
  ghost function NodeRoles(role: map<nat, Role>, j: nat, head: nat, n: nat): (r: map<nat, Role>)
    ensures forall b :: b in r <==> b in role || head <= b < head + n
    ensures forall b {:trigger r[b]} :: b in r ==> r[b] == if head <= b < head + n then RoleInNode(j, head, b) else role[b]
  {
    var added := map b | b in Range(head, head + n) :: RoleInNode(j, head, b);
    assert forall b :: b in added <==> b in Range(head, head + n);
    role + added
  }

  ghost function RoleInNode(j: nat, head: nat, b: nat): Role {
    if b <= head then FreeNode(j) else FreeEntry(j, b - head)
  }

  /** The free list depends on nothing but its own blocks. */
  lemma FreeListElsewhere(d: seq<Block>, d': seq<Block>, free: seq<nat>, role: map<nat, Role>)
    requires FreeListOk(d, free, role) && |d'| == |d|
    requires forall b :: b in role && b < |d| ==> d'[b] == d[b]
    ensures FreeListOk(d', free, role)
  {
    forall j | 0 <= j < |free|
      ensures NodeOk(d', free, role, j)
    {
      assert NodeOk(d, free, role, j);
    }
    forall b | b in role
      ensures FoundAgain(d', free, role, b)
    {
      assert FoundAgain(d, free, role, b);
      if role[b].FreeEntry? {
        assert NodeOk(d, free, role, role[b].j);
      }
    }
  }

  lemma PushNode(d: seq<Block>, free: seq<nat>, role: map<nat, Role>, head: nat, n: nat, data: Block)
    requires FreeListOk(d, free, role)
    requires 0 < head < |d| && 1 <= n <= REFS_PER_BLOCK
    requires forall b :: b in role ==> b < head
    requires data[0] == Top(free)
    requires forall i :: 1 <= i < n ==> data[i] == head + i
    requires forall i :: n <= i < REFS_PER_BLOCK ==> data[i] == 0
    ensures FreeListOk(d[head := data], free + [head], NodeRoles(role, |free|, head, n))
  {
    var d', free', role' := d[head := data], free + [head], NodeRoles(role, |free|, head, n);
    forall j | 0 <= j < |free'|
      ensures NodeOk(d', free', role', j)
    {
      if j < |free| {
        assert NodeOk(d, free, role, j);
        assert free'[..j] == free[..j];
      } else {
        assert j == |free| && free'[j] == head && free'[..j] == free && d'[head] == data;
        assert head in role' && role'[head] == FreeNode(j);
        forall i | 1 <= i < REFS_PER_BLOCK && data[i] != 0
          ensures data[i] in role' && role'[data[i]] == FreeEntry(j, i)
        {
          assert data[i] == head + i;
        }
      }
    }
    forall b | b in role'
      ensures FoundAgain(d', free', role', b)
    {
      if b in role {
        assert FoundAgain(d, free, role, b);
        if role[b].FreeEntry? {
          assert NodeOk(d, free, role, role[b].j);
        }
      }
    }
  }
}
