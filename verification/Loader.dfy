/** Loading a program: its pages are allocated, entered in the software TLB and filled from the
    program file while the process is not loaded. */
module Loader {
  import opened PageAlloc
  import opened Mmu
  import opened Words

  const APPS_SIZE := 16384
  const PAGE_SIZE := 4096
  const BLOCK_SIZE := 512
  const CMD_NARGS := 16
  const ARG_WORDS := 8             // CMD_ARG_LEN is 32 bytes
  const APPS_ARG := 0x80600000
  const APP_NPAGES := 4

  // ----- words and bytes -----

  /** Byte j of a word, on a little-endian machine. */
  function ByteOf(w: U32, j: nat): (b: nat)
    ensures b < 256
  {
    if j == 0 then w % 256 else if j == 1 then w / 256 % 256
    else if j == 2 then w / 256 / 256 % 256 else w / 256 / 256 / 256 % 256
  }

  function WordOf(b0: nat, b1: nat, b2: nat, b3: nat): U32
    requires b0 < 256 && b1 < 256 && b2 < 256 && b3 < 256
  {
    b0 + 256 * (b1 + 256 * (b2 + 256 * b3))
  }

  /** A word with its bytes from n on cleared. */
  function KeepLow(w: U32, n: nat): U32 {
    WordOf(if n > 0 then ByteOf(w, 0) else 0, if n > 1 then ByteOf(w, 1) else 0,
           if n > 2 then ByteOf(w, 2) else 0, if n > 3 then ByteOf(w, 3) else 0)
  }

  lemma BytesOfWord(b0: nat, b1: nat, b2: nat, b3: nat, j: nat)
    requires b0 < 256 && b1 < 256 && b2 < 256 && b3 < 256 && j < 4
    ensures ByteOf(WordOf(b0, b1, b2, b3), j) == if j == 0 then b0 else if j == 1 then b1 else if j == 2 then b2 else b3
  {
    var w := WordOf(b0, b1, b2, b3);
    assert w / 256 == b1 + 256 * (b2 + 256 * b3);
    assert w / 256 / 256 == b2 + 256 * b3;
  }

  lemma KeepLowBytes(w: U32, n: nat, j: nat)
    requires j < 4
    ensures ByteOf(KeepLow(w, n), j) == if j < n then ByteOf(w, j) else 0
  {
    BytesOfWord(if n > 0 then ByteOf(w, 0) else 0, if n > 1 then ByteOf(w, 1) else 0,
                if n > 2 then ByteOf(w, 2) else 0, if n > 3 then ByteOf(w, 3) else 0, j);
    hide WordOf;
  }

  /** Word k of the program file, whose first block is block `start` of the disk. */
  function FileWord(disk: seq<Block>, start: nat, k: nat): U32 {
    if start + k / 128 < |disk| then disk[start + k / 128][k % 128] else 0
  }

  function FileByte(disk: seq<Block>, start: nat, b: nat): nat {
    ByteOf(FileWord(disk, start, b / 4), b % 4)
  }

  /** The execution page of map slot k of a program. */
  function PageOf(k: nat): nat {
    if k < APP_NPAGES then APPS_PAGE0 + k else ARG_PAGE + (k - APP_NPAGES)
  }

  /** A process's memory has exactly the first n pages of a program. */
  ghost predicate HasPages(v: View, n: nat) {
    forall e :: e in v <==> exists k :: 0 <= k < n && e == PageOf(k)
  }

  /** Word k of the application region. */
  ghost function AppWord(v: View, k: nat): U32 {
    var e := APPS_PAGE0 + k / 1024;
    if e in v then v[e][k % 1024] else 0
  }

  ghost function AppByte(v: View, b: nat): nat {
    ByteOf(AppWord(v, b / 4), b % 4)
  }

  /** The first n blocks of the file are in place and the rest of the region is zero. */
  ghost predicate Filled(v: View, disk: seq<Block>, start: nat, n: nat) {
    forall k :: 0 <= k < 4096 ==> AppWord(v, k) == if k < 128 * n then FileWord(disk, start, k) else 0
  }

  /** The application region holds the file and, behind it, zeros. */
  ghost predicate HoldsFile(v: View, disk: seq<Block>, start: nat, filesz: nat) {
    forall b :: 0 <= b < APPS_SIZE ==> AppByte(v, b) == if b < filesz then FileByte(disk, start, b) else 0
  }

  /** Pointer i of the argument page addresses the copy of argument i. */
  ghost predicate ArgAt(p: Page, i: nat, argv: Option<seq<U32>>)
    requires i < CMD_NARGS
  {
    var ptr := p[1 + i] as int;
    && APPS_ARG <= ptr <= APPS_ARG + PAGE_SIZE - 4 * ARG_WORDS && ptr % 4 == 0
    && (argv.Some? && 8 * i + 8 <= |argv.value| ==>
          p[(ptr - APPS_ARG) / 4..(ptr - APPS_ARG) / 4 + 8] == argv.value[8 * i..8 * i + 8])
  }

  /** The argument page: the count, and a pointer to each argument. */
  ghost predicate HoldsArgs(p: Page, argc: nat, argv: Option<seq<U32>>) {
    p[0] == argc <= CMD_NARGS && forall i :: 0 <= i < argc ==> ArgAt(p, i, argv)
  }

  ghost predicate Loaded(v: View, disk: seq<Block>, start: nat, filesz: nat, argc: nat, argv: Option<seq<U32>>) {
    && HasPages(v, APPS_NPAGES) && HoldsFile(v, disk, start, filesz)
    && ARG_PAGE in v && HoldsArgs(v[ARG_PAGE], argc, argv)
    && SYSCALL_PAGE in v && v[SYSCALL_PAGE] == ZeroPage()
  }

  /** Slots 0 to n-1 of a row are the pages of a program, in order; the others are free. */
  ghost predicate RowHolds(row: Row, private: seq<nat>) {
    && |private| <= APPS_NPAGES
    && (forall k :: 0 <= k < |private| ==> row[k] == Mapped(private[k], PageOf(k)))
    && (forall k :: |private| <= k < APPS_NPAGES ==> row[k].Unmapped?)
  }

  /** Allocate a page and enter it as the next page of the program. */
  method NewPage(tlb: SoftTlb, pid: int, ghost private: seq<nat>, exec: nat, ghost views: seq<View>, ghost v: View)
    returns (ok: bool, page: nat)
    requires tlb.Valid() && IsPid(pid) && pid != tlb.loaded
    requires RowHolds(tlb.appPages[pid], private) && |private| < APPS_NPAGES && exec == PageOf(|private|)
    requires |views| == NPIDS && tlb.Views() == views[pid := v] && HasPages(v, |private|)
    modifies tlb`mem, tlb`held, tlb`appPages, tlb.pages.bitmap
    ensures ok <==> |old(tlb.pages.Used())| < NPAGES
    ensures ok ==> tlb.Valid() && |tlb.pages.Used()| == |old(tlb.pages.Used())| + 1
    ensures ok ==> RowHolds(tlb.appPages[pid], private + [page]) && HasPages(v[exec := ZeroPage()], |private| + 1)
    ensures ok ==> tlb.Views() == views[pid := v[exec := ZeroPage()]]
  {
    hide SoftTlb.Valid, TableOk, RowHolds, HasPages;
    PagesLeft(tlb);
    ok, page := tlb.Alloc();
    if ok {
      ghost var row := tlb.appPages[pid];
      NextSlot(row, private, v, page);
      var mapped := tlb.Map(pid, exec, page);
    }
  }

  lemma PagesLeft(tlb: SoftTlb)
    requires tlb.Valid()
    ensures tlb.pages.Valid() && |tlb.appPages| == NPIDS && |tlb.mem| == RAM_PAGES
    ensures (exists i :: 0 <= i < NPAGES && !tlb.pages.Bit(i)) <==> |tlb.pages.Used()| < NPAGES
  {
    Supply(tlb.pages);
  }

  lemma NextSlot(row: Row, private: seq<nat>, v: View, page: nat)
    requires RowHolds(row, private) && |private| < APPS_NPAGES && HasPages(v, |private|)
    ensures FirstFree(row) == |private| && row[|private|].Unmapped?
    ensures IsExecPage(PageOf(|private|)) && PageOf(|private|) !in v
    ensures RowHolds(row[|private| := Mapped(page, PageOf(|private|))], private + [page])
    ensures HasPages(v[PageOf(|private|) := ZeroPage()], |private| + 1)
  {
    assert forall k :: 0 <= k < |private| ==> PageOf(k) != PageOf(|private|);
  }

  // ----- filling the pages -----

  /** What the loader knows between its steps: the process's row lists the pages, and its memory
      is v while everybody else's is as in views. */
  ghost predicate Stage(tlb: SoftTlb, pid: int, private: seq<nat>, views: seq<View>, v: View)
    reads tlb, tlb.pages.bitmap
  {
    && tlb.Valid() && IsPid(pid) && pid != tlb.loaded && |views| == NPIDS
    && RowHolds(tlb.appPages[pid], private) && tlb.Views() == views[pid := v] && HasPages(v, |private|)
  }

  /** Write words into page k of the program. */
  method Patch(tlb: SoftTlb, pid: int, k: nat, page: nat, at: nat, words: seq<U32>,
               ghost private: seq<nat>, ghost views: seq<View>, ghost v: View) returns (ghost v': View)
    requires Stage(tlb, pid, private, views, v) && k < |private| && private[k] == page
    requires at + |words| <= WORDS_PER_PAGE
    modifies tlb`mem
    ensures PageOf(k) in v && v' == v[PageOf(k) := Spliced(v[PageOf(k)], at, words)]
    ensures Stage(tlb, pid, private, views, v')
  {
    assert tlb.appPages[pid][k] == Mapped(page, PageOf(k));
    assert tlb.Views()[pid] == v;
    tlb.PatchPrivate(pid, k, page, at, words);
    v' := v[PageOf(k) := Spliced(v[PageOf(k)], at, words)];
  }

  lemma Offsets(n: nat)
    ensures 512 * n % 4096 == 512 * (n % 8) && 512 * n % 4096 / 4 == n % 8 * 128
    ensures (512 * n + 4095) / 4096 == (n + 7) / 8
  {
    assert 512 * n == 4096 * (n / 8) + 512 * (n % 8);
  }

  lemma BlockFills(v: View, disk: seq<Block>, start: nat, n: nat)
    requires Filled(v, disk, start, n) && HasPages(v, APP_NPAGES) && n < 32 && start + n < |disk|
    ensures PageOf(n / 8) in v
    ensures Filled(v[PageOf(n / 8) := Spliced(v[PageOf(n / 8)], n % 8 * 128, disk[start + n])], disk, start, n + 1)
  {
    var e := PageOf(n / 8);
    assert e in v;
    var v' := v[e := Spliced(v[e], n % 8 * 128, disk[start + n])];
    forall k | 0 <= k < 4096
      ensures AppWord(v', k) == if k < 128 * (n + 1) then FileWord(disk, start, k) else 0
    {
      assert PageOf(k / 1024) in v;
      assert AppWord(v, k) == if k < 128 * n then FileWord(disk, start, k) else 0;
    }
  }

  lemma StageHas(tlb: SoftTlb, pid: int, private: seq<nat>, views: seq<View>, v: View)
    requires Stage(tlb, pid, private, views, v)
    ensures HasPages(v, |private|)
  {}

  /** Copy the blocks of the program file into its pages, which are zero; fails if there are
      more than fit. */
  method CopyBlocks(tlb: SoftTlb, pid: int, disk: seq<Block>, start: nat, filesz: nat, paddrs: seq<nat>,
                    ghost views: seq<View>, ghost v0: View)
    returns (ok: bool, pageIdx: int, ghost v: View)
    requires Stage(tlb, pid, paddrs, views, v0) && |paddrs| == APP_NPAGES && Filled(v0, disk, start, 0)
    requires start + (filesz + 511) / 512 <= |disk|
    modifies tlb`mem
    ensures ok <==> filesz <= APPS_SIZE
    ensures ok ==> Stage(tlb, pid, paddrs, views, v) && Filled(v, disk, start, (filesz + 511) / 512)
    ensures ok ==> pageIdx == (filesz + 4095) / 4096 - 1
  {
    hide Stage, Filled, HasPages, RowHolds;
    pageIdx := -1;
    v := v0;
    var block := start;
    var off := 0;
    ghost var n := 0;
    while off < filesz
      invariant off == 512 * n && block == start + n && off < filesz + 512 && n <= 32
      invariant pageIdx == (off + 4095) / 4096 - 1
      invariant Stage(tlb, pid, paddrs, views, v) && Filled(v, disk, start, n)
      modifies tlb`mem
    {
      Offsets(n);
      if off % PAGE_SIZE == 0 {
        pageIdx := pageIdx + 1;
        if !(0 <= pageIdx < APP_NPAGES) {
          return false, pageIdx, v;
        }
      }
      assert pageIdx == n / 8 && off % PAGE_SIZE == 512 * (n % 8);
      assert HasPages(v, APP_NPAGES) by { StageHas(tlb, pid, paddrs, views, v); }
      BlockFills(v, disk, start, n);
      v := Patch(tlb, pid, pageIdx, paddrs[pageIdx], off % PAGE_SIZE / 4, disk[block], paddrs, views, v);
      block := block + 1;
      off := off + 512;
      n := n + 1;
      Offsets(n);
    }
    ok := true;
  }

  lemma PrivateIs(tlb: SoftTlb, pid: int, private: seq<nat>, views: seq<View>, v: View, k: nat)
    requires Stage(tlb, pid, private, views, v) && k < |private|
    ensures private[k] < |tlb.mem| && PageOf(k) in v && tlb.mem[private[k]] == v[PageOf(k)]
  {
    assert tlb.appPages[pid][k] == Mapped(private[k], PageOf(k));
    PatchedViews(tlb.appPages, tlb.loaded, tlb.mem, pid, k, ZeroPage());
    assert tlb.Views()[pid] == v;
  }

  function Zeros(n: nat): (z: seq<U32>)
    ensures |z| == n && forall i :: 0 <= i < n ==> z[i] == 0
  {
    seq(n, _ => 0)
  }

  /** The page with its bytes from `filled` on cleared, given its word there. */
  function Tail(w: U32, filled: nat): (t: seq<U32>)
    requires filled < PAGE_SIZE
    ensures |t| == 1024 - filled / 4 && t[0] == KeepLow(w, filled % 4) && forall i :: 1 <= i < |t| ==> t[i] == 0
  {
    [KeepLow(w, filled % 4)] + Zeros(1023 - filled / 4)
  }

  /** What clearing the tail makes of word k. */
  lemma TailWords(v: View, filesz: nat, k: nat)
    requires HasPages(v, APP_NPAGES) && filesz < APPS_SIZE && k < 4096
    ensures PageOf(filesz / 4096) in v
    ensures var filled := filesz % PAGE_SIZE;
            var p := v[PageOf(filesz / 4096)];
            AppWord(v[PageOf(filesz / 4096) := Spliced(p, filled / 4, Tail(p[filled / 4], filled))], k)
            == if k == filesz / 4 then KeepLow(AppWord(v, k), filesz % 4)
               else if filesz / 4 < k && k / 1024 == filesz / 4096 then 0
               else AppWord(v, k)
  {
    hide KeepLow;
    assert PageOf(k / 1024) in v && PageOf(filesz / 4096) in v;
  }

  /** And what that makes of byte b, if the word came from the file or behind its last block. */
  lemma TailByte(w: U32, w': U32, fileWord: U32, filesz: nat, b: nat)
    requires w == if b / 4 < 128 * ((filesz + 511) / 512) then fileWord else 0
    requires b / 4 < filesz / 4 ==> w' == w
    requires b / 4 == filesz / 4 ==> w' == KeepLow(w, filesz % 4)
    requires b / 4 > filesz / 4 ==> w' == 0
    ensures ByteOf(w', b % 4) == if b < filesz then ByteOf(fileWord, b % 4) else 0
  {
    KeepLowBytes(w, filesz % 4, b % 4);
    hide KeepLow;
  }

  lemma TailCleared(v: View, disk: seq<Block>, start: nat, filesz: nat)
    requires Filled(v, disk, start, (filesz + 511) / 512) && HasPages(v, APP_NPAGES) && filesz < APPS_SIZE
    requires filesz % PAGE_SIZE != 0
    ensures PageOf(filesz / 4096) in v
    ensures var filled := filesz % PAGE_SIZE;
            var p := v[PageOf(filesz / 4096)];
            HoldsFile(v[PageOf(filesz / 4096) := Spliced(p, filled / 4, Tail(p[filled / 4], filled))], disk, start, filesz)
  {
    hide HasPages, AppWord, FileWord, Spliced, ByteOf, KeepLow;
    TailWords(v, filesz, 0);
    var filled := filesz % PAGE_SIZE;
    var p := v[PageOf(filesz / 4096)];
    var v' := v[PageOf(filesz / 4096) := Spliced(p, filled / 4, Tail(p[filled / 4], filled))];
    forall b | 0 <= b < APPS_SIZE
      ensures AppByte(v', b) == if b < filesz then FileByte(disk, start, b) else 0
    {
      TailWords(v, filesz, b / 4);
      TailByte(AppWord(v, b / 4), AppWord(v', b / 4), FileWord(disk, start, b / 4), filesz, b);
    }
  }

  lemma NoTail(v: View, disk: seq<Block>, start: nat, filesz: nat)
    requires Filled(v, disk, start, (filesz + 511) / 512) && filesz <= APPS_SIZE && filesz % PAGE_SIZE == 0
    ensures HoldsFile(v, disk, start, filesz)
  {
    hide AppWord, FileWord, KeepLow;
    forall b | 0 <= b < APPS_SIZE
      ensures AppByte(v, b) == if b < filesz then FileByte(disk, start, b) else 0
    {
      assert AppWord(v, b / 4) == if b < filesz then FileWord(disk, start, b / 4) else 0;
    }
  }

  /** The bytes of the last page behind the end of the file become zero. */
  method ClearTail(tlb: SoftTlb, pid: int, pageIdx: int, filesz: nat, paddrs: seq<nat>, ghost disk: seq<Block>,
                   ghost start: nat, ghost views: seq<View>, ghost v: View) returns (ghost v': View)
    requires Stage(tlb, pid, paddrs, views, v) && |paddrs| == APP_NPAGES
    requires Filled(v, disk, start, (filesz + 511) / 512) && filesz <= APPS_SIZE
    requires pageIdx == (filesz + 4095) / 4096 - 1
    modifies tlb`mem
    ensures Stage(tlb, pid, paddrs, views, v') && HoldsFile(v', disk, start, filesz)
  {
    hide Filled, HoldsFile;
    var filled := filesz % PAGE_SIZE;
    if filled != 0 {
      PrivateIs(tlb, pid, paddrs, views, v, pageIdx);
      TailCleared(v, disk, start, filesz);
      var w := tlb.mem[paddrs[pageIdx]][filled / 4];
      v' := Patch(tlb, pid, pageIdx, paddrs[pageIdx], filled / 4, Tail(w, filled), paddrs, views, v);
    } else {
      v' := v;
      NoTail(v, disk, start, filesz);
    }
  }

  // ----- arguments -----

  /** The first n pointers are written behind the count, and the arguments behind all of them. */
  ghost predicate ArgsUpto(p: Page, argc: nat, argv: Option<seq<U32>>, n: nat) {
    && p[0] == argc <= CMD_NARGS && n <= argc
    && (argv.Some? ==> |argv.value| == ARG_WORDS * argc && p[17..17 + |argv.value|] == argv.value)
    && forall i {:trigger Pointer(i)} :: 0 <= i < n ==> p[1 + i] as int == Pointer(i)
  }

  function Pointer(i: nat): int { APPS_ARG + 4 + 4 * CMD_NARGS + i * 32 }

  lemma SliceOfSlice(s: seq<U32>, at: nat, n: nat, lo: nat, hi: nat)
    requires at + n <= |s| && lo <= hi <= n
    ensures s[at..at + n][lo..hi] == s[at + lo..at + hi]
  {
    var t := s[at..at + n];
    assert forall k :: 0 <= k < hi - lo ==> t[lo..hi][k] == t[lo + k] == s[at + lo + k];
    assert t[lo..hi] == s[at + lo..at + hi];
  }

  lemma ArgsHeld(p: Page, argc: nat, argv: Option<seq<U32>>)
    requires ArgsUpto(p, argc, argv, argc)
    ensures HoldsArgs(p, argc, argv)
  {
    forall i | 0 <= i < argc
      ensures ArgAt(p, i, argv)
    {
      assert p[1 + i] as int == Pointer(i);
      assert (Pointer(i) - APPS_ARG) / 4 == 17 + 8 * i;
      if argv.Some? && 8 * i + 8 <= |argv.value| {
        SliceOfSlice(p, 17, |argv.value|, 8 * i, 8 * i + 8);
      }
    }
  }

  /** Write count, arguments and pointers to the argument page, page 4 of the program. */
  method WriteArgs(tlb: SoftTlb, pid: int, paddr: nat, argc: nat, argv: Option<seq<U32>>,
                   ghost private: seq<nat>, ghost views: seq<View>, ghost v0: View) returns (ghost v: View)
    requires Stage(tlb, pid, private, views, v0) && |private| == 5 && private[4] == paddr
    requires argc <= CMD_NARGS && (argv.Some? ==> |argv.value| == ARG_WORDS * argc)
    modifies tlb`mem
    ensures Stage(tlb, pid, private, views, v) && ARG_PAGE in v && HoldsArgs(v[ARG_PAGE], argc, argv)
    ensures ARG_PAGE in v0 && v == v0[ARG_PAGE := v[ARG_PAGE]]
  {
    hide Stage;
    v := Patch(tlb, pid, 4, paddr, 0, [argc], private, views, v0);
    if argv.Some? {
      v := Patch(tlb, pid, 4, paddr, 17, argv.value, private, views, v);
    }
    var i := 0;
    while i < argc
      invariant 0 <= i <= argc && Stage(tlb, pid, private, views, v)
      invariant ARG_PAGE in v0 && ARG_PAGE in v && v == v0[ARG_PAGE := v[ARG_PAGE]]
      invariant ArgsUpto(v[ARG_PAGE], argc, argv, i)
      modifies tlb`mem
    {
      v := Patch(tlb, pid, 4, paddr, 1 + i, [Pointer(i)], private, views, v);
      i := i + 1;
    }
    ArgsHeld(v[ARG_PAGE], argc, argv);
  }

  // ----- loading -----

  lemma Untouched(v: View, e: nat, page: Page, disk: seq<Block>, start: nat, filesz: nat)
    requires HoldsFile(v, disk, start, filesz) && e >= ARG_PAGE
    ensures HoldsFile(v[e := page], disk, start, filesz)
  {
    var v' := v[e := page];
    forall b | 0 <= b < APPS_SIZE
      ensures AppByte(v', b) == if b < filesz then FileByte(disk, start, b) else 0
    {
      assert AppByte(v, b) == if b < filesz then FileByte(disk, start, b) else 0;
      assert AppWord(v', b / 4) == AppWord(v, b / 4);
    }
  }

  /** Allocate, zero and enter the four pages of the application region. */
  method AppPages(tlb: SoftTlb, pid: int, ghost disk: seq<Block>, ghost start: nat)
    returns (ok: bool, paddrs: seq<nat>, ghost v: View)
    requires tlb.Valid() && IsPid(pid) && pid != tlb.loaded && RowHolds(tlb.appPages[pid], [])
    modifies tlb`mem, tlb`held, tlb`appPages, tlb.pages.bitmap
    ensures ok <==> |old(tlb.pages.Used())| + APP_NPAGES <= NPAGES
    ensures ok ==> Stage(tlb, pid, paddrs, old(tlb.Views()), v) && |paddrs| == APP_NPAGES
                   && Filled(v, disk, start, 0) && |tlb.pages.Used()| == |old(tlb.pages.Used())| + APP_NPAGES
  {
    ghost var views := tlb.Views();
    v := views[pid];
    NoPages(tlb, pid);
    CardBound(tlb.pages.Used(), NPAGES);
    assert views[pid := v] == views;
    paddrs := [];
    var i := 0;
    while i < APP_NPAGES
      invariant 0 <= i <= APP_NPAGES && |paddrs| == i && Stage(tlb, pid, paddrs, views, v)
      invariant forall k :: 0 <= k < i ==> PageOf(k) in v && v[PageOf(k)] == ZeroPage()
      invariant |tlb.pages.Used()| == |old(tlb.pages.Used())| + i && |tlb.pages.Used()| <= NPAGES
      modifies tlb`mem, tlb`held, tlb`appPages, tlb.pages.bitmap
    {
      var page;
      ok, page := NewPage(tlb, pid, paddrs, APPS_PAGE0 + i, views, v);
      if !ok {
        return;
      }
      paddrs := paddrs + [page];
      v := v[APPS_PAGE0 + i := ZeroPage()];
      i := i + 1;
    }
    ok := true;
    forall k | 0 <= k < 4096
      ensures AppWord(v, k) == 0
    {
      assert PageOf(k / 1024) in v && v[PageOf(k / 1024)] == ZeroPage();
    }
  }

  lemma NoPages(tlb: SoftTlb, pid: int)
    requires tlb.Valid() && IsPid(pid) && RowHolds(tlb.appPages[pid], [])
    ensures HasPages(tlb.Views()[pid], 0)
  {
    EmptyRow(tlb.mem, tlb.appPages[pid], pid == tlb.loaded);
  }

  /** The application region: its pages, the file in them, and zeros behind it. */
  method LoadRegion(tlb: SoftTlb, pid: int, disk: seq<Block>, start: nat, filesz: nat)
    returns (ok: bool, paddrs: seq<nat>, ghost v: View)
    requires tlb.Valid() && IsPid(pid) && pid != tlb.loaded && RowHolds(tlb.appPages[pid], [])
    requires start + (filesz + 511) / 512 <= |disk|
    modifies tlb`mem, tlb`held, tlb`appPages, tlb.pages.bitmap
    ensures ok <==> |old(tlb.pages.Used())| + APP_NPAGES <= NPAGES && filesz <= APPS_SIZE
    ensures ok ==> Stage(tlb, pid, paddrs, old(tlb.Views()), v) && |paddrs| == APP_NPAGES
                   && HoldsFile(v, disk, start, filesz) && |tlb.pages.Used()| == |old(tlb.pages.Used())| + APP_NPAGES
  {
    hide SoftTlb.Valid, TableOk, HoldsFile, Filled, RowHolds;
    ghost var views := tlb.Views();
    ok, paddrs, v := AppPages(tlb, pid, disk, start);
    if !ok { return; }
    var pageIdx;
    ok, pageIdx, v := CopyBlocks(tlb, pid, disk, start, filesz, paddrs, views, v);
    if !ok { return; }
    v := ClearTail(tlb, pid, pageIdx, filesz, paddrs, disk, start, views, v);
  }

  /** Load a program for a process that has no pages and is not the loaded one.  It succeeds if
      there are six free pages and the file fits; then the process's memory is the file, zeros
      behind it, the arguments and an empty system call page, and nobody else's has changed. */
  method LoadApp(tlb: SoftTlb, pid: int, disk: seq<Block>, pOffset: nat, filesz: nat, argc: nat, argv: Option<seq<U32>>)
    returns (ok: bool)
    requires tlb.Valid() && IsPid(pid) && pid != tlb.loaded && RowHolds(tlb.appPages[pid], [])
    requires argc <= CMD_NARGS && (argv.Some? ==> |argv.value| == ARG_WORDS * argc)
    requires pOffset / BLOCK_SIZE + (filesz + 511) / 512 <= |disk|
    modifies tlb`mem, tlb`held, tlb`appPages, tlb.pages.bitmap
    ensures ok <==> |old(tlb.pages.Used())| + APPS_NPAGES <= NPAGES && filesz <= APPS_SIZE
    ensures ok ==> tlb.Valid() && Loaded(tlb.Views()[pid], disk, pOffset / BLOCK_SIZE, filesz, argc, argv)
    ensures ok ==> forall p :: 0 <= p < NPIDS && p != pid ==> tlb.Views()[p] == old(tlb.Views())[p]
    ensures ok ==> |tlb.pages.Used()| == |old(tlb.pages.Used())| + APPS_NPAGES
  {
    hide SoftTlb.Valid, TableOk, HoldsFile, HoldsArgs, Filled, RowHolds;
    ghost var views := tlb.Views();
    ghost var v: View;
    var start := pOffset / BLOCK_SIZE;
    var paddrs;
    ok, paddrs, v := LoadRegion(tlb, pid, disk, start, filesz);
    if !ok { return; }
    var paddr;
    ok, paddr := NewPage(tlb, pid, paddrs, ARG_PAGE, views, v);
    if !ok { return; }
    Untouched(v, ARG_PAGE, ZeroPage(), disk, start, filesz);
    v := v[ARG_PAGE := ZeroPage()];
    ghost var v1 := v;
    ghost var private := paddrs + [paddr];
    v := WriteArgs(tlb, pid, paddr, argc, argv, private, views, v);
    Untouched(v1, ARG_PAGE, v[ARG_PAGE], disk, start, filesz);
    ok, paddr := NewPage(tlb, pid, private, SYSCALL_PAGE, views, v);
    if !ok { return; }
    Untouched(v, SYSCALL_PAGE, ZeroPage(), disk, start, filesz);
    v := v[SYSCALL_PAGE := ZeroPage()];
    assert tlb.Views()[pid] == v;
  }

  /** After a switch to the process, what its execution pages hold is the loaded program. */
  method LoadAndSwitch(tlb: SoftTlb, pid: int, disk: seq<Block>, pOffset: nat, filesz: nat, argc: nat, argv: Option<seq<U32>>)
    returns (ok: bool)
    requires tlb.Valid() && IsPid(pid) && pid != tlb.loaded && RowHolds(tlb.appPages[pid], [])
    requires argc <= CMD_NARGS && (argv.Some? ==> |argv.value| == ARG_WORDS * argc)
    requires pOffset / BLOCK_SIZE + (filesz + 511) / 512 <= |disk|
    modifies tlb`mem, tlb`held, tlb`appPages, tlb`loaded, tlb.pages.bitmap
    ensures ok <==> |old(tlb.pages.Used())| + APPS_NPAGES <= NPAGES && filesz <= APPS_SIZE
    ensures ok ==> tlb.Valid() && tlb.loaded == pid && Loaded(tlb.Views()[pid], disk, pOffset / BLOCK_SIZE, filesz, argc, argv)
    ensures ok ==> forall p :: 0 <= p < NPIDS && p != pid ==> tlb.Views()[p] == old(tlb.Views())[p]
    ensures ok ==> forall e :: e in tlb.Views()[pid] ==> e < |tlb.mem| && tlb.mem[e] == tlb.Views()[pid][e]
  {
    ok := LoadApp(tlb, pid, disk, pOffset, filesz, argc, argv);
    if ok {
      tlb.Switch(pid);
      forall e | e in tlb.Views()[pid]
        ensures e < |tlb.mem| && tlb.mem[e] == tlb.Views()[pid][e]
      {
        StoredViews(tlb.appPages, pid, tlb.mem, e, ZeroPage());
      }
    }
  }
}
