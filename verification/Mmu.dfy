/** The software TLB: processes share the same execution pages, and every switch copies
    them out to, and in from, private pages. */
module Mmu {
  import opened PageAlloc
  import opened Words

  const WORDS_PER_PAGE := 1024
  const RAM_PAGES := 4096        // 16 MB from RAM_START to FREE_MEM_END
  const FREE_PAGE0 := 2048       // page number of FREE_MEM_START, which is also APPS_STACK_TOP
  const APPS_PAGE0 := 1024       // page number of APPS_ENTRY
  const ARG_PAGE := 1536         // page number of APPS_ARG
  const SYSCALL_PAGE := 1537     // page number of SYSCALL_ARG
  const STACK_PAGE := 2047       // the page below APPS_STACK_TOP
  const APPS_NPAGES := 6
  const NPIDS := 16              // rows of app_pages; pids run from 1 to 15

  type Page = s: seq<U32> | |s| == 1024 witness seq(1024, _ => 0)

  function ZeroPage(): (p: Page)
    ensures forall i :: 0 <= i < WORDS_PER_PAGE ==> p[i] == 0
  {
    seq(1024, _ => 0)
  }

  /** The memory of a process: the contents of its execution pages. */
  type View = map<nat, Page>

  /** The memories of all processes after page e of pid's is overwritten. */
  function Stored(views: seq<View>, pid: int, e: nat, page: Page): seq<View>
    requires 0 <= pid < |views|
  {
    var v: View := views[pid][e := page];
    views[pid := v]
  }

  datatype Mapping = Unmapped | Mapped(private: nat, exec: nat)

  type Row = s: seq<Mapping> | |s| == 6 witness seq(6, _ => Unmapped)

  predicate IsPid(pid: int) {
    1 <= pid < NPIDS
  }

  predicate IsExecPage(e: nat) {
    APPS_PAGE0 <= e < FREE_PAGE0 && e != STACK_PAGE
  }

  ghost predicate MappingOk(m: Mapping) {
    m.Mapped? ==> IsExecPage(m.exec) && FREE_PAGE0 <= m.private < FREE_PAGE0 + NPAGES
  }

  /** Within a row the execution pages are distinct. */
  ghost predicate RowOk(row: Row) {
    && (forall i :: 0 <= i < APPS_NPAGES ==> MappingOk(row[i]))
    && (forall i, j :: 0 <= i < j < APPS_NPAGES && row[i].Mapped? && row[j].Mapped? ==>
          row[i].exec != row[j].exec)
  }

  /** No private page appears twice in the whole table. */
  ghost predicate NoSharing(table: seq<Row>) {
    forall p, i, q, j {:trigger table[p][i], table[q][j]} ::
      0 <= p < |table| && 0 <= q < |table| && 0 <= i < APPS_NPAGES && 0 <= j < APPS_NPAGES
      && table[p][i].Mapped? && table[q][j].Mapped? && table[p][i].private == table[q][j].private
      ==> p == q && i == j
  }

  ghost predicate TableOk(table: seq<Row>) {
    && |table| == NPIDS
    && (forall p :: 0 <= p < NPIDS ==> RowOk(table[p]))
    && NoSharing(table)
  }

  /** Some process has private page x. */
  ghost predicate IsOwned(table: seq<Row>, x: nat) {
    exists p, i {:trigger table[p][i]} ::
      0 <= p < |table| && 0 <= i < APPS_NPAGES && table[p][i].Mapped? && table[p][i].private == x
  }

  ghost predicate RowHasBefore(row: Row, x: nat, n: nat)
    requires n <= APPS_NPAGES
  {
    exists i :: 0 <= i < n && row[i].Mapped? && row[i].private == x
  }

  ghost predicate RowHas(row: Row, x: nat) {
    RowHasBefore(row, x, APPS_NPAGES)
  }

  /** Where the contents of a mapped page currently are. */
  function Place(m: Mapping, loaded: bool): nat
    requires m.Mapped?
  {
    if loaded then m.exec else m.private
  }

  /** The memory of a process, page by page: its execution pages while it is loaded, else
      its private pages. */
  ghost function ViewUpto(mem: seq<Page>, row: Row, loaded: bool, n: nat): View
    requires |mem| == RAM_PAGES && RowOk(row) && n <= APPS_NPAGES
  {
    if n == 0 then map[]
    else if row[n - 1].Unmapped? then ViewUpto(mem, row, loaded, n - 1)
    else
      assert MappingOk(row[n - 1]);
      ViewUpto(mem, row, loaded, n - 1)[row[n - 1].exec := mem[Place(row[n - 1], loaded)]]
  }

  ghost function ViewOf(mem: seq<Page>, row: Row, loaded: bool): View
    requires |mem| == RAM_PAGES && RowOk(row)
  {
    ViewUpto(mem, row, loaded, APPS_NPAGES)
  }

  lemma {:induction false} ViewAt(mem: seq<Page>, row: Row, loaded: bool, n: nat, i: nat)
    requires |mem| == RAM_PAGES && RowOk(row) && i < n <= APPS_NPAGES && row[i].Mapped?
    ensures MappingOk(row[i])
    ensures row[i].exec in ViewUpto(mem, row, loaded, n)
    ensures ViewUpto(mem, row, loaded, n)[row[i].exec] == mem[Place(row[i], loaded)]
  {
    if i < n - 1 { ViewAt(mem, row, loaded, n - 1, i); }
  }

  lemma {:induction false} ViewSlot(mem: seq<Page>, row: Row, loaded: bool, n: nat, e: nat) returns (i: nat)
    requires |mem| == RAM_PAGES && RowOk(row) && n <= APPS_NPAGES
    requires e in ViewUpto(mem, row, loaded, n)
    ensures i < n && row[i].Mapped? && row[i].exec == e
  {
    if row[n - 1].Mapped? && row[n - 1].exec == e {
      i := n - 1;
    } else {
      i := ViewSlot(mem, row, loaded, n - 1, e);
    }
  }

  /** A view only depends on the pages it is made of, wherever they are. */
  lemma {:induction false} SameView(mem: seq<Page>, mem': seq<Page>, row: Row, loaded: bool, loaded': bool, n: nat)
    requires |mem| == RAM_PAGES == |mem'| && RowOk(row) && n <= APPS_NPAGES
    requires forall i :: 0 <= i < n && row[i].Mapped? ==>
               MappingOk(row[i]) && mem'[Place(row[i], loaded')] == mem[Place(row[i], loaded)]
    ensures ViewUpto(mem', row, loaded', n) == ViewUpto(mem, row, loaded, n)
  {
    if n > 0 { SameView(mem, mem', row, loaded, loaded', n - 1); }
  }

  /** Writing one execution page of the loaded process. */
  lemma {:induction false} WrittenView(mem: seq<Page>, row: Row, e: nat, page: Page, n: nat)
    requires |mem| == RAM_PAGES && RowOk(row) && n <= APPS_NPAGES && e < RAM_PAGES
    ensures var v := ViewUpto(mem, row, true, n);
            ViewUpto(mem[e := page], row, true, n) == if e in v then v[e := page] else v
  {
    if n > 0 {
      WrittenView(mem, row, e, page, n - 1);
      assert MappingOk(row[n - 1]);
    }
  }

  /** Entering a mapping in a row whose first free slot is i. */
  lemma {:induction false} MappedView(mem: seq<Page>, row: Row, i: nat, m: Mapping, n: nat)
    requires |mem| == RAM_PAGES && RowOk(row) && i < APPS_NPAGES && n <= APPS_NPAGES
    requires row[i].Unmapped? && m.Mapped? && MappingOk(m)
    requires forall j :: 0 <= j < APPS_NPAGES && row[j].Mapped? ==> row[j].exec != m.exec
    requires RowOk(row[i := m])
    ensures ViewUpto(mem, row[i := m], false, n)
            == if i < n then ViewUpto(mem, row, false, n)[m.exec := mem[m.private]] else ViewUpto(mem, row, false, n)
  {
    if n > 0 {
      MappedView(mem, row, i, m, n - 1);
    }
  }

  /** The memories of all processes, when `loaded` is the one in the execution pages. */
  ghost function AllViews(mem: seq<Page>, table: seq<Row>, loaded: int): (v: seq<View>)
    requires |mem| == RAM_PAGES && TableOk(table)
    ensures |v| == NPIDS
    ensures forall p :: 0 <= p < NPIDS ==> v[p] == ViewOf(mem, table[p], p == loaded)
  {
    seq(NPIDS, p requires 0 <= p < NPIDS => ViewOf(mem, table[p], p == loaded))
  }

  /** The first n mapped pages of a row have been copied and nothing else has changed. */
  ghost predicate Copied(mem0: seq<Page>, mem1: seq<Page>, row: Row, private2exec: bool, n: nat)
    requires |mem0| == |mem1| == RAM_PAGES && RowOk(row) && n <= APPS_NPAGES
  {
    && (forall i :: 0 <= i < n && row[i].Mapped? ==>
          MappingOk(row[i]) && mem1[Place(row[i], private2exec)] == mem0[Place(row[i], !private2exec)])
    && (forall x :: 0 <= x < RAM_PAGES
                    && (forall i :: 0 <= i < n && row[i].Mapped? ==> x != Place(row[i], private2exec)) ==>
          mem1[x] == mem0[x])
  }

  /** Writing the private page of slot i while the process is not loaded. */
  lemma {:induction false} PatchedView(mem: seq<Page>, row: Row, i: nat, page: Page, n: nat)
    requires |mem| == RAM_PAGES && RowOk(row) && i < APPS_NPAGES && n <= APPS_NPAGES
    requires row[i].Mapped? && MappingOk(row[i])
    requires forall j :: 0 <= j < APPS_NPAGES && j != i && row[j].Mapped? ==> row[j].private != row[i].private
    ensures var v := ViewUpto(mem, row, false, n);
            ViewUpto(mem[row[i].private := page], row, false, n) == if i < n then v[row[i].exec := page] else v
  {
    if n > 0 {
      PatchedView(mem, row, i, page, n - 1);
      assert MappingOk(row[n - 1]);
    }
  }

  lemma PatchedViews(table: seq<Row>, loaded: int, mem: seq<Page>, pid: int, i: nat, page: Page)
    requires TableOk(table) && |mem| == RAM_PAGES && 0 <= pid < NPIDS && pid != loaded
    requires i < APPS_NPAGES && table[pid][i].Mapped?
    ensures MappingOk(table[pid][i])
    ensures table[pid][i].exec in AllViews(mem, table, loaded)[pid]
            && AllViews(mem, table, loaded)[pid][table[pid][i].exec] == mem[table[pid][i].private]
    ensures AllViews(mem[table[pid][i].private := page], table, loaded)
            == Stored(AllViews(mem, table, loaded), pid, table[pid][i].exec, page)
  {
    var m := table[pid][i];
    assert MappingOk(m);
    ViewAt(mem, table[pid], false, APPS_NPAGES, i);
    assert forall j :: 0 <= j < APPS_NPAGES && j != i && table[pid][j].Mapped? ==> table[pid][j].private != m.private;
    PatchedView(mem, table[pid], i, page, APPS_NPAGES);
    forall p | 0 <= p < NPIDS && p != pid
      ensures ViewOf(mem[m.private := page], table[p], p == loaded) == ViewOf(mem, table[p], p == loaded)
    {
      forall j | 0 <= j < APPS_NPAGES && table[p][j].Mapped?
        ensures MappingOk(table[p][j]) && Place(table[p][j], p == loaded) != m.private
      {
        assert MappingOk(table[p][j]);
      }
      SameView(mem, mem[m.private := page], table[p], p == loaded, p == loaded, APPS_NPAGES);
    }
  }

  /** A page with some words replaced, from word `at` on. */
  function Spliced(page: Page, at: nat, words: seq<U32>): (r: Page)
    ensures at + |words| <= WORDS_PER_PAGE ==>
              forall w :: 0 <= w < WORDS_PER_PAGE ==> r[w] == if at <= w < at + |words| then words[w - at] else page[w]
  {
    if at + |words| <= 1024 then page[..at] + words + page[at + |words|..] else page
  }

  function FirstFree(row: Row): (i: nat)
    ensures i <= APPS_NPAGES && (forall j :: 0 <= j < i ==> row[j].Mapped?)
    ensures i < APPS_NPAGES ==> row[i].Unmapped?
  {
    if row[0].Unmapped? then 0 else if row[1].Unmapped? then 1 else if row[2].Unmapped? then 2
    else if row[3].Unmapped? then 3 else if row[4].Unmapped? then 4 else if row[5].Unmapped? then 5 else 6
  }

  /** Copying the loaded process out leaves all memory in private pages. */
  lemma SavedViews(table: seq<Row>, pid: int, mem0: seq<Page>, mem1: seq<Page>)
    requires TableOk(table) && IsPid(pid) && |mem0| == |mem1| == RAM_PAGES
    requires Copied(mem0, mem1, table[pid], false, APPS_NPAGES)
    ensures AllViews(mem1, table, -1) == AllViews(mem0, table, pid)
  {
    forall p | 0 <= p < NPIDS
      ensures ViewOf(mem1, table[p], false) == ViewOf(mem0, table[p], p == pid)
    {
      forall i | 0 <= i < APPS_NPAGES && table[p][i].Mapped?
        ensures MappingOk(table[p][i])
        ensures mem1[Place(table[p][i], false)] == mem0[Place(table[p][i], p == pid)]
      {
        assert MappingOk(table[p][i]);
        if p != pid {
          assert forall j :: 0 <= j < APPS_NPAGES && table[pid][j].Mapped? ==> table[pid][j].private != table[p][i].private;
        }
      }
      SameView(mem0, mem1, table[p], p == pid, false, APPS_NPAGES);
    }
  }

  /** Copying a process in leaves everybody else's memory in private pages. */
  lemma LoadedViews(table: seq<Row>, pid: int, mem0: seq<Page>, mem1: seq<Page>)
    requires TableOk(table) && IsPid(pid) && |mem0| == |mem1| == RAM_PAGES
    requires Copied(mem0, mem1, table[pid], true, APPS_NPAGES)
    ensures AllViews(mem1, table, pid) == AllViews(mem0, table, -1)
  {
    forall p | 0 <= p < NPIDS
      ensures ViewOf(mem1, table[p], p == pid) == ViewOf(mem0, table[p], false)
    {
      forall i | 0 <= i < APPS_NPAGES && table[p][i].Mapped?
        ensures MappingOk(table[p][i])
        ensures mem1[Place(table[p][i], p == pid)] == mem0[Place(table[p][i], false)]
      {
        assert MappingOk(table[p][i]);
        if p != pid {
          forall j | 0 <= j < APPS_NPAGES && table[pid][j].Mapped?
            ensures table[pid][j].exec != table[p][i].private
          {
            assert MappingOk(table[pid][j]);
          }
        }
      }
      SameView(mem0, mem1, table[p], false, p == pid, APPS_NPAGES);
    }
  }

  /** Changing pages that belong to nobody, or the shared stack page, changes no memory. */
  lemma SameViews(table: seq<Row>, loaded: int, mem0: seq<Page>, mem1: seq<Page>, changed: nat)
    requires TableOk(table) && |mem0| == |mem1| == RAM_PAGES
    requires forall x :: 0 <= x < RAM_PAGES && x != changed ==> mem1[x] == mem0[x]
    requires changed == STACK_PAGE || (FREE_PAGE0 <= changed && !IsOwned(table, changed))
    ensures AllViews(mem1, table, loaded) == AllViews(mem0, table, loaded)
  {
    forall p | 0 <= p < NPIDS
      ensures ViewOf(mem1, table[p], p == loaded) == ViewOf(mem0, table[p], p == loaded)
    {
      forall i | 0 <= i < APPS_NPAGES && table[p][i].Mapped?
        ensures MappingOk(table[p][i])
        ensures mem1[Place(table[p][i], p == loaded)] == mem0[Place(table[p][i], p == loaded)]
      {
        assert MappingOk(table[p][i]);
        assert IsOwned(table, table[p][i].private);
      }
      SameView(mem0, mem1, table[p], p == loaded, p == loaded, APPS_NPAGES);
    }
  }

  /** A store to an execution page changes the loaded process's memory, and only that. */
  lemma StoredViews(table: seq<Row>, loaded: int, mem: seq<Page>, e: nat, page: Page)
    requires TableOk(table) && IsPid(loaded) && |mem| == RAM_PAGES
    requires e in AllViews(mem, table, loaded)[loaded]
    ensures e < RAM_PAGES && IsExecPage(e) && mem[e] == AllViews(mem, table, loaded)[loaded][e]
    ensures AllViews(mem[e := page], table, loaded)
            == Stored(AllViews(mem, table, loaded), loaded, e, page)
  {
    var i := ViewSlot(mem, table[loaded], true, APPS_NPAGES, e);
    assert MappingOk(table[loaded][i]);
    ViewAt(mem, table[loaded], true, APPS_NPAGES, i);
    WrittenView(mem, table[loaded], e, page, APPS_NPAGES);
    forall p | 0 <= p < NPIDS && p != loaded
      ensures ViewOf(mem[e := page], table[p], false) == ViewOf(mem, table[p], false)
    {
      forall j | 0 <= j < APPS_NPAGES && table[p][j].Mapped?
        ensures MappingOk(table[p][j])
      {
        assert MappingOk(table[p][j]);
      }
      SameView(mem, mem[e := page], table[p], false, false, APPS_NPAGES);
    }
  }

  lemma EmptyRow(mem: seq<Page>, row: Row, loaded: bool)
    requires |mem| == RAM_PAGES && forall i :: 0 <= i < APPS_NPAGES ==> row[i].Unmapped?
    ensures RowOk(row) && ViewOf(mem, row, loaded) == map[]
  {
    if e :| e in ViewOf(mem, row, loaded) {
      var i := ViewSlot(mem, row, loaded, APPS_NPAGES, e);
    }
  }

  /** A process without memory has an empty row. */
  lemma EmptyView(mem: seq<Page>, row: Row, loaded: bool)
    requires |mem| == RAM_PAGES && RowOk(row) && ViewOf(mem, row, loaded) == map[]
    ensures forall i :: 0 <= i < APPS_NPAGES ==> row[i].Unmapped?
  {
    forall i | 0 <= i < APPS_NPAGES
      ensures row[i].Unmapped?
    {
      if row[i].Mapped? { ViewAt(mem, row, loaded, APPS_NPAGES, i); }
    }
  }

  /** Entering a mapping in slot i of a row. */
  lemma TableEntered(table: seq<Row>, pid: int, i: nat, m: Mapping)
    requires TableOk(table) && 0 <= pid < NPIDS && i < APPS_NPAGES
    requires table[pid][i].Unmapped? && m.Mapped? && MappingOk(m) && !IsOwned(table, m.private)
    requires forall j :: 0 <= j < APPS_NPAGES && table[pid][j].Mapped? ==> table[pid][j].exec != m.exec
    ensures TableOk(table[pid := table[pid][i := m]])
    ensures forall x :: IsOwned(table[pid := table[pid][i := m]], x) <==> x == m.private || IsOwned(table, x)
  {
    var table' := table[pid := table[pid][i := m]];
    assert table'[pid][i] == m;
    forall x
      ensures IsOwned(table', x) <==> x == m.private || IsOwned(table, x)
    {
      if IsOwned(table, x) {
        var p, j :| 0 <= p < |table| && 0 <= j < APPS_NPAGES && table[p][j].Mapped? && table[p][j].private == x;
        assert table'[p][j] == table[p][j];
      }
      if IsOwned(table', x) && x != m.private {
        var p, j :| 0 <= p < |table'| && 0 <= j < APPS_NPAGES && table'[p][j].Mapped? && table'[p][j].private == x;
        assert table'[p][j] == table[p][j];
      }
    }
  }

  lemma RowCleared(table: seq<Row>, pid: int, table': seq<Row>)
    requires TableOk(table) && 0 <= pid < NPIDS == |table'|
    requires forall p :: 0 <= p < NPIDS && p != pid ==> table'[p] == table[p]
    requires forall j :: 0 <= j < APPS_NPAGES ==> table'[pid][j] == Unmapped
    ensures TableOk(table')
    ensures forall x :: IsOwned(table', x) <==> IsOwned(table, x) && !RowHas(table[pid], x)
  {
    forall x
      ensures IsOwned(table', x) <==> IsOwned(table, x) && !RowHas(table[pid], x)
    {
      if IsOwned(table', x) {
        var p, j :| 0 <= p < |table'| && 0 <= j < APPS_NPAGES && table'[p][j].Mapped? && table'[p][j].private == x;
        assert table[p][j] == table'[p][j];
      }
      if IsOwned(table, x) && !RowHas(table[pid], x) {
        var p, j :| 0 <= p < |table| && 0 <= j < APPS_NPAGES && table[p][j].Mapped? && table[p][j].private == x;
        assert table'[p][j] == table[p][j];
      }
    }
  }

  /** The table with a mapping in the first free slot of a row. */
  function Entered(table: seq<Row>, pid: int, private: nat, exec: nat): seq<Row>
    requires 0 <= pid < |table|
  {
    var i := FirstFree(table[pid]);
    if i < APPS_NPAGES then
      var row: Row := table[pid][i := Mapped(private, exec)];
      table[pid := row]
    else table
  }

  class SoftTlb {
    var mem: seq<Page>
    const pages: PageBitmap
    var appPages: seq<Row>
    var loaded: int                // curr_vm_pid; -1 before the first switch
    ghost var held: set<nat>       // pages handed out and not mapped yet

    ghost predicate Valid()
      reads this, pages.bitmap
    {
      && |mem| == RAM_PAGES && pages.Valid() && TableOk(appPages)
      && (loaded == -1 || IsPid(loaded))
      && (forall x :: x in held ==> FREE_PAGE0 <= x < FREE_PAGE0 + NPAGES && !IsOwned(appPages, x))
      && (forall id :: 0 <= id < NPAGES ==>
            (pages.Bit(id) <==> FREE_PAGE0 + id in held || IsOwned(appPages, FREE_PAGE0 + id)))
    }

    /** The memory of every process, indexed by pid. */
    ghost function Views(): (v: seq<View>)
      requires Valid()
      reads this, pages.bitmap
      ensures |v| == NPIDS
    {
      AllViews(mem, appPages, loaded)
    }

    constructor (ram: seq<Page>)
      requires |ram| == RAM_PAGES
      ensures Valid() && fresh(pages) && fresh(pages.bitmap) && mem == ram && loaded == -1 && held == {}
      ensures Views() == seq(NPIDS, _ => map[]) && pages.Used() == {}
    {
      mem := ram;
      pages := new PageBitmap();
      appPages := seq(NPIDS, _ => seq(APPS_NPAGES, _ => Unmapped));
      loaded := -1;
      held := {};
      new;
      forall p | 0 <= p < NPIDS
        ensures RowOk(appPages[p]) && ViewOf(mem, appPages[p], p == loaded) == map[]
      {
        EmptyRow(mem, appPages[p], p == loaded);
      }
    }

    /** A zeroed page that nobody owns; halts (ok is false) when memory is exhausted. */
    method Alloc() returns (ok: bool, page: nat)
      requires Valid()
      modifies this`mem, this`held, pages.bitmap
      ensures Valid() && Views() == old(Views())
      ensures ok <==> exists id :: 0 <= id < NPAGES && !old(pages.Bit(id))
      ensures !ok ==> mem == old(mem) && held == old(held)
      ensures ok ==> FREE_PAGE0 <= page < FREE_PAGE0 + NPAGES && page !in old(held) && !IsOwned(appPages, page)
                     && held == old(held) + {page} && mem == old(mem)[page := ZeroPage()]
                     && page - FREE_PAGE0 !in old(pages.Used()) && pages.Used() == old(pages.Used()) + {page - FREE_PAGE0}
      ensures ok ==> appPages == old(appPages)
    {
      var id;
      ghost var used := pages.Used();
      ok, id := pages.Take();
      page := FREE_PAGE0 + id;
      if ok {
        mem := mem[page := ZeroPage()];
        held := held + {page};
        assert forall j :: 0 <= j < NPAGES ==> (pages.Bit(j) <==> j in used || j == id);
        SameViews(appPages, loaded, old(mem), mem, page);
      } else {
        assert forall j :: 0 <= j < NPAGES ==> (pages.Bit(j) <==> j in used);
      }
    }

    lemma NotYetMapped(pid: int, exec: nat)
      requires Valid() && IsPid(pid) && pid != loaded && exec !in Views()[pid]
      ensures |appPages| == NPIDS
      ensures forall j :: 0 <= j < APPS_NPAGES && appPages[pid][j].Mapped? ==> appPages[pid][j].exec != exec
    {
      forall j | 0 <= j < APPS_NPAGES && appPages[pid][j].Mapped?
        ensures appPages[pid][j].exec != exec
      {
        ViewAt(mem, appPages[pid], false, APPS_NPAGES, j);
      }
    }

    /** Fill an empty slot of pid's row. */
    method Enter(pid: int, i: nat, exec: nat, private: nat)
      requires Valid() && IsPid(pid) && pid != loaded && i < APPS_NPAGES && appPages[pid][i].Unmapped?
      requires private in held && IsExecPage(exec) && exec !in Views()[pid]
      modifies this`appPages, this`held
      ensures Valid() && held == old(held) - {private}
      ensures appPages == old(appPages)[pid := old(appPages)[pid][i := Mapped(private, exec)]]
      ensures Views() == Stored(old(Views()), pid, exec, mem[private])
    {
      var row, m := appPages[pid], Mapped(private, exec);
      NotYetMapped(pid, exec);
      TableEntered(appPages, pid, i, m);
      hide IsOwned, NoSharing;
      MappedView(mem, row, i, m, APPS_NPAGES);
      appPages := appPages[pid := row[i := m]];
      held := held - {private};
    }

    /** Enter a page handed out earlier into pid's row; halts when the row is full. */
    method Map(pid: int, exec: nat, private: nat) returns (ok: bool)
      requires Valid() && IsPid(pid) && pid != loaded
      requires private in held && IsExecPage(exec) && exec !in Views()[pid]
      modifies this`appPages, this`held
      ensures Valid()
      ensures ok <==> exists i :: 0 <= i < APPS_NPAGES && old(appPages)[pid][i].Unmapped?
      ensures !ok ==> held == old(held) && appPages == old(appPages)
      ensures ok ==> held == old(held) - {private}
                     && Views() == Stored(old(Views()), pid, exec, mem[private])
      ensures ok ==> appPages == Entered(old(appPages), pid, private, exec)
    {
      hide TableOk, IsOwned;
      NotYetMapped(pid, exec);
      var row := appPages[pid];
      var i := 0;
      while i < APPS_NPAGES
        invariant 0 <= i <= APPS_NPAGES
        invariant forall j :: 0 <= j < i ==> row[j].Mapped?
      {
        if row[i].Unmapped? {
          Enter(pid, i, exec, private);
          return true;
        }
        i := i + 1;
      }
      ok := false;
    }

    /** Copy pid's pages one way or the other: to the execution pages, or back from them. */
    method MemcopyHelper(pid: int, private2exec: bool)
      requires |mem| == RAM_PAGES && TableOk(appPages) && IsPid(pid)
      modifies this`mem
      ensures |mem| == RAM_PAGES && Copied(old(mem), mem, appPages[pid], private2exec, APPS_NPAGES)
    {
      var row := appPages[pid];
      var i := 0;
      while i < APPS_NPAGES
        invariant 0 <= i <= APPS_NPAGES && |mem| == RAM_PAGES
        invariant Copied(old(mem), mem, row, private2exec, i)
      {
        assert MappingOk(row[i]);
        if row[i].Mapped? {
          assert forall j :: 0 <= j < i && row[j].Mapped? ==> row[j].private != row[i].private;
          var src := if private2exec then row[i].private else row[i].exec;
          var dst := if private2exec then row[i].exec else row[i].private;
          mem := mem[dst := mem[src]];
        }
        i := i + 1;
      }
    }

    /** Load pid.  Nobody's memory changes, only the place where it is. */
    method Switch(pid: int)
      requires Valid() && IsPid(pid)
      modifies this`mem, this`loaded
      ensures Valid() && loaded == pid
      ensures mem[STACK_PAGE] == old(mem[STACK_PAGE])
      ensures Views() == old(Views())
    {
      if pid == loaded {
        return;
      }
      ghost var mem0 := mem;
      if loaded > 0 {
        MemcopyHelper(loaded, false);
        SavedViews(appPages, loaded, mem0, mem);
      }
      ghost var mem1 := mem;
      MemcopyHelper(pid, true);
      loaded := pid;
      LoadedViews(appPages, pid, mem1, mem);
    }

    /** Give back all pages of pid, which is not loaded, and nobody else's. */
    method Free(pid: int)
      requires Valid() && IsPid(pid) && pid != loaded
      modifies this`appPages, pages.bitmap
      ensures Valid()
      ensures forall id :: 0 <= id < NPAGES ==>
                (pages.Bit(id) <==> old(pages.Bit(id)) && !RowHas(old(appPages)[pid], FREE_PAGE0 + id))
      ensures Views() == old(Views())[pid := map[]]
    {
      ghost var table0 := appPages;
      ClearRow(pid);
      RowCleared(table0, pid, appPages);
      EmptyRow(mem, appPages[pid], false);
    }

    method ClearRow(pid: int)
      requires Valid() && IsPid(pid)
      modifies this`appPages, pages.bitmap
      ensures |appPages| == NPIDS
      ensures forall p :: 0 <= p < NPIDS && p != pid ==> appPages[p] == old(appPages)[p]
      ensures forall j :: 0 <= j < APPS_NPAGES ==> appPages[pid][j] == Unmapped
      ensures forall id :: 0 <= id < NPAGES ==>
                (pages.Bit(id) <==> old(pages.Bit(id)) && !RowHas(old(appPages)[pid], FREE_PAGE0 + id))
    {
      ghost var table0 := appPages;
      var i := 0;
      while i < APPS_NPAGES
        invariant 0 <= i <= APPS_NPAGES
        invariant |appPages| == NPIDS && pages.Valid()
        invariant forall p :: 0 <= p < NPIDS && p != pid ==> appPages[p] == table0[p]
        invariant forall j :: 0 <= j < APPS_NPAGES ==>
                    appPages[pid][j] == if j < i then Unmapped else table0[pid][j]
        invariant forall id :: 0 <= id < NPAGES ==>
                    (pages.Bit(id) <==> old(pages.Bit(id)) && !RowHasBefore(table0[pid], FREE_PAGE0 + id, i))
      {
        if appPages[pid][i].Mapped? {
          assert MappingOk(table0[pid][i]);
          ghost var used := pages.Used();
          pages.Clear(appPages[pid][i].private - FREE_PAGE0);
          assert forall id :: 0 <= id < NPAGES ==> (pages.Bit(id) <==> id in used && FREE_PAGE0 + id != table0[pid][i].private);
          appPages := appPages[pid := appPages[pid][i := Unmapped]];
        }
        i := i + 1;
      }
    }

    /** A load by the loaded process, or by the kernel on its behalf. */
    method LoadExec(e: nat) returns (page: Page)
      requires Valid() && loaded > 0 && e in Views()[loaded]
      ensures page == Views()[loaded][e]
    {
      StoredViews(appPages, loaded, mem, e, ZeroPage());
      page := mem[e];
    }

    /** A store to one of the loaded process's pages. */
    method StoreExec(e: nat, page: Page)
      requires Valid() && loaded > 0 && e in Views()[loaded]
      modifies this`mem
      ensures Valid() && mem[STACK_PAGE] == old(mem[STACK_PAGE])
      ensures Views() == Stored(old(Views()), loaded, e, page)
    {
      StoredViews(appPages, loaded, mem, e, page);
      mem := mem[e := page];
    }

    /** A store to the stack page, which all processes share and no view contains. */
    method StoreStack(page: Page)
      requires Valid()
      modifies this`mem
      ensures Valid() && mem[STACK_PAGE] == page && Views() == old(Views())
    {
      SameViews(appPages, loaded, mem, mem[STACK_PAGE := page], STACK_PAGE);
      mem := mem[STACK_PAGE := page];
    }

    /** A store to the private page of slot i of a process that is not loaded. */
    method PatchPrivate(pid: int, i: nat, private: nat, at: nat, words: seq<U32>)
      requires Valid() && IsPid(pid) && pid != loaded && i < APPS_NPAGES
      requires appPages[pid][i].Mapped? && appPages[pid][i].private == private && at + |words| <= WORDS_PER_PAGE
      modifies this`mem
      ensures Valid() && appPages[pid][i].exec in old(Views())[pid]
      ensures Views() == Stored(old(Views()), pid, appPages[pid][i].exec,
                                Spliced(old(Views())[pid][appPages[pid][i].exec], at, words))
    {
      PatchedViews(appPages, loaded, mem, pid, i, ZeroPage());
      var page := Spliced(mem[private], at, words);
      PatchedViews(appPages, loaded, mem, pid, i, page);
      mem := mem[private := page];
    }
  }
}
