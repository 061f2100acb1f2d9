/** The life of processes across kernel, loader and page allocator: boot, and starting a program. */
module LifeCycle {
  import opened PageAlloc
  import opened Mmu
  import opened Kernel
  import opened Loader
  import opened Words

  /** An unused slot of the process table has no memory. */
  ghost predicate SlotsEmpty(k: KState) {
    && |k.procs| == MAX_NPROCESS && |k.views| == NPIDS
    && forall i :: 0 <= i < NPIDS - 1 && k.procs[i].status == Unused ==> k.views[i + 1] == map[]
  }

  /** The same slots are unused. */
  ghost predicate SameUnused(procs: seq<Process>, procs': seq<Process>) {
    && |procs'| == |procs| == MAX_NPROCESS
    && forall i :: 0 <= i < MAX_NPROCESS ==> (procs'[i].status == Unused <==> procs[i].status == Unused)
  }

  lemma YieldSameUnused(k: KState)
    requires |k.procs| == MAX_NPROCESS && k.curr < MAX_NPROCESS && NextIdx(k.procs, k.curr, 1) != -1
    ensures SameUnused(k.procs, Yielded(k).procs)
  {}

  lemma SentSameUnused(k: KState)
    requires |k.procs| == MAX_NPROCESS && k.curr < MAX_NPROCESS - 1 && |k.views| == NPIDS
    requires KnownPid(k.procs, Record(k, k.curr + 1)[2]) && Record(k, k.curr + 1)[2] < NPIDS
    requires k.procs[k.curr].status == Running
    ensures SameUnused(k.procs, Sent(k).procs) && Sent(k).curr == k.curr
  {
    hide Record, Content;
  }

  lemma ReceivedSameUnused(k: KState)
    requires |k.procs| == MAX_NPROCESS && k.curr < MAX_NPROCESS - 1 && |k.views| == NPIDS
    requires Record(k, k.curr + 1)[1] < MAX_NPROCESS
    requires k.procs[k.curr].status == Running
    ensures SameUnused(k.procs, Received(k).procs) && Received(k).curr == k.curr
  {
    hide Record, Content;
  }

  /** The scheduler, and a rendezvous, leave unused slots alone. */
  lemma UnusedStays(k: KState, k': KState)
    requires SyscallDone(k, k')
    ensures SameUnused(k.procs, k'.procs)
  {
    hide Consistent, ProcsOk, Sent, Received, Yielded;
    HasOwnRecord(k);
    var k1, rec := EnterSyscall(k), Record(k, k.curr + 1);
    RecordSet(k, k.curr + 1, SetWord(SetWord(rec, RETVAL, 0), 0, 0));
    assert k1.procs == k.procs && k1.curr == k.curr && |k1.views| == NPIDS;
    assert Record(k1, k.curr + 1)[1] == rec[1] && Record(k1, k.curr + 1)[2] == rec[2];
    hide Record, Content, EnterSyscall, SetWord;
    if rec[0] == SYS_RECV {
      ReceivedSameUnused(k1);
      YieldSameUnused(Received(k1));
    } else if rec[0] == SYS_SEND {
      SentSameUnused(k1);
      YieldSameUnused(Sent(k1));
    } else {
      YieldSameUnused(k1);
    }
  }

  lemma SyscallCaller(k: KState, k': KState)
    requires SyscallDone(k, k')
    ensures |k.procs| == MAX_NPROCESS && k.curr < MAX_NPROCESS && k.procs[k.curr].status == Running
    ensures forall r :: r in DeliveredTo(k) && r <= MAX_NPROCESS ==> 0 < r && k.procs[r - 1].status != Unused
  {
    hide Consistent;
    HasOwnRecord(k);
  }

  /** Nor does any interrupt give memory to an unused slot. */
  lemma SlotsStayEmpty(k: KState, k': KState, id: nat, ctrlC: bool)
    requires InterruptDone(k, k', id, ctrlC) && SlotsEmpty(k)
    ensures SlotsEmpty(k')
  {
    hide SyscallDone, Consistent, ProcsOk, ContextSaved, Scheduled;
    HasOwnRecord(k);
    if id == INTR_ID_TIMER && k.curr + 1 < GPID_SHELL {
    } else if k.curr + 1 >= GPID_USER_START && ctrlC {
    } else if id == INTR_ID_SOFT {
      UnusedStays(k, k');
      SyscallIsolated(k, k');
      SyscallCaller(k, k');
    } else {
      YieldSameUnused(k);
    }
  }

  /** Boot: the first process is loaded, switched to, and entered in the process table. */
  method Boot(ram: seq<Page>, disk: seq<Block>, pOffset: nat, filesz: nat) returns (sys: System?)
    requires |ram| == RAM_PAGES && pOffset / BLOCK_SIZE + (filesz + 511) / 512 <= |disk|
    ensures sys != null <==> filesz <= APPS_SIZE
    ensures sys != null ==> fresh(sys) && fresh(sys.mmu) && fresh(sys.mmu.pages) && fresh(sys.mmu.pages.bitmap)
    ensures sys != null ==> sys.UserMode() && sys.currIdx == 0 && SlotsEmpty(sys.State())
    ensures sys != null ==> Loaded(sys.mmu.Views()[1], disk, pOffset / BLOCK_SIZE, filesz, 0, None)
  {
    var tlb := new SoftTlb(ram);
    EmptyView(tlb.mem, tlb.appPages[1], false);
    var ok := LoadAndSwitch(tlb, 1, disk, pOffset, filesz, 0, None);
    if !ok {
      return null;
    }
    sys := new System(tlb);
  }

  /** Starting a program: a slot is taken, the program loaded into fresh pages, and the process
      readied.  Nobody else notices. */
  method Spawn(sys: System, disk: seq<Block>, pOffset: nat, filesz: nat, argc: nat, argv: Option<seq<U32>>)
    returns (ok: bool, pid: int)
    requires sys.UserMode() && SlotsEmpty(sys.State())
    requires exists i :: 0 <= i < MAX_NPROCESS - 1 && sys.procs[i].status == Unused
    requires argc <= CMD_NARGS && (argv.Some? ==> |argv.value| == ARG_WORDS * argc)
    requires pOffset / BLOCK_SIZE + (filesz + 511) / 512 <= |disk|
    modifies sys`procs, sys.mmu`mem, sys.mmu`held, sys.mmu`appPages, sys.mmu.pages.bitmap
    ensures ok <==> |old(sys.mmu.pages.Used())| + APPS_NPAGES <= NPAGES && filesz <= APPS_SIZE
    ensures ok ==> sys.UserMode() && SlotsEmpty(sys.State())
    ensures ok ==> IsPid(pid) && old(sys.procs)[pid - 1].status == Unused
                   && sys.procs == old(sys.procs)[pid - 1 := old(sys.procs)[pid - 1].(pid := pid, status := Ready)]
    ensures ok ==> Loaded(sys.mmu.Views()[pid], disk, pOffset / BLOCK_SIZE, filesz, argc, argv)
                   && sys.mmu.Views() == old(sys.mmu.Views())[pid := sys.mmu.Views()[pid]]
  {
    hide SoftTlb.Valid, Consistent, ProcsOk, RowHolds, Loaded, Managed;
    HasOwnRecord(sys.State());
    pid := sys.ProcAlloc();
    SlotIsEmpty(sys.mmu, pid);
    ghost var k := sys.State();
    ok := LoadApp(sys.mmu, pid, disk, pOffset, filesz, argc, argv);
    if ok {
      HasSyscallPage(sys.mmu.Views()[pid], disk, pOffset / BLOCK_SIZE, filesz, argc, argv);
      MemoryManaged(k, sys.State(), pid - 1);
      LifeCycleKeeps(k, sys.State(), pid - 1);
      sys.ProcSetReady(pid);
    }
  }

  /** The memory of a process being loaded is set up. */
  lemma MemoryManaged(k: KState, k': KState, j: nat)
    requires Running1(k) && j < MAX_NPROCESS - 1 && k.procs[j].status == Loading && k.procs[j].pid == j + 1
    requires k' == k.(views := k'.views) && |k'.views| == NPIDS
    requires forall p :: 0 <= p < NPIDS && p != j + 1 ==> k'.views[p] == k.views[p]
    ensures Managed(k, k', j)
  {}

  lemma SlotIsEmpty(tlb: SoftTlb, pid: int)
    requires tlb.Valid() && IsPid(pid) && pid != tlb.loaded && tlb.Views()[pid] == map[]
    ensures RowHolds(tlb.appPages[pid], [])
  {
    EmptyView(tlb.mem, tlb.appPages[pid], false);
  }

  lemma HasSyscallPage(v: View, disk: seq<Block>, start: nat, filesz: nat, argc: nat, argv: Option<seq<U32>>)
    requires Loaded(v, disk, start, filesz, argc, argv)
    ensures SYSCALL_PAGE in v
  {}

  /** Ending a process frees its slot and its memory. */
  method Exit(sys: System, pid: int)
    requires sys.UserMode() && SlotsEmpty(sys.State())
    requires IsPid(pid) && pid != sys.currIdx + 1 && sys.procs[pid - 1].pid == pid
    modifies sys`procs, sys.mmu`appPages, sys.mmu.pages.bitmap
    ensures sys.UserMode() && SlotsEmpty(sys.State()) && sys.procs[pid - 1].status == Unused
    ensures sys.mmu.Views() == old(sys.mmu.Views())[pid := map[]]
  {
    sys.ProcFree(pid);
  }
}
