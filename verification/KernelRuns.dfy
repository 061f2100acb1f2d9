/** Runs of the whole kernel: interrupts, user code and the life cycle of processes, in any
    order. */
module KernelRuns {
  import opened Kernel
  import opened Mmu
  import opened Words

  /** What can happen next: an interrupt, once the context has been saved; the saving of it; a
      store by the current process; and the allocation, readying or freeing of another one. */
  datatype Action =
    | Interrupt(id: nat, ctrlC: bool)
    | Save(stack: Page, depth: nat, pc: U32)
    | Store(e: nat, page: Page)
    | LifeCycle(slot: nat)

  ghost predicate Does(k: KState, a: Action, k': KState) {
    match a
    case Interrupt(id, ctrlC) => InterruptDone(k, k', id, ctrlC)
    case Save(stack, depth, pc) =>
      depth <= WORDS_PER_PAGE && k.curr < |k.procs| && k.curr + 1 < |k.procStack| && k' == ContextPushed(k, stack, depth, pc)
    case Store(e, page) =>
      k.curr + 1 < |k.views| && e in k.views[k.curr + 1] && k' == k.(views := Stored(k.views, k.curr + 1, e, page))
    case LifeCycle(j) => Managed(k, k', j)
  }

  /** A run passes through the states ks. */
  ghost predicate Run(ks: seq<KState>, acts: seq<Action>) {
    |ks| == |acts| + 1 && forall i :: 0 <= i < |acts| ==> Does(ks[i], acts[i], ks[i + 1])
  }

  lemma RunTail(ks: seq<KState>, acts: seq<Action>)
    requires Run(ks, acts) && acts != []
    ensures Run(ks[1..], acts[1..]) && Does(ks[0], acts[0], ks[1])
  {
    hide Does;
    forall i | 0 <= i < |acts[1..]|
      ensures Does(ks[1..][i], acts[1..][i], ks[1..][i + 1])
    {
      assert Does(ks[i + 1], acts[i + 1], ks[i + 2]);
    }
  }

  // ----- the invariant over runs -----

  /** A system call keeps the invariant. */
  lemma SyscallKeeps(k: KState, k': KState)
    requires SyscallDone(k, k') && ContextSaved(k, k.curr)
    ensures Running1(k')
  {
    hide Consistent, ProcsOk, Sent, Received, ContextSaved, EnterSyscall, Scheduled, Yielded, AfterSend, AfterRecv, Content;
    HasOwnRecord(k);
    EnterKeeps(k);
    EnterFrame(k);
    var k1, rec := EnterSyscall(k), Record(k, k.curr + 1);
    if rec[0] == SYS_RECV {
      ReceiveKeeps(k1);
      YieldKeeps(Received(k1));
    } else if rec[0] == SYS_SEND {
      SendKeeps(k1);
      YieldKeeps(Sent(k1));
    } else {
      YieldKeeps(k1);
    }
  }

  lemma EnterFrame(k: KState)
    requires Running1(k)
    ensures var k1 := EnterSyscall(k);
            && k1 == k.(views := k1.views) && |k1.views| == |k.views|
  {
    hide SetWord;
  }

  lemma StepKeeps(k: KState, a: Action, k': KState)
    requires Running1(k) && Does(k, a, k')
    ensures Running1(k')
  {
    hide Consistent, ProcsOk, SyscallDone, ContextSaved, ContextPushed, Yielded;
    match a
    case Interrupt(id, ctrlC) =>
      HasOwnRecord(k);
      if id == INTR_ID_TIMER && k.curr + 1 < GPID_SHELL {
      } else if k.curr + 1 >= GPID_USER_START && ctrlC {
        KillKeeps(k);
      } else if id == INTR_ID_SOFT {
        SyscallKeeps(k, k');
      } else {
        YieldKeeps(k);
      }
    case Save(stack, depth, pc) => PushKeeps(k, stack, depth, pc);
    case Store(e, page) => UserStoreKeeps(k, e, page);
    case LifeCycle(j) => LifeCycleKeeps(k, k', j);
  }

  lemma KillKeeps(k: KState)
    requires Running1(k) && ContextSaved(k, k.curr)
    ensures k.curr + 1 in k.contexts && Running1(Killed(k))
  {
    ContextKeeps(k, Killed(k));
  }

  /** Over every run exactly the current process is running, no rendezvous is missed, blocked
      messages and suspended contexts are intact, and the two message logs are equal. */
  lemma {:induction false} RunSafe(ks: seq<KState>, acts: seq<Action>)
    requires Run(ks, acts) && Running1(ks[0])
    ensures forall i :: 0 <= i < |ks| ==> Running1(ks[i])
    decreases |acts|
  {
    if acts != [] {
      RunTail(ks, acts);
      StepKeeps(ks[0], acts[0], ks[1]);
      hide Run, Running1;
      RunSafe(ks[1..], acts[1..]);
      forall i | 0 <= i < |ks|
        ensures Running1(ks[i])
      {
        if i > 0 { assert ks[i] == ks[1..][i - 1]; }
      }
    }
  }

  // ----- who is entered as a new process -----

  /** A process becomes a new one only when it is readied. */
  lemma StepReady(k: KState, a: Action, k': KState, j: nat)
    requires Running1(k) && Does(k, a, k') && j < MAX_NPROCESS
    ensures |k.procs| == |k'.procs| == MAX_NPROCESS
    ensures k'.procs[j].status == Ready && k.procs[j].status != Ready ==> a == LifeCycle(j)
  {
    hide Consistent, ProcsOk, SyscallDone, ContextSaved, Stored;
    HasOwnRecord(k);
    if a.Interrupt? && a.id == INTR_ID_SOFT && !(k.curr + 1 >= GPID_USER_START && a.ctrlC) {
      SyscallReady(k, k', j);
    }
  }

  lemma SyscallReady(k: KState, k': KState, j: nat)
    requires SyscallDone(k, k') && j < MAX_NPROCESS
    ensures |k.procs| == |k'.procs| == MAX_NPROCESS && (k'.procs[j].status == Ready ==> k.procs[j].status == Ready)
  {
    hide Consistent, ProcsOk, Sent, Received, EnterSyscall, Content, AfterSend, AfterRecv;
    HasOwnRecord(k);
    EnterFrame(k);
    var rec1 := EnterIsolated(k, {k.curr + 1});
    var rec := Record(k, k.curr + 1);
    if rec[0] == SYS_RECV {
      AfterRecvReady(k.procs, k.curr, rec[1]);
    } else if rec[0] == SYS_SEND {
      AfterSendReady(k.procs, k.curr, rec[2]);
    }
  }

  /** So a process that is not new does not become so again until it is readied again: whenever
      it is selected, it resumes. */
  lemma {:induction false} NeverNew(ks: seq<KState>, acts: seq<Action>, j: nat)
    requires Run(ks, acts) && Running1(ks[0]) && j < MAX_NPROCESS
    requires forall i :: 0 <= i < |acts| ==> acts[i] != LifeCycle(j)
    requires |ks[0].procs| == MAX_NPROCESS && ks[0].procs[j].status != Ready
    ensures forall i :: 0 <= i < |ks| ==> |ks[i].procs| == MAX_NPROCESS && ks[i].procs[j].status != Ready
    decreases |acts|
  {
    if acts != [] {
      RunTail(ks, acts);
      StepKeeps(ks[0], acts[0], ks[1]);
      StepReady(ks[0], acts[0], ks[1], j);
      hide Run, Running1, Does;
      NeverNew(ks[1..], acts[1..], j);
      forall i | 0 <= i < |ks|
        ensures |ks[i].procs| == MAX_NPROCESS && ks[i].procs[j].status != Ready
      {
        if i > 0 { assert ks[i] == ks[1..][i - 1]; }
      }
    }
  }

  // ----- isolation over runs -----

  /** The process in slot j has the same saved stack, program counter and context. */
  ghost predicate SavedSame(k: KState, k': KState, j: nat) {
    && j < |k.procs| == |k'.procs| && j + 1 < |k.procStack| == |k'.procStack|
    && k'.procStack[j + 1] == k.procStack[j + 1]
    && k'.procs[j].sp == k.procs[j].sp && k'.procs[j].mepc == k.procs[j].mepc
    && (j + 1 in k'.contexts <==> j + 1 in k.contexts)
    && (j + 1 in k.contexts ==> k'.contexts[j + 1] == k.contexts[j + 1])
  }

  /** It has the same memory but for the page of its system call record. */
  ghost predicate PrivateSame(k: KState, k': KState, j: nat) {
    && j + 1 < |k.views| == |k'.views|
    && k'.views[j + 1] - {SYSCALL_PAGE} == k.views[j + 1] - {SYSCALL_PAGE}
    && (SYSCALL_PAGE in k'.views[j + 1] <==> SYSCALL_PAGE in k.views[j + 1])
  }

  ghost predicate MemorySame(k: KState, k': KState, j: nat) {
    j + 1 < |k.views| == |k'.views| && k'.views[j + 1] == k.views[j + 1]
  }

  /** The processes an action delivers a message to. */
  function Receivers(k: KState, a: Action): set<int>
    requires |k.procs| == MAX_NPROCESS && k.curr < MAX_NPROCESS
  {
    if a.Interrupt? && a.id == INTR_ID_SOFT then DeliveredTo(k) else {}
  }

  /** Only the saved context of the current process can be redirected, and only by control-C,
      which leaves it the current one. */
  lemma InterruptSaved(k: KState, a: Action, k': KState, j: nat)
    requires a.Interrupt? && Does(k, a, k') && j < MAX_NPROCESS - 1 && (j != k.curr || k'.curr != k.curr)
    ensures SavedSame(k, k', j)
  {
    hide Consistent, ProcsOk, ContextSaved, SyscallDone, SavedSame, Yielded;
    HasOwnRecord(k);
    if a.id == INTR_ID_TIMER && k.curr + 1 < GPID_SHELL {
      SameSaved(k, k', j);
    } else if k.curr + 1 >= GPID_USER_START && a.ctrlC {
      HadContext(k, a, k');
      KilledSaved(k, j);
    } else if a.id == INTR_ID_SOFT {
      SyscallSaved(k, k', j);
    } else {
      YieldSaved(k, j);
    }
  }

  lemma SameSaved(k: KState, k': KState, j: nat)
    requires |k.procs| == MAX_NPROCESS == |k.procStack| && j < MAX_NPROCESS - 1 && |k'.procs| == |k.procs|
    requires k'.procStack == k.procStack && k'.contexts == k.contexts
    requires k'.procs[j].sp == k.procs[j].sp && k'.procs[j].mepc == k.procs[j].mepc
    ensures SavedSame(k, k', j)
  {}

  lemma KilledSaved(k: KState, j: nat)
    requires |k.procs| == MAX_NPROCESS == |k.procStack| && j < MAX_NPROCESS - 1 && k.curr < MAX_NPROCESS && j != k.curr
    requires k.curr + 1 in k.contexts
    ensures SavedSame(k, Killed(k), j)
  {}

  lemma YieldSaved(k: KState, j: nat)
    requires |k.procs| == MAX_NPROCESS == |k.procStack| && j < MAX_NPROCESS - 1 && k.curr < MAX_NPROCESS
    requires NextIdx(k.procs, k.curr, 1) != -1
    ensures SavedSame(k, Yielded(k), j)
  {}

  lemma SavedOn(k: KState, k1: KState, k2: KState, j: nat)
    requires SavedSame(k, k1, j) && SavedSame(k1, k2, j)
    ensures SavedSame(k, k2, j)
  {}

  lemma SyscallSaved(k: KState, k': KState, j: nat)
    requires SyscallDone(k, k') && j < MAX_NPROCESS - 1
    ensures SavedSame(k, k', j)
  {
    hide Consistent, ProcsOk, Sent, Received, SavedSame, Yielded, EnterSyscall, Content, SetRecord, Isolated, Scheduled;
    HasOwnRecord(k);
    EnterFrame(k);
    var rec1 := EnterIsolated(k, {k.curr + 1});
    var k1, rec := EnterSyscall(k), Record(k, k.curr + 1);
    SameSaved(k, k1, j);
    if rec[0] == SYS_RECV {
      ReceivedSaved(k1, j);
      YieldSaved(Received(k1), j);
      SavedOn(k, k1, Received(k1), j);
      SavedOn(k, Received(k1), k', j);
    } else if rec[0] == SYS_SEND {
      SentSaved(k1, j);
      YieldSaved(Sent(k1), j);
      SavedOn(k, k1, Sent(k1), j);
      SavedOn(k, Sent(k1), k', j);
    } else {
      YieldSaved(k1, j);
      SavedOn(k, k1, k', j);
    }
  }

  lemma SentSaved(k: KState, j: nat)
    requires |k.procs| == MAX_NPROCESS == |k.procStack| && k.curr < MAX_NPROCESS - 1 && |k.views| == NPIDS
    requires KnownPid(k.procs, Record(k, k.curr + 1)[2]) && Record(k, k.curr + 1)[2] < NPIDS && j < MAX_NPROCESS - 1
    ensures SavedSame(k, Sent(k), j) && |Sent(k).procs| == MAX_NPROCESS == |Sent(k).procStack|
  {
    hide Record, Content, Stored;
  }

  lemma ReceivedSaved(k: KState, j: nat)
    requires |k.procs| == MAX_NPROCESS == |k.procStack| && k.curr < MAX_NPROCESS - 1 && |k.views| == NPIDS
    requires Record(k, k.curr + 1)[1] < MAX_NPROCESS && j < MAX_NPROCESS - 1
    ensures SavedSame(k, Received(k), j) && |Received(k).procs| == MAX_NPROCESS == |Received(k).procStack|
  {
    hide Record, Content, Stored;
  }

  /** Interrupts and system calls write to nobody's memory but the records of the current process
      and of the receiver of a message. */
  lemma InterruptMemory(k: KState, a: Action, k': KState, j: nat)
    requires a.Interrupt? && Does(k, a, k') && j < MAX_NPROCESS - 1 && j != k.curr
    ensures |k.procs| == MAX_NPROCESS && k.curr < MAX_NPROCESS && PrivateSame(k, k', j)
    ensures j + 1 !in Receivers(k, a) ==> MemorySame(k, k', j)
  {
    hide Consistent, ProcsOk, ContextSaved, SyscallDone;
    HasOwnRecord(k);
    if a.id == INTR_ID_SOFT && !(k.curr + 1 >= GPID_USER_START && a.ctrlC) {
      SyscallIsolated(k, k');
    }
  }

  /** One action of a run, seen from a process that is neither the current one nor managed. */
  lemma StepSpares(k: KState, a: Action, k': KState, j: nat)
    requires Running1(k) && Does(k, a, k') && j < MAX_NPROCESS - 1 && j != k.curr && a != LifeCycle(j)
    ensures |k.procs| == MAX_NPROCESS && k.curr < MAX_NPROCESS
    ensures SavedSame(k, k', j) && PrivateSame(k, k', j)
    ensures j + 1 !in Receivers(k, a) ==> MemorySame(k, k', j)
  {
    hide Consistent, ProcsOk, InterruptDone;
    HasOwnRecord(k);
    if a.Interrupt? {
      hide Does, SavedSame, PrivateSame, MemorySame;
      InterruptSaved(k, a, k', j);
      InterruptMemory(k, a, k', j);
    }
  }

  /** Process j is not the current one, and is not allocated, readied or freed. */
  ghost predicate LeftAlone(ks: seq<KState>, acts: seq<Action>, j: nat) {
    |ks| == |acts| + 1 && forall i :: 0 <= i < |acts| ==> ks[i].curr != j && acts[i] != LifeCycle(j)
  }

  /** No message is delivered to it. */
  ghost predicate NothingFor(ks: seq<KState>, acts: seq<Action>, j: nat) {
    |ks| == |acts| + 1
    && forall i :: 0 <= i < |acts| ==>
         |ks[i].procs| == MAX_NPROCESS && ks[i].curr < MAX_NPROCESS && j + 1 !in Receivers(ks[i], acts[i])
  }

  /** Isolation: over every run in which it is left alone, a process keeps its saved stack, its
      program counter and its memory, except for the page that messages are delivered to; and
      that too if none is delivered to it. */
  lemma {:induction false} Isolation(ks: seq<KState>, acts: seq<Action>, j: nat)
    requires Run(ks, acts) && Running1(ks[0]) && j < MAX_NPROCESS - 1 && LeftAlone(ks, acts, j)
    ensures SavedSame(ks[0], ks[|acts|], j) && PrivateSame(ks[0], ks[|acts|], j)
    ensures NothingFor(ks, acts, j) ==> MemorySame(ks[0], ks[|acts|], j)
    decreases |acts|
  {
    if acts == [] {
      HasOwnRecord(ks[0]);
    } else {
      RunTail(ks, acts);
      StepKeeps(ks[0], acts[0], ks[1]);
      StepSpares(ks[0], acts[0], ks[1], j);
      AloneTail(ks, acts, j);
      hide Run, Running1, Does, Receivers, LeftAlone, NothingFor;
      Isolation(ks[1..], acts[1..], j);
    }
  }

  lemma AloneTail(ks: seq<KState>, acts: seq<Action>, j: nat)
    requires LeftAlone(ks, acts, j) && acts != []
    ensures LeftAlone(ks[1..], acts[1..], j)
    ensures NothingFor(ks, acts, j) ==> NothingFor(ks[1..], acts[1..], j)
    ensures NothingFor(ks, acts, j) ==>
              |ks[0].procs| == MAX_NPROCESS && ks[0].curr < MAX_NPROCESS && j + 1 !in Receivers(ks[0], acts[0])
  {
    hide Receivers;
  }

  /** A process suspended by the first interrupt of a run, and left alone until it is selected
      again, is then to resume just where it was: with the context that had been saved when that
      interrupt arrived, and not as a new process. */
  lemma ResumesWhereSaved(ks: seq<KState>, acts: seq<Action>, j: nat)
    requires Run(ks, acts) && Running1(ks[0]) && acts != [] && acts[0].Interrupt?
    requires ks[0].curr == j != ks[1].curr && LeftAlone(ks[1..], acts[1..], j) && ks[|acts|].curr == j
    ensures SavedSame(ks[0], ks[|acts|], j) && j + 1 in ks[0].contexts
    ensures ks[|acts|].contexts[j + 1] == ks[0].contexts[j + 1]
    ensures forall i :: 0 <= i < |acts| ==> |ks[i].procs| == MAX_NPROCESS && ks[i].procs[j].status != Ready
  {
    hide ProcsOk, Running1, Does, SavedSame, LeftAlone;
    RunTail(ks, acts);
    NotManaged(ks, acts, j);
    NeverNew(ks, acts, j);
    HadContext(ks[0], acts[0], ks[1]);
    StepKeeps(ks[0], acts[0], ks[1]);
    InterruptSaved(ks[0], acts[0], ks[1], j);
    Isolation(ks[1..], acts[1..], j);
    SavedOn(ks[0], ks[1], ks[|acts|], j);
    SavedContext(ks[0], ks[|acts|], j);
  }

  lemma NotManaged(ks: seq<KState>, acts: seq<Action>, j: nat)
    requires Run(ks, acts) && Running1(ks[0]) && acts != [] && acts[0].Interrupt? && ks[0].curr == j
    requires LeftAlone(ks[1..], acts[1..], j)
    ensures forall i :: 0 <= i < |acts| ==> acts[i] != LifeCycle(j)
    ensures j < |ks[0].procs| == MAX_NPROCESS && ks[0].procs[j].status != Ready
  {
    HasOwnRecord(ks[0]);
    hide Does, Running1, Consistent;
    forall i | 0 <= i < |acts|
      ensures acts[i] != LifeCycle(j)
    {
      if i > 0 { assert acts[i] == acts[1..][i - 1]; }
    }
  }

  lemma HadContext(k: KState, a: Action, k': KState)
    requires a.Interrupt? && Does(k, a, k')
    ensures k.curr < MAX_NPROCESS - 1 && k.curr + 1 in k.contexts
  {
    hide SyscallDone;
  }

  lemma SavedContext(k: KState, k': KState, j: nat)
    requires SavedSame(k, k', j) && j + 1 in k.contexts
    ensures j + 1 in k'.contexts && k'.contexts[j + 1] == k.contexts[j + 1]
  {}
}
