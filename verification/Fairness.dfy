/** The scheduler over runs of the kernel: whatever happens, a process that can run gets its
    turn. */
module Fairness {
  import opened Kernel
  import opened KernelRuns
  import opened Mmu

  /** The scheduler runs: the action is an interrupt, and neither a timer tick of a low system
      process nor control-C in a user process. */
  predicate Schedules(k: KState, a: Action) {
    a.Interrupt? && !(a.id == INTR_ID_TIMER && k.curr + 1 < GPID_SHELL) && !(k.curr + 1 >= GPID_USER_START && a.ctrlC)
  }

  /** Process j can run all the time. */
  ghost predicate Willing(ks: seq<KState>, acts: seq<Action>, j: nat) {
    |ks| == |acts| + 1 && forall i :: 0 <= i < |acts| ==> j < |ks[i].procs| && ks[i].procs[j].status in {Ready, Running, Runnable}
  }

  /** How often the scheduler runs. */
  function Schedulings(ks: seq<KState>, acts: seq<Action>): nat
    requires |ks| == |acts| + 1
  {
    if acts == [] then 0 else (if Schedules(ks[0], acts[0]) then 1 else 0) + Schedulings(ks[1..], acts[1..])
  }

  /** m is the state from which the scheduler went on from k; another process that could run
      in k still can. */
  ghost predicate LeadsTo(k: KState, m: KState, j: nat) {
    && m.curr == k.curr < MAX_NPROCESS && |m.procs| == |k.procs| == MAX_NPROCESS
    && (j < MAX_NPROCESS && j != k.curr && CanRun(k.procs[j].status) ==> CanRun(m.procs[j].status))
  }

  lemma SentLeads(k: KState, j: nat)
    requires |k.procs| == MAX_NPROCESS && k.curr < MAX_NPROCESS - 1 && |k.views| == NPIDS
    requires KnownPid(k.procs, Record(k, k.curr + 1)[2]) && Record(k, k.curr + 1)[2] < NPIDS
    ensures LeadsTo(k, Sent(k), j)
  {
    hide Sent, Record;
  }

  lemma ReceivedLeads(k: KState, j: nat)
    requires |k.procs| == MAX_NPROCESS && k.curr < MAX_NPROCESS - 1 && |k.views| == NPIDS
    requires Record(k, k.curr + 1)[1] < MAX_NPROCESS
    ensures LeadsTo(k, Received(k), j)
  {
    hide Received, Record;
  }

  /** A system call ends in the scheduler. */
  lemma SyscallLeads(k: KState, k': KState, j: nat) returns (m: KState)
    requires SyscallDone(k, k')
    ensures LeadsTo(k, m, j) && NextIdx(m.procs, m.curr, 1) != -1 && k' == Yielded(m)
  {
    hide Consistent, ProcsOk, Sent, Received, Yielded, LeadsTo, SetRecord, Content;
    HasOwnRecord(k);
    var w := {k.curr + 1} + DeliveredTo(k);
    var rec1 := EnterIsolated(k, w);
    var k1, rec := EnterSyscall(k), Record(k, k.curr + 1);
    EnterLeads(k, j);
    if rec[0] == SYS_RECV {
      ReceivedLeads(k1, j);
      m := Received(k1);
    } else if rec[0] == SYS_SEND {
      SentLeads(k1, j);
      m := Sent(k1);
    } else {
      m := k1;
    }
    LeadsOn(k, k1, m, j);
  }

  lemma EnterLeads(k: KState, j: nat)
    requires Running1(k)
    ensures LeadsTo(k, EnterSyscall(k), j) && LeadsTo(EnterSyscall(k), EnterSyscall(k), j)
    ensures EnterSyscall(k).procs == k.procs && EnterSyscall(k).curr == k.curr && |EnterSyscall(k).views| == |k.views|
  {
    hide SetWord;
  }

  lemma LeadsOn(k: KState, k1: KState, m: KState, j: nat)
    requires LeadsTo(k, k1, j) && LeadsTo(k1, m, j)
    ensures LeadsTo(k, m, j)
  {}

  /** Every action leaves the current process as it is, or ends in the scheduler. */
  lemma ActionLeads(k: KState, a: Action, k': KState, j: nat) returns (m: KState)
    requires Does(k, a, k')
    ensures !Schedules(k, a) ==> k'.curr == k.curr
    ensures Schedules(k, a) ==> LeadsTo(k, m, j) && NextIdx(m.procs, m.curr, 1) != -1 && k' == Yielded(m)
  {
    hide Consistent, ProcsOk, SyscallDone, Yielded, ContextSaved;
    m := k;
    if Schedules(k, a) {
      HasOwnRecord(k);
      if a.id == INTR_ID_SOFT {
        m := SyscallLeads(k, k', j);
      }
    }
  }

  lemma WillingTail(ks: seq<KState>, acts: seq<Action>, j: nat)
    requires Willing(ks, acts, j) && acts != []
    ensures Willing(ks[1..], acts[1..], j) && j < |ks[0].procs| && CanRun(ks[0].procs[j].status)
  {}

  /** Round-robin fairness: in every run, a process that can run all the time is the current one
      by the time the scheduler has run as often as there are slots. */
  lemma {:induction false} TurnComes(ks: seq<KState>, acts: seq<Action>, j: nat)
    requires Run(ks, acts) && Willing(ks, acts, j) && j < MAX_NPROCESS
    requires ks[0].curr < MAX_NPROCESS && Schedulings(ks, acts) >= Distance(ks[0].curr, j)
    ensures exists i :: 0 <= i < |ks| && ks[i].curr == j
    decreases |acts|
  {
    hide Does, Yielded, Schedules, CanRun, Run, Willing;
    assert |ks| == |acts| + 1 by { RunLength(ks, acts); }
    if ks[0].curr != j {
      assert acts != [];
      RunTail(ks, acts);
      WillingTail(ks, acts, j);
      var m := ActionLeads(ks[0], acts[0], ks[1], j);
      if ks[1].curr != j {
        AfterAction(ks[0], acts[0], ks[1], m, j);
        TurnComes(ks[1..], acts[1..], j);
        var i :| 0 <= i < |ks[1..]| && ks[1..][i].curr == j;
        assert ks[i + 1] == ks[1..][i];
      }
    }
  }

  lemma RunLength(ks: seq<KState>, acts: seq<Action>)
    requires Run(ks, acts)
    ensures |ks| == |acts| + 1
  {}

  /** A scheduling that does not select j brings the scheduler closer to it. */
  lemma AfterAction(k: KState, a: Action, k': KState, m: KState, j: nat)
    requires k.curr < MAX_NPROCESS && j < MAX_NPROCESS && k.curr != j && k'.curr != j
    requires !Schedules(k, a) ==> k'.curr == k.curr
    requires Schedules(k, a) ==> LeadsTo(k, m, j) && NextIdx(m.procs, m.curr, 1) != -1 && k' == Yielded(m)
    requires j < |k.procs| && CanRun(k.procs[j].status)
    ensures k'.curr < MAX_NPROCESS
    ensures Distance(k'.curr, j) + (if Schedules(k, a) then 1 else 0) <= Distance(k.curr, j)
  {
    if Schedules(k, a) {
      YieldApproaches(m.procs, m.curr, j);
    }
  }
}
