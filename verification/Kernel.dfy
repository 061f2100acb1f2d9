/** Processes, scheduling and rendezvous message passing over the software TLB. */
module Kernel {
  import opened Mmu
  import opened Words

  const MAX_NPROCESS := 16
  const GPID_SHELL := 5
  const GPID_USER_START := 6
  const INTR_ID_SOFT := 3
  const INTR_ID_TIMER := 7
  const SYS_RECV := 1
  const SYS_SEND := 2
  const SYS_YIELD := 3
  const MSG_WORDS := 258          // sender, receiver and 1024 bytes of content
  const EXIT_PC := 0x8040_000C     // APPS_ENTRY + 0xC, where a killed process exits
  const RETVAL := 259             // word of the syscall record that holds the return value

  datatype Status = Unused | Loading | Ready | Running | Runnable | WaitToSend | WaitToRecv | Sleeping

  /** A process control block; the stack pointer is kept as the depth of the stack in words. */
  datatype Process = Process(pid: int, status: Status, fromSender: int, toReceiver: int, sp: nat, mepc: U32)

  /** Where a process was interrupted, and the stack it had. */
  datatype Context = Context(pc: U32, stack: seq<U32>)

  /** A message with the process that sent it and the process that received it. */
  datatype Message = Message(sender: int, receiver: int, content: seq<U32>)

  // ----- the syscall record -----

  function Msg(page: Page): (m: seq<U32>)
    ensures |m| == MSG_WORDS
  {
    page[1..1 + MSG_WORDS]
  }

  function PutMsg(page: Page, msg: seq<U32>): Page
    requires |msg| == MSG_WORDS
  {
    page[..1] + msg + page[1 + MSG_WORDS..]
  }

  function Content(page: Page): seq<U32> {
    page[3..1 + MSG_WORDS]
  }

  function SetWord(page: Page, i: nat, w: U32): Page
    requires i < WORDS_PER_PAGE
  {
    page[i := w]
  }

  /** Copying the message part of record q into record p. */
  lemma CopiedMessage(p: Page, q: Page)
    ensures var r := PutMsg(p, Msg(q));
            r[0] == p[0] && r[RETVAL] == p[RETVAL] && r[1] == q[1] && r[2] == q[2] && Content(r) == Content(q)
  {
    var r := PutMsg(p, Msg(q));
    assert forall i :: 1 <= i < 1 + MSG_WORDS ==> r[i] == Msg(q)[i - 1] == q[i];
  }

  // ----- scheduling -----

  predicate CanRun(s: Status) {
    s == Ready || s == Running || s == Runnable
  }

  /** The first process that can run after curr, in cyclic order, curr itself coming last. */
  function NextIdx(procs: seq<Process>, curr: nat, i: nat): (r: int)
    requires |procs| == MAX_NPROCESS && 1 <= i <= MAX_NPROCESS + 1
    ensures -1 <= r < MAX_NPROCESS
    ensures r != -1 ==> CanRun(procs[r].status)
    decreases MAX_NPROCESS + 1 - i
  {
    if i > MAX_NPROCESS then -1
    else if CanRun(procs[(curr + i) % MAX_NPROCESS].status) then (curr + i) % MAX_NPROCESS
    else NextIdx(procs, curr, i + 1)
  }

  /** Steps from curr to j in cyclic order: 1 for the next index, 16 for curr itself. */
  function Distance(curr: nat, j: nat): nat
    requires curr < MAX_NPROCESS && j < MAX_NPROCESS
  {
    if j > curr then j - curr else j + MAX_NPROCESS - curr
  }

  lemma {:induction false} NextIsNearest(procs: seq<Process>, curr: nat, i: nat, j: nat)
    requires |procs| == MAX_NPROCESS && curr < MAX_NPROCESS && j < MAX_NPROCESS
    requires CanRun(procs[j].status) && 1 <= i <= Distance(curr, j)
    ensures var r := NextIdx(procs, curr, i);
            0 <= r && i <= Distance(curr, r) <= Distance(curr, j)
    decreases MAX_NPROCESS - i
  {
    var k := (curr + i) % MAX_NPROCESS;
    assert Distance(curr, k) == i;
    if !CanRun(procs[k].status) {
      assert k != j;
      NextIsNearest(procs, curr, i + 1, j);
    }
  }

  /** Each yield either selects a waiting process or brings the scheduler closer to it. */
  lemma YieldApproaches(procs: seq<Process>, curr: nat, j: nat)
    requires |procs| == MAX_NPROCESS && curr < MAX_NPROCESS && j < MAX_NPROCESS
    requires CanRun(procs[j].status)
    ensures var r := NextIdx(procs, curr, 1);
            0 <= r && (r == j || Distance(r, j) < Distance(curr, j))
  {
    NextIsNearest(procs, curr, 1, j);
  }

  // ----- invariants of the process table -----

  /** Started and not yet freed. */
  predicate Live(s: Status) {
    s != Unused && s != Loading
  }

  predicate Suspended(s: Status) {
    s == Runnable || s == WaitToSend || s == WaitToRecv
  }

  /** Sender s waits to send to r. */
  predicate SendsTo(procs: seq<Process>, s: nat, r: nat)
    requires s < |procs|
  {
    procs[s].status == WaitToSend && procs[s].toReceiver == r + 1
  }

  /** r waits for a message that s could send. */
  predicate ReceivesFrom(procs: seq<Process>, r: nat, s: nat)
    requires r < |procs|
  {
    procs[r].status == WaitToRecv && (procs[r].fromSender == 0 || procs[r].fromSender == s + 1)
  }

  /** No sender waits for a receiver that waits for it. */
  ghost predicate NoMissedRendezvous(procs: seq<Process>) {
    forall s, r :: 0 <= s < |procs| && 0 <= r < |procs| ==> !(SendsTo(procs, s, r) && ReceivesFrom(procs, r, s))
  }

  ghost predicate ProcsOk(procs: seq<Process>, curr: nat) {
    && |procs| == MAX_NPROCESS && curr < MAX_NPROCESS - 1
    && (forall i :: 0 <= i < MAX_NPROCESS ==> procs[i].pid == i + 1 || (procs[i].pid == 0 && procs[i].status == Unused))
    && procs[MAX_NPROCESS - 1].pid == 0
    && (forall i :: 0 <= i < MAX_NPROCESS && procs[i].status == Running ==> i == curr)
    && (forall i :: 0 <= i < MAX_NPROCESS && procs[i].status == WaitToSend ==> IsPid(procs[i].toReceiver))
    && (forall i :: 0 <= i < MAX_NPROCESS ==> procs[i].sp <= WORDS_PER_PAGE)
    && NoMissedRendezvous(procs)
  }

  /** The table after the scheduler has moved from curr to next. */
  function Scheduled(procs: seq<Process>, curr: nat, next: nat): seq<Process>
    requires curr < |procs| && next < |procs|
  {
    var p := if procs[curr].status == Running then procs[curr := procs[curr].(status := Runnable)] else procs;
    p[next := p[next].(status := Running)]
  }

  lemma ScheduledOk(procs: seq<Process>, curr: nat, next: nat)
    requires ProcsOk(procs, curr) && next < MAX_NPROCESS && CanRun(procs[next].status)
    ensures ProcsOk(Scheduled(procs, curr, next), next)
    ensures forall i :: 0 <= i < MAX_NPROCESS ==>
              (Live(Scheduled(procs, curr, next)[i].status) <==> Live(procs[i].status))
              && (Scheduled(procs, curr, next)[i].status == WaitToSend <==> procs[i].status == WaitToSend)
  {
    var procs' := Scheduled(procs, curr, next);
    forall s, r | 0 <= s < |procs'| && 0 <= r < |procs'|
      ensures !(SendsTo(procs', s, r) && ReceivesFrom(procs', r, s))
    {
      assert !(SendsTo(procs, s, r) && ReceivesFrom(procs, r, s));
    }
  }

  // ----- rendezvous, on the process table -----

  /** A pid that pid2idx accepts and that its slot carries. */
  predicate KnownPid(procs: seq<Process>, pid: int)
    requires |procs| == MAX_NPROCESS
  {
    1 <= pid <= MAX_NPROCESS && procs[pid - 1].pid == pid
  }

  /** The table after a send, before the scheduler runs: deliver if the receiver waits for
      this sender or for anyone, else wait. */
  function AfterSend(procs: seq<Process>, curr: nat, receiver: int): seq<Process>
    requires |procs| == MAX_NPROCESS && curr < MAX_NPROCESS && KnownPid(procs, receiver)
  {
    if ReceivesFrom(procs, receiver - 1, curr) then procs[receiver - 1 := procs[receiver - 1].(status := Runnable)]
    else procs[curr := procs[curr].(status := WaitToSend, toReceiver := receiver)]
  }

  /** The last process in table order, below n, that waits to send to curr; -1 if none. */
  function LastSender(procs: seq<Process>, curr: nat, n: nat): (r: int)
    requires n <= |procs|
    ensures -1 <= r < n
    ensures r != -1 ==> SendsTo(procs, r, curr)
    ensures forall i :: r < i < n ==> !SendsTo(procs, i, curr)
  {
    if n == 0 then -1
    else if SendsTo(procs, n - 1, curr) then n - 1
    else LastSender(procs, curr, n - 1)
  }

  /** The index of the sender a receive takes its message from, or -1. */
  function SenderFor(procs: seq<Process>, curr: nat, expected: int): (r: int)
    requires |procs| == MAX_NPROCESS && 0 <= expected < MAX_NPROCESS
    ensures -1 <= r < MAX_NPROCESS
    ensures r != -1 ==> SendsTo(procs, r, curr) && (expected == 0 || r == expected - 1)
  {
    if expected == 0 then LastSender(procs, curr, MAX_NPROCESS)
    else if SendsTo(procs, expected - 1, curr) then expected - 1
    else -1
  }

  function AfterRecv(procs: seq<Process>, curr: nat, expected: int): seq<Process>
    requires |procs| == MAX_NPROCESS && curr < MAX_NPROCESS && 0 <= expected < MAX_NPROCESS
  {
    var p := procs[curr := procs[curr].(fromSender := expected)];
    var s := SenderFor(procs, curr, expected);
    if s == -1 then p[curr := p[curr].(status := WaitToRecv)]
    else p[s := p[s].(status := Runnable)]
  }

  /** Only statuses and receive filters changed: process w stopped waiting. */
  ghost predicate Woken(procs: seq<Process>, procs': seq<Process>, w: nat) {
    && |procs'| == |procs| && w < |procs|
    && Suspended(procs[w].status) && procs'[w] == procs[w].(status := Runnable)
    && forall i :: 0 <= i < |procs| && i != w ==>
         procs'[i].status == procs[i].status && procs'[i].sp == procs[i].sp && procs'[i].mepc == procs[i].mepc
         && procs'[i].toReceiver == procs[i].toReceiver
  }

  /** Only the current process changed: it waits now. */
  ghost predicate Blocked(procs: seq<Process>, procs': seq<Process>, curr: nat) {
    && |procs'| == |procs| && curr < |procs|
    && procs'[curr].status in {WaitToSend, WaitToRecv} && procs'[curr].sp == procs[curr].sp
    && procs'[curr].mepc == procs[curr].mepc
    && forall i :: 0 <= i < |procs| && i != curr ==> procs'[i] == procs[i]
  }

  /** Sending never leaves the new sender facing a receiver that waits for it. */
  lemma AfterSendOk(procs: seq<Process>, curr: nat, receiver: int)
    requires ProcsOk(procs, curr) && procs[curr].status == Running && KnownPid(procs, receiver)
    ensures ProcsOk(AfterSend(procs, curr, receiver), curr)
    ensures if ReceivesFrom(procs, receiver - 1, curr) then Woken(procs, AfterSend(procs, curr, receiver), receiver - 1)
            else Blocked(procs, AfterSend(procs, curr, receiver), curr)
  {
    var procs' := AfterSend(procs, curr, receiver);
    forall s, r | 0 <= s < |procs'| && 0 <= r < |procs'|
      ensures !(SendsTo(procs', s, r) && ReceivesFrom(procs', r, s))
    {
      assert !(SendsTo(procs, s, r) && ReceivesFrom(procs, r, s));
    }
  }

  /** Nor does receiving leave the new receiver facing a sender that waits for it. */
  lemma AfterRecvOk(procs: seq<Process>, curr: nat, expected: int)
    requires ProcsOk(procs, curr) && procs[curr].status == Running && 0 <= expected < MAX_NPROCESS
    ensures ProcsOk(AfterRecv(procs, curr, expected), curr)
    ensures var s := SenderFor(procs, curr, expected);
            if s == -1 then Blocked(procs, AfterRecv(procs, curr, expected), curr)
            else Woken(procs, AfterRecv(procs, curr, expected), s)
  {
    var procs' := AfterRecv(procs, curr, expected);
    forall s, r | 0 <= s < |procs'| && 0 <= r < |procs'|
      ensures !(SendsTo(procs', s, r) && ReceivesFrom(procs', r, s))
    {
      assert !(SendsTo(procs, s, r) && ReceivesFrom(procs, r, s));
    }
  }

  /** Sending and receiving make no process new, and let no new one lose that. */
  lemma AfterSendReady(procs: seq<Process>, curr: nat, receiver: int)
    requires |procs| == MAX_NPROCESS && curr < MAX_NPROCESS && procs[curr].status == Running && KnownPid(procs, receiver)
    ensures |AfterSend(procs, curr, receiver)| == MAX_NPROCESS
    ensures forall i :: 0 <= i < MAX_NPROCESS ==>
              (AfterSend(procs, curr, receiver)[i].status == Ready <==> procs[i].status == Ready)
  {}

  lemma AfterRecvReady(procs: seq<Process>, curr: nat, expected: int)
    requires |procs| == MAX_NPROCESS && curr < MAX_NPROCESS && procs[curr].status == Running && 0 <= expected < MAX_NPROCESS
    ensures |AfterRecv(procs, curr, expected)| == MAX_NPROCESS
    ensures forall i :: 0 <= i < MAX_NPROCESS ==>
              (AfterRecv(procs, curr, expected)[i].status == Ready <==> procs[i].status == Ready)
  {}

  // ----- the kernel's state as a value -----

  datatype KState = KState(
    procs: seq<Process>,
    curr: nat,
    views: seq<View>,               // memory of every process
    procStack: seq<Page>,           // saved stacks
    sending: map<int, seq<U32>>,   // what each blocked sender asked to send
    contexts: map<int, Context>,    // where and with which stack each process was suspended
    sendLog: seq<Message>,          // sends completed, as they were asked for
    recvLog: seq<Message>)          // receives completed, as found in the receiver's memory

  ghost predicate HasRecord(k: KState, pid: int) {
    IsPid(pid) && pid < |k.views| && SYSCALL_PAGE in k.views[pid]
  }

  /** The syscall record of a process. */
  function Record(k: KState, pid: int): Page {
    if 0 <= pid < |k.views| && SYSCALL_PAGE in k.views[pid] then k.views[pid][SYSCALL_PAGE] else ZeroPage()
  }

  function SetRecord(k: KState, pid: int, rec: Page): KState
    requires 0 <= pid < |k.views|
  {
    k.(views := Stored(k.views, pid, SYSCALL_PAGE, rec))
  }

  /** A blocked sender's memory still holds the message it asked to send, with its own pid
      and its receiver's in the header. */
  ghost predicate SendPending(k: KState, i: nat) {
    && i < |k.procs| && i + 1 in k.sending
    && Record(k, i + 1)[1] == i + 1 && Record(k, i + 1)[2] == k.procs[i].toReceiver
    && Content(Record(k, i + 1)) == k.sending[i + 1]
  }

  /** A suspended process's stack and program counter are saved just as they were. */
  ghost predicate ContextSaved(k: KState, i: nat) {
    && i < |k.procs| && i + 1 < |k.procStack| && i + 1 in k.contexts
    && k.procs[i].sp <= WORDS_PER_PAGE
    && k.contexts[i + 1] == Context(k.procs[i].mepc, k.procStack[i + 1][..k.procs[i].sp])
  }

  ghost predicate Consistent(k: KState) {
    && ProcsOk(k.procs, k.curr) && |k.procStack| == MAX_NPROCESS && |k.views| == NPIDS
    && (forall i :: 0 <= i < MAX_NPROCESS && Live(k.procs[i].status) ==> HasRecord(k, i + 1))
    && (forall i :: 0 <= i < MAX_NPROCESS && k.procs[i].status == WaitToSend ==> SendPending(k, i))
    && (forall i :: 0 <= i < MAX_NPROCESS && Suspended(k.procs[i].status) ==> ContextSaved(k, i))
    && k.sendLog == k.recvLog
  }

  /** Exactly the current process is running (no other can be, by ProcsOk). */
  ghost predicate Running1(k: KState) {
    Consistent(k) && k.procs[k.curr].status == Running
  }

  // ----- kernel operations on the state -----

  /** What proc_syscall does before dispatching. */
  function EnterSyscall(k: KState): KState
    requires k.curr + 1 < |k.views|
  {
    SetRecord(k, k.curr + 1, SetWord(SetWord(Record(k, k.curr + 1), RETVAL, 0), 0, 0))
  }

  /** Copy the message part of src's syscall record into dst's. */
  function MsgCopied(k: KState, src: int, dst: int): KState
    requires 0 <= dst < |k.views|
  {
    SetRecord(k, dst, PutMsg(Record(k, dst), Msg(Record(k, src))))
  }

  /** A completed rendezvous: the message is copied, process `woken` stops waiting, and both
      logs record it, one by what was asked for and one by what the receiver now holds. */
  function Handed(k: KState, sender: int, receiver: int, woken: nat, asked: seq<U32>): KState
    requires 0 <= receiver < |k.views| && woken < |k.procs|
  {
    var k1 := MsgCopied(k, sender, receiver);
    k1.(procs := k.procs[woken := k.procs[woken].(status := Runnable)],
        sendLog := k.sendLog + [Message(sender, receiver, asked)],
        recvLog := k.recvLog + [Message(Record(k1, receiver)[1], receiver, Content(Record(k1, receiver)))])
  }

  function Yielded(k: KState): KState
    requires |k.procs| == MAX_NPROCESS && k.curr < MAX_NPROCESS && NextIdx(k.procs, k.curr, 1) != -1
  {
    var next := NextIdx(k.procs, k.curr, 1);
    k.(procs := Scheduled(k.procs, k.curr, next), curr := next)
  }

  /** The kernel writes the true sender into the current process's record. */
  function Announced(k: KState): KState
    requires k.curr < MAX_NPROCESS - 1 && |k.views| == NPIDS
  {
    SetRecord(k, k.curr + 1, SetWord(Record(k, k.curr + 1), 1, k.curr + 1))
  }

  /** A send up to the point where the scheduler runs. */
  function Sent(k: KState): (k': KState)
    requires |k.procs| == MAX_NPROCESS && k.curr < MAX_NPROCESS - 1 && |k.views| == NPIDS
    requires KnownPid(k.procs, Record(k, k.curr + 1)[2]) && Record(k, k.curr + 1)[2] < NPIDS
    ensures k'.procs == AfterSend(k.procs, k.curr, Record(k, k.curr + 1)[2]) && k'.curr == k.curr
  {
    var me := k.curr + 1;
    var k1 := Announced(k);
    var receiver, content := Record(k, me)[2], Content(Record(k, me));
    if ReceivesFrom(k.procs, receiver - 1, k.curr) then Handed(k1, me, receiver, receiver - 1, content)
    else k1.(procs := AfterSend(k.procs, k.curr, receiver), sending := k.sending[me := content])
  }

  /** A receive up to the point where the scheduler runs. */
  function Received(k: KState): (k': KState)
    requires |k.procs| == MAX_NPROCESS && k.curr < MAX_NPROCESS - 1 && |k.views| == NPIDS
    requires Record(k, k.curr + 1)[1] < MAX_NPROCESS
    ensures k'.procs == AfterRecv(k.procs, k.curr, Record(k, k.curr + 1)[1]) && k'.curr == k.curr
  {
    var me, expected := k.curr + 1, Record(k, k.curr + 1)[1];
    var s, k1 := SenderFor(k.procs, k.curr, expected), k.(procs := k.procs[k.curr := k.procs[k.curr].(fromSender := expected)]);
    if s == -1 then k.(procs := AfterRecv(k.procs, k.curr, expected))
    else Handed(k1, s + 1, me, s, if s + 1 in k.sending then k.sending[s + 1] else [])
  }

  // ----- and what they keep -----

  lemma HasOwnRecord(k: KState)
    requires Running1(k)
    ensures ProcsOk(k.procs, k.curr) && |k.views| == NPIDS && |k.procStack| == MAX_NPROCESS
    ensures |k.procs| == MAX_NPROCESS && k.curr < MAX_NPROCESS - 1 && k.procs[k.curr].pid == k.curr + 1
    ensures forall i :: 0 <= i < MAX_NPROCESS && Live(k.procs[i].status) ==> HasRecord(k, i + 1)
    ensures HasRecord(k, k.curr + 1) && k.sendLog == k.recvLog
  {
    assert Live(k.procs[k.curr].status);
  }

  lemma SenderPends(k: KState, i: nat)
    requires Consistent(k) && i < |k.procs| && k.procs[i].status == WaitToSend
    ensures SendPending(k, i) && HasRecord(k, i + 1)
  {
    assert Live(k.procs[i].status);
  }

  lemma TableFacts(k: KState)
    requires Consistent(k)
    ensures |k.procs| == MAX_NPROCESS && k.curr < MAX_NPROCESS - 1
    ensures forall i :: 0 <= i < MAX_NPROCESS && k.procs[i].status == Running ==> i == k.curr
  {}

  lemma KnownIsPid(k: KState, pid: int)
    requires Running1(k) && |k.procs| == MAX_NPROCESS && KnownPid(k.procs, pid)
    ensures IsPid(pid)
  {}

  lemma RecordSet(k: KState, pid: int, rec: Page)
    requires 0 <= pid < |k.views|
    ensures Record(SetRecord(k, pid, rec), pid) == rec
    ensures forall p :: p != pid ==> Record(SetRecord(k, pid, rec), p) == Record(k, p)
    ensures forall p :: HasRecord(k, p) ==> HasRecord(SetRecord(k, pid, rec), p)
  {}

  /** Changing the record of a process that is not a blocked sender. */
  lemma SetRecordKeeps(k: KState, pid: int, rec: Page)
    requires Consistent(k) && IsPid(pid) && k.procs[pid - 1].status != WaitToSend
    ensures Consistent(SetRecord(k, pid, rec))
  {
    var k' := SetRecord(k, pid, rec);
    RecordSet(k, pid, rec);
    forall i | 0 <= i < MAX_NPROCESS && k'.procs[i].status == WaitToSend
      ensures SendPending(k', i)
    {
      assert SendPending(k, i);
    }
    forall i | 0 <= i < MAX_NPROCESS && Suspended(k'.procs[i].status)
      ensures ContextSaved(k', i)
    {
      assert ContextSaved(k, i);
    }
  }

  ghost predicate SameMemory(k: KState, k': KState) {
    && |k'.procs| == |k.procs| && k'.views == k.views && k'.procStack == k.procStack && k'.contexts == k.contexts
  }

  /** What is known of process i only depends on memory, saved contexts and three fields. */
  lemma StillKnown(k: KState, k': KState, i: nat)
    requires SameMemory(k, k') && i < |k.procs|
    requires k'.procs[i] == k.procs[i].(status := k'.procs[i].status, fromSender := k'.procs[i].fromSender)
    requires i + 1 in k.sending ==> i + 1 in k'.sending && k'.sending[i + 1] == k.sending[i + 1]
    ensures HasRecord(k, i + 1) ==> HasRecord(k', i + 1)
    ensures SendPending(k, i) ==> SendPending(k', i)
    ensures ContextSaved(k, i) ==> ContextSaved(k', i)
  {}

  lemma YieldKeeps(k: KState)
    requires Consistent(k) && (k.procs[k.curr].status == Running ==> ContextSaved(k, k.curr))
    requires NextIdx(k.procs, k.curr, 1) != -1
    ensures Running1(Yielded(k))
    ensures k.procs[Yielded(k).curr].status != Ready ==> ContextSaved(Yielded(k), Yielded(k).curr)
  {
    hide ProcsOk, HasRecord, SendPending, ContextSaved;
    TableFacts(k);
    var next, k' := NextIdx(k.procs, k.curr, 1), Yielded(k);
    ScheduledOk(k.procs, k.curr, next);
    assert ContextSaved(k, next) || k.procs[next].status == Ready;
    forall i | 0 <= i < MAX_NPROCESS
      ensures Live(k'.procs[i].status) ==> HasRecord(k', i + 1)
      ensures k'.procs[i].status == WaitToSend ==> SendPending(k', i)
      ensures Suspended(k'.procs[i].status) ==> ContextSaved(k', i)
    {
      StillKnown(k, k', i);
    }
    StillKnown(k, k', next);
  }

  lemma CopyKeeps(k: KState, src: int, dst: int)
    requires Consistent(k) && IsPid(dst) && k.procs[dst - 1].status != WaitToSend
    ensures Consistent(MsgCopied(k, src, dst))
    ensures ContextSaved(k, k.curr) ==> ContextSaved(MsgCopied(k, src, dst), k.curr)
    ensures var r := Record(MsgCopied(k, src, dst), dst);
            r[1] == Record(k, src)[1] && r[2] == Record(k, src)[2] && Content(r) == Content(Record(k, src))
  {
    var rec := PutMsg(Record(k, dst), Msg(Record(k, src)));
    SetRecordKeeps(k, dst, rec);
    RecordSet(k, dst, rec);
    CopiedMessage(Record(k, dst), Record(k, src));
  }

  /** A send keeps the invariant; in particular a delivered message arrives with the
      sender's own pid and the content the sender asked for, so the two logs stay equal. */
  lemma SendKeeps(k: KState)
    requires Running1(k) && ContextSaved(k, k.curr)
    requires KnownPid(k.procs, Record(k, k.curr + 1)[2])
    ensures Record(k, k.curr + 1)[2] < NPIDS && Consistent(Sent(k)) && ContextSaved(Sent(k), k.curr)
  {
    AnnounceKeeps(k);
    AfterSendOk(k.procs, k.curr, Record(k, k.curr + 1)[2]);
    if ReceivesFrom(k.procs, Record(k, k.curr + 1)[2] - 1, k.curr) {
      SendDelivers(k);
    } else {
      BlockedKeeps(Announced(k), Sent(k));
    }
  }

  lemma AnnounceKeeps(k: KState)
    requires Running1(k)
    ensures Consistent(Announced(k)) && (ContextSaved(k, k.curr) ==> ContextSaved(Announced(k), k.curr))
    ensures var me, k1 := k.curr + 1, Announced(k);
            Record(k1, me)[1] == me && Record(k1, me)[2] == Record(k, me)[2]
            && Content(Record(k1, me)) == Content(Record(k, me))
  {
    var me, rec := k.curr + 1, SetWord(Record(k, k.curr + 1), 1, k.curr + 1);
    SetRecordKeeps(k, me, rec);
    RecordSet(k, me, rec);
    assert Content(rec) == Content(Record(k, me));
  }

  lemma SendDelivers(k: KState)
    requires Running1(k) && ContextSaved(k, k.curr)
    requires var receiver := Record(k, k.curr + 1)[2];
             KnownPid(k.procs, receiver) && receiver < NPIDS && ReceivesFrom(k.procs, receiver - 1, k.curr)
    ensures Consistent(Sent(k)) && ContextSaved(Sent(k), k.curr)
  {
    hide Consistent, ProcsOk, ContextSaved, Woken, Blocked, Content, PutMsg, SetWord;
    HasOwnRecord(k);
    var me, receiver := k.curr + 1, Record(k, k.curr + 1)[2];
    KnownIsPid(k, receiver);
    AnnounceKeeps(k);
    AfterSendOk(k.procs, k.curr, receiver);
    CopyKeeps(Announced(k), me, receiver);
    DeliveredKeeps(MsgCopied(Announced(k), me, receiver), Sent(k), receiver - 1);
  }

  lemma ReceiveKeeps(k: KState)
    requires Running1(k) && ContextSaved(k, k.curr)
    requires Record(k, k.curr + 1)[1] < MAX_NPROCESS
    ensures Consistent(Received(k)) && ContextSaved(Received(k), k.curr)
  {
    hide Consistent, ProcsOk, ContextSaved, Woken, Blocked;
    HasOwnRecord(k);
    var me, expected := k.curr + 1, Record(k, k.curr + 1)[1];
    AfterRecvOk(k.procs, k.curr, expected);
    if SenderFor(k.procs, k.curr, expected) == -1 {
      BlockedKeeps(k, Received(k));
    } else {
      ReceiveTakes(k);
    }
  }

  lemma TakenIs(k: KState, s: nat)
    requires |k.procs| == MAX_NPROCESS && k.curr < MAX_NPROCESS - 1 && |k.views| == NPIDS
    requires Record(k, k.curr + 1)[1] < MAX_NPROCESS && s == SenderFor(k.procs, k.curr, Record(k, k.curr + 1)[1])
    ensures var me, r := k.curr + 1, Received(k);
            var k1 := MsgCopied(k, s + 1, me);
            && SameMemory(k1, r) && k1.procs == k.procs && k1.curr == r.curr && k1.sending == r.sending
            && r.sendLog == k.sendLog + [Message(s + 1, me, if s + 1 in k.sending then k.sending[s + 1] else [])]
            && r.recvLog == k.recvLog + [Message(Record(k1, me)[1], me, Content(Record(k1, me)))]
  {
    hide Content, PutMsg;
  }

  lemma ReceiveTakes(k: KState)
    requires Running1(k) && ContextSaved(k, k.curr)
    requires Record(k, k.curr + 1)[1] < MAX_NPROCESS
    requires SenderFor(k.procs, k.curr, Record(k, k.curr + 1)[1]) != -1
    ensures Consistent(Received(k)) && ContextSaved(Received(k), k.curr)
  {
    hide Consistent, ProcsOk, ContextSaved, Woken, Blocked, Content, SameMemory, Received, AfterRecv, MsgCopied;
    HasOwnRecord(k);
    var me, expected := k.curr + 1, Record(k, k.curr + 1)[1];
    var s := SenderFor(k.procs, k.curr, expected);
    AfterRecvOk(k.procs, k.curr, expected);
    SenderPends(k, s);
    TakenIs(k, s);
    CopyKeeps(k, s + 1, me);
    DeliveredKeeps(MsgCopied(k, s + 1, me), Received(k), s);
  }

  /** Waking process w after a delivery. */
  lemma DeliveredKeeps(k: KState, k': KState, w: nat)
    requires Consistent(k) && ContextSaved(k, k.curr)
    requires SameMemory(k, k') && k'.curr == k.curr && k'.sending == k.sending && k'.sendLog == k'.recvLog
    requires ProcsOk(k'.procs, k'.curr) && Woken(k.procs, k'.procs, w)
    ensures Consistent(k') && ContextSaved(k', k'.curr)
  {
    forall i | 0 <= i < MAX_NPROCESS
      ensures Live(k'.procs[i].status) ==> HasRecord(k', i + 1)
      ensures k'.procs[i].status == WaitToSend ==> SendPending(k', i)
      ensures Suspended(k'.procs[i].status) ==> ContextSaved(k', i)
    {
      assert Live(k.procs[i].status) ==> HasRecord(k, i + 1);
      assert k.procs[i].status == WaitToSend ==> SendPending(k, i);
      assert Suspended(k.procs[i].status) ==> ContextSaved(k, i);
    }
  }

  /** Blocking the current process. */
  lemma BlockedKeeps(k: KState, k': KState)
    requires Consistent(k) && ContextSaved(k, k.curr) && Live(k.procs[k.curr].status)
    requires SameMemory(k, k') && k'.curr == k.curr && k'.sendLog == k'.recvLog
    requires ProcsOk(k'.procs, k'.curr) && Blocked(k.procs, k'.procs, k.curr)
    requires forall p :: p != k.curr + 1 && p in k.sending ==> p in k'.sending && k'.sending[p] == k.sending[p]
    requires k'.procs[k.curr].status == WaitToSend ==> SendPending(k', k.curr)
    ensures Consistent(k') && ContextSaved(k', k'.curr)
  {
    forall i | 0 <= i < MAX_NPROCESS
      ensures Live(k'.procs[i].status) ==> HasRecord(k', i + 1)
      ensures k'.procs[i].status == WaitToSend ==> SendPending(k', i)
      ensures Suspended(k'.procs[i].status) ==> ContextSaved(k', i)
    {
      assert Live(k.procs[i].status) ==> HasRecord(k, i + 1);
      assert k.procs[i].status == WaitToSend ==> SendPending(k, i);
      assert Suspended(k.procs[i].status) ==> ContextSaved(k, i);
    }
  }

  // ----- stacks, user code and the process life cycle, on the state -----

  /** The top depth words of the stack page. */
  function StackTop(stack: Page, depth: nat): seq<U32>
    requires depth <= WORDS_PER_PAGE
  {
    stack[WORDS_PER_PAGE - depth..]
  }

  /** Saving the current process's program counter and stack, which is depth words deep. */
  function ContextPushed(k: KState, stack: Page, depth: nat, pc: U32): KState
    requires k.curr < |k.procs| && k.curr + 1 < |k.procStack| && depth <= WORDS_PER_PAGE
  {
    k.(procs := k.procs[k.curr := k.procs[k.curr].(sp := depth, mepc := pc)],
       procStack := k.procStack[k.curr + 1 := SavedPage(k.procStack[k.curr + 1], stack, depth)],
       contexts := k.contexts[k.curr + 1 := Context(pc, StackTop(stack, depth))])
  }

  /** Redirecting the current process to its exit code. */
  function Killed(k: KState): KState
    requires k.curr < |k.procs| && k.curr + 1 in k.contexts
  {
    k.(procs := k.procs[k.curr := k.procs[k.curr].(mepc := EXIT_PC)],
       contexts := k.contexts[k.curr + 1 := Context(EXIT_PC, k.contexts[k.curr + 1].stack)])
  }

  function SavedPage(old0: Page, stack: Page, depth: nat): Page
    requires depth <= WORDS_PER_PAGE
  {
    StackTop(stack, depth) + old0[depth..]
  }

  function RestoredPage(stack: Page, saved: Page, depth: nat): (r: Page)
    requires depth <= WORDS_PER_PAGE
    ensures StackTop(r, depth) == saved[..depth]
  {
    stack[..WORDS_PER_PAGE - depth] + saved[..depth]
  }

  /** Changing the saved context of the current process. */
  lemma ContextKeeps(k: KState, k': KState)
    requires Running1(k)
    requires k' == k.(procs := k'.procs, procStack := k'.procStack, contexts := k'.contexts)
    requires |k'.procs| == MAX_NPROCESS == |k'.procStack|
    requires k'.procs[k.curr] == k.procs[k.curr].(sp := k'.procs[k.curr].sp, mepc := k'.procs[k.curr].mepc)
    requires forall i :: 0 <= i < MAX_NPROCESS && i != k.curr ==>
               k'.procs[i] == k.procs[i] && (i + 1 < MAX_NPROCESS ==> k'.procStack[i + 1] == k.procStack[i + 1])
               && (i + 1 in k.contexts ==> i + 1 in k'.contexts && k'.contexts[i + 1] == k.contexts[i + 1])
    requires ContextSaved(k', k.curr)
    ensures Running1(k')
  {
    forall s, r | 0 <= s < MAX_NPROCESS && 0 <= r < MAX_NPROCESS
      ensures !(SendsTo(k'.procs, s, r) && ReceivesFrom(k'.procs, r, s))
    {
      assert !(SendsTo(k.procs, s, r) && ReceivesFrom(k.procs, r, s));
    }
    forall i | 0 <= i < MAX_NPROCESS
      ensures Live(k'.procs[i].status) ==> HasRecord(k', i + 1)
      ensures k'.procs[i].status == WaitToSend ==> SendPending(k', i)
      ensures Suspended(k'.procs[i].status) ==> ContextSaved(k', i)
    {
      assert Live(k.procs[i].status) ==> HasRecord(k, i + 1);
      assert k.procs[i].status == WaitToSend ==> SendPending(k, i);
      assert Suspended(k.procs[i].status) ==> ContextSaved(k, i);
    }
  }

  lemma PushKeeps(k: KState, stack: Page, depth: nat, pc: U32)
    requires Running1(k) && depth <= WORDS_PER_PAGE
    ensures var k' := ContextPushed(k, stack, depth, pc);
            Running1(k') && ContextSaved(k', k.curr)
  {
    var k' := ContextPushed(k, stack, depth, pc);
    assert k'.procStack[k.curr + 1][..depth] == StackTop(stack, depth);
    ContextKeeps(k, k');
  }

  /** The current process stores to one of its own pages. */
  lemma UserStoreKeeps(k: KState, e: nat, page: Page)
    requires Running1(k) && e in k.views[k.curr + 1]
    ensures Running1(k.(views := Stored(k.views, k.curr + 1, e, page)))
  {
    var k' := k.(views := Stored(k.views, k.curr + 1, e, page));
    forall i | 0 <= i < MAX_NPROCESS
      ensures Live(k'.procs[i].status) ==> HasRecord(k', i + 1)
      ensures k'.procs[i].status == WaitToSend ==> SendPending(k', i)
      ensures Suspended(k'.procs[i].status) ==> ContextSaved(k', i)
    {
      assert Live(k.procs[i].status) ==> HasRecord(k, i + 1);
      assert k.procs[i].status == WaitToSend ==> SendPending(k, i);
      assert Suspended(k.procs[i].status) ==> ContextSaved(k, i);
    }
  }

  /** k' is k after the process in slot j has been allocated, readied or freed. */
  ghost predicate Managed(k: KState, k': KState, j: nat) {
    && j < MAX_NPROCESS - 1 && j != k.curr
    && k' == k.(procs := k'.procs, views := k'.views)
    && |k'.procs| == |k.procs| == MAX_NPROCESS && |k'.views| == |k.views| == NPIDS
    && (forall i :: 0 <= i < MAX_NPROCESS && i != j ==> k'.procs[i] == k.procs[i])
    && (forall p :: 0 <= p < NPIDS && p != j + 1 ==> k'.views[p] == k.views[p])
    && k'.procs[j].status in {Unused, Loading, Ready} && k'.procs[j].sp <= WORDS_PER_PAGE
    && k'.procs[j].pid == j + 1
    && (k'.procs[j].status == Ready ==> HasRecord(k', j + 1))
  }

  /** Any change of processes other than the current one that starts no wait. */
  lemma LifeCycleKeeps(k: KState, k': KState, j: nat)
    requires Running1(k) && Managed(k, k', j)
    ensures Running1(k')
  {
    forall s, r | 0 <= s < MAX_NPROCESS && 0 <= r < MAX_NPROCESS
      ensures !(SendsTo(k'.procs, s, r) && ReceivesFrom(k'.procs, r, s))
    {
      assert !(SendsTo(k.procs, s, r) && ReceivesFrom(k.procs, r, s));
    }
    forall i | 0 <= i < MAX_NPROCESS
      ensures Live(k'.procs[i].status) ==> HasRecord(k', i + 1)
      ensures k'.procs[i].status == WaitToSend ==> SendPending(k', i)
      ensures Suspended(k'.procs[i].status) ==> ContextSaved(k', i)
    {
      assert Live(k.procs[i].status) ==> HasRecord(k, i + 1);
      assert k.procs[i].status == WaitToSend ==> SendPending(k, i);
      assert Suspended(k.procs[i].status) ==> ContextSaved(k, i);
    }
  }

  // ----- whole system calls and traps, as relations between states -----

  /** k' is the state after the system call in the current process's record. */
  ghost predicate SyscallDone(k: KState, k': KState) {
    && Running1(k)
    && var k1, rec := EnterSyscall(k), Record(k, k.curr + 1);
       if rec[0] == SYS_RECV then
         rec[1] < MAX_NPROCESS && NextIdx(Received(k1).procs, k.curr, 1) != -1 && k' == Yielded(Received(k1))
       else if rec[0] == SYS_SEND then
         KnownPid(k.procs, rec[2]) && rec[2] < NPIDS && NextIdx(Sent(k1).procs, k.curr, 1) != -1 && k' == Yielded(Sent(k1))
       else
         rec[0] == SYS_YIELD && NextIdx(k.procs, k.curr, 1) != -1 && k' == Yielded(k1)
  }

  /** k' is the state after an interrupt that reached the kernel in state k. */
  ghost predicate InterruptDone(k: KState, k': KState, id: nat, ctrlC: bool) {
    && Running1(k) && ContextSaved(k, k.curr)
    && if id == INTR_ID_TIMER && k.curr + 1 < GPID_SHELL then k' == k
       else if k.curr + 1 >= GPID_USER_START && ctrlC then k' == Killed(k)
       else if id == INTR_ID_SOFT then SyscallDone(k, k')
       else id == INTR_ID_TIMER && NextIdx(k.procs, k.curr, 1) != -1 && k' == Yielded(k)
  }

  /** Only processes in `writable` differ, and those only in the page of the syscall record. */
  ghost predicate Isolated(k: KState, k': KState, writable: set<int>) {
    && |k'.views| == |k.views|
    && (forall p :: 0 <= p < |k.views| && p !in writable ==> k'.views[p] == k.views[p])
    && (forall p :: 0 <= p < |k.views| ==> (SYSCALL_PAGE in k'.views[p] <==> SYSCALL_PAGE in k.views[p]))
    && (forall p :: 0 <= p < |k.views| ==> k'.views[p] - {SYSCALL_PAGE} == k.views[p] - {SYSCALL_PAGE})
  }

  lemma SetRecordIsolated(k: KState, k1: KState, pid: int, rec: Page, writable: set<int>)
    requires Isolated(k, k1, writable) && 0 <= pid < |k1.views| && pid in writable && SYSCALL_PAGE in k1.views[pid]
    ensures Isolated(k, SetRecord(k1, pid, rec), writable)
  {
    var k2 := SetRecord(k1, pid, rec);
    assert k2.views[pid] - {SYSCALL_PAGE} == k1.views[pid] - {SYSCALL_PAGE};
  }

  /** The process, other than the caller, that a system call may write to. */
  function DeliveredTo(k: KState): set<int>
    requires |k.procs| == MAX_NPROCESS && k.curr < MAX_NPROCESS
  {
    var rec := Record(k, k.curr + 1);
    if rec[0] == SYS_SEND && KnownPid(k.procs, rec[2]) && ReceivesFrom(k.procs, rec[2] - 1, k.curr) then {rec[2]} else {}
  }

  /** Entering a system call clears two words of the caller's record. */
  lemma EnterIsolated(k: KState, w: set<int>) returns (rec1: Page)
    requires Running1(k) && k.curr + 1 in w && |k.views| == NPIDS && HasRecord(k, k.curr + 1)
    ensures EnterSyscall(k) == SetRecord(k, k.curr + 1, rec1) && Isolated(k, EnterSyscall(k), w)
    ensures var rec := Record(k, k.curr + 1);
            Content(rec1) == Content(rec) && rec1[1] == rec[1] && rec1[2] == rec[2]
    ensures Record(EnterSyscall(k), k.curr + 1) == rec1
  {
    hide Consistent;
    rec1 := SetWord(SetWord(Record(k, k.curr + 1), RETVAL, 0), 0, 0);
    RecordSet(k, k.curr + 1, rec1);
    SetRecordIsolated(k, k, k.curr + 1, rec1, w);
  }

  /** Memory isolation: a system call leaves all memory of all processes as it was, except
      the syscall records of the caller and of the receiver a message is delivered to; and
      that receiver gets exactly the caller's message, header and content. */
  lemma SyscallIsolated(k: KState, k': KState)
    requires SyscallDone(k, k')
    ensures Isolated(k, k', {k.curr + 1} + DeliveredTo(k))
    ensures forall r :: r in DeliveredTo(k) && r != k.curr + 1 ==>
              var p, rec := Record(k', r), Record(k, k.curr + 1);
              && p[0] == Record(k, r)[0] && p[RETVAL] == Record(k, r)[RETVAL]
              && p[1] == k.curr + 1 && p[2] == r && Content(p) == Content(rec)
  {
    hide Consistent, ProcsOk, Content, Msg, PutMsg, SetWord, SetRecord, MsgCopied, Handed, EnterSyscall;
    HasOwnRecord(k);
    var w := {k.curr + 1} + DeliveredTo(k);
    var rec1 := EnterIsolated(k, w);
    var call := Record(k, k.curr + 1)[0];
    if call == SYS_RECV {
      ReceiveIsolated(k, EnterSyscall(k), rec1, w);
    } else if call == SYS_SEND {
      SendIsolated(k, EnterSyscall(k), rec1, w);
    }
  }

  lemma SameViewsIsolated(k: KState, k1: KState, k2: KState, w: set<int>)
    requires Isolated(k, k1, w) && k2.views == k1.views
    ensures Isolated(k, k2, w)
  {}

  lemma ReceiveIsolated(k: KState, k1: KState, rec1: Page, w: set<int>)
    requires Running1(k) && k1 == SetRecord(k, k.curr + 1, rec1) && Isolated(k, k1, w)
    requires rec1[1] < MAX_NPROCESS && k.curr + 1 in w
    ensures Isolated(k, Received(k1), w)
  {
    hide Consistent, ProcsOk, Content, Msg, PutMsg, AfterRecv, LastSender, SenderFor, SendsTo, Isolated, Received;
    HasOwnRecord(k);
    var me := k.curr + 1;
    RecordSet(k, me, rec1);
    var s := SenderFor(k.procs, k.curr, rec1[1]);
    if s == -1 {
      NoneTaken(k1);
      SameViewsIsolated(k, k1, Received(k1), w);
    } else {
      var rec2 := PutMsg(rec1, Msg(Record(k1, s + 1)));
      TakenIs(k1, s);
      SetRecordIsolated(k, k1, me, rec2, w);
      SameViewsIsolated(k, SetRecord(k1, me, rec2), Received(k1), w);
    }
  }

  lemma NoneTaken(k: KState)
    requires |k.procs| == MAX_NPROCESS && k.curr < MAX_NPROCESS - 1 && |k.views| == NPIDS
    requires Record(k, k.curr + 1)[1] < MAX_NPROCESS && SenderFor(k.procs, k.curr, Record(k, k.curr + 1)[1]) == -1
    ensures Received(k) == k.(procs := AfterRecv(k.procs, k.curr, Record(k, k.curr + 1)[1]))
  {
    hide Record;
  }

  lemma SendIsolated(k: KState, k1: KState, rec1: Page, w: set<int>)
    requires Running1(k) && k1 == SetRecord(k, k.curr + 1, rec1) && Isolated(k, k1, w)
    requires rec1[2] < NPIDS && KnownPid(k.procs, rec1[2]) && k.curr + 1 in w
    requires ReceivesFrom(k.procs, rec1[2] - 1, k.curr) ==> rec1[2] in w
    ensures Isolated(k, Sent(k1), w)
    ensures ReceivesFrom(k.procs, rec1[2] - 1, k.curr) ==>
              var r := rec1[2]; var p := Record(Sent(k1), r);
              && p[0] == Record(k, r)[0] && p[RETVAL] == Record(k, r)[RETVAL]
              && p[1] == k.curr + 1 && p[2] == r && Content(p) == Content(rec1)
  {
    hide Consistent;
    HasOwnRecord(k);
    var me, r := k.curr + 1, rec1[2];
    var rec2 := SetWord(rec1, 1, me);
    var k2 := Announced(k1);
    assert HasRecord(k, me);
    RecordSet(k, me, rec1);
    RecordSet(k1, me, rec2);
    SetRecordIsolated(k, k1, me, rec2, w);
    assert Content(rec2) == Content(rec1);
    if ReceivesFrom(k.procs, r - 1, k.curr) {
      assert HasRecord(k, r);
      CopiedMessage(Record(k2, r), rec2);
      RecordSet(k2, r, PutMsg(Record(k2, r), Msg(rec2)));
      SetRecordIsolated(k, k2, r, PutMsg(Record(k2, r), Msg(rec2)), w);
    }
  }

  lemma EnterKeeps(k: KState)
    requires Running1(k) && ContextSaved(k, k.curr)
    ensures var k1, me := EnterSyscall(k), k.curr + 1;
            && Running1(k1) && ContextSaved(k1, k.curr)
            && Record(k1, me)[1] == Record(k, me)[1] && Record(k1, me)[2] == Record(k, me)[2]
  {
    var me := k.curr + 1;
    var rec := SetWord(SetWord(Record(k, me), RETVAL, 0), 0, 0);
    SetRecordKeeps(k, me, rec);
    RecordSet(k, me, rec);
  }

  /** Saving the context changes no status, and notes program counter and stack. */
  lemma PushedFacts(k: KState, stack: Page, depth: nat, pc: U32)
    requires Running1(k) && depth <= WORDS_PER_PAGE
    ensures var k' := ContextPushed(k, stack, depth, pc);
            && |k'.procs| == |k.procs| == MAX_NPROCESS && k'.curr == k.curr < MAX_NPROCESS
            && (forall i :: 0 <= i < MAX_NPROCESS ==> k'.procs[i].status == k.procs[i].status)
            && k'.procs[k.curr].sp == depth && k'.contexts == k.contexts[k.curr + 1 := Context(pc, StackTop(stack, depth))]
  {
    hide Consistent, StackTop;
    HasOwnRecord(k);
  }

  /** Control-C in a user process leaves it the current one, to go on at its exit code with the
      stack it had. */
  lemma ControlC(k: KState, k': KState, id: nat)
    requires InterruptDone(k, k', id, true) && k.curr + 1 >= GPID_USER_START
    ensures k.curr < |k.procs| && k.curr + 1 in k.contexts
    ensures k'.curr == k.curr && |k'.procs| == |k.procs| && k'.procs[k.curr] == k.procs[k.curr].(mepc := EXIT_PC)
    ensures k'.contexts == k.contexts[k.curr + 1 := Context(EXIT_PC, k.contexts[k.curr + 1].stack)]
  {
    hide SyscallDone;
  }

  /** The timer does not interrupt the low system processes. */
  lemma TimerIgnored(k: KState, k': KState, ctrlC: bool)
    requires InterruptDone(k, k', INTR_ID_TIMER, ctrlC) && k.curr + 1 < GPID_SHELL
    ensures k' == k
  {}

  class System {
    const mmu: SoftTlb
    var procs: seq<Process>
    var currIdx: nat
    var procStack: seq<Page>
    ghost var sending: map<int, seq<U32>>
    ghost var contexts: map<int, Context>
    ghost var sendLog: seq<Message>
    ghost var recvLog: seq<Message>

    ghost function State(): KState
      requires mmu.Valid()
      reads this, mmu, mmu.pages.bitmap
    {
      KState(procs, currIdx, mmu.Views(), procStack, sending, contexts, sendLog, recvLog)
    }

    /** The invariant whenever user code runs: everything is consistent, exactly the current
        process is running, and its memory is the loaded one. */
    ghost predicate UserMode()
      reads this, mmu, mmu.pages.bitmap
    {
      mmu.Valid() && Running1(State()) && mmu.loaded == currIdx + 1
    }

    /** Boot: the first process is loaded, allocated in slot 0 and running. */
    constructor (m: SoftTlb)
      requires m.Valid() && m.loaded == 1 && SYSCALL_PAGE in m.Views()[1]
      ensures mmu == m && UserMode() && currIdx == 0 && sendLog == []
    {
      mmu := m;
      procs := seq(MAX_NPROCESS, i => if i == 0 then Process(1, Running, 0, 0, 0, 0) else Process(0, Unused, 0, 0, 0, 0));
      currIdx := 0;
      procStack := seq(MAX_NPROCESS, _ => ZeroPage());
      sending, contexts, sendLog, recvLog := map[], map[], [], [];
    }

    /** Copy the message part of src's syscall record into dst's. */
    method Msgcpy(src: int, dst: int)
      requires mmu.Valid() && HasRecord(State(), src) && HasRecord(State(), dst)
      modifies mmu`mem, mmu`loaded
      ensures mmu.Valid() && mmu.loaded == dst && mmu.mem[STACK_PAGE] == old(mmu.mem[STACK_PAGE])
      ensures State() == MsgCopied(old(State()), src, dst)
    {
      mmu.Switch(src);
      var from := mmu.LoadExec(SYSCALL_PAGE);
      var buf := Msg(from);
      mmu.Switch(dst);
      var to := mmu.LoadExec(SYSCALL_PAGE);
      mmu.StoreExec(SYSCALL_PAGE, PutMsg(to, buf));
    }

    /** Copy the message and wake the process that waited for it. */
    method Deliver(sender: int, receiver: int, woken: nat, ghost asked: seq<U32>)
      requires mmu.Valid() && HasRecord(State(), sender) && HasRecord(State(), receiver) && woken < |procs|
      modifies this`procs, this`sendLog, this`recvLog, mmu`mem, mmu`loaded
      ensures mmu.Valid() && mmu.loaded == receiver && mmu.mem[STACK_PAGE] == old(mmu.mem[STACK_PAGE])
      ensures State() == Handed(old(State()), sender, receiver, woken, asked)
    {
      hide SoftTlb.Valid;
      Msgcpy(sender, receiver);
      procs := procs[woken := procs[woken].(status := Runnable)];
      sendLog := sendLog + [Message(sender, receiver, asked)];
      recvLog := recvLog + [Message(Record(State(), receiver)[1], receiver, Content(Record(State(), receiver)))];
    }

    /** The search of the scheduler. */
    method FindNext() returns (next: int)
      requires |procs| == MAX_NPROCESS
      ensures next == NextIdx(procs, currIdx, 1)
    {
      var i := 1;
      while i <= MAX_NPROCESS
        invariant 1 <= i <= MAX_NPROCESS + 1
        invariant NextIdx(procs, currIdx, i) == NextIdx(procs, currIdx, 1)
      {
        if CanRun(procs[(currIdx + i) % MAX_NPROCESS].status) {
          return (currIdx + i) % MAX_NPROCESS;
        }
        i := i + 1;
      }
      next := -1;
    }

    /** Schedule the next process; isNew means it is entered for the first time.  With no
        process able to run, the kernel halts. */
    method ProcYield() returns (ok: bool, isNew: bool)
      requires mmu.Valid() && Consistent(State())
      requires procs[currIdx].status == Running ==> ContextSaved(State(), currIdx)
      modifies this`procs, this`currIdx, mmu`mem, mmu`loaded
      ensures mmu.Valid() && mmu.mem[STACK_PAGE] == old(mmu.mem[STACK_PAGE])
      ensures ok <==> NextIdx(old(procs), old(currIdx), 1) != -1
      ensures ok ==> State() == Yielded(old(State())) && UserMode()
      ensures ok ==> (isNew <==> old(procs)[currIdx].status == Ready)
      ensures ok && !isNew ==> ContextSaved(State(), currIdx)
    {
      hide SoftTlb.Valid;
      var next := FindNext();
      if next == -1 {
        return false, false;
      }
      YieldKeeps(State());
      ghost var k := State();
      if procs[currIdx].status == Running {
        procs := procs[currIdx := procs[currIdx].(status := Runnable)];
      }
      currIdx := next;
      isNew := procs[currIdx].status == Ready;
      mmu.Switch(procs[currIdx].pid);
      procs := procs[currIdx := procs[currIdx].(status := Running)];
      assert State() == Yielded(k);
      ok := true;
    }

    /** A send up to the point where the scheduler runs: deliver or block. */
    method SendOrBlock() returns (known: bool)
      requires UserMode()
      modifies this`procs, this`sending, this`sendLog, this`recvLog, mmu`mem, mmu`loaded
      ensures mmu.Valid() && mmu.mem[STACK_PAGE] == old(mmu.mem[STACK_PAGE])
      ensures var k := old(State());
              && (known <==> KnownPid(k.procs, Record(k, k.curr + 1)[2]))
              && (known ==> Record(k, k.curr + 1)[2] < NPIDS && State() == Sent(k))
    {
      hide SoftTlb.Valid;
      ghost var k := State();
      var me := procs[currIdx].pid;
      var rec := mmu.LoadExec(SYSCALL_PAGE);
      mmu.StoreExec(SYSCALL_PAGE, SetWord(rec, 1, me));
      assert State() == Announced(k);
      var receiver := rec[2];
      if !KnownPid(procs, receiver) {
        return false;
      }
      known := true;
      var r := receiver - 1;
      if procs[r].status != WaitToRecv || (procs[r].fromSender != me && procs[r].fromSender != 0) {
        procs := procs[currIdx := procs[currIdx].(status := WaitToSend, toReceiver := receiver)];
        sending := sending[me := Content(rec)];
      } else {
        assert HasRecord(State(), me) && HasRecord(State(), receiver);
        Deliver(me, receiver, r, Content(rec));
      }
    }

    /** Send the message in the current process's record.  The kernel fills in the sender.
        If the receiver waits for it the message is delivered at once, otherwise the sender
        blocks; either way the scheduler runs. */
    method ProcSend() returns (ok: bool, isNew: bool)
      requires UserMode() && ContextSaved(State(), currIdx)
      modifies this`procs, this`currIdx, this`sending, this`sendLog, this`recvLog, mmu`mem, mmu`loaded
      ensures mmu.Valid() && mmu.mem[STACK_PAGE] == old(mmu.mem[STACK_PAGE])
      ensures var k := old(State());
              var receiver := Record(k, k.curr + 1)[2];
              && (ok <==> KnownPid(k.procs, receiver) && NextIdx(AfterSend(k.procs, k.curr, receiver), k.curr, 1) != -1)
              && (ok ==> receiver < NPIDS && State() == Yielded(Sent(k)) && UserMode())
              && (ok && !isNew ==> ContextSaved(State(), currIdx))
      ensures ok ==> (isNew <==> old(procs)[currIdx].status == Ready)
    {
      hide SoftTlb.Valid, Consistent, ContextSaved, Sent, Received, AfterSend, AfterRecv, Scheduled;
      ghost var k := State();
      HasOwnRecord(k);
      var known := SendOrBlock();
      if !known {
        return false, false;
      }
      SendKeeps(k);
      AfterSendReady(k.procs, k.curr, Record(k, k.curr + 1)[2]);
      ok, isNew := ProcYield();
    }

    /** The scan for a process that waits to send to the current one; the last one wins. */
    method FindSender(expected: int) returns (s: int)
      requires |procs| == MAX_NPROCESS && 0 <= expected < MAX_NPROCESS
      ensures s == SenderFor(procs, currIdx, expected)
    {
      s := -1;
      if expected == 0 {
        var i := 0;
        while i < MAX_NPROCESS
          invariant 0 <= i <= MAX_NPROCESS && s == LastSender(procs, currIdx, i)
        {
          if SendsTo(procs, i, currIdx) {
            s := i;
          }
          i := i + 1;
        }
      } else if SendsTo(procs, expected - 1, currIdx) {
        s := expected - 1;
      }
    }

    /** A receive up to the point where the scheduler runs: take a waiting message or block. */
    method RecvOrBlock() returns (valid: bool)
      requires UserMode()
      modifies this`procs, this`sendLog, this`recvLog, mmu`mem, mmu`loaded
      ensures mmu.Valid() && mmu.mem[STACK_PAGE] == old(mmu.mem[STACK_PAGE])
      ensures var k := old(State());
              && (valid <==> Record(k, k.curr + 1)[1] < MAX_NPROCESS)
              && (valid ==> State() == Received(k))
    {
      hide SoftTlb.Valid, Consistent, ProcsOk, Content, PutMsg, Handed, LastSender;
      ghost var k := State();
      HasOwnRecord(k);
      var rec := mmu.LoadExec(SYSCALL_PAGE);
      var expected := rec[1];
      if expected >= MAX_NPROCESS {
        return false;
      }
      valid := true;
      procs := procs[currIdx := procs[currIdx].(fromSender := expected)];
      var s := FindSender(expected);
      SameSender(k.procs, procs, currIdx, expected);
      if s == -1 {
        procs := procs[currIdx := procs[currIdx].(status := WaitToRecv)];
      } else {
        SenderPends(k, s);
        Deliver(s + 1, procs[currIdx].pid, s, sending[s + 1]);
      }
    }

    /** Receive into the current process's record, from the expected sender or, for 0, from
        anyone: take the message of a blocked sender and wake it, or block. */
    method ProcRecv() returns (ok: bool, isNew: bool)
      requires UserMode() && ContextSaved(State(), currIdx)
      modifies this`procs, this`currIdx, this`sendLog, this`recvLog, mmu`mem, mmu`loaded
      ensures mmu.Valid() && mmu.mem[STACK_PAGE] == old(mmu.mem[STACK_PAGE])
      ensures var k := old(State());
              var expected := Record(k, k.curr + 1)[1];
              && (ok <==> expected < MAX_NPROCESS && NextIdx(AfterRecv(k.procs, k.curr, expected), k.curr, 1) != -1)
              && (ok ==> State() == Yielded(Received(k)) && UserMode())
              && (ok && !isNew ==> ContextSaved(State(), currIdx))
      ensures ok ==> (isNew <==> old(procs)[currIdx].status == Ready)
    {
      hide SoftTlb.Valid, Consistent, ContextSaved, Sent, Received, AfterSend, AfterRecv, Scheduled;
      ghost var k := State();
      HasOwnRecord(k);
      var valid := RecvOrBlock();
      if !valid {
        return false, false;
      }
      ReceiveKeeps(k);
      AfterRecvReady(k.procs, k.curr, Record(k, k.curr + 1)[1]);
      ok, isNew := ProcYield();
    }

    /** Dispatch the system call in the current process's record; an unknown one halts. */
    method ProcSyscall() returns (ok: bool, isNew: bool)
      requires UserMode() && ContextSaved(State(), currIdx)
      modifies this`procs, this`currIdx, this`sending, this`sendLog, this`recvLog, mmu`mem, mmu`loaded
      ensures mmu.Valid() && mmu.mem[STACK_PAGE] == old(mmu.mem[STACK_PAGE])
      ensures ok ==> UserMode() && SyscallDone(old(State()), State())
      ensures ok && !isNew ==> ContextSaved(State(), currIdx)
      ensures ok ==> (isNew <==> old(procs)[currIdx].status == Ready)
      ensures !ok ==> forall k' :: !SyscallDone(old(State()), k')
    {
      hide SoftTlb.Valid, Consistent;
      ghost var k := State();
      EnterKeeps(k);
      HasOwnRecord(k);
      var rec := mmu.LoadExec(SYSCALL_PAGE);
      mmu.StoreExec(SYSCALL_PAGE, SetWord(SetWord(rec, RETVAL, 0), 0, 0));
      assert State() == EnterSyscall(k);
      if rec[0] == SYS_RECV {
        ok, isNew := ProcRecv();
      } else if rec[0] == SYS_SEND {
        ok, isNew := ProcSend();
      } else if rec[0] == SYS_YIELD {
        ok, isNew := ProcYield();
      } else {
        return false, false;
      }
    }

    /** Interrupts of system processes by the timer are ignored, control-C sends a user
        process to its exit, otherwise a system call or the scheduler runs. */
    method IntrEntry(id: nat, ctrlC: bool) returns (ok: bool, isNew: bool)
      requires UserMode() && ContextSaved(State(), currIdx)
      modifies this, mmu`mem, mmu`loaded
      ensures mmu.Valid() && mmu.mem[STACK_PAGE] == old(mmu.mem[STACK_PAGE])
      ensures ok ==> UserMode() && InterruptDone(old(State()), State(), id, ctrlC)
      ensures ok && !isNew ==> ContextSaved(State(), currIdx)
      ensures ok ==> (isNew <==> old(procs)[currIdx].status == Ready)
      ensures !ok ==> forall k' :: !InterruptDone(old(State()), k', id, ctrlC)
    {
      hide SoftTlb.Valid, Consistent, SyscallDone;
      ghost var k := State();
      HasOwnRecord(k);
      if id == INTR_ID_TIMER && procs[currIdx].pid < GPID_SHELL {
        return true, false;
      }
      if procs[currIdx].pid >= GPID_USER_START && ctrlC {
        procs := procs[currIdx := procs[currIdx].(mepc := EXIT_PC)];
        contexts := contexts[currIdx + 1 := Context(EXIT_PC, contexts[currIdx + 1].stack)];
        ContextKeeps(k, State());
        return true, false;
      }
      if id == INTR_ID_SOFT {
        ok, isNew := ProcSyscall();
      } else if id == INTR_ID_TIMER {
        ok, isNew := ProcYield();
      } else {
        return false, false;
      }
    }

    /** Save the current process's stack to, or restore it from, its slot. */
    method ManageUserstack(save: bool)
      requires mmu.Valid() && currIdx + 1 < |procStack| && currIdx < |procs| && procs[currIdx].sp <= WORDS_PER_PAGE
      requires procs[currIdx].pid == currIdx + 1
      modifies this`procStack, mmu`mem
      ensures mmu.Valid() && mmu.Views() == old(mmu.Views())
      ensures var d, pid := procs[currIdx].sp, currIdx + 1;
              if save then
                procStack == old(procStack)[pid := SavedPage(old(procStack)[pid], old(mmu.mem[STACK_PAGE]), d)]
                && mmu.mem == old(mmu.mem)
              else
                procStack == old(procStack)
                && mmu.mem[STACK_PAGE] == RestoredPage(old(mmu.mem[STACK_PAGE]), procStack[pid], d)
    {
      var pid, d := procs[currIdx].pid, procs[currIdx].sp;
      if save {
        procStack := procStack[pid := SavedPage(procStack[pid], mmu.mem[STACK_PAGE], d)];
      } else {
        mmu.StoreStack(RestoredPage(mmu.mem[STACK_PAGE], procStack[pid], d));
      }
    }

    /** Save the program counter and the stack, depth words deep, of the current process. */
    method PushContext(depth: nat, pc: U32)
      requires UserMode() && depth <= WORDS_PER_PAGE
      modifies this`procs, this`contexts, this`procStack, mmu`mem
      ensures UserMode() && ContextSaved(State(), currIdx) && mmu.mem[STACK_PAGE] == old(mmu.mem[STACK_PAGE])
      ensures State() == ContextPushed(old(State()), old(mmu.mem[STACK_PAGE]), depth, pc)
    {
      hide Consistent, ContextSaved, SavedPage, StackTop;
      ghost var k, stack := State(), mmu.mem[STACK_PAGE];
      HasOwnRecord(k);
      PushKeeps(k, stack, depth, pc);
      procs := procs[currIdx := procs[currIdx].(sp := depth, mepc := pc)];
      contexts := contexts[currIdx + 1 := Context(pc, StackTop(stack, depth))];
      ManageUserstack(true);
      assert State() == ContextPushed(k, stack, depth, pc);
    }

    /** Bring back the stack of the current process, and its program counter. */
    method PopContext() returns (resume: U32)
      requires UserMode() && ContextSaved(State(), currIdx)
      modifies this`procStack, mmu`mem
      ensures UserMode() && State() == old(State())
      ensures procs[currIdx].sp <= WORDS_PER_PAGE && currIdx + 1 in contexts
              && Context(resume, StackTop(mmu.mem[STACK_PAGE], procs[currIdx].sp)) == contexts[currIdx + 1]
    {
      hide Consistent, RestoredPage, StackTop;
      HasOwnRecord(State());
      ManageUserstack(false);
      resume := procs[currIdx].mepc;
    }

    /** One trip through the kernel.  A trap arrives at pc with the stack depth words deep;
        afterwards the process returned to is at the pc and with the stack it had when it was
        suspended, unless it is entered for the first time.  A stack deeper than a page halts. */
    method CtxEntry(depth: nat, pc: U32, isInterrupt: bool, id: nat, ctrlC: bool)
        returns (ok: bool, isNew: bool, resume: U32)
      requires UserMode()
      modifies this, mmu`mem, mmu`loaded
      ensures ok ==> UserMode() && depth <= WORDS_PER_PAGE && isInterrupt
                     && InterruptDone(ContextPushed(old(State()), old(mmu.mem[STACK_PAGE]), depth, pc), State(), id, ctrlC)
      ensures ok && !isNew ==> currIdx + 1 in contexts && procs[currIdx].sp <= WORDS_PER_PAGE
                               && Context(resume, StackTop(mmu.mem[STACK_PAGE], procs[currIdx].sp)) == contexts[currIdx + 1]
      ensures ok ==> (isNew <==> old(procs)[currIdx].status == Ready)
      ensures ok && id == INTR_ID_TIMER && old(currIdx) + 1 < GPID_SHELL ==>
                currIdx == old(currIdx) && resume == pc && procs[currIdx].sp == depth
                && StackTop(mmu.mem[STACK_PAGE], depth) == StackTop(old(mmu.mem[STACK_PAGE]), depth)
      ensures ok && ctrlC && old(currIdx) + 1 >= GPID_USER_START ==>
                currIdx == old(currIdx) && resume == EXIT_PC && procs[currIdx].sp == depth
                && StackTop(mmu.mem[STACK_PAGE], depth) == StackTop(old(mmu.mem[STACK_PAGE]), depth)
      ensures !ok && isInterrupt && depth <= WORDS_PER_PAGE ==>
                forall k' :: !InterruptDone(ContextPushed(old(State()), old(mmu.mem[STACK_PAGE]), depth, pc), k', id, ctrlC)
    {
      hide Consistent, InterruptDone, ContextSaved, ContextPushed, StackTop;
      HasOwnRecord(State());
      ghost var k, stack := State(), mmu.mem[STACK_PAGE];
      if depth > WORDS_PER_PAGE {
        return false, false, 0;
      }
      PushedFacts(k, stack, depth, pc);
      PushContext(depth, pc);
      if !isInterrupt {
        return false, false, 0;
      }
      ok, isNew := IntrEntry(id, ctrlC);
      resume := 0;
      if ok && id == INTR_ID_TIMER && k.curr + 1 < GPID_SHELL {
        TimerIgnored(ContextPushed(k, stack, depth, pc), State(), ctrlC);
      }
      if ok && ctrlC && k.curr + 1 >= GPID_USER_START {
        ControlC(ContextPushed(k, stack, depth, pc), State(), id);
      }
      if ok && !isNew {
        resume := PopContext();
      }
    }

    // ----- called by system processes, and user code itself -----

    /** The first unused slot becomes a process being loaded. */
    method ProcAlloc() returns (pid: int)
      requires UserMode() && exists i :: 0 <= i < MAX_NPROCESS - 1 && procs[i].status == Unused
      modifies this`procs
      ensures UserMode() && IsPid(pid) && old(procs)[pid - 1].status == Unused
      ensures forall i :: 0 <= i < pid - 1 ==> procs[i].status != Unused
      ensures procs == old(procs)[pid - 1 := old(procs)[pid - 1].(pid := pid, status := Loading)]
      ensures Managed(old(State()), State(), pid - 1)
    {
      hide SoftTlb.Valid;
      ghost var k := State();
      var i := 0;
      while procs[i].status != Unused
        invariant 0 <= i < MAX_NPROCESS - 1
        invariant forall j :: 0 <= j < i ==> procs[j].status != Unused
        decreases MAX_NPROCESS - i
      {
        i := i + 1;
      }
      pid := i + 1;
      procs := procs[i := procs[i].(pid := pid, status := Loading)];
      LifeCycleKeeps(k, State(), i);
    }

    /** A process whose memory has been set up may be scheduled. */
    method ProcSetReady(pid: int)
      requires UserMode() && IsPid(pid) && procs[pid - 1].pid == pid && procs[pid - 1].status == Loading
      requires HasRecord(State(), pid)
      modifies this`procs
      ensures UserMode() && procs == old(procs)[pid - 1 := old(procs)[pid - 1].(status := Ready)]
      ensures Managed(old(State()), State(), pid - 1)
    {
      hide SoftTlb.Valid;
      ghost var k := State();
      procs := procs[pid - 1 := procs[pid - 1].(status := Ready)];
      LifeCycleKeeps(k, State(), pid - 1);
    }

    /** Free a process other than the running one: its pages and its slot, nothing else. */
    method ProcFree(pid: int)
      requires UserMode() && IsPid(pid) && pid != currIdx + 1 && procs[pid - 1].pid == pid
      modifies this`procs, mmu`appPages, mmu.pages.bitmap
      ensures UserMode() && procs == old(procs)[pid - 1 := old(procs)[pid - 1].(status := Unused)]
      ensures mmu.Views() == old(mmu.Views())[pid := map[]]
      ensures Managed(old(State()), State(), pid - 1)
    {
      hide SoftTlb.Valid;
      ghost var k := State();
      mmu.Free(pid);
      procs := procs[pid - 1 := procs[pid - 1].(status := Unused)];
      LifeCycleKeeps(k, State(), pid - 1);
    }

    /** A user process in the table. */
    static predicate IsUser(p: Process) { p.pid >= GPID_USER_START && p.status != Unused }

    /** Of the tables procs and views, what the user processes below index n had is freed. */
    ghost predicate FreedBelow(n: nat, procs0: seq<Process>, views0: seq<View>)
      requires mmu.Valid()
      reads this, mmu, mmu.pages.bitmap
    {
      && |procs| == |procs0| == MAX_NPROCESS && |views0| == NPIDS
      && (forall i :: 0 <= i < MAX_NPROCESS ==>
            procs[i] == if i < n && IsUser(procs0[i]) then procs0[i].(status := Unused) else procs0[i])
      && (forall p :: 0 <= p < NPIDS ==>
            mmu.Views()[p] == if 0 < p <= n && IsUser(procs0[p - 1]) then map[] else views0[p])
    }

    /** Free the process at index i if it is a user process. */
    method FreeIfUser(i: nat, ghost procs0: seq<Process>, ghost views0: seq<View>)
      requires UserMode() && currIdx + 1 < GPID_USER_START && i < MAX_NPROCESS && FreedBelow(i, procs0, views0)
      modifies this`procs, mmu`appPages, mmu.pages.bitmap
      ensures UserMode() && FreedBelow(i + 1, procs0, views0)
    {
      hide SoftTlb.Valid;
      HasOwnRecord(State());
      hide Consistent;
      assert procs[i].pid == i + 1 || (procs[i].pid == 0 && procs[i].status == Unused);
      if procs[i].pid >= GPID_USER_START && procs[i].status != Unused {
        ProcFree(procs[i].pid);
      }
    }

    /** Free all user processes; a system process asks for this. */
    method ProcFreeUsers()
      requires UserMode() && currIdx + 1 < GPID_USER_START
      modifies this`procs, mmu`appPages, mmu.pages.bitmap
      ensures UserMode() && FreedBelow(MAX_NPROCESS, old(procs), old(mmu.Views()))
    {
      hide SoftTlb.Valid;
      HasOwnRecord(State());
      hide Consistent, ProcsOk;
      var i := 0;
      while i < MAX_NPROCESS
        invariant 0 <= i <= MAX_NPROCESS && UserMode() && FreedBelow(i, old(procs), old(mmu.Views()))
        modifies this`procs, mmu`appPages, mmu.pages.bitmap
      {
        FreeIfUser(i, old(procs), old(mmu.Views()));
        i := i + 1;
      }
    }

    /** User code stores to one of its own pages. */
    method UserStore(e: nat, page: Page)
      requires UserMode() && e in mmu.Views()[currIdx + 1]
      modifies mmu`mem
      ensures UserMode() && mmu.Views() == Stored(old(mmu.Views()), currIdx + 1, e, page)
    {
      UserStoreKeeps(State(), e, page);
      mmu.StoreExec(e, page);
    }

    /** User code stores to the stack. */
    method UserStack(page: Page)
      requires UserMode()
      modifies mmu`mem
      ensures UserMode() && mmu.Views() == old(mmu.Views()) && mmu.mem[STACK_PAGE] == page
    {
      mmu.StoreStack(page);
    }
  }

  /** Setting a receive filter does not change who wants to send. */
  lemma {:induction false} SameLastSender(procs: seq<Process>, procs': seq<Process>, curr: nat, n: nat)
    requires |procs| == |procs'| && n <= |procs|
    requires forall i, r :: 0 <= i < |procs| ==> (SendsTo(procs', i, r) <==> SendsTo(procs, i, r))
    ensures LastSender(procs', curr, n) == LastSender(procs, curr, n)
  {
    if n > 0 { SameLastSender(procs, procs', curr, n - 1); }
  }

  lemma SameSender(procs: seq<Process>, procs': seq<Process>, curr: nat, expected: int)
    requires |procs| == MAX_NPROCESS && curr < MAX_NPROCESS && 0 <= expected < MAX_NPROCESS
    requires procs' == procs[curr := procs[curr].(fromSender := expected)]
    ensures SenderFor(procs', curr, expected) == SenderFor(procs, curr, expected)
  {
    SameLastSender(procs, procs', curr, MAX_NPROCESS);
  }
}
