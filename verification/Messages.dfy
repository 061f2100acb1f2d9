/** What system calls do, in terms of what the processes' records hold when the interrupt arrives
    and afterwards; and what becomes of a message over a run. */
module Messages {
  import opened Kernel
  import opened KernelRuns
  import opened Mmu
  import opened Words

  /** The scheduler only moves the current process on: it touches neither memory nor logs, and
      stops nobody. */
  lemma YieldedFrame(k: KState)
    requires |k.procs| == MAX_NPROCESS && k.curr < MAX_NPROCESS && NextIdx(k.procs, k.curr, 1) != -1
    ensures var k' := Yielded(k);
            && k'.views == k.views && k'.sendLog == k.sendLog && k'.recvLog == k.recvLog
            && |k'.procs| == MAX_NPROCESS
            && forall i :: 0 <= i < MAX_NPROCESS ==>
                 && (CanRun(k'.procs[i].status) <==> CanRun(k.procs[i].status))
                 && (!CanRun(k.procs[i].status) ==> k'.procs[i] == k.procs[i])
  {}

  /** Record of a process and the message in it. */
  ghost predicate SameMessage(p: Page, q: Page) {
    p[1] == q[1] && p[2] == q[2] && Content(p) == Content(q)
  }

  lemma Entered(k: KState)
    requires Running1(k)
    ensures var k1, me := EnterSyscall(k), k.curr + 1;
            && |k.views| == NPIDS && |k.procs| == MAX_NPROCESS && me < MAX_NPROCESS
            && k1 == k.(views := k1.views) && |k1.views| == NPIDS && HasRecord(k1, me)
            && Record(k1, me)[0] == 0 && Record(k1, me)[RETVAL] == 0
            && SameMessage(Record(k1, me), Record(k, me))
            && (forall p :: p != me ==> Record(k1, p) == Record(k, p))
  {
    hide Consistent;
    HasOwnRecord(k);
    var me, rec := k.curr + 1, SetWord(SetWord(Record(k, k.curr + 1), RETVAL, 0), 0, 0);
    RecordSet(k, me, rec);
    assert Content(rec) == Content(Record(k, me));
  }

  // ----- sending -----

  /** The state after a send, up to the scheduler: the message is in the sender's record as it was,
      with the true sender; if the receiver was waiting it has the same message, and runs on. */
  ghost predicate SendIs(k: KState, m: KState) {
    var me, rec := k.curr + 1, Record(k, k.curr + 1);
    var r := rec[2] as int;
    && |k.procs| == |m.procs| == MAX_NPROCESS && 1 <= r < MAX_NPROCESS && k.curr < MAX_NPROCESS && m.curr == k.curr
    && Record(m, me)[1] == me && Record(m, me)[2] == r && Content(Record(m, me)) == Content(rec)
    && Record(m, me)[0] == 0 && Record(m, me)[RETVAL] == 0
    && (forall i :: 0 <= i < MAX_NPROCESS && i != k.curr && i != r - 1 ==> m.procs[i] == k.procs[i])
    && if ReceivesFrom(k.procs, r - 1, k.curr) then
         && Record(m, r)[1] == me && Record(m, r)[2] == r && Content(Record(m, r)) == Content(rec)
         && m.procs[r - 1].status == Runnable && m.procs[k.curr] == k.procs[k.curr]
         && m.sendLog == k.sendLog + [Message(me, r, Content(rec))]
         && m.recvLog == k.recvLog + [Message(me, r, Content(rec))]
       else
         && m.procs[k.curr] == k.procs[k.curr].(status := WaitToSend, toReceiver := r)
         && (r - 1 != k.curr ==> m.procs[r - 1] == k.procs[r - 1])
         && m.sendLog == k.sendLog && m.recvLog == k.recvLog
  }

  lemma SentIs(k: KState)
    requires Running1(k) && KnownPid(k.procs, Record(k, k.curr + 1)[2]) && Record(k, k.curr + 1)[2] < NPIDS
    requires |k.procs| == MAX_NPROCESS && k.curr < MAX_NPROCESS - 1 && |k.views| == NPIDS
    requires Record(k, k.curr + 1)[0] == 0 && Record(k, k.curr + 1)[RETVAL] == 0
    ensures SendIs(k, Sent(k))
  {
    hide Consistent, ProcsOk, PutMsg, SetWord;
    HasOwnRecord(k);
    var me, r, k1 := k.curr + 1, Record(k, k.curr + 1)[2], Announced(k);
    AnnouncedIs(k);
    if ReceivesFrom(k.procs, r - 1, k.curr) {
      RecordSet(k1, r, PutMsg(Record(k1, r), Msg(Record(k1, me))));
      CopiedMessage(Record(k1, r), Record(k1, me));
    }
  }

  lemma AnnouncedIs(k: KState)
    requires Running1(k) && |k.procs| == MAX_NPROCESS && k.curr < MAX_NPROCESS - 1 && |k.views| == NPIDS
    ensures var k1, me := Announced(k), k.curr + 1;
            && k1 == k.(views := k1.views) && |k1.views| == NPIDS
            && Record(k1, me)[1] == me && Record(k1, me)[2] == Record(k, me)[2]
            && Record(k1, me)[0] == Record(k, me)[0] && Record(k1, me)[RETVAL] == Record(k, me)[RETVAL]
            && Content(Record(k1, me)) == Content(Record(k, me))
  {
    hide Consistent;
    HasOwnRecord(k);
    var me, rec := k.curr + 1, SetWord(Record(k, k.curr + 1), 1, k.curr + 1);
    RecordSet(k, me, rec);
    assert Content(rec) == Content(Record(k, me));
  }

  // ----- receiving -----

  /** The state after a receive, up to the scheduler: of a waiting sender the receiver now has the
      message, and the sender runs on; without one the receiver waits. */
  ghost predicate ReceiveIs(k: KState, m: KState) {
    var me, expected := k.curr + 1, Record(k, k.curr + 1)[1] as int;
    && |k.procs| == |m.procs| == MAX_NPROCESS && k.curr < MAX_NPROCESS && expected < MAX_NPROCESS && m.curr == k.curr
    && Record(m, me)[0] == 0 && Record(m, me)[RETVAL] == 0
    && var s := SenderFor(k.procs, k.curr, expected);
       if s != -1 then
         && SendsTo(k.procs, s, k.curr) && (expected == 0 || s == expected - 1) && s != k.curr
         && SameMessage(Record(m, me), Record(k, s + 1)) && Record(m, me)[1] == s + 1 && Record(m, me)[2] == me
         && m.procs[s].status == Runnable && m.procs[k.curr].status == Running
         && (forall i :: 0 <= i < MAX_NPROCESS && i != k.curr && i != s ==> m.procs[i] == k.procs[i])
         && m.sendLog == k.sendLog + [Message(s + 1, me, Content(Record(k, s + 1)))]
         && m.recvLog == k.recvLog + [Message(s + 1, me, Content(Record(k, s + 1)))]
       else
         && m.procs[k.curr] == k.procs[k.curr].(status := WaitToRecv, fromSender := expected)
         && (forall i :: 0 <= i < MAX_NPROCESS && i != k.curr ==> m.procs[i] == k.procs[i])
         && m.sendLog == k.sendLog && m.recvLog == k.recvLog
  }

  lemma ReceivedIs(k: KState)
    requires Running1(k) && |k.procs| == MAX_NPROCESS && k.curr < MAX_NPROCESS - 1 && |k.views| == NPIDS
    requires Record(k, k.curr + 1)[1] < MAX_NPROCESS
    requires Record(k, k.curr + 1)[0] == 0 && Record(k, k.curr + 1)[RETVAL] == 0
    ensures ReceiveIs(k, Received(k))
  {
    hide Consistent, ProcsOk, PutMsg, Received;
    HasOwnRecord(k);
    var me, expected := k.curr + 1, Record(k, k.curr + 1)[1];
    var s := SenderFor(k.procs, k.curr, expected);
    if s == -1 {
      NoneTaken(k);
    } else {
      SenderPends(k, s);
      TakenIs(k, s);
      RecordSet(k, me, PutMsg(Record(k, me), Msg(Record(k, s + 1))));
      CopiedMessage(Record(k, me), Record(k, s + 1));
    }
  }

  // ----- whole system calls -----

  /** From k1, which is k but for the two words cleared in the caller's record, to m. */
  lemma SendFromEntry(k: KState, k1: KState, m: KState)
    requires Running1(k) && k1 == EnterSyscall(k) && SendIs(k1, m)
    ensures SendIs(k, m)
  {
    hide Consistent, EnterSyscall;
    Entered(k);
  }

  lemma ReceiveFromEntry(k: KState, k1: KState, m: KState)
    requires Running1(k) && k1 == EnterSyscall(k) && ReceiveIs(k1, m)
    ensures ReceiveIs(k, m)
  {
    hide Consistent, EnterSyscall, LastSender;
    Entered(k);
  }

  /** A system call, as seen in the caller's record when its interrupt arrives: m is the state in
      which the scheduler takes over. */
  lemma CallIs(k: KState, k': KState) returns (m: KState)
    requires SyscallDone(k, k')
    ensures |k.procs| == |m.procs| == MAX_NPROCESS && m.curr == k.curr < MAX_NPROCESS
    ensures NextIdx(m.procs, m.curr, 1) != -1 && k' == Yielded(m)
    ensures var rec := Record(k, k.curr + 1);
            && rec[0] in {SYS_RECV, SYS_SEND, SYS_YIELD}
            && (rec[0] == SYS_SEND ==> SendIs(k, m))
            && (rec[0] == SYS_RECV ==> ReceiveIs(k, m))
            && (rec[0] == SYS_YIELD ==> m.procs == k.procs && m.sendLog == k.sendLog && m.recvLog == k.recvLog
                                        && Record(m, k.curr + 1)[0] == 0 && Record(m, k.curr + 1)[RETVAL] == 0
                                        && SameMessage(Record(m, k.curr + 1), rec))
  {
    hide Consistent, ProcsOk, Sent, Received, Yielded, EnterSyscall, SendIs, ReceiveIs, Content, ContextSaved;
    HasOwnRecord(k);
    Entered(k);
    EntryRuns(k);
    var k1, rec := EnterSyscall(k), Record(k, k.curr + 1);
    if rec[0] == SYS_RECV {
      ReceivedIs(k1);
      m := Received(k1);
      ReceiveFromEntry(k, k1, m);
    } else if rec[0] == SYS_SEND {
      SentIs(k1);
      m := Sent(k1);
      SendFromEntry(k, k1, m);
    } else {
      m := k1;
    }
    assert m.curr == k.curr;
    TableKept(m, k);
  }

  lemma TableKept(m: KState, k: KState)
    requires SendIs(k, m) || ReceiveIs(k, m) || (m.procs == k.procs && |k.procs| == MAX_NPROCESS)
    ensures |m.procs| == MAX_NPROCESS
  {}

  lemma EntryRuns(k: KState)
    requires Running1(k)
    ensures Running1(EnterSyscall(k))
  {
    HasOwnRecord(k);
    SetRecordKeeps(k, k.curr + 1, SetWord(SetWord(Record(k, k.curr + 1), RETVAL, 0), 0, 0));
  }

  /** Every system call returns with type and return value cleared. */
  lemma CallReturns(k: KState, k': KState)
    requires SyscallDone(k, k')
    ensures Record(k', k.curr + 1)[0] == 0 && Record(k', k.curr + 1)[RETVAL] == 0
  {
    hide SyscallDone, Yielded, Record;
    var m := CallIs(k, k');
    YieldedFrame(m);
    RecordsOf(m, k');
  }

  lemma RecordsOf(m: KState, k': KState)
    requires k'.views == m.views
    ensures forall p :: Record(k', p) == Record(m, p)
  {}

  /** A send leaves the message in the sender's record as it was when the interrupt arrived; and
      that is what a waiting receiver gets, and what both logs record. */
  lemma SendKeepsMessage(k: KState, k': KState)
    requires SyscallDone(k, k') && Record(k, k.curr + 1)[0] == SYS_SEND
    ensures var me, rec, r := k.curr + 1, Record(k, k.curr + 1), Record(k, k.curr + 1)[2] as int;
            && |k.procs| == |k'.procs| == MAX_NPROCESS && 1 <= r < MAX_NPROCESS && k.curr < MAX_NPROCESS
            && Record(k', me)[1] == me && Record(k', me)[2] == r && Content(Record(k', me)) == Content(rec)
            && if k.procs[r - 1].status == WaitToRecv && k.procs[r - 1].fromSender in {0, me} then
                 && Record(k', r)[1] == me && Record(k', r)[2] == r && Content(Record(k', r)) == Content(rec)
                 && CanRun(k'.procs[r - 1].status) && CanRun(k'.procs[k.curr].status)
                 && k'.sendLog == k.sendLog + [Message(me, r, Content(rec))]
                 && k'.recvLog == k.recvLog + [Message(me, r, Content(rec))]
               else
                 && k'.procs[k.curr].status == WaitToSend && k'.procs[k.curr].toReceiver == r
                 && k'.sendLog == k.sendLog && k'.recvLog == k.recvLog
  {
    hide SyscallDone, Yielded, Record, Content, Consistent;
    StillRuns(k, k');
    var m := CallIs(k, k');
    YieldedFrame(m);
    RecordsOf(m, k');
  }

  lemma StillRuns(k: KState, k': KState)
    requires SyscallDone(k, k')
    ensures k.curr < |k.procs| && k.procs[k.curr].status == Running
  {
    HasOwnRecord(k);
  }

  lemma NoSender(procs: seq<Process>, curr: nat, expected: int)
    requires |procs| == MAX_NPROCESS && 0 <= expected < MAX_NPROCESS
    ensures SenderFor(procs, curr, expected) == -1 ==>
              forall i :: 0 <= i < MAX_NPROCESS && (expected == 0 || i == expected - 1) ==>
                !(procs[i].status == WaitToSend && procs[i].toReceiver == curr + 1)
  {
    hide LastSender;
    forall i | 0 <= i < MAX_NPROCESS && (expected == 0 || i == expected - 1)
      ensures SenderFor(procs, curr, expected) == -1 ==> !(procs[i].status == WaitToSend && procs[i].toReceiver == curr + 1)
    {
      assert SenderFor(procs, curr, expected) == -1 ==> !SendsTo(procs, i, curr);
    }
  }

  /** A receive that finds a sender waiting gives the receiver the message in that sender's record,
      from the expected sender if one is named; otherwise the receiver waits for it. */
  lemma ReceiveTakesMessage(k: KState, k': KState)
    requires SyscallDone(k, k') && Record(k, k.curr + 1)[0] == SYS_RECV
    ensures var me, expected := k.curr + 1, Record(k, k.curr + 1)[1] as int;
            && |k.procs| == |k'.procs| == MAX_NPROCESS && expected < MAX_NPROCESS && k.curr < MAX_NPROCESS
            && var s := SenderFor(k.procs, k.curr, expected);
               if s != -1 then
                 && k.procs[s].status == WaitToSend && k.procs[s].toReceiver == me && (expected == 0 || s == expected - 1)
                 && Record(k', me)[1] == s + 1 && Record(k', me)[2] == me
                 && Content(Record(k', me)) == Content(Record(k, s + 1))
                 && CanRun(k'.procs[s].status) && CanRun(k'.procs[k.curr].status)
                 && k'.sendLog == k.sendLog + [Message(s + 1, me, Content(Record(k, s + 1)))]
                 && k'.recvLog == k.recvLog + [Message(s + 1, me, Content(Record(k, s + 1)))]
               else
                 && (forall i :: 0 <= i < MAX_NPROCESS && (expected == 0 || i == expected - 1) ==>
                       !(k.procs[i].status == WaitToSend && k.procs[i].toReceiver == me))
                 && k'.procs[k.curr].status == WaitToRecv && k'.procs[k.curr].fromSender == expected
                 && k'.sendLog == k.sendLog && k'.recvLog == k.recvLog
  {
    hide SyscallDone, Yielded, Record, Content, Consistent, SenderFor, LastSender;
    var m := CallIs(k, k');
    NoSender(k.procs, k.curr, Record(k, k.curr + 1)[1]);
    YieldedFrame(m);
    RecordsOf(m, k');
  }

  /** Nobody waits in vain: no process waits to send to one that waits for it or for anyone. */
  lemma NoneMissed(k: KState, s: nat, r: nat)
    requires Running1(k) && s < |k.procs| && r < |k.procs|
    requires k.procs[s].status == WaitToSend && k.procs[s].toReceiver == r + 1
    ensures !(k.procs[r].status == WaitToRecv && k.procs[r].fromSender in {0, s + 1})
  {
    HasOwnRecord(k);
    assert NoMissedRendezvous(k.procs);
    assert SendsTo(k.procs, s, r);
    assert !ReceivesFrom(k.procs, r, s);
  }

  // ----- who stops -----

  /** A process that can run goes on being able to, unless it makes a system call that has to wait,
      or is freed. */
  lemma StopsOnlyToWait(k: KState, a: Action, k': KState, j: nat)
    requires Running1(k) && Does(k, a, k') && j < MAX_NPROCESS && a != LifeCycle(j)
    ensures |k.procs| == |k'.procs| == MAX_NPROCESS
    ensures k.procs[j].status in {Ready, Running, Runnable} && k'.procs[j].status !in {Ready, Running, Runnable} ==>
              a.Interrupt? && a.id == INTR_ID_SOFT && j == k.curr && k'.procs[j].status in {WaitToSend, WaitToRecv}
  {
    hide Consistent, ProcsOk, SyscallDone, ContextSaved, Yielded, Stored;
    HasOwnRecord(k);
    if a.Interrupt? && a.id == INTR_ID_SOFT && !(k.curr + 1 >= GPID_USER_START && a.ctrlC) {
      var m := CallIs(k, k');
      YieldedFrame(m);
      hide Record, Content, SameMessage;
    } else if a.Interrupt? && a.id == INTR_ID_TIMER && !(k.curr + 1 >= GPID_USER_START && a.ctrlC)
              && k.curr + 1 >= GPID_SHELL {
      YieldedFrame(k);
    }
  }

  // ----- a message over a run -----

  /** As long as a sender waits, its record stays as it is. */
  lemma {:induction false} WaitingKeepsRecord(ks: seq<KState>, acts: seq<Action>, a: nat)
    requires Run(ks, acts) && Running1(ks[0]) && a < MAX_NPROCESS - 1
    requires forall i :: 0 <= i < |ks| ==> a < |ks[i].procs| && ks[i].procs[a].status == WaitToSend
    ensures Record(ks[|acts|], a + 1) == Record(ks[0], a + 1)
    decreases |acts|
  {
    if acts != [] {
      RunTail(ks, acts);
      assert ks[0].procs[a].status == WaitToSend && ks[1].procs[a].status == WaitToSend;
      StepKeeps(ks[0], acts[0], ks[1]);
      WaitingSpared(ks[0], acts[0], ks[1], a);
      hide Run, Running1, Does, Record;
      WaitingKeepsRecord(ks[1..], acts[1..], a);
    }
  }

  lemma WaitingSpared(k: KState, act: Action, k': KState, a: nat)
    requires Running1(k) && Does(k, act, k') && a < MAX_NPROCESS - 1
    requires a < |k.procs| && k.procs[a].status == WaitToSend && a < |k'.procs| && k'.procs[a].status == WaitToSend
    ensures Record(k', a + 1) == Record(k, a + 1)
  {
    hide Consistent, InterruptDone, SavedSame, PrivateSame;
    assert act != LifeCycle(a);
    StepSpares(k, act, k', a);
  }

  /** What a receive delivers is what was in the sender's record when its own system call arrived,
      however long it has waited meanwhile and whatever else has happened; and both logs say so. */
  lemma MessageArrives(ks: seq<KState>, acts: seq<Action>, a: nat)
    requires Run(ks, acts) && Running1(ks[0]) && |acts| >= 2 && a < MAX_NPROCESS - 1
    requires ks[0].curr == a && SyscallDone(ks[0], ks[1]) && Record(ks[0], a + 1)[0] == SYS_SEND
    requires forall i :: 1 <= i < |acts| ==> a < |ks[i].procs| && ks[i].procs[a].status == WaitToSend
    requires var k := ks[|acts| - 1];
             && SyscallDone(k, ks[|acts|]) && Record(k, k.curr + 1)[0] == SYS_RECV
             && |k.procs| == MAX_NPROCESS && Record(k, k.curr + 1)[1] < MAX_NPROCESS
             && SenderFor(k.procs, k.curr, Record(k, k.curr + 1)[1]) == a
    ensures var k, k', rec := ks[|acts| - 1], ks[|acts|], Record(ks[0], a + 1);
            var r := k.curr + 1;
            && r == rec[2] && Record(k', r)[1] == a + 1 && Record(k', r)[2] == r
            && Content(Record(k', r)) == Content(rec)
            && k'.recvLog == k.recvLog + [Message(a + 1, r, Content(rec))] && k'.sendLog == k'.recvLog
  {
    hide SyscallDone, Record, Content, Running1, Does, SenderFor, Run;
    var n := |acts| - 1;
    RunEnds(ks, acts);
    SendKeepsMessage(ks[0], ks[1]);
    ReceiveTakesMessage(ks[n], ks[n + 1]);
    MiddleRun(ks, acts);
    WaitingKeepsRecord(ks[1..n + 1], acts[1..n], a);
    assert ks[1..n + 1][|acts[1..n]|] == ks[n];
    StillNamed(ks[n], a);
  }

  lemma MiddleRun(ks: seq<KState>, acts: seq<Action>)
    requires Run(ks, acts) && |acts| >= 2
    ensures var n := |acts| - 1; Run(ks[1..n + 1], acts[1..n])
  {
    hide Does;
    var n := |acts| - 1;
    forall i | 0 <= i < |acts[1..n]|
      ensures Does(ks[1..n + 1][i], acts[1..n][i], ks[1..n + 1][i + 1])
    {
      assert Does(ks[i + 1], acts[i + 1], ks[i + 2]);
    }
  }

  lemma RunEnds(ks: seq<KState>, acts: seq<Action>)
    requires Run(ks, acts) && Running1(ks[0])
    ensures |ks| == |acts| + 1 && Running1(ks[|acts|]) && (forall i :: 0 <= i < |ks| ==> Running1(ks[i]))
    ensures ks[|acts|].sendLog == ks[|acts|].recvLog
  {
    RunSafe(ks, acts);
    hide Does;
    HasOwnRecord(ks[|acts|]);
  }

  /** A waiting sender's record names the receiver it waits for. */
  lemma StillNamed(k: KState, a: nat)
    requires Running1(k) && a < |k.procs| && k.procs[a].status == WaitToSend
    ensures Record(k, a + 1)[2] == k.procs[a].toReceiver
  {
    SenderPends(k, a);
  }
}
