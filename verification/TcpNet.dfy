/** All connections together: forty records in one table, sharing one packet buffer. */
module TcpNet {
  import opened SeqNumbers
  import opened Httpd
  import opened Tcp
  import opened TcpSafety
  import opened TcpRuns
  import opened TcpPhases
  import opened ConnTable
  import opened Words

  /** A record of the table: the connection, its history and its identity. */
  datatype Cell = Cell(c: Conn, h: Hist, lport: U16, rport: U16, ripaddr: IpAddr)

  datatype Net = Net(cells: seq<Cell>, buf: seq<U8>)

  /** A packet from the network, in rto and iss what estimator and clock make of it, and whether
      the port is listened to; an active open; the timer of one connection; and whatever ARP and
      others do to the buffer. */
  datatype NetEvent =
    | Packet(destport: U16, srcport: U16, srcipaddr: IpAddr, g: Input, rto: U8, iss: U32, listening: bool)
    | Open(ripaddr: IpAddr, rport: U16, lport: U16, iss: U32)
    | Periodic(i: nat)
    | Overwrite(buf: seq<U8>)

  /** The connection in slot i as one state machine sees it. */
  function At(n: Net, i: nat): State
    requires i < |n.cells|
  {
    State(n.cells[i].c, n.cells[i].h, n.buf)
  }

  /** What the table of connections records. */
  function SlotOf(cell: Cell): Slot {
    Slot(cell.c.phase, cell.c.timer, cell.lport, cell.rport, cell.ripaddr)
  }

  function Slots(n: Net): (t: seq<Slot>)
    ensures |t| == |n.cells| && forall i :: 0 <= i < |t| ==> t[i] == SlotOf(n.cells[i])
  {
    seq(|n.cells|, i requires 0 <= i < |n.cells| => SlotOf(n.cells[i]))
  }

  ghost predicate NetSized(n: Net, resp: Response) {
    && |n.cells| == UIP_CONNS && |n.buf| == UIP_TCP_MSS
    && forall i :: 0 <= i < |n.cells| ==> Sized(At(n, i), resp)
  }

  // ----- who an event is for -----

  /** The connection that a packet belongs to, or -1. */
  ghost function Owner(t: seq<Slot>, destport: U16, srcport: U16, srcipaddr: IpAddr): (r: int)
    ensures r == -1 ==> forall i :: 0 <= i < |t| ==> !Matches(t[i], destport, srcport, srcipaddr)
    ensures r != -1 ==> 0 <= r < |t| && Matches(t[r], destport, srcport, srcipaddr)
  {
    if exists i :: 0 <= i < |t| && Matches(t[i], destport, srcport, srcipaddr) then
      var i :| 0 <= i < |t| && Matches(t[i], destport, srcport, srcipaddr);
      i
    else -1
  }

  /** The slot that a new connection takes, or -1. */
  ghost function FreeSlot(t: seq<Slot>): (r: int)
    ensures r == -1 || (0 <= r < |t| && IsFree(t, r))
    ensures forall q :: -1 <= q < |t| && IsFree(t, q) ==> q == r
  {
    if r: int :| -1 <= r < |t| && IsFree(t, r) then
      assert forall q :: -1 <= q < |t| && IsFree(t, q) ==> q == r by {
        forall q | -1 <= q < |t| && IsFree(t, q)
          ensures q == r
        {
          FreeIsUnique(t, q, r);
        }
      }
      r
    else -1
  }

  predicate SynOnly(g: Segment) { g.syn && !g.ack && !g.fin && !g.rst && !g.psh }

  /** The connection that processes an event. */
  ghost function Target(n: Net, e: NetEvent): (r: int)
    ensures r == -1 || 0 <= r < |n.cells|
  {
    match e
    case Packet(dest, src, ip, _, _, _, _) => Owner(Slots(n), dest, src, ip)
    case Periodic(i) => if i < |n.cells| then i else -1
    case _ => -1
  }

  /** The slot in which an event opens a new connection. */
  ghost function Opened(n: Net, e: NetEvent): (r: int)
    ensures r == -1 || (0 <= r < |n.cells| && (e.Packet? || e.Open?))
  {
    match e
    case Packet(_, _, _, g, _, _, listening) =>
      if Target(n, e) == -1 && SynOnly(g) && listening then FreeSlot(Slots(n)) else -1
    case Open(_, _, lport, _) => if lport in Ports(Slots(n)) then -1 else FreeSlot(Slots(n))
    case _ => -1
  }

  /** The table with record i replaced, and the buffer. */
  function Update(n: Net, i: nat, cell: Cell, buf: seq<U8>): Net
    requires i < |n.cells|
  {
    Net(n.cells[i := cell], buf)
  }

  lemma UpdateSized(n: Net, i: nat, cell: Cell, buf: seq<U8>, resp: Response)
    requires NetSized(n, resp) && i < |n.cells| && Sized(State(cell.c, cell.h, buf), resp)
    ensures NetSized(Update(n, i, cell, buf), resp)
  {
    var n' := Update(n, i, cell, buf);
    forall j | 0 <= j < |n'.cells|
      ensures Sized(At(n', j), resp)
    {
      if j != i {
        assert Sized(At(n, j), resp);
        OtherBuffer(n.cells[j].c, n.cells[j].h, n.buf, buf, resp);
      }
    }
  }

  lemma BufferSized(n: Net, buf: seq<U8>, resp: Response)
    requires NetSized(n, resp) && |buf| == UIP_TCP_MSS
    ensures NetSized(n.(buf := buf), resp)
  {
    forall j | 0 <= j < |n.cells|
      ensures Sized(At(n.(buf := buf), j), resp)
    {
      assert Sized(At(n, j), resp);
      OtherBuffer(n.cells[j].c, n.cells[j].h, n.buf, buf, resp);
    }
  }

  /** The new record when connection i processes an event, or when one is opened in slot i; with
      the buffer, and what is sent. */
  function Processed(n: Net, e: NetEvent, i: nat, resp: Response): (r: (Cell, seq<U8>, Out))
    requires NetSized(n, resp) && i < |n.cells|
    ensures Sized(State(r.0.c, r.0.h, r.1), resp)
  {
    var s := Step(At(n, i), if e.Packet? then Incoming(e.g, e.rto) else Timer, resp);
    (n.cells[i].(c := s.0.c, h := s.0.h), s.0.buf, s.1)
  }

  function Started(n: Net, e: NetEvent, i: nat, resp: Response): (r: (Cell, seq<U8>, Out))
    requires NetSized(n, resp) && i < |n.cells| && (e.Packet? || e.Open?)
    ensures Sized(State(r.0.c, r.0.h, r.1), resp)
  {
    if e.Packet? then
      var s := Listen(At(n, i), e.g, e.iss);
      ListenStarts(At(n, i), e.g, e.iss, resp);
      (Cell(s.0.c, s.0.h, e.destport, e.srcport, e.srcipaddr), s.0.buf, s.1)
    else
      var s := Connect(At(n, i), e.iss);
      ConnectStarts(At(n, i), e.iss, resp);
      (Cell(s.c, s.h, e.lport, e.rport, e.ripaddr), s.buf, Quiet)
  }

  /** The buffer after an event that no connection takes. */
  function Passed(n: Net, e: NetEvent): (buf: seq<U8>)
    requires |n.buf| == UIP_TCP_MSS
    ensures |buf| == UIP_TCP_MSS
  {
    if e.Packet? then Overlay(n.buf, e.g.data)
    else if e.Overwrite? && |e.buf| == UIP_TCP_MSS then e.buf
    else n.buf
  }

  /** The packet belongs to no connection and opens none, and is not a reset itself. */
  ghost predicate Refused(n: Net, e: NetEvent) {
    e.Packet? && Target(n, e) == -1 && !(SynOnly(e.g) && e.listening) && !e.g.rst
  }

  /** One event. */
  ghost function NetStep(n: Net, e: NetEvent, resp: Response): (r: (Net, Out))
    requires NetSized(n, resp)
    ensures NetSized(r.0, resp)
  {
    var i, o := Target(n, e), Opened(n, e);
    if i != -1 then
      var p := Processed(n, e, i, resp);
      UpdateSized(n, i, p.0, p.1, resp);
      (Update(n, i, p.0, p.1), p.2)
    else if o != -1 then
      var p := Started(n, e, o, resp);
      UpdateSized(n, o, p.0, p.1, resp);
      (Update(n, o, p.0, p.1), p.2)
    else
      BufferSized(n, Passed(n, e), resp);
      (n.(buf := Passed(n, e)), if Refused(n, e) then Refusal(e.g) else Quiet)
  }

  // ----- what every run keeps -----

  /** Identities are distinct, and every connection counts what it has exchanged. */
  ghost predicate NetInv(n: Net, resp: Response) {
    && NetSized(n, resp) && Distinct(Slots(n))
    && forall i :: 0 <= i < |n.cells| ==> SeqInv(At(n, i), resp)
  }

  /** The buffer does not matter for the counting. */
  lemma OtherBuffer(c: Conn, h: Hist, buf: seq<U8>, buf': seq<U8>, resp: Response)
    requires |buf| == |buf'|
    ensures Sized(State(c, h, buf), resp) <==> Sized(State(c, h, buf'), resp)
    ensures SeqInv(State(c, h, buf), resp) <==> SeqInv(State(c, h, buf'), resp)
  {}

  /** An event may open a connection or be processed by one, not both. */
  lemma NotBoth(n: Net, e: NetEvent)
    ensures Target(n, e) == -1 || Opened(n, e) == -1
  {}

  /** How an event changes the table: the slot of the connection that processes it keeps its
      identity and gets the phase and timer that the state machine says; a new connection takes
      a free slot, under an identity that no other connection has; nothing else changes. */
  lemma TableStep(n: Net, e: NetEvent, resp: Response)
    requires NetSized(n, resp)
    ensures var t, t' := Slots(n), Slots(NetStep(n, e, resp).0);
            var i, o := Target(n, e), Opened(n, e);
            && (i != -1 ==>
                  var c := Processed(n, e, i, resp).0.c;
                  t' == t[i := t[i].(phase := c.phase, timer := c.timer)])
            && (i == -1 && o != -1 ==>
                  var s := SlotOf(Started(n, e, o, resp).0);
                  && IsFree(t, o) && t' == t[o := s]
                  && forall j :: 0 <= j < |t| ==> !Matches(t[j], s.lport, s.rport, s.ripaddr))
            && (i == -1 && o == -1 ==> t' == t)
  {
    hide NetSized, Sized, Step, IsFree;
    if Opened(n, e) != -1 && e.Open? {
      assert e.lport !in Ports(Slots(n));
    }
  }

  /** A closed connection stays closed until its slot is taken again. */
  lemma ClosedStays(s: State, e: Event, resp: Response)
    requires Sized(s, resp) && s.c.phase.Closed?
    ensures Step(s, e, resp).0.c.phase.Closed?
  {}

  lemma DistinctKept(n: Net, e: NetEvent, resp: Response)
    requires NetInv(n, resp)
    ensures Distinct(Slots(NetStep(n, e, resp).0))
  {
    hide SeqInv, Sized, NetStep, Processed, Started, Target, Opened, IsFree;
    TableStep(n, e, resp);
    var t, i, o := Slots(n), Target(n, e), Opened(n, e);
    if i != -1 {
      ProcessedPhase(n, e, i, resp);
      SameIdentity(t, i, Processed(n, e, i, resp).0.c.phase, Processed(n, e, i, resp).0.c.timer);
    } else if o != -1 {
      DistinctUpdate(t, o, SlotOf(Started(n, e, o, resp).0));
    }
  }

  lemma ProcessedPhase(n: Net, e: NetEvent, i: nat, resp: Response)
    requires NetSized(n, resp) && i < |n.cells|
    ensures n.cells[i].c.phase.Closed? ==> Processed(n, e, i, resp).0.c.phase.Closed?
  {
    hide Step, Sized;
    assert Sized(At(n, i), resp);
    if n.cells[i].c.phase.Closed? {
      ClosedStays(At(n, i), if e.Packet? then Incoming(e.g, e.rto) else Timer, resp);
    }
  }

  lemma SameIdentity(t: seq<Slot>, i: nat, phase: Phase, timer: U8)
    requires Distinct(t) && i < |t| && (!InUse(t[i]) ==> phase.Closed?)
    ensures Distinct(t[i := t[i].(phase := phase, timer := timer)])
  {
    if InUse(t[i]) {
      forall j | 0 <= j < |t| && j != i
        ensures !Matches(t[j], t[i].lport, t[i].rport, t[i].ripaddr)
      {
        assert !(InUse(t[j]) && Matches(t[i], t[j].lport, t[j].rport, t[j].ripaddr));
      }
    }
    DistinctUpdate(t, i, t[i].(phase := phase, timer := timer));
  }

  /** Every event keeps the identities distinct and the counting of every connection. */
  lemma NetKeeps(n: Net, e: NetEvent, resp: Response)
    requires NetInv(n, resp)
    ensures NetInv(NetStep(n, e, resp).0, resp)
  {
    DistinctKept(n, e, resp);
    hide SeqInv, Sized, Step, Target, Opened, Distinct, NetSized;
    var n' := NetStep(n, e, resp).0;
    assert |n'.cells| == |n.cells| && |n'.buf| == |n.buf| by { SameSize(n, e, resp); }
    forall j | 0 <= j < |n'.cells|
      ensures SeqInv(At(n', j), resp)
    {
      assert SeqInv(At(n, j), resp);
      OtherBuffer(n.cells[j].c, n.cells[j].h, n.buf, n'.buf, resp);
      if j == Target(n, e) {
        SeqStep(At(n, j), if e.Packet? then Incoming(e.g, e.rto) else Timer, resp);
      } else if Target(n, e) == -1 && j == Opened(n, e) {
        StartedCounts(n, e, j, resp);
      }
    }
  }

  lemma SameSize(n: Net, e: NetEvent, resp: Response)
    requires NetSized(n, resp)
    ensures |NetStep(n, e, resp).0.cells| == |n.cells| && |NetStep(n, e, resp).0.buf| == |n.buf|
  {
    hide Sized, Target, Opened, Processed, Started;
    assert NetSized(NetStep(n, e, resp).0, resp);
  }

  lemma StartedCounts(n: Net, e: NetEvent, i: nat, resp: Response)
    requires NetSized(n, resp) && i < |n.cells| && (e.Packet? || e.Open?)
    ensures var p := Started(n, e, i, resp);
            SeqInv(State(p.0.c, p.0.h, p.1), resp)
  {
    assert Sized(At(n, i), resp);
    hide SeqInv, Sized, Inv, Steady;
    if e.Packet? {
      ListenStarts(At(n, i), e.g, e.iss, resp);
      InvCounts(Listen(At(n, i), e.g, e.iss).0, resp);
    } else {
      ConnectStarts(At(n, i), e.iss, resp);
      InvCounts(Connect(At(n, i), e.iss), resp);
    }
  }

  lemma InvCounts(s: State, resp: Response)
    requires Inv(s, resp)
    ensures SeqInv(s, resp)
  {}

  ghost function NetFinal(n: Net, es: seq<NetEvent>, resp: Response): (r: Net)
    requires NetSized(n, resp)
    ensures NetSized(r, resp)
    decreases |es|
  {
    if es == [] then n else NetFinal(NetStep(n, es[0], resp).0, es[1..], resp)
  }

  /** Over every run of all connections together, whatever arrives for whom, identities are
      distinct and every connection's numbers count what it has exchanged. */
  lemma {:induction false} NetSafe(n: Net, es: seq<NetEvent>, resp: Response)
    requires NetInv(n, resp)
    ensures NetInv(NetFinal(n, es, resp), resp)
    decreases |es|
  {
    if es != [] {
      NetKeeps(n, es[0], resp);
      hide NetStep, NetInv;
      NetSafe(NetStep(n, es[0], resp).0, es[1..], resp);
    }
  }

  // ----- one connection's part of a run -----

  /** What connection i sees of an event. */
  ghost function Seen(n: Net, e: NetEvent, i: nat, resp: Response): Event
    requires NetSized(n, resp)
  {
    if Target(n, e) != i then Shared(NetStep(n, e, resp).0.buf)
    else if e.Packet? then Incoming(e.g, e.rto)
    else Timer
  }

  /** What is sent for connection i. */
  ghost function SentFor(n: Net, e: NetEvent, i: nat, resp: Response): Out
    requires NetSized(n, resp)
  {
    if Target(n, e) == i then NetStep(n, e, resp).1 else Quiet
  }

  ghost function SeenAll(n: Net, es: seq<NetEvent>, i: nat, resp: Response): (r: seq<Event>)
    requires NetSized(n, resp)
    ensures |r| == |es|
    decreases |es|
  {
    if es == [] then [] else [Seen(n, es[0], i, resp)] + SeenAll(NetStep(n, es[0], resp).0, es[1..], i, resp)
  }

  ghost function SentForAll(n: Net, es: seq<NetEvent>, i: nat, resp: Response): seq<Out>
    requires NetSized(n, resp)
    decreases |es|
  {
    if es == [] then [] else [SentFor(n, es[0], i, resp)] + SentForAll(NetStep(n, es[0], resp).0, es[1..], i, resp)
  }

  /** Slot i is not taken by a new connection. */
  ghost predicate Lasts(n: Net, es: seq<NetEvent>, i: nat, resp: Response)
    requires NetSized(n, resp)
    decreases |es|
  {
    es == [] || (Opened(n, es[0]) != i && Lasts(NetStep(n, es[0], resp).0, es[1..], i, resp))
  }

  /** An event does to a connection what the state machine does with what it sees of it. */
  lemma StepSeen(n: Net, e: NetEvent, i: nat, resp: Response)
    requires NetSized(n, resp) && i < |n.cells| && Opened(n, e) != i
    ensures var n' := NetStep(n, e, resp).0;
            && i < |n'.cells| && (At(n', i), SentFor(n, e, i, resp)) == Step(At(n, i), Seen(n, e, i, resp), resp)
            && n'.cells[i] == n.cells[i].(c := At(n', i).c, h := At(n', i).h)
  {
    SameSize(n, e, resp);
    assert Sized(At(n, i), resp);
    hide Sized, Target, Opened, Tick, Arrive;
  }

  /** Each connection, as long as its slot is not taken by a new one, goes through a run of the
      state machine: all that is proved of such runs holds for it, whatever the other
      connections do meanwhile. */
  lemma {:induction false} Projection(n: Net, es: seq<NetEvent>, i: nat, resp: Response)
    requires NetSized(n, resp) && i < |n.cells| && Lasts(n, es, i, resp)
    ensures Sized(At(n, i), resp) && i < |NetFinal(n, es, resp).cells|
    ensures At(NetFinal(n, es, resp), i) == Final(At(n, i), SeenAll(n, es, i, resp), resp)
    ensures SentForAll(n, es, i, resp) == Outs(At(n, i), SeenAll(n, es, i, resp), resp)
    ensures SlotOf(NetFinal(n, es, resp).cells[i])
            == SlotOf(n.cells[i]).(phase := Final(At(n, i), SeenAll(n, es, i, resp), resp).c.phase,
                                   timer := Final(At(n, i), SeenAll(n, es, i, resp), resp).c.timer)
    decreases |es|
  {
    assert Sized(At(n, i), resp);
    if es != [] {
      StepSeen(n, es[0], i, resp);
      var n' := NetStep(n, es[0], resp).0;
      hide NetStep, Step, Seen, SentFor, Sized, NetSized;
      Projection(n', es[1..], i, resp);
      SeenFirst(n, es, i, resp);
    }
  }

  lemma SeenFirst(n: Net, es: seq<NetEvent>, i: nat, resp: Response)
    requires NetSized(n, resp) && es != []
    ensures var v := SeenAll(n, es, i, resp);
            v[0] == Seen(n, es[0], i, resp) && v[1..] == SeenAll(NetStep(n, es[0], resp).0, es[1..], i, resp)
  {
    hide Seen, NetStep;
  }

  /** In particular the response: of a connection opened by a SYN, in the midst of all others,
      whatever packets arrive at its peer, the peer assembles a prefix of the response. */
  lemma NetEndToEnd(n: Net, e: NetEvent, es: seq<NetEvent>, ps: seq<Tcp.Packet>, resp: Response)
    requires NetSized(n, resp) && e.Packet? && Opened(n, e) != -1
    requires var n1, o := NetStep(n, e, resp).0, Opened(n, e);
             && |n1.cells| == |n.cells| && Lasts(n1, es, o, resp) && Sized(At(n1, o), resp)
             && FullWindows(At(n1, o), SeenAll(n1, es, o, resp), resp)
             && forall i :: 0 <= i < |ps| ==> Emit(ps[i]) in SentForAll(n1, es, o, resp)
    ensures Assemble([], ps, e.iss) <= resp
  {
    var n1, o := NetStep(n, e, resp).0, Opened(n, e);
    NotBoth(n, e);
    assert Sized(At(n, o), resp) && At(n1, o) == Listen(At(n, o), e.g, e.iss).0;
    Projection(n1, es, o, resp);
    hide NetStep, Listen, NetSized, Sized, Opened;
    EndToEnd(At(n, o), e.g, e.iss, SeenAll(n1, es, o, resp), ps, resp);
  }

  /** A connection opened by a packet is answered with SYN and acknowledgement; a packet that
      belongs to no connection and is no SYN for a port listened to is answered with a reset, unless
      it is one; anything else that no connection processes is not answered. */
  lemma NetAnswers(n: Net, e: NetEvent, resp: Response)
    requires NetSized(n, resp) && Target(n, e) == -1
    ensures var out := NetStep(n, e, resp).1;
            if e.Packet? && Opened(n, e) != -1 then
              && out.Emit? && out.p.syn && out.p.ack && !out.p.rst && !out.p.fin && out.p.data == []
              && out.p.seqno == e.iss && out.p.ackno == Plus(e.g.seqno, 1)
            else if e.Packet? && !e.g.rst && !(e.listening && SynOnly(e.g)) then
              && out.Emit? && out.p.rst && out.p.ack && !out.p.syn && !out.p.fin && out.p.data == []
              && out.p.seqno == e.g.ackno && out.p.ackno == Plus(e.g.seqno, 1)
            else out == Quiet
  {
    hide Target, Sized;
    if e.Packet? && Opened(n, e) != -1 {
      assert Sized(At(n, Opened(n, e)), resp);
      SynAnswered(At(n, Opened(n, e)), e.g, e.iss, resp);
    }
  }

  /** A closed slot is not in use, and nothing is sent for it, until it is opened again. */
  lemma NetClosed(n: Net, es: seq<NetEvent>, i: nat, resp: Response)
    requires NetSized(n, resp) && i < |n.cells| && !InUse(SlotOf(n.cells[i])) && Lasts(n, es, i, resp)
    ensures |NetFinal(n, es, resp).cells| == |n.cells| && !InUse(SlotOf(NetFinal(n, es, resp).cells[i]))
    ensures forall k :: 0 <= k < |SentForAll(n, es, i, resp)| ==> SentForAll(n, es, i, resp)[k] == Quiet
  {
    assert NetSized(NetFinal(n, es, resp), resp);
    hide NetStep, NetFinal;
    Projection(n, es, i, resp);
    ClosedForGood(At(n, i), SeenAll(n, es, i, resp), resp);
  }

  /** A reset closes its connection: its slot is free, for good unless it is opened again, and
      nothing more is sent for it. */
  lemma NetReset(n: Net, e: NetEvent, es: seq<NetEvent>, i: nat, resp: Response)
    requires NetSized(n, resp) && e.Packet? && e.g.rst && Target(n, e) == i
    requires Lasts(NetStep(n, e, resp).0, es, i, resp)
    ensures var n1 := NetStep(n, e, resp).0;
            && NetStep(n, e, resp).1 == Quiet
            && |NetFinal(n1, es, resp).cells| == |n.cells| && !InUse(SlotOf(NetFinal(n1, es, resp).cells[i]))
            && forall k :: 0 <= k < |SentForAll(n1, es, i, resp)| ==> SentForAll(n1, es, i, resp)[k] == Quiet
  {
    hide NetFinal, SentForAll, Lasts;
    SameSize(n, e, resp);
    TargetInUse(n, e, i);
    assert Sized(At(n, i), resp);
    ResetCloses(At(n, i), e.g, e.rto, resp);
    NetClosed(NetStep(n, e, resp).0, es, i, resp);
  }

  lemma TargetInUse(n: Net, e: NetEvent, i: nat)
    requires e.Packet? && Target(n, e) == i
    ensures i < |n.cells| && InUse(SlotOf(n.cells[i]))
  {}

  /** At the start all slots are closed. */
  lemma NetStarts(n: Net, resp: Response)
    requires |n.cells| == UIP_CONNS && |n.buf| == UIP_TCP_MSS
    requires forall i :: 0 <= i < |n.cells| ==>
               n.cells[i].c.phase.Closed? && n.cells[i].c.len == n.cells[i].c.mss == n.cells[i].c.initialMss == 0
               && n.cells[i].c.http == Http(Waiting, false, 0, 0, 0)
    ensures NetInv(n, resp)
  {}
}
