/** Progress of a connection: it gives up on a silent peer after an exact number of ticks, and
    delivers the whole response to a peer that acknowledges. */
module TcpProgress {
  import opened SeqNumbers
  import opened Httpd
  import opened Tcp
  import opened TcpSafety
  import opened TcpRuns
  import opened Words

  function Ticks(n: nat): (es: seq<Event>)
    ensures |es| == n && forall i :: 0 <= i < n ==> es[i].Timer?
  {
    if n == 0 then [] else [Timer] + Ticks(n - 1)
  }

  // ----- silence -----

  /** Something is in transit. */
  predicate Outstanding(c: Conn) {
    !c.phase.Closed? && !WaitsOut(c.phase) && c.len > 0 && c.nrtx <= MaxRtx(c.phase)
  }

  /** The ticks that the remaining retransmissions take. */
  function Remaining(nrtx: nat, max: nat): (t: nat)
    decreases max - nrtx
  {
    if nrtx >= max then 0 else Backoff(nrtx) as int + 1 + Remaining(nrtx + 1, max)
  }

  /** The ticks left until the connection is given up. */
  function TicksLeft(c: Conn): (t: nat) {
    c.timer as int + 1 + Remaining(c.nrtx as int, MaxRtx(c.phase))
  }

  lemma TickCounts(s: State, resp: Response)
    requires Sized(s, resp) && Outstanding(s.c)
    ensures var c := Tick(s, resp).0.c;
            if TicksLeft(s.c) == 1 then c.phase.Closed?
            else Outstanding(c) && c.phase == s.c.phase && TicksLeft(c) == TicksLeft(s.c) - 1
  {
    hide Overlay, Piece, Transmit, AppCall, WithOption;
  }

  lemma {:induction false} StaysClosed(s: State, n: nat, resp: Response)
    requires Sized(s, resp) && s.c.phase.Closed?
    ensures Final(s, Ticks(n), resp).c.phase.Closed?
  {
    if n > 0 {
      assert Ticks(n)[1..] == Ticks(n - 1);
      StaysClosed(s, n - 1, resp);
    }
  }

  /** A connection with something in transit whose peer falls silent is closed after exactly
      the ticks left, and not before. */
  lemma {:induction false} Silence(s: State, n: nat, resp: Response)
    requires Sized(s, resp) && Outstanding(s.c)
    ensures Final(s, Ticks(n), resp).c.phase.Closed? <==> n >= TicksLeft(s.c)
    decreases n
  {
    if n > 0 {
      assert Ticks(n)[1..] == Ticks(n - 1);
      TickCounts(s, resp);
      var t := Tick(s, resp).0;
      if TicksLeft(s.c) == 1 {
        StaysClosed(t, n - 1, resp);
      } else {
        Silence(t, n - 1, resp);
      }
    }
  }

  /** For a fresh transmission the bound is 246 ticks beyond the timer, 99 for a SYN. */
  lemma SilenceBound(s: State, n: nat, resp: Response)
    requires Sized(s, resp) && Outstanding(s.c) && s.c.nrtx == 0
    ensures Final(s, Ticks(n), resp).c.phase.Closed? <==>
            n >= s.c.timer as int + if s.c.phase.SynSent? || s.c.phase.SynRcvd? then 99 else 246
  {
    Silence(s, n, resp);
    assert Remaining(8, 8) == 0 && Remaining(7, 8) == 49 && Remaining(6, 8) == 98 && Remaining(5, 8) == 147;
    assert Remaining(4, 8) == 196 && Remaining(3, 8) == 221 && Remaining(2, 8) == 234 && Remaining(1, 8) == 241;
    assert Remaining(5, 5) == 0 && Remaining(4, 5) == 49 && Remaining(3, 5) == 74 && Remaining(2, 5) == 87;
    assert Remaining(1, 5) == 94;
  }

  /** The ticks until the 8-bit timer of a waiting connection next equals the timeout. */
  function WaitLeft(timer: U8): nat {
    if timer < UIP_TIME_WAIT_TIMEOUT then UIP_TIME_WAIT_TIMEOUT - timer as int
    else 256 + UIP_TIME_WAIT_TIMEOUT - timer as int
  }

  /** FIN_WAIT_2 and TIME_WAIT end after exactly that many ticks, at most 256, even though the
      timer may have to wrap around. */
  lemma {:induction false} WaitEnds(s: State, n: nat, resp: Response)
    requires Sized(s, resp) && WaitsOut(s.c.phase)
    ensures WaitLeft(s.c.timer) <= 256
    ensures Final(s, Ticks(n), resp).c.phase.Closed? <==> n >= WaitLeft(s.c.timer)
    decreases n
  {
    if n > 0 {
      assert Ticks(n)[1..] == Ticks(n - 1);
      var t := Tick(s, resp).0;
      if t.c.phase.Closed? {
        StaysClosed(t, n - 1, resp);
      } else {
        WaitEnds(t, n - 1, resp);
      }
    }
  }

  // ----- delivery -----

  /** A pure acknowledgement of all that is in transit, with a wide window. */
  function FullAck(c: Conn): Event {
    Incoming(Segment(c.rcvNxt, Plus(c.sndNxt, c.len), false, false, false, false, true, 0xffff, None, []), c.rto)
  }

  lemma AckMovesOn(s: State, resp: Response)
    requires Inv(s, resp) && s.c.phase.Established? && s.c.http.state.Sending?
    requires s.c.len > 0 && s.c.initialMss > 0
    ensures var r := Step(s, FullAck(s.c), resp);
            && r.0.h.acked == s.h.acked + s.c.len as int
            && r.0.c.initialMss == s.c.initialMss
            && (r.0.h.acked == |resp| ==> r.0.c.phase.FinWait1? && r.1 == FinOut(r.0.c))
            && (r.0.h.acked < |resp| ==>
                  r.0.c.phase.Established? && r.0.c.http.state.Sending? && Inv(r.0, resp) && Steady(r.0, resp)
                  && r.0.c.len > 0 && r.1.Emit?
                  && r.1.p.data == resp[r.0.h.acked..r.0.h.acked + r.0.c.len as int])
  {
    var g := FullAck(s.c).g;
    var s0 := s.(buf := Overlay(s.buf, []));
    var t := Accept(AckTaken(s0, s.c.rto), [], false);
    PlusPlus(s.h.iss, 1 + s.h.acked, s.c.len as int);
    assert t.h.received == s.h.received;
    var u := t.(c := t.c.(mss := Usable(g.wnd, t.c.initialMss)));
    NotifyAcked(u, NO_FLAGS.(ackdata := true), s.c.len as int, resp);
    AckOnly(u, resp);
  }

  /** Such a call keeps the segment sizes, and the server goes on sending while there is more. */
  lemma AckOnly(u: State, resp: Response)
    requires Sized(u, resp) && u.c.phase.Established? && u.c.http.state.Sending?
    requires u.c.http.pos as int + u.c.http.lastSent as int == u.h.acked
    ensures var r := Notify(u, NO_FLAGS.(ackdata := true), resp);
            r.0.c.mss == u.c.mss && r.0.c.initialMss == u.c.initialMss
            && (u.h.acked < |resp| ==> r.0.c.http.state.Sending?)
  {
    hide Overlay, Piece, Transmit;
  }

  function AckAll(s: State, n: nat, resp: Response): (r: State)
    requires Sized(s, resp)
    ensures Sized(r, resp)
    decreases n
  {
    if n == 0 then s else AckAll(Step(s, FullAck(s.c), resp).0, n - 1, resp)
  }

  /** The number of pieces of at most m bytes that n bytes make. */
  function Pieces(n: nat, m: nat): nat
    requires m > 0
  {
    if n <= m then 1 else 1 + Pieces(n - m, m)
  }

  /** A peer that acknowledges every packet has, after one acknowledgement per piece,
      acknowledged the whole response, and the connection is being closed. */
  lemma {:induction false} Delivery(s: State, resp: Response)
    requires Inv(s, resp) && Steady(s, resp) && s.c.phase.Established? && s.c.http.state.Sending? && s.c.len > 0
    ensures var m := Min(s.c.initialMss, MAX_DRIVER_SEND_BYTES);
            && m > 0
            && AckAll(s, Pieces(|resp| - s.h.acked, m), resp).h.acked == |resp|
            && AckAll(s, Pieces(|resp| - s.h.acked, m), resp).c.phase.FinWait1?
    decreases |resp| - s.h.acked
  {
    hide Step, Steady, Inv, Right;
    SteadyLen(s, resp);
    AckMovesOn(s, resp);
    var m := Min(s.c.initialMss, MAX_DRIVER_SEND_BYTES);
    var t := Step(s, FullAck(s.c), resp).0;
    if t.h.acked < |resp| {
      Delivery(t, resp);
    }
  }

  lemma SteadyLen(s: State, resp: Response)
    requires Inv(s, resp) && Steady(s, resp) && s.c.phase.Established? && s.c.http.state.Sending? && s.c.len > 0
    ensures Sized(s, resp) && s.h.acked <= |resp| && s.c.initialMss > 0
            && s.c.len as int == Min(|resp| - s.h.acked, Min(s.c.initialMss, MAX_DRIVER_SEND_BYTES))
  {}

  // ----- requests -----

  /** An in-sequence segment whose data the connection takes while it waits for a request: with
      the acknowledgement of our SYN, or once established. */
  predicate TakesRequest(s: State, g: Segment) {
    && !g.rst && g.data != [] && g.seqno == s.c.rcvNxt
    && ((s.c.phase.SynRcvd? && AcksOutstanding(s.c, g)) || (s.c.phase.Established? && s.c.http.state.Waiting?))
  }

  /** The first piece of the response is sent and in transit. */
  ghost predicate ResponseStarts(r: (State, Out), resp: Response) {
    && r.0.c.phase.Established? && r.0.c.http.state.Sending? && r.0.h.acked == 0
    && 0 < r.0.c.len as int <= |resp| && r.1.Emit? && r.1.p.data == resp[..r.0.c.len]
    && r.1.p.seqno == Plus(r.0.h.iss, 1)
  }

  /** A request is always taken; the response starts exactly when the connection was established
      before, the request does not end the peer's stream, and a segment size is known. */
  lemma RequestAnsweredExactly(s: State, g: Input, rto: U8, resp: Response)
    requires Inv(s, resp) && TakesRequest(s, g) && resp != []
    ensures var r := Arrive(s, g, rto, resp);
            && r.0.h.received == s.h.received + g.data
            && (ResponseStarts(r, resp) <==> s.c.phase.Established? && !g.fin && s.c.initialMss > 0)
  {
    if s.c.phase.Established? && !g.fin {
      RequestStarts(s, g, rto, resp);
    } else if s.c.phase.Established? {
      hide Overlay, Plus;
    } else {
      EarlyTaken(s, g, rto, resp);
    }
  }

  lemma RequestStarts(s: State, g: Input, rto: U8, resp: Response)
    requires Inv(s, resp) && s.c.phase.Established? && TakesRequest(s, g) && !g.fin && resp != []
    ensures var r := Arrive(s, g, rto, resp);
            && r.0.h.received == s.h.received + g.data && r.0.c.initialMss == s.c.initialMss
            && (ResponseStarts(r, resp) <==> s.c.initialMss > 0)
            && (s.c.initialMss > 0 ==> r.0.c.len as int == Chunk(|resp|, Usable(g.wnd, s.c.initialMss) as int))
  {
    ArriveIsCall(s, g, rto, resp);
    var n := Chunk(|resp|, Usable(g.wnd, s.c.initialMss) as int);
    assert Take(Overlay(Overlay(s.buf, g.data), Piece(resp, 0, n)), n) == Piece(resp, 0, n) == resp[..n];
    hide Arrive, Overlay, Piece, Take, InSequence, Plus;
  }

  lemma EarlyTaken(s: State, g: Input, rto: U8, resp: Response)
    requires Inv(s, resp) && s.c.phase.SynRcvd? && TakesRequest(s, g)
    ensures var r := Arrive(s, g, rto, resp);
            && r.0.h.received == s.h.received + g.data && r.1 == AckOut(r.0.c) && Idle(r.0)
  {
    hide Overlay, Plus;
  }

  /** An established connection that waits for a request with nothing in transit, or one that is
      closed. */
  predicate Idle(s: State) {
    (s.c.phase.Established? && s.c.http.state.Waiting? && s.c.len == 0) || s.c.phase.Closed?
  }

  /** Nothing more comes from the peer than acknowledgements and resets. */
  predicate NothingNew(e: Event) { e.Incoming? ==> e.g.data == [] && !e.g.fin }

  predicate NoData(out: Out) { out.Emit? ==> out.p.data == [] }

  lemma IdleStep(s: State, e: Event, resp: Response)
    requires Sized(s, resp) && Idle(s) && NothingNew(e)
    ensures Idle(Step(s, e, resp).0) && NoData(Step(s, e, resp).1)
  {
    hide Overlay, Plus, Piece;
    assert s.h.received + [] == s.h.received;
  }

  lemma {:induction false} IdleForever(s: State, es: seq<Event>, resp: Response)
    requires Sized(s, resp) && Idle(s) && forall i :: 0 <= i < |es| ==> NothingNew(es[i])
    ensures Idle(Final(s, es, resp))
    ensures forall i :: 0 <= i < |Outs(s, es, resp)| ==> NoData(Outs(s, es, resp)[i])
    decreases |es|
  {
    if es != [] {
      IdleStep(s, es[0], resp);
      hide Step, Idle, NoData;
      IdleForever(Step(s, es[0], resp).0, es[1..], resp);
    }
  }

  /** A request that rides on the acknowledgement of the SYN is taken and acknowledged, but the
      application only notes the new connection: whatever happens short of new data, there is no
      response. */
  lemma EarlyRequestUnanswered(s: State, g: Input, rto: U8, es: seq<Event>, resp: Response)
    requires Inv(s, resp) && s.c.phase.SynRcvd? && TakesRequest(s, g)
    requires forall i :: 0 <= i < |es| ==> NothingNew(es[i])
    ensures var t := Arrive(s, g, rto, resp);
            && t.0.h.received == s.h.received + g.data && t.1 == AckOut(t.0.c)
            && forall i :: 0 <= i < |Outs(t.0, es, resp)| ==> NoData(Outs(t.0, es, resp)[i])
  {
    EarlyTaken(s, g, rto, resp);
    IdleForever(Arrive(s, g, rto, resp).0, es, resp);
  }

  /** No segment size was ever set: the slot is new and the SYN had no such option. */
  predicate Mute(s: State) {
    s.c.initialMss == 0 && !s.c.phase.SynSent? && (s.c.phase.Established? && s.c.http.state.Sending? ==> s.c.mss == 0)
  }

  lemma MuteCall(s: State, f: Flags, resp: Response)
    requires Sized(s, resp) && s.c.initialMss == 0 && s.c.phase.Established?
    requires f.connected || s.c.mss == 0 || (!s.c.http.state.Sending? && !f.newdata)
    ensures Mute(Notify(s, f, resp).0) && NoData(Notify(s, f, resp).1)
  {
    hide Overlay, Piece, Take;
  }

  lemma MuteStep(s: State, e: Event, resp: Response)
    requires Sized(s, resp) && Mute(s)
    ensures Mute(Step(s, e, resp).0) && NoData(Step(s, e, resp).1)
  {
    hide Overlay, Plus, Piece, Take, Notify;
    match e
    case Shared(_) =>
    case Timer =>
      if s.c.phase.Established? && s.c.len == 0 { MuteCall(s, F_POLL, resp); }
    case Incoming(g, rto) =>
      if s.c.phase.Established? && !g.rst && !g.fin && InSequence(s.c, g) {
        ArriveIsCall(s, g, rto, resp);
        MuteCall(BeforeCall(s, g, rto), CallFlags(s.c, g), resp);
      } else if s.c.phase.SynRcvd? && AcksOutstanding(s.c, g) {
        var s0 := AckTaken(s.(buf := Overlay(s.buf, g.data)), rto);
        MuteCall(Accept(s0.(c := s0.c.(phase := Established)), g.data, false), F_CONNECTED.(newdata := g.data != []), resp);
      }
  }

  /** The other way to go without a response: if the SYN of a connection in a slot that never had
      a segment size brings none, then no packet of any run carries data. */
  lemma {:induction false} NoMssNoData(s: State, es: seq<Event>, resp: Response)
    requires Sized(s, resp) && Mute(s)
    ensures forall i :: 0 <= i < |Outs(s, es, resp)| ==> NoData(Outs(s, es, resp)[i])
    decreases |es|
  {
    if es != [] {
      MuteStep(s, es[0], resp);
      hide Step, Mute, NoData;
      NoMssNoData(Step(s, es[0], resp).0, es[1..], resp);
    }
  }

  lemma MuteFromListen(s: State, g: Input, iss: U32, resp: Response)
    requires Sized(s, resp)
    ensures Mute(Listen(s, g, iss).0) <==> MssFrom(g.mss, s.c.initialMss) == 0
  {}

  /** The response that starts is also delivered, whatever the window was: the first piece may
      be shorter, the others are full ones. */
  lemma RequestAnswered(s: State, g: Input, rto: U8, resp: Response) returns (t: State, n: nat)
    requires Inv(s, resp) && s.c.phase.Established? && TakesRequest(s, g) && resp != []
    requires !g.fin && s.c.initialMss > 0
    ensures t == Arrive(s, g, rto, resp).0 && Sized(t, resp)
    ensures var first := Chunk(|resp|, Usable(g.wnd, s.c.initialMss) as int);
            var m := Min(s.c.initialMss as int, MAX_DRIVER_SEND_BYTES);
            m > 0 && n == if first == |resp| then 1 else 1 + Pieces(|resp| - first, m)
    ensures AckAll(t, n, resp).h.acked == |resp| && AckAll(t, n, resp).c.phase.FinWait1?
  {
    hide Arrive, Inv, Steady, Right, AckAll, Pieces, InSequence, Take, Piece, Overlay, Step;
    RequestKeeps(s, g, rto, resp);
    RequestStarts(s, g, rto, resp);
    t := Arrive(s, g, rto, resp).0;
    AckMovesOn(t, resp);
    var u := Step(t, FullAck(t.c), resp).0;
    n := 1;
    if u.h.acked < |resp| {
      Delivery(u, resp);
      n := 1 + Pieces(|resp| - u.h.acked, Min(s.c.initialMss as int, MAX_DRIVER_SEND_BYTES));
    }
    AckOnce(t, n, resp);
  }

  lemma RequestKeeps(s: State, g: Input, rto: U8, resp: Response)
    requires Inv(s, resp) && s.c.phase.Established? && TakesRequest(s, g)
    ensures Sized(s, resp) && Inv(Arrive(s, g, rto, resp).0, resp)
  {
    hide Arrive, Right;
    ArriveExactly(s, g, rto, resp);
  }

  lemma AckOnce(s: State, n: nat, resp: Response)
    requires Sized(s, resp) && n > 0
    ensures AckAll(s, n, resp) == AckAll(Step(s, FullAck(s.c), resp).0, n - 1, resp)
    ensures AckAll(Step(s, FullAck(s.c), resp).0, 0, resp) == Step(s, FullAck(s.c), resp).0
  {
    hide Step;
  }
}
