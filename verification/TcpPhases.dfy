/** What moves a connection from phase to phase: opening, closing, reset and giving up; and when
    what is in transit is sent again. */
module TcpPhases {
  import opened Httpd
  import opened SeqNumbers
  import opened Tcp
  import opened TcpSafety
  import opened TcpRuns
  import opened TcpReplies
  import opened TcpProgress
  import opened Words

  // ----- reset -----

  /** Whatever a reset says, and in whatever phase, the connection is closed, the server told, and
      nothing sent. */
  lemma ResetCloses(s: State, g: Input, rto: U8, resp: Response)
    requires Sized(s, resp) && !s.c.phase.Closed? && g.rst
    ensures var r := Step(s, Incoming(g, rto), resp);
            && r.0.c.phase.Closed? && r.0.c.http.state.Closing? && r.1 == Quiet
            && r.0.h == s.h && r.0.c == s.c.(phase := Closed, http := r.0.c.http)
  {
    hide Overlay, Piece;
  }

  /** A closed connection sends nothing and stays closed, whatever happens. */
  lemma {:induction false} ClosedForGood(s: State, es: seq<Event>, resp: Response)
    requires Sized(s, resp) && s.c.phase.Closed?
    ensures Final(s, es, resp).c == s.c
    ensures forall i :: 0 <= i < |Outs(s, es, resp)| ==> Outs(s, es, resp)[i] == Quiet
    decreases |es|
  {
    if es != [] {
      ClosedForGood(Step(s, es[0], resp).0, es[1..], resp);
    }
  }

  /** So over every run after a reset. */
  lemma ResetForGood(s: State, g: Input, rto: U8, es: seq<Event>, resp: Response)
    requires Sized(s, resp) && !s.c.phase.Closed? && g.rst
    ensures Final(s, [Incoming(g, rto)] + es, resp).c.phase.Closed?
    ensures forall i :: 0 <= i < |Outs(s, [Incoming(g, rto)] + es, resp)| ==>
              Outs(s, [Incoming(g, rto)] + es, resp)[i] == Quiet
  {
    ResetCloses(s, g, rto, resp);
    var all := [Incoming(g, rto)] + es;
    assert all[1..] == es && all[0] == Incoming(g, rto);
    hide Step;
    ClosedForGood(Step(s, all[0], resp).0, es, resp);
  }

  // ----- opening -----

  /** A SYN is answered with SYN and acknowledgement of the peer's SYN, under our initial number,
      and that is what is then in transit.  The segment size is what the peer allows, at most ours;
      without the option, what the slot had. */
  lemma SynAnswered(s: State, g: Input, iss: U32, resp: Response)
    requires Sized(s, resp)
    ensures var r := Listen(s, g, iss);
            && r.1.Emit? && r.1.p.syn && r.1.p.ack && !r.1.p.rst && !r.1.p.fin && r.1.p.data == []
            && r.1.p.seqno == iss && r.1.p.ackno == Plus(g.seqno, 1)
            && SentRight(iss, 0, r) && r.0.c.len == 1 && r.0.c.phase.SynRcvd?
            && r.0.c.timer == r.0.c.rto == UIP_RTO && r.0.c.nrtx == 0
            && r.0.c.initialMss == (if g.mss.None? then s.c.initialMss
                                    else if g.mss.value < UIP_TCP_MSS then g.mss.value else UIP_TCP_MSS)
            && (g.mss.Some? ==> r.0.c.mss == r.0.c.initialMss)
  {}

  /** An active open sends its SYN, under our initial number and with our segment size to go by, on
      the second tick. */
  lemma ConnectSends(s: State, iss: U32, resp: Response)
    requires Sized(s, resp)
    ensures var outs := Outs(Connect(s, iss), Ticks(2), resp);
            && |outs| == 2 && outs[0] == Quiet && outs[1].Emit? && outs[1].p.syn && !outs[1].p.ack
            && !outs[1].p.rst && !outs[1].p.fin && outs[1].p.seqno == iss
    ensures var c := Final(Connect(s, iss), Ticks(2), resp).c;
            c.phase.SynSent? && c.len == 1 && c.sndNxt == iss && c.nrtx == 1 && c.timer == UIP_RTO
            && c.initialMss == UIP_TCP_MSS
  {
    hide Overlay;
    var s0 := Connect(s, iss);
    assert Ticks(2)[1..] == Ticks(1) && Ticks(1)[1..] == [];
    var s1 := Tick(s0, resp).0;
    var s2 := Tick(s1, resp).0;
  }

  /** The acknowledgement of our SYN, and nothing else, establishes a passive open; the data it
      brings is taken, and acknowledged. */
  lemma PassiveOpens(s: State, g: Input, rto: U8, resp: Response)
    requires Sized(s, resp) && s.c.phase.SynRcvd? && !g.rst && InSequence(s.c, g)
    ensures var r := Arrive(s, g, rto, resp);
            if AcksOutstanding(s.c, g) then
              && r.0.c.phase.Established? && r.0.c.http.state.Waiting? && r.0.h.received == s.h.received + g.data
              && r.1 == if g.data == [] then Quiet else AckOut(r.0.c)
            else r.0.c == s.c && r.0.h == s.h && r.1 == Quiet
  {
    hide Overlay, Plus;
    assert s.h.received + [] == s.h.received;
  }

  /** An active open is established by a SYN that acknowledges ours, which is acknowledged; anything
      else is refused with a reset. */
  lemma ActiveOpens(s: State, g: Input, rto: U8, resp: Response)
    requires Sized(s, resp) && s.c.phase.SynSent? && !g.rst && InSequence(s.c, g)
    ensures var r := Arrive(s, g, rto, resp);
            if AcksOutstanding(s.c, g) && SynAckOnly(g) then
              && r.0.c.phase.Established? && r.0.c.http.state.Waiting? && r.0.c.rcvNxt == Plus(g.seqno, 1)
              && r.0.h.irs == g.seqno && r.1 == AckOut(r.0.c)
            else
              && r.0.c.phase.Closed? && r.1.Emit? && r.1.p.rst && r.1.p.ack && !r.1.p.syn && r.1.p.data == []
              && r.1.p.seqno == g.ackno && r.1.p.ackno == Plus(g.seqno, 1)
  {
    hide Overlay, Plus;
  }

  // ----- closing -----

  /** The peer's FIN with nothing in transit is taken with the data before it, and ours is sent;
      while something is in transit, the whole segment is ignored. */
  lemma PeerEnds(s: State, g: Input, rto: U8, resp: Response)
    requires Sized(s, resp) && s.c.phase.Established? && !g.rst && g.fin && InSequence(s.c, g)
    ensures var r := Arrive(s, g, rto, resp);
            if s.c.len == 0 || AcksOutstanding(s.c, g) then
              && r.0.c.phase.LastAck? && r.0.c.http.state.Closing? && r.0.c.len == 1
              && r.0.h.received == s.h.received + g.data && r.0.h.finIn && r.1 == FinOut(r.0.c)
            else r.0.c == s.c && r.0.h == s.h && r.1 == Quiet
  {
    hide Overlay, Plus;
  }

  /** The acknowledgement of our FIN ends a connection that the peer closed first. */
  lemma LastAckEnds(s: State, g: Input, rto: U8, resp: Response)
    requires Sized(s, resp) && s.c.phase.LastAck? && !g.rst && InSequence(s.c, g)
    ensures var r := Arrive(s, g, rto, resp);
            r.1 == Quiet && if AcksOutstanding(s.c, g) then r.0.c.phase.Closed? else r.0.c == s.c
  {
    hide Overlay, Plus;
  }

  /** The peer's answers to our FIN: its acknowledgement, its own FIN, or both in one. */
  function AckOfFin(c: Conn): Input {
    Segment(c.rcvNxt, Plus(c.sndNxt, c.len), false, false, false, false, true, 0, None, [])
  }

  function FinOnly(c: Conn): Input {
    Segment(c.rcvNxt, c.sndNxt, false, true, false, false, true, 0, None, [])
  }

  function FinAndAck(c: Conn): Input {
    AckOfFin(c).(fin := true)
  }

  /** After our FIN, the peer's acknowledgement and its own FIN may come in either order or at
      once: the connection ends up waiting in the very same record, both streams counted to their
      ends. */
  lemma ClosesEitherWay(s: State, rto: U8, resp: Response)
    requires SeqInv(s, resp) && s.c.phase.FinWait1?
    ensures var ack, fin := Incoming(AckOfFin(s.c), rto), Incoming(FinOnly(s.c), rto);
            var c1 := Final(s, [ack, fin], resp).c;
            var c2 := Final(s, [fin, ack], resp).c;
            var c3 := Final(s, [Incoming(FinAndAck(s.c), rto)], resp).c;
            && c1 == c2 == c3 && c1.phase.TimeWait? && c1.timer == 0 && c1.len == 0
            && c1.sndNxt == Plus(s.c.sndNxt, 1) && c1.rcvNxt == Plus(s.c.rcvNxt, 1)
  {
    var ack, fin := Incoming(AckOfFin(s.c), rto), Incoming(FinOnly(s.c), rto);
    FinTaken(s, fin, ack, rto, resp);
    hide Step;
    TwoEvents(s, ack, fin, resp);
    TwoEvents(s, fin, ack, resp);
    OneEvent(s, Incoming(FinAndAck(s.c), rto), resp);
  }

  lemma FinTaken(s: State, fin: Event, ack: Event, rto: U8, resp: Response)
    requires SeqInv(s, resp) && s.c.phase.FinWait1?
    requires ack == Incoming(AckOfFin(s.c), rto) && fin == Incoming(FinOnly(s.c), rto)
    ensures var c1 := Step(Step(s, ack, resp).0, fin, resp).0.c;
            var c2 := Step(Step(s, fin, resp).0, ack, resp).0.c;
            var c3 := Step(s, Incoming(FinAndAck(s.c), rto), resp).0.c;
            && c1 == c2 == c3 && c1.phase.TimeWait? && c1.timer == 0 && c1.len == 0
            && c1.sndNxt == Plus(s.c.sndNxt, 1) && c1.rcvNxt == Plus(s.c.rcvNxt, 1)
  {
    PlusSmall(s.c.sndNxt);
    PlusSmall(s.c.rcvNxt);
    PlusSmall(Plus(s.c.rcvNxt, 1));
    hide Overlay, Plus;
  }

  lemma PlusSmall(n: U32)
    ensures Plus(n, 1) != n && Plus(n, 0) == n
  {}

  lemma OneEvent(s: State, e: Event, resp: Response)
    requires Sized(s, resp)
    ensures Final(s, [e], resp) == Step(s, e, resp).0
  {
    hide Step;
    assert [e][1..] == [];
  }

  lemma TwoEvents(s: State, e: Event, f: Event, resp: Response)
    requires Sized(s, resp)
    ensures Final(s, [e, f], resp) == Step(Step(s, e, resp).0, f, resp).0
  {
    hide Step;
    assert [e, f][1..] == [f];
    OneEvent(Step(s, e, resp).0, f, resp);
  }

  // ----- timers -----

  /** An acknowledgement of everything in transit restarts the timer with the retransmission
      timeout; the estimator's new value is used only if nothing had to be sent again. */
  lemma AckRestarts(s: State, g: Input, rto: U8, resp: Response)
    requires Sized(s, resp) && !s.c.phase.Closed? && !g.rst && InSequence(s.c, g) && AcksOutstanding(s.c, g)
    ensures var c := Arrive(s, g, rto, resp).0.c;
            && c.rto == (if s.c.nrtx == 0 then rto else s.c.rto)
            && (c.timer == c.rto || c.phase.TimeWait?)
  {
    hide Overlay, Piece, Plus, Transmit;
  }

  /** The retransmissions are counted anew whenever the peer is heard of in sequence. */
  lemma CountsAnew(s: State, g: Input, rto: U8, resp: Response)
    requires Sized(s, resp) && s.c.phase.Established? && !g.rst && !g.fin && InSequence(s.c, g)
    requires AcksOutstanding(s.c, g) || g.data != []
    ensures Arrive(s, g, rto, resp).0.c.nrtx == 0
  {
    ArriveIsCall(s, g, rto, resp);
    hide Arrive, InSequence, Plus, Overlay, Piece, Transmit;
  }

  /** Until its timer has run down, a connection with something in transit sends nothing of itself. */
  lemma {:induction false} QuietUntilDue(s: State, n: nat, resp: Response)
    requires Sized(s, resp) && Outstanding(s.c) && n <= s.c.timer as int
    ensures Final(s, Ticks(n), resp).c == s.c.(timer := s.c.timer as int - n)
    ensures forall i :: 0 <= i < |Outs(s, Ticks(n), resp)| ==> Outs(s, Ticks(n), resp)[i] == Quiet
    decreases n
  {
    if n > 0 {
      assert Ticks(n)[1..] == Ticks(n - 1) && Ticks(n)[0] == Timer;
      hide Rexmit, Notify, CallApp;
      QuietUntilDue(Tick(s, resp).0, n - 1, resp);
    }
  }

  /** Then it sends again, and the n-th time waits twice as long as the time before: 3, 6, 12, 24
      ticks, and from the fifth time on 48. */
  lemma BacksOff(s: State, resp: Response)
    requires Sized(s, resp) && Outstanding(s.c) && s.c.timer == 0 && s.c.nrtx < MaxRtx(s.c.phase)
    ensures var c := Tick(s, resp).0.c;
            && c.nrtx == s.c.nrtx + 1 && c.phase == s.c.phase
            && c.timer as int == [3, 6, 12, 24, 48][if s.c.nrtx < 4 then s.c.nrtx as int else 4]
  {
    hide Overlay, Piece, Transmit;
  }

  /** After the last time, it gives up: the peer is sent a reset and the server told. */
  lemma GivesUp(s: State, resp: Response)
    requires Sized(s, resp) && Outstanding(s.c) && TicksLeft(s.c) == 1
    ensures var r := Tick(s, resp);
            && r.0.c.phase.Closed? && r.0.c.http.state.Closing? && r.1 == RstOut(r.0.c)
            && r.0.c.sndNxt == s.c.sndNxt && r.0.c.rcvNxt == s.c.rcvNxt
  {
    hide Overlay, Piece, Rexmit;
  }

  /** With nothing in transit the server is asked at every tick: it goes on with the next piece, or
      ends the stream behind the last. */
  lemma PollServes(s: State, resp: Response)
    requires Inv(s, resp) && s.c.phase.Established? && s.c.http.state.Sending? && s.c.len == 0 && s.c.mss > 0
    ensures var r := Tick(s, resp);
            if s.h.acked < |resp| then
              && r.0.c.len as int == Chunk(|resp| - s.h.acked, s.c.mss as int) > 0
              && r.1.Emit? && r.1.p.data == resp[s.h.acked..s.h.acked + r.0.c.len as int]
            else r.0.c.phase.FinWait1? && r.1 == FinOut(r.0.c)
  {
    var n := Chunk(|resp| - s.h.acked, s.c.mss as int);
    assert Take(Overlay(s.buf, Piece(resp, s.h.acked, n)), n) == Piece(resp, s.h.acked, n);
    hide Overlay, Take, Plus;
  }

  // ----- windows -----

  /** New data stays within the window that the peer has just advertised, a window of zero meaning
      the initial segment size. */
  lemma WindowObeyed(s: State, g: Input, rto: U8, resp: Response)
    requires SeqInv(s, resp) && s.c.phase.Established? && !g.rst && !g.fin && InSequence(s.c, g)
    requires s.c.len == 0 || AcksOutstanding(s.c, g)
    ensures var r := Arrive(s, g, rto, resp);
            r.1.Emit? ==> |r.1.p.data| <= s.c.initialMss as int && (g.wnd > 0 ==> |r.1.p.data| <= g.wnd as int)
  {
    ArriveIsCall(s, g, rto, resp);
    hide Arrive, InSequence, Plus, Overlay, Piece;
  }
}
