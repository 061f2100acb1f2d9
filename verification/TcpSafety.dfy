/** Safety of a connection over whole runs: sequence numbers count what has been exchanged,
    every data segment carries the right piece of the response, and the timer gives up in time. */
module TcpSafety {
  import opened SeqNumbers
  import opened Httpd
  import opened Tcp
  import opened Words

  // ----- the invariants -----

  /** The server's record says whether anything is in transit. */
  predicate RecordOk(h: Http, len: U16) {
    match h.state
    case Waiting => len == 0 && h.lastSent == 0
    case Sending => len > 0 <==> h.lastSent > 0
    case Closing => false
  }

  /** What sndNxt, rcvNxt and len say in each phase: they count what has been exchanged. */
  ghost predicate SeqInv(s: State, resp: Response) {
    && Sized(s, resp)
    && (s.c.phase.Closed? || s.c.nrtx <= MaxRtx(s.c.phase))
    && (s.c.phase.Closed? || s.c.phase.SynSent? ||
        s.c.rcvNxt == Plus(s.h.irs, 1 + |s.h.received| + if s.h.finIn then 1 else 0))
    && match s.c.phase
       case Closed => true
       case SynSent => s.c.sndNxt == s.h.iss && s.c.len == 1 && s.h.acked == 0 && s.h.received == [] && !s.h.finIn
       case SynRcvd => s.c.sndNxt == s.h.iss && s.c.len == 1 && s.h.acked == 0 && s.h.received == [] && !s.h.finIn
       case Established => s.c.sndNxt == Plus(s.h.iss, 1 + s.h.acked) && !s.h.finIn && RecordOk(s.c.http, s.c.len)
       case FinWait1 => s.c.sndNxt == Plus(s.h.iss, 1 + s.h.acked) && s.c.len == 1 && !s.h.finIn
       case FinWait2 => s.c.sndNxt == Plus(s.h.iss, 2 + s.h.acked) && s.c.len == 0 && !s.h.finIn
       case TimeWait => s.c.sndNxt == Plus(s.h.iss, 2 + s.h.acked) && s.c.len == 0 && s.h.finIn
       case ClosingBoth => s.c.sndNxt == Plus(s.h.iss, 1 + s.h.acked) && s.c.len == 1 && s.h.finIn
       case LastAck => s.c.sndNxt == Plus(s.h.iss, 1 + s.h.acked) && s.c.len == 1 && s.h.finIn
  }

  /** The server's record agrees with the transport: it knows what has been acknowledged and
      what is in transit, and closes only behind the whole response. */
  ghost predicate Agree(s: State, resp: Response) {
    && s.h.acked <= |resp|
    && match s.c.phase
       case Established =>
         (s.c.http.state.Waiting? ==> s.h.acked == 0)
         && (s.c.http.state.Sending? ==> s.c.http.pos == s.h.acked && s.c.http.lastSent == s.c.len)
       case FinWait1 => s.h.acked == |resp|
       case FinWait2 => s.h.acked == |resp|
       case TimeWait => s.h.acked == |resp|
       case ClosingBoth => s.h.acked == |resp|
       case _ => true
  }

  ghost predicate Inv(s: State, resp: Response) {
    SeqInv(s, resp) && Agree(s, resp)
  }

  // ----- the counting, whatever the windows -----

  /** What a call of the application with flags f needs to find for the counting to go on. */
  ghost predicate ReadyToCall(s: State, f: Flags, resp: Response) {
    && Sized(s, resp) && s.c.phase.Established? && s.c.nrtx <= UIP_MAXRTX && !s.h.finIn
    && s.c.sndNxt == Plus(s.h.iss, 1 + s.h.acked) && s.c.rcvNxt == Plus(s.h.irs, 1 + |s.h.received|)
    && !f.close && !f.abort && !f.timedout
    && if f.connected then s.c.len == 0
       else if f.ackdata then s.c.len == 0 && RecordOk(s.c.http.(lastSent := 0), 0)
       else RecordOk(s.c.http, s.c.len)
  }

  lemma NotifyCounts(s: State, f: Flags, resp: Response)
    requires ReadyToCall(s, f, resp)
    ensures SeqInv(Notify(s, f, resp).0, resp)
  {
    hide Overlay, Piece, Transmit, Plus;
  }

  lemma SynCounts(s: State, g: Input, rto: U8, resp: Response)
    requires SeqInv(s, resp) && s.c.phase in {SynRcvd, SynSent} && !g.rst && InSequence(s.c, g)
    ensures SeqInv(Arrive(s, g, rto, resp).0, resp)
  {
    PlusPlus(s.h.iss, 0, 1);
    PlusPlus(s.h.irs, 1, |g.data|);
    hide Overlay, Piece, Take, Plus, Notify, AppCall;
    var s0 := s.(buf := Overlay(s.buf, g.data));
    if AcksOutstanding(s0.c, g) {
      var s1 := AckTaken(s0, rto);
      if s.c.phase.SynRcvd? {
        NotifyCounts(Accept(s1.(c := s1.c.(phase := Established)), g.data, false),
                     F_CONNECTED.(newdata := g.data != []), resp);
      } else if SynAckOnly(g) {
        var c := WithMss(s1.c, g.mss).(phase := Established, rcvNxt := Plus(g.seqno, 1));
        NotifyCounts(s1.(c := c, h := s1.h.(irs := g.seqno)), F_CONNECTED.(newdata := true), resp);
      }
    }
  }

  lemma EstablishedCounts(s: State, g: Input, rto: U8, resp: Response)
    requires SeqInv(s, resp) && s.c.phase.Established? && !g.rst && InSequence(s.c, g)
    ensures SeqInv(Arrive(s, g, rto, resp).0, resp)
  {
    var n := 1 + |s.h.received|;
    PlusPlus(s.h.iss, 1 + s.h.acked, s.c.len as int);
    PlusPlus(s.h.irs, n, |g.data| + if g.fin then 1 else 0);
    hide Overlay, Piece, Take, Plus, Notify, AppCall;
    var s0 := s.(buf := Overlay(s.buf, g.data));
    var ad := AcksOutstanding(s0.c, g);
    var s1 := if ad then AckTaken(s0, rto) else s0;
    var t := Accept(s1, g.data, false);
    var u := t.(c := t.c.(mss := Usable(g.wnd, t.c.initialMss)));
    if !g.fin && (ad || g.data != []) {
      NotifyCounts(u, NO_FLAGS.(ackdata := ad, newdata := g.data != []), resp);
    }
  }

  lemma ClosingCounts(s: State, g: Input, rto: U8, resp: Response)
    requires SeqInv(s, resp) && s.c.phase !in {SynRcvd, SynSent, Established, Closed} && !g.rst && InSequence(s.c, g)
    ensures SeqInv(Arrive(s, g, rto, resp).0, resp)
  {
    var n := 1 + |s.h.received|;
    PlusPlus(s.h.iss, 1 + s.h.acked, s.c.len as int);
    PlusPlus(s.h.irs, n, |g.data| + if g.fin then 1 else 0);
    hide Overlay, Piece, Take, Plus, Notify, AppCall;
  }

  lemma TickCounting(s: State, resp: Response)
    requires SeqInv(s, resp)
    ensures SeqInv(Tick(s, resp).0, resp)
  {
    hide Overlay, Piece, Take, Plus, Notify;
    if s.c.phase.Established? && s.c.len == 0 {
      NotifyCounts(s, F_POLL, resp);
    }
  }

  lemma ArriveCounts(s: State, g: Input, rto: U8, resp: Response)
    requires SeqInv(s, resp) && !s.c.phase.Closed?
    ensures SeqInv(Arrive(s, g, rto, resp).0, resp)
  {
    if !g.rst && InSequence(s.c, g) {
      if s.c.phase in {SynRcvd, SynSent} {
        SynCounts(s, g, rto, resp);
      } else if s.c.phase.Established? {
        EstablishedCounts(s, g, rto, resp);
      } else {
        ClosingCounts(s, g, rto, resp);
      }
    }
  }

  /** The application would offer the same piece again. */
  ghost predicate SamePiece(s: State, mss: U16, resp: Response) {
    s.c.http.state.Sending? && s.c.len > 0 && s.h.acked <= |resp| ==>
      Chunk(|resp| - s.h.acked, mss) in {0, s.c.len as int}
  }

  /** A packet is right for a connection: data is the piece of the response that its sequence
      number stands for; an acknowledgement is the next expected number; a FIN of our own
      making comes after the whole response. */
  ghost predicate Right(s: State, out: Out, resp: Response) {
    out.Emit? && !out.p.rst ==>
      && (out.p.data != [] ==> out.p.seqno == Plus(s.h.iss, 1 + s.h.acked)
                               && s.h.acked + |out.p.data| <= |resp|
                               && out.p.data == resp[s.h.acked..s.h.acked + |out.p.data|])
      && (out.p.ack ==> out.p.ackno == s.c.rcvNxt)
      && (out.p.fin ==> out.p.seqno == Plus(s.h.iss, 1 + s.h.acked) && (s.h.acked == |resp| || s.h.finIn))
  }

  // ----- one call of the application and what the transport makes of it -----

  /** Asked again for a piece in transit, the server keeps its record in agreement with the
      transport exactly when it offers the same piece. */
  lemma NotifyExactly(s: State, f: Flags, resp: Response)
    requires Inv(s, resp) && s.c.phase.Established? && f in {F_POLL, NO_FLAGS.(newdata := true)}
    ensures var r := Notify(s, f, resp);
            (Inv(r.0, resp) <==> SamePiece(s, s.c.mss, resp)) && (Inv(r.0, resp) ==> Right(r.0, r.1, resp))
  {
    hide Plus;
    if f == F_POLL {
    } else {
    }
  }

  /** Told of an acknowledgement, it moves on to the next piece, or closes after the last. */
  lemma NotifyAcked(s: State, f: Flags, len: nat, resp: Response)
    requires Sized(s, resp) && s.c.phase.Established? && s.c.len == 0 && !s.h.finIn
    requires s.c.sndNxt == Plus(s.h.iss, 1 + s.h.acked) && s.h.acked <= |resp|
    requires s.c.rcvNxt == Plus(s.h.irs, 1 + |s.h.received|)
    requires s.c.http.state.Sending? && s.c.http.lastSent == len && s.c.http.pos as int + len == s.h.acked
    requires f.ackdata && f == NO_FLAGS.(ackdata := true, newdata := f.newdata)
    ensures var r := Notify(s, f, resp);
            && Inv(r.0, resp) && Right(r.0, r.1, resp)
            && (s.h.acked == |resp| ==> r.0.c.phase.FinWait1? && r.1 == FinOut(r.0.c))
            && (s.h.acked < |resp| && s.c.mss > 0 ==>
                  r.0.c.phase.Established? && r.0.c.len == Chunk(|resp| - s.h.acked, s.c.mss)
                  && r.1.Emit? && |r.1.p.data| == r.0.c.len as int)
  {}

  // ----- one segment -----

  /** The segment makes the server offer again what is in transit. */
  predicate AsksAgain(c: Conn, g: Segment) {
    c.phase.Established? && !g.rst && !g.fin && g.data != [] && InSequence(c, g) && !AcksOutstanding(c, g)
  }

  /** The state and flags with which an in-sequence segment without FIN calls the application. */
  function BeforeCall(s: State, g: Input, rto: U8): State {
    var s0 := s.(buf := Overlay(s.buf, g.data));
    var t := Accept(if AcksOutstanding(s.c, g) then AckTaken(s0, rto) else s0, g.data, false);
    t.(c := t.c.(mss := Usable(g.wnd, t.c.initialMss)))
  }

  function CallFlags(c: Conn, g: Segment): Flags {
    NO_FLAGS.(ackdata := AcksOutstanding(c, g), newdata := g.data != [])
  }

  lemma ArriveIsCall(s: State, g: Input, rto: U8, resp: Response)
    requires Sized(s, resp) && s.c.phase.Established? && !g.rst && !g.fin && InSequence(s.c, g)
    ensures Sized(BeforeCall(s, g, rto), resp)
    ensures Arrive(s, g, rto, resp) ==
            if AcksOutstanding(s.c, g) || g.data != [] then Notify(BeforeCall(s, g, rto), CallFlags(s.c, g), resp)
            else (BeforeCall(s, g, rto), Quiet)
  {
    hide Overlay, Plus, Notify, InSequence;
  }

  lemma EstablishedAcked(s: State, g: Input, rto: U8, resp: Response)
    requires Inv(s, resp) && s.c.phase.Established? && !g.rst && !g.fin && InSequence(s.c, g) && AcksOutstanding(s.c, g)
    ensures var r := Arrive(s, g, rto, resp);
            Inv(r.0, resp) && Right(r.0, r.1, resp)
  {
    ArriveIsCall(s, g, rto, resp);
    PlusPlus(s.h.iss, 1 + s.h.acked, s.c.len as int);
    PlusPlus(s.h.irs, 1 + |s.h.received|, |g.data|);
    hide Overlay, Plus, Arrive, Notify, Right, InSequence;
    NotifyAcked(BeforeCall(s, g, rto), CallFlags(s.c, g), s.c.len as int, resp);
  }

  lemma EstablishedPlain(s: State, g: Input, rto: U8, resp: Response)
    requires Inv(s, resp) && s.c.phase.Established? && !g.rst && !g.fin && InSequence(s.c, g) && !AcksOutstanding(s.c, g)
    ensures var r := Arrive(s, g, rto, resp);
            && (Inv(r.0, resp) <==> (g.data != [] ==> SamePiece(s, Usable(g.wnd, s.c.initialMss), resp)))
            && (Inv(r.0, resp) ==> Right(r.0, r.1, resp))
  {
    ArriveIsCall(s, g, rto, resp);
    PlusPlus(s.h.irs, 1 + |s.h.received|, |g.data|);
    var u := BeforeCall(s, g, rto);
    SamePieceOn(s, u, resp);
    hide Overlay, Plus, Arrive, Notify, InSequence, SamePiece;
    if g.data != [] {
      NotifyExactly(u, CallFlags(s.c, g), resp);
    }
  }

  lemma EstablishedFin(s: State, g: Input, rto: U8, resp: Response)
    requires Inv(s, resp) && s.c.phase.Established? && !g.rst && g.fin && InSequence(s.c, g)
    ensures var r := Arrive(s, g, rto, resp);
            Inv(r.0, resp) && Right(r.0, r.1, resp)
  {
    ArriveCounts(s, g, rto, resp);
    PlusPlus(s.h.iss, 1 + s.h.acked, s.c.len as int);
    hide Overlay, Plus, InSequence;
  }

  lemma SamePieceOn(s: State, u: State, resp: Response)
    requires u.c.http == s.c.http && u.c.len == s.c.len && u.h.acked == s.h.acked
    ensures SamePiece(u, u.c.mss, resp) <==> SamePiece(s, u.c.mss, resp)
  {}

  lemma ArriveOpening(s: State, g: Input, rto: U8, resp: Response)
    requires Inv(s, resp) && s.c.phase in {SynRcvd, SynSent} && !g.rst && InSequence(s.c, g)
    ensures var r := Arrive(s, g, rto, resp);
            Agree(r.0, resp) && Right(r.0, r.1, resp)
  {
    hide Overlay, Piece, Take, Plus, AcksOutstanding, MaxRtx;
  }

  lemma ArriveClosing(s: State, g: Input, rto: U8, resp: Response)
    requires Inv(s, resp) && s.c.phase !in {SynRcvd, SynSent, Established, Closed} && !g.rst && InSequence(s.c, g)
    ensures var r := Arrive(s, g, rto, resp);
            Agree(r.0, resp) && Right(r.0, r.1, resp)
  {
    hide Overlay, Piece, Take, Plus, AcksOutstanding, MaxRtx, AppCall;
  }

  lemma ArriveOther(s: State, g: Input, rto: U8, resp: Response)
    requires Inv(s, resp) && !s.c.phase.Closed? && (s.c.phase.Established? ==> g.rst || !InSequence(s.c, g))
    ensures var r := Arrive(s, g, rto, resp);
            Inv(r.0, resp) && Right(r.0, r.1, resp)
  {
    hide Overlay, Piece, Take, Plus, AcksOutstanding, MaxRtx, AppCall, Dispatch;
    ArriveCounts(s, g, rto, resp);
    if !g.rst && InSequence(s.c, g) {
      if s.c.phase in {SynRcvd, SynSent} {
        ArriveOpening(s, g, rto, resp);
      } else {
        ArriveClosing(s, g, rto, resp);
      }
    }
  }

  /** A segment keeps the invariant, and what is sent in reply is right, exactly when it does
      not make the server offer a different piece than the one in transit. */
  lemma ArriveExactly(s: State, g: Input, rto: U8, resp: Response)
    requires Inv(s, resp) && !s.c.phase.Closed?
    ensures var r := Arrive(s, g, rto, resp);
            && (Inv(r.0, resp) <==> (AsksAgain(s.c, g) ==> SamePiece(s, Usable(g.wnd, s.c.initialMss), resp)))
            && (Inv(r.0, resp) ==> Right(r.0, r.1, resp))
  {
    hide Arrive, Inv, Right, SamePiece;
    if !s.c.phase.Established? || g.rst || !InSequence(s.c, g) {
      ArriveOther(s, g, rto, resp);
    } else if g.fin {
      EstablishedFin(s, g, rto, resp);
    } else if AcksOutstanding(s.c, g) {
      EstablishedAcked(s, g, rto, resp);
    } else {
      EstablishedPlain(s, g, rto, resp);
    }
  }

  // ----- one tick -----

  /** The tick makes the server retransmit. */
  predicate Retransmits(c: Conn) {
    c.phase.Established? && c.len > 0 && c.timer == 0 && c.nrtx != UIP_MAXRTX
  }

  lemma RexmitExactly(s: State, resp: Response)
    requires Inv(s, resp) && s.c.phase.Established? && s.c.len > 0
    ensures var r := Rexmit(s, resp);
            && (Inv(r.0, resp) <==> SamePiece(s, s.c.mss, resp)) && (Inv(r.0, resp) ==> Right(r.0, r.1, resp))
  {
    hide Plus;
  }

  lemma TickExactly(s: State, resp: Response)
    requires Inv(s, resp)
    ensures var r := Tick(s, resp);
            && (Inv(r.0, resp) <==> (Retransmits(s.c) ==> SamePiece(s, s.c.mss, resp)))
            && (Inv(r.0, resp) ==> Right(r.0, r.1, resp))
  {
    hide Plus, Overlay, Piece, Notify;
    if s.c.phase.Established? && s.c.len == 0 {
      NotifyExactly(s, F_POLL, resp);
    } else if Retransmits(s.c) {
      var t := s.(c := s.c.(timer := Backoff(s.c.nrtx as int), nrtx := Add8(s.c.nrtx, 1)));
      SamePieceOn(s, t, resp);
      RexmitExactly(t, resp);
      hide Rexmit, SamePiece, Right;
    } else {
      TickCounting(s, resp);
    }
  }
}
