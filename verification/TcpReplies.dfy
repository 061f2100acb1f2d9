/** What a connection sends: which segments are answered, that what is in transit has been sent
    and is sent again, and that connections only move forward. */
module TcpReplies {
  import opened Httpd
  import opened SeqNumbers
  import opened Tcp
  import opened TcpSafety
  import opened TcpRuns
  import opened Words

  /** An in-sequence segment that gets no answer: nothing is expected any more; or a FIN comes
      while something is in transit; or data is taken, but with it the peer acknowledges our FIN. */
  predicate Unanswered(c: Conn, g: Segment) {
    && InSequence(c, g)
    && (c.phase in {LastAck, ClosingBoth}
        || (c.phase.Established? && g.fin && c.len > 0 && !AcksOutstanding(c, g))
        || (c.phase.FinWait1? && !g.fin && AcksOutstanding(c, g)))
  }

  /** Once the connection is established, every segment with data or a FIN is answered with an
      acknowledgement of all that has been taken, in sequence or not, with exactly these three
      exceptions. */
  lemma AnsweredExactly(s: State, g: Input, rto: U8, resp: Response)
    requires Sized(s, resp) && s.c.phase !in {Closed, SynSent, SynRcvd}
    requires !g.rst && (g.data != [] || g.fin)
    ensures var r := Arrive(s, g, rto, resp);
            (r.1.Emit? && r.1.p.ack && !r.1.p.rst && r.1.p.ackno == r.0.c.rcvNxt) <==> !Unanswered(s.c, g)
  {
    hide Overlay, Piece, Take, Plus;
    match s.c.phase {
      case Established =>
      case LastAck =>
      case ClosingBoth =>
      case FinWait1 =>
      case FinWait2 =>
      case TimeWait =>
    }
  }

  /** The sequence numbers that a packet occupies. */
  function Space(out: Out): nat {
    if out.Quiet? || out.p.rst then 0
    else |out.p.data| + (if out.p.syn then 1 else 0) + if out.p.fin then 1 else 0
  }

  /** From a state with the given sndNxt and len: whatever is sent that occupies sequence numbers
      is exactly what is in transit then; and nothing comes to be in transit without being sent. */
  ghost predicate SentRight(sndNxt: U32, len: U16, r: (State, Out)) {
    && (Space(r.1) > 0 ==> r.1.p.seqno == r.0.c.sndNxt && Space(r.1) == r.0.c.len as int)
    && (r.0.c.len > 0 && (len == 0 || r.0.c.sndNxt != sndNxt) ==> Space(r.1) > 0)
  }

  lemma NotifySent(s: State, f: Flags, resp: Response)
    requires Sized(s, resp)
    ensures SentRight(s.c.sndNxt, s.c.len, Notify(s, f, resp))
  {
    hide Piece, Overlay, AppCall;
  }

  lemma DispatchSent(s: State, g: Input, ad: bool, resp: Response)
    requires Sized(s, resp) && (ad ==> s.c.len == 0)
    ensures SentRight(s.c.sndNxt, s.c.len, Dispatch(s, g, ad, resp))
  {
    hide Notify;
    if s.c.phase.SynRcvd? {
      NotifySent(Accept(s.(c := s.c.(phase := Established)), g.data, false), F_CONNECTED.(newdata := g.data != []), resp);
    } else if s.c.phase.SynSent? {
      var c := WithMss(s.c, g.mss).(phase := Established, rcvNxt := Plus(g.seqno, 1));
      NotifySent(s.(c := c, h := s.h.(irs := g.seqno)), F_CONNECTED.(newdata := true), resp);
    } else if s.c.phase.Established? && !g.fin {
      var t := Accept(s, g.data, false);
      var u := t.(c := t.c.(mss := Usable(g.wnd, t.c.initialMss)));
      NotifySent(u, NO_FLAGS.(ackdata := ad, newdata := g.data != []), resp);
    }
  }

  /** Whatever a step sends that occupies sequence numbers is exactly what is in transit after
      it; and nothing comes to be in transit without being sent in that step. */
  lemma InTransitIsSent(s: State, e: Event, resp: Response)
    requires SeqInv(s, resp) && !s.c.phase.Closed?
    ensures SentRight(s.c.sndNxt, s.c.len, Step(s, e, resp))
  {
    match e
    case Shared(_) =>
    case Timer => hide Piece, Overlay, AppCall;
    case Incoming(g, rto) =>
      if !g.rst && InSequence(s.c, g) {
        var s0 := s.(buf := Overlay(s.buf, g.data));
        var ad := AcksOutstanding(s0.c, g);
        DispatchSent(if ad then AckTaken(s0, rto) else s0, g, ad, resp);
        hide Dispatch;
      }
  }

  /** A due retransmission keeps what is in transit and sends all of it again, the SYN, the FIN or
      the data, except data when no segment size is left to send it with. */
  lemma DueIsResent(s: State, resp: Response)
    requires SeqInv(s, resp) && !s.c.phase.Closed? && !WaitsOut(s.c.phase) && s.c.len > 0 && s.c.timer == 0
    requires s.c.nrtx < MaxRtx(s.c.phase)
    ensures var r := Tick(s, resp);
            && r.0.c.len == s.c.len && r.0.c.sndNxt == s.c.sndNxt && r.0.c.nrtx == s.c.nrtx + 1
            && if s.c.phase.Established? && s.c.mss == 0 then r.1 == Quiet
               else Space(r.1) == s.c.len as int && r.1.p.seqno == s.c.sndNxt
                    && (r.1.p.syn <==> s.c.phase in {SynRcvd, SynSent})
                    && (r.1.p.fin <==> s.c.phase in {FinWait1, ClosingBoth, LastAck})
  {
    hide Piece, Overlay, Plus;
  }

  /** How far a connection has come. */
  function Stage(p: Phase): nat {
    match p
    case SynSent => 0
    case SynRcvd => 0
    case Established => 1
    case FinWait1 => 2
    case LastAck => 2
    case FinWait2 => 3
    case ClosingBoth => 3
    case TimeWait => 4
    case Closed => 5
  }

  lemma StageStep(s: State, e: Event, resp: Response)
    requires Sized(s, resp)
    ensures var p, q := s.c.phase, Step(s, e, resp).0.c.phase;
            q == p || Stage(p) < Stage(q)
  {
    hide Overlay, Piece, Take, Plus, Notify, AppCall;
  }

  /** A connection moves forward only: it never returns to a phase it has left. */
  lemma {:induction false} NeverReopens(s: State, es: seq<Event>, resp: Response)
    requires Sized(s, resp)
    ensures var p, q := s.c.phase, Final(s, es, resp).c.phase;
            q == p || Stage(p) < Stage(q)
    decreases |es|
  {
    if es != [] {
      StageStep(s, es[0], resp);
      hide Step;
      NeverReopens(Step(s, es[0], resp).0, es[1..], resp);
    }
  }
}
