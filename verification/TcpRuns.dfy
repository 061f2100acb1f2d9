/** Whole runs of a connection: a peer and a network that may lose, repeat and reorder anything,
    interleaved with timer ticks. */
module TcpRuns {
  import opened SeqNumbers
  import opened Httpd
  import opened Tcp
  import opened TcpSafety
  import opened Words

  /** Shared stands for whatever other connections and ARP do to the packet buffer. */
  datatype Event = Incoming(g: Input, rto: U8) | Timer | Shared(buf: seq<U8>)

  /** A closed connection receives nothing more: its segments are not matched to it. */
  function Step(s: State, e: Event, resp: Response): (r: (State, Out))
    requires Sized(s, resp)
    ensures Sized(r.0, resp)
  {
    match e
    case Timer => Tick(s, resp)
    case Incoming(g, rto) => if s.c.phase.Closed? then (s, Quiet) else Arrive(s, g, rto, resp)
    case Shared(buf) => (if |buf| == UIP_TCP_MSS then s.(buf := buf) else s, Quiet)
  }

  function Final(s: State, es: seq<Event>, resp: Response): (r: State)
    requires Sized(s, resp)
    ensures Sized(r, resp)
    decreases |es|
  {
    if es == [] then s else Final(Step(s, es[0], resp).0, es[1..], resp)
  }

  /** Everything sent in a run, in order. */
  function Outs(s: State, es: seq<Event>, resp: Response): seq<Out>
    requires Sized(s, resp)
    decreases |es|
  {
    if es == [] then [] else [Step(s, es[0], resp).1] + Outs(Step(s, es[0], resp).0, es[1..], resp)
  }

  // ----- the counting, over every run -----

  /** Whatever arrives, whatever the windows: every step keeps the sequence numbers and the
      length in transit counting what has been exchanged. */
  lemma SeqStep(s: State, e: Event, resp: Response)
    requires SeqInv(s, resp)
    ensures SeqInv(Step(s, e, resp).0, resp)
  {
    match e
    case Timer => TickCounting(s, resp);
    case Incoming(g, rto) => if !s.c.phase.Closed? { ArriveCounts(s, g, rto, resp); }
    case Shared(_) =>
  }

  lemma {:induction false} SequenceCounts(s: State, es: seq<Event>, resp: Response)
    requires SeqInv(s, resp)
    ensures SeqInv(Final(s, es, resp), resp) && Final(s, es, resp).h.iss == s.h.iss
    decreases |es|
  {
    if es != [] {
      SeqStep(s, es[0], resp);
      HistoryGrows(s, es[0], resp);
      hide Step, SeqInv;
      SequenceCounts(Step(s, es[0], resp).0, es[1..], resp);
    }
  }

  // ----- runs with windows of zero or at least the initial segment size -----

  predicate FullWindow(c: Conn, e: Event) {
    e.Incoming? ==> e.g.wnd == 0 || e.g.wnd >= c.initialMss
  }

  predicate FullWindows(s: State, es: seq<Event>, resp: Response)
    requires Sized(s, resp)
    decreases |es|
  {
    es == [] || (FullWindow(s.c, es[0]) && FullWindows(Step(s, es[0], resp).0, es[1..], resp))
  }

  /** While the response is being sent the segment size is the initial one, and what is in
      transit is a full piece of what remains. */
  ghost predicate Steady(s: State, resp: Response) {
    s.c.phase.Established? && s.c.http.state.Sending? && s.h.acked <= |resp| ==>
      s.c.mss == s.c.initialMss && (s.c.len > 0 ==> s.c.len == Chunk(|resp| - s.h.acked, s.c.mss))
  }

  lemma ArriveSteady(s: State, g: Input, rto: U8, resp: Response)
    requires Inv(s, resp) && Steady(s, resp) && s.c.phase.Established? && (g.wnd == 0 || g.wnd >= s.c.initialMss)
    requires !g.rst && !g.fin && InSequence(s.c, g)
    ensures Steady(Arrive(s, g, rto, resp).0, resp)
  {
    ArriveIsCall(s, g, rto, resp);
    hide Overlay, Piece, Take, Reply, Plus, InSequence, Arrive;
  }

  lemma SteadyArrive(s: State, g: Input, rto: U8, resp: Response)
    requires Inv(s, resp) && Steady(s, resp) && !s.c.phase.Closed? && (g.wnd == 0 || g.wnd >= s.c.initialMss)
    ensures var r := Arrive(s, g, rto, resp);
            Inv(r.0, resp) && Steady(r.0, resp) && Right(r.0, r.1, resp)
  {
    ArriveExactly(s, g, rto, resp);
    hide Right;
    if s.c.phase.Established? && !g.rst && !g.fin && InSequence(s.c, g) {
      ArriveSteady(s, g, rto, resp);
    } else {
      hide Overlay, Piece, Take, Reply, Plus;
    }
  }

  lemma SteadyStep(s: State, e: Event, resp: Response)
    requires Inv(s, resp) && Steady(s, resp) && FullWindow(s.c, e)
    ensures var r := Step(s, e, resp);
            Inv(r.0, resp) && Steady(r.0, resp) && Right(r.0, r.1, resp)
  {
    match e
    case Timer => TickExactly(s, resp);
    case Incoming(g, rto) =>
      hide Arrive, Right;
      if !s.c.phase.Closed? {
        SteadyArrive(s, g, rto, resp);
      }
    case Shared(_) =>
  }

  /** What a step may change of the history. */
  lemma HistoryGrows(s: State, e: Event, resp: Response)
    requires Sized(s, resp)
    ensures var h := Step(s, e, resp).0.h;
            h.iss == s.h.iss && (s.h.finIn ==> h.finIn) && s.h.received <= h.received && s.h.acked <= h.acked
  {
    match e
    case Timer =>
    case Incoming(g, rto) =>
      if !s.c.phase.Closed? && !g.rst && InSequence(s.c, g) {
        var s0 := s.(buf := Overlay(s.buf, g.data));
        var ad := AcksOutstanding(s0.c, g);
        DispatchGrows(if ad then AckTaken(s0, rto) else s0, g, ad, resp);
      }
    case Shared(_) =>
  }

  lemma DispatchGrows(s: State, g: Input, ad: bool, resp: Response)
    requires Sized(s, resp)
    ensures var h := Dispatch(s, g, ad, resp).0.h;
            h.iss == s.h.iss && (s.h.finIn ==> h.finIn) && s.h.received <= h.received && s.h.acked == h.acked
  {
    hide Overlay, Piece, Take, Notify, AppCall;
  }

  ghost predicate PieceAt(stream: seq<U8>, k: nat, data: seq<U8>) {
    k + |data| <= |stream| && data == stream[k..k + |data|]
  }

  /** A packet that carries response bytes carries those that its sequence number stands for. */
  ghost predicate Carries(p: Packet, iss: U32, resp: Response) {
    p.data != [] && !p.rst ==>
      exists k: nat :: PieceAt(resp, k, p.data) && p.seqno == Plus(iss, 1 + k)
  }

  /** The end of our stream, unless the peer ended its own first, is after the whole response. */
  ghost predicate EndsRight(p: Packet, iss: U32, peerEnded: bool, resp: Response) {
    p.fin && !p.rst && !peerEnded ==> p.seqno == Plus(iss, 1 + |resp|)
  }

  lemma RightCarries(s: State, out: Out, resp: Response)
    requires Right(s, out, resp) && out.Emit?
    ensures Carries(out.p, s.h.iss, resp) && EndsRight(out.p, s.h.iss, s.h.finIn, resp)
  {
    if out.p.data != [] && !out.p.rst {
      assert PieceAt(resp, s.h.acked, out.p.data);
    }
  }

  lemma InvSized(s: State, resp: Response)
    requires Inv(s, resp)
    ensures Sized(s, resp)
  {}

  lemma {:induction false} ResponseSafe(s: State, es: seq<Event>, resp: Response)
    requires Inv(s, resp) && Steady(s, resp) && FullWindows(s, es, resp)
    ensures Inv(Final(s, es, resp), resp) && Final(s, es, resp).h.iss == s.h.iss
    ensures s.h.finIn ==> Final(s, es, resp).h.finIn
    ensures forall i :: 0 <= i < |Outs(s, es, resp)| && Outs(s, es, resp)[i].Emit? ==>
              && Carries(Outs(s, es, resp)[i].p, s.h.iss, resp)
              && EndsRight(Outs(s, es, resp)[i].p, s.h.iss, Final(s, es, resp).h.finIn, resp)
    decreases |es|
  {
    hide Inv, Steady, Right, Step, Carries, EndsRight, FullWindow, Sized;
    InvSized(s, resp);
    if es != [] {
      var r := Step(s, es[0], resp);
      SteadyStep(s, es[0], resp);
      if r.1.Emit? { RightCarries(r.0, r.1, resp); }
      HistoryGrows(s, es[0], resp);
      ResponseSafe(r.0, es[1..], resp);
      var outs, rest := Outs(s, es, resp), Outs(r.0, es[1..], resp);
      assert outs == [r.1] + rest;
      forall i | 0 <= i < |outs| && outs[i].Emit?
        ensures Carries(outs[i].p, s.h.iss, resp)
                && EndsRight(outs[i].p, s.h.iss, Final(s, es, resp).h.finIn, resp)
      {
        if i > 0 {
          assert outs[i] == rest[i - 1];
        } else {
          EndsLater(r.1.p, s.h.iss, r.0.h.finIn, Final(s, es, resp).h.finIn, resp);
        }
      }
    }
  }

  lemma EndsLater(p: Packet, iss: U32, ended: bool, later: bool, resp: Response)
    requires EndsRight(p, iss, ended, resp) && (ended ==> later)
    ensures EndsRight(p, iss, later, resp)
  {}

  /** A server connection just opened by a SYN starts such a run. */
  lemma ListenStarts(s: State, g: Input, iss: U32, resp: Response)
    requires Sized(s, resp)
    ensures var r := Listen(s, g, iss);
            Inv(r.0, resp) && Steady(r.0, resp) && r.0.h.iss == iss && r.0.h.irs == g.seqno && r.0.c.phase.SynRcvd?
  {}

  lemma ConnectStarts(s: State, iss: U32, resp: Response)
    requires Sized(s, resp)
    ensures Inv(Connect(s, iss), resp) && Steady(Connect(s, iss), resp) && Connect(s, iss).h.iss == iss
  {}

  // ----- the peer's view -----

  /** A receiver that takes segments in whatever order they come and keeps those that extend
      what it has. */
  function Assemble(got: seq<U8>, ps: seq<Packet>, iss: U32): seq<U8>
    decreases |ps|
  {
    if ps == [] then got
    else if ps[0].data != [] && !ps[0].rst && ps[0].seqno == Plus(iss, 1 + |got|) then
      Assemble(got + ps[0].data, ps[1..], iss)
    else Assemble(got, ps[1..], iss)
  }

  /** Whatever subset of the packets reaches it, in whatever order, the receiver has a prefix
      of the response. */
  lemma {:induction false} ReceiverGetsPrefix(got: seq<U8>, ps: seq<Packet>, iss: U32, resp: Response)
    requires got <= resp && forall i :: 0 <= i < |ps| ==> Carries(ps[i], iss, resp)
    ensures Assemble(got, ps, iss) <= resp
    decreases |ps|
  {
    if ps != [] {
      var p := ps[0];
      assert Carries(p, iss, resp);
      if p.data != [] && !p.rst && p.seqno == Plus(iss, 1 + |got|) {
        var k: nat :| PieceAt(resp, k, p.data) && p.seqno == Plus(iss, 1 + k);
        PlusInjective(iss, 1 + |got|, 1 + k);
        ReceiverGetsPrefix(got + p.data, ps[1..], iss, resp);
      } else {
        ReceiverGetsPrefix(got, ps[1..], iss, resp);
      }
    }
  }

  /** End to end: of a server connection opened by a SYN, whatever packets of its run arrive at
      the peer, in whatever order and however often, the peer assembles a prefix of the
      response. */
  lemma EndToEnd(s: State, g: Input, iss: U32, es: seq<Event>, ps: seq<Packet>, resp: Response)
    requires Sized(s, resp) && FullWindows(Listen(s, g, iss).0, es, resp)
    requires forall i :: 0 <= i < |ps| ==> Emit(ps[i]) in Outs(Listen(s, g, iss).0, es, resp)
    ensures Assemble([], ps, iss) <= resp
  {
    ListenStarts(s, g, iss, resp);
    ResponseSafe(Listen(s, g, iss).0, es, resp);
    forall i | 0 <= i < |ps|
      ensures Carries(ps[i], iss, resp)
    {
      assert Emit(ps[i]) in Outs(Listen(s, g, iss).0, es, resp);
    }
    ReceiverGetsPrefix([], ps, iss, resp);
  }

  // ----- the other direction: what the server takes from the peer -----

  /** rcvNxt counts what was taken; nothing is taken after a FIN.  This needs no assumption on
      windows. */
  ghost predicate RcvInv(s: State) {
    !s.c.phase.Closed? && !s.c.phase.SynSent? ==>
      && s.c.rcvNxt == Plus(s.h.irs, 1 + |s.h.received| + if s.h.finIn then 1 else 0)
      && (s.h.finIn <==> s.c.phase in {TimeWait, ClosingBoth, LastAck})
  }

  lemma ReceiveStep(s: State, e: Event, resp: Response)
    requires Sized(s, resp) && RcvInv(s) && !s.c.phase.SynSent?
    ensures var r := Step(s, e, resp).0;
            && RcvInv(r) && !r.c.phase.SynSent? && r.h.irs == s.h.irs
            && (r.h.received == s.h.received ||
                (e.Incoming? && !s.h.finIn && e.g.data != [] && e.g.seqno == Plus(s.h.irs, 1 + |s.h.received|)
                 && r.h.received == s.h.received + e.g.data))
  {
    var n := 1 + |s.h.received|;
    match e
    case Timer =>
    case Incoming(g, rto) =>
      PlusPlus(s.h.irs, n, |g.data|);
      PlusPlus(s.h.irs, n, |g.data| + 1);
      PlusPlus(s.h.irs, n, 0);
      assert s.h.received + [] == s.h.received;
      if !s.c.phase.Closed? && !g.rst && InSequence(s.c, g) {
        DispatchReceives(s, g, rto, resp);
      }
    case Shared(_) =>
  }

  lemma DispatchReceives(s: State, g: Input, rto: U8, resp: Response)
    requires Sized(s, resp) && RcvInv(s) && !s.c.phase.SynSent? && !s.c.phase.Closed?
    requires !g.rst && InSequence(s.c, g)
    ensures var r := Arrive(s, g, rto, resp).0;
            && RcvInv(r) && !r.c.phase.SynSent? && r.h.irs == s.h.irs
            && (r.h.received == s.h.received || (!s.h.finIn && r.h.received == s.h.received + g.data))
  {
    hide Overlay, Piece, Take, Notify, AppCall;
    var n := 1 + |s.h.received|;
    PlusPlus(s.h.irs, n, |g.data|);
    PlusPlus(s.h.irs, n, |g.data| + 1);
  }

  /** The segment carries the part of the peer's stream that its sequence number stands for. */
  ghost predicate FromStream(e: Event, irs: U32, stream: seq<U8>) {
    e.Incoming? && e.g.data != [] ==>
      exists k: nat :: PieceAt(stream, k, e.g.data) && e.g.seqno == Plus(irs, 1 + k)
  }

  /** What a segment adds is the next part of the stream. */
  lemma TakesNext(s: State, e: Event, stream: seq<U8>, resp: Response)
    requires Sized(s, resp) && RcvInv(s) && !s.c.phase.SynSent? && |stream| < 0xffff_ffff
    requires s.h.received <= stream && FromStream(e, s.h.irs, stream)
    ensures var t := Step(s, e, resp).0;
            && RcvInv(t) && !t.c.phase.SynSent? && t.h.irs == s.h.irs
            && s.h.received <= t.h.received <= stream
  {
    hide Step, Sized, RcvInv, Plus;
    ReceiveStep(s, e, resp);
    if Step(s, e, resp).0.h.received != s.h.received {
      var k: nat :| PieceAt(stream, k, e.g.data) && e.g.seqno == Plus(s.h.irs, 1 + k);
      PlusInjective(s.h.irs, 1 + k, 1 + |s.h.received|);
    }
  }

  /** However the network loses, repeats and reorders segments of the peer's stream, the server
      takes a prefix of it. */
  lemma {:induction false} InOrder(s: State, es: seq<Event>, stream: seq<U8>, resp: Response)
    requires Sized(s, resp) && RcvInv(s) && !s.c.phase.SynSent? && |stream| < 0xffff_ffff
    requires s.h.received <= stream && forall i :: 0 <= i < |es| ==> FromStream(es[i], s.h.irs, stream)
    ensures s.h.received <= Final(s, es, resp).h.received <= stream
    decreases |es|
  {
    hide Step, Sized, RcvInv, FromStream;
    if es != [] {
      TakesNext(s, es[0], stream, resp);
      var t := Step(s, es[0], resp).0;
      InOrder(t, es[1..], stream, resp);
    }
  }
}
