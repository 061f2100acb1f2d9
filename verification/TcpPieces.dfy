/** When the window is not full: what the server sends if the piece it offers is not the one in
    transit, and what follows from that. */
module TcpPieces {
  import opened Httpd
  import opened SeqNumbers
  import opened Tcp
  import opened TcpSafety
  import opened TcpRuns
  import opened Words

  /** A packet for a piece of len bytes at the front of a buffer that holds only n bytes of the
      response, from position k on: it has the right length and place, but behind those n bytes
      it carries whatever else is in the buffer. */
  ghost predicate Stale(out: Out, s: State, n: nat, buf: seq<U8>, resp: Response)
    requires n <= s.c.len as int <= |buf|
  {
    && out.Emit? && |out.p.data| == s.c.len as int && out.p.seqno == Plus(s.h.iss, 1 + s.h.acked)
    && s.h.acked + n <= |resp| && out.p.data[..n] == resp[s.h.acked..s.h.acked + n]
    && out.p.data[n..] == buf[n..s.c.len]
  }

  lemma FrontAndRest(buf: seq<U8>, piece: seq<U8>, len: nat)
    requires |piece| <= len <= |buf|
    ensures Take(Overlay(buf, piece), len)[..|piece|] == piece
    ensures Take(Overlay(buf, piece), len)[|piece|..] == buf[|piece|..len]
  {}

  /** An in-sequence segment that asks again for what is in transit while the window allows only
      n of its bytes: behind them goes what the segment has left in the buffer, its own data. */
  lemma StaleBytes(s: State, g: Input, rto: U8, resp: Response)
    requires Inv(s, resp) && AsksAgain(s.c, g) && s.c.http.state.Sending?
    requires 0 < Chunk(|resp| - s.h.acked, Usable(g.wnd, s.c.initialMss) as int) < s.c.len as int
    ensures Stale(Arrive(s, g, rto, resp).1, s, Chunk(|resp| - s.h.acked, Usable(g.wnd, s.c.initialMss) as int),
                  Overlay(s.buf, g.data), resp)
  {
    ArriveIsCall(s, g, rto, resp);
    var n := Chunk(|resp| - s.h.acked, Usable(g.wnd, s.c.initialMss) as int);
    FrontAndRest(Overlay(s.buf, g.data), Piece(resp, s.h.acked, n), s.c.len as int);
    hide Arrive, Overlay, Take, InSequence;
  }

  /** A due retransmission after the window has become smaller: behind the n bytes goes whatever
      the shared buffer holds. */
  lemma TickStale(s: State, resp: Response)
    requires Inv(s, resp) && Retransmits(s.c) && s.c.http.state.Sending?
    requires 0 < Chunk(|resp| - s.h.acked, s.c.mss as int) < s.c.len as int
    ensures Stale(Tick(s, resp).1, s, Chunk(|resp| - s.h.acked, s.c.mss as int), s.buf, resp)
  {
    var n := Chunk(|resp| - s.h.acked, s.c.mss as int);
    FrontAndRest(s.buf, Piece(resp, s.h.acked, n), s.c.len as int);
    hide Overlay, Take;
  }

  /** A longer piece is sent right, but recorded longer than it is. */
  ghost predicate Ahead(s: State, d: nat) {
    && s.c.phase.Established? && s.c.http.state.Sending? && s.c.len > 0
    && s.c.http.pos == s.h.acked && s.c.http.lastSent as int == s.c.len as int + d
  }

  lemma LongerArrives(s: State, g: Input, rto: U8, resp: Response)
    requires Inv(s, resp) && AsksAgain(s.c, g) && s.c.http.state.Sending?
    requires Chunk(|resp| - s.h.acked, Usable(g.wnd, s.c.initialMss) as int) > s.c.len as int > 0
    ensures var r := Arrive(s, g, rto, resp);
            && Right(r.0, r.1, resp) && SeqInv(r.0, resp)
            && Ahead(r.0, Chunk(|resp| - s.h.acked, Usable(g.wnd, s.c.initialMss) as int) - s.c.len as int)
  {
    ArriveCounts(s, g, rto, resp);
    ArriveIsCall(s, g, rto, resp);
    hide Arrive, InSequence;
  }

  lemma LongerResent(s: State, resp: Response)
    requires Inv(s, resp) && Retransmits(s.c) && s.c.http.state.Sending?
    requires Chunk(|resp| - s.h.acked, s.c.mss as int) > s.c.len as int
    ensures var r := Tick(s, resp);
            && Right(r.0, r.1, resp) && SeqInv(r.0, resp)
            && Ahead(r.0, Chunk(|resp| - s.h.acked, s.c.mss as int) - s.c.len as int)
  {
    TickCounting(s, resp);
  }

  /** Once that is acknowledged the server's position is d bytes ahead of the transport, and the
      next packet carries the response d bytes further on than its sequence number says. */
  lemma RunsAhead(s: State, d: nat, g: Input, rto: U8, resp: Response)
    requires SeqInv(s, resp) && Ahead(s, d) && !g.rst && !g.fin && InSequence(s.c, g) && AcksOutstanding(s.c, g)
    ensures var r := Arrive(s, g, rto, resp);
            var k := s.h.acked + s.c.len as int;
            && r.0.h.acked == k && r.0.c.http.pos as int == k + d
            && (r.1.Emit? && r.1.p.data != [] ==>
                  && r.1.p.seqno == Plus(s.h.iss, 1 + k) && k + d + |r.1.p.data| <= |resp|
                  && r.1.p.data == resp[k + d..k + d + |r.1.p.data|])
  {
    ArriveIsCall(s, g, rto, resp);
    PlusPlus(s.h.iss, 1 + s.h.acked, s.c.len as int);
    hide Arrive, InSequence, Plus;
  }

  // ----- a run -----

  /** A connection slot that has never been used. */
  function Unused(): State {
    State(Conn(Closed, 0, 0, 0, 0, 0, 0, 0, 0, Http(Waiting, false, 0, 0, 0)), Hist(0, 0, [], false, 0),
          seq(UIP_TCP_MSS, _ => 0))
  }

  function Bytes(n: nat, b: U8): (s: seq<U8>)
    ensures |s| == n && forall i :: 0 <= i < n ==> s[i] == b
  {
    seq(n, _ => b)
  }

  /** The peer's segments of the run: a SYN that allows ten bytes a segment, the acknowledgement
      of ours, a request, and six more bytes with a window of four. */
  function PeerSyn(): Input { Segment(0, 0, true, false, false, false, false, 10, Some(10), []) }

  function PeerAck(): Input { Segment(1, 1, false, false, false, false, true, 10, None, []) }

  function PeerRequest(): Input { Segment(1, 1, false, false, false, false, true, 10, None, [5]) }

  function PeerMore(): Input { Segment(2, 1, false, false, false, false, true, 4, None, [9, 9, 9, 9, 9, 9]) }

  function Opened(): State { Listen(Unused(), PeerSyn(), 0).0 }

  function Run(): seq<Event> {
    [Incoming(PeerAck(), 3), Incoming(PeerRequest(), 3), Incoming(PeerMore(), 3)]
  }

  lemma Greeted(resp: Response)
    requires resp == Bytes(20, 7)
    ensures Sized(Opened(), resp)
    ensures var t := Step(Opened(), Run()[0], resp).0;
            && SeqInv(t, resp) && Sized(t, resp) && t.h == Hist(0, 0, [], false, 0)
            && t.c == Conn(Established, 1, 1, 0, 10, 10, 3, 3, 0, Http(Waiting, false, 0, 0, 0))
  {
    assert SeqInv(Opened(), resp);
    SeqStep(Opened(), Run()[0], resp);
  }

  lemma Requested(t: State, resp: Response)
    requires resp == Bytes(20, 7) && SeqInv(t, resp) && Sized(t, resp) && t.h == Hist(0, 0, [], false, 0)
    requires t.c == Conn(Established, 1, 1, 0, 10, 10, 3, 3, 0, Http(Waiting, false, 0, 0, 0))
    ensures var u := Step(t, Run()[1], resp).0;
            && Inv(u, resp) && u.h == Hist(0, 0, [5], false, 0)
            && u.c == Conn(Established, 2, 1, 10, 10, 10, 3, 3, 0, Http(Sending, true, 20, 0, 10))
  {
    ArriveIsCall(t, PeerRequest(), 3, resp);
    SeqStep(t, Run()[1], resp);
    hide Overlay, Piece, Arrive;
  }

  /** The last segment makes the server offer four bytes while ten are in transit. */
  lemma SentMore(u: State, resp: Response)
    requires resp == Bytes(20, 7) && Inv(u, resp) && u.h == Hist(0, 0, [5], false, 0)
    requires u.c == Conn(Established, 2, 1, 10, 10, 10, 3, 3, 0, Http(Sending, true, 20, 0, 10))
    ensures var out := Step(u, Run()[2], resp).1;
            out.Emit? && !out.p.rst && |out.p.data| == 10 && out.p.data[4] == 9
  {
    StaleBytes(u, PeerMore(), 3, resp);
    hide Arrive;
    var p := Step(u, Run()[2], resp).1.p;
    assert p.data[4] == p.data[4..][0] == Overlay(u.buf, PeerMore().data)[4..10][0] == 9;
  }

  lemma NotThere(resp: Response, data: seq<U8>, i: nat, k: nat)
    requires i < |data| && data[i] !in resp
    ensures !PieceAt(resp, k, data)
  {
    assert k + |data| <= |resp| ==> resp[k..k + |data|][i] == resp[k + i];
  }

  lemma NotOfIt(p: Packet, iss: U32, resp: Response, i: nat)
    requires i < |p.data| && p.data[i] !in resp && !p.rst
    ensures !Carries(p, iss, resp)
  {
    hide Plus, PieceAt;
    forall k: nat
      ensures !PieceAt(resp, k, p.data)
    {
      NotThere(resp, p.data, i, k);
    }
  }

  lemma BeforeMore(resp: Response) returns (u: State)
    requires resp == Bytes(20, 7)
    ensures Sized(Opened(), resp) && u == Step(Step(Opened(), Run()[0], resp).0, Run()[1], resp).0
    ensures Inv(u, resp) && u.h == Hist(0, 0, [5], false, 0)
    ensures u.c == Conn(Established, 2, 1, 10, 10, 10, 3, 3, 0, Http(Sending, true, 20, 0, 10))
  {
    hide Opened, Step, Inv, Sized;
    Greeted(resp);
    var t := Step(Opened(), Run()[0], resp).0;
    Requested(t, resp);
    u := Step(t, Run()[1], resp).0;
  }

  /** From the SYN on, a run in which a packet carries bytes that are not in the response at all. */
  lemma ShrunkWindowIsUnsafe() returns (resp: Response, p: Packet)
    ensures Sized(Opened(), resp) && Emit(p) in Outs(Opened(), Run(), resp)
    ensures !Carries(p, Opened().h.iss, resp)
  {
    hide Opened, Step, Inv, Sized, Outs, Carries;
    resp := Bytes(20, 7);
    var u := BeforeMore(resp);
    SentMore(u, resp);
    OutsOfThree(Opened(), Run(), resp);
    p := Step(u, Run()[2], resp).1.p;
    NotOfIt(p, Opened().h.iss, resp, 4);
  }

  lemma OutsOfThree(s: State, es: seq<Event>, resp: Response)
    requires Sized(s, resp) && |es| == 3
    ensures var t := Step(s, es[0], resp).0; var u := Step(t, es[1], resp).0;
            Step(u, es[2], resp).1 in Outs(s, es, resp)
  {
    var t := Step(s, es[0], resp).0;
    var u := Step(t, es[1], resp).0;
    var e1, e2 := es[1..], es[1..][1..];
    hide Step;
    assert Outs(u, e2, resp)[0] == Step(u, e2[0], resp).1;
    assert Outs(t, e1, resp)[1] == Outs(u, e2, resp)[0];
    assert Outs(s, es, resp)[2] == Outs(t, e1, resp)[1];
  }
}
