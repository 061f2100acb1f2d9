/** One TCP connection of the stop-and-wait engine serving the web server, as a state machine:
    what an incoming segment, and what a timer tick, does to it. */
module Tcp {
  import opened SeqNumbers
  import opened Httpd
  import opened Words

  const UIP_RTO := 3
  const UIP_MAXRTX := 8
  const UIP_MAXSYNRTX := 5
  const UIP_TIME_WAIT_TIMEOUT := 120
  const UIP_TCP_MSS := 366        // a 420-byte buffer less 14 bytes of link and 40 of TCP/IP header

  datatype Phase = Closed | SynRcvd | SynSent | Established | FinWait1 | FinWait2 | TimeWait | ClosingBoth | LastAck

  datatype Conn = Conn(phase: Phase, rcvNxt: U32, sndNxt: U32, len: U16, mss: U16, initialMss: U16,
                       rto: U8, timer: U8, nrtx: U8, http: Http)

  /** What has happened on the connection: the initial sequence numbers, the bytes taken from
      the peer, whether its FIN was taken, and how many response bytes it has acknowledged. */
  datatype Hist = Hist(iss: U32, irs: U32, received: seq<U8>, finIn: bool, acked: nat)

  /** buf is the part of the packet buffer behind the headers. */
  datatype State = State(c: Conn, h: Hist, buf: seq<U8>)

  datatype Segment = Segment(seqno: U32, ackno: U32, syn: bool, fin: bool, rst: bool, psh: bool, ack: bool,
                             wnd: U16, mss: Option<U16>, data: seq<U8>)

  datatype Packet = Packet(syn: bool, fin: bool, rst: bool, psh: bool, ack: bool, seqno: U32, ackno: U32, data: seq<U8>)

  datatype Out = Quiet | Emit(p: Packet)

  type Input = g: Segment | |g.data| <= UIP_TCP_MSS witness Segment(0, 0, false, false, false, false, false, 0, None, [])

  // ----- packets sent -----

  function Reply(c: Conn, syn: bool, fin: bool, rst: bool, ack: bool, data: seq<U8>): Out {
    Emit(Packet(syn, fin, rst, data != [], ack, c.sndNxt, c.rcvNxt, data))
  }

  function AckOut(c: Conn): Out { Reply(c, false, false, false, true, []) }

  function FinOut(c: Conn): Out { Reply(c, false, true, false, true, []) }

  function SynOut(c: Conn, ack: bool): Out { Reply(c, true, false, false, ack, []) }

  function RstOut(c: Conn): Out { Reply(c, false, false, true, true, []) }

  /** The reset that answers a segment that belongs to no connection, or not to this one. */
  function Refusal(g: Segment): Out {
    Emit(Packet(false, false, true, false, true, g.ackno, Plus(g.seqno, 1), []))
  }

  // ----- steps -----

  function Overlay(buf: seq<U8>, data: seq<U8>): (r: seq<U8>)
    ensures |data| <= |buf| ==> |r| == |buf|
  {
    if |data| <= |buf| then data + buf[|data|..] else data
  }

  /** The option that every SYN of ours carries, where other packets have their data. */
  function MssOption(): (o: seq<U8>)
    ensures |o| == 4
  {
    [2, 4, UIP_TCP_MSS / 256, UIP_TCP_MSS % 256]
  }

  function WithOption(buf: seq<U8>): (r: seq<U8>)
    ensures |buf| == UIP_TCP_MSS ==> |r| == UIP_TCP_MSS
  {
    Overlay(buf, MssOption())
  }

  function Take(s: seq<U8>, n: nat): (r: seq<U8>) { if n <= |s| then s[..n] else s }

  function Piece(resp: Response, at: nat, n: nat): (r: seq<U8>)
    ensures at + n <= |resp| ==> |r| == n
  {
    if at + n <= |resp| then resp[at..at + n] else []
  }

  predicate Sized(s: State, resp: Response) {
    && |s.buf| == UIP_TCP_MSS && s.c.mss <= UIP_TCP_MSS && s.c.initialMss <= UIP_TCP_MSS
    && s.c.len <= UIP_TCP_MSS && InBounds(s.c.http, resp)
  }

  /** Call the application; what it sends goes to the front of the buffer. */
  function CallApp(s: State, f: Flags, resp: Response): (r: (State, Action))
    requires Sized(s, resp)
    ensures Sized(r.0, resp) && r.0.h == s.h && r.0.c == s.c.(http := r.0.c.http)
    ensures (r.1.Send? ==> 0 < r.1.len <= s.c.mss) && !r.1.Abort?
  {
    var a := AppCall(s.c.http, f, s.c.mss, resp);
    var buf := if a.1.Send? then Overlay(s.buf, Piece(resp, a.1.at, a.1.len)) else s.buf;
    (State(s.c.(http := a.0), s.h, buf), a.1)
  }

  /** Send what is in transit from the front of the buffer, or else acknowledge new data. */
  function Transmit(s: State, f: Flags, slen: nat): Out {
    if slen > 0 && s.c.len > 0 then Reply(s.c, false, false, false, true, Take(s.buf, s.c.len))
    else if f.newdata then AckOut(s.c)
    else Quiet
  }

  /** Act on the application's request.  New data, cut to the segment size, replaces nothing or
      what has just been acknowledged; anything else is taken as a request to send again what
      is in transit. */
  function AppSend(s: State, f: Flags, a: Action, resp: Response): (r: (State, Out))
    requires Sized(s, resp)
    ensures Sized(r.0, resp)
  {
    if a.Abort? then
      var t := s.(c := s.c.(phase := Closed));
      (t, RstOut(t.c))
    else if a.Close? then
      var t := s.(c := s.c.(phase := FinWait1, len := 1, nrtx := 0));
      (t, FinOut(t.c))
    else if !a.Send? || a.len == 0 then
      var t := s.(c := s.c.(nrtx := 0));
      (t, Transmit(t, f, 0))
    else
      var len: U16 := if f.ackdata || s.c.len == 0 then Min(a.len, s.c.mss) else s.c.len;
      var t := s.(c := s.c.(len := len, nrtx := 0));
      (t, Transmit(t, f, len))
  }

  function Notify(s: State, f: Flags, resp: Response): (r: (State, Out))
    requires Sized(s, resp)
    ensures Sized(r.0, resp) && r.0.h == s.h && r.0.c.rcvNxt == s.c.rcvNxt && r.0.c.sndNxt == s.c.sndNxt
    ensures r.0.c.phase == s.c.phase || r.0.c.phase.FinWait1?
  {
    var a := CallApp(s, f, resp);
    AppSend(a.0, f, a.1, resp)
  }

  /** Take in-sequence data, and the FIN behind it if there is one. */
  function Accept(s: State, data: seq<U8>, fin: bool): State {
    s.(c := s.c.(rcvNxt := Plus(s.c.rcvNxt, |data| + if fin then 1 else 0)),
       h := s.h.(received := s.h.received + data, finIn := s.h.finIn || fin))
  }

  predicate SynAckOnly(g: Segment) { g.syn && g.ack && !g.fin && !g.rst && !g.psh }

  /** The segment may be processed: it occupies no sequence space, or starts where it should. */
  predicate InSequence(c: Conn, g: Segment) {
    || (c.phase.SynSent? && SynAckOnly(g))
    || (g.data == [] && !g.syn && !g.fin)
    || g.seqno == c.rcvNxt
  }

  predicate AcksOutstanding(c: Conn, g: Segment) {
    g.ack && c.len > 0 && g.ackno == Plus(c.sndNxt, c.len)
  }

  /** The acknowledgement of everything outstanding; rto is the new estimate, used unless
      there were retransmissions. */
  function AckTaken(s: State, rto: U8): State {
    var rto' := if s.c.nrtx == 0 then rto else s.c.rto;
    s.(c := s.c.(sndNxt := Plus(s.c.sndNxt, s.c.len), len := 0, rto := rto', timer := rto'),
       h := s.h.(acked := s.h.acked + if s.c.phase.Established? then s.c.len as int else 0))
  }

  /** The segment size that an advertised window allows. */
  function Usable(wnd: U16, initialMss: U16): (m: U16)
    ensures m <= initialMss
  {
    if wnd > initialMss || wnd == 0 then initialMss else wnd
  }

  function MssFrom(m: Option<U16>, mss: U16): U16 {
    if m.None? then mss else if m.value > UIP_TCP_MSS then UIP_TCP_MSS else m.value
  }

  function WithMss(c: Conn, m: Option<U16>): Conn {
    if m.None? then c else c.(mss := MssFrom(m, c.mss), initialMss := MssFrom(m, c.mss))
  }

  /** A SYN for the listening port opens the connection in the given slot. */
  function Listen(s: State, g: Input, iss: U32): (r: (State, Out))
  {
    var c := WithMss(Conn(SynRcvd, Plus(g.seqno, 1), iss, 1, s.c.mss, s.c.initialMss, UIP_RTO, UIP_RTO, 0, s.c.http),
                     g.mss);
    (State(c, Hist(iss, g.seqno, [], false, 0), WithOption(Overlay(s.buf, g.data))), SynOut(c, true))
  }

  /** An active open. */
  function Connect(s: State, iss: U32): (r: State) {
    State(Conn(SynSent, s.c.rcvNxt, iss, 1, UIP_TCP_MSS, UIP_TCP_MSS, UIP_RTO, 1, 0, s.c.http),
          Hist(iss, 0, [], false, 0), s.buf)
  }

  const F_CONNECTED := NO_FLAGS.(connected := true)
  const F_CLOSE := NO_FLAGS.(close := true)
  const F_ABORT := NO_FLAGS.(abort := true)
  const F_TIMEDOUT := NO_FLAGS.(timedout := true)
  const F_POLL := NO_FLAGS.(poll := true)
  const F_REXMIT := NO_FLAGS.(rexmit := true)

  /** An incoming segment for this connection. */
  function Arrive(s: State, g: Input, rto: U8, resp: Response): (r: (State, Out))
    requires Sized(s, resp) && !s.c.phase.Closed?
    ensures Sized(r.0, resp)
  {
    var s0 := s.(buf := Overlay(s.buf, g.data));
    if g.rst then (CallApp(s0.(c := s0.c.(phase := Closed)), F_ABORT, resp).0, Quiet)
    else if !InSequence(s0.c, g) then (s0, AckOut(s0.c))
    else
      var ad := AcksOutstanding(s0.c, g);
      Dispatch(if ad then AckTaken(s0, rto) else s0, g, ad, resp)
  }

  function Dispatch(s: State, g: Input, ad: bool, resp: Response): (r: (State, Out))
    requires Sized(s, resp)
    ensures Sized(r.0, resp)
  {
    match s.c.phase
    case SynRcvd =>
      if !ad then (s, Quiet)
      else Notify(Accept(s.(c := s.c.(phase := Established)), g.data, false),
                  F_CONNECTED.(newdata := g.data != []), resp)
    case SynSent =>
      if ad && SynAckOnly(g) then
        var c := WithMss(s.c, g.mss).(phase := Established, rcvNxt := Plus(g.seqno, 1));
        Notify(s.(c := c, h := s.h.(irs := g.seqno)), F_CONNECTED.(newdata := true), resp)
      else
        var t := CallApp(s, F_ABORT, resp).0;
        (t.(c := t.c.(phase := Closed)), Refusal(g))
    case Established =>
      if g.fin then
        if s.c.len > 0 then (s, Quiet)
        else
          var t := CallApp(Accept(s, g.data, true),
                           Flags(ad, g.data != [], false, false, true, false, false, false), resp).0;
          var u := t.(c := t.c.(phase := LastAck, len := 1, nrtx := 0));
          (u, FinOut(u.c))
      else
        var t := Accept(s, g.data, false);
        var u := t.(c := t.c.(mss := Usable(g.wnd, t.c.initialMss)));
        if ad || g.data != [] then Notify(u, NO_FLAGS.(ackdata := ad, newdata := g.data != []), resp)
        else (u, Quiet)
    case LastAck =>
      if ad then (CallApp(s.(c := s.c.(phase := Closed)), F_CLOSE, resp).0, Quiet) else (s, Quiet)
    case FinWait1 =>
      var t := Accept(s, g.data, g.fin);
      if g.fin then
        var c := if ad then t.c.(phase := TimeWait, timer := 0, len := 0) else t.c.(phase := ClosingBoth);
        var u := CallApp(t.(c := c), F_CLOSE, resp).0;
        (u, AckOut(u.c))
      else if ad then (t.(c := t.c.(phase := FinWait2, len := 0)), Quiet)
      else (t, if g.data != [] then AckOut(t.c) else Quiet)
    case FinWait2 =>
      var t := Accept(s, g.data, g.fin);
      if g.fin then
        var u := CallApp(t.(c := t.c.(phase := TimeWait, timer := 0)), F_CLOSE, resp).0;
        (u, AckOut(u.c))
      else (t, if g.data != [] then AckOut(t.c) else Quiet)
    case TimeWait => (s, AckOut(s.c))
    case ClosingBoth =>
      if ad then (s.(c := s.c.(phase := TimeWait, timer := 0)), Quiet) else (s, Quiet)
    case Closed => (s, Quiet)
  }

  // ----- the periodic timer -----

  function Shift(n: nat): nat { if n == 0 then 1 else if n == 1 then 2 else if n == 2 then 4 else if n == 3 then 8 else 16 }

  /** The timer value set when the n-th retransmission is sent. */
  function Backoff(n: nat): U8 { UIP_RTO * Shift(n) }

  function MaxRtx(p: Phase): nat { if p.SynSent? || p.SynRcvd? then UIP_MAXSYNRTX else UIP_MAXRTX }

  predicate WaitsOut(p: Phase) { p.TimeWait? || p.FinWait2? }

  function Tick(s: State, resp: Response): (r: (State, Out))
    requires Sized(s, resp)
    ensures Sized(r.0, resp)
  {
    if WaitsOut(s.c.phase) then
      var timer := Add8(s.c.timer, 1);
      (s.(c := s.c.(timer := timer, phase := if timer == UIP_TIME_WAIT_TIMEOUT then Closed else s.c.phase)), Quiet)
    else if s.c.phase.Closed? then (s, Quiet)
    else if s.c.len == 0 then
      if s.c.phase.Established? then Notify(s, F_POLL, resp) else (s, Quiet)
    else if s.c.timer > 0 then (s.(c := s.c.(timer := s.c.timer - 1)), Quiet)
    else if s.c.nrtx == UIP_MAXRTX || s.c.nrtx == MaxRtx(s.c.phase) then
      var t := CallApp(s.(c := s.c.(phase := Closed, timer := 255)), F_TIMEDOUT, resp).0;
      (t, RstOut(t.c))
    else
      Rexmit(s.(c := s.c.(timer := Backoff(s.c.nrtx), nrtx := Add8(s.c.nrtx, 1))), resp)
  }

  function Rexmit(s: State, resp: Response): (r: (State, Out))
    requires Sized(s, resp)
    ensures Sized(r.0, resp)
  {
    match s.c.phase
    case SynRcvd => (s.(buf := WithOption(s.buf)), SynOut(s.c, true))
    case SynSent => (s.(buf := WithOption(s.buf)), SynOut(s.c, false))
    case Established =>
      var a := CallApp(s, F_REXMIT, resp);
      (a.0, Transmit(a.0, F_REXMIT, if a.1.Send? then a.1.len else 0))
    case _ => (s, FinOut(s.c))
  }
}
