/** The engine itself: the connection record, the packet buffer and the flags that the
    processing updates in place, proved to follow the state machine. */
module TcpEngine {
  import opened SeqNumbers
  import opened Httpd
  import opened Tcp
  import opened Words

  lemma AcceptNone(s: State)
    ensures Accept(s, [], false) == s
  {
    assert s.h.received + [] == s.h.received;
  }

  lemma AcceptThenFin(s: State, data: seq<U8>)
    ensures Accept(Accept(s, data, false), [], true) == Accept(s, data, true)
  {
    PlusPlus(s.c.rcvNxt, |data|, 1);
    assert (s.h.received + data) + [] == s.h.received + data;
  }

  lemma DispatchCloses(s: State, g: Input, ad: bool, resp: Response)
    requires Sized(s, resp) && s.c.phase.Established? && g.fin && s.c.len == 0
    ensures var t := CallApp(Accept(s, g.data, true), NO_FLAGS.(ackdata := ad, newdata := g.data != [], close := true), resp).0;
            var u := t.(c := t.c.(phase := LastAck, len := 1, nrtx := 0));
            Dispatch(s, g, ad, resp) == (u, FinOut(u.c))
  {}

  class Uip {
    // the connection
    var phase: Phase
    var rcvNxt: U32
    var sndNxt: U32
    var len: U16
    var mss: U16
    var initialMss: U16
    var rto: U8
    var timer: U8
    var nrtx: U8
    // the application state in it
    var state: HttpState
    var hasData: bool
    var total: U16
    var pos: U16
    var lastSent: U16
    // the globals
    var flags: Flags
    var slen: U16
    const appdata: array<U8>
    const response: Response
    ghost var hist: Hist

    ghost function View(): State
      reads this, appdata
    {
      State(Conn(phase, rcvNxt, sndNxt, len, mss, initialMss, rto, timer, nrtx, Http(state, hasData, total, pos, lastSent)),
            hist, appdata[..])
    }

    ghost predicate Valid()
      reads this, appdata
    {
      Sized(View(), response)
    }

    constructor (resp: Response)
      ensures Valid() && phase.Closed? && response == resp && fresh(appdata)
    {
      phase, rcvNxt, sndNxt, len, mss, initialMss, rto, timer, nrtx := Closed, 0, 0, 0, 0, 0, 0, 0, 0;
      state, hasData, total, pos, lastSent := Waiting, false, 0, 0, 0;
      flags, slen := NO_FLAGS, 0;
      appdata := new U8[UIP_TCP_MSS](_ => 0);
      response := resp;
      hist := Hist(0, 0, [], false, 0);
    }

    // ----- the application -----

    /** Copy a piece of the response to the buffer. */
    method UipSend(at: nat, n: U16)
      requires appdata.Length == UIP_TCP_MSS && 0 < n && n <= UIP_TCP_MSS && at + n as int <= |response|
      modifies this`slen, appdata
      ensures slen == n && appdata[..] == Overlay(old(appdata[..]), Piece(response, at, n as int))
    {
      slen := n;
      var i := 0;
      while i < n as int
        invariant 0 <= i <= n as int
        invariant appdata[..i] == response[at..at + i]
        invariant appdata[i..] == old(appdata[i..])
        modifies appdata
      {
        appdata[i] := response[at + i];
        i := i + 1;
      }
      assert appdata[..] == appdata[..i] + appdata[i..];
      assert old(appdata[i..]) == old(appdata[..])[i..];
    }

    /** Note an acknowledgement, and a request if one was awaited. */
    method NoteEvents()
      requires Valid()
      modifies this`state, this`hasData, this`total, this`pos, this`lastSent
      ensures View() == old(View()).(c := old(View()).c.(http := Progressed(old(View()).c.http, flags, response)))
    {
      if flags.ackdata {
        if lastSent > 0 {
          pos := pos as int + lastSent as int;
          lastSent := 0;
        }
      }
      if flags.newdata && state.Waiting? {
        state, hasData, total, pos, lastSent := Sending, true, |response|, 0, 0;
      }
    }

    /** Send the next piece of the response, if the segment size allows any. */
    method SendChunk()
      requires Valid() && state.Sending? && pos < total
      modifies this`lastSent, this`slen, appdata
      ensures var n := Chunk(total as int - pos as int, mss as int);
              if n > 0 then
                && slen as int == n && lastSent as int == n
                && appdata[..] == Overlay(old(appdata[..]), Piece(response, pos as int, n))
              else slen == old(slen) && lastSent == old(lastSent) && appdata[..] == old(appdata[..])
    {
      hide Overlay, Piece;
      var maxAllowed := mss;
      if maxAllowed > MAX_DRIVER_SEND_BYTES {
        maxAllowed := MAX_DRIVER_SEND_BYTES;
      }
      var chunk: U16 := total - pos;
      if chunk > maxAllowed {
        chunk := maxAllowed;
      }
      if chunk > 0 {
        UipSend(pos as int, chunk);
        lastSent := chunk;
      }
    }

    /** The web server's callback. */
    method HttpdAppcall()
      requires Valid()
      modifies this`state, this`hasData, this`total, this`pos, this`lastSent, this`flags, this`slen, appdata
      ensures var r := CallApp(old(View()), old(flags), response);
              && View() == r.0 && Valid()
              && flags == (if r.1.Close? then F_CLOSE else old(flags))
              && slen as int == (if r.1.Send? then r.1.len else old(slen) as int)
    {
      hide Overlay, Piece;
      if flags.connected {
        state, pos, lastSent, hasData, total := Waiting, 0, 0, false, 0;
        return;
      }
      if flags.close || flags.abort || flags.timedout {
        state := Closing;
        return;
      }
      NoteEvents();
      hide Progressed;
      if state.Sending? && (flags.newdata || flags.ackdata || flags.poll || flags.rexmit) {
        if pos < total {
          SendChunk();
        } else if lastSent == 0 {
          state := Closing;
          flags := F_CLOSE;
        }
      }
    }

    /** Close the connection and tell the application why. */
    method CloseWith(f: Flags)
      requires Valid()
      modifies this, appdata
      ensures var v := old(View()); View() == CallApp(v.(c := v.c.(phase := Closed)), f, response).0 && Valid()
    {
      hide CallApp;
      phase := Closed;
      flags := f;
      HttpdAppcall();
    }

    // ----- sending -----

    method TcpSend(syn: bool, fin: bool, rst: bool, ack: bool) returns (out: Out)
      ensures out == Reply(View().c, syn, fin, rst, ack, [])
    {
      out := Emit(Packet(syn, fin, rst, false, ack, sndNxt, rcvNxt, []));
    }

    /** A SYN, with the segment size option in front of the buffer. */
    method SendSyn(ack: bool) returns (out: Out)
      requires appdata.Length == UIP_TCP_MSS
      modifies appdata
      ensures View() == old(View()).(buf := WithOption(old(View()).buf)) && out == SynOut(View().c, ack)
    {
      appdata[0] := 2;
      appdata[1] := 4;
      appdata[2] := UIP_TCP_MSS / 256;
      appdata[3] := UIP_TCP_MSS % 256;
      assert appdata[..] == MssOption() + old(appdata[..])[4..];
      out := TcpSend(true, false, false, ack);
    }

    /** The end of our stream, in the phase that awaits its acknowledgement. */
    method EndStream(p: Phase) returns (out: Out)
      modifies this`phase, this`len, this`nrtx
      ensures View() == old(View()).(c := old(View()).c.(phase := p, len := 1, nrtx := 0)) && out == FinOut(View().c)
    {
      len := 1;
      phase := p;
      nrtx := 0;
      out := TcpSend(false, true, false, true);
    }

    /** From the application's return to the packet, if any. */
    method AppSend(ghost f: Flags, ghost a: Action)
      returns (out: Out)
      requires Valid()
      requires if a.Abort? then flags.abort
               else if a.Close? then !flags.abort && flags.close
               else flags == f && !f.close && !f.abort && slen as int == if a.Send? then a.len else 0
      modifies this`phase, this`len, this`nrtx, this`slen
      ensures (View(), out) == Tcp.AppSend(old(View()), f, a, response) && Valid()
    {
      if flags.abort {
        slen := 0;
        phase := Closed;
        out := TcpSend(false, false, true, true);
        return;
      }
      if flags.close {
        slen := 0;
        out := EndStream(FinWait1);
        return;
      }
      if slen > 0 {
        if flags.ackdata {
          len := 0;
        }
        if len == 0 {
          if slen > mss {
            slen := mss;
          }
          len := slen;
        } else {
          slen := len;
        }
      }
      nrtx := 0;
      out := AppRexmit();
    }

    /** Send len bytes from the front of the buffer, or acknowledge new data. */
    method AppRexmit() returns (out: Out)
      requires Valid()
      ensures out == Transmit(View(), flags, slen as int)
    {
      if slen > 0 && len > 0 {
        return Emit(Packet(false, false, false, true, true, sndNxt, rcvNxt, appdata[..len]));
      }
      if flags.newdata {
        out := TcpSend(false, false, false, true);
        return;
      }
      out := Quiet;
    }

    method NotifyApp() returns (out: Out)
      requires Valid() && !flags.close && !flags.abort
      modifies this, appdata
      ensures (View(), out) == Notify(old(View()), old(flags), response) && Valid()
    {
      ghost var v, f := View(), flags;
      ghost var r := CallApp(v, f, response);
      slen := 0;
      HttpdAppcall();
      out := AppSend(f, r.1);
    }

    // ----- receiving -----

    method AddRcvNxt(n: nat, ghost data: seq<U8>, ghost fin: bool)
      requires n == |data| + if fin then 1 else 0
      modifies this`rcvNxt, this`hist
      ensures View() == Accept(old(View()), data, fin)
    {
      rcvNxt := Plus(rcvNxt, n);
      hist := hist.(received := hist.received + data, finIn := hist.finIn || fin);
    }

    /** Copy the data of an incoming segment to the buffer. */
    method Load(data: seq<U8>)
      requires |data| <= UIP_TCP_MSS && appdata.Length == UIP_TCP_MSS
      modifies appdata
      ensures appdata[..] == Overlay(old(appdata[..]), data)
    {
      var i := 0;
      while i < |data|
        invariant 0 <= i <= |data|
        invariant appdata[..i] == data[..i]
        invariant appdata[i..] == old(appdata[i..])
      {
        appdata[i] := data[i];
        i := i + 1;
      }
      assert appdata[..] == appdata[..i] + appdata[i..];
      assert old(appdata[i..]) == old(appdata[..])[i..];
    }

    /** If the segment acknowledges all that is in transit, advance; newRto is the estimator's
        new value. */
    method TakeAck(g: Input, newRto: U8)
      requires Valid() && flags == NO_FLAGS
      modifies this`sndNxt, this`len, this`rto, this`timer, this`hist, this`flags
      ensures var ad := AcksOutstanding(old(View()).c, g);
              View() == (if ad then AckTaken(old(View()), newRto) else old(View())) && flags == NO_FLAGS.(ackdata := ad)
      ensures Valid()
    {
      if g.ack && len > 0 {
        var acc := Plus(sndNxt, len as int);
        if g.ackno == acc {
          hist := hist.(acked := hist.acked + if phase.Established? then len as int else 0);
          sndNxt := acc;
          if nrtx == 0 {
            rto := newRto;
          }
          flags := flags.(ackdata := true);
          timer := rto;
          len := 0;
        }
      }
    }

    method SetMss(m: Option<U16>)
      modifies this`mss, this`initialMss
      ensures View() == old(View()).(c := WithMss(old(View()).c, m))
    {
      if m.Some? {
        mss := if m.value > UIP_TCP_MSS then UIP_TCP_MSS else m.value;
        initialMss := mss;
      }
    }

    method StartTimer(t: U8)
      modifies this`timer, this`rto, this`nrtx
      ensures View() == old(View()).(c := old(View()).c.(timer := t, rto := UIP_RTO, nrtx := 0))
    {
      timer, rto, nrtx := t, UIP_RTO, 0;
    }

    /** A SYN for the listening port, this record being the free one. */
    method OpenPassive(g: Input, iss: U32) returns (out: Out)
      requires Valid()
      modifies this, appdata
      ensures (View(), out) == Listen(old(View()), g, iss) && Valid()
    {
      Load(g.data);
      StartTimer(UIP_RTO);
      phase := SynRcvd;
      sndNxt := iss;
      len := 1;
      rcvNxt := Plus(g.seqno, 1);
      hist := Hist(iss, g.seqno, [], false, 0);
      SetMss(g.mss);
      out := SendSyn(true);
    }

    /** The fields that an active open sets. */
    method OpenActive(iss: U32)
      requires Valid()
      modifies this
      ensures View() == Connect(old(View()), iss) && Valid()
    {
      phase, sndNxt := SynSent, iss;
      mss, initialMss := UIP_TCP_MSS, UIP_TCP_MSS;
      len := 1;
      StartTimer(1);
      hist := Hist(iss, 0, [], false, 0);
    }

    /** A segment matched to this connection. */
    method Input(g: Input, newRto: U8) returns (out: Out)
      requires Valid() && !phase.Closed?
      modifies this, appdata
      ensures (View(), out) == Arrive(old(View()), g, newRto, response) && Valid()
    {
      hide CallApp, Overlay, Dispatch;
      Load(g.data);
      flags := NO_FLAGS;
      if g.rst {
        CloseWith(F_ABORT);
        return Quiet;
      }
      if !(phase.SynSent? && g.syn && g.ack && !g.fin && !g.rst && !g.psh) {
        if (g.data != [] || g.syn || g.fin) && g.seqno != rcvNxt {
          out := TcpSend(false, false, false, true);
          return;
        }
      }
      TakeAck(g, newRto);
      ghost var ad := flags.ackdata;
      out := Process(g, ad);
    }

    /** The processing by the phase of the connection. */
    method Process(g: Input, ghost ad: bool) returns (out: Out)
      requires Valid() && flags == NO_FLAGS.(ackdata := ad) && (ad ==> len == 0)
      modifies this, appdata
      ensures (View(), out) == Dispatch(old(View()), g, ad, response) && Valid()
    {
      hide CallApp, Overlay, Notify, Accept;
      match phase
      case SynRcvd => out := InSynRcvd(g, ad);
      case SynSent => out := InSynSent(g, ad);
      case Established => out := InEstablished(g, ad);
      case LastAck =>
        if flags.ackdata {
          CloseWith(F_CLOSE);
        }
        out := Quiet;
      case FinWait1 => out := InFinWait1(g, ad);
      case FinWait2 => out := InFinWait2(g, ad);
      case TimeWait => out := TcpSend(false, false, false, true);
      case ClosingBoth =>
        if flags.ackdata {
          phase := TimeWait;
          timer := 0;
        }
        out := Quiet;
      case Closed => out := Quiet;
    }

    method InSynRcvd(g: Input, ghost ad: bool) returns (out: Out)
      requires Valid() && phase.SynRcvd? && flags == NO_FLAGS.(ackdata := ad) && (ad ==> len == 0)
      modifies this, appdata
      ensures (View(), out) == Dispatch(old(View()), g, ad, response) && Valid()
    {
      hide AppCall, CallApp, Overlay, Piece, Take, Tcp.AppSend, Notify;
      if flags.ackdata {
        phase := Established;
        flags := F_CONNECTED;
        len := 0;
        if g.data != [] {
          flags := flags.(newdata := true);
          AddRcvNxt(|g.data|, g.data, false);
        } else {
          AcceptNone(View());
        }
        out := NotifyApp();
        return;
      }
      out := Quiet;
    }

    method InSynSent(g: Input, ghost ad: bool) returns (out: Out)
      requires Valid() && phase.SynSent? && flags == NO_FLAGS.(ackdata := ad) && (ad ==> len == 0)
      modifies this, appdata
      ensures (View(), out) == Dispatch(old(View()), g, ad, response) && Valid()
    {
      hide AppCall, CallApp, Overlay, Piece, Take, Tcp.AppSend, Notify, WithMss, Plus;
      if flags.ackdata && g.syn && g.ack && !g.fin && !g.rst && !g.psh {
        out := SynAcked(g);
        return;
      }
      flags := F_ABORT;
      HttpdAppcall();
      phase := Closed;
      out := Emit(Packet(false, false, true, false, true, g.ackno, Plus(g.seqno, 1), []));
    }

    /** The peer's acknowledgement of our SYN, with its own. */
    method SynAcked(g: Input) returns (out: Out)
      requires Valid() && phase.SynSent? && len == 0
      requires flags.ackdata && SynAckOnly(g)
      modifies this, appdata
      ensures (View(), out) == Dispatch(old(View()), g, true, response) && Valid()
    {
      hide AppCall, CallApp, Overlay, Piece, Take, Tcp.AppSend, Notify;
      SetMss(g.mss);
      phase := Established;
      rcvNxt := Plus(g.seqno, 1);
      hist := hist.(irs := g.seqno);
      flags := F_CONNECTED.(newdata := true);
      len := 0;
      out := NotifyApp();
    }

    method InEstablished(g: Input, ghost ad: bool) returns (out: Out)
      requires Valid() && phase.Established? && flags == NO_FLAGS.(ackdata := ad)
      modifies this, appdata
      ensures (View(), out) == Dispatch(old(View()), g, ad, response) && Valid()
    {
      hide Plus, AppCall, CallApp, Overlay, Piece, Take, Tcp.AppSend, Notify;
      if g.fin {
        if len > 0 {
          return Quiet;
        }
        out := PeerCloses(g, ad);
        return;
      }
      if g.data != [] {
        flags := flags.(newdata := true);
        AddRcvNxt(|g.data|, g.data, false);
      } else {
        AcceptNone(View());
      }
      var wnd := g.wnd;
      if wnd > initialMss || wnd == 0 {
        wnd := initialMss;
      }
      mss := wnd;
      if flags.newdata || flags.ackdata {
        out := NotifyApp();
        return;
      }
      out := Quiet;
    }

    /** The peer's FIN with nothing in transit: close this side as well. */
    method PeerCloses(g: Input, ghost ad: bool) returns (out: Out)
      requires Valid() && phase.Established? && flags == NO_FLAGS.(ackdata := ad) && g.fin && len == 0
      modifies this, appdata
      ensures (View(), out) == Dispatch(old(View()), g, ad, response) && Valid()
    {
      hide AppCall, CallApp, Overlay, Piece, Take, Tcp.AppSend, Notify, Dispatch, Accept;
      DispatchCloses(View(), g, ad, response);
      AddRcvNxt(1 + |g.data|, g.data, true);
      flags := flags.(close := true);
      if g.data != [] {
        flags := flags.(newdata := true);
      }
      HttpdAppcall();
      out := EndStream(LastAck);
    }

    method InFinWait1(g: Input, ghost ad: bool) returns (out: Out)
      requires Valid() && phase.FinWait1? && flags == NO_FLAGS.(ackdata := ad)
      modifies this, appdata
      ensures (View(), out) == Dispatch(old(View()), g, ad, response) && Valid()
    {
      hide AppCall, CallApp, Overlay, Piece, Take, Tcp.AppSend, Notify;
      AcceptNone(View());
      AcceptThenFin(View(), g.data);
      if g.data != [] {
        AddRcvNxt(|g.data|, g.data, false);
      }
      if g.fin {
        if flags.ackdata {
          phase := TimeWait;
          timer := 0;
          len := 0;
        } else {
          phase := ClosingBoth;
        }
        AddRcvNxt(1, [], true);
        flags := F_CLOSE;
        HttpdAppcall();
        out := TcpSend(false, false, false, true);
        return;
      } else if flags.ackdata {
        phase := FinWait2;
        len := 0;
        return Quiet;
      }
      if g.data != [] {
        out := TcpSend(false, false, false, true);
        return;
      }
      out := Quiet;
    }

    method InFinWait2(g: Input, ghost ad: bool) returns (out: Out)
      requires Valid() && phase.FinWait2? && flags == NO_FLAGS.(ackdata := ad)
      modifies this, appdata
      ensures (View(), out) == Dispatch(old(View()), g, ad, response) && Valid()
    {
      hide AppCall, CallApp, Overlay, Piece, Take, Tcp.AppSend, Notify;
      AcceptNone(View());
      AcceptThenFin(View(), g.data);
      if g.data != [] {
        AddRcvNxt(|g.data|, g.data, false);
      }
      if g.fin {
        phase := TimeWait;
        timer := 0;
        AddRcvNxt(1, [], true);
        flags := F_CLOSE;
        HttpdAppcall();
        out := TcpSend(false, false, false, true);
        return;
      }
      if g.data != [] {
        out := TcpSend(false, false, false, true);
        return;
      }
      out := Quiet;
    }

    // ----- the periodic timer -----

    method Timer() returns (out: Out)
      requires Valid()
      modifies this, appdata
      ensures (View(), out) == Tick(old(View()), response) && Valid()
    {
      slen := 0;
      if phase.TimeWait? || phase.FinWait2? {
        timer := Add8(timer, 1);
        if timer == UIP_TIME_WAIT_TIMEOUT {
          phase := Closed;
        }
      } else if !phase.Closed? {
        if len > 0 {
          var expired := timer == 0;
          timer := if expired then 255 else timer - 1;
          if expired {
            if nrtx == UIP_MAXRTX || ((phase.SynSent? || phase.SynRcvd?) && nrtx == UIP_MAXSYNRTX) {
              CloseWith(F_TIMEDOUT);
              out := TcpSend(false, false, true, true);
              return;
            }
            timer := Backoff(if nrtx > 4 then 4 else nrtx as int);
            nrtx := Add8(nrtx, 1);
            out := Retransmit();
            return;
          }
        } else if phase.Established? {
          flags := F_POLL;
          out := NotifyApp();
          return;
        }
      }
      out := Quiet;
    }

    method Retransmit() returns (out: Out)
      requires Valid() && !phase.Closed? && slen == 0
      modifies this, appdata
      ensures (View(), out) == Rexmit(old(View()), response) && Valid()
    {
      match phase
      case SynRcvd => out := SendSyn(true);
      case SynSent => out := SendSyn(false);
      case Established =>
        flags := F_REXMIT;
        HttpdAppcall();
        out := AppRexmit();
      case _ => out := TcpSend(false, true, false, true);
    }
  }
}
