/** The web server application: it sends one fixed response and advances only when the
    transport reports an acknowledgement. */
module Httpd {
  import opened Words

  // 512 - 100
  const MAX_DRIVER_SEND_BYTES := 412

  type Response = s: seq<U8> | |s| < 0x1_0000

  datatype HttpState = Waiting | Sending | Closing

  /** The server's own record of a connection; hasData says whether data_ptr is set. */
  datatype Http = Http(state: HttpState, hasData: bool, total: U16, pos: U16, lastSent: U16)

  /** The event flags handed to the application. */
  datatype Flags = Flags(ackdata: bool, newdata: bool, rexmit: bool, poll: bool,
                         close: bool, abort: bool, connected: bool, timedout: bool)

  const NO_FLAGS := Flags(false, false, false, false, false, false, false, false)

  /** What the application asks of the transport; the web server never asks for an abort. */
  datatype Action = Nothing | Send(at: nat, len: nat) | Close | Abort

  /** The recorded position never runs past the response. */
  predicate InBounds(h: Http, resp: Response) {
    h.pos as int + h.lastSent as int <= h.total as int && (h.state.Sending? ==> h.total == |resp| && h.hasData)
  }

  function Min(a: nat, b: nat): nat { if a < b then a else b }

  /** The largest piece of the remaining response that one packet may carry. */
  function Chunk(remaining: nat, mss: nat): (n: nat)
    ensures n <= remaining && n <= mss && n <= MAX_DRIVER_SEND_BYTES
  {
    Min(remaining, Min(mss, MAX_DRIVER_SEND_BYTES))
  }

  function Progressed(h: Http, f: Flags, resp: Response): (r: Http)
    requires InBounds(h, resp)
    ensures InBounds(r, resp)
  {
    var h1 := if f.ackdata then h.(pos := h.pos as int + h.lastSent as int, lastSent := 0) else h;
    if f.newdata && h1.state.Waiting? then Http(Sending, true, |resp|, 0, 0) else h1
  }

  /** One call of the application. */
  function AppCall(h: Http, f: Flags, mss: U16, resp: Response): (r: (Http, Action))
    requires InBounds(h, resp)
    ensures InBounds(r.0, resp)
    ensures r.1.Send? ==> r.1.at + r.1.len <= |resp| && 0 < r.1.len <= mss
    ensures !r.1.Abort?
  {
    if f.connected then (Http(Waiting, false, 0, 0, 0), Nothing)
    else if f.close || f.abort || f.timedout then (h.(state := Closing), Nothing)
    else
      var g := Progressed(h, f, resp);
      if !g.state.Sending? || !(f.newdata || f.ackdata || f.poll || f.rexmit) then (g, Nothing)
      else if g.pos < g.total then
        var n := Chunk(g.total as int - g.pos as int, mss);
        if n > 0 then (g.(lastSent := n), Send(g.pos, n)) else (g, Nothing)
      else if g.lastSent == 0 then (g.(state := Closing), Close)
      else (g, Nothing)
  }
}
