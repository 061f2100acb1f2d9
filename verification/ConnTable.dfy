/** The table of TCP connections: which slot a packet belongs to, which slot a new connection
    takes, and which local port an active open uses. */
module ConnTable {
  import opened Tcp
  import opened Words

  const UIP_CONNS := 40
  const UIP_LISTENPORTS := 40

  type IpAddr = (U16, U16)

  datatype Slot = Slot(phase: Phase, timer: U8, lport: U16, rport: U16, ripaddr: IpAddr)

  predicate InUse(s: Slot) { !s.phase.Closed? }

  predicate Matches(s: Slot, lport: U16, rport: U16, ripaddr: IpAddr) {
    InUse(s) && s.lport == lport && s.rport == rport && s.ripaddr == ripaddr
  }

  /** No two connections share local port, remote port and remote address. */
  ghost predicate Distinct(t: seq<Slot>) {
    forall i, j :: 0 <= i < j < |t| && InUse(t[i]) && InUse(t[j]) ==> !Matches(t[i], t[j].lport, t[j].rport, t[j].ripaddr)
  }

  lemma DistinctUpdate(t: seq<Slot>, i: nat, s: Slot)
    requires Distinct(t) && i < |t|
    requires InUse(s) ==> forall j :: 0 <= j < |t| && j != i ==> !Matches(t[j], s.lport, s.rport, s.ripaddr)
    ensures Distinct(t[i := s])
  {}

  /** The slot a new connection may take: the first closed one, or else, among those waiting
      for their timeout, the first that has waited longest; never one in real use. */
  ghost predicate IsFree(t: seq<Slot>, r: int) {
    if exists i :: 0 <= i < |t| && !InUse(t[i]) then
      0 <= r < |t| && !InUse(t[r]) && forall i :: 0 <= i < r ==> InUse(t[i])
    else IsOldest(t, r)
  }

  /** The first waiting slot of greatest timer, or -1. */
  ghost predicate IsOldest(t: seq<Slot>, r: int) {
    if r == -1 then forall i :: 0 <= i < |t| ==> !t[i].phase.TimeWait?
    else 0 <= r < |t| && t[r].phase.TimeWait?
         && (forall i :: 0 <= i < |t| && t[i].phase.TimeWait? ==> t[i].timer <= t[r].timer)
         && (forall i :: 0 <= i < r && t[i].phase.TimeWait? ==> t[i].timer < t[r].timer)
  }

  lemma FreeIsUnique(t: seq<Slot>, r: int, q: int)
    requires IsFree(t, r) && IsFree(t, q)
    ensures r == q
  {
    if exists i :: 0 <= i < |t| && !InUse(t[i]) {
      assert !(r < q) && !(q < r);
    }
  }

  // ----- ports -----

  /** The local ports in use. */
  function Ports(t: seq<Slot>): (p: set<U16>)
    ensures |p| <= |t|
    ensures forall i :: 0 <= i < |t| && InUse(t[i]) ==> t[i].lport in p
    ensures forall x :: x in p ==> exists i :: 0 <= i < |t| && InUse(t[i]) && t[i].lport == x
    decreases |t|
  {
    if t == [] then {}
    else
      var rest := Ports(t[..|t| - 1]);
      var last := t[|t| - 1];
      assert forall i :: 0 <= i < |t| - 1 ==> t[..|t| - 1][i] == t[i];
      if InUse(last) then rest + {last.lport} else rest
  }

  /** The port tried k places after port p. */
  function PortAfter(p: U16, k: nat): U16
    requires p < 32000 && k <= UIP_CONNS + 1
  {
    if p as int + k < 32000 then p as int + k else p as int + k - 27904
  }

  lemma PortsTriedDiffer(p: U16, j: nat, k: nat)
    requires p < 32000 && j < k <= UIP_CONNS + 1
    ensures Htons(PortAfter(p, j)) != Htons(PortAfter(p, k))
  {
    HtonsInvolution(PortAfter(p, j));
    HtonsInvolution(PortAfter(p, k));
  }

  /** The first k ports tried after p, as the table stores them. */
  ghost function Tried(p: U16, k: nat): (r: set<U16>)
    requires p < 32000 && k <= UIP_CONNS + 1
    ensures forall j {:trigger PortAfter(p, j)} :: 1 <= j <= k ==> Htons(PortAfter(p, j)) in r
    ensures forall x {:trigger x in r} :: x in r ==> exists j: nat :: 1 <= j <= k && x == Htons(PortAfter(p, j))
  {
    if k == 0 then {} else Tried(p, k - 1) + {Htons(PortAfter(p, k))}
  }

  lemma {:induction false} TriedCount(p: U16, k: nat)
    requires p < 32000 && k <= UIP_CONNS + 1
    ensures |Tried(p, k)| == k
  {
    hide Htons, PortAfter;
    if k > 0 {
      TriedCount(p, k - 1);
      if Htons(PortAfter(p, k)) in Tried(p, k - 1) {
        var j: nat :| 1 <= j <= k - 1 && Htons(PortAfter(p, k)) == Htons(PortAfter(p, j));
        PortsTriedDiffer(p, j, k);
      }
    }
  }

  /** At most 40 ports are in use, so not all of the first 41 tried are. */
  lemma SomeFree(p: U16, k: nat, t: seq<Slot>)
    requires p < 32000 && k <= UIP_CONNS + 1 && |t| == UIP_CONNS && Tried(p, k) <= Ports(t)
    ensures k <= UIP_CONNS
  {
    TriedCount(p, k);
    CardSubset(Tried(p, k), Ports(t));
  }

  datatype Verdict = Existing(i: nat) | Opened(i: nat) | Refused | NoRoom

  class Table {
    const conns: array<Slot>
    const listenports: array<U16>
    var lastport: U16

    ghost predicate Valid()
      reads this, conns, listenports
    {
      && conns.Length == UIP_CONNS && listenports.Length == UIP_LISTENPORTS && lastport < 32000
      && Distinct(conns[..])
    }

    constructor ()
      ensures Valid() && (forall i :: 0 <= i < conns.Length ==> !InUse(conns[i]))
      ensures (forall c :: 0 <= c < listenports.Length ==> listenports[c] == 0)
      ensures fresh(conns) && fresh(listenports)
    {
      conns := new Slot[UIP_CONNS](_ => Slot(Closed, 0, 0, 0, (0, 0)));
      listenports := new U16[UIP_LISTENPORTS](_ => 0);
      lastport := 1024;
    }

    /** The slot whose connection a packet belongs to, if any: there is at most one. */
    method Demux(destport: U16, srcport: U16, srcipaddr: IpAddr) returns (r: int)
      requires Valid()
      ensures r == -1 ==> forall i :: 0 <= i < UIP_CONNS ==> !Matches(conns[i], destport, srcport, srcipaddr)
      ensures r != -1 ==> 0 <= r < UIP_CONNS
                          && forall i :: 0 <= i < UIP_CONNS ==> (Matches(conns[i], destport, srcport, srcipaddr) <==> i == r)
    {
      r := 0;
      while r < UIP_CONNS
        invariant 0 <= r <= UIP_CONNS
        invariant forall i :: 0 <= i < r ==> !Matches(conns[i], destport, srcport, srcipaddr)
      {
        if Matches(conns[r], destport, srcport, srcipaddr) {
          assert forall i :: r < i < UIP_CONNS ==> conns[..][i] == conns[i] && conns[..][r] == conns[r];
          return;
        }
        r := r + 1;
      }
      r := -1;
    }

    method FindFree() returns (r: int)
      requires Valid()
      ensures IsFree(conns[..], r) && -1 <= r < UIP_CONNS
    {
      r := -1;
      var c := 0;
      while c < UIP_CONNS
        invariant 0 <= c <= UIP_CONNS && -1 <= r < c
        invariant IsOldest(conns[..c], r) && forall i :: 0 <= i < c ==> InUse(conns[i])
      {
        if conns[c].phase.Closed? {
          assert !InUse(conns[..][c]);
          return c;
        }
        if conns[c].phase.TimeWait? {
          if r == -1 || conns[c].timer > conns[r].timer {
            r := c;
          }
        }
        c := c + 1;
      }
      assert conns[..c] == conns[..];
    }

    method FindListener(port: U16) returns (found: bool)
      requires Valid()
      ensures found <==> port in listenports[..]
    {
      var c := 0;
      while c < UIP_LISTENPORTS
        invariant 0 <= c <= UIP_LISTENPORTS && port !in listenports[..c]
      {
        if port == listenports[c] {
          return true;
        }
        c := c + 1;
      }
      assert listenports[..c] == listenports[..];
      found := false;
    }

    /** A TCP packet arrives: it belongs to an existing connection, or opens a new one, or is
        refused. */
    method Arrive(syn: bool, destport: U16, srcport: U16, srcipaddr: IpAddr) returns (v: Verdict)
      requires Valid()
      modifies conns
      ensures Valid()
      ensures v.Existing? <==> exists i :: 0 <= i < UIP_CONNS && Matches(old(conns[i]), destport, srcport, srcipaddr)
      ensures v.Existing? ==> v.i < UIP_CONNS && Matches(old(conns[v.i]), destport, srcport, srcipaddr)
      ensures v.Opened? ==> syn && destport in listenports[..] && v.i < UIP_CONNS && IsFree(old(conns[..]), v.i)
      ensures v.Opened? ==> conns[..] == old(conns[..])[v.i := Slot(SynRcvd, UIP_RTO, destport, srcport, srcipaddr)]
      ensures v.NoRoom? ==> syn && destport in listenports[..]
                            && forall i :: 0 <= i < UIP_CONNS ==> InUse(conns[i]) && !conns[i].phase.TimeWait?
      ensures v.Refused? ==> !syn || destport !in listenports[..]
      ensures !v.Opened? ==> conns[..] == old(conns[..])
    {
      var i := Demux(destport, srcport, srcipaddr);
      if i != -1 {
        assert Matches(old(conns[i]), destport, srcport, srcipaddr);
        return Existing(i);
      }
      if !syn {
        return Refused;
      }
      var found := FindListener(destport);
      if !found {
        return Refused;
      }
      i := FindFree();
      if i == -1 {
        assert forall k :: 0 <= k < UIP_CONNS ==> conns[..][k] == conns[k];
        return NoRoom;
      }
      ghost var t := conns[..];
      DistinctUpdate(t, i, Slot(SynRcvd, UIP_RTO, destport, srcport, srcipaddr));
      conns[i] := Slot(SynRcvd, UIP_RTO, destport, srcport, srcipaddr);
      assert conns[..] == t[i := Slot(SynRcvd, UIP_RTO, destport, srcport, srcipaddr)];
      return Opened(i);
    }

    method PortTaken(port: U16) returns (taken: bool)
      requires Valid()
      ensures taken <==> Htons(port) in Ports(conns[..])
    {
      var c := 0;
      while c < UIP_CONNS
        invariant 0 <= c <= UIP_CONNS
        invariant forall i :: 0 <= i < c ==> !(InUse(conns[i]) && conns[i].lport == Htons(port))
      {
        if !conns[c].phase.Closed? && conns[c].lport == Htons(port) {
          assert InUse(conns[..][c]);
          return true;
        }
        c := c + 1;
      }
      taken := false;
    }

    /** Step to the next local port that no connection uses: there is one within 41 steps. */
    method NextPort() returns (ghost k: nat)
      requires Valid()
      modifies this`lastport
      ensures Valid() && 1 <= k <= UIP_CONNS + 1 && lastport == PortAfter(old(lastport), k)
      ensures var n := old(lastport) as int + k; lastport as int == if n < 32000 then n else 4096 + (n - 32000)
      ensures Htons(lastport) !in Ports(conns[..])
      ensures forall j :: 1 <= j < k ==> Htons(PortAfter(old(lastport), j)) in Ports(conns[..])
    {
      hide Ports, Htons;
      ghost var start := lastport;
      k := 0;
      while true
        invariant Valid() && k <= UIP_CONNS && lastport == PortAfter(start, k)
        invariant Tried(start, k) <= Ports(conns[..])
        decreases UIP_CONNS + 1 - k
        modifies this`lastport
      {
        lastport := lastport + 1;
        if lastport >= 32000 {
          lastport := 4096;
        }
        k := k + 1;
        var taken := PortTaken(lastport);
        if !taken {
          assert forall j :: 1 <= j < k ==> Htons(PortAfter(start, j)) in Tried(start, k - 1);
          return;
        }
        SomeFree(start, k, conns[..]);
      }
    }

    /** An active open. */
    method Connect(ripaddr: IpAddr, rport: U16) returns (r: int, ghost k: nat)
      requires Valid()
      modifies this`lastport, conns
      ensures Valid() && IsFree(old(conns[..]), r) && -1 <= r < UIP_CONNS
      ensures 1 <= k <= UIP_CONNS + 1 && lastport == PortAfter(old(lastport), k)
      ensures Htons(lastport) !in Ports(old(conns[..]))
      ensures conns[..] == if r == -1 then old(conns[..])
                           else old(conns[..])[r := Slot(SynSent, 1, Htons(lastport), rport, ripaddr)]
    {
      k := NextPort();
      r := FindFree();
      if r == -1 {
        return;
      }
      ghost var t := conns[..];
      DistinctUpdate(t, r, Slot(SynSent, 1, Htons(lastport), rport, ripaddr));
      conns[r] := Slot(SynSent, 1, Htons(lastport), rport, ripaddr);
      assert conns[..] == t[r := Slot(SynSent, 1, Htons(lastport), rport, ripaddr)];
    }

    /** The processing of a connection moves its phase and timer, never its identity, and does
        not bring a closed one back. */
    method Progress(i: nat, phase: Phase, timer: U8)
      requires Valid() && i < UIP_CONNS && InUse(conns[i])
      modifies conns
      ensures Valid() && conns[..] == old(conns[..])[i := old(conns[i]).(phase := phase, timer := timer)]
    {
      ghost var t := conns[..];
      DistinctUpdate(t, i, t[i].(phase := phase, timer := timer));
      conns[i] := conns[i].(phase := phase, timer := timer);
      assert conns[..] == t[i := t[i].(phase := phase, timer := timer)];
    }

    method Listen(port: U16)
      requires Valid()
      modifies listenports
      ensures Valid() && multiset(listenports[..]) ==
                         if 0 in old(listenports[..]) then multiset(old(listenports[..])) - multiset{0} + multiset{port}
                         else multiset(old(listenports[..]))
    {
      Replace(0, port);
    }

    method Unlisten(port: U16)
      requires Valid()
      modifies listenports
      ensures Valid() && multiset(listenports[..]) ==
                         if port in old(listenports[..]) then multiset(old(listenports[..])) - multiset{port} + multiset{0}
                         else multiset(old(listenports[..]))
    {
      Replace(port, 0);
    }

    /** Put one value in the place of the first occurrence of another. */
    method Replace(x: U16, y: U16)
      requires Valid()
      modifies listenports
      ensures Valid() && multiset(listenports[..]) ==
                         if x in old(listenports[..]) then multiset(old(listenports[..])) - multiset{x} + multiset{y}
                         else multiset(old(listenports[..]))
    {
      var c := 0;
      while c < UIP_LISTENPORTS
        invariant 0 <= c <= UIP_LISTENPORTS && x !in listenports[..c] && listenports[..] == old(listenports[..])
      {
        if listenports[c] == x {
          listenports[c] := y;
          assert listenports[..] == old(listenports[..])[c := y];
          assert old(listenports[..])[c] == x;
          return;
        }
        c := c + 1;
      }
      assert listenports[..c] == listenports[..];
    }
  }
}
