/** The ARP cache: eight entries of network address, hardware address and time stamp. */
module Arp {
  import opened SeqNumbers
  import opened Words

  const UIP_ARPTAB_SIZE := 8
  const UIP_ARP_MAXAGE := 120

  type IpAddr = (bv16, bv16)
  type EthAddr = x: int | 0 <= x < 0x1_0000_0000_0000
  datatype Entry = Entry(ip: IpAddr, eth: EthAddr, time: U8)

  const NO_ADDR: IpAddr := (0, 0)

  predicate InUse(e: Entry) { e.ip.0 | e.ip.1 != 0 }

  /** An address whose halves are both non-zero; the update looks for these only. */
  predicate Full(ip: IpAddr) { ip.0 != 0 && ip.1 != 0 }

  lemma FullInUse(e: Entry)
    ensures Full(e.ip) ==> InUse(e)
    ensures !InUse(e) <==> e.ip == NO_ADDR
  {}

  /** Age in ticks, as the code computes it; negative once the tick counter has wrapped. */
  function Age(e: Entry, now: U8): int { now as int - e.time as int }

  predicate Expired(e: Entry, now: U8) { Age(e, now) >= UIP_ARP_MAXAGE }

  /** The cache as a lookup: the first entry for an address. */
  function Lookup(t: seq<Entry>, ip: IpAddr): (r: Option<EthAddr>)
    decreases |t|
  {
    if t == [] then None else if t[0].ip == ip then Some(t[0].eth) else Lookup(t[1..], ip)
  }

  lemma {:induction false} LookupAt(t: seq<Entry>, ip: IpAddr, i: nat)
    requires i < |t| && t[i].ip == ip && forall j :: 0 <= j < i ==> t[j].ip != ip
    ensures Lookup(t, ip) == Some(t[i].eth)
    decreases |t|
  {
    if i > 0 { LookupAt(t[1..], ip, i - 1); }
  }

  lemma {:induction false} LookupNone(t: seq<Entry>, ip: IpAddr)
    ensures Lookup(t, ip) == None <==> forall i :: 0 <= i < |t| ==> t[i].ip != ip
    decreases |t|
  {
    if t != [] {
      LookupNone(t[1..], ip);
      assert forall i :: 1 <= i < |t| ==> t[i] == t[1..][i - 1];
    }
  }

  /** At most one entry for each full address. */
  ghost predicate Unique(t: seq<Entry>) {
    forall i, j :: 0 <= i < j < |t| && Full(t[i].ip) ==> t[i].ip != t[j].ip
  }

  lemma LookupUnique(t: seq<Entry>, i: nat)
    requires Unique(t) && i < |t| && Full(t[i].ip)
    ensures Lookup(t, t[i].ip) == Some(t[i].eth)
  {
    LookupAt(t, t[i].ip, i);
  }

  /** No entry is stamped in the future: the tick counter has not wrapped since. */
  ghost predicate NotWrapped(t: seq<Entry>, now: U8) {
    forall i :: 0 <= i < |t| ==> t[i].time <= now
  }

  /** The entry that an update overwrites: the one for the address; else the first unused one;
      else the first of the oldest. */
  ghost predicate IsVictim(t: seq<Entry>, ip: IpAddr, now: U8, r: nat) {
    && r < |t|
    && if Full(ip) && exists i :: 0 <= i < |t| && t[i].ip == ip then t[r].ip == ip
       else if exists i :: 0 <= i < |t| && !InUse(t[i]) then
         !InUse(t[r]) && forall i :: 0 <= i < r ==> InUse(t[i])
       else
         (forall i :: 0 <= i < |t| ==> Age(t[i], now) <= Age(t[r], now) || Age(t[i], now) <= 0)
         && forall i :: 0 <= i < r ==> Age(t[i], now) < Age(t[r], now)
  }

  lemma VictimKeepsUnique(t: seq<Entry>, ip: IpAddr, now: U8, r: nat, e: Entry)
    requires Unique(t) && IsVictim(t, ip, now, r) && e.ip == ip
    ensures Unique(t[r := e])
  {}

  /** What an update records is found. */
  lemma UpdateFound(t: seq<Entry>, ip: IpAddr, eth: EthAddr, now: U8, r: nat)
    requires Unique(t) && IsVictim(t, ip, now, r) && Full(ip)
    ensures Lookup(t[r := Entry(ip, eth, now)], ip) == Some(eth)
  {
    hide IsVictim;
    assert r < |t| by { VictimInside(t, ip, now, r); }
    VictimKeepsUnique(t, ip, now, r, Entry(ip, eth, now));
    LookupUnique(t[r := Entry(ip, eth, now)], r);
  }

  lemma VictimInside(t: seq<Entry>, ip: IpAddr, now: U8, r: nat)
    requires IsVictim(t, ip, now, r)
    ensures r < |t|
  {}

  /** What lookups give after an update: the new address for its own key; what they gave before
      for every other full address, except the one whose entry was overwritten, and that only
      if all entries were in use and it was of greatest age. */
  lemma UpdateMeans(t: seq<Entry>, ip: IpAddr, eth: EthAddr, now: U8, r: nat, other: IpAddr)
    requires Unique(t) && NotWrapped(t, now) && IsVictim(t, ip, now, r) && Full(other)
    ensures var u := t[r := Entry(ip, eth, now)];
            && (other == ip ==> Lookup(u, other) == Some(eth))
            && (other != ip && other != t[r].ip ==> Lookup(u, other) == Lookup(t, other))
            && (other != ip && other == t[r].ip ==>
                  Lookup(u, other) == None && (forall i :: 0 <= i < |t| ==> InUse(t[i]))
                  && forall i :: 0 <= i < |t| ==> Age(t[i], now) <= Age(t[r], now))
  {
    var u := t[r := Entry(ip, eth, now)];
    VictimKeepsUnique(t, ip, now, r, Entry(ip, eth, now));
    if other == ip {
      LookupUnique(u, r);
    } else if other == t[r].ip {
      FullInUse(t[r]);
      LookupNone(u, other);
    } else {
      LookupNone(t, other);
      LookupNone(u, other);
      if i :| 0 <= i < |t| && t[i].ip == other {
        LookupUnique(t, i);
        assert u[i] == t[i];
        LookupUnique(u, i);
      }
    }
  }

  /** The table after the timer has removed what has expired. */
  ghost predicate Swept(t: seq<Entry>, u: seq<Entry>, now: U8) {
    && |u| == |t|
    && forall i :: 0 <= i < |t| ==>
         u[i] == if InUse(t[i]) && Expired(t[i], now) then t[i].(ip := NO_ADDR) else t[i]
  }

  /** What lookups give after the timer: nothing for an expired entry, the same otherwise. */
  lemma SweepMeans(t: seq<Entry>, u: seq<Entry>, now: U8, ip: IpAddr)
    requires Unique(t) && Swept(t, u, now) && Full(ip)
    ensures Unique(u)
    ensures Lookup(u, ip) ==
            if exists i :: 0 <= i < |t| && t[i].ip == ip && Expired(t[i], now) then None else Lookup(t, ip)
  {
    LookupNone(t, ip);
    LookupNone(u, ip);
    if i :| 0 <= i < |t| && t[i].ip == ip {
      FullInUse(t[i]);
      LookupUnique(t, i);
      if !Expired(t[i], now) { LookupUnique(u, i); }
    }
  }

  // ----- runs of the timer -----

  function ClockAfter(now: U8, n: nat): U8 { (now as int + n) % 256 }

  /** A run of n ticks: before and after are the tables around each tick, and in between slot i
      is not written to, whatever happens to the others. */
  ghost predicate Ticked(before: seq<seq<Entry>>, after: seq<seq<Entry>>, i: nat, now: U8) {
    && |before| == |after|
    && (forall k :: 0 <= k < |before| ==> i < |before[k]| && Swept(before[k], after[k], ClockAfter(now, k + 1)))
    && (forall k :: 0 < k < |before| ==> before[k][i] == after[k - 1][i])
  }

  /** An entry just stamped and not renewed is gone after n ticks exactly when n is at least
      the maximal age and the stamp is before 136; stamped later it outlives every run. */
  lemma {:induction false} GoneAfter(before: seq<seq<Entry>>, after: seq<seq<Entry>>, i: nat, now: U8)
    requires Ticked(before, after, i, now) && before != []
    requires before[0][i].time == now && InUse(before[0][i])
    ensures var e := after[|after| - 1][i];
            && (InUse(e) <==> |before| < UIP_ARP_MAXAGE || now as int >= 256 - UIP_ARP_MAXAGE)
            && (InUse(e) ==> e == before[0][i]) && e.time == now
    decreases |before|
  {
    hide InUse, Full, ClockAfter, Expired, Ticked;
    var n := |before|;
    TickOne(before, after, i, now, n - 1);
    ClockWithin(now, n);
    if n > 1 {
      ButLast(before, after, i, now);
      GoneAfter(before[..n - 1], after[..n - 1], i, now);
    }
  }

  lemma TickOne(before: seq<seq<Entry>>, after: seq<seq<Entry>>, i: nat, now: U8, k: nat)
    requires Ticked(before, after, i, now) && k < |before|
    ensures |after| == |before| && i < |before[k]| == |after[k]|
    ensures after[k][i].time == before[k][i].time && (InUse(after[k][i]) ==> after[k][i] == before[k][i])
    ensures InUse(after[k][i]) <==> InUse(before[k][i]) && !Expired(before[k][i], ClockAfter(now, k + 1))
  {
    hide InUse, Expired, ClockAfter;
    assert Swept(before[k], after[k], ClockAfter(now, k + 1));
    FullInUse(before[k][i]);
    FullInUse(after[k][i]);
  }

  lemma ButLast(before: seq<seq<Entry>>, after: seq<seq<Entry>>, i: nat, now: U8)
    requires Ticked(before, after, i, now) && |before| > 1
    ensures var n := |before| - 1;
            && Ticked(before[..n], after[..n], i, now) && |after| == n + 1
            && i < |before[n]| && i < |after[..n][n - 1]| && before[n][i] == after[..n][n - 1][i]
  {
    hide Swept, ClockAfter;
    var n := |before| - 1;
    assert Swept(before[n - 1], after[n - 1], ClockAfter(now, n));
    assert |after[n - 1]| == |before[n - 1]| by { TickOne(before, after, i, now, n - 1); }
  }

  lemma ClockWithin(now: U8, n: nat)
    ensures forall e: Entry :: e.time == now ==>
              && (now as int >= 256 - UIP_ARP_MAXAGE || n < UIP_ARP_MAXAGE ==> !Expired(e, ClockAfter(now, n)))
              && (now as int < 256 - UIP_ARP_MAXAGE && n == UIP_ARP_MAXAGE ==> Expired(e, ClockAfter(now, n)))
  {}

  // ----- the cache -----

  datatype Packet = Packet(opcode: U16, shwaddr: EthAddr, sip: IpAddr, dhwaddr: EthAddr, dip: IpAddr)
  datatype Output = Frame(dest: EthAddr) | Request(dest: EthAddr, p: Packet)

  const ARP_REQUEST: U16 := 1
  const ARP_REPLY: U16 := 2
  const BROADCAST: IpAddr := (0xffff, 0xffff)
  const ETH_BROADCAST: EthAddr := 0xffff_ffff_ffff

  class Cache {
    const table: array<Entry>
    var arptime: U8
    const hostaddr: IpAddr
    const draddr: IpAddr
    const netmask: IpAddr
    const ethaddr: EthAddr

    ghost predicate Valid()
      reads this, table
    {
      table.Length == UIP_ARPTAB_SIZE && Unique(table[..])
    }

    constructor (host: IpAddr, router: IpAddr, mask: IpAddr, eth: EthAddr)
      ensures Valid() && NotWrapped(table[..], arptime) && fresh(table)
      ensures forall i :: 0 <= i < UIP_ARPTAB_SIZE ==> !InUse(table[i])
    {
      table := new Entry[UIP_ARPTAB_SIZE](_ => Entry(NO_ADDR, 0, 0));
      arptime := 0;
      hostaddr, draddr, netmask, ethaddr := host, router, mask, eth;
    }

    /** One tick: what is in use and has reached the maximal age is removed. */
    method Timer()
      requires Valid()
      modifies this`arptime, table
      ensures Valid() && arptime == Add8(old(arptime), 1)
      ensures Swept(old(table[..]), table[..], arptime)
      ensures old(NotWrapped(table[..], arptime)) && old(arptime) < 255 ==> NotWrapped(table[..], arptime)
    {
      hide InUse, Full, Unique;
      arptime := Add8(arptime, 1);
      ghost var t := table[..];
      var i := 0;
      while i < UIP_ARPTAB_SIZE
        invariant 0 <= i <= UIP_ARPTAB_SIZE
        invariant Swept(t[..i], table[..i], arptime) && table[i..] == t[i..]
        modifies table
      {
        assert table[i] == table[i..][0] == t[i..][0] == t[i];
        if InUse(table[i]) && arptime as int - table[i].time as int >= UIP_ARP_MAXAGE {
          table[i] := table[i].(ip := NO_ADDR);
        }
        i := i + 1;
      }
      assert table[..i] == table[..] && t[..i] == t;
      SweepMeans(t, table[..], arptime, (1, 1));
    }

    method FindVictim(ip: IpAddr) returns (r: nat)
      requires Valid()
      ensures IsVictim(table[..], ip, arptime, r)
    {
      r := 0;
      while r < UIP_ARPTAB_SIZE
        invariant 0 <= r <= UIP_ARPTAB_SIZE
        invariant forall i :: 0 <= i < r ==> !(Full(table[i].ip) && table[i].ip == ip)
      {
        if table[r].ip.0 != 0 && table[r].ip.1 != 0 && ip == table[r].ip {
          assert table[..][r].ip == ip;
          return;
        }
        r := r + 1;
      }
      r := 0;
      while r < UIP_ARPTAB_SIZE
        invariant 0 <= r <= UIP_ARPTAB_SIZE
        invariant forall i :: 0 <= i < r ==> InUse(table[i])
      {
        FullInUse(table[r]);
        if table[r].ip == NO_ADDR {
          assert !InUse(table[..][r]);
          return;
        }
        r := r + 1;
      }
      r := FindOldest();
    }

    method FindOldest() returns (r: nat)
      requires Valid()
      ensures r < UIP_ARPTAB_SIZE
      ensures forall i :: 0 <= i < UIP_ARPTAB_SIZE ==>
                Age(table[i], arptime) <= Age(table[r], arptime) || Age(table[i], arptime) <= 0
      ensures forall i :: 0 <= i < r ==> Age(table[i], arptime) < Age(table[r], arptime)
    {
      var tmpage: int := 0;
      r := 0;
      var i := 0;
      while i < UIP_ARPTAB_SIZE
        invariant 0 <= i <= UIP_ARPTAB_SIZE && 0 <= tmpage < 256 && r < UIP_ARPTAB_SIZE
        invariant forall j :: 0 <= j < i ==> Age(table[j], arptime) <= tmpage
        invariant if tmpage == 0 then r == 0 else r < i && Age(table[r], arptime) == tmpage
        invariant forall j :: 0 <= j < r ==> Age(table[j], arptime) < tmpage
      {
        if arptime as int - table[i].time as int > tmpage {
          tmpage := arptime as int - table[i].time as int;
          r := i;
        }
        i := i + 1;
      }
    }

    /** Record an address. */
    method Update(ip: IpAddr, eth: EthAddr) returns (ghost r: nat)
      requires Valid()
      modifies table
      ensures Valid() && IsVictim(old(table[..]), ip, arptime, r)
      ensures table[..] == old(table[..])[r := Entry(ip, eth, arptime)]
      ensures old(NotWrapped(table[..], arptime)) ==> NotWrapped(table[..], arptime)
    {
      ghost var t := table[..];
      var i := FindVictim(ip);
      VictimKeepsUnique(t, ip, arptime, i, Entry(ip, eth, arptime));
      table[i] := Entry(ip, eth, arptime);
      r := i;
      assert table[..] == t[r := Entry(ip, eth, arptime)];
    }

    /** An incoming ARP packet: whoever asks for our address, or answers us, is recorded; a
        request is answered. */
    method ArpIn(p: Packet) returns (reply: Option<Packet>)
      requires Valid()
      modifies table
      ensures Valid() && (old(NotWrapped(table[..], arptime)) ==> NotWrapped(table[..], arptime))
      ensures reply == if p.opcode == ARP_REQUEST && p.dip == hostaddr
                       then Some(Packet(ARP_REPLY, ethaddr, hostaddr, p.shwaddr, p.sip)) else None
      ensures p.dip == hostaddr && p.opcode in {ARP_REQUEST, ARP_REPLY} ==>
                exists r: nat :: IsVictim(old(table[..]), p.sip, arptime, r)
                            && table[..] == old(table[..])[r := Entry(p.sip, p.shwaddr, arptime)]
      ensures !(p.dip == hostaddr && p.opcode in {ARP_REQUEST, ARP_REPLY}) ==> table[..] == old(table[..])
    {
      reply := None;
      if p.opcode == ARP_REQUEST {
        if p.dip == hostaddr {
          ghost var r := Update(p.sip, p.shwaddr);
          reply := Some(Packet(ARP_REPLY, ethaddr, hostaddr, p.shwaddr, p.sip));
        }
      } else if p.opcode == ARP_REPLY {
        if p.dip == hostaddr {
          ghost var r := Update(p.sip, p.shwaddr);
        }
      }
    }

    /** The address to resolve for a destination: its own on the local network, else the router's. */
    function NextHop(dest: IpAddr): IpAddr {
      if dest.0 & netmask.0 == hostaddr.0 & netmask.0 && dest.1 & netmask.1 == hostaddr.1 & netmask.1
      then dest else draddr
    }

    /** A destination is resolved itself exactly if it differs from our address in no bit of the
        netmask; the router is, otherwise. */
    lemma NextHopIs(dest: IpAddr)
      ensures (dest.0 ^ hostaddr.0) & netmask.0 == 0 && (dest.1 ^ hostaddr.1) & netmask.1 == 0 ==> NextHop(dest) == dest
      ensures (dest.0 ^ hostaddr.0) & netmask.0 != 0 || (dest.1 ^ hostaddr.1) & netmask.1 != 0 ==> NextHop(dest) == draddr
    {
      MaskedSame(dest.0, hostaddr.0, netmask.0);
      MaskedSame(dest.1, hostaddr.1, netmask.1);
    }

    /** Where to send an IP packet: to the hardware address in the cache, or else ask for it. */
    method ArpOut(dest: IpAddr) returns (out: Output)
      requires Valid()
      ensures out == if dest == BROADCAST then Frame(ETH_BROADCAST)
                     else match Lookup(table[..], NextHop(dest))
                          case Some(eth) => Frame(eth)
                          case None => Request(ETH_BROADCAST, Packet(ARP_REQUEST, ethaddr, hostaddr, 0, NextHop(dest)))
    {
      if dest == BROADCAST {
        return Frame(ETH_BROADCAST);
      }
      var ip := NextHop(dest);
      var i := 0;
      while i < UIP_ARPTAB_SIZE
        invariant 0 <= i <= UIP_ARPTAB_SIZE
        invariant forall j :: 0 <= j < i ==> table[j].ip != ip
      {
        if ip == table[i].ip {
          LookupAt(table[..], ip, i);
          return Frame(table[i].eth);
        }
        i := i + 1;
      }
      LookupNone(table[..], ip);
      out := Request(ETH_BROADCAST, Packet(ARP_REQUEST, ethaddr, hostaddr, 0, ip));
    }
  }

  lemma MaskedSame(x: bv16, y: bv16, m: bv16)
    ensures (x ^ y) & m == 0 <==> x & m == y & m
  {}

  /** Two hosts: what one asks for, the other answers, and then both know each other, and the
      first sends to the second. */
  method Exchange(a: Cache, b: Cache, dest: IpAddr) returns (out: Output)
    requires a.Valid() && b.Valid() && a != b && a.table != b.table
    requires dest != BROADCAST && a.NextHop(dest) == b.hostaddr && Full(a.hostaddr) && Full(b.hostaddr)
    requires Lookup(a.table[..], b.hostaddr) == None
    modifies a.table, b.table
    ensures a.Valid() && b.Valid() && out == Frame(b.ethaddr)
    ensures Lookup(a.table[..], b.hostaddr) == Some(b.ethaddr)
    ensures Lookup(b.table[..], a.hostaddr) == Some(a.ethaddr)
  {
    hide Lookup, Unique, Full, InUse;
    ghost var t, u := a.table[..], b.table[..];
    ValidUnique(a);
    ValidUnique(b);
    out := a.ArpOut(dest);
    var reply := b.ArpIn(out.p);
    ghost var r: nat :| IsVictim(u, a.hostaddr, b.arptime, r) && b.table[..] == u[r := Entry(a.hostaddr, a.ethaddr, b.arptime)];
    UpdateFound(u, a.hostaddr, a.ethaddr, b.arptime, r);
    var none := a.ArpIn(reply.value);
    ghost var q: nat :| IsVictim(t, b.hostaddr, a.arptime, q) && a.table[..] == t[q := Entry(b.hostaddr, b.ethaddr, a.arptime)];
    UpdateFound(t, b.hostaddr, b.ethaddr, a.arptime, q);
    out := a.ArpOut(dest);
  }

  lemma ValidUnique(c: Cache)
    requires c.Valid()
    ensures Unique(c.table[..])
  {}
}
