/** The Internet checksum: the one's complement sum of 16-bit words, computed with end-around
    carries, as the send path fills it in and the receive path tests it. */
module Checksum {
  import opened Words

  // ----- what the sum means -----

  /** The sum of the big-endian words; an odd last byte is padded with zero. */
  function WordSum(s: seq<U8>): nat {
    if s == [] then 0
    else if |s| == 1 then s[0] as int * 256
    else s[0] as int * 256 + s[1] as int + WordSum(s[2..])
  }

  /** The one's complement representative of a sum: congruent to it modulo 65535, and zero only
      for zero. */
  function Fold(n: nat): (r: U16)
    ensures r as int % 65535 == n % 65535 && (r == 0 <==> n == 0)
  {
    if n == 0 then 0 else (n - 1) % 65535 + 1
  }

  /** These two conditions determine the representative. */
  lemma FoldUnique(n: nat, r: U16)
    requires r as int % 65535 == n % 65535 && (r == 0 <==> n == 0)
    ensures r == Fold(n)
  {}

  lemma FoldFold(a: nat, b: nat)
    ensures Fold(Fold(a) as int + b) == Fold(a + b)
  {
    assert (Fold(a) as int + b) % 65535 == (a + b) % 65535;
    FoldUnique(a + b, Fold(Fold(a) as int + b));
  }

  /** One word added with the carry brought around. */
  function AddWord(sum: U16, t: U16): U16 {
    var s := (sum as int + t as int) % 0x1_0000;
    if s < t as int then s + 1 else s
  }

  lemma AddWordFolds(n: nat, t: U16)
    ensures AddWord(Fold(n), t) == Fold(n + t as int)
  {
    FoldFold(n, t as int);
    var m := Fold(n) as int + t as int;
    if m >= 0x1_0000 {
      assert AddWord(Fold(n), t) as int == m - 65535;
    }
    FoldUnique(m, AddWord(Fold(n), t));
  }

  /** Split at an even place, the sums add up. */
  lemma {:induction false} WordSumSplit(a: seq<U8>, b: seq<U8>)
    requires |a| % 2 == 0
    ensures WordSum(a + b) == WordSum(a) + WordSum(b)
  {
    if a == [] {
      assert a + b == b;
    } else {
      assert (a + b)[2..] == a[2..] + b;
      WordSumSplit(a[2..], b);
    }
  }

  function WithWord(s: seq<U8>, i: nat, hi: U8, lo: U8): (r: seq<U8>)
    requires i + 1 < |s|
    ensures |r| == |s| && r[i] == hi && r[i + 1] == lo
    ensures forall j :: 0 <= j < |s| && j != i && j != i + 1 ==> r[j] == s[j]
  {
    s[..i] + [hi, lo] + s[i + 2..]
  }

  lemma WordSumAt(s: seq<U8>, i: nat)
    requires i % 2 == 0 && i + 1 < |s|
    ensures WordSum(s) == WordSum(s[..i]) + s[i] as int * 256 + s[i + 1] as int + WordSum(s[i + 2..])
  {
    WordSumSplit(s[..i], s[i..]);
    assert s[..i] + s[i..] == s && s[i..][2..] == s[i + 2..];
  }

  /** Filling in a word that was zero. */
  lemma WordSumFill(s: seq<U8>, i: nat, hi: U8, lo: U8)
    requires i % 2 == 0 && i + 1 < |s| && s[i] == 0 && s[i + 1] == 0
    ensures WordSum(WithWord(s, i, hi, lo)) == WordSum(s) + hi as int * 256 + lo as int
  {
    hide WordSum, WithWord;
    var t := WithWord(s, i, hi, lo);
    WordSumAt(s, i);
    WordSumAt(t, i);
    assert t[..i] == s[..i] && t[i + 2..] == s[i + 2..];
  }

  lemma {:induction false} WordSumZero(s: seq<U8>)
    ensures WordSum(s) == 0 <==> forall i :: 0 <= i < |s| ==> s[i] == 0
  {
    if |s| >= 2 {
      WordSumZero(s[2..]);
      assert forall i :: 2 <= i < |s| ==> s[i] == s[2..][i - 2];
    }
  }

  lemma OneWord(hi: U8, lo: U8)
    ensures WordSum([hi, lo]) == hi as int * 256 + lo as int
  {
    assert [hi, lo][2..] == [];
  }

  lemma LastByte(hi: U8)
    ensures WordSum([hi]) == hi as int * 256
  {}

  // ----- computing it -----

  lemma NoWords(start: U16)
    ensures Fold(start as int + WordSum([])) == start
  {}

  lemma NextWord(start: U16, d: seq<U8>, p: nat)
    requires p % 2 == 0 && p + 1 < |d|
    ensures AddWord(Fold(start as int + WordSum(d[..p])), d[p] as int * 256 + d[p + 1] as int)
            == Fold(start as int + WordSum(d[..p + 2]))
  {
    AddWordFolds(start as int + WordSum(d[..p]), d[p] as int * 256 + d[p + 1] as int);
    OneWord(d[p], d[p + 1]);
    WordSumSplit(d[..p], [d[p], d[p + 1]]);
    assert d[..p + 2] == d[..p] + [d[p], d[p + 1]];
  }

  lemma OddByte(start: U16, d: seq<U8>, p: nat)
    requires p % 2 == 0 && p + 1 == |d|
    ensures AddWord(Fold(start as int + WordSum(d[..p])), d[p] as int * 256) == Fold(start as int + WordSum(d))
  {
    AddWordFolds(start as int + WordSum(d[..p]), d[p] as int * 256);
    LastByte(d[p]);
    WordSumSplit(d[..p], [d[p]]);
    assert d == d[..p] + [d[p]];
  }

  /** The checksum of part of a buffer, continuing from a start value. */
  method Chksum(start: U16, data: array<U8>, from: nat, len: nat) returns (sum: U16)
    requires from + len <= data.Length
    ensures sum == Fold(start as int + WordSum(data[from..from + len]))
  {
    hide Fold, WordSum;
    ghost var d := data[from..from + len];
    assert d[..0] == [];
    NoWords(start);
    sum := start;
    var p := 0;
    while p + 1 < len
      invariant 0 <= p <= len && p % 2 == 0
      invariant sum == Fold(start as int + WordSum(d[..p]))
    {
      NextWord(start, d, p);
      var t: U16 := data[from + p] as int * 256 + data[from + p + 1] as int;
      sum := (sum as int + t as int) % 0x1_0000;
      if sum < t {
        sum := sum + 1;
      }
      p := p + 2;
    }
    if p + 1 == len {
      OddByte(start, d, p);
      var t: U16 := data[from + p] as int * 256;
      sum := (sum as int + t as int) % 0x1_0000;
      if sum < t {
        sum := sum + 1;
      }
    } else {
      assert d[..p] == d;
    }
  }

  /** Computed in two parts, split at an even place, the result is the same. */
  lemma ChksumComposes(start: U16, a: seq<U8>, b: seq<U8>)
    requires |a| % 2 == 0
    ensures Fold(Fold(start as int + WordSum(a)) as int + WordSum(b)) == Fold(start as int + WordSum(a + b))
  {
    WordSumSplit(a, b);
    FoldFold(start as int + WordSum(a), WordSum(b));
  }

  // ----- the header fields -----

  /** What the checksum functions return for a sum. */
  function Returned(sum: U16): U16 { if sum == 0 then 0xffff else Htons(sum) }

  /** A sum passes the receive test. */
  predicate Passes(sum: U16) { Returned(sum) == 0xffff }

  function Complement(x: U16): U16 { 0xffff - x }

  /** A 16-bit variable in the memory of a little-endian machine. */
  function Memory(v: U16): (U8, U8) { (v % 256, v / 256) }

  /** The test accepts exactly the sums that are multiples of 65535. */
  lemma PassesExactly(n: nat)
    ensures Passes(Fold(n)) <==> n % 65535 == 0
  {
    HtonsOnes(Fold(n));
    hide Htons;
  }

  lemma HtonsOnes(x: U16)
    ensures Htons(x) == 0xffff <==> x == 0xffff
  {
    var a, b := x as int / 256, x as int % 256;
    assert x as int == 256 * a + b && Htons(x) as int == 256 * b + a && a < 256 && b < 256;
  }

  /** The complement of a sum in network order, stored by a little-endian machine, reads in
      memory as the complement of the sum in big-endian order. */
  lemma StoredComplement(sum: U16)
    ensures var m := Memory(Complement(Htons(sum))); m.0 as int * 256 + m.1 as int == 65535 - sum as int
  {
    var a, b := sum as int / 256, sum as int % 256;
    assert Complement(Htons(sum)) as int == (255 - b) * 256 + (255 - a);
    assert Memory(Complement(Htons(sum))).0 as int == 255 - a;
  }

  /** A field computed from the rest, as the send path stores it, makes the whole pass. */
  lemma FilledPasses(n: nat)
    ensures var m := Memory(Complement(Returned(Fold(n))));
            Passes(Fold(n + m.0 as int * 256 + m.1 as int))
  {
    StoredComplement(Fold(n));
    assert Memory(0) == (0, 0);
    hide Memory, Htons;
    if n == 0 {
      PassesExactly(0);
    } else {
      assert (n + (65535 - Fold(n) as int)) % 65535 == 0 by { Multiple(n); }
      PassesExactly(n + (65535 - Fold(n) as int));
    }
  }

  lemma Multiple(n: nat)
    requires n > 0
    ensures (n + 65535 - Fold(n) as int) % 65535 == 0
  {
    assert n + 65535 - Fold(n) as int == 65535 * ((n - 1) / 65535 + 1);
  }

  const UIP_IPH_LEN := 20
  const IPCHKSUM_AT := 10
  const TCPCHKSUM_AT := 16
  const UIP_PROTO_TCP := 6

  /** The IP checksum field of a packet: the first 20 bytes of the buffer are the header. */
  method IpChksum(buf: array<U8>) returns (r: U16)
    requires buf.Length >= UIP_IPH_LEN
    ensures r == Returned(Fold(WordSum(buf[..UIP_IPH_LEN])))
  {
    var sum := Chksum(0, buf, 0, UIP_IPH_LEN);
    assert buf[0..UIP_IPH_LEN] == buf[..UIP_IPH_LEN];
    r := Returned(sum);
  }

  /** The send path fills in the IP checksum; the receive test then passes. */
  method FillIpChksum(buf: array<U8>)
    requires buf.Length >= UIP_IPH_LEN
    modifies buf
    ensures Passes(Fold(WordSum(buf[..UIP_IPH_LEN])))
    ensures forall i :: 0 <= i < buf.Length && i != IPCHKSUM_AT && i != IPCHKSUM_AT + 1 ==> buf[i] == old(buf[i])
  {
    buf[IPCHKSUM_AT], buf[IPCHKSUM_AT + 1] := 0, 0;
    ghost var h := buf[..UIP_IPH_LEN];
    var r := IpChksum(buf);
    var v := Complement(r);
    buf[IPCHKSUM_AT], buf[IPCHKSUM_AT + 1] := Memory(v).0, Memory(v).1;
    WordSumFill(h, IPCHKSUM_AT, Memory(v).0, Memory(v).1);
    assert buf[..UIP_IPH_LEN] == WithWord(h, IPCHKSUM_AT, Memory(v).0, Memory(v).1);
    FilledPasses(WordSum(h));
  }

  /** The bytes that the TCP checksum covers, by section 3.1 of RFC 793: source and destination
      address, zero, protocol, segment length, and the segment. */
  function Covered(packet: seq<U8>, len: U16): (c: seq<U8>)
    requires UIP_IPH_LEN + len as int <= |packet|
  {
    packet[12..16] + packet[16..20] + [0, UIP_PROTO_TCP, len / 256, len % 256]
    + packet[UIP_IPH_LEN..UIP_IPH_LEN + len as int]
  }

  /** The same sum as the code adds it up: length and protocol as one word each, then both
      addresses, then the segment. */
  function TcpSum(packet: seq<U8>, len: nat): nat
    requires UIP_IPH_LEN + len <= |packet|
  {
    len + UIP_PROTO_TCP + WordSum(packet[12..20]) + WordSum(packet[UIP_IPH_LEN..UIP_IPH_LEN + len])
  }

  lemma TwoWords(a: U8, b: U8, c: U8, d: U8)
    ensures WordSum([a, b, c, d]) == a as int * 256 + b as int + c as int * 256 + d as int
  {
    assert [a, b, c, d][2..] == [c, d];
    OneWord(c, d);
  }

  lemma TcpSumCovers(packet: seq<U8>, len: U16)
    requires UIP_IPH_LEN + len as int <= |packet|
    ensures TcpSum(packet, len as int)
            == WordSum(packet[12..16] + packet[16..20] + [0, 6, len / 256, len % 256]
                       + packet[UIP_IPH_LEN..UIP_IPH_LEN + len as int])
  {
    hide WordSum;
    var src, dst, rest := packet[12..16], packet[16..20], [0, 6, len / 256, len % 256];
    TwoWords(0, 6, len / 256, len % 256);
    WordSumSplit(src + dst + rest, packet[UIP_IPH_LEN..UIP_IPH_LEN + len as int]);
    WordSumSplit(src + dst, rest);
    assert src + dst == packet[12..20];
  }

  /** The TCP checksum over a segment of len bytes behind the IP header: the one's complement sum
      of the pseudo-header and the segment. */
  method UpperLayerChksum(buf: array<U8>, len: U16) returns (r: U16)
    requires UIP_IPH_LEN + len as int <= buf.Length && len as int + UIP_PROTO_TCP < 0x1_0000
    ensures r == Returned(Fold(TcpSum(buf[..], len as int)))
    ensures r == Returned(Fold(WordSum(buf[12..16] + buf[16..20] + [0, 6, len / 256, len % 256]
                                       + buf[UIP_IPH_LEN..UIP_IPH_LEN + len as int])))
  {
    hide WordSum, Fold;
    var sum: U16 := len as int + UIP_PROTO_TCP;
    ghost var a, b := WordSum(buf[12..20]), WordSum(buf[UIP_IPH_LEN..UIP_IPH_LEN + len as int]);
    FoldFold(sum as int + a, b);
    sum := Chksum(sum, buf, 12, 8);
    sum := Chksum(sum, buf, UIP_IPH_LEN, len as int);
    assert buf[..][12..20] == buf[12..20];
    assert buf[..][UIP_IPH_LEN..UIP_IPH_LEN + len as int] == buf[UIP_IPH_LEN..UIP_IPH_LEN + len as int];
    assert buf[..][12..16] == buf[12..16] && buf[..][16..20] == buf[16..20];
    TcpSumCovers(buf[..], len);
    r := Returned(sum);
  }

  /** The send path fills in the TCP checksum; the receive test then passes. */
  method FillTcpChksum(buf: array<U8>, len: U16)
    requires UIP_IPH_LEN + len as int <= buf.Length && len as int + UIP_PROTO_TCP < 0x1_0000
    requires len as int >= TCPCHKSUM_AT + 2
    modifies buf
    ensures Passes(Fold(WordSum(Covered(buf[..], len))))
    ensures WordSum(Covered(buf[..], len)) % 65535 == 0
    ensures forall i :: 0 <= i < buf.Length && i != UIP_IPH_LEN + TCPCHKSUM_AT && i != UIP_IPH_LEN + TCPCHKSUM_AT + 1 ==>
              buf[i] == old(buf[i])
  {
    hide WordSum, Fold, TcpSum;
    var at := UIP_IPH_LEN + TCPCHKSUM_AT;
    buf[at], buf[at + 1] := 0, 0;
    ghost var p := buf[..];
    var r := UpperLayerChksum(buf, len);
    var m := Memory(Complement(r));
    buf[at], buf[at + 1] := m.0, m.1;
    TcpFill(p, len as int, m.0, m.1);
    assert buf[..] == WithWord(p, at, m.0, m.1);
    FilledPasses(TcpSum(p, len as int));
    TcpSumCovers(buf[..], len);
    PassesExactly(TcpSum(buf[..], len as int));
  }

  lemma TcpFill(p: seq<U8>, len: nat, hi: U8, lo: U8)
    requires UIP_IPH_LEN + len <= |p| && len >= TCPCHKSUM_AT + 2
    requires p[36] == 0 && p[37] == 0
    ensures TcpSum(WithWord(p, 36, hi, lo), len) == TcpSum(p, len) + hi as int * 256 + lo as int
  {
    hide WordSum;
    var q := WithWord(p, 36, hi, lo);
    var s := p[UIP_IPH_LEN..UIP_IPH_LEN + len];
    assert q[12..20] == p[12..20];
    assert q[UIP_IPH_LEN..UIP_IPH_LEN + len] == WithWord(s, TCPCHKSUM_AT, hi, lo);
    WordSumFill(s, TCPCHKSUM_AT, hi, lo);
  }
}
