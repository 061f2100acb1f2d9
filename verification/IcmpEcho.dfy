/** Answering a ping by changing the type and adjusting the checksum field in place. */
module IcmpEcho {
  import opened Checksum
  import opened Words

  const ICMP_ECHO := 8
  const ICMP_ECHO_REPLY := 0

  /** The sum of the words as a little-endian machine sees them. */
  function SwappedSum(s: seq<U8>): nat {
    if s == [] then 0
    else if |s| == 1 then s[0] as int
    else s[0] as int + s[1] as int * 256 + SwappedSum(s[2..])
  }

  /** Byte order does not matter for the sum modulo 65535, up to a factor of 256. */
  lemma {:induction false} SwappedSumIs(s: seq<U8>)
    ensures SwappedSum(s) * 256 % 65535 == WordSum(s) % 65535
  {
    if |s| >= 2 {
      SwappedSumIs(s[2..]);
      var x, y := SwappedSum(s[2..]), WordSum(s[2..]);
      var a, b := s[0] as int, s[1] as int;
      assert (a + b * 256 + x) * 256 == (a * 256 + b) + x * 256 + 65535 * b;
      Shift(a * 256 + b + x * 256, b);
      Same(x * 256, y, a * 256 + b);
    }
  }

  lemma Shift(n: nat, k: nat)
    ensures (n + 65535 * k) % 65535 == n % 65535
  {}

  lemma Same(m: nat, n: nat, k: nat)
    requires m % 65535 == n % 65535
    ensures (k + m) % 65535 == (k + n) % 65535
  {}

  lemma ZeroEitherWay(s: seq<U8>)
    ensures WordSum(s) % 65535 == 0 <==> SwappedSum(s) % 65535 == 0
  {
    SwappedSumIs(s);
    var x := SwappedSum(s);
    if x % 65535 == 0 {
      var k := x / 65535;
      assert x * 256 == 65535 * (k * 256);
      Shift(0, k * 256);
    }
    if x * 256 % 65535 == 0 {
      var k := x * 256 / 65535;
      assert x * 256 == 65535 * k;
      assert x * 0x1_0000 == 65535 * (k * 256);
      assert x + 65535 * x == 65535 * (k * 256);
      Shift(x, x);
      Shift(0, k * 256);
    }
  }

  /** A message with a correct checksum: its one's complement sum is all ones. */
  predicate Correct(s: seq<U8>) { Fold(WordSum(s)) == 0xffff }

  /** The value of the checksum field as a little-endian machine reads it. */
  function Field(s: seq<U8>): U16
    requires |s| >= 4
  {
    s[2] as int + s[3] as int * 256
  }

  /** The one's complement sum of a message, as the machine sees it, is that of its type, code
      and checksum field and of the rest. */
  lemma SwappedParts(s: seq<U8>)
    requires |s| >= 4
    ensures SwappedSum(s) == s[0] as int + s[1] as int * 256 + Field(s) as int + SwappedSum(s[4..])
  {
    assert s[2..][2..] == s[4..];
  }

  /** The sum is kept by clearing the type and adjusting the field. */
  lemma SumKept(before: seq<U8>, after: seq<U8>)
    requires |before| == |after| >= 8 && before[0] == ICMP_ECHO && after[0] == ICMP_ECHO_REPLY
    requires after[1] == before[1] && after[4..] == before[4..] && Field(after) == NewField(Field(before))
    ensures SwappedSum(after) % 65535 == SwappedSum(before) % 65535
    ensures WordSum(after) % 65535 == 0 <==> WordSum(before) % 65535 == 0
  {
    SwappedParts(before);
    SwappedParts(after);
    hide SwappedSum, WordSum;
    if Field(before) >= 0xfff7 {
      Shift(SwappedSum(after), 1);
    }
    ZeroEitherWay(before);
    ZeroEitherWay(after);
  }

  /** Change an echo request to a reply. */
  method Reply(msg: array<U8>)
    requires msg.Length >= 8 && msg[0] == ICMP_ECHO
    modifies msg
    ensures msg[0] == ICMP_ECHO_REPLY && msg[1] == old(msg[1])
    ensures msg[4..] == old(msg[4..])
    ensures SwappedSum(msg[..]) % 65535 == old(SwappedSum(msg[..])) % 65535
    ensures WordSum(msg[..]) % 65535 == 0 <==> old(WordSum(msg[..])) % 65535 == 0
    ensures Field(msg[..]) == NewField(old(Field(msg[..])))
  {
    hide SwappedSum, WordSum;
    ghost var before := msg[..];
    msg[0] := ICMP_ECHO_REPLY;
    var v: U16 := msg[2] as int + msg[3] as int * 256;
    if v >= Htons(0xffff - ICMP_ECHO * 256) {
      v := (v as int + Htons(ICMP_ECHO * 256) as int + 1) % 0x1_0000;
    } else {
      v := v + Htons(ICMP_ECHO * 256);
    }
    msg[2], msg[3] := Memory(v).0, Memory(v).1;
    assert before[4..] == msg[..][4..] == msg[4..];
    assert Field(msg[..]) == v == NewField(Field(before));
    SumKept(before, msg[..]);
  }

  /** The adjusted field. */
  function NewField(v: U16): U16 {
    if v >= 0xfff7 then v - 0xfff7 else v + 8
  }

  /** The request of a given length in which everything but type and checksum is zero. */
  lemma EmptyRequest(request: seq<U8>)
    requires |request| >= 8 && WordSum(request) % 65535 == 0 && request[0] == ICMP_ECHO
    requires request[1] == 0 && forall i :: 4 <= i < |request| ==> request[i] == 0
    ensures Field(request) == 0xfff7
  {
    var tail := request[4..];
    assert forall i :: 0 <= i < |tail| ==> tail[i] == 0;
    WordSumZero(tail);
    WordSumSplit(request[..4], tail);
    assert request[..4] + tail == request;
    assert request[..4][2..] == [request[2], request[3]];
    assert WordSum(request) == 0x800 + request[2] as int * 256 + request[3] as int;
    assert request[2] == 0xf7 && request[3] == 0xff;
  }

  /** Such a request: it is correct, and whatever reply is made of it is not. */
  lemma EmptyRequestFails(reply: seq<U8>) returns (request: seq<U8>)
    requires |reply| == 8 && reply[0] == ICMP_ECHO_REPLY && reply[1] == 0 && reply[4..] == [0, 0, 0, 0]
    requires Field(reply) == NewField(0xfff7)
    ensures request == [8, 0, 0xf7, 0xff, 0, 0, 0, 0]
    ensures Correct(request) && Field(request) == 0xfff7 && !Correct(reply)
  {
    request := [8, 0, 0xf7, 0xff, 0, 0, 0, 0];
    var tail := request[4..];
    WordSumZero(tail);
    WordSumSplit(request[..4], tail);
    assert request[..4] + tail == request && request[..4][2..] == [0xf7, 0xff];
    assert WordSum(request) == 0xffff;
    assert forall i :: 4 <= i < 8 ==> reply[i] == reply[4..][i - 4];
    WordSumZero(reply);
  }

  /** A correct request becomes a correct reply, except for the one request of a given length in
      which everything but type and checksum is zero: its reply is all zero. */
  lemma ReplyCorrectExactly(request: seq<U8>, reply: seq<U8>)
    requires |request| == |reply| >= 8 && Correct(request) && request[0] == ICMP_ECHO
    requires reply[0] == ICMP_ECHO_REPLY && reply[1] == request[1] && reply[4..] == request[4..]
    requires Field(reply) == NewField(Field(request))
    requires WordSum(reply) % 65535 == 0 <==> WordSum(request) % 65535 == 0
    ensures Correct(reply) <==> exists i :: (i == 1 || 4 <= i < |request|) && request[i] != 0
  {
    hide WordSum;
    WordSumZero(reply);
    assert WordSum(request) % 65535 == 0 && WordSum(reply) % 65535 == 0;
    assert Correct(reply) <==> WordSum(reply) != 0;
    assert forall i :: 4 <= i < |request| ==> request[i] == request[4..][i - 4] == reply[4..][i - 4] == reply[i];
    if !exists i :: (i == 1 || 4 <= i < |request|) && request[i] != 0 {
      EmptyRequest(request);
    }
  }
}
