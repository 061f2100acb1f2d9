/** The byte-level 32-bit sequence number arithmetic of the TCP engine. */
module SeqNumbers {
  import opened Words

  function Plus(x: U32, n: nat): U32 { (x as int + n) % 0x1_0000_0000 }

  lemma PlusPlus(x: U32, a: nat, b: nat)
    ensures Plus(Plus(x, a), b) == Plus(x, a + b)
  {}

  /** Two distances of less than 2^32 from one number are told apart. */
  lemma PlusInjective(x: U32, a: nat, b: nat)
    requires Plus(x, a) == Plus(x, b) && a < WORD_LIMIT && b < WORD_LIMIT
    ensures a == b
  {}

  /** The value of four bytes in network order. */
  function Value(b: seq<U8>): (v: nat)
    requires |b| == 4
    ensures v < WORD_LIMIT
  {
    Upper(b[0], b[1], b[2]) * 256 + b[3] as int
  }

  lemma ValueInjective(a: seq<U8>, b: seq<U8>)
    requires |a| == 4 && |b| == 4 && Value(a) == Value(b)
    ensures a == b
  {
    var u, v := Upper(a[0], a[1], a[2]), Upper(b[0], b[1], b[2]);
    assert u == v && a[3] == b[3];
    assert a[0] == b[0] && a[1] == b[1] && a[2] == b[2];
  }

  function Add8(x: U8, y: U8): U8 { (x as int + y as int) % 256 }

  class SeqArith {
    const acc32: array<U8>

    constructor ()
      ensures acc32.Length == 4 && fresh(acc32)
    {
      acc32 := new U8[4](_ => 0);
    }

    /** Add a 16-bit number to a sequence number, byte by byte with explicit carries: the
        accumulator holds the sum modulo 2^32. */
    method Add32(op32: array<U8>, op16: U16)
      requires acc32.Length == 4 && op32.Length == 4 && op32 != acc32
      modifies acc32
      ensures Value(acc32[..]) == Plus(Value(op32[..]), op16)
    {
      hide Upper;
      var hi: U8, lo: U8 := op16 / 256, op16 % 256;
      acc32[3] := Add8(op32[3], lo);
      acc32[2] := Add8(op32[2], hi);
      acc32[1] := op32[1];
      acc32[0] := op32[0];
      if acc32[2] < hi {
        acc32[1] := Add8(acc32[1], 1);
        if acc32[1] == 0 {
          acc32[0] := Add8(acc32[0], 1);
        }
      }
      UpperAdd(op32[0], op32[1], op32[2], hi, acc32[0], acc32[1], acc32[2]);
      ghost var before := Upper(acc32[0], acc32[1], acc32[2]);
      ghost var b0, b1, b2 := acc32[0], acc32[1], acc32[2];
      if acc32[3] < lo {
        acc32[2] := Add8(acc32[2], 1);
        if acc32[2] == 0 {
          acc32[1] := Add8(acc32[1], 1);
          if acc32[1] == 0 {
            acc32[0] := Add8(acc32[0], 1);
          }
        }
        UpperInc(b0, b1, b2, acc32[0], acc32[1], acc32[2]);
      }
      Combine(Upper(op32[0], op32[1], op32[2]), op32[3], hi, lo, before,
              Upper(acc32[0], acc32[1], acc32[2]), acc32[3]);
    }

    /** The sum replaces the number it was computed from. */
    method AddRcvNxt(rcvNxt: array<U8>, n: U16)
      requires acc32.Length == 4 && rcvNxt.Length == 4 && rcvNxt != acc32
      modifies acc32, rcvNxt
      ensures Value(rcvNxt[..]) == Plus(old(Value(rcvNxt[..])), n)
    {
      Add32(rcvNxt, n);
      rcvNxt[0] := acc32[0];
      rcvNxt[1] := acc32[1];
      rcvNxt[2] := acc32[2];
      rcvNxt[3] := acc32[3];
      assert rcvNxt[..] == acc32[..];
    }
  }

  function Upper(b0: U8, b1: U8, b2: U8): (u: nat)
    ensures u < 0x100_0000
  {
    (b0 as int * 256 + b1 as int) * 256 + b2 as int
  }

  lemma UpperAdd(b0: U8, b1: U8, b2: U8, hi: U8, r0: U8, r1: U8, r2: U8)
    requires r2 == Add8(b2, hi) && r1 == (if r2 < hi then Add8(b1, 1) else b1)
    requires r0 == if r2 < hi && r1 == 0 then Add8(b0, 1) else b0
    ensures Upper(r0, r1, r2) == (Upper(b0, b1, b2) + hi) % 0x100_0000
  {
    var m, m' := b0 as int * 256 + b1 as int, r0 as int * 256 + r1 as int;
    if r2 < hi {
      assert r2 as int == b2 as int + hi as int - 256;
      assert m' == if m == 0xffff then 0 else m + 1;
    } else {
      assert r2 as int == b2 as int + hi as int;
    }
  }

  lemma UpperInc(b0: U8, b1: U8, b2: U8, r0: U8, r1: U8, r2: U8)
    requires r2 == Add8(b2, 1) && r1 == (if r2 == 0 then Add8(b1, 1) else b1)
    requires r0 == if r2 == 0 && r1 == 0 then Add8(b0, 1) else b0
    ensures Upper(r0, r1, r2) == (Upper(b0, b1, b2) + 1) % 0x100_0000
  {}

  /** The upper three bytes and the lowest one, each summed with its own carry, form the sum. */
  lemma Combine(u: nat, l: U8, hi: U8, lo: U8, before: nat, u': nat, l': U8)
    requires u < 0x100_0000 && l' == Add8(l, lo)
    requires before == (u + hi) % 0x100_0000
    requires u' == if l' < lo then (before + 1) % 0x100_0000 else before
    ensures u' * 256 + l' == (u * 256 + l + hi * 256 + lo) % WORD_LIMIT
  {}
}
