/** Machine integers, and the few generic definitions that several modules share. */
module Words {

  const WORD_LIMIT := 0x1_0000_0000

  type U8 = x: int | 0 <= x < 0x100
  type U16 = x: int | 0 <= x < 0x1_0000
  type U32 = x: int | 0 <= x < 0x1_0000_0000

  /** A 512-byte disk block seen as words; the different kinds of blocks are different readings
      of the same words. */
  type Block = s: seq<U32> | |s| == 128 witness seq(128, _ => 0)

  datatype Option<+T> = None | Some(value: T)

  /** Byte order conversion on a little-endian machine. */
  function Htons(n: U16): U16 {
    n % 256 * 256 + n / 256
  }

  lemma HtonsInvolution(n: U16)
    ensures Htons(Htons(n)) == n
  {
    var a, b := n as int / 256, n as int % 256;
    assert 0 <= a < 256 && Htons(n) as int == 256 * b + a;
    assert Htons(n) as int / 256 == b && Htons(n) as int % 256 == a;
  }

  /** The two's complement reading of a word. */
  function Signed(w: U32): int {
    if w < 0x8000_0000 then w else w - WORD_LIMIT
  }

  lemma {:induction false} CardSubset<T>(a: set<T>, b: set<T>)
    requires a <= b
    ensures |a| <= |b| && (a != b ==> |a| < |b|)
  {
    if a != b {
      var x :| x in b && x !in a;
      CardSubset(a, b - {x});
    }
  }
}
