/** The Ethernet receive ring: 32 descriptors of 128 bytes, filled by the hardware and
    emptied by the driver. */
module RxRing {
  import opened Words

  const RX_RING_SIZE := 32         // descriptors, each with a buffer of 128 bytes
  const RX_BUFFER_BYTES := 4096
  const MAX_FRAME := 512
  const MAX_RX_TRIES := 10

  // ----- descriptor words: bit 0 of addr, bits 14, 15 and 0 to 11 of ctrl -----

  predicate Used(addr: U32) { addr % 2 == 1 }

  function Reclaimed(addr: U32): (r: U32)
    ensures !Used(r) && r as int == addr as int - if Used(addr) then 1 else 0
  {
    addr - addr % 2
  }

  function InUse(addr: U32): (r: U32)
    ensures Used(r) && r as int == addr as int + if Used(addr) then 0 else 1
  {
    addr - addr % 2 + 1
  }

  /** The address word of descriptor i while the hardware owns it: its buffer's address, and in
      the last one the bit that makes the hardware go round. */
  function Home(base: nat, i: nat): nat {
    base + 128 * i + if i == RX_RING_SIZE - 1 then 2 else 0
  }

  /** Where in the buffers the hardware stores, by the address word it reads; and whether it goes
      back to the first descriptor afterwards. */
  function BufferAt(word: U32, base: nat): int { word as int - word as int % 4 - base }

  predicate Wraps(word: U32) { word / 2 % 2 == 1 }

  lemma HomeIs(word: U32, base: nat, i: nat)
    requires base % 4 == 0 && i < RX_RING_SIZE && !Used(word) && word as int == Home(base, i)
    ensures BufferAt(word, base) == 128 * i && (Wraps(word) <==> i == RX_RING_SIZE - 1)
  {
    assert 4 * (base / 4 + 32 * i) == base + 128 * i;
  }

  lemma HomeUnused(base: nat, i: nat)
    requires base % 4 == 0 && i < RX_RING_SIZE
    ensures Home(base, i) % 2 == 0
  {
    assert 4 * (base / 4 + 32 * i) == base + 128 * i;
  }

  predicate Sof(ctrl: U32) { ctrl / 0x4000 % 2 == 1 }

  predicate Eof(ctrl: U32) { ctrl / 0x8000 % 2 == 1 }

  function FrameLen(ctrl: U32): nat { ctrl % 0x1000 }

  /** The index k places after index t in the ring. */
  function Idx(t: nat, k: nat): nat {
    if t + k < RX_RING_SIZE then t + k else t + k - RX_RING_SIZE
  }

  // ----- what the ring holds: a queue of frame fragments -----

  type Buffer = s: seq<U8> | |s| == 128 witness seq(128, _ => 0)

  datatype Fragment = Fragment(sof: bool, eof: bool, len: nat, bytes: Buffer)

  /** How the run of fragments that starts a queue ends: at its end-of-frame fragment, cut
      short by the start of another frame, or not yet. */
  datatype RunEnd = Complete(n: nat) | Cut(n: nat) | Open

  function Scan(q: seq<Fragment>, i: nat): (r: RunEnd)
    ensures r.Complete? ==> i < r.n <= |q| && q[r.n - 1].eof
    ensures r.Cut? ==> i < r.n < |q| && q[r.n].sof
    decreases |q| - i
  {
    if i >= |q| then Open
    else if q[i].eof then Complete(i + 1)
    else if i + 1 < |q| && q[i + 1].sof then Cut(i + 1)
    else Scan(q, i + 1)
  }

  /** The hardware contract: every run starts with a start-of-frame fragment and has at most
      four fragments; in a complete frame all buffers but the last are full. */
  ghost predicate WellFormed(q: seq<Fragment>)
    decreases |q|
  {
    q != [] ==>
      && q[0].sof
      && match Scan(q, 0)
         case Complete(n) =>
           n <= 4 && 128 * (n - 1) < q[n - 1].len <= 128 * n && WellFormed(q[n..])
         case Cut(n) => n <= 4 && WellFormed(q[n..])
         case Open => |q| <= 4
  }

  /** Byte j of a run of full buffers. */
  function ByteOf(run: seq<Fragment>, j: nat): U8 {
    if j / 128 < |run| then run[j / 128].bytes[j % 128] else 0
  }

  /** The bytes of a complete run: the length in its last descriptor counts the whole frame. */
  function FrameBytes(run: seq<Fragment>): seq<U8> {
    if run == [] then [] else seq(run[|run| - 1].len, j requires 0 <= j => ByteOf(run, j))
  }

  /** The buffers of a run one behind the other: a frame is the front of that. */
  function Joined(run: seq<Fragment>): (s: seq<U8>)
    ensures |s| == 128 * |run|
  {
    if run == [] then [] else run[0].bytes + Joined(run[1..])
  }

  lemma {:induction false} JoinedAt(run: seq<Fragment>, j: nat)
    requires j < 128 * |run|
    ensures Joined(run)[j] == ByteOf(run, j)
  {
    if j >= 128 {
      JoinedAt(run[1..], j - 128);
      assert run[1..][(j - 128) / 128] == run[j / 128];
    }
  }

  lemma FrameIsFront(run: seq<Fragment>)
    requires run != [] && run[|run| - 1].len <= 128 * |run|
    ensures FrameBytes(run) == Joined(run)[..run[|run| - 1].len]
  {
    hide FrameBytes, Joined, ByteOf;
    var front := Joined(run)[..run[|run| - 1].len];
    forall j | 0 <= j < |front|
      ensures front[j] == ByteOf(run, j)
    {
      JoinedAt(run, j);
    }
    FrameIs(front, run);
  }

  /** The complete frames in a queue, oldest first; frames that were cut short are dropped. */
  ghost function Frames(q: seq<Fragment>): seq<seq<U8>>
    requires WellFormed(q)
    decreases |q|
  {
    if q == [] then []
    else match Scan(q, 0)
         case Complete(n) => [FrameBytes(q[..n])] + Frames(q[n..])
         case Cut(n) => Frames(q[n..])
         case Open => []
  }

  // ----- the queue as a FIFO of frames -----

  /** A complete frame of at most four fragments. */
  ghost predicate IsFrame(run: seq<Fragment>) {
    && 1 <= |run| <= 4
    && 128 * (|run| - 1) < run[|run| - 1].len <= 128 * |run|
    && (forall i :: 0 <= i < |run| ==> (run[i].sof <==> i == 0) && (run[i].eof <==> i == |run| - 1))
  }

  /** The beginning of a frame. */
  ghost predicate IsPartial(run: seq<Fragment>) {
    && 1 <= |run| <= 4
    && (forall i :: 0 <= i < |run| ==> (run[i].sof <==> i == 0) && !run[i].eof)
  }

  lemma {:induction false} ScanPrefix(q: seq<Fragment>, run: seq<Fragment>, i: nat)
    requires i <= |q| && run != [] && run[0].sof
    requires i < |q|
    ensures Scan(q + run, i) == if Scan(q, i).Open? then Cut(|q|) else Scan(q, i)
    decreases |q| - i
  {
    var s := q + run;
    assert forall k :: 0 <= k < |q| ==> s[k] == q[k];
    assert s[|q|] == run[0];
    if !q[i].eof && i + 1 < |q| && !q[i + 1].sof {
      ScanPrefix(q, run, i + 1);
    }
  }

  lemma {:induction false} ScanFrame(run: seq<Fragment>, i: nat)
    requires i < |run| && (IsFrame(run) || IsPartial(run))
    ensures Scan(run, i) == if IsFrame(run) then Complete(|run|) else Open
    decreases |run| - i
  {
    if i + 1 < |run| { ScanFrame(run, i + 1); }
  }

  /** What a stored run delivers: a complete frame its bytes, the beginning of one nothing. */
  ghost function Delivered(run: seq<Fragment>): seq<seq<U8>> {
    if IsFrame(run) then [FrameBytes(run)] else []
  }

  lemma FrameAlone(run: seq<Fragment>)
    requires IsFrame(run) || IsPartial(run)
    ensures WellFormed(run)
    ensures Frames(run) == Delivered(run)
  {
    ScanFrame(run, 0);
    assert run[..|run|] == run && run[|run|..] == [];
  }

  lemma SplitAppend(q: seq<Fragment>, run: seq<Fragment>, n: nat)
    requires n <= |q|
    ensures (q + run)[n..] == q[n..] + run && (q + run)[..n] == q[..n]
  {}

  /** The hardware storing one more frame, in a queue that may end with a frame cut short,
      appends that frame; storing only the beginning of one appends nothing. */
  lemma {:induction false} FrameArrives(q: seq<Fragment>, run: seq<Fragment>)
    requires WellFormed(q) && (IsFrame(run) || IsPartial(run))
    ensures WellFormed(q + run)
    ensures Frames(q + run) == Frames(q) + Delivered(run)
    decreases |q|
  {
    FrameAlone(run);
    assert run != [] && run[0].sof;
    hide IsFrame, IsPartial, FrameBytes, Delivered;
    var more := Delivered(run);
    if q == [] {
      assert q + run == run;
    } else {
      match Scan(q, 0)
      case Complete(n) =>
        FrameArrives(q[n..], run);
        AfterComplete(q, run, n, more);
      case Cut(n) =>
        FrameArrives(q[n..], run);
        AfterCut(q, run, n, more);
      case Open =>
        assert q[|q|..] + run == run;
        AfterCut(q, run, |q|, more);
    }
  }

  lemma FirstFrame(q: seq<Fragment>, n: nat)
    requires WellFormed(q) && q != [] && Scan(q, 0) == Complete(n)
    ensures WellFormed(q[n..]) && Frames(q) == [FrameBytes(q[..n])] + Frames(q[n..])
  {}

  lemma Assoc<T>(a: seq<T>, b: seq<T>, c: seq<T>)
    ensures a + (b + c) == (a + b) + c
  {}

  lemma HeadStays(q: seq<Fragment>, run: seq<Fragment>, n: nat)
    requires q != [] && Scan(q, 0) == Complete(n) && run != [] && run[0].sof
    ensures 0 < n <= |q| && Scan(q + run, 0) == Complete(n) && (q + run)[0] == q[0] && (q + run)[n - 1] == q[n - 1]
    ensures (q + run)[n..] == q[n..] + run && (q + run)[..n] == q[..n]
  {
    ScanPrefix(q, run, 0);
    SplitAppend(q, run, n);
  }

  lemma AfterComplete(q: seq<Fragment>, run: seq<Fragment>, n: nat, more: seq<seq<U8>>)
    requires WellFormed(q) && q != [] && Scan(q, 0) == Complete(n) && run != [] && run[0].sof
    requires WellFormed(q[n..] + run) && Frames(q[n..] + run) == Frames(q[n..]) + more
    ensures WellFormed(q + run) && Frames(q + run) == Frames(q) + more
  {
    HeadStays(q, run, n);
    hide FrameBytes, Scan;
    Assoc([FrameBytes(q[..n])], Frames(q[n..]), more);
  }

  lemma AfterCut(q: seq<Fragment>, run: seq<Fragment>, n: nat, more: seq<seq<U8>>)
    requires WellFormed(q) && q != [] && run != [] && run[0].sof
    requires n == (if Scan(q, 0).Open? then |q| else n) && (Scan(q, 0).Open? || Scan(q, 0) == Cut(n))
    requires n <= |q| && WellFormed(q[n..] + run)
    requires Frames(q[n..] + run) == (if Scan(q, 0).Open? then [] else Frames(q[n..])) + more
    ensures WellFormed(q + run) && Frames(q + run) == Frames(q) + more
  {
    ScanPrefix(q, run, 0);
    SplitAppend(q, run, n);
    assert (q + run)[0] == q[0];
  }

  lemma {:induction false} ScanStable(q: seq<Fragment>, more: seq<Fragment>, i: nat)
    requires i < |q| && !Scan(q, i).Open?
    ensures Scan(q + more, i) == Scan(q, i)
    decreases |q| - i
  {
    assert forall k :: 0 <= k < |q| ==> (q + more)[k] == q[k];
    if !q[i].eof && !(i + 1 < |q| && q[i + 1].sof) {
      ScanStable(q, more, i + 1);
    }
  }

  /** Whatever the hardware adds, the complete frames already there stay the oldest. */
  lemma {:induction false} FramesGrow(q: seq<Fragment>, more: seq<Fragment>)
    requires WellFormed(q) && WellFormed(q + more)
    ensures Frames(q) <= Frames(q + more)
    decreases |q|
  {
    if q != [] && !Scan(q, 0).Open? {
      ScanStable(q, more, 0);
      var n := Scan(q, 0).n;
      SplitAppend(q, more, n);
      hide FrameBytes;
      assert WellFormed(q[n..]) && WellFormed(q[n..] + more);
      FramesGrow(q[n..], more);
    }
  }

  // ----- consuming the queue from the front -----

  /** Taking whole runs from the front of queue q, complete frames and frames cut short, leaves
      rest; out are the complete ones, in order. */
  ghost predicate Consumed(q: seq<Fragment>, out: seq<seq<U8>>, rest: seq<Fragment>)
    decreases |q|
  {
    || (q == rest && out == [])
    || (q != []
        && match Scan(q, 0)
           case Complete(n) => out != [] && out[0] == FrameBytes(q[..n]) && Consumed(q[n..], out[1..], rest)
           case Cut(n) => Consumed(q[n..], out, rest)
           case Open => false)
  }

  lemma NothingConsumed(q: seq<Fragment>)
    ensures Consumed(q, [], q)
  {}

  lemma CutConsumed(q: seq<Fragment>)
    requires q != [] && Scan(q, 0).Cut?
    ensures Consumed(q, [], q[Scan(q, 0).n..])
  {
    NothingConsumed(q[Scan(q, 0).n..]);
  }

  lemma FrameConsumed(q: seq<Fragment>)
    requires q != [] && Scan(q, 0).Complete?
    ensures Consumed(q, [FrameBytes(q[..Scan(q, 0).n])], q[Scan(q, 0).n..])
  {
    hide FrameBytes;
    NothingConsumed(q[Scan(q, 0).n..]);
  }

  /** One run, and then more. */
  lemma ConsumedStep(q: seq<Fragment>, out: seq<seq<U8>>, rest: seq<Fragment>) returns (n: nat, first: seq<seq<U8>>)
    requires Consumed(q, out, rest) && !(q == rest && out == [])
    ensures q != [] && !Scan(q, 0).Open? && n == Scan(q, 0).n
    ensures first == if Scan(q, 0).Complete? then [FrameBytes(q[..n])] else []
    ensures |first| <= |out| && out == first + out[|first|..] && Consumed(q[n..], out[|first|..], rest)
  {
    hide FrameBytes;
    n := Scan(q, 0).n;
    first := if Scan(q, 0).Complete? then [FrameBytes(q[..n])] else [];
  }

  lemma ConsumedBack(q: seq<Fragment>, out: seq<seq<U8>>, rest: seq<Fragment>)
    requires q != [] && !Scan(q, 0).Open? && Consumed(q[Scan(q, 0).n..], out, rest)
    ensures Consumed(q, (if Scan(q, 0).Complete? then [FrameBytes(q[..Scan(q, 0).n])] else []) + out, rest)
  {
    hide FrameBytes;
    assert ([FrameBytes(q[..Scan(q, 0).n])] + out)[1..] == out;
    assert [] + out == out;
  }

  lemma Dropped(q: seq<Fragment>, j: nat, k: nat)
    requires j <= |q| && k <= |q[j..]|
    ensures j + k <= |q| && q[j..][k..] == q[j + k..]
  {}

  /** What is left is the end of the queue. */
  lemma {:induction false} ConsumedSuffix(q: seq<Fragment>, out: seq<seq<U8>>, rest: seq<Fragment>)
    requires Consumed(q, out, rest)
    ensures |rest| <= |q| && rest == q[|q| - |rest|..]
    decreases |q|
  {
    if !(q == rest && out == []) {
      hide Consumed, FrameBytes;
      var n, first := ConsumedStep(q, out, rest);
      var tail := q[n..];
      ConsumedSuffix(tail, out[|first|..], rest);
      var k := |tail| - |rest|;
      Dropped(q, n, k);
    }
  }

  /** The complete frames of a queue are those taken, in order, and then those left. */
  lemma {:induction false} ConsumedFrames(q: seq<Fragment>, out: seq<seq<U8>>, rest: seq<Fragment>)
    requires WellFormed(q) && Consumed(q, out, rest)
    ensures WellFormed(rest) && Frames(q) == out + Frames(rest)
    decreases |q|
  {
    if !(q == rest && out == []) {
      var n, first := ConsumedStep(q, out, rest);
      FirstRun(q);
      hide Consumed, FrameBytes, Scan;
      ConsumedFrames(q[n..], out[|first|..], rest);
      Assoc(first, out[|first|..], Frames(rest));
    } else {
      assert [] + Frames(rest) == Frames(rest);
    }
  }

  lemma FirstRun(q: seq<Fragment>)
    requires WellFormed(q) && q != [] && !Scan(q, 0).Open?
    ensures WellFormed(q[Scan(q, 0).n..])
    ensures Frames(q) == (if Scan(q, 0).Complete? then [FrameBytes(q[..Scan(q, 0).n])] else []) + Frames(q[Scan(q, 0).n..])
  {
    hide FrameBytes;
    assert [] + Frames(q[Scan(q, 0).n..]) == Frames(q[Scan(q, 0).n..]);
  }

  lemma {:induction false} ConsumedJoins(q: seq<Fragment>, out: seq<seq<U8>>, mid: seq<Fragment>,
                                         more: seq<seq<U8>>, rest: seq<Fragment>)
    requires Consumed(q, out, mid) && Consumed(mid, more, rest)
    ensures Consumed(q, out + more, rest)
    decreases |q|
  {
    if !(q == mid && out == []) {
      var n, first := ConsumedStep(q, out, mid);
      hide Consumed, FrameBytes;
      ConsumedJoins(q[n..], out[|first|..], mid, more, rest);
      ConsumedBack(q, out[|first|..] + more, rest);
      Assoc(first, out[|first|..], more);
    } else {
      assert [] + more == more;
    }
  }

  lemma CutsFirst(q: seq<Fragment>, mid: seq<Fragment>, out: seq<seq<U8>>, rest: seq<Fragment>)
    requires Consumed(q, [], mid) && Consumed(mid, out, rest)
    ensures Consumed(q, out, rest)
  {
    ConsumedJoins(q, [], mid, out, rest);
    assert [] + out == out;
  }

  lemma RunStays(q: seq<Fragment>, more: seq<Fragment>)
    requires WellFormed(q) && q != [] && !Scan(q, 0).Open? && WellFormed(q[Scan(q, 0).n..] + more)
    ensures var n := Scan(q, 0).n;
            && q + more != [] && Scan(q + more, 0) == Scan(q, 0) && WellFormed(q + more)
            && (q + more)[n..] == q[n..] + more && (q + more)[..n] == q[..n]
  {
    var n := Scan(q, 0).n;
    ScanStable(q, more, 0);
    SplitAppend(q, more, n);
    assert (q + more)[0] == q[0] && (q + more)[n - 1] == q[n - 1];
  }

  /** What the hardware adds behind changes nothing about what was taken in front. */
  lemma {:induction false} ConsumedGrows(q: seq<Fragment>, out: seq<seq<U8>>, rest: seq<Fragment>, more: seq<Fragment>)
    requires WellFormed(q) && Consumed(q, out, rest) && WellFormed(rest + more)
    ensures WellFormed(q + more) && Consumed(q + more, out, rest + more)
    decreases |q|
  {
    if !(q == rest && out == []) {
      var n, first := ConsumedStep(q, out, rest);
      assert WellFormed(q[n..]);
      hide Consumed, WellFormed, FrameBytes;
      ConsumedGrows(q[n..], out[|first|..], rest, more);
      RunStays(q, more);
      ConsumedBack(q + more, out[|first|..], rest + more);
    } else {
      NothingConsumed(q + more);
    }
  }

  lemma RunsBehind(q: seq<Fragment>, more: seq<Fragment>)
    requires WellFormed(q + more) && q != [] && !Scan(q, 0).Open?
    ensures WellFormed(q[Scan(q, 0).n..] + more)
  {
    ScanStable(q, more, 0);
    SplitAppend(q, more, Scan(q, 0).n);
  }

  /** And what may be stored behind all that was stored may be stored behind what is left. */
  lemma {:induction false} ConsumedBehind(q: seq<Fragment>, out: seq<seq<U8>>, rest: seq<Fragment>, more: seq<Fragment>)
    requires Consumed(q, out, rest) && WellFormed(q + more)
    ensures WellFormed(rest + more)
    decreases |q|
  {
    if !(q == rest && out == []) {
      var n, first := ConsumedStep(q, out, rest);
      hide Consumed, WellFormed, FrameBytes;
      RunsBehind(q, more);
      ConsumedBehind(q[n..], out[|first|..], rest, more);
    }
  }

  // ----- the scan for a complete frame -----

  /** The scan has passed the first n fragments without finding an end of frame. */
  ghost predicate Scanned(q: seq<Fragment>, n: nat) {
    && n <= |q| && n <= 4
    && (n > 0 ==> if n == |q| then Scan(q, 0) == Open
                  else if q[n].sof then Scan(q, 0) == Cut(n)
                  else Scan(q, 0) == Scan(q, n))
  }

  lemma ScanStep(q: seq<Fragment>, n: nat)
    requires WellFormed(q) && Scanned(q, n) && n < |q|
    requires !q[n].eof && (q[n].sof ==> n == 0)
    ensures n + 1 <= 4 && Scanned(q, n + 1)
  {}

  lemma ScanEof(q: seq<Fragment>, n: nat)
    requires WellFormed(q) && Scanned(q, n) && n < |q|
    requires q[n].eof && (q[n].sof ==> n == 0)
    ensures Scan(q, 0) == Complete(n + 1) && n + 1 <= 4
    ensures 128 * n < q[n].len <= 128 * (n + 1)
  {}

  lemma ScanCut(q: seq<Fragment>, n: nat)
    requires WellFormed(q) && Scanned(q, n) && 0 < n < |q| && q[n].sof
    ensures WellFormed(q[n..]) && Frames(q[n..]) == Frames(q) && Consumed(q, [], q[n..])
  {
    CutConsumed(q);
  }

  lemma ScanOpen(q: seq<Fragment>)
    requires WellFormed(q) && Scanned(q, |q|)
    ensures Frames(q) == [] && (q == [] || Scan(q, 0) == Open)
  {}

  lemma FrameIs(bytes: seq<U8>, run: seq<Fragment>)
    requires run != [] && |bytes| == run[|run| - 1].len
    requires forall j :: 0 <= j < |bytes| ==> bytes[j] == ByteOf(run, j)
    ensures bytes == FrameBytes(run)
  {}

  // ----- hardware and driver -----

  /** The driver is in step with the hardware: what it has handed out are the complete frames of
      all that was stored, up to the fragments q that are left; and those, from tail on, end where
      the hardware, which goes round the ring by itself, stores next. */
  ghost predicate InStep(stored: seq<Fragment>, hwNext: nat, delivered: seq<seq<U8>>, tail: nat, q: seq<Fragment>) {
    && WellFormed(stored) && Consumed(stored, delivered, q)
    && Idx(tail, |q|) == hwNext == |stored| % RX_RING_SIZE
  }

  /** Frames are handed out in the order in which they were stored, each once. */
  lemma Fifo(stored: seq<Fragment>, hwNext: nat, delivered: seq<seq<U8>>, tail: nat, q: seq<Fragment>)
    requires InStep(stored, hwNext, delivered, tail, q)
    ensures WellFormed(stored) && WellFormed(q) && Frames(stored) == delivered + Frames(q)
  {
    ConsumedFrames(stored, delivered, q);
  }

  /** Giving back n descriptors, of frames cut short or of a frame handed out, keeps the driver
      in step. */
  lemma StaysInStep(stored: seq<Fragment>, hwNext: nat, delivered: seq<seq<U8>>, tail: nat, q: seq<Fragment>,
                    n: nat, out: seq<seq<U8>>)
    requires InStep(stored, hwNext, delivered, tail, q) && n <= |q| <= RX_RING_SIZE && tail < RX_RING_SIZE
    requires n < RX_RING_SIZE && Consumed(q, out, q[n..])
    ensures InStep(stored, hwNext, delivered + out, Idx(tail, n), q[n..])
  {
    hide WellFormed, Consumed;
    ConsumedJoins(stored, delivered, q, out, q[n..]);
  }

  function OneOn(i: nat): nat { if i + 1 < RX_RING_SIZE then i + 1 else 0 }

  /** So does the hardware storing one more fragment. */
  lemma HwGoesOn(stored: seq<Fragment>, hwNext: nat, delivered: seq<seq<U8>>, tail: nat, q: seq<Fragment>, f: Fragment)
    requires InStep(stored, hwNext, delivered, tail, q) && |q| < RX_RING_SIZE && tail < RX_RING_SIZE
    requires WellFormed(stored + [f])
    ensures InStep(stored + [f], OneOn(hwNext), delivered, tail, q + [f]) && WellFormed(q + [f])
    ensures hwNext == Idx(tail, |q|)
  {
    hide WellFormed, Consumed, Idx, OneOn;
    ConsumedBehind(stored, delivered, q, [f]);
    ConsumedGrows(stored, delivered, q, [f]);
    PlaceAfter(tail, |q|, hwNext, |stored|);
  }

  lemma PlaceAfter(tail: nat, n: nat, hwNext: nat, count: nat)
    requires tail < RX_RING_SIZE && n < RX_RING_SIZE && Idx(tail, n) == hwNext == count % RX_RING_SIZE
    ensures Idx(tail, n + 1) == OneOn(hwNext) == (count + 1) % RX_RING_SIZE
  {}

  class Ring {
    const addr: array<U32>          // descriptor words, shared with the hardware
    const ctrl: array<U32>
    const rxBuffer: array<U8>
    const base: nat                  // rx_buffer_dma
    var rxTail: nat
    var nextRxTail: nat
    var wrapped: bool
    var hwNext: nat                  // the hardware's own place in the ring, unknown to the driver
    ghost var pending: seq<Fragment> // filled descriptors, from rxTail on
    ghost var stored: seq<Fragment>  // all that the hardware has ever stored
    ghost var delivered: seq<seq<U8>> // all the frames that have been handed out

    ghost predicate Layout() {
      && addr.Length == RX_RING_SIZE == ctrl.Length
      && rxBuffer.Length == RX_BUFFER_BYTES
      && addr != ctrl
      && base % 4 == 0 && base + RX_BUFFER_BYTES < WORD_LIMIT
    }

    /** Address and wrap bit of a descriptor are as they were set up. */
    ghost predicate AtHome(i: nat)
      requires Layout() && i < RX_RING_SIZE
      reads addr
    {
      addr[i] as int == Home(base, i) + if Used(addr[i]) then 1 else 0
    }

    /** Descriptor i holds fragment f. */
    ghost predicate Holds(i: nat, f: Fragment)
      requires Layout() && i < RX_RING_SIZE
      reads addr, ctrl, rxBuffer
    {
      && Used(addr[i]) && Sof(ctrl[i]) == f.sof && Eof(ctrl[i]) == f.eof && (f.eof ==> FrameLen(ctrl[i]) == f.len)
      && (forall o :: 0 <= o < 128 ==> rxBuffer[128 * i + o] == f.bytes[o])
    }

    /** The used descriptors are exactly the pending fragments, in order from tail. */
    ghost predicate RingIs(tail: nat, q: seq<Fragment>)
      requires Layout()
      reads addr, ctrl, rxBuffer
    {
      && tail < RX_RING_SIZE && |q| <= RX_RING_SIZE
      && (forall k :: 0 <= k < |q| ==> Holds(Idx(tail, k), q[k]))
      && (forall k :: |q| <= k < RX_RING_SIZE ==> !Used(addr[Idx(tail, k)]))
      && (forall i :: 0 <= i < RX_RING_SIZE ==> AtHome(i))
    }

    ghost predicate Valid()
      reads this, addr, ctrl, rxBuffer
    {
      Layout() && RingIs(rxTail, pending) && WellFormed(pending)
      && InStep(stored, hwNext, delivered, rxTail, pending)
    }

    /** Ring set-up: all descriptors belong to the hardware. */
    constructor (paddr: nat)
      requires paddr % 4 == 0 && paddr + RX_BUFFER_BYTES < WORD_LIMIT
      ensures Valid() && stored == [] && delivered == [] && base == paddr && fresh(addr) && fresh(ctrl) && fresh(rxBuffer)
    {
      base := paddr;
      addr := new U32[RX_RING_SIZE](i requires 0 <= i < RX_RING_SIZE =>
        paddr + 128 * i + if i == RX_RING_SIZE - 1 then 2 else 0);
      ctrl := new U32[RX_RING_SIZE](_ => 0);
      rxBuffer := new U8[RX_BUFFER_BYTES](_ => 0);
      rxTail, nextRxTail, wrapped, hwNext := 0, 0, false, 0;
      pending, stored, delivered := [], [], [];
      new;
      hide Valid, RingIs, InStep, AtHome;
      StartsEmpty();
    }

    lemma StartsEmpty()
      requires Layout() && rxTail == 0 && hwNext == 0 && pending == [] && stored == [] && delivered == []
      requires forall i :: 0 <= i < RX_RING_SIZE ==> addr[i] == Home(base, i)
      ensures Valid()
    {
      NothingConsumed([]);
      forall i | 0 <= i < RX_RING_SIZE
        ensures AtHome(i) && !Used(addr[i])
      {
        assert addr[i] == Home(base, i);
        HomeUnused(base, i);
      }
    }

    /** Give the first m pending descriptors back to the hardware. */
    method ReclaimRxBuffers(newTail: nat, ghost m: nat)
      requires Layout() && RingIs(rxTail, pending)
      requires m <= |pending| && m < RX_RING_SIZE && newTail == Idx(rxTail, m)
      modifies this`rxTail, this`pending, addr
      ensures rxTail == newTail && pending == old(pending)[m..] && RingIs(rxTail, pending)
    {
      hide RingIs, PartlyReclaimed, Holds, AtHome;
      ghost var t, q := rxTail, pending;
      NoneReclaimed();
      var i := rxTail;
      ghost var r := 0;
      while i > newTail
        invariant r <= m && i == Idx(t, r) && i < RX_RING_SIZE
        invariant PartlyReclaimed(t, q, r)
        decreases m - r
        modifies addr
      {
        ReclaimRxBuffer(i, t, q, r);
        i := i + 1;
        if i >= RX_RING_SIZE {
          i := 0;
        }
        r := r + 1;
      }
      while i < newTail
        invariant r <= m && i == Idx(t, r) && i <= newTail
        invariant PartlyReclaimed(t, q, r)
        decreases m - r
        modifies addr
      {
        ReclaimRxBuffer(i, t, q, r);
        i := i + 1;
        r := r + 1;
      }
      TailMoved(t, q, m);
      rxTail := newTail;
      pending := pending[m..];
    }

    lemma NoneReclaimed()
      requires Layout() && RingIs(rxTail, pending)
      ensures PartlyReclaimed(rxTail, pending, 0) && rxTail < RX_RING_SIZE
    {}

    method ReclaimRxBuffer(i: nat, ghost t: nat, ghost q: seq<Fragment>, ghost r: nat)
      requires Layout() && PartlyReclaimed(t, q, r) && r < |q| && i == Idx(t, r)
      modifies addr
      ensures PartlyReclaimed(t, q, r + 1)
    {
      assert AtHome(i);
      hide Used, Reclaimed, Home;
      addr[i] := Reclaimed(addr[i]);
      forall j | 0 <= j < RX_RING_SIZE
        ensures AtHome(j)
      {
        assert old(AtHome(j));
      }
    }

    /** The first r of the fragments q from tail on are reclaimed, the others as they were. */
    ghost predicate PartlyReclaimed(tail: nat, q: seq<Fragment>, r: nat)
      requires Layout()
      reads addr, ctrl, rxBuffer
    {
      && tail < RX_RING_SIZE && r <= |q| <= RX_RING_SIZE
      && (forall k :: 0 <= k < r ==> !Used(addr[Idx(tail, k)]))
      && (forall k :: r <= k < |q| ==> Holds(Idx(tail, k), q[k]))
      && (forall k :: |q| <= k < RX_RING_SIZE ==> !Used(addr[Idx(tail, k)]))
      && (forall i :: 0 <= i < RX_RING_SIZE ==> AtHome(i))
    }

    lemma TailMoved(t: nat, q: seq<Fragment>, m: nat)
      requires Layout() && PartlyReclaimed(t, q, m) && m < RX_RING_SIZE
      ensures RingIs(Idx(t, m), q[m..])
    {
      var u := Idx(t, m);
      forall k | 0 <= k < |q| - m
        ensures Holds(Idx(u, k), q[m..][k])
      {
        assert Idx(u, k) == Idx(t, m + k);
        assert Holds(Idx(t, m + k), q[m + k]);
      }
      forall k | |q| - m <= k < RX_RING_SIZE
        ensures !Used(addr[Idx(u, k)])
      {
        if m + k < RX_RING_SIZE {
          assert Idx(u, k) == Idx(t, m + k);
        } else {
          assert Idx(u, k) == Idx(t, m + k - RX_RING_SIZE);
        }
      }
    }

    /** Copy n bytes of the receive buffer into a packet. */
    method Memcpy(packet: array<U8>, to: nat, from: nat, n: nat)
      requires to + n <= packet.Length && from + n <= rxBuffer.Length
      requires packet != rxBuffer
      modifies packet
      ensures forall j :: to <= j < to + n ==> packet[j] == rxBuffer[from + j - to]
      ensures forall j :: 0 <= j < packet.Length && !(to <= j < to + n) ==> packet[j] == old(packet[j])
    {
      var i := 0;
      while i < n
        invariant 0 <= i <= n
        invariant forall j :: to <= j < to + i ==> packet[j] == rxBuffer[from + j - to]
        invariant forall j :: 0 <= j < packet.Length && !(to <= j < to + i) ==> packet[j] == old(packet[j])
      {
        packet[to + i] := rxBuffer[from + i];
        i := i + 1;
      }
    }

    /** Byte j of the pending fragments lies j places after the tail's buffer, around the end
        of the ring if need be. */
    lemma BytesInBuffer(t: nat, q: seq<Fragment>, n: nat, j: nat)
      requires Layout() && RingIs(t, q) && n <= |q| && j < 128 * n
      ensures var x := 128 * t + j;
              var y := if x < RX_BUFFER_BYTES then x else x - RX_BUFFER_BYTES;
              y < rxBuffer.Length && ByteOf(q[..n], j) == rxBuffer[y]
    {
      var k, o := j / 128, j % 128;
      assert Holds(Idx(t, k), q[k]);
      assert rxBuffer[128 * Idx(t, k) + o] == q[k].bytes[o];
    }

    /** Copy the complete frame at the front of the queue, in two pieces if it wraps. */
    method CopyFrame(packet: array<U8>, length: nat, ghost n: nat)
      requires Layout() && RingIs(rxTail, pending) && packet.Length >= MAX_FRAME && packet != rxBuffer
      requires 1 <= n <= 4 && n <= |pending| && 128 * (n - 1) < length <= 128 * n
      requires wrapped <==> rxTail + n - 1 >= RX_RING_SIZE
      modifies packet
      ensures forall j :: 0 <= j < length ==> packet[j] == ByteOf(pending[..n], j)
    {
      assert rxTail < RX_RING_SIZE;
      hide RingIs, ByteOf;
      if wrapped {
        var headlen := 128 * (RX_RING_SIZE - rxTail);
        Memcpy(packet, 0, 128 * rxTail, headlen);
        Memcpy(packet, headlen, 0, length - headlen);
      } else {
        Memcpy(packet, 0, 128 * rxTail, length);
      }
      forall j | 0 <= j < length
        ensures packet[j] == ByteOf(pending[..n], j)
      {
        BytesInBuffer(rxTail, pending, n, j);
      }
    }

    /** The scan stands at descriptor next, n places after the tail, having passed n fragments. */
    ghost predicate Scanning(next: nat, n: nat)
      reads this, addr, ctrl, rxBuffer
    {
      && Valid() && n <= |pending| && n <= 4 && Scanned(pending, n)
      && next == Idx(rxTail, n) && (wrapped <==> rxTail + n >= RX_RING_SIZE)
    }

    /** What the driver sees there. */
    lemma Look(next: nat, n: nat)
      requires Scanning(next, n)
      ensures Layout() && next < addr.Length == ctrl.Length && (next == rxTail <==> n == 0)
      ensures n <= |pending| && (Used(addr[next]) <==> n < |pending|)
      ensures n < |pending| ==> Sof(ctrl[next]) == pending[n].sof && Eof(ctrl[next]) == pending[n].eof
      ensures WellFormed(pending)
      ensures n == |pending| ==> Frames(pending) == [] && (pending == [] || Scan(pending, 0) == Open)
    {
      if n == |pending| { ScanOpen(pending); }
      assert n < |pending| ==> Holds(Idx(rxTail, n), pending[n]);
    }

    /** The start of a frame behind n passed fragments: those are of a frame cut short. */
    lemma CutSeen(next: nat, n: nat)
      requires Scanning(next, n) && n < |pending| && pending[n].sof
      ensures Layout() && RingIs(rxTail, pending) && n < RX_RING_SIZE && next == Idx(rxTail, n)
      ensures WellFormed(pending[n..]) && Consumed(pending, [], pending[n..]) && (next == rxTail <==> n == 0)
      ensures InStep(stored, hwNext, delivered, next, pending[n..])
    {
      Look(next, n);
      if n == 0 { NothingConsumed(pending); } else { ScanCut(pending, n); }
      hide Consumed, Scanned, WellFormed, InStep;
      assert n == 0 ==> pending[n..] == pending;
      StaysInStep(stored, hwNext, delivered, rxTail, pending, n, []);
      assert delivered + [] == delivered;
    }

    lemma ScanStarts(next: nat)
      requires Layout() && RingIs(rxTail, pending) && WellFormed(pending)
      requires InStep(stored, hwNext, delivered, rxTail, pending)
      requires next == rxTail && !wrapped
      ensures Scanning(next, 0)
    {
      assert next < RX_RING_SIZE;
      hide RingIs, WellFormed, InStep;
    }

    /** At the start of a frame: if fragments were passed before it, their frame was cut short
        and its descriptors are given back. */
    method StartFrame(status: U32, next: nat, ghost n: nat) returns (ghost m: nat, ghost k: nat)
      requires Scanning(next, n) && n < |pending| && Sof(status) == pending[n].sof
      modifies this`rxTail, this`wrapped, this`pending, addr
      ensures Scanning(next, m) && m < |pending| && (pending[m].sof ==> m == 0)
      ensures WellFormed(pending) && Consumed(old(pending), [], pending)
      ensures pending[m] == old(pending)[n] && m + k == n && |pending| + k == |old(pending)|
    {
      hide *;
      m, k := n, 0;
      Look(next, n);
      NothingConsumed(pending);
      if Sof(status) {
        CutSeen(next, n);
        assert pending[n..][0] == pending[n];
        if next != rxTail {
          ReclaimRxBuffers(next, n);
          m, k := 0, n;
        }
        wrapped := false;
        ScanStarts(next);
      }
    }

    /** Not the end of a frame: look one descriptor further. */
    method Advance(next: nat, ghost n: nat) returns (further: nat)
      requires Scanning(next, n) && n < |pending| && !pending[n].eof && (pending[n].sof ==> n == 0)
      modifies this`wrapped
      ensures Scanning(further, n + 1)
    {
      ScanStep(pending, n);
      hide WellFormed, Scanned;
      further := next + 1;
      if further >= RX_RING_SIZE {
        wrapped := true;
        further := 0;
      }
    }

    lemma EndSeen(next: nat, n: nat)
      requires Scanning(next, n) && n < |pending| && pending[n].eof && (pending[n].sof ==> n == 0)
      ensures Valid() && Layout() && RingIs(rxTail, pending) && next < RX_RING_SIZE && n < 4
      ensures Scan(pending, 0) == Complete(n + 1)
      ensures FrameLen(ctrl[next]) == pending[n].len && 128 * n < pending[n].len <= 128 * (n + 1)
      ensures wrapped <==> rxTail + n >= RX_RING_SIZE
      ensures Idx(rxTail, n + 1) == if next + 1 >= RX_RING_SIZE then 0 else next + 1
    {
      Look(next, n);
      ScanEof(pending, n);
      assert Holds(Idx(rxTail, n), pending[n]);
    }

    /** The frame at the front of the queue, of n fragments, has been copied out. */
    ghost predicate FrameReady(packet: array<U8>, length: int, n: nat)
      reads this, packet
    {
      && pending != [] && Scan(pending, 0) == Complete(n) && n <= 4 && nextRxTail == Idx(rxTail, n)
      && 0 < length <= MAX_FRAME <= packet.Length && packet[..length] == FrameBytes(pending[..n])
    }

    /** The end of a frame: copy the frame out. */
    method Deliver(packet: array<U8>, next: nat, ghost n: nat) returns (length: nat)
      requires Scanning(next, n) && n < |pending| && pending[n].eof && (pending[n].sof ==> n == 0)
      requires packet.Length >= MAX_FRAME && packet != rxBuffer
      modifies this`nextRxTail, packet
      ensures Valid() && length != -1 && FrameReady(packet, length, n + 1)
    {
      hide WellFormed, Scan, Scanned, Scanning, RingIs, FrameLen, FrameBytes, ByteOf, Idx, FrameReady;
      EndSeen(next, n);
      length := FrameLen(ctrl[next]);
      CopyFrame(packet, length, n + 1);
      FrameIs(packet[..length], pending[..n + 1]);
      nextRxTail := next + 1;
      if nextRxTail >= RX_RING_SIZE {
        nextRxTail := 0;
      }
      ReadyNow(packet, length, n + 1);
    }

    lemma ReadyNow(packet: array<U8>, length: int, n: nat)
      requires pending != [] && Scan(pending, 0) == Complete(n) && n <= 4 && nextRxTail == Idx(rxTail, n)
      requires 0 < length <= MAX_FRAME <= packet.Length && packet[..length] == FrameBytes(pending[..n])
      ensures FrameReady(packet, length, n)
    {}

    /** One descriptor of the scan: k fragments of a frame cut short are dropped, and the scan
        is done at the end of a frame. */
    method ScanOne(packet: array<U8>, next: nat, ghost n: nat)
      returns (done: bool, length: int, further: nat, ghost m: nat, ghost k: nat)
      requires Scanning(next, n) && n < |pending|
      requires packet.Length >= MAX_FRAME && packet != rxBuffer
      modifies this`rxTail, this`nextRxTail, this`wrapped, this`pending, addr, packet
      ensures Consumed(old(pending), [], pending) && |pending| + k == |old(pending)|
      ensures !done ==> Scanning(further, m) && m + k == n + 1
      ensures done ==> Valid() && length != -1 && FrameReady(packet, length, m)
    {
      hide *;
      Look(next, n);
      var status := ctrl[next];
      m, k := StartFrame(status, next, n);
      Look(next, m);
      if Eof(status) {
        length := Deliver(packet, next, m);
        done, further, m := true, next, m + 1;
      } else {
        further := Advance(next, m);
        done, length, m := false, -1, m + 1;
      }
    }

    /** Look for a complete frame.  Frames cut short are dropped on the way, and nothing else.  If
        a complete frame is found it is the oldest one, its bytes are copied out, and its n
        descriptors are those from rxTail up to nextRxTail; if not, at most the beginning of a
        frame is left, and it keeps its descriptors. */
    method RecvOnce(packet: array<U8>) returns (length: int, ghost n: nat)
      requires Valid() && packet.Length >= MAX_FRAME && packet != rxBuffer
      modifies this`rxTail, this`nextRxTail, this`wrapped, this`pending, addr, packet
      ensures Valid() && Consumed(old(pending), [], pending)
      ensures length == -1 ==> pending == [] || Scan(pending, 0) == Open
      ensures length != -1 ==> FrameReady(packet, length, n)
    {
      nextRxTail := rxTail;
      wrapped := false;
      var next := nextRxTail;
      n := 0;
      assert Scanning(next, 0);
      hide *;
      Look(next, 0);
      ghost var q := pending;
      NothingConsumed(q);
      while true
        invariant Scanning(next, n) && Consumed(q, [], pending)
        decreases |pending|, |pending| - n
        modifies this`rxTail, this`nextRxTail, this`wrapped, this`pending, addr, packet
      {
        Look(next, n);
        if !Used(addr[next]) {
          ScanValid(next, n);
          return -1, 0;
        }
        ghost var mid, k := pending, 0;
        var done;
        done, length, next, n, k := ScanOne(packet, next, n);
        CutsFirst(q, mid, [], pending);
        if done {
          return;
        }
      }
    }

    lemma ScanValid(next: nat, n: nat)
      requires Scanning(next, n)
      ensures Valid()
    {}

    method HwStore(i: nat, at: nat, data: Buffer)
      requires Layout() && RingIs(rxTail, pending) && |pending| < RX_RING_SIZE && i == Idx(rxTail, |pending|)
      requires at == 128 * i
      modifies rxBuffer
      ensures RingIs(rxTail, pending)
      ensures forall x :: 0 <= x < 128 ==> rxBuffer[128 * i + x] == data[x]
    {
      var o := 0;
      while o < 128
        invariant 0 <= o <= 128 && RingIs(rxTail, pending)
        invariant forall x :: 0 <= x < o ==> rxBuffer[128 * i + x] == data[x]
        modifies rxBuffer
      {
        rxBuffer[at + o] := data[o];
        o := o + 1;
      }
    }

    /** What the hardware finds: its next descriptor is the one behind the pending ones. */
    lemma HwFinds()
      requires Valid() && !Used(addr[hwNext])
      ensures Layout() && RingIs(rxTail, pending) && InStep(stored, hwNext, delivered, rxTail, pending)
      ensures |pending| < RX_RING_SIZE && rxTail < RX_RING_SIZE
      ensures hwNext < RX_RING_SIZE == addr.Length && BufferAt(addr[hwNext], base) == 128 * hwNext
      ensures Wraps(addr[hwNext]) <==> hwNext == RX_RING_SIZE - 1
    {
      assert AtHome(hwNext);
      HomeIs(addr[hwNext], base, hwNext);
      hide Used, BufferAt, Wraps, Home;
      assert |pending| > 0 ==> Holds(Idx(rxTail, 0), pending[0]);
    }

    /** The hardware stores a fragment in its next descriptor, unless that is still in use: it
        writes where the address word says, and goes back to the first descriptor where that has
        the wrap bit. */
    method HwReceive(status: U32, data: Buffer)
      requires Valid() && !Used(addr[hwNext])
      requires WellFormed(stored + [Fragment(Sof(status), Eof(status), FrameLen(status), data)])
      modifies this`hwNext, this`pending, this`stored, addr, ctrl, rxBuffer
      ensures Valid() && stored == old(stored) + [Fragment(Sof(status), Eof(status), FrameLen(status), data)]
      ensures pending == old(pending) + [Fragment(Sof(status), Eof(status), FrameLen(status), data)]
      ensures hwNext == OneOn(old(hwNext))
    {
      hide Valid, InStep, WellFormed, RingIs, Layout, Sof, Eof, FrameLen, BufferAt, Wraps, Used;
      HwFinds();
      ghost var f := Fragment(Sof(status), Eof(status), FrameLen(status), data);
      HwGoesOn(stored, hwNext, delivered, rxTail, pending, f);
      var word := addr[hwNext];
      HwFill(hwNext, BufferAt(word, base), status, data);
      stored := stored + [f];
      hwNext := if Wraps(word) then 0 else hwNext + 1;
      IsValid();
    }

    /** The descriptor is filled and marked as used. */
    method HwFill(i: nat, at: nat, status: U32, data: Buffer)
      requires Layout() && RingIs(rxTail, pending) && |pending| < RX_RING_SIZE && i == Idx(rxTail, |pending|)
      requires at == 128 * i
      modifies this`pending, addr, ctrl, rxBuffer
      ensures pending == old(pending) + [Fragment(Sof(status), Eof(status), FrameLen(status), data)]
      ensures RingIs(rxTail, pending)
    {
      HwStore(i, at, data);
      ghost var t, q := rxTail, pending;
      ghost var f := Fragment(Sof(status), Eof(status), FrameLen(status), data);
      label Stored:
      hide Sof, Eof, FrameLen, Used, InUse, Home;
      ctrl[i] := status;
      addr[i] := InUse(addr[i]);
      pending := q + [f];
      assert Holds(i, f);
      forall k | 0 <= k < |q|
        ensures Holds(Idx(t, k), q[k])
      {
        assert old@Stored(Holds(Idx(t, k), q[k])) && Idx(t, k) != i;
      }
      forall k | |q| < k < RX_RING_SIZE
        ensures !Used(addr[Idx(t, k)])
      {
        assert old@Stored(!Used(addr[Idx(t, k)])) && Idx(t, k) != i;
      }
      forall j | 0 <= j < RX_RING_SIZE
        ensures AtHome(j)
      {
        assert old@Stored(AtHome(j));
      }
      assert RingIs(t, q + [f]);
    }

    /** The waiting time between two tries, in which the hardware may store any number of
        fragments. */
    method Delay() returns (ghost more: seq<Fragment>)
      requires Valid()
      modifies this`hwNext, this`pending, this`stored, addr, ctrl, rxBuffer
      ensures Valid() && pending == old(pending) + more && stored == old(stored) + more
    {
      more := [];
    }

    lemma NothingLeft()
      requires Valid() && (pending == [] || Scan(pending, 0) == Open)
      ensures WellFormed(stored) && delivered == Frames(stored)
    {
      NothingWaits(pending);
      Fifo(stored, hwNext, delivered, rxTail, pending);
      hide WellFormed, InStep, Frames;
      assert delivered + [] == delivered;
    }

    lemma ReadyFacts(packet: array<U8>, length: int, n: nat)
      requires Valid() && FrameReady(packet, length, n)
      ensures Layout() && RingIs(rxTail, pending) && 0 < n <= |pending| && n <= 4 && nextRxTail == Idx(rxTail, n)
      ensures 0 < length <= MAX_FRAME <= packet.Length && WellFormed(pending[n..])
      ensures Consumed(pending, [packet[..length]], pending[n..])
      ensures InStep(stored, hwNext, delivered + [packet[..length]], nextRxTail, pending[n..])
    {
      FirstRun(pending);
      FrameConsumed(pending);
      hide WellFormed, Consumed, InStep;
      StaysInStep(stored, hwNext, delivered, rxTail, pending, n, [packet[..length]]);
    }

    lemma IsValid()
      requires Layout() && RingIs(rxTail, pending) && WellFormed(pending)
      requires InStep(stored, hwNext, delivered, rxTail, pending)
      ensures Valid()
    {}

    /** Give the descriptors of the frame just copied back to the hardware. */
    method GiveBack(packet: array<U8>, length: int, ghost n: nat)
      requires Valid() && FrameReady(packet, length, n)
      modifies this`rxTail, this`pending, this`delivered, addr
      ensures Valid() && 0 < length <= packet.Length && delivered == old(delivered) + [packet[..length]]
      ensures Consumed(old(pending), [packet[..length]], pending)
    {
      hide Valid, InStep, WellFormed, RingIs, Layout, Consumed, FrameReady, Frames, Scan, FrameBytes;
      ReadyFacts(packet, length, n);
      ReclaimRxBuffers(nextRxTail, n);
      delivered := delivered + [packet[..length]];
      IsValid();
    }

    /** Try a few times to receive a frame.  Of all that was in the ring or has been added, frames
        cut short in front go back to the hardware.  A result is the oldest complete frame, and
        its descriptors go back too; no result means that every frame stored before the call had
        been handed out, and nothing else has gone. */
    method MacbRecv(packet: array<U8>) returns (num: int, ghost added: seq<Fragment>)
      requires Valid() && packet.Length >= MAX_FRAME && packet != rxBuffer
      modifies this, addr, ctrl, rxBuffer, packet
      ensures Valid() && stored == old(stored) + added
      ensures num == -1 || 0 < num <= MAX_FRAME
      ensures var out := if num == -1 then [] else [packet[..num]];
              delivered == old(delivered) + out && Consumed(old(pending) + added, out, pending)
      ensures num == -1 ==> old(WellFormed(stored)) && old(delivered) == Frames(old(stored))
    {
      hide Valid, InStep, WellFormed, RingIs, Layout, Consumed, FrameReady, Frames, Scan, FrameBytes;
      ghost var q, s0, d := pending, stored, delivered;
      Starts(q, s0, d);
      added := [];
      var i := 0;
      while i < MAX_RX_TRIES
        invariant 0 <= i && Valid() && stored == s0 + added && delivered == d
        invariant WellFormed(q + added) && Consumed(q + added, [], pending)
        invariant if i == 0 then added == [] else WellFormed(s0) && d == Frames(s0)
      {
        ghost var n, mid;
        mid := pending;
        num, n := RecvOnce(packet);
        LengthIs(packet, num, n);
        CutsFirst(q + added, mid, [], pending);
        if num > 0 {
          mid := pending;
          GiveBack(packet, num, n);
          CutsFirst(q + added, mid, [packet[..num]], pending);
          return;
        }
        NothingLeft();
        mid := pending;
        ghost var more := Delay();
        Grown(q, added, mid, more);
        added := added + more;
        i := i + 1;
      }
      num := -1;
    }

    lemma Starts(q: seq<Fragment>, s0: seq<Fragment>, d: seq<seq<U8>>)
      requires Valid()
      ensures s0 + [] == s0 && q + [] == q && d + [] == d && Consumed(pending, [], pending) && WellFormed(pending)
    {
      NothingConsumed(pending);
    }

    lemma LengthIs(packet: array<U8>, length: int, n: nat)
      requires length != -1 ==> FrameReady(packet, length, n)
      ensures length == -1 || 0 < length <= MAX_FRAME
    {}

    lemma Grown(q: seq<Fragment>, added: seq<Fragment>, rest: seq<Fragment>, more: seq<Fragment>)
      requires Valid() && pending == rest + more && WellFormed(q + added) && Consumed(q + added, [], rest)
      ensures WellFormed(q + (added + more)) && Consumed(q + (added + more), [], pending)
    {
      hide WellFormed, Consumed, RingIs, InStep;
      ConsumedGrows(q + added, [], rest, more);
      assert q + added + more == q + (added + more);
    }
  }

  lemma NothingWaits(q: seq<Fragment>)
    requires WellFormed(q) && (q == [] || Scan(q, 0) == Open)
    ensures Frames(q) == []
  {}
}
