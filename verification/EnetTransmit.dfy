/**
 * The transmit path of the Ethernet driver: scattering a chain of network buffers over the fixed-size
 * buffers of the descriptor ring, and handing the descriptors to the DMA engine.
 */
module EnetTransmit {
  import opened Arithmetic
  import opened Bytes
  import opened Ring

  type Buffer = seq<Byte>

  datatype Desc = Desc(own: bool, fs: bool, ls: bool, tbs: nat)

  datatype Outcome = Ok | Timeout | InProgress

  /** Room the driver asks for after the data, for the check sequence the controller inserts. */
  const CRC_BYTES: nat := 4

  // ---------------------------------------------------------------- layout

  ghost predicate Sized(bufs: seq<Buffer>, size: nat) {
    0 < |bufs| && 0 < size && forall i :: 0 <= i < |bufs| ==> |bufs[i]| == size
  }

  /** What the buffers hold, read in ring order: k whole buffers from d on, then `off` bytes of the next. */
  function Gather(bufs: seq<Buffer>, d: nat, k: nat, off: nat): Buffer
    requires d < |bufs| && forall i :: 0 <= i < |bufs| ==> off <= |bufs[i]|
    decreases k
  {
    if k == 0 then bufs[d][..off] else bufs[d] + Gather(bufs, Next(d, |bufs|), k - 1, off)
  }

  /** The bytes of a chain, in order. */
  function Concat(chain: seq<Buffer>): Buffer {
    if chain == [] then [] else chain[0] + Concat(chain[1..])
  }

  lemma SplicedPrefix(b: Buffer, off: nat, chunk: Buffer)
    requires off + |chunk| <= |b|
    ensures Splice(b, off, chunk)[..off + |chunk|] == b[..off] + chunk
  {
  }

  lemma Associative(a: Buffer, b: Buffer, c: Buffer)
    ensures a + (b + c) == (a + b) + c
  {
  }

  /** Copying a chunk behind what is there appends it to what is read. */
  lemma {:induction false} GatherAppend(bufs: seq<Buffer>, d: nat, k: nat, off: nat, chunk: Buffer, size: nat)
    requires Sized(bufs, size) && d < |bufs| && k < |bufs| && off + |chunk| <= size
    ensures var t := Wrap(d, k, |bufs|);
            Gather(bufs[t := Splice(bufs[t], off, chunk)], d, k, off + |chunk|) == Gather(bufs, d, k, off) + chunk
    decreases k
  {
    var n := |bufs|;
    var t := Wrap(d, k, n);
    var bufs' := bufs[t := Splice(bufs[t], off, chunk)];
    if k == 0 {
      SplicedPrefix(bufs[d], off, chunk);
    } else {
      var next := Next(d, n);
      assert Wrap(next, k - 1, n) == t;
      GatherAppend(bufs, next, k - 1, off, chunk, size);
      assert bufs'[d] == bufs[d];
      Associative(bufs[d], Gather(bufs, next, k - 1, off), chunk);
    }
  }

  /** A full buffer and the start of the next one read the same. */
  lemma {:induction false} GatherCarry(bufs: seq<Buffer>, d: nat, k: nat, size: nat)
    requires Sized(bufs, size) && d < |bufs|
    ensures Gather(bufs, d, k, size) == Gather(bufs, d, k + 1, 0)
    decreases k
  {
    var next := Next(d, |bufs|);
    if k == 0 {
      assert bufs[d][..size] == bufs[d];
      assert Gather(bufs, next, 0, 0) == [];
    } else {
      GatherCarry(bufs, next, k - 1, size);
    }
  }

  lemma ConcatSplit(chain: seq<Buffer>, i: nat)
    requires i < |chain|
    ensures Concat(chain[..i + 1]) == Concat(chain[..i]) + chain[i]
    ensures |Concat(chain[..i])| + |chain[i]| <= |Concat(chain)|
  {
    ConcatAppend(chain[..i], chain[i]);
    assert chain[..i + 1] == chain[..i] + [chain[i]];
    ConcatPlus(chain[..i + 1], chain[i + 1..]);
    assert chain == chain[..i + 1] + chain[i + 1..];
  }

  lemma {:induction false} ConcatAppend(a: seq<Buffer>, x: Buffer)
    ensures Concat(a + [x]) == Concat(a) + x
  {
    ConcatPlus(a, [x]);
    assert Concat([x]) == x + Concat([]) == x;
  }

  lemma {:induction false} ConcatPlus(a: seq<Buffer>, b: seq<Buffer>)
    ensures Concat(a + b) == Concat(a) + Concat(b)
  {
    if a == [] {
      assert a + b == b;
    } else {
      assert (a + b)[1..] == a[1..] + b;
      ConcatPlus(a[1..], b);
    }
  }

  // ---------------------------------------------------------------- handing over

  /** How many descriptors `enet_prepare_transmission_descriptors` uses. */
  function BufCount(length: nat, size: nat): nat
    requires 0 < size
  {
    if length > size then length / size + (if length % size != 0 then 1 else 0) else 1
  }

  lemma BufCountExact(length: nat, size: nat)
    requires 0 < size
    ensures 1 <= BufCount(length, size)
    ensures length <= BufCount(length, size) * size
    ensures 0 < length ==> (BufCount(length, size) - 1) * size < length
    ensures BufCount(length, size) == 1 <==> length <= size
  {
    var q, r := length / size, length % size;
    assert length == q * size + r;
    assert (q + 1) * size == q * size + size;
    assert (q - 1) * size == q * size - size;
    assert q == 0 || (q == 1 && r == 0) ==> length <= size;
  }

  const TBS_LIMIT: nat := 0x2000

  /** Descriptor i of a frame that takes `count` descriptors: only the last one gets its `own` bit. */
  function Prepared(old_: Desc, i: nat, count: nat, length: nat, size: nat): Desc
    requires 0 < size && i < count
  {
    if count == 1 then
      Desc(true, true, true, length % TBS_LIMIT)
    else if i == count - 1 then
      Desc(true, false, true, (if length < (count - 1) * size then 0 else length - (count - 1) * size) % TBS_LIMIT)
    else
      Desc(old_.own, i == 0, false, size % TBS_LIMIT)
  }

  function PrepareFrom(descs: seq<Desc>, d: nat, i: nat, count: nat, length: nat, size: nat): (r: seq<Desc>)
    requires d < |descs| && 0 < size && i <= count
    ensures |r| == |descs|
    decreases count - i
  {
    if i == count then descs
    else
      var descs' := descs[d := Prepared(descs[d], i, count, length, size)];
      PrepareFrom(descs', Next(d, |descs|), i + 1, count, length, size)
  }

  /** Frames that fit the ring are described descriptor by descriptor, and nothing else is touched. */
  lemma {:induction false} PrepareExact(descs: seq<Desc>, d: nat, i: nat, count: nat, length: nat, size: nat)
    requires d < |descs| && 0 < size && i <= count && count - i <= |descs|
    ensures forall j :: 0 <= j < |descs| ==>
              PrepareFrom(descs, d, i, count, length, size)[j] ==
              if Dist(j, d, |descs|) < count - i
              then Prepared(descs[j], i + Dist(j, d, |descs|), count, length, size)
              else descs[j]
    decreases count - i
  {
    if i < count {
      var n, next := |descs|, Next(d, |descs|);
      var descs' := descs[d := Prepared(descs[d], i, count, length, size)];
      PrepareExact(descs', next, i + 1, count, length, size);
      forall j | 0 <= j < n && j != d
        ensures Dist(j, d, n) == Dist(j, next, n) + 1
      {
      }
      assert Dist(d, next, n) == n - 1;
    }
  }

  /** The DMA engine stands at `cur` and may send the frame only if it owns every descriptor of it. */
  ghost predicate HandedOver(descs: seq<Desc>, cur: nat, count: nat)
    requires cur < |descs|
  {
    forall j :: 0 <= j < |descs| && Dist(j, cur, |descs|) < count ==> descs[j].own
  }

  /**
   * When the CPU has the descriptor at the list pointer, a prepared frame is completely handed over exactly
   * when it fits one buffer. Exactly one descriptor, the frame's last, is given to the DMA engine; so of a
   * longer frame the first stays with the CPU.
   */
  lemma HandedOverIffOneBuffer(descs: seq<Desc>, cur: nat, length: nat, size: nat)
    requires cur < |descs| && 0 < size && BufCount(length, size) <= |descs| && !descs[cur].own
    ensures var count := BufCount(length, size);
            var after := PrepareFrom(descs, cur, 0, count, length, size);
            && (HandedOver(after, cur, count) <==> length <= size)
            && (forall j :: 0 <= j < |descs| ==>
                  (after[j].own <==> descs[j].own || Dist(j, cur, |descs|) == count - 1))
  {
    var count := BufCount(length, size);
    BufCountExact(length, size);
    PrepareExact(descs, cur, 0, count, length, size);
    assert Dist(cur, cur, |descs|) == 0;
  }

  /** The first descriptor of a frame is marked as such and no other, the last likewise; the rest of the ring stays. */
  lemma MarkedFirstAndLast(descs: seq<Desc>, cur: nat, length: nat, size: nat)
    requires cur < |descs| && 0 < size && BufCount(length, size) <= |descs|
    ensures var count := BufCount(length, size);
            var after := PrepareFrom(descs, cur, 0, count, length, size);
            forall j :: 0 <= j < |descs| ==>
              if Dist(j, cur, |descs|) < count then
                && (after[j].fs <==> Dist(j, cur, |descs|) == 0)
                && (after[j].ls <==> Dist(j, cur, |descs|) == count - 1)
              else after[j] == descs[j]
  {
    PrepareExact(descs, cur, 0, BufCount(length, size), length, size);
  }

  /** The byte counts of the prepared descriptors, in ring order. */
  function Total(descs: seq<Desc>, d: nat, k: nat): nat
    requires d < |descs|
    decreases k
  {
    if k == 0 then 0 else descs[d].tbs + Total(descs, Next(d, |descs|), k - 1)
  }

  lemma {:induction false} TotalFull(descs: seq<Desc>, d: nat, k: nat, size: nat)
    requires d < |descs| && k <= |descs|
    requires forall j :: 0 <= j < |descs| && Dist(j, d, |descs|) < k ==> descs[j].tbs == size
    ensures Total(descs, d, k) == k * size
    decreases k
  {
    if k > 0 {
      var n, next := |descs|, Next(d, |descs|);
      forall j | 0 <= j < n && Dist(j, next, n) < k - 1
        ensures Dist(j, d, n) < k
      {
      }
      assert Dist(d, d, n) == 0;
      TotalFull(descs, next, k - 1, size);
      assert k * size == (k - 1) * size + size;
    }
  }

  lemma {:induction false} TotalSplit(descs: seq<Desc>, d: nat, k: nat)
    requires d < |descs| && k < |descs|
    ensures Total(descs, d, k + 1) == Total(descs, d, k) + descs[Wrap(d, k, |descs|)].tbs
    decreases k
  {
    var n, next := |descs|, Next(d, |descs|);
    if k > 0 {
      assert Wrap(next, k - 1, n) == Wrap(d, k, n);
      TotalSplit(descs, next, k - 1);
    } else {
      assert Total(descs, next, 0) == 0;
    }
  }

  /** Every descriptor of a frame is full but the last one, which gets the rest. */
  lemma PreparedTbs(d: Desc, i: nat, count: nat, length: nat, size: nat)
    requires 0 < size < TBS_LIMIT && i < count && (count - 1) * size < length <= (count - 1) * size + size
    ensures Prepared(d, i, count, length, size).tbs == if i == count - 1 then length - (count - 1) * size else size
  {
    assert count == 1 ==> (count - 1) * size == 0;
  }

  lemma LastIsShort(length: nat, size: nat)
    requires 0 < size && 0 < length
    ensures var rest := (BufCount(length, size) - 1) * size; rest < length <= rest + size
  {
    var count := BufCount(length, size);
    BufCountExact(length, size);
    assert count * size == (count - 1) * size + size;
  }

  lemma PreparedSizes(descs: seq<Desc>, cur: nat, length: nat, size: nat)
    requires cur < |descs| && 0 < size < TBS_LIMIT && 0 < length && BufCount(length, size) <= |descs|
    ensures var count := BufCount(length, size);
            var after := PrepareFrom(descs, cur, 0, count, length, size);
            forall j :: 0 <= j < |descs| && Dist(j, cur, |descs|) < count ==>
              after[j].tbs == if Dist(j, cur, |descs|) == count - 1 then length - (count - 1) * size else size
  {
    var count := BufCount(length, size);
    LastIsShort(length, size);
    PrepareExact(descs, cur, 0, count, length, size);
    forall j | 0 <= j < |descs| && Dist(j, cur, |descs|) < count
      ensures Prepared(descs[j], Dist(j, cur, |descs|), count, length, size).tbs
              == if Dist(j, cur, |descs|) == count - 1 then length - (count - 1) * size else size
    {
      PreparedTbs(descs[j], Dist(j, cur, |descs|), count, length, size);
    }
  }

  /** The prepared byte counts add up to the frame length. */
  lemma PreparedBytes(descs: seq<Desc>, cur: nat, length: nat, size: nat)
    requires cur < |descs| && 0 < size < TBS_LIMIT && 0 < length && BufCount(length, size) <= |descs|
    ensures var count := BufCount(length, size);
            Total(PrepareFrom(descs, cur, 0, count, length, size), cur, count) == length
  {
    var count := BufCount(length, size);
    BufCountExact(length, size);
    PreparedSizes(descs, cur, length, size);
    AddUp(PrepareFrom(descs, cur, 0, count, length, size), cur, count - 1, size);
  }

  /** k full descriptors and the one after them. */
  lemma AddUp(descs: seq<Desc>, cur: nat, k: nat, size: nat)
    requires cur < |descs| && k < |descs|
    requires forall j :: 0 <= j < |descs| && Dist(j, cur, |descs|) < k ==> descs[j].tbs == size
    ensures var last := Wrap(cur, k, |descs|);
            Dist(last, cur, |descs|) == k && Total(descs, cur, k + 1) == k * size + descs[last].tbs
  {
    TotalFull(descs, cur, k, size);
    TotalSplit(descs, cur, k);
  }

  /**
   * The length goes to the hand-over in 16 bits: the descriptors' byte counts add up to data and check
   * sequence exactly when these are fewer than 65536 bytes.
   */
  lemma HandOverBytesIff(descs: seq<Desc>, cur: nat, total: nat, size: nat)
    requires cur < |descs| && 0 < size < TBS_LIMIT
    requires BufCount((total + CRC_BYTES) % 0x1_0000, size) <= |descs|
    ensures var length := (total + CRC_BYTES) % 0x1_0000;
            var count := BufCount(length, size);
            Total(PrepareFrom(descs, cur, 0, count, length, size), cur, count) == total + CRC_BYTES
            <==> total + CRC_BYTES < 0x1_0000
  {
    var length := (total + CRC_BYTES) % 0x1_0000;
    if length > 0 {
      PreparedBytes(descs, cur, length, size);
    } else {
      EmptyBytes(descs, cur, size);
    }
  }

  lemma EmptyBytes(descs: seq<Desc>, cur: nat, size: nat)
    requires cur < |descs| && 0 < size
    ensures BufCount(0, size) == 1 && Total(PrepareFrom(descs, cur, 0, 1, 0, size), cur, 1) == 0
  {
    var after := descs[cur := Prepared(descs[cur], 0, 1, 0, size)];
    assert PrepareFrom(descs, cur, 0, 1, 0, size) == PrepareFrom(after, Next(cur, |descs|), 1, 1, 0, size) == after;
    assert Total(after, cur, 1) == after[cur].tbs + Total(after, Next(cur, |descs|), 0);
  }

  /**
   * The copy loop has checked and filled the descriptors of `total` data bytes; the hand-over then uses
   * those of `total` plus the check sequence. One more descriptor, whose owner nobody looked at, is
   * used exactly when the data ends within the last four bytes of a buffer.
   */
  lemma ExtraDescriptorIff(total: nat, size: nat)
    requires CRC_BYTES <= size && 0 < total
    ensures BufCount(total + CRC_BYTES, size) > BufCount(total, size)
            <==> total % size == 0 || total % size + CRC_BYTES > size
  {
    var q, r := total / size, total % size;
    CountOf(total, q, r, size);
    if r + CRC_BYTES > size {
      CountOf(total + CRC_BYTES, q + 1, r + CRC_BYTES - size, size);
    } else {
      CountOf(total + CRC_BYTES, q, r + CRC_BYTES, size);
    }
  }

  /** q whole buffers and r bytes more take q + 1 descriptors, or q if there is nothing more. */
  lemma CountOf(length: nat, q: nat, r: nat, size: nat)
    requires 0 < size && r <= size && 0 < length == q * size + r
    ensures BufCount(length, size) == if r == 0 then q else q + 1
  {
    assert (q + 1) * size == q * size + size;
    if r == 0 {
      assert q != 0;
      assert (q - 1) * size == q * size - size;
      CountUnique(length, size, q);
    } else {
      CountUnique(length, size, q + 1);
    }
  }

  lemma CountUnique(length: nat, size: nat, c: nat)
    requires 0 < size && 0 < length && 0 < c && (c - 1) * size < length <= c * size
    ensures BufCount(length, size) == c
  {
    var b := BufCount(length, size);
    BufCountExact(length, size);
    MulLess(c - 1, b, size);
    MulLess(b - 1, c, size);
  }

  /** From one table to the other, the DMA engine has at most given some descriptors up. */
  ghost predicate Finished(from: seq<Desc>, to: seq<Desc>) {
    && |from| == |to|
    && forall j :: 0 <= j < |to| ==> to[j] == from[j] || to[j] == from[j].(own := false)
  }

  /** And the CPU has not written a buffer that the DMA engine still owns. */
  ghost predicate Meanwhile(descs: seq<Desc>, bufs: seq<Buffer>, descs': seq<Desc>, bufs': seq<Buffer>) {
    && Finished(descs, descs') && |bufs| == |bufs'| == |descs|
    && forall j :: 0 <= j < |descs'| && descs'[j].own ==> bufs'[j] == bufs[j]
  }

  lemma MeanwhileTwice(d0: seq<Desc>, b0: seq<Buffer>, d1: seq<Desc>, b1: seq<Buffer>, d2: seq<Desc>, b2: seq<Buffer>)
    requires Meanwhile(d0, b0, d1, b1) && Meanwhile(d1, b1, d2, b2)
    ensures Meanwhile(d0, b0, d2, b2)
  {
    forall j | 0 <= j < |d2|
      ensures d2[j] == d0[j] || d2[j] == d0[j].(own := false)
      ensures d2[j].own ==> b2[j] == b0[j]
    {
      assert d1[j] == d0[j] || d1[j] == d0[j].(own := false);
    }
  }

  // ---------------------------------------------------------------- when a call succeeds

  /** The i-th descriptor from the list pointer on is one that `total` bytes of data reach. */
  predicate Reached(i: nat, total: nat, size: nat) {
    i == 0 || i * size < total
  }

  /** It is still the DMA engine's. */
  predicate Stuck(descs: seq<Desc>, cur: nat, i: nat, total: nat, size: nat) {
    i < |descs| && cur < |descs| && Reached(i, total, size) && descs[Wrap(cur, i, |descs|)].own
  }

  /** The first ones up to the k-th are the CPU's. */
  ghost predicate Cleared(descs: seq<Desc>, cur: nat, k: nat)
    requires cur < |descs|
  {
    forall i :: 0 <= i <= k && i < |descs| ==> !descs[Wrap(cur, i, |descs|)].own
  }

  lemma ClearedStays(descs: seq<Desc>, descs': seq<Desc>, cur: nat, k: nat)
    requires cur < |descs| && Finished(descs, descs') && Cleared(descs, cur, k)
    ensures Cleared(descs', cur, k)
  {
    forall i | 0 <= i <= k && i < |descs|
      ensures !descs'[Wrap(cur, i, |descs|)].own
    {
      var j := Wrap(cur, i, |descs|);
      assert descs'[j] == descs[j] || descs'[j] == descs[j].(own := false);
    }
  }

  /** How a call that is at its k-th descriptor, with more data than that to come, can fail. */
  ghost predicate FailsAt(r: Outcome, descs: seq<Desc>, cur: nat, total: nat, size: nat) {
    match r
    case Ok => false
    case Timeout => Stuck(descs, cur, 0, total, size)
    case InProgress => !Stuck(descs, cur, 0, total, size) && exists i :: Stuck(descs, cur, i, total, size)
  }

  /** With data up to the k-th buffer, none of the descriptors reached is stuck when these are cleared. */
  lemma NoneStuck(descs: seq<Desc>, cur: nat, k: nat, off: nat, total: nat, size: nat)
    requires cur < |descs| && Cleared(descs, cur, k) && off <= size && total == k * size + off
    ensures forall i :: !Stuck(descs, cur, i, total, size)
  {
    forall i: nat
      ensures !Stuck(descs, cur, i, total, size)
    {
      if i > k {
        MulMono(k + 1, i, size);
        assert (k + 1) * size == k * size + size;
      }
    }
  }

  /** A descriptor that is free when the call begins is not stuck later. */
  lemma StuckBefore(descs: seq<Desc>, descs': seq<Desc>, cur: nat, i: nat, total: nat, size: nat)
    requires Finished(descs, descs') && Stuck(descs', cur, i, total, size)
    ensures Stuck(descs, cur, i, total, size)
  {
    var j := Wrap(cur, i, |descs|);
    assert descs'[j] == descs[j];
  }

  // ---------------------------------------------------------------- runs of short frames

  /** The ring with the DMA engine at descriptor `dma`, and the frames that have left. */
  datatype Link = Link(descs: seq<Desc>, bufs: seq<Buffer>, cur: nat, dma: nat, wire: seq<Buffer>)

  datatype Event = Queue(frame: Buffer) | Refuse | Send

  ghost predicate Linked(s: Link) {
    s.cur < |s.descs| == |s.bufs| && s.dma < |s.descs|
  }

  /** Buffers of the DMA engine are left alone. */
  ghost predicate Respects(s: Link, t: Link)
    requires Linked(s)
  {
    |t.bufs| == |s.bufs| && forall j :: 0 <= j < |s.bufs| && s.descs[j].own ==> t.bufs[j] == s.bufs[j]
  }

  /** The descriptor a one-buffer frame gets, and its buffer. */
  predicate Holds(d: Desc, b: Buffer, frame: Buffer) {
    d == Desc(true, true, true, |frame| + CRC_BYTES) && |frame| <= |b| && b[..|frame|] == frame
  }

  /** A call that queues a frame of one buffer, the descriptor at the list pointer being free by then. */
  ghost predicate Queues(s: Link, t: Link, frame: Buffer) {
    && Linked(s) && !s.descs[s.cur].own && Respects(s, t)
    && t.descs == s.descs[s.cur := Desc(true, true, true, |frame| + CRC_BYTES)]
    && Holds(t.descs[s.cur], t.bufs[s.cur], frame)
    && t.cur == Next(s.cur, |s.descs|) && t.dma == s.dma && t.wire == s.wire
  }

  /** A call that fails. */
  ghost predicate Refuses(s: Link, t: Link) {
    && Linked(s) && Respects(s, t)
    && t.descs == s.descs && t.cur == s.cur && t.dma == s.dma && t.wire == s.wire
  }

  /** The engine takes the frame of the descriptor it stands at, if it owns it, and moves on. */
  ghost predicate Sends(s: Link, t: Link) {
    && Linked(s) && s.descs[s.dma].own && CRC_BYTES <= s.descs[s.dma].tbs <= |s.bufs[s.dma]| + CRC_BYTES
    && t == s.(descs := s.descs[s.dma := s.descs[s.dma].(own := false)], dma := Next(s.dma, |s.descs|),
               wire := s.wire + [s.bufs[s.dma][..s.descs[s.dma].tbs - CRC_BYTES]])
  }

  ghost predicate Step(s: Link, e: Event, t: Link) {
    match e
    case Queue(frame) => Queues(s, t, frame)
    case Refuse => Refuses(s, t)
    case Send => Sends(s, t)
  }

  ghost predicate Run(states: seq<Link>, events: seq<Event>) {
    |states| == |events| + 1 && forall k :: 0 <= k < |events| ==> Step(states[k], events[k], states[k + 1])
  }

  /** The frames that were queued, in order. */
  function Queued(events: seq<Event>, k: nat): seq<Buffer>
    requires k <= |events|
  {
    if k == 0 then []
    else Queued(events, k - 1) + (if events[k - 1].Queue? then [events[k - 1].frame] else [])
  }

  /** Descriptor j is the engine's exactly when one of the waiting frames is in it, and then it holds that frame. */
  ghost predicate Slot(s: Link, waiting: seq<Buffer>, j: nat)
    requires Linked(s) && j < |s.descs|
  {
    var i := Dist(j, s.dma, |s.descs|);
    if i < |waiting| then Holds(s.descs[j], s.bufs[j], waiting[i]) else !s.descs[j].own
  }

  /** The waiting frames lie in order from the engine's descriptor up to the list pointer. */
  ghost predicate Waiting(s: Link, waiting: seq<Buffer>) {
    && Linked(s) && |waiting| <= |s.descs| && s.cur == Wrap(s.dma, |waiting|, |s.descs|)
    && forall j :: 0 <= j < |s.descs| ==> Slot(s, waiting, j)
  }

  lemma QueueKeeps(s: Link, t: Link, frame: Buffer, waiting: seq<Buffer>)
    requires Waiting(s, waiting) && Queues(s, t, frame)
    ensures Waiting(t, waiting + [frame])
  {
    var n := |s.descs|;
    assert Slot(s, waiting, s.cur);
    assert |waiting| < n && Dist(s.cur, s.dma, n) == |waiting|;
    forall j | 0 <= j < n
      ensures Slot(t, waiting + [frame], j)
    {
      assert Slot(s, waiting, j);
    }
  }

  lemma RefuseKeeps(s: Link, t: Link, waiting: seq<Buffer>)
    requires Waiting(s, waiting) && Refuses(s, t)
    ensures Waiting(t, waiting)
  {
    forall j | 0 <= j < |s.descs|
      ensures Slot(t, waiting, j)
    {
      assert Slot(s, waiting, j);
    }
  }

  /** What the engine sends is the frame that has waited longest. */
  lemma SendKeeps(s: Link, t: Link, waiting: seq<Buffer>)
    requires Waiting(s, waiting) && Sends(s, t)
    ensures waiting != [] && t.wire == s.wire + [waiting[0]] && Waiting(t, waiting[1..])
  {
    var n := |s.descs|;
    assert Slot(s, waiting, s.dma) && Dist(s.dma, s.dma, n) == 0;
    forall j | 0 <= j < n
      ensures Slot(t, waiting[1..], j)
    {
      assert Slot(s, waiting, j);
      assert Dist(j, t.dma, n) == if j == s.dma then n - 1 else Dist(j, s.dma, n) - 1;
    }
  }

  lemma StepKeeps(s: Link, e: Event, t: Link, queued: seq<Buffer>)
    requires |s.wire| <= |queued| && s.wire == queued[..|s.wire|] && Waiting(s, queued[|s.wire|..]) && Step(s, e, t)
    ensures var queued' := queued + (if e.Queue? then [e.frame] else []);
            |t.wire| <= |queued'| && t.wire == queued'[..|t.wire|] && Waiting(t, queued'[|t.wire|..])
  {
    var waiting := queued[|s.wire|..];
    match e
    case Queue(frame) =>
      QueueKeeps(s, t, frame, waiting);
      assert (queued + [frame])[|t.wire|..] == waiting + [frame];
    case Refuse =>
      RefuseKeeps(s, t, waiting);
      assert queued + [] == queued;
    case Send =>
      SendKeeps(s, t, waiting);
      assert queued + [] == queued && queued[|t.wire|..] == waiting[1..];
  }

  /**
   * Over every run of frames that fit one buffer, failed calls and sends of the DMA engine, in any interleaving:
   * what has left is what was queued, each frame once, in order and intact, up to those still in the ring.
   * These lie in the ring in order, so at most as many as it has descriptors.
   */
  lemma {:induction false} SentOnceInOrder(states: seq<Link>, events: seq<Event>, k: nat)
    requires Run(states, events) && k <= |events| && Waiting(states[0], []) && states[0].wire == []
    ensures var s, queued := states[k], Queued(events, k);
            |s.wire| <= |queued| && s.wire == queued[..|s.wire|] && Waiting(s, queued[|s.wire|..])
  {
    if k > 0 {
      SentOnceInOrder(states, events, k - 1);
      StepKeeps(states[k - 1], events[k - 1], states[k], Queued(events, k - 1));
    }
  }

  /** The engine can send exactly when a frame waits, and a frame can be queued exactly when the ring is not full. */
  lemma NeverStuck(s: Link, waiting: seq<Buffer>)
    requires Waiting(s, waiting)
    ensures (exists t :: Sends(s, t)) <==> waiting != []
    ensures !s.descs[s.cur].own <==> |waiting| < |s.descs|
  {
    var n := |s.descs|;
    assert Slot(s, waiting, s.dma) && Dist(s.dma, s.dma, n) == 0;
    assert Slot(s, waiting, s.cur) && Dist(s.cur, s.dma, n) == if |waiting| < n then |waiting| else 0;
    if waiting != [] {
      var t := s.(descs := s.descs[s.dma := s.descs[s.dma].(own := false)], dma := Next(s.dma, n),
                  wire := s.wire + [s.bufs[s.dma][..s.descs[s.dma].tbs - CRC_BYTES]]);
      assert Sends(s, t);
    }
  }

  lemma OneBuffer(total: nat, k: nat, off: nat, size: nat)
    requires k * size + off == total && total + CRC_BYTES <= size
    ensures k == 0 && off == total
  {
    if k > 0 {
      MulMono(1, k, size);
    }
  }

  lemma PreparedOne(descs: seq<Desc>, cur: nat, length: nat, size: nat)
    requires cur < |descs| && length <= size && 0 < size < TBS_LIMIT
    ensures BufCount(length, size) == 1 && Onwards(cur, 1, |descs|) == Next(cur, |descs|)
    ensures PrepareFrom(descs, cur, 0, 1, length, size) == descs[cur := Desc(true, true, true, length)]
  {
    var after := descs[cur := Prepared(descs[cur], 0, 1, length, size)];
    assert PrepareFrom(after, Next(cur, |descs|), 1, 1, length, size) == after;
    assert Onwards(Next(cur, |descs|), 0, |descs|) == Next(cur, |descs|);
  }

  lemma TakeOn(data: Buffer, payload: Buffer, done: nat, n: nat)
    requires done + n <= |payload|
    ensures data + payload[..done] + payload[done..done + n] == data + payload[..done + n]
    ensures done + n == |payload| ==> payload[done..done + n] == payload[done..] && payload[..done + n] == payload
  {
  }

  /** What the outcome of the copy loop means for the whole call. */
  lemma CallOutcome(r: Outcome, descs: seq<Desc>, ready: seq<Desc>, cur: nat, total: nat, size: nat)
    requires Finished(descs, ready)
    requires r == Ok || FailsAt(r, ready, cur, total, size)
    ensures (forall i :: !Stuck(descs, cur, i, total, size)) ==> r == Ok
    ensures r != Ok ==> exists i :: Stuck(ready, cur, i, total, size)
    ensures r != Ok ==> (r == Timeout <==> Stuck(ready, cur, 0, total, size))
  {
    if r != Ok {
      var i: nat :| Stuck(ready, cur, i, total, size);
      StuckBefore(descs, ready, cur, i, total, size);
    }
  }

  /** Data that fit one buffer reach one descriptor. */
  lemma OneReached(descs: seq<Desc>, cur: nat, total: nat, size: nat)
    requires cur < |descs| && total <= size
    ensures Stuck(descs, cur, 0, total, size) <==> descs[cur].own
    ensures (exists i :: Stuck(descs, cur, i, total, size)) <==> descs[cur].own
  {
    assert Wrap(cur, 0, |descs|) == cur;
    forall i: nat | 0 < i
      ensures !Stuck(descs, cur, i, total, size)
    {
      MulMono(1, i, size);
    }
  }

  /** A table and buffers as a successful call leaves them when the frame fits one buffer. */
  lemma OneIsQueued(mid: Link, now: Link, frame: Buffer, k: nat, off: nat, size: nat)
    requires Linked(mid) && Linked(now) && |now.descs| == |mid.descs| && Respects(mid, now) && Sized(now.bufs, size)
    requires |frame| + CRC_BYTES <= size < TBS_LIMIT && k < |mid.descs| && k * size + off == |frame| && off <= size
    requires Gather(now.bufs, mid.cur, k, off) == frame && !mid.descs[Wrap(mid.cur, k, |mid.descs|)].own
    requires var length := |frame| + CRC_BYTES;
             && now.cur == Onwards(mid.cur, BufCount(length, size), |mid.descs|)
             && now.descs == PrepareFrom(mid.descs, mid.cur, 0, BufCount(length, size), length, size)
    requires now.dma == mid.dma && now.wire == mid.wire
    ensures Queues(mid, now, frame)
  {
    OneBuffer(|frame|, k, off, size);
    PreparedOne(mid.descs, mid.cur, |frame| + CRC_BYTES, size);
  }

  // ---------------------------------------------------------------- the driver

  class EnetDevice {
    const size: nat
    const descs: array<Desc>
    const bufs: array<Buffer>
    var cur: nat

    ghost predicate Valid()
      reads this, descs, bufs
    {
      && descs.Length == bufs.Length && cur < descs.Length
      && Sized(bufs[..], size)
    }

    constructor (count: nat, size: nat)
      requires 0 < count && 0 < size
      ensures Valid() && this.size == size && descs.Length == count && cur == 0
      ensures fresh(descs) && fresh(bufs)
      ensures forall j :: 0 <= j < count ==> !descs[j].own
    {
      this.size := size;
      descs := new Desc[count](_ => Desc(false, false, false, 0));
      bufs := new Buffer[count](_ => seq(size, _ => 0));
      cur := 0;
    }

    /** Since then the DMA engine has only given descriptors up, and what it still owns was left alone. */
    ghost predicate Since(descs0: seq<Desc>, bufs0: seq<Buffer>)
      reads descs, bufs
    {
      Meanwhile(descs0, bufs0, descs[..], bufs[..])
    }

    /** The DMA engine finishes with whatever it likes. */
    method Engine()
      requires Valid()
      modifies descs
      ensures Valid() && Finished(old(descs[..]), descs[..])
    {
      var n: int := *;
      for i := 0 to if n < 0 then 0 else n
        invariant Finished(old(descs[..]), descs[..])
      {
        var j: int := *;
        if 0 <= j < descs.Length {
          descs[j] := descs[j].(own := false);
        }
      }
    }

    /** Poll a descriptor until the DMA engine gives it up or the time is over. */
    method WaitForOwner(d: nat) returns (ok: bool)
      requires Valid() && d < descs.Length
      modifies descs
      ensures Valid() && Finished(old(descs[..]), descs[..])
      ensures ok <==> !descs[d].own
    {
      if descs[d].own {
        Engine();
      }
      ok := !descs[d].own;
    }

    /** The only place that writes a transmit buffer: never while the DMA engine owns it. */
    method CopyToBuffer(d: nat, off: nat, chunk: Buffer)
      requires Valid() && d < descs.Length && !descs[d].own && off + |chunk| <= size
      modifies bufs
      ensures Valid() && bufs[..] == old(bufs[..])[d := Splice(old(bufs[d]), off, chunk)]
    {
      bufs[d] := Splice(bufs[d], off, chunk);
    }

    /** `data` lies over k whole buffers from the list pointer on and `off` bytes of the buffer of d. */
    ghost predicate Laid(k: nat, off: nat, d: nat, data: Buffer)
      requires Valid()
      reads this, descs, bufs
    {
      && k < descs.Length && off <= size && d == Wrap(cur, k, descs.Length)
      && Gather(bufs[..], cur, k, off) == data && k * size + off == |data|
    }

    method Put(ghost k: nat, off: nat, d: nat, ghost data: Buffer, chunk: Buffer)
      requires Valid() && Laid(k, off, d, data) && !descs[d].own && off + |chunk| <= size
      modifies bufs
      ensures Valid() && Laid(k, off + |chunk|, d, data + chunk) && Since(old(descs[..]), old(bufs[..]))
    {
      GatherAppend(bufs[..], cur, k, off, chunk, size);
      CopyToBuffer(d, off, chunk);
    }

    /** From the end of a full buffer to the start of the next, when more data is to come. */
    lemma Carry(k: nat, d: nat, data: Buffer)
      requires Valid() && Laid(k, size, d, data) && |data| < descs.Length * size
      ensures Laid(k + 1, 0, Next(d, descs.Length), data)
    {
      GatherCarry(bufs[..], cur, k, size);
      assert (k + 1) * size == k * size + size;
      MulLess(k + 1, descs.Length, size);
    }

    /**
     * Wait for the current buffer and put a chunk into it. Only at the first one can the wait end in vain. The
     * tables at the start of the call are carried along.
     */
    method PutWhenFree(ghost k: nat, off: nat, d: nat, ghost data: Buffer, chunk: Buffer,
                       ghost descs0: seq<Desc>, ghost bufs0: seq<Buffer>)
      returns (ok: bool)
      requires Valid() && Laid(k, off, d, data) && off + |chunk| <= size && (k == 0 || Cleared(descs[..], cur, k))
      requires Since(descs0, bufs0)
      modifies descs, bufs
      ensures Valid() && Since(descs0, bufs0)
      ensures ok ==> Laid(k, off + |chunk|, d, data + chunk) && Cleared(descs[..], cur, k)
      ensures !ok ==> k == 0 && descs[d].own
    {
      ghost var before, was := descs[..], bufs[..];
      ok := WaitForOwner(d);
      if k > 0 {
        ClearedStays(before, descs[..], cur, k);
      }
      if ok {
        Put(k, off, d, data, chunk);
      }
      MeanwhileTwice(descs0, bufs0, before, was, descs[..], bufs[..]);
    }

    /** Fill the current buffer up and move to the next descriptor, which must be free. */
    method FillUp(ghost k: nat, off: nat, d: nat, ghost data: Buffer, chunk: Buffer, ghost total: nat,
                  ghost descs0: seq<Desc>, ghost bufs0: seq<Buffer>)
      returns (r: Outcome, next: nat)
      requires Valid() && Laid(k, off, d, data) && off + |chunk| == size && (k == 0 || Cleared(descs[..], cur, k))
      requires Since(descs0, bufs0) && |data| + |chunk| < total <= descs.Length * size
      modifies descs, bufs
      ensures Valid() && Since(descs0, bufs0)
      ensures r == Ok ==> Laid(k + 1, 0, next, data + chunk) && Cleared(descs[..], cur, k + 1)
      ensures r != Ok ==> FailsAt(r, descs[..], cur, total, size)
    {
      next := d;
      var ok := PutWhenFree(k, off, d, data, chunk, descs0, bufs0);
      if !ok {
        assert Stuck(descs[..], cur, 0, total, size);
        return Timeout, next;
      }
      Carry(k, d, data + chunk);
      next := if d + 1 == descs.Length then 0 else d + 1;
      if descs[next].own {
        assert Wrap(cur, 0, descs.Length) == cur && Wrap(cur, k + 1, descs.Length) == next;
        assert Stuck(descs[..], cur, k + 1, total, size);
        r := InProgress;
      } else {
        r := Ok;
      }
    }

    /** One turn of the loop over a payload of which `done` bytes have been copied. */
    method CopyTurn(payload: Buffer, done: nat, ghost k: nat, off: nat, d: nat, ghost data: Buffer, ghost total: nat,
                    ghost descs0: seq<Desc>, ghost bufs0: seq<Buffer>)
      returns (r: Outcome, next: nat)
      requires Valid() && off <= size && done + (size - off) < |payload|
      requires Laid(k, off, d, data + payload[..done]) && (k == 0 || Cleared(descs[..], cur, k))
      requires Since(descs0, bufs0) && |data| + |payload| <= total <= descs.Length * size
      modifies descs, bufs
      ensures Valid() && Since(descs0, bufs0)
      ensures r == Ok ==> Laid(k + 1, 0, next, data + payload[..done + (size - off)]) && Cleared(descs[..], cur, k + 1)
      ensures r != Ok ==> FailsAt(r, descs[..], cur, total, size)
    {
      TakeOn(data, payload, done, size - off);
      r, next := FillUp(k, off, d, data + payload[..done], payload[done..done + (size - off)], total, descs0, bufs0);
    }

    /** The body of the loop over the chain: scatter one payload behind what is already there. */
    method CopyPayload(payload: Buffer, ghost k0: nat, off0: nat, d0: nat, ghost data: Buffer, ghost total: nat,
                       ghost descs0: seq<Desc>, ghost bufs0: seq<Buffer>)
      returns (r: Outcome, ghost k: nat, off: nat, d: nat)
      requires Valid() && Laid(k0, off0, d0, data) && |data| + |payload| <= total <= descs.Length * size
      requires Since(descs0, bufs0) && (k0 == 0 || Cleared(descs[..], cur, k0))
      modifies descs, bufs
      ensures Valid() && Since(descs0, bufs0)
      ensures r == Ok ==> Laid(k, off, d, data + payload) && Cleared(descs[..], cur, k)
      ensures r != Ok ==> FailsAt(r, descs[..], cur, total, size)
    {
      var left, done := |payload|, 0;
      k, off, d := k0, off0, d0;
      assert data + payload[..0] == data;
      while left + off > size
        invariant 0 <= done && 0 <= left && done + left == |payload| && Valid() && off <= size
        invariant Laid(k, off, d, data + payload[..done]) && (k == 0 || Cleared(descs[..], cur, k))
        invariant Since(descs0, bufs0)
        decreases left + off
      {
        r, d := CopyTurn(payload, done, k, off, d, data, total, descs0, bufs0);
        if r != Ok {
          return;
        }
        k := k + 1;
        left, done, off := left - (size - off), done + (size - off), 0;
      }
      TakeOn(data, payload, done, left);
      var ok := PutWhenFree(k, off, d, data + payload[..done], payload[done..], descs0, bufs0);
      r := if ok then Ok else Timeout;
      assert !ok ==> Stuck(descs[..], cur, 0, total, size);
      off := off + left;
    }

    method Prepare(length: nat)
      requires Valid()
      modifies this`cur, descs
      ensures Valid()
      ensures descs[..] == PrepareFrom(old(descs[..]), old(cur), 0, BufCount(length, size), length, size)
      ensures cur == Onwards(old(cur), BufCount(length, size), descs.Length)
    {
      var count, i, d := BufCount(length, size), 0, cur;
      while i < count
        invariant 0 <= i <= count && 0 <= d < descs.Length
        invariant PrepareFrom(descs[..], d, i, count, length, size)
               == PrepareFrom(old(descs[..]), old(cur), 0, count, length, size)
        invariant Onwards(d, count - i, descs.Length) == Onwards(old(cur), count, descs.Length)
      {
        ghost var before := descs[..];
        descs[d] := Prepared(descs[d], i, count, length, size);
        assert descs[..] == before[d := Prepared(before[d], i, count, length, size)];
        d := if d + 1 == descs.Length then 0 else d + 1;
        i := i + 1;
      }
      cur := d;
    }

    /**
     * `rt_hpm_eth_tx`. It succeeds exactly when none of the descriptors that the data reach is still the DMA
     * engine's, so certainly when all of them are free at the start; it times out exactly when the first of them
     * is not given up. On success the chain lies contiguously over the buffers from the old list pointer on: k
     * whole buffers and `off` bytes. `ready` is the descriptor table just before the hand-over, or at an error
     * exit; a buffer the DMA engine still owns then has not been written.
     */
    method Transmit(chain: seq<Buffer>) returns (r: Outcome, ghost k: nat, off: nat, ghost ready: seq<Desc>)
      requires Valid() && |Concat(chain)| <= descs.Length * size
      modifies this`cur, descs, bufs
      ensures Valid()
      ensures chain == [] ==> r == Ok
      ensures chain != [] ==> (r == Ok <==> forall i :: !Stuck(ready, old(cur), i, |Concat(chain)|, size))
      ensures chain != [] ==> (r == Timeout <==> Stuck(ready, old(cur), 0, |Concat(chain)|, size))
      ensures (forall i :: !Stuck(old(descs[..]), old(cur), i, |Concat(chain)|, size)) ==> r == Ok
      ensures Meanwhile(old(descs[..]), old(bufs[..]), ready, bufs[..])
      ensures r != Ok ==> cur == old(cur) && ready == descs[..]
      ensures r == Ok ==>
                && k < descs.Length && off <= size && k * size + off == |Concat(chain)|
                && Gather(bufs[..], old(cur), k, off) == Concat(chain)
                && (var length := (|Concat(chain)| + CRC_BYTES) % 0x1_0000;
                    && cur == Onwards(old(cur), BufCount(length, size), descs.Length)
                    && descs[..] == PrepareFrom(ready, old(cur), 0, BufCount(length, size), length, size))
    {
      var d, frameLength;
      r, k, off, d, frameLength := CopyChain(chain);
      ready := descs[..];
      CallOutcome(r, old(descs[..]), ready, cur, |Concat(chain)|, size);
      if r == Ok {
        Prepare((frameLength + CRC_BYTES) % 0x1_0000);
      }
    }

    /** The loop over the chain. */
    method CopyChain(chain: seq<Buffer>) returns (r: Outcome, ghost k: nat, off: nat, d: nat, frameLength: nat)
      requires Valid() && |Concat(chain)| <= descs.Length * size
      modifies descs, bufs
      ensures Valid() && Since(old(descs[..]), old(bufs[..]))
      ensures r == Ok ==> Laid(k, off, d, Concat(chain)) && frameLength == |Concat(chain)|
      ensures r == Ok && chain != [] ==> forall i :: !Stuck(descs[..], cur, i, |Concat(chain)|, size)
      ensures r != Ok ==> chain != [] && FailsAt(r, descs[..], cur, |Concat(chain)|, size)
    {
      var q := 0;
      r, k, off, d, frameLength := Ok, 0, 0, cur, 0;
      ghost var laid: Buffer := [];
      while q < |chain|
        invariant 0 <= q <= |chain| && Valid() && r == Ok
        invariant Laid(k, off, d, laid) && laid == Concat(chain[..q]) && frameLength == |laid|
        invariant Since(old(descs[..]), old(bufs[..])) && (if q == 0 then k == 0 else Cleared(descs[..], cur, k))
      {
        ConcatSplit(chain, q);
        r, k, off, d := CopyPayload(chain[q], k, off, d, laid, |Concat(chain)|, old(descs[..]), old(bufs[..]));
        if r != Ok {
          return;
        }
        frameLength, laid := frameLength + |chain[q]|, laid + chain[q];
        q := q + 1;
      }
      assert chain[..|chain|] == chain;
      if chain != [] {
        NoneStuck(descs[..], cur, k, off, |laid|, size);
      }
    }

    /**
     * A call with a frame that fits one buffer is a step of the runs above, once the wait for the engine is over. It
     * queues the frame exactly when the descriptor at the list pointer is free by then.
     */
    method TransmitOne(chain: seq<Buffer>, ghost dma: nat, ghost wire: seq<Buffer>)
      returns (r: Outcome, ghost mid: Link)
      requires Valid() && dma < descs.Length && chain != [] && |Concat(chain)| + CRC_BYTES <= size < TBS_LIMIT
      modifies this`cur, descs, bufs
      ensures Valid() && Finished(old(descs[..]), mid.descs)
      ensures mid == Link(mid.descs, old(bufs[..]), old(cur), dma, wire)
      ensures r == if mid.descs[mid.cur].own then Timeout else Ok
      ensures !old(descs[cur].own) ==> r == Ok
      ensures r == Ok ==> Queues(mid, Link(descs[..], bufs[..], cur, dma, wire), Concat(chain))
      ensures r != Ok ==> Refuses(mid, Link(descs[..], bufs[..], cur, dma, wire))
    {
      ghost var was, at, frame := bufs[..], cur, Concat(chain);
      MulMono(1, descs.Length, size);
      ghost var k, ready;
      var off;
      r, k, off, ready := Transmit(chain);
      mid := Link(ready, was, at, dma, wire);
      OneReached(ready, at, |frame|, size);
      if r == Ok {
        assert (|frame| + CRC_BYTES) % 0x1_0000 == |frame| + CRC_BYTES;
        OneIsQueued(mid, Link(descs[..], bufs[..], cur, dma, wire), frame, k, off, size);
      }
    }
  }
}
