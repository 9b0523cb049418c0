/**
 * The zero-copy receive ring of the Ethernet driver.
 *
 * Three parties share it: the DMA engine fills descriptors, the receive thread runs `rt_hpm_eth_rx`, and
 * the network stack returns buffers in any order. A descriptor whose `own` bit is 0 may be freshly
 * filled or still in the stack's hands. The first part of the module is the shared state and its
 * atomic steps. The receive call is split before and after it looks at the descriptors; passing a frame on
 * is one step: the slot, the buffer and `cnt` it uses are nobody else's until it is done, and others only
 * give pool elements back. The second part is what holds over every run; the third is the driver code
 * itself, proved to take these steps.
 */
module EnetReceive {
  import opened Arithmetic
  import opened Ring

  type Packet = seq<bv8>

  /** Bytes of frame check sequence that the descriptor's frame length counts and the driver removes. */
  const CRC_BYTES: nat := 4

  const RX_BUFF_SIZE: nat := 1536

  /** One entry of `enet_dev->frame`: the frame it describes, and whether the stack still holds it. */
  datatype Slot = Slot(length: nat, buffer: nat, seg: nat, free: bool, rxDesc: nat)

  /** Where the receive thread stands inside `rt_hpm_eth_rx`. */
  datatype Phase = Idle | Guarded | Fetched

  datatype State = State(
    own: seq<bool>, fl: seq<nat>, buf: seq<Packet>,        // descriptors and their buffers
    slots: seq<Slot>, cnt: nat, cur: nat, segCount: nat,   // the driver's variables
    pool: nat, fault: bool,                                // pool elements in use; a NULL element was used
    phase: Phase,
    dma: nat,                                              // the descriptor the DMA engine fills next
    held: map<nat, Packet>,                                // what the stack holds, by frame slot
    completed: seq<Packet>, delivered: seq<Packet>)        // history

  datatype Event = Fill(p: Packet) | Guard | Fetch | Publish | Free(slot: nat)

  const EMPTY_SLOT := Slot(0, 0, 0, false, 0)

  function Init(n: nat): State
  {
    State(seq(n, _ => true), seq(n, _ => 0), seq(n, _ => []), seq(n, _ => EMPTY_SLOT), 0, 0, 0, 0, false, Idle, 0,
          map[], [], [])
  }

  predicate Shaped(s: State) {
    && 0 < |s.own| == |s.fl| == |s.buf| == |s.slots|
    && s.cnt < |s.own| && s.cur < |s.own| && s.dma < |s.own|
  }

  /**
   * What each party may do: the DMA engine fills only descriptors it owns, with non-empty frames that fit
   * one buffer; the stack frees only what it holds.
   */
  predicate Enabled(s: State, e: Event) {
    Shaped(s) &&
    match e
    case Fill(p) => s.own[s.dma] && 0 < |p| <= RX_BUFF_SIZE - CRC_BYTES
    case Guard => s.phase == Idle
    case Fetch => s.phase == Guarded
    case Publish => s.phase == Fetched
    case Free(i) => i in s.held && i < |s.own|
  }

  /** The DMA engine stores a whole frame in one buffer and hands the descriptor over. */
  function FillStep(s: State, p: Packet): State
    requires Enabled(s, Fill(p))
  {
    s.(own := s.own[s.dma := false], fl := s.fl[s.dma := |p| + CRC_BYTES], buf := s.buf[s.dma := p],
       dma := Next(s.dma, |s.own|), completed := s.completed + [p])
  }

  /** The test of `frame[cnt].free`. */
  function GuardStep(s: State): State
    requires Enabled(s, Guard)
  {
    if s.slots[s.cnt].free then s else s.(phase := Guarded)
  }

  /** The frame length without the check sequence, in 32 bits. */
  function FrameLength(fl: nat): nat {
    (fl + 0x1_0000_0000 - CRC_BYTES) % 0x1_0000_0000
  }

  /** `len` in the driver has 16 bits. */
  predicate HasData(slot: Slot) {
    slot.length % 0x1_0000 > 0
  }

  function BufferAt(s: State, i: nat): Packet {
    if i < |s.buf| then s.buf[i] else []
  }

  /** `enet_get_received_frame_interrupt` on a ring of one-segment frames, stored into `frame[cnt]`. */
  function FetchStep(s: State): State
    requires Enabled(s, Fetch)
  {
    if s.own[s.cur] then
      s.(slots := s.slots[s.cnt := EMPTY_SLOT], phase := Fetched)
    else
      var seg := s.segCount + 1;
      var slot := Slot(FrameLength(s.fl[s.cur]), s.cur, seg, false, s.cur);
      s.(slots := s.slots[s.cnt := slot], segCount := seg, cur := Next(s.cur, |s.own|), phase := Fetched)
  }

  /** The rest of the receive call: mark the slot, take a pool element, wrap the buffer, advance. */
  function PublishStep(s: State): State
    requires Enabled(s, Publish)
  {
    var slot := s.slots[s.cnt];
    if !HasData(slot) then
      s.(phase := Idle)
    else if s.pool == |s.own| then
      s.(slots := s.slots[s.cnt := slot.(free := true)], fault := true, phase := Idle)
    else
      s.(slots := s.slots[s.cnt := slot.(free := true)], pool := s.pool + 1,
         held := s.held[s.cnt := BufferAt(s, slot.buffer)], delivered := s.delivered + [BufferAt(s, slot.buffer)],
         cnt := (s.cnt + 1) % |s.own|, segCount := 0, phase := Idle)
  }

  /** The `own` bits after `seg` descriptors from `start` on are handed back. */
  function Release(own: seq<bool>, start: nat, seg: nat): (r: seq<bool>)
    ensures |r| == |own|
    decreases seg
  {
    if seg == 0 || start >= |own| then own else Release(own[start := true], Next(start, |own|), seg - 1)
  }

  /** The stack drops its last reference: the pbuf's custom free function runs. */
  function FreeStep(s: State, i: nat): State
    requires Enabled(s, Free(i))
  {
    s.(own := Release(s.own, s.slots[i].rxDesc, s.slots[i].seg),
       slots := s.slots[i := s.slots[i].(seg := 0, free := false)],
       pool := if s.pool == 0 then 0 else s.pool - 1, held := s.held - {i})
  }

  function Apply(s: State, e: Event): State
    requires Enabled(s, e)
  {
    match e
    case Fill(p) => FillStep(s, p)
    case Guard => GuardStep(s)
    case Fetch => FetchStep(s)
    case Publish => PublishStep(s)
    case Free(i) => FreeStep(s, i)
  }

  // ---------------------------------------------------------------- the invariant

  /** 1 while a frame has left the ring but has not reached the stack. */
  function InFlight(s: State): nat
    requires Shaped(s)
  {
    if s.phase == Fetched && HasData(s.slots[s.cnt]) then 1 else 0
  }

  /** Completed frames that are still waiting in the ring. */
  function Waiting(s: State): int
    requires Shaped(s)
  {
    |s.completed| - |s.delivered| - InFlight(s)
  }

  predicate IsWaiting(s: State, i: nat)
    requires Shaped(s) && i < |s.own|
  {
    Dist(i, s.cur, |s.own|) < Waiting(s)
  }

  ghost predicate Positions(s: State)
    requires Shaped(s)
  {
    && 0 <= Waiting(s) <= |s.own| - InFlight(s)
    && s.dma == Wrap(s.cur, Waiting(s), |s.own|)
    && |s.delivered| + InFlight(s) <= |s.completed|
    && (InFlight(s) == 0 ==> s.cur == s.cnt && s.segCount == 0)
    && (InFlight(s) == 1 ==> s.cur == Next(s.cnt, |s.own|) && s.segCount == 1)
    && (s.phase != Idle ==> s.cnt !in s.held)
  }

  /** What the in-hand frame's slot and buffer say. */
  ghost predicate InHandOk(s: State)
    requires Shaped(s) && Positions(s)
  {
    InFlight(s) == 1 ==>
      && s.buf[s.cnt] == s.completed[|s.delivered|]
      && s.slots[s.cnt] == Slot(|s.buf[s.cnt]|, s.cnt, 1, false, s.cnt)
  }

  /**
   * Who has descriptor i, and what that party may rely on: the ring (filled, not fetched), the receive
   * thread, the stack, or else the DMA engine.
   */
  ghost predicate Entry(s: State, i: nat)
    requires Shaped(s) && i < |s.own|
  {
    && (s.slots[i].free <==> i in s.held)
    && (i in s.held ==>
          !s.own[i] && s.slots[i] == Slot(|s.held[i]|, i, 1, true, i) && s.buf[i] == s.held[i])
    && (if IsWaiting(s, i) then
          && !s.own[i] && i !in s.held
          && 0 < |s.buf[i]| <= RX_BUFF_SIZE - CRC_BYTES && s.fl[i] == |s.buf[i]| + CRC_BYTES
          && s.buf[i] == s.completed[|s.completed| - Waiting(s) + Dist(i, s.cur, |s.own|)]
        else if InFlight(s) == 1 && i == s.cnt then
          !s.own[i] && i !in s.held
        else
          s.own[i] <==> i !in s.held)
  }

  /** The pool has one element in use per buffer the stack holds. */
  ghost predicate PoolOk(s: State)
    requires Shaped(s)
  {
    s.pool == |s.held.Keys| && forall i :: i in s.held.Keys ==> i < |s.own|
  }

  ghost predicate Inv(s: State) {
    && Shaped(s) && !s.fault
    && Positions(s) && InHandOk(s) && PoolOk(s)
    && s.delivered <= s.completed
    && forall i :: 0 <= i < |s.own| ==> Entry(s, i)
  }

  lemma InitInv(n: nat)
    requires 0 < n
    ensures Inv(Init(n))
  {
    forall i | 0 <= i < n
      ensures Entry(Init(n), i)
    {
    }
  }

  lemma FillCounts(s: State, p: Packet)
    requires Inv(s) && Enabled(s, Fill(p))
    ensures Shaped(FillStep(s, p)) && InFlight(FillStep(s, p)) == InFlight(s)
    ensures Waiting(FillStep(s, p)) == Waiting(s) + 1
    ensures Waiting(s) < |s.own| - InFlight(s) && s.dma !in s.held
  {
    assert Entry(s, s.dma);
  }

  lemma FillEntry(s: State, p: Packet, i: nat)
    requires Inv(s) && Enabled(s, Fill(p)) && i < |s.own|
    ensures Shaped(FillStep(s, p)) && Entry(FillStep(s, p), i)
  {
    FillCounts(s, p);
    assert Entry(s, i);
  }

  lemma FillInv(s: State, p: Packet)
    requires Inv(s) && Enabled(s, Fill(p))
    ensures Inv(FillStep(s, p))
  {
    FillCounts(s, p);
    assert Entry(s, s.dma);
    forall i | 0 <= i < |s.own|
      ensures Entry(FillStep(s, p), i)
    {
      FillEntry(s, p, i);
    }
  }

  lemma GuardInv(s: State)
    requires Inv(s) && Enabled(s, Guard)
    ensures Inv(GuardStep(s))
    ensures Waiting(GuardStep(s)) == Waiting(s)
  {
    var s' := GuardStep(s);
    assert Entry(s, s.cnt);
    forall i | 0 <= i < |s.own|
      ensures Entry(s', i)
    {
      assert Entry(s, i);
    }
  }

  lemma FetchCounts(s: State)
    requires Inv(s) && Enabled(s, Fetch)
    ensures Shaped(FetchStep(s)) && InFlight(s) == 0
    ensures InFlight(FetchStep(s)) == if 0 < Waiting(s) then 1 else 0
    ensures Waiting(FetchStep(s)) == Waiting(s) - InFlight(FetchStep(s))
    ensures s.own[s.cur] <==> Waiting(s) == 0
  {
    assert Entry(s, s.cur);
    assert IsWaiting(s, s.cur) <==> 0 < Waiting(s);
  }

  lemma FetchEntry(s: State, i: nat)
    requires Inv(s) && Enabled(s, Fetch) && i < |s.own|
    ensures Shaped(FetchStep(s)) && Entry(FetchStep(s), i)
  {
    FetchCounts(s);
    assert Entry(s, i);
  }

  lemma FetchInv(s: State)
    requires Inv(s) && Enabled(s, Fetch)
    ensures Inv(FetchStep(s))
    ensures InFlight(FetchStep(s)) == if 0 < Waiting(s) then 1 else 0
  {
    FetchCounts(s);
    assert Entry(s, s.cur);
    forall i | 0 <= i < |s.own|
      ensures Entry(FetchStep(s), i)
    {
      FetchEntry(s, i);
    }
  }

  lemma PublishCounts(s: State)
    requires Inv(s) && Enabled(s, Publish)
    ensures Shaped(PublishStep(s)) && InFlight(PublishStep(s)) == 0 && Waiting(PublishStep(s)) == Waiting(s)
    ensures InFlight(s) == 1 ==>
              s.pool < |s.own| && PublishStep(s).held.Keys == s.held.Keys + {s.cnt} && s.cnt !in s.held
    ensures InFlight(s) == 1 ==> PublishStep(s).cnt == Next(s.cnt, |s.own|)
  {
    assert Entry(s, s.cnt);
    if InFlight(s) == 1 {
      HeldFits(s.held.Keys, |s.own|, s.cnt);
      ModIsNext(s.cnt, |s.own|);
      assert PublishStep(s).held.Keys == s.held.Keys + {s.cnt};
    }
  }

  lemma PublishEntry(s: State, i: nat)
    requires Inv(s) && Enabled(s, Publish) && i < |s.own|
    ensures Shaped(PublishStep(s)) && Entry(PublishStep(s), i)
  {
    PublishCounts(s);
    assert Entry(s, i);
  }

  lemma PublishInv(s: State)
    requires Inv(s) && Enabled(s, Publish)
    ensures Inv(PublishStep(s))
    ensures Waiting(PublishStep(s)) == Waiting(s)
  {
    PublishCounts(s);
    assert Entry(s, s.cnt);
    forall i | 0 <= i < |s.own|
      ensures Entry(PublishStep(s), i)
    {
      PublishEntry(s, i);
    }
  }

  /** A set of ring positions that misses one of them is smaller than the ring. */
  lemma HeldFits(keys: set<nat>, n: nat, x: nat)
    requires x < n && x !in keys
    requires forall i :: i in keys ==> i < n
    ensures |keys| < n
  {
    AtMost(keys + {x}, n);
  }

  lemma {:induction false} AtMost(keys: set<nat>, n: nat)
    requires forall i :: i in keys ==> i < n
    ensures |keys| <= n
  {
    if n > 0 {
      AtMost(keys - {n - 1}, n - 1);
    } else {
      assert keys == {};
    }
  }

  /** A free hands back exactly the `seg` descriptors from `start` on, whatever the number of segments. */
  lemma {:induction false} ReleaseExact(own: seq<bool>, start: nat, seg: nat)
    requires start < |own| && seg <= |own|
    ensures forall j :: 0 <= j < |own| ==>
              Release(own, start, seg)[j] == (own[j] || Dist(j, start, |own|) < seg)
    decreases seg
  {
    if seg > 0 {
      var n, next := |own|, Next(start, |own|);
      ReleaseExact(own[start := true], next, seg - 1);
      forall j | 0 <= j < n
        ensures Dist(j, start, n) < seg <==> j == start || Dist(j, next, n) < seg - 1
      {
      }
    }
  }

  /** Freeing a held buffer returns its own descriptor to the DMA engine and no other, and clears its own slot only. */
  lemma FreeReturnsOne(s: State, i: nat)
    requires Inv(s) && Enabled(s, Free(i))
    ensures FreeStep(s, i).own == s.own[i := true]
    ensures FreeStep(s, i).slots[i].seg == 0 && !FreeStep(s, i).slots[i].free
    ensures forall j :: 0 <= j < |s.slots| && j != i ==> FreeStep(s, i).slots[j] == s.slots[j]
  {
    assert Entry(s, i);
    ReleaseExact(s.own, i, 1);
    assert Release(s.own, i, 1) == s.own[i := true];
  }

  lemma FreeCounts(s: State, i: nat)
    requires Inv(s) && Enabled(s, Free(i))
    ensures Shaped(FreeStep(s, i)) && FreeStep(s, i).own == s.own[i := true]
    ensures InFlight(FreeStep(s, i)) == InFlight(s) && Waiting(FreeStep(s, i)) == Waiting(s)
    ensures FreeStep(s, i).held.Keys == s.held.Keys - {i}
    ensures InFlight(s) == 1 ==> i != s.cnt
  {
    FreeReturnsOne(s, i);
    assert Entry(s, i) && Entry(s, s.cnt);
    assert FreeStep(s, i).held.Keys == s.held.Keys - {i};
  }

  lemma FreeEntry(s: State, i: nat, j: nat)
    requires Inv(s) && Enabled(s, Free(i)) && j < |s.own|
    ensures Shaped(FreeStep(s, i)) && Entry(FreeStep(s, i), j)
  {
    FreeCounts(s, i);
    assert Entry(s, i) && Entry(s, j);
  }

  lemma FreeInv(s: State, i: nat)
    requires Inv(s) && Enabled(s, Free(i))
    ensures Inv(FreeStep(s, i))
  {
    FreeCounts(s, i);
    forall j | 0 <= j < |s.own|
      ensures Entry(FreeStep(s, i), j)
    {
      FreeEntry(s, i, j);
    }
  }

  lemma StepInv(s: State, e: Event)
    requires Inv(s) && Enabled(s, e)
    ensures Inv(Apply(s, e))
  {
    match e
    case Fill(p) => FillInv(s, p);
    case Guard => GuardInv(s);
    case Fetch => FetchInv(s);
    case Publish => PublishInv(s);
    case Free(i) => FreeInv(s, i);
  }

  // ---------------------------------------------------------------- every run

  ghost predicate Feasible(s: State, es: seq<Event>)
    decreases |es|
  {
    es == [] || (Enabled(s, es[0]) && Feasible(Apply(s, es[0]), es[1..]))
  }

  ghost function Run(s: State, es: seq<Event>): State
    requires Feasible(s, es)
    decreases |es|
  {
    if es == [] then s else Run(Apply(s, es[0]), es[1..])
  }

  lemma {:induction false} RunInv(s: State, es: seq<Event>)
    requires Inv(s) && Feasible(s, es)
    ensures Inv(Run(s, es))
    decreases |es|
  {
    if es != [] {
      StepInv(s, es[0]);
      RunInv(Apply(s, es[0]), es[1..]);
    }
  }

  /** The frames waiting in the ring, oldest first. */
  function RingContents(s: State): seq<Packet>
    requires Shaped(s) && 0 <= Waiting(s) <= |s.own|
  {
    seq(Waiting(s), k requires 0 <= k < Waiting(s) => s.buf[Wrap(s.cur, k, |s.own|)])
  }

  /** The frame the receive thread has taken off the ring but not yet passed on, if any. */
  function InHand(s: State): seq<Packet>
    requires Shaped(s)
  {
    if InFlight(s) == 1 then [s.buf[s.cnt]] else []
  }

  lemma NothingLost(s: State)
    requires Inv(s)
    ensures s.delivered + InHand(s) + RingContents(s) == s.completed
  {
    var n, waiting := |s.own|, Waiting(s);
    var taken := |s.completed| - waiting;
    forall k | 0 <= k < waiting
      ensures RingContents(s)[k] == s.completed[taken + k]
    {
      var i := Wrap(s.cur, k, n);
      assert Entry(s, i) && Dist(i, s.cur, n) == k;
    }
    assert RingContents(s) == s.completed[taken..];
    assert s.delivered + InHand(s) == s.completed[..taken];
  }

  /**
   * Over every run, in any interleaving of DMA fills, receive calls and frees: nothing is lost, nothing
   * is duplicated and nothing overtakes. What has been delivered, then what the receive thread has in
   * hand, then what waits in the ring, is exactly what the DMA engine completed, in that order.
   */
  lemma DeliveredOnceInOrder(n: nat, es: seq<Event>)
    requires 0 < n && Feasible(Init(n), es)
    ensures var s := Run(Init(n), es);
            && Shaped(s) && 0 <= Waiting(s) <= |s.own|
            && s.delivered + InHand(s) + RingContents(s) == s.completed
  {
    InitInv(n);
    RunInv(Init(n), es);
    NothingLost(Run(Init(n), es));
  }

  /**
   * While the stack holds a slot, no step other than its own free touches that slot's bytes, gives its
   * descriptor to the DMA engine, or delivers it a second time.
   */
  lemma HeldIsUntouched(s: State, e: Event, i: nat)
    requires Inv(s) && Enabled(s, e) && i in s.held && e != Free(i)
    ensures i < |s.own| && i in Apply(s, e).held && Apply(s, e).held[i] == s.held[i]
    ensures Apply(s, e).buf[i] == s.held[i] && !Apply(s, e).own[i]
    ensures e.Fill? ==> s.dma != i
    ensures e.Publish? && Apply(s, e).delivered != s.delivered ==> s.cnt != i
  {
    StepInv(s, e);
    assert Entry(s, i) && Entry(Apply(s, e), i);
  }

  /** Over every run: the pool never runs out, and it holds one element per slot marked as held. */
  lemma PoolMatchesSlots(n: nat, es: seq<Event>)
    requires 0 < n && Feasible(Init(n), es)
    ensures var s := Run(Init(n), es);
            && !s.fault
            && s.pool == |set i: nat | i < |s.slots| && s.slots[i].free|
  {
    InitInv(n);
    RunInv(Init(n), es);
    var s := Run(Init(n), es);
    forall i: nat
      ensures i in s.held.Keys <==> i < |s.slots| && s.slots[i].free
    {
      if i < |s.slots| {
        assert Entry(s, i);
      }
    }
    assert (set i: nat | i < |s.slots| && s.slots[i].free) == s.held.Keys;
  }

  /**
   * The guard on `frame[cnt].free` is exactly the missing test. It stops the call only when nothing is
   * waiting, and once it has passed, a 0 in `own` means a fresh frame.
   */
  lemma GuardSeparatesFreshFromHeld(s: State)
    requires Inv(s) && s.phase == Idle
    ensures s.slots[s.cnt].free ==> Waiting(s) == 0
    ensures !s.slots[s.cnt].free ==> (!s.own[s.cur] <==> 0 < Waiting(s))
  {
    assert InFlight(s) == 0;
    assert Entry(s, s.cur);
    assert IsWaiting(s, s.cur) <==> 0 < Waiting(s);
  }

  lemma {:induction false} RunConcat(s: State, a: seq<Event>, b: seq<Event>)
    requires Feasible(s, a) && Feasible(Run(s, a), b)
    ensures Feasible(s, a + b) && Run(s, a + b) == Run(Run(s, a), b)
    decreases |a|
  {
    if a == [] {
      assert a + b == b;
    } else {
      assert (a + b)[1..] == a[1..] + b;
      RunConcat(Apply(s, a[0]), a[1..], b);
    }
  }

  predicate IsReceive(e: Event) {
    e.Guard? || e.Fetch? || e.Publish?
  }

  /** One receive call with nobody else moving takes the oldest waiting frame, if there is one. */
  lemma OneCall(s: State) returns (t: State, es: seq<Event>)
    requires Inv(s) && s.phase == Idle
    ensures Feasible(s, es) && t == Run(s, es) && forall e :: e in es ==> IsReceive(e)
    ensures Inv(t) && t.phase == Idle && t.completed == s.completed
    ensures Waiting(t) == if 0 < Waiting(s) then Waiting(s) - 1 else 0
  {
    GuardSeparatesFreshFromHeld(s);
    GuardInv(s);
    var g := GuardStep(s);
    if g.phase == Idle {
      t, es := g, [Guard];
      assert Feasible(g, []);
    } else {
      FetchInv(g);
      var f := FetchStep(g);
      PublishInv(f);
      t, es := PublishStep(f), [Guard] + ([Fetch] + [Publish]);
      assert Feasible(t, []) && Feasible(f, [Publish]) && Run(f, [Publish]) == t;
      RunConcat(g, [Fetch], [Publish]);
      RunConcat(s, [Guard], [Fetch] + [Publish]);
    }
  }

  lemma EmptyRing(s: State)
    requires Inv(s) && s.phase == Idle && Waiting(s) == 0
    ensures s.delivered == s.completed
  {
  }

  /** From any reachable state, receive calls alone empty the ring: everything completed gets delivered. */
  lemma {:induction false} CallsDrainTheRing(s: State) returns (t: State, es: seq<Event>)
    requires Inv(s) && s.phase == Idle
    ensures Feasible(s, es) && t == Run(s, es) && forall e :: e in es ==> IsReceive(e)
    ensures t.delivered == t.completed == s.completed
    decreases Waiting(s)
  {
    if Waiting(s) == 0 {
      EmptyRing(s);
      t, es := s, [];
    } else {
      var u, first := OneCall(s);
      var rest;
      t, rest := CallsDrainTheRing(u);
      es := first + rest;
      RunConcat(s, first, rest);
    }
  }

  /** A frame comes in and one undisturbed receive call passes it on, with nothing else waiting. */
  lemma OneRound(s: State, p: Packet) returns (t: State, es: seq<Event>)
    requires Inv(s) && s.phase == Idle && Waiting(s) == 0 && s.cnt !in s.held
    requires 0 < |p| <= RX_BUFF_SIZE - CRC_BYTES
    ensures Feasible(s, es) && t == Run(s, es)
    ensures Inv(t) && t.phase == Idle && Waiting(t) == 0 && |t.own| == |s.own|
    ensures t.held.Keys == s.held.Keys + {s.cnt} && t.cnt == Next(s.cnt, |s.own|)
  {
    assert Entry(s, s.cnt) && s.dma == s.cnt;
    var a := FillStep(s, p);
    FillInv(s, p);
    assert Entry(a, a.cnt) && Waiting(a) == 1;
    var g := GuardStep(a);
    GuardInv(a);
    var f := FetchStep(g);
    FetchInv(g);
    t, es := PublishStep(f), [Fill(p)] + ([Guard] + ([Fetch] + [Publish]));
    PublishInv(f);
    PublishCounts(f);
    assert Feasible(t, []) && Feasible(f, [Publish]) && Run(f, [Publish]) == t;
    RunConcat(g, [Fetch], [Publish]);
    RunConcat(a, [Guard], [Fetch] + [Publish]);
    RunConcat(s, [Fill(p)], [Guard] + ([Fetch] + [Publish]));
  }

  function First(k: nat): (r: set<nat>)
    ensures forall i: nat :: i in r <==> i < k
  {
    if k == 0 then {} else First(k - 1) + {k - 1}
  }

  /** So the stack can come to hold the first k buffers. */
  lemma HoldOneMore(r: State, k: nat, p: Packet) returns (t: State, es: seq<Event>)
    requires Holding(r, k) && k < |r.own| && 0 < |p| <= RX_BUFF_SIZE - CRC_BYTES
    ensures Feasible(r, es) && t == Run(r, es) && Holding(t, k + 1) && |t.own| == |r.own|
  {
    t, es := OneRound(r, p);
  }

  /** Nothing is under way, and the stack holds the first k buffers. */
  ghost predicate Holding(s: State, k: nat) {
    && Inv(s) && s.phase == Idle && Waiting(s) == 0
    && s.held.Keys == First(k) && s.cnt == if k < |s.own| then k else 0
  }

  lemma {:induction false} HoldFirst(s: State, k: nat, p: Packet) returns (t: State, es: seq<Event>)
    requires Holding(s, 0) && k <= |s.own| && 0 < |p| <= RX_BUFF_SIZE - CRC_BYTES
    ensures Feasible(s, es) && t == Run(s, es) && Holding(t, k) && |t.own| == |s.own|
    decreases k
  {
    if k == 0 {
      t, es := s, [];
    } else {
      var r, before := HoldFirst(s, k - 1, p);
      var round;
      t, round := HoldOneMore(r, k - 1, p);
      es := before + round;
      RunConcat(s, before, round);
    }
  }

  lemma InitHoldsNothing(n: nat)
    requires 0 < n
    ensures Holding(Init(n), 0) && |Init(n).own| == n
  {
    InitInv(n);
  }

  /**
   * The assertion in front of the guard can fire: on a ring of any size there is a run after which the
   * stack holds every buffer, and the slot of the next call with them.
   */
  lemma AssertionCanFire(n: nat, p: Packet) returns (es: seq<Event>)
    requires 0 < n && 0 < |p| <= RX_BUFF_SIZE - CRC_BYTES
    ensures Feasible(Init(n), es)
    ensures var s := Run(Init(n), es);
            Shaped(s) && s.phase == Idle && s.slots[s.cnt].free && s.held.Keys == First(n)
  {
    InitHoldsNothing(n);
    var s;
    s, es := HoldFirst(Init(n), n, p);
    assert Entry(s, 0);
  }

  // ---------------------------------------------------------------- when the assertion fires

  function Without(u: set<nat>, slot: nat, n: nat): set<nat>
    requires 0 < n
  {
    set k | k in u && k % n != slot
  }

  /**
   * Deliveries the stack has not given back, by their number: a delivery adds its own, a free takes away
   * the deliveries made from that slot.
   */
  function Unfreed(s: State, e: Event, u: set<nat>): set<nat>
    requires Enabled(s, e)
  {
    match e
    case Publish => if Apply(s, e).delivered != s.delivered then u + {|s.delivered|} else u
    case Free(i) => Without(u, i, |s.own|)
    case _ => u
  }

  ghost function UnfreedAfter(s: State, es: seq<Event>, u: set<nat>): set<nat>
    requires Feasible(s, es)
    decreases |es|
  {
    if es == [] then u else UnfreedAfter(Apply(s, es[0]), es[1..], Unfreed(s, es[0], u))
  }

  /** Delivery k was made from slot k modulo n, and is outstanding exactly while that slot is held. */
  ghost predicate Numbered(keys: set<nat>, cnt: nat, d: nat, n: nat, u: set<nat>) {
    && 0 < n && cnt == d % n
    && (forall i :: i in keys ==> i < n && i < d)
    && Outstanding(keys, d, n, u)
  }

  ghost predicate Outstanding(keys: set<nat>, d: nat, n: nat, u: set<nat>)
    requires 0 < n
  {
    forall k :: k in u <==> Recent(keys, d, n, k)
  }

  /** One of the last n of d deliveries, made from a slot that is held. */
  predicate Recent(keys: set<nat>, d: nat, n: nat, k: nat)
    requires 0 < n
  {
    d - n <= k < d && k % n in keys
  }

  ghost predicate Tracks(s: State, u: set<nat>)
    requires Shaped(s)
  {
    Numbered(s.held.Keys, s.cnt, |s.delivered|, |s.own|, u)
  }

  lemma Numbers(keys: set<nat>, cnt: nat, d: nat, n: nat, u: set<nat>)
    requires Numbered(keys, cnt, d, n, u) && cnt < n && cnt !in keys
    ensures Numbered(keys + {cnt}, Next(cnt, n), d + 1, n, u + {d})
  {
    CntFollows(d, n);
    CntIsBelow(d, n);
    OneMoreOut(keys, cnt, d, n, u);
  }

  lemma OneMoreOut(keys: set<nat>, cnt: nat, d: nat, n: nat, u: set<nat>)
    requires 0 < n && cnt == d % n && cnt !in keys && Outstanding(keys, d, n, u)
    ensures Outstanding(keys + {cnt}, d + 1, n, u + {d})
  {
    forall k: nat
      ensures k in u + {d} <==> Recent(keys + {cnt}, d + 1, n, k)
    {
      RecentOneMore(keys, d, n, k);
    }
  }

  lemma RecentOneMore(keys: set<nat>, d: nat, n: nat, k: nat)
    requires 0 < n && d % n !in keys
    ensures Recent(keys + {d % n}, d + 1, n, k) <==> k == d || Recent(keys, d, n, k)
  {
    if k == d - n {
      ModFull(k, n);
    } else if d - n < k < d {
      ModApart(k, d, n);
    }
  }

  lemma CntIsBelow(d: nat, n: nat)
    requires 0 < n
    ensures d % n <= d
  {
    if d < n {
      ModAdd(0, d, n);
    }
  }

  /** The slot of the next delivery is held exactly when delivery d - n is outstanding. */
  lemma NextIsHeld(keys: set<nat>, cnt: nat, d: nat, n: nat, u: set<nat>)
    requires Numbered(keys, cnt, d, n, u)
    ensures cnt in keys <==> n <= d && d - n in u
  {
    if n <= d {
      ModFull(d - n, n);
      assert d - n in u <==> Recent(keys, d, n, d - n);
    } else {
      ModAdd(0, d, n);
    }
  }

  /** Publishing delivers the frame in hand, from slot cnt, or changes nothing that is counted here. */
  lemma PublishDelivers(s: State)
    requires Inv(s) && Enabled(s, Publish)
    ensures var t := PublishStep(s);
            && Shaped(t) && |t.own| == |s.own|
            && if InFlight(s) == 1 then
                 && s.cnt !in s.held.Keys && t.held.Keys == s.held.Keys + {s.cnt} && t.cnt == Next(s.cnt, |s.own|)
                 && |t.delivered| == |s.delivered| + 1
               else
                 t.held == s.held && t.cnt == s.cnt && t.delivered == s.delivered
  {
    PublishCounts(s);
  }

  lemma PublishTracks(s: State, u: set<nat>)
    requires Inv(s) && Tracks(s, u) && Enabled(s, Publish)
    ensures Shaped(PublishStep(s)) && Tracks(PublishStep(s), Unfreed(s, Publish, u))
  {
    PublishDelivers(s);
    if InFlight(s) == 1 {
      assert Unfreed(s, Publish, u) == u + {|s.delivered|};
      Numbers(s.held.Keys, s.cnt, |s.delivered|, |s.own|, u);
    } else {
      assert Unfreed(s, Publish, u) == u;
    }
  }

  lemma CntFollows(d: nat, n: nat)
    requires 0 < n
    ensures (d + 1) % n == (d % n + 1) % n == Next(d % n, n)
  {
    ModIsNext(d % n, n);
    if d % n + 1 < n {
      ModAdd(d, 1, n);
    } else {
      ModWrap(d, 1, n);
    }
  }

  lemma StepTracks(s: State, e: Event, u: set<nat>)
    requires Inv(s) && Tracks(s, u) && Enabled(s, e)
    ensures Shaped(Apply(s, e)) && Tracks(Apply(s, e), Unfreed(s, e, u))
  {
    if e.Publish? {
      PublishTracks(s, u);
    }
  }

  lemma {:induction false} RunTracks(s: State, es: seq<Event>, u: set<nat>)
    requires Inv(s) && Tracks(s, u) && Feasible(s, es)
    ensures Inv(Run(s, es)) && Tracks(Run(s, es), UnfreedAfter(s, es, u))
    decreases |es|
  {
    if es != [] {
      StepInv(s, es[0]);
      StepTracks(s, es[0], u);
      RunTracks(Apply(s, es[0]), es[1..], Unfreed(s, es[0], u));
    }
  }

  lemma FiresIff(s: State, u: set<nat>)
    requires Inv(s) && Tracks(s, u) && s.phase == Idle
    ensures s.slots[s.cnt].free <==> s.cnt in s.held
    ensures s.slots[s.cnt].free <==> |s.own| <= |s.delivered| && |s.delivered| - |s.own| in u
  {
    assert Entry(s, s.cnt);
    NextIsHeld(s.held.Keys, s.cnt, |s.delivered|, |s.own|, u);
  }

  lemma {:induction false} RunSize(s: State, es: seq<Event>)
    requires Inv(s) && Feasible(s, es)
    ensures |Run(s, es).own| == |s.own|
    decreases |es|
  {
    if es != [] {
      StepInv(s, es[0]);
      RunSize(Apply(s, es[0]), es[1..]);
    }
  }

  lemma ReachedTracks(n: nat, es: seq<Event>)
    requires 0 < n && Feasible(Init(n), es)
    ensures Inv(Run(Init(n), es)) && |Run(Init(n), es).own| == n
    ensures Tracks(Run(Init(n), es), UnfreedAfter(Init(n), es, {}))
  {
    InitInv(n);
    InitTracks(n);
    RunTracks(Init(n), es, {});
    RunSize(Init(n), es);
  }

  lemma InitTracks(n: nat)
    requires 0 < n
    ensures Shaped(Init(n)) && Tracks(Init(n), {})
  {
  }

  /**
   * Over every run: the assertion in front of the guard fires at the next call exactly when the frame
   * delivered n deliveries ago, on a ring of n, has not been given back.
   */
  lemma AssertionFiresIff(n: nat, es: seq<Event>)
    requires 0 < n && Feasible(Init(n), es) && Run(Init(n), es).phase == Idle
    ensures var s := Run(Init(n), es);
            && Shaped(s)
            && (s.slots[s.cnt].free <==> s.cnt in s.held)
            && (s.slots[s.cnt].free <==> n <= |s.delivered| && |s.delivered| - n in UnfreedAfter(Init(n), es, {}))
  {
    ReachedTracks(n, es);
    FiresIff(Run(Init(n), es), UnfreedAfter(Init(n), es, {}));
  }

  /** The outstanding delivery that was made from a held slot. */
  lemma HolderOf(keys: set<nat>, cnt: nat, d: nat, n: nat, u: set<nat>, i: nat) returns (k: nat)
    requires Numbered(keys, cnt, d, n, u) && i in keys
    ensures k in u && k % n == i && Recent(keys, d, n, k)
  {
    if n <= d {
      k := ModHits(d - n, i, n);
    } else {
      k := i;
      ModAdd(0, i, n);
    }
    assert Recent(keys, d, n, k);
  }

  /** The stack gives frames back in the order it got them. */
  ghost predicate InOrder(s: State, es: seq<Event>, u: set<nat>)
    requires Feasible(s, es)
    decreases |es|
  {
    es != [] ==>
      && (es[0].Free? ==> OldestFirst(u, es[0].slot, |s.own|))
      && InOrder(Apply(s, es[0]), es[1..], Unfreed(s, es[0], u))
  }

  predicate OldestFirst(u: set<nat>, slot: nat, n: nat)
    requires 0 < n
  {
    forall k, j :: k in u && j in u && k % n == slot ==> k <= j
  }

  /** The outstanding deliveries are those from lo on. */
  ghost predicate Latest(u: set<nat>, lo: nat, d: nat) {
    lo <= d && forall k :: k in u <==> lo <= k < d
  }

  lemma FreeOldest(keys: set<nat>, cnt: nat, d: nat, n: nat, u: set<nat>, i: nat, lo: nat)
    requires Numbered(keys, cnt, d, n, u) && i in keys && Latest(u, lo, d) && OldestFirst(u, i, n)
    ensures lo < d && Latest(Without(u, i, n), lo + 1, d)
  {
    var k0 := HolderOf(keys, cnt, d, n, u, i);
    assert lo in u && k0 == lo && Recent(keys, d, n, lo);
    forall k | lo < k < d
      ensures k % n != i
    {
      ModApart(lo, k, n);
    }
  }

  lemma PublishLatest(s: State, u: set<nat>, lo: nat)
    requires Inv(s) && Enabled(s, Publish) && Latest(u, lo, |s.delivered|)
    ensures Latest(Unfreed(s, Publish, u), lo, |PublishStep(s).delivered|)
  {
    PublishDelivers(s);
  }

  /** One event of a stack that gives frames back in order. */
  lemma StepLatest(s: State, e: Event, u: set<nat>, lo: nat) returns (lo': nat)
    requires Inv(s) && Tracks(s, u) && Enabled(s, e) && Latest(u, lo, |s.delivered|)
    requires e.Free? ==> OldestFirst(u, e.slot, |s.own|)
    ensures Latest(Unfreed(s, e, u), lo', |Apply(s, e).delivered|)
  {
    lo' := lo;
    if e.Free? {
      FreeOldest(s.held.Keys, s.cnt, |s.delivered|, |s.own|, u, e.slot, lo);
      lo' := lo + 1;
    } else if e.Publish? {
      PublishLatest(s, u, lo);
    }
  }

  lemma {:induction false} InOrderRun(s: State, es: seq<Event>, u: set<nat>, lo: nat) returns (lo': nat)
    requires Inv(s) && Tracks(s, u) && Feasible(s, es) && InOrder(s, es, u) && Latest(u, lo, |s.delivered|)
    ensures Latest(UnfreedAfter(s, es, u), lo', |Run(s, es).delivered|)
    decreases |es|
  {
    lo' := lo;
    if es != [] {
      StepInv(s, es[0]);
      StepTracks(s, es[0], u);
      lo' := StepLatest(s, es[0], u, lo);
      lo' := InOrderRun(Apply(s, es[0]), es[1..], Unfreed(s, es[0], u), lo');
    }
  }

  /** While the stack gives frames back in order, the assertion fires exactly when it holds every buffer. */
  lemma InOrderFiresIffAllHeld(n: nat, es: seq<Event>)
    requires 0 < n && Feasible(Init(n), es) && Run(Init(n), es).phase == Idle && InOrder(Init(n), es, {})
    ensures var s := Run(Init(n), es);
            Shaped(s) && (s.slots[s.cnt].free <==> forall i :: 0 <= i < n ==> i in s.held)
  {
    AssertionFiresIff(n, es);
    ReachedTracks(n, es);
    InitInv(n);
    InitTracks(n);
    var lo := InOrderRun(Init(n), es, {}, 0);
    var s := Run(Init(n), es);
    if s.slots[s.cnt].free {
      forall i | 0 <= i < n
        ensures i in s.held
      {
        AllAreHeld(s.held.Keys, s.cnt, |s.delivered|, n, UnfreedAfter(Init(n), es, {}), lo, i);
      }
    }
  }

  lemma AllAreHeld(keys: set<nat>, cnt: nat, d: nat, n: nat, u: set<nat>, lo: nat, i: nat)
    requires Numbered(keys, cnt, d, n, u) && Latest(u, lo, d) && n <= d && d - n in u && i < n
    ensures i in keys
  {
    var k := ModHits(d - n, i, n);
    assert k in u && Recent(keys, d, n, k);
  }

  /** Given back out of order, one buffer that is kept is enough: the rest of a full ring may be free. */
  lemma OneHeldIsEnough(n: nat, p: Packet) returns (es: seq<Event>)
    requires 0 < n && 0 < |p| <= RX_BUFF_SIZE - CRC_BYTES
    ensures Feasible(Init(n), es)
    ensures var s := Run(Init(n), es);
            Shaped(s) && s.phase == Idle && s.slots[s.cnt].free && s.held.Keys == {0}
  {
    InitHoldsNothing(n);
    var s, full := HoldFirst(Init(n), n, p);
    var t, rest := FreeAllButFirst(s, n);
    es := full + rest;
    RunConcat(Init(n), full, rest);
    assert Entry(t, 0) && First(1) == {0};
  }

  lemma FreeLast(s: State, k: nat)
    requires Inv(s) && s.phase == Idle && 2 <= k <= |s.own| && s.held.Keys == First(k)
    ensures Enabled(s, Free(k - 1)) && Inv(FreeStep(s, k - 1)) && FreeStep(s, k - 1).phase == Idle
    ensures FreeStep(s, k - 1).cnt == s.cnt && |FreeStep(s, k - 1).own| == |s.own|
    ensures FreeStep(s, k - 1).held.Keys == First(k - 1)
  {
    assert First(k) == First(k - 1) + {k - 1} && k - 1 in s.held.Keys;
    FreeInv(s, k - 1);
    assert FreeStep(s, k - 1).held.Keys == s.held.Keys - {k - 1};
  }

  lemma {:induction false} FreeAllButFirst(s: State, k: nat) returns (t: State, es: seq<Event>)
    requires Inv(s) && s.phase == Idle && s.cnt == 0 && 1 <= k <= |s.own| && s.held.Keys == First(k)
    ensures Feasible(s, es) && t == Run(s, es)
    ensures Inv(t) && t.phase == Idle && t.cnt == 0 && t.held.Keys == First(1)
    decreases k
  {
    if k == 1 {
      t, es := s, [];
    } else {
      FreeLast(s, k);
      var rest;
      t, rest := FreeAllButFirst(FreeStep(s, k - 1), k - 1);
      es := [Free(k - 1)] + rest;
      StartWith(s, Free(k - 1), rest);
    }
  }

  lemma StartWith(s: State, e: Event, es: seq<Event>)
    requires Enabled(s, e) && Feasible(Apply(s, e), es)
    ensures Feasible(s, [e] + es) && Run(s, [e] + es) == Run(Apply(s, e), es)
  {
    assert ([e] + es)[1..] == es;
  }

  // ---------------------------------------------------------------- the driver

  /** The whole receive call when nobody else moves. */
  ghost function ReceiveCall(s: State): State
    requires Enabled(s, Guard)
  {
    var g := GuardStep(s);
    if g.phase == Idle then g else PublishStep(FetchStep(g))
  }

  class EnetDevice {
    const own: array<bool>
    const fl: array<nat>
    const buf: array<Packet>
    const frame: array<Slot>
    var cnt: nat
    var cur: nat
    var segCount: nat
    var pool: nat
    var fault: bool
    ghost var phase: Phase
    ghost var dma: nat
    ghost var held: map<nat, Packet>
    ghost var completed: seq<Packet>
    ghost var delivered: seq<Packet>

    ghost function St(): State
      reads this, own, fl, buf, frame
    {
      State(own[..], fl[..], buf[..], frame[..], cnt, cur, segCount, pool, fault, phase, dma, held,
            completed, delivered)
    }

    ghost predicate Valid()
      reads this, own, fl, buf, frame
    {
      Shaped(St()) && forall i :: 0 <= i < frame.Length ==> frame[i].rxDesc < own.Length
    }

    constructor (n: nat)
      requires 0 < n
      ensures Valid() && St() == Init(n)
      ensures fresh(own) && fresh(fl) && fresh(buf) && fresh(frame)
    {
      own := new bool[n](_ => true);
      fl := new nat[n](_ => 0);
      buf := new Packet[n](_ => []);
      frame := new Slot[n](_ => EMPTY_SLOT);
      cnt, cur, segCount, pool, fault := 0, 0, 0, 0, false;
      phase, dma, held, completed, delivered := Idle, 0, map[], [], [];
    }

    method TestGuard() returns (pass: bool)
      requires Valid() && phase == Idle
      modifies this`phase
      ensures Valid() && St() == GuardStep(old(St()))
      ensures pass <==> phase == Guarded
    {
      pass := !frame[cnt].free;
      if pass {
        phase := Guarded;
      }
    }

    method GetReceivedFrame() returns (slot: Slot)
      requires Valid()
      modifies this`cur, this`segCount
      ensures Valid() && slot.rxDesc < own.Length
      ensures phase == Guarded ==>
                FetchStep(old(St())) == St().(slots := St().slots[cnt := slot], phase := Fetched)
    {
      slot := EMPTY_SLOT;
      if !own[cur] {
        segCount := segCount + 1;
        slot := Slot(FrameLength(fl[cur]), cur, segCount, false, cur);
        cur := if cur + 1 == own.Length then 0 else cur + 1;
      }
    }

    method FetchFrame()
      requires Valid() && phase == Guarded
      modifies this`cur, this`segCount, this`phase, frame
      ensures Valid() && St() == FetchStep(old(St()))
    {
      var slot := GetReceivedFrame();
      frame[cnt] := slot;
      phase := Fetched;
    }

    /** The pool hands out NULL once every element is in use. */
    method PoolAlloc() returns (ok: bool)
      modifies this`pool
      ensures ok <==> old(pool) != own.Length
      ensures pool == if ok then old(pool) + 1 else old(pool)
    {
      ok := pool != own.Length;
      if ok {
        pool := pool + 1;
      }
    }

    /** `++cnt % count`. */
    method Advance()
      requires cnt < own.Length
      modifies this`cnt
      ensures cnt == (old(cnt) + 1) % own.Length && cnt < own.Length
    {
      ModIsNext(cnt, own.Length);
      cnt := (cnt + 1) % own.Length;
    }

    /** A frame with data: mark the slot, take a pool element, wrap the buffer, advance. */
    method PassOn() returns (some: bool)
      requires Valid() && phase == Fetched && HasData(frame[cnt])
      modifies this`cnt, this`segCount, this`pool, this`fault, this`phase, this`held, this`delivered, frame
      ensures Valid() && St() == PublishStep(old(St()))
      ensures some <==> delivered != old(delivered)
      ensures some ==> old(cnt) in held
    {
      var slot := frame[cnt];
      frame[cnt] := slot.(free := true);
      assert frame[..] == old(frame[..])[cnt := slot.(free := true)];
      some := PoolAlloc();
      phase := Idle;
      if !some {
        fault := true;
        return;
      }
      ghost var packet := BufferAt(St(), slot.buffer);
      held, delivered := held[cnt := packet], delivered + [packet];
      assert |delivered| == |old(delivered)| + 1;
      Advance();
      segCount := 0;
    }

    /** Returns the frame slot the new pbuf refers to. */
    method PublishFrame() returns (p: nat, some: bool)
      requires Valid() && phase == Fetched
      modifies this`cnt, this`segCount, this`pool, this`fault, this`phase, this`held, this`delivered, frame
      ensures Valid() && St() == PublishStep(old(St()))
      ensures some <==> delivered != old(delivered)
      ensures some ==> p == old(cnt) && p in held
    {
      p, some := cnt, false;
      if frame[cnt].length % 0x1_0000 > 0 {
        some := PassOn();
      } else {
        phase := Idle;
      }
    }

    method Receive() returns (p: nat, some: bool)
      requires Valid() && phase == Idle
      modifies this`cur, this`cnt, this`segCount, this`pool, this`fault, this`phase, this`held, this`delivered, frame
      ensures Valid() && St() == ReceiveCall(old(St()))
      ensures some <==> delivered != old(delivered)
      ensures some ==> p == old(cnt) && p in held
    {
      var pass := TestGuard();
      if !pass {
        return cnt, false;
      }
      FetchFrame();
      p, some := PublishFrame();
    }

    /** `free_rx_dma_descriptor`: walk the chain and give each descriptor back. */
    method FreeRxDmaDescriptor(i: nat)
      requires Valid() && i < own.Length
      modifies own, frame
      ensures Valid()
      ensures own[..] == Release(old(own[..]), old(frame[i].rxDesc), old(frame[i].seg))
      ensures frame[..] == old(frame[..])[i := old(frame[i]).(seg := 0, free := false)]
    {
      var desc, k, seg := frame[i].rxDesc, 0, frame[i].seg;
      while k < seg
        invariant 0 <= k <= seg && 0 <= desc < own.Length && frame[..] == old(frame[..])
        invariant Release(own[..], desc, seg - k) == Release(old(own[..]), old(frame[i].rxDesc), seg)
      {
        ghost var before := own[..];
        own[desc] := true;
        assert own[..] == before[desc := true];
        desc := if desc + 1 == own.Length then 0 else desc + 1;
        k := k + 1;
      }
      frame[i] := frame[i].(seg := 0, free := false);
    }

    /** `enet0_pbuf_free_custom`, which runs with interrupts off. */
    method PbufFreeCustom(i: nat)
      requires Valid() && i < own.Length && i in held
      modifies own, frame, this`pool, this`held
      ensures Valid() && St() == FreeStep(old(St()), i)
    {
      FreeRxDmaDescriptor(i);
      pool := if pool == 0 then 0 else pool - 1;
      held := held - {i};
    }
  }
}
