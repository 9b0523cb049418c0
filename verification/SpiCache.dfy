/**
 * The data cache around an SPI transfer. The engine works on main memory for as long as the message takes, and
 * all that time the cache may load lines and give them up. The driver maintains the cache before and after.
 */
module SpiCache {

  import opened Bytes
  import opened Cache

  /**
   * While a transfer is under way: the cache gives up a line, the CPU loads or stores, or a received byte
   * reaches main memory.
   */
  datatype Event = Evicts(l: nat) | Loads(a: nat) | Stores(a: nat, b: Byte, fetch: bool) | Lands(k: nat)

  /** The CPU leaves the buffer, a number of whole lines, to the engine. */
  predicate Allowed(e: Event, first: nat, lines: nat) {
    e.Stores? ==> !(first * LINE <= e.a < (first + lines) * LINE)
  }

  predicate AllAllowed(events: seq<Event>, first: nat, lines: nat) {
    forall e :: e in events ==> Allowed(e, first, lines)
  }

  predicate AllLand(events: seq<Event>, n: nat) {
    forall k :: 0 <= k < n ==> Lands(k) in events
  }

  function Step(m: Mem, at: nat, data: seq<Byte>, e: Event): (r: Mem)
    requires Shaped(m) && at + |data| <= |m.ram|
    ensures Shaped(r) && |r.ram| == |m.ram|
  {
    match e
    case Evicts(l) =>
      FlushShaped(m, l);
      FlushLine(m, l)
    case Loads(a) =>
      FetchShaped(m, a);
      if a < |m.ram| then FetchLine(m, a) else m
    case Stores(a, b, fetch) =>
      StoreShaped(m, a, b, fetch);
      if a < |m.ram| then Store(m, a, b, fetch) else m
    case Lands(k) => if k < |data| then m.(ram := m.ram[at + k := data[k]]) else m
  }

  /** With received bytes going to `at`; when nothing is received there are none. */
  function Run(m: Mem, at: nat, data: seq<Byte>, events: seq<Event>): (r: Mem)
    requires Shaped(m) && at + |data| <= |m.ram|
    ensures Shaped(r) && |r.ram| == |m.ram|
    decreases |events|
  {
    if events == [] then m else Run(Step(m, at, data, events[0]), at, data, events[1..])
  }

  /** No line of the buffer holds data that memory lacks. */
  ghost predicate Clean(m: Mem, first: nat, lines: nat) {
    forall l :: l in m.cache && first <= l < first + lines ==> !m.cache[l].dirty
  }

  lemma LineOf(a: nat, first: nat, lines: nat)
    ensures first * LINE <= a < (first + lines) * LINE <==> first <= a / LINE < first + lines
  {
  }

  // ---------------------------------------------------------------- one step

  lemma StepClean(m: Mem, first: nat, lines: nat, data: seq<Byte>, e: Event)
    requires Shaped(m) && first * LINE + |data| <= |m.ram| && Clean(m, first, lines) && Allowed(e, first, lines)
    ensures Clean(Step(m, first * LINE, data, e), first, lines)
  {
    if e.Stores? {
      LineOf(e.a, first, lines);
    }
  }

  /** While the buffer is clean, only the engine changes what memory holds there. */
  lemma StepRam(m: Mem, first: nat, lines: nat, data: seq<Byte>, e: Event, x: nat)
    requires Shaped(m) && first * LINE + |data| <= |m.ram| && Clean(m, first, lines) && Allowed(e, first, lines)
    requires first * LINE <= x < (first + lines) * LINE && x < |m.ram|
    ensures Step(m, first * LINE, data, e).ram[x]
         == if e.Lands? && e.k < |data| && x == first * LINE + e.k then data[e.k] else m.ram[x]
  {
    LineOf(x, first, lines);
  }

  /** So a byte that has landed or will land is there in the end. */
  lemma {:induction false} RunRam(m: Mem, first: nat, lines: nat, data: seq<Byte>, events: seq<Event>, k: nat)
    requires Shaped(m) && first * LINE + |data| <= |m.ram| && Clean(m, first, lines)
    requires AllAllowed(events, first, lines) && k < |data| <= lines * LINE
    requires m.ram[first * LINE + k] == data[k] || Lands(k) in events
    ensures Run(m, first * LINE, data, events).ram[first * LINE + k] == data[k]
    decreases |events|
  {
    if events == [] {
    } else {
      StepClean(m, first, lines, data, events[0]);
      StepRam(m, first, lines, data, events[0], first * LINE + k);
      RunRam(Step(m, first * LINE, data, events[0]), first, lines, data, events[1..], k);
    }
  }

  /** And where nothing is received nothing changes. */
  lemma {:induction false} RunStays(m: Mem, first: nat, lines: nat, events: seq<Event>, x: nat)
    requires Shaped(m) && first * LINE <= |m.ram| && Clean(m, first, lines) && AllAllowed(events, first, lines)
    requires first * LINE <= x < (first + lines) * LINE && x < |m.ram|
    ensures Run(m, first * LINE, [], events).ram[x] == m.ram[x]
    decreases |events|
  {
    if events == [] {
    } else {
      StepClean(m, first, lines, [], events[0]);
      StepRam(m, first, lines, [], events[0], x);
      RunStays(Step(m, first * LINE, [], events[0]), first, lines, events[1..], x);
    }
  }

  // ---------------------------------------------------------------- receiving

  /** `l1c_dc_invalidate`. */
  function Invalidated(m: Mem, first: nat, lines: nat): (r: Mem)
    ensures Shaped(m) ==> Shaped(r)
  {
    m.(cache := map l | l in m.cache && !(first <= l < first + lines) :: m.cache[l])
  }

  /** It drops the lines of the buffer and no other, so the CPU's picture of everything else stays. */
  lemma InvalidatedKeepsRest(m: Mem, first: nat, lines: nat, x: nat)
    requires Shaped(m) && x < |m.ram|
    ensures if first * LINE <= x < (first + lines) * LINE then View(Invalidated(m, first, lines), x) == m.ram[x]
            else View(Invalidated(m, first, lines), x) == View(m, x)
  {
    LineOf(x, first, lines);
    assert x / LINE in Invalidated(m, first, lines).cache <==>
             x / LINE in m.cache && !(first <= x / LINE < first + lines);
  }

  function CpuReads(m: Mem, at: nat, n: nat): (r: seq<Byte>)
    requires Shaped(m) && at + n <= |m.ram|
    ensures |r| == n && forall k :: 0 <= k < n ==> r[k] == View(m, at + k)
  {
    seq(n, k requires 0 <= k < n && Shaped(m) && at + n <= |m.ram| => View(m, at + k))
  }

  /** What the CPU reads after a transfer, the driver having dropped the lines of the buffer. */
  function Received(m: Mem, first: nat, lines: nat, data: seq<Byte>, events: seq<Event>): (r: seq<Byte>)
    requires Shaped(m) && |data| <= lines * LINE && (first + lines) * LINE <= |m.ram|
    ensures |r| == |data|
  {
    CpuReads(Invalidated(Run(m, first * LINE, data, events), first, lines), first * LINE, |data|)
  }

  lemma ReceivedIsRam(m: Mem, first: nat, lines: nat, data: seq<Byte>, events: seq<Event>, k: nat)
    requires Shaped(m) && k < |data| <= lines * LINE && (first + lines) * LINE <= |m.ram|
    ensures Received(m, first, lines, data, events)[k] == Run(m, first * LINE, data, events).ram[first * LINE + k]
  {
    var m' := Invalidated(Run(m, first * LINE, data, events), first, lines);
    LineOf(first * LINE + k, first, lines);
    assert (first * LINE + k) / LINE !in m'.cache;
  }

  lemma CleanReceives(m: Mem, first: nat, lines: nat, data: seq<Byte>, events: seq<Event>)
    requires Shaped(m) && |data| <= lines * LINE && (first + lines) * LINE <= |m.ram| && Clean(m, first, lines)
    requires AllAllowed(events, first, lines) && AllLand(events, |data|)
    ensures Received(m, first, lines, data, events) == data
  {
    forall k | 0 <= k < |data|
      ensures Received(m, first, lines, data, events)[k] == data[k]
    {
      RunRam(m, first, lines, data, events, k);
      ReceivedIsRam(m, first, lines, data, events, k);
    }
  }

  /** A bounce buffer is invalidated before and after, and always holds what the slave sent. */
  lemma BounceReceives(m: Mem, first: nat, lines: nat, data: seq<Byte>, events: seq<Event>)
    requires Shaped(m) && |data| <= lines * LINE && (first + lines) * LINE <= |m.ram|
    requires AllAllowed(events, first, lines) && AllLand(events, |data|)
    ensures Received(Invalidated(m, first, lines), first, lines, data, events) == data
  {
    CleanReceives(Invalidated(m, first, lines), first, lines, data, events);
  }

  /** Whatever the slave sends and whatever the cache does meanwhile, the caller gets it. */
  ghost predicate AlwaysReceives(m: Mem, first: nat, lines: nat)
    requires Shaped(m) && (first + lines) * LINE <= |m.ram|
  {
    forall data, events :: |data| == lines * LINE && AllAllowed(events, first, lines) && AllLand(events, |data|) ==>
      Received(m, first, lines, data, events) == data
  }

  /**
   * The caller's own buffer, when it is made of whole lines, is invalidated only afterwards. That is enough
   * exactly when none of its lines is dirty at the start: the cache may write a dirty line back over the data.
   */
  lemma DirectReceivesIff(m: Mem, first: nat, lines: nat)
    requires Shaped(m) && (first + lines) * LINE <= |m.ram|
    ensures AlwaysReceives(m, first, lines) <==> Clean(m, first, lines)
  {
    if Clean(m, first, lines) {
      forall data, events | |data| == lines * LINE && AllAllowed(events, first, lines) && AllLand(events, |data|)
        ensures Received(m, first, lines, data, events) == data
      {
        CleanReceives(m, first, lines, data, events);
      }
    } else {
      var l :| l in m.cache && first <= l < first + lines && m.cache[l].dirty;
      var data, events := Overwritten(m, first, lines, l);
      assert Received(m, first, lines, data, events) != data;
    }
  }

  /** All bytes land, and then the dirty line goes. */
  lemma Overwritten(m: Mem, first: nat, lines: nat, l: nat) returns (data: seq<Byte>, events: seq<Event>)
    requires Shaped(m) && (first + lines) * LINE <= |m.ram|
    requires l in m.cache && first <= l < first + lines && m.cache[l].dirty
    ensures |data| == lines * LINE && AllAllowed(events, first, lines) && AllLand(events, |data|)
    ensures Received(m, first, lines, data, events) != data
  {
    data := seq(lines * LINE, _ => m.cache[l].data[0] ^ 1);
    var landings := seq(|data|, k requires 0 <= k => Lands(k));
    events := landings + [Evicts(l)];
    forall k | 0 <= k < |data|
      ensures Lands(k) in events
    {
      assert events[k] == Lands(k);
    }
    var k := (l - first) * LINE;
    RunLast(m, first * LINE, data, landings, Evicts(l));
    LandingsLeaveCache(m, first * LINE, data, landings);
    ReceivedIsRam(m, first, lines, data, events, k);
    Differs(m.cache[l].data[0]);
  }

  lemma Differs(b: Byte)
    ensures b ^ 1 != b
  {
  }

  lemma {:induction false} RunLast(m: Mem, at: nat, data: seq<Byte>, events: seq<Event>, e: Event)
    requires Shaped(m) && at + |data| <= |m.ram|
    ensures Run(m, at, data, events + [e]) == Step(Run(m, at, data, events), at, data, e)
    decreases |events|
  {
    if events == [] {
      assert [e][1..] == [];
    } else {
      assert (events + [e])[1..] == events[1..] + [e];
      RunLast(Step(m, at, data, events[0]), at, data, events[1..], e);
    }
  }

  lemma {:induction false} LandingsLeaveCache(m: Mem, at: nat, data: seq<Byte>, events: seq<Event>)
    requires Shaped(m) && at + |data| <= |m.ram| && forall e :: e in events ==> e.Lands?
    ensures Run(m, at, data, events).cache == m.cache
    decreases |events|
  {
    if events == [] {
    } else {
      assert events[0].Lands?;
      LandingsLeaveCache(Step(m, at, data, events[0]), at, data, events[1..]);
    }
  }

  // ---------------------------------------------------------------- sending

  /** `l1c_dc_writeback` on one line: it stays in the cache. */
  function WriteBackLine(m: Mem, l: nat): Mem
    requires Shaped(m)
  {
    if l in m.cache && m.cache[l].dirty then
      FlushLine(m, l).(cache := m.cache[l := Line(false, m.cache[l].data)])
    else m
  }

  lemma WriteBackCoherent(m: Mem, l: nat)
    requires Coherent(m)
    ensures Coherent(WriteBackLine(m, l)) && |WriteBackLine(m, l).ram| == |m.ram|
  {
    if l in m.cache && m.cache[l].dirty {
      var f, m' := FlushLine(m, l), WriteBackLine(m, l);
      FlushLineView(m, l);
      assert f.ram[l * LINE..l * LINE + LINE] == m.cache[l].data;
      forall k | k in m'.cache && !m'.cache[k].dirty
        ensures m'.cache[k].data == m'.ram[k * LINE..k * LINE + LINE]
      {
        assert k != l ==> k in f.cache && f.cache[k] == m'.cache[k];
      }
    }
  }

  lemma WriteBackLineView(m: Mem, l: nat)
    requires Coherent(m)
    ensures Coherent(WriteBackLine(m, l)) && |WriteBackLine(m, l).ram| == |m.ram|
    ensures forall x :: 0 <= x < |m.ram| ==> View(WriteBackLine(m, l), x) == View(m, x)
  {
    WriteBackCoherent(m, l);
    FlushLineView(m, l);
    forall x | 0 <= x < |m.ram|
      ensures View(WriteBackLine(m, l), x) == View(m, x)
    {
      assert View(FlushLine(m, l), x) == View(m, x);
    }
  }

  /** The caller's buffer is written back line by line and stays cached; a bounce buffer is flushed. */
  function MadeReady(m: Mem, first: nat, lines: nat, bounce: bool): (r: Mem)
    requires Coherent(m)
    ensures Coherent(r) && |r.ram| == |m.ram| && Clean(r, first, lines)
    ensures forall x :: 0 <= x < |m.ram| ==> View(r, x) == View(m, x)
    ensures forall l :: l in r.cache && r.cache[l].dirty ==> l in m.cache && m.cache[l].dirty
    ensures forall l :: l in r.cache <==> l in m.cache && !(bounce && first <= l < first + lines)
    decreases lines
  {
    FlushLineView(m, first);
    WriteBackLineView(m, first);
    if lines == 0 then m
    else MadeReady(if bounce then FlushLine(m, first) else WriteBackLine(m, first), first + 1, lines - 1, bounce)
  }

  /** Whenever the engine reads a byte of the buffer, it gets what the CPU had put there. */
  lemma EngineSends(m: Mem, first: nat, lines: nat, bounce: bool, events: seq<Event>, x: nat)
    requires Coherent(m) && AllAllowed(events, first, lines)
    requires first * LINE <= x < (first + lines) * LINE <= |m.ram|
    ensures Run(MadeReady(m, first, lines, bounce), first * LINE, [], events).ram[x] == View(m, x)
  {
    var ready := MadeReady(m, first, lines, bounce);
    RunStays(ready, first, lines, events, x);
    LineOf(x, first, lines);
    assert View(ready, x) == ready.ram[x];
  }
}
