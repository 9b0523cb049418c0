/** Main memory, and a write-back data cache with lines of 64 bytes in front of it. */
module Cache {

  import opened Bytes

  const LINE: nat := 64

  datatype Line = Line(dirty: bool, data: seq<Byte>)

  /** Main memory, and the lines the data cache holds, by line number. */
  datatype Mem = Mem(ram: seq<Byte>, cache: map<nat, Line>)

  /** Cached lines are whole lines of the memory. */
  ghost predicate Shaped(m: Mem) {
    |m.ram| % LINE == 0 && forall l :: l in m.cache ==> l * LINE + LINE <= |m.ram| && |m.cache[l].data| == LINE
  }

  /** And a line that is not dirty agrees with it. */
  ghost predicate Coherent(m: Mem) {
    && Shaped(m)
    && forall l :: l in m.cache && !m.cache[l].dirty ==> m.cache[l].data == m.ram[l * LINE..l * LINE + LINE]
  }

  /** What the CPU reads at an address. */
  function View(m: Mem, a: nat): Byte
    requires Shaped(m) && a < |m.ram|
  {
    if a / LINE in m.cache then m.cache[a / LINE].data[a % LINE] else m.ram[a]
  }

  /** No cached line overlaps the range: the CPU sees what the DMA engine sees. */
  ghost predicate Uncached(m: Mem, from: nat, len: nat) {
    forall a :: from <= a < from + len ==> a / LINE !in m.cache
  }

  /** `HPM_L1C_CACHELINE_ALIGN_UP`. */
  function LineUp(n: nat): (r: nat)
    ensures n <= r
  {
    (n + 63) / 64 * 64
  }

  lemma LineUpIs(n: nat, room: nat)
    ensures n <= LineUp(n) < n + LINE && LineUp(n) % LINE == 0
    ensures n % LINE == 0 ==> LineUp(n) == n
    ensures n <= room && room % LINE == 0 ==> LineUp(n) <= room
  {
  }

  /** One CPU store. A line that is not cached may be fetched and kept, or written around. */
  function Store(m: Mem, a: nat, b: Byte, fetch: bool): Mem
    requires Shaped(m) && a < |m.ram|
  {
    var l := a / LINE;
    if l in m.cache then
      m.(cache := m.cache[l := Line(true, m.cache[l].data[a % LINE := b])])
    else if fetch then
      m.(cache := m.cache[l := Line(true, m.ram[l * LINE..l * LINE + LINE][a % LINE := b])])
    else
      m.(ram := m.ram[a := b])
  }

  lemma LineFits(a: nat, n: nat)
    requires a < n && n % LINE == 0
    ensures a / LINE * LINE <= a < a / LINE * LINE + LINE <= n
  {
  }

  lemma LineApart(a: nat, l: nat)
    requires l != a / LINE
    ensures !(l * LINE <= a < l * LINE + LINE)
  {
  }

  /** Addresses on both sides of a line's edge are in different lines. */
  lemma EdgeApart(a: nat, edge: nat, x: nat)
    requires a < edge <= x && edge % LINE == 0
    ensures a / LINE < x / LINE
  {
  }

  lemma StoreCoherent(m: Mem, a: nat, b: Byte, fetch: bool)
    requires Coherent(m) && a < |m.ram|
    ensures Coherent(Store(m, a, b, fetch)) && |Store(m, a, b, fetch).ram| == |m.ram|
  {
    var m' := Store(m, a, b, fetch);
    LineFits(a, |m.ram|);
    forall l | l in m'.cache && l != a / LINE
      ensures l * LINE + LINE <= |m'.ram| && |m'.cache[l].data| == LINE
      ensures !m'.cache[l].dirty ==> m'.cache[l].data == m'.ram[l * LINE..l * LINE + LINE]
    {
      LineApart(a, l);
    }
  }

  lemma StoreView(m: Mem, a: nat, b: Byte, fetch: bool)
    requires Coherent(m) && a < |m.ram|
    ensures Coherent(Store(m, a, b, fetch)) && |Store(m, a, b, fetch).ram| == |m.ram|
    ensures forall x :: 0 <= x < |m.ram| ==> View(Store(m, a, b, fetch), x) == if x == a then b else View(m, x)
  {
    StoreCoherent(m, a, b, fetch);
    forall x | 0 <= x < |m.ram| && x != a
      ensures View(Store(m, a, b, fetch), x) == View(m, x)
    {
      assert x / LINE == a / LINE ==> x % LINE != a % LINE;
    }
  }

  lemma EndAligned(from: nat, len: nat)
    requires from % LINE == 0 && len % LINE == 0
    ensures (from + len) % LINE == 0
  {
  }

  /** When only the line of an address outside a range of whole lines is added, none of the range is cached. */
  lemma AddedApart(m: Mem, m': Mem, a: nat, from: nat, len: nat)
    requires Uncached(m, from, len) && from % LINE == 0 && len % LINE == 0 && !(from <= a < from + len)
    requires forall l :: l in m'.cache ==> l in m.cache || l == a / LINE
    ensures Uncached(m', from, len)
  {
    EndAligned(from, len);
    forall x | from <= x < from + len
      ensures x / LINE !in m'.cache
    {
      if a < from {
        EdgeApart(a, from, x);
      } else {
        EdgeApart(x, from + len, a);
      }
    }
  }

  /** A store outside a range of whole lines, or one that fetches nothing, brings none of them into the cache. */
  lemma StoreKeepsUncached(m: Mem, a: nat, b: Byte, fetch: bool, from: nat, len: nat)
    requires Coherent(m) && a < |m.ram| && Uncached(m, from, len) && from % LINE == 0 && len % LINE == 0
    requires fetch ==> !(from <= a < from + len)
    ensures Uncached(Store(m, a, b, fetch), from, len)
  {
    if fetch {
      AddedApart(m, Store(m, a, b, fetch), a, from, len);
    }
  }

  lemma UncachedPart(m: Mem, from: nat, len: nat, part: nat)
    requires Uncached(m, from, len) && part <= len
    ensures Uncached(m, from, part)
  {
  }

  /** Write a line back if it is dirty, and drop it. */
  function FlushLine(m: Mem, l: nat): Mem
    requires Shaped(m)
  {
    if l !in m.cache then m
    else Mem(if m.cache[l].dirty then m.ram[..l * LINE] + m.cache[l].data + m.ram[l * LINE + LINE..] else m.ram,
             m.cache - {l})
  }

  lemma FlushLineView(m: Mem, l: nat)
    requires Coherent(m)
    ensures Coherent(FlushLine(m, l)) && |FlushLine(m, l).ram| == |m.ram|
    ensures forall x :: 0 <= x < |m.ram| ==> View(FlushLine(m, l), x) == View(m, x)
  {
    var m' := FlushLine(m, l);
    if l in m.cache {
      assert |m'.ram| == |m.ram|;
      forall x | 0 <= x < |m.ram| && x / LINE != l
        ensures m'.ram[x] == m.ram[x]
      {
      }
      forall k | k in m'.cache
        ensures m'.ram[k * LINE..k * LINE + LINE] == m.ram[k * LINE..k * LINE + LINE]
      {
        forall x | k * LINE <= x < k * LINE + LINE
          ensures m'.ram[x] == m.ram[x]
        {
          assert x / LINE == k;
        }
      }
    }
  }

  /** Bring the line of an address into the cache. */
  function FetchLine(m: Mem, a: nat): Mem
    requires Shaped(m) && a < |m.ram|
  {
    var l := a / LINE;
    if l in m.cache then m else m.(cache := m.cache[l := Line(false, m.ram[l * LINE..l * LINE + LINE])])
  }

  lemma FetchCoherent(m: Mem, a: nat)
    requires Coherent(m) && a < |m.ram|
    ensures Coherent(FetchLine(m, a)) && FetchLine(m, a).ram == m.ram
  {
    LineFits(a, |m.ram|);
  }

  lemma FetchLineView(m: Mem, a: nat)
    requires Coherent(m) && a < |m.ram|
    ensures Coherent(FetchLine(m, a))
    ensures forall x :: 0 <= x < |m.ram| ==> View(FetchLine(m, a), x) == View(m, x)
  {
    FetchCoherent(m, a);
    forall x | 0 <= x < |m.ram|
      ensures View(FetchLine(m, a), x) == View(m, x)
    {
      if x / LINE == a / LINE && a / LINE !in m.cache {
        assert x == x / LINE * LINE + x % LINE;
      }
    }
  }

  /** Fetching a line outside a range of whole lines brings none of them into the cache. */
  lemma FetchKeepsUncached(m: Mem, a: nat, from: nat, len: nat)
    requires Coherent(m) && a < |m.ram| && Uncached(m, from, len) && from % LINE == 0 && len % LINE == 0
    requires !(from <= a < from + len)
    ensures Uncached(FetchLine(m, a), from, len)
  {
    AddedApart(m, FetchLine(m, a), a, from, len);
  }

  /** Whatever the cache does, it holds whole lines. */
  lemma FlushShaped(m: Mem, l: nat)
    requires Shaped(m)
    ensures Shaped(FlushLine(m, l)) && |FlushLine(m, l).ram| == |m.ram|
  {
  }

  lemma FetchShaped(m: Mem, a: nat)
    requires Shaped(m)
    ensures a < |m.ram| ==> Shaped(FetchLine(m, a)) && |FetchLine(m, a).ram| == |m.ram|
  {
    if a < |m.ram| {
      LineFits(a, |m.ram|);
    }
  }

  lemma StoreShaped(m: Mem, a: nat, b: Byte, fetch: bool)
    requires Shaped(m)
    ensures a < |m.ram| ==> Shaped(Store(m, a, b, fetch)) && |Store(m, a, b, fetch).ram| == |m.ram|
  {
    if a < |m.ram| {
      LineFits(a, |m.ram|);
    }
  }

  /** Drop a line, written or not. */
  function DropLine(m: Mem, l: nat): Mem {
    m.(cache := m.cache - {l})
  }

  lemma DropLineView(m: Mem, l: nat)
    requires Coherent(m)
    ensures Coherent(DropLine(m, l))
    ensures forall x :: 0 <= x < |m.ram| && x / LINE != l ==> View(DropLine(m, l), x) == View(m, x)
  {
  }

  /** The DMA engine stores into main memory. */
  function DmaStored(m: Mem, to: nat, data: seq<Byte>): Mem
    requires to + |data| <= |m.ram|
  {
    m.(ram := Splice(m.ram, to, data))
  }

  lemma DmaStoredView(m: Mem, to: nat, data: seq<Byte>)
    requires Coherent(m) && to + |data| <= |m.ram| && Uncached(m, to, |data|)
    ensures Coherent(DmaStored(m, to, data))
    ensures forall x :: 0 <= x < |m.ram| ==>
              View(DmaStored(m, to, data), x) == if to <= x < to + |data| then data[x - to] else View(m, x)
  {
    var m' := DmaStored(m, to, data);
    forall l | l in m'.cache
      ensures m'.ram[l * LINE..l * LINE + LINE] == m.ram[l * LINE..l * LINE + LINE]
    {
      forall x | l * LINE <= x < l * LINE + LINE
        ensures m'.ram[x] == m.ram[x]
      {
        assert x / LINE == l;
      }
    }
  }
}
