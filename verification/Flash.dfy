/**
 * The NOR flash port: erasing with a mix of block and sector commands, programming page by page through
 * a small staging buffer, and reading back through the data cache. Programming can only clear bits.
 */
module Flash {

  import opened Arithmetic
  import opened Bytes
  import Cache

  /** Size of the staging array `buf_32`. */
  const STAGING: nat := 256

  // ---------------------------------------------------------------- what the chip does

  predicate In(i: nat, off: nat, len: nat) {
    off <= i < off + len
  }

  function And(x: Byte, y: Byte): Byte {
    x & y
  }

  /** Nothing outside a range has changed. */
  predicate SameOutside(was: seq<Byte>, mem: seq<Byte>, off: nat, len: nat) {
    |mem| == |was| && forall i :: 0 <= i < |mem| && !In(i, off, len) ==> mem[i] == was[i]
  }

  lemma SameOutsideOn(was: seq<Byte>, mid: seq<Byte>, mem: seq<Byte>, off: nat, len: nat, at: nat, n: nat)
    requires SameOutside(was, mid, off, len) && SameOutside(mid, mem, at, n) && off <= at && at + n <= off + len
    ensures SameOutside(was, mem, off, len)
  {
  }

  /** Programming clears the bits that are 0 in the data. */
  function Programmed(mem: seq<Byte>, off: nat, data: seq<Byte>): (r: seq<Byte>)
    ensures |r| == |mem|
    ensures forall i :: 0 <= i < |mem| ==> r[i] == if In(i, off, |data|) then And(mem[i], data[i - off]) else mem[i]
  {
    seq(|mem|, i requires 0 <= i < |mem| => if In(i, off, |data|) then And(mem[i], data[i - off]) else mem[i])
  }

  function Erased(mem: seq<Byte>, off: nat, len: nat): (r: seq<Byte>)
    ensures |r| == |mem|
    ensures forall i :: 0 <= i < |mem| ==> r[i] == if In(i, off, len) then 0xFF else mem[i]
  {
    seq(|mem|, i requires 0 <= i < |mem| => if In(i, off, len) then 0xFF else mem[i])
  }

  lemma ErasedTwice(mem: seq<Byte>, off: nat, a: nat, b: nat)
    ensures Erased(Erased(mem, off, a), off + a, b) == Erased(mem, off, a + b)
  {
  }

  lemma ProgrammedTwice(mem: seq<Byte>, off: nat, a: seq<Byte>, b: seq<Byte>)
    ensures Programmed(Programmed(mem, off, a), off + |a|, b) == Programmed(mem, off, a + b)
  {
    var once, both := Programmed(mem, off, a), Programmed(mem, off, a + b);
    forall i | 0 <= i < |mem|
      ensures Programmed(once, off + |a|, b)[i] == both[i]
    {
      if In(i, off, |a|) {
        assert (a + b)[i - off] == a[i - off];
      } else if In(i, off + |a|, |b|) {
        assert (a + b)[i - off] == b[i - (off + |a|)];
      }
    }
  }

  // ---------------------------------------------------------------- arithmetic

  lemma FloorUnique(x: nat, s: nat, q: nat, r: nat)
    requires 0 < s && r < s && x == q * s + r
    ensures x / s == q && x % s == r
  {
    var p := x / s;
    assert x == p * s + x % s;
    assert (q + 1) * s == q * s + s && (p + 1) * s == p * s + s;
    if q + 1 <= p {
      MulMono(q + 1, p, s);
    }
    if p + 1 <= q {
      MulMono(p + 1, q, s);
    }
  }

  lemma MultipleIs(k: nat, s: nat)
    requires 0 < s
    ensures (k * s) % s == 0 && (k * s) / s == k
  {
    FloorUnique(k * s, s, k, 0);
  }

  lemma OneMore(x: nat, s: nat)
    requires 0 < s
    ensures (x + s) % s == x % s
    ensures 0 < x < s ==> x % s != 0
  {
    assert (x / s + 1) * s == x / s * s + s;
    FloorUnique(x + s, s, x / s + 1, x % s);
    if x < s {
      FloorUnique(x, s, 0, x);
    }
  }

  lemma {:induction false} MultiplesAdd(a: nat, b: nat, s: nat)
    requires 0 < s && a % s == 0 && b % s == 0
    ensures (a + b) % s == 0
    decreases b
  {
    OneMore(b, s);
    if b > 0 {
      OneMore(b - s, s);
      MultiplesAdd(a, b - s, s);
      OneMore(a + (b - s), s);
    }
  }

  lemma {:induction false} MultiplesGap(a: nat, b: nat, s: nat)
    requires 0 < s && a % s == 0 && b % s == 0 && a < b
    ensures a + s <= b && (b - a) % s == 0
    decreases a
  {
    OneMore(a, s);
    OneMore(b, s);
    if a > 0 {
      OneMore(a - s, s);
      OneMore(b - s, s);
      MultiplesGap(a - s, b - s, s);
    }
  }

  lemma {:induction false} MultipleOfMultiple(x: nat, b: nat, s: nat)
    requires 0 < s && 0 < b && b % s == 0 && x % b == 0
    ensures x % s == 0
    decreases x
  {
    OneMore(x, b);
    if x > 0 {
      OneMore(x - b, b);
      MultipleOfMultiple(x - b, b, s);
      MultiplesAdd(x - b, b, s);
    } else {
      FloorUnique(0, s, 0, 0);
    }
  }

  function Pow2(k: nat): (r: nat)
    ensures 0 < r
  {
    if k == 0 then 1 else 2 * Pow2(k - 1)
  }

  /** The mask operation x & ~(2^k - 1), bit by bit. */
  function ClearLow(x: nat, k: nat): nat {
    if k == 0 then x else 2 * ClearLow(x / 2, k - 1)
  }

  lemma {:induction false} ClearLowIsFloor(x: nat, k: nat)
    ensures ClearLow(x, k) == (x / Pow2(k)) * Pow2(k)
  {
    if k > 0 {
      ClearLowIsFloor(x / 2, k - 1);
      HalveTwice(x, Pow2(k - 1));
    }
  }

  lemma HalveTwice(x: nat, p: nat)
    requires 0 < p
    ensures 2 * (x / 2 / p * p) == x / (2 * p) * (2 * p)
  {
    var q, r := x / 2 / p, x / 2 % p;
    Regroup(q, p);
    FloorUnique(x, 2 * p, q, 2 * r + x % 2);
  }

  lemma Regroup(q: nat, p: nat)
    ensures 2 * (q * p) == q * (2 * p)
  {
  }

  function RoundUp(size: nat, s: nat): nat
    requires 0 < s
  {
    (size + s - 1) / s * s
  }

  lemma RoundUpIs(size: nat, s: nat)
    requires 0 < s
    ensures size <= RoundUp(size, s) < size + s && RoundUp(size, s) % s == 0
  {
    var q := (size + s - 1) / s;
    assert size + s - 1 == q * s + (size + s - 1) % s;
    MultipleIs(q, s);
  }

  // ---------------------------------------------------------------- erasing

  datatype Command = Command(off: nat, len: nat)

  ghost predicate Geometry(sector: nat, block: nat) {
    0 < sector && 0 < block && block % sector == 0
  }

  /** The commands `erase` gives for `left` bytes from `off` on. */
  function ErasePlan(off: nat, left: nat, sector: nat, block: nat): seq<Command>
    requires Geometry(sector, block)
    decreases left
  {
    if left == 0 || left < sector then []
    else
      var unit := EraseUnit(off, left, sector, block);
      [Command(off, unit)] + ErasePlan(off + unit, left - unit, sector, block)
  }

  function EraseUnit(off: nat, left: nat, sector: nat, block: nat): nat
    requires 0 < block
  {
    if off % block == 0 && left >= block then block else sector
  }

  lemma UnitFits(off: nat, left: nat, sector: nat, block: nat)
    requires Geometry(sector, block) && off % sector == 0 && left % sector == 0 && 0 < left
    ensures var unit := EraseUnit(off, left, sector, block);
            && 0 < unit <= left && (left - unit) % sector == 0 && (off + unit) % sector == 0
            && (unit == sector || unit == block) && off % unit == 0 && sector <= left
  {
    var unit := EraseUnit(off, left, sector, block);
    MultipleIs(0, sector);
    MultipleIs(1, sector);
    MultiplesGap(0, left, sector);
    if unit < left {
      MultiplesGap(unit, left, sector);
    }
    MultiplesAdd(off, unit, sector);
  }

  lemma PlanHead(off: nat, left: nat, sector: nat, block: nat)
    requires Geometry(sector, block) && 0 < EraseUnit(off, left, sector, block) <= left && sector <= left
    ensures var unit := EraseUnit(off, left, sector, block);
            ErasePlan(off, left, sector, block)
            == [Command(off, unit)] + ErasePlan(off + unit, left - unit, sector, block)
  {
  }

  /** What sector-by-sector erasing of n sectors does. */
  function SectorBySector(mem: seq<Byte>, off: nat, n: nat, sector: nat): seq<Byte>
    decreases n
  {
    if n == 0 then mem else SectorBySector(Erased(mem, off, sector), off + sector, n - 1, sector)
  }

  lemma {:induction false} SectorBySectorIsRange(mem: seq<Byte>, off: nat, n: nat, sector: nat)
    ensures SectorBySector(mem, off, n, sector) == Erased(mem, off, n * sector)
    decreases n
  {
    if n > 0 {
      SectorBySectorIsRange(Erased(mem, off, sector), off + sector, n - 1, sector);
      ErasedTwice(mem, off, sector, (n - 1) * sector);
      assert sector + (n - 1) * sector == n * sector;
    } else {
      assert Erased(mem, off, 0) == mem;
    }
  }

  /** What running a list of commands does. */
  function EraseAll(mem: seq<Byte>, plan: seq<Command>): seq<Byte>
    decreases |plan|
  {
    if plan == [] then mem else EraseAll(Erased(mem, plan[0].off, plan[0].len), plan[1..])
  }

  /** After k commands of the plan, the rest of it is what is still to be erased and leads to the end. */
  ghost predicate Leads(plan: seq<Command>, k: nat, mem: seq<Byte>, cur: nat, left: nat, sector: nat, block: nat,
                        end: seq<Byte>)
    requires Geometry(sector, block)
  {
    k <= |plan| && plan[k..] == ErasePlan(cur, left, sector, block) && EraseAll(mem, plan[k..]) == end
  }

  lemma LeadsOn(plan: seq<Command>, k: nat, mem: seq<Byte>, cur: nat, left: nat, sector: nat, block: nat,
                end: seq<Byte>)
    requires Geometry(sector, block) && cur % sector == 0 && left % sector == 0 && 0 < left
    requires Leads(plan, k, mem, cur, left, sector, block, end)
    ensures var unit := EraseUnit(cur, left, sector, block);
            && unit <= left && k < |plan| && plan[k] == Command(cur, unit)
            && Leads(plan, k + 1, Erased(mem, cur, unit), cur + unit, left - unit, sector, block, end)
  {
    UnitFits(cur, left, sector, block);
    PlanHead(cur, left, sector, block);
    assert plan[k..][0] == plan[k] && plan[k..][1..] == plan[k + 1..];
  }

  lemma LeadsFrom(mem: seq<Byte>, off: nat, left: nat, sector: nat, block: nat)
    requires Geometry(sector, block) && off % sector == 0 && left % sector == 0
    ensures Leads(ErasePlan(off, left, sector, block), 0, mem, off, left, sector, block, Erased(mem, off, left))
  {
    var plan := ErasePlan(off, left, sector, block);
    ErasePlanTiles(off, left, sector, block);
    TilesEraseRange(mem, plan, off, left);
    assert plan[0..] == plan;
  }

  /** The commands lie end to end from `off` and cover `left` bytes: no gap, and no byte erased twice. */
  predicate Tiles(plan: seq<Command>, off: nat, left: nat) {
    if plan == [] then left == 0
    else plan[0].off == off && plan[0].len <= left && Tiles(plan[1..], off + plan[0].len, left - plan[0].len)
  }

  lemma {:induction false} ErasePlanTiles(off: nat, left: nat, sector: nat, block: nat)
    requires Geometry(sector, block) && off % sector == 0 && left % sector == 0
    ensures Tiles(ErasePlan(off, left, sector, block), off, left)
    decreases left
  {
    if left > 0 {
      UnitFits(off, left, sector, block);
      var unit := EraseUnit(off, left, sector, block);
      ErasePlanTiles(off + unit, left - unit, sector, block);
    }
  }

  lemma {:induction false} TilesEraseRange(mem: seq<Byte>, plan: seq<Command>, off: nat, left: nat)
    requires Tiles(plan, off, left)
    ensures EraseAll(mem, plan) == Erased(mem, off, left)
    decreases |plan|
  {
    if plan == [] {
      assert Erased(mem, off, 0) == mem;
    } else {
      var c := plan[0];
      TilesEraseRange(Erased(mem, off, c.len), plan[1..], off + c.len, left - c.len);
      ErasedTwice(mem, off, c.len, left - c.len);
    }
  }

  /** Mixed erase does exactly what erasing the same range sector by sector does. */
  lemma MixedEqualsSectorBySector(mem: seq<Byte>, off: nat, n: nat, sector: nat, block: nat)
    requires Geometry(sector, block) && off % sector == 0
    ensures EraseAll(mem, ErasePlan(off, n * sector, sector, block)) == SectorBySector(mem, off, n, sector)
  {
    MultipleIs(n, sector);
    ErasePlanTiles(off, n * sector, sector, block);
    TilesEraseRange(mem, ErasePlan(off, n * sector, sector, block), off, n * sector);
    SectorBySectorIsRange(mem, off, n, sector);
  }

  /** Every aligned block that lies wholly inside the range is erased by one block command. */
  lemma {:induction false} WholeBlocksByBlockErase(off: nat, left: nat, sector: nat, block: nat, b: nat)
    requires Geometry(sector, block) && off % sector == 0 && left % sector == 0
    requires b % block == 0 && off <= b && b + block <= off + left
    ensures Command(b, block) in ErasePlan(off, left, sector, block)
    decreases left
  {
    if b > off {
      UnitFits(off, left, sector, block);
      if off % block == 0 && left >= block {
        MultiplesGap(off, b, block);
        WholeBlocksByBlockErase(off + block, left - block, sector, block, b);
      } else {
        MultipleOfMultiple(b, block, sector);
        MultiplesGap(off, b, sector);
        WholeBlocksByBlockErase(off + sector, left - sector, sector, block, b);
      }
    } else {
      UnitFits(off, left, sector, block);
    }
  }

  // ---------------------------------------------------------------- programming

  function Min(a: nat, b: nat): nat {
    if a < b then a else b
  }

  /** The chunks of the main loop of `write`. */
  function FullChunks(off: nat, size: nat): seq<Command>
    decreases size
  {
    if size == 0 then []
    else
      var n := Min(size, STAGING);
      [Command(off, n)] + FullChunks(off + n, size - n)
  }

  function FirstChunk(off: nat, size: nat, page: nat): nat
    requires 0 < page
  {
    if off % page != 0 then Min(page - off % page, size) else 0
  }

  /** The program commands of `write`, in order. */
  function Chunks(off: nat, size: nat, page: nat): seq<Command>
    requires 0 < page
  {
    var n := FirstChunk(off, size, page);
    (if off % page != 0 then [Command(off, n)] else []) + FullChunks(off + n, size - n)
  }

  /** A command the staging buffer can hold and the chip can carry out without wrapping inside a page. */
  predicate Fits(c: Command, page: nat)
    requires 0 < page
  {
    c.len <= STAGING && c.off % page + c.len <= page
  }

  lemma {:induction false} FullChunksTile(off: nat, size: nat)
    ensures Tiles(FullChunks(off, size), off, size)
    decreases size
  {
    if size > 0 {
      var n := Min(size, STAGING);
      FullChunksTile(off + n, size - n);
    }
  }

  /** The commands tile the written range in order, for any page size. */
  lemma ChunksTile(off: nat, size: nat, page: nat)
    requires 0 < page
    ensures Tiles(Chunks(off, size, page), off, size)
  {
    var n := FirstChunk(off, size, page);
    FullChunksTile(off + n, size - n);
    if off % page != 0 {
      assert Chunks(off, size, page)[1..] == FullChunks(off + n, size - n);
    } else {
      assert Chunks(off, size, page) == FullChunks(off, size);
    }
  }

  lemma {:induction false} FullChunksFit(off: nat, size: nat)
    requires off % STAGING == 0
    ensures forall c :: c in FullChunks(off, size) ==> Fits(c, STAGING)
    decreases size
  {
    if size > 0 {
      var n := Min(size, STAGING);
      if n == STAGING {
        FullChunksFit(off + n, size - n);
      }
    }
  }

  lemma ChunksFit(off: nat, size: nat)
    ensures AllFit(off, size, STAGING)
  {
    var n := FirstChunk(off, size, STAGING);
    if n < size {
      assert (off + n) % STAGING == 0;
      FullChunksFit(off + n, size - n);
    }
  }

  /**
   * The page size the driver reads from the chip may be anything; the staging buffer and the step of the
   * loop are fixed. Every write is carried out within pages and within the staging buffer exactly when
   * pages have 256 bytes.
   */
  lemma SafeIffPageIs256(page: nat)
    requires 0 < page
    ensures (forall off: nat, size: nat :: AllFit(off, size, page)) <==> page == STAGING
  {
    if page == STAGING {
      forall off: nat, size: nat
        ensures AllFit(off, size, page)
      {
        ChunksFit(off, size);
      }
    } else if page < STAGING {
      assert FullChunks(0, STAGING)[0] == Command(0, STAGING);
      assert Chunks(0, STAGING, page)[0] == Command(0, STAGING);
      assert Command(0, STAGING) in Chunks(0, STAGING, page) && !Fits(Command(0, STAGING), page);
      assert !AllFit(0, STAGING, page);
    } else if page == STAGING + 1 {
      assert FullChunks(STAGING, STAGING)[0] == Command(STAGING, STAGING);
      assert FullChunks(0, 2 * STAGING) == [Command(0, STAGING)] + FullChunks(STAGING, STAGING);
      assert FullChunks(0, 2 * STAGING)[1] == Command(STAGING, STAGING);
      assert Chunks(0, 2 * STAGING, page)[1] == Command(STAGING, STAGING);
      assert STAGING % page == STAGING;
      assert Command(STAGING, STAGING) in Chunks(0, 2 * STAGING, page) && !Fits(Command(STAGING, STAGING), page);
      assert !AllFit(0, 2 * STAGING, page);
    } else {
      assert 1 % page == 1;
      assert Chunks(1, page - 1, page)[0] == Command(1, page - 1);
      assert Command(1, page - 1) in Chunks(1, page - 1, page) && !Fits(Command(1, page - 1), page);
      assert !AllFit(1, page - 1, page);
    }
  }

  predicate AllFit(off: nat, size: nat, page: nat)
    requires 0 < page
  {
    EachFits(Chunks(off, size, page), page)
  }

  predicate EachFits(cmds: seq<Command>, page: nat)
    requires 0 < page
  {
    forall c :: c in cmds ==> Fits(c, page)
  }

  lemma FirstAndRestFit(off: nat, size: nat, page: nat)
    requires 0 < page && 0 < size && EachFits(FullChunks(off, size), page)
    ensures Fits(Command(off, Min(size, STAGING)), page)
    ensures EachFits(FullChunks(off + Min(size, STAGING), size - Min(size, STAGING)), page)
  {
    var n := Min(size, STAGING);
    assert FullChunks(off, size) == [Command(off, n)] + FullChunks(off + n, size - n);
    assert FullChunks(off, size)[0] in FullChunks(off, size);
    forall c | c in FullChunks(off + n, size - n)
      ensures Fits(c, page)
    {
      assert c in FullChunks(off, size);
    }
  }

  lemma LeadAndRestFit(off: nat, size: nat, page: nat)
    requires 0 < page && AllFit(off, size, page)
    ensures var n := FirstChunk(off, size, page);
            && n <= size && (off % page != 0 ==> Fits(Command(off, n), page))
            && EachFits(FullChunks(off + n, size - n), page)
  {
    var n := FirstChunk(off, size, page);
    if off % page != 0 {
      assert Chunks(off, size, page)[0] in Chunks(off, size, page);
    }
    forall c | c in FullChunks(off + n, size - n)
      ensures Fits(c, page)
    {
      assert c in Chunks(off, size, page);
    }
  }

  // ---------------------------------------------------------------- erase, write, read

  datatype Record = Record(off: nat, data: seq<Byte>)

  predicate Apart(a: Record, b: Record) {
    a.off + |a.data| <= b.off || b.off + |b.data| <= a.off
  }

  predicate AllApart(writes: seq<Record>) {
    forall i, j :: 0 <= i < j < |writes| ==> Apart(writes[i], writes[j])
  }

  function WriteAll(mem: seq<Byte>, writes: seq<Record>): seq<Byte>
    decreases |writes|
  {
    if writes == [] then mem else WriteAll(Programmed(mem, writes[0].off, writes[0].data), writes[1..])
  }

  predicate Hit(writes: seq<Record>, i: nat) {
    exists k :: 0 <= k < |writes| && In(i, writes[k].off, |writes[k].data|)
  }

  /** A byte that no write covers stays. */
  lemma {:induction false} UnhitByte(mem: seq<Byte>, writes: seq<Record>, i: nat)
    requires i < |mem| && forall k :: 0 <= k < |writes| ==> !In(i, writes[k].off, |writes[k].data|)
    ensures |WriteAll(mem, writes)| == |mem| && WriteAll(mem, writes)[i] == mem[i]
    decreases |writes|
  {
    if writes == [] {
    } else {
      UnhitByte(Programmed(mem, writes[0].off, writes[0].data), writes[1..], i);
    }
  }

  /** A byte is ANDed with the one write that covers it. */
  lemma {:induction false} HitByte(mem: seq<Byte>, writes: seq<Record>, k: nat, i: nat)
    requires AllApart(writes) && k < |writes| && i < |mem| && In(i, writes[k].off, |writes[k].data|)
    ensures |WriteAll(mem, writes)| == |mem|
    ensures WriteAll(mem, writes)[i] == And(mem[i], writes[k].data[i - writes[k].off])
    decreases |writes|
  {
    var mem', rest := Programmed(mem, writes[0].off, writes[0].data), writes[1..];
    if k == 0 {
      forall j | 0 <= j < |rest|
        ensures !In(i, rest[j].off, |rest[j].data|)
      {
        assert Apart(writes[0], writes[j + 1]);
      }
      UnhitByte(mem', rest, i);
    } else {
      assert Apart(writes[0], writes[k]) && rest[k - 1] == writes[k];
      HitByte(mem', rest, k - 1, i);
    }
  }

  lemma {:induction false} WriteAllLength(mem: seq<Byte>, writes: seq<Record>)
    ensures |WriteAll(mem, writes)| == |mem|
    decreases |writes|
  {
    if writes == [] {
    } else {
      WriteAllLength(Programmed(mem, writes[0].off, writes[0].data), writes[1..]);
    }
  }

  /** What writes to disjoint ranges leave behind, byte by byte. */
  lemma WriteAllBytes(mem: seq<Byte>, writes: seq<Record>)
    requires AllApart(writes)
    ensures |WriteAll(mem, writes)| == |mem|
    ensures forall i :: 0 <= i < |mem| && !Hit(writes, i) ==> WriteAll(mem, writes)[i] == mem[i]
    ensures forall k, i :: 0 <= k < |writes| && 0 <= i < |mem| && In(i, writes[k].off, |writes[k].data|) ==>
              WriteAll(mem, writes)[i] == And(mem[i], writes[k].data[i - writes[k].off])
  {
    WriteAllLength(mem, writes);
    forall i | 0 <= i < |mem| && !Hit(writes, i)
      ensures WriteAll(mem, writes)[i] == mem[i]
    {
      UnhitByte(mem, writes, i);
    }
    forall k, i | 0 <= k < |writes| && 0 <= i < |mem| && In(i, writes[k].off, |writes[k].data|)
      ensures WriteAll(mem, writes)[i] == And(mem[i], writes[k].data[i - writes[k].off])
    {
      HitByte(mem, writes, k, i);
    }
  }

  lemma AllOnes(x: Byte)
    ensures And(0xFF, x) == x
  {
  }

  /**
   * Erase a range, write any number of disjoint records inside it in any order, and each record reads
   * back as it was written; every other byte of the erased range still reads 0xFF and nothing outside
   * the range has changed.
   */
  lemma EraseWriteRead(mem: seq<Byte>, off: nat, len: nat, writes: seq<Record>)
    requires off + len <= |mem| && AllApart(writes)
    requires forall k :: 0 <= k < |writes| ==> off <= writes[k].off && writes[k].off + |writes[k].data| <= off + len
    ensures var end := WriteAll(Erased(mem, off, len), writes);
            && |end| == |mem|
            && (forall k :: 0 <= k < |writes| ==>
                  end[writes[k].off..writes[k].off + |writes[k].data|] == writes[k].data)
            && (forall i :: 0 <= i < |mem| && !Hit(writes, i) ==> end[i] == if In(i, off, len) then 0xFF else mem[i])
  {
    var start := Erased(mem, off, len);
    WriteAllBytes(start, writes);
    forall k | 0 <= k < |writes|
      ensures WriteAll(start, writes)[writes[k].off..writes[k].off + |writes[k].data|] == writes[k].data
    {
      RecordReadsBack(start, writes, k);
    }
  }

  lemma RecordReadsBack(start: seq<Byte>, writes: seq<Record>, k: nat)
    requires k < |writes| && AllApart(writes) && writes[k].off + |writes[k].data| <= |start|
    requires forall i :: 0 <= i < |start| && In(i, writes[k].off, |writes[k].data|) ==> start[i] == 0xFF
    ensures |WriteAll(start, writes)| == |start|
    ensures WriteAll(start, writes)[writes[k].off..writes[k].off + |writes[k].data|] == writes[k].data
  {
    WriteAllBytes(start, writes);
    var end, w := WriteAll(start, writes), writes[k];
    forall i | 0 <= i < |start| && In(i, w.off, |w.data|)
      ensures end[i] == w.data[i - w.off]
    {
      assert end[i] == And(start[i], w.data[i - w.off]);
      AllOnes(w.data[i - w.off]);
    }
  }

  lemma WriteAllHead(mem: seq<Byte>, writes: seq<Record>, k: nat)
    requires k < |writes|
    ensures WriteAll(mem, writes[k..]) == WriteAll(Programmed(mem, writes[k].off, writes[k].data), writes[k + 1..])
  {
    assert writes[k..][0] == writes[k] && writes[k..][1..] == writes[k + 1..];
  }

  predicate Inside(w: Record, off: nat, len: nat, page: nat)
    requires 0 < page
  {
    off <= w.off && w.off + |w.data| <= off + len && AllFit(w.off, |w.data|, page)
  }

  /** Every program command after a leading partial page succeeds: the write is reported as done. */
  predicate Reported(w: Record, page: nat, outcomes: nat -> bool)
    requires 0 < page
  {
    forall j :: (if w.off % page != 0 then 1 else 0) <= j < |Chunks(w.off, |w.data|, page)| ==> outcomes(j)
  }

  /** The leading partial page, whose status is lost, succeeds as well. */
  predicate LeadHeld(w: Record, page: nat, outcomes: nat -> bool)
    requires 0 < page
  {
    w.off % page != 0 ==> outcomes(0)
  }

  // ---------------------------------------------------------------- the driver

  /** The lines `read` invalidates are all those of the range. */
  lemma LineInside(off: nat, size: nat, k: nat)
    requires k < size
    ensures off / Cache.LINE <= (off + k) / Cache.LINE < (off + size + Cache.LINE - 1) / Cache.LINE
  {
  }

  class NorFlash {
    const sectorBits: nat
    const sector: nat
    const block: nat
    const page: nat
    var mem: seq<Byte>
    var cache: map<nat, seq<Byte>>     // lines of the memory-mapped flash held by the data cache, possibly stale
    ghost var commands: seq<Command>   // program or erase commands the chip has carried out

    ghost predicate Valid()
      reads this
    {
      && sector == Pow2(sectorBits) && Geometry(sector, block) && 0 < page
      && |mem| + sector <= 0x1_0000_0000
      && (forall l :: l in cache ==> |cache[l]| == Cache.LINE)
    }

    constructor (sectorBits: nat, blockSectors: nat, page: nat, mem: seq<Byte>)
      requires 0 < blockSectors && 0 < page && |mem| + Pow2(sectorBits) <= 0x1_0000_0000
      ensures Valid() && this.mem == mem && this.page == page
      ensures sector == Pow2(sectorBits) && block == blockSectors * sector
    {
      this.sectorBits, this.page, this.mem := sectorBits, page, mem;
      sector, block := Pow2(sectorBits), blockSectors * Pow2(sectorBits);
      cache, commands := map[], [];
      MultipleIs(blockSectors, Pow2(sectorBits));
      MulMono(1, blockSectors, Pow2(sectorBits));
    }

    /** The ROM's page program. When it fails, bits in its range may have been cleared or not. */
    method RomProgram(off: nat, data: seq<Byte>, ok: bool)
      requires Valid() && off + |data| <= |mem| && Fits(Command(off, |data|), page)
      modifies this`mem, this`commands
      ensures Valid() && SameOutside(old(mem), mem, off, |data|)
      ensures ok ==> mem == Programmed(old(mem), off, data)
      ensures commands == old(commands) + [Command(off, |data|)]
    {
      commands := commands + [Command(off, |data|)];
      if ok {
        mem := Programmed(mem, off, data);
      } else if * {
        mem := Programmed(mem, off, data);
      }
    }

    /** The ROM's block or sector erase. When it fails, bytes in its range may have been erased or not. */
    method RomErase(off: nat, len: nat, ok: bool)
      requires Valid() && off + len <= |mem| && (len == sector || len == block) && off % len == 0
      modifies this`mem, this`commands
      ensures Valid() && SameOutside(old(mem), mem, off, len)
      ensures ok ==> mem == Erased(old(mem), off, len)
      ensures commands == old(commands) + [Command(off, len)]
    {
      commands := commands + [Command(off, len)];
      if ok {
        mem := Erased(mem, off, len);
      } else if * {
        mem := Erased(mem, off, len);
      }
    }

    /**
     * `erase`, the chip answering its commands with `outcomes` in order. It returns the size, or -1 at the
     * first command that fails. Nothing outside the range, rounded up to whole sectors, changes; on
     * success all of it is erased.
     */
    method Erase(off: nat, size: nat, outcomes: nat -> bool) returns (ret: int)
      requires Valid() && off % sector == 0 && off + RoundUp(size, sector) <= |mem|
      modifies this`mem, this`commands
      ensures Valid() && SameOutside(old(mem), mem, off, RoundUp(size, sector))
      ensures var plan := ErasePlan(off, RoundUp(size, sector), sector, block);
              && ret == (if forall k :: 0 <= k < |plan| ==> outcomes(k) then size else -1)
              && (ret == size ==>
                    commands == old(commands) + plan && mem == Erased(old(mem), off, RoundUp(size, sector)))
    {
      RoundUpIs(size, sector);
      ClearLowIsFloor(size + sector - 1, sectorBits);
      var ok := EraseLoop(off, ClearLow(size + sector - 1, sectorBits), outcomes);
      ret := if ok then size else -1;
    }

    /** The loop of `erase`, over a length that is already a whole number of sectors. */
    method EraseLoop(off: nat, total: nat, outcomes: nat -> bool) returns (ok: bool)
      requires Valid() && off % sector == 0 && total % sector == 0 && off + total <= |mem|
      modifies this`mem, this`commands
      ensures Valid() && SameOutside(old(mem), mem, off, total)
      ensures var plan := ErasePlan(off, total, sector, block);
              && (ok <==> forall k :: 0 <= k < |plan| ==> outcomes(k))
              && (ok ==> commands == old(commands) + plan && mem == Erased(old(mem), off, total))
    {
      ghost var plan, end := ErasePlan(off, total, sector, block), Erased(mem, off, total);
      LeadsFrom(mem, off, total, sector, block);
      var cur: nat, aligned: nat, k: nat := off, total, 0;
      while aligned > 0
        invariant Valid() && SameOutside(old(mem), mem, off, total)
        invariant off <= cur && cur % sector == 0 && aligned % sector == 0 && cur + aligned == off + total
        invariant Leads(plan, k, mem, cur, aligned, sector, block, end) && commands == old(commands) + plan[..k]
        invariant forall j :: 0 <= j < k ==> outcomes(j)
        decreases aligned
      {
        var unit := NextErase(cur, aligned, outcomes(k), plan, k, end, off, total, old(mem));
        if !outcomes(k) {
          return false;
        }
        cur, aligned, k := cur + unit, aligned - unit, k + 1;
      }
      ok := true;
    }

    /** One turn of the erase loop: the command the rest of the plan starts with. */
    method NextErase(cur: nat, aligned: nat, ok: bool, ghost plan: seq<Command>, ghost k: nat, ghost end: seq<Byte>,
                     ghost off: nat, ghost total: nat, ghost was: seq<Byte>)
      returns (unit: nat)
      requires Valid() && cur % sector == 0 && aligned % sector == 0 && 0 < aligned
      requires off <= cur && cur + aligned == off + total <= |mem| && SameOutside(was, mem, off, total)
      requires Leads(plan, k, mem, cur, aligned, sector, block, end)
      modifies this`mem, this`commands
      ensures Valid() && SameOutside(was, mem, off, total)
      ensures 0 < unit <= aligned && (aligned - unit) % sector == 0 && (cur + unit) % sector == 0
      ensures k < |plan| && commands == old(commands) + [plan[k]]
      ensures ok ==> Leads(plan, k + 1, mem, cur + unit, aligned - unit, sector, block, end)
    {
      UnitFits(cur, aligned, sector, block);
      LeadsOn(plan, k, mem, cur, aligned, sector, block, end);
      unit := EraseUnit(cur, aligned, sector, block);
      ghost var mid := mem;
      RomErase(cur, unit, ok);
      SameOutsideOn(was, mid, mem, off, total, cur, unit);
    }

    /**
     * `write`, of anything that its commands keep within pages and staging buffer; with 256-byte pages that is
     * everything. The status of a leading partial page is looked at through an unsigned variable and never
     * stops the call: it returns the size when every later command succeeds. So the data is there for sure
     * exactly when that first command succeeded too, or there was none.
     */
    method Write(off: nat, buf: seq<Byte>, outcomes: nat -> bool) returns (ret: int)
      requires Valid() && off + |buf| <= |mem| && AllFit(off, |buf|, page)
      modifies this`mem, this`commands
      ensures Valid() && SameOutside(old(mem), mem, off, |buf|)
      ensures var plan := Chunks(off, |buf|, page);
              var lead := if off % page != 0 then 1 else 0;
              && ret == (if forall k :: lead <= k < |plan| ==> outcomes(k) then |buf| else -1)
              && (ret == |buf| ==> commands == old(commands) + plan)
              && (ret == |buf| && (lead == 1 ==> outcomes(0)) ==> mem == Programmed(old(mem), off, buf))
    {
      ghost var plan := Chunks(off, |buf|, page);
      LeadAndRestFit(off, |buf|, page);
      var lead, n := if off % page != 0 then 1 else 0, 0;
      if off % page != 0 {
        LeadProgram(off, buf, outcomes(0));
        // the comparison of an unsigned status with zero is false here whatever the outcome
        n := FirstChunk(off, |buf|, page);
      }
      assert |plan| == lead + |FullChunks(off + n, |buf| - n)| && (n == 0 ==> buf[n..] == buf);
      var ok := ProgramPages(off + n, buf[n..], outcomes, lead);
      ret := if ok then |buf| else -1;
    }

    /** The main loop: whole pages, then what is left. The first command is the one numbered `first`. */
    method ProgramPages(off: nat, buf: seq<Byte>, outcomes: nat -> bool, first: nat) returns (ok: bool)
      requires Valid() && off + |buf| <= |mem| && EachFits(FullChunks(off, |buf|), page)
      modifies this`mem, this`commands
      ensures Valid() && SameOutside(old(mem), mem, off, |buf|)
      ensures ok <==> forall k :: first <= k < first + |FullChunks(off, |buf|)| ==> outcomes(k)
      ensures ok ==> commands == old(commands) + FullChunks(off, |buf|) && mem == Programmed(old(mem), off, buf)
    {
      ghost var all := commands + FullChunks(off, |buf|);
      var cur, rest, k := off, buf, first;
      while |rest| > 0
        invariant first <= k && Valid() && SameOutside(old(mem), mem, off, |buf|)
        invariant off <= cur && cur + |rest| == off + |buf| && EachFits(FullChunks(cur, |rest|), page)
        invariant first + |FullChunks(off, |buf|)| == k + |FullChunks(cur, |rest|)|
        invariant commands + FullChunks(cur, |rest|) == all
        invariant Programmed(mem, cur, rest) == Programmed(old(mem), off, buf)
        invariant forall j :: first <= j < k ==> outcomes(j)
        decreases |rest|
      {
        ghost var mid := mem;
        var size := NextProgram(cur, rest, outcomes(k), all);
        SameOutsideOn(old(mem), mid, mem, off, |buf|, cur, |rest|);
        if !outcomes(k) {
          return false;
        }
        cur, rest, k := cur + size, rest[size..], k + 1;
      }
      assert Programmed(mem, cur, rest) == mem;
      ok := true;
    }

    /** The leading partial page, up to the page's end or to that of the data. */
    method LeadProgram(off: nat, buf: seq<Byte>, ok: bool)
      requires Valid() && off % page != 0 && off + |buf| <= |mem|
      requires Fits(Command(off, FirstChunk(off, |buf|, page)), page)
      modifies this`mem, this`commands
      ensures Valid() && SameOutside(old(mem), mem, off, |buf|)
      ensures var n := FirstChunk(off, |buf|, page);
              && n <= |buf| && (n < |buf| ==> n == page - off % page)
              && |Chunks(off, |buf|, page)| == 1 + |FullChunks(off + n, |buf| - n)|
              && commands + FullChunks(off + n, |buf| - n) == old(commands) + Chunks(off, |buf|, page)
              && (ok ==> Programmed(mem, off + n, buf[n..]) == Programmed(old(mem), off, buf))
    {
      var n := FirstChunk(off, |buf|, page);
      ghost var more := FullChunks(off + n, |buf| - n);
      assert buf == buf[..n] + buf[n..];
      ProgrammedTwice(mem, off, buf[..n], buf[n..]);
      RomProgram(off, buf[..n], ok);
      assert old(commands) + [Command(off, n)] + more == old(commands) + ([Command(off, n)] + more);
    }

    /** One turn of the program loop. */
    method NextProgram(cur: nat, rest: seq<Byte>, ok: bool, ghost all: seq<Command>) returns (size: nat)
      requires Valid() && 0 < |rest| && cur + |rest| <= |mem| && EachFits(FullChunks(cur, |rest|), page)
      requires commands + FullChunks(cur, |rest|) == all
      modifies this`mem, this`commands
      ensures Valid() && SameOutside(old(mem), mem, cur, |rest|)
      ensures 0 < size <= |rest| && EachFits(FullChunks(cur + size, |rest| - size), page)
      ensures |FullChunks(cur, |rest|)| == 1 + |FullChunks(cur + size, |rest| - size)|
      ensures commands + FullChunks(cur + size, |rest| - size) == all
      ensures ok ==> Programmed(mem, cur + size, rest[size..]) == Programmed(old(mem), cur, rest)
    {
      size := Min(|rest|, STAGING);
      FirstAndRestFit(cur, |rest|, page);
      ghost var more := FullChunks(cur + size, |rest| - size);
      assert rest == rest[..size] + rest[size..];
      ProgrammedTwice(mem, cur, rest[..size], rest[size..]);
      RomProgram(cur, rest[..size], ok);
      assert commands + more == old(commands) + FullChunks(cur, |rest|);
    }

    /** `l1c_dc_invalidate` on whole lines. */
    method Invalidate(from: nat, to: nat)
      requires Valid() && from % Cache.LINE == 0 && to % Cache.LINE == 0
      modifies this`cache
      ensures Valid() && forall l :: l in cache ==> !(from / Cache.LINE <= l < to / Cache.LINE)
    {
      cache := map l | l in cache && !(from / Cache.LINE <= l < to / Cache.LINE) :: cache[l];
    }

    /** A load of one byte: from the cache if the line is there. */
    function Load(i: nat): Byte
      requires Valid() && i < |mem|
      reads this
    {
      if i / Cache.LINE in cache then cache[i / Cache.LINE][i % Cache.LINE] else mem[i]
    }

    /** `read`: whatever the cache held, the caller gets what the chip holds. */
    method Read(off: nat, size: nat) returns (buf: seq<Byte>, ret: nat)
      requires Valid() && off + size <= |mem|
      modifies this`cache
      ensures Valid() && ret == size && buf == mem[off..off + size]
    {
      Invalidate(off / Cache.LINE * Cache.LINE, (off + size + Cache.LINE - 1) / Cache.LINE * Cache.LINE);
      forall x | off <= x < off + size
        ensures Load(x) == mem[x]
      {
        LineInside(off, size, x - off);
      }
      buf := [];
      for k := 0 to size
        invariant buf == mem[off..off + k]
      {
        assert mem[off..off + k + 1] == mem[off..off + k] + [mem[off + k]];
        buf := buf + [Load(off + k)];
      }
      ret := size;
    }

    // -------------------------------------------------------------- a session

    /** Between two calls the CPU loads whatever it likes, and the lines stay in the cache until they are dropped. */
    method CpuLoads()
      requires Valid()
      modifies this`cache
      ensures Valid()
    {
      var n: int := *;
      for i := 0 to if n < 0 then 0 else n
        invariant Valid()
      {
        var l: int := *;
        if 0 <= l && l * Cache.LINE + Cache.LINE <= |mem| {
          var from := l * Cache.LINE;
          cache := cache[l := mem[from..from + Cache.LINE]];
        }
      }
    }

    method WriteRecord(w: Record, outcomes: nat -> bool, ghost off: nat, ghost len: nat, ghost was: seq<Byte>)
      returns (ok: bool)
      requires Valid() && off + len <= |mem| && Inside(w, off, len, page) && SameOutside(was, mem, off, len)
      modifies this`mem, this`commands
      ensures Valid() && SameOutside(was, mem, off, len)
      ensures ok <==> Reported(w, page, outcomes)
      ensures ok && LeadHeld(w, page, outcomes) ==> mem == Programmed(old(mem), w.off, w.data)
    {
      ghost var mid := mem;
      var ret := Write(w.off, w.data, outcomes);
      SameOutsideOn(was, mid, mem, off, len, w.off, |w.data|);
      ok := ret == |w.data|;
    }

    method WriteRecords(writes: seq<Record>, outcomes: nat -> nat -> bool, ghost off: nat, ghost len: nat)
      returns (ok: bool)
      requires Valid() && off + len <= |mem| && forall k :: 0 <= k < |writes| ==> Inside(writes[k], off, len, page)
      modifies this`mem, this`commands, this`cache
      ensures Valid() && SameOutside(old(mem), mem, off, len)
      ensures ok <==> forall k :: 0 <= k < |writes| ==> Reported(writes[k], page, outcomes(k))
      ensures ok && (forall k :: 0 <= k < |writes| ==> LeadHeld(writes[k], page, outcomes(k))) ==>
                mem == WriteAll(old(mem), writes)
    {
      ghost var end := WriteAll(mem, writes);
      for k := 0 to |writes|
        invariant Valid() && SameOutside(old(mem), mem, off, len)
        invariant forall j :: 0 <= j < k ==> Reported(writes[j], page, outcomes(j))
        invariant (forall j :: 0 <= j < k ==> LeadHeld(writes[j], page, outcomes(j))) ==>
                    WriteAll(mem, writes[k..]) == end
      {
        WriteAllHead(mem, writes, k);
        ok := WriteRecord(writes[k], outcomes(k), off, len, old(mem));
        if !ok {
          return;
        }
        CpuLoads();
      }
      ok := true;
    }

    method ReadRecords(writes: seq<Record>) returns (backs: seq<seq<Byte>>)
      requires Valid() && forall k :: 0 <= k < |writes| ==> writes[k].off + |writes[k].data| <= |mem|
      modifies this`cache
      ensures Valid() && |backs| == |writes|
      ensures forall k :: 0 <= k < |writes| ==> backs[k] == mem[writes[k].off..writes[k].off + |writes[k].data|]
    {
      backs := [];
      for k := 0 to |writes|
        invariant Valid() && |backs| == k
        invariant forall j :: 0 <= j < k ==> backs[j] == mem[writes[j].off..writes[j].off + |writes[j].data|]
      {
        CpuLoads();
        var back, _ := Read(writes[k].off, |writes[k].data|);
        backs := backs + [back];
      }
    }

    /**
     * A session of calls: erase a range, write disjoint records into it, read them back, with the CPU loading
     * anything in between. It goes through exactly when all erase commands and all program commands but the
     * leading ones succeed. If the leading ones succeeded too, every record reads back as it was written and
     * the rest of the range is erased; and whatever failed, nothing outside the range has changed.
     */
    method Session(off: nat, size: nat, writes: seq<Record>, erases: nat -> bool, programs: nat -> nat -> bool)
      returns (ok: bool, backs: seq<seq<Byte>>)
      requires Valid() && off % sector == 0 && off + RoundUp(size, sector) <= |mem| && AllApart(writes)
      requires forall k :: 0 <= k < |writes| ==> Inside(writes[k], off, RoundUp(size, sector), page)
      modifies this`mem, this`commands, this`cache
      ensures Valid() && SameOutside(old(mem), mem, off, RoundUp(size, sector))
      ensures ok <==> && (forall k :: 0 <= k < |ErasePlan(off, RoundUp(size, sector), sector, block)| ==> erases(k))
                      && (forall k :: 0 <= k < |writes| ==> Reported(writes[k], page, programs(k)))
      ensures ok && (forall k :: 0 <= k < |writes| ==> LeadHeld(writes[k], page, programs(k))) ==>
                && |backs| == |writes| && (forall k :: 0 <= k < |writes| ==> backs[k] == writes[k].data)
                && forall i :: 0 <= i < |mem| && In(i, off, RoundUp(size, sector)) && !Hit(writes, i) ==> mem[i] == 0xFF
    {
      ghost var len := RoundUp(size, sector);
      ok, backs := false, [];
      CpuLoads();
      var ret := Erase(off, size, erases);
      if ret != size {
        return;
      }
      CpuLoads();
      ghost var mid := mem;
      ok := WriteRecords(writes, programs, off, len);
      SameOutsideOn(old(mem), mid, mem, off, len, off, len);
      if !ok {
        return;
      }
      backs := ReadRecords(writes);
      EraseWriteRead(old(mem), off, len, writes);
    }
  }
}
