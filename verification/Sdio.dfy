/**
 * The data path of an SD host request: a caller's buffer, a data cache of 64-byte lines, an optional
 * bounce buffer and a DMA engine that sees only main memory. To the caller and the card it must be a
 * plain copy.
 */
module Sdio {

  import opened Arithmetic
  import opened Bytes
  import opened Cache

  /** Transfer sizes the DMA engine can handle are multiples of this. */
  const ADMA_ALIGN: nat := 4

  /** CMD53. */
  const SD_IO_RW_EXTENDED: nat := 53

  predicate Zeros(image: seq<Byte>, from: nat, to: nat) {
    forall x :: from <= x < to && x < |image| ==> image[x] == 0
  }

  lemma ZerosAre(image: seq<Byte>, from: nat, to: nat, n: nat)
    requires Zeros(image, from, to) && from + n <= to && from + n <= |image|
    ensures image[from..from + n] == seq(n, _ => 0)
  {
  }

  /** `HPM_ALIGN_UP` to the engine's transfer size. */
  function WordUp(n: nat): nat {
    (n + 3) / 4 * 4
  }

  // ---------------------------------------------------------------- the CMD53 argument

  /** `sdio_cmd53_arg_t`, field by field. */
  datatype Cmd53 = Cmd53(count: nat, regAddr: nat, opCode: nat, blockMode: nat, func: nat, rw: nat)

  predicate FieldsFit(c: Cmd53) {
    c.count < 0x200 && c.regAddr < 0x2_0000 && c.opCode < 2 && c.blockMode < 2 && c.func < 8 && c.rw < 2
  }

  function Pack(c: Cmd53): nat {
    c.count + 0x200 * (c.regAddr + 0x2_0000 * (c.opCode + 2 * (c.blockMode + 2 * (c.func + 8 * c.rw))))
  }

  function Unpack(arg: nat): Cmd53 {
    var a := arg / 0x200;
    var b := a / 0x2_0000;
    var c := b / 2;
    var d := c / 2;
    Cmd53(arg % 0x200, a % 0x2_0000, b % 2, c % 2, d % 8, d / 8)
  }

  /** Where the fields lie (SDIO Simplified Specification, section 5.3): bits 0, 9, 26, 27, 28 and 31 onwards. */
  lemma FieldsLieAt(c: Cmd53)
    ensures Pack(c) == c.count + 0x200 * c.regAddr + 0x400_0000 * c.opCode + 0x800_0000 * c.blockMode
                       + 0x1000_0000 * c.func + 0x8000_0000 * c.rw
  {
  }

  /** The two views of the argument word are inverse to each other. */
  lemma UnpackPack(c: Cmd53)
    requires FieldsFit(c)
    ensures Unpack(Pack(c)) == c && Pack(c) < 0x1_0000_0000
  {
    var d := c.func + 8 * c.rw;
    var e := c.blockMode + 2 * d;
    var b := c.opCode + 2 * e;
    var a := c.regAddr + 0x2_0000 * b;
    assert d / 8 == c.rw && e / 2 == d && b / 2 == e && a / 0x2_0000 == b && Pack(c) / 0x200 == a;
  }

  lemma PackUnpack(arg: nat)
    requires arg < 0x1_0000_0000
    ensures FieldsFit(Unpack(arg)) && Pack(Unpack(arg)) == arg
  {
  }

  /** Assigning to the 9-bit `count` field. */
  function SetCount(arg: nat, count: nat): nat {
    Pack(Unpack(arg).(count := count % 0x200))
  }

  /** What a card reads from `count` in byte mode: 0 stands for 512 (SDIO Simplified Specification, section 5.3). */
  function ByteCount(arg: nat): nat {
    var count := Unpack(arg).count;
    if count == 0 then 512 else count
  }

  /** Rewriting the count changes no other field. */
  lemma SetCountKeepsRest(arg: nat, count: nat)
    requires arg < 0x1_0000_0000
    ensures SetCount(arg, count) < 0x1_0000_0000
    ensures Unpack(SetCount(arg, count)) == Unpack(arg).(count := count % 0x200)
  {
    PackUnpack(arg);
    UnpackPack(Unpack(arg).(count := count % 0x200));
  }

  /** The card reads the padded length, 512 included. */
  lemma PaddedCountIsRead(arg: nat, len: nat)
    requires arg < 0x1_0000_0000 && 0 < len <= 512
    ensures ByteCount(SetCount(arg, WordUp(len))) == WordUp(len)
  {
    var padded := WordUp(len);
    SetCountKeepsRest(arg, padded);
    assert 0 < padded <= 512;
    assert padded % 0x200 == if padded == 512 then 0 else padded;
  }

  /** Bytes the host moves for a CMD53 request: the padded length becomes the block size, the block count stays. */
  function MovedBytes(cmd53: bool, blks: nat, blksize: nat): nat {
    if cmd53 && blks * blksize % ADMA_ALIGN != 0 then WordUp(blks * blksize) * blks else blks * blksize
  }

  /** Padding is right exactly for single-block requests; with more blocks the host moves a multiple of it. */
  lemma PaddingRightIffOneBlock(blks: nat, blksize: nat)
    requires blks * blksize % ADMA_ALIGN != 0
    ensures MovedBytes(true, blks, blksize) == WordUp(blks * blksize) <==> blks == 1
  {
    var padded := WordUp(blks * blksize);
    assert padded > 0;
    if blks > 1 {
      assert padded * blks == padded + padded * (blks - 1);
      assert padded * (blks - 1) > 0;
    }
  }

  lemma WordUpIs(n: nat)
    ensures n <= WordUp(n) < n + 4 && WordUp(n) % 4 == 0
  {
  }

  lemma FourDivides(n: nat)
    requires n % LINE == 0
    ensures n % 4 == 0
  {
    assert n == 4 * (16 * (n / 64));
  }

  lemma NextMultiple(n: nat, w: nat, l: nat)
    requires n <= w < n + 4 && w % 4 == 0 && n <= l && l % 4 == 0
    ensures w <= l
  {
  }

  /** A length that needs padding is never a whole number of cache lines, so it always takes the bounce buffer. */
  lemma PaddedMeansBounced(buf: nat, len: nat)
    requires len % ADMA_ALIGN != 0
    ensures Bounced(buf, len) && len < WordUp(len) <= LineUp(len)
  {
    if len % LINE == 0 {
      FourDivides(len);
    }
    WordUpIs(len);
    LineUpIs(len, 0);
    FourDivides(LineUp(len));
    NextMultiple(len, WordUp(len), LineUp(len));
  }

  /**
   * What the card receives when so many bytes are moved from the bounce buffer at `start`: the caller's, zeros
   * up to the end of the last line, and beyond it whatever main memory holds there.
   */
  function OnTheWire(bytes: seq<Byte>, ram: seq<Byte>, start: nat, end: nat, moved: nat): seq<Byte>
    requires |bytes| <= moved && |bytes| <= end && (moved <= end || start + moved <= |ram|)
  {
    if moved <= end then bytes + seq(moved - |bytes|, _ => 0)
    else bytes + seq(end - |bytes|, _ => 0) + ram[start + end..start + moved]
  }

  /** It is sent from there, if the bytes and the zeros are in place. */
  lemma WireIs(image: seq<Byte>, ram: seq<Byte>, start: nat, len: nat, end: nat, moved: nat)
    requires len <= moved && len <= end && start + moved <= |image| == |ram| && start + end <= |ram|
    requires Zeros(image, start + len, start + end)
    ensures var clean := if moved <= end then moved else end;
            image[start..start + clean] + ram[start + clean..start + moved]
            == OnTheWire(image[start..start + len], ram, start, end, moved)
  {
    var clean := if moved <= end then moved else end;
    ZerosAre(image, start + len, start + end, clean - len);
    assert image[start..start + clean] == image[start..start + len] + image[start + len..start + clean];
    assert moved <= end ==> ram[start + clean..start + moved] == [];
  }

  /**
   * A padded request of one block moves no more than the last line of the bounce buffer, one of several blocks
   * always more if its bytes fill a line. Shorter ones may still fit.
   */
  lemma BeyondIff(blks: nat, blksize: nat)
    requires blks * blksize % ADMA_ALIGN != 0
    ensures var len, moved := blks * blksize, MovedBytes(true, blks, blksize);
            && (blks == 1 ==> moved <= LineUp(len))
            && (LINE <= len ==> (moved > LineUp(len) <==> blks > 1))
  {
    var len := blks * blksize;
    PaddedMeansBounced(0, len);
    if blks > 1 {
      MulMono(2, blks, WordUp(len));
    }
  }

  /** What is moved is at least what was asked for, and more only by way of the bounce buffer. */
  lemma MovedFits(buf: nat, blks: nat, blksize: nat, cmd53: bool)
    ensures var len, moved := blks * blksize, MovedBytes(cmd53, blks, blksize);
            && len <= moved && (moved == len || Bounced(buf, len))
            && (blks == 1 ==> moved == (if cmd53 then WordUp(len) else len) && moved <= LineUp(len))
  {
    var len := blks * blksize;
    if cmd53 && len % ADMA_ALIGN != 0 {
      PaddedMeansBounced(buf, len);
      MulMono(1, blks, WordUp(len));
    } else {
      WordUpIs(len);
      LineUpIs(len, 0);
      assert len % 4 == 0 ==> WordUp(len) == len;
    }
  }

  predicate Bounced(buf: nat, len: nat) {
    buf % LINE != 0 || len % LINE != 0
  }

  // ---------------------------------------------------------------- the driver

  /** Two pictures of memory agree except perhaps inside a range. */
  ghost predicate SameOutside(a: seq<Byte>, b: seq<Byte>, from: nat, len: nat) {
    |a| == |b| && forall x :: 0 <= x < |a| && !(from <= x < from + len) ==> a[x] == b[x]
  }

  /** They agree except perhaps inside two ranges. */
  ghost predicate SameOutsideBoth(a: seq<Byte>, b: seq<Byte>, from: nat, len: nat, from': nat, len': nat) {
    && |a| == |b|
    && forall x :: 0 <= x < |a| && !(from <= x < from + len) && !(from' <= x < from' + len') ==> a[x] == b[x]
  }

  lemma PrefixStored(now: seq<Byte>, to: nat, data: seq<Byte>, len: nat)
    requires len <= |data| && to + |data| <= |now| && now[to..to + |data|] == data
    ensures now[to..to + len] == data[..len]
  {
    assert now[to..to + len] == now[to..to + |data|][..len];
  }

  /** The data part of a request, if it has one. */
  datatype Data = NoData | Data(buf: nat, blks: nat, blksize: nat, write: bool)

  /** The argument the card is sent: CMD53 gets the padded length. */
  function CardArg(cmdCode: nat, len: nat, arg: nat): nat {
    if cmdCode == SD_IO_RW_EXTENDED && len % ADMA_ALIGN != 0 then SetCount(arg, WordUp(len)) else arg
  }

  /** The card is told what is moved when that is one padded block; nothing else of its argument changes. */
  lemma CardIsTold(data: Data, cmdCode: nat, arg: nat)
    requires data.Data? && arg < 0x1_0000_0000
    ensures var len, told := Len(data), CardArg(cmdCode, Len(data), arg);
            if cmdCode == SD_IO_RW_EXTENDED && len % ADMA_ALIGN != 0 then
              && told < 0x1_0000_0000 && Unpack(told) == Unpack(arg).(count := WordUp(len) % 0x200)
              && (data.blks == 1 && len <= 512 ==> ByteCount(told) == Moves(data, cmdCode) == WordUp(len))
            else told == arg
  {
    var len := Len(data);
    if cmdCode == SD_IO_RW_EXTENDED && len % ADMA_ALIGN != 0 {
      SetCountKeepsRest(arg, WordUp(len));
      if data.blks == 1 && len <= 512 {
        PaddedCountIsRead(arg, len);
        PaddingRightIffOneBlock(data.blks, data.blksize);
      }
    }
  }

  function Len(data: Data): nat
    requires data.Data?
  {
    data.blks * data.blksize
  }

  function Moves(data: Data, cmdCode: nat): (moved: nat)
    requires data.Data?
    ensures Len(data) <= moved && (moved == Len(data) || Bounced(data.buf, Len(data)))
    ensures data.blks == 1 ==> moved <= LineUp(Len(data))
  {
    MovedFits(data.buf, data.blks, data.blksize, cmdCode == SD_IO_RW_EXTENDED);
    MovedBytes(cmdCode == SD_IO_RW_EXTENDED, data.blks, data.blksize)
  }

  class Mmcsd {
    const dataBuf: nat
    const dataBufSize: nat
    const noncacheable: bool
    var mem: Mem
    var sent: seq<Byte>            // what the card received in the last request
    ghost var image: seq<Byte>     // what the CPU reads, address by address

    /** The bounce buffer is whole lines; when it is in non-cacheable memory no line of it is ever cached. */
    ghost predicate Valid()
      reads this
    {
      && Coherent(mem)
      && dataBuf % LINE == 0 && dataBufSize % LINE == 0 && dataBuf + dataBufSize <= |mem.ram|
      && (noncacheable ==> Uncached(mem, dataBuf, dataBufSize))
      && |image| == |mem.ram|
      && forall x {:trigger View(mem, x)} :: 0 <= x < |image| ==> image[x] == View(mem, x)
    }

    constructor (ram: seq<Byte>, dataBuf: nat, dataBufSize: nat, noncacheable: bool)
      requires |ram| % LINE == 0 && dataBuf % LINE == 0 && dataBufSize % LINE == 0
      requires dataBuf + dataBufSize <= |ram|
      ensures Valid() && mem == Mem(ram, map[]) && image == ram
    {
      this.dataBuf, this.dataBufSize, this.noncacheable := dataBuf, dataBufSize, noncacheable;
      mem, sent, image := Mem(ram, map[]), [], ram;
    }

    predicate InBounce(a: nat) {
      dataBuf <= a < dataBuf + dataBufSize
    }

    /** The cache may give up a line, written back if need be, to make room. */
    method Evict()
      requires Valid()
      modifies this`mem
      ensures Valid()
    {
      var l: int := *;
      if 0 <= l {
        FlushLineView(mem, l);
        mem := FlushLine(mem, l);
      }
    }

    /** One CPU load: the line may be fetched, unless it is not cacheable, and others may have to go. */
    method CpuLoad(a: nat) returns (b: Byte)
      requires Valid() && a < |image|
      modifies this`mem
      ensures Valid() && b == image[a]
    {
      Evict();
      b := View(mem, a);
      var fetch: bool := *;
      if fetch && !(noncacheable && InBounce(a)) {
        FetchLineView(mem, a);
        if noncacheable {
          FetchKeepsUncached(mem, a, dataBuf, dataBufSize);
        }
        mem := FetchLine(mem, a);
      }
    }

    method CpuStore(a: nat, b: Byte)
      requires Valid() && a < |image|
      modifies this`mem, this`image
      ensures Valid() && image == old(image)[a := b]
    {
      Evict();
      var fetch := false;
      if !(noncacheable && InBounce(a)) {
        fetch := *;
      }
      StoreView(mem, a, b, fetch);
      if noncacheable {
        StoreKeepsUncached(mem, a, b, fetch, dataBuf, dataBufSize);
      }
      mem, image := Store(mem, a, b, fetch), image[a := b];
    }

    /** `rt_memcpy` between buffers that do not overlap. */
    method MemCopy(to: nat, from: nat, len: nat)
      requires Valid() && to + len <= |image| && from + len <= |image|
      requires to + len <= from || from + len <= to
      modifies this`mem, this`image
      ensures Valid() && SameOutside(old(image), image, to, len)
      ensures image[to..to + len] == old(image)[from..from + len]
    {
      for i := 0 to len
        invariant Valid() && SameOutside(old(image), image, to, i)
        invariant forall x :: to <= x < to + i ==> image[x] == old(image)[x - to + from]
      {
        var b := CpuLoad(from + i);
        CpuStore(to + i, b);
      }
    }

    method MemZero(to: nat, len: nat)
      requires Valid() && to + len <= |image|
      modifies this`mem, this`image
      ensures Valid() && SameOutside(old(image), image, to, len)
      ensures Zeros(image, to, to + len)
    {
      for i := 0 to len
        invariant Valid() && SameOutside(old(image), image, to, i)
        invariant Zeros(image, to, to + i)
      {
        CpuStore(to + i, 0);
      }
    }

    /** `l1c_dc_flush`: whole lines only. Nothing the CPU sees changes. */
    method CacheFlush(start: nat, size: nat)
      requires Valid() && start % LINE == 0 && size % LINE == 0
      modifies this`mem
      ensures Valid() && Uncached(mem, start, size)
    {
      var l := start / LINE;
      while l < (start + size) / LINE
        invariant start / LINE <= l <= (start + size) / LINE
        invariant Valid()
        invariant forall k :: start / LINE <= k < l ==> k !in mem.cache
      {
        FlushLineView(mem, l);
        mem := FlushLine(mem, l);
        l := l + 1;
      }
    }

    /** `l1c_dc_invalidate`: what was written to these lines and not yet to memory is gone. */
    method CacheInvalidate(start: nat, size: nat)
      requires Valid() && start % LINE == 0 && size % LINE == 0
      modifies this`mem, this`image
      ensures Valid() && SameOutside(old(image), image, start, size) && Uncached(mem, start, size)
    {
      var l := start / LINE;
      while l < (start + size) / LINE
        invariant start / LINE <= l <= (start + size) / LINE
        invariant Valid() && SameOutside(old(image), image, start, size)
        invariant forall k :: start / LINE <= k < l ==> k !in mem.cache
      {
        DropLineView(mem, l);
        mem := DropLine(mem, l);
        image := seq(|image|, x requires 0 <= x < |image| && |image| == |mem.ram| && Coherent(mem) reads this =>
                                View(mem, x));
        l := l + 1;
      }
    }

    /** The engine sends main memory to the card: what the CPU reads, as far as nothing of it is cached. */
    method DmaSend(from: nat, len: nat, ghost clean: nat)
      requires Valid() && clean <= len && from + len <= |image| && Uncached(mem, from, clean)
      modifies this`sent
      ensures Valid() && sent == image[from..from + clean] + mem.ram[from + clean..from + len]
    {
      forall a | from <= a < from + clean
        ensures mem.ram[a] == image[a]
      {
        assert image[a] == View(mem, a);
      }
      assert mem.ram[from..from + len] == mem.ram[from..from + clean] + mem.ram[from + clean..from + len];
      sent := mem.ram[from..from + len];
    }

    /** The engine stores what the card sends; it must not do so under a cached line. */
    method DmaReceive(to: nat, data: seq<Byte>)
      requires Valid() && to + |data| <= |image| && Uncached(mem, to, |data|)
      modifies this`mem, this`image
      ensures Valid() && SameOutside(old(image), image, to, |data|) && image[to..to + |data|] == data
    {
      DmaStoredView(mem, to, data);
      mem, image := DmaStored(mem, to, data), image[..to] + data + image[to + |data|..];
    }

    /** Copy into the bounce buffer and zero the rest of the last line. */
    method FillBounce(buf: nat, len: nat)
      requires Valid() && buf + len <= |image| && len <= dataBufSize
      requires buf + len <= dataBuf || dataBuf + dataBufSize <= buf
      modifies this`mem, this`image
      ensures Valid() && SameOutside(old(image), image, dataBuf, dataBufSize)
      ensures image[dataBuf..dataBuf + len] == old(image)[buf..buf + len]
      ensures Zeros(image, dataBuf + len, dataBuf + LineUp(len))
    {
      LineUpIs(len, dataBufSize);
      MemCopy(dataBuf, buf, len);
      ghost var copied := image;
      MemZero(dataBuf + len, LineUp(len) - len);
      assert image[dataBuf..dataBuf + len] == copied[dataBuf..dataBuf + len];
    }

    /** The write half of the request: where the engine is to read from. */
    method PrepareWrite(buf: nat, len: nat) returns (tx: nat)
      requires Valid() && buf + len <= |image| && (Bounced(buf, len) ==> len <= dataBufSize)
      requires buf + len <= dataBuf || dataBuf + dataBufSize <= buf
      modifies this`mem, this`image
      ensures Valid() && SameOutside(old(image), image, dataBuf, dataBufSize)
      ensures tx == if Bounced(buf, len) then dataBuf else buf
      ensures tx + LineUp(len) <= |image| && Uncached(mem, tx, LineUp(len))
      ensures image[tx..tx + len] == old(image)[buf..buf + len]
      ensures Bounced(buf, len) ==> Zeros(image, tx + len, tx + LineUp(len))
    {
      var aligned, maintain := len, true;
      LineUpIs(len, dataBufSize);
      tx := buf;
      if buf % LINE != 0 || len % LINE != 0 {
        aligned := LineUp(len);
        FillBounce(buf, len);
        tx := dataBuf;
        maintain := !noncacheable;
      }
      assert buf % LINE == 0 && len % LINE == 0 ==> aligned == LineUp(len);
      assert tx % LINE == 0 && aligned == LineUp(len);
      if maintain {
        CacheFlush(tx, aligned);
      } else {
        assert Uncached(mem, tx, aligned);
      }
    }

    /** The read half: where the engine is to write to. */
    method PrepareRead(buf: nat, len: nat) returns (rx: nat, copyBack: bool)
      requires Valid() && buf + len <= |image| && (Bounced(buf, len) ==> len <= dataBufSize)
      modifies this`mem, this`image
      ensures Valid() && copyBack == Bounced(buf, len)
      ensures rx == if copyBack then dataBuf else buf
      ensures SameOutside(old(image), image, rx, LineUp(len))
      ensures rx + LineUp(len) <= |image| && Uncached(mem, rx, LineUp(len))
    {
      var aligned, maintain := len, true;
      LineUpIs(len, dataBufSize);
      rx, copyBack := buf, false;
      if buf % LINE != 0 || len % LINE != 0 {
        aligned := LineUp(len);
        rx, copyBack := dataBuf, true;
        maintain := !noncacheable;
      }
      if maintain {
        CacheInvalidate(rx, aligned);
      }
    }

    /** A write of which the engine may move more than the caller's bytes, if they are bounced. */
    method WriteBytes(buf: nat, len: nat, moved: nat, ok: bool)
      requires Valid() && buf + len <= |image| && (Bounced(buf, len) ==> len <= dataBufSize)
      requires buf + len <= dataBuf || dataBuf + dataBufSize <= buf
      requires moved == len || (Bounced(buf, len) && len <= moved && dataBuf + moved <= |image|)
      modifies this
      ensures Valid() && SameOutside(old(image), image, dataBuf, dataBufSize)
      ensures ok ==> sent == OnTheWire(old(image)[buf..buf + len], mem.ram, dataBuf, LineUp(len), moved)
    {
      var tx := PrepareWrite(buf, len);
      sent := [];
      if ok {
        SendOut(tx, len, LineUp(len), moved, old(image)[buf..buf + len]);
      }
    }

    method SendOut(tx: nat, len: nat, end: nat, moved: nat, ghost bytes: seq<Byte>)
      requires Valid() && len <= moved && len <= end && tx + moved <= |image| && tx + end <= |image|
      requires Uncached(mem, tx, end) && image[tx..tx + len] == bytes
      requires moved == len || (tx == dataBuf && Zeros(image, tx + len, tx + end))
      modifies this`sent
      ensures Valid() && sent == OnTheWire(bytes, mem.ram, dataBuf, end, moved)
    {
      ghost var clean := if moved <= end then moved else end;
      UncachedPart(mem, tx, end, clean);
      DmaSend(tx, moved, clean);
      if moved == len {
        assert bytes + seq(0, _ => 0) == bytes + mem.ram[tx + clean..tx + moved];
      } else {
        WireIs(image, mem.ram, tx, len, end, moved);
      }
    }

    /** The engine's part of a read, into lines that were made ready. */
    method TakeIn(rx: nat, end: nat, len: nat, card: seq<Byte>)
      requires Valid() && rx + end <= |image| && Uncached(mem, rx, end) && |card| <= end
      modifies this`mem, this`image
      ensures Valid() && SameOutside(old(image), image, rx, end)
      ensures len <= |card| ==> image[rx..rx + len] == card[..len]
    {
      UncachedPart(mem, rx, end, |card|);
      DmaReceive(rx, card);
      if len <= |card| {
        PrefixStored(image, rx, card, len);
      }
    }

    method ReadBytes(buf: nat, len: nat, card: seq<Byte>, ok: bool)
      requires Valid() && buf + len <= |image| && (Bounced(buf, len) ==> len <= dataBufSize)
      requires buf + len <= dataBuf || dataBuf + dataBufSize <= buf
      requires |card| <= len || (Bounced(buf, len) && |card| <= LineUp(len))
      requires ok ==> len <= |card|
      modifies this`mem, this`image
      ensures Valid() && SameOutsideBoth(old(image), image, dataBuf, dataBufSize, buf, len)
      ensures ok ==> image[buf..buf + len] == card[..len]
      ensures !ok && Bounced(buf, len) ==> SameOutside(old(image), image, dataBuf, dataBufSize)
    {
      LineUpIs(len, dataBufSize);
      var rx, copyBack := PrepareRead(buf, len);
      TakeIn(rx, LineUp(len), len, card);
      if ok && copyBack {
        MemCopy(buf, dataBuf, len);
      }
    }

    /** What the request asks of its caller, the card's answer being `card` when it reads. */
    ghost predicate Acceptable(data: Data, cmdCode: nat, card: seq<Byte>, ok: bool)
      requires data.Data?
      reads this
    {
      var len, moved := Len(data), Moves(data, cmdCode);
      && data.buf + len <= |image| && (Bounced(data.buf, len) ==> len <= dataBufSize)
      && (data.buf + len <= dataBuf || dataBuf + dataBufSize <= data.buf)
      && (moved == len || dataBuf + moved <= |image|)
      && (!data.write ==> moved <= LineUp(len) && |card| <= moved && (ok ==> |card| == moved))
    }

    /** The data part of the request: prepare the buffer, let the engine move, copy back. */
    method Move(data: Data, cmdCode: nat, card: seq<Byte>, ok: bool)
      requires Valid() && data.Data? && Acceptable(data, cmdCode, card, ok)
      modifies this
      ensures Valid()
      ensures data.write ==>
                && SameOutside(old(image), image, dataBuf, dataBufSize)
                && (ok ==> sent == OnTheWire(old(image)[data.buf..data.buf + Len(data)], mem.ram, dataBuf,
                                             LineUp(Len(data)), Moves(data, cmdCode)))
      ensures !data.write ==>
                && SameOutsideBoth(old(image), image, dataBuf, dataBufSize, data.buf, Len(data))
                && (ok ==> |card| >= Len(data) && image[data.buf..data.buf + Len(data)] == card[..Len(data)])
    {
      if data.write {
        WriteBytes(data.buf, Len(data), Moves(data, cmdCode), ok);
      } else {
        ReadBytes(data.buf, Len(data), card, ok);
      }
    }

    /**
     * `hpm_sdmmc_request`. A write sends the card the caller's bytes, followed by zeros where CMD53 pads; a read
     * that succeeds leaves exactly the card's bytes in the caller's buffer, and pad bytes stay in the bounce
     * buffer. Nothing outside these two buffers changes for the CPU, dirty lines included, whether the transfer
     * succeeds or stops part-way. A padded write of several blocks goes on sending: zeros up to the end of the
     * line, then whatever main memory holds there. Returns the argument the card is sent: padding writes the padded
     * length into its count, from which the card reads what one block moves; nothing else in it changes.
     */
    method Request(data: Data, cmdCode: nat, arg: nat, card: seq<Byte>, ok: bool) returns (sentArg: nat)
      requires Valid() && arg < 0x1_0000_0000 && (data.Data? ==> Acceptable(data, cmdCode, card, ok))
      modifies this
      ensures Valid() && |image| == |old(image)|
      ensures data.NoData? ==> image == old(image) && sentArg == arg
      ensures data.Data? && data.write ==>
                && SameOutside(old(image), image, dataBuf, dataBufSize)
                && (ok ==> sent == OnTheWire(old(image)[data.buf..data.buf + Len(data)], mem.ram, dataBuf,
                                             LineUp(Len(data)), Moves(data, cmdCode)))
      ensures data.Data? && !data.write ==>
                && SameOutsideBoth(old(image), image, dataBuf, dataBufSize, data.buf, Len(data))
                && (ok ==> |card| >= Len(data) && image[data.buf..data.buf + Len(data)] == card[..Len(data)])
      ensures data.Data? && cmdCode == SD_IO_RW_EXTENDED && Len(data) % ADMA_ALIGN != 0 ==>
                && Unpack(sentArg) == Unpack(arg).(count := WordUp(Len(data)) % 0x200)
                && (data.blks == 1 && Len(data) <= 512 ==>
                      ByteCount(sentArg) == Moves(data, cmdCode) == WordUp(Len(data)))
      ensures data.Data? && !(cmdCode == SD_IO_RW_EXTENDED && Len(data) % ADMA_ALIGN != 0) ==> sentArg == arg
    {
      sentArg := arg;
      if data.Data? {
        Move(data, cmdCode, card, ok);
        sentArg := CardArg(cmdCode, Len(data), arg);
        CardIsTold(data, cmdCode, arg);
      }
    }
  }
}
