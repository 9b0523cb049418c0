/**
 * SPI transfers by DMA. Three interrupts, one for the end of the SPI transfer and one for each DMA channel,
 * each release a counting semaphore, while the thread walks through the chunks of one message.
 */
module Spi {

  import opened Bytes
  import Cache

  // ---------------------------------------------------------------- completion of one chunk

  datatype Chan = SpiEnd | TxDma | RxDma

  /**
   * One engine: `armed` when the driver has started it, `on` while it is moving data, `raised` while its
   * interrupt waits to be served; then the interrupt's enable bit and the semaphore its handler releases.
   */
  datatype Line = Line(armed: bool, on: bool, raised: bool, irq: bool, sem: nat)

  datatype Lines = Lines(spi: Line, tx: Line, rx: Line) {
    function Get(c: Chan): Line {
      match c
      case SpiEnd => spi
      case TxDma => tx
      case RxDma => rx
    }

    function Put(c: Chan, l: Line): Lines {
      match c
      case SpiEnd => this.(spi := l)
      case TxDma => this.(tx := l)
      case RxDma => this.(rx := l)
    }
  }

  /** Completions that have been or will be signalled and not yet taken. */
  function Due(l: Line): nat {
    l.sem + (if l.raised then 1 else 0) + (if l.on then 1 else 0)
  }

  predicate Sound(ls: Lines) {
    Due(ls.spi) <= 1 && Due(ls.tx) <= 1 && Due(ls.rx) <= 1
  }

  predicate Idle(ls: Lines) {
    Due(ls.spi) == 0 && Due(ls.tx) == 0 && Due(ls.rx) == 0
  }

  datatype Arrival = Completes(c: Chan) | Served(c: Chan)

  /** An engine completes, or a handler runs. A DMA handler also masks its channel's interrupt. */
  function HappenOn(l: Line, a: Arrival): Line {
    match a
    case Completes(_) => if l.on then l.(on := false, raised := true) else l
    case Served(c) => if l.raised && l.irq then l.(raised := false, irq := c.SpiEnd?, sem := l.sem + 1) else l
  }

  function Happen(ls: Lines, a: Arrival): Lines {
    ls.Put(a.c, HappenOn(ls.Get(a.c), a))
  }

  function Happens(ls: Lines, arrivals: seq<Arrival>): Lines
    decreases |arrivals|
  {
    if arrivals == [] then ls else Happens(Happen(ls, arrivals[0]), arrivals[1..])
  }

  /** How a line can look after some arrivals. */
  predicate Later(c: Chan, l: Line, m: Line) {
    && Due(m) == Due(l) && m.armed == l.armed && (m.on ==> l.on)
    && (if m.sem == l.sem then m.irq == l.irq else m.sem == l.sem + 1 && m.irq == c.SpiEnd?)
  }

  predicate AllLater(ls: Lines, ms: Lines) {
    Later(SpiEnd, ls.spi, ms.spi) && Later(TxDma, ls.tx, ms.tx) && Later(RxDma, ls.rx, ms.rx)
  }

  predicate OthersLater(c: Chan, ls: Lines, ms: Lines) {
    && (c != SpiEnd ==> Later(SpiEnd, ls.spi, ms.spi))
    && (c != TxDma ==> Later(TxDma, ls.tx, ms.tx))
    && (c != RxDma ==> Later(RxDma, ls.rx, ms.rx))
  }

  lemma LineLater(l: Line, a: Arrival)
    requires Due(l) <= 1
    ensures Later(a.c, l, HappenOn(l, a))
  {
  }

  lemma HappenLater(ls: Lines, a: Arrival)
    requires Sound(ls)
    ensures AllLater(ls, Happen(ls, a))
  {
    LineLater(ls.Get(a.c), a);
  }

  lemma LaterTwice(ls: Lines, ms: Lines, ns: Lines)
    requires Sound(ls) && AllLater(ls, ms) && AllLater(ms, ns)
    ensures AllLater(ls, ns)
  {
  }

  lemma LaterSound(ls: Lines, ms: Lines)
    requires Sound(ls) && AllLater(ls, ms)
    ensures Sound(ms)
  {
  }

  /** No completion is lost or doubled, whatever arrives in whatever order. */
  lemma {:induction false} HappensLater(ls: Lines, arrivals: seq<Arrival>)
    requires Sound(ls)
    ensures AllLater(ls, Happens(ls, arrivals)) && Sound(Happens(ls, arrivals))
    decreases |arrivals|
  {
    if arrivals == [] {
    } else {
      var next := Happen(ls, arrivals[0]);
      HappenLater(ls, arrivals[0]);
      LaterSound(ls, next);
      HappensLater(next, arrivals[1..]);
      LaterTwice(ls, next, Happens(next, arrivals[1..]));
    }
  }

  function Todo(l: Line): nat {
    (if l.on then 2 else 0) + (if l.raised then 1 else 0)
  }

  /** Taking a semaphore that has been released ends its line's completion and leaves the others alone. */
  lemma TakeEnds(ls: Lines, ms: Lines, c: Chan)
    requires Sound(ls) && AllLater(ls, ms) && ms.Get(c).sem == 1
    ensures var l := ms.Get(c).(sem := 0); var ns := ms.Put(c, l);
            && Due(l) == 0 && l.armed == ls.Get(c).armed && ns.Get(c) == l && OthersLater(c, ls, ns) && Sound(ns)
            && ns.spi.on == ms.spi.on && ns.tx.on == ms.tx.on && ns.rx.on == ms.rx.on
    ensures Due(ls.Get(c)) == 1 && (ls.Get(c).sem == 0 ==> ls.Get(c).irq) && c == SpiEnd ==> ms.spi.irq == ls.spi.irq
  {
  }

  /** Every signal on its way can get through. */
  predicate Unmasked(ls: Lines) {
    && (ls.spi.irq || Due(ls.spi) == ls.spi.sem)
    && (ls.tx.irq || Due(ls.tx) == ls.tx.sem)
    && (ls.rx.irq || Due(ls.rx) == ls.rx.sem)
  }

  predicate Settled(ls: Lines) {
    Todo(ls.spi) == 0 && Todo(ls.tx) == 0 && Todo(ls.rx) == 0
  }

  function Final(c: Chan, l: Line): Line {
    Line(l.armed, false, false, if Due(l) == l.sem then l.irq else c.SpiEnd?, Due(l))
  }

  /** When everything has arrived, the order it came in cannot be seen. */
  lemma OrderDoesNotMatter(ls: Lines, arrivals: seq<Arrival>)
    requires Sound(ls) && Settled(Happens(ls, arrivals))
    ensures Happens(ls, arrivals) == Lines(Final(SpiEnd, ls.spi), Final(TxDma, ls.tx), Final(RxDma, ls.rx))
  {
    HappensLater(ls, arrivals);
  }

  /** What is still to happen; every arrival that changes anything brings the end nearer. */
  function Remaining(ls: Lines): nat {
    Todo(ls.spi) + Todo(ls.tx) + Todo(ls.rx)
  }

  /** And as long as something is on its way, something can arrive: waiting for a semaphore never hangs. */
  lemma SomethingArrives(ls: Lines)
    requires Sound(ls) && Unmasked(ls) && !Settled(ls)
    ensures exists a :: Happen(ls, a) != ls && Remaining(Happen(ls, a)) < Remaining(ls)
  {
    var c := if Todo(ls.spi) != 0 then SpiEnd else if Todo(ls.tx) != 0 then TxDma else RxDma;
    var a := if ls.Get(c).on then Completes(c) else Served(c);
    assert Happen(ls, a) != ls && Remaining(Happen(ls, a)) < Remaining(ls);
  }

  /** The moment the last part of a chunk is started, its engines begin to move data. */
  function Kicked(ls: Lines, useTx: bool, useRx: bool): Lines {
    if ls.spi.armed && (useTx ==> ls.tx.armed) && (useRx ==> ls.rx.armed) then
      Lines(ls.spi.(armed := false, on := true),
            if useTx then ls.tx.(armed := false, on := true) else ls.tx,
            if useRx then ls.rx.(armed := false, on := true) else ls.rx)
    else ls
  }

  // ---------------------------------------------------------------- data

  const COUNT_MAX: nat := 512

  const FIFO_DEPTH: nat := 4

  const EIO: int := 8

  const EINVAL: int := 10

  function FromSlave(slave: nat -> Byte, from: nat, n: nat): seq<Byte> {
    seq(n, i requires 0 <= i < n => slave(from + i))
  }

  /** What of a message has gone out after so many bytes; nothing if there is nothing to send. */
  function First(data: seq<Byte>, done: nat): seq<Byte> {
    if done <= |data| then data[..done] else data
  }

  predicate NeedsBounce(dcache: bool, addr: nat, len: nat) {
    dcache && (addr % Cache.LINE != 0 || len % Cache.LINE != 0)
  }

  /** The caller's own buffer is used exactly when there is no cache, or it is made of whole lines. */
  lemma DirectIsWholeLines(dcache: bool, addr: nat, len: nat)
    ensures !NeedsBounce(dcache, addr, len) <==>
              !dcache || exists first: nat, lines: nat :: WholeLines(addr, len, first, lines)
  {
    if !NeedsBounce(dcache, addr, len) && dcache {
      assert WholeLines(addr, len, addr / Cache.LINE, len / Cache.LINE);
    }
  }

  predicate WholeLines(addr: nat, len: nat, first: nat, lines: nat) {
    addr == first * Cache.LINE && len == lines * Cache.LINE
  }

  datatype Outcome = Done | Rejected | Failed

  /** Data as they will be when the engines that are on have finished. */
  datatype View = View(out: seq<Byte>, buffer: seq<Byte>, got: nat)

  /** What a chunk that is carried out does. */
  function Carried(v: View, out: seq<Byte>, useRx: bool, slave: nat -> Byte, at: nat, n: nat): View
    requires useRx ==> at + n <= |v.buffer|
  {
    if useRx then View(v.out + out, Splice(v.buffer, at, FromSlave(slave, v.got, n)), v.got + n)
    else View(v.out + out, v.buffer, v.got)
  }

  /** So many bytes of a message have moved. */
  ghost predicate Moved(start: View, v: View, data: seq<Byte>, useRx: bool, slave: nat -> Byte, done: nat) {
    && v.out == start.out + First(data, done) && v.got == (if useRx then start.got + done else start.got)
    && |v.buffer| == |start.buffer| && (useRx ==> done <= |v.buffer|)
    && forall i :: 0 <= i < |v.buffer| ==>
         v.buffer[i] == if useRx && i < done then slave(start.got + i) else start.buffer[i]
  }

  lemma MovedBuffer(start: View, v: View, data: seq<Byte>, slave: nat -> Byte, done: nat)
    requires Moved(start, v, data, true, slave, done)
    ensures v.buffer[..done] == FromSlave(slave, start.got, done) && v.buffer[done..] == start.buffer[done..]
  {
  }

  lemma MovedNone(start: View, data: seq<Byte>, useRx: bool, slave: nat -> Byte)
    ensures Moved(start, start, data, useRx, slave, 0)
  {
    assert start.out + First(data, 0) == start.out;
  }

  lemma FirstOn(data: seq<Byte>, done: nat, n: nat)
    requires data == [] || done + n <= |data|
    ensures First(data, done) + (if data == [] then [] else data[done..done + n]) == First(data, done + n)
  {
  }

  lemma MovedOn(start: View, v: View, data: seq<Byte>, useRx: bool, slave: nat -> Byte, done: nat, n: nat)
    requires Moved(start, v, data, useRx, slave, done)
    requires (data == [] || done + n <= |data|) && (useRx ==> done + n <= |v.buffer|)
    ensures Moved(start, Carried(v, if data == [] then [] else data[done..done + n], useRx, slave, done, n),
                  data, useRx, slave, done + n)
  {
    var out := if data == [] then [] else data[done..done + n];
    FirstOn(data, done, n);
    assert start.out + First(data, done) + out == start.out + (First(data, done) + out);
  }

  lemma HandlersMoveNothing(ls: Lines, a: Arrival)
    requires a.Completes? ==> !ls.Get(a.c).on
    ensures var ms := Happen(ls, a); ms.spi.on == ls.spi.on && ms.tx.on == ls.tx.on && ms.rx.on == ls.rx.on
  {
  }

  /** Sending the FIFO first changes nothing when it or the engine has nothing to send. */
  lemma FifoGoesOut(sent: seq<Byte>, engine: seq<Byte>, fifo: seq<Byte>)
    requires engine == [] || fifo == []
    ensures sent + engine + fifo == sent + fifo + engine + []
  {
    assert sent + [] == sent;
  }

  /** Every one of these calls into the DMA manager and the SPI control succeeds. */
  predicate AllWell(env: nat -> bool, from: nat, to: nat) {
    forall i :: from <= i < to ==> env(i)
  }

  lemma WellTwice(env: nat -> bool, a: nat, b: nat, c: nat)
    requires a <= b <= c
    ensures AllWell(env, a, c) <==> AllWell(env, a, b) && AllWell(env, b, c)
  {
  }

  lemma WellOnce(env: nat -> bool, a: nat)
    ensures AllWell(env, a, a) && (AllWell(env, a, a + 1) <==> env(a))
  {
  }

  /** Up to four bytes that a master only sends need no DMA. */
  predicate FifoTakes(len: nat, master: bool, sends: bool, receives: bool) {
    len <= FIFO_DEPTH && master && sends && !receives
  }

  class SpiBus {
    var lines: Lines
    var txEnable: bool
    var rxEnable: bool
    var txBuf: array<Byte>
    var txAt: nat
    var txLen: nat
    var rxBuf: array<Byte>
    var rxAt: nat
    var rxLen: nat
    /** Bytes in the transmit FIFO, and all that went out and came in. */
    var fifo: seq<Byte>
    var sent: seq<Byte>
    var got: nat
    const slave: nat -> Byte
    const dcache: bool
    /** How the calls into the DMA manager and the SPI control turn out, and how many there have been. */
    const env: nat -> bool
    var calls: nat
    /** Bounce buffers allocated and not freed. */
    ghost var live: set<array<Byte>>

    constructor (slave: nat -> Byte, dcache: bool, env: nat -> bool)
      ensures this.slave == slave && this.dcache == dcache && this.env == env && calls == 0
      ensures Rest() && live == {} && sent == [] && got == 0
    {
      var idle := Line(false, false, false, false, 0);
      lines, txEnable, rxEnable := Lines(idle, idle, idle), false, false;
      txBuf, txAt, txLen := new Byte[0], 0, 0;
      rxBuf, rxAt, rxLen := new Byte[0], 0, 0;
      fifo, sent, got, live := [], [], 0, {};
      this.slave, this.dcache, this.env, calls := slave, dcache, env, 0;
    }

    // -------------------------------------------------------------- the engines

    ghost predicate Programmed()
      reads this
    {
      && (lines.tx.on ==> txAt + txLen <= txBuf.Length)
      && (lines.rx.on ==> rxAt + rxLen <= rxBuf.Length)
      && (lines.tx.on && lines.rx.on ==> txBuf != rxBuf)
    }

    /** What will have gone out, what the receive buffer will hold, and how much will have come in. */
    ghost function Ahead(): View
      requires Programmed()
      reads this, txBuf, rxBuf
    {
      View(Outgoing(),
           if lines.rx.on then Splice(rxBuf[..], rxAt, FromSlave(slave, got, rxLen)) else rxBuf[..],
           if lines.rx.on then got + rxLen else got)
    }

    ghost function Outgoing(): seq<Byte>
      requires Programmed()
      reads this, txBuf
    {
      sent + (if lines.tx.on then txBuf[txAt..txAt + txLen] else []) + (if lines.spi.on then fifo else [])
    }

    /** The three completions: an engine's data have moved. */
    method CompleteSpi()
      requires lines.spi.on && Programmed() && (lines.tx.on ==> fifo == [])
      modifies this`lines, this`sent, this`fifo
      ensures lines == Happen(old(lines), Completes(SpiEnd)) && Programmed() && fifo == []
      ensures Ahead() == old(Ahead())
    {
      ghost var out := Outgoing();
      FifoGoesOut(sent, if lines.tx.on then txBuf[txAt..txAt + txLen] else [], fifo);
      sent, fifo := sent + fifo, [];
      lines := Happen(lines, Completes(SpiEnd));
      assert Outgoing() == out;
    }

    method CompleteTx()
      requires lines.tx.on && Programmed() && fifo == []
      modifies this`lines, this`sent
      ensures lines == Happen(old(lines), Completes(TxDma)) && Programmed()
      ensures Ahead() == old(Ahead())
    {
      sent := sent + txBuf[txAt..txAt + txLen];
      lines := Happen(lines, Completes(TxDma));
    }

    method Receive()
      requires lines.rx.on && Programmed()
      modifies rxBuf
      ensures rxBuf[..] == Splice(old(rxBuf[..]), rxAt, FromSlave(slave, got, rxLen))
    {
      forall i | 0 <= i < rxLen {
        rxBuf[rxAt + i] := slave(got + i);
      }
    }

    method CompleteRx()
      requires lines.rx.on && Programmed()
      modifies this`lines, this`got, rxBuf
      ensures lines == Happen(old(lines), Completes(RxDma)) && Programmed()
      ensures Ahead() == old(Ahead())
    {
      ghost var out := Outgoing();
      Receive();
      got := got + rxLen;
      lines := Happen(lines, Completes(RxDma));
      assert Outgoing() == out;
    }

    /** A handler runs, or nothing can happen. */
    method Handle(a: Arrival)
      requires Programmed() && (a.Completes? ==> !lines.Get(a.c).on)
      modifies this`lines
      ensures lines == Happen(old(lines), a) && Programmed() && (lines.tx.on ==> old(lines).tx.on)
      ensures Ahead() == old(Ahead())
    {
      HandlersMoveNothing(lines, a);
      lines := Happen(lines, a);
    }

    /** One arrival. */
    method Step(a: Arrival)
      requires Sound(lines) && Programmed() && (lines.tx.on ==> fifo == [])
      modifies this`lines, this`sent, this`got, this`fifo, if lines.rx.on then {rxBuf} else {}
      ensures lines == Happen(old(lines), a) && Programmed() && (lines.tx.on ==> fifo == [])
      ensures Ahead() == old(Ahead())
    {
      if a == Completes(SpiEnd) && lines.spi.on {
        CompleteSpi();
      } else if a == Completes(TxDma) && lines.tx.on {
        CompleteTx();
      } else if a == Completes(RxDma) && lines.rx.on {
        CompleteRx();
      } else {
        Handle(a);
      }
    }

    /** Any number of arrivals, in any order. */
    method Arrive()
      requires Sound(lines) && Programmed() && (lines.tx.on ==> fifo == [])
      modifies this`lines, this`sent, this`got, this`fifo, if lines.rx.on then {rxBuf} else {}
      ensures AllLater(old(lines), lines) && Programmed() && (lines.tx.on ==> fifo == [])
      ensures Ahead() == old(Ahead())
    {
      var n: int := *;
      for i := 0 to if n < 0 then 0 else n
        invariant AllLater(old(lines), lines) && Programmed() && (lines.tx.on ==> fifo == [])
        invariant lines.rx.on ==> old(lines.rx.on)
        invariant Ahead() == old(Ahead())
      {
        var a: Arrival := *;
        ghost var before := lines;
        LaterSound(old(lines), lines);
        HappenLater(lines, a);
        Step(a);
        LaterTwice(old(lines), before, lines);
      }
    }

    /** The thread sleeps until the handler releases the semaphore, which happens, as the completion is on its way. */
    method Wait(c: Chan)
      requires Sound(lines) && Programmed() && (lines.tx.on ==> fifo == [])
      requires Due(lines.Get(c)) == 1 && (lines.Get(c).sem == 0 ==> lines.Get(c).irq)
      modifies this`lines, this`sent, this`got, this`fifo, if lines.rx.on then {rxBuf} else {}
      ensures AllLater(old(lines), lines) && lines.Get(c).sem == 1
      ensures Programmed() && (lines.tx.on ==> fifo == []) && Ahead() == old(Ahead())
    {
      ghost var start := lines;
      Arrive();
      LaterSound(start, lines);
      while lines.Get(c).sem == 0
        invariant AllLater(start, lines) && Sound(lines) && (lines.rx.on ==> start.rx.on)
        invariant Programmed() && (lines.tx.on ==> fifo == []) && Ahead() == old(Ahead())
        decreases Todo(lines.Get(c))
      {
        Progress(c, start);
      }
    }

    /** The next thing that happens on a line that is waited for. */
    method Progress(c: Chan, ghost start: Lines)
      requires Sound(start) && Sound(lines) && AllLater(start, lines) && Programmed() && (lines.tx.on ==> fifo == [])
      requires Due(lines.Get(c)) == 1 && lines.Get(c).sem == 0 && lines.Get(c).irq
      modifies this`lines, this`sent, this`got, this`fifo, if lines.rx.on then {rxBuf} else {}
      ensures AllLater(start, lines) && Sound(lines) && (lines.rx.on ==> old(lines).rx.on)
      ensures Programmed() && (lines.tx.on ==> fifo == []) && Ahead() == old(Ahead())
      ensures Todo(lines.Get(c)) < Todo(old(lines).Get(c))
    {
      ghost var before := lines;
      var a := if lines.Get(c).on then Completes(c) else Served(c);
      HappenLater(lines, a);
      Step(a);
      LaterTwice(start, before, lines);
      LaterSound(start, lines);
    }

    /** `rt_sem_take` without a limit. */
    method Take(c: Chan)
      requires Sound(lines) && Programmed() && (lines.tx.on ==> fifo == [])
      requires Due(lines.Get(c)) == 1 && (lines.Get(c).sem == 0 ==> lines.Get(c).irq)
      modifies this`lines, this`sent, this`got, this`fifo, if lines.rx.on then {rxBuf} else {}
      ensures Due(lines.Get(c)) == 0 && lines.Get(c).armed == old(lines).Get(c).armed
      ensures c == SpiEnd ==> lines.spi.irq == old(lines).spi.irq
      ensures OthersLater(c, old(lines), lines)
      ensures Sound(lines) && Programmed() && (lines.tx.on ==> fifo == []) && Ahead() == old(Ahead())
    {
      Wait(c);
      TakeEnds(old(lines), lines, c);
      lines := lines.Put(c, lines.Get(c).(sem := lines.Get(c).sem - 1));
    }

    // -------------------------------------------------------------- starting a chunk

    /** A call that may fail. */
    method Ask() returns (ok: bool)
      modifies this`calls
      ensures calls == old(calls) + 1 && ok == env(old(calls)) && (ok <==> AllWell(env, old(calls), calls))
    {
      WellOnce(env, calls);
      ok, calls := env(calls), calls + 1;
    }

    /** `hpm_spi_rx_dma_config`; its last call already enables the channel. */
    method RxConfig(buf: array<Byte>, at: nat, n: nat) returns (ok: bool)
      requires n <= COUNT_MAX
      modifies this`rxBuf, this`rxAt, this`rxLen, this`lines, this`calls
      ensures calls == old(calls) + 1 && (ok <==> AllWell(env, old(calls), calls))
      ensures lines == old(lines).(rx := old(lines).rx.(armed := lines.rx.armed))
      ensures ok ==> lines.rx.armed && rxBuf == buf && rxAt == at && rxLen == n
    {
      rxBuf, rxAt, rxLen := buf, at, n;
      ok := Ask();
      if ok {
        lines := lines.(rx := lines.rx.(armed := true));
      }
    }

    method RxStart() returns (ok: bool)
      modifies this`lines, this`calls
      ensures calls == old(calls) + 1 && (ok <==> AllWell(env, old(calls), calls))
      ensures lines == old(lines).(rx := old(lines).rx.(armed := lines.rx.armed))
      ensures old(lines).rx.armed || ok ==> lines.rx.armed
    {
      ok := Ask();
      if ok {
        lines := lines.(rx := lines.rx.(armed := true));
      }
    }

    method TxConfig(buf: array<Byte>, at: nat, n: nat) returns (ok: bool)
      requires n <= COUNT_MAX
      modifies this`txBuf, this`txAt, this`txLen, this`calls
      ensures calls == old(calls) + 1 && (ok <==> AllWell(env, old(calls), calls))
      ensures ok ==> txBuf == buf && txAt == at && txLen == n
    {
      txBuf, txAt, txLen := buf, at, n;
      ok := Ask();
    }

    method TxStart() returns (ok: bool)
      modifies this`lines, this`calls
      ensures calls == old(calls) + 1 && (ok <==> AllWell(env, old(calls), calls))
      ensures !ok ==> lines == old(lines)
      ensures ok ==> lines == Kicked(old(lines).(tx := old(lines).tx.(armed := true)), txEnable, rxEnable)
    {
      ok := Ask();
      if ok {
        lines := Kicked(lines.(tx := lines.tx.(armed := true)), txEnable, rxEnable);
      }
    }

    /** `spi_control_init` resets the FIFOs and the transfer engine. */
    method ControlInit(wcount: nat, rcount: nat) returns (ok: bool)
      requires wcount <= COUNT_MAX && rcount <= COUNT_MAX
      modifies this`lines, this`fifo, this`calls
      ensures calls == old(calls) + 1 && ok == env(old(calls)) && (ok <==> AllWell(env, old(calls), calls))
      ensures ok ==> lines == old(lines).(spi := old(lines).spi.(armed := false)) && fifo == []
      ensures !ok ==> lines == old(lines) && fifo == old(fifo)
    {
      ok := Ask();
      if ok {
        fifo, lines := [], lines.(spi := lines.spi.(armed := false));
      }
    }

    /** Writing the command starts the SPI transfer. */
    method Command()
      modifies this`lines
      ensures lines == Kicked(old(lines).(spi := old(lines).spi.(armed := true)), txEnable, rxEnable)
    {
      lines := Kicked(lines.(spi := lines.spi.(armed := true)), txEnable, rxEnable);
    }

    /** `spi_setup_dma_transfer`: refuses a busy bus, configures, then writes address and command. */
    method SetupDma(wcount: nat, rcount: nat) returns (ok: bool)
      requires wcount <= COUNT_MAX && rcount <= COUNT_MAX
      modifies this`lines, this`fifo, this`calls
      ensures old(calls) <= calls && (ok <==> AllWell(env, old(calls), calls))
      ensures ok ==> calls == old(calls) + 3
      ensures ok ==> fifo == []
      ensures ok ==> lines == Kicked(old(lines).(spi := old(lines).spi.(armed := true)), txEnable, rxEnable)
      ensures !ok ==> lines == old(lines).(spi := old(lines).spi.(armed := lines.spi.armed))
    {
      ghost var start := calls;
      ok := Ask();
      if !ok {
        return;
      }
      ok := ControlInit(wcount, rcount);
      WellTwice(env, start, start + 1, calls);
      if !ok {
        return;
      }
      ok := Ask();
      WellTwice(env, start, start + 2, calls);
      if ok {
        Command();
      }
    }

    /** Between transfers: no semaphore is up, and nothing is on its way. */
    ghost predicate Rest()
      reads this
    {
      Idle(lines) && !lines.tx.armed
    }

    ghost predicate Ready()
      reads this
    {
      Rest() && lines.spi.irq
    }

    // -------------------------------------------------------------- one chunk

    /** Exactly the engines a chunk uses are under way, and their interrupts are enabled. */
    ghost predicate UnderWay(useTx: bool, useRx: bool)
      reads this
    {
      && Programmed() && Sound(lines) && (lines.tx.on ==> fifo == [])
      && Due(lines.spi) == 1 && lines.spi.irq
      && !lines.tx.armed && (if useTx then Due(lines.tx) == 1 && lines.tx.irq else Due(lines.tx) == 0)
      && (if useRx then Due(lines.rx) == 1 && lines.rx.irq else Due(lines.rx) == 0)
    }

    /** The semaphores a chunk uses are taken in this order, whatever order they are released in. */
    method TakeAll(useTx: bool, useRx: bool)
      requires UnderWay(useTx, useRx)
      modifies this`lines, this`sent, this`got, this`fifo, if lines.rx.on then {rxBuf} else {}
      ensures Ready() && View(sent, rxBuf[..], got) == old(Ahead())
    {
      Take(SpiEnd);
      if useTx {
        Take(TxDma);
      }
      if useRx {
        Take(RxDma);
      }
      assert sent + [] + [] == sent;
    }

    method ArmBoth(tx: array<Byte>, rx: array<Byte>, at: nat, n: nat) returns (ok: bool)
      requires n <= COUNT_MAX
      modifies this`lines, this`txBuf, this`txAt, this`txLen, this`rxBuf, this`rxAt, this`rxLen, this`fifo, this`calls
      ensures old(calls) <= calls && (ok <==> AllWell(env, old(calls), calls))
      ensures lines == old(lines).(spi := old(lines).spi.(armed := lines.spi.armed),
                                   rx := old(lines).rx.(armed := lines.rx.armed))
      ensures ok ==> lines.rx.armed && !lines.spi.armed && fifo == []
      ensures ok ==> txBuf == tx && txAt == at && txLen == n && rxBuf == rx && rxAt == at && rxLen == n
    {
      ghost var start := calls;
      ok := RxConfig(rx, at, n);
      if !ok {
        return;
      }
      ok := RxStart();
      WellTwice(env, start, start + 1, calls);
      if !ok {
        return;
      }
      ok := TxConfig(tx, at, n);
      WellTwice(env, start, start + 2, calls);
      if !ok {
        return;
      }
      ok := ControlInit(n, n);
      WellTwice(env, start, start + 3, calls);
    }

    /** Both directions: it succeeds exactly when all of its calls do. */
    method StartBoth(tx: array<Byte>, rx: array<Byte>, at: nat, n: nat) returns (ok: bool)
      requires Ready() && at + n <= tx.Length && at + n <= rx.Length && tx != rx && n <= COUNT_MAX
      modifies this`lines, this`txEnable, this`rxEnable, this`fifo, this`calls
      modifies this`txBuf, this`txAt, this`txLen, this`rxBuf, this`rxAt, this`rxLen
      ensures old(calls) <= calls && (ok <==> AllWell(env, old(calls), calls))
      ensures !ok ==> Ready()
      ensures ok ==> UnderWay(true, true) && rxBuf == rx
      ensures ok ==> Ahead() == View(sent + tx[at..at + n], Splice(rx[..], at, FromSlave(slave, got, n)), got + n)
    {
      ghost var start := calls;
      lines := lines.(rx := lines.rx.(irq := true), tx := lines.tx.(irq := true));
      txEnable, rxEnable := true, true;
      ok := ArmBoth(tx, rx, at, n);
      if !ok {
        return;
      }
      ghost var armed := calls;
      ok := TxStart();
      WellTwice(env, start, armed, calls);
      if !ok {
        return;
      }
      Command();
      assert Outgoing() == sent + tx[at..at + n];
    }

    method StartSend(tx: array<Byte>, at: nat, n: nat) returns (ok: bool)
      requires Ready() && at + n <= tx.Length && n <= COUNT_MAX
      modifies this`lines, this`txEnable, this`rxEnable, this`txBuf, this`txAt, this`txLen, this`fifo, this`calls
      ensures old(calls) <= calls && (ok <==> AllWell(env, old(calls), calls))
      ensures !ok ==> Ready()
      ensures !lines.rx.on && (ok ==> UnderWay(true, false) && Ahead() == View(sent + tx[at..at + n], rxBuf[..], got))
    {
      ghost var start := calls;
      lines := lines.(tx := lines.tx.(irq := true));
      txEnable, rxEnable := true, false;
      ok := SetupDma(n, 0);
      if !ok {
        return;
      }
      ghost var setup := calls;
      ok := TxConfig(tx, at, n);
      WellTwice(env, start, setup, calls);
      if !ok {
        return;
      }
      ok := TxStart();
      WellTwice(env, start, setup + 1, calls);
      assert ok ==> Outgoing() == sent + tx[at..at + n];
    }

    method StartReceive(rx: array<Byte>, at: nat, n: nat) returns (ok: bool)
      requires Ready() && at + n <= rx.Length && n <= COUNT_MAX
      modifies this`lines, this`txEnable, this`rxEnable, this`rxBuf, this`rxAt, this`rxLen, this`fifo, this`calls
      ensures old(calls) <= calls && (ok <==> AllWell(env, old(calls), calls))
      ensures !ok ==> Ready()
      ensures ok ==> UnderWay(false, true) && rxBuf == rx
      ensures ok ==> Ahead() == View(sent, Splice(rx[..], at, FromSlave(slave, got, n)), got + n)
    {
      ghost var start := calls;
      lines := lines.(rx := lines.rx.(irq := true));
      txEnable, rxEnable := false, true;
      ok := RxConfig(rx, at, n);
      if !ok {
        return;
      }
      ok := RxStart();
      WellTwice(env, start, start + 1, calls);
      if !ok {
        return;
      }
      ok := SetupDma(0, n);
      WellTwice(env, start, start + 2, calls);
      assert ok ==> Outgoing() == sent;
    }

    /** What has gone out, what a buffer holds, and how much has come in. */
    ghost function Now(rx: array?<Byte>): View
      reads this, if rx != null then {rx} else {}
    {
      View(sent, if rx != null then rx[..] else [], got)
    }

    /** Starting a chunk in any of the three modes: then it is only a matter of waiting. */
    method Start(tx: array?<Byte>, rx: array?<Byte>, at: nat, n: nat) returns (ok: bool)
      requires Ready() && (tx != null || rx != null) && n <= COUNT_MAX
      requires (tx != null ==> at + n <= tx.Length) && (rx != null ==> at + n <= rx.Length)
      requires tx != null && rx != null ==> tx != rx
      modifies this`lines, this`txEnable, this`rxEnable, this`fifo, this`calls
      modifies this`txBuf, this`txAt, this`txLen, this`rxBuf, this`rxAt, this`rxLen
      ensures old(calls) <= calls && (ok <==> AllWell(env, old(calls), calls))
      ensures if ok then UnderWay(tx != null, rx != null) else Ready()
      ensures ok && rx != null ==> rxBuf == rx
      ensures ok ==> Ahead() == Carried(View(sent, rxBuf[..], got), if tx != null then tx[at..at + n] else [],
                                        rx != null, slave, at, n)
    {
      if tx != null && rx != null {
        ok := StartBoth(tx, rx, at, n);
      } else if tx != null {
        ok := StartSend(tx, at, n);
      } else {
        ok := StartReceive(rx, at, n);
        assert sent + [] == sent;
      }
    }

    /**
     * One chunk in any of the three modes. Whatever arrives in whatever order, all semaphores are at zero
     * again; a chunk that was started has moved all its bytes, and one that was not, because one of the calls
     * it made failed, has moved none.
     */
    method Chunk(tx: array?<Byte>, rx: array?<Byte>, at: nat, n: nat) returns (ok: bool)
      requires Ready() && (tx != null || rx != null) && n <= COUNT_MAX
      requires (tx != null ==> at + n <= tx.Length) && (rx != null ==> at + n <= rx.Length)
      requires tx != null && rx != null ==> tx != rx
      modifies this`lines, this`txEnable, this`rxEnable, this`fifo, this`sent, this`got, this`calls
      modifies this`txBuf, this`txAt, this`txLen, this`rxBuf, this`rxAt, this`rxLen
      modifies if rx != null then {rx} else {}
      ensures old(calls) <= calls && (ok <==> AllWell(env, old(calls), calls))
      ensures Ready()
      ensures Now(rx) ==
                if ok then
                  Carried(old(Now(rx)), if tx != null then tx[at..at + n] else [], rx != null, slave, at, n)
                else old(Now(rx))
    {
      ghost var out := if tx != null then tx[at..at + n] else [];
      ok := Start(tx, rx, at, n);
      if ok {
        assert rx == null ==> !lines.rx.on;
        TakeAll(tx != null, rx != null);
        assert tx != null ==> tx[at..at + n] == out;
      }
    }

    // -------------------------------------------------------------- one message

    method CheckParams(send: array?<Byte>, recv: array?<Byte>, len: nat, master: bool) returns (ok: bool)
      ensures ok <==> master || (len <= COUNT_MAX && send != null && recv != null)
    {
      if !master && len > COUNT_MAX {
        return false;
      }
      if !master && (recv == null || send == null) {
        return false;
      }
      ok := true;
    }

    method FillFifo(send: array<Byte>, len: nat)
      requires fifo == [] && len <= send.Length
      modifies this`fifo
      ensures fifo == send[..len]
    {
      for j := 0 to len
        invariant fifo == send[..j]
      {
        fifo := fifo + [send[j]];
      }
    }

    /** `hpm_spi_transmit_use_fifo`: at most four bytes to send need no DMA, unless the control call fails. */
    method TransmitUseFifo(send: array?<Byte>, recv: array?<Byte>, len: nat, master: bool) returns (ok: bool)
      requires Rest() && len > 0 && (send != null ==> len <= send.Length)
      modifies this`lines, this`fifo, this`sent, this`got, this`calls
      ensures Rest() && got == old(got) && (old(lines).spi.irq ==> lines.spi.irq)
      ensures sent == old(sent) + if ok && send != null then send[..len] else []
      ensures ok <==> len <= FIFO_DEPTH && master && send != null && recv == null && env(old(calls))
      ensures calls == old(calls) + if FifoTakes(len, master, send != null, recv != null) then 1 else 0
    {
      if !(len <= FIFO_DEPTH && master && send != null && recv == null) {
        return false;
      }
      lines := lines.(spi := lines.spi.(irq := true));
      ok := ControlInit(len, 0);
      if !ok {
        return;
      }
      FillFifo(send, len);
      lines := Kicked(lines.(spi := lines.spi.(armed := true)), false, false);
      assert Outgoing() == sent + send[..len];
      Take(SpiEnd);
      assert Outgoing() == sent;
    }

    /** `rt_malloc_align`, assumed to succeed, and `rt_free_align`, which must be given a live buffer. */
    method Malloc(size: nat) returns (p: array<Byte>)
      modifies this`live
      ensures fresh(p) && p.Length == size && live == old(live) + {p}
    {
      p := new Byte[size];
      live := live + {p};
    }

    method Free(p: array<Byte>)
      requires p in live
      modifies this`live
      ensures live == old(live) - {p}
    {
      live := live - {p};
    }

    method Memcpy(dst: array<Byte>, src: array<Byte>, len: nat)
      requires dst != src && len <= dst.Length && len <= src.Length
      modifies dst
      ensures dst[..] == src[..len] + old(dst[len..])
    {
      for i := 0 to len
        invariant forall j :: 0 <= j < i ==> dst[j] == src[j]
        invariant forall j :: i <= j < dst.Length ==> dst[j] == old(dst[j])
      {
        dst[i] := src[i];
      }
    }

    /** The transmit half of `hpm_spi_transfer_data_cache_handle`: the buffer the DMA engine will read. */
    method TxBuffer(send: array<Byte>, addr: nat, len: nat) returns (tx: array<Byte>)
      requires len <= send.Length
      modifies this`live
      ensures len <= tx.Length && tx[..len] == send[..len]
      ensures if NeedsBounce(dcache, addr, len) then fresh(tx) && live == old(live) + {tx}
              else tx == send && live == old(live)
    {
      if dcache && (addr % Cache.LINE != 0 || len % Cache.LINE != 0) {
        tx := Malloc(Cache.LineUp(len));
        Memcpy(tx, send, len);
      } else {
        tx := send;
      }
    }

    /** The receive half: the buffer it will write. */
    method RxBuffer(recv: array<Byte>, addr: nat, len: nat) returns (rx: array<Byte>)
      requires len <= recv.Length
      modifies this`live
      ensures len <= rx.Length
      ensures if NeedsBounce(dcache, addr, len) then fresh(rx) && live == old(live) + {rx}
              else rx == recv && live == old(live)
    {
      if dcache && (addr % Cache.LINE != 0 || len % Cache.LINE != 0) {
        rx := Malloc(Cache.LineUp(len));
      } else {
        rx := recv;
      }
    }

    /** In the middle of a message: done bytes have moved, and the transmit buffer is as it was. */
    ghost predicate Going(tx: array?<Byte>, rx: array?<Byte>, start: View, data: seq<Byte>, done: nat)
      reads this, if tx != null then {tx} else {}, if rx != null then {rx} else {}
    {
      && Ready() && Moved(start, Now(rx), data, rx != null, slave, done)
      && data == if tx != null then tx[..] else []
    }

    method NextChunk(tx: array?<Byte>, rx: array?<Byte>, done: nat, n: nat, ghost start: View, ghost data: seq<Byte>)
      returns (ok: bool)
      requires Going(tx, rx, start, data, done) && 0 < n <= COUNT_MAX && (tx != null || rx != null)
      requires (tx != null ==> done + n <= tx.Length) && (rx != null ==> done + n <= rx.Length)
      requires tx != null && rx != null ==> tx != rx
      modifies this`lines, this`txEnable, this`rxEnable, this`fifo, this`sent, this`got, this`calls
      modifies this`txBuf, this`txAt, this`txLen, this`rxBuf, this`rxAt, this`rxLen
      modifies if rx != null then {rx} else {}
      ensures old(calls) <= calls && (ok <==> AllWell(env, old(calls), calls))
      ensures Going(tx, rx, start, data, if ok then done + n else done)
    {
      MovedOn(start, Now(rx), data, rx != null, slave, done, n);
      ok := Chunk(tx, rx, done, n);
    }

    /** The loop over the chunks of a message. A chunk that fails ends it, after a whole number of full chunks. */
    method Chunks(tx: array?<Byte>, rx: array?<Byte>, len: nat, ghost start: View, ghost data: seq<Byte>)
      returns (done: nat, index: nat, ok: bool)
      requires Going(tx, rx, start, data, 0) && (tx != null || rx != null)
      requires (tx != null ==> 0 < len <= tx.Length) && (rx != null ==> len <= rx.Length)
      requires tx != null && rx != null ==> tx != rx
      modifies this`lines, this`txEnable, this`rxEnable, this`fifo, this`sent, this`got, this`calls
      modifies this`txBuf, this`txAt, this`txLen, this`rxBuf, this`rxAt, this`rxLen
      modifies if rx != null then {rx} else {}
      ensures old(calls) <= calls && (ok <==> AllWell(env, old(calls), calls))
      ensures done <= len && (ok <==> done == len) && (!ok ==> done == index * COUNT_MAX)
      ensures Going(tx, rx, start, data, done)
    {
      done, index, ok := 0, 0, true;
      while done < len
        invariant done <= len && ok && (done < len ==> done == index * COUNT_MAX)
        invariant Going(tx, rx, start, data, done)
        invariant old(calls) <= calls && AllWell(env, old(calls), calls)
      {
        var n := if len - done < COUNT_MAX then len - done else COUNT_MAX;
        ghost var before := calls;
        ok := NextChunk(tx, rx, done, n, start, data);
        WellTwice(env, old(calls), before, calls);
        if !ok {
          return;
        }
        done, index := done + n, index + 1;
      }
    }

    /** After the transfer: what came in goes to the caller, and bounce buffers go back. */
    method Finish(tx: array?<Byte>, rx: array?<Byte>, recv: array?<Byte>, sendAddr: nat, recvAddr: nat, len: nat)
      requires (recv == null <==> rx == null) && (recv != null ==> len <= recv.Length && len <= rx.Length)
      requires tx != null && NeedsBounce(dcache, sendAddr, len) ==> tx in live
      requires rx != null ==>
                 if NeedsBounce(dcache, recvAddr, len) then rx in live && rx != tx && rx != recv else rx == recv
      modifies this`live, if recv != null then {recv} else {}
      ensures live == old(live) - (if tx != null && NeedsBounce(dcache, sendAddr, len) then {tx} else {})
                                - (if rx != null && NeedsBounce(dcache, recvAddr, len) then {rx} else {})
      ensures recv != null ==> recv[..] == old(rx[..len]) + old(recv[len..])
    {
      if dcache {
        if sendAddr % Cache.LINE != 0 || len % Cache.LINE != 0 {
          if tx != null {
            Free(tx);
          }
        }
        if recv != null && rx != null {
          if recvAddr % Cache.LINE != 0 || len % Cache.LINE != 0 {
            Memcpy(recv, rx, len);
            Free(rx);
          }
        }
      }
    }

    method Buffers(send: array?<Byte>, recv: array?<Byte>, len: nat, sendAddr: nat, recvAddr: nat)
      returns (tx: array?<Byte>, rx: array?<Byte>)
      requires (send != null ==> len <= send.Length) && (recv != null ==> len <= recv.Length)
      requires send != null && recv != null ==> send != recv
      modifies this`live
      ensures (send == null <==> tx == null) && (recv == null <==> rx == null)
      ensures tx != null && rx != null ==> tx != rx
      ensures send != null ==>
                && len <= tx.Length && tx[..len] == send[..len]
                && if NeedsBounce(dcache, sendAddr, len) then fresh(tx) && tx in live else tx == send
      ensures recv != null ==>
                && len <= rx.Length
                && if NeedsBounce(dcache, recvAddr, len) then fresh(rx) && rx in live else rx == recv
      ensures live - (if send != null && NeedsBounce(dcache, sendAddr, len) then {tx} else {})
                   - (if recv != null && NeedsBounce(dcache, recvAddr, len) then {rx} else {}) == old(live)
    {
      tx, rx := null, null;
      if send != null {
        tx := TxBuffer(send, sendAddr, len);
      }
      if recv != null {
        rx := RxBuffer(recv, recvAddr, len);
      }
    }

    method Move(tx: array?<Byte>, rx: array?<Byte>, len: nat) returns (done: nat, index: nat, ok: bool)
      requires Ready() && 0 < len && (tx != null ==> len <= tx.Length) && (rx != null ==> len <= rx.Length)
      requires tx != null && rx != null ==> tx != rx
      modifies this`lines, this`txEnable, this`rxEnable, this`fifo, this`sent, this`got, this`calls
      modifies this`txBuf, this`txAt, this`txLen, this`rxBuf, this`rxAt, this`rxLen
      modifies if rx != null then {rx} else {}
      ensures Ready() && done <= len && (ok <==> done == len) && (!ok ==> done == index * COUNT_MAX)
      ensures old(calls) <= calls && (ok <==> (tx != null || rx != null) && AllWell(env, old(calls), calls))
      ensures sent == old(sent) + if tx != null then tx[..done] else []
      ensures got == old(got) + if rx != null then done else 0
      ensures rx != null ==> rx[..done] == FromSlave(slave, old(got), done) && rx[done..] == old(rx[done..])
    {
      lines := lines.(rx := lines.rx.(irq := false), tx := lines.tx.(irq := false));
      if tx == null && rx == null {
        return 0, 0, false;
      }
      ghost var start, data := Now(rx), if tx != null then tx[..] else [];
      MovedNone(start, data, rx != null, slave);
      done, index, ok := Chunks(tx, rx, len, start, data);
      if rx != null {
        MovedBuffer(start, Now(rx), data, slave, done);
      }
    }

    /** The DMA path for a message that did not go through the FIFO. */
    method Transfer(send: array?<Byte>, recv: array?<Byte>, len: nat, sendAddr: nat, recvAddr: nat)
      returns (done: nat, index: nat, ok: bool)
      requires Ready() && 0 < len
      requires (send != null ==> len <= send.Length) && (recv != null ==> len <= recv.Length)
      requires send != null && recv != null ==> send != recv
      modifies this, if recv != null then {recv} else {}
      ensures Ready() && live == old(live)
      ensures done <= len && (ok <==> done == len) && (!ok ==> done == index * COUNT_MAX)
      ensures old(calls) <= calls && (ok <==> (send != null || recv != null) && AllWell(env, old(calls), calls))
      ensures sent == old(sent) + if send != null then old(send[..done]) else []
      ensures got == old(got) + if recv != null then done else 0
      ensures recv != null ==> recv[..done] == FromSlave(slave, old(got), done) && recv[len..] == old(recv[len..])
    {
      var tx, rx := Buffers(send, recv, len, sendAddr, recvAddr);
      done, index, ok := Move(tx, rx, len);
      if tx != null {
        assert tx[..done] == tx[..len][..done] == old(send[..len])[..done] == old(send[..done]);
      }
      if rx != null {
        assert rx[..len][..done] == rx[..done];
      }
      Finish(tx, rx, recv, sendAddr, recvAddr, len);
      if recv != null {
        assert recv[..done] == recv[..len][..done];
      }
    }

    /**
     * `hpm_spi_xfer_dma` for one message. On every exit the semaphores are down, nothing is on its way, and
     * the bounce buffers have been freed. A message that is done went out and came in byte for byte; one
     * that failed moved a whole number of full chunks. It is done exactly when every call made for its chunks
     * succeeded, or the FIFO took it. A refused message answers with a positive number and
     * leaves the interrupt enabled.
     */
    method XferDma(send: array?<Byte>, recv: array?<Byte>, len: nat, sendAddr: nat, recvAddr: nat, master: bool)
      returns (r: int, ghost outcome: Outcome, ghost done: nat, ghost index: nat)
      requires Rest()
      requires (send != null ==> len <= send.Length) && (recv != null ==> len <= recv.Length)
      requires send != null && recv != null ==> send != recv
      modifies this, if recv != null then {recv} else {}
      ensures Rest() && live == old(live)
      ensures lines.spi.irq <==> outcome == Rejected
      ensures outcome == Rejected <==> !master && (len > COUNT_MAX || send == null || recv == null)
      ensures r == match outcome case Done => len case Rejected => EINVAL case Failed => -EIO
      ensures done <= len && (outcome == Done ==> done == len) && (outcome == Rejected ==> done == 0)
      ensures outcome == Done <==>
                && outcome != Rejected
                && (var direct := FifoTakes(len, master, send != null, recv != null);
                    || len == 0
                    || (direct && env(old(calls)))
                    || ((send != null || recv != null)
                        && AllWell(env, if direct then old(calls) + 1 else old(calls), calls)))
      ensures outcome == Failed ==> done < len && done == index * COUNT_MAX
      ensures sent == old(sent) + if send != null then old(send[..done]) else []
      ensures got == old(got) + if recv != null then done else 0
      ensures recv != null ==> recv[..done] == FromSlave(slave, old(got), done)
      ensures recv != null && outcome != Rejected ==> recv[len..] == old(recv[len..])
      ensures recv != null && outcome == Rejected ==> recv[..] == old(recv[..])
    {
      lines := lines.(spi := lines.spi.(irq := true));
      done, index := 0, 0;
      var ok := CheckParams(send, recv, len, master);
      if !ok {
        return EINVAL, Rejected, 0, 0;
      }
      ok := true;
      var moved := 0;
      if len > 0 {
        ok := TransmitUseFifo(send, recv, len, master);
        if ok {
          moved := len;
        } else {
          var chunks;
          moved, chunks, ok := Transfer(send, recv, len, sendAddr, recvAddr);
          index := chunks;
        }
      }
      r, outcome, done := if ok then len else -EIO, if ok then Done else Failed, moved;
      lines := lines.(spi := lines.spi.(irq := false));
    }
  }
}
