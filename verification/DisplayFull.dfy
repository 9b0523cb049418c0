/**
 * Full-refresh mode of the display port: two frame buffers passed between LVGL, the driver and the LCD
 * controller. The controller latches a new buffer address only at its next frame start.
 */
module DisplayFull {

  datatype Buffer = Buffer0 | Buffer1

  function Other(b: Buffer): Buffer {
    if b == Buffer0 then Buffer1 else Buffer0
  }

  datatype Waiting = Nothing | Buf(b: Buffer)

  /** LVGL between frames, drawing into `act`, or back from the flush callback but not yet swapped. */
  datatype Lvgl = Resting | Drawing | Swapping

  datatype State = State(
    wait: Waiting, flushing: bool, discarded: bool,                // driver: wait_flush_buffer, flush-ready
    lvgl: Lvgl, act: Buffer,                                       // LVGL: buf_act
    next: Buffer, loadPending: bool, active: Buffer,               // controller: START0, SHADOW_LOAD_EN, active copy
    scanning: bool, done: bool,                                    // controller: in a frame; done flag raised
    flushed: seq<Buffer>, handed: seq<Buffer>)                     // history

  datatype Event = BeginDraw | Flush | Swap | FrameStart | FrameEnd | Isr

  /** LVGL draws first into buffer 0 while the controller shows buffer 1. */
  const INIT := State(Nothing, false, false, Resting, Buffer0, Buffer1, false, Buffer1, false, false, [], [])

  /** LVGL neither draws nor flushes while a flush is pending; the interrupt needs its flag. */
  predicate Enabled(s: State, e: Event) {
    match e
    case BeginDraw => s.lvgl == Resting && !s.flushing
    case Flush => s.lvgl == Drawing
    case Swap => s.lvgl == Swapping
    case FrameStart => !s.scanning
    case FrameEnd => s.scanning
    case Isr => s.done
  }

  predicate HandsOver(s: State) {
    s.done && s.wait.Buf? && !s.loadPending
  }

  function FlushStep(s: State): State {
    if s.wait.Buf? then
      s.(lvgl := Swapping, flushing := true, discarded := true)
    else
      s.(lvgl := Swapping, flushing := true, wait := Buf(s.act), flushed := s.flushed + [s.act])
  }

  function IsrStep(s: State): State {
    if HandsOver(s) then
      s.(done := false, next := s.wait.b, loadPending := true, handed := s.handed + [s.wait.b],
         wait := Nothing, flushing := false)
    else
      s.(done := false)
  }

  function Apply(s: State, e: Event): State
    requires Enabled(s, e)
  {
    match e
    case BeginDraw => s.(lvgl := Drawing)
    case Flush => FlushStep(s)
    case Swap => s.(lvgl := Resting, act := Other(s.act))
    case FrameStart =>
      s.(scanning := true, active := if s.loadPending then s.next else s.active, loadPending := false)
    case FrameEnd => s.(scanning := false, done := true)
    case Isr => IsrStep(s)
  }

  ghost predicate Feasible(s: State, es: seq<Event>)
    decreases |es|
  {
    es == [] || (Enabled(s, es[0]) && Feasible(Apply(s, es[0]), es[1..]))
  }

  ghost function Run(s: State, es: seq<Event>): State
    requires Feasible(s, es)
    decreases |es|
  {
    if es == [] then s else Run(Apply(s, es[0]), es[1..])
  }

  // ---------------------------------------------------------------- what holds in every interleaving

  /** The buffer LVGL draws into next. */
  function Target(s: State): Buffer {
    if s.lvgl == Swapping then Other(s.act) else s.act
  }

  /** The buffer the controller shows from its next frame on. */
  function Front(s: State): Buffer {
    if s.loadPending then s.next else s.active
  }

  predicate Inv(s: State) {
    && !s.discarded
    && (s.flushing <==> s.wait.Buf?)
    && (s.lvgl == Drawing ==> !s.flushing)
    && (s.wait.Buf? ==> s.wait.b == Other(Target(s)) && Front(s) == Target(s))
    && (!s.flushing ==> Front(s) == Other(Target(s)))
    && s.flushed == s.handed + (if s.wait.Buf? then [s.wait.b] else [])
    && (forall i :: 0 <= i < |s.flushed| ==> s.flushed[i] == if i % 2 == 0 then Buffer0 else Buffer1)
    && Target(s) == (if |s.flushed| % 2 == 0 then Buffer0 else Buffer1)
  }

  lemma StepInv(s: State, e: Event)
    requires Inv(s) && Enabled(s, e)
    ensures Inv(Apply(s, e))
  {
  }

  lemma {:induction false} RunInv(s: State, es: seq<Event>)
    requires Inv(s) && Feasible(s, es)
    ensures Inv(Run(s, es))
    decreases |es|
  {
    if es != [] {
      StepInv(s, es[0]);
      RunInv(Apply(s, es[0]), es[1..]);
    }
  }

  /**
   * In every interleaving, late interrupts included: the discard branch is never taken, the buffers are
   * flushed alternately, and what the controller was handed is what was flushed, once each and in order,
   * but for the one that may still be waiting.
   */
  lemma HandedOnceInOrder(es: seq<Event>)
    requires Feasible(INIT, es)
    ensures var s := Run(INIT, es);
            && !s.discarded
            && s.flushed == s.handed + (if s.wait.Buf? then [s.wait.b] else [])
            && (forall i :: 0 <= i < |s.flushed| ==> s.flushed[i] == if i % 2 == 0 then Buffer0 else Buffer1)
  {
    RunInv(INIT, es);
  }

  /** A waiting buffer does get handed over: the controller's own frames are enough. */
  lemma WaitingIsHandedOver(s: State) returns (es: seq<Event>)
    requires Inv(s) && s.wait.Buf?
    ensures Feasible(s, es) && forall e :: e in es ==> e == FrameStart || e == FrameEnd || e == Isr
    ensures Run(s, es).handed == s.flushed && !Run(s, es).flushing
  {
    var t := if s.scanning then Apply(s, FrameEnd) else s;
    var u := Apply(t, FrameStart);
    var v := Apply(u, FrameEnd);
    var w := Apply(v, Isr);
    assert Feasible(w, []) && Run(w, []) == w;
    Prepend(v, Isr, []);
    Prepend(u, FrameEnd, [Isr] + []);
    es := [FrameStart] + ([FrameEnd] + ([Isr] + []));
    Prepend(t, FrameStart, [FrameEnd] + ([Isr] + []));
    if s.scanning {
      Prepend(s, FrameEnd, es);
      es := [FrameEnd] + es;
    }
  }

  /** What of a pattern of events has not yet been met, in order, among others. */
  function Left(pattern: seq<Event>, es: seq<Event>): seq<Event>
    decreases |es|
  {
    if es == [] || pattern == [] then pattern
    else Left(if es[0] == pattern[0] then pattern[1..] else pattern, es[1..])
  }

  /** A frame of the controller and its interrupt. */
  const FRAME: seq<Event> := [FrameStart, FrameEnd, Isr]

  /** How far a flush has come when so much of a frame is still left. */
  ghost predicate Underway(flushed: seq<Buffer>, t: State, left: nat) {
    flushed <= t.handed
    || (0 < left && t.wait.Buf? && t.flushed == flushed && (left <= 2 ==> !t.loadPending) && (left == 1 ==> t.done))
  }

  function Met(e: Event, k: nat): nat
    requires k <= 3
  {
    if k < 3 && e == FRAME[k] then k + 1 else k
  }

  lemma FrameStep(flushed: seq<Buffer>, t: State, e: Event, k: nat)
    requires Inv(t) && Enabled(t, e) && k <= 3 && Underway(flushed, t, 3 - k)
    ensures Underway(flushed, Apply(t, e), 3 - Met(e, k))
  {
  }

  lemma LeftOn(es: seq<Event>, k: nat)
    requires es != [] && k <= 3 && Left(FRAME[k..], es) == []
    ensures Left(FRAME[Met(es[0], k)..], es[1..]) == []
  {
    if k == 3 {
      assert FRAME[3..] == [];
    } else if es[0] == FRAME[k] {
      assert FRAME[k..][1..] == FRAME[k + 1..];
    }
  }

  lemma {:induction false} FrameLeads(flushed: seq<Buffer>, t: State, es: seq<Event>, k: nat)
    requires Inv(t) && Feasible(t, es) && k <= 3 && Underway(flushed, t, 3 - k)
    requires Left(FRAME[k..], es) == []
    ensures flushed <= Run(t, es).handed
    decreases |es|
  {
    if es == [] {
      assert FRAME[k..] == [];
    } else {
      StepInv(t, es[0]);
      FrameStep(flushed, t, es[0], k);
      LeftOn(es, k);
      FrameLeads(flushed, Apply(t, es[0]), es[1..], Met(es[0], k));
    }
  }

  /** Every run with a whole frame of the controller and its interrupt hands over what was flushed before. */
  lemma EveryFrameHandsOver(s: State, es: seq<Event>)
    requires Inv(s) && Feasible(s, es) && Left(FRAME, es) == []
    ensures s.flushed <= Run(s, es).handed
  {
    assert FRAME[0..] == FRAME;
    FrameLeads(s.flushed, s, es, 0);
  }

  // ---------------------------------------------------------------- tearing

  /** LVGL is not drawing into the buffer the controller is reading. */
  predicate Safe(s: State) {
    !(s.lvgl == Drawing && s.scanning && s.active == s.act)
  }

  /** A hand-over is prompt when the interrupt is served before the controller starts its next frame. */
  predicate Prompt(s: State, e: Event) {
    e == Isr && HandsOver(s) ==> !s.scanning
  }

  ghost predicate AllPrompt(s: State, es: seq<Event>)
    requires Feasible(s, es)
    decreases |es|
  {
    es == [] || (Prompt(s, es[0]) && AllPrompt(Apply(s, es[0]), es[1..]))
  }

  /** Once a frame has started, no address is left to be latched. */
  predicate Latched(s: State) {
    s.scanning ==> !s.loadPending
  }

  lemma {:induction false} PromptRunsStaySafe(s: State, es: seq<Event>)
    requires Inv(s) && Latched(s) && Feasible(s, es) && AllPrompt(s, es)
    ensures Safe(Run(s, es)) && Latched(Run(s, es))
    decreases |es|
  {
    if es != [] {
      StepInv(s, es[0]);
      PromptRunsStaySafe(Apply(s, es[0]), es[1..]);
    }
  }

  /** In every run whose hand-overs are prompt, LVGL never draws into the buffer being scanned. */
  lemma NoTearing(es: seq<Event>)
    requires Feasible(INIT, es) && AllPrompt(INIT, es)
    ensures Safe(Run(INIT, es))
  {
    PromptRunsStaySafe(INIT, es);
  }

  /** What LVGL can do by itself right after a hand-over: swap if it has not yet, and draw. */
  function DrawNext(s: State): seq<Event> {
    if s.lvgl == Swapping then [Swap, BeginDraw] else [BeginDraw]
  }

  /**
   * Promptness is exactly what is needed: after a hand-over in a state where nothing is left to be
   * latched, LVGL can go on safely if and only if the controller was between frames. The buffer it is
   * given back is the one the controller still reads.
   */
  lemma HandOverSafeIffPrompt(s: State)
    requires Inv(s) && HandsOver(s)
    ensures var t := Apply(s, Isr);
            && Feasible(t, DrawNext(t))
            && (Safe(Run(t, DrawNext(t))) <==> Prompt(s, Isr))
  {
    var t := Apply(s, Isr);
    StepInv(s, Isr);
    if t.lvgl == Swapping {
      var u := Apply(t, Swap);
      var v := Apply(u, BeginDraw);
      assert Feasible(v, []) && Run(v, []) == v;
      assert [Swap, BeginDraw][1..] == [BeginDraw] && [BeginDraw][1..] == [];
      assert Feasible(u, [BeginDraw]) && Run(u, [BeginDraw]) == v;
    } else {
      var v := Apply(t, BeginDraw);
      assert Feasible(v, []) && Run(v, []) == v;
      assert [BeginDraw][1..] == [];
    }
  }

  /** Such a late interrupt is possible: a run of the unmodified driver that tears. */
  lemma LateInterruptTears() returns (es: seq<Event>)
    ensures Feasible(INIT, es) && !Safe(Run(INIT, es))
  {
    var a := [BeginDraw, Flush, Swap, FrameStart];
    var b := [FrameEnd, FrameStart, Isr, BeginDraw];
    var s1 := Apply(INIT, BeginDraw);
    var s2 := Apply(s1, Flush);
    var s3 := Apply(s2, Swap);
    var s4 := Apply(s3, FrameStart);
    var s5 := Apply(s4, FrameEnd);
    var s6 := Apply(s5, FrameStart);
    var s7 := Apply(s6, Isr);
    var s8 := Apply(s7, BeginDraw);
    assert Feasible(s8, []) && Run(s8, []) == s8;
    Prepend(s7, BeginDraw, []);
    Prepend(s6, Isr, [BeginDraw]);
    Prepend(s5, FrameStart, [Isr] + [BeginDraw]);
    Prepend(s4, FrameEnd, [FrameStart] + ([Isr] + [BeginDraw]));
    Prepend(s3, FrameStart, [FrameEnd] + ([FrameStart] + ([Isr] + [BeginDraw])));
    es := [FrameStart] + ([FrameEnd] + ([FrameStart] + ([Isr] + [BeginDraw])));
    Prepend(s2, Swap, es);
    Prepend(s1, Flush, [Swap] + es);
    Prepend(INIT, BeginDraw, [Flush] + ([Swap] + es));
    es := [BeginDraw] + ([Flush] + ([Swap] + es));
  }

  lemma Prepend(s: State, e: Event, es: seq<Event>)
    requires Enabled(s, e) && Feasible(Apply(s, e), es)
    ensures Feasible(s, [e] + es) && Run(s, [e] + es) == Run(Apply(s, e), es)
  {
    assert ([e] + es)[1..] == es;
  }

  function Count(es: seq<Event>, e: Event): nat
    decreases |es|
  {
    if es == [] then 0 else (if es[0] == e then 1 else 0) + Count(es[1..], e)
  }

  /** Every interrupt acknowledges its frame end: over any run there are no more interrupts than frames have ended. */
  lemma {:induction false} ServedOncePerFrame(s: State, es: seq<Event>)
    requires Feasible(s, es)
    ensures Count(es, Isr) + (if Run(s, es).done then 1 else 0) <= Count(es, FrameEnd) + (if s.done then 1 else 0)
    decreases |es|
  {
    if es == [] {
    } else {
      ServedOncePerFrame(Apply(s, es[0]), es[1..]);
    }
  }

  // ---------------------------------------------------------------- the interrupt as one step

  /** The second half of the interrupt, once it has read and cleared the flag and found the shadow loaded. */
  function HandOver(s: State): State {
    if s.wait.Buf? then
      s.(next := s.wait.b, loadPending := true, handed := s.handed + [s.wait.b], wait := Nothing, flushing := false)
    else s
  }

  /**
   * The controller may go on between the two halves. A frame that starts there might as well have started
   * before the interrupt, and one that ends there after it; so taking the interrupt as one step loses no
   * behaviour of these.
   */
  lemma InterruptIsAtomic(s: State)
    requires HandsOver(s)
    ensures HandOver(s.(done := false)) == Apply(s, Isr)
    ensures !s.scanning ==> HandOver(Apply(s.(done := false), FrameStart)) == Apply(Apply(s, FrameStart), Isr)
    ensures s.scanning ==> HandOver(Apply(s.(done := false), FrameEnd)) == Apply(Apply(s, Isr), FrameEnd)
  {
  }

  // ---------------------------------------------------------------- the driver

  /** `lv_adapter_ctx` and the controller registers the interrupt touches. */
  class LvAdapter {
    var waitFlushBuffer: Waiting
    var flushing: bool
    var discarded: bool
    var start0: Buffer
    var loadPending: bool
    var doneFlag: bool
    ghost var lvgl: Lvgl
    ghost var act: Buffer
    ghost var active: Buffer
    ghost var scanning: bool
    ghost var flushed: seq<Buffer>
    ghost var handed: seq<Buffer>

    ghost function St(): State
      reads this
    {
      State(waitFlushBuffer, flushing, discarded, lvgl, act, start0, loadPending, active, scanning, doneFlag, flushed,
            handed)
    }

    constructor ()
      ensures St() == INIT
    {
      waitFlushBuffer, flushing, discarded := Nothing, false, false;
      start0, loadPending, doneFlag := Buffer1, false, false;
      lvgl, act, active, scanning, flushed, handed := Resting, Buffer0, Buffer1, false, [], [];
    }

    /** `lv_flush_display_full`, called by LVGL with `flushing` set and the buffer just drawn. */
    method FlushDisplayFull(colorP: Buffer)
      requires Enabled(St(), Flush) && colorP == act
      modifies this
      ensures St() == FlushStep(old(St()))
      ensures old(waitFlushBuffer).Buf? ==> discarded && waitFlushBuffer == old(waitFlushBuffer)
    {
      lvgl, flushing := Swapping, true;
      if waitFlushBuffer.Buf? {
        discarded := true;
        return;
      }
      waitFlushBuffer, flushed := Buf(colorP), flushed + [colorP];
    }

    method FlushReady()
      modifies this`flushing
      ensures !flushing
    {
      flushing := false;
    }

    /** `lcdc_layer_set_next_buffer`: takes effect when the controller next starts a frame. */
    method SetNextBuffer(b: Buffer)
      modifies this`start0, this`loadPending, this`handed
      ensures start0 == b && loadPending && handed == old(handed) + [b]
    {
      start0, loadPending, handed := b, true, handed + [b];
    }

    /** The full-mode `hpm_lcdc_isr`. */
    method LcdcIsr()
      requires Enabled(St(), Isr)
      modifies this
      ensures St() == IsrStep(old(St())) && !doneFlag
    {
      var s := doneFlag;
      doneFlag := false;
      if waitFlushBuffer.Buf? && !loadPending && s {
        SetNextBuffer(waitFlushBuffer.b);
        waitFlushBuffer := Nothing;
        FlushReady();
      }
    }
  }
}
