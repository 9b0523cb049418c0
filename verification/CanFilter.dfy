/**
 * Acceptance filters of the two CAN drivers. A list of filter items is recompiled into the hardware's own
 * lists and sent again at every reconfiguration; for data frames its meaning must survive.
 */
module CanFilter {

  import opened FilterWords

  /** An item of `rt_can_filter_config`: the identifier has 29 bits. */
  datatype Item = Item(id: bv32, ext: bool, mask: bv32)

  /** A data frame on the bus. */
  datatype Frame = Frame(id: bv32, ext: bool)

  predicate ValidItem(item: Item) {
    item.id <= EXT_BITS
  }

  predicate ValidFrame(f: Frame) {
    f.id <= if f.ext then EXT_BITS else STD_BITS
  }

  /** What an item means: same identifier kind, and no bit that its mask compares differs. */
  predicate Matches(item: Item, f: Frame) {
    item.ext == f.ext && Agree(f.id, item.id, item.mask)
  }

  predicate SomeMatch(items: seq<Item>, f: Frame) {
    exists k :: 0 <= k < |items| && Matches(items[k], f)
  }

  datatype Filter = NoFilter | Filter(items: seq<Item>, active: bool)

  // ---------------------------------------------------------------- MCAN: one item

  /** `mcan_filter_elem_t` of a classic filter that stores into FIFO 0. */
  datatype Elem = Elem(id: bv32, mask: bv32)

  function StdElem(e: Elem): bv32 {
    StdWord(e.id, e.mask)
  }

  function ExtElem(e: Elem): (bv32, bv32) {
    (ExtWord0(e.id), ExtWord1(e.mask))
  }

  /** Whether the controller takes a frame by the element made of an item. */
  predicate Takes(item: Item, id: bv32) {
    if item.ext then ExtAccepts(ExtWord0(item.id), ExtWord1(item.mask), GLOBAL_MASK, id)
    else StdAccepts(StdWord(item.id, item.mask), id)
  }

  /** The element takes exactly the frames that the item matches. */
  ghost predicate Faithful(item: Item) {
    forall id: bv32 :: ValidFrame(Frame(id, item.ext)) ==> (Takes(item, id) <==> Matches(item, Frame(id, item.ext)))
  }

  /**
   * What a caller can check: a standard item compares no one-bit above the eleventh; an extended one has
   * bit 30 of its mask clear, or is all ones.
   */
  predicate Plain(item: Item) {
    if item.ext then item.mask & 0x4000_0000 == 0 || (item.id == EXT_BITS && item.mask & EXT_BITS == EXT_BITS)
    else item.id & item.mask & !STD_BITS == 0
  }

  lemma PlainStdTakes(item: Item, id: bv32)
    requires !item.ext && Plain(item) && id <= STD_BITS
    ensures Takes(item, id) <==> Matches(item, Frame(id, false))
  {
    StdPlain(item.id, item.mask, id);
  }

  lemma PlainExtTakes(item: Item, id: bv32)
    requires item.ext && ValidItem(item) && Plain(item) && id <= EXT_BITS
    ensures Takes(item, id) <==> Matches(item, Frame(id, true))
  {
    if item.mask & 0x4000_0000 == 0 {
      ExtPlain(item.id, item.mask, id);
    } else {
      ExtOnes(item.id, item.mask, id);
    }
  }

  lemma PlainTakes(item: Item, id: bv32)
    requires ValidItem(item) && Plain(item) && ValidFrame(Frame(id, item.ext))
    ensures Takes(item, id) <==> Matches(item, Frame(id, item.ext))
  {
    if item.ext {
      PlainExtTakes(item, id);
    } else {
      PlainStdTakes(item, id);
    }
  }

  ghost predicate Odd(item: Item, id: bv32) {
    ValidFrame(Frame(id, item.ext)) && Takes(item, id) != Matches(item, Frame(id, item.ext))
  }

  lemma OddStd(item: Item)
    requires !item.ext && !Plain(item)
    ensures exists id :: Odd(item, id)
  {
    assert Odd(item, item.id & STD_BITS) by {
      StdCut(item.id, item.mask);
    }
  }

  lemma OddAbove(item: Item)
    requires item.ext && ValidItem(item) && !Plain(item) && !(item.id <= item.mask & EXT_BITS)
    ensures exists id :: Odd(item, id)
  {
    assert Odd(item, item.id) by {
      ExtAbove(item.id, item.mask);
    }
  }

  lemma OddBelow(item: Item)
    requires item.ext && item.id <= EXT_BITS && item.mask & 0x4000_0000 != 0
    requires item.id <= item.mask & EXT_BITS && item.id != item.mask & EXT_BITS
    ensures exists id :: Odd(item, id)
  {
    var m := item.mask & EXT_BITS;
    ExtBelow(item.id, item.mask, m);
    assert Takes(item, m) && !Matches(item, Frame(m, true));
    assert Odd(item, m);
  }

  lemma OddAt(item: Item)
    requires item.ext && ValidItem(item) && !Plain(item) && item.id == item.mask & EXT_BITS
    ensures exists id :: Odd(item, id)
  {
    assert Odd(item, EXT_BITS) by {
      ExtAt(item.id, item.mask);
    }
  }

  /** An item that is not plain and its element differ on some frame. */
  lemma OddFrame(item: Item)
    requires ValidItem(item) && !Plain(item)
    ensures exists id :: Odd(item, id)
  {
    if !item.ext {
      OddStd(item);
    } else if !(item.id <= item.mask & EXT_BITS) {
      OddAbove(item);
    } else if item.id == item.mask & EXT_BITS {
      OddAt(item);
    } else {
      OddBelow(item);
    }
  }

  /**
   * An item keeps its meaning in the hardware exactly when it is plain. Identifier bits above the eleventh
   * are cut from a standard element. Bit 30 of an extended mask turns the element's type from classic into
   * range, which is the same set of identifiers only when both identifier and mask are all ones.
   */
  lemma FaithfulIff(item: Item)
    requires ValidItem(item)
    ensures Faithful(item) <==> Plain(item)
  {
    if Plain(item) {
      forall id: bv32 | ValidFrame(Frame(id, item.ext))
        ensures Takes(item, id) <==> Matches(item, Frame(id, item.ext))
      {
        PlainTakes(item, id);
      }
    } else {
      OddFrame(item);
      var id :| Odd(item, id);
    }
  }

  /** The mask that RT-Thread's own macros use has bit 30 set: such an extended item takes every larger identifier. */
  lemma MacroMaskIsRange(id: bv32, f: bv32)
    requires id <= EXT_BITS && f <= EXT_BITS
    ensures Takes(Item(id, true, 0xFFFF_FFFF), f) <==> id <= f
  {
    ExtTakes(id, 0xFFFF_FFFF, f);
  }

  // ---------------------------------------------------------------- MCAN: splitting the list

  /** The items of one identifier kind, in order. */
  function Select(items: seq<Item>, ext: bool): seq<Elem> {
    if items == [] then []
    else
      var last := items[|items| - 1];
      Select(items[..|items| - 1], ext) + if last.ext == ext then [Elem(last.id, last.mask)] else []
  }

  /** Every item goes to exactly one of the two lists. */
  lemma {:induction false} SelectCounts(items: seq<Item>)
    ensures |Select(items, true)| + |Select(items, false)| == |items|
  {
    if items != [] {
      SelectCounts(items[..|items| - 1]);
    }
  }

  /** Splitting keeps the order: what stands before comes before. */
  lemma {:induction false} SelectKeepsOrder(a: seq<Item>, b: seq<Item>, ext: bool)
    ensures Select(a + b, ext) == Select(a, ext) + Select(b, ext)
  {
    if b == [] {
      assert a + b == a;
    } else {
      var init := b[..|b| - 1];
      assert (a + b)[..|a + b| - 1] == a + init;
      SelectKeepsOrder(a, init, ext);
    }
  }

  lemma {:induction false} SelectExact(items: seq<Item>, ext: bool, e: Elem)
    ensures e in Select(items, ext) <==> Item(e.id, ext, e.mask) in items
  {
    if items != [] {
      var last, init := items[|items| - 1], items[..|items| - 1];
      SelectExact(init, ext, e);
      assert items == init + [last];
    }
  }

  // ---------------------------------------------------------------- MCAN: the controller

  /** How a controller takes part in the bus. */
  datatype BusMode = NormalBus | ListenOnly | LoopbackInternal

  const RT_CAN_MODE_NORMAL: nat := 0

  const RT_CAN_MODE_LISTEN: nat := 1

  const RT_CAN_MODE_LOOPBACK: nat := 2

  /** The modes both drivers know. */
  predicate KnownMode(mode: nat) {
    mode == RT_CAN_MODE_NORMAL || mode == RT_CAN_MODE_LISTEN || mode == RT_CAN_MODE_LOOPBACK
  }

  lemma ModesAre(mode: nat)
    ensures KnownMode(mode) <==> mode < 3
    ensures KnownMode(mode) <==> exists bus :: InMode(bus, mode)
  {
    if KnownMode(mode) {
      assert InMode(BusModeOf(mode), mode);
    }
  }

  function BusModeOf(mode: nat): BusMode
    requires KnownMode(mode)
  {
    if mode == RT_CAN_MODE_NORMAL then NormalBus
    else if mode == RT_CAN_MODE_LISTEN then ListenOnly
    else LoopbackInternal
  }

  /** A controller that takes part as a mode asks for. */
  predicate InMode(bus: BusMode, mode: nat) {
    match bus
    case NormalBus => mode == RT_CAN_MODE_NORMAL
    case ListenOnly => mode == RT_CAN_MODE_LISTEN
    case LoopbackInternal => mode == RT_CAN_MODE_LOOPBACK
  }

  /** The filter part of the controller: message RAM, global mask, and what happens to frames no element takes. */
  datatype Filters =
    Filters(std: seq<bv32>, ext: seq<(bv32, bv32)>, globalMask: bv32, keepStd: bool, keepExt: bool)

  /** Either controller: its filters, and how and how fast it takes part in the bus. */
  datatype Controller<F> = Controller(filters: F, bus: BusMode, rate: nat)

  predicate Any<W>(ws: seq<W>, takes: W -> bool) {
    exists k :: 0 <= k < |ws| && takes(ws[k])
  }

  function StdTaker(id: bv32): bv32 -> bool {
    (w: bv32) => StdAccepts(w, id)
  }

  function ExtTaker(globalMask: bv32, id: bv32): ((bv32, bv32)) -> bool {
    (w: (bv32, bv32)) => ExtAccepts(w.0, w.1, globalMask, id)
  }

  predicate Accepts(c: Filters, f: Frame) {
    if f.ext then Any(c.ext, ExtTaker(c.globalMask, f.id)) || c.keepExt
    else Any(c.std, StdTaker(f.id)) || c.keepStd
  }

  /** Elements of each kind the message RAM is laid out for by default. */
  const LIST_SIZE: nat := 32

  /** `mcan_init` clears the RAM and writes the elements of both lists. */
  function Program(std: seq<Elem>, ext: seq<Elem>, keepStd: bool, keepExt: bool): Filters
    requires |std| <= LIST_SIZE && |ext| <= LIST_SIZE
  {
    Filters(seq(LIST_SIZE, i requires 0 <= i < LIST_SIZE => if i < |std| then StdElem(std[i]) else 0),
            seq(LIST_SIZE, i requires 0 <= i < LIST_SIZE => if i < |ext| then ExtElem(ext[i]) else (0, 0)),
            GLOBAL_MASK, keepStd, keepExt)
  }

  predicate Fits(filter: Filter) {
    filter.Filter? ==> |Select(filter.items, false)| <= LIST_SIZE && |Select(filter.items, true)| <= LIST_SIZE
  }

  /** What the controller must be programmed with for a filter list. */
  function Compile(filter: Filter): Filters
    requires Fits(filter)
  {
    match filter
    case NoFilter => Program([], [], true, true)
    case Filter(items, active) => Program(Select(items, false), Select(items, true), !active, !active)
  }

  /** Cleared elements take nothing. */
  lemma ClearedTakesNothing(id: bv32, globalMask: bv32)
    ensures !StdTaker(id)(0) && !ExtTaker(globalMask, id)((0, 0))
  {
  }

  function Matcher(f: Frame): Item -> bool {
    (item: Item) => Matches(item, f)
  }

  /** The words made of the selected items take what one of the items matches, if each does and the rest are idle. */
  lemma {:induction false} AnyOfSelected<W>(items: seq<Item>, ext: bool, ws: seq<W>, word: Elem -> W, takes: W -> bool,
                                            matches: Item -> bool)
    requires |Select(items, ext)| <= |ws|
    requires forall k :: 0 <= k < |Select(items, ext)| ==> ws[k] == word(Select(items, ext)[k])
    requires forall k :: |Select(items, ext)| <= k < |ws| ==> !takes(ws[k])
    requires forall k :: 0 <= k < |items| ==>
               (matches(items[k]) <==> items[k].ext == ext && takes(word(Elem(items[k].id, items[k].mask))))
    ensures Any(ws, takes) <==> Any(items, matches)
  {
    var list := Select(items, ext);
    if k :| 0 <= k < |ws| && takes(ws[k]) {
      SelectExact(items, ext, list[k]);
      var j :| 0 <= j < |items| && items[j] == Item(list[k].id, ext, list[k].mask);
      assert matches(items[j]);
    }
    if j :| 0 <= j < |items| && matches(items[j]) {
      var e := Elem(items[j].id, items[j].mask);
      SelectExact(items, ext, e);
      var k :| 0 <= k < |list| && list[k] == e;
      assert takes(ws[k]);
    }
  }

  /** Whether the element made of an item takes a frame. */
  function Taker(f: Frame): Item -> bool {
    (item: Item) => item.ext == f.ext && Takes(item, f.id)
  }

  lemma StdItem(item: Item, f: Frame)
    requires !f.ext
    ensures Taker(f)(item) <==> item.ext == false && StdTaker(f.id)(StdElem(Elem(item.id, item.mask)))
  {
  }

  lemma ExtItem(item: Item, f: Frame)
    requires f.ext
    ensures Taker(f)(item) <==> item.ext == true && ExtTaker(GLOBAL_MASK, f.id)(ExtElem(Elem(item.id, item.mask)))
  {
  }

  /** Programmed and cleared elements together take what the element of some item takes, for every list. */
  lemma ListAccepts(items: seq<Item>, keep: bool, f: Frame)
    requires |Select(items, false)| <= LIST_SIZE && |Select(items, true)| <= LIST_SIZE
    ensures Accepts(Program(Select(items, false), Select(items, true), keep, keep), f) <==> keep || Any(items, Taker(f))
  {
    var c := Program(Select(items, false), Select(items, true), keep, keep);
    ClearedTakesNothing(f.id, GLOBAL_MASK);
    if f.ext {
      forall k | 0 <= k < |items|
        ensures Taker(f)(items[k])
                <==> items[k].ext == true && ExtTaker(GLOBAL_MASK, f.id)(ExtElem(Elem(items[k].id, items[k].mask)))
      {
        ExtItem(items[k], f);
      }
      AnyOfSelected(items, true, c.ext, ExtElem, ExtTaker(GLOBAL_MASK, f.id), Taker(f));
    } else {
      forall k | 0 <= k < |items|
        ensures Taker(f)(items[k])
                <==> items[k].ext == false && StdTaker(f.id)(StdElem(Elem(items[k].id, items[k].mask)))
      {
        StdItem(items[k], f);
      }
      AnyOfSelected(items, false, c.std, StdElem, StdTaker(f.id), Taker(f));
    }
  }

  predicate PlainFilter(filter: Filter) {
    filter.Filter? ==> forall k :: 0 <= k < |filter.items| ==> ValidItem(filter.items[k]) && Plain(filter.items[k])
  }

  /** Frames a filter asks for: all of them without an active one, otherwise those that some item matches. */
  predicate Wanted(filter: Filter, f: Frame) {
    filter.NoFilter? || !filter.active || SomeMatch(filter.items, f)
  }

  /** Frames it gets: the same, with elements in place of items. */
  predicate Taken(filter: Filter, f: Frame) {
    filter.NoFilter? || !filter.active || Any(filter.items, Taker(f))
  }

  /** The compiled lists accept what the elements of the items take, whatever the items are. */
  lemma CompileAccepts(filter: Filter, f: Frame)
    requires Fits(filter)
    ensures Accepts(Compile(filter), f) <==> Taken(filter, f)
  {
    if filter.Filter? {
      ListAccepts(filter.items, !filter.active, f);
    }
  }

  lemma PlainItem(item: Item, f: Frame)
    requires ValidItem(item) && Plain(item) && ValidFrame(f)
    ensures Taker(f)(item) <==> Matcher(f)(item)
  {
    if item.ext == f.ext {
      PlainTakes(item, f.id);
    }
  }

  lemma AnyPlain(items: seq<Item>, f: Frame)
    requires ValidFrame(f) && forall k :: 0 <= k < |items| ==> ValidItem(items[k]) && Plain(items[k])
    ensures Any(items, Taker(f)) <==> Any(items, Matcher(f))
  {
    forall k | 0 <= k < |items|
      ensures Taker(f)(items[k]) <==> Matcher(f)(items[k])
    {
      PlainItem(items[k], f);
    }
    AnySame(items, Taker(f), Matcher(f));
  }

  lemma AnySame(items: seq<Item>, p: Item -> bool, q: Item -> bool)
    requires forall k :: 0 <= k < |items| ==> (p(items[k]) <==> q(items[k]))
    ensures Any(items, p) <==> Any(items, q)
  {
  }

  /** With plain items the compiled lists mean what the filter list means. */
  lemma CompileKeepsMeaning(filter: Filter, f: Frame)
    requires Fits(filter) && PlainFilter(filter) && ValidFrame(f)
    ensures Accepts(Compile(filter), f) <==> Wanted(filter, f)
  {
    CompileAccepts(filter, f);
    if filter.Filter? {
      AnyPlain(filter.items, f);
    }
  }

  lemma CompiledMeansWanted(filter: Filter)
    requires Fits(filter) && PlainFilter(filter)
    ensures forall f :: ValidFrame(f) ==> (Accepts(Compile(filter), f) <==> Wanted(filter, f))
  {
    forall f | ValidFrame(f)
      ensures Accepts(Compile(filter), f) <==> Wanted(filter, f)
    {
      CompileKeepsMeaning(filter, f);
    }
  }

  // ---------------------------------------------------------------- commands

  datatype Command = SetFilter(filter: Filter) | SetMode(mode: nat) | SetBaud(baud: nat)

  datatype Chip = Mcan | Older

  /** Whether a configuration with this filter can succeed. */
  predicate Holds(chip: Chip, filter: Filter) {
    chip.Older? || Fits(filter)
  }

  /** What a driver remembers, and whether its controller was programmed from it since. */
  datatype Memory = Memory(chip: Chip, filter: Filter, mode: nat, baud: nat, applied: bool)

  /** One command; `ok` is whether the controller accepts the configuration, if it gets one. */
  function After(m: Memory, cmd: Command, ok: bool): Memory {
    match cmd
    case SetFilter(filter) => m.(filter := filter, applied := ok && KnownMode(m.mode) && Holds(m.chip, filter))
    case SetMode(mode) =>
      if !KnownMode(mode) || mode == m.mode then m
      else m.(mode := mode, applied := ok && Holds(m.chip, m.filter))
    case SetBaud(baud) => m.(baud := baud, applied := ok && KnownMode(m.mode) && Holds(m.chip, m.filter))
  }

  /** The first n commands of a run. */
  function Run(m: Memory, cmds: seq<(Command, bool)>, n: nat): Memory
    requires n <= |cmds|
  {
    if n == 0 then m else After(Run(m, cmds, n - 1), cmds[n - 1].0, cmds[n - 1].1)
  }

  /** The last filter given, mode given that is known, and rate given, or what there was. */
  function LastFilter(start: Filter, cmds: seq<(Command, bool)>, n: nat): Filter
    requires n <= |cmds|
  {
    if n == 0 then start
    else if cmds[n - 1].0.SetFilter? then cmds[n - 1].0.filter
    else LastFilter(start, cmds, n - 1)
  }

  function LastMode(start: nat, cmds: seq<(Command, bool)>, n: nat): nat
    requires n <= |cmds|
  {
    if n == 0 then start
    else if cmds[n - 1].0.SetMode? && KnownMode(cmds[n - 1].0.mode) then cmds[n - 1].0.mode
    else LastMode(start, cmds, n - 1)
  }

  function LastBaud(start: nat, cmds: seq<(Command, bool)>, n: nat): nat
    requires n <= |cmds|
  {
    if n == 0 then start
    else if cmds[n - 1].0.SetBaud? then cmds[n - 1].0.baud
    else LastBaud(start, cmds, n - 1)
  }

  /** Over every run the driver remembers the last of each kind, whatever came between and failed. */
  lemma {:induction false} RunRemembersLast(m: Memory, cmds: seq<(Command, bool)>, n: nat)
    requires n <= |cmds|
    ensures Run(m, cmds, n).chip == m.chip
    ensures Run(m, cmds, n).filter == LastFilter(m.filter, cmds, n)
    ensures Run(m, cmds, n).mode == LastMode(m.mode, cmds, n)
    ensures Run(m, cmds, n).baud == LastBaud(m.baud, cmds, n)
  {
    if n > 0 {
      RunRemembersLast(m, cmds, n - 1);
    }
  }

  /** Whether a command makes a driver in this mode configure its controller. */
  predicate Configures(mode: nat, cmd: Command) {
    cmd.SetMode? ==> KnownMode(cmd.mode) && cmd.mode != mode
  }

  /** Command k is the last of the first n to do so. */
  ghost predicate LastToConfigure(start: nat, cmds: seq<(Command, bool)>, n: nat, k: nat)
    requires n <= |cmds|
  {
    && k < n && Configures(LastMode(start, cmds, k), cmds[k].0)
    && forall j :: k < j < n ==> !Configures(LastMode(start, cmds, j), cmds[j].0)
  }

  /**
   * After a run the controller holds what the driver remembers exactly when the last command that configured it was
   * accepted, with a known mode and a filter that fits.
   */
  lemma {:induction false} AppliedIff(m: Memory, cmds: seq<(Command, bool)>, n: nat, k: nat)
    requires n <= |cmds| && LastToConfigure(m.mode, cmds, n, k)
    ensures Run(m, cmds, n).applied <==>
              cmds[k].1 && KnownMode(LastMode(m.mode, cmds, n)) && Holds(m.chip, LastFilter(m.filter, cmds, n))
  {
    RunRemembersLast(m, cmds, n - 1);
    if k < n - 1 {
      assert !Configures(LastMode(m.mode, cmds, n - 1), cmds[n - 1].0);
      AppliedIff(m, cmds, n - 1, k);
    }
  }

  class McanDriver {
    const std: array<Elem>
    const ext: array<Elem>
    var stdNum: nat
    var extNum: nat
    var keepStd: bool
    var keepExt: bool
    var mode: nat
    var baud: nat
    var controller: Controller<Filters>
    ghost var memory: Memory

    /** The arrays hold the last filter list, split; when it has been applied, the controller does too. */
    ghost predicate Valid()
      reads this, std, ext
    {
      && std.Length == 128 && ext.Length == 64 && std != ext
      && stdNum <= std.Length && extNum <= ext.Length
      && memory.chip == Mcan && memory.mode == mode && memory.baud == baud
      && (match memory.filter
          case NoFilter => stdNum == extNum == 0 && keepStd && keepExt
          case Filter(items, active) =>
            && std[..stdNum] == Select(items, false) && ext[..extNum] == Select(items, true)
            && keepStd == keepExt == !active)
      && (memory.applied ==>
            && Fits(memory.filter) && controller.filters == Compile(memory.filter)
            && InMode(controller.bus, mode) && controller.rate == baud)
    }

    constructor (controller: Controller<Filters>)
      ensures Valid() && memory == Memory(Mcan, NoFilter, 0, 0, false) && this.controller == controller
      ensures fresh(std) && fresh(ext)
    {
      std := new Elem[128](_ => Elem(0, 0));
      ext := new Elem[64](_ => Elem(0, 0));
      stdNum, extNum, keepStd, keepExt, mode, baud := 0, 0, true, true, 0, 0;
      this.controller := controller;
      memory := Memory(Mcan, NoFilter, 0, 0, false);
    }

    /** `hpm_mcan_configure`. A configuration that fails leaves the controller in no particular state. */
    method Configure(ok: bool) returns (success: bool)
      requires Valid()
      modifies this`controller, this`memory
      ensures Valid()
      ensures success <==> ok && KnownMode(mode) && Fits(memory.filter)
      ensures memory == old(memory).(applied := success)
    {
      if !KnownMode(mode) {
        memory := memory.(applied := false);
        return false;
      }
      if !ok || stdNum > LIST_SIZE || extNum > LIST_SIZE {
        controller := *;
        memory := memory.(applied := false);
        return false;
      }
      controller := Controller(Program(std[..stdNum], ext[..extNum], keepStd, keepExt), BusModeOf(mode), baud);
      if memory.filter.NoFilter? {
        assert std[..0] == [] && ext[..0] == [];
      }
      memory := memory.(applied := true);
      success := true;
    }

    /** One item of a filter list goes to the end of the list of its kind. */
    method AddItem(item: Item)
      requires std != ext && stdNum <= std.Length && extNum <= ext.Length
      requires if item.ext then extNum < ext.Length else stdNum < std.Length
      modifies this`stdNum, this`extNum, std, ext
      ensures stdNum <= std.Length && extNum <= ext.Length
      ensures std[..stdNum] == old(std[..stdNum]) + (if item.ext then [] else [Elem(item.id, item.mask)])
      ensures ext[..extNum] == old(ext[..extNum]) + (if item.ext then [Elem(item.id, item.mask)] else [])
    {
      if item.ext {
        ext[extNum] := Elem(item.id, item.mask);
        extNum := extNum + 1;
      } else {
        std[stdNum] := Elem(item.id, item.mask);
        stdNum := stdNum + 1;
      }
    }

    method SplitItems(items: seq<Item>)
      requires std != ext && |Select(items, false)| <= std.Length && |Select(items, true)| <= ext.Length
      modifies this`stdNum, this`extNum, std, ext
      ensures stdNum <= std.Length && std[..stdNum] == Select(items, false)
      ensures extNum <= ext.Length && ext[..extNum] == Select(items, true)
    {
      stdNum, extNum := 0, 0;
      var i := 0;
      while i < |items|
        invariant 0 <= i <= |items| && stdNum <= std.Length && extNum <= ext.Length
        invariant std[..stdNum] == Select(items[..i], false) && ext[..extNum] == Select(items[..i], true)
      {
        RoomForNext(items, i);
        SelectNext(items, i);
        AddItem(items[i]);
        i := i + 1;
      }
      assert items[..i] == items;
    }

    method ControlSetFilter(filter: Filter, ok: bool) returns (success: bool)
      requires Valid()
      requires filter.Filter? ==> |Select(filter.items, false)| <= 128 && |Select(filter.items, true)| <= 64
      modifies this`stdNum, this`extNum, this`keepStd, this`keepExt, this`controller, this`memory, std, ext
      ensures Valid() && memory == old(memory).(filter := filter, applied := success)
      ensures success <==> ok && KnownMode(mode) && Fits(filter)
    {
      stdNum, extNum := 0, 0;
      if filter.Filter? {
        SplitItems(filter.items);
        keepStd, keepExt := !filter.active, !filter.active;
      } else {
        keepStd, keepExt := true, true;
      }
      memory := memory.(filter := filter, applied := false);
      success := Configure(ok);
    }

    method ControlSetMode(arg: nat, ok: bool) returns (success: bool)
      requires Valid()
      modifies this`mode, this`controller, this`memory
      ensures Valid()
      ensures success <==> KnownMode(arg) && (arg == old(mode) || (ok && Fits(memory.filter)))
      ensures memory == if !KnownMode(arg) || arg == old(mode) then old(memory)
                        else old(memory).(mode := arg, applied := success)
    {
      if !KnownMode(arg) {
        return false;
      }
      success := true;
      if arg != mode {
        mode, memory := arg, memory.(mode := arg, applied := false);
        success := Configure(ok);
      }
    }

    method ControlSetBaud(arg: nat, ok: bool) returns (success: bool)
      requires Valid()
      modifies this`baud, this`controller, this`memory
      ensures Valid() && memory == old(memory).(baud := arg, applied := success)
      ensures success <==> ok && KnownMode(mode) && Fits(memory.filter)
    {
      if arg != baud {
        baud := arg;
      }
      memory := memory.(baud := arg, applied := false);
      success := Configure(ok);
    }

    method Obey(cmd: Command, ok: bool) returns (success: bool)
      requires Valid()
      requires cmd.SetFilter? && cmd.filter.Filter? ==>
                 |Select(cmd.filter.items, false)| <= 128 && |Select(cmd.filter.items, true)| <= 64
      modifies this, std, ext
      ensures Valid() && memory == After(old(memory), cmd, ok)
    {
      match cmd {
        case SetFilter(filter) => success := ControlSetFilter(filter, ok);
        case SetMode(arg) => success := ControlSetMode(arg, ok);
        case SetBaud(arg) => success := ControlSetBaud(arg, ok);
      }
    }

    /**
     * Any run of filter, mode and baud commands, the controller answering each with its flag. When the last
     * configuration was accepted the controller holds the last of each.
     */
    method Perform(cmds: seq<(Command, bool)>)
      requires Valid()
      requires forall k :: 0 <= k < |cmds| && cmds[k].0.SetFilter? && cmds[k].0.filter.Filter? ==>
                 |Select(cmds[k].0.filter.items, false)| <= 128 && |Select(cmds[k].0.filter.items, true)| <= 64
      modifies this, std, ext
      ensures Valid() && memory == Run(old(memory), cmds, |cmds|)
      ensures forall k: nat :: LastToConfigure(old(mode), cmds, |cmds|, k) ==>
                (memory.applied <==> && cmds[k].1 && KnownMode(LastMode(old(mode), cmds, |cmds|))
                                     && Fits(LastFilter(old(memory.filter), cmds, |cmds|)))
      ensures memory.applied ==>
                && Fits(LastFilter(old(memory.filter), cmds, |cmds|))
                && controller.filters == Compile(LastFilter(old(memory.filter), cmds, |cmds|))
                && InMode(controller.bus, LastMode(old(mode), cmds, |cmds|))
                && controller.rate == LastBaud(old(baud), cmds, |cmds|)
      ensures memory.applied && PlainFilter(LastFilter(old(memory.filter), cmds, |cmds|)) ==>
                forall f :: ValidFrame(f) ==>
                  (Accepts(controller.filters, f) <==> Wanted(LastFilter(old(memory.filter), cmds, |cmds|), f))
    {
      ghost var start := memory;
      for k := 0 to |cmds|
        invariant Valid() && memory == Run(start, cmds, k)
      {
        var success := Obey(cmds[k].0, cmds[k].1);
      }
      RunRemembersLast(start, cmds, |cmds|);
      forall k: nat | LastToConfigure(start.mode, cmds, |cmds|, k)
        ensures memory.applied <==> && cmds[k].1 && KnownMode(LastMode(start.mode, cmds, |cmds|))
                                    && Fits(LastFilter(start.filter, cmds, |cmds|))
      {
        AppliedIff(start, cmds, |cmds|, k);
      }
      if memory.applied && PlainFilter(memory.filter) {
        CompiledMeansWanted(memory.filter);
      }
    }
  }

  lemma SelectNext(items: seq<Item>, i: nat)
    requires i < |items|
    ensures forall e :: Select(items[..i + 1], e)
                        == Select(items[..i], e) + if items[i].ext == e then [Elem(items[i].id, items[i].mask)] else []
  {
    assert items[..i + 1][..i] == items[..i];
  }

  lemma RoomForNext(items: seq<Item>, i: nat)
    requires i < |items|
    ensures |Select(items[..i], true)| + (if items[i].ext then 1 else 0) <= |Select(items, true)|
    ensures |Select(items[..i], false)| + (if items[i].ext then 0 else 1) <= |Select(items, false)|
  {
    forall e: bool
      ensures |Select(items[..i], e)| + (if items[i].ext == e then 1 else 0) <= |Select(items, e)|
    {
      assert items == items[..i + 1] + items[i + 1..];
      SelectKeepsOrder(items[..i + 1], items[i + 1..], e);
      assert items[..i + 1][..i] == items[..i];
    }
  }

  // ---------------------------------------------------------------- the older controller

  /** `can_filter_config_t`. */
  datatype Slot = Slot(enable: bool, both: bool, ext: bool, code: bv32, mask: bv32)

  const SLOTS: nat := 16

  /** The register keeps 29 bits; ones in its mask are the bits that do not matter. */
  predicate SlotAccepts(s: Slot, f: Frame) {
    s.enable && (s.both || s.ext == f.ext) && (f.id ^ s.code) & !s.mask & (if f.ext then EXT_BITS else STD_BITS) == 0
  }

  function SlotFor(item: Item, active: bool): Slot {
    Slot(active, false, item.ext, item.id, InvertedMask(item.mask))
  }

  lemma InvertedExtSlot(item: Item, f: Frame)
    requires ValidItem(item) && f.id <= EXT_BITS && item.ext && f.ext
    ensures SlotAccepts(SlotFor(item, true), f) <==> Matches(item, f)
  {
    InvertedExt(item.id, item.mask, f.id);
  }

  lemma InvertedStdSlot(item: Item, f: Frame)
    requires f.id <= STD_BITS && !item.ext && !f.ext && item.id & item.mask & !STD_BITS == 0
    ensures SlotAccepts(SlotFor(item, true), f) <==> Matches(item, f)
  {
    InvertedStd(item.id, item.mask, f.id);
  }

  /** The inverted mask, cut to 29 bits, means the same as the original. */
  lemma InvertedMaskMeansSame(item: Item, f: Frame)
    requires ValidItem(item) && ValidFrame(f) && Low(item)
    ensures SlotAccepts(SlotFor(item, true), f) <==> Matches(item, f)
  {
    if item.ext == f.ext {
      if f.ext {
        InvertedExtSlot(item, f);
      } else {
        InvertedStdSlot(item, f);
      }
    }
  }

  /** What a caller can check for the older driver: a standard item compares no one-bit above the eleventh. */
  predicate Low(item: Item) {
    !item.ext ==> item.id & item.mask & !STD_BITS == 0
  }

  ghost predicate OldFaithful(item: Item) {
    forall f :: ValidFrame(f) ==> (SlotAccepts(SlotFor(item, true), f) <==> Matches(item, f))
  }

  lemma OldOdd(item: Item)
    requires !Low(item)
    ensures !OldFaithful(item)
  {
    var f := Frame(item.id & STD_BITS, false);
    InvertedCut(item.id, item.mask);
    assert ValidFrame(f) && SlotAccepts(SlotFor(item, true), f) && !Matches(item, f);
  }

  /** An item keeps its meaning in the older controller exactly when it is low. */
  lemma OldFaithfulIff(item: Item)
    requires ValidItem(item)
    ensures OldFaithful(item) <==> Low(item)
  {
    if Low(item) {
      forall f | ValidFrame(f)
        ensures SlotAccepts(SlotFor(item, true), f) <==> Matches(item, f)
      {
        InvertedMaskMeansSame(item, f);
      }
    } else {
      OldOdd(item);
    }
  }

  /** `can_init`: the slots of the list, or with an empty list one that takes everything. */
  function OldProgram(filter: Filter): seq<Slot> {
    if filter.NoFilter? || filter.items == [] then [Slot(true, true, false, 0, EXT_BITS)]
    else seq(|filter.items|, k requires 0 <= k < |filter.items| => SlotFor(filter.items[k], filter.active))
  }

  predicate OldAccepts(slots: seq<Slot>, f: Frame) {
    exists k :: 0 <= k < |slots| && SlotAccepts(slots[k], f)
  }

  /** No standard item compares a one-bit above the eleventh. */
  predicate LowFilter(filter: Filter) {
    filter.Filter? ==>
      forall k :: 0 <= k < |filter.items| ==>
        ValidItem(filter.items[k]) && Low(filter.items[k])
  }

  /** Frames the older driver's filter asks for. It differs for an empty list, and for one that is not active. */
  predicate OldWanted(filter: Filter, f: Frame) {
    filter.NoFilter? || filter.items == [] || (filter.active && SomeMatch(filter.items, f))
  }

  /**
   * The older driver accepts everything without a filter and, unlike the newer one, also with an empty
   * list; with any other active list exactly the frames some item matches; with a list that is not active,
   * again unlike the newer one, nothing.
   */
  lemma OldKeepsMeaning(filter: Filter, f: Frame)
    requires ValidFrame(f) && LowFilter(filter)
    ensures OldAccepts(OldProgram(filter), f) <==> OldWanted(filter, f)
  {
    var slots := OldProgram(filter);
    if filter.NoFilter? || filter.items == [] {
      TakesAll(f);
      assert SlotAccepts(slots[0], f);
    } else if filter.active {
      forall k | 0 <= k < |filter.items|
        ensures SlotAccepts(slots[k], f) <==> Matches(filter.items[k], f)
      {
        InvertedMaskMeansSame(filter.items[k], f);
      }
    }
  }

  lemma OldProgramMeansWanted(filter: Filter)
    requires LowFilter(filter)
    ensures forall f :: ValidFrame(f) ==> (OldAccepts(OldProgram(filter), f) <==> OldWanted(filter, f))
  {
    forall f | ValidFrame(f)
      ensures OldAccepts(OldProgram(filter), f) <==> OldWanted(filter, f)
    {
      OldKeepsMeaning(filter, f);
    }
  }

  lemma TakesAll(f: Frame)
    requires ValidFrame(f)
    ensures SlotAccepts(Slot(true, true, false, 0, EXT_BITS), f)
  {
  }

  class CanDriver {
    const list: array<Slot>
    var filterNum: nat
    var mode: nat
    var baud: nat
    var controller: Controller<seq<Slot>>
    ghost var memory: Memory

    /** The array holds the last filter list; when it has been applied, the controller does too. */
    ghost predicate Valid()
      reads this, list
    {
      && list.Length == SLOTS && filterNum <= SLOTS
      && memory.chip == Older && memory.mode == mode && memory.baud == baud
      && (match memory.filter
          case NoFilter => filterNum == 0
          case Filter(items, active) =>
            && filterNum == |items|
            && forall k :: 0 <= k < filterNum ==> list[k] == SlotFor(items[k], active))
      && (memory.applied ==>
            && controller.filters == OldProgram(memory.filter)
            && InMode(controller.bus, mode) && controller.rate == baud)
    }

    constructor (controller: Controller<seq<Slot>>)
      ensures Valid() && memory == Memory(Older, NoFilter, 0, 0, false)
      ensures fresh(list) && this.controller == controller
    {
      list := new Slot[SLOTS](_ => Slot(false, false, false, 0, 0));
      filterNum, mode, baud := 0, 0, 0;
      this.controller := controller;
      memory := Memory(Older, NoFilter, 0, 0, false);
    }

    /** `hpm_can_configure`. A configuration that fails leaves the controller in no particular state. */
    method Configure(ok: bool) returns (success: bool)
      requires Valid()
      modifies this`controller, this`memory
      ensures Valid() && success == (ok && KnownMode(mode))
      ensures memory == old(memory).(applied := success)
    {
      if !KnownMode(mode) {
        memory := memory.(applied := false);
        return false;
      }
      if ok {
        var slots := if filterNum == 0 then [Slot(true, true, false, 0, EXT_BITS)] else list[..filterNum];
        controller := Controller(slots, BusModeOf(mode), baud);
      } else {
        controller := *;
      }
      memory := memory.(applied := ok);
      success := ok;
    }

    method FillSlots(items: seq<Item>, active: bool)
      requires list.Length == SLOTS && |items| <= SLOTS
      modifies list
      ensures forall k :: 0 <= k < |items| ==> list[k] == SlotFor(items[k], active)
    {
      for i := 0 to |items|
        invariant forall k :: 0 <= k < i ==> list[k] == SlotFor(items[k], active)
      {
        list[i] := SlotFor(items[i], active);
      }
    }

    method ControlSetFilter(filter: Filter, ok: bool) returns (success: bool)
      requires Valid() && (filter.Filter? ==> |filter.items| <= SLOTS)
      modifies this`filterNum, this`controller, this`memory, list
      ensures Valid() && memory == old(memory).(filter := filter, applied := success)
      ensures success <==> ok && KnownMode(mode)
    {
      if filter.Filter? {
        filterNum := |filter.items|;
        FillSlots(filter.items, filter.active);
      } else {
        filterNum := 0;
      }
      memory := memory.(filter := filter, applied := false);
      success := Configure(ok);
    }

    method ControlSetMode(arg: nat, ok: bool) returns (success: bool)
      requires Valid()
      modifies this`mode, this`controller, this`memory
      ensures Valid()
      ensures success <==> KnownMode(arg) && (arg == old(mode) || (ok))
      ensures memory == if !KnownMode(arg) || arg == old(mode) then old(memory)
                        else old(memory).(mode := arg, applied := success)
    {
      if !KnownMode(arg) {
        return false;
      }
      success := true;
      if arg != mode {
        mode, memory := arg, memory.(mode := arg, applied := false);
        success := Configure(ok);
      }
    }

    method ControlSetBaud(arg: nat, ok: bool) returns (success: bool)
      requires Valid()
      modifies this`baud, this`controller, this`memory
      ensures Valid() && memory == old(memory).(baud := arg, applied := success)
      ensures success <==> ok && KnownMode(mode)
    {
      if arg != baud {
        baud := arg;
      }
      memory := memory.(baud := arg, applied := false);
      success := Configure(ok);
    }

    method Obey(cmd: Command, ok: bool) returns (success: bool)
      requires Valid() && (cmd.SetFilter? && cmd.filter.Filter? ==> |cmd.filter.items| <= SLOTS)
      modifies this, list
      ensures Valid() && memory == After(old(memory), cmd, ok)
    {
      match cmd {
        case SetFilter(filter) => success := ControlSetFilter(filter, ok);
        case SetMode(arg) => success := ControlSetMode(arg, ok);
        case SetBaud(arg) => success := ControlSetBaud(arg, ok);
      }
    }

    /**
     * Any run of filter, mode and baud commands, the controller answering each with its flag. When the last
     * configuration was accepted the controller holds the last of each.
     */
    method Perform(cmds: seq<(Command, bool)>)
      requires Valid()
      requires forall k :: 0 <= k < |cmds| && cmds[k].0.SetFilter? && cmds[k].0.filter.Filter? ==>
                 |cmds[k].0.filter.items| <= SLOTS
      modifies this, list
      ensures Valid() && memory == Run(old(memory), cmds, |cmds|)
      ensures forall k: nat :: LastToConfigure(old(mode), cmds, |cmds|, k) ==>
                (memory.applied <==> cmds[k].1 && KnownMode(LastMode(old(mode), cmds, |cmds|)))
      ensures memory.applied ==>
                && controller.filters == OldProgram(LastFilter(old(memory.filter), cmds, |cmds|))
                && InMode(controller.bus, LastMode(old(mode), cmds, |cmds|))
                && controller.rate == LastBaud(old(baud), cmds, |cmds|)
      ensures memory.applied && LowFilter(LastFilter(old(memory.filter), cmds, |cmds|)) ==>
                forall f :: ValidFrame(f) ==>
                  (OldAccepts(controller.filters, f) <==> OldWanted(LastFilter(old(memory.filter), cmds, |cmds|), f))
    {
      ghost var start := memory;
      for k := 0 to |cmds|
        invariant Valid() && memory == Run(start, cmds, k)
      {
        var success := Obey(cmds[k].0, cmds[k].1);
      }
      RunRemembersLast(start, cmds, |cmds|);
      forall k: nat | LastToConfigure(start.mode, cmds, |cmds|, k)
        ensures memory.applied <==> cmds[k].1 && KnownMode(LastMode(start.mode, cmds, |cmds|))
      {
        AppliedIff(start, cmds, |cmds|, k);
      }
      if memory.applied && LowFilter(memory.filter) {
        OldProgramMeansWanted(memory.filter);
      }
    }
  }
}
