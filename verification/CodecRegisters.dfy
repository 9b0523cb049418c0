/**
 * What the functions of the WM8960 driver are for: register by register, the bits of the chip that each of them
 * leaves behind when it succeeds. The tables follow the register map; the driver's chains of operations are
 * proved to produce them.
 */
module CodecRegisters {

  import opened Codec

  // ---------------------------------------------------------------- changes

  /** The bits of `mask` become those of `val`, which lie in it; all others stay. */
  datatype Change = Change(mask: bv16, val: bv16)

  const NONE := Change(0, 0)

  const ALL: bv16 := 0xFFFF

  function Apply(c: Change, v: bv16): bv16 {
    (v & !c.mask) | c.val
  }

  /** One change after another. */
  function After(c: Change, d: Change): Change {
    Change(c.mask | d.mask, Apply(d, c.val))
  }

  lemma Distribute(x: bv16, y: bv16, z: bv16)
    ensures (x | y) & z == (x & z) | (y & z)
  {
  }

  lemma BothKept(v: bv16, a: bv16, b: bv16)
    ensures v & !a & !b == v & !(a | b)
  {
  }

  lemma OrAssociates(x: bv16, y: bv16, z: bv16)
    ensures (x | y) | z == x | (y | z)
  {
  }

  lemma ApplyAfter(c: Change, d: Change, v: bv16)
    ensures Apply(After(c, d), v) == Apply(d, Apply(c, v))
  {
    Distribute(v & !c.mask, c.val, !d.mask);
    BothKept(v, c.mask, d.mask);
    OrAssociates(v & !(c.mask | d.mask), c.val & !d.mask, d.val);
  }

  /** What an operation does to a register. */
  function OnReg(op: Op, reg: nat): Change {
    if op.reg != reg then NONE else if op.Write? then Change(ALL, op.val) else Change(op.mask | op.val, op.val)
  }

  lemma MaskedIsApply(v: bv16, mask: bv16, val: bv16)
    ensures Masked(v, mask, val) == Apply(Change(mask | val, val), v)
  {
    BothKept(v, mask, val);
    Absorbed(v & !mask, val);
  }

  lemma Absorbed(x: bv16, a: bv16)
    ensures (x & !a) | a == x | a
  {
  }

  lemma WholeIsApply(v: bv16, val: bv16)
    ensures Apply(Change(ALL, val), v) == val && Apply(NONE, v) == v
  {
  }

  function Effect(ops: seq<Op>, reg: nat): Change
    decreases |ops|
  {
    if ops == [] then NONE else After(Effect(ops[..|ops| - 1], reg), OnReg(ops[|ops| - 1], reg))
  }

  lemma ValueIsApply(s: State, op: Op, reg: nat)
    requires IsState(s) && InRange(op) && reg < REG_NUM
    ensures Apply(OnReg(op, reg), s.shadow[reg]) == if op.reg == reg then Value(s, op) else s.shadow[reg]
  {
    WholeIsApply(s.shadow[reg], op.val);
    if op.Modify? {
      MaskedIsApply(s.shadow[reg], op.mask, op.val);
    }
  }

  lemma StepFollows(s: State, op: Op, reg: nat)
    requires Synced(s) && Plain(op) && reg < REG_NUM
    ensures Step(s, op).chip.regs[reg] == Apply(OnReg(op, reg), s.chip.regs[reg])
  {
    PlainValue(s, op);
    SentKeepsSynced(s, op.reg, Value(s, op));
    ValueIsApply(s, op, reg);
  }

  lemma EffectMore(ops: seq<Op>, n: nat, reg: nat, v: bv16)
    requires 0 < n <= |ops|
    ensures Apply(Effect(ops[..n], reg), v) == Apply(OnReg(ops[n - 1], reg), Apply(Effect(ops[..n - 1], reg), v))
  {
    assert ops[..n][..n - 1] == ops[..n - 1];
    ApplyAfter(Effect(ops[..n - 1], reg), OnReg(ops[n - 1], reg), v);
  }

  /** The chip's registers follow the operations. */
  lemma {:induction false} ChipFollows(s: State, ops: seq<Op>, n: nat, reg: nat)
    requires Synced(s) && AllPlain(ops) && n <= |ops| && reg < REG_NUM
    ensures Exec(s, ops, n).chip.regs[reg] == Apply(Effect(ops[..n], reg), s.chip.regs[reg])
  {
    if n == 0 {
      WholeIsApply(s.chip.regs[reg], 0);
    } else {
      ChipFollows(s, ops, n - 1, reg);
      PrefixesStaySynced(s, ops, n - 1);
      StepFollows(Exec(s, ops, n - 1), ops[n - 1], reg);
      EffectMore(ops, n, reg, s.chip.regs[reg]);
    }
  }

  lemma AfterAssociates(c: Change, d: Change, e: Change)
    ensures After(After(c, d), e) == After(c, After(d, e))
  {
    OrAssociates(c.mask, d.mask, e.mask);
    ApplyAfter(d, e, c.val);
  }

  lemma AfterNone(c: Change)
    ensures After(c, NONE) == c && After(NONE, c) == c
  {
    WholeIsApply(c.val, 0);
    NoBits(c.mask, c.val);
  }

  lemma NoBits(mask: bv16, val: bv16)
    ensures mask | 0 == mask && 0 | mask == mask && (0 & !mask) | val == val
  {
  }

  lemma {:induction false} EffectCat(a: seq<Op>, b: seq<Op>, reg: nat)
    ensures Effect(a + b, reg) == After(Effect(a, reg), Effect(b, reg))
    decreases |b|
  {
    if b == [] {
      assert a + b == a;
      AfterNone(Effect(a, reg));
    } else {
      var init, last := b[..|b| - 1], b[|b| - 1];
      assert (a + b)[..|a + b| - 1] == a + init;
      EffectCat(a, init, reg);
      AfterAssociates(Effect(a, reg), Effect(init, reg), OnReg(last, reg));
    }
  }

  lemma ThenEffect(a: Script, b: Script, reg: nat)
    requires Then(a, b).accepted
    ensures a.accepted && b.accepted && Effect(Then(a, b).ops, reg) == After(Effect(a.ops, reg), Effect(b.ops, reg))
  {
    EffectCat(a.ops, b.ops, reg);
  }

  lemma {:induction false} Untouched(ops: seq<Op>, reg: nat)
    requires forall k :: 0 <= k < |ops| ==> ops[k].reg != reg
    ensures Effect(ops, reg) == NONE
    decreases |ops|
  {
    if ops != [] {
      Untouched(ops[..|ops| - 1], reg);
      AfterNone(NONE);
    }
  }

  lemma TouchedOnce(ops: seq<Op>, k: nat, reg: nat)
    requires k < |ops| && ops[k].reg == reg && forall j :: 0 <= j < |ops| && j != k ==> ops[j].reg != reg
    ensures Effect(ops, reg) == OnReg(ops[k], reg)
  {
    var before, after := ops[..k], ops[k + 1..];
    assert ops == before + [ops[k]] + after;
    EffectCat(before + [ops[k]], after, reg);
    EffectCat(before, [ops[k]], reg);
    Untouched(before, reg);
    Untouched(after, reg);
    OneOp(ops[k], reg);
    AfterNone(OnReg(ops[k], reg));
  }

  lemma OneOp(op: Op, reg: nat)
    ensures Effect([op], reg) == OnReg(op, reg)
  {
    assert [op][..0] == [];
    AfterNone(OnReg(op, reg));
  }

  lemma TwoOps(a: Op, b: Op, reg: nat)
    ensures Effect([a, b], reg) == After(OnReg(a, reg), OnReg(b, reg))
  {
    OneOp(a, reg);
    assert [a, b][..1] == [a];
  }

  // ---------------------------------------------------------------- modules

  /** The power bits of a module in a register, left and right where there are two. */
  function Power(m: Module, reg: nat): bv16 {
    match m
    case Adc => if reg == POWER1 then 0x0C else 0
    case Dac => if reg == POWER2 then 0x180 else 0
    case Vref => if reg == POWER1 then 0x40 else 0
    case AnaIn => if reg == POWER1 then 0x30 else if reg == POWER3 then 0x30 else 0
    case LineOut => if reg == POWER2 then 0x60 else 0
    case MicBias => if reg == POWER1 then 0x02 else 0
    case Speaker => if reg == POWER2 then 0x18 else 0
    case OutputMixer => if reg == POWER3 then 0x0C else 0
    case Headphone => 0
  }

  /** They are all set or all clear; the speaker also enables class D. */
  function ModuleChange(m: Module, enable: bool, reg: nat): Change {
    if m.Speaker? && reg == CLASSD1 then Change(ALL, 0xF7)
    else Change(Power(m, reg), if enable then Power(m, reg) else 0)
  }

  lemma BitChange(reg0: nat, mask: bv16, enable: bool, reg: nat)
    ensures OnReg(Bit(reg0, mask, enable), reg)
         == if reg == reg0 then Change(mask, if enable then mask else 0) else NONE
  {
    SameBits(mask);
  }

  lemma SameBits(mask: bv16)
    ensures mask | mask == mask && mask | 0 == mask
  {
  }

  /** Two bits of a register one after the other are both at once. */
  lemma PairDoes(reg0: nat, a: bv16, b: bv16, both: bv16, enable: bool, reg: nat)
    requires a | b == both && Apply(Change(b, b), a) == both
    ensures Effect([Bit(reg0, a, enable), Bit(reg0, b, enable)], reg)
         == if reg == reg0 then Change(both, if enable then both else 0) else NONE
  {
    TwoOps(Bit(reg0, a, enable), Bit(reg0, b, enable), reg);
    BitChange(reg0, a, enable, reg);
    BitChange(reg0, b, enable, reg);
    AfterNone(NONE);
    NothingIn(b);
  }

  lemma NothingIn(b: bv16)
    ensures Apply(Change(b, 0), 0) == 0
  {
  }

  /** For the pairs of neighbouring bits in the power registers. */
  lemma Pairs()
    ensures 0x8 as bv16 | 0x4 == 0xC && Apply(Change(0x4, 0x4), 0x8) == 0xC
    ensures 0x10 as bv16 | 0x8 == 0x18 && Apply(Change(0x8, 0x8), 0x10) == 0x18
    ensures 0x20 as bv16 | 0x10 == 0x30 && Apply(Change(0x10, 0x10), 0x20) == 0x30
    ensures 0x40 as bv16 | 0x20 == 0x60 && Apply(Change(0x20, 0x20), 0x40) == 0x60
    ensures 0x100 as bv16 | 0x80 == 0x180 && Apply(Change(0x80, 0x80), 0x100) == 0x180
  {
  }

  lemma AnaInDoes(enable: bool, reg: nat)
    ensures Effect(SetModule(AnaIn, enable).ops, reg) == ModuleChange(AnaIn, enable, reg)
  {
    var a := [Bit(POWER1, 0x20, enable), Bit(POWER1, 0x10, enable)];
    var b := [Bit(POWER3, 0x20, enable), Bit(POWER3, 0x10, enable)];
    assert SetModule(AnaIn, enable).ops == a + b;
    EffectCat(a, b, reg);
    Pairs();
    PairDoes(POWER1, 0x20, 0x10, 0x30, enable, reg);
    PairDoes(POWER3, 0x20, 0x10, 0x30, enable, reg);
    AfterNone(Effect(a, reg));
    AfterNone(Effect(b, reg));
  }

  lemma SpeakerDoes(enable: bool, reg: nat)
    ensures Effect(SetModule(Speaker, enable).ops, reg) == ModuleChange(Speaker, enable, reg)
  {
    var a, b := [Bit(POWER2, 0x10, enable), Bit(POWER2, 0x8, enable)], [Write(CLASSD1, 0xF7)];
    assert SetModule(Speaker, enable).ops == a + b;
    EffectCat(a, b, reg);
    Pairs();
    PairDoes(POWER2, 0x10, 0x8, 0x18, enable, reg);
    OneOp(Write(CLASSD1, 0xF7), reg);
    AfterNone(Effect(a, reg));
    AfterNone(Effect(b, reg));
  }

  lemma ModuleDoes(m: Module, enable: bool, reg: nat)
    requires SetModule(m, enable).accepted
    ensures Effect(SetModule(m, enable).ops, reg) == ModuleChange(m, enable, reg)
  {
    Pairs();
    match m
    case Adc => PairDoes(POWER1, 0x8, 0x4, 0xC, enable, reg);
    case Dac => PairDoes(POWER2, 0x100, 0x80, 0x180, enable, reg);
    case Vref =>
      OneOp(Bit(POWER1, 0x40, enable), reg);
      BitChange(POWER1, 0x40, enable, reg);
    case MicBias =>
      OneOp(Bit(POWER1, 0x2, enable), reg);
      BitChange(POWER1, 0x2, enable, reg);
    case LineOut => PairDoes(POWER2, 0x40, 0x20, 0x60, enable, reg);
    case OutputMixer => PairDoes(POWER3, 0x8, 0x4, 0xC, enable, reg);
    case AnaIn => AnaInDoes(enable, reg);
    case Speaker => SpeakerDoes(enable, reg);
  }

  // ---------------------------------------------------------------- inputs

  predicate Mic(input: Input) {
    input.SingleEndedMic? || input.DifferentialMic2? || input.DifferentialMic3?
  }

  /** Which pins feed the input amplifier, for a microphone. */
  function PathFor(input: Input): bv16 {
    match input
    case SingleEndedMic => 0x138
    case DifferentialMic2 => 0x178
    case _ => 0x1B8
  }

  /**
   * One side's input. Closed, its amplifier and converter are off; otherwise they are on, a microphone is biased,
   * its path selected and its volume set, and a line input is mixed in.
   */
  function InputChange(input: Input, power: bv16, biased: bv16, path: nat, vol: nat, mix: nat, reg: nat): Change {
    if reg == POWER1 then
      if input.Closed? then Change(power, 0) else if Mic(input) then Change(biased, biased) else Change(power, power)
    else if reg == path && Mic(input) then Change(ALL, PathFor(input))
    else if reg == vol && Mic(input) then Change(ALL, 0x117)
    else if reg == mix && input.Line2? then Change(0xE, 0xE)
    else if reg == mix && input.Line3? then Change(0x70, 0x70)
    else NONE
  }

  /** Left are AINL and ADCL, right AINR and ADCR; MICB is the same for both. */
  function LeftChange(input: Input, reg: nat): Change {
    InputChange(input, 0x28, 0x2A, LINPATH, LINVOL, INBMIX1, reg)
  }

  function RightChange(input: Input, reg: nat): Change {
    InputChange(input, 0x14, 0x16, RINPATH, RINVOL, INBMIX2, reg)
  }

  lemma JustSet(a: bv16)
    ensures 0 | a == a && a | 0 == a
  {
  }

  lemma ClosedDoes(power: bv16, reg: nat)
    ensures Effect([Modify(POWER1, power, 0)], reg) == if reg == POWER1 then Change(power, 0) else NONE
  {
    OneOp(Modify(POWER1, power, 0), reg);
    JustSet(power);
  }

  lemma MicDoes(biased: bv16, path: nat, pins: bv16, vol: nat, reg: nat)
    requires path != vol && path != POWER1 && vol != POWER1
    ensures Effect([Modify(POWER1, 0, biased), Write(path, pins), Write(vol, 0x117)], reg)
         == if reg == POWER1 then Change(biased, biased)
            else if reg == path then Change(ALL, pins)
            else if reg == vol then Change(ALL, 0x117)
            else NONE
  {
    var ops := [Modify(POWER1, 0, biased), Write(path, pins), Write(vol, 0x117)];
    JustSet(biased);
    if reg == POWER1 {
      TouchedOnce(ops, 0, reg);
    } else if reg == path {
      TouchedOnce(ops, 1, reg);
    } else if reg == vol {
      TouchedOnce(ops, 2, reg);
    } else {
      Untouched(ops, reg);
    }
  }

  lemma LineDoes(power: bv16, mix: nat, boost: bv16, reg: nat)
    requires mix != POWER1
    ensures Effect([Modify(POWER1, 0, power), Modify(mix, 0, boost)], reg)
         == if reg == POWER1 then Change(power, power) else if reg == mix then Change(boost, boost) else NONE
  {
    var ops := [Modify(POWER1, 0, power), Modify(mix, 0, boost)];
    JustSet(power);
    JustSet(boost);
    if reg == POWER1 {
      TouchedOnce(ops, 0, reg);
    } else if reg == mix {
      TouchedOnce(ops, 1, reg);
    } else {
      Untouched(ops, reg);
    }
  }

  lemma InputDoes(input: Input, power: bv16, biased: bv16, path: nat, vol: nat, mix: nat, reg: nat)
    requires path != vol && path != mix && vol != mix && path != POWER1 && vol != POWER1 && mix != POWER1
    requires power | 0x2 == biased && SetInput(input, power, path, vol, mix).accepted
    ensures Effect(SetInput(input, power, path, vol, mix).ops, reg)
         == InputChange(input, power, biased, path, vol, mix, reg)
  {
    match input
    case Closed => ClosedDoes(power, reg);
    case SingleEndedMic => MicDoes(biased, path, 0x138, vol, reg);
    case DifferentialMic2 => MicDoes(biased, path, 0x178, vol, reg);
    case DifferentialMic3 => MicDoes(biased, path, 0x1B8, vol, reg);
    case Line2 => LineDoes(power, mix, 0xE, reg);
    case Line3 => LineDoes(power, mix, 0x70, reg);
  }

  lemma BothBiased()
    ensures 0x28 as bv16 | 0x2 == 0x2A && 0x14 as bv16 | 0x2 == 0x16
  {
  }

  lemma LeftDoes(input: Input, reg: nat)
    requires SetLeftInput(input).accepted
    ensures Effect(SetLeftInput(input).ops, reg) == LeftChange(input, reg)
  {
    BothBiased();
    InputDoes(input, 0x28, 0x2A, LINPATH, LINVOL, INBMIX1, reg);
  }

  lemma RightDoes(input: Input, reg: nat)
    requires SetRightInput(input).accepted
    ensures Effect(SetRightInput(input).ops, reg) == RightChange(input, reg)
  {
    BothBiased();
    InputDoes(input, 0x14, 0x16, RINPATH, RINVOL, INBMIX2, reg);
  }

  // ---------------------------------------------------------------- what feeds the output mixer

  /** Of the sources asked for the last one in this order: input mixer, DAC, third input. */
  function MixerChange(mixer: bool, dac: bool, input3: bool, reg: nat): Change {
    if !mixer && !dac && !input3 then NONE
    else if reg == BYPASS1 || reg == BYPASS2 then Change(0x80, if dac || input3 then 0 else 0x80)
    else if reg == LOUTMIX || reg == ROUTMIX then Change(0x180, if input3 then 0x80 else if dac then 0x100 else 0)
    else NONE
  }

  function PartChange(on: bool, bypass: bv16, mix: bv16, reg: nat): Change {
    if !on then NONE
    else if reg == BYPASS1 || reg == BYPASS2 then Change(0x80, bypass)
    else if reg == LOUTMIX || reg == ROUTMIX then Change(0x180, mix)
    else NONE
  }

  lemma PartDoes(on: bool, bypass: bv16, mix: bv16, reg: nat)
    requires 0x80 | bypass == 0x80 && 0x180 | mix == 0x180
    ensures Effect(MixerPart(on, bypass, mix), reg) == PartChange(on, bypass, mix, reg)
  {
    var ops := MixerPart(on, bypass, mix);
    if on && reg == BYPASS1 {
      TouchedOnce(ops, 0, reg);
    } else if on && reg == BYPASS2 {
      TouchedOnce(ops, 1, reg);
    } else if on && reg == LOUTMIX {
      TouchedOnce(ops, 2, reg);
    } else if on && reg == ROUTMIX {
      TouchedOnce(ops, 3, reg);
    } else {
      Untouched(ops, reg);
    }
  }

  lemma Fields()
    ensures 0x80 as bv16 | 0x80 == 0x80 && 0x80 as bv16 | 0 == 0x80
    ensures 0x180 as bv16 | 0x100 == 0x180 && 0x180 as bv16 | 0x80 == 0x180 && 0x180 as bv16 | 0 == 0x180
    ensures 0x180 as bv16 | 0x180 == 0x180
    ensures Apply(Change(0x80, 0), 0x80) == 0 && Apply(Change(0x80, 0), 0) == 0
    ensures Apply(Change(0x180, 0x100), 0) == 0x100
    ensures Apply(Change(0x180, 0x80), 0) == 0x80 && Apply(Change(0x180, 0x80), 0x100) == 0x80
  {
  }

  lemma PartsJoin(mixer: bool, dac: bool, input3: bool, reg: nat)
    ensures After(After(PartChange(mixer, 0x80, 0, reg), PartChange(dac, 0, 0x100, reg)),
                  PartChange(input3, 0, 0x80, reg))
         == MixerChange(mixer, dac, input3, reg)
  {
    Fields();
    AfterNone(PartChange(mixer, 0x80, 0, reg));
    AfterNone(PartChange(dac, 0, 0x100, reg));
    AfterNone(PartChange(input3, 0, 0x80, reg));
    AfterNone(After(PartChange(mixer, 0x80, 0, reg), PartChange(dac, 0, 0x100, reg)));
  }

  lemma MixerDoes(mixer: bool, dac: bool, input3: bool, reg: nat)
    ensures Effect(ConfigMixer(mixer, dac, input3).ops, reg) == MixerChange(mixer, dac, input3, reg)
  {
    var a, b, c := MixerPart(mixer, 0x80, 0), MixerPart(dac, 0, 0x100), MixerPart(input3, 0, 0x80);
    EffectCat(a + b, c, reg);
    EffectCat(a, b, reg);
    Fields();
    PartDoes(mixer, 0x80, 0, reg);
    PartDoes(dac, 0, 0x100, reg);
    PartDoes(input3, 0, 0x80, reg);
    PartsJoin(mixer, dac, input3, reg);
  }

  // ---------------------------------------------------------------- routes

  /** The modules a route runs through. */
  function RouteModules(r: Route): seq<Module> {
    match r
    case Bypass => [MicBias, AnaIn, OutputMixer, LineOut]
    case Playback => [Dac, OutputMixer, LineOut]
    case PlaybackAndRecord => [Adc, MicBias, AnaIn, Dac, OutputMixer, LineOut]
    case Record => [MicBias, AnaIn, Adc]
    case UnknownRoute => []
  }

  function Powers(ms: seq<Module>, reg: nat): bv16
    decreases |ms|
  {
    if ms == [] then 0 else Power(ms[0], reg) | Powers(ms[1..], reg)
  }

  /** Their power bits are set. In the third power register all others are cleared, except in bypass. */
  function RouteChange(r: Route, reg: nat): Change {
    var bits := Powers(RouteModules(r), reg);
    Change(if reg == POWER3 && !r.Bypass? then ALL else bits, bits)
  }

  function EnableAll(ms: seq<Module>): Script
    decreases |ms|
  {
    if ms == [] then Script([], true) else Then(SetModule(ms[0], true), EnableAll(ms[1..]))
  }

  lemma SetBoth(p: bv16, q: bv16)
    ensures Apply(Change(q, q), p) == p | q
  {
  }

  lemma AfterBoth(p: bv16, q: bv16)
    ensures After(Change(p, p), Change(q, q)) == Change(p | q, p | q)
  {
    SetBoth(p, q);
  }

  lemma EnableDoes(m: Module, reg: nat)
    requires !m.Speaker? && !m.Headphone?
    ensures SetModule(m, true).accepted && Effect(SetModule(m, true).ops, reg) == Change(Power(m, reg), Power(m, reg))
  {
    ModuleDoes(m, true, reg);
  }

  lemma {:induction false} EnableAllDoes(ms: seq<Module>, reg: nat)
    requires forall k :: 0 <= k < |ms| ==> !ms[k].Speaker? && !ms[k].Headphone?
    ensures EnableAll(ms).accepted && Effect(EnableAll(ms).ops, reg) == Change(Powers(ms, reg), Powers(ms, reg))
    decreases |ms|
  {
    if ms != [] {
      EnableAllDoes(ms[1..], reg);
      EnableDoes(ms[0], reg);
      ThenEffect(SetModule(ms[0], true), EnableAll(ms[1..]), reg);
      AfterBoth(Power(ms[0], reg), Powers(ms[1..], reg));
    }
  }

  function RouteStart(r: Route): seq<Op> {
    match r
    case Bypass => []
    case Playback => [Write(POWER3, 0x0C)]
    case PlaybackAndRecord => [Write(POWER3, 0x3C)]
    case Record => [Write(POWER3, 0x30)]
    case UnknownRoute => []
  }

  lemma ThenNothing(a: Script)
    requires a.accepted
    ensures Then(a, Script([], true)) == a
  {
  }

  lemma EnableOne(m: Module)
    requires SetModule(m, true).accepted
    ensures EnableAll([m]) == SetModule(m, true)
  {
    assert [m][1..] == [];
    ThenNothing(SetModule(m, true));
  }

  lemma EnableMore(m: Module, ms: seq<Module>)
    ensures EnableAll([m] + ms) == Then(SetModule(m, true), EnableAll(ms))
  {
    assert ([m] + ms)[1..] == ms;
  }

  lemma OutputEnabled()
    ensures EnableAll([OutputMixer, LineOut]) == Then(SetModule(OutputMixer, true), SetModule(LineOut, true))
  {
    EnableOne(LineOut);
    EnableMore(OutputMixer, [LineOut]);
    assert [OutputMixer] + [LineOut] == [OutputMixer, LineOut];
  }

  lemma BypassIs()
    ensures SetRoute(Bypass) == EnableAll(RouteModules(Bypass))
  {
    OutputEnabled();
    EnableMore(AnaIn, [OutputMixer, LineOut]);
    EnableMore(MicBias, [AnaIn] + [OutputMixer, LineOut]);
    assert [MicBias] + ([AnaIn] + [OutputMixer, LineOut]) == RouteModules(Bypass);
  }

  lemma PlaybackIs()
    ensures SetRoute(Playback) == Then(Script(RouteStart(Playback), true), EnableAll(RouteModules(Playback)))
  {
    OutputEnabled();
    EnableMore(Dac, [OutputMixer, LineOut]);
    assert [Dac] + [OutputMixer, LineOut] == RouteModules(Playback);
  }

  lemma PlaybackAndRecordIs()
    ensures SetRoute(PlaybackAndRecord)
         == Then(Script(RouteStart(PlaybackAndRecord), true), EnableAll(RouteModules(PlaybackAndRecord)))
  {
    OutputEnabled();
    EnableMore(Dac, [OutputMixer, LineOut]);
    EnableMore(AnaIn, [Dac] + [OutputMixer, LineOut]);
    EnableMore(MicBias, [AnaIn] + ([Dac] + [OutputMixer, LineOut]));
    EnableMore(Adc, [MicBias] + ([AnaIn] + ([Dac] + [OutputMixer, LineOut])));
    assert [Adc] + ([MicBias] + ([AnaIn] + ([Dac] + [OutputMixer, LineOut]))) == RouteModules(PlaybackAndRecord);
  }

  lemma RecordIs()
    ensures SetRoute(Record) == Then(Script(RouteStart(Record), true), EnableAll(RouteModules(Record)))
  {
    EnableOne(Adc);
    EnableMore(AnaIn, [Adc]);
    EnableMore(MicBias, [AnaIn] + [Adc]);
    assert [MicBias] + ([AnaIn] + [Adc]) == RouteModules(Record);
  }

  lemma StartedRouteDoes(r: Route, reg: nat)
    requires SetRoute(r).accepted && !r.Bypass?
    requires SetRoute(r) == Then(Script(RouteStart(r), true), EnableAll(RouteModules(r)))
    ensures Effect(SetRoute(r).ops, reg) == RouteChange(r, reg)
  {
    var ms, start := RouteModules(r), Script(RouteStart(r), true);
    EnableAllDoes(ms, reg);
    ThenEffect(start, EnableAll(ms), reg);
    OneOp(RouteStart(r)[0], reg);
    AfterNone(Effect(EnableAll(ms).ops, reg));
    StartHolds(r);
  }

  lemma RouteDoes(r: Route, reg: nat)
    requires SetRoute(r).accepted
    ensures Effect(SetRoute(r).ops, reg) == RouteChange(r, reg)
  {
    match r
    case Bypass =>
      BypassIs();
      EnableAllDoes(RouteModules(r), reg);
    case Playback =>
      PlaybackIs();
      StartedRouteDoes(r, reg);
    case PlaybackAndRecord =>
      PlaybackAndRecordIs();
      StartedRouteDoes(r, reg);
    case Record =>
      RecordIs();
      StartedRouteDoes(r, reg);
  }

  /** What is written to the third power register first is what the modules set there anyway. */
  lemma StartHolds(r: Route)
    requires SetRoute(r).accepted && !r.Bypass?
    ensures var bits := Powers(RouteModules(r), POWER3);
            After(OnReg(RouteStart(r)[0], POWER3), Change(bits, bits)) == Change(ALL, bits)
  {
    RoutePowers(r);
    SetAgain(0x0C);
    SetAgain(0x3C);
    SetAgain(0x30);
  }

  lemma SetAgain(bits: bv16)
    ensures After(Change(ALL, bits), Change(bits, bits)) == Change(ALL, bits)
  {
  }

  lemma PowersMore(m: Module, ms: seq<Module>, reg: nat)
    ensures Powers([m] + ms, reg) == Power(m, reg) | Powers(ms, reg)
  {
    assert ([m] + ms)[1..] == ms;
  }

  lemma OutputPowers()
    ensures Powers([OutputMixer, LineOut], POWER3) == 0x0C && Powers([Dac, OutputMixer, LineOut], POWER3) == 0x0C
  {
    PowersMore(LineOut, [], POWER3);
    PowersMore(OutputMixer, [LineOut], POWER3);
    PowersMore(Dac, [OutputMixer, LineOut], POWER3);
    assert [LineOut] + [] == [LineOut] && [OutputMixer] + [LineOut] == [OutputMixer, LineOut];
    assert [Dac] + [OutputMixer, LineOut] == [Dac, OutputMixer, LineOut];
  }

  lemma RoutePowers(r: Route)
    ensures r.Playback? ==> Powers(RouteModules(r), POWER3) == 0x0C
    ensures r.PlaybackAndRecord? ==> Powers(RouteModules(r), POWER3) == 0x3C
    ensures r.Record? ==> Powers(RouteModules(r), POWER3) == 0x30
  {
    OutputPowers();
    var out := [Dac, OutputMixer, LineOut];
    PowersMore(AnaIn, out, POWER3);
    PowersMore(MicBias, [AnaIn] + out, POWER3);
    PowersMore(Adc, [MicBias] + ([AnaIn] + out), POWER3);
    assert [Adc] + ([MicBias] + ([AnaIn] + out)) == RouteModules(PlaybackAndRecord);
    PowersMore(Adc, [], POWER3);
    PowersMore(AnaIn, [Adc], POWER3);
    PowersMore(MicBias, [AnaIn] + [Adc], POWER3);
    assert [Adc] + [] == [Adc] && [MicBias] + ([AnaIn] + [Adc]) == RouteModules(Record);
  }

  /** Inputs first, then the mixer, then the route. */
  function DataRouteChange(c: Config, reg: nat): Change {
    After(LeftChange(c.left, reg),
          After(RightChange(c.right, reg),
                After(MixerChange(c.mixer, c.dac, c.input3, reg), RouteChange(c.route, reg))))
  }

  lemma DataRouteDoes(c: Config, reg: nat)
    requires SetDataRoute(c).accepted
    ensures Effect(SetDataRoute(c).ops, reg) == DataRouteChange(c, reg)
  {
    var left, right := SetLeftInput(c.left), SetRightInput(c.right);
    var mixer, route := ConfigMixer(c.mixer, c.dac, c.input3), SetRoute(c.route);
    ThenEffect(left, Then(right, Then(mixer, route)), reg);
    ThenEffect(right, Then(mixer, route), reg);
    ThenEffect(mixer, route, reg);
    LeftDoes(c.left, reg);
    RightDoes(c.right, reg);
    MixerDoes(c.mixer, c.dac, c.input3, reg);
    RouteDoes(c.route, reg);
  }

  // ---------------------------------------------------------------- protocol, format, volume

  /** The interface format; PCM mode B also inverts the frame clock. */
  function ProtocolChange(p: Protocol, reg: nat): Change {
    if reg != IFACE1 then NONE
    else match p
      case RightJustified => Change(0x3, 0x0)
      case LeftJustified => Change(0x3, 0x1)
      case I2s => Change(0x3, 0x2)
      case PcmA => Change(0x3, 0x3)
      case PcmB => Change(0x13, 0x13)
  }

  lemma FormatCodes()
    ensures 0x3 as bv16 | 0 == 0x3 && 0x3 as bv16 | 1 == 0x3 && 0x3 as bv16 | 2 == 0x3 && 0x3 as bv16 | 3 == 0x3
    ensures 0x3 as bv16 | 0x13 == 0x13
    ensures 0xC as bv16 | 0 == 0xC && 0xC as bv16 | 4 == 0xC && 0xC as bv16 | 8 == 0xC && 0xC as bv16 | 0xC == 0xC
  {
  }

  lemma ProtocolDoes(p: Protocol, reg: nat)
    ensures Effect(SetProtocol(p).ops, reg) == ProtocolChange(p, reg)
  {
    OneOp(SetProtocol(p).ops[0], reg);
    FormatCodes();
  }

  /** The clock dividers, and the word length. */
  function FormatChange(i: nat, halved: bool, bits: nat, reg: nat): Change
    requires i < 7
  {
    if reg == CLOCK1 then Change(0x1FE, ClockBits(i, halved))
    else if reg == IFACE1 then
      Change(0xC, if bits == 16 then 0 else if bits == 20 then 4 else if bits == 24 then 8 else 0xC)
    else NONE
  }

  lemma DividersFit(i: nat, halved: bool)
    requires i < 7
    ensures 0x1FE | ClockBits(i, halved) == 0x1FE
  {
    if i == 0 {
    } else if i == 1 {
    } else if i == 2 {
    } else if i == 3 {
    } else if i == 4 {
    } else if i == 5 {
    } else {
      assert i == 6;
    }
  }

  lemma FormatDoes(f: Format, reg: nat)
    requires 0 < f.rate && SetDataFormat(f).accepted
    ensures var i := FindRatio(SysClk(f.mclk, f.rate), f.rate, 0);
            i < 7 && Effect(SetDataFormat(f).ops, reg) == FormatChange(i, Halves(f.mclk, f.rate), f.bits, reg)
  {
    var i, ops := FindRatio(SysClk(f.mclk, f.rate), f.rate, 0), SetDataFormat(f).ops;
    DividersFit(i, Halves(f.mclk, f.rate));
    FormatCodes();
    if reg == CLOCK1 {
      TouchedOnce(ops, 0, reg);
    } else if reg == IFACE1 {
      TouchedOnce(ops, 1, reg);
    } else {
      Untouched(ops, reg);
    }
  }

  /** The volume registers of a module, left and right. */
  predicate VolumeOf(m: Module, reg: nat) {
    match m
    case Adc => reg == LADC || reg == RADC
    case Dac => reg == LDAC || reg == RDAC
    case Headphone => reg == LOUT1 || reg == ROUT1
    case AnaIn => reg == LINVOL || reg == RINVOL
    case Speaker => reg == LOUT2 || reg == ROUT2
    case _ => false
  }

  /** Both hold the volume and the update bit. */
  function VolumeChange(m: Module, volume: nat, reg: nat): Change
    requires volume < 256
  {
    if VolumeOf(m, reg) then Change(ALL, 0x100 | (volume as bv16)) else NONE
  }

  /** Which volumes are accepted: 8 bits for the converters, 7 for the outputs, 6 for the inputs. */
  lemma VolumesAccepted(m: Module, volume: nat)
    ensures SetVolume(m, volume).accepted <==>
              || ((m.Adc? || m.Dac?) && volume < 0x100)
              || ((m.Headphone? || m.Speaker?) && volume < 0x80)
              || (m.AnaIn? && volume < 0x40)
  {
  }

  lemma WrittenAgain(a: bv16, b: bv16)
    ensures After(Change(ALL, a), Change(ALL, b)) == Change(ALL, b)
  {
    WholeIsApply(a, b);
  }

  /** Two registers written in turn, then both again: each holds what came last. */
  lemma TwiceInTurn(l: nat, r: nat, v: bv16, w: bv16, reg: nat)
    requires l != r
    ensures Effect([Write(l, v), Write(r, v)] + [Write(l, w), Write(r, w)], reg)
         == if reg == l || reg == r then Change(ALL, w) else NONE
  {
    EffectCat([Write(l, v), Write(r, v)], [Write(l, w), Write(r, w)], reg);
    InTurn(l, r, v, reg);
    InTurn(l, r, w, reg);
    WrittenAgain(v, w);
    AfterNone(NONE);
  }

  lemma InTurn(l: nat, r: nat, v: bv16, reg: nat)
    requires l != r
    ensures Effect([Write(l, v), Write(r, v)], reg) == if reg == l || reg == r then Change(ALL, v) else NONE
  {
    TwoOps(Write(l, v), Write(r, v), reg);
    AfterNone(Change(ALL, v));
    AfterNone(NONE);
  }

  lemma VolumeDoes(m: Module, volume: nat, reg: nat)
    requires HasVolume(m) && volume <= VolumeLimit(m)
    ensures Effect(SetVolume(m, volume).ops, reg) == VolumeChange(m, volume, reg)
  {
    var l, r, v := VolumeRegs(m).0, VolumeRegs(m).1, volume as bv16;
    var w := WithUpdate(v);
    assert SetVolume(m, volume).ops == [Write(l, v), Write(r, v)] + [Write(l, w), Write(r, w)];
    TwiceInTurn(l, r, v, w, reg);
  }

  function DeinitChange(reg: nat): Change {
    if reg == POWER1 || reg == POWER2 || reg == POWER3 then Change(ALL, 0) else NONE
  }

  lemma DeinitDoes(reg: nat)
    ensures Effect(Deinit().ops, reg) == DeinitChange(reg)
  {
    var ops := Deinit().ops;
    if reg == POWER1 {
      TouchedOnce(ops, 0, reg);
    } else if reg == POWER2 {
      TouchedOnce(ops, 1, reg);
    } else if reg == POWER3 {
      TouchedOnce(ops, 2, reg);
    } else {
      Untouched(ops, reg);
    }
  }

  // ---------------------------------------------------------------- initialization

  /** What initialization writes as it is: power, volumes, class D, and the rest of the interface. */
  function Preset(reg: nat): Change {
    if reg == POWER1 then Change(ALL, 0xFE)
    else if reg == POWER2 then Change(ALL, 0x1F8)
    else if reg == POWER3 then Change(ALL, 0x3C)
    else if reg == IFACE2 || reg == ADDCTL4 then Change(ALL, 0x40)
    else if reg == ADDCTL1 then Change(ALL, 0xC0)
    else if reg == LADC || reg == RADC then Change(ALL, 0x1D3)
    else if reg == LDAC || reg == RDAC then Change(ALL, 0x1E0)
    else if reg == LOUT1 || reg == ROUT1 then Change(ALL, 0x17F)
    else if reg == LOUT2 || reg == ROUT2 then Change(ALL, 0x1FF)
    else if reg == CLASSD1 then Change(ALL, 0xF7)
    else if reg == DACCTL1 then Change(ALL, 0)
    else if reg == LINVOL || reg == RINVOL then Change(ALL, 0x117)
    else NONE
  }

  /** The codec is the slave, and the frame clock is inverted. */
  function SlaveChange(reg: nat): Change {
    if reg == IFACE1 then Change(0x50, 0x10) else NONE
  }

  lemma PowerDoes(reg: nat)
    ensures Effect(InitPower().ops, reg)
         == if reg == POWER1 || reg == POWER2 || reg == POWER3 || reg == IFACE2 then Preset(reg) else NONE
  {
    var ops := InitPower().ops;
    if reg == POWER1 {
      TouchedOnce(ops, 0, reg);
    } else if reg == POWER2 {
      TouchedOnce(ops, 1, reg);
    } else if reg == POWER3 {
      TouchedOnce(ops, 2, reg);
    } else if reg == IFACE2 {
      TouchedOnce(ops, 3, reg);
    } else {
      Untouched(ops, reg);
    }
  }

  lemma SlaveDoes(reg: nat)
    ensures Effect([Modify(IFACE1, 0x40, 0), Modify(IFACE1, 0x10, 0x10)], reg) == SlaveChange(reg)
  {
    TwoOps(Modify(IFACE1, 0x40, 0), Modify(IFACE1, 0x10, 0x10), reg);
    AfterNone(NONE);
    SlaveBits();
  }

  lemma SlaveBits()
    ensures 0x40 as bv16 | 0 == 0x40 && 0x10 as bv16 | 0x10 == 0x10
    ensures After(Change(0x40, 0), Change(0x10, 0x10)) == Change(0x50, 0x10)
  {
  }

  function Levels(): seq<Op> {
    [Write(ADDCTL1, 0xC0), Write(ADDCTL4, 0x40), Write(LADC, 0x1D3), Write(RADC, 0x1D3), Write(LDAC, 0x1E0),
     Write(RDAC, 0x1E0), Write(LOUT1, 0x17F), Write(ROUT1, 0x17F), Write(LOUT2, 0x1FF), Write(ROUT2, 0x1FF),
     Write(CLASSD1, 0xF7), Write(DACCTL1, 0), Write(LINVOL, 0x117), Write(RINVOL, 0x117)]
  }

  lemma LevelRegisters()
    ensures Levels()[0].reg == ADDCTL1 && Levels()[1].reg == ADDCTL4 && Levels()[2].reg == LADC
    ensures Levels()[3].reg == RADC && Levels()[4].reg == LDAC && Levels()[5].reg == RDAC && Levels()[6].reg == LOUT1
    ensures Levels()[7].reg == ROUT1 && Levels()[8].reg == LOUT2 && Levels()[9].reg == ROUT2
    ensures Levels()[10].reg == CLASSD1 && Levels()[11].reg == DACCTL1 && Levels()[12].reg == LINVOL
    ensures Levels()[13].reg == RINVOL
  {
  }

  lemma PresetsDo(reg: nat)
    ensures Effect(Levels(), reg) == if PowerRegister(reg) || reg == IFACE2 then NONE else Preset(reg)
  {
    if k: nat :| k < |Levels()| && Levels()[k].reg == reg {
      TouchedOnce(Levels(), k, reg);
    } else {
      LevelRegisters();
      Untouched(Levels(), reg);
    }
  }

  lemma LevelsDo(reg: nat)
    ensures Effect(InitLevels().ops, reg)
         == if reg == IFACE1 then SlaveChange(reg)
            else if PowerRegister(reg) || reg == IFACE2 then NONE
            else Preset(reg)
  {
    var a := [Modify(IFACE1, 0x40, 0), Modify(IFACE1, 0x10, 0x10)];
    assert InitLevels().ops == a + Levels();
    EffectCat(a, Levels(), reg);
    SlaveDoes(reg);
    PresetsDo(reg);
    AfterNone(Effect(a, reg));
    AfterNone(Effect(Levels(), reg));
  }

  /** The presets, then protocol, slave mode and format, then the route. */
  function InitChange(c: Config, reg: nat): Change
    requires 0 < c.format.rate && SetDataFormat(c.format).accepted
  {
    After(Preset(reg),
          After(ProtocolChange(c.bus, reg),
                After(SlaveChange(reg), After(AcceptedChange(c.format, reg), DataRouteChange(c, reg)))))
  }

  function AcceptedChange(f: Format, reg: nat): Change
    requires 0 < f.rate && SetDataFormat(f).accepted
  {
    FormatDoes(f, reg);
    FormatChange(FindRatio(SysClk(f.mclk, f.rate), f.rate, 0), Halves(f.mclk, f.rate), f.bits, reg)
  }

  /** Power and levels together are the presets and slave mode, whatever comes after. */
  lemma PresetsAndSlave(p: Protocol, rest: Change, reg: nat)
    ensures After(Effect(InitPower().ops, reg),
                  After(ProtocolChange(p, reg), After(Effect(InitLevels().ops, reg), rest)))
         == After(Preset(reg), After(ProtocolChange(p, reg), After(SlaveChange(reg), rest)))
  {
    PowerDoes(reg);
    LevelsDo(reg);
    if reg != IFACE1 && reg != IFACE2 && !PowerRegister(reg) {
      PastNone(Preset(reg), rest);
    }
  }

  lemma PastNone(c: Change, rest: Change)
    ensures After(NONE, After(NONE, After(c, rest))) == After(c, After(NONE, After(NONE, rest)))
  {
    AfterNone(rest);
    AfterNone(After(c, rest));
  }

  lemma InitRestDoes(c: Config, reg: nat)
    requires 0 < c.format.rate && InitRest(c).accepted
    ensures SetDataFormat(c.format).accepted && Effect(InitRest(c).ops, reg) == InitChange(c, reg)
  {
    var format, route := SetDataFormat(c.format), SetDataRoute(c);
    ThenEffect(InitPower(), Then(SetProtocol(c.bus), Then(InitLevels(), Then(format, route))), reg);
    ThenEffect(SetProtocol(c.bus), Then(InitLevels(), Then(format, route)), reg);
    ThenEffect(InitLevels(), Then(format, route), reg);
    ThenEffect(format, route, reg);
    ProtocolDoes(c.bus, reg);
    FormatDoes(c.format, reg);
    DataRouteDoes(c, reg);
    PresetsAndSlave(c.bus, After(Effect(format.ops, reg), Effect(route.ops, reg)), reg);
  }

  // ---------------------------------------------------------------- calls that succeed

  lemma InputsAccepted(input: Input)
    ensures SetLeftInput(input).accepted <==> !input.UnknownInput?
    ensures SetRightInput(input).accepted <==> !input.UnknownInput?
  {
  }

  lemma RouteAccepted(r: Route)
    ensures SetRoute(r).accepted <==> !r.UnknownRoute?
  {
    if !r.UnknownRoute? {
      EnableAllDoes(RouteModules(r), 0);
    }
    match r
    case Bypass => BypassIs();
    case Playback => PlaybackIs();
    case PlaybackAndRecord => PlaybackAndRecordIs();
    case Record => RecordIs();
    case UnknownRoute =>
  }

  lemma ThenAccepted(a: Script, b: Script)
    ensures Then(a, b).accepted <==> a.accepted && b.accepted
  {
  }

  lemma RoutesAccepted(c: Config)
    ensures SetDataRoute(c).accepted <==> !c.left.UnknownInput? && !c.right.UnknownInput? && !c.route.UnknownRoute?
  {
    var mixer, route := ConfigMixer(c.mixer, c.dac, c.input3), SetRoute(c.route);
    InputsAccepted(c.left);
    InputsAccepted(c.right);
    RouteAccepted(c.route);
    ThenAccepted(mixer, route);
    ThenAccepted(SetRightInput(c.right), Then(mixer, route));
    ThenAccepted(SetLeftInput(c.left), Then(SetRightInput(c.right), Then(mixer, route)));
  }

  /** Which calls accept their arguments, formats as in `AcceptsIff` and volumes as in `VolumesAccepted`. */
  lemma CallsAccepted(c: Call)
    requires ValidCall(c)
    ensures ScriptOf(c).accepted <==>
              match c
              case CallInit(cfg) =>
                && SetDataFormat(cfg.format).accepted
                && !cfg.left.UnknownInput? && !cfg.right.UnknownInput? && !cfg.route.UnknownRoute?
              case CallModule(m, _) => !m.Headphone?
              case CallRoute(cfg) => !cfg.left.UnknownInput? && !cfg.right.UnknownInput? && !cfg.route.UnknownRoute?
              case CallLeft(input) => !input.UnknownInput?
              case CallRight(input) => !input.UnknownInput?
              case CallVolume(m, volume) => SetVolume(m, volume).accepted
              case CallFormat(f) => SetDataFormat(f).accepted
              case _ => true
  {
    if c.CallInit? || c.CallRoute? {
      RoutesAccepted(c.c);
    }
  }

  /** The chip's registers after a call all of whose operations succeeded. */
  ghost function RegsAfter(s: State, c: Call): (regs: seq<bv16>)
    requires IsState(s) && ValidCall(c)
    ensures |regs| == REG_NUM
  {
    CallsArePlain(c);
    Made(s, Try(c, |ScriptOf(c).ops|)).chip.regs
  }

  /** What a call other than initialization does to a register. */
  function CallChange(c: Call, reg: nat): Change
    requires ValidCall(c) && ScriptOf(c).accepted && !c.CallInit?
  {
    match c
    case CallDeinit => DeinitChange(reg)
    case CallProtocol(p) => ProtocolChange(p, reg)
    case CallModule(m, enable) => ModuleChange(m, enable, reg)
    case CallRoute(cfg) => DataRouteChange(cfg, reg)
    case CallLeft(input) => LeftChange(input, reg)
    case CallRight(input) => RightChange(input, reg)
    case CallVolume(m, volume) => VolumeChange(m, volume, reg)
    case CallFormat(f) => AcceptedChange(f, reg)
    case CallMixer(mixer, dac, input3) => MixerChange(mixer, dac, input3, reg)
  }

  lemma CallDoes(c: Call, reg: nat)
    requires ValidCall(c) && ScriptOf(c).accepted && !c.CallInit?
    ensures Effect(ScriptOf(c).ops, reg) == CallChange(c, reg)
  {
    match c
    case CallDeinit => DeinitDoes(reg);
    case CallProtocol(p) => ProtocolDoes(p, reg);
    case CallModule(m, enable) => ModuleDoes(m, enable, reg);
    case CallRoute(cfg) => DataRouteDoes(cfg, reg);
    case CallLeft(input) => LeftDoes(input, reg);
    case CallRight(input) => RightDoes(input, reg);
    case CallVolume(m, volume) => VolumeDoes(m, volume, reg);
    case CallFormat(f) => FormatDoes(f, reg);
    case CallMixer(mixer, dac, input3) => MixerDoes(mixer, dac, input3, reg);
  }

  /** Every call but initialization, from a synced state: each register of the chip changes as its table says. */
  lemma CallLeaves(s: State, c: Call, reg: nat)
    requires Synced(s) && ValidCall(c) && ScriptOf(c).accepted && !c.CallInit? && reg < REG_NUM
    ensures RegsAfter(s, c)[reg] == Apply(CallChange(c, reg), s.chip.regs[reg])
  {
    var ops := ScriptOf(c).ops;
    CallsArePlain(c);
    ChipFollows(s, ops, |ops|, reg);
    assert ops[..|ops|] == ops;
    CallDoes(c, reg);
  }

  lemma {:induction false} ExecTail(s: State, op: Op, rest: seq<Op>, n: nat)
    requires IsState(s) && InRange(op) && AllInRange(rest) && n <= |rest| && AllInRange([op] + rest)
    ensures Exec(s, [op] + rest, n + 1) == Exec(Step(s, op), rest, n)
  {
    if n == 0 {
      assert Exec(s, [op] + rest, 0) == s;
    } else {
      ExecTail(s, op, rest, n - 1);
      assert ([op] + rest)[n] == rest[n - 1];
    }
  }

  /** Initialization, from any state at all: each register holds its default, changed as the table says. */
  lemma InitLeaves(s: State, c: Config, reg: nat)
    requires IsState(s) && ValidCall(CallInit(c)) && ScriptOf(CallInit(c)).accepted && reg < REG_NUM
    ensures SetDataFormat(c.format).accepted
    ensures RegsAfter(s, CallInit(c))[reg] == Apply(InitChange(c, reg), DEFAULTS[reg])
  {
    var start, rest := Before(s, true), InitRest(c).ops;
    CallsArePlain(CallInit(c));
    ResetSyncs(start);
    var reset := Step(start, Write(RESET, 0));
    ExecTail(start, Write(RESET, 0), rest, |rest|);
    ChipFollows(reset, rest, |rest|, reg);
    assert rest[..|rest|] == rest;
    InitRestDoes(c, reg);
  }

  // ---------------------------------------------------------------- what that means

  /** All bits of a set are on in a word, or all off; and two words agree outside of it. */
  predicate AllOn(v: bv16, bits: bv16) {
    v | bits == v
  }

  predicate AllOff(v: bv16, bits: bv16) {
    v & bits == 0
  }

  predicate SameOutside(v: bv16, w: bv16, bits: bv16) {
    v | bits == w | bits
  }

  lemma TurnedOn(v: bv16, bits: bv16)
    ensures AllOn(Apply(Change(bits, bits), v), bits) && SameOutside(Apply(Change(bits, bits), v), v, bits)
  {
    SetBoth(v, bits);
    OrAssociates(v, bits, bits);
    Itself(bits);
  }

  lemma Itself(bits: bv16)
    ensures bits | bits == bits
  {
  }

  lemma TurnedOff(v: bv16, bits: bv16)
    ensures AllOff(Apply(Change(bits, 0), v), bits) && SameOutside(Apply(Change(bits, 0), v), v, bits)
  {
    WithoutThem(v, bits);
    Cleared(v, bits);
    Restored(v, bits);
  }

  lemma WithoutThem(v: bv16, bits: bv16)
    ensures Apply(Change(bits, 0), v) == v & !bits
  {
  }

  lemma Cleared(v: bv16, bits: bv16)
    ensures v & !bits & bits == 0
  {
  }

  lemma Restored(v: bv16, bits: bv16)
    ensures (v & !bits) | bits == v | bits
  {
  }

  lemma SwitchMeans(v: bv16, bits: bv16, enable: bool)
    ensures var now := Apply(Change(bits, if enable then bits else 0), v);
            && (if enable then AllOn(now, bits) else AllOff(now, bits)) && SameOutside(now, v, bits)
  {
    if enable {
      TurnedOn(v, bits);
    } else {
      TurnedOff(v, bits);
    }
  }

  /** After a module call the module's power bits are all on or all off, and every other bit is as before. */
  lemma ModuleLeaves(s: State, m: Module, enable: bool, reg: nat)
    requires Synced(s) && !m.Headphone? && reg < REG_NUM
    ensures var now, was, bits := RegsAfter(s, CallModule(m, enable))[reg], s.chip.regs[reg], Power(m, reg);
            if m.Speaker? && reg == CLASSD1 then now == 0xF7
            else && (if enable then AllOn(now, bits) else AllOff(now, bits)) && SameOutside(now, was, bits)
  {
    CallLeaves(s, CallModule(m, enable), reg);
    if m.Speaker? && reg == CLASSD1 {
      WholeIsApply(s.chip.regs[reg], 0xF7);
    } else {
      SwitchMeans(s.chip.regs[reg], Power(m, reg), enable);
    }
  }

  lemma OrSwap(x: bv16, y: bv16, q: bv16)
    ensures (x | y) | q == (x | q) | y
  {
  }

  lemma OnInEither(x: bv16, y: bv16, q: bv16)
    requires AllOn(x, q) || AllOn(y, q)
    ensures AllOn(x | y, q)
  {
    OrAssociates(x, y, q);
    OrSwap(x, y, q);
  }

  lemma {:induction false} PowersContain(ms: seq<Module>, k: nat, reg: nat)
    requires k < |ms|
    ensures AllOn(Powers(ms, reg), Power(ms[k], reg))
    decreases |ms|
  {
    if k > 0 {
      PowersContain(ms[1..], k - 1, reg);
    } else {
      Itself(Power(ms[0], reg));
    }
    OnInEither(Power(ms[0], reg), Powers(ms[1..], reg), Power(ms[k], reg));
  }

  lemma LastChangeShows(c: Change, v: bv16, q: bv16)
    requires AllOn(c.val, q)
    ensures AllOn(Apply(c, v), q)
  {
    OnInEither(v & !c.mask, c.val, q);
  }

  /** A register after a route call is what it was after inputs and mixer, changed by the route. */
  lemma RouteComesLast(c: Config, reg: nat, v: bv16) returns (w: bv16)
    ensures Apply(DataRouteChange(c, reg), v) == Apply(RouteChange(c.route, reg), w)
    ensures w == Apply(MixerChange(c.mixer, c.dac, c.input3, reg),
                       Apply(RightChange(c.right, reg), Apply(LeftChange(c.left, reg), v)))
  {
    var left, right := LeftChange(c.left, reg), RightChange(c.right, reg);
    var mixer, route := MixerChange(c.mixer, c.dac, c.input3, reg), RouteChange(c.route, reg);
    ApplyAfter(left, After(right, After(mixer, route)), v);
    ApplyAfter(right, After(mixer, route), Apply(left, v));
    ApplyAfter(mixer, route, Apply(right, Apply(left, v)));
    w := Apply(mixer, Apply(right, Apply(left, v)));
  }

  /** After a route call every module of the route is powered. */
  lemma RouteIsPowered(s: State, c: Config, k: nat, reg: nat)
    requires Synced(s) && ValidCall(CallRoute(c)) && ScriptOf(CallRoute(c)).accepted && reg < REG_NUM
    requires k < |RouteModules(c.route)|
    ensures AllOn(RegsAfter(s, CallRoute(c))[reg], Power(RouteModules(c.route)[k], reg))
  {
    CallLeaves(s, CallRoute(c), reg);
    var w := RouteComesLast(c, reg, s.chip.regs[reg]);
    PowersContain(RouteModules(c.route), k, reg);
    LastChangeShows(RouteChange(c.route, reg), w, Power(RouteModules(c.route)[k], reg));
  }

  /** So they are after initialization. */
  lemma InitIsPowered(s: State, c: Config, k: nat, reg: nat)
    requires IsState(s) && ValidCall(CallInit(c)) && ScriptOf(CallInit(c)).accepted && reg < REG_NUM
    requires k < |RouteModules(c.route)|
    ensures AllOn(RegsAfter(s, CallInit(c))[reg], Power(RouteModules(c.route)[k], reg))
  {
    InitLeaves(s, c, reg);
    var a, b, d, f := Preset(reg), ProtocolChange(c.bus, reg), SlaveChange(reg), AcceptedChange(c.format, reg);
    var v := FiveChanges(a, b, d, f, DataRouteChange(c, reg), DEFAULTS[reg]);
    var w := RouteComesLast(c, reg, v);
    PowersContain(RouteModules(c.route), k, reg);
    LastChangeShows(RouteChange(c.route, reg), w, Power(RouteModules(c.route)[k], reg));
  }

  lemma FiveChanges(a: Change, b: Change, d: Change, f: Change, last: Change, v: bv16) returns (w: bv16)
    ensures Apply(After(a, After(b, After(d, After(f, last)))), v) == Apply(last, w)
  {
    ApplyAfter(a, After(b, After(d, After(f, last))), v);
    ApplyAfter(b, After(d, After(f, last)), Apply(a, v));
    ApplyAfter(d, After(f, last), Apply(b, Apply(a, v)));
    ApplyAfter(f, last, Apply(d, Apply(b, Apply(a, v))));
    w := Apply(f, Apply(d, Apply(b, Apply(a, v))));
  }

  predicate PowerRegister(reg: nat) {
    reg == POWER1 || reg == POWER2 || reg == POWER3
  }

  lemma {:induction false} PowersElsewhere(ms: seq<Module>, reg: nat)
    requires !PowerRegister(reg)
    ensures Powers(ms, reg) == 0
    decreases |ms|
  {
    if ms != [] {
      PowersElsewhere(ms[1..], reg);
      JustSet(0);
    }
  }

  /** Outside the power registers a route call does what the inputs and the mixer ask for. */
  lemma RouteElsewhere(c: Config, reg: nat)
    requires !PowerRegister(reg)
    ensures DataRouteChange(c, reg)
         == if reg == LINPATH || reg == LINVOL || reg == INBMIX1 then LeftChange(c.left, reg)
            else if reg == RINPATH || reg == RINVOL || reg == INBMIX2 then RightChange(c.right, reg)
            else MixerChange(c.mixer, c.dac, c.input3, reg)
  {
    PowersElsewhere(RouteModules(c.route), reg);
    AfterNone(LeftChange(c.left, reg));
    AfterNone(RightChange(c.right, reg));
    AfterNone(MixerChange(c.mixer, c.dac, c.input3, reg));
  }

  /** One side's input registers after the call hold what the configuration asks for. */
  ghost predicate InputSelected(was: seq<bv16>, now: seq<bv16>, input: Input, path: nat, vol: nat, mix: nat)
    requires |was| == |now| == REG_NUM && path < REG_NUM && vol < REG_NUM && mix < REG_NUM
  {
    && now[path] == (if Mic(input) then PathFor(input) else was[path])
    && now[vol] == (if Mic(input) then 0x117 else was[vol])
    && (if input.Line2? then AllOn(now[mix], 0xE) && SameOutside(now[mix], was[mix], 0xE)
        else if input.Line3? then AllOn(now[mix], 0x70) && SameOutside(now[mix], was[mix], 0x70)
        else now[mix] == was[mix])
  }

  lemma RouteRegister(s: State, c: Config, reg: nat)
    requires Synced(s) && ValidCall(CallRoute(c)) && ScriptOf(CallRoute(c)).accepted && reg < REG_NUM
    requires !PowerRegister(reg)
    ensures RegsAfter(s, CallRoute(c))[reg]
         == Apply(if reg == LINPATH || reg == LINVOL || reg == INBMIX1 then LeftChange(c.left, reg)
                  else if reg == RINPATH || reg == RINVOL || reg == INBMIX2 then RightChange(c.right, reg)
                  else MixerChange(c.mixer, c.dac, c.input3, reg), s.chip.regs[reg])
  {
    CallLeaves(s, CallRoute(c), reg);
    RouteElsewhere(c, reg);
  }

  lemma InputMeans(input: Input, power: bv16, biased: bv16, path: nat, vol: nat, mix: nat,
                   was: seq<bv16>, now: seq<bv16>)
    requires |was| == |now| == REG_NUM && path < REG_NUM && vol < REG_NUM && mix < REG_NUM
    requires path != vol && path != mix && vol != mix && path != POWER1 && vol != POWER1 && mix != POWER1
    requires now[path] == Apply(InputChange(input, power, biased, path, vol, mix, path), was[path])
    requires now[vol] == Apply(InputChange(input, power, biased, path, vol, mix, vol), was[vol])
    requires now[mix] == Apply(InputChange(input, power, biased, path, vol, mix, mix), was[mix])
    ensures InputSelected(was, now, input, path, vol, mix)
  {
    WholeIsApply(was[path], PathFor(input));
    WholeIsApply(was[vol], 0x117);
    WholeIsApply(was[mix], 0);
    TurnedOn(was[mix], 0xE);
    TurnedOn(was[mix], 0x70);
  }

  /** After a route call both inputs are selected as asked for. */
  lemma RouteSelectsInputs(s: State, c: Config)
    requires Synced(s) && ValidCall(CallRoute(c)) && ScriptOf(CallRoute(c)).accepted
    ensures InputSelected(s.chip.regs, RegsAfter(s, CallRoute(c)), c.left, LINPATH, LINVOL, INBMIX1)
    ensures InputSelected(s.chip.regs, RegsAfter(s, CallRoute(c)), c.right, RINPATH, RINVOL, INBMIX2)
  {
    RouteRegister(s, c, LINPATH);
    RouteRegister(s, c, LINVOL);
    RouteRegister(s, c, INBMIX1);
    RouteRegister(s, c, RINPATH);
    RouteRegister(s, c, RINVOL);
    RouteRegister(s, c, INBMIX2);
    InputMeans(c.left, 0x28, 0x2A, LINPATH, LINVOL, INBMIX1, s.chip.regs, RegsAfter(s, CallRoute(c)));
    InputMeans(c.right, 0x14, 0x16, RINPATH, RINVOL, INBMIX2, s.chip.regs, RegsAfter(s, CallRoute(c)));
  }

  /** What the output mixer's two switches per side say. */
  ghost predicate Feeds(now: seq<bv16>, bypass: bool, source: bv16)
    requires |now| == REG_NUM
  {
    && (if bypass then AllOn(now[BYPASS1], 0x80) && AllOn(now[BYPASS2], 0x80)
        else AllOff(now[BYPASS1], 0x80) && AllOff(now[BYPASS2], 0x80))
    && now[LOUTMIX] & 0x180 == source && now[ROUTMIX] & 0x180 == source
  }

  lemma FieldIs(v: bv16)
    ensures Apply(Change(0x180, 0x80), v) & 0x180 == 0x80 && Apply(Change(0x180, 0x100), v) & 0x180 == 0x100
    ensures Apply(Change(0x180, 0), v) & 0x180 == 0
  {
  }

  /** After a route call the output mixer is fed as asked: by the third input, else the DAC, else the input mixer. */
  lemma RouteFeedsMixer(s: State, c: Config)
    requires Synced(s) && ValidCall(CallRoute(c)) && ScriptOf(CallRoute(c)).accepted
    ensures var now := RegsAfter(s, CallRoute(c));
            if c.input3 then Feeds(now, false, 0x80)
            else if c.dac then Feeds(now, false, 0x100)
            else if c.mixer then Feeds(now, true, 0)
            else forall reg :: reg == BYPASS1 || reg == BYPASS2 || reg == LOUTMIX || reg == ROUTMIX ==>
                   now[reg] == s.chip.regs[reg]
  {
    var was := s.chip.regs;
    RouteRegister(s, c, BYPASS1);
    RouteRegister(s, c, BYPASS2);
    RouteRegister(s, c, LOUTMIX);
    RouteRegister(s, c, ROUTMIX);
    SwitchMeans(was[BYPASS1], 0x80, !c.dac && !c.input3);
    SwitchMeans(was[BYPASS2], 0x80, !c.dac && !c.input3);
    FieldIs(was[LOUTMIX]);
    FieldIs(was[ROUTMIX]);
    WholeIsApply(was[BYPASS1], 0);
    WholeIsApply(was[BYPASS2], 0);
    WholeIsApply(was[LOUTMIX], 0);
    WholeIsApply(was[ROUTMIX], 0);
  }

  /** Every other register is as before. */
  lemma RouteLeavesRest(s: State, c: Config, reg: nat)
    requires Synced(s) && ValidCall(CallRoute(c)) && ScriptOf(CallRoute(c)).accepted && reg < REG_NUM
    requires !PowerRegister(reg) && reg != LINPATH && reg != LINVOL && reg != INBMIX1
    requires reg != RINPATH && reg != RINVOL && reg != INBMIX2
    requires reg != BYPASS1 && reg != BYPASS2 && reg != LOUTMIX && reg != ROUTMIX
    ensures RegsAfter(s, CallRoute(c))[reg] == s.chip.regs[reg]
  {
    RouteRegister(s, c, reg);
    WholeIsApply(s.chip.regs[reg], 0);
  }

  // the bits of the two sides in the first power register

  predicate LeftBit(q: bv16) {
    q == 0x20 || q == 0x08
  }

  predicate RightBit(q: bv16) {
    q == 0x10 || q == 0x04
  }

  lemma OffWithin(v: bv16, b: bv16, q: bv16)
    requires AllOn(b, q)
    ensures AllOff(v & !b, q)
  {
  }

  lemma KeptOn(v: bv16, b: bv16, q: bv16)
    requires AllOff(b, q) && AllOn(v, q)
    ensures AllOn(v & !b, q)
  {
  }

  lemma KeptOff(v: bv16, b: bv16, q: bv16)
    requires AllOff(v, q)
    ensures AllOff(v & !b, q)
  {
  }

  lemma OffInBoth(x: bv16, y: bv16, q: bv16)
    requires AllOff(x, q)
    ensures AllOff(x | y, q) <==> AllOff(y, q)
  {
    Distribute(x, y, q);
    JustSet(y & q);
  }

  /** An input's own bits are off exactly when it is closed. */
  lemma OwnSide(input: Input, power: bv16, biased: bv16, path: nat, vol: nat, mix: nat, v: bv16, q: bv16)
    requires AllOn(power, q) && AllOn(biased, q)
    ensures var w := Apply(InputChange(input, power, biased, path, vol, mix, POWER1), v);
            if input.Closed? then AllOff(w, q) else AllOn(w, q)
  {
    if input.Closed? {
      WithoutThem(v, power);
      OffWithin(v, power, q);
    } else {
      var b := if Mic(input) then biased else power;
      SetBoth(v, b);
      OnInEither(v, b, q);
    }
  }

  lemma ClearingKeeps(v: bv16, b: bv16, q: bv16)
    requires AllOff(b, q)
    ensures AllOn(v, q) ==> AllOn(Apply(Change(b, 0), v), q)
    ensures AllOff(v, q) ==> AllOff(Apply(Change(b, 0), v), q)
  {
    WithoutThem(v, b);
    if AllOn(v, q) {
      KeptOn(v, b, q);
    }
    if AllOff(v, q) {
      KeptOff(v, b, q);
    }
  }

  lemma SettingKeeps(v: bv16, b: bv16, q: bv16)
    requires AllOff(b, q)
    ensures AllOn(v, q) ==> AllOn(Apply(Change(b, b), v), q)
    ensures AllOff(v, q) ==> AllOff(Apply(Change(b, b), v), q)
  {
    SetBoth(v, b);
    if AllOn(v, q) {
      OnInEither(v, b, q);
    }
    if AllOff(v, q) {
      OffInBoth(v, b, q);
    }
  }

  /** And it leaves those of the other side alone. */
  lemma OtherSide(input: Input, power: bv16, biased: bv16, path: nat, vol: nat, mix: nat, v: bv16, q: bv16)
    requires AllOff(power, q) && AllOff(biased, q)
    ensures var w := Apply(InputChange(input, power, biased, path, vol, mix, POWER1), v);
            (AllOn(v, q) ==> AllOn(w, q)) && (AllOff(v, q) ==> AllOff(w, q))
  {
    if input.Closed? {
      ClearingKeeps(v, power, q);
    } else if Mic(input) {
      SettingKeeps(v, biased, q);
    } else {
      SettingKeeps(v, power, q);
    }
  }

  lemma LeftBits(q: bv16)
    requires LeftBit(q)
    ensures AllOn(0x28, q) && AllOn(0x2A, q) && AllOff(0x14, q) && AllOff(0x16, q)
  {
  }

  lemma RightBits(q: bv16)
    requires RightBit(q)
    ensures AllOn(0x14, q) && AllOn(0x16, q)
  {
  }

  lemma FourChanges(left: Change, right: Change, mixer: Change, route: Change, bits: bv16, v: bv16)
    requires mixer == NONE && route == Change(bits, bits)
    ensures Apply(After(left, After(right, After(mixer, route))), v) == Apply(right, Apply(left, v)) | bits
  {
    ApplyAfter(left, After(right, After(mixer, route)), v);
    ApplyAfter(right, After(mixer, route), Apply(left, v));
    AfterNone(route);
    SetBoth(Apply(right, Apply(left, v)), bits);
  }

  /** The mixers' settings are elsewhere, and a route only adds bits there. */
  lemma FirstPowerParts(r: Route, mixer: bool, dac: bool, input3: bool)
    ensures MixerChange(mixer, dac, input3, POWER1) == NONE
    ensures RouteChange(r, POWER1) == Change(Powers(RouteModules(r), POWER1), Powers(RouteModules(r), POWER1))
  {
  }

  /** The first power register after a route call: the two inputs, and the bits of the route's modules besides. */
  lemma FirstPower(s: State, c: Config)
    requires Synced(s) && ValidCall(CallRoute(c)) && ScriptOf(CallRoute(c)).accepted
    ensures RegsAfter(s, CallRoute(c))[POWER1] == Sides(c.left, c.right, s.chip.regs[POWER1])
                                                  | Powers(RouteModules(c.route), POWER1)
  {
    CallLeaves(s, CallRoute(c), POWER1);
    FirstPowerParts(c.route, c.mixer, c.dac, c.input3);
    FourChanges(LeftChange(c.left, POWER1), RightChange(c.right, POWER1),
                MixerChange(c.mixer, c.dac, c.input3, POWER1), RouteChange(c.route, POWER1),
                Powers(RouteModules(c.route), POWER1), s.chip.regs[POWER1]);
  }

  /** What the two inputs leave there: their amplifiers and converters on when open, off when closed. */
  function Sides(left: Input, right: Input, v: bv16): bv16 {
    Apply(RightChange(right, POWER1), Apply(LeftChange(left, POWER1), v))
  }

  /** Each of the four bits belongs to one input and says whether that is open. */
  lemma SidesAre(left: Input, right: Input, v: bv16, q: bv16)
    requires LeftBit(q) || RightBit(q)
    ensures if (if LeftBit(q) then left.Closed? else right.Closed?) then AllOff(Sides(left, right, v), q)
            else AllOn(Sides(left, right, v), q)
  {
    var w := Apply(LeftChange(left, POWER1), v);
    if LeftBit(q) {
      LeftBits(q);
      OwnSide(left, 0x28, 0x2A, LINPATH, LINVOL, INBMIX1, v, q);
      OtherSide(right, 0x14, 0x16, RINPATH, RINVOL, INBMIX2, w, q);
    } else {
      RightBits(q);
      OwnSide(right, 0x14, 0x16, RINPATH, RINVOL, INBMIX2, w, q);
    }
  }
}
