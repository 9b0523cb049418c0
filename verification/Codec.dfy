/**
 * The WM8960 audio codec driver. The chip's registers cannot be read, so the driver keeps a copy of them
 * in memory; every read-modify-write goes by that copy.
 *
 * Every function of the driver is a chain of register operations, each of which ends the function when it
 * fails. Such a chain is modelled as the list of its operations, a call that fails part-way as the
 * execution of a prefix.
 */
module Codec {

  import opened Arithmetic

  const REG_NUM: nat := 56

  const LINVOL: nat := 0x00
  const RINVOL: nat := 0x01
  const LOUT1: nat := 0x02
  const ROUT1: nat := 0x03
  const CLOCK1: nat := 0x04
  const DACCTL1: nat := 0x05
  const IFACE1: nat := 0x07
  const IFACE2: nat := 0x09
  const LDAC: nat := 0x0A
  const RDAC: nat := 0x0B
  const RESET: nat := 0x0F
  const LADC: nat := 0x15
  const RADC: nat := 0x16
  const ADDCTL1: nat := 0x17
  const POWER1: nat := 0x19
  const POWER2: nat := 0x1A
  const LINPATH: nat := 0x20
  const RINPATH: nat := 0x21
  const LOUTMIX: nat := 0x22
  const ROUTMIX: nat := 0x25
  const LOUT2: nat := 0x28
  const ROUT2: nat := 0x29
  const INBMIX1: nat := 0x2B
  const INBMIX2: nat := 0x2C
  const BYPASS1: nat := 0x2D
  const BYPASS2: nat := 0x2E
  const POWER3: nat := 0x2F
  const ADDCTL4: nat := 0x30
  const CLASSD1: nat := 0x31

  type NineBits = v: bv16 | v < 512

  /** Register contents after a reset. */
  const DEFAULTS: seq<NineBits> := [
    0x0097, 0x0097, 0x0000, 0x0000, 0x0000, 0x0008, 0x0000, 0x000a, 0x01c0, 0x0000, 0x00ff, 0x00ff, 0x0000, 0x0000,
    0x0000, 0x0000, 0x0000, 0x007b, 0x0100, 0x0032, 0x0000, 0x00c3, 0x00c3, 0x01c0, 0x0000, 0x0000, 0x0000, 0x0000,
    0x0000, 0x0000, 0x0000, 0x0000, 0x0100, 0x0100, 0x0050, 0x0050, 0x0050, 0x0050, 0x0000, 0x0000, 0x0000, 0x0000,
    0x0040, 0x0000, 0x0000, 0x0050, 0x0050, 0x0000, 0x0002, 0x0037, 0x004d, 0x0080, 0x0008, 0x0031, 0x0026, 0x00e9
  ]

  // ---------------------------------------------------------------- the two bytes on the wire

  function Byte0(reg: bv8, val: bv16): bv8 {
    (reg << 1) | (((val >> 8) & 0x0001) as bv8)
  }

  function Byte1(val: bv16): bv8 {
    (val & 0xFF) as bv8
  }

  function WireReg(b0: bv8): bv8 {
    b0 >> 1
  }

  function WireVal(b0: bv8, b1: bv8): bv16 {
    (((b0 & 1) as bv16) << 8) | (b1 as bv16)
  }

  /** Seven address bits and nine data bits arrive as sent exactly when they are no more than that. */
  lemma WireRoundTrip(reg: bv8, val: bv16)
    ensures WireReg(Byte0(reg, val)) == reg && WireVal(Byte0(reg, val), Byte1(val)) == val
            <==> reg < 128 && val < 512
  {
  }

  /** What the chip understands when the driver sends a value for a register. */
  function Heard(reg: nat, val: bv16): (nat, bv16)
    requires reg < 0x100
  {
    var b0, b1 := Byte0(reg as bv8, val), Byte1(val);
    (WireReg(b0) as int, WireVal(b0, b1))
  }

  /** That is what was meant exactly when the value has nine bits. */
  lemma HeardAsSent(reg: nat, val: bv16)
    requires reg < REG_NUM
    ensures Heard(reg, val) == (reg, val) <==> val < 512
  {
    var r := reg as bv8;
    assert r < 128;
    WireRoundTrip(r, val);
    assert r as int == reg;
  }

  // ---------------------------------------------------------------- the chip

  /** The registers, and the volumes in effect, by register number. */
  datatype Chip = Chip(regs: seq<bv16>, volume: seq<bv16>)

  ghost predicate IsChip(c: Chip) {
    |c.regs| == |c.volume| == REG_NUM
  }

  /** The other channel of a left/right pair of volume registers. */
  function Partner(reg: nat): nat {
    if reg == LINVOL then RINVOL else if reg == RINVOL then LINVOL
    else if reg == LOUT1 then ROUT1 else if reg == ROUT1 then LOUT1
    else if reg == LDAC then RDAC else if reg == RDAC then LDAC
    else if reg == LADC then RADC else if reg == RADC then LADC
    else if reg == LOUT2 then ROUT2 else if reg == ROUT2 then LOUT2
    else reg
  }

  function Level(v: bv16): bv16 {
    v & 0xFF
  }

  predicate Updates(v: bv16) {
    v & 0x100 != 0
  }

  /** A write with the update bit set puts both channels' volumes into effect; a write to RESET resets. */
  function ChipWrite(c: Chip, reg: nat, val: bv16): Chip
    requires IsChip(c) && reg < REG_NUM
  {
    if reg == RESET then
      Chip(DEFAULTS, seq(REG_NUM, i requires 0 <= i < REG_NUM => Level(DEFAULTS[i])))
    else
      var regs := c.regs[reg := val];
      if Partner(reg) != reg && Updates(val) then
        Chip(regs, c.volume[reg := Level(val)][Partner(reg) := Level(regs[Partner(reg)])])
      else
        Chip(regs, c.volume)
  }

  // ---------------------------------------------------------------- register operations

  datatype Op = Write(reg: nat, val: bv16) | Modify(reg: nat, mask: bv16, val: bv16)

  /** The driver's copy and the chip. */
  datatype State = State(shadow: seq<bv16>, chip: Chip)

  ghost predicate IsState(s: State) {
    |s.shadow| == REG_NUM && IsChip(s.chip)
  }

  predicate InRange(op: Op) {
    op.reg < REG_NUM
  }

  /** Clear the bits of the mask, then set those of the value. */
  function Masked(old_: bv16, mask: bv16, val: bv16): bv16 {
    (old_ & !mask) | val
  }

  function Value(s: State, op: Op): bv16
    requires IsState(s) && InRange(op)
  {
    if op.Write? then op.val else Masked(s.shadow[op.reg], op.mask, op.val)
  }

  /** The chip acts on what it hears, if it has that register. */
  function ChipHears(c: Chip, heard: (nat, bv16)): Chip
    requires IsChip(c)
    ensures IsChip(ChipHears(c, heard))
  {
    if heard.0 < REG_NUM then ChipWrite(c, heard.0, heard.1) else c
  }

  /** One operation that gets through: the copy takes the whole value, the chip what it hears of it. */
  function Step(s: State, op: Op): State
    requires IsState(s) && InRange(op)
    ensures IsState(Step(s, op))
  {
    Sent(s, op.reg, Value(s, op))
  }

  function Sent(s: State, reg: nat, v: bv16): State
    requires IsState(s) && reg < REG_NUM
    ensures IsState(Sent(s, reg, v))
  {
    State(s.shadow[reg := v], ChipHears(s.chip, Heard(reg, v)))
  }

  predicate AllInRange(ops: seq<Op>) {
    forall k :: 0 <= k < |ops| ==> InRange(ops[k])
  }

  /** Perform the first n operations of a list. */
  function Exec(s: State, ops: seq<Op>, n: nat): State
    requires IsState(s) && AllInRange(ops) && n <= |ops|
    ensures IsState(Exec(s, ops, n))
    decreases n
  {
    if n == 0 then s else Step(Exec(s, ops, n - 1), ops[n - 1])
  }

  /** The copy agrees with the chip, whose registers have nine bits. */
  ghost predicate Synced(s: State) {
    IsState(s) && s.shadow == s.chip.regs && forall i :: 0 <= i < REG_NUM ==> s.shadow[i] < 512
  }

  /** An operation that neither resets nor sends more than nine bits. */
  predicate Plain(op: Op) {
    InRange(op) && op.reg != RESET && op.val < 512
  }

  predicate AllPlain(ops: seq<Op>) {
    forall k :: 0 <= k < |ops| ==> Plain(ops[k])
  }

  lemma PlainValue(s: State, op: Op)
    requires Synced(s) && Plain(op)
    ensures Value(s, op) < 512
  {
    StaysNineBits(s.shadow[op.reg], if op.Write? then 0 else op.mask, op.val);
  }

  lemma SentKeepsSynced(s: State, reg: nat, v: bv16)
    requires Synced(s) && reg < REG_NUM && reg != RESET && v < 512
    ensures Synced(Sent(s, reg, v))
  {
    HeardAsSent(reg, v);
    assert Sent(s, reg, v).chip == ChipWrite(s.chip, reg, v);
  }

  lemma PlainKeepsSynced(s: State, op: Op)
    requires Synced(s) && Plain(op)
    ensures Synced(Step(s, op))
  {
    PlainValue(s, op);
    SentKeepsSynced(s, op.reg, Value(s, op));
  }

  lemma StaysNineBits(old_: bv16, mask: bv16, val: bv16)
    requires old_ < 512 && val < 512
    ensures Masked(old_, mask, val) < 512
  {
  }

  /** After any number of plain operations, also when the next one fails, the copy is right. */
  lemma {:induction false} PrefixesStaySynced(s: State, ops: seq<Op>, n: nat)
    requires Synced(s) && AllPlain(ops) && n <= |ops|
    ensures Synced(Exec(s, ops, n))
    decreases n
  {
    if n > 0 {
      PrefixesStaySynced(s, ops, n - 1);
      PlainKeepsSynced(Exec(s, ops, n - 1), ops[n - 1]);
    }
  }

  // ---------------------------------------------------------------- the driver's functions

  datatype Module = Adc | Dac | Vref | Headphone | MicBias | AnaIn | LineOut | Speaker | OutputMixer

  datatype Route = Bypass | Playback | PlaybackAndRecord | Record | UnknownRoute

  datatype Input = Closed | SingleEndedMic | DifferentialMic2 | DifferentialMic3 | Line2 | Line3 | UnknownInput

  datatype Protocol = RightJustified | LeftJustified | I2s | PcmA | PcmB

  datatype Format = Format(mclk: nat, rate: nat, bits: nat)

  datatype Config = Config(route: Route, bus: Protocol, left: Input, right: Input, mixer: bool, input3: bool, dac: bool,
                           format: Format)

  /** The operations of a function, and whether it accepts its arguments once they have all succeeded. */
  datatype Script = Script(ops: seq<Op>, accepted: bool)

  function Then(a: Script, b: Script): Script {
    if a.accepted then Script(a.ops + b.ops, b.accepted) else a
  }

  const REJECT := Script([], false)

  /** `enable << shift` under the mask of that single bit. */
  function Bit(reg: nat, mask: bv16, enable: bool): Op {
    Modify(reg, mask, if enable then mask else 0)
  }

  function SetModule(m: Module, enable: bool): Script {
    match m
    case Adc => Script([Bit(POWER1, 0x8, enable), Bit(POWER1, 0x4, enable)], true)
    case Dac => Script([Bit(POWER2, 0x100, enable), Bit(POWER2, 0x80, enable)], true)
    case Vref => Script([Bit(POWER1, 0x40, enable)], true)
    case AnaIn => Script([Bit(POWER1, 0x20, enable), Bit(POWER1, 0x10, enable),
                          Bit(POWER3, 0x20, enable), Bit(POWER3, 0x10, enable)], true)
    case LineOut => Script([Bit(POWER2, 0x40, enable), Bit(POWER2, 0x20, enable)], true)
    case MicBias => Script([Bit(POWER1, 0x2, enable)], true)
    case Speaker => Script([Bit(POWER2, 0x10, enable), Bit(POWER2, 0x8, enable), Write(CLASSD1, 0xF7)], true)
    case OutputMixer => Script([Bit(POWER3, 0x8, enable), Bit(POWER3, 0x4, enable)], true)
    case Headphone => REJECT
  }

  /** The left and right input functions differ only in registers and power bits. */
  function SetInput(input: Input, power: bv16, path: nat, vol: nat, mix: nat): Script {
    match input
    case Closed => Script([Modify(POWER1, power, 0)], true)
    case SingleEndedMic => Script([Modify(POWER1, 0, power | 0x2), Write(path, 0x138), Write(vol, 0x117)], true)
    case DifferentialMic2 => Script([Modify(POWER1, 0, power | 0x2), Write(path, 0x178), Write(vol, 0x117)], true)
    case DifferentialMic3 => Script([Modify(POWER1, 0, power | 0x2), Write(path, 0x1B8), Write(vol, 0x117)], true)
    case Line2 => Script([Modify(POWER1, 0, power), Modify(mix, 0, 0xE)], true)
    case Line3 => Script([Modify(POWER1, 0, power), Modify(mix, 0, 0x70)], true)
    case UnknownInput => REJECT
  }

  function SetLeftInput(input: Input): Script {
    SetInput(input, 0x28, LINPATH, LINVOL, INBMIX1)
  }

  function SetRightInput(input: Input): Script {
    SetInput(input, 0x14, RINPATH, RINVOL, INBMIX2)
  }

  function MixerPart(on: bool, bypass: bv16, mix: bv16): seq<Op> {
    if on then [Modify(BYPASS1, 0x80, bypass), Modify(BYPASS2, 0x80, bypass),
                Modify(LOUTMIX, 0x180, mix), Modify(ROUTMIX, 0x180, mix)] else []
  }

  function ConfigMixer(mixer: bool, dac: bool, input3: bool): Script {
    Script(MixerPart(mixer, 0x80, 0) + MixerPart(dac, 0, 0x100) + MixerPart(input3, 0, 0x80), true)
  }

  function SetRoute(route: Route): Script {
    match route
    case Bypass =>
      Then(SetModule(MicBias, true), Then(SetModule(AnaIn, true),
           Then(SetModule(OutputMixer, true), SetModule(LineOut, true))))
    case Playback =>
      Then(Script([Write(POWER3, 0x0C)], true),
           Then(SetModule(Dac, true), Then(SetModule(OutputMixer, true), SetModule(LineOut, true))))
    case PlaybackAndRecord =>
      Then(Script([Write(POWER3, 0x3C)], true),
           Then(SetModule(Adc, true), Then(SetModule(MicBias, true), Then(SetModule(AnaIn, true),
           Then(SetModule(Dac, true), Then(SetModule(OutputMixer, true), SetModule(LineOut, true)))))))
    case Record =>
      Then(Script([Write(POWER3, 0x30)], true),
           Then(SetModule(MicBias, true), Then(SetModule(AnaIn, true), SetModule(Adc, true))))
    case UnknownRoute => REJECT
  }

  function SetDataRoute(c: Config): Script {
    Then(SetLeftInput(c.left),
         Then(SetRightInput(c.right), Then(ConfigMixer(c.mixer, c.dac, c.input3), SetRoute(c.route))))
  }

  function SetProtocol(p: Protocol): Script {
    var val := match p
      case RightJustified => 0
      case LeftJustified => 1
      case I2s => 2
      case PcmA => 3
      case PcmB => 0x13;
    Script([Modify(IFACE1, 0x3, val)], true)
  }

  function Deinit(): Script {
    Script([Write(POWER1, 0), Write(POWER2, 0), Write(POWER3, 0)], true)
  }

  function WithUpdate(volume: bv16): bv16 {
    0x100 | volume
  }

  /** Set both channels, then set them again with the update bit. */
  function Volume(l: nat, r: nat, volume: bv16): seq<Op> {
    [Write(l, volume), Write(r, volume), Write(l, WithUpdate(volume)), Write(r, WithUpdate(volume))]
  }

  function VolumeLimit(m: Module): nat {
    match m
    case Adc => 255
    case Dac => 255
    case Headphone => 0x7F
    case AnaIn => 0x3F
    case Speaker => 0x7F
    case _ => 0
  }

  function VolumeRegs(m: Module): (nat, nat) {
    match m
    case Adc => (LADC, RADC)
    case Dac => (LDAC, RDAC)
    case Headphone => (LOUT1, ROUT1)
    case AnaIn => (LINVOL, RINVOL)
    case Speaker => (LOUT2, ROUT2)
    case _ => (RESET, RESET)
  }

  predicate HasVolume(m: Module) {
    m.Adc? || m.Dac? || m.Headphone? || m.AnaIn? || m.Speaker?
  }

  function SetVolume(m: Module, volume: nat): Script {
    if !HasVolume(m) || volume > VolumeLimit(m) then REJECT
    else Script(Volume(VolumeRegs(m).0, VolumeRegs(m).1, volume as bv16), true)
  }

  // ---------------------------------------------------------------- the clock divider

  const WORD := 0x1_0000_0000

  const RATIOS: seq<nat> := [256, 384, 512, 768, 1024, 1408, 1536]

  /** `wm8960_check_clock_tolerance`, in 32-bit unsigned arithmetic. */
  predicate CheckTolerance(source: nat, target: nat) {
    var delta := if source >= target then source - target else target - source;
    delta * 100 % WORD <= 4 * target % WORD
  }

  /** The first ratio that passes, or 7. */
  function FindRatio(sysclk: nat, rate: nat, i: nat): (r: nat)
    requires i <= 7
    ensures i <= r <= 7
    decreases 7 - i
  {
    if i == 7 || CheckTolerance(sysclk, rate * RATIOS[i] % WORD) then i else FindRatio(sysclk, rate, i + 1)
  }

  predicate Halves(mclk: nat, rate: nat)
    requires 0 < rate
  {
    mclk / rate > 1536
  }

  /** The clock the dividers see. */
  function SysClk(mclk: nat, rate: nat): nat
    requires 0 < rate
  {
    if Halves(mclk, rate) then mclk / 2 else mclk
  }

  function ClockBits(i: nat, halved: bool): bv16
    requires i < 7
  {
    (if halved then 4 else 0) | ((i as bv16) << 6) | ((i as bv16) << 3)
  }

  function SetDataFormat(f: Format): Script
    requires 0 < f.rate
  {
    var i := FindRatio(SysClk(f.mclk, f.rate), f.rate, 0);
    if i == 7 then REJECT
    else
      Then(Script([Modify(CLOCK1, 0x1FE, ClockBits(i, Halves(f.mclk, f.rate)))], true),
           if f.bits == 16 then Script([Modify(IFACE1, 0xC, 0x0)], true)
           else if f.bits == 20 then Script([Modify(IFACE1, 0xC, 0x4)], true)
           else if f.bits == 24 then Script([Modify(IFACE1, 0xC, 0x8)], true)
           else if f.bits == 32 then Script([Modify(IFACE1, 0xC, 0xC)], true)
           else REJECT)
  }

  /** The check without wrap-around: the clock is within 4% of what the ratio asks for. */
  predicate InBand(sysclk: nat, target: nat) {
    Scaled(sysclk, target) <= 4 * target
  }

  /** How far the clock is off, scaled as the driver scales it. */
  function Scaled(sysclk: nat, target: nat): nat {
    (if sysclk >= target then sysclk - target else target - sysclk) * 100
  }

  /** The scaled difference leaves 32 bits, and what is left of it passes the test. */
  predicate Wraps(sysclk: nat, target: nat) {
    Scaled(sysclk, target) >= WORD && Scaled(sysclk, target) % WORD <= 4 * target
  }

  /** Rates up to 699050 Hz: the right-hand side of the test stays within 32 bits for every ratio. */
  predicate RateFits(rate: nat) {
    4 * 1536 * rate < WORD
  }

  /** The seven 4% bands are pairwise disjoint. */
  lemma BandsDisjoint(sysclk: nat, rate: nat, i: nat, j: nat)
    requires i < 7 && j < 7 && 0 < rate
    requires InBand(sysclk, rate * RATIOS[i]) && InBand(sysclk, rate * RATIOS[j])
    ensures i == j
  {
    if i < j {
      BandsOrdered(sysclk, rate, i, j);
    } else if j < i {
      BandsOrdered(sysclk, rate, j, i);
    }
  }

  lemma BandsOrdered(sysclk: nat, rate: nat, i: nat, j: nat)
    requires i < j < 7 && 0 < rate
    ensures !(InBand(sysclk, rate * RATIOS[i]) && InBand(sysclk, rate * RATIOS[j]))
  {
    var a, b := RATIOS[i], RATIOS[j];
    assert 104 * a < 96 * b;
    assert rate * (104 * a) < rate * (96 * b);
    assert rate * (104 * a) == 104 * (rate * a) && rate * (96 * b) == 96 * (rate * b);
  }

  /** The 32-bit check passes exactly what is within 4%, and what wraps to something small. */
  lemma CheckIs(s: nat, rate: nat, i: nat)
    requires i < 7 && RateFits(rate)
    ensures CheckTolerance(s, rate * RATIOS[i] % WORD) <==> InBand(s, rate * RATIOS[i]) || Wraps(s, rate * RATIOS[i])
    ensures !(InBand(s, rate * RATIOS[i]) && Wraps(s, rate * RATIOS[i]))
  {
    var target := rate * RATIOS[i];
    TargetFits(rate, RATIOS[i]);
    assert target % WORD == target && 4 * target % WORD == 4 * target;
    WordRest(Scaled(s, target));
  }

  lemma TargetFits(rate: nat, ratio: nat)
    requires RateFits(rate) && ratio <= 1536
    ensures 4 * (rate * ratio) < WORD
  {
    MulMono(ratio, 1536, rate);
  }

  lemma WordRest(n: nat)
    ensures n < WORD ==> n % WORD == n
  {
  }

  predicate Passes(s: nat, target: nat) {
    InBand(s, target) || Wraps(s, target)
  }

  /** The driver stops at the first ratio that is within 4% or wraps. */
  lemma {:induction false} StopsAtFirst(s: nat, rate: nat, i: nat)
    requires i <= 7 && RateFits(rate)
    ensures var r := FindRatio(s, rate, i);
            && (r < 7 ==> Passes(s, rate * RATIOS[r]))
            && forall j :: i <= j < r ==> !Passes(s, rate * RATIOS[j])
    decreases 7 - i
  {
    if i < 7 {
      CheckIs(s, rate, i);
      StopsAtFirst(s, rate, i + 1);
    }
  }

  /** In which of the seven bands the clock lies, and for which ratios it wraps. */
  function Bands(s: nat, rate: nat): seq<bool> {
    seq(7, i requires 0 <= i < 7 => InBand(s, rate * RATIOS[i]))
  }

  function Wrapping(s: nat, rate: nat): seq<bool> {
    seq(7, i requires 0 <= i < 7 => Wraps(s, rate * RATIOS[i]))
  }

  /** The driver's answer is the band the clock lies in, for every ratio; and no answer when it lies in none. */
  predicate Right(s: nat, rate: nat) {
    forall i :: 0 <= i < 7 ==> (FindRatio(s, rate, 0) == i <==> Bands(s, rate)[i])
  }

  /** No ratio wraps unless the clock lies in the band of an earlier one. */
  predicate BandComesFirst(s: nat, rate: nat) {
    forall i :: 0 <= i < 7 && Wrapping(s, rate)[i] ==> exists j :: 0 <= j < i && Bands(s, rate)[j]
  }

  /**
   * With the tests written as lists: of ratios that exclude each other, some in band and some wrapping, the
   * first that does either is the one in band exactly when no wrapping one comes before one in band.
   */
  lemma FirstIsInBandIff(inBand: seq<bool>, wraps: seq<bool>, r: nat)
    requires |inBand| == |wraps| && r <= |inBand|
    requires forall i :: 0 <= i < r ==> !inBand[i] && !wraps[i]
    requires r < |inBand| ==> inBand[r] != wraps[r]
    requires forall i, j :: 0 <= i < |inBand| && 0 <= j < |inBand| && inBand[i] && inBand[j] ==> i == j
    ensures (forall i :: 0 <= i < |inBand| ==> (r == i <==> inBand[i])) <==> r == |inBand| || inBand[r]
    ensures r == |inBand| || inBand[r]
            <==> forall i :: 0 <= i < |inBand| && wraps[i] ==> exists j :: 0 <= j < i && inBand[j]
  {
    if r < |inBand| && inBand[r] {
      forall i | 0 <= i < |inBand| && wraps[i] && i != r
        ensures exists j :: 0 <= j < i && inBand[j]
      {
        assert r < i && inBand[r];
      }
    }
  }

  lemma SearchIs(s: nat, rate: nat, r: nat)
    requires 0 < rate && RateFits(rate) && r == FindRatio(s, rate, 0)
    ensures r <= 7 && forall i :: 0 <= i < r ==> !Bands(s, rate)[i] && !Wrapping(s, rate)[i]
    ensures r < 7 ==> Bands(s, rate)[r] != Wrapping(s, rate)[r]
  {
    StopsAtFirst(s, rate, 0);
    forall i | 0 <= i < r
      ensures !Bands(s, rate)[i] && !Wrapping(s, rate)[i]
    {
      assert !Passes(s, rate * RATIOS[i]);
    }
    if r < 7 {
      CheckIs(s, rate, r);
    }
  }

  lemma OneBand(s: nat, rate: nat)
    requires 0 < rate
    ensures forall i, j :: 0 <= i < 7 && 0 <= j < 7 && Bands(s, rate)[i] && Bands(s, rate)[j] ==> i == j
  {
    forall i, j | 0 <= i < 7 && 0 <= j < 7 && Bands(s, rate)[i] && Bands(s, rate)[j]
      ensures i == j
    {
      BandsDisjoint(s, rate, i, j);
    }
  }

  /**
   * Exactly when the driver finds the right divider: no ratio wraps unless the clock lies in the band of an
   * earlier one. A divider it stops at is within 4% exactly when its own difference does not wrap, and when
   * it rejects a clock none is.
   */
  lemma RightIff(s: nat, rate: nat)
    requires 0 < rate && RateFits(rate)
    ensures Right(s, rate) <==> BandComesFirst(s, rate)
    ensures var r := FindRatio(s, rate, 0);
            && (Right(s, rate) <==> r == 7 || !Wraps(s, rate * RATIOS[r]))
            && (r < 7 ==> (InBand(s, rate * RATIOS[r]) <==> !Wraps(s, rate * RATIOS[r])))
            && (r == 7 ==> forall i :: 0 <= i < 7 ==> !InBand(s, rate * RATIOS[i]))
  {
    var r := FindRatio(s, rate, 0);
    SearchIs(s, rate, r);
    OneBand(s, rate);
    FirstIsInBandIff(Bands(s, rate), Wrapping(s, rate), r);
    if r == 7 {
      forall i | 0 <= i < 7
        ensures !InBand(s, rate * RATIOS[i])
      {
        assert !Bands(s, rate)[i];
      }
    }
  }

  /** In particular, while no ratio up to it wraps, a divider is found exactly when the clock lies in its band. */
  lemma FindsTheBand(s: nat, rate: nat, i: nat)
    requires 0 < rate && RateFits(rate) && i < 7
    requires forall j :: 0 <= j <= i ==> !Wraps(s, rate * RATIOS[j])
    ensures FindRatio(s, rate, 0) == i <==> InBand(s, rate * RATIOS[i])
  {
    var r := FindRatio(s, rate, 0);
    StopsAtFirst(s, rate, 0);
    if InBand(s, rate * RATIOS[i]) {
      assert Passes(s, rate * RATIOS[i]);
      assert r <= i;
      BandsDisjoint(s, rate, r, i);
    }
  }

  /**
   * Wrapping does happen: for every such sample rate, the clock at which the scaled difference first
   * leaves 32 bits is accepted with ratio 256 though it is far outside that band.
   */
  lemma OverflowAcceptsWrongClock(rate: nat)
    requires 33555 <= rate && 4 * 256 * rate < WORD
    ensures var mclk := 256 * rate + 42949673;
            && !Halves(mclk, rate) && FindRatio(SysClk(mclk, rate), rate, 0) == 0
            && Wraps(mclk, 256 * rate) && !InBand(mclk, 256 * rate)
  {
    var mclk := 256 * rate + 42949673;
    var target := rate * RATIOS[0];
    assert target == 256 * rate && target % WORD == target;
    assert 42949673 * 100 % WORD == 4 && 4 * target % WORD == 4 * target;
    assert CheckTolerance(mclk, target % WORD);
    assert 42949673 < 1281 * rate;
    DivBelow(mclk, rate, 1537);
  }

  lemma DivBelow(a: nat, b: nat, k: nat)
    requires 0 < b && a < k * b
    ensures a / b < k
  {
    var q := a / b;
    assert a >= q * b;
    if k <= q {
      MulMono(k, q, b);
    }
  }

  /**
   * What an accepted format leaves in the clock register: equal ADC and DAC dividers, the code found, and
   * the clock-select bit as it was.
   */
  lemma ClockRegister(old_: bv16, i: nat, halved: bool)
    requires i < 7
    ensures var v := Masked(old_, 0x1FE, ClockBits(i, halved));
            && (v & 0x1C0) >> 6 == i as bv16 && (v & 0x38) >> 3 == i as bv16
            && (v & 0x6) >> 1 == (if halved then 2 else 0)
            && v & 0x1 == old_ & 0x1
  {
    if i == 0 {
    } else if i == 1 {
    } else if i == 2 {
    } else if i == 3 {
    } else if i == 4 {
    } else if i == 5 {
    } else {
      assert i == 6;
    }
  }

  /** A format is accepted exactly when its width is known and some ratio is within 4% or wraps. */
  lemma AcceptsIff(f: Format)
    requires 0 < f.rate && RateFits(f.rate)
    ensures SetDataFormat(f).accepted
            <==> (f.bits == 16 || f.bits == 20 || f.bits == 24 || f.bits == 32)
                 && exists i :: 0 <= i < 7 && Passes(SysClk(f.mclk, f.rate), f.rate * RATIOS[i])
  {
    var s := SysClk(f.mclk, f.rate);
    StopsAtFirst(s, f.rate, 0);
    var r := FindRatio(s, f.rate, 0);
    if r < 7 {
      assert Passes(s, f.rate * RATIOS[r]);
    }
  }

  /** The clock behind the pre-divider, which halves what is more than the largest ratio times the rate. */
  function Divided(mclk: nat, rate: nat): nat
    requires 0 < rate
  {
    if mclk / rate <= 256 * 6 then mclk else mclk / 2
  }

  /**
   * What an accepted format leaves in the chip's clock register: the pre-divider, the same code as ADC and DAC
   * divider, that of a ratio within 4% of the request exactly when its difference does not wrap, and the
   * clock-select bit as it was.
   */
  lemma AcceptedFormat(s: State, f: Format) returns (i: nat)
    requires Synced(s) && 0 < f.rate && RateFits(f.rate) && SetDataFormat(f).accepted
    ensures i < 7 && i == FindRatio(SysClk(f.mclk, f.rate), f.rate, 0)
    ensures var clock := Divided(f.mclk, f.rate);
            InBand(clock, f.rate * RATIOS[i]) <==> !Wraps(clock, f.rate * RATIOS[i])
    ensures AllInRange(SetDataFormat(f).ops)
    ensures var v := Exec(s, SetDataFormat(f).ops, |SetDataFormat(f).ops|).chip.regs[CLOCK1];
            && (v & 0x1C0) >> 6 == i as bv16 && (v & 0x38) >> 3 == i as bv16
            && (v & 0x6) >> 1 == (if f.mclk / f.rate <= 256 * 6 then 0 else 2)
            && v & 0x1 == s.chip.regs[CLOCK1] & 0x1
  {
    i := FindRatio(SysClk(f.mclk, f.rate), f.rate, 0);
    RightIff(SysClk(f.mclk, f.rate), f.rate);
    var halved := Halves(f.mclk, f.rate);
    ClockRegister(s.shadow[CLOCK1], i, halved);
    FormatPlain(f);
    var ops := SetDataFormat(f).ops;
    assert ops[0] == Modify(CLOCK1, 0x1FE, ClockBits(i, halved)) && |ops| == 2 && ops[1].reg == IFACE1;
    PrefixesStaySynced(s, ops, 2);
    assert Exec(s, ops, 0) == s && Exec(s, ops, 1) == Step(s, ops[0]);
    assert Exec(s, ops, 2) == Step(Exec(s, ops, 1), ops[1]);
  }

  // ---------------------------------------------------------------- runs of calls

  datatype Call =
    | CallInit(c: Config)
    | CallDeinit
    | CallProtocol(p: Protocol)
    | CallModule(m: Module, enable: bool)
    | CallRoute(c: Config)
    | CallLeft(input: Input)
    | CallRight(input: Input)
    | CallVolume(m: Module, volume: nat)
    | CallFormat(f: Format)
    | CallMixer(mixer: bool, dac: bool, input3: bool)

  predicate ValidCall(c: Call) {
    (c.CallInit? ==> 0 < c.c.format.rate) && (c.CallFormat? ==> 0 < c.f.rate)
  }

  function InitPower(): Script {
    Script([Write(POWER1, 0xFE), Write(POWER2, 0x1F8), Write(POWER3, 0x3C), Write(IFACE2, 0x40)], true)
  }

  function InitLevels(): Script {
    Script([Modify(IFACE1, 0x40, 0), Modify(IFACE1, 0x10, 0x10), Write(ADDCTL1, 0xC0), Write(ADDCTL4, 0x40),
            Write(LADC, 0x1D3), Write(RADC, 0x1D3), Write(LDAC, 0x1E0), Write(RDAC, 0x1E0),
            Write(LOUT1, 0x17F), Write(ROUT1, 0x17F), Write(LOUT2, 0x1FF), Write(ROUT2, 0x1FF),
            Write(CLASSD1, 0xF7), Write(DACCTL1, 0), Write(LINVOL, 0x117), Write(RINVOL, 0x117)], true)
  }

  /** What `wm8960_init` does after the reset. */
  function InitRest(c: Config): Script
    requires 0 < c.format.rate
  {
    Then(InitPower(), Then(SetProtocol(c.bus), Then(InitLevels(), Then(SetDataFormat(c.format), SetDataRoute(c)))))
  }

  function ScriptOf(c: Call): Script
    requires ValidCall(c)
  {
    match c
    case CallInit(cfg) => Then(Script([Write(RESET, 0)], true), InitRest(cfg))
    case CallDeinit => Deinit()
    case CallProtocol(p) => SetProtocol(p)
    case CallModule(m, enable) => SetModule(m, enable)
    case CallRoute(cfg) => SetDataRoute(cfg)
    case CallLeft(input) => SetLeftInput(input)
    case CallRight(input) => SetRightInput(input)
    case CallVolume(m, volume) => SetVolume(m, volume)
    case CallFormat(f) => SetDataFormat(f)
    case CallMixer(mixer, dac, input3) => ConfigMixer(mixer, dac, input3)
  }

  lemma PlainThen(a: Script, b: Script)
    requires AllPlain(a.ops) && AllPlain(b.ops)
    ensures AllPlain(Then(a, b).ops)
  {
  }

  lemma ModulePlain(m: Module, enable: bool)
    ensures AllPlain(SetModule(m, enable).ops)
  {
  }

  lemma InputsPlain(input: Input)
    ensures AllPlain(SetLeftInput(input).ops) && AllPlain(SetRightInput(input).ops)
  {
  }

  lemma MixerPlain(mixer: bool, dac: bool, input3: bool)
    ensures AllPlain(ConfigMixer(mixer, dac, input3).ops)
  {
  }

  lemma RoutePlain(route: Route)
    ensures AllPlain(SetRoute(route).ops)
  {
    ModulePlain(MicBias, true);
    ModulePlain(AnaIn, true);
    ModulePlain(OutputMixer, true);
    ModulePlain(LineOut, true);
    ModulePlain(Dac, true);
    ModulePlain(Adc, true);
  }

  lemma DataRoutePlain(c: Config)
    ensures AllPlain(SetDataRoute(c).ops)
  {
    InputsPlain(c.left);
    InputsPlain(c.right);
    MixerPlain(c.mixer, c.dac, c.input3);
    RoutePlain(c.route);
    FourPlain(SetLeftInput(c.left), SetRightInput(c.right), ConfigMixer(c.mixer, c.dac, c.input3), SetRoute(c.route));
  }

  lemma FourPlain(a: Script, b: Script, c: Script, d: Script)
    requires AllPlain(a.ops) && AllPlain(b.ops) && AllPlain(c.ops) && AllPlain(d.ops)
    ensures AllPlain(Then(a, Then(b, Then(c, d))).ops)
  {
    PlainThen(c, d);
    PlainThen(b, Then(c, d));
    PlainThen(a, Then(b, Then(c, d)));
  }

  lemma VolumePlain(m: Module, volume: nat)
    ensures AllPlain(SetVolume(m, volume).ops)
  {
    if HasVolume(m) && volume <= VolumeLimit(m) {
      WithUpdateBit(volume);
    }
  }

  lemma WithUpdateBit(volume: nat)
    requires volume < 256
    ensures volume as bv16 < 256 && WithUpdate(volume as bv16) < 512
  {
    var v := volume as bv16;
    assert v < 256;
    assert WithUpdate(v) < 512;
  }

  lemma FormatPlain(f: Format)
    requires 0 < f.rate
    ensures AllPlain(SetDataFormat(f).ops)
  {
    var i := FindRatio(SysClk(f.mclk, f.rate), f.rate, 0);
    if i < 7 {
      ClockBitsSmall(i, Halves(f.mclk, f.rate));
    }
  }

  lemma ClockBitsSmall(i: nat, halved: bool)
    requires i < 7
    ensures ClockBits(i, halved) < 512
  {
    if i == 0 {
    } else if i == 1 {
    } else if i == 2 {
    } else if i == 3 {
    } else if i == 4 {
    } else if i == 5 {
    } else {
      assert i == 6;
    }
  }

  lemma FivePlain(a: Script, b: Script, c: Script, d: Script, e: Script)
    requires AllPlain(a.ops) && AllPlain(b.ops) && AllPlain(c.ops) && AllPlain(d.ops) && AllPlain(e.ops)
    ensures AllPlain(Then(a, Then(b, Then(c, Then(d, e)))).ops)
  {
    PlainThen(d, e);
    FourPlain(a, b, c, Then(d, e));
  }

  lemma LevelsPlain(p: Protocol)
    ensures AllPlain(InitPower().ops) && AllPlain(InitLevels().ops) && AllPlain(SetProtocol(p).ops)
  {
  }

  lemma InitRestPlain(c: Config)
    requires 0 < c.format.rate
    ensures AllPlain(InitRest(c).ops)
  {
    LevelsPlain(c.bus);
    FormatPlain(c.format);
    DataRoutePlain(c);
    FivePlain(InitPower(), SetProtocol(c.bus), InitLevels(), SetDataFormat(c.format), SetDataRoute(c));
  }

  lemma DeinitPlain(p: Protocol)
    ensures AllPlain(Deinit().ops) && AllPlain(SetProtocol(p).ops)
  {
  }

  lemma OthersPlain(c: Call)
    requires ValidCall(c) && !c.CallInit?
    ensures AllPlain(ScriptOf(c).ops)
  {
    match c
    case CallDeinit => DeinitPlain(I2s);
    case CallProtocol(p) => DeinitPlain(p);
    case CallModule(m, enable) => ModulePlain(m, enable);
    case CallRoute(cfg) => DataRoutePlain(cfg);
    case CallLeft(input) => InputsPlain(input);
    case CallRight(input) => InputsPlain(input);
    case CallVolume(m, volume) => VolumePlain(m, volume);
    case CallFormat(f) => FormatPlain(f);
    case CallMixer(mixer, dac, input3) => MixerPlain(mixer, dac, input3);
  }

  lemma PlainInRange(ops: seq<Op>)
    requires AllPlain(ops)
    ensures AllInRange(ops)
  {
  }

  lemma InitInRange(rest: seq<Op>)
    requires AllPlain(rest)
    ensures AllInRange([Write(RESET, 0)] + rest)
  {
  }

  lemma CallsArePlain(c: Call)
    requires ValidCall(c)
    ensures AllInRange(ScriptOf(c).ops)
    ensures !c.CallInit? ==> AllPlain(ScriptOf(c).ops)
    ensures c.CallInit? ==> ScriptOf(c).ops == [Write(RESET, 0)] + InitRest(c.c).ops && AllPlain(InitRest(c.c).ops)
  {
    if c.CallInit? {
      InitRestPlain(c.c);
      InitInRange(InitRest(c.c).ops);
    } else {
      OthersPlain(c);
      PlainInRange(ScriptOf(c).ops);
    }
  }

  /** What a call comes down to: a list of operations of which n succeed, after the copy is set up if it initializes. */
  datatype Job = Job(init: bool, ops: seq<Op>, n: nat)

  ghost predicate ValidJob(j: Job) {
    AllInRange(j.ops) && j.n <= |j.ops|
  }

  function Before(s: State, init: bool): State {
    if init then s.(shadow := DEFAULTS) else s
  }

  ghost function Done(s: State, j: Job): State
    requires IsState(s) && ValidJob(j)
    ensures IsState(Done(s, j))
  {
    Exec(Before(s, j.init), j.ops, j.n)
  }

  ghost predicate ValidJobs(js: seq<Job>) {
    forall k :: 0 <= k < |js| ==> ValidJob(js[k])
  }

  ghost function DoneAll(s: State, js: seq<Job>): State
    requires IsState(s) && ValidJobs(js)
    ensures IsState(DoneAll(s, js))
    decreases |js|
  {
    if js == [] then s else Done(DoneAll(s, js[..|js| - 1]), js[|js| - 1])
  }

  /** An initialization starts with the reset; everything else is plain. */
  ghost predicate Proper(j: Job) {
    if j.init then j.ops != [] && j.ops[0] == Write(RESET, 0) && AllPlain(j.ops[1..]) else AllPlain(j.ops)
  }

  /** The reset write itself: copy and chip both hold the defaults. */
  lemma ResetSyncs(s: State)
    requires IsState(s) && s.shadow == DEFAULTS
    ensures Synced(Step(s, Write(RESET, 0)))
  {
    HeardAsSent(RESET, 0);
    assert DEFAULTS[RESET := 0] == DEFAULTS;
  }

  /** After the reset any number of plain operations. */
  lemma {:induction false} ResetThenPlain(s: State, ops: seq<Op>, n: nat)
    requires IsState(s) && s.shadow == DEFAULTS && AllInRange(ops) && 1 <= n <= |ops|
    requires ops[0] == Write(RESET, 0) && AllPlain(ops[1..])
    ensures Synced(Exec(s, ops, n))
    decreases n
  {
    if n == 1 {
      ResetSyncs(s);
      assert Exec(s, ops, 0) == s;
    } else {
      ResetThenPlain(s, ops, n - 1);
      assert ops[n - 1] == ops[1..][n - 2];
      PlainKeepsSynced(Exec(s, ops, n - 1), ops[n - 1]);
    }
  }

  lemma InitJobSyncs(s: State, j: Job)
    requires IsState(s) && ValidJob(j) && Proper(j) && j.init && j.n > 0
    ensures Synced(Done(s, j))
  {
    ResetThenPlain(Before(s, true), j.ops, j.n);
  }

  lemma OtherJobKeeps(s: State, j: Job)
    requires Synced(s) && ValidJob(j) && Proper(j) && !j.init
    ensures Synced(Done(s, j))
  {
    PrefixesStaySynced(s, j.ops, j.n);
  }

  lemma {:induction false} JobsStaySynced(s: State, js: seq<Job>)
    requires Synced(s) && ValidJobs(js)
    requires forall k :: 0 <= k < |js| ==> Proper(js[k]) && (js[k].init ==> js[k].n > 0)
    ensures Synced(DoneAll(s, js))
    decreases |js|
  {
    if js != [] {
      var before, last := js[..|js| - 1], js[|js| - 1];
      JobsStaySynced(s, before);
      if last.init {
        InitJobSyncs(DoneAll(s, before), last);
      } else {
        OtherJobKeeps(DoneAll(s, before), last);
      }
    }
  }

  lemma {:induction false} LastInitJobDecides(s: State, js: seq<Job>, k: nat)
    requires IsState(s) && ValidJobs(js) && k < |js| && js[k].init && js[k].n > 0
    requires forall j :: 0 <= j < |js| ==> Proper(js[j])
    requires forall j :: k < j < |js| ==> !js[j].init
    ensures Synced(DoneAll(s, js))
    decreases |js|
  {
    var before, last := js[..|js| - 1], js[|js| - 1];
    if k == |js| - 1 {
      InitJobSyncs(DoneAll(s, before), last);
    } else {
      LastInitJobDecides(s, before, k);
      OtherJobKeeps(DoneAll(s, before), last);
    }
  }

  /** A call of which n operations succeed. */
  datatype Try = Try(call: Call, n: nat)

  function JobOf(t: Try): Job
    requires ValidCall(t.call)
  {
    Job(t.call.CallInit?, ScriptOf(t.call).ops, t.n)
  }

  ghost predicate ValidTry(t: Try) {
    ValidCall(t.call) && ValidJob(JobOf(t))
  }

  ghost function Made(s: State, t: Try): State
    requires IsState(s) && ValidTry(t)
    ensures IsState(Made(s, t))
  {
    Done(s, JobOf(t))
  }

  ghost predicate ValidTries(ts: seq<Try>) {
    forall k :: 0 <= k < |ts| ==> ValidTry(ts[k])
  }

  ghost function JobsOf(ts: seq<Try>): (js: seq<Job>)
    requires ValidTries(ts)
    ensures |js| == |ts| && forall k :: 0 <= k < |ts| ==> js[k] == JobOf(ts[k])
  {
    seq(|ts|, k requires 0 <= k < |ts| => JobOf(ts[k]))
  }

  /** What a run of calls leaves. */
  ghost function MadeAll(s: State, ts: seq<Try>): State
    requires IsState(s) && ValidTries(ts)
  {
    DoneAll(s, JobsOf(ts))
  }

  lemma CallIsProper(t: Try)
    requires ValidTry(t)
    ensures Proper(JobOf(t))
  {
    CallsArePlain(t.call);
    if t.call.CallInit? {
      assert JobOf(t).ops[1..] == InitRest(t.call.c).ops;
    }
  }

  lemma CallsAreProper(ts: seq<Try>)
    requires ValidTries(ts)
    ensures ValidJobs(JobsOf(ts)) && forall k :: 0 <= k < |ts| ==> Proper(JobsOf(ts)[k])
  {
    forall k | 0 <= k < |ts|
      ensures ValidJob(JobsOf(ts)[k]) && Proper(JobsOf(ts)[k])
    {
      CallIsProper(ts[k]);
    }
  }

  /**
   * `wm8960_init`, from any state at all: the copy is right afterwards exactly when the reset write got
   * through, or the chip happened to hold the defaults already.
   */
  lemma InitSyncsIff(s: State, t: Try)
    requires IsState(s) && ValidTry(t) && t.call.CallInit?
    ensures Synced(Made(s, t)) <==> t.n > 0 || s.chip.regs == DEFAULTS
  {
    CallIsProper(t);
    if t.n > 0 {
      InitJobSyncs(s, JobOf(t));
    } else {
      assert Made(s, t) == Before(s, true);
    }
  }

  /**
   * From a synced state on, after any run of the driver's functions, failing anywhere, the copy equals
   * the chip, as long as the reset write of every later initialization gets through.
   */
  lemma RunsStaySynced(s: State, ts: seq<Try>)
    requires Synced(s) && ValidTries(ts)
    requires forall k :: 0 <= k < |ts| && ts[k].call.CallInit? ==> ts[k].n > 0
    ensures Synced(MadeAll(s, ts))
  {
    CallsAreProper(ts);
    JobsStaySynced(s, JobsOf(ts));
  }

  /**
   * From any state at all: after a run whose last initialization, number k, got its reset write through,
   * the copy equals the chip, whatever came before and whatever failed.
   */
  lemma LastInitDecides(s: State, ts: seq<Try>, k: nat)
    requires IsState(s) && ValidTries(ts) && k < |ts| && ts[k].call.CallInit? && ts[k].n > 0
    requires forall j :: k < j < |ts| ==> !ts[j].call.CallInit?
    ensures Synced(MadeAll(s, ts))
  {
    CallsAreProper(ts);
    LastInitJobDecides(s, JobsOf(ts), k);
  }

  // ---------------------------------------------------------------- volume

  /**
   * Started with equal volumes in effect on both channels, `wm8960_set_volume` keeps them equal after
   * every single register write, whether or not the next one succeeds, and ends at the requested volume.
   */
  lemma VolumeStaysBalanced(s: State, m: Module, volume: nat, n: nat)
    requires Synced(s) && HasVolume(m) && volume <= VolumeLimit(m) && n <= 4
    requires s.chip.volume[VolumeRegs(m).0] == s.chip.volume[VolumeRegs(m).1]
    ensures AllInRange(SetVolume(m, volume).ops) && |SetVolume(m, volume).ops| == 4
    ensures var after, l, r := Exec(s, SetVolume(m, volume).ops, n), VolumeRegs(m).0, VolumeRegs(m).1;
            && after.chip.volume[l] == after.chip.volume[r]
            && (n <= 2 ==> after.chip.volume == s.chip.volume)
            && (n > 2 ==> after.chip.volume[l] == volume as bv16)
            && forall i :: 0 <= i < REG_NUM && i != l && i != r ==> after.chip.volume[i] == s.chip.volume[i]
  {
    VolumePlain(m, volume);
    VolumeIs(m, volume);
    PairBalanced(s, VolumeRegs(m).0, VolumeRegs(m).1, volume as bv16, n);
  }

  predicate IsPair(l: nat, r: nat) {
    l < REG_NUM && r < REG_NUM && l != r && Partner(l) == r && Partner(r) == l && l != RESET && r != RESET
  }

  lemma VolumeIs(m: Module, volume: nat)
    requires HasVolume(m) && volume <= VolumeLimit(m)
    ensures IsPair(VolumeRegs(m).0, VolumeRegs(m).1) && volume as bv16 < 256
    ensures SetVolume(m, volume).ops == Volume(VolumeRegs(m).0, VolumeRegs(m).1, volume as bv16)
  {
    WithUpdateBit(volume);
  }

  /** A plain write reaches the chip as it is. */
  lemma WriteReaches(s: State, reg: nat, val: bv16)
    requires IsState(s) && reg < REG_NUM && val < 512
    ensures Step(s, Write(reg, val)).chip == ChipWrite(s.chip, reg, val)
  {
    HeardAsSent(reg, val);
  }

  lemma VolumeBits(v: bv16)
    requires v < 256
    ensures !Updates(v) && Updates(WithUpdate(v)) && Level(WithUpdate(v)) == v && Level(v) == v && WithUpdate(v) < 512
  {
  }

  /** Without the update bit nothing is put into effect. */
  lemma PlainLevel(s: State, reg: nat, v: bv16)
    requires IsState(s) && reg < REG_NUM && reg != RESET && v < 256
    ensures var s' := Step(s, Write(reg, v));
            s'.chip == Chip(s.chip.regs[reg := v], s.chip.volume)
  {
    VolumeBits(v);
    WriteReaches(s, reg, v);
  }

  /** With it, both channels are; when the other channel's register already has the level, they are equal. */
  lemma LatchedLevel(s: State, reg: nat, v: bv16)
    requires IsState(s) && IsPair(reg, Partner(reg)) && v < 256
    requires Level(s.chip.regs[Partner(reg)]) == v
    ensures var s' := Step(s, Write(reg, WithUpdate(v)));
            && s'.chip.regs == s.chip.regs[reg := WithUpdate(v)]
            && s'.chip.volume == s.chip.volume[reg := v][Partner(reg) := v]
  {
    VolumeBits(v);
    WriteReaches(s, reg, WithUpdate(v));
    assert s.chip.regs[reg := WithUpdate(v)][Partner(reg)] == s.chip.regs[Partner(reg)];
  }

  lemma AfterTwo(s: State, l: nat, r: nat, v: bv16)
    requires IsState(s) && IsPair(l, r) && v < 256 && AllInRange(Volume(l, r, v))
    ensures var ops := Volume(l, r, v);
            && Exec(s, ops, 1).chip == Chip(s.chip.regs[l := v], s.chip.volume)
            && Exec(s, ops, 2).chip == Chip(s.chip.regs[l := v][r := v], s.chip.volume)
  {
    var ops := Volume(l, r, v);
    PlainLevel(s, l, v);
    assert Exec(s, ops, 0) == s && Exec(s, ops, 1) == Step(s, ops[0]);
    PlainLevel(Exec(s, ops, 1), r, v);
    assert Exec(s, ops, 2) == Step(Exec(s, ops, 1), ops[1]);
  }

  lemma AfterThree(s: State, l: nat, r: nat, v: bv16)
    requires IsState(s) && IsPair(l, r) && v < 256 && AllInRange(Volume(l, r, v))
    ensures var after := Exec(s, Volume(l, r, v), 3);
            && after.chip.regs[l] == WithUpdate(v)
            && after.chip.volume == s.chip.volume[l := v][r := v]
  {
    var ops := Volume(l, r, v);
    AfterTwo(s, l, r, v);
    VolumeBits(v);
    var two := Exec(s, ops, 2);
    assert two.chip.regs[r] == v;
    LatchedLevel(two, l, v);
    assert Exec(s, ops, 3) == Step(two, ops[2]);
  }

  lemma LatchedAgain(s: State, l: nat, r: nat, v: bv16)
    requires IsState(s) && IsPair(l, r) && v < 256 && s.chip.regs[l] == WithUpdate(v)
    requires s.chip.volume[l] == s.chip.volume[r] == v
    ensures Step(s, Write(r, WithUpdate(v))).chip.volume == s.chip.volume
  {
    VolumeBits(v);
    LatchedLevel(s, r, v);
  }

  lemma AfterFour(s: State, l: nat, r: nat, v: bv16)
    requires IsState(s) && IsPair(l, r) && v < 256 && AllInRange(Volume(l, r, v))
    ensures Exec(s, Volume(l, r, v), 4).chip.volume == Exec(s, Volume(l, r, v), 3).chip.volume
  {
    AfterThree(s, l, r, v);
    LatchedAgain(Exec(s, Volume(l, r, v), 3), l, r, v);
  }

  lemma PairBalanced(s: State, l: nat, r: nat, v: bv16, n: nat)
    requires IsState(s) && IsPair(l, r) && v < 256 && n <= 4 && AllInRange(Volume(l, r, v))
    ensures Exec(s, Volume(l, r, v), n).chip.volume
         == if n <= 2 then s.chip.volume else s.chip.volume[l := v][r := v]
  {
    AfterTwo(s, l, r, v);
    AfterThree(s, l, r, v);
    AfterFour(s, l, r, v);
    if n == 0 {
    } else if n == 1 {
    } else if n == 2 {
    } else if n == 3 {
    } else {
      assert n == 4;
    }
  }

  // ---------------------------------------------------------------- the driver

  class Wm8960 {
    const shadow: array<bv16>      // wm8960_reg_val
    var chip: Chip

    ghost predicate Valid()
      reads this, shadow
    {
      shadow.Length == REG_NUM && IsChip(chip)
    }

    ghost function St(): State
      reads this, shadow
    {
      State(shadow[..], chip)
    }

    constructor (chip: Chip)
      requires IsChip(chip)
      ensures Valid() && this.chip == chip && fresh(shadow)
    {
      shadow := new bv16[REG_NUM](_ => 0);
      this.chip := chip;
    }

    /** Two bytes on the I2C bus: the chip acts on them, or the transfer fails and it does not. */
    method I2cSend(b0: bv8, b1: bv8, ok: bool) returns (size: nat)
      requires Valid()
      modifies this`chip
      ensures Valid() && size == (if ok then 2 else 0)
      ensures chip == if ok then ChipHears(old(chip), (WireReg(b0) as int, WireVal(b0, b1))) else old(chip)
    {
      size := 0;
      if ok {
        size, chip := 2, ChipHears(chip, (WireReg(b0) as int, WireVal(b0, b1)));
      }
    }

    method WriteReg(reg: nat, val: bv16, ok: bool) returns (success: bool)
      requires Valid() && reg < REG_NUM
      modifies this`chip, shadow
      ensures Valid() && success == ok
      ensures St() == if ok then Sent(old(St()), reg, val) else old(St())
    {
      var size := I2cSend(Byte0(reg as bv8, val), Byte1(val), ok);
      if size != 2 {
        return false;
      }
      shadow[reg] := val;
      success := true;
    }

    /** Reads the driver's copy; fails for a register that does not exist. */
    method ReadReg(reg: nat) returns (success: bool, val: bv16)
      requires Valid()
      ensures success <==> reg < REG_NUM
      ensures success ==> val == shadow[reg]
    {
      if reg as int >= REG_NUM {
        return false, 0;
      }
      success, val := true, shadow[reg];
    }

    method ModifyReg(reg: nat, mask: bv16, val: bv16, ok: bool) returns (success: bool)
      requires Valid()
      modifies this`chip, shadow
      ensures Valid() && (success <==> ok && reg < REG_NUM)
      ensures St() == if success then Sent(old(St()), reg, Masked(old(shadow[reg]), mask, val)) else old(St())
    {
      var found, v := ReadReg(reg);
      if !found {
        return false;
      }
      success := WriteReg(reg, Masked(v, mask, val), ok);
    }

    /** A chain of checked operations; the bus answers the k-th with outcomes(k). */
    method Perform(ops: seq<Op>, outcomes: nat -> bool) returns (success: bool, ghost n: nat)
      requires Valid() && AllInRange(ops)
      modifies this`chip, shadow
      ensures Valid() && n <= |ops| && (success <==> n == |ops|)
      ensures St() == Exec(old(St()), ops, n)
      ensures (forall k :: 0 <= k < n ==> outcomes(k)) && (n < |ops| ==> !outcomes(n))
    {
      n := 0;
      var k := 0;
      while k < |ops|
        invariant 0 <= k <= |ops| && n == k && Valid() && St() == Exec(old(St()), ops, k)
        invariant forall j :: 0 <= j < k ==> outcomes(j)
      {
        match ops[k] {
          case Write(reg, val) => success := WriteReg(reg, val, outcomes(k));
          case Modify(reg, mask, val) => success := ModifyReg(reg, mask, val, outcomes(k));
        }
        if !success {
          return;
        }
        k, n := k + 1, n + 1;
      }
      success := true;
    }

    method CopyDefaults()
      requires Valid()
      modifies shadow
      ensures Valid() && shadow[..] == DEFAULTS
    {
      for i := 0 to REG_NUM
        invariant shadow.Length == REG_NUM && forall j :: 0 <= j < i ==> shadow[j] == DEFAULTS[j]
      {
        shadow[i] := DEFAULTS[i];
      }
    }

    /** Any function of the driver. It succeeds when all its operations do and its arguments are accepted. */
    method Invoke(c: Call, outcomes: nat -> bool) returns (success: bool, ghost n: nat)
      requires Valid() && ValidCall(c)
      modifies this`chip, shadow
      ensures Valid() && ValidTry(Try(c, n)) && St() == Made(old(St()), Try(c, n))
      ensures success <==> n == |ScriptOf(c).ops| && ScriptOf(c).accepted
    {
      CallsArePlain(c);
      if c.CallInit? {
        CopyDefaults();
      }
      success, n := Perform(ScriptOf(c).ops, outcomes);
      success := success && ScriptOf(c).accepted;
    }
  }
}
