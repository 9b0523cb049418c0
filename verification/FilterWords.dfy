/**
 * Words of the acceptance filters, and what the two controllers decide on them. Everything here is about
 * single words; lists of filters are in CanFilter.
 */
module FilterWords {

  const STD_BITS: bv32 := 0x7FF
  const EXT_BITS: bv32 := 0x1FFF_FFFF

  /** No bit that the mask compares differs. */
  predicate Agree(a: bv32, b: bv32, mask: bv32) {
    (a ^ b) & mask == 0
  }

  /** Antisymmetry of the order on words, found byte by byte from the top. */
  lemma OrderIsAntisymmetric(a: bv32, b: bv32)
    requires a <= b && b <= a
    ensures a == b
  {
    TopByte(a, b);
    SecondByte(a, b);
    ThirdByte(a, b);
    LastByte(a, b);
  }

  lemma TopByte(a: bv32, b: bv32)
    requires a <= b && b <= a
    ensures a >> 24 == b >> 24
  {
  }

  lemma SecondByte(a: bv32, b: bv32)
    requires a <= b && b <= a && a >> 24 == b >> 24
    ensures a >> 16 == b >> 16
  {
  }

  lemma ThirdByte(a: bv32, b: bv32)
    requires a <= b && b <= a && a >> 16 == b >> 16
    ensures a >> 8 == b >> 8
  {
  }

  lemma LastByte(a: bv32, b: bv32)
    requires a <= b && b <= a && a >> 8 == b >> 8
    ensures a == b
  {
  }

  // ---------------------------------------------------------------- MCAN elements

  const CLASSIC: bv32 := 2
  const STORE_FIFO0: bv32 := 1

  /** The word `mcan_set_filter_element` writes for a standard identifier. */
  function StdWord(id: bv32, mask: bv32): bv32 {
    (mask & 0x7FF) | ((id & 0x7FF) << 16) | (STORE_FIFO0 << 27) | (CLASSIC << 30)
  }

  /** The two words it writes for an extended one. The mask goes in with all its 32 bits. */
  function ExtWord0(id: bv32): bv32 {
    (STORE_FIFO0 << 29) | id
  }

  function ExtWord1(mask: bv32): bv32 {
    mask | (CLASSIC << 30)
  }

  /** How the controller decides on a standard element: type, action, and two 11-bit identifiers. */
  predicate StdDecides(kind: bv32, action: bv32, id1: bv32, id2: bv32, id: bv32) {
    action != 0 &&
    if kind == 0 then id1 <= id && id <= id2
    else if kind == 1 then id == id1 || id == id2
    else if kind == 2 then Agree(id, id1, id2)
    else false
  }

  predicate StdAccepts(w: bv32, id: bv32) {
    StdDecides(w >> 30, (w >> 27) & 7, (w >> 16) & 0x7FF, w & 0x7FF, id)
  }

  /** And on an extended one. Types 0 to 2 see the identifier through the global mask; type 3 is a range without it. */
  predicate ExtDecides(kind: bv32, action: bv32, id1: bv32, id2: bv32, seen: bv32, id: bv32) {
    action != 0 &&
    if kind == 0 then id1 <= seen && seen <= id2
    else if kind == 1 then seen == id1 || seen == id2
    else if kind == 2 then Agree(seen, id1, id2)
    else id1 <= id && id <= id2
  }

  predicate ExtAccepts(w0: bv32, w1: bv32, globalMask: bv32, id: bv32) {
    ExtDecides(w1 >> 30, w0 >> 29, w0 & EXT_BITS, w1 & EXT_BITS, id & globalMask, id)
  }

  /** `ext_id_mask` as every configuration sets it. */
  const GLOBAL_MASK: bv32 := 0x3FFF_FFFF

  // ---------------------------------------------------------------- standard elements

  lemma StdFields(id: bv32, mask: bv32)
    ensures StdWord(id, mask) >> 30 == 2 && (StdWord(id, mask) >> 27) & 7 == 1
    ensures (StdWord(id, mask) >> 16) & 0x7FF == id & 0x7FF && StdWord(id, mask) & 0x7FF == mask & 0x7FF
  {
  }

  lemma StdIsClassic(id: bv32, mask: bv32, f: bv32)
    ensures StdAccepts(StdWord(id, mask), f) <==> StdDecides(2, 1, id & 0x7FF, mask & 0x7FF, f)
  {
    StdFields(id, mask);
  }

  lemma StdCompares(id1: bv32, id2: bv32, f: bv32)
    ensures StdDecides(2, 1, id1, id2, f) <==> Agree(f, id1, id2)
  {
  }

  lemma StdTakes(id: bv32, mask: bv32, f: bv32)
    ensures StdAccepts(StdWord(id, mask), f) <==> Agree(f, id & STD_BITS, mask & STD_BITS)
  {
    StdIsClassic(id, mask, f);
    StdCompares(id & STD_BITS, mask & STD_BITS, f);
  }

  lemma CutId(id: bv32, mask: bv32, f: bv32)
    ensures Agree(f, id & STD_BITS, mask & STD_BITS) <==> Agree(f, id, mask & STD_BITS)
  {
  }

  lemma CutMask(id: bv32, mask: bv32, f: bv32)
    requires f <= STD_BITS && id & mask & !STD_BITS == 0
    ensures (f ^ id) & (mask & STD_BITS) == (f ^ id) & mask
  {
  }

  /** A standard element means its item on every frame, if the item compares no one-bit above the eleventh. */
  lemma StdPlain(id: bv32, mask: bv32, f: bv32)
    requires f <= STD_BITS && id & mask & !STD_BITS == 0
    ensures StdAccepts(StdWord(id, mask), f) <==> Agree(f, id, mask)
  {
    StdTakes(id, mask, f);
    CutId(id, mask, f);
    CutMask(id, mask, f);
  }

  lemma CutDisagrees(id: bv32, mask: bv32)
    ensures id & mask & !STD_BITS != 0 ==> !Agree(id & STD_BITS, id, mask)
  {
  }

  lemma AgreesWithItself(id: bv32, mask: bv32)
    ensures Agree(id, id, mask) && id & STD_BITS <= STD_BITS
  {
  }

  /** Otherwise there is a frame, made of the low bits of the identifier, that the element takes wrongly. */
  lemma StdCut(id: bv32, mask: bv32)
    requires id & mask & !STD_BITS != 0
    ensures id & STD_BITS <= STD_BITS
    ensures StdAccepts(StdWord(id, mask), id & STD_BITS) && !Agree(id & STD_BITS, id, mask)
  {
    StdTakes(id, mask, id & STD_BITS);
    AgreesWithItself(id & STD_BITS, mask & STD_BITS);
    AgreesWithItself(id, mask);
    CutDisagrees(id, mask);
  }

  // ---------------------------------------------------------------- extended elements

  lemma ExtIdField(id: bv32)
    requires id <= EXT_BITS
    ensures ExtWord0(id) >> 29 == 1 && ExtWord0(id) & EXT_BITS == id
  {
  }

  lemma ExtKindField(mask: bv32)
    ensures ExtWord1(mask) >> 30 == if mask & 0x4000_0000 == 0 then 2 else 3
  {
  }

  lemma ExtMaskField(mask: bv32)
    ensures ExtWord1(mask) & EXT_BITS == mask & EXT_BITS
  {
  }

  lemma GlobalMaskIsWide(f: bv32)
    requires f <= EXT_BITS
    ensures f & GLOBAL_MASK == f
  {
  }

  /** The decision on an extended element, by the kind that its second word has. */
  lemma ExtIsOfKind(id: bv32, mask: bv32, kind: bv32, f: bv32)
    requires id <= EXT_BITS && f <= EXT_BITS && ExtWord1(mask) >> 30 == kind
    ensures ExtAccepts(ExtWord0(id), ExtWord1(mask), GLOBAL_MASK, f) <==> ExtDecides(kind, 1, id, mask & EXT_BITS, f, f)
  {
    ExtIdField(id);
    ExtMaskField(mask);
    GlobalMaskIsWide(f);
  }

  lemma ExtIs(id: bv32, mask: bv32, f: bv32)
    requires id <= EXT_BITS && f <= EXT_BITS
    ensures ExtAccepts(ExtWord0(id), ExtWord1(mask), GLOBAL_MASK, f)
            <==> ExtDecides(if mask & 0x4000_0000 == 0 then 2 else 3, 1, id, mask & EXT_BITS, f, f)
  {
    ExtKindField(mask);
    ExtIsOfKind(id, mask, if mask & 0x4000_0000 == 0 then 2 else 3, f);
  }

  lemma ExtClassic(id: bv32, mask: bv32, f: bv32)
    requires id <= EXT_BITS && f <= EXT_BITS
    ensures ExtDecides(2, 1, id, mask & EXT_BITS, f, f) <==> Agree(f, id, mask)
  {
  }

  lemma ExtRange(id: bv32, mask: bv32, f: bv32)
    ensures ExtDecides(3, 1, id, mask & EXT_BITS, f, f) <==> id <= f && f <= mask & EXT_BITS
  {
  }

  /** Bit 30 of the mask turns an extended element from a comparison into a range. */
  lemma ExtTakes(id: bv32, mask: bv32, f: bv32)
    requires id <= EXT_BITS && f <= EXT_BITS
    ensures ExtAccepts(ExtWord0(id), ExtWord1(mask), GLOBAL_MASK, f)
            <==> if mask & 0x4000_0000 == 0 then Agree(f, id, mask) else id <= f && f <= mask & EXT_BITS
  {
    ExtIs(id, mask, f);
    ExtClassic(id, mask, f);
    ExtRange(id, mask, f);
  }

  /** The range is the comparison when both numbers are all ones. */
  lemma AllOnes(id: bv32, mask: bv32, f: bv32)
    requires id == EXT_BITS && mask & EXT_BITS == EXT_BITS && f <= EXT_BITS
    ensures Agree(f, id, mask) <==> id <= f && f <= mask & EXT_BITS
  {
  }

  /** An extended element means its item on every frame, if bit 30 of the mask is clear; */
  lemma ExtPlain(id: bv32, mask: bv32, f: bv32)
    requires id <= EXT_BITS && f <= EXT_BITS && mask & 0x4000_0000 == 0
    ensures ExtAccepts(ExtWord0(id), ExtWord1(mask), GLOBAL_MASK, f) <==> Agree(f, id, mask)
  {
    ExtTakes(id, mask, f);
  }

  /** or if identifier and mask are all ones. */
  lemma ExtOnes(id: bv32, mask: bv32, f: bv32)
    requires id == EXT_BITS && mask & EXT_BITS == EXT_BITS && f <= EXT_BITS
    ensures ExtAccepts(ExtWord0(id), ExtWord1(mask), GLOBAL_MASK, f) <==> Agree(f, id, mask)
  {
    if mask & 0x4000_0000 == 0 {
      ExtPlain(id, mask, f);
    } else {
      ExtTakes(id, mask, f);
      AllOnes(id, mask, f);
    }
  }

  lemma CoveredIsCommon(id: bv32, m: bv32)
    ensures Agree(m, id, m) ==> m & id == m
  {
  }

  lemma CommonIsBelow(id: bv32, m: bv32)
    ensures m & id <= id
  {
  }

  lemma CutAgrees(id: bv32, mask: bv32, m: bv32)
    requires m == mask & EXT_BITS && Agree(m, id, mask)
    ensures Agree(m, id, m)
  {
  }

  lemma BelowMask(id: bv32, mask: bv32, m: bv32)
    requires m == mask & EXT_BITS && id <= m && id != m
    ensures !Agree(m, id, mask)
  {
    if Agree(m, id, mask) {
      CutAgrees(id, mask, m);
      CoveredIsCommon(id, m);
      CommonIsBelow(id, m);
      OrderIsAntisymmetric(id, m);
    }
  }

  lemma AtMask(id: bv32, mask: bv32)
    ensures id == mask & EXT_BITS ==> Agree(EXT_BITS, id, mask)
  {
  }

  lemma MaskFits(mask: bv32)
    ensures mask & EXT_BITS <= EXT_BITS
  {
  }

  /** Otherwise some frame tells them apart: with an empty range, the identifier itself; */
  lemma ExtAbove(id: bv32, mask: bv32)
    requires id <= EXT_BITS && mask & 0x4000_0000 != 0 && !(id <= mask & EXT_BITS)
    ensures !ExtAccepts(ExtWord0(id), ExtWord1(mask), GLOBAL_MASK, id) && Agree(id, id, mask)
  {
    ExtTakes(id, mask, id);
    AgreesWithItself(id, mask);
  }

  lemma RangeKind(mask: bv32)
    requires mask & 0x4000_0000 != 0
    ensures ExtWord1(mask) >> 30 == 3
  {
  }

  lemma RangeIs(id: bv32, mask: bv32, f: bv32)
    requires id <= EXT_BITS && f <= EXT_BITS && mask & 0x4000_0000 != 0
    ensures ExtAccepts(ExtWord0(id), ExtWord1(mask), GLOBAL_MASK, f) <==> ExtDecides(3, 1, id, mask & EXT_BITS, f, f)
  {
    RangeKind(mask);
    ExtIsOfKind(id, mask, 3, f);
  }

  lemma RangeEnd(id: bv32, m: bv32)
    requires id <= m
    ensures ExtDecides(3, 1, id, m, m, m)
  {
  }

  /** with a proper one, the mask; */
  lemma ExtBelow(id: bv32, mask: bv32, m: bv32)
    requires id <= EXT_BITS && m == mask & EXT_BITS && mask & 0x4000_0000 != 0 && id <= m && id != m
    ensures m <= EXT_BITS
    ensures ExtAccepts(ExtWord0(id), ExtWord1(mask), GLOBAL_MASK, m) && !Agree(m, id, mask)
  {
    MaskFits(mask);
    RangeIs(id, mask, m);
    RangeEnd(id, m);
    BelowMask(id, mask, m);
  }

  /** with one of a single identifier, the frame whose bits are all ones. */
  lemma ExtAt(id: bv32, mask: bv32)
    requires id == mask & EXT_BITS && mask & 0x4000_0000 != 0 && id != EXT_BITS
    ensures !ExtAccepts(ExtWord0(id), ExtWord1(mask), GLOBAL_MASK, EXT_BITS) && Agree(EXT_BITS, id, mask)
  {
    MaskFits(mask);
    ExtTakes(id, mask, EXT_BITS);
    AtMask(id, mask);
  }

  // ---------------------------------------------------------------- the older controller

  /** Its mask register has ones where bits do not matter; the driver inverts the mask and cuts it to 29 bits. */
  function InvertedMask(mask: bv32): bv32 {
    !mask & !(7 << 29)
  }

  /** The 29 bits of an identifier each stand in exactly one of the two masks, and no bit above them is kept. */
  lemma InvertedIsComplement(mask: bv32)
    ensures InvertedMask(mask) & mask == 0
    ensures InvertedMask(mask) | (mask & EXT_BITS) == EXT_BITS
  {
  }

  lemma InvertedExt(id: bv32, mask: bv32, f: bv32)
    requires id <= EXT_BITS && f <= EXT_BITS
    ensures (f ^ id) & !InvertedMask(mask) & EXT_BITS == 0 <==> Agree(f, id, mask)
  {
  }

  lemma InvertedLow(id: bv32, mask: bv32, f: bv32)
    ensures (f ^ id) & !InvertedMask(mask) & STD_BITS == (f ^ id) & (mask & STD_BITS)
  {
  }

  lemma InvertedStd(id: bv32, mask: bv32, f: bv32)
    requires f <= STD_BITS && id & mask & !STD_BITS == 0
    ensures (f ^ id) & !InvertedMask(mask) & STD_BITS == 0 <==> Agree(f, id, mask)
  {
    InvertedLow(id, mask, f);
    CutMask(id, mask, f);
  }

  lemma CutIdAgrees(id: bv32, mask: bv32)
    ensures ((id & STD_BITS) ^ id) & (mask & STD_BITS) == 0
  {
  }

  /** Otherwise the frame made of the low bits of the identifier is taken wrongly. */
  lemma InvertedCut(id: bv32, mask: bv32)
    requires id & mask & !STD_BITS != 0
    ensures id & STD_BITS <= STD_BITS && !Agree(id & STD_BITS, id, mask)
    ensures ((id & STD_BITS) ^ id) & !InvertedMask(mask) & STD_BITS == 0
  {
    AgreesWithItself(id, mask);
    CutDisagrees(id, mask);
    InvertedLow(id, mask, id & STD_BITS);
    CutIdAgrees(id, mask);
  }
}
