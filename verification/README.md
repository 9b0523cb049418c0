# Protocols and data paths of the HPM6750 board support package, in Dafny

This project models the drivers of an RT-Thread board support package that do more than poke registers,
and proves what they promise. Every driver is a class whose fields are the driver's and whose methods
follow its code, proved against functions on values; what is promised over whole runs is proved about
those functions. What the drivers talk to (DMA engines, the data cache, ROM flash calls, interrupt
handlers, memory pools, LVGL, the bus) is a set of small nondeterministic steps.

`dafny verify dfyconfig.toml` checks everything.

| file | about |
|---|---|
| `Arithmetic.dfy`, `Bytes.dfy`, `Ring.dfy` | products, byte buffers, positions around a ring of descriptors |
| `Cache.dfy` | main memory behind a write-back data cache |
| `EnetReceive.dfy` | zero-copy Ethernet receive: DMA, receive thread and network stack over one descriptor ring |
| `EnetTransmit.dfy` | scattering a buffer chain over the transmit ring, and the hand-over to the DMA |
| `Sdio.dfy` | SD host requests through cache, bounce buffer and DMA engine; CMD53 padding |
| `Atomic.dfy` | the atomic helpers and the compare-and-exchange loop, step by step among other threads |
| `DisplayDirect.dfy` | the interrupt-chained copy of dirty areas in direct mode |
| `DisplayFull.dfy` | the buffer swap between LVGL, driver and LCD controller in full mode |
| `Spi.dfy` | SPI transfers by DMA: three interrupts, three semaphores, bounce buffers |
| `SpiCache.dfy` | the data cache around an SPI transfer, for every behaviour of the cache meanwhile |
| `Flash.dfy` | the NOR flash port: mixed erase, page-splitting program, read |
| `Codec.dfy` | the WM8960 driver's register copy, volume latch and clock dividers |
| `CodecRegisters.dfy` | what each of that driver's functions leaves in the chip, register by register |
| `FilterWords.dfy`, `CanFilter.dfy` | acceptance filters of both CAN drivers, as words and as lists |

## What does not hold as one would wish

Each of these is stated with the exact condition under which the code does what it should, or with a
family of inputs on which it does not.

- Ethernet receive: the assertion in front of the guard fires exactly when the frame delivered one ring
  length ago has not been given back (`AssertionFiresIff`); while frames come back in order that is when the
  stack holds every buffer (`InOrderFiresIffAllHeld`, `AssertionCanFire`), out of order one kept buffer is
  enough (`OneHeldIsEnough`). The guard behind it keeps the ring right (`GuardSeparatesFreshFromHeld`).
- Ethernet transmit: the descriptors of a frame all go to the DMA engine exactly when frame and check
  sequence fit one buffer (`HandedOverIffOneBuffer`); with more buffers only the last descriptor changes
  owner. One descriptor beyond those that were checked is used exactly when the data end within the last
  four bytes of a buffer (`ExtraDescriptorIff`). The byte counts handed over add up exactly when data and
  check sequence are fewer than 65536 bytes (`HandOverBytesIff`).
- SD host: padding a CMD53 request is right exactly when it has one block (`PaddingRightIffOneBlock`); with
  several the card is also sent zeros, then what lies in memory behind them (`Request`, `BeyondIff`). Line
  737 of `drv_sdio.c` reads through a data pointer that may be null; the model has the guard it lacks.
- Atomic counters: zero is stable exactly when no reference is out (`ZeroStaysIffNoneHeld`); the count
  wraps after 2^32 references.
- Full-mode display: LVGL stays off the scanned buffer exactly when the hand-over interrupt is served
  before the controller starts its next frame (`HandOverSafeIffPrompt`); a late interrupt tears
  (`LateInterruptTears`).
- Direct-mode display: the screen shows all that is drawn exactly when no refresh draws outside the areas it
  copies (`WholePictureIff`).
- SPI: a message that is refused answers +10, which a caller that tests for negative results takes for ten
  bytes, and leaves the SPI interrupt enabled (`XferDma`). A receive buffer made of whole cache lines is
  invalidated only after the transfer: the received bytes are safe exactly when none of its lines was dirty
  before, since the cache may write a dirty line back over them (`DirectReceivesIff`).
- NOR flash: writes stay within pages exactly when pages have 256 bytes (`SafeIffPageIs256`). Line 185 of
  `fal_flash_port.c` compares an unsigned value with zero, so the failure of a leading partial page is not
  reported (`Write`); the comment above `erase` promises `RT_EOK`, the code returns the size.
- Codec: a repeated initialization whose reset write fails leaves the copy wrong unless the chip happens to
  hold the defaults (`InitSyncsIff`). The tolerance check can wrap in 32 bits and then accepts wrong clocks:
  the divider it stops at is right exactly when its own difference does not wrap (`RightIff`, with
  `OverflowAcceptsWrongClock` as an instance).
- MCAN filters: an item keeps its meaning exactly under the condition of `FaithfulIff`. RT-Thread's own
  macros for extended items, whose mask is all ones, do not meet it (`MacroMaskIsRange`). More than 32
  items of one kind make the configuration fail. In the older driver an item keeps its meaning exactly under
  the condition of `OldFaithfulIff`, and empty and inactive lists mean something else (`OldKeepsMeaning`).

## Assumptions about the surroundings

- Ethernet: passing a received frame on (marking its slot, taking a pool element, advancing) is one step,
  since nobody else uses that slot, its buffer or `cnt` meanwhile. The DMA engine fills descriptors in ring
  order and only those it owns; a received frame fits one buffer (at most 1532 bytes and the check sequence)
  and has at least one byte; the stack frees what it was given, once. Lines 508 and 518 of `drv_enet.c` are
  read as `cnt := (cnt + 1) % count`. The transmit DMA may give descriptors up at any time and never takes
  one by itself; in the runs of `SentOnceInOrder` it gives up the one it stands at, by sending its frame.
- SD host: the cache may fetch a line on any CPU load or store and may give up lines at any of them; while
  the engine runs the CPU does not touch the buffers. The engine sees main memory only; the caller's buffer
  and the bounce buffer do not overlap, and what needs bouncing fits.
- Atomic helpers: switching interrupts off makes an operation atomic on this single core.
- Display: LVGL neither draws nor flushes again before it is told that the flush is ready, as
  `lv_refr.c:705-713` and `1272-1313` of LVGL have it. The controller loads a new address when it starts
  a frame. The interrupt is one step: a frame that starts or ends inside it acts as one before or after
  it (`InterruptIsAtomic`).
- SPI: an engine completes only once every part of its chunk has been started; the send and the receive
  buffer of a message are different; memory allocation succeeds.
- SPI and cache: while a message is under way the CPU stores nothing into its buffers; lines may be loaded and
  given up at any moment.
- Flash: programming ANDs, erasing sets ones, a command that fails changes nothing outside its range; the
  sector size is a power of two and the block size a multiple of it.
- Codec: a transfer on the I2C bus takes place as a whole or not at all; the chip latches both channels
  when a volume is written with the update bit.
- CAN: a configuration either succeeds, or leaves the controller in no particular state. How the MCAN
  decides on an element by its type, and that the older controller's mask has ones where bits do not
  matter, follows the register descriptions.

## Model

| member | source | states |
|---|---|---|
| `EnetReceive.DeliveredOnceInOrder` | libraries/drivers/drv_enet.c:472-529 | Over every run of DMA fills, receive calls and frees: delivered frames, then the one in hand, then those in the ring, are exactly the frames the DMA completed, in completion order; so none is lost, doubled or overtaken |
| `EnetReceive.HeldIsUntouched` | libraries/drivers/drv_enet.c:165-183 | While the stack holds a slot, no step but its own free changes its bytes, gives its descriptor to the DMA, or delivers it again |
| `EnetReceive.PoolMatchesSlots` | libraries/drivers/drv_enet.c:485-519 | Over every run, pool elements in use equal the slots marked held, and the unchecked pool allocation behind the guard never fails |
| `EnetReceive.GuardSeparatesFreshFromHeld` | libraries/drivers/drv_enet.c:485-491 | The guard stops a call only when nothing is waiting; once it has passed, a cleared own bit means a fresh frame, which `own` alone cannot tell |
| `EnetReceive.AssertionFiresIff` | libraries/drivers/drv_enet.c:485-487 | Over every run: the assertion fires at the next call exactly when the stack holds slot cnt, which is exactly when the frame delivered n deliveries ago, on a ring of n, has not been given back |
| `EnetReceive.InOrderFiresIffAllHeld` | libraries/drivers/drv_enet.c:485-487 | Over every run in which the stack gives frames back in order, that is exactly when it holds all n buffers |
| `EnetReceive.OneHeldIsEnough` | libraries/drivers/drv_enet.c:485-487 | Out of order a single kept buffer is enough, on a ring of any size |
| `EnetReceive.RunTracks` | libraries/drivers/drv_enet.c:165-183 | Over every run cnt is the number of deliveries modulo n, and a delivery is outstanding exactly while its slot is held and it is among the last n |
| `EnetReceive.AssertionCanFire` | libraries/drivers/drv_enet.c:486 | On a ring of any size there is a run after which the assertion in front of the guard fires at the next call, the stack holding every buffer: an instance of the condition above |
| `EnetReceive.FreeReturnsOne` | libraries/drivers/drv_enet.c:165-183 | Freeing a held frame gives exactly its own descriptor back to the DMA and changes no other descriptor or slot; its own slot is cleared |
| `EnetReceive.ReleaseExact` | libraries/drivers/drv_enet.c:176-179 | Releasing `seg` descriptors from one on sets exactly those own bits around the ring |
| `EnetReceive.NothingLost` | libraries/drivers/drv_enet.c:472-529 | In every state that satisfies the ring invariant, delivered, in-hand and waiting frames together are the completed ones |
| `EnetReceive.RunInv` | libraries/drivers/drv_enet.c:472-529 | The ring invariant relating cnt, the list pointer, the DMA position, own and free survives every run |
| `EnetReceive.StepInv` | libraries/drivers/drv_enet.c:165-211 | Every single step of DMA, receive thread and stack keeps the ring invariant |
| `EnetReceive.InitInv` | libraries/hpm_sdk/drivers/src/hpm_enet_drv.c:749-781 | The descriptor chain as initialised satisfies the ring invariant |
| `EnetReceive.FillInv` | libraries/hpm_sdk/drivers/src/hpm_enet_drv.c:749-781 | A DMA fill keeps it |
| `EnetReceive.FetchInv` | libraries/hpm_sdk/drivers/src/hpm_enet_drv.c:345-408 | Taking a frame off the ring keeps it and puts a frame in hand exactly when one was waiting |
| `EnetReceive.PublishInv` | libraries/drivers/drv_enet.c:494-523 | Passing the frame on keeps it, advancing cnt around the ring |
| `EnetReceive.FreeInv` | libraries/drivers/drv_enet.c:165-197 | A free, at any time and in any order, keeps it |
| `EnetReceive.OneCall` | libraries/drivers/drv_enet.c:472-529 | From any reachable idle state one undisturbed receive call takes exactly the oldest waiting frame, if there is one |
| `EnetReceive.OneRound` | libraries/drivers/drv_enet.c:472-529 | From a state with nothing waiting and a free slot, one frame in and one call leave the stack holding exactly one buffer more |
| `EnetReceive.CallsDrainTheRing` | libraries/drivers/drv_enet.c:472-529 | From any reachable idle state, receive calls alone deliver everything that was completed |
| `EnetReceive.EnetDevice.constructor` | libraries/drivers/drv_enet.c:575-637 | The device starts in the initial state of the ring machine |
| `EnetReceive.EnetDevice.GetReceivedFrame` | libraries/hpm_sdk/drivers/src/hpm_enet_drv.c:345-408 | For frames of one segment: returns the frame at the list pointer and advances if the CPU owns it, otherwise length 0; new state equals the machine's fetch step |
| `EnetReceive.EnetDevice.PassOn` | libraries/drivers/drv_enet.c:494-523 | A frame with data is delivered exactly when the pool has an element: marked, wrapped, and cnt advanced |
| `EnetReceive.EnetDevice.PublishFrame` | libraries/drivers/drv_enet.c:498-523 | Marks the slot, takes a pool element, advances cnt: the machine's publish step |
| `EnetReceive.EnetDevice.Receive` | libraries/drivers/drv_enet.c:472-529 | The whole call performs exactly the machine's guard, fetch and publish steps |
| `EnetReceive.EnetDevice.FreeRxDmaDescriptor` | libraries/drivers/drv_enet.c:165-183 | Gives the frame's descriptors back and clears its slot, nothing else |
| `EnetReceive.EnetDevice.PbufFreeCustom` | libraries/drivers/drv_enet.c:186-197 | The stack's free callback performs exactly the machine's free step |
| `Ring.ModIsNext` | libraries/drivers/drv_enet.c:508 | The driver's index arithmetic follows the same links as the hardware's chain |
| `Ring.OnwardsIsWrap` | libraries/hpm_sdk/drivers/src/hpm_enet_drv.c:715-747 | Following k links of the chain is adding k around the ring |
| `EnetTransmit.EnetDevice.Transmit` | libraries/drivers/drv_enet.c:376-470 | For chains that fit the ring: it succeeds exactly when no descriptor the data reach is still the DMA's, so always when all are free at the start, and times out exactly when the first one is not given up; on success the chain's bytes lie contiguously over successive buffers and the descriptors are those of the hand-over; buffers the DMA still owns are not written, and error exits leave the list pointer |
| `EnetTransmit.EnetDevice.CopyPayload` | libraries/drivers/drv_enet.c:396-457 | The loop over one payload terminates and appends it, whatever way it is split over buffers, or fails at a descriptor the DMA still owns; DMA-owned buffers keep their bytes |
| `EnetTransmit.EnetDevice.FillUp` | libraries/drivers/drv_enet.c:404-440 | Fills a buffer only after the DMA gave it up and moves on; a timeout means the first descriptor is still owned, in-progress that a later one is |
| `EnetTransmit.CallOutcome` | libraries/drivers/drv_enet.c:404-449 | A call whose descriptors are all free at the start does not fail, whatever the DMA does meanwhile; one that fails has met a descriptor still owned |
| `EnetTransmit.EnetDevice.Prepare` | libraries/hpm_sdk/drivers/src/hpm_enet_drv.c:639-713 | The hand-over rewrites exactly the descriptors of the frame and moves the list pointer past them |
| `EnetTransmit.GatherAppend` | libraries/drivers/drv_enet.c:411-414 | Copying behind what is there appends to what is read around the ring |
| `EnetTransmit.GatherCarry` | libraries/drivers/drv_enet.c:416-435 | A full buffer followed by an empty one reads the same |
| `EnetTransmit.BufCountExact` | libraries/hpm_sdk/drivers/src/hpm_enet_drv.c:650-657 | The descriptor count is the least number of buffers that hold the frame |
| `EnetTransmit.PrepareExact` | libraries/hpm_sdk/drivers/src/hpm_enet_drv.c:659-708 | Which descriptors a hand-over changes and how: flags, sizes, owner, and all others untouched |
| `EnetTransmit.HandedOverIffOneBuffer` | libraries/hpm_sdk/drivers/src/hpm_enet_drv.c:680-702 | With the descriptor at the list pointer free, all descriptors of a frame go to the DMA exactly when one buffer holds frame and check sequence; exactly the last one is given away |
| `EnetTransmit.MarkedFirstAndLast` | libraries/hpm_sdk/drivers/src/hpm_enet_drv.c:659-705 | Exactly the first descriptor of a frame has the first-segment bit, exactly the last the last-segment bit, and descriptors outside the frame are untouched |
| `EnetTransmit.PreparedBytes` | libraries/hpm_sdk/drivers/src/hpm_enet_drv.c:683-696 | The sizes written into a frame's descriptors add up to exactly its length |
| `EnetTransmit.HandOverBytesIff` | libraries/hpm_sdk/drivers/src/hpm_enet_drv.c:639 | The sizes written at the hand-over add up to data and check sequence exactly when these are fewer than 65536 bytes, the 16 bits the length is passed in |
| `EnetTransmit.ExtraDescriptorIff` | libraries/drivers/drv_enet.c:461-463 | One descriptor whose owner was never looked at is used exactly when the data end within the last four bytes of a buffer |
| `EnetTransmit.SentOnceInOrder` | libraries/drivers/drv_enet.c:376-470 | Over every run of transmits of frames that fit one buffer, failed calls and sends of the DMA engine, in any interleaving: what has left is what was queued, each frame once, in order and intact, up to those still in the ring, which lie there in order |
| `EnetTransmit.NeverStuck` | libraries/drivers/drv_enet.c:437-449 | In every such state the engine can send exactly when a frame waits, and the descriptor at the list pointer is free exactly when the ring is not full |
| `EnetTransmit.SendKeeps` | libraries/hpm_sdk/drivers/src/hpm_enet_drv.c:659-678 | What the engine sends is the frame that has waited longest, byte for byte |
| `EnetTransmit.EnetDevice.TransmitOne` | libraries/drivers/drv_enet.c:376-470 | A call with a frame that fits one buffer is a step of those runs: it queues the frame exactly when the descriptor at the list pointer is free by then, otherwise it times out and leaves the ring as it was |
| `Sdio.Mmcsd.Request` | libraries/drivers/drv_sdio.c:598-790 | For every address, length, direction and buffer kind: the card gets exactly the caller's bytes, then zeros where CMD53 pads and, with several blocks, whatever main memory holds beyond the last line; a read that succeeds leaves exactly the card's bytes; nothing else changes for the CPU, dirty lines included, also when the transfer fails; from the argument the card reads exactly the padded length that one block moves, every other field is as given, and without padding the argument is |
| `Sdio.Mmcsd.WriteBytes` | libraries/drivers/drv_sdio.c:673-700 | Copy, zero fill and flush make the DMA engine see the caller's bytes and zeros, and nothing else up to the end of the last line |
| `Sdio.Mmcsd.ReadBytes` | libraries/drivers/drv_sdio.c:701-775 | Invalidate, DMA and copy-back make the CPU see the card's bytes and lose no dirty data outside |
| `Sdio.Mmcsd.PrepareWrite` | libraries/drivers/drv_sdio.c:673-700 | The engine's source holds the bytes and no cached line hides it, bounced or not |
| `Sdio.Mmcsd.PrepareRead` | libraries/drivers/drv_sdio.c:701-723 | The engine's target is uncached and only whole lines of it were dropped |
| `Sdio.Mmcsd.FillBounce` | libraries/drivers/drv_sdio.c:680-684 | The bounce buffer holds the caller's bytes and zeros to the end of the line |
| `Sdio.Mmcsd.CacheFlush` | libraries/hpm_sdk/arch/riscv/l1c/hpm_l1c_drv.c:103-119 | Flushing changes nothing for the CPU and leaves no line of the range cached |
| `Sdio.Mmcsd.constructor` | libraries/drivers/drv_sdio.c:1114-1122 | Starts with nothing cached over memory and a bounce buffer of whole lines, the CPU seeing main memory |
| `Cache.StoreView` | libraries/drivers/drv_sdio.c:683-684 | A CPU store changes exactly one byte of what the CPU sees, whether the line is cached, fetched or written around |
| `Cache.FetchLineView` | libraries/drivers/drv_sdio.c:683-684 | Fetching the line of a load changes nothing for the CPU |
| `Cache.FlushLineView` | libraries/hpm_sdk/arch/riscv/l1c/hpm_l1c_drv.c:103-119 | Writing a line back and dropping it changes nothing for the CPU |
| `Cache.DmaStoredView` | libraries/drivers/drv_sdio.c:747 | What the engine stores into uncached memory is what the CPU then reads, and cached lines elsewhere are unaffected |
| `Sdio.UnpackPack` | libraries/drivers/drv_sdio.c:78-90 | The six bit-fields of a CMD53 argument survive packing into 32 bits |
| `Sdio.PackUnpack` | libraries/drivers/drv_sdio.c:78-90 | and every 32-bit argument survives unpacking |
| `Sdio.FieldsLieAt` | libraries/drivers/drv_sdio.c:78-90 | The fields of a CMD53 argument lie at bits 0, 9, 26, 27, 28 and 31 onwards |
| `Sdio.SetCountKeepsRest` | libraries/drivers/drv_sdio.c:729-732 | Rewriting the count changes no other field |
| `Sdio.PaddedCountIsRead` | libraries/drivers/drv_sdio.c:729-732 | A card reads the padded length from the 9-bit count, 512 (stored as 0) included |
| `Sdio.CardIsTold` | libraries/drivers/drv_sdio.c:727-733 | The argument the card gets: padded count and nothing else changed, or as it was |
| `Sdio.PaddingRightIffOneBlock` | libraries/drivers/drv_sdio.c:727-733 | Padding the block size moves the padded length exactly when there is one block |
| `Sdio.PaddedMeansBounced` | libraries/drivers/drv_sdio.c:676-727 | A length that needs padding always takes the bounce path, and pad bytes stay inside it |
| `Sdio.MovedFits` | libraries/drivers/drv_sdio.c:676-733 | At least the caller's bytes are moved, more only through the bounce buffer, and with one block no more than its last line |
| `Sdio.BeyondIff` | libraries/drivers/drv_sdio.c:727-733 | A padded request of one block stays within the last line of the bounce buffer; one of several blocks that fills a line always moves more |
| `Atomic.Linearizable` | rt-thread/include/rtatomic.h:216-228 | Every run of any number of threads inside `rt_atomic_fetch_add_unless` and of other atomic operations has the calls, results and cell values of a run in which each call is one atomic step |
| `Atomic.StepRefines` | rt-thread/include/rtatomic.h:216-228 | Each step of the loop is that atomic step or changes nothing a caller can see |
| `Atomic.RunOn` | rt-thread/include/rtatomic.h:216-228 | A run goes on step by step, counting its additions |
| `Atomic.RetryMeansInterference` | rt-thread/include/rtatomic.h:222-226 | Over every run an exchange fails only if another thread changed the cell since this thread last read it |
| `Atomic.ReadsStayCurrent` | rt-thread/include/rtatomic.h:219-226 | A local value whose stamp is current equals the cell, over every run |
| `Atomic.CounterCounts` | rt-thread/include/rtatomic.h:104-113 | Over every run the counter equals initial references plus successful increments minus decrements, modulo 2^32 |
| `Atomic.ZeroStaysIffNoneHeld` | rt-thread/include/rtatomic.h:216-239 | A counter at zero stays zero over every further run exactly when no reference is out, and references are out at zero only after a full 2^32 of them |
| `Atomic.ZeroStays` | rt-thread/include/rtatomic.h:216-239 | With no reference out, no run leaves zero |
| `Atomic.Cell.FetchAddUnless` | rt-thread/include/rtatomic.h:216-228 | Among any batches of interfering writes before and after every step, the loop terminates and is a run of the step machine that Linearizable is about: it ends about to return c, having changed the cell exactly once, or not at all if c is u |
| `Atomic.Cell.CompareExchangeStrong` | rt-thread/include/rtatomic.h:190-208 | Exchanges exactly on equality and reports the old value |
| `Atomic.Cell.Add` | rt-thread/include/rtatomic.h:93-102 | Returns the old value, wraps at 32 bits, restores the interrupt state |
| `Atomic.Cell.Sub` | rt-thread/include/rtatomic.h:104-113 | likewise for subtraction |
| `Atomic.Cell.Swap` | rt-thread/include/rtatomic.h:82-91 | Exchange |
| `Atomic.Cell.FlagTestAndSet` | rt-thread/include/rtatomic.h:166-180 | Sets a clear flag and tells whether it was set |
| `Atomic.Cell.AddUnless` | rt-thread/include/rtatomic.h:230-234 | The same run; true exactly when the addition was made, and made once |
| `Atomic.Cell.IncNotZero` | rt-thread/include/rtatomic.h:236-239 | The same run; true exactly when one reference was taken, false when it saw zero and changed nothing |
| `DisplayDirect.LvAdapter.FlushDirect` | board/lvgl/lv_port_disp.c:232-270 | One copy per area that is not joined, ready signalled exactly once and last, and the LCD buffer equal to the draw buffer on the union of those areas and unchanged elsewhere |
| `DisplayDirect.LvAdapter.RefreshAll` | board/lvgl/lv_port_disp.c:232-270 | Over any run of refreshes: one ready signal per flush callback, the screen as drawn area by area, and the whole drawn picture if each refresh draws only where it copies |
| `DisplayDirect.WholePictureIff` | board/lvgl/lv_port_disp.c:232-270 | Over any run of refreshes from a screen that shows what is drawn: it shows the whole picture after each of them exactly when each is confined to the areas that are copied |
| `DisplayDirect.LvAdapter.RefreshOnce` | board/lvgl/lv_port_disp.c:232-270 | One refresh with any number of earlier flushes copies what was drawn at the last one |
| `DisplayDirect.LvAdapter.FinishChain` | board/lvgl/lv_port_disp.c:174-200 | The interrupt chain terminates, makes the remaining copies in order and signals ready once |
| `DisplayDirect.LvAdapter.PdmaStart` | board/lvgl/lv_port_disp.c:202-230 | Starts the first copy that is due, or signals ready if none is |
| `DisplayDirect.LvAdapter.PdmaIsr` | board/lvgl/lv_port_disp.c:272-277 | Goes on with the next copy that is due, or signals ready |
| `DisplayDirect.LvAdapter.PdmaRun` | board/lvgl/lv_port_disp.c:139-172 | The programmed copy moves exactly the pixels of its area, by the flat index y*stride+x |
| `DisplayDirect.PendingExact` | board/lvgl/lv_port_disp.c:182-190 | Walking the list backwards past joined areas visits each area that is not joined exactly once |
| `DisplayDirect.AfterIsUnion` | board/lvgl/lv_port_disp.c:232-270 | Copies in any overlap show the draw buffer on the union of their areas and nothing else |
| `DisplayDirect.PendingUnion` | board/lvgl/lv_port_disp.c:249-265 | A pixel is covered by the copies made exactly when some area that is not joined covers it |
| `DisplayDirect.CoversIs` | board/lvgl/lv_port_disp.c:139-172 | An area is a rectangle that includes both of its corners |
| `DisplayDirect.FlatRowCol` | board/lvgl/lv_port_disp.c:145-165 | Row and column of a flat index invert it |
| `DisplayDirect.RunIsRowPart` | board/lvgl/lv_port_disp.c:145-165 | A run of a line's pixels in the flat buffer is exactly that part of the row |
| `DisplayFull.HandedOnceInOrder` | board/lvgl/lv_port_disp.c:506-548 | In every interleaving of LVGL, flush, scan-out and interrupt: the branch marked as never run is not, buffers alternate, and each flushed buffer is handed to the controller once, in order |
| `DisplayFull.EveryFrameHandsOver` | board/lvgl/lv_port_disp.c:536-548 | Every run that contains a frame start, later its end and later the served interrupt, among any other events, has handed over everything flushed before |
| `DisplayFull.WaitingIsHandedOver` | board/lvgl/lv_port_disp.c:536-548 | The controller's own frames make such a run from every reachable state |
| `DisplayFull.InterruptIsAtomic` | board/lvgl/lv_port_disp.c:536-548 | A frame that starts or ends between the interrupt's test and its register write has the same effect as one that does so before or after the interrupt |
| `DisplayFull.ServedOncePerFrame` | board/lvgl/lv_port_disp.c:536-548 | Every interrupt acknowledges its frame end: over any run there are no more interrupts than frames have ended |
| `DisplayFull.NoTearing` | board/lvgl/lv_port_disp.c:536-548 | In every run whose hand-overs come before the next frame starts, LVGL never draws into the buffer being scanned |
| `DisplayFull.HandOverSafeIffPrompt` | board/lvgl/lv_port_disp.c:536-548 | After a hand-over LVGL can go on safely exactly when the interrupt was served before the next frame started |
| `DisplayFull.LateInterruptTears` | libraries/hpm_sdk/soc/HPM6700/ip/hpm_lcdc_regs.h:455-461 | A run of the unchanged driver in which a late interrupt lets LVGL draw into the buffer being scanned |
| `DisplayFull.StepInv` | board/lvgl/lv_port_disp.c:506-548 | Every step keeps the invariant relating waiting buffer, LVGL's buffer, the controller's address and its shadow |
| `DisplayFull.RunInv` | board/lvgl/lv_port_disp.c:506-548 | and so does every run |
| `DisplayFull.LvAdapter.FlushDisplayFull` | board/lvgl/lv_port_disp.c:506-533 | The flush callback is the machine's flush step |
| `DisplayFull.LvAdapter.LcdcIsr` | board/lvgl/lv_port_disp.c:536-548 | The interrupt is the machine's interrupt step |
| `DisplayFull.LvAdapter.SetNextBuffer` | libraries/hpm_sdk/drivers/inc/hpm_lcdc_drv.h:243-247 | Writes the address that the controller loads at its next frame |
| `DisplayFull.LvAdapter.constructor` | board/lvgl/lv_port_disp.c:580-592 | The display starts with the second buffer scanned and the first drawn into |
| `Spi.SpiBus.XferDma` | libraries/drivers/drv_spi.c:1114-1301 | For one message on every exit, the cache apart: semaphores at zero, nothing on its way, every bounce buffer freed; a message that is not refused is done exactly when every call made for its chunks succeeded, or the FIFO took it; done means sent and received byte for byte, failed means a whole number of full chunks moved; a refused message answers +10 and leaves the interrupt enabled |
| `Spi.SpiBus.Chunks` | libraries/drivers/drv_spi.c:1165-1274 | Successful chunks tile the message from the start without gap; a failing one ends the loop after a whole number of full chunks |
| `Spi.SpiBus.Chunk` | libraries/drivers/drv_spi.c:1166-1273 | Starting from zero semaphores a chunk ends with zero semaphores, whatever order the three interrupts come in; it moved all its bytes exactly when all its calls succeeded, and none otherwise |
| `Spi.SpiBus.TakeAll` | libraries/drivers/drv_spi.c:1212-1263 | Taking SPI, TX and RX semaphores in this order never hangs and leaves none up |
| `Spi.SpiBus.Take` | libraries/drivers/drv_spi.c:1213-1215 | A take comes back because its completion is on its way, and leaves the other completions due |
| `Spi.SpiBus.StartBoth` | libraries/drivers/drv_spi.c:1172-1211 | Both directions are under way exactly when every call it made succeeded, and none is otherwise |
| `Spi.SpiBus.StartSend` | libraries/drivers/drv_spi.c:1216-1236 | likewise for sending |
| `Spi.SpiBus.StartReceive` | libraries/drivers/drv_spi.c:1240-1260 | likewise for receiving |
| `Spi.SpiBus.Transfer` | libraries/drivers/drv_spi.c:1150-1292 | The cache apart, bounce buffers, chunks, copy-back and frees together send and receive as without them |
| `Spi.SpiBus.Buffers` | libraries/drivers/drv_spi.c:1022-1070 | Each direction gets the caller's buffer or a fresh one with its bytes, by address and length; the cache is looked at separately |
| `Spi.SpiBus.Finish` | libraries/drivers/drv_spi.c:1275-1292 | Copies back and frees exactly the buffers that were allocated; the cache is looked at separately |
| `Spi.SpiBus.TransmitUseFifo` | libraries/drivers/drv_spi.c:1072-1112 | Up to four bytes that a master only sends go out by the FIFO in order exactly when the control call succeeds; otherwise nothing has moved |
| `Spi.SpiBus.CheckParams` | libraries/drivers/drv_spi.c:592-611 | What a slave transfer must satisfy, without the QSPI checks |
| `Spi.HappensLater` | libraries/drivers/drv_spi.c:431-451 | No arrival loses or doubles a completion, in any sequence of completions and handlers |
| `Spi.OrderDoesNotMatter` | libraries/drivers/drv_spi.c:517-535 | When all has arrived, the order of the three interrupts cannot be seen |
| `Spi.SomethingArrives` | libraries/drivers/drv_spi.c:431-451 | While a completion is on its way and unmasked something can arrive and brings the end nearer: no deadlock |
| `Spi.TakeEnds` | libraries/drivers/drv_spi.c:517-535 | A taken semaphore ends its own line and no other |
| `Spi.DirectIsWholeLines` | libraries/drivers/drv_spi.c:1032 | The caller's own buffer is used exactly when there is no cache or it is made of whole lines |
| `SpiCache.DirectReceivesIff` | libraries/drivers/drv_spi.c:1054-1064 | A receive buffer that is not bounced is invalidated only after the transfer: whatever the slave sends and whatever the cache does meanwhile, the CPU reads the slave's bytes exactly when no line of the buffer was dirty at the start |
| `SpiCache.BounceReceives` | libraries/drivers/drv_spi.c:1055-1060 | A receive buffer that is bounced is invalidated before and after, and the CPU always reads the slave's bytes |
| `SpiCache.EngineSends` | libraries/drivers/drv_spi.c:1030-1046 | After flush or write-back, whenever the engine reads a byte of the send buffer during the transfer, it gets what the CPU had stored |
| `SpiCache.RunRam` | libraries/drivers/drv_spi.c:1283-1284 | As long as the buffer's lines are clean, a received byte that has landed stays until the end of the transfer |
| `SpiCache.InvalidatedKeepsRest` | libraries/drivers/drv_spi.c:1283-1284 | Dropping the lines of a buffer shows the CPU what memory holds there and leaves its picture of everything else |
| `SpiCache.WriteBackLineView` | libraries/hpm_sdk/arch/riscv/l1c/hpm_l1c_drv.c:103-107 | Writing a line back and keeping it changes nothing for the CPU and leaves memory in agreement |
| `Flash.NorFlash.Erase` | board/fal_flash_port.c:231-267 | Returns the size, or -1 at the first failing command; nothing outside the range rounded up to sectors changes, and on success all of it is erased, by the planned commands; the loop terminates and `aligned_size` never underflows |
| `Flash.NorFlash.Write` | board/fal_flash_port.c:168-221 | For every page size, of anything its commands keep within pages and staging buffer: touches nothing outside the range; succeeds when all commands but a leading partial one do; the data are there when that one succeeded too |
| `Flash.NorFlash.Read` | board/fal_flash_port.c:121-134 | Whatever the cache held, the caller gets what the chip holds |
| `Flash.NorFlash.ProgramPages` | board/fal_flash_port.c:196-217 | The main loop programs the rest in order and stops at the first failing command |
| `Flash.NorFlash.LeadProgram` | board/fal_flash_port.c:143-186 | The leading partial page is programmed up to the page boundary |
| `Flash.NorFlash.EraseLoop` | board/fal_flash_port.c:244-265 | The loop carries out the plan up to its first failing command; when none fails the whole range is erased |
| `Flash.NorFlash.NextErase` | board/fal_flash_port.c:246-262 | One turn erases the next sector or aligned block of the plan |
| `Flash.NorFlash.NextProgram` | board/fal_flash_port.c:188-218 | One turn programs the next page or the rest |
| `Flash.MixedEqualsSectorBySector` | board/fal_flash_port.c:231-267 | For every sector-aligned offset, mixed erase equals erasing sector by sector |
| `Flash.ErasePlanTiles` | board/fal_flash_port.c:246-262 | The erase commands tile the range in order, so each sector is erased once |
| `Flash.WholeBlocksByBlockErase` | board/fal_flash_port.c:249-253 | Every aligned block inside the range is erased by one block command |
| `Flash.TilesEraseRange` | board/fal_flash_port.c:231-267 | Commands that tile a range erase that range |
| `Flash.ClearLowIsFloor` | board/fal_flash_port.c:236-240 | Clearing the low bits rounds down to a multiple of a power of two |
| `Flash.ChunksTile` | board/fal_flash_port.c:168-221 | The program commands tile the range in order without gap or overlap, for any page size |
| `Flash.ChunksFit` | board/fal_flash_port.c:168-221 | With 256-byte pages no command crosses a page or overruns the staging buffer |
| `Flash.SafeIffPageIs256` | board/fal_flash_port.c:143-221 | Every write stays within pages and staging buffer exactly when pages have 256 bytes |
| `Flash.WriteAllBytes` | board/fal_flash_port.c:168-221 | A byte after any number of disjoint writes is its old value ANDed with the one write that covers it |
| `Flash.EraseWriteRead` | board/fal_flash_port.c:121-267 | Erase, any disjoint writes in any order, then read gives back what was written; other erased bytes are 0xFF, all others untouched |
| `Flash.NorFlash.Session` | board/fal_flash_port.c:121-267 | Over a session of calls, with the CPU loading anything into the cache in between: it goes through exactly when all commands but the leading ones succeed; if those did too, every record reads back as written and the rest of the range is erased; whatever fails, nothing outside the range changes |
| `Flash.NorFlash.WriteRecords` | board/fal_flash_port.c:168-221 | A list of writes is reported as done exactly when all commands but the leading ones succeed, and then has the effect of programming each record |
| `Codec.RunsStaySynced` | board/hpm_wm8960.c:493-543 | From a synced state, after any run of API calls, failing anywhere, the copy equals the chip's registers as long as every later reset write gets through |
| `Codec.LastInitDecides` | board/hpm_wm8960.c:28-91 | From any state at all, after a run whose last initialization got its reset through, the copy equals the chip, whatever came before and whatever failed |
| `Codec.InitSyncsIff` | board/hpm_wm8960.c:28-91 | After initialization from any state the copy is right exactly when the reset write got through or the chip already held the defaults |
| `Codec.PrefixesStaySynced` | board/hpm_wm8960.c:493-543 | Any prefix of plain register operations keeps copy and chip equal |
| `Codec.CallsArePlain` | board/hpm_wm8960.c:93-490 | Every operation of every API function addresses an existing register with at most nine bits and none but initialization resets |
| `Codec.WireRoundTrip` | board/hpm_wm8960.c:493-509 | Address and value survive the two bytes on the bus exactly when they fit seven and nine bits |
| `Codec.HeardAsSent` | board/hpm_wm8960.c:493-509 | The chip acts on what the driver meant exactly when the value has nine bits |
| `Codec.VolumeStaysBalanced` | board/hpm_wm8960.c:335-406 | Started with equal volumes in effect, setting a volume keeps left and right equal after every single write and ends at the requested volume; other channels keep theirs |
| `Codec.BandsDisjoint` | board/hpm_wm8960.c:408-440 | The seven 4% bands are pairwise disjoint |
| `Codec.CheckIs` | board/hpm_wm8960.c:408-415 | For rates up to 699050 Hz: the 32-bit check passes exactly a clock within 4% and one whose scaled difference leaves 32 bits and wraps to something small, never both |
| `Codec.StopsAtFirst` | board/hpm_wm8960.c:429-436 | The search stops at the first ratio that is within 4% or wraps |
| `Codec.RightIff` | board/hpm_wm8960.c:408-440 | The divider found is the right one exactly when no ratio wraps before the band the clock lies in; a divider the driver stops at is within 4% exactly when its own difference does not wrap; a rejection is always right |
| `Codec.FindsTheBand` | board/hpm_wm8960.c:408-440 | For rates up to 699050 Hz: while no ratio up to it wraps, a ratio is found exactly when its band holds the clock |
| `Codec.AcceptsIff` | board/hpm_wm8960.c:417-462 | For rates up to 699050 Hz: a format is accepted exactly when its width is known and some ratio is within 4% or wraps |
| `Codec.AcceptedFormat` | board/hpm_wm8960.c:417-462 | An accepted format leaves equal ADC and DAC dividers, of a ratio within 4% exactly when its difference does not wrap, and the clock-select bit as it was |
| `Codec.ClockRegister` | board/hpm_wm8960_regs.h:242-307 | The divider fields of the clock register for every code, clock-select untouched |
| `Codec.OverflowAcceptsWrongClock` | board/hpm_wm8960.c:408-415 | An instance: for every rate from 33555 Hz on, a master clock that wraps for ratio 256 and is accepted with it though it is far from the band |
| `Codec.Wm8960.WriteReg` | board/hpm_wm8960.c:493-509 | The copy is updated exactly when the bus accepted the write |
| `Codec.Wm8960.ReadReg` | board/hpm_wm8960.c:511-519 | Reads the copy, fails for a missing register |
| `Codec.Wm8960.ModifyReg` | board/hpm_wm8960.c:521-543 | Read-modify-write by the copy; a failed write changes nothing |
| `Codec.Wm8960.CopyDefaults` | board/hpm_wm8960.c:28-41 | Initialization sets the copy to the defaults before it talks to the chip |
| `Codec.Wm8960.Perform` | board/hpm_wm8960.c:28-91 | A chain of checked operations stops at the first failure, the rest of it undone |
| `Codec.Wm8960.Invoke` | board/hpm_wm8960.c:28-490 | Every API function performs a prefix of its operations and succeeds exactly when all succeed and its arguments are accepted |
| `CodecRegisters.ModuleLeaves` | board/hpm_wm8960.c:117-170 | After a module call from a synced state the module's power bits on the chip are all on or all off as asked, in every register, and every other bit is as before; the speaker also enables class D |
| `CodecRegisters.RouteIsPowered` | board/hpm_wm8960.c:172-226 | After a successful route call every module of the route is powered |
| `CodecRegisters.RouteSelectsInputs` | board/hpm_wm8960.c:228-335 | and the path, volume and boost registers of both inputs hold what their kinds ask for, unchanged bits included |
| `CodecRegisters.RouteFeedsMixer` | board/hpm_wm8960.c:464-491 | and the output mixer is fed by the third input, else the DAC, else the input mixer, or as before when none is asked for |
| `CodecRegisters.FirstPower` | board/hpm_wm8960.c:172-335 | and the first power register is what the two inputs make of it together with the bits of the route's modules |
| `CodecRegisters.SidesAre` | board/hpm_wm8960.c:228-335 | where amplifier and converter of each input are on exactly when it is open |
| `CodecRegisters.RouteLeavesRest` | board/hpm_wm8960.c:172-226 | and no other register has changed |
| `CodecRegisters.InitIsPowered` | board/hpm_wm8960.c:28-91 | After a successful initialization, from any state, every module of the route is powered |
| `CodecRegisters.InitLeaves` | board/hpm_wm8960.c:28-91 | and each register holds its default changed by presets, protocol, slave mode, format and route, as the tables by register say |
| `CodecRegisters.CallLeaves` | board/hpm_wm8960.c:93-491 | Every other call that succeeds changes each register of the chip as its table by register says |
| `CodecRegisters.CallsAccepted` | board/hpm_wm8960.c:93-491 | Which calls accept their arguments: all but unknown inputs and routes, the headphone as a module, and formats and volumes out of range |
| `CodecRegisters.VolumesAccepted` | board/hpm_wm8960.c:337-406 | Volumes of 8 bits for the converters, 7 for the outputs and 6 for the inputs are accepted, and no others |
| `CodecRegisters.ChipFollows` | board/hpm_wm8960.c:493-543 | From a synced state each register of the chip goes through the changes of the operations on it, in order |
| `CodecRegisters.ModuleDoes` | board/hpm_wm8960.c:117-170 | The chain of operations for a module adds up to one change of its power bits |
| `CodecRegisters.InputDoes` | board/hpm_wm8960.c:228-335 | The chain for an input adds up to its table |
| `CodecRegisters.MixerDoes` | board/hpm_wm8960.c:464-491 | The chain for the mixer adds up to the last source asked for |
| `CodecRegisters.RouteDoes` | board/hpm_wm8960.c:183-223 | The chain for a route sets exactly the bits of its modules; the third power register holds nothing else, except in bypass |
| `CodecRegisters.FormatDoes` | board/hpm_wm8960.c:417-462 | The chain for a format sets the dividers and the code of the word length |
| `CodecRegisters.ApplyAfter` | board/hpm_wm8960.c:521-543 | Two masked changes of a register are one |
| `CanFilter.McanDriver.Perform` | libraries/drivers/drv_mcan.c:614-719 | After any run of filter, mode and baud commands the driver is configured exactly when the last command that configures it was accepted; then the controller holds the compiled last filter list, the last mode and the last rate given; if all items are plain, a data frame is accepted exactly when the list wants it |
| `CanFilter.CompileAccepts` | libraries/drivers/drv_mcan.c:614-689 | For every filter list, plain or not, they accept exactly what the element of some item takes |
| `CanFilter.CompileKeepsMeaning` | libraries/drivers/drv_mcan.c:614-689 | If all items are plain, the two hardware lists together accept exactly the frames some item of the same identifier kind matches; with no or an inactive filter, every data frame |
| `CanFilter.RunRemembersLast` | libraries/drivers/drv_mcan.c:614-719 | Over every run filter, mode and rate are the last ones given, whatever came between and failed |
| `CanFilter.ModesAre` | libraries/drivers/drv_mcan.c:505-519 | The modes 0, 1 and 2 are known and no others, each with its own way of taking part in the bus |
| `CanFilter.AppliedIff` | libraries/drivers/drv_mcan.c:614-719 | After a run the controller holds what the driver remembers exactly when the last configuring command was accepted, with a known mode and a filter that fits |
| `CanFilter.FaithfulIff` | libraries/hpm_sdk/drivers/src/hpm_mcan_drv.c:1306-1363 | An item keeps its meaning in the hardware exactly when a standard one compares no one-bit above the eleventh, and an extended one has mask bit 30 clear or is all ones |
| `CanFilter.MacroMaskIsRange` | rt-thread/components/drivers/include/drivers/can.h:93-94 | With the mask of RT-Thread's own item macros an extended item takes every identifier from its own upwards |
| `CanFilter.SelectCounts` | libraries/drivers/drv_mcan.c:622-643 | Splitting puts every item into exactly one list |
| `CanFilter.SelectKeepsOrder` | libraries/drivers/drv_mcan.c:622-643 | and keeps the order |
| `CanFilter.SelectExact` | libraries/drivers/drv_mcan.c:622-643 | and puts exactly the items of a kind into its list |
| `CanFilter.ListAccepts` | libraries/hpm_sdk/drivers/src/hpm_mcan_drv.c:922-982 | For every list, programmed and cleared elements together accept what the element of some item takes |
| `CanFilter.McanDriver.SplitItems` | libraries/drivers/drv_mcan.c:620-643 | The loop fills both arrays with the two sublists in order |
| `CanFilter.McanDriver.Configure` | libraries/drivers/drv_mcan.c:471-539 | Succeeds exactly when the mode is known, the lists fit and the controller accepts; then the controller holds the compiled filter, the mode and the rate |
| `CanFilter.McanDriver.ControlSetFilter` | libraries/drivers/drv_mcan.c:614-697 | Remembers the filter and configures; succeeds exactly when that does |
| `CanFilter.McanDriver.ControlSetMode` | libraries/drivers/drv_mcan.c:698-711 | Refuses unknown modes, does nothing for the same mode, otherwise remembers it and configures |
| `CanFilter.McanDriver.ControlSetBaud` | libraries/drivers/drv_mcan.c:712-719 | Remembers the rate given and configures with it |
| `CanFilter.CanDriver.Perform` | libraries/drivers/drv_can.c:420-471 | The same for the older driver; if no standard item compares a one-bit above the eleventh, a frame is accepted exactly when the list wants it, an empty list wanting everything and an inactive one nothing |
| `CanFilter.OldKeepsMeaning` | libraries/drivers/drv_can.c:420-441 | Under that condition the older driver's slots accept exactly what its filter list wants |
| `CanFilter.InvertedMaskMeansSame` | libraries/drivers/drv_can.c:434 | Under that condition the inverted mask, cut to 29 bits, means the same as the original |
| `FilterWords.InvertedIsComplement` | libraries/drivers/drv_can.c:434 | Of the 29 identifier bits each stands in exactly one of the mask and the inverted mask, and no higher bit is kept |
| `CanFilter.OldFaithfulIff` | libraries/drivers/drv_can.c:430-434 | An item keeps its meaning in the older controller exactly under that condition; otherwise the low bits of its identifier are a wrongly taken frame |
| `CanFilter.CanDriver.ControlSetFilter` | libraries/drivers/drv_can.c:420-449 | Fills one slot per item and programs them |
| `CanFilter.CanDriver.Configure` | libraries/drivers/drv_can.c:281-344 | Succeeds exactly when the mode is known and the controller accepts; then the controller holds the slots, the mode and the rate |
| `CanFilter.CanDriver.ControlSetMode` | libraries/drivers/drv_can.c:450-463 | As in the newer driver |
| `CanFilter.CanDriver.ControlSetBaud` | libraries/drivers/drv_can.c:464-471 | As in the newer driver |
| `FilterWords.StdTakes` | libraries/hpm_sdk/drivers/src/hpm_mcan_drv.c:1349-1356 | A standard element compares the low eleven bits where the low eleven mask bits are set |
| `FilterWords.ExtTakes` | libraries/hpm_sdk/drivers/src/hpm_mcan_drv.c:1337-1347 | An extended element compares, or by mask bit 30 becomes a range |
| `FilterWords.StdPlain` | libraries/hpm_sdk/drivers/src/hpm_mcan_drv.c:1349-1356 | A standard element means its item if the item compares no one-bit above the eleventh |
| `FilterWords.StdCut` | libraries/hpm_sdk/drivers/src/hpm_mcan_drv.c:1349-1356 | otherwise it takes a frame its item does not match |
| `FilterWords.ExtAbove` | libraries/hpm_sdk/drivers/src/hpm_mcan_drv.c:1337-1347 | A range element with an empty range refuses its own identifier |
| `FilterWords.ExtBelow` | libraries/hpm_sdk/drivers/src/hpm_mcan_drv.c:1337-1347 | with a proper range it takes its upper end, which the item does not match |
| `FilterWords.ExtAt` | libraries/hpm_sdk/drivers/src/hpm_mcan_drv.c:1337-1347 | with a single identifier it refuses the all-ones frame, which the item matches |

## Left out

- RightIff: sample rates above 699050 Hz, where the right-hand side of the check leaves 32 bits too; the chip plays no more than 48000 Hz.
- SentOnceInOrder: frames that fit one buffer; the hand-over of longer ones is incomplete (`HandedOverIffOneBuffer`).
- HandOverBytesIff: frames that need more descriptors than the ring has.
- Transmit: takes chains that fit the ring; the driver does not check this, and a longer chain would reach a descriptor it already filled.
- DeliveredOnceInOrder: one-segment frames with at least one byte; a frame that is empty after its check sequence leaves the segment counter set, and frames over several buffers are not modelled.
- XferDma: one message of bytes; chained messages, QSPI phases, wider data, the polling path and chip select are not modelled; after a failure, the rest of the receive buffer is not described; the bus class has no cache, which `SpiCache.dfy` looks at separately.
- Request: reads by CMD53 of several blocks, no multiple of four, that go beyond the last line of the bounce buffer (`BeyondIff` says which): the engine then stores under lines the cache may hold; response copying, auto CMD12, clocks, timing modes, tuning and voltage switching.
- CompileAccepts: data frames only; remote frames, whose rejection depends on the order of items, CAN FD timing commands and interrupt masks are not modelled.
- FlushDirect: no new flush before ready is signalled, which LVGL waits for; the pixel-size factor of addresses, cache write-back and the optional wait for the vertical sync.
- LcdcIsr: the variant for the RT-Thread LCD device, where the flush waits in line.
- Wm8960.Invoke: the driver's functions are lists of operations with one execution; raw register writes by an application, which may send ten bits or reset the chip, are not part of this model.
- Erase, Write and Read: addresses and sizes near 2^32.
- Bitwise atomic operations: they would only add members like `Cell.Add`.
- Timeouts as real time: a poll may time out at any moment.
- Address translation: taken as the identity.
- Serial, I2C, Ethernet switch, timer, PWM, ADC, RTC, watchdog, pin and clock drivers, LVGL rendering, camera, touch, JPEG, file systems and Wi-Fi.
