# Rockchip NANDC v6 boot-stage NAND loader, modelled in Dafny

This project models the boot-stage (SPL) raw-NAND driver of U-Boot for the
Rockchip NANDC v6 controller, `u-boot/drivers/mtd/nand/rockchip_nand_spl.c`.
That code finds the controller and reads the flash ID. It then copies a
boot image out of raw NAND into memory, reading each page as a pipeline of
1024-byte ECC granules and skipping blocks that carry a factory bad-block
marker.

The model is imperative, like the C code.

- **Regs** (`registers.dfy`) holds the register bit fields and the NAND opcodes. It also holds the pure word encoders: chip-enable select, transfer words, BCH region clear, the two `ECC_ERR_CNT` decoders, and the page-read address cycles.
- **Hw** (`hardware.dfy`) is the controller, a class `Nandc`. Its fields are the registers the driver reads back, the two SRAM staging halves, the chip's command latch, and a ghost log. The log holds, in order, every register write, command and address cycle, data-port read and SRAM copy; register reads other than the data port are not logged. The flash chip is an oracle `Chip`. For every row it says:
  - the bytes of each ECC granule;
  - the BCHST word reported for each granule;
  - how many polls stay "not ready";
  - the raw bytes of the data port.
- **Protocol** (`protocol.dfy`) has one method per controller helper of the driver: select_chip, read_page, pio_xfer_start, wait_pio_xfer_done and wait_dev_ready.
- **NandContext** (`context.dfy`) holds the build-time flash geometry and `struct rk_nand`.
- **PageReader** and **PageFacts** (`pagereader.dfy`, `pagefacts.dfy`) model `nandc_read_page`. It is proved against specification functions:
  - `PageResult`, the value returned;
  - `PageData` and `PageWrite`, the bytes written;
  - `ReadPageEvents`, the bus events.
  The lemmas state what those functions promise.
- **BadBlock** (`badblock.dfy`) is `is_badblock`.
- **Loader** and **LoaderFacts** (`loader.dfy`, `loaderfacts.dfy`) model `nand_spl_load_image`.
  - `Load` says which pages the loader copies, one per destination slot, and whether it gives up with -EIO.
  - `Image` is the destination buffer those copies leave behind.
  - `LoadImage` is proved against both, and the lemmas state the loader's promises about them.
- **Init** (`init.dfy`) models `nandc_init`, `read_flash_id`, `board_nand_init`, `nand_init` and `rk_nand_init`. The global `g_rk_nand` is the field `nand` of class `Spl`.

The model follows the code as written in these places:

- **Bad-block marker.** A block is bad only when the page read of its first page returns -1 AND all eight sampled spare bytes read back as zero. An erased marker (0xFF) never makes a block bad.
- **`chipnr`.** It is a 0/1 flag, set to 1 when neither of the first two ID bytes is 0x00 or 0xFF. It is not a count of chips.
- **ECC channel.** Every granule is judged by ECC channel 0 only (BCH0 error bit, `ECC_ERR_CNT0`). This holds whichever staging half the granule went through.
- **Transfer wait.** `rockchip_nand_wait_pio_xfer_done` post-decrements its counter and then tests it against 0. It therefore returns -1 only when the transfer turns ready on the last of its 20000 polls. An exhausted budget leaves the counter at -1 and reports success. `Protocol.WaitPioXferDone` states exactly this. `PageReader.TimesOut` marks the one poll count that makes a page read stop early.
- **Start inside a block.** Bad blocks are looked for only when the cursor is at a block start. A load whose first page lies inside a bad block therefore reads the rest of that block. `LoaderFacts.MidBlockStartReadsBadBlock` shows this, and `LoaderFacts.LoadAvoidsBadBlocks` states what holds in general.
- **Page cursor.** The page cursor starts at `offs / PAGE_SIZE`. The page count is `roundup(size, PAGE_SIZE) / PAGE_SIZE`, computed in 32-bit unsigned arithmetic. `LoaderFacts.PageTotalWraps` shows that a size near 2^32 wraps to zero pages.

The build-time constants `CONFIG_SYS_NAND_PAGE_SIZE`, `CONFIG_SYS_NAND_PAGE_COUNT` and `CONFIG_SYS_NAND_SIZE` are a `Geometry` parameter. The page size is a nonzero multiple of 1024 bytes, and a block holds at least one page. The device-tree lookup is a parameter `Init.DtNode`. Register accesses are methods of `Hw.Nandc`, and the chip's answers come from the `Chip` oracle.

## Model

| member | source | states |
|---|---|---|
| Regs.CeBits | u-boot/drivers/mtd/nand/rockchip_nand_spl.c:110-112 | The chip-enable bits a select sets lie inside the 8-bit CE field, and there are none exactly when `chipnr` is -1 |
| Regs.CeSelectFields | u-boot/drivers/mtd/nand/rockchip_nand_spl.c:109-113 | A select keeps every FMCTL bit outside the CE field, and the CE field becomes exactly the bit of `chipnr` (nothing for -1) |
| Regs.CeSelectOneHot | u-boot/drivers/mtd/nand/rockchip_nand_spl.c:110-112 | After a select, CE bit `k` is set if and only if `k == chipnr`, so -1 sets no bit |
| Regs.CeReselect | u-boot/drivers/mtd/nand/rockchip_nand_spl.c:105-114 | Two selects in a row leave what the second one alone would, so only the last chip choice survives |
| Regs.XferWordBits | u-boot/drivers/mtd/nand/rockchip_nand_spl.c:140-143 | The first FLCTL word carries DIR in bit 1 and ST_BUF in bit 4, and sets XFER_EN, XFER_COUNT and ACORRECT. It sets no other bit, in particular not XFER_START |
| Regs.StartWordSelectsHalf | u-boot/drivers/mtd/nand/rockchip_nand_spl.c:140-146 | The second FLCTL word is the first OR XFER_START, differs from it only in that bit, and selects the same staging half |
| Regs.HalfOf | u-boot/drivers/mtd/nand/rockchip_nand_spl.c:140 | The half a FLCTL word selects is 0 or 1, and is 1 exactly when the ST_BUF bit is set |
| Regs.ClearRegionBits | u-boot/drivers/mtd/nand/rockchip_nand_spl.c:136-137 | Clearing the BCH region zeroes BCHCTL bits 5..7 and keeps every other bit |
| Regs.ClearRegionIdempotent | u-boot/drivers/mtd/nand/rockchip_nand_spl.c:136-138 | Clearing the region twice equals clearing it once, so every transfer start of a page writes the same BCHCTL word |
| Regs.EccErrCnt0Fields | u-boot/drivers/mtd/nand/rockchip_nand_spl.c:72-73 | The channel-0 count takes bits 0..4 from BCHST bits 3..7 and bit 5 from BCHST bit 27, has nothing above bit 5, and is at most 63 |
| Regs.ErrCount0 | u-boot/drivers/mtd/nand/rockchip_nand_spl.c:72-73 | The corrected-bit count of a granule, as a number, is at most 63 |
| Regs.EccErrCnt1Fields | u-boot/drivers/mtd/nand/rockchip_nand_spl.c:74-75 | The channel-1 count takes bits 0..4 from BCHST bits 16..20 and bit 5 from bit 29, and is at most 63 |
| Regs.Signed | u-boot/drivers/mtd/nand/rockchip_nand_spl.c:207 | Returning the `unsigned int` through an `int` is the two's-complement reinterpretation: it is nonnegative exactly below 2^31 and agrees with the word modulo 2^32 |
| Regs.MaxU | u-boot/drivers/mtd/nand/rockchip_nand_spl.c:195 | `max_t(unsigned int, a, b)` bounds both operands and is one of them |
| Regs.AddressCycles | u-boot/drivers/mtd/nand/rockchip_nand_spl.c:122-126 | A page access has exactly five address cycles |
| Regs.AddressRoundTrip | u-boot/drivers/mtd/nand/rockchip_nand_spl.c:122-126 | The chip rebuilds the page from the three row cycles modulo 2^24, and the column from the two column cycles modulo 2^16: byte truncation loses nothing else |
| Regs.Latched | u-boot/drivers/mtd/nand/rockchip_nand_spl.c:113 | FMCTL never keeps the read-only FREADY bit of a written word |
| Regs.ReadyRead | u-boot/drivers/mtd/nand/rockchip_nand_spl.c:98-101 | An FMCTL read shows the control bits, plus FREADY exactly when no busy poll is left or FREADY is among them |
| Regs.SelectWordLatched | u-boot/drivers/mtd/nand/rockchip_nand_spl.c:105-114 | The word a select writes, without FREADY, is the select of the control bits |
| Regs.SelectWordReady | u-boot/drivers/mtd/nand/rockchip_nand_spl.c:105-114 | The word a select writes carries FREADY exactly when the chip was ready at the read |
| Regs.SelectWordCe | u-boot/drivers/mtd/nand/rockchip_nand_spl.c:109-113 | Whatever the ready status, the CE field of the word a select writes is exactly the bit of `chipnr` |
| Hw.DataCycles | u-boot/drivers/mtd/nand/rockchip_nand_spl.c:244-248 | `k` data-port reads are `k` data cycles on the bus |
| Protocol.ReadCyclesOrder | u-boot/drivers/mtd/nand/rockchip_nand_spl.c:121-127 | A page-read command is exactly seven cycles in order: CMD 0x00, col low, col high, page bits 0..7, 8..15 and 16..23, then CMD 0x30 |
| Protocol.SelectChip | u-boot/drivers/mtd/nand/rockchip_nand_spl.c:105-114 | FMCTL's control bits become the select of `chipnr` applied to their old value. Exactly one FMCTL write goes on the bus, and it carries the word read back with its CE field replaced, the FREADY status read included. The read consumes one poll of the chip's busy count |
| Protocol.ReplaceCe | u-boot/drivers/mtd/nand/rockchip_nand_spl.c:110-112 | The modify step returns exactly the word read with its CE field replaced by the bit of `chipnr`, or cleared for -1. Every other bit read is kept |
| Protocol.SendReadPage | u-boot/drivers/mtd/nand/rockchip_nand_spl.c:116-128 | The bus sees exactly the seven read cycles. The chip then holds a read of row `page` (24 bits) at column `col` (16 bits) and reports busy for its busy-poll count |
| Protocol.PioXferStart | u-boot/drivers/mtd/nand/rockchip_nand_spl.c:130-147 | BCHCTL becomes its value with the region cleared, and FLCTL is written first without and then with XFER_START. During a page read, the next granule lands in half `st_buf` with its BCHST status, and the other half is untouched |
| Protocol.WaitPioXferDone | u-boot/drivers/mtd/nand/rockchip_nand_spl.c:149-167 | Returns -1 exactly when the transfer turns ready on the last of the 20000 polls, and 0 otherwise, an exhausted budget included. At most 20000 polls are consumed |
| Protocol.WaitDevReady | u-boot/drivers/mtd/nand/rockchip_nand_spl.c:91-103 | Polls until the chip is ready or 20000 polls have passed: the pending busy count drops by that many, or to zero |
| Hw.Nandc.CopyHalf | u-boot/drivers/mtd/nand/rockchip_nand_spl.c:202-203 | `memcpy_fromio` puts the 1024 bytes of staging half `h` at `buf[off..]` and changes nothing else in `buf` |
| Hw.Nandc.ReadData | u-boot/drivers/mtd/nand/rockchip_nand_spl.c:244-248 | A data-port read returns the chip's next byte in the current command mode and advances the port |
| NandContext.Geometry.Steps | u-boot/drivers/mtd/nand/rockchip_nand_spl.c:175 | `ecc_step` is at least 1, and `ecc_step` granules of 1024 bytes make exactly one page |
| NandContext.Geometry.MaxPages | u-boot/drivers/mtd/nand/rockchip_nand_spl.c:298-299 | `maxpages` fits an `unsigned int` |
| NandContext.RkNand.constructor | u-boot/drivers/mtd/nand/rockchip_nand_spl.c:281-283 | The zero-allocated context has `chipnr` 0, a zeroed 5-byte `id`, and a fresh zeroed page-sized `databuf` |
| PageReader.Stall | u-boot/drivers/mtd/nand/rockchip_nand_spl.c:181-187 | The step at which a page read returns early is the first granule whose transfer wait fails, or the granule count when none does |
| PageReader.MaxCount | u-boot/drivers/mtd/nand/rockchip_nand_spl.c:194-195 | The running maximum of corrected counts stays at most 63 |
| PageReader.ReadPage | u-boot/drivers/mtd/nand/rockchip_nand_spl.c:169-208 | Returns `PageResult` and leaves `buf` holding `PageWrite`. The bus sees exactly `ReadPageEvents` up to the stopping step. FMCTL ends with every chip deselected after a full read, and with chip 0 still selected after a failed wait. FMWAIT is untouched, and the busy count is what the chip-ready wait and the closing select leave |
| PageReader.StartPage | u-boot/drivers/mtd/nand/rockchip_nand_spl.c:176-179 | Selects chip 0, sends the read of row `page` at column 0, waits, and starts granule 0 into half 0. The bus sees exactly `OpeningEvents` |
| PageReader.OpenRow | u-boot/drivers/mtd/nand/rockchip_nand_spl.c:176-178 | Selects chip 0, sends the read of row `page` at column 0 and waits. The chip then holds that read with no granule started, and the bus sees the select word and the seven read cycles |
| PageReader.ReadRest | u-boot/drivers/mtd/nand/rockchip_nand_spl.c:181-207 | The granule loop plus deselect returns the page result. It writes granules up to the stopping step and deselects only when no wait failed |
| PageReader.ReadGranules | u-boot/drivers/mtd/nand/rockchip_nand_spl.c:181-204 | After the loop, `buf` holds granules 0 up to the stopping step and the bus carries their loop events. The return is the wait error or `max_bitflips` |
| PageReader.ReadStep | u-boot/drivers/mtd/nand/rockchip_nand_spl.c:182-203 | One loop turn either returns the wait error with nothing written, or folds the granule's status and copies it while keeping the loop invariant for the next step |
| PageReader.FoldStatus | u-boot/drivers/mtd/nand/rockchip_nand_spl.c:189-196 | `max_bitflips` becomes all ones on the BCH0 error bit, else the unsigned maximum of itself and the channel-0 count |
| PageReader.Advance | u-boot/drivers/mtd/nand/rockchip_nand_spl.c:198-203 | Starts the next granule into half `(step + 1) & 1` only when one follows, then copies half `step & 1` to `buf[step * 1024..]` |
| PageReader.ProgressStart | u-boot/drivers/mtd/nand/rockchip_nand_spl.c:172-181 | The loop invariant holds before the first step, with `max_bitflips` 0 |
| PageFacts.MaxCountIsMax | u-boot/drivers/mtd/nand/rockchip_nand_spl.c:195 | The running maximum bounds every granule's corrected count and equals one of them |
| PageFacts.MaxNotSum | u-boot/drivers/mtd/nand/rockchip_nand_spl.c:195 | Granule counts 0, 2, 5, 0 make the page result 5, not their sum 7 |
| PageFacts.StallIff | u-boot/drivers/mtd/nand/rockchip_nand_spl.c:185-187 | A read stops before the end of the page if and only if the wait of some granule fails |
| PageFacts.PageResultCases | u-boot/drivers/mtd/nand/rockchip_nand_spl.c:185-207 | The result is -1 if and only if a wait fails or some granule is uncorrectable. Otherwise it is the largest corrected count, between 0 and 63 |
| PageFacts.StickyError | u-boot/drivers/mtd/nand/rockchip_nand_spl.c:191-192 | Once a granule has the BCH0 error bit, `max_bitflips` is all ones for all later granules, whatever they report |
| PageFacts.CorrectableBound | u-boot/drivers/mtd/nand/rockchip_nand_spl.c:191-196 | Without an uncorrectable granule, `max_bitflips` is at most 63 and at least every granule's count |
| PageFacts.CountFromStatus | u-boot/drivers/mtd/nand/rockchip_nand_spl.c:72-73 | A status word holding `n < 32` in bits 3..7 decodes to `n` corrected bits |
| PageFacts.PageDataLayout | u-boot/drivers/mtd/nand/rockchip_nand_spl.c:182-203 | In the page data, granule `s` occupies bytes `1024 * s` up to `1024 * (s + 1)` |
| PageFacts.PageWriteLayout | u-boot/drivers/mtd/nand/rockchip_nand_spl.c:182-203 | A full page read at `off` leaves granule `s` at `buf[off + 1024 * s ..]`, and leaves the bytes before `off` and after the page untouched |
| PageFacts.LoopEventsLength | u-boot/drivers/mtd/nand/rockchip_nand_spl.c:181-204 | Each loop step puts four events on the bus (a transfer start and a copy), except the last step, which only copies |
| PageFacts.LoopEventsPrefix | u-boot/drivers/mtd/nand/rockchip_nand_spl.c:181-204 | The events of the first `j` loop steps are a prefix of those of the first `k`, for `j <= k`: later steps only append |
| PageFacts.LoopEventsLayout | u-boot/drivers/mtd/nand/rockchip_nand_spl.c:198-203 | Step `s` sits at bus event `4 * s`. When a granule follows, its transfer is started before half `s & 1` is copied, and after the last granule no transfer is started |
| PageFacts.StartTargetsNextHalf | u-boot/drivers/mtd/nand/rockchip_nand_spl.c:198-200 | The transfer start of step `s` selects half `(s + 1) & 1`, and only its second FLCTL write has the start bit |
| PageFacts.ReadPageEndsDeselected | u-boot/drivers/mtd/nand/rockchip_nand_spl.c:205 | A completed page read ends with an FMCTL write whose chip-enable field is empty, so every chip is deselected |
| PageFacts.ReadPageOpening | u-boot/drivers/mtd/nand/rockchip_nand_spl.c:176-179 | Every page read opens with the select of chip 0, whose word holds chip 0's CE bit alone in its CE field. Then come the seven read cycles at column 0 and the start of granule 0 into half 0 |
| BadBlock.FirstMark | u-boot/drivers/mtd/nand/rockchip_nand_spl.c:222-226 | The sampling loop stops at the first nonzero marker byte: every earlier byte is zero. It reaches 8 only when all are zero |
| BadBlock.IsBadBlock | u-boot/drivers/mtd/nand/rockchip_nand_spl.c:210-234 | Returns 1 exactly when the page read returns -1 and all eight marker bytes are zero. The marker is probed only after a -1, and `databuf` holds the page read |
| BadBlock.ProbeMarker | u-boot/drivers/mtd/nand/rockchip_nand_spl.c:218-229 | Selects chip 0, reads at column PAGE_SIZE, samples, and selects chip 0 again. Returns 1 exactly when the eight spare bytes are zero |
| BadBlock.SampleMarker | u-boot/drivers/mtd/nand/rockchip_nand_spl.c:222-228 | Reads up to and including the first nonzero byte, at most eight. Returns 1 exactly when all eight are zero |
| BadBlock.BadVerdictCases | u-boot/drivers/mtd/nand/rockchip_nand_spl.c:217-228 | A block is bad if and only if its first page loses a granule or has an uncorrectable one, and all eight marker bytes are zero. An erased marker (0xFF) never makes it bad |
| BadBlock.ProbeReadsCases | u-boot/drivers/mtd/nand/rockchip_nand_spl.c:222-226 | The probe reads one to eight bytes and reads all eight exactly for a bad marker |
| Loader.ViewOf | u-boot/drivers/mtd/nand/rockchip_nand_spl.c:298-324 | The loader's view of a chip strides by PAGE_COUNT and stops at `maxpages` |
| Loader.ViewOfSees | u-boot/drivers/mtd/nand/rockchip_nand_spl.c:316-324 | The view's bad-block and read-failure answers are those of `is_badblock` and `nandc_read_page` on that chip |
| Loader.Load | u-boot/drivers/mtd/nand/rockchip_nand_spl.c:306-330 | A load of `left` pages reads at most `left` pages |
| Loader.Image | u-boot/drivers/mtd/nand/rockchip_nand_spl.c:324-329 | Filling destination slots keeps the buffer length |
| Loader.LoadImage | u-boot/drivers/mtd/nand/rockchip_nand_spl.c:294-332 | Starting at page `offs / PAGE_SIZE` over `roundup(size) / PAGE_SIZE` pages, the result is `Load`'s status and `buf` is `Load`'s image |
| Loader.LoadWith | u-boot/drivers/mtd/nand/rockchip_nand_spl.c:302-331 | The same, for any view that agrees with the chip: the loop keeps the cursor, the slot count and the image in step with `Load` |
| Loader.LoadedImage | u-boot/drivers/mtd/nand/rockchip_nand_spl.c:306-330 | The bytes a whole load leaves are the image of exactly the pages it read |
| Loader.LoadStep | u-boot/drivers/mtd/nand/rockchip_nand_spl.c:311-329 | One iteration either returns -EIO with the buffer already equal to the final image, or reads the next planned page into the next slot and advances cursor, count and destination by one page |
| Loader.TakePage | u-boot/drivers/mtd/nand/rockchip_nand_spl.c:324-329 | With the skip settled on page `p`, the turn either returns -EIO with the buffer equal to the final image, or reads `p` into slot `i` and moves the plan on to slot `i + 1` with the cursor after `p` |
| Loader.PlanGivesUp | u-boot/drivers/mtd/nand/rockchip_nand_spl.c:319-320 | Running off the end of flash while skipping ends the load with -EIO and the image so far |
| Loader.PlanReadFails | u-boot/drivers/mtd/nand/rockchip_nand_spl.c:324-325 | A negative page read ends the load with -EIO, the failed page's partial write included |
| Loader.PlanStep | u-boot/drivers/mtd/nand/rockchip_nand_spl.c:324-329 | A good read extends the plan by that page and moves the cursor past it |
| Loader.ImageStep | u-boot/drivers/mtd/nand/rockchip_nand_spl.c:324-329 | Reading page `p` into the next slot extends the image by that page |
| Loader.FindPage | u-boot/drivers/mtd/nand/rockchip_nand_spl.c:311-322 | The page the loader reads from cursor `page` is `Arrive`: the cursor itself off block starts, the first good block start from it otherwise, or none |
| Loader.SkipBadBlocks | u-boot/drivers/mtd/nand/rockchip_nand_spl.c:316-321 | The skip loop yields `SkipBad`: the first block start, stepping by PAGE_COUNT, that is not bad, or none once the cursor reaches `maxpages` |
| Loader.CheckBlock | u-boot/drivers/mtd/nand/rockchip_nand_spl.c:316 | `is_badblock` answers 1 exactly when the view calls the block bad, and 0 otherwise |
| Loader.ReadSlot | u-boot/drivers/mtd/nand/rockchip_nand_spl.c:324 | The read into a slot is negative exactly when the view says the page fails, and writes that page's data there |
| LoaderFacts.PageTotalCeil | u-boot/drivers/mtd/nand/rockchip_nand_spl.c:305-306 | Without 32-bit wrap-around, the pages copied cover `size` bytes and fall short of `size + PAGE_SIZE`: a round-up |
| LoaderFacts.PageTotalWraps | u-boot/drivers/mtd/nand/rockchip_nand_spl.c:305 | With 2048-byte pages, a size of 0xFFFFFFFF rounds up past 2^32 and copies no page |
| LoaderFacts.LoadStatus | u-boot/drivers/mtd/nand/rockchip_nand_spl.c:306-331 | The loader returns 0 or -EIO. It returns 0 if and only if it read all `left` pages and none of those reads failed |
| LoaderFacts.LoadAscends | u-boot/drivers/mtd/nand/rockchip_nand_spl.c:311-328 | The pages read lie at or after the start page, and strictly increase slot by slot |
| LoaderFacts.SkipBadAhead | u-boot/drivers/mtd/nand/rockchip_nand_spl.c:316-321 | The skip loop never moves backwards, and it lands only on a block that is not bad |
| LoaderFacts.LoadSkipsBad | u-boot/drivers/mtd/nand/rockchip_nand_spl.c:311-324 | A page read that is itself a block start is never in a bad block. Pages inside a block are covered by `LoaderFacts.LoadAvoidsBadBlocks` |
| Loader.View.BlockOf | u-boot/drivers/mtd/nand/rockchip_nand_spl.c:311 | The first page of a page's block is at most that page and less than one block below it |
| LoaderFacts.LoadAvoidsBadBlocks | u-boot/drivers/mtd/nand/rockchip_nand_spl.c:306-330 | Every page read lies either in a block the cursor reached at its start and `is_badblock` passed, or in the block the cursor started in |
| LoaderFacts.ArriveInBlock | u-boot/drivers/mtd/nand/rockchip_nand_spl.c:311-322 | From a block start the cursor arrives at a block start that is not bad; from inside a block it stays where it is |
| LoaderFacts.SkipBadStarts | u-boot/drivers/mtd/nand/rockchip_nand_spl.c:316-321 | Skipping from a block start stops only at a block start |
| LoaderFacts.LoadFromBlockStartAvoidsBad | u-boot/drivers/mtd/nand/rockchip_nand_spl.c:306-330 | A load that starts at a block start reads no page of a block `is_badblock` calls bad |
| LoaderFacts.MidBlockStartReadsBadBlock | u-boot/drivers/mtd/nand/rockchip_nand_spl.c:311-324 | With four pages per block and block 0 bad, a load of three pages from page 1 reads pages 1, 2 and 3 of block 0 and returns 0 |
| LoaderFacts.BadRunAt | u-boot/drivers/mtd/nand/rockchip_nand_spl.c:316-319 | Within a run of bad blocks, each skipped block start is bad and the next stride is still below `maxpages` |
| LoaderFacts.SkipBadFinds | u-boot/drivers/mtd/nand/rockchip_nand_spl.c:316-321 | A found block is `k` whole strides past the cursor, every block skipped on the way was bad, and the found one is not |
| LoaderFacts.SkipBadGivesUp | u-boot/drivers/mtd/nand/rockchip_nand_spl.c:316-320 | Giving up means a run of bad blocks reached a bad one whose next stride is at or past `maxpages` |
| LoaderFacts.PageWriteKeeps | u-boot/drivers/mtd/nand/rockchip_nand_spl.c:324 | A page read into a slot leaves every byte before the slot unchanged |
| LoaderFacts.PageWriteFull | u-boot/drivers/mtd/nand/rockchip_nand_spl.c:324 | A page read with no failed wait fills its slot with exactly the page data |
| LoaderFacts.PageWriteSpares | u-boot/drivers/mtd/nand/rockchip_nand_spl.c:324-329 | A page read into a slot leaves every byte after the slot unchanged |
| LoaderFacts.ImageSlot | u-boot/drivers/mtd/nand/rockchip_nand_spl.c:324-329 | Slot `j` of the image holds exactly the data of page `pages[j]`, later slots notwithstanding |
| LoaderFacts.ImageTail | u-boot/drivers/mtd/nand/rockchip_nand_spl.c:324-329 | The destination beyond the filled slots is left as it was |
| LoaderFacts.LoadedLayout | u-boot/drivers/mtd/nand/rockchip_nand_spl.c:302-331 | A successful load fills all its slots contiguously. Slot `j` holds the full data of the `j`-th page read, and nothing after the last slot changes |
| Init.ChipCount | u-boot/drivers/mtd/nand/rockchip_nand_spl.c:286-288 | `chipnr` is 0 or 1, and it is 1 if and only if neither of the first two ID bytes is 0xFF or 0x00 |
| Init.IdOf | u-boot/drivers/mtd/nand/rockchip_nand_spl.c:244-248 | The ID the driver keeps is five bytes long |
| Init.ChipPresentCases | u-boot/drivers/mtd/nand/rockchip_nand_spl.c:286-288 | An erased (0xFF) or floating-low (0x00) maker or device byte means no chip. A real maker and device byte means one |
| Init.ChipCountFromMakerAndDevice | u-boot/drivers/mtd/nand/rockchip_nand_spl.c:286-287 | Only the first two ID bytes decide `chipnr` |
| Init.NandcInit | u-boot/drivers/mtd/nand/rockchip_nand_spl.c:86-89 | FMWAIT holds 0x1081 after exactly one write of it |
| Init.ReadFlashId | u-boot/drivers/mtd/nand/rockchip_nand_spl.c:236-252 | `id` holds the chip's five ID bytes, and every chip ends deselected. The bus sees READ ID, address 0x00, five data cycles and the deselect, with no select before the command |
| Init.NewContext | u-boot/drivers/mtd/nand/rockchip_nand_spl.c:281-289 | A fresh context on the node's registers with a zeroed page-sized buffer. FMWAIT is 0x1081, `id` is the chip's ID, `chipnr` follows from that ID, every chip ends deselected, and the bus sees the FMWAIT write and then the READ ID events |
| Init.Spl.constructor | u-boot/drivers/mtd/nand/rockchip_nand_spl.c:84 | Before initialisation `g_rk_nand` is null |
| Init.Spl.BoardNandInit | u-boot/drivers/mtd/nand/rockchip_nand_spl.c:254-292 | With a context already present, nothing changes. Any failed device-tree lookup leaves it null. Otherwise a fresh context on the node's registers has a zeroed page-sized buffer, FMWAIT 0x1081, the chip's ID and `chipnr` from that ID |
| Init.Spl.NandInit | u-boot/drivers/mtd/nand/rockchip_nand_spl.c:334-337 | Runs the init: an existing context stays, and otherwise a context exists afterwards exactly when the controller node was found |
| Init.Spl.RkNandInit | u-boot/drivers/mtd/nand/rockchip_nand_spl.c:339-346 | Returns 0 or -ENODEV, and returns 0 if and only if a context exists with nonzero `chipnr`. On a first init that means the chip answered its ID read |

## Left out

- `udelay` calls and real time: the busy-waits are modelled only as poll counters (the chip oracle says how many polls stay "not ready").
- `printf` and `debug` diagnostics: they have no effect on state.
- The device-tree lookups `fdtdec_next_compatible`, `fdtdec_get_is_enabled` and `fdt_get_base_address`: they are foreign calls. Their outcome is the parameter `Init.DtNode`, and its three failure cases share the same path.
- `kzalloc` and `kfree`: allocation is `new` with zero-filled arrays, and allocation failure is not modelled because the C code does not check for it. The `kfree(g_rk_nand)` of the error path frees a null pointer, so it has no effect.
- Memory-mapped I/O: `readl`, `writel`, `readb`, `writeb` and `memcpy_fromio` are methods of `Hw.Nandc`. The flash is an oracle with fixed answers for each row, so data that changes between reads is not modelled.
- `CONFIG_SYS_NAND_PAGE_SIZE`, `CONFIG_SYS_NAND_PAGE_COUNT` and `CONFIG_SYS_NAND_SIZE`: no file of this model's scope defines them, so they are the `Geometry` parameter.
- The 32-bit width of the loader's page cursor: the cursor is an unbounded number. The C `unsigned int` would wrap only after 2^32 pages, far beyond the `maxpages` of a real part.
- Register reads other than the data port are not in the bus log. How often a wait polled shows only in the chip's poll counters.
- Hw.Nandc.WriteFlctl: a started transfer delivers its granule into the SRAM half and its BCHST status at once. Only the poll count of the later wait depends on the chip, not the data. So a transfer wait that gives up without seeing XFER_READY (and reports success, as the C code does) still finds the oracle's granule in the half. `PageFacts.PageWriteLayout` and `LoaderFacts.LoadedLayout` then state the oracle's bytes for such a granule. The same holds when `Protocol.WaitDevReady` gives up while the chip still reports busy.
- NandContext.Geometry.Valid: the model requires a page size that is a nonzero multiple of 1024 bytes and a block of at least one page. The C code takes these from build-time configuration and does not check them. For other sizes `ecc_step = PAGE_SIZE / 1024` would be 0 or would leave a tail of the page unread.
- Chip numbers above 7 in a select: the driver only selects 0 and -1, and the CE field has 8 bits.
- The DMA registers and the other register offsets the file defines but does not use. The channel-1 ECC decoder `ECC_ERR_CNT1` is modelled but unused, as in the code.
- Loader.LoadImage: it states the result and the destination bytes, but not the bus events or the final state of the scratch buffer `databuf`.
- Loader.CheckBlock: it states the verdict; the bus events of the bad-block check are stated by `BadBlock.IsBadBlock`, not here.
- Loader.ReadSlot: it states the result and the bytes written; the bus events of the read are stated by `PageReader.ReadPage`, not here.
- Init.Spl.NandInit: it states only whether a context exists afterwards, because `nand_init` returns nothing; the full new state is stated by `Init.Spl.BoardNandInit`.
