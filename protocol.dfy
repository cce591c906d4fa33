/**
 * The controller command sequences the boot-stage driver is built from:
 * chip select, the two-phase page-read command, the two-write transfer
 * start, and the two bounded busy-wait loops.
 */
module Protocol {
  import opened Regs
  import opened Hw

  /** The seven byte cycles of a page-read command for (`page`, `col`). */
  function ReadCycles(page: nat, col: nat): (t: seq<Event>)
    ensures |t| == 7
  {
    var a := AddressCycles(page, col);
    [CmdCycle(CMD_READ0),
     AddrCycle(a[0]), AddrCycle(a[1]), AddrCycle(a[2]), AddrCycle(a[3]), AddrCycle(a[4]),
     CmdCycle(CMD_READSTART)]
  }

  /**
   * The page-read cycles in the words of the C code: read setup, the column
   * low and high byte, the three row bytes from the least significant one,
   * and read confirm.
   */
  lemma ReadCyclesOrder(page: nat, col: nat)
    ensures ReadCycles(page, col) ==
      [CmdCycle(0x00),
       AddrCycle(col % 256), AddrCycle((col / 256) % 256),
       AddrCycle(page % 256), AddrCycle((page / 256) % 256), AddrCycle((page / 65536) % 256),
       CmdCycle(0x30)]
  {
  }

  /** The three bus writes of a transfer start on half `stBuf`, given the cleared BCHCTL word. */
  function StartWrites(bchctl: bv32, dir: int, stBuf: int): seq<Event>
    requires 0 <= dir <= 1 && 0 <= stBuf <= 1
  {
    [BchctlWrite(bchctl), FlctlWrite(XferWord(dir, stBuf)), FlctlWrite(StartWord(dir, stBuf))]
  }

  /** "Busy" polls left after one read of FMCTL. */
  function Polled(busy: nat): nat
  {
    if busy == 0 then 0 else busy - 1
  }

  /** "Busy" polls left after `rockchip_nand_wait_dev_ready`. */
  function Settled(busy: nat): nat
  {
    if busy < DEF_TIMEOUT then 0 else busy - DEF_TIMEOUT
  }

  /**
   * `rockchip_nand_select_chip`: read FMCTL, replace the chip-enable field
   * by the bit of `chipnr` (none for -1) and write the word back. The word
   * on the bus keeps every other bit read, the FREADY status included; the
   * control bits become the select of `chipnr`.
   */
  method SelectChip(hw: Nandc, chipnr: int)
    requires hw.Valid() && -1 <= chipnr < 8
    modifies hw`fmctl, hw`busy, hw`trace
    ensures hw.Valid()
    ensures hw.fmctl == CeSelect(old(hw.fmctl), chipnr)
    ensures hw.trace == old(hw.trace) + [FmctlWrite(SelectWord(old(hw.fmctl), old(hw.busy), chipnr))]
    ensures hw.busy == Polled(old(hw.busy))
    ensures hw.mode == old(hw.mode)
  {
    ghost var w := SelectWord(hw.fmctl, hw.busy, chipnr);
    SelectWordLatched(hw.fmctl, hw.busy, chipnr);
    var reg := hw.ReadFmctl();
    reg := ReplaceCe(reg, chipnr);
    assert reg == w;
    hw.WriteFmctl(reg);
  }

  /** The modify step of the select: clear the chip-enable field, then set the bit of `chipnr` unless it is -1. */
  method ReplaceCe(read: bv32, chipnr: int) returns (reg: bv32)
    requires -1 <= chipnr < 8
    ensures reg == CeSelect(read, chipnr)
  {
    reg := read & !FM_CE_SEL_M;
    if chipnr != -1 {
      reg := reg | CeBits(chipnr);
    }
  }

  /**
   * `rockchip_nand_read_page`: the seven command and address cycles; the
   * chip then holds a read of row `page` (24 bits) from column `col`
   * (16 bits), and starts reporting busy.
   */
  method SendReadPage(hw: Nandc, page: nat, col: nat)
    modifies hw`mode, hw`addr, hw`port, hw`xfers, hw`busy, hw`trace
    ensures hw.trace == old(hw.trace) + ReadCycles(page, col)
    ensures hw.mode == PageRead(Row(page), Column(col))
    ensures hw.addr == [] && hw.port == 0 && hw.xfers == 0
    ensures hw.busy == hw.chip.busyPolls(Row(page))
  {
    var a := AddressCycles(page, col);
    hw.WriteCmd(CMD_READ0);
    hw.WriteAddr(a[0]);
    hw.WriteAddr(a[1]);
    hw.WriteAddr(a[2]);
    hw.WriteAddr(a[3]);
    hw.WriteAddr(a[4]);
    assert hw.addr == a;
    AddressRoundTrip(page, col);
    hw.WriteCmd(CMD_READSTART);
  }

  /**
   * `rockchip_nand_pio_xfer_start`: clear the BCH region field, write the
   * transfer word, then write it again with the start bit. A page read
   * being latched, the chip delivers its next granule into half `stBuf`.
   */
  method PioXferStart(hw: Nandc, dir: int, stBuf: int)
    requires hw.Valid() && 0 <= dir <= 1 && 0 <= stBuf <= 1
    modifies hw`bchctl, hw`flctl, hw`sram, hw`bchst, hw`pending, hw`xfers, hw`trace
    ensures hw.Valid()
    ensures hw.bchctl == ClearRegion(old(hw.bchctl))
    ensures hw.flctl == StartWord(dir, stBuf)
    ensures hw.trace == old(hw.trace) + StartWrites(hw.bchctl, dir, stBuf)
    ensures hw.mode.PageRead? ==>
      && hw.sram == Fill(old(hw.sram), stBuf, hw.chip.granule(hw.mode.row, old(hw.xfers)))
      && hw.bchst == hw.chip.status(hw.mode.row, old(hw.xfers))
      && hw.pending == hw.chip.xferPolls(hw.mode.row, old(hw.xfers))
      && hw.xfers == old(hw.xfers) + 1
    ensures !hw.mode.PageRead? ==>
      hw.sram == old(hw.sram) && hw.bchst == old(hw.bchst) && hw.pending == old(hw.pending) && hw.xfers == old(hw.xfers)
  {
    var reg := hw.ReadBchctl();
    reg := reg & !(BCH_REGION_M << BCH_REGION_S);
    hw.WriteBchctl(reg);
    reg := XferWord(dir, stBuf);
    StartWordSelectsHalf(dir, stBuf);
    hw.WriteFlctl(reg);
    hw.WriteFlctl(reg | FL_XFER_START);
  }

  /**
   * `rockchip_nand_wait_pio_xfer_done`, as written: the counter is
   * post-decremented by the loop test and checked against 0 afterwards. The
   * result is -1 only when the transfer turns ready on the very last poll
   * (the chip stays "not ready" for exactly 19999 polls); an exhausted budget
   * leaves the counter at -1 and reports success.
   */
  method WaitPioXferDone(hw: Nandc) returns (ret: int)
    modifies hw`pending
    ensures ret == (if old(hw.pending) == DEF_TIMEOUT - 1 then -1 else 0)
    ensures hw.pending == if old(hw.pending) < DEF_TIMEOUT then 0 else old(hw.pending) - DEF_TIMEOUT
  {
    var timeout: int := DEF_TIMEOUT;
    while true
      invariant 0 <= timeout <= DEF_TIMEOUT
      invariant old(hw.pending) >= DEF_TIMEOUT - timeout
      invariant hw.pending == old(hw.pending) - (DEF_TIMEOUT - timeout)
      decreases timeout
    {
      var test := timeout;
      timeout := timeout - 1;
      if test == 0 {
        break;
      }
      var reg := hw.ReadFlctl();
      if HasBit(reg, FL_XFER_READY) {
        break;
      }
    }
    if timeout == 0 {
      return -1;
    }
    return 0;
  }

  /**
   * `rockchip_nand_wait_dev_ready`: poll FMCTL until FREADY, at most
   * 20000 times (an unsigned counter, post-decremented); no result.
   */
  method WaitDevReady(hw: Nandc)
    requires hw.Valid()
    modifies hw`busy
    ensures hw.busy == Settled(old(hw.busy))
  {
    var timeout: u32 := DEF_TIMEOUT;
    while true
      invariant timeout <= DEF_TIMEOUT
      invariant old(hw.busy) >= DEF_TIMEOUT - timeout
      invariant hw.busy == old(hw.busy) - (DEF_TIMEOUT - timeout)
      decreases timeout
    {
      var test := timeout;
      timeout := if timeout == 0 then 0xFFFF_FFFF else timeout - 1;
      if test == 0 {
        break;
      }
      ReadyRead(hw.fmctl, hw.busy);
      var reg := hw.ReadFmctl();
      if HasBit(reg, FM_FREADY) {
        break;
      }
    }
  }
}
