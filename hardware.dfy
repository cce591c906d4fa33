/**
 * The NAND controller and the flash chip behind it, as the driver sees them
 * through `readl`/`writel`/`readb`/`writeb` and `memcpy_fromio`.
 *
 * The chip is an oracle (`Chip`): for every row it says what each ECC
 * granule delivers, which BCHST word the ECC engine reports for it, how many
 * status polls stay "not ready", and what raw bytes the data port returns.
 * The controller (`Nandc`) keeps the registers the driver reads back, the
 * two SRAM staging halves, the command/address latch of the chip, and a log
 * of every register write, command and address cycle, data-port read and
 * SRAM copy, in order; register reads other than the data port are not logged.
 */
module Hw {
  import opened Regs

  /** The 1024 bytes one ECC granule (and one SRAM half) holds. */
  type Granule = g: seq<byte> | |g| == SRAM_SIZE witness seq(SRAM_SIZE, _ => 0)

  /** What the attached flash answers; rows are 24-bit, columns 16-bit. */
  datatype Chip = Chip(
    ident: int -> byte,               // k-th byte returned after READ ID
    cell: (int, int) -> byte,         // raw byte at (row, column), spare area included
    granule: (int, int) -> Granule,   // corrected data of granule s of a row
    status: (int, int) -> bv32,       // BCHST word once granule s of a row has been transferred
    xferPolls: (int, int) -> nat,     // FLCTL polls still "not ready" after granule s is started
    busyPolls: int -> nat             // FMCTL polls still "busy" after a read of a row is confirmed
  )

  /** State of the chip's command latch. */
  datatype Mode = Idle | Setup | IdRead | PageRead(row: nat, col: nat)

  /** One observable bus event, in the order the controller sees them. */
  datatype Event =
    | FmctlWrite(v: bv32)    // the word written to FMCTL
    | FmwaitWrite(v: bv32)
    | FlctlWrite(v: bv32)
    | BchctlWrite(v: bv32)
    | CmdCycle(b: byte)
    | AddrCycle(b: byte)
    | DataCycle              // one byte read from the data port
    | Drain(half: nat)       // one SRAM half copied out by the CPU

  /** `k` reads of the data port. */
  function DataCycles(k: nat): (t: seq<Event>)
    ensures |t| == k && forall j :: 0 <= j < k ==> t[j] == DataCycle
  {
    if k == 0 then [] else DataCycles(k - 1) + [DataCycle]
  }

  /** How the chip's latch moves on a command byte. */
  function AfterCommand(mode: Mode, addr: seq<byte>, cmd: byte): Mode
  {
    if cmd == CMD_READ0 then Setup
    else if cmd == CMD_READID then IdRead
    else if cmd == CMD_READSTART && mode.Setup? && |addr| == 5 then PageRead(RowOf(addr), ColumnOf(addr))
    else Idle
  }

  /** The byte the data port returns as cycle number `port` after the last command. */
  function PortByte(chip: Chip, mode: Mode, port: nat): byte
  {
    match mode
    case IdRead => chip.ident(port)
    case PageRead(row, col) => chip.cell(row, col + port)
    case _ => 0xFF
  }

  /** One SRAM staging half. */
  function Half(sram: seq<byte>, h: nat): (g: Granule)
    requires |sram| == 2 * SRAM_SIZE && h < 2
  {
    sram[h * SRAM_SIZE .. h * SRAM_SIZE + SRAM_SIZE]
  }

  /** The staging area after a transfer into half `h`: that half now holds `g`, the other is untouched. */
  function Fill(sram: seq<byte>, h: nat, g: Granule): (s: seq<byte>)
    requires |sram| == 2 * SRAM_SIZE && h < 2
    ensures |s| == 2 * SRAM_SIZE
    ensures Half(s, h) == g && Half(s, 1 - h) == Half(sram, 1 - h)
  {
    if h == 0 then g + sram[SRAM_SIZE..] else sram[..SRAM_SIZE] + g
  }

  /** The controller register block together with the chip wired to it. */
  class Nandc {
    const chip: Chip
    var fmctl: bv32         // FMCTL control bits (FREADY is status and never stored)
    var fmwait: bv32        // FMWAIT bus timing
    var flctl: bv32
    var bchctl: bv32
    var bchst: bv32
    var sram: seq<byte>     // SRAM0: two staging halves of SRAM_SIZE bytes
    var mode: Mode
    var addr: seq<byte>     // address cycles since the last command
    var port: nat           // data-port cycles since the last command
    var xfers: nat          // granule transfers started since the last read confirm
    var busy: nat           // FMCTL polls that will still read "busy"
    var pending: nat        // FLCTL polls that will still read "not ready"
    ghost var trace: seq<Event>

    ghost predicate Valid()
      reads this
    {
      |sram| == 2 * SRAM_SIZE && !HasBit(fmctl, FM_FREADY)
    }

    constructor (chip: Chip)
      ensures Valid() && this.chip == chip
      ensures fmctl == 0 && fmwait == 0 && flctl == 0 && bchctl == 0 && bchst == 0
      ensures mode == Idle && addr == [] && port == 0 && xfers == 0 && busy == 0 && pending == 0
      ensures trace == []
    {
      this.chip := chip;
      fmctl, fmwait, flctl, bchctl, bchst := 0, 0, 0, 0, 0;
      sram := seq(2 * SRAM_SIZE, _ => 0);
      mode, addr, port, xfers, busy, pending := Idle, [], 0, 0, 0, 0;
      trace := [];
    }

    /** `readl(FMCTL)`: the control bits, plus FREADY once the chip no longer reports busy. */
    method ReadFmctl() returns (v: bv32)
      modifies this`busy
      ensures v == fmctl | ReadyBit(old(busy))
      ensures busy == if old(busy) == 0 then 0 else old(busy) - 1
    {
      v := fmctl | ReadyBit(busy);
      if busy > 0 {
        busy := busy - 1;
      }
    }

    /** `writel(v, FMCTL)`: the bus carries `v`; the read-only FREADY bit is not stored. */
    method WriteFmctl(v: bv32)
      requires Valid()
      modifies this`fmctl, this`trace
      ensures Valid()
      ensures fmctl == Latched(v)
      ensures trace == old(trace) + [FmctlWrite(v)]
    {
      fmctl := Latched(v);
      trace := trace + [FmctlWrite(v)];
    }

    /** `writel(v, FMWAIT)`. */
    method WriteFmwait(v: bv32)
      modifies this`fmwait, this`trace
      ensures fmwait == v
      ensures trace == old(trace) + [FmwaitWrite(v)]
    {
      fmwait := v;
      trace := trace + [FmwaitWrite(v)];
    }

    /** `writeb(b, BANK0 + CMD)`: a command cycle moves the chip's latch. */
    method WriteCmd(b: byte)
      modifies this`mode, this`addr, this`port, this`xfers, this`busy, this`trace
      ensures mode == AfterCommand(old(mode), old(addr), b)
      ensures addr == [] && port == 0 && xfers == 0
      ensures busy == if mode.PageRead? then chip.busyPolls(mode.row) else old(busy)
      ensures trace == old(trace) + [CmdCycle(b)]
    {
      mode := AfterCommand(mode, addr, b);
      addr, port, xfers := [], 0, 0;
      if mode.PageRead? {
        busy := chip.busyPolls(mode.row);
      }
      trace := trace + [CmdCycle(b)];
    }

    /** `writeb(b, BANK0 + ADDR)`. */
    method WriteAddr(b: byte)
      modifies this`addr, this`trace
      ensures addr == old(addr) + [b]
      ensures trace == old(trace) + [AddrCycle(b)]
    {
      addr := addr + [b];
      trace := trace + [AddrCycle(b)];
    }

    /** `readb(BANK0 + DATA)`: the next byte the chip shifts out. */
    method ReadData() returns (v: byte)
      modifies this`port, this`trace
      ensures v == PortByte(chip, mode, old(port))
      ensures port == old(port) + 1
      ensures trace == old(trace) + [DataCycle]
    {
      v := PortByte(chip, mode, port);
      port := port + 1;
      trace := trace + [DataCycle];
    }

    /** `readl(FLCTL)`: the last word written, plus XFER_READY once the transfer has finished. */
    method ReadFlctl() returns (v: bv32)
      modifies this`pending
      ensures HasBit(v, FL_XFER_READY) <==> old(pending) == 0
      ensures pending == if old(pending) == 0 then 0 else old(pending) - 1
    {
      v := if pending == 0 then flctl | FL_XFER_READY else flctl & !FL_XFER_READY;
      if pending > 0 {
        pending := pending - 1;
      }
    }

    /**
     * `writel(v, FLCTL)`. A word with XFER_START, written while a page read
     * is latched, moves the next granule of that row into the selected SRAM
     * half and posts its ECC status.
     */
    method WriteFlctl(v: bv32)
      requires Valid()
      modifies this`flctl, this`sram, this`bchst, this`pending, this`xfers, this`trace
      ensures Valid() && flctl == v
      ensures trace == old(trace) + [FlctlWrite(v)]
      ensures HasBit(v, FL_XFER_START) && mode.PageRead? ==>
        && sram == Fill(old(sram), HalfOf(v), chip.granule(mode.row, old(xfers)))
        && bchst == chip.status(mode.row, old(xfers))
        && pending == chip.xferPolls(mode.row, old(xfers))
        && xfers == old(xfers) + 1
      ensures !(HasBit(v, FL_XFER_START) && mode.PageRead?) ==>
        sram == old(sram) && bchst == old(bchst) && pending == old(pending) && xfers == old(xfers)
    {
      flctl := v;
      if HasBit(v, FL_XFER_START) && mode.PageRead? {
        sram := Fill(sram, HalfOf(v), chip.granule(mode.row, xfers));
        bchst := chip.status(mode.row, xfers);
        pending := chip.xferPolls(mode.row, xfers);
        xfers := xfers + 1;
      }
      trace := trace + [FlctlWrite(v)];
    }

    /** `readl(BCHCTL)`. */
    method ReadBchctl() returns (v: bv32)
      ensures v == bchctl
    {
      v := bchctl;
    }

    /** `writel(v, BCHCTL)`. */
    method WriteBchctl(v: bv32)
      modifies this`bchctl, this`trace
      ensures bchctl == v
      ensures trace == old(trace) + [BchctlWrite(v)]
    {
      bchctl := v;
      trace := trace + [BchctlWrite(v)];
    }

    /** `readl(BCHST)`. */
    method ReadBchst() returns (v: bv32)
      ensures v == bchst
    {
      v := bchst;
    }

    /** `memcpy_fromio(buf + off, SRAM0 + SRAM_SIZE * h, SRAM_SIZE)`. */
    method CopyHalf(h: nat, buf: array<byte>, off: nat)
      requires Valid() && h < 2 && off + SRAM_SIZE <= buf.Length
      modifies buf, this`trace
      ensures buf[..] == old(buf[..off]) + Half(sram, h) + old(buf[off + SRAM_SIZE..])
      ensures trace == old(trace) + [Drain(h)]
    {
      forall k | 0 <= k < SRAM_SIZE {
        buf[off + k] := sram[h * SRAM_SIZE + k];
      }
      assert buf[..] == old(buf[..off]) + Half(sram, h) + old(buf[off + SRAM_SIZE..]);
      trace := trace + [Drain(h)];
    }
  }
}
