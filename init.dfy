/**
 * Bring-up of the boot-stage driver: `nandc_init`, `read_flash_id`,
 * `board_nand_init` with its device-tree lookup, `nand_init` and
 * `rk_nand_init`.
 *
 * The device tree is a parameter (`DtNode`): what `fdtdec_next_compatible`,
 * `fdtdec_get_is_enabled` and `fdt_get_base_address` find, with the register
 * block the base address maps to. The global `g_rk_nand` is the field `nand`
 * of `Spl`.
 */
module Init {
  import opened Regs
  import opened Hw
  import opened Protocol
  import opened NandContext

  /** The bus timing `nandc_init` programs into FMWAIT. */
  const FMWAIT_DEFAULT: bv32 := 0x1081

  /** `ENODEV`: `rk_nand_init` returns its negation. */
  const ENODEV: int := 19

  /** Bytes `read_flash_id` reads after the READ ID command. */
  const ID_BYTES: nat := 5

  /** The outcome of the device-tree lookup of the controller node. */
  datatype DtNode =
    | NotFound            // no node compatible with the controller
    | Disabled            // the node's status is not "okay"
    | NoAddress           // the node has no base address
    | Found(hw: Nandc)    // the register block at the node's base address

  /** `read_flash_id`'s verdict as `board_nand_init` takes it: neither of the first two ID bytes is 0xFF or 0x00. */
  predicate ChipPresent(id: seq<byte>)
    requires |id| >= 2
  {
    id[0] != 0xFF && id[1] != 0xFF && id[0] != 0x00 && id[1] != 0x00
  }

  /** The ID bytes the chip returns after READ ID. */
  function IdOf(chip: Chip): (id: seq<byte>)
    ensures |id| == ID_BYTES
  {
    seq<byte>(ID_BYTES, k => chip.ident(k))
  }

  /** `chipnr` after `board_nand_init`: 1 for a chip that answers, 0 otherwise. */
  function ChipCount(id: seq<byte>): (n: byte)
    requires |id| >= 2
    ensures n == 0 || n == 1
    ensures n == 1 <==> ChipPresent(id)
  {
    if ChipPresent(id) then 1 else 0
  }

  /**
   * What `read_flash_id` puts on the bus: READ ID, address 0x00, five data
   * cycles, deselect of every chip (the word read back after the wait for
   * the chip, which started with `busy` polls of "busy" left).
   */
  function IdEvents(fmctl: bv32, busy: nat): seq<Event>
  {
    [CmdCycle(CMD_READID), AddrCycle(0x00)] + DataCycles(ID_BYTES) + [FmctlWrite(SelectWord(fmctl, Settled(busy), -1))]
  }

  /** `nandc_init`: program the FMWAIT timing. */
  method NandcInit(nand: RkNand)
    modifies nand.regs`fmwait, nand.regs`trace
    ensures nand.regs.fmwait == FMWAIT_DEFAULT
    ensures nand.regs.trace == old(nand.regs.trace) + [FmwaitWrite(FMWAIT_DEFAULT)]
  {
    nand.regs.WriteFmwait(FMWAIT_DEFAULT);
  }

  /**
   * `read_flash_id`: wait for the chip, send READ ID with address 0x00 and
   * read five bytes into `id`, then deselect every chip. No chip is selected
   * first: the command goes to whatever FMCTL selects at that point.
   */
  method ReadFlashId(nand: RkNand)
    requires nand.Valid()
    modifies nand.regs`fmctl, nand.regs`busy, nand.regs`trace, nand.regs`mode, nand.regs`addr,
      nand.regs`port, nand.regs`xfers, nand.id
    ensures nand.regs.Valid()
    ensures nand.id[..] == IdOf(nand.regs.chip)
    ensures nand.regs.mode == IdRead && nand.regs.port == ID_BYTES
    ensures nand.regs.fmctl == CeSelect(old(nand.regs.fmctl), -1)
    ensures nand.regs.busy == Polled(Settled(old(nand.regs.busy)))
    ensures nand.regs.trace == old(nand.regs.trace) + IdEvents(old(nand.regs.fmctl), old(nand.regs.busy))
  {
    var hw := nand.regs;
    ghost var t0 := hw.trace;
    WaitDevReady(hw);
    hw.WriteCmd(CMD_READID);
    hw.WriteAddr(0x00);
    var i := 0;
    while i < ID_BYTES
      invariant i <= ID_BYTES && hw.port == i && hw.mode == IdRead && hw.Valid()
      invariant hw.fmctl == old(hw.fmctl) && hw.busy == Settled(old(hw.busy))
      invariant hw.trace == t0 + [CmdCycle(CMD_READID), AddrCycle(0x00)] + DataCycles(i)
      invariant forall k :: 0 <= k < i ==> nand.id[k] == hw.chip.ident(k)
    {
      var b := hw.ReadData();
      nand.id[i] := b;
      i := i + 1;
    }
    SelectChip(hw, -1);
    assert t0 + [CmdCycle(CMD_READID), AddrCycle(0x00)] + DataCycles(ID_BYTES)
      + [FmctlWrite(SelectWord(old(hw.fmctl), Settled(old(hw.busy)), -1))]
      == t0 + IdEvents(old(hw.fmctl), old(hw.busy));
  }

  /**
   * The path of `board_nand_init` once the controller is found: allocate
   * the context and its zeroed scratch buffer on the node's registers,
   * program FMWAIT, read the chip ID, and set `chipnr` to 1 when the chip
   * answers.
   */
  method NewContext(hw: Nandc, geo: Geometry) returns (n: RkNand)
    requires hw.Valid()
    modifies hw
    ensures fresh(n) && fresh(n.id) && fresh(n.databuf)
    ensures n.Valid() && n.regs == hw
    ensures n.databuf.Length == geo.pageSize && forall k :: 0 <= k < geo.pageSize ==> n.databuf[k] == 0
    ensures n.id[..] == IdOf(hw.chip) && n.chipnr == ChipCount(n.id[..])
    ensures hw.fmwait == FMWAIT_DEFAULT
    ensures hw.fmctl == CeSelect(old(hw.fmctl), -1)
    ensures hw.trace == old(hw.trace) + [FmwaitWrite(FMWAIT_DEFAULT)] + IdEvents(old(hw.fmctl), old(hw.busy))
  {
    n := new RkNand(hw, geo.pageSize);
    NandcInit(n);
    ReadFlashId(n);
    var chipnr := n.chipnr;
    if ChipPresent(n.id[..]) {
      chipnr := 1;
    }
    n.chipnr := chipnr;
  }

  /** The boot stage's driver state: `g_rk_nand`. */
  class Spl {
    var nand: RkNand?

    /** Before `board_nand_init` has run. */
    constructor ()
      ensures nand == null
    {
      nand := null;
    }

    /**
     * `board_nand_init`: once `g_rk_nand` is set, nothing happens. Otherwise,
     * when the device tree gives an enabled controller node with an address,
     * allocate the context and a zeroed page-sized scratch buffer, program
     * FMWAIT, read the chip ID and set `chipnr` to 1 when the chip answers;
     * on any lookup failure `g_rk_nand` stays null.
     */
    method BoardNandInit(geo: Geometry, dt: DtNode)
      requires dt.Found? ==> dt.hw.Valid()
      modifies this`nand, if dt.Found? then {dt.hw} else {}
      ensures old(nand) != null ==> nand == old(nand) && (dt.Found? ==> unchanged(dt.hw))
      ensures old(nand) == null && !dt.Found? ==> nand == null
      ensures old(nand) == null && dt.Found? ==>
        && nand != null && fresh(nand) && fresh(nand.id) && fresh(nand.databuf)
        && nand.Valid() && nand.regs == dt.hw
        && nand.databuf.Length == geo.pageSize && (forall k :: 0 <= k < geo.pageSize ==> nand.databuf[k] == 0)
        && nand.id[..] == IdOf(dt.hw.chip) && nand.chipnr == ChipCount(nand.id[..])
        && dt.hw.fmwait == FMWAIT_DEFAULT
        && dt.hw.fmctl == CeSelect(old(dt.hw.fmctl), -1)
        && dt.hw.trace == old(dt.hw.trace) + [FmwaitWrite(FMWAIT_DEFAULT)] + IdEvents(old(dt.hw.fmctl), old(dt.hw.busy))
    {
      if nand != null {
        return;
      }
      match dt
      case Found(hw) =>
        nand := NewContext(hw, geo);
      case _ =>
    }

    /** `nand_init`: `board_nand_init`, whose result it does not look at. */
    method NandInit(geo: Geometry, dt: DtNode)
      requires dt.Found? ==> dt.hw.Valid()
      modifies this`nand, if dt.Found? then {dt.hw} else {}
      ensures old(nand) != null ==> nand == old(nand)
      ensures old(nand) == null ==> (nand != null <==> dt.Found?)
    {
      BoardNandInit(geo, dt);
    }

    /** `rk_nand_init`: `board_nand_init`, then 0 when a context exists with a chip, -ENODEV otherwise. */
    method RkNandInit(geo: Geometry, dt: DtNode) returns (r: int)
      requires dt.Found? ==> dt.hw.Valid()
      modifies this`nand, if dt.Found? then {dt.hw} else {}
      ensures old(nand) != null ==> nand == old(nand)
      ensures old(nand) == null ==> (nand != null <==> dt.Found?)
      ensures r == 0 || r == -ENODEV
      ensures r == 0 <==> nand != null && nand.chipnr != 0
      ensures old(nand) == null && dt.Found? ==> (r == 0 <==> ChipPresent(IdOf(dt.hw.chip)))
    {
      BoardNandInit(geo, dt);
      if nand != null && nand.chipnr != 0 {
        return 0;
      }
      return -ENODEV;
    }
  }

  /** An erased chip (all 0xFF) or a bus that reads 0x00 counts as no chip; a real maker and device ID counts as one. */
  lemma ChipPresentCases(id: seq<byte>)
    requires |id| >= 2
    ensures id[0] == 0xFF || id[1] == 0xFF || id[0] == 0x00 || id[1] == 0x00 ==> ChipCount(id) == 0
    ensures ChipCount([0x98, 0xF1, 0x80, 0x15, 0x72]) == 1
    ensures ChipCount([0x98, 0x00, 0x80, 0x15, 0x72]) == 0
  {
  }

  /** Only the first two ID bytes matter. */
  lemma ChipCountFromMakerAndDevice(a: seq<byte>, b: seq<byte>)
    requires |a| >= 2 && |b| >= 2 && a[..2] == b[..2]
    ensures ChipCount(a) == ChipCount(b)
  {
    assert a[0] == a[..2][0] == b[..2][0] == b[0];
    assert a[1] == a[..2][1] == b[..2][1] == b[1];
  }
}
