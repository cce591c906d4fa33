/**
 * Register layout of the Rockchip NANDC v6 controller as the boot-stage
 * driver uses it: bit fields of FMCTL, FLCTL, BCHCTL and BCHST, the NAND
 * command opcodes, and the pure encoders and decoders built on them.
 */
module Regs {

  /** A value carried by one 8-bit bus cycle (command, address or data byte). */
  type byte = b: int | 0 <= b < 256

  /** A C `unsigned int` (and the register width). */
  type u32 = x: int | 0 <= x < 0x1_0000_0000

  /** Busy-wait budget of both poll loops, in iterations. */
  const DEF_TIMEOUT: int := 20000

  /** Size of one SRAM staging half, and of one ECC granule. */
  const SRAM_SIZE: nat := 0x400

  /** Transfer direction "read" for the FLCTL direction bit. */
  const NANDC_READ: int := 0

  // FMCTL
  const FM_WP: bv32 := 0x100
  const FM_CE_SEL_M: bv32 := 0xFF
  const FM_FREADY: bv32 := 0x200

  // FLCTL
  const FL_RST: bv32 := 0x1
  const FL_DIR_S: bv32 := 1
  const FL_XFER_START: bv32 := 0x4
  const FL_XFER_EN: bv32 := 0x8
  const FL_ST_BUF_S: bv32 := 4
  const FL_XFER_COUNT: bv32 := 0x20
  const FL_ACORRECT: bv32 := 0x400
  const FL_XFER_READY: bv32 := 0x10_0000

  // BCHCTL
  const BCH_REGION_S: bv32 := 5
  const BCH_REGION_M: bv32 := 0x7

  // BCHST
  const BCH0_ST_ERR: bv32 := 0x4
  const BCH1_ST_ERR: bv32 := 0x8000

  // NAND opcodes
  const CMD_READ0: byte := 0x00
  const CMD_READSTART: byte := 0x30
  const CMD_READID: byte := 0x90

  /**
   * The chip-enable bits `1 << chipnr` (`NANDC_V6_FM_CE_SEL`) that a select
   * of `chipnr` sets, none for -1; they all lie inside the eight-bit field.
   */
  function CeBits(chipnr: int): (b: bv32)
    requires -1 <= chipnr < 8
    ensures b & !FM_CE_SEL_M == 0
    ensures b == 0 <==> chipnr == -1
  {
    if chipnr == -1 then 0 else [0x01, 0x02, 0x04, 0x08, 0x10, 0x20, 0x40, 0x80][chipnr]
  }

  /**
   * The FMCTL word written by a chip select: the eight chip-enable bits are
   * replaced by the chip-enable bit of `chipnr` (none for -1); every other
   * bit of the word read back is kept.
   */
  function CeSelect(reg: bv32, chipnr: int): bv32
    requires -1 <= chipnr < 8
  {
    WithCe(reg, CeBits(chipnr))
  }

  /** FMCTL word `reg` with its chip-enable field replaced by `ce`. */
  function WithCe(reg: bv32, ce: bv32): bv32
  {
    (reg & !FM_CE_SEL_M) | ce
  }

  /** A select keeps every bit outside the chip-enable field and puts exactly the bits of `chipnr` inside it. */
  lemma CeSelectFields(reg: bv32, chipnr: int)
    requires -1 <= chipnr < 8
    ensures CeSelect(reg, chipnr) & !FM_CE_SEL_M == reg & !FM_CE_SEL_M
    ensures CeSelect(reg, chipnr) & FM_CE_SEL_M == CeBits(chipnr)
  {
    FieldSplit(reg, CeBits(chipnr));
  }

  lemma FieldSplit(reg: bv32, ce: bv32)
    requires ce & !FM_CE_SEL_M == 0
    ensures ((reg & !FM_CE_SEL_M) | ce) & !FM_CE_SEL_M == reg & !FM_CE_SEL_M
    ensures ((reg & !FM_CE_SEL_M) | ce) & FM_CE_SEL_M == ce
  {
  }

  /** Bit `k` of the chip-enable field after selecting `chipnr` is set exactly when `k == chipnr`. */
  lemma CeSelectOneHot(reg: bv32, chipnr: int, k: int)
    requires -1 <= chipnr < 8 && 0 <= k < 8
    ensures (CeSelect(reg, chipnr) >> k) & 1 == 1 <==> k == chipnr
  {
    if chipnr == -1 {
    } else if chipnr == 0 {
    } else if chipnr == 1 {
    } else if chipnr == 2 {
    } else if chipnr == 3 {
    } else if chipnr == 4 {
    } else if chipnr == 5 {
    } else if chipnr == 6 {
    } else {
    }
  }

  /** A later select overrides an earlier one: only the last chip-enable choice survives. */
  lemma CeReselect(reg: bv32, first: int, second: int)
    requires -1 <= first < 8 && -1 <= second < 8
    ensures CeSelect(CeSelect(reg, first), second) == CeSelect(reg, second)
  {
    ReplaceField(reg, CeBits(first), CeBits(second));
  }

  lemma ReplaceField(reg: bv32, a: bv32, b: bv32)
    requires a & !FM_CE_SEL_M == 0
    ensures (((reg & !FM_CE_SEL_M) | a) & !FM_CE_SEL_M) | b == (reg & !FM_CE_SEL_M) | b
  {
  }

  /** The FREADY bit a read of FMCTL shows: set once no "busy" poll remains. */
  function ReadyBit(busy: nat): bv32
  {
    if busy == 0 then FM_FREADY else 0
  }

  /** What FMCTL keeps of a written word: FREADY is read-only status. */
  function Latched(v: bv32): (r: bv32)
    ensures !HasBit(r, FM_FREADY)
  {
    v & !FM_FREADY
  }

  /** A read of FMCTL shows the control bits, and FREADY exactly when the chip is ready or FREADY is among them. */
  lemma ReadyRead(fmctl: bv32, busy: nat)
    ensures (fmctl | ReadyBit(busy)) & !FM_FREADY == fmctl & !FM_FREADY
    ensures HasBit(fmctl | ReadyBit(busy), FM_FREADY) <==> busy == 0 || HasBit(fmctl, FM_FREADY)
  {
    ReadyOr(fmctl, ReadyBit(busy));
  }

  lemma ReadyOr(f: bv32, r: bv32)
    requires r == 0 || r == FM_FREADY
    ensures (f | r) & !FM_FREADY == f & !FM_FREADY
    ensures (f | r) & FM_FREADY != 0 <==> r == FM_FREADY || f & FM_FREADY != 0
  {
  }

  /**
   * The word a chip select writes back to FMCTL: the select of `chipnr`
   * applied to the word it read, which is the control bits `fmctl` plus the
   * FREADY status seen with `busy` polls of "busy" left.
   */
  function SelectWord(fmctl: bv32, busy: nat, chipnr: int): bv32
    requires -1 <= chipnr < 8
  {
    CeSelect(fmctl | ReadyBit(busy), chipnr)
  }

  /** Without its FREADY bit, the written word is the select of the control bits. */
  lemma SelectWordLatched(fmctl: bv32, busy: nat, chipnr: int)
    requires -1 <= chipnr < 8 && fmctl & FM_FREADY == 0
    ensures Latched(SelectWord(fmctl, busy, chipnr)) == CeSelect(fmctl, chipnr)
  {
    ReadyMask(fmctl, ReadyBit(busy), CeBits(chipnr));
  }

  /** The written word carries FREADY exactly when the chip was ready at the read. */
  lemma SelectWordReady(fmctl: bv32, busy: nat, chipnr: int)
    requires -1 <= chipnr < 8 && fmctl & FM_FREADY == 0
    ensures HasBit(SelectWord(fmctl, busy, chipnr), FM_FREADY) <==> busy == 0
  {
    ReadyMask(fmctl, ReadyBit(busy), CeBits(chipnr));
  }

  lemma ReadyMask(f: bv32, r: bv32, ce: bv32)
    requires ce & !FM_CE_SEL_M == 0 && f & FM_FREADY == 0 && (r == 0 || r == FM_FREADY)
    ensures (((f | r) & !FM_CE_SEL_M) | ce) & !FM_FREADY == (f & !FM_CE_SEL_M) | ce
    ensures (((f | r) & !FM_CE_SEL_M) | ce) & FM_FREADY == r
  {
  }

  /** Whatever the ready status, the chip-enable field of the written word is exactly the bit of `chipnr`. */
  lemma SelectWordCe(fmctl: bv32, busy: nat, chipnr: int)
    requires -1 <= chipnr < 8
    ensures SelectWord(fmctl, busy, chipnr) & FM_CE_SEL_M == CeBits(chipnr)
  {
    CeSelectFields(fmctl | ReadyBit(busy), chipnr);
  }

  /**
   * First FLCTL word of a transfer start: direction, staging-buffer half,
   * transfer enable, one-granule count and auto-correct; never the start bit.
   */
  function XferWord(dir: int, stBuf: int): bv32
    requires 0 <= dir <= 1 && 0 <= stBuf <= 1
  {
    (if dir == 1 then 1 << FL_DIR_S else 0) | (if stBuf == 1 then 1 << FL_ST_BUF_S else 0)
      | FL_XFER_EN | FL_XFER_COUNT | FL_ACORRECT
  }

  /**
   * The first transfer word carries the direction in bit 1 and the half in
   * bit 4, sets transfer enable, count and auto-correct, and sets nothing
   * else; in particular not the start bit.
   */
  lemma XferWordBits(dir: int, stBuf: int)
    requires 0 <= dir <= 1 && 0 <= stBuf <= 1
    ensures XferWord(dir, stBuf) & FL_XFER_START == 0
    ensures XferWord(dir, stBuf) & (FL_XFER_EN | FL_XFER_COUNT | FL_ACORRECT) == FL_XFER_EN | FL_XFER_COUNT | FL_ACORRECT
    ensures (XferWord(dir, stBuf) >> FL_DIR_S) & 1 == if dir == 1 then 1 else 0
    ensures (XferWord(dir, stBuf) >> FL_ST_BUF_S) & 1 == if stBuf == 1 then 1 else 0
    ensures XferWord(dir, stBuf) & !(0x2 | 0x10 | FL_XFER_EN | FL_XFER_COUNT | FL_ACORRECT) == 0
  {
  }

  /** Second FLCTL word of a transfer start: the first word plus the start bit. */
  function StartWord(dir: int, stBuf: int): bv32
    requires 0 <= dir <= 1 && 0 <= stBuf <= 1
  {
    XferWord(dir, stBuf) | FL_XFER_START
  }

  /** Some bit of `mask` is set in `w`. */
  predicate HasBit(w: bv32, mask: bv32)
  {
    w & mask != 0
  }

  /** The staging half a FLCTL word selects. */
  function HalfOf(w: bv32): (h: nat)
    ensures h < 2
    ensures h == 1 <==> w & 0x10 != 0
  {
    if (w >> FL_ST_BUF_S) & 1 == 1 then 1 else 0
  }

  /** The second FLCTL word adds only the start bit and still selects the half of the first. */
  lemma StartWordSelectsHalf(dir: int, stBuf: int)
    requires 0 <= dir <= 1 && 0 <= stBuf <= 1
    ensures StartWord(dir, stBuf) & !FL_XFER_START == XferWord(dir, stBuf)
    ensures HasBit(StartWord(dir, stBuf), FL_XFER_START) && !HasBit(XferWord(dir, stBuf), FL_XFER_START)
    ensures HalfOf(StartWord(dir, stBuf)) == stBuf
  {
    XferWordBits(dir, stBuf);
  }

  /** BCHCTL with the BCH region field (bits 5..7) cleared and every other bit kept. */
  function ClearRegion(reg: bv32): bv32
  {
    reg & !(BCH_REGION_M << BCH_REGION_S)
  }

  /** Clearing the region field zeroes bits 5..7 and keeps all other bits. */
  lemma ClearRegionBits(reg: bv32)
    ensures ClearRegion(reg) & 0xE0 == 0
    ensures ClearRegion(reg) & !0xE0 == reg & !0xE0
  {
  }

  /** Clearing the region field twice is clearing it once, so every transfer start writes the same BCHCTL word. */
  lemma ClearRegionIdempotent(reg: bv32)
    ensures ClearRegion(ClearRegion(reg)) == ClearRegion(reg)
  {
  }

  /** Corrected-bit count of ECC channel 0 (`NANDC_V6_ECC_ERR_CNT0`). */
  function EccErrCnt0(x: bv32): bv32
  {
    (((x & (0x1F << 3)) >> 3) | ((x & (1 << 27)) >> 22)) & 0x3F
  }

  /** Bits 3..7 of BCHST give bits 0..4 of the channel-0 count and bit 27 gives bit 5; nothing else. */
  lemma EccErrCnt0Fields(x: bv32)
    ensures EccErrCnt0(x) & 0x1F == (x >> 3) & 0x1F
    ensures (EccErrCnt0(x) >> 5) & 1 == (x >> 27) & 1
    ensures EccErrCnt0(x) >> 6 == 0 && EccErrCnt0(x) <= 63
  {
  }

  /** The channel-0 count as a number: at most 63. */
  function ErrCount0(x: bv32): (n: nat)
    ensures n <= 63
  {
    EccErrCnt0Fields(x);
    EccErrCnt0(x) as int
  }

  /** Corrected-bit count of ECC channel 1 (`NANDC_V6_ECC_ERR_CNT1`). */
  function EccErrCnt1(x: bv32): bv32
  {
    (((x & (0x1F << 16)) >> 16) | ((x & (1 << 29)) >> 24)) & 0x3F
  }

  /** Bits 16..20 of BCHST give bits 0..4 of the channel-1 count and bit 29 gives bit 5; nothing else. */
  lemma EccErrCnt1Fields(x: bv32)
    ensures EccErrCnt1(x) & 0x1F == (x >> 16) & 0x1F
    ensures (EccErrCnt1(x) >> 5) & 1 == (x >> 29) & 1
    ensures EccErrCnt1(x) >> 6 == 0 && EccErrCnt1(x) <= 63
  {
  }

  /** An `unsigned int` returned through an `int`: two's complement reinterpretation. */
  function Signed(v: u32): (r: int)
    ensures -0x8000_0000 <= r < 0x8000_0000
    ensures r >= 0 <==> v < 0x8000_0000
    ensures r % 0x1_0000_0000 == v
  {
    if v < 0x8000_0000 then v else v - 0x1_0000_0000
  }

  /** Unsigned maximum, as `max_t(unsigned int, a, b)`. */
  function MaxU(a: u32, b: u32): (r: u32)
    ensures a <= r && b <= r && (r == a || r == b)
  {
    if a > b then a else b
  }

  /**
   * The five address cycles of a page access: two column bytes then three
   * row bytes, least significant first, each truncated to 8 bits as a byte
   * write does.
   */
  function AddressCycles(page: nat, col: nat): (a: seq<byte>)
    ensures |a| == 5
  {
    [col % 256, (col / 256) % 256, page % 256, (page / 256) % 256, (page / 65536) % 256]
  }

  /** Column the chip assembles from the two column cycles. */
  function ColumnOf(a: seq<byte>): nat
    requires |a| == 5
  {
    a[0] as int + 256 * a[1] as int
  }

  /** Row (page) the chip assembles from the three row cycles. */
  function RowOf(a: seq<byte>): nat
    requires |a| == 5
  {
    a[2] as int + 256 * a[3] as int + 65536 * a[4] as int
  }

  /** Row addresses are 24 bits wide: the chip sees the page number modulo 2^24. */
  function Row(page: nat): nat
  {
    page % 0x100_0000
  }

  /** Column addresses are 16 bits wide. */
  function Column(col: nat): nat
  {
    col % 0x1_0000
  }

  /** Decoding the emitted address cycles gives back the page and the column, truncated to 24 and 16 bits. */
  lemma AddressRoundTrip(page: nat, col: nat)
    ensures RowOf(AddressCycles(page, col)) == Row(page)
    ensures ColumnOf(AddressCycles(page, col)) == Column(col)
  {
    var a := AddressCycles(page, col);
    ByteSplit(page);
    ByteSplit(page / 256);
    assert page / 65536 == (page / 256) / 256;
    Mod65536(page);
    ByteSplit(col);
    assert a[4] as int == (page / 65536) % 256;
  }

  lemma ByteSplit(x: nat)
    ensures x == 256 * (x / 256) + x % 256
    ensures x % 65536 == x % 256 + 256 * ((x / 256) % 256)
  {
  }

  lemma Mod65536(x: nat)
    ensures x % 0x100_0000 == x % 65536 + 65536 * ((x / 65536) % 256)
  {
    var q := x / 65536;
    assert x == 65536 * q + x % 65536;
    assert q == 256 * (q / 256) + q % 256;
    assert x == 0x100_0000 * (q / 256) + (65536 * (q % 256) + x % 65536);
    assert 0 <= 65536 * (q % 256) + x % 65536 < 0x100_0000;
  }
}
