/**
 * `is_badblock`: a block is taken as bad only when the page read of its
 * first page fails and the first eight bytes of that page's spare area all
 * read back as zero.
 */
module BadBlock {
  import opened Regs
  import opened Hw
  import opened Protocol
  import opened NandContext
  import opened PageReader
  import opened PageFacts

  /** How many spare-area bytes the probe samples. */
  const MARKER_BYTES: nat := 8

  /** Byte `k` of the spare area of `page`: the raw cell right after the page data (column `pageSize`). */
  function Marker(chip: Chip, page: nat, pageSize: nat, k: nat): byte
  {
    chip.cell(Row(page), Column(pageSize) + k)
  }

  /** The first of the sampled bytes at or after `i` that is not zero; `MARKER_BYTES` when they all are. */
  function FirstMark(chip: Chip, page: nat, pageSize: nat, i: nat): (r: nat)
    requires i <= MARKER_BYTES
    decreases MARKER_BYTES - i
    ensures i <= r <= MARKER_BYTES
    ensures forall k :: i <= k < r ==> Marker(chip, page, pageSize, k) == 0
    ensures r < MARKER_BYTES ==> Marker(chip, page, pageSize, r) != 0
  {
    if i == MARKER_BYTES then MARKER_BYTES
    else if Marker(chip, page, pageSize, i) != 0 then i
    else FirstMark(chip, page, pageSize, i + 1)
  }

  /** The factory marker: all sampled bytes are zero. */
  predicate MarkedBad(chip: Chip, page: nat, pageSize: nat)
  {
    forall k :: 0 <= k < MARKER_BYTES ==> Marker(chip, page, pageSize, k) == 0
  }

  /** The verdict `is_badblock` reaches for the block starting at `page`. */
  predicate BadVerdict(chip: Chip, geo: Geometry, page: nat)
    requires geo.Valid()
  {
    PageResult(chip, Row(page), geo.Steps()) == -1 && MarkedBad(chip, page, geo.pageSize)
  }

  /** Data-port reads the sampling loop makes: up to and including the first nonzero byte. */
  function ProbeReads(chip: Chip, page: nat, pageSize: nat): nat
  {
    var m := FirstMark(chip, page, pageSize, 0);
    if m < MARKER_BYTES then m + 1 else MARKER_BYTES
  }

  /**
   * The events of the marker probe: select chip 0 (with `busy` polls of
   * "busy" left), a read command at column `pageSize`, the samples, select
   * chip 0 again (with what the wait for the chip left).
   */
  function ProbeEvents(fmctl: bv32, busy: nat, chip: Chip, page: nat, pageSize: nat): seq<Event>
  {
    [FmctlWrite(SelectWord(fmctl, busy, 0))] + ReadCycles(page, pageSize)
      + DataCycles(ProbeReads(chip, page, pageSize))
      + [FmctlWrite(SelectWord(CeSelect(fmctl, 0), Settled(chip.busyPolls(Row(page))), 0))]
  }

  /**
   * `is_badblock(page)`: read the page into the scratch buffer; only if
   * that read returns -1, probe the spare-area marker. The result is 1
   * exactly for `BadVerdict`; the scratch buffer holds what the page read
   * left there.
   */
  method IsBadBlock(nand: RkNand, geo: Geometry, page: nat) returns (res: int)
    requires nand.Valid() && geo.Valid() && nand.databuf.Length == geo.pageSize
    modifies nand.regs, nand.databuf
    ensures nand.regs.Valid()
    ensures res == if BadVerdict(nand.regs.chip, geo, page) then 1 else 0
    ensures nand.databuf[..] == PageWrite(old(nand.databuf[..]), 0, nand.regs.chip, Row(page), geo.Steps())
    ensures var chip, n := nand.regs.chip, geo.Steps();
      var t := ReadPageEvents(old(nand.regs.fmctl), old(nand.regs.bchctl), old(nand.regs.busy), chip, page, Stall(chip, Row(page), 0, n), n);
      nand.regs.trace == old(nand.regs.trace) + t
        + if PageResult(chip, Row(page), n) == -1
          then ProbeEvents(AfterRead(old(nand.regs.fmctl), chip, Row(page), n), BusyAfterRead(chip, Row(page), n), chip, page, geo.pageSize)
          else []
    ensures nand.regs.fmwait == old(nand.regs.fmwait)
  {
    var hw := nand.regs;
    res := 0;
    var r := ReadPage(hw, geo, page, nand.databuf, 0);
    if r == -1 {
      res := ProbeMarker(hw, page, geo.pageSize);
    }
  }

  /**
   * The marker probe of `is_badblock`: select chip 0, send a read of
   * `page` at column `pageSize`, wait for the chip, sample the spare
   * bytes, select chip 0 again. 1 when all eight samples are zero.
   */
  method ProbeMarker(hw: Nandc, page: nat, pageSize: nat) returns (res: int)
    requires hw.Valid()
    modifies hw`fmctl, hw`busy, hw`trace, hw`mode, hw`addr, hw`port, hw`xfers
    ensures hw.Valid()
    ensures res == if MarkedBad(hw.chip, page, pageSize) then 1 else 0
    ensures hw.fmctl == CeSelect(CeSelect(old(hw.fmctl), 0), 0)
    ensures hw.busy == Polled(Settled(hw.chip.busyPolls(Row(page))))
    ensures hw.trace == old(hw.trace) + ProbeEvents(old(hw.fmctl), old(hw.busy), hw.chip, page, pageSize)
  {
    ghost var f0, b0, t0 := hw.fmctl, hw.busy, hw.trace;
    SelectChip(hw, 0);
    SendReadPage(hw, page, pageSize);
    WaitDevReady(hw);
    res := SampleMarker(hw, page, pageSize);
    SelectChip(hw, 0);
    ProbeTrace(t0, f0, b0, hw.chip, page, pageSize);
  }

  /** The probe's events assembled from its parts. */
  lemma ProbeTrace(t0: seq<Event>, f0: bv32, b0: nat, chip: Chip, page: nat, pageSize: nat)
    ensures var w1, w2 := SelectWord(f0, b0, 0), SelectWord(CeSelect(f0, 0), Settled(chip.busyPolls(Row(page))), 0);
      t0 + [FmctlWrite(w1)] + ReadCycles(page, pageSize) + DataCycles(ProbeReads(chip, page, pageSize))
        + [FmctlWrite(w2)] == t0 + ProbeEvents(f0, b0, chip, page, pageSize)
  {
    var w1, w2 := SelectWord(f0, b0, 0), SelectWord(CeSelect(f0, 0), Settled(chip.busyPolls(Row(page))), 0);
    var rc, dc := ReadCycles(page, pageSize), DataCycles(ProbeReads(chip, page, pageSize));
    Regroup(t0, [FmctlWrite(w1)], rc, dc, [FmctlWrite(w2)]);
  }

  lemma Regroup<T>(t0: seq<T>, a: seq<T>, b: seq<T>, c: seq<T>, d: seq<T>)
    ensures t0 + a + b + c + d == t0 + (a + b + c + d)
  {
    assert t0 + a + b + c + d == t0 + (a + b) + c + d;
    assert t0 + (a + b) + c + d == t0 + (a + b + c) + d;
  }

  /** The sampling loop: read up to eight bytes, stopping at the first nonzero one; 1 if none was. */
  method SampleMarker(hw: Nandc, page: nat, pageSize: nat) returns (res: int)
    requires hw.mode == PageRead(Row(page), Column(pageSize)) && hw.port == 0
    modifies hw`port, hw`trace
    ensures res == if MarkedBad(hw.chip, page, pageSize) then 1 else 0
    ensures hw.trace == old(hw.trace) + DataCycles(ProbeReads(hw.chip, page, pageSize))
  {
    ghost var m := FirstMark(hw.chip, page, pageSize, 0);
    var i := 0;
    while i < MARKER_BYTES
      invariant i <= m
      invariant hw.port == i && hw.mode == old(hw.mode)
      invariant hw.trace == old(hw.trace) + DataCycles(i)
    {
      var bad := hw.ReadData();
      assert bad == Marker(hw.chip, page, pageSize, i);
      if bad != 0 {
        break;
      }
      i := i + 1;
    }
    res := if i >= MARKER_BYTES then 1 else 0;
  }

  /**
   * The verdict in the terms of the chip: a block is bad exactly when its
   * first page loses a granule or has an uncorrectable one, and all eight
   * marker bytes are zero. An erased spare area (0xFF) never makes a block bad.
   */
  lemma BadVerdictCases(chip: Chip, geo: Geometry, page: nat)
    requires geo.Valid()
    ensures BadVerdict(chip, geo, page) <==>
      (Stall(chip, Row(page), 0, geo.Steps()) < geo.Steps() || Uncorrectable(chip, Row(page), geo.Steps()))
      && forall k :: 0 <= k < MARKER_BYTES ==> Marker(chip, page, geo.pageSize, k) == 0
    ensures Marker(chip, page, geo.pageSize, 0) == 0xFF ==> !BadVerdict(chip, geo, page)
  {
    PageResultCases(chip, Row(page), geo.Steps());
  }

  /** The sampling loop reads one to eight bytes; it sees the whole marker exactly when every sampled byte is zero. */
  lemma ProbeReadsCases(chip: Chip, page: nat, pageSize: nat)
    ensures 1 <= ProbeReads(chip, page, pageSize) <= MARKER_BYTES
    ensures MarkedBad(chip, page, pageSize) <==> FirstMark(chip, page, pageSize, 0) == MARKER_BYTES
  {
  }
}
