/**
 * `nandc_read_page`: one page read as a ping-pong pipeline over the page's
 * 1024-byte ECC granules, returning the worst corrected-bit count of the
 * page, or -1 for an uncorrectable granule or a transfer-wait failure.
 *
 * The specification functions below describe, from the chip oracle alone,
 * what the read returns (`PageResult`), which bytes it writes (`PageData`,
 * up to the step where it stops, `Stall`) and the bus events it produces
 * (`ReadPageEvents`); `ReadPage` is proved against them.
 */
module PageReader {
  import opened Regs
  import opened Hw
  import opened Protocol
  import opened NandContext

  /** The wait for granule `s` reports failure: the transfer turns ready on the last of its polls. */
  predicate TimesOut(chip: Chip, row: nat, s: nat)
  {
    chip.xferPolls(row, s) == DEF_TIMEOUT - 1
  }

  /** The first step at or after `s`, below `n`, whose wait fails; `n` when none does. */
  function Stall(chip: Chip, row: nat, s: nat, n: nat): (r: nat)
    requires s <= n
    decreases n - s
    ensures s <= r <= n
    ensures forall t :: s <= t < r ==> !TimesOut(chip, row, t)
    ensures r < n ==> TimesOut(chip, row, r)
  {
    if s == n then n else if TimesOut(chip, row, s) then s else Stall(chip, row, s + 1, n)
  }

  /** BCH channel 0 flags granule `s` as uncorrectable. */
  predicate Failed(chip: Chip, row: nat, s: nat)
  {
    HasBit(chip.status(row, s), BCH0_ST_ERR)
  }

  /** Some granule below `k` is uncorrectable. */
  predicate Uncorrectable(chip: Chip, row: nat, k: nat)
  {
    exists s :: 0 <= s < k && Failed(chip, row, s)
  }

  /** Corrected-bit count that BCH channel 0 reports for granule `s`. */
  function Count(chip: Chip, row: nat, s: nat): (c: nat)
    ensures c <= 63
  {
    ErrCount0(chip.status(row, s))
  }

  /** The largest corrected-bit count among the granules below `k` (0 for none). */
  function MaxCount(chip: Chip, row: nat, k: nat): (m: nat)
    ensures m <= 63
  {
    if k == 0 then 0 else MaxU(MaxCount(chip, row, k - 1), Count(chip, row, k - 1))
  }

  /** `max_bitflips` once `k` granules are accounted for: all ones once any is uncorrectable. */
  function Bitflips(chip: Chip, row: nat, k: nat): u32
  {
    if Uncorrectable(chip, row, k) then 0xFFFF_FFFF else MaxCount(chip, row, k)
  }

  /** What reading a page of `n` granules at `row` returns. */
  function PageResult(chip: Chip, row: nat, n: nat): int
  {
    if Stall(chip, row, 0, n) < n then -1 else Signed(Bitflips(chip, row, n))
  }

  /** The corrected data of the first `k` granules of `row`, in granule order. */
  function PageData(chip: Chip, row: nat, k: nat): (d: seq<byte>)
    ensures |d| == k * SRAM_SIZE
  {
    if k == 0 then [] else PageData(chip, row, k - 1) + chip.granule(row, k - 1)
  }

  /** The events of loop step `s` of `n`: start of the next granule unless `s` is last, then the copy of half `s % 2`. */
  function StepEvents(bchctl: bv32, s: nat, n: nat): seq<Event>
  {
    (if s + 1 < n then StartWrites(bchctl, NANDC_READ, (s + 1) % 2) else []) + [Drain(s % 2)]
  }

  /** The events of loop steps 0 .. k-1. */
  function LoopEvents(bchctl: bv32, k: nat, n: nat): seq<Event>
  {
    if k == 0 then [] else LoopEvents(bchctl, k - 1, n) + StepEvents(bchctl, k - 1, n)
  }

  /**
   * Select chip 0 (the FMCTL word read back, with `busy` polls of "busy"
   * left), send the read command at column 0, start granule 0 into half 0.
   */
  function OpeningEvents(fmctl: bv32, bchctl: bv32, busy: nat, page: nat): seq<Event>
  {
    [FmctlWrite(SelectWord(fmctl, busy, 0))] + ReadCycles(page, 0) + StartWrites(ClearRegion(bchctl), NANDC_READ, 0)
  }

  /**
   * All events of a page read that runs `done` of its `n` loop steps; a
   * read that completes them all ends by deselecting every chip, with the
   * FREADY status left by the wait for the chip.
   */
  function ReadPageEvents(fmctl: bv32, bchctl: bv32, busy: nat, chip: Chip, page: nat, done: nat, n: nat): seq<Event>
  {
    OpeningEvents(fmctl, bchctl, busy, page) + LoopEvents(ClearRegion(bchctl), done, n)
      + (if done == n then [FmctlWrite(SelectWord(CeSelect(fmctl, 0), Settled(chip.busyPolls(Row(page))), -1))] else [])
  }

  /**
   * Buffer `b` after a read of `n` granules of `row` into `b[off ..]`: the
   * granules the read got through are written there in order, and every
   * other byte is kept.
   */
  function PageWrite(b: seq<byte>, off: nat, chip: Chip, row: nat, n: nat): (r: seq<byte>)
    requires off + n * SRAM_SIZE <= |b|
    ensures |r| == |b|
  {
    var done := Stall(chip, row, 0, n);
    b[..off] + PageData(chip, row, done) + b[off + done * SRAM_SIZE..]
  }

  /** FMCTL after a page read: chip 0 stays selected after a failed wait, every chip is deselected otherwise. */
  function AfterRead(fmctl: bv32, chip: Chip, row: nat, n: nat): bv32
  {
    if Stall(chip, row, 0, n) == n then CeSelect(CeSelect(fmctl, 0), -1) else CeSelect(fmctl, 0)
  }

  /** "Busy" polls left after a page read: the wait for the chip, then one more FMCTL read for a read that deselects. */
  function BusyAfterRead(chip: Chip, row: nat, n: nat): nat
  {
    var settled := Settled(chip.busyPolls(row));
    if Stall(chip, row, 0, n) == n then Polled(settled) else settled
  }

  /**
   * `nandc_read_page(page, buf + off)`: the result is `PageResult`; the
   * granules the read got through land in order at `buf[off ..]` and nothing
   * else in `buf` changes; the bus sees `ReadPageEvents`.
   */
  method ReadPage(hw: Nandc, geo: Geometry, page: nat, buf: array<byte>, off: nat) returns (ret: int)
    requires hw.Valid() && geo.Valid() && off + geo.pageSize <= buf.Length
    modifies hw`fmctl, hw`busy, hw`trace, hw`mode, hw`addr, hw`port, hw`xfers, hw`bchctl, hw`flctl, hw`sram, hw`bchst, hw`pending, buf
    ensures hw.Valid() && hw.mode == PageRead(Row(page), 0)
    ensures ret == PageResult(hw.chip, Row(page), geo.Steps())
    ensures buf[..] == PageWrite(old(buf[..]), off, hw.chip, Row(page), geo.Steps())
    ensures hw.trace == old(hw.trace)
      + ReadPageEvents(old(hw.fmctl), old(hw.bchctl), old(hw.busy), hw.chip, page, Stall(hw.chip, Row(page), 0, geo.Steps()), geo.Steps())
    ensures hw.fmctl == AfterRead(old(hw.fmctl), hw.chip, Row(page), geo.Steps())
    ensures hw.busy == BusyAfterRead(hw.chip, Row(page), geo.Steps())
    ensures hw.fmwait == old(hw.fmwait)
  {
    var eccStep := geo.pageSize / SRAM_SIZE;
    ghost var t0 := hw.trace;
    StartPage(hw, page);
    ghost var t1 := hw.trace;
    ret := ReadRest(hw, eccStep, buf, off, Row(page));
    ReadPageTrace(t0, t1, hw.trace, old(hw.fmctl), old(hw.bchctl), old(hw.busy), hw.chip, page, eccStep);
  }

  /** The log of a page read is the opening, then the loop and deselect of `ReadRest`. */
  lemma ReadPageTrace(t0: seq<Event>, t1: seq<Event>, t2: seq<Event>, fmctl: bv32, bchctl: bv32, busy: nat,
                      chip: Chip, page: nat, n: nat)
    requires t1 == t0 + OpeningEvents(fmctl, bchctl, busy, page)
    requires var done := Stall(chip, Row(page), 0, n);
      t2 == t1 + LoopEvents(ClearRegion(bchctl), done, n)
        + (if done == n then [FmctlWrite(SelectWord(CeSelect(fmctl, 0), Settled(chip.busyPolls(Row(page))), -1))] else [])
    ensures t2 == t0 + ReadPageEvents(fmctl, bchctl, busy, chip, page, Stall(chip, Row(page), 0, n), n)
  {
  }

  /**
   * `nandc_read_page` from granule 0 staged on: the granule loop, then, if
   * it ran to the end, the deselect of every chip and `max_bitflips` as an
   * `int`.
   */
  method ReadRest(hw: Nandc, n: nat, buf: array<byte>, off: nat, ghost row: nat) returns (ret: int)
    requires n >= 1 && hw.mode == PageRead(row, 0) && Staged(hw, row, 0)
    requires hw.bchctl == ClearRegion(hw.bchctl) && off + n * SRAM_SIZE <= buf.Length
    modifies hw`fmctl, hw`busy, hw`bchctl, hw`flctl, hw`sram, hw`bchst, hw`pending, hw`xfers, hw`trace, buf
    ensures hw.Valid() && hw.mode == old(hw.mode)
    ensures ret == PageResult(hw.chip, row, n)
    ensures var done := Stall(hw.chip, row, 0, n);
      && buf[..] == old(buf[..off]) + PageData(hw.chip, row, done) + old(buf[off + done * SRAM_SIZE..])
      && hw.trace == old(hw.trace) + LoopEvents(old(hw.bchctl), done, n)
        + (if done == n then [FmctlWrite(SelectWord(old(hw.fmctl), old(hw.busy), -1))] else [])
      && hw.fmctl == (if done == n then CeSelect(old(hw.fmctl), -1) else old(hw.fmctl))
      && hw.busy == (if done == n then Polled(old(hw.busy)) else old(hw.busy))
  {
    var maxBitflips;
    ret, maxBitflips := ReadGranules(hw, n, buf, off, row);
    if ret != 0 {
      return;
    }
    SelectChip(hw, -1);
    return Signed(maxBitflips);
  }

  /**
   * The granule loop of `nandc_read_page`, from granule 0 staged: it runs
   * until a wait fails (result -1) or all `n` granules are copied (result 0,
   * with `max_bitflips` accounting for all of them).
   */
  method ReadGranules(hw: Nandc, n: nat, buf: array<byte>, off: nat, ghost row: nat) returns (ret: int, maxBitflips: u32)
    requires n >= 1 && hw.mode == PageRead(row, 0) && Staged(hw, row, 0)
    requires hw.bchctl == ClearRegion(hw.bchctl) && off + n * SRAM_SIZE <= buf.Length
    modifies hw`bchctl, hw`flctl, hw`sram, hw`bchst, hw`pending, hw`xfers, hw`trace, buf
    ensures hw.Valid() && hw.bchctl == old(hw.bchctl) && hw.mode == old(hw.mode) && hw.fmctl == old(hw.fmctl)
    ensures var done := Stall(hw.chip, row, 0, n);
      && ret == (if done < n then -1 else 0)
      && (done == n ==> maxBitflips == Bitflips(hw.chip, row, n))
      && buf[..] == old(buf[..off]) + PageData(hw.chip, row, done) + old(buf[off + done * SRAM_SIZE..])
      && hw.trace == old(hw.trace) + LoopEvents(hw.bchctl, done, n)
  {
    ghost var l := Loop(buf[..], hw.trace, row);
    maxBitflips := 0;
    var step := 0;
    ProgressStart(hw, buf, l, off, n);
    while step < n
      invariant hw.bchctl == old(hw.bchctl) && Progress(hw, buf, l, off, n, step, maxBitflips)
    {
      var r;
      r, maxBitflips := ReadStep(hw, buf, off, n, step, maxBitflips, l);
      if r != 0 {
        return r, maxBitflips;
      }
      step := step + 1;
    }
    return 0, maxBitflips;
  }

  /** Before the first turn, nothing is copied, nothing logged, and `max_bitflips` is 0. */
  lemma ProgressStart(hw: Nandc, buf: array<byte>, l: Loop, off: nat, n: nat)
    requires n >= 1 && hw.mode == PageRead(l.row, 0) && Staged(hw, l.row, 0)
    requires hw.bchctl == ClearRegion(hw.bchctl) && off + n * SRAM_SIZE <= buf.Length
    requires l.buf0 == buf[..] && l.trace0 == hw.trace
    ensures Progress(hw, buf, l, off, n, 0, 0)
  {
    assert buf[..] == l.buf0[..off] + PageData(hw.chip, l.row, 0) + l.buf0[off + 0 * SRAM_SIZE..];
  }

  /** What the granule loop started from: the buffer and the log before it, and the row it reads. */
  datatype Loop = Loop(buf0: seq<byte>, trace0: seq<Event>, row: nat)

  /**
   * The loop has got through `step` granules of the page: none of their
   * waits failed, they sit in `buf` in order, their events are logged,
   * `max_bitflips` accounts for them, and the next one (if any) is staged.
   */
  ghost predicate Progress(hw: Nandc, buf: array<byte>, l: Loop, off: nat, n: nat, step: nat, maxBitflips: u32)
    reads hw, buf
  {
    && step <= n && step <= Stall(hw.chip, l.row, 0, n)
    && hw.Valid() && hw.mode == PageRead(l.row, 0) && hw.bchctl == ClearRegion(hw.bchctl)
    && (step < n ==> Staged(hw, l.row, step))
    && maxBitflips == Bitflips(hw.chip, l.row, step)
    && |l.buf0| == buf.Length && off + n * SRAM_SIZE <= buf.Length
    && buf[..] == l.buf0[..off] + PageData(hw.chip, l.row, step) + l.buf0[off + step * SRAM_SIZE..]
    && hw.trace == l.trace0 + LoopEvents(hw.bchctl, step, n)
  }

  /**
   * The first half of the opening of `nandc_read_page`: select chip 0, send
   * the read command for column 0 and wait for the chip.
   */
  method OpenRow(hw: Nandc, page: nat)
    requires hw.Valid()
    modifies hw`fmctl, hw`busy, hw`trace, hw`mode, hw`addr, hw`port, hw`xfers
    ensures hw.Valid() && hw.mode == PageRead(Row(page), 0) && hw.xfers == 0
    ensures hw.fmctl == CeSelect(old(hw.fmctl), 0)
    ensures hw.trace == old(hw.trace) + [FmctlWrite(SelectWord(old(hw.fmctl), old(hw.busy), 0))] + ReadCycles(page, 0)
    ensures hw.busy == Settled(hw.chip.busyPolls(Row(page)))
  {
    SelectChip(hw, 0);
    SendReadPage(hw, page, 0);
    WaitDevReady(hw);
  }

  /**
   * The opening of `nandc_read_page`: select chip 0, send the read command
   * for column 0, wait for the chip, and start granule 0 into half 0.
   */
  method StartPage(hw: Nandc, page: nat)
    requires hw.Valid()
    modifies hw`fmctl, hw`busy, hw`trace, hw`mode, hw`addr, hw`port, hw`xfers, hw`bchctl, hw`flctl, hw`sram, hw`bchst, hw`pending
    ensures hw.mode == PageRead(Row(page), 0) && Staged(hw, Row(page), 0)
    ensures hw.bchctl == ClearRegion(old(hw.bchctl)) && hw.bchctl == ClearRegion(hw.bchctl)
    ensures hw.fmctl == CeSelect(old(hw.fmctl), 0)
    ensures hw.trace == old(hw.trace) + OpeningEvents(old(hw.fmctl), old(hw.bchctl), old(hw.busy), page)
    ensures hw.busy == Settled(hw.chip.busyPolls(Row(page))) && hw.fmwait == old(hw.fmwait)
  {
    OpenRow(hw, page);
    PioXferStart(hw, NANDC_READ, 0);
    ClearRegionIdempotent(old(hw.bchctl));
  }

  /** Granule `s` of `row` sits in half `s % 2`, and it is the last granule started. */
  ghost predicate Landed(hw: Nandc, row: nat, s: nat)
    reads hw
  {
    && hw.Valid()
    && hw.xfers == s + 1
    && Half(hw.sram, s % 2) == hw.chip.granule(row, s)
  }

  /** Granule `s` of `row` is staged in half `s % 2`, its ECC status posted, its wait about to begin. */
  ghost predicate Staged(hw: Nandc, row: nat, s: nat)
    reads hw
  {
    && Landed(hw, row, s)
    && hw.bchst == hw.chip.status(row, s)
    && hw.pending == hw.chip.xferPolls(row, s)
  }

  /**
   * One turn of the granule loop of `nandc_read_page`: wait for granule
   * `step`, fold its ECC status into `max_bitflips`, start the next granule
   * into the other half (unless this one is last), and copy this one out to
   * `buf[off + 1024 * step ..]`. A failed wait returns -1 before any of that,
   * and it is the wait at which the read stalls.
   */
  method ReadStep(hw: Nandc, buf: array<byte>, off: nat, n: nat, step: nat, maxIn: u32, ghost l: Loop) returns (ret: int, maxOut: u32)
    requires step < n && Progress(hw, buf, l, off, n, step, maxIn)
    modifies hw`bchctl, hw`flctl, hw`sram, hw`bchst, hw`pending, hw`xfers, hw`trace, buf
    ensures hw.bchctl == old(hw.bchctl)
    ensures ret != 0 ==>
      && ret == -1 && Stall(hw.chip, l.row, 0, n) == step
      && hw.Valid() && buf[..] == old(buf[..]) && hw.trace == old(hw.trace)
    ensures ret == 0 ==> Progress(hw, buf, l, off, n, step + 1, maxOut)
  {
    maxOut := maxIn;
    ret := WaitPioXferDone(hw);
    if ret != 0 {
      StallAt(hw.chip, l.row, step, n);
      return;
    }
    StallPast(hw.chip, l.row, step, n);
    var bchSt := hw.ReadBchst();
    maxOut := FoldStatus(maxOut, bchSt);
    BitflipsStep(hw.chip, l.row, step);
    ghost var before, beforeTrace := buf[..], hw.trace;
    Advance(hw, n, step, buf, off + step * SRAM_SIZE, l.row);
    DataStep(l.buf0, before, buf[..], off, hw.chip, l.row, step);
    TraceStep(l.trace0, beforeTrace, hw.trace, hw.bchctl, step, n);
  }

  /** The ECC fold of one granule: all ones (-1) on an uncorrectable status, else the unsigned maximum with its count. */
  method FoldStatus(maxIn: u32, bchSt: bv32) returns (maxOut: u32)
    ensures maxOut == if HasBit(bchSt, BCH0_ST_ERR) then 0xFFFF_FFFF else MaxU(maxIn, ErrCount0(bchSt))
  {
    if HasBit(bchSt, BCH0_ST_ERR) {
      maxOut := 0xFFFF_FFFF;
    } else {
      var cnt := ErrCount0(bchSt);
      maxOut := MaxU(maxIn, cnt);
    }
  }

  /** The tail of a loop turn: start granule `step + 1` into the other half unless `step` is last, then copy half `step % 2` out. */
  method Advance(hw: Nandc, eccStep: nat, step: nat, buf: array<byte>, dataOff: nat, ghost row: nat)
    requires step < eccStep && hw.mode == PageRead(row, 0) && Landed(hw, row, step)
    requires hw.bchctl == ClearRegion(hw.bchctl) && dataOff + SRAM_SIZE <= buf.Length
    modifies hw`bchctl, hw`flctl, hw`sram, hw`bchst, hw`pending, hw`xfers, hw`trace, buf
    ensures hw.Valid() && hw.bchctl == old(hw.bchctl)
    ensures buf[..] == old(buf[..dataOff]) + hw.chip.granule(row, step) + old(buf[dataOff + SRAM_SIZE..])
    ensures hw.trace == old(hw.trace) + StepEvents(hw.bchctl, step, eccStep)
    ensures step + 1 < eccStep ==> Staged(hw, row, step + 1)
  {
    if step + 1 < eccStep {
      PioXferStart(hw, NANDC_READ, (step + 1) % 2);
      assert 1 - (step + 1) % 2 == step % 2;
    }
    hw.CopyHalf(step % 2, buf, dataOff);
  }

  /** A read that has got through `s` steps and fails the wait of step `s` stops at `s`. */
  lemma StallAt(chip: Chip, row: nat, s: nat, n: nat)
    requires s < n && s <= Stall(chip, row, 0, n) && TimesOut(chip, row, s)
    ensures Stall(chip, row, 0, n) == s
  {
  }

  /** A read that has got through `s` steps and passes the wait of step `s` gets through `s + 1`. */
  lemma StallPast(chip: Chip, row: nat, s: nat, n: nat)
    requires s < n && s <= Stall(chip, row, 0, n) && !TimesOut(chip, row, s)
    ensures s + 1 <= Stall(chip, row, 0, n)
  {
  }

  /** How `max_bitflips` moves on granule `k`: all ones on an uncorrectable one, else the unsigned maximum. */
  lemma BitflipsStep(chip: Chip, row: nat, k: nat)
    ensures Bitflips(chip, row, k + 1) ==
      if Failed(chip, row, k) then 0xFFFF_FFFF else MaxU(Bitflips(chip, row, k), Count(chip, row, k))
  {
    if Failed(chip, row, k) {
      assert Uncorrectable(chip, row, k + 1);
    } else if Uncorrectable(chip, row, k) {
      var s :| 0 <= s < k && Failed(chip, row, s);
      assert Uncorrectable(chip, row, k + 1);
    } else {
      assert !Uncorrectable(chip, row, k + 1);
    }
  }

  /** Copying granule `step` right after the granules before it extends the written prefix by one granule. */
  lemma DataStep(orig: seq<byte>, before: seq<byte>, now: seq<byte>, off: nat, chip: Chip, row: nat, step: nat)
    requires off + (step + 1) * SRAM_SIZE <= |orig|
    requires before == orig[..off] + PageData(chip, row, step) + orig[off + step * SRAM_SIZE..]
    requires now == before[..off + step * SRAM_SIZE] + chip.granule(row, step) + before[off + step * SRAM_SIZE + SRAM_SIZE..]
    ensures now == orig[..off] + PageData(chip, row, step + 1) + orig[off + (step + 1) * SRAM_SIZE..]
  {
    Splice(orig, before, now, off, PageData(chip, row, step), chip.granule(row, step));
  }

  /** The events of one more loop step extend the loop's events. */
  lemma TraceStep(t0: seq<Event>, before: seq<Event>, now: seq<Event>, bchctl: bv32, step: nat, n: nat)
    requires before == t0 + LoopEvents(bchctl, step, n)
    requires now == before + StepEvents(bchctl, step, n)
    ensures now == t0 + LoopEvents(bchctl, step + 1, n)
  {
  }

  /** Copying granule `g` right after the `d` bytes already written extends the written prefix by `g`. */
  lemma Splice(orig: seq<byte>, before: seq<byte>, now: seq<byte>, off: nat, d: seq<byte>, g: seq<byte>)
    requires off + |d| + |g| <= |orig|
    requires before == orig[..off] + d + orig[off + |d|..]
    requires now == before[..off + |d|] + g + before[off + |d| + |g|..]
    ensures now == orig[..off] + (d + g) + orig[off + |d + g|..]
  {
  }
}
