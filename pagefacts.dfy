/**
 * What the page-read specification functions promise: the result is the
 * worst granule's corrected-bit count, never a sum, and a lost granule makes
 * it -1 for the rest of the page; the granules land one after another; the
 * bus sees the next transfer started before the current half is copied, no
 * transfer after the last granule, and a final deselect.
 */
module PageFacts {
  import opened Regs
  import opened Hw
  import opened Protocol
  import opened NandContext
  import opened PageReader

  /** The running maximum bounds every count it has folded in and equals one of them. */
  lemma {:induction false} MaxCountIsMax(chip: Chip, row: nat, k: nat)
    ensures forall s :: 0 <= s < k ==> Count(chip, row, s) <= MaxCount(chip, row, k)
    ensures k > 0 ==> exists s :: 0 <= s < k && MaxCount(chip, row, k) == Count(chip, row, s)
  {
    if k > 0 {
      MaxCountIsMax(chip, row, k - 1);
      if k > 1 && MaxCount(chip, row, k) != Count(chip, row, k - 1) {
        var s :| 0 <= s < k - 1 && MaxCount(chip, row, k - 1) == Count(chip, row, s);
        assert MaxCount(chip, row, k) == Count(chip, row, s);
      }
    }
  }

  /** A read stops before the end of the page exactly when the wait of some granule fails. */
  lemma StallIff(chip: Chip, row: nat, n: nat)
    ensures Stall(chip, row, 0, n) < n <==> exists s :: 0 <= s < n && TimesOut(chip, row, s)
  {
    if Stall(chip, row, 0, n) < n {
      assert TimesOut(chip, row, Stall(chip, row, 0, n));
    }
  }

  /**
   * What a page read returns: -1 exactly when a wait fails or some granule
   * is uncorrectable; otherwise the largest corrected count, between 0 and 63.
   */
  lemma PageResultCases(chip: Chip, row: nat, n: nat)
    ensures PageResult(chip, row, n) == -1 <==> Stall(chip, row, 0, n) < n || Uncorrectable(chip, row, n)
    ensures PageResult(chip, row, n) != -1 ==>
      0 <= PageResult(chip, row, n) <= 63 && PageResult(chip, row, n) == MaxCount(chip, row, n)
  {
    assert Signed(0xFFFF_FFFF) == -1;
  }

  /** Once granule `s` is uncorrectable, `max_bitflips` is all ones from then on, whatever follows. */
  lemma {:induction false} StickyError(chip: Chip, row: nat, s: nat, k: nat)
    requires s < k && Failed(chip, row, s)
    ensures Bitflips(chip, row, k) == 0xFFFF_FFFF
  {
    assert Uncorrectable(chip, row, k) by {
      assert 0 <= s < k && Failed(chip, row, s);
    }
  }

  /** Without an uncorrectable granule, `max_bitflips` is the largest corrected count: at most 63. */
  lemma CorrectableBound(chip: Chip, row: nat, k: nat)
    requires !Uncorrectable(chip, row, k)
    ensures Bitflips(chip, row, k) <= 63
    ensures forall s :: 0 <= s < k ==> Count(chip, row, s) <= Bitflips(chip, row, k)
  {
    MaxCountIsMax(chip, row, k);
  }

  /** The channel-0 count comes from BCHST bits 3..7 and bit 27: `n` corrected bits below 32 read back as `n << 3`. */
  lemma CountFromStatus(n: bv32)
    requires n < 32
    ensures ErrCount0(n << 3) == n as int
  {
  }

  /** A chip whose four granules of row 0 correct 0, 2, 5 and 0 bits, with every wait and every granule succeeding. */
  function SampleChip(): Chip
  {
    Chip(
      _ => 0xFF,
      (_, _) => 0xFF,
      (_, _) => seq(SRAM_SIZE, _ => 0),
      (_, s) => if s == 1 then 0x10 else if s == 2 then 0x28 else 0,
      (_, _) => 0,
      _ => 0)
  }

  /** The page result is the maximum of the granule counts, not their sum: 0, 2, 5, 0 give 5, not 7. */
  lemma MaxNotSum()
    ensures PageResult(SampleChip(), 0, 4) == 5
  {
    var c := SampleChip();
    assert Count(c, 0, 0) == 0 && Count(c, 0, 1) == 2 && Count(c, 0, 2) == 5 && Count(c, 0, 3) == 0 by {
      CountFromStatus(2);
      CountFromStatus(5);
      assert (2 as bv32) << 3 == 0x10 && (5 as bv32) << 3 == 0x28;
    }
    assert MaxCount(c, 0, 4) == 5;
    assert !Uncorrectable(c, 0, 4) by {
      forall s | 0 <= s < 4
        ensures !Failed(c, 0, s)
      {
        assert c.status(0, s) == 0 || c.status(0, s) == 0x10 || c.status(0, s) == 0x28;
      }
    }
    assert Stall(c, 0, 0, 4) == 4;
  }

  /** Granule `s` of a read of `k >= s + 1` granules occupies bytes `1024 * s` up to `1024 * (s + 1)`. */
  lemma {:induction false} PageDataLayout(chip: Chip, row: nat, k: nat, s: nat)
    requires s < k
    ensures PageData(chip, row, k)[s * SRAM_SIZE .. (s + 1) * SRAM_SIZE] == chip.granule(row, s)
  {
    var prev := PageData(chip, row, k - 1);
    assert PageData(chip, row, k) == prev + chip.granule(row, k - 1);
    if s < k - 1 {
      PageDataLayout(chip, row, k - 1, s);
      assert (s + 1) * SRAM_SIZE <= |prev|;
      assert PageData(chip, row, k)[s * SRAM_SIZE .. (s + 1) * SRAM_SIZE] == prev[s * SRAM_SIZE .. (s + 1) * SRAM_SIZE];
    } else {
      assert s * SRAM_SIZE == |prev|;
    }
  }

  /**
   * A completed read of `n` granules at `off` leaves granule `s` at
   * `buf[off + 1024 * s ..]`, and the bytes before `off` and from
   * `off + page size` on as they were.
   */
  lemma PageWriteLayout(b: seq<byte>, off: nat, chip: Chip, row: nat, n: nat, s: nat)
    requires off + n * SRAM_SIZE <= |b| && Stall(chip, row, 0, n) == n && s < n
    ensures PageWrite(b, off, chip, row, n)[off + s * SRAM_SIZE .. off + (s + 1) * SRAM_SIZE] == chip.granule(row, s)
    ensures PageWrite(b, off, chip, row, n)[..off] == b[..off]
    ensures PageWrite(b, off, chip, row, n)[off + n * SRAM_SIZE..] == b[off + n * SRAM_SIZE..]
  {
    var d := PageData(chip, row, n);
    var w := PageWrite(b, off, chip, row, n);
    assert w == b[..off] + d + b[off + n * SRAM_SIZE..];
    PageDataLayout(chip, row, n, s);
    assert w[off + s * SRAM_SIZE .. off + (s + 1) * SRAM_SIZE] == d[s * SRAM_SIZE .. (s + 1) * SRAM_SIZE];
  }

  /** Events per loop step: a transfer start (three writes) and a copy, but only the copy on the last step. */
  lemma {:induction false} LoopEventsLength(bc: bv32, k: nat, n: nat)
    requires k <= n
    ensures |LoopEvents(bc, k, n)| == if k == n && n > 0 then 4 * k - 3 else 4 * k
  {
    if k > 0 {
      LoopEventsLength(bc, k - 1, n);
    }
  }

  /** The events of the first `j` loop steps open the events of the first `k`. */
  lemma {:induction false} LoopEventsPrefix(bc: bv32, j: nat, k: nat, n: nat)
    requires j <= k
    ensures |LoopEvents(bc, j, n)| <= |LoopEvents(bc, k, n)|
    ensures LoopEvents(bc, k, n)[..|LoopEvents(bc, j, n)|] == LoopEvents(bc, j, n)
    decreases k
  {
    if j < k {
      var prev := LoopEvents(bc, k - 1, n);
      LoopEventsPrefix(bc, j, k - 1, n);
      assert LoopEvents(bc, k, n) == prev + StepEvents(bc, k - 1, n);
      assert (prev + StepEvents(bc, k - 1, n))[..|prev|] == prev;
    }
  }

  /**
   * Step `s` of the granule loop, as the bus sees it, sits at event `4 * s`:
   * when a granule follows, its transfer is started into half `(s + 1) % 2`
   * before half `s % 2` is copied out; after the last granule only the copy
   * happens.
   */
  lemma LoopEventsLayout(bc: bv32, k: nat, n: nat, s: nat)
    requires s < k <= n
    ensures 4 * s + |StepEvents(bc, s, n)| <= |LoopEvents(bc, k, n)|
    ensures LoopEvents(bc, k, n)[4 * s .. 4 * s + |StepEvents(bc, s, n)|] == StepEvents(bc, s, n)
  {
    var w, front, step := LoopEvents(bc, k, n), LoopEvents(bc, s, n), StepEvents(bc, s, n);
    LoopEventsLength(bc, s, n);
    assert LoopEvents(bc, s + 1, n) == front + step;
    LoopEventsPrefix(bc, s + 1, k, n);
    assert w[..|front| + |step|] == front + step;
    assert w[4 * s .. 4 * s + |step|] == w[..|front| + |step|][|front|..];
  }

  /** Appending leaves a slice of the front as it was. */
  lemma AppendKeeps<T>(a: seq<T>, b: seq<T>, lo: nat, hi: nat)
    requires lo <= hi <= |a|
    ensures (a + b)[lo..hi] == a[lo..hi]
  {
    assert (a + b)[..hi] == a[..hi];
    assert (a + b)[lo..hi] == (a + b)[..hi][lo..];
  }

  /** The appended part sits right after the front. */
  lemma AppendTail<T>(a: seq<T>, b: seq<T>)
    ensures (a + b)[|a| .. |a| + |b|] == b
  {
  }

  /** Two sequences that agree up to `hi` agree on every slice below it. */
  lemma SliceBelow<T>(w: seq<T>, b: seq<T>, lo: nat, hi: nat)
    requires lo <= hi <= |w| && hi <= |b| && w[..hi] == b[..hi]
    ensures w[lo..hi] == b[lo..hi]
  {
    assert w[lo..hi] == w[..hi][lo..];
    assert b[lo..hi] == b[..hi][lo..];
  }

  /** The staging half the start write of step `s` selects is `(s + 1) % 2`, the half granule `s + 1` lands in. */
  lemma StartTargetsNextHalf(bc: bv32, s: nat)
    ensures HalfOf(StartWrites(bc, NANDC_READ, (s + 1) % 2)[2].v) == (s + 1) % 2
    ensures HasBit(StartWrites(bc, NANDC_READ, (s + 1) % 2)[2].v, FL_XFER_START)
    ensures !HasBit(StartWrites(bc, NANDC_READ, (s + 1) % 2)[1].v, FL_XFER_START)
  {
    StartWordSelectsHalf(NANDC_READ, (s + 1) % 2);
  }

  /** A completed page read ends with an FMCTL write that clears every chip-enable bit. */
  lemma ReadPageEndsDeselected(fmctl: bv32, bchctl: bv32, busy: nat, chip: Chip, page: nat, n: nat)
    ensures var t := ReadPageEvents(fmctl, bchctl, busy, chip, page, n, n);
      && |t| > 0 && t[|t| - 1].FmctlWrite?
      && t[|t| - 1].v & FM_CE_SEL_M == 0
  {
    SelectWordCe(CeSelect(fmctl, 0), Settled(chip.busyPolls(Row(page))), -1);
  }

  /**
   * The bus events of a page read open with the select of chip 0 (the word
   * read back, with the chip-enable field holding chip 0 alone), the seven
   * command cycles and the start of granule 0 into half 0.
   */
  lemma ReadPageOpening(fmctl: bv32, bchctl: bv32, busy: nat, chip: Chip, page: nat, done: nat, n: nat)
    ensures var t := ReadPageEvents(fmctl, bchctl, busy, chip, page, done, n);
      && |t| >= 11
      && t[0] == FmctlWrite(SelectWord(fmctl, busy, 0))
      && t[0].v & FM_CE_SEL_M == CeBits(0)
      && t[1..8] == ReadCycles(page, 0)
      && t[8..11] == StartWrites(ClearRegion(bchctl), NANDC_READ, 0)
  {
    var t := ReadPageEvents(fmctl, bchctl, busy, chip, page, done, n);
    var o := OpeningEvents(fmctl, bchctl, busy, page);
    assert |o| == 11;
    assert t[..11] == o;
    SelectWordCe(fmctl, busy, 0);
  }
}
