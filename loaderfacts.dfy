/**
 * What the loader's specification functions promise: the image is the
 * requested size rounded up to whole pages (unless the rounding wraps),
 * laid out slot by slot; a block checked at its start is never read when
 * bad; a bad block moves the cursor by a whole block; and the load
 * succeeds exactly when every page it needed was read without error.
 */
module LoaderFacts {
  import opened Regs
  import opened Hw
  import opened NandContext
  import opened PageReader
  import opened PageFacts
  import opened BadBlock
  import opened Loader

  /** Without wrap-around, the page count is the size divided by the page size, rounded up. */
  lemma PageTotalCeil(geo: Geometry, size: u32)
    requires geo.Valid() && size + geo.pageSize - 1 < 0x1_0000_0000
    ensures size <= geo.Slot(geo.PageTotal(size)) < size + geo.pageSize
  {
    var x := size + geo.pageSize - 1;
    QuotRem(x, geo.pageSize);
    TimesMul(x / geo.pageSize, geo.pageSize);
    assert x == x / geo.pageSize * geo.pageSize + x % geo.pageSize;
  }

  /** With 2048-byte pages a size of 2^32 - 1 wraps in the rounding and loads no page at all. */
  lemma PageTotalWraps(geo: Geometry)
    requires geo.Valid() && geo.pageSize == 2048
    ensures geo.PageTotal(0xFFFF_FFFF) == 0
  {
  }

  /** A load ends with 0 or -EIO; 0 exactly when it read every page it needed and none of those reads failed. */
  lemma {:induction false} LoadStatus(v: View, page: nat, left: nat)
    requires v.block > 0
    ensures var o := Load(v, page, left);
      && (o.status == 0 || o.status == -EIO)
      && (o.status == 0 <==> |o.pages| == left && forall j :: 0 <= j < |o.pages| ==> !v.fails(o.pages[j]))
    decreases left
  {
    if left > 0 {
      var o := Load(v, page, left);
      match Arrive(v, page)
      case None =>
      case Some(p) =>
        assert o.pages[0] == p;
        if !v.fails(p) {
          LoadStatus(v, p + 1, left - 1);
          var rest := Load(v, p + 1, left - 1);
          assert o.pages == [p] + rest.pages;
          assert forall j :: 1 <= j < |o.pages| ==> o.pages[j] == rest.pages[j - 1];
          forall j | 0 <= j < |rest.pages|
            ensures rest.pages[j] == o.pages[j + 1]
          {
          }
        }
    }
  }

  /** The pages a load reads lie at or after the cursor and strictly increase: no page is read twice. */
  lemma {:induction false} LoadAscends(v: View, page: nat, left: nat)
    requires v.block > 0
    ensures forall j :: 0 <= j < |Load(v, page, left).pages| ==> page <= Load(v, page, left).pages[j]
    ensures forall j, k :: 0 <= j < k < |Load(v, page, left).pages| ==> Load(v, page, left).pages[j] < Load(v, page, left).pages[k]
    decreases left
  {
    if left > 0 {
      match Arrive(v, page)
      case None =>
      case Some(p) =>
        SkipBadAhead(v, page);
        var o := Load(v, page, left);
        if !v.fails(p) {
          LoadAscends(v, p + 1, left - 1);
          var rest := Load(v, p + 1, left - 1);
          assert o.pages == [p] + rest.pages;
          forall j | 0 <= j < |o.pages|
            ensures page <= o.pages[j]
          {
            if j > 0 {
              assert o.pages[j] == rest.pages[j - 1];
            }
          }
          forall j, k | 0 <= j < k < |o.pages|
            ensures o.pages[j] < o.pages[k]
          {
            assert o.pages[k] == rest.pages[k - 1];
            if j > 0 {
              assert o.pages[j] == rest.pages[j - 1];
            }
          }
        } else {
          assert o.pages == [p];
        }
    }
  }

  /** The bad-block skip never moves the cursor back, and where it stops the block is not bad. */
  lemma {:induction false} SkipBadAhead(v: View, page: nat)
    requires v.block > 0
    ensures SkipBad(v, page).Some? ==> page <= SkipBad(v, page).value && !v.bad(SkipBad(v, page).value)
    decreases v.limit - page
  {
    if v.bad(page) && page + v.block < v.limit {
      SkipBadAhead(v, page + v.block);
    }
  }

  /** A page the loader reads at a block start is never one whose block `is_badblock` calls bad. */
  lemma {:induction false} LoadSkipsBad(v: View, page: nat, left: nat)
    requires v.block > 0
    ensures forall j :: 0 <= j < |Load(v, page, left).pages| && v.BlockStart(Load(v, page, left).pages[j]) ==>
      !v.bad(Load(v, page, left).pages[j])
    decreases left
  {
    if left > 0 {
      match Arrive(v, page)
      case None =>
      case Some(p) =>
        SkipBadAhead(v, page);
        var o := Load(v, page, left);
        if !v.fails(p) {
          LoadSkipsBad(v, p + 1, left - 1);
          var rest := Load(v, p + 1, left - 1);
          assert o.pages == [p] + rest.pages;
          forall j | 0 < j < |o.pages|
            ensures o.pages[j] == rest.pages[j - 1]
          {
          }
        } else {
          assert o.pages == [p];
        }
    }
  }

  /**
   * Every page the loader reads lies in a block the cursor reached at its
   * start and `is_badblock` passed, or in the block the cursor started in.
   * The second case is what a cursor starting inside a block allows: the
   * check runs only at block starts, so the rest of that block is read
   * whatever its verdict.
   */
  lemma {:induction false} LoadAvoidsBadBlocks(v: View, page: nat, left: nat)
    requires v.block > 0
    ensures forall j :: 0 <= j < |Load(v, page, left).pages| && page <= v.BlockOf(Load(v, page, left).pages[j]) ==>
      !v.bad(v.BlockOf(Load(v, page, left).pages[j]))
    ensures forall j :: 0 <= j < |Load(v, page, left).pages| && v.BlockOf(Load(v, page, left).pages[j]) < page ==>
      v.BlockOf(Load(v, page, left).pages[j]) == v.BlockOf(page)
    decreases left
  {
    if left > 0 {
      match Arrive(v, page)
      case None =>
      case Some(p) =>
        ArriveInBlock(v, page);
        var o := Load(v, page, left);
        if !v.fails(p) {
          LoadAvoidsBadBlocks(v, p + 1, left - 1);
          var rest := Load(v, p + 1, left - 1);
          assert o.pages == [p] + rest.pages;
          BlockOfNext(v, p);
          forall j | 0 < j < |o.pages|
            ensures o.pages[j] == rest.pages[j - 1]
          {
          }
        } else {
          assert o.pages == [p];
        }
    }
  }

  /**
   * Where the cursor arrives: at a block start that is not bad when it
   * started at a block start, at the cursor itself otherwise.
   */
  lemma ArriveInBlock(v: View, page: nat)
    requires v.block > 0 && Arrive(v, page).Some?
    ensures var p := Arrive(v, page).value;
      && page <= p
      && (v.BlockStart(page) ==> v.BlockOf(p) == p && !v.bad(p))
      && (!v.BlockStart(page) ==> p == page && v.BlockOf(p) < page)
  {
    if v.BlockStart(page) {
      SkipBadAhead(v, page);
      SkipBadStarts(v, page);
    }
  }

  /** From a block start, the bad-block skip stops only at a block start. */
  lemma {:induction false} SkipBadStarts(v: View, page: nat)
    requires v.block > 0 && v.BlockStart(page)
    ensures SkipBad(v, page).Some? ==> v.BlockStart(SkipBad(v, page).value)
    decreases v.limit - page
  {
    if v.bad(page) && page + v.block < v.limit {
      assert Rem(page + v.block, v.block) == Rem(page, v.block);
      SkipBadStarts(v, page + v.block);
    }
  }

  /** A page that does not start a block lies in the block of the page before it. */
  lemma BlockOfNext(v: View, q: nat)
    requires v.block > 0
    ensures !v.BlockStart(q + 1) ==> v.BlockOf(q + 1) == v.BlockOf(q)
  {
    RemNext(q, v.block);
  }

  /** Going one up, the remainder grows by one or wraps to zero. */
  lemma {:induction false} RemNext(a: nat, d: nat)
    requires d > 0
    ensures Rem(a + 1, d) == 0 || Rem(a + 1, d) == Rem(a, d) + 1
    decreases a
  {
    if a + 1 > d {
      RemNext(a - d, d);
    }
  }

  /** From a block start, no page the loader reads lies in a block `is_badblock` calls bad. */
  lemma LoadFromBlockStartAvoidsBad(v: View, page: nat, left: nat)
    requires v.block > 0 && v.BlockStart(page)
    ensures forall j :: 0 <= j < |Load(v, page, left).pages| ==> !v.bad(v.BlockOf(Load(v, page, left).pages[j]))
  {
    LoadAvoidsBadBlocks(v, page, left);
  }

  /**
   * With four pages per block and block 0 bad, a load of three pages from
   * page 1 reads pages 1, 2 and 3 of that block and succeeds.
   */
  lemma MidBlockStartReadsBadBlock()
    ensures var v := View((p: nat) => p == 0, (p: nat) => false, 4, 100);
      && v.bad(v.BlockOf(1))
      && Load(v, 1, 3) == Outcome(0, [1, 2, 3])
      && forall j :: 0 <= j < 3 ==> v.BlockOf(Load(v, 1, 3).pages[j]) == 0
  {
    var v := View((p: nat) => p == 0, (p: nat) => false, 4, 100);
    assert Rem(1, 4) == 1 && Rem(2, 4) == 2 && Rem(3, 4) == 3 && Rem(4, 4) == 0;
  }

  /**
   * The `k` block starts from `page` on are all bad, and the cursor is still
   * below `maxpages` after stepping over each of them.
   */
  ghost predicate BadRun(v: View, page: nat, k: nat)
    requires v.block > 0
    decreases k
  {
    k == 0 || (v.bad(page) && page + v.block < v.limit && BadRun(v, page + v.block, k - 1))
  }

  /** In a bad run of `k` block starts, the `m`-th one, `m < k`, is bad and the one after it below `maxpages`. */
  lemma {:induction false} BadRunAt(v: View, page: nat, k: nat, m: nat)
    requires v.block > 0 && BadRun(v, page, k) && m < k
    ensures v.bad(page + Times(m, v.block)) && page + Times(m + 1, v.block) < v.limit
    decreases m
  {
    TimesShift(m, v.block);
    if m > 0 {
      BadRunAt(v, page + v.block, k - 1, m - 1);
      TimesShift(m - 1, v.block);
    }
  }

  lemma TimesShift(k: nat, d: nat)
    ensures Times(k + 1, d) == d + Times(k, d)
  {
  }

  /**
   * The bad-block skip from `page` that succeeds lands `k` blocks on, for a
   * `k` such that the `k` block starts before it are a bad run, and it is
   * not bad itself.
   */
  lemma {:induction false} SkipBadFinds(v: View, page: nat)
    requires v.block > 0 && SkipBad(v, page).Some?
    ensures exists k: nat ::
      && SkipBad(v, page).value == page + Times(k, v.block)
      && !v.bad(page + Times(k, v.block))
      && BadRun(v, page, k)
    decreases v.limit - page
  {
    var pc := v.block;
    if !v.bad(page) {
      assert page + Times(0, pc) == page;
      assert BadRun(v, page, 0);
    } else {
      var next := page + pc;
      SkipBadFinds(v, next);
      var k: nat :| && SkipBad(v, next).value == next + Times(k, pc)
        && !v.bad(next + Times(k, pc)) && BadRun(v, next, k);
      var q := page + Times(k + 1, pc);
      TimesShift(k, pc);
      assert q == next + Times(k, pc);
      assert SkipBad(v, page).value == q && !v.bad(q) && BadRun(v, page, k + 1);
    }
  }

  /**
   * The bad-block skip from `page` that gives up does so after a bad run of
   * `k` block starts and one more bad block start, from which the cursor
   * reaches `maxpages`.
   */
  lemma {:induction false} SkipBadGivesUp(v: View, page: nat)
    requires v.block > 0 && SkipBad(v, page).None?
    ensures exists k: nat ::
      && BadRun(v, page, k)
      && v.bad(page + Times(k, v.block))
      && page + Times(k, v.block) + v.block >= v.limit
    decreases v.limit - page
  {
    var pc := v.block;
    if page + pc >= v.limit {
      assert page + Times(0, pc) == page;
      assert BadRun(v, page, 0);
    } else {
      var next := page + pc;
      SkipBadGivesUp(v, next);
      var k: nat :| && BadRun(v, next, k)
        && v.bad(next + Times(k, pc)) && next + Times(k, pc) + pc >= v.limit;
      var q := page + Times(k + 1, pc);
      TimesShift(k, pc);
      assert q == next + Times(k, pc);
      assert BadRun(v, page, k + 1) && v.bad(q) && q + pc >= v.limit;
    }
  }

  /** A page write at `off` keeps every byte before `off`. */
  lemma PageWriteKeeps(b: seq<byte>, off: nat, chip: Chip, row: nat, n: nat, hi: nat)
    requires off + n * SRAM_SIZE <= |b| && hi <= off
    ensures PageWrite(b, off, chip, row, n)[..hi] == b[..hi]
  {
    var w := PageWrite(b, off, chip, row, n);
    assert w[..off] == b[..off];
    assert w[..hi] == w[..off][..hi];
  }

  /** A page write at `off` that got through all `n` granules puts the page data at `off`. */
  lemma PageWriteFull(b: seq<byte>, off: nat, chip: Chip, row: nat, n: nat)
    requires off + n * SRAM_SIZE <= |b| && Stall(chip, row, 0, n) == n
    ensures PageWrite(b, off, chip, row, n)[off .. off + n * SRAM_SIZE] == PageData(chip, row, n)
  {
  }

  /**
   * Slot `j` of the image holds the whole data of `pages[j]` when that page
   * was read without a failed wait, whatever the other reads did.
   */
  lemma {:induction false} ImageSlot(orig: seq<byte>, chip: Chip, geo: Geometry, pages: seq<nat>, j: nat)
    requires geo.Valid() && geo.Slot(|pages|) <= |orig| && j < |pages|
    requires Stall(chip, Row(pages[j]), 0, geo.Steps()) == geo.Steps()
    ensures geo.Slot(j) + geo.pageSize <= |orig|
    ensures Image(orig, chip, geo, pages)[geo.Slot(j) .. geo.Slot(j) + geo.pageSize] == PageData(chip, Row(pages[j]), geo.Steps())
    decreases |pages|
  {
    var k := |pages| - 1;
    var ps, n := geo.pageSize, geo.Steps();
    SlotMono(geo, j + 1, |pages|);
    SlotMono(geo, k, |pages|);
    var prev := Image(orig, chip, geo, pages[..k]);
    var w := Image(orig, chip, geo, pages);
    assert w == PageWrite(prev, geo.Slot(k), chip, Row(pages[k]), n);
    if j == k {
      PageWriteFull(prev, geo.Slot(k), chip, Row(pages[k]), n);
    } else {
      SlotMono(geo, j + 1, k);
      ImageSlot(orig, chip, geo, pages[..k], j);
      PageWriteKeeps(prev, geo.Slot(k), chip, Row(pages[k]), n, geo.Slot(j) + ps);
      SliceBelow(w, prev, geo.Slot(j), geo.Slot(j) + ps);
    }
  }

  /** A page write at `off` keeps every byte from `off + n * 1024` on. */
  lemma PageWriteSpares(b: seq<byte>, off: nat, chip: Chip, row: nat, n: nat, lo: nat)
    requires off + n * SRAM_SIZE <= lo <= |b|
    ensures PageWrite(b, off, chip, row, n)[lo..] == b[lo..]
  {
    var done := Stall(chip, row, 0, n);
    var w := PageWrite(b, off, chip, row, n);
    var hi := off + done * SRAM_SIZE;
    assert done * SRAM_SIZE <= n * SRAM_SIZE;
    assert w[hi..] == b[hi..];
    assert w[lo..] == w[hi..][lo - hi..];
    assert b[lo..] == b[hi..][lo - hi..];
  }

  /** The image leaves every byte after the last filled slot as it was. */
  lemma {:induction false} ImageTail(orig: seq<byte>, chip: Chip, geo: Geometry, pages: seq<nat>)
    requires geo.Valid() && geo.Slot(|pages|) <= |orig|
    ensures Image(orig, chip, geo, pages)[geo.Slot(|pages|)..] == orig[geo.Slot(|pages|)..]
    decreases |pages|
  {
    if |pages| > 0 {
      var k := |pages| - 1;
      SlotMono(geo, k, |pages|);
      var prev := Image(orig, chip, geo, pages[..k]);
      var lo, end := geo.Slot(k), geo.Slot(|pages|);
      ImageTail(orig, chip, geo, pages[..k]);
      PageWriteSpares(prev, lo, chip, Row(pages[k]), geo.Steps(), end);
      assert prev[end..] == prev[lo..][end - lo..];
      assert orig[end..] == orig[lo..][end - lo..];
    }
  }

  /**
   * After a load that returns 0, slot `j` of the destination holds page
   * `pages[j]` in full, and every byte past the last slot is as it was.
   */
  lemma LoadedLayout(b: seq<byte>, chip: Chip, geo: Geometry, page: nat, total: nat, j: nat)
    requires geo.Valid() && geo.Slot(total) <= |b| && j < total
    requires Load(ViewOf(chip, geo), page, total).status == 0
    ensures |Load(ViewOf(chip, geo), page, total).pages| == total && geo.Slot(j) + geo.pageSize <= |b|
    ensures Loaded(b, chip, ViewOf(chip, geo), geo, page, total)[geo.Slot(j) .. geo.Slot(j) + geo.pageSize]
      == PageData(chip, Row(Load(ViewOf(chip, geo), page, total).pages[j]), geo.Steps())
    ensures Loaded(b, chip, ViewOf(chip, geo), geo, page, total)[geo.Slot(total)..] == b[geo.Slot(total)..]
  {
    var v := ViewOf(chip, geo);
    var pages := Load(v, page, total).pages;
    LoadStatus(v, page, total);
    assert !v.fails(pages[j]);
    PageResultCases(chip, Row(pages[j]), geo.Steps());
    ImageSlot(b, chip, geo, pages, j);
    ImageTail(b, chip, geo, pages);
  }
}
