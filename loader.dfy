/**
 * `nand_spl_load_image`: copy a page-aligned image out of raw NAND into
 * memory, skipping bad blocks at block boundaries.
 *
 * `Load` describes, from the chip oracle alone, which pages the loader reads
 * (in order, one per destination slot) and whether it gives up with -EIO;
 * `Image` is the destination buffer those reads leave behind. `LoadImage`
 * is proved against both.
 */
module Loader {
  import opened Regs
  import opened Hw
  import opened NandContext
  import opened PageReader
  import opened PageFacts
  import opened BadBlock

  /** `EIO`: the loader returns its negation. */
  const EIO: int := 5

  datatype Option<T> = None | Some(value: T)

  /** How a load ends: 0 or -EIO, and the pages read, in the order of the destination slots they filled. */
  datatype Outcome = Outcome(status: int, pages: seq<nat>)

  /**
   * What the loader's decisions depend on: whether `is_badblock` calls the
   * block at page `p` bad, whether `nandc_read_page` of `p` returns a
   * negative value, the pages per block and `maxpages`.
   */
  datatype View = View(bad: nat -> bool, fails: nat -> bool, block: nat, limit: nat)
  {
    /** `page % PAGES_PER_BLOCK == 0`. */
    predicate BlockStart(page: nat)
      requires block > 0
    {
      Rem(page, block) == 0
    }

    /** The first page of the block holding `page`. */
    function BlockOf(page: nat): (b: nat)
      requires block > 0
      ensures b <= page < b + block
    {
      RemBound(page, block);
      page - Rem(page, block)
    }
  }

  /** The view the loader has of `chip`. */
  function ViewOf(chip: Chip, geo: Geometry): (v: View)
    requires geo.Valid()
    ensures v.block == geo.pageCount > 0 && v.limit == geo.MaxPages()
  {
    View((p: nat) => BadVerdict(chip, geo, p), (p: nat) => PageResult(chip, Row(p), geo.Steps()) < 0,
         geo.pageCount, geo.MaxPages())
  }

  /**
   * The inner loop of the loader from the block start `page`: the first
   * block start `page + k * pageCount` that is not bad, or `None` when the
   * cursor passes `maxpages` first.
   */
  function SkipBad(v: View, page: nat): Option<nat>
    requires v.block > 0
    decreases v.limit - page
  {
    if !v.bad(page) then Some(page)
    else if page + v.block >= v.limit then None
    else SkipBad(v, page + v.block)
  }

  /** The page the loader reads when its cursor is at `page`: bad blocks are looked for only at a block start. */
  function Arrive(v: View, page: nat): Option<nat>
    requires v.block > 0
  {
    if v.BlockStart(page) then SkipBad(v, page) else Some(page)
  }

  /** The rest of a load with `left` destination pages to fill and the cursor at `page`. */
  function Load(v: View, page: nat, left: nat): (o: Outcome)
    requires v.block > 0
    decreases left
    ensures |o.pages| <= left
  {
    if left == 0 then Outcome(0, [])
    else match Arrive(v, page)
      case None => Outcome(-EIO, [])
      case Some(p) =>
        if v.fails(p) then Outcome(-EIO, [p])
        else
          var rest := Load(v, p + 1, left - 1);
          Outcome(rest.status, [p] + rest.pages)
  }

  /** The destination after reading `pages`, page `pages[j]` into slot `j` (bytes `j * pageSize` on). */
  function Image(b: seq<byte>, chip: Chip, geo: Geometry, pages: seq<nat>): (r: seq<byte>)
    requires geo.Valid() && geo.Slot(|pages|) <= |b|
    ensures |r| == |b|
  {
    if |pages| == 0 then b
    else
      var k := |pages| - 1;
      PageWrite(Image(b, chip, geo, pages[..k]), geo.Slot(k), chip, Row(pages[k]), geo.Steps())
  }

  /** What a whole load of `total` pages from the cursor `page` leaves in a destination `b` with room for them. */
  function Loaded(b: seq<byte>, chip: Chip, v: View, geo: Geometry, page: nat, total: nat): (r: seq<byte>)
    requires geo.Valid() && v.block > 0 && geo.Slot(total) <= |b|
  {
    var o := Load(v, page, total);
    SlotMono(geo, |o.pages|, total);
    Image(b, chip, geo, o.pages)
  }

  lemma {:induction false} SlotMono(geo: Geometry, i: nat, j: nat)
    requires i <= j
    ensures geo.Slot(i) <= geo.Slot(j)
  {
    if i < j {
      SlotMono(geo, i, j - 1);
    }
  }

  /**
   * `v` is the view of `chip`: stated by page, and triggered only by the
   * chip-level terms, so that reasoning about a view does not unfold them.
   */
  ghost predicate Sees(v: View, chip: Chip, geo: Geometry)
    requires geo.Valid()
  {
    && v.block == geo.pageCount && v.limit == geo.MaxPages()
    && (forall p: nat {:trigger BadVerdict(chip, geo, p)} :: v.bad(p) == BadVerdict(chip, geo, p))
    && (forall p: nat {:trigger PageResult(chip, Row(p), geo.Steps())} :: v.fails(p) == (PageResult(chip, Row(p), geo.Steps()) < 0))
  }

  /** `ViewOf` is the view of its chip. */
  lemma ViewOfSees(chip: Chip, geo: Geometry)
    requires geo.Valid()
    ensures Sees(ViewOf(chip, geo), chip, geo)
  {
  }

  /**
   * `nand_spl_load_image(offs, size, buf)`: the result and the bytes of
   * `buf` are those of `Load` from page `offs / PAGE_SIZE` over
   * `roundup(size, PAGE_SIZE) / PAGE_SIZE` pages.
   */
  method LoadImage(nand: RkNand, geo: Geometry, offs: u32, size: u32, buf: array<byte>) returns (ret: int)
    requires nand.Valid() && geo.Valid() && nand.databuf.Length == geo.pageSize && buf != nand.databuf
    requires geo.Slot(geo.PageTotal(size)) <= buf.Length
    modifies nand.regs, nand.databuf, buf
    ensures nand.regs.Valid()
    ensures nand.regs.fmwait == old(nand.regs.fmwait)
    ensures ret == Load(ViewOf(nand.regs.chip, geo), geo.FirstPage(offs), geo.PageTotal(size)).status
    ensures buf[..] == Loaded(old(buf[..]), nand.regs.chip, ViewOf(nand.regs.chip, geo), geo, geo.FirstPage(offs), geo.PageTotal(size))
  {
    ViewOfSees(nand.regs.chip, geo);
    ret := LoadWith(nand, geo, ViewOf(nand.regs.chip, geo), offs, size, buf);
  }

  /** The loader against any view `v` of the chip. */
  method LoadWith(nand: RkNand, geo: Geometry, ghost v: View, offs: u32, size: u32, buf: array<byte>) returns (ret: int)
    requires nand.Valid() && geo.Valid() && nand.databuf.Length == geo.pageSize && buf != nand.databuf
    requires Sees(v, nand.regs.chip, geo) && geo.Slot(geo.PageTotal(size)) <= buf.Length
    modifies nand.regs, nand.databuf, buf
    ensures nand.regs.Valid()
    ensures nand.regs.fmwait == old(nand.regs.fmwait)
    ensures ret == Load(v, geo.FirstPage(offs), geo.PageTotal(size)).status
    ensures buf[..] == Loaded(old(buf[..]), nand.regs.chip, v, geo, geo.FirstPage(offs), geo.PageTotal(size))
  {
    var page: nat := geo.FirstPage(offs);
    var i: nat := 0;
    var off: nat := 0;
    var total := geo.PageTotal(size);
    ghost var orig := buf[..];
    ghost var whole := Load(v, page, total);
    ghost var pages: seq<nat> := [];
    while i < total
      invariant Going(nand, v, geo, buf, orig, whole, page, i, off, total, pages)
      invariant nand.regs.fmwait == old(nand.regs.fmwait)
    {
      ret, page, pages := LoadStep(nand, v, geo, buf, page, i, off, total, orig, whole, pages);
      if ret != 0 {
        LoadedImage(orig, nand.regs.chip, v, geo, geo.FirstPage(offs), total, whole);
        return;
      }
      i := i + 1;
      off := off + geo.pageSize;
    }
    assert pages + [] == pages;
    LoadedImage(orig, nand.regs.chip, v, geo, geo.FirstPage(offs), total, whole);
    return 0;
  }

  lemma LoadedImage(orig: seq<byte>, chip: Chip, v: View, geo: Geometry, page: nat, total: nat, whole: Outcome)
    requires geo.Valid() && v.block > 0 && geo.Slot(total) <= |orig| && whole == Load(v, page, total)
    ensures geo.Slot(|whole.pages|) <= |orig|
    ensures Loaded(orig, chip, v, geo, page, total) == Image(orig, chip, geo, whole.pages)
  {
    SlotMono(geo, |whole.pages|, total);
  }

  /** The whole load is the pages done so far followed by the rest of the load. */
  ghost predicate Resumes(whole: Outcome, pages: seq<nat>, rest: Outcome)
  {
    whole.status == rest.status && whole.pages == pages + rest.pages
  }

  /**
   * The loader's loop state after `i` of `total` pages: slot `i` starts at
   * `off`, the rest of the load from `page` completes `whole`, and `buf`
   * holds the pages read so far.
   */
  ghost predicate Going(nand: RkNand, v: View, geo: Geometry, buf: array<byte>, orig: seq<byte>, whole: Outcome,
                        page: nat, i: nat, off: nat, total: nat, pages: seq<nat>)
    reads nand, nand.regs, buf
  {
    && nand.Valid() && geo.Valid() && nand.databuf.Length == geo.pageSize && buf != nand.databuf
    && Sees(v, nand.regs.chip, geo)
    && Plan(nand.regs.chip, v, geo, orig, whole, page, i, off, total, pages, buf[..])
  }

  /** `Going` on values: `b` is the destination, `v` the view of `chip`. */
  ghost predicate Plan(chip: Chip, v: View, geo: Geometry, orig: seq<byte>, whole: Outcome,
                       page: nat, i: nat, off: nat, total: nat, pages: seq<nat>, b: seq<byte>)
  {
    && geo.Valid() && v.block > 0 && i <= total && |pages| == i && off == geo.Slot(i) && off + Times(total - i, geo.pageSize) <= |b|
    && Resumes(whole, pages, Load(v, page, total - i))
    && |orig| == |b| && b == Image(orig, chip, geo, pages)
  }

  /** A load that has ended: it ended with the status of `whole`, and `buf` holds all the pages `whole` read. */
  ghost predicate Finished(nand: RkNand, geo: Geometry, buf: array<byte>, orig: seq<byte>, whole: Outcome)
    reads nand, nand.regs, buf
  {
    nand.Valid() && Ended(nand.regs.chip, geo, orig, whole, buf[..])
  }

  /** `Finished` on values. */
  ghost predicate Ended(chip: Chip, geo: Geometry, orig: seq<byte>, whole: Outcome, b: seq<byte>)
  {
    && geo.Valid() && whole.status == -EIO
    && geo.Slot(|whole.pages|) <= |orig| && b == Image(orig, chip, geo, whole.pages)
  }

  /**
   * One turn of the loader loop: at a block start, skip bad blocks; read the
   * page into slot `i`. A nonzero result is -EIO, the status of the whole
   * load, with `buf` in its final state.
   */
  method LoadStep(nand: RkNand, ghost v: View, geo: Geometry, buf: array<byte>, page: nat, i: nat, off: nat, total: nat,
                  ghost orig: seq<byte>, ghost whole: Outcome, ghost pages: seq<nat>)
    returns (ret: int, next: nat, ghost pages': seq<nat>)
    requires i < total && Going(nand, v, geo, buf, orig, whole, page, i, off, total, pages)
    modifies nand.regs, nand.databuf, buf
    ensures nand.regs.fmwait == old(nand.regs.fmwait)
    ensures ret != 0 ==> ret == -EIO && Finished(nand, geo, buf, orig, whole)
    ensures ret == 0 ==> Going(nand, v, geo, buf, orig, whole, next, i + 1, off + geo.pageSize, total, pages')
  {
    pages' := pages;
    var p, found := FindPage(nand, geo, v, page);
    if !found {
      PlanGivesUp(nand.regs.chip, v, geo, orig, whole, page, i, off, total, pages, buf[..]);
      return -EIO, p, pages';
    }
    ret, pages' := TakePage(nand, v, geo, buf, page, p, i, off, total, orig, whole, pages);
    next := p + 1;
  }

  /** The rest of a loader turn once the skip has settled on page `p`: read it into slot `i`. */
  method TakePage(nand: RkNand, ghost v: View, geo: Geometry, buf: array<byte>, ghost page: nat, p: nat, i: nat, off: nat,
                  ghost total: nat, ghost orig: seq<byte>, ghost whole: Outcome, ghost pages: seq<nat>)
    returns (ret: int, ghost pages': seq<nat>)
    requires i < total && Going(nand, v, geo, buf, orig, whole, page, i, off, total, pages) && Arrive(v, page) == Some(p)
    modifies nand.regs, buf
    ensures nand.regs.fmwait == old(nand.regs.fmwait)
    ensures ret != 0 ==> ret == -EIO && Finished(nand, geo, buf, orig, whole)
    ensures ret == 0 ==> Going(nand, v, geo, buf, orig, whole, p + 1, i + 1, off + geo.pageSize, total, pages')
  {
    ghost var chip, before := nand.regs.chip, buf[..];
    var r := ReadSlot(nand, geo, v, p, buf, off);
    pages' := pages + [p];
    if r < 0 {
      PlanReadFails(chip, v, geo, orig, whole, page, i, off, total, pages, before, p, buf[..]);
      return -EIO, pages';
    }
    PlanStep(chip, v, geo, orig, whole, page, i, off, total, pages, before, p, buf[..]);
    return 0, pages';
  }

  /** The loader gives up while skipping: the load has ended with -EIO and the pages read so far. */
  lemma PlanGivesUp(chip: Chip, v: View, geo: Geometry, orig: seq<byte>, whole: Outcome,
                    page: nat, i: nat, off: nat, total: nat, pages: seq<nat>, b: seq<byte>)
    requires i < total && Plan(chip, v, geo, orig, whole, page, i, off, total, pages, b)
    requires Arrive(v, page).None?
    ensures Ended(chip, geo, orig, whole, b)
  {
    assert pages + [] == pages;
  }

  /** The read of `p` fails: the load has ended with -EIO, `p` being its last page. */
  lemma PlanReadFails(chip: Chip, v: View, geo: Geometry, orig: seq<byte>, whole: Outcome,
                      page: nat, i: nat, off: nat, total: nat, pages: seq<nat>, before: seq<byte>, p: nat, after: seq<byte>)
    requires i < total && Plan(chip, v, geo, orig, whole, page, i, off, total, pages, before)
    requires Arrive(v, page) == Some(p) && v.fails(p)
    requires off + geo.pageSize <= |before| && after == PageWrite(before, off, chip, Row(p), geo.Steps())
    ensures Ended(chip, geo, orig, whole, after)
  {
    ImageStep(orig, chip, geo, pages, p, before, after);
  }

  /** The read of `p` succeeds: the loop state moves to slot `i + 1` with the cursor after `p`. */
  lemma PlanStep(chip: Chip, v: View, geo: Geometry, orig: seq<byte>, whole: Outcome,
                 page: nat, i: nat, off: nat, total: nat, pages: seq<nat>, before: seq<byte>, p: nat, after: seq<byte>)
    requires i < total && Plan(chip, v, geo, orig, whole, page, i, off, total, pages, before)
    requires Arrive(v, page) == Some(p) && !v.fails(p)
    requires off + geo.pageSize <= |before| && after == PageWrite(before, off, chip, Row(p), geo.Steps())
    ensures Plan(chip, v, geo, orig, whole, p + 1, i + 1, off + geo.pageSize, total, pages + [p], after)
  {
    ImageStep(orig, chip, geo, pages, p, before, after);
    var rest := Load(v, p + 1, total - i - 1);
    assert Load(v, page, total - i) == Outcome(rest.status, [p] + rest.pages);
    assert pages + [p] + rest.pages == pages + ([p] + rest.pages);
    assert geo.Slot(i + 1) == off + geo.pageSize;
    assert Times(total - i, geo.pageSize) == Times(total - (i + 1), geo.pageSize) + geo.pageSize;
  }

  /** Reading `p` into the next slot extends the image by that page. */
  lemma ImageStep(orig: seq<byte>, chip: Chip, geo: Geometry, pages: seq<nat>, p: nat, before: seq<byte>, after: seq<byte>)
    requires geo.Valid() && geo.Slot(|pages| + 1) <= |orig| && before == Image(orig, chip, geo, pages)
    requires after == PageWrite(before, geo.Slot(|pages|), chip, Row(p), geo.Steps())
    ensures after == Image(orig, chip, geo, pages + [p])
  {
    assert (pages + [p])[..|pages|] == pages;
  }

  /** The page the loader reads with its cursor at `page`, as `Arrive` says; `found` is false when it gives up. */
  method FindPage(nand: RkNand, geo: Geometry, ghost v: View, page: nat) returns (p: nat, found: bool)
    requires nand.Valid() && geo.Valid() && nand.databuf.Length == geo.pageSize && Sees(v, nand.regs.chip, geo)
    modifies nand.regs, nand.databuf
    ensures nand.Valid()
    ensures nand.regs.fmwait == old(nand.regs.fmwait)
    ensures Arrive(v, page) == if found then Some(p) else None
  {
    p, found := page, true;
    if geo.BlockStart(page) {
      p, found := SkipBadBlocks(nand, geo, v, page, geo.MaxPages());
    }
  }

  /**
   * The bad-block loop of the loader: while the block at the cursor is bad,
   * advance by one block and give up once the cursor reaches `maxpages`.
   * `found` and the final cursor are those of `SkipBad`.
   */
  method SkipBadBlocks(nand: RkNand, geo: Geometry, ghost v: View, page: nat, maxpages: nat) returns (p: nat, found: bool)
    requires nand.Valid() && geo.Valid() && nand.databuf.Length == geo.pageSize && maxpages == geo.MaxPages()
    requires Sees(v, nand.regs.chip, geo)
    modifies nand.regs, nand.databuf
    ensures nand.regs.Valid()
    ensures nand.regs.fmwait == old(nand.regs.fmwait)
    ensures SkipBad(v, page) == if found then Some(p) else None
  {
    p := page;
    var bad := CheckBlock(nand, geo, v, p);
    while bad != 0
      invariant nand.regs.Valid() && nand.regs.fmwait == old(nand.regs.fmwait)
      invariant SkipBad(v, p) == SkipBad(v, page)
      invariant bad == if v.bad(p) then 1 else 0
      decreases maxpages - p
    {
      p := p + geo.pageCount;
      if p >= maxpages {
        return p, false;
      }
      bad := CheckBlock(nand, geo, v, p);
    }
    found := true;
  }

  /** `is_badblock(page)` as the loader uses it: the verdict, with the bus events left unstated. */
  method CheckBlock(nand: RkNand, geo: Geometry, ghost v: View, page: nat) returns (res: int)
    requires nand.Valid() && geo.Valid() && nand.databuf.Length == geo.pageSize && Sees(v, nand.regs.chip, geo)
    modifies nand.regs, nand.databuf
    ensures nand.regs.Valid()
    ensures nand.regs.fmwait == old(nand.regs.fmwait)
    ensures res == if v.bad(page) then 1 else 0
  {
    res := IsBadBlock(nand, geo, page);
  }

  /** `nandc_read_page(page, buf + off)` as the loader uses it: the result and the bytes written, with the bus events left unstated. */
  method ReadSlot(nand: RkNand, geo: Geometry, ghost v: View, page: nat, buf: array<byte>, off: nat) returns (ret: int)
    requires nand.Valid() && geo.Valid() && off + geo.pageSize <= buf.Length && Sees(v, nand.regs.chip, geo)
    modifies nand.regs, buf
    ensures nand.Valid()
    ensures nand.regs.fmwait == old(nand.regs.fmwait)
    ensures ret == PageResult(nand.regs.chip, Row(page), geo.Steps())
    ensures ret < 0 <==> v.fails(page)
    ensures buf[..] == PageWrite(old(buf[..]), off, nand.regs.chip, Row(page), geo.Steps())
  {
    ret := ReadPage(nand.regs, geo, page, buf, off);
  }
}
