/**
 * The driver's build-time flash geometry and its one controller context
 * (`struct rk_nand`, reached through the global `g_rk_nand`).
 */
module NandContext {
  import opened Regs
  import opened Hw

  /**
   * `CONFIG_SYS_NAND_PAGE_SIZE`, `CONFIG_SYS_NAND_PAGE_COUNT` (pages per
   * erase block) and `CONFIG_SYS_NAND_SIZE` (bytes of flash).
   */
  datatype Geometry = Geometry(pageSize: nat, pageCount: nat, nandSize: nat)
  {
    /** A page is a whole, nonzero number of ECC granules and a block holds at least one page. */
    predicate Valid()
    {
      pageSize >= SRAM_SIZE && pageSize % SRAM_SIZE == 0 && pageCount > 0
    }

    /** `ecc_step`: the number of ECC granules in a page. */
    function Steps(): (n: nat)
      requires Valid()
      ensures n >= 1 && n * SRAM_SIZE == pageSize
    {
      pageSize / SRAM_SIZE
    }

    /** `maxpages`: pages of flash, held in an `unsigned int`. */
    function MaxPages(): (m: nat)
      requires Valid()
      ensures m < 0x1_0000_0000
    {
      Quot(nandSize, pageSize) % 0x1_0000_0000
    }

    /** The loader's first page, `offs / PAGE_SIZE`. */
    function FirstPage(offs: u32): nat
      requires Valid()
    {
      Quot(offs, pageSize)
    }

    /**
     * `roundup(size, PAGE_SIZE) / PAGE_SIZE`, the number of pages the
     * loader copies, in `unsigned int` arithmetic: `size + PAGE_SIZE - 1`
     * wraps modulo 2^32 before the division.
     */
    function PageTotal(size: u32): nat
      requires Valid()
    {
      Quot((size + pageSize - 1) % 0x1_0000_0000, pageSize)
    }

    /** `page % PAGE_COUNT == 0`: `page` is the first page of an erase block. */
    predicate BlockStart(page: nat)
      requires Valid()
    {
      Rem(page, pageCount) == 0
    }

    /** Byte offset of destination slot `i`: `i * PAGE_SIZE`. */
    function Slot(i: nat): nat
    {
      Times(i, pageSize)
    }
  }

  /**
   * Integer quotient, remainder and product by repeated subtraction and
   * addition. The loader's arithmetic is stated with these, which keeps the
   * solver away from products and quotients of two unknowns; `QuotRem` and
   * `TimesMul` tie them to `/`, `%` and `*`.
   */
  function Quot(a: nat, d: nat): nat
    requires d > 0
    decreases a
  {
    if a < d then 0 else 1 + Quot(a - d, d)
  }

  function Rem(a: nat, d: nat): nat
    requires d > 0
    decreases a
  {
    if a < d then a else Rem(a - d, d)
  }

  /** The remainder is at most the dividend and below the divisor. */
  lemma {:induction false} RemBound(a: nat, d: nat)
    requires d > 0
    ensures Rem(a, d) <= a && Rem(a, d) < d
    decreases a
  {
    if a >= d {
      RemBound(a - d, d);
    }
  }

  function Times(k: nat, d: nat): nat
  {
    if k == 0 then 0 else Times(k - 1, d) + d
  }

  /** `Quot` and `Rem` are Euclidean division and remainder. */
  lemma {:induction false} QuotRem(a: nat, d: nat)
    requires d > 0
    ensures Quot(a, d) == a / d && Rem(a, d) == a % d
  {
    if a >= d {
      QuotRem(a - d, d);
      DivStep(a, d);
    }
  }

  lemma DivStep(a: nat, d: nat)
    requires 0 < d <= a
    ensures a / d == 1 + (a - d) / d && a % d == (a - d) % d
  {
    var q, r := (a - d) / d, (a - d) % d;
    assert a == (q + 1) * d + r;
    DivUnique(a, d, q + 1, r);
  }

  /** Division is determined by its quotient-remainder equation. */
  lemma DivUnique(a: int, d: int, q: int, r: int)
    requires d > 0 && a == q * d + r && 0 <= r < d
    ensures a / d == q && a % d == r
  {
    var q', r' := a / d, a % d;
    assert (q - q') * d == r' - r;
    if q > q' {
      MulAtLeast(q - q', d);
    } else if q < q' {
      MulAtLeast(q' - q, d);
    }
  }

  lemma MulAtLeast(k: int, d: int)
    requires k >= 1 && d > 0
    ensures k * d >= d
  {
  }

  /** `Times` is multiplication. */
  lemma {:induction false} TimesMul(k: nat, d: nat)
    ensures Times(k, d) == k * d
  {
    if k > 0 {
      TimesMul(k - 1, d);
    }
  }

  /** `struct rk_nand`: register block, the chip flag, the ID bytes and a page-sized scratch buffer. */
  class RkNand {
    const regs: Nandc
    var chipnr: byte
    const id: array<byte>
    const databuf: array<byte>

    ghost predicate Valid()
      reads this, regs
    {
      regs.Valid() && id.Length == 5 && id != databuf
    }

    /** `kzalloc` of the context, its register base, and `kzalloc` of the scratch buffer. */
    constructor (regs: Nandc, pageSize: nat)
      requires regs.Valid()
      ensures Valid() && this.regs == regs && chipnr == 0
      ensures fresh(id) && id[..] == [0, 0, 0, 0, 0]
      ensures fresh(databuf) && databuf.Length == pageSize && forall k :: 0 <= k < pageSize ==> databuf[k] == 0
    {
      this.regs := regs;
      chipnr := 0;
      id := new byte[5](_ => 0);
      databuf := new byte[pageSize](_ => 0);
    }
  }
}
