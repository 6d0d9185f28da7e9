/** Where the parts of a kdump file are: what the format asks for, and what qemu/dump.c computes. */
module KdumpLayout {
  import opened Basics
  import opened Arith
  import opened Vmcore
  import opened GuestMemory
  import opened KdumpBitmap

  /**
    What differs between the 32-bit and the 64-bit headers: where block_size is
    in DiskDumpHeader, and the size of KdumpSubHeader.
   */
  datatype Class = Class(sizes: nat, subHeader: nat)

  const ELFCLASS32 := Class(416, 80)
  const ELFCLASS64 := Class(428, 104)

  predicate Known(cls: Class) {
    cls == ELFCLASS32 || cls == ELFCLASS64
  }

  predicate PageSize(ps: nat) {
    1024 <= ps <= 65536
  }

  /** Truncation to uint32_t. */
  function U32(x: nat): (r: nat)
    ensures r < TWO32 && r <= x && (x < TWO32 ==> r == x)
  {
    x % 0x1_0000_0000
  }

  // The layout that the format asks for, in blocks of one page each.

  function SubBlocks(cls: Class, noteSize: nat, ps: nat): nat
    requires ps > 0
  {
    DivRoundUp(cls.subHeader + noteSize, ps)
  }

  function BitmapBlocks(len: nat, ps: nat): nat
    requires ps > 0
  {
    2 * DivRoundUp(len, ps)
  }

  function BitmapOffset(cls: Class, noteSize: nat, ps: nat): nat
    requires ps > 0
  {
    Addr(1 + SubBlocks(cls, noteSize, ps), ps)
  }

  function PageOffset(cls: Class, noteSize: nat, len: nat, ps: nat): nat
    requires ps > 0
  {
    Addr(1 + SubBlocks(cls, noteSize, ps) + BitmapBlocks(len, ps), ps)
  }

  // The layout as create_header32 and create_header64 compute it, in 32-bit arithmetic.

  function SubHdrSize(cls: Class, noteSize: nat, ps: nat): nat
    requires ps > 0
  {
    Page(U32(U32(cls.subHeader + noteSize) + ps - 1), ps)
  }

  function OffsetDumpBitmap(cls: Class, noteSize: nat, ps: nat): nat
    requires ps > 0
  {
    U32(Addr(U32(1 + SubHdrSize(cls, noteSize, ps)), ps))
  }

  function OffsetPage(cls: Class, noteSize: nat, len: nat, ps: nat): nat
    requires ps > 0
  {
    U32(Addr(U32(1 + SubHdrSize(cls, noteSize, ps) + U32(BitmapBlocks(len, ps))), ps))
  }

  lemma {:induction false} AddrSum(a: nat, b: nat, ps: nat)
    ensures Addr(a + b, ps) == Addr(a, ps) + Addr(b, ps)
  {
    if b > 0 {
      AddrSum(a, b - 1, ps);
    }
  }

  lemma {:induction false} AddrBounds(p: nat, ps: nat)
    requires PageSize(ps)
    ensures p <= Addr(p, ps) <= 65536 * p
  {
    if p > 0 {
      AddrBounds(p - 1, ps);
    }
  }

  /** Rounding up to whole blocks. */
  lemma RoundUp(x: nat, ps: nat)
    requires ps > 0
    ensures x <= Addr(DivRoundUp(x, ps), ps) < x + ps
    ensures Offset(x, ps) == 0 ==> Addr(DivRoundUp(x, ps), ps) == x
  {
    AddrPage(x + ps - 1, ps);
    AddrPage(x, ps);
    if Offset(x, ps) == 0 {
      AddrMono(Page(x, ps), DivRoundUp(x, ps), ps);
      AddrMono(DivRoundUp(x, ps), Page(x, ps), ps);
    }
  }

  lemma LenAligned(maxMapnr: nat, ps: nat)
    requires ps > 0
    ensures Offset(BitmapLen(maxMapnr, ps), ps) == 0
  {
    PageAddr(DivRoundUp(DivRoundUp(maxMapnr, 8), ps), ps, 0);
  }

  /** The two bitmaps fill the blocks between their offset and the descriptors. */
  lemma BitmapsFill(cls: Class, noteSize: nat, len: nat, ps: nat)
    requires ps > 0 && Offset(len, ps) == 0
    ensures PageOffset(cls, noteSize, len, ps) == BitmapOffset(cls, noteSize, ps) + 2 * len
    ensures cls.subHeader + noteSize + ps <= BitmapOffset(cls, noteSize, ps)
  {
    var m := DivRoundUp(len, ps);
    RoundUp(len, ps);
    AddrSum(m, m, ps);
    AddrSum(1 + SubBlocks(cls, noteSize, ps), m + m, ps);
    RoundUp(cls.subHeader + noteSize, ps);
  }

  /** Everything before the page data ends below 4 GiB. */
  predicate Fits(cls: Class, noteSize: nat, len: nat, ps: nat)
    requires ps > 0
  {
    PageOffset(cls, noteSize, len, ps) < TWO32
  }

  /** The bitmaps are where the format has them, if header and notes end below 4 GiB. */
  lemma HeaderRight(cls: Class, noteSize: nat, ps: nat)
    requires PageSize(ps) && BitmapOffset(cls, noteSize, ps) < TWO32
    ensures SubHdrSize(cls, noteSize, ps) == SubBlocks(cls, noteSize, ps)
    ensures OffsetDumpBitmap(cls, noteSize, ps) == BitmapOffset(cls, noteSize, ps)
  {
    AddrBounds(1 + SubBlocks(cls, noteSize, ps), ps);
    RoundUp(cls.subHeader + noteSize, ps);
    AddrMono(1, 1 + SubBlocks(cls, noteSize, ps), ps);
  }

  lemma LayoutRight(cls: Class, noteSize: nat, len: nat, ps: nat)
    requires PageSize(ps) && Offset(len, ps) == 0 && Fits(cls, noteSize, len, ps)
    ensures SubHdrSize(cls, noteSize, ps) == SubBlocks(cls, noteSize, ps) < TWO32
    ensures U32(BitmapBlocks(len, ps)) == BitmapBlocks(len, ps)
    ensures OffsetDumpBitmap(cls, noteSize, ps) == BitmapOffset(cls, noteSize, ps)
    ensures OffsetPage(cls, noteSize, len, ps) == PageOffset(cls, noteSize, len, ps)
  {
    BitmapsFill(cls, noteSize, len, ps);
    AddrBounds(1 + SubBlocks(cls, noteSize, ps) + BitmapBlocks(len, ps), ps);
    HeaderRight(cls, noteSize, ps);
  }

  /** Header and notes end below 4 GiB, and the number of blocks before the page data has 32 bits. */
  predicate Countable(cls: Class, noteSize: nat, len: nat, ps: nat)
    requires ps > 0
  {
    BitmapOffset(cls, noteSize, ps) < TWO32 && 1 + SubBlocks(cls, noteSize, ps) + BitmapBlocks(len, ps) < TWO32
  }

  /** Then the offset of the page data is wrong by whole multiples of 4 GiB, and still on a page boundary. */
  lemma WrappedOffset(cls: Class, noteSize: nat, len: nat, ps: nat)
    requires PageSize(ps) && Offset(TWO32, ps) == 0 && Countable(cls, noteSize, len, ps)
    requires !Fits(cls, noteSize, len, ps)
    ensures var op := OffsetPage(cls, noteSize, len, ps);
            op + TWO32 <= PageOffset(cls, noteSize, len, ps) && (op == 0 || ps <= op)
  {
    HeaderRight(cls, noteSize, ps);
    var n := 1 + SubBlocks(cls, noteSize, ps) + BitmapBlocks(len, ps);
    assert OffsetPage(cls, noteSize, len, ps) == U32(Addr(n, ps));
    PageAddr(n, ps, 0);
    WrapAligned(Addr(n, ps), ps);
    WrapBelow(Addr(n, ps));
  }

  lemma WrapBelow(x: nat)
    requires x >= TWO32
    ensures U32(x) + TWO32 <= x
  {
  }

  /** What is left of a page boundary modulo 4 GiB is one. */
  lemma {:induction false} WrapAligned(x: nat, ps: nat)
    requires PageSize(ps) && Offset(TWO32, ps) == 0 && Offset(x, ps) == 0
    ensures Offset(U32(x), ps) == 0
  {
    if x >= TWO32 {
      AlignedDiff(ps, x, TWO32);
      WrapAligned(x - TWO32, ps);
    }
  }

  /** Header and notes, the two bitmaps, and descriptors with data: each part ends before the next begins. */
  predicate RegionsApart(cls: Class, noteSize: nat, len: nat, ps: nat, offsetDumpBitmap: nat, offsetPage: nat)
    requires ps > 0
  {
    BitmapOffset(cls, noteSize, ps) <= offsetDumpBitmap && offsetDumpBitmap + 2 * len <= offsetPage
  }

  /** The regions are apart exactly when the part before the page data is below 4 GiB. */
  lemma LayoutIff(cls: Class, noteSize: nat, len: nat, ps: nat)
    requires PageSize(ps) && Offset(len, ps) == 0
    ensures RegionsApart(cls, noteSize, len, ps, OffsetDumpBitmap(cls, noteSize, ps),
                         OffsetPage(cls, noteSize, len, ps))
       <==> Fits(cls, noteSize, len, ps)
  {
    BitmapsFill(cls, noteSize, len, ps);
    if Fits(cls, noteSize, len, ps) {
      LayoutRight(cls, noteSize, len, ps);
    }
  }

  /** A guest whose memory reaches page 2^34, which is 64 TiB with pages of 4 KiB, makes the regions overlap. */
  lemma HugeGuestOverlaps(cls: Class, noteSize: nat, maxMapnr: nat, ps: nat)
    requires PageSize(ps) && maxMapnr >= 0x4_0000_0000
    ensures var len := BitmapLen(maxMapnr, ps);
            !RegionsApart(cls, noteSize, len, ps, OffsetDumpBitmap(cls, noteSize, ps),
                          OffsetPage(cls, noteSize, len, ps))
  {
    var len := BitmapLen(maxMapnr, ps);
    LenAligned(maxMapnr, ps);
    BitmapsFill(cls, noteSize, len, ps);
    RoundUp(DivRoundUp(maxMapnr, 8), ps);
    PageIsDiv(maxMapnr + 7, 8);
    LayoutIff(cls, noteSize, len, ps);
  }
}
