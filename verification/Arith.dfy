/** Facts about multiplication, division and alignment that several models need. */
module Arith {

  lemma {:induction false} MulStep(a: nat, b: nat, s: nat)
    ensures a < b ==> a * s + s <= b * s
  {
    if a < b {
      assert b * s == (b - 1) * s + s;
      if a + 1 < b {
        MulStep(a, b - 1, s);
      }
    }
  }

  lemma DivModUnique(x: nat, s: nat, q: nat, r: nat)
    requires s > 0 && r < s && x == q * s + r
    ensures x / s == q && x % s == r
  {
    assert x == (x / s) * s + x % s;
    MulStep(q, x / s, s);
    MulStep(x / s, q, s);
  }

  /** addr >> TARGET_PAGE_BITS for a page of the given size. */
  function Page(addr: nat, size: nat): nat
    requires size > 0
  {
    if addr < size then 0 else 1 + Page(addr - size, size)
  }

  /** addr & ~TARGET_PAGE_MASK */
  function Offset(addr: nat, size: nat): (o: nat)
    requires size > 0
    ensures o < size && o <= addr
  {
    if addr < size then addr else Offset(addr - size, size)
  }

  lemma {:induction false} PageIsDiv(addr: nat, size: nat)
    requires size > 0
    ensures Page(addr, size) == addr / size && Offset(addr, size) == addr % size
    ensures addr == Page(addr, size) * size + Offset(addr, size)
  {
    if addr >= size {
      PageIsDiv(addr - size, size);
      assert (Page(addr - size, size) + 1) * size == Page(addr - size, size) * size + size;
    }
    DivModUnique(addr, size, Page(addr, size), Offset(addr, size));
  }

  lemma {:induction false} PageSplit(addr: nat, size: nat, page: nat, offset: nat)
    requires size > 0 && offset < size && addr == page * size + offset
    ensures Page(addr, size) == page && Offset(addr, size) == offset
  {
    PageIsDiv(addr, size);
    DivModUnique(addr, size, page, offset);
  }

  /** Every page has a first byte. */
  lemma {:induction false} ByteOf(page: nat, size: nat) returns (addr: nat)
    requires size > 0
    ensures Page(addr, size) == page && Offset(addr, size) == 0
  {
    if page == 0 {
      addr := 0;
    } else {
      addr := ByteOf(page - 1, size);
      addr := addr + size;
    }
  }

  /** The page that holds addr, and the one after it. */
  lemma PageBase(addr: nat, size: nat)
    requires size > 0
    ensures var base := addr - Offset(addr, size);
            Offset(base, size) == 0 && Page(base, size) == Page(addr, size)
    ensures var base := addr - Offset(addr, size) + size;
            Offset(base, size) == 0 && Page(base, size) == Page(addr, size) + 1
  {
    PageIsDiv(addr, size);
    var q := Page(addr, size);
    assert (q + 1) * size == q * size + size;
    PageSplit(addr - Offset(addr, size), size, q, 0);
    PageSplit(addr - Offset(addr, size) + size, size, q + 1, 0);
  }

  /** The addresses of the page at an aligned base. */
  lemma PageBytes(size: nat, base: nat, addr: nat)
    requires 0 < size && Offset(base, size) == 0
    ensures Page(addr, size) == Page(base, size) <==> base <= addr < base + size
    ensures base <= addr < base + size ==> Offset(addr, size) == addr - base
  {
    PageIsDiv(base, size);
    PageIsDiv(addr, size);
    MulStep(Page(base, size), Page(addr, size), size);
    MulStep(Page(addr, size), Page(base, size), size);
  }

  lemma PageAbove(size: nat, start: nat, addr: nat)
    requires 0 < size && Offset(start, size) == 0
    ensures start <= addr <==> Page(start, size) <= Page(addr, size)
  {
    PageIsDiv(start, size);
    PageIsDiv(addr, size);
    MulStep(Page(start, size), Page(addr, size), size);
    MulStep(Page(addr, size), Page(start, size), size);
  }

  lemma {:induction false} PageSum(size: nat, start: nat, len: nat)
    requires 0 < size && Offset(start, size) == 0 && Offset(len, size) == 0
    ensures Page(start + len, size) == Page(start, size) + Page(len, size) && Offset(start + len, size) == 0
    decreases len
  {
    if len >= size {
      PageSum(size, start, len - size);
    }
  }

  lemma {:induction false} AlignedDiff(size: nat, a: nat, b: nat)
    requires 0 < size && b <= a && Offset(a, size) == 0 && Offset(b, size) == 0
    ensures Offset(a - b, size) == 0
    decreases b
  {
    if b >= size {
      AlignedDiff(size, a - size, b - size);
    }
  }

  /** The pages from an aligned start over an aligned length. */
  lemma PageRun(size: nat, start: nat, len: nat, addr: nat)
    requires 0 < size && Offset(start, size) == 0 && Offset(len, size) == 0
    ensures start <= addr < start + len <==> Page(start, size) <= Page(addr, size) < Page(start, size) + Page(len, size)
    ensures Page(start + len, size) == Page(start, size) + Page(len, size) && Offset(start + len, size) == 0
  {
    PageSum(size, start, len);
    PageAbove(size, start, addr);
    PageAbove(size, start + len, addr);
  }

  lemma PageMono(size: nat, a: nat, b: nat)
    requires 0 < size && a <= b
    ensures Page(a, size) <= Page(b, size)
    ensures Offset(a, size) == 0 && Offset(b, size) == 0 && a < b ==> a + size <= b && Page(a, size) < Page(b, size)
  {
    PageIsDiv(a, size);
    PageIsDiv(b, size);
    MulStep(Page(a, size), Page(b, size), size);
    MulStep(Page(b, size), Page(a, size), size);
  }
}
