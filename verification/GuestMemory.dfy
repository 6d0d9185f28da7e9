/** Guest memory as the dump code sees it: a list of blocks, walked page by page (qemu/dump.c). */
module GuestMemory {
  import opened Basics
  import opened Arith
  import opened Vmcore

  /** GuestPhysBlock; host is the memory at host_addr. */
  datatype Block = Block(start: nat, end: nat, host: seq<byte>)

  /** dump_pfn_to_paddr: pfn << page shift. */
  function Addr(pfn: nat, ps: nat): nat {
    if pfn == 0 then 0 else Addr(pfn - 1, ps) + ps
  }

  lemma {:induction false} AddrIsMul(p: nat, ps: nat)
    ensures Addr(p, ps) == p * ps
  {
    if p > 0 {
      AddrIsMul(p - 1, ps);
      assert p * ps == (p - 1) * ps + ps;
    }
  }

  lemma {:induction false} AddrMono(p: nat, q: nat, ps: nat)
    ensures p < q ==> Addr(p, ps) + ps <= Addr(q, ps)
  {
    if p + 1 < q {
      AddrMono(p, q - 1, ps);
    }
  }

  lemma {:induction false} AddrPage(x: nat, ps: nat)
    requires ps > 0
    ensures x == Addr(Page(x, ps), ps) + Offset(x, ps)
  {
    if x >= ps {
      AddrPage(x - ps, ps);
    }
  }

  lemma {:induction false} PageAddr(p: nat, ps: nat, o: nat)
    requires o < ps
    ensures Page(Addr(p, ps) + o, ps) == p && Offset(Addr(p, ps) + o, ps) == o
  {
    if p > 0 {
      PageAddr(p - 1, ps, o);
    }
  }

  /** Blocks are page aligned and not empty, and listed by rising address without overlap. */
  predicate Sorted(blocks: seq<Block>, ps: nat) {
    && ps > 0 && blocks != []
    && (forall i | 0 <= i < |blocks| :: Whole(blocks[i], ps))
    && (forall i, j | 0 <= i < j < |blocks| :: blocks[i].end <= blocks[j].start)
  }

  predicate Whole(b: Block, ps: nat) {
    ps > 0 && Offset(b.start, ps) == 0 && Offset(b.end, ps) == 0 && b.start < b.end && |b.host| == b.end - b.start
    && b.end + ps < TWO64
  }

  predicate InBlock(b: Block, ps: nat, pfn: nat) {
    b.start <= Addr(pfn, ps) && Addr(pfn, ps) + ps <= b.end
  }

  ghost predicate Dumpable(blocks: seq<Block>, ps: nat, pfn: nat) {
    exists i | 0 <= i < |blocks| :: InBlock(blocks[i], ps, pfn)
  }

  function PageData(b: Block, ps: nat, pfn: nat): seq<byte>
    requires InBlock(b, ps, pfn) && |b.host| == b.end - b.start
  {
    var at := Addr(pfn, ps) - b.start;
    b.host[at..at + ps]
  }

  /** A page lies in one block only. */
  lemma OneBlock(blocks: seq<Block>, ps: nat, pfn: nat, i: nat, j: nat)
    requires Sorted(blocks, ps) && i < |blocks| && j < |blocks|
    requires InBlock(blocks[i], ps, pfn) && InBlock(blocks[j], ps, pfn)
    ensures i == j
  {
  }

  /** get_max_mapnr */
  function MaxMapnr(blocks: seq<Block>, ps: nat): nat
    requires Sorted(blocks, ps)
  {
    Page(blocks[|blocks| - 1].end, ps)
  }

  lemma BelowMax(blocks: seq<Block>, ps: nat, pfn: nat)
    requires Sorted(blocks, ps) && Dumpable(blocks, ps, pfn)
    ensures pfn < MaxMapnr(blocks, ps)
  {
    var i :| 0 <= i < |blocks| && InBlock(blocks[i], ps, pfn);
    var end := blocks[|blocks| - 1].end;
    AddrPage(end, ps);
    AddrMono(MaxMapnr(blocks, ps), pfn, ps);
  }

  /** No page of guest memory from lo to below hi. */
  ghost predicate NoPage(blocks: seq<Block>, ps: nat, lo: nat, hi: nat) {
    forall p | lo <= p < hi :: !Dumpable(blocks, ps, p)
  }

  lemma FirstPage(blocks: seq<Block>, ps: nat, i: nat)
    requires Sorted(blocks, ps) && i < |blocks|
    ensures InBlock(blocks[i], ps, Page(blocks[i].start, ps)) && Addr(Page(blocks[i].start, ps), ps) == blocks[i].start
  {
    AddrPage(blocks[i].start, ps);
    PageMono(ps, blocks[i].start, blocks[i].end);
  }

  /** Between block i, left at page lo, and the start of the block after it there is no page. */
  lemma GapAfter(blocks: seq<Block>, ps: nat, i: int, lo: nat, hi: nat)
    requires Sorted(blocks, ps) && -1 <= i < |blocks|
    requires i >= 0 ==> Addr(lo, ps) + ps > blocks[i].end
    requires i + 1 < |blocks| ==> Addr(hi, ps) == blocks[i + 1].start
    requires i + 1 == |blocks| ==> hi >= MaxMapnr(blocks, ps)
    ensures NoPage(blocks, ps, lo, hi)
  {
    forall p | lo <= p < hi
      ensures !Dumpable(blocks, ps, p)
    {
      AddrMono(lo, p, ps);
      AddrMono(p, hi, ps);
    }
  }

  /** What get_next_page finds when it leaves block i at page lo for the block after it. */
  lemma EnterBlock(blocks: seq<Block>, ps: nat, i: int, lo: nat)
    requires Sorted(blocks, ps) && -1 <= i < |blocks| - 1
    requires i >= 0 ==> Addr(lo, ps) + ps > blocks[i].end
    requires i >= 0 && lo > 0 ==> Addr(lo - 1, ps) < blocks[i].end
    ensures var pfn := Page(blocks[i + 1].start, ps);
            && InBlock(blocks[i + 1], ps, pfn) && Addr(pfn, ps) == blocks[i + 1].start
            && NoPage(blocks, ps, lo, pfn)
            && (i >= 0 ==> lo <= pfn)
  {
    var pfn := Page(blocks[i + 1].start, ps);
    FirstPage(blocks, ps, i + 1);
    GapAfter(blocks, ps, i, lo, pfn);
    if i >= 0 && lo > 0 {
      AddrMono(pfn, lo - 1, ps);
    }
  }

  /** The first page of a block is where its memory starts. */
  lemma FirstData(b: Block, ps: nat, pfn: nat)
    requires |b.host| == b.end - b.start && InBlock(b, ps, pfn) && Addr(pfn, ps) == b.start
    ensures ps <= |b.host| && PageData(b, ps, pfn) == b.host[0..ps]
  {
  }

  /** The state of the walk: the block and page reached, or not started. */
  ghost predicate Walking(blocks: seq<Block>, ps: nat, iter: Option<nat>, pfn: nat) {
    iter.Some? ==> iter.value < |blocks| && InBlock(blocks[iter.value], ps, pfn)
  }

  /** The walk moved from page pfn, or from its start, to the least page above it. */
  ghost predicate Moved(blocks: seq<Block>, ps: nat, iter: Option<nat>, pfn: nat, pfn': nat) {
    if iter.None? then NoPage(blocks, ps, 0, pfn') else pfn < pfn' && NoPage(blocks, ps, pfn + 1, pfn')
  }

  /**
    get_next_page.  iter is None before the first call and after the last page.
    Each call moves to the least page of guest memory above the one before.
   */
  method GetNextPage(blocks: seq<Block>, ps: nat, iter: Option<nat>, pfn: nat)
    returns (ok: bool, iter': Option<nat>, pfn': nat, buf: seq<byte>)
    requires Sorted(blocks, ps) && Walking(blocks, ps, iter, pfn)
    ensures Walking(blocks, ps, iter', pfn') && iter'.Some? == ok
    ensures ok ==> Moved(blocks, ps, iter, pfn, pfn') && buf == PageData(blocks[iter'.value], ps, pfn')
    ensures !ok ==> iter.Some? && NoPage(blocks, ps, pfn + 1, MaxMapnr(blocks, ps))
  {
    if iter.None? {
      EnterBlock(blocks, ps, -1, 0);
      iter', pfn' := Some(0), Page(blocks[0].start, ps);
      FirstData(blocks[0], ps, pfn');
      return true, iter', pfn', blocks[0].host[0..ps];
    }
    var block := iter.value;
    pfn' := pfn + 1;
    var addr := Addr(pfn', ps);
    if addr >= blocks[block].start && addr + ps <= blocks[block].end {
      var at := addr - blocks[block].start;
      return true, iter, pfn', blocks[block].host[at..at + ps];
    }
    if block + 1 == |blocks| {
      GapAfter(blocks, ps, block, pfn', MaxMapnr(blocks, ps));
      return false, None, pfn', [];
    }
    EnterBlock(blocks, ps, block, pfn');
    iter', pfn' := Some(block + 1), Page(blocks[block + 1].start, ps);
    FirstData(blocks[block + 1], ps, pfn');
    return true, iter', pfn', blocks[block + 1].host[0..ps];
  }

  /** The pages of guest memory below pfn n, in order. */
  ghost function Pages(blocks: seq<Block>, ps: nat, n: nat): (r: seq<seq<byte>>)
    requires Sorted(blocks, ps)
  {
    if n == 0 then []
    else Pages(blocks, ps, n - 1) + if Dumpable(blocks, ps, n - 1) then [DataOf(blocks, ps, n - 1)] else []
  }

  ghost function DataOf(blocks: seq<Block>, ps: nat, pfn: nat): seq<byte>
    requires Sorted(blocks, ps) && Dumpable(blocks, ps, pfn)
  {
    var i :| 0 <= i < |blocks| && InBlock(blocks[i], ps, pfn);
    PageData(blocks[i], ps, pfn)
  }

  lemma DataOfBlock(blocks: seq<Block>, ps: nat, pfn: nat, i: nat)
    requires Sorted(blocks, ps) && i < |blocks| && InBlock(blocks[i], ps, pfn)
    ensures DataOf(blocks, ps, pfn) == PageData(blocks[i], ps, pfn)
  {
    var j :| 0 <= j < |blocks| && InBlock(blocks[j], ps, pfn)
    && DataOf(blocks, ps, pfn) == PageData(blocks[j], ps, pfn);
    OneBlock(blocks, ps, pfn, i, j);
  }

  lemma {:induction false} PagesGap(blocks: seq<Block>, ps: nat, lo: nat, hi: nat)
    requires Sorted(blocks, ps) && lo <= hi && NoPage(blocks, ps, lo, hi)
    ensures Pages(blocks, ps, hi) == Pages(blocks, ps, lo)
  {
    if lo < hi {
      PagesGap(blocks, ps, lo, hi - 1);
    }
  }

  /** Page pfn is the one that comes after all pages below it. */
  lemma {:induction false} PageRank(blocks: seq<Block>, ps: nat, pfn: nat, n: nat)
    requires Sorted(blocks, ps) && Dumpable(blocks, ps, pfn) && pfn < n
    ensures |Pages(blocks, ps, pfn)| < |Pages(blocks, ps, n)|
    ensures Pages(blocks, ps, n)[|Pages(blocks, ps, pfn)|] == DataOf(blocks, ps, pfn)
  {
    if pfn < n - 1 {
      PageRank(blocks, ps, pfn, n - 1);
    }
  }

  lemma {:induction false} PagesMono(blocks: seq<Block>, ps: nat, m: nat, n: nat)
    requires Sorted(blocks, ps) && m <= n
    ensures |Pages(blocks, ps, m)| <= |Pages(blocks, ps, n)| <= |Pages(blocks, ps, m)| + (n - m)
  {
    if m < n {
      PagesMono(blocks, ps, m, n - 1);
    }
  }

  /** The pages below this one have been walked. */
  function Walked(iter: Option<nat>, pfn: nat): nat {
    if iter.None? then 0 else pfn + 1
  }

  /** What one successful call of get_next_page adds to the pages walked. */
  lemma WalkOn(blocks: seq<Block>, ps: nat, iter: Option<nat>, pfn: nat, i: nat, pfn': nat)
    requires Sorted(blocks, ps) && Moved(blocks, ps, iter, pfn, pfn') && i < |blocks| && InBlock(blocks[i], ps, pfn')
    ensures Pages(blocks, ps, pfn' + 1) == Pages(blocks, ps, Walked(iter, pfn)) + [PageData(blocks[i], ps, pfn')]
    ensures |Pages(blocks, ps, pfn' + 1)| == |Pages(blocks, ps, Walked(iter, pfn))| + 1
    ensures NoPage(blocks, ps, Walked(iter, pfn), pfn') && Walked(iter, pfn) <= pfn' < MaxMapnr(blocks, ps)
  {
    PagesGap(blocks, ps, Walked(iter, pfn), pfn');
    DataOfBlock(blocks, ps, pfn', i);
    BelowMax(blocks, ps, pfn');
  }

  /** The walk ends at the last page. */
  lemma WalkEnds(blocks: seq<Block>, ps: nat, iter: Option<nat>, pfn: nat)
    requires Sorted(blocks, ps) && iter.Some? && Walking(blocks, ps, iter, pfn)
    requires NoPage(blocks, ps, pfn + 1, MaxMapnr(blocks, ps))
    ensures pfn + 1 == MaxMapnr(blocks, ps)
  {
    var b := blocks[|blocks| - 1];
    var last := MaxMapnr(blocks, ps) - 1;
    AddrPage(b.end, ps);
    AddrPage(b.start, ps);
    PageMono(ps, b.start, b.end);
    AddrMono(Page(b.start, ps), MaxMapnr(blocks, ps), ps);
    assert InBlock(blocks[|blocks| - 1], ps, last);
    assert Dumpable(blocks, ps, last);
    BelowMax(blocks, ps, pfn);
  }
}
