/** The space of RAM offsets and the dirty bitmaps that it indexes (qemu/exec.c). */
module RamList {
  import opened Basics
  import opened Arith

  const RAM_ADDR_MAX: nat := 0xFFFF_FFFF_FFFF_FFFF

  /** RAMBlock */
  datatype RamBlock = RamBlock(offset: nat, maxLength: nat) {
    function End(): nat {
      offset + maxLength
    }
  }

  /** ROUND_UP on 64-bit values. */
  function RoundUp64(n: nat, a: nat): nat
    requires a > 0
  {
    var s := Wrap64(n + a - 1);
    s - Offset(s, a)
  }

  /** Rounding up gives the next multiple, or 0 past the end of the space. */
  lemma RoundUpIs(n: nat, a: nat)
    requires 0 < a < TWO64 && n <= RAM_ADDR_MAX
    ensures Offset(RoundUp64(n, a), a) == 0 && RoundUp64(n, a) < TWO64
    ensures RoundUp64(n, a) == 0 || n <= RoundUp64(n, a) < n + a
    ensures RoundUp64(n, a) == 0 <==> n == 0 || n + a > TWO64
  {
    var s := Wrap64(n + a - 1);
    PageBase(s, a);
  }

  /** There is no multiple between n and n rounded up. */
  lemma NoneBetween(n: nat, a: nat, x: nat)
    requires 0 < a < TWO64 && n <= RAM_ADDR_MAX && Offset(x, a) == 0
    ensures n <= x < RoundUp64(n, a) ==> false
  {
    RoundUpIs(n, a);
    PageMono(a, if x <= RoundUp64(n, a) then x else RoundUp64(n, a), RoundUp64(n, a));
  }

  /** Blocks start on a long of the bitmap, do not overlap, and end within the space. */
  ghost predicate Separate(blocks: seq<RamBlock>, a: nat)
    requires a > 0
  {
    && (forall i | 0 <= i < |blocks| ::
          Offset(blocks[i].offset, a) == 0 && blocks[i].maxLength > 0 && blocks[i].End() <= RAM_ADDR_MAX)
    && (forall i, j | 0 <= i < |blocks| && 0 <= j < |blocks| && i != j :: Apart(blocks[i], blocks[j]))
  }

  predicate Apart(b: RamBlock, c: RamBlock) {
    b.End() <= c.offset || c.End() <= b.offset
  }

  function Candidate(b: RamBlock, a: nat): nat
    requires a > 0
  {
    RoundUp64(b.End(), a)
  }

  /** The start of the closest block at or after c. */
  function NextOf(blocks: seq<RamBlock>, c: nat): (next: nat)
    ensures next <= RAM_ADDR_MAX
  {
    if blocks == [] then RAM_ADDR_MAX
    else
      var next, o := NextOf(blocks[..|blocks| - 1], c), blocks[|blocks| - 1].offset;
      if o >= c && o < next then o else next
  }

  lemma {:induction false} NextOfIs(blocks: seq<RamBlock>, c: nat)
    ensures forall i | 0 <= i < |blocks| && blocks[i].offset >= c :: NextOf(blocks, c) <= blocks[i].offset
    ensures NextOf(blocks, c) == RAM_ADDR_MAX || exists i | 0 <= i < |blocks| ::
              blocks[i].offset == NextOf(blocks, c) >= c
  {
    if blocks != [] {
      NextOfIs(blocks[..|blocks| - 1], c);
    }
  }

  /** The free space that follows block number i. */
  function Gap(blocks: seq<RamBlock>, a: nat, i: nat): int
    requires a > 0 && i < |blocks|
  {
    NextOf(blocks, Candidate(blocks[i], a)) - Candidate(blocks[i], a)
  }

  /** A gap that is large enough holds a block apart from all others. */
  lemma GapIsFree(blocks: seq<RamBlock>, a: nat, i: nat, size: nat, j: nat)
    requires 0 < a < TWO64 && Separate(blocks, a) && i < |blocks| && j < |blocks| && Gap(blocks, a, i) >= size
    ensures Apart(RamBlock(Candidate(blocks[i], a), size), blocks[j])
  {
    var c := Candidate(blocks[i], a);
    RoundUpIs(blocks[i].End(), a);
    NextOfIs(blocks, c);
    if blocks[j].offset < c {
      NoneBetween(blocks[i].End(), a, blocks[j].offset);
    }
  }

  /** BITS_PER_LONG << TARGET_PAGE_BITS is a power of two. */
  predicate Alignment(a: nat) {
    2 <= a < TWO64 && Offset(TWO64, a) == 0
  }

  lemma GapBound(blocks: seq<RamBlock>, a: nat, i: nat)
    requires Alignment(a) && Separate(blocks, a) && i < |blocks|
    ensures 0 <= Gap(blocks, a, i) < RAM_ADDR_MAX && Candidate(blocks[i], a) < RAM_ADDR_MAX
    ensures Offset(Candidate(blocks[i], a), a) == 0
  {
    var c := Candidate(blocks[i], a);
    RoundUpIs(blocks[i].End(), a);
    PageMono(a, c, TWO64);
    NextOfIs(blocks, c);
  }

  /** The room is free: at an aligned offset, within the space, and apart from every block. */
  ghost predicate Room(blocks: seq<RamBlock>, a: nat, offset: nat, size: nat)
    requires a > 0
  {
    Offset(offset, a) == 0 && offset + size <= RAM_ADDR_MAX && forall j | 0 <= j < |blocks| ::
      Apart(RamBlock(offset, size), blocks[j])
  }

  /** Some gap is large enough; in an empty space everything is. */
  ghost predicate HasGap(blocks: seq<RamBlock>, a: nat, size: nat)
    requires a > 0
  {
    blocks == [] || exists i | 0 <= i < |blocks| :: Gap(blocks, a, i) >= size
  }

  /** Among the gaps that are large enough none is smaller than that of block k. */
  ghost predicate Smallest(blocks: seq<RamBlock>, a: nat, size: nat, k: nat)
    requires a > 0 && k < |blocks|
  {
    Gap(blocks, a, k) >= size && forall i | 0 <= i < |blocks| && Gap(blocks, a, i) >= size ::
      Gap(blocks, a, k) <= Gap(blocks, a, i)
  }

  /** The inner loop of find_ram_offset. */
  method ClosestBlock(blocks: seq<RamBlock>, candidate: nat) returns (next: nat)
    ensures next == NextOf(blocks, candidate)
  {
    next := RAM_ADDR_MAX;
    for i := 0 to |blocks|
      invariant next == NextOf(blocks[..i], candidate)
    {
      assert blocks[..i + 1][..i] == blocks[..i];
      if blocks[i].offset >= candidate {
        next := if next < blocks[i].offset then next else blocks[i].offset;
      }
    }
    assert blocks[..|blocks|] == blocks;
  }

  /** The best block among the first n, if any has a gap that is large enough. */
  ghost predicate BestOf(blocks: seq<RamBlock>, a: nat, size: nat, n: nat, offset: nat, mingap: nat, best: nat)
    requires a > 0 && n <= |blocks|
  {
    if offset == RAM_ADDR_MAX then mingap == RAM_ADDR_MAX && forall i | 0 <= i < n :: Gap(blocks, a, i) < size
    else
      && best < n && offset == Candidate(blocks[best], a) && mingap == Gap(blocks, a, best) >= size
      && forall i | 0 <= i < n && Gap(blocks, a, i) >= size :: mingap <= Gap(blocks, a, i)
  }

  /**
    find_ram_offset.  None is where it aborts.  The offset is free room in the
    smallest sufficient gap after a block.
   */
  method FindRamOffset(blocks: seq<RamBlock>, a: nat, size: nat) returns (r: Option<nat>)
    requires Alignment(a) && Separate(blocks, a) && 0 < size <= RAM_ADDR_MAX
    ensures r.Some? ==> Room(blocks, a, r.value, size)
    ensures blocks == [] ==> r == Some(0)
    ensures r.Some? <==> HasGap(blocks, a, size)
    ensures blocks != [] && r.Some? ==>
              exists k | 0 <= k < |blocks| :: Smallest(blocks, a, size, k) && r.value == Candidate(blocks[k], a)
  {
    if blocks == [] {
      return Some(0);
    }
    var offset: nat, mingap: nat := RAM_ADDR_MAX, RAM_ADDR_MAX;
    ghost var best := 0;
    for i := 0 to |blocks|
      invariant BestOf(blocks, a, size, i, offset, mingap, best)
    {
      var candidate := RoundUp64(blocks[i].End(), a);
      var next := ClosestBlock(blocks, candidate);
      GapBound(blocks, a, i);
      if next - candidate >= size && next - candidate < mingap {
        offset, mingap := candidate, next - candidate;
        best := i;
      }
    }
    if offset == RAM_ADDR_MAX {
      return None;
    }
    GapBound(blocks, a, best);
    forall j | 0 <= j < |blocks|
      ensures Apart(RamBlock(offset, size), blocks[j])
    {
      GapIsFree(blocks, a, best, size, j);
    }
    return Some(offset);
  }

  // Dirty bitmaps: per client an array of bitmaps of DIRTY_MEMORY_BLOCK_SIZE pages each.

  const CLIENTS: nat := 3
  const DIRTY_MEMORY_BLOCK_SIZE: nat := 2097152

  /** DIV_ROUND_UP(pages, DIRTY_MEMORY_BLOCK_SIZE) */
  function NumBlocks(pages: nat): nat {
    (pages + DIRTY_MEMORY_BLOCK_SIZE - 1) / DIRTY_MEMORY_BLOCK_SIZE
  }

  predicate HasBit(d: seq<set<nat>>, page: nat) {
    page / DIRTY_MEMORY_BLOCK_SIZE < |d|
  }

  predicate DirtyBit(d: seq<set<nat>>, page: nat)
    requires HasBit(d, page)
  {
    page % DIRTY_MEMORY_BLOCK_SIZE in d[page / DIRTY_MEMORY_BLOCK_SIZE]
  }

  /** The array of a client has a bit for every page below n. */
  ghost predicate Covers(d: seq<set<nat>>, n: nat) {
    NumBlocks(n) <= |d|
  }

  lemma CoversPage(d: seq<set<nat>>, n: nat, page: nat)
    requires Covers(d, n) && page < n
    ensures HasBit(d, page)
  {
  }

  function LastEnd(blocks: seq<RamBlock>): nat {
    if blocks == [] then 0
    else
      var last, end := LastEnd(blocks[..|blocks| - 1]), blocks[|blocks| - 1].End();
      if last > end then last else end
  }

  lemma {:induction false} LastEndBound(blocks: seq<RamBlock>, i: nat)
    requires i < |blocks|
    ensures blocks[i].End() <= LastEnd(blocks)
  {
    if i < |blocks| - 1 {
      LastEndBound(blocks[..|blocks| - 1], i);
    }
  }

  ghost predicate Descending(blocks: seq<RamBlock>) {
    forall i, j | 0 <= i < j < |blocks| :: blocks[i].maxLength >= blocks[j].maxLength
  }

  /** The bits of the pages below n are the same. */
  ghost predicate SameBits(d: seq<set<nat>>, d': seq<set<nat>>, n: nat) {
    forall p: nat | p < n && HasBit(d, p) :: HasBit(d', p) && DirtyBit(d', p) == DirtyBit(d, p)
  }

  /** A longer array with the first blocks of d and empty ones after them. */
  function Extended(d: seq<set<nat>>, keep: nat, n: nat): seq<set<nat>>
    requires keep <= |d| && keep <= n
  {
    d[..keep] + seq(n - keep, _ => {})
  }

  lemma ExtendedKeeps(d: seq<set<nat>>, pages: nat, more: nat)
    requires Covers(d, pages) && NumBlocks(pages) <= NumBlocks(more)
    ensures var d' := Extended(d, NumBlocks(pages), NumBlocks(more)); Covers(d', more) && SameBits(d, d', pages)
  {
    var d' := Extended(d, NumBlocks(pages), NumBlocks(more));
    forall p: nat | p < pages && HasBit(d, p)
      ensures HasBit(d', p) && DirtyBit(d', p) == DirtyBit(d, p)
    {
      assert p / DIRTY_MEMORY_BLOCK_SIZE < NumBlocks(pages);
    }
  }

  /** The numbers of n bits from lo on. */
  function BitRange(lo: nat, n: nat): (s: set<nat>)
    ensures forall k: nat :: k in s <==> lo <= k < lo + n
  {
    if n == 0 then {} else BitRange(lo, n - 1) + {lo + n - 1}
  }

  /** bitmap_set_atomic in block idx of an array. */
  function SetBits(d: seq<set<nat>>, idx: nat, offset: nat, n: nat): (d': seq<set<nat>>)
    requires idx < |d|
    ensures |d'| == |d|
  {
    d[idx := d[idx] + BitRange(offset, n)]
  }

  /** The bits of the pages from lo up to hi have been set, and no others changed. */
  ghost predicate MarkedTo(d: seq<set<nat>>, d': seq<set<nat>>, lo: nat, hi: nat) {
    |d'| == |d| && forall p: nat | HasBit(d, p) :: DirtyBit(d', p) <==> DirtyBit(d, p) || lo <= p < hi
  }

  lemma MarkedMore(d: seq<set<nat>>, d': seq<set<nat>>, lo: nat, page: nat, n: nat)
    requires MarkedTo(d, d', lo, page) && lo <= page && page / DIRTY_MEMORY_BLOCK_SIZE < |d|
    requires page % DIRTY_MEMORY_BLOCK_SIZE + n <= DIRTY_MEMORY_BLOCK_SIZE
    ensures MarkedTo(d, SetBits(d', page / DIRTY_MEMORY_BLOCK_SIZE, page % DIRTY_MEMORY_BLOCK_SIZE, n), lo, page + n)
  {
    var idx, offset := page / DIRTY_MEMORY_BLOCK_SIZE, page % DIRTY_MEMORY_BLOCK_SIZE;
    var d2 := SetBits(d', idx, offset, n);
    forall p: nat | HasBit(d, p)
      ensures DirtyBit(d2, p) <==> DirtyBit(d, p) || lo <= p < page + n
    {
      assert p / DIRTY_MEMORY_BLOCK_SIZE == idx ==> (DirtyBit(d2, p) <==> DirtyBit(d', p) || page <= p < page + n);
    }
  }

  /** The same for all clients. */
  ghost predicate AllMarked(ds: seq<seq<set<nat>>>, ds': seq<seq<set<nat>>>, lo: nat, hi: nat) {
    |ds| == |ds'| == CLIENTS && forall c | 0 <= c < CLIENTS :: MarkedTo(ds[c], ds'[c], lo, hi)
  }

  ghost predicate AllCover(ds: seq<seq<set<nat>>>, n: nat) {
    |ds| == CLIENTS && forall c | 0 <= c < CLIENTS :: Covers(ds[c], n)
  }

  lemma MarkAll(ds: seq<seq<set<nat>>>, ds': seq<seq<set<nat>>>, ds'': seq<seq<set<nat>>>, lo: nat, page: nat, n: nat)
    requires AllMarked(ds, ds', lo, page) && lo <= page && page % DIRTY_MEMORY_BLOCK_SIZE + n <= DIRTY_MEMORY_BLOCK_SIZE
    requires n > 0 && AllCover(ds, page + n)
    requires |ds''| == CLIENTS && forall c | 0 <= c < CLIENTS ::
               page / DIRTY_MEMORY_BLOCK_SIZE < |ds'[c]|
               && ds''[c] == SetBits(ds'[c], page / DIRTY_MEMORY_BLOCK_SIZE, page % DIRTY_MEMORY_BLOCK_SIZE, n)
    ensures AllMarked(ds, ds'', lo, page + n)
  {
    forall c | 0 <= c < CLIENTS
      ensures MarkedTo(ds[c], ds''[c], lo, page + n)
    {
      MarkedMore(ds[c], ds'[c], lo, page, n);
    }
  }

  /** The bit of a page is there and the same. */
  ghost predicate SameAt(d: seq<set<nat>>, d': seq<set<nat>>, p: nat) {
    HasBit(d, p) && HasBit(d', p) && DirtyBit(d', p) == DirtyBit(d, p)
  }

  lemma SeparateLess(blocks: seq<RamBlock>, a: nat, k: nat)
    requires a > 0 && Separate(blocks, a) && k < |blocks|
    ensures Separate(Removed(blocks, k), a)
  {
  }

  lemma {:induction false} LastEndLeast(blocks: seq<RamBlock>, x: nat)
    requires forall i | 0 <= i < |blocks| :: blocks[i].End() <= x
    ensures LastEnd(blocks) <= x
  {
    if blocks != [] {
      LastEndLeast(blocks[..|blocks| - 1], x);
    }
  }

  function Inserted(blocks: seq<RamBlock>, b: RamBlock, k: nat): seq<RamBlock>
    requires k <= |blocks|
  {
    blocks[..k] + [b] + blocks[k..]
  }

  function Removed(blocks: seq<RamBlock>, k: nat): seq<RamBlock>
    requires k < |blocks|
  {
    blocks[..k] + blocks[k + 1..]
  }

  lemma InsertedAt(blocks: seq<RamBlock>, b: RamBlock, k: nat, i: nat)
    requires k <= |blocks| && i <= |blocks|
    ensures Inserted(blocks, b, k)[i] == if i < k then blocks[i] else if i == k then b else blocks[i - 1]
  {
  }

  /** One more block, apart from the others. */
  lemma SeparateMore(blocks: seq<RamBlock>, a: nat, b: RamBlock, k: nat)
    requires a > 0 && Separate(blocks, a) && Room(blocks, a, b.offset, b.maxLength) && b.maxLength > 0 && k <= |blocks|
    ensures Separate(Inserted(blocks, b, k), a)
  {
    var more := Inserted(blocks, b, k);
    forall i | 0 <= i < |more|
      ensures Offset(more[i].offset, a) == 0 && more[i].maxLength > 0 && more[i].End() <= RAM_ADDR_MAX
    {
      InsertedAt(blocks, b, k, i);
    }
    forall i, j | 0 <= i < |more| && 0 <= j < |more| && i != j
      ensures Apart(more[i], more[j])
    {
      InsertedAt(blocks, b, k, i);
      InsertedAt(blocks, b, k, j);
    }
  }

  lemma LastEndMore(blocks: seq<RamBlock>, b: RamBlock, k: nat, x: nat)
    requires k <= |blocks| && LastEnd(blocks) <= x && b.End() <= x
    ensures LastEnd(Inserted(blocks, b, k)) <= x
  {
    var more := Inserted(blocks, b, k);
    forall i | 0 <= i < |more|
      ensures more[i].End() <= x
    {
      InsertedAt(blocks, b, k, i);
      if i != k {
        LastEndBound(blocks, if i < k then i else i - 1);
      }
    }
    LastEndLeast(more, x);
  }

  lemma LastEndLess(blocks: seq<RamBlock>, k: nat)
    requires k < |blocks|
    ensures LastEnd(Removed(blocks, k)) <= LastEnd(blocks)
  {
    var less := Removed(blocks, k);
    forall i | 0 <= i < |less|
      ensures less[i].End() <= LastEnd(blocks)
    {
      LastEndBound(blocks, if i < k then i else i + 1);
    }
    LastEndLeast(less, LastEnd(blocks));
  }

  /** Sizes are whole pages, biggest first. */
  ghost predicate Listed(blocks: seq<RamBlock>, ps: nat)
    requires ps > 0
  {
    Descending(blocks) && forall i | 0 <= i < |blocks| :: Offset(blocks[i].maxLength, ps) == 0
  }

  lemma ListedMore(blocks: seq<RamBlock>, ps: nat, b: RamBlock, k: nat)
    requires ps > 0 && Listed(blocks, ps) && Offset(b.maxLength, ps) == 0 && k <= |blocks|
    requires forall i | 0 <= i < k :: blocks[i].maxLength >= b.maxLength
    requires forall i | k <= i < |blocks| :: blocks[i].maxLength < b.maxLength
    ensures Listed(Inserted(blocks, b, k), ps)
  {
  }

  lemma ListedLess(blocks: seq<RamBlock>, ps: nat, k: nat)
    requires ps > 0 && Listed(blocks, ps) && k < |blocks|
    ensures Listed(Removed(blocks, k), ps)
  {
  }

  /** A multiple of 64 pages is a multiple of a page. */
  lemma {:induction false} CoarseAligned(x: nat, ps: nat)
    requires ps > 0 && Offset(x, 64 * ps) == 0
    ensures Offset(x, ps) == 0
  {
    if x >= 64 * ps {
      CoarseAligned(x - 64 * ps, ps);
      PageIsDiv(x - 64 * ps, ps);
      PageSplit(x, ps, Page(x - 64 * ps, ps) + 64, 0);
    }
  }

  /** Page is in a block. */
  ghost predicate LivePage(blocks: seq<RamBlock>, ps: nat, page: nat)
    requires ps > 0
  {
    exists i | 0 <= i < |blocks| :: Page(blocks[i].offset, ps) <= page < Page(blocks[i].End(), ps)
  }

  lemma LiveHasBit(blocks: seq<RamBlock>, ps: nat, d: seq<set<nat>>, page: nat)
    requires ps > 0 && LivePage(blocks, ps, page) && Covers(d, Page(LastEnd(blocks), ps))
    ensures page < Page(LastEnd(blocks), ps) && HasBit(d, page)
  {
    var i :| 0 <= i < |blocks| && Page(blocks[i].offset, ps) <= page < Page(blocks[i].End(), ps);
    LastEndBound(blocks, i);
    PageMono(ps, blocks[i].End(), LastEnd(blocks));
    CoversPage(d, Page(LastEnd(blocks), ps), page);
  }

  /** Extending an array and then marking a block that is apart from all others keeps the bit of every live page. */
  lemma LiveKept(blocks: seq<RamBlock>, ps: nat, b: RamBlock, used: nat, d: seq<set<nat>>, d': seq<set<nat>>,
                 d'': seq<set<nat>>, p: nat)
    requires ps > 0 && LivePage(blocks, ps, p) && Covers(d, Page(LastEnd(blocks), ps))
    requires used <= b.maxLength && forall j | 0 <= j < |blocks| :: Apart(b, blocks[j])
    requires SameBits(d, d', Page(LastEnd(blocks), ps))
    requires MarkedTo(d', d'', Page(b.offset, ps), Page(b.offset + used, ps))
    ensures SameAt(d, d'', p)
  {
    LiveHasBit(blocks, ps, d, p);
    var i :| 0 <= i < |blocks| && Page(blocks[i].offset, ps) <= p < Page(blocks[i].End(), ps);
    if b.End() <= blocks[i].offset {
      PageMono(ps, b.offset + used, blocks[i].offset);
    } else {
      PageMono(ps, blocks[i].End(), b.offset);
    }
  }

  /** The bits of all live pages are the same, for all clients. */
  ghost predicate AllSame(blocks: seq<RamBlock>, ps: nat, ds: seq<seq<set<nat>>>, ds': seq<seq<set<nat>>>)
    requires ps > 0
  {
    |ds| == |ds'| == CLIENTS && forall c, p: nat | 0 <= c < CLIENTS && LivePage(blocks, ps, p) ::
      SameAt(ds[c], ds'[c], p)
  }

  /** The pages from lo up to hi are dirty for all clients. */
  ghost predicate AllDirty(ds: seq<seq<set<nat>>>, lo: nat, hi: nat) {
    |ds| == CLIENTS && forall c, p: nat | 0 <= c < CLIENTS && lo <= p < hi :: HasBit(ds[c], p) && DirtyBit(ds[c], p)
  }

  /**
    Block b has joined the list; its pages in use are dirty for all clients, and
    every page that was in a block before has its bits as they were.
   */
  ghost predicate Joined(was: seq<RamBlock>, ds: seq<seq<set<nat>>>, now: seq<RamBlock>, ds': seq<seq<set<nat>>>,
                         ps: nat, b: RamBlock, used: nat)
    requires ps > 0
  {
    match b
    case RamBlock(offset, _) =>
      && multiset(now) == multiset(was) + multiset{b}
      && AllDirty(ds', Page(offset, ps), Page(offset + used, ps))
      && AllSame(was, ps, ds, ds')
  }

  lemma AddKeeps(blocks: seq<RamBlock>, ps: nat, b: RamBlock, used: nat, n: nat, ds: seq<seq<set<nat>>>,
                 ds': seq<seq<set<nat>>>, ds'': seq<seq<set<nat>>>)
    requires ps > 0 && AllCover(ds, Page(LastEnd(blocks), ps)) && AllCover(ds', n) && Page(b.offset + used, ps) <= n
    requires used <= b.maxLength && forall j | 0 <= j < |blocks| :: Apart(b, blocks[j])
    requires forall c | 0 <= c < CLIENTS :: SameBits(ds[c], ds'[c], Page(LastEnd(blocks), ps))
    requires AllMarked(ds', ds'', Page(b.offset, ps), Page(b.offset + used, ps))
    ensures AllSame(blocks, ps, ds, ds'') && AllDirty(ds'', Page(b.offset, ps), Page(b.offset + used, ps))
  {
    forall c, p: nat | 0 <= c < CLIENTS && LivePage(blocks, ps, p)
      ensures SameAt(ds[c], ds''[c], p)
    {
      LiveKept(blocks, ps, b, used, ds[c], ds'[c], ds''[c], p);
    }
    forall c, p: nat | 0 <= c < CLIENTS && Page(b.offset, ps) <= p < Page(b.offset + used, ps)
      ensures HasBit(ds''[c], p) && DirtyBit(ds''[c], p)
    {
      CoversPage(ds'[c], n, p);
      assert MarkedTo(ds'[c], ds''[c], Page(b.offset, ps), Page(b.offset + used, ps));
    }
  }

  class RamSpace {
    const pageSize: nat
    var blocks: seq<RamBlock>
    var dirty: seq<seq<set<nat>>>

    ghost predicate Valid()
      reads this
    {
      && pageSize > 0 && Alignment(64 * pageSize) && Separate(blocks, 64 * pageSize) && Listed(blocks, pageSize)
      && AllCover(dirty, Page(LastEnd(blocks), pageSize))
    }

    ghost predicate Live(page: nat)
      requires pageSize > 0
      reads this
    {
      LivePage(blocks, pageSize, page)
    }

    /** Every page that is in a block has a bit for every client. */
    lemma LiveCovered(page: nat, c: nat)
      requires Valid() && Live(page) && c < CLIENTS
      ensures page < Page(LastEnd(blocks), pageSize) && HasBit(dirty[c], page)
    {
      LiveHasBit(blocks, pageSize, dirty[c], page);
    }

    constructor (pageSize: nat)
      requires pageSize > 0 && Alignment(64 * pageSize)
      ensures Valid() && blocks == [] && this.pageSize == pageSize
    {
      this.pageSize := pageSize;
      blocks := [];
      dirty := [[], [], []];
    }

    /** last_ram_page */
    method LastRamPage() returns (last: nat)
      requires pageSize > 0
      ensures last == Page(LastEnd(blocks), pageSize)
    {
      var end := 0;
      for i := 0 to |blocks|
        invariant end == LastEnd(blocks[..i])
      {
        assert blocks[..i + 1][..i] == blocks[..i];
        end := if end > blocks[i].End() then end else blocks[i].End();
      }
      assert blocks[..|blocks|] == blocks;
      last := Page(end, pageSize);
    }

    /** cpu_physical_memory_set_dirty_flag: the array has the page that it is called for. */
    method SetDirtyFlag(page: nat, client: nat)
      requires Valid() && Live(page) && client < CLIENTS
      modifies this`dirty
      ensures Valid() && HasBit(dirty[client], page) && DirtyBit(dirty[client], page)
      ensures forall c, p: nat | 0 <= c < CLIENTS && HasBit(old(dirty)[c], p) && (c != client || p != page) ::
                HasBit(dirty[c], p) && DirtyBit(dirty[c], p) == DirtyBit(old(dirty)[c], p)
    {
      LiveCovered(page, client);
      var idx, offset := page / DIRTY_MEMORY_BLOCK_SIZE, page % DIRTY_MEMORY_BLOCK_SIZE;
      var d := dirty[client];
      dirty := dirty[client := d[idx := d[idx] + {offset}]];
    }

    /** dirty_memory_extend: enough blocks for the new size, and the bits below the old size kept. */
    method DirtyMemoryExtend(oldRamSize: nat, newRamSize: nat)
      requires AllCover(dirty, oldRamSize)
      modifies this`dirty
      ensures AllCover(dirty, newRamSize)
      ensures forall c | 0 <= c < CLIENTS :: SameBits(old(dirty)[c], dirty[c], oldRamSize)
    {
      var oldNumBlocks, newNumBlocks := NumBlocks(oldRamSize), NumBlocks(newRamSize);
      if newNumBlocks <= oldNumBlocks {
        return;
      }
      for c := 0 to CLIENTS
        invariant |dirty| == CLIENTS
        invariant forall k | 0 <= k < c :: Covers(dirty[k], newRamSize) && SameBits(old(dirty)[k], dirty[k], oldRamSize)
        invariant forall k | c <= k < CLIENTS :: dirty[k] == old(dirty)[k]
      {
        ExtendedKeeps(dirty[c], oldRamSize, newRamSize);
        dirty := dirty[c := Extended(dirty[c], oldNumBlocks, newNumBlocks)];
      }
    }

    /** cpu_physical_memory_set_dirty_range for all clients, one block of the bitmaps per turn. */
    method SetDirtyRange(start: nat, length: nat)
      requires pageSize > 0 && Offset(start + length, pageSize) == 0 && AllCover(dirty, Page(start + length, pageSize))
      modifies this`dirty
      ensures AllMarked(old(dirty), dirty, Page(start, pageSize), Page(start + length, pageSize))
    {
      var end, page := Page(start + length, pageSize), Page(start, pageSize);
      PageMono(pageSize, start, start + length);
      ghost var first := page;
      var idx, offset := page / DIRTY_MEMORY_BLOCK_SIZE, page % DIRTY_MEMORY_BLOCK_SIZE;
      var base := page - offset;
      while page < end
        invariant first <= page <= end
        invariant page < end ==>
                    idx == page / DIRTY_MEMORY_BLOCK_SIZE && offset == page % DIRTY_MEMORY_BLOCK_SIZE
                    && base == page - offset
        invariant AllMarked(old(dirty), dirty, first, page)
      {
        var next := if end < base + DIRTY_MEMORY_BLOCK_SIZE then end else base + DIRTY_MEMORY_BLOCK_SIZE;
        MarkTurn(old(dirty), first, page, next, end);
        page, idx, offset, base := next, idx + 1, 0, base + DIRTY_MEMORY_BLOCK_SIZE;
      }
    }

    /** The bits of one block of the bitmaps. */
    method MarkTurn(ghost was: seq<seq<set<nat>>>, ghost first: nat, page: nat, next: nat, ghost end: nat)
      requires AllMarked(was, dirty, first, page) && AllCover(was, end)
      requires first <= page < next <= end && page % DIRTY_MEMORY_BLOCK_SIZE + (next - page) <= DIRTY_MEMORY_BLOCK_SIZE
      modifies this`dirty
      ensures AllMarked(was, dirty, first, next)
    {
      var idx, offset, n := page / DIRTY_MEMORY_BLOCK_SIZE, page % DIRTY_MEMORY_BLOCK_SIZE, next - page;
      ghost var before := dirty;
      assert forall c | 0 <= c < CLIENTS :: idx < |dirty[c]| && Covers(was[c], page + n);
      for c := 0 to CLIENTS
        invariant |dirty| == CLIENTS
        invariant forall k | 0 <= k < c :: dirty[k] == SetBits(before[k], idx, offset, n)
        invariant forall k | c <= k < CLIENTS :: dirty[k] == before[k]
      {
        dirty := dirty[c := SetBits(dirty[c], idx, offset, n)];
      }
      MarkAll(was, before, dirty, first, page, n);
    }

    /** The loop of ram_block_add that finds the place in the list, biggest block first. */
    method Place(maxLength: nat) returns (k: nat)
      requires Descending(blocks)
      ensures k <= |blocks|
      ensures forall i | 0 <= i < k :: blocks[i].maxLength >= maxLength
      ensures forall i | k <= i < |blocks| :: blocks[i].maxLength < maxLength
    {
      k := 0;
      while k < |blocks| && blocks[k].maxLength >= maxLength
        invariant k <= |blocks| && forall i | 0 <= i < k :: blocks[i].maxLength >= maxLength
      {
        k := k + 1;
      }
    }

    /**
      ram_block_add; hostOk says whether host memory was found.  Where there is
      no room, or no memory, nothing changes.  The pages in use of the new block are
      dirty for all clients, and the bits of all pages that were in a block stay.
     */
    method RamBlockAdd(maxLength: nat, usedLength: nat, hostOk: bool) returns (r: Option<nat>)
      requires Valid() && 0 < maxLength <= RAM_ADDR_MAX && Offset(maxLength, pageSize) == 0
      requires usedLength <= maxLength && Offset(usedLength, pageSize) == 0
      modifies this
      ensures Valid()
      ensures r.Some? <==> hostOk && HasGap(old(blocks), 64 * pageSize, maxLength)
      ensures r.None? ==> blocks == old(blocks) && dirty == old(dirty)
      ensures r.Some? ==> Room(old(blocks), 64 * pageSize, r.value, maxLength)
      ensures r.Some? ==>
                Joined(old(blocks), old(dirty), blocks, dirty, pageSize, RamBlock(r.value, maxLength), usedLength)
    {
      var oldRamSize := LastRamPage();
      r := FindRoom(maxLength);
      if r.None? || !hostOk {
        return None;
      }
      PlaceBlock(RamBlock(r.value, maxLength), usedLength, oldRamSize);
    }

    method FindRoom(maxLength: nat) returns (r: Option<nat>)
      requires Valid() && 0 < maxLength <= RAM_ADDR_MAX
      ensures r.Some? ==> Room(blocks, 64 * pageSize, r.value, maxLength)
      ensures r.Some? <==> HasGap(blocks, 64 * pageSize, maxLength)
    {
      r := FindRamOffset(blocks, 64 * pageSize, maxLength);
    }

    /** The rest of ram_block_add, once there is room for the block. */
    method PlaceBlock(b: RamBlock, usedLength: nat, oldRamSize: nat)
      requires Valid() && oldRamSize == Page(LastEnd(blocks), pageSize)
      requires Room(blocks, 64 * pageSize, b.offset, b.maxLength) && b.maxLength > 0
      requires Offset(b.maxLength, pageSize) == 0
      requires usedLength <= b.maxLength && Offset(usedLength, pageSize) == 0
      modifies this
      ensures Valid() && Joined(old(blocks), old(dirty), blocks, dirty, pageSize, b, usedLength)
    {
      var newRamSize := ExtendFor(b, oldRamSize);
      ghost var extended := dirty;
      InsertBlock(b, newRamSize);
      UsedCovered(b, usedLength, newRamSize);
      SetDirtyRange(b.offset, usedLength);
      AddKeeps(old(blocks), pageSize, b, usedLength, newRamSize, old(dirty), extended, dirty);
    }

    /** The bitmaps come to cover the block. */
    method ExtendFor(b: RamBlock, oldRamSize: nat) returns (newRamSize: nat)
      requires pageSize > 0 && AllCover(dirty, oldRamSize)
      modifies `dirty
      ensures newRamSize >= oldRamSize && newRamSize >= Page(b.End(), pageSize) && AllCover(dirty, newRamSize)
      ensures forall c | 0 <= c < CLIENTS :: SameBits(old(dirty)[c], dirty[c], oldRamSize)
    {
      var end := Page(b.End(), pageSize);
      newRamSize := if oldRamSize > end then oldRamSize else end;
      if newRamSize > oldRamSize {
        DirtyMemoryExtend(oldRamSize, newRamSize);
      }
    }

    /** The pages in use of a block are among those that the bitmaps cover. */
    lemma UsedCovered(b: RamBlock, used: nat, n: nat)
      requires pageSize > 0 && used <= b.maxLength && Offset(b.offset, 64 * pageSize) == 0
      requires Offset(used, pageSize) == 0 && n >= Page(b.End(), pageSize)
      ensures Page(b.offset + used, pageSize) <= n && Offset(b.offset + used, pageSize) == 0
    {
      PageMono(pageSize, b.offset + used, b.End());
      CoarseAligned(b.offset, pageSize);
      PageSum(pageSize, b.offset, used);
    }

    /** The end of ram_block_add: the block joins the list, whose pages the bitmaps already cover. */
    method InsertBlock(b: RamBlock, newRamSize: nat)
      requires pageSize > 0 && Alignment(64 * pageSize) && Separate(blocks, 64 * pageSize) && Listed(blocks, pageSize)
      requires Room(blocks, 64 * pageSize, b.offset, b.maxLength) && b.maxLength > 0
      requires Offset(b.maxLength, pageSize) == 0
      requires newRamSize >= Page(LastEnd(blocks), pageSize) && newRamSize >= Page(b.End(), pageSize)
      requires AllCover(dirty, newRamSize)
      modifies this`blocks
      ensures Valid() && multiset(blocks) == multiset(old(blocks)) + multiset{b}
    {
      var k := Place(b.maxLength);
      SeparateMore(blocks, 64 * pageSize, b, k);
      ListedMore(blocks, pageSize, b, k);
      InsertCovered(b, k, newRamSize);
      assert blocks == blocks[..k] + blocks[k..];
      blocks := Inserted(blocks, b, k);
    }

    /** The last page after a block has been inserted. */
    lemma InsertCovered(b: RamBlock, k: nat, n: nat)
      requires pageSize > 0 && k <= |blocks| && n >= Page(LastEnd(blocks), pageSize) && n >= Page(b.End(), pageSize)
      ensures Page(LastEnd(Inserted(blocks, b, k)), pageSize) <= n
    {
      var x := if LastEnd(blocks) > b.End() then LastEnd(blocks) else b.End();
      LastEndMore(blocks, b, k, x);
      PageMono(pageSize, LastEnd(Inserted(blocks, b, k)), x);
    }

    /** qemu_ram_free for block number k of the list. */
    method RamFree(k: nat)
      requires Valid() && k < |blocks|
      modifies this`blocks
      ensures Valid() && blocks == Removed(old(blocks), k)
    {
      SeparateLess(blocks, 64 * pageSize, k);
      ListedLess(blocks, pageSize, k);
      LastEndLess(blocks, k);
      PageMono(pageSize, LastEnd(Removed(blocks, k)), LastEnd(blocks));
      blocks := Removed(blocks, k);
    }
  }
}
