/**
  AddressSpaceDispatch of qemu/exec.c: the page map, the section table, the
  subpages and the one-entry cache, filled from a flat view and then compacted.
 */
module Dispatch {
  import opened Basics
  import opened PhysTree
  import opened Arith
  import PhysMap
  import opened FlatView

  /** Page size and number of levels for TARGET_PAGE_BITS. */
  function PageSize(bits: nat): (s: nat)
    ensures s > 0
  {
    if bits == 0 then 1 else 2 * PageSize(bits - 1)
  }

  /** P_L2_LEVELS */
  function Levels(bits: nat): nat
    requires bits < 64
  {
    (64 - bits - 1) / P_L2_BITS + 1
  }

  /** Section numbers have 16 bits. */
  const MAX_SECTIONS: nat := 0x1_0000

  /** The levels reach every page of the space, and a page has as many bytes as there are section numbers, at most. */
  ghost predicate Target(pageSize: nat, levels: nat) {
    && 4 < pageSize <= MAX_SECTIONS
    && Offset(TWO64, pageSize) == 0
    && 0 < levels <= 8
    && Page(TWO64, pageSize) <= Span(levels)
  }

  lemma {:induction false} PageSizeSum(a: nat, b: nat)
    ensures PageSize(a + b) == PageSize(a) * PageSize(b)
  {
    if a > 0 {
      PageSizeSum(a - 1, b);
      assert PageSize(a) * PageSize(b) == 2 * (PageSize(a - 1) * PageSize(b));
    }
  }

  lemma {:induction false} PageSizeMono(a: nat, b: nat)
    requires a <= b
    ensures PageSize(a) <= PageSize(b)
  {
    if a < b {
      PageSizeMono(a, b - 1);
    }
  }

  /** Every page size from TARGET_PAGE_BITS_MIN on that leaves section numbers 16 bits. */
  lemma EveryTarget(bits: nat)
    requires 10 <= bits <= 16
    ensures Target(PageSize(bits), Levels(bits)) && Levels(bits) == 6
  {
    PageSizeFits(bits);
    assert Levels(bits) == 6;
    TargetFrom(PageSize(bits), PageSize(64 - bits), 6);
  }

  lemma PageSizeFits(bits: nat)
    requires 10 <= bits <= 16
    ensures 4 < PageSize(bits) <= 0x1_0000
    ensures PageSize(64 - bits) * PageSize(bits) == TWO64
    ensures PageSize(64 - bits) <= Span(6)
  {
    PageSize64();
    PageSizeSum(64 - bits, bits);
    PageSizeMono(64 - bits, 54);
    PageSizeMono(bits, 16);
    PageSizeMono(3, bits);
  }

  lemma TargetFrom(pageSize: nat, n: nat, levels: nat)
    requires 4 < pageSize <= 0x1_0000 && n * pageSize == TWO64 && n <= Span(levels) && 0 < levels <= 8
    ensures Target(pageSize, levels)
  {
    PageSplit(TWO64, pageSize, n, 0);
  }

  lemma PageSize64()
    ensures PageSize(16) == 0x1_0000 && PageSize(64) == TWO64 && PageSize(54) == Span(6)
  {
    PageSize16();
    PageSizeSum(16, 16);
    PageSizeSum(32, 32);
    PageSize54();
  }

  lemma PageSize16()
    ensures PageSize(16) == 0x1_0000
  {
    assert PageSize(1) == 2 * PageSize(0);
    assert PageSize(2) == 2 * PageSize(1);
    PageSizeSum(2, 2);
    PageSizeSum(4, 4);
    PageSizeSum(8, 8);
  }

  lemma PageSize54()
    ensures PageSize(54) == Span(6)
  {
    PageSize16();
    PageSizeSum(16, 32);
    PageSizeSum(16, 16);
    PageSizeSum(2, 4);
    PageSizeSum(2, 2);
    PageSizeSum(6, 48);
    assert Span(3) == 512 * Span(2) && Span(2) == 512 * Span(1) && Span(1) == 512 * Span(0);
    assert Span(6) == 512 * Span(5) && Span(5) == 512 * Span(4) && Span(4) == 512 * Span(3);
  }

  /** The walk is right on mapped pages and, before compaction, ends unassigned on the others. */
  ghost predicate WalkRight(nodes: seq<Node>, e: Entry, h: nat, pages: map<nat, nat>, compacted: bool, page: nat) {
    && (page in pages ==> Walk(nodes, e, h, page) == pages[page])
    && (page !in pages && !compacted ==> Walk(nodes, e, h, page) == 0)
  }

  ghost predicate WalksRight(nodes: seq<Node>, e: Entry, h: nat, pages: map<nat, nat>, compacted: bool) {
    forall page: nat | page < Span(h) :: WalkRight(nodes, e, h, pages, compacted, page)
  }

  /** A tree may come to have more sections. */
  lemma MoreSections(nodes: seq<Node>, e: Entry, h: nat, secs: set<nat>, secs': set<nat>)
    requires Tree(nodes, e, h, secs, true) && secs <= secs'
    ensures Tree(nodes, e, h, secs', true)
  {
    IdsBound(nodes, e, h);
    Frame(nodes, nodes, e, h, secs, secs', true);
  }

  lemma RangeIsFree(nodes: seq<Node>, e: Entry, h: nat, pages: map<nat, nat>, lo: nat, hi: nat)
    requires WalksRight(nodes, e, h, pages, false) && PagesFree(pages, lo, hi)
    ensures PhysMap.RangeFree(nodes, e, h, 0, lo, hi)
  {
    forall page: nat | page < Span(h) && lo <= page < hi
      ensures Walk(nodes, e, h, page) == PHYS_SECTION_UNASSIGNED
    {
      assert WalkRight(nodes, e, h, pages, false, page);
    }
  }

  lemma OneRange(pages: map<nat, nat>, index: nat, leaf: nat)
    ensures pages + PageRange(index, index + 1, leaf) == pages[index := leaf]
  {
  }

  lemma RangeIsSet(nodes: seq<Node>, e: Entry, nodes': seq<Node>, e': Entry, h: nat, pages: map<nat, nat>, lo: nat,
                   hi: nat, leaf: nat)
    requires WalksRight(nodes, e, h, pages, false) && PagesFree(pages, lo, hi)
    requires PhysMap.RangeSet(nodes, e, nodes', e', h, 0, lo, hi, leaf)
    ensures WalksRight(nodes', e', h, pages + PageRange(lo, hi, leaf), false)
  {
    forall page: nat | page < Span(h)
      ensures WalkRight(nodes', e', h, pages + PageRange(lo, hi, leaf), false, page)
    {
      assert WalkRight(nodes, e, h, pages, false, page);
    }
  }

  function Align64(addr: nat, pageSize: nat): nat
    requires pageSize > 0
  {
    var a := Wrap64(addr + pageSize - 1);
    a - Offset(a, pageSize)
  }

  function Sub64(a: nat, b: nat): nat {
    Wrap64(a - b)
  }

  /** TARGET_PAGE_ALIGN(addr) - addr is the rest of the page, in the last page too. */
  lemma RestOfPage(addr: nat, size: nat)
    requires 0 < size && Offset(TWO64, size) == 0 && addr < TWO64 && Offset(addr, size) != 0
    ensures Sub64(Align64(addr, size), addr) == size - Offset(addr, size)
    ensures addr + (size - Offset(addr, size)) <= TWO64
    ensures Offset(addr + (size - Offset(addr, size)), size) == 0
  {
    var base := addr - Offset(addr, size);
    PageBase(addr, size);
    PageMono(size, base, TWO64);
    if base + size < TWO64 {
      PageMono(size, base + size, TWO64);
      PageBytes(size, base + size, addr + size - 1);
    }
  }

  lemma HeadIs(pageSize: nat, s: Section)
    requires 0 < pageSize && Offset(TWO64, pageSize) == 0 && InSpace(s) && Offset(s.offsetInSpace, pageSize) != 0
    ensures Min(Sub64(Align64(s.offsetInSpace, pageSize), s.offsetInSpace), s.size) == Head(pageSize, s)
    ensures 0 < Head(pageSize, s) && Offset(s.offsetInSpace, pageSize) + Head(pageSize, s) <= pageSize
    ensures Head(pageSize, s) < s.size ==> Offset(s.offsetInSpace + Head(pageSize, s), pageSize) == 0
  {
    RestOfPage(s.offsetInSpace, pageSize);
  }

  /**
    AddressSpaceDispatch.  view is the flat view it stands for, pages and mapped the
    page map that its tree refines; asserted says that the assertion of
    phys_section_add has held at every call.
   */
  class AddressSpaceDispatch {
    const pageSize: nat
    const levels: nat
    const nodeMap: PhysMap.PhysPageMap
    var physMap: Entry
    var sections: seq<Section>
    var subpages: seq<Subpage>
    var mruSection: Option<nat>
    ghost var view: seq<Section>
    ghost var pages: map<nat, nat>
    ghost var mapped: set<nat>
    ghost var compacted: bool
    ghost var asserted: bool

    ghost predicate Valid()
      reads this, nodeMap
    {
      Wired() && NoIdlePage(pageSize, pages, view)
    }

    /** The tables answer like the view, and the page map leads to the tables. */
    ghost predicate Wired()
      reads this, nodeMap
    {
      && Target(pageSize, levels)
      && Tables(subpages, sections, pageSize, pages, mapped, view)
      && Honest(sections, view)
      && |sections| <= MAX_SECTIONS
      && (asserted <==> |sections| <= pageSize)
      && |nodeMap.nodes| <= 15 * |sections|
      && MapRight()
      && (mruSection.Some? ==> mruSection.value in {0} + mapped)
    }

    ghost predicate MapRight()
      reads this, nodeMap
    {
      && |nodeMap.nodes| <= nodeMap.nodesAlloc
      && Tree(nodeMap.nodes, physMap, levels, {0} + mapped, !compacted)
      && (!compacted ==> physMap.skip == 1)
      && WalksRight(nodeMap.nodes, physMap, levels, pages, compacted)
    }

    /** The section number of the page that holds addr. */
    ghost function PageSection(addr: nat): nat
      reads this
      requires pageSize > 0
    {
      if Page(addr, pageSize) in pages then pages[Page(addr, pageSize)] else 0
    }

    /** address_space_dispatch_new */
    constructor (bits: nat)
      requires 10 <= bits <= 16
      ensures Valid() && !compacted && view == [] && pageSize == PageSize(bits) && levels == Levels(bits)
      ensures |sections| == 4 && fresh(nodeMap)
    {
      EveryTarget(bits);
      pageSize := PageSize(bits);
      levels := Levels(bits);
      nodeMap := new PhysMap.PhysPageMap();
      sections := [Section(IoUnassigned, 0, 0, TWO64), Section(IoNotDirty, 0, 0, TWO64),
                   Section(IoRom, 0, 0, TWO64), Section(IoWatch, 0, 0, TWO64)];
      physMap := Entry(1, PHYS_MAP_NODE_NIL);
      subpages := [];
      mruSection := None;
      view, pages, mapped, compacted, asserted := [], map[], {}, false, true;
    }

    /** The leaf that the walk ends on, put to the final test, is the section of the page. */
    lemma WalkFinds(addr: nat)
      requires Valid() && addr < TWO64
      ensures Tree(nodeMap.nodes, physMap, levels, {0} + mapped, false)
      ensures var w := Walk(nodeMap.nodes, physMap, levels, Page(addr, pageSize));
              w < |sections| && (if SectionCoversAddr(sections[w], addr) then w else 0) == PageSection(addr)
    {
      ghost var secs := {0} + mapped;
      if !compacted {
        Weaken(nodeMap.nodes, physMap, levels, secs);
      }
      PageOf(addr);
      assert WalkRight(nodeMap.nodes, physMap, levels, pages, compacted, Page(addr, pageSize));
      WalkLeaf(nodeMap.nodes, physMap, levels, secs, false, Page(addr, pageSize));
      FoundSection(subpages, sections, pageSize, pages, mapped, view, addr,
                   Walk(nodeMap.nodes, physMap, levels, Page(addr, pageSize)));
    }

    /** phys_page_find: the number of the section that the page map has for addr. */
    method PhysPageFind(addr: nat) returns (n: nat)
      requires Valid() && addr < TWO64
      ensures n == PageSection(addr) && n < |sections|
    {
      WalkFinds(addr);
      n := nodeMap.Find(physMap, Page(addr, pageSize), levels, {0} + mapped);
      if !SectionCoversAddr(sections[n], addr) {
        n := 0;
      }
    }

    lemma PageOf(addr: nat)
      requires Target(pageSize, levels) && addr < TWO64
      ensures Page(addr, pageSize) < Span(levels)
    {
      PageBase(addr, pageSize);
      PageMono(pageSize, addr - Offset(addr, pageSize), TWO64);
    }

    /** address_space_lookup_region, with the section that was looked up last tried first. */
    method LookupRegion(addr: nat, resolveSubpage: bool) returns (n: nat)
      requires Valid() && addr < TWO64
      modifies `mruSection
      ensures Valid() && n < |sections|
      ensures n == if resolveSubpage then TableSection(subpages, sections, pageSize, pages, addr) else PageSection(addr)
      ensures resolveSubpage ==> Meaning(sections[n], addr) == FlatLookup(view, addr)
      ensures sections[n].mr.Guest? ==> Inside(sections[n], addr)
    {
      if mruSection.None? || mruSection.value == 0 || !SectionCoversAddr(sections[mruSection.value], addr) {
        n := PhysPageFind(addr);
        mruSection := Some(n);
      } else {
        n := mruSection.value;
        assert Exact(sections, pageSize, pages, n);
        CoversIsInside(sections[n], addr);
      }
      assert Serves(subpages, sections, pageSize, pages, view, addr);
      if Page(addr, pageSize) in pages {
        assert PageKind(subpages, sections, pageSize, pages, Page(addr, pageSize));
      }
      if resolveSubpage && sections[n].mr.SubpageIo? {
        n := subpages[sections[n].mr.id].sub[Offset(addr, pageSize)];
      }
    }

    /**
      address_space_translate_internal: the region offset, and for RAM the
      length cut to the section, so that no byte beyond it is reached.
     */
    method TranslateInternal(addr: nat, len: nat, resolveSubpage: bool, isRam: Region -> bool)
      returns (n: nat, xlat: nat, plen: nat)
      requires Valid() && addr < TWO64
      requires forall mr: Region {:trigger isRam(mr)} :: isRam(mr) ==> mr.Guest?
      modifies `mruSection
      ensures Valid() && n < |sections| && plen <= len
      ensures resolveSubpage ==>
                FlatLookup(view, addr) == if sections[n].mr == IoUnassigned then Nothing else At(sections[n].mr, xlat)
      ensures resolveSubpage && isRam(sections[n].mr) ==> RunsOn(view, sections[n].mr, addr, plen, xlat)
      ensures resolveSubpage && isRam(sections[n].mr) && len > 0 ==> plen > 0
      ensures !isRam(sections[n].mr) ==> plen == len
    {
      n := LookupRegion(addr, resolveSubpage);
      var s := sections[n];
      var diff := addr - s.offsetInSpace;
      xlat := Wrap64(diff + s.offsetInRegion);
      plen := len;
      if isRam(s.mr) {
        assert s.mr.Guest? && HonestSection(sections[n], view);
        plen := Min(s.size - diff, len);
        SectionRuns(s, view, addr, plen, xlat);
      }
    }

    /** phys_page_set for a section number that was just handed out. */
    method PhysPageSet(index: nat, nb: nat, leaf: nat)
      requires Target(pageSize, levels) && !compacted
      requires 0 < leaf < |sections| <= MAX_SECTIONS
      requires MapRight() && |nodeMap.nodes| + 15 <= 15 * |sections|
      requires nb > 0 && index + nb <= Page(TWO64, pageSize) && PagesFree(pages, index, index + nb)
      modifies `physMap, nodeMap, `pages, `mapped
      ensures MapRight() && |nodeMap.nodes| <= 15 * |sections|
      ensures pages == old(pages) + PageRange(index, index + nb, leaf)
      ensures mapped == old(mapped) + {leaf}
      ensures nb == 1 ==> pages == old(pages)[index := leaf]
    {
      SetTree(index, nb, leaf);
      OneRange(pages, index, leaf);
      pages, mapped := pages + PageRange(index, index + nb, leaf), mapped + {leaf};
    }

    /** phys_page_set on the tree, before the page map is looked at. */
    method SetTree(index: nat, nb: nat, leaf: nat)
      requires Target(pageSize, levels) && !compacted
      requires 0 < leaf < |sections| <= MAX_SECTIONS
      requires MapRight() && |nodeMap.nodes| + 15 <= 15 * |sections|
      requires nb > 0 && index + nb <= Page(TWO64, pageSize) && PagesFree(pages, index, index + nb)
      modifies `physMap, nodeMap
      ensures |nodeMap.nodes| <= nodeMap.nodesAlloc && |nodeMap.nodes| <= 15 * |sections| && physMap.skip == 1
      ensures Tree(nodeMap.nodes, physMap, levels, {0} + (mapped + {leaf}), true)
      ensures WalksRight(nodeMap.nodes, physMap, levels, pages + PageRange(index, index + nb, leaf), false)
    {
      ghost var secs := {0} + (mapped + {leaf});
      ghost var nodes, root := nodeMap.nodes, physMap;
      MoreSections(nodes, root, levels, {0} + mapped, secs);
      RangeIsFree(nodes, root, levels, pages, index, index + nb);
      physMap := nodeMap.Set(physMap, index, nb, leaf, levels, secs);
      RangeIsSet(nodes, root, nodeMap.nodes, physMap, levels, pages, index, index + nb, leaf);
    }

    /** phys_section_add */
    method SectionAdd(s: Section) returns (n: nat)
      requires |sections| < MAX_SECTIONS
      modifies `sections, `asserted
      ensures n == |old(sections)| && sections == old(sections) + [s]
      ensures asserted <==> old(asserted) && |old(sections)| < pageSize
    {
      asserted := asserted && |sections| < pageSize;
      n := |sections|;
      sections := sections + [s];
    }

    /** A page whose bytes are not all taken is a subpage or not mapped. */
    lemma NotFull(addr: nat)
      requires Valid() && addr < TWO64 && FlatLookup(view, addr) == Nothing
      requires Page(addr, pageSize) in pages
      ensures sections[PageSection(addr)].mr.SubpageIo?
    {
      assert Serves(subpages, sections, pageSize, pages, view, addr);
      assert PageKind(subpages, sections, pageSize, pages, Page(addr, pageSize));
    }

    /** The part of register_subpage that makes a subpage for a page that has none. */
    method SubpageInit(base: nat)
      requires Valid() && !compacted && base < TWO64 && Offset(base, pageSize) == 0
      requires Page(base, pageSize) !in pages && |sections| < MAX_SECTIONS
      modifies `physMap, `pages, `mapped, `sections, `asserted, `subpages, nodeMap
      ensures |sections| == |old(sections)| + 1
      ensures pages == old(pages)[Page(base, pageSize) := |old(sections)|]
      ensures |subpages| > 0 && sections[pages[Page(base, pageSize)]].mr == SubpageIo(|subpages| - 1)
      ensures Wired()
    {
      var sub := seq(pageSize, i => PHYS_SECTION_UNASSIGNED);
      SubpageCreated(subpages, sections, pageSize, pages, mapped, view, base, sub);
      var n := SectionAdd(Section(SubpageIo(|subpages|), base, 0, pageSize));
      subpages := subpages + [Subpage(base, sub)];
      PageMono(pageSize, base, TWO64);
      PhysPageSet(Page(base, pageSize), 1, n);
    }

    /** subpage_register */
    method SubpageRegister(id: nat, start: nat, end: nat, section: nat) returns (ret: int)
      requires id < |subpages| && |subpages[id].sub| == pageSize
      modifies `subpages
      ensures ret == if start >= pageSize || end >= pageSize then -1 else 0
      ensures ret == -1 ==> subpages == old(subpages)
      ensures |subpages| == |old(subpages)| && |subpages[id].sub| == pageSize
      ensures subpages == old(subpages)[id := old(subpages[id]).(sub := subpages[id].sub)]
      ensures ret == 0 ==> forall i | 0 <= i < pageSize ::
                subpages[id].sub[i] == if start <= i <= end then section else old(subpages[id].sub[i])
    {
      if start >= pageSize || end >= pageSize {
        return -1;
      }
      var idx := start;
      while idx <= end
        invariant start <= idx && (idx <= end + 1 || idx == start)
        invariant |subpages| == |old(subpages)| && |subpages[id].sub| == pageSize
        invariant subpages == old(subpages)[id := old(subpages[id]).(sub := subpages[id].sub)]
        invariant forall i | 0 <= i < pageSize ::
                    subpages[id].sub[i] == if start <= i < idx then section else old(subpages[id].sub[i])
      {
        subpages := subpages[id := subpages[id].(sub := subpages[id].sub[idx := section])];
        idx := idx + 1;
      }
      ret := 0;
    }

    /** The part of register_subpage that finds the subpage of a page with free bytes. */
    method SubpageOf(now: Section, base: nat) returns (id: nat)
      requires Valid() && !compacted
      requires InSpace(now) && FreeIn(view, now)
      requires base < TWO64 && Offset(base, pageSize) == 0 && Page(base, pageSize) == Page(now.offsetInSpace, pageSize)
      requires |sections| + (if Page(base, pageSize) in pages then 0 else 1) <= MAX_SECTIONS
      modifies `physMap, `pages, `mapped, `sections, `asserted, `subpages, nodeMap
      ensures Wired() && NoIdlePage(pageSize, old(pages), view)
      ensures |sections| == |old(sections)| + if Page(base, pageSize) in old(pages) then 0 else 1
      ensures pages.Keys == old(pages).Keys + {Page(base, pageSize)}
      ensures sections[pages[Page(base, pageSize)]].mr == SubpageIo(id)
    {
      var existing := PhysPageFind(base);
      assert FlatLookup(view, now.offsetInSpace) == Nothing;
      if Page(base, pageSize) in pages {
        NotFull(now.offsetInSpace);
      }
      assert sections[existing].mr.SubpageIo? || sections[existing].mr == IoUnassigned;
      if !sections[existing].mr.SubpageIo? {
        SubpageInit(base);
        id := |subpages| - 1;
      } else {
        id := sections[existing].mr.id;
      }
    }

    /** The end of register_subpage: a new section, and its bytes in the subpage. */
    method PutInSubpage(now: Section, base: nat, id: nat)
      requires Wired() && |sections| < MAX_SECTIONS
      requires now.mr.Guest? && InSpace(now) && FreeIn(view, now) && Offset(base, pageSize) == 0
      requires base <= now.offsetInSpace && now.offsetInSpace + now.size <= base + pageSize
      requires Page(base, pageSize) in pages && sections[pages[Page(base, pageSize)]].mr == SubpageIo(id)
      modifies `sections, `asserted, `subpages, `view
      ensures Wired() && view == old(view) + [now] && |sections| == |old(sections)| + 1
    {
      assert PageKind(subpages, sections, pageSize, pages, Page(base, pageSize));
      var start := now.offsetInSpace - base;
      ghost var subs, secs, view0 := subpages, sections, view;
      var n := SectionAdd(now);
      var ret := SubpageRegister(id, start, start + now.size - 1, n);
      view := view + [now];
      SubpageTables(subs, secs, pageSize, pages, mapped, view0, now, base, id, subpages, sections, view);
    }

    /** register_subpage: a piece of a section that lies within one page. */
    method RegisterSubpage(now: Section)
      requires Valid() && !compacted
      requires now.mr.Guest? && InSpace(now) && FreeIn(view, now)
      requires Offset(now.offsetInSpace, pageSize) + now.size <= pageSize
      requires |sections| + (if Page(now.offsetInSpace, pageSize) in pages then 1 else 2) <= MAX_SECTIONS
      modifies `physMap, `pages, `mapped, `sections, `asserted, `subpages, `view, nodeMap
      ensures Valid() && !compacted && view == old(view) + [now]
      ensures |sections| == |old(sections)| + if Page(now.offsetInSpace, pageSize) in old(pages) then 1 else 2
      ensures pages.Keys == old(pages).Keys + {Page(now.offsetInSpace, pageSize)}
    {
      var base := now.offsetInSpace - Offset(now.offsetInSpace, pageSize);
      PageBase(now.offsetInSpace, pageSize);
      var id := SubpageOf(now, base);
      assert OnPage(pageSize, now, Page(base, pageSize)) by { assert Inside(now, now.offsetInSpace); }
      StillNoIdle(pageSize, old(pages), pages, view, now);
      PutInSubpage(now, base, id);
    }

    /** The end of register_multipage: a new section, and its pages. */
    method MapPages(now: Section, start: nat, num: nat)
      requires Target(pageSize, levels) && !compacted && |sections| < MAX_SECTIONS && 0 < |sections|
      requires MapRight() && |nodeMap.nodes| <= 15 * |sections|
      requires num > 0 && start + num <= Page(TWO64, pageSize) && PagesFree(pages, start, start + num)
      modifies `physMap, `pages, `mapped, `sections, `asserted, nodeMap
      ensures MapRight() && |nodeMap.nodes| <= 15 * |sections| && sections == old(sections) + [now]
      ensures asserted <==> old(asserted) && |old(sections)| < pageSize
      ensures pages == old(pages) + PageRange(start, start + num, |old(sections)|)
      ensures mapped == old(mapped) + {|old(sections)|}
    {
      var n := SectionAdd(now);
      PhysPageSet(start, num, n);
    }

    /** register_multipage on the page map, before the tables are looked at. */
    method MapMultipage(now: Section)
      requires Valid() && !compacted && InSpace(now) && FreeIn(view, now)
      requires Offset(now.offsetInSpace, pageSize) == 0 && Offset(now.size, pageSize) == 0
      requires |sections| < MAX_SECTIONS
      modifies `physMap, `pages, `mapped, `sections, `asserted, nodeMap
      ensures MapRight() && |nodeMap.nodes| <= 15 * |sections| && sections == old(sections) + [now]
      ensures asserted <==> old(asserted) && |old(sections)| < pageSize
      ensures pages == old(pages) + PageRange(Page(now.offsetInSpace, pageSize),
                                              Page(now.offsetInSpace, pageSize) + Page(now.size,
                                                  pageSize), |old(sections)|)
      ensures mapped == old(mapped) + {|old(sections)|}
    {
      var start, num := Page(now.offsetInSpace, pageSize), Page(now.size, pageSize);
      MultipageRange(pageSize, pages, view, now, start, start + num);
      assert num != 0;
      MapPages(now, start, num);
    }

    /** register_multipage: a page-aligned piece of a section. */
    method RegisterMultipage(now: Section)
      requires Valid() && !compacted
      requires now.mr.Guest? && InSpace(now) && FreeIn(view, now)
      requires Offset(now.offsetInSpace, pageSize) == 0 && Offset(now.size, pageSize) == 0
      requires |sections| < MAX_SECTIONS
      modifies `physMap, `pages, `mapped, `sections, `asserted, `view, nodeMap
      ensures Valid() && !compacted && view == old(view) + [now]
      ensures |sections| == |old(sections)| + 1
      ensures pages == old(pages) + PageRange(Page(now.offsetInSpace, pageSize),
                                              Page(now.offsetInSpace, pageSize) + Page(now.size,
                                                  pageSize), |old(sections)|)
    {
      ghost var secs, pages0, mapped0 := sections, pages, mapped;
      MapMultipage(now);
      GrowView(now, secs, pages0, mapped0);
    }

    /** The pages of a piece have been mapped, and the view grows by it. */
    ghost method GrowView(now: Section, secs: seq<Section>, pages0: map<nat, nat>, mapped0: set<nat>)
      requires Target(pageSize, levels) && !compacted && |sections| <= MAX_SECTIONS
      requires (asserted <==> |sections| <= pageSize) && |nodeMap.nodes| <= 15 * |sections| && MapRight()
      requires mruSection.Some? ==> mruSection.value in {0} + mapped
      requires Tables(subpages, secs, pageSize, pages0, mapped0, view) && NoIdlePage(pageSize, pages0, view)
      requires Honest(secs, view) && now.mr.Guest? && InSpace(now) && FreeIn(view, now)
      requires Offset(now.offsetInSpace, pageSize) == 0 && Offset(now.size, pageSize) == 0
      requires sections == secs + [now] && mapped == mapped0 + {|secs|}
      requires var lo := Page(now.offsetInSpace, pageSize);
               pages == pages0 + PageRange(lo, lo + Page(now.size, pageSize), |secs|)
      modifies `view
      ensures Valid() && !compacted && view == old(view) + [now]
    {
      var lo, v := Page(now.offsetInSpace, pageSize), view;
      view := view + [now];
      MultipageTables(subpages, secs, pageSize, pages0, mapped0, v, now, lo, lo + Page(now.size, pageSize), sections,
                      pages, mapped, view);
    }

    /** What holds when the first d bytes of a section have been added to the view v. */
    ghost predicate Adding(v: seq<Section>, s: Section, d: nat, budget: nat)
      reads this, nodeMap
    {
      Valid() && !compacted && Added(v, s, d, view, pages, pageSize, |sections|, budget) && budget <= MAX_SECTIONS
    }

    /** The piece of flatview_add_to_dispatch before the first page boundary. */
    method AddHead(section: Section) returns (now: Section)
      requires Valid() && !compacted
      requires section.mr.Guest? && InSpace(section) && section.offsetInRegion < TWO64 && FreeIn(view, section)
      requires |sections| + Cost(pages, pageSize, section) <= MAX_SECTIONS
      modifies `physMap, `pages, `mapped, `sections, `asserted, `subpages, `view, nodeMap
      ensures now == section.(size := Head(pageSize, section))
      ensures Adding(old(view), section, Head(pageSize, section), |old(sections)| + Cost(old(pages), pageSize, section))
    {
      now := section;
      if Offset(now.offsetInSpace, pageSize) != 0 {
        HeadIs(pageSize, section);
        var left := Sub64(Align64(now.offsetInSpace, pageSize), now.offsetInSpace);
        now := now.(size := Min(left, now.size));
        AddFirst(now, section);
      } else {
        now := now.(size := 0);
      }
    }

    /** Registers the head of a section that does not start a page. */
    method AddFirst(now: Section, ghost section: Section)
      requires Valid() && !compacted
      requires section.mr.Guest? && InSpace(section) && section.offsetInRegion < TWO64 && FreeIn(view, section)
      requires Offset(section.offsetInSpace, pageSize) != 0
      requires |sections| + Cost(pages, pageSize, section) <= MAX_SECTIONS
      requires now == section.(size := Head(pageSize, section)) && 0 < now.size
      requires Offset(now.offsetInSpace, pageSize) + now.size <= pageSize
      requires now.size < section.size ==> Offset(section.offsetInSpace + now.size, pageSize) == 0
      modifies `physMap, `pages, `mapped, `sections, `asserted, `subpages, `view, nodeMap
      ensures Adding(old(view), section, now.size, |old(sections)| + Cost(old(pages), pageSize, section))
    {
      ghost var page := Page(now.offsetInSpace, pageSize);
      ghost var view0, pages0, n := view, pages, |sections|;
      HeadAdded(view, section, pages, pageSize, n, now, pages[page := 0], n + if page in pages then 1 else 2);
      RegisterSubpage(now);
      HeadAdded(view0, section, pages0, pageSize, n, now, pages, |sections|);
    }

    /** One turn of the loop of flatview_add_to_dispatch, with d bytes registered before it. */
    method AddPiece(remain: Section, ghost v: seq<Section>, ghost section: Section, ghost d: nat,
                    ghost budget: nat) returns (now: Section)
      requires Adding(v, section, d, budget) && d < section.size && remain == Rest(section, d)
      modifies `physMap, `pages, `mapped, `sections, `asserted, `subpages, `view, nodeMap
      ensures now == remain.(size := now.size) && 0 < now.size <= remain.size
      ensures Adding(v, section, d + now.size, budget)
    {
      now := remain;
      if remain.size < pageSize {
        AddLast(now, v, section, d, budget);
      } else if Offset(remain.offsetInSpace, pageSize) != 0 {
        assert false;
      } else {
        now := now.(size := now.size - Offset(now.size, pageSize));
        AddPages(now, v, section, d, budget);
      }
    }

    /** What remains of a section after its first d bytes, when that is less than a page. */
    method AddLast(now: Section, ghost v: seq<Section>, ghost section: Section, ghost d: nat, ghost budget: nat)
      requires Adding(v, section, d, budget) && d < section.size < d + pageSize && now == Rest(section, d)
      modifies `physMap, `pages, `mapped, `sections, `asserted, `subpages, `view, nodeMap
      ensures Adding(v, section, d + now.size, budget)
    {
      ghost var view0, pages0, n := view, pages, |sections|;
      LastAdded(v, section, d, view0, pages0, pageSize, n, budget, now, pages0);
      RegisterSubpage(now);
      LastAdded(v, section, d, view0, pages0, pageSize, n, budget, now, pages);
    }

    /** The whole pages of a section, after its first d bytes. */
    method AddPages(now: Section, ghost v: seq<Section>, ghost section: Section, ghost d: nat, ghost budget: nat)
      requires Adding(v, section, d, budget) && d + pageSize <= section.size
      requires now == Rest(section, d).(size := section.size - d - Offset(section.size - d, pageSize))
      modifies `physMap, `pages, `mapped, `sections, `asserted, `view, nodeMap
      ensures now.size > 0
      ensures Adding(v, section, d + now.size, budget)
    {
      ghost var lo := Page(now.offsetInSpace, pageSize);
      PagesAdded(v, section, d, view, pages, pageSize, |sections|, budget, now, lo, lo + Page(now.size, pageSize));
      RegisterMultipage(now);
    }

    /**
      flatview_add_to_dispatch: the section joins the view.  The assertions of
      register_subpage and register_multipage hold on the way.
     */
    method AddToDispatch(section: Section)
      requires Valid() && !compacted
      requires section.mr.Guest? && InSpace(section) && section.offsetInRegion < TWO64 && FreeIn(view, section)
      requires |sections| + Cost(pages, pageSize, section) <= MAX_SECTIONS
      modifies `physMap, `pages, `mapped, `sections, `asserted, `subpages, `view, nodeMap
      ensures Valid() && !compacted && view == old(view) + [section]
      ensures |sections| == |old(sections)| + Cost(old(pages), pageSize, section)
    {
      ghost var budget := |sections| + Cost(pages, pageSize, section);
      var remain := section;
      var now := AddHead(section);
      ghost var d: nat := 0;
      while remain.size != now.size
        invariant d + remain.size == section.size && now.size <= remain.size
        invariant remain == Rest(section, d)
        invariant Adding(old(view), section, d + now.size, budget)
        decreases remain.size - now.size
      {
        remain, d := NextRest(remain, now, section, d);
        now := AddPiece(remain, old(view), section, d, budget);
      }
      JoinView(old(view), section, budget);
    }

    /** What remains after one more piece, in 64-bit arithmetic. */
    method NextRest(remain: Section, now: Section, ghost section: Section, ghost d: nat)
      returns (remain': Section, ghost d': nat)
      requires d <= section.size && remain == Rest(section, d) && now.size < remain.size && InSpace(section)
      ensures d' == d + now.size && remain' == Rest(section, d')
    {
      RestOfRest(section, d, now.size);
      d' := d + now.size;
      remain' := Section(remain.mr, Add64(remain.offsetInSpace, now.size), Add64(remain.offsetInRegion, now.size),
                         remain.size - now.size);
    }

    /** The pieces together are the section. */
    ghost method JoinView(v: seq<Section>, section: Section, budget: nat)
      requires Adding(v, section, section.size, budget)
      modifies `view
      ensures Valid() && !compacted && view == v + [section] && |sections| == budget
    {
      PartAll(subpages, sections, pageSize, pages, mapped, v, section, view);
      view := v + [section];
    }

    /** address_space_dispatch_compact: the page map shrinks and every lookup stays. */
    method Compact()
      requires Valid() && !compacted
      modifies `physMap, `compacted, nodeMap
      ensures Valid() && compacted && view == old(view) && pages == old(pages)
      ensures forall addr: nat | addr < TWO64 :: PageSection(addr) == old(PageSection(addr))
    {
      ghost var nodes, root := nodeMap.nodes, physMap;
      if physMap.skip != 0 {
        physMap := nodeMap.Compact(physMap, levels, {0} + mapped);
      }
      forall page: nat | page < Span(levels)
        ensures WalkRight(nodeMap.nodes, physMap, levels, pages, true, page)
      {
        assert WalkRight(nodes, root, levels, pages, false, page);
        if page in pages {
          assert Exact(sections, pageSize, pages, pages[page]);
        }
      }
      compacted := true;
    }
  }

  /**
    The part of generate_memory_topology (qemu/memory.c) that fills a dispatch from
    a flat view.  The assertion of phys_section_add holds at every call exactly if
    the view takes no more section numbers than a page has bytes.
   */
  method FillDispatch(bits: nat, ranges: seq<Section>) returns (d: AddressSpaceDispatch)
    requires 10 <= bits <= 16
    requires Disjoint(ranges)
    requires forall i | 0 <= i < |ranges| ::
               ranges[i].mr.Guest? && InSpace(ranges[i]) && ranges[i].offsetInRegion < TWO64
    requires SectionsFor(PageSize(bits), ranges) <= MAX_SECTIONS
    ensures fresh(d) && fresh(d.nodeMap) && d.Valid() && d.compacted && d.view == ranges
    ensures d.asserted <==> SectionsFor(PageSize(bits), ranges) <= PageSize(bits)
  {
    d := new AddressSpaceDispatch(bits);
    for i := 0 to |ranges|
      invariant d.Valid() && !d.compacted && d.view == ranges[..i]
      invariant fresh(d) && fresh(d.nodeMap) && d.pageSize == PageSize(bits)
      invariant |d.sections| == SectionsFor(PageSize(bits), ranges[..i])
    {
      NextRange(d.pageSize, ranges, i);
      CostByView(d.subpages, d.sections, d.pageSize, d.pages, d.mapped, d.view, ranges[i]);
      d.AddToDispatch(ranges[i]);
    }
    assert ranges[..|ranges|] == ranges;
    d.Compact();
  }

  // A view that takes too many section numbers.

  function Wall(ps: nat, n: nat): (ranges: seq<Section>)
    ensures |ranges| == n
  {
    if n == 0 then [] else Wall(ps, n - 1) + [Section(Guest(0), Bricks(ps, n - 1), 0, ps)]
  }

  function Bricks(ps: nat, n: nat): nat {
    if n == 0 then 0 else Bricks(ps, n - 1) + ps
  }

  lemma {:induction false} BricksAligned(ps: nat, n: nat)
    requires 0 < ps <= MAX_SECTIONS
    ensures Offset(Bricks(ps, n), ps) == 0 && n <= Bricks(ps, n) <= 0x1_0000 * n
  {
    if n > 0 {
      BricksAligned(ps, n - 1);
    }
  }

  lemma {:induction false} WallIs(ps: nat, n: nat)
    requires 0 < ps <= MAX_SECTIONS && n <= MAX_SECTIONS
    ensures forall i | 0 <= i < n ::
              Wall(ps, n)[i].mr.Guest? && InSpace(Wall(ps, n)[i]) && Wall(ps, n)[i].offsetInRegion == 0
    ensures forall i | 0 <= i < n :: Wall(ps, n)[i].offsetInSpace + Wall(ps, n)[i].size <= Bricks(ps, n)
    ensures Disjoint(Wall(ps, n))
  {
    if n > 0 {
      WallIs(ps, n - 1);
      BricksAligned(ps, n - 1);
    }
  }

  lemma {:induction false} WallSections(ps: nat, n: nat)
    requires 0 < ps <= MAX_SECTIONS
    ensures SectionsFor(ps, Wall(ps, n)) == 4 + n
  {
    if n > 0 {
      var s := Section(Guest(0), Bricks(ps, n - 1), 0, ps);
      WallSections(ps, n - 1);
      BricksAligned(ps, n - 1);
      WholePage(ps, Wall(ps, n - 1), s);
      SectionsMore(ps, Wall(ps, n - 1), s);
    }
  }

  /** A range that is one page takes one number. */
  lemma WholePage(ps: nat, view: seq<Section>, s: Section)
    requires ps > 0 && s.size == ps && Offset(s.offsetInSpace, ps) == 0
    ensures ViewCost(ps, view, s) == 1
  {
  }

  /** As many pages next to each other as a page has bytes, each its own range, exceed the section numbers. */
  method TooManyRanges(bits: nat) returns (d: AddressSpaceDispatch)
    requires 10 <= bits <= 15
    ensures d.Valid() && d.compacted && d.view == Wall(PageSize(bits), PageSize(bits)) && !d.asserted
  {
    var n := PageSize(bits);
    PageSizeMono(bits, 15);
    PageSize64();
    assert PageSize(16) == 2 * PageSize(15);
    WallIs(n, n);
    WallSections(n, n);
    d := FillDispatch(bits, Wall(n, n));
  }
}
