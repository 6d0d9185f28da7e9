/**
  Sections, the flat view they are taken from, and what the tables of one
  AddressSpaceDispatch (qemu/exec.c) must hold so that the page map and the
  subpages together answer like the flat view.
 */
module FlatView {
  import opened Basics
  import opened PhysTree
  import opened Arith

  /** MemoryRegion: the four global ones, the guest's own, and the one inside a subpage_t. */
  datatype Region = IoUnassigned | IoNotDirty | IoRom | IoWatch | Guest(id: nat) | SubpageIo(id: nat)

  /** MemoryRegionSection; size is the 128-bit one and can be 2^64. */
  datatype Section = Section(mr: Region, offsetInSpace: nat, offsetInRegion: nat, size: nat)

  /** subpage_t */
  datatype Subpage = Subpage(base: nat, sub: seq<nat>)

  datatype Answer = Nothing | At(mr: Region, offset: nat)

  predicate InSpace(s: Section) {
    0 < s.size && s.offsetInSpace + s.size <= TWO64
  }

  predicate Inside(s: Section, addr: nat) {
    s.offsetInSpace <= addr < s.offsetInSpace + s.size
  }

  /** section_covers_addr, with range_covers_byte in 64-bit arithmetic. */
  predicate SectionCoversAddr(s: Section, addr: nat) {
    s.size / TWO64 != 0 ||
    (s.offsetInSpace <= addr <= Wrap64(s.offsetInSpace + Wrap64(s.size) - 1))
  }

  lemma CoversIsInside(s: Section, addr: nat)
    requires InSpace(s) && addr < TWO64
    ensures SectionCoversAddr(s, addr) <==> Inside(s, addr)
  {
    if s.size / TWO64 == 0 {
      assert Wrap64(s.size) == s.size;
    }
  }

  /** The region and offset of address_space_translate_internal for a section. */
  function Translate(s: Section, addr: nat): Answer {
    At(s.mr, Wrap64(addr - s.offsetInSpace + s.offsetInRegion))
  }

  /** What a section stands for: the unassigned one is the answer "nothing". */
  function Meaning(s: Section, addr: nat): Answer {
    if s.mr == IoUnassigned then Nothing else Translate(s, addr)
  }

  /** The flat view itself: the section that holds the address. */
  function FlatLookup(view: seq<Section>, addr: nat): Answer {
    if view == [] then Nothing
    else
      var s := view[|view| - 1];
      if Inside(s, addr) then Translate(s, addr) else FlatLookup(view[..|view| - 1], addr)
  }

  predicate Overlap(s: Section, t: Section) {
    s.offsetInSpace < t.offsetInSpace + t.size && t.offsetInSpace < s.offsetInSpace + s.size
  }

  predicate Disjoint(view: seq<Section>) {
    forall i, j | 0 <= i < j < |view| :: !Overlap(view[i], view[j])
  }

  /** In a disjoint view the owner of an address is the only section that holds it. */
  lemma {:induction false} FlatLookupOwner(view: seq<Section>, i: nat, addr: nat)
    requires Disjoint(view) && i < |view| && Inside(view[i], addr)
    ensures FlatLookup(view, addr) == Translate(view[i], addr)
  {
    if i < |view| - 1 {
      assert !Overlap(view[i], view[|view| - 1]);
      FlatLookupOwner(view[..|view| - 1], i, addr);
    }
  }

  lemma {:induction false} FlatLookupNobody(view: seq<Section>, addr: nat)
    requires forall i | 0 <= i < |view| :: !Inside(view[i], addr)
    ensures FlatLookup(view, addr) == Nothing
  {
    if view != [] {
      FlatLookupNobody(view[..|view| - 1], addr);
    }
  }

  /** No byte of the section is taken in the view. */
  ghost predicate FreeIn(view: seq<Section>, s: Section) {
    forall addr: nat | Inside(s, addr) :: FlatLookup(view, addr) == Nothing
  }

  lemma DisjointIsFree(view: seq<Section>, s: Section)
    requires Disjoint(view + [s])
    ensures FreeIn(view, s)
  {
    forall addr: nat | Inside(s, addr)
      ensures FlatLookup(view, addr) == Nothing
    {
      forall i | 0 <= i < |view|
        ensures !Inside(view[i], addr)
      {
        assert !Overlap((view + [s])[i], (view + [s])[|view|]);
      }
      FlatLookupNobody(view, addr);
    }
  }

  /** The section that page map and subpage tables lead to. */
  function TableSection(subs: seq<Subpage>, sections: seq<Section>, pageSize: nat, pages: map<nat, nat>, addr: nat): nat
    requires pageSize > 0
  {
    if Page(addr, pageSize) !in pages || pages[Page(addr, pageSize)] >= |sections| then PHYS_SECTION_UNASSIGNED
    else
      var s := sections[pages[Page(addr, pageSize)]];
      if s.mr.SubpageIo? && s.mr.id < |subs| && |subs[s.mr.id].sub| == pageSize
        then subs[s.mr.id].sub[Offset(addr, pageSize)] else pages[Page(addr, pageSize)]
  }

  /** The tables answer for addr as the view does. */
  ghost predicate Serves(subs: seq<Subpage>, sections: seq<Section>, pageSize: nat, pages: map<nat, nat>,
                         view: seq<Section>, addr: nat)
    requires pageSize > 0
  {
    var n := TableSection(subs, sections, pageSize, pages, addr);
    && n < |sections| && !sections[n].mr.SubpageIo?
    && Meaning(sections[n], addr) == FlatLookup(view, addr)
    && (sections[n].mr.Guest? ==> Inside(sections[n], addr))
  }

  /** Section n of the page map is mapped on exactly the pages it covers. */
  ghost predicate Exact(sections: seq<Section>, pageSize: nat, pages: map<nat, nat>, n: nat)
    requires pageSize > 0
  {
    && 0 < n < |sections|
    && InSpace(sections[n])
    && forall addr: nat {:trigger Inside(sections[n], addr)} | addr < TWO64 ::
         Inside(sections[n], addr) <==> Page(addr, pageSize) in pages && pages[Page(addr, pageSize)] == n
  }

  /** A page that is mapped belongs to the guest or is a subpage of that page. */
  ghost predicate PageKind(subs: seq<Subpage>, sections: seq<Section>, pageSize: nat, pages: map<nat, nat>, page: nat)
    requires pageSize > 0 && page in pages
  {
    && 0 < pages[page] < |sections|
    && match sections[pages[page]].mr
       case Guest(_) => true
       case SubpageIo(id) => id < |subs| && |subs[id].sub| == pageSize && Page(subs[id].base, pageSize) == page
       case _ => false
  }

  ghost predicate Touched(pageSize: nat, view: seq<Section>, page: nat)
    requires pageSize > 0
  {
    exists addr: nat :: addr < TWO64 && Page(addr, pageSize) == page && FlatLookup(view, addr) != Nothing
  }

  ghost predicate Tables(subs: seq<Subpage>, sections: seq<Section>, pageSize: nat, pages: map<nat, nat>,
                         mapped: set<nat>, view: seq<Section>) {
    && 0 < pageSize && Offset(TWO64, pageSize) == 0
    && 0 < |sections| && sections[0] == Section(IoUnassigned, 0, 0, TWO64)
    && (forall page | page in pages :: page < Page(TWO64, pageSize))
    && (forall page | page in pages :: PageKind(subs, sections, pageSize, pages, page))
    && (forall page | page in pages :: pages[page] in mapped)
    && (forall n | n in mapped :: Exact(sections, pageSize, pages, n))
    && (forall addr: nat | addr < TWO64 :: Serves(subs, sections, pageSize, pages, view, addr))
  }

  /** Every mapped page holds a byte of the view. */
  ghost predicate NoIdlePage(pageSize: nat, pages: map<nat, nat>, view: seq<Section>)
    requires pageSize > 0
  {
    forall page | page in pages :: Touched(pageSize, view, page)
  }

  /**
    What the final test of phys_page_find makes of the leaf the walk ended on,
    if the walk is right on mapped pages and on others ends on some leaf.
   */
  lemma FoundSection(subs: seq<Subpage>, sections: seq<Section>, pageSize: nat, pages: map<nat, nat>, mapped: set<nat>,
                     view: seq<Section>, addr: nat, w: nat)
    requires Tables(subs, sections, pageSize, pages, mapped, view) && addr < TWO64
    requires w == PHYS_SECTION_UNASSIGNED || w in mapped
    requires Page(addr, pageSize) in pages ==> w == pages[Page(addr, pageSize)]
    ensures w < |sections|
    ensures (if SectionCoversAddr(sections[w], addr) then w else PHYS_SECTION_UNASSIGNED)
            == if Page(addr, pageSize) in pages then pages[Page(addr, pageSize)] else PHYS_SECTION_UNASSIGNED
  {
    if w != PHYS_SECTION_UNASSIGNED {
      assert Exact(sections, pageSize, pages, w);
      CoversIsInside(sections[w], addr);
    }
  }

  /** Mapping an unmapped page to a fresh subpage whose bytes are all unassigned. */
  lemma SubpageCreated(subs: seq<Subpage>, sections: seq<Section>, pageSize: nat, pages: map<nat, nat>,
                       mapped: set<nat>, view: seq<Section>, base: nat, sub: seq<nat>)
    requires Tables(subs, sections, pageSize, pages, mapped, view)
    requires Offset(base, pageSize) == 0 && base < TWO64 && Page(base, pageSize) !in pages
    requires |sub| == pageSize && forall i | 0 <= i < pageSize :: sub[i] == PHYS_SECTION_UNASSIGNED
    ensures Tables(subs + [Subpage(base, sub)], sections + [Section(SubpageIo(|subs|), base, 0, pageSize)], pageSize,
                   pages[Page(base, pageSize) := |sections|], mapped + {|sections|}, view)
  {
    var s := Section(SubpageIo(|subs|), base, 0, pageSize);
    var subs', sections' := subs + [Subpage(base, sub)], sections + [s];
    var pages' := pages[Page(base, pageSize) := |sections|];
    PageMono(pageSize, base, TWO64);
    forall addr: nat | addr < TWO64
      ensures Serves(subs', sections', pageSize, pages', view, addr)
    {
      assert Serves(subs, sections, pageSize, pages, view, addr);
      if Page(addr, pageSize) in pages {
        assert PageKind(subs, sections, pageSize, pages, Page(addr, pageSize));
      }
    }
    forall page | page in pages'
      ensures PageKind(subs', sections', pageSize, pages', page)
    {
      if page in pages {
        assert PageKind(subs, sections, pageSize, pages, page);
      }
    }
    forall n | n in mapped + {|sections|}
      ensures Exact(sections', pageSize, pages', n)
    {
      if n in mapped {
        assert Exact(sections, pageSize, pages, n);
      } else {
        forall addr: nat | addr < TWO64
          ensures Inside(s, addr) <==> Page(addr, pageSize) in pages' && pages'[Page(addr, pageSize)] == n
        {
          PageBytes(pageSize, base, addr);
        }
      }
    }
  }

  /** Registering a piece of a guest section in the subpage of its page. */
  lemma SubpageFilled(subs: seq<Subpage>, sections: seq<Section>, pageSize: nat, pages: map<nat, nat>, mapped: set<nat>,
                      view: seq<Section>, now: Section, base: nat, sub: seq<nat>)
    requires Tables(subs, sections, pageSize, pages, mapped, view)
    requires now.mr.Guest? && InSpace(now) && Offset(base, pageSize) == 0
    requires base <= now.offsetInSpace && now.offsetInSpace + now.size <= base + pageSize
    requires Page(base, pageSize) in pages && sections[pages[Page(base, pageSize)]].mr.SubpageIo?
    requires |sub| == pageSize
    requires var id := sections[pages[Page(base, pageSize)]].mr.id;
             forall i | 0 <= i < pageSize ::
               sub[i] == if now.offsetInSpace - base <= i <= now.offsetInSpace - base + now.size - 1 then |sections|
                 else subs[id].sub[i]
    ensures var id := sections[pages[Page(base, pageSize)]].mr.id;
            Tables(subs[id := subs[id].(sub := sub)], sections + [now], pageSize, pages, mapped, view + [now])
  {
    assert PageKind(subs, sections, pageSize, pages, Page(base, pageSize));
    var id := sections[pages[Page(base, pageSize)]].mr.id;
    var subs', sections', view' := subs[id := subs[id].(sub := sub)], sections + [now], view + [now];
    assert view'[..|view|] == view;
    forall addr: nat | addr < TWO64
      ensures Serves(subs', sections', pageSize, pages, view', addr)
    {
      assert Serves(subs, sections, pageSize, pages, view, addr);
      PageBytes(pageSize, base, addr);
      if Page(addr, pageSize) in pages {
        assert PageKind(subs, sections, pageSize, pages, Page(addr, pageSize));
      }
    }
    forall page | page in pages
      ensures PageKind(subs', sections', pageSize, pages, page)
    {
      assert PageKind(subs, sections, pageSize, pages, page);
    }
    forall n | n in mapped
      ensures Exact(sections', pageSize, pages, n)
    {
      assert Exact(sections, pageSize, pages, n);
    }
  }

  /** The pages from lo up to hi, all mapped to section n. */
  function PageRange(lo: nat, hi: nat, n: nat): map<nat, nat> {
    map page: nat | lo <= page < hi && Between(lo, hi, page) :: n
  }

  predicate Between(lo: nat, hi: nat, page: nat) {
    lo <= page < hi
  }

  lemma PageRangeEnds(pages: map<nat, nat>, lo: nat, hi: nat, n: nat, last: nat)
    requires hi <= last
    ensures last in pages + PageRange(lo, hi, n) <==> last in pages
  {
    assert !Between(lo, hi, last);
  }

  ghost predicate PagesFree(pages: map<nat, nat>, lo: nat, hi: nat) {
    forall page: nat | lo <= page < hi :: page !in pages
  }

  /** Registering a page-aligned piece of a guest section on pages that were not mapped. */
  lemma PagesMapped(subs: seq<Subpage>, sections: seq<Section>, pageSize: nat, pages: map<nat, nat>, mapped: set<nat>,
                    view: seq<Section>, now: Section, lo: nat, hi: nat)
    requires Tables(subs, sections, pageSize, pages, mapped, view)
    requires now.mr.Guest? && InSpace(now) && Offset(now.offsetInSpace, pageSize) == 0
    requires Offset(now.size, pageSize) == 0
    requires lo == Page(now.offsetInSpace, pageSize) && hi == lo + Page(now.size, pageSize)
    requires PagesFree(pages, lo, hi)
    ensures Tables(subs, sections + [now], pageSize, pages + PageRange(lo, hi, |sections|), mapped + {|sections|},
                   view + [now])
  {
    var sections', view', pages' := sections + [now], view + [now], pages + PageRange(lo, hi, |sections|);
    forall addr: nat | addr < TWO64
      ensures Serves(subs, sections', pageSize, pages', view', addr)
      ensures Inside(now, addr) <==> Page(addr, pageSize) in pages' && pages'[Page(addr, pageSize)] == |sections|
    {
      PageServed(subs, sections, pageSize, pages, mapped, view, now, lo, hi, addr);
    }
    forall page | page in pages'
      ensures page < Page(TWO64, pageSize) && PageKind(subs, sections', pageSize, pages', page)
    {
      PageKept(subs, sections, pageSize, pages, mapped, view, now, lo, hi, page);
    }
    forall n | n in mapped + {|sections|}
      ensures Exact(sections', pageSize, pages', n)
    {
      if n in mapped {
        assert Exact(sections, pageSize, pages, n);
      }
    }
  }

  lemma PageKept(subs: seq<Subpage>, sections: seq<Section>, pageSize: nat, pages: map<nat, nat>, mapped: set<nat>,
                 view: seq<Section>, now: Section, lo: nat, hi: nat, page: nat)
    requires Tables(subs, sections, pageSize, pages, mapped, view)
    requires now.mr.Guest? && InSpace(now) && Offset(now.offsetInSpace, pageSize) == 0
    requires Offset(now.size, pageSize) == 0
    requires lo == Page(now.offsetInSpace, pageSize) && hi == lo + Page(now.size, pageSize) && PagesFree(pages, lo, hi)
    requires page in pages + PageRange(lo, hi, |sections|)
    ensures page < Page(TWO64, pageSize)
    ensures PageKind(subs, sections + [now], pageSize, pages + PageRange(lo, hi, |sections|), page)
  {
    if page in pages {
      assert PageKind(subs, sections, pageSize, pages, page);
    } else {
      PageRun(pageSize, now.offsetInSpace, now.size, 0);
      PageMono(pageSize, now.offsetInSpace + now.size, TWO64);
    }
  }

  lemma PageServed(subs: seq<Subpage>, sections: seq<Section>, pageSize: nat, pages: map<nat, nat>, mapped: set<nat>,
                   view: seq<Section>, now: Section, lo: nat, hi: nat, addr: nat)
    requires Tables(subs, sections, pageSize, pages, mapped, view) && addr < TWO64
    requires now.mr.Guest? && InSpace(now) && Offset(now.offsetInSpace, pageSize) == 0
    requires Offset(now.size, pageSize) == 0
    requires lo == Page(now.offsetInSpace, pageSize) && hi == lo + Page(now.size, pageSize)
    requires PagesFree(pages, lo, hi)
    ensures Serves(subs, sections + [now], pageSize, pages + PageRange(lo, hi, |sections|), view + [now], addr)
    ensures var pages' := pages + PageRange(lo, hi, |sections|);
            Inside(now, addr) <==> Page(addr, pageSize) in pages' && pages'[Page(addr, pageSize)] == |sections|
  {
    assert (view + [now])[..|view|] == view;
    assert Serves(subs, sections, pageSize, pages, view, addr);
    PageRun(pageSize, now.offsetInSpace, now.size, addr);
    if Page(addr, pageSize) in pages {
      assert PageKind(subs, sections, pageSize, pages, Page(addr, pageSize));
    }
  }

  /** A longer view touches the pages it touched, and the page of each byte of the new section. */
  lemma TouchedMore(pageSize: nat, view: seq<Section>, s: Section, page: nat)
    requires pageSize > 0 && InSpace(s)
    requires Touched(pageSize, view, page) || OnPage(pageSize, s, page)
    ensures Touched(pageSize, view + [s], page)
  {
    var view' := view + [s];
    assert view'[..|view|] == view;
    if OnPage(pageSize, s, page) {
      var addr: nat :| Inside(s, addr) && Page(addr, pageSize) == page;
      assert FlatLookup(view', addr) != Nothing;
    } else {
      var addr: nat :| addr < TWO64 && Page(addr, pageSize) == page && FlatLookup(view, addr) != Nothing;
      assert FlatLookup(view', addr) != Nothing;
    }
  }

  /** After a section is registered, the pages it is on and those mapped before are all touched. */
  lemma StillNoIdle(pageSize: nat, pages: map<nat, nat>, pages': map<nat, nat>, view: seq<Section>, s: Section)
    requires pageSize > 0 && InSpace(s) && NoIdlePage(pageSize, pages, view)
    requires forall page | page in pages' && page !in pages :: OnPage(pageSize, s, page)
    ensures NoIdlePage(pageSize, pages', view + [s])
  {
    forall page | page in pages'
      ensures Touched(pageSize, view + [s], page)
    {
      TouchedMore(pageSize, view, s, page);
    }
  }

  ghost predicate OnPage(pageSize: nat, s: Section, page: nat)
    requires pageSize > 0
  {
    exists addr: nat :: Inside(s, addr) && Page(addr, pageSize) == page
  }

  /** No mapped page overlaps an aligned section whose bytes are free. */
  lemma FreePages(pageSize: nat, pages: map<nat, nat>, view: seq<Section>, s: Section)
    requires pageSize > 0 && NoIdlePage(pageSize, pages, view) && FreeIn(view, s)
    requires Offset(s.offsetInSpace, pageSize) == 0 && Offset(s.size, pageSize) == 0
    ensures PagesFree(pages, Page(s.offsetInSpace, pageSize), Page(s.offsetInSpace, pageSize) + Page(s.size, pageSize))
  {
    forall page: nat | Page(s.offsetInSpace, pageSize) <= page < Page(s.offsetInSpace, pageSize)
      + Page(s.size, pageSize)
      ensures page !in pages
    {
      if page in pages {
        assert Touched(pageSize, view, page);
        var addr: nat :| addr < TWO64 && Page(addr, pageSize) == page && FlatLookup(view, addr) != Nothing;
        PageRun(pageSize, s.offsetInSpace, s.size, addr);
      }
    }
  }

  /** What is left of a section after its first d bytes. */
  function Rest(s: Section, d: nat): Section
    requires d <= s.size
  {
    Section(s.mr, s.offsetInSpace + d, Wrap64(s.offsetInRegion + d), s.size - d)
  }

  function Add64(a: nat, b: nat): nat {
    Wrap64(a + b)
  }

  lemma RestOfRest(s: Section, d: nat, len: nat)
    requires d + len <= s.size && s.offsetInSpace + d + len < TWO64
    ensures Section(s.mr, Add64(Rest(s, d).offsetInSpace, len), Add64(Rest(s, d).offsetInRegion, len),
                    Rest(s, d).size - len)
            == Rest(s, d + len)
  {
    WrapSum(s.offsetInRegion + d, len);
  }

  /** Section numbers that register_subpage takes for a piece at addr. */
  ghost function PieceCost(pages: map<nat, nat>, pageSize: nat, addr: nat): nat
    requires pageSize > 0
  {
    if Page(addr, pageSize) in pages then 1 else 2
  }

  /** Section numbers needed for s once its first d bytes are registered. */
  ghost function CostFrom(pages: map<nat, nat>, pageSize: nat, s: Section, d: nat): nat
    requires pageSize > 0 && d <= s.size && 0 < s.size
  {
    (if s.size - d >= pageSize then 1 else 0) +
    (if Offset(s.size - d, pageSize) > 0 then PieceCost(pages, pageSize, s.offsetInSpace + s.size - 1) else 0)
  }

  /** The bytes of s in its first page, if it does not start a page. */
  ghost function Head(pageSize: nat, s: Section): (len: nat)
    requires pageSize > 0
    ensures len <= s.size
  {
    var o := Offset(s.offsetInSpace, pageSize);
    if o == 0 then 0 else if pageSize - o <= s.size then pageSize - o else s.size
  }

  /** Section numbers needed for s, as phys_section_add asserts them to be left. */
  ghost function Cost(pages: map<nat, nat>, pageSize: nat, s: Section): nat
    requires pageSize > 0 && 0 < s.size
  {
    (if Offset(s.offsetInSpace, pageSize) == 0 then 0 else PieceCost(pages, pageSize, s.offsetInSpace)) +
    CostFrom(pages, pageSize, s, Head(pageSize, s))
  }

  /** Mapping pages other than the last one of s does not change what is left to pay. */
  lemma CostStays(pages: map<nat, nat>, pages': map<nat, nat>, pageSize: nat, s: Section, d: nat, last: nat)
    requires pageSize > 0 && d <= s.size && 0 < s.size && last == Page(s.offsetInSpace + s.size - 1, pageSize)
    requires Offset(s.size - d, pageSize) > 0 ==> (last in pages' <==> last in pages)
    ensures CostFrom(pages', pageSize, s, d) == CostFrom(pages, pageSize, s, d)
  {
  }

  /** The bytes after the head are on later pages. */
  lemma AfterHead(pageSize: nat, s: Section)
    requires pageSize > 0 && Offset(s.offsetInSpace, pageSize) != 0 && Head(pageSize, s) < s.size
    ensures Page(s.offsetInSpace + s.size - 1, pageSize) > Page(s.offsetInSpace, pageSize)
  {
    PageBase(s.offsetInSpace, pageSize);
    PageMono(pageSize, s.offsetInSpace + Head(pageSize, s), s.offsetInSpace + s.size - 1);
  }

  /** Section numbers that adding s to the view v takes. */
  ghost function ViewCost(pageSize: nat, v: seq<Section>, s: Section): nat
    requires pageSize > 0
  {
    (if Offset(s.offsetInSpace, pageSize) == 0 then 0
     else if Touched(pageSize, v, Page(s.offsetInSpace, pageSize)) then 1 else 2) +
    (if s.size - Head(pageSize, s) >= pageSize then 1 else 0) +
    (if Offset(s.size - Head(pageSize, s), pageSize) == 0 || s.size == 0 then 0
     else if Touched(pageSize, v, Page(s.offsetInSpace + s.size - 1, pageSize)) then 1 else 2)
  }

  /** The section numbers in use after a view has been added: four fixed ones and what each section took. */
  ghost function SectionsFor(pageSize: nat, view: seq<Section>): nat
    requires pageSize > 0
  {
    if view == [] then 4
    else SectionsFor(pageSize, view[..|view| - 1]) + ViewCost(pageSize, view[..|view| - 1], view[|view| - 1])
  }

  lemma SectionsMore(pageSize: nat, view: seq<Section>, s: Section)
    requires pageSize > 0
    ensures SectionsFor(pageSize, view + [s]) == SectionsFor(pageSize, view) + ViewCost(pageSize, view, s)
  {
    assert (view + [s])[..|view|] == view;
  }

  /** A page is mapped exactly when the view has a byte on it. */
  lemma MappedIsTouched(subs: seq<Subpage>, sections: seq<Section>, pageSize: nat, pages: map<nat, nat>,
                        mapped: set<nat>, view: seq<Section>, page: nat)
    requires Tables(subs, sections, pageSize, pages, mapped, view) && NoIdlePage(pageSize, pages, view)
    ensures page in pages <==> Touched(pageSize, view, page)
  {
    if Touched(pageSize, view, page) {
      var addr: nat :| addr < TWO64 && Page(addr, pageSize) == page && FlatLookup(view, addr) != Nothing;
      assert Serves(subs, sections, pageSize, pages, view, addr);
    }
  }

  lemma CostByView(subs: seq<Subpage>, sections: seq<Section>, pageSize: nat, pages: map<nat, nat>, mapped: set<nat>,
                   view: seq<Section>, s: Section)
    requires Tables(subs, sections, pageSize, pages, mapped, view) && NoIdlePage(pageSize, pages, view) && InSpace(s)
    ensures SectionsFor(pageSize, view + [s]) == SectionsFor(pageSize, view) + Cost(pages, pageSize, s)
  {
    assert (view + [s])[..|view|] == view;
    MappedIsTouched(subs, sections, pageSize, pages, mapped, view, Page(s.offsetInSpace, pageSize));
    MappedIsTouched(subs, sections, pageSize, pages, mapped, view, Page(s.offsetInSpace + s.size - 1, pageSize));
    SameCost(pages, pageSize, view, s);
  }

  lemma SameCost(pages: map<nat, nat>, pageSize: nat, view: seq<Section>, s: Section)
    requires pageSize > 0 && InSpace(s)
    requires Page(s.offsetInSpace, pageSize) in pages <==> Touched(pageSize, view, Page(s.offsetInSpace, pageSize))
    requires Page(s.offsetInSpace + s.size - 1, pageSize) in pages <==>
               Touched(pageSize, view, Page(s.offsetInSpace + s.size - 1, pageSize))
    ensures ViewCost(pageSize, view, s) == Cost(pages, pageSize, s)
  {
  }

  /** Each section takes at most five numbers. */
  lemma {:induction false} SectionsForBound(pageSize: nat, view: seq<Section>)
    requires pageSize > 0
    ensures SectionsFor(pageSize, view) <= 4 + 5 * |view|
  {
    if view != [] {
      SectionsForBound(pageSize, view[..|view| - 1]);
    }
  }

  lemma {:induction false} SectionsForMono(pageSize: nat, view: seq<Section>, n: nat)
    requires pageSize > 0 && n <= |view|
    ensures SectionsFor(pageSize, view[..n]) <= SectionsFor(pageSize, view)
  {
    if n < |view| {
      SectionsForMono(pageSize, view[..|view| - 1], n);
      assert view[..|view| - 1][..n] == view[..n];
    } else {
      assert view[..n] == view;
    }
  }

  /** `now` answers like v with the first d bytes of s added. */
  ghost predicate Part(v: seq<Section>, s: Section, d: nat, now: seq<Section>) {
    match s
    case Section(_, start, _, _) =>
      forall addr: nat ::
        FlatLookup(now, addr) == if start <= addr < start + d then Translate(s, addr) else FlatLookup(v, addr)
  }

  lemma PartNext(v: seq<Section>, s: Section, d: nat, now: seq<Section>, len: nat, p: Section)
    requires Part(v, s, d, now) && d + len <= s.size && p == Rest(s, d).(size := len)
    ensures Part(v, s, d + len, now + [p])
  {
    assert (now + [p])[..|now|] == now;
    forall addr: nat
      ensures FlatLookup(now + [p], addr) ==
              if s.offsetInSpace <= addr < s.offsetInSpace + (d + len) then Translate(s, addr) else FlatLookup(v, addr)
    {
    }
  }

  lemma PartFree(v: seq<Section>, s: Section, d: nat, now: seq<Section>, len: nat, p: Section)
    requires Part(v, s, d, now) && d + len <= s.size && FreeIn(v, s) && p == Rest(s, d).(size := len)
    ensures FreeIn(now, p)
  {
    forall addr: nat | Inside(p, addr)
      ensures FlatLookup(now, addr) == Nothing
    {
      assert Inside(s, addr);
    }
  }

  /** The whole section may replace its pieces. */
  lemma PartAll(subs: seq<Subpage>, sections: seq<Section>, pageSize: nat, pages: map<nat, nat>, mapped: set<nat>,
                v: seq<Section>, s: Section, now: seq<Section>)
    requires Tables(subs, sections, pageSize, pages, mapped, now) && NoIdlePage(pageSize, pages, now)
    requires Part(v, s, s.size, now) && Honest(sections, now)
    ensures Tables(subs, sections, pageSize, pages, mapped, v + [s]) && NoIdlePage(pageSize, pages, v + [s])
    ensures Honest(sections, v + [s])
  {
    assert (v + [s])[..|v|] == v;
    forall addr: nat
      ensures FlatLookup(v + [s], addr) == FlatLookup(now, addr)
    {
    }
    forall addr: nat | addr < TWO64
      ensures Serves(subs, sections, pageSize, pages, v + [s], addr)
    {
      assert Serves(subs, sections, pageSize, pages, now, addr);
    }
    forall n: nat | n < |sections|
      ensures HonestSection(sections[n], v + [s])
    {
      assert HonestSection(sections[n], now);
    }
    forall page | page in pages
      ensures Touched(pageSize, v + [s], page)
    {
      var addr: nat :| addr < TWO64 && Page(addr, pageSize) == page && FlatLookup(now, addr) != Nothing;
      assert FlatLookup(v + [s], addr) != Nothing;
    }
  }

  /** The pages that a page-aligned piece of a guest section takes are free. */
  lemma MultipageRange(pageSize: nat, pages: map<nat, nat>, view: seq<Section>, now: Section, lo: nat, hi: nat)
    requires pageSize > 0 && Offset(TWO64, pageSize) == 0 && NoIdlePage(pageSize, pages, view)
    requires InSpace(now) && FreeIn(view, now)
    requires Offset(now.offsetInSpace, pageSize) == 0 && Offset(now.size, pageSize) == 0
    requires lo == Page(now.offsetInSpace, pageSize) && hi == lo + Page(now.size, pageSize)
    ensures lo < hi <= Page(TWO64, pageSize) && hi == Page(now.offsetInSpace + now.size, pageSize)
    ensures PagesFree(pages, lo, hi)
  {
    PageRun(pageSize, now.offsetInSpace, now.size, now.offsetInSpace);
    PageMono(pageSize, now.offsetInSpace + now.size, TWO64);
    FreePages(pageSize, pages, view, now);
  }

  /** All that registering a page-aligned piece of a guest section does to the tables. */
  lemma MultipageTables(subs: seq<Subpage>, sections: seq<Section>, pageSize: nat, pages: map<nat, nat>,
                        mapped: set<nat>, view: seq<Section>, now: Section, lo: nat, hi: nat,
                        sections': seq<Section>, pages': map<nat, nat>, mapped': set<nat>, view': seq<Section>)
    requires Tables(subs, sections, pageSize, pages, mapped, view) && NoIdlePage(pageSize, pages, view)
    requires Honest(sections, view)
    requires now.mr.Guest? && InSpace(now) && FreeIn(view, now)
    requires Offset(now.offsetInSpace, pageSize) == 0 && Offset(now.size, pageSize) == 0
    requires lo == Page(now.offsetInSpace, pageSize) && hi == lo + Page(now.size, pageSize)
    requires sections' == sections + [now] && pages' == pages + PageRange(lo, hi, |sections|)
    requires mapped' == mapped + {|sections|} && view' == view + [now]
    ensures Tables(subs, sections', pageSize, pages', mapped', view') && NoIdlePage(pageSize, pages', view')
    ensures Honest(sections', view')
  {
    MultipageRange(pageSize, pages, view, now, lo, hi);
    PagesMapped(subs, sections, pageSize, pages, mapped, view, now, lo, hi);
    forall page | page in pages' && page !in pages
      ensures OnPage(pageSize, now, page)
    {
      var addr := ByteOf(page, pageSize);
      PageRun(pageSize, now.offsetInSpace, now.size, addr);
    }
    StillNoIdle(pageSize, pages, pages', view, now);
    HonestMore(sections, view, now);
  }

  /** All that registering a piece of a section in the subpage of its page does to the tables. */
  lemma SubpageTables(subs: seq<Subpage>, sections: seq<Section>, pageSize: nat, pages: map<nat, nat>, mapped: set<nat>,
                      view: seq<Section>, now: Section, base: nat,
                      id: nat, subs': seq<Subpage>, sections': seq<Section>, view': seq<Section>)
    requires Tables(subs, sections, pageSize, pages, mapped, view) && Honest(sections, view)
    requires now.mr.Guest? && InSpace(now) && FreeIn(view, now) && Offset(base, pageSize) == 0
    requires base <= now.offsetInSpace && now.offsetInSpace + now.size <= base + pageSize
    requires Page(base, pageSize) in pages && sections[pages[Page(base, pageSize)]].mr == SubpageIo(id)
    requires id < |subs| == |subs'| && |subs'[id].sub| == |subs[id].sub| == pageSize
    requires subs' == subs[id := subs[id].(sub := subs'[id].sub)]
    requires forall i | 0 <= i < pageSize ::
               subs'[id].sub[i] == if now.offsetInSpace - base <= i <= now.offsetInSpace - base + now.size - 1 then
                 |sections| else subs[id].sub[i]
    requires sections' == sections + [now] && view' == view + [now]
    ensures Tables(subs', sections', pageSize, pages, mapped, view') && Honest(sections', view')
  {
    SubpageFilled(subs, sections, pageSize, pages, mapped, view, now, base, subs'[id].sub);
    HonestMore(sections, view, now);
  }

  /** The step from one range of a disjoint list to the next. */
  lemma NextRange(pageSize: nat, ranges: seq<Section>, i: nat)
    requires pageSize > 0 && Disjoint(ranges) && i < |ranges|
    ensures ranges[..i + 1] == ranges[..i] + [ranges[i]]
    ensures FreeIn(ranges[..i], ranges[i])
    ensures SectionsFor(pageSize, ranges[..i] + [ranges[i]]) <= SectionsFor(pageSize, ranges)
  {
    assert ranges[..i + 1] == ranges[..i] + [ranges[i]];
    assert Disjoint(ranges[..i] + [ranges[i]]);
    DisjointIsFree(ranges[..i], ranges[i]);
    SectionsForMono(pageSize, ranges, i + 1);
  }

  /** A guest section answers for all its bytes as the view does. */
  ghost predicate HonestSection(s: Section, view: seq<Section>) {
    s.mr.Guest? ==> forall addr: nat | Inside(s, addr) :: FlatLookup(view, addr) == Translate(s, addr)
  }

  /** So does every section of the table. */
  ghost predicate Honest(sections: seq<Section>, view: seq<Section>) {
    forall n: nat {:trigger HonestSection(sections[n], view)} | n < |sections| :: HonestSection(sections[n], view)
  }

  lemma HonestMore(sections: seq<Section>, view: seq<Section>, now: Section)
    requires Honest(sections, view) && FreeIn(view, now)
    ensures Honest(sections + [now], view + [now])
  {
    var sections', view' := sections + [now], view + [now];
    assert view'[..|view|] == view;
    forall n: nat | n < |sections'|
      ensures HonestSection(sections'[n], view')
    {
      if n < |sections| {
        assert HonestSection(sections[n], view);
      }
    }
  }

  /** A rest smaller than a page, from a page boundary on. */
  lemma LastPage(pageSize: nat, addr: nat, size: nat)
    requires pageSize > 0 && Offset(addr, pageSize) == 0 && 0 < size < pageSize
    ensures Page(addr + size - 1, pageSize) == Page(addr, pageSize) && Offset(size, pageSize) == size
  {
    PageBytes(pageSize, addr, addr + size - 1);
  }

  /** The whole pages of a section leave a rest smaller than a page, on a page of its own. */
  lemma WholePages(pageSize: nat, s: Section, d: nat, len: nat)
    requires pageSize > 0 && d <= s.size && s.size - d >= pageSize
    requires Offset(s.offsetInSpace + d, pageSize) == 0 && len == s.size - d - Offset(s.size - d, pageSize)
    ensures 0 < len && Offset(len, pageSize) == 0 && Offset(s.offsetInSpace + d + len, pageSize) == 0
    ensures Offset(s.size - d - len, pageSize) == Offset(s.size - d, pageSize) == s.size - d - len
    ensures s.size - d - len > 0 ==>
              Page(s.offsetInSpace + s.size - 1, pageSize) >= Page(s.offsetInSpace + d, pageSize) + Page(len, pageSize)
  {
    var start := s.offsetInSpace + d;
    PageBase(s.size - d, pageSize);
    PageRun(pageSize, start, len, start);
    if s.size - d - len > 0 {
      LastPage(pageSize, start + len, s.size - d - len);
    }
  }

  /** Mapping the whole pages costs one section number and leaves the cost of the rest. */
  lemma PagesPaid(pages: map<nat, nat>, pageSize: nat, s: Section, d: nat, len: nat, n: nat, lo: nat, hi: nat)
    requires pageSize > 0 && 0 < s.size && d <= s.size && s.size - d >= pageSize
    requires Offset(s.offsetInSpace + d, pageSize) == 0 && len == s.size - d - Offset(s.size - d, pageSize)
    requires lo == Page(s.offsetInSpace + d, pageSize) && hi == lo + Page(len, pageSize)
    ensures CostFrom(pages, pageSize, s, d) == 1 + CostFrom(pages + PageRange(lo, hi, n), pageSize, s, d + len)
  {
    WholePages(pageSize, s, d, len);
    if d + len < s.size {
      PageRangeEnds(pages, lo, hi, n, Page(s.offsetInSpace + s.size - 1, pageSize));
    }
  }

  /** The view now has the first d bytes of s beside v, and n section numbers are taken of a budget for all of s. */
  ghost predicate Added(v: seq<Section>, s: Section, d: nat, now: seq<Section>, pages: map<nat, nat>, pageSize: nat,
                        n: nat, budget: nat)
    requires pageSize > 0
  {
    match s
    case Section(mr, start, region, size) =>
      && mr.Guest? && InSpace(s) && region < TWO64 && FreeIn(v, s)
      && d <= size && Part(v, s, d, now) && (d < size ==> Offset(start + d, pageSize) == 0)
      && n + CostFrom(pages, pageSize, s, d) == budget
  }

  /** The head of a section that does not start a page can be registered, and is then added. */
  lemma HeadAdded(v: seq<Section>, s: Section, pages: map<nat, nat>, pageSize: nat, n: nat, p: Section,
                  pages': map<nat, nat>, n': nat)
    requires pageSize > 0 && s.mr.Guest? && InSpace(s) && s.offsetInRegion < TWO64 && FreeIn(v, s)
    requires Offset(s.offsetInSpace, pageSize) != 0 && p == s.(size := Head(pageSize, s)) && 0 < p.size
    requires p.size < s.size ==> Offset(s.offsetInSpace + p.size, pageSize) == 0
    requires pages'.Keys == pages.Keys + {Page(p.offsetInSpace, pageSize)}
    requires n' == n + if Page(p.offsetInSpace, pageSize) in pages then 1 else 2
    ensures p.mr.Guest? && InSpace(p) && FreeIn(v, p) && n' <= n + Cost(pages, pageSize, s)
    ensures Added(v, s, p.size, v + [p], pages', pageSize, n', n + Cost(pages, pageSize, s))
  {
    var last := Page(s.offsetInSpace + s.size - 1, pageSize);
    if p.size < s.size {
      AfterHead(pageSize, s);
    }
    assert Part(v, s, 0, v) && Rest(s, 0) == s;
    PartFree(v, s, 0, v, p.size, p);
    PartNext(v, s, 0, v, p.size, p);
    assert last in pages' <==> last in pages'.Keys;
    CostStays(pages, pages', pageSize, s, p.size, last);
  }

  /** The whole pages of what remains can be registered, and are then added. */
  lemma PagesAdded(v: seq<Section>, s: Section, d: nat, now: seq<Section>, pages: map<nat, nat>, pageSize: nat, n: nat,
                   budget: nat, p: Section, lo: nat, hi: nat)
    requires pageSize > 0 && Added(v, s, d, now, pages, pageSize, n, budget) && d + pageSize <= s.size
    requires p == Rest(s, d).(size := s.size - d - Offset(s.size - d, pageSize))
    requires lo == Page(p.offsetInSpace, pageSize) && hi == lo + Page(p.size, pageSize)
    ensures 0 < p.size && p.mr.Guest? && InSpace(p) && FreeIn(now, p) && n < budget
    ensures Offset(p.offsetInSpace, pageSize) == 0 && Offset(p.size, pageSize) == 0
    ensures Added(v, s, d + p.size, now + [p], pages + PageRange(lo, hi, n), pageSize, n + 1, budget)
  {
    WholePages(pageSize, s, d, p.size);
    PagesPaid(pages, pageSize, s, d, p.size, n, lo, hi);
    PartFree(v, s, d, now, p.size, p);
    PartNext(v, s, d, now, p.size, p);
  }

  /** So can what remains when it is less than a page. */
  lemma LastAdded(v: seq<Section>, s: Section, d: nat, now: seq<Section>, pages: map<nat, nat>, pageSize: nat, n: nat,
                  budget: nat, p: Section, pages': map<nat, nat>)
    requires pageSize > 0 && Added(v, s, d, now, pages, pageSize, n, budget) && d < s.size < d + pageSize
    requires p == Rest(s, d)
    ensures p.mr.Guest? && InSpace(p) && FreeIn(now, p) && Offset(p.offsetInSpace, pageSize) + p.size <= pageSize
    ensures budget == n + if Page(p.offsetInSpace, pageSize) in pages then 1 else 2
    ensures Added(v, s, d + p.size, now + [p], pages', pageSize, budget, budget)
  {
    LastPage(pageSize, p.offsetInSpace, p.size);
    PartFree(v, s, d, now, p.size, p);
    PartNext(v, s, d, now, p.size, p);
  }

  /** The view has len bytes of one region from addr on, at consecutive offsets from xlat on. */
  ghost predicate RunsOn(view: seq<Section>, mr: Region, addr: nat, len: nat, xlat: nat) {
    forall a: nat | addr <= a < addr + len :: FlatLookup(view, a) == At(mr, Wrap64(xlat + (a - addr)))
  }

  lemma SectionRuns(s: Section, view: seq<Section>, addr: nat, len: nat, xlat: nat)
    requires s.mr.Guest? && HonestSection(s, view) && Inside(s, addr) && addr + len <= s.offsetInSpace + s.size
    requires xlat == Wrap64(addr - s.offsetInSpace + s.offsetInRegion)
    ensures RunsOn(view, s.mr, addr, len, xlat)
  {
    forall a: nat | addr <= a < addr + len
      ensures FlatLookup(view, a) == At(s.mr, Wrap64(xlat + (a - addr)))
    {
      assert Inside(s, a);
      TranslateRun(s, addr, a);
    }
  }

  lemma TranslateRun(s: Section, addr: nat, a: nat)
    requires s.offsetInSpace <= addr <= a
    ensures Translate(s, a) == At(s.mr, Wrap64(Wrap64(addr - s.offsetInSpace + s.offsetInRegion) + (a - addr)))
  {
    WrapSum(addr - s.offsetInSpace + s.offsetInRegion, a - addr);
  }
}
