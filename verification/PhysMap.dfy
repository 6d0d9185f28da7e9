/**
  The operations of qemu/exec.c on the page map: node allocation, range
  insertion, in-place compaction and the lookup loop.  C pointers to a page
  entry that an operation may rewrite are in-out parameters here.
 */
module PhysMap {
  import opened Basics
  import opened PhysTree
  import opened Arith

  /** The pages lo <= page < hi are mapped to leaf, other pages of the block as before. */
  ghost predicate RangeSet(nodes: seq<Node>, e: Entry, nodes': seq<Node>, e': Entry, h: nat,
                           base: nat, lo: nat, hi: nat, leaf: nat)
  {
    forall page: nat | base <= page < base + Span(h) ::
      Walk(nodes', e', h, page) == if lo <= page < hi then leaf else Walk(nodes, e, h, page)
  }

  ghost predicate RangeFree(nodes: seq<Node>, e: Entry, h: nat, base: nat, lo: nat, hi: nat) {
    forall page: nat | base <= page < base + Span(h) && lo <= page < hi ::
      Walk(nodes, e, h, page) == PHYS_SECTION_UNASSIGNED
  }

  /** The most nodes one call at `level` can allocate: a chain at each partially covered end. */
  ghost function AllocBound(base: nat, index: nat, nb: nat, level: nat): nat {
    if index == base || index + nb >= base + Span(level + 1) then level + 1 else 2 * level + 1
  }

  /** The first page under entry k of a node whose first page is base. */
  function Start(base: nat, level: nat, k: nat): (s: nat)
    ensures s >= base
  {
    if k == 0 then base else Start(base, level, k - 1) + Span(level)
  }

  lemma {:induction false} StartIs(base: nat, level: nat, k: nat)
    ensures Start(base, level, k) == base + k * Span(level)
  {
    if k > 0 {
      StartIs(base, level, k - 1);
      assert k * Span(level) == (k - 1) * Span(level) + Span(level);
    }
  }

  /** The pages of entry k of an aligned block: their slot and their offset in it. */
  lemma SlotRange(base: nat, level: nat, k: nat, page: nat)
    requires base % Span(level + 1) == 0 && k < P_L2_SIZE
    requires Start(base, level, k) <= page < Start(base, level, k + 1)
    ensures Slot(page, level) == k
    ensures page % Span(level) == page - Start(base, level, k)
    ensures Start(base, level, k) % Span(level) == 0
  {
    var s := Span(level);
    var q := base / Span(level + 1);
    StartIs(base, level, k);
    SlotProduct(q, s, k);
    DivModUnique(page, s, q * 512 + k, page - Start(base, level, k));
    DivModUnique(Start(base, level, k), s, q * 512 + k, 0);
    SlotRemainder(q, k);
  }

  lemma {:induction false} SlotProduct(q: nat, s: nat, k: nat)
    ensures (q * 512 + k) * s == q * (512 * s) + k * s
  {
    if q > 0 {
      SlotProduct(q - 1, s, k);
      assert (q * 512 + k) * s == ((q - 1) * 512 + k) * s + 512 * s;
      assert q * (512 * s) == (q - 1) * (512 * s) + 512 * s;
    }
  }

  lemma SlotRemainder(q: nat, k: nat)
    requires k < 512
    ensures (q * 512 + k) % 512 == k
  {
  }

  /** Slot k of an aligned block holds exactly the pages from its start to the next. */
  lemma SlotIff(base: nat, level: nat, k: nat, page: nat)
    requires base % Span(level + 1) == 0 && k < P_L2_SIZE
    requires base <= page < base + Span(level + 1)
    ensures Slot(page, level) == k <==> Start(base, level, k) <= page < Start(base, level, k + 1)
  {
    var s := Span(level);
    var j := (page - base) / s;
    assert page - base == j * s + (page - base) % s;
    StartIs(base, level, j);
    MulStep(511, j, s);
    SlotRange(base, level, j, page);
    if Start(base, level, k) <= page < Start(base, level, k + 1) {
      SlotRange(base, level, k, page);
    }
  }

  /** What holds around one turn of the loop of phys_page_set_level. */
  ghost predicate Turn(nodes: seq<Node>, mid: seq<Node>, nodes': seq<Node>, lp: Entry, level: nat, h: nat, k: nat,
                       kid: Entry, secs: set<nat>, base: nat, from: nat, to: nat, leaf: nat)
  {
    && h == level + 1 && base % Span(h) == 0
    && KidReplaced(nodes, mid, nodes', lp, h, level, k, kid, secs, true)
    && Start(base, level, k) <= from <= to <= Start(base, level, k + 1)
    && RangeSet(nodes, nodes[lp.ptr][k], mid, kid, level, Start(base, level, k), from, to, leaf)
  }

  lemma TurnWalks(nodes: seq<Node>, mid: seq<Node>, nodes': seq<Node>, lp: Entry, level: nat, h: nat, k: nat,
                  kid: Entry, secs: set<nat>, base: nat, from: nat, to: nat, leaf: nat)
    requires Turn(nodes, mid, nodes', lp, level, h, k, kid, secs, base, from, to, leaf)
    ensures RangeSet(nodes, lp, nodes', lp, h, base, from, to, leaf)
  {
    ReplaceKid(nodes, mid, nodes', lp, h, level, k, kid, secs, true);
    forall page: nat | base <= page < base + Span(h)
      ensures Walk(nodes', lp, h, page) == if from <= page < to then leaf else Walk(nodes, lp, h, page)
    {
      SlotIff(base, level, k, page);
    }
  }

  /** One turn of the loop extends the range set so far. */
  lemma TurnKeeps(first: seq<Node>, nodes: seq<Node>, mid: seq<Node>, nodes': seq<Node>, lp: Entry, level: nat, h: nat,
                  k: nat, kid: Entry, secs: set<nat>, base: nat, lo: nat, from: nat, to: nat, leaf: nat)
    requires Turn(nodes, mid, nodes', lp, level, h, k, kid, secs, base, from, to, leaf)
    requires RangeSet(first, lp, nodes, lp, h, base, lo, from, leaf) && lo <= from
    requires Wrote(first, nodes, Ids(first, lp, h))
    requires Ids(nodes, lp, h) <= Ids(first, lp, h) + Fresh(first, nodes)
    ensures Tree(nodes', lp, h, secs, true) && Inner(nodes', lp, h)
    ensures RangeSet(first, lp, nodes', lp, h, base, lo, to, leaf)
    ensures Wrote(first, nodes', Ids(first, lp, h))
    ensures Ids(nodes', lp, h) <= Ids(first, lp, h) + Fresh(first, nodes')
    ensures nodes'[lp.ptr] == nodes[lp.ptr][k := kid]
  {
    TurnWalks(nodes, mid, nodes', lp, level, h, k, kid, secs, base, from, to, leaf);
    ReplaceKid(nodes, mid, nodes', lp, h, level, k, kid, secs, true);
  }

  /** Entry k is a tree of its own. */
  lemma KidTree(nodes: seq<Node>, lp: Entry, level: nat, h: nat, k: nat, secs: set<nat>, plain: bool)
    requires h == level + 1 && lp.skip == 1 && k < P_L2_SIZE
    requires Tree(nodes, lp, h, secs, plain) && Inner(nodes, lp, h)
    ensures Tree(nodes, nodes[lp.ptr][k], level, secs, plain)
    ensures lp.ptr !in Ids(nodes, nodes[lp.ptr][k], level)
  {
    var p := nodes[lp.ptr];
    assert Kids(nodes, p, lp.ptr, level, secs, plain);
    assert Ids(nodes, p[k], level) <= KidIds(nodes, p, level);
  }

  /** The block of entry k is aligned and inside the block of its node. */
  lemma StartBound(base: nat, level: nat, k: nat)
    requires base % Span(level + 1) == 0 && k < P_L2_SIZE
    ensures Start(base, level, k + 1) <= base + Span(level + 1)
    ensures Start(base, level, k) % Span(level) == 0
  {
    StartIs(base, level, k + 1);
    MulStep(k + 1, P_L2_SIZE, Span(level));
    SlotRange(base, level, k, Start(base, level, k));
  }

  lemma StartTop(base: nat, level: nat, k: nat)
    requires k <= P_L2_SIZE
    ensures Start(base, level, k) <= base + Span(level + 1)
    ensures k == P_L2_SIZE ==> Start(base, level, k) == base + Span(level + 1)
  {
    StartIs(base, level, k);
    MulStep(k, P_L2_SIZE, Span(level));
  }

  /** Pages that are free under an entry are free under its entry k. */
  lemma KidFree(nodes: seq<Node>, lp: Entry, level: nat, h: nat, k: nat, base: nat, lo: nat, hi: nat)
    requires h == level + 1 && base % Span(h) == 0 && lp.skip == 1 && k < P_L2_SIZE
    requires Inner(nodes, lp, h) && RangeFree(nodes, lp, h, base, lo, hi)
    requires Start(base, level, k) <= lo < hi && lo < Start(base, level, k + 1)
    ensures RangeFree(nodes, nodes[lp.ptr][k], level, Start(base, level, k), lo, hi)
    ensures Walk(nodes, nodes[lp.ptr][k], level, lo) == PHYS_SECTION_UNASSIGNED
  {
    var start := Start(base, level, k);
    StartBound(base, level, k);
    forall page: nat | start <= page < start + Span(level) && lo <= page < hi
      ensures Walk(nodes, nodes[lp.ptr][k], level, page) == PHYS_SECTION_UNASSIGNED
    {
      SlotRange(base, level, k, page);
      assert Walk(nodes, lp, h, page) == PHYS_SECTION_UNASSIGNED;
    }
  }

  /** The loop of phys_page_set_level: the pages lo <= page < index are set, those up to hi still free. */
  ghost predicate Filling(first: seq<Node>, nodes: seq<Node>, lp: Entry, h: nat, secs: set<nat>,
                          base: nat, lo: nat, index: nat, hi: nat, leaf: nat)
  {
    && base % Span(h) == 0 && lp.skip == 1 && lo <= index <= hi
    && Tree(nodes, lp, h, secs, true) && Inner(nodes, lp, h)
    && RangeSet(first, lp, nodes, lp, h, base, lo, index, leaf)
    && RangeFree(nodes, lp, h, base, index, hi)
    && Wrote(first, nodes, Ids(first, lp, h))
    && Ids(nodes, lp, h) <= Ids(first, lp, h) + Fresh(first, nodes)
  }

  /** The most nodes that filling one entry can allocate. */
  ghost function SlotBound(start: nat, index: nat, nb: nat, level: nat): nat {
    if level == 0 || (index == start && nb >= Span(level)) then 0 else AllocBound(start, index, nb, level - 1)
  }

  /** Nodes allocated by the turns of the loop before entry k. */
  ghost function Spent(base: nat, index: nat, hi: nat, level: nat, k0: nat, k: nat, done: bool): nat {
    1 + (if k > k0 && index != Start(base, level, k0) then level else 0) + (if done
                                                                            && hi != Start(base, level, k) then level
                                                                                 else 0)
  }

  /** The next turn stays within the bound: only the first and the last entry can be partial. */
  lemma SpendTurn(base: nat, index0: nat, index: nat, hi: nat, level: nat, k0: nat, k: nat)
    requires base % Span(level + 1) == 0 && k0 <= k < P_L2_SIZE
    requires Start(base, level, k0) <= index0 < Start(base, level, k0 + 1)
    requires index == (if k == k0 then index0 else Start(base, level, k)) && index0 <= index < hi
    ensures Spent(base, index0, hi, level, k0, k, false) + SlotBound(Start(base, level, k), index, hi - index, level)
            <= Spent(base, index0, hi, level, k0, k + 1, hi <= Start(base, level, k + 1))
    ensures Spent(base, index0, hi, level, k0, k, false) + SlotBound(Start(base, level, k), index, hi - index, level)
            <= AllocBound(base, index0, hi - index0, level)
  {
    StartBound(base, level, k);
  }

  lemma SpendAll(base: nat, index0: nat, hi: nat, level: nat, k0: nat, k: nat)
    requires k0 < k <= P_L2_SIZE && index0 < hi
    requires Start(base, level, k0) <= index0
    requires k < P_L2_SIZE ==> hi <= Start(base, level, k)
    ensures Spent(base, index0, hi, level, k0, k, hi <= Start(base, level, k)) <= AllocBound(base, index0, hi - index0,
        level)
  {
    StartTop(base, level, k);
  }

  /** Walks end as before, except that unmapped pages may now reach a leaf. */
  ghost predicate Thinner(nodes: seq<Node>, e: Entry, nodes': seq<Node>, e': Entry, h: nat) {
    forall page: nat ::
      Walk(nodes', e', h, page) == Walk(nodes, e, h, page) || Walk(nodes, e, h, page) == PHYS_SECTION_UNASSIGNED
  }

  /** The loop of phys_page_compact has compacted the entries below i of the node under lp. */
  ghost predicate Compacting(first: seq<Node>, nodes: seq<Node>, lp: Entry, h: nat, g: nat, secs: set<nat>, i: nat) {
    && h == g + 1 && lp.skip == 1 && i <= P_L2_SIZE
    && Inner(first, lp, h) && Inner(nodes, lp, h)
    && |nodes| == |first|
    && Tree(nodes, lp, h, secs, false)
    && Ids(nodes, lp, h) <= Ids(first, lp, h)
    && Wrote(first, nodes, Ids(first, lp, h))
    && Thinner(first, lp, nodes, lp, h)
    && (forall j | i <= j < P_L2_SIZE :: Tree(nodes, nodes[lp.ptr][j], g, secs, true))
  }

  /** Compacting entry i moves the loop on. */
  lemma CompactTurn(first: seq<Node>, nodes: seq<Node>, mid: seq<Node>, nodes': seq<Node>, lp: Entry, h: nat, g: nat,
                    secs: set<nat>, i: nat, kid: Entry)
    requires Compacting(first, nodes, lp, h, g, secs, i) && i < P_L2_SIZE
    requires Tree(mid, kid, g, secs, false)
    requires |mid| == |nodes| && Wrote(nodes, mid, Ids(nodes, nodes[lp.ptr][i], g))
    requires Ids(mid, kid, g) <= Ids(nodes, nodes[lp.ptr][i], g)
    requires Thinner(nodes, nodes[lp.ptr][i], mid, kid, g)
    requires mid[lp.ptr] == nodes[lp.ptr]
    requires nodes' == mid[lp.ptr := mid[lp.ptr][i := kid]]
    ensures Compacting(first, nodes', lp, h, g, secs, i + 1)
    ensures nodes'[lp.ptr] == nodes[lp.ptr][i := kid]
  {
    var p := nodes[lp.ptr];
    assert KidReplaced(nodes, mid, nodes', lp, h, g, i, kid, secs, false);
    ReplaceKid(nodes, mid, nodes', lp, h, g, i, kid, secs, false);
    assert Fresh(nodes, nodes') == {};
    assert Kids(nodes, p, lp.ptr, g, secs, false);
    forall j | i + 1 <= j < P_L2_SIZE
      ensures Tree(nodes', p[j], g, secs, true)
    {
      LaterKid(nodes, nodes', p, lp.ptr, g, secs, i, j);
    }
    CompactWalks(first, nodes, mid, nodes', lp, h, g, i, kid);
  }

  /** An entry that the loop has not come to keeps its tree. */
  lemma LaterKid(nodes: seq<Node>, nodes': seq<Node>, p: Node, ptr: nat, g: nat, secs: set<nat>, i: nat, j: nat)
    requires |p| == P_L2_SIZE && i < j < P_L2_SIZE && Kids(nodes, p, ptr, g, secs, false)
    requires Tree(nodes, p[j], g, secs, true)
    requires |nodes'| == |nodes| && Wrote(nodes, nodes', Ids(nodes, p[i], g) + {ptr})
    ensures Tree(nodes', p[j], g, secs, true)
  {
    assert Ids(nodes, p[j], g) <= KidIds(nodes, p, g);
    assert Ids(nodes, p[j], g) !! Ids(nodes, p[i], g);
    IdsBound(nodes, p[j], g);
    Frame(nodes, nodes', p[j], g, secs, secs, true);
  }

  lemma CompactWalks(first: seq<Node>, nodes: seq<Node>, mid: seq<Node>, nodes': seq<Node>, lp: Entry, h: nat, g: nat,
                     i: nat, kid: Entry)
    requires h == g + 1 && lp.skip == 1 && Inner(nodes, lp, h) && i < P_L2_SIZE
    requires Thinner(first, lp, nodes, lp, h) && Thinner(nodes, nodes[lp.ptr][i], mid, kid, g)
    requires forall page: nat ::
               Walk(nodes', lp, h, page)
               == if Slot(page, g) == i then Walk(mid, kid, g, page) else Walk(nodes, lp, h, page)
    ensures Thinner(first, lp, nodes', lp, h)
  {
    forall page: nat
      ensures || Walk(nodes', lp, h, page) == Walk(first, lp, h, page)
              || Walk(first, lp, h, page) == PHYS_SECTION_UNASSIGNED
    {
      if Slot(page, g) == i {
        assert Walk(nodes, lp, h, page) == Walk(nodes, nodes[lp.ptr][i], g, page);
      }
    }
  }

  /** An entry whose node has a single valid entry may lead to that entry's target at once. */
  lemma SkipNode(nodes: seq<Node>, lp: Entry, h: nat, g: nat, secs: set<nat>, v: nat, lp': Entry)
    requires h == g + 1 && lp.skip == 1 && v < P_L2_SIZE
    requires Tree(nodes, lp, h, secs, false) && Inner(nodes, lp, h)
    requires nodes[lp.ptr][v].ptr != PHYS_MAP_NODE_NIL
    requires forall j | 0 <= j < P_L2_SIZE && j != v :: nodes[lp.ptr][j].ptr == PHYS_MAP_NODE_NIL
    requires lp'.ptr == nodes[lp.ptr][v].ptr
    requires lp'.skip == if nodes[lp.ptr][v].skip == 0 then 0 else 1 + nodes[lp.ptr][v].skip
    ensures Tree(nodes, lp', h, secs, false)
    ensures Ids(nodes, lp', h) <= Ids(nodes, lp, h)
    ensures Thinner(nodes, lp, nodes, lp', h)
  {
    var p := nodes[lp.ptr];
    assert Kids(nodes, p, lp.ptr, g, secs, false);
    assert Ids(nodes, p[v], g) <= KidIds(nodes, p, g);
    forall page: nat
      ensures Walk(nodes, lp', h, page) == Walk(nodes, lp, h, page) || Walk(nodes, lp, h,
          page) == PHYS_SECTION_UNASSIGNED
    {
      var j := Slot(page, g);
      assert Tree(nodes, p[j], g, secs, false);
      if j == v {
        assert Walk(nodes, lp', h, page) == Walk(nodes, p[v], g, page);
      } else {
        assert p[j].skip != 0;
      }
    }
  }

  /** PhysPageMap: the node array with its allocated capacity. */
  class PhysPageMap {
    var nodes: seq<Node>
    var nodesAlloc: nat
    var allocHint: nat

    constructor ()
      ensures nodes == [] && nodesAlloc == 0
    {
      nodes, nodesAlloc, allocHint := [], 0, 16;
    }

    /** phys_map_node_reserve */
    method NodeReserve(n: nat)
      requires |nodes| <= nodesAlloc
      modifies `nodesAlloc, `allocHint
      ensures |nodes| + n <= nodesAlloc
    {
      if |nodes| + n > nodesAlloc {
        nodesAlloc := if nodesAlloc >= allocHint then nodesAlloc else allocHint;
        nodesAlloc := if nodesAlloc >= |nodes| + n then nodesAlloc else |nodes| + n;
        allocHint := nodesAlloc;
      }
    }

    /** phys_map_node_alloc; its two assertions are the preconditions. */
    method NodeAlloc(leaf: bool) returns (ret: nat)
      requires |nodes| < PHYS_MAP_NODE_NIL
      requires |nodes| < nodesAlloc
      modifies `nodes
      ensures ret == |old(nodes)| && |nodes| == ret + 1 && nodes[..ret] == old(nodes)
      ensures |nodes[ret]| == P_L2_SIZE
      ensures forall k | 0 <= k < P_L2_SIZE ::
                nodes[ret][k] == if leaf then Entry(0, PHYS_SECTION_UNASSIGNED) else Entry(1, PHYS_MAP_NODE_NIL)
    {
      ret := |nodes|;
      var e := if leaf then Entry(0, PHYS_SECTION_UNASSIGNED) else Entry(1, PHYS_MAP_NODE_NIL);
      var p: Node := [];
      for i := 0 to P_L2_SIZE
        invariant |p| == i && forall k | 0 <= k < i :: p[k] == e
      {
        p := p + [e];
      }
      nodes := nodes + [p];
    }

    /** The entry gets a node if it has none, without changing what it maps. */
    method EnsureNode(lp0: Entry, level: nat, ghost h: nat, ghost secs: set<nat>) returns (lp: Entry)
      requires h == level + 1
      requires Tree(nodes, lp0, h, secs, true) && lp0.skip == 1
      requires PHYS_SECTION_UNASSIGNED in secs
      requires |nodes| < PHYS_MAP_NODE_NIL && |nodes| < nodesAlloc
      modifies `nodes
      ensures lp.skip == 1
      ensures Tree(nodes, lp, h, secs, true) && Inner(nodes, lp, h)
      ensures Ids(nodes, lp, h) <= old(Ids(nodes, lp0, h)) + Fresh(old(nodes), nodes)
      ensures Wrote(old(nodes), nodes, {}) && |nodes| <= |old(nodes)| + 1
      ensures SameWalk(old(nodes), lp0, nodes, lp, h)
    {
      lp := lp0;
      if lp.skip != 0 && lp.ptr == PHYS_MAP_NODE_NIL {
        var n := NodeAlloc(level == 0);
        lp := lp.(ptr := n);
        assert forall k | 0 <= k < P_L2_SIZE :: Ids(nodes, nodes[n][k], level) == {};
        assert KidIds(nodes, nodes[n], level) == {};
        assert Kids(nodes, nodes[n], n, level, secs, true);
      }
    }

    /** phys_page_set_level */
    method SetLevel(lp0: Entry, index0: nat, nb0: nat, leaf: nat, level: nat,
                    ghost h: nat, ghost base: nat, ghost secs: set<nat>)
      returns (lp: Entry, index: nat, nb: nat)
      requires h == level + 1
      requires Tree(nodes, lp0, h, secs, true) && lp0.skip == 1
      requires base % Span(h) == 0 && base <= index0 < base + Span(h) && nb0 > 0
      requires leaf in secs && PHYS_SECTION_UNASSIGNED in secs && PHYS_SECTION_UNASSIGNED < leaf < PHYS_MAP_NODE_NIL
      requires RangeFree(nodes, lp0, h, base, index0, index0 + nb0)
      requires |nodes| + AllocBound(base, index0, nb0, level) <= nodesAlloc
      requires |nodes| + AllocBound(base, index0, nb0, level) <= PHYS_MAP_NODE_NIL
      modifies `nodes
      ensures index == Min(index0 + nb0, base + Span(h)) && index + nb == index0 + nb0
      ensures Tree(nodes, lp, h, secs, true) && lp.skip == 1
      ensures RangeSet(old(nodes), lp0, nodes, lp, h, base, index0, index, leaf)
      ensures |nodes| <= |old(nodes)| + AllocBound(base, index0, nb0, level)
      ensures Wrote(old(nodes), nodes, Ids(old(nodes), lp0, h))
      ensures Ids(nodes, lp, h) <= Ids(old(nodes), lp0, h) + Fresh(old(nodes), nodes)
      decreases level, 2
    {
      lp := EnsureNode(lp0, level, h, secs);
      index, nb := FillNode(lp, index0, nb0, leaf, level, h, base, secs);
    }

    /** The loop of phys_page_set_level, from the entry of the first page on. */
    method FillNode(lp: Entry, index0: nat, nb0: nat, leaf: nat, level: nat,
                    ghost h: nat, ghost base: nat, ghost secs: set<nat>)
      returns (index: nat, nb: nat)
      requires h == level + 1 && base <= index0 < base + Span(h) && nb0 > 0
      requires leaf in secs && PHYS_SECTION_UNASSIGNED in secs && PHYS_SECTION_UNASSIGNED < leaf < PHYS_MAP_NODE_NIL
      requires Filling(nodes, nodes, lp, h, secs, base, index0, index0, index0 + nb0, leaf)
      requires |nodes| + AllocBound(base, index0, nb0, level) <= nodesAlloc + 1
      requires |nodes| + AllocBound(base, index0, nb0, level) <= PHYS_MAP_NODE_NIL + 1
      modifies `nodes
      ensures index == Min(index0 + nb0, base + Span(h)) && index + nb == index0 + nb0
      ensures Filling(old(nodes), nodes, lp, h, secs, base, index0, index, index0 + nb0, leaf)
      ensures |nodes| + 1 <= |old(nodes)| + AllocBound(base, index0, nb0, level)
      decreases level, 1
    {
      index, nb := index0, nb0;
      ghost var hi := index0 + nb0;
      var k := Slot(index, level);
      ghost var k0 := k;
      SlotIff(base, level, k, index0);
      while nb != 0 && k < P_L2_SIZE
        invariant k0 <= k <= P_L2_SIZE && index + nb == hi
        invariant index == if k == k0 then index0 else Min(hi, Start(base, level, k))
        invariant Filling(old(nodes), nodes, lp, h, secs, base, index0, index, hi, leaf)
        invariant |nodes| + 1 <= |old(nodes)| + Spent(base, index0, hi, level, k0, k, nb == 0)
      {
        SpendTurn(base, index0, index, hi, level, k0, k);
        index, nb := SetSlot(lp, k, index, nb, leaf, level, h, base, secs, old(nodes), index0);
        k := k + 1;
      }
      StartTop(base, level, k);
      SpendAll(base, index0, hi, level, k0, k);
    }

    /** One turn of the loop of phys_page_set_level: fill entry k or descend into it. */
    method SetSlot(lp: Entry, k: nat, index0: nat, nb0: nat, leaf: nat, level: nat,
                   ghost h: nat, ghost base: nat, ghost secs: set<nat>, ghost first: seq<Node>, ghost lo: nat)
      returns (index: nat, nb: nat)
      requires h == level + 1 && k < P_L2_SIZE && nb0 > 0
      requires leaf in secs && PHYS_SECTION_UNASSIGNED in secs && PHYS_SECTION_UNASSIGNED < leaf < PHYS_MAP_NODE_NIL
      requires Start(base, level, k) <= index0 < Start(base, level, k + 1)
      requires Filling(first, nodes, lp, h, secs, base, lo, index0, index0 + nb0, leaf)
      requires |nodes| + SlotBound(Start(base, level, k), index0, nb0, level) <= nodesAlloc
      requires |nodes| + SlotBound(Start(base, level, k), index0, nb0, level) <= PHYS_MAP_NODE_NIL
      modifies `nodes
      ensures index == Min(index0 + nb0, Start(base, level, k + 1)) && index + nb == index0 + nb0
      ensures Filling(first, nodes, lp, h, secs, base, lo, index, index0 + nb0, leaf)
      ensures |nodes| <= |old(nodes)| + SlotBound(Start(base, level, k), index0, nb0, level)
      decreases level, 0
    {
      index, nb := index0, nb0;
      var p, step := lp.ptr, Span(level);
      KidTree(nodes, lp, level, h, k, secs, true);
      StartBound(base, level, k);
      SlotRange(base, level, k, index);
      var kid: Entry;
      if index % step == 0 && nb >= step {
        kid := Entry(0, leaf);
        index, nb := index + step, nb - step;
      } else {
        KidFree(nodes, lp, level, h, k, base, index, index + nb);
        kid, index, nb := SetLevel(nodes[p][k], index, nb, leaf, level - 1, level, Start(base, level, k), secs);
      }
      ghost var mid := nodes;
      nodes := nodes[p := nodes[p][k := kid]];
      TurnKeeps(first, old(nodes), mid, nodes, lp, level, h, k, kid, secs, base, lo, index0, index, leaf);
    }

    /** phys_page_set: 3 * P_L2_LEVELS nodes are reserved and at most 2 * P_L2_LEVELS - 1 used. */
    method Set(root0: Entry, index: nat, nb: nat, leaf: nat, levels: nat, ghost secs: set<nat>) returns (root: Entry)
      requires levels > 0 && |nodes| <= nodesAlloc
      requires Tree(nodes, root0, levels, secs, true) && root0.skip == 1
      requires nb > 0 && index + nb <= Span(levels)
      requires leaf in secs && PHYS_SECTION_UNASSIGNED in secs && PHYS_SECTION_UNASSIGNED < leaf < PHYS_MAP_NODE_NIL
      requires RangeFree(nodes, root0, levels, 0, index, index + nb)
      requires |nodes| + 2 * levels - 1 <= PHYS_MAP_NODE_NIL
      modifies this
      ensures |nodes| <= nodesAlloc && |nodes| <= |old(nodes)| + 2 * levels - 1
      ensures Tree(nodes, root, levels, secs, true) && root.skip == 1
      ensures RangeSet(old(nodes), root0, nodes, root, levels, 0, index, index + nb, leaf)
    {
      NodeReserve(3 * levels);
      var i, n;
      root, i, n := SetLevel(root0, index, nb, leaf, levels - 1, levels, 0, secs);
    }

    /** phys_page_compact */
    method Compact(lp0: Entry, ghost h: nat, ghost secs: set<nat>) returns (lp: Entry)
      requires Tree(nodes, lp0, h, secs, true) && lp0.skip == 1
      modifies `nodes
      ensures |nodes| == |old(nodes)| && Wrote(old(nodes), nodes, Ids(old(nodes), lp0, h))
      ensures Tree(nodes, lp, h, secs, false)
      ensures Ids(nodes, lp, h) <= Ids(old(nodes), lp0, h)
      ensures Thinner(old(nodes), lp0, nodes, lp, h)
      ensures lp.ptr == PHYS_MAP_NODE_NIL <==> lp0.ptr == PHYS_MAP_NODE_NIL
      decreases h
    {
      lp := lp0;
      if lp.ptr == PHYS_MAP_NODE_NIL {
        return;
      }
      var validPtr, valid := P_L2_SIZE, 0;
      var p := lp.ptr;
      ghost var g := h - 1;
      Weaken(nodes, lp, h, secs);
      assert Kids(nodes, nodes[p], p, g, secs, true);
      var i := 0;
      while i < P_L2_SIZE
        invariant 0 <= i <= P_L2_SIZE
        invariant Compacting(old(nodes), nodes, lp, h, g, secs, i)
        invariant valid >= 0
        invariant valid == 0 ==> forall j | 0 <= j < i :: nodes[p][j].ptr == PHYS_MAP_NODE_NIL
        invariant valid == 1 ==> 0 <= validPtr < i && nodes[p][validPtr].ptr != PHYS_MAP_NODE_NIL
        invariant valid == 1 ==> forall j | 0 <= j < i && j != validPtr :: nodes[p][j].ptr == PHYS_MAP_NODE_NIL
      {
        if nodes[p][i].ptr != PHYS_MAP_NODE_NIL {
          validPtr, valid := i, valid + 1;
          if nodes[p][i].skip != 0 {
            ghost var before := nodes;
            KidTree(nodes, lp, g, h, i, secs, false);
            var kid := Compact(nodes[p][i], g, secs);
            ghost var mid := nodes;
            nodes := nodes[p := nodes[p][i := kid]];
            CompactTurn(old(nodes), before, mid, nodes, lp, h, g, secs, i, kid);
          }
        }
        i := i + 1;
      }
      // We can only compress if there is only one child, and if the skip fits.
      if valid == 1 && lp.skip + nodes[p][validPtr].skip < 8 {
        var kid := nodes[p][validPtr];
        var lp' := Entry(if kid.skip == 0 then 0 else lp.skip + kid.skip, kid.ptr);
        SkipNode(nodes, lp, h, g, secs, validPtr, lp');
        lp := lp';
      }
    }

    /** The loop of phys_page_find. */
    method Find(root: Entry, index: nat, levels: nat, ghost secs: set<nat>) returns (section: nat)
      requires Tree(nodes, root, levels, secs, false)
      ensures section == Walk(nodes, root, levels, index)
    {
      var lp, i: int := root, levels;
      while lp.skip != 0
        invariant 0 <= i <= levels
        invariant Tree(nodes, lp, i, secs, false)
        invariant Walk(nodes, lp, i, index) == Walk(nodes, root, levels, index)
        decreases i
      {
        i := i - lp.skip;
        if i < 0 {
          break;
        }
        if lp.ptr == PHYS_MAP_NODE_NIL {
          return PHYS_SECTION_UNASSIGNED;
        }
        var p := nodes[lp.ptr];
        assert Kids(nodes, p, lp.ptr, i, secs, false);
        lp := p[Slot(index, i)];
      }
      section := lp.ptr;
    }
  }
}
