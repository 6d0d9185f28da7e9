/**
  The multi-level page map of qemu/exec.c: nodes of 512 entries in a growable
  array, entries that are leaves (skip 0, naming a section) or that lead `skip`
  levels down.  An entry "at height h" serves the h low-order nine-bit groups of
  a page index; at height 0 only a leaf is possible.
 */
module PhysTree {

  const PHYS_MAP_NODE_NIL: nat := 0x3ff_ffff
  const P_L2_BITS: nat := 9
  const P_L2_SIZE: nat := 512
  const PHYS_SECTION_UNASSIGNED: nat := 0

  datatype Entry = Entry(skip: nat, ptr: nat)

  type Node = seq<Entry>

  /** The number of pages below an entry at height h: 1 << (h * P_L2_BITS). */
  function Span(h: nat): (s: nat)
    ensures s >= 1
  {
    if h == 0 then 1 else P_L2_SIZE * Span(h - 1)
  }

  /** (index >> (level * P_L2_BITS)) & (P_L2_SIZE - 1) */
  function Slot(page: nat, level: nat): (k: nat)
    ensures k < P_L2_SIZE
  {
    (page / Span(level)) % P_L2_SIZE
  }

  /** The entry leads to a node of the array. */
  predicate Inner(nodes: seq<Node>, e: Entry, h: nat) {
    && 0 < e.skip <= h
    && e.ptr != PHYS_MAP_NODE_NIL
    && e.ptr < |nodes|
    && |nodes[e.ptr]| == P_L2_SIZE
  }

  /** The section number that the loop of phys_page_find ends on. */
  function Walk(nodes: seq<Node>, e: Entry, h: nat, page: nat): nat
    decreases h
  {
    if e.skip == 0 || h < e.skip then
      e.ptr
    else if !Inner(nodes, e, h) then
      PHYS_SECTION_UNASSIGNED
    else
      Walk(nodes, nodes[e.ptr][Slot(page, h - e.skip)], h - e.skip, page)
  }

  ghost predicate SameWalk(nodes: seq<Node>, e: Entry, nodes': seq<Node>, e': Entry, h: nat) {
    forall page: nat :: Walk(nodes', e', h, page) == Walk(nodes, e, h, page)
  }

  /** The node numbers reachable from an entry. */
  ghost function Ids(nodes: seq<Node>, e: Entry, h: nat): set<nat>
    decreases h, 0
  {
    if !Inner(nodes, e, h) then {} else {e.ptr} + KidIds(nodes, nodes[e.ptr], h - e.skip)
  }

  ghost function KidIds(nodes: seq<Node>, p: Node, g: nat): set<nat>
    decreases g, 1
  {
    set k, x | 0 <= k < |p| && x in Ids(nodes, p[k], g) :: x
  }

  /**
    An entry at height h whose nodes form an unshared tree with all leaves in
    `secs`.  A plain tree is one that has not been compacted: every step skips
    one level and above height 0 no leaf is the unassigned section.
   */
  ghost predicate Tree(nodes: seq<Node>, e: Entry, h: nat, secs: set<nat>, plain: bool)
    decreases h, 0
  {
    && (plain ==> e.skip <= 1 && (e.skip == 0 && h > 0 ==> e.ptr != PHYS_SECTION_UNASSIGNED))
    && if e.skip == 0 then
         e.ptr in secs && e.ptr < PHYS_MAP_NODE_NIL
       else
         && e.skip <= h
         && (e.ptr == PHYS_MAP_NODE_NIL
             || (Inner(nodes, e, h) && Kids(nodes, nodes[e.ptr], e.ptr, h - e.skip, secs, plain)))
  }

  /** The entries of node n are trees at height g, share nothing, and do not lead back to n. */
  ghost predicate Kids(nodes: seq<Node>, p: Node, n: nat, g: nat, secs: set<nat>, plain: bool)
    decreases g, 1
  {
    && (forall k | 0 <= k < |p| :: Tree(nodes, p[k], g, secs, plain))
    && n !in KidIds(nodes, p, g)
    && KidsApart(nodes, p, g)
  }

  ghost predicate KidsApart(nodes: seq<Node>, p: Node, g: nat) {
    forall i, j | 0 <= i < |p| && 0 <= j < |p| && i != j :: Ids(nodes, p[i], g) !! Ids(nodes, p[j], g)
  }

  /** The two arrays hold the same nodes at the numbers of s. */
  ghost predicate Agree(nodes: seq<Node>, nodes': seq<Node>, s: set<nat>) {
    forall x | x in s :: x < |nodes| && x < |nodes'| && nodes'[x] == nodes[x]
  }

  /** Only nodes of s were written, and nodes may have been appended. */
  ghost predicate Wrote(nodes: seq<Node>, nodes': seq<Node>, s: set<nat>) {
    && |nodes| <= |nodes'|
    && forall x | 0 <= x < |nodes| && x !in s :: nodes'[x] == nodes[x]
  }

  ghost function Fresh(nodes: seq<Node>, nodes': seq<Node>): set<nat> {
    set x | 0 <= x < |nodes'| && Beyond(nodes, x)
  }

  predicate Beyond(nodes: seq<Node>, x: int) {
    |nodes| <= x
  }

  /** Every array that agrees on the nodes of a tree holds the same tree. */
  lemma {:induction false} Frame(nodes: seq<Node>, nodes': seq<Node>, e: Entry, h: nat, secs: set<nat>, secs': set<nat>,
                                 plain: bool)
    requires Tree(nodes, e, h, secs, plain)
    requires secs <= secs'
    requires Agree(nodes, nodes', Ids(nodes, e, h))
    ensures Tree(nodes', e, h, secs', plain)
    ensures Ids(nodes', e, h) == Ids(nodes, e, h)
    ensures SameWalk(nodes, e, nodes', e, h)
    decreases h
  {
    if Inner(nodes, e, h) {
      assert e.ptr in Ids(nodes, e, h);
      var p, g := nodes[e.ptr], h - e.skip;
      forall k | 0 <= k < P_L2_SIZE
        ensures Tree(nodes', p[k], g, secs', plain)
        ensures Ids(nodes', p[k], g) == Ids(nodes, p[k], g)
        ensures SameWalk(nodes, p[k], nodes', p[k], g)
      {
        assert Ids(nodes, p[k], g) <= KidIds(nodes, p, g);
        Frame(nodes, nodes', p[k], g, secs, secs', plain);
      }
      assert KidIds(nodes', p, g) == KidIds(nodes, p, g);
    }
  }

  /** A plain tree is a tree. */
  lemma {:induction false} Weaken(nodes: seq<Node>, e: Entry, h: nat, secs: set<nat>)
    requires Tree(nodes, e, h, secs, true)
    ensures Tree(nodes, e, h, secs, false)
    decreases h
  {
    if Inner(nodes, e, h) {
      var p, g := nodes[e.ptr], h - e.skip;
      forall k | 0 <= k < P_L2_SIZE
        ensures Tree(nodes, p[k], g, secs, false)
      {
        Weaken(nodes, p[k], g, secs);
      }
    }
  }

  /** A walk in a tree ends on one of its leaves or on the unassigned section. */
  lemma {:induction false} WalkLeaf(nodes: seq<Node>, e: Entry, h: nat, secs: set<nat>, plain: bool, page: nat)
    requires Tree(nodes, e, h, secs, plain)
    ensures Walk(nodes, e, h, page) in secs + {PHYS_SECTION_UNASSIGNED}
    decreases h
  {
    if Inner(nodes, e, h) {
      WalkLeaf(nodes, nodes[e.ptr][Slot(page, h - e.skip)], h - e.skip, secs, plain, page);
    }
  }

  lemma {:induction false} IdsBound(nodes: seq<Node>, e: Entry, h: nat)
    ensures Ids(nodes, e, h) <= Fresh([], nodes)
    decreases h
  {
    if Inner(nodes, e, h) {
      var p, g := nodes[e.ptr], h - e.skip;
      forall k | 0 <= k < P_L2_SIZE
        ensures Ids(nodes, p[k], g) <= Fresh([], nodes)
      {
        IdsBound(nodes, p[k], g);
      }
    }
  }

  /**
    Entry k of the node under e has become the tree e' in `mid`, where only
    nodes of the old entry k were written and new ones used.  The result of
    storing e' in slot k.
   */
  ghost predicate KidReplaced(nodes: seq<Node>, mid: seq<Node>, nodes': seq<Node>, e: Entry, h: nat, g: nat, k: nat,
                              e': Entry, secs: set<nat>, plain: bool)
  {
    && h == g + 1 && e.skip == 1 && k < P_L2_SIZE
    && Tree(nodes, e, h, secs, plain) && Inner(nodes, e, h)
    && Tree(mid, e', g, secs, plain)
    && Wrote(nodes, mid, Ids(nodes, nodes[e.ptr][k], g))
    && Ids(mid, e', g) <= Ids(nodes, nodes[e.ptr][k], g) + Fresh(nodes, mid)
    && mid[e.ptr] == nodes[e.ptr]
    && nodes' == mid[e.ptr := mid[e.ptr][k := e']]
  }

  /** The other entries of the node keep their trees. */
  lemma KeptKid(nodes: seq<Node>, mid: seq<Node>, nodes': seq<Node>, e: Entry, h: nat, g: nat, k: nat, e': Entry,
                secs: set<nat>, plain: bool, j: nat)
    requires KidReplaced(nodes, mid, nodes', e, h, g, k, e', secs, plain)
    requires j < P_L2_SIZE && j != k
    ensures Tree(nodes', nodes[e.ptr][j], g, secs, plain)
    ensures Ids(nodes', nodes[e.ptr][j], g) == Ids(nodes, nodes[e.ptr][j], g)
    ensures SameWalk(nodes, nodes[e.ptr][j], nodes', nodes[e.ptr][j], g)
  {
    var p := nodes[e.ptr];
    assert Kids(nodes, p, e.ptr, g, secs, plain);
    IdsBound(nodes, p[j], g);
    assert Ids(nodes, p[j], g) <= KidIds(nodes, p, g);
    assert Ids(nodes, p[j], g) !! Ids(nodes, p[k], g);
    Frame(nodes, nodes', p[j], g, secs, secs, plain);
  }

  /** The new entry keeps its tree. */
  lemma NewKid(nodes: seq<Node>, mid: seq<Node>, nodes': seq<Node>, e: Entry, h: nat, g: nat, k: nat, e': Entry,
               secs: set<nat>, plain: bool)
    requires KidReplaced(nodes, mid, nodes', e, h, g, k, e', secs, plain)
    ensures e.ptr !in Ids(nodes', e', g)
    ensures Tree(nodes', e', g, secs, plain)
    ensures Ids(nodes', e', g) == Ids(mid, e', g)
    ensures SameWalk(mid, e', nodes', e', g)
  {
    var p := nodes[e.ptr];
    assert Kids(nodes, p, e.ptr, g, secs, plain);
    assert Ids(nodes, p[k], g) <= KidIds(nodes, p, g);
    IdsBound(mid, e', g);
    Frame(mid, nodes', e', g, secs, secs, plain);
  }

  /**
    Replacing one entry of a node gives a tree whose walks change in that slot
    only and whose nodes are old nodes or new ones.
   */
  lemma ReplaceKid(nodes: seq<Node>, mid: seq<Node>, nodes': seq<Node>, e: Entry, h: nat, g: nat, k: nat, e': Entry,
                   secs: set<nat>, plain: bool)
    requires KidReplaced(nodes, mid, nodes', e, h, g, k, e', secs, plain)
    ensures Tree(nodes', e, h, secs, plain) && Inner(nodes', e, h)
    ensures Ids(nodes', e, h) <= Ids(nodes, e, h) + Fresh(nodes, nodes')
    ensures Wrote(nodes, nodes', Ids(nodes, e, h))
    ensures nodes'[e.ptr] == nodes[e.ptr][k := e']
    ensures forall page: nat ::
              Walk(nodes', e, h, page) == if Slot(page, g) == k then Walk(mid, e', g, page) else Walk(nodes, e, h, page)
  {
    var p, q := nodes[e.ptr], nodes'[e.ptr];
    assert Kids(nodes, p, e.ptr, g, secs, plain);
    NewKid(nodes, mid, nodes', e, h, g, k, e', secs, plain);
    forall j | 0 <= j < P_L2_SIZE && j != k
      ensures Tree(nodes', p[j], g, secs, plain)
      ensures Ids(nodes', p[j], g) == Ids(nodes, p[j], g)
      ensures SameWalk(nodes, p[j], nodes', p[j], g)
    {
      KeptKid(nodes, mid, nodes', e, h, g, k, e', secs, plain, j);
    }
    KidsStayApart(nodes, nodes', p, q, g, k, mid);
    assert Ids(nodes, p[k], g) <= KidIds(nodes, p, g);
    assert Kids(nodes', q, e.ptr, g, secs, plain);
  }

  lemma KidsStayApart(nodes: seq<Node>, nodes': seq<Node>, p: Node, q: Node, g: nat, k: nat, mid: seq<Node>)
    requires |p| == |q| == P_L2_SIZE && k < P_L2_SIZE && q == p[k := q[k]]
    requires KidsApart(nodes, p, g) && |nodes| <= |mid|
    requires forall j | 0 <= j < P_L2_SIZE && j != k :: Ids(nodes', p[j], g) == Ids(nodes, p[j], g)
    requires Ids(nodes', q[k], g) <= Ids(nodes, p[k], g) + Fresh(nodes, mid)
    ensures KidsApart(nodes', q, g)
    ensures KidIds(nodes', q, g) <= KidIds(nodes, p, g) + Fresh(nodes, mid)
  {
    forall i, j | 0 <= i < P_L2_SIZE && 0 <= j < P_L2_SIZE && i != j
      ensures Ids(nodes', q[i], g) !! Ids(nodes', q[j], g)
    {
      IdsBound(nodes, p[i], g);
      IdsBound(nodes, p[j], g);
      assert Ids(nodes, p[i], g) !! Ids(nodes, p[j], g);
    }
    forall j | 0 <= j < P_L2_SIZE
      ensures Ids(nodes', q[j], g) <= KidIds(nodes, p, g) + Fresh(nodes, mid)
    {
      assert Ids(nodes, p[j], g) <= KidIds(nodes, p, g);
    }
  }
}
