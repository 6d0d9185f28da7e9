/**
  Two paths to one node (qemu/block.c): a run of accepted operations after which
  the check fails that taking a user away relies on.
 */
module BlockDiamonds {
  import opened Basics
  import opened BlockPerm
  import opened BlockPaths
  import opened BlockGraphs

  lemma InAll(x: Perm)
    ensures x in ALL
  {
    match x
    case ConsistentRead =>
    case Write =>
    case WriteUnchanged =>
    case Resize =>
    case GraphMod =>
  }

  const UNUSED := Use({}, ALL)

  /** Nothing is used and everything shared, and the nodes with children are filters. */
  ghost predicate Idle(g: Graph, h: seq<nat>) {
    && Ordered(g, h) && (forall i | i in g.edges :: UseOf(g.edges[i]) == UNUSED)
    && (forall n: nat | n < |g.nodes| :: !g.nodes[n].driver.Format?)
  }

  lemma IdleCum(g: Graph, h: seq<nat>, n: nat, ignore: set<nat>)
    requires Idle(g, h)
    ensures Cum(g, n, ignore) == UNUSED
  {
    forall x: Perm
      ensures x in ALL && !Used(g, n, ignore, x) && SharedByAll(g, n, ignore, x)
    {
      InAll(x);
    }
  }

  /** A filter passes an idle use on, if the part that it keeps of the edge is idle. */
  lemma IdlePasses(g: Graph, m: nat, child: nat, role: Role, was: Option<Use>)
    requires m < |g.nodes| && child < |g.nodes| && g.nodes[m].driver.Filter?
    requires was.Some? ==> was.value.perm * UNCHANGED == {} && GraphMod in was.value.shared
    ensures ChildPerm(g, m, child, role, was, UNUSED) == UNUSED
  {
  }

  lemma IdleGood(g: Graph, h: seq<nat>)
    requires Idle(g, h)
    ensures Good(g, h) && Safe(g)
  {
    forall m: nat | m < |g.nodes|
      ensures ConsistentAt(g, h, m)
    {
      IdleCum(g, h, m, {});
      forall i | i in g.edges && g.edges[i].parent == Some(m)
        ensures EdgePerm(g, h, i, UNUSED) == UNUSED
      {
        IdlePasses(g, m, g.edges[i].child, g.edges[i].role, Some(UseOf(g.edges[i])));
      }
    }
    forall i | i in g.edges
      ensures FormedEdge(g, h, i)
    {
      assert UseOf(g.edges[i]) == UNUSED;
    }
  }

  /** Another idle user is always accepted. */
  lemma {:induction false} IdleAccepts(g: Graph, h: seq<nat>, n: nat, ignore: set<nat>)
    requires Idle(g, h) && Tolerant(g) && n < |g.nodes|
    ensures CheckUpdate(g, h, n, UNUSED, ignore)
    decreases h[n]
  {
    IdleCum(g, h, n, ignore);
    assert Use(UNUSED.perm + CumPerm(g, n, ignore), UNUSED.shared * CumShared(g, n, ignore)) == UNUSED;
    forall k | k in g.edges && g.edges[k].parent == Some(n)
      ensures EdgePerm(g, h, k, UNUSED) == UNUSED && CheckUpdate(g, h, g.edges[k].child, UNUSED, ignore + {k})
    {
      IdlePasses(g, n, g.edges[k].child, g.edges[k].role, Some(UseOf(g.edges[k])));
      IdleAccepts(g, h, g.edges[k].child, ignore + {k});
    }
  }

  /** And leaves the graph idle. */
  lemma {:induction false} IdleEdge(g: Graph, g': Graph, h: seq<nat>, i: nat, e: Edge, k: nat)
    requires Idle(g, h) && Good(g', h) && i !in g.edges && Grown(g, g', i, e) && UseOf(e) == UNUSED && k in g'.edges
    ensures UseOf(g'.edges[k]) == UNUSED
    decreases Depth(g', h, k)
  {
    if k != i && g'.edges[k].parent.Some? {
      var m := g'.edges[k].parent.value;
      forall j | j in g'.edges && Into(g', j, m, {})
        ensures UseOf(g'.edges[j]) == UNUSED
      {
        DepthUp(g', h, k, j);
        IdleEdge(g, g', h, i, e, j);
      }
      IdleUsers(g', m);
      assert ConsistentAt(g', h, m);
      KeptPart(g.edges[k], g'.edges[k]);
      IdlePasses(g', m, g'.edges[k].child, g'.edges[k].role, Some(UseOf(g'.edges[k])));
    }
  }

  lemma KeptPart(e: Edge, f: Edge)
    requires SameEdge(e, f) && e.parent.Some? && UseOf(e) == UNUSED
    ensures f.perm * UNCHANGED == {} && GraphMod in f.shared
  {
    assert GraphMod in e.shared * UNCHANGED;
  }

  lemma IdleUsers(g: Graph, m: nat)
    requires forall j | j in g.edges && Into(g, j, m, {}) :: UseOf(g.edges[j]) == UNUSED
    ensures Cum(g, m, {}) == UNUSED
  {
    forall x: Perm
      ensures x in ALL && !Used(g, m, {}, x) && SharedByAll(g, m, {}, x)
    {
      InAll(x);
    }
  }

  lemma IdleGrows(g: Graph, g': Graph, h: seq<nat>, i: nat, e: Edge)
    requires Idle(g, h) && Good(g', h) && i !in g.edges && Grown(g, g', i, e) && UseOf(e) == UNUSED
    ensures Idle(g', h)
  {
    forall k | k in g'.edges
      ensures UseOf(g'.edges[k]) == UNUSED
    {
      IdleEdge(g, g', h, i, e, k);
    }
  }

  /** bdrv_root_attach_child of an idle user. */
  method AttachIdleRoot(b: BlockGraph, ghost h: seq<nat>, i: nat, n: nat)
    requires Idle(b.g, h) && i !in b.g.edges && n < |b.g.nodes|
    modifies b
    ensures Idle(b.g, h) && b.g == WithEdge(old(b.g), i, Edge(None, n, File, {}, ALL))
  {
    ghost var g := b.g;
    IdleGood(g, h);
    IdleAccepts(g, h, n, {});
    var ok := b.RootAttachChild(h, i, n, File, UNUSED);
    IdleSame(g, b.g, h, i, Edge(None, n, File, {}, ALL));
  }

  /** bdrv_attach_child under an idle filter. */
  method AttachIdleChild(b: BlockGraph, ghost h: seq<nat>, i: nat, p: nat, n: nat)
    requires Idle(b.g, h) && i !in b.g.edges && p < |b.g.nodes| && n < |b.g.nodes| && h[n] < h[p]
    requires b.g.nodes[p].driver.Filter?
    modifies b
    ensures Idle(b.g, h) && b.g == WithEdge(old(b.g), i, Edge(Some(p), n, File, {}, ALL))
  {
    ghost var g := b.g;
    IdleGood(g, h);
    IdleAccepts(g, h, n, {});
    IdleCum(g, h, p, {});
    IdlePasses(g, p, n, File, None);
    var ok := b.AttachChild(h, i, p, n, File);
    IdleSame(g, b.g, h, i, Edge(Some(p), n, File, {}, ALL));
  }

  /** So the graph has the new edge and nothing else has changed. */
  lemma IdleSame(g: Graph, g': Graph, h: seq<nat>, i: nat, e: Edge)
    requires Idle(g, h) && Good(g', h) && i !in g.edges && Grown(g, g', i, e) && UseOf(e) == UNUSED
    ensures Idle(g', h) && g' == WithEdge(g, i, e)
  {
    IdleGrows(g, g', h, i, e);
    forall j | j in g.edges
      ensures g'.edges[j] == g.edges[j]
    {
      assert SameEdge(g.edges[j], g'.edges[j]) && UseOf(g'.edges[j]) == UNUSED == UseOf(g.edges[j]);
    }
    assert g'.edges == WithEdge(g, i, e).edges;
  }

  /** A filter with two outside users and two edges to one node, as quorum can have. */
  function Diamond(): Graph {
    Graph([Node(Filter, true, false, false, false), Node(Leaf, true, false, false, false)],
          map[0 := Edge(None, 0, File, {}, ALL), 1 := Edge(Some(0), 1, File, {}, ALL),
              2 := Edge(Some(0), 1, File, {}, ALL), 3 := Edge(None, 0, File, {}, ALL)])
  }

  const EXCLUSIVE := Use({Write}, ALL - {Write})

  /** The check of one of the two edges sees the other as it was. */
  lemma DiamondEdge(k: nat)
    requires Good(Diamond(), [1, 0]) && (k == 1 || k == 2)
    ensures CheckUpdate(Diamond(), [1, 0], 1, EdgePerm(Diamond(), [1, 0], k, EXCLUSIVE), {0} + {k})
  {
    var g := Diamond();
    assert forall i | i in g.edges :: g.edges[i].perm == {} && g.edges[i].shared == ALL;
  }

  lemma DiamondChecks()
    requires Good(Diamond(), [1, 0]) && Idle(Diamond(), [1, 0])
    ensures CheckUpdate(Diamond(), [1, 0], 0, EXCLUSIVE, {0})
  {
    var g := Diamond();
    DiamondEdge(1);
    DiamondEdge(2);
    IdleCum(g, [1, 0], 0, {0});
    assert Use(EXCLUSIVE.perm + CumPerm(g, 0, {0}), EXCLUSIVE.shared * CumShared(g, 0, {0})) == EXCLUSIVE;
  }

  /** Both edges of the diamond carry the exclusive use. */
  ghost predicate Clashing(g: Graph) {
    && SameShape(Diamond(), g)
    && g.edges[0] == Diamond().edges[0].(perm := EXCLUSIVE.perm, shared := EXCLUSIVE.shared)
    && Write in g.edges[1].perm && Write !in g.edges[2].shared
  }

  /** Whatever carries on the exclusive use to both edges makes them clash. */
  lemma DiamondConflict(g: Graph)
    requires Ordered(Diamond(), [1, 0]) && ChildSet(Diamond(), g, [1, 0], 0, EXCLUSIVE)
    requires Ordered(g, [1, 0]) && Consistent(g, [1, 0])
    ensures Clashing(g)
  {
    assert ConsistentAt(g, [1, 0], 0);
    assert Into(g, 0, 0, {});
    assert Used(g, 0, {}, Write) && !SharedByAll(g, 0, {}, Write);
  }

  /** The diamond, attached edge by edge. */
  method BuildDiamond() returns (b: BlockGraph)
    ensures fresh(b) && b.g == Diamond() && Idle(b.g, [1, 0])
  {
    b := new BlockGraph(Graph(Diamond().nodes, map[]));
    AttachIdleRoot(b, [1, 0], 0, 0);
    AttachIdleChild(b, [1, 0], 1, 0, 1);
    AttachIdleChild(b, [1, 0], 2, 0, 1);
    AttachIdleRoot(b, [1, 0], 3, 0);
    assert b.g.edges == Diamond().edges;
  }

  lemma ClashUnsafe(g: Graph)
    requires Clashing(g)
    ensures !Safe(g)
  {
    assert g.edges[1].child == g.edges[2].child;
  }

  /** Where there are two paths the check can accept an update that makes the graph unsafe. */
  method DiamondUnsafe() returns (b: BlockGraph)
    ensures fresh(b) && Good(b.g, [1, 0]) && Clashing(b.g) && !Safe(b.g)
  {
    b := BuildDiamond();
    IdleGood(Diamond(), [1, 0]);
    DiamondChecks();
    var ok := b.TrySetPerm([1, 0], 0, EXCLUSIVE);
    DiamondConflict(b.g);
    ClashUnsafe(b.g);
  }

  lemma StillWrites(g: Graph, g1: Graph, h: seq<nat>, u: Use)
    requires Clashing(g) && g1 == Without(g, 3) && h == [1, 0] && Ordered(g1, h) && Write in u.perm
    ensures ClashNow(g1, 1, 2) && Clash(EdgePerm(g1, h, 1, u), UseOf(g1.edges[2]))
  {
  }

  /** When edge 3 goes, edge 1 would still write, which edge 2 as it is does not share. */
  lemma ClashStays(g: Graph)
    requires Good(g, [1, 0]) && Clashing(g)
    ensures !RemovalCheck(g, [1, 0], 3)
  {
    var g1, h := Without(g, 3), [1, 0];
    var u := Cum(g1, 0, {});
    RemovalIff(g, h, 3);
    assert Into(g1, 0, 0, {}) && Used(g1, 0, {}, Write);
    OneEdge(g1, h, 0, u, 1);
    StillWrites(g, g1, h, u);
    assert !ClashesEnd(g1, h, 0, u, [1]);
  }

  /** And then taking a user away, which has nothing to do with the clash, fails: the code aborts. */
  method RemovalAborts() returns (b: BlockGraph, ok: bool)
    ensures !ok
  {
    b := DiamondUnsafe();
    ClashStays(b.g);
    ok := b.DetachChild([1, 0], 3);
  }
}
