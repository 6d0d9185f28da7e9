/**
  Permissions on the graph of block nodes (qemu/block.c): which permissions an
  edge passes on, the recursive check and the safety it stands for.
 */
module BlockPerm {
  import opened Basics

  /** BLK_PERM_* */
  datatype Perm = ConsistentRead | Write | WriteUnchanged | Resize | GraphMod

  type Perms = set<Perm>

  const ALL: Perms := {ConsistentRead, Write, WriteUnchanged, Resize, GraphMod}

  /** DEFAULT_PERM_PASSTHROUGH and DEFAULT_PERM_UNCHANGED */
  const PASSTHROUGH: Perms := {ConsistentRead, Write, WriteUnchanged, Resize}
  const UNCHANGED: Perms := {GraphMod}

  datatype Role = File | Backing

  /** Which bdrv_child_perm the driver has; Leaf stands for none. */
  datatype Driver = Leaf | Filter | Format

  /** BlockDriverState: the driver, the open flags BDRV_O_RDWR, _INACTIVE and _NO_IO, and force_share. */
  datatype Node = Node(driver: Driver, rdwr: bool, inactive: bool, noIo: bool, forceShare: bool) {
    /** bdrv_is_writable */
    predicate Writable() {
      rdwr && !inactive
    }
  }

  /** BdrvChild: an edge to node child from node parent, or from a root user. */
  datatype Edge = Edge(parent: Option<nat>, child: nat, role: Role, perm: Perms, shared: Perms)

  datatype Graph = Graph(nodes: seq<Node>, edges: map<nat, Edge>)

  /** Permissions used and shared. */
  datatype Use = Use(perm: Perms, shared: Perms)

  /** The graph is acyclic: h gives every node a height, and edges go down. */
  ghost predicate Ordered(g: Graph, h: seq<nat>) {
    && |h| == |g.nodes|
    && (forall i | i in g.edges :: g.edges[i].child < |g.nodes|)
    && forall i | i in g.edges && g.edges[i].parent.Some? ::
         && g.edges[i].parent.value < |g.nodes|
         && h[g.edges[i].child] < h[g.edges[i].parent.value]
         && !g.nodes[g.edges[i].parent.value].driver.Leaf?
  }

  // What a node passes on to its children.

  /** bdrv_filter_default_perms; was is the edge as it is, if there is one. */
  function FilterPerms(was: Option<Use>, u: Use): Use {
    if was.None? then Use(u.perm * PASSTHROUGH, (u.shared * PASSTHROUGH) + UNCHANGED)
    else Use((u.perm * PASSTHROUGH) + (was.value.perm * UNCHANGED),
             (u.shared * PASSTHROUGH) + (was.value.shared * UNCHANGED))
  }

  /** bdrv_format_default_perms */
  function FormatPerms(n: Node, role: Role, was: Option<Use>, u: Use): Use {
    var r :=
      if role.File? then
        var f := FilterPerms(was, u);
        Use(f.perm + (if n.Writable() then {Write, Resize} else {}) + (if n.noIo then {} else {ConsistentRead}),
            f.shared - {Write, Resize})
      else
        Use(u.perm * {ConsistentRead},
            (if Write in u.shared then {Write, Resize} else {}) + {ConsistentRead, GraphMod, WriteUnchanged});
    if n.inactive then Use(r.perm, r.shared + {Write, Resize}) else r
  }

  /** bdrv_child_perm for a node that has children. */
  function ChildPerm(g: Graph, m: nat, child: nat, role: Role, was: Option<Use>, u: Use): (r: Use)
    requires m < |g.nodes| && child < |g.nodes|
    ensures WriteUnchanged in u.shared ==> WriteUnchanged in r.shared
  {
    var r := if g.nodes[m].driver.Filter? then FilterPerms(was, u) else FormatPerms(g.nodes[m], role, was, u);
    if g.nodes[child].forceShare then Use(r.perm, ALL) else r
  }

  function EdgePerm(g: Graph, ghost h: seq<nat>, i: nat, u: Use): (r: Use)
    requires Ordered(g, h) && i in g.edges && g.edges[i].parent.Some?
    ensures WriteUnchanged in u.shared ==> WriteUnchanged in r.shared
  {
    var e := g.edges[i];
    ChildPerm(g, e.parent.value, e.child, e.role, Some(Use(e.perm, e.shared)), u)
  }

  /** u asks for no more than v and shares no less. */
  predicate Looser(u: Use, v: Use) {
    u.perm <= v.perm && v.shared <= u.shared
  }

  /** The default functions are monotone. */
  lemma ChildPermMonotone(g: Graph, m: nat, child: nat, role: Role, was: Option<Use>, u: Use, v: Use)
    requires m < |g.nodes| && child < |g.nodes| && Looser(u, v)
    ensures Looser(ChildPerm(g, m, child, role, was, u), ChildPerm(g, m, child, role, was, v))
  {
  }

  /** Applying the function to its own result gives it again. */
  lemma ChildPermStable(g: Graph, m: nat, child: nat, role: Role, was: Option<Use>, u: Use)
    requires m < |g.nodes| && child < |g.nodes|
    ensures ChildPerm(g, m, child, role, Some(ChildPerm(g, m, child, role, was, u)), u)
              == ChildPerm(g, m, child, role, was, u)
  {
  }

  // Cumulative permissions, safety and the check.

  predicate Into(g: Graph, i: nat, n: nat, ignore: set<nat>) {
    i in g.edges && g.edges[i].child == n && i !in ignore
  }

  predicate Used(g: Graph, n: nat, ignore: set<nat>, x: Perm) {
    exists i | i in g.edges :: Into(g, i, n, ignore) && x in g.edges[i].perm
  }

  predicate SharedByAll(g: Graph, n: nat, ignore: set<nat>, x: Perm) {
    forall i | i in g.edges :: Into(g, i, n, ignore) ==> x in g.edges[i].shared
  }

  function CumPerm(g: Graph, n: nat, ignore: set<nat>): Perms {
    set x: Perm | Used(g, n, ignore, x)
  }

  function CumShared(g: Graph, n: nat, ignore: set<nat>): Perms {
    set x: Perm | SharedByAll(g, n, ignore, x)
  }

  /** bdrv_get_cumulative_perm, without the edges to be ignored. */
  function Cum(g: Graph, n: nat, ignore: set<nat>): Use {
    Use(CumPerm(g, n, ignore), CumShared(g, n, ignore))
  }

  function UseOf(e: Edge): Use {
    Use(e.perm, e.shared)
  }

  predicate Writes(perm: Perms) {
    Write in perm || WriteUnchanged in perm
  }

  /** Any two users of a node tolerate each other. */
  ghost predicate Compatible(g: Graph) {
    forall i, j | i in g.edges && j in g.edges && i != j && g.edges[i].child == g.edges[j].child ::
      g.edges[i].perm <= g.edges[j].shared
  }

  /** Only writable nodes are written to. */
  ghost predicate WritersAllowed(g: Graph) {
    forall i | i in g.edges && g.edges[i].child < |g.nodes| ::
      Writes(g.edges[i].perm) ==> g.nodes[g.edges[i].child].Writable()
  }

  ghost predicate Safe(g: Graph) {
    Compatible(g) && WritersAllowed(g)
  }

  /** Every user tolerates writes that change nothing. */
  ghost predicate Tolerant(g: Graph) {
    forall i | i in g.edges :: WriteUnchanged in g.edges[i].shared
  }

  /** The edges from node m carry what m passes on from all its users. */
  ghost predicate ConsistentAt(g: Graph, h: seq<nat>, m: nat)
    requires Ordered(g, h)
  {
    forall i | i in g.edges && g.edges[i].parent == Some(m) :: UseOf(g.edges[i]) == EdgePerm(g, h, i, Cum(g, m, {}))
  }

  ghost predicate Consistent(g: Graph, h: seq<nat>)
    requires Ordered(g, h)
  {
    forall m: nat | m < |g.nodes| :: ConsistentAt(g, h, m)
  }

  /** bdrv_check_perm */
  predicate CheckPerm(g: Graph, ghost h: seq<nat>, m: nat, u: Use, ignore: set<nat>)
    requires Ordered(g, h) && Tolerant(g) && m < |g.nodes| && WriteUnchanged in u.shared
    decreases h[m], 0
  {
    && (Writes(u.perm) ==> g.nodes[m].Writable())
    && forall i | i in g.edges && g.edges[i].parent == Some(m) ::
         CheckUpdate(g, h, g.edges[i].child, EdgePerm(g, h, i, u), ignore + {i})
  }

  /** bdrv_check_update_perm; that WRITE_UNCHANGED is shared is the assertion there. */
  predicate CheckUpdate(g: Graph, ghost h: seq<nat>, n: nat, u: Use, ignore: set<nat>)
    requires Ordered(g, h) && Tolerant(g) && n < |g.nodes| && WriteUnchanged in u.shared
    decreases h[n], 1
  {
    && (forall i | i in g.edges :: Into(g, i, n, ignore) ==> u.perm <= g.edges[i].shared && g.edges[i].perm <= u.shared)
    && CheckPerm(g, h, n, Use(u.perm + CumPerm(g, n, ignore), u.shared * CumShared(g, n, ignore)), ignore)
  }

  // What an update can reach.

  /** Ignored edges lie on a path down to n, whose last edge is i. */
  ghost predicate PathTo(g: Graph, h: seq<nat>, n: nat, i: nat, ignore: set<nat>)
    requires Ordered(g, h) && n < |g.nodes|
  {
    (i in g.edges ==> i in ignore) && forall j | j in ignore && j in g.edges && j != i :: h[g.edges[j].child] > h[n]
  }

  /** There is a path down from m to x. */
  ghost predicate Reaches(g: Graph, h: seq<nat>, m: nat, x: nat)
    requires Ordered(g, h) && m < |g.nodes|
    decreases h[m]
  {
    m == x || exists i :: i in g.edges && g.edges[i].parent == Some(m) && Reaches(g, h, g.edges[i].child, x)
  }

  lemma {:induction false} ReachesDown(g: Graph, h: seq<nat>, m: nat, x: nat)
    requires Ordered(g, h) && m < |g.nodes| && Reaches(g, h, m, x)
    ensures x < |g.nodes| && (x == m || h[x] < h[m])
    decreases h[m]
  {
    if m != x {
      var i :| i in g.edges && g.edges[i].parent == Some(m) && Reaches(g, h, g.edges[i].child, x);
      ReachesDown(g, h, g.edges[i].child, x);
    }
  }

  lemma {:induction false} ReachesOn(g: Graph, h: seq<nat>, m: nat, j: nat)
    requires Ordered(g, h) && m < |g.nodes| && j in g.edges && g.edges[j].parent.Some?
    requires Reaches(g, h, m, g.edges[j].parent.value)
    ensures Reaches(g, h, m, g.edges[j].child)
    decreases h[m]
  {
    var p := g.edges[j].parent.value;
    if m == p {
      assert Reaches(g, h, g.edges[j].child, g.edges[j].child);
    } else {
      var i :| i in g.edges && g.edges[i].parent == Some(m) && Reaches(g, h, g.edges[i].child, p);
      ReachesOn(g, h, g.edges[i].child, j);
    }
  }

  /** Edge j has its parent among the nodes below n. */
  ghost predicate FromBelow(g: Graph, h: seq<nat>, n: nat, j: nat)
    requires Ordered(g, h) && n < |g.nodes| && j in g.edges
  {
    g.edges[j].parent.Some? && Reaches(g, h, n, g.edges[j].parent.value)
  }

  /** Different edges from m lead to different nodes, all the way down. */
  ghost predicate Apart(g: Graph, h: seq<nat>, i: nat, j: nat)
    requires Ordered(g, h) && i in g.edges && j in g.edges
  {
    forall x: nat | x < |g.nodes| :: !(Reaches(g, h, g.edges[i].child, x) && Reaches(g, h, g.edges[j].child, x))
  }

  /** Every node below n is reached by one path. */
  ghost predicate OnePath(g: Graph, h: seq<nat>, n: nat)
    requires Ordered(g, h) && n < |g.nodes|
    decreases h[n]
  {
    && (forall i, j | i in g.edges && j in g.edges && g.edges[i].parent == Some(n) == g.edges[j].parent && i != j ::
          Apart(g, h, i, j))
    && (forall i | i in g.edges && g.edges[i].parent == Some(n) :: OnePath(g, h, g.edges[i].child))
  }

  /** Seen from child edge k of n, every edge from below n to below k comes from below k, or is k. */
  lemma OneWayIn(g: Graph, h: seq<nat>, n: nat, k: nat, j: nat)
    requires Ordered(g, h) && n < |g.nodes| && OnePath(g, h, n)
    requires k in g.edges && g.edges[k].parent == Some(n) && j in g.edges && j != k
    requires FromBelow(g, h, n, j) && Reaches(g, h, g.edges[k].child, g.edges[j].child)
    ensures FromBelow(g, h, g.edges[k].child, j)
  {
    var p := g.edges[j].parent.value;
    var l: nat;
    if p == n {
      l := j;
    } else {
      l :| l in g.edges && g.edges[l].parent == Some(n) && Reaches(g, h, g.edges[l].child, p);
      ReachesOn(g, h, g.edges[l].child, j);
    }
    assert l != k ==> Apart(g, h, l, k);
  }

  // What an update leaves.

  /** Structure, and the GRAPH_MOD part that the default functions pass by. */
  ghost predicate SameEdge(e: Edge, f: Edge) {
    && e.parent == f.parent && e.child == f.child && e.role == f.role
    && (e.parent.Some? ==> e.perm * UNCHANGED == f.perm * UNCHANGED && e.shared * UNCHANGED == f.shared * UNCHANGED)
  }

  /** g' has the edges of g, perhaps with other permissions, and no new one below n but perhaps i. */
  ghost predicate Extends(g: Graph, g': Graph, h: seq<nat>, n: nat, i: nat)
    requires Ordered(g', h) && n < |g'.nodes|
  {
    && g'.nodes == g.nodes && i in g'.edges && g'.edges[i].child == n
    && (forall j | j in g.edges :: j in g'.edges && SameEdge(g.edges[j], g'.edges[j]))
    && (forall j | j in g'.edges && j !in g.edges && j != i :: h[g'.edges[j].child] > h[n])
  }

  /** Users of nodes below n that are not themselves below n are as they were. */
  ghost predicate OthersKept(g: Graph, g': Graph, h: seq<nat>, n: nat, i: nat)
    requires Ordered(g', h) && n < |g'.nodes| && Extends(g, g', h, n, i)
  {
    forall j | j in g.edges && j != i && Reaches(g', h, n, g'.edges[j].child) && !FromBelow(g', h, n, j) ::
      g'.edges[j] == g.edges[j]
  }

  /** The users of one node tolerate each other, and write only if it is writable. */
  ghost predicate NodeSafe(g: Graph, n: nat)
    requires n < |g.nodes|
  {
    && (forall i, j | i in g.edges && j in g.edges && i != j && g.edges[i].child == n == g.edges[j].child ::
          g.edges[i].perm <= g.edges[j].shared)
    && (forall i | i in g.edges && g.edges[i].child == n :: Writes(g.edges[i].perm) ==> g.nodes[n].Writable())
  }

  ghost predicate SafeBelow(g: Graph, h: seq<nat>, n: nat)
    requires Ordered(g, h) && n < |g.nodes|
  {
    forall x: nat | x < |g.nodes| && Reaches(g, h, n, x) :: NodeSafe(g, x)
  }

  lemma {:induction false} KeptDown(g: Graph, g': Graph, h: seq<nat>, n: nat, i: nat, k: nat)
    requires Ordered(g', h) && n < |g'.nodes| && OnePath(g', h, n) && Extends(g, g', h, n, i)
    requires OthersKept(g, g', h, n, i)
    requires k in g'.edges && g'.edges[k].parent == Some(n)
    ensures k != i && k in g.edges && Extends(g, g', h, g'.edges[k].child, k)
    ensures OthersKept(g, g', h, g'.edges[k].child, k)
  {
    var c := g'.edges[k].child;
    forall j | j in g.edges && j != k && Reaches(g', h, c, g'.edges[j].child) && !FromBelow(g', h, c, j)
      ensures g'.edges[j] == g.edges[j]
    {
      ReachesDown(g', h, c, g'.edges[j].child);
      if FromBelow(g', h, n, j) {
        OneWayIn(g', h, n, k, j);
      }
    }
  }

  /** The other users of n are the same in both graphs, and the check looks at all of them. */
  lemma SameUsers(g: Graph, g': Graph, h: seq<nat>, n: nat, i: nat, ignore: set<nat>, j: nat)
    requires Ordered(g, h) && Ordered(g', h) && n < |g'.nodes| && Extends(g, g', h, n, i) && OthersKept(g, g', h, n, i)
    requires PathTo(g, h, n, i, ignore)
    ensures Into(g, j, n, ignore) <==> j != i && Into(g', j, n, {})
    ensures Into(g, j, n, ignore) ==> g'.edges[j] == g.edges[j]
  {
    if j in g.edges && j != i && g.edges[j].child == n && FromBelow(g', h, n, j) {
      ReachesDown(g', h, n, g'.edges[j].parent.value);
    }
  }

  /** The check works with the cumulative permissions that n will have. */
  lemma SameCum(g: Graph, g': Graph, h: seq<nat>, n: nat, i: nat, ignore: set<nat>)
    requires Ordered(g, h) && Ordered(g', h) && n < |g'.nodes| && Extends(g, g', h, n, i) && OthersKept(g, g', h, n, i)
    requires PathTo(g, h, n, i, ignore)
    ensures var e := g'.edges[i];
            Use(e.perm + CumPerm(g, n, ignore), e.shared * CumShared(g, n, ignore)) == Cum(g', n, {})
  {
    var e := g'.edges[i];
    forall x: Perm
      ensures x in e.perm || Used(g, n, ignore, x) <==> Used(g', n, {}, x)
    {
      if x in e.perm {
        assert Into(g', i, n, {});
      }
      if Used(g, n, ignore, x) {
        var j :| j in g.edges && Into(g, j, n, ignore) && x in g.edges[j].perm;
        SameUsers(g, g', h, n, i, ignore, j);
      }
      if Used(g', n, {}, x) {
        var j :| j in g'.edges && Into(g', j, n, {}) && x in g'.edges[j].perm;
        SameUsers(g, g', h, n, i, ignore, j);
      }
    }
    forall x: Perm
      ensures x in e.shared && SharedByAll(g, n, ignore, x) <==> SharedByAll(g', n, {}, x)
    {
      assert Into(g', i, n, {});
      forall j
        ensures Into(g, j, n, ignore) <==> j != i && Into(g', j, n, {})
        ensures Into(g, j, n, ignore) ==> g'.edges[j] == g.edges[j]
      {
        SameUsers(g, g', h, n, i, ignore, j);
      }
    }
  }

  /** The part of the check that concerns n itself. */
  ghost predicate Conflicts(g: Graph, n: nat, u: Use, ignore: set<nat>) {
    exists j | j in g.edges :: Into(g, j, n, ignore) && !(u.perm <= g.edges[j].shared && g.edges[j].perm <= u.shared)
  }

  lemma NodeIff(g: Graph, g': Graph, h: seq<nat>, n: nat, i: nat, ignore: set<nat>)
    requires Ordered(g, h) && Ordered(g', h) && n < |g'.nodes| && Extends(g, g', h, n, i) && OthersKept(g, g', h, n, i)
    requires PathTo(g, h, n, i, ignore)
    requires Safe(g)
    ensures NodeSafe(g', n) <==>
              !Conflicts(g, n, UseOf(g'.edges[i]), ignore) && (Writes(Cum(g', n, {}).perm) ==> g'.nodes[n].Writable())
  {
    var u := UseOf(g'.edges[i]);
    forall j
      ensures Into(g, j, n, ignore) <==> j != i && Into(g', j, n, {})
      ensures Into(g, j, n, ignore) ==> g'.edges[j] == g.edges[j]
    {
      SameUsers(g, g', h, n, i, ignore, j);
    }
    if NodeSafe(g', n) {
      WritersCum(g', n);
      forall j | j in g.edges && Into(g, j, n, ignore)
        ensures u.perm <= g.edges[j].shared && g.edges[j].perm <= u.shared
      {
        assert Into(g', j, n, {});
      }
    } else if !Conflicts(g, n, u, ignore) && (Writes(Cum(g', n, {}).perm) ==> g'.nodes[n].Writable()) {
      WritersCum(g', n);
      forall j, k | j in g'.edges && k in g'.edges && j != k && g'.edges[j].child == n == g'.edges[k].child
        ensures g'.edges[j].perm <= g'.edges[k].shared
      {
        assert Into(g', j, n, {}) && Into(g', k, n, {});
      }
      assert false;
    }
  }

  lemma WritersCum(g: Graph, n: nat)
    requires n < |g.nodes|
    ensures (Writes(Cum(g, n, {}).perm) ==> g.nodes[n].Writable()) <==>
              forall i | i in g.edges && g.edges[i].child == n :: Writes(g.edges[i].perm) ==> g.nodes[n].Writable()
  {
    forall i | i in g.edges && g.edges[i].child == n && Writes(g.edges[i].perm)
      ensures Writes(Cum(g, n, {}).perm)
    {
      assert Into(g, i, n, {});
      assert Write in g.edges[i].perm ==> Used(g, n, {}, Write);
      assert WriteUnchanged in g.edges[i].perm ==> Used(g, n, {}, WriteUnchanged);
    }
  }

  /** On one path, what is safe below n is n and what is below each of its edges. */
  lemma SafeSplits(g: Graph, h: seq<nat>, n: nat)
    requires Ordered(g, h) && n < |g.nodes|
    ensures SafeBelow(g, h, n) <==>
              NodeSafe(g, n) && forall k | k in g.edges && g.edges[k].parent == Some(n) ::
                SafeBelow(g, h, g.edges[k].child)
  {
    if SafeBelow(g, h, n) {
      assert Reaches(g, h, n, n);
      forall k | k in g.edges && g.edges[k].parent == Some(n)
        ensures SafeBelow(g, h, g.edges[k].child)
      {
      }
    } else {
      var x: nat :| x < |g.nodes| && Reaches(g, h, n, x) && !NodeSafe(g, x);
      if x != n {
        var k :| k in g.edges && g.edges[k].parent == Some(n) && Reaches(g, h, g.edges[k].child, x);
        assert !SafeBelow(g, h, g.edges[k].child);
      }
    }
  }

  // Loosening.

  /** What a node passes on would only loosen its edges. */
  ghost predicate PassesLess(g: Graph, h: seq<nat>, m: nat, u: Use)
    requires Ordered(g, h)
  {
    forall i | i in g.edges && g.edges[i].parent == Some(m) :: Looser(EdgePerm(g, h, i, u), UseOf(g.edges[i]))
  }

  lemma ConsistentPasses(g: Graph, h: seq<nat>, m: nat, u: Use)
    requires Ordered(g, h) && m < |g.nodes| && ConsistentAt(g, h, m) && Looser(u, Cum(g, m, {}))
    ensures PassesLess(g, h, m, u)
  {
    forall i | i in g.edges && g.edges[i].parent == Some(m)
      ensures Looser(EdgePerm(g, h, i, u), UseOf(g.edges[i]))
    {
      ChildPermMonotone(g, m, g.edges[i].child, g.edges[i].role, Some(UseOf(g.edges[i])), u, Cum(g, m, {}));
    }
  }

  /** A looser use of edge i into n leaves n's users looser than they are. */
  lemma LooserCum(g: Graph, h: seq<nat>, n: nat, u: Use, i: nat, ignore: set<nat>)
    requires Ordered(g, h) && i in g.edges && g.edges[i].child == n && Looser(u, UseOf(g.edges[i]))
    requires PathTo(g, h, n, i, ignore)
    ensures Looser(Use(u.perm + CumPerm(g, n, ignore), u.shared * CumShared(g, n, ignore)), Cum(g, n, {}))
  {
    assert Into(g, i, n, {});
    forall x | x in u.perm + CumPerm(g, n, ignore)
      ensures x in CumPerm(g, n, {})
    {
      if x !in u.perm {
        var j :| j in g.edges && Into(g, j, n, ignore) && x in g.edges[j].perm;
        assert Into(g, j, n, {});
      }
    }
    forall x | x in CumShared(g, n, {})
      ensures x in CumShared(g, n, ignore)
    {
      forall j | j in g.edges && Into(g, j, n, ignore)
        ensures x in g.edges[j].shared
      {
        assert Into(g, j, n, {});
      }
    }
  }

  /** Loosening an edge passes the check, in any acyclic graph that is safe from there on down. */
  lemma {:induction false} LooseUpdate(g: Graph, h: seq<nat>, n: nat, u: Use, i: nat, ignore: set<nat>)
    requires Ordered(g, h) && Tolerant(g) && n < |g.nodes| && SafeBelow(g, h, n) && WriteUnchanged in u.shared
    requires i in g.edges && g.edges[i].child == n && Looser(u, UseOf(g.edges[i])) && PathTo(g, h, n, i, ignore)
    requires forall x: nat | x < |g.nodes| && h[x] <= h[n] :: ConsistentAt(g, h, x)
    ensures CheckUpdate(g, h, n, u, ignore)
    decreases h[n], 1
  {
    var v := Use(u.perm + CumPerm(g, n, ignore), u.shared * CumShared(g, n, ignore));
    LooserCum(g, h, n, u, i, ignore);
    ConsistentPasses(g, h, n, v);
    SafeSplits(g, h, n);
    LoosePerm(g, h, n, v, ignore);
  }

  lemma {:induction false} LoosePerm(g: Graph, h: seq<nat>, m: nat, u: Use, ignore: set<nat>)
    requires Ordered(g, h) && Tolerant(g) && m < |g.nodes| && SafeBelow(g, h, m) && WriteUnchanged in u.shared
    requires PassesLess(g, h, m, u) && Looser(u, Cum(g, m, {}))
    requires forall j | j in ignore && j in g.edges :: h[g.edges[j].child] >= h[m]
    requires forall x: nat | x < |g.nodes| && h[x] < h[m] :: ConsistentAt(g, h, x)
    ensures CheckPerm(g, h, m, u, ignore)
    decreases h[m], 0
  {
    SafeSplits(g, h, m);
    WritersCum(g, m);
    forall i | i in g.edges && g.edges[i].parent == Some(m)
      ensures CheckUpdate(g, h, g.edges[i].child, EdgePerm(g, h, i, u), ignore + {i})
    {
      LooseUpdate(g, h, g.edges[i].child, EdgePerm(g, h, i, u), i, ignore + {i});
    }
  }

  /** The use that a node passes on depends only on structure. */
  lemma SameEdgePerm(g: Graph, g': Graph, h: seq<nat>, k: nat, u: Use)
    requires Ordered(g, h) && Ordered(g', h) && g'.nodes == g.nodes && k in g.edges && k in g'.edges
    requires SameEdge(g.edges[k], g'.edges[k]) && g.edges[k].parent.Some?
    ensures EdgePerm(g, h, k, u) == EdgePerm(g', h, k, u)
  {
  }

  /** What the induction over the nodes below carries along. */
  ghost predicate Below(g: Graph, g': Graph, h: seq<nat>, n: nat, i: nat, ignore: set<nat>) {
    && Ordered(g, h) && Ordered(g', h) && n < |g'.nodes| && Extends(g, g', h, n, i) && OthersKept(g, g', h, n, i)
    && PathTo(g, h, n, i, ignore)
    && WriteUnchanged in g'.edges[i].shared && OnePath(g', h, n)
    && forall x: nat | x < |g'.nodes| && Reaches(g', h, n, x) :: ConsistentAt(g', h, x)
  }

  lemma StepBelow(g: Graph, g': Graph, h: seq<nat>, n: nat, i: nat, ignore: set<nat>, k: nat)
    requires Below(g, g', h, n, i, ignore) && k in g.edges && g.edges[k].parent == Some(n)
    requires WriteUnchanged in Cum(g', n, {}).shared
    ensures Below(g, g', h, g.edges[k].child, k, ignore + {k})
    ensures EdgePerm(g, h, k, Cum(g', n, {})) == UseOf(g'.edges[k])
  {
    KeptDown(g, g', h, n, i, k);
    SameEdgePerm(g, g', h, k, Cum(g', n, {}));
    assert Reaches(g', h, n, n) && ConsistentAt(g', h, n);
    forall x: nat | x < |g'.nodes| && Reaches(g', h, g.edges[k].child, x)
      ensures ConsistentAt(g', h, x)
    {
      assert Reaches(g', h, n, x);
    }
  }

  /** The check, unfolded by one node. */
  lemma CheckSplits(g: Graph, h: seq<nat>, n: nat, u: Use, ignore: set<nat>, v: Use)
    requires Ordered(g, h) && Tolerant(g) && n < |g.nodes| && WriteUnchanged in u.shared && WriteUnchanged in v.shared
    requires v == Use(u.perm + CumPerm(g, n, ignore), u.shared * CumShared(g, n, ignore))
    ensures CheckUpdate(g, h, n, u, ignore) <==>
              && !Conflicts(g, n, u, ignore) && (Writes(v.perm) ==> g.nodes[n].Writable())
              && forall k | k in g.edges && g.edges[k].parent == Some(n) ::
                   CheckUpdate(g, h, g.edges[k].child, EdgePerm(g, h, k, v), ignore + {k})
  {
  }

  /**
    On graphs where the updated edge reaches each node below by one path, the
    check accepts exactly the updates that leave the nodes below safe.
   */
  lemma {:induction false} UpdateIff(g: Graph, g': Graph, h: seq<nat>, n: nat, i: nat, ignore: set<nat>)
    requires Below(g, g', h, n, i, ignore) && Safe(g) && Tolerant(g)
    ensures CheckUpdate(g, h, n, UseOf(g'.edges[i]), ignore) <==> SafeBelow(g', h, n)
    decreases h[n]
  {
    var v := Cum(g', n, {});
    SameCum(g, g', h, n, i, ignore);
    NodeIff(g, g', h, n, i, ignore);
    SafeSplits(g', h, n);
    assert WriteUnchanged in v.shared;
    CheckSplits(g, h, n, UseOf(g'.edges[i]), ignore, v);
    forall k | k in g.edges && g.edges[k].parent == Some(n)
      ensures CheckUpdate(g, h, g.edges[k].child, EdgePerm(g, h, k, v), ignore + {k}) <==>
                SafeBelow(g', h, g.edges[k].child)
    {
      StepBelow(g, g', h, n, i, ignore, k);
      UpdateIff(g, g', h, g.edges[k].child, k, ignore + {k});
    }
    SameChildren(g, g', h, n, i);
  }

  /** The two graphs have the same edges from n. */
  lemma SameChildren(g: Graph, g': Graph, h: seq<nat>, n: nat, i: nat)
    requires Ordered(g', h) && n < |g'.nodes| && Extends(g, g', h, n, i)
    ensures forall k ::
              k in g'.edges && g'.edges[k].parent == Some(n) ==>
                k in g.edges && g.edges[k].parent == Some(n) && g.edges[k].child == g'.edges[k].child
    ensures forall k ::
              k in g.edges && g.edges[k].parent == Some(n) ==>
                k in g'.edges && g'.edges[k].parent == Some(n) && g.edges[k].child == g'.edges[k].child
  {
  }
}
