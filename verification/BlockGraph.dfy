/** Changing permissions on the graph of block nodes: set, attach, detach and replace (qemu/block.c). */
module BlockGraphs {
  import opened Basics
  import opened BlockPerm
  import opened BlockPaths

  /** What the default functions fix about an edge whatever its users. */
  ghost predicate FormedEdge(g: Graph, h: seq<nat>, i: nat)
    requires Ordered(g, h) && i in g.edges
  {
    var e := g.edges[i];
    e.parent.Some? ==>
      && (g.nodes[e.child].forceShare ==> e.shared == ALL)
      && (g.nodes[e.parent.value].driver.Format? && e.role.Backing? ==> GraphMod !in e.perm && GraphMod in e.shared)
  }

  ghost predicate Formed(g: Graph, h: seq<nat>)
    requires Ordered(g, h)
  {
    forall i | i in g.edges :: FormedEdge(g, h, i)
  }

  ghost predicate SameShape(g: Graph, g': Graph) {
    && g'.nodes == g.nodes && g'.edges.Keys == g.edges.Keys
    && forall j | j in g.edges :: SameEdge(g.edges[j], g'.edges[j])
  }

  function WithUse(g: Graph, i: nat, u: Use): Graph
    requires i in g.edges
  {
    g.(edges := g.edges[i := g.edges[i].(perm := u.perm, shared := u.shared)])
  }

  /** Setting an edge that passes on permissions keeps what is fixed about it. */
  lemma SetEdge(g: Graph, h: seq<nat>, i: nat, u: Use)
    requires Ordered(g, h) && Formed(g, h) && i in g.edges && g.edges[i].parent.Some?
    ensures var g' := WithUse(g, i, EdgePerm(g, h, i, u)); Ordered(g', h) && Formed(g', h) && SameShape(g, g')
  {
    var g' := WithUse(g, i, EdgePerm(g, h, i, u));
    assert FormedEdge(g, h, i);
    forall j | j in g'.edges
      ensures FormedEdge(g', h, j)
    {
      assert FormedEdge(g, h, j);
    }
  }

  lemma SetRoot(g: Graph, h: seq<nat>, i: nat, u: Use)
    requires Ordered(g, h) && Formed(g, h) && i in g.edges && g.edges[i].parent.None?
    ensures var g' := WithUse(g, i, u); Ordered(g', h) && Formed(g', h) && SameShape(g, g')
  {
    var g' := WithUse(g, i, u);
    forall j | j in g'.edges
      ensures FormedEdge(g', h, j)
    {
      assert FormedEdge(g, h, j);
    }
  }

  lemma CumSame(g: Graph, g': Graph, n: nat)
    requires forall i | i in g.edges && g.edges[i].child == n :: i in g'.edges && g'.edges[i] == g.edges[i]
    requires forall i | i in g'.edges && g'.edges[i].child == n :: i in g.edges && g'.edges[i] == g.edges[i]
    ensures Cum(g', n, {}) == Cum(g, n, {})
  {
    forall x: Perm
      ensures Used(g', n, {}, x) <==> Used(g, n, {}, x)
    {
      if Used(g, n, {}, x) {
        var i :| i in g.edges && Into(g, i, n, {}) && x in g.edges[i].perm;
        assert Into(g', i, n, {});
      }
      if Used(g', n, {}, x) {
        var i :| i in g'.edges && Into(g', i, n, {}) && x in g'.edges[i].perm;
        assert Into(g, i, n, {});
      }
    }
    forall x: Perm
      ensures SharedByAll(g', n, {}, x) <==> SharedByAll(g, n, {}, x)
    {
      assert forall i :: Into(g', i, n, {}) <==> Into(g, i, n, {});
    }
  }

  /** Changing one edge leaves the nodes consistent that it neither leaves nor enters. */
  lemma StillConsistent(g: Graph, h: seq<nat>, i: nat, u: Use, x: nat)
    requires Ordered(g, h) && i in g.edges && ConsistentAt(g, h, x) && x != g.edges[i].child
    requires g.edges[i].parent != Some(x)
    requires Ordered(WithUse(g, i, u), h)
    ensures ConsistentAt(WithUse(g, i, u), h, x)
  {
    CumSame(g, WithUse(g, i, u), x);
  }

  lemma {:induction false} SameReach(g: Graph, g': Graph, h: seq<nat>, m: nat, x: nat)
    requires Ordered(g, h) && Ordered(g', h) && SameShape(g, g') && m < |g.nodes|
    ensures Reaches(g, h, m, x) <==> Reaches(g', h, m, x)
    decreases h[m]
  {
    forall i | i in g.edges && g.edges[i].parent == Some(m)
      ensures g'.edges[i].parent == Some(m)
      ensures Reaches(g, h, g.edges[i].child, x) <==> Reaches(g', h, g'.edges[i].child, x)
    {
      SameReach(g, g', h, g.edges[i].child, x);
    }
    if m != x && Reaches(g, h, m, x) {
      var i :| i in g.edges && g.edges[i].parent == Some(m) && Reaches(g, h, g.edges[i].child, x);
      assert i in g'.edges && g'.edges[i].parent == Some(m) && Reaches(g', h, g'.edges[i].child, x);
    }
    if m != x && Reaches(g', h, m, x) {
      var i :| i in g'.edges && g'.edges[i].parent == Some(m) && Reaches(g', h, g'.edges[i].child, x);
      assert i in g.edges && g.edges[i].parent == Some(m) && Reaches(g, h, g.edges[i].child, x);
    }
  }

  /** Only edges from nodes below m have changed. */
  ghost predicate Untouched(g: Graph, g': Graph, h: seq<nat>, m: nat)
    requires Ordered(g, h) && m < |g.nodes| && SameShape(g, g')
  {
    forall j | j in g.edges && !FromBelow(g, h, m, j) :: g'.edges[j] == g.edges[j]
  }

  /** A change below a child of m is one below m. */
  lemma UntouchedUp(g0: Graph, g: Graph, g': Graph, h: seq<nat>, m: nat, i: nat)
    requires Ordered(g0, h) && Ordered(g, h) && m < |g0.nodes| && SameShape(g0, g) && SameShape(g, g')
    requires i in g.edges && g.edges[i].parent == Some(m) && Untouched(g0, g, h, m)
    requires forall j | j in g.edges && j != i && !FromBelow(g, h, g.edges[i].child, j) :: g'.edges[j] == g.edges[j]
    ensures SameShape(g0, g') && Untouched(g0, g', h, m)
  {
    forall j | j in g0.edges && !FromBelow(g0, h, m, j)
      ensures g'.edges[j] == g0.edges[j]
    {
      if FromBelow(g, h, g.edges[i].child, j) {
        SameReach(g0, g, h, g.edges[i].child, g.edges[j].parent.value);
      }
    }
  }

  ghost predicate ConsistentBut(g: Graph, h: seq<nat>, busy: set<nat>)
    requires Ordered(g, h)
  {
    forall x: nat | x < |g.nodes| && x !in busy :: ConsistentAt(g, h, x)
  }

  ghost predicate Above(h: seq<nat>, busy: set<nat>, m: nat)
    requires m < |h|
  {
    forall x | x in busy :: x < |h| && h[x] > h[m]
  }

  /** Edges from m that are not in todo carry u. */
  ghost predicate SetSoFar(g: Graph, h: seq<nat>, m: nat, u: Use, todo: set<nat>)
    requires Ordered(g, h)
  {
    forall i | i in g.edges && g.edges[i].parent == Some(m) && i !in todo :: UseOf(g.edges[i]) == EdgePerm(g, h, i, u)
  }

  /** Edges from i's child and below may have changed, and i carries v. */
  ghost predicate ChildSet(g: Graph, g': Graph, h: seq<nat>, i: nat, v: Use)
    requires Ordered(g, h) && i in g.edges
  {
    && SameShape(g, g') && UseOf(g'.edges[i]) == v
    && forall j | j in g.edges && j != i && !FromBelow(g, h, g.edges[i].child, j) :: g'.edges[j] == g.edges[j]
  }

  lemma NotBelow(g: Graph, h: seq<nat>, n: nat, j: nat)
    requires Ordered(g, h) && n < |g.nodes| && j in g.edges
    requires g.edges[j].parent.Some? ==> h[g.edges[j].parent.value] > h[n]
    ensures !FromBelow(g, h, n, j)
  {
    if FromBelow(g, h, n, j) {
      ReachesDown(g, h, n, g.edges[j].parent.value);
    }
  }

  /** After writing edge i only its child can be inconsistent. */
  lemma AfterWrite(g: Graph, h: seq<nat>, i: nat, v: Use, busy: set<nat>)
    requires Ordered(g, h) && i in g.edges && ConsistentBut(g, h, busy)
    requires g.edges[i].parent.Some? ==> g.edges[i].parent.value in busy
    requires Ordered(WithUse(g, i, v), h)
    ensures ConsistentBut(WithUse(g, i, v), h, busy + {g.edges[i].child})
  {
    forall x: nat | x < |g.nodes| && x !in busy && x != g.edges[i].child
      ensures ConsistentAt(WithUse(g, i, v), h, x)
    {
      StillConsistent(g, h, i, v, x);
    }
  }

  lemma AfterBelow(g: Graph, g': Graph, h: seq<nat>, i: nat, v: Use)
    requires Ordered(g, h) && i in g.edges && SameShape(g, WithUse(g, i, v)) && Ordered(WithUse(g, i, v), h)
    requires SameShape(WithUse(g, i, v), g') && Untouched(WithUse(g, i, v), g', h, g.edges[i].child)
    ensures ChildSet(g, g', h, i, v)
  {
    var g1, n := WithUse(g, i, v), g.edges[i].child;
    NotBelow(g1, h, n, i);
    forall j | j in g.edges && j != i && !FromBelow(g, h, n, j)
      ensures g'.edges[j] == g.edges[j]
    {
      if g.edges[j].parent.Some? {
        SameReach(g, g1, h, n, g.edges[j].parent.value);
      }
    }
  }

  /** Setting a child edge of m changes neither the users of m nor the other edges from m. */
  lemma AfterTurn(g: Graph, g': Graph, h: seq<nat>, m: nat, u: Use, i: nat, todo: set<nat>)
    requires Ordered(g, h) && Ordered(g', h) && m < |g.nodes| && i in g.edges && g.edges[i].parent == Some(m)
    requires ChildSet(g, g', h, i, EdgePerm(g, h, i, u)) && SetSoFar(g, h, m, u, todo)
    ensures Cum(g', m, {}) == Cum(g, m, {}) && SetSoFar(g', h, m, u, todo - {i})
  {
    var n := g.edges[i].child;
    forall j | j in g.edges && g.edges[j].child == m
      ensures g'.edges[j] == g.edges[j]
    {
      NotBelow(g, h, n, j);
    }
    CumSame(g, g', m);
    forall k | k in g'.edges && g'.edges[k].parent == Some(m) && k !in todo - {i}
      ensures UseOf(g'.edges[k]) == EdgePerm(g', h, k, u)
    {
      NotBelow(g, h, n, k);
      SameEdgePerm(g, g', h, k, u);
    }
  }

  // Facts about the graph that a finished update leaves.

  function Top(h: seq<nat>): nat {
    if h == [] then 0 else if Top(h[1..]) > h[0] then Top(h[1..]) else h[0]
  }

  lemma {:induction false} TopBound(h: seq<nat>, x: nat)
    requires x < |h|
    ensures h[x] <= Top(h)
  {
    if x > 0 {
      TopBound(h[1..], x - 1);
    }
  }

  /** How far down an edge starts; users from outside start at the top. */
  function Depth(g: Graph, h: seq<nat>, i: nat): (d: nat)
    requires Ordered(g, h) && i in g.edges
  {
    if g.edges[i].parent.None? then 0
    else
      var m := g.edges[i].parent.value;
      TopBound(h, m);
      1 + Top(h) - h[m]
  }

  lemma DepthUp(g: Graph, h: seq<nat>, i: nat, j: nat)
    requires Ordered(g, h) && i in g.edges && j in g.edges && g.edges[i].parent == Some(g.edges[j].child)
    ensures Depth(g, h, j) < Depth(g, h, i)
  {
    TopBound(h, g.edges[j].child);
  }

  ghost predicate RootsTolerant(g: Graph) {
    forall i | i in g.edges && g.edges[i].parent.None? :: WriteUnchanged in g.edges[i].shared
  }

  /** Every edge shares WRITE_UNCHANGED if those of the outside users do. */
  lemma {:induction false} EdgeTolerant(g: Graph, h: seq<nat>, i: nat)
    requires Ordered(g, h) && Consistent(g, h) && RootsTolerant(g) && i in g.edges
    ensures WriteUnchanged in g.edges[i].shared
    decreases Depth(g, h, i)
  {
    if g.edges[i].parent.Some? {
      var m := g.edges[i].parent.value;
      forall j | j in g.edges && Into(g, j, m, {})
        ensures WriteUnchanged in g.edges[j].shared
      {
        DepthUp(g, h, i, j);
        EdgeTolerant(g, h, j);
      }
      assert SharedByAll(g, m, {}, WriteUnchanged);
      assert ConsistentAt(g, h, m);
    }
  }

  /** g' has edges of g only, those of outside users as they were. */
  ghost predicate Thinned(g: Graph, g': Graph) {
    && g'.nodes == g.nodes
    && (forall i | i in g'.edges :: i in g.edges && SameEdge(g.edges[i], g'.edges[i]))
    && (forall i | i in g'.edges && g.edges[i].parent.None? :: g'.edges[i] == g.edges[i])
  }

  /** Taking edges away only loosens the others. */
  lemma {:induction false} EdgeLooser(g: Graph, g': Graph, h: seq<nat>, i: nat)
    requires Ordered(g, h) && Ordered(g', h) && Consistent(g, h) && Consistent(g', h) && Thinned(g, g') && i in g'.edges
    ensures Looser(UseOf(g'.edges[i]), UseOf(g.edges[i]))
    decreases Depth(g', h, i)
  {
    if g'.edges[i].parent.Some? {
      var m := g'.edges[i].parent.value;
      forall j | j in g'.edges && Into(g', j, m, {})
        ensures Looser(UseOf(g'.edges[j]), UseOf(g.edges[j]))
      {
        DepthUp(g', h, i, j);
        EdgeLooser(g, g', h, j);
      }
      CumLooser(g, g', m);
      assert ConsistentAt(g, h, m) && ConsistentAt(g', h, m);
      SameEdgePerm(g, g', h, i, Cum(g', m, {}));
      ChildPermMonotone(g, m, g.edges[i].child, g.edges[i].role, Some(UseOf(g.edges[i])), Cum(g', m, {}),
                        Cum(g, m, {}));
    }
  }

  lemma CumLooser(g: Graph, g': Graph, m: nat)
    requires Thinned(g, g')
    requires forall j | j in g'.edges && Into(g', j, m, {}) :: Looser(UseOf(g'.edges[j]), UseOf(g.edges[j]))
    ensures Looser(Cum(g', m, {}), Cum(g, m, {}))
  {
    forall x: Perm | Used(g', m, {}, x)
      ensures Used(g, m, {}, x)
    {
      var j :| j in g'.edges && Into(g', j, m, {}) && x in g'.edges[j].perm;
      assert Into(g, j, m, {});
    }
    forall x: Perm | SharedByAll(g, m, {}, x)
      ensures SharedByAll(g', m, {}, x)
    {
      forall j | j in g'.edges && Into(g', j, m, {})
        ensures x in g'.edges[j].shared
      {
        assert Into(g, j, m, {});
      }
    }
  }

  /** So a node whose users tolerate each other stays so, and none becomes written to. */
  lemma ThinnedSafe(g: Graph, g': Graph, h: seq<nat>)
    requires Ordered(g, h) && Ordered(g', h) && Consistent(g, h) && Consistent(g', h) && Thinned(g, g')
    ensures forall x: nat | x < |g.nodes| && NodeSafe(g, x) :: NodeSafe(g', x)
    ensures WritersAllowed(g) ==> WritersAllowed(g')
    ensures Safe(g) ==> Safe(g')
  {
    forall i | i in g'.edges
      ensures Looser(UseOf(g'.edges[i]), UseOf(g.edges[i]))
    {
      EdgeLooser(g, g', h, i);
    }
  }

  /** What every operation keeps. */
  ghost predicate Good(g: Graph, h: seq<nat>) {
    Ordered(g, h) && Formed(g, h) && Consistent(g, h) && Tolerant(g) && WritersAllowed(g)
  }

  lemma IsGood(g: Graph, h: seq<nat>)
    requires Ordered(g, h) && Formed(g, h) && ConsistentBut(g, h, {}) && RootsTolerant(g) && WritersAllowed(g)
    ensures Good(g, h)
  {
    forall i | i in g.edges
      ensures WriteUnchanged in g.edges[i].shared
    {
      EdgeTolerant(g, h, i);
    }
  }

  // Writers, in any acyclic graph.

  /** g' differs from g in edge i, which enters n from outside, and in edges from below n. */
  ghost predicate Updated(g: Graph, g': Graph, h: seq<nat>, n: nat, i: nat)
    requires Ordered(g', h)
  {
    && g'.nodes == g.nodes && i in g'.edges && g'.edges[i].child == n && g'.edges[i].parent.None?
    && (forall j | j in g'.edges && j != i :: j in g.edges && SameEdge(g.edges[j], g'.edges[j]))
    && (forall j | j in g'.edges && j != i && !FromBelow(g', h, n, j) :: g'.edges[j] == g.edges[j])
  }

  /** A permission that an edge has afterwards it had before, or a path brings it. */
  lemma {:induction false} PermSource(g: Graph, g': Graph, h: seq<nat>, n: nat, i: nat, v: Use, k: nat, p: Perm)
    requires Ordered(g, h) && Ordered(g', h) && Consistent(g, h) && Consistent(g', h) && Updated(g, g', h, n, i)
    requires g'.edges[i].perm <= v.perm && k in g'.edges && p in g'.edges[k].perm
    ensures (k in g.edges && k != i && p in g.edges[k].perm) || Brings(g, h, n, v, p, g'.edges[k].child)
    decreases Depth(g', h, k)
  {
    if k == i {
      assert Down(g, n, []) && EndOf(g, n, []) == n && Carried(g, h, n, v, []) == v;
    } else if FromBelow(g', h, n, k) {
      var m := g'.edges[k].parent.value;
      assert ConsistentAt(g', h, m) && ConsistentAt(g, h, m);
      SameEdgePerm(g, g', h, k, Cum(g', m, {}));
      if Used(g', m, {}, p) {
        var j :| j in g'.edges && Into(g', j, m, {}) && p in g'.edges[j].perm;
        DepthUp(g', h, k, j);
        PermSource(g, g', h, n, i, v, j, p);
        PermStep(g, h, n, v, j, k, m, p, Cum(g', m, {}));
      } else {
        PassedAlone(g, h, k, Cum(g', m, {}), Cum(g, m, {}), p);
      }
    }
  }

  /** The permission comes to edge k from m, by an edge that had it before or by a path. */
  lemma PermStep(g: Graph, h: seq<nat>, n: nat, v: Use, j: nat, k: nat, m: nat, p: Perm, u: Use)
    requires Ordered(g, h) && m < |g.nodes| && ConsistentAt(g, h, m) && k in g.edges && g.edges[k].parent == Some(m)
    requires p in EdgePerm(g, h, k, u).perm
    requires (j in g.edges && g.edges[j].child == m && p in g.edges[j].perm) || Brings(g, h, n, v, p, m)
    ensures p in g.edges[k].perm || Brings(g, h, n, v, p, g.edges[k].child)
  {
    if Brings(g, h, n, v, p, m) {
      var path :| Down(g, n, path) && EndOf(g, n, path) == m && p in Carried(g, h, n, v, path).perm;
      PassedAlone(g, h, k, u, Carried(g, h, n, v, path), p);
      CarriedMore(g, h, n, v, path, k);
    } else {
      assert Into(g, j, m, {}) && Used(g, m, {}, p);
      PassedAlone(g, h, k, u, Cum(g, m, {}), p);
    }
  }

  /** An update that passes the check leaves no writer of a node that is not writable. */
  lemma WritersKept(g: Graph, g': Graph, h: seq<nat>, n: nat, i: nat, ignore: set<nat>)
    requires Good(g, h) && Ordered(g', h) && Consistent(g', h) && n < |g.nodes| && Updated(g, g', h, n, i)
    requires WriteUnchanged in g'.edges[i].shared && CheckUpdate(g, h, n, UseOf(g'.edges[i]), ignore)
    requires forall j | j in ignore && j in g.edges :: h[g.edges[j].child] >= h[n]
    ensures WritersAllowed(g')
  {
    var u := UseOf(g'.edges[i]);
    var v := Use(u.perm + CumPerm(g, n, ignore), u.shared * CumShared(g, n, ignore));
    assert SharedByAll(g, n, ignore, WriteUnchanged);
    PathsIff(g, h, n, v, ignore);
    forall k | k in g'.edges && Writes(g'.edges[k].perm)
      ensures g'.nodes[g'.edges[k].child].Writable()
    {
      var p :| p in g'.edges[k].perm && (p == Write || p == WriteUnchanged);
      PermSource(g, g', h, n, i, v, k, p);
      if Brings(g, h, n, v, p, g'.edges[k].child) {
        var path :| Down(g, n, path) && EndOf(g, n, path) == g'.edges[k].child && p in Carried(g, h, n, v, path).perm;
        PathOkIs(g, h, n, v, path);
      }
    }
  }

  // Tightening.

  lemma {:induction false} SameOnePath(g: Graph, g': Graph, h: seq<nat>, n: nat)
    requires Ordered(g, h) && Ordered(g', h) && SameShape(g, g') && n < |g.nodes| && OnePath(g, h, n)
    ensures OnePath(g', h, n)
    decreases h[n]
  {
    forall i | i in g'.edges && g'.edges[i].parent == Some(n)
      ensures OnePath(g', h, g'.edges[i].child)
    {
      SameOnePath(g, g', h, g.edges[i].child);
    }
    forall i, j | i in g'.edges && j in g'.edges && g'.edges[i].parent == Some(n) == g'.edges[j].parent && i != j
      ensures Apart(g', h, i, j)
    {
      assert Apart(g, h, i, j);
      forall x: nat | x < |g.nodes|
        ensures !(Reaches(g', h, g'.edges[i].child, x) && Reaches(g', h, g'.edges[j].child, x))
      {
        SameReach(g, g', h, g.edges[i].child, x);
        SameReach(g, g', h, g.edges[j].child, x);
      }
    }
  }

  /** Nodes that the update does not reach have their users unchanged. */
  lemma SafeElsewhere(g: Graph, g': Graph, h: seq<nat>, n: nat, i: nat)
    requires Ordered(g, h) && Ordered(g', h) && n < |g'.nodes| && g'.nodes == g.nodes && Safe(g)
    requires i in g'.edges && g'.edges[i].child == n && g'.edges.Keys == g.edges.Keys + {i}
    requires forall j | j in g.edges && j != i && !FromBelow(g', h, n, j) :: g'.edges[j] == g.edges[j]
    ensures Safe(g') <==> SafeBelow(g', h, n)
  {
    forall x: nat | x < |g'.nodes| && !Reaches(g', h, n, x)
      ensures NodeSafe(g', x)
    {
      forall j | j in g'.edges && g'.edges[j].child == x
        ensures j in g.edges && g'.edges[j] == g.edges[j]
      {
        if j in g.edges && j != i && FromBelow(g', h, n, j) {
          ReachesOn(g', h, n, j);
        }
      }
    }
    assert SafeBelow(g', h, n) ==> forall x: nat | x < |g'.nodes| :: NodeSafe(g', x);
    assert Safe(g') <==> forall x: nat | x < |g'.nodes| :: NodeSafe(g', x) by { SafeIsNodes(g', h); }
  }

  lemma SafeIsNodes(g: Graph, h: seq<nat>)
    requires Ordered(g, h)
    ensures Safe(g) <==> forall x: nat | x < |g.nodes| :: NodeSafe(g, x)
  {
    if forall x: nat | x < |g.nodes| :: NodeSafe(g, x) {
      forall i | i in g.edges
        ensures NodeSafe(g, g.edges[i].child)
      {
      }
    }
  }

  /**
    Where the changed edge reaches each node below by one path, the check accepts
    a new use of an outside edge exactly if the graph that results is safe.
   */
  lemma TrySetIff(g: Graph, g': Graph, h: seq<nat>, i: nat, v: Use)
    requires Good(g, h) && Safe(g) && i in g.edges && g.edges[i].parent.None? && WriteUnchanged in v.shared
    requires OnePath(g, h, g.edges[i].child)
    requires ChildSet(g, g', h, i, v) && Ordered(g', h) && Consistent(g', h)
    ensures CheckUpdate(g, h, g.edges[i].child, v, {i}) <==> Safe(g')
  {
    var n := g.edges[i].child;
    forall j | j in g.edges && j != i && !FromBelow(g', h, n, j)
      ensures g'.edges[j] == g.edges[j]
    {
      if FromBelow(g, h, n, j) {
        SameReach(g, g', h, n, g.edges[j].parent.value);
      }
    }
    SameOnePath(g, g', h, n);
    assert Below(g, g', h, n, i, {i});
    UpdateIff(g, g', h, n, i, {i});
    SafeElsewhere(g, g', h, n, i);
  }

  function WithEdge(g: Graph, i: nat, e: Edge): Graph {
    g.(edges := g.edges[i := e])
  }

  /** The same for a new outside edge. */
  lemma AttachIff(g: Graph, g': Graph, h: seq<nat>, i: nat, e: Edge)
    requires Good(g, h) && Safe(g) && i !in g.edges && e.parent.None? && e.child < |g.nodes|
    requires WriteUnchanged in e.shared
    requires Ordered(WithEdge(g, i, e), h) && OnePath(WithEdge(g, i, e), h, e.child)
    requires SameShape(WithEdge(g, i, e), g') && Untouched(WithEdge(g, i, e), g', h, e.child) && Ordered(g', h)
    requires Consistent(g', h)
    ensures CheckUpdate(g, h, e.child, UseOf(e), {}) <==> Safe(g')
  {
    var g1, n := WithEdge(g, i, e), e.child;
    NotBelow(g1, h, n, i);
    forall j | j in g.edges && !FromBelow(g', h, n, j)
      ensures g'.edges[j] == g.edges[j]
    {
      if FromBelow(g1, h, n, j) {
        SameReach(g1, g', h, n, g1.edges[j].parent.value);
      }
    }
    SameOnePath(g1, g', h, n);
    assert Below(g, g', h, n, i, {});
    UpdateIff(g, g', h, n, i, {});
    SafeElsewhere(g, g', h, n, i);
  }

  lemma SetDone(g: Graph, h: seq<nat>, m: nat, u: Use, busy: set<nat>)
    requires Ordered(g, h) && Cum(g, m, {}) == u && ConsistentBut(g, h, busy + {m}) && SetSoFar(g, h, m, u, {})
    ensures ConsistentBut(g, h, busy)
  {
    assert ConsistentAt(g, h, m);
  }

  /** Taking an edge away. */
  function Without(g: Graph, i: nat): Graph {
    g.(edges := g.edges - {i})
  }

  lemma AfterRemoval(g: Graph, h: seq<nat>, i: nat)
    requires Good(g, h) && i in g.edges
    ensures var g1, n := Without(g, i), g.edges[i].child;
            && Ordered(g1, h) && Formed(g1, h) && Tolerant(g1) && WritersAllowed(g1) && Thinned(g, g1)
            && ConsistentBut(g1, h, {n})
            && WriteUnchanged in Cum(g1, n, {}).shared && LooseFrom(g1, h, n, Cum(g1, n, {}))
  {
    var g1, n := Without(g, i), g.edges[i].child;
    forall x: nat | x < |g.nodes| && x != n
      ensures ConsistentAt(g1, h, x)
    {
      assert ConsistentAt(g, h, x);
      CumSame(g, g1, x);
    }
    forall j | j in g1.edges
      ensures FormedEdge(g1, h, j)
    {
      assert FormedEdge(g, h, j);
    }
    RemovalLoosens(g, h, i);
  }

  /** What is left of the users of a node asks it to pass on less. */
  lemma RemovalLoosens(g: Graph, h: seq<nat>, i: nat)
    requires Good(g, h) && i in g.edges && Ordered(Without(g, i), h)
    ensures var g1, n := Without(g, i), g.edges[i].child;
            WriteUnchanged in Cum(g1, n, {}).shared && PassesLess(g1, h, n, Cum(g1, n, {}))
  {
    var g1, n := Without(g, i), g.edges[i].child;
    var u := Cum(g1, n, {});
    CumLooser(g, g1, n);
    assert SharedByAll(g1, n, {}, WriteUnchanged);
    assert ConsistentAt(g, h, n);
    ConsistentPasses(g, h, n, u);
    forall k | k in g1.edges && g1.edges[k].parent == Some(n)
      ensures Looser(EdgePerm(g1, h, k, u), UseOf(g1.edges[k]))
    {
      SameEdgePerm(g, g1, h, k, u);
    }
  }

  /** The check that bdrv_replace_child makes of what is left when edge i has gone. */
  predicate RemovalCheck(g: Graph, ghost h: seq<nat>, i: nat)
    requires Good(g, h) && i in g.edges
  {
    AfterRemoval(g, h, i);
    CheckPerm(Without(g, i), h, g.edges[i].child, Cum(Without(g, i), g.edges[i].child, {}), {})
  }

  /**
    Removing a user passes the check exactly if it ends the clashes below: along
    every path down, the last edge as the removal would loosen it no longer
    clashes with an edge into the same node with which it clashes now.
   */
  lemma RemovalIff(g: Graph, h: seq<nat>, i: nat)
    requires Good(g, h) && i in g.edges
    ensures var g1, n := Without(g, i), g.edges[i].child;
            && Ordered(g1, h)
            && (RemovalCheck(g, h, i) <==>
                  forall path | Down(g1, n, path) && path != [] :: ClashesEnd(g1, h, n, Cum(g1, n, {}), path))
  {
    AfterRemoval(g, h, i);
    LooseIff(Without(g, i), h, g.edges[i].child, Cum(Without(g, i), g.edges[i].child, {}));
  }

  lemma {:induction false} DownReaches(g: Graph, h: seq<nat>, m: nat, path: seq<nat>)
    requires Ordered(g, h) && m < |g.nodes| && Down(g, m, path)
    ensures Reaches(g, h, m, EndOf(g, m, path))
    decreases |path|
  {
    if path != [] {
      DownReaches(g, h, g.edges[path[0]].child, path[1..]);
    }
  }

  lemma {:induction false} DownWithout(g: Graph, i: nat, m: nat, path: seq<nat>)
    requires Down(Without(g, i), m, path)
    ensures Down(g, m, path) && EndOf(g, m, path) == EndOf(Without(g, i), m, path)
    decreases |path|
  {
    if path != [] {
      DownWithout(g, i, g.edges[path[0]].child, path[1..]);
    }
  }

  /** So it never fails where the nodes below are safe, in any acyclic graph. */
  lemma RemovalChecks(g: Graph, h: seq<nat>, i: nat)
    requires Good(g, h) && i in g.edges && SafeBelow(g, h, g.edges[i].child)
    ensures RemovalCheck(g, h, i)
  {
    var g1, n := Without(g, i), g.edges[i].child;
    RemovalIff(g, h, i);
    forall path | Down(g1, n, path) && path != []
      ensures ClashesEnd(g1, h, n, Cum(g1, n, {}), path)
    {
      LastDown(g1, n, path);
      DownWithout(g, i, n, path);
      DownReaches(g, h, n, path);
      ReachesDown(g, h, n, EndOf(g, n, path));
    }
  }

  lemma AfterAttach(g: Graph, h: seq<nat>, i: nat, e: Edge)
    requires Good(g, h) && i !in g.edges && e.parent.None? && e.child < |g.nodes|
    ensures var g1 := WithEdge(g, i, e); Ordered(g1, h) && Formed(g1, h) && ConsistentBut(g1, h, {e.child})
  {
    var g1 := WithEdge(g, i, e);
    forall x: nat | x < |g.nodes| && x != e.child
      ensures ConsistentAt(g1, h, x)
    {
      assert ConsistentAt(g, h, x);
      CumSame(g, g1, x);
    }
    forall j | j in g1.edges
      ensures FormedEdge(g1, h, j)
    {
      assert j != i ==> FormedEdge(g, h, j);
    }
  }

  /** g' is g with the new edge i, and perhaps other permissions on edges from nodes. */
  ghost predicate Grown(g: Graph, g': Graph, i: nat, e: Edge) {
    && g'.nodes == g.nodes && g'.edges.Keys == g.edges.Keys + {i} && g'.edges[i] == e
    && (forall j | j in g.edges && j != i :: SameEdge(g.edges[j], g'.edges[j]))
    && (forall j | j in g.edges && j != i && g.edges[j].parent.None? :: g'.edges[j] == g.edges[j])
  }

  lemma AttachGrown(g: Graph, g': Graph, h: seq<nat>, i: nat, e: Edge)
    requires Ordered(g, h) && i !in g.edges && e.parent.None? && e.child < |g.nodes| && Ordered(WithEdge(g, i, e), h)
    requires SameShape(WithEdge(g, i, e), g') && Untouched(WithEdge(g, i, e), g', h, e.child)
    ensures Grown(g, g', i, e)
  {
    var g1, n := WithEdge(g, i, e), e.child;
    NotBelow(g1, h, n, i);
    RootsKept(g1, g', h, n);
  }

  function Adopted(g: Graph, i: nat, p: nat): Graph
    requires i in g.edges
  {
    WithEdge(g, i, g.edges[i].(parent := Some(p)))
  }

  /** A new edge that carries what node p passes on can become an edge of p. */
  lemma AfterAdoption(g: Graph, h: seq<nat>, i: nat, p: nat)
    requires Good(g, h) && i in g.edges && g.edges[i].parent.None? && p < |g.nodes| && h[g.edges[i].child] < h[p]
    requires !g.nodes[p].driver.Leaf?
    requires UseOf(g.edges[i]) == ChildPerm(g, p, g.edges[i].child, g.edges[i].role, None, Cum(g, p, {}))
    ensures Good(Adopted(g, i, p), h) && (Safe(g) ==> Safe(Adopted(g, i, p)))
  {
    var g' := Adopted(g, i, p);
    forall x: nat | x < |g.nodes|
      ensures ConsistentAt(g', h, x)
    {
      AdoptedAt(g, h, i, p, x);
    }
    AdoptedForm(g, h, i, p);
  }

  lemma AdoptedAt(g: Graph, h: seq<nat>, i: nat, p: nat, x: nat)
    requires Ordered(g, h) && Consistent(g, h) && i in g.edges && g.edges[i].parent.None? && p < |g.nodes|
    requires x < |g.nodes|
    requires UseOf(g.edges[i]) == ChildPerm(g, p, g.edges[i].child, g.edges[i].role, None, Cum(g, p, {}))
    requires Ordered(Adopted(g, i, p), h)
    ensures ConsistentAt(Adopted(g, i, p), h, x)
  {
    var e := g.edges[i];
    CumSameUses(g, Adopted(g, i, p), x);
    ChildPermStable(g, p, e.child, e.role, None, Cum(g, p, {}));
    assert ConsistentAt(g, h, x);
  }

  lemma AdoptedForm(g: Graph, h: seq<nat>, i: nat, p: nat)
    requires Ordered(g, h) && Formed(g, h) && i in g.edges && g.edges[i].parent.None? && p < |g.nodes|
    requires Ordered(Adopted(g, i, p), h)
    requires UseOf(g.edges[i]) == ChildPerm(g, p, g.edges[i].child, g.edges[i].role, None, Cum(g, p, {}))
    ensures Formed(Adopted(g, i, p), h)
  {
    forall j | j in Adopted(g, i, p).edges
      ensures FormedEdge(Adopted(g, i, p), h, j)
    {
      assert FormedEdge(g, h, j);
    }
  }

  lemma CumSameUses(g: Graph, g': Graph, n: nat)
    requires g'.edges.Keys == g.edges.Keys
    requires forall i | i in g.edges :: g'.edges[i].child == g.edges[i].child && UseOf(g'.edges[i]) == UseOf(g.edges[i])
    ensures Cum(g', n, {}) == Cum(g, n, {})
  {
    assert forall i :: Into(g', i, n, {}) <==> Into(g, i, n, {});
    assert forall x: Perm :: Used(g', n, {}, x) <==> Used(g, n, {}, x);
    assert forall x: Perm :: SharedByAll(g', n, {}, x) <==> SharedByAll(g, n, {}, x);
  }

  lemma CumTolerant(g: Graph, n: nat)
    requires Tolerant(g)
    ensures WriteUnchanged in Cum(g, n, {}).shared
  {
    assert SharedByAll(g, n, {}, WriteUnchanged);
  }

  /** The users of a node above n are not touched by an update of n. */
  lemma CumAbove(g: Graph, g': Graph, h: seq<nat>, i: nat, e: Edge, p: nat)
    requires Ordered(g, h) && i !in g.edges && e.parent.None? && e.child < |g.nodes| && p < |g.nodes|
    requires h[e.child] < h[p]
    requires Ordered(WithEdge(g, i, e), h) && SameShape(WithEdge(g, i, e), g')
    requires Untouched(WithEdge(g, i, e), g', h, e.child)
    ensures Cum(g', p, {}) == Cum(g, p, {}) && g'.edges[i] == e
  {
    var g1 := WithEdge(g, i, e);
    NotBelow(g1, h, e.child, i);
    forall j | j in g.edges && g.edges[j].child == p
      ensures g'.edges[j] == g.edges[j]
    {
      NotBelow(g1, h, e.child, j);
    }
    CumSame(g, g', p);
  }

  /** The new edge becomes one of node p. */
  lemma Attached(g: Graph, g': Graph, h: seq<nat>, i: nat, p: nat, e: Edge, v: Use)
    requires Good(g, h) && Good(g', h) && i !in g.edges && p < |g.nodes| && e.child < |g.nodes| && h[e.child] < h[p]
    requires !g.nodes[p].driver.Leaf? && v == ChildPerm(g, p, e.child, e.role, None, Cum(g, p, {}))
    requires e == Edge(None, e.child, e.role, v.perm, v.shared) && Grown(g, g', i, e)
    requires Ordered(WithEdge(g, i, e), h) && SameShape(WithEdge(g, i, e), g')
    requires Untouched(WithEdge(g, i, e), g', h, e.child)
    ensures var g'' := Adopted(g', i, p);
            Good(g'', h) && Grown(g, g'', i, e.(parent := Some(p))) && (Safe(g') ==> Safe(g''))
    ensures OnePath(g, h, e.child) ==> OnePath(WithEdge(g, i, e), h, e.child)
  {
    if OnePath(g, h, e.child) {
      AttachOnePath(g, h, i, e, e.child);
    }
    CumAbove(g, g', h, i, e, p);
    AfterAdoption(g', h, i, p);
    AdoptedGrown(g, g', i, p, e);
  }

  lemma AdoptedGrown(g: Graph, g': Graph, i: nat, p: nat, e: Edge)
    requires i !in g.edges && Grown(g, g', i, e)
    ensures Grown(g, Adopted(g', i, p), i, e.(parent := Some(p)))
  {
  }

  class BlockGraph {
    var g: Graph

    constructor (g: Graph)
      ensures this.g == g
    {
      this.g := g;
    }

    /**
      bdrv_set_perm.  busy holds the nodes above whose edges are still being set;
      all others are consistent in the end, in any acyclic graph.
     */
    method SetPerm(ghost h: seq<nat>, m: nat, u: Use, ghost busy: set<nat>)
      requires Ordered(g, h) && Formed(g, h) && m < |g.nodes| && u == Cum(g, m, {})
      requires Above(h, busy, m) && ConsistentBut(g, h, busy + {m})
      modifies this
      ensures Ordered(g, h) && Formed(g, h) && SameShape(old(g), g) && Untouched(old(g), g, h, m)
      ensures ConsistentBut(g, h, busy)
      decreases h[m], 0
    {
      var todo := set i | i in g.edges && g.edges[i].parent == Some(m);
      while todo != {}
        invariant Ordered(g, h) && Formed(g, h) && SameShape(old(g), g) && Untouched(old(g), g, h, m)
        invariant Cum(g, m, {}) == u && ConsistentBut(g, h, busy + {m})
        invariant forall i | i in todo :: i in g.edges && g.edges[i].parent == Some(m)
        invariant SetSoFar(g, h, m, u, todo)
        decreases todo
      {
        var i :| i in todo;
        ghost var g1 := g;
        ChildSetPerm(h, i, u, busy + {m});
        UntouchedUp(old(g), g1, g, h, m, i);
        AfterTurn(g1, g, h, m, u, i, todo);
        todo := todo - {i};
      }
      SetDone(g, h, m, u, busy);
    }

    /** bdrv_child_set_perm for an edge from a node with users u. */
    method ChildSetPerm(ghost h: seq<nat>, i: nat, u: Use, ghost busy: set<nat>)
      requires Ordered(g, h) && Formed(g, h) && i in g.edges && g.edges[i].parent.Some?
      requires g.edges[i].parent.value in busy
      requires Above(h, busy, g.edges[i].child) && ConsistentBut(g, h, busy)
      modifies this
      ensures Ordered(g, h) && Formed(g, h) && ChildSet(old(g), g, h, i, EdgePerm(old(g), h, i, u))
      ensures ConsistentBut(g, h, busy)
      decreases h[g.edges[i].child], 1
    {
      var v := EdgePerm(g, h, i, u);
      SetEdge(g, h, i, u);
      AfterWrite(g, h, i, v, busy);
      g := WithUse(g, i, v);
      SetPerm(h, g.edges[i].child, Cum(g, g.edges[i].child, {}), busy);
      AfterBelow(old(g), g, h, i, v);
    }

    /**
      bdrv_child_try_set_perm for an edge of an outside user.  If it fails nothing
      changes; if it succeeds the graph is as it must be, and safe where the edge
      reaches each node below by one path.
     */
    method TrySetPerm(ghost h: seq<nat>, i: nat, v: Use) returns (ok: bool)
      requires Good(g, h) && i in g.edges && g.edges[i].parent.None? && WriteUnchanged in v.shared
      modifies this
      ensures ok == CheckUpdate(old(g), h, old(g).edges[i].child, v, {i})
      ensures if ok then Good(g, h) && ChildSet(old(g), g, h, i, v) else g == old(g)
      ensures ok && Safe(old(g)) && OnePath(old(g), h, old(g).edges[i].child) ==> Safe(g)
    {
      ok := CheckUpdate(g, h, g.edges[i].child, v, {i});
      if !ok {
        return;
      }
      SetRoot(g, h, i, v);
      AfterWrite(g, h, i, v, {});
      g := WithUse(g, i, v);
      ghost var g1 := g;
      SetPerm(h, g.edges[i].child, Cum(g, g.edges[i].child, {}), {});
      AfterBelow(old(g), g, h, i, v);
      RootsKept(g1, g, h, g1.edges[i].child);
      SetUpdated(old(g), g, h, i, v);
      WritersKept(old(g), g, h, g.edges[i].child, i, {i});
      IsGood(g, h);
      if Safe(old(g)) && OnePath(old(g), h, old(g).edges[i].child) {
        TrySetIff(old(g), g, h, i, v);
      }
    }

    /** bdrv_root_attach_child; i is the new edge. */
    method RootAttachChild(ghost h: seq<nat>, i: nat, n: nat, role: Role, v: Use) returns (ok: bool)
      requires Good(g, h) && i !in g.edges && n < |g.nodes| && WriteUnchanged in v.shared
      modifies this
      ensures ok == CheckUpdate(old(g), h, n, v, {})
      ensures !ok ==> g == old(g)
      ensures ok ==> Good(g, h) && Grown(old(g), g, i, Edge(None, n, role, v.perm, v.shared))
      ensures ok ==> SameShape(WithEdge(old(g), i, Edge(None, n, role, v.perm, v.shared)), g)
      ensures ok ==> var g1 := WithEdge(old(g), i, Edge(None, n, role, v.perm, v.shared));
                     Ordered(g1, h) && Untouched(g1, g, h, n) && (Safe(old(g)) && OnePath(g1, h, n) ==> Safe(g))
    {
      ok := CheckUpdate(g, h, n, v, {});
      if !ok {
        return;
      }
      var e := Edge(None, n, role, v.perm, v.shared);
      AfterAttach(g, h, i, e);
      g := WithEdge(g, i, e);
      ghost var g1 := g;
      SetPerm(h, n, Cum(g, n, {}), {});
      RootsKept(g1, g, h, n);
      AttachUpdated(old(g), g, h, i, e);
      AttachGrown(old(g), g, h, i, e);
      WritersKept(old(g), g, h, n, i, {});
      IsGood(g, h);
      if Safe(old(g)) && OnePath(g1, h, n) {
        AttachIff(old(g), g, h, i, e);
      }
    }

    /** bdrv_attach_child: node p gets child n. */
    method AttachChild(ghost h: seq<nat>, i: nat, p: nat, n: nat, role: Role) returns (ok: bool)
      requires Good(g, h) && i !in g.edges && p < |g.nodes| && n < |g.nodes| && h[n] < h[p] && !g.nodes[p].driver.Leaf?
      modifies this
      ensures ok == CheckUpdate(old(g), h, n, ChildPerm(old(g), p, n, role, None, Cum(old(g), p, {})), {})
      ensures !ok ==> g == old(g)
      ensures ok ==> var v := ChildPerm(old(g), p, n, role, None, Cum(old(g), p, {}));
                     Good(g, h) && Grown(old(g), g, i, Edge(Some(p), n, role, v.perm, v.shared))
      ensures ok && Safe(old(g)) && OnePath(old(g), h, n) ==> Safe(g)
    {
      CumTolerant(g, p);
      var v := ChildPerm(g, p, n, role, None, Cum(g, p, {}));
      ok := RootAttachChild(h, i, n, role, v);
      if ok {
        Attached(old(g), g, h, i, p, Edge(None, n, role, v.perm, v.shared), v);
        g := Adopted(g, i, p);
      }
    }

    /**
      bdrv_detach_child, and bdrv_replace_child without a new node.  Where ok is
      false the check fails for which the code takes no failure: it aborts.
     */
    method DetachChild(ghost h: seq<nat>, i: nat) returns (ok: bool)
      requires Good(g, h) && i in g.edges
      modifies this
      ensures ok == RemovalCheck(old(g), h, i)
      ensures SafeBelow(old(g), h, old(g).edges[i].child) ==> ok
      ensures ok ==> Good(g, h) && Thinned(old(g), g) && g.edges.Keys == old(g).edges.Keys - {i}
      ensures ok ==> forall x: nat | x < |g.nodes| && NodeSafe(old(g), x) :: NodeSafe(g, x)
      ensures ok && Safe(old(g)) ==> Safe(g)
      ensures !ok ==> g == Without(old(g), i)
    {
      AfterRemoval(g, h, i);
      if SafeBelow(g, h, g.edges[i].child) {
        RemovalChecks(g, h, i);
      }
      var n := g.edges[i].child;
      g := Without(g, i);
      ghost var g1 := g;
      var u := Cum(g, n, {});
      ok := CheckPerm(g, h, n, u, {});
      if !ok {
        return;
      }
      SetPerm(h, n, u, {});
      RootsKept(g1, g, h, n);
      ThinnedSafe(old(g), g, h);
      IsGood(g, h);
    }
  }

  lemma SetUpdated(g: Graph, g': Graph, h: seq<nat>, i: nat, v: Use)
    requires Ordered(g, h) && Ordered(g', h) && i in g.edges && g.edges[i].parent.None? && ChildSet(g, g', h, i, v)
    ensures Updated(g, g', h, g.edges[i].child, i)
  {
    var n := g.edges[i].child;
    forall j | j in g'.edges && j != i && !FromBelow(g', h, n, j)
      ensures g'.edges[j] == g.edges[j]
    {
      if FromBelow(g, h, n, j) {
        SameReach(g, g', h, n, g.edges[j].parent.value);
      }
    }
  }

  lemma AttachUpdated(g: Graph, g': Graph, h: seq<nat>, i: nat, e: Edge)
    requires Ordered(g, h) && Ordered(g', h) && i !in g.edges && e.parent.None? && e.child < |g.nodes|
    requires Ordered(WithEdge(g, i, e), h)
    requires SameShape(WithEdge(g, i, e), g') && Untouched(WithEdge(g, i, e), g', h, e.child)
    ensures Updated(g, g', h, e.child, i) && g'.edges[i] == e
  {
    var g1, n := WithEdge(g, i, e), e.child;
    NotBelow(g1, h, n, i);
    forall j | j in g'.edges && j != i && !FromBelow(g', h, n, j)
      ensures g'.edges[j] == g.edges[j]
    {
      if FromBelow(g1, h, n, j) {
        SameReach(g1, g', h, n, g1.edges[j].parent.value);
      }
    }
  }

  lemma RootsKept(g: Graph, g': Graph, h: seq<nat>, n: nat)
    requires Ordered(g, h) && n < |g.nodes| && SameShape(g, g') && Untouched(g, g', h, n)
    ensures forall j | j in g'.edges && g'.edges[j].parent.None? :: g'.edges[j] == g.edges[j]
  {
    forall j | j in g'.edges && g'.edges[j].parent.None?
      ensures g'.edges[j] == g.edges[j]
    {
      assert !FromBelow(g, h, n, j);
    }
  }

  /** An outside edge adds no path. */
  lemma {:induction false} AttachReach(g: Graph, h: seq<nat>, i: nat, e: Edge, m: nat, x: nat)
    requires Ordered(g, h) && i !in g.edges && e.parent.None? && e.child < |g.nodes| && m < |g.nodes|
    requires Ordered(WithEdge(g, i, e), h)
    ensures Reaches(WithEdge(g, i, e), h, m, x) <==> Reaches(g, h, m, x)
    decreases h[m]
  {
    var g1 := WithEdge(g, i, e);
    forall j | j in g.edges && g.edges[j].parent == Some(m)
      ensures Reaches(g1, h, g.edges[j].child, x) <==> Reaches(g, h, g.edges[j].child, x)
    {
      AttachReach(g, h, i, e, g.edges[j].child, x);
    }
    if m != x && Reaches(g, h, m, x) {
      var j :| j in g.edges && g.edges[j].parent == Some(m) && Reaches(g, h, g.edges[j].child, x);
      assert j in g1.edges && g1.edges[j].parent == Some(m) && Reaches(g1, h, g1.edges[j].child, x);
    }
  }

  lemma {:induction false} AttachOnePath(g: Graph, h: seq<nat>, i: nat, e: Edge, n: nat)
    requires Ordered(g, h) && i !in g.edges && e.parent.None? && e.child < |g.nodes| && n < |g.nodes|
    requires Ordered(WithEdge(g, i, e), h) && OnePath(g, h, n)
    ensures OnePath(WithEdge(g, i, e), h, n)
    decreases h[n]
  {
    var g1 := WithEdge(g, i, e);
    forall j | j in g1.edges && g1.edges[j].parent == Some(n)
      ensures OnePath(g1, h, g1.edges[j].child)
    {
      AttachOnePath(g, h, i, e, g.edges[j].child);
    }
    forall j, k | j in g1.edges && k in g1.edges && g1.edges[j].parent == Some(n) == g1.edges[k].parent && j != k
      ensures Apart(g1, h, j, k)
    {
      assert Apart(g, h, j, k);
      forall x: nat | x < |g.nodes|
        ensures !(Reaches(g1, h, g1.edges[j].child, x) && Reaches(g1, h, g1.edges[k].child, x))
      {
        AttachReach(g, h, i, e, g.edges[j].child, x);
        AttachReach(g, h, i, e, g.edges[k].child, x);
      }
    }
  }
}
