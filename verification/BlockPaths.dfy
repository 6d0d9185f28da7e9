/**
  The recursive check path by path (qemu/block.c): which uses it compares with
  which edges, and what that says about loosening and about writers.
 */
module BlockPaths {
  import opened Basics
  import opened BlockPerm

  /** Two users of a node do not tolerate each other. */
  predicate Clash(u: Use, v: Use) {
    !(u.perm <= v.shared && v.perm <= u.shared)
  }

  /** What all users of k's child do together once k carries w and the other edges stay. */
  function Joined(g: Graph, k: nat, w: Use): Use
    requires k in g.edges
  {
    var n := g.edges[k].child;
    Use(w.perm + CumPerm(g, n, {k}), w.shared * CumShared(g, n, {k}))
  }

  /** w on edge k is tolerated by the other edges into the same node, as they are. */
  ghost predicate Tolerated(g: Graph, k: nat, w: Use)
    requires k in g.edges
  {
    forall j | j in g.edges :: Into(g, j, g.edges[k].child, {k}) ==> !Clash(w, UseOf(g.edges[j]))
  }

  /** A path of edges down from node m. */
  ghost predicate Down(g: Graph, m: nat, path: seq<nat>)
    decreases |path|
  {
    path == [] || (path[0] in g.edges && g.edges[path[0]].parent == Some(m)
                   && Down(g, g.edges[path[0]].child, path[1..]))
  }

  ghost function EndOf(g: Graph, m: nat, path: seq<nat>): nat
    requires Down(g, m, path)
    decreases |path|
  {
    if path == [] then m else EndOf(g, g.edges[path[0]].child, path[1..])
  }

  /** What the users of the last node do together, when only the path carries on a use u of m. */
  ghost function Carried(g: Graph, h: seq<nat>, m: nat, u: Use, path: seq<nat>): Use
    requires Ordered(g, h) && Down(g, m, path)
    decreases |path|
  {
    if path == [] then u
    else Carried(g, h, g.edges[path[0]].child, Joined(g, path[0], EdgePerm(g, h, path[0], u)), path[1..])
  }

  /** What the last edge of the path then carries. */
  ghost function LastUse(g: Graph, h: seq<nat>, m: nat, u: Use, path: seq<nat>): Use
    requires Ordered(g, h) && Down(g, m, path) && path != []
    decreases |path|
  {
    var w := EdgePerm(g, h, path[0], u);
    if |path| == 1 then w else LastUse(g, h, g.edges[path[0]].child, Joined(g, path[0], w), path[1..])
  }

  /** A path of one edge. */
  lemma OneEdge(g: Graph, h: seq<nat>, m: nat, u: Use, k: nat)
    requires Ordered(g, h) && k in g.edges && g.edges[k].parent == Some(m)
    ensures Down(g, m, [k]) && LastUse(g, h, m, u, [k]) == EdgePerm(g, h, k, u)
  {
    assert [k][1..] == [];
  }

  lemma {:induction false} LastDown(g: Graph, m: nat, path: seq<nat>)
    requires Down(g, m, path) && path != []
    ensures path[|path| - 1] in g.edges && g.edges[path[|path| - 1]].child == EndOf(g, m, path)
    decreases |path|
  {
    if |path| > 1 {
      LastDown(g, g.edges[path[0]].child, path[1..]);
    }
  }

  /** The end of the path passes: its node is writable if it is written to, and the last edge is tolerated. */
  ghost predicate PathOk(g: Graph, h: seq<nat>, m: nat, u: Use, path: seq<nat>)
    requires Ordered(g, h) && m < |g.nodes| && Down(g, m, path)
    decreases |path|
  {
    if path == [] then Writes(u.perm) ==> g.nodes[m].Writable()
    else
      var w := EdgePerm(g, h, path[0], u);
      && (|path| == 1 ==> Tolerated(g, path[0], w))
      && PathOk(g, h, g.edges[path[0]].child, Joined(g, path[0], w), path[1..])
  }

  ghost predicate PathsOk(g: Graph, h: seq<nat>, m: nat, u: Use)
    requires Ordered(g, h) && m < |g.nodes|
  {
    forall path | Down(g, m, path) :: PathOk(g, h, m, u, path)
  }

  /** Of the ignored edges only the last one enters the node. */
  lemma IgnoreLast(g: Graph, h: seq<nat>, k: nat, ignore: set<nat>)
    requires Ordered(g, h) && k in g.edges && PathTo(g, h, g.edges[k].child, k, ignore)
    ensures forall j :: Into(g, j, g.edges[k].child, ignore) <==> Into(g, j, g.edges[k].child, {k})
    ensures CumPerm(g, g.edges[k].child, ignore) == CumPerm(g, g.edges[k].child, {k})
    ensures CumShared(g, g.edges[k].child, ignore) == CumShared(g, g.edges[k].child, {k})
  {
    var n := g.edges[k].child;
    forall j
      ensures Into(g, j, n, ignore) <==> Into(g, j, n, {k})
    {
    }
    assert forall x: Perm :: Used(g, n, ignore, x) <==> Used(g, n, {k}, x);
    assert forall x: Perm :: SharedByAll(g, n, ignore, x) <==> SharedByAll(g, n, {k}, x);
  }

  /** One edge of the check. */
  lemma EdgeCheck(g: Graph, h: seq<nat>, k: nat, w: Use, ignore: set<nat>)
    requires Ordered(g, h) && Tolerant(g) && k in g.edges && WriteUnchanged in w.shared
    requires PathTo(g, h, g.edges[k].child, k, ignore)
    ensures WriteUnchanged in Joined(g, k, w).shared
    ensures CheckUpdate(g, h, g.edges[k].child, w, ignore) <==>
              Tolerated(g, k, w) && CheckPerm(g, h, g.edges[k].child, Joined(g, k, w), ignore)
  {
    IgnoreLast(g, h, k, ignore);
    assert SharedByAll(g, g.edges[k].child, {k}, WriteUnchanged);
  }

  /** The check from node m accepts u exactly if every path down from m passes. */
  lemma {:induction false} PathsIff(g: Graph, h: seq<nat>, m: nat, u: Use, ignore: set<nat>)
    requires Ordered(g, h) && Tolerant(g) && m < |g.nodes| && WriteUnchanged in u.shared
    requires forall j | j in ignore && j in g.edges :: h[g.edges[j].child] >= h[m]
    ensures CheckPerm(g, h, m, u, ignore) <==> PathsOk(g, h, m, u)
    decreases h[m]
  {
    forall k | k in g.edges && g.edges[k].parent == Some(m)
      ensures CheckUpdate(g, h, g.edges[k].child, EdgePerm(g, h, k, u), ignore + {k}) <==> EdgePathsOk(g, h, k, u)
    {
      var w := EdgePerm(g, h, k, u);
      EdgeCheck(g, h, k, w, ignore + {k});
      PathsIff(g, h, g.edges[k].child, Joined(g, k, w), ignore + {k});
    }
    PathsSplit(g, h, m, u);
  }

  /** Every path that starts with edge k passes. */
  ghost predicate EdgePathsOk(g: Graph, h: seq<nat>, k: nat, u: Use)
    requires Ordered(g, h) && k in g.edges && g.edges[k].parent.Some?
  {
    var w := EdgePerm(g, h, k, u);
    Tolerated(g, k, w) && PathsOk(g, h, g.edges[k].child, Joined(g, k, w))
  }

  lemma PathsSplit(g: Graph, h: seq<nat>, m: nat, u: Use)
    requires Ordered(g, h) && m < |g.nodes|
    ensures PathsOk(g, h, m, u) <==>
              && (Writes(u.perm) ==> g.nodes[m].Writable())
              && forall k | k in g.edges && g.edges[k].parent == Some(m) :: EdgePathsOk(g, h, k, u)
  {
    if PathsOk(g, h, m, u) {
      assert Down(g, m, []);
      assert PathOk(g, h, m, u, []);
      forall k | k in g.edges && g.edges[k].parent == Some(m)
        ensures EdgePathsOk(g, h, k, u)
      {
        EdgePaths(g, h, m, u, k);
      }
    }
    if (Writes(u.perm) ==> g.nodes[m].Writable())
       && forall k | k in g.edges && g.edges[k].parent == Some(m) :: EdgePathsOk(g, h, k, u)
    {
      forall path | Down(g, m, path)
        ensures PathOk(g, h, m, u, path)
      {
        if path != [] {
          assert EdgePathsOk(g, h, path[0], u);
        }
      }
    }
  }

  lemma EdgePaths(g: Graph, h: seq<nat>, m: nat, u: Use, k: nat)
    requires Ordered(g, h) && m < |g.nodes| && PathsOk(g, h, m, u) && k in g.edges && g.edges[k].parent == Some(m)
    ensures EdgePathsOk(g, h, k, u)
  {
    var n, w := g.edges[k].child, EdgePerm(g, h, k, u);
    assert Down(g, n, []);
    forall path | Down(g, n, path)
      ensures PathOk(g, h, n, Joined(g, k, w), path) && (path == [] ==> Tolerated(g, k, w))
    {
      assert ([k] + path)[1..] == path;
      assert Down(g, m, [k] + path) && PathOk(g, h, m, u, [k] + path);
    }
  }

  /** What a path must pass, said of its end. */
  lemma {:induction false} PathOkIs(g: Graph, h: seq<nat>, m: nat, u: Use, path: seq<nat>)
    requires Ordered(g, h) && m < |g.nodes| && Down(g, m, path)
    ensures EndOf(g, m, path) < |g.nodes| && (path != [] ==> path[|path| - 1] in g.edges)
    ensures PathOk(g, h, m, u, path) <==>
              && (path != [] ==> Tolerated(g, path[|path| - 1], LastUse(g, h, m, u, path)))
              && (Writes(Carried(g, h, m, u, path).perm) ==> g.nodes[EndOf(g, m, path)].Writable())
    decreases |path|
  {
    if path != [] {
      var n, v := g.edges[path[0]].child, Joined(g, path[0], EdgePerm(g, h, path[0], u));
      PathOkIs(g, h, n, v, path[1..]);
    }
  }

  // Loosening.

  /** u loosens what the users of m do, and the nodes below are consistent. */
  ghost predicate LooseFrom(g: Graph, h: seq<nat>, m: nat, u: Use)
    requires Ordered(g, h) && m < |g.nodes|
  {
    && PassesLess(g, h, m, u) && Looser(u, Cum(g, m, {}))
    && forall x: nat | x < |g.nodes| && h[x] < h[m] :: ConsistentAt(g, h, x)
  }

  lemma LooseStep(g: Graph, h: seq<nat>, m: nat, u: Use, k: nat)
    requires Ordered(g, h) && m < |g.nodes| && LooseFrom(g, h, m, u) && k in g.edges && g.edges[k].parent == Some(m)
    ensures LooseFrom(g, h, g.edges[k].child, Joined(g, k, EdgePerm(g, h, k, u)))
  {
    var n, w := g.edges[k].child, EdgePerm(g, h, k, u);
    LooserCum(g, h, n, w, k, {k});
    ConsistentPasses(g, h, n, Joined(g, k, w));
  }

  /** Then every edge on a path, and every node, is loosened. */
  lemma {:induction false} LooseAlong(g: Graph, h: seq<nat>, m: nat, u: Use, path: seq<nat>)
    requires Ordered(g, h) && m < |g.nodes| && LooseFrom(g, h, m, u) && Down(g, m, path)
    ensures Looser(Carried(g, h, m, u, path), Cum(g, EndOf(g, m, path), {}))
    ensures path != [] ==>
              path[|path| - 1] in g.edges && Looser(LastUse(g, h, m, u, path), UseOf(g.edges[path[|path| - 1]]))
    decreases |path|
  {
    if path != [] {
      LooseStep(g, h, m, u, path[0]);
      LooseAlong(g, h, g.edges[path[0]].child, Joined(g, path[0], EdgePerm(g, h, path[0], u)), path[1..]);
    }
  }

  /** Edge j clashes with k, into the same node, as both are. */
  predicate ClashNow(g: Graph, k: nat, j: nat)
    requires k in g.edges
  {
    Into(g, j, g.edges[k].child, {k}) && Clash(UseOf(g.edges[k]), UseOf(g.edges[j]))
  }

  /** The loosened last edge of the path no longer clashes with those that it clashes with now. */
  ghost predicate ClashesEnd(g: Graph, h: seq<nat>, m: nat, u: Use, path: seq<nat>)
    requires Ordered(g, h) && Down(g, m, path) && path != []
  {
    LastDown(g, m, path);
    forall j | j in g.edges :: ClashNow(g, path[|path| - 1], j) ==> !Clash(LastUse(g, h, m, u, path), UseOf(g.edges[j]))
  }

  /**
    Loosening passes the check exactly if, along every path, it ends the clashes
    that the last edge of the path has with the others into its node.
   */
  lemma LooseIff(g: Graph, h: seq<nat>, m: nat, u: Use)
    requires Ordered(g, h) && Tolerant(g) && WritersAllowed(g) && m < |g.nodes| && WriteUnchanged in u.shared
    requires LooseFrom(g, h, m, u)
    ensures CheckPerm(g, h, m, u, {}) <==> forall path | Down(g, m, path) && path != [] :: ClashesEnd(g, h, m, u, path)
  {
    PathsIff(g, h, m, u, {});
    forall path | Down(g, m, path)
      ensures PathOk(g, h, m, u, path) <==> path == [] || ClashesEnd(g, h, m, u, path)
    {
      LoosePath(g, h, m, u, path);
    }
  }

  lemma LoosePath(g: Graph, h: seq<nat>, m: nat, u: Use, path: seq<nat>)
    requires Ordered(g, h) && WritersAllowed(g) && m < |g.nodes| && LooseFrom(g, h, m, u) && Down(g, m, path)
    ensures PathOk(g, h, m, u, path) <==> path == [] || ClashesEnd(g, h, m, u, path)
  {
    PathOkIs(g, h, m, u, path);
    LooseAlong(g, h, m, u, path);
    WritersCum(g, EndOf(g, m, path));
    if path != [] {
      LastDown(g, m, path);
    }
  }

  // Writers.

  /** Whether a permission is passed on depends on that permission alone. */
  lemma PassedAlone(g: Graph, h: seq<nat>, k: nat, u: Use, v: Use, p: Perm)
    requires Ordered(g, h) && k in g.edges && g.edges[k].parent.Some?
    requires p in EdgePerm(g, h, k, u).perm && (p in u.perm ==> p in v.perm)
    ensures p in EdgePerm(g, h, k, v).perm
  {
  }

  /** One more edge at the end of a path. */
  lemma {:induction false} CarriedMore(g: Graph, h: seq<nat>, m: nat, u: Use, path: seq<nat>, k: nat)
    requires Ordered(g, h) && Down(g, m, path) && k in g.edges && g.edges[k].parent == Some(EndOf(g, m, path))
    ensures Down(g, m, path + [k]) && EndOf(g, m, path + [k]) == g.edges[k].child
    ensures Carried(g, h, m, u, path + [k]) == Joined(g, k, EdgePerm(g, h, k, Carried(g, h, m, u, path)))
    decreases |path|
  {
    if path == [] {
      assert path + [k] == [k] && [k][1..] == [];
    } else {
      CarriedMore(g, h, g.edges[path[0]].child, Joined(g, path[0], EdgePerm(g, h, path[0], u)), path[1..], k);
      assert (path + [k])[0] == path[0] && (path + [k])[1..] == path[1..] + [k];
    }
  }

  /** A path carries permission p down to node x. */
  ghost predicate Brings(g: Graph, h: seq<nat>, n: nat, v: Use, p: Perm, x: nat)
    requires Ordered(g, h)
  {
    exists path | Down(g, n, path) :: EndOf(g, n, path) == x && p in Carried(g, h, n, v, path).perm
  }
}
