/** Turning nested clusters of controllers into routers and links. */
module ClusterTopology {

  /** A controller, or a cluster of nodes with its bandwidths and latencies; zero
      stands for the default. */
  datatype Node =
    | Controller(id: nat)
    | Cluster(nodes: seq<Node>, intBW: nat, extBW: nat, intLatency: nat, extLatency: nat)

  datatype IntLink = IntLink(id: nat, a: nat, b: nat, bandwidth: nat, latency: nat)

  datatype ExtLink = ExtLink(id: nat, node: Node, router: nat, bandwidth: nat, latency: nat)

  /** The network under construction and the three id counters. */
  datatype Net = Net(routers: seq<nat>, ints: seq<IntLink>, exts: seq<ExtLink>, nr: nat, ni: nat, ne: nat)

  // ---- Specification --------------------------------------------------------------

  function Override(first: nat, second: nat): nat { if first != 0 then first else second }

  function AddRouter(n: Net): Net { n.(routers := n.routers + [n.nr], nr := n.nr + 1) }

  function AddInt(n: Net, c: Node, child: Node, a: nat, b: nat): Net
    requires c.Cluster? && child.Cluster?
  {
    var l := IntLink(n.ni, a, b, Override(child.extBW, c.intBW), Override(child.extLatency, c.intLatency));
    n.(ints := n.ints + [l], ni := n.ni + 1)
  }

  function AddExt(n: Net, c: Node, leaf: Node, router: nat): Net
    requires c.Cluster?
  {
    n.(exts := n.exts + [ExtLink(n.ne, leaf, router, c.intBW, c.intLatency)], ne := n.ne + 1)
  }

  /** The network with cluster c added; its router is the first new one. */
  function Build(n: Net, c: Node): Net
    requires c.Cluster?
    decreases c, |c.nodes| + 1
  {
    BuildNodes(AddRouter(n), c, n.nr, |c.nodes|)
  }

  /** The network with the first k nodes of cluster c connected to its router. */
  function BuildNodes(n: Net, c: Node, router: nat, k: nat): Net
    requires c.Cluster? && k <= |c.nodes|
    decreases c, k
  {
    if k == 0 then n
    else
      var m := BuildNodes(n, c, router, k - 1);
      var node := c.nodes[k - 1];
      if node.Cluster? then AddInt(Build(m, node), c, node, router, m.nr) else AddExt(m, c, node, router)
  }

  /** The number of clusters, c included. */
  function Size(c: Node): nat
    decreases c, if c.Cluster? then |c.nodes| + 1 else 0
  {
    if c.Controller? then 0 else 1 + SizeOf(c, |c.nodes|)
  }

  function SizeOf(c: Node, k: nat): nat
    requires c.Cluster? && k <= |c.nodes|
    decreases c, k
  {
    if k == 0 then 0 else SizeOf(c, k - 1) + Size(c.nodes[k - 1])
  }

  /** The controllers in a node, in order. */
  function Leaves(c: Node): seq<Node>
    decreases c, if c.Cluster? then |c.nodes| + 1 else 0
  {
    if c.Controller? then [c] else LeavesOf(c, |c.nodes|)
  }

  function LeavesOf(c: Node, k: nat): seq<Node>
    requires c.Cluster? && k <= |c.nodes|
    decreases c, k
  {
    if k == 0 then [] else LeavesOf(c, k - 1) + Leaves(c.nodes[k - 1])
  }

  /** The length of a cluster: its own controllers plus the lengths of its clusters. */
  function Len(c: Node): nat
    requires c.Cluster?
    decreases c, |c.nodes| + 1
  {
    Own(c, |c.nodes|) + Inner(c, |c.nodes|)
  }

  function Own(c: Node, k: nat): nat
    requires c.Cluster? && k <= |c.nodes|
    decreases c, k
  {
    if k == 0 then 0 else Own(c, k - 1) + if c.nodes[k - 1].Cluster? then 0 else 1
  }

  function Inner(c: Node, k: nat): nat
    requires c.Cluster? && k <= |c.nodes|
    decreases c, k
  {
    if k == 0 then 0 else Inner(c, k - 1) + if c.nodes[k - 1].Cluster? then Len(c.nodes[k - 1]) else 0
  }

  lemma {:induction false} LenLeaves(c: Node)
    requires c.Cluster?
    ensures Len(c) == |Leaves(c)|
    decreases c, |c.nodes| + 1
  {
    LenLeavesOf(c, |c.nodes|);
  }

  lemma {:induction false} LenLeavesOf(c: Node, k: nat)
    requires c.Cluster? && k <= |c.nodes|
    ensures Own(c, k) + Inner(c, k) == |LeavesOf(c, k)|
    decreases c, k
  {
    if k > 0 {
      LenLeavesOf(c, k - 1);
      if c.nodes[k - 1].Cluster? { LenLeaves(c.nodes[k - 1]); }
    }
  }

  // ---- What is added --------------------------------------------------------------

  function Range(lo: nat, n: nat): (s: seq<nat>)
    ensures |s| == n && forall i :: 0 <= i < n ==> s[i] == lo + i
  {
    seq(n, i requires 0 <= i => lo + i)
  }

  function IntIds(ls: seq<IntLink>): (s: seq<nat>)
    ensures |s| == |ls|
  {
    seq(|ls|, i requires 0 <= i < |ls| => ls[i].id)
  }

  function Targets(ls: seq<IntLink>): (s: seq<nat>)
    ensures |s| == |ls|
  {
    seq(|ls|, i requires 0 <= i < |ls| => ls[i].b)
  }

  function ExtIds(xs: seq<ExtLink>): (s: seq<nat>)
    ensures |s| == |xs|
  {
    seq(|xs|, i requires 0 <= i < |xs| => xs[i].id)
  }

  function Ends(xs: seq<ExtLink>): (s: seq<Node>)
    ensures |s| == |xs|
  {
    seq(|xs|, i requires 0 <= i < |xs| => xs[i].node)
  }

  /** The router is the given one or one of the n from lo on. */
  predicate Among(r: nat, router: nat, lo: nat, n: nat) { r == router || lo <= r < lo + n }

  /** m is n with `size` routers added below `router`, one link into each of them
      from an older one, and a link for each of the leaves. */
  ghost predicate Grown(n: Net, m: Net, router: nat, size: nat, leaves: seq<Node>) {
    && m.nr == n.nr + size && m.ni == n.ni + size && m.ne == n.ne + |leaves|
    && m.routers == n.routers + Range(n.nr, size)
    && |m.ints| == |n.ints| + size && n.ints <= m.ints
    && GrownInts(m.ints[|n.ints|..], router, n.nr, n.ni, size)
    && |m.exts| == |n.exts| + |leaves| && n.exts <= m.exts
    && GrownExts(m.exts[|n.exts|..], router, n.nr, n.ne, size, leaves)
  }

  ghost predicate GrownInts(ls: seq<IntLink>, router: nat, nr: nat, ni: nat, size: nat) {
    && IntIds(ls) == Range(ni, size) && multiset(Targets(ls)) == multiset(Range(nr, size))
    && forall i :: 0 <= i < |ls| ==> Among(ls[i].a, router, nr, size) && ls[i].a < ls[i].b < nr + size
  }

  ghost predicate GrownExts(xs: seq<ExtLink>, router: nat, nr: nat, ne: nat, size: nat, leaves: seq<Node>) {
    && ExtIds(xs) == Range(ne, |leaves|) && Ends(xs) == leaves
    && forall i :: 0 <= i < |xs| ==> Among(xs[i].router, router, nr, size)
  }

  lemma {:induction false} RangeSplit(lo: nat, m: nat, n: nat)
    ensures Range(lo, m) + Range(lo + m, n) == Range(lo, m + n)
  {
  }

  lemma {:induction false} IntsConcat(ls: seq<IntLink>, ks: seq<IntLink>, router: nat, r: nat, nr: nat, ni: nat,
                                      m: nat, n: nat)
    requires GrownInts(ls, router, nr, ni, m) && GrownInts(ks, r, nr + m, ni + m, n) && Among(r, router, nr, m + n)
    ensures GrownInts(ls + ks, router, nr, ni, m + n)
  {
    RangeSplit(nr, m, n);
    RangeSplit(ni, m, n);
    assert IntIds(ls + ks) == IntIds(ls) + IntIds(ks);
    assert Targets(ls + ks) == Targets(ls) + Targets(ks);
  }

  lemma {:induction false} ExtsConcat(xs: seq<ExtLink>, ys: seq<ExtLink>, router: nat, r: nat, nr: nat, ne: nat,
                                      m: nat, n: nat,
                   ps: seq<Node>, qs: seq<Node>)
    requires GrownExts(xs, router, nr, ne, m, ps) && GrownExts(ys, r, nr + m, ne + |ps|, n, qs)
    requires Among(r, router, nr, m + n)
    ensures GrownExts(xs + ys, router, nr, ne, m + n, ps + qs)
  {
    RangeSplit(ne, |ps|, |qs|);
    assert ExtIds(xs + ys) == ExtIds(xs) + ExtIds(ys);
    assert Ends(xs + ys) == Ends(xs) + Ends(ys);
  }

  /** Growth is transitive. */
  lemma {:induction false} GrownTwice(n: Net, m: Net, o: Net, router: nat, r: nat, j: nat, k: nat, ps: seq<Node>,
                                      qs: seq<Node>)
    requires Grown(n, m, router, j, ps) && Grown(m, o, r, k, qs) && Among(r, router, n.nr, j + k)
    ensures Grown(n, o, router, j + k, ps + qs)
  {
    RangeSplit(n.nr, j, k);
    assert o.ints[|n.ints|..] == m.ints[|n.ints|..] + o.ints[|m.ints|..];
    assert o.exts[|n.exts|..] == m.exts[|n.exts|..] + o.exts[|m.exts|..];
    IntsConcat(m.ints[|n.ints|..], o.ints[|m.ints|..], router, r, n.nr, n.ni, j, k);
    ExtsConcat(m.exts[|n.exts|..], o.exts[|m.exts|..], router, r, n.nr, n.ne, j, k, ps, qs);
  }

  lemma {:induction false} SubInts(ls: seq<IntLink>, l: IntLink, router: nat, nr: nat, ni: nat, s: nat)
    requires GrownInts(ls, nr, nr + 1, ni, s) && |ls| == s && l.id == ni + s && l.a == router < nr == l.b
    ensures GrownInts(ls + [l], router, nr, ni, s + 1)
  {
    var all := ls + [l];
    RangeSplit(ni, s, 1);
    assert Range(nr, s + 1) == [nr] + Range(nr + 1, s);
    assert IntIds(all) == IntIds(ls) + [l.id] == Range(ni, s + 1);
    assert Targets(all) == Targets(ls) + [nr];
    assert multiset(Targets(all)) == multiset(Targets(ls)) + multiset{nr};
  }

  /** A cluster built below a router and linked to it. */
  lemma {:induction false} SubCluster(n: Net, m: Net, c: Node, child: Node, router: nat, s: nat)
    requires c.Cluster? && child.Cluster? && router < n.nr && Grown(AddRouter(n), m, n.nr, s, Leaves(child))
    ensures Grown(n, AddInt(m, c, child, router, n.nr), router, s + 1, Leaves(child))
  {
    var o := AddInt(m, c, child, router, n.nr);
    assert n.routers + [n.nr] + Range(n.nr + 1, s) == n.routers + Range(n.nr, s + 1);
    assert o.ints[|n.ints|..] == m.ints[|n.ints|..] + [o.ints[|m.ints|]];
    SubInts(m.ints[|n.ints|..], o.ints[|m.ints|], router, n.nr, n.ni, s);
    assert n.ints <= o.ints;
  }

  lemma {:induction false} LeafGrown(n: Net, c: Node, leaf: Node, router: nat)
    requires c.Cluster? && leaf.Controller?
    ensures Grown(n, AddExt(n, c, leaf, router), router, 0, [leaf])
  {
    var o := AddExt(n, c, leaf, router);
    assert o.exts[|n.exts|..] == [o.exts[|n.exts|]];
    assert Ends(o.exts[|n.exts|..]) == [leaf];
    assert n.routers + Range(n.nr, 0) == n.routers;
    assert o.ints[|n.ints|..] == [];
    assert Targets([]) == Range(n.nr, 0);
  }

  lemma {:induction false} BuildNodesGrows(n: Net, c: Node, router: nat, k: nat)
    requires c.Cluster? && k <= |c.nodes| && router < n.nr
    ensures Grown(n, BuildNodes(n, c, router, k), router, SizeOf(c, k), LeavesOf(c, k))
    decreases c, k, 1
  {
    if k == 0 {
      assert n.routers + Range(n.nr, 0) == n.routers;
      assert Targets([]) == Range(n.nr, 0);
    } else {
      BuildNodesGrows(n, c, router, k - 1);
      var m := BuildNodes(n, c, router, k - 1);
      NodeGrows(m, c, router, k);
      GrownTwice(n, m, BuildNodes(n, c, router, k), router, router, SizeOf(c, k - 1), Size(c.nodes[k - 1]),
                 LeavesOf(c, k - 1), Leaves(c.nodes[k - 1]));
    }
  }

  /** The network with node number k - 1 of cluster c connected. */
  function BuildNode(m: Net, c: Node, router: nat, k: nat): Net
    requires c.Cluster? && 0 < k <= |c.nodes|
  {
    var node := c.nodes[k - 1];
    if node.Cluster? then AddInt(Build(m, node), c, node, router, m.nr) else AddExt(m, c, node, router)
  }

  lemma {:induction false} NodeGrows(m: Net, c: Node, router: nat, k: nat)
    requires c.Cluster? && 0 < k <= |c.nodes| && router < m.nr
    ensures Grown(m, BuildNode(m, c, router, k), router, Size(c.nodes[k - 1]), Leaves(c.nodes[k - 1]))
    decreases c, k, 0
  {
    var node := c.nodes[k - 1];
    if node.Cluster? {
      BuildNodesGrows(AddRouter(m), node, m.nr, |node.nodes|);
      SubCluster(m, Build(m, node), c, node, router, SizeOf(node, |node.nodes|));
    } else {
      LeafGrown(m, c, node, router);
    }
  }

  // ---- Which link is which -----------------------------------------------------------

  /** An external link without its number: the controller, the router of the cluster it
      is directly in, and that cluster's internal bandwidth and latency. */
  datatype Port = Port(node: Node, router: nat, bandwidth: nat, latency: nat)

  /** An internal link without its number, from a cluster's router to that of a cluster
      directly in it. */
  datatype Edge = Edge(a: nat, b: nat, bandwidth: nat, latency: nat)

  function PortOf(x: ExtLink): Port { Port(x.node, x.router, x.bandwidth, x.latency) }

  function EdgeOf(l: IntLink): Edge { Edge(l.a, l.b, l.bandwidth, l.latency) }

  function PortsOf(xs: seq<ExtLink>): (ps: seq<Port>)
    ensures |ps| == |xs| && forall i :: 0 <= i < |xs| ==> ps[i] == PortOf(xs[i])
  {
    seq(|xs|, i requires 0 <= i < |xs| => PortOf(xs[i]))
  }

  function EdgesOf(ls: seq<IntLink>): (es: seq<Edge>)
    ensures |es| == |ls| && forall i :: 0 <= i < |ls| ==> es[i] == EdgeOf(ls[i])
  {
    seq(|ls|, i requires 0 <= i < |ls| => EdgeOf(ls[i]))
  }

  /** The router of cluster c's node number k, if c's own is r: clusters are numbered as
      they begin. */
  function RouterOf(c: Node, r: nat, k: nat): nat
    requires c.Cluster? && k <= |c.nodes|
  {
    r + 1 + SizeOf(c, k)
  }

  /** The ports of the first k nodes of cluster c, whose router is r. */
  function Ports(c: Node, r: nat, k: nat): seq<Port>
    requires c.Cluster? && k <= |c.nodes|
    decreases c, k
  {
    if k == 0 then []
    else
      var node := c.nodes[k - 1];
      Ports(c, r, k - 1) +
      if node.Cluster? then Ports(node, RouterOf(c, r, k - 1), |node.nodes|)
      else [Port(node, r, c.intBW, c.intLatency)]
  }

  /** The edges of the first k nodes of cluster c: an inner cluster's external values, if
      it has them, are used on the edge to it. */
  function Edges(c: Node, r: nat, k: nat): seq<Edge>
    requires c.Cluster? && k <= |c.nodes|
    decreases c, k
  {
    if k == 0 then []
    else
      var node := c.nodes[k - 1];
      Edges(c, r, k - 1) +
      if node.Cluster? then
        var b := RouterOf(c, r, k - 1);
        Edges(node, b, |node.nodes|) +
        [Edge(r, b, if node.extBW == 0 then c.intBW else node.extBW,
              if node.extLatency == 0 then c.intLatency else node.extLatency)]
      else []
  }

  /** m is n with the given ports and edges added. */
  ghost predicate Wired(n: Net, m: Net, ps: seq<Port>, es: seq<Edge>) {
    PortsOf(m.exts) == PortsOf(n.exts) + ps && EdgesOf(m.ints) == EdgesOf(n.ints) + es
  }

  lemma {:induction false} NodesWired(n: Net, c: Node, router: nat, k: nat)
    requires c.Cluster? && k <= |c.nodes| && n.nr == router + 1
    ensures Wired(n, BuildNodes(n, c, router, k), Ports(c, router, k), Edges(c, router, k))
    decreases c, k, 1
  {
    if k > 0 {
      var m := BuildNodes(n, c, router, k - 1);
      NodesWired(n, c, router, k - 1);
      BuildNodesGrows(n, c, router, k - 1);
      NodeWired(m, c, router, k);
    }
  }

  lemma {:induction false} NodeWired(m: Net, c: Node, router: nat, k: nat)
    requires c.Cluster? && 0 < k <= |c.nodes| && m.nr == RouterOf(c, router, k - 1)
    ensures var node := c.nodes[k - 1];
            Wired(m, BuildNode(m, c, router, k),
                  if node.Cluster? then Ports(node, m.nr, |node.nodes|)
                  else [Port(node, router, c.intBW, c.intLatency)],
                  if node.Cluster? then
                    Edges(node, m.nr, |node.nodes|) +
                    [Edge(router, m.nr, if node.extBW == 0 then c.intBW else node.extBW,
                          if node.extLatency == 0 then c.intLatency else node.extLatency)]
                  else [])
    decreases c, k, 0
  {
    var node := c.nodes[k - 1];
    if node.Cluster? {
      NodesWired(AddRouter(m), node, m.nr, |node.nodes|);
      var o := Build(m, node);
      assert EdgesOf(AddInt(o, c, node, router, m.nr).ints) ==
        EdgesOf(o.ints) + [EdgeOf(AddInt(o, c, node, router, m.nr).ints[|o.ints|])];
    } else {
      assert PortsOf(AddExt(m, c, node, router).exts) == PortsOf(m.exts) + [Port(node, router, c.intBW, c.intLatency)];
      assert EdgesOf(m.ints) + [] == EdgesOf(m.ints);
    }
  }

  /** Every controller is connected to the router of the cluster it is directly in, every
      cluster to that of the cluster around it, with the right bandwidths and latencies. */
  lemma {:induction false} Wiring(c: Node)
    requires c.Cluster?
    ensures PortsOf(Build(EMPTY, c).exts) == Ports(c, 0, |c.nodes|)
    ensures EdgesOf(Build(EMPTY, c).ints) == Edges(c, 0, |c.nodes|)
  {
    NodesWired(AddRouter(EMPTY), c, 0, |c.nodes|);
    assert PortsOf([]) == [] && EdgesOf([]) == [];
  }

  // ---- The finished topology ------------------------------------------------------

  const EMPTY := Net([], [], [], 0, 0, 0)

  /** From fresh counters: routers 0 to R - 1, with R - 1 internal links numbered
      from 0, one into each router but the first, from an older one; and one
      external link for each controller, in order, numbered from 0. */
  lemma {:induction false} Topology(c: Node)
    requires c.Cluster?
    ensures var m := Build(EMPTY, c);
            && m.routers == Range(0, Size(c))
            && IntIds(m.ints) == Range(0, Size(c) - 1)
            && multiset(Targets(m.ints)) == multiset(Range(1, Size(c) - 1))
            && (forall i :: 0 <= i < |m.ints| ==> m.ints[i].a < m.ints[i].b < Size(c))
            && ExtIds(m.exts) == Range(0, Len(c)) && Ends(m.exts) == Leaves(c)
            && (forall i :: 0 <= i < |m.exts| ==> m.exts[i].router < Size(c))
  {
    var n := AddRouter(EMPTY);
    BuildNodesGrows(n, c, 0, |c.nodes|);
    LenLeaves(c);
    var m := Build(EMPTY, c);
    assert [0] + Range(1, Size(c) - 1) == Range(0, Size(c));
    assert m.ints[0..] == m.ints && m.exts[0..] == m.exts;
  }

  predicate Linked(ls: seq<IntLink>, a: nat, b: nat) { exists k :: 0 <= k < |ls| && ls[k].a == a && ls[k].b == b }

  /** p follows internal links. */
  predicate IsPath(ls: seq<IntLink>, p: seq<nat>) {
    forall i :: 0 <= i < |p| - 1 ==> Linked(ls, p[i], p[i + 1])
  }

  /** The links are a spanning tree: every router is reached from router 0, and
      there is one link less than there are routers. */
  lemma {:induction false} Spanning(c: Node, r: nat) returns (p: seq<nat>)
    requires c.Cluster? && r < Size(c)
    ensures |Build(EMPTY, c).ints| == |Build(EMPTY, c).routers| - 1
    ensures p != [] && p[0] == 0 && p[|p| - 1] == r && IsPath(Build(EMPTY, c).ints, p)
    decreases r
  {
    Topology(c);
    var ls := Build(EMPTY, c).ints;
    if r == 0 {
      p := [0];
    } else {
      assert Range(1, Size(c) - 1)[r - 1] == r;
      assert r in multiset(Targets(ls));
      var k :| 0 <= k < |ls| && Targets(ls)[k] == r;
      var q := Spanning(c, ls[k].a);
      p := q + [r];
      PathExtended(ls, q, k);
    }
  }

  lemma {:induction false} PathExtended(ls: seq<IntLink>, q: seq<nat>, k: nat)
    requires q != [] && IsPath(ls, q) && k < |ls| && ls[k].a == q[|q| - 1]
    ensures IsPath(ls, q + [ls[k].b])
  {
    var p := q + [ls[k].b];
    forall i | 0 <= i < |p| - 1 ensures Linked(ls, p[i], p[i + 1]) {
      assert i < |q| - 1 ==> Linked(ls, q[i], q[i + 1]);
    }
  }

  // ---- The builder ----------------------------------------------------------------

  class Network {
    var net: Net

    constructor ()
      ensures net == EMPTY
    {
      net := EMPTY;
    }

    method MakeTopology(c: Node) returns (router: nat)
      requires c.Cluster?
      modifies this
      ensures net == Build(old(net), c) && router == old(net).nr
      decreases c
    {
      router := net.nr;
      net := net.(routers := net.routers + [router], nr := net.nr + 1);
      ghost var start := net;
      for k := 0 to |c.nodes|
        invariant net == BuildNodes(start, c, router, k)
      {
        var node := c.nodes[k];
        if node.Cluster? {
          var sub := MakeTopology(node);
          var bandwidth := if node.extBW != 0 then node.extBW else c.intBW;
          var latency := if node.extLatency != 0 then node.extLatency else c.intLatency;
          net := net.(ints := net.ints + [IntLink(net.ni, router, sub, bandwidth, latency)], ni := net.ni + 1);
        } else {
          net := net.(exts := net.exts + [ExtLink(net.ne, node, router, c.intBW, c.intLatency)], ne := net.ne + 1);
        }
      }
    }
  }
}
