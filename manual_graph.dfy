/**
  The manually authored navigation graph: a node list and a connection list are turned into
  an adjacency map, every node gets a floor read from its id suffix, the nodes declared
  before the first-floor section are forced onto the ground floor, and the remaining floors
  are filled in by a breadth-first traversal that never crosses a stair/lift-to-stair/lift
  edge.
*/
module ManualGraph {
  import opened Wrappers
  import opened JsText
  import opened NavModel

  /** One entry `{ id, x, y, type }` of the node table. */
  datatype NodeDef = NodeDef(id: string, x: real, y: real, kind: string)

  /** One entry `{ from, to }` of the connection table. */
  datatype Connection = Connection(from: string, to: string)

  /** One graph entry `{ x, y, type, edges, floor }`; `floor` is `null` until known. */
  datatype FloorNode = FloorNode(x: real, y: real, kind: string, edges: seq<Edge>, floor: Option<string>)

  type FloorGraph = map<string, FloorNode>

  /** The same graph seen as the search graph (coordinates and edges only). */
  function ToNav(g: FloorGraph): (r: Graph)
    ensures r.Keys == g.Keys
    ensures forall k :: k in g ==> r[k] == NavNode(g[k].x, g[k].y, g[k].edges)
  {
    map k | k in g :: NavNode(g[k].x, g[k].y, g[k].edges)
  }

  // ---------------------------------------------------------------------------------------
  // Floor from the id suffix
  // ---------------------------------------------------------------------------------------

  /**
    `getFloorFromNodeId`: the floor named by an `_G`, `_1` or `_2` suffix, and `null` for
    the empty id and for every other id. The three suffixes exclude each other, so the order
    in which the source tests them never matters.
  */
  function FloorFromNodeId(id: string): (f: Option<string>)
    ensures f.Some? ==> (f.value == "G" || f.value == "1" || f.value == "2") && EndsWith(id, "_" + f.value)
    ensures f.None? <==> !EndsWith(id, "_G") && !EndsWith(id, "_1") && !EndsWith(id, "_2")
  {
    if id == "" then None
    else if EndsWith(id, "_G") then Some("G")
    else if EndsWith(id, "_2") then Some("2")
    else if EndsWith(id, "_1") then Some("1")
    else None
  }

  // ---------------------------------------------------------------------------------------
  // Node initialisation
  // ---------------------------------------------------------------------------------------

  /** The map the node table leaves behind: each id bound to its last definition. */
  function Definitions(defs: seq<NodeDef>): (m: map<string, NodeDef>)
    ensures forall x :: x in m <==> exists i :: 0 <= i < |defs| && defs[i].id == x
    ensures forall x :: x in m ==> m[x].id == x
  {
    if |defs| == 0 then map[]
    else
      var last := defs[|defs| - 1];
      var m := Definitions(defs[..|defs| - 1]);
      assert forall i :: 0 <= i < |defs| - 1 ==> defs[..|defs| - 1][i] == defs[i];
      m[last.id := last]
  }

  /** A definition that no later entry redefines is the one the graph keeps. */
  lemma {:induction false} LastDefinitionWins(defs: seq<NodeDef>, i: nat)
    requires i < |defs| && forall j :: i < j < |defs| ==> defs[j].id != defs[i].id
    ensures Definitions(defs)[defs[i].id] == defs[i]
  {
    if i < |defs| - 1 {
      var init := defs[..|defs| - 1];
      assert init[i] == defs[i];
      LastDefinitionWins(init, i);
    }
  }

  /**
    The order in which `Object.keys` lists the ids of an object filled from the node table:
    each id once, at the place of its first definition.
  */
  function KeyOrder(defs: seq<NodeDef>): (r: seq<string>)
    ensures forall x :: x in r <==> x in Definitions(defs)
    ensures forall i, j :: 0 <= i < j < |r| ==> r[i] != r[j]
  {
    if |defs| == 0 then []
    else
      var d := KeyOrder(defs[..|defs| - 1]);
      assert forall x :: x in Definitions(defs) <==> x in Definitions(defs[..|defs| - 1]) || x == defs[|defs| - 1].id;
      if defs[|defs| - 1].id in d then d else d + [defs[|defs| - 1].id]
  }

  /** The entry created for a definition: no edges yet, and the floor its id suffix names. */
  function NewNode(d: NodeDef): (n: FloorNode)
    ensures n.edges == [] && n.floor == FloorFromNodeId(d.id)
    ensures n.x == d.x && n.y == d.y && n.kind == d.kind
  {
    FloorNode(d.x, d.y, d.kind, [], FloorFromNodeId(d.id))
  }

  /**
    The `navigationNodes.forEach` initialisation: one entry per distinct id, made from the
    id's last definition, and the ids in first-definition order.
  */
  method InitNodes(defs: seq<NodeDef>) returns (g: FloorGraph, keys: seq<string>)
    ensures keys == KeyOrder(defs)
    ensures g.Keys == Definitions(defs).Keys
    ensures forall x :: x in g ==> g[x] == NewNode(Definitions(defs)[x])
  {
    g := map[];
    keys := [];
    for i := 0 to |defs|
      invariant keys == KeyOrder(defs[..i])
      invariant g.Keys == Definitions(defs[..i]).Keys
      invariant forall x :: x in g ==> g[x] == NewNode(Definitions(defs[..i])[x])
    {
      var d := defs[i];
      assert defs[..i + 1][..i] == defs[..i];
      assert d.id in keys <==> d.id in g;
      if d.id !in g {
        keys := keys + [d.id];
      }
      g := g[d.id := NewNode(d)];
    }
    assert defs[..|defs|] == defs;
  }

  // ---------------------------------------------------------------------------------------
  // Connections
  // ---------------------------------------------------------------------------------------

  /** x, y, type and floor of every node are as in `g0`; only the edges may differ. */
  ghost predicate SameButEdges(g0: FloorGraph, g: FloorGraph) {
    g.Keys == g0.Keys
    && forall k :: k in g ==> g[k].x == g0[k].x && g[k].y == g0[k].y && g[k].kind == g0[k].kind && g[k].floor == g0[k].floor
  }

  /** `Symmetric` of the search graph, stated on the builder's own nodes. */
  ghost predicate EdgesSymmetric(g: FloorGraph) {
    forall a, e :: a in g && e in g[a].edges ==> e.to in g && Edge(a, e.w) in g[e.to].edges
  }

  lemma SymmetricToNav(g: FloorGraph)
    requires EdgesSymmetric(g)
    ensures Symmetric(ToNav(g)) && Closed(ToNav(g))
  {
  }

  /** The weight of the edge `a -> b` is the distance between them, measured in one direction or the other, or 1 for distance 0. */
  ghost predicate WeightedByDistance(g: FloorGraph, hypot: Hypot) {
    forall a, i :: a in g && 0 <= i < |g[a].edges| && g[a].edges[i].to in g ==>
      var b := g[a].edges[i].to;
      WeightFits(hypot, g[a].edges[i].w, g[a].x, g[a].y, g[b].x, g[b].y)
  }

  /** `w` is the weight of an edge between the points (xa, ya) and (xb, yb), computed from either end. */
  ghost predicate WeightFits(hypot: Hypot, w: real, xa: real, ya: real, xb: real, yb: real) {
    w == EdgeWeight(hypot, xb - xa, yb - ya) || w == EdgeWeight(hypot, xa - xb, ya - yb)
  }

  /** Every edge comes from one of the first `n` connections between its two ends, listed in one direction or the other. */
  ghost predicate EdgesFromConnections(g: FloorGraph, conns: seq<Connection>, n: nat)
    requires n <= |conns|
  {
    forall a, e :: a in g && e in g[a].edges ==> Connection(a, e.to) in conns[..n] || Connection(e.to, a) in conns[..n]
  }

  /**
    No neighbour is listed twice, except the node itself: a connection from a node to itself
    puts the node into its own list twice, as two consecutive entries.
  */
  ghost predicate NoRepeatedNeighbour(g: FloorGraph) {
    forall a, i, j :: a in g && 0 <= i < j < |g[a].edges| && g[a].edges[i].to == g[a].edges[j].to ==>
      g[a].edges[i].to == a && j == i + 1
  }

  /** Both ends of each of the first `n` connections, when they are nodes, list each other. */
  ghost predicate ConnectionsPresent(g: FloorGraph, conns: seq<Connection>, n: nat)
    requires n <= |conns|
  {
    forall c :: c in conns[..n] && c.from in g && c.to in g ==> HasEdgeTo(g[c.from].edges, c.to) && HasEdgeTo(g[c.to].edges, c.from)
  }

  /**
    The `navigationConnections.forEach` loop. A connection with an unknown end is skipped; a
    connection whose `from` node already lists `to` is skipped; any other adds `{to, w}` to
    `from` and `{from, w}` to `to` with the same weight `Math.hypot(dx, dy) || 1`. So edges
    are symmetric with equal weights, every weight is positive, repeated and reversed
    connections add nothing, and a self-connection adds two entries of weight 1.
  */
  method AddConnections(g0: FloorGraph, conns: seq<Connection>, hypot: Hypot) returns (g: FloorGraph)
    requires forall k :: k in g0 ==> g0[k].edges == []
    ensures SameButEdges(g0, g)
    ensures EdgeFacts(g, conns, hypot)
  {
    g := g0;
    for k := 0 to |conns|
      invariant ConnectionsInvariant(g0, g, conns, k, hypot)
    {
      var g' := Connect(g, conns[k], hypot);
      ConnectKeepsInvariant(g0, g, g', conns, k, hypot);
      g := g';
    }
    PositiveWeights(g, hypot);
  }

  /** What the connection loop keeps true after its first `k` connections. */
  ghost predicate ConnectionsInvariant(g0: FloorGraph, g: FloorGraph, conns: seq<Connection>, k: nat, hypot: Hypot)
    requires k <= |conns|
  {
    && SameButEdges(g0, g) && EdgesSymmetric(g) && WeightedByDistance(g, hypot)
    && EdgesFromConnections(g, conns, k) && NoRepeatedNeighbour(g) && ConnectionsPresent(g, conns, k)
  }

  /**
    `g'` is `g` after connection `c`: unchanged when an end is unknown or `from` already
    lists `to`, and otherwise with the two edges of weight `Math.hypot(dx, dy) || 1` added.
  */
  ghost predicate Connected(g: FloorGraph, g': FloorGraph, c: Connection, hypot: Hypot) {
    if c.from !in g || c.to !in g || HasEdgeTo(g[c.from].edges, c.to) then g' == g
    else InsertedPair(g, g', c.from, c.to, EdgeWeight(hypot, g[c.to].x - g[c.from].x, g[c.to].y - g[c.from].y))
  }

  /**
    The body of the connection loop for one connection `c`: nothing happens when an end is
    unknown or `from` already lists `to`; otherwise both ends get an edge to the other.
  */
  method Connect(g: FloorGraph, c: Connection, hypot: Hypot) returns (g': FloorGraph)
    ensures Connected(g, g', c, hypot)
  {
    if c.from !in g || c.to !in g {
      // an invalid connection is skipped
      return g;
    }
    var fromNode := g[c.from];
    if HasEdgeTo(fromNode.edges, c.to) {
      // a duplicate edge is skipped
      return g;
    }
    var toNode := g[c.to];
    var w := EdgeWeight(hypot, toNode.x - fromNode.x, toNode.y - fromNode.y);
    g' := g[c.from := fromNode.(edges := fromNode.edges + [Edge(c.to, w)])];
    var toNow := g'[c.to];
    g' := g'[c.to := toNow.(edges := toNow.edges + [Edge(c.from, w)])];
  }

  lemma ConnectKeepsInvariant(g0: FloorGraph, g: FloorGraph, g': FloorGraph, conns: seq<Connection>, k: nat, hypot: Hypot)
    requires k < |conns| && ConnectionsInvariant(g0, g, conns, k, hypot)
    requires Connected(g, g', conns[k], hypot)
    ensures ConnectionsInvariant(g0, g', conns, k + 1, hypot)
  {
    var c := conns[k];
    if c.from !in g || c.to !in g || HasEdgeTo(g[c.from].edges, c.to) {
      SkippedKeepsInvariants(g, conns, k);
    } else {
      var w := EdgeWeight(hypot, g[c.to].x - g[c.from].x, g[c.to].y - g[c.from].y);
      InsertKeepsInvariants(g, g', conns, k, c.from, c.to, hypot, w);
    }
  }

  lemma PositiveWeights(g: FloorGraph, hypot: Hypot)
    requires EdgesSymmetric(g) && WeightedByDistance(g, hypot)
    ensures forall a, i :: a in g && 0 <= i < |g[a].edges| ==> g[a].edges[i].w > 0.0
  {
    forall a, i | a in g && 0 <= i < |g[a].edges|
      ensures g[a].edges[i].w > 0.0
    {
      assert g[a].edges[i] in g[a].edges;
    }
  }

  /** A skipped connection (unknown end, or already joined) leaves every invariant true of one more connection. */
  lemma SkippedKeepsInvariants(g: FloorGraph, conns: seq<Connection>, k: nat)
    requires k < |conns|
    requires conns[k].from !in g || conns[k].to !in g || HasEdgeTo(g[conns[k].from].edges, conns[k].to)
    requires EdgesSymmetric(g)
    requires NoRepeatedNeighbour(g) && EdgesFromConnections(g, conns, k) && ConnectionsPresent(g, conns, k)
    ensures NoRepeatedNeighbour(g) && EdgesFromConnections(g, conns, k + 1) && ConnectionsPresent(g, conns, k + 1)
  {
    var c := conns[k];
    assert conns[..k + 1] == conns[..k] + [c];
    assert EdgesFromConnections(g, conns, k + 1) by {
      forall a, e | a in g && e in g[a].edges
        ensures Connection(a, e.to) in conns[..k + 1] || Connection(e.to, a) in conns[..k + 1]
      {
        assert Connection(a, e.to) in conns[..k] || Connection(e.to, a) in conns[..k];
      }
    }
    if c.from in g && c.to in g {
      assert HasEdgeTo(g[c.to].edges, c.from) by {
        var e :| 0 <= e < |g[c.from].edges| && g[c.from].edges[e].to == c.to;
        var back := Edge(c.from, g[c.from].edges[e].w);
        assert back in g[c.to].edges;
        var f :| 0 <= f < |g[c.to].edges| && g[c.to].edges[f] == back;
        assert g[c.to].edges[f].to == c.from;
      }
    }
    forall d | d in conns[..k + 1] && d.from in g && d.to in g
      ensures HasEdgeTo(g[d.from].edges, d.to) && HasEdgeTo(g[d.to].edges, d.from)
    {
      if d != c {
        assert d in conns[..k];
      }
    }
  }

  /**
    `g'` is `g` after the two pushes of an accepted connection `a -> b` with weight `w`; when
    `a == b` both pushes land on the same node.
  */
  ghost predicate InsertedPair(g: FloorGraph, g': FloorGraph, a: string, b: string, w: real) {
    && g'.Keys == g.Keys && a in g && b in g
    && (forall n :: n in g && n != a && n != b ==> g'[n] == g[n])
    && (a != b ==> g'[a] == g[a].(edges := g[a].edges + [Edge(b, w)]) && g'[b] == g[b].(edges := g[b].edges + [Edge(a, w)]))
    && (a == b ==> g'[a] == g[a].(edges := g[a].edges + [Edge(a, w), Edge(a, w)]))
  }

  lemma InsertKeepsInvariants(g: FloorGraph, g': FloorGraph, conns: seq<Connection>, k: nat, a: string, b: string, hypot: Hypot, w: real)
    requires k < |conns| && a == conns[k].from && b == conns[k].to
    requires InsertedPair(g, g', a, b, w)
    requires !HasEdgeTo(g[a].edges, b)
    requires w == EdgeWeight(hypot, g[b].x - g[a].x, g[b].y - g[a].y)
    requires EdgesSymmetric(g) && WeightedByDistance(g, hypot)
    requires EdgesFromConnections(g, conns, k) && NoRepeatedNeighbour(g) && ConnectionsPresent(g, conns, k)
    ensures SameButEdges(g, g') && EdgesSymmetric(g') && WeightedByDistance(g', hypot)
    ensures EdgesFromConnections(g', conns, k + 1) && NoRepeatedNeighbour(g') && ConnectionsPresent(g', conns, k + 1)
  {
    InsertKeepsShape(g, g', a, b, w);
    InsertSymmetric(g, g', a, b, w);
    InsertWeighted(g, g', a, b, w, hypot);
    InsertFromConnections(g, g', conns, k, w);
    InsertCounts(g, g', conns, k, w);
    InsertPresent(g, g', conns, k, w);
  }

  /** Only edges are added. */
  lemma InsertKeepsShape(g: FloorGraph, g': FloorGraph, a: string, b: string, w: real)
    requires InsertedPair(g, g', a, b, w)
    ensures SameButEdges(g, g')
  {
    forall n | n in g'
      ensures g'[n].x == g[n].x && g'[n].y == g[n].y && g'[n].kind == g[n].kind && g'[n].floor == g[n].floor
    {
      if n == a || n == b {
        assert g'[n].(edges := g[n].edges) == g[n];
      }
    }
  }

  /** Every old adjacency list is a prefix of the new one. */
  lemma InsertExtends(g: FloorGraph, g': FloorGraph, a: string, b: string, w: real)
    requires InsertedPair(g, g', a, b, w)
    ensures forall n :: n in g ==> g[n].edges <= g'[n].edges
  {
  }

  lemma InsertSymmetric(g: FloorGraph, g': FloorGraph, a: string, b: string, w: real)
    requires InsertedPair(g, g', a, b, w) && EdgesSymmetric(g)
    ensures EdgesSymmetric(g')
  {
    InsertExtends(g, g', a, b, w);
    assert Edge(a, w) in g'[b].edges && Edge(b, w) in g'[a].edges by {
      if a == b {
        assert g'[a].edges == g[a].edges + [Edge(a, w), Edge(a, w)];
      } else {
        assert g'[a].edges == g[a].edges + [Edge(b, w)];
        assert g'[b].edges == g[b].edges + [Edge(a, w)];
      }
    }
    forall x, e | x in g' && e in g'[x].edges
      ensures e.to in g' && Edge(x, e.w) in g'[e.to].edges
    {
      if e in g[x].edges {
        assert Edge(x, e.w) in g[e.to].edges;
      } else {
        assert (x == a && e == Edge(b, w)) || (x == b && e == Edge(a, w)) by {
          if x != a && x != b {
            assert false;
          } else if a == b {
            assert g'[a].edges == g[a].edges + [Edge(a, w), Edge(a, w)];
          } else if x == a {
            assert g'[a].edges == g[a].edges + [Edge(b, w)];
          } else {
            assert g'[b].edges == g[b].edges + [Edge(a, w)];
          }
        }
      }
    }
  }

  lemma InsertWeighted(g: FloorGraph, g': FloorGraph, a: string, b: string, w: real, hypot: Hypot)
    requires InsertedPair(g, g', a, b, w) && WeightedByDistance(g, hypot)
    requires w == EdgeWeight(hypot, g[b].x - g[a].x, g[b].y - g[a].y)
    ensures WeightedByDistance(g', hypot)
  {
    InsertKeepsShape(g, g', a, b, w);
    forall x, i | x in g' && 0 <= i < |g'[x].edges| && g'[x].edges[i].to in g'
      ensures var y := g'[x].edges[i].to;
        WeightFits(hypot, g'[x].edges[i].w, g'[x].x, g'[x].y, g'[y].x, g'[y].y)
    {
      var e, y := g'[x].edges[i], g'[x].edges[i].to;
      assert g'[x].x == g[x].x && g'[x].y == g[x].y && g'[y].x == g[y].x && g'[y].y == g[y].y;
      if i < |g[x].edges| {
        assert e == g[x].edges[i] by {
          InsertExtends(g, g', a, b, w);
        }
        assert WeightFits(hypot, e.w, g[x].x, g[x].y, g[y].x, g[y].y);
      } else {
        assert (x == a && e == Edge(b, w)) || (x == b && e == Edge(a, w)) by {
          if x != a && x != b {
            assert false;
          } else if a == b {
            assert g'[a].edges == g[a].edges + [Edge(a, w), Edge(a, w)];
          } else if x == a {
            assert g'[a].edges == g[a].edges + [Edge(b, w)];
          } else {
            assert g'[b].edges == g[b].edges + [Edge(a, w)];
          }
        }
        assert WeightFits(hypot, e.w, g[x].x, g[x].y, g[y].x, g[y].y);
      }
    }
  }

  lemma InsertFromConnections(g: FloorGraph, g': FloorGraph, conns: seq<Connection>, k: nat, w: real)
    requires k < |conns|
    requires InsertedPair(g, g', conns[k].from, conns[k].to, w) && EdgesFromConnections(g, conns, k)
    ensures EdgesFromConnections(g', conns, k + 1)
  {
    var a, b := conns[k].from, conns[k].to;
    assert conns[..k + 1] == conns[..k] + [conns[k]];
    forall x, e | x in g' && e in g'[x].edges
      ensures Connection(x, e.to) in conns[..k + 1] || Connection(e.to, x) in conns[..k + 1]
    {
      if e !in g[x].edges {
        if x == a && a != b {
          assert e == Edge(b, w);
        } else {
          assert x == b && e.to == a;
        }
      }
    }
  }

  lemma InsertCounts(g: FloorGraph, g': FloorGraph, conns: seq<Connection>, k: nat, w: real)
    requires k < |conns|
    requires InsertedPair(g, g', conns[k].from, conns[k].to, w)
    requires !HasEdgeTo(g[conns[k].from].edges, conns[k].to)
    requires EdgesSymmetric(g) && NoRepeatedNeighbour(g)
    ensures NoRepeatedNeighbour(g')
  {
    var a, b := conns[k].from, conns[k].to;
    forall x, i, j | x in g' && 0 <= i < j < |g'[x].edges| && g'[x].edges[i].to == g'[x].edges[j].to
      ensures g'[x].edges[i].to == x && j == i + 1
    {
      if j < |g[x].edges| {
        assert g'[x].edges[i] == g[x].edges[i] && g'[x].edges[j] == g[x].edges[j];
      } else if i < |g[x].edges| {
        assert x == a || x == b;
        assert g'[x].edges[i] == g[x].edges[i];
      }
    }
  }

  lemma InsertPresent(g: FloorGraph, g': FloorGraph, conns: seq<Connection>, k: nat, w: real)
    requires k < |conns|
    requires InsertedPair(g, g', conns[k].from, conns[k].to, w) && ConnectionsPresent(g, conns, k)
    ensures ConnectionsPresent(g', conns, k + 1)
  {
    var a, b := conns[k].from, conns[k].to;
    InsertExtends(g, g', a, b, w);
    assert conns[..k + 1] == conns[..k] + [conns[k]];
    forall c | c in conns[..k + 1] && c.from in g' && c.to in g'
      ensures HasEdgeTo(g'[c.from].edges, c.to) && HasEdgeTo(g'[c.to].edges, c.from)
    {
      if c == conns[k] {
        assert g'[a].edges[|g[a].edges|].to == b;
        if a != b {
          assert g'[b].edges[|g[b].edges|].to == a;
        }
      } else {
        assert c in conns[..k];
        var e :| 0 <= e < |g[c.from].edges| && g[c.from].edges[e].to == c.to;
        assert g'[c.from].edges[e] == g[c.from].edges[e];
        var f :| 0 <= f < |g[c.to].edges| && g[c.to].edges[f].to == c.from;
        assert g'[c.to].edges[f] == g[c.to].edges[f];
      }
    }
  }

  // ---------------------------------------------------------------------------------------
  // Ground-floor section
  // ---------------------------------------------------------------------------------------

  /** `defs.findIndex(p)`: the first index whose definition satisfies `p`, or -1. */
  function FindIndex(defs: seq<NodeDef>, p: NodeDef -> bool): (r: int)
    ensures -1 <= r < |defs|
    ensures r == -1 ==> forall i :: 0 <= i < |defs| ==> !p(defs[i])
    ensures r >= 0 ==> p(defs[r]) && forall i :: 0 <= i < r ==> !p(defs[i])
  {
    if |defs| == 0 then -1
    else if p(defs[0]) then 0
    else
      var r := FindIndex(defs[1..], p);
      assert forall i :: 1 <= i < |defs| ==> defs[1..][i - 1] == defs[i];
      if r == -1 then -1 else r + 1
  }

  /** The fallback marker of a first-floor definition: an id with `_1` and neither `_G` nor `_2` in it. */
  predicate LooksFirstFloor(d: NodeDef) {
    d.id != "" && Includes(d.id, "_1") && !Includes(d.id, "_G") && !Includes(d.id, "_2")
  }

  /**
    `firstFloorStartIndex`: where the definition of `nav_path_42` is, or failing that the
    first definition that looks like a first-floor one, or -1.
  */
  function FirstFloorStartIndex(defs: seq<NodeDef>): (r: int)
    ensures -1 <= r < |defs|
    ensures (exists i :: 0 <= i < |defs| && defs[i].id == "nav_path_42") ==>
      0 <= r && defs[r].id == "nav_path_42" && forall i :: 0 <= i < r ==> defs[i].id != "nav_path_42"
    ensures (forall i :: 0 <= i < |defs| ==> defs[i].id != "nav_path_42") ==>
      (r == -1 <==> forall i :: 0 <= i < |defs| ==> !LooksFirstFloor(defs[i]))
      && (r >= 0 ==> LooksFirstFloor(defs[r]) && forall i :: 0 <= i < r ==> !LooksFirstFloor(defs[i]))
  {
    var i := FindIndex(defs, (d: NodeDef) => d.id == "nav_path_42");
    if i != -1 then i else FindIndex(defs, LooksFirstFloor)
  }

  /** The ids of the definitions before `cut`: the ground-floor section. */
  function SectionIds(defs: seq<NodeDef>, cut: int): set<string> {
    set i | 0 <= i < cut && i < |defs| :: defs[i].id
  }

  /**
    The ground-floor override: every id defined before `cut` (when `cut > 0`) is put on floor
    `G`, whatever its suffix says, and remembered in the returned set.
  */
  method ApplyGroundFloor(g: FloorGraph, defs: seq<NodeDef>, cut: int) returns (g': FloorGraph, ground: set<string>)
    requires cut <= |defs|
    ensures ground == SectionIds(defs, cut) * g.Keys
    ensures g'.Keys == g.Keys
    ensures forall k :: k in g ==> g'[k] == if k in ground then g[k].(floor := Some("G")) else g[k]
  {
    g' := g;
    ground := {};
    if cut > 0 {
      for i := 0 to cut
        invariant ground == SectionIds(defs, i) * g.Keys
        invariant g'.Keys == g.Keys
        invariant forall k :: k in g ==> g'[k] == if k in ground then g[k].(floor := Some("G")) else g[k]
      {
        var id := defs[i].id;
        assert SectionIds(defs, i + 1) == SectionIds(defs, i) + {id};
        if id in g' {
          g' := g'[id := g'[id].(floor := Some("G"))];
          ground := ground + {id};
        }
      }
    }
  }

  // ---------------------------------------------------------------------------------------
  // Seed order
  // ---------------------------------------------------------------------------------------

  /** `floorPriority[f] ?? 99` */
  function FloorPriority(f: string): int {
    if f == "G" then 0 else if f == "1" then 1 else if f == "2" then 2 else 99
  }

  /** The priority the sort gives a node id. */
  function PriorityOf(g: FloorGraph, id: string): int {
    if id in g && g[id].floor.Some? then FloorPriority(g[id].floor.value) else 99
  }

  /** `keys.filter(id => graph[id].floor !== null)` */
  function KnownFloorIds(g: FloorGraph, keys: seq<string>): (r: seq<string>)
    ensures forall x :: x in r <==> x in keys && x in g && g[x].floor.Some?
  {
    if |keys| == 0 then []
    else (if keys[0] in g && g[keys[0]].floor.Some? then [keys[0]] else []) + KnownFloorIds(g, keys[1..])
  }

  /** The ids of `s` whose priority is `p`, in their order in `s`. */
  function WithPriority(g: FloorGraph, s: seq<string>, p: int): (r: seq<string>)
    ensures |r| <= |s|
  {
    if |s| == 0 then []
    else (if PriorityOf(g, s[0]) == p then [s[0]] else []) + WithPriority(g, s[1..], p)
  }

  /**
    `sortedKnownFloorNodes`: the known-floor ids sorted by floor priority. `Array.prototype.sort`
    is stable, so ids of equal priority keep their key order; with the priorities 0, 1, 2
    and 99 that is the concatenation of the four priority classes.
  */
  function SeedOrder(g: FloorGraph, keys: seq<string>): (r: seq<string>)
    ensures forall x :: x in r <==> x in keys && x in g && g[x].floor.Some?
  {
    var known := KnownFloorIds(g, keys);
    WithPriorityMembers(g, known, 0);
    WithPriorityMembers(g, known, 1);
    WithPriorityMembers(g, known, 2);
    WithPriorityMembers(g, known, 99);
    assert forall x :: PriorityOf(g, x) in {0, 1, 2, 99};
    WithPriority(g, known, 0) + WithPriority(g, known, 1) + WithPriority(g, known, 2) + WithPriority(g, known, 99)
  }

  /** The class of priority `p` holds exactly the ids of `s` with that priority. */
  lemma {:induction false} WithPriorityMembers(g: FloorGraph, s: seq<string>, p: int)
    ensures forall x :: x in WithPriority(g, s, p) <==> x in s && PriorityOf(g, x) == p
  {
    if |s| > 0 {
      WithPriorityMembers(g, s[1..], p);
      assert forall x :: x in s <==> x == s[0] || x in s[1..];
    }
  }

  lemma {:induction false} WithPriorityAppend(g: FloorGraph, s: seq<string>, t: seq<string>, p: int)
    ensures WithPriority(g, s + t, p) == WithPriority(g, s, p) + WithPriority(g, t, p)
  {
    if |s| > 0 {
      var head := if PriorityOf(g, s[0]) == p then [s[0]] else [];
      assert (s + t)[0] == s[0] && (s + t)[1..] == s[1..] + t;
      assert WithPriority(g, s + t, p) == head + WithPriority(g, s[1..] + t, p);
      WithPriorityAppend(g, s[1..], t, p);
      assert head + (WithPriority(g, s[1..], p) + WithPriority(g, t, p))
          == (head + WithPriority(g, s[1..], p)) + WithPriority(g, t, p);
    } else {
      assert s + t == t;
    }
  }

  lemma {:induction false} WithPriorityTwice(g: FloorGraph, s: seq<string>, p: int, q: int)
    ensures WithPriority(g, WithPriority(g, s, p), q) == if p == q then WithPriority(g, s, p) else []
  {
    if |s| > 0 {
      WithPriorityTwice(g, s[1..], p, q);
      var head := if PriorityOf(g, s[0]) == p then [s[0]] else [];
      WithPriorityAppend(g, head, WithPriority(g, s[1..], p), q);
    }
  }

  /** The four priority classes split a sequence without loss. */
  lemma {:induction false} PriorityClassesPartition(g: FloorGraph, s: seq<string>)
    ensures multiset(s) == multiset(WithPriority(g, s, 0)) + multiset(WithPriority(g, s, 1))
      + multiset(WithPriority(g, s, 2)) + multiset(WithPriority(g, s, 99))
  {
    if |s| > 0 {
      var t := s[1..];
      PriorityClassesPartition(g, t);
      assert s == [s[0]] + t;
      HeadSplit(g, s);
      SumOfParts(multiset(s), multiset(t), multiset{s[0]},
        HeadIfPriority(g, s, 0), HeadIfPriority(g, s, 1), HeadIfPriority(g, s, 2), HeadIfPriority(g, s, 99),
        multiset(WithPriority(g, t, 0)), multiset(WithPriority(g, t, 1)), multiset(WithPriority(g, t, 2)), multiset(WithPriority(g, t, 99)),
        multiset(WithPriority(g, s, 0)), multiset(WithPriority(g, s, 1)), multiset(WithPriority(g, s, 2)), multiset(WithPriority(g, s, 99)));
    }
  }

  /** The first id of `s` as a multiset when its priority is `p`, and the empty multiset otherwise. */
  function HeadIfPriority(g: FloorGraph, s: seq<string>, p: int): (h: multiset<string>)
    requires |s| > 0
    ensures multiset(WithPriority(g, s, p)) == h + multiset(WithPriority(g, s[1..], p))
  {
    if PriorityOf(g, s[0]) == p then multiset{s[0]} else multiset{}
  }

  lemma HeadSplit(g: FloorGraph, s: seq<string>)
    requires |s| > 0
    ensures multiset{s[0]} == HeadIfPriority(g, s, 0) + HeadIfPriority(g, s, 1) + HeadIfPriority(g, s, 2) + HeadIfPriority(g, s, 99)
  {
    var p := PriorityOf(g, s[0]);
    assert p == 0 || p == 1 || p == 2 || p == 99;
  }

  lemma SumOfParts<T>(all: multiset<T>, tail: multiset<T>, head: multiset<T>,
                      h0: multiset<T>, h1: multiset<T>, h2: multiset<T>, h9: multiset<T>,
                      t0: multiset<T>, t1: multiset<T>, t2: multiset<T>, t9: multiset<T>,
                      w0: multiset<T>, w1: multiset<T>, w2: multiset<T>, w9: multiset<T>)
    requires all == head + tail && tail == t0 + t1 + t2 + t9 && head == h0 + h1 + h2 + h9
    requires w0 == h0 + t0 && w1 == h1 + t1 && w2 == h2 + t2 && w9 == h9 + t9
    ensures all == w0 + w1 + w2 + w9
  {
  }

  /** Each priority class holds ids of that priority only. */
  lemma PriorityClassesSorted(g: FloorGraph, c0: seq<string>, c1: seq<string>, c2: seq<string>, c9: seq<string>)
    requires forall x :: x in c0 ==> PriorityOf(g, x) == 0
    requires forall x :: x in c1 ==> PriorityOf(g, x) == 1
    requires forall x :: x in c2 ==> PriorityOf(g, x) == 2
    requires forall x :: x in c9 ==> PriorityOf(g, x) == 99
    ensures var r := c0 + c1 + c2 + c9;
      forall i, j :: 0 <= i < j < |r| ==> PriorityOf(g, r[i]) <= PriorityOf(g, r[j])
  {
    var r := c0 + c1 + c2 + c9;
    forall i | 0 <= i < |r|
      ensures PriorityOf(g, r[i]) == if i < |c0| then 0 else if i < |c0| + |c1| then 1 else if i < |c0| + |c1| + |c2| then 2 else 99
    {
      if i < |c0| {
        assert r[i] == c0[i];
      } else if i < |c0| + |c1| {
        assert r[i] == c1[i - |c0|];
      } else if i < |c0| + |c1| + |c2| {
        assert r[i] == c2[i - |c0| - |c1|];
      } else {
        assert r[i] == c9[i - |c0| - |c1| - |c2|];
      }
    }
  }

  /** Filtering the concatenated classes by one priority gives back that class. */
  lemma PriorityClassesStable(g: FloorGraph, known: seq<string>, p: int)
    ensures WithPriority(g, WithPriority(g, known, 0) + WithPriority(g, known, 1) + WithPriority(g, known, 2) + WithPriority(g, known, 99), p)
      == WithPriority(g, known, p)
  {
    var c0, c1, c2, c9 := WithPriority(g, known, 0), WithPriority(g, known, 1), WithPriority(g, known, 2), WithPriority(g, known, 99);
    var w0, w1, w2, w9 := WithPriority(g, c0, p), WithPriority(g, c1, p), WithPriority(g, c2, p), WithPriority(g, c9, p);
    assert WithPriority(g, c0 + c1 + c2 + c9, p) == w0 + w1 + w2 + w9 by {
      WithPriorityAppend(g, c0 + c1 + c2, c9, p);
      WithPriorityAppend(g, c0 + c1, c2, p);
      WithPriorityAppend(g, c0, c1, p);
    }
    WithPriorityTwice(g, known, 0, p);
    WithPriorityTwice(g, known, 1, p);
    WithPriorityTwice(g, known, 2, p);
    WithPriorityTwice(g, known, 99, p);
    if p == 0 {
      assert w0 + w1 + w2 + w9 == c0 + [] + [] + [] == c0;
    } else if p == 1 {
      assert w0 + w1 + w2 + w9 == [] + c1 + [] + [] == c1;
    } else if p == 2 {
      assert w0 + w1 + w2 + w9 == [] + [] + c2 + [] == c2;
    } else if p == 99 {
      assert w0 + w1 + w2 + w9 == [] + [] + [] + c9 == c9;
    } else {
      NoOtherPriority(g, known, p);
      assert w0 + w1 + w2 + w9 == [] + [] + [] + [];
    }
  }

  /** No id has a priority other than 0, 1, 2 and 99. */
  lemma {:induction false} NoOtherPriority(g: FloorGraph, s: seq<string>, p: int)
    requires p != 0 && p != 1 && p != 2 && p != 99
    ensures WithPriority(g, s, p) == []
  {
    if |s| > 0 {
      NoOtherPriority(g, s[1..], p);
    }
  }

  /**
    The seed order is a stable sort of the known-floor ids by priority: a permutation of
    them, ordered by priority, with each priority class in its original order.
  */
  lemma SeedOrderIsStableSort(g: FloorGraph, keys: seq<string>)
    ensures multiset(SeedOrder(g, keys)) == multiset(KnownFloorIds(g, keys))
    ensures forall i, j :: 0 <= i < j < |SeedOrder(g, keys)| ==>
      PriorityOf(g, SeedOrder(g, keys)[i]) <= PriorityOf(g, SeedOrder(g, keys)[j])
    ensures forall p :: WithPriority(g, SeedOrder(g, keys), p) == WithPriority(g, KnownFloorIds(g, keys), p)
  {
    SeedOrderPermutes(g, keys);
    SeedOrderSorted(g, keys);
    SeedOrderStable(g, keys);
  }

  lemma SeedOrderPermutes(g: FloorGraph, keys: seq<string>)
    ensures multiset(SeedOrder(g, keys)) == multiset(KnownFloorIds(g, keys))
  {
    var known := KnownFloorIds(g, keys);
    PriorityClassesPartition(g, known);
    assert SeedOrder(g, keys) == WithPriority(g, known, 0) + WithPriority(g, known, 1) + WithPriority(g, known, 2) + WithPriority(g, known, 99);
  }

  lemma SeedOrderSorted(g: FloorGraph, keys: seq<string>)
    ensures forall i, j :: 0 <= i < j < |SeedOrder(g, keys)| ==>
      PriorityOf(g, SeedOrder(g, keys)[i]) <= PriorityOf(g, SeedOrder(g, keys)[j])
  {
    var known := KnownFloorIds(g, keys);
    WithPriorityMembers(g, known, 0);
    WithPriorityMembers(g, known, 1);
    WithPriorityMembers(g, known, 2);
    WithPriorityMembers(g, known, 99);
    PriorityClassesSorted(g, WithPriority(g, known, 0), WithPriority(g, known, 1), WithPriority(g, known, 2), WithPriority(g, known, 99));
    assert SeedOrder(g, keys) == WithPriority(g, known, 0) + WithPriority(g, known, 1) + WithPriority(g, known, 2) + WithPriority(g, known, 99);
  }

  lemma SeedOrderStable(g: FloorGraph, keys: seq<string>)
    ensures forall p :: WithPriority(g, SeedOrder(g, keys), p) == WithPriority(g, KnownFloorIds(g, keys), p)
  {
    var known := KnownFloorIds(g, keys);
    assert SeedOrder(g, keys) == WithPriority(g, known, 0) + WithPriority(g, known, 1) + WithPriority(g, known, 2) + WithPriority(g, known, 99);
    forall p
      ensures WithPriority(g, SeedOrder(g, keys), p) == WithPriority(g, known, p)
    {
      PriorityClassesStable(g, known, p);
    }
  }

  // ---------------------------------------------------------------------------------------
  // Floor propagation
  // ---------------------------------------------------------------------------------------

  /** One queue entry `{ id, floor }`. */
  datatype QueueItem = QueueItem(id: string, floor: string)

  /** The ids of the queue entries, front first. */
  function Ids(queue: seq<QueueItem>): (r: seq<string>)
    ensures |r| == |queue| && forall i :: 0 <= i < |queue| ==> r[i] == queue[i].id
  {
    seq(|queue|, i requires 0 <= i < |queue| => queue[i].id)
  }

  lemma IdsOfTail(queue: seq<QueueItem>)
    requires |queue| > 0
    ensures forall x :: x in Ids(queue) <==> x == queue[0].id || x in Ids(queue[1..])
  {
    assert Ids(queue) == [queue[0].id] + Ids(queue[1..]);
  }

  lemma IdsOfAppend(a: seq<QueueItem>, b: seq<QueueItem>)
    ensures forall x :: x in Ids(a + b) <==> x in Ids(a) || x in Ids(b)
  {
    assert Ids(a + b) == Ids(a) + Ids(b);
  }

  /** A hop between two stair/lift nodes: it joins different floors, so no floor crosses it. */
  predicate CrossFloorHop(a: string, b: string) {
    IsStairLiftId(a) && IsStairLiftId(b)
  }

  /** Whether visiting `id` enqueues its neighbour `nb`. */
  predicate Enqueues(g: FloorGraph, visited: set<string>, ground: set<string>, id: string, nb: string) {
    nb !in visited && nb in g && !CrossFloorHop(id, nb) && nb !in ground && g[nb].floor.None?
  }

  /** The entries enqueued, in order, while the edges `edges` of the visited node `id` are scanned. */
  function Pushes(g: FloorGraph, visited: set<string>, ground: set<string>, id: string, floor: string, edges: seq<Edge>): (r: seq<QueueItem>)
    ensures |r| <= |edges|
  {
    if |edges| == 0 then []
    else
      var last := edges[|edges| - 1];
      Pushes(g, visited, ground, id, floor, edges[..|edges| - 1])
      + (if Enqueues(g, visited, ground, id, last.to) then [QueueItem(last.to, floor)] else [])
  }

  /** Every entry enqueued carries the visited node's floor and names a neighbour that qualifies. */
  lemma {:induction false} PushesSound(g: FloorGraph, visited: set<string>, ground: set<string>, id: string, floor: string, edges: seq<Edge>)
    ensures forall it :: it in Pushes(g, visited, ground, id, floor, edges) ==>
      it.floor == floor && Enqueues(g, visited, ground, id, it.id) && HasEdgeTo(edges, it.id)
    decreases |edges|
  {
    if |edges| > 0 {
      var init := edges[..|edges| - 1];
      PushesSound(g, visited, ground, id, floor, init);
      forall it | it in Pushes(g, visited, ground, id, floor, init)
        ensures HasEdgeTo(edges, it.id)
      {
        var i :| 0 <= i < |init| && init[i].to == it.id;
        assert edges[i] == init[i];
      }
    }
  }

  /** Every neighbour that qualifies is enqueued. */
  lemma {:induction false} PushesComplete(g: FloorGraph, visited: set<string>, ground: set<string>, id: string, floor: string, edges: seq<Edge>)
    ensures forall e :: e in edges && Enqueues(g, visited, ground, id, e.to) ==> QueueItem(e.to, floor) in Pushes(g, visited, ground, id, floor, edges)
    decreases |edges|
  {
    if |edges| > 0 {
      var init := edges[..|edges| - 1];
      PushesComplete(g, visited, ground, id, floor, init);
      assert forall e :: e in edges ==> e in init || e == edges[|edges| - 1];
    }
  }

  /**
    The scan of the edges of the node `id` just visited with `floor`: each neighbour that is
    not yet visited, not across a stair/lift-to-stair/lift hop, not in the ground section
    and still without a floor is enqueued with `floor`, in edge order.
  */
  method PushNeighbours(g: FloorGraph, visited: set<string>, ground: set<string>, id: string, floor: string)
    returns (pushed: seq<QueueItem>)
    requires id in g
    ensures pushed == Pushes(g, visited, ground, id, floor, g[id].edges)
  {
    pushed := [];
    var node := g[id];
    for j := 0 to |node.edges|
      invariant pushed == Pushes(g, visited, ground, id, floor, node.edges[..j])
    {
      var nb := node.edges[j].to;
      assert node.edges[..j + 1][..j] == node.edges[..j];
      if nb !in visited && nb in g {
        var nf := g[nb].floor;
        var isStairLift := IsStairLiftId(id);
        var neighbourIsStairLift := IsStairLiftId(nb);
        if isStairLift && neighbourIsStairLift {
          // an inter-floor connection: no propagation
          continue;
        }
        if nb in ground {
          continue;
        }
        if nf.None? {
          pushed := pushed + [QueueItem(nb, floor)];
        }
      }
    }
    assert node.edges[..|node.edges|] == node.edges;
  }

  /** x, y, type and edges of every node are as in `g0`; only the floors may differ. */
  ghost predicate SameButFloor(g0: FloorGraph, g: FloorGraph) {
    g.Keys == g0.Keys
    && forall k :: k in g ==> g[k].x == g0[k].x && g[k].y == g0[k].y && g[k].kind == g0[k].kind && g[k].edges == g0[k].edges
  }

  /**
    `m` handed its floor on to `n`: `m` was visited first, has an edge to `n` that is not a
    stair/lift-to-stair/lift hop, and the two share a floor.
  */
  ghost predicate HandedOn(g: FloorGraph, rank: map<string, nat>, m: string, n: string) {
    m in g && n in g && m in rank && n in rank && rank[m] < rank[n]
    && HasEdgeTo(g[m].edges, n) && !CrossFloorHop(m, n) && g[m].floor == g[n].floor
  }

  /** Every floor the propagation filled in was handed on by the recorded parent. */
  ghost predicate FloorsInferred(g0: FloorGraph, g: FloorGraph, rank: map<string, nat>, parent: map<string, string>) {
    forall n :: n in g && n in g0 && g0[n].floor.None? && g[n].floor.Some? ==> n in parent && HandedOn(g, rank, parent[n], n)
  }

  /** A node with a floor gives one to every neighbour reached without a stair/lift-to-stair/lift hop. */
  ghost predicate FloorsSpread(g: FloorGraph) {
    forall m, e :: m in g && g[m].floor.Some? && e in g[m].edges && e.to in g && !CrossFloorHop(m, e.to) ==> g[e.to].floor.Some?
  }

  /** What the propagation keeps of the graph: shape, known floors, and where new floors come from. */
  ghost predicate FloorState(g0: FloorGraph, g: FloorGraph, ground: set<string>, visited: set<string>, rank: map<string, nat>, count: nat) {
    SameButFloor(g0, g)
    && (forall k :: k in g && k !in visited ==> g[k].floor == g0[k].floor)
    && (forall k :: k in g0 && g0[k].floor.Some? ==> g[k].floor == g0[k].floor)
    && (forall k :: k in ground ==> k in g0 && g0[k].floor.Some?)
    && visited <= g.Keys && rank.Keys == visited
    && (forall k :: k in visited ==> g[k].floor.Some? && rank[k] < count)
  }

  /**
    What the queue holds: entries for nodes of the graph with a known floor; an entry for a
    node whose floor was known carries that floor, any other was pushed by the visited node
    `via[i]` across an edge that a floor may cross, and carries that node's floor.
  */
  ghost predicate QueueState(g0: FloorGraph, g: FloorGraph, visited: set<string>, queue: seq<QueueItem>, via: seq<string>) {
    g.Keys == g0.Keys && |via| == |queue|
    && (forall i :: 0 <= i < |queue| ==> queue[i].id in g)
    && (forall i :: 0 <= i < |queue| && g0[queue[i].id].floor.Some? ==> g0[queue[i].id].floor == Some(queue[i].floor))
    && (forall i :: 0 <= i < |queue| && g0[queue[i].id].floor.None? ==>
          via[i] in visited && via[i] in g && HasEdgeTo(g[via[i]].edges, queue[i].id) && !CrossFloorHop(via[i], queue[i].id)
          && g[via[i]].floor == Some(queue[i].floor))
  }

  /** Nothing with a floor is left behind: it is visited or still queued, and so is each neighbour of a visited node. */
  ghost predicate Coverage(g: FloorGraph, visited: set<string>, queue: seq<QueueItem>) {
    (forall k :: k in g && g[k].floor.Some? ==> k in visited || k in Ids(queue))
    && (forall m, e :: m in visited && m in g && e in g[m].edges && e.to in g && !CrossFloorHop(m, e.to) ==>
          g[e.to].floor.Some? || e.to in Ids(queue))
  }

  /** One turn of the propagation loop: the queue's head is dropped if its node was seen, else visited. */
  method Dequeue(g0: FloorGraph, ground: set<string>, seeds: seq<string>, g: FloorGraph, visited: set<string>,
                 queue: seq<QueueItem>, ghost rank: map<string, nat>, ghost parent: map<string, string>, ghost count: nat,
                 ghost via: seq<string>, ghost taken: nat)
    returns (g': FloorGraph, visited': set<string>, queue': seq<QueueItem>, ghost rank': map<string, nat>,
             ghost parent': map<string, string>, ghost count': nat, ghost via': seq<string>, ghost taken': nat)
    requires Propagating(g0, ground, g, visited, rank, parent, count, queue, via)
    requires Queued(g0, g, seeds, taken, visited, rank, parent, queue, via)
    requires Ordered(seeds, taken, rank, parent, queue, via)
    requires |queue| > 0
    ensures queue[0].id in visited ==> g' == g && visited' == visited && queue' == queue[1..]
    ensures queue[0].id !in visited ==> visited' == visited + {queue[0].id} && queue[0].id in g' && g'[queue[0].id].floor.Some?
    ensures Propagating(g0, ground, g', visited', rank', parent', count', queue', via')
    ensures Queued(g0, g', seeds, taken', visited', rank', parent', queue', via')
    ensures Ordered(seeds, taken', rank', parent', queue', via')
    ensures Unvisited(g0, visited') < Unvisited(g0, visited)
            || (Unvisited(g0, visited') == Unvisited(g0, visited) && |queue'| < |queue|)
  {
    var item := queue[0];
    taken' := TakenAfter(taken, seeds);
    if item.id in visited {
      SkipKeepsInvariants(g0, ground, g, visited, rank, parent, count, queue, via);
      SkipKeepsQueued(g0, g, seeds, taken, visited, rank, parent, queue, via);
      SkipKeepsOrdered(seeds, taken, rank, parent, queue, via);
      g', visited', rank', parent', count' := g, visited, rank, parent, count;
      queue', via' := queue[1..], via[1..];
    } else {
      g', visited', queue', rank', parent', count', via' := Visit(g0, ground, seeds, g, visited, queue, rank, parent, count, via, taken);
    }
  }

  /** Visits the queue's head: it takes the entry's floor if it has none, and its neighbours are enqueued. */
  method Visit(g0: FloorGraph, ground: set<string>, seeds: seq<string>, g: FloorGraph, visited: set<string>,
               queue: seq<QueueItem>, ghost rank: map<string, nat>, ghost parent: map<string, string>, ghost count: nat,
               ghost via: seq<string>, ghost taken: nat)
    returns (g': FloorGraph, visited': set<string>, queue': seq<QueueItem>, ghost rank': map<string, nat>,
             ghost parent': map<string, string>, ghost count': nat, ghost via': seq<string>)
    requires Propagating(g0, ground, g, visited, rank, parent, count, queue, via)
    requires Queued(g0, g, seeds, taken, visited, rank, parent, queue, via)
    requires Ordered(seeds, taken, rank, parent, queue, via)
    requires |queue| > 0 && queue[0].id !in visited
    ensures visited' == visited + {queue[0].id} && queue[0].id in g' && g'[queue[0].id].floor.Some?
    ensures Propagating(g0, ground, g', visited', rank', parent', count', queue', via')
    ensures Queued(g0, g', seeds, TakenAfter(taken, seeds), visited', rank', parent', queue', via')
    ensures Ordered(seeds, TakenAfter(taken, seeds), rank', parent', queue', via')
    ensures Unvisited(g0, visited') < Unvisited(g0, visited)
  {
    var item := queue[0];
    g' := if g[item.id].floor.None? then g[item.id := g[item.id].(floor := Some(item.floor))] else g;
    var pushed := PushNeighbours(g', visited + {item.id}, ground, item.id, item.floor);
    parent' := if g[item.id].floor.None? then parent[item.id := via[0]] else parent;
    VisitKeepsInvariants(g0, ground, g, visited, rank, parent, count, queue, via, g', pushed, parent');
    VisitKeepsQueued(g0, ground, g, seeds, taken, visited, rank, parent, count, queue, via, g', pushed, parent');
    VisitKeepsOrdered(g0, ground, g, seeds, taken, visited, rank, parent, count, queue, via, pushed, parent');
    visited' := visited + {item.id};
    rank' := rank[item.id := count];
    queue', via' := queue[1..] + pushed, via[1..] + Repeat(item.id, |pushed|);
    count' := count + 1;
  }

  /**
    The breadth-first floor propagation. The queue starts with every node that has a floor,
    in seed order; a dequeued node not yet visited is marked visited, takes the entry's floor
    if it has none, and enqueues its neighbours.
  */
  method PropagateFloors(g0: FloorGraph, keys: seq<string>, ground: set<string>)
    returns (g: FloorGraph, ghost rank: map<string, nat>, ghost parent: map<string, string>)
    requires forall k :: k in keys <==> k in g0
    requires forall k :: k in ground ==> k in g0 && g0[k].floor == Some("G")
    ensures SameButFloor(g0, g)
    ensures forall k :: k in g0 && g0[k].floor.Some? ==> g[k].floor == g0[k].floor
    ensures FloorsInferred(g0, g, rank, parent)
    ensures FloorsSpread(g)
    ensures forall n :: n in rank <==> n in g && g[n].floor.Some?
    ensures FollowsSeeds(SeedOrder(g0, keys), rank, |SeedOrder(g0, keys)|)
    ensures SeedsFirst(g0, SeedOrder(g0, keys), rank, |SeedOrder(g0, keys)|)
    ensures ParentFirst(g, rank, parent)
    ensures ParentsInOrder(rank, parent)
  {
    g := g0;
    var seeds := SeedOrder(g0, keys);
    var queue := seq(|seeds|, i requires 0 <= i < |seeds| => QueueItem(seeds[i], g0[seeds[i]].floor.value));
    var visited: set<string> := {};
    ghost var via: seq<string> := seeds;
    rank, parent := map[], map[];
    ghost var count: nat := 0;
    ghost var taken: nat := 0;
    PropagationStarts(g0, keys, ground, seeds, queue);
    QueuedStarts(g0, keys, seeds, queue);
    while |queue| > 0
      invariant Propagating(g0, ground, g, visited, rank, parent, count, queue, via)
      invariant Queued(g0, g, seeds, taken, visited, rank, parent, queue, via)
      invariant Ordered(seeds, taken, rank, parent, queue, via)
      decreases Unvisited(g0, visited), |queue|
    {
      g, visited, queue, rank, parent, count, via, taken :=
        Dequeue(g0, ground, seeds, g, visited, queue, rank, parent, count, via, taken);
    }
    PropagationEnds(g0, ground, g, visited, rank, parent, count, queue, via);
    QueuedEnds(g0, g, seeds, taken, visited, rank, parent, via);
  }

  /** The number of nodes not yet visited. */
  ghost function Unvisited(g0: FloorGraph, visited: set<string>): nat {
    |g0.Keys - visited|
  }

  lemma UnvisitedShrinks(g0: FloorGraph, visited: set<string>, id: string)
    requires id in g0 && id !in visited
    ensures Unvisited(g0, visited + {id}) < Unvisited(g0, visited)
  {
    var rest := g0.Keys - (visited + {id});
    assert g0.Keys - visited == rest + {id} && id !in rest;
  }

  /** The loop invariant of the propagation. */
  ghost predicate Propagating(g0: FloorGraph, ground: set<string>, g: FloorGraph, visited: set<string>, rank: map<string, nat>,
                              parent: map<string, string>, count: nat, queue: seq<QueueItem>, via: seq<string>)
  {
    FloorState(g0, g, ground, visited, rank, count)
    && QueueState(g0, g, visited, queue, via)
    && FloorsInferred(g0, g, rank, parent)
    && Coverage(g, visited, queue)
  }

  lemma PropagationStarts(g0: FloorGraph, keys: seq<string>, ground: set<string>, seeds: seq<string>, queue: seq<QueueItem>)
    requires forall k :: k in keys <==> k in g0
    requires forall k :: k in ground ==> k in g0 && g0[k].floor == Some("G")
    requires seeds == SeedOrder(g0, keys)
    requires |queue| == |seeds| && forall i :: 0 <= i < |seeds| ==> queue[i] == QueueItem(seeds[i], g0[seeds[i]].floor.value)
    ensures Propagating(g0, ground, g0, {}, map[], map[], 0, queue, seeds)
  {
    SeedsCovered(g0, keys, seeds, queue);
  }

  lemma PropagationEnds(g0: FloorGraph, ground: set<string>, g: FloorGraph, visited: set<string>, rank: map<string, nat>,
                        parent: map<string, string>, count: nat, queue: seq<QueueItem>, via: seq<string>)
    requires Propagating(g0, ground, g, visited, rank, parent, count, queue, via) && |queue| == 0
    ensures SameButFloor(g0, g)
    ensures forall k :: k in g0 && g0[k].floor.Some? ==> g[k].floor == g0[k].floor
    ensures FloorsInferred(g0, g, rank, parent)
    ensures FloorsSpread(g)
    ensures forall n :: n in rank <==> n in g && g[n].floor.Some?
  {
  }

  /** Dropping an entry for a node already visited keeps the invariant. */
  lemma SkipKeepsInvariants(g0: FloorGraph, ground: set<string>, g: FloorGraph, visited: set<string>, rank: map<string, nat>,
                            parent: map<string, string>, count: nat, queue: seq<QueueItem>, via: seq<string>)
    requires Propagating(g0, ground, g, visited, rank, parent, count, queue, via)
    requires |queue| > 0 && queue[0].id in visited
    ensures Propagating(g0, ground, g, visited, rank, parent, count, queue[1..], via[1..])
  {
    IdsOfTail(queue);
  }

  /** Visiting the front entry keeps the invariant, and leaves fewer nodes unvisited. */
  lemma VisitKeepsInvariants(g0: FloorGraph, ground: set<string>, g: FloorGraph, visited: set<string>, rank: map<string, nat>,
                             parent: map<string, string>, count: nat, queue: seq<QueueItem>, via: seq<string>,
                             g1: FloorGraph, pushed: seq<QueueItem>, parent1: map<string, string>)
    requires Propagating(g0, ground, g, visited, rank, parent, count, queue, via)
    requires |queue| > 0 && queue[0].id !in visited
    requires g1 == if g[queue[0].id].floor.None? then g[queue[0].id := g[queue[0].id].(floor := Some(queue[0].floor))] else g
    requires pushed == Pushes(g1, visited + {queue[0].id}, ground, queue[0].id, queue[0].floor, g1[queue[0].id].edges)
    requires parent1 == if g[queue[0].id].floor.None? then parent[queue[0].id := via[0]] else parent
    ensures Unvisited(g0, visited + {queue[0].id}) < Unvisited(g0, visited)
    ensures Propagating(g0, ground, g1, visited + {queue[0].id}, rank[queue[0].id := count], parent1, count + 1,
                        queue[1..] + pushed, via[1..] + Repeat(queue[0].id, |pushed|))
  {
    UnvisitedShrinks(g0, visited, queue[0].id);
    VisitKeepsFloorState(g0, g, ground, visited, rank, count, queue, g1);
    VisitKeepsQueueState(g0, g, ground, visited, rank, count, queue, via, g1, pushed);
    VisitKeepsInferred(g0, g, ground, visited, rank, parent, count, queue, via, g1);
    assert forall k :: k in g && (k in visited || k in ground) ==> g[k].floor.Some?;
    TakeFloorFacts(g, queue[0].id, queue[0].floor, g1);
    VisitKeepsCoverage(g, ground, visited, queue, g1, pushed);
  }

  /** Giving `id` the floor `f` when it has none changes that node only, and leaves it with a floor. */
  lemma TakeFloorFacts(g: FloorGraph, id: string, f: string, g1: FloorGraph)
    requires id in g
    requires g1 == if g[id].floor.None? then g[id := g[id].(floor := Some(f))] else g
    ensures g1.Keys == g.Keys && g1[id].floor.Some?
    ensures forall k :: k in g1 && k != id ==> g1[k] == g[k]
    ensures forall k :: k in g1 ==> g1[k].edges == g[k].edges
  {
  }

  function Repeat(x: string, n: nat): (r: seq<string>)
    ensures |r| == n && forall i :: 0 <= i < n ==> r[i] == x
  {
    seq(n, i => x)
  }

  /** The shape of a loop iteration that visits `queue[0]`. */
  ghost predicate Visiting(g0: FloorGraph, g: FloorGraph, ground: set<string>, visited: set<string>, rank: map<string, nat>, count: nat,
                           queue: seq<QueueItem>, g1: FloorGraph)
  {
    FloorState(g0, g, ground, visited, rank, count)
    && |queue| > 0 && queue[0].id in g && queue[0].id !in visited
    && g1 == if g[queue[0].id].floor.None? then g[queue[0].id := g[queue[0].id].(floor := Some(queue[0].floor))] else g
  }

  lemma VisitKeepsFloorState(g0: FloorGraph, g: FloorGraph, ground: set<string>, visited: set<string>, rank: map<string, nat>, count: nat,
                             queue: seq<QueueItem>, g1: FloorGraph)
    requires Visiting(g0, g, ground, visited, rank, count, queue, g1)
    ensures FloorState(g0, g1, ground, visited + {queue[0].id}, rank[queue[0].id := count], count + 1)
  {
    var id, f := queue[0].id, queue[0].floor;
    assert g[id].floor == g0[id].floor;
    if g[id].floor.None? {
      forall k | k in g1
        ensures g1[k].x == g0[k].x && g1[k].y == g0[k].y && g1[k].kind == g0[k].kind && g1[k].edges == g0[k].edges
        ensures g1[k].floor == if k == id then Some(f) else g[k].floor
      {
      }
    } else {
      assert g1 == g;
    }
  }

  lemma VisitKeepsQueueState(g0: FloorGraph, g: FloorGraph, ground: set<string>, visited: set<string>, rank: map<string, nat>, count: nat,
                             queue: seq<QueueItem>, via: seq<string>, g1: FloorGraph, pushed: seq<QueueItem>)
    requires Visiting(g0, g, ground, visited, rank, count, queue, g1)
    requires QueueState(g0, g, visited, queue, via)
    requires pushed == Pushes(g1, visited + {queue[0].id}, ground, queue[0].id, queue[0].floor, g1[queue[0].id].edges)
    ensures QueueState(g0, g1, visited + {queue[0].id}, queue[1..] + pushed, via[1..] + Repeat(queue[0].id, |pushed|))
  {
    var id := queue[0].id;
    PushesSound(g1, visited + {id}, ground, id, queue[0].floor, g1[id].edges);
    assert g1[id].floor == Some(queue[0].floor);
    var q, v := queue[1..] + pushed, via[1..] + Repeat(id, |pushed|);
    forall i | 0 <= i < |q|
      ensures q[i].id in g1
      ensures g0[q[i].id].floor.Some? ==> g0[q[i].id].floor == Some(q[i].floor)
      ensures g0[q[i].id].floor.None? ==>
          v[i] in visited + {id} && v[i] in g1 && HasEdgeTo(g1[v[i]].edges, q[i].id) && !CrossFloorHop(v[i], q[i].id)
          && g1[v[i]].floor == Some(q[i].floor)
    {
      if i < |queue| - 1 {
        assert q[i] == queue[i + 1] && v[i] == via[i + 1];
      } else {
        assert q[i] in pushed && v[i] == id;
      }
    }
  }

  lemma VisitKeepsInferred(g0: FloorGraph, g: FloorGraph, ground: set<string>, visited: set<string>, rank: map<string, nat>,
                           parent: map<string, string>, count: nat, queue: seq<QueueItem>, via: seq<string>, g1: FloorGraph)
    requires Visiting(g0, g, ground, visited, rank, count, queue, g1)
    requires QueueState(g0, g, visited, queue, via)
    requires FloorsInferred(g0, g, rank, parent)
    ensures FloorsInferred(g0, g1, rank[queue[0].id := count],
                           if g[queue[0].id].floor.None? then parent[queue[0].id := via[0]] else parent)
  {
  }

  lemma VisitKeepsCoverage(g: FloorGraph, ground: set<string>, visited: set<string>, queue: seq<QueueItem>, g1: FloorGraph, pushed: seq<QueueItem>)
    requires |queue| > 0 && queue[0].id in g
    requires g1.Keys == g.Keys && g1[queue[0].id].floor.Some?
    requires forall k :: k in g1 && k != queue[0].id ==> g1[k] == g[k]
    requires forall k :: k in g && (k in visited || k in ground) ==> g[k].floor.Some?
    requires Coverage(g, visited, queue)
    requires pushed == Pushes(g1, visited + {queue[0].id}, ground, queue[0].id, queue[0].floor, g1[queue[0].id].edges)
    ensures Coverage(g1, visited + {queue[0].id}, queue[1..] + pushed)
  {
    var id, rest := queue[0].id, queue[1..];
    var visited1, q := visited + {id}, rest + pushed;
    IdsOfTail(queue);
    IdsOfAppend(rest, pushed);
    forall k | k in g1 && g1[k].floor.Some?
      ensures k in visited1 || k in Ids(q)
    {
      if k != id {
        assert k in visited || k in Ids(queue);
      }
    }
    forall m, e | m in visited1 && m in g1 && e in g1[m].edges && e.to in g1 && !CrossFloorHop(m, e.to) && g1[e.to].floor.None?
      ensures e.to in Ids(q)
    {
      assert e.to != id && e.to !in visited && g[e.to].floor.None?;
      if m == id {
        assert e.to !in ground;
        assert QueueItem(e.to, queue[0].floor) in pushed by {
          PushesComplete(g1, visited1, ground, id, queue[0].floor, g1[id].edges);
        }
        var i :| 0 <= i < |pushed| && pushed[i] == QueueItem(e.to, queue[0].floor);
        assert Ids(pushed)[i] == e.to;
      } else {
        assert e in g[m].edges;
        assert e.to in Ids(queue);
      }
    }
  }

  /** The seed entries cover every node with a known floor. */
  lemma SeedsCovered(g0: FloorGraph, keys: seq<string>, seeds: seq<string>, queue: seq<QueueItem>)
    requires forall k :: k in keys <==> k in g0
    requires seeds == SeedOrder(g0, keys)
    requires |queue| == |seeds| && forall i :: 0 <= i < |seeds| ==> queue[i] == QueueItem(seeds[i], g0[seeds[i]].floor.value)
    ensures forall k :: k in g0 && g0[k].floor.Some? ==> k in Ids(queue)
    ensures forall i :: 0 <= i < |queue| ==> queue[i].id in g0 && g0[queue[i].id].floor == Some(queue[i].floor)
  {
    assert Ids(queue) == seeds;
  }

  // ---------------------------------------------------------------------------------------
  // The order of the propagation
  // ---------------------------------------------------------------------------------------

  /** The first `upto` seeds are visited in seed order: each before every later seed that does not repeat an earlier one. */
  ghost predicate FollowsSeeds(seeds: seq<string>, rank: map<string, nat>, upto: nat)
    requires upto <= |seeds|
  {
    (forall i :: 0 <= i < upto ==> seeds[i] in rank)
    && forall i, j :: 0 <= i < j < upto && seeds[j] !in seeds[..j] ==> rank[seeds[i]] < rank[seeds[j]]
  }

  /** The first `upto` seeds are visited before every node that had no floor. */
  ghost predicate SeedsFirst(g0: FloorGraph, seeds: seq<string>, rank: map<string, nat>, upto: nat)
    requires upto <= |seeds|
  {
    forall i, n :: 0 <= i < upto && seeds[i] in rank && n in rank && n in g0 && g0[n].floor.None? ==> rank[seeds[i]] < rank[n]
  }

  /**
    A node given a floor took it from the first visited of the nodes that may hand it one:
    no visited node with an edge to it that a floor may cross was visited before its parent.
  */
  ghost predicate ParentFirst(g: FloorGraph, rank: map<string, nat>, parent: map<string, string>) {
    (forall n :: n in parent ==> parent[n] in rank)
    && forall n, m :: n in parent && m in rank && m in g && HasEdgeTo(g[m].edges, n) && !CrossFloorHop(m, n) ==>
      rank[parent[n]] <= rank[m]
  }

  /**
    The queue holds the `|seeds| - taken` seeds not yet dequeued, in seed order, and behind
    them only entries for nodes that had no floor.
  */
  ghost predicate SeedsAhead(g0: FloorGraph, seeds: seq<string>, taken: nat, queue: seq<QueueItem>) {
    taken <= |seeds| <= taken + |queue|
    && (forall i :: 0 <= i < |seeds| ==> seeds[i] in g0 && g0[seeds[i]].floor.Some?)
    && (forall i :: 0 <= i < |seeds| - taken ==> queue[i].id == seeds[taken + i])
    && (forall i :: |seeds| - taken <= i < |queue| ==> queue[i].id in g0 && g0[queue[i].id].floor.None?)
  }

  /** The `taken` seeds dequeued were visited in seed order, and while seeds remain only seeds are visited. */
  ghost predicate SeedsRanked(g0: FloorGraph, seeds: seq<string>, taken: nat, visited: set<string>, rank: map<string, nat>) {
    taken <= |seeds|
    && FollowsSeeds(seeds, rank, taken)
    && SeedsFirst(g0, seeds, rank, taken)
    && (taken < |seeds| ==> forall v :: v in visited ==> v in seeds[..taken])
  }

  /** Behind the seeds, the entries come in the order in which the nodes that pushed them were visited. */
  ghost predicate PushOrder(seeds: seq<string>, taken: nat, rank: map<string, nat>, queue: seq<QueueItem>, via: seq<string>) {
    taken <= |seeds| && |via| == |queue|
    && (forall i :: |seeds| - taken <= i < |queue| ==> via[i] in rank)
    && (forall i, j :: |seeds| - taken <= i < j < |queue| ==> rank[via[i]] <= rank[via[j]])
  }

  /**
    Every visited node with an edge a floor may cross to an unvisited node that had no floor
    has an entry for that node queued, pushed by a node visited no later than itself.
  */
  ghost predicate Pending(g0: FloorGraph, g: FloorGraph, visited: set<string>, rank: map<string, nat>, queue: seq<QueueItem>, via: seq<string>) {
    |via| == |queue|
    && forall m, n ::
      (m in rank && m in g && n in g0 && n in g && n !in visited && g0[n].floor.None? && HasEdgeTo(g[m].edges, n) && !CrossFloorHop(m, n)) ==>
      exists i :: 0 <= i < |queue| && queue[i].id == n && via[i] in rank && rank[via[i]] <= rank[m]
  }

  /** The second loop invariant of the propagation: the order in which nodes are visited. */
  ghost predicate Queued(g0: FloorGraph, g: FloorGraph, seeds: seq<string>, taken: nat, visited: set<string>, rank: map<string, nat>,
                         parent: map<string, string>, queue: seq<QueueItem>, via: seq<string>)
  {
    SeedsAhead(g0, seeds, taken, queue)
    && SeedsRanked(g0, seeds, taken, visited, rank)
    && PushOrder(seeds, taken, rank, queue, via)
    && Pending(g0, g, visited, rank, queue, via)
    && ParentFirst(g, rank, parent)
  }

  /** The seeds dequeued after one more dequeue. */
  function TakenAfter(taken: nat, seeds: seq<string>): (r: nat)
    ensures r == if taken < |seeds| then taken + 1 else taken
  {
    if taken < |seeds| then taken + 1 else taken
  }

  lemma QueuedStarts(g0: FloorGraph, keys: seq<string>, seeds: seq<string>, queue: seq<QueueItem>)
    requires forall k :: k in keys <==> k in g0
    requires seeds == SeedOrder(g0, keys)
    requires |queue| == |seeds| && forall i :: 0 <= i < |seeds| ==> queue[i] == QueueItem(seeds[i], g0[seeds[i]].floor.value)
    ensures Queued(g0, g0, seeds, 0, {}, map[], map[], queue, seeds)
  {
    assert forall i :: 0 <= i < |seeds| ==> seeds[i] in seeds;
  }

  /**
    Parents come in the order of their children: a node visited later took its floor from a
    node visited no earlier than the parent of one visited before it. This is what makes the
    traversal breadth-first: the nearest seed hands on its floor.
  */
  ghost predicate ParentsInOrder(rank: map<string, nat>, parent: map<string, string>) {
    (forall n :: n in parent ==> n in rank && parent[n] in rank)
    && forall a, b :: a in parent && b in parent && rank[a] < rank[b] ==> rank[parent[a]] <= rank[parent[b]]
  }

  /**
    On the chain A(G)-p1-p2-p3-r-q-B(1), a depth-first order that hands G on along the whole
    chain (A, B, p1, p2, p3, r, then q from B) is not in parent order, so it cannot be the
    propagation's. The queue visits A, B, p1, q, p2, r, p3, and r takes floor 1 from q.
  */
  lemma DepthFirstOrderExcluded()
    ensures !ParentsInOrder(map["A" := 0, "B" := 1, "p1" := 2, "p2" := 3, "p3" := 4, "r" := 5, "q" := 6],
                            map["p1" := "A", "p2" := "p1", "p3" := "p2", "r" := "p3", "q" := "B"])
  {
    var rank := map["A" := 0, "B" := 1, "p1" := 2, "p2" := 3, "p3" := 4, "r" := 5, "q" := 6];
    var parent := map["p1" := "A", "p2" := "p1", "p3" := "p2", "r" := "p3", "q" := "B"];
    assert rank["p3"] < rank["q"] && rank[parent["p3"]] > rank[parent["q"]];
  }

  /** Every parent so far was visited no later than any node that pushed an entry queued behind the seeds. */
  ghost predicate ParentsBeforeQueue(seeds: seq<string>, taken: nat, rank: map<string, nat>, parent: map<string, string>,
                                     queue: seq<QueueItem>, via: seq<string>)
  {
    taken <= |seeds| && |via| == |queue|
    && forall a, i :: a in parent && |seeds| - taken <= i < |queue| && parent[a] in rank && via[i] in rank ==>
      rank[parent[a]] <= rank[via[i]]
  }

  /** The third loop invariant of the propagation: the order in which floors are handed on. */
  ghost predicate Ordered(seeds: seq<string>, taken: nat, rank: map<string, nat>, parent: map<string, string>,
                          queue: seq<QueueItem>, via: seq<string>)
  {
    ParentsInOrder(rank, parent) && ParentsBeforeQueue(seeds, taken, rank, parent, queue, via)
  }

  lemma SkipKeepsOrdered(seeds: seq<string>, taken: nat, rank: map<string, nat>, parent: map<string, string>,
                         queue: seq<QueueItem>, via: seq<string>)
    requires Ordered(seeds, taken, rank, parent, queue, via) && |queue| > 0
    ensures Ordered(seeds, TakenAfter(taken, seeds), rank, parent, queue[1..], via[1..])
  {
    var taken1 := TakenAfter(taken, seeds);
    forall a, i | a in parent && |seeds| - taken1 <= i < |queue| - 1 && parent[a] in rank && via[1..][i] in rank
      ensures rank[parent[a]] <= rank[via[1..][i]]
    {
      assert via[1..][i] == via[i + 1];
    }
  }

  /** Only once the seeds are used up can a node that had no floor be at the queue's head. */
  lemma FloorlessHeadPastSeeds(g0: FloorGraph, g: FloorGraph, ground: set<string>, visited: set<string>, rank: map<string, nat>,
                               count: nat, seeds: seq<string>, taken: nat, queue: seq<QueueItem>)
    requires FloorState(g0, g, ground, visited, rank, count) && SeedsAhead(g0, seeds, taken, queue)
    requires |queue| > 0 && queue[0].id in g && g[queue[0].id].floor.None?
    ensures taken == |seeds|
  {
  }

  /** Visiting the head entry keeps the order in which floors are handed on. */
  lemma VisitKeepsOrdered(g0: FloorGraph, ground: set<string>, g: FloorGraph, seeds: seq<string>, taken: nat, visited: set<string>,
                          rank: map<string, nat>, parent: map<string, string>, count: nat, queue: seq<QueueItem>, via: seq<string>,
                          pushed: seq<QueueItem>, parent1: map<string, string>)
    requires FloorState(g0, g, ground, visited, rank, count) && SeedsAhead(g0, seeds, taken, queue)
    requires Ordered(seeds, taken, rank, parent, queue, via) && PushOrder(seeds, taken, rank, queue, via)
    requires |queue| > 0 && queue[0].id in g && queue[0].id !in visited
    requires parent1 == if g[queue[0].id].floor.None? then parent[queue[0].id := via[0]] else parent
    ensures Ordered(seeds, TakenAfter(taken, seeds), rank[queue[0].id := count], parent1, queue[1..] + pushed,
                    via[1..] + Repeat(queue[0].id, |pushed|))
  {
    if g[queue[0].id].floor.None? {
      FloorlessHeadPastSeeds(g0, g, ground, visited, rank, count, seeds, taken, queue);
    }
    HandOnKeepsOrdered(seeds, taken, rank, parent, count, queue, via, g[queue[0].id].floor.None?, pushed, parent1);
  }

  /**
    Visiting the head entry `x`: if `x` inherits, its parent is the head's pusher, which
    comes after every earlier parent; its own entries go to the back behind everything.
  */
  lemma HandOnKeepsOrdered(seeds: seq<string>, taken: nat, rank: map<string, nat>, parent: map<string, string>, count: nat,
                          queue: seq<QueueItem>, via: seq<string>, inherits: bool, pushed: seq<QueueItem>, parent1: map<string, string>)
    requires Ordered(seeds, taken, rank, parent, queue, via) && PushOrder(seeds, taken, rank, queue, via)
    requires |queue| > 0 && queue[0].id !in rank && forall k :: k in rank ==> rank[k] < count
    requires inherits ==> taken == |seeds|
    requires parent1 == if inherits then parent[queue[0].id := via[0]] else parent
    ensures Ordered(seeds, TakenAfter(taken, seeds), rank[queue[0].id := count], parent1, queue[1..] + pushed,
                    via[1..] + Repeat(queue[0].id, |pushed|))
  {
    if inherits {
      assert via[0] in rank;
      assert forall a :: a in parent ==> rank[parent[a]] <= rank[via[0]];
    }
    VisitKeepsParentsInOrder(rank, parent, count, queue[0].id, via[0], inherits, parent1);
    VisitKeepsParentsBeforeQueue(seeds, taken, rank, parent, count, queue, via, inherits, pushed, parent1);
  }

  lemma VisitKeepsParentsInOrder(rank: map<string, nat>, parent: map<string, string>, count: nat, x: string, v0: string,
                                 inherits: bool, parent1: map<string, string>)
    requires ParentsInOrder(rank, parent)
    requires x !in rank && forall k :: k in rank ==> rank[k] < count
    requires inherits ==> v0 in rank && forall a :: a in parent ==> rank[parent[a]] <= rank[v0]
    requires parent1 == if inherits then parent[x := v0] else parent
    ensures ParentsInOrder(rank[x := count], parent1)
  {
    var rank1 := rank[x := count];
    assert forall n :: n in parent1 ==> n in rank1 && parent1[n] in rank && parent1[n] != x;
    forall a, b | a in parent1 && b in parent1 && rank1[a] < rank1[b]
      ensures rank1[parent1[a]] <= rank1[parent1[b]]
    {
      if b == x {
        assert rank[parent[a]] <= rank[v0];
      }
    }
  }

  lemma VisitKeepsParentsBeforeQueue(seeds: seq<string>, taken: nat, rank: map<string, nat>, parent: map<string, string>, count: nat,
                                     queue: seq<QueueItem>, via: seq<string>, inherits: bool, pushed: seq<QueueItem>,
                                     parent1: map<string, string>)
    requires ParentsInOrder(rank, parent) && ParentsBeforeQueue(seeds, taken, rank, parent, queue, via)
    requires PushOrder(seeds, taken, rank, queue, via)
    requires |queue| > 0 && queue[0].id !in rank && forall k :: k in rank ==> rank[k] < count
    requires inherits ==> taken == |seeds|
    requires parent1 == if inherits then parent[queue[0].id := via[0]] else parent
    ensures ParentsBeforeQueue(seeds, TakenAfter(taken, seeds), rank[queue[0].id := count], parent1, queue[1..] + pushed,
                               via[1..] + Repeat(queue[0].id, |pushed|))
  {
    var x := queue[0].id;
    var rank1 := rank[x := count];
    var taken1 := TakenAfter(taken, seeds);
    var queue1, via1 := queue[1..] + pushed, via[1..] + Repeat(x, |pushed|);
    forall a, i | a in parent1 && |seeds| - taken1 <= i < |queue1| && parent1[a] in rank1 && via1[i] in rank1
      ensures rank1[parent1[a]] <= rank1[via1[i]]
    {
      var p := parent1[a];
      assert p in rank && p != x;
      if i < |queue| - 1 {
        assert via1[i] == via[i + 1] && via[i + 1] in rank;
        if a == x && inherits {
          assert rank[via[0]] <= rank[via[i + 1]];
        } else {
          assert rank[parent[a]] <= rank[via[i + 1]];
        }
      } else {
        assert via1[i] == x;
      }
    }
  }

  lemma QueuedEnds(g0: FloorGraph, g: FloorGraph, seeds: seq<string>, taken: nat, visited: set<string>, rank: map<string, nat>,
                   parent: map<string, string>, via: seq<string>)
    requires Queued(g0, g, seeds, taken, visited, rank, parent, [], via)
    ensures FollowsSeeds(seeds, rank, |seeds|) && SeedsFirst(g0, seeds, rank, |seeds|) && ParentFirst(g, rank, parent)
  {
  }

  /** Dropping an entry for a node already visited keeps the order invariant. */
  lemma SkipKeepsQueued(g0: FloorGraph, g: FloorGraph, seeds: seq<string>, taken: nat, visited: set<string>, rank: map<string, nat>,
                        parent: map<string, string>, queue: seq<QueueItem>, via: seq<string>)
    requires Queued(g0, g, seeds, taken, visited, rank, parent, queue, via)
    requires |queue| > 0 && queue[0].id in visited && rank.Keys == visited
    ensures Queued(g0, g, seeds, TakenAfter(taken, seeds), visited, rank, parent, queue[1..], via[1..])
  {
    SkipKeepsSeedsAhead(g0, seeds, taken, queue);
    SkipKeepsSeedsRanked(g0, seeds, taken, visited, rank, queue);
    SkipKeepsPushOrder(seeds, taken, rank, queue, via);
    SkipKeepsPending(g0, g, visited, rank, queue, via);
  }

  lemma SkipKeepsSeedsAhead(g0: FloorGraph, seeds: seq<string>, taken: nat, queue: seq<QueueItem>)
    requires SeedsAhead(g0, seeds, taken, queue) && |queue| > 0
    ensures SeedsAhead(g0, seeds, TakenAfter(taken, seeds), queue[1..])
  {
    assert forall i :: 0 <= i < |queue| - 1 ==> queue[1..][i] == queue[i + 1];
  }

  lemma SkipKeepsSeedsRanked(g0: FloorGraph, seeds: seq<string>, taken: nat, visited: set<string>, rank: map<string, nat>, queue: seq<QueueItem>)
    requires SeedsAhead(g0, seeds, taken, queue) && SeedsRanked(g0, seeds, taken, visited, rank)
    requires |queue| > 0 && queue[0].id in visited && visited == rank.Keys
    ensures SeedsRanked(g0, seeds, TakenAfter(taken, seeds), visited, rank)
  {
    if taken < |seeds| {
      assert seeds[taken] == queue[0].id;
      SeedSkippedRanked(g0, seeds, taken, visited, rank);
    }
  }

  /** Dropping a seed that was already visited (it occurs twice in the seed order) keeps the seeds ranked. */
  lemma SeedSkippedRanked(g0: FloorGraph, seeds: seq<string>, taken: nat, visited: set<string>, rank: map<string, nat>)
    requires taken < |seeds| && seeds[taken] in visited && visited == rank.Keys
    requires SeedsRanked(g0, seeds, taken, visited, rank)
    requires forall i :: 0 <= i < |seeds| ==> seeds[i] in g0 && g0[seeds[i]].floor.Some?
    ensures SeedsRanked(g0, seeds, taken + 1, visited, rank)
  {
    var x := seeds[taken];
    assert x in seeds[..taken];
    forall i, j | 0 <= i < j < taken + 1 && seeds[j] !in seeds[..j]
      ensures rank[seeds[i]] < rank[seeds[j]]
    {
      assert j < taken;
    }
    forall n | n in rank
      ensures n in g0 && g0[n].floor.Some?
    {
      var k :| 0 <= k < taken && seeds[..taken][k] == n;
      assert seeds[k] == n;
    }
    assert seeds[..taken + 1] == seeds[..taken] + [x];
    assert FollowsSeeds(seeds, rank, taken + 1);
    assert SeedsFirst(g0, seeds, rank, taken + 1);
    assert taken + 1 < |seeds| ==> forall v :: v in visited ==> v in seeds[..taken + 1];
  }


  lemma SkipKeepsPushOrder(seeds: seq<string>, taken: nat, rank: map<string, nat>, queue: seq<QueueItem>, via: seq<string>)
    requires PushOrder(seeds, taken, rank, queue, via) && |queue| > 0
    ensures PushOrder(seeds, TakenAfter(taken, seeds), rank, queue[1..], via[1..])
  {
    assert forall i :: 0 <= i < |via| - 1 ==> via[1..][i] == via[i + 1];
  }

  lemma SkipKeepsPending(g0: FloorGraph, g: FloorGraph, visited: set<string>, rank: map<string, nat>, queue: seq<QueueItem>, via: seq<string>)
    requires Pending(g0, g, visited, rank, queue, via)
    requires |queue| > 0 && queue[0].id in visited
    ensures Pending(g0, g, visited, rank, queue[1..], via[1..])
  {
    forall m, n | m in rank && m in g && n in g0 && n in g && n !in visited && g0[n].floor.None?
        && HasEdgeTo(g[m].edges, n) && !CrossFloorHop(m, n)
      ensures exists i :: 0 <= i < |queue| - 1 && queue[1..][i].id == n && via[1..][i] in rank && rank[via[1..][i]] <= rank[m]
    {
      var i :| 0 <= i < |queue| && queue[i].id == n && via[i] in rank && rank[via[i]] <= rank[m];
      assert i > 0 && queue[1..][i - 1] == queue[i] && via[1..][i - 1] == via[i];
    }
  }

  /**
    The front entry of a node that had no floor was pushed by the first visited of the nodes
    that may hand it a floor.
  */
  lemma FrontIsFirst(g0: FloorGraph, g: FloorGraph, seeds: seq<string>, taken: nat, visited: set<string>, rank: map<string, nat>,
                     queue: seq<QueueItem>, via: seq<string>)
    requires SeedsAhead(g0, seeds, taken, queue) && PushOrder(seeds, taken, rank, queue, via) && Pending(g0, g, visited, rank, queue, via)
    requires |queue| > 0 && queue[0].id in g && queue[0].id in g0 && queue[0].id !in visited && g0[queue[0].id].floor.None?
    ensures via[0] in rank
    ensures forall m :: m in rank && m in g && HasEdgeTo(g[m].edges, queue[0].id) && !CrossFloorHop(m, queue[0].id) ==>
      rank[via[0]] <= rank[m]
  {
    var x := queue[0].id;
    if taken < |seeds| {
      assert false;
    }
    forall m | m in rank && m in g && HasEdgeTo(g[m].edges, x) && !CrossFloorHop(m, x)
      ensures rank[via[0]] <= rank[m]
    {
      var i :| 0 <= i < |queue| && queue[i].id == x && via[i] in rank && rank[via[i]] <= rank[m];
      if i > 0 {
        assert rank[via[0]] <= rank[via[i]];
      }
    }
  }

  /** Visiting the front entry keeps the order invariant. */
  lemma VisitKeepsQueued(g0: FloorGraph, ground: set<string>, g: FloorGraph, seeds: seq<string>, taken: nat, visited: set<string>,
                         rank: map<string, nat>, parent: map<string, string>, count: nat, queue: seq<QueueItem>, via: seq<string>,
                         g1: FloorGraph, pushed: seq<QueueItem>, parent1: map<string, string>)
    requires FloorState(g0, g, ground, visited, rank, count) && QueueState(g0, g, visited, queue, via)
    requires Queued(g0, g, seeds, taken, visited, rank, parent, queue, via)
    requires |queue| > 0 && queue[0].id !in visited
    requires g1 == if g[queue[0].id].floor.None? then g[queue[0].id := g[queue[0].id].(floor := Some(queue[0].floor))] else g
    requires pushed == Pushes(g1, visited + {queue[0].id}, ground, queue[0].id, queue[0].floor, g1[queue[0].id].edges)
    requires parent1 == if g[queue[0].id].floor.None? then parent[queue[0].id := via[0]] else parent
    ensures Queued(g0, g1, seeds, TakenAfter(taken, seeds), visited + {queue[0].id}, rank[queue[0].id := count], parent1,
                   queue[1..] + pushed, via[1..] + Repeat(queue[0].id, |pushed|))
  {
    var x := queue[0].id;
    TakeFloorFacts(g, x, queue[0].floor, g1);
    PushesSound(g1, visited + {x}, ground, x, queue[0].floor, g1[x].edges);
    PushesComplete(g1, visited + {x}, ground, x, queue[0].floor, g1[x].edges);
    VisitKeepsSeedsAhead(g0, ground, g, seeds, taken, visited, rank, count, queue, g1, pushed);
    VisitKeepsSeedsRanked(g0, ground, g, seeds, taken, visited, rank, count, queue);
    VisitKeepsPushOrder(seeds, taken, visited, rank, count, queue, via, pushed);
    VisitEnqueues(g0, ground, g, visited, rank, count, x, g1);
    VisitKeepsPending(g0, ground, g, visited, rank, count, queue, via, g1, pushed);
    if g[x].floor.None? {
      FrontIsFirst(g0, g, seeds, taken, visited, rank, queue, via);
    }
    VisitKeepsParentFirst(g, rank, parent, count, x, via[0], g[x].floor.None?, g1, parent1);
  }

  /** The node `x` being visited enqueues every unvisited neighbour that had no floor and that a floor may reach. */
  lemma VisitEnqueues(g0: FloorGraph, ground: set<string>, g: FloorGraph, visited: set<string>, rank: map<string, nat>, count: nat,
                      x: string, g1: FloorGraph)
    requires FloorState(g0, g, ground, visited, rank, count)
    requires g1.Keys == g.Keys && forall k :: k in g1 && k != x ==> g1[k] == g[k]
    ensures forall n :: n in g1 && n in g0 && n !in visited && n != x && g0[n].floor.None? && !CrossFloorHop(x, n) ==>
      Enqueues(g1, visited + {x}, ground, x, n)
  {
  }

  lemma VisitKeepsSeedsAhead(g0: FloorGraph, ground: set<string>, g: FloorGraph, seeds: seq<string>, taken: nat, visited: set<string>,
                             rank: map<string, nat>, count: nat, queue: seq<QueueItem>, g1: FloorGraph, pushed: seq<QueueItem>)
    requires FloorState(g0, g, ground, visited, rank, count)
    requires SeedsAhead(g0, seeds, taken, queue)
    requires |queue| > 0 && queue[0].id in g && queue[0].id !in visited
    requires g1.Keys == g.Keys && forall k :: k in g1 && k != queue[0].id ==> g1[k] == g[k]
    requires forall it :: it in pushed ==> Enqueues(g1, visited + {queue[0].id}, ground, queue[0].id, it.id)
    ensures SeedsAhead(g0, seeds, TakenAfter(taken, seeds), queue[1..] + pushed)
  {
    var q := queue[1..] + pushed;
    var start := |seeds| - TakenAfter(taken, seeds);
    forall i | start <= i < |q|
      ensures q[i].id in g0 && g0[q[i].id].floor.None?
    {
      if i < |queue| - 1 {
        assert q[i] == queue[i + 1];
      } else {
        assert q[i] in pushed;
      }
    }
    forall i | 0 <= i < start
      ensures q[i].id == seeds[TakenAfter(taken, seeds) + i]
    {
      assert q[i] == queue[i + 1];
    }
  }

  lemma VisitKeepsSeedsRanked(g0: FloorGraph, ground: set<string>, g: FloorGraph, seeds: seq<string>, taken: nat, visited: set<string>,
                              rank: map<string, nat>, count: nat, queue: seq<QueueItem>)
    requires FloorState(g0, g, ground, visited, rank, count)
    requires SeedsAhead(g0, seeds, taken, queue) && SeedsRanked(g0, seeds, taken, visited, rank)
    requires |queue| > 0 && queue[0].id in g && queue[0].id !in visited
    ensures SeedsRanked(g0, seeds, TakenAfter(taken, seeds), visited + {queue[0].id}, rank[queue[0].id := count])
  {
    if taken < |seeds| {
      SeedTakenRanked(g0, seeds, taken, visited, rank, count, queue[0].id);
    } else {
      PastSeedsRanked(g0, seeds, visited, rank, count, queue[0].id);
    }
  }

  /** Visiting the next seed extends the seed-ordered prefix by one. */
  lemma SeedTakenRanked(g0: FloorGraph, seeds: seq<string>, taken: nat, visited: set<string>, rank: map<string, nat>, count: nat,
                        x: string)
    requires taken < |seeds| && x == seeds[taken]
    requires SeedsRanked(g0, seeds, taken, visited, rank)
    requires forall i :: 0 <= i < |seeds| ==> seeds[i] in g0 && g0[seeds[i]].floor.Some?
    requires rank.Keys == visited && x !in visited && forall k :: k in rank ==> rank[k] < count
    ensures SeedsRanked(g0, seeds, taken + 1, visited + {x}, rank[x := count])
  {
    var rank1 := rank[x := count];
    assert seeds[..taken + 1] == seeds[..taken] + [x];
    forall n | n in rank
      ensures n in g0 && g0[n].floor.Some?
    {
      var k :| 0 <= k < taken && seeds[..taken][k] == n;
      assert seeds[k] == n;
    }
    forall i, j | 0 <= i < j < taken + 1 && seeds[j] !in seeds[..j]
      ensures rank1[seeds[i]] < rank1[seeds[j]]
    {
      if j == taken {
        assert seeds[i] in rank && seeds[i] != x;
      }
    }
  }

  /** Once the seeds are used up, visiting a node that had no floor keeps the seeds ranked first. */
  lemma PastSeedsRanked(g0: FloorGraph, seeds: seq<string>, visited: set<string>, rank: map<string, nat>, count: nat, x: string)
    requires SeedsRanked(g0, seeds, |seeds|, visited, rank)
    requires x in g0 && g0[x].floor.None?
    requires rank.Keys == visited && x !in visited && forall k :: k in rank ==> rank[k] < count
    ensures SeedsRanked(g0, seeds, |seeds|, visited + {x}, rank[x := count])
  {
  }


  lemma VisitKeepsPushOrder(seeds: seq<string>, taken: nat, visited: set<string>,
                            rank: map<string, nat>, count: nat, queue: seq<QueueItem>, via: seq<string>, pushed: seq<QueueItem>)
    requires rank.Keys == visited && forall k :: k in rank ==> rank[k] < count
    requires PushOrder(seeds, taken, rank, queue, via)
    requires |queue| > 0 && queue[0].id !in visited
    ensures PushOrder(seeds, TakenAfter(taken, seeds), rank[queue[0].id := count], queue[1..] + pushed,
                      via[1..] + Repeat(queue[0].id, |pushed|))
  {
    var x := queue[0].id;
    var rank1 := rank[x := count];
    var q, v := queue[1..] + pushed, via[1..] + Repeat(x, |pushed|);
    var start := |seeds| - TakenAfter(taken, seeds);
    assert forall i :: start <= i < |queue| - 1 ==> v[i] == via[i + 1] && via[i + 1] in rank && via[i + 1] != x;
    assert forall i :: |queue| - 1 <= i < |q| ==> v[i] == x;
    forall i, j | start <= i < j < |q|
      ensures rank1[v[i]] <= rank1[v[j]]
    {
      if j < |queue| - 1 {
        assert rank[via[i + 1]] <= rank[via[j + 1]];
      }
    }
  }

  lemma VisitKeepsPending(g0: FloorGraph, ground: set<string>, g: FloorGraph, visited: set<string>,
                          rank: map<string, nat>, count: nat, queue: seq<QueueItem>, via: seq<string>,
                          g1: FloorGraph, pushed: seq<QueueItem>)
    requires rank.Keys == visited
    requires Pending(g0, g, visited, rank, queue, via)
    requires |queue| > 0 && queue[0].id in g1 && queue[0].id !in visited
    requires g1.Keys == g.Keys && forall k :: k in g1 ==> g1[k].edges == g[k].edges
    requires forall e :: e in g1[queue[0].id].edges && Enqueues(g1, visited + {queue[0].id}, ground, queue[0].id, e.to) ==>
      QueueItem(e.to, queue[0].floor) in pushed
    requires forall n :: n in g1 && n in g0 && n !in visited && n != queue[0].id && g0[n].floor.None? && !CrossFloorHop(queue[0].id, n) ==>
      Enqueues(g1, visited + {queue[0].id}, ground, queue[0].id, n)
    ensures Pending(g0, g1, visited + {queue[0].id}, rank[queue[0].id := count], queue[1..] + pushed,
                    via[1..] + Repeat(queue[0].id, |pushed|))
  {
    var x := queue[0].id;
    var visited1, rank1 := visited + {x}, rank[x := count];
    var q, v := queue[1..] + pushed, via[1..] + Repeat(x, |pushed|);
    forall m, n | m in rank1 && m in g1 && n in g0 && n in g1 && n !in visited1 && g0[n].floor.None?
        && HasEdgeTo(g1[m].edges, n) && !CrossFloorHop(m, n)
      ensures exists i :: 0 <= i < |q| && q[i].id == n && v[i] in rank1 && rank1[v[i]] <= rank1[m]
    {
      if m == x {
        var k :| 0 <= k < |g1[x].edges| && g1[x].edges[k].to == n;
        assert g1[x].edges[k] in g1[x].edges;
        var p :| 0 <= p < |pushed| && pushed[p] == QueueItem(n, queue[0].floor);
        assert q[|queue| - 1 + p] == pushed[p] && v[|queue| - 1 + p] == x;
      } else {
        assert HasEdgeTo(g[m].edges, n);
        var i :| 0 <= i < |queue| && queue[i].id == n && via[i] in rank && rank[via[i]] <= rank[m];
        assert i > 0 && q[i - 1] == queue[i] && v[i - 1] == via[i] && via[i] != x;
      }
    }
  }

  lemma VisitKeepsParentFirst(g: FloorGraph, rank: map<string, nat>, parent: map<string, string>, count: nat, x: string, v0: string,
                              inherits: bool, g1: FloorGraph, parent1: map<string, string>)
    requires ParentFirst(g, rank, parent)
    requires x !in rank && forall k :: k in rank ==> rank[k] < count
    requires g1.Keys == g.Keys && forall k :: k in g1 ==> g1[k].edges == g[k].edges
    requires inherits ==> v0 in rank && forall m :: m in rank && m in g && HasEdgeTo(g[m].edges, x) && !CrossFloorHop(m, x) ==> rank[v0] <= rank[m]
    requires parent1 == if inherits then parent[x := v0] else parent
    ensures ParentFirst(g1, rank[x := count], parent1)
  {
    var rank1 := rank[x := count];
    forall n, m | n in parent1 && m in rank1 && m in g1 && HasEdgeTo(g1[m].edges, n) && !CrossFloorHop(m, n)
      ensures rank1[parent1[n]] <= rank1[m]
    {
      if m != x {
        assert HasEdgeTo(g[m].edges, n);
      }
    }
  }

  // ---------------------------------------------------------------------------------------
  // Where the propagated floors come from, and where they reach
  // ---------------------------------------------------------------------------------------

  /** `p` walks along edges of `g` without a stair/lift-to-stair/lift hop. */
  ghost predicate Walk(g: FloorGraph, p: seq<string>) {
    |p| > 0
    && (forall i :: 0 <= i < |p| ==> p[i] in g)
    && (forall i :: 0 <= i < |p| - 1 ==> HasEdgeTo(g[p[i]].edges, p[i + 1]) && !CrossFloorHop(p[i], p[i + 1]))
  }

  /**
    Every floor the propagation filled in comes from a node whose floor was known before it,
    along a walk of nodes that all share that floor.
  */
  lemma {:induction false} InferredFloorHasSource(g0: FloorGraph, g: FloorGraph, rank: map<string, nat>, parent: map<string, string>, n: string)
    returns (p: seq<string>)
    requires SameButFloor(g0, g) && FloorsInferred(g0, g, rank, parent)
    requires forall k :: k in g0 && g0[k].floor.Some? ==> g[k].floor == g0[k].floor
    requires n in g && g[n].floor.Some?
    ensures Walk(g, p) && p[|p| - 1] == n
    ensures forall i :: 0 <= i < |p| ==> g[p[i]].floor == g[n].floor
    ensures g0[p[0]].floor == g[n].floor
    decreases if n in rank then rank[n] else 0
  {
    if g0[n].floor.Some? {
      p := [n];
    } else {
      var m := parent[n];
      var q := InferredFloorHasSource(g0, g, rank, parent, m);
      p := q + [n];
      assert p[|p| - 2] == m;
      forall i | 0 <= i < |p| - 1
        ensures HasEdgeTo(g[p[i]].edges, p[i + 1]) && !CrossFloorHop(p[i], p[i + 1])
      {
        if i < |p| - 2 {
          assert p[i] == q[i] && p[i + 1] == q[i + 1];
        }
      }
    }
  }

  /** A floor reaches the end of every walk that starts at a node with a floor. */
  lemma {:induction false} FloorReachesAlongWalk(g: FloorGraph, p: seq<string>)
    requires FloorsSpread(g) && Walk(g, p) && g[p[0]].floor.Some?
    ensures g[p[|p| - 1]].floor.Some?
    decreases |p|
  {
    if |p| > 1 {
      var q := p[..|p| - 1];
      assert Walk(g, q);
      FloorReachesAlongWalk(g, q);
      var m, n := p[|p| - 2], p[|p| - 1];
      assert HasEdgeTo(g[m].edges, n) && !CrossFloorHop(m, n);
      var j :| 0 <= j < |g[m].edges| && g[m].edges[j].to == n;
      assert g[m].edges[j] in g[m].edges;
    }
  }

  // ---------------------------------------------------------------------------------------
  // The whole builder
  // ---------------------------------------------------------------------------------------

  /** The floor a node has before the propagation: `G` in the ground section, else its suffix floor. */
  function SeedFloor(defs: seq<NodeDef>, id: string): (f: Option<string>)
    ensures f.Some? ==> f.value == "G" || f.value == "1" || f.value == "2"
  {
    if id in SectionIds(defs, FirstFloorStartIndex(defs)) then Some("G") else FloorFromNodeId(id)
  }

  /** What the connection loop establishes about the edges. */
  ghost predicate EdgeFacts(g: FloorGraph, conns: seq<Connection>, hypot: Hypot) {
    EdgesSymmetric(g) && WeightedByDistance(g, hypot)
    && (forall a, i :: a in g && 0 <= i < |g[a].edges| ==> g[a].edges[i].w > 0.0)
    && EdgesFromConnections(g, conns, |conns|) && ConnectionsPresent(g, conns, |conns|) && NoRepeatedNeighbour(g)
  }

  /** Same ids, coordinates, types and edges; floors may differ. */
  ghost predicate SameShape(g: FloorGraph, g': FloorGraph) {
    g'.Keys == g.Keys
    && forall k :: k in g ==> g'[k].x == g[k].x && g'[k].y == g[k].y && g'[k].kind == g[k].kind && g'[k].edges == g[k].edges
  }

  lemma GroundKeepsShape(g: FloorGraph, g': FloorGraph, ground: set<string>)
    requires g'.Keys == g.Keys
    requires forall k :: k in g ==> g'[k] == if k in ground then g[k].(floor := Some("G")) else g[k]
    ensures SameShape(g, g')
  {
  }

  /** The edge facts do not depend on floors. */
  lemma EdgeFactsIgnoreFloors(g: FloorGraph, g': FloorGraph, conns: seq<Connection>, hypot: Hypot)
    requires SameShape(g, g') && EdgeFacts(g, conns, hypot)
    ensures EdgeFacts(g', conns, hypot)
  {
    forall a, i | a in g' && 0 <= i < |g'[a].edges| && g'[a].edges[i].to in g'
      ensures var b := g'[a].edges[i].to;
        WeightFits(hypot, g'[a].edges[i].w, g'[a].x, g'[a].y, g'[b].x, g'[b].y)
    {
      var b := g'[a].edges[i].to;
      assert g'[a].edges[i] == g[a].edges[i] && g'[b].x == g[b].x && g'[b].y == g[b].y;
    }
  }

  /**
    `buildManualGraph`: node initialisation, connections, the ground-floor override and the
    floor propagation, in that order. `seeded` is the graph just before the propagation.
  */
  method BuildManualGraph(defs: seq<NodeDef>, conns: seq<Connection>, hypot: Hypot)
    returns (g: FloorGraph, ghost seeded: FloorGraph, ghost rank: map<string, nat>, ghost parent: map<string, string>)
    ensures g.Keys == Definitions(defs).Keys
    ensures forall k :: k in g ==>
      g[k].x == Definitions(defs)[k].x && g[k].y == Definitions(defs)[k].y && g[k].kind == Definitions(defs)[k].kind
    ensures EdgeFacts(g, conns, hypot)
    ensures SameButFloor(seeded, g)
    ensures forall k :: k in seeded ==> seeded[k].floor == SeedFloor(defs, k)
    ensures forall k :: k in seeded && seeded[k].floor.Some? ==> g[k].floor == seeded[k].floor
    ensures FloorsInferred(seeded, g, rank, parent)
    ensures forall n :: n in rank <==> n in g && g[n].floor.Some?
    ensures FollowsSeeds(SeedOrder(seeded, KeyOrder(defs)), rank, |SeedOrder(seeded, KeyOrder(defs))|)
    ensures SeedsFirst(seeded, SeedOrder(seeded, KeyOrder(defs)), rank, |SeedOrder(seeded, KeyOrder(defs))|)
    ensures ParentFirst(g, rank, parent)
    ensures ParentsInOrder(rank, parent)
    ensures FloorsSpread(g)
    ensures forall k :: k in g && g[k].floor.Some? ==> g[k].floor.value == "G" || g[k].floor.value == "1" || g[k].floor.value == "2"
  {
    var nodes, keys := InitNodes(defs);
    var linked := AddConnections(nodes, conns, hypot);
    var cut := FirstFloorStartIndex(defs);
    var withGround, ground := ApplyGroundFloor(linked, defs, cut);
    seeded := withGround;
    SeededFloors(defs, nodes, linked, withGround, ground);
    g, rank, parent := PropagateFloors(withGround, keys, ground);
    assert SameShape(linked, g) by {
      GroundKeepsShape(linked, withGround, ground);
    }
    EdgeFactsIgnoreFloors(linked, g, conns, hypot);
    FloorNamesKept(seeded, g, rank, parent);
  }

  /** Before the propagation every node has its seed floor. */
  lemma SeededFloors(defs: seq<NodeDef>, nodes: FloorGraph, linked: FloorGraph, withGround: FloorGraph, ground: set<string>)
    requires nodes.Keys == Definitions(defs).Keys && forall x :: x in nodes ==> nodes[x] == NewNode(Definitions(defs)[x])
    requires SameButEdges(nodes, linked)
    requires ground == SectionIds(defs, FirstFloorStartIndex(defs)) * linked.Keys
    requires withGround.Keys == linked.Keys
    requires forall k :: k in linked ==> withGround[k] == if k in ground then linked[k].(floor := Some("G")) else linked[k]
    ensures forall k :: k in withGround ==> withGround[k].floor == SeedFloor(defs, k)
  {
    forall k | k in withGround
      ensures withGround[k].floor == SeedFloor(defs, k)
    {
      assert Definitions(defs)[k].id == k;
    }
  }

  /** The propagation only hands on floors that were there: all of them are named `G`, `1` or `2`. */
  lemma FloorNamesKept(seeded: FloorGraph, g: FloorGraph, rank: map<string, nat>, parent: map<string, string>)
    requires SameButFloor(seeded, g) && FloorsInferred(seeded, g, rank, parent)
    requires forall k :: k in seeded && seeded[k].floor.Some? ==> g[k].floor == seeded[k].floor
    requires forall k :: k in seeded && seeded[k].floor.Some? ==>
      seeded[k].floor.value == "G" || seeded[k].floor.value == "1" || seeded[k].floor.value == "2"
    ensures forall k :: k in g && g[k].floor.Some? ==> g[k].floor.value == "G" || g[k].floor.value == "1" || g[k].floor.value == "2"
  {
    forall n | n in g && g[n].floor.Some?
      ensures g[n].floor.value == "G" || g[n].floor.value == "1" || g[n].floor.value == "2"
    {
      var p := InferredFloorHasSource(seeded, g, rank, parent, n);
    }
  }
}
