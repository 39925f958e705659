/**
  The graph model shared by the builders and the search: nodes with planar coordinates and
  an adjacency list of weighted edges, keyed by string id. A node's kind is read from its
  id, as the navigation code does: `nav_room` anywhere in the id marks a room, `nav_path`
  a path waypoint, and a `nav_stair_`/`nav_lift_` prefix a vertical-transit node.
*/
module NavModel {
  import opened JsText

  /**
    `Math.hypot(dx, dy)`: the model does not compute square roots, so the Euclidean length
    is taken as a parameter of this type; all that is assumed of it is that it is never
    negative and that the length of (0, 0) is 0.
  */
  type Hypot = h: (real, real) -> real | h(0.0, 0.0) == 0.0 && forall dx: real, dy: real :: h(dx, dy) >= 0.0
    witness (dx: real, dy: real) => 0.0

  /** `Math.hypot(dx, dy) || 1`: the weight both builders give an edge. */
  function EdgeWeight(hypot: Hypot, dx: real, dy: real): (w: real)
    ensures w > 0.0
    ensures hypot(dx, dy) > 0.0 ==> w == hypot(dx, dy)
    ensures hypot(dx, dy) == 0.0 ==> w == 1.0
  {
    var d := hypot(dx, dy);
    if d == 0.0 then 1.0 else d
  }

  /** One adjacency entry `{ to, w }`. */
  datatype Edge = Edge(to: string, w: real)

  /** One node `{ x, y, edges }` of the search graph. */
  datatype NavNode = NavNode(x: real, y: real, edges: seq<Edge>)

  type Graph = map<string, NavNode>

  predicate IsRoomId(id: string) {
    Includes(id, "nav_room")
  }

  predicate IsPathId(id: string) {
    Includes(id, "nav_path")
  }

  predicate IsStairLiftId(id: string) {
    StartsWith(id, "nav_stair_") || StartsWith(id, "nav_lift_")
  }

  /** `edges.some(e => e.to === to)` */
  predicate HasEdgeTo(edges: seq<Edge>, to: string) {
    exists i :: 0 <= i < |edges| && edges[i].to == to
  }

  /** Every edge target is a node of the graph. */
  ghost predicate Closed(g: Graph) {
    forall a, i :: a in g && 0 <= i < |g[a].edges| ==> g[a].edges[i].to in g
  }

  /** Every edge `a -> b` of weight `w` is matched by an edge `b -> a` of the same weight. */
  ghost predicate Symmetric(g: Graph) {
    forall a, e :: a in g && e in g[a].edges ==> e.to in g && Edge(a, e.w) in g[e.to].edges
  }

  /** No adjacency list names the same neighbour twice. */
  ghost predicate NoDuplicateEdges(g: Graph) {
    forall a, i, j :: a in g && 0 <= i < j < |g[a].edges| ==> g[a].edges[i].to != g[a].edges[j].to
  }

  /** No edge joins two room nodes. */
  ghost predicate NoRoomToRoom(g: Graph) {
    forall a, i :: a in g && 0 <= i < |g[a].edges| ==> !(IsRoomId(a) && IsRoomId(g[a].edges[i].to))
  }
}
