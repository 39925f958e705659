/**
  The navigation graph built from the floor-plan drawing. The scan of the drawing (node
  positions, wall outlines) happens elsewhere; this module starts from the node layout, the
  explicit edges and a wall test, and models how edges are added: `addEdge` rejects
  unknown ends, room-to-room edges and edges that cross a wall, and adds the two directions
  without duplicates; each path node is joined to its nearest path nodes within 200 units
  (at most three, with a fallback among the fourth and fifth), and each room to its nearest
  path nodes. `findNearestNode` picks the node closest to a point.
*/
module SvgGraph {
  import opened Wrappers
  import opened NavModel

  /**
    The wall test `wallSegments.length > 0 && lineIntersectsWalls(x1, y1, x2, y2, wallSegments)`:
    whether the straight line between two points crosses a wall of the drawing.
  */
  type WallTest = (real, real, real, real) -> bool

  /** `MAX_PATH_DISTANCE` */
  const MaxPathDistance: real := 200.0
  /** `MAX_NEIGHBORS` */
  const MaxNeighbours: nat := 3
  /** The fallback looks at the candidates at positions `MAX_NEIGHBORS` up to `MAX_NEIGHBORS + 2`. */
  const FallbackEnd: nat := 5
  /** A room looks at its five nearest path nodes. */
  const RoomCandidates: nat := 5
  /** The room fallback only tries a path node at most this far away. */
  const RoomFallbackDistance: real := 400.0

  function Min(a: nat, b: nat): nat {
    if a < b then a else b
  }

  // ---------------------------------------------------------------------------------------
  // addEdge
  // ---------------------------------------------------------------------------------------

  /** The tests `addEdge` makes before it changes anything. */
  predicate Accepts(g: Graph, walls: WallTest, a: string, b: string, checkWalls: bool) {
    && a in g && b in g
    && !(IsRoomId(a) && IsRoomId(b))
    && !(checkWalls && walls(g[a].x, g[a].y, g[b].x, g[b].y))
  }

  /** Same nodes at the same positions; only adjacency lists may differ. */
  ghost predicate SameLayout(g: Graph, g': Graph) {
    g'.Keys == g.Keys && forall n :: n in g ==> g'[n].x == g[n].x && g'[n].y == g[n].y
  }

  /** The acceptance tests read only node ids and positions. */
  lemma AcceptsOnLayout(g: Graph, g': Graph, walls: WallTest, a: string, b: string, checkWalls: bool)
    requires SameLayout(g, g')
    ensures Accepts(g', walls, a, b, checkWalls) == Accepts(g, walls, a, b, checkWalls)
  {
    if a in g && b in g {
      assert g'[a].x == g[a].x && g'[a].y == g[a].y;
      assert g'[b].x == g[b].x && g'[b].y == g[b].y;
    }
  }

  /** `if (!edges.some(e => e.to === to)) edges.push({ to, w })` */
  function PushOnce(edges: seq<Edge>, to: string, w: real): (r: seq<Edge>)
    ensures HasEdgeTo(r, to)
    ensures edges <= r && |r| <= |edges| + 1
    ensures |r| == |edges| + 1 <==> !HasEdgeTo(edges, to)
    ensures |r| == |edges| + 1 ==> r[|edges|] == Edge(to, w)
    ensures forall e :: e in r[|edges|..] ==> e == Edge(to, w)
  {
    if HasEdgeTo(edges, to) then edges
    else
      assert (edges + [Edge(to, w)])[|edges|].to == to;
      edges + [Edge(to, w)]
  }

  /** The graph after both guarded pushes of an accepted `addEdge(a, b, w)`. */
  function Joined(g: Graph, a: string, b: string, w: real): (r: Graph)
    requires a in g && b in g
    ensures r.Keys == g.Keys
  {
    var g1 := g[a := g[a].(edges := PushOnce(g[a].edges, b, w))];
    g1[b := g1[b].(edges := PushOnce(g1[b].edges, a, w))]
  }

  /**
    `addEdge(a, b, w, checkWalls)`: false and no change when an end is unknown, both ends are
    rooms, or (when walls are checked) the line crosses a wall; otherwise true, with `b`
    pushed onto `a`'s list and `a` onto `b`'s list unless already there.
  */
  method AddEdge(g: Graph, walls: WallTest, a: string, b: string, w: real, checkWalls: bool) returns (g': Graph, added: bool)
    ensures added <==> Accepts(g, walls, a, b, checkWalls)
    ensures !added ==> g' == g
    ensures added ==> g' == Joined(g, a, b, w)
  {
    if a !in g || b !in g {
      return g, false;
    }
    var isARoom := IsRoomId(a);
    var isBRoom := IsRoomId(b);
    if isARoom && isBRoom {
      return g, false;
    }
    if checkWalls {
      var na := g[a];
      var nb := g[b];
      if walls(na.x, na.y, nb.x, nb.y) {
        return g, false;
      }
    }
    g' := g[a := g[a].(edges := PushOnce(g[a].edges, b, w))];
    g' := g'[b := g'[b].(edges := PushOnce(g'[b].edges, a, w))];
    return g', true;
  }

  /** The invariants every graph built here keeps: symmetric edges, no repeats, no room-to-room edge. */
  ghost predicate WellFormed(g: Graph) {
    Symmetric(g) && NoDuplicateEdges(g) && NoRoomToRoom(g)
  }

  /** Every edge passes the wall test in at least one direction. */
  ghost predicate WallFree(g: Graph, walls: WallTest) {
    forall a, e :: a in g && e in g[a].edges ==>
      e.to in g && (!walls(g[a].x, g[a].y, g[e.to].x, g[e.to].y) || !walls(g[e.to].x, g[e.to].y, g[a].x, g[a].y))
  }

  /** A graph whose lists are all empty is well formed. */
  lemma EmptyWellFormed(g: Graph, walls: WallTest)
    requires forall n :: n in g ==> g[n].edges == []
    ensures WellFormed(g) && WallFree(g, walls)
  {
  }

  /**
    The edges of `g'` are those of `g` followed by new ones, and every new edge joins `p`
    with a node of `others`.
  */
  ghost predicate GrowsBetween(g: Graph, g': Graph, p: string, others: set<string>) {
    && SameLayout(g, g')
    && forall n :: n in g ==>
        && g[n].edges <= g'[n].edges
        && forall e :: e in g'[n].edges[|g[n].edges|..] ==> (n == p && e.to in others) || (n in others && e.to == p)
  }

  /** What an accepted `addEdge(a, b, w)` does: `a` and `b` list each other, and only edges between them are new. */
  lemma JoinedLinks(g: Graph, a: string, b: string, w: real)
    requires a in g && b in g
    ensures HasEdgeTo(Joined(g, a, b, w)[a].edges, b) && HasEdgeTo(Joined(g, a, b, w)[b].edges, a)
    ensures GrowsBetween(g, Joined(g, a, b, w), a, {b})
  {
    var r := Joined(g, a, b, w);
    if a == b {
      assert r[a].edges == PushOnce(g[a].edges, a, w);
    } else {
      assert r[a].edges == PushOnce(g[a].edges, b, w);
      assert r[b].edges == PushOnce(g[b].edges, a, w);
    }
    forall n | n in g
      ensures g[n].edges <= r[n].edges
      ensures forall e :: e in r[n].edges[|g[n].edges|..] ==> (n == a && e.to in {b}) || (n in {b} && e.to == a)
    {
      if n != a && n != b {
        assert r[n] == g[n];
        assert r[n].edges[|g[n].edges|..] == [];
      }
    }
  }

  /** In a symmetric graph, `a` lists `b` only if `b` lists `a`. */
  lemma SymmetricHasBack(g: Graph, a: string, b: string)
    requires Symmetric(g) && a in g && HasEdgeTo(g[a].edges, b)
    ensures b in g && HasEdgeTo(g[b].edges, a)
  {
    var i :| 0 <= i < |g[a].edges| && g[a].edges[i].to == b;
    assert g[a].edges[i] in g[a].edges;
    var back := Edge(a, g[a].edges[i].w);
    assert back in g[b].edges;
    var j :| 0 <= j < |g[b].edges| && g[b].edges[j] == back;
    assert g[b].edges[j].to == a;
  }

  /** An accepted `addEdge` keeps the graph well formed. */
  lemma JoinedWellFormed(g: Graph, a: string, b: string, w: real)
    requires WellFormed(g)
    requires a in g && b in g && !(IsRoomId(a) && IsRoomId(b))
    ensures WellFormed(Joined(g, a, b, w))
  {
    var r := Joined(g, a, b, w);
    if HasEdgeTo(g[a].edges, b) {
      SymmetricHasBack(g, a, b);
      assert r == g;
    } else {
      if HasEdgeTo(g[b].edges, a) {
        SymmetricHasBack(g, b, a);
        assert false;
      }
      if a == b {
        assert r[a].edges == g[a].edges + [Edge(a, w)];
      } else {
        assert r[a].edges == g[a].edges + [Edge(b, w)];
        assert r[b].edges == g[b].edges + [Edge(a, w)];
      }
      FreshSymmetric(g, r, a, b, w);
      FreshNoDuplicates(g, r, a, b, w);
      FreshNoRoomToRoom(g, r, a, b, w);
    }
  }

  /** `r` is `g` with the edge between `a` and `b` newly added at both ends (once, when `a == b`). */
  ghost predicate FreshJoin(g: Graph, r: Graph, a: string, b: string, w: real) {
    && a in g && b in g && r.Keys == g.Keys
    && (forall n :: n in g && n != a && n != b ==> r[n].edges == g[n].edges)
    && (a == b ==> r[a].edges == g[a].edges + [Edge(a, w)])
    && (a != b ==> r[a].edges == g[a].edges + [Edge(b, w)] && r[b].edges == g[b].edges + [Edge(a, w)])
  }

  lemma FreshSymmetric(g: Graph, r: Graph, a: string, b: string, w: real)
    requires Symmetric(g) && FreshJoin(g, r, a, b, w)
    ensures Symmetric(r)
  {
    assert Edge(a, w) in r[b].edges && Edge(b, w) in r[a].edges;
    forall x, e | x in r && e in r[x].edges
      ensures e.to in r && Edge(x, e.w) in r[e.to].edges
    {
      if e in g[x].edges {
        assert Edge(x, e.w) in g[e.to].edges;
      } else {
        assert (x == a && e == Edge(b, w)) || (x == b && e == Edge(a, w));
      }
    }
  }

  lemma FreshNoDuplicates(g: Graph, r: Graph, a: string, b: string, w: real)
    requires NoDuplicateEdges(g) && FreshJoin(g, r, a, b, w)
    requires !HasEdgeTo(g[a].edges, b) && !HasEdgeTo(g[b].edges, a)
    ensures NoDuplicateEdges(r)
  {
    forall x, i, j | x in r && 0 <= i < j < |r[x].edges|
      ensures r[x].edges[i].to != r[x].edges[j].to
    {
      if j >= |g[x].edges| {
        assert x == a || x == b;
        assert r[x].edges[i] == g[x].edges[i];
      }
    }
  }

  lemma FreshNoRoomToRoom(g: Graph, r: Graph, a: string, b: string, w: real)
    requires NoRoomToRoom(g) && FreshJoin(g, r, a, b, w) && !(IsRoomId(a) && IsRoomId(b))
    ensures NoRoomToRoom(r)
  {
    forall x, i | x in r && 0 <= i < |r[x].edges|
      ensures !(IsRoomId(x) && IsRoomId(r[x].edges[i].to))
    {
      if i < |g[x].edges| {
        assert r[x].edges[i] == g[x].edges[i];
      }
    }
  }

  /** An edge accepted with the wall test on keeps every edge clear of walls. */
  lemma JoinedWallFree(g: Graph, walls: WallTest, a: string, b: string, w: real)
    requires WallFree(g, walls) && Accepts(g, walls, a, b, true)
    ensures WallFree(Joined(g, a, b, w), walls)
  {
    var r := Joined(g, a, b, w);
    JoinedLinks(g, a, b, w);
    forall x, e | x in r && e in r[x].edges
      ensures e.to in r && (!walls(r[x].x, r[x].y, r[e.to].x, r[e.to].y) || !walls(r[e.to].x, r[e.to].y, r[x].x, r[x].y))
    {
      NewEdgeOrOld(g[x].edges, r[x].edges, e);
    }
  }

  /** An element of a list that extends `old` is in `old` or in the extension. */
  lemma NewEdgeOrOld(before: seq<Edge>, after: seq<Edge>, e: Edge)
    requires before <= after && e in after
    ensures e in before || e in after[|before|..]
  {
    var k :| 0 <= k < |after| && after[k] == e;
    if k >= |before| {
      assert after[|before|..][k - |before|] == e;
    }
  }

  /** Growth by two steps is growth by their union. */
  lemma GrowsTwice(g1: Graph, g2: Graph, g3: Graph, p: string, others: set<string>, more: set<string>)
    requires GrowsBetween(g1, g2, p, others) && GrowsBetween(g2, g3, p, more)
    ensures GrowsBetween(g1, g3, p, others + more)
  {
    forall n | n in g1
      ensures g1[n].edges <= g3[n].edges
      ensures forall e :: e in g3[n].edges[|g1[n].edges|..] ==> (n == p && e.to in others + more) || (n in others + more && e.to == p)
    {
      var e1, e2, e3 := g1[n].edges, g2[n].edges, g3[n].edges;
      assert e3[|e1|..] == e2[|e1|..] + e3[|e2|..];
    }
  }

  lemma GrowsReflexive(g: Graph, p: string)
    ensures GrowsBetween(g, g, p, {})
  {
    forall n | n in g
      ensures forall e :: e in g[n].edges[|g[n].edges|..] ==> false
    {
      assert g[n].edges[|g[n].edges|..] == [];
    }
  }

  /** An edge list that grows keeps every neighbour it had. */
  lemma GrowsKeepsLinks(g: Graph, g': Graph, p: string, others: set<string>, a: string, b: string)
    requires GrowsBetween(g, g', p, others) && a in g && HasEdgeTo(g[a].edges, b)
    ensures HasEdgeTo(g'[a].edges, b)
  {
    var i :| 0 <= i < |g[a].edges| && g[a].edges[i].to == b;
    assert g'[a].edges[i] == g[a].edges[i];
  }

  // ---------------------------------------------------------------------------------------
  // Candidates for a node's connections
  // ---------------------------------------------------------------------------------------

  /** `{ id, dist }` */
  datatype Candidate = Candidate(id: string, dist: real)

  /** `Math.hypot(nodes[to].x - nodes[from].x, nodes[to].y - nodes[from].y)` */
  function Dist(g: Graph, hypot: Hypot, from: string, to: string): (d: real)
    requires from in g && to in g
    ensures d >= 0.0
  {
    hypot(g[to].x - g[from].x, g[to].y - g[from].y)
  }

  /** `ids.filter(id => id.includes(part))` for the path and room tags. */
  function FilterIds(ids: seq<string>, room: bool): (r: seq<string>)
    ensures forall x :: x in r <==> x in ids && (if room then IsRoomId(x) else IsPathId(x))
  {
    if ids == [] then []
    else
      var keep := if room then IsRoomId(ids[0]) else IsPathId(ids[0]);
      (if keep then [ids[0]] else []) + FilterIds(ids[1..], room)
  }

  /**
    `pathNodes.filter(o => o !== pId).map(o => ({ id: o, dist })).filter(p => p.dist <= MAX_PATH_DISTANCE)`:
    the other path nodes within range, each with its distance, in list order.
  */
  function InRange(g: Graph, hypot: Hypot, ids: seq<string>, p: string): (r: seq<Candidate>)
    requires p in g && forall i :: 0 <= i < |ids| ==> ids[i] in g
    ensures forall c :: c in r ==> c.id in ids && c.id != p && c.dist == Dist(g, hypot, p, c.id) && c.dist <= MaxPathDistance
    ensures forall o :: o in ids && o != p && Dist(g, hypot, p, o) <= MaxPathDistance ==> Candidate(o, Dist(g, hypot, p, o)) in r
  {
    if ids == [] then []
    else
      var o := ids[0];
      var rest := InRange(g, hypot, ids[1..], p);
      assert forall x :: x in ids[1..] ==> x in ids;
      if o != p && Dist(g, hypot, p, o) <= MaxPathDistance then [Candidate(o, Dist(g, hypot, p, o))] + rest else rest
  }

  /** `pathNodes.map(pId => ({ id: pId, dist }))` seen from a room: every path node with its distance. */
  function AllDistances(g: Graph, hypot: Hypot, ids: seq<string>, room: string): (r: seq<Candidate>)
    requires room in g && forall i :: 0 <= i < |ids| ==> ids[i] in g
    ensures |r| == |ids|
    ensures forall i :: 0 <= i < |r| ==> r[i] == Candidate(ids[i], Dist(g, hypot, room, ids[i]))
  {
    seq(|ids|, i requires 0 <= i < |ids| => Candidate(ids[i], Dist(g, hypot, room, ids[i])))
  }

  predicate SortedByDist(s: seq<Candidate>) {
    forall i, j :: 0 <= i < j < |s| ==> s[i].dist <= s[j].dist
  }

  /** Insert `c` before the first element that is not nearer than it. */
  function Insert(c: Candidate, s: seq<Candidate>): (r: seq<Candidate>)
    ensures multiset(r) == multiset(s) + multiset{c}
  {
    if s == [] || c.dist <= s[0].dist then [c] + s
    else
      assert s == [s[0]] + s[1..];
      [s[0]] + Insert(c, s[1..])
  }

  /** Lists with the same multiset have the same elements and length. */
  lemma SameElements(a: seq<Candidate>, b: seq<Candidate>)
    requires multiset(a) == multiset(b)
    ensures |a| == |b| && forall x :: x in a <==> x in b
  {
    assert |multiset(a)| == |multiset(b)|;
    forall x
      ensures x in a <==> x in b
    {
      assert x in a <==> x in multiset(a);
      assert x in b <==> x in multiset(b);
    }
  }

  /** Inserting a candidate no nearer than a bound into a list no nearer than it keeps the bound. */
  lemma {:induction false} InsertAbove(c: Candidate, s: seq<Candidate>, bound: real)
    requires bound <= c.dist && forall i :: 0 <= i < |s| ==> bound <= s[i].dist
    ensures forall i :: 0 <= i < |Insert(c, s)| ==> bound <= Insert(c, s)[i].dist
  {
    if s != [] && c.dist > s[0].dist {
      InsertAbove(c, s[1..], bound);
    }
  }

  lemma {:induction false} InsertSorted(c: Candidate, s: seq<Candidate>)
    requires SortedByDist(s)
    ensures SortedByDist(Insert(c, s))
  {
    if s != [] && c.dist > s[0].dist {
      InsertSorted(c, s[1..]);
      InsertAbove(c, s[1..], s[0].dist);
    }
  }

  /**
    `.sort((a, b) => a.dist - b.dist)`: a stable insertion sort by distance; it keeps the
    same elements (`SortByDistSorted` shows the order).
  */
  function SortByDist(s: seq<Candidate>): (r: seq<Candidate>)
    ensures multiset(r) == multiset(s)
  {
    if s == [] then []
    else
      assert s == [s[0]] + s[1..];
      Insert(s[0], SortByDist(s[1..]))
  }

  lemma {:induction false} SortByDistSorted(s: seq<Candidate>)
    ensures SortedByDist(SortByDist(s))
  {
    if s != [] {
      SortByDistSorted(s[1..]);
      InsertSorted(s[0], SortByDist(s[1..]));
    }
  }

  /** `allNearbyPaths`: the other path nodes within range, nearest first. */
  function PathCandidates(g: Graph, hypot: Hypot, pathIds: seq<string>, p: string): (r: seq<Candidate>)
    requires p in g && forall i :: 0 <= i < |pathIds| ==> pathIds[i] in g
    ensures SortedByDist(r)
    ensures forall c :: c in r ==> c.id in pathIds && c.id != p && c.dist == Dist(g, hypot, p, c.id) && c.dist <= MaxPathDistance
    ensures forall o :: o in pathIds && o != p && Dist(g, hypot, p, o) <= MaxPathDistance ==> Candidate(o, Dist(g, hypot, p, o)) in r
  {
    var near := InRange(g, hypot, pathIds, p);
    SortByDistSorted(near);
    SameElements(SortByDist(near), near);
    SortByDist(near)
  }

  /** In a list sorted by distance, an element nearer than one in the first `n` is itself in the first `n`. */
  lemma SortedPrefixHasNearer(s: seq<Candidate>, n: nat, i: nat, x: Candidate)
    requires SortedByDist(s) && i < n <= |s| && x in s && x.dist < s[i].dist
    ensures x in s[..n]
  {
    var j :| 0 <= j < |s| && s[j] == x;
    assert j < n;
    assert s[..n][j] == x;
  }

  /** `nearestPaths` of a room: its five nearest path nodes, nearest first. */
  function RoomPathCandidates(g: Graph, hypot: Hypot, pathIds: seq<string>, room: string): (r: seq<Candidate>)
    requires room in g && forall i :: 0 <= i < |pathIds| ==> pathIds[i] in g
    ensures SortedByDist(r) && |r| == Min(RoomCandidates, |pathIds|)
    ensures forall c :: c in r ==> c.id in pathIds && c.dist == Dist(g, hypot, room, c.id)
  {
    var all := AllDistances(g, hypot, pathIds, room);
    SortByDistSorted(all);
    SameElements(SortByDist(all), all);
    assert forall c :: c in SortByDist(all)[..Min(RoomCandidates, |pathIds|)] ==> c in all;
    SortByDist(all)[..Min(RoomCandidates, |pathIds|)]
  }

  /** No path node left out of a room's candidates is nearer than one kept. */
  lemma RoomCandidatesNearest(g: Graph, hypot: Hypot, pathIds: seq<string>, room: string, c: Candidate, o: string)
    requires room in g && forall i :: 0 <= i < |pathIds| ==> pathIds[i] in g
    requires c in RoomPathCandidates(g, hypot, pathIds, room) && o in pathIds && Dist(g, hypot, room, o) < c.dist
    ensures Candidate(o, Dist(g, hypot, room, o)) in RoomPathCandidates(g, hypot, pathIds, room)
  {
    var all := AllDistances(g, hypot, pathIds, room);
    var sorted := SortByDist(all);
    SortByDistSorted(all);
    SameElements(sorted, all);
    var n := Min(RoomCandidates, |pathIds|);
    var r := sorted[..n];
    assert r == RoomPathCandidates(g, hypot, pathIds, room);
    var k :| 0 <= k < |pathIds| && pathIds[k] == o;
    assert all[k] in sorted;
    var i :| 0 <= i < n && r[i] == c;
    SortedPrefixHasNearer(sorted, n, i, all[k]);
  }

  /** The ids of the first `k` candidates. */
  function IdsBefore(c: seq<Candidate>, k: nat): (r: set<string>)
    requires k <= |c|
    ensures forall i :: 0 <= i < k ==> c[i].id in r
  {
    if k == 0 then {} else IdsBefore(c, k - 1) + {c[k - 1].id}
  }

  lemma {:induction false} IdsBeforeGrows(c: seq<Candidate>, j: nat, k: nat)
    requires j <= k <= |c|
    ensures IdsBefore(c, j) <= IdsBefore(c, k)
  {
    if j < k {
      IdsBeforeGrows(c, j, k - 1);
    }
  }

  /** How many of the first `k` candidates pass the tests of `addEdge(p, c[i].id, _, true)`. */
  function CountAccepted(g: Graph, walls: WallTest, p: string, c: seq<Candidate>, k: nat): (n: nat)
    requires k <= |c|
    ensures n <= k
  {
    if k == 0 then 0
    else CountAccepted(g, walls, p, c, k - 1) + (if Accepts(g, walls, p, c[k - 1].id, true) then 1 else 0)
  }

  /** The count is zero exactly when no candidate is accepted. */
  lemma {:induction false} CountAcceptedZero(g: Graph, walls: WallTest, p: string, c: seq<Candidate>, k: nat)
    requires k <= |c|
    ensures CountAccepted(g, walls, p, c, k) == 0 <==> forall i :: 0 <= i < k ==> !Accepts(g, walls, p, c[i].id, true)
  {
    if k > 0 {
      CountAcceptedZero(g, walls, p, c, k - 1);
    }
  }

  lemma {:induction false} CountAcceptedMonotone(g: Graph, walls: WallTest, p: string, c: seq<Candidate>, j: nat, k: nat)
    requires j <= k <= |c|
    ensures CountAccepted(g, walls, p, c, j) <= CountAccepted(g, walls, p, c, k)
  {
    if j < k {
      CountAcceptedMonotone(g, walls, p, c, j, k - 1);
    }
  }

  /** Each of the first `k` candidates that passes the tests of `addEdge` is listed by `p`. */
  ghost predicate AcceptedLinked(g0: Graph, g: Graph, walls: WallTest, p: string, c: seq<Candidate>, k: nat)
    requires k <= |c|
  {
    forall i :: 0 <= i < k && Accepts(g0, walls, p, c[i].id, true) ==> p in g && HasEdgeTo(g[p].edges, c[i].id)
  }

  // ---------------------------------------------------------------------------------------
  // Joining a node to its candidates
  // ---------------------------------------------------------------------------------------

  /** `addEdge(a, b, w, true)` as a function: the graph after the call. */
  function TryAdd(g: Graph, walls: WallTest, a: string, b: string, w: real): (r: Graph)
    ensures SameLayout(g, r)
  {
    if Accepts(g, walls, a, b, true) then
      JoinedLinks(g, a, b, w);
      Joined(g, a, b, w)
    else g
  }

  /** An `addEdge` only adds edges between `a` and `b`, and when it is accepted `a` lists `b`. */
  lemma TryAddGrows(g: Graph, walls: WallTest, a: string, b: string, w: real)
    ensures GrowsBetween(g, TryAdd(g, walls, a, b, w), a, {b})
    ensures Accepts(g, walls, a, b, true) ==> HasEdgeTo(TryAdd(g, walls, a, b, w)[a].edges, b)
  {
    if Accepts(g, walls, a, b, true) {
      JoinedLinks(g, a, b, w);
    } else {
      GrowsReflexive(g, a);
      GrowsWider(g, g, a, {}, {b});
    }
  }

  /** An `addEdge` with the wall test keeps a graph well formed and clear of walls. */
  lemma TryAddWellFormed(g: Graph, walls: WallTest, a: string, b: string, w: real)
    requires WellFormed(g) && WallFree(g, walls)
    ensures WellFormed(TryAdd(g, walls, a, b, w)) && WallFree(TryAdd(g, walls, a, b, w), walls)
  {
    if Accepts(g, walls, a, b, true) {
      JoinedWellFormed(g, a, b, w);
      JoinedWallFree(g, walls, a, b, w);
    }
  }

  lemma GrowsWider(g: Graph, g': Graph, p: string, others: set<string>, more: set<string>)
    requires GrowsBetween(g, g', p, others) && others <= more
    ensures GrowsBetween(g, g', p, more)
  {
  }

  /** The graph after `addEdge(p, c[i].id, c[i].dist, true)` for each of the first `k` candidates in turn. */
  function JoinFirst(g: Graph, walls: WallTest, p: string, c: seq<Candidate>, k: nat): (r: Graph)
    requires k <= |c|
  {
    if k == 0 then g else TryAdd(JoinFirst(g, walls, p, c, k - 1), walls, p, c[k - 1].id, c[k - 1].dist)
  }

  /** Trying the first `k` candidates only adds edges between `p` and those candidates. */
  lemma {:induction false} JoinFirstGrows(g: Graph, walls: WallTest, p: string, c: seq<Candidate>, k: nat)
    requires k <= |c|
    ensures GrowsBetween(g, JoinFirst(g, walls, p, c, k), p, IdsBefore(c, k))
  {
    if k == 0 {
      GrowsReflexive(g, p);
    } else {
      var h := JoinFirst(g, walls, p, c, k - 1);
      JoinFirstGrows(g, walls, p, c, k - 1);
      TryAddGrows(h, walls, p, c[k - 1].id, c[k - 1].dist);
      GrowsTwice(g, h, JoinFirst(g, walls, p, c, k), p, IdsBefore(c, k - 1), {c[k - 1].id});
    }
  }

  /** Every one of the first `k` candidates that passes the tests is joined to `p`. */
  lemma {:induction false} JoinFirstLinked(g: Graph, walls: WallTest, p: string, c: seq<Candidate>, k: nat)
    requires k <= |c|
    ensures AcceptedLinked(g, JoinFirst(g, walls, p, c, k), walls, p, c, k)
  {
    if k > 0 {
      var h := JoinFirst(g, walls, p, c, k - 1);
      var r := JoinFirst(g, walls, p, c, k);
      JoinFirstLinked(g, walls, p, c, k - 1);
      JoinFirstGrows(g, walls, p, c, k - 1);
      TryAddGrows(h, walls, p, c[k - 1].id, c[k - 1].dist);
      AcceptsOnLayout(g, h, walls, p, c[k - 1].id, true);
      forall i | 0 <= i < k && Accepts(g, walls, p, c[i].id, true)
        ensures p in r && HasEdgeTo(r[p].edges, c[i].id)
      {
        if i < k - 1 {
          GrowsKeepsLinks(h, r, p, {c[k - 1].id}, p, c[i].id);
        }
      }
    }
  }

  /** Trying candidates keeps a graph well formed and clear of walls. */
  lemma {:induction false} JoinFirstWellFormed(g: Graph, walls: WallTest, p: string, c: seq<Candidate>, k: nat)
    requires k <= |c| && WellFormed(g) && WallFree(g, walls)
    ensures WellFormed(JoinFirst(g, walls, p, c, k)) && WallFree(JoinFirst(g, walls, p, c, k), walls)
  {
    if k > 0 {
      JoinFirstWellFormed(g, walls, p, c, k - 1);
      TryAddWellFormed(JoinFirst(g, walls, p, c, k - 1), walls, p, c[k - 1].id, c[k - 1].dist);
    }
  }

  lemma {:induction false} JoinFirstLayout(g: Graph, walls: WallTest, p: string, c: seq<Candidate>, k: nat)
    requires k <= |c|
    ensures SameLayout(g, JoinFirst(g, walls, p, c, k))
  {
    if k > 0 {
      JoinFirstLayout(g, walls, p, c, k - 1);
    }
  }

  /**
    The fallback loop of a path node from position `i` on: the candidates before position
    `FallbackEnd` are tried in order and the first accepted one is joined.
  */
  function FallbackFrom(g: Graph, walls: WallTest, p: string, c: seq<Candidate>, i: nat): (r: Graph)
    requires i <= |c|
    decreases |c| - i
  {
    if i >= Min(FallbackEnd, |c|) then g
    else if Accepts(g, walls, p, c[i].id, true) then Joined(g, p, c[i].id, c[i].dist)
    else FallbackFrom(g, walls, p, c, i + 1)
  }

  /** The fallback only adds an edge between `p` and one of its first five candidates, and keeps a graph well formed. */
  lemma {:induction false} FallbackKeeps(g: Graph, walls: WallTest, p: string, c: seq<Candidate>, i: nat)
    requires i <= |c|
    ensures GrowsBetween(g, FallbackFrom(g, walls, p, c, i), p, IdsBefore(c, Min(FallbackEnd, |c|)))
    ensures WellFormed(g) && WallFree(g, walls) ==>
      WellFormed(FallbackFrom(g, walls, p, c, i)) && WallFree(FallbackFrom(g, walls, p, c, i), walls)
    decreases |c| - i
  {
    var top := IdsBefore(c, Min(FallbackEnd, |c|));
    if i >= Min(FallbackEnd, |c|) {
      GrowsReflexive(g, p);
      GrowsWider(g, g, p, {}, top);
    } else if Accepts(g, walls, p, c[i].id, true) {
      TryAddGrows(g, walls, p, c[i].id, c[i].dist);
      GrowsWider(g, FallbackFrom(g, walls, p, c, i), p, {c[i].id}, top);
      if WellFormed(g) && WallFree(g, walls) {
        TryAddWellFormed(g, walls, p, c[i].id, c[i].dist);
      }
    } else {
      FallbackKeeps(g, walls, p, c, i + 1);
    }
  }

  /**
    One pass of the `for (const pId of pathNodes)` loop: the nearest three candidates are
    tried, and only when none of them is accepted are the fourth and fifth tried, stopping at
    the first accepted.
  */
  function PathStep(g: Graph, walls: WallTest, p: string, c: seq<Candidate>): (r: Graph) {
    var top := Min(MaxNeighbours, |c|);
    var h := JoinFirst(g, walls, p, c, top);
    if CountAccepted(g, walls, p, c, top) == 0 && |c| > MaxNeighbours then FallbackFrom(h, walls, p, c, MaxNeighbours)
    else h
  }

  /**
    A path node's pass only adds edges between it and its first five candidates, and joins
    every one of the first three that passes the tests.
  */
  lemma PathStepGrows(g: Graph, walls: WallTest, p: string, c: seq<Candidate>)
    ensures GrowsBetween(g, PathStep(g, walls, p, c), p, IdsBefore(c, Min(FallbackEnd, |c|)))
    ensures AcceptedLinked(g, PathStep(g, walls, p, c), walls, p, c, Min(MaxNeighbours, |c|))
  {
    var top := Min(MaxNeighbours, |c|);
    var all := IdsBefore(c, Min(FallbackEnd, |c|));
    var h := JoinFirst(g, walls, p, c, top);
    var r := PathStep(g, walls, p, c);
    JoinFirstGrows(g, walls, p, c, top);
    JoinFirstLinked(g, walls, p, c, top);
    IdsBeforeGrows(c, top, Min(FallbackEnd, |c|));
    if r == h {
      GrowsWider(g, h, p, IdsBefore(c, top), all);
    } else {
      FallbackKeeps(h, walls, p, c, MaxNeighbours);
      GrowsTwice(g, h, r, p, IdsBefore(c, top), all);
      GrowsWider(g, r, p, IdsBefore(c, top) + all, all);
      forall i | 0 <= i < top && Accepts(g, walls, p, c[i].id, true)
        ensures p in r && HasEdgeTo(r[p].edges, c[i].id)
      {
        GrowsKeepsLinks(h, r, p, all, p, c[i].id);
      }
    }
  }

  /** A path node's pass keeps the graph well formed and clear of walls. */
  lemma PathStepWellFormed(g: Graph, walls: WallTest, p: string, c: seq<Candidate>)
    requires WellFormed(g) && WallFree(g, walls)
    ensures WellFormed(PathStep(g, walls, p, c)) && WallFree(PathStep(g, walls, p, c), walls)
  {
    var top := Min(MaxNeighbours, |c|);
    JoinFirstWellFormed(g, walls, p, c, top);
    if |c| > MaxNeighbours {
      FallbackKeeps(JoinFirst(g, walls, p, c, top), walls, p, c, MaxNeighbours);
    }
  }

  /**
    The body of the `for (const pId of pathNodes)` loop, with `connectedCount`: the count of
    the nearest three accepted, or, when that is zero, one if a fallback was accepted.
  */
  method ConnectPathNode(g: Graph, walls: WallTest, hypot: Hypot, pathIds: seq<string>, p: string)
    returns (g': Graph, connected: nat)
    requires p in g && forall i :: 0 <= i < |pathIds| ==> pathIds[i] in g
    ensures var c := PathCandidates(g, hypot, pathIds, p);
      var nearest := CountAccepted(g, walls, p, c, Min(MaxNeighbours, |c|));
      && g' == PathStep(g, walls, p, c)
      && connected == (if nearest > 0 then nearest else Min(1, CountAccepted(g, walls, p, c, Min(FallbackEnd, |c|))))
  {
    var c := PathCandidates(g, hypot, pathIds, p);
    var top := Min(MaxNeighbours, |c|);
    g', connected := TryNearest(g, walls, p, c, top);
    if connected == 0 && |c| > MaxNeighbours {
      JoinFirstLayout(g, walls, p, c, top);
      g', connected := TryFallback(g, g', walls, p, c);
    } else if connected == 0 {
      assert top == Min(FallbackEnd, |c|);
    }
  }

  /** `nearestNeighbors`: the first `top` candidates are tried in order and the accepted ones counted. */
  method TryNearest(g: Graph, walls: WallTest, p: string, c: seq<Candidate>, top: nat) returns (g': Graph, connected: nat)
    requires top <= |c|
    ensures g' == JoinFirst(g, walls, p, c, top)
    ensures connected == CountAccepted(g, walls, p, c, top)
  {
    g' := g;
    connected := 0;
    for k := 0 to top
      invariant g' == JoinFirst(g, walls, p, c, k)
      invariant connected == CountAccepted(g, walls, p, c, k)
    {
      JoinFirstLayout(g, walls, p, c, k);
      AcceptsOnLayout(g, g', walls, p, c[k].id, true);
      var added;
      g', added := AddEdge(g', walls, p, c[k].id, c[k].dist, true);
      if added {
        connected := connected + 1;
      }
    }
  }

  /**
    The fallback of a path node none of whose three nearest candidates was accepted: the
    fourth and fifth are tried in order, stopping at the first accepted, so at most one
    edge is made, and one exactly when one of them is accepted.
  */
  method TryFallback(g0: Graph, g: Graph, walls: WallTest, p: string, c: seq<Candidate>) returns (g': Graph, connected: nat)
    requires |c| > MaxNeighbours && SameLayout(g0, g)
    requires CountAccepted(g0, walls, p, c, MaxNeighbours) == 0
    ensures g' == FallbackFrom(g, walls, p, c, MaxNeighbours)
    ensures connected == Min(1, CountAccepted(g0, walls, p, c, Min(FallbackEnd, |c|)))
  {
    g' := g;
    connected := 0;
    var i := MaxNeighbours;
    while i < Min(FallbackEnd, |c|)
      invariant MaxNeighbours <= i <= Min(FallbackEnd, |c|)
      invariant g' == g && CountAccepted(g0, walls, p, c, i) == 0
      invariant FallbackFrom(g, walls, p, c, i) == FallbackFrom(g, walls, p, c, MaxNeighbours)
    {
      AcceptsOnLayout(g0, g, walls, p, c[i].id, true);
      var added;
      g', added := AddEdge(g', walls, p, c[i].id, c[i].dist, true);
      if added {
        connected := connected + 1;
        CountAcceptedMonotone(g0, walls, p, c, i + 1, Min(FallbackEnd, |c|));
        return;
      }
      i := i + 1;
    }
  }

  /** A path node's pass makes at most `MAX_NEIGHBORS` edges, and none exactly when none of its first five candidates is accepted. */
  lemma PathNodeConnections(g: Graph, walls: WallTest, hypot: Hypot, pathIds: seq<string>, p: string, connected: nat)
    requires p in g && forall i :: 0 <= i < |pathIds| ==> pathIds[i] in g
    requires var c := PathCandidates(g, hypot, pathIds, p);
      var nearest := CountAccepted(g, walls, p, c, Min(MaxNeighbours, |c|));
      connected == (if nearest > 0 then nearest else Min(1, CountAccepted(g, walls, p, c, Min(FallbackEnd, |c|))))
    ensures connected <= MaxNeighbours
    ensures var c := PathCandidates(g, hypot, pathIds, p);
      connected == 0 <==> forall i :: 0 <= i < Min(FallbackEnd, |c|) ==> !Accepts(g, walls, p, c[i].id, true)
  {
    var c := PathCandidates(g, hypot, pathIds, p);
    CountAcceptedZero(g, walls, p, c, Min(MaxNeighbours, |c|));
    CountAcceptedZero(g, walls, p, c, Min(FallbackEnd, |c|));
  }

  /**
    The body of the `for (const roomId of roomNodes)` loop: each of the five nearest path
    nodes is tried in order, and `connected` counts those accepted. The fallback repeats
    `addEdge` with the nearest path node, which the loop has already tried and which is
    rejected again (`RoomFallbackRejected`), so the room's pass is `JoinFirst` over all its
    candidates.
  */
  method ConnectRoom(g: Graph, walls: WallTest, hypot: Hypot, pathIds: seq<string>, room: string)
    returns (g': Graph, connected: nat)
    requires room in g && forall i :: 0 <= i < |pathIds| ==> pathIds[i] in g
    ensures var c := RoomPathCandidates(g, hypot, pathIds, room);
      && g' == JoinFirst(g, walls, room, c, |c|)
      && connected == CountAccepted(g, walls, room, c, |c|)
  {
    var c := RoomPathCandidates(g, hypot, pathIds, room);
    g' := g;
    connected := 0;
    for k := 0 to |c|
      invariant g' == JoinFirst(g, walls, room, c, k)
      invariant connected == CountAccepted(g, walls, room, c, k)
    {
      if connected >= RoomCandidates {
        assert false;
      }
      JoinFirstLayout(g, walls, room, c, k);
      AcceptsOnLayout(g, g', walls, room, c[k].id, true);
      var added;
      g', added := AddEdge(g', walls, room, c[k].id, c[k].dist, true);
      if added {
        connected := connected + 1;
      }
    }
    if connected == 0 && |c| > 0 {
      var nearest := c[0];
      if nearest.dist <= RoomFallbackDistance {
        RoomFallbackRejected(g, walls, room, c);
        var added;
        g', added := AddEdge(g', walls, room, nearest.id, nearest.dist, true);
        if added {
          assert false;
        }
      }
    }
  }

  /** When no candidate of a room is accepted, `addEdge` with the nearest one is rejected again. */
  lemma RoomFallbackRejected(g: Graph, walls: WallTest, room: string, c: seq<Candidate>)
    requires |c| > 0 && CountAccepted(g, walls, room, c, |c|) == 0
    ensures !Accepts(JoinFirst(g, walls, room, c, |c|), walls, room, c[0].id, true)
  {
    CountAcceptedZero(g, walls, room, c, |c|);
    JoinFirstLayout(g, walls, room, c, |c|);
    AcceptsOnLayout(g, JoinFirst(g, walls, room, c, |c|), walls, room, c[0].id, true);
  }

  // ---------------------------------------------------------------------------------------
  // The three loops of the construction as functions
  // ---------------------------------------------------------------------------------------

  /** Every node keeps its position, and its adjacency list only grows at the end. */
  ghost predicate EdgesKept(g: Graph, g': Graph) {
    SameLayout(g, g') && forall n :: n in g ==> g[n].edges <= g'[n].edges
  }

  lemma EdgesKeptTrans(g1: Graph, g2: Graph, g3: Graph)
    requires EdgesKept(g1, g2) && EdgesKept(g2, g3)
    ensures EdgesKept(g1, g3)
  {
    forall n | n in g1
      ensures g1[n].edges <= g3[n].edges
    {
      assert g1[n].edges <= g2[n].edges <= g3[n].edges;
    }
  }

  /** A neighbour once listed stays listed. */
  lemma EdgesKeptLinks(g: Graph, g': Graph, a: string, b: string)
    requires EdgesKept(g, g') && a in g && HasEdgeTo(g[a].edges, b)
    ensures a in g' && HasEdgeTo(g'[a].edges, b)
  {
    var i :| 0 <= i < |g[a].edges| && g[a].edges[i].to == b;
    assert g'[a].edges[i] == g[a].edges[i];
  }

  /** The other path nodes within range of `p` depend only on the layout. */
  lemma {:induction false} InRangeOnLayout(g: Graph, g': Graph, hypot: Hypot, ids: seq<string>, p: string)
    requires SameLayout(g, g') && p in g && forall i :: 0 <= i < |ids| ==> ids[i] in g
    ensures InRange(g', hypot, ids, p) == InRange(g, hypot, ids, p)
  {
    if ids != [] {
      InRangeOnLayout(g, g', hypot, ids[1..], p);
      assert Dist(g', hypot, p, ids[0]) == Dist(g, hypot, p, ids[0]);
    }
  }

  /** A node's candidates depend only on the layout, not on the edges added so far. */
  lemma CandidatesOnLayout(g: Graph, g': Graph, hypot: Hypot, ids: seq<string>, p: string)
    requires SameLayout(g, g') && p in g && forall i :: 0 <= i < |ids| ==> ids[i] in g
    ensures PathCandidates(g', hypot, ids, p) == PathCandidates(g, hypot, ids, p)
    ensures RoomPathCandidates(g', hypot, ids, p) == RoomPathCandidates(g, hypot, ids, p)
  {
    InRangeOnLayout(g, g', hypot, ids, p);
    var a, a' := AllDistances(g, hypot, ids, p), AllDistances(g', hypot, ids, p);
    forall i | 0 <= i < |ids|
      ensures a'[i] == a[i]
    {
      assert Dist(g', hypot, p, ids[i]) == Dist(g, hypot, p, ids[i]);
    }
    assert a' == a;
  }

  /** Whether the `.nav-edge` loop calls `addEdge` for an edge: both ends are given and are nodes. */
  predicate Known(g: Graph, e: (string, string)) {
    e.0 != "" && e.1 != "" && e.0 in g && e.1 in g
  }

  /** `Math.hypot(dx, dy) || 1` between the two ends of an explicit edge. */
  function ExplicitWeight(g: Graph, hypot: Hypot, e: (string, string)): (w: real)
    requires e.0 in g && e.1 in g
    ensures w > 0.0
  {
    EdgeWeight(hypot, g[e.1].x - g[e.0].x, g[e.1].y - g[e.0].y)
  }

  /** The graph after the `.nav-edge` loop has handled the first `k` explicit edges. */
  function ExplicitPasses(layout: Graph, explicit: seq<(string, string)>, walls: WallTest, hypot: Hypot, k: nat): (r: Graph)
    requires k <= |explicit|
    ensures r.Keys == layout.Keys
  {
    if k == 0 then layout
    else
      var g := ExplicitPasses(layout, explicit, walls, hypot, k - 1);
      var e := explicit[k - 1];
      if !Known(g, e) then g
      else TryAdd(g, walls, e.0, e.1, ExplicitWeight(g, hypot, e))
  }

  lemma ExplicitStepKept(layout: Graph, explicit: seq<(string, string)>, walls: WallTest, hypot: Hypot, j: nat)
    requires j < |explicit|
    ensures EdgesKept(ExplicitPasses(layout, explicit, walls, hypot, j), ExplicitPasses(layout, explicit, walls, hypot, j + 1))
  {
    var g := ExplicitPasses(layout, explicit, walls, hypot, j);
    var e := explicit[j];
    if Known(g, e) {
      TryAddGrows(g, walls, e.0, e.1, ExplicitWeight(g, hypot, e));
    }
  }

  /** The `.nav-edge` loop keeps the layout and only adds edges. */
  lemma {:induction false} ExplicitKept(layout: Graph, explicit: seq<(string, string)>, walls: WallTest, hypot: Hypot, k: nat)
    requires k <= |explicit|
    ensures EdgesKept(layout, ExplicitPasses(layout, explicit, walls, hypot, k))
  {
    if k > 0 {
      var j := k - 1;
      ExplicitKept(layout, explicit, walls, hypot, j);
      ExplicitStepKept(layout, explicit, walls, hypot, j);
      EdgesKeptTrans(layout, ExplicitPasses(layout, explicit, walls, hypot, j), ExplicitPasses(layout, explicit, walls, hypot, k));
    }
  }

  /** A link present before a `.nav-edge` step is still there after it. */
  lemma ExplicitLinkKept(layout: Graph, explicit: seq<(string, string)>, walls: WallTest, hypot: Hypot, j: nat, k: nat, a: string, b: string)
    requires k == j + 1 <= |explicit| && a in layout
    requires HasEdgeTo(ExplicitPasses(layout, explicit, walls, hypot, j)[a].edges, b)
    ensures HasEdgeTo(ExplicitPasses(layout, explicit, walls, hypot, k)[a].edges, b)
  {
    ExplicitStepKept(layout, explicit, walls, hypot, j);
    EdgesKeptLinks(ExplicitPasses(layout, explicit, walls, hypot, j), ExplicitPasses(layout, explicit, walls, hypot, k), a, b);
  }

  /** A `.nav-edge` step whose edge passes the tests of `addEdge` links its two ends. */
  lemma ExplicitLinkNew(layout: Graph, explicit: seq<(string, string)>, walls: WallTest, hypot: Hypot, j: nat, k: nat)
    requires k == j + 1 <= |explicit|
    requires Known(layout, explicit[j]) && Accepts(layout, walls, explicit[j].0, explicit[j].1, true)
    ensures var r := ExplicitPasses(layout, explicit, walls, hypot, k);
      && HasEdgeTo(r[explicit[j].0].edges, explicit[j].1)
      && HasEdgeTo(r[explicit[j].1].edges, explicit[j].0)
  {
    var h := ExplicitPasses(layout, explicit, walls, hypot, j);
    var e := explicit[j];
    ExplicitKept(layout, explicit, walls, hypot, j);
    AcceptsOnLayout(layout, h, walls, e.0, e.1, true);
    JoinedLinks(h, e.0, e.1, ExplicitWeight(h, hypot, e));
  }

  /**
    Every explicit edge among the first `k` whose ends are known nodes and which passes the
    tests of `addEdge` is in the graph, listed at both ends.
  */
  lemma {:induction false} ExplicitLinked(layout: Graph, explicit: seq<(string, string)>, walls: WallTest, hypot: Hypot, k: nat, i: nat)
    requires i < k <= |explicit|
    requires Known(layout, explicit[i]) && Accepts(layout, walls, explicit[i].0, explicit[i].1, true)
    ensures var r := ExplicitPasses(layout, explicit, walls, hypot, k);
      && HasEdgeTo(r[explicit[i].0].edges, explicit[i].1)
      && HasEdgeTo(r[explicit[i].1].edges, explicit[i].0)
  {
    var m := k - 1;
    var e := explicit[i];
    if i < m {
      ExplicitLinked(layout, explicit, walls, hypot, m, i);
      ExplicitLinkKept(layout, explicit, walls, hypot, m, k, e.0, e.1);
      ExplicitLinkKept(layout, explicit, walls, hypot, m, k, e.1, e.0);
    } else {
      ExplicitLinkNew(layout, explicit, walls, hypot, m, k);
    }
  }

  /** One path-node step keeps the node ids. */
  lemma PathStepKeys(g: Graph, walls: WallTest, p: string, c: seq<Candidate>)
    ensures PathStep(g, walls, p, c).Keys == g.Keys
  {
    PathStepGrows(g, walls, p, c);
  }

  /** One room step keeps the node ids. */
  lemma JoinFirstKeys(g: Graph, walls: WallTest, p: string, c: seq<Candidate>)
    ensures JoinFirst(g, walls, p, c, |c|).Keys == g.Keys
  {
    JoinFirstLayout(g, walls, p, c, |c|);
  }

  /** The graph after the `for (const pId of pathNodes)` loop has handled `todo[..k]`. */
  function PathPasses(g: Graph, walls: WallTest, hypot: Hypot, pathIds: seq<string>, todo: seq<string>, k: nat): (r: Graph)
    requires k <= |todo|
    requires forall i :: 0 <= i < |pathIds| ==> pathIds[i] in g
    requires forall i :: 0 <= i < |todo| ==> todo[i] in g
    ensures r.Keys == g.Keys
  {
    if k == 0 then g
    else
      var h := PathPasses(g, walls, hypot, pathIds, todo, k - 1);
      var c := PathCandidates(h, hypot, pathIds, todo[k - 1]);
      PathStepKeys(h, walls, todo[k - 1], c);
      PathStep(h, walls, todo[k - 1], c)
  }

  lemma PathStepKept(g: Graph, walls: WallTest, hypot: Hypot, pathIds: seq<string>, todo: seq<string>, j: nat)
    requires j < |todo|
    requires forall i :: 0 <= i < |pathIds| ==> pathIds[i] in g
    requires forall i :: 0 <= i < |todo| ==> todo[i] in g
    ensures EdgesKept(PathPasses(g, walls, hypot, pathIds, todo, j), PathPasses(g, walls, hypot, pathIds, todo, j + 1))
  {
    var h := PathPasses(g, walls, hypot, pathIds, todo, j);
    PathStepGrows(h, walls, todo[j], PathCandidates(h, hypot, pathIds, todo[j]));
  }

  /** The path-node loop keeps the layout and only adds edges. */
  lemma {:induction false} PathKept(g: Graph, walls: WallTest, hypot: Hypot, pathIds: seq<string>, todo: seq<string>, k: nat)
    requires k <= |todo|
    requires forall i :: 0 <= i < |pathIds| ==> pathIds[i] in g
    requires forall i :: 0 <= i < |todo| ==> todo[i] in g
    ensures EdgesKept(g, PathPasses(g, walls, hypot, pathIds, todo, k))
  {
    if k > 0 {
      var j := k - 1;
      PathKept(g, walls, hypot, pathIds, todo, j);
      PathStepKept(g, walls, hypot, pathIds, todo, j);
      EdgesKeptTrans(g, PathPasses(g, walls, hypot, pathIds, todo, j), PathPasses(g, walls, hypot, pathIds, todo, k));
    }
  }

  /** A link present before a path-node step is still there after it. */
  lemma PathLinkKept(g: Graph, walls: WallTest, hypot: Hypot, pathIds: seq<string>, todo: seq<string>, j: nat, k: nat, a: string, b: string)
    requires k == j + 1 <= |todo| && a in g
    requires forall i :: 0 <= i < |pathIds| ==> pathIds[i] in g
    requires forall i :: 0 <= i < |todo| ==> todo[i] in g
    requires HasEdgeTo(PathPasses(g, walls, hypot, pathIds, todo, j)[a].edges, b)
    ensures HasEdgeTo(PathPasses(g, walls, hypot, pathIds, todo, k)[a].edges, b)
  {
    PathStepKept(g, walls, hypot, pathIds, todo, j);
    EdgesKeptLinks(PathPasses(g, walls, hypot, pathIds, todo, j), PathPasses(g, walls, hypot, pathIds, todo, k), a, b);
  }

  /** A path node's own step joins it to each of its first three candidates that passes the tests of `addEdge`. */
  lemma PathLinkNew(g: Graph, walls: WallTest, hypot: Hypot, pathIds: seq<string>, todo: seq<string>, j: nat, k: nat, i: nat)
    requires k == j + 1 <= |todo|
    requires forall i :: 0 <= i < |pathIds| ==> pathIds[i] in g
    requires forall i :: 0 <= i < |todo| ==> todo[i] in g
    requires var c := PathCandidates(g, hypot, pathIds, todo[j]);
      i < Min(MaxNeighbours, |c|) && Accepts(g, walls, todo[j], c[i].id, true)
    ensures HasEdgeTo(PathPasses(g, walls, hypot, pathIds, todo, k)[todo[j]].edges,
                      PathCandidates(g, hypot, pathIds, todo[j])[i].id)
  {
    var h := PathPasses(g, walls, hypot, pathIds, todo, j);
    var c := PathCandidates(g, hypot, pathIds, todo[j]);
    PathKept(g, walls, hypot, pathIds, todo, j);
    CandidatesOnLayout(g, h, hypot, pathIds, todo[j]);
    AcceptsOnLayout(g, h, walls, todo[j], c[i].id, true);
    PathStepGrows(h, walls, todo[j], c);
  }

  /**
    After the path-node loop has handled `todo[..k]`, each of those nodes is joined to every
    one of its three nearest candidates that passes the tests of `addEdge`.
  */
  lemma {:induction false} PathPassesLinked(g: Graph, walls: WallTest, hypot: Hypot, pathIds: seq<string>, todo: seq<string>,
                                           k: nat, n: nat, i: nat)
    requires n < k <= |todo|
    requires forall i :: 0 <= i < |pathIds| ==> pathIds[i] in g
    requires forall i :: 0 <= i < |todo| ==> todo[i] in g
    requires var c := PathCandidates(g, hypot, pathIds, todo[n]);
      i < Min(MaxNeighbours, |c|) && Accepts(g, walls, todo[n], c[i].id, true)
    ensures HasEdgeTo(PathPasses(g, walls, hypot, pathIds, todo, k)[todo[n]].edges,
                      PathCandidates(g, hypot, pathIds, todo[n])[i].id)
  {
    var m := k - 1;
    if n < m {
      PathPassesLinked(g, walls, hypot, pathIds, todo, m, n, i);
      PathLinkKept(g, walls, hypot, pathIds, todo, m, k, todo[n], PathCandidates(g, hypot, pathIds, todo[n])[i].id);
    } else {
      PathLinkNew(g, walls, hypot, pathIds, todo, n, k, i);
    }
  }

  /** The graph after the `for (const roomId of roomNodes)` loop has handled `rooms[..k]`. */
  function RoomPasses(g: Graph, walls: WallTest, hypot: Hypot, pathIds: seq<string>, rooms: seq<string>, k: nat): (r: Graph)
    requires k <= |rooms|
    requires forall i :: 0 <= i < |pathIds| ==> pathIds[i] in g
    requires forall i :: 0 <= i < |rooms| ==> rooms[i] in g
    ensures r.Keys == g.Keys
  {
    if k == 0 then g
    else
      var h := RoomPasses(g, walls, hypot, pathIds, rooms, k - 1);
      var c := RoomPathCandidates(h, hypot, pathIds, rooms[k - 1]);
      JoinFirstKeys(h, walls, rooms[k - 1], c);
      JoinFirst(h, walls, rooms[k - 1], c, |c|)
  }

  lemma RoomStepKept(g: Graph, walls: WallTest, hypot: Hypot, pathIds: seq<string>, rooms: seq<string>, j: nat)
    requires j < |rooms|
    requires forall i :: 0 <= i < |pathIds| ==> pathIds[i] in g
    requires forall i :: 0 <= i < |rooms| ==> rooms[i] in g
    ensures EdgesKept(RoomPasses(g, walls, hypot, pathIds, rooms, j), RoomPasses(g, walls, hypot, pathIds, rooms, j + 1))
  {
    var h := RoomPasses(g, walls, hypot, pathIds, rooms, j);
    var c := RoomPathCandidates(h, hypot, pathIds, rooms[j]);
    JoinFirstGrows(h, walls, rooms[j], c, |c|);
  }

  /** The room loop keeps the layout and only adds edges. */
  lemma {:induction false} RoomKept(g: Graph, walls: WallTest, hypot: Hypot, pathIds: seq<string>, rooms: seq<string>, k: nat)
    requires k <= |rooms|
    requires forall i :: 0 <= i < |pathIds| ==> pathIds[i] in g
    requires forall i :: 0 <= i < |rooms| ==> rooms[i] in g
    ensures EdgesKept(g, RoomPasses(g, walls, hypot, pathIds, rooms, k))
  {
    if k > 0 {
      var j := k - 1;
      RoomKept(g, walls, hypot, pathIds, rooms, j);
      RoomStepKept(g, walls, hypot, pathIds, rooms, j);
      EdgesKeptTrans(g, RoomPasses(g, walls, hypot, pathIds, rooms, j), RoomPasses(g, walls, hypot, pathIds, rooms, k));
    }
  }

  /** A link present before a room step is still there after it. */
  lemma RoomLinkKept(g: Graph, walls: WallTest, hypot: Hypot, pathIds: seq<string>, rooms: seq<string>, j: nat, k: nat, a: string, b: string)
    requires k == j + 1 <= |rooms| && a in g
    requires forall i :: 0 <= i < |pathIds| ==> pathIds[i] in g
    requires forall i :: 0 <= i < |rooms| ==> rooms[i] in g
    requires HasEdgeTo(RoomPasses(g, walls, hypot, pathIds, rooms, j)[a].edges, b)
    ensures HasEdgeTo(RoomPasses(g, walls, hypot, pathIds, rooms, k)[a].edges, b)
  {
    RoomStepKept(g, walls, hypot, pathIds, rooms, j);
    EdgesKeptLinks(RoomPasses(g, walls, hypot, pathIds, rooms, j), RoomPasses(g, walls, hypot, pathIds, rooms, k), a, b);
  }

  /** A room's own step joins it to each of its five nearest path nodes that passes the tests of `addEdge`. */
  lemma RoomLinkNew(g: Graph, walls: WallTest, hypot: Hypot, pathIds: seq<string>, rooms: seq<string>, j: nat, k: nat, i: nat)
    requires k == j + 1 <= |rooms|
    requires forall i :: 0 <= i < |pathIds| ==> pathIds[i] in g
    requires forall i :: 0 <= i < |rooms| ==> rooms[i] in g
    requires var c := RoomPathCandidates(g, hypot, pathIds, rooms[j]);
      i < |c| && Accepts(g, walls, rooms[j], c[i].id, true)
    ensures HasEdgeTo(RoomPasses(g, walls, hypot, pathIds, rooms, k)[rooms[j]].edges,
                      RoomPathCandidates(g, hypot, pathIds, rooms[j])[i].id)
  {
    var h := RoomPasses(g, walls, hypot, pathIds, rooms, j);
    var c := RoomPathCandidates(g, hypot, pathIds, rooms[j]);
    RoomKept(g, walls, hypot, pathIds, rooms, j);
    CandidatesOnLayout(g, h, hypot, pathIds, rooms[j]);
    AcceptsOnLayout(g, h, walls, rooms[j], c[i].id, true);
    JoinFirstLinked(h, walls, rooms[j], c, |c|);
  }

  /**
    After the room loop has handled `rooms[..k]`, each of those rooms is joined to every one
    of its five nearest path nodes that passes the tests of `addEdge`.
  */
  lemma {:induction false} RoomPassesLinked(g: Graph, walls: WallTest, hypot: Hypot, pathIds: seq<string>, rooms: seq<string>,
                                           k: nat, n: nat, i: nat)
    requires n < k <= |rooms|
    requires forall i :: 0 <= i < |pathIds| ==> pathIds[i] in g
    requires forall i :: 0 <= i < |rooms| ==> rooms[i] in g
    requires var c := RoomPathCandidates(g, hypot, pathIds, rooms[n]);
      i < |c| && Accepts(g, walls, rooms[n], c[i].id, true)
    ensures HasEdgeTo(RoomPasses(g, walls, hypot, pathIds, rooms, k)[rooms[n]].edges,
                      RoomPathCandidates(g, hypot, pathIds, rooms[n])[i].id)
  {
    var m := k - 1;
    if n < m {
      RoomPassesLinked(g, walls, hypot, pathIds, rooms, m, n, i);
      RoomLinkKept(g, walls, hypot, pathIds, rooms, m, k, rooms[n], RoomPathCandidates(g, hypot, pathIds, rooms[n])[i].id);
    } else {
      RoomLinkNew(g, walls, hypot, pathIds, rooms, n, k, i);
    }
  }

  /** The graph after the `.nav-edge` loop. */
  function AfterExplicit(layout: Graph, explicit: seq<(string, string)>, walls: WallTest, hypot: Hypot): (r: Graph)
    ensures r.Keys == layout.Keys
  {
    ExplicitPasses(layout, explicit, walls, hypot, |explicit|)
  }

  /** The ids `FilterIds` keeps are ids of the layout. */
  lemma FilteredIn(ids: seq<string>, layout: Graph, room: bool)
    requires forall id :: id in ids ==> id in layout
    ensures forall i :: 0 <= i < |FilterIds(ids, room)| ==> FilterIds(ids, room)[i] in layout
  {
    var r := FilterIds(ids, room);
    assert forall i :: 0 <= i < |r| ==> r[i] in r;
  }

  /** The graph after the path-node loop, which runs only when there are at least two path nodes. */
  function AfterPaths(g1: Graph, walls: WallTest, hypot: Hypot, paths: seq<string>): (r: Graph)
    requires forall i :: 0 <= i < |paths| ==> paths[i] in g1
    ensures r.Keys == g1.Keys
  {
    if |paths| > 1 then PathPasses(g1, walls, hypot, paths, paths, |paths|) else g1
  }

  /** The graph after the path-node loop and then the room loop, which runs only when there are rooms and path nodes. */
  function Connected(g1: Graph, walls: WallTest, hypot: Hypot, paths: seq<string>, rooms: seq<string>): (r: Graph)
    requires forall i :: 0 <= i < |paths| ==> paths[i] in g1
    requires forall i :: 0 <= i < |rooms| ==> rooms[i] in g1
    ensures r.Keys == g1.Keys
  {
    var g2 := AfterPaths(g1, walls, hypot, paths);
    if |rooms| > 0 && |paths| > 0 then RoomPasses(g2, walls, hypot, paths, rooms, |rooms|) else g2
  }

  /**
    The graph `buildNavGraphFromSvg` builds from a layout: the explicit edges, then the
    path-node loop when there are at least two path nodes, then the room loop when there
    are rooms and path nodes.
  */
  function Built(layout: Graph, ids: seq<string>, explicit: seq<(string, string)>, walls: WallTest, hypot: Hypot): (r: Graph)
    requires forall id :: id in ids ==> id in layout
    ensures r.Keys == layout.Keys
  {
    FilteredIn(ids, layout, false);
    FilteredIn(ids, layout, true);
    Connected(AfterExplicit(layout, explicit, walls, hypot), walls, hypot, FilterIds(ids, false), FilterIds(ids, true))
  }

  lemma AfterPathsKept(g1: Graph, walls: WallTest, hypot: Hypot, paths: seq<string>)
    requires forall i :: 0 <= i < |paths| ==> paths[i] in g1
    ensures EdgesKept(g1, AfterPaths(g1, walls, hypot, paths))
  {
    if |paths| > 1 {
      PathKept(g1, walls, hypot, paths, paths, |paths|);
    }
  }

  lemma ConnectedKept(g1: Graph, walls: WallTest, hypot: Hypot, paths: seq<string>, rooms: seq<string>)
    requires forall i :: 0 <= i < |paths| ==> paths[i] in g1
    requires forall i :: 0 <= i < |rooms| ==> rooms[i] in g1
    ensures EdgesKept(AfterPaths(g1, walls, hypot, paths), Connected(g1, walls, hypot, paths, rooms))
  {
    if |rooms| > 0 && |paths| > 0 {
      RoomKept(AfterPaths(g1, walls, hypot, paths), walls, hypot, paths, rooms, |rooms|);
    }
  }

  /** The built graph has the layout's nodes at their positions; the construction only adds edges. */
  lemma BuiltKeepsLayout(layout: Graph, ids: seq<string>, explicit: seq<(string, string)>, walls: WallTest, hypot: Hypot)
    requires forall id :: id in ids ==> id in layout
    ensures EdgesKept(layout, Built(layout, ids, explicit, walls, hypot))
  {
    var g1 := AfterExplicit(layout, explicit, walls, hypot);
    var paths, rooms := FilterIds(ids, false), FilterIds(ids, true);
    FilteredIn(ids, layout, false);
    FilteredIn(ids, layout, true);
    var g2 := AfterPaths(g1, walls, hypot, paths);
    ExplicitKept(layout, explicit, walls, hypot, |explicit|);
    AfterPathsKept(g1, walls, hypot, paths);
    ConnectedKept(g1, walls, hypot, paths, rooms);
    EdgesKeptTrans(layout, g1, g2);
    EdgesKeptTrans(layout, g2, Connected(g1, walls, hypot, paths, rooms));
  }

  /**
    Every explicit edge between two known nodes that passes the tests of `addEdge` is in the
    built graph, listed at both ends.
  */
  lemma BuiltHasExplicitEdges(layout: Graph, ids: seq<string>, explicit: seq<(string, string)>, walls: WallTest, hypot: Hypot, i: nat)
    requires forall id :: id in ids ==> id in layout
    requires i < |explicit| && Known(layout, explicit[i]) && Accepts(layout, walls, explicit[i].0, explicit[i].1, true)
    ensures var r := Built(layout, ids, explicit, walls, hypot);
      && HasEdgeTo(r[explicit[i].0].edges, explicit[i].1)
      && HasEdgeTo(r[explicit[i].1].edges, explicit[i].0)
  {
    var g1 := AfterExplicit(layout, explicit, walls, hypot);
    var paths, rooms := FilterIds(ids, false), FilterIds(ids, true);
    FilteredIn(ids, layout, false);
    FilteredIn(ids, layout, true);
    var g2 := AfterPaths(g1, walls, hypot, paths);
    var r := Connected(g1, walls, hypot, paths, rooms);
    AfterPathsKept(g1, walls, hypot, paths);
    ConnectedKept(g1, walls, hypot, paths, rooms);
    EdgesKeptTrans(g1, g2, r);
    ExplicitLinked(layout, explicit, walls, hypot, |explicit|, i);
    EdgesKeptLinks(g1, r, explicit[i].0, explicit[i].1);
    EdgesKeptLinks(g1, r, explicit[i].1, explicit[i].0);
  }

  /**
    When there are at least two path nodes, every path node is joined in the built graph to
    each of its three nearest candidates within range that passes the tests of `addEdge`.
  */
  lemma BuiltHasPathLinks(layout: Graph, ids: seq<string>, explicit: seq<(string, string)>, walls: WallTest, hypot: Hypot,
                          j: nat, i: nat)
    requires forall id :: id in ids ==> id in layout
    requires var paths := FilterIds(ids, false);
      && 1 < |paths| && j < |paths|
      && var c := PathCandidates(layout, hypot, paths, paths[j]);
      && i < Min(MaxNeighbours, |c|) && Accepts(layout, walls, paths[j], c[i].id, true)
    ensures var paths := FilterIds(ids, false);
      HasEdgeTo(Built(layout, ids, explicit, walls, hypot)[paths[j]].edges, PathCandidates(layout, hypot, paths, paths[j])[i].id)
  {
    var g1 := AfterExplicit(layout, explicit, walls, hypot);
    var paths, rooms := FilterIds(ids, false), FilterIds(ids, true);
    FilteredIn(ids, layout, false);
    FilteredIn(ids, layout, true);
    var c := PathCandidates(layout, hypot, paths, paths[j]);
    var g2 := AfterPaths(g1, walls, hypot, paths);
    ExplicitKept(layout, explicit, walls, hypot, |explicit|);
    ConnectedKept(g1, walls, hypot, paths, rooms);
    CandidatesOnLayout(layout, g1, hypot, paths, paths[j]);
    AcceptsOnLayout(layout, g1, walls, paths[j], c[i].id, true);
    PathPassesLinked(g1, walls, hypot, paths, paths, |paths|, j, i);
    EdgesKeptLinks(g2, Connected(g1, walls, hypot, paths, rooms), paths[j], c[i].id);
  }

  /**
    When there are path nodes, every room is joined in the built graph to each of its five
    nearest path nodes that passes the tests of `addEdge`.
  */
  lemma BuiltHasRoomLinks(layout: Graph, ids: seq<string>, explicit: seq<(string, string)>, walls: WallTest, hypot: Hypot,
                          j: nat, i: nat)
    requires forall id :: id in ids ==> id in layout
    requires var paths := FilterIds(ids, false);
      var rooms := FilterIds(ids, true);
      && 0 < |paths| && j < |rooms|
      && var c := RoomPathCandidates(layout, hypot, paths, rooms[j]);
      && i < |c| && Accepts(layout, walls, rooms[j], c[i].id, true)
    ensures var paths := FilterIds(ids, false);
      var rooms := FilterIds(ids, true);
      HasEdgeTo(Built(layout, ids, explicit, walls, hypot)[rooms[j]].edges, RoomPathCandidates(layout, hypot, paths, rooms[j])[i].id)
  {
    var g1 := AfterExplicit(layout, explicit, walls, hypot);
    var paths, rooms := FilterIds(ids, false), FilterIds(ids, true);
    FilteredIn(ids, layout, false);
    FilteredIn(ids, layout, true);
    var c := RoomPathCandidates(layout, hypot, paths, rooms[j]);
    var g2 := AfterPaths(g1, walls, hypot, paths);
    ExplicitKept(layout, explicit, walls, hypot, |explicit|);
    AfterPathsKept(g1, walls, hypot, paths);
    EdgesKeptTrans(layout, g1, g2);
    CandidatesOnLayout(layout, g2, hypot, paths, rooms[j]);
    AcceptsOnLayout(layout, g2, walls, rooms[j], c[i].id, true);
    RoomPassesLinked(g2, walls, hypot, paths, rooms, |rooms|, j, i);
  }

  // ---------------------------------------------------------------------------------------
  // The whole construction
  // ---------------------------------------------------------------------------------------

  /**
    `buildNavGraphFromSvg` from the scanned layout on: the explicit `.nav-edge` edges (each
    with weight `Math.hypot(dx, dy) || 1`), then the path-node step when there are at least
    two path nodes, then the room step when there are rooms and path nodes. Every edge of the
    result is symmetric, unrepeated, not room-to-room and clear of walls; `null` is returned
    exactly when there are no nodes.
  */
  method BuildNavGraph(layout: Graph, ids: seq<string>, explicit: seq<(string, string)>, walls: WallTest, hypot: Hypot)
    returns (r: Option<Graph>)
    requires forall n :: n in layout ==> layout[n].edges == []
    requires forall id :: id in ids ==> id in layout
    ensures r.None? <==> |layout| == 0
    ensures r.Some? ==> r.value == Built(layout, ids, explicit, walls, hypot)
    ensures r.Some? ==> SameLayout(layout, r.value) && WellFormed(r.value) && WallFree(r.value, walls)
  {
    EmptyWellFormed(layout, walls);
    var g1 := AddExplicitEdges(layout, explicit, walls, hypot);
    var pathNodes := FilterIds(ids, false);
    var roomNodes := FilterIds(ids, true);
    FilteredIn(ids, layout, false);
    FilteredIn(ids, layout, true);
    var g := ConnectNodes(layout, g1, walls, hypot, pathNodes, roomNodes);
    if |g| == 0 {
      assert layout.Keys == {};
      return None;
    }
    assert g.Keys != {};
    return Some(g);
  }

  /** The path-node loop when there are at least two path nodes, then the room loop when there are rooms and path nodes. */
  method ConnectNodes(layout: Graph, g1: Graph, walls: WallTest, hypot: Hypot, pathNodes: seq<string>, roomNodes: seq<string>)
    returns (g: Graph)
    requires SameLayout(layout, g1) && WellFormed(g1) && WallFree(g1, walls)
    requires forall i :: 0 <= i < |pathNodes| ==> pathNodes[i] in layout
    requires forall i :: 0 <= i < |roomNodes| ==> roomNodes[i] in layout
    ensures g == Connected(g1, walls, hypot, pathNodes, roomNodes)
    ensures SameLayout(layout, g) && WellFormed(g) && WallFree(g, walls)
  {
    g := g1;
    if |pathNodes| > 1 {
      g := ConnectPathNodes(layout, g, walls, hypot, pathNodes, pathNodes);
    }
    if |roomNodes| > 0 && |pathNodes| > 0 {
      g := ConnectRooms(layout, g, walls, hypot, pathNodes, roomNodes);
    }
  }

  /** The `.nav-edge` loop: `addEdge(from, to, Math.hypot(dx, dy) || 1)` for each edge whose ends are known nodes. */
  method AddExplicitEdges(layout: Graph, explicit: seq<(string, string)>, walls: WallTest, hypot: Hypot) returns (g: Graph)
    requires WellFormed(layout) && WallFree(layout, walls)
    ensures g == AfterExplicit(layout, explicit, walls, hypot)
    ensures SameLayout(layout, g) && WellFormed(g) && WallFree(g, walls)
  {
    g := layout;
    for k := 0 to |explicit|
      invariant g == ExplicitPasses(layout, explicit, walls, hypot, k)
      invariant WellFormed(g) && WallFree(g, walls)
    {
      var (from, to) := explicit[k];
      if from == "" || to == "" || from !in g || to !in g {
        assert !Known(g, explicit[k]);
        continue;
      }
      var w := EdgeWeight(hypot, g[to].x - g[from].x, g[to].y - g[from].y);
      assert w == ExplicitWeight(g, hypot, explicit[k]);
      ghost var next := TryAdd(g, walls, from, to, w);
      assert next == ExplicitPasses(layout, explicit, walls, hypot, k + 1);
      TryAddWellFormed(g, walls, from, to, w);
      var added;
      g, added := AddEdge(g, walls, from, to, w, true);
      assert g == next;
    }
    ExplicitKept(layout, explicit, walls, hypot, |explicit|);
  }

  /** The `for (const pId of pathNodes)` loop. */
  method ConnectPathNodes(layout: Graph, g: Graph, walls: WallTest, hypot: Hypot, pathIds: seq<string>, todo: seq<string>)
    returns (g': Graph)
    requires SameLayout(layout, g) && WellFormed(g) && WallFree(g, walls)
    requires forall i :: 0 <= i < |pathIds| ==> pathIds[i] in layout
    requires forall i :: 0 <= i < |todo| ==> todo[i] in layout
    ensures g' == PathPasses(g, walls, hypot, pathIds, todo, |todo|)
    ensures SameLayout(layout, g') && WellFormed(g') && WallFree(g', walls)
  {
    g' := g;
    for k := 0 to |todo|
      invariant g' == PathPasses(g, walls, hypot, pathIds, todo, k)
      invariant SameLayout(layout, g') && WellFormed(g') && WallFree(g', walls)
    {
      var before := g';
      var c := PathCandidates(before, hypot, pathIds, todo[k]);
      var connected;
      g', connected := ConnectPathNode(before, walls, hypot, pathIds, todo[k]);
      PathStepGrows(before, walls, todo[k], c);
      PathStepWellFormed(before, walls, todo[k], c);
    }
  }

  /** The `for (const roomId of roomNodes)` loop. */
  method ConnectRooms(layout: Graph, g: Graph, walls: WallTest, hypot: Hypot, pathIds: seq<string>, rooms: seq<string>)
    returns (g': Graph)
    requires SameLayout(layout, g) && WellFormed(g) && WallFree(g, walls)
    requires forall i :: 0 <= i < |pathIds| ==> pathIds[i] in layout
    requires forall i :: 0 <= i < |rooms| ==> rooms[i] in layout
    ensures g' == RoomPasses(g, walls, hypot, pathIds, rooms, |rooms|)
    ensures SameLayout(layout, g') && WellFormed(g') && WallFree(g', walls)
  {
    g' := g;
    for k := 0 to |rooms|
      invariant g' == RoomPasses(g, walls, hypot, pathIds, rooms, k)
      invariant SameLayout(layout, g') && WellFormed(g') && WallFree(g', walls)
    {
      var before := g';
      var c := RoomPathCandidates(before, hypot, pathIds, rooms[k]);
      var connected;
      g', connected := ConnectRoom(before, walls, hypot, pathIds, rooms[k]);
      JoinFirstLayout(before, walls, rooms[k], c, |c|);
      JoinFirstWellFormed(before, walls, rooms[k], c, |c|);
    }
  }

  // ---------------------------------------------------------------------------------------
  // findNearestNode
  // ---------------------------------------------------------------------------------------

  /** `Math.hypot(n.x - x, n.y - y)` */
  function PointDist(g: Graph, hypot: Hypot, id: string, x: real, y: real): (d: real)
    requires id in g
    ensures d >= 0.0
  {
    hypot(g[id].x - x, g[id].y - y)
  }

  /**
    `ids[i]` is the node nearest to (x, y), and no node listed before it is as near: the
    answer of a best-so-far scan with a strict comparison.
  */
  ghost predicate FirstNearestAt(g: Graph, ids: seq<string>, hypot: Hypot, x: real, y: real, i: nat)
    requires forall k :: 0 <= k < |ids| ==> ids[k] in g
  {
    && i < |ids|
    && (forall j :: 0 <= j < |ids| ==> PointDist(g, hypot, ids[i], x, y) <= PointDist(g, hypot, ids[j], x, y))
    && (forall j :: 0 <= j < i ==> PointDist(g, hypot, ids[j], x, y) > PointDist(g, hypot, ids[i], x, y))
  }

  /**
    `findNearestNode(nodes, x, y)`, scanning the keys in the order `ids`: `null` for no
    nodes, else the first node at the least distance.
  */
  method FindNearestNode(g: Graph, ids: seq<string>, hypot: Hypot, x: real, y: real) returns (best: Option<string>)
    requires forall k :: 0 <= k < |ids| ==> ids[k] in g
    ensures best.None? <==> |ids| == 0
    ensures best.Some? ==> exists i :: 0 <= i < |ids| && ids[i] == best.value && FirstNearestAt(g, ids, hypot, x, y, i)
  {
    best := None;
    var bestDist: real := 0.0;
    ghost var at: nat := 0;
    for k := 0 to |ids|
      invariant best.None? <==> k == 0
      invariant best.Some? ==> at < k && ids[at] == best.value && bestDist == PointDist(g, hypot, ids[at], x, y)
      invariant best.Some? ==> forall j :: 0 <= j < k ==> bestDist <= PointDist(g, hypot, ids[j], x, y)
      invariant best.Some? ==> forall j :: 0 <= j < at ==> PointDist(g, hypot, ids[j], x, y) > bestDist
    {
      var n := g[ids[k]];
      var d := hypot(n.x - x, n.y - y);
      if best.None? || d < bestDist {
        bestDist := d;
        best := Some(ids[k]);
        at := k;
      }
    }
  }

  /** Only one position can be the first nearest. */
  lemma FirstNearestUnique(g: Graph, ids: seq<string>, hypot: Hypot, x: real, y: real, i: nat, j: nat)
    requires forall k :: 0 <= k < |ids| ==> ids[k] in g
    requires FirstNearestAt(g, ids, hypot, x, y, i) && FirstNearestAt(g, ids, hypot, x, y, j)
    ensures i == j
  {
    assert PointDist(g, hypot, ids[i], x, y) <= PointDist(g, hypot, ids[j], x, y);
    assert PointDist(g, hypot, ids[j], x, y) <= PointDist(g, hypot, ids[i], x, y);
  }
}
