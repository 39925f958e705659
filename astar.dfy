/**
  The A* search over a navigation graph: an open set kept in insertion order, a closed set,
  g- and f-scores, back links and an iteration cap of ten times the number of nodes. A
  room may be entered only from the start node or when it is the goal. Scores are finite
  reals; a key missing from a score map stands for `Infinity`.
*/
module AStar {
  import opened Wrappers
  import opened JsText
  import opened NavModel

  /** The straight-line distance from `a` to `b`, the search's heuristic. */
  function Heuristic(g: Graph, hypot: Hypot, a: string, b: string): (h: real)
    requires a in g && b in g
    ensures h >= 0.0
  {
    hypot(g[a].x - g[b].x, g[a].y - g[b].y)
  }

  /** The room rule: the search steps from `u` into a room only when `u` is the start or the room is the goal. */
  predicate MayEnter(start: string, goal: string, u: string, v: string) {
    !IsRoomId(v) || u == start || v == goal
  }

  // ---------------------------------------------------------------------------------------
  // Walks
  // ---------------------------------------------------------------------------------------

  /** `p` with step weights `ws` follows edges of `g`, each step allowed by the room rule. */
  ghost predicate IsSteps(g: Graph, start: string, goal: string, p: seq<string>, ws: seq<real>) {
    && |p| > 0 && |ws| == |p| - 1
    && (forall i :: 0 <= i < |p| ==> p[i] in g)
    && (forall i :: 0 <= i < |ws| ==> Edge(p[i + 1], ws[i]) in g[p[i]].edges && MayEnter(start, goal, p[i], p[i + 1]))
  }

  /** A walk the search may take: steps as above, beginning at `start`. */
  ghost predicate IsWalk(g: Graph, start: string, goal: string, p: seq<string>, ws: seq<real>) {
    IsSteps(g, start, goal, p, ws) && p[0] == start
  }

  /** The total weight of a walk. */
  function Sum(ws: seq<real>): real {
    if |ws| == 0 then 0.0 else Sum(ws[..|ws| - 1]) + ws[|ws| - 1]
  }

  /** No walk from `start` to `n` weighs less than `d`. */
  ghost predicate ShortestTo(g: Graph, start: string, goal: string, n: string, d: real) {
    forall p, ws :: IsWalk(g, start, goal, p, ws) && p[|p| - 1] == n ==> d <= Sum(ws)
  }

  ghost predicate Reachable(g: Graph, start: string, goal: string) {
    exists p, ws :: IsWalk(g, start, goal, p, ws) && p[|p| - 1] == goal
  }

  /**
    Edge weights are not negative and the heuristic is consistent: across any edge it drops by
    at most the edge's weight. Euclidean distance with weights `Math.hypot(dx, dy) || 1`
    has this property.
  */
  ghost predicate Consistent(g: Graph, hypot: Hypot, goal: string) {
    goal in g && forall a, e :: a in g && e in g[a].edges && e.to in g ==>
      e.w >= 0.0 && Heuristic(g, hypot, a, goal) <= e.w + Heuristic(g, hypot, e.to, goal)
  }

  lemma {:induction false} SumAppend(a: seq<real>, b: seq<real>)
    ensures Sum(a + b) == Sum(a) + Sum(b)
    decreases |b|
  {
    if |b| > 0 {
      assert (a + b)[..|a + b| - 1] == a + b[..|b| - 1];
      SumAppend(a, b[..|b| - 1]);
    } else {
      assert a + b == a;
    }
  }

  lemma {:induction false} SumNonNegative(ws: seq<real>)
    requires forall i :: 0 <= i < |ws| ==> ws[i] >= 0.0
    ensures Sum(ws) >= 0.0
    decreases |ws|
  {
    if |ws| > 0 {
      SumNonNegative(ws[..|ws| - 1]);
    }
  }

  /** A walk extended by one allowed step is a walk, and weighs that step more. */
  lemma WalkExtend(g: Graph, start: string, goal: string, p: seq<string>, ws: seq<real>, v: string, w: real)
    requires IsWalk(g, start, goal, p, ws)
    requires v in g && Edge(v, w) in g[p[|p| - 1]].edges && MayEnter(start, goal, p[|p| - 1], v)
    ensures IsWalk(g, start, goal, p + [v], ws + [w]) && Sum(ws + [w]) == Sum(ws) + w
  {
    assert (ws + [w])[..|ws|] == ws;
  }

  /** Every prefix of a walk is a walk. */
  lemma WalkPrefix(g: Graph, start: string, goal: string, p: seq<string>, ws: seq<real>, n: nat)
    requires IsWalk(g, start, goal, p, ws) && 0 < n <= |p|
    ensures IsWalk(g, start, goal, p[..n], ws[..n - 1])
  {
  }

  /** Along steps under a consistent heuristic, the heuristic drops by at most the weight walked. */
  lemma {:induction false} HeuristicAlong(g: Graph, hypot: Hypot, start: string, goal: string, p: seq<string>, ws: seq<real>, k: nat)
    requires Consistent(g, hypot, goal) && IsSteps(g, start, goal, p, ws) && k < |p|
    ensures Heuristic(g, hypot, p[k], goal) <= Sum(ws[k..]) + Heuristic(g, hypot, p[|p| - 1], goal)
    decreases |p| - k
  {
    if k < |p| - 1 {
      HeuristicAlong(g, hypot, start, goal, p, ws, k + 1);
      assert ws[k..] == [ws[k]] + ws[k + 1..];
      SumAppend([ws[k]], ws[k + 1..]);
      assert Sum([ws[k]]) == ws[k] by {
        assert [ws[k]][..0] == [];
      }
      assert Edge(p[k + 1], ws[k]) in g[p[k]].edges;
    } else {
      assert ws[k..] == [];
    }
  }

  // ---------------------------------------------------------------------------------------
  // Search state and one relaxation step
  // ---------------------------------------------------------------------------------------

  /** `openSet` (in insertion order), `cameFrom`, `gScore` and `fScore`. */
  datatype SearchState = SearchState(open: seq<string>, came: map<string, string>, gs: map<string, real>, fs: map<string, real>)

  /**
    One pass of the neighbour loop for `current` over edge `e`: a closed neighbour is skipped,
    so is a room that is neither reached from the start nor the goal; a new neighbour is
    opened, and an open one is kept unless the tentative score improves on it.
  */
  function RelaxEdge(g: Graph, hypot: Hypot, start: string, goal: string, current: string, closed: set<string>,
                     s: SearchState, e: Edge): (s': SearchState)
    requires goal in g && e.to in g && current in s.gs
    requires forall x :: x in s.open ==> x in s.gs
    ensures current in s'.gs && forall x :: x in s'.open ==> x in s'.gs
  {
    var v := e.to;
    if v in closed then s
    else if IsRoomId(v) && current != start && v != goal then s
    else
      var t := s.gs[current] + e.w;
      if v in s.open && t >= s.gs[v] then s
      else
        Opened(g, hypot, goal, current, s, v, t)
  }

  /** `v` is opened (appended if new) with parent `current`, g-score `t` and f-score `t + h(v)`. */
  function Opened(g: Graph, hypot: Hypot, goal: string, current: string, s: SearchState, v: string, t: real): SearchState
    requires goal in g && v in g
  {
    SearchState(if v in s.open then s.open else s.open + [v], s.came[v := current], s.gs[v := t],
                s.fs[v := t + Heuristic(g, hypot, v, goal)])
  }

  /** The whole neighbour loop: `RelaxEdge` over `edges` in order. */
  function RelaxAll(g: Graph, hypot: Hypot, start: string, goal: string, current: string, closed: set<string>,
                    s: SearchState, edges: seq<Edge>): (s': SearchState)
    requires goal in g && current in s.gs && forall x :: x in s.open ==> x in s.gs
    requires forall i :: 0 <= i < |edges| ==> edges[i].to in g
    ensures current in s'.gs && forall x :: x in s'.open ==> x in s'.gs
    decreases |edges|
  {
    if |edges| == 0 then s
    else RelaxEdge(g, hypot, start, goal, current, closed,
                   RelaxAll(g, hypot, start, goal, current, closed, s, edges[..|edges| - 1]), edges[|edges| - 1])
  }

  /** The neighbour loop of one iteration, edge by edge with the source's early `continue`s. */
  method RelaxNeighbours(g: Graph, hypot: Hypot, start: string, goal: string, current: string, closed: set<string>, s: SearchState)
    returns (s': SearchState)
    requires Closed(g) && current in g && goal in g && current in s.gs && forall x :: x in s.open ==> x in s.gs
    ensures s' == RelaxAll(g, hypot, start, goal, current, closed, s, g[current].edges)
  {
    var edges := g[current].edges;
    s' := s;
    for k := 0 to |edges|
      invariant s' == RelaxAll(g, hypot, start, goal, current, closed, s, edges[..k])
    {
      assert edges[..k + 1][..k] == edges[..k];
      assert RelaxAll(g, hypot, start, goal, current, closed, s, edges[..k + 1])
          == RelaxEdge(g, hypot, start, goal, current, closed, s', edges[k]);
      var neighbour := edges[k].to;
      if neighbour in closed {
        continue;
      }
      if IsRoomId(neighbour) {
        if current != start && neighbour != goal {
          continue;
        }
      }
      var tentative := s'.gs[current] + edges[k].w;
      if neighbour in s'.open && tentative >= s'.gs[neighbour] {
        continue;
      }
      s' := Opened(g, hypot, goal, current, s', neighbour, tentative);
    }
    assert edges[..|edges|] == edges;
  }

  /**
    `current` is the first open node of least f-score (`f < bestF`, starting from
    `bestF = Infinity`).
  */
  method SelectBest(open: seq<string>, fs: map<string, real>) returns (i: nat)
    requires |open| > 0 && forall x :: x in open ==> x in fs
    ensures i < |open|
    ensures forall k :: 0 <= k < |open| ==> fs[open[i]] <= fs[open[k]]
    ensures forall k :: 0 <= k < i ==> fs[open[k]] > fs[open[i]]
  {
    var best: Option<real> := None;
    i := 0;
    for k := 0 to |open|
      invariant i <= k && (k > 0 ==> i < k)
      invariant if k > 0 then best == Some(fs[open[i]]) else best.None?
      invariant forall j :: 0 <= j < k ==> fs[open[i]] <= fs[open[j]]
      invariant forall j :: 0 <= j < i ==> fs[open[j]] > fs[open[i]]
    {
      var f := fs[open[k]];
      if best.None? || f < best.value {
        best := Some(f);
        i := k;
      }
    }
  }

  // ---------------------------------------------------------------------------------------
  // The invariant of the main loop
  // ---------------------------------------------------------------------------------------

  /** A node's depth in the back link forest: its closing rank, or `count` while not closed. */
  ghost function Height(rank: map<string, nat>, count: nat, n: string): nat {
    if n in rank then rank[n] else count
  }

  /** Open and closed nodes are nodes of the graph, apart and without repeats; the start is closed first. */
  ghost predicate Shape(g: Graph, start: string, goal: string, open: seq<string>, closed: set<string>, rank: map<string, nat>) {
    && start in g && goal in g && goal !in closed && closed <= g.Keys
    && (forall x :: x in open ==> x in g && x !in closed)
    && (forall i, j :: 0 <= i < j < |open| ==> open[i] != open[j])
    && rank.Keys == closed && (forall c :: c in closed ==> rank[c] < |closed|)
    && (|closed| == 0 ==> open == [start])
    && (|closed| > 0 ==> start in closed)
  }

  /** Every open node has a g-score and the f-score `g + h`; every closed node has a g-score. */
  ghost predicate Scored(g: Graph, hypot: Hypot, goal: string, open: seq<string>, closed: set<string>, gs: map<string, real>, fs: map<string, real>) {
    && goal in g
    && (forall x :: x in open ==> x in g && x in gs && x in fs && fs[x] == gs[x] + Heuristic(g, hypot, x, goal))
    && (forall c :: c in closed ==> c in gs)
  }

  /**
    The back links: the start has score 0 and no parent; every other open or closed node
    has a closed parent, closed before it, joined to it by an allowed edge whose weight is
    the difference of their scores.
  */
  ghost predicate Parents(g: Graph, start: string, goal: string, open: seq<string>, closed: set<string>,
                          came: map<string, string>, gs: map<string, real>, rank: map<string, nat>) {
    && start in gs && gs[start] == 0.0
    && ParentLinks(g, start, goal, closed, came, gs)
    && RankedParents(came, rank, |closed|)
    && ParentsCover(start, open, closed, came)
  }

  /** Each back link leads to a closed node, across an allowed edge weighing the difference of the two scores. */
  ghost predicate ParentLinks(g: Graph, start: string, goal: string, closed: set<string>, came: map<string, string>, gs: map<string, real>) {
    forall n :: n in came ==>
      && n in gs && came[n] in closed && came[n] in g && came[n] in gs
      && Edge(n, gs[n] - gs[came[n]]) in g[came[n]].edges && MayEnter(start, goal, came[n], n)
  }

  /** Each back link leads to a node closed before the node it starts from. */
  ghost predicate RankedParents(came: map<string, string>, rank: map<string, nat>, count: nat) {
    forall n :: n in came ==> came[n] in rank && rank[came[n]] < Height(rank, count, n)
  }

  /** The start has no back link; every other open node has one, and only open and closed nodes do. */
  ghost predicate ParentsCover(start: string, open: seq<string>, closed: set<string>, came: map<string, string>) {
    && start !in came
    && (forall n :: n in came ==> n in closed || n in open)
    && (forall x :: x in open && x != start ==> x in came)
  }

  /**
    Every closed node other than the start has a back link. Kept apart from `Parents`:
    together with `ParentLinks` it would let the solver walk back links without end.
  */
  ghost predicate ClosedParented(start: string, closed: set<string>, came: map<string, string>) {
    forall c :: c in closed && c != start ==> c in came
  }

  /** Edge `e` of the closed node `c` leads to a closed node, or to an open one scored at most via `c`. */
  ghost predicate Covered(open: seq<string>, closed: set<string>, gs: map<string, real>, c: string, e: Edge) {
    e.to in closed || (e.to in open && e.to in gs && c in gs && gs[e.to] <= gs[c] + e.w)
  }

  /** Every allowed edge out of a closed node outside `skip` is covered. */
  ghost predicate Frontier(g: Graph, start: string, goal: string, open: seq<string>, closed: set<string>,
                           gs: map<string, real>, skip: set<string>) {
    forall c, e :: c in closed && c !in skip && c in g && e in g[c].edges && MayEnter(start, goal, c, e.to) ==>
      Covered(open, closed, gs, c, e)
  }

  /** Under a consistent heuristic every closed node has its least g-score. */
  ghost predicate Optimal(g: Graph, hypot: Hypot, start: string, goal: string, closed: set<string>, gs: map<string, real>) {
    Consistent(g, hypot, goal) ==> forall c :: c in closed && c in gs ==> ShortestTo(g, start, goal, c, gs[c])
  }

  ghost predicate Searching(g: Graph, hypot: Hypot, start: string, goal: string, open: seq<string>, closed: set<string>,
                            came: map<string, string>, gs: map<string, real>, fs: map<string, real>, rank: map<string, nat>) {
    && Shape(g, start, goal, open, closed, rank)
    && Scored(g, hypot, goal, open, closed, gs, fs)
    && Parents(g, start, goal, open, closed, came, gs, rank)
    && Frontier(g, start, goal, open, closed, gs, {})
    && Optimal(g, hypot, start, goal, closed, gs)
  }

  /** The invariant part way through the neighbour loop of `current`, after its first `k` edges. */
  ghost predicate Relaxing(g: Graph, hypot: Hypot, start: string, goal: string, current: string, closed: set<string>,
                           rank: map<string, nat>, s: SearchState, k: nat) {
    && current in closed && current in g && k <= |g[current].edges|
    && Shape(g, start, goal, s.open, closed, rank)
    && Scored(g, hypot, goal, s.open, closed, s.gs, s.fs)
    && Parents(g, start, goal, s.open, closed, s.came, s.gs, rank)
    && Frontier(g, start, goal, s.open, closed, s.gs, {current})
    && (forall e :: e in g[current].edges[..k] && MayEnter(start, goal, current, e.to) ==> Covered(s.open, closed, s.gs, current, e))
  }

  /** The scores of closed nodes are the same in `gs` and `gs'`. */
  ghost predicate ClosedScoresKept(closed: set<string>, gs: map<string, real>, gs': map<string, real>) {
    forall c :: c in closed ==> (c in gs' <==> c in gs) && (c in gs ==> gs'[c] == gs[c])
  }

  // ---------------------------------------------------------------------------------------
  // Why the invariant holds
  // ---------------------------------------------------------------------------------------

  /** Before the first iteration only the start is open, with score 0. */
  lemma SearchStarts(g: Graph, hypot: Hypot, start: string, goal: string)
    requires start in g && goal in g
    ensures Searching(g, hypot, start, goal, [start], {}, map[], map[start := 0.0],
                      map[start := Heuristic(g, hypot, start, goal)], map[])
  {
    assert forall p, ws :: IsWalk(g, start, goal, p, ws) && p[|p| - 1] == start ==> 0.0 <= 0.0;
  }

  /** What the search has settled so far: the part of the invariant the optimality argument uses. */
  ghost predicate Explored(g: Graph, hypot: Hypot, start: string, goal: string, open: seq<string>, closed: set<string>, gs: map<string, real>) {
    && (start !in closed ==> open == [start])
    && start in gs && gs[start] == 0.0
    && (forall x :: x in open ==> x in gs)
    && Frontier(g, start, goal, open, closed, gs, {})
    && Optimal(g, hypot, start, goal, closed, gs)
  }

  lemma SearchingExplored(g: Graph, hypot: Hypot, start: string, goal: string, open: seq<string>, closed: set<string>,
                          came: map<string, string>, gs: map<string, real>, fs: map<string, real>, rank: map<string, nat>)
    requires Searching(g, hypot, start, goal, open, closed, came, gs, fs, rank)
    ensures Explored(g, hypot, start, goal, open, closed, gs)
  {
  }

  /**
    A walk from the start to a node that is not closed passes an open node, first leaving the
    closed set there; under a consistent heuristic that node's score is at most the weight of
    the walk up to it.
  */
  lemma {:induction false} EntersOpen(g: Graph, hypot: Hypot, start: string, goal: string, open: seq<string>, closed: set<string>,
                                      gs: map<string, real>, p: seq<string>, ws: seq<real>) returns (k: nat)
    requires Explored(g, hypot, start, goal, open, closed, gs)
    requires IsWalk(g, start, goal, p, ws) && p[|p| - 1] !in closed
    ensures k < |p| && p[k] in open && p[k] in gs
    ensures Consistent(g, hypot, goal) ==> gs[p[k]] <= Sum(ws[..k])
    decreases |p|
  {
    var n := |p| - 1;
    if n == 0 {
      k := 0;
      assert open == [start];
      assert ws[..0] == [];
    } else if p[n - 1] !in closed {
      WalkPrefix(g, start, goal, p, ws, n);
      k := EntersOpen(g, hypot, start, goal, open, closed, gs, p[..n], ws[..n - 1]);
      assert ws[..n - 1][..k] == ws[..k];
    } else {
      k := n;
      EnterAtEdge(g, hypot, start, goal, open, closed, gs, p, ws);
    }
  }

  /** A walk whose last step leaves the closed set ends at an open node, scored at most the walk's weight. */
  lemma EnterAtEdge(g: Graph, hypot: Hypot, start: string, goal: string, open: seq<string>, closed: set<string>,
                    gs: map<string, real>, p: seq<string>, ws: seq<real>)
    requires Explored(g, hypot, start, goal, open, closed, gs)
    requires IsWalk(g, start, goal, p, ws) && |p| >= 2 && p[|p| - 2] in closed && p[|p| - 1] !in closed
    ensures p[|p| - 1] in open && p[|p| - 1] in gs
    ensures Consistent(g, hypot, goal) ==> gs[p[|p| - 1]] <= Sum(ws[..|p| - 1])
  {
    var n := |p| - 1;
    var c, e := p[n - 1], Edge(p[n], ws[n - 1]);
    assert e in g[c].edges && MayEnter(start, goal, c, e.to);
    assert Covered(open, closed, gs, c, e);
    if Consistent(g, hypot, goal) {
      WalkPrefix(g, start, goal, p, ws, n);
      assert ShortestTo(g, start, goal, c, gs[c]);
      assert gs[c] <= Sum(ws[..n - 1]);
      assert ws[..n] == ws && ws[..n][..n - 1] == ws[..n - 1];
    }
  }

  /**
    The open node of least f-score has its least g-score: any walk to it leaves the closed
    set at an open node, whose f-score bounds the walk's weight plus the remaining heuristic.
  */
  lemma SelectedIsShortest(g: Graph, hypot: Hypot, start: string, goal: string, open: seq<string>, closed: set<string>,
                           gs: map<string, real>, fs: map<string, real>, current: string)
    requires Explored(g, hypot, start, goal, open, closed, gs) && Consistent(g, hypot, goal)
    requires Scored(g, hypot, goal, open, closed, gs, fs)
    requires current in open && current !in closed && forall x :: x in open ==> fs[current] <= fs[x]
    ensures ShortestTo(g, start, goal, current, gs[current])
  {
    forall p, ws | IsWalk(g, start, goal, p, ws) && p[|p| - 1] == current
      ensures gs[current] <= Sum(ws)
    {
      var k := EntersOpen(g, hypot, start, goal, open, closed, gs, p, ws);
      assert p[k] in open;
      WalkToSelected(g, hypot, start, goal, gs, fs, current, p, ws, k);
    }
  }

  /**
    One walk to the selected node, leaving the closed set at `p[k]`: the selected node's
    f-score is at most that of `p[k]`, so its g-score is at most the walk's weight.
  */
  lemma WalkToSelected(g: Graph, hypot: Hypot, start: string, goal: string, gs: map<string, real>, fs: map<string, real>,
                       current: string, p: seq<string>, ws: seq<real>, k: nat)
    requires Consistent(g, hypot, goal) && IsSteps(g, start, goal, p, ws) && k < |p| && p[|p| - 1] == current
    requires p[k] in gs && gs[p[k]] <= Sum(ws[..k])
    requires current in gs && current in fs && p[k] in fs
    requires fs[p[k]] == gs[p[k]] + Heuristic(g, hypot, p[k], goal)
    requires fs[current] == gs[current] + Heuristic(g, hypot, current, goal)
    requires fs[current] <= fs[p[k]]
    ensures gs[current] <= Sum(ws)
  {
    HeuristicAlong(g, hypot, start, goal, p, ws, k);
    assert ws == ws[..k] + ws[k..];
    SumAppend(ws[..k], ws[k..]);
  }

  /** With nothing left open, no walk leads from the start to the goal. */
  lemma Exhausted(g: Graph, hypot: Hypot, start: string, goal: string, closed: set<string>,
                  came: map<string, string>, gs: map<string, real>, fs: map<string, real>, rank: map<string, nat>)
    requires Searching(g, hypot, start, goal, [], closed, came, gs, fs, rank)
    ensures !Reachable(g, start, goal)
  {
    SearchingExplored(g, hypot, start, goal, [], closed, came, gs, fs, rank);
    if Reachable(g, start, goal) {
      var p, ws :| IsWalk(g, start, goal, p, ws) && p[|p| - 1] == goal;
      var k := EntersOpen(g, hypot, start, goal, [], closed, gs, p, ws);
    }
  }

  /** While a node is open the closed set is smaller than the graph, so the cap `10 * |nodes|` never stops the loop. */
  lemma CapNotReached(g: Graph, closed: set<string>, x: string)
    requires closed <= g.Keys && x in g && x !in closed
    ensures |closed| < |g|
  {
    var rest := g.Keys - closed;
    assert x in rest;
    assert g.Keys == closed + rest && closed * rest == {};
    assert |g.Keys| == |closed| + |rest|;
    assert |g| == |g.Keys| by {
      MapSize(g);
    }
  }

  /** A map has as many entries as keys. */
  lemma {:induction false} MapSize(m: Graph)
    ensures |m| == |m.Keys|
    decreases |m.Keys|
  {
    if |m.Keys| > 0 {
      var k :| k in m.Keys;
      var m' := map x | x in m.Keys - {k} :: m[x];
      assert m'.Keys == m.Keys - {k};
      MapSize(m');
      assert m == m'[k := m[k]];
    } else {
      assert m == map[];
    }
  }

  /** The nodes not yet closed: this shrinks with every iteration. */
  ghost function Unclosed(g: Graph, closed: set<string>): nat {
    |g.Keys - closed|
  }

  lemma UnclosedShrinks(g: Graph, closed: set<string>, x: string)
    requires x in g && x !in closed
    ensures Unclosed(g, closed + {x}) < Unclosed(g, closed)
  {
    assert g.Keys - closed == (g.Keys - (closed + {x})) + {x};
  }

  /** Removing the selected entry from a list without repeats drops exactly that node. */
  lemma RemoveAt(open: seq<string>, i: nat)
    requires i < |open| && forall a, b :: 0 <= a < b < |open| ==> open[a] != open[b]
    ensures var r := open[..i] + open[i + 1..];
      && (forall x :: x in r <==> x in open && x != open[i])
      && (forall a, b :: 0 <= a < b < |r| ==> r[a] != r[b])
  {
    var r := open[..i] + open[i + 1..];
    forall x | x in open && x != open[i]
      ensures x in r
    {
      var j :| 0 <= j < |open| && open[j] == x;
      if j < i {
        assert r[j] == x;
      } else {
        assert r[j - 1] == x;
      }
    }
    forall a, b | 0 <= a < b < |r|
      ensures r[a] != r[b]
    {
      var a', b' := if a < i then a else a + 1, if b < i then b else b + 1;
      assert r[a] == open[a'] && r[b] == open[b'];
    }
  }

  // ---------------------------------------------------------------------------------------
  // Closing the selected node
  // ---------------------------------------------------------------------------------------

  /**
    Closing the selected node `open[i]` (not the goal) keeps the invariant, with its
    neighbour loop not yet begun.
  */
  lemma CloseKeepsInvariant(g: Graph, hypot: Hypot, start: string, goal: string, open: seq<string>, closed: set<string>,
                            came: map<string, string>, gs: map<string, real>, fs: map<string, real>, rank: map<string, nat>, i: nat)
    requires Searching(g, hypot, start, goal, open, closed, came, gs, fs, rank)
    requires i < |open| && open[i] != goal
    ensures Relaxing(g, hypot, start, goal, open[i], closed + {open[i]}, rank[open[i] := |closed|],
                     SearchState(open[..i] + open[i + 1..], came, gs, fs), 0)
  {
    var current, open', closed', rank' := open[i], open[..i] + open[i + 1..], closed + {open[i]}, rank[open[i] := |closed|];
    RemoveAt(open, i);
    CloseShape(g, start, goal, open, closed, rank, i);
    CloseParents(g, start, goal, open, closed, came, gs, rank, i);
    assert Frontier(g, start, goal, open', closed', gs, {current}) by {
      CloseFrontier(g, start, goal, open, closed, gs, i);
    }
    assert g[current].edges[..0] == [];
  }

  /** The selected node, of least f-score, is closed with its least g-score (under a consistent heuristic). */
  lemma CloseOptimal(g: Graph, hypot: Hypot, start: string, goal: string, open: seq<string>, closed: set<string>,
                     came: map<string, string>, gs: map<string, real>, fs: map<string, real>, rank: map<string, nat>, i: nat)
    requires Searching(g, hypot, start, goal, open, closed, came, gs, fs, rank)
    requires i < |open| && forall x :: x in open ==> fs[open[i]] <= fs[x]
    ensures Optimal(g, hypot, start, goal, closed + {open[i]}, gs)
  {
    if Consistent(g, hypot, goal) {
      SearchingExplored(g, hypot, start, goal, open, closed, came, gs, fs, rank);
      SelectedIsShortest(g, hypot, start, goal, open, closed, gs, fs, open[i]);
    }
  }

  lemma CloseShape(g: Graph, start: string, goal: string, open: seq<string>, closed: set<string>, rank: map<string, nat>, i: nat)
    requires Shape(g, start, goal, open, closed, rank) && i < |open| && open[i] != goal
    ensures Shape(g, start, goal, open[..i] + open[i + 1..], closed + {open[i]}, rank[open[i] := |closed|])
  {
    RemoveAt(open, i);
    assert |closed + {open[i]}| == |closed| + 1;
  }

  lemma CloseParents(g: Graph, start: string, goal: string, open: seq<string>, closed: set<string>,
                     came: map<string, string>, gs: map<string, real>, rank: map<string, nat>, i: nat)
    requires Shape(g, start, goal, open, closed, rank) && Parents(g, start, goal, open, closed, came, gs, rank) && i < |open|
    ensures Parents(g, start, goal, open[..i] + open[i + 1..], closed + {open[i]}, came, gs, rank[open[i] := |closed|])
  {
    var current, open', closed', rank' := open[i], open[..i] + open[i + 1..], closed + {open[i]}, rank[open[i] := |closed|];
    RemoveAt(open, i);
    assert |closed'| == |closed| + 1;
    CloseRanks(came, rank, closed, current);
    assert ParentsCover(start, open', closed', came);
  }

  lemma CloseRanks(came: map<string, string>, rank: map<string, nat>, closed: set<string>, current: string)
    requires RankedParents(came, rank, |closed|) && rank.Keys == closed && current !in closed
    ensures RankedParents(came, rank[current := |closed|], |closed| + 1)
  {
    forall n | n in came
      ensures came[n] in rank[current := |closed|] && rank[current := |closed|][came[n]] < Height(rank[current := |closed|], |closed| + 1, n)
    {
      assert came[n] != current;
    }
  }

  lemma CloseFrontier(g: Graph, start: string, goal: string, open: seq<string>, closed: set<string>, gs: map<string, real>, i: nat)
    requires Frontier(g, start, goal, open, closed, gs, {}) && i < |open|
    requires forall a, b :: 0 <= a < b < |open| ==> open[a] != open[b]
    ensures Frontier(g, start, goal, open[..i] + open[i + 1..], closed + {open[i]}, gs, {open[i]})
  {
    RemoveAt(open, i);
  }

  // ---------------------------------------------------------------------------------------
  // One relaxation step
  // ---------------------------------------------------------------------------------------

  /** Relaxing edge `k` of `current` keeps the invariant and covers that edge. */
  lemma RelaxEdgeKeeps(g: Graph, hypot: Hypot, start: string, goal: string, current: string, closed: set<string>,
                       rank: map<string, nat>, s: SearchState, k: nat)
    requires Closed(g) && Relaxing(g, hypot, start, goal, current, closed, rank, s, k) && k < |g[current].edges|
    ensures Relaxing(g, hypot, start, goal, current, closed, rank,
                     RelaxEdge(g, hypot, start, goal, current, closed, s, g[current].edges[k]), k + 1)
  {
    var e := g[current].edges[k];
    var v := e.to;
    assert v in g;
    if v in closed || (IsRoomId(v) && current != start && v != goal) || (v in s.open && s.gs[current] + e.w >= s.gs[v]) {
      SkipKeeps(g, hypot, start, goal, current, closed, rank, s, k);
    } else {
      assert Improves(g, start, goal, current, closed, s, e);
      UpdateKeeps(g, hypot, start, goal, current, closed, rank, s, k);
    }
  }

  /** A skipped edge is covered already: its end is closed, not enterable, or scored no worse. */
  lemma SkipKeeps(g: Graph, hypot: Hypot, start: string, goal: string, current: string, closed: set<string>,
                  rank: map<string, nat>, s: SearchState, k: nat)
    requires Relaxing(g, hypot, start, goal, current, closed, rank, s, k) && k < |g[current].edges|
    requires var e := g[current].edges[k];
      e.to in closed || !MayEnter(start, goal, current, e.to) || (e.to in s.open && s.gs[current] + e.w >= s.gs[e.to])
    ensures Relaxing(g, hypot, start, goal, current, closed, rank, s, k + 1)
  {
    var e := g[current].edges[k];
    assert g[current].edges[..k + 1] == g[current].edges[..k] + [e];
  }

  /** Edge `e` of `current` is not skipped: its end is enterable, not closed, and new or improved on. */
  ghost predicate Improves(g: Graph, start: string, goal: string, current: string, closed: set<string>, s: SearchState, e: Edge) {
    && e.to in g && e.to !in closed && MayEnter(start, goal, current, e.to) && current in s.gs
    && (e.to in s.open ==> e.to in s.gs && s.gs[current] + e.w < s.gs[e.to])
  }

  /** Opening or improving the neighbour keeps the invariant and covers the edge. */
  lemma UpdateKeeps(g: Graph, hypot: Hypot, start: string, goal: string, current: string, closed: set<string>,
                    rank: map<string, nat>, s: SearchState, k: nat)
    requires Relaxing(g, hypot, start, goal, current, closed, rank, s, k) && k < |g[current].edges|
    requires Improves(g, start, goal, current, closed, s, g[current].edges[k])
    ensures Relaxing(g, hypot, start, goal, current, closed, rank,
                     RelaxEdge(g, hypot, start, goal, current, closed, s, g[current].edges[k]), k + 1)
  {
    var s' := RelaxEdge(g, hypot, start, goal, current, closed, s, g[current].edges[k]);
    RelaxEdgeOpens(g, hypot, start, goal, current, closed, s, g[current].edges[k]);
    UpdateShape(g, hypot, start, goal, current, closed, rank, s, k, s');
    UpdateParents(g, hypot, start, goal, current, closed, rank, s, k, s');
    UpdateFrontier(g, hypot, start, goal, current, closed, rank, s, k, s');
    UpdateScored(g, hypot, start, goal, current, closed, rank, s, k, s');
  }

  /** On an edge that is not skipped, `RelaxEdge` opens or improves the neighbour. */
  lemma RelaxEdgeOpens(g: Graph, hypot: Hypot, start: string, goal: string, current: string, closed: set<string>,
                       s: SearchState, e: Edge)
    requires goal in g && (forall x :: x in s.open ==> x in s.gs) && Improves(g, start, goal, current, closed, s, e)
    ensures RelaxEdge(g, hypot, start, goal, current, closed, s, e) == Opened(g, hypot, goal, current, s, e.to, s.gs[current] + e.w)
  {
  }

  lemma UpdateScored(g: Graph, hypot: Hypot, start: string, goal: string, current: string, closed: set<string>,
                     rank: map<string, nat>, s: SearchState, k: nat, s': SearchState)
    requires Relaxing(g, hypot, start, goal, current, closed, rank, s, k) && k < |g[current].edges|
    requires Improves(g, start, goal, current, closed, s, g[current].edges[k])
    requires s' == Opened(g, hypot, goal, current, s, g[current].edges[k].to, s.gs[current] + g[current].edges[k].w)
    ensures Scored(g, hypot, goal, s'.open, closed, s'.gs, s'.fs)
  {
  }

  lemma UpdateShape(g: Graph, hypot: Hypot, start: string, goal: string, current: string, closed: set<string>,
                    rank: map<string, nat>, s: SearchState, k: nat, s': SearchState)
    requires Relaxing(g, hypot, start, goal, current, closed, rank, s, k) && k < |g[current].edges|
    requires Improves(g, start, goal, current, closed, s, g[current].edges[k])
    requires s' == Opened(g, hypot, goal, current, s, g[current].edges[k].to, s.gs[current] + g[current].edges[k].w)
    ensures Shape(g, start, goal, s'.open, closed, rank)
  {
  }

  lemma UpdateParents(g: Graph, hypot: Hypot, start: string, goal: string, current: string, closed: set<string>,
                      rank: map<string, nat>, s: SearchState, k: nat, s': SearchState)
    requires Relaxing(g, hypot, start, goal, current, closed, rank, s, k) && k < |g[current].edges|
    requires Improves(g, start, goal, current, closed, s, g[current].edges[k])
    requires s' == Opened(g, hypot, goal, current, s, g[current].edges[k].to, s.gs[current] + g[current].edges[k].w)
    ensures Parents(g, start, goal, s'.open, closed, s'.came, s'.gs, rank)
  {
    assert Edge(g[current].edges[k].to, g[current].edges[k].w) == g[current].edges[k];
    OpenedParents(g, hypot, start, goal, current, closed, rank, s, s', g[current].edges[k].to, g[current].edges[k].w);
  }

  lemma OpenedParents(g: Graph, hypot: Hypot, start: string, goal: string, current: string, closed: set<string>, rank: map<string, nat>,
                      s: SearchState, s': SearchState, v: string, w: real)
    requires Shape(g, start, goal, s.open, closed, rank) && Parents(g, start, goal, s.open, closed, s.came, s.gs, rank)
    requires current in closed && current in s.gs && v in g && v !in closed
    requires Edge(v, w) in g[current].edges && MayEnter(start, goal, current, v)
    requires s' == Opened(g, hypot, goal, current, s, v, s.gs[current] + w)
    ensures Parents(g, start, goal, s'.open, closed, s'.came, s'.gs, rank)
  {
    UpdateLinks(g, start, goal, current, closed, s.came, s.gs, v, w);
    assert start != v;
    assert RankedParents(s'.came, rank, |closed|);
  }

  lemma UpdateLinks(g: Graph, start: string, goal: string, current: string, closed: set<string>,
                    came: map<string, string>, gs: map<string, real>, v: string, w: real)
    requires ParentLinks(g, start, goal, closed, came, gs)
    requires current in closed && current in g && current in gs && v !in closed
    requires Edge(v, w) in g[current].edges && MayEnter(start, goal, current, v)
    ensures ParentLinks(g, start, goal, closed, came[v := current], gs[v := gs[current] + w])
  {
    var came', gs' := came[v := current], gs[v := gs[current] + w];
    forall n | n in came'
      ensures n in gs' && came'[n] in closed && came'[n] in g && came'[n] in gs'
      ensures Edge(n, gs'[n] - gs'[came'[n]]) in g[came'[n]].edges && MayEnter(start, goal, came'[n], n)
    {
      if n == v {
        assert gs'[n] - gs'[came'[n]] == w;
      } else {
        assert came'[n] == came[n] && came[n] != v;
      }
    }
  }

  lemma UpdateFrontier(g: Graph, hypot: Hypot, start: string, goal: string, current: string, closed: set<string>,
                       rank: map<string, nat>, s: SearchState, k: nat, s': SearchState)
    requires Relaxing(g, hypot, start, goal, current, closed, rank, s, k) && k < |g[current].edges|
    requires Improves(g, start, goal, current, closed, s, g[current].edges[k])
    requires s' == Opened(g, hypot, goal, current, s, g[current].edges[k].to, s.gs[current] + g[current].edges[k].w)
    ensures Frontier(g, start, goal, s'.open, closed, s'.gs, {current})
    ensures forall e :: e in g[current].edges[..k + 1] && MayEnter(start, goal, current, e.to) ==>
      Covered(s'.open, closed, s'.gs, current, e)
  {
    var open, gs, open', gs' := s.open, s.gs, s'.open, s'.gs;
    var edge := g[current].edges[k];
    assert g[current].edges[..k + 1] == g[current].edges[..k] + [edge];
    forall c, e | c in closed && c != current && c in g && e in g[c].edges && MayEnter(start, goal, c, e.to)
      ensures Covered(open', closed, gs', c, e)
    {
      assert Covered(open, closed, gs, c, e);
    }
    forall e | e in g[current].edges[..k + 1] && MayEnter(start, goal, current, e.to)
      ensures Covered(open', closed, gs', current, e)
    {
      if e != edge {
        assert e in g[current].edges[..k];
        assert Covered(open, closed, gs, current, e);
      }
    }
  }

  /** The whole neighbour loop keeps the invariant; afterwards every edge of `current` is covered. */
  lemma {:induction false} RelaxAllKeeps(g: Graph, hypot: Hypot, start: string, goal: string, current: string, closed: set<string>,
                                         rank: map<string, nat>, s: SearchState, k: nat)
    requires Closed(g) && Relaxing(g, hypot, start, goal, current, closed, rank, s, 0) && k <= |g[current].edges|
    ensures Relaxing(g, hypot, start, goal, current, closed, rank,
                     RelaxAll(g, hypot, start, goal, current, closed, s, g[current].edges[..k]), k)
    decreases k
  {
    if k > 0 {
      var edges := g[current].edges;
      RelaxAllKeeps(g, hypot, start, goal, current, closed, rank, s, k - 1);
      assert edges[..k][..k - 1] == edges[..k - 1];
      RelaxEdgeKeeps(g, hypot, start, goal, current, closed, rank,
                     RelaxAll(g, hypot, start, goal, current, closed, s, edges[..k - 1]), k - 1);
    }
  }

  lemma RelaxedSearching(g: Graph, hypot: Hypot, start: string, goal: string, current: string, closed: set<string>,
                         rank: map<string, nat>, s: SearchState)
    requires current in g && Relaxing(g, hypot, start, goal, current, closed, rank, s, |g[current].edges|)
    requires Optimal(g, hypot, start, goal, closed, s.gs)
    ensures Searching(g, hypot, start, goal, s.open, closed, s.came, s.gs, s.fs, rank)
  {
    assert g[current].edges[..|g[current].edges|] == g[current].edges;
  }

  /** The neighbour loop never changes the score of a closed node. */
  lemma {:induction false} RelaxAllKeepsClosed(g: Graph, hypot: Hypot, start: string, goal: string, current: string,
                                               closed: set<string>, s: SearchState, edges: seq<Edge>)
    requires goal in g && current in s.gs && forall x :: x in s.open ==> x in s.gs
    requires forall i :: 0 <= i < |edges| ==> edges[i].to in g
    ensures ClosedScoresKept(closed, s.gs, RelaxAll(g, hypot, start, goal, current, closed, s, edges).gs)
    decreases |edges|
  {
    if |edges| > 0 {
      var n := |edges| - 1;
      RelaxAllKeepsClosed(g, hypot, start, goal, current, closed, s, edges[..n]);
      var mid := RelaxAll(g, hypot, start, goal, current, closed, s, edges[..n]);
      var last := RelaxEdge(g, hypot, start, goal, current, closed, mid, edges[n]);
      assert ClosedScoresKept(closed, mid.gs, last.gs);
    }
  }

  /** Optimality of the closed nodes only depends on their scores. */
  lemma OptimalKept(g: Graph, hypot: Hypot, start: string, goal: string, closed: set<string>, gs: map<string, real>, gs': map<string, real>)
    requires Optimal(g, hypot, start, goal, closed, gs) && ClosedScoresKept(closed, gs, gs')
    ensures Optimal(g, hypot, start, goal, closed, gs')
  {
    if Consistent(g, hypot, goal) {
      forall c | c in closed && c in gs'
        ensures ShortestTo(g, start, goal, c, gs'[c])
      {
        assert gs'[c] == gs[c];
      }
    }
  }

  /** The neighbour loop only adds back links. */
  lemma {:induction false} RelaxAllKeepsParents(g: Graph, hypot: Hypot, start: string, goal: string, current: string,
                                                closed: set<string>, s: SearchState, edges: seq<Edge>)
    requires goal in g && current in s.gs && forall x :: x in s.open ==> x in s.gs
    requires forall i :: 0 <= i < |edges| ==> edges[i].to in g
    ensures s.came.Keys <= RelaxAll(g, hypot, start, goal, current, closed, s, edges).came.Keys
    decreases |edges|
  {
    if |edges| > 0 {
      RelaxAllKeepsParents(g, hypot, start, goal, current, closed, s, edges[..|edges| - 1]);
    }
  }

  // ---------------------------------------------------------------------------------------
  // Reading the path back
  // ---------------------------------------------------------------------------------------

  /** The back link chain from `n`: `n`, its parent, its parent's parent, and so on. */
  ghost function Chain(came: map<string, string>, rank: map<string, nat>, count: nat, n: string): seq<string>
    requires RankedParents(came, rank, count)
    decreases Height(rank, count, n)
  {
    if n in came then [n] + Chain(came, rank, count, came[n]) else [n]
  }

  /** The longest prefix of `s` without an empty id: `while (cur)` stops at a falsy id. */
  function TakeWhileNonEmpty(s: seq<string>): (r: seq<string>)
    ensures |r| <= |s| && r == s[..|r|]
    ensures forall i :: 0 <= i < |r| ==> r[i] != ""
    ensures |r| < |s| ==> s[|r|] == ""
  {
    if |s| == 0 || s[0] == "" then [] else [s[0]] + TakeWhileNonEmpty(s[1..])
  }

  /** `Array.prototype.reverse`. */
  function Reverse(s: seq<string>): (r: seq<string>)
    ensures |r| == |s| && forall i :: 0 <= i < |s| ==> r[i] == s[|s| - 1 - i]
  {
    if |s| == 0 then [] else Reverse(s[1..]) + [s[0]]
  }

  /** The reconstruction loop: push `cur`, step to `cameFrom[cur]`, until `cur` is missing or empty. */
  method ReconstructPath(came: map<string, string>, goal: string, ghost rank: map<string, nat>, ghost count: nat)
    returns (path: seq<string>)
    requires RankedParents(came, rank, count)
    ensures path == TakeWhileNonEmpty(Chain(came, rank, count, goal))
  {
    path := [];
    var cur: Option<string> := Some(goal);
    while cur.Some? && cur.value != ""
      invariant cur.Some? ==> path + TakeWhileNonEmpty(Chain(came, rank, count, cur.value)) == TakeWhileNonEmpty(Chain(came, rank, count, goal))
      invariant cur.None? ==> path == TakeWhileNonEmpty(Chain(came, rank, count, goal))
      decreases if cur.Some? then Height(rank, count, cur.value) + 1 else 0
    {
      var n := cur.value;
      ghost var rest := if n in came then Chain(came, rank, count, came[n]) else [];
      assert Chain(came, rank, count, n) == [n] + rest;
      assert ([n] + rest)[1..] == rest;
      assert path + TakeWhileNonEmpty([n] + rest) == (path + [n]) + TakeWhileNonEmpty(rest);
      path := path + [n];
      if n in came {
        cur := Some(came[n]);
      } else {
        cur := None;
      }
    }
    if cur.Some? {
      assert path + TakeWhileNonEmpty(Chain(came, rank, count, cur.value)) == path;
    }
  }

  /** Every node of the chain from `n` after `n` itself is lower than `n`. */
  lemma {:induction false} ChainBelow(came: map<string, string>, rank: map<string, nat>, count: nat, n: string)
    requires RankedParents(came, rank, count)
    ensures var c := Chain(came, rank, count, n);
      c[0] == n && forall i :: 0 <= i < |c| ==> Height(rank, count, c[i]) <= Height(rank, count, n)
    decreases Height(rank, count, n)
  {
    if n in came {
      ChainBelow(came, rank, count, came[n]);
    }
  }

  /** A chain never repeats a node: heights strictly fall along it. */
  lemma {:induction false} ChainDistinct(came: map<string, string>, rank: map<string, nat>, count: nat, n: string)
    requires RankedParents(came, rank, count)
    ensures var c := Chain(came, rank, count, n);
      forall i, j :: 0 <= i < j < |c| ==> c[i] != c[j]
    decreases Height(rank, count, n)
  {
    if n in came {
      var c, c' := Chain(came, rank, count, n), Chain(came, rank, count, came[n]);
      ChainDistinct(came, rank, count, came[n]);
      ChainBelow(came, rank, count, came[n]);
      assert c == [n] + c';
      forall i, j | 0 <= i < j < |c|
        ensures c[i] != c[j]
      {
        if i == 0 {
          assert c[j] == c'[j - 1];
        } else {
          assert c[i] == c'[i - 1] && c[j] == c'[j - 1];
        }
      }
    }
  }

  /** Reversing keeps a sequence free of repeats. */
  lemma ReverseDistinct(s: seq<string>)
    requires forall i, j :: 0 <= i < j < |s| ==> s[i] != s[j]
    ensures var r := Reverse(s);
      forall i, j :: 0 <= i < j < |r| ==> r[i] != r[j]
  {
    var r := Reverse(s);
    forall i, j | 0 <= i < j < |r|
      ensures r[i] != r[j]
    {
      assert r[i] == s[|s| - 1 - i] && r[j] == s[|s| - 1 - j];
    }
  }

  /**
    Reversed, the chain from an open or closed node `n` is a walk from the start to `n` whose
    weight is the score of `n`.
  */
  lemma {:induction false} ChainWalk(g: Graph, start: string, goal: string, closed: set<string>, came: map<string, string>,
                                     gs: map<string, real>, rank: map<string, nat>, n: string) returns (ws: seq<real>)
    requires ParentLinks(g, start, goal, closed, came, gs) && RankedParents(came, rank, |closed|)
    requires ClosedParented(start, closed, came) && start in g && start in gs && gs[start] == 0.0 && start !in came
    requires n in g && n in gs && (n in came || n == start)
    ensures var p := Reverse(Chain(came, rank, |closed|, n));
      IsWalk(g, start, goal, p, ws) && p[|p| - 1] == n && Sum(ws) == gs[n]
    decreases Height(rank, |closed|, n)
  {
    var c := Chain(came, rank, |closed|, n);
    if n in came {
      var m := came[n];
      assert m in closed && m in g && m in gs;
      var ws' := ChainWalk(g, start, goal, closed, came, gs, rank, m);
      var p' := Reverse(Chain(came, rank, |closed|, m));
      assert c[1..] == Chain(came, rank, |closed|, m);
      assert Reverse(c) == p' + [n];
      WalkExtend(g, start, goal, p', ws', n, gs[n] - gs[m]);
      ws := ws' + [gs[n] - gs[m]];
    } else {
      ws := [];
      assert Reverse(c) == [start];
    }
  }

  /** A path the search may return: a shortest allowed walk from the start to the goal, without repeated nodes. */
  ghost predicate FoundPath(g: Graph, hypot: Hypot, start: string, goal: string, p: seq<string>) {
    && (exists ws :: IsWalk(g, start, goal, p, ws) && p[|p| - 1] == goal
                     && (Consistent(g, hypot, goal) ==> ShortestTo(g, start, goal, goal, Sum(ws))))
    && (forall i, j :: 0 <= i < j < |p| ==> p[i] != p[j])
  }

  /** When the goal is selected, the chain read back from it, reversed, is a path the search may return. */
  lemma GoalFound(g: Graph, hypot: Hypot, start: string, goal: string, open: seq<string>, closed: set<string>,
                  came: map<string, string>, gs: map<string, real>, fs: map<string, real>, rank: map<string, nat>, i: nat)
    requires Searching(g, hypot, start, goal, open, closed, came, gs, fs, rank) && ClosedParented(start, closed, came)
    requires i < |open| && open[i] == goal && forall x :: x in open ==> fs[goal] <= fs[x]
    ensures Reachable(g, start, goal)
    ensures "" !in g ==> FoundPath(g, hypot, start, goal, Reverse(TakeWhileNonEmpty(Chain(came, rank, |closed|, goal))))
  {
    var c := Chain(came, rank, |closed|, goal);
    var p := Reverse(c);
    var ws := ChainWalk(g, start, goal, closed, came, gs, rank, goal);
    assert p[|p| - 1] == goal;
    if "" !in g {
      NoEmptyIds(g, start, goal, c, ws);
      ChainDistinct(came, rank, |closed|, goal);
      ReverseDistinct(c);
      if Consistent(g, hypot, goal) {
        SearchingExplored(g, hypot, start, goal, open, closed, came, gs, fs, rank);
        SelectedIsShortest(g, hypot, start, goal, open, closed, gs, fs, goal);
      }
    }
  }

  /** Without an empty id among the nodes, a reversed walk is read back whole. */
  lemma NoEmptyIds(g: Graph, start: string, goal: string, c: seq<string>, ws: seq<real>)
    requires "" !in g && IsWalk(g, start, goal, Reverse(c), ws)
    ensures TakeWhileNonEmpty(c) == c
  {
    var p := Reverse(c);
    assert forall k :: 0 <= k < |c| ==> c[k] == p[|p| - 1 - k];
  }

  /** On a walk without repeated nodes to the goal, a room is only the start, the node right after it, or the goal. */
  lemma RoomsOnlyAtEnds(g: Graph, start: string, goal: string, p: seq<string>, ws: seq<real>)
    requires IsWalk(g, start, goal, p, ws) && p[|p| - 1] == goal
    requires forall i, j :: 0 <= i < j < |p| ==> p[i] != p[j]
    ensures forall i :: 1 < i < |p| - 1 ==> !IsRoomId(p[i])
  {
    forall i | 1 < i < |p| - 1
      ensures !IsRoomId(p[i])
    {
      assert MayEnter(start, goal, p[i - 1], p[i]);
      assert p[i - 1] != p[0] && p[i] != p[|p| - 1];
    }
  }

  /** After the neighbour loop of `current` the main invariant holds again, and no back link is lost. */
  lemma NeighboursKeep(g: Graph, hypot: Hypot, start: string, goal: string, current: string, closed: set<string>,
                       rank: map<string, nat>, before: SearchState, after: SearchState)
    requires Closed(g) && Relaxing(g, hypot, start, goal, current, closed, rank, before, 0)
    requires Optimal(g, hypot, start, goal, closed, before.gs)
    requires after == RelaxAll(g, hypot, start, goal, current, closed, before, g[current].edges)
    ensures Searching(g, hypot, start, goal, after.open, closed, after.came, after.gs, after.fs, rank)
    ensures before.came.Keys <= after.came.Keys
  {
    RelaxAllKeeps(g, hypot, start, goal, current, closed, rank, before, |g[current].edges|);
    assert g[current].edges[..|g[current].edges|] == g[current].edges;
    RelaxAllKeepsClosed(g, hypot, start, goal, current, closed, before, g[current].edges);
    RelaxAllKeepsParents(g, hypot, start, goal, current, closed, before, g[current].edges);
    OptimalKept(g, hypot, start, goal, closed, before.gs, after.gs);
    RelaxedSearching(g, hypot, start, goal, current, closed, rank, after);
  }

  /** Closing `current`, which is the start or has a back link, keeps every closed node but the start parented. */
  lemma ClosedParentedKept(start: string, closed: set<string>, came: map<string, string>, came': map<string, string>, current: string)
    requires ClosedParented(start, closed, came) && (current == start || current in came) && came.Keys <= came'.Keys
    ensures ClosedParented(start, closed + {current}, came')
  {
  }

  // ---------------------------------------------------------------------------------------
  // The search
  // ---------------------------------------------------------------------------------------

  /**
    `astar(nodes, startId, goalId)`: `None` (the source's `null`) when the graph is missing,
    either end is not a node, or the goal cannot be reached; otherwise the path from the
    start to the goal. Apart from an empty node id, which the reconstruction loop cannot
    pass, the path is an allowed walk without repeated nodes and, under a consistent
    heuristic, a shortest one. The iteration cap is never what ends the search.
  */
  method Search(nodes: Option<Graph>, hypot: Hypot, start: string, goal: string) returns (path: Option<seq<string>>)
    requires nodes.Some? ==> Closed(nodes.value)
    ensures path.Some? <==> nodes.Some? && start in nodes.value && goal in nodes.value && Reachable(nodes.value, start, goal)
    ensures path.Some? && "" !in nodes.value ==> FoundPath(nodes.value, hypot, start, goal, path.value)
  {
    if nodes.None? || start !in nodes.value || goal !in nodes.value {
      return None;
    }
    var g := nodes.value;
    var open, closed, came := [start], {}, map[];
    var gs, fs := map[start := 0.0], map[start := Heuristic(g, hypot, start, goal)];
    ghost var rank: map<string, nat> := map[];
    var iterations := 0;
    var maxIterations := |g| * 10;
    SearchStarts(g, hypot, start, goal);
    while |open| > 0 && iterations < maxIterations
      invariant Searching(g, hypot, start, goal, open, closed, came, gs, fs, rank)
      invariant ClosedParented(start, closed, came)
      invariant iterations == |closed|
      decreases Unclosed(g, closed)
    {
      iterations := iterations + 1;
      var i := SelectBest(open, fs);
      var current := open[i];
      assert forall x :: x in open ==> fs[current] <= fs[x];
      if current == goal {
        GoalFound(g, hypot, start, goal, open, closed, came, gs, fs, rank, i);
        var reversed := ReconstructPath(came, goal, rank, |closed|);
        path := Some(Reverse(reversed));
        return;
      }
      CloseKeepsInvariant(g, hypot, start, goal, open, closed, came, gs, fs, rank, i);
      CloseOptimal(g, hypot, start, goal, open, closed, came, gs, fs, rank, i);
      UnclosedShrinks(g, closed, current);
      assert current == start || current in came;
      ghost var closedBefore := closed;
      open := open[..i] + open[i + 1..];
      rank := rank[current := |closed|];
      closed := closed + {current};
      var before := SearchState(open, came, gs, fs);
      var after := RelaxNeighbours(g, hypot, start, goal, current, closed, before);
      NeighboursKeep(g, hypot, start, goal, current, closed, rank, before, after);
      ClosedParentedKept(start, closedBefore, came, after.came, current);
      open, came, gs, fs := after.open, after.came, after.gs, after.fs;
    }
    if |open| > 0 {
      CapNotReached(g, closed, open[0]);
    }
    Exhausted(g, hypot, start, goal, closed, came, gs, fs, rank);
    return None;
  }

  // ---------------------------------------------------------------------------------------
  // Path length and node kinds
  // ---------------------------------------------------------------------------------------

  /** The straight-line length of the step from `a` to `b`; a step touching an unknown id counts nothing. */
  function StepLength(g: Graph, hypot: Hypot, a: string, b: string): (d: real)
    ensures d >= 0.0
    ensures (a !in g || b !in g) ==> d == 0.0
  {
    if a in g && b in g then hypot(g[b].x - g[a].x, g[b].y - g[a].y) else 0.0
  }

  /** The summed step lengths of a path. */
  function Distance(g: Graph, hypot: Hypot, p: seq<string>): real
    decreases |p|
  {
    if |p| < 2 then 0.0 else Distance(g, hypot, p[..|p| - 1]) + StepLength(g, hypot, p[|p| - 2], p[|p| - 1])
  }

  lemma {:induction false} DistanceNonNegative(g: Graph, hypot: Hypot, p: seq<string>)
    ensures Distance(g, hypot, p) >= 0.0
    decreases |p|
  {
    if |p| >= 2 {
      DistanceNonNegative(g, hypot, p[..|p| - 1]);
    }
  }

  /** Extending a path by one node adds exactly the length of the new step. */
  lemma DistanceExtend(g: Graph, hypot: Hypot, p: seq<string>, v: string)
    requires |p| > 0
    ensures Distance(g, hypot, p + [v]) == Distance(g, hypot, p) + StepLength(g, hypot, p[|p| - 1], v)
  {
    assert (p + [v])[..|p|] == p;
  }

  /** The distance of a path is the sum of the distances of two pieces sharing the joining node. */
  lemma {:induction false} DistanceJoin(g: Graph, hypot: Hypot, p: seq<string>, q: seq<string>)
    requires |p| > 0 && |q| > 0 && p[|p| - 1] == q[0]
    ensures Distance(g, hypot, p + q[1..]) == Distance(g, hypot, p) + Distance(g, hypot, q)
    decreases |q|
  {
    if |q| == 1 {
      assert p + q[1..] == p;
    } else {
      var q' := q[..|q| - 1];
      DistanceJoin(g, hypot, p, q');
      assert q'[1..] + [q[|q| - 1]] == q[1..];
      assert p + q[1..] == (p + q'[1..]) + [q[|q| - 1]];
      DistanceExtend(g, hypot, p + q'[1..], q[|q| - 1]);
      DistanceExtend(g, hypot, q', q[|q| - 1]);
      assert q'[|q'| - 1] == q[|q| - 2];
      assert (p + q'[1..])[|p + q'[1..]| - 1] == q[|q| - 2];
      assert q' + [q[|q| - 1]] == q;
    }
  }

  /**
    `calculatePathDistance(nodes, path)`: 0 without a graph, without a path or for fewer than
    two nodes; otherwise the sum over consecutive pairs, skipping pairs with an unknown id.
  */
  method CalculatePathDistance(nodes: Option<Graph>, hypot: Hypot, path: Option<seq<string>>) returns (total: real)
    ensures nodes.None? || path.None? ==> total == 0.0
    ensures nodes.Some? && path.Some? ==> total == Distance(nodes.value, hypot, path.value)
    ensures total >= 0.0
  {
    if nodes.None? || path.None? || |path.value| < 2 {
      return 0.0;
    }
    var g, p := nodes.value, path.value;
    total := 0.0;
    for i := 0 to |p| - 1
      invariant total == Distance(g, hypot, p[..i + 1])
    {
      var step := 0.0;
      if p[i] in g && p[i + 1] in g {
        step := hypot(g[p[i + 1]].x - g[p[i]].x, g[p[i + 1]].y - g[p[i]].y);
      }
      assert step == StepLength(g, hypot, p[i], p[i + 1]);
      ghost var before := p[..i + 1];
      assert before[|before| - 1] == p[i];
      assert p[..i + 2] == before + [p[i + 1]];
      DistanceExtend(g, hypot, before, p[i + 1]);
      total := total + step;
    }
    assert p[..|p|] == p;
    DistanceNonNegative(g, hypot, p);
  }

  /** `getPathWithTypes`' node types. */
  datatype NodeKind = Junction | Room | Other

  /** An id mentioning `junction` is a junction; else one mentioning `room` is a room; anything else is other. */
  function KindOf(id: string): NodeKind {
    if Includes(id, "junction") then Junction else if Includes(id, "room") then Room else Other
  }

  datatype TypedNode = TypedNode(id: string, kind: NodeKind)

  /** `getPathWithTypes(path)`: each id of the path with its kind, in order. */
  function PathWithTypes(path: seq<string>): (r: seq<TypedNode>)
    ensures |r| == |path|
  {
    seq(|path|, i requires 0 <= i < |path| => TypedNode(path[i], KindOf(path[i])))
  }

  /** The ids can be read back from the typed path, and every kind is the kind of its id. */
  lemma PathWithTypesIds(path: seq<string>)
    ensures var r := PathWithTypes(path);
      && (seq(|r|, i requires 0 <= i < |r| => r[i].id) == path)
      && (forall i :: 0 <= i < |r| ==> r[i].kind == KindOf(path[i]))
  {
  }

  /** A room node of the navigation graph (an id with `nav_room`) is typed a room unless its id also mentions `junction`. */
  lemma RoomIdsAreRooms(id: string)
    requires IsRoomId(id) && !Includes(id, "junction")
    ensures KindOf(id) == Room
  {
    var i := IncludesWitness(id, "nav_room");
    assert id[i + 4..i + 8] == id[i..i + 8][4..8] == "room";
    IncludesAt(id, "room", i + 4);
  }
}
