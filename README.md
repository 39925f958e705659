# Indoor navigation engine — a Dafny model

This project models the navigation engine of a campus indoor-directory web application. A
visitor types where they are and where they want to go. The page resolves the text to rooms
of the floor plan and searches a navigation graph with A*. It then draws the route as an SVG
polyline.

The model covers the six parts of the engine:

- **The manually authored graph** (`src/data/navigationGraph.js`, module `ManualGraph`):
  - node and connection tables become an adjacency map with symmetric edges weighted by
    distance (or 1 for distance 0);
  - dangling and duplicate connections are skipped;
  - floors are read from id suffixes, and every node before `nav_path_42` is forced onto
    the ground floor;
  - the remaining floors are filled in breadth-first, seeded G, then 1, then 2. The
    traversal never crosses a stair/lift-to-stair/lift edge and never overwrites a known
    floor.
- **The A* search** (`src/utils/astar.js`, module `AStar`):
  - an open list, a closed set, g- and f-scores, back links and an iteration cap of ten
    times the number of nodes;
  - the room rule: a `nav_room` node is entered only from the start or as the goal;
  - the path length and the node typing helpers.
- **The graph built from the floor-plan drawing** (`src/utils/graph.js`):
  - `addEdge` with its room-to-room, unknown-end and wall tests (module `SvgGraph`);
  - the nearest-neighbour connection of path nodes and rooms, and `findNearestNode`;
  - the SVG path-data interpreter `parsePathToSegments` (module `SvgPath`), which turns
    the `d` attribute (section 8.3 of SVG 1.1 Second Edition) into straight segments,
    with each curve group flattened into ten segments.
- **The path builder** (`src/utils/pathPainter.js`, module `PathPainter`): the `Path`
  class as a Dafny class over its command list and current point, its serialisation to
  path data, and the `Paint` defaults.
- **The directory page helpers** (`src/pages/IndoorDirectory.jsx`, module
  `IndoorDirectory`):
  - room-name resolution by tiers;
  - the fallback display name and the unique display-name loop;
  - the reachability check run when A* fails;
  - the point list of the drawn route.
- **Image URLs of announcements** (`src/pages/admin/AdminAnnouncements.jsx`, module
  `Announcements`).

Shared modules hold the rest:

- `NavModel`: the graph shape, edge weights and node kinds read from ids.
- `JsText`: the JavaScript string operations the code uses (`startsWith`, `endsWith`,
  `includes`, ASCII case mapping, `trim`, `replace` of one character).
- `Wrappers`: `Option`, which stands for `null`/`undefined`.

Geometry is abstract:

- `Math.hypot` is a parameter `hypot` of type `Hypot`. It is only known to be
  non-negative and 0 at (0, 0).
- The wall-crossing test of the drawing is a parameter `walls`.
- The number-to-text conversion inside template literals is a parameter `fmt`.

Loops of the source are Dafny methods with loops. Each is proved equal to a specification
function, or proved to establish the property the source promises. The properties of those
functions are separate lemmas.

## Model

| member | source | states |
|---|---|---|
| NavModel.EdgeWeight | src/data/navigationGraph.js:2835-2837 | an edge weight is always positive: the distance when it is non-zero, else 1 |
| ManualGraph.FloorFromNodeId | src/data/navigationGraph.js:2789-2802 | a floor is found exactly when the id ends in `_G`, `_1` or `_2`; the floor found is the letter after that underscore |
| ManualGraph.Definitions | src/data/navigationGraph.js:2808-2816 | the graph has a key for every id of the node table and for nothing else, and each entry is a definition of its own id |
| ManualGraph.LastDefinitionWins | src/data/navigationGraph.js:2808-2816 | a definition that no later entry redefines is the one kept (later definitions overwrite earlier ones) |
| ManualGraph.KeyOrder | src/data/navigationGraph.js:2882 | the key order lists every node id of the graph exactly once |
| ManualGraph.NewNode | src/data/navigationGraph.js:2809-2815 | a new node keeps the definition's position and type, has no edges, and takes the floor its id suffix names |
| ManualGraph.InitNodes | src/data/navigationGraph.js:2808-2816 | after initialisation every defined id maps to a fresh node built from its last definition |
| ManualGraph.Connect | src/data/navigationGraph.js:2820-2841 | a connection with an unknown end, or whose `from` already lists `to`, changes nothing; any other adds one edge at each end with the same weight |
| ManualGraph.AddConnections | src/data/navigationGraph.js:2819-2842 | the connection loop changes only edges. Afterwards the edges are symmetric with equal weights, weighted by distance, all positive, and each comes from a connection. Each valid connection is present at both ends, and no neighbour is listed twice except a node's own two self-entries |
| ManualGraph.ConnectKeepsInvariant | src/data/navigationGraph.js:2819-2842 | each connection, skipped or inserted, keeps every invariant of the loop true for one more connection |
| ManualGraph.SkippedKeepsInvariants | src/data/navigationGraph.js:2823-2832 | a skipped connection leaves the graph as it was, and it still satisfies the invariants |
| ManualGraph.InsertKeepsInvariants | src/data/navigationGraph.js:2839-2841 | inserting both directions keeps positions, types and floors, symmetry, distance weights, the link to the connections and the no-repeat rule |
| ManualGraph.InsertKeepsShape | src/data/navigationGraph.js:2839-2841 | an insertion changes only edge lists |
| ManualGraph.InsertExtends | src/data/navigationGraph.js:2839-2841 | an insertion only appends: every old adjacency list is a prefix of the new one |
| ManualGraph.InsertSymmetric | src/data/navigationGraph.js:2839-2841 | an insertion into a symmetric graph leaves it symmetric, including for a self-connection |
| ManualGraph.InsertWeighted | src/data/navigationGraph.js:2835-2841 | both new entries carry the distance between the two ends as weight |
| ManualGraph.InsertCounts | src/data/navigationGraph.js:2828-2841 | because a listed neighbour is skipped, no neighbour is ever listed twice (a self-connection's two entries excepted) |
| ManualGraph.InsertPresent | src/data/navigationGraph.js:2839-2841 | after the insertion both ends of the connection list each other |
| ManualGraph.InsertFromConnections | src/data/navigationGraph.js:2839-2841 | every edge still comes from a connection between its two ends, in one direction or the other |
| ManualGraph.SymmetricToNav | src/data/navigationGraph.js:2839-2841 | the built graph, seen as a search graph, is symmetric and every edge ends at a node |
| ManualGraph.PositiveWeights | src/data/navigationGraph.js:2835-2837 | every edge weight of a graph weighted by distance is positive |
| ManualGraph.FindIndex | src/data/navigationGraph.js:2846-2849 | `findIndex` gives the first index whose definition satisfies the test, or -1 when none does |
| ManualGraph.FirstFloorStartIndex | src/data/navigationGraph.js:2846-2854 | the cut is the first `nav_path_42` when there is one. Otherwise it is the first id with `_1` and without `_G` and `_2`, or -1 when there is none |
| ManualGraph.ApplyGroundFloor | src/data/navigationGraph.js:2858-2874 | exactly the nodes defined before the cut get floor `G`, whatever their suffix; every other node is unchanged, and the ground set is returned |
| ManualGraph.KnownFloorIds | src/data/navigationGraph.js:2882 | the seeds are exactly the node ids that already have a floor |
| ManualGraph.WithPriorityMembers | src/data/navigationGraph.js:2886-2890 | the class of priority p holds exactly the seeds of that priority |
| ManualGraph.SeedOrder | src/data/navigationGraph.js:2883-2890 | the seed order holds exactly the known-floor ids of the graph (its order is stated by `SeedOrderIsStableSort`) |
| ManualGraph.SeedOrderIsStableSort | src/data/navigationGraph.js:2883-2890 | the seed order is a stable sort by floor priority (G, 1, 2, then unknown): it is a permutation of the seeds, sorted, and keeps the order within each priority |
| ManualGraph.SeedOrderPermutes | src/data/navigationGraph.js:2886-2890 | the seed order has the same multiset of ids as the unsorted seeds |
| ManualGraph.SeedOrderSorted | src/data/navigationGraph.js:2886-2890 | in the seed order no seed precedes one of lower priority number |
| ManualGraph.SeedOrderStable | src/data/navigationGraph.js:2886-2890 | seeds of equal priority keep their original relative order |
| ManualGraph.PushNeighbours | src/data/navigationGraph.js:2910-2935 | the inner loop enqueues exactly the specified entries, in edge order |
| ManualGraph.PushesSound | src/data/navigationGraph.js:2910-2935 | every enqueued entry carries the visited node's floor. Its neighbour is unvisited, has no floor, is not a ground node, and is not reached by a stair/lift-to-stair/lift hop |
| ManualGraph.PushesComplete | src/data/navigationGraph.js:2910-2935 | every neighbour meeting those conditions is enqueued with the visited node's floor |
| ManualGraph.SeedsCovered | src/data/navigationGraph.js:2893 | the initial queue holds every node with a known floor, each entry with that node's own floor |
| ManualGraph.SkipKeepsInvariants | src/data/navigationGraph.js:2897-2899 | dropping an entry for an already visited node keeps the traversal invariant |
| ManualGraph.VisitKeepsInvariants | src/data/navigationGraph.js:2897-2936 | visiting the front entry keeps the traversal invariant and leaves one node fewer unvisited |
| ManualGraph.UnvisitedShrinks | src/data/navigationGraph.js:2899-2900 | each node is visited at most once, so the count of unvisited nodes falls and the traversal ends |
| ManualGraph.Dequeue | src/data/navigationGraph.js:2896-2936 | one turn of the loop drops the head entry of an already-visited node and otherwise visits it, keeping both loop invariants and shrinking the unvisited count or the queue |
| ManualGraph.Visit | src/data/navigationGraph.js:2900-2936 | visiting the head entry marks its node visited and gives it a floor, keeping both loop invariants and shrinking the unvisited count |
| ManualGraph.QueuedStarts | src/data/navigationGraph.js:2886-2893 | the first queue holds the seeds in seed order, so the order invariant holds before the loop |
| ManualGraph.SkipKeepsQueued | src/data/navigationGraph.js:2897-2899 | dropping the entry of an already-visited node keeps the order invariant |
| ManualGraph.VisitKeepsQueued | src/data/navigationGraph.js:2897-2936 | visiting the head entry keeps the order invariant: seeds first, in seed order, then entries in the order their pushers were visited |
| ManualGraph.FrontIsFirst | src/data/navigationGraph.js:2897-2906 | once the seeds are used up, the head entry for a node without a floor was pushed by the first visited of the nodes that may hand it a floor |
| ManualGraph.VisitKeepsParentFirst | src/data/navigationGraph.js:2904-2906 | a node that takes the floor of the head entry takes it from its first-visited eligible neighbour, and earlier nodes keep theirs |
| ManualGraph.QueuedEnds | src/data/navigationGraph.js:2896-2937 | when the queue is empty, the seeds were visited in seed order and before every node without a floor, and every filled-in floor came from the first-visited eligible neighbour |
| ManualGraph.SkipKeepsOrdered | src/data/navigationGraph.js:2897-2899 | dropping the entry of an already-visited node keeps the parents ahead of every queued pusher |
| ManualGraph.FloorlessHeadPastSeeds | src/data/navigationGraph.js:2893-2904 | a node without a floor reaches the queue's head only once every seed has been dequeued |
| ManualGraph.VisitKeepsOrdered | src/data/navigationGraph.js:2897-2933 | visiting the head entry keeps the parents in the order of their children, and ahead of every queued pusher |
| ManualGraph.HandOnKeepsOrdered | src/data/navigationGraph.js:2904-2906 | a node inheriting from the head's pusher gets a parent no earlier than any earlier parent, and its own pushes go to the back |
| ManualGraph.VisitKeepsParentsInOrder | src/data/navigationGraph.js:2904-2906 | a new parent no earlier than every earlier parent keeps the parents in the order of their children |
| ManualGraph.VisitKeepsParentsBeforeQueue | src/data/navigationGraph.js:2897-2933 | after `shift` and `push`, every parent is still visited no later than any queued pusher |
| ManualGraph.DepthFirstOrderExcluded | src/data/navigationGraph.js:2896-2937 | on the chain A(G)-p1-p2-p3-r-q-B(1), the depth-first order that would give r floor G is not in parent order |
| ManualGraph.PropagateFloors | src/data/navigationGraph.js:2882-2937 | the traversal changes only floors and never overwrites a known floor. The visited nodes are exactly those with a floor. The seeds are visited in seed order (G, then 1, then 2), all before any node that had no floor. Every filled-in floor was handed on across a non-stair/lift-to-stair/lift edge by the first-visited node with such an edge to it, and parents come in the order of their children: a node visited later never took its floor from a node visited before an earlier node's parent, so the nearest seed wins. A node with a floor leaves none of its neighbours (across such edges) without one |
| ManualGraph.InferredFloorHasSource | src/data/navigationGraph.js:2896-2937 | every floor after the traversal goes back, along a walk of same-floor nodes without stair/lift-to-stair/lift hops, to a node that had it before |
| ManualGraph.FloorReachesAlongWalk | src/data/navigationGraph.js:2896-2937 | every node reachable from a floored node without a stair/lift-to-stair/lift hop has a floor at the end |
| ManualGraph.SeedFloor | src/data/navigationGraph.js:2846-2874 | before the traversal a node's floor is `G` in the ground section and its suffix floor otherwise, always one of G, 1, 2 |
| ManualGraph.SeededFloors | src/data/navigationGraph.js:2804-2874 | just before the traversal every node has its seed floor |
| ManualGraph.FloorNamesKept | src/data/navigationGraph.js:2896-2937 | the traversal only hands on floors that exist, so every final floor is G, 1 or 2 |
| ManualGraph.BuildManualGraph | src/data/navigationGraph.js:2804-2953 | the built graph has one node per defined id with its position and type, and the edge facts of the connection loop. Every seed floor is kept, and every other floor was handed on across an edge by the first-visited node with such an edge to it, with parents in the order of their children. The seeds are visited in seed order (G, then 1, then 2) and before every node that had no floor. Floors spread to every neighbour not across a stair/lift-to-stair/lift hop, and are all G, 1 or 2 |
| AStar.Heuristic | src/utils/astar.js:25-29 | the straight-line heuristic is never negative |
| AStar.HeuristicAlong | src/utils/astar.js:23-29 | under a consistent heuristic the heuristic drops along any walk by at most the weight walked |
| AStar.RelaxEdge | src/utils/astar.js:100-139 | one edge of the neighbour loop never loses the current node's score, and every open node keeps a g-score |
| AStar.RelaxAll | src/utils/astar.js:100-140 | the whole neighbour loop keeps the current node's score, and every open node keeps a g-score |
| AStar.RelaxNeighbours | src/utils/astar.js:96-140 | the neighbour loop, with its `continue`s, equals relaxing the edges of the current node in order |
| AStar.RelaxEdgeOpens | src/utils/astar.js:124-139 | an edge that is not skipped opens its end, or lowers its score, with back link to the current node, g-score g(current) + w and f-score g + h |
| AStar.SkipKeeps | src/utils/astar.js:103-134 | an edge skipped because its end is closed, a room that may not be entered, or no better, is already covered by the scores |
| AStar.RelaxEdgeKeeps | src/utils/astar.js:100-140 | relaxing one edge keeps the search invariant and covers that edge |
| AStar.RelaxAllKeeps | src/utils/astar.js:100-140 | after the whole neighbour loop the invariant holds and every edge of the current node is covered |
| AStar.NeighboursKeep | src/utils/astar.js:96-140 | after the neighbour loop the main search invariant holds again and no back link is lost |
| AStar.SelectBest | src/utils/astar.js:47-56 | the selected open node has the least f-score, and it is the first such node (ties go to the earlier one) |
| AStar.SearchStarts | src/utils/astar.js:17-39 | initially only the start is open, with g-score 0 and f-score its heuristic, and the invariant holds |
| AStar.EntersOpen | src/utils/astar.js:92-140 | every walk from the start to a node not closed passes an open node whose g-score is at most the walk's weight up to it |
| AStar.EnterAtEdge | src/utils/astar.js:100-139 | a walk whose last step leaves a closed node ends at an open node scored at most its weight |
| AStar.SelectedIsShortest | src/utils/astar.js:44-56 | under a consistent heuristic, the open node of least f-score has a g-score no walk to it undercuts |
| AStar.WalkToSelected | src/utils/astar.js:47-56 | if a walk meets an open node no better in f than the selected one, the selected g-score is at most the walk's weight |
| AStar.CloseOptimal | src/utils/astar.js:44-94 | closing the node of least f-score keeps every closed node at its least g-score |
| AStar.CloseKeepsInvariant | src/utils/astar.js:92-94 | moving the selected node from open to closed keeps the invariant needed for the neighbour loop |
| AStar.UnclosedShrinks | src/utils/astar.js:92-94 | each iteration closes a node not closed before, so the number of unclosed nodes falls |
| AStar.CapNotReached | src/utils/astar.js:41-44 | while a node is open fewer than all nodes are closed, so the cap of ten times the node count never stops the search |
| AStar.Exhausted | src/utils/astar.js:143-151 | when the open set is empty no walk obeying the room rule leads from the start to the goal |
| AStar.TakeWhileNonEmpty | src/utils/astar.js:64-67 | the reconstruction stops at the first empty id and keeps everything before it |
| AStar.Reverse | src/utils/astar.js:69 | the reversed path holds the same ids in the opposite order |
| AStar.ReverseDistinct | src/utils/astar.js:69 | reversing keeps a path free of repeated nodes |
| AStar.ReconstructPath | src/utils/astar.js:60-67 | the loop collects the back link chain from the goal, stopping at a missing back link or an empty id |
| AStar.ChainWalk | src/utils/astar.js:59-69 | the reversed back link chain of a node is a walk from the start, obeying the room rule, whose weight is the node's g-score |
| AStar.GoalFound | src/utils/astar.js:59-89 | when the goal is selected it is reachable. With no empty id, the reconstructed path is an allowed walk from start to goal without repeated nodes, and a shortest one under a consistent heuristic |
| AStar.NoEmptyIds | src/utils/astar.js:64-67 | without an empty id among the nodes, the reconstruction reads the whole chain back |
| AStar.RoomsOnlyAtEnds | src/utils/astar.js:106-121 | on a returned path a room appears only as the start, the node right after it, or the goal |
| AStar.Search | src/utils/astar.js:11-152 | a path is returned exactly when the graph exists, both ends are nodes and the goal is reachable under the room rule. Apart from an empty id, it is an allowed walk from start to goal without repeats, and a shortest one under a consistent heuristic |
| AStar.StepLength | src/utils/astar.js:159-165 | a step's length is never negative, and a step touching a missing node counts nothing |
| AStar.DistanceNonNegative | src/utils/astar.js:155-168 | a path's distance is never negative |
| AStar.DistanceJoin | src/utils/astar.js:155-168 | the distance of two paths joined at a shared node is the sum of their distances |
| AStar.CalculatePathDistance | src/utils/astar.js:155-168 | the result is 0 for missing input and otherwise the sum of consecutive step lengths (0 for a path shorter than 2), never negative |
| AStar.PathWithTypes | src/utils/astar.js:171-177 | the typed path has one entry per id |
| AStar.PathWithTypesIds | src/utils/astar.js:171-177 | the ids read back from the typed path are the path, in order, each typed by its own id |
| AStar.RoomIdsAreRooms | src/utils/astar.js:174-175 | an id with `nav_room` and without `junction` is typed `room` |
| SvgPath.NextCommand | src/utils/graph.js:112 | the next command starts at the first command letter at or after the position, or at the end |
| SvgPath.Commands | src/utils/graph.js:112 | every chunk cut from the path data is a command letter followed by non-letters |
| SvgPath.CommandsCover | src/utils/graph.js:112 | the chunks put together give back the data from its first command letter on: nothing is lost |
| SvgPath.RunEnd | src/utils/graph.js:121 | a number run extends exactly over the digits and dots that follow |
| SvgPath.TokensFrom | src/utils/graph.js:121 | every token read from a command is a match of `-?[\d.]+` |
| SvgPath.Number | src/utils/graph.js:121 | a token reads as NaN exactly when it has two dots or no digit |
| SvgPath.NumberNegated | src/utils/graph.js:121 | a token with a leading `-` reads as the opposite number |
| SvgPath.CubicSegments | src/utils/graph.js:63-77 | a cubic curve is flattened into exactly ten segments |
| SvgPath.QuadSegments | src/utils/graph.js:85-99 | a quadratic curve is flattened into exactly ten segments |
| SvgPath.ApproximateCubic | src/utils/graph.js:63-77 | the loop produces the ten segments between the curve points at t = i/10 |
| SvgPath.ApproximateQuadratic | src/utils/graph.js:85-99 | the loop produces the ten segments between the curve points at t = i/10 |
| SvgPath.BezierEnds | src/utils/graph.js:79-82 | a cubic Bézier coordinate is its first point at t = 0 and its last at t = 1 |
| SvgPath.QuadBezierEnds | src/utils/graph.js:101-104 | a quadratic Bézier coordinate is its first point at t = 0 and its last at t = 1 |
| SvgPath.SampledChain | src/utils/graph.js:63-77 | ten segments joining successive samples of a curve form one chain from its first to its last sample |
| SvgPath.CubicChain | src/utils/graph.js:63-82 | a cubic's segments run on from the curve's start to its end, which are its end points when they are finite |
| SvgPath.QuadChain | src/utils/graph.js:85-104 | a quadratic's segments run on from the curve's start to its end, which are its end points when they are finite |
| SvgPath.LinesSegments | src/utils/graph.js:123-147 | an `L` (or implicit `L` after `M`) with k pairs adds k segments, each from the previous end. Relative coordinates are offset by the current point, and a missing y counts 0 |
| SvgPath.MoveStarts | src/utils/graph.js:123-127 | after `M` the current point and the subpath start are both the point moved to, and no segment is added |
| SvgPath.AxisLines | src/utils/graph.js:148-159 | `H` adds one segment with unchanged y and moves only x; `V` adds one with unchanged x and moves only y |
| SvgPath.CloseReturns | src/utils/graph.js:236-242 | `Z` adds a closing segment exactly when the current point differs from the subpath start, then returns to the start |
| SvgPath.GroupsCount | src/utils/graph.js:160-235 | every complete `C`/`S`/`Q`/`T` group adds exactly ten segments and an incomplete trailing group adds none |
| SvgPath.GroupChains | src/utils/graph.js:160-235 | with finite numbers, a group's ten segments run from the current point to the group's end point, which becomes the current point |
| SvgPath.GroupsChain | src/utils/graph.js:160-235 | with finite numbers, a curve command's segments run on continuously from the current point |
| SvgPath.StepChains | src/utils/graph.js:118-244 | the segments of any command run on from where it begins (curves with finite numbers) |
| SvgPath.LineLoop | src/utils/graph.js:129-147 | the `L` loop computes the specified line segments and pen |
| SvgPath.CurveGroup | src/utils/graph.js:162-235 | one complete curve group computes the specified segments, end point and control point |
| SvgPath.CurveLoop | src/utils/graph.js:160-235 | a curve command's loop computes the specified groups and skips an incomplete one |
| SvgPath.ApplyCommand | src/utils/graph.js:118-244 | one command updates the pen and segments as specified, and arcs are skipped |
| SvgPath.ParsePathToSegments | src/utils/graph.js:108-247 | the parser returns `[]` for empty data and otherwise the segments of its commands run in order from the origin |
| SvgPath.NoCommandsNoSegments | src/utils/graph.js:108-112 | data without a command letter, the empty string included, gives no segments |
| SvgGraph.AcceptsOnLayout | src/utils/graph.js:557-579 | the tests of `addEdge` read only node ids and positions, so added edges never change them |
| SvgGraph.PushOnce | src/utils/graph.js:582-583 | a guarded push leaves the target listed, appends at most one entry, and appends exactly when the target was missing |
| SvgGraph.AddEdge | src/utils/graph.js:557-585 | `addEdge` succeeds exactly when both ends exist, they are not both rooms and no wall is crossed. On failure nothing changes; on success both guarded pushes happen |
| SvgGraph.JoinedLinks | src/utils/graph.js:581-585 | after a successful `addEdge` each end lists the other, and only edges between the two are new |
| SvgGraph.SymmetricHasBack | src/utils/graph.js:581-583 | in a symmetric graph a node lists a neighbour only if the neighbour lists it back |
| SvgGraph.JoinedWellFormed | src/utils/graph.js:560-585 | a successful `addEdge` keeps edges symmetric, unrepeated and free of room-to-room edges |
| SvgGraph.JoinedWallFree | src/utils/graph.js:571-585 | an edge added with the wall test on never crosses a wall |
| SvgGraph.FilterIds | src/utils/graph.js:600-601 | the path (room) list holds exactly the ids with `nav_path` (`nav_room`) |
| SvgGraph.InRange | src/utils/graph.js:624-627 | the candidates of a path node are exactly the other path nodes within 200 units, with their distances |
| SvgGraph.AllDistances | src/utils/graph.js:682-686 | a room sees every path node once, in list order, with its distance |
| SvgGraph.Insert | src/utils/graph.js:628 | inserting one candidate into the sorted list adds exactly that candidate and removes none |
| SvgGraph.InsertSorted | src/utils/graph.js:628 | inserting before the first candidate that is not nearer keeps the list sorted by distance |
| SvgGraph.SortByDist | src/utils/graph.js:628 | sorting by distance is a permutation of the candidates |
| SvgGraph.SortByDistSorted | src/utils/graph.js:628 | the sorted candidates are in non-decreasing distance |
| SvgGraph.PathCandidates | src/utils/graph.js:624-628 | a path node's candidates are nearest first, and are exactly the other path nodes within 200 units |
| SvgGraph.RoomPathCandidates | src/utils/graph.js:682-688 | a room's candidates are its min(5, path count) path nodes, nearest first |
| SvgGraph.RoomCandidatesNearest | src/utils/graph.js:682-688 | no path node left out of a room's candidates is nearer than one kept |
| SvgGraph.CountAccepted | src/utils/graph.js:634-642 | no more candidates are counted as accepted than were tried |
| SvgGraph.CountAcceptedZero | src/utils/graph.js:632-646 | the count is zero exactly when no tried candidate passes the tests of `addEdge` |
| SvgGraph.TryAdd | src/utils/graph.js:635 | an `addEdge` never moves or removes a node |
| SvgGraph.TryAddGrows | src/utils/graph.js:635 | an `addEdge` adds only edges between its two ends, and on success the first lists the second |
| SvgGraph.TryAddWellFormed | src/utils/graph.js:635 | an `addEdge` with the wall test keeps the graph well formed and clear of walls |
| SvgGraph.JoinFirstGrows | src/utils/graph.js:634-642 | trying the first k candidates adds only edges between the node and those candidates |
| SvgGraph.JoinFirstLinked | src/utils/graph.js:634-642 | every tried candidate that passes the tests ends up joined to the node |
| SvgGraph.JoinFirstWellFormed | src/utils/graph.js:634-642 | trying candidates keeps the graph well formed and clear of walls |
| SvgGraph.JoinFirstLayout | src/utils/graph.js:634-642 | trying candidates never moves or removes a node |
| SvgGraph.FallbackKeeps | src/utils/graph.js:646-657 | the fallback adds at most edges to the fourth or fifth candidate and keeps the graph well formed |
| SvgGraph.PathStepGrows | src/utils/graph.js:620-658 | a path node's pass joins it only to its first five candidates, and to every one of the first three that passes the tests |
| SvgGraph.PathStepWellFormed | src/utils/graph.js:620-658 | a path node's pass keeps the graph well formed and clear of walls |
| SvgGraph.TryNearest | src/utils/graph.js:634-642 | the loop over the nearest candidates tries them in order and counts the accepted ones |
| SvgGraph.TryFallback | src/utils/graph.js:646-657 | the fallback loop stops at the first accepted of the fourth and fifth candidates, counting at most one |
| SvgGraph.ConnectPathNode | src/utils/graph.js:620-658 | a path node's pass is the specified step, and its count is the accepted nearest ones, or at most one fallback |
| SvgGraph.PathNodeConnections | src/utils/graph.js:630-657 | a path node's own pass accepts at most three candidates, and none exactly when none of its first five candidates passes the tests |
| SvgGraph.ConnectRoom | src/utils/graph.js:678-717 | a room tries its candidates in order and counts the accepted ones; the fallback adds nothing |
| SvgGraph.RoomFallbackRejected | src/utils/graph.js:703-716 | when no candidate of a room is accepted, the fallback's retry of the nearest one is rejected too |
| SvgGraph.ExplicitPasses | src/utils/graph.js:588-596 | after the first k explicit edges the graph still has exactly the layout's nodes |
| SvgGraph.ExplicitKept | src/utils/graph.js:588-596 | the explicit edges never move a node or drop an edge |
| SvgGraph.ExplicitLinked | src/utils/graph.js:588-596 | every explicit edge among the first k whose two ends exist and pass `addEdge`'s tests joins its ends both ways |
| SvgGraph.AfterExplicit | src/utils/graph.js:588-596 | the graph after the explicit edges has exactly the layout's nodes |
| SvgGraph.AddExplicitEdges | src/utils/graph.js:588-596 | the loop over the explicit edges yields the fold of `addEdge` over them, keeps the layout, and keeps the graph well formed and clear of walls |
| SvgGraph.PathPasses | src/utils/graph.js:620-658 | the passes of the first k path nodes keep the node set |
| SvgGraph.PathKept | src/utils/graph.js:620-658 | the path-node passes never move a node or drop an edge |
| SvgGraph.PathPassesLinked | src/utils/graph.js:620-642 | after the passes of the first k path nodes, each of them is joined to every one of its first three candidates that passes the tests |
| SvgGraph.ConnectPathNodes | src/utils/graph.js:611-669 | the loop over the path nodes yields the fold of their passes, keeps the layout, and keeps the graph well formed and clear of walls |
| SvgGraph.RoomPasses | src/utils/graph.js:678-717 | the passes of the first k rooms keep the node set |
| SvgGraph.RoomKept | src/utils/graph.js:678-717 | the room passes never move a node or drop an edge |
| SvgGraph.RoomPassesLinked | src/utils/graph.js:678-701 | after the passes of the first k rooms, each of them is joined to every one of its candidates that passes the tests |
| SvgGraph.ConnectRooms | src/utils/graph.js:673-720 | the loop over the rooms yields the fold of their passes, keeps the layout, and keeps the graph well formed and clear of walls |
| SvgGraph.CandidatesOnLayout | src/utils/graph.js:624-628 | candidates depend only on positions, so they are the same on any graph with the same layout |
| SvgGraph.AfterPaths | src/utils/graph.js:611-669 | the path step, run only with more than one path node, keeps the node set |
| SvgGraph.Connected | src/utils/graph.js:611-720 | the path step and then the room step, run only with a room and a path node, keep the node set |
| SvgGraph.Built | src/utils/graph.js:587-720 | the whole build (explicit edges, path step, room step) has exactly the layout's nodes |
| SvgGraph.ConnectNodes | src/utils/graph.js:598-720 | the two connection steps yield the specified graph, keep the layout, and keep it well formed and clear of walls |
| SvgGraph.BuiltKeepsLayout | src/utils/graph.js:587-720 | the built graph has every node of the layout at its position, and every edge it started with |
| SvgGraph.BuiltHasExplicitEdges | src/utils/graph.js:588-596 | every explicit edge whose ends exist and pass `addEdge`'s tests is in the built graph, both ways |
| SvgGraph.BuiltHasPathLinks | src/utils/graph.js:611-642 | with more than one path node, each path node is joined to every one of its first three candidates that passes the tests |
| SvgGraph.BuiltHasRoomLinks | src/utils/graph.js:673-701 | with a path node present, each room is joined to every one of its candidates that passes the tests |
| SvgGraph.BuildNavGraph | src/utils/graph.js:587-738 | the result is null exactly when there are no nodes. Otherwise it is the specified build (so it holds every accepted explicit, path and room edge), with the layout's nodes and positions, symmetric unrepeated edges, no room-to-room edge, and no edge crossing a wall |
| SvgGraph.PointDist | src/utils/graph.js:746 | a node's distance to a point is never negative |
| SvgGraph.FindNearestNode | src/utils/graph.js:741-753 | the result is null exactly for no nodes, and otherwise the first node whose distance to the point is the least |
| SvgGraph.FirstNearestUnique | src/utils/graph.js:741-753 | only one position can be the first nearest node |
| PathPainter.TextOr | src/utils/pathPainter.js:12 | a missing or empty string option falls back to the default |
| PathPainter.NumberOr | src/utils/pathPainter.js:13 | a missing or zero number option falls back to the default |
| PathPainter.NewPaint | src/utils/pathPainter.js:11-19 | a paint never has an empty color, style, cap or join, nor a zero width. A given opacity, 0 included, is kept and otherwise it is 1. The dash array is kept |
| PathPainter.PaintRebuilt | src/utils/pathPainter.js:11-19 | building a paint from a paint's own properties gives the same paint |
| PathPainter.PaintDefaults | src/utils/pathPainter.js:11-19 | with no options a paint is red, 4 wide, stroked, opaque, round-capped and round-joined, without dashes |
| PathPainter.Stroke | src/utils/pathPainter.js:22-24 | `Paint.stroke` gives a stroked, opaque, undashed paint of the given color and width, falling back to red and 4 |
| PathPainter.Fill | src/utils/pathPainter.js:27-29 | `Paint.fill` gives a filled, opaque, undashed paint of width 4 in the given color, falling back to red |
| PathPainter.Words | src/utils/pathPainter.js:99-117 | every command has at least one word |
| PathPainter.Parts | src/utils/pathPainter.js:99-117 | there is one part per command |
| PathPainter.PartIsWords | src/utils/pathPainter.js:101-116 | a command's part is its letter and its numbers separated by single spaces |
| PathPainter.SvgStringIsWords | src/utils/pathPainter.js:96-120 | the path string is the words of all commands, in command order, separated by single spaces |
| PathPainter.SplitJoin | src/utils/pathPainter.js:119 | splitting at spaces undoes the join when no word holds a space |
| PathPainter.AllWordsSpaceless | src/utils/pathPainter.js:99-117 | no word of the path string holds a space |
| PathPainter.SvgStringReadsBack | src/utils/pathPainter.js:96-120 | no commands give the empty string; otherwise splitting the string at spaces gives back every command's words in order |
| PathPainter.PolylineCommands | src/utils/pathPainter.js:81-93 | a polyline of n points is one `M` then n - 1 `L`s, through the points in order |
| PathPainter.PolylinePrefix | src/utils/pathPainter.js:88-90 | each further point appends exactly one `L` to the polyline |
| PathPainter.Path.constructor | src/utils/pathPainter.js:36-40 | a new path has no commands and its current point at (0, 0) |
| PathPainter.Path.MoveTo | src/utils/pathPainter.js:43-48 | appends one `M` and moves the current point to it |
| PathPainter.Path.LineTo | src/utils/pathPainter.js:51-56 | appends one `L` and moves the current point to it |
| PathPainter.Path.QuadraticBezierTo | src/utils/pathPainter.js:59-64 | appends one `Q` and moves the current point to its end point |
| PathPainter.Path.CubicBezierTo | src/utils/pathPainter.js:67-72 | appends one `C` and moves the current point to its end point |
| PathPainter.Path.Close | src/utils/pathPainter.js:75-78 | appends one `Z` and leaves the current point where it is |
| PathPainter.Path.AddPolyline | src/utils/pathPainter.js:81-93 | no points change nothing. Otherwise it appends the polyline's `M` and `L`s in point order and ends at the last point |
| PathPainter.Path.ToSVGPathString | src/utils/pathPainter.js:96-120 | the result is the commands' parts, in order, joined by single spaces, and `""` for no commands |
| PathPainter.Path.Reset | src/utils/pathPainter.js:123-128 | empties the command list and puts the current point back at (0, 0) |
| IndoorDirectory.FindLower | src/pages/IndoorDirectory.jsx:78-80 | the search stops at the first entry equal to the input up to case, or at the end when there is none |
| IndoorDirectory.FindIncluding | src/pages/IndoorDirectory.jsx:82-84 | the search stops at the first entry that includes the input up to case, or at the end when there is none |
| IndoorDirectory.ResolveRoomInput | src/pages/IndoorDirectory.jsx:72-93 | empty input resolves to nothing. A result is a display name including the input (with that name's id), a room id equal to the input up to case, or an existing `room_` + upper-case candidate. Nothing is found exactly when no tier applies |
| IndoorDirectory.ResolveExact | src/pages/IndoorDirectory.jsx:75 | an exactly typed display name wins, with its own id |
| IndoorDirectory.ResolveIgnoringCase | src/pages/IndoorDirectory.jsx:76-80 | otherwise the first display name equal up to case wins, with its own id |
| IndoorDirectory.ResolvePartial | src/pages/IndoorDirectory.jsx:81-84 | otherwise the first display name including the input up to case wins, with its own id |
| IndoorDirectory.ResolveRoomId | src/pages/IndoorDirectory.jsx:85-88 | otherwise the first room id equal to the input up to case is both id and name |
| IndoorDirectory.ResolveCandidate | src/pages/IndoorDirectory.jsx:89-92 | otherwise `room_` + the upper-cased input is chosen when the plan has that element |
| IndoorDirectory.StripPrefix | src/pages/IndoorDirectory.jsx:208 | a leading room prefix, in any case, is cut off and only a suffix of the id stays; an id without one is unchanged |
| IndoorDirectory.FallbackName | src/pages/IndoorDirectory.jsx:205-212 | the fallback name has no `_`, no space at either end, and a space before every capital letter but a leading one |
| IndoorDirectory.FallbackShape | src/pages/IndoorDirectory.jsx:209-211 | after the three replacements and the trim there is no `_`, and every inner capital follows a space |
| IndoorDirectory.CapitalsSpaced | src/pages/IndoorDirectory.jsx:209 | after spacing capitals, every capital letter follows a space |
| IndoorDirectory.ReplaceKeepsSpacing | src/pages/IndoorDirectory.jsx:210 | replacing `_` by spaces removes every `_` and keeps capitals after spaces |
| IndoorDirectory.TrimKeepsSpacing | src/pages/IndoorDirectory.jsx:211 | trimming keeps both facts, except for a capital that becomes the first character |
| IndoorDirectory.LettersSpaceCapitals | src/pages/IndoorDirectory.jsx:209 | spacing capitals adds only separators |
| IndoorDirectory.LettersReplace | src/pages/IndoorDirectory.jsx:210 | replacing `_` by spaces changes only separators |
| IndoorDirectory.LettersTrim | src/pages/IndoorDirectory.jsx:211 | trimming removes only separators |
| IndoorDirectory.FallbackNameKeepsText | src/pages/IndoorDirectory.jsx:205-212 | the fallback name keeps every character of the id after its prefix, apart from separators |
| IndoorDirectory.NatToString | src/pages/IndoorDirectory.jsx:219 | a counter is written as a non-empty string of decimal digits |
| IndoorDirectory.NatToStringInjective | src/pages/IndoorDirectory.jsx:219 | different counters are written differently |
| IndoorDirectory.DisplayInjective | src/pages/IndoorDirectory.jsx:215-220 | different attempts give different display names (`name`, `name (2)`, `name (3)`, …) |
| IndoorDirectory.NotTriedYet | src/pages/IndoorDirectory.jsx:217-220 | the loop never tries the same display name twice |
| IndoorDirectory.FewerUntried | src/pages/IndoorDirectory.jsx:217-220 | each failed attempt uses up one name held by another room, so the loop ends |
| IndoorDirectory.UniqueDisplay | src/pages/IndoorDirectory.jsx:214-220 | the chosen display name is the first attempt not held by another room; every earlier attempt was held by another room |
| IndoorDirectory.HeldByItself | src/pages/IndoorDirectory.jsx:217-221 | a display name not taken by another room is free or already the room's own |
| IndoorDirectory.MapsBackStep | src/pages/IndoorDirectory.jsx:221-223 | storing the new display name keeps every earlier room's name mapped back to its id |
| IndoorDirectory.IdsMapBackStep | src/pages/IndoorDirectory.jsx:221-222 | storing both directions keeps every id's display name mapped back to that id |
| IndoorDirectory.LastShownStep | src/pages/IndoorDirectory.jsx:222 | a room whose id does not occur again keeps its own display name in the id-to-name map |
| IndoorDirectory.DisplayStartsWithLabel | src/pages/IndoorDirectory.jsx:219 | every attempted display name starts with the label |
| IndoorDirectory.NamedStep | src/pages/IndoorDirectory.jsx:214-223 | one pass of the loop body keeps all the facts of the naming loop |
| IndoorDirectory.NamedMeans | src/pages/IndoorDirectory.jsx:214-224 | at the end, rooms with different ids have different display names, and a room whose id is not repeated later is shown under its own name |
| IndoorDirectory.TakenIsHeld | src/pages/IndoorDirectory.jsx:216 | while a room is named, `map[display] && map[display] !== gId` holds exactly for names that an earlier room with another id holds |
| IndoorDirectory.ChosenStep | src/pages/IndoorDirectory.jsx:214-222 | pushing the first free attempt keeps every room's name the first attempt free when it was named |
| IndoorDirectory.FreeLabelKept | src/pages/IndoorDirectory.jsx:214-220 | a room whose label no earlier room with another id holds gets the bare label |
| IndoorDirectory.ChosenMeans | src/pages/IndoorDirectory.jsx:214-224 | at the end every room's name is the first attempt free when it was named, and a free label is kept bare |
| IndoorDirectory.DisplayNames | src/pages/IndoorDirectory.jsx:168-224 | one display name per room, mapping back to its id. Each is the first of the label, `label (2)`, `label (3)`, … that no earlier room with another id holds, so a free label is kept as it is. The map holds only pushed names, and rooms with different ids get different names. `idToName` maps every id to a name that maps back to it, the last name for the id |
| IndoorDirectory.FreshIsUnseenTargets | src/pages/IndoorDirectory.jsx:306-311 | the inner loop pushes exactly the edge ends not found before, each once |
| IndoorDirectory.PushUnseen | src/pages/IndoorDirectory.jsx:306-311 | the inner loop adds all edge ends to the found set and pushes the new ones in edge order |
| IndoorDirectory.PushedStep | src/pages/IndoorDirectory.jsx:307-310 | over the whole search the pushes are exactly the found nodes, each pushed once |
| IndoorDirectory.SearchStep | src/pages/IndoorDirectory.jsx:303-311 | one pass of the `while` loop keeps the search invariant |
| IndoorDirectory.SearchShrinks | src/pages/IndoorDirectory.jsx:303-311 | each pass finds a new node or, finding none, shrinks the stack, so the search ends |
| IndoorDirectory.FewerUnfound | src/pages/IndoorDirectory.jsx:307-308 | finding a new node leaves fewer of the graph's nodes unfound |
| IndoorDirectory.SearchInit | src/pages/IndoorDirectory.jsx:301-302 | the search starts with only the start found and on the stack |
| IndoorDirectory.SearchDone | src/pages/IndoorDirectory.jsx:301-312 | with the stack empty the found set holds the start, is closed under edges and lies inside every such set |
| IndoorDirectory.StartConnected | src/pages/IndoorDirectory.jsx:301-312 | the result is the least set holding the start node and closed under edges, and every node is pushed at most once |
| IndoorDirectory.WalkStaysInside | src/pages/IndoorDirectory.jsx:301-314 | a walk from a node of an edge-closed set never leaves it |
| IndoorDirectory.NotFoundUnreachable | src/pages/IndoorDirectory.jsx:301-314 | every node reachable from the start is found, so a node not found is in another cluster |
| IndoorDirectory.RoutePoints | src/pages/IndoorDirectory.jsx:331-334 | the route is drawn through len + 2 points: the start centre, each path node's position in order, then the end centre |
| Announcements.ApiUrl | src/pages/admin/AdminAnnouncements.jsx:9 | a set, non-empty variable is used, and otherwise the local CMS address |
| Announcements.StripApi | src/pages/admin/AdminAnnouncements.jsx:11 | only a trailing `/api` or `/api/` is cut off, at most once; anything else is unchanged |
| Announcements.GetImageBaseUrl | src/pages/admin/AdminAnnouncements.jsx:8-12 | the base is the CMS address with at most one trailing `/api` or `/api/` removed, and unchanged exactly when there is none |
| Announcements.DefaultBaseUrl | src/pages/admin/AdminAnnouncements.jsx:8-12 | without the variable, images come from `http://localhost:3001` |
| Announcements.StripsOnlyOnce | src/pages/admin/AdminAnnouncements.jsx:11 | an address ending in `/api/api` keeps the first `/api` |
| Announcements.GetImageUrl | src/pages/admin/AdminAnnouncements.jsx:107-122 | a missing or empty path gives the default image. A full `http://` or `https://` URL is kept, an `/uploads` path gets the base in front, and any other path is kept |
| Announcements.ImageUrlEndsWithPath | src/pages/admin/AdminAnnouncements.jsx:107-122 | the URL of a stored path always ends with that path |
| Announcements.ImageUrlStable | src/pages/admin/AdminAnnouncements.jsx:107-122 | resolving a resolved URL again changes nothing, unless the base itself starts with `/uploads` |
| Announcements.ImageUrlGrowsUnderUploadsBase | src/pages/admin/AdminAnnouncements.jsx:116-118 | with a base starting with `/uploads`, resolving again prepends the base once more |
| JsText.ToLower | src/pages/IndoorDirectory.jsx:76-87 | `toLowerCase` keeps the length and maps every character to its lower case |
| JsText.ToUpper | src/pages/IndoorDirectory.jsx:90 | `toUpperCase` keeps the length and maps every character to its upper case |
| JsText.ToLowerIdempotent | src/pages/IndoorDirectory.jsx:76-87 | lower-casing twice is lower-casing once, so the case-blind comparisons are consistent |
| JsText.Trim | src/pages/IndoorDirectory.jsx:211 | `trim` gives a slice of the input with only white space outside it, and the slice neither starts nor ends with white space |
| JsText.ReplaceChar | src/pages/IndoorDirectory.jsx:210 | a global one-character `replace` changes exactly the occurrences of that character, and nothing else |

## Left out

- Browser I/O is not modelled:
  - the scan of the drawing (`querySelectorAll`, `getBBox`, path centres, outline and
    polygon walls in `buildNavGraphFromSvg`, src/utils/graph.js:290-552);
  - the SVG highlighting, element creation and React state of the directory page;
  - `connectRoomsToNodes`.

  The node layout, the explicit edges, the room element ids and labels, the ids of all
  plan elements and the wall test are parameters instead.
- Floating-point geometry is not modelled:
  - `lineSegmentsIntersect`, `lineIntersectsWalls`, `pointInPolygon` and
    `getWallPolygonPoints` form the wall test parameter;
  - `Math.hypot` is an abstract non-negative function;
  - Bézier points are computed over reals without rounding.
- Console logging and the statistics computed only for it are left out, including the
  `navPathCount` warning in `astar`.
- The `Object.keys` order of integer-like keys is not modelled; keys are in insertion order.
- `edge.w ?? 1`: both builders always store a weight, so every modelled edge has one.
- `ManualGraph.BuildManualGraph` takes the node and connection tables as parameters. The
  sample tables of `src/data/navigationGraph.js` are not transcribed.
- `AStar.Search` requires every edge to end at a node. With a dangling edge the source
  throws in `heuristic`, and the model does not give that exception a value.
- `AStar.Search`: its shortest-path promise is stated under a consistent heuristic. Its
  path promise is stated when no node id is empty, because `while (cur)` stops at an empty
  id.
- Display-name sources 1 to 4 (`data-name`, label paths, `<text>`, `<title>`,
  src/pages/IndoorDirectory.jsx:172-202) read the drawing. The model takes their result as
  the label parameter and derives the fallback name (source 5) itself.
- The alphabetical `localeCompare` sort of the display names
  (src/pages/IndoorDirectory.jsx:226-227) is left out, because locale collation is not
  modelled.
- The text of the `points` attribute (src/pages/IndoorDirectory.jsx:340) is left out, as
  number formatting.
- `PathPainter.Path.ToSVGPathString`: JavaScript number-to-text conversion is the
  parameter `fmt`. The string round trip assumes only that it never produces a space.
- PathPainter.Stroke: the width is always passed. A call that omits it (default 4,
  src/utils/pathPainter.js:22) is modelled as passing 4.0. The result is the same, because
  the `Paint` constructor (src/utils/pathPainter.js:13) maps a missing width to 4 as well.
- The `return this` chaining of the `Path` methods is not modelled; the methods return
  nothing.
- `Canvas`, `CustomPaint` and `CustomPainter` in src/utils/pathPainter.js are left out, as
  DOM element creation and repaint callbacks.
- `import.meta.env.VITE_CMS_API` is a parameter of the announcement functions.
- JavaScript case mapping and `trim` are modelled for ASCII letters and the ECMAScript
  white-space set; other Unicode case pairs are not.
