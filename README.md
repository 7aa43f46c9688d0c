# Fractal task manager: focus engine, level layout, SQL builder and grouping

This project models the logic at the core of a mind-map task manager in Dafny. Tasks are stored as flat rows: an id, a title, an optional parent id, a priority and a completion flag. The model covers four parts of the system:

- **Client store** (`client/src/store/useStore.js`):
  - `fetchTree` turns the rows into graph nodes (one per row) and parent→child edges (one per row whose parent id is truthy).
  - `setFocus` is a toggle. Selecting the focused node again clears focus and shows everything. Selecting any other node walks the edges:
    - upward from it;
    - then downward from it;
    - both walks share one `visited` set.

    Every node and edge is then restyled by whether it is one of the "relatives" found.
  - The store is the class `Store.Store`, with the fields `nodes`, `edges` and `focusedNodeId`.
  - The recursive `traverse` is modelled as a worklist loop, `Kin.Explore`, proved against a reachability specification.
- **Level layout** (`getLayoutedNodes` in `client/src/App.jsx`):
  - Depth is the number of `parentNode` hops (`Layout.ChainDepth`).
  - Nodes are pushed onto per-depth levels in input order (`Layout.BucketLevels`).
  - Each node is placed at `x = (indexInLevel - totalInLevel / 2) * 200 + 100`, `y = depth * 150` (`Layout.LayoutNodes`).
- **Server handlers** (`server/src/index.js`):
  - The create handler's `priority || 1` default.
  - The PATCH handler's `UPDATE … SET` builder with its running `$n` placeholder counter (`Server.BuildUpdate`).
- **Task list** (`client/src/components/TaskList.jsx`): the leaves are folded into a dictionary keyed by `parent_id`, or by `'root'` when `parent_id` is falsy (`TaskList.GroupLeaves`).

What the proofs establish:

- The relatives set is exactly the focused node, its ancestors and its descendants when the edges are acyclic (`Ancestry.RelativesOfAcyclic`). On any edge list, cycles included, every relative is the focused node, an ancestor or a descendant (`Ancestry.RelativesAreKin`); a sibling is a relative only when it is also an ancestor or a descendant through some other edge.
- With a cycle, the shared `visited` set can cut off a real descendant. `Ancestry.CycleHidesDescendant` exhibits an edge list where this happens.
- Clearing focus keeps each edge's `strokeWidth`. An edge that was on the highlighted path therefore stays 3 wide (`Store.ResetKeepsPathWidth`).
- The nodes `fetchTree` builds never set `parentNode`; the parent id is in `data.parentId`. So the level layout puts every fetched node at depth 0, on a single row (`Layout.FetchedNodesLieFlat`).
- A PATCH with no fields produces the malformed statement `UPDATE nodes SET  WHERE id = $1 RETURNING *`, because the handler has no guard (`Server.EmptyPatchIsMalformed`).

Modules:

| file | module | contents |
|---|---|---|
| `wrappers.dfy` | `Wrappers` | `Option` |
| `decimal.dfy` | `Decimal` | decimal rendering of integers (`toString`); parsing back |
| `records.dfy` | `Records` | the task row; JavaScript truthiness of `parent_id` |
| `flow.dfy` | `Flow` | graph nodes and edges; the `fetchTree` mapping |
| `kin.dfy` | `Kin` | walk vocabulary; the traversal loop; the relatives set |
| `ancestry.dfy` | `Ancestry` | what the relatives set is, acyclic and cyclic |
| `store.dfy` | `Store` | node/edge restyling; the `Store` class with `FetchTree` and `SetFocus` |
| `layout.dfy` | `Layout` | `getLayoutedNodes` |
| `server.dfy` | `Server` | request-body values; `priority || 1`; the PATCH builder |
| `tasklist.dfy` | `TaskList` | the leaf grouping |

## Model

| member | source | states |
|---|---|---|
| Decimal.ParseIntToString | client/src/store/useStore.js:66 | the decimal text of any integer is a numeral that reads back as that integer |
| Decimal.IntToStringInjective | client/src/store/useStore.js:66 | two integers have the same decimal text if and only if they are equal |
| Flow.ToFlowNodes | client/src/store/useStore.js:65-80 | one node per row, in row order: id is the row id's text, type `mindMap`, `hidden` false, position (0,0), no `parentNode`, data copied from the row |
| Flow.WithParentMembers | client/src/store/useStore.js:83 | the filter keeps a row if and only if the row is in the input and has a truthy parent id |
| Flow.WithParentAppend | client/src/store/useStore.js:83 | filtering distributes over concatenation, so kept rows stay in input order |
| Flow.ToFlowEdges | client/src/store/useStore.js:82-91 | one edge per kept row, in order: id `e<parent>-<id>`, source is the parent id's text, target is the row id's text, kind `smoothstep`, animated, no `hidden`, plain `#555` stroke |
| Flow.NodeIdsFaithful | client/src/store/useStore.js:66 | every node id reads back as its row id; distinct row ids give distinct node ids |
| Flow.EdgesJoinNodes | client/src/store/useStore.js:85-87 | every edge's target is a node; its source is a node whenever the parent row is present |
| Flow.Place | client/src/store/useStore.js:29-40 | only positions change; each node's corner is its layout centre minus half the 280×140 box |
| Kin.Next | client/src/store/useStore.js:128-133 | the ids one step up (incoming edges' sources) or down (outgoing edges' targets) are exactly the edge-neighbours in that direction |
| Kin.Explore | client/src/store/useStore.js:122-135 | one direction's walk ends with `visited` = the old visited set plus every id reachable from the start ids by a walk that avoids the old set; it terminates on any edge list |
| Kin.CollectRelatives | client/src/store/useStore.js:119-137 | `traverse(x, 'both')` yields the upward phase plus the downward reach avoiding it |
| Ancestry.UpPhaseIsAncestry | client/src/store/useStore.js:127-130 | whatever the upward walk visits is the focused node or an ancestor |
| Ancestry.DownPhaseIsDescent | client/src/store/useStore.js:131-134 | whatever the downward walk visits is a descendant |
| Ancestry.RelativesAreKin | client/src/store/useStore.js:119-137 | every relative is the focused node, an ancestor or a descendant, on any edge list |
| Ancestry.AncestorsAreRelatives | client/src/store/useStore.js:119-137 | the focused node and all its ancestors are relatives, on any edge list |
| Ancestry.DescendantsAreRelatives | client/src/store/useStore.js:119-137 | on acyclic edges every descendant is a relative |
| Ancestry.RelativesOfAcyclic | client/src/store/useStore.js:119-137 | on acyclic edges: relative if and only if the focused node, an ancestor or a descendant |
| Ancestry.CycleHidesDescendant | client/src/store/useStore.js:120-137 | with edges 1→2, 2→1, 2→3, node 3 is a descendant of 1 but not a relative of 1 |
| Ancestry.SiblingIsNotRelative | client/src/store/useStore.js:119-137 | with edges 1→2, 1→3, the relatives of 2 are exactly {1, 2} |
| Store.FocusNodes | client/src/store/useStore.js:140-153 | same length and order, only the style changes, `hidden` kept; opacity 1 and pointer events `all` if and only if a relative, otherwise 0.1 and `none` |
| Store.FocusEdges | client/src/store/useStore.js:156-167 | only the style changes; the style is the path style (`#3b82f6`, width 3, opacity 1) if and only if both ends are relatives, otherwise the dim style (`#333`, 1, 0.1) |
| Store.FocusEdgesForgetsStyle | client/src/store/useStore.js:156-167 | focusing gives the same edges whatever styles the edges had before |
| Store.ResetNodes | client/src/store/useStore.js:110 | every node is shown (`hidden` false) with style `{opacity: 1}`; nothing else changes |
| Store.ResetEdges | client/src/store/useStore.js:111 | every edge is shown with stroke `#555` and opacity 1; its stroke width is kept; nothing else changes |
| Store.ResetKeepsPathWidth | client/src/store/useStore.js:111 | after focus then unfocus, a path edge keeps width 3 and any other edge keeps width 1 |
| Store.Store.constructor | client/src/store/useStore.js:46-53 | the store starts with no nodes, no edges and no focus |
| Store.Store.FetchTree | client/src/store/useStore.js:60-100 | on success the nodes are the placed row nodes and the edges are the row edges; on failure nothing changes; the focus is untouched |
| Store.Store.SetFocus | client/src/store/useStore.js:103-170 | selecting the focused node clears focus and resets all styles; selecting another node focuses it and restyles nodes and edges by its relatives |
| Store.SelectTwice | client/src/store/useStore.js:107-116 | selecting an unfocused node twice leaves no focus, with every node shown at full opacity and ids and order kept |
| Layout.FindFirst | client/src/App.jsx:21 | `find` returns the first node with the id, and nothing exactly when no node has it |
| Layout.ChainDepth | client/src/App.jsx:17-23 | the `while (p)` loop returns the least number of hops after which `p` is falsy |
| Layout.DepthCountsHops | client/src/App.jsx:17-23 | no parent gives depth 0; a parent id naming no node gives depth 1; a present parent adds one to its own depth |
| Layout.SelfParentNeverEnds | client/src/App.jsx:19-23 | a node whose `parentNode` is its own id keeps `p` truthy forever, so the loop needs an acyclic chain |
| Layout.BucketLevels | client/src/App.jsx:15-26 | after the first pass, each depth in use maps to its nodes in input order, no other depth is a key, and no level is empty |
| Layout.LevelPosition | client/src/App.jsx:24-25 | node i sits in the level of its own depth, at the index given by the number of earlier nodes of that depth |
| Layout.LevelMembers | client/src/App.jsx:24-25 | every member of a level is an input node of that depth |
| Layout.RankOrdered | client/src/App.jsx:25 | two nodes at the same depth keep their input order in the level |
| Layout.FirstIndex | client/src/App.jsx:35 | `findIndex` gives the first index holding the id, or -1 exactly when there is none |
| Layout.FirstIndexIsRank | client/src/App.jsx:35 | with distinct ids, `findIndex` in a node's level finds the node's own place |
| Layout.SlotFromLevels | client/src/App.jsx:35-37 | `(index - total / 2) * 200 + 100` equals the whole number `200·index − 100·total + 100`, and `y = 150·depth` |
| Layout.SameLevelSpacing | client/src/App.jsx:35-37 | with distinct ids, nodes of one level share `y` and are 200 apart per step of rank, so their `x` values differ |
| Layout.LayoutNodes | client/src/App.jsx:13-39 | same length and order; each node is unchanged except for its position, which is its slot; empty input gives empty output |
| Layout.FetchedNodesLieFlat | client/src/App.jsx:18 | the nodes `fetchTree` builds all have depth 0, so row i of n is placed at `(200·i − 100·n + 100, 0)` |
| Server.PriorityOrDefault | server/src/index.js:55 | an absent or falsy priority becomes 1; any truthy value is kept; the result is always truthy |
| Server.PriorityDefaultIdempotent | server/src/index.js:55 | applying the default twice is applying it once |
| Server.GivenExactly | server/src/index.js:72-74 | the SET list names exactly the fields present in the body (`null` counts), each with its own value, once, in the order title, priority, is_completed |
| Server.BuildUpdate | server/src/index.js:64-80 | the k-th assignment is the k-th given column with placeholder `$k+1`; `values[k]` is that column's value; `id` is the last value; `counter` equals the number of values and numbers the WHERE placeholder |
| Server.AssignmentPlaceholder | server/src/index.js:72-74 | the number after `$` in an assignment reads back as the counter value written |
| Server.AssignmentsDistinct | server/src/index.js:70-74 | two assignments are equal if and only if they have the same column and the same placeholder number |
| Server.EmptyPatchIsMalformed | server/src/index.js:68-80 | with no field given, the statement is `UPDATE nodes SET  WHERE id = $1 RETURNING *` |
| TaskList.GroupKeyFaithful | client/src/components/TaskList.jsx:14 | the key is `'root'` if and only if `parent_id` is falsy; otherwise it reads back as `parent_id` |
| TaskList.MembersExact | client/src/components/TaskList.jsx:13-18 | a group holds exactly the tasks whose key is the group's key |
| TaskList.CreateThenPush | client/src/components/TaskList.jsx:15-16 | creating the group when missing and then pushing is the callback `Push` |
| TaskList.GroupingSnoc | client/src/components/TaskList.jsx:13-18 | grouping one more task is one more application of the callback |
| TaskList.GroupLeaves | client/src/components/TaskList.jsx:13-18 | the fold returns the grouping: one group per key in use, holding that key's leaves in input order |
| TaskList.GroupsPartition | client/src/components/TaskList.jsx:13-18 | a key is present if and only if some leaf maps to it; no group is empty; a task is in a group if and only if it is a leaf with that key |
| TaskList.MembersAppend | client/src/components/TaskList.jsx:16 | the group of a concatenation is the groups of the parts in order, so tasks keep their relative order |
| TaskList.NoLeavesNoGroups | client/src/components/TaskList.jsx:15 | the grouping is empty if and only if there are no leaves, which is when the empty-state message shows |
| TaskList.GroupSizesSum | client/src/components/TaskList.jsx:13-18 | the group sizes add up to the number of leaves |

## Left out

- The dagre graph layout inside `getLayoutedElements` (`client/src/store/useStore.js:16-43`) is a foreign library call. Its result enters the model as the parameter `centre` of `Store.Store.FetchTree` and `Flow.Place`. The constant `targetPosition`/`sourcePosition` fields it adds are not modelled.
- The `onFocus` callback stored in each node's `data` is a closure over the store. The model's `NodeData` leaves it out. The field JavaScript calls `data.label` is `title` in the model.
- `onNodesChange`/`onEdgesChange` are left out: they are thin calls into the reactflow library.
- `fetchLeaves`, `addChild`, `deleteNode`, `renameNode` and `toggleTask` are left out: their bodies are placeholders.
- The HTTP layer is not modelled: axios calls, Express routing, request parsing and response codes. A failed `fetchTree` request is the `None` response of `Store.Store.FetchTree`.
- Database behaviour is not modelled:
  - the SQL of the list, leaves and delete queries;
  - how PostgreSQL executes the built statement;
  - the INSERT's other parameters.
- The focus-mode scoring is not modelled: it depends on the clock, floating-point ages and randomness.
- The presentational components are not modelled:
  - `MindMapNode.jsx`, `FocusMode.jsx` (with its timer) and `GlobalModal.jsx`;
  - the rendering parts of `TaskList.jsx`;
  - the vite config.
- The display order of the task-list groups is not claimed. `Object.keys` order is a JavaScript engine rule, and the grouping is modelled as a `map`.
- `Kin.Explore` visits ids in worklist order rather than in the recursion order of `traverse`. Only the final `visited` and `relatives` sets are stated, and they do not depend on that order.
- JavaScript numbers are modelled loosely:
  - `Server.PriorityOrDefault` treats numbers as exact reals, so `NaN`, which is falsy, is not modelled.
  - Opacities and positions are exact reals, not doubles. For the whole numbers the layout produces, the two agree.
- `Layout.LayoutNodes` requires every `parentNode` chain to end. On a cyclic chain the source's `while (p)` never stops, as `Layout.SelfParentNeverEnds` shows, so there is no result to model.
