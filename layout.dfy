/**
 * The level layout `getLayoutedNodes` of client/src/App.jsx: each node's depth
 * is the number of `parentNode` hops above it, nodes are bucketed into levels
 * by depth in input order, and each node is placed by its depth and its index
 * within its level.
 */
module Layout {
  import opened Wrappers
  import opened Decimal
  import opened Records
  import opened Flow

  /** JavaScript truthiness of a `parentNode` value: absent and `""` are falsy. */
  predicate Linked(p: Option<string>) {
    p.Some? && p.value != ""
  }

  /** `nodes.find(n => n.id === id)`. */
  function Find(nodes: seq<FlowNode>, id: string): Option<FlowNode> {
    if nodes == [] then None
    else if nodes[0].id == id then Some(nodes[0])
    else Find(nodes[1..], id)
  }

  /** `Find` gives the first node with that id, and nothing exactly when no node has it. */
  lemma {:induction false} FindFirst(nodes: seq<FlowNode>, id: string)
    ensures Find(nodes, id).None? <==> forall i :: 0 <= i < |nodes| ==> nodes[i].id != id
    ensures Find(nodes, id).Some? ==> Find(nodes, id).value.id == id && exists i :: (0 <= i < |nodes| &&
      nodes[i] == Find(nodes, id).value && forall j :: 0 <= j < i ==> nodes[j].id != id)
    decreases |nodes|
  {
    if nodes != [] && nodes[0].id != id {
      var rest := nodes[1..];
      FindFirst(rest, id);
      assert forall i :: 0 < i < |nodes| ==> nodes[i] == rest[i - 1];
      if Find(rest, id).Some? {
        var i :| 0 <= i < |rest| && rest[i] == Find(rest, id).value && forall j :: 0 <= j < i ==> rest[j].id != id;
        assert nodes[i + 1] == Find(nodes, id).value;
      }
    } else if nodes != [] {
      assert nodes[0] == Find(nodes, id).value;
    }
  }

  /** `p = parent ? parent.parentNode : null`: one hop up; an id naming no node ends the chain. */
  function Hop(nodes: seq<FlowNode>, p: Option<string>): Option<string>
    requires Linked(p)
  {
    match Find(nodes, p.value)
    case Some(parent) => parent.parentNode
    case None => None
  }

  /** The value of `p` after `k` rounds of the `while (p)` loop (unchanged once it is falsy). */
  ghost function Chain(nodes: seq<FlowNode>, p: Option<string>, k: nat): Option<string>
    decreases k
  {
    if k == 0 then p
    else
      var q := Chain(nodes, p, k - 1);
      if Linked(q) then Hop(nodes, q) else q
  }

  /** `d` is the number of hops: the chain is falsy after `d` hops and not before. */
  ghost predicate IsDepth(nodes: seq<FlowNode>, p: Option<string>, d: nat) {
    !Linked(Chain(nodes, p, d)) && forall j :: 0 <= j < d ==> Linked(Chain(nodes, p, j))
  }

  /** The `while (p)` loop stops: the chain from `p` is acyclic. */
  ghost predicate ChainEnds(nodes: seq<FlowNode>, p: Option<string>) {
    exists k: nat :: !Linked(Chain(nodes, p, k))
  }

  ghost predicate AllChainsEnd(nodes: seq<FlowNode>) {
    forall i :: 0 <= i < |nodes| ==> ChainEnds(nodes, nodes[i].parentNode)
  }

  lemma {:induction false} DepthExists(nodes: seq<FlowNode>, p: Option<string>, k: nat)
    requires !Linked(Chain(nodes, p, k))
    ensures exists d: nat :: d <= k && IsDepth(nodes, p, d)
    decreases k
  {
    if forall j :: 0 <= j < k ==> Linked(Chain(nodes, p, j)) {
      assert IsDepth(nodes, p, k);
    } else {
      var j :| 0 <= j < k && !Linked(Chain(nodes, p, j));
      DepthExists(nodes, p, j);
    }
  }

  lemma DepthUnique(nodes: seq<FlowNode>, p: Option<string>, d1: nat, d2: nat)
    requires IsDepth(nodes, p, d1) && IsDepth(nodes, p, d2)
    ensures d1 == d2
  {
  }

  /** The depth of a node whose `parentNode` is `p`. */
  ghost function Depth(nodes: seq<FlowNode>, p: Option<string>): (d: nat)
    requires ChainEnds(nodes, p)
    ensures IsDepth(nodes, p, d)
  {
    var k: nat :| !Linked(Chain(nodes, p, k));
    DepthExists(nodes, p, k);
    var d: nat :| IsDepth(nodes, p, d);
    d
  }

  /** The `let depth = 0; let p = node.parentNode; while (p) { ... }` loop. */
  method ChainDepth(nodes: seq<FlowNode>, start: Option<string>) returns (depth: nat)
    requires ChainEnds(nodes, start)
    ensures depth == Depth(nodes, start)
  {
    ghost var bound: nat :| !Linked(Chain(nodes, start, bound));
    depth := 0;
    var p := start;
    while Linked(p)
      invariant p == Chain(nodes, start, depth)
      invariant forall j :: 0 <= j < depth ==> Linked(Chain(nodes, start, j))
      invariant depth <= bound
      decreases bound - depth
    {
      depth := depth + 1;
      p := Hop(nodes, p);
    }
    DepthUnique(nodes, start, depth, Depth(nodes, start));
  }

  lemma {:induction false} ChainShift(nodes: seq<FlowNode>, p: Option<string>, k: nat)
    requires Linked(p)
    ensures Chain(nodes, p, k + 1) == Chain(nodes, Hop(nodes, p), k)
    decreases k
  {
    if k > 0 { ChainShift(nodes, p, k - 1); }
  }

  lemma HopDepth(nodes: seq<FlowNode>, p: Option<string>)
    requires ChainEnds(nodes, p) && Linked(p)
    ensures ChainEnds(nodes, Hop(nodes, p)) && Depth(nodes, p) == 1 + Depth(nodes, Hop(nodes, p))
  {
    var d := Depth(nodes, p);
    var next := Hop(nodes, p);
    assert d >= 1 by { assert Chain(nodes, p, 0) == p; }
    ChainShift(nodes, p, d - 1);
    forall j | 0 <= j < d - 1 ensures Linked(Chain(nodes, next, j)) {
      ChainShift(nodes, p, j);
      assert Linked(Chain(nodes, p, j + 1));
    }
    assert IsDepth(nodes, next, d - 1);
    DepthUnique(nodes, next, d - 1, Depth(nodes, next));
  }

  lemma UnlinkedDepth(nodes: seq<FlowNode>, p: Option<string>)
    requires !Linked(p)
    ensures ChainEnds(nodes, p) && Depth(nodes, p) == 0
  {
    assert !Linked(Chain(nodes, p, 0));
    DepthUnique(nodes, p, Depth(nodes, p), 0);
  }

  /**
   * Depth counts hops: no parent is depth 0; a parent id naming no node still
   * counts one hop and stops there; a parent that is present adds one to its own depth.
   */
  lemma DepthCountsHops(nodes: seq<FlowNode>, p: Option<string>)
    requires ChainEnds(nodes, p)
    ensures !Linked(p) ==> Depth(nodes, p) == 0
    ensures Linked(p) && Find(nodes, p.value).None? ==> Depth(nodes, p) == 1
    ensures Linked(p) ==> ChainEnds(nodes, Hop(nodes, p)) && Depth(nodes, p) == 1 + Depth(nodes, Hop(nodes, p))
  {
    if !Linked(p) {
      UnlinkedDepth(nodes, p);
    } else {
      HopDepth(nodes, p);
      if Find(nodes, p.value).None? {
        UnlinkedDepth(nodes, Hop(nodes, p));
      }
    }
  }

  /** A node whose `parentNode` is its own id: the `while (p)` loop never stops. */
  lemma {:induction false} SelfParentNeverEnds(node: FlowNode, k: nat)
    requires node.id != "" && node.parentNode == Some(node.id)
    ensures Chain([node], node.parentNode, k) == Some(node.id)
    decreases k
  {
    if k > 0 {
      SelfParentNeverEnds(node, k - 1);
      assert Find([node], node.id) == Some(node);
    }
  }

  ghost function DepthAt(nodes: seq<FlowNode>, i: nat): nat
    requires AllChainsEnd(nodes) && i < |nodes|
  {
    Depth(nodes, nodes[i].parentNode)
  }

  /** The nodes among the first `n` whose depth is `d`, in input order: `levels[d]` after `n` pushes. */
  ghost function LevelUpTo(nodes: seq<FlowNode>, d: nat, n: nat): seq<FlowNode>
    requires AllChainsEnd(nodes) && n <= |nodes|
  {
    if n == 0 then [] else LevelUpTo(nodes, d, n - 1) + (if DepthAt(nodes, n - 1) == d then [nodes[n - 1]] else [])
  }

  ghost function Level(nodes: seq<FlowNode>, d: nat): seq<FlowNode>
    requires AllChainsEnd(nodes)
  {
    LevelUpTo(nodes, d, |nodes|)
  }

  /** `level.findIndex(n => n.id === id)`: the first index holding that id, or -1. */
  function FirstIndex(level: seq<FlowNode>, id: string): (k: int)
    ensures -1 <= k < |level|
    ensures k == -1 <==> forall j :: 0 <= j < |level| ==> level[j].id != id
    ensures k >= 0 ==> level[k].id == id && forall j :: 0 <= j < k ==> level[j].id != id
  {
    if level == [] then -1
    else if level[0].id == id then 0
    else
      var k := FirstIndex(level[1..], id);
      assert forall j :: 1 <= j < |level| ==> level[j] == level[1..][j - 1];
      if k == -1 then -1 else k + 1
  }

  /** Where the layout puts node `i`: `x = 200 * index - 100 * total + 100`, `y = 150 * depth`. */
  ghost function Slot(nodes: seq<FlowNode>, i: nat): Position
    requires AllChainsEnd(nodes) && i < |nodes|
  {
    var d := DepthAt(nodes, i);
    var level := Level(nodes, d);
    Position((200 * FirstIndex(level, nodes[i].id) - 100 * |level| + 100) as real, (d as real) * 150.0)
  }

  /** The number of nodes before `i` at the same depth. */
  ghost function Rank(nodes: seq<FlowNode>, i: nat): nat
    requires AllChainsEnd(nodes) && i < |nodes|
  {
    |LevelUpTo(nodes, DepthAt(nodes, i), i)|
  }

  lemma {:induction false} LevelPrefix(nodes: seq<FlowNode>, d: nat, n: nat, m: nat)
    requires AllChainsEnd(nodes) && n <= m <= |nodes|
    ensures |LevelUpTo(nodes, d, n)| <= |LevelUpTo(nodes, d, m)|
    ensures LevelUpTo(nodes, d, m)[..|LevelUpTo(nodes, d, n)|] == LevelUpTo(nodes, d, n)
    decreases m - n
  {
    if n < m {
      LevelPrefix(nodes, d, n, m - 1);
      var a, b := LevelUpTo(nodes, d, m - 1), LevelUpTo(nodes, d, m);
      assert b[..|a|] == a;
    }
  }

  /** Every node of a level comes from earlier in the input and has that level's depth. */
  lemma {:induction false} LevelMembers(nodes: seq<FlowNode>, d: nat, n: nat, k: nat)
    requires AllChainsEnd(nodes) && n <= |nodes| && k < |LevelUpTo(nodes, d, n)|
    ensures exists j :: 0 <= j < n && LevelUpTo(nodes, d, n)[k] == nodes[j] && DepthAt(nodes, j) == d
    decreases n
  {
    if k < |LevelUpTo(nodes, d, n - 1)| {
      LevelMembers(nodes, d, n - 1, k);
    } else {
      assert LevelUpTo(nodes, d, n)[k] == nodes[n - 1];
    }
  }

  /**
   * The levels partition the nodes by depth, in input order: node `i` sits at
   * index `Rank(i)` of the level of its own depth, and every member of a level has that depth.
   */
  lemma LevelPosition(nodes: seq<FlowNode>, i: nat)
    requires AllChainsEnd(nodes) && i < |nodes|
    ensures Rank(nodes, i) < |Level(nodes, DepthAt(nodes, i))|
    ensures Level(nodes, DepthAt(nodes, i))[Rank(nodes, i)] == nodes[i]
  {
    var d := DepthAt(nodes, i);
    LevelPrefix(nodes, d, i + 1, |nodes|);
    assert LevelUpTo(nodes, d, i + 1)[Rank(nodes, i)] == nodes[i];
  }

  /** Two nodes at the same depth keep their input order within the level. */
  lemma RankOrdered(nodes: seq<FlowNode>, i: nat, j: nat)
    requires AllChainsEnd(nodes) && i < j < |nodes| && DepthAt(nodes, i) == DepthAt(nodes, j)
    ensures Rank(nodes, i) < Rank(nodes, j)
  {
    LevelPrefix(nodes, DepthAt(nodes, i), i + 1, j);
  }

  ghost predicate UniqueIds(nodes: seq<FlowNode>) {
    forall i, j :: 0 <= i < j < |nodes| ==> nodes[i].id != nodes[j].id
  }

  /** With distinct ids, `findIndex` in a node's level finds the node's own rank. */
  lemma FirstIndexIsRank(nodes: seq<FlowNode>, i: nat)
    requires AllChainsEnd(nodes) && UniqueIds(nodes) && i < |nodes|
    ensures FirstIndex(Level(nodes, DepthAt(nodes, i)), nodes[i].id) == Rank(nodes, i)
  {
    var d := DepthAt(nodes, i);
    var level := Level(nodes, d);
    LevelPosition(nodes, i);
    LevelPrefix(nodes, d, i, |nodes|);
    forall k | 0 <= k < Rank(nodes, i) ensures level[k].id != nodes[i].id {
      assert level[k] == LevelUpTo(nodes, d, i)[k];
      LevelMembers(nodes, d, i, k);
    }
  }

  /**
   * With distinct ids, nodes at the same depth share a row and sit 200 apart
   * per step of rank, so no two of them share an x position.
   */
  lemma SameLevelSpacing(nodes: seq<FlowNode>, i: nat, j: nat)
    requires AllChainsEnd(nodes) && UniqueIds(nodes) && i < j < |nodes| && DepthAt(nodes, i) == DepthAt(nodes, j)
    ensures Slot(nodes, i).y == Slot(nodes, j).y
    ensures Slot(nodes, j).x - Slot(nodes, i).x == (200 * (Rank(nodes, j) - Rank(nodes, i))) as real
    ensures Slot(nodes, j).x - Slot(nodes, i).x >= 200.0
  {
    FirstIndexIsRank(nodes, i);
    FirstIndexIsRank(nodes, j);
    RankOrdered(nodes, i, j);
  }

  /** `levels` after the first `n` pushes: each used depth holds its level so far, and only used depths are keys, so no level is empty. */
  ghost predicate Bucketed(nodes: seq<FlowNode>, levels: map<nat, seq<FlowNode>>, n: nat)
    requires AllChainsEnd(nodes) && n <= |nodes|
  {
    && (forall d :: d in levels ==> levels[d] == LevelUpTo(nodes, d, n))
    && (forall d :: d !in levels ==> LevelUpTo(nodes, d, n) == [])
    && (forall d :: d in levels ==> levels[d] != [])
  }

  /** `if (!levels[depth]) levels[depth] = []; levels[depth].push(node)` adds node `i` to its level. */
  lemma BucketNext(nodes: seq<FlowNode>, levels: map<nat, seq<FlowNode>>, i: nat, depth: nat)
    requires AllChainsEnd(nodes) && i < |nodes| && Bucketed(nodes, levels, i) && depth == DepthAt(nodes, i)
    ensures var created := if depth in levels then levels else levels[depth := []];
      Bucketed(nodes, created[depth := created[depth] + [nodes[i]]], i + 1)
  {
  }

  /** The position `getLayoutedNodes` gives a node of `level` with id `id` at depth `depth`. */
  function PositionFor(level: seq<FlowNode>, id: string, depth: nat): Position {
    var indexInLevel := FirstIndex(level, id);
    var totalInLevel := |level|;
    Position((indexInLevel as real - totalInLevel as real / 2.0) * 200.0 + 100.0, depth as real * 150.0)
  }

  /** Once all nodes are bucketed, the source's position formula gives node `i` its slot. */
  lemma SlotFromLevels(nodes: seq<FlowNode>, levels: map<nat, seq<FlowNode>>, i: nat, depth: nat)
    requires AllChainsEnd(nodes) && i < |nodes| && Bucketed(nodes, levels, |nodes|) && depth == DepthAt(nodes, i)
    ensures depth in levels
    ensures PositionFor(levels[depth], nodes[i].id, depth) == Slot(nodes, i)
  {
    LevelPosition(nodes, i);
    var level := levels[depth];
    var k := FirstIndex(level, nodes[i].id);
    assert (k as real - |level| as real / 2.0) * 200.0 + 100.0 == (200 * k - 100 * |level| + 100) as real;
  }

  /** The first phase of `getLayoutedNodes`: push every node onto the level of its depth, in input order. */
  method BucketLevels(nodes: seq<FlowNode>) returns (levels: map<nat, seq<FlowNode>>)
    requires AllChainsEnd(nodes)
    ensures Bucketed(nodes, levels, |nodes|)
  {
    levels := map[];
    var i := 0;
    while i < |nodes|
      invariant 0 <= i <= |nodes|
      invariant Bucketed(nodes, levels, i)
    {
      var depth := ChainDepth(nodes, nodes[i].parentNode);
      ghost var before := levels;
      if depth !in levels {
        levels := levels[depth := []];
      }
      ghost var created := levels;
      assert created == if depth in before then before else before[depth := []];
      levels := levels[depth := levels[depth] + [nodes[i]]];
      BucketNext(nodes, before, i, depth);
      i := i + 1;
    }
  }

  /** Node `i`, moved to its slot. */
  ghost function Placed(nodes: seq<FlowNode>, i: nat): FlowNode
    requires AllChainsEnd(nodes) && i < |nodes|
  {
    nodes[i].(position := Slot(nodes, i))
  }

  /** One round of the final `map`: appending node `i` at its computed position extends the placed prefix. */
  lemma PlaceNext(nodes: seq<FlowNode>, levels: map<nat, seq<FlowNode>>, laidOut: seq<FlowNode>, i: nat, depth: nat)
    requires AllChainsEnd(nodes) && i < |nodes| && Bucketed(nodes, levels, |nodes|) && depth == DepthAt(nodes, i)
    requires |laidOut| == i && forall j :: 0 <= j < i ==> laidOut[j] == Placed(nodes, j)
    ensures depth in levels
    ensures var next := laidOut + [nodes[i].(position := PositionFor(levels[depth], nodes[i].id, depth))];
      forall j :: 0 <= j < i + 1 ==> next[j] == Placed(nodes, j)
  {
    SlotFromLevels(nodes, levels, i, depth);
  }

  /**
   * `getLayoutedNodes`: the same nodes in the same order, each moved to its
   * slot and otherwise unchanged. The `x` the source computes,
   * `(indexInLevel - totalInLevel / 2) * 200 + 100`, is always a whole number.
   */
  method LayoutNodes(nodes: seq<FlowNode>) returns (laidOut: seq<FlowNode>)
    requires AllChainsEnd(nodes)
    ensures |laidOut| == |nodes|
    ensures forall i :: 0 <= i < |nodes| ==> laidOut[i] == Placed(nodes, i)
  {
    if |nodes| == 0 {
      return [];
    }
    var levels := BucketLevels(nodes);
    laidOut := [];
    var i := 0;
    while i < |nodes|
      invariant 0 <= i <= |nodes|
      invariant |laidOut| == i
      invariant forall j :: 0 <= j < i ==> laidOut[j] == Placed(nodes, j)
    {
      var depth := ChainDepth(nodes, nodes[i].parentNode);
      PlaceNext(nodes, levels, laidOut, i, depth);
      laidOut := laidOut + [nodes[i].(position := PositionFor(levels[depth], nodes[i].id, depth))];
      i := i + 1;
    }
  }

  /**
   * The nodes `fetchTree` builds never set `parentNode` (the parent id lives in
   * `data.parentId`), so this layout puts every fetched node at depth 0, on one
   * row, ordered as the rows are.
   */
  lemma FetchedNodesLieFlat(rows: seq<Row>, centre: string -> Position, i: nat)
    requires i < |rows|
    requires forall a, b :: 0 <= a < b < |rows| ==> rows[a].id != rows[b].id
    ensures AllChainsEnd(Place(ToFlowNodes(rows), centre))
    ensures Slot(Place(ToFlowNodes(rows), centre), i) == Position((200 * i - 100 * |rows| + 100) as real, 0.0)
  {
    var nodes := Place(ToFlowNodes(rows), centre);
    assert forall j :: 0 <= j < |nodes| ==> nodes[j].parentNode.None?;
    forall j | 0 <= j < |nodes| ensures ChainEnds(nodes, nodes[j].parentNode) && DepthAt(nodes, j) == 0 {
      assert !Linked(Chain(nodes, nodes[j].parentNode, 0));
      DepthUnique(nodes, nodes[j].parentNode, Depth(nodes, nodes[j].parentNode), 0);
    }
    NodeIdsFaithful(rows);
    assert UniqueIds(nodes);
    FirstIndexIsRank(nodes, i);
    AllFlat(nodes, i);
    AllFlat(nodes, |nodes|);
  }

  lemma {:induction false} AllFlat(nodes: seq<FlowNode>, n: nat)
    requires AllChainsEnd(nodes) && n <= |nodes|
    requires forall j :: 0 <= j < |nodes| ==> DepthAt(nodes, j) == 0
    ensures LevelUpTo(nodes, 0, n) == nodes[..n]
    decreases n
  {
    if n > 0 {
      AllFlat(nodes, n - 1);
      assert nodes[..n] == nodes[..n - 1] + [nodes[n - 1]];
    }
  }
}
