/**
 * The graph records the client hands to the drawing library, and the
 * conversion of the server's flat task rows into them (the body of
 * `fetchTree` in client/src/store/useStore.js).
 */
module Flow {
  import opened Wrappers
  import opened Decimal
  import opened Records

  datatype Position = Position(x: real, y: real)

  const ORIGIN := Position(0.0, 0.0)

  /** Half of the node box the external layout is told about (280 by 140). */
  const HALF_WIDTH: real := 140.0
  const HALF_HEIGHT: real := 70.0

  /** The `data` payload of a node (`title` is its `label`); the `onFocus` callback is not modelled. */
  datatype NodeData = NodeData(title: string, priority: int, isCompleted: bool, id: int, parentId: Option<int>)

  /** A node's `style` object: each field may be absent. */
  datatype NodeStyle = NodeStyle(opacity: Option<real>, pointerEvents: Option<string>)

  const NO_NODE_STYLE := NodeStyle(None, None)

  datatype FlowNode = FlowNode(
    id: string,
    kind: string,
    hidden: bool,
    data: NodeData,
    position: Position,
    style: NodeStyle,
    parentNode: Option<string>)

  /** An edge's `style` object: each field may be absent. */
  datatype EdgeStyle = EdgeStyle(stroke: Option<string>, strokeWidth: Option<int>, opacity: Option<real>)

  /** An edge; `hidden` is absent until the first un-focus sets it. */
  datatype FlowEdge = FlowEdge(
    id: string,
    source: string,
    target: string,
    kind: string,
    animated: bool,
    hidden: Option<bool>,
    style: EdgeStyle)

  const PLAIN_STROKE := "#555"

  /** The style `fetchTree` gives every edge. */
  const NO_EDGE_STYLE := EdgeStyle(Some(PLAIN_STROKE), None, None)

  function RowToNode(row: Row): FlowNode {
    FlowNode(
      IntToString(row.id), "mindMap", false,
      NodeData(row.title, row.priority, row.isCompleted, row.id, row.parentId),
      ORIGIN, NO_NODE_STYLE, None)
  }

  /** One node per row, in row order, visible, at the origin, named by the row id. */
  function ToFlowNodes(rows: seq<Row>): (nodes: seq<FlowNode>)
    ensures |nodes| == |rows|
    ensures forall i :: 0 <= i < |rows| ==>
      && nodes[i].id == IntToString(rows[i].id)
      && !nodes[i].hidden
      && nodes[i].position == ORIGIN
      && nodes[i].kind == "mindMap"
      && nodes[i].style == NO_NODE_STYLE
      && nodes[i].parentNode.None?
      && nodes[i].data == NodeData(rows[i].title, rows[i].priority, rows[i].isCompleted, rows[i].id, rows[i].parentId)
  {
    seq(|rows|, i requires 0 <= i < |rows| => RowToNode(rows[i]))
  }

  /** `data.filter(n => n.parent_id)`: the rows whose parent id is truthy, in row order. */
  function WithParent(rows: seq<Row>): (kept: seq<Row>)
    ensures |kept| <= |rows|
  {
    if rows == [] then []
    else (if HasParent(rows[0]) then [rows[0]] else []) + WithParent(rows[1..])
  }

  /** The filter keeps exactly the rows with a truthy parent id. */
  lemma {:induction false} WithParentMembers(rows: seq<Row>)
    ensures forall r :: r in WithParent(rows) <==> r in rows && HasParent(r)
  {
    if rows != [] {
      WithParentMembers(rows[1..]);
      assert forall r :: r in rows <==> r == rows[0] || r in rows[1..];
    }
  }

  /** Filtering distributes over concatenation, so it keeps the rows' relative order. */
  lemma {:induction false} WithParentAppend(a: seq<Row>, b: seq<Row>)
    ensures WithParent(a + b) == WithParent(a) + WithParent(b)
  {
    if a == [] {
      assert a + b == b;
    } else {
      var ab := a + b;
      assert ab[0] == a[0] && ab[1..] == a[1..] + b;
      calc {
        WithParent(ab);
        (if HasParent(a[0]) then [a[0]] else []) + WithParent(a[1..] + b);
        { WithParentAppend(a[1..], b); }
        (if HasParent(a[0]) then [a[0]] else []) + (WithParent(a[1..]) + WithParent(b));
      }
    }
  }

  function EdgeId(parent: int, child: int): string {
    "e" + IntToString(parent) + "-" + IntToString(child)
  }

  function RowToEdge(row: Row): FlowEdge
    requires HasParent(row)
  {
    FlowEdge(
      EdgeId(row.parentId.value, row.id),
      IntToString(row.parentId.value), IntToString(row.id),
      "smoothstep", true, None, NO_EDGE_STYLE)
  }

  /** One edge per row with a truthy parent id, in row order, from the parent to the row. */
  function ToFlowEdges(rows: seq<Row>): (edges: seq<FlowEdge>)
    ensures |edges| == |WithParent(rows)|
    ensures forall k :: 0 <= k < |edges| ==>
      var row := WithParent(rows)[k];
      && row in rows && HasParent(row)
      && edges[k].id == EdgeId(row.parentId.value, row.id)
      && edges[k].source == IntToString(row.parentId.value)
      && edges[k].target == IntToString(row.id)
      && edges[k].kind == "smoothstep" && edges[k].animated
      && edges[k].style == NO_EDGE_STYLE
      && edges[k].hidden.None?
  {
    var kept := WithParent(rows);
    WithParentMembers(rows);
    seq(|kept|, k requires 0 <= k < |kept| => RowToEdge(kept[k]))
  }

  /** Distinct row ids give distinct node ids, and every node id reads back as its row id. */
  lemma NodeIdsFaithful(rows: seq<Row>)
    ensures forall i :: 0 <= i < |rows| ==>
      IsNumeral(ToFlowNodes(rows)[i].id) && ParseInt(ToFlowNodes(rows)[i].id) == rows[i].id
    ensures (forall i, j :: 0 <= i < j < |rows| ==> rows[i].id != rows[j].id) ==>
      forall i, j :: 0 <= i < j < |rows| ==> ToFlowNodes(rows)[i].id != ToFlowNodes(rows)[j].id
  {
    var nodes := ToFlowNodes(rows);
    forall i | 0 <= i < |rows|
      ensures IsNumeral(nodes[i].id) && ParseInt(nodes[i].id) == rows[i].id
    {
      ParseIntToString(rows[i].id);
    }
    forall i, j | 0 <= i < j < |rows| && rows[i].id != rows[j].id
      ensures nodes[i].id != nodes[j].id
    {
      IntToStringInjective(rows[i].id, rows[j].id);
    }
  }

  /** Every edge ends at the node of its row, and starts at the node of its parent when that row is present. */
  lemma EdgesJoinNodes(rows: seq<Row>, k: nat)
    requires k < |ToFlowEdges(rows)|
    ensures exists i :: 0 <= i < |rows| && ToFlowEdges(rows)[k].target == ToFlowNodes(rows)[i].id
    ensures (exists j :: 0 <= j < |rows| && Some(rows[j].id) == WithParent(rows)[k].parentId) ==>
      exists j :: 0 <= j < |rows| && ToFlowEdges(rows)[k].source == ToFlowNodes(rows)[j].id
  {
    var row := WithParent(rows)[k];
    assert row in rows;
    var i :| 0 <= i < |rows| && rows[i] == row;
    assert ToFlowEdges(rows)[k].target == ToFlowNodes(rows)[i].id;
  }

  /**
   * The positions the external graph layout assigns: `centre(id)` is the centre it
   * computes for the node named `id`, and the node's corner is half a box up and left.
   */
  function Place(nodes: seq<FlowNode>, centre: string -> Position): (placed: seq<FlowNode>)
    ensures |placed| == |nodes|
    ensures forall i :: 0 <= i < |nodes| ==>
      && placed[i].(position := nodes[i].position) == nodes[i]
      && placed[i].position.x + HALF_WIDTH == centre(nodes[i].id).x
      && placed[i].position.y + HALF_HEIGHT == centre(nodes[i].id).y
  {
    seq(|nodes|, i requires 0 <= i < |nodes| =>
      var c := centre(nodes[i].id);
      nodes[i].(position := Position(c.x - HALF_WIDTH, c.y - HALF_HEIGHT)))
  }
}
