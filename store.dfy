/**
 * The client store of client/src/store/useStore.js: the graph's nodes and
 * edges and the focused node, with `fetchTree` and the `setFocus` toggle.
 */
module Store {
  import opened Wrappers
  import opened Records
  import opened Flow
  import opened Kin

  const PATH_STROKE := "#3b82f6"
  const DIM_STROKE := "#333"

  /** The style of a relative of the focused node: opaque and clickable. */
  const RELATIVE_STYLE := NodeStyle(Some(1.0), Some("all"))
  /** The style of any other node: faint and not clickable. */
  const STRANGER_STYLE := NodeStyle(Some(0.1), Some("none"))
  /** The style every node gets when focus is cleared. */
  const SHOWN_STYLE := NodeStyle(Some(1.0), None)

  const PATH_EDGE_STYLE := EdgeStyle(Some(PATH_STROKE), Some(3), Some(1.0))
  const DIM_EDGE_STYLE := EdgeStyle(Some(DIM_STROKE), Some(1), Some(0.1))

  /** Step 3 of `setFocus`: every node is restyled by whether it is a relative; nothing else changes. */
  function FocusNodes(nodes: seq<FlowNode>, relatives: set<string>): (styled: seq<FlowNode>)
    ensures |styled| == |nodes|
    ensures forall i :: 0 <= i < |nodes| ==> styled[i].(style := nodes[i].style) == nodes[i]
    ensures forall i :: 0 <= i < |nodes| ==>
      && (styled[i].style.opacity == Some(1.0) <==> nodes[i].id in relatives)
      && (styled[i].style.pointerEvents == Some("all") <==> nodes[i].id in relatives)
      && (nodes[i].id !in relatives ==> styled[i].style == STRANGER_STYLE)
  {
    seq(|nodes|, i requires 0 <= i < |nodes| =>
      nodes[i].(style := if nodes[i].id in relatives then RELATIVE_STYLE else STRANGER_STYLE))
  }

  /** An edge is on the highlighted path when both its ends are relatives. */
  predicate OnPath(e: FlowEdge, relatives: set<string>) {
    e.source in relatives && e.target in relatives
  }

  /** Step 4 of `setFocus`: every edge's style is replaced by the path style or the dim style. */
  function FocusEdges(edges: seq<FlowEdge>, relatives: set<string>): (styled: seq<FlowEdge>)
    ensures |styled| == |edges|
    ensures forall i :: 0 <= i < |edges| ==> styled[i].(style := edges[i].style) == edges[i]
    ensures forall i :: 0 <= i < |edges| ==>
      && (styled[i].style == PATH_EDGE_STYLE <==> OnPath(edges[i], relatives))
      && (!OnPath(edges[i], relatives) ==> styled[i].style == DIM_EDGE_STYLE)
  {
    seq(|edges|, i requires 0 <= i < |edges| =>
      edges[i].(style := if OnPath(edges[i], relatives) then PATH_EDGE_STYLE else DIM_EDGE_STYLE))
  }

  /** Clearing focus: every node is shown at full opacity; its old style is dropped. */
  function ResetNodes(nodes: seq<FlowNode>): (shown: seq<FlowNode>)
    ensures |shown| == |nodes|
    ensures forall i :: 0 <= i < |nodes| ==>
      && !shown[i].hidden
      && shown[i].style == SHOWN_STYLE
      && shown[i].(hidden := nodes[i].hidden, style := nodes[i].style) == nodes[i]
  {
    seq(|nodes|, i requires 0 <= i < |nodes| => nodes[i].(hidden := false, style := SHOWN_STYLE))
  }

  /** Clearing focus: every edge is shown with the plain stroke at full opacity; its stroke width is kept. */
  function ResetEdges(edges: seq<FlowEdge>): (shown: seq<FlowEdge>)
    ensures |shown| == |edges|
    ensures forall i :: 0 <= i < |edges| ==>
      && shown[i].hidden == Some(false)
      && shown[i].style.stroke == Some(Flow.PLAIN_STROKE)
      && shown[i].style.opacity == Some(1.0)
      && shown[i].style.strokeWidth == edges[i].style.strokeWidth
      && shown[i].(hidden := edges[i].hidden, style := edges[i].style) == edges[i]
  {
    seq(|edges|, i requires 0 <= i < |edges| =>
      edges[i].(hidden := Some(false), style := edges[i].style.(stroke := Some(Flow.PLAIN_STROKE), opacity := Some(1.0))))
  }

  /** The edge styles after focusing do not depend on the styles before: a new focus leaves nothing stale. */
  lemma FocusEdgesForgetsStyle(a: seq<FlowEdge>, b: seq<FlowEdge>, relatives: set<string>)
    requires |a| == |b|
    requires forall i :: 0 <= i < |a| ==> a[i].(style := b[i].style) == b[i]
    ensures FocusEdges(a, relatives) == FocusEdges(b, relatives)
  {
    var fa, fb := FocusEdges(a, relatives), FocusEdges(b, relatives);
    forall i | 0 <= i < |a| ensures fa[i] == fb[i] {
      assert a[i].source == b[i].source && a[i].target == b[i].target;
    }
  }

  /**
   * Clearing focus keeps an edge's stroke width, so an edge that was on the
   * highlighted path keeps width 3 after focus is cleared and every other edge keeps width 1.
   */
  lemma ResetKeepsPathWidth(edges: seq<FlowEdge>, relatives: set<string>, i: nat)
    requires i < |edges|
    ensures ResetEdges(FocusEdges(edges, relatives))[i].style.strokeWidth ==
      if OnPath(edges[i], relatives) then Some(3) else Some(1)
  {
    var styled := FocusEdges(edges, relatives);
    assert styled[i].style == if OnPath(edges[i], relatives) then PATH_EDGE_STYLE else DIM_EDGE_STYLE;
  }

  class Store {
    var nodes: seq<FlowNode>
    var edges: seq<FlowEdge>
    var focusedNodeId: Option<string>

    constructor ()
      ensures nodes == [] && edges == [] && focusedNodeId == None
    {
      nodes, edges, focusedNodeId := [], [], None;
    }

    /**
     * `fetchTree`: on a successful response, the rows become nodes placed by
     * the external layout (`centre`) and edges; on a failed request nothing changes.
     * The focus is left as it was.
     */
    method FetchTree(response: Option<seq<Row>>, centre: string -> Position)
      modifies this
      ensures response.None? ==> nodes == old(nodes) && edges == old(edges)
      ensures response.Some? ==>
        nodes == Place(ToFlowNodes(response.value), centre) && edges == ToFlowEdges(response.value)
      ensures focusedNodeId == old(focusedNodeId)
    {
      if response.Some? {
        var rows := response.value;
        nodes := Place(ToFlowNodes(rows), centre);
        edges := ToFlowEdges(rows);
      }
    }

    /**
     * `setFocus(nodeId)`: selecting the focused node again clears focus and
     * shows everything; selecting any other node focuses it and restyles the
     * nodes and edges by its relatives.
     */
    method SetFocus(nodeId: string)
      modifies this
      ensures old(focusedNodeId) == Some(nodeId) ==>
        && focusedNodeId == None
        && nodes == ResetNodes(old(nodes))
        && edges == ResetEdges(old(edges))
      ensures old(focusedNodeId) != Some(nodeId) ==>
        && focusedNodeId == Some(nodeId)
        && nodes == FocusNodes(old(nodes), RelativeSet(old(edges), nodeId))
        && edges == FocusEdges(old(edges), RelativeSet(old(edges), nodeId))
    {
      if focusedNodeId == Some(nodeId) {
        focusedNodeId := None;
        nodes := ResetNodes(nodes);
        edges := ResetEdges(edges);
        return;
      }
      focusedNodeId := Some(nodeId);
      var relatives := CollectRelatives(edges, nodeId);
      nodes, edges := FocusNodes(nodes, relatives), FocusEdges(edges, relatives);
    }
  }

  /**
   * Selecting a node that is not focused, then selecting it again, clears the
   * focus and leaves every node shown at full opacity, in the same order and
   * with the same ids.
   */
  method SelectTwice(store: Store, nodeId: string)
    requires store.focusedNodeId != Some(nodeId)
    modifies store
    ensures store.focusedNodeId == None
    ensures |store.nodes| == |old(store.nodes)|
    ensures forall i :: 0 <= i < |store.nodes| ==>
      && store.nodes[i].id == old(store.nodes)[i].id
      && !store.nodes[i].hidden
      && store.nodes[i].style == SHOWN_STYLE
  {
    store.SetFocus(nodeId);
    store.SetFocus(nodeId);
  }
}
