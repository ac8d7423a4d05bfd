/** The graph store's local operations on `data.graph`: hiding a node with
    its incident edges, hiding an edge, merging an expanded neighbourhood,
    and the subgraphs derived from a selection. Each is a function on Graph
    values; the methods below build the same maps entry by entry, as the
    store's loops do. */
module GraphOps {
  import opened Elements
  import opened Selection

  /** The edge has `nodeId` at one of its ends. */
  predicate Touches(e: Edge, nodeId: Id)
  {
    e.source == nodeId || e.target == nodeId
  }

  /** The edges that survive hiding `nodeId`: those with neither end there. */
  function WithoutIncident(edges: map<Id, Edge>, nodeId: Id): map<Id, Edge>
  {
    map k | k in edges && !Touches(edges[k], nodeId) :: edges[k]
  }

  /** The edges that survive hiding `edgeId`: the test is on the `id` field. */
  function WithoutEdgeId(edges: map<Id, Edge>, edgeId: Id): map<Id, Edge>
  {
    map k | k in edges && edges[k].id != edgeId :: edges[k]
  }

  /** The graph after `nodeHide(nodeId)`. */
  function NodeHidden(g: Graph, nodeId: Id): Graph
  {
    Graph(g.nodes - {nodeId}, WithoutIncident(g.edges, nodeId))
  }

  /** The graph after `edgeHide(edgeId)`. */
  function EdgeHidden(g: Graph, edgeId: Id): Graph
  {
    Graph(g.nodes, WithoutEdgeId(g.edges, edgeId))
  }

  /** The graph after a successful expand: `Object.assign({}, old, incoming)`
      on both maps, so an incoming entry replaces an existing one. */
  function Merged(g: Graph, incoming: Graph): Graph
  {
    Graph(g.nodes + incoming.nodes, g.edges + incoming.edges)
  }

  /** The entries of `m` whose keys are listed in `ids`. */
  function Restrict<V>(m: map<Id, V>, ids: seq<Id>): map<Id, V>
  {
    map k | k in m && k in ids :: m[k]
  }

  /** The edges with both ends among `ids`. */
  function Induced(edges: map<Id, Edge>, ids: seq<Id>): map<Id, Edge>
  {
    map k | k in edges && edges[k].source in ids && edges[k].target in ids :: edges[k]
  }

  /** The graph that `selectionKeep` installs: the selected nodes, and either
      exactly the selected edges or, when no edge is selected, the subgraph
      induced by the selected nodes. A selected id the graph no longer holds
      is skipped (see KeptNodesAsWritten for what the store does with it). */
  function Kept(g: Graph, selection: seq<Element>): Graph
  {
    var nodeIds := NodeIds(selection);
    var edgeIds := EdgeIds(selection);
    Graph(Restrict(g.nodes, nodeIds),
          if |edgeIds| > 0 then Restrict(g.edges, edgeIds) else Induced(g.edges, nodeIds))
  }

  /** `nodeHide` applied to each id in turn. */
  function HideNodes(g: Graph, ids: seq<Id>): Graph
    decreases |ids|
  {
    if ids == [] then g else HideNodes(NodeHidden(g, ids[0]), ids[1..])
  }

  /** `edgeHide` applied to each id in turn. */
  function HideEdges(g: Graph, ids: seq<Id>): Graph
    decreases |ids|
  {
    if ids == [] then g else HideEdges(EdgeHidden(g, ids[0]), ids[1..])
  }

  /** The graph after `selectionHide`: every selected node hidden, then
      every selected edge. */
  function SelectionHidden(g: Graph, selection: seq<Element>): Graph
  {
    HideEdges(HideNodes(g, NodeIds(selection)), EdgeIds(selection))
  }

  // ---------------------------------------------------------------------
  // The loops that build the new maps key by key.

  /** The `newEdges` loop of `nodeHide`. */
  method CollectEdgesAwayFrom(edges: map<Id, Edge>, nodeId: Id) returns (kept: map<Id, Edge>)
    ensures kept == WithoutIncident(edges, nodeId)
  {
    kept := map[];
    var todo := edges.Keys;
    while todo != {}
      invariant todo <= edges.Keys
      invariant kept == map k | k in edges && k !in todo && !Touches(edges[k], nodeId) :: edges[k]
      decreases todo
    {
      var k :| k in todo;
      if !Touches(edges[k], nodeId) {
        kept := kept[k := edges[k]];
      }
      todo := todo - {k};
    }
  }

  /** The `newEdges` loop of `edgeHide`. */
  method CollectEdgesNotNamed(edges: map<Id, Edge>, edgeId: Id) returns (kept: map<Id, Edge>)
    ensures kept == WithoutEdgeId(edges, edgeId)
  {
    kept := map[];
    var todo := edges.Keys;
    while todo != {}
      invariant todo <= edges.Keys
      invariant kept == map k | k in edges && k !in todo && edges[k].id != edgeId :: edges[k]
      decreases todo
    {
      var k :| k in todo;
      if edges[k].id != edgeId {
        kept := kept[k := edges[k]];
      }
      todo := todo - {k};
    }
  }

  /** The loops of `selectionKeep` that copy the selected nodes or edges;
      an id missing from `m` is skipped. */
  method CollectSelected<V>(m: map<Id, V>, ids: seq<Id>) returns (r: map<Id, V>)
    ensures r == Restrict(m, ids)
  {
    r := map[];
    var i := 0;
    while i < |ids|
      invariant 0 <= i <= |ids|
      invariant r == map k | k in m && k in ids[..i] :: m[k]
    {
      if ids[i] in m {
        r := r[ids[i] := m[ids[i]]];
      }
      i := i + 1;
    }
    assert ids[..i] == ids;
  }

  /** The loop of `selectionKeep` that keeps the edges between selected
      nodes; it stores each edge under its `id` field. */
  method CollectInduced(edges: map<Id, Edge>, nodeIds: seq<Id>) returns (r: map<Id, Edge>)
    requires forall k :: k in edges ==> edges[k].id == k
    ensures r == Induced(edges, nodeIds)
  {
    r := map[];
    var todo := edges.Keys;
    while todo != {}
      invariant todo <= edges.Keys
      invariant r == map k | k in edges && k !in todo && edges[k].source in nodeIds && edges[k].target in nodeIds :: edges[k]
      decreases todo
    {
      var k :| k in todo;
      var e := edges[k];
      if e.source in nodeIds && e.target in nodeIds {
        r := r[e.id := e];
      }
      todo := todo - {k};
    }
  }

  // ---------------------------------------------------------------------
  // Hiding a node.

  /** Hiding a node removes it and every edge at either of its ends, and
      leaves every other node and edge as it was. */
  lemma NodeHideRemovesIncident(g: Graph, nodeId: Id)
    ensures nodeId !in NodeHidden(g, nodeId).nodes
    ensures forall k :: k in NodeHidden(g, nodeId).edges ==> !Touches(NodeHidden(g, nodeId).edges[k], nodeId)
    ensures forall n :: n in g.nodes && n != nodeId ==> n in NodeHidden(g, nodeId).nodes && NodeHidden(g, nodeId).nodes[n] == g.nodes[n]
    ensures forall k :: k in g.edges && !Touches(g.edges[k], nodeId) ==> k in NodeHidden(g, nodeId).edges && NodeHidden(g, nodeId).edges[k] == g.edges[k]
    ensures NodeHidden(g, nodeId).edges.Keys <= g.edges.Keys
  {
  }

  /** Hiding a node keeps every edge's endpoints in the graph. */
  lemma NodeHideKeepsEndpoints(g: Graph, nodeId: Id)
    requires EndpointsExist(g)
    ensures EndpointsExist(NodeHidden(g, nodeId))
  {
  }

  /** In a graph whose edges all have their endpoints, hiding a node that is
      not there changes nothing. */
  lemma NodeHideAbsentIsNoop(g: Graph, nodeId: Id)
    requires EndpointsExist(g)
    requires nodeId !in g.nodes
    ensures NodeHidden(g, nodeId) == g
  {
    assert WithoutIncident(g.edges, nodeId) == g.edges;
  }

  /** Hiding a node keeps every entry under its own id. */
  lemma NodeHideKeepsKeys(g: Graph, nodeId: Id)
    requires KeyedById(g)
    ensures KeyedById(NodeHidden(g, nodeId))
  {
  }

  // ---------------------------------------------------------------------
  // Hiding an edge.

  /** Hiding an edge removes exactly the edges whose `id` is `edgeId`, keeps
      the nodes, and a second hide changes nothing. */
  lemma EdgeHideRemovesExactly(g: Graph, edgeId: Id)
    ensures EdgeHidden(g, edgeId).nodes == g.nodes
    ensures forall k :: k in EdgeHidden(g, edgeId).edges <==> k in g.edges && g.edges[k].id != edgeId
    ensures forall k :: k in EdgeHidden(g, edgeId).edges ==> EdgeHidden(g, edgeId).edges[k] == g.edges[k]
    ensures EdgeHidden(EdgeHidden(g, edgeId), edgeId) == EdgeHidden(g, edgeId)
  {
    assert WithoutEdgeId(WithoutEdgeId(g.edges, edgeId), edgeId) == WithoutEdgeId(g.edges, edgeId);
  }

  /** Hiding an edge keeps the endpoint rule and the keying by id. */
  lemma EdgeHideKeepsInvariants(g: Graph, edgeId: Id)
    ensures EndpointsExist(g) ==> EndpointsExist(EdgeHidden(g, edgeId))
    ensures KeyedById(g) ==> KeyedById(EdgeHidden(g, edgeId))
  {
  }

  // ---------------------------------------------------------------------
  // Merging an expanded neighbourhood.

  /** `m` is contained in `big`: every key of `m` is in `big` with the same value. */
  predicate SubMap<V(==)>(m: map<Id, V>, big: map<Id, V>)
  {
    forall k :: k in m ==> k in big && big[k] == m[k]
  }

  /** After a merge the keys are those of both graphs, an incoming entry wins
      on a shared key, and every other old entry stays. */
  lemma MergeIsRightBiasedUnion(g: Graph, incoming: Graph)
    ensures Merged(g, incoming).nodes.Keys == g.nodes.Keys + incoming.nodes.Keys
    ensures Merged(g, incoming).edges.Keys == g.edges.Keys + incoming.edges.Keys
    ensures SubMap(incoming.nodes, Merged(g, incoming).nodes)
    ensures SubMap(incoming.edges, Merged(g, incoming).edges)
    ensures forall k :: k in g.nodes && k !in incoming.nodes ==> Merged(g, incoming).nodes[k] == g.nodes[k]
    ensures forall k :: k in g.edges && k !in incoming.edges ==> Merged(g, incoming).edges[k] == g.edges[k]
  {
  }

  /** Merging a neighbourhood the graph already holds changes nothing. */
  lemma MergeContainedIsNoop(g: Graph, incoming: Graph)
    requires SubMap(incoming.nodes, g.nodes) && SubMap(incoming.edges, g.edges)
    ensures Merged(g, incoming) == g
  {
    assert g.nodes + incoming.nodes == g.nodes;
    assert g.edges + incoming.edges == g.edges;
  }

  /** Merging the same neighbourhood twice is the same as merging it once. */
  lemma MergeIdempotent(g: Graph, incoming: Graph)
    ensures Merged(Merged(g, incoming), incoming) == Merged(g, incoming)
  {
    MergeIsRightBiasedUnion(g, incoming);
    MergeContainedIsNoop(Merged(g, incoming), incoming);
  }

  /** A merge keeps the endpoint rule when each incoming edge ends at nodes
      of the merged graph. */
  lemma MergeKeepsEndpoints(g: Graph, incoming: Graph)
    requires EndpointsExist(g)
    requires forall k :: k in incoming.edges ==>
      incoming.edges[k].source in Merged(g, incoming).nodes && incoming.edges[k].target in Merged(g, incoming).nodes
    ensures EndpointsExist(Merged(g, incoming))
  {
  }

  /** A merge of two graphs keyed by id is keyed by id. */
  lemma MergeKeepsKeys(g: Graph, incoming: Graph)
    requires KeyedById(g) && KeyedById(incoming)
    ensures KeyedById(Merged(g, incoming))
  {
  }

  // ---------------------------------------------------------------------
  // Keeping a selection.

  /** The kept nodes are exactly the selected nodes the graph holds; the kept
      edges are the selected edges it holds when any edge is selected, and
      otherwise every original edge with both ends among the selected nodes. */
  lemma KeptContents(g: Graph, selection: seq<Element>)
    ensures forall k :: k in Kept(g, selection).nodes <==> k in g.nodes && k in NodeIds(selection)
    ensures SubMap(Kept(g, selection).nodes, g.nodes) && SubMap(Kept(g, selection).edges, g.edges)
    ensures |EdgeIds(selection)| > 0 ==>
      forall k :: k in Kept(g, selection).edges <==> k in g.edges && k in EdgeIds(selection)
    ensures |EdgeIds(selection)| == 0 ==>
      forall k :: k in Kept(g, selection).edges <==>
        k in g.edges && g.edges[k].source in NodeIds(selection) && g.edges[k].target in NodeIds(selection)
  {
  }

  /** When every selected id is in the graph, the kept node keys are exactly
      the selected node ids, and with an edge selected the kept edge keys are
      exactly the selected edge ids. */
  lemma KeptKeysWhenSelectionPresent(g: Graph, selection: seq<Element>)
    requires forall e :: e in selection && e.HasLabels() ==> IdOf(e) in g.nodes
    requires forall e :: e in selection && !e.HasLabels() ==> IdOf(e) in g.edges
    ensures Kept(g, selection).nodes.Keys == set e | e in selection && e.HasLabels() :: IdOf(e)
    ensures |EdgeIds(selection)| > 0 ==>
      Kept(g, selection).edges.Keys == set e | e in selection && !e.HasLabels() :: IdOf(e)
  {
  }

  /** With no edge selected, the kept graph satisfies the endpoint rule
      whenever the original did. */
  lemma KeptInducedKeepsEndpoints(g: Graph, selection: seq<Element>)
    requires EndpointsExist(g)
    requires |EdgeIds(selection)| == 0
    ensures EndpointsExist(Kept(g, selection))
  {
  }

  /** With edges selected, the kept graph satisfies the endpoint rule when
      the ends of each selected edge are selected too. */
  lemma KeptExplicitKeepsEndpoints(g: Graph, selection: seq<Element>)
    requires EndpointsExist(g)
    requires forall k :: k in g.edges && k in EdgeIds(selection) ==>
      g.edges[k].source in NodeIds(selection) && g.edges[k].target in NodeIds(selection)
    ensures EndpointsExist(Kept(g, selection))
  {
  }

  /** Selecting an edge without its ends and keeping the selection leaves an
      edge whose endpoints are not in the graph. */
  lemma KeptExplicitCanDangle()
    ensures var a := Node("1", ["Person"], map[]);
            var b := Node("2", ["Person"], map[]);
            var e := Edge("3", "1", "2", "KNOWS", map[]);
            var g := Graph(map["1" := a, "2" := b], map["3" := e]);
            EndpointsExist(g) && !EndpointsExist(Kept(g, [EdgeElement(e)]))
  {
    var a := Node("1", ["Person"], map[]);
    var b := Node("2", ["Person"], map[]);
    var e := Edge("3", "1", "2", "KNOWS", map[]);
    var g := Graph(map["1" := a, "2" := b], map["3" := e]);
    assert EdgeIds([EdgeElement(e)]) == ["3"];
    assert NodeIds([EdgeElement(e)]) == [];
    assert "3" in Kept(g, [EdgeElement(e)]).edges;
  }

  /** One `forEach` loop of `selectionKeep` as written: it stores
      `graph.nodes[id]` (or `graph.edges[id]`) under every listed id, so an id
      the graph no longer holds gets `undefined` (None here). */
  function SelectedAsWritten<V>(m: map<Id, V>, ids: seq<Id>): map<Id, Option<V>>
  {
    map k | k in ids :: if k in m then Some(m[k]) else None
  }

  /** A selection that still names a hidden node, or a hidden edge, makes the
      written code store a key with nothing behind it, where `Kept` stores
      no key at all. */
  lemma KeptAsWrittenStoresUndefined()
    ensures var g := Graph(map[], map[]);
            var stale := NodeElement(Node("7", ["Person"], map[]));
            var asWritten := SelectedAsWritten(g.nodes, NodeIds([stale]));
            "7" in asWritten && asWritten["7"] == None && "7" !in Kept(g, [stale]).nodes
    ensures var a := Node("1", ["Person"], map[]);
            var b := Node("2", ["Person"], map[]);
            var g := Graph(map["1" := a, "2" := b], map[]);
            var stale := EdgeElement(Edge("9", "1", "2", "KNOWS", map[]));
            var asWritten := SelectedAsWritten(g.edges, EdgeIds([stale]));
            "9" in asWritten && asWritten["9"] == None && "9" !in Kept(g, [stale]).edges
  {
    var staleNode := NodeElement(Node("7", ["Person"], map[]));
    assert NodeIds([staleNode]) == ["7"];
    var staleEdge := EdgeElement(Edge("9", "1", "2", "KNOWS", map[]));
    assert EdgeIds([staleEdge]) == ["9"];
  }

  /** Where every selected id is present, the written code and `Kept` agree:
      on nodes always, and on edges when an edge is selected. */
  lemma KeptAgreesWithWrittenWhenPresent(g: Graph, selection: seq<Element>)
    requires forall id :: id in NodeIds(selection) ==> id in g.nodes
    requires forall id :: id in EdgeIds(selection) ==> id in g.edges
    ensures SelectedAsWritten(g.nodes, NodeIds(selection)) ==
      map k | k in Kept(g, selection).nodes :: Some(Kept(g, selection).nodes[k])
    ensures |EdgeIds(selection)| > 0 ==>
      (SelectedAsWritten(g.edges, EdgeIds(selection)) ==
       map k | k in Kept(g, selection).edges :: Some(Kept(g, selection).edges[k]))
  {
  }

  // ---------------------------------------------------------------------
  // Hiding a selection.

  /** Hiding a list of nodes removes those nodes and every edge touching one
      of them, and nothing else. */
  lemma {:induction false} HideNodesContents(g: Graph, ids: seq<Id>)
    ensures HideNodes(g, ids).nodes == map k | k in g.nodes && k !in ids :: g.nodes[k]
    ensures HideNodes(g, ids).edges ==
      map k | k in g.edges && g.edges[k].source !in ids && g.edges[k].target !in ids :: g.edges[k]
    decreases |ids|
  {
    if ids == [] {
      assert g.nodes == map k | k in g.nodes && k !in ids :: g.nodes[k];
      assert g.edges == map k | k in g.edges && g.edges[k].source !in ids && g.edges[k].target !in ids :: g.edges[k];
    } else {
      var h := NodeHidden(g, ids[0]);
      HideNodesContents(h, ids[1..]);
      forall k ensures k in ids <==> k == ids[0] || k in ids[1..] {
        assert ids == [ids[0]] + ids[1..];
      }
    }
  }

  /** Hiding a list of edges removes exactly the edges whose `id` is listed. */
  lemma {:induction false} HideEdgesContents(g: Graph, ids: seq<Id>)
    ensures HideEdges(g, ids).nodes == g.nodes
    ensures HideEdges(g, ids).edges == map k | k in g.edges && g.edges[k].id !in ids :: g.edges[k]
    decreases |ids|
  {
    if ids == [] {
      assert g.edges == map k | k in g.edges && g.edges[k].id !in ids :: g.edges[k];
    } else {
      var h := EdgeHidden(g, ids[0]);
      HideEdgesContents(h, ids[1..]);
      forall k ensures k in ids <==> k == ids[0] || k in ids[1..] {
        assert ids == [ids[0]] + ids[1..];
      }
    }
  }

  /** Hiding one more node after a list is hiding the longer list. */
  lemma {:induction false} HideNodesSnoc(g: Graph, ids: seq<Id>, id: Id)
    ensures HideNodes(g, ids + [id]) == NodeHidden(HideNodes(g, ids), id)
    decreases |ids|
  {
    if ids == [] {
      assert ids + [id] == [id];
    } else {
      assert (ids + [id])[1..] == ids[1..] + [id];
      HideNodesSnoc(NodeHidden(g, ids[0]), ids[1..], id);
    }
  }

  /** Hiding one more edge after a list is hiding the longer list. */
  lemma {:induction false} HideEdgesSnoc(g: Graph, ids: seq<Id>, id: Id)
    ensures HideEdges(g, ids + [id]) == EdgeHidden(HideEdges(g, ids), id)
    decreases |ids|
  {
    if ids == [] {
      assert ids + [id] == [id];
    } else {
      assert (ids + [id])[1..] == ids[1..] + [id];
      HideEdgesSnoc(EdgeHidden(g, ids[0]), ids[1..], id);
    }
  }

  /** After hiding a selection no selected node remains, no edge touches a
      selected node, no edge carries a selected edge id, and everything else
      is kept. */
  lemma SelectionHiddenContents(g: Graph, selection: seq<Element>)
    ensures forall e :: e in selection && e.HasLabels() ==> IdOf(e) !in SelectionHidden(g, selection).nodes
    ensures forall k :: k in SelectionHidden(g, selection).edges ==>
      SelectionHidden(g, selection).edges[k].source !in NodeIds(selection) &&
      SelectionHidden(g, selection).edges[k].target !in NodeIds(selection)
    ensures forall k :: k in SelectionHidden(g, selection).edges ==>
      SelectionHidden(g, selection).edges[k].id !in EdgeIds(selection)
    ensures forall k :: k in g.nodes && k !in NodeIds(selection) ==>
      k in SelectionHidden(g, selection).nodes && SelectionHidden(g, selection).nodes[k] == g.nodes[k]
    ensures forall k :: (k in g.edges && g.edges[k].source !in NodeIds(selection) &&
                         g.edges[k].target !in NodeIds(selection) && g.edges[k].id !in EdgeIds(selection)) ==>
        k in SelectionHidden(g, selection).edges && SelectionHidden(g, selection).edges[k] == g.edges[k]
  {
    HideNodesContents(g, NodeIds(selection));
    HideEdgesContents(HideNodes(g, NodeIds(selection)), EdgeIds(selection));
  }

  /** Hiding a selection keeps the endpoint rule and the keying by id. */
  lemma SelectionHiddenKeepsInvariants(g: Graph, selection: seq<Element>)
    ensures EndpointsExist(g) ==> EndpointsExist(SelectionHidden(g, selection))
    ensures KeyedById(g) ==> KeyedById(SelectionHidden(g, selection))
  {
    HideNodesContents(g, NodeIds(selection));
    HideEdgesContents(HideNodes(g, NodeIds(selection)), EdgeIds(selection));
  }

  // ---------------------------------------------------------------------
  // Worked scenarios.

  /** Nodes A, B, C and edges A->B, B->C: hiding B leaves A and C and no edge. */
  lemma HideMiddleNodeScenario()
    ensures var a := Node("A", ["L"], map[]);
            var b := Node("B", ["L"], map[]);
            var c := Node("C", ["L"], map[]);
            var g := Graph(map["A" := a, "B" := b, "C" := c],
                           map["e1" := Edge("e1", "A", "B", "T", map[]), "e2" := Edge("e2", "B", "C", "T", map[])]);
            NodeHidden(g, "B") == Graph(map["A" := a, "C" := c], map[])
  {
    var a := Node("A", ["L"], map[]);
    var b := Node("B", ["L"], map[]);
    var c := Node("C", ["L"], map[]);
    var g := Graph(map["A" := a, "B" := b, "C" := c],
                   map["e1" := Edge("e1", "A", "B", "T", map[]), "e2" := Edge("e2", "B", "C", "T", map[])]);
    assert NodeHidden(g, "B").nodes == map["A" := a, "C" := c];
    assert NodeHidden(g, "B").edges == map[];
  }

  /** Keeping nodes 1 and 2 with an edge 1->2 selected keeps only that edge,
      even though another edge joins them. */
  lemma KeepExplicitEdgeScenario()
    ensures var n1 := Node("1", ["L"], map[]);
            var n2 := Node("2", ["L"], map[]);
            var e := Edge("e", "1", "2", "T", map[]);
            var f := Edge("f", "2", "1", "T", map[]);
            var g := Graph(map["1" := n1, "2" := n2], map["e" := e, "f" := f]);
            var sel := [NodeElement(n1), NodeElement(n2), EdgeElement(e)];
            Kept(g, sel) == Graph(map["1" := n1, "2" := n2], map["e" := e])
  {
    var n1 := Node("1", ["L"], map[]);
    var n2 := Node("2", ["L"], map[]);
    var e := Edge("e", "1", "2", "T", map[]);
    var f := Edge("f", "2", "1", "T", map[]);
    var g := Graph(map["1" := n1, "2" := n2], map["e" := e, "f" := f]);
    var sel := [NodeElement(n1), NodeElement(n2), EdgeElement(e)];
    assert sel[1..] == [NodeElement(n2), EdgeElement(e)] && sel[1..][1..] == [EdgeElement(e)];
    assert NodeIds([EdgeElement(e)]) == [] && EdgeIds([EdgeElement(e)]) == ["e"];
    assert NodeIds(sel[1..]) == ["2"] && EdgeIds(sel[1..]) == ["e"];
    assert NodeIds(sel) == ["1", "2"] && EdgeIds(sel) == ["e"];
    assert Kept(g, sel).nodes == map["1" := n1, "2" := n2];
    assert Kept(g, sel).edges == map["e" := e];
  }

  /** Expanding A outward into D over a new edge A->D adds D and the edge and
      keeps A, B, C and the two old edges. */
  lemma ExpandScenario()
    ensures var a := Node("A", ["L"], map[]);
            var b := Node("B", ["L"], map[]);
            var c := Node("C", ["L"], map[]);
            var d := Node("D", ["L"], map[]);
            var e1 := Edge("e1", "A", "B", "T", map[]);
            var e2 := Edge("e2", "B", "C", "T", map[]);
            var e3 := Edge("e3", "A", "D", "T", map[]);
            var g := Graph(map["A" := a, "B" := b, "C" := c], map["e1" := e1, "e2" := e2]);
            var r := Merged(g, Graph(map["D" := d], map["e3" := e3]));
            r.nodes.Keys == {"A", "B", "C", "D"} && r.edges.Keys == {"e1", "e2", "e3"} && EndpointsExist(r)
  {
  }
}
