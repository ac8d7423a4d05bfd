/** The shared state tree the graph actions read and write, as one object:
    `data.graph.nodes` and `data.graph.edges`, `data.selected`,
    `data.runLayout`, the transients `data.over`, `data.rightClick` and
    `data.edit`, `settings.style.labels` and `settings.style.edges`, the
    notification list, and the log of queries sent to the database.
    Each method is one exported action; a call to the database is given its
    settled outcome as a parameter and its callback runs within the call. */
module GraphStore {
  import opened Elements
  import opened Selection
  import opened GraphOps
  import opened Styles
  import opened Queries
  import opened Mutations

  /** The right-click state the backend actions reset to. */
  const NoRightClick := RightClick(None, None, None, None)

  /** `n` writes of `false`. */
  function Stops(n: nat): seq<bool>
  {
    seq(n, i => false)
  }

  /** `after` extends `before` with writes of `false` only. */
  ghost predicate OnlyStopsAdded(before: seq<bool>, after: seq<bool>)
  {
    before <= after && forall i :: |before| <= i < |after| ==> !after[i]
  }

  class Store {
    var nodes: map<Id, Node>
    var edges: map<Id, Edge>
    var selected: seq<Element>
    var runLayout: bool
    var over: Option<Element>
    var rightClick: Option<RightClick>
    var edit: Option<EditTarget>
    var labelStyles: map<Label, LabelStyle>
    var edgeStyles: map<string, EdgeStyle>
    var notifications: seq<Notification>
    var requests: seq<Request>
    /** Every value written to `data.runLayout`, oldest first. */
    ghost var layoutWrites: seq<bool>

    /** `data.graph`. */
    function Current(): Graph
      reads this
    {
      Graph(nodes, edges)
    }

    /** Every node and edge sits under its own id. */
    ghost predicate Valid()
      reads this
    {
      KeyedById(Current())
    }

    constructor (g: Graph, labels: map<Label, LabelStyle>, edgeTypes: map<string, EdgeStyle>)
      requires KeyedById(g)
      ensures Valid() && Current() == g
      ensures selected == [] && !runLayout
      ensures over == None && rightClick == None && edit == None
      ensures labelStyles == labels && edgeStyles == edgeTypes
      ensures notifications == [] && requests == [] && layoutWrites == []
    {
      nodes, edges := g.nodes, g.edges;
      selected := [];
      runLayout := false;
      over, rightClick, edit := None, None, None;
      labelStyles, edgeStyles := labels, edgeTypes;
      notifications, requests := [], [];
      layoutWrites := [];
    }

    /** `runLayout`: set the layout flag. */
    method RunLayout(run: bool)
      modifies this`runLayout, this`layoutWrites
      ensures runLayout == run
      ensures layoutWrites == old(layoutWrites) + [run]
    {
      runLayout := run;
      layoutWrites := layoutWrites + [run];
    }

    /** `setOverObject`: stop the layout, remember the hovered element. */
    method SetOverObject(obj: Option<Element>)
      modifies this`runLayout, this`layoutWrites, this`over
      ensures layoutWrites == old(layoutWrites) + [false]
      ensures !runLayout && over == obj
    {
      RunLayout(false);
      over := obj;
    }

    /** `setRightClick`: stop the layout, remember what was right-clicked and
        where; without a mouse event the coordinates are null. */
    method SetRightClick(kind: Option<string>, obj: Option<Element>, captor: Option<Captor>)
      modifies this`runLayout, this`layoutWrites, this`rightClick
      ensures layoutWrites == old(layoutWrites) + [false]
      ensures !runLayout
      ensures rightClick.Some? && rightClick.value.kind == kind && rightClick.value.target == obj
      ensures captor.Some? ==> rightClick.value.x == Some(captor.value.clientX) && rightClick.value.y == Some(captor.value.clientY)
      ensures captor.None? ==> rightClick.value.x == None && rightClick.value.y == None
    {
      RunLayout(false);
      rightClick := Some(RightClick(kind, obj,
                                    if captor.Some? then Some(captor.value.clientX) else None,
                                    if captor.Some? then Some(captor.value.clientY) else None));
    }

    /** `setClickObject`: stop the layout and toggle `obj` in the selection
        by id. */
    method SetClickObject(obj: Element)
      modifies this`runLayout, this`layoutWrites, this`selected
      ensures layoutWrites == old(layoutWrites) + [false]
      ensures !runLayout
      ensures selected == Toggle(old(selected), obj)
      ensures HasId(selected, IdOf(obj)) <==> !HasId(old(selected), IdOf(obj))
      ensures UniqueIds(old(selected)) ==> UniqueIds(selected)
    {
      RunLayout(false);
      var current := selected;
      if HasId(current, IdOf(obj)) {
        selected := WithoutId(current, IdOf(obj));
      } else {
        selected := current + [obj];
      }
      ToggleFlipsMembership(old(selected), obj);
      if UniqueIds(old(selected)) {
        ToggleKeepsIdsUnique(old(selected), obj);
      }
    }

    /** `toggleLabelVisibility`: stop the layout, negate the label's hidden flag. */
    method ToggleLabelVisibility(labelName: Label)
      modifies this`runLayout, this`layoutWrites, this`labelStyles
      ensures layoutWrites == old(layoutWrites) + [false]
      ensures !runLayout
      ensures labelStyles == LabelsToggled(old(labelStyles), labelName)
    {
      RunLayout(false);
      labelStyles := LabelsToggled(labelStyles, labelName);
    }

    /** `toggleEdgeVisibility`: stop the layout, negate the edge type's hidden flag. */
    method ToggleEdgeVisibility(kind: string)
      modifies this`runLayout, this`layoutWrites, this`edgeStyles
      ensures layoutWrites == old(layoutWrites) + [false]
      ensures !runLayout
      ensures edgeStyles == EdgesToggled(old(edgeStyles), kind)
    {
      RunLayout(false);
      edgeStyles := EdgesToggled(edgeStyles, kind);
    }

    /** `saveLabelStyle`: stop the layout and store the style with an empty
        image or icon reduced to `{}`. A style without an image or an icon
        object makes the read of its key throw after the layout write and
        before anything is stored. */
    method SaveLabelStyle(labelName: Label, style: LabelStyle)
      modifies this`runLayout, this`layoutWrites, this`labelStyles
      ensures layoutWrites == old(layoutWrites) + [false]
      ensures !runLayout
      ensures Saveable(style) ==> labelStyles == old(labelStyles)[labelName := Cleaned(style)]
      ensures Saveable(style) ==> Normalised(labelStyles[labelName])
      ensures !Saveable(style) ==> labelStyles == old(labelStyles)
    {
      RunLayout(false);
      if style.image.None? || style.icon.None? {
        return;
      }
      var clean := style;
      if !Truthy(style.image.value.url) {
        clean := clean.(image := Some(EmptyImage));
      }
      if !Truthy(style.icon.value.name) {
        clean := clean.(icon := Some(EmptyIcon));
      }
      labelStyles := labelStyles[labelName := clean];
      CleanedIsNormalised(style);
    }

    /** `saveEdgeStyle`: stop the layout and store the style as given. */
    method SaveEdgeStyle(kind: string, style: EdgeStyle)
      modifies this`runLayout, this`layoutWrites, this`edgeStyles
      ensures layoutWrites == old(layoutWrites) + [false]
      ensures !runLayout
      ensures edgeStyles == old(edgeStyles)[kind := style]
    {
      RunLayout(false);
      edgeStyles := edgeStyles[kind := style];
    }

    /** `nodeEdit`: open the node in the editor; the layout flag is untouched. */
    method NodeEdit(nodeId: Id)
      modifies this`edit
      ensures edit == Some(EditTarget("node", nodeId))
    {
      edit := Some(EditTarget("node", nodeId));
    }

    /** `nodeHide`: close the context menu, remove the node and every edge at
        either of its ends. */
    method NodeHide(nodeId: Id)
      requires Valid()
      modifies this`runLayout, this`layoutWrites, this`rightClick, this`nodes, this`edges
      ensures Valid()
      ensures layoutWrites == old(layoutWrites) + [false]
      ensures !runLayout && rightClick == Some(NoRightClick)
      ensures Current() == NodeHidden(old(Current()), nodeId)
      ensures nodeId !in nodes && forall k :: k in edges ==> !Touches(edges[k], nodeId)
      ensures old(EndpointsExist(Current())) ==> EndpointsExist(Current())
    {
      SetRightClick(None, None, None);
      nodes := nodes - {nodeId};
      var newEdges := CollectEdgesAwayFrom(edges, nodeId);
      edges := newEdges;
      NodeHideKeepsKeys(old(Current()), nodeId);
    }

    /** `edgeHide`: close the context menu, remove every edge whose `id` is
        `edgeId`. */
    method EdgeHide(edgeId: Id)
      requires Valid()
      modifies this`runLayout, this`layoutWrites, this`rightClick, this`edges
      ensures Valid()
      ensures layoutWrites == old(layoutWrites) + [false]
      ensures !runLayout && rightClick == Some(NoRightClick)
      ensures Current() == EdgeHidden(old(Current()), edgeId)
      ensures edgeId !in edges && nodes == old(nodes)
      ensures old(EndpointsExist(Current())) ==> EndpointsExist(Current())
    {
      SetRightClick(None, None, None);
      var newEdges := CollectEdgesNotNamed(edges, edgeId);
      edges := newEdges;
    }

    /** `nodeDelete`: close the context menu, send the detach-delete query;
        on success notify and hide the node, on failure only notify. */
    method NodeDelete(nodeId: Id, outcome: Outcome<()>)
      requires Valid()
      modifies this`runLayout, this`layoutWrites, this`rightClick, this`nodes, this`edges, this`notifications, this`requests
      ensures Valid()
      ensures layoutWrites == old(layoutWrites) + (if outcome.Resolved? then [false, false] else [false])
      ensures !runLayout && rightClick == Some(NoRightClick)
      ensures requests == old(requests) + [Request(DeleteNodeQuery, nodeId, None, None)]
      ensures Current() == NodeDeleteSettled(old(Current()), nodeId, outcome).graph
      ensures notifications == old(notifications) + NodeDeleteSettled(old(Current()), nodeId, outcome).notices
    {
      SetRightClick(None, None, None);
      requests := requests + [Request(DeleteNodeQuery, nodeId, None, None)];
      match outcome {
        case Resolved(_) =>
          notifications := notifications + [NodeDeletedNotice(nodeId)];
          NodeHide(nodeId);
        case Rejected(reason) =>
          notifications := notifications + [FailureNotice(reason)];
      }
    }

    /** `edgeDelete`: close the context menu, send the delete query, notify.
        Its success callback stops at the out-of-scope name before hiding
        anything, so the local graph is never changed. */
    method EdgeDelete(edgeId: Id, outcome: Outcome<()>)
      modifies this`runLayout, this`layoutWrites, this`rightClick, this`notifications, this`requests
      ensures layoutWrites == old(layoutWrites) + [false]
      ensures !runLayout && rightClick == Some(NoRightClick)
      ensures requests == old(requests) + [Request(DeleteEdgeQuery, edgeId, None, None)]
      ensures Current() == EdgeDeleteSettledAsWritten(old(Current()), edgeId, outcome).graph
      ensures notifications == old(notifications) + EdgeDeleteSettledAsWritten(old(Current()), edgeId, outcome).notices
    {
      SetRightClick(None, None, None);
      requests := requests + [Request(DeleteEdgeQuery, edgeId, None, None)];
      match outcome {
        case Resolved(_) =>
          notifications := notifications + [EdgeDeletedNotice(edgeId)];
        case Rejected(reason) =>
          notifications := notifications + [FailureNotice(reason)];
      }
    }

    /** `nodeSave`: send the property replacement and notify; the local graph,
        the layout flag and the context menu are untouched. */
    method NodeSave(id: Id, props: Props, outcome: Outcome<()>)
      modifies this`notifications, this`requests
      ensures requests == old(requests) + [Request(SaveNodeQuery, id, None, Some(props))]
      ensures notifications == old(notifications) + NodeSaveSettled(Current(), id, outcome).notices
    {
      requests := requests + [Request(SaveNodeQuery, id, None, Some(props))];
      match outcome {
        case Resolved(_) =>
          notifications := notifications + [NodeSavedNotice(id)];
        case Rejected(reason) =>
          notifications := notifications + [FailureNotice(reason)];
      }
    }

    /** `nodeExpand`: close the context menu, build and send the expand query;
        on success turn the layout on and merge the returned neighbourhood,
        on failure notify. */
    method NodeExpand(nodeId: Id, edgeType: Option<string>, direction: Option<string>, outcome: Outcome<Graph>)
      requires Valid()
      requires outcome.Resolved? ==> KeyedById(outcome.value)
      modifies this`runLayout, this`layoutWrites, this`rightClick, this`nodes, this`edges, this`notifications, this`requests
      ensures Valid()
      ensures layoutWrites == old(layoutWrites) + (if outcome.Resolved? then [false, true] else [false])
      ensures rightClick == Some(NoRightClick)
      ensures runLayout <==> outcome.Resolved?
      ensures requests == old(requests) + [Request(ExpandQuery(direction, edgeType), nodeId, edgeType, None)]
      ensures Current() == ExpandSettled(old(Current()), outcome).graph
      ensures notifications == old(notifications) + ExpandSettled(old(Current()), outcome).notices
    {
      SetRightClick(None, None, None);
      var query := "";
      if direction == Some("incoming") {
        query := IncomingMatch;
      } else if direction == Some("outgoing") {
        query := OutgoingMatch;
      } else {
        query := UndirectedMatch;
      }
      query := query + WhereId;
      if TypeGiven(edgeType) {
        query := query + TypeClause;
      }
      query := query + ReturnClause;
      assert query == ExpandQuery(direction, edgeType);
      requests := requests + [Request(query, nodeId, edgeType, None)];
      match outcome {
        case Resolved(incoming) =>
          RunLayout(true);
          nodes := nodes + incoming.nodes;
          edges := edges + incoming.edges;
          MergeKeepsKeys(old(Current()), incoming);
        case Rejected(reason) =>
          notifications := notifications + [FailureNotice(reason)];
      }
    }

    /** `selectionReset`: empty the selection. */
    method SelectionReset()
      modifies this`selected
      ensures selected == []
    {
      selected := [];
    }

    /** `selectionKeep`: empty the selection and replace the graph by the
        selected nodes with the selected edges, or with the edges between
        selected nodes when no edge is selected. */
    method SelectionKeep(selection: seq<Element>)
      requires Valid()
      modifies this`selected, this`nodes, this`edges
      ensures Valid()
      ensures selected == []
      ensures Current() == Kept(old(Current()), selection)
    {
      SelectionReset();
      var nodeIds := NodeIds(selection);
      var edgeIds := EdgeIds(selection);
      var newNodes := CollectSelected(nodes, nodeIds);
      var newEdges;
      if |edgeIds| > 0 {
        newEdges := CollectSelected(edges, edgeIds);
      } else {
        newEdges := CollectInduced(edges, nodeIds);
      }
      nodes, edges := newNodes, newEdges;
    }

    /** `selectionHide`: hide every selected node, then every selected edge,
        then empty the selection. */
    method SelectionHide(selection: seq<Element>)
      requires Valid()
      modifies this`runLayout, this`layoutWrites, this`rightClick, this`nodes, this`edges, this`selected
      ensures Valid()
      ensures selected == []
      ensures Current() == SelectionHidden(old(Current()), selection)
      ensures layoutWrites == old(layoutWrites) + Stops(|selection|)
      ensures |selection| > 0 ==> !runLayout && rightClick == Some(NoRightClick)
      ensures |selection| == 0 ==> runLayout == old(runLayout) && rightClick == old(rightClick)
    {
      var nodeIds := NodeIds(selection);
      var i := 0;
      while i < |nodeIds|
        invariant 0 <= i <= |nodeIds|
        invariant Valid()
        invariant layoutWrites == old(layoutWrites) + Stops(i)
        invariant Current() == HideNodes(old(Current()), nodeIds[..i])
        invariant i > 0 ==> !runLayout && rightClick == Some(NoRightClick)
        invariant i == 0 ==> runLayout == old(runLayout) && rightClick == old(rightClick)
      {
        HideNodesSnoc(old(Current()), nodeIds[..i], nodeIds[i]);
        assert nodeIds[..i + 1] == nodeIds[..i] + [nodeIds[i]];
        NodeHide(nodeIds[i]);
        i := i + 1;
      }
      assert nodeIds[..i] == nodeIds;
      ghost var afterNodes := Current();
      var edgeIds := EdgeIds(selection);
      var j := 0;
      while j < |edgeIds|
        invariant 0 <= j <= |edgeIds|
        invariant Valid()
        invariant layoutWrites == old(layoutWrites) + Stops(|nodeIds| + j)
        invariant Current() == HideEdges(afterNodes, edgeIds[..j])
        invariant j > 0 || |nodeIds| > 0 ==> !runLayout && rightClick == Some(NoRightClick)
        invariant j == 0 && |nodeIds| == 0 ==> runLayout == old(runLayout) && rightClick == old(rightClick)
      {
        HideEdgesSnoc(afterNodes, edgeIds[..j], edgeIds[j]);
        assert edgeIds[..j + 1] == edgeIds[..j] + [edgeIds[j]];
        EdgeHide(edgeIds[j]);
        j := j + 1;
      }
      assert edgeIds[..j] == edgeIds;
      SplitCoversSelection(selection);
      SelectionReset();
    }

    /** The node half of `selectionDelete`: a delete for each id in turn,
        each settled with its outcome. */
    method DeleteNodesInTurn(ids: seq<Id>, outcomes: seq<Outcome<()>>)
      requires Valid()
      requires |ids| == |outcomes|
      modifies this`runLayout, this`layoutWrites, this`rightClick, this`nodes, this`edges, this`notifications, this`requests
      ensures Valid()
      ensures Current() == SettleAll(old(Current()), ids, outcomes, NodeDeleteSettled).graph
      ensures notifications == old(notifications) + SettleAll(old(Current()), ids, outcomes, NodeDeleteSettled).notices
      ensures requests == old(requests) + DeleteRequests(DeleteNodeQuery, ids)
      ensures OnlyStopsAdded(old(layoutWrites), layoutWrites)
      ensures |ids| > 0 ==> !runLayout && rightClick == Some(NoRightClick)
      ensures |ids| == 0 ==> runLayout == old(runLayout) && rightClick == old(rightClick)
    {
      var i := 0;
      while i < |ids|
        invariant 0 <= i <= |ids|
        invariant Valid()
        invariant OnlyStopsAdded(old(layoutWrites), layoutWrites)
        invariant Current() == SettleAll(old(Current()), ids[..i], outcomes[..i], NodeDeleteSettled).graph
        invariant notifications == old(notifications) + SettleAll(old(Current()), ids[..i], outcomes[..i], NodeDeleteSettled).notices
        invariant requests == old(requests) + DeleteRequests(DeleteNodeQuery, ids[..i])
        invariant i > 0 ==> !runLayout && rightClick == Some(NoRightClick)
        invariant i == 0 ==> runLayout == old(runLayout) && rightClick == old(rightClick)
      {
        SettleAllSnoc(old(Current()), ids[..i], outcomes[..i], NodeDeleteSettled, ids[i], outcomes[i]);
        assert ids[..i + 1] == ids[..i] + [ids[i]];
        assert outcomes[..i + 1] == outcomes[..i] + [outcomes[i]];
        NodeDelete(ids[i], outcomes[i]);
        i := i + 1;
      }
      assert ids[..i] == ids && outcomes[..i] == outcomes;
    }

    /** The edge half of `selectionDelete`: a delete for each id in turn,
        each settled with its outcome. */
    method DeleteEdgesInTurn(ids: seq<Id>, outcomes: seq<Outcome<()>>)
      requires |ids| == |outcomes|
      modifies this`runLayout, this`layoutWrites, this`rightClick, this`notifications, this`requests
      ensures Current() == SettleAll(old(Current()), ids, outcomes, EdgeDeleteSettledAsWritten).graph
      ensures notifications == old(notifications) + SettleAll(old(Current()), ids, outcomes, EdgeDeleteSettledAsWritten).notices
      ensures requests == old(requests) + DeleteRequests(DeleteEdgeQuery, ids)
      ensures OnlyStopsAdded(old(layoutWrites), layoutWrites)
      ensures |ids| > 0 ==> !runLayout && rightClick == Some(NoRightClick)
      ensures |ids| == 0 ==> runLayout == old(runLayout) && rightClick == old(rightClick)
    {
      var i := 0;
      while i < |ids|
        invariant 0 <= i <= |ids|
        invariant OnlyStopsAdded(old(layoutWrites), layoutWrites)
        invariant notifications == old(notifications) + SettleAll(old(Current()), ids[..i], outcomes[..i], EdgeDeleteSettledAsWritten).notices
        invariant requests == old(requests) + DeleteRequests(DeleteEdgeQuery, ids[..i])
        invariant i > 0 ==> !runLayout && rightClick == Some(NoRightClick)
        invariant i == 0 ==> runLayout == old(runLayout) && rightClick == old(rightClick)
      {
        SettleAllSnoc(old(Current()), ids[..i], outcomes[..i], EdgeDeleteSettledAsWritten, ids[i], outcomes[i]);
        EdgeDeletesAsWrittenKeepGraph(old(Current()), ids[..i], outcomes[..i]);
        assert ids[..i + 1] == ids[..i] + [ids[i]];
        assert outcomes[..i + 1] == outcomes[..i] + [outcomes[i]];
        EdgeDelete(ids[i], outcomes[i]);
        i := i + 1;
      }
      assert ids[..i] == ids && outcomes[..i] == outcomes;
      EdgeDeletesAsWrittenKeepGraph(old(Current()), ids, outcomes);
    }

    /** `selectionDelete`: send a delete for every selected node, then for
        every selected edge, and empty the selection. The callbacks are
        settled one after the other, nodes first, with the given outcomes. */
    method SelectionDelete(selection: seq<Element>, nodeOutcomes: seq<Outcome<()>>, edgeOutcomes: seq<Outcome<()>>)
      requires Valid()
      requires |nodeOutcomes| == |NodeIds(selection)| && |edgeOutcomes| == |EdgeIds(selection)|
      modifies this`runLayout, this`layoutWrites, this`rightClick, this`nodes, this`edges, this`selected, this`notifications, this`requests
      ensures Valid()
      ensures selected == []
      ensures Current() == SettleAll(old(Current()), NodeIds(selection), nodeOutcomes, NodeDeleteSettled).graph
      ensures notifications == old(notifications)
        + SettleAll(old(Current()), NodeIds(selection), nodeOutcomes, NodeDeleteSettled).notices
        + SettleAll(Current(), EdgeIds(selection), edgeOutcomes, EdgeDeleteSettledAsWritten).notices
      ensures requests == old(requests) + DeleteRequests(DeleteNodeQuery, NodeIds(selection))
                                        + DeleteRequests(DeleteEdgeQuery, EdgeIds(selection))
      ensures |requests| == |old(requests)| + |selection|
      ensures forall i :: |old(requests)| <= i < |requests| ==>
        requests[i].id == (NodeIds(selection) + EdgeIds(selection))[i - |old(requests)|]
      ensures forall i :: |old(requests)| <= i < |requests| ==>
        requests[i].query == (if i - |old(requests)| < |NodeIds(selection)| then DeleteNodeQuery else DeleteEdgeQuery)
      ensures OnlyStopsAdded(old(layoutWrites), layoutWrites)
      ensures |selection| > 0 ==> !runLayout && rightClick == Some(NoRightClick)
      ensures |selection| == 0 ==> runLayout == old(runLayout) && rightClick == old(rightClick)
    {
      DeleteNodesInTurn(NodeIds(selection), nodeOutcomes);
      DeleteEdgesInTurn(EdgeIds(selection), edgeOutcomes);
      SplitCoversSelection(selection);
      SelectionReset();
    }
  }
}
