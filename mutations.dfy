/** What a gateway call leaves behind once its promise settles: the graph
    and the notifications its callbacks pushed. Local changes are made only
    in a success callback, after the database has answered. */
module Mutations {
  import opened Elements
  import opened GraphOps

  /** The graph after a callback ran, and the notifications it pushed. */
  datatype Effect = Effect(graph: Graph, notices: seq<Notification>)

  function NodeDeletedNotice(nodeId: Id): Notification
  {
    Notification(SuccessTitle, "Deleting node \"" + nodeId + "\"", Success)
  }

  function EdgeDeletedNotice(edgeId: Id): Notification
  {
    Notification(SuccessTitle, "Deleting edge \"" + edgeId + "\"", Success)
  }

  function NodeSavedNotice(id: Id): Notification
  {
    Notification(SuccessTitle, "Node \"" + id + "\" is saved", Success)
  }

  /** `nodeDelete` once settled: on success a notice, then `nodeHide`. */
  function NodeDeleteSettled(g: Graph, nodeId: Id, outcome: Outcome<()>): Effect
  {
    match outcome
    case Resolved(_) => Effect(NodeHidden(g, nodeId), [NodeDeletedNotice(nodeId)])
    case Rejected(reason) => Effect(g, [FailureNotice(reason)])
  }

  /** `edgeDelete` once settled, as written: its success callback pushes the
      notice and then calls `edgeHide` with a name that is not in scope, which
      throws before anything is hidden. */
  function EdgeDeleteSettledAsWritten(g: Graph, edgeId: Id, outcome: Outcome<()>): Effect
  {
    match outcome
    case Resolved(_) => Effect(g, [EdgeDeletedNotice(edgeId)])
    case Rejected(reason) => Effect(g, [FailureNotice(reason)])
  }

  /** `edgeDelete` once settled, with the success callback hiding the deleted
      edge, as the node case does. */
  function EdgeDeleteSettled(g: Graph, edgeId: Id, outcome: Outcome<()>): Effect
  {
    match outcome
    case Resolved(_) => Effect(EdgeHidden(g, edgeId), [EdgeDeletedNotice(edgeId)])
    case Rejected(reason) => Effect(g, [FailureNotice(reason)])
  }

  /** `nodeSave` once settled: a notice either way, the graph untouched. */
  function NodeSaveSettled(g: Graph, id: Id, outcome: Outcome<()>): Effect
  {
    match outcome
    case Resolved(_) => Effect(g, [NodeSavedNotice(id)])
    case Rejected(reason) => Effect(g, [FailureNotice(reason)])
  }

  /** `nodeExpand` once settled: the neighbourhood merged in, or a notice. */
  function ExpandSettled(g: Graph, outcome: Outcome<Graph>): Effect
  {
    match outcome
    case Resolved(incoming) => Effect(Merged(g, incoming), [])
    case Rejected(reason) => Effect(g, [FailureNotice(reason)])
  }

  /** A rejected call changes no graph and pushes exactly one danger notice. */
  lemma FailureChangesNothing(g: Graph, id: Id, reason: string)
    ensures var o := Rejected(reason);
      && NodeDeleteSettled(g, id, o).graph == g
      && EdgeDeleteSettledAsWritten(g, id, o).graph == g
      && EdgeDeleteSettled(g, id, o).graph == g
      && NodeSaveSettled(g, id, o).graph == g
      && ExpandSettled(g, Rejected(reason)).graph == g
      && NodeDeleteSettled(g, id, o).notices == [Notification(ErrorTitle, reason, Danger)]
      && EdgeDeleteSettledAsWritten(g, id, o).notices == [Notification(ErrorTitle, reason, Danger)]
      && NodeSaveSettled(g, id, o).notices == [Notification(ErrorTitle, reason, Danger)]
      && ExpandSettled(g, Rejected(reason)).notices == [Notification(ErrorTitle, reason, Danger)]
  {
  }

  /** A successful node delete removes the node and its edges locally,
      keeps the endpoint rule, and pushes one success notice. */
  lemma NodeDeleteSuccess(g: Graph, nodeId: Id)
    ensures var r := NodeDeleteSettled(g, nodeId, Resolved(()));
      && nodeId !in r.graph.nodes
      && (forall k :: k in r.graph.edges ==> !Touches(r.graph.edges[k], nodeId))
      && (EndpointsExist(g) ==> EndpointsExist(r.graph))
      && |r.notices| == 1 && r.notices[0].kind == Success
  {
  }

  /** As written, a successful edge delete leaves the deleted edge in the
      local graph. */
  lemma EdgeDeleteAsWrittenKeepsEdge(g: Graph, edgeId: Id)
    requires edgeId in g.edges
    ensures edgeId in EdgeDeleteSettledAsWritten(g, edgeId, Resolved(())).graph.edges
  {
  }

  /** With the callback hiding the edge, a successful edge delete leaves no
      edge with that id, keeps every node and every other edge, and keeps
      the endpoint rule. */
  lemma EdgeDeleteSuccess(g: Graph, edgeId: Id)
    ensures var r := EdgeDeleteSettled(g, edgeId, Resolved(()));
      && (forall k :: k in r.graph.edges ==> r.graph.edges[k].id != edgeId)
      && r.graph.nodes == g.nodes
      && (forall k :: k in g.edges && g.edges[k].id != edgeId ==> k in r.graph.edges)
      && (EndpointsExist(g) ==> EndpointsExist(r.graph))
      && r.notices == [EdgeDeletedNotice(edgeId)]
  {
  }

  /** Saving a node never changes the local graph. */
  lemma NodeSaveKeepsGraph(g: Graph, id: Id, outcome: Outcome<()>)
    ensures NodeSaveSettled(g, id, outcome).graph == g
    ensures |NodeSaveSettled(g, id, outcome).notices| == 1
    ensures NodeSaveSettled(g, id, outcome).notices[0].kind == (if outcome.Resolved? then Success else Danger)
  {
  }

  /** A successful expand pushes no notice, keeps every old key and lets the
      incoming entries win. */
  lemma ExpandSuccess(g: Graph, incoming: Graph)
    ensures var r := ExpandSettled(g, Resolved(incoming));
      && r.notices == []
      && g.nodes.Keys <= r.graph.nodes.Keys && g.edges.Keys <= r.graph.edges.Keys
      && SubMap(incoming.nodes, r.graph.nodes) && SubMap(incoming.edges, r.graph.edges)
      && (SubMap(incoming.nodes, g.nodes) && SubMap(incoming.edges, g.edges) ==> r.graph == g)
  {
    MergeIsRightBiasedUnion(g, incoming);
    if SubMap(incoming.nodes, g.nodes) && SubMap(incoming.edges, g.edges) {
      MergeContainedIsNoop(g, incoming);
    }
  }

  // ---------------------------------------------------------------------
  // Several deletes, settled one after the other.

  /** The callbacks of a list of deletes, run in order: `step` is the
      settlement of one delete. */
  function SettleAll(g: Graph, ids: seq<Id>, outcomes: seq<Outcome<()>>,
                     step: (Graph, Id, Outcome<()>) -> Effect): Effect
    requires |ids| == |outcomes|
    decreases |ids|
  {
    if ids == [] then Effect(g, [])
    else
      var first := step(g, ids[0], outcomes[0]);
      var rest := SettleAll(first.graph, ids[1..], outcomes[1..], step);
      Effect(rest.graph, first.notices + rest.notices)
  }

  /** Settling one more delete after a list extends the list. */
  lemma {:induction false} SettleAllSnoc(g: Graph, ids: seq<Id>, outcomes: seq<Outcome<()>>,
                                         step: (Graph, Id, Outcome<()>) -> Effect, id: Id, o: Outcome<()>)
    requires |ids| == |outcomes|
    ensures var before := SettleAll(g, ids, outcomes, step);
            var last := step(before.graph, id, o);
            SettleAll(g, ids + [id], outcomes + [o], step) == Effect(last.graph, before.notices + last.notices)
    decreases |ids|
  {
    if ids == [] {
      assert ids + [id] == [id] && outcomes + [o] == [o];
    } else {
      assert (ids + [id])[1..] == ids[1..] + [id];
      assert (outcomes + [o])[1..] == outcomes[1..] + [o];
      SettleAllSnoc(step(g, ids[0], outcomes[0]).graph, ids[1..], outcomes[1..], step, id, o);
    }
  }

  /** The ids whose delete succeeded, in order. */
  function Succeeded(ids: seq<Id>, outcomes: seq<Outcome<()>>): seq<Id>
    requires |ids| == |outcomes|
    decreases |ids|
  {
    if ids == [] then []
    else (if outcomes[0].Resolved? then [ids[0]] else []) + Succeeded(ids[1..], outcomes[1..])
  }

  /** Settling a list of node deletes hides exactly the nodes whose delete
      succeeded, and pushes one notice per delete. */
  lemma {:induction false} NodeDeletesHideSucceeded(g: Graph, ids: seq<Id>, outcomes: seq<Outcome<()>>)
    requires |ids| == |outcomes|
    ensures SettleAll(g, ids, outcomes, NodeDeleteSettled).graph == HideNodes(g, Succeeded(ids, outcomes))
    ensures |SettleAll(g, ids, outcomes, NodeDeleteSettled).notices| == |ids|
    decreases |ids|
  {
    if ids != [] {
      var first := NodeDeleteSettled(g, ids[0], outcomes[0]);
      NodeDeletesHideSucceeded(first.graph, ids[1..], outcomes[1..]);
      if outcomes[0].Resolved? {
        assert Succeeded(ids, outcomes) == [ids[0]] + Succeeded(ids[1..], outcomes[1..]);
        assert (Succeeded(ids, outcomes))[1..] == Succeeded(ids[1..], outcomes[1..]);
      } else {
        assert Succeeded(ids, outcomes) == Succeeded(ids[1..], outcomes[1..]);
      }
    }
  }

  /** As written, settling a list of edge deletes never changes the graph,
      and pushes one notice per delete. */
  lemma {:induction false} EdgeDeletesAsWrittenKeepGraph(g: Graph, ids: seq<Id>, outcomes: seq<Outcome<()>>)
    requires |ids| == |outcomes|
    ensures SettleAll(g, ids, outcomes, EdgeDeleteSettledAsWritten).graph == g
    ensures |SettleAll(g, ids, outcomes, EdgeDeleteSettledAsWritten).notices| == |ids|
    decreases |ids|
  {
    if ids != [] {
      EdgeDeletesAsWrittenKeepGraph(g, ids[1..], outcomes[1..]);
    }
  }

  /** The query log entries for a list of deletes. */
  function DeleteRequests(query: string, ids: seq<Id>): seq<Request>
  {
    seq(|ids|, i requires 0 <= i < |ids| => Request(query, ids[i], None, None))
  }
}
