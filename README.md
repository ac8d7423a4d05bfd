# Graph state engine of stefi-graph, in Dafny

stefi-graph shows a property graph that it queries from a Neo4j database. Its
graph actions (`src/js/components/graph/actions.js`) all read and write one
shared state tree. That tree holds:

- the visualised graph (`data.graph.nodes`, `data.graph.edges`, maps from id);
- the user's selection (`data.selected`);
- the layout flag (`data.runLayout`);
- the hover, right-click and edit transients;
- the per-label and per-edge-type style settings.

This project models that tree as one `Store` object. Each exported action
is a method of the store with `modifies` clauses on exactly the fields it
writes. What the actions compute is given as functions on values, and the
properties the actions promise are proved as lemmas about those functions:

- hiding a node drops every edge at either of its ends;
- clicking toggles the selection by id, and two clicks restore it;
- keeping a selection gives the explicitly selected edges, or else the
  induced subgraph;
- expanding a node merges the answer into the graph; incoming entries win
  and every old key is kept;
- deletes change the local graph only after the database succeeds;
- style saves normalise an empty image or icon to `{}`;
- only a successful expand turns the layout on.

Files:

- `elements.dfy`: nodes, edges, elements, the graph and the records stored
  in the tree.
- `selection.dfy`: toggling and splitting the selection.
- `graph_ops.dfy`: hide, merge, keep and hide-selection as functions, with
  the loops that build their maps.
- `styles.dfy`: style settings.
- `queries.dfy`: the Cypher texts and the expand query builder.
- `mutations.dfy`: what each database call leaves behind once it settles.
- `store.dfy`: the `Store` class.

Modelling choices:

- **Database calls.** The settled outcome of each call is an input to the
  action (`Resolved` or `Rejected` with the reason's JSON text), and its
  callback runs inside the action. The answer to an expand query is an
  input graph.
- **Logs.** Notifications are appended to a sequence. The queries sent are
  appended to a request log, and every write of the layout flag to a ghost
  log.
- **Node or edge.** The source tells a node from an edge by
  `hasOwnProperty('labels')`. Here a tagged `Element` type carries that
  distinction: `HasLabels()` holds exactly for the node variant.
- **Keys.** The store keeps every node and edge under its own `id`
  (`Store.Valid`). `edgeHide` compares `id` fields and `selectionKeep`
  inserts edges under `edge.id`, so both need that to be well defined.
  `nodeExpand` assumes the gateway's answer is keyed the same way: the
  service that builds it is not part of this model, so this is an
  assumption about it, stated as a precondition.
- **Stale selection.** For `selectionKeep`, the model skips a selected id
  that the graph no longer holds; see "Findings".

## Model

| member | source | states |
|---|---|---|
| `GraphStore.Store.RunLayout` | src/js/components/graph/actions.js:91-93 | the flag becomes `run` and the write is logged |
| `GraphStore.Store.SetOverObject` | src/js/components/graph/actions.js:13-17 | writes `false` to the layout flag, then stores the hovered element; nothing else changes |
| `GraphStore.Store.SetRightClick` | src/js/components/graph/actions.js:22-30 | writes `false` to the layout flag; the right-click record holds the type and the object, and the client coordinates exactly when a mouse event is given |
| `GraphStore.Store.SetClickObject` | src/js/components/graph/actions.js:35-47 | writes `false` to the layout flag; the selection becomes the id toggle of the old one; the object's id is selected afterwards iff it was not before; ids stay unique |
| `GraphStore.Store.ToggleLabelVisibility` | src/js/components/graph/actions.js:52-55 | writes `false` to the layout flag; the label's style has its hidden flag negated (a missing entry is created hidden) |
| `GraphStore.Store.ToggleEdgeVisibility` | src/js/components/graph/actions.js:60-63 | same for an edge type |
| `GraphStore.Store.SaveLabelStyle` | src/js/components/graph/actions.js:68-78 | writes `false` to the layout flag; when the style has both an image and an icon object, the label maps to the cleaned style, which has no half-filled image or icon, and other labels are unchanged; when either object is missing (the read at :71 or :74 throws), the label styles are unchanged |
| `GraphStore.Store.SaveEdgeStyle` | src/js/components/graph/actions.js:83-86 | writes `false` to the layout flag; the edge type maps to the given style |
| `GraphStore.Store.NodeEdit` | src/js/components/graph/actions.js:98-100 | the edit target becomes `{type: 'node', id}`; the layout flag is not written |
| `GraphStore.Store.NodeHide` | src/js/components/graph/actions.js:105-120 | resets the right-click state and writes `false` to the layout flag; the node is gone, no edge touches it, the graph is the node-hidden graph, and ids and the endpoint rule are preserved |
| `GraphStore.Store.EdgeHide` | src/js/components/graph/actions.js:125-138 | resets the right-click state; removes the edges whose `id` is `edgeId`; nodes unchanged |
| `GraphStore.Store.NodeDelete` | src/js/components/graph/actions.js:143-166 | logs the detach-delete query; on success pushes a success notice, then hides the node (two `false` layout writes); on failure pushes one danger notice and leaves the graph unchanged |
| `GraphStore.Store.EdgeDelete` | src/js/components/graph/actions.js:171-194 | logs the delete query and pushes one notice; the local graph is never changed (see "Findings") |
| `GraphStore.Store.NodeSave` | src/js/components/graph/actions.js:197-216 | logs the save query with the properties and pushes one notice; graph, layout flag and right-click state are untouched |
| `GraphStore.Store.NodeExpand` | src/js/components/graph/actions.js:221-258 | builds the query by accumulation and logs it; the layout flag ends `true` iff the call succeeded (writes: `false`, then `true` only on success); on success the maps become the right-biased union; on failure one danger notice is pushed and the graph is unchanged |
| `GraphStore.Store.SelectionReset` | src/js/components/graph/actions.js:264-266 | the selection is empty |
| `GraphStore.Store.SelectionKeep` | src/js/components/graph/actions.js:268-302 | empties the selection; the graph becomes the kept subgraph of the selection; the layout flag is not written |
| `GraphStore.Store.SelectionHide` | src/js/components/graph/actions.js:304-318 | the graph becomes the one where every selected node, then every selected edge, is hidden in turn; the selection is empty; one `false` layout write per selected element |
| `GraphStore.Store.DeleteNodesInTurn` | src/js/components/graph/actions.js:320-326 | each node delete is settled in order; graph, notices and request log follow the sequential settlement |
| `GraphStore.Store.DeleteEdgesInTurn` | src/js/components/graph/actions.js:327-332 | each edge delete is settled in order; the graph is unchanged and one notice is pushed per edge |
| `GraphStore.Store.SelectionDelete` | src/js/components/graph/actions.js:320-334 | exactly one request per selected element is logged: request `i` carries the `i`-th id of the selected node ids followed by the selected edge ids, with the detach-delete query for the nodes and the edge delete query for the edges; the graph follows the node settlements; the selection is empty; no layout write is `true` |
| `Selection.Toggle` | src/js/components/graph/actions.js:41-45 | defines the click: remove every element with the id when one is selected, otherwise append the element; its properties are `ToggleFlipsMembership`, `ToggleKeepsOthers`, `ToggleTwiceRestores` and `ToggleKeepsIdsUnique` |
| `GraphOps.WithoutIncident` | src/js/components/graph/actions.js:110-118 | defines the `newEdges` of `nodeHide`: the edges with neither end at the node; `CollectEdgesAwayFrom` is proved to build it |
| `GraphOps.WithoutEdgeId` | src/js/components/graph/actions.js:128-136 | defines the `newEdges` of `edgeHide`: the edges whose `id` differs; `CollectEdgesNotNamed` is proved to build it |
| `GraphOps.NodeHidden` | src/js/components/graph/actions.js:105-120 | defines the graph after `nodeHide`; its properties are `NodeHideRemovesIncident`, `NodeHideKeepsEndpoints`, `NodeHideAbsentIsNoop` and `NodeHideKeepsKeys` |
| `GraphOps.EdgeHidden` | src/js/components/graph/actions.js:125-138 | defines the graph after `edgeHide`; its properties are `EdgeHideRemovesExactly` and `EdgeHideKeepsInvariants` |
| `GraphOps.Merged` | src/js/components/graph/actions.js:248-249 | defines the `Object.assign` merge of `nodeExpand`; its properties are the `Merge...` lemmas |
| `GraphOps.Restrict` | src/js/components/graph/actions.js:282-291 | defines the selected entries the map holds; `CollectSelected` is proved to build it |
| `GraphOps.Induced` | src/js/components/graph/actions.js:293-299 | defines the edges with both ends among the selected nodes; `CollectInduced` is proved to build it |
| `GraphOps.Kept` | src/js/components/graph/actions.js:268-302 | defines the graph `selectionKeep` installs, stale ids skipped; its properties are the `Kept...` lemmas |
| `GraphOps.SelectedAsWritten` | src/js/components/graph/actions.js:282-290 | defines one `forEach` loop of `selectionKeep` as written, with `undefined` as None; `KeptAsWrittenStoresUndefined` and `KeptAgreesWithWrittenWhenPresent` compare it with `Kept` |
| `GraphOps.HideNodes` | src/js/components/graph/actions.js:306-310 | defines `nodeHide` applied to each listed id in turn; `HideNodesContents` characterises it |
| `GraphOps.HideEdges` | src/js/components/graph/actions.js:312-316 | defines `edgeHide` applied to each listed id in turn; `HideEdgesContents` characterises it |
| `GraphOps.SelectionHidden` | src/js/components/graph/actions.js:304-318 | defines the graph after `selectionHide`; `SelectionHiddenContents` and `SelectionHiddenKeepsInvariants` state its properties |
| `Styles.Saveable` | src/js/components/graph/actions.js:71-74 | defines when the reads of `style.image.url` and `style.icon.name` do not throw: both objects are present |
| `Styles.Cleaned` | src/js/components/graph/actions.js:70-77 | defines the style `saveLabelStyle` stores; `CleanedIsNormalised` and `CleanedFixesNormalised` state its properties |
| `Styles.LabelsToggled` | src/js/components/graph/actions.js:52-55 | defines the label styles after a toggle; `LabelToggleFlips` states its properties |
| `Styles.EdgesToggled` | src/js/components/graph/actions.js:60-63 | defines the edge styles after a toggle; `EdgeToggleFlips` states its properties |
| `Queries.MatchFor` | src/js/components/graph/actions.js:228-238 | defines the MATCH clause the `switch` picks, undirected by default; `ExpandQuery` and `ExpandQueryDirections` state its effect on the query |
| `Mutations.NodeDeleteSettled` | src/js/components/graph/actions.js:149-165 | defines what a settled node delete leaves: a notice and the node hidden, or a danger notice; `NodeDeleteSuccess` and `FailureChangesNothing` state its properties |
| `Mutations.EdgeDeleteSettledAsWritten` | src/js/components/graph/actions.js:177-193 | defines a settled edge delete as written: a notice, graph unchanged; `EdgeDeleteAsWrittenKeepsEdge` states it |
| `Mutations.EdgeDeleteSettled` | src/js/components/graph/actions.js:177-193 | defines a settled edge delete with the callback hiding `edgeId`; `EdgeDeleteSuccess` states its properties |
| `Mutations.NodeSaveSettled` | src/js/components/graph/actions.js:200-215 | defines a settled node save; `NodeSaveKeepsGraph` states its properties |
| `Mutations.ExpandSettled` | src/js/components/graph/actions.js:244-257 | defines a settled expand: the merge, or a danger notice; `ExpandSuccess` and `FailureChangesNothing` state its properties |
| `Mutations.SettleAll` | src/js/components/graph/actions.js:320-334 | defines the callbacks of several deletes run one after another; `SettleAllSnoc`, `NodeDeletesHideSucceeded` and `EdgeDeletesAsWrittenKeepGraph` state its properties |
| `Selection.WithoutId` | src/js/components/graph/actions.js:42 | no element with the id remains; every element kept was in the input; every element with another id is kept |
| `Selection.WithoutIdAppend` | src/js/components/graph/actions.js:42 | filtering distributes over concatenation, so the survivors keep their order |
| `Selection.WithoutAbsentId` | src/js/components/graph/actions.js:41-42 | filtering an absent id is the identity |
| `Selection.ToggleFlipsMembership` | src/js/components/graph/actions.js:41-45 | after a click the id is selected iff it was not before |
| `Selection.ToggleKeepsOthers` | src/js/components/graph/actions.js:41-45 | a click leaves every other id's elements in place and in order, and their membership unchanged |
| `Selection.ToggleTwiceRestores` | src/js/components/graph/actions.js:35-47 | clicking an unselected element twice gives back the original selection |
| `Selection.ToggleKeepsIdsUnique` | src/js/components/graph/actions.js:35-47 | a click preserves "no id twice" |
| `Selection.WithoutIdKeepsIdsUnique` | src/js/components/graph/actions.js:42 | filtering preserves "no id twice" |
| `Selection.NodeIds` | src/js/components/graph/actions.js:273-275 | the ids listed are exactly those of selected elements with labels |
| `Selection.EdgeIds` | src/js/components/graph/actions.js:277-279 | the ids listed are exactly those of selected elements without labels |
| `Selection.SplitCoversSelection` | src/js/components/graph/actions.js:273-279 | the two filtered lists together are as long as the selection |
| `GraphOps.CollectEdgesAwayFrom` | src/js/components/graph/actions.js:110-119 | the loop's `newEdges` is the set of edges with neither end at the node |
| `GraphOps.CollectEdgesNotNamed` | src/js/components/graph/actions.js:128-137 | the loop's `newEdges` is the set of edges whose `id` differs from `edgeId` |
| `GraphOps.CollectSelected` | src/js/components/graph/actions.js:282-291 | the loop copies exactly the listed ids that the map holds |
| `GraphOps.CollectInduced` | src/js/components/graph/actions.js:293-299 | with edges keyed by id, the loop yields exactly the edges with both ends among the selected nodes |
| `GraphOps.NodeHideRemovesIncident` | src/js/components/graph/actions.js:105-120 | the node is absent, no remaining edge touches it, every other node and every non-incident edge is kept unchanged |
| `GraphOps.NodeHideKeepsEndpoints` | src/js/components/graph/actions.js:105-120 | hiding a node preserves "every edge's ends are nodes" |
| `GraphOps.NodeHideAbsentIsNoop` | src/js/components/graph/actions.js:105-120 | in a graph satisfying the endpoint rule, hiding an absent node changes nothing |
| `GraphOps.NodeHideKeepsKeys` | src/js/components/graph/actions.js:105-120 | hiding a node preserves keying by id |
| `GraphOps.EdgeHideRemovesExactly` | src/js/components/graph/actions.js:125-138 | an edge survives iff its `id` differs; survivors are unchanged; nodes unchanged; a second hide changes nothing |
| `GraphOps.EdgeHideKeepsInvariants` | src/js/components/graph/actions.js:125-138 | hiding an edge preserves the endpoint rule and keying by id |
| `GraphOps.MergeIsRightBiasedUnion` | src/js/components/graph/actions.js:248-249 | merged keys are the union; incoming entries win; other old entries stay |
| `GraphOps.MergeContainedIsNoop` | src/js/components/graph/actions.js:248-249 | merging a neighbourhood already contained changes nothing |
| `GraphOps.MergeIdempotent` | src/js/components/graph/actions.js:248-249 | merging the same answer twice equals merging it once |
| `GraphOps.MergeKeepsEndpoints` | src/js/components/graph/actions.js:248-249 | the merge keeps the endpoint rule when incoming edges end at merged nodes |
| `GraphOps.MergeKeepsKeys` | src/js/components/graph/actions.js:248-249 | merging maps keyed by id gives maps keyed by id |
| `GraphOps.ExpandScenario` | src/js/components/graph/actions.js:248-249 | expanding A into D over A->D yields nodes {A,B,C,D} and edges {e1,e2,e3}, all with their endpoints |
| `GraphOps.KeptContents` | src/js/components/graph/actions.js:268-302 | kept nodes are the selected nodes present; with an edge selected, kept edges are the selected edges present, otherwise the edges with both ends selected; all entries are unchanged originals |
| `GraphOps.KeptKeysWhenSelectionPresent` | src/js/components/graph/actions.js:281-291 | when the selection is all present, node keys are exactly the selected node ids, and with an edge selected, edge keys are exactly the selected edge ids |
| `GraphOps.KeptInducedKeepsEndpoints` | src/js/components/graph/actions.js:292-299 | the induced branch preserves the endpoint rule |
| `GraphOps.KeptExplicitKeepsEndpoints` | src/js/components/graph/actions.js:286-291 | the explicit-edge branch preserves the endpoint rule when the ends of selected edges are selected |
| `GraphOps.KeptExplicitCanDangle` | src/js/components/graph/actions.js:286-291 | selecting an edge without its ends and keeping leaves a dangling edge |
| `GraphOps.KeepExplicitEdgeScenario` | src/js/components/graph/actions.js:286-291 | with nodes 1, 2 and edge e selected, only e is kept though f also joins 1 and 2 |
| `GraphOps.KeptAsWrittenStoresUndefined` | src/js/components/graph/actions.js:282-290 | a stale selected node id, and a stale selected edge id, each get a key with nothing behind it, where `Kept` has no such key |
| `GraphOps.KeptAgreesWithWrittenWhenPresent` | src/js/components/graph/actions.js:282-290 | with every selected id present, the code as written and `Kept` store the same nodes, and the same edges when an edge is selected |
| `GraphOps.HideNodesContents` | src/js/components/graph/actions.js:306-310 | hiding a list of nodes in turn removes exactly those nodes and the edges touching any of them |
| `GraphOps.HideEdgesContents` | src/js/components/graph/actions.js:312-316 | hiding a list of edges in turn removes exactly the edges whose `id` is listed |
| `GraphOps.HideNodesSnoc` | src/js/components/graph/actions.js:306-310 | hiding one more node extends the fold |
| `GraphOps.HideEdgesSnoc` | src/js/components/graph/actions.js:312-316 | hiding one more edge extends the fold |
| `GraphOps.SelectionHiddenContents` | src/js/components/graph/actions.js:304-318 | no selected node remains; no edge touches a selected node; no edge carries a selected edge id; everything else is kept |
| `GraphOps.SelectionHiddenKeepsInvariants` | src/js/components/graph/actions.js:304-318 | hiding a selection preserves the endpoint rule and keying by id |
| `GraphOps.HideMiddleNodeScenario` | src/js/components/graph/actions.js:105-120 | nodes A, B, C and edges A->B, B->C; hiding B leaves A, C and no edge |
| `Styles.CleanedIsNormalised` | src/js/components/graph/actions.js:70-76 | for a style with both objects, the saved style has no half-filled image or icon, keeps its hidden flag and attributes, and keeps a set image or icon |
| `Styles.CleanedFixesNormalised` | src/js/components/graph/actions.js:70-77 | an already normalised style has both objects and saving it stores it unchanged |
| `Styles.LabelToggleFlips` | src/js/components/graph/actions.js:52-55 | the label's flag is negated, other labels are untouched, two toggles restore an existing entry |
| `Styles.EdgeToggleFlips` | src/js/components/graph/actions.js:60-63 | same for edge types |
| `Queries.ExpandQuery` | src/js/components/graph/actions.js:227-242 | starts with the incoming, outgoing or undirected MATCH (anything else gives undirected) followed by `WHERE id(n)={id} `; ends with `RETURN n,m` |
| `Queries.ExpandQueryTypeCondition` | src/js/components/graph/actions.js:240-241 | the `AND type(r) ={type}` clause occurs in the query iff the type is truthy |
| `Queries.ExpandQueryDirections` | src/js/components/graph/actions.js:228-238 | the three directions give three different queries |
| `Mutations.FailureChangesNothing` | src/js/components/graph/actions.js:158-164 | every rejected call leaves the graph unchanged and pushes exactly one `Error: ` danger notice carrying the reason |
| `Mutations.NodeDeleteSuccess` | src/js/components/graph/actions.js:150-157 | a successful node delete removes the node and its edges, keeps the endpoint rule, and pushes one success notice |
| `Mutations.EdgeDeleteAsWrittenKeepsEdge` | src/js/components/graph/actions.js:178-185 | as written, a successful edge delete leaves the edge in the local graph |
| `Mutations.EdgeDeleteSuccess` | src/js/components/graph/actions.js:178-185 | with the callback hiding the edge, no edge with that id remains, nodes and other edges are kept, and the endpoint rule holds |
| `Mutations.NodeSaveKeepsGraph` | src/js/components/graph/actions.js:197-216 | a save never changes the graph and pushes one notice, success or danger by outcome |
| `Mutations.ExpandSuccess` | src/js/components/graph/actions.js:245-250 | a successful expand pushes no notice, keeps old keys, lets incoming entries win, and is a no-op on a contained answer |
| `Mutations.SettleAllSnoc` | src/js/components/graph/actions.js:320-334 | settling one more delete extends the sequential settlement |
| `Mutations.NodeDeletesHideSucceeded` | src/js/components/graph/actions.js:320-326 | settling node deletes hides exactly the nodes whose delete succeeded, with one notice per delete |
| `Mutations.EdgeDeletesAsWrittenKeepGraph` | src/js/components/graph/actions.js:327-332 | settling edge deletes as written never changes the graph, with one notice per delete |

## Left out

- `nodeCollapse` (src/js/components/graph/actions.js:260-262) has an empty body, so there is nothing to model.
- The Neo4j service, its configuration and the network calls are not modelled. Each call's settled outcome is an input, and its query text and parameters are logged.
- What the Cypher texts do at the database (detach-delete, property replacement) is not modelled; only the texts themselves are.
- Promise asynchrony is not modelled. A callback runs inside its action. Several deletes that are pending at once settle one after another, nodes first, in selection order. Any interleaving with other actions is not covered.
- `pushNotification` and the module logger are not modelled. A notification is a record appended to a list. A rejection reason is given as its JSON text.
- `tree.commit()` (a flush of pending updates in the state-tree library) is not modelled.
- The initial contents of the state tree are not part of this model. The constructor starts from a given graph and style settings.
- `setRightClick` takes the mouse event's `clientX` and `clientY` as integers. A mouse event without them is not modelled.
- Ids are strings. `setClickObject` compares with loose equality, and that does not matter when every id has the same type. Ids that mix numbers and strings are not modelled.
- `selectionKeep` starts `newGraph.edges` as an array (:270) but only uses it through its keys. It is modelled as a map.
- `GraphStore.Store.SaveLabelStyle`: in the source, `cleanStyle` aliases the caller's `style`, so the caller's object is normalised too. Styles are values here, so that side effect on the caller is not captured.
- `GraphStore.Store.ToggleLabelVisibility` and `GraphStore.Store.ToggleEdgeVisibility`: a label or type with no style entry is assumed to get one created by the path write: `{hidden: true}`, with no image, icon or other attribute.
- `GraphStore.Store.SaveLabelStyle`: a style without an `image` or `icon` object makes the read at :71 or :74 throw a TypeError after the `false` layout write at :69 and before the store at :77. The model keeps the layout write and leaves the label styles unchanged; the exception reaching the caller is not modelled.
- `GraphStore.Store.SelectionDelete`: it states only that every layout write it makes is `false`, not how many writes there are. There is one per delete, plus one more for each successful node delete.
- `GraphStore.Store.NodeExpand` requires the returned neighbourhood to be keyed by id. This is an assumption about the gateway, whose code is not part of this model; an answer keyed otherwise is not covered.
- The settings page (src/js/pages/settings/application/page.js) is UI glue and is not part of this model.

## Findings

| source | as written | input that shows it | evidently intended | confidence | as-written member | corrected member |
|---|---|---|---|---|---|---|
| src/js/components/graph/actions.js:184 | the success callback of `edgeDelete` calls `edgeHide(tree, nodeId)`, but no `nodeId` is in scope there; the call throws after the success notice, and the deleted edge stays in the local graph | any edge delete that the database accepts, for an edge in the graph | `edgeHide(tree, edgeId)`: the deleted edge is hidden locally, as `nodeDelete` does for nodes | high (not executed) | `Mutations.EdgeDeleteAsWrittenKeepsEdge` | `Mutations.EdgeDeleteSuccess` |
| src/js/components/graph/actions.js:282-290 | `selectionKeep` stores `graph.nodes[item]` (or `graph.edges[item]`) under every selected id, so an id the graph no longer holds gets the value `undefined`; a later `nodeHide` or `edgeHide` then reads `.source` or `.id` of it (:114, :132) and throws | a selection still holding node `7` after node `7` was hidden, or edge `9` after edge `9` was hidden | keep only the selected elements the graph still holds | medium (not executed) | `GraphOps.KeptAsWrittenStoresUndefined` | `GraphOps.KeptContents` |

`GraphStore.Store.SelectionKeep` installs the corrected `Kept` graph.
`GraphStore.Store.EdgeDelete` and `GraphStore.Store.SelectionDelete` keep
the code's own behaviour, so a successful edge delete does not change the
local graph. The corrected settlement, `Mutations.EdgeDeleteSettled`, is
what the fix at line 184 would give.
