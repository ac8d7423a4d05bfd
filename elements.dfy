/** The values the graph state engine keeps in its state tree: nodes, edges,
    the elements a user can select, the visualised graph, and the records
    written into the tree's transient and notification fields. */
module Elements {

  /** Identifier of a node or an edge, as assigned by the graph database. */
  type Id = string

  type Label = string

  /** A node's or an edge's property map; values are kept as their text. */
  type Props = map<string, string>

  datatype Option<T> = None | Some(value: T)

  /** Result of an asynchronous gateway call: the promise resolved with a
      value, or it was rejected with a reason (kept as its JSON text). */
  datatype Outcome<T> = Resolved(value: T) | Rejected(reason: string)

  datatype Node = Node(id: Id, labels: seq<Label>, props: Props)

  datatype Edge = Edge(id: Id, source: Id, target: Id, kind: string, props: Props)

  /** Something the user can hover, right-click or select. The state tree
      tells a node from an edge by whether the object has a `labels`
      property; here the constructor carries that distinction. */
  datatype Element = NodeElement(node: Node) | EdgeElement(edge: Edge)
  {
    /** The object owns a `labels` property exactly when it is a node. */
    predicate HasLabels() { NodeElement? }
  }

  /** The `id` field of an element. */
  function IdOf(e: Element): Id
  {
    match e
    case NodeElement(n) => n.id
    case EdgeElement(d) => d.id
  }

  /** The visualised subgraph: `data.graph` of the state tree. */
  datatype Graph = Graph(nodes: map<Id, Node>, edges: map<Id, Edge>)

  /** Every edge's endpoints are nodes of the graph. */
  predicate EndpointsExist(g: Graph)
  {
    forall k :: k in g.edges ==> g.edges[k].source in g.nodes && g.edges[k].target in g.nodes
  }

  /** Every node and every edge is stored under its own `id`. */
  predicate KeyedById(g: Graph)
  {
    && (forall k :: k in g.nodes ==> g.nodes[k].id == k)
    && (forall k :: k in g.edges ==> g.edges[k].id == k)
  }

  /** `data.rightClick`: what was right-clicked, and where on screen. */
  datatype RightClick = RightClick(kind: Option<string>, target: Option<Element>, x: Option<int>, y: Option<int>)

  /** The mouse event of a right click, reduced to its client coordinates. */
  datatype Captor = Captor(clientX: int, clientY: int)

  /** `data.edit`: the element opened in the editor. */
  datatype EditTarget = EditTarget(kind: string, id: Id)

  datatype NoticeKind = Success | Danger

  /** A message pushed to the notification list. */
  datatype Notification = Notification(title: string, message: string, kind: NoticeKind)

  /** One query sent to the graph database: its Cypher text and the values
      bound to its `{id}`, `{type}` and `{props}` parameters. */
  datatype Request = Request(query: string, id: Id, edgeType: Option<string>, props: Option<Props>)

  const SuccessTitle := "Success: "
  const ErrorTitle := "Error: "

  /** The notification every failed gateway call pushes. */
  function FailureNotice(reason: string): Notification
  {
    Notification(ErrorTitle, reason, Danger)
  }
}
