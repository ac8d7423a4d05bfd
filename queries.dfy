/** The Cypher texts the graph actions send to the database. Parameter
    placeholders (`{id}`, `{type}`, `{props}`) are filled in by the gateway,
    so the texts depend only on the expand direction and on whether an edge
    type was given. */
module Queries {
  import opened Elements

  const IncomingMatch := "MATCH (n)<-[r]-(m) "
  const OutgoingMatch := "MATCH (n)-[r]->(m) "
  const UndirectedMatch := "MATCH (n)-[r]-(m) "
  const WhereId := "WHERE id(n)={id} "
  const TypeClause := " AND type(r) ={type} "
  const ReturnClause := "RETURN n,m"

  const DeleteNodeQuery := "MATCH (n) WHERE id(n)={id} WITH n DETACH DELETE n"
  const DeleteEdgeQuery := "MATCH ()-[r]->() WHERE id(r)={id} DELETE r"
  const SaveNodeQuery := "MATCH (o) WHERE id(o)={id} WITH o SET o={props} RETURN o"

  /** JavaScript truthiness of the optional edge type. */
  predicate TypeGiven(edgeType: Option<string>)
  {
    edgeType.Some? && edgeType.value != ""
  }

  /** `t` occurs in `s` as a contiguous piece. */
  predicate Occurs(t: string, s: string)
  {
    exists i :: 0 <= i <= |s| && t <= s[i..]
  }

  /** `s` ends with `t`. */
  predicate EndsWith(s: string, t: string)
  {
    |t| <= |s| && s[|s| - |t|..] == t
  }

  /** The MATCH clause chosen by the `switch` on the direction. */
  function MatchFor(direction: Option<string>): string
  {
    if direction == Some("incoming") then IncomingMatch
    else if direction == Some("outgoing") then OutgoingMatch
    else UndirectedMatch
  }

  /** The query `nodeExpand` sends: the MATCH clause for the direction, the
      id condition, the type condition when a type is given, and the RETURN. */
  function ExpandQuery(direction: Option<string>, edgeType: Option<string>): (q: string)
    ensures direction == Some("incoming") ==> IncomingMatch + WhereId <= q
    ensures direction == Some("outgoing") ==> OutgoingMatch + WhereId <= q
    ensures direction != Some("incoming") && direction != Some("outgoing") ==> UndirectedMatch + WhereId <= q
    ensures EndsWith(q, ReturnClause)
  {
    MatchFor(direction) + WhereId + (if TypeGiven(edgeType) then TypeClause else "") + ReturnClause
  }

  /** None of the fixed pieces other than the type condition holds a `y`. */
  lemma NoYOutsideTypeClause(direction: Option<string>)
    ensures 'y' !in MatchFor(direction) + WhereId + ReturnClause
  {
    assert 'y' !in IncomingMatch && 'y' !in OutgoingMatch && 'y' !in UndirectedMatch;
    assert 'y' !in WhereId && 'y' !in ReturnClause;
  }

  /** The type condition is in the expand query exactly when a type is given. */
  lemma ExpandQueryTypeCondition(direction: Option<string>, edgeType: Option<string>)
    ensures Occurs(TypeClause, ExpandQuery(direction, edgeType)) <==> TypeGiven(edgeType)
  {
    var q := ExpandQuery(direction, edgeType);
    var at := |MatchFor(direction)| + |WhereId|;
    if TypeGiven(edgeType) {
      assert TypeClause <= q[at..];
    } else {
      NoYOutsideTypeClause(direction);
      assert q == MatchFor(direction) + WhereId + ReturnClause;
      assert TypeClause[6] == 'y';
      forall i | 0 <= i <= |q|
        ensures !(TypeClause <= q[i..])
      {
        if i + 7 <= |q| {
          assert q[i..][6] == q[i + 6] && q[i + 6] in q;
        }
      }
    }
  }

  /** The three directions give three different queries. */
  lemma ExpandQueryDirections(edgeType: Option<string>)
    ensures ExpandQuery(Some("incoming"), edgeType) != ExpandQuery(Some("outgoing"), edgeType)
    ensures ExpandQuery(Some("incoming"), edgeType) != ExpandQuery(None, edgeType)
    ensures ExpandQuery(Some("outgoing"), edgeType) != ExpandQuery(None, edgeType)
  {
    assert ExpandQuery(Some("incoming"), edgeType)[9] == '<';
    assert ExpandQuery(Some("outgoing"), edgeType)[9] == '-';
    assert ExpandQuery(Some("outgoing"), edgeType)[14] == '>';
    assert ExpandQuery(None, edgeType)[14] == '(';
  }
}
