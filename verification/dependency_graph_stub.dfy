/**
 * The earlier stub of the dependency-graph query
 * (src/dependency_graph/routes/query.rs): it validates that `name` and
 * `version` are present and answers with a fixed two-root graph in which
 * only the first root's identity comes from the query.
 */
module DependencyGraphStub {
  import opened Options
  import opened DependencyGraphModels

  /** A placeholder leaf. */
  const Placeholder: Node := Node("name", "version", None)

  /** The fixed edge list of every root: a "dependency" then a "dev-dependency" edge to placeholders. */
  const PlaceholderEdges: seq<Edge> := [Edge("dependency", Placeholder), Edge("dev-dependency", Placeholder)]

  /** The stub's response: the graph, or a bare 400 with no body. */
  datatype StubResponse = StubOk(result: QueryResult) | StubBadRequest

  /**
   * The stub query: a 400 when `name` or `version` is missing; otherwise two
   * roots, the first named by the query and the second a placeholder, each
   * with the fixed placeholder edges.
   */
  function StubQuery(q: QueryParams): (r: StubResponse)
    ensures r.StubBadRequest? <==> q.name.None? || q.version.None?
    ensures r.StubOk? ==> r.result.data.Some? && |r.result.data.value| == 2
    ensures r.StubOk? ==>
      r.result.data.value[0].name == q.name.value && r.result.data.value[0].version == q.version.value
    ensures r.StubOk? ==> forall i :: 0 <= i < 2 ==>
      var es := r.result.data.value[i].edges;
      && es.Some? && |es.value| == 2
      && es.value[0].relationship == "dependency"
      && es.value[1].relationship == "dev-dependency"
      && es.value[0].node == Placeholder && es.value[1].node == Placeholder
    ensures r.StubOk? ==> r.result.data.value[1] == Node("name", "version", Some(PlaceholderEdges))
  {
    match (q.name, q.version)
    case (None, _) => StubBadRequest
    case (Some(_), None) => StubBadRequest
    case (Some(name), Some(version)) =>
      StubOk(QueryResult(Some([
        Node(name, version, Some(PlaceholderEdges)),
        Node("name", "version", Some(PlaceholderEdges))
      ])))
  }

  /** Two accepted queries give the same graph except for the first root's name and version. */
  lemma StubIgnoresInputBeyondRoot(q1: QueryParams, q2: QueryParams)
    requires StubQuery(q1).StubOk? && StubQuery(q2).StubOk?
    ensures StubQuery(q1).result.data.value[1..] == StubQuery(q2).result.data.value[1..]
    ensures StubQuery(q1).result.data.value[0].edges == StubQuery(q2).result.data.value[0].edges
  {
  }
}
