/**
 * The dependency-graph endpoint (src/dependency_graph/endpoints.rs): query
 * validation, one registry call, and the reshaping of the registry's
 * dependency list into a one-root, one-level graph.
 */
module DependencyGraphEndpoints {
  import opened Options
  import opened CrateRegistry
  import opened DependencyGraphModels

  const QueryErrorCode: string := "query"
  const MissingName: string := "missing field `name`"
  const MissingVersion: string := "missing field `version`"

  /**
   * Deserialisation of the query string into a name and a version, both
   * required. A missing `name` is reported first, whatever `version` is.
   */
  function ParseQuery(q: QueryParams): (r: Result<(string, string), ErrorResponse>)
    ensures r.Ok? <==> q.name.Some? && q.version.Some?
    ensures r.Ok? ==> QueryParams(Some(r.value.0), Some(r.value.1)) == q
    ensures q.name.None? ==> r == Err(ErrorResponse(QueryErrorCode, MissingName))
    ensures q.name.Some? && q.version.None? ==> r == Err(ErrorResponse(QueryErrorCode, MissingVersion))
  {
    match (q.name, q.version)
    case (None, _) => Err(ErrorResponse(QueryErrorCode, MissingName))
    case (Some(_), None) => Err(ErrorResponse(QueryErrorCode, MissingVersion))
    case (Some(name), Some(version)) => Ok((name, version))
  }

  /** The edge for one dependency: its kind, to a leaf named by crate and requirement. */
  function EdgeOf(d: Dependency): Edge {
    Edge(d.kind, Node(d.crateId, d.req, None))
  }

  /** One edge per dependency, in the same order. */
  function EdgesOf(deps: seq<Dependency>): (es: seq<Edge>)
    ensures |es| == |deps|
    ensures forall i :: 0 <= i < |deps| ==> es[i].relationship == deps[i].kind
    ensures forall i :: 0 <= i < |deps| ==> es[i].node.name == deps[i].crateId
    ensures forall i :: 0 <= i < |deps| ==> es[i].node.version == deps[i].req
    ensures forall i :: 0 <= i < |deps| ==> IsLeaf(es[i].node)
  {
    if |deps| == 0 then [] else [EdgeOf(deps[0])] + EdgesOf(deps[1..])
  }

  /** The fields of a dependency that reach the graph: crate, requirement and kind. */
  function DependencyKeys(deps: seq<Dependency>): seq<(string, string, string)> {
    seq(|deps|, i requires 0 <= i < |deps| => (deps[i].crateId, deps[i].req, deps[i].kind))
  }

  /** Reads the (crate, requirement, kind) triples back off a list of edges. */
  function EdgeKeys(es: seq<Edge>): seq<(string, string, string)> {
    seq(|es|, i requires 0 <= i < |es| => (es[i].node.name, es[i].node.version, es[i].relationship))
  }

  /**
   * The graph of a crate version: a single root carrying the queried name
   * and version, whose edges are one-to-one and in order with the
   * dependencies: reading (crate, requirement, kind) back off the edges
   * gives the dependencies' own, in order. Child versions are the literal
   * requirement strings, not resolved versions.
   */
  function BuildGraph(name: string, version: string, deps: seq<Dependency>): (r: QueryResult)
    ensures r.data.Some? && |r.data.value| == 1
    ensures r.data.value[0].name == name && r.data.value[0].version == version
    ensures r.data.value[0].edges.Some?
    ensures EdgeKeys(r.data.value[0].edges.value) == DependencyKeys(deps)
    ensures DepthAtMostOne(r.data.value[0])
  {
    QueryResult(Some([Node(name, version, Some(EdgesOf(deps)))]))
  }

  /**
   * The graph depends only on each dependency's crate, requirement and
   * kind: ids, flags, features, target and download counts are ignored.
   */
  lemma {:induction false} OnlyKeysMatter(name: string, version: string, d1: seq<Dependency>, d2: seq<Dependency>)
    requires DependencyKeys(d1) == DependencyKeys(d2)
    ensures BuildGraph(name, version, d1) == BuildGraph(name, version, d2)
  {
    assert |d1| == |DependencyKeys(d1)| == |d2|;
    var e1, e2 := EdgesOf(d1), EdgesOf(d2);
    forall i | 0 <= i < |e1|
      ensures e1[i] == e2[i]
    {
      assert DependencyKeys(d1)[i] == DependencyKeys(d2)[i];
    }
    assert e1 == e2;
  }

  /** The response of the endpoint; `Aborted` is the request task panicking on a registry failure. */
  datatype GraphResponse =
    | Ok200(result: QueryResult)
    | BadRequest400(error: ErrorResponse)
    | Aborted(cause: RegistryError)

  /**
   * The dependency-graph query: a malformed query is rejected before the
   * registry is asked; otherwise the registry's list is reshaped into the
   * graph, and a registry failure aborts the request.
   */
  function Query(q: QueryParams, fetch: (string, string) -> Result<seq<Dependency>, RegistryError>): (r: GraphResponse)
    ensures r.BadRequest400? <==> q.name.None? || q.version.None?
    ensures r.BadRequest400? ==> r.error.code == QueryErrorCode
    ensures q.name.None? ==> r == BadRequest400(ErrorResponse(QueryErrorCode, MissingName))
    ensures q.name.Some? && q.version.None? ==> r == BadRequest400(ErrorResponse(QueryErrorCode, MissingVersion))
    ensures q.name.Some? && q.version.Some? ==>
      match fetch(q.name.value, q.version.value)
      case Ok(deps) => r == Ok200(BuildGraph(q.name.value, q.version.value, deps))
      case Err(e) => r == Aborted(e)
  {
    match ParseQuery(q)
    case Err(e) => BadRequest400(e)
    case Ok((name, version)) =>
      match fetch(name, version)
      case Ok(deps) => Ok200(BuildGraph(name, version, deps))
      case Err(e) => Aborted(e)
  }

  /** The example of the endpoint's tests: two dependencies become two edges, verbatim and in order. */
  lemma QueryExample()
    ensures
      var a := Dependency(1, 1, "crate-a", "1.0.1", false, false, None, None, "dev", 0);
      var b := Dependency(2, 2, "crate-b", "1.0.2", false, false, None, None, "normal", 0);
      Query(QueryParams(Some("name"), Some("version")), (n, v) => Ok([a, b]))
      == Ok200(QueryResult(Some([Node("name", "version", Some([
           Edge("dev", Node("crate-a", "1.0.1", None)),
           Edge("normal", Node("crate-b", "1.0.2", None))]))])))
  {
    var a := Dependency(1, 1, "crate-a", "1.0.1", false, false, None, None, "dev", 0);
    var b := Dependency(2, 2, "crate-b", "1.0.2", false, false, None, None, "normal", 0);
    assert [a, b][1..] == [b];
    assert [b][1..] == [];
    assert EdgesOf([b]) == [EdgeOf(b)];
    assert EdgesOf([a, b]) == [EdgeOf(a), EdgeOf(b)];
  }
}
