/** The dependency-graph wire records (src/dependency_graph/models.rs). */
module DependencyGraphModels {
  import opened Options

  /** A crate at a version, with its outgoing edges when they are listed. */
  datatype Node = Node(name: string, version: string, edges: Option<seq<Edge>>)

  /** A dependency relationship (its kind) to a target node. */
  datatype Edge = Edge(relationship: string, node: Node)

  datatype QueryResult = QueryResult(data: Option<seq<Node>>)

  /** The query string's `name` and `version`, each possibly absent. */
  datatype QueryParams = QueryParams(name: Option<string>, version: Option<string>)

  /** The error body of a rejected query: a code and a description. */
  datatype ErrorResponse = ErrorResponse(code: string, description: string)

  /** A node with no edge list. */
  predicate IsLeaf(n: Node) {
    n.edges.None?
  }

  /** Every edge of `n` leads to a leaf: the graph below `n` is at most one level deep. */
  predicate DepthAtMostOne(n: Node) {
    n.edges.Some? ==> forall i :: 0 <= i < |n.edges.value| ==> IsLeaf(n.edges.value[i].node)
  }
}
