/**
 * The bipartite graph: a graph together with the two node collections that
 * form its partition, and its construction from the rows of a data frame.
 */
module Bipartite {
  import opened Wrappers
  import opened PyValues

  /** An edge as the graph yields it: two endpoints, in this orientation, and its attributes. */
  datatype Edge = Edge(u: NodeId, v: NodeId, attrs: map<string, Value>)

  /** The nodes and the edges of a graph, in the order the graph yields them. */
  datatype Graph = Graph(nodes: seq<NodeId>, edges: seq<Edge>)

  /** A graph as handed to the element builder: a plain graph, or a BipartiteGraph with its two collections. */
  datatype GraphValue =
    | PlainGraph(graph: Graph)
    | BipartiteGraph(sources: seq<NodeId>, targets: seq<NodeId>, graph: Graph)

  /** The columns of a data frame that hold node identifiers, each one in row order. */
  type Frame = map<string, seq<NodeId>>

  /**
   * from_pandas_edgelist: g is the graph the graph library builds from the
   * rows; the partition is the source column and the target column as they
   * stand. A missing column raises KeyError.
   */
  function FromPandasEdgelist(df: Frame, source: string, target: string, g: Graph): (r: Result<GraphValue, Error>)
    ensures r.Ok? <==> source in df && target in df
    ensures r.Err? ==> r.error == MissingColumn(if source in df then target else source)
  {
    if source !in df then Err(MissingColumn(source))
    else if target !in df then Err(MissingColumn(target))
    else Ok(BipartiteGraph(df[source], df[target], g))
  }

  /** The partition is the two columns, row for row, duplicates kept. */
  lemma FromPandasKeepsColumns(df: Frame, source: string, target: string, g: Graph)
    requires source in df && target in df
    ensures FromPandasEdgelist(df, source, target, g).Ok?
    ensures var b := FromPandasEdgelist(df, source, target, g).value;
      && b.BipartiteGraph? && b.graph == g
      && |b.sources| == |df[source]| && |b.targets| == |df[target]|
      && (forall i :: 0 <= i < |df[source]| ==> b.sources[i] == df[source][i])
      && (forall i :: 0 <= i < |df[target]| ==> b.targets[i] == df[target][i])
      && multiset(b.sources) == multiset(df[source])
      && multiset(b.targets) == multiset(df[target])
  {
  }

  /** Edge e joins the source and the target of row i. */
  ghost predicate EdgeFromRow(e: Edge, sources: seq<NodeId>, targets: seq<NodeId>, i: int) {
    0 <= i < |sources| && i < |targets| && {e.u, e.v} == {sources[i], targets[i]}
  }

  /** Every edge joins the source and the target of some row, as the graph library builds it. */
  ghost predicate EdgesFromRows(g: Graph, sources: seq<NodeId>, targets: seq<NodeId>) {
    forall j :: 0 <= j < |g.edges| ==> exists i :: EdgeFromRow(g.edges[j], sources, targets, i)
  }

  /** For a graph built from the rows, both endpoints of every edge lie in the partition. */
  lemma EndpointsInPartition(df: Frame, source: string, target: string, g: Graph, j: nat)
    requires source in df && target in df
    requires EdgesFromRows(g, df[source], df[target])
    requires j < |g.edges|
    ensures FromPandasEdgelist(df, source, target, g).Ok?
    ensures var b := FromPandasEdgelist(df, source, target, g).value;
      && b.BipartiteGraph?
      && (g.edges[j].u in b.sources || g.edges[j].u in b.targets)
      && (g.edges[j].v in b.sources || g.edges[j].v in b.targets)
  {
    var i :| EdgeFromRow(g.edges[j], df[source], df[target], i);
    assert g.edges[j].u in {df[source][i], df[target][i]};
    assert g.edges[j].v in {df[source][i], df[target][i]};
  }
}
