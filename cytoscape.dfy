/**
 * The element builder of BipartiteCytoscape: from a bipartite graph, the
 * positions of its layout and the per-node and per-edge override dicts, the
 * list of Cytoscape element records (nodes first, then edges) and the preset
 * layout descriptor. Line numbers in comments refer to
 * dash_bipartite/bipartite.py.
 */
module BipartiteCytoscape {
  import opened Wrappers
  import opened PyValues
  import opened Dicts
  import opened Elements
  import opened Bipartite

  /** A position computed by the bipartite layout, before scaling. */
  datatype Coord = Coord(x: real, y: real)

  /** What the component is built with: its elements and its layout descriptor. */
  datatype Cytoscape = Cytoscape(elements: seq<Element>, layout: map<string, Value>)

  /** The layout descriptor: use the positions in the records as they are. */
  const PresetLayout: map<string, Value> := map["name" := StrV("preset")]

  /** The key rewriting {str(key): value for ...} of positions and node overrides. */
  function Coerce(k: NodeId): NodeId {
    StrId(Str(k))
  }

  /** The key rewriting {(str(key1), str(key2)): value for ...} of edge overrides. */
  function CoercePair(p: (NodeId, NodeId)): (string, string) {
    (Str(p.0), Str(p.1))
  }

  /** The positions keyed by string ids, as the constructor reads them. */
  function Positions(coords: Dict<NodeId, Coord>): Dict<NodeId, Coord> {
    Comprehend(coords, Coerce)
  }

  function CoerceNodeOverrides(ov: Option<Dict<NodeId, Entry>>): Option<Dict<NodeId, Entry>> {
    if ov.Some? then Some(Comprehend(ov.value, Coerce)) else None
  }

  function CoerceEdgeOverrides(ov: Option<Dict<(NodeId, NodeId), Entry>>): Option<Dict<(string, string), Entry>> {
    if ov.Some? then Some(Comprehend(ov.value, CoercePair)) else None
  }

  /** A node record as the graph library's Cytoscape export yields it. */
  function RawNode(n: NodeId): Element {
    map["data" := MapV(map["id" := StrV(Str(n)), "value" := IdValue(n), "name" := StrV(Str(n))])]
  }

  /** An edge record as the graph library's Cytoscape export yields it: the attributes, then the endpoints. */
  function RawEdge(e: Edge): Element {
    map["data" := MapV(e.attrs["source" := IdValue(e.u)]["target" := IdValue(e.v)])]
  }

  /** A renderedPosition: the layout position multiplied by scale. */
  function Position(c: Coord, scale: real): Value {
    MapV(map["x" := RealV(c.x * scale), "y" := RealV(c.y * scale)])
  }

  /** A node record before its overrides: id and label both the string id, and the scaled position. */
  function DefaultNode(n: NodeId, c: Coord, scale: real): Element {
    map["data" := MapV(map["id" := StrV(Str(n)), "label" := StrV(Str(n))]),
        "renderedPosition" := Position(c, scale)]
  }

  /** An edge record before its overrides: its attributes, and both endpoints as strings. */
  function DefaultEdge(e: Edge): Element {
    map["data" := MapV(e.attrs["source" := StrV(Str(e.u))]["target" := StrV(Str(e.v))])]
  }

  /**
   * The record of one node, given the positions and the node overrides with
   * their keys already rewritten to strings. Overrides of None raise, as the
   * code is written; with skipNone they are skipped instead.
   */
  function NodeElement(n: NodeId, pos: Dict<NodeId, Coord>, scale: real,
                       ov: Option<Dict<NodeId, Entry>>, skipNone: bool): Result<Element, Error>
  {
    var id := Str(n);
    match Get(pos, StrId(id))
    case None => Err(MissingCoordinate(id))
    case Some(c) =>
      match ov
      case None => if skipNone then Ok(DefaultNode(n, c, scale)) else Err(NoneHasNoItems)
      case Some(d) =>
        match Get(d, StrId(id))
        case None => Err(MissingNodeOverride(id))
        case Some(entry) => Merged(DefaultNode(n, c, scale), entry)
  }

  /** The record of one edge, given the edge overrides with their keys already rewritten. */
  function EdgeElement(e: Edge, ov: Option<Dict<(string, string), Entry>>): Result<Element, Error> {
    match ov
    case None => Ok(DefaultEdge(e))
    case Some(d) =>
      match Get(d, (Str(e.u), Str(e.v)))
      case None => Err(MissingEdgeOverride(Str(e.u), Str(e.v)))
      case Some(entry) => Merged(DefaultEdge(e), entry)
  }

  /** The node records in order; the first node that fails decides the error. */
  function NodeElements(ns: seq<NodeId>, pos: Dict<NodeId, Coord>, scale: real,
                        ov: Option<Dict<NodeId, Entry>>, skipNone: bool): (r: Result<seq<Element>, Error>)
    ensures r.Ok? <==> forall i :: 0 <= i < |ns| ==> NodeElement(ns[i], pos, scale, ov, skipNone).Ok?
    ensures r.Ok? ==> |r.value| == |ns|
    ensures r.Ok? ==> forall i :: 0 <= i < |ns| ==> r.value[i] == NodeElement(ns[i], pos, scale, ov, skipNone).value
  {
    if ns == [] then Ok([])
    else
      var init :- NodeElements(ns[..|ns| - 1], pos, scale, ov, skipNone);
      var last :- NodeElement(ns[|ns| - 1], pos, scale, ov, skipNone);
      Ok(init + [last])
  }

  /** The edge records in order; the first edge that fails decides the error. */
  function EdgeElements(es: seq<Edge>, ov: Option<Dict<(string, string), Entry>>): (r: Result<seq<Element>, Error>)
    ensures r.Ok? <==> forall i :: 0 <= i < |es| ==> EdgeElement(es[i], ov).Ok?
    ensures r.Ok? ==> |r.value| == |es|
    ensures r.Ok? ==> forall i :: 0 <= i < |es| ==> r.value[i] == EdgeElement(es[i], ov).value
  {
    if es == [] then Ok([])
    else
      var init :- EdgeElements(es[..|es| - 1], ov);
      var last :- EdgeElement(es[|es| - 1], ov);
      Ok(init + [last])
  }

  /** What the constructor builds: the node records, then the edge records, and the preset layout. */
  function RenderWith(skipNone: bool, g: GraphValue, coords: Dict<NodeId, Coord>, scale: real,
                      nodeOv: Option<Dict<NodeId, Entry>>,
                      edgeOv: Option<Dict<(NodeId, NodeId), Entry>>): Result<Cytoscape, Error>
  {
    if !g.BipartiteGraph? then Err(NotBipartite)
    else
      var nodes :- NodeElements(g.graph.nodes, Positions(coords), scale,
                                CoerceNodeOverrides(nodeOv), skipNone);
      var edges :- EdgeElements(g.graph.edges, CoerceEdgeOverrides(edgeOv));
      Ok(Cytoscape(nodes + edges, PresetLayout))
  }

  /** The constructor as written. */
  function Render(g: GraphValue, coords: Dict<NodeId, Coord>, scale: real,
                  nodeOv: Option<Dict<NodeId, Entry>>,
                  edgeOv: Option<Dict<(NodeId, NodeId), Entry>>): Result<Cytoscape, Error>
  {
    RenderWith(false, g, coords, scale, nodeOv, edgeOv)
  }

  /** The constructor as its None default for node overrides evidently intends: None skips the overrides. */
  function RenderIntended(g: GraphValue, coords: Dict<NodeId, Coord>, scale: real,
                          nodeOv: Option<Dict<NodeId, Entry>>,
                          edgeOv: Option<Dict<(NodeId, NodeId), Entry>>): Result<Cytoscape, Error>
  {
    RenderWith(true, g, coords, scale, nodeOv, edgeOv)
  }

  /** The node records are the records of the nodes, one by one, when none of them fails. */
  lemma {:induction false} NodeElementsOk(ns: seq<NodeId>, pos: Dict<NodeId, Coord>, scale: real,
                                          ov: Option<Dict<NodeId, Entry>>, skipNone: bool, out: seq<Element>)
    requires |out| == |ns|
    requires forall j :: 0 <= j < |ns| ==> NodeElement(ns[j], pos, scale, ov, skipNone) == Ok(out[j])
    ensures NodeElements(ns, pos, scale, ov, skipNone) == Ok(out)
  {
    if ns != [] {
      var p, q := ns[..|ns| - 1], out[..|out| - 1];
      assert forall j :: 0 <= j < |p| ==> NodeElement(p[j], pos, scale, ov, skipNone) == Ok(q[j]) by {
        forall j | 0 <= j < |p| ensures NodeElement(p[j], pos, scale, ov, skipNone) == Ok(q[j]) {
          assert p[j] == ns[j] && q[j] == out[j];
        }
      }
      NodeElementsOk(p, pos, scale, ov, skipNone, q);
      assert NodeElement(ns[|ns| - 1], pos, scale, ov, skipNone) == Ok(out[|out| - 1]);
      assert q + [out[|out| - 1]] == out;
    }
  }

  /** The first node that fails decides the error. */
  lemma {:induction false} NodeElementsErr(ns: seq<NodeId>, pos: Dict<NodeId, Coord>, scale: real,
                                           ov: Option<Dict<NodeId, Entry>>, skipNone: bool, i: nat)
    requires i < |ns|
    requires forall j :: 0 <= j < i ==> NodeElement(ns[j], pos, scale, ov, skipNone).Ok?
    requires NodeElement(ns[i], pos, scale, ov, skipNone).Err?
    ensures NodeElements(ns, pos, scale, ov, skipNone) == Err(NodeElement(ns[i], pos, scale, ov, skipNone).error)
  {
    var p := ns[..|ns| - 1];
    if i < |ns| - 1 {
      assert forall j :: 0 <= j < i ==> NodeElement(p[j], pos, scale, ov, skipNone).Ok? by {
        forall j | 0 <= j < i ensures NodeElement(p[j], pos, scale, ov, skipNone).Ok? {
          assert p[j] == ns[j];
        }
      }
      assert p[i] == ns[i];
      NodeElementsErr(p, pos, scale, ov, skipNone, i);
    } else {
      assert forall j :: 0 <= j < |p| ==> NodeElement(p[j], pos, scale, ov, skipNone).Ok? by {
        forall j | 0 <= j < |p| ensures NodeElement(p[j], pos, scale, ov, skipNone).Ok? {
          assert p[j] == ns[j];
        }
      }
    }
  }

  /** The edge records are the records of the edges, one by one, when none of them fails. */
  lemma {:induction false} EdgeElementsOk(es: seq<Edge>, ov: Option<Dict<(string, string), Entry>>, out: seq<Element>)
    requires |out| == |es|
    requires forall j :: 0 <= j < |es| ==> EdgeElement(es[j], ov) == Ok(out[j])
    ensures EdgeElements(es, ov) == Ok(out)
  {
    if es != [] {
      var p, q := es[..|es| - 1], out[..|out| - 1];
      assert forall j :: 0 <= j < |p| ==> EdgeElement(p[j], ov) == Ok(q[j]) by {
        forall j | 0 <= j < |p| ensures EdgeElement(p[j], ov) == Ok(q[j]) {
          assert p[j] == es[j] && q[j] == out[j];
        }
      }
      EdgeElementsOk(p, ov, q);
      assert EdgeElement(es[|es| - 1], ov) == Ok(out[|out| - 1]);
      assert q + [out[|out| - 1]] == out;
    }
  }

  /** The first edge that fails decides the error. */
  lemma {:induction false} EdgeElementsErr(es: seq<Edge>, ov: Option<Dict<(string, string), Entry>>, i: nat)
    requires i < |es|
    requires forall j :: 0 <= j < i ==> EdgeElement(es[j], ov).Ok?
    requires EdgeElement(es[i], ov).Err?
    ensures EdgeElements(es, ov) == Err(EdgeElement(es[i], ov).error)
  {
    var p := es[..|es| - 1];
    if i < |es| - 1 {
      assert forall j :: 0 <= j < i ==> EdgeElement(p[j], ov).Ok? by {
        forall j | 0 <= j < i ensures EdgeElement(p[j], ov).Ok? {
          assert p[j] == es[j];
        }
      }
      assert p[i] == es[i];
      EdgeElementsErr(p, ov, i);
    } else {
      assert forall j :: 0 <= j < |p| ==> EdgeElement(p[j], ov).Ok? by {
        forall j | 0 <= j < |p| ensures EdgeElement(p[j], ov).Ok? {
          assert p[j] == es[j];
        }
      }
    }
  }

  /** Lines 104-109 turn the exported record into the default node record. */
  lemma PreparedIsDefault(n: NodeId, c: Coord, scale: real)
    ensures var node := RawNode(n)["renderedPosition" := Position(c, scale)];
            var data := node["data"].fields;
            node["data" := MapV(data["label" := data["id"]] - {"name"} - {"value"})] == DefaultNode(n, c, scale)
  {
    var node := RawNode(n)["renderedPosition" := Position(c, scale)];
    var data := node["data"].fields;
    assert data["label" := data["id"]] - {"name"} - {"value"} == map["id" := StrV(Str(n)), "label" := StrV(Str(n))];
  }

  /** Rewriting the keys a second time changes nothing: str of a str is the str itself. */
  lemma CoerceTwice(d: Dict<NodeId, Entry>)
    ensures Comprehend(Comprehend(d, Coerce), Coerce) == Comprehend(d, Coerce)
  {
    var c := Comprehend(d, Coerce);
    ComprehendKeys(d, Coerce);
    forall i | 0 <= i < |c| ensures Coerce(c[i].0) == c[i].0 {
      assert c[i].0 in Keys(c);
    }
    ComprehendFixed(c, Coerce);
  }

  lemma CoerceOverridesTwice(ov: Option<Dict<NodeId, Entry>>)
    ensures CoerceNodeOverrides(CoerceNodeOverrides(ov)) == CoerceNodeOverrides(ov)
  {
    if ov.Some? {
      CoerceTwice(ov.value);
    }
  }

  /** Writing str() of both endpoints over the exported data block gives the default edge's data block. */
  lemma StringifiedEndpoints(e: Edge)
    ensures var data := RawEdge(e)["data"].fields;
      && (data["source"].IntV? || data["source"].StrV?)
      && (data["target"].IntV? || data["target"].StrV?)
      && data["source" := StrV(StrOf(data["source"]))]["target" := StrV(StrOf(data["target"]))] ==
         DefaultEdge(e)["data"].fields
  {
  }

  /** The loop that makes the endpoints of every edge record strings. */
  method StringifyEndpoints(es: seq<Edge>) returns (edges: seq<Element>)
    ensures |edges| == |es|
    ensures forall j :: 0 <= j < |es| ==> edges[j] == DefaultEdge(es[j])
  {
    edges := seq(|es|, j requires 0 <= j < |es| => RawEdge(es[j]));
    for i := 0 to |edges|
      invariant |edges| == |es|
      invariant forall j :: 0 <= j < i ==> edges[j] == DefaultEdge(es[j])
      invariant forall j :: i <= j < |es| ==> edges[j] == RawEdge(es[j])
    {
      var data := edges[i]["data"].fields;
      StringifiedEndpoints(es[i]);
      data := data["source" := StrV(StrOf(data["source"]))];
      data := data["target" := StrV(StrOf(data["target"]))];
      edges := edges[i := edges[i]["data" := MapV(data)]];
    }
  }

  /** One pass of the loop at lines 103-121, for the exported record of node n. */
  method BuildNode(node: Element, ghost n: NodeId, pos: Dict<NodeId, Coord>, scale: real,
                   overrides: Option<Dict<NodeId, Entry>>)
    returns (r: Result<Element, Error>, coerced: Option<Dict<NodeId, Entry>>)
    requires node == RawNode(n)
    ensures r == NodeElement(n, pos, scale, CoerceNodeOverrides(overrides), false)
    ensures r.Ok? ==> coerced == CoerceNodeOverrides(overrides)
  {
    coerced := overrides;
    var nodeId := node["data"].fields["id"].s;
    var xy := Get(pos, StrId(nodeId));
    if xy.None? {
      return Err(MissingCoordinate(nodeId)), coerced;
    }
    var element := node["renderedPosition" := Position(xy.value, scale)];
    var data := element["data"].fields;
    data := data["label" := data["id"]];
    data := data - {"name"};
    data := data - {"value"};
    element := element["data" := MapV(data)];
    PreparedIsDefault(n, xy.value, scale);
    // The keys are rewritten before the overrides are checked against None.
    if coerced.None? {
      return Err(NoneHasNoItems), coerced;
    }
    coerced := Some(Comprehend(coerced.value, Coerce));
    var entry := Get(coerced.value, StrId(nodeId));
    if entry.None? {
      return Err(MissingNodeOverride(nodeId)), coerced;
    }
    r := Merge(element, entry.value);
  }

  /** Lines 103-121: position, label and overrides of every node record. */
  method BuildNodes(ns: seq<NodeId>, pos: Dict<NodeId, Coord>, scale: real, nodeOv: Option<Dict<NodeId, Entry>>)
    returns (r: Result<seq<Element>, Error>)
    ensures r == NodeElements(ns, pos, scale, CoerceNodeOverrides(nodeOv), false)
  {
    var nodes := seq(|ns|, j requires 0 <= j < |ns| => RawNode(ns[j]));
    var overrides := nodeOv;
    ghost var coerced := CoerceNodeOverrides(nodeOv);
    for i := 0 to |nodes|
      invariant |nodes| == |ns|
      invariant forall j :: 0 <= j < i ==> NodeElement(ns[j], pos, scale, coerced, false) == Ok(nodes[j])
      invariant forall j :: i <= j < |ns| ==> nodes[j] == RawNode(ns[j])
      invariant overrides == nodeOv || overrides == coerced
    {
      CoerceOverridesTwice(nodeOv);
      assert CoerceNodeOverrides(overrides) == coerced;
      var node;
      node, overrides := BuildNode(nodes[i], ns[i], pos, scale, overrides);
      if node.Err? {
        NodeElementsErr(ns, pos, scale, coerced, false, i);
        return Err(node.error);
      }
      nodes := nodes[i := node.value];
    }
    NodeElementsOk(ns, pos, scale, coerced, false, nodes);
    return Ok(nodes);
  }

  /** One pass of the loop at lines 128-136, for the record of edge e. */
  method OverrideEdge(edge: Element, ghost e: Edge, overrides: Option<Dict<(string, string), Entry>>)
    returns (r: Result<Element, Error>)
    requires edge == DefaultEdge(e)
    ensures r == EdgeElement(e, overrides)
  {
    var tupleId := (edge["data"].fields["source"].s, edge["data"].fields["target"].s);
    if overrides.Some? {
      var entry := Get(overrides.value, tupleId);
      if entry.None? {
        return Err(MissingEdgeOverride(tupleId.0, tupleId.1));
      }
      r := Merge(edge, entry.value);
    } else {
      r := Ok(edge);
    }
  }

  /** Lines 122-136: the overrides of every edge record, looked up by its (source, target) strings. */
  method ApplyEdgeOverrides(es: seq<Edge>, edges: seq<Element>, edgeOv: Option<Dict<(NodeId, NodeId), Entry>>)
    returns (r: Result<seq<Element>, Error>)
    requires |edges| == |es|
    requires forall j :: 0 <= j < |es| ==> edges[j] == DefaultEdge(es[j])
    ensures r == EdgeElements(es, CoerceEdgeOverrides(edgeOv))
  {
    var overrides: Option<Dict<(string, string), Entry>> := None;
    if edgeOv.Some? {
      overrides := Some(Comprehend(edgeOv.value, CoercePair));
    }
    var out := edges;
    for i := 0 to |out|
      invariant |out| == |es|
      invariant forall j :: 0 <= j < i ==> EdgeElement(es[j], overrides) == Ok(out[j])
      invariant forall j :: i <= j < |es| ==> out[j] == DefaultEdge(es[j])
    {
      var edge := OverrideEdge(out[i], es[i], overrides);
      if edge.Err? {
        EdgeElementsErr(es, overrides, i);
        return Err(edge.error);
      }
      out := out[i := edge.value];
    }
    EdgeElementsOk(es, overrides, out);
    return Ok(out);
  }

  /** BipartiteCytoscape.__init__ up to the call of the component's own constructor (lines 89-140). */
  method BuildElements(g: GraphValue, coords: Dict<NodeId, Coord>, scale: real,
                       nodeOv: Option<Dict<NodeId, Entry>>,
                       edgeOv: Option<Dict<(NodeId, NodeId), Entry>>)
    returns (r: Result<Cytoscape, Error>)
    ensures r == Render(g, coords, scale, nodeOv, edgeOv)
  {
    if !g.BipartiteGraph? {
      return Err(NotBipartite);
    }
    var pos := Comprehend(coords, Coerce);
    var edges := StringifyEndpoints(g.graph.edges);
    var nodes :- BuildNodes(g.graph.nodes, pos, scale, nodeOv);
    edges :- ApplyEdgeOverrides(g.graph.edges, edges, edgeOv);
    return Ok(Cytoscape(nodes + edges, PresetLayout));
  }
}
