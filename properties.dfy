/**
 * What the element builder promises: how a record is composed, which
 * lookups are strict, the order and number of the records, and the
 * repository's own test stated for every graph of its shape. The lemmas
 * about the whole constructor take skipNone: they hold for the constructor
 * as written (false) and for the corrected one (true).
 */
module BuilderProperties {
  import opened Wrappers
  import opened PyValues
  import opened Dicts
  import opened Elements
  import opened Bipartite
  import opened BipartiteCytoscape

  /** The override entry that the record of node n takes (none when there is nothing to take). */
  function NodeEntry(n: NodeId, ov: Option<Dict<NodeId, Entry>>): Entry {
    if ov.Some? && Get(ov.value, StrId(Str(n))).Some? then Get(ov.value, StrId(Str(n))).value else []
  }

  /** The override entry that the record of edge e takes (none when there is nothing to take). */
  function EdgeEntry(e: Edge, ov: Option<Dict<(string, string), Entry>>): Entry {
    if ov.Some? && Get(ov.value, (Str(e.u), Str(e.v))).Some? then Get(ov.value, (Str(e.u), Str(e.v))).value else []
  }

  /**
   * A node record, key by key: in the data block, a reserved key of its
   * entry has the entry's value, id and label are otherwise the string id,
   * and nothing else is there (name and value are gone); on the record, a
   * non-reserved key of its entry has the entry's value, renderedPosition
   * is otherwise the scaled position, and nothing else is there.
   */
  lemma NodeRecord(n: NodeId, pos: Dict<NodeId, Coord>, scale: real,
                   ov: Option<Dict<NodeId, Entry>>, skipNone: bool, key: string)
    requires NodeElement(n, pos, scale, ov, skipNone).Ok?
    requires "data" !in Keys(NodeEntry(n, ov))
    ensures Get(pos, StrId(Str(n))).Some? && HasDataBlock(NodeElement(n, pos, scale, ov, skipNone).value)
    ensures At(Data(NodeElement(n, pos, scale, ov, skipNone).value), key) ==
            if key in Keys(NodeEntry(n, ov)) && key in Reserved then Some(ToMap(NodeEntry(n, ov))[key])
            else if key == "id" || key == "label" then Some(StrV(Str(n)))
            else None
    ensures key != "data" ==>
            At(NodeElement(n, pos, scale, ov, skipNone).value, key) ==
            if key in Keys(NodeEntry(n, ov)) && key !in Reserved then Some(ToMap(NodeEntry(n, ov))[key])
            else if key == "renderedPosition" then Some(Position(Get(pos, StrId(Str(n))).value, scale))
            else None
  {
    var c := Get(pos, StrId(Str(n))).value;
    var base := DefaultNode(n, c, scale);
    RoutingAt(base, NodeEntry(n, ov), key);
    if ov.None? {
      assert Merged(base, []) == Ok(base);
    }
  }

  /** The label is the string id unless the node's entry gives one. */
  lemma NodeLabel(n: NodeId, pos: Dict<NodeId, Coord>, scale: real,
                  ov: Option<Dict<NodeId, Entry>>, skipNone: bool)
    requires NodeElement(n, pos, scale, ov, skipNone).Ok?
    requires "data" !in Keys(NodeEntry(n, ov))
    ensures HasDataBlock(NodeElement(n, pos, scale, ov, skipNone).value)
    ensures "label" in Data(NodeElement(n, pos, scale, ov, skipNone).value)
    ensures Data(NodeElement(n, pos, scale, ov, skipNone).value)["label"] ==
            if "label" in Keys(NodeEntry(n, ov)) then ToMap(NodeEntry(n, ov))["label"] else StrV(Str(n))
  {
    NodeRecord(n, pos, scale, ov, skipNone, "label");
  }

  /** name and value never come back into the data block: they are not reserved keys. */
  lemma NodeDataHasNoNameOrValue(n: NodeId, pos: Dict<NodeId, Coord>, scale: real,
                                 ov: Option<Dict<NodeId, Entry>>, skipNone: bool)
    requires NodeElement(n, pos, scale, ov, skipNone).Ok?
    requires "data" !in Keys(NodeEntry(n, ov))
    ensures HasDataBlock(NodeElement(n, pos, scale, ov, skipNone).value)
    ensures "name" !in Data(NodeElement(n, pos, scale, ov, skipNone).value)
    ensures "value" !in Data(NodeElement(n, pos, scale, ov, skipNone).value)
  {
    NodeRecord(n, pos, scale, ov, skipNone, "name");
    NodeRecord(n, pos, scale, ov, skipNone, "value");
  }

  /** renderedPosition is the scaled layout position unless the node's entry replaces it. */
  lemma NodePosition(n: NodeId, pos: Dict<NodeId, Coord>, scale: real,
                     ov: Option<Dict<NodeId, Entry>>, skipNone: bool)
    requires NodeElement(n, pos, scale, ov, skipNone).Ok?
    requires "data" !in Keys(NodeEntry(n, ov))
    ensures Get(pos, StrId(Str(n))).Some?
    ensures "renderedPosition" in NodeElement(n, pos, scale, ov, skipNone).value
    ensures NodeElement(n, pos, scale, ov, skipNone).value["renderedPosition"] ==
            if "renderedPosition" in Keys(NodeEntry(n, ov)) then ToMap(NodeEntry(n, ov))["renderedPosition"]
            else MapV(map["x" := RealV(Get(pos, StrId(Str(n))).value.x * scale),
                          "y" := RealV(Get(pos, StrId(Str(n))).value.y * scale)])
  {
    NodeRecord(n, pos, scale, ov, skipNone, "renderedPosition");
  }

  /** Where the ids of the layout's dict keep apart under str(), a node's position is the one stored under its id. */
  lemma PositionOfNode(coords: Dict<NodeId, Coord>, n: NodeId)
    requires InjectiveOnKeys(coords, Coerce)
    requires n in Keys(coords)
    ensures Get(Positions(coords), StrId(Str(n))) == Get(coords, n)
  {
    ComprehendInjective(coords, Coerce, n);
  }

  /** Int ids keep apart under str(). */
  lemma IntIdsKeepApart<V>(d: Dict<NodeId, V>)
    requires DistinctKeys(d)
    requires forall i :: 0 <= i < |d| ==> d[i].0.IntId?
    ensures InjectiveOnKeys(d, Coerce)
  {
    forall i, j | 0 <= i < |d| && 0 <= j < |d| && Coerce(d[i].0) == Coerce(d[j].0) ensures i == j {
      StrSeparatesSameKind(d[i].0, d[j].0);
    }
  }

  /** The int 1 and the str "1" share one key after the rewriting, and the later value wins. */
  lemma CoercionMergesKeys<V>(a: V, b: V)
    ensures Comprehend([(IntId(1), a), (StrId("1"), b)], Coerce) == [(StrId("1"), b)]
  {
    StrMergesIntAndText();
    assert [(IntId(1), a), (StrId("1"), b)][..1] == [(IntId(1), a)];
    assert [(IntId(1), a)][..0] == [];
    assert Comprehend([(IntId(1), a)], Coerce) == [(StrId("1"), a)];
    assert Keys([(StrId("1"), a)]) == {StrId("1")} by {
      KeysCons([(StrId("1"), a)]);
    }
  }

  /**
   * An edge record, key by key: in the data block, a reserved key of its
   * entry has the entry's value, source and target are otherwise the
   * endpoints as strings, and the edge's attributes are there otherwise; on
   * the record, a non-reserved key of its entry has the entry's value and
   * nothing else is there.
   */
  lemma EdgeRecord(e: Edge, ov: Option<Dict<(string, string), Entry>>, key: string)
    requires EdgeElement(e, ov).Ok?
    requires "data" !in Keys(EdgeEntry(e, ov))
    ensures HasDataBlock(EdgeElement(e, ov).value)
    ensures At(Data(EdgeElement(e, ov).value), key) ==
            if key in Keys(EdgeEntry(e, ov)) && key in Reserved then Some(ToMap(EdgeEntry(e, ov))[key])
            else if key == "source" then Some(StrV(Str(e.u)))
            else if key == "target" then Some(StrV(Str(e.v)))
            else At(e.attrs, key)
    ensures key != "data" ==>
            At(EdgeElement(e, ov).value, key) ==
            if key in Keys(EdgeEntry(e, ov)) && key !in Reserved then Some(ToMap(EdgeEntry(e, ov))[key]) else None
  {
    RoutingAt(DefaultEdge(e), EdgeEntry(e, ov), key);
    if ov.None? {
      assert Merged(DefaultEdge(e), []) == Ok(DefaultEdge(e));
    }
  }

  /** Unless its entry sets them, the endpoints of an edge record are the string ids. */
  lemma EdgeEndpointsAreStrings(e: Edge, ov: Option<Dict<(string, string), Entry>>)
    requires EdgeElement(e, ov).Ok?
    requires "data" !in Keys(EdgeEntry(e, ov))
    requires "source" !in Keys(EdgeEntry(e, ov)) && "target" !in Keys(EdgeEntry(e, ov))
    ensures HasDataBlock(EdgeElement(e, ov).value)
    ensures At(Data(EdgeElement(e, ov).value), "source") == Some(StrV(Str(e.u)))
    ensures At(Data(EdgeElement(e, ov).value), "target") == Some(StrV(Str(e.v)))
  {
    EdgeRecord(e, ov, "source");
    EdgeRecord(e, ov, "target");
  }

  /** Edge overrides are looked up by the edge's own orientation: a missing pair fails. */
  lemma EdgeLookupIsExact(e: Edge, d: Dict<(string, string), Entry>)
    ensures EdgeElement(e, Some(d)) == Err(MissingEdgeOverride(Str(e.u), Str(e.v))) <==> (Str(e.u), Str(e.v)) !in Keys(d)
  {
    if (Str(e.u), Str(e.v)) in Keys(d) {
      var entry := Get(d, (Str(e.u), Str(e.v))).value;
      MergedFailsOnlyOnData(DefaultEdge(e), entry);
    }
  }

  /** A merge fails only because of a data block that is not a dict. */
  lemma {:induction false} MergedFailsOnlyOnData(el: Element, entry: Entry)
    ensures Merged(el, entry).Err? ==> Merged(el, entry).error == DataNotDict
  {
    if entry != [] {
      MergedFailsOnlyOnData(el, entry[..|entry| - 1]);
    }
  }

  /** An override entry keyed by the reversed pair does not serve the edge. */
  lemma ReversedEdgeKeyFails(e: Edge, entry: Entry)
    requires Str(e.u) != Str(e.v)
    ensures EdgeElement(e, CoerceEdgeOverrides(Some([((e.v, e.u), entry)]))) ==
            Err(MissingEdgeOverride(Str(e.u), Str(e.v)))
  {
    var d := [((e.v, e.u), entry)];
    ComprehendKeys(d, CoercePair);
    assert Keys(d) == {(e.v, e.u)} by {
      KeysCons(d);
    }
    EdgeLookupIsExact(e, Comprehend(d, CoercePair));
  }

  /**
   * The elements are the node records in the graph's node order, then the
   * edge records in its edge order, one per node and one per edge; the
   * layout is the preset one.
   */
  lemma RenderShape(skipNone: bool, g: GraphValue, coords: Dict<NodeId, Coord>, scale: real,
                    nodeOv: Option<Dict<NodeId, Entry>>, edgeOv: Option<Dict<(NodeId, NodeId), Entry>>)
    requires RenderWith(skipNone, g, coords, scale, nodeOv, edgeOv).Ok?
    ensures g.BipartiteGraph?
    ensures RenderWith(skipNone, g, coords, scale, nodeOv, edgeOv).value.layout == map["name" := StrV("preset")]
    ensures |RenderWith(skipNone, g, coords, scale, nodeOv, edgeOv).value.elements| == |g.graph.nodes| + |g.graph.edges|
    ensures forall i :: 0 <= i < |g.graph.nodes| ==>
      NodeElement(g.graph.nodes[i], Positions(coords), scale, CoerceNodeOverrides(nodeOv), skipNone) ==
      Ok(RenderWith(skipNone, g, coords, scale, nodeOv, edgeOv).value.elements[i])
    ensures forall j :: 0 <= j < |g.graph.edges| ==>
      EdgeElement(g.graph.edges[j], CoerceEdgeOverrides(edgeOv)) ==
      Ok(RenderWith(skipNone, g, coords, scale, nodeOv, edgeOv).value.elements[|g.graph.nodes| + j])
  {
    var nodes := NodeElements(g.graph.nodes, Positions(coords), scale, CoerceNodeOverrides(nodeOv), skipNone);
    var edges := EdgeElements(g.graph.edges, CoerceEdgeOverrides(edgeOv));
    assert RenderWith(skipNone, g, coords, scale, nodeOv, edgeOv).value.elements == nodes.value + edges.value;
  }

  /** The constructor succeeds exactly for a BipartiteGraph every node and every edge of which has its record. */
  lemma RenderSucceeds(skipNone: bool, g: GraphValue, coords: Dict<NodeId, Coord>, scale: real,
                       nodeOv: Option<Dict<NodeId, Entry>>, edgeOv: Option<Dict<(NodeId, NodeId), Entry>>)
    ensures !g.BipartiteGraph? ==> RenderWith(skipNone, g, coords, scale, nodeOv, edgeOv) == Err(NotBipartite)
    ensures RenderWith(skipNone, g, coords, scale, nodeOv, edgeOv).Ok? <==>
      && g.BipartiteGraph?
      && (forall i :: 0 <= i < |g.graph.nodes| ==>
            NodeElement(g.graph.nodes[i], Positions(coords), scale, CoerceNodeOverrides(nodeOv), skipNone).Ok?)
      && (forall j :: 0 <= j < |g.graph.edges| ==> EdgeElement(g.graph.edges[j], CoerceEdgeOverrides(edgeOv)).Ok?)
  {
  }

  /**
   * The lookups are strict: where the constructor succeeds, every node has
   * a position and, when node overrides are given, an override whose key
   * has its string id, and every edge, when edge overrides are given, an
   * override whose key pair has its endpoints' string ids in its orientation.
   */
  lemma LookupsAreStrict(skipNone: bool, g: GraphValue, coords: Dict<NodeId, Coord>, scale: real,
                         nodeOv: Option<Dict<NodeId, Entry>>, edgeOv: Option<Dict<(NodeId, NodeId), Entry>>)
    requires RenderWith(skipNone, g, coords, scale, nodeOv, edgeOv).Ok?
    ensures g.BipartiteGraph?
    ensures forall i :: 0 <= i < |g.graph.nodes| ==>
      exists k :: k in Keys(coords) && Str(k) == Str(g.graph.nodes[i])
    ensures nodeOv.Some? ==> forall i :: 0 <= i < |g.graph.nodes| ==>
      exists k :: k in Keys(nodeOv.value) && Str(k) == Str(g.graph.nodes[i])
    ensures edgeOv.Some? ==> forall j :: 0 <= j < |g.graph.edges| ==>
      exists p :: p in Keys(edgeOv.value) && Str(p.0) == Str(g.graph.edges[j].u) && Str(p.1) == Str(g.graph.edges[j].v)
  {
    RenderSucceeds(skipNone, g, coords, scale, nodeOv, edgeOv);
    ComprehendKeys(coords, Coerce);
    if nodeOv.Some? {
      ComprehendKeys(nodeOv.value, Coerce);
    }
    if edgeOv.Some? {
      ComprehendKeys(edgeOv.value, CoercePair);
    }
    forall i | 0 <= i < |g.graph.nodes|
      ensures exists k :: k in Keys(coords) && Str(k) == Str(g.graph.nodes[i])
      ensures nodeOv.Some? ==> exists k :: k in Keys(nodeOv.value) && Str(k) == Str(g.graph.nodes[i])
    {
      var n := g.graph.nodes[i];
      assert NodeElement(n, Positions(coords), scale, CoerceNodeOverrides(nodeOv), skipNone).Ok?;
      assert StrId(Str(n)) in Keys(Positions(coords));
      if nodeOv.Some? {
        assert StrId(Str(n)) in Keys(Comprehend(nodeOv.value, Coerce));
      }
    }
    forall j | 0 <= j < |g.graph.edges|
      ensures edgeOv.Some? ==>
        exists p :: p in Keys(edgeOv.value) && Str(p.0) == Str(g.graph.edges[j].u) && Str(p.1) == Str(g.graph.edges[j].v)
    {
      var e := g.graph.edges[j];
      assert EdgeElement(e, CoerceEdgeOverrides(edgeOv)).Ok?;
      if edgeOv.Some? {
        assert (Str(e.u), Str(e.v)) in Keys(Comprehend(edgeOv.value, CoercePair));
      }
    }
  }

  /** The first node without an override raises KeyError with its string id. */
  lemma MissingNodeOverrideRaises(skipNone: bool, g: GraphValue, coords: Dict<NodeId, Coord>, scale: real,
                                  nodeOv: Dict<NodeId, Entry>, edgeOv: Option<Dict<(NodeId, NodeId), Entry>>, i: nat)
    requires g.BipartiteGraph? && i < |g.graph.nodes|
    requires forall j :: 0 <= j < i ==>
      NodeElement(g.graph.nodes[j], Positions(coords), scale, CoerceNodeOverrides(Some(nodeOv)), skipNone).Ok?
    requires exists k :: k in Keys(coords) && Str(k) == Str(g.graph.nodes[i])
    requires forall k :: k in Keys(nodeOv) ==> Str(k) != Str(g.graph.nodes[i])
    ensures RenderWith(skipNone, g, coords, scale, Some(nodeOv), edgeOv) == Err(MissingNodeOverride(Str(g.graph.nodes[i])))
  {
    var n := g.graph.nodes[i];
    ComprehendKeys(coords, Coerce);
    ComprehendKeys(nodeOv, Coerce);
    var k :| k in Keys(coords) && Str(k) == Str(n);
    assert Coerce(k) == StrId(Str(n));
    assert StrId(Str(n)) !in Keys(Comprehend(nodeOv, Coerce));
    NodeElementsErr(g.graph.nodes, Positions(coords), scale, CoerceNodeOverrides(Some(nodeOv)), skipNone, i);
  }

  /** The first node without a position raises KeyError with its string id. */
  lemma MissingCoordinateRaises(skipNone: bool, g: GraphValue, coords: Dict<NodeId, Coord>, scale: real,
                                nodeOv: Option<Dict<NodeId, Entry>>, edgeOv: Option<Dict<(NodeId, NodeId), Entry>>, i: nat)
    requires g.BipartiteGraph? && i < |g.graph.nodes|
    requires forall j :: 0 <= j < i ==>
      NodeElement(g.graph.nodes[j], Positions(coords), scale, CoerceNodeOverrides(nodeOv), skipNone).Ok?
    requires forall k :: k in Keys(coords) ==> Str(k) != Str(g.graph.nodes[i])
    ensures RenderWith(skipNone, g, coords, scale, nodeOv, edgeOv) == Err(MissingCoordinate(Str(g.graph.nodes[i])))
  {
    ComprehendKeys(coords, Coerce);
    assert StrId(Str(g.graph.nodes[i])) !in Keys(Positions(coords));
    NodeElementsErr(g.graph.nodes, Positions(coords), scale, CoerceNodeOverrides(nodeOv), skipNone, i);
  }

  /** Once every node has its record, the first edge without an override raises KeyError with its pair. */
  lemma MissingEdgeOverrideRaises(skipNone: bool, g: GraphValue, coords: Dict<NodeId, Coord>, scale: real,
                                  nodeOv: Option<Dict<NodeId, Entry>>, edgeOv: Dict<(NodeId, NodeId), Entry>, j: nat)
    requires g.BipartiteGraph? && j < |g.graph.edges|
    requires forall i :: 0 <= i < |g.graph.nodes| ==>
      NodeElement(g.graph.nodes[i], Positions(coords), scale, CoerceNodeOverrides(nodeOv), skipNone).Ok?
    requires forall i :: 0 <= i < j ==> EdgeElement(g.graph.edges[i], CoerceEdgeOverrides(Some(edgeOv))).Ok?
    requires forall p :: p in Keys(edgeOv) ==> CoercePair(p) != (Str(g.graph.edges[j].u), Str(g.graph.edges[j].v))
    ensures RenderWith(skipNone, g, coords, scale, nodeOv, Some(edgeOv)) ==
            Err(MissingEdgeOverride(Str(g.graph.edges[j].u), Str(g.graph.edges[j].v)))
  {
    var e := g.graph.edges[j];
    ComprehendKeys(edgeOv, CoercePair);
    assert (Str(e.u), Str(e.v)) !in Keys(Comprehend(edgeOv, CoercePair));
    EdgeElementsErr(g.graph.edges, CoerceEdgeOverrides(Some(edgeOv)), j);
  }

  /** Without edge overrides, every edge record is the default one: attributes and string endpoints. */
  lemma NoEdgeOverridesKeepDefaults(skipNone: bool, g: GraphValue, coords: Dict<NodeId, Coord>, scale: real,
                                    nodeOv: Option<Dict<NodeId, Entry>>)
    requires RenderWith(skipNone, g, coords, scale, nodeOv, None).Ok?
    ensures g.BipartiteGraph?
    ensures forall j :: 0 <= j < |g.graph.edges| ==>
      RenderWith(skipNone, g, coords, scale, nodeOv, None).value.elements[|g.graph.nodes| + j] ==
      map["data" := MapV(g.graph.edges[j].attrs["source" := StrV(Str(g.graph.edges[j].u))]
                                               ["target" := StrV(Str(g.graph.edges[j].v))])]
  {
    RenderShape(skipNone, g, coords, scale, nodeOv, None);
  }

  /** The node records agree wherever the record of every node agrees. */
  lemma {:induction false} NodeElementsAgree(ns: seq<NodeId>, pos: Dict<NodeId, Coord>, scale: real,
                                             ov1: Option<Dict<NodeId, Entry>>, skip1: bool,
                                             ov2: Option<Dict<NodeId, Entry>>, skip2: bool)
    requires forall i :: 0 <= i < |ns| ==> NodeElement(ns[i], pos, scale, ov1, skip1) == NodeElement(ns[i], pos, scale, ov2, skip2)
    ensures NodeElements(ns, pos, scale, ov1, skip1) == NodeElements(ns, pos, scale, ov2, skip2)
  {
    if ns != [] {
      var p := ns[..|ns| - 1];
      forall i | 0 <= i < |p| ensures NodeElement(p[i], pos, scale, ov1, skip1) == NodeElement(p[i], pos, scale, ov2, skip2) {
        assert p[i] == ns[i];
      }
      NodeElementsAgree(p, pos, scale, ov1, skip1, ov2, skip2);
    }
  }

  /**
   * As written, node overrides of None raise as soon as the graph has a
   * node: the first node fails for want of a position or, having one, on
   * the items of None.
   */
  lemma NoneNodeOverridesRaise(g: GraphValue, coords: Dict<NodeId, Coord>, scale: real,
                               edgeOv: Option<Dict<(NodeId, NodeId), Entry>>)
    requires g.BipartiteGraph? && g.graph.nodes != []
    ensures Render(g, coords, scale, None, edgeOv).Err?
    ensures (exists k :: k in Keys(coords) && Str(k) == Str(g.graph.nodes[0])) ==>
            Render(g, coords, scale, None, edgeOv) == Err(NoneHasNoItems)
  {
    ComprehendKeys(coords, Coerce);
    NodeElementsErr(g.graph.nodes, Positions(coords), scale, None, false, 0);
    if exists k :: k in Keys(coords) && Str(k) == Str(g.graph.nodes[0]) {
      var k :| k in Keys(coords) && Str(k) == Str(g.graph.nodes[0]);
      assert Coerce(k) == StrId(Str(g.graph.nodes[0]));
    }
  }

  /** Given node overrides, or a graph without nodes, the corrected constructor is the constructor as written. */
  lemma IntendedAgrees(g: GraphValue, coords: Dict<NodeId, Coord>, scale: real,
                       nodeOv: Option<Dict<NodeId, Entry>>, edgeOv: Option<Dict<(NodeId, NodeId), Entry>>)
    requires nodeOv.Some? || g.graph.nodes == []
    ensures RenderIntended(g, coords, scale, nodeOv, edgeOv) == Render(g, coords, scale, nodeOv, edgeOv)
  {
    NodeElementsAgree(g.graph.nodes, Positions(coords), scale, CoerceNodeOverrides(nodeOv), true,
                      CoerceNodeOverrides(nodeOv), false);
  }

  /** An override dict that gives every node an empty entry. */
  function EmptyOverrides(ns: seq<NodeId>): Dict<NodeId, Entry> {
    seq(|ns|, i requires 0 <= i < |ns| => (ns[i], []))
  }

  /** The corrected constructor skips None exactly as if every node had been given an empty entry. */
  lemma IntendedSkipsNone(g: GraphValue, coords: Dict<NodeId, Coord>, scale: real,
                          edgeOv: Option<Dict<(NodeId, NodeId), Entry>>)
    ensures RenderIntended(g, coords, scale, None, edgeOv) ==
            Render(g, coords, scale, Some(EmptyOverrides(g.graph.nodes)), edgeOv)
  {
    var ns := g.graph.nodes;
    var d := EmptyOverrides(ns);
    forall i | 0 <= i < |ns|
      ensures NodeElement(ns[i], Positions(coords), scale, None, true) ==
              NodeElement(ns[i], Positions(coords), scale, CoerceNodeOverrides(Some(d)), false)
    {
      ComprehendUniform(d, Coerce, [], i);
      match Get(Positions(coords), StrId(Str(ns[i])))
      case None =>
      case Some(c) =>
        assert Merged(DefaultNode(ns[i], c, scale), []) == Ok(DefaultNode(ns[i], c, scale));
    }
    NodeElementsAgree(ns, Positions(coords), scale, None, true, CoerceNodeOverrides(Some(d)), false);
  }

  /** Where the corrected constructor succeeds without node overrides, the node records are the default ones. */
  lemma IntendedNoneGivesDefaults(g: GraphValue, coords: Dict<NodeId, Coord>, scale: real,
                                  edgeOv: Option<Dict<(NodeId, NodeId), Entry>>)
    requires RenderIntended(g, coords, scale, None, edgeOv).Ok?
    ensures g.BipartiteGraph?
    ensures |RenderIntended(g, coords, scale, None, edgeOv).value.elements| == |g.graph.nodes| + |g.graph.edges|
    ensures forall i :: 0 <= i < |g.graph.nodes| ==>
      && Get(Positions(coords), StrId(Str(g.graph.nodes[i]))).Some?
      && RenderIntended(g, coords, scale, None, edgeOv).value.elements[i] ==
         DefaultNode(g.graph.nodes[i], Get(Positions(coords), StrId(Str(g.graph.nodes[i]))).value, scale)
  {
    var nodes := NodeElements(g.graph.nodes, Positions(coords), scale, None, true);
    var edges := EdgeElements(g.graph.edges, CoerceEdgeOverrides(edgeOv));
    assert RenderIntended(g, coords, scale, None, edgeOv).value.elements == nodes.value + edges.value;
  }

  /** The node overrides of the repository's test: label "node", not grabbable. */
  function TestNodeEntry(): Entry {
    [("label", StrV("node")), ("grabbable", BoolV(false))]
  }

  /** The edge overrides of the repository's test: not selectable. */
  function TestEdgeEntry(): Entry {
    [("selectable", BoolV(false))]
  }

  /** {node: TestNodeEntry() for node in G.nodes} */
  function TestNodeOverrides(ns: seq<NodeId>): Dict<NodeId, Entry> {
    seq(|ns|, i requires 0 <= i < |ns| => (ns[i], TestNodeEntry()))
  }

  /** {edge: TestEdgeEntry() for edge in G.edges} */
  function TestEdgeOverrides(es: seq<Edge>): Dict<(NodeId, NodeId), Entry> {
    seq(|es|, j requires 0 <= j < |es| => ((es[j].u, es[j].v), TestEdgeEntry()))
  }

  /** The record the test expects of node n, once renderedPosition is dropped. */
  function TestNodeRecord(n: NodeId): Element {
    map["data" := MapV(map["id" := StrV(Str(n)), "label" := StrV("node")]), "grabbable" := BoolV(false)]
  }

  /** The record the test expects of edge e. */
  function TestEdgeRecord(e: Edge): Element {
    map["data" := MapV(map["source" := StrV(Str(e.u)), "target" := StrV(Str(e.v))]), "selectable" := BoolV(false)]
  }

  lemma TestNodeMerge(n: NodeId, c: Coord, scale: real)
    ensures Merged(DefaultNode(n, c, scale), TestNodeEntry()).Ok?
    ensures Merged(DefaultNode(n, c, scale), TestNodeEntry()).value - {"renderedPosition"} == TestNodeRecord(n)
  {
    var base := DefaultNode(n, c, scale);
    var entry := TestNodeEntry();
    assert entry[..1] == [("label", StrV("node"))];
    assert entry[..1][..0] == [];
    var e1 := base["data" := MapV(map["id" := StrV(Str(n)), "label" := StrV("node")])];
    assert Merged(base, entry[..1][..0]) == Ok(base);
    assert Data(base)["label" := StrV("node")] == map["id" := StrV(Str(n)), "label" := StrV("node")];
    assert Merged(base, entry[..1]) == MergeItem(base, "label", StrV("node"));
    assert Merged(base, entry) == Ok(e1["grabbable" := BoolV(false)]);
  }

  lemma TestEdgeMerge(e: Edge)
    requires e.attrs == map[]
    ensures Merged(DefaultEdge(e), TestEdgeEntry()).Ok?
    ensures Merged(DefaultEdge(e), TestEdgeEntry()).value - {"renderedPosition"} == TestEdgeRecord(e)
  {
    assert TestEdgeEntry()[..0] == [];
  }

  /** A node that is a key of the layout's dict has a position. */
  lemma PositionFound(coords: Dict<NodeId, Coord>, n: NodeId)
    requires n in Keys(coords)
    ensures Get(Positions(coords), StrId(Str(n))).Some?
  {
    ComprehendKeys(coords, Coerce);
    assert Coerce(n) in Keys(Positions(coords));
  }

  lemma TestNode(ns: seq<NodeId>, coords: Dict<NodeId, Coord>, scale: real, i: nat)
    requires i < |ns| && ns[i] in Keys(coords)
    ensures NodeElement(ns[i], Positions(coords), scale, CoerceNodeOverrides(Some(TestNodeOverrides(ns))), false).Ok?
    ensures NodeElement(ns[i], Positions(coords), scale, CoerceNodeOverrides(Some(TestNodeOverrides(ns))), false).value
            - {"renderedPosition"} == TestNodeRecord(ns[i])
  {
    var n := ns[i];
    PositionFound(coords, n);
    var c := Get(Positions(coords), StrId(Str(n))).value;
    var d := Comprehend(TestNodeOverrides(ns), Coerce);
    ComprehendUniform(TestNodeOverrides(ns), Coerce, TestNodeEntry(), i);
    assert Get(d, StrId(Str(n))) == Some(TestNodeEntry());
    assert NodeElement(n, Positions(coords), scale, Some(d), false) == Merged(DefaultNode(n, c, scale), TestNodeEntry());
    TestNodeMerge(n, c, scale);
  }

  lemma TestEdge(es: seq<Edge>, j: nat)
    requires j < |es| && es[j].attrs == map[]
    ensures EdgeElement(es[j], CoerceEdgeOverrides(Some(TestEdgeOverrides(es)))).Ok?
    ensures EdgeElement(es[j], CoerceEdgeOverrides(Some(TestEdgeOverrides(es)))).value - {"renderedPosition"} ==
            TestEdgeRecord(es[j])
  {
    var e := es[j];
    var d := Comprehend(TestEdgeOverrides(es), CoercePair);
    ComprehendUniform(TestEdgeOverrides(es), CoercePair, TestEdgeEntry(), j);
    assert Get(d, (Str(e.u), Str(e.v))) == Some(TestEdgeEntry());
    assert EdgeElement(e, Some(d)) == Merged(DefaultEdge(e), TestEdgeEntry());
    TestEdgeMerge(e);
  }

  /**
   * The repository's test, for every graph of its shape: each node has a
   * position, the edges carry no attributes, every node is overridden with
   * label "node" and not grabbable, every edge with not selectable. Then,
   * renderedPosition dropped, the elements are the node records
   * {"data": {"id": str(node), "label": "node"}, "grabbable": False} in node
   * order, then the edge records
   * {"data": {"source": str(u), "target": str(v)}, "selectable": False} in
   * edge order.
   */
  lemma TestBipartiteCytoscape(g: GraphValue, coords: Dict<NodeId, Coord>, scale: real)
    requires g.BipartiteGraph?
    requires forall i :: 0 <= i < |g.graph.nodes| ==> g.graph.nodes[i] in Keys(coords)
    requires forall j :: 0 <= j < |g.graph.edges| ==> g.graph.edges[j].attrs == map[]
    ensures Render(g, coords, scale, Some(TestNodeOverrides(g.graph.nodes)), Some(TestEdgeOverrides(g.graph.edges))).Ok?
    ensures var els := Render(g, coords, scale, Some(TestNodeOverrides(g.graph.nodes)),
                              Some(TestEdgeOverrides(g.graph.edges))).value.elements;
      && |els| == |g.graph.nodes| + |g.graph.edges|
      && (forall i :: 0 <= i < |g.graph.nodes| ==> els[i] - {"renderedPosition"} == TestNodeRecord(g.graph.nodes[i]))
      && (forall j :: 0 <= j < |g.graph.edges| ==>
            els[|g.graph.nodes| + j] - {"renderedPosition"} == TestEdgeRecord(g.graph.edges[j]))
  {
    var ns, es := g.graph.nodes, g.graph.edges;
    var nodeOv, edgeOv := TestNodeOverrides(ns), TestEdgeOverrides(es);
    forall i | 0 <= i < |ns|
      ensures NodeElement(ns[i], Positions(coords), scale, CoerceNodeOverrides(Some(nodeOv)), false).Ok?
      ensures NodeElement(ns[i], Positions(coords), scale, CoerceNodeOverrides(Some(nodeOv)), false).value
              - {"renderedPosition"} == TestNodeRecord(ns[i])
    {
      TestNode(ns, coords, scale, i);
    }
    forall j | 0 <= j < |es|
      ensures EdgeElement(es[j], CoerceEdgeOverrides(Some(edgeOv))).Ok?
      ensures EdgeElement(es[j], CoerceEdgeOverrides(Some(edgeOv))).value - {"renderedPosition"} == TestEdgeRecord(es[j])
    {
      TestEdge(es, j);
    }
    RenderSucceeds(false, g, coords, scale, Some(nodeOv), Some(edgeOv));
    RenderShape(false, g, coords, scale, Some(nodeOv), Some(edgeOv));
  }
}
