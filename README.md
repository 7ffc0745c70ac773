# dash-bipartite: the element builder of BipartiteCytoscape

dash-bipartite draws a bipartite graph as a Dash Cytoscape component. A
`BipartiteGraph` is a graph together with its two node collections. It is
built from a data frame by `from_pandas_edgelist`, whose partition is the
source column and the target column as they stand. The constructor of
`BipartiteCytoscape` does the following:

- It rejects anything but a `BipartiteGraph` (ValueError).
- It rewrites the keys of the layout's positions with `str()`.
- It makes the endpoints of every edge record strings.
- It builds one record per node: the position multiplied by `scale`, the
  label set to the string id, and `name` and `value` removed.
- It takes each node's override entry from the node overrides, whose keys it
  also rewrites with `str()`.
- It looks up each edge's override entry under the pair (source, target) of
  strings.
- It merges every override entry item by item. A key among `id`, `label`,
  `parent`, `source` and `target` goes into the record's `data` block; any
  other key goes onto the record itself.
- It hands over the node records followed by the edge records, with the
  layout `{"name": "preset"}`.

A missing node override and a missing edge override each raise KeyError; so
would a missing position, which the layout never leaves out.

The model has these modules:

- `Wrappers`: Option and Result.
- `PyValues`: the values the records hold, the two kinds of node id (int and
  str), `str()` of both with its injectivity per kind, and the exceptions as an
  `Error` datatype.
- `Dicts`: a Python dict as an ordered association list.
  - It covers lookup, assignment and the key-rewriting comprehension
    `{f(k): v for k, v in d.items()}`, where the last value given for a key
    wins.
- `Elements`: element records and the override merge (`Merge`, a loop),
  together with a key-by-key account of where every value lands.
- `Bipartite`: the graph, `BipartiteGraph` and `from_pandas_edgelist`.
- `BipartiteCytoscape`: the constructor, in two layers.
  - Specification functions: `NodeElement`, `EdgeElement` and `Render`.
  - Methods that follow the code's loops step by step (`StringifyEndpoints`,
    `BuildNode`, `BuildNodes`, `OverrideEdge`, `ApplyEdgeOverrides`,
    `BuildElements`). Each method is proved equal to its specification
    function.
- `BuilderProperties`: what the constructor promises, and the repository's
  test stated for every graph of its shape.

## Model

| member | source | states |
|---|---|---|
| PyValues.Str | dash_bipartite/bipartite.py:93 | no contract; defines str() of a node id: the decimal digits of an int, the str itself |
| Dicts.Comprehend | dash_bipartite/bipartite.py:111-113 | no contract; defines the key-rewriting dict comprehension as assignments in item order (also lines 93 and 123-126) |
| Elements.MergeItem | dash_bipartite/bipartite.py:118-121 | no contract; defines one update: a reserved key into the data block, AttributeError when that block is not a dict, any other key onto the record |
| Elements.Merged | dash_bipartite/bipartite.py:117-121 | no contract; defines the merge of a whole entry, item by item, the first failure ending it (also lines 132-136) |
| BipartiteCytoscape.RawNode | dash_bipartite/bipartite.py:95 | no contract; defines the node record as the graph library exports it: id and name as the string id, value as the id |
| BipartiteCytoscape.RawEdge | dash_bipartite/bipartite.py:95 | no contract; defines the edge record as the graph library exports it: the attributes, then source and target as the ids |
| BipartiteCytoscape.NodeElement | dash_bipartite/bipartite.py:104-121 | no contract; defines the record of one node: KeyError without a position, AttributeError for None overrides, KeyError without an override, otherwise the merge of its entry into the default record |
| BipartiteCytoscape.EdgeElement | dash_bipartite/bipartite.py:129-136 | no contract; defines the record of one edge: the default record without overrides, KeyError without an override for its pair, otherwise the merge of its entry |
| BipartiteCytoscape.Render | dash_bipartite/bipartite.py:89-140 | no contract; defines the constructor as written: ValueError for anything but a BipartiteGraph, then the node records and the edge records with the preset layout |
| BipartiteCytoscape.RenderIntended | dash_bipartite/bipartite.py:111-116 | no contract; defines the corrected constructor, which skips node overrides of None |
| Bipartite.FromPandasEdgelist | dash_bipartite/bipartite.py:15-24 | succeeds exactly when both columns exist; otherwise KeyError names the first missing column |
| Bipartite.FromPandasKeepsColumns | dash_bipartite/bipartite.py:19-23 | the sources and targets are the raw columns (same length, pointwise equal, duplicates kept), and the graph is the one built from the rows |
| Bipartite.EndpointsInPartition | dash_bipartite/bipartite.py:15-23 | for a graph built from the rows, both endpoints of every edge lie among the sources or the targets |
| PyValues.IntToString | dash_bipartite/bipartite.py:93 | str() of an int is a nonempty string, starting with '-' exactly for negative ints |
| PyValues.IntToStringRoundTrip | dash_bipartite/bipartite.py:93 | parsing str() of an int gives the int back |
| PyValues.IntToStringInjective | dash_bipartite/bipartite.py:93 | two ints have the same str() exactly when they are equal |
| PyValues.StrSeparatesSameKind | dash_bipartite/bipartite.py:111-113 | two ids of the same kind have the same str() exactly when they are equal |
| PyValues.StrMergesIntAndText | dash_bipartite/bipartite.py:111-113 | the int 1 and the str "1" are different ids with the same str() |
| Dicts.Get | dash_bipartite/bipartite.py:116 | a lookup finds a value exactly for the keys of the dict, and the value it finds is stored under that key |
| Dicts.GetAt | dash_bipartite/bipartite.py:116 | in a dict, looking up the key of an item gives that item's value |
| Dicts.Put | dash_bipartite/bipartite.py:93 | assignment adds the key to the keys, keeps the keys distinct, and appends a new key at the end |
| Dicts.PutGet | dash_bipartite/bipartite.py:93 | after assigning v to k, k finds v and every other key finds what it found before |
| Dicts.ComprehendKeys | dash_bipartite/bipartite.py:111-113 | the rewritten dict has distinct keys, and they are exactly the images of the original keys |
| Dicts.ComprehendLastWins | dash_bipartite/bipartite.py:123-126 | the image of a key finds the value of the last item mapped to that image |
| Dicts.ComprehendValue | dash_bipartite/bipartite.py:123-126 | every value the rewritten dict finds under l comes from an item whose key maps to l |
| Dicts.ComprehendUniform | dash_bipartite/bipartite.py:111-113 | where every item holds the same value, the image of any key finds that value |
| Dicts.ComprehendInjective | dash_bipartite/bipartite.py:93 | where the rewriting keeps the keys apart, the rewritten dict finds what the original finds |
| Dicts.ComprehendFixed | dash_bipartite/bipartite.py:111-113 | rewriting a dict whose keys are already fixed by the rewriting changes nothing |
| Dicts.ToMapAt | dash_bipartite/bipartite.py:117 | in a dict, the map view gives each key the item's value |
| Elements.Merge | dash_bipartite/bipartite.py:117-121 | the merge loop computes the item-by-item merge, stopping at the first data block that is not a dict |
| Elements.MergedStopsAt | dash_bipartite/bipartite.py:117-121 | once a prefix of the entry fails, the whole merge fails with the same error |
| Elements.MergedRoutes | dash_bipartite/bipartite.py:117-121 | an entry without a "data" key puts its reserved keys into the data block and the others onto the record, the last value winning |
| Elements.RoutingAt | dash_bipartite/bipartite.py:117-121 | for an entry without a "data" key, key by key: a reserved key of the entry has the entry's value in the data block, another key has it on the record, and everything else keeps its value |
| Elements.RoutedValue | dash_bipartite/bipartite.py:117-121 | in an entry that is a dict without a "data" key, each item's value lands in the data block (reserved key) or on the record (other key) |
| Elements.DataItemReplaces | dash_bipartite/bipartite.py:117-121 | a "data" item of any entry replaces the whole data block by its value, whatever that value is |
| Elements.ReservedAfterNonDictFails | dash_bipartite/bipartite.py:117-121 | a reserved item merged while the data block is not a dict fails with AttributeError, and the whole merge with it |
| Elements.DataOverrideReplacesBlock | dash_bipartite/bipartite.py:117-121 | two example entries with a "data" value that is not a dict: after a label it replaces the block; before a label the label then fails with AttributeError |
| BipartiteCytoscape.NodeElements | dash_bipartite/bipartite.py:103-121 | the node records exist exactly when every node's record does; they come one per node, in node order |
| BipartiteCytoscape.EdgeElements | dash_bipartite/bipartite.py:128-136 | the edge records exist exactly when every edge's record does; they come one per edge, in edge order |
| BipartiteCytoscape.NodeElementsErr | dash_bipartite/bipartite.py:103-121 | the first node whose record fails decides the error |
| BipartiteCytoscape.EdgeElementsErr | dash_bipartite/bipartite.py:128-136 | the first edge whose record fails decides the error |
| BipartiteCytoscape.NodeElementsOk | dash_bipartite/bipartite.py:103-121 | records found node by node are the node records |
| BipartiteCytoscape.EdgeElementsOk | dash_bipartite/bipartite.py:128-136 | records found edge by edge are the edge records |
| BipartiteCytoscape.PreparedIsDefault | dash_bipartite/bipartite.py:104-109 | position, label := id, and removing name and value turn the exported record into the default node record |
| BipartiteCytoscape.CoerceTwice | dash_bipartite/bipartite.py:111-113 | rewriting the node overrides again on each pass of the node loop changes nothing |
| BipartiteCytoscape.CoerceOverridesTwice | dash_bipartite/bipartite.py:111-113 | the same for an overrides argument that may be None |
| BipartiteCytoscape.StringifiedEndpoints | dash_bipartite/bipartite.py:99-101 | str() of both exported endpoints gives the default edge's data block |
| BipartiteCytoscape.StringifyEndpoints | dash_bipartite/bipartite.py:99-101 | every edge record becomes the default edge record: its attributes, and both endpoints as strings |
| BipartiteCytoscape.BuildNode | dash_bipartite/bipartite.py:104-121 | one pass of the node loop computes the node's record; where it succeeds, the overrides are left rewritten |
| BipartiteCytoscape.BuildNodes | dash_bipartite/bipartite.py:103-121 | the node loop computes the node records, stopping at the first failure |
| BipartiteCytoscape.OverrideEdge | dash_bipartite/bipartite.py:129-136 | one pass of the edge loop computes the edge's record |
| BipartiteCytoscape.ApplyEdgeOverrides | dash_bipartite/bipartite.py:122-136 | the edge overrides are rewritten with str() keys, and the edge loop computes the edge records, stopping at the first failure |
| BipartiteCytoscape.BuildElements | dash_bipartite/bipartite.py:89-140 | the constructor computes the elements and layout described by Render |
| BuilderProperties.RenderShape | dash_bipartite/bipartite.py:138-140 | the elements are the node records in node order then the edge records in edge order, one each; the layout is preset |
| BuilderProperties.RenderSucceeds | dash_bipartite/bipartite.py:89-90 | anything but a BipartiteGraph raises ValueError; otherwise the constructor succeeds exactly when every node and edge has its record |
| BuilderProperties.LookupsAreStrict | dash_bipartite/bipartite.py:105 | where the constructor succeeds: every node has a position under its string id; with node overrides, a key with its string id (line 116); with edge overrides, a key pair matching its endpoints' strings in the edge's orientation (line 131) |
| BuilderProperties.MissingCoordinateRaises | dash_bipartite/bipartite.py:105 | the first node without a position raises KeyError with its string id |
| BuilderProperties.MissingNodeOverrideRaises | dash_bipartite/bipartite.py:116 | the first node without an override raises KeyError with its string id |
| BuilderProperties.MissingEdgeOverrideRaises | dash_bipartite/bipartite.py:131 | once the nodes succeed, the first edge without an override raises KeyError with its (source, target) pair |
| BuilderProperties.NoEdgeOverridesKeepDefaults | dash_bipartite/bipartite.py:128-130 | without edge overrides, every edge record is its attributes plus the string endpoints |
| BuilderProperties.NodeRecord | dash_bipartite/bipartite.py:103-121 | key by key: in the data block, a reserved key of the entry has the entry's value, otherwise id and label are the string id and nothing else is there; on the record, any other key of the entry has the entry's value, otherwise renderedPosition is the scaled position and nothing else is there |
| BuilderProperties.NodeLabel | dash_bipartite/bipartite.py:107 | for an entry without a "data" key, the label is the string id unless the node's entry gives one |
| BuilderProperties.NodeDataHasNoNameOrValue | dash_bipartite/bipartite.py:108-109 | for an entry without a "data" key, name and value are not in the data block of a node record |
| BuilderProperties.NodePosition | dash_bipartite/bipartite.py:105-106 | for an entry without a "data" key, renderedPosition is the position times scale unless the node's entry replaces it |
| BuilderProperties.PositionFound | dash_bipartite/bipartite.py:93 | a node that is a key of the layout has a position under its string id |
| BuilderProperties.PositionOfNode | dash_bipartite/bipartite.py:93 | where str() keeps the layout's keys apart, a node's position is the one the layout gives it |
| BuilderProperties.IntIdsKeepApart | dash_bipartite/bipartite.py:93 | str() keeps distinct int ids apart |
| BuilderProperties.CoercionMergesKeys | dash_bipartite/bipartite.py:93 | the int 1 and the str "1" merge into one key, and the later value wins |
| BuilderProperties.EdgeRecord | dash_bipartite/bipartite.py:128-136 | key by key: in the data block, a reserved key of the entry has the entry's value, otherwise source and target are the string endpoints and the rest are the attributes; on the record, any other key of the entry has the entry's value and nothing else is there |
| BuilderProperties.EdgeEndpointsAreStrings | dash_bipartite/bipartite.py:99-101 | for an entry without "data", "source" or "target" keys, an edge record's source and target are the string ids |
| BuilderProperties.EdgeLookupIsExact | dash_bipartite/bipartite.py:129-131 | an edge raises KeyError exactly when the pair (str(u), str(v)) is missing from the rewritten overrides |
| BuilderProperties.MergedFailsOnlyOnData | dash_bipartite/bipartite.py:117-121 | a merge can only fail on a data block that is not a dict |
| BuilderProperties.ReversedEdgeKeyFails | dash_bipartite/bipartite.py:123-131 | an override keyed by the reversed pair does not serve an edge whose endpoints differ |
| BuilderProperties.NoneNodeOverridesRaise | dash_bipartite/bipartite.py:111-115 | as written, node overrides left at None raise for any graph with a node: AttributeError, or a KeyError if the first node has no position |
| BuilderProperties.IntendedAgrees | dash_bipartite/bipartite.py:111-116 | given node overrides, or a graph without nodes, the corrected constructor is the constructor as written |
| BuilderProperties.IntendedSkipsNone | dash_bipartite/bipartite.py:111-116 | the corrected constructor treats None as if every node had an empty entry |
| BuilderProperties.IntendedNoneGivesDefaults | dash_bipartite/bipartite.py:103-116 | with None node overrides, the corrected constructor gives the default node records: string id as id and label, and the scaled position |
| BuilderProperties.NodeElementsAgree | dash_bipartite/bipartite.py:103-121 | node records that agree node by node give the same node records |
| BuilderProperties.TestNodeMerge | tests/test_bipartite.py:10 | merging {"label": "node", "grabbable": False} gives the record the test expects, once renderedPosition is dropped |
| BuilderProperties.TestEdgeMerge | tests/test_bipartite.py:11 | for an edge without attributes, merging {"selectable": False} gives the record the test expects |
| BuilderProperties.TestNode | tests/test_bipartite.py:20-22 | each node's record is the one the test expects, once renderedPosition is dropped |
| BuilderProperties.TestEdge | tests/test_bipartite.py:24-27 | each edge's record is the one the test expects |
| BuilderProperties.TestBipartiteCytoscape | tests/test_bipartite.py:6-38 | for every graph of the test's shape, the constructor succeeds; once renderedPosition is dropped, the elements are exactly the expected node records and then the expected edge records, in order |

## Left out

- networkx's `bipartite_layout` (line 92) and its `align` argument: the positions are an input, a dict from node ids to coordinates.
- networkx's `cytoscape_data` (line 95): it is modelled, by `RawNode` and `RawEdge`, only for graphs whose nodes carry no attributes. Node attributes and multigraph edge keys are left out.
- networkx's `from_pandas_edgelist` (line 16), with `edge_attr` and `edge_key`: the graph it builds is an input. `EdgesFromRows` states the one fact used about it.
- `BipartiteGraph.__init__` (lines 8-12): modelled as a datatype holding the graph and the two collections. `to_numpy()` becomes a sequence.
- The Dash component (`super().__init__` on line 141 and `**kwargs`): the model ends at the elements and layout handed to it.
- The demo app: Dash UI code, which has no logic of the builder.
- Floating point: positions and `scale` are exact reals, and `.tolist()` is left out.
- The default `scale=100` and its `int` annotation (line 32): the model's `scale` is a real with no default, and callers pass it.
- Node ids other than int and str are left out: float, bool and tuple ids, whose `str()` and hashing interact differently.
- Override values that are not dicts (so have no `.items()`), and key types other than strings in override entries, are left out: entries are typed as dicts of string keys.
- `update` on a `data` value that is not a dict is modelled as AttributeError for every non-dict value, including objects that happen to have an `update` method.
- A KeyError for a record without a `data` entry cannot arise, because every record has one. The model folds that case into the AttributeError branch.
- BuilderProperties.NodeRecord: stated only for override entries without a "data" key. The "data" key case is in Elements.DataItemReplaces (any value replaces the block) and Elements.ReservedAfterNonDictFails (a later reserved item fails when that value is not a dict); for a dict value, later reserved items update that dict, which follows from Elements.MergeItem.
- BuilderProperties.EdgeRecord: stated only for override entries without a "data" key, for the same reason.
- Aliasing of a "data" override: `update({"data": v})` (lines 121, 136) stores the caller's dict itself as the record's data block, so a reserved key merged after it (lines 119, 134) also changes that dict, and every record or caller holding it. The model takes the data block as a copy (a value), so it does not capture that sharing or those changes made in place.
- A missing position: with the real layout this KeyError (line 105) never arises, because `bipartite_layout` (line 92) gives a position to every node of the graph. The positions are an unconstrained input here, so BuilderProperties.MissingCoordinateRaises and the KeyError case of BuilderProperties.NoneNodeOverridesRaise cover inputs the layout never produces; `nodes[i] in Keys(coords)` in BuilderProperties.TestBipartiteCytoscape is the layout's guarantee.
- BuilderProperties.LookupsAreStrict: it states what success needs. The converse, with the exact error, is stated per failing element by the three Missing*Raises lemmas, for the first failing element.

## Findings

| source | as written | input that shows it | evidently intended | confidence | as-written member | corrected member |
|---|---|---|---|---|---|---|
| dash_bipartite/bipartite.py:111-115 | inside the node loop, the node overrides are rewritten with `str()` keys, which calls `.items()` on them, before they are checked against None | node overrides left at their default None, on a BipartiteGraph with one node that has a position: AttributeError | None skips the node overrides, as the `is not None` check on line 115 and the edge branch on lines 122-130 do | not executed | BipartiteCytoscape.Render, with BuilderProperties.NoneNodeOverridesRaise | BipartiteCytoscape.RenderIntended, with BuilderProperties.IntendedSkipsNone, BuilderProperties.IntendedAgrees and BuilderProperties.IntendedNoneGivesDefaults; the constructor lemmas of BuilderProperties hold for both |
