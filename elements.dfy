/**
 * Cytoscape element records and the merge of one override entry into one
 * record, routing each key either into the record's nested data block or
 * onto the record itself.
 */
module Elements {
  import opened Wrappers
  import opened PyValues
  import opened Dicts

  /** The top level of one element record; its nested data block is the dict under "data". */
  type Element = map<string, Value>

  /** One override entry: the properties to merge into one record, in insertion order. */
  type Entry = Dict<string, Value>

  /** The keys that are merged into the data block; every other key goes onto the record. */
  const Reserved: set<string> := {"id", "label", "parent", "source", "target"}

  predicate HasDataBlock(e: Element) {
    "data" in e && e["data"].MapV?
  }

  function Data(e: Element): map<string, Value>
    requires HasDataBlock(e)
  {
    e["data"].fields
  }

  /** m[k] as an optional value. */
  function At(m: map<string, Value>, k: string): Option<Value> {
    if k in m then Some(m[k]) else None
  }

  /**
   * One `update({key: value})`: into the data block for a reserved key, onto
   * the record otherwise. Updating a data block that is not a dict fails
   * (the record always has a "data" entry, so the missing case cannot arise).
   */
  function MergeItem(e: Element, key: string, value: Value): Result<Element, Error> {
    if key in Reserved then
      if HasDataBlock(e) then Ok(e["data" := MapV(Data(e)[key := value])]) else Err(DataNotDict)
    else
      Ok(e[key := value])
  }

  /** The items of an entry merged one after another; the first failure ends the merge. */
  function Merged(e: Element, entry: Entry): Result<Element, Error> {
    if entry == [] then Ok(e)
    else
      var before :- Merged(e, entry[..|entry| - 1]);
      MergeItem(before, entry[|entry| - 1].0, entry[|entry| - 1].1)
  }

  /** Once a prefix of the entry fails, the whole merge fails in the same way. */
  lemma {:induction false} MergedStopsAt(e: Element, entry: Entry, i: nat)
    requires i <= |entry| && Merged(e, entry[..i]).Err?
    ensures Merged(e, entry) == Merged(e, entry[..i])
    decreases |entry|
  {
    if i < |entry| {
      var p := entry[..|entry| - 1];
      assert p[..i] == entry[..i];
      MergedStopsAt(e, p, i);
    } else {
      assert entry[..i] == entry;
    }
  }

  /** The merge loop over one override entry. */
  method Merge(e: Element, entry: Entry) returns (r: Result<Element, Error>)
    ensures r == Merged(e, entry)
  {
    var element := e;
    for i := 0 to |entry|
      invariant Merged(e, entry[..i]) == Ok(element)
    {
      assert entry[..i + 1][..i] == entry[..i];
      var (key, value) := entry[i];
      if key in Reserved {
        if !("data" in element && element["data"].MapV?) {
          MergedStopsAt(e, entry, i + 1);
          return Err(DataNotDict);
        }
        element := element["data" := MapV(element["data"].fields[key := value])];
      } else {
        element := element[key := value];
      }
    }
    assert entry[..|entry|] == entry;
    return Ok(element);
  }

  /**
   * Where an entry without a "data" key puts its values: the reserved keys
   * into the data block, the others onto the record, the last value of a
   * key winning; everything else stays as it was.
   */
  function Routed(e: Element, entry: Entry): (r: Element)
    requires HasDataBlock(e)
    ensures HasDataBlock(r)
  {
    RoutedMap(e, ToMap(entry))
  }

  function RoutedMap(e: Element, m: map<string, Value>): (r: Element)
    requires HasDataBlock(e)
    ensures HasDataBlock(r)
  {
    (e + ToTop(m))["data" := MapV(Data(e) + ToData(m))]
  }

  /** The part of an entry that goes into the data block. */
  function ToData(m: map<string, Value>): map<string, Value> {
    map k | k in m && k in Reserved :: m[k]
  }

  /** The part of an entry that goes onto the record. */
  function ToTop(m: map<string, Value>): map<string, Value> {
    map k | k in m && k !in Reserved :: m[k]
  }

  /** Merging one more item routes one more key. */
  lemma RoutedMapStep(e: Element, m: map<string, Value>, k: string, v: Value)
    requires HasDataBlock(e) && k != "data"
    ensures MergeItem(RoutedMap(e, m), k, v) == Ok(RoutedMap(e, m[k := v]))
  {
    if k in Reserved {
      RoutedMapStepData(e, m, k, v);
    } else {
      RoutedMapStepTop(e, m, k, v);
    }
  }

  lemma RoutedMapStepData(e: Element, m: map<string, Value>, k: string, v: Value)
    requires HasDataBlock(e) && k in Reserved
    ensures RoutedMap(e, m)["data" := MapV(Data(RoutedMap(e, m))[k := v])] == RoutedMap(e, m[k := v])
  {
    var top, data := e + ToTop(m), Data(e) + ToData(m);
    assert ToTop(m[k := v]) == ToTop(m);
    assert ToData(m[k := v]) == ToData(m)[k := v];
    assert Data(e) + ToData(m[k := v]) == data[k := v];
  }

  lemma RoutedMapStepTop(e: Element, m: map<string, Value>, k: string, v: Value)
    requires HasDataBlock(e) && k !in Reserved && k != "data"
    ensures RoutedMap(e, m)[k := v] == RoutedMap(e, m[k := v])
  {
    var top, data := e + ToTop(m), Data(e) + ToData(m);
    assert ToData(m[k := v]) == ToData(m);
    assert ToTop(m[k := v]) == ToTop(m)[k := v];
    assert e + ToTop(m[k := v]) == top[k := v];
    assert top["data" := MapV(data)][k := v] == top[k := v]["data" := MapV(data)];
  }

  /** Merging item by item is routing the entry as a whole. */
  lemma {:induction false} MergedRoutes(e: Element, entry: Entry)
    requires HasDataBlock(e)
    requires "data" !in Keys(entry)
    ensures Merged(e, entry) == Ok(Routed(e, entry))
  {
    if entry == [] {
      assert ToTop(map[]) == map[] && ToData(map[]) == map[];
      assert e + map[] == e && Data(e) + map[] == Data(e);
      assert e["data" := MapV(Data(e))] == e;
    } else {
      var p := entry[..|entry| - 1];
      KeysSnoc(entry);
      MergedRoutes(e, p);
      RoutedMapStep(e, ToMap(p), entry[|entry| - 1].0, entry[|entry| - 1].1);
    }
  }

  /**
   * Routing, key by key: a reserved key of the entry ends up in the data
   * block with the entry's value, any other key of the entry ends up on the
   * record with the entry's value, and nothing else changes.
   */
  lemma RoutingAt(e: Element, entry: Entry, key: string)
    requires HasDataBlock(e)
    requires "data" !in Keys(entry)
    ensures Merged(e, entry).Ok? && HasDataBlock(Merged(e, entry).value)
    ensures At(Data(Merged(e, entry).value), key) ==
            if key in Keys(entry) && key in Reserved then Some(ToMap(entry)[key]) else At(Data(e), key)
    ensures key != "data" ==>
            At(Merged(e, entry).value, key) ==
            if key in Keys(entry) && key !in Reserved then Some(ToMap(entry)[key]) else At(e, key)
  {
    MergedRoutes(e, entry);
  }

  /** In an entry that is a dict, the value routed for a key is the value the entry gives it. */
  lemma RoutedValue(e: Element, entry: Entry, i: nat)
    requires HasDataBlock(e)
    requires "data" !in Keys(entry) && DistinctKeys(entry) && i < |entry|
    ensures Merged(e, entry).Ok? && HasDataBlock(Merged(e, entry).value)
    ensures entry[i].0 in Reserved ==> At(Data(Merged(e, entry).value), entry[i].0) == Some(entry[i].1)
    ensures entry[i].0 !in Reserved ==> At(Merged(e, entry).value, entry[i].0) == Some(entry[i].1)
  {
    ToMapAt(entry, i);
    RoutingAt(e, entry, entry[i].0);
  }

  /**
   * A "data" key is not reserved, so it replaces the whole data block by its
   * value, whatever that value is.
   */
  lemma DataItemReplaces(e: Element, entry: Entry, i: nat)
    requires i < |entry| && entry[i].0 == "data" && Merged(e, entry[..i]).Ok?
    ensures Merged(e, entry[..i + 1]) == Ok(Merged(e, entry[..i]).value["data" := entry[i].1])
  {
    assert entry[..i + 1][..|entry[..i + 1]| - 1] == entry[..i];
  }

  /**
   * A reserved item merged into a record whose data block is not a dict fails,
   * and so does the whole entry.
   */
  lemma ReservedAfterNonDictFails(e: Element, entry: Entry, i: nat)
    requires i < |entry| && entry[i].0 in Reserved
    requires Merged(e, entry[..i]).Ok? && !HasDataBlock(Merged(e, entry[..i]).value)
    ensures Merged(e, entry) == Err(DataNotDict)
  {
    assert entry[..i + 1][..|entry[..i + 1]| - 1] == entry[..i];
    MergedStopsAt(e, entry, i + 1);
  }

  /** Two example entries: a "data" item with a non-dict value, before and after a label. */
  lemma DataOverrideReplacesBlock(e: Element, v: Value)
    requires HasDataBlock(e) && !v.MapV?
    ensures Merged(e, [("label", StrV("x")), ("data", v)]) == Ok(e["data" := v])
    ensures Merged(e, [("data", v), ("label", StrV("x"))]) == Err(DataNotDict)
  {
    assert [("label", StrV("x")), ("data", v)][..1] == [("label", StrV("x"))];
    assert [("label", StrV("x"))][..0] == [];
    var e1 := e["data" := MapV(Data(e)["label" := StrV("x")])];
    assert Merged(e, [("label", StrV("x"))]) == Ok(e1);
    assert [("data", v), ("label", StrV("x"))][..1] == [("data", v)];
    assert e["data" := MapV(Data(e)["label" := StrV("x")])]["data" := v] == e["data" := v];
  }
}
