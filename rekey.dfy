/**
 * Rekeying graph nodes by component id
 * (src/main/java/contrail/stages/RekeyByComponentId.java).
 *
 * The job reads two kinds of record: graph node records, and pairs
 * (component id, list of node ids) that assign nodes to a component. The
 * mapper sends every node record to its own node id and, for a component,
 * sends the component id to each listed node id. The reducer for a node
 * id joins the two: it emits (component id, node record), or bumps an
 * error counter when either half is missing.
 */
module Rekey {
  import opened MapReduce

  /**
   * `GraphNodeData`: the stage reads only the node id; every other field
   * (`fields`) is copied through unchanged.
   */
  datatype NodeData = NodeData(nodeId: string, fields: seq<string>)

  /** An input record: a node, or a component with the ids of its nodes. */
  datatype Record =
    | NodeRecord(node: NodeData)
    | ComponentRecord(componentId: string, nodeIds: seq<string>)

  /** A value the mapper emits: a node record, or a component id. */
  datatype Value =
    | NodeValue(node: NodeData)
    | ComponentIdValue(componentId: string)

  /**
   * A reduce call with no values at all takes the missing-component branch
   * and then dereferences the missing node record to build its log message.
   */
  datatype ReduceError = NoNodeForLogMessage

  // ---------------------------------------------------------------------
  // Mapper
  // ---------------------------------------------------------------------

  /**
   * `Mapper.map`: a node record is emitted once under its own id; a
   * component emits its id once under each listed node id, in list order.
   */
  function MapRecord(record: Record): (out: seq<(string, Value)>)
    ensures record.NodeRecord? ==> out == [(record.node.nodeId, NodeValue(record.node))]
    ensures record.ComponentRecord? ==>
      |out| == |record.nodeIds| &&
      forall j :: 0 <= j < |out| ==> out[j] == (record.nodeIds[j], ComponentIdValue(record.componentId))
  {
    match record
    case NodeRecord(node) => [(node.nodeId, NodeValue(node))]
    case ComponentRecord(cid, ids) => ComponentFanOut(cid, ids)
  }

  /** The loop over a component's node ids. */
  function ComponentFanOut(cid: string, ids: seq<string>): (out: seq<(string, Value)>)
    ensures |out| == |ids|
    ensures forall j :: 0 <= j < |out| ==> out[j] == (ids[j], ComponentIdValue(cid))
  {
    if ids == [] then []
    else ComponentFanOut(cid, ids[..|ids| - 1]) + [(ids[|ids| - 1], ComponentIdValue(cid))]
  }

  /** Everything the mappers emit over the whole input. */
  function MapAll(records: seq<Record>): seq<(string, Value)>
  {
    FlatMap(MapRecord, records)
  }

  // ---------------------------------------------------------------------
  // Reducer
  // ---------------------------------------------------------------------

  const MoreThanTwoRecords: string := "error-more-than-2-records"
  const MissingComponentId: string := "error-missing-component-id"
  const MissingNodeData: string := "error-missing-node-data"

  /** The component id of the last component value in `vs`, if any. */
  function LastComponentId(vs: seq<Value>): (r: Option<string>)
    ensures r.None? <==> forall j :: 0 <= j < |vs| ==> !vs[j].ComponentIdValue?
    ensures r.Some? ==> ComponentIdValue(r.value) in vs
  {
    if vs == [] then None
    else if vs[|vs| - 1].ComponentIdValue? then Some(vs[|vs| - 1].componentId)
    else
      var init := vs[..|vs| - 1];
      assert forall j :: 0 <= j < |init| ==> init[j] == vs[j];
      LastComponentId(init)
  }

  /** `LastComponentId` picks the component value that no other component value follows. */
  lemma {:induction false} LastComponentIdIsLast(vs: seq<Value>)
    ensures LastComponentId(vs).Some? ==>
      exists j :: (0 <= j < |vs| && vs[j] == ComponentIdValue(LastComponentId(vs).value) &&
        forall j' :: j < j' < |vs| ==> !vs[j'].ComponentIdValue?)
  {
    if vs == [] {
    } else if vs[|vs| - 1].ComponentIdValue? {
      var j := |vs| - 1;
      assert vs[j] == ComponentIdValue(LastComponentId(vs).value);
    } else {
      var init := vs[..|vs| - 1];
      LastComponentIdIsLast(init);
      assert LastComponentId(vs) == LastComponentId(init);
      if LastComponentId(init).Some? {
        var j :| 0 <= j < |init| && init[j] == ComponentIdValue(LastComponentId(init).value) &&
                 (forall j' :: j < j' < |init| ==> !init[j'].ComponentIdValue?);
        assert vs[j] == ComponentIdValue(LastComponentId(vs).value);
        assert forall j' :: j < j' < |vs| ==> !vs[j'].ComponentIdValue? by {
          forall j' | j < j' < |vs|
            ensures !vs[j'].ComponentIdValue?
          {
            if j' < |init| { assert vs[j'] == init[j']; }
          }
        }
      }
    }
  }

  /** The last node record in `vs`, if any. */
  function LastNode(vs: seq<Value>): (r: Option<NodeData>)
    ensures r.None? <==> forall j :: 0 <= j < |vs| ==> !vs[j].NodeValue?
    ensures r.Some? ==> NodeValue(r.value) in vs
  {
    if vs == [] then None
    else if vs[|vs| - 1].NodeValue? then Some(vs[|vs| - 1].node)
    else
      var init := vs[..|vs| - 1];
      assert forall j :: 0 <= j < |init| ==> init[j] == vs[j];
      LastNode(init)
  }

  /** `LastNode` picks the node record that no other node record follows. */
  lemma {:induction false} LastNodeIsLast(vs: seq<Value>)
    ensures LastNode(vs).Some? ==>
      exists j :: (0 <= j < |vs| && vs[j] == NodeValue(LastNode(vs).value) &&
        forall j' :: j < j' < |vs| ==> !vs[j'].NodeValue?)
  {
    if vs == [] {
    } else if vs[|vs| - 1].NodeValue? {
      var j := |vs| - 1;
      assert vs[j] == NodeValue(LastNode(vs).value);
    } else {
      var init := vs[..|vs| - 1];
      LastNodeIsLast(init);
      assert LastNode(vs) == LastNode(init);
      if LastNode(init).Some? {
        var j :| 0 <= j < |init| && init[j] == NodeValue(LastNode(init).value) &&
                 (forall j' :: j < j' < |init| ==> !init[j'].NodeValue?);
        assert vs[j] == NodeValue(LastNode(vs).value);
        assert forall j' :: j < j' < |vs| ==> !vs[j'].NodeValue? by {
          forall j' | j < j' < |vs|
            ensures !vs[j'].NodeValue?
          {
            if j' < |init| { assert vs[j'] == init[j']; }
          }
        }
      }
    }
  }

  /**
   * What the reducer emits for one key: the last component id with the
   * last node record, when both arrived, and nothing otherwise.
   */
  function JoinOutput(vs: seq<Value>): (r: Option<(string, NodeData)>)
    ensures r.Some? <==>
      (exists j :: 0 <= j < |vs| && vs[j].ComponentIdValue?) && (exists j :: 0 <= j < |vs| && vs[j].NodeValue?)
    ensures r.Some? ==> ComponentIdValue(r.value.0) in vs && NodeValue(r.value.1) in vs
  {
    var key := LastComponentId(vs);
    var value := LastNode(vs);
    if key.Some? && value.Some? then Some((key.value, value.value)) else None
  }

  /**
   * The counters after one call: one bump for a key with more than two
   * values, then one for a missing component id, or else one for missing
   * node data.
   */
  function JoinCounters(counters: map<string, nat>, vs: seq<Value>): (m: map<string, nat>)
    ensures Count(m, MoreThanTwoRecords) == Count(counters, MoreThanTwoRecords) + (if |vs| > 2 then 1 else 0)
    ensures Count(m, MissingComponentId) ==
      Count(counters, MissingComponentId) + (if LastComponentId(vs).None? then 1 else 0)
    ensures Count(m, MissingNodeData) ==
      Count(counters, MissingNodeData) + (if LastComponentId(vs).Some? && LastNode(vs).None? then 1 else 0)
    ensures forall k :: k != MoreThanTwoRecords && k != MissingComponentId && k != MissingNodeData ==>
      Count(m, k) == Count(counters, k)
  {
    var c := if |vs| > 2 then Incr(counters, MoreThanTwoRecords) else counters;
    if LastComponentId(vs).None? then Incr(c, MissingComponentId)
    else if LastNode(vs).None? then Incr(c, MissingNodeData)
    else c
  }

  /**
   * `RekeyByComponentId.Reducer`. `key` and `value` are the reused output
   * pair; `collected` is what reached the collector and `counters` what was
   * reported, over every call so far.
   */
  class Reducer {
    var key: Option<string>
    var value: Option<NodeData>
    var collected: seq<(string, NodeData)>
    var counters: map<string, nat>

    /** `configure`: an empty output pair; nothing collected or counted yet. */
    constructor ()
      ensures key == Some("") && value.Some? && collected == [] && counters == map[]
    {
      key := Some("");
      value := Some(NodeData("", []));
      collected := [];
      counters := map[];
    }

    /**
     * `reduce` for one node id: the output pair is cleared, then every
     * value overwrites its half of the pair in arrival order. The pair
     * left at the end is the last component id and the last node record,
     * whatever earlier calls left behind.
     */
    method Reduce(id: string, records: seq<Value>) returns (r: Result<(), ReduceError>)
      modifies this
      ensures r.Err? <==> records == []
      ensures key == LastComponentId(records) && value == LastNode(records)
      ensures collected == old(collected) + (var o := JoinOutput(records); if o.Some? then [o.value] else [])
      ensures counters == JoinCounters(old(counters), records)
    {
      key, value := None, None;
      var numRecords := 0;
      var i := 0;
      while i < |records|
        invariant 0 <= i <= |records| && numRecords == i
        invariant key == LastComponentId(records[..i]) && value == LastNode(records[..i])
        invariant collected == old(collected) && counters == old(counters)
      {
        assert records[..i + 1][..i] == records[..i];
        numRecords := numRecords + 1;
        match records[i] {
          case ComponentIdValue(cid) => key := Some(cid);
          case NodeValue(node) => value := Some(node);
        }
        i := i + 1;
      }
      assert records[..i] == records;
      if numRecords > 2 {
        counters := Incr(counters, MoreThanTwoRecords);
      }
      if key.Some? && value.Some? {
        collected := collected + [(key.value, value.value)];
      } else if key.None? {
        counters := Incr(counters, MissingComponentId);
        if value.None? {
          return Err(NoNodeForLogMessage);
        }
      } else if value.None? {
        counters := Incr(counters, MissingNodeData);
      }
      r := Ok(());
    }
  }

  // ---------------------------------------------------------------------
  // The join across map and shuffle
  // ---------------------------------------------------------------------

  /** A component record lists `id`. */
  predicate Lists(record: Record, id: string)
  {
    record.ComponentRecord? && id in record.nodeIds
  }

  /** What the shuffle hands the reducer for `id`, by origin. */
  lemma {:induction false} GroupedValues(records: seq<Record>, id: string, v: Value)
    ensures v in Group(id, MapAll(records)) <==>
      match v
      case NodeValue(n) => n.nodeId == id && NodeRecord(n) in records
      case ComponentIdValue(c) => exists i :: 0 <= i < |records| && Lists(records[i], id) && records[i].componentId == c
  {
    assert v in Group(id, MapAll(records)) <==> (id, v) in MapAll(records);
    match v
    case NodeValue(n) => EmittedNode(records, id, n);
    case ComponentIdValue(c) => EmittedComponentId(records, id, c);
  }

  /** A node record is emitted under its own id and under no other key. */
  lemma {:induction false} EmittedNode(records: seq<Record>, id: string, n: NodeData)
    ensures (id, NodeValue(n)) in MapAll(records) <==> n.nodeId == id && NodeRecord(n) in records
  {
    if NodeRecord(n) in records && n.nodeId == id {
      var i :| 0 <= i < |records| && records[i] == NodeRecord(n);
      assert (id, NodeValue(n)) in MapRecord(records[i]);
    }
  }

  /** A component id is emitted under exactly the node ids its component lists. */
  lemma {:induction false} EmittedComponentId(records: seq<Record>, id: string, c: string)
    ensures (id, ComponentIdValue(c)) in MapAll(records) <==>
      exists i :: 0 <= i < |records| && Lists(records[i], id) && records[i].componentId == c
  {
    var v := ComponentIdValue(c);
    if exists i :: 0 <= i < |records| && Lists(records[i], id) && records[i].componentId == c {
      var i :| 0 <= i < |records| && Lists(records[i], id) && records[i].componentId == c;
      var ids := records[i].nodeIds;
      var j :| 0 <= j < |ids| && ids[j] == id;
      assert MapRecord(records[i])[j] == (id, v);
    }
    if (id, v) in MapAll(records) {
      var i :| 0 <= i < |records| && (id, v) in MapRecord(records[i]);
      var out := MapRecord(records[i]);
      var j :| 0 <= j < |out| && out[j] == (id, v);
      assert records[i].nodeIds[j] == id;
    }
  }

  /**
   * The reducer for a node id emits a pair exactly when some node record
   * has that id and some component lists it.
   */
  lemma {:induction false} JoinEmitsIff(records: seq<Record>, id: string)
    ensures JoinOutput(Group(id, MapAll(records))).Some? <==>
      (exists n :: NodeRecord(n) in records && n.nodeId == id) &&
      (exists i :: 0 <= i < |records| && Lists(records[i], id))
  {
    var vs := Group(id, MapAll(records));
    if exists n :: NodeRecord(n) in records && n.nodeId == id {
      var n :| NodeRecord(n) in records && n.nodeId == id;
      GroupedValues(records, id, NodeValue(n));
      var j :| 0 <= j < |vs| && vs[j] == NodeValue(n);
    }
    if exists j :: 0 <= j < |vs| && vs[j].NodeValue? {
      var j :| 0 <= j < |vs| && vs[j].NodeValue?;
      GroupedValues(records, id, vs[j]);
    }
    if exists i :: 0 <= i < |records| && Lists(records[i], id) {
      var i :| 0 <= i < |records| && Lists(records[i], id);
      GroupedValues(records, id, ComponentIdValue(records[i].componentId));
      var j :| 0 <= j < |vs| && vs[j] == ComponentIdValue(records[i].componentId);
    }
    if exists j :: 0 <= j < |vs| && vs[j].ComponentIdValue? {
      var j :| 0 <= j < |vs| && vs[j].ComponentIdValue?;
      GroupedValues(records, id, vs[j]);
    }
  }

  /**
   * When the input agrees with itself about a node id — every node record
   * with that id is `n` and every component listing it is `cid`, and both
   * exist — the reducer emits exactly (cid, n).
   */
  lemma {:induction false} JoinUnique(records: seq<Record>, id: string, cid: string, n: NodeData)
    requires NodeRecord(n) in records && n.nodeId == id
    requires forall m :: NodeRecord(m) in records && m.nodeId == id ==> m == n
    requires exists i :: 0 <= i < |records| && Lists(records[i], id)
    requires forall i :: 0 <= i < |records| && Lists(records[i], id) ==> records[i].componentId == cid
    ensures JoinOutput(Group(id, MapAll(records))) == Some((cid, n))
  {
    var vs := Group(id, MapAll(records));
    JoinEmitsIff(records, id);
    var o := JoinOutput(vs).value;
    GroupedValues(records, id, ComponentIdValue(o.0));
    GroupedValues(records, id, NodeValue(o.1));
  }
}
