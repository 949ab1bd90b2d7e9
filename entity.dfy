/**
 * The component table of an entity under construction
 * (spatialos-sdk/src/worker/entity.rs): a map from component id to the
 * component's data, either already serialized or held behind a user handle,
 * that refuses a second component with the same id, and that is finally
 * drained into the records handed to the C API.
 *
 * Serialized schema data and user handles are owned allocations on the
 * foreign side; each is modelled by the number naming its allocation. The
 * global vtable registry is a parameter: the set of ids that have a vtable.
 */
module EntityTable {
  import opened Wrappers
  import opened Scalars

  type ComponentId = u32

  /** Owned<schema::ComponentData>, named by its allocation. */
  datatype SchemaData = SchemaData(allocation: nat)

  /** UserHandle, named by its allocation. */
  datatype UserHandle = UserHandle(allocation: nat)

  /** ComponentData: serialized schema data or a user handle. */
  datatype ComponentData = Serialized(schemaData: SchemaData) | Handle(handle: UserHandle)

  /** Worker_ComponentData: a null pointer is None. */
  datatype RawComponentData = RawComponentData(
    componentId: ComponentId,
    schemaType: Option<SchemaData>,
    userHandle: Option<UserHandle>)

  function DuplicateMessage(id: ComponentId): string
  {
    "Duplicate component with ID " + DecimalString(id as int) + " added to `Entity`."
  }

  function NoVtableMessage(id: ComponentId): string
  {
    "Cannot add component (ID " + DecimalString(id as int) + ") as a handle because it does not have a vtable setup"
  }

  /**
   * The record into_raw builds for one stored component: schema data leaves
   * the handle pointer null, a handle leaves the schema pointer null.
   */
  function Record(id: ComponentId, c: ComponentData): (r: RawComponentData)
    ensures r.componentId == id
    ensures r.schemaType.Some? <==> c.Serialized?
    ensures r.userHandle.Some? <==> c.Handle?
    ensures r.schemaType.Some? != r.userHandle.Some?
    ensures c.Serialized? ==> r.schemaType == Some(c.schemaData)
    ensures c.Handle? ==> r.userHandle == Some(c.handle)
  {
    match c
    case Serialized(d) => RawComponentData(id, Some(d), None)
    case Handle(h) => RawComponentData(id, None, Some(h))
  }

  /** The handles carried by a list of records, in record order. */
  function HandlesOf(records: seq<RawComponentData>): seq<UserHandle>
  {
    if |records| == 0 then []
    else
      var last := records[|records| - 1];
      HandlesOf(records[..|records| - 1]) + (if last.userHandle.Some? then [last.userHandle.value] else [])
  }

  /** Pushing one more record pushes its handle, if it has one. */
  lemma HandlesOfSnoc(records: seq<RawComponentData>, r: RawComponentData)
    ensures HandlesOf(records + [r]) == HandlesOf(records) + (if r.userHandle.Some? then [r.userHandle.value] else [])
  {
    assert (records + [r])[..|records|] == records;
  }

  /** There are never more handles than records. */
  lemma {:induction false} HandlesOfBound(records: seq<RawComponentData>)
    ensures |HandlesOf(records)| <= |records|
  {
    if |records| > 0 {
      HandlesOfBound(records[..|records| - 1]);
    }
  }

  /** A handle is among the handles exactly when some record carries it. */
  lemma {:induction false} HandlesOfMembers(records: seq<RawComponentData>, h: UserHandle)
    ensures h in HandlesOf(records) <==> exists i :: 0 <= i < |records| && records[i].userHandle == Some(h)
  {
    if |records| > 0 {
      var init := records[..|records| - 1];
      HandlesOfMembers(init, h);
      if exists i :: 0 <= i < |init| && init[i].userHandle == Some(h) {
        var i :| 0 <= i < |init| && init[i].userHandle == Some(h);
        assert records[i] == init[i];
      }
      if exists i :: 0 <= i < |records| && records[i].userHandle == Some(h) {
        var i :| 0 <= i < |records| && records[i].userHandle == Some(h);
        if i < |init| {
          assert init[i] == records[i];
        }
      }
    }
  }

  /**
   * The records list the table exactly: one record per stored component,
   * under its own id, with no id twice.
   */
  predicate Lists(records: seq<RawComponentData>, table: map<ComponentId, ComponentData>)
  {
    |records| == |table| &&
    (forall i :: 0 <= i < |records| ==>
      records[i].componentId in table && records[i] == Record(records[i].componentId, table[records[i].componentId])) &&
    (forall id :: id in table ==> exists i :: 0 <= i < |records| && records[i].componentId == id) &&
    (forall i, j :: 0 <= i < j < |records| ==> records[i].componentId != records[j].componentId)
  }

  /**
   * The handles of a listing are exactly the handles stored in the table:
   * every handle-backed component hands over its handle, and no other handle
   * appears.
   */
  lemma ListedHandles(records: seq<RawComponentData>, table: map<ComponentId, ComponentData>, h: UserHandle)
    requires Lists(records, table)
    ensures h in HandlesOf(records) <==> exists id :: id in table && table[id] == Handle(h)
  {
    HandlesOfMembers(records, h);
    if exists id :: id in table && table[id] == Handle(h) {
      var id :| id in table && table[id] == Handle(h);
      var i :| 0 <= i < |records| && records[i].componentId == id;
      assert records[i].userHandle == Some(h);
    }
    if exists i :: 0 <= i < |records| && records[i].userHandle == Some(h) {
      var i :| 0 <= i < |records| && records[i].userHandle == Some(h);
      assert table[records[i].componentId] == Handle(h);
    }
  }

  /** Entity: the table of components keyed by component id. */
  class Entity {
    var components: map<ComponentId, ComponentData>

    /** Entity::new: no components. */
    constructor()
      ensures components == map[]
    {
      components := map[];
    }

    /** pre_add_check: an id already present is refused. */
    method PreAddCheck(id: ComponentId) returns (r: Result<(), string>)
      ensures r.Err? <==> id in components
      ensures r.Err? ==> r.error == DuplicateMessage(id)
    {
      if id in components {
        return Err(DuplicateMessage(id));
      }
      return Ok(());
    }

    /**
     * add_handle: aborts when the id has no vtable; otherwise refuses a
     * duplicate id, or stores the component behind its handle. Nothing else
     * in the table changes.
     */
    method AddHandle(id: ComponentId, handle: UserHandle, registered: set<ComponentId>)
      returns (r: Outcome<Result<(), string>>)
      modifies this
      ensures id !in registered ==> r == Panics(NoVtableMessage(id)) && components == old(components)
      ensures id in registered && id in old(components) ==>
                r == Returns(Err(DuplicateMessage(id))) && components == old(components)
      ensures id in registered && id !in old(components) ==>
                r == Returns(Ok(())) && components == old(components)[id := Handle(handle)]
    {
      if id !in registered {
        return Panics(NoVtableMessage(id));
      }
      var check := PreAddCheck(id);
      if check.Err? {
        return Returns(Err(check.error));
      }
      components := components[id := Handle(handle)];
      return Returns(Ok(()));
    }

    /** add: always goes through add_handle. */
    method Add(id: ComponentId, handle: UserHandle, registered: set<ComponentId>)
      returns (r: Outcome<Result<(), string>>)
      modifies this
      ensures id !in registered ==> r == Panics(NoVtableMessage(id)) && components == old(components)
      ensures id in registered && id in old(components) ==>
                r == Returns(Err(DuplicateMessage(id))) && components == old(components)
      ensures id in registered && id !in old(components) ==>
                r == Returns(Ok(())) && components == old(components)[id := Handle(handle)]
    {
      r := AddHandle(id, handle, registered);
    }

    /** add_serialized: refuses a duplicate id, or stores the serialized data. */
    method AddSerialized(id: ComponentId, data: SchemaData) returns (r: Result<(), string>)
      modifies this
      ensures id in old(components) ==> r == Err(DuplicateMessage(id)) && components == old(components)
      ensures id !in old(components) ==> r == Ok(()) && components == old(components)[id := Serialized(data)]
    {
      var check := PreAddCheck(id);
      if check.Err? {
        return Err(check.error);
      }
      components := components[id := Serialized(data)];
      return Ok(());
    }

    /**
     * into_raw: drains the table in whatever order the map yields, pushing a
     * record per component and, for handle-backed ones, the handle as well.
     */
    method IntoRaw() returns (records: seq<RawComponentData>, handles: seq<UserHandle>)
      modifies this
      ensures Lists(records, old(components))
      ensures handles == HandlesOf(records)
      ensures components == map[]
    {
      var rest := components;
      components := map[];
      records, handles := [], [];
      while rest != map[]
        invariant Draining(old(components), rest, records)
        invariant handles == HandlesOf(records)
        invariant components == map[]
        decreases |rest|
      {
        var id :| id in rest;
        var data := rest[id];
        DrainStep(old(components), rest, records, id);
        HandlesOfSnoc(records, Record(id, data));
        rest := rest - {id};
        records := records + [Record(id, data)];
        if data.Handle? {
          handles := handles + [data.handle];
        }
      }
      DrainDone(old(components), records);
    }
  }

  /**
   * Part way through into_raw: `rest` is what the drain has not yet yielded,
   * and `records` lists the rest of the table, each component once.
   */
  predicate Draining(table: map<ComponentId, ComponentData>, rest: map<ComponentId, ComponentData>,
                     records: seq<RawComponentData>)
  {
    (forall id :: id in rest ==> id in table && rest[id] == table[id]) &&
    (forall i :: 0 <= i < |records| ==>
      records[i].componentId in table && records[i].componentId !in rest &&
      records[i] == Record(records[i].componentId, table[records[i].componentId])) &&
    (forall id :: id in table ==> id in rest || exists i :: 0 <= i < |records| && records[i].componentId == id) &&
    (forall i, j :: 0 <= i < j < |records| ==> records[i].componentId != records[j].componentId) &&
    |records| + |rest| == |table|
  }

  /** Yielding one more entry keeps the drain's bookkeeping. */
  lemma DrainStep(table: map<ComponentId, ComponentData>, rest: map<ComponentId, ComponentData>,
                  records: seq<RawComponentData>, id: ComponentId)
    requires Draining(table, rest, records)
    requires id in rest
    ensures Draining(table, rest - {id}, records + [Record(id, rest[id])])
  {
    DrainOne(rest, id);
    DrainRecords(table, rest, records, id);
    DrainCovered(table, rest, records, id);
  }

  /** The records after one more yield are the table's entries for ids no longer pending, each once. */
  lemma DrainRecords(table: map<ComponentId, ComponentData>, rest: map<ComponentId, ComponentData>,
                     records: seq<RawComponentData>, id: ComponentId)
    requires Draining(table, rest, records)
    requires id in rest
    ensures var records' := records + [Record(id, rest[id])];
            (forall i :: 0 <= i < |records'| ==>
              records'[i].componentId in table && records'[i].componentId !in rest - {id} &&
              records'[i] == Record(records'[i].componentId, table[records'[i].componentId])) &&
            (forall i, j :: 0 <= i < j < |records'| ==> records'[i].componentId != records'[j].componentId)
  {
    var records' := records + [Record(id, rest[id])];
    forall i | 0 <= i < |records'|
      ensures records'[i].componentId in table && records'[i].componentId !in rest - {id} &&
              records'[i] == Record(records'[i].componentId, table[records'[i].componentId])
    {
      if i < |records| {
        assert records'[i] == records[i];
      }
    }
    forall i, j | 0 <= i < j < |records'|
      ensures records'[i].componentId != records'[j].componentId
    {
      assert records'[i] == records[i];
      if j < |records| {
        assert records'[j] == records[j];
      }
    }
  }

  /** After one more yield every id of the table is still pending or already recorded. */
  lemma DrainCovered(table: map<ComponentId, ComponentData>, rest: map<ComponentId, ComponentData>,
                     records: seq<RawComponentData>, id: ComponentId)
    requires Draining(table, rest, records)
    requires id in rest
    ensures var records' := records + [Record(id, rest[id])];
            forall k :: k in table ==> k in rest - {id} || exists i :: 0 <= i < |records'| && records'[i].componentId == k
  {
    var records' := records + [Record(id, rest[id])];
    forall k | k in table
      ensures k in rest - {id} || exists i :: 0 <= i < |records'| && records'[i].componentId == k
    {
      if k == id {
        assert records'[|records|].componentId == k;
      } else if k !in rest {
        var i :| 0 <= i < |records| && records[i].componentId == k;
        assert records'[i].componentId == k;
      }
    }
  }

  /** Once nothing is pending, the records list exactly the table, each component once. */
  lemma DrainDone(table: map<ComponentId, ComponentData>, records: seq<RawComponentData>)
    requires Draining(table, map[], records)
    ensures Lists(records, table)
  {
  }

  /** Removing a present key shrinks a map by one. */
  lemma DrainOne(m: map<ComponentId, ComponentData>, id: ComponentId)
    requires id in m
    ensures |m - {id}| == |m| - 1
  {
    assert (m - {id}).Keys == m.Keys - {id};
  }
}
