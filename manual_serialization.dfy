/**
 * The hand-written component bindings of spatialos-sdk/tests/manual_serialization.rs:
 * the command request/response enums with their command indices, and the
 * component update that writes only the fields it carries.
 *
 * The schema objects themselves belong to the foreign schema API. Here a
 * command payload is the value it carries, and a component update is an
 * object holding the (field id, value) and (event id, events) pairs written
 * into it, in the order they were written.
 */
module ManualSerialization {
  import opened Wrappers
  import opened Scalars
  import opened WorkerCore

  /** type NestedType { string name = 1; } */
  datatype NestedType = NestedType(name: string)

  /** type CoolEvent { option<bytes> some_data = 1; } */
  datatype CoolEvent = CoolEvent(someData: Option<seq<u8>>)

  // ---------------------------------------------------------------------------
  // Commands
  // ---------------------------------------------------------------------------

  /** A serialized command payload: the schema object holding one of the payload types. */
  datatype Payload = NestedPayload(nested: NestedType) | CoolPayload(cool: CoolEvent)

  /** Requests of some_command(NestedType), duplicate_command(NestedType), other_command(CoolEvent). */
  datatype CommandRequest =
    | SomeCommand(someRequest: NestedType)
    | DuplicateCommand(duplicateRequest: NestedType)
    | OtherCommand(otherRequest: CoolEvent)

  /** Responses: some_command and duplicate_command answer a CoolEvent, other_command a NestedType. */
  datatype CommandResponse =
    | SomeCommandDone(someResponse: CoolEvent)
    | DuplicateCommandDone(duplicateResponse: CoolEvent)
    | OtherCommandDone(otherResponse: NestedType)

  /** into_request: the serialized payload and the command index 1, 2 or 3. */
  function IntoRequest(r: CommandRequest): (out: (Payload, u32))
    ensures 1 <= out.1 <= 3
    ensures out.1 == 1 <==> r.SomeCommand?
    ensures out.1 == 2 <==> r.DuplicateCommand?
    ensures out.1 == 3 <==> r.OtherCommand?
  {
    match r
    case SomeCommand(n) => (NestedPayload(n), 1)
    case DuplicateCommand(n) => (NestedPayload(n), 2)
    case OtherCommand(c) => (CoolPayload(c), 3)
  }

  /** Reading a NestedType out of a payload; a payload of the other type cannot be read. */
  function DeserializeNested(p: Payload): (r: Outcome<NestedType>)
    ensures r.Returns? <==> p.NestedPayload?
    ensures r.Returns? ==> r.value == p.nested
  {
    match p
    case NestedPayload(n) => Returns(n)
    case CoolPayload(_) => Panics("payload is not a NestedType")
  }

  /** Reading a CoolEvent out of a payload; a payload of the other type cannot be read. */
  function DeserializeCool(p: Payload): (r: Outcome<CoolEvent>)
    ensures r.Returns? <==> p.CoolPayload?
    ensures r.Returns? ==> r.value == p.cool
  {
    match p
    case CoolPayload(c) => Returns(c)
    case NestedPayload(_) => Panics("payload is not a CoolEvent")
  }

  /** Wraps a successfully read payload as a present command value. */
  function Present<P, C>(read: Outcome<P>, wrap: P -> C): (r: Outcome<Option<C>>)
    ensures r.Returns? <==> read.Returns?
    ensures r.Returns? ==> r.value == Some(wrap(read.value))
  {
    match read
    case Returns(v) => Returns(Some(wrap(v)))
    case Panics(m) => Panics(m)
  }

  /** from_request: indices 1, 2, 3 deserialize the payload; every other index gives None. */
  function FromRequest(p: Payload, index: u32): (r: Outcome<Option<CommandRequest>>)
    ensures !(1 <= index <= 3) ==> r == Returns(None)
    ensures r.Returns? && r.value.Some? ==> IntoRequest(r.value.value) == (p, index)
  {
    match index
    case 1 => Present(DeserializeNested(p), (n: NestedType) => SomeCommand(n))
    case 2 => Present(DeserializeNested(p), (n: NestedType) => DuplicateCommand(n))
    case 3 => Present(DeserializeCool(p), (c: CoolEvent) => OtherCommand(c))
    case _ => Returns(None)
  }

  /** Decoding an encoded request gives the same request back. */
  lemma RequestRoundTrip(r: CommandRequest)
    ensures FromRequest(IntoRequest(r).0, IntoRequest(r).1) == Returns(Some(r))
  {
  }

  /**
   * The index alone tells the variant apart, even between the two commands
   * that share the NestedType payload: encoding is one-to-one.
   */
  lemma IntoRequestInjective(a: CommandRequest, b: CommandRequest)
    requires IntoRequest(a) == IntoRequest(b)
    ensures a == b
  {
    RequestRoundTrip(a);
    RequestRoundTrip(b);
  }

  /** into_response: the serialized payload and the command index 1, 2 or 3. */
  function IntoResponse(r: CommandResponse): (out: (Payload, u32))
    ensures 1 <= out.1 <= 3
    ensures out.1 == 1 <==> r.SomeCommandDone?
    ensures out.1 == 2 <==> r.DuplicateCommandDone?
    ensures out.1 == 3 <==> r.OtherCommandDone?
  {
    match r
    case SomeCommandDone(c) => (CoolPayload(c), 1)
    case DuplicateCommandDone(c) => (CoolPayload(c), 2)
    case OtherCommandDone(n) => (NestedPayload(n), 3)
  }

  /** from_response: indices 1, 2, 3 deserialize the payload; every other index gives None. */
  function FromResponse(p: Payload, index: u32): (r: Outcome<Option<CommandResponse>>)
    ensures !(1 <= index <= 3) ==> r == Returns(None)
    ensures r.Returns? && r.value.Some? ==> IntoResponse(r.value.value) == (p, index)
  {
    match index
    case 1 => Present(DeserializeCool(p), (c: CoolEvent) => SomeCommandDone(c))
    case 2 => Present(DeserializeCool(p), (c: CoolEvent) => DuplicateCommandDone(c))
    case 3 => Present(DeserializeNested(p), (n: NestedType) => OtherCommandDone(n))
    case _ => Returns(None)
  }

  /** Decoding an encoded response gives the same response back. */
  lemma ResponseRoundTrip(r: CommandResponse)
    ensures FromResponse(IntoResponse(r).0, IntoResponse(r).1) == Returns(Some(r))
  {
  }

  /** Response encoding is one-to-one. */
  lemma IntoResponseInjective(a: CommandResponse, b: CommandResponse)
    requires IntoResponse(a) == IntoResponse(b)
    ensures a == b
  {
    ResponseRoundTrip(a);
    ResponseRoundTrip(b);
  }

  // ---------------------------------------------------------------------------
  // Component update
  // ---------------------------------------------------------------------------

  /** CustomComponentUpdate: one optional value per field, one list per event. */
  datatype CustomComponentUpdate = CustomComponentUpdate(
    name: Option<Option<string>>,
    count: Option<i32>,
    targets: Option<seq<EntityId>>,
    targetNames: Option<map<EntityId, string>>,
    byteCollection: Option<seq<seq<u8>>>,
    id: Option<Option<u32>>,
    nested: Option<NestedType>,
    nestedEvent: seq<NestedType>,
    coolEvent: seq<CoolEvent>)

  /** A field value as stored in the schema update, tagged by its schema type. */
  datatype FieldValue =
    | NameValue(name: Option<string>)
    | CountValue(count: i32)
    | TargetsValue(targets: seq<EntityId>)
    | TargetNamesValue(targetNames: map<EntityId, string>)
    | ByteCollectionValue(bytes: seq<seq<u8>>)
    | IdValue(id: Option<u32>)
    | NestedValue(nested: NestedType)

  /** An event list as stored in the schema update. */
  datatype EventBuffer = NestedEvents(nestedEvents: seq<NestedType>) | CoolEvents(coolEvents: seq<CoolEvent>)

  /** The field numbered `k` of an update (ids 0 to 6), when the update carries it. */
  function FieldOf(u: CustomComponentUpdate, k: u32): Option<FieldValue>
  {
    match k
    case 0 => if u.name.Some? then Some(NameValue(u.name.value)) else None
    case 1 => if u.count.Some? then Some(CountValue(u.count.value)) else None
    case 2 => if u.targets.Some? then Some(TargetsValue(u.targets.value)) else None
    case 3 => if u.targetNames.Some? then Some(TargetNamesValue(u.targetNames.value)) else None
    case 4 => if u.byteCollection.Some? then Some(ByteCollectionValue(u.byteCollection.value)) else None
    case 5 => if u.id.Some? then Some(IdValue(u.id.value)) else None
    case 6 => if u.nested.Some? then Some(NestedValue(u.nested.value)) else None
    case _ => None
  }

  /** The (id, value) pairs of the fields numbered k and above that the update carries, by id. */
  function FieldsFrom(u: CustomComponentUpdate, k: u32): seq<(u32, FieldValue)>
    requires k <= 7
    decreases 7 - k
  {
    if k == 7 then [] else Slot(u, k) + FieldsFrom(u, k + 1)
  }

  /** The pair field k contributes: one pair when the update carries the field, none otherwise. */
  function Slot(u: CustomComponentUpdate, k: u32): seq<(u32, FieldValue)>
  {
    Pair(k, FieldOf(u, k))
  }

  /** The pair written for a field id: one when the value is present, none otherwise. */
  function Pair(k: u32, f: Option<FieldValue>): (r: seq<(u32, FieldValue)>)
    ensures |r| <= 1
    ensures r == [] <==> f.None?
    ensures f.Some? ==> r == [(k, f.value)]
  {
    if f.Some? then [(k, f.value)] else []
  }

  /** The fields an update writes, in the order into_update adds them. */
  function WrittenFields(u: CustomComponentUpdate): seq<(u32, FieldValue)>
  {
    FieldsFrom(u, 0)
  }

  /** The event lists an update writes: only the non-empty ones, event 1 before event 2. */
  function WrittenEvents(u: CustomComponentUpdate): (r: seq<(u32, EventBuffer)>)
    ensures |r| <= 2
  {
    (if |u.nestedEvent| > 0 then [(1 as u32, NestedEvents(u.nestedEvent))] else []) +
    (if |u.coolEvent| > 0 then [(2 as u32, CoolEvents(u.coolEvent))] else [])
  }

  /** Every id written from k on is at least k, and the ids strictly increase. */
  lemma {:induction false} FieldsFromIncreasing(u: CustomComponentUpdate, k: u32)
    requires k <= 7
    ensures forall i :: 0 <= i < |FieldsFrom(u, k)| ==> k <= FieldsFrom(u, k)[i].0 <= 6
    ensures forall i, j :: 0 <= i < j < |FieldsFrom(u, k)| ==> FieldsFrom(u, k)[i].0 < FieldsFrom(u, k)[j].0
    decreases 7 - k
  {
    if k < 7 {
      FieldsFromIncreasing(u, k + 1);
      var head, tail := Slot(u, k), FieldsFrom(u, k + 1);
      assert FieldsFrom(u, k) == head + tail;
      assert |head| <= 1 && forall i :: 0 <= i < |head| ==> head[i].0 == k;
    }
  }

  /** A pair (j, v) is written from k on exactly when j >= k and field j is present with value v. */
  lemma {:induction false} FieldsFromExact(u: CustomComponentUpdate, k: u32, j: u32, v: FieldValue)
    requires k <= 7
    ensures (j, v) in FieldsFrom(u, k) <==> k <= j && FieldOf(u, j) == Some(v)
    decreases 7 - k
  {
    if k < 7 {
      FieldsFromExact(u, k + 1, j, v);
    }
  }

  /**
   * into_update writes field k with value v exactly when the update carries
   * field k with that value; fields are written by increasing id.
   */
  lemma WrittenFieldsExact(u: CustomComponentUpdate, k: u32, v: FieldValue)
    ensures (k, v) in WrittenFields(u) <==> FieldOf(u, k) == Some(v)
    ensures forall i, j :: 0 <= i < j < |WrittenFields(u)| ==> WrittenFields(u)[i].0 < WrittenFields(u)[j].0
  {
    FieldsFromExact(u, 0, k, v);
    FieldsFromIncreasing(u, 0);
  }

  /** An event list is written exactly when it is non-empty. */
  lemma WrittenEventsExact(u: CustomComponentUpdate)
    ensures (1, NestedEvents(u.nestedEvent)) in WrittenEvents(u) <==> |u.nestedEvent| > 0
    ensures (2, CoolEvents(u.coolEvent)) in WrittenEvents(u) <==> |u.coolEvent| > 0
    ensures forall i :: 0 <= i < |WrittenEvents(u)| ==> WrittenEvents(u)[i].0 in {1, 2}
  {
  }

  /**
   * One step of into_update: once field k's pair (if any) is appended, what
   * has been written followed by the pairs still to come is unchanged.
   */
  lemma FieldStep(whole: seq<(u32, FieldValue)>, prev: seq<(u32, FieldValue)>, now: seq<(u32, FieldValue)>,
                  u: CustomComponentUpdate, k: u32)
    requires k < 7
    requires prev + FieldsFrom(u, k) == whole
    requires now == prev + Slot(u, k)
    ensures now + FieldsFrom(u, k + 1) == whole
  {
    var slot, rest := Slot(u, k), FieldsFrom(u, k + 1);
    assert FieldsFrom(u, k) == slot + rest;
    AppendAssoc(prev, slot, rest);
  }

  lemma AppendAssoc<T>(a: seq<T>, b: seq<T>, c: seq<T>)
    ensures a + (b + c) == (a + b) + c
  {
  }

  /** The schema component update object that into_update writes into. */
  class SchemaComponentUpdate {
    var fields: seq<(u32, FieldValue)>
    var events: seq<(u32, EventBuffer)>

    /** A fresh update holds nothing. */
    constructor()
      ensures fields == [] && events == []
    {
      fields := [];
      events := [];
    }

    /** add_field: appends one field value. */
    method AddField(k: u32, v: FieldValue)
      modifies this
      ensures fields == old(fields) + [(k, v)]
      ensures events == old(events)
    {
      fields := fields + [(k, v)];
    }

    /** add_event: appends one event list. */
    method AddEvent(k: u32, e: EventBuffer)
      modifies this
      ensures events == old(events) + [(k, e)]
      ensures fields == old(fields)
    {
      events := events + [(k, e)];
    }
  }

  /** One `if let Some(..) = .. { update.add_field(k, ..) }` of into_update. */
  method WriteField(update: SchemaComponentUpdate, k: u32, f: Option<FieldValue>)
    modifies update
    ensures update.fields == old(update.fields) + Pair(k, f)
    ensures update.events == old(update.events)
  {
    if f.Some? {
      update.AddField(k, f.value);
    }
  }

  /**
   * into_update: adds each present field in id order, then each non-empty
   * event list. The update object ends up holding exactly the written pairs
   * after whatever it held before.
   */
  method IntoUpdate(u: CustomComponentUpdate, update: SchemaComponentUpdate)
    modifies update
    ensures update.fields == old(update.fields) + WrittenFields(u)
    ensures update.events == old(update.events) + WrittenEvents(u)
  {
    ghost var whole := update.fields + WrittenFields(u);
    ghost var prev := update.fields;
    WriteField(update, 0, FieldOf(u, 0));
    FieldStep(whole, prev, update.fields, u, 0);
    prev := update.fields;
    WriteField(update, 1, FieldOf(u, 1));
    FieldStep(whole, prev, update.fields, u, 1);
    prev := update.fields;
    WriteField(update, 2, FieldOf(u, 2));
    FieldStep(whole, prev, update.fields, u, 2);
    prev := update.fields;
    WriteField(update, 3, FieldOf(u, 3));
    FieldStep(whole, prev, update.fields, u, 3);
    prev := update.fields;
    WriteField(update, 4, FieldOf(u, 4));
    FieldStep(whole, prev, update.fields, u, 4);
    prev := update.fields;
    WriteField(update, 5, FieldOf(u, 5));
    FieldStep(whole, prev, update.fields, u, 5);
    prev := update.fields;
    WriteField(update, 6, FieldOf(u, 6));
    FieldStep(whole, prev, update.fields, u, 6);
    WriteEvents(u, update);
  }

  /** The two `if !events.is_empty() { update.add_event(..) }` of into_update. */
  method WriteEvents(u: CustomComponentUpdate, update: SchemaComponentUpdate)
    modifies update
    ensures update.events == old(update.events) + WrittenEvents(u)
    ensures update.fields == old(update.fields)
  {
    if |u.nestedEvent| > 0 {
      update.AddEvent(1, NestedEvents(u.nestedEvent));
    }
    if |u.coolEvent| > 0 {
      update.AddEvent(2, CoolEvents(u.coolEvent));
    }
  }

  // ---------------------------------------------------------------------------
  // Reading an update back (from_update)
  // ---------------------------------------------------------------------------

  /** The value stored under field id k, if any: the first pair with that id. */
  function ReadField(fs: seq<(u32, FieldValue)>, k: u32): (r: Option<FieldValue>)
    ensures r.Some? ==> (k, r.value) in fs
    ensures r.None? ==> forall i :: 0 <= i < |fs| ==> fs[i].0 != k
  {
    if |fs| == 0 then None
    else if fs[0].0 == k then Some(fs[0].1)
    else ReadField(fs[1..], k)
  }

  /** The events stored under event id k; a missing event reads as an empty list. */
  function ReadEvents(es: seq<(u32, EventBuffer)>, k: u32): (r: Option<EventBuffer>)
    ensures r.Some? ==> (k, r.value) in es
  {
    if |es| == 0 then None
    else if es[0].0 == k then Some(es[0].1)
    else ReadEvents(es[1..], k)
  }

  /** The field id a value of each schema type is stored under. */
  function FieldId(v: FieldValue): (r: u32)
    ensures r < 7
  {
    match v
    case NameValue(_) => 0
    case CountValue(_) => 1
    case TargetsValue(_) => 2
    case TargetNamesValue(_) => 3
    case ByteCollectionValue(_) => 4
    case IdValue(_) => 5
    case NestedValue(_) => 6
  }

  /** A value read under id k, kept only when it has the type field k has. */
  function Typed(k: u32, f: Option<FieldValue>): Option<FieldValue>
  {
    if f.Some? && FieldId(f.value) == k then f else None
  }

  /*
   * The typed reads of `update.field::<T>(k)`: the value stored under a field
   * id, kept only when it has the type T that field has.
   */

  function AsName(f: Option<FieldValue>): (r: Option<Option<string>>)
    ensures (if r.Some? then Some(NameValue(r.value)) else None) == Typed(0, f)
  {
    if f.Some? && f.value.NameValue? then Some(f.value.name) else None
  }

  function AsCount(f: Option<FieldValue>): (r: Option<i32>)
    ensures (if r.Some? then Some(CountValue(r.value)) else None) == Typed(1, f)
  {
    if f.Some? && f.value.CountValue? then Some(f.value.count) else None
  }

  function AsTargets(f: Option<FieldValue>): (r: Option<seq<EntityId>>)
    ensures (if r.Some? then Some(TargetsValue(r.value)) else None) == Typed(2, f)
  {
    if f.Some? && f.value.TargetsValue? then Some(f.value.targets) else None
  }

  function AsTargetNames(f: Option<FieldValue>): (r: Option<map<EntityId, string>>)
    ensures (if r.Some? then Some(TargetNamesValue(r.value)) else None) == Typed(3, f)
  {
    if f.Some? && f.value.TargetNamesValue? then Some(f.value.targetNames) else None
  }

  function AsByteCollection(f: Option<FieldValue>): (r: Option<seq<seq<u8>>>)
    ensures (if r.Some? then Some(ByteCollectionValue(r.value)) else None) == Typed(4, f)
  {
    if f.Some? && f.value.ByteCollectionValue? then Some(f.value.bytes) else None
  }

  function AsId(f: Option<FieldValue>): (r: Option<Option<u32>>)
    ensures (if r.Some? then Some(IdValue(r.value)) else None) == Typed(5, f)
  {
    if f.Some? && f.value.IdValue? then Some(f.value.id) else None
  }

  function AsNested(f: Option<FieldValue>): (r: Option<NestedType>)
    ensures (if r.Some? then Some(NestedValue(r.value)) else None) == Typed(6, f)
  {
    if f.Some? && f.value.NestedValue? then Some(f.value.nested) else None
  }

  /** `update.event::<NestedType>(1)`: the nested events stored, or none. */
  function AsNestedEvents(b: Option<EventBuffer>): (r: seq<NestedType>)
    ensures b.Some? && b.value.NestedEvents? ==> r == b.value.nestedEvents
    ensures !(b.Some? && b.value.NestedEvents?) ==> r == []
  {
    if b.Some? && b.value.NestedEvents? then b.value.nestedEvents else []
  }

  /** `update.event::<CoolEvent>(2)`: the cool events stored, or none. */
  function AsCoolEvents(b: Option<EventBuffer>): (r: seq<CoolEvent>)
    ensures b.Some? && b.value.CoolEvents? ==> r == b.value.coolEvents
    ensures !(b.Some? && b.value.CoolEvents?) ==> r == []
  {
    if b.Some? && b.value.CoolEvents? then b.value.coolEvents else []
  }

  /**
   * from_update: each field is read back by id, each event list by event id.
   * A field holds what is stored under its id when that has the field's type,
   * and is absent otherwise; a missing event list reads as empty.
   */
  function FromUpdate(fs: seq<(u32, FieldValue)>, es: seq<(u32, EventBuffer)>): (r: CustomComponentUpdate)
    ensures forall k: u32 :: k < 7 ==> FieldOf(r, k) == Typed(k, ReadField(fs, k))
    ensures ReadEvents(es, 1).Some? && ReadEvents(es, 1).value.NestedEvents? ==>
              r.nestedEvent == ReadEvents(es, 1).value.nestedEvents
    ensures !(ReadEvents(es, 1).Some? && ReadEvents(es, 1).value.NestedEvents?) ==> r.nestedEvent == []
    ensures ReadEvents(es, 2).Some? && ReadEvents(es, 2).value.CoolEvents? ==>
              r.coolEvent == ReadEvents(es, 2).value.coolEvents
    ensures !(ReadEvents(es, 2).Some? && ReadEvents(es, 2).value.CoolEvents?) ==> r.coolEvent == []
  {
    var r := CustomComponentUpdate(
      name := AsName(ReadField(fs, 0)),
      count := AsCount(ReadField(fs, 1)),
      targets := AsTargets(ReadField(fs, 2)),
      targetNames := AsTargetNames(ReadField(fs, 3)),
      byteCollection := AsByteCollection(ReadField(fs, 4)),
      id := AsId(ReadField(fs, 5)),
      nested := AsNested(ReadField(fs, 6)),
      nestedEvent := AsNestedEvents(ReadEvents(es, 1)),
      coolEvent := AsCoolEvents(ReadEvents(es, 2)));
    TypedFields(r, fs);
    r
  }

  /** Field by field agreement with what is stored gives agreement for every field id. */
  lemma TypedFields(u: CustomComponentUpdate, fs: seq<(u32, FieldValue)>)
    requires FieldOf(u, 0) == Typed(0, ReadField(fs, 0)) && FieldOf(u, 1) == Typed(1, ReadField(fs, 1))
    requires FieldOf(u, 2) == Typed(2, ReadField(fs, 2)) && FieldOf(u, 3) == Typed(3, ReadField(fs, 3))
    requires FieldOf(u, 4) == Typed(4, ReadField(fs, 4)) && FieldOf(u, 5) == Typed(5, ReadField(fs, 5))
    requires FieldOf(u, 6) == Typed(6, ReadField(fs, 6))
    ensures forall k: u32 :: k < 7 ==> FieldOf(u, k) == Typed(k, ReadField(fs, k))
  {
    forall k: u32 | k < 7
      ensures FieldOf(u, k) == Typed(k, ReadField(fs, k))
    {
      assert k == 0 || k == 1 || k == 2 || k == 3 || k == 4 || k == 5 || k == 6;
    }
  }

  /** In a list with distinct ids, reading an id finds the one pair holding it. */
  lemma {:induction false} ReadFieldDistinct(fs: seq<(u32, FieldValue)>, k: u32, v: FieldValue)
    requires forall i, j :: 0 <= i < j < |fs| ==> fs[i].0 < fs[j].0
    requires (k, v) in fs
    ensures ReadField(fs, k) == Some(v)
  {
    if fs[0] != (k, v) {
      assert (k, v) in fs[1..];
      var i :| 0 <= i < |fs[1..]| && fs[1..][i] == (k, v);
      assert fs[0].0 < fs[i + 1].0;
      ReadFieldDistinct(fs[1..], k, v);
    }
  }

  /** Reading field k of the written fields gives back field k of the update. */
  lemma ReadWrittenField(u: CustomComponentUpdate, k: u32)
    ensures ReadField(WrittenFields(u), k) == FieldOf(u, k)
  {
    WrittenFieldsExact(u, k, NameValue(None));
    match FieldOf(u, k)
    case Some(v) =>
      WrittenFieldsExact(u, k, v);
      ReadFieldDistinct(WrittenFields(u), k, v);
    case None =>
      var r := ReadField(WrittenFields(u), k);
      if r.Some? {
        WrittenFieldsExact(u, k, r.value);
      }
  }

  /** Reading back what into_update wrote gives the same update: nothing is lost. */
  lemma UpdateRoundTrip(u: CustomComponentUpdate)
    ensures FromUpdate(WrittenFields(u), WrittenEvents(u)) == u
  {
    ReadBackLowFields(u);
    ReadBackHighFields(u);
    ReadWrittenEvents(u);
  }

  /** Fields 0 to 3 survive writing and reading back. */
  lemma ReadBackLowFields(u: CustomComponentUpdate)
    ensures var back := FromUpdate(WrittenFields(u), WrittenEvents(u));
            back.name == u.name && back.count == u.count &&
            back.targets == u.targets && back.targetNames == u.targetNames
  {
    ReadWrittenField(u, 0);
    ReadWrittenField(u, 1);
    ReadWrittenField(u, 2);
    ReadWrittenField(u, 3);
  }

  /** Fields 4 to 6 survive writing and reading back. */
  lemma ReadBackHighFields(u: CustomComponentUpdate)
    ensures var back := FromUpdate(WrittenFields(u), WrittenEvents(u));
            back.byteCollection == u.byteCollection && back.id == u.id && back.nested == u.nested
  {
    ReadWrittenField(u, 4);
    ReadWrittenField(u, 5);
    ReadWrittenField(u, 6);
  }

  /** Reading the written events back: a list is found exactly when it was non-empty. */
  lemma ReadWrittenEvents(u: CustomComponentUpdate)
    ensures ReadEvents(WrittenEvents(u), 1) == if |u.nestedEvent| > 0 then Some(NestedEvents(u.nestedEvent)) else None
    ensures ReadEvents(WrittenEvents(u), 2) == if |u.coolEvent| > 0 then Some(CoolEvents(u.coolEvent)) else None
  {
    var es := WrittenEvents(u);
    if |u.nestedEvent| > 0 {
      assert es[0] == (1, NestedEvents(u.nestedEvent));
    }
    if |u.coolEvent| > 0 {
      assert es[|es| - 1] == (2, CoolEvents(u.coolEvent));
      if |u.nestedEvent| > 0 {
        assert es[1..] == [(2, CoolEvents(u.coolEvent))];
      }
    }
  }
}
