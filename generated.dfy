/**
 * A representative part of the code the generator emits for the example
 * project (project-example/src/generated.rs): enum conversions, the
 * last-writer-wins merges of component data and updates, command-index
 * dispatch and the component IDs.
 *
 * Field values the model only copies (floats, the decoded command payloads)
 * are opaque; serialization through the schema C API is not modelled, so a
 * command's payload is given already decoded.
 */
module Generated {
  import opened Wrappers
  import opened Scalars

  // ---------------------------------------------------------------------------
  // Enums: `From<u32>` and `as_u32`
  // ---------------------------------------------------------------------------

  /** example.TestEnum. */
  datatype TestEnum = First | Second

  /** `From<u32> for TestEnum`: 0 and 1 are the variants, anything else panics. */
  function TestEnumFrom(value: u32): (r: Outcome<TestEnum>)
    ensures r.Returns? <==> value < 2
  {
    match value
    case 0 => Returns(First)
    case 1 => Returns(Second)
    case _ => Panics("Could not convert " + DecimalString(value as int) + " to enum TestEnum.")
  }

  /** `TestEnum::as_u32`. */
  function TestEnumAsU32(e: TestEnum): (r: u32)
    ensures r < 2
  {
    match e
    case First => 0
    case Second => 1
  }

  /** Encoding then decoding gives the variant back. */
  lemma TestEnumRoundTrip(e: TestEnum)
    ensures TestEnumFrom(TestEnumAsU32(e)) == Returns(e)
  {
  }

  /** Decoding a declared number then encoding gives the number back; any other number panics. */
  lemma TestEnumDecodeEncode(value: u32)
    ensures value < 2 ==> TestEnumAsU32(TestEnumFrom(value).value) == value
    ensures value >= 2 ==> TestEnumFrom(value).Panics?
  {
  }

  /** improbable.restricted.Connection_ConnectionStatus. */
  datatype ConnectionStatus = Unknown | AwaitingWorkerConnection | Connected | Disconnected

  /** `From<u32> for Connection_ConnectionStatus`: 0 to 3 are the variants, anything else panics. */
  function ConnectionStatusFrom(value: u32): (r: Outcome<ConnectionStatus>)
    ensures r.Returns? <==> value < 4
  {
    match value
    case 0 => Returns(Unknown)
    case 1 => Returns(AwaitingWorkerConnection)
    case 2 => Returns(Connected)
    case 3 => Returns(Disconnected)
    case _ => Panics("Could not convert " + DecimalString(value as int) + " to enum Connection_ConnectionStatus.")
  }

  /** `Connection_ConnectionStatus::as_u32`. */
  function ConnectionStatusAsU32(s: ConnectionStatus): (r: u32)
    ensures r < 4
  {
    match s
    case Unknown => 0
    case AwaitingWorkerConnection => 1
    case Connected => 2
    case Disconnected => 3
  }

  lemma ConnectionStatusRoundTrip(s: ConnectionStatus)
    ensures ConnectionStatusFrom(ConnectionStatusAsU32(s)) == Returns(s)
  {
  }

  lemma ConnectionStatusDecodeEncode(value: u32)
    ensures value < 4 ==> ConnectionStatusAsU32(ConnectionStatusFrom(value).value) == value
    ensures value >= 4 ==> ConnectionStatusFrom(value).Panics?
  {
  }

  // ---------------------------------------------------------------------------
  // One field of a merge
  // ---------------------------------------------------------------------------

  /** `if let Some(value) = update.f { self.f = value; }` on a data field. */
  function Overwrite<T>(current: T, update: Option<T>): T
  {
    if update.Some? then update.value else current
  }

  /** `if update.f.is_some() { self.f = update.f; }` on an update field. */
  function Latest<T>(earlier: Option<T>, later: Option<T>): (r: Option<T>)
    ensures r.Some? <==> earlier.Some? || later.Some?
  {
    if later.Some? then later else earlier
  }

  /** Applying two field updates one after the other is applying their merge once. */
  lemma OverwriteLatest<T>(current: T, first: Option<T>, second: Option<T>)
    ensures Overwrite(Overwrite(current, first), second) == Overwrite(current, Latest(first, second))
  {
  }

  // ---------------------------------------------------------------------------
  // example.Rotate
  // ---------------------------------------------------------------------------

  datatype Vector3d = Vector3d(x: F64, y: F64, z: F64)

  /** The fields of a Rotate component. */
  datatype RotateFields = RotateFields(angle: F64, center: Vector3d, radius: F64)

  /** The fields of a RotateUpdate: a field is written exactly when it is present. */
  datatype RotateUpdateFields = RotateUpdateFields(angle: Option<F64>, center: Option<Vector3d>, radius: Option<F64>)

  /** `RotateUpdate::default()`. */
  const RotateNoChange := RotateUpdateFields(None, None, None)

  /** What `ComponentData::merge` makes of the data. */
  function ApplyRotate(d: RotateFields, u: RotateUpdateFields): RotateFields
  {
    RotateFields(Overwrite(d.angle, u.angle), Overwrite(d.center, u.center), Overwrite(d.radius, u.radius))
  }

  /** What `ComponentUpdate::merge` makes of the earlier update. */
  function ComposeRotate(earlier: RotateUpdateFields, later: RotateUpdateFields): RotateUpdateFields
  {
    RotateUpdateFields(Latest(earlier.angle, later.angle), Latest(earlier.center, later.center),
                       Latest(earlier.radius, later.radius))
  }

  /** A field changes exactly when the update carries it, and then takes the carried value. */
  lemma ApplyRotateWrites(d: RotateFields, u: RotateUpdateFields)
    ensures var r := ApplyRotate(d, u);
            (u.angle.Some? ==> r.angle == u.angle.value) && (u.angle.None? ==> r.angle == d.angle) &&
            (u.center.Some? ==> r.center == u.center.value) && (u.center.None? ==> r.center == d.center) &&
            (u.radius.Some? ==> r.radius == u.radius.value) && (u.radius.None? ==> r.radius == d.radius)
  {
  }

  /** Merging the default update changes nothing. */
  lemma ApplyRotateNoChange(d: RotateFields)
    ensures ApplyRotate(d, RotateNoChange) == d
  {
  }

  /** Last writer wins: applying u1 then u2 is applying u1 merged with u2. */
  lemma ApplyRotateCompose(d: RotateFields, u1: RotateUpdateFields, u2: RotateUpdateFields)
    ensures ApplyRotate(ApplyRotate(d, u1), u2) == ApplyRotate(d, ComposeRotate(u1, u2))
  {
    OverwriteLatest(d.angle, u1.angle, u2.angle);
    OverwriteLatest(d.center, u1.center, u2.center);
    OverwriteLatest(d.radius, u1.radius, u2.radius);
  }

  /** Applying the same update twice is applying it once. */
  lemma ApplyRotateIdempotent(d: RotateFields, u: RotateUpdateFields)
    ensures ApplyRotate(ApplyRotate(d, u), u) == ApplyRotate(d, u)
  {
  }

  /** example::Rotate, whose `merge` overwrites its fields in place. */
  class Rotate {
    var angle: F64
    var center: Vector3d
    var radius: F64

    function Fields(): RotateFields
      reads this
    {
      RotateFields(angle, center, radius)
    }

    constructor (fields: RotateFields)
      ensures Fields() == fields
    {
      angle, center, radius := fields.angle, fields.center, fields.radius;
    }

    /** `ComponentData<Rotate>::merge`. */
    method Merge(update: RotateUpdateFields)
      modifies this
      ensures Fields() == ApplyRotate(old(Fields()), update)
    {
      if update.angle.Some? { angle := update.angle.value; }
      if update.center.Some? { center := update.center.value; }
      if update.radius.Some? { radius := update.radius.value; }
    }
  }

  /** example::RotateUpdate, whose `merge` overwrites its present fields in place. */
  class RotateUpdate {
    var angle: Option<F64>
    var center: Option<Vector3d>
    var radius: Option<F64>

    function Fields(): RotateUpdateFields
      reads this
    {
      RotateUpdateFields(angle, center, radius)
    }

    /** `RotateUpdate::default()`. */
    constructor ()
      ensures Fields() == RotateNoChange
    {
      angle, center, radius := None, None, None;
    }

    /** `ComponentUpdate<Rotate>::merge`. */
    method Merge(update: RotateUpdateFields)
      modifies this
      ensures Fields() == ComposeRotate(old(Fields()), update)
    {
      if update.angle.Some? { angle := update.angle; }
      if update.center.Some? { center := update.center; }
      if update.radius.Some? { radius := update.radius; }
    }
  }

  // ---------------------------------------------------------------------------
  // improbable.restricted.Worker
  // ---------------------------------------------------------------------------

  datatype Connection = Connection(status: ConnectionStatus, dataLatencyMs: u32, connectedSinceUtc: u64)

  datatype WorkerFields = WorkerFields(workerId: string, workerType: string, connection: Connection)

  datatype WorkerUpdateFields =
    WorkerUpdateFields(workerId: Option<string>, workerType: Option<string>, connection: Option<Connection>)

  const WorkerNoChange := WorkerUpdateFields(None, None, None)

  function ApplyWorker(d: WorkerFields, u: WorkerUpdateFields): WorkerFields
  {
    WorkerFields(Overwrite(d.workerId, u.workerId), Overwrite(d.workerType, u.workerType),
                 Overwrite(d.connection, u.connection))
  }

  function ComposeWorker(earlier: WorkerUpdateFields, later: WorkerUpdateFields): WorkerUpdateFields
  {
    WorkerUpdateFields(Latest(earlier.workerId, later.workerId), Latest(earlier.workerType, later.workerType),
                       Latest(earlier.connection, later.connection))
  }

  lemma ApplyWorkerNoChange(d: WorkerFields)
    ensures ApplyWorker(d, WorkerNoChange) == d
  {
  }

  lemma ApplyWorkerCompose(d: WorkerFields, u1: WorkerUpdateFields, u2: WorkerUpdateFields)
    ensures ApplyWorker(ApplyWorker(d, u1), u2) == ApplyWorker(d, ComposeWorker(u1, u2))
  {
    OverwriteLatest(d.workerId, u1.workerId, u2.workerId);
    OverwriteLatest(d.workerType, u1.workerType, u2.workerType);
    OverwriteLatest(d.connection, u1.connection, u2.connection);
  }

  /** An update carrying every field replaces the data whatever it was. */
  lemma ApplyWorkerFull(d1: WorkerFields, d2: WorkerFields, u: WorkerUpdateFields)
    requires u.workerId.Some? && u.workerType.Some? && u.connection.Some?
    ensures ApplyWorker(d1, u) == ApplyWorker(d2, u)
  {
  }

  class Worker {
    var workerId: string
    var workerType: string
    var connection: Connection

    function Fields(): WorkerFields
      reads this
    {
      WorkerFields(workerId, workerType, connection)
    }

    constructor (fields: WorkerFields)
      ensures Fields() == fields
    {
      workerId, workerType, connection := fields.workerId, fields.workerType, fields.connection;
    }

    /** `ComponentData<Worker>::merge`. */
    method Merge(update: WorkerUpdateFields)
      modifies this
      ensures Fields() == ApplyWorker(old(Fields()), update)
    {
      if update.workerId.Some? { workerId := update.workerId.value; }
      if update.workerType.Some? { workerType := update.workerType.value; }
      if update.connection.Some? { connection := update.connection.value; }
    }
  }

  class WorkerUpdate {
    var workerId: Option<string>
    var workerType: Option<string>
    var connection: Option<Connection>

    function Fields(): WorkerUpdateFields
      reads this
    {
      WorkerUpdateFields(workerId, workerType, connection)
    }

    constructor ()
      ensures Fields() == WorkerNoChange
    {
      workerId, workerType, connection := None, None, None;
    }

    /** `ComponentUpdate<Worker>::merge`. */
    method Merge(update: WorkerUpdateFields)
      modifies this
      ensures Fields() == ComposeWorker(old(Fields()), update)
    {
      if update.workerId.Some? { workerId := update.workerId; }
      if update.workerType.Some? { workerType := update.workerType; }
      if update.connection.Some? { connection := update.connection; }
    }
  }

  // ---------------------------------------------------------------------------
  // improbable.EntityAcl
  // ---------------------------------------------------------------------------

  datatype WorkerAttributeSet = WorkerAttributeSet(attribute: seq<string>)

  datatype WorkerRequirementSet = WorkerRequirementSet(attributeSet: seq<WorkerAttributeSet>)

  datatype EntityAclFields =
    EntityAclFields(readAcl: WorkerRequirementSet, componentWriteAcl: map<u32, WorkerRequirementSet>)

  datatype EntityAclUpdateFields =
    EntityAclUpdateFields(readAcl: Option<WorkerRequirementSet>, componentWriteAcl: Option<map<u32, WorkerRequirementSet>>)

  const EntityAclNoChange := EntityAclUpdateFields(None, None)

  /** The write-ACL map is replaced as a whole, never merged key by key. */
  function ApplyEntityAcl(d: EntityAclFields, u: EntityAclUpdateFields): EntityAclFields
  {
    EntityAclFields(Overwrite(d.readAcl, u.readAcl), Overwrite(d.componentWriteAcl, u.componentWriteAcl))
  }

  function ComposeEntityAcl(earlier: EntityAclUpdateFields, later: EntityAclUpdateFields): EntityAclUpdateFields
  {
    EntityAclUpdateFields(Latest(earlier.readAcl, later.readAcl),
                          Latest(earlier.componentWriteAcl, later.componentWriteAcl))
  }

  lemma ApplyEntityAclNoChange(d: EntityAclFields)
    ensures ApplyEntityAcl(d, EntityAclNoChange) == d
  {
  }

  lemma ApplyEntityAclCompose(d: EntityAclFields, u1: EntityAclUpdateFields, u2: EntityAclUpdateFields)
    ensures ApplyEntityAcl(ApplyEntityAcl(d, u1), u2) == ApplyEntityAcl(d, ComposeEntityAcl(u1, u2))
  {
    OverwriteLatest(d.readAcl, u1.readAcl, u2.readAcl);
    OverwriteLatest(d.componentWriteAcl, u1.componentWriteAcl, u2.componentWriteAcl);
  }

  /** A write-ACL update drops every key the new map does not have. */
  lemma ApplyEntityAclReplacesMap(d: EntityAclFields, u: EntityAclUpdateFields, id: u32)
    requires u.componentWriteAcl.Some? && id !in u.componentWriteAcl.value
    ensures id !in ApplyEntityAcl(d, u).componentWriteAcl
  {
  }

  class EntityAcl {
    var readAcl: WorkerRequirementSet
    var componentWriteAcl: map<u32, WorkerRequirementSet>

    function Fields(): EntityAclFields
      reads this
    {
      EntityAclFields(readAcl, componentWriteAcl)
    }

    constructor (fields: EntityAclFields)
      ensures Fields() == fields
    {
      readAcl, componentWriteAcl := fields.readAcl, fields.componentWriteAcl;
    }

    /** `ComponentData<EntityAcl>::merge`. */
    method Merge(update: EntityAclUpdateFields)
      modifies this
      ensures Fields() == ApplyEntityAcl(old(Fields()), update)
    {
      if update.readAcl.Some? { readAcl := update.readAcl.value; }
      if update.componentWriteAcl.Some? { componentWriteAcl := update.componentWriteAcl.value; }
    }
  }

  class EntityAclUpdate {
    var readAcl: Option<WorkerRequirementSet>
    var componentWriteAcl: Option<map<u32, WorkerRequirementSet>>

    function Fields(): EntityAclUpdateFields
      reads this
    {
      EntityAclUpdateFields(readAcl, componentWriteAcl)
    }

    constructor ()
      ensures Fields() == EntityAclNoChange
    {
      readAcl, componentWriteAcl := None, None;
    }

    /** `ComponentUpdate<EntityAcl>::merge`. */
    method Merge(update: EntityAclUpdateFields)
      modifies this
      ensures Fields() == ComposeEntityAcl(old(Fields()), update)
    {
      if update.readAcl.Some? { readAcl := update.readAcl; }
      if update.componentWriteAcl.Some? { componentWriteAcl := update.componentWriteAcl; }
    }
  }

  // ---------------------------------------------------------------------------
  // improbable.Persistence: no fields
  // ---------------------------------------------------------------------------

  /** Persistence and PersistenceUpdate have no fields. */
  datatype PersistenceFields = PersistenceFields
  datatype PersistenceUpdateFields = PersistenceUpdateFields

  /** `ComponentData<Persistence>::merge` has an empty body. */
  function ApplyPersistence(d: PersistenceFields, u: PersistenceUpdateFields): (r: PersistenceFields)
  {
    d
  }

  /** Every merge of the field-less component is a no-op. */
  lemma ApplyPersistenceNoOp(d: PersistenceFields, u: PersistenceUpdateFields)
    ensures ApplyPersistence(d, u) == d
  {
  }

  // ---------------------------------------------------------------------------
  // Commands
  // ---------------------------------------------------------------------------

  /** The message of the `Err` that every unknown command index produces. */
  function UnrecognisedRequest(component: string, index: u32): string
  {
    "Attempted to deserialize an unrecognised command request with index " + DecimalString(index as int) +
    " in component " + component + "."
  }

  function UnrecognisedResponse(component: string, index: u32): string
  {
    "Attempted to deserialize an unrecognised command response with index " + DecimalString(index as int) +
    " in component " + component + "."
  }

  /** example.CommandData. */
  datatype CommandData = CommandData(value: i32)

  datatype ExampleCommandRequest = TestCommandRequest(data: CommandData)
  datatype ExampleCommandResponse = TestCommandResponse(data: CommandData)

  /** `Example::from_request`: index 1 is TestCommand; `payload` is the request object already decoded. */
  function ExampleFromRequest(index: u32, payload: CommandData): (r: Result<ExampleCommandRequest, string>)
    ensures r.Ok? <==> index == 1
    ensures r.Ok? ==> r.value.data == payload
  {
    match index
    case 1 => Ok(TestCommandRequest(payload))
    case _ => Err(UnrecognisedRequest("Example", index))
  }

  /** `Example::get_request_command_index`: the index that deserializes back to this request. */
  function ExampleRequestIndex(r: ExampleCommandRequest): (index: u32)
    ensures ExampleFromRequest(index, r.data) == Ok(r)
  {
    match r
    case TestCommandRequest(_) => 1
  }

  function ExampleFromResponse(index: u32, payload: CommandData): (r: Result<ExampleCommandResponse, string>)
    ensures r.Ok? <==> index == 1
    ensures r.Ok? ==> r.value.data == payload
  {
    match index
    case 1 => Ok(TestCommandResponse(payload))
    case _ => Err(UnrecognisedResponse("Example", index))
  }

  function ExampleResponseIndex(r: ExampleCommandResponse): (index: u32)
    ensures ExampleFromResponse(index, r.data) == Ok(r)
  {
    match r
    case TestCommandResponse(_) => 1
  }

  /** Deserializing at the index a request reports gives the request back; no other index is accepted. */
  lemma ExampleRequestRoundTrip(r: ExampleCommandRequest, index: u32)
    ensures ExampleFromRequest(ExampleRequestIndex(r), r.data) == Ok(r)
    ensures index != ExampleRequestIndex(r) ==> ExampleFromRequest(index, r.data).Err?
  {
  }

  lemma ExampleResponseRoundTrip(r: ExampleCommandResponse, index: u32)
    ensures ExampleFromResponse(ExampleResponseIndex(r), r.data) == Ok(r)
    ensures index != ExampleResponseIndex(r) ==> ExampleFromResponse(index, r.data).Err?
  {
  }

  /** improbable.restricted.DisconnectRequest / DisconnectResponse have no fields. */
  datatype DisconnectRequest = DisconnectRequest
  datatype DisconnectResponse = DisconnectResponse

  datatype WorkerCommandRequest = Disconnect(request: DisconnectRequest)
  datatype WorkerCommandResponse = DisconnectDone(response: DisconnectResponse)

  /** `Worker::from_request`: index 1 is Disconnect. */
  function WorkerFromRequest(index: u32, payload: DisconnectRequest): (r: Result<WorkerCommandRequest, string>)
    ensures r.Ok? <==> index == 1
  {
    match index
    case 1 => Ok(Disconnect(payload))
    case _ => Err(UnrecognisedRequest("Worker", index))
  }

  function WorkerRequestIndex(r: WorkerCommandRequest): (index: u32)
    ensures WorkerFromRequest(index, r.request) == Ok(r)
  {
    match r
    case Disconnect(_) => 1
  }

  function WorkerFromResponse(index: u32, payload: DisconnectResponse): (r: Result<WorkerCommandResponse, string>)
    ensures r.Ok? <==> index == 1
  {
    match index
    case 1 => Ok(DisconnectDone(payload))
    case _ => Err(UnrecognisedResponse("Worker", index))
  }

  function WorkerResponseIndex(r: WorkerCommandResponse): (index: u32)
    ensures WorkerFromResponse(index, r.response) == Ok(r)
  {
    match r
    case DisconnectDone(_) => 1
  }

  lemma WorkerRequestRoundTrip(r: WorkerCommandRequest, index: u32)
    ensures WorkerFromRequest(WorkerRequestIndex(r), r.request) == Ok(r)
    ensures index != WorkerRequestIndex(r) ==> WorkerFromRequest(index, r.request).Err?
  {
  }

  lemma WorkerResponseRoundTrip(r: WorkerCommandResponse, index: u32)
    ensures WorkerFromResponse(WorkerResponseIndex(r), r.response) == Ok(r)
    ensures index != WorkerResponseIndex(r) ==> WorkerFromResponse(index, r.response).Err?
  {
  }

  /**
   * `from_request` of a component without commands (Rotate, EntityAcl and the
   * others): its request type has no variants, so every index is rejected.
   */
  function NoCommandFromRequest<Request>(component: string, index: u32): (r: Result<Request, string>)
    ensures r.Err?
  {
    Err(UnrecognisedRequest(component, index))
  }

  function NoCommandFromResponse<Response>(component: string, index: u32): (r: Result<Response, string>)
    ensures r.Err?
  {
    Err(UnrecognisedResponse(component, index))
  }

  // ---------------------------------------------------------------------------
  // Component IDs
  // ---------------------------------------------------------------------------

  /** The `const ID` of every component the example project generates. */
  const ComponentIds: seq<(string, u32)> := [
    ("EntityIdTest", 2001), ("EnumTestComponent", 2002), ("Example", 1000), ("Rotate", 1001),
    ("EntityAcl", 50), ("Interest", 58), ("Metadata", 53), ("Persistence", 55), ("Position", 54),
    ("PlayerClient", 61), ("System", 59), ("Worker", 60)]

  /** No two components share an ID, so the vtable registry can key on it. */
  lemma ComponentIdsDistinct(i: nat, j: nat)
    requires i < |ComponentIds| && j < |ComponentIds| && i != j
    ensures ComponentIds[i].1 != ComponentIds[j].1
  {
  }
}
