/**
 * Domain events: immutable records of something that happened, one class per
 * kind of event, and the registry that maps a stored type tag back to its
 * class when events are read back.
 *
 * An event is a datatype value, so no operation can change one after it is
 * built (the Python code declares its event models frozen). Construction follows
 * the event model's field declarations: every field but `event_type` (on the
 * base class) and `stream_id` has a default, keys that are not fields are
 * ignored, and a failure lists every failing field in declaration order.
 * Turning a JSON value into a UUID or a timestamp is the validation library's
 * job; the model receives those conversions as the `Coercions` parameter, and
 * the fresh id and the current time that the defaults draw on as parameters.
 */
module EventTypes {
  import opened Wrappers
  import opened Actions

  /** The event classes: the generic base and its fourteen subclasses. */
  datatype EventClass =
    | DomainEventClass
    | AgentRegistered | AgentVerified | AgentSuspended | AgentReputationChanged
    | SimulationCreated | SimulationStarted | SimulationCompleted | SimulationFailed
    | OutcomePredicted | OutcomeActualized
    | ProposalCreated | VoteCast | ProposalResolved
    | SimulationMetered

  /** The class's default `event_type`; the base class has none, so the field is required there. */
  function DefaultEventType(c: EventClass): Option<string> {
    match c
    case DomainEventClass => None
    case AgentRegistered => Some("AgentRegistered")
    case AgentVerified => Some("AgentVerified")
    case AgentSuspended => Some("AgentSuspended")
    case AgentReputationChanged => Some("AgentReputationChanged")
    case SimulationCreated => Some("SimulationCreated")
    case SimulationStarted => Some("SimulationStarted")
    case SimulationCompleted => Some("SimulationCompleted")
    case SimulationFailed => Some("SimulationFailed")
    case OutcomePredicted => Some("OutcomePredicted")
    case OutcomeActualized => Some("OutcomeActualized")
    case ProposalCreated => Some("ProposalCreated")
    case VoteCast => Some("VoteCast")
    case ProposalResolved => Some("ProposalResolved")
    case SimulationMetered => Some("SimulationMetered")
  }

  /** `EVENT_TYPES`: the type tag under which each subclass is stored. */
  const Registry: map<string, EventClass> := map[
    "AgentRegistered" := AgentRegistered,
    "AgentVerified" := AgentVerified,
    "AgentSuspended" := AgentSuspended,
    "AgentReputationChanged" := AgentReputationChanged,
    "SimulationCreated" := SimulationCreated,
    "SimulationStarted" := SimulationStarted,
    "SimulationCompleted" := SimulationCompleted,
    "SimulationFailed" := SimulationFailed,
    "OutcomePredicted" := OutcomePredicted,
    "OutcomeActualized" := OutcomeActualized,
    "ProposalCreated" := ProposalCreated,
    "VoteCast" := VoteCast,
    "ProposalResolved" := ProposalResolved,
    "SimulationMetered" := SimulationMetered
  ]

  datatype Uuid = Uuid(text: string)

  /** A built event. `occurredAt` is a timestamp in the model's time unit. */
  datatype DomainEvent = DomainEvent(
    eventClass: EventClass,
    eventId: Uuid,
    eventType: string,
    streamId: string,
    occurredAt: int,
    data: seq<(string, Json)>,
    metadata: seq<(string, Json)>)

  /** One entry of a validation failure: a required field that is absent, or a value of the wrong shape. */
  datatype FieldError = Missing(field: string) | Invalid(field: string)

  /** The validation library's conversions of a JSON value to a UUID and to a timestamp. */
  datatype Coercions = Coercions(uuid: Json -> Option<Uuid>, datetime: Json -> Option<int>)

  function StringValue(v: Json): Option<string> {
    if v.JString? then Some(v.s) else None
  }

  function ObjectValue(v: Json): Option<seq<(string, Json)>> {
    if v.JObject? then Some(v.entries) else None
  }

  /** The outcome of reading one field. */
  datatype Read<T> = Got(value: T) | Bad(error: FieldError)

  /** One field: its value if given and well-formed, else its default, else an error. */
  function ReadField<T>(fields: seq<(string, Json)>, name: string, parse: Json -> Option<T>, default: Option<T>): Read<T> {
    match Get(fields, name)
    case None => if default.Some? then Got(default.value) else Bad(Missing(name))
    case Some(v) => if parse(v).Some? then Got(parse(v).value) else Bad(Invalid(name))
  }

  /** A field is read successfully exactly when its value converts, or it is absent and has a default. */
  lemma ReadFieldGot<T>(fields: seq<(string, Json)>, name: string, parse: Json -> Option<T>, default: Option<T>)
    ensures ReadField(fields, name, parse, default).Got? <==>
      (Get(fields, name).Some? ==> parse(Get(fields, name).value).Some?) &&
      (Get(fields, name).None? ==> default.Some?)
  {
  }

  function ErrorOf<T>(r: Read<T>): seq<FieldError> {
    if r.Bad? then [r.error] else []
  }

  /** Field `name` converts to `value` when given, and `value` is its default when absent. */
  predicate FieldIs<T(==)>(fields: seq<(string, Json)>, name: string, parse: Json -> Option<T>, default: Option<T>, value: T) {
    match Get(fields, name)
    case Some(v) => parse(v) == Some(value)
    case None => default == Some(value)
  }

  lemma ReadFieldIs<T>(fields: seq<(string, Json)>, name: string, parse: Json -> Option<T>, default: Option<T>)
    requires ReadField(fields, name, parse, default).Got?
    ensures FieldIs(fields, name, parse, default, ReadField(fields, name, parse, default).value)
  {
  }

  /**
   * Event `e` is the one of class `cls` that `fields` describe: each given
   * field's value, converted, and each absent field's default.
   */
  predicate Carries(e: DomainEvent, cls: EventClass, fields: seq<(string, Json)>, freshId: Uuid, now: int, co: Coercions) {
    && e.eventClass == cls
    && FieldIs(fields, "event_id", co.uuid, Some(freshId), e.eventId)
    && FieldIs(fields, "event_type", StringValue, DefaultEventType(cls), e.eventType)
    && FieldIs(fields, "stream_id", StringValue, None, e.streamId)
    && FieldIs(fields, "occurred_at", co.datetime, Some(now), e.occurredAt)
    && FieldIs(fields, "data", ObjectValue, Some([]), e.data)
    && FieldIs(fields, "metadata", ObjectValue, Some([]), e.metadata)
  }

  /**
   * `cls(**fields)`: build an event of class `cls` from keyword fields.
   * The result, when there is one, is the event of that class the fields
   * describe, and a failure lists at least one field.
   */
  function Construct(cls: EventClass, fields: seq<(string, Json)>, freshId: Uuid, now: int, co: Coercions): (r: Result<DomainEvent, seq<FieldError>>)
    ensures r.Ok? ==> Carries(r.value, cls, fields, freshId, now, co)
    ensures r.Err? ==> r.error != []
  {
    var id := ReadField(fields, "event_id", co.uuid, Some(freshId));
    var ty := ReadField(fields, "event_type", StringValue, DefaultEventType(cls));
    var st := ReadField(fields, "stream_id", StringValue, None);
    var at := ReadField(fields, "occurred_at", co.datetime, Some(now));
    var da := ReadField(fields, "data", ObjectValue, Some([]));
    var me := ReadField(fields, "metadata", ObjectValue, Some([]));
    var errors := ErrorOf(id) + ErrorOf(ty) + ErrorOf(st) + ErrorOf(at) + ErrorOf(da) + ErrorOf(me);
    if id.Got? && ty.Got? && st.Got? && at.Got? && da.Got? && me.Got? then
      ReadFieldIs(fields, "event_id", co.uuid, Some(freshId));
      ReadFieldIs(fields, "event_type", StringValue, DefaultEventType(cls));
      ReadFieldIs(fields, "stream_id", StringValue, None);
      ReadFieldIs(fields, "occurred_at", co.datetime, Some(now));
      ReadFieldIs(fields, "data", ObjectValue, Some([]));
      ReadFieldIs(fields, "metadata", ObjectValue, Some([]));
      Ok(DomainEvent(cls, id.value, ty.value, st.value, at.value, da.value, me.value))
    else
      Err(errors)
  }

  /** The class a stored tag is read back as: its registered class, or the generic base. */
  function ClassFor(eventType: string): (c: EventClass)
    ensures eventType in Registry ==> c == Registry[eventType]
    ensures eventType !in Registry ==> c == DomainEventClass
  {
    if eventType in Registry then Registry[eventType] else DomainEventClass
  }

  /** `deserialize_event`: rebuild a stored event from its tag and its fields. */
  function DeserializeEvent(eventType: string, fields: seq<(string, Json)>, freshId: Uuid, now: int, co: Coercions): (r: Result<DomainEvent, seq<FieldError>>)
    ensures r.Ok? && eventType in Registry ==> r.value.eventClass == Registry[eventType]
    ensures r.Ok? && eventType !in Registry ==> r.value.eventClass == DomainEventClass
    ensures r.Ok? ==> Carries(r.value, ClassFor(eventType), fields, freshId, now, co)
  {
    Construct(ClassFor(eventType), fields, freshId, now, co)
  }

  /**
   * Each registry key is the default `event_type` of the class it names, and
   * every subclass is registered, under exactly one tag.
   */
  lemma RegistryMatchesClasses()
    ensures forall tag | tag in Registry :: DefaultEventType(Registry[tag]) == Some(tag)
    ensures forall c: EventClass | c != DomainEventClass ::
      DefaultEventType(c).Some? && DefaultEventType(c).value in Registry &&
      Registry[DefaultEventType(c).value] == c
    ensures DomainEventClass !in Registry.Values
  {
    forall tag | tag in Registry ensures DefaultEventType(Registry[tag]) == Some(tag) {
      RegistryTags(tag);
    }
  }

  /** The registry's keys, listed. */
  lemma RegistryTags(tag: string)
    requires tag in Registry
    ensures tag in {"AgentRegistered", "AgentVerified", "AgentSuspended", "AgentReputationChanged",
      "SimulationCreated", "SimulationStarted", "SimulationCompleted", "SimulationFailed",
      "OutcomePredicted", "OutcomeActualized", "ProposalCreated", "VoteCast",
      "ProposalResolved", "SimulationMetered"}
  {
  }

  /** A registered tag with no `event_type` among the fields gives that tag as the event's type. */
  lemma RegisteredTagNamesTheEvent(tag: string, fields: seq<(string, Json)>, freshId: Uuid, now: int, co: Coercions)
    requires tag in Registry
    requires Get(fields, "event_type").None?
    ensures var r := DeserializeEvent(tag, fields, freshId, now, co);
      r.Ok? ==> r.value.eventType == tag && r.value.eventClass != DomainEventClass
  {
    RegistryMatchesClasses();
  }

  /**
   * Fields an event of class `cls` can be built from: a string stream id, a
   * string type unless the class supplies one, and well-formed optional fields.
   */
  predicate Acceptable(cls: EventClass, fields: seq<(string, Json)>, co: Coercions) {
    (Get(fields, "event_id").Some? ==> co.uuid(Get(fields, "event_id").value).Some?) &&
    (Get(fields, "event_type").Some? ==> Get(fields, "event_type").value.JString?) &&
    (Get(fields, "event_type").None? ==> cls != DomainEventClass) &&
    Get(fields, "stream_id").Some? && Get(fields, "stream_id").value.JString? &&
    (Get(fields, "occurred_at").Some? ==> co.datetime(Get(fields, "occurred_at").value).Some?) &&
    (Get(fields, "data").Some? ==> Get(fields, "data").value.JObject?) &&
    (Get(fields, "metadata").Some? ==> Get(fields, "metadata").value.JObject?)
  }

  /**
   * An unknown tag falls back to the generic class and does not fail on
   * well-formed fields; the event keeps the type its fields name.
   */
  lemma UnknownTagFallsBack(tag: string, fields: seq<(string, Json)>, freshId: Uuid, now: int, co: Coercions)
    requires tag !in Registry
    requires Acceptable(DomainEventClass, fields, co)
    ensures var r := DeserializeEvent(tag, fields, freshId, now, co);
      r.Ok? && r.value.eventClass == DomainEventClass &&
      r.value.eventType == Get(fields, "event_type").value.s &&
      r.value.streamId == Get(fields, "stream_id").value.s
  {
  }

  /** The generic class has no default type: an unknown tag with no `event_type` field fails. */
  lemma UnknownTagNeedsEventType(tag: string, fields: seq<(string, Json)>, freshId: Uuid, now: int, co: Coercions)
    requires tag !in Registry
    requires Get(fields, "event_type").None?
    ensures var r := DeserializeEvent(tag, fields, freshId, now, co);
      r.Err? && Missing("event_type") in r.error
  {
  }

  /** Every class requires `stream_id`. */
  lemma StreamIdRequired(cls: EventClass, fields: seq<(string, Json)>, freshId: Uuid, now: int, co: Coercions)
    requires Get(fields, "stream_id").None?
    ensures var r := Construct(cls, fields, freshId, now, co);
      r.Err? && Missing("stream_id") in r.error
  {
  }

  /**
   * Defaults: with no `data` or `metadata` field the event's are empty, with
   * no `event_id` it takes the fresh id, with no `occurred_at` the current time.
   */
  lemma ConstructDefaults(cls: EventClass, fields: seq<(string, Json)>, freshId: Uuid, now: int, co: Coercions)
    ensures var r := Construct(cls, fields, freshId, now, co);
      r.Ok? ==>
        (Get(fields, "data").None? ==> r.value.data == []) &&
        (Get(fields, "metadata").None? ==> r.value.metadata == []) &&
        (Get(fields, "event_id").None? ==> r.value.eventId == freshId) &&
        (Get(fields, "occurred_at").None? ==> r.value.occurredAt == now)
  {
  }

  /** Acceptable fields build an event, for every class. */
  lemma ConstructAccepts(cls: EventClass, fields: seq<(string, Json)>, freshId: Uuid, now: int, co: Coercions)
    requires Acceptable(cls, fields, co)
    ensures Construct(cls, fields, freshId, now, co).Ok?
  {
    ReadFieldGot(fields, "event_type", StringValue, DefaultEventType(cls));
  }

  /** Any other fields are refused: construction fails exactly when a field fails. */
  lemma ConstructRejects(cls: EventClass, fields: seq<(string, Json)>, freshId: Uuid, now: int, co: Coercions)
    requires !Acceptable(cls, fields, co)
    ensures Construct(cls, fields, freshId, now, co).Err?
  {
    ReadFieldGot(fields, "event_id", co.uuid, Some(freshId));
    ReadFieldGot(fields, "event_type", StringValue, DefaultEventType(cls));
    ReadFieldGot(fields, "stream_id", StringValue, None);
    ReadFieldGot(fields, "occurred_at", co.datetime, Some(now));
    ReadFieldGot(fields, "data", ObjectValue, Some([]));
    ReadFieldGot(fields, "metadata", ObjectValue, Some([]));
  }
}
