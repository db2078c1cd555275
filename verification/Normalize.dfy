/**
 The envelope every service puts on the bus, and the audit service's reading of it
 (`event_envelope` in the outbox workers, `services/audit-service/app/normalize.py`).
 */
module Normalize {
  import opened Common
  import opened Text
  import opened AuditChain

  /** A decoded message. A date printed in ISO form is its own leaf, so that parsing it back is exact. */
  datatype Json = Leaf(value: Scalar) | Moment(at: Time) | List(items: seq<Json>) | Object(fields: map<string, Json>)

  datatype NormalizationError = NotAnObject | UnsupportedSchema | Missing(key: string) | BadTime | BadData | BadTenant

  const ALLOWED_METADATA: set<string> := {
    "hostname", "platform", "agent_version", "site_id", "department_id", "certificate_id",
    "certificate_serial_hex", "provider", "external_id", "route_id", "method", "status_code",
    "client_ip", "reason_code", "role", "membership_role"}

  function RequiredString(fields: map<string, Json>, key: string): Result<string, NormalizationError> {
    if key in fields && fields[key].Leaf? && fields[key].value.Text? && Strip(fields[key].value.s) != ""
    then Ok(Strip(fields[key].value.s)) else Err(Missing(key))
  }

  /** The value under `key` when it is a string. */
  function OptionalString(fields: map<string, Json>, key: string): Option<string> {
    if key in fields && fields[key].Leaf? && fields[key].value.Text? then Some(fields[key].value.s) else None
  }

  function StringOr(fields: map<string, Json>, key: string, default: string): string {
    var s := OptionalString(fields, key);
    if s.Some? then s.value else default
  }

  function Prefix(s: string): string {
    if s == [] || s[0] == '.' then [] else [s[0]] + Prefix(s[1..])
  }

  function SourceService(eventType: string): string {
    if "identity." <= eventType then "identity"
    else if "tenant." <= eventType then "tenant"
    else if "asset." <= eventType then "asset"
    else if "pki." <= eventType then "pki"
    else if "enrollment." <= eventType then "enrollment"
    else if eventType == "device.enrolled" || eventType == "device.enrollment.failed" then "enrollment"
    else if "gateway." <= eventType then "gateway"
    else
      var prefix := Strip(Prefix(eventType));
      if prefix == "" then "unknown" else prefix
  }

  /** Only scalars under the allowed keys survive. */
  function SanitizeMetadata(data: map<string, Json>): map<string, Scalar> {
    map key | key in ALLOWED_METADATA && key in data && data[key].Leaf? :: data[key].value
  }

  /** `normalize_event`, the checks in the source's order, and the copy made by `_entry`. */
  function NormalizeEvent(envelope: Json): Result<AuditEntry, NormalizationError> {
    if !envelope.Object? then Err(NotAnObject) else
    var fields := envelope.fields;
    if !("schema_version" in fields && fields["schema_version"] == Leaf(Number(1.0))) then Err(UnsupportedSchema) else
    var eventId := RequiredString(fields, "event_id");
    if eventId.Err? then Err(eventId.error) else
    var eventType := RequiredString(fields, "type");
    if eventType.Err? then Err(eventType.error) else
    var resourceType := RequiredString(fields, "aggregate_type");
    if resourceType.Err? then Err(resourceType.error) else
    var resourceId := RequiredString(fields, "aggregate_id");
    if resourceId.Err? then Err(resourceId.error) else
    if !("occurred_at" in fields && fields["occurred_at"].Moment?) then Err(BadTime) else
    if "data" in fields && fields["data"] != Leaf(Null) && !fields["data"].Object? then Err(BadData) else
    var data := if "data" in fields && fields["data"].Object? then fields["data"].fields else map[];
    var noTenant := "tenant_id" !in data || data["tenant_id"] == Leaf(Null);
    if !noTenant && OptionalString(data, "tenant_id").None? then Err(BadTenant) else
    Ok(AuditEntry(
         OptionalString(data, "tenant_id"),
         eventId.value,
         eventType.value,
         SourceService(eventType.value),
         OptionalString(data, "actor_user_id"),
         StringOr(data, "actor_type", "system"),
         StringOr(data, "action", eventType.value),
         resourceType.value,
         Some(resourceId.value),
         StringOr(data, "outcome", "success"),
         OptionalString(data, "request_id"),
         fields["occurred_at"].at,
         SanitizeMetadata(data)))
  }

  /** One row of a service's outbox table. */
  datatype OutboxRow = OutboxRow(
    eventId: string,
    subject: string,
    aggregateType: string,
    aggregateId: string,
    payload: map<string, Json>,
    createdAt: Time,
    publishedAt: Option<Time>,
    attempts: nat,
    lastError: Option<string>)

  const SUBJECT_PREFIX: string := "guardian."

  /** Whether the row goes to the stream the audit service reads; command wake-ups go to another one. */
  predicate Audited(row: OutboxRow) {
    SUBJECT_PREFIX <= row.subject
  }

  function EventType(row: OutboxRow): string {
    if Audited(row) then row.subject[|SUBJECT_PREFIX|..] else row.subject
  }

  /** `event_envelope`: the same seven keys in every worker. */
  function Envelope(row: OutboxRow): Json {
    Object(map[
      "schema_version" := Leaf(Number(1.0)),
      "event_id" := Leaf(Text(row.eventId)),
      "type" := Leaf(Text(EventType(row))),
      "aggregate_type" := Leaf(Text(row.aggregateType)),
      "aggregate_id" := Leaf(Text(row.aggregateId)),
      "occurred_at" := Moment(row.createdAt),
      "data" := Object(row.payload)])
  }

  predicate Identifier(s: string) {
    s != "" && Stripped(s)
  }

  /** What the services write: printed identifiers, a named event, and a tenant that is a string if it is there. */
  predicate WellFormed(row: OutboxRow) {
    && Identifier(row.eventId) && Identifier(EventType(row)) && Identifier(row.aggregateType)
    && Identifier(row.aggregateId)
    && ("tenant_id" in row.payload ==>
        row.payload["tenant_id"] == Leaf(Null) || OptionalString(row.payload, "tenant_id").Some?)
  }

  // ---------------------------------------------------------------- what an entry says of its event

  predicate IsText(fields: map<string, Json>, key: string, t: string) {
    key in fields && fields[key] == Leaf(Text(t))
  }

  /** `s` is the string under `key`; it is nothing exactly when there is no string. */
  ghost predicate Tells(fields: map<string, Json>, key: string, s: Option<string>) {
    forall t {:trigger IsText(fields, key, t)} :: s == Some(t) <==> IsText(fields, key, t)
  }

  /** `s` is the string under `key`; without one it is `default`. */
  ghost predicate TellsOr(fields: map<string, Json>, key: string, default: string, s: string) {
    IsText(fields, key, s) || (s == default && forall t {:trigger IsText(fields, key, t)} :: !IsText(fields, key, t))
  }

  /** `p` is what comes before the first dot of `s`, or all of `s` if it has none. */
  predicate BeforeDot(p: string, s: string) {
    p <= s && '.' !in p && (|p| < |s| ==> s[|p|] == '.')
  }

  /** The service that owns a type of event: the first segment of the type, but for the two device events. */
  ghost predicate Owns(service: string, eventType: string) {
    if eventType in {"device.enrolled", "device.enrollment.failed"} then service == "enrollment"
    else forall p {:trigger BeforeDot(p, eventType)} :: BeforeDot(p, eventType) ==>
           service == if Strip(p) == "" then "unknown" else Strip(p)
  }

  predicate Keeps(metadata: map<string, Scalar>, key: string, v: Scalar) {
    key in metadata && metadata[key] == v
  }

  /** Exactly the scalars under allowed keys. */
  ghost predicate KeepsScalars(payload: map<string, Json>, metadata: map<string, Scalar>) {
    forall key, v {:trigger Keeps(metadata, key, v)} ::
      Keeps(metadata, key, v) <==> key in ALLOWED_METADATA && key in payload && payload[key] == Leaf(v)
  }

  /** All that an audit entry says of the outbox row it comes from. */
  ghost predicate Reports(row: OutboxRow, entry: AuditEntry) {
    && entry.sourceEventId == row.eventId && entry.occurredAt == row.createdAt
    && row.subject == (if Audited(row) then SUBJECT_PREFIX else "") + entry.sourceType
    && Owns(entry.sourceService, entry.sourceType)
    && entry.resourceType == row.aggregateType && entry.resourceId == Some(row.aggregateId)
    && Tells(row.payload, "tenant_id", entry.tenantId)
    && Tells(row.payload, "actor_user_id", entry.actorUserId) && Tells(row.payload, "request_id", entry.requestId)
    && TellsOr(row.payload, "actor_type", "system", entry.actorType)
    && TellsOr(row.payload, "action", entry.sourceType, entry.action)
    && TellsOr(row.payload, "outcome", "success", entry.outcome)
    && KeepsScalars(row.payload, entry.metadata)
  }

  /** There is exactly one segment before the first dot. */
  lemma {:induction false} PrefixIsBeforeDot(s: string, p: string)
    ensures BeforeDot(Prefix(s), s)
    ensures BeforeDot(p, s) ==> p == Prefix(s)
  {
    if s != [] && s[0] != '.' {
      PrefixIsBeforeDot(s[1..], if p == [] then [] else p[1..]);
      assert s == [s[0]] + s[1..];
      if BeforeDot(p, s) {
        assert p == [p[0]] + p[1..];
      }
    }
  }

  /** A family in the list of services is what comes before the first dot. */
  lemma FamilyIsBeforeDot(family: string, eventType: string)
    requires '.' !in family && Stripped(family)
    ensures family + "." <= eventType ==> Prefix(eventType) == family && Strip(family) == family
  {
    StripFixesStripped(family);
    if family + "." <= eventType {
      assert eventType[|family|] == (family + ".")[|family|];
      assert family == (family + ".")[..|family|] <= eventType;
      PrefixIsBeforeDot(eventType, family);
    }
  }

  lemma Families(eventType: string)
    ensures "identity." <= eventType ==> Strip(Prefix(eventType)) == "identity"
    ensures "tenant." <= eventType ==> Strip(Prefix(eventType)) == "tenant"
    ensures "asset." <= eventType ==> Strip(Prefix(eventType)) == "asset"
    ensures "pki." <= eventType ==> Strip(Prefix(eventType)) == "pki"
    ensures "enrollment." <= eventType ==> Strip(Prefix(eventType)) == "enrollment"
    ensures "gateway." <= eventType ==> Strip(Prefix(eventType)) == "gateway"
  {
    FamilyIsBeforeDot("identity", eventType);
    FamilyIsBeforeDot("tenant", eventType);
    FamilyIsBeforeDot("asset", eventType);
    FamilyIsBeforeDot("pki", eventType);
    FamilyIsBeforeDot("enrollment", eventType);
    FamilyIsBeforeDot("gateway", eventType);
    assert "identity" + "." == "identity." && "tenant" + "." == "tenant." && "asset" + "." == "asset.";
    assert "pki" + "." == "pki." && "enrollment" + "." == "enrollment." && "gateway" + "." == "gateway.";
  }

  lemma SourceServiceOwns(eventType: string)
    ensures Owns(SourceService(eventType), eventType)
  {
    if eventType in {"device.enrolled", "device.enrollment.failed"} {
      assert eventType[0] == 'd';
    } else {
      Families(eventType);
      forall p | BeforeDot(p, eventType)
        ensures SourceService(eventType) == if Strip(p) == "" then "unknown" else Strip(p)
      {
        PrefixIsBeforeDot(eventType, p);
      }
    }
  }

  lemma OneAnswer(fields: map<string, Json>, key: string, default: string, a: Option<string>, b: Option<string>,
                  x: string, y: string)
    ensures Tells(fields, key, a) && Tells(fields, key, b) ==> a == b
    ensures TellsOr(fields, key, default, x) && TellsOr(fields, key, default, y) ==> x == y
  {
    if Tells(fields, key, a) && Tells(fields, key, b) {
      assert a.Some? ==> IsText(fields, key, a.value);
      assert b.Some? ==> IsText(fields, key, b.value);
    }
  }

  /** Entries that report one row are equal: a report leaves nothing open. */
  lemma OneReport(row: OutboxRow, a: AuditEntry, b: AuditEntry)
    requires Reports(row, a) && Reports(row, b)
    ensures a == b
  {
    assert a.sourceType == row.subject[if Audited(row) then |SUBJECT_PREFIX| else 0..] == b.sourceType;
    PrefixIsBeforeDot(a.sourceType, Prefix(a.sourceType));
    OneAnswer(row.payload, "tenant_id", "", a.tenantId, b.tenantId, "", "");
    OneAnswer(row.payload, "actor_user_id", "", a.actorUserId, b.actorUserId, "", "");
    OneAnswer(row.payload, "request_id", "", a.requestId, b.requestId, "", "");
    OneAnswer(row.payload, "actor_type", "system", None, None, a.actorType, b.actorType);
    OneAnswer(row.payload, "action", a.sourceType, None, None, a.action, b.action);
    OneAnswer(row.payload, "outcome", "success", None, None, a.outcome, b.outcome);
    forall key | key in a.metadata ensures Keeps(b.metadata, key, a.metadata[key]) {
      assert Keeps(a.metadata, key, a.metadata[key]);
    }
    forall key | key in b.metadata ensures Keeps(a.metadata, key, b.metadata[key]) {
      assert Keeps(b.metadata, key, b.metadata[key]);
    }
    assert a.metadata == b.metadata;
  }

  lemma ReadsTell(fields: map<string, Json>, key: string, default: string)
    ensures Tells(fields, key, OptionalString(fields, key))
    ensures TellsOr(fields, key, default, StringOr(fields, key, default))
  {
  }

  lemma SanitizeKeeps(data: map<string, Json>)
    ensures KeepsScalars(data, SanitizeMetadata(data))
  {
  }

  /** The text under `key` is not blank, and `id` is what trimming leaves of it. */
  ghost predicate Names(fields: map<string, Json>, key: string, id: string) {
    exists t {:trigger IsText(fields, key, t)} :: IsText(fields, key, t) && !Blank(t) && TrimsTo(t, id)
  }

  ghost predicate Named(fields: map<string, Json>, key: string) {
    exists t {:trigger IsText(fields, key, t)} :: IsText(fields, key, t) && !Blank(t)
  }

  /** The data of an envelope; none and null are empty. */
  function DataOf(fields: map<string, Json>): map<string, Json> {
    if "data" in fields && fields["data"].Object? then fields["data"].fields else map[]
  }

  /** What the audit service asks of an envelope. */
  ghost predicate Acceptable(envelope: Json) {
    && envelope.Object?
    && var fields := envelope.fields;
       && "schema_version" in fields && fields["schema_version"] == Leaf(Number(1.0))
       && Named(fields, "event_id") && Named(fields, "type")
       && Named(fields, "aggregate_type") && Named(fields, "aggregate_id")
       && "occurred_at" in fields && fields["occurred_at"].Moment?
       && ("data" in fields ==> fields["data"] == Leaf(Null) || fields["data"].Object?)
       && var data := DataOf(fields);
          "tenant_id" in data ==> data["tenant_id"] == Leaf(Null) || exists t :: IsText(data, "tenant_id", t)
  }

  lemma RequiredNames(fields: map<string, Json>, key: string)
    ensures RequiredString(fields, key).Ok? <==> Named(fields, key)
    ensures RequiredString(fields, key).Ok? ==> Names(fields, key, RequiredString(fields, key).value)
  {
    if key in fields && fields[key].Leaf? && fields[key].value.Text? {
      var t := fields[key].value.s;
      assert IsText(fields, key, t);
      StripTrims(t);
    }
  }

  /** An envelope is accepted exactly when it is acceptable, and then its identifiers are trimmed. */
  lemma AcceptedExactlyWhen(envelope: Json)
    ensures NormalizeEvent(envelope).Ok? <==> Acceptable(envelope)
    ensures NormalizeEvent(envelope).Ok? ==>
              var entry := NormalizeEvent(envelope).value;
              && Names(envelope.fields, "event_id", entry.sourceEventId)
              && Names(envelope.fields, "type", entry.sourceType)
              && Names(envelope.fields, "aggregate_type", entry.resourceType)
              && entry.resourceId.Some? && Names(envelope.fields, "aggregate_id", entry.resourceId.value)
              && envelope.fields["occurred_at"] == Moment(entry.occurredAt)
  {
    if envelope.Object? {
      RequiredNames(envelope.fields, "event_id");
      RequiredNames(envelope.fields, "type");
      RequiredNames(envelope.fields, "aggregate_type");
      RequiredNames(envelope.fields, "aggregate_id");
      var data := DataOf(envelope.fields);
      ReadsTell(data, "tenant_id", "");
      if OptionalString(data, "tenant_id").Some? {
        assert IsText(data, "tenant_id", OptionalString(data, "tenant_id").value);
      }
    }
  }

  /** Every envelope a worker builds from a well-formed row is accepted, and its entry reports the row. */
  lemma EnvelopeAccepted(row: OutboxRow)
    requires WellFormed(row)
    ensures NormalizeEvent(Envelope(row)).Ok? && Reports(row, NormalizeEvent(Envelope(row)).value)
  {
    EnvelopeFields(row);
    var entry := NormalizeEvent(Envelope(row)).value;
    SourceServiceOwns(EventType(row));
    ReadsTell(row.payload, "tenant_id", "");
    ReadsTell(row.payload, "actor_user_id", "");
    ReadsTell(row.payload, "request_id", "");
    ReadsTell(row.payload, "actor_type", "system");
    ReadsTell(row.payload, "action", entry.sourceType);
    ReadsTell(row.payload, "outcome", "success");
    SanitizeKeeps(row.payload);
  }

  /** The identifiers of a well-formed row survive their trimming. */
  lemma EnvelopeFields(row: OutboxRow)
    requires WellFormed(row)
    ensures Envelope(row).fields["data"] == Object(row.payload)
    ensures Envelope(row).fields["occurred_at"] == Moment(row.createdAt)
    ensures Envelope(row).fields["schema_version"] == Leaf(Number(1.0))
    ensures RequiredString(Envelope(row).fields, "event_id") == Ok(row.eventId)
    ensures RequiredString(Envelope(row).fields, "type") == Ok(EventType(row))
    ensures RequiredString(Envelope(row).fields, "aggregate_type") == Ok(row.aggregateType)
    ensures RequiredString(Envelope(row).fields, "aggregate_id") == Ok(row.aggregateId)
  {
    StripFixesStripped(row.eventId);
    StripFixesStripped(EventType(row));
    StripFixesStripped(row.aggregateType);
    StripFixesStripped(row.aggregateId);
    var fields := Envelope(row).fields;
    assert fields["event_id"] == Leaf(Text(row.eventId));
    assert fields["type"] == Leaf(Text(EventType(row)));
    assert fields["aggregate_type"] == Leaf(Text(row.aggregateType));
    assert fields["aggregate_id"] == Leaf(Text(row.aggregateId));
  }
}
