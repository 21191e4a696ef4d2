/** Whole batches: the legacy full decoding and the selective one, with both budgets threaded. */
module Batch {
  import opened Bytes
  import opened Utf8
  import opened Wire
  import opened WireReaders
  import opened Schema
  import opened Dynamic
  import opened Preflight

  const BATCH_FIELDS: nat := 65536
  const MAX_BATCH_BYTES: nat := 16 * 1024 * 1024
  const MAX_BATCH_MESSAGES: nat := 8192

  /** One message of the batch as the generated decoder hands it over. */
  datatype Message = Message(method_: Str, msgId: u64, isHistory: bool, payload: seq<byte>)

  datatype LiveEvent<E> = Known(event: E) | Unknown(method_: Str, payload: seq<byte>)

  /** The generated normalisers, as one function of the method and the payload. */
  type Normalizer<!E> = (Str, seq<byte>) -> Result<Option<E>, ()>

  datatype RawEvent = RawEvent(method_: Str, msgId: u64, payload: seq<byte>, isHistory: bool)

  datatype DecodedEvent<E> = DecodedEvent(
    raw: RawEvent, event: LiveEvent<E>, schema: SchemaMessage, status: Status, timestamp: Option<u64>)

  datatype Mode = ModeNormalized | ModeSchema | ModeFull | ModeRaw
  {
    predicate WantsSchema() { this == ModeFull || this == ModeSchema }
    predicate WantsEvent() { this == ModeFull || this == ModeNormalized }
    predicate WantsPayload() { this == ModeFull || this == ModeRaw }
  }

  datatype SelectedEvent<E> = SelectedEvent(
    timestamp: Option<u64>, method_: Str, msgId: u64, isHistory: bool, payload: Option<seq<byte>>,
    event: Option<LiveEvent<E>>, schema: Option<SchemaMessage>, truncated: bool, status: Status)

  function NormalizeChecked<E>(
    normalize: Normalizer<E>, name: Str, payload: seq<byte>, issue: Option<Status>): (Option<E>, Status)
  {
    if issue.Some? then (None, issue.value)
    else
      match normalize(name, payload)
      case Ok(Some(e)) => (Some(e), Normalized)
      case Ok(None) => (None, UnsupportedMethod)
      case Err(_) => (None, DecodeError)
  }

  function IssueOf(oversized: bool, wire: Option<Status>): Option<Status> {
    if oversized then Some(PayloadLimit) else wire
  }

  /** Both budgets, as they stand between two messages. */
  datatype Budgets = Budgets(schema: nat, wire: nat)

  /** `decode_envelope_budget`. */
  function DecodeEnvelope<E>(
    reg: Registry, normalize: Normalizer<E>, m: Message, b: Budgets): (DecodedEvent<E>, Budgets)
  {
    var oversized := |m.payload| > MAX_EVENT_BYTES;
    var payload := Clip(m.payload);
    var (schema, schemaLeft) := DecodeEvent(reg, m.method_, payload, b.schema);
    var verdict := PreflightEvent(reg, m.method_, payload, b.wire);
    var (event, status) := NormalizeChecked(normalize, m.method_, payload, IssueOf(oversized, verdict.issue));
    var known := if event.Some? then Known(event.value) else Unknown(m.method_, payload);
    (DecodedEvent(RawEvent(m.method_, m.msgId, payload, m.isHistory), known,
                  schema.(truncated := schema.truncated || oversized), status, verdict.stamp),
     Budgets(schemaLeft, verdict.left))
  }

  /** The legacy batch: every representation of every message, in order. */
  function DecodeAll<E>(
    reg: Registry, normalize: Normalizer<E>, ms: seq<Message>, b: Budgets): (es: seq<DecodedEvent<E>>)
    ensures |es| == |ms|
  {
    if ms == [] then []
    else
      var (e, b') := DecodeEnvelope(reg, normalize, ms[0], b);
      [e] + DecodeAll(reg, normalize, ms[1..], b')
  }

  /** The per-message closure of the legacy decoder. */
  method DecodeMessage<E>(reg: Registry, normalize: Normalizer<E>, m: Message, b: Budgets)
    returns (decoded: DecodedEvent<E>, left: Budgets)
    ensures (decoded, left) == DecodeEnvelope(reg, normalize, m, b)
  {
    hide DecodeEvent, PreflightEvent, NormalizeChecked;
    var oversized := |m.payload| > MAX_EVENT_BYTES;
    var payload := Clip(m.payload);
    var schema, schemaLeft := DecodeWebcastMessage(reg, m.method_, payload, b.schema);
    var verdict := Preflight.Preflight(reg, m.method_, payload, b.wire);
    var (event, status) := NormalizeChecked(normalize, m.method_, payload, IssueOf(oversized, verdict.issue));
    var known := if event.Some? then Known(event.value) else Unknown(m.method_, payload);
    decoded := DecodedEvent(RawEvent(m.method_, m.msgId, payload, m.isHistory), known,
                            schema.(truncated := schema.truncated || oversized), status, verdict.stamp);
    left := Budgets(schemaLeft, verdict.left);
  }

  method DecodeMessages<E>(reg: Registry, normalize: Normalizer<E>, ms: seq<Message>)
    returns (events: seq<DecodedEvent<E>>)
    ensures events == DecodeAll(reg, normalize, ms, Budgets(BATCH_FIELDS, BATCH_FIELDS))
  {
    hide DecodeEnvelope;
    events := [];
    var b := Budgets(BATCH_FIELDS, BATCH_FIELDS);
    assert ms[0..] == ms;
    for i := 0 to |ms|
      invariant events + DecodeAll(reg, normalize, ms[i..], b)
             == DecodeAll(reg, normalize, ms, Budgets(BATCH_FIELDS, BATCH_FIELDS))
    {
      var decoded, left := DecodeMessage(reg, normalize, ms[i], b);
      assert ms[i..][1..] == ms[i + 1..];
      ConcatAssociates(events, [decoded], DecodeAll(reg, normalize, ms[i + 1..], left));
      events := events + [decoded];
      b := left;
    }
    assert events + [] == events;
  }

  // ----- Selective decoding

  /** Reasons for which an event is not normalised at all. */
  predicate IsIssue(s: Status) {
    s in {MalformedWire, PayloadLimit, FieldLimit, BatchFieldLimit, DepthLimit}
  }

  /** What a consumer of `mode` is owed, read off the legacy event alone. */
  function Project<E>(mode: Mode, e: DecodedEvent<E>): SelectedEvent<E> {
    SelectedEvent(
      e.timestamp, e.raw.method_, e.raw.msgId, e.raw.isHistory,
      if mode.WantsPayload() then Some(e.raw.payload) else None,
      if mode.WantsEvent() then Some(e.event) else None,
      if mode.WantsSchema() then Some(e.schema) else None,
      IsIssue(e.status) || (mode.WantsSchema() && e.schema.truncated),
      if mode.WantsEvent() || IsIssue(e.status) then e.status else NotRequested)
  }

  function ProjectAll<E>(mode: Mode, es: seq<DecodedEvent<E>>): (ps: seq<SelectedEvent<E>>)
    ensures |ps| == |es|
    ensures forall i :: 0 <= i < |es| ==> ps[i] == Project(mode, es[i])
  {
    if es == [] then [] else [Project(mode, es[0])] + ProjectAll(mode, es[1..])
  }

  lemma PreflightIssues(reg: Registry, name: Str, payload: seq<byte>, budget: nat)
    ensures var issue := PreflightEvent(reg, name, payload, budget).issue;
            issue.Some? ==> IsIssue(issue.value)
  {
    hide ScanFields;
    var st := Scan(Min(budget, MAX_SCHEMA_FIELDS), None, false, false);
    if ScanFields(reg, reg.ForMethod(name), 0, payload, false, st).Stopped? {
      ScanIssues(reg, reg.ForMethod(name), 0, payload, false, st);
    }
  }

  /**
   * The per-message closure of the selective decoder. It skips the schema budget when no schema is
   * wanted, and still returns the projection of what the legacy decoder would have built with the
   * budget `legacy` that it tracks.
   */
  method SelectMessage<E>(
    reg: Registry, normalize: Normalizer<E>, mode: Mode, m: Message, b: Budgets, ghost legacy: Budgets)
    returns (selected: SelectedEvent<E>, left: Budgets)
    requires b.wire == legacy.wire && (mode.WantsSchema() ==> b.schema == legacy.schema)
    ensures var (e, after) := DecodeEnvelope(reg, normalize, m, legacy);
            && selected == Project(mode, e)
            && left.wire == after.wire && (mode.WantsSchema() ==> left.schema == after.schema)
  {
    hide DecodeEvent, PreflightEvent;
    var oversized := |m.payload| > MAX_EVENT_BYTES;
    var payload := Clip(m.payload);
    var schema: Option<SchemaMessage> := None;
    var schemaLeft := b.schema;
    if mode.WantsSchema() {
      var s, l := DecodeWebcastMessage(reg, m.method_, payload, b.schema);
      schema, schemaLeft := Some(s.(truncated := s.truncated || oversized)), l;
    }
    var verdict := Preflight.Preflight(reg, m.method_, payload, b.wire);
    PreflightIssues(reg, m.method_, payload, b.wire);
    var issue := IssueOf(oversized, verdict.issue);
    var truncated := issue.Some? || (schema.Some? && schema.value.truncated);
    var event: Option<LiveEvent<E>>, status := None, if issue.Some? then issue.value else NotRequested;
    if mode.WantsEvent() {
      var (normalized, outcome) := NormalizeChecked(normalize, m.method_, payload, issue);
      status := outcome;
      if normalized.Some? {
        event := Some(Known(normalized.value));
      }
    }
    var kept: Option<seq<byte>> := None;
    if mode.WantsPayload() {
      kept := Some(payload);
    } else if mode == ModeNormalized && event.None? {
      event := Some(Unknown(m.method_, payload));
    }
    if mode == ModeFull && event.None? {
      event := Some(Unknown(m.method_, kept.value));
    }
    selected := SelectedEvent(verdict.stamp, m.method_, m.msgId, m.isHistory, kept, event, schema, truncated, status);
    left := Budgets(schemaLeft, verdict.left);
  }

  lemma ProjectStep<E>(reg: Registry, normalize: Normalizer<E>, mode: Mode, ms: seq<Message>, b: Budgets)
    ensures ms == [] ==> ProjectAll(mode, DecodeAll(reg, normalize, ms, b)) == []
    ensures ms != [] ==>
              var (e, after) := DecodeEnvelope(reg, normalize, ms[0], b);
              ProjectAll(mode, DecodeAll(reg, normalize, ms, b)) ==
                [Project(mode, e)] + ProjectAll(mode, DecodeAll(reg, normalize, ms[1..], after))
  {
    hide DecodeEnvelope, Project;
    if ms != [] {
      var (e, after) := DecodeEnvelope(reg, normalize, ms[0], b);
      var rest := DecodeAll(reg, normalize, ms[1..], after);
      assert ([e] + rest)[1..] == rest;
    }
  }

  method SelectMessages<E>(reg: Registry, normalize: Normalizer<E>, mode: Mode, ms: seq<Message>)
    returns (events: seq<SelectedEvent<E>>)
    ensures events == ProjectAll(mode, DecodeAll(reg, normalize, ms, Budgets(BATCH_FIELDS, BATCH_FIELDS)))
  {
    hide DecodeEnvelope, Project, ProjectAll, DecodeAll;
    events := [];
    var b := Budgets(BATCH_FIELDS, BATCH_FIELDS);
    ghost var legacy := b;
    assert ms[0..] == ms;
    for i := 0 to |ms|
      invariant b.wire == legacy.wire && (mode.WantsSchema() ==> b.schema == legacy.schema)
      invariant events + ProjectAll(mode, DecodeAll(reg, normalize, ms[i..], legacy))
             == ProjectAll(mode, DecodeAll(reg, normalize, ms, Budgets(BATCH_FIELDS, BATCH_FIELDS)))
    {
      ProjectStep(reg, normalize, mode, ms[i..], legacy);
      var selected, left := SelectMessage(reg, normalize, mode, ms[i], b, legacy);
      assert ms[i..][1..] == ms[i + 1..];
      ghost var after := DecodeEnvelope(reg, normalize, ms[i], legacy).1;
      ConcatAssociates(events, [selected], ProjectAll(mode, DecodeAll(reg, normalize, ms[i + 1..], after)));
      events := events + [selected];
      b, legacy := left, DecodeEnvelope(reg, normalize, ms[i], legacy).1;
    }
    ProjectStep(reg, normalize, mode, ms[|ms|..], legacy);
    assert events + [] == events;
  }

  // ----- Batches

  /** Envelope fields that both decoders pass through. */
  datatype Meta = Meta(cursor: string, internalExt: string, needAck: bool, heartbeatDuration: int, pushServer: string)

  datatype Parsed = Parsed(messages: seq<Message>, meta: Meta)

  datatype EventError = TooLarge | BadEnvelope

  datatype EventBatch<E> = EventBatch(events: seq<E>, meta: Meta)

  function CountMessages(fs: seq<Field>): nat {
    if fs == [] then 0 else (if fs[0].number == 1 then 1 else 0) + CountMessages(fs[1..])
  }

  /** Size and message limits, counted over the fields before any damage. */
  predicate WithinLimits(payload: seq<byte>) {
    |payload| <= MAX_BATCH_BYTES && CountMessages(ReadAll(payload).fields) <= MAX_BATCH_MESSAGES
  }

  method CheckBatch(payload: seq<byte>) returns (ok: bool)
    ensures ok == WithinLimits(payload)
  {
    hide LenientField;
    if |payload| > MAX_BATCH_BYTES {
      return false;
    }
    var reader := new Reader(payload);
    var count := 0;
    assert payload[0..] == payload;
    while true
      invariant reader.Valid() && reader.buf == payload
      invariant count + CountMessages(ReadAll(payload[reader.pos..]).fields) == CountMessages(ReadAll(payload).fields)
      invariant count <= MAX_BATCH_MESSAGES
      decreases |payload| - reader.pos
    {
      var next := reader.NextField();
      if next.None? || next.value.Err? { return true; }
      if next.value.value.number == 1 {
        count := count + 1;
        if count > MAX_BATCH_MESSAGES {
          return false;
        }
      }
    }
  }

  /** `decode_batch`, over the generated envelope decoder `parse`. */
  method DecodeBatch<E>(
    reg: Registry, normalize: Normalizer<E>, parse: seq<byte> -> Result<Parsed, ()>, payload: seq<byte>)
    returns (r: Result<EventBatch<DecodedEvent<E>>, EventError>)
    ensures r == LegacyBatch(reg, normalize, parse, payload)
  {
    var ok := CheckBatch(payload);
    if !ok { return Err(TooLarge); }
    var parsed := parse(payload);
    if parsed.Err? { return Err(BadEnvelope); }
    var events := DecodeMessages(reg, normalize, parsed.value.messages);
    return Ok(EventBatch(events, parsed.value.meta));
  }

  function LegacyBatch<E>(
    reg: Registry, normalize: Normalizer<E>, parse: seq<byte> -> Result<Parsed, ()>, payload: seq<byte>):
    Result<EventBatch<DecodedEvent<E>>, EventError>
  {
    if !WithinLimits(payload) then Err(TooLarge)
    else
      match parse(payload)
      case Err(_) => Err(BadEnvelope)
      case Ok(p) => Ok(EventBatch(DecodeAll(reg, normalize, p.messages, Budgets(BATCH_FIELDS, BATCH_FIELDS)), p.meta))
  }

  /** `decode_batch_with_mode` is the legacy batch, projected: same errors, order, metadata and contents. */
  method DecodeBatchWithMode<E>(
    reg: Registry, normalize: Normalizer<E>, parse: seq<byte> -> Result<Parsed, ()>, payload: seq<byte>, mode: Mode)
    returns (r: Result<EventBatch<SelectedEvent<E>>, EventError>)
    ensures var legacy := LegacyBatch(reg, normalize, parse, payload);
            && (legacy.Err? ==> r == Err(legacy.error))
            && (legacy.Ok? ==> r == Ok(EventBatch(ProjectAll(mode, legacy.value.events), legacy.value.meta)))
  {
    var ok := CheckBatch(payload);
    if !ok { return Err(TooLarge); }
    var parsed := parse(payload);
    if parsed.Err? { return Err(BadEnvelope); }
    var events := SelectMessages(reg, normalize, mode, parsed.value.messages);
    return Ok(EventBatch(events, parsed.value.meta));
  }

  // ----- Conservation

  function TreeNodes<E>(es: seq<DecodedEvent<E>>): nat {
    if es == [] then 0 else Nodes(es[0].schema.fields) + TreeNodes(es[1..])
  }

  function Warned<E>(es: seq<DecodedEvent<E>>): nat {
    if es == [] then 0 else (if es[0].schema.warning then 1 else 0) + Warned(es[1..])
  }

  /** The budgets after every message of a batch. */
  function BudgetsAfter<E>(reg: Registry, normalize: Normalizer<E>, ms: seq<Message>, b: Budgets): (after: Budgets)
    ensures after.schema <= b.schema && after.wire <= b.wire
  {
    if ms == [] then b else BudgetsAfter(reg, normalize, ms[1..], DecodeEnvelope(reg, normalize, ms[0], b).1)
  }

  /**
   * A whole batch's trees hold at most what its schema budget was charged, plus one node per event
   * that reported damage; and exactly what was charged when none did.
   */
  lemma {:induction false} BatchNodes<E>(reg: Registry, normalize: Normalizer<E>, ms: seq<Message>, b: Budgets)
    ensures var es, left := DecodeAll(reg, normalize, ms, b), BudgetsAfter(reg, normalize, ms, b).schema;
            && TreeNodes(es) <= b.schema - left + Warned(es) <= b.schema + Warned(es)
            && (Warned(es) == 0 ==> TreeNodes(es) == b.schema - left)
    decreases |ms|
  {
    hide DecodeEvent, PreflightEvent, NormalizeChecked, Nodes;
    if ms != [] {
      var (e, after) := DecodeEnvelope(reg, normalize, ms[0], b);
      EventBounds(reg, ms[0].method_, Clip(ms[0].payload), b.schema);
      BatchNodes(reg, normalize, ms[1..], after);
      assert ([e] + DecodeAll(reg, normalize, ms[1..], after))[1..] == DecodeAll(reg, normalize, ms[1..], after);
    }
  }
}
