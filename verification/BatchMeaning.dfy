/** What the batch decoders make of each message, said without naming their bodies. */
module BatchMeaning {
  import opened Bytes
  import opened Utf8
  import opened Schema
  import opened Dynamic
  import opened Preflight
  import opened Agreement
  import opened Batch

  /** The fields of the wire budget that a message may spend. */
  function Allowance(b: Budgets): nat {
    Min(b.wire, MAX_SCHEMA_FIELDS)
  }

  /** What the preflight walk finds wrong with a payload; an allowance cut short is the batch's fault. */
  function WireIssue(reg: Registry, name: Str, payload: seq<byte>, b: Budgets): Option<Status> {
    var found := Obstacle(reg, reg.ForMethod(name), 0, payload, Allowance(b));
    if found == Some(FieldLimit) && b.wire < MAX_SCHEMA_FIELDS then Some(BatchFieldLimit) else found
  }

  /** The message is small enough and can be walked within what is left of the wire budget. */
  predicate Passes(reg: Registry, m: Message, b: Budgets) {
    |m.payload| <= MAX_EVENT_BYTES && Walkable(reg, reg.ForMethod(m.method_), 0, m.payload, Allowance(b))
  }

  lemma PreflightIs(reg: Registry, name: Str, payload: seq<byte>, b: Budgets)
    ensures var v, schema := PreflightEvent(reg, name, payload, b.wire), reg.ForMethod(name);
            && v.issue == WireIssue(reg, name, payload, b)
            && (v.issue.None? <==> Walkable(reg, schema, 0, payload, Allowance(b)))
            && (v.issue.None? ==> v.stamp == StampOf(reg, schema, payload, None))
            && (v.issue.None? ==> v.left == b.wire - Units(reg, schema, payload))
  {
    hide ScanFields, Walkable, Obstacle, Units, StampOf;
    var schema, st := reg.ForMethod(name), Scan(Allowance(b), None, false, false);
    IssueIs(reg, schema, 0, payload, false, st);
    ClearIff(reg, schema, 0, payload, false, st);
    if ScanFields(reg, schema, 0, payload, false, st).Clear? {
      TopStamp(reg, schema, payload, st);
      ScanUnits(reg, schema, 0, payload, false, st);
    }
  }

  /**
   * One message of a batch. Its own identity and clipped payload are kept. The normaliser decides
   * exactly when the message passes, and its three answers give three statuses; otherwise the status
   * is what stood in the way and the event is the payload itself. A payload that can be walked gives
   * its create time and costs the wire budget exactly its units. The tree is that of the payload under
   * the schema budget, marked truncated when the payload was cut.
   */
  lemma EnvelopeIs<E>(reg: Registry, normalize: Normalizer<E>, m: Message, b: Budgets)
    ensures var (e, after) := DecodeEnvelope(reg, normalize, m, b);
            var payload, schema := Clip(m.payload), reg.ForMethod(m.method_);
            && e.raw == RawEvent(m.method_, m.msgId, payload, m.isHistory)
            && (Passes(reg, m, b) ==>
                  var answer := normalize(m.method_, m.payload);
                  && (answer.Err? ==> e.status == DecodeError && e.event == Unknown(m.method_, m.payload))
                  && (answer == Ok(None) ==>
                        e.status == UnsupportedMethod && e.event == Unknown(m.method_, m.payload))
                  && (answer.Ok? && answer.value.Some? ==>
                        e.status == Normalized && e.event == Known(answer.value.value)))
            && (!Passes(reg, m, b) ==>
                  && e.event == Unknown(m.method_, payload)
                  && Some(e.status) == if |m.payload| > MAX_EVENT_BYTES then Some(PayloadLimit)
                                       else WireIssue(reg, m.method_, payload, b))
            && (Walkable(reg, schema, 0, payload, Allowance(b)) ==>
                  && e.timestamp == StampOf(reg, schema, payload, None)
                  && after.wire == b.wire - Units(reg, schema, payload))
            && var tree := DecodeFields(reg, schema, 0, payload, Min(b.schema, MAX_SCHEMA_FIELDS));
            && e.schema == SchemaMessage(m.method_, schema, tree.fields,
                                         tree.truncated || |m.payload| > MAX_EVENT_BYTES, tree.warning)
            && after.schema == b.schema - (Min(b.schema, MAX_SCHEMA_FIELDS) - tree.left)
  {
    hide PreflightEvent, Walkable, WireIssue, StampOf, Units, DecodeFields, IsUtf8;
    var payload := Clip(m.payload);
    PreflightIs(reg, m.method_, payload, b);
    assert Clip(payload) == payload;
    if |m.payload| <= MAX_EVENT_BYTES {
      assert payload == m.payload;
    }
  }

  /** Event `i` of a batch is message `i`, decoded with the budgets that the messages before it left. */
  lemma {:induction false} EventIs<E>(reg: Registry, normalize: Normalizer<E>, ms: seq<Message>, b: Budgets, i: nat)
    requires i < |ms|
    ensures DecodeAll(reg, normalize, ms, b)[i] ==
            DecodeEnvelope(reg, normalize, ms[i], BudgetsAfter(reg, normalize, ms[..i], b)).0
    decreases |ms|
  {
    hide DecodeEnvelope;
    var after := DecodeEnvelope(reg, normalize, ms[0], b).1;
    if i > 0 {
      EventIs(reg, normalize, ms[1..], after, i - 1);
      assert ms[..i][1..] == ms[1..][..i - 1] && ms[..i][0] == ms[0];
    }
  }

  /** The units of the wire budget that a list of messages costs. */
  function UnitsOf(reg: Registry, ms: seq<Message>): nat {
    if ms == [] then 0
    else Units(reg, reg.ForMethod(ms[0].method_), ms[0].payload) + UnitsOf(reg, ms[1..])
  }

  /** Every message passes with what the ones before it left. */
  predicate AllPass(reg: Registry, ms: seq<Message>, left: int) {
    ms == [] ||
    (&& left >= 0 && Passes(reg, ms[0], Budgets(0, left))
     && AllPass(reg, ms[1..], left - Units(reg, reg.ForMethod(ms[0].method_), ms[0].payload)))
  }

  lemma PassingCost<E>(reg: Registry, normalize: Normalizer<E>, m: Message, b: Budgets)
    requires Passes(reg, m, Budgets(0, b.wire))
    ensures DecodeEnvelope(reg, normalize, m, b).1.wire == b.wire - Units(reg, reg.ForMethod(m.method_), m.payload)
  {
    hide DecodeEnvelope, Walkable, Units, IsUtf8;
    EnvelopeIs(reg, normalize, m, b);
    assert Clip(m.payload) == m.payload;
  }

  /** A batch of passing messages costs its wire budget exactly their units. */
  lemma {:induction false} BatchUnits<E>(reg: Registry, normalize: Normalizer<E>, ms: seq<Message>, b: Budgets)
    requires AllPass(reg, ms, b.wire)
    ensures BudgetsAfter(reg, normalize, ms, b).wire == b.wire - UnitsOf(reg, ms)
    decreases |ms|
  {
    hide DecodeEnvelope, Passes, Units, IsUtf8;
    if ms != [] {
      PassingCost(reg, normalize, ms[0], b);
      BatchUnits(reg, normalize, ms[1..], DecodeEnvelope(reg, normalize, ms[0], b).1);
    }
  }

  /** Each mode's view of a legacy event: the representations it asked for, and no other. */
  lemma ProjectionIs<E>(mode: Mode, e: DecodedEvent<E>)
    ensures var p := Project(mode, e);
            && p.timestamp == e.timestamp && p.method_ == e.raw.method_ && p.msgId == e.raw.msgId
            && p.isHistory == e.raw.isHistory
            && (mode in {ModeFull, ModeNormalized} ==> p.event == Some(e.event) && p.status == e.status)
            && (mode in {ModeFull, ModeSchema} ==> p.schema == Some(e.schema))
            && (mode in {ModeFull, ModeRaw} ==> p.payload == Some(e.raw.payload))
            && (mode in {ModeSchema, ModeRaw} ==> p.event.None?)
            && (mode in {ModeNormalized, ModeRaw} ==> p.schema.None?)
            && (mode in {ModeNormalized, ModeSchema} ==> p.payload.None?)
  {
  }
}
