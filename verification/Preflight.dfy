/** The borrowed walker that validates an event before it is normalised, and its agreement with the tree. */
module Preflight {
  import opened Bytes
  import opened Utf8
  import opened Wire
  import opened WireReaders
  import opened Schema
  import opened Dynamic

  const MAX_NORMALIZATION_DEPTH: nat := 100

  datatype Status =
    | Normalized | UnsupportedMethod | MalformedWire | DecodeError | PayloadLimit
    | FieldLimit | BatchFieldLimit | DepthLimit | NotRequested

  /** The walker's mutable state: the budget, the timestamp, and this level's two "seen" flags. */
  datatype Scan = Scan(left: nat, stamp: Option<u64>, seenCommon: bool, seenStamp: bool)

  datatype ScanResult = Stopped(issue: Status, st: Scan) | Clear(st: Scan)

  function ScanPacked(wire: nat, b: seq<byte>, left: nat): (r: (Option<Status>, nat))
    ensures r.1 <= left
  {
    if b == [] then (None, left)
    else if left == 0 then (Some(FieldLimit), left)
    else
      match ReadValue(true, wire, b)
      case Failed(_, _) => (Some(MalformedWire), left - 1)
      case Got(_, used) => ScanPacked(wire, b[used..], left - 1)
  }

  predicate Named(d: Option<FieldSchema>, name: string) {
    d.Some? && d.value.name == name
  }

  /** The timestamp update: the first `create_time` of a `common` message, whatever its wire type. */
  function Stamped(d: Option<FieldSchema>, v: WireValue, common: bool, st: Scan): (r: Scan)
    ensures r.left == st.left
  {
    if common && !st.seenStamp && Named(d, "create_time") then st.(seenStamp := true, stamp := v.AsU64()) else st
  }

  predicate OpensCommon(d: Option<FieldSchema>, depth: nat, st: Scan) {
    depth == 0 && !st.seenCommon && Named(d, "common")
  }

  /** What a nested scan hands back to the level that started it. */
  function Return(st: Scan, opens: bool, nested: ScanResult): (r: ScanResult)
    ensures r.Clear? == nested.Clear? && r.st.left == nested.st.left
  {
    var after := st.(left := nested.st.left, stamp := nested.st.stamp, seenCommon := st.seenCommon || opens);
    if nested.Stopped? then Stopped(nested.issue, after) else Clear(after)
  }

  function ScanArray(d: FieldSchema, b: seq<byte>, st: Scan): (r: ScanResult)
    ensures r.st.left <= st.left
  {
    var (issue, left) := ScanPacked(d.PackedWire(), b, st.left);
    if issue.Some? then Stopped(issue.value, st.(left := left)) else Clear(st.(left := left))
  }

  /** One field, already read, with budget in hand. */
  function ScanOne(
    reg: Registry, schema: Option<MessageSchema>, depth: nat, f: Field, common: bool, before: Scan): (r: ScanResult)
    requires before.left > 0
    ensures r.st.left <= before.left
    decreases f.value.Size(), 1
  {
    var d := Descriptor(schema, f.number);
    var st := Stamped(d, f.value, common, before);
    if IsPacked(f, d) then ScanArray(d.value, f.value.bytes, st)
    else if !IsMessage(f, d) then Clear(st.(left := st.left - 1))
    else if depth >= MAX_NORMALIZATION_DEPTH then Stopped(DepthLimit, st.(left := st.left - 1))
    else
      var opens := OpensCommon(d, depth, st);
      Return(st, opens, ScanFields(reg, reg.ByName(d.value.kind.name), depth + 1, f.value.bytes, opens,
                                   Scan(st.left - 1, st.stamp, false, false)))
  }

  function ScanFields(
    reg: Registry, schema: Option<MessageSchema>, depth: nat, s: seq<byte>, common: bool, st: Scan): (r: ScanResult)
    ensures r.st.left <= st.left
    decreases |s|, 0
  {
    if s == [] then Clear(st)
    else if st.left == 0 then Stopped(FieldLimit, st)
    else
      match LenientField(s)
      case Failed(_, _) => Stopped(MalformedWire, st)
      case Got(f, used) =>
        if !(0 < f.number <= MAX_FIELD_NUMBER) then Stopped(MalformedWire, st)
        else
          match ScanOne(reg, schema, depth, f, common, st)
          case Stopped(issue, after) => Stopped(issue, after)
          case Clear(after) => ScanFields(reg, schema, depth, s[used..], common, after)
  }

  // ----- Agreement with the tree decoder

  predicate Clean(o: Outcome) {
    !o.warning && !o.truncated
  }

  lemma {:induction false} PackedAgree(reg: Registry, d: FieldSchema, number: u32, b: seq<byte>, left: nat)
    requires Clean(DecodePacked(reg, d, number, b, left))
    ensures ScanPacked(d.PackedWire(), b, left) == (None, DecodePacked(reg, d, number, b, left).left)
    decreases |b|
  {
    if b != [] {
      var r := ReadValue(true, d.PackedWire(), b);
      PackedAgree(reg, d, number, b[r.used..], left - 1);
    }
  }

  lemma {:induction false} OneAgrees(
    reg: Registry, schema: Option<MessageSchema>, depth: nat, f: Field, common: bool, st: Scan)
    requires st.left > 0 && Clean(DecodeOne(reg, schema, depth, f, st.left))
    ensures var r := ScanOne(reg, schema, depth, f, common, st);
            r.Clear? && r.st.left == DecodeOne(reg, schema, depth, f, st.left).left
    decreases f.value.Size(), 1
  {
    hide DecodeFields, ScanFields, DecodePacked, ScanPacked, DecodePlain, Nest, Return;
    var d := Descriptor(schema, f.number);
    if IsPacked(f, d) {
      PackedAgree(reg, d.value, f.number, f.value.bytes, st.left);
    } else if IsMessage(f, d) {
      var st1 := Stamped(d, f.value, common, st);
      assert depth < MAX_SCHEMA_DEPTH && st.left > 1;
      ScanAgrees(reg, reg.ByName(d.value.kind.name), depth + 1, f.value.bytes, OpensCommon(d, depth, st1),
                 Scan(st1.left - 1, st1.stamp, false, false));
    }
  }

  /** A clean decode is a clear scan, and both leave exactly the same budget. */
  lemma {:induction false} ScanAgrees(
    reg: Registry, schema: Option<MessageSchema>, depth: nat, s: seq<byte>, common: bool, st: Scan)
    requires Clean(DecodeFields(reg, schema, depth, s, st.left))
    ensures var r := ScanFields(reg, schema, depth, s, common, st);
            r.Clear? && r.st.left == DecodeFields(reg, schema, depth, s, st.left).left
    decreases |s|, 0
  {
    if s != [] {
      var strict := StrictField(s);
      FieldsAgree(s);
      OneAgrees(reg, schema, depth, strict.field, common, st);
      var after := ScanOne(reg, schema, depth, strict.field, common, st).st;
      ScanAgrees(reg, schema, depth, s[strict.used..], common, after);
    }
  }

  // ----- The loops of the walker

  method ScanPackedArray(d: FieldSchema, b: seq<byte>, st: Scan) returns (r: ScanResult)
    ensures r == ScanArray(d, b, st)
  {
    hide ReadValue;
    var cursor := new Cursor(b);
    var left := st.left;
    assert b[0..] == b;
    while cursor.pos < |b|
      invariant cursor.Valid() && cursor.bytes == b
      invariant ScanPacked(d.PackedWire(), b[cursor.pos..], left) == ScanPacked(d.PackedWire(), b, st.left)
      decreases |b| - cursor.pos
    {
      if left == 0 {
        return Stopped(FieldLimit, st.(left := left));
      }
      ghost var rest := b[cursor.pos..];
      left := left - 1;
      var v := cursor.Value(d.PackedWire());
      if v.Err? {
        return Stopped(MalformedWire, st.(left := left));
      }
      assert rest[ReadValue(true, d.PackedWire(), rest).used..] == b[cursor.pos..];
    }
    return Clear(st.(left := left));
  }

  method ScanObject(
    reg: Registry, payload: seq<byte>, schema: Option<MessageSchema>, depth: nat, common: bool, start: Scan)
    returns (r: ScanResult)
    ensures r == ScanFields(reg, schema, depth, payload, common, start)
    decreases |payload|
  {
    hide LenientField, ScanArray, Stamped, Return;
    var reader := new Reader(payload);
    var st := start;
    assert payload[0..] == payload;
    while reader.pos < |payload|
      invariant reader.Valid() && reader.buf == payload
      invariant ScanFields(reg, schema, depth, payload[reader.pos..], common, st)
             == ScanFields(reg, schema, depth, payload, common, start)
      decreases |payload| - reader.pos
    {
      ghost var rest := payload[reader.pos..];
      var field := reader.ReadField();
      if st.left == 0 {
        return Stopped(FieldLimit, st);
      }
      if field.Err? || !(0 < field.value.number <= MAX_FIELD_NUMBER) {
        return Stopped(MalformedWire, st);
      }
      assert rest[LenientField(rest).used..] == payload[reader.pos..];
      var f := field.value;
      var d := Descriptor(schema, f.number);
      var stamped := Stamped(d, f.value, common, st);
      var one;
      if IsPacked(f, d) {
        one := ScanPackedArray(d.value, f.value.bytes, stamped);
      } else if !IsMessage(f, d) {
        one := Clear(stamped.(left := stamped.left - 1));
      } else if depth >= MAX_NORMALIZATION_DEPTH {
        one := Stopped(DepthLimit, stamped.(left := stamped.left - 1));
      } else {
        var opens := OpensCommon(d, depth, stamped);
        var nested := ScanObject(reg, f.value.bytes, reg.ByName(d.value.kind.name), depth + 1, opens,
                                 Scan(stamped.left - 1, stamped.stamp, false, false));
        one := Return(stamped, opens, nested);
      }
      assert one == ScanOne(reg, schema, depth, f, common, st);
      if one.Stopped? {
        return one;
      }
      st := one.st;
    }
    return Clear(st);
  }

  // ----- The timestamp

  /** The first field a reader would call `common`: so named, and a message on the wire. */
  function FirstCommon(schema: Option<MessageSchema>, fs: seq<Field>): (f: Option<Field>)
    ensures f.Some? ==> IsMessage(f.value, Descriptor(schema, f.value.number))
  {
    if fs == [] then None
    else
      var d := Descriptor(schema, fs[0].number);
      if Named(d, "common") && IsMessage(fs[0], d) then Some(fs[0]) else FirstCommon(schema, fs[1..])
  }

  /** The wire value of the first `create_time`; `missing` when there is none. */
  function FirstStamp(schema: Option<MessageSchema>, fs: seq<Field>, missing: Option<u64>): Option<u64> {
    if fs == [] then missing
    else if Named(Descriptor(schema, fs[0].number), "create_time") then fs[0].value.AsU64()
    else FirstStamp(schema, fs[1..], missing)
  }

  function StampOf(
    reg: Registry, schema: Option<MessageSchema>, payload: seq<byte>, missing: Option<u64>): Option<u64>
  {
    var common := FirstCommon(schema, ReadAll(payload).fields);
    if common.None? then missing
    else
      var d := Descriptor(schema, common.value.number);
      FirstStamp(reg.ByName(d.value.kind.name), ReadAll(common.value.value.bytes).fields, missing)
  }

  /** Below the top level, only a `common` message's own fields move the timestamp, and only once. */
  lemma {:induction false} NestedStamp(
    reg: Registry, schema: Option<MessageSchema>, depth: nat, s: seq<byte>, common: bool, st: Scan)
    requires depth > 0 && ScanFields(reg, schema, depth, s, common, st).Clear?
    ensures ScanFields(reg, schema, depth, s, common, st).st.stamp ==
            if common && !st.seenStamp then FirstStamp(schema, ReadAll(s).fields, st.stamp) else st.stamp
    decreases |s|
  {
    hide LenientField;
    if s != [] {
      var r := LenientField(s);
      var f := r.value;
      var d := Descriptor(schema, f.number);
      var st1 := Stamped(d, f.value, common, st);
      if !IsPacked(f, d) && IsMessage(f, d) {
        NestedStamp(reg, reg.ByName(d.value.kind.name), depth + 1, f.value.bytes, false,
                    Scan(st1.left - 1, st1.stamp, false, false));
      }
      var after := ScanOne(reg, schema, depth, f, common, st).st;
      assert after.stamp == st1.stamp && after.seenStamp == st1.seenStamp;
      NestedStamp(reg, schema, depth, s[r.used..], common, after);
    }
  }

  /** A clear scan of an event extracts `create_time` from its first `common`, and nothing else. */
  lemma {:induction false} TopStamp(reg: Registry, schema: Option<MessageSchema>, s: seq<byte>, st: Scan)
    requires ScanFields(reg, schema, 0, s, false, st).Clear?
    ensures ScanFields(reg, schema, 0, s, false, st).st.stamp ==
            if st.seenCommon then st.stamp else StampOf(reg, schema, s, st.stamp)
    decreases |s|
  {
    hide LenientField;
    if s != [] {
      var r := LenientField(s);
      var f := r.value;
      var d := Descriptor(schema, f.number);
      if !IsPacked(f, d) && IsMessage(f, d) {
        NestedStamp(reg, reg.ByName(d.value.kind.name), 1, f.value.bytes, OpensCommon(d, 0, st),
                    Scan(st.left - 1, st.stamp, false, false));
      }
      var after := ScanOne(reg, schema, 0, f, false, st).st;
      TopStamp(reg, schema, s[r.used..], after);
    }
  }

  // ----- One event

  datatype Verdict = Verdict(issue: Option<Status>, stamp: Option<u64>, left: nat)

  /** `preflight_event`: a limit hit with less than a full allowance is the batch's, not the event's. */
  function PreflightEvent(reg: Registry, name: Str, payload: seq<byte>, budget: nat): (v: Verdict)
    ensures v.left <= budget
  {
    var allowance := Min(budget, MAX_SCHEMA_FIELDS);
    var r := ScanFields(reg, reg.ForMethod(name), 0, payload, false, Scan(allowance, None, false, false));
    var issue :=
      if r.Clear? then None
      else if r.issue == FieldLimit && allowance < MAX_SCHEMA_FIELDS then Some(BatchFieldLimit)
      else Some(r.issue);
    Verdict(issue, r.st.stamp, budget - (allowance - r.st.left))
  }

  method Preflight(reg: Registry, name: Str, payload: seq<byte>, budget: nat) returns (v: Verdict)
    ensures v == PreflightEvent(reg, name, payload, budget)
  {
    hide ScanFields;
    var allowance := Min(budget, MAX_SCHEMA_FIELDS);
    var r := ScanObject(reg, payload, reg.ForMethod(name), 0, false, Scan(allowance, None, false, false));
    var issue := if r.Clear? then None else Some(r.issue);
    if issue == Some(FieldLimit) && allowance < MAX_SCHEMA_FIELDS {
      issue := Some(BatchFieldLimit);
    }
    v := Verdict(issue, r.st.stamp, budget - (allowance - r.st.left));
  }

  /**
   * An event whose tree is complete and undamaged passes preflight at the same cost, and carries
   * the create time of its first `common`.
   */
  lemma EventAgreement(reg: Registry, name: Str, payload: seq<byte>, budget: nat)
    requires var m := DecodeEvent(reg, name, payload, budget).0; !m.truncated && !m.warning
    ensures PreflightEvent(reg, name, payload, budget)
         == Verdict(None, StampOf(reg, reg.ForMethod(name), payload, None), DecodeEvent(reg, name, payload, budget).1)
  {
    hide DecodeFields, ScanFields;
    assert Clip(payload) == payload;
    var st := Scan(Min(budget, MAX_SCHEMA_FIELDS), None, false, false);
    ScanAgrees(reg, reg.ForMethod(name), 0, payload, false, st);
    TopStamp(reg, reg.ForMethod(name), payload, st);
  }

  /** Only these reasons stop a walk, so no issue is ever mistaken for a normalisation outcome. */
  lemma {:induction false} ScanIssues(
    reg: Registry, schema: Option<MessageSchema>, depth: nat, s: seq<byte>, common: bool, st: Scan)
    requires ScanFields(reg, schema, depth, s, common, st).Stopped?
    ensures ScanFields(reg, schema, depth, s, common, st).issue in {MalformedWire, FieldLimit, DepthLimit}
    decreases |s|
  {
    hide LenientField;
    var r := LenientField(s);
    if s != [] && st.left > 0 && r.Got? && 0 < r.value.number <= MAX_FIELD_NUMBER {
      var f := r.value;
      var d := Descriptor(schema, f.number);
      var st1 := Stamped(d, f.value, common, st);
      var one := ScanOne(reg, schema, depth, f, common, st);
      if one.Clear? {
        ScanIssues(reg, schema, depth, s[r.used..], common, one.st);
      } else if IsPacked(f, d) {
        PackedIssues(d.value.PackedWire(), f.value.bytes, st1.left);
      } else if depth < MAX_NORMALIZATION_DEPTH {
        ScanIssues(reg, reg.ByName(d.value.kind.name), depth + 1, f.value.bytes, OpensCommon(d, depth, st1),
                   Scan(st1.left - 1, st1.stamp, false, false));
      }
    }
  }

  lemma {:induction false} PackedIssues(wire: nat, b: seq<byte>, left: nat)
    ensures ScanPacked(wire, b, left).0 in {None, Some(MalformedWire), Some(FieldLimit)}
    decreases |b|
  {
    var r := ReadValue(true, wire, b);
    if b != [] && left > 0 && r.Got? {
      PackedIssues(wire, b[r.used..], left - 1);
    }
  }
}
