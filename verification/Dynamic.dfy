/** Bounded, descriptor-driven decoding of one event payload. */
module Dynamic {
  import opened Bytes
  import opened Utf8
  import opened Wire
  import opened WireReaders
  import opened Schema

  const MAX_SCHEMA_DEPTH: nat := 8
  const MAX_SCHEMA_FIELDS: nat := 4096
  const MAX_EVENT_BYTES: nat := 4 * 1024 * 1024

  /** What decoding a stretch of wire adds: fields, the two flags, and the budget it leaves. */
  datatype Outcome = Outcome(fields: seq<SchemaField>, warning: bool, truncated: bool, left: nat)

  function Join(a: Outcome, b: Outcome): (o: Outcome)
    ensures o.left == b.left
  {
    Outcome(a.fields + b.fields, a.warning || b.warning, a.truncated || b.truncated, b.left)
  }

  function PackedElement(reg: Registry, d: FieldSchema, number: u32, v: WireValue, left: nat): (o: Outcome)
    ensures o.left == left && |o.fields| == 1
  {
    var (value, w) := Scalar(reg, v, Some(d));
    Outcome([SchemaField(number, Some(d), value, 2, w)], w, false, left)
  }

  /** A packed array: every element costs one field of the budget. */
  function DecodePacked(reg: Registry, d: FieldSchema, number: u32, b: seq<byte>, left: nat): (o: Outcome)
    ensures o.left <= left
  {
    if b == [] || left == 0 then Outcome([], false, b != [], left)
    else
      match ReadValue(true, d.PackedWire(), b)
      case Failed(_, used) =>
        Outcome([SchemaField(number, Some(d), STruncated(b), 2, true)], true, used < |b|, left - 1)
      case Got(v, used) =>
        Join(PackedElement(reg, d, number, v, left - 1),
             DecodePacked(reg, d, number, b[used..], left - 1))
  }

  /** A length-delimited value declared as a packed numeric array. */
  predicate IsPacked(f: Field, d: Option<FieldSchema>) {
    f.value.LengthDelimited? && d.Some? && d.value.Packable()
  }

  /** A length-delimited value declared as a nested message. */
  predicate IsMessage(f: Field, d: Option<FieldSchema>) {
    f.value.LengthDelimited? && d.Some? && d.value.kind.KMessage?
  }

  function Single(f: Field, d: Option<FieldSchema>, v: SchemaValue, w: bool, truncated: bool, left: nat): Outcome {
    Outcome([SchemaField(f.number, d, v, f.wire, w)], w, truncated, left)
  }

  /** A field that needs no further decoding, including a message that a limit keeps closed. */
  function DecodePlain(reg: Registry, f: Field, d: Option<FieldSchema>, left: nat): (o: Outcome)
    ensures o.left == left && |o.fields| == 1
    ensures IsMessage(f, d) ==> o.truncated
  {
    if !f.value.LengthDelimited? then
      var (value, w) := Scalar(reg, f.value, d);
      Single(f, d, value, w, false, left)
    else if d.None? || d.value.kind.KBytes? then Single(f, d, SBytes(f.value.bytes), false, false, left)
    else if d.value.kind.KString? && IsUtf8(f.value.bytes) then
      Single(f, d, SText(f.value.bytes), false, false, left)
    else if d.value.kind.KMessage? then Single(f, d, STruncated(f.value.bytes), false, true, left)
    else Single(f, d, SBytes(f.value.bytes), true, false, left)
  }

  /** A nested message: kept as bytes when its decode warned. */
  function Nest(f: Field, d: Option<FieldSchema>, sub: Option<MessageSchema>, nested: Outcome): (o: Outcome)
    requires f.value.LengthDelimited?
    ensures o.left == nested.left && o.warning == nested.warning
    ensures !nested.warning ==> o.truncated == nested.truncated
  {
    if nested.warning then Single(f, d, SBytes(f.value.bytes), true, false, nested.left)
    else
      var message := SchemaObject(sub, nested.fields, nested.truncated, false);
      Single(f, d, SMessage(message), false, nested.truncated, nested.left)
  }

  /** One field, already read, with `left > 0` in hand. */
  function DecodeOne(reg: Registry, schema: Option<MessageSchema>, depth: nat, f: Field, left: nat): (o: Outcome)
    requires left > 0
    ensures o.left <= left
    decreases f.value.Size(), 1
  {
    var d := Descriptor(schema, f.number);
    if IsPacked(f, d) then DecodePacked(reg, d.value, f.number, f.value.bytes, left)
    else if IsMessage(f, d) && depth < MAX_SCHEMA_DEPTH && left > 1 then
      var sub := reg.ByName(d.value.kind.name);
      Nest(f, d, sub, DecodeFields(reg, sub, depth + 1, f.value.bytes, left - 1))
    else DecodePlain(reg, f, d, left - 1)
  }

  /** The fields of the message whose unread bytes are `s`. */
  function DecodeFields(reg: Registry, schema: Option<MessageSchema>, depth: nat, s: seq<byte>, left: nat): (o: Outcome)
    ensures o.left <= left
    decreases |s|, 0
  {
    if s == [] || left == 0 then Outcome([], false, s != [], left)
    else
      match StrictField(s)
      case BadTag => Outcome([], true, true, left)
      case BadValue(number, wire) =>
        var d := Descriptor(schema, number);
        Outcome([SchemaField(number, d, STruncated(s), wire, true)], true, true, left)
      case Good(f, used) =>
        var here := DecodeOne(reg, schema, depth, f, left);
        Join(here, DecodeFields(reg, schema, depth, s[used..], here.left))
  }

  // ----- The loops of the decoder

  lemma JoinAssociates(a: Outcome, b: Outcome, c: Outcome)
    ensures Join(Join(a, b), c) == Join(a, Join(b, c))
  {
    assert a.fields + b.fields + c.fields == a.fields + (b.fields + c.fields);
  }

  lemma JoinStarts(n: nat, a: Outcome)
    ensures Join(Outcome([], false, false, n), a) == a
  {
    assert [] + a.fields == a.fields;
  }

  lemma PackedStep(reg: Registry, d: FieldSchema, number: u32, b: seq<byte>, acc: Outcome)
    requires b != [] && acc.left > 0
    ensures var all := Join(acc, DecodePacked(reg, d, number, b, acc.left));
            var r := ReadValue(true, d.PackedWire(), b);
            && (r.Failed? ==>
                  var broken := SchemaField(number, Some(d), STruncated(b), 2, true);
                  all == Join(acc, Outcome([broken], true, r.used < |b|, acc.left - 1)))
            && (r.Got? ==>
                  var next := Join(acc, PackedElement(reg, d, number, r.value, acc.left - 1));
                  all == Join(next, DecodePacked(reg, d, number, b[r.used..], acc.left - 1)))
  {
    var r := ReadValue(true, d.PackedWire(), b);
    if r.Got? {
      JoinAssociates(acc, PackedElement(reg, d, number, r.value, acc.left - 1),
                     DecodePacked(reg, d, number, b[r.used..], acc.left - 1));
    }
  }

  lemma PackedEnd(reg: Registry, d: FieldSchema, number: u32, b: seq<byte>, left: nat)
    requires b == [] || left == 0
    ensures DecodePacked(reg, d, number, b, left) == Outcome([], false, b != [], left)
  {
  }

  method DecodePackedArray(reg: Registry, d: FieldSchema, number: u32, b: seq<byte>, budget: nat) returns (o: Outcome)
    ensures o == DecodePacked(reg, d, number, b, budget)
  {
    hide ReadValue, PackedElement, DecodePacked, Join;
    var p := new Cursor(b);
    o := Outcome([], false, false, budget);
    JoinStarts(budget, DecodePacked(reg, d, number, b, budget));
    assert b[0..] == b;
    while p.pos < |b| && o.left > 0
      invariant p.Valid() && p.bytes == b
      invariant Join(o, DecodePacked(reg, d, number, b[p.pos..], o.left)) == DecodePacked(reg, d, number, b, budget)
      decreases |b| - p.pos
    {
      var at := p.pos;
      PackedStep(reg, d, number, b[at..], o);
      var next := p.Value(d.PackedWire());
      if next.Err? {
        var broken := SchemaField(number, Some(d), STruncated(b[at..]), 2, true);
        o := Join(o, Outcome([broken], true, p.pos < |b|, o.left - 1));
        return;
      }
      assert b[at..][p.pos - at..] == b[p.pos..];
      o := Join(o, PackedElement(reg, d, number, next.value, o.left - 1));
    }
    PackedEnd(reg, d, number, b[p.pos..], o.left);
    o := Join(o, Outcome([], false, p.pos < |b|, o.left));
  }

  lemma FieldsStep(reg: Registry, schema: Option<MessageSchema>, depth: nat, s: seq<byte>, acc: Outcome)
    requires s != [] && acc.left > 0
    ensures var all := Join(acc, DecodeFields(reg, schema, depth, s, acc.left));
            var r := StrictField(s);
            && (r.BadTag? ==> all == Join(acc, Outcome([], true, true, acc.left)))
            && (r.BadValue? ==>
                  var d := Descriptor(schema, r.number);
                  var broken := SchemaField(r.number, d, STruncated(s), r.wire, true);
                  all == Join(acc, Outcome([broken], true, true, acc.left)))
            && (r.Good? ==>
                  var here := DecodeOne(reg, schema, depth, r.field, acc.left);
                  all == Join(Join(acc, here), DecodeFields(reg, schema, depth, s[r.used..], here.left)))
  {
    var r := StrictField(s);
    if r.Good? {
      var here := DecodeOne(reg, schema, depth, r.field, acc.left);
      JoinAssociates(acc, here, DecodeFields(reg, schema, depth, s[r.used..], here.left));
    }
  }

  /** The tag and the value at the cursor. */
  method NextStrict(c: Cursor) returns (r: StrictRead)
    requires c.Valid()
    modifies c`pos
    ensures c.Valid()
    ensures r == StrictField(c.bytes[old(c.pos)..])
    ensures r.Good? ==> c.pos == old(c.pos) + r.used
  {
    var start := c.pos;
    var tag := c.Varint();
    if tag.Err? || !(0 < tag.value / 8 <= MAX_FIELD_NUMBER) {
      return BadTag;
    }
    assert c.bytes[start..][c.pos - start..] == c.bytes[c.pos..];
    var raw := c.Value(tag.value % 8);
    if raw.Err? {
      return BadValue(tag.value / 8, tag.value % 8);
    }
    return Good(Field(tag.value / 8, tag.value % 8, raw.value), c.pos - start);
  }

  lemma FieldsEnd(reg: Registry, schema: Option<MessageSchema>, depth: nat, s: seq<byte>, left: nat)
    requires s == [] || left == 0
    ensures DecodeFields(reg, schema, depth, s, left) == Outcome([], false, s != [], left)
  {
  }

  /** `decode_object`: its fields and flags, with the budget it hands back. */
  method DecodeObject(reg: Registry, payload: seq<byte>, schema: Option<MessageSchema>, depth: nat, budget: nat)
    returns (o: Outcome)
    ensures o == DecodeFields(reg, schema, depth, payload, budget)
    decreases |payload|
  {
    hide StrictField, DecodePlain, DecodePacked, DecodeFields, Join, Nest, Descriptor;
    var c := new Cursor(payload);
    o := Outcome([], false, false, budget);
    JoinStarts(budget, DecodeFields(reg, schema, depth, payload, budget));
    assert payload[0..] == payload;
    while c.pos < |payload| && o.left > 0
      invariant c.Valid() && c.bytes == payload
      invariant Join(o, DecodeFields(reg, schema, depth, payload[c.pos..], o.left))
             == DecodeFields(reg, schema, depth, payload, budget)
      decreases |payload| - c.pos
    {
      var start := c.pos;
      FieldsStep(reg, schema, depth, payload[start..], o);
      var next := NextStrict(c);
      if next.BadTag? {
        o := Join(o, Outcome([], true, true, o.left));
        return;
      }
      if next.BadValue? {
        var d := Descriptor(schema, next.number);
        var broken := SchemaField(next.number, d, STruncated(payload[start..]), next.wire, true);
        o := Join(o, Outcome([broken], true, true, o.left));
        return;
      }
      var f := next.field;
      assert payload[start..][next.used..] == payload[c.pos..];
      var d := Descriptor(schema, f.number);
      var here;
      if IsPacked(f, d) {
        here := DecodePackedArray(reg, d.value, f.number, f.value.bytes, o.left);
      } else if IsMessage(f, d) && depth < MAX_SCHEMA_DEPTH && o.left > 1 {
        var sub := reg.ByName(d.value.kind.name);
        var nested := DecodeObject(reg, f.value.bytes, sub, depth + 1, o.left - 1);
        here := Nest(f, d, sub, nested);
      } else {
        here := DecodePlain(reg, f, d, o.left - 1);
      }
      o := Join(o, here);
    }
    FieldsEnd(reg, schema, depth, payload[c.pos..], o.left);
    o := Join(o, Outcome([], false, c.pos < |payload|, o.left));
  }

  // ----- Bounds

  /** Field nodes in a tree, nested ones included. */
  function Nodes(fields: seq<SchemaField>): nat {
    if fields == [] then 0 else FieldNodes(fields[0]) + 1 + Nodes(fields[1..])
  }

  function FieldNodes(f: SchemaField): nat {
    match f.value
    case SMessage(o) => Nodes(o.fields)
    case _ => 0
  }

  /** Object levels below a list of fields. */
  function Levels(fields: seq<SchemaField>): nat {
    if fields == [] then 0 else Max(FieldLevels(fields[0]), Levels(fields[1..]))
  }

  function FieldLevels(f: SchemaField): nat {
    match f.value
    case SMessage(o) => 1 + Levels(o.fields)
    case _ => 0
  }

  /** Bytes owned by the leaves of a tree. */
  function LeafBytes(fields: seq<SchemaField>): nat {
    if fields == [] then 0 else FieldBytes(fields[0]) + LeafBytes(fields[1..])
  }

  function FieldBytes(f: SchemaField): nat {
    match f.value
    case SText(b) => |b|
    case SBytes(b) => |b|
    case STruncated(b) => |b|
    case SMessage(o) => LeafBytes(o.fields)
    case _ => 0
  }

  lemma {:induction false} Measures(a: seq<SchemaField>, b: seq<SchemaField>)
    ensures Nodes(a + b) == Nodes(a) + Nodes(b)
    ensures Levels(a + b) == Max(Levels(a), Levels(b))
    ensures LeafBytes(a + b) == LeafBytes(a) + LeafBytes(b)
  {
    if a == [] {
      assert a + b == b;
    } else {
      Measures(a[1..], b);
      assert (a + b)[1..] == a[1..] + b;
    }
  }

  lemma One(f: SchemaField)
    ensures Nodes([f]) == 1 + FieldNodes(f)
    ensures Levels([f]) == FieldLevels(f)
    ensures LeafBytes([f]) == FieldBytes(f)
  {
    assert [f][1..] == [];
  }

  lemma NothingMeasured()
    ensures Nodes([]) == 0 && Levels([]) == 0 && LeafBytes([]) == 0
  {
  }

  lemma ScalarIsSmall(reg: Registry, raw: WireValue, d: Option<FieldSchema>, f: SchemaField)
    requires f.value == Scalar(reg, raw, d).0
    ensures FieldNodes(f) == 0 && FieldLevels(f) == 0 && FieldBytes(f) <= raw.Size()
  {
  }

  lemma {:induction false} PackedBounds(reg: Registry, d: FieldSchema, number: u32, b: seq<byte>, left: nat)
    ensures var o := DecodePacked(reg, d, number, b, left);
            && Nodes(o.fields) <= left - o.left
            && Levels(o.fields) == 0
            && LeafBytes(o.fields) <= |b|
    decreases |b|
  {
    if b != [] && left != 0 {
      match ReadValue(true, d.PackedWire(), b)
      case Failed(_, _) =>
        One(SchemaField(number, Some(d), STruncated(b), 2, true));
      case Got(v, used) =>
        var f := PackedElement(reg, d, number, v, left - 1).fields[0];
        One(f);
        ScalarIsSmall(reg, v, Some(d), f);
        PackedBounds(reg, d, number, b[used..], left - 1);
        Measures([f], DecodePacked(reg, d, number, b[used..], left - 1).fields);
    }
  }

  lemma PlainBounds(reg: Registry, f: Field, d: Option<FieldSchema>, left: nat)
    ensures var o := DecodePlain(reg, f, d, left);
            && o.left == left
            && Nodes(o.fields) == 1 && Levels(o.fields) == 0 && LeafBytes(o.fields) <= f.value.Size()
  {
    var o := DecodePlain(reg, f, d, left);
    One(o.fields[0]);
    if !f.value.LengthDelimited? {
      ScalarIsSmall(reg, f.value, d, o.fields[0]);
    }
  }

  lemma NestBounds(f: Field, d: Option<FieldSchema>, sub: Option<MessageSchema>, nested: Outcome)
    requires f.value.LengthDelimited?
    ensures var o := Nest(f, d, sub, nested);
            && o.left == nested.left
            && Nodes(o.fields) <= 1 + (if nested.warning then 0 else Nodes(nested.fields))
            && Levels(o.fields) <= 1 + Levels(nested.fields)
            && LeafBytes(o.fields) <= Max(|f.value.bytes|, LeafBytes(nested.fields))
  {
    One(Nest(f, d, sub, nested).fields[0]);
  }

  /** A field is charged for every node it adds, and owns no byte it was not given. */
  lemma {:induction false} OneBounds(reg: Registry, schema: Option<MessageSchema>, depth: nat, f: Field, left: nat)
    requires left > 0 && depth <= MAX_SCHEMA_DEPTH
    ensures var o := DecodeOne(reg, schema, depth, f, left);
            && Nodes(o.fields) <= left - o.left
            && Levels(o.fields) <= MAX_SCHEMA_DEPTH - depth
            && LeafBytes(o.fields) <= f.value.Size()
    decreases f.value.Size(), 1
  {
    hide DecodePlain, DecodePacked, Nest, DecodeFields, Nodes, Levels, LeafBytes, Descriptor;
    var d := Descriptor(schema, f.number);
    if IsPacked(f, d) {
      PackedBounds(reg, d.value, f.number, f.value.bytes, left);
    } else if IsMessage(f, d) && depth < MAX_SCHEMA_DEPTH && left > 1 {
      var sub := reg.ByName(d.value.kind.name);
      FieldsBounds(reg, sub, depth + 1, f.value.bytes, left - 1);
      NestBounds(f, d, sub, DecodeFields(reg, sub, depth + 1, f.value.bytes, left - 1));
    } else {
      PlainBounds(reg, f, d, left - 1);
    }
  }

  /**
   * Every decode, of any bytes under any schema: the budget never underflows, the nodes are paid
   * for except for the one that records damage, and depth and bytes are bounded.
   */
  lemma {:induction false} FieldsBounds(
    reg: Registry, schema: Option<MessageSchema>, depth: nat, s: seq<byte>, left: nat)
    requires depth <= MAX_SCHEMA_DEPTH
    ensures var o := DecodeFields(reg, schema, depth, s, left);
            && Nodes(o.fields) <= left - o.left + (if o.warning then 1 else 0)
            && (!o.warning ==> Nodes(o.fields) == left - o.left)
            && Nodes(o.fields) <= left
            && Levels(o.fields) <= MAX_SCHEMA_DEPTH - depth
            && LeafBytes(o.fields) <= |s|
    decreases |s|, 0
  {
    hide DecodeOne, Nodes, Levels, LeafBytes, Descriptor, StrictField, EndsUnread, Lost;
    NothingMeasured();
    FieldsCost(reg, schema, depth, s, left);
    if s != [] && left != 0 {
      match StrictField(s)
      case BadTag =>
      case BadValue(number, wire) =>
        One(SchemaField(number, Descriptor(schema, number), STruncated(s), wire, true));
      case Good(f, used) =>
        var here := DecodeOne(reg, schema, depth, f, left);
        OneBounds(reg, schema, depth, f, left);
        FieldsBounds(reg, schema, depth, s[used..], here.left);
        Measures(here.fields, DecodeFields(reg, schema, depth, s[used..], here.left).fields);
    }
  }

  // ----- What the nodes of a tree cost, exactly

  /** The walk, with budget left, meets a tag whose value cannot be read. */
  predicate EndsUnread(reg: Registry, schema: Option<MessageSchema>, depth: nat, s: seq<byte>, left: nat)
    decreases |s|
  {
    s != [] && left > 0 &&
    var r := StrictField(s);
    || r.BadValue?
    || (r.Good? && EndsUnread(reg, schema, depth, s[r.used..], DecodeOne(reg, schema, depth, r.field, left).left))
  }

  /** The field is a message that the decoder opens. */
  predicate Opens(schema: Option<MessageSchema>, depth: nat, f: Field, left: nat) {
    var d := Descriptor(schema, f.number);
    !IsPacked(f, d) && IsMessage(f, d) && depth < MAX_SCHEMA_DEPTH && left > 1
  }

  /** Budget taken by a field's nested messages that were then kept as bytes. */
  function LostIn(reg: Registry, schema: Option<MessageSchema>, depth: nat, f: Field, left: nat): nat
    requires left > 0
    decreases f.value.Size(), 1
  {
    if !Opens(schema, depth, f, left) then 0
    else
      var sub := reg.ByName(Descriptor(schema, f.number).value.kind.name);
      var nested := DecodeFields(reg, sub, depth + 1, f.value.bytes, left - 1);
      if nested.warning then left - 1 - nested.left else Lost(reg, sub, depth + 1, f.value.bytes, left - 1)
  }

  function Lost(reg: Registry, schema: Option<MessageSchema>, depth: nat, s: seq<byte>, left: nat): nat
    decreases |s|, 0
  {
    if s == [] || left == 0 || !StrictField(s).Good? then 0
    else
      var r := StrictField(s);
      LostIn(reg, schema, depth, r.field, left) +
      Lost(reg, schema, depth, s[r.used..], DecodeOne(reg, schema, depth, r.field, left).left)
  }

  lemma {:induction false} PackedCost(reg: Registry, d: FieldSchema, number: u32, b: seq<byte>, left: nat)
    ensures var o := DecodePacked(reg, d, number, b, left); Nodes(o.fields) == left - o.left
    decreases |b|
  {
    hide ReadValue, Nodes, Scalar;
    NothingMeasured();
    if b != [] && left != 0 {
      var r := ReadValue(true, d.PackedWire(), b);
      if r.Failed? {
        One(SchemaField(number, Some(d), STruncated(b), 2, true));
      } else {
        var f := PackedElement(reg, d, number, r.value, left - 1).fields[0];
        One(f);
        ScalarIsSmall(reg, r.value, Some(d), f);
        PackedCost(reg, d, number, b[r.used..], left - 1);
        Measures([f], DecodePacked(reg, d, number, b[r.used..], left - 1).fields);
      }
    }
  }

  lemma NestCost(f: Field, d: Option<FieldSchema>, sub: Option<MessageSchema>, nested: Outcome)
    requires f.value.LengthDelimited?
    ensures Nodes(Nest(f, d, sub, nested).fields) == 1 + if nested.warning then 0 else Nodes(nested.fields)
  {
    One(Nest(f, d, sub, nested).fields[0]);
  }

  /** A field is charged for every node it adds and for what was lost below it. */
  lemma {:induction false} OneCost(reg: Registry, schema: Option<MessageSchema>, depth: nat, f: Field, left: nat)
    requires left > 0
    ensures var o := DecodeOne(reg, schema, depth, f, left);
            && Nodes(o.fields) + LostIn(reg, schema, depth, f, left) == left - o.left
            && (!o.warning ==> LostIn(reg, schema, depth, f, left) == 0)
    decreases f.value.Size(), 1
  {
    hide DecodePlain, DecodePacked, Nest, DecodeFields, Lost, EndsUnread, Nodes, Descriptor;
    var d := Descriptor(schema, f.number);
    if IsPacked(f, d) {
      PackedCost(reg, d.value, f.number, f.value.bytes, left);
    } else if Opens(schema, depth, f, left) {
      var sub := reg.ByName(d.value.kind.name);
      FieldsCost(reg, sub, depth + 1, f.value.bytes, left - 1);
      NestCost(f, d, sub, DecodeFields(reg, sub, depth + 1, f.value.bytes, left - 1));
    } else {
      PlainBounds(reg, f, d, left - 1);
    }
  }

  /**
   * Every decode: the nodes, and what was spent on nested messages kept as bytes, are exactly the
   * budget consumed, plus one node if the walk ended on a value it could not read.
   */
  lemma {:induction false} FieldsCost(
    reg: Registry, schema: Option<MessageSchema>, depth: nat, s: seq<byte>, left: nat)
    ensures var o := DecodeFields(reg, schema, depth, s, left);
            var unread := EndsUnread(reg, schema, depth, s, left);
            && Nodes(o.fields) + Lost(reg, schema, depth, s, left) == left - o.left + (if unread then 1 else 0)
            && (!o.warning ==> !unread && Lost(reg, schema, depth, s, left) == 0)
    decreases |s|, 0
  {
    hide DecodeOne, LostIn, Nodes, Descriptor, StrictField;
    NothingMeasured();
    if s != [] && left != 0 {
      var r := StrictField(s);
      if r.BadValue? {
        One(SchemaField(r.number, Descriptor(schema, r.number), STruncated(s), r.wire, true));
      } else if r.Good? {
        var here := DecodeOne(reg, schema, depth, r.field, left);
        OneCost(reg, schema, depth, r.field, left);
        FieldsCost(reg, schema, depth, s[r.used..], here.left);
        Measures(here.fields, DecodeFields(reg, schema, depth, s[r.used..], here.left).fields);
      }
    }
  }

  /** A tree holds more nodes than it was charged for exactly when its walk ends unread and lost nothing. */
  lemma UnpaidIff(reg: Registry, schema: Option<MessageSchema>, depth: nat, s: seq<byte>, left: nat)
    ensures var o := DecodeFields(reg, schema, depth, s, left);
            && (Nodes(o.fields) > left - o.left <==>
                  EndsUnread(reg, schema, depth, s, left) && Lost(reg, schema, depth, s, left) == 0)
            && (!o.warning ==> Nodes(o.fields) == left - o.left)
  {
    hide DecodeFields, EndsUnread, Lost, Nodes;
    FieldsCost(reg, schema, depth, s, left);
  }

  /** A tag without its value does: one node, and the whole budget left. */
  lemma DamageIsUnpaid(reg: Registry)
    ensures var o := DecodeFields(reg, None, 0, [8], 1);
            o.warning && o.left == 1 && Nodes(o.fields) == 1
  {
    assert StrictField([8]) == BadValue(1, 0) by {
      assert ReadVarint(true, [8]) == Got(8, 1);
      assert ReadValue(true, 0, [8][1..]).Failed?;
    }
    One(SchemaField(1, None, STruncated([8]), 0, true));
  }

  // ----- One event

  datatype SchemaMessage = SchemaMessage(
    method_: Str, schema: Option<MessageSchema>, fields: seq<SchemaField>, truncated: bool, warning: bool)

  function Clip(payload: seq<byte>): (clipped: seq<byte>)
    ensures |clipped| <= MAX_EVENT_BYTES && clipped <= payload
  {
    payload[..Min(|payload|, MAX_EVENT_BYTES)]
  }

  /** `decode_webcast_message_budget`: the message, and what is left of the batch budget. */
  function DecodeEvent(reg: Registry, name: Str, payload: seq<byte>, budget: nat): (r: (SchemaMessage, nat))
    ensures r.1 <= budget
  {
    var schema := reg.ForMethod(name);
    var allowance := Min(budget, MAX_SCHEMA_FIELDS);
    var o := DecodeFields(reg, schema, 0, Clip(payload), allowance);
    (SchemaMessage(name, schema, o.fields, o.truncated || |payload| > MAX_EVENT_BYTES, o.warning),
     budget - (allowance - o.left))
  }

  /** One event's tree, against the budget it was given and the budget it took. */
  lemma EventBounds(reg: Registry, name: Str, payload: seq<byte>, budget: nat)
    ensures var (m, left) := DecodeEvent(reg, name, payload, budget);
            && Nodes(m.fields) <= budget - left + (if m.warning then 1 else 0)
            && Nodes(m.fields) <= Min(budget, MAX_SCHEMA_FIELDS)
            && Levels(m.fields) <= MAX_SCHEMA_DEPTH
            && LeafBytes(m.fields) <= Min(|payload|, MAX_EVENT_BYTES)
            && (!m.warning ==> Nodes(m.fields) == budget - left)
  {
    hide DecodeFields, Nodes, Levels, LeafBytes;
    FieldsCost(reg, reg.ForMethod(name), 0, Clip(payload), Min(budget, MAX_SCHEMA_FIELDS));
    FieldsBounds(reg, reg.ForMethod(name), 0, Clip(payload), Min(budget, MAX_SCHEMA_FIELDS));
  }

  method DecodeWebcastMessage(reg: Registry, name: Str, payload: seq<byte>, budget: nat)
    returns (m: SchemaMessage, left: nat)
    ensures (m, left) == DecodeEvent(reg, name, payload, budget)
  {
    hide DecodeFields;
    var schema := reg.ForMethod(name);
    var allowance := Min(budget, MAX_SCHEMA_FIELDS);
    var o := DecodeObject(reg, Clip(payload), schema, 0, allowance);
    left := budget - (allowance - o.left);
    m := SchemaMessage(name, schema, o.fields, o.truncated || |payload| > MAX_EVENT_BYTES, o.warning);
  }
}
