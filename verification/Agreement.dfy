/**
 * When the two walkers agree, exactly.
 *
 * A clean tree always passes preflight (`Preflight.ScanAgrees`). The other way round takes more: the
 * walker looks deeper, reads more leniently, and does not look at the type of a value.
 */
module Agreement {
  import opened Bytes
  import opened Utf8
  import opened Wire
  import opened WireWriter
  import opened Schema
  import opened Dynamic
  import opened Preflight

  // ----- What a field costs

  /** How many elements a packed array holds, up to the first that cannot be read. */
  function Elements(wire: nat, b: seq<byte>): nat {
    if b == [] then 0
    else
      var r := ReadValue(true, wire, b);
      if r.Failed? then 0 else 1 + Elements(wire, b[r.used..])
  }

  /** The fields of the budget that one wire field takes: its elements, or itself and what it nests. */
  function FieldUnits(reg: Registry, schema: Option<MessageSchema>, f: Field): nat
    decreases f.value.Size(), 1
  {
    var d := Descriptor(schema, f.number);
    if IsPacked(f, d) then Elements(d.value.PackedWire(), f.value.bytes)
    else if IsMessage(f, d) then 1 + Units(reg, reg.ByName(d.value.kind.name), f.value.bytes)
    else 1
  }

  function Units(reg: Registry, schema: Option<MessageSchema>, s: seq<byte>): nat
    decreases |s|, 0
  {
    if s == [] then 0
    else
      match LenientField(s)
      case Failed(_, _) => 0
      case Got(f, used) => FieldUnits(reg, schema, f) + Units(reg, schema, s[used..])
  }

  lemma {:induction false} PackedUnits(wire: nat, b: seq<byte>, left: nat)
    requires ScanPacked(wire, b, left).0.None?
    ensures ScanPacked(wire, b, left).1 == left - Elements(wire, b)
    decreases |b|
  {
    hide ReadValue;
    if b != [] {
      PackedUnits(wire, b[ReadValue(true, wire, b).used..], left - 1);
    }
  }

  lemma {:induction false} OneUnits(
    reg: Registry, schema: Option<MessageSchema>, depth: nat, f: Field, common: bool, st: Scan)
    requires st.left > 0 && ScanOne(reg, schema, depth, f, common, st).Clear?
    ensures ScanOne(reg, schema, depth, f, common, st).st.left == st.left - FieldUnits(reg, schema, f)
    decreases f.value.Size(), 1
  {
    hide ScanFields, Units, ScanPacked, Elements, Descriptor;
    var d := Descriptor(schema, f.number);
    var st1 := Stamped(d, f.value, common, st);
    if IsPacked(f, d) {
      PackedUnits(d.value.PackedWire(), f.value.bytes, st1.left);
    } else if IsMessage(f, d) {
      ScanUnits(reg, reg.ByName(d.value.kind.name), depth + 1, f.value.bytes, OpensCommon(d, depth, st1),
                Scan(st1.left - 1, st1.stamp, false, false));
    }
  }

  /** A clear scan charges exactly what the message costs, whatever the depth and the timestamp. */
  lemma {:induction false} ScanUnits(
    reg: Registry, schema: Option<MessageSchema>, depth: nat, s: seq<byte>, common: bool, st: Scan)
    requires ScanFields(reg, schema, depth, s, common, st).Clear?
    ensures ScanFields(reg, schema, depth, s, common, st).st.left == st.left - Units(reg, schema, s)
    decreases |s|, 0
  {
    hide LenientField, ScanOne, FieldUnits;
    if s != [] {
      var r := LenientField(s);
      OneUnits(reg, schema, depth, r.value, common, st);
      ScanUnits(reg, schema, depth, s[r.used..], common, ScanOne(reg, schema, depth, r.value, common, st).st);
    }
  }

  // ----- When the walk is clear

  /** Every element of a packed array can be read. */
  predicate Readable(wire: nat, b: seq<byte>) {
    b == [] || (ReadValue(true, wire, b).Got? && Readable(wire, b[ReadValue(true, wire, b).used..]))
  }

  /**
   * Every field, nested ones included, is met with a unit of budget left and is readable under a
   * legal number; its elements fit the budget; and messages nest no deeper than 100 levels.
   */
  predicate Walkable(reg: Registry, schema: Option<MessageSchema>, depth: nat, s: seq<byte>, left: int)
    decreases |s|
  {
    s == [] ||
    var r := LenientField(s);
    && left > 0 && r.Got? && 0 < r.value.number <= MAX_FIELD_NUMBER
    && var d := Descriptor(schema, r.value.number);
    && (IsPacked(r.value, d) ==>
          && Readable(d.value.PackedWire(), r.value.value.bytes)
          && Elements(d.value.PackedWire(), r.value.value.bytes) <= left)
    && (!IsPacked(r.value, d) && IsMessage(r.value, d) ==>
          && depth < MAX_NORMALIZATION_DEPTH
          && Walkable(reg, reg.ByName(d.value.kind.name), depth + 1, r.value.value.bytes, left - 1))
    && Walkable(reg, schema, depth, s[r.used..], left - FieldUnits(reg, schema, r.value))
  }

  lemma {:induction false} PackedClearIff(wire: nat, b: seq<byte>, left: nat)
    ensures ScanPacked(wire, b, left).0.None? <==> Readable(wire, b) && Elements(wire, b) <= left
    decreases |b|
  {
    hide ReadValue;
    if b != [] && left > 0 && ReadValue(true, wire, b).Got? {
      PackedClearIff(wire, b[ReadValue(true, wire, b).used..], left - 1);
    }
  }

  lemma {:induction false} OneClearIff(
    reg: Registry, schema: Option<MessageSchema>, depth: nat, f: Field, common: bool, st: Scan)
    requires st.left > 0
    ensures var d := Descriptor(schema, f.number);
            ScanOne(reg, schema, depth, f, common, st).Clear? <==>
              && (IsPacked(f, d) ==>
                    && Readable(d.value.PackedWire(), f.value.bytes)
                    && Elements(d.value.PackedWire(), f.value.bytes) <= st.left)
              && (!IsPacked(f, d) && IsMessage(f, d) ==>
                    && depth < MAX_NORMALIZATION_DEPTH
                    && Walkable(reg, reg.ByName(d.value.kind.name), depth + 1, f.value.bytes, st.left - 1))
    decreases f.value.Size(), 1
  {
    hide ScanFields, Walkable, ScanPacked, Elements, Readable, Descriptor;
    var d := Descriptor(schema, f.number);
    var st1 := Stamped(d, f.value, common, st);
    if IsPacked(f, d) {
      PackedClearIff(d.value.PackedWire(), f.value.bytes, st1.left);
    } else if IsMessage(f, d) && depth < MAX_NORMALIZATION_DEPTH {
      ClearIff(reg, reg.ByName(d.value.kind.name), depth + 1, f.value.bytes, OpensCommon(d, depth, st1),
               Scan(st1.left - 1, st1.stamp, false, false));
    }
  }

  /** The walker reports no issue exactly on these messages, whatever it is doing with the timestamp. */
  lemma {:induction false} ClearIff(
    reg: Registry, schema: Option<MessageSchema>, depth: nat, s: seq<byte>, common: bool, st: Scan)
    ensures ScanFields(reg, schema, depth, s, common, st).Clear? <==> Walkable(reg, schema, depth, s, st.left)
    decreases |s|, 0
  {
    hide LenientField, ScanOne, FieldUnits, Elements, Readable, Descriptor, IsPacked, IsMessage;
    var r := LenientField(s);
    if s != [] && st.left > 0 && r.Got? && 0 < r.value.number <= MAX_FIELD_NUMBER {
      OneClearIff(reg, schema, depth, r.value, common, st);
      var one := ScanOne(reg, schema, depth, r.value, common, st);
      if one.Clear? {
        OneUnits(reg, schema, depth, r.value, common, st);
        ClearIff(reg, schema, depth, s[r.used..], common, one.st);
      }
    }
  }

  // ----- Which issue is reported

  /** Of a packed array that cannot be walked: the budget ends first, or an element is unreadable. */
  function PackedObstacle(wire: nat, b: seq<byte>, left: int): Status {
    if Elements(wire, b) >= left then FieldLimit else MalformedWire
  }

  /**
   * The first thing, in the order of the wire, that stands in the way of the walk: a field met with
   * no budget left, one that cannot be read or has an illegal number, a packed array that breaks or
   * does not fit, or a message that nests too deep or holds an obstacle itself.
   */
  function Obstacle(reg: Registry, schema: Option<MessageSchema>, depth: nat, s: seq<byte>, left: int): Option<Status>
    decreases |s|
  {
    if s == [] then None
    else if left <= 0 then Some(FieldLimit)
    else
      var r := LenientField(s);
      if r.Failed? || !(0 < r.value.number <= MAX_FIELD_NUMBER) then Some(MalformedWire)
      else
        var f, d := r.value, Descriptor(schema, r.value.number);
        if IsPacked(f, d) && !(Readable(d.value.PackedWire(), f.value.bytes)
                               && Elements(d.value.PackedWire(), f.value.bytes) <= left) then
          Some(PackedObstacle(d.value.PackedWire(), f.value.bytes, left))
        else if !IsPacked(f, d) && IsMessage(f, d) && depth >= MAX_NORMALIZATION_DEPTH then Some(DepthLimit)
        else if !IsPacked(f, d) && IsMessage(f, d)
                && !Walkable(reg, reg.ByName(d.value.kind.name), depth + 1, f.value.bytes, left - 1) then
          Obstacle(reg, reg.ByName(d.value.kind.name), depth + 1, f.value.bytes, left - 1)
        else Obstacle(reg, schema, depth, s[r.used..], left - FieldUnits(reg, schema, f))
  }

  lemma {:induction false} PackedIssueIs(wire: nat, b: seq<byte>, left: nat)
    requires ScanPacked(wire, b, left).0.Some?
    ensures ScanPacked(wire, b, left).0 == Some(PackedObstacle(wire, b, left))
    decreases |b|
  {
    hide ReadValue;
    if left > 0 && ReadValue(true, wire, b).Got? {
      PackedIssueIs(wire, b[ReadValue(true, wire, b).used..], left - 1);
    }
  }

  lemma {:induction false} OneIssueIs(
    reg: Registry, schema: Option<MessageSchema>, depth: nat, f: Field, common: bool, st: Scan)
    requires st.left > 0 && ScanOne(reg, schema, depth, f, common, st).Stopped?
    ensures var d, issue := Descriptor(schema, f.number), ScanOne(reg, schema, depth, f, common, st).issue;
            if IsPacked(f, d) then issue == PackedObstacle(d.value.PackedWire(), f.value.bytes, st.left)
            else IsMessage(f, d) &&
                 if depth >= MAX_NORMALIZATION_DEPTH then issue == DepthLimit
                 else Some(issue) ==
                      Obstacle(reg, reg.ByName(d.value.kind.name), depth + 1, f.value.bytes, st.left - 1)
    decreases f.value.Size(), 1
  {
    hide ScanFields, ScanPacked, Elements, Obstacle, PackedObstacle, Descriptor;
    var d := Descriptor(schema, f.number);
    var st1 := Stamped(d, f.value, common, st);
    if IsPacked(f, d) {
      PackedIssueIs(d.value.PackedWire(), f.value.bytes, st1.left);
    } else if IsMessage(f, d) && depth < MAX_NORMALIZATION_DEPTH {
      IssueIs(reg, reg.ByName(d.value.kind.name), depth + 1, f.value.bytes, OpensCommon(d, depth, st1),
              Scan(st1.left - 1, st1.stamp, false, false));
    }
  }

  /** The walker reports the first obstacle, and none when there is none. */
  lemma {:induction false} IssueIs(
    reg: Registry, schema: Option<MessageSchema>, depth: nat, s: seq<byte>, common: bool, st: Scan)
    ensures var r := ScanFields(reg, schema, depth, s, common, st);
            Obstacle(reg, schema, depth, s, st.left) == if r.Clear? then None else Some(r.issue)
    decreases |s|, 0
  {
    hide LenientField, ScanOne, FieldUnits, Elements, Readable, Descriptor, IsPacked, IsMessage;
    hide Walkable, PackedObstacle;
    var r := LenientField(s);
    if s != [] && st.left > 0 && r.Got? && 0 < r.value.number <= MAX_FIELD_NUMBER {
      OneClearIff(reg, schema, depth, r.value, common, st);
      var one := ScanOne(reg, schema, depth, r.value, common, st);
      if one.Clear? {
        OneUnits(reg, schema, depth, r.value, common, st);
        IssueIs(reg, schema, depth, s[r.used..], common, one.st);
      } else {
        OneIssueIs(reg, schema, depth, r.value, common, st);
      }
    }
  }

  // ----- What keeps a field out of a clean tree

  /** The declared type is one that this wire type can carry. */
  predicate Fits(wire: nat, k: ValueKind) {
    || (wire == 0 && (k.VInt64? || k.VUint64? || k.VSint64? || k.VInt32? || k.VUint32? || k.VSint32?
                      || k.VBool? || k.VEnum?))
    || (wire == 1 && (k.VDouble? || k.VSfixed64? || k.VFixed64?))
    || (wire == 5 && (k.VFloat? || k.VSfixed32? || k.VFixed32?))
  }

  function WireOf(v: WireValue): nat {
    match v
    case Varint(_) => 0
    case Fixed64(_) => 1
    case LengthDelimited(_) => 2
    case Fixed32(_) => 5
  }

  lemma ScalarWarnsIff(reg: Registry, v: WireValue, d: Option<FieldSchema>)
    requires !v.LengthDelimited?
    ensures Scalar(reg, v, d).1 <==> d.Some? && !Fits(WireOf(v), d.value.valueKind)
  {
  }

  /**
   * A field that can stand in a clean tree: numbers of the declared type, text that is text, and
   * messages within the depth limit that are not met on the last field of the budget.
   */
  predicate Harmless(d: Option<FieldSchema>, depth: nat, f: Field, left: int) {
    if IsPacked(f, d) then f.value.bytes == [] || Fits(d.value.PackedWire(), d.value.valueKind)
    else if IsMessage(f, d) then depth < MAX_SCHEMA_DEPTH && left > 1
    else if f.value.LengthDelimited? then
      d.None? || d.value.kind.KBytes? || (d.value.kind.KString? && IsUtf8(f.value.bytes))
    else d.None? || Fits(WireOf(f.value), d.value.valueKind)
  }

  /** Every field, nested ones included, is plain on the wire and harmless where it stands. */
  predicate Flawless(reg: Registry, schema: Option<MessageSchema>, depth: nat, s: seq<byte>, left: int)
    decreases |s|
  {
    s == [] ||
    var r := LenientField(s);
    && r.Got? && PlainWire(s)
    && var d := Descriptor(schema, r.value.number);
    && Harmless(d, depth, r.value, left)
    && (!IsPacked(r.value, d) && IsMessage(r.value, d) ==>
          Flawless(reg, reg.ByName(d.value.kind.name), depth + 1, r.value.value.bytes, left - 1))
    && Flawless(reg, schema, depth, s[r.used..], left - FieldUnits(reg, schema, r.value))
  }

  lemma ElementReads(wire: nat, b: seq<byte>)
    requires wire in {0, 1, 5} && ReadValue(true, wire, b).Got?
    ensures WireOf(ReadValue(true, wire, b).value) == wire && !ReadValue(true, wire, b).value.LengthDelimited?
  {
    hide ReadVarint, LittleEndian32, LittleEndian64;
  }

  lemma {:induction false} PackedCleanIff(reg: Registry, d: FieldSchema, number: u32, b: seq<byte>, left: nat)
    requires ScanPacked(d.PackedWire(), b, left).0.None?
    ensures Clean(DecodePacked(reg, d, number, b, left)) <==> b == [] || Fits(d.PackedWire(), d.valueKind)
    decreases |b|
  {
    hide ReadValue, Scalar, Fits;
    if b != [] {
      var r := ReadValue(true, d.PackedWire(), b);
      PackedCleanIff(reg, d, number, b[r.used..], left - 1);
      ElementReads(d.PackedWire(), b);
      ScalarWarnsIff(reg, r.value, Some(d));
    }
  }

  lemma PlainCleanIff(reg: Registry, f: Field, d: Option<FieldSchema>, depth: nat, left: nat)
    requires !IsPacked(f, d) && !IsMessage(f, d)
    ensures Clean(DecodePlain(reg, f, d, left)) <==> Harmless(d, depth, f, left + 1)
  {
    hide Scalar, Fits, IsUtf8;
    if !f.value.LengthDelimited? {
      ScalarWarnsIff(reg, f.value, d);
    }
  }

  lemma {:induction false} OneCleanIff(
    reg: Registry, schema: Option<MessageSchema>, depth: nat, f: Field, common: bool, st: Scan)
    requires st.left > 0 && ScanOne(reg, schema, depth, f, common, st).Clear?
    ensures var d := Descriptor(schema, f.number);
            Clean(DecodeOne(reg, schema, depth, f, st.left)) <==>
              && Harmless(d, depth, f, st.left)
              && (!IsPacked(f, d) && IsMessage(f, d) ==>
                    Flawless(reg, reg.ByName(d.value.kind.name), depth + 1, f.value.bytes, st.left - 1))
    decreases f.value.Size(), 1
  {
    hide DecodeFields, ScanFields, DecodePacked, ScanPacked, DecodePlain, Nest, Return, Fits, Flawless;
    hide Descriptor, IsUtf8;
    var d := Descriptor(schema, f.number);
    var st1 := Stamped(d, f.value, common, st);
    if IsPacked(f, d) {
      PackedCleanIff(reg, d.value, f.number, f.value.bytes, st.left);
    } else if !IsMessage(f, d) {
      PlainCleanIff(reg, f, d, depth, st.left - 1);
    } else if depth < MAX_SCHEMA_DEPTH && st.left > 1 {
      CleanIff(reg, reg.ByName(d.value.kind.name), depth + 1, f.value.bytes, OpensCommon(d, depth, st1),
               Scan(st1.left - 1, st1.stamp, false, false));
    }
  }

  lemma CleanHere(reg: Registry, schema: Option<MessageSchema>, depth: nat, s: seq<byte>, left: nat)
    requires s != [] && left > 0
    ensures var strict := StrictField(s);
            && (!strict.Good? ==> !Clean(DecodeFields(reg, schema, depth, s, left)))
            && (strict.Good? ==>
                  var here := DecodeOne(reg, schema, depth, strict.field, left);
                  Clean(DecodeFields(reg, schema, depth, s, left)) <==>
                    Clean(here) && Clean(DecodeFields(reg, schema, depth, s[strict.used..], here.left)))
  {
    hide StrictField, DecodeOne, Descriptor;
  }

  /** Of the messages that pass the walker, exactly the flawless ones have a clean tree. */
  lemma {:induction false} CleanIff(
    reg: Registry, schema: Option<MessageSchema>, depth: nat, s: seq<byte>, common: bool, st: Scan)
    requires ScanFields(reg, schema, depth, s, common, st).Clear?
    ensures Clean(DecodeFields(reg, schema, depth, s, st.left)) <==> Flawless(reg, schema, depth, s, st.left)
    decreases |s|, 0
  {
    hide LenientField, StrictField, ScanOne, DecodeOne, FieldUnits, Harmless, PlainWire, Clean, DecodeFields;
    if s == [] {
      EmptyIsClean(reg, schema, depth, st.left);
    } else {
      var f := LenientField(s).value;
      StrictIffPlain(s);
      FieldsAgree(s);
      CleanHere(reg, schema, depth, s, st.left);
      if PlainWire(s) {
        OneCleanIff(reg, schema, depth, f, common, st);
        if Clean(DecodeOne(reg, schema, depth, f, st.left)) {
          OneAgrees(reg, schema, depth, f, common, st);
          OneUnits(reg, schema, depth, f, common, st);
          var after := ScanOne(reg, schema, depth, f, common, st).st;
          CleanIff(reg, schema, depth, s[LenientField(s).used..], common, after);
        }
      }
    }
  }

  lemma EmptyIsClean(reg: Registry, schema: Option<MessageSchema>, depth: nat, left: nat)
    ensures Clean(DecodeFields(reg, schema, depth, [], left))
  {
  }

  /** An event passes preflight exactly when its payload can be walked within its allowance. */
  lemma EventPassesIff(reg: Registry, name: Str, payload: seq<byte>, budget: nat)
    ensures PreflightEvent(reg, name, payload, budget).issue.None? <==>
            Walkable(reg, reg.ForMethod(name), 0, payload, Min(budget, MAX_SCHEMA_FIELDS))
  {
    hide ScanFields, Walkable;
    ClearIff(reg, reg.ForMethod(name), 0, payload, false, Scan(Min(budget, MAX_SCHEMA_FIELDS), None, false, false));
  }

  /**
   * An event's tree is complete and undamaged exactly when its payload fits, can be walked within
   * the allowance, and is flawless: three conditions on the bytes, the schema and the budget.
   */
  lemma EventCleanIff(reg: Registry, name: Str, payload: seq<byte>, budget: nat)
    ensures var m := DecodeEvent(reg, name, payload, budget).0;
            var schema, allowance := reg.ForMethod(name), Min(budget, MAX_SCHEMA_FIELDS);
            !m.truncated && !m.warning <==>
              && |payload| <= MAX_EVENT_BYTES
              && Walkable(reg, schema, 0, payload, allowance)
              && Flawless(reg, schema, 0, payload, allowance)
  {
    hide DecodeFields, ScanFields, Flawless, Walkable;
    var st := Scan(Min(budget, MAX_SCHEMA_FIELDS), None, false, false);
    if |payload| <= MAX_EVENT_BYTES {
      assert Clip(payload) == payload;
      ClearIff(reg, reg.ForMethod(name), 0, payload, false, st);
      if ScanFields(reg, reg.ForMethod(name), 0, payload, false, st).Clear? {
        CleanIff(reg, reg.ForMethod(name), 0, payload, false, st);
      } else if Clean(DecodeFields(reg, reg.ForMethod(name), 0, payload, st.left)) {
        ScanAgrees(reg, reg.ForMethod(name), 0, payload, false, st);
      }
    }
  }

  /** A tag whose number needs more than 32 bits: field 1 to the walker, damage to the tree decoder. */
  lemma WideNumberParts(reg: Registry)
    ensures var s := EncodeVarint((TWO_32 + 1) * 8) + [0];
            && LenientField(s) == Got(Field(1, 0, Varint(0)), |s|)
            && ScanFields(reg, None, 0, s, false, Scan(1, None, false, false)).Clear?
            && DecodeFields(reg, None, 0, s, 1).warning
  {
    hide EncodeVarint, StrictVarint, LenientVarint;
    var tag := EncodeVarint((TWO_32 + 1) * 8);
    var s := tag + [0];
    VarintRoundTrips(false, (TWO_32 + 1) * 8, [0]);
    VarintRoundTrips(true, (TWO_32 + 1) * 8, [0]);
    assert s[|tag|..] == [0];
    ZeroReads();
    assert s[|s|..] == [];
  }

  lemma ZeroReads()
    ensures ReadVarint(false, [0]) == Got(0, 1)
  {
  }
}
