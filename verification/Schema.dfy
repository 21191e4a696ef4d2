/** Descriptors of the pinned schema, as an arbitrary registry, and the decoded tree they describe. */
module Schema {
  import opened Bytes
  import opened Utf8
  import opened Wire

  datatype FieldKind = KVarint | KFixed64 | KFixed32 | KString | KBytes | KMessage(name: string)

  datatype ValueKind =
    | VDouble | VFloat | VInt64 | VUint64 | VInt32 | VFixed64 | VFixed32 | VBool | VString
    | VMessage(message: string) | VBytes | VUint32 | VEnum(enumType: string)
    | VSfixed32 | VSfixed64 | VSint32 | VSint64

  datatype Cardinality = Optional | Required | Repeated

  datatype FieldSchema = FieldSchema(
    number: u32, name: string, kind: FieldKind, valueKind: ValueKind, cardinality: Cardinality)
  {
    /** Declared repeated and numeric, so a length-delimited value is a packed array. */
    predicate Packable() {
      cardinality == Repeated && (kind.KVarint? || kind.KFixed32? || kind.KFixed64?)
    }

    function PackedWire(): nat {
      match kind
      case KVarint => 0
      case KFixed32 => 5
      case _ => 1
    }
  }

  datatype MessageSchema = MessageSchema(name: string, fields: seq<FieldSchema>)

  datatype Registry = Registry(
    messages: map<string, MessageSchema>,
    methods: map<Str, MessageSchema>,
    enums: map<string, map<int, string>>)
  {
    function ByName(name: string): Option<MessageSchema> {
      if name in messages then Some(messages[name]) else None
    }

    function ForMethod(name: Str): Option<MessageSchema> {
      if name in methods then Some(methods[name]) else None
    }

    function EnumName(enumType: string, number: int): Option<string> {
      if enumType in enums && number in enums[enumType] then Some(enums[enumType][number]) else None
    }
  }

  function FirstNumbered(fields: seq<FieldSchema>, number: u32): (d: Option<FieldSchema>)
    ensures d.Some? ==> d.value.number == number && d.value in fields
  {
    if fields == [] then None
    else if fields[0].number == number then Some(fields[0])
    else FirstNumbered(fields[1..], number)
  }

  function Descriptor(schema: Option<MessageSchema>, number: u32): Option<FieldSchema> {
    if schema.Some? then FirstNumbered(schema.value.fields, number) else None
  }

  // ----- The decoded tree

  /** Floating-point values are kept as their bit patterns. */
  datatype SchemaValue =
    | SVarint(v: u64)
    | SInt64(i: int) | SUint64(u: u64) | SSint64(s: int)
    | SInt32(i32: int) | SUint32(u32v: u32) | SSint32(s32: int)
    | SSfixed64(sf64: int) | SSfixed32(sf32: int)
    | SDouble(bits64: u64) | SFloat(bits32: u32) | SBool(b: bool)
    | SEnum(number: int, name: Option<string>, enumType: string)
    | SFixed64(f64: u64) | SFixed32(f32: u32)
    | SText(text: seq<byte>) | SBytes(bytes: seq<byte>)
    | SMessage(nested: SchemaObject)
    | STruncated(raw: seq<byte>)

  datatype SchemaObject = SchemaObject(
    schema: Option<MessageSchema>, fields: seq<SchemaField>, truncated: bool, warning: bool)

  datatype SchemaField = SchemaField(
    number: u32, descriptor: Option<FieldSchema>, value: SchemaValue, wire: nat, warning: bool)

  // ----- Scalars

  function AsI64(v: u64): int {
    if v < TWO_63 then v else v - TWO_64
  }

  function AsI32(v: nat): int {
    var low := v % TWO_32;
    if low < 0x8000_0000 then low else low - TWO_32
  }

  /** Zigzag: even numbers are non-negative, odd ones negative. */
  function Zigzag(v: nat): int {
    if v % 2 == 0 then v / 2 else -(v / 2) - 1
  }

  /** A raw value under its descriptor, and whether the two disagree. */
  function Scalar(reg: Registry, raw: WireValue, d: Option<FieldSchema>): (SchemaValue, bool) {
    var k: Option<ValueKind> := if d.Some? then Some(d.value.valueKind) else None;
    match raw
    case Varint(v) =>
      (match k
       case Some(VInt64) => (SInt64(AsI64(v)), false)
       case Some(VUint64) => (SUint64(v), false)
       case Some(VSint64) => (SSint64(Zigzag(v)), false)
       case Some(VInt32) => (SInt32(AsI32(v)), false)
       case Some(VUint32) => (SUint32(v % TWO_32), false)
       case Some(VSint32) => (SSint32(Zigzag(v % TWO_32)), false)
       case Some(VBool) => (SBool(v != 0), false)
       case Some(VEnum(e)) => (SEnum(AsI32(v), reg.EnumName(e, AsI32(v)), e), false)
       case _ => (SVarint(v), d.Some?))
    case Fixed32(v) =>
      (match k
       case Some(VFloat) => (SFloat(v), false)
       case Some(VSfixed32) => (SSfixed32(AsI32(v)), false)
       case _ => (SFixed32(v), k.Some? && k != Some(VFixed32)))
    case Fixed64(v) =>
      (match k
       case Some(VDouble) => (SDouble(v), false)
       case Some(VSfixed64) => (SSfixed64(AsI64(v)), false)
       case _ => (SFixed64(v), k.Some? && k != Some(VFixed64)))
    case LengthDelimited(b) => (SBytes(b), d.Some?)
  }
}
