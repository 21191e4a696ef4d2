/**
 * Reading the protobuf wire format.
 *
 * Two readers share the format: the strict `Cursor` of the schema decoder and the lenient `Reader`
 * of the transport. They differ only in how they treat the tenth byte of a varint. Both are given
 * twice: here as functions on the unread suffix of a buffer, and in `WireReaders` as the classes
 * that move a position.
 */
module Wire {
  import opened Bytes

  datatype ProtoError = Truncated | VarintOverflow | UnsupportedWireType(wire: nat)

  /** A read of the front of a buffer. `used` is how far the position moved, also on failure. */
  datatype Read<+T> = Got(value: T, used: nat) | Failed(error: ProtoError, used: nat)

  /** `WireValue` and its owned twin `RawProtoValue`, which carry the same information. */
  datatype WireValue =
    | Varint(v: u64)
    | Fixed64(v64: u64)
    | Fixed32(v32: u32)
    | LengthDelimited(bytes: seq<byte>)
  {
    function AsU64(): Option<u64> {
      match this
      case Varint(v) => Some(v)
      case Fixed64(v) => Some(v)
      case Fixed32(v) => Some(v)
      case LengthDelimited(_) => None
    }

    /** Bytes held by the value, which bound what a nested decode can be given. */
    function Size(): nat {
      match this
      case LengthDelimited(b) => |b|
      case _ => 0
    }
  }

  datatype Field = Field(number: u32, wire: nat, value: WireValue)

  // ----- Varints

  /** Exclusive bound on what the bytes of a varint from index `i` on can contribute. */
  ghost function VarintCap(i: nat): (c: nat)
    requires i <= 9
    ensures i < 9 ==> c == 128 * VarintCap(i + 1)
    decreases 9 - i
  {
    if i == 0 then TWO_64
    else if i == 1 then 0x0200_0000_0000_0000
    else if i == 2 then 0x4_0000_0000_0000
    else if i == 3 then 0x800_0000_0000
    else if i == 4 then 0x10_0000_0000
    else if i == 5 then 0x2000_0000
    else if i == 6 then 0x40_0000
    else if i == 7 then 0x8000
    else if i == 8 then 0x100
    else 2
  }

  /** The strict varint from byte index `i` on: ten bytes at most, and the tenth is 0 or 1. */
  function StrictVarint(s: seq<byte>, i: nat := 0): (r: Read<int>)
    requires i <= 9
    ensures r.used <= |s|
    ensures r.Got? ==> 0 < r.used <= 10 - i && 0 <= r.value < VarintCap(i)
    decreases 10 - i
  {
    if s == [] then Failed(Truncated, 0)
    else if i == 9 && s[0] > 1 then Failed(VarintOverflow, 1)
    else if s[0] < 128 then Got(s[0], 1)
    else
      match StrictVarint(s[1..], i + 1)
      case Got(v, n) => Got(s[0] - 128 + 128 * v, 1 + n)
      case Failed(e, n) => Failed(e, 1 + n)
  }

  /**
   * The lenient varint from byte index `i` on. The tenth byte keeps only the bit that fits in 64;
   * an eleventh byte is read and then refused.
   */
  function LenientVarint(s: seq<byte>, i: nat := 0): (r: Read<int>)
    requires i <= 10
    ensures r.used <= |s|
    ensures r.Got? ==> i <= 9 && 0 < r.used <= 10 - i && 0 <= r.value < VarintCap(i)
    decreases 10 - i
  {
    if s == [] then Failed(Truncated, 0)
    else if i == 10 then Failed(VarintOverflow, 1)
    else if s[0] < 128 then Got(if i == 9 then s[0] % 2 else s[0], 1)
    else
      match LenientVarint(s[1..], i + 1)
      case Got(v, n) => Got(s[0] - 128 + 128 * v, 1 + n)
      case Failed(e, n) => Failed(e, 1 + n)
  }

  /** Continuation bytes up to the tenth byte, which is 2 to 127: the one family that parts the readers. */
  predicate OverlongTenthByte(s: seq<byte>, i: nat := 0)
    requires i <= 9
    decreases 9 - i
  {
    s != [] && if i == 9 then 1 < s[0] < 128 else s[0] >= 128 && OverlongTenthByte(s[1..], i + 1)
  }

  /** Strict success is lenient success with the same value and position, and the gap is exact. */
  lemma {:induction false} VarintsAgree(s: seq<byte>, i: nat)
    requires i <= 9
    ensures StrictVarint(s, i).Got? ==> LenientVarint(s, i) == StrictVarint(s, i)
    ensures LenientVarint(s, i).Got? && !StrictVarint(s, i).Got? <==> OverlongTenthByte(s, i)
    decreases 9 - i
  {
    if s != [] && i < 9 && s[0] >= 128 {
      VarintsAgree(s[1..], i + 1);
    }
  }

  function ReadVarint(strict: bool, s: seq<byte>): (r: Read<u64>)
    ensures r.used <= |s|
    ensures r.Got? ==> 0 < r.used
  {
    var r := if strict then StrictVarint(s) else LenientVarint(s);
    match r
    case Got(v, n) => Got(v, n)
    case Failed(e, n) => Failed(e, n)
  }

  // ----- Values and fields

  /** `u32::from_le_bytes`. */
  function LittleEndian32(s: seq<byte>): (v: u32)
    requires |s| == 4
  {
    s[0] as int + 0x100 * s[1] as int + 0x1_0000 * s[2] as int + 0x100_0000 * s[3] as int
  }

  /** `u64::from_le_bytes`. */
  function LittleEndian64(s: seq<byte>): (v: u64)
    requires |s| == 8
  {
    LittleEndian32(s[..4]) + TWO_32 * LittleEndian32(s[4..])
  }

  /** The value of wire type `wire` at the front of `s`; groups and reserved types are refused. */
  function ReadValue(strict: bool, wire: nat, s: seq<byte>): (r: Read<WireValue>)
    ensures r.used <= |s|
    ensures r.Got? ==> 0 < r.used && r.value.Size() < r.used
  {
    if wire == 0 then
      match ReadVarint(strict, s)
      case Got(v, n) => Got(Varint(v), n)
      case Failed(e, n) => Failed(e, n)
    else if wire == 1 then
      if |s| < 8 then Failed(Truncated, 0)
      else Got(Fixed64(LittleEndian64(s[..8])), 8)
    else if wire == 5 then
      if |s| < 4 then Failed(Truncated, 0)
      else Got(Fixed32(LittleEndian32(s[..4])), 4)
    else if wire == 2 then
      match ReadVarint(strict, s)
      case Got(len, n) =>
        if len > |s| - n then Failed(Truncated, n) else Got(LengthDelimited(s[n..n + len]), n + len)
      case Failed(e, n) => Failed(e, n)
    else Failed(UnsupportedWireType(wire), 0)
  }

  const MAX_FIELD_NUMBER: int := 0x1fff_ffff

  /** One field as the lenient reader returns it: the number is the tag's upper bits cut to 32. */
  function LenientField(s: seq<byte>): (r: Read<Field>)
    ensures r.used <= |s|
    ensures r.Got? ==> 0 < r.used && r.value.value.Size() < r.used
  {
    match ReadVarint(false, s)
    case Failed(e, n) => Failed(e, n)
    case Got(tag, n) =>
      match ReadValue(false, tag % 8, s[n..])
      case Failed(e, m) => Failed(e, n + m)
      case Got(v, m) => Got(Field((tag / 8) % TWO_32, tag % 8, v), n + m)
  }

  /** One field as the schema decoder meets it, which tells a bad tag from a bad value. */
  datatype StrictRead = Good(field: Field, used: nat) | BadTag | BadValue(number: u32, wire: nat)

  function StrictField(s: seq<byte>): (r: StrictRead)
    ensures r.Good? ==>
              && 0 < r.used <= |s| && r.field.value.Size() < r.used
              && 0 < r.field.number <= MAX_FIELD_NUMBER
  {
    match ReadVarint(true, s)
    case Failed(_, _) => BadTag
    case Got(tag, n) =>
      if !(0 < tag / 8 <= MAX_FIELD_NUMBER) then BadTag
      else
        match ReadValue(true, tag % 8, s[n..])
        case Failed(_, _) => BadValue(tag / 8, tag % 8)
        case Got(v, m) => Good(Field(tag / 8, tag % 8, v), n + m)
  }

  lemma ReadVarintsAgree(s: seq<byte>)
    ensures ReadVarint(true, s).Got? ==> ReadVarint(false, s) == ReadVarint(true, s)
    ensures ReadVarint(false, s).Got? ==> (ReadVarint(true, s).Got? <==> !OverlongTenthByte(s))
  {
    hide StrictVarint, LenientVarint;
    VarintsAgree(s, 0);
  }

  lemma ValuesAgree(wire: nat, s: seq<byte>)
    ensures ReadValue(true, wire, s).Got? ==> ReadValue(false, wire, s) == ReadValue(true, wire, s)
    ensures ReadValue(false, wire, s).Got? ==>
              (ReadValue(true, wire, s).Got? <==> wire in {0, 2} ==> !OverlongTenthByte(s))
  {
    hide ReadVarint, LittleEndian32, LittleEndian64, OverlongTenthByte;
    ReadVarintsAgree(s);
  }

  /** Every field the strict decoder accepts is read identically by the lenient reader. */
  lemma FieldsAgree(s: seq<byte>)
    ensures var strict := StrictField(s);
            strict.Good? ==> LenientField(s) == Got(strict.field, strict.used)
  {
    hide ReadVarint, ReadValue, OverlongTenthByte;
    ReadVarintsAgree(s);
    var tag := ReadVarint(true, s);
    if tag.Got? {
      ValuesAgree(tag.value % 8, s[tag.used..]);
    }
  }

  /** No varint of the field at the front is overlong, and its number fits 32 bits. */
  predicate PlainWire(s: seq<byte>) {
    var tag := ReadVarint(false, s);
    && !OverlongTenthByte(s)
    && (tag.Got? ==> tag.value / 8 < TWO_32 && (tag.value % 8 in {0, 2} ==> !OverlongTenthByte(s[tag.used..])))
  }

  /** Of the fields the lenient reader accepts under a legal number, the strict decoder takes exactly these. */
  lemma StrictIffPlain(s: seq<byte>)
    requires LenientField(s).Got? && 0 < LenientField(s).value.number <= MAX_FIELD_NUMBER
    ensures StrictField(s).Good? <==> PlainWire(s)
  {
    hide ReadVarint, ReadValue, OverlongTenthByte;
    ReadVarintsAgree(s);
    var tag := ReadVarint(false, s);
    ValuesAgree(tag.value % 8, s[tag.used..]);
  }

  // ----- Whole messages

  /** All fields the lenient reader yields, up to the end or to the first error. */
  datatype Fields = Fields(fields: seq<Field>, error: Option<ProtoError>)

  function ReadAll(s: seq<byte>): (r: Fields) {
    if s == [] then Fields([], None)
    else
      match LenientField(s)
      case Failed(e, _) => Fields([], Some(e))
      case Got(f, n) => var rest := ReadAll(s[n..]); Fields([f] + rest.fields, rest.error)
  }

  /** The decode loops: one update per field, in wire order. */
  function Fold<A>(step: (A, Field) -> A, acc: A, fs: seq<Field>): A {
    if fs == [] then acc else Fold(step, step(acc, fs[0]), fs[1..])
  }

  lemma {:induction false} FoldConcat<A>(step: (A, Field) -> A, acc: A, a: seq<Field>, b: seq<Field>)
    ensures Fold(step, acc, a + b) == Fold(step, Fold(step, acc, a), b)
  {
    if a == [] {
      assert a + b == b;
    } else {
      FoldConcat(step, step(acc, a[0]), a[1..], b);
      assert (a + b)[1..] == a[1..] + b;
    }
  }
}
