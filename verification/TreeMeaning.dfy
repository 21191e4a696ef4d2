/** What a decoded tree says: the fields that were on the wire, under their declared types. */
module TreeMeaning {
  import opened Bytes
  import opened Utf8
  import opened Wire
  import opened Schema
  import opened Dynamic
  import opened Preflight
  import opened Agreement

  // ----- One value

  /** `i` is the number in [low, low + modulus) that leaves the same residue as `v`. */
  predicate IsResidue(i: int, v: int, low: int, modulus: int)
    requires modulus > 0
  {
    low <= i < low + modulus && (v - i) % modulus == 0
  }

  /** The non-negative number that stands for `s` in zigzag order: 0, -1, 1, -2, 2, ... */
  function ZigzagCode(s: int): nat {
    if s >= 0 then 2 * s else -2 * s - 1
  }

  const MIN_32: int := -0x8000_0000

  /** `v` is what the varint `w` means under the declared type `k`. */
  predicate VarintMeans(reg: Registry, k: ValueKind, w: u64, v: SchemaValue) {
    match k
    case VInt64 => v.SInt64? && IsResidue(v.i, w, -TWO_63, TWO_64)
    case VUint64 => v == SUint64(w)
    case VSint64 => v.SSint64? && ZigzagCode(v.s) == w
    case VInt32 => v.SInt32? && IsResidue(v.i32, w, MIN_32, TWO_32)
    case VUint32 => v.SUint32? && IsResidue(v.u32v, w, 0, TWO_32)
    case VSint32 => v.SSint32? && IsResidue(ZigzagCode(v.s32), w, 0, TWO_32)
    case VBool => v.SBool? && (v.b <==> w > 0)
    case VEnum(e) =>
      && v.SEnum? && IsResidue(v.number, w, MIN_32, TWO_32) && v.enumType == e
      && v.name == (if e in reg.enums && v.number in reg.enums[e] then Some(reg.enums[e][v.number]) else None)
    case _ => false
  }

  predicate Fixed32Means(k: ValueKind, w: u32, v: SchemaValue) {
    match k
    case VFloat => v == SFloat(w)
    case VSfixed32 => v.SSfixed32? && IsResidue(v.sf32, w, MIN_32, TWO_32)
    case VFixed32 => v == SFixed32(w)
    case _ => false
  }

  predicate Fixed64Means(k: ValueKind, w: u64, v: SchemaValue) {
    match k
    case VDouble => v == SDouble(w)
    case VSfixed64 => v.SSfixed64? && IsResidue(v.sf64, w, -TWO_63, TWO_64)
    case VFixed64 => v == SFixed64(w)
    case _ => false
  }

  /** `v` is `w` as it came, without a type. */
  predicate IsRaw(w: WireValue, v: SchemaValue) {
    match w
    case Varint(u) => v == SVarint(u)
    case Fixed64(u) => v == SFixed64(u)
    case Fixed32(u) => v == SFixed32(u)
    case LengthDelimited(b) => v == SBytes(b)
  }

  /** `v` is what the wire value `w`, no message, means under the descriptor `d`. */
  predicate Means(reg: Registry, d: Option<FieldSchema>, w: WireValue, v: SchemaValue) {
    if d.None? then IsRaw(w, v)
    else
      match w
      case Varint(u) => VarintMeans(reg, d.value.valueKind, u, v)
      case Fixed64(u) => Fixed64Means(d.value.valueKind, u, v)
      case Fixed32(u) => Fixed32Means(d.value.valueKind, u, v)
      case LengthDelimited(b) =>
        (d.value.kind.KString? && v == SText(b) && IsUtf8(b)) || (d.value.kind.KBytes? && v == SBytes(b))
  }

  // ----- The scalars of the decoder

  lemma LowResidue(v: nat)
    ensures IsResidue(v % TWO_32, v, 0, TWO_32)
  {
    assert v - v % TWO_32 == v / TWO_32 * TWO_32;
  }

  lemma ZigzagBack(v: nat)
    ensures ZigzagCode(Zigzag(v)) == v
  {
  }

  lemma AsI64Is(v: u64)
    ensures IsResidue(AsI64(v), v, -TWO_63, TWO_64)
  {
  }

  lemma AsI32Is(v: nat)
    ensures IsResidue(AsI32(v), v, MIN_32, TWO_32)
  {
    var q := v / TWO_32;
    assert v - AsI32(v) == q * TWO_32 || v - AsI32(v) == (q + 1) * TWO_32;
  }

  lemma VarintScalar(reg: Registry, v: u64, d: FieldSchema)
    requires Fits(0, d.valueKind)
    ensures VarintMeans(reg, d.valueKind, v, Scalar(reg, Varint(v), Some(d)).0)
  {
    hide AsI64, AsI32, Zigzag, IsResidue, ZigzagCode;
    AsI64Is(v);
    AsI32Is(v);
    ZigzagBack(v);
    ZigzagBack(v % TWO_32);
    LowResidue(v);
  }

  lemma FixedScalar(reg: Registry, w: WireValue, d: FieldSchema)
    requires (w.Fixed32? && Fits(5, d.valueKind)) || (w.Fixed64? && Fits(1, d.valueKind))
    ensures w.Fixed32? ==> Fixed32Means(d.valueKind, w.v32, Scalar(reg, w, Some(d)).0)
    ensures w.Fixed64? ==> Fixed64Means(d.valueKind, w.v64, Scalar(reg, w, Some(d)).0)
  {
    hide AsI64, AsI32, IsResidue;
    if w.Fixed32? {
      AsI32Is(w.v32);
    } else {
      AsI64Is(w.v64);
    }
  }

  /** A number of the declared type is given its meaning; any other, and any undeclared one, is kept raw. */
  lemma ScalarMeans(reg: Registry, w: WireValue, d: Option<FieldSchema>)
    requires !w.LengthDelimited?
    ensures var (v, warned) := Scalar(reg, w, d);
            if warned then IsRaw(w, v) else Means(reg, d, w, v)
  {
    hide VarintMeans, Fixed32Means, Fixed64Means, AsI64, AsI32, Zigzag, IsResidue;
    ScalarWarnsIff(reg, w, d);
    if d.Some? && Fits(WireOf(w), d.value.valueKind) {
      if w.Varint? {
        VarintScalar(reg, w.v, d.value);
      } else {
        FixedScalar(reg, w, d.value);
      }
    }
  }

  // ----- One meaning only

  lemma OneResidue(i: int, j: int, v: int, low: int, modulus: int)
    requires modulus > 0 && IsResidue(i, v, low, modulus) && IsResidue(j, v, low, modulus)
    ensures i == j
  {
    var p, q := (v - i) / modulus, (v - j) / modulus;
    assert v - i == p * modulus && v - j == q * modulus;
    assert i - j == (q - p) * modulus && j - i == (p - q) * modulus;
    if q - p >= 1 {
      Grows(q - p, modulus);
    } else if q - p <= -1 {
      Grows(p - q, modulus);
    }
  }

  lemma Grows(k: int, m: int)
    requires k >= 1 && m > 0
    ensures k * m >= m
  {
  }

  lemma OneVarintMeaning(reg: Registry, k: ValueKind, w: u64, a: SchemaValue, b: SchemaValue)
    requires VarintMeans(reg, k, w, a) && VarintMeans(reg, k, w, b)
    ensures a == b
  {
    hide IsResidue;
    match k
    case VInt64 => OneResidue(a.i, b.i, w, -TWO_63, TWO_64);
    case VInt32 => OneResidue(a.i32, b.i32, w, MIN_32, TWO_32);
    case VUint32 => OneResidue(a.u32v, b.u32v, w, 0, TWO_32);
    case VSint32 => OneResidue(ZigzagCode(a.s32), ZigzagCode(b.s32), w, 0, TWO_32);
    case VEnum(_) => OneResidue(a.number, b.number, w, MIN_32, TWO_32);
    case _ =>
  }

  /** A wire value means one thing under a descriptor. */
  lemma OneMeaning(reg: Registry, d: Option<FieldSchema>, w: WireValue, a: SchemaValue, b: SchemaValue)
    requires Means(reg, d, w, a) && Means(reg, d, w, b)
    ensures a == b
  {
    hide VarintMeans, IsResidue, IsUtf8;
    if d.Some? {
      match w
      case Varint(u) => OneVarintMeaning(reg, d.value.valueKind, u, a, b);
      case Fixed64(u) =>
        if d.value.valueKind.VSfixed64? { OneResidue(a.sf64, b.sf64, u, -TWO_63, TWO_64); }
      case Fixed32(u) =>
        if d.value.valueKind.VSfixed32? { OneResidue(a.sf32, b.sf32, u, MIN_32, TWO_32); }
      case LengthDelimited(_) =>
    }
  }

  // ----- Every node, damaged or not

  /** The value of a field that was kept as it came: raw, or closed by a limit. */
  predicate IsKept(w: WireValue, v: SchemaValue) {
    IsRaw(w, v) || (w.LengthDelimited? && v == STruncated(w.bytes))
  }

  /**
   * Whatever becomes of a field that is no packed array, it adds one node with its own number, wire
   * type and descriptor. The node holds the field's meaning, the tree of the message inside it, or,
   * with a warning or at a limit, its value as it came.
   */
  lemma NodeShows(reg: Registry, schema: Option<MessageSchema>, depth: nat, f: Field, left: nat)
    requires left > 0 && !IsPacked(f, Descriptor(schema, f.number))
    ensures var o, d := DecodeOne(reg, schema, depth, f, left), Descriptor(schema, f.number);
            && |o.fields| == 1
            && var n := o.fields[0];
            && n.number == f.number && n.wire == f.wire && n.descriptor == d && n.warning == o.warning
            && (|| (!IsMessage(f, d) && !n.warning && Means(reg, d, f.value, n.value))
                || (IsKept(f.value, n.value) && (n.warning || IsMessage(f, d)))
                || (&& IsMessage(f, d) && !n.warning && n.value.SMessage?
                    && var sub := reg.ByName(d.value.kind.name);
                    && var inner := DecodeFields(reg, sub, depth + 1, f.value.bytes, left - 1);
                    && n.value.nested == SchemaObject(sub, inner.fields, inner.truncated, false)))
  {
    hide DecodeFields, Scalar, Means, IsUtf8, Descriptor;
    var d := Descriptor(schema, f.number);
    if !f.value.LengthDelimited? {
      ScalarMeans(reg, f.value, d);
    } else if !IsMessage(f, d) {
      BytesMean(reg, d, f.value.bytes);
    }
  }

  lemma BytesMean(reg: Registry, d: Option<FieldSchema>, b: seq<byte>)
    ensures d.None? || d.value.kind.KBytes? ==> Means(reg, d, LengthDelimited(b), SBytes(b))
    ensures d.Some? && d.value.kind.KString? && IsUtf8(b) ==> Means(reg, d, LengthDelimited(b), SText(b))
  {
    hide IsUtf8;
  }

  // ----- Clean trees

  /** The elements of a packed array. */
  function PackedValues(wire: nat, b: seq<byte>): (vs: seq<WireValue>)
    ensures |vs| == Elements(wire, b)
  {
    if b == [] then []
    else
      var r := ReadValue(true, wire, b);
      if r.Failed? then [] else [r.value] + PackedValues(wire, b[r.used..])
  }

  /** The nodes are the elements `vs` of a packed array, in order. */
  ghost predicate ShowsElements(
    reg: Registry, d: FieldSchema, number: u32, vs: seq<WireValue>, nodes: seq<SchemaField>)
  {
    |nodes| == |vs| &&
    forall i :: 0 <= i < |vs| ==>
      && nodes[i].number == number && nodes[i].wire == 2 && nodes[i].descriptor == Some(d) && !nodes[i].warning
      && Means(reg, Some(d), vs[i], nodes[i].value)
  }

  /** `tree` says exactly what `fs` say under `schema`: each field in order, packed arrays element by element. */
  ghost predicate Shows(reg: Registry, schema: Option<MessageSchema>, fs: seq<Field>, tree: seq<SchemaField>)
    decreases FieldsSize(fs), |fs|
  {
    if fs == [] then tree == []
    else
      var f := fs[0];
      var d := Descriptor(schema, f.number);
      RestIsSmaller(fs);
      if IsPacked(f, d) then
        var vs := PackedValues(d.value.PackedWire(), f.value.bytes);
        && |vs| <= |tree|
        && ShowsElements(reg, d.value, f.number, vs, tree[..|vs|])
        && Shows(reg, schema, fs[1..], tree[|vs|..])
      else
        && tree != []
        && tree[0].number == f.number && tree[0].wire == f.wire && tree[0].descriptor == d && !tree[0].warning
        && (if IsMessage(f, d) then
              var sub := reg.ByName(d.value.kind.name);
              InsideIsSmaller(fs);
              && tree[0].value.SMessage?
              && var inner := tree[0].value.nested;
              && inner.schema == sub && !inner.truncated && !inner.warning
              && Shows(reg, sub, ReadAll(f.value.bytes).fields, inner.fields)
            else Means(reg, d, f.value, tree[0].value))
        && Shows(reg, schema, fs[1..], tree[1..])
  }

  /** A measure of the bytes in a list of fields, and of the fields in them. */
  function FieldsSize(fs: seq<Field>): nat {
    if fs == [] then 0 else 1 + fs[0].value.Size() + FieldsSize(fs[1..])
  }

  lemma RestIsSmaller(fs: seq<Field>)
    requires fs != []
    ensures FieldsSize(fs[1..]) < FieldsSize(fs)
  {
  }

  lemma {:induction false} ReadAllSize(s: seq<byte>)
    ensures FieldsSize(ReadAll(s).fields) <= |s|
    decreases |s|
  {
    hide LenientField;
    if s != [] && LenientField(s).Got? {
      var rest := s[LenientField(s).used..];
      ReadAllSize(rest);
      var all := ReadAll(s).fields;
      assert all[1..] == ReadAll(rest).fields;
    }
  }

  lemma InsideIsSmaller(fs: seq<Field>)
    requires fs != [] && fs[0].value.LengthDelimited?
    ensures FieldsSize(ReadAll(fs[0].value.bytes).fields) < FieldsSize(fs)
  {
    ReadAllSize(fs[0].value.bytes);
  }

  lemma {:induction false} PackedShows(reg: Registry, d: FieldSchema, number: u32, b: seq<byte>, left: nat)
    requires Clean(DecodePacked(reg, d, number, b, left))
    ensures ShowsElements(reg, d, number, PackedValues(d.PackedWire(), b),
                          DecodePacked(reg, d, number, b, left).fields)
    decreases |b|
  {
    hide ReadValue, Scalar, Means;
    if b != [] {
      var r := ReadValue(true, d.PackedWire(), b);
      var rest := b[r.used..];
      PackedShows(reg, d, number, rest, left - 1);
      ElementReads(d.PackedWire(), b);
      ScalarMeans(reg, r.value, Some(d));
      var first := PackedElement(reg, d, number, r.value, left - 1).fields;
      var all := DecodePacked(reg, d, number, b, left).fields;
      assert all == first + DecodePacked(reg, d, number, rest, left - 1).fields;
    }
  }

  lemma {:induction false} OneShows(
    reg: Registry, schema: Option<MessageSchema>, depth: nat, f: Field, left: nat,
    more: seq<Field>, tail: seq<SchemaField>)
    requires left > 0 && Clean(DecodeOne(reg, schema, depth, f, left)) && Shows(reg, schema, more, tail)
    ensures Shows(reg, schema, [f] + more, DecodeOne(reg, schema, depth, f, left).fields + tail)
    decreases f.value.Size(), 1
  {
    hide DecodeFields, DecodePacked, DecodePlain, Nest, Means, PackedValues, ShowsElements, Descriptor;
    var d := Descriptor(schema, f.number);
    var fs, here := [f] + more, DecodeOne(reg, schema, depth, f, left).fields;
    assert fs[1..] == more;
    if IsPacked(f, d) {
      PackedShows(reg, d.value, f.number, f.value.bytes, left);
      var n := |PackedValues(d.value.PackedWire(), f.value.bytes)|;
      assert |here| == n by { ElementsCounted(reg, d.value, f.number, f.value.bytes, here); }
      assert (here + tail)[..n] == here && (here + tail)[n..] == tail;
    } else {
      NodeShows(reg, schema, depth, f, left);
      assert (here + tail)[1..] == tail && (here + tail)[0] == here[0];
      if IsMessage(f, d) {
        MessageIsOpened(reg, schema, depth, f, left);
        TreeShows(reg, reg.ByName(d.value.kind.name), depth + 1, f.value.bytes, left - 1);
      }
    }
  }

  lemma ElementsCounted(reg: Registry, d: FieldSchema, number: u32, b: seq<byte>, nodes: seq<SchemaField>)
    requires ShowsElements(reg, d, number, PackedValues(d.PackedWire(), b), nodes)
    ensures |nodes| == |PackedValues(d.PackedWire(), b)|
  {
  }

  lemma MessageIsOpened(reg: Registry, schema: Option<MessageSchema>, depth: nat, f: Field, left: nat)
    requires left > 0 && Clean(DecodeOne(reg, schema, depth, f, left))
    requires var d := Descriptor(schema, f.number); !IsPacked(f, d) && IsMessage(f, d)
    ensures var sub := reg.ByName(Descriptor(schema, f.number).value.kind.name);
            && left > 1
            && var inner := DecodeFields(reg, sub, depth + 1, f.value.bytes, left - 1);
            && Clean(inner)
            && DecodeOne(reg, schema, depth, f, left).fields[0].value ==
               SMessage(SchemaObject(sub, inner.fields, false, false))
  {
    hide DecodeFields, DecodePacked, Descriptor;
  }

  /** A clean tree says exactly what was on the wire: every field of the message, in order, and nothing else. */
  lemma {:induction false} TreeShows(
    reg: Registry, schema: Option<MessageSchema>, depth: nat, s: seq<byte>, left: nat)
    requires Clean(DecodeFields(reg, schema, depth, s, left))
    ensures ReadAll(s).error.None?
    ensures Shows(reg, schema, ReadAll(s).fields, DecodeFields(reg, schema, depth, s, left).fields)
    decreases |s|, 0
  {
    hide StrictField, LenientField, DecodeOne, Shows, Descriptor;
    if s == [] {
      NothingShown(reg, schema);
    } else {
      FieldsAgree(s);
      var r := StrictField(s);
      var here := DecodeOne(reg, schema, depth, r.field, left);
      var rest := s[r.used..];
      TreeShows(reg, schema, depth, rest, here.left);
      OneShows(reg, schema, depth, r.field, left, ReadAll(rest).fields,
               DecodeFields(reg, schema, depth, rest, here.left).fields);
    }
  }

  lemma NothingShown(reg: Registry, schema: Option<MessageSchema>)
    ensures Shows(reg, schema, [], [])
  {
  }

  // ----- Only one tree says it

  lemma SameElements(
    reg: Registry, d: FieldSchema, number: u32, vs: seq<WireValue>, a: seq<SchemaField>, b: seq<SchemaField>)
    requires ShowsElements(reg, d, number, vs, a) && ShowsElements(reg, d, number, vs, b)
    ensures a == b
  {
    hide Means;
    forall i | 0 <= i < |vs| ensures a[i] == b[i] { OneMeaning(reg, Some(d), vs[i], a[i].value, b[i].value); }
  }

  /** A list of fields is said by one tree: its contents, to the last flag, are determined by the wire. */
  lemma {:induction false} OneTree(
    reg: Registry, schema: Option<MessageSchema>, fs: seq<Field>, a: seq<SchemaField>, b: seq<SchemaField>)
    requires Shows(reg, schema, fs, a) && Shows(reg, schema, fs, b)
    ensures a == b
    decreases FieldsSize(fs), |fs|
  {
    hide Means, ShowsElements, PackedValues, FieldsSize, ReadAll, Descriptor;
    if fs != [] {
      var f := fs[0];
      var d := Descriptor(schema, f.number);
      RestIsSmaller(fs);
      if IsPacked(f, d) {
        var vs := PackedValues(d.value.PackedWire(), f.value.bytes);
        SameElements(reg, d.value, f.number, vs, a[..|vs|], b[..|vs|]);
        OneTree(reg, schema, fs[1..], a[|vs|..], b[|vs|..]);
        assert a == a[..|vs|] + a[|vs|..] && b == b[..|vs|] + b[|vs|..];
      } else {
        OneTree(reg, schema, fs[1..], a[1..], b[1..]);
        if IsMessage(f, d) {
          InsideIsSmaller(fs);
          OneTree(reg, reg.ByName(d.value.kind.name), ReadAll(f.value.bytes).fields,
                  a[0].value.nested.fields, b[0].value.nested.fields);
        } else {
          OneMeaning(reg, d, f.value, a[0].value, b[0].value);
        }
        assert a[0] == b[0];
        assert a == [a[0]] + a[1..] && b == [b[0]] + b[1..];
      }
    }
  }

  /** Clean decodes of the same bytes give the same tree, whatever their depths and budgets. */
  lemma CleanTreesEqual(
    reg: Registry, schema: Option<MessageSchema>, s: seq<byte>, depth: nat, left: nat, depth': nat, left': nat)
    requires Clean(DecodeFields(reg, schema, depth, s, left)) && Clean(DecodeFields(reg, schema, depth', s, left'))
    ensures DecodeFields(reg, schema, depth, s, left).fields == DecodeFields(reg, schema, depth', s, left').fields
  {
    hide DecodeFields, Shows;
    TreeShows(reg, schema, depth, s, left);
    TreeShows(reg, schema, depth', s, left');
    OneTree(reg, schema, ReadAll(s).fields, DecodeFields(reg, schema, depth, s, left).fields,
            DecodeFields(reg, schema, depth', s, left').fields);
  }

  // ----- Packed arrays, damaged or not

  /** What is left of a packed array after its readable elements. */
  function PackedRest(wire: nat, b: seq<byte>): seq<byte> {
    if b == [] || ReadValue(true, wire, b).Failed? then b else PackedRest(wire, b[ReadValue(true, wire, b).used..])
  }

  /** Node `i` is element `i`, or, after the last readable element, the damaged rest. */
  predicate PackedNode(
    reg: Registry, d: FieldSchema, number: u32, vs: seq<WireValue>, rest: seq<byte>, i: nat, n: SchemaField)
  {
    && n.number == number && n.wire == 2 && n.descriptor == Some(d)
    && if i < |vs| then (if n.warning then IsRaw(vs[i], n.value) else Means(reg, Some(d), vs[i], n.value))
       else i == |vs| && n.warning && n.value == STruncated(rest)
  }

  predicate ArePackedNodes(
    reg: Registry, d: FieldSchema, number: u32, vs: seq<WireValue>, rest: seq<byte>, nodes: seq<SchemaField>)
  {
    forall i: nat :: i < |nodes| ==> PackedNode(reg, d, number, vs, rest, i, nodes[i])
  }

  lemma {:induction false} PackedNodes(reg: Registry, d: FieldSchema, number: u32, b: seq<byte>, left: nat)
    ensures ArePackedNodes(reg, d, number, PackedValues(d.PackedWire(), b), PackedRest(d.PackedWire(), b),
                           DecodePacked(reg, d, number, b, left).fields)
    decreases |b|
  {
    hide ReadValue, Scalar, Means, IsRaw;
    if b != [] && left > 0 {
      var r := ReadValue(true, d.PackedWire(), b);
      if r.Got? {
        var rest := b[r.used..];
        PackedNodes(reg, d, number, rest, left - 1);
        ElementReads(d.PackedWire(), b);
        ScalarMeans(reg, r.value, Some(d));
        var vs, later := PackedValues(d.PackedWire(), b), PackedValues(d.PackedWire(), rest);
        var nodes := DecodePacked(reg, d, number, b, left).fields;
        var others := DecodePacked(reg, d, number, rest, left - 1).fields;
        assert nodes == PackedElement(reg, d, number, r.value, left - 1).fields + others && vs == [r.value] + later;
        var end := PackedRest(d.PackedWire(), b);
        assert ArePackedNodes(reg, d, number, later, end, others);
        forall i: nat | i < |nodes| ensures PackedNode(reg, d, number, vs, end, i, nodes[i]) {
          if i > 0 {
            assert nodes[i] == others[i - 1] && PackedNode(reg, d, number, later, end, i - 1, others[i - 1]);
          }
        }
      }
    }
  }

  // ----- An end that cannot be read

  /** A walk that ends on an unreadable value keeps it, whole and to the end of the message, as its last node. */
  lemma {:induction false} UnreadEndIsKept(
    reg: Registry, schema: Option<MessageSchema>, depth: nat, s: seq<byte>, left: nat) returns (k: nat)
    requires EndsUnread(reg, schema, depth, s, left)
    ensures k < |s| && StrictField(s[k..]).BadValue?
    ensures var tree, r := DecodeFields(reg, schema, depth, s, left).fields, StrictField(s[k..]);
            && tree != []
            && tree[|tree| - 1] ==
               SchemaField(r.number, Descriptor(schema, r.number), STruncated(s[k..]), r.wire, true)
    decreases |s|
  {
    hide StrictField, DecodeOne, Descriptor;
    var r := StrictField(s);
    if r.BadValue? {
      k := 0;
      assert s[0..] == s;
    } else {
      var here := DecodeOne(reg, schema, depth, r.field, left);
      k := UnreadEndIsKept(reg, schema, depth, s[r.used..], here.left);
      assert s[r.used..][k..] == s[r.used + k..];
      var tail := DecodeFields(reg, schema, depth, s[r.used..], here.left).fields;
      assert (here.fields + tail)[|here.fields + tail| - 1] == tail[|tail| - 1];
      k := r.used + k;
    }
  }
}
