/** Writing the protobuf wire format, and what both readers make of what was written. */
module WireWriter {
  import opened Bytes
  import opened Wire

  function EncodeVarint(v: nat): (s: seq<byte>)
    ensures |s| > 0
  {
    if v < 128 then [v] else [v % 128 + 128] + EncodeVarint(v / 128)
  }

  function EncodeTag(number: nat, wire: nat): seq<byte> {
    EncodeVarint(number * 8 + wire)
  }

  /** A field of one of the two wire types the writer emits. */
  predicate Writable(f: Field) {
    || (f.wire == 0 && f.value.Varint?)
    || (f.wire == 2 && f.value.LengthDelimited?)
  }

  /** The two fixed-width types are never written, so they have no encoding here. */
  function EncodeValue(v: WireValue): seq<byte> {
    match v
    case Varint(v) => EncodeVarint(v)
    case LengthDelimited(b) => EncodeVarint(|b|) + b
    case _ => []
  }

  function EncodeField(f: Field): (s: seq<byte>)
    ensures |s| > 0 && f.value.Size() < |s|
  {
    EncodeTag(f.number, f.wire) + EncodeValue(f.value)
  }

  predicate AllWritable(fs: seq<Field>) {
    forall i :: 0 <= i < |fs| ==> Writable(fs[i])
  }

  function EncodeFields(fs: seq<Field>): seq<byte> {
    if fs == [] then [] else EncodeField(fs[0]) + EncodeFields(fs[1..])
  }

  function Then(a: seq<Field>, b: seq<Field>): (fs: seq<Field>)
    requires AllWritable(a) && AllWritable(b)
    ensures fs == a + b && AllWritable(fs)
  {
    a + b
  }

  /** The zero/empty omission rule. */
  function U64Fields(number: u32, v: u64): (fs: seq<Field>)
    ensures AllWritable(fs)
  {
    if v == 0 then [] else [Field(number, 0, Varint(v))]
  }

  function BytesFields(number: u32, b: seq<byte>): (fs: seq<Field>)
    ensures AllWritable(fs)
  {
    if b == [] then [] else [Field(number, 2, LengthDelimited(b))]
  }

  const MAP_KEY: u32 := 1
  const MAP_VALUE: u32 := 2

  function MapEntryFields(number: u32, key: seq<byte>, value: seq<byte>): (fs: seq<Field>)
    ensures AllWritable(fs)
  {
    BytesFields(number, EncodeFields(BytesFields(MAP_KEY, key) + BytesFields(MAP_VALUE, value)))
  }

  class Writer {
    var buf: seq<byte>

    constructor ()
      ensures buf == []
    {
      buf := [];
    }

    method Varint(v: nat)
      modifies this
      ensures buf == old(buf) + EncodeVarint(v)
    {
      var value := v;
      while true
        invariant buf + EncodeVarint(value) == old(buf) + EncodeVarint(v)
        decreases value
      {
        var low := value % 128;
        ghost var whole := value;
        value := value / 128;
        if value == 0 {
          buf := buf + [low];
          return;
        }
        ghost var before := buf;
        buf := buf + [low + 128];
        assert before + EncodeVarint(whole) == buf + EncodeVarint(value);
      }
    }

    method Tag(number: u32, wire: nat)
      requires wire < 8
      modifies this
      ensures buf == old(buf) + EncodeTag(number, wire)
    {
      Varint(number * 8 + wire);
    }

    method U64Field(number: u32, value: u64)
      modifies this
      ensures buf == old(buf) + EncodeFields(U64Fields(number, value))
    {
      if value != 0 {
        Tag(number, 0);
        Varint(value);
        SingleField(Field(number, 0, WireValue.Varint(value)));
      }
    }

    method BytesField(number: u32, value: seq<byte>)
      modifies this
      ensures buf == old(buf) + EncodeFields(BytesFields(number, value))
    {
      if value != [] {
        Tag(number, 2);
        Varint(|value|);
        buf := buf + value;
        SingleField(Field(number, 2, LengthDelimited(value)));
      }
    }

    method MapEntry(number: u32, key: seq<byte>, value: seq<byte>)
      modifies this
      ensures buf == old(buf) + EncodeFields(MapEntryFields(number, key, value))
    {
      var entry := new Writer();
      Advance(entry.buf, BytesFields(MAP_KEY, key), BytesFields(MAP_VALUE, value));
      entry.BytesField(MAP_KEY, key);
      entry.BytesField(MAP_VALUE, value);
      assert entry.buf == EncodeFields(BytesFields(MAP_KEY, key) + BytesFields(MAP_VALUE, value));
      BytesField(number, entry.buf);
    }
  }

  lemma SingleField(f: Field)
    ensures EncodeFields([f]) == EncodeField(f)
  {
    assert EncodeFields([f][1..]) == [];
  }

  lemma SizedByItsField(number: u32, b: seq<byte>)
    ensures |b| <= |EncodeFields(BytesFields(number, b))|
  {
    if b != [] {
      SingleField(Field(number, 2, LengthDelimited(b)));
    }
  }

  lemma MapEntrySizes(number: u32, key: seq<byte>, value: seq<byte>)
    ensures var entry := EncodeFields(BytesFields(MAP_KEY, key) + BytesFields(MAP_VALUE, value));
            && entry == EncodeFields(BytesFields(MAP_KEY, key)) + EncodeFields(BytesFields(MAP_VALUE, value))
            && |key| <= |entry| && |value| <= |entry|
            && |entry| <= |EncodeFields(MapEntryFields(number, key, value))|
  {
    var keyFields, valueFields := BytesFields(MAP_KEY, key), BytesFields(MAP_VALUE, value);
    EncodeFieldsConcat(keyFields, valueFields);
    SizedByItsField(number, EncodeFields(keyFields + valueFields));
    SizedByItsField(MAP_KEY, key);
    SizedByItsField(MAP_VALUE, value);
  }

  lemma {:induction false} EncodeFieldsConcat(a: seq<Field>, b: seq<Field>)
    ensures EncodeFields(a + b) == EncodeFields(a) + EncodeFields(b)
  {
    hide EncodeField;
    if a == [] {
      assert a + b == b;
    } else {
      EncodeFieldsConcat(a[1..], b);
      ConcatHead(a, b);
      ConcatAssociates(EncodeField(a[0]), EncodeFields(a[1..]), EncodeFields(b));
    }
  }

  /** One more chunk written, out of a list that is still to be finished. */
  lemma Advance(before: seq<byte>, chunk: seq<Field>, rest: seq<Field>)
    ensures before + EncodeFields(chunk) + EncodeFields(rest) == before + EncodeFields(chunk + rest)
  {
    EncodeFieldsConcat(chunk, rest);
    ConcatAssociates(before, EncodeFields(chunk), EncodeFields(rest));
  }

  // ----- Round trips

  /** Base 128 varints: what was written is read back, whatever follows it. */
  lemma {:induction false} VarintRoundTrip(v: nat, rest: seq<byte>, i: nat)
    requires i <= 9 && v < VarintCap(i)
    ensures var s := EncodeVarint(v);
            && StrictVarint(s + rest, i) == Got(v, |s|)
            && LenientVarint(s + rest, i) == Got(v, |s|)
    decreases v
  {
    var s := EncodeVarint(v) + rest;
    if v >= 128 {
      VarintRoundTrip(v / 128, rest, i + 1);
      assert s[1..] == EncodeVarint(v / 128) + rest;
    }
  }

  lemma VarintRoundTrips(strict: bool, v: nat, rest: seq<byte>)
    requires v < TWO_64
    ensures ReadVarint(strict, EncodeVarint(v) + rest) == Got(v, |EncodeVarint(v)|)
  {
    VarintRoundTrip(v, rest, 0);
  }

  lemma ValueRoundTrip(strict: bool, f: Field, rest: seq<byte>)
    requires Writable(f) && f.value.Size() < TWO_64
    ensures var s := EncodeValue(f.value);
            ReadValue(strict, f.wire, s + rest) == Got(f.value, |s|)
  {
    match f.value
    case Varint(v) => VarintRoundTrips(strict, v, rest);
    case LengthDelimited(b) =>
      VarintRoundTrips(strict, |b|, b + rest);
      var n := |EncodeVarint(|b|)|;
      assert EncodeVarint(|b|) + b + rest == EncodeVarint(|b|) + (b + rest);
      assert (EncodeVarint(|b|) + b + rest)[n..n + |b|] == b;
  }

  lemma TagRoundTrip(f: Field, rest: seq<byte>)
    requires Writable(f)
    ensures var r := ReadVarint(false, EncodeTag(f.number, f.wire) + rest);
            && r.Got? && r.used == |EncodeTag(f.number, f.wire)|
            && r.value % 8 == f.wire && r.value / 8 % TWO_32 == f.number
  {
    hide EncodeVarint, ReadVarint;
    VarintRoundTrips(false, f.number * 8 + f.wire, rest);
  }

  lemma FieldRoundTrip(f: Field, rest: seq<byte>)
    requires Writable(f) && f.value.Size() < TWO_64
    ensures LenientField(EncodeField(f) + rest) == Got(f, |EncodeField(f)|)
  {
    var tag, tail := EncodeTag(f.number, f.wire), EncodeValue(f.value) + rest;
    assert EncodeField(f) + rest == tag + tail;
    TagRoundTrip(f, tail);
    ValueRoundTrip(false, f, rest);
    assert (tag + tail)[|tag|..] == tail;
  }

  /** Reading back a written list of fields returns exactly that list. */
  lemma {:induction false} FieldsRoundTrip(fs: seq<Field>)
    requires AllWritable(fs)
    requires |EncodeFields(fs)| < TWO_64
    ensures ReadAll(EncodeFields(fs)) == Fields(fs, None)
  {
    if fs != [] {
      var rest := EncodeFields(fs[1..]);
      FieldRoundTrip(fs[0], rest);
      FieldsRoundTrip(fs[1..]);
      assert EncodeFields(fs)[|EncodeField(fs[0])|..] == rest;
    }
  }

  // ----- Folding over what was written

  lemma FoldU64<A>(step: (A, Field) -> A, acc: A, number: u32, v: u64, rest: seq<Field>)
    ensures Fold(step, acc, U64Fields(number, v) + rest)
         == Fold(step, if v == 0 then acc else step(acc, Field(number, 0, Varint(v))), rest)
  {
    FoldOne(step, acc, U64Fields(number, v), rest);
  }

  lemma FoldBytes<A>(step: (A, Field) -> A, acc: A, number: u32, b: seq<byte>, rest: seq<Field>)
    ensures Fold(step, acc, BytesFields(number, b) + rest)
         == Fold(step, if b == [] then acc else step(acc, Field(number, 2, LengthDelimited(b))), rest)
  {
    FoldOne(step, acc, BytesFields(number, b), rest);
  }

  lemma FoldOne<A>(step: (A, Field) -> A, acc: A, chunk: seq<Field>, rest: seq<Field>)
    requires |chunk| <= 1
    ensures Fold(step, acc, chunk + rest)
         == Fold(step, if chunk == [] then acc else step(acc, chunk[0]), rest)
  {
    if chunk == [] {
      assert chunk + rest == rest;
    } else {
      assert (chunk + rest)[1..] == rest;
    }
  }
}
