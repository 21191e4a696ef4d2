/** Decoding without a schema: the raw field list and the tree decoder's view of an unknown method. */
module RawFields {
  import opened Bytes
  import opened Wire
  import opened WireReaders
  import opened Schema
  import opened Dynamic

  method DecodeRawFields(buf: seq<byte>) returns (r: Result<seq<Field>, ProtoError>)
    ensures r == if ReadAll(buf).error.None? then Ok(ReadAll(buf).fields) else Err(ReadAll(buf).error.value)
  {
    hide LenientField;
    var fields := [];
    var reader := new Reader(buf);
    assert buf[0..] == buf;
    while true
      invariant reader.Valid() && reader.buf == buf
      invariant fields + ReadAll(buf[reader.pos..]).fields == ReadAll(buf).fields
      invariant ReadAll(buf[reader.pos..]).error == ReadAll(buf).error
      decreases |buf| - reader.pos
    {
      var next := reader.NextField();
      if next.None? {
        assert fields + [] == fields;
        return Ok(fields);
      }
      if next.value.Err? { return Err(next.value.error); }
      fields := fields + [next.value.value];
    }
  }

  /** Every field from here to the end is one the strict decoder accepts. */
  predicate StrictlyWellFormed(s: seq<byte>) {
    s == [] || (StrictField(s).Good? && StrictlyWellFormed(s[StrictField(s).used..]))
  }

  /** A raw field as a tree node without a descriptor. */
  function Untyped(f: Field): SchemaField {
    var value :=
      match f.value
      case Varint(v) => SVarint(v)
      case Fixed64(v) => SFixed64(v)
      case Fixed32(v) => SFixed32(v)
      case LengthDelimited(b) => SBytes(b);
    SchemaField(f.number, None, value, f.wire, false)
  }

  function UntypedAll(fs: seq<Field>): (r: seq<SchemaField>)
    ensures |r| == |fs|
    ensures forall i :: 0 <= i < |fs| ==> r[i] == Untyped(fs[i])
  {
    if fs == [] then [] else [Untyped(fs[0])] + UntypedAll(fs[1..])
  }

  /**
   * Without a schema the tree decoder returns the first `min(budget, n)` of the `n` raw fields,
   * never warns, and is truncated exactly when the budget was short.
   */
  lemma {:induction false} NoSchemaIsRaw(reg: Registry, depth: nat, s: seq<byte>, left: nat)
    requires StrictlyWellFormed(s)
    ensures ReadAll(s).error.None?
    ensures var all := ReadAll(s).fields;
            var kept := Min(left, |all|);
            DecodeFields(reg, None, depth, s, left) ==
              Outcome(UntypedAll(all[..kept]), false, |all| > left, left - kept)
    decreases |s|
  {
    hide StrictField, LenientField, ReadAll;
    var all := ReadAll(s).fields;
    if s == [] {
      assert ReadAll(s) == Fields([], None) by { ReadAllStep(s); }
    } else {
      ReadAllStep(s);
      FieldsAgree(s);
      var strict := StrictField(s);
      var rest := s[strict.used..];
      if left == 0 {
        NoSchemaIsRaw(reg, depth, rest, 0);
      } else {
        NoSchemaIsRaw(reg, depth, rest, left - 1);
        var kept := Min(left - 1, |ReadAll(rest).fields|);
        assert all[..kept + 1] == [strict.field] + ReadAll(rest).fields[..kept];
        assert (all[..kept + 1])[1..] == ReadAll(rest).fields[..kept];
        assert DecodeOne(reg, None, depth, strict.field, left)
            == Outcome([Untyped(strict.field)], false, false, left - 1);
      }
    }
  }

  lemma ReadAllStep(s: seq<byte>)
    ensures s == [] ==> ReadAll(s) == Fields([], None)
    ensures s != [] && LenientField(s).Got? ==>
              var rest := ReadAll(s[LenientField(s).used..]);
              ReadAll(s) == Fields([LenientField(s).value] + rest.fields, rest.error)
  {
  }
}
