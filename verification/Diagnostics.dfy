/** Where a decoded event holds fields without a descriptor and enum numbers without a name. */
module Diagnostics {
  import opened Bytes
  import opened Utf8
  import opened Wire
  import opened WireReaders
  import opened Schema
  import opened Dynamic

  type Path = seq<u32>

  datatype FieldKey = FieldKey(path: Path, wireType: nat)
  datatype EnumKey = EnumKey(path: Path, enumType: string, number: int)

  datatype Node = Node(path: Path, field: SchemaField)

  /** `f` is the field that the numbers in `q` lead to, or one of them when numbers repeat. */
  ghost predicate IsNode(fields: seq<SchemaField>, q: Path, f: SchemaField)
    decreases |q|
  {
    q != [] && exists i :: 0 <= i < |fields| && Leads(fields[i], q, f)
  }

  ghost predicate Leads(g: SchemaField, q: Path, f: SchemaField)
    requires q != []
    decreases |q|, 0
  {
    g.number == q[0] && if |q| == 1 then g == f else g.value.SMessage? && IsNode(g.value.nested.fields, q[1..], f)
  }

  /** Every node of a tree with its path, parents first. */
  function Walk(fields: seq<SchemaField>, path: Path): seq<Node>
    decreases fields
  {
    if fields == [] then []
    else WalkOne(fields[0], path + [fields[0].number]) + Walk(fields[1..], path)
  }

  function WalkOne(f: SchemaField, path: Path): seq<Node>
    decreases f, 1
  {
    [Node(path, f)] + Below(f, path)
  }

  function Below(f: SchemaField, path: Path): seq<Node>
    decreases f, 0
  {
    match f.value
    case SMessage(o) => Walk(o.fields, path)
    case _ => []
  }

  function FieldOf(n: Node): seq<FieldKey> {
    if n.field.descriptor.None? then [FieldKey(n.path, n.field.wire)] else []
  }

  function EnumOf(n: Node): seq<EnumKey> {
    if n.field.value.SEnum? && n.field.value.name.None?
    then [EnumKey(n.path, n.field.value.enumType, n.field.value.number)] else []
  }

  function FieldsOf(ns: seq<Node>): seq<FieldKey> {
    if ns == [] then [] else FieldOf(ns[0]) + FieldsOf(ns[1..])
  }

  function EnumsOf(ns: seq<Node>): seq<EnumKey> {
    if ns == [] then [] else EnumOf(ns[0]) + EnumsOf(ns[1..])
  }

  lemma {:induction false} FieldsOfConcat(a: seq<Node>, b: seq<Node>)
    ensures FieldsOf(a + b) == FieldsOf(a) + FieldsOf(b)
  {
    hide FieldOf;
    if a == [] {
      assert a + b == b;
    } else {
      FieldsOfConcat(a[1..], b);
      ConcatHead(a, b);
      ConcatAssociates(FieldOf(a[0]), FieldsOf(a[1..]), FieldsOf(b));
    }
  }

  lemma {:induction false} EnumsOfConcat(a: seq<Node>, b: seq<Node>)
    ensures EnumsOf(a + b) == EnumsOf(a) + EnumsOf(b)
  {
    hide EnumOf;
    if a == [] {
      assert a + b == b;
    } else {
      EnumsOfConcat(a[1..], b);
      ConcatHead(a, b);
      ConcatAssociates(EnumOf(a[0]), EnumsOf(a[1..]), EnumsOf(b));
    }
  }

  lemma {:induction false} WalkSnoc(fields: seq<SchemaField>, f: SchemaField, path: Path)
    ensures Walk(fields + [f], path) == Walk(fields, path) + WalkOne(f, path + [f.number])
  {
    hide WalkOne;
    if fields == [] {
      assert (fields + [f])[1..] == [] && Walk([], path) == [];
    } else {
      WalkSnoc(fields[1..], f, path);
      assert (fields + [f])[0] == fields[0] && (fields + [f])[1..] == fields[1..] + [f];
      ConcatAssociates(WalkOne(fields[0], path + [fields[0].number]), Walk(fields[1..], path),
                       WalkOne(f, path + [f.number]));
    }
  }

  lemma VisitOne(fields: seq<SchemaField>, i: nat, path: Path)
    requires i < |fields|
    ensures var f := fields[i];
            var here, below := Node(path + [f.number], f), Below(f, path + [f.number]);
            var before, after := Walk(fields[..i], path), Walk(fields[..i + 1], path);
            && FieldsOf(after) == FieldsOf(before) + (FieldOf(here) + FieldsOf(below))
            && EnumsOf(after) == EnumsOf(before) + (EnumOf(here) + EnumsOf(below))
  {
    hide FieldOf, EnumOf, Walk;
    var f := fields[i];
    assert fields[..i] + [f] == fields[..i + 1];
    WalkSnoc(fields[..i], f, path);
    var ns := WalkOne(f, path + [f.number]);
    FieldsOfConcat(Walk(fields[..i], path), ns);
    EnumsOfConcat(Walk(fields[..i], path), ns);
    assert ns == [Node(path + [f.number], f)] + Below(f, path + [f.number]);
    assert ns[1..] == Below(f, path + [f.number]);
  }

  /** `visit`: appends to both outputs, pushing and popping the path as it goes. */
  method Visit(fields: seq<SchemaField>, path0: Path, output0: seq<FieldKey>, enums0: seq<EnumKey>)
    returns (output: seq<FieldKey>, enums: seq<EnumKey>)
    ensures output == output0 + FieldsOf(Walk(fields, path0))
    ensures enums == enums0 + EnumsOf(Walk(fields, path0))
    decreases fields
  {
    hide Walk, FieldsOf, EnumsOf;
    output, enums := output0, enums0;
    var path := path0;
    WalkNothing(path0);
    assert fields[..0] == [];
    for i := 0 to |fields|
      invariant path == path0
      invariant output == output0 + FieldsOf(Walk(fields[..i], path0))
      invariant enums == enums0 + EnumsOf(Walk(fields[..i], path0))
    {
      var field := fields[i];
      VisitOne(fields, i, path0);
      path := path + [field.number];
      ghost var here, out1, enums1 := Node(path, field), output, enums;
      if field.descriptor.None? {
        output := output + [FieldKey(path, field.wire)];
      }
      assert output == out1 + FieldOf(here);
      if field.value.SMessage? {
        output, enums := Visit(field.value.nested.fields, path, output, enums);
      }
      if field.value.SEnum? && field.value.name.None? {
        enums := enums + [EnumKey(path, field.value.enumType, field.value.number)];
      }
      path := path[..|path| - 1];
    }
    assert fields[..|fields|] == fields;
  }

  lemma WalkNothing(path: Path)
    ensures Walk([], path) == [] && FieldsOf([]) == [] && EnumsOf([]) == []
  {
  }

  // ----- What the two lists mean

  lemma {:induction false} AtMostOneEach(ns: seq<Node>)
    ensures |FieldsOf(ns)| <= |ns| && |EnumsOf(ns)| <= |ns|
  {
    if ns != [] {
      AtMostOneEach(ns[1..]);
    }
  }

  /** The diagnostics of an event are no longer than its tree, which its field budget bounds. */
  lemma ReportsFitBudget(reg: Registry, name: Str, payload: seq<byte>, budget: nat)
    ensures var nodes := Walk(DecodeEvent(reg, name, payload, budget).0.fields, []);
            |FieldsOf(nodes)| <= Min(budget, MAX_SCHEMA_FIELDS) && |EnumsOf(nodes)| <= Min(budget, MAX_SCHEMA_FIELDS)
  {
    hide Walk, FieldsOf, EnumsOf, DecodeEvent, Nodes;
    var fields := DecodeEvent(reg, name, payload, budget).0.fields;
    EventBounds(reg, name, payload, budget);
    WalkSize(fields, []);
    AtMostOneEach(Walk(fields, []));
  }

  lemma {:induction false} WalkSize(fields: seq<SchemaField>, path: Path)
    ensures |Walk(fields, path)| == Nodes(fields)
    decreases fields
  {
    if fields != [] {
      WalkOneSize(fields[0], path + [fields[0].number]);
      WalkSize(fields[1..], path);
    }
  }

  lemma {:induction false} WalkOneSize(f: SchemaField, path: Path)
    ensures |WalkOne(f, path)| == 1 + FieldNodes(f)
    decreases f
  {
    if f.value.SMessage? {
      WalkSize(f.value.nested.fields, path);
    }
  }

  /** The walk meets exactly the nodes of the tree, each with the path that leads to it. */
  lemma {:induction false} WalkIffNode(fields: seq<SchemaField>, path: Path, n: Node)
    ensures n in Walk(fields, path) <==> path < n.path && IsNode(fields, n.path[|path|..], n.field)
    decreases fields
  {
    hide WalkOne, Leads;
    if fields != [] {
      WalkOneIffLeads(fields[0], path, n);
      WalkIffNode(fields[1..], path, n);
      if path < n.path {
        var q := n.path[|path|..];
        FirstOrRest(fields, q, n.field);
      }
    }
  }

  lemma FirstOrRest(fields: seq<SchemaField>, q: Path, f: SchemaField)
    requires fields != [] && q != []
    ensures IsNode(fields, q, f) <==> Leads(fields[0], q, f) || IsNode(fields[1..], q, f)
  {
    hide Leads;
    if i :| 0 <= i < |fields| && Leads(fields[i], q, f) {
      if i > 0 { assert Leads(fields[1..][i - 1], q, f); }
    }
    if i :| 0 <= i < |fields[1..]| && Leads(fields[1..][i], q, f) {
      assert Leads(fields[i + 1], q, f);
    }
  }

  lemma {:induction false} WalkOneIffLeads(g: SchemaField, path: Path, n: Node)
    ensures n in WalkOne(g, path + [g.number]) <==> path < n.path && Leads(g, n.path[|path|..], n.field)
    decreases g
  {
    hide Walk, IsNode;
    var here := path + [g.number];
    if g.value.SMessage? {
      WalkIffNode(g.value.nested.fields, here, n);
    }
    if path < n.path {
      var q := n.path[|path|..];
      assert n.path == path + q;
      if |q| > 1 && q[0] == g.number {
        assert here < n.path && n.path[|here|..] == q[1..];
      } else if |q| > 1 {
        assert n.path[|path|] != here[|path|];
      } else {
        assert n.path == here <==> q[0] == g.number;
      }
    }
    assert here < n.path ==> n.path[|path|] == g.number && path < n.path;
  }

  lemma {:induction false} InFieldsOf(ns: seq<Node>, k: FieldKey)
    ensures k in FieldsOf(ns) <==> exists n :: n in ns && k in FieldOf(n)
  {
    if ns != [] {
      InFieldsOf(ns[1..], k);
      assert ns == [ns[0]] + ns[1..];
    }
  }

  lemma {:induction false} InEnumsOf(ns: seq<Node>, k: EnumKey)
    ensures k in EnumsOf(ns) <==> exists n :: n in ns && k in EnumOf(n)
  {
    if ns != [] {
      InEnumsOf(ns[1..], k);
      assert ns == [ns[0]] + ns[1..];
    }
  }

  /** A field is reported unknown exactly when a node at that path and wire type has no descriptor. */
  lemma UnknownFieldsAre(fields: seq<SchemaField>, k: FieldKey)
    ensures k in FieldsOf(Walk(fields, [])) <==>
            exists f :: IsNode(fields, k.path, f) && f.descriptor.None? && f.wire == k.wireType
  {
    hide Walk, FieldsOf, IsNode;
    InFieldsOf(Walk(fields, []), k);
    assert k.path[0..] == k.path;
    if n :| n in Walk(fields, []) && k in FieldOf(n) {
      WalkIffNode(fields, [], n);
    }
    if f :| IsNode(fields, k.path, f) && f.descriptor.None? && f.wire == k.wireType {
      var n := Node(k.path, f);
      NodePath(fields, k.path, f);
      WalkIffNode(fields, [], n);
      assert k in FieldOf(n);
    }
  }

  lemma NodePath(fields: seq<SchemaField>, q: Path, f: SchemaField)
    requires IsNode(fields, q, f)
    ensures [] < q
  {
  }

  /** An enum number is reported unknown exactly when a node at that path holds it without a name. */
  lemma UnknownEnumsAre(fields: seq<SchemaField>, k: EnumKey)
    ensures k in EnumsOf(Walk(fields, [])) <==>
            exists f :: IsNode(fields, k.path, f) && f.value == SEnum(k.number, None, k.enumType)
  {
    hide Walk, EnumsOf, IsNode;
    InEnumsOf(Walk(fields, []), k);
    assert k.path[0..] == k.path;
    if n :| n in Walk(fields, []) && k in EnumOf(n) {
      WalkIffNode(fields, [], n);
      assert n.field.value == SEnum(k.number, None, k.enumType);
    }
    if f :| IsNode(fields, k.path, f) && f.value == SEnum(k.number, None, k.enumType) {
      var n := Node(k.path, f);
      NodePath(fields, k.path, f);
      WalkIffNode(fields, [], n);
      assert k in EnumOf(n);
    }
  }

  // ----- Absent fields

  function LowerAscii(c: char): char {
    if 'A' <= c <= 'Z' then c - 'A' + 'a' else c
  }

  /** `eq_ignore_ascii_case` */
  predicate SameName(a: string, b: string) {
    |a| == |b| && forall i :: 0 <= i < |a| ==> LowerAscii(a[i]) == LowerAscii(b[i])
  }

  /** Some field of the tree's top level is declared under `name`. */
  predicate HasField(fields: seq<SchemaField>, name: string) {
    exists i :: 0 <= i < |fields| && fields[i].descriptor.Some? && SameName(fields[i].descriptor.value.name, name)
  }

  /** The names of `observed` that the tree lacks, in order. */
  function Absent(fields: seq<SchemaField>, observed: seq<string>): seq<string> {
    if observed == [] then []
    else (if HasField(fields, observed[0]) then [] else [observed[0]]) + Absent(fields, observed[1..])
  }

  /** A truncated or damaged tree cannot prove absence. */
  function AbsentFields(m: SchemaMessage, observed: seq<string>): seq<string> {
    if m.truncated || m.warning then [] else Absent(m.fields, observed)
  }

  lemma {:induction false} AbsentAre(fields: seq<SchemaField>, observed: seq<string>, name: string)
    ensures multiset(Absent(fields, observed))[name] == if HasField(fields, name) then 0 else multiset(observed)[name]
  {
    hide HasField;
    if observed != [] {
      AbsentAre(fields, observed[1..], name);
      assert observed == [observed[0]] + observed[1..];
      var first := if HasField(fields, observed[0]) then [] else [observed[0]];
      var rest := Absent(fields, observed[1..]);
      assert multiset(first + rest) == multiset(first) + multiset(rest);
    }
  }

  // ----- Emote entries on the wire

  const MAX_INSPECTED: nat := 4096

  function CountEntries(fs: seq<Field>, target: u32): nat {
    if fs == [] then 0
    else CountEntries(fs[..|fs| - 1], target) +
         if fs[|fs| - 1].number == target && fs[|fs| - 1].value.LengthDelimited? then 1 else 0
  }

  /** The entries among the first 4096 fields, and whether those were all of an undamaged payload. */
  function EmoteEntries(payload: seq<byte>, target: u32, complete: bool): (nat, bool) {
    var all := ReadAll(payload);
    (CountEntries(all.fields[..Min(|all.fields|, MAX_INSPECTED)], target),
     complete && |all.fields| <= MAX_INSPECTED && all.error.None?)
  }

  lemma CountNext(fs: seq<Field>, i: nat, target: u32)
    requires i < |fs|
    ensures CountEntries(fs[..i + 1], target) == CountEntries(fs[..i], target) +
            if fs[i].number == target && fs[i].value.LengthDelimited? then 1 else 0
  {
    assert fs[..i + 1][..i] == fs[..i];
  }

  /** `wire_emote_entries`, once its field number is known. */
  method WireEmoteEntries(payload: seq<byte>, target: u32, complete: bool) returns (r: (nat, bool))
    ensures r == EmoteEntries(payload, target, complete)
  {
    hide LenientField, ReadAll, CountEntries;
    var reader := new Reader(payload);
    var entries := 0;
    ghost var all := ReadAll(payload);
    assert payload[0..] == payload && all.fields[..0] == [];
    assert CountEntries([], target) == 0 by { CountNone(target); }
    for i := 0 to MAX_INSPECTED
      invariant reader.Valid() && reader.buf == payload && i <= |all.fields|
      invariant ReadAll(payload[reader.pos..]) == Fields(all.fields[i..], all.error)
      invariant entries == CountEntries(all.fields[..i], target)
    {
      var next := reader.NextField();
      if next.None? {
        assert all.fields[..i] == all.fields;
        return (entries, complete);
      }
      if next.value.Err? {
        assert all.fields[..i] == all.fields;
        return (entries, false);
      }
      var f := next.value.value;
      assert all.fields[i..][0] == f && all.fields[i..][1..] == all.fields[i + 1..];
      CountNext(all.fields, i, target);
      if f.number == target && f.value.LengthDelimited? {
        entries := entries + 1;
      }
    }
    var last := reader.NextField();
    return (entries, complete && last.None?);
  }

  lemma CountNone(target: u32)
    ensures CountEntries([], target) == 0
  {
  }
}
