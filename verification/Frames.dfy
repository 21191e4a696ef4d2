/** The two transport messages: the fetch result that opens a socket and the frame that crosses it. */
module Frames {
  import opened Bytes
  import opened Utf8
  import opened Wire
  import opened WireReaders
  import opened WireWriter

  type Pairs = seq<(Str, Str)>

  datatype FetchResult = FetchResult(
    pushServer: Str, routeParams: Pairs, cursor: Str, internalExt: Str,
    heartbeatDuration: u64, needAck: bool)

  datatype PushFrame = PushFrame(
    seqId: u64, logId: u64, service: u64, method_: u64, headers: Pairs,
    payloadEncoding: Str, payloadType: Str, payload: seq<byte>)

  const NO_FETCH := FetchResult([], [], [], [], 0, false)
  const NO_FRAME := PushFrame(0, 0, 0, 0, [], [], [], [])

  // ----- Field accessors

  function AsStr(v: WireValue): Option<Str> {
    if v.LengthDelimited? && IsUtf8(v.bytes) then Some(v.bytes) else None
  }

  /** `as_str().unwrap_or_default()`. */
  function StrOf(v: WireValue): Str {
    if AsStr(v).Some? then AsStr(v).value else []
  }

  /** `as_u64().unwrap_or_default()`. */
  function U64Of(v: WireValue): u64 {
    if v.AsU64().Some? then v.AsU64().value else 0
  }

  // ----- Map entries

  datatype Entry = Entry(key: Option<Str>, value: Str)

  function EntryStep(e: Entry, f: Field): Entry {
    if AsStr(f.value).None? then e
    else if f.number == MAP_KEY then e.(key := AsStr(f.value))
    else if f.number == MAP_VALUE then e.(value := AsStr(f.value).value)
    else e
  }

  /** A damaged entry still yields what was decoded before the damage; one without a key is dropped. */
  function EntryPairs(buf: seq<byte>): Pairs {
    var e := Fold(EntryStep, Entry(None, []), ReadAll(buf).fields);
    if e.key.Some? then [(e.key.value, e.value)] else []
  }

  method DecodeMapEntry(buf: seq<byte>) returns (pairs: Pairs)
    ensures pairs == EntryPairs(buf)
  {
    var key: Option<Str>, value: Str := None, [];
    var reader := new Reader(buf);
    while true
      invariant reader.Valid() && reader.buf == buf
      invariant Fold(EntryStep, Entry(key, value), ReadAll(buf[reader.pos..]).fields)
             == Fold(EntryStep, Entry(None, []), ReadAll(buf).fields)
      decreases |buf| - reader.pos
    {
      var next := reader.NextField();
      if next.None? || next.value.Err? { break; }
      var field := next.value.value;
      if AsStr(field.value).Some? {
        if field.number == MAP_KEY {
          key := AsStr(field.value);
        } else if field.number == MAP_VALUE {
          value := AsStr(field.value).value;
        }
      }
    }
    pairs := if key.Some? then [(key.value, value)] else [];
  }

  function PairsOf(v: WireValue): Pairs {
    if v.LengthDelimited? then EntryPairs(v.bytes) else []
  }

  // ----- Decoding

  function FetchStep(r: FetchResult, f: Field): FetchResult {
    if f.number == 2 then r.(cursor := StrOf(f.value))
    else if f.number == 5 then r.(internalExt := StrOf(f.value))
    else if f.number == 10 then r.(pushServer := StrOf(f.value))
    else if f.number == 8 then r.(heartbeatDuration := U64Of(f.value))
    else if f.number == 9 then r.(needAck := U64Of(f.value) != 0)
    else if f.number == 7 then r.(routeParams := r.routeParams + PairsOf(f.value))
    else r
  }

  function FrameStep(p: PushFrame, f: Field): PushFrame {
    if f.number == 1 then p.(seqId := U64Of(f.value))
    else if f.number == 2 then p.(logId := U64Of(f.value))
    else if f.number == 3 then p.(service := U64Of(f.value))
    else if f.number == 4 then p.(method_ := U64Of(f.value))
    else if f.number == 5 then p.(headers := p.headers + PairsOf(f.value))
    else if f.number == 6 then p.(payloadEncoding := StrOf(f.value))
    else if f.number == 7 then p.(payloadType := StrOf(f.value))
    else if f.number == 8 then p.(payload := if f.value.LengthDelimited? then f.value.bytes else [])
    else p
  }

  function FetchOf(buf: seq<byte>): Result<FetchResult, ProtoError> {
    match ReadAll(buf)
    case Fields(fs, None) => Ok(Fold(FetchStep, NO_FETCH, fs))
    case Fields(_, Some(e)) => Err(e)
  }

  function FrameOf(buf: seq<byte>): Result<PushFrame, ProtoError> {
    match ReadAll(buf)
    case Fields(fs, None) => Ok(Fold(FrameStep, NO_FRAME, fs))
    case Fields(_, Some(e)) => Err(e)
  }

  method DecodeFetchResult(buf: seq<byte>) returns (r: Result<FetchResult, ProtoError>)
    ensures r == FetchOf(buf)
  {
    var out := NO_FETCH;
    var reader := new Reader(buf);
    while true
      invariant reader.Valid() && reader.buf == buf
      invariant Fold(FetchStep, out, ReadAll(buf[reader.pos..]).fields)
             == Fold(FetchStep, NO_FETCH, ReadAll(buf).fields)
      invariant ReadAll(buf[reader.pos..]).error == ReadAll(buf).error
      decreases |buf| - reader.pos
    {
      var next := reader.NextField();
      if next.None? { return Ok(out); }
      if next.value.Err? { return Err(next.value.error); }
      var field := next.value.value;
      var value := field.value;
      match field.number
      case 2 => out := out.(cursor := StrOf(value));
      case 5 => out := out.(internalExt := StrOf(value));
      case 10 => out := out.(pushServer := StrOf(value));
      case 8 => out := out.(heartbeatDuration := U64Of(value));
      case 9 => out := out.(needAck := U64Of(value) != 0);
      case 7 =>
        if value.LengthDelimited? {
          var entry := DecodeMapEntry(value.bytes);
          out := out.(routeParams := out.routeParams + entry);
        } else {
          assert out.routeParams + [] == out.routeParams;
        }
      case _ =>
    }
  }

  method DecodePushFrame(buf: seq<byte>) returns (r: Result<PushFrame, ProtoError>)
    ensures r == FrameOf(buf)
  {
    var out := NO_FRAME;
    var reader := new Reader(buf);
    while true
      invariant reader.Valid() && reader.buf == buf
      invariant Fold(FrameStep, out, ReadAll(buf[reader.pos..]).fields)
             == Fold(FrameStep, NO_FRAME, ReadAll(buf).fields)
      invariant ReadAll(buf[reader.pos..]).error == ReadAll(buf).error
      decreases |buf| - reader.pos
    {
      var next := reader.NextField();
      if next.None? { return Ok(out); }
      if next.value.Err? { return Err(next.value.error); }
      var field := next.value.value;
      var value := field.value;
      match field.number
      case 1 => out := out.(seqId := U64Of(value));
      case 2 => out := out.(logId := U64Of(value));
      case 3 => out := out.(service := U64Of(value));
      case 4 => out := out.(method_ := U64Of(value));
      case 5 =>
        if value.LengthDelimited? {
          var entry := DecodeMapEntry(value.bytes);
          out := out.(headers := out.headers + entry);
        } else {
          assert out.headers + [] == out.headers;
        }
      case 6 => out := out.(payloadEncoding := StrOf(value));
      case 7 => out := out.(payloadType := StrOf(value));
      case 8 => out := out.(payload := if value.LengthDelimited? then value.bytes else []);
      case _ =>
    }
  }

  // ----- Decoding is last wins

  /** The value of the last field with this number, or the empty default. */
  function LastOf(fs: seq<Field>, number: u32): Option<WireValue> {
    if fs == [] then None
    else if fs[|fs| - 1].number == number then Some(fs[|fs| - 1].value)
    else LastOf(fs[..|fs| - 1], number)
  }

  function LastU64(fs: seq<Field>, number: u32): u64 {
    var v := LastOf(fs, number);
    if v.Some? then U64Of(v.value) else 0
  }

  function LastStr(fs: seq<Field>, number: u32): Str {
    var v := LastOf(fs, number);
    if v.Some? then StrOf(v.value) else []
  }

  function LastBytes(fs: seq<Field>, number: u32): seq<byte> {
    var v := LastOf(fs, number);
    if v.Some? && v.value.LengthDelimited? then v.value.bytes else []
  }

  /** The map entries of all fields with this number, in order. */
  function Entries(fs: seq<Field>, number: u32): Pairs {
    if fs == [] then []
    else
      Entries(fs[..|fs| - 1], number) +
      if fs[|fs| - 1].number == number then PairsOf(fs[|fs| - 1].value) else []
  }

  lemma FoldLast<A>(step: (A, Field) -> A, acc: A, fs: seq<Field>)
    requires fs != []
    ensures Fold(step, acc, fs) == step(Fold(step, acc, fs[..|fs| - 1]), fs[|fs| - 1])
  {
    var p, last := fs[..|fs| - 1], fs[|fs| - 1];
    assert fs == p + [last];
    FoldConcat(step, acc, p, [last]);
    assert [last][1..] == [];
  }

  predicate NothingLast(n: u32) {
    LastU64([], n) == 0 && LastStr([], n) == [] && LastBytes([], n) == [] && Entries([], n) == []
  }

  lemma NoneIsLast(n: u32)
    ensures NothingLast(n)
  {
  }

  /** What the last field of `fs` changes under the number `n`. */
  predicate LastSteps(fs: seq<Field>, n: u32)
    requires fs != []
  {
    var p, f := fs[..|fs| - 1], fs[|fs| - 1];
    if f.number == n then
      && LastU64(fs, n) == U64Of(f.value) && LastStr(fs, n) == StrOf(f.value)
      && LastBytes(fs, n) == (if f.value.LengthDelimited? then f.value.bytes else [])
      && Entries(fs, n) == Entries(p, n) + PairsOf(f.value)
    else
      && LastU64(fs, n) == LastU64(p, n) && LastStr(fs, n) == LastStr(p, n)
      && LastBytes(fs, n) == LastBytes(p, n) && Entries(fs, n) == Entries(p, n)
  }

  lemma LastStep(fs: seq<Field>, n: u32)
    requires fs != []
    ensures LastSteps(fs, n)
  {
    hide PairsOf, StrOf, U64Of;
    PairsAssociate(Entries(fs[..|fs| - 1], n), [], []);
  }

  /** A decoded frame holds, under the protocol's field numbers, the last value of each and every header. */
  lemma {:induction false} FrameIsLast(fs: seq<Field>)
    ensures Fold(FrameStep, NO_FRAME, fs) ==
            PushFrame(LastU64(fs, 1), LastU64(fs, 2), LastU64(fs, 3), LastU64(fs, 4), Entries(fs, 5),
                      LastStr(fs, 6), LastStr(fs, 7), LastBytes(fs, 8))
  {
    hide Fold, PairsOf, StrOf, U64Of, LastU64, LastStr, LastBytes, Entries;
    if fs == [] {
      FoldNothing(FrameStep, NO_FRAME);
      forall n: u32 ensures NothingLast(n) { NoneIsLast(n); }
      assert NothingLast(1) && NothingLast(2) && NothingLast(3) && NothingLast(4) && NothingLast(5);
      assert NothingLast(6) && NothingLast(7) && NothingLast(8);
    } else {
      FrameIsLast(fs[..|fs| - 1]);
      FoldLast(FrameStep, NO_FRAME, fs);
      forall n: u32 ensures LastSteps(fs, n) { LastStep(fs, n); }
      assert LastSteps(fs, 1) && LastSteps(fs, 2) && LastSteps(fs, 3) && LastSteps(fs, 4) && LastSteps(fs, 5);
      assert LastSteps(fs, 6) && LastSteps(fs, 7) && LastSteps(fs, 8);
    }
  }

  lemma FoldNothing<A>(step: (A, Field) -> A, acc: A)
    ensures Fold(step, acc, []) == acc
  {
  }

  /** And so does a decoded fetch result. */
  lemma {:induction false} FetchIsLast(fs: seq<Field>)
    ensures Fold(FetchStep, NO_FETCH, fs) ==
            FetchResult(LastStr(fs, 10), Entries(fs, 7), LastStr(fs, 2), LastStr(fs, 5),
                        LastU64(fs, 8), LastU64(fs, 9) != 0)
  {
    hide Fold, PairsOf, StrOf, U64Of, LastU64, LastStr, LastBytes, Entries;
    if fs == [] {
      FoldNothing(FetchStep, NO_FETCH);
      forall n: u32 ensures NothingLast(n) { NoneIsLast(n); }
      assert NothingLast(2) && NothingLast(5) && NothingLast(7) && NothingLast(8) && NothingLast(9);
      assert NothingLast(10);
    } else {
      FetchIsLast(fs[..|fs| - 1]);
      FoldLast(FetchStep, NO_FETCH, fs);
      forall n: u32 ensures LastSteps(fs, n) { LastStep(fs, n); }
      assert LastSteps(fs, 2) && LastSteps(fs, 5) && LastSteps(fs, 7) && LastSteps(fs, 8) && LastSteps(fs, 9);
      assert LastSteps(fs, 10);
    }
  }

  lemma {:induction false} EntryIsLast(fs: seq<Field>)
    ensures var e := Fold(EntryStep, Entry(None, []), fs);
            && e.key == LastText(fs, MAP_KEY)
            && e.value == if LastText(fs, MAP_VALUE).Some? then LastText(fs, MAP_VALUE).value else []
  {
    hide Fold, AsStr;
    if fs == [] {
      FoldNothing(EntryStep, Entry(None, []));
    } else {
      EntryIsLast(fs[..|fs| - 1]);
      FoldLast(EntryStep, Entry(None, []), fs);
    }
  }

  /** The last field with this number that is text. */
  function LastText(fs: seq<Field>, number: u32): Option<Str> {
    if fs == [] then None
    else
      var last := fs[|fs| - 1];
      if last.number == number && AsStr(last.value).Some? then AsStr(last.value) else LastText(fs[..|fs| - 1], number)
  }

  // ----- Encoding

  function PairFields(number: u32, pairs: Pairs): (fs: seq<Field>)
    ensures AllWritable(fs)
  {
    if pairs == [] then []
    else MapEntryFields(number, pairs[0].0, pairs[0].1) + PairFields(number, pairs[1..])
  }

  function FetchFields(r: FetchResult): (fs: seq<Field>)
    ensures AllWritable(fs)
  {
    Then(BytesFields(2, r.cursor), Then(BytesFields(5, r.internalExt),
    Then(PairFields(7, r.routeParams), Then(U64Fields(8, r.heartbeatDuration),
    Then(U64Fields(9, if r.needAck then 1 else 0), BytesFields(10, r.pushServer))))))
  }

  function FrameFields(p: PushFrame): (fs: seq<Field>)
    ensures AllWritable(fs)
  {
    Then(U64Fields(1, p.seqId), Then(U64Fields(2, p.logId), Then(U64Fields(3, p.service),
    Then(U64Fields(4, p.method_), Then(PairFields(5, p.headers),
    Then(BytesFields(6, p.payloadEncoding), Then(BytesFields(7, p.payloadType),
    BytesFields(8, p.payload))))))))
  }

  function FetchBytes(r: FetchResult): seq<byte> {
    EncodeFields(FetchFields(r))
  }

  function FrameBytes(p: PushFrame): seq<byte> {
    EncodeFields(FrameFields(p))
  }

  /** One `map_entry` per pair, in order. */
  method WritePairs(w: Writer, number: u32, pairs: Pairs)
    modifies w
    ensures w.buf == old(w.buf) + EncodeFields(PairFields(number, pairs))
  {
    for i := 0 to |pairs|
      invariant w.buf + EncodeFields(PairFields(number, pairs[i..]))
             == old(w.buf) + EncodeFields(PairFields(number, pairs))
    {
      ghost var before := w.buf;
      w.MapEntry(number, pairs[i].0, pairs[i].1);
      Advance(before, MapEntryFields(number, pairs[i].0, pairs[i].1), PairFields(number, pairs[i + 1..]));
      assert pairs[i..][1..] == pairs[i + 1..];
    }
    assert pairs[|pairs|..] == [];
  }

  method EncodeFetchResult(r: FetchResult) returns (out: seq<byte>)
    ensures out == FetchBytes(r)
  {
    hide EncodeFields, U64Fields, BytesFields, PairFields;
    ghost var ack := if r.needAck then 1 else 0;
    ghost var t6 := BytesFields(10, r.pushServer);
    ghost var t5 := U64Fields(9, ack) + t6;
    ghost var t4 := U64Fields(8, r.heartbeatDuration) + t5;
    ghost var t3 := PairFields(7, r.routeParams) + t4;
    ghost var t2 := BytesFields(5, r.internalExt) + t3;
    var w := new Writer();
    Advance(w.buf, BytesFields(2, r.cursor), t2);
    w.BytesField(2, r.cursor);
    Advance(w.buf, BytesFields(5, r.internalExt), t3);
    w.BytesField(5, r.internalExt);
    Advance(w.buf, PairFields(7, r.routeParams), t4);
    WritePairs(w, 7, r.routeParams);
    Advance(w.buf, U64Fields(8, r.heartbeatDuration), t5);
    w.U64Field(8, r.heartbeatDuration);
    Advance(w.buf, U64Fields(9, ack), t6);
    w.U64Field(9, if r.needAck then 1 else 0);
    w.BytesField(10, r.pushServer);
    out := w.buf;
  }

  /** The four numbers at the front of a frame, before the fields `rest`. */
  function NumberFields(p: PushFrame, rest: seq<Field>): seq<Field> {
    U64Fields(1, p.seqId) + (U64Fields(2, p.logId) + (U64Fields(3, p.service) + (U64Fields(4, p.method_) + rest)))
  }

  function TextFields(p: PushFrame): seq<Field> {
    BytesFields(6, p.payloadEncoding) + (BytesFields(7, p.payloadType) + BytesFields(8, p.payload))
  }

  lemma FrameParts(p: PushFrame)
    ensures FrameFields(p) == NumberFields(p, PairFields(5, p.headers) + TextFields(p))
  {
    hide U64Fields, BytesFields, PairFields;
  }

  method WriteNumbers(w: Writer, p: PushFrame, ghost rest: seq<Field>)
    modifies w
    ensures w.buf + EncodeFields(rest) == old(w.buf) + EncodeFields(NumberFields(p, rest))
  {
    hide EncodeFields, U64Fields;
    ghost var t4 := U64Fields(4, p.method_) + rest;
    ghost var t3 := U64Fields(3, p.service) + t4;
    Advance(w.buf, U64Fields(1, p.seqId), U64Fields(2, p.logId) + t3);
    w.U64Field(1, p.seqId);
    Advance(w.buf, U64Fields(2, p.logId), t3);
    w.U64Field(2, p.logId);
    Advance(w.buf, U64Fields(3, p.service), t4);
    w.U64Field(3, p.service);
    Advance(w.buf, U64Fields(4, p.method_), rest);
    w.U64Field(4, p.method_);
  }

  method WriteTexts(w: Writer, p: PushFrame)
    modifies w
    ensures w.buf == old(w.buf) + EncodeFields(TextFields(p))
  {
    hide EncodeFields, BytesFields;
    ghost var last := BytesFields(8, p.payload);
    Advance(w.buf, BytesFields(6, p.payloadEncoding), BytesFields(7, p.payloadType) + last);
    w.BytesField(6, p.payloadEncoding);
    Advance(w.buf, BytesFields(7, p.payloadType), last);
    w.BytesField(7, p.payloadType);
    w.BytesField(8, p.payload);
  }

  method EncodePushFrame(p: PushFrame) returns (out: seq<byte>)
    ensures out == FrameBytes(p)
  {
    hide EncodeFields, NumberFields, TextFields, PairFields, FrameFields;
    FrameParts(p);
    var w := new Writer();
    WriteNumbers(w, p, PairFields(5, p.headers) + TextFields(p));
    Advance(w.buf, PairFields(5, p.headers), TextFields(p));
    WritePairs(w, 5, p.headers);
    WriteTexts(w, p);
    out := w.buf;
  }

  // ----- Round trips

  /** The pairs that survive a trip over the wire: an entry whose key is empty loses it. */
  function Keyed(pairs: Pairs): Pairs {
    if pairs == [] then []
    else (if pairs[0].0 == [] then [] else [pairs[0]]) + Keyed(pairs[1..])
  }

  lemma EntryRoundTrip(key: Str, value: Str)
    requires |EncodeFields(BytesFields(MAP_KEY, key) + BytesFields(MAP_VALUE, value))| < TWO_64
    ensures EntryPairs(EncodeFields(BytesFields(MAP_KEY, key) + BytesFields(MAP_VALUE, value)))
         == if key == [] then [] else [(key, value)]
  {
    var k, v := BytesFields(MAP_KEY, key), BytesFields(MAP_VALUE, value);
    FieldsRoundTrip(k + v);
    FoldConcat(EntryStep, Entry(None, []), k, v);
    var e := Entry(if key == [] then None else Some(key), []);
    assert Fold(EntryStep, Entry(None, []), k) == e;
    assert Fold(EntryStep, e, v) == e.(value := value);
  }

  /** The pairs carried by a list of map entries, whatever field they arrive in. */
  function Carried(fs: seq<Field>): Pairs {
    if fs == [] then [] else PairsOf(fs[0].value) + Carried(fs[1..])
  }

  lemma {:induction false} PairsRoundTrip(number: u32, pairs: Pairs)
    requires |EncodeFields(PairFields(number, pairs))| < TWO_64
    ensures Carried(PairFields(number, pairs)) == Keyed(pairs)
    ensures forall i :: 0 <= i < |PairFields(number, pairs)| ==> PairFields(number, pairs)[i].number == number
  {
    if pairs != [] {
      var key, value := pairs[0].0, pairs[0].1;
      var entry := MapEntryFields(number, key, value);
      var rest := PairFields(number, pairs[1..]);
      EncodeFieldsConcat(entry, rest);
      PairsRoundTrip(number, pairs[1..]);
      MapEntrySizes(number, key, value);
      EntryRoundTrip(key, value);
      if entry == [] {
        EmptyEntry(key, value);
        assert entry + rest == rest;
      } else {
        assert (entry + rest)[1..] == rest;
      }
    }
  }

  lemma EmptyEntry(key: Str, value: Str)
    requires EncodeFields(BytesFields(MAP_KEY, key) + BytesFields(MAP_VALUE, value)) == []
    ensures key == []
  {
    MapEntrySizes(1, key, value);
    if key != [] {
      SizedByItsField(MAP_KEY, key);
    }
  }

  lemma PairsAssociate(x: Pairs, y: Pairs, z: Pairs)
    ensures x + (y + z) == x + y + z
    ensures x + [] == x && [] + x == x
  {
  }

  lemma {:induction false} FetchCarries(r: FetchResult, fs: seq<Field>)
    requires forall i :: 0 <= i < |fs| ==> fs[i].number == 7
    ensures Fold(FetchStep, r, fs) == r.(routeParams := r.routeParams + Carried(fs))
    decreases |fs|
  {
    if fs == [] {
      PairsAssociate(r.routeParams, [], []);
    } else {
      var next := r.(routeParams := r.routeParams + PairsOf(fs[0].value));
      assert FetchStep(r, fs[0]) == next;
      FetchCarries(next, fs[1..]);
      PairsAssociate(r.routeParams, PairsOf(fs[0].value), Carried(fs[1..]));
    }
  }

  lemma {:induction false} FrameCarries(p: PushFrame, fs: seq<Field>)
    requires forall i :: 0 <= i < |fs| ==> fs[i].number == 5
    ensures Fold(FrameStep, p, fs) == p.(headers := p.headers + Carried(fs))
    decreases |fs|
  {
    if fs == [] {
      PairsAssociate(p.headers, [], []);
    } else {
      var next := p.(headers := p.headers + PairsOf(fs[0].value));
      assert FrameStep(p, fs[0]) == next;
      FrameCarries(next, fs[1..]);
      PairsAssociate(p.headers, PairsOf(fs[0].value), Carried(fs[1..]));
    }
  }

  lemma FetchPairs(acc: FetchResult, pairs: Pairs, rest: seq<Field>)
    requires |EncodeFields(PairFields(7, pairs) + rest)| < TWO_64
    requires acc.routeParams == []
    ensures Fold(FetchStep, acc, PairFields(7, pairs) + rest)
         == Fold(FetchStep, acc.(routeParams := Keyed(pairs)), rest)
  {
    EncodeFieldsConcat(PairFields(7, pairs), rest);
    PairsRoundTrip(7, pairs);
    FoldConcat(FetchStep, acc, PairFields(7, pairs), rest);
    FetchCarries(acc, PairFields(7, pairs));
    PairsAssociate(Keyed(pairs), [], []);
  }

  lemma FetchTail(acc: FetchResult, r: FetchResult)
    requires acc.heartbeatDuration == 0 && !acc.needAck && acc.pushServer == []
    ensures Fold(FetchStep, acc, U64Fields(8, r.heartbeatDuration)
                 + (U64Fields(9, if r.needAck then 1 else 0) + BytesFields(10, r.pushServer)))
         == acc.(heartbeatDuration := r.heartbeatDuration, needAck := r.needAck, pushServer := r.pushServer)
  {
    var ack := if r.needAck then 1 else 0;
    var last := BytesFields(10, r.pushServer);
    FoldU64(FetchStep, acc, 8, r.heartbeatDuration, U64Fields(9, ack) + last);
    var r4 := acc.(heartbeatDuration := r.heartbeatDuration);
    FoldU64(FetchStep, r4, 9, ack, last);
    FoldBytes(FetchStep, r4.(needAck := r.needAck), 10, r.pushServer, []);
    assert last + [] == last;
  }

  /** The fields of a fetch result after its two texts. */
  function FetchRest(r: FetchResult): seq<Field> {
    PairFields(7, r.routeParams) + FetchLast(r)
  }

  function FetchLast(r: FetchResult): seq<Field> {
    U64Fields(8, r.heartbeatDuration)
    + (U64Fields(9, if r.needAck then 1 else 0) + BytesFields(10, r.pushServer))
  }

  lemma FetchHead(r: FetchResult, rest: seq<Field>)
    ensures var head := BytesFields(2, r.cursor) + (BytesFields(5, r.internalExt) + rest);
            && Fold(FetchStep, NO_FETCH, head)
            == Fold(FetchStep, NO_FETCH.(cursor := r.cursor, internalExt := r.internalExt), rest)
            && |EncodeFields(rest)| <= |EncodeFields(head)|
  {
    hide EncodeFields, Fold;
    var t2 := BytesFields(5, r.internalExt) + rest;
    EncodeFieldsConcat(BytesFields(2, r.cursor), t2);
    EncodeFieldsConcat(BytesFields(5, r.internalExt), rest);
    FoldBytes(FetchStep, NO_FETCH, 2, r.cursor, t2);
    FoldBytes(FetchStep, NO_FETCH.(cursor := r.cursor), 5, r.internalExt, rest);
  }

  /** `FetchResult::decode(r.encode())` is `r` without its empty-key route parameters. */
  lemma FetchRoundTrip(r: FetchResult)
    requires |FetchBytes(r)| < TWO_64
    ensures FetchOf(FetchBytes(r)) == Ok(r.(routeParams := Keyed(r.routeParams)))
  {
    hide EncodeFields, Fold, ReadAll, FetchStep, Keyed, PairFields, U64Fields, BytesFields;
    FieldsRoundTrip(FetchFields(r));
    FetchHead(r, FetchRest(r));
    var head := NO_FETCH.(cursor := r.cursor, internalExt := r.internalExt);
    FetchPairs(head, r.routeParams, FetchLast(r));
    FetchTail(head.(routeParams := Keyed(r.routeParams)), r);
  }

  lemma FramePairs(acc: PushFrame, pairs: Pairs, rest: seq<Field>)
    requires |EncodeFields(PairFields(5, pairs) + rest)| < TWO_64
    requires acc.headers == []
    ensures Fold(FrameStep, acc, PairFields(5, pairs) + rest)
         == Fold(FrameStep, acc.(headers := Keyed(pairs)), rest)
  {
    EncodeFieldsConcat(PairFields(5, pairs), rest);
    PairsRoundTrip(5, pairs);
    FoldConcat(FrameStep, acc, PairFields(5, pairs), rest);
    FrameCarries(acc, PairFields(5, pairs));
    PairsAssociate(Keyed(pairs), [], []);
  }

  lemma FrameHead(p: PushFrame, rest: seq<Field>)
    ensures Fold(FrameStep, NO_FRAME, NumberFields(p, rest)) == Fold(FrameStep, NO_FRAME.(
              seqId := p.seqId, logId := p.logId, service := p.service, method_ := p.method_), rest)
  {
    hide Fold;
    var t4 := U64Fields(4, p.method_) + rest;
    var t3 := U64Fields(3, p.service) + t4;
    FoldU64(FrameStep, NO_FRAME, 1, p.seqId, U64Fields(2, p.logId) + t3);
    var p1 := NO_FRAME.(seqId := p.seqId);
    FoldU64(FrameStep, p1, 2, p.logId, t3);
    var p2 := p1.(logId := p.logId);
    FoldU64(FrameStep, p2, 3, p.service, t4);
    FoldU64(FrameStep, p2.(service := p.service), 4, p.method_, rest);
  }

  lemma FrameHeadSize(p: PushFrame, rest: seq<Field>)
    ensures |EncodeFields(rest)| <= |EncodeFields(NumberFields(p, rest))|
  {
    hide EncodeFields, U64Fields;
    var t4 := U64Fields(4, p.method_) + rest;
    var t3 := U64Fields(3, p.service) + t4;
    EncodeFieldsConcat(U64Fields(1, p.seqId), U64Fields(2, p.logId) + t3);
    EncodeFieldsConcat(U64Fields(2, p.logId), t3);
    EncodeFieldsConcat(U64Fields(3, p.service), t4);
    EncodeFieldsConcat(U64Fields(4, p.method_), rest);
  }

  lemma FrameTail(acc: PushFrame, p: PushFrame)
    requires acc.payloadEncoding == [] && acc.payloadType == [] && acc.payload == []
    ensures Fold(FrameStep, acc, BytesFields(6, p.payloadEncoding)
                 + (BytesFields(7, p.payloadType) + BytesFields(8, p.payload)))
         == acc.(payloadEncoding := p.payloadEncoding, payloadType := p.payloadType, payload := p.payload)
  {
    var last := BytesFields(8, p.payload);
    FoldBytes(FrameStep, acc, 6, p.payloadEncoding, BytesFields(7, p.payloadType) + last);
    var p6 := acc.(payloadEncoding := p.payloadEncoding);
    FoldBytes(FrameStep, p6, 7, p.payloadType, last);
    FoldBytes(FrameStep, p6.(payloadType := p.payloadType), 8, p.payload, []);
    assert last + [] == last;
  }

  /** `PushFrame::decode(f.encode())` is `f` without its empty-key headers. */
  lemma FrameRoundTrip(p: PushFrame)
    requires |FrameBytes(p)| < TWO_64
    ensures FrameOf(FrameBytes(p)) == Ok(p.(headers := Keyed(p.headers)))
  {
    hide EncodeFields, Fold, ReadAll, FrameStep, Keyed, PairFields, FrameFields, NumberFields;
    FieldsRoundTrip(FrameFields(p));
    FrameParts(p);
    var rest := PairFields(5, p.headers) + TextFields(p);
    FrameHead(p, rest);
    FrameHeadSize(p, rest);
    var p4 := NO_FRAME.(seqId := p.seqId, logId := p.logId, service := p.service, method_ := p.method_);
    FramePairs(p4, p.headers, TextFields(p));
    FrameTail(p4.(headers := Keyed(p.headers)), p);
  }
}
