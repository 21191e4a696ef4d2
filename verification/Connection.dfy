/** One open socket: frames in, messages out, acknowledgements and heartbeats back. */
module Connection {
  import opened Bytes
  import opened Utf8
  import opened Wire
  import opened WireReaders
  import opened WireWriter
  import opened Frames

  const MSG: Str := [0x6d, 0x73, 0x67]
  const ACK: Str := [0x61, 0x63, 0x6b]
  const HB: Str := [0x68, 0x62]
  const PB: Str := [0x70, 0x62]
  const GZIP: Str := [0x67, 0x7a, 0x69, 0x70]
  const COMPRESS_TYPE: seq<byte> := [0x63, 0x6f, 0x6d, 0x70, 0x72, 0x65, 0x73, 0x73, 0x5f, 0x74, 0x79, 0x70, 0x65]

  const U64_MAX: int := TWO_64 - 1

  datatype WsError = DecodeFailed | Closed

  datatype LiveMessage = LiveMessage(logId: u64, payload: seq<byte>)

  /** What crosses the socket or reaches the caller, in order; a write may fail. */
  datatype Event =
    | AckWrite(frame: PushFrame, ok: bool)
    | HeartbeatWrite(frame: PushFrame, ok: bool)
    | Delivered(message: LiveMessage)

  datatype Conn = Conn(roomId: u64, internalExt: Str, sequence: u64, lastAckWasSent: bool, log: seq<Event>)

  // ----- Frames the client sends

  /** `ack_for_batch`: the frame's own log id, and the batch's extension as the payload. */
  function AckFrame(logId: u64, extension: Str): PushFrame {
    NO_FRAME.(logId := logId, payloadType := ACK, payloadEncoding := PB, payload := extension)
  }

  function HeartbeatFrame(roomId: u64, sequence: u64): PushFrame {
    NO_FRAME.(payloadType := HB, payloadEncoding := PB,
              payload := EncodeFields(U64Fields(1, roomId) + U64Fields(2, sequence)))
  }

  // ----- Batch metadata

  datatype Metadata = Metadata(extension: Str, needAck: bool)

  /** One field of the scan; `Err` once a field has the wrong wire type or is not text. */
  function MetadataStep(acc: Result<Metadata, ()>, f: Field): Result<Metadata, ()> {
    if acc.Err? then acc
    else if f.number == 9 then
      if f.value.Varint? then Ok(acc.value.(needAck := f.value.v != 0)) else Err(())
    else if f.number == 5 then
      if AsStr(f.value).Some? then Ok(acc.value.(extension := AsStr(f.value).value)) else Err(())
    else acc
  }

  function AckMetadata(payload: seq<byte>): Result<Metadata, WsError> {
    var all := ReadAll(payload);
    var folded := Fold(MetadataStep, Ok(Metadata([], false)), all.fields);
    if folded.Err? || all.error.Some? then Err(DecodeFailed) else Ok(folded.value)
  }

  method BatchAckMetadata(payload: seq<byte>) returns (r: Result<Metadata, WsError>)
    ensures r == AckMetadata(payload)
  {
    hide LenientField;
    var extension: Str, needAck := [], false;
    var reader := new Reader(payload);
    ghost var all := ReadAll(payload).fields;
    assert payload[0..] == payload;
    while true
      invariant reader.Valid() && reader.buf == payload
      invariant Fold(MetadataStep, Ok(Metadata(extension, needAck)), ReadAll(payload[reader.pos..]).fields)
             == Fold(MetadataStep, Ok(Metadata([], false)), all)
      invariant ReadAll(payload[reader.pos..]).error == ReadAll(payload).error
      decreases |payload| - reader.pos
    {
      var next := reader.NextField();
      if next.None? { return Ok(Metadata(extension, needAck)); }
      if next.value.Err? { return Err(DecodeFailed); }
      var f := next.value.value;
      ghost var rest := ReadAll(payload[reader.pos..]).fields;
      assert ([f] + rest)[1..] == rest;
      if f.number == 9 {
        if !f.value.Varint? {
          StuckOnError(rest);
          return Err(DecodeFailed);
        }
        needAck := f.value.v != 0;
      }
      if f.number == 5 {
        if AsStr(f.value).None? {
          StuckOnError(rest);
          return Err(DecodeFailed);
        }
        extension := AsStr(f.value).value;
      }
    }
  }

  lemma {:induction false} StuckOnError(fs: seq<Field>)
    ensures Fold(MetadataStep, Err(()), fs) == Err(())
  {
    if fs != [] {
      StuckOnError(fs[1..]);
    }
  }

  lemma {:induction false} MetadataFolds(m: Metadata, r: FetchResult, fs: seq<Field>)
    requires r.internalExt == m.extension && r.needAck == m.needAck
    requires Fold(MetadataStep, Ok(m), fs).Ok?
    ensures var folded := Fold(MetadataStep, Ok(m), fs).value;
            var fetched := Fold(FetchStep, r, fs);
            fetched.internalExt == folded.extension && fetched.needAck == folded.needAck
    decreases |fs|
  {
    hide EntryPairs;
    if fs != [] {
      var next := MetadataStep(Ok(m), fs[0]);
      if next.Err? {
        StuckOnError(fs[1..]);
      } else {
        MetadataFolds(next.value, FetchStep(r, fs[0]), fs[1..]);
      }
    }
  }

  /** Whenever the metadata scan succeeds, the full decoder agrees with it. */
  lemma MetadataIsFetched(payload: seq<byte>)
    requires AckMetadata(payload).Ok?
    ensures var m := AckMetadata(payload).value;
            var r := FetchOf(payload);
            r.Ok? && r.value.internalExt == m.extension && r.value.needAck == m.needAck
  {
    MetadataFolds(Metadata([], false), NO_FETCH, ReadAll(payload).fields);
  }

  // ----- One input at a time

  /** gzip, as a function of its input; `None` when the data is corrupt or expands too far. */
  type Gunzip = seq<byte> -> Option<seq<byte>>

  function CompressType(headers: Pairs): Option<Str> {
    if headers == [] then None
    else if headers[0].0 == COMPRESS_TYPE then Some(headers[0].1)
    else CompressType(headers[1..])
  }

  /** An absent, empty, `none` or unknown compression leaves the payload as it is. */
  function Inflate(gunzip: Gunzip, frame: PushFrame): Result<seq<byte>, WsError> {
    if CompressType(frame.headers) == Some(GZIP) then
      match gunzip(frame.payload)
      case Some(b) => Ok(b)
      case None => Err(DecodeFailed)
    else Ok(frame.payload)
  }

  /** What the socket or the heartbeat timer produces; writes succeed or fail with `ok`. */
  datatype Incoming = Tick(ok: bool) | Frame(bytes: seq<byte>, ok: bool) | Other | CloseFrame | SocketError | SocketEnd

  /** The end of one `next_message` iteration; `Again` loops. */
  datatype Turn = Again | Message(message: LiveMessage) | Broken(error: WsError) | Ended

  function Heartbeat(c: Conn, ok: bool): Conn {
    c.(sequence := if c.sequence == U64_MAX then U64_MAX else c.sequence + 1,
       log := c.log + [HeartbeatWrite(HeartbeatFrame(c.roomId, c.sequence), ok)])
  }

  /** A `msg` frame whose payload has been inflated: acknowledge if asked to, then deliver. */
  function Accept(c: Conn, logId: u64, payload: seq<byte>, ok: bool): (Conn, Turn) {
    var meta := AckMetadata(payload);
    if meta.Err? then (c, Broken(meta.error))
    else
      var cleared := c.(internalExt := meta.value.extension, lastAckWasSent := false);
      var delivery := Delivered(LiveMessage(logId, payload));
      if !meta.value.needAck then (cleared.(log := c.log + [delivery]), Message(delivery.message))
      else
        var ack := AckWrite(AckFrame(logId, meta.value.extension), ok);
        if !ok then (cleared.(log := c.log + [ack]), Broken(Closed))
        else (cleared.(lastAckWasSent := true, log := c.log + [ack, delivery]), Message(delivery.message))
  }

  function OnFrame(gunzip: Gunzip, c: Conn, bytes: seq<byte>, ok: bool): (Conn, Turn) {
    var frame := FrameOf(bytes);
    if frame.Err? then (c, Broken(DecodeFailed))
    else if frame.value.payloadType != MSG then (c, Again)
    else
      var payload := Inflate(gunzip, frame.value);
      if payload.Err? then (c, Broken(payload.error)) else Accept(c, frame.value.logId, payload.value, ok)
  }

  function On(gunzip: Gunzip, c: Conn, i: Incoming): (Conn, Turn) {
    match i
    case Tick(ok) => (Heartbeat(c, ok), if ok then Again else Broken(Closed))
    case Frame(bytes, ok) => OnFrame(gunzip, c, bytes, ok)
    case Other => (c, Again)
    case CloseFrame => (c, Broken(Closed))
    case SocketError => (c, Broken(Closed))
    case SocketEnd => (c, Ended)
  }

  function OnAll(gunzip: Gunzip, c: Conn, inputs: seq<Incoming>): Conn {
    if inputs == [] then c else On(gunzip, OnAll(gunzip, c, inputs[..|inputs| - 1]), inputs[|inputs| - 1]).0
  }

  // ----- The connection object

  class LiveConnection {
    const roomId: u64
    var internalExt: Str
    var heartbeatSequence: u64
    var lastAckWasSent: bool
    var log: seq<Event>

    ghost function View(): Conn
      reads this
    {
      Conn(roomId, internalExt, heartbeatSequence, lastAckWasSent, log)
    }

    constructor (roomId: u64, internalExt: Str)
      ensures View() == Opened(roomId, internalExt)
    {
      this.roomId := roomId;
      this.internalExt := internalExt;
      heartbeatSequence := 1;
      lastAckWasSent := false;
      log := [];
    }

    method SendHeartbeat(ok: bool) returns (sent: bool)
      modifies this
      ensures View() == Heartbeat(old(View()), ok)
      ensures sent == ok
    {
      var frame := HeartbeatFrame(roomId, heartbeatSequence);
      heartbeatSequence := if heartbeatSequence == U64_MAX then U64_MAX else heartbeatSequence + 1;
      log := log + [HeartbeatWrite(frame, ok)];
      return ok;
    }

    method HandleFrame(gunzip: Gunzip, bytes: seq<byte>, ok: bool) returns (turn: Turn)
      modifies this
      ensures (View(), turn) == OnFrame(gunzip, old(View()), bytes, ok)
    {
      hide FrameOf, Accept, CompressType;
      var frame := DecodePushFrame(bytes);
      if frame.Err? { return Broken(DecodeFailed); }
      if frame.value.payloadType != MSG { return Again; }
      var payload := Inflate(gunzip, frame.value);
      if payload.Err? { return Broken(payload.error); }
      turn := AcceptPayload(frame.value.logId, payload.value, ok);
    }

    /** The second half of a frame: the batch's metadata, its acknowledgement, its delivery. */
    method AcceptPayload(logId: u64, payload: seq<byte>, ok: bool) returns (turn: Turn)
      modifies this
      ensures (View(), turn) == Accept(old(View()), logId, payload, ok)
    {
      hide AckMetadata, AckFrame;
      var meta := BatchAckMetadata(payload);
      if meta.Err? { return Broken(meta.error); }
      internalExt := meta.value.extension;
      lastAckWasSent := false;
      var message := LiveMessage(logId, payload);
      if meta.value.needAck {
        var ack := AckWrite(AckFrame(logId, internalExt), ok);
        log := log + [ack];
        if !ok { return Broken(Closed); }
        lastAckWasSent := true;
        assert log + [Delivered(message)] == old(log) + [ack, Delivered(message)];
      }
      log := log + [Delivered(message)];
      return Turn.Message(message);
    }

    /** Runs until something is returned to the caller, or `inputs` is used up. */
    method NextMessage(gunzip: Gunzip, inputs: seq<Incoming>) returns (turn: Turn, used: nat)
      modifies this
      ensures used <= |inputs|
      ensures turn.Again? ==> used == |inputs|
      ensures View() == OnAll(gunzip, old(View()), inputs[..used])
      ensures forall k :: 0 <= k < used ==>
                var turned := On(gunzip, OnAll(gunzip, old(View()), inputs[..k]), inputs[k]).1;
                if k + 1 < used then turned.Again? else turned == turn
      ensures turn.Message? ==> (lastAckWasSent <==> AsksForAck(turn.message))
    {
      hide OnFrame, Heartbeat, AsksForAck;
      used := 0;
      turn := Again;
      while turn.Again? && used < |inputs|
        invariant used <= |inputs|
        invariant View() == OnAll(gunzip, old(View()), inputs[..used])
        invariant forall k :: 0 <= k < used ==>
                    var turned := On(gunzip, OnAll(gunzip, old(View()), inputs[..k]), inputs[k]).1;
                    if k + 1 < used then turned.Again? else turned == turn
        invariant turn.Message? ==> (lastAckWasSent <==> AsksForAck(turn.message))
      {
        var i := inputs[used];
        AckFlagIsTrue(gunzip, View(), i);
        used := used + 1;
        assert inputs[..used][..used - 1] == inputs[..used - 1];
        match i {
          case Tick(ok) =>
            var sent := SendHeartbeat(ok);
            turn := if sent then Again else Broken(Closed);
          case Frame(bytes, ok) => turn := HandleFrame(gunzip, bytes, ok);
          case Other =>
          case CloseFrame => turn := Broken(Closed);
          case SocketError => turn := Broken(Closed);
          case SocketEnd => turn := Ended;
        }
      }
    }
  }

  function Opened(roomId: u64, internalExt: Str): Conn {
    Conn(roomId, internalExt, 1, false, [])
  }

  // ----- What every frame sequence keeps

  /** Does the batch ask for an acknowledgement, by the full decoder's reading? */
  predicate AsksForAck(m: LiveMessage) {
    FetchOf(m.payload).Ok? && FetchOf(m.payload).value.needAck
  }

  /** The acknowledgement a message is owed: its frame's log id and its own batch's extension. */
  function OwedAck(m: LiveMessage): PushFrame
    requires FetchOf(m.payload).Ok?
  {
    AckFrame(m.logId, FetchOf(m.payload).value.internalExt)
  }

  function Beats(log: seq<Event>): nat {
    if log == [] then 0 else Beats(log[..|log| - 1]) + (if log[|log| - 1].HeartbeatWrite? then 1 else 0)
  }

  function Saturate(n: nat): u64 {
    if n > U64_MAX then U64_MAX else n
  }

  predicate IsAcked(e: Event) {
    e.AckWrite? && e.ok
  }

  /** The event at `i` stands where the protocol puts it. */
  predicate InPlace(roomId: u64, log: seq<Event>, i: nat)
    requires i < |log|
  {
    match log[i]
    case Delivered(m) =>
      && FetchOf(m.payload).Ok?
      && (AsksForAck(m) <==> i > 0 && IsAcked(log[i - 1]))
      && (AsksForAck(m) ==> log[i - 1].frame == OwedAck(m))
    case AckWrite(_, ok) => ok ==> i + 1 < |log| && log[i + 1].Delivered? && AsksForAck(log[i + 1].message)
    case HeartbeatWrite(frame, _) => frame == HeartbeatFrame(roomId, Saturate(1 + Beats(log[..i])))
  }

  predicate ProtocolKept(c: Conn) {
    && (forall i :: 0 <= i < |c.log| ==> InPlace(c.roomId, c.log, i))
    && c.sequence == Saturate(1 + Beats(c.log))
  }

  lemma {:induction false} BeatsConcat(a: seq<Event>, b: seq<Event>)
    ensures Beats(a + b) == Beats(a) + Beats(b)
    decreases |b|
  {
    if b == [] {
      assert a + b == a;
    } else {
      BeatsConcat(a, b[..|b| - 1]);
      assert (a + b)[..|a + b| - 1] == a + b[..|b| - 1];
    }
  }

  /** What was in place stays in place as the log grows. */
  lemma Stays(roomId: u64, log: seq<Event>, more: seq<Event>)
    requires forall i :: 0 <= i < |log| ==> InPlace(roomId, log, i)
    ensures forall i :: 0 <= i < |log| ==> InPlace(roomId, log + more, i)
  {
    hide FetchOf, Beats;
    var all := log + more;
    forall i | 0 <= i < |log|
      ensures InPlace(roomId, all, i)
    {
      assert InPlace(roomId, log, i);
      assert all[..i] == log[..i];
    }
  }

  lemma OneBeat(log: seq<Event>, e: Event)
    requires e.HeartbeatWrite?
    ensures Beats(log + [e]) == Beats(log) + 1
  {
    assert (log + [e])[..|log|] == log;
  }

  lemma HeartbeatKeeps(c: Conn, ok: bool)
    requires ProtocolKept(c)
    ensures ProtocolKept(Heartbeat(c, ok))
  {
    hide FetchOf, HeartbeatFrame, Beats;
    var c' := Heartbeat(c, ok);
    var e := c'.log[|c.log|];
    Stays(c.roomId, c.log, [e]);
    assert c'.log[..|c.log|] == c.log;
    OneBeat(c.log, e);
    assert InPlace(c.roomId, c'.log, |c.log|);
  }

  lemma DeliveryKeeps(c: Conn, m: LiveMessage)
    requires ProtocolKept(c) && FetchOf(m.payload).Ok? && !AsksForAck(m)
    ensures ProtocolKept(c.(log := c.log + [Delivered(m)]))
  {
    hide FetchOf, Beats;
    var log := c.log + [Delivered(m)];
    Stays(c.roomId, c.log, [Delivered(m)]);
    NoBeats(c.log, [Delivered(m)]);
    assert c.log != [] ==> InPlace(c.roomId, c.log, |c.log| - 1);
    assert InPlace(c.roomId, log, |c.log|);
  }

  lemma FailedAckKeeps(c: Conn, frame: PushFrame)
    requires ProtocolKept(c)
    ensures ProtocolKept(c.(log := c.log + [AckWrite(frame, false)]))
  {
    hide FetchOf, Beats;
    var log := c.log + [AckWrite(frame, false)];
    Stays(c.roomId, c.log, [AckWrite(frame, false)]);
    NoBeats(c.log, [AckWrite(frame, false)]);
    assert InPlace(c.roomId, log, |c.log|);
  }

  lemma AckedDeliveryKeeps(c: Conn, m: LiveMessage)
    requires ProtocolKept(c) && AsksForAck(m)
    ensures ProtocolKept(c.(log := c.log + [AckWrite(OwedAck(m), true), Delivered(m)]))
  {
    hide FetchOf, Beats;
    var more := [AckWrite(OwedAck(m), true), Delivered(m)];
    var log := c.log + more;
    Stays(c.roomId, c.log, more);
    NoBeats(c.log, more);
    assert log[|c.log|] == more[0] && log[|c.log| + 1] == more[1];
    assert InPlace(c.roomId, log, |c.log|);
    assert InPlace(c.roomId, log, |c.log| + 1);
  }

  lemma AcceptKeeps(c: Conn, logId: u64, payload: seq<byte>, ok: bool)
    requires ProtocolKept(c)
    ensures ProtocolKept(Accept(c, logId, payload, ok).0)
  {
    hide FetchOf, AckMetadata, InPlace, Beats;
    var meta := AckMetadata(payload);
    if meta.Ok? {
      MetadataIsFetched(payload);
      var m := LiveMessage(logId, payload);
      if !meta.value.needAck {
        DeliveryKeeps(c, m);
      } else if !ok {
        FailedAckKeeps(c, AckFrame(logId, meta.value.extension));
      } else {
        AckedDeliveryKeeps(c, m);
      }
    }
  }

  /** When a message is handed over, the flag says whether its batch was acknowledged. */
  lemma AckFlagIsTrue(gunzip: Gunzip, c: Conn, i: Incoming)
    ensures var (c', turn) := On(gunzip, c, i);
            turn.Message? ==>
              && (c'.lastAckWasSent <==> AsksForAck(turn.message))
              && FetchOf(turn.message.payload).Ok?
              && c'.internalExt == FetchOf(turn.message.payload).value.internalExt
  {
    hide FrameOf, AckMetadata, FetchOf, Inflate;
    if i.Frame? {
      var frame := FrameOf(i.bytes);
      if frame.Ok? && Inflate(gunzip, frame.value).Ok? {
        var payload := Inflate(gunzip, frame.value).value;
        if AckMetadata(payload).Ok? {
          MetadataIsFetched(payload);
        }
      }
    }
  }

  lemma NoBeats(log: seq<Event>, more: seq<Event>)
    requires |more| <= 2 && forall i :: 0 <= i < |more| ==> !more[i].HeartbeatWrite?
    ensures Beats(log + more) == Beats(log)
  {
    BeatsConcat(log, more);
    if |more| == 2 {
      assert Beats(more[..1]) == Beats(more[..1][..0]);
    }
  }

  lemma OnKeeps(gunzip: Gunzip, c: Conn, i: Incoming)
    requires ProtocolKept(c)
    ensures ProtocolKept(On(gunzip, c, i).0) && On(gunzip, c, i).0.roomId == c.roomId
  {
    hide ProtocolKept, FrameOf, AckMetadata, Inflate;
    match i
    case Tick(ok) => HeartbeatKeeps(c, ok);
    case Frame(bytes, ok) =>
      var frame := FrameOf(bytes);
      if frame.Ok? && Inflate(gunzip, frame.value).Ok? {
        AcceptKeeps(c, frame.value.logId, Inflate(gunzip, frame.value).value, ok);
      }
    case _ =>
  }

  /**
   * Every sequence of ticks and frames on an opened socket. A delivered message asks for an
   * acknowledgement exactly when one was written just before it, carrying its frame's log id and its
   * own batch's extension; every acknowledgement written belongs to the message delivered next; and
   * the heartbeats carry 1, 2, 3, ... without wrapping.
   */
  lemma {:induction false} EveryFrameSequence(gunzip: Gunzip, roomId: u64, extension: Str, inputs: seq<Incoming>)
    ensures var c := OnAll(gunzip, Opened(roomId, extension), inputs);
            ProtocolKept(c) && c.roomId == roomId
  {
    hide On, FetchOf;
    if inputs != [] {
      EveryFrameSequence(gunzip, roomId, extension, inputs[..|inputs| - 1]);
      OnKeeps(gunzip, OnAll(gunzip, Opened(roomId, extension), inputs[..|inputs| - 1]), inputs[|inputs| - 1]);
    }
  }

  // ----- Which inputs are delivered and acknowledged

  predicate HeaderIs(header: (Str, Str), name: seq<byte>, value: Str) {
    header.0 == name && header.1 == value
  }

  /** The first header called `name` has this value. */
  ghost predicate FirstHeaderIs(headers: Pairs, name: seq<byte>, value: Str) {
    exists k :: 0 <= k < |headers| && HeaderIs(headers[k], name, value)
                && forall j :: 0 <= j < k ==> headers[j].0 != name
  }

  lemma {:induction false} CompressTypeIs(headers: Pairs, value: Str)
    ensures CompressType(headers) == Some(value) <==> FirstHeaderIs(headers, COMPRESS_TYPE, value)
  {
    hide FirstHeaderIs, IsUtf8;
    if headers == [] {
      NoHeader(COMPRESS_TYPE, value);
    } else if headers[0].0 == COMPRESS_TYPE {
      HeaderHere(headers, COMPRESS_TYPE, value);
    } else {
      CompressTypeIs(headers[1..], value);
      HeaderBeyond(headers, COMPRESS_TYPE, value);
    }
  }

  lemma NoHeader(name: seq<byte>, value: Str)
    ensures !FirstHeaderIs([], name, value)
  {
  }

  lemma HeaderHere(headers: Pairs, name: seq<byte>, value: Str)
    requires headers != [] && headers[0].0 == name
    ensures FirstHeaderIs(headers, name, value) <==> headers[0].1 == value
  {
    hide IsUtf8;
    if headers[0].1 == value {
      assert HeaderIs(headers[0], name, value);
    }
  }

  lemma HeaderBeyond(headers: Pairs, name: seq<byte>, value: Str)
    requires headers != [] && headers[0].0 != name
    ensures FirstHeaderIs(headers, name, value) <==> FirstHeaderIs(headers[1..], name, value)
  {
    var rest := headers[1..];
    if k :| 0 <= k < |headers| && HeaderIs(headers[k], name, value)
            && forall j :: 0 <= j < k ==> headers[j].0 != name {
      assert HeaderIs(rest[k - 1], name, value);
      assert forall j :: 0 <= j < k - 1 ==> rest[j].0 == headers[j + 1].0;
    }
    if k :| 0 <= k < |rest| && HeaderIs(rest[k], name, value) && forall j :: 0 <= j < k ==> rest[j].0 != name {
      assert HeaderIs(headers[k + 1], name, value);
      forall j | 0 <= j < k + 1 ensures headers[j].0 != name {
        if j > 0 { assert rest[j - 1].0 == headers[j].0; }
      }
    }
  }

  /** The metadata fields have their types: number 9 is a varint, number 5 is text. */
  predicate HasTypes(f: Field) {
    (f.number == 9 ==> f.value.Varint?) && (f.number == 5 ==> AsStr(f.value).Some?)
  }

  predicate MetadataReadable(payload: seq<byte>) {
    var all := ReadAll(payload);
    all.error.None? && forall k :: 0 <= k < |all.fields| ==> HasTypes(all.fields[k])
  }

  lemma {:induction false} MetadataOkIff(m: Metadata, fs: seq<Field>)
    ensures Fold(MetadataStep, Ok(m), fs).Ok? <==> forall k :: 0 <= k < |fs| ==> HasTypes(fs[k])
    decreases |fs|
  {
    if fs != [] {
      var next := MetadataStep(Ok(m), fs[0]);
      if next.Err? {
        StuckOnError(fs[1..]);
        assert !HasTypes(fs[0]);
      } else {
        MetadataOkIff(next.value, fs[1..]);
        assert fs == [fs[0]] + fs[1..];
      }
    }
  }

  /**
   * The message an input brings, read off its bytes: a frame of type `msg`, whose payload, inflated if
   * and only if its first compression header says gzip, has readable metadata.
   */
  ghost function Brought(gunzip: Gunzip, i: Incoming): Option<LiveMessage> {
    if !i.Frame? || FrameOf(i.bytes).Err? || FrameOf(i.bytes).value.payloadType != MSG then None
    else
      var frame := FrameOf(i.bytes).value;
      var payload :=
        if FirstHeaderIs(frame.headers, COMPRESS_TYPE, GZIP) then gunzip(frame.payload) else Some(frame.payload);
      if payload.Some? && MetadataReadable(payload.value) then Some(LiveMessage(frame.logId, payload.value)) else None
  }

  /** The acknowledgement of `m`, field by field. */
  ghost function AckOf(m: LiveMessage): PushFrame
    requires FetchOf(m.payload).Ok?
  {
    PushFrame(0, m.logId, 0, 0, [], PB, ACK, FetchOf(m.payload).value.internalExt)
  }

  /** The acknowledgement an input calls for, written or failed. */
  ghost function AckFor(gunzip: Gunzip, i: Incoming): seq<Event> {
    var m := Brought(gunzip, i);
    if m.Some? && AsksForAck(m.value) then [AckWrite(AckOf(m.value), i.Frame? && i.ok)] else []
  }

  /** The message an input delivers: one that asks for an acknowledgement only if that was written. */
  ghost function DeliveryFor(gunzip: Gunzip, i: Incoming): seq<Event> {
    var m := Brought(gunzip, i);
    if m.Some? && (AsksForAck(m.value) ==> i.Frame? && i.ok) then [Delivered(m.value)] else []
  }

  ghost function BeatFor(i: Incoming): nat {
    if i.Tick? then 1 else 0
  }

  function Only(log: seq<Event>, acks: bool): seq<Event> {
    if log == [] then []
    else
      var e := log[|log| - 1];
      Only(log[..|log| - 1], acks) + if (acks && e.AckWrite?) || (!acks && e.Delivered?) then [e] else []
  }

  lemma {:induction false} OnlyConcat(a: seq<Event>, b: seq<Event>, acks: bool)
    ensures Only(a + b, acks) == Only(a, acks) + Only(b, acks)
    decreases |b|
  {
    if b == [] {
      assert a + b == a;
    } else {
      OnlyConcat(a, b[..|b| - 1], acks);
      assert (a + b)[..|a + b| - 1] == a + b[..|b| - 1];
      var e := b[|b| - 1];
      ConcatAssociates(Only(a, acks), Only(b[..|b| - 1], acks),
                       if (acks && e.AckWrite?) || (!acks && e.Delivered?) then [e] else []);
    }
  }

  lemma OnlyFew(e: Event, f: Event, acks: bool)
    ensures Only([], acks) == []
    ensures Only([e], acks) == if (acks && e.AckWrite?) || (!acks && e.Delivered?) then [e] else []
    ensures e.AckWrite? && f.Delivered? ==> Only([e, f], acks) == [if acks then e else f]
  {
    assert [e][..0] == [] && [e, f][..1] == [e];
  }

  lemma BroughtIs(gunzip: Gunzip, i: Incoming)
    requires i.Frame?
    ensures var frame := FrameOf(i.bytes);
            Brought(gunzip, i) ==
              if frame.Ok? && frame.value.payloadType == MSG && Inflate(gunzip, frame.value).Ok?
                 && AckMetadata(Inflate(gunzip, frame.value).value).Ok?
              then Some(LiveMessage(frame.value.logId, Inflate(gunzip, frame.value).value)) else None
  {
    hide FrameOf, Inflate, AckMetadata, MetadataReadable, FirstHeaderIs, IsUtf8;
    var frame := FrameOf(i.bytes);
    if frame.Ok? && frame.value.payloadType == MSG {
      InflateIs(gunzip, frame.value);
      var payload := Inflate(gunzip, frame.value);
      if payload.Ok? {
        ReadableIff(payload.value);
      }
    }
  }

  lemma InflateIs(gunzip: Gunzip, frame: PushFrame)
    ensures var payload :=
              if FirstHeaderIs(frame.headers, COMPRESS_TYPE, GZIP) then gunzip(frame.payload) else Some(frame.payload);
            Inflate(gunzip, frame) == if payload.Some? then Ok(payload.value) else Err(DecodeFailed)
  {
    hide CompressType, FirstHeaderIs, IsUtf8;
    CompressTypeIs(frame.headers, GZIP);
  }

  lemma ReadableIff(payload: seq<byte>)
    ensures AckMetadata(payload).Ok? <==> MetadataReadable(payload)
  {
    hide ReadAll, Fold, HasTypes, MetadataStep;
    MetadataOkIff(Metadata([], false), ReadAll(payload).fields);
  }

  /** What one input adds to the log. */
  lemma OnAdds(gunzip: Gunzip, c: Conn, i: Incoming)
    ensures var next := On(gunzip, c, i).0;
            && Only(next.log, true) == Only(c.log, true) + AckFor(gunzip, i)
            && Only(next.log, false) == Only(c.log, false) + DeliveryFor(gunzip, i)
            && Beats(next.log) == Beats(c.log) + BeatFor(i)
  {
    hide Only, Beats, Brought, FrameOf, AckMetadata, FetchOf, Inflate, HeartbeatFrame;
    var next := On(gunzip, c, i).0;
    if i.Tick? {
      var e := HeartbeatWrite(HeartbeatFrame(c.roomId, c.sequence), i.ok);
      Adds(c.log, [e]);
      OneBeat(c.log, e);
      NotBrought(gunzip, i);
    } else if i.Frame? {
      BroughtIs(gunzip, i);
      var frame := FrameOf(i.bytes);
      if Brought(gunzip, i).Some? {
        AcceptAdds(c, frame.value.logId, Inflate(gunzip, frame.value).value, i.ok);
      }
    } else {
      NotBrought(gunzip, i);
    }
  }

  lemma NotBrought(gunzip: Gunzip, i: Incoming)
    requires !i.Frame?
    ensures Brought(gunzip, i).None?
  {
  }

  lemma Adds(log: seq<Event>, more: seq<Event>)
    requires |more| == 1 || (|more| == 2 && more[0].AckWrite? && more[1].Delivered?)
    ensures forall acks :: Only(log + more, acks) == Only(log, acks) +
              if |more| == 2 then [more[if acks then 0 else 1]]
              else if (acks && more[0].AckWrite?) || (!acks && more[0].Delivered?) then more else []
  {
    hide Only;
    forall acks: bool ensures Only(log + more, acks) == Only(log, acks) + Only(more, acks) {
      OnlyConcat(log, more, acks);
    }
    if |more| == 1 {
      assert more == [more[0]];
    } else {
      assert more == [more[0], more[1]];
    }
    OnlyFew(more[0], more[|more| - 1], true);
    OnlyFew(more[0], more[|more| - 1], false);
  }

  lemma AcceptAdds(c: Conn, logId: u64, payload: seq<byte>, ok: bool)
    requires AckMetadata(payload).Ok?
    ensures FetchOf(payload).Ok?
    ensures var next, m := Accept(c, logId, payload, ok).0, LiveMessage(logId, payload);
            && Only(next.log, true) == Only(c.log, true) + (if AsksForAck(m) then [AckWrite(AckOf(m), ok)] else [])
            && Only(next.log, false) == Only(c.log, false) + (if AsksForAck(m) && !ok then [] else [Delivered(m)])
            && Beats(next.log) == Beats(c.log)
  {
    hide Only, Beats, FetchOf, AckMetadata;
    MetadataIsFetched(payload);
    var m := LiveMessage(logId, payload);
    var ack := AckWrite(AckOf(m), ok);
    var more := if !AsksForAck(m) then [Delivered(m)] else if !ok then [ack] else [ack, Delivered(m)];
    assert Accept(c, logId, payload, ok).0.log == c.log + more;
    Adds(c.log, more);
    NoBeats(c.log, more);
  }

  ghost function AcksFor(gunzip: Gunzip, inputs: seq<Incoming>): seq<Event> {
    if inputs == [] then [] else AcksFor(gunzip, inputs[..|inputs| - 1]) + AckFor(gunzip, inputs[|inputs| - 1])
  }

  ghost function DeliveriesFor(gunzip: Gunzip, inputs: seq<Incoming>): seq<Event> {
    if inputs == [] then []
    else DeliveriesFor(gunzip, inputs[..|inputs| - 1]) + DeliveryFor(gunzip, inputs[|inputs| - 1])
  }

  ghost function BeatsFor(inputs: seq<Incoming>): nat {
    if inputs == [] then 0 else BeatsFor(inputs[..|inputs| - 1]) + BeatFor(inputs[|inputs| - 1])
  }

  /**
   * Every input sequence: the deliveries are, in order, the log ids and inflated payloads of exactly
   * the message frames received whose acknowledgement, where asked for, was written; every
   * acknowledgement, failed ones included, is that of the frame that called for it; and there is a
   * heartbeat for every tick.
   */
  lemma {:induction false} EverythingDelivered(gunzip: Gunzip, roomId: u64, extension: Str, inputs: seq<Incoming>)
    ensures var log := OnAll(gunzip, Opened(roomId, extension), inputs).log;
            && Only(log, false) == DeliveriesFor(gunzip, inputs)
            && Only(log, true) == AcksFor(gunzip, inputs)
            && Beats(log) == BeatsFor(inputs)
  {
    hide On, AckFor, DeliveryFor;
    if inputs != [] {
      var p := inputs[..|inputs| - 1];
      EverythingDelivered(gunzip, roomId, extension, p);
      OnAdds(gunzip, OnAll(gunzip, Opened(roomId, extension), p), inputs[|inputs| - 1]);
    }
  }

  predicate IsNoMessage(i: Incoming) {
    i.Frame? && FrameOf(i.bytes).Ok? && FrameOf(i.bytes).value.payloadType != MSG
  }

  ghost predicate AckFails(gunzip: Gunzip, i: Incoming) {
    AckFor(gunzip, i) != [] && DeliveryFor(gunzip, i) == []
  }

  /**
   * What each input comes to for the caller: a message when one is delivered, another round for an
   * acknowledged tick and for anything that is no message, the end of the stream, a closed socket or
   * failed write, and otherwise a decoding error.
   */
  lemma TurnIs(gunzip: Gunzip, c: Conn, i: Incoming)
    ensures var turn := On(gunzip, c, i).1;
            && (turn.Message? <==> DeliveryFor(gunzip, i) != [])
            && (turn.Message? ==> DeliveryFor(gunzip, i) == [Delivered(turn.message)])
            && (turn.Again? <==> i == Tick(true) || i.Other? || IsNoMessage(i))
            && (turn.Ended? <==> i.SocketEnd?)
            && (turn == Broken(Closed) <==> i in {Tick(false), CloseFrame, SocketError} || AckFails(gunzip, i))
  {
    hide Brought, FrameOf, AckMetadata, FetchOf, Inflate, HeartbeatFrame;
    if i.Frame? {
      BroughtIs(gunzip, i);
      var frame := FrameOf(i.bytes);
      if frame.Ok? && frame.value.payloadType == MSG {
        InflateFailure(gunzip, frame.value);
        if Inflate(gunzip, frame.value).Ok? {
          var payload := Inflate(gunzip, frame.value).value;
          MetadataFailure(payload);
          if AckMetadata(payload).Ok? {
            MetadataIsFetched(payload);
          }
        }
      }
    } else {
      NotBrought(gunzip, i);
    }
  }

  lemma InflateFailure(gunzip: Gunzip, frame: PushFrame)
    ensures Inflate(gunzip, frame).Err? ==> Inflate(gunzip, frame).error == DecodeFailed
  {
  }

  lemma MetadataFailure(payload: seq<byte>)
    ensures AckMetadata(payload).Err? ==> AckMetadata(payload).error == DecodeFailed
  {
  }

  lemma {:induction false} VarintIsShort(v: nat, i: nat)
    requires i <= 9 && v < VarintCap(i)
    ensures |EncodeVarint(v)| <= 10 - i
    decreases v
  {
    if v >= 128 {
      VarintIsShort(v / 128, i + 1);
    }
  }

  lemma HeartbeatPayloadFits(roomId: u64, sequence: u64)
    ensures |EncodeFields(U64Fields(1, roomId) + U64Fields(2, sequence))| < TWO_64
  {
    hide EncodeVarint;
    EncodeFieldsConcat(U64Fields(1, roomId), U64Fields(2, sequence));
    SingleField(Field(1, 0, Varint(roomId)));
    SingleField(Field(2, 0, Varint(sequence)));
    VarintIsShort(8, 0);
    VarintIsShort(16, 0);
    VarintIsShort(roomId, 0);
    VarintIsShort(sequence, 0);
  }

  /** On the wire, an acknowledgement still carries its log id and extension, and a heartbeat its number. */
  lemma SentFramesSurvive(logId: u64, extension: Str, roomId: u64, sequence: u64)
    requires |FrameBytes(AckFrame(logId, extension))| < TWO_64
    requires |FrameBytes(HeartbeatFrame(roomId, sequence))| < TWO_64
    ensures FrameOf(FrameBytes(AckFrame(logId, extension))) == Ok(AckFrame(logId, extension))
    ensures FrameOf(FrameBytes(HeartbeatFrame(roomId, sequence))) == Ok(HeartbeatFrame(roomId, sequence))
    ensures ReadAll(HeartbeatFrame(roomId, sequence).payload)
         == Fields(U64Fields(1, roomId) + U64Fields(2, sequence), None)
  {
    hide FrameOf, EncodeFields;
    FrameRoundTrip(AckFrame(logId, extension));
    FrameRoundTrip(HeartbeatFrame(roomId, sequence));
    HeartbeatPayloadFits(roomId, sequence);
    FieldsRoundTrip(U64Fields(1, roomId) + U64Fields(2, sequence));
  }
}
