/**
 * The transport loop of one stream, as a machine over its suspension points.
 *
 * The environment (signer, socket, timers, cancellation) supplies one input per step. A step may
 * produce several sink notifications; they leave one at a time, in order, through `Emit`.
 */
module LiveRun {
  import opened Bytes

  datatype StreamState = Disconnected | Connecting | Connected | Reconnecting | Offline | Errored

  datatype Fault =
    | Signer | Socket | Timeout | Decode | Backpressure | Protocol | Auth(status: nat) | SocketStatus(code: nat)

  datatype Detail =
    | OpeningStream | SigningFailed | StreamOpen | DisconnectRequested | HandshakeRefused
    | CookiesMissing | BudgetExhausted | WaitingToRetry | StreamStopped | QueueSaturated

  datatype Notice =
    | State(state: StreamState, detail: Detail)
    | Error(fault: Fault, retryable: bool)
    | Batch(id: nat, retained: nat)
    | DecodeTime(micros: nat)
    | AckTime(micros: nat)

  datatype Point = Top | Signing | Opening | Streaming | Judging | BackingOff | Closing | Done

  /** The suspension points that look at the stop signal before anything else. */
  predicate Selects(p: Point) {
    p in {Top, Signing, Opening, Streaming, BackingOff}
  }

  datatype Run = Run(at: Point, failures: nat, reconnecting: bool, pending: seq<Notice>, emitted: seq<Notice>)
  {
    /** Everything the loop has said so far, sent or not. */
    function Trace(): seq<Notice> {
      emitted + pending
    }
  }

  const START := Run(Top, 0, false, [], [])

  datatype Input =
    | Proceed
    | Cancelled
    | Signed | SignFailed
    | Opened | Blocked200 | EmptyCookies | HttpStatus(code: nat) | OpenFailed | OpenTimedOut
    | Message(acked: Option<nat>, micros: nat, batch: Option<(nat, nat)>)
    | SocketFailed | SocketEnded
    | BackoffElapsed

  /** A refusal: reported, announced, and final. */
  function Refuse(r: Run, fault: Fault, why: Detail): Run {
    r.(at := Closing, pending := [Error(fault, false), State(Errored, why)])
  }

  /** A failed open: whether it is retryable is decided before the retry is counted. */
  function FailOpen(maxRetries: nat, r: Run, fault: Fault): Run {
    r.(at := Judging, pending := [Error(fault, r.failures < maxRetries)])
  }

  /** One input at the current suspension point; `None` when that point does not wait for it. */
  function Step(maxRetries: nat, r: Run, input: Input): Option<Run> {
    match (r.at, input)
    case (Top, Cancelled) => Some(r.(at := Closing))
    case (Top, Proceed) =>
      Some(r.(at := Signing,
              pending := [State(if r.reconnecting then Reconnecting else Connecting, OpeningStream)]))
    case (Signing, Cancelled) => Some(r.(at := Closing))
    case (Signing, Signed) => Some(r.(at := Opening))
    case (Signing, SignFailed) => Some(Refuse(r, Signer, SigningFailed))
    case (Opening, Cancelled) => Some(r.(at := Closing))
    case (Opening, Opened) => Some(r.(at := Streaming, failures := 0, pending := [State(Connected, StreamOpen)]))
    case (Opening, Blocked200) => Some(Refuse(r, Auth(200), HandshakeRefused))
    case (Opening, EmptyCookies) => Some(Refuse(r, Auth(0), CookiesMissing))
    case (Opening, HttpStatus(code)) =>
      if code == 401 || code == 403 then Some(Refuse(r, Auth(code), HandshakeRefused))
      else Some(FailOpen(maxRetries, r, SocketStatus(code)))
    case (Opening, OpenFailed) => Some(FailOpen(maxRetries, r, Socket))
    case (Opening, OpenTimedOut) => Some(FailOpen(maxRetries, r, Timeout))
    case (Streaming, Cancelled) => Some(r.(at := Done, pending := [State(Disconnected, DisconnectRequested)]))
    case (Streaming, Message(acked, micros, batch)) =>
      var ack := if acked.Some? then [AckTime(acked.value)] else [];
      var outcome := if batch.Some? then Batch(batch.value.0, batch.value.1) else Error(Decode, false);
      Some(r.(pending := ack + [DecodeTime(micros), outcome]))
    case (Streaming, SocketFailed) => Some(r.(at := Judging, pending := [Error(Socket, maxRetries > 0)]))
    case (Streaming, SocketEnded) => Some(r.(at := Judging))
    case (Judging, Proceed) =>
      if r.failures >= maxRetries then Some(r.(at := Closing, pending := [State(Errored, BudgetExhausted)]))
      else Some(r.(at := BackingOff, failures := r.failures + 1, reconnecting := true,
                   pending := [State(Reconnecting, WaitingToRetry)]))
    case (BackingOff, Cancelled) => Some(r.(at := Closing))
    case (BackingOff, BackoffElapsed) => Some(r.(at := Top))
    case (Closing, Proceed) => Some(r.(at := Done, pending := [State(Disconnected, StreamStopped)]))
    case _ => None
  }

  function Emit(r: Run): Run
    requires r.pending != []
  {
    r.(pending := r.pending[1..], emitted := r.emitted + [r.pending[0]])
  }

  datatype Move = Take(input: Input) | Send

  /** One move of the loop: an input when nothing is waiting to be sent, otherwise a send. */
  function Advance(maxRetries: nat, r: Run, m: Move): Option<Run> {
    match m
    case Send => if r.pending == [] then None else Some(Emit(r))
    case Take(input) => if r.pending == [] then Step(maxRetries, r, input) else None
  }

  /** The run reached by a list of moves. */
  function After(maxRetries: nat, moves: seq<Move>): Option<Run> {
    if moves == [] then Some(START)
    else
      var before := After(maxRetries, moves[..|moves| - 1]);
      if before.None? then None else Advance(maxRetries, before.value, moves[|moves| - 1])
  }

  // ----- What every run keeps

  /** Retries announced since the last successful connection. */
  function Retries(t: seq<Notice>): nat {
    if t == [] then 0
    else
      var last := t[|t| - 1];
      if last == State(Connected, StreamOpen) then 0
      else Retries(t[..|t| - 1]) + (if last == State(Reconnecting, WaitingToRetry) then 1 else 0)
  }

  /** An error that ends an attempt; a batch that fails to decode does not. */
  predicate EndsAttempt(n: Notice) {
    n.Error? && n.fault != Decode
  }

  /** What must come right after a notification. */
  predicate Follows(n: Notice, next: Notice) {
    && (n.Error? && n.retryable ==> next.State? && next.state == Reconnecting)
    && (EndsAttempt(n) && !n.retryable ==> next.State? && next.state == Errored)
    && (IsState(n, Errored) ==> IsState(next, Disconnected))
  }

  predicate IsState(n: Notice, s: StreamState) {
    n.State? && n.state == s
  }

  /** `Connecting` is said at most once. */
  predicate ConnectsOnce(t: seq<Notice>) {
    forall i, j :: 0 <= i < j < |t| ==> !(IsState(t[i], Connecting) && IsState(t[j], Connecting))
  }

  predicate WellOrdered(t: seq<Notice>) {
    && (forall i :: 0 <= i < |t| - 1 ==> Follows(t[i], t[i + 1]))
    && ConnectsOnce(t)
    && (forall i :: 0 <= i < |t| - 1 ==> !IsState(t[i], Disconnected))
  }

  predicate Inv(maxRetries: nat, r: Run) {
    var t := r.Trace();
    && r.failures <= maxRetries
    && r.failures == Retries(t)
    && WellOrdered(t)
    && (r.at == Streaming ==> r.failures == 0)
    && (r.at == BackingOff ==> r.reconnecting)
    && (r.at == Top && !r.reconnecting ==> t == [])
    && (t != [] ==>
          var last := t[|t| - 1];
          && (EndsAttempt(last) ==> r.at == Judging && last.retryable == (r.failures < maxRetries))
          && (last.Error? && last.fault == Decode ==> !last.retryable)
          && (IsState(last, Errored) ==> r.at == Closing)
          && (IsState(last, Disconnected) <==> r.at == Done))
    && (t == [] ==> r.at in {Top, Closing})
  }

  lemma SayInOrder(t: seq<Notice>, n: Notice)
    requires forall i :: 0 <= i < |t| - 1 ==> Follows(t[i], t[i + 1])
    requires t != [] ==> Follows(t[|t| - 1], n)
    ensures forall i :: 0 <= i < |t + [n]| - 1 ==> Follows((t + [n])[i], (t + [n])[i + 1])
  {
    hide Follows;
    var u := t + [n];
    forall i | 0 <= i < |u| - 1 ensures Follows(u[i], u[i + 1]) {
      if i < |t| - 1 { assert Follows(t[i], t[i + 1]); }
    }
  }

  lemma SayStates(t: seq<Notice>, n: Notice)
    requires ConnectsOnce(t) && (IsState(n, Connecting) ==> t == [])
    requires forall i :: 0 <= i < |t| ==> !IsState(t[i], Disconnected)
    ensures ConnectsOnce(t + [n])
    ensures forall i :: 0 <= i < |t + [n]| - 1 ==> !IsState((t + [n])[i], Disconnected)
  {
    hide IsState;
    var u := t + [n];
    assert forall i :: 0 <= i < |t| ==> u[i] == t[i];
  }

  lemma SayRetries(t: seq<Notice>, n: Notice)
    ensures Retries(t + [n]) ==
            if n == State(Connected, StreamOpen) then 0
            else Retries(t) + (if n == State(Reconnecting, WaitingToRetry) then 1 else 0)
  {
    var u := t + [n];
    assert u[..|u| - 1] == t;
  }

  /** One more notification at the end of a well-ordered trace. */
  lemma Say(t: seq<Notice>, n: Notice)
    requires WellOrdered(t)
    requires t != [] ==> Follows(t[|t| - 1], n) && !IsState(t[|t| - 1], Disconnected)
    requires IsState(n, Connecting) ==> t == []
    ensures WellOrdered(t + [n])
    ensures Retries(t + [n]) ==
            if n == State(Connected, StreamOpen) then 0
            else Retries(t) + (if n == State(Reconnecting, WaitingToRetry) then 1 else 0)
  {
    hide Follows, IsState, ConnectsOnce, Retries;
    SayInOrder(t, n);
    SayStates(t, n);
    SayRetries(t, n);
  }

  lemma RefuseKeeps(maxRetries: nat, r: Run, fault: Fault, why: Detail)
    requires Inv(maxRetries, r) && r.pending == [] && r.at in {Signing, Opening} && fault != Decode
    ensures Inv(maxRetries, Refuse(r, fault, why))
  {
    hide WellOrdered, Retries;
    var t := r.emitted;
    assert r.Trace() == t;
    Say(t, Error(fault, false));
    Say(t + [Error(fault, false)], State(Errored, why));
    assert Refuse(r, fault, why).Trace() == t + [Error(fault, false)] + [State(Errored, why)];
  }

  lemma FailOpenKeeps(maxRetries: nat, r: Run, fault: Fault)
    requires Inv(maxRetries, r) && r.pending == [] && r.at == Opening && fault != Decode
    ensures Inv(maxRetries, FailOpen(maxRetries, r, fault))
  {
    hide WellOrdered, Retries;
    assert r.Trace() == r.emitted;
    Say(r.emitted, Error(fault, r.failures < maxRetries));
    assert FailOpen(maxRetries, r, fault).Trace() == r.emitted + [Error(fault, r.failures < maxRetries)];
  }

  /** Neither an announcement nor an error that ends an attempt. */
  predicate IsData(n: Notice) {
    !n.State? && (n.Error? ==> n == Error(Decode, false))
  }

  lemma SayData(t: seq<Notice>, n: Notice)
    requires WellOrdered(t) && t != [] && IsData(n)
    requires IsData(t[|t| - 1]) || (t[|t| - 1].State? && t[|t| - 1].state !in {Disconnected, Errored})
    ensures WellOrdered(t + [n]) && Retries(t + [n]) == Retries(t)
  {
    hide WellOrdered, Retries;
    Say(t, n);
  }

  /** A trace to which an open stream may add data. */
  predicate Streamable(t: seq<Notice>) {
    && WellOrdered(t) && t != [] && Retries(t) == 0
    && (IsData(t[|t| - 1]) || (t[|t| - 1].State? && t[|t| - 1].state !in {Disconnected, Errored}))
  }

  lemma StreamSays(t: seq<Notice>, n: Notice)
    requires Streamable(t) && IsData(n)
    ensures Streamable(t + [n])
  {
    hide WellOrdered, Retries;
    SayData(t, n);
  }

  lemma StreamingIs(maxRetries: nat, r: Run)
    requires Inv(maxRetries, r) && r.pending == [] && r.at == Streaming
    ensures Streamable(r.emitted)
  {
    hide WellOrdered, Retries;
    assert r.Trace() == r.emitted;
  }

  lemma StreamableKeeps(maxRetries: nat, r: Run)
    requires r.at == Streaming && r.failures == 0 && Streamable(r.Trace()) && IsData(r.Trace()[|r.Trace()| - 1])
    ensures Inv(maxRetries, r)
  {
    hide WellOrdered, Retries;
  }

  lemma MessageKeeps(maxRetries: nat, r: Run, input: Input)
    requires Inv(maxRetries, r) && r.pending == [] && r.at == Streaming && input.Message?
    ensures Inv(maxRetries, Step(maxRetries, r, input).value)
  {
    hide Streamable;
    StreamingIs(maxRetries, r);
    var r' := Step(maxRetries, r, input).value;
    var t := r.emitted;
    if input.acked.Some? {
      StreamSays(t, AckTime(input.acked.value));
      t := t + [AckTime(input.acked.value)];
    }
    var time := DecodeTime(input.micros);
    var outcome :=
      if input.batch.Some? then Batch(input.batch.value.0, input.batch.value.1) else Error(Decode, false);
    StreamSays(t, time);
    StreamSays(t + [time], outcome);
    assert r'.Trace() == t + [time] + [outcome];
    StreamableKeeps(maxRetries, r');
  }

  lemma OpeningKeeps(maxRetries: nat, r: Run, input: Input)
    requires Inv(maxRetries, r) && r.pending == [] && r.at in {Signing, Opening} && Step(maxRetries, r, input).Some?
    ensures Inv(maxRetries, Step(maxRetries, r, input).value)
  {
    hide WellOrdered, Retries, Refuse, FailOpen;
    assert r.Trace() == r.emitted;
    if input.SignFailed? {
      RefuseKeeps(maxRetries, r, Signer, SigningFailed);
    } else if input.Blocked200? {
      RefuseKeeps(maxRetries, r, Auth(200), HandshakeRefused);
    } else if input.EmptyCookies? {
      RefuseKeeps(maxRetries, r, Auth(0), CookiesMissing);
    } else if input.HttpStatus? {
      RefuseKeeps(maxRetries, r, Auth(input.code), HandshakeRefused);
      FailOpenKeeps(maxRetries, r, SocketStatus(input.code));
    } else if input.OpenFailed? {
      FailOpenKeeps(maxRetries, r, Socket);
    } else if input.OpenTimedOut? {
      FailOpenKeeps(maxRetries, r, Timeout);
    } else if input.Opened? {
      Say(r.emitted, State(Connected, StreamOpen));
    } else {
      assert Step(maxRetries, r, input).value.Trace() == r.Trace();
    }
  }

  lemma StreamingKeeps(maxRetries: nat, r: Run, input: Input)
    requires Inv(maxRetries, r) && r.pending == [] && r.at == Streaming && Step(maxRetries, r, input).Some?
    ensures Inv(maxRetries, Step(maxRetries, r, input).value)
  {
    hide WellOrdered, Retries;
    assert r.Trace() == r.emitted;
    if input.Message? {
      MessageKeeps(maxRetries, r, input);
    } else if input.SocketEnded? {
      assert Step(maxRetries, r, input).value.Trace() == r.Trace();
    } else {
      Say(r.emitted, Step(maxRetries, r, input).value.pending[0]);
    }
  }

  lemma JudgingKeeps(maxRetries: nat, r: Run)
    requires Inv(maxRetries, r) && r.pending == [] && r.at == Judging
    ensures Inv(maxRetries, Step(maxRetries, r, Proceed).value)
  {
    hide WellOrdered, Retries;
    assert r.Trace() == r.emitted;
    if r.failures >= maxRetries {
      Say(r.emitted, State(Errored, BudgetExhausted));
    } else {
      Say(r.emitted, State(Reconnecting, WaitingToRetry));
    }
  }

  lemma BeginKeeps(maxRetries: nat, r: Run)
    requires Inv(maxRetries, r) && r.pending == [] && r.at == Top
    ensures Inv(maxRetries, Step(maxRetries, r, Proceed).value)
  {
    hide WellOrdered, Retries;
    assert r.Trace() == r.emitted;
    Say(r.emitted, State(if r.reconnecting then Reconnecting else Connecting, OpeningStream));
  }

  lemma CloseKeeps(maxRetries: nat, r: Run)
    requires Inv(maxRetries, r) && r.pending == [] && r.at == Closing
    ensures Inv(maxRetries, Step(maxRetries, r, Proceed).value)
  {
    hide WellOrdered, Retries;
    assert r.Trace() == r.emitted;
    Say(r.emitted, State(Disconnected, StreamStopped));
  }

  lemma SilentKeeps(maxRetries: nat, r: Run, input: Input)
    requires Inv(maxRetries, r) && r.pending == [] && r.at in {Top, BackingOff} && input != Proceed
    requires Step(maxRetries, r, input).Some?
    ensures Inv(maxRetries, Step(maxRetries, r, input).value)
  {
    hide WellOrdered, Retries, Follows;
    assert Step(maxRetries, r, input).value.Trace() == r.Trace();
  }

  /** The top of the loop, its back-off and its end. */
  lemma LoopKeeps(maxRetries: nat, r: Run, input: Input)
    requires Inv(maxRetries, r) && r.pending == [] && r.at in {Top, BackingOff, Closing}
    requires Step(maxRetries, r, input).Some?
    ensures Inv(maxRetries, Step(maxRetries, r, input).value)
  {
    hide Inv;
    if r.at == Closing {
      CloseKeeps(maxRetries, r);
    } else if input == Proceed {
      BeginKeeps(maxRetries, r);
    } else {
      SilentKeeps(maxRetries, r, input);
    }
  }

  lemma StepKeeps(maxRetries: nat, r: Run, input: Input)
    requires Inv(maxRetries, r) && r.pending == [] && Step(maxRetries, r, input).Some?
    ensures Inv(maxRetries, Step(maxRetries, r, input).value)
  {
    hide Inv;
    if r.at in {Signing, Opening} {
      OpeningKeeps(maxRetries, r, input);
    } else if r.at == Streaming {
      StreamingKeeps(maxRetries, r, input);
    } else if r.at == Judging {
      JudgingKeeps(maxRetries, r);
    } else {
      LoopKeeps(maxRetries, r, input);
    }
  }

  lemma AdvanceKeeps(maxRetries: nat, r: Run, m: Move)
    requires Inv(maxRetries, r) && Advance(maxRetries, r, m).Some?
    ensures Inv(maxRetries, Advance(maxRetries, r, m).value)
  {
    hide Step, WellOrdered, Retries;
    match m
    case Send => assert Emit(r).Trace() == r.Trace();
    case Take(input) => StepKeeps(maxRetries, r, input);
  }

  lemma {:induction false} ReachableKeeps(maxRetries: nat, moves: seq<Move>)
    requires After(maxRetries, moves).Some?
    ensures Inv(maxRetries, After(maxRetries, moves).value)
  {
    if moves != [] {
      ReachableKeeps(maxRetries, moves[..|moves| - 1]);
      AdvanceKeeps(maxRetries, After(maxRetries, moves[..|moves| - 1]).value, moves[|moves| - 1]);
    }
  }

  /**
   * Every run of the loop: the retry budget holds at all times and counts exactly the retries since
   * the last connection; `Connecting` is said at most once; a retryable error is followed by
   * `Reconnecting` and a final one by `Error`; and a finished run has said `Disconnected` once, last.
   */
  lemma EveryRun(maxRetries: nat, moves: seq<Move>)
    requires After(maxRetries, moves).Some?
    ensures var r := After(maxRetries, moves).value;
            var t := r.Trace();
            && r.failures == Retries(t) <= maxRetries
            && r.emitted <= t
            && (forall i :: 0 <= i < |t| - 1 ==> Follows(t[i], t[i + 1]))
            && ConnectsOnce(t)
            && (r.at == Done ==>
                  t != [] && forall i :: 0 <= i < |t| ==> (IsState(t[i], Disconnected) <==> i == |t| - 1))
            && (r.at != Done ==> forall i :: 0 <= i < |t| ==> !IsState(t[i], Disconnected))
  {
    hide Retries;
    ReachableKeeps(maxRetries, moves);
  }

  // ----- What a run reports, input by input

  /** A notification without its announcement or its retry flag. */
  function Stripped(n: Notice): seq<Notice> {
    match n
    case State(_, _) => []
    case Error(fault, _) => [Error(fault, false)]
    case _ => [n]
  }

  function Spoken(t: seq<Notice>): seq<Notice> {
    if t == [] then [] else Stripped(t[0]) + Spoken(t[1..])
  }

  /** What each input has to be reported as: a message's timings and batch, or what went wrong. */
  function Report(input: Input): seq<Notice> {
    match input
    case Message(acked, micros, batch) =>
      (if acked.Some? then [AckTime(acked.value)] else []) +
      [DecodeTime(micros), if batch.Some? then Batch(batch.value.0, batch.value.1) else Error(Decode, false)]
    case SignFailed => [Error(Signer, false)]
    case Blocked200 => [Error(Auth(200), false)]
    case EmptyCookies => [Error(Auth(0), false)]
    case HttpStatus(code) => [Error(if code in {401, 403} then Auth(code) else SocketStatus(code), false)]
    case OpenFailed => [Error(Socket, false)]
    case OpenTimedOut => [Error(Timeout, false)]
    case SocketFailed => [Error(Socket, false)]
    case _ => []
  }

  function ReportsIn(moves: seq<Move>): seq<Notice> {
    if moves == [] then []
    else
      var last := moves[|moves| - 1];
      ReportsIn(moves[..|moves| - 1]) + if last.Take? then Report(last.input) else []
  }

  lemma {:induction false} SpokenConcat(a: seq<Notice>, b: seq<Notice>)
    ensures Spoken(a + b) == Spoken(a) + Spoken(b)
  {
    hide Stripped;
    if a == [] {
      assert a + b == b;
    } else {
      SpokenConcat(a[1..], b);
      ConcatHead(a, b);
      ConcatAssociates(Stripped(a[0]), Spoken(a[1..]), Spoken(b));
    }
  }

  lemma SpokenFew(t: seq<Notice>)
    ensures t == [] ==> Spoken(t) == []
    ensures |t| == 1 ==> Spoken(t) == Stripped(t[0])
    ensures |t| == 2 ==> Spoken(t) == Stripped(t[0]) + Stripped(t[1])
    ensures |t| == 3 ==> Spoken(t) == Stripped(t[0]) + (Stripped(t[1]) + Stripped(t[2]))
  {
    hide Stripped;
    if |t| >= 2 {
      assert t[1..][1..] == t[2..] && Spoken(t[1..]) == Stripped(t[1]) + Spoken(t[2..]);
    }
    if |t| == 3 {
      assert t[2..][1..] == [];
    }
  }

  lemma OpeningSpeaks(maxRetries: nat, r: Run, input: Input)
    requires r.pending == [] && r.at == Opening && Step(maxRetries, r, input).Some?
    ensures Spoken(Step(maxRetries, r, input).value.pending) == Report(input)
  {
    hide Spoken;
    SpokenFew(Step(maxRetries, r, input).value.pending);
  }

  lemma StreamingSpeaks(maxRetries: nat, r: Run, input: Input)
    requires r.pending == [] && r.at == Streaming && Step(maxRetries, r, input).Some?
    ensures Spoken(Step(maxRetries, r, input).value.pending) == Report(input)
  {
    hide Spoken;
    SpokenFew(Step(maxRetries, r, input).value.pending);
  }

  lemma OtherwiseSpeaks(maxRetries: nat, r: Run, input: Input)
    requires r.pending == [] && r.at !in {Opening, Streaming} && Step(maxRetries, r, input).Some?
    ensures Spoken(Step(maxRetries, r, input).value.pending) == Report(input)
  {
    hide Spoken;
    SpokenFew(Step(maxRetries, r, input).value.pending);
  }

  lemma StepSpeaks(maxRetries: nat, r: Run, input: Input)
    requires r.pending == [] && Step(maxRetries, r, input).Some?
    ensures var next := Step(maxRetries, r, input).value;
            Spoken(next.pending) == Report(input) && next.emitted == r.emitted
  {
    hide Spoken, Report;
    if r.at == Opening {
      OpeningSpeaks(maxRetries, r, input);
    } else if r.at == Streaming {
      StreamingSpeaks(maxRetries, r, input);
    } else {
      OtherwiseSpeaks(maxRetries, r, input);
    }
  }

  lemma AdvanceSpeaks(maxRetries: nat, r: Run, m: Move)
    requires Advance(maxRetries, r, m).Some?
    ensures Spoken(Advance(maxRetries, r, m).value.Trace()) ==
            Spoken(r.Trace()) + if m.Take? then Report(m.input) else []
  {
    hide Step, Spoken, Report;
    var next := Advance(maxRetries, r, m).value;
    if m.Send? {
      assert next.Trace() == r.Trace();
    } else {
      StepSpeaks(maxRetries, r, m.input);
      SpokenConcat(r.emitted, next.pending);
      assert r.Trace() == r.emitted;
    }
  }

  /**
   * Every run reports exactly what it was given, in order: for each message its acknowledgement time
   * if there was one, its decode time, and then that batch or a decode error; for each failure its
   * fault.
   */
  lemma {:induction false} EveryRunReports(maxRetries: nat, moves: seq<Move>)
    requires After(maxRetries, moves).Some?
    ensures Spoken(After(maxRetries, moves).value.Trace()) == ReportsIn(moves)
  {
    hide Advance, Report;
    if moves == [] {
      assert START.Trace() == [];
    } else {
      var p := moves[..|moves| - 1];
      EveryRunReports(maxRetries, p);
      AdvanceSpeaks(maxRetries, After(maxRetries, p).value, moves[|moves| - 1]);
    }
  }

  // ----- Retry flags and connections

  /** Whether an attempt may be retried after this fault, with `retries` made since the last connection. */
  predicate MayRetry(maxRetries: nat, fault: Fault, retries: nat) {
    (fault.Socket? || fault.Timeout? || fault.SocketStatus?) && retries < maxRetries
  }

  predicate Flagged(maxRetries: nat, t: seq<Notice>) {
    forall i :: 0 <= i < |t| && t[i].Error? ==> t[i].retryable == MayRetry(maxRetries, t[i].fault, Retries(t[..i]))
  }

  lemma FlaggedSnoc(maxRetries: nat, t: seq<Notice>, n: Notice)
    requires Flagged(maxRetries, t)
    requires n.Error? ==> n.retryable == MayRetry(maxRetries, n.fault, Retries(t))
    ensures Flagged(maxRetries, t + [n])
  {
    hide Retries, MayRetry;
    var u := t + [n];
    forall i | 0 <= i < |u| && u[i].Error?
      ensures u[i].retryable == MayRetry(maxRetries, u[i].fault, Retries(u[..i]))
    {
      assert u[..i] == t[..i];
      if i == |t| { assert t[..i] == t; }
    }
  }

  lemma FlaggedQuiet(maxRetries: nat, t: seq<Notice>, more: seq<Notice>)
    requires Flagged(maxRetries, t)
    requires forall i :: 0 <= i < |more| && more[i].Error? ==>
                           !more[i].retryable && (more[i].fault in {Signer, Decode} || more[i].fault.Auth?)
    ensures Flagged(maxRetries, t + more)
    decreases |more|
  {
    hide Retries, Flagged;
    if more == [] {
      assert t + more == t;
    } else {
      FlaggedSnoc(maxRetries, t, more[0]);
      FlaggedQuiet(maxRetries, t + [more[0]], more[1..]);
      assert t + [more[0]] + more[1..] == t + more;
    }
  }

  lemma LossFlags(maxRetries: nat, r: Run, input: Input)
    requires Inv(maxRetries, r) && r.pending == [] && LosesAttempt(r.at, input) && Flagged(maxRetries, r.emitted)
    ensures Flagged(maxRetries, Step(maxRetries, r, input).value.Trace())
  {
    hide Retries, Flagged, WellOrdered;
    var next := Step(maxRetries, r, input).value;
    assert r.Trace() == r.emitted;
    if next.pending == [] {
      assert next.Trace() == r.emitted;
    } else {
      FlaggedSnoc(maxRetries, r.emitted, next.pending[0]);
      assert next.Trace() == r.emitted + [next.pending[0]];
    }
  }

  lemma QuietFlags(maxRetries: nat, r: Run, input: Input)
    requires r.pending == [] && Step(maxRetries, r, input).Some? && !LosesAttempt(r.at, input)
    requires Flagged(maxRetries, r.emitted)
    ensures Flagged(maxRetries, Step(maxRetries, r, input).value.Trace())
  {
    hide Retries, Flagged;
    FlaggedQuiet(maxRetries, r.emitted, Step(maxRetries, r, input).value.pending);
  }

  lemma StepFlags(maxRetries: nat, r: Run, input: Input)
    requires Inv(maxRetries, r) && r.pending == [] && Step(maxRetries, r, input).Some?
    requires Flagged(maxRetries, r.emitted)
    ensures Flagged(maxRetries, Step(maxRetries, r, input).value.Trace())
  {
    hide Inv, Flagged, LosesAttempt, Step;
    if LosesAttempt(r.at, input) {
      LossFlags(maxRetries, r, input);
    } else {
      QuietFlags(maxRetries, r, input);
    }
  }

  /** How often the run has announced a connection. */
  function Connections(t: seq<Notice>): nat {
    if t == [] then 0 else (if IsState(t[0], Connected) then 1 else 0) + Connections(t[1..])
  }

  function OpenedIn(moves: seq<Move>): nat {
    if moves == [] then 0
    else OpenedIn(moves[..|moves| - 1]) + if moves[|moves| - 1] == Take(Opened) then 1 else 0
  }

  lemma {:induction false} ConnectionsConcat(a: seq<Notice>, b: seq<Notice>)
    ensures Connections(a + b) == Connections(a) + Connections(b)
  {
    if a == [] {
      assert a + b == b;
    } else {
      ConnectionsConcat(a[1..], b);
      ConcatHead(a, b);
    }
  }

  lemma StepConnects(maxRetries: nat, r: Run, input: Input)
    requires r.pending == [] && Step(maxRetries, r, input).Some?
    ensures Connections(Step(maxRetries, r, input).value.pending) == if input == Opened then 1 else 0
  {
    hide Connections;
    ConnectionsFew(Step(maxRetries, r, input).value.pending);
  }

  lemma ConnectionsFew(t: seq<Notice>)
    ensures t == [] ==> Connections(t) == 0
    ensures |t| == 1 ==> Connections(t) == if IsState(t[0], Connected) then 1 else 0
    ensures 2 <= |t| <= 3 && (forall i :: 0 <= i < |t| ==> !IsState(t[i], Connected)) ==> Connections(t) == 0
  {
    hide IsState;
    if |t| >= 2 {
      assert t[1..][1..] == t[2..] && t[1..][0] == t[1];
      assert |t| == 3 ==> t[2..][0] == t[2] && t[2..][1..] == [];
      assert |t| == 2 ==> t[2..] == [];
    }
  }

  /** Every run flags an error as retryable exactly when it may retry, and announces each opened socket once. */
  lemma {:induction false} EveryRunFlags(maxRetries: nat, moves: seq<Move>)
    requires After(maxRetries, moves).Some?
    ensures Flagged(maxRetries, After(maxRetries, moves).value.Trace())
    ensures Connections(After(maxRetries, moves).value.Trace()) == OpenedIn(moves)
  {
    hide Step, Flagged, Inv, Connections;
    if moves == [] {
      assert START.Trace() == [];
      NothingFlagged(maxRetries);
    } else {
      var p, m := moves[..|moves| - 1], moves[|moves| - 1];
      EveryRunFlags(maxRetries, p);
      ReachableKeeps(maxRetries, p);
      var r := After(maxRetries, p).value;
      var next := After(maxRetries, moves).value;
      if m.Send? {
        assert next.Trace() == r.Trace();
      } else {
        assert r.Trace() == r.emitted;
        StepFlags(maxRetries, r, m.input);
        StepConnects(maxRetries, r, m.input);
        StepSpeaks(maxRetries, r, m.input);
        ConnectionsConcat(next.emitted, next.pending);
      }
    }
  }

  lemma NothingFlagged(maxRetries: nat)
    ensures Flagged(maxRetries, []) && Connections([]) == 0
  {
  }

  // ----- A run that may retry does

  /** Inputs after which the attempt is over and the retry budget decides. */
  predicate LosesAttempt(p: Point, input: Input) {
    || (p == Streaming && (input.SocketFailed? || input.SocketEnded?))
    || (p == Opening && (input.OpenFailed? || input.OpenTimedOut?
                         || (input.HttpStatus? && input.code !in {401, 403})))
  }

  /** The inputs that bring a lost run back: a wait, a signature and a socket that opens. */
  const RECOVERY: seq<Input> := [Proceed, BackoffElapsed, Proceed, Signed, Opened]

  /** The run after a list of inputs, each with its notifications sent. */
  function AfterInputs(maxRetries: nat, r: Run, inputs: seq<Input>): Option<Run>
    decreases |inputs|
  {
    if inputs == [] then Some(r)
    else
      var next := Step(maxRetries, r, inputs[0]);
      if next.None? then None
      else AfterInputs(maxRetries, next.value.(pending := [], emitted := next.value.Trace()), inputs[1..])
  }

  /**
   * Whenever an attempt is lost with budget left, the run waits, announces a reconnection, signs and
   * opens again, if only the environment lets it.
   */
  lemma Recovers(maxRetries: nat, r: Run, input: Input)
    requires r.pending == [] && LosesAttempt(r.at, input) && r.failures < maxRetries
    ensures var end := AfterInputs(maxRetries, r, [input] + RECOVERY);
            && end.Some? && end.value.at == Streaming && end.value.failures == 0
            && var lost := Step(maxRetries, r, input).value.pending;
            end.value.emitted == r.emitted + lost +
              [State(Reconnecting, WaitingToRetry), State(Reconnecting, OpeningStream), State(Connected, StreamOpen)]
  {
    var inputs := [input] + RECOVERY;
    assert inputs[1..] == RECOVERY;
    var r1 := Step(maxRetries, r, input).value;
    var judging := r1.(pending := [], emitted := r1.Trace());
    assert judging.emitted == r.emitted + r1.pending;
    RecoversFromJudging(maxRetries, judging);
  }

  lemma RecoversFromJudging(maxRetries: nat, r: Run)
    requires r.pending == [] && r.at == Judging && r.failures < maxRetries
    ensures AfterInputs(maxRetries, r, RECOVERY) == Some(Run(Streaming, 0, true, [], r.emitted +
              [State(Reconnecting, WaitingToRetry), State(Reconnecting, OpeningStream), State(Connected, StreamOpen)]))
  {
    var waited := r.emitted + [State(Reconnecting, WaitingToRetry)];
    var opening := waited + [State(Reconnecting, OpeningStream)];
    var open := opening + [State(Connected, StreamOpen)];
    assert RECOVERY[1..] == [BackoffElapsed, Proceed, Signed, Opened];
    assert RECOVERY[1..][1..] == [Proceed, Signed, Opened] && [Proceed, Signed, Opened][1..] == [Signed, Opened];
    assert [Signed, Opened][1..] == [Opened] && [Opened][1..] == [];
    assert opening + [] == opening && waited + [] == waited;
    var e := Run(Opening, r.failures + 1, true, [], opening);
    assert AfterInputs(maxRetries, e, [Opened]) == Some(Run(Streaming, 0, true, [], open));
    var d := Run(Signing, r.failures + 1, true, [], opening);
    assert AfterInputs(maxRetries, d, [Signed, Opened]) == AfterInputs(maxRetries, e, [Opened]);
    var c := Run(Top, r.failures + 1, true, [], waited);
    assert AfterInputs(maxRetries, c, [Proceed, Signed, Opened]) == AfterInputs(maxRetries, d, [Signed, Opened]);
    var b := Run(BackingOff, r.failures + 1, true, [], waited);
    assert AfterInputs(maxRetries, b, RECOVERY[1..]) == AfterInputs(maxRetries, c, [Proceed, Signed, Opened]);
    assert open == r.emitted + [State(Reconnecting, WaitingToRetry), State(Reconnecting, OpeningStream),
                                State(Connected, StreamOpen)];
  }
}
