/** Staying connected: back-off arithmetic, the re-signing retry loop, and the stream over it. */
module Reconnect {
  import opened Bytes

  const NANOS: int := 1_000_000_000
  /** One past the longest duration: `u64` seconds and less than a second of nanoseconds. */
  const DURATION_LIMIT: int := TWO_64 * NANOS

  /** A duration in nanoseconds. */
  type Duration = d: int | 0 <= d < DURATION_LIMIT

  datatype Policy = Policy(maxAttempts: u32, initialBackoff: Duration, maxBackoff: Duration)

  function Pow2(n: nat): (p: nat)
    ensures p > 0
  {
    if n == 0 then 1 else 2 * Pow2(n - 1)
  }

  function CheckedMul(d: Duration, n: nat): Option<Duration> {
    if d * n < DURATION_LIMIT then Some(d * n) else None
  }

  function Backoff(p: Policy, attempt: u32): Duration {
    if attempt <= 1 then Min(p.initialBackoff, p.maxBackoff)
    else
      var product := CheckedMul(p.initialBackoff, Pow2(Min(attempt - 1, 16)));
      Min(if product.Some? then product.value else p.maxBackoff, p.maxBackoff)
  }

  lemma ScaleMonotone(d: nat, a: nat, b: nat)
    requires a <= b
    ensures d * a <= d * b
  {
  }

  lemma {:induction false} Pow2Monotone(a: nat, b: nat)
    requires a <= b
    ensures Pow2(a) <= Pow2(b)
    decreases b
  {
    if a < b {
      Pow2Monotone(a, b - 1);
    }
  }

  /** The back-off is the capped doubling, computed as if durations could not overflow. */
  lemma BackoffIsCappedDoubling(p: Policy, attempt: u32)
    requires attempt >= 1
    ensures Backoff(p, attempt) == Min(p.initialBackoff * Pow2(Min(attempt - 1, 16)), p.maxBackoff)
  {
    if attempt == 1 {
      assert p.initialBackoff * Pow2(0) == p.initialBackoff;
    }
  }

  lemma BackoffNeverShrinks(p: Policy, a: u32, b: u32)
    requires 1 <= a <= b
    ensures Backoff(p, a) <= Backoff(p, b)
  {
    BackoffIsCappedDoubling(p, a);
    BackoffIsCappedDoubling(p, b);
    var i, j := Min(a - 1, 16), Min(b - 1, 16);
    Pow2Monotone(i, j);
    ScaleMonotone(p.initialBackoff, Pow2(i), Pow2(j));
  }

  // ----- Attempts

  type Uri = seq<byte>

  datatype SignOutcome = SignedUri(uri: Uri) | Rejected | SignerFailed

  /** Why a socket failed or never opened. */
  datatype WsError = ClosedByPeer | OtherWsError(code: nat)

  /** What the environment answers to one attempt: the signer, and the socket if it is opened. */
  datatype Attempt = Attempt(sign: SignOutcome, failure: Option<WsError>)

  /** The environment's answers, numbered by signing call. */
  type Oracle = nat -> Attempt

  datatype Event =
    | Waited(delay: Duration)
    | SignCall(outcome: SignOutcome)
    | SocketOpen(uri: Uri, failure: Option<WsError>)
    | GaveMessage
    | GaveError(error: StreamError)
    | GaveNone

  datatype StreamError = Refused | SignerError | Exhausted(attempts: nat, last: WsError) | ConnectFailed(cause: WsError)

  /** The stream: is a socket open, how often has it reconnected, how many signings were made. */
  datatype Stream = Stream(open: bool, reconnects: nat, signings: nat, log: seq<Event>)

  /** `connect_once`: sign a fresh URI, then open that very URI. */
  function ConnectOnce(oracle: Oracle, s: Stream): (Stream, Result<(), StreamError>) {
    var a := oracle(s.signings);
    var signed := s.(signings := s.signings + 1, log := s.log + [SignCall(a.sign)]);
    match a.sign
    case Rejected => (signed, Err(Refused))
    case SignerFailed => (signed, Err(SignerError))
    case SignedUri(uri) =>
      (signed.(log := signed.log + [SocketOpen(uri, a.failure)]),
       if a.failure.None? then Ok(()) else Err(ConnectFailed(a.failure.value)))
  }

  /** Attempt `attempt` of an outage: wait, then connect. */
  function TryAgain(p: Policy, oracle: Oracle, s: Stream, attempt: u32): (Stream, Result<(), StreamError>) {
    ConnectOnce(oracle, s.(log := s.log + [Waited(Backoff(p, attempt))]))
  }

  /** Attempts `attempt`, `attempt + 1`, ... of one outage, whose latest failure is `last`. */
  function Retry(p: Policy, oracle: Oracle, s: Stream, attempt: nat, last: WsError): (Stream, Result<(), StreamError>)
    requires attempt > 0
    decreases if attempt <= p.maxAttempts then p.maxAttempts - attempt + 1 else 0
  {
    if attempt > p.maxAttempts then (s, Err(Exhausted(p.maxAttempts, last)))
    else
      var (s', r) := TryAgain(p, oracle, s, attempt);
      if r.Ok? then (s'.(open := true, reconnects := s'.reconnects + 1), r)
      else if r.error.ConnectFailed? then Retry(p, oracle, s', attempt + 1, r.error.cause)
      else (s', r)
  }

  /** `ReconnectingConnection::open`: one attempt, and no stream when it fails. */
  function OpenStream(oracle: Oracle): (Stream, Result<(), StreamError>) {
    match ConnectOnce(oracle, Stream(false, 0, 0, []))
    case (s, Ok(_)) => (s.(open := true), Ok(()))
    case (s, Err(e)) => (s, Err(e))
  }

  /** `reconnect`: the socket is given up before the first wait. */
  function Outage(p: Policy, oracle: Oracle, s: Stream, cause: WsError): (Stream, Result<(), StreamError>) {
    Retry(p, oracle, s.(open := false), 1, cause)
  }

  // ----- The stream object

  datatype Incoming = Message | SocketError(error: WsError) | SocketEnd

  function Cause(i: Incoming): WsError
    requires !i.Message?
  {
    if i.SocketEnd? then ClosedByPeer else i.error
  }

  /**
   * What one `next_message` call comes to; `Waiting` when the inputs given are used up, `Dropped` when
   * its future was dropped in the middle of an outage.
   */
  datatype Answer = Got | Failed(error: StreamError) | Nothing | Waiting | Dropped

  /** One `next_message` call on the inputs its sockets produce. */
  function Next(p: Policy, oracle: Oracle, s: Stream, inputs: seq<Incoming>): (Stream, Answer)
    decreases |inputs|
  {
    if !s.open then (s.(log := s.log + [GaveNone]), Nothing)
    else if inputs == [] then (s, Waiting)
    else if inputs[0].Message? then (s.(log := s.log + [GaveMessage]), Got)
    else
      match Outage(p, oracle, s, Cause(inputs[0]))
      case (s', Ok(_)) => Next(p, oracle, s', inputs[1..])
      case (s', Err(e)) => (s'.(open := false, log := s'.log + [GaveError(e)]), Failed(e))
  }

  class ReconnectingConnection {
    const policy: Policy
    const oracle: Oracle
    var open: bool
    var reconnects: nat
    var signings: nat
    var log: seq<Event>

    ghost function View(): Stream
      reads this
    {
      Stream(open, reconnects, signings, log)
    }

    constructor (policy: Policy, oracle: Oracle)
      ensures this.policy == policy && this.oracle == oracle
      ensures View() == Stream(false, 0, 0, [])
    {
      this.policy := policy;
      this.oracle := oracle;
      open, reconnects, signings, log := false, 0, 0, [];
    }

    method Open() returns (r: Result<(), StreamError>)
      requires View() == Stream(false, 0, 0, [])
      modifies this
      ensures (View(), r) == OpenStream(oracle)
    {
      r := Connect();
      open := r.Ok?;
    }

    method Connect() returns (r: Result<(), StreamError>)
      modifies this
      ensures (View(), r) == ConnectOnce(oracle, old(View()))
    {
      var answer := oracle(signings);
      signings := signings + 1;
      log := log + [SignCall(answer.sign)];
      match answer.sign
      case Rejected => return Err(Refused);
      case SignerFailed => return Err(SignerError);
      case SignedUri(uri) =>
        log := log + [SocketOpen(uri, answer.failure)];
        return if answer.failure.None? then Ok(()) else Err(ConnectFailed(answer.failure.value));
    }

    method Reconnect(cause: WsError) returns (r: Result<(), StreamError>)
      modifies this
      ensures (View(), r) == Outage(policy, oracle, old(View()), cause)
    {
      hide Backoff, ConnectOnce;
      open := false;
      if policy.maxAttempts == 0 {
        return Err(Exhausted(0, cause));
      }
      ghost var before := View();
      var last := cause;
      for attempt := 1 to policy.maxAttempts + 1
        invariant Retry(policy, oracle, View(), attempt, last) == Retry(policy, oracle, before, 1, cause)
      {
        ghost var at := View();
        log := log + [Waited(Backoff(policy, attempt))];
        var c := Connect();
        assert (View(), c) == TryAgain(policy, oracle, at, attempt);
        if c.Ok? {
          open := true;
          reconnects := reconnects + 1;
          return c;
        }
        if !c.error.ConnectFailed? {
          return Err(c.error);
        }
        last := c.error.cause;
      }
      return Err(Exhausted(policy.maxAttempts, last));
    }

    method NextMessage(inputs: seq<Incoming>) returns (answer: Answer)
      modifies this
      ensures (View(), answer) == Next(policy, oracle, old(View()), inputs)
    {
      hide Outage;
      assert inputs[0..] == inputs;
      var i := 0;
      while i <= |inputs|
        invariant i <= |inputs|
        invariant Next(policy, oracle, View(), inputs[i..]) == Next(policy, oracle, old(View()), inputs)
        decreases |inputs| - i
      {
        if !open {
          log := log + [GaveNone];
          return Nothing;
        }
        if i == |inputs| {
          return Waiting;
        }
        assert inputs[i..][1..] == inputs[i + 1..];
        if inputs[i].Message? {
          log := log + [GaveMessage];
          return Got;
        }
        var r := Reconnect(Cause(inputs[i]));
        if r.Err? {
          open := false;
          log := log + [GaveError(r.error)];
          return Failed(r.error);
        }
        i := i + 1;
      }
    }
  }

  // ----- What one outage does

  function Waits(log: seq<Event>): seq<Duration> {
    if log == [] then []
    else (if log[0].Waited? then [log[0].delay] else []) + Waits(log[1..])
  }

  /** `n` back-offs, from attempt `attempt` on. */
  function Backoffs(p: Policy, attempt: nat, n: nat): seq<Duration>
    requires attempt + n <= p.maxAttempts + 1
    decreases n
  {
    if n == 0 then [] else [Backoff(p, attempt)] + Backoffs(p, attempt + 1, n - 1)
  }

  predicate IsRefusal(e: Event) {
    e.SignCall? && !e.outcome.SignedUri?
  }

  /** Every socket open follows the signing call that made its URI. */
  predicate FreshlySigned(log: seq<Event>) {
    forall i :: 0 <= i < |log| && log[i].SocketOpen? ==> i > 0 && log[i - 1] == SignCall(SignedUri(log[i].uri))
  }

  /** Every signing call comes right after a wait. */
  predicate EachAwaited(log: seq<Event>) {
    forall i :: 0 <= i < |log| && log[i].SignCall? ==> i > 0 && log[i - 1].Waited?
  }

  function SignCalls(log: seq<Event>): nat {
    if log == [] then 0 else (if log[0].SignCall? then 1 else 0) + SignCalls(log[1..])
  }

  /** A refusal or a signer failure can only be the last thing in `log`, and `r` reports it. */
  predicate RefusalEnds(log: seq<Event>, r: Result<(), StreamError>) {
    && (forall i :: 0 <= i < |log| - 1 ==> !IsRefusal(log[i]))
    && (r == Err(Refused) <==> log != [] && log[|log| - 1] == SignCall(Rejected))
    && (r == Err(SignerError) <==> log != [] && log[|log| - 1] == SignCall(SignerFailed))
  }

  /** The failure that ended the last attempt logged, or `cause` when there was none. */
  function LastFailure(log: seq<Event>, cause: WsError): WsError {
    if log == [] then cause
    else
      var e := log[|log| - 1];
      if e.SocketOpen? && e.failure.Some? then e.failure.value else LastFailure(log[..|log| - 1], cause)
  }

  lemma {:induction false} WaitsConcat(a: seq<Event>, b: seq<Event>)
    ensures Waits(a + b) == Waits(a) + Waits(b)
  {
    if a == [] {
      assert a + b == b;
    } else {
      WaitsConcat(a[1..], b);
      ConcatHead(a, b);
      ConcatAssociates(if a[0].Waited? then [a[0].delay] else [], Waits(a[1..]), Waits(b));
    }
  }

  lemma {:induction false} SignCallsConcat(a: seq<Event>, b: seq<Event>)
    ensures SignCalls(a + b) == SignCalls(a) + SignCalls(b)
  {
    if a == [] {
      assert a + b == b;
    } else {
      SignCallsConcat(a[1..], b);
      ConcatHead(a, b);
    }
  }

  lemma EachAwaitedConcat(a: seq<Event>, b: seq<Event>)
    requires EachAwaited(a) && EachAwaited(b)
    ensures EachAwaited(a + b)
  {
    var all := a + b;
    forall i | 0 <= i < |all| && all[i].SignCall? ensures i > 0 && all[i - 1].Waited? {
      if i >= |a| { assert b[i - |a|].SignCall?; }
    }
  }

  lemma OneSigning(delay: Duration, sign: SignOutcome, open: seq<Event>)
    requires |open| <= 1 && forall i :: 0 <= i < |open| ==> open[i].SocketOpen?
    ensures var all := [Waited(delay), SignCall(sign)] + open; EachAwaited(all) && SignCalls(all) == 1
  {
    var all := [Waited(delay), SignCall(sign)] + open;
    assert all[1..][1..] == open;
    assert SignCalls(open) == 0 by {
      if open != [] { assert open[1..] == []; }
    }
    assert SignCalls(all[1..]) == 1 + SignCalls(open);
  }

  lemma {:induction false} LastFailureConcat(a: seq<Event>, b: seq<Event>, cause: WsError)
    ensures LastFailure(a + b, cause) == LastFailure(b, LastFailure(a, cause))
  {
    if b == [] {
      assert a + b == a;
    } else {
      LastFailureConcat(a, b[..|b| - 1], cause);
      assert (a + b)[..|a + b| - 1] == a + b[..|b| - 1];
    }
  }

  /** What is true of the events `more` and the outcome `r` of the attempts from `attempt` on. */
  ghost predicate OutageKeeps(
    p: Policy, attempt: nat, last: WsError, n: nat, more: seq<Event>, r: Result<(), StreamError>)
  {
    && attempt + n <= p.maxAttempts + 1
    && Waits(more) == Backoffs(p, attempt, n)
    && EachAwaited(more) && SignCalls(more) == n
    && FreshlySigned(more) && RefusalEnds(more, r)
    && (more == [] ==> r.Err? && r.error.Exhausted?)
    && (r.Err? ==> !r.error.ConnectFailed?)
    && (r.Err? && r.error.Exhausted? ==>
          attempt + n == p.maxAttempts + 1 && r.error == Exhausted(p.maxAttempts, LastFailure(more, last)))
  }

  /** The events of one attempt that failed only to open its socket. */
  function FailedAttempt(delay: Duration, uri: Uri, failure: WsError): seq<Event> {
    [Waited(delay), SignCall(SignedUri(uri)), SocketOpen(uri, Some(failure))]
  }

  lemma FailedAttemptIs(delay: Duration, uri: Uri, failure: WsError)
    ensures var first := FailedAttempt(delay, uri, failure);
            && FreshlySigned(first) && EachAwaited(first) && SignCalls(first) == 1 && Waits(first) == [delay]
  {
    var first := FailedAttempt(delay, uri, failure);
    var open := SocketOpen(uri, Some(failure));
    assert first == [Waited(delay), SignCall(SignedUri(uri))] + [open];
    OneSigning(delay, SignedUri(uri), [open]);
    assert first[1..] == [SignCall(SignedUri(uri)), open] && first[1..][1..] == [open] && [open][1..] == [];
    assert Waits([open]) == Waits([open][1..]) == [];
    assert Waits(first[1..]) == Waits([open]);
  }

  lemma RefusalEndsLater(first: seq<Event>, more: seq<Event>, r: Result<(), StreamError>)
    requires forall i :: 0 <= i < |first| ==> !IsRefusal(first[i])
    requires RefusalEnds(more, r) && (more == [] ==> r.Err? && r.error.Exhausted?)
    ensures RefusalEnds(first + more, r)
  {
    var all := first + more;
    forall i | 0 <= i < |all| - 1 ensures !IsRefusal(all[i]) {
      if i >= |first| { assert all[i] == more[i - |first|]; }
    }
    if more == [] {
      assert all == first;
    } else {
      assert all[|all| - 1] == more[|more| - 1];
    }
  }

  lemma FailedAttemptFirst(
    p: Policy, attempt: nat, uri: Uri, last: WsError, failure: WsError, n: nat, more: seq<Event>,
    r: Result<(), StreamError>)
    requires 0 < attempt <= p.maxAttempts
    requires OutageKeeps(p, attempt + 1, failure, n, more, r)
    ensures OutageKeeps(p, attempt, last, n + 1, FailedAttempt(Backoff(p, attempt), uri, failure) + more, r)
  {
    hide Backoff, EachAwaited, SignCalls, FreshlySigned, RefusalEnds, Waits, LastFailure;
    var delay := Backoff(p, attempt);
    var first := FailedAttempt(delay, uri, failure);
    FailedAttemptIs(delay, uri, failure);
    WaitsConcat(first, more);
    SignCallsConcat(first, more);
    EachAwaitedConcat(first, more);
    FreshlySignedConcat(first, more);
    RefusalEndsLater(first, more, r);
    LastFailureConcat(first, more, last);
    assert LastFailure(first, last) == failure by { LastFailureOne(first, last); }
  }

  lemma LastFailureOne(log: seq<Event>, cause: WsError)
    requires log != [] && log[|log| - 1].SocketOpen? && log[|log| - 1].failure.Some?
    ensures LastFailure(log, cause) == log[|log| - 1].failure.value
  {
  }

  /** The events of an attempt that ends the outage. */
  function LastAttempt(delay: Duration, sign: SignOutcome): seq<Event> {
    [Waited(delay), SignCall(sign)] + if sign.SignedUri? then [SocketOpen(sign.uri, None)] else []
  }

  /** What such an attempt comes to. */
  function Ending(sign: SignOutcome): Result<(), StreamError> {
    match sign
    case Rejected => Err(Refused)
    case SignerFailed => Err(SignerError)
    case SignedUri(_) => Ok(())
  }

  lemma TryAgainFacts(p: Policy, oracle: Oracle, s: Stream, attempt: u32)
    ensures var (s', r) := TryAgain(p, oracle, s, attempt);
            var a := oracle(s.signings);
            && s'.signings == s.signings + 1 && s'.open == s.open && s'.reconnects == s.reconnects
            && (if r.Err? && r.error.ConnectFailed? then
                  && a.sign.SignedUri? && a.failure == Some(r.error.cause)
                  && s'.log == s.log + FailedAttempt(Backoff(p, attempt), a.sign.uri, r.error.cause)
                else
                  && s'.log == s.log + LastAttempt(Backoff(p, attempt), a.sign)
                  && r == Ending(a.sign))
  {
    hide Backoff;
  }

  lemma LastAttemptKeeps(p: Policy, attempt: nat, sign: SignOutcome, last: WsError)
    requires 0 < attempt <= p.maxAttempts
    ensures OutageKeeps(p, attempt, last, 1, LastAttempt(Backoff(p, attempt), sign),
                        Ending(sign))
  {
    hide Backoff;
    var delay := Backoff(p, attempt);
    hide EachAwaited, SignCalls;
    var more := LastAttempt(delay, sign);
    OneSigning(delay, sign, if sign.SignedUri? then [SocketOpen(sign.uri, None)] else []);
    assert more[1..][1..] == more[2..];
    assert Waits(more[2..]) == [] by {
      if sign.SignedUri? { assert more[2..][1..] == []; }
    }
    assert Waits(more) == [delay];
    assert Backoffs(p, attempt, 1) == [delay] + Backoffs(p, attempt + 1, 0);
  }

  lemma {:induction false} RetryFacts(p: Policy, oracle: Oracle, s: Stream, attempt: nat, last: WsError)
    requires 0 < attempt <= p.maxAttempts + 1
    ensures var (s', r) := Retry(p, oracle, s, attempt, last);
            && s.log <= s'.log && s.signings <= s'.signings
            && OutageKeeps(p, attempt, last, s'.signings - s.signings, s'.log[|s.log|..], r)
            && s'.open == (s.open || r.Ok?)
            && s'.reconnects == s.reconnects + if r.Ok? then 1 else 0
    decreases p.maxAttempts + 1 - attempt
  {
    hide Backoff, TryAgain, OutageKeeps;
    if attempt > p.maxAttempts {
      NoAttemptKeeps(p, last);
      assert s.log[|s.log|..] == [];
    } else {
      TryAgainFacts(p, oracle, s, attempt);
      var sign := oracle(s.signings).sign;
      var (s1, r1) := TryAgain(p, oracle, s, attempt);
      var delay := Backoff(p, attempt);
      if r1.Err? && r1.error.ConnectFailed? {
        var failure := r1.error.cause;
        RetryFacts(p, oracle, s1, attempt + 1, failure);
        var (s', r) := Retry(p, oracle, s1, attempt + 1, failure);
        assert s'.log[|s.log|..] == FailedAttempt(delay, sign.uri, failure) + s'.log[|s1.log|..];
        FailedAttemptFirst(p, attempt, sign.uri, last, failure, s'.signings - s1.signings, s'.log[|s1.log|..], r);
      } else {
        LastAttemptKeeps(p, attempt, sign, last);
        assert s1.log[|s.log|..] == LastAttempt(delay, sign);
      }
    }
  }

  lemma NoAttemptKeeps(p: Policy, last: WsError)
    ensures OutageKeeps(p, p.maxAttempts + 1, last, 0, [], Err(Exhausted(p.maxAttempts, last)))
  {
  }

  lemma {:induction false} BackoffsAt(p: Policy, attempt: nat, n: nat, i: nat)
    requires attempt + n <= p.maxAttempts + 1 && i < n
    ensures |Backoffs(p, attempt, n)| == n && Backoffs(p, attempt, n)[i] == Backoff(p, attempt + i)
    decreases n
  {
    hide Backoff;
    if n > 1 {
      BackoffsAt(p, attempt + 1, n - 1, if i == 0 then 0 else i - 1);
    }
  }

  /** Wait number k is min(initial * 2^min(k, 16), max), so no wait is shorter than an earlier one. */
  ghost predicate CappedDoubling(p: Policy, waits: seq<Duration>) {
    && (forall k | 0 <= k < |waits| :: waits[k] == Min(p.initialBackoff * Pow2(Min(k, 16)), p.maxBackoff))
    && (forall i, j | 0 <= i <= j < |waits| :: waits[i] <= waits[j])
  }

  lemma BackoffsDouble(p: Policy, n: nat)
    requires n <= p.maxAttempts
    ensures |Backoffs(p, 1, n)| == n && CappedDoubling(p, Backoffs(p, 1, n))
  {
    hide Backoff, Backoffs, Pow2;
    var waits := Backoffs(p, 1, n);
    if n == 0 {
      BackoffsNone(p);
    } else {
      BackoffsAt(p, 1, n, 0);
    }
    forall k | 0 <= k < n
      ensures waits[k] == Min(p.initialBackoff * Pow2(Min(k, 16)), p.maxBackoff)
    {
      BackoffsAt(p, 1, n, k);
      BackoffIsCappedDoubling(p, 1 + k);
    }
    forall i, j | 0 <= i <= j < n
      ensures waits[i] <= waits[j]
    {
      BackoffsAt(p, 1, n, i);
      BackoffsAt(p, 1, n, j);
      BackoffNeverShrinks(p, 1 + i, 1 + j);
    }
  }

  lemma BackoffsNone(p: Policy)
    ensures Backoffs(p, 1, 0) == []
  {
  }

  /**
   * One outage. At most `maxAttempts` signings, each right after its own wait of min(initial * 2^min(k, 16), max)
   * for k = 0, 1, ..., so the waits never shrink; only just-signed URIs are opened; a refusal or a
   * signer failure ends it at once; giving up takes every attempt and reports the last failure; and
   * the stream is open afterwards exactly when the outage succeeded.
   */
  lemma OutageFacts(p: Policy, oracle: Oracle, s: Stream, cause: WsError)
    ensures var (s', r) := Outage(p, oracle, s, cause);
            && s.log <= s'.log && s.signings <= s'.signings
            && var more, n := s'.log[|s.log|..], s'.signings - s.signings;
            && n <= p.maxAttempts && |Waits(more)| == n && CappedDoubling(p, Waits(more))
            && EachAwaited(more) && SignCalls(more) == n
            && FreshlySigned(more) && RefusalEnds(more, r)
            && (r.Ok? || r.error == Refused || r.error == SignerError ||
                (n == p.maxAttempts && r.error == Exhausted(n, LastFailure(more, cause))))
            && (s'.open <==> r.Ok?) && s'.reconnects == s.reconnects + if r.Ok? then 1 else 0
  {
    hide Retry, FreshlySigned, RefusalEnds, LastFailure, CappedDoubling, Backoffs, Waits, EachAwaited, SignCalls;
    RetryFacts(p, oracle, s.(open := false), 1, cause);
    var s' := Outage(p, oracle, s, cause).0;
    BackoffsDouble(p, s'.signings - s.signings);
  }

  // ----- Whole streams

  lemma FreshlySignedConcat(a: seq<Event>, b: seq<Event>)
    requires FreshlySigned(a) && FreshlySigned(b)
    ensures FreshlySigned(a + b)
  {
    var all := a + b;
    forall i | 0 <= i < |all| && all[i].SocketOpen?
      ensures i > 0 && all[i - 1] == SignCall(SignedUri(all[i].uri))
    {
      if i >= |a| { assert b[i - |a|].SocketOpen?; }
    }
  }

  /** One call keeps every open freshly signed, and closes the stream exactly when it fails. */
  lemma {:induction false} NextKeeps(p: Policy, oracle: Oracle, s: Stream, inputs: seq<Incoming>)
    requires FreshlySigned(s.log)
    ensures var (s', answer) := Next(p, oracle, s, inputs);
            && FreshlySigned(s'.log)
            && (answer == Nothing <==> !s.open)
            && (s'.open <==> s.open && !answer.Failed?)
            && answer != Dropped
            && s'.reconnects >= s.reconnects
    decreases |inputs|
  {
    hide Outage, FreshlySigned, RefusalEnds, LastFailure, Waits, Pow2;
    if !s.open {
      OneMore(s.log, GaveNone);
    } else if inputs != [] && inputs[0].Message? {
      OneMore(s.log, GaveMessage);
    } else if inputs != [] {
      OutageFacts(p, oracle, s, Cause(inputs[0]));
      var (s', r) := Outage(p, oracle, s, Cause(inputs[0]));
      FreshlySignedConcat(s.log, s'.log[|s.log|..]);
      assert s.log + s'.log[|s.log|..] == s'.log;
      if r.Ok? {
        NextKeeps(p, oracle, s', inputs[1..]);
      } else {
        OneMore(s'.log, GaveError(r.error));
      }
    }
  }

  lemma OneMore(log: seq<Event>, e: Event)
    requires FreshlySigned(log) && !e.SocketOpen?
    ensures FreshlySigned(log + [e])
  {
    FreshlySignedConcat(log, [e]);
  }

  // ----- What one call does with its inputs

  /** Why the socket was lost. */
  function LossOf(i: Incoming): Option<WsError> {
    match i
    case Message => None
    case SocketError(error) => Some(error)
    case SocketEnd => Some(ClosedByPeer)
  }

  /**
   * The stream after the first `k` inputs, if those are lost sockets whose outages, one for each and
   * with its own cause, all succeed.
   */
  function Recovered(p: Policy, oracle: Oracle, s: Stream, inputs: seq<Incoming>, k: nat): Option<Stream>
    requires k <= |inputs|
  {
    if k == 0 then Some(s)
    else
      var before, loss := Recovered(p, oracle, s, inputs, k - 1), LossOf(inputs[k - 1]);
      if before.None? || loss.None? then None
      else
        var (s', r) := Outage(p, oracle, before.value, loss.value);
        if r.Ok? then Some(s') else None
  }

  /** The first `k` inputs are losses recovered from, and the next one is a message. */
  predicate GetsAt(p: Policy, oracle: Oracle, s: Stream, inputs: seq<Incoming>, k: nat) {
    k < |inputs| && Recovered(p, oracle, s, inputs, k).Some? && inputs[k].Message?
  }

  /** The first `k` inputs are losses recovered from, and the outage of the next one fails with `e`. */
  predicate FailsAt(p: Policy, oracle: Oracle, s: Stream, inputs: seq<Incoming>, k: nat, e: StreamError) {
    && k < |inputs| && Recovered(p, oracle, s, inputs, k).Some? && LossOf(inputs[k]).Some?
    && Outage(p, oracle, Recovered(p, oracle, s, inputs, k).value, LossOf(inputs[k]).value).1 == Err(e)
  }

  function Messages(log: seq<Event>): nat {
    if log == [] then 0 else Messages(log[..|log| - 1]) + if log[|log| - 1].GaveMessage? then 1 else 0
  }

  lemma {:induction false} RecoveredShift(p: Policy, oracle: Oracle, s: Stream, inputs: seq<Incoming>, k: nat)
    requires 0 < k <= |inputs| && LossOf(inputs[0]).Some?
    ensures var (s', r) := Outage(p, oracle, s, LossOf(inputs[0]).value);
            Recovered(p, oracle, s, inputs, k) ==
              if r.Ok? then Recovered(p, oracle, s', inputs[1..], k - 1) else None
    decreases k
  {
    hide Outage;
    if k > 1 {
      RecoveredShift(p, oracle, s, inputs, k - 1);
    } else {
      assert Recovered(p, oracle, s, inputs, 0) == Some(s);
    }
  }

  lemma RecoveredStarts(p: Policy, oracle: Oracle, s: Stream, inputs: seq<Incoming>, k: nat)
    requires 0 < k <= |inputs| && Recovered(p, oracle, s, inputs, k).Some?
    ensures LossOf(inputs[0]).Some?
    decreases k
  {
    hide Outage;
    if k > 1 {
      RecoveredStarts(p, oracle, s, inputs, k - 1);
    }
  }

  /** How a call on an open stream ends, after the first `k` inputs have been recovered from. */
  ghost predicate EndsAt(
    p: Policy, oracle: Oracle, s: Stream, inputs: seq<Incoming>, k: nat, s': Stream, answer: Answer)
  {
    && k <= |inputs| && Recovered(p, oracle, s, inputs, k).Some?
    && var at := Recovered(p, oracle, s, inputs, k).value;
    && (|| (GetsAt(p, oracle, s, inputs, k) && answer == Got && s' == at.(log := at.log + [GaveMessage]))
        || (k == |inputs| && answer == Waiting && s' == at)
        || (&& answer.Failed? && FailsAt(p, oracle, s, inputs, k, answer.error)
            && var lost := Outage(p, oracle, at, LossOf(inputs[k]).value).0;
            && s' == lost.(open := false, log := lost.log + [GaveError(answer.error)])))
  }

  /**
   * Every call on an open stream: it recovers from the lost sockets at the front of its inputs, each
   * by one outage with its own cause, until it meets a message and returns it, an outage fails and it
   * returns that error, or there is nothing more to read.
   */
  lemma {:induction false} NextIs(p: Policy, oracle: Oracle, s: Stream, inputs: seq<Incoming>) returns (k: nat)
    requires s.open
    ensures EndsAt(p, oracle, s, inputs, k, Next(p, oracle, s, inputs).0, Next(p, oracle, s, inputs).1)
    decreases |inputs|
  {
    hide Outage;
    k := 0;
    assert Recovered(p, oracle, s, inputs, 0) == Some(s);
    if inputs != [] && !inputs[0].Message? {
      var (s1, r) := Outage(p, oracle, s, Cause(inputs[0]));
      if r.Ok? {
        assert s1.open by { OutageOpens(p, oracle, s, Cause(inputs[0])); }
        var j := NextIs(p, oracle, s1, inputs[1..]);
        k := j + 1;
        RecoveredShift(p, oracle, s, inputs, k);
        assert j < |inputs[1..]| ==> inputs[1..][j] == inputs[k];
      }
    }
  }

  lemma OutageOpens(p: Policy, oracle: Oracle, s: Stream, cause: WsError)
    ensures var (s', r) := Outage(p, oracle, s, cause);
            && (s'.open <==> r.Ok?) && s'.reconnects == s.reconnects + if r.Ok? then 1 else 0
  {
    OutageFacts(p, oracle, s, cause);
  }

  lemma {:induction false} RecoveredCounts(p: Policy, oracle: Oracle, s: Stream, inputs: seq<Incoming>, k: nat)
    requires k <= |inputs| && Recovered(p, oracle, s, inputs, k).Some?
    ensures var at := Recovered(p, oracle, s, inputs, k).value;
            at.reconnects == s.reconnects + k && Messages(at.log) == Messages(s.log)
    decreases k
  {
    hide Outage, Messages;
    if k > 0 {
      RecoveredCounts(p, oracle, s, inputs, k - 1);
      var before := Recovered(p, oracle, s, inputs, k - 1).value;
      OutageOpens(p, oracle, before, LossOf(inputs[k - 1]).value);
      OutageIsQuiet(p, oracle, before, LossOf(inputs[k - 1]).value);
    }
  }

  lemma {:induction false} RetryIsQuiet(p: Policy, oracle: Oracle, s: Stream, attempt: nat, last: WsError)
    requires attempt > 0
    ensures Messages(Retry(p, oracle, s, attempt, last).0.log) == Messages(s.log)
    decreases if attempt <= p.maxAttempts then p.maxAttempts - attempt + 1 else 0
  {
    hide Backoff, TryAgain, Messages;
    if attempt <= p.maxAttempts {
      var (s1, r) := TryAgain(p, oracle, s, attempt);
      TryAgainIsQuiet(p, oracle, s, attempt);
      if r.Err? && r.error.ConnectFailed? {
        RetryIsQuiet(p, oracle, s1, attempt + 1, r.error.cause);
      }
    }
  }

  lemma TryAgainIsQuiet(p: Policy, oracle: Oracle, s: Stream, attempt: u32)
    ensures Messages(TryAgain(p, oracle, s, attempt).0.log) == Messages(s.log)
  {
    hide Backoff, Messages;
    var waited := s.log + [Waited(Backoff(p, attempt))];
    var sign := oracle(s.signings).sign;
    QuietEvent(s.log, Waited(Backoff(p, attempt)));
    QuietEvent(waited, SignCall(sign));
    if sign.SignedUri? {
      QuietEvent(waited + [SignCall(sign)], SocketOpen(sign.uri, oracle(s.signings).failure));
    }
  }

  lemma QuietEvent(log: seq<Event>, e: Event)
    ensures Messages(log + [e]) == Messages(log) + if e.GaveMessage? then 1 else 0
  {
    assert (log + [e])[..|log|] == log;
  }

  lemma OutageIsQuiet(p: Policy, oracle: Oracle, s: Stream, cause: WsError)
    ensures Messages(Outage(p, oracle, s, cause).0.log) == Messages(s.log)
  {
    RetryIsQuiet(p, oracle, s.(open := false), 1, cause);
  }

  /**
   * What a call gives on an open stream: a message exactly when its inputs begin with lost sockets it
   * recovers from and then a message; an error exactly when the outage of the first it cannot recover
   * from ends in that error. The message is logged once, and every recovery counts as one reconnect.
   */
  lemma CallGives(p: Policy, oracle: Oracle, s: Stream, inputs: seq<Incoming>) returns (k: nat)
    requires s.open
    ensures var (s', answer) := Next(p, oracle, s, inputs);
            && (answer == Got <==> exists j :: GetsAt(p, oracle, s, inputs, j))
            && (forall e :: answer == Failed(e) <==> exists j :: FailsAt(p, oracle, s, inputs, j, e))
            && Messages(s'.log) == Messages(s.log) + (if answer == Got then 1 else 0)
            && s'.reconnects == s.reconnects + k && k <= |inputs|
            && Recovered(p, oracle, s, inputs, k).Some?
            && (answer == Got ==> GetsAt(p, oracle, s, inputs, k))
            && (answer.Failed? ==> FailsAt(p, oracle, s, inputs, k, answer.error))
            && (answer != Got && !answer.Failed? ==> k == |inputs|)
  {
    hide Outage, Messages, Recovered, Next;
    k := NextIs(p, oracle, s, inputs);
    RecoveredCounts(p, oracle, s, inputs, k);
    var at := Recovered(p, oracle, s, inputs, k).value;
    var (s', answer) := Next(p, oracle, s, inputs);
    QuietEvent(at.log, GaveMessage);
    if k < |inputs| && LossOf(inputs[k]).Some? {
      var cause := LossOf(inputs[k]).value;
      OutageOpens(p, oracle, at, cause);
      OutageIsQuiet(p, oracle, at, cause);
      if answer.Failed? {
        QuietEvent(Outage(p, oracle, at, cause).0.log, GaveError(answer.error));
      }
    }
    forall j: nat | GetsAt(p, oracle, s, inputs, j) ensures answer == Got {
      EndsOnce(p, oracle, s, inputs, k, j, answer);
    }
    forall e, j: nat | FailsAt(p, oracle, s, inputs, j, e) ensures answer == Failed(e) {
      EndsOnce(p, oracle, s, inputs, k, j, answer);
    }
  }

  /** The point where a call ends is the only one where it could. */
  lemma EndsOnce(p: Policy, oracle: Oracle, s: Stream, inputs: seq<Incoming>, k: nat, j: nat, answer: Answer)
    requires k <= |inputs| && Recovered(p, oracle, s, inputs, k).Some?
    requires GetsAt(p, oracle, s, inputs, k) || k == |inputs| || exists e :: FailsAt(p, oracle, s, inputs, k, e)
    requires GetsAt(p, oracle, s, inputs, j) || exists e :: FailsAt(p, oracle, s, inputs, j, e)
    ensures j == k
  {
    hide Outage;
    if j < k {
      RecoveredEarlier(p, oracle, s, inputs, j + 1, k);
    } else if k < j {
      RecoveredEarlier(p, oracle, s, inputs, k + 1, j);
    }
  }

  lemma RecoveredEarlier(p: Policy, oracle: Oracle, s: Stream, inputs: seq<Incoming>, j: nat, k: nat)
    requires j <= k <= |inputs| && Recovered(p, oracle, s, inputs, k).Some?
    ensures Recovered(p, oracle, s, inputs, j).Some?
    decreases k
  {
    hide Outage;
    if j < k {
      RecoveredEarlier(p, oracle, s, inputs, j, k - 1);
    }
  }

  // ----- The environment is heeded

  /** `e`, after `n` signing calls of which the first was number `base`, is what the environment answered. */
  predicate EventHeeds(oracle: Oracle, base: nat, n: nat, e: Event) {
    && (e.SignCall? ==> e.outcome == oracle(n).sign)
    && (e.SocketOpen? ==> n > base && e.failure == oracle(n - 1).failure)
  }

  predicate HeedsAt(oracle: Oracle, base: nat, log: seq<Event>, i: nat)
    requires i < |log|
  {
    EventHeeds(oracle, base, base + SignCalls(log[..i]), log[i])
  }

  ghost predicate Heeds(oracle: Oracle, base: nat, log: seq<Event>) {
    forall i: nat :: i < |log| ==> HeedsAt(oracle, base, log, i)
  }

  lemma HeedsInFront(oracle: Oracle, base: nat, a: seq<Event>, b: seq<Event>, i: nat)
    requires i < |a| && HeedsAt(oracle, base, a, i)
    ensures HeedsAt(oracle, base, a + b, i)
  {
    hide SignCalls, EventHeeds;
    assert (a + b)[..i] == a[..i] && (a + b)[i] == a[i];
  }

  lemma HeedsBehind(oracle: Oracle, base: nat, a: seq<Event>, b: seq<Event>, i: nat)
    requires i < |b| && HeedsAt(oracle, base + SignCalls(a), b, i)
    ensures HeedsAt(oracle, base, a + b, |a| + i)
  {
    hide SignCalls, EventHeeds;
    var before := (a + b)[..|a| + i];
    assert before == a + b[..i] && (a + b)[|a| + i] == b[i];
    SignCallsConcat(a, b[..i]);
    HeedsEarlier(oracle, base, base + SignCalls(a), base + SignCalls(before), b[i]);
  }

  lemma HeedsEarlier(oracle: Oracle, base: nat, base': nat, n: nat, e: Event)
    requires base <= base' && EventHeeds(oracle, base', n, e)
    ensures EventHeeds(oracle, base, n, e)
  {
  }

  lemma HeedsConcat(oracle: Oracle, base: nat, a: seq<Event>, b: seq<Event>)
    requires Heeds(oracle, base, a) && Heeds(oracle, base + SignCalls(a), b)
    ensures Heeds(oracle, base, a + b)
  {
    hide SignCalls, HeedsAt;
    var all := a + b;
    forall i: nat | i < |all| ensures HeedsAt(oracle, base, all, i) {
      if i < |a| {
        HeedsInFront(oracle, base, a, b, i);
      } else {
        HeedsBehind(oracle, base, a, b, i - |a|);
        assert |a| + (i - |a|) == i;
      }
    }
  }

  lemma AttemptHeeds(oracle: Oracle, base: nat, delay: Duration, open: seq<Event>)
    requires |open| <= 1
    requires open != [] ==> open[0].SocketOpen? && open[0].failure == oracle(base).failure
    ensures var all := [Waited(delay), SignCall(oracle(base).sign)] + open;
            Heeds(oracle, base, all) && SignCalls(all) == 1
  {
    var sign := oracle(base).sign;
    var all := [Waited(delay), SignCall(sign)] + open;
    assert SignCalls([Waited(delay)]) == 0 by { assert [Waited(delay)][1..] == []; }
    assert SignCalls([Waited(delay), SignCall(sign)]) == 1 by {
      var two := [Waited(delay), SignCall(sign)];
      assert two[1..] == [SignCall(sign)] && [SignCall(sign)][1..] == [];
    }
    assert all[..0] == [] && all[..1] == [Waited(delay)] && all[..2] == [Waited(delay), SignCall(sign)];
    hide SignCalls;
    assert SignCalls(open) == 0 by { OpensAreNoSignings(open); }
    SignCallsConcat([Waited(delay), SignCall(sign)], open);
  }

  lemma OpensAreNoSignings(open: seq<Event>)
    requires |open| <= 1 && (open != [] ==> open[0].SocketOpen?)
    ensures SignCalls(open) == 0
  {
    if open != [] { assert open[1..] == []; }
  }

  /** The last thing logged is a socket that opened. */
  predicate EndsOpen(log: seq<Event>) {
    log != [] && log[|log| - 1].SocketOpen? && log[|log| - 1].failure.None?
  }

  lemma LaterEnd(first: seq<Event>, rest: seq<Event>)
    requires !EndsOpen(first)
    ensures EndsOpen(first + rest) <==> EndsOpen(rest)
  {
    if rest == [] {
      assert first + rest == first;
    }
  }

  /** What an outage logs, and how it ends, is what the signer and the sockets answered. */
  lemma {:induction false} RetryHeeds(p: Policy, oracle: Oracle, s: Stream, attempt: nat, last: WsError)
    requires 0 < attempt <= p.maxAttempts + 1
    ensures var (s', r) := Retry(p, oracle, s, attempt, last);
            && s.log <= s'.log
            && var more := s'.log[|s.log|..];
            && Heeds(oracle, s.signings, more)
            && (r.Ok? <==> EndsOpen(more))
    decreases p.maxAttempts + 1 - attempt
  {
    hide Backoff, TryAgain, Heeds, SignCalls, EndsOpen, AttemptEvents;
    if attempt > p.maxAttempts {
      assert s.log[|s.log|..] == [];
      NothingHeeded(oracle, s.signings);
    } else {
      var (s1, r1) := TryAgain(p, oracle, s, attempt);
      var first := AttemptEvents(p, oracle, s, attempt);
      AttemptIs(p, oracle, s, attempt);
      if r1.Err? && r1.error.ConnectFailed? {
        RetryHeeds(p, oracle, s1, attempt + 1, r1.error.cause);
        var s' := Retry(p, oracle, s1, attempt + 1, r1.error.cause).0;
        var rest := s'.log[|s1.log|..];
        HeedsConcat(oracle, s.signings, first, rest);
        assert s'.log[|s.log|..] == first + rest;
        LaterEnd(first, rest);
      } else {
        assert s1.log[|s.log|..] == first;
      }
    }
  }

  /** The events of one attempt, as the environment answers it. */
  function AttemptEvents(p: Policy, oracle: Oracle, s: Stream, attempt: u32): seq<Event> {
    var a := oracle(s.signings);
    [Waited(Backoff(p, attempt)), SignCall(a.sign)] +
    if a.sign.SignedUri? then [SocketOpen(a.sign.uri, a.failure)] else []
  }

  lemma AttemptIs(p: Policy, oracle: Oracle, s: Stream, attempt: u32)
    ensures var (s1, r), first := TryAgain(p, oracle, s, attempt), AttemptEvents(p, oracle, s, attempt);
            && s1.log == s.log + first && s1.signings == s.signings + 1
            && Heeds(oracle, s.signings, first) && SignCalls(first) == 1
            && (r.Ok? <==> EndsOpen(first))
  {
    hide Backoff, Heeds, SignCalls;
    var a := oracle(s.signings);
    AttemptHeeds(oracle, s.signings, Backoff(p, attempt),
                 if a.sign.SignedUri? then [SocketOpen(a.sign.uri, a.failure)] else []);
  }

  lemma NothingHeeded(oracle: Oracle, base: nat)
    ensures Heeds(oracle, base, []) && !EndsOpen([])
  {
  }

  /** The first connection: one signing, one opening of what was signed, and the error that ended it. */
  lemma FirstConnectionIs(oracle: Oracle)
    ensures var (s, r), a := OpenStream(oracle), oracle(0);
            && s.log == [SignCall(a.sign)] + (if a.sign.SignedUri? then [SocketOpen(a.sign.uri, a.failure)] else [])
            && (a.sign.Rejected? ==> r == Err(Refused)) && (a.sign.SignerFailed? ==> r == Err(SignerError))
            && (a.sign.SignedUri? && a.failure.Some? ==> r == Err(ConnectFailed(a.failure.value)))
            && (a.sign.SignedUri? && a.failure.None? ==> r.Ok? && s.open)
            && s.reconnects == 0
  {
  }

  lemma OutageHeeds(p: Policy, oracle: Oracle, s: Stream, cause: WsError)
    ensures var (s', r) := Outage(p, oracle, s, cause);
            && s.log <= s'.log
            && var more := s'.log[|s.log|..];
            && Heeds(oracle, s.signings, more)
            && (r.Ok? <==> EndsOpen(more))
  {
    hide Retry, Heeds;
    RetryHeeds(p, oracle, s.(open := false), 1, cause);
  }

  // ----- Calls that are dropped

  /**
   * The outage, from attempt `attempt` on, after `n` of its suspension points have passed: a wait, a
   * signing and an opening per attempt. `None` when it is over by then. What was still pending leaves
   * no record.
   */
  function CutRetry(p: Policy, oracle: Oracle, s: Stream, attempt: nat, n: nat): Option<Stream>
    requires attempt > 0
    decreases n
  {
    if attempt > p.maxAttempts then None
    else if n == 0 then Some(s)
    else
      var waited := s.(log := s.log + [Waited(Backoff(p, attempt))]);
      var sign := oracle(s.signings).sign;
      if n == 1 then Some(waited)
      else if !sign.SignedUri? then None
      else if n == 2 then Some(waited.(signings := s.signings + 1, log := waited.log + [SignCall(sign)]))
      else
        var (s', r) := TryAgain(p, oracle, s, attempt);
        if r.Err? && r.error.ConnectFailed? then CutRetry(p, oracle, s', attempt + 1, n - 3) else None
  }

  /** A call dropped `n` suspension points into the outage that the last of `inputs` causes, if it gets there. */
  function CutNext(p: Policy, oracle: Oracle, s: Stream, inputs: seq<Incoming>, n: nat): Option<Stream>
    decreases |inputs|
  {
    if !s.open || inputs == [] || inputs[0].Message? then None
    else if |inputs| == 1 then CutRetry(p, oracle, s.(open := false), 1, n)
    else
      var (s', r) := Outage(p, oracle, s, Cause(inputs[0]));
      if r.Ok? then CutNext(p, oracle, s', inputs[1..], n) else None
  }

  /** A cut outage has done a first part of what the whole one does. */
  lemma {:induction false} CutIsPrefix(
    p: Policy, oracle: Oracle, s: Stream, attempt: nat, last: WsError, n: nat)
    requires 0 < attempt && CutRetry(p, oracle, s, attempt, n).Some?
    ensures var cut, whole := CutRetry(p, oracle, s, attempt, n).value, Retry(p, oracle, s, attempt, last).0;
            s.log <= cut.log <= whole.log && cut.signings <= whole.signings && cut.open == s.open
    decreases n
  {
    hide Backoff, TryAgain, OutageKeeps;
    TryAgainFacts(p, oracle, s, attempt);
    RetryFacts(p, oracle, s, attempt, last);
    var (s1, r) := TryAgain(p, oracle, s, attempt);
    if r.Err? && r.error.ConnectFailed? {
      RetryFacts(p, oracle, s1, attempt + 1, r.error.cause);
      assert s1.log <= Retry(p, oracle, s, attempt, last).0.log;
      if n >= 3 {
        CutIsPrefix(p, oracle, s1, attempt + 1, r.error.cause, n - 3);
      }
    } else {
      assert Retry(p, oracle, s, attempt, last).0.log == s1.log;
    }
    if 0 < n < 3 {
      CutFront(p, oracle, s, attempt, n);
      assert CutRetry(p, oracle, s, attempt, n).value.log <= s1.log;
    }
  }

  lemma CutFront(p: Policy, oracle: Oracle, s: Stream, attempt: u32, n: nat)
    requires 0 < n < 3 && 0 < attempt && CutRetry(p, oracle, s, attempt, n).Some?
    ensures s.log <= CutRetry(p, oracle, s, attempt, n).value.log <= TryAgain(p, oracle, s, attempt).0.log
  {
    hide Backoff;
  }

  lemma FreshPrefix(a: seq<Event>, b: seq<Event>)
    requires a <= b && FreshlySigned(b)
    ensures FreshlySigned(a)
  {
    forall i | 0 <= i < |a| && a[i].SocketOpen?
      ensures i > 0 && a[i - 1] == SignCall(SignedUri(a[i].uri))
    {
      assert b[i].SocketOpen?;
    }
  }

  /** A dropped call closes the stream, keeps every open freshly signed, and says nothing. */
  lemma {:induction false} CutKeeps(p: Policy, oracle: Oracle, s: Stream, inputs: seq<Incoming>, n: nat)
    requires FreshlySigned(s.log) && CutNext(p, oracle, s, inputs, n).Some?
    ensures s.open && FreshlySigned(CutNext(p, oracle, s, inputs, n).value.log)
    ensures !CutNext(p, oracle, s, inputs, n).value.open
    decreases |inputs|
  {
    hide Retry, CutRetry, FreshlySigned, RefusalEnds, LastFailure, Waits, Pow2, EachAwaited, SignCalls;
    var cause := Cause(inputs[0]);
    OutageFacts(p, oracle, s, cause);
    var (s', r) := Outage(p, oracle, s, cause);
    FreshlySignedConcat(s.log, s'.log[|s.log|..]);
    assert s.log + s'.log[|s.log|..] == s'.log;
    if |inputs| == 1 {
      CutIsPrefix(p, oracle, s.(open := false), 1, cause, n);
      FreshPrefix(CutNext(p, oracle, s, inputs, n).value.log, s'.log);
    } else {
      CutKeeps(p, oracle, s', inputs[1..], n);
    }
  }

  /** One call: run to its answer, or dropped in the middle of an outage. */
  datatype Call = Finish(inputs: seq<Incoming>) | DropAfter(inputs: seq<Incoming>, points: nat)

  /** A drop that comes too late drops nothing. */
  function Answered(p: Policy, oracle: Oracle, s: Stream, call: Call): (Stream, Answer) {
    if call.DropAfter? && CutNext(p, oracle, s, call.inputs, call.points).Some? then
      (CutNext(p, oracle, s, call.inputs, call.points).value, Dropped)
    else Next(p, oracle, s, call.inputs)
  }

  /** The call left the stream closed: it reported a terminal error, or it was dropped in an outage. */
  predicate Closes(a: Answer) {
    a.Failed? || a.Dropped?
  }

  lemma AnsweredKeeps(p: Policy, oracle: Oracle, s: Stream, call: Call)
    requires FreshlySigned(s.log)
    ensures var (s', answer) := Answered(p, oracle, s, call);
            && FreshlySigned(s'.log)
            && (answer == Nothing <==> !s.open)
            && (s'.open <==> s.open && !Closes(answer))
  {
    hide Next, CutNext, FreshlySigned;
    if call.DropAfter? && CutNext(p, oracle, s, call.inputs, call.points).Some? {
      CutKeeps(p, oracle, s, call.inputs, call.points);
    } else {
      NextKeeps(p, oracle, s, call.inputs);
    }
  }

  /** Successive `next_message` calls. */
  function Calls(p: Policy, oracle: Oracle, s: Stream, calls: seq<Call>): (Stream, seq<Answer>)
    decreases |calls|
  {
    if calls == [] then (s, [])
    else
      var (s1, answer) := Answered(p, oracle, s, calls[0]);
      var (s2, answers) := Calls(p, oracle, s1, calls[1..]);
      (s2, [answer] + answers)
  }

  /** An answer is nothing exactly when the stream was closed to begin with or an earlier call closed it. */
  ghost predicate SilentOnceClosed(open: bool, answers: seq<Answer>) {
    forall k :: 0 <= k < |answers| ==> (answers[k] == Nothing <==> !open || ClosedBefore(answers, k))
  }

  ghost predicate ClosedBefore(answers: seq<Answer>, k: int)
    requires k <= |answers|
  {
    exists j :: 0 <= j < k && Closes(answers[j])
  }

  lemma ClosedShift(answer: Answer, rest: seq<Answer>, k: nat)
    requires 0 < k <= |rest| + 1
    ensures ClosedBefore([answer] + rest, k) <==> Closes(answer) || ClosedBefore(rest, k - 1)
  {
    hide Closes;
    var answers := [answer] + rest;
    if Closes(answer) {
      assert Closes(answers[0]);
    }
    if j :| 0 <= j < k - 1 && Closes(rest[j]) {
      assert Closes(answers[j + 1]);
    }
    if j :| 0 <= j < k && Closes(answers[j]) {
      if j > 0 { assert Closes(rest[j - 1]); }
    }
  }

  lemma SilentShift(open: bool, answer: Answer, rest: seq<Answer>)
    requires (answer == Nothing <==> !open) && SilentOnceClosed(open && !Closes(answer), rest)
    ensures SilentOnceClosed(open, [answer] + rest)
  {
    hide Closes, ClosedBefore;
    var answers := [answer] + rest;
    forall k | 0 <= k < |answers|
      ensures answers[k] == Nothing <==> !open || ClosedBefore(answers, k)
    {
      if k == 0 {
        NoneBefore(answers);
      } else {
        ClosedShift(answer, rest, k);
        assert answers[k] == rest[k - 1];
      }
    }
  }

  lemma NoneBefore(answers: seq<Answer>)
    ensures !ClosedBefore(answers, 0)
  {
  }

  lemma {:induction false} CallsKeep(p: Policy, oracle: Oracle, s: Stream, calls: seq<Call>)
    requires FreshlySigned(s.log)
    ensures var (s', answers) := Calls(p, oracle, s, calls);
            |answers| == |calls| && FreshlySigned(s'.log) && SilentOnceClosed(s.open, answers)
    decreases |calls|
  {
    hide Answered, FreshlySigned, Closes, ClosedBefore;
    if calls != [] {
      AnsweredKeeps(p, oracle, s, calls[0]);
      var (s1, answer) := Answered(p, oracle, s, calls[0]);
      CallsKeep(p, oracle, s1, calls[1..]);
      SilentShift(s.open, answer, Calls(p, oracle, s1, calls[1..]).1);
    }
  }

  /**
   * Every stream, from its first connection on: each socket open uses the URI of its own signing
   * call, and a call yields nothing exactly when an earlier one reported a terminal error or was
   * dropped in the middle of an outage.
   */
  lemma EveryStream(p: Policy, oracle: Oracle, calls: seq<Call>)
    ensures var (s, r) := OpenStream(oracle);
            && FreshlySigned(s.log) && s.signings == 1 && (s.open <==> r.Ok?)
            && var (s', answers) := Calls(p, oracle, s, calls);
            && FreshlySigned(s'.log)
            && (r.Ok? ==> forall k | 0 <= k < |answers| ::
                  (answers[k] == Nothing <==> exists j | 0 <= j < k :: Closes(answers[j])))
  {
    hide Calls, Closes;
    CallsKeep(p, oracle, OpenStream(oracle).0, calls);
    var answers := Calls(p, oracle, OpenStream(oracle).0, calls).1;
    assert forall k :: 0 <= k < |answers| ==>
      (ClosedBefore(answers, k) <==> exists j :: 0 <= j < k && Closes(answers[j]));
  }

  /** A call dropped in the first wait of an outage: the next one yields nothing, and no error was reported. */
  lemma DroppedIsSilent(p: Policy, oracle: Oracle)
    requires p.maxAttempts > 0 && OpenStream(oracle).1.Ok?
    ensures Calls(p, oracle, OpenStream(oracle).0, [DropAfter([SocketEnd], 0), Finish([])]).1 == [Dropped, Nothing]
  {
    var s := OpenStream(oracle).0;
    var calls := [DropAfter([SocketEnd], 0), Finish([])];
    assert calls[1..] == [Finish([])] && calls[1..][1..] == [];
    assert Answered(p, oracle, s, calls[0]) == (s.(open := false), Dropped);
  }
}
