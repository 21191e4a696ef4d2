/** The transport loop as it is written: nested loops over mutable counters, following the machine of `LiveRun`. */
module RunLoop {
  import opened Bytes
  import opened LiveRun

  /** What opening a socket can come to. */
  type OpenInput = i: Input |
    i.Opened? || i.Blocked200? || i.EmptyCookies? || i.HttpStatus? || i.OpenFailed? || i.OpenTimedOut?
    witness Opened

  /** What an open socket can produce. */
  type StreamInput = i: Input | i.Message? || i.SocketFailed? || i.SocketEnded? witness SocketEnded

  /** What the environment would answer at one suspension point, whichever point that is. */
  datatype Answers = Answers(stop: bool, signed: bool, open: OpenInput, stream: StreamInput)

  /** What the loop takes at `p` when this is the answer. */
  function InputAt(p: Point, a: Answers): Input {
    if a.stop then Cancelled
    else
      match p
      case Signing => if a.signed then Signed else SignFailed
      case Opening => a.open
      case Streaming => a.stream
      case BackingOff => BackoffElapsed
      case _ => Proceed
  }

  /** How many answers a list of moves has used: one at every suspension point. */
  ghost function Uses(maxRetries: nat, moves: seq<Move>): nat {
    if moves == [] then 0
    else
      var p := moves[..|moves| - 1];
      var r := After(maxRetries, p);
      Uses(maxRetries, p) + if moves[|moves| - 1].Take? && r.Some? && Selects(r.value.at) then 1 else 0
  }

  /** Every input taken is the environment's answer for its point, each answer used once and in order. */
  ghost predicate Heeds(maxRetries: nat, env: seq<Answers>, moves: seq<Move>) {
    moves == [] ||
    var p, m, k := moves[..|moves| - 1], moves[|moves| - 1], Uses(maxRetries, moves[..|moves| - 1]);
    var r := After(maxRetries, p);
    && Heeds(maxRetries, env, p)
    && (m.Take? && r.Some? ==>
          if Selects(r.value.at) then k < |env| && m.input == InputAt(r.value.at, env[k]) else m.input == Proceed)
  }

  /** A run whose notifications have all been sent. */
  function Drained(r: Run): Run {
    r.(pending := [], emitted := r.Trace())
  }

  lemma {:induction false} SendAll(maxRetries: nat, moves: seq<Move>, r: Run) returns (more: seq<Move>)
    requires After(maxRetries, moves) == Some(r)
    ensures After(maxRetries, more) == Some(Drained(r))
    ensures Uses(maxRetries, more) == Uses(maxRetries, moves)
    ensures forall env :: Heeds(maxRetries, env, moves) ==> Heeds(maxRetries, env, more)
    decreases |r.pending|
  {
    hide Step, InputAt;
    if r.pending == [] {
      assert r.Trace() == r.emitted;
      more := moves;
    } else {
      var next := moves + [Send];
      assert next[..|next| - 1] == moves;
      more := SendAll(maxRetries, next, Emit(r));
      assert Emit(r).Trace() == r.Trace();
    }
  }

  /** `input` is what the answer number `k` gives at `p`. */
  ghost predicate Fitting(p: Point, input: Input, env: seq<Answers>, k: nat) {
    if Selects(p) then k < |env| && input == InputAt(p, env[k]) else input == Proceed
  }

  /** An input taken and its notifications sent. */
  lemma TakeAndSend(maxRetries: nat, moves: seq<Move>, r: Run, input: Input) returns (more: seq<Move>)
    requires After(maxRetries, moves) == Some(r) && r.pending == []
    requires Step(maxRetries, r, input).Some?
    ensures After(maxRetries, more) == Some(Drained(Step(maxRetries, r, input).value))
    ensures Uses(maxRetries, more) == Uses(maxRetries, moves) + if Selects(r.at) then 1 else 0
    ensures forall env :: Heeds(maxRetries, env, moves) && Fitting(r.at, input, env, Uses(maxRetries, moves)) ==>
                            Heeds(maxRetries, env, more)
  {
    hide Step, InputAt;
    var next := moves + [Take(input)];
    assert next[..|next| - 1] == moves;
    more := SendAll(maxRetries, next, Step(maxRetries, r, input).value);
  }

  datatype Ending = Lost | Returned | OutOfAnswers

  class Loop {
    const maxRetries: nat
    const env: seq<Answers>
    var clock: nat
    var failures: nat
    var reconnecting: bool
    var trace: seq<Notice>
    ghost var moves: seq<Move>

    /** The machine, driven by `moves`, is at `p` with these counters and has sent this trace. */
    ghost predicate Follows(p: Point)
      reads this
    {
      && clock <= |env| && Heeds(maxRetries, env, moves)
      && After(maxRetries, moves) == Some(Run(p, failures, reconnecting, [], trace))
    }

    /** And it has used every answer read so far. */
    ghost predicate At(p: Point)
      reads this
    {
      Follows(p) && Uses(maxRetries, moves) == clock
    }

    constructor (maxRetries: nat, env: seq<Answers>)
      ensures At(Top) && trace == [] && this.maxRetries == maxRetries && this.env == env
    {
      this.maxRetries, this.env := maxRetries, env;
      clock, failures, reconnecting, trace, moves := 0, 0, false, [], [];
    }

    /** The machine follows with `input` from `r` to `p`, sending `said`, as the fields now show. */
    ghost method Follow(r: Run, input: Input, p: Point, said: seq<Notice>)
      requires After(maxRetries, moves) == Some(r) && r.pending == [] && clock <= |env|
      requires Heeds(maxRetries, env, moves) && Fitting(r.at, input, env, Uses(maxRetries, moves))
      requires Uses(maxRetries, moves) + (if Selects(r.at) then 1 else 0) == clock
      requires Step(maxRetries, r, input) == Some(Run(p, failures, reconnecting, said, r.emitted))
      requires trace == r.emitted + said
      modifies this`moves
      ensures At(p)
    {
      hide Step, After, Fitting, Uses, Heeds;
      moves := TakeAndSend(maxRetries, moves, r, input);
    }

    /** The inner loop: messages until the socket is lost or a stop is requested. */
    method Stream() returns (ending: Ending)
      requires At(Streaming)
      modifies this
      ensures match ending { case Lost => At(Judging) case Returned => At(Done) case OutOfAnswers => At(Streaming) }
      ensures clock >= old(clock)
    {
      hide After, Uses, Heeds;
      while clock < |env|
        invariant At(Streaming) && clock >= old(clock)
        decreases |env| - clock
      {
        ghost var r := Run(Streaming, failures, reconnecting, [], trace);
        var a := env[clock];
        clock := clock + 1;
        if a.stop {
          trace := trace + [State(Disconnected, DisconnectRequested)];
          Follow(r, Cancelled, Done, [State(Disconnected, DisconnectRequested)]);
          return Returned;
        }
        if a.stream.SocketFailed? {
          trace := trace + [Error(Socket, maxRetries > 0)];
          Follow(r, a.stream, Judging, [Error(Socket, maxRetries > 0)]);
          return Lost;
        }
        if a.stream.SocketEnded? {
          Follow(r, a.stream, Judging, []);
          return Lost;
        }
        var batch, acked := a.stream.batch, a.stream.acked;
        if acked.Some? {
          trace := trace + [AckTime(acked.value)];
        }
        trace := trace + [DecodeTime(a.stream.micros)];
        var outcome := if batch.Some? then Batch(batch.value.0, batch.value.1) else Error(Decode, false);
        trace := trace + [outcome];
        ghost var ack := if acked.Some? then [AckTime(acked.value)] else [];
        Follow(r, a.stream, Streaming, ack + [DecodeTime(a.stream.micros), outcome]);
      }
      return OutOfAnswers;
    }

    /** A failed opening: either final, or left to the retry budget. */
    method Refused(why: OpenInput) returns (final: bool)
      requires Follows(Opening) && Uses(maxRetries, moves) + 1 == clock
      requires !env[clock - 1].stop && env[clock - 1].open == why && !why.Opened?
      modifies this
      ensures At(if final then Closing else Judging) && clock == old(clock)
    {
      hide After, Uses, Heeds;
      ghost var r := Run(Opening, failures, reconnecting, [], trace);
      final := why.Blocked200? || why.EmptyCookies? || (why.HttpStatus? && (why.code == 401 || why.code == 403));
      if final {
        var fault, detail := Auth(200), HandshakeRefused;
        if why.EmptyCookies? {
          fault, detail := Auth(0), CookiesMissing;
        } else if why.HttpStatus? {
          fault := Auth(why.code);
        }
        trace := trace + [Error(fault, false)];
        trace := trace + [State(Errored, detail)];
        Follow(r, why, Closing, [Error(fault, false), State(Errored, detail)]);
      } else {
        var fault := if why.HttpStatus? then SocketStatus(why.code) else if why.OpenFailed? then Socket else Timeout;
        trace := trace + [Error(fault, failures < maxRetries)];
        Follow(r, why, Judging, [Error(fault, failures < maxRetries)]);
      }
    }

    /** The top of the loop: announce the attempt. `None` when the answers ran out, as below. */
    method Begin() returns (next: Option<Point>)
      requires At(Top)
      modifies this
      ensures clock >= old(clock)
      ensures next.Some? ==> next.value in {Signing, Closing} && At(next.value) && clock > old(clock)
      ensures next.None? ==> At(Top)
    {
      hide After, Uses, Heeds;
      if clock == |env| { return None; }
      ghost var r := Run(Top, failures, reconnecting, [], trace);
      var a := env[clock];
      clock := clock + 1;
      if a.stop {
        Follow(r, Cancelled, Closing, []);
        return Some(Closing);
      }
      trace := trace + [State(if reconnecting then Reconnecting else Connecting, OpeningStream)];
      Follow(r, Proceed, Signing, [State(if reconnecting then Reconnecting else Connecting, OpeningStream)]);
      return Some(Signing);
    }

    method Sign() returns (next: Option<Point>)
      requires At(Signing)
      modifies this
      ensures clock >= old(clock)
      ensures next.Some? ==> next.value in {Opening, Closing} && At(next.value)
      ensures next.None? ==> At(Signing)
    {
      hide After, Uses, Heeds;
      if clock == |env| { return None; }
      ghost var r := Run(Signing, failures, reconnecting, [], trace);
      var a := env[clock];
      clock := clock + 1;
      if a.stop {
        Follow(r, Cancelled, Closing, []);
        return Some(Closing);
      }
      if !a.signed {
        trace := trace + [Error(Signer, false)];
        trace := trace + [State(Errored, SigningFailed)];
        Follow(r, SignFailed, Closing, [Error(Signer, false), State(Errored, SigningFailed)]);
        return Some(Closing);
      }
      Follow(r, Signed, Opening, []);
      return Some(Opening);
    }

    method Open() returns (next: Option<Point>)
      requires At(Opening)
      modifies this
      ensures clock >= old(clock)
      ensures next.Some? ==> next.value in {Streaming, Judging, Closing} && At(next.value)
      ensures next.None? ==> At(Opening)
    {
      hide After, Uses, Heeds;
      if clock == |env| { return None; }
      ghost var r := Run(Opening, failures, reconnecting, [], trace);
      var a := env[clock];
      clock := clock + 1;
      if a.stop {
        Follow(r, Cancelled, Closing, []);
        return Some(Closing);
      }
      if a.open.Opened? {
        failures := 0;
        trace := trace + [State(Connected, StreamOpen)];
        Follow(r, Opened, Streaming, [State(Connected, StreamOpen)]);
        return Some(Streaming);
      }
      var final := Refused(a.open);
      return Some(if final then Closing else Judging);
    }

    /** One attempt, up to an open socket. */
    method Connect() returns (next: Option<Point>)
      requires At(Top)
      modifies this
      ensures clock >= old(clock)
      ensures next.Some? ==> next.value in {Streaming, Judging, Closing} && At(next.value) && clock > old(clock)
      ensures next.None? ==> At(Top) || At(Signing) || At(Opening)
    {
      hide After, Uses, Heeds;
      next := Begin();
      if next == Some(Signing) {
        next := Sign();
        if next == Some(Opening) {
          next := Open();
        }
      }
    }

    /** The retry budget and the back-off; `None` when the answers ran out. */
    method Retry() returns (next: Option<Point>)
      requires At(Judging)
      modifies this
      ensures clock >= old(clock)
      ensures next.Some? ==> next.value in {Top, Closing} && At(next.value)
      ensures next.None? ==> At(BackingOff)
    {
      hide After, Uses, Heeds;
      ghost var r := Run(Judging, failures, reconnecting, [], trace);
      if failures >= maxRetries {
        trace := trace + [State(Errored, BudgetExhausted)];
        Follow(r, Proceed, Closing, [State(Errored, BudgetExhausted)]);
        return Some(Closing);
      }
      failures := failures + 1;
      reconnecting := true;
      trace := trace + [State(Reconnecting, WaitingToRetry)];
      Follow(r, Proceed, BackingOff, [State(Reconnecting, WaitingToRetry)]);
      if clock == |env| { return None; }
      r := Run(BackingOff, failures, reconnecting, [], trace);
      var a := env[clock];
      clock := clock + 1;
      if a.stop {
        Follow(r, Cancelled, Closing, []);
        return Some(Closing);
      }
      Follow(r, BackoffElapsed, Top, []);
      return Some(Top);
    }

    /**
     * `run`, until it returns or the answers run out. The notifications sent keep the order the
     * protocol promises, are what the inputs taken have to be reported as, and the inputs are the
     * environment's answers in order. The run has returned exactly when `Disconnected` was sent, last.
     */
    method Drive() returns (finished: bool)
      requires At(Top)
      modifies this
      ensures exists p :: At(p) && (finished <==> p == Done)
      ensures failures <= maxRetries
      ensures WellOrdered(trace)
      ensures finished <==> trace != [] && IsState(trace[|trace| - 1], Disconnected)
      ensures Spoken(trace) == ReportsIn(moves) && Heeds(maxRetries, env, moves)
    {
      hide After, WellOrdered, Uses, Heeds, Spoken, ReportsIn, Step;
      while true
        invariant At(Top)
        decreases |env| - clock
      {
        var reached := Connect();
        if reached.None? {
          Conclude();
          return false;
        }
        var point := reached.value;
        if point == Streaming {
          var ending := Stream();
          if ending.Returned? {
            Conclude();
            return true;
          }
          if ending.OutOfAnswers? {
            Conclude();
            return false;
          }
          point := Judging;
        }
        if point == Judging {
          var next := Retry();
          if next.None? {
            Conclude();
            return false;
          }
          point := next.value;
        }
        if point == Closing { break; }
      }
      Finish();
      Conclude();
      return true;
    }

    /** The announcement that ends every run. */
    method Finish()
      requires At(Closing)
      modifies this
      ensures At(Done)
    {
      hide After, Uses, Heeds;
      ghost var r := Run(Closing, failures, reconnecting, [], trace);
      trace := trace + [State(Disconnected, StreamStopped)];
      Follow(r, Proceed, Done, [State(Disconnected, StreamStopped)]);
    }

    /** What `EveryRun` says of the counters and the trace. */
    lemma Conclude()
      requires exists p :: At(p)
      ensures failures <= maxRetries
      ensures WellOrdered(trace)
      ensures At(Done) <==> trace != [] && IsState(trace[|trace| - 1], Disconnected)
      ensures forall p, q :: At(p) && At(q) ==> p == q
      ensures Spoken(trace) == ReportsIn(moves) && Heeds(maxRetries, env, moves)
    {
      hide After, Retries, LiveRun.Follows, Uses, Heeds, Spoken, ReportsIn;
      EveryRun(maxRetries, moves);
      EveryRunReports(maxRetries, moves);
      ReachableKeeps(maxRetries, moves);
      var r := After(maxRetries, moves).value;
      assert r.Trace() == trace;
    }
  }
}
