/**
 * The callback dispatcher between the transport loop and the consumer's sink: a byte-budgeted
 * bounded queue, one producer (the loop, through the proxy) and one worker thread.
 *
 * Every atomic access of the two threads is its own action, so a list of actions is an
 * interleaving. `accepted` and `delivered` are histories: what entered the queue, and what the
 * sink was called with. Callbacks are assumed to return.
 */
module Buffered {
  import opened Bytes
  import opened LiveRun

  const QUEUE_CAPACITY: nat := 32
  /** No step of the loop says more than this at once. */
  const MAX_PENDING: nat := 3
  const QUEUE_BYTES: nat := 8 * 1024 * 1024

  function Cost(n: Notice): nat {
    match n
    case State(_, _) => 512
    case Batch(_, retained) => retained
    case _ => 128
  }

  function Total(q: seq<Notice>): nat {
    if q == [] then 0 else Cost(q[0]) + Total(q[1..])
  }

  /** Where `Proxy::send` stands. */
  datatype Producer = Idle | Loaded(n: Notice) | Reserved(n: Notice) | Refunding(n: Notice) | Raising | Stopping

  /** Where the worker stands; a notice stays charged until its callback has returned. */
  datatype Worker = Waiting | Holding(n: Notice) | Returned(n: Notice) | Flushing(done: nat) | Finished

  datatype System = System(
    run: Run, producer: Producer, worker: Worker,
    bytes: int, queue: seq<Notice>, overloaded: bool, cancel: bool, closed: bool,
    accepted: seq<Notice>, delivered: seq<Notice>)

  const BOOT := System(START, Idle, Waiting, 0, [], false, false, false, [], [])

  /** What the worker reports after draining an overloaded queue. */
  const SATURATION: seq<Notice> :=
    [Error(Backpressure, false), State(Errored, QueueSaturated), State(Disconnected, StreamStopped)]

  datatype Action =
    | Host            // the caller's own stop signal is forwarded
    | Loop(input: Input)
    | Hand            // the loop calls the proxy, which loads the overload flag
    | Reserve | TrySend | Refund | Raise | Stop
    | Close           // the proxy is dropped after the loop returned
    | Receive | Invoke | Release | Hangup | Flush

  /** A select is biased: it takes the stop signal if there is one, and only then another branch. */
  predicate Ready(s: System, input: Input) {
    Selects(s.run.at) ==> (input == Cancelled <==> s.cancel)
  }

  function Act(maxRetries: nat, s: System, a: Action): Option<System> {
    match a
    case Host => Some(s.(cancel := true))
    case Loop(input) =>
      if s.producer != Idle || s.closed || s.run.pending != [] || !Ready(s, input) then None
      else
        var next := Step(maxRetries, s.run, input);
        if next.None? then None else Some(s.(run := next.value))
    case Hand =>
      if s.producer != Idle || s.closed || s.run.pending == [] then None
      else
        var n := s.run.pending[0];
        Some(s.(run := Emit(s.run), producer := if s.overloaded then Idle else Loaded(n)))
    case Reserve =>
      if !s.producer.Loaded? then None
      else
        var sum := s.bytes + Cost(s.producer.n);
        if sum <= QUEUE_BYTES then Some(s.(bytes := sum, producer := Reserved(s.producer.n)))
        else Some(s.(producer := Raising))
    case TrySend =>
      if !s.producer.Reserved? then None
      else if |s.queue| < QUEUE_CAPACITY then
        var n := s.producer.n;
        Some(s.(queue := s.queue + [n], accepted := s.accepted + [n], producer := Idle))
      else Some(s.(producer := Refunding(s.producer.n)))
    case Refund =>
      if !s.producer.Refunding? then None
      else Some(s.(bytes := s.bytes - Cost(s.producer.n), producer := Raising))
    case Raise => if s.producer != Raising then None else Some(s.(overloaded := true, producer := Stopping))
    case Stop => if s.producer != Stopping then None else Some(s.(cancel := true, producer := Idle))
    case Close =>
      if s.producer == Idle && s.run.at == Done && s.run.pending == [] && !s.closed then Some(s.(closed := true))
      else None
    case Receive =>
      if s.worker == Waiting && s.queue != [] then Some(s.(worker := Holding(s.queue[0]), queue := s.queue[1..]))
      else None
    case Invoke =>
      if s.worker.Holding? then Some(s.(delivered := s.delivered + [s.worker.n], worker := Returned(s.worker.n)))
      else None
    case Release =>
      if s.worker.Returned? then Some(s.(bytes := s.bytes - Cost(s.worker.n), worker := Waiting)) else None
    case Hangup =>
      if s.worker == Waiting && s.queue == [] && s.closed then
        Some(s.(worker := if s.overloaded then Flushing(0) else Finished))
      else None
    case Flush =>
      if s.worker.Flushing? && s.worker.done < |SATURATION| then
        var n := SATURATION[s.worker.done];
        Some(s.(delivered := s.delivered + [n],
                worker := if s.worker.done + 1 == |SATURATION| then Finished else Flushing(s.worker.done + 1)))
      else None
  }

  /** The system reached by an interleaving. */
  function After(maxRetries: nat, actions: seq<Action>): Option<System> {
    if actions == [] then Some(BOOT)
    else
      var before := After(maxRetries, actions[..|actions| - 1]);
      if before.None? then None else Act(maxRetries, before.value, actions[|actions| - 1])
  }

  // ----- What every interleaving keeps

  /** Bytes charged for a send that has reserved but not enqueued. */
  function InSend(p: Producer): nat {
    if p.Reserved? || p.Refunding? then Cost(p.n) else 0
  }

  /** Bytes charged for the notice in the worker's hands. */
  function InCallback(w: Worker): nat {
    if w.Holding? || w.Returned? then Cost(w.n) else 0
  }

  /** The notice received but not yet given to the sink. */
  function Held(w: Worker): seq<Notice> {
    if w.Holding? then [w.n] else []
  }

  /** What the worker has added of its own. */
  function Own(s: System): seq<Notice> {
    match s.worker
    case Flushing(k) => if k <= |SATURATION| then SATURATION[..k] else SATURATION
    case Finished => if s.overloaded then SATURATION else []
    case _ => []
  }

  predicate Accounted(s: System) {
    && s.bytes == Total(s.queue) + InCallback(s.worker) + InSend(s.producer)
    && s.bytes <= QUEUE_BYTES
    && |s.queue| <= QUEUE_CAPACITY
  }

  /** A send has failed, or is failing. */
  predicate Saturated(s: System) {
    s.overloaded || s.producer.Refunding? || s.producer.Raising?
  }

  predicate Ordered(s: System) {
    && (!s.worker.Flushing? && !s.worker.Finished? ==> s.delivered + Held(s.worker) + s.queue == s.accepted)
    && (s.worker.Flushing? || s.worker.Finished? ==>
          s.closed && s.queue == [] && s.delivered == s.accepted + Own(s))
    && (s.worker.Flushing? ==> s.overloaded && s.worker.done < |SATURATION|)
  }

  /** The queue has taken everything the loop said, or stopped for good at the notice that overflowed. */
  predicate Faithful(s: System) {
    if Saturated(s) then s.accepted < s.run.emitted
    else s.accepted + (if s.producer.Loaded? || s.producer.Reserved? then [s.producer.n] else []) == s.run.emitted
  }

  predicate Inv(maxRetries: nat, s: System) {
    && LiveRun.Inv(maxRetries, s.run)
    && Accounted(s) && Ordered(s) && Faithful(s)
    && (s.closed ==> s.producer == Idle && s.run.at == Done && s.run.pending == [])
    && (s.producer == Stopping ==> s.overloaded)
    && (s.producer.Loaded? || s.producer.Reserved? || s.producer.Refunding? || s.producer == Raising ==> !s.overloaded)
    && (s.overloaded && s.producer != Stopping ==> s.cancel)
    && |s.run.pending| <= MAX_PENDING
  }

  lemma {:induction false} TotalConcat(a: seq<Notice>, b: seq<Notice>)
    ensures Total(a + b) == Total(a) + Total(b)
  {
    if a == [] {
      assert a + b == b;
    } else {
      TotalConcat(a[1..], b);
      assert (a + b)[1..] == a[1..] + b;
    }
  }

  lemma ProducerAccounted(maxRetries: nat, s: System, a: Action)
    requires Accounted(s) && Act(maxRetries, s, a).Some? && !IsWork(a)
    ensures Accounted(Act(maxRetries, s, a).value)
  {
    hide Step, Cost, Emit, Ready, Total;
    if a.TrySend? && |s.queue| < QUEUE_CAPACITY {
      TotalConcat(s.queue, [s.producer.n]);
      TotalOne(s.producer.n);
    }
  }

  lemma WorkerAccounted(maxRetries: nat, s: System, a: Action)
    requires Accounted(s) && Act(maxRetries, s, a).Some? && IsWork(a)
    ensures Accounted(Act(maxRetries, s, a).value)
  {
    hide Step, Cost, Emit, Ready, Total;
    if a.Receive? {
      TotalFirst(s.queue);
    }
  }

  lemma AccountedKeeps(maxRetries: nat, s: System, a: Action)
    requires Accounted(s) && Act(maxRetries, s, a).Some?
    ensures Accounted(Act(maxRetries, s, a).value)
  {
    hide Act, Accounted;
    if IsWork(a) {
      WorkerAccounted(maxRetries, s, a);
    } else {
      ProducerAccounted(maxRetries, s, a);
    }
  }

  lemma TotalNone()
    ensures Total([]) == 0
  {
  }

  lemma TotalOne(n: Notice)
    ensures Total([n]) == Cost(n)
  {
    assert [n][1..] == [];
  }

  lemma TotalFirst(q: seq<Notice>)
    requires q != []
    ensures Total(q) == Cost(q[0]) + Total(q[1..])
  {
  }

  predicate IsWork(a: Action) {
    a.Receive? || a.Invoke? || a.Release? || a.Hangup? || a.Flush?
  }

  /** The producer's moves: only an accepted notice shows, at the back of the queue. */
  lemma ProducerOrdered(maxRetries: nat, s: System, a: Action)
    requires Inv(maxRetries, s) && Act(maxRetries, s, a).Some? && !IsWork(a)
    ensures Ordered(Act(maxRetries, s, a).value)
  {
    hide Step, LiveRun.Inv, Accounted, Faithful, Cost, Emit, Ready;
    if a.TrySend? && |s.queue| < QUEUE_CAPACITY {
      ConcatAssociates(s.delivered + Held(s.worker), s.queue, [s.producer.n]);
    }
  }

  /** The worker's moves: a notice goes from the queue to its hands to the sink, and its own report last. */
  lemma WorkerOrdered(maxRetries: nat, s: System, a: Action)
    requires Ordered(s) && Act(maxRetries, s, a).Some? && IsWork(a)
    ensures Ordered(Act(maxRetries, s, a).value)
  {
    hide Step, Cost, Emit, Ready;
    if a.Receive? {
      assert s.queue == [s.queue[0]] + s.queue[1..];
      assert s.delivered + [] + ([s.queue[0]] + s.queue[1..]) == s.delivered + [s.queue[0]] + s.queue[1..];
    } else if a.Invoke? {
      assert s.delivered + [s.worker.n] + [] == s.delivered + [s.worker.n];
    } else if a.Hangup? {
      assert s.delivered == s.accepted == s.accepted + [];
    } else if a.Flush? {
      var k := s.worker.done;
      assert SATURATION[..k] + [SATURATION[k]] == SATURATION[..k + 1];
      assert SATURATION[..|SATURATION|] == SATURATION;
    }
  }

  lemma OrderedKeeps(maxRetries: nat, s: System, a: Action)
    requires Inv(maxRetries, s) && Act(maxRetries, s, a).Some?
    ensures Ordered(Act(maxRetries, s, a).value)
  {
    hide Act, LiveRun.Inv, Accounted, Faithful, Ordered;
    if IsWork(a) {
      WorkerOrdered(maxRetries, s, a);
    } else {
      ProducerOrdered(maxRetries, s, a);
    }
  }

  lemma FaithfulKeeps(maxRetries: nat, s: System, a: Action)
    requires Inv(maxRetries, s) && Act(maxRetries, s, a).Some?
    ensures Faithful(Act(maxRetries, s, a).value)
  {
    hide LiveRun.Inv, Accounted, Ordered, Ready, Cost, Step;
    var s' := Act(maxRetries, s, a).value;
    if a.Loop? {
      assert s'.run.emitted == s.run.emitted by { StepSays(maxRetries, s.run, a.input); }
    }
  }

  lemma StepSays(maxRetries: nat, r: Run, input: Input)
    requires Step(maxRetries, r, input).Some?
    ensures Step(maxRetries, r, input).value.emitted == r.emitted
    ensures |Step(maxRetries, r, input).value.pending| <= Max(|r.pending|, MAX_PENDING)
    ensures r.at != Done
  {
  }

  lemma ActKeeps(maxRetries: nat, s: System, a: Action)
    requires Inv(maxRetries, s) && Act(maxRetries, s, a).Some?
    ensures Inv(maxRetries, Act(maxRetries, s, a).value)
  {
    hide Step, LiveRun.Inv, Accounted, Ordered, Faithful;
    AccountedKeeps(maxRetries, s, a);
    OrderedKeeps(maxRetries, s, a);
    FaithfulKeeps(maxRetries, s, a);
    if a.Loop? {
      StepKeeps(maxRetries, s.run, a.input);
      StepSays(maxRetries, s.run, a.input);
    } else if a.Hand? {
      AdvanceKeeps(maxRetries, s.run, Send);
    }
  }

  lemma BootKeeps(maxRetries: nat)
    ensures Inv(maxRetries, BOOT)
  {
    hide Total, Cost;
    assert START.Trace() == [];
    assert Total([]) == 0 by { TotalNone(); }
  }

  lemma OverloadKeeps(maxRetries: nat, s: System, a: Action)
    requires Inv(maxRetries, s) && s.overloaded && Act(maxRetries, s, a).Some?
    ensures Act(maxRetries, s, a).value.overloaded && Act(maxRetries, s, a).value.accepted == s.accepted
  {
    hide Step, LiveRun.Inv, Accounted, Ordered, Faithful;
  }

  lemma {:induction false} ReachableKeeps(maxRetries: nat, actions: seq<Action>)
    requires After(maxRetries, actions).Some?
    ensures Inv(maxRetries, After(maxRetries, actions).value)
  {
    hide Act, Inv;
    if actions == [] {
      BootKeeps(maxRetries);
    } else {
      ReachableKeeps(maxRetries, actions[..|actions| - 1]);
      ActKeeps(maxRetries, After(maxRetries, actions[..|actions| - 1]).value, actions[|actions| - 1]);
    }
  }

  /**
   * Every interleaving: the byte counter is exactly what is queued, in a callback and reserved, and
   * never leaves its bounds; the queue never exceeds its capacity; and the sink has seen a prefix of
   * what was accepted until the worker adds its own report.
   */
  lemma EveryInterleaving(maxRetries: nat, actions: seq<Action>)
    requires After(maxRetries, actions).Some?
    ensures var s := After(maxRetries, actions).value;
            && s.bytes == Total(s.queue) + InCallback(s.worker) + InSend(s.producer)
            && 0 <= s.bytes <= QUEUE_BYTES
            && |s.queue| <= QUEUE_CAPACITY
            && (!s.worker.Flushing? && !s.worker.Finished? ==> s.delivered <= s.accepted)
            && s.accepted <= s.run.emitted
            && (s.overloaded && s.producer == Idle ==> s.cancel)
  {
    hide After, Total, LiveRun.Inv;
    ReachableKeeps(maxRetries, actions);
    var s := After(maxRetries, actions).value;
    if !s.worker.Flushing? && !s.worker.Finished? {
      assert s.delivered <= s.delivered + (Held(s.worker) + s.queue);
      assert s.delivered + (Held(s.worker) + s.queue) == s.accepted;
    }
  }

  /** Nothing is accepted once the queue has overflowed, however the run goes on. */
  lemma {:induction false} NothingAfterOverload(maxRetries: nat, actions: seq<Action>, more: seq<Action>)
    requires After(maxRetries, actions).Some? && After(maxRetries, actions + more).Some?
    requires After(maxRetries, actions).value.overloaded
    ensures After(maxRetries, actions + more).value.overloaded
    ensures After(maxRetries, actions + more).value.accepted == After(maxRetries, actions).value.accepted
    decreases |more|
  {
    hide Act, Inv;
    if more == [] {
      assert actions + more == actions;
    } else {
      var most := more[..|more| - 1];
      assert (actions + more)[..|actions + more| - 1] == actions + most;
      NothingAfterOverload(maxRetries, actions, most);
      ReachableKeeps(maxRetries, actions + most);
      OverloadKeeps(maxRetries, After(maxRetries, actions + most).value, more[|more| - 1]);
    }
  }

  /**
   * Every completed run: the sink was told `Disconnected` exactly once, and last, whether or not the
   * queue overflowed and whichever notice overflowed it.
   */
  lemma DisconnectedOnce(maxRetries: nat, actions: seq<Action>)
    requires After(maxRetries, actions).Some? && After(maxRetries, actions).value.worker == Finished
    ensures var d := After(maxRetries, actions).value.delivered;
            d != [] && forall i :: 0 <= i < |d| ==> (IsState(d[i], Disconnected) <==> i == |d| - 1)
  {
    hide After, Total, Retries;
    ReachableKeeps(maxRetries, actions);
    var s := After(maxRetries, actions).value;
    var trace := s.run.Trace();
    assert trace == s.run.emitted;
    assert forall i :: 0 <= i < |trace| ==> (IsState(trace[i], Disconnected) <==> i == |trace| - 1);
    if s.overloaded {
      forall i | 0 <= i < |s.accepted|
        ensures !IsState(s.accepted[i], Disconnected)
      {
        assert s.accepted[i] == trace[i];
      }
    } else {
      assert s.delivered == trace;
    }
  }

  // ----- The drain ends

  /** The worker's next move once the proxy is gone. */
  function NextWork(s: System): Action {
    match s.worker
    case Waiting => if s.queue != [] then Receive else Hangup
    case Holding(_) => Invoke
    case Returned(_) => Release
    case _ => Flush
  }

  /** How far the worker is from its end. */
  function Remaining(s: System): nat {
    match s.worker
    case Waiting => 3 * |s.queue| + 4
    case Holding(_) => 3 * |s.queue| + 6
    case Returned(_) => 3 * |s.queue| + 5
    case Flushing(k) => if k < 3 then 3 - k else 1
    case Finished => 0
  }

  /** After the loop has returned, the worker alone can always move, and each move brings it closer. */
  lemma DrainProgresses(maxRetries: nat, actions: seq<Action>)
    requires After(maxRetries, actions).Some?
    requires var s := After(maxRetries, actions).value; s.closed && s.worker != Finished
    ensures var s := After(maxRetries, actions).value;
            var next := Act(maxRetries, s, NextWork(s));
            next.Some? && next.value.closed && Remaining(next.value) < Remaining(s)
  {
    hide After, Total, Retries;
    ReachableKeeps(maxRetries, actions);
  }

  // ----- Saturation stops the transport

  /** How many inputs the loop still takes once it has been told to stop. */
  function Distance(p: Point): nat {
    match p
    case Done => 0
    case Closing => 1
    case Streaming => 1
    case Judging => 3
    case _ => 2
  }

  /** How far the loop and its proxy are from being gone. */
  function LoopLeft(s: System): nat {
    2 * Distance(s.run.at) + |s.run.pending| + (if s.producer == Stopping then 1 else 0) + (if s.closed then 0 else 1)
  }

  function ToEnd(s: System): nat {
    LoopLeft(s) + Remaining(s)
  }

  /** Some move that is always open once the loop has been told to stop. */
  function NextStop(s: System): Action {
    if s.producer.Loaded? then Reserve
    else if s.producer.Reserved? then TrySend
    else if s.producer.Refunding? then Refund
    else if s.producer == Raising then Raise
    else if s.producer == Stopping then Stop
    else if s.closed then NextWork(s)
    else if s.run.pending != [] then Hand
    else if s.run.at == Done then Close
    else Loop(if Selects(s.run.at) then Cancelled else Proceed)
  }

  /** A stopped loop takes one of at most three more inputs. */
  lemma StoppedStep(maxRetries: nat, r: Run, input: Input)
    requires Step(maxRetries, r, input).Some? && r.pending == []
    requires Selects(r.at) ==> input == Cancelled
    ensures var next := Step(maxRetries, r, input).value;
            Distance(next.at) < Distance(r.at) && |next.pending| <= 1
  {
  }

  lemma StopOpen(maxRetries: nat, r: Run)
    requires r.at != Done
    ensures Step(maxRetries, r, if Selects(r.at) then Cancelled else Proceed).Some?
  {
  }

  lemma LoopStops(maxRetries: nat, s: System, a: Action)
    requires Inv(maxRetries, s) && s.overloaded && Act(maxRetries, s, a).Some?
    ensures var next := Act(maxRetries, s, a).value;
            && Distance(next.run.at) + (if a.Loop? then 1 else 0) <= Distance(s.run.at)
            && (a in {Hand, Stop, Close} || a.Loop? ==> LoopLeft(next) < LoopLeft(s) && Remaining(next) == Remaining(s))
            && !(a in {Reserve, TrySend, Refund, Raise})
            && (a.Host? || IsWork(a) ==> LoopLeft(next) == LoopLeft(s))
  {
    hide Step, LiveRun.Inv, Accounted, Ordered, Faithful, Distance, Cost, Selects;
    if a.Loop? {
      StoppedStep(maxRetries, s.run, a.input);
    }
  }

  lemma WorkerMoves(maxRetries: nat, s: System, a: Action)
    requires Inv(maxRetries, s) && Act(maxRetries, s, a).Some?
    requires IsWork(a)
    ensures Remaining(Act(maxRetries, s, a).value) < Remaining(s)
  {
    hide Step, LiveRun.Inv, Accounted, Faithful, Cost, Ready;
  }

  /** After an overload every move but the caller's own stop signal brings the whole system closer to its end. */
  lemma StopProgresses(maxRetries: nat, s: System, a: Action)
    requires Inv(maxRetries, s) && s.overloaded && Act(maxRetries, s, a).Some?
    ensures ToEnd(Act(maxRetries, s, a).value) + (if a.Host? then 0 else 1) <= ToEnd(s)
  {
    hide Act, LiveRun.Inv, Accounted, Ordered, Faithful, LoopLeft, Remaining;
    LoopStops(maxRetries, s, a);
    if IsWork(a) {
      WorkerMoves(maxRetries, s, a);
    } else if a.Host? {
      HostChangesNothing(maxRetries, s);
    }
  }

  lemma HostChangesNothing(maxRetries: nat, s: System)
    ensures Act(maxRetries, s, Host).Some? && Remaining(Act(maxRetries, s, Host).value) == Remaining(s)
  {
  }

  /** Told to stop, or about to be told by a failed send. */
  predicate StopComes(s: System) {
    s.cancel || s.producer == Stopping
  }

  /** Until the worker has finished there is always a move to make. */
  lemma NeverStuck(maxRetries: nat, s: System)
    requires Inv(maxRetries, s) && StopComes(s) && s.worker != Finished
    ensures NextStop(s) != Host && Act(maxRetries, s, NextStop(s)).Some?
  {
    hide Step, LiveRun.Inv, Accounted, Faithful, Cost;
    if s.run.at != Done {
      StopOpen(maxRetries, s.run);
    }
  }

  function Moves(actions: seq<Action>): nat {
    if actions == [] then 0 else Moves(actions[..|actions| - 1]) + if actions[|actions| - 1].Host? then 0 else 1
  }

  function Inputs(actions: seq<Action>): nat {
    if actions == [] then 0 else Inputs(actions[..|actions| - 1]) + if actions[|actions| - 1].Loop? then 1 else 0
  }

  lemma ToEndIsBounded(maxRetries: nat, s: System)
    requires Inv(maxRetries, s)
    ensures ToEnd(s) <= 3 * QUEUE_CAPACITY + 17
  {
    hide LiveRun.Inv, Faithful, Total;
  }

  /**
   * Queue saturation stops the transport: in every interleaving that goes on after an overload the
   * loop takes at most three more inputs, the system makes at most 113 more moves, and as long as
   * the worker has not finished one of those moves is open.
   */
  lemma {:induction false} OverloadStops(maxRetries: nat, actions: seq<Action>, more: seq<Action>)
    requires After(maxRetries, actions).Some? && After(maxRetries, actions + more).Some?
    requires After(maxRetries, actions).value.overloaded
    ensures var s, end := After(maxRetries, actions).value, After(maxRetries, actions + more).value;
            && Inputs(more) + Distance(end.run.at) <= Distance(s.run.at) <= 3
            && Moves(more) + ToEnd(end) <= ToEnd(s) <= 113
            && (end.worker != Finished ==> Act(maxRetries, end, NextStop(end)).Some? && NextStop(end) != Host)
    decreases |more|
  {
    hide Act, Inv, ToEnd, NextStop;
    NothingAfterOverload(maxRetries, actions, more);
    ReachableKeeps(maxRetries, actions);
    ReachableKeeps(maxRetries, actions + more);
    ToEndIsBounded(maxRetries, After(maxRetries, actions).value);
    var end := After(maxRetries, actions + more).value;
    if end.worker != Finished {
      assert StopComes(end) by { OverloadIsStop(maxRetries, end); }
      NeverStuck(maxRetries, end);
    }
    if more == [] {
      assert actions + more == actions;
    } else {
      var most, last := more[..|more| - 1], more[|more| - 1];
      assert (actions + more)[..|actions + more| - 1] == actions + most;
      OverloadStops(maxRetries, actions, most);
      NothingAfterOverload(maxRetries, actions, most);
      ReachableKeeps(maxRetries, actions + most);
      LoopStops(maxRetries, After(maxRetries, actions + most).value, last);
      StopProgresses(maxRetries, After(maxRetries, actions + most).value, last);
    }
  }

  lemma OverloadIsStop(maxRetries: nat, s: System)
    requires Inv(maxRetries, s) && s.overloaded
    ensures StopComes(s)
  {
    hide LiveRun.Inv, Accounted, Ordered, Faithful;
  }

  // ----- The caller's stop ends the run, saturated or not

  /** What a send still has to do: at most a reservation, a place in the queue, and its delivery or its undoing. */
  function SendLeft(p: Producer): nat {
    match p
    case Idle => 0
    case Stopping => 1
    case Raising => 2
    case Refunding(_) => 3
    case Reserved(_) => 4
    case Loaded(_) => 5
  }

  /** A notice not yet handed over is charged for its sending and its delivery. */
  function WholeLeft(s: System): nat {
    7 * Distance(s.run.at) + 6 * |s.run.pending| + SendLeft(s.producer) + (if s.closed then 0 else 1) + Remaining(s)
  }

  lemma ProducerWinds(maxRetries: nat, s: System, a: Action)
    requires Inv(maxRetries, s) && s.cancel && Act(maxRetries, s, a).Some? && !IsWork(a)
    ensures var next := Act(maxRetries, s, a).value;
            && next.cancel
            && Distance(next.run.at) + (if a.Loop? then 1 else 0) <= Distance(s.run.at)
            && WholeLeft(next) + (if a.Host? then 0 else 1) <= WholeLeft(s)
  {
    hide Step, LiveRun.Inv, Accounted, Faithful, Distance, Cost, Selects;
    if a.Loop? {
      StoppedStep(maxRetries, s.run, a.input);
    }
  }

  lemma WorkerWinds(maxRetries: nat, s: System, a: Action)
    requires Inv(maxRetries, s) && s.cancel && Act(maxRetries, s, a).Some? && IsWork(a)
    ensures var next := Act(maxRetries, s, a).value;
            next.cancel && next.run == s.run && WholeLeft(next) + 1 <= WholeLeft(s)
  {
    hide Step, LiveRun.Inv, Accounted, Faithful, Distance, Cost, Ready;
  }

  /** Once told to stop, every move but another stop signal brings the whole system closer to its end. */
  lemma WindsDown(maxRetries: nat, s: System, a: Action)
    requires Inv(maxRetries, s) && s.cancel && Act(maxRetries, s, a).Some?
    ensures var next := Act(maxRetries, s, a).value;
            && next.cancel
            && Distance(next.run.at) + (if a.Loop? then 1 else 0) <= Distance(s.run.at)
            && WholeLeft(next) + (if a.Host? then 0 else 1) <= WholeLeft(s)
  {
    hide Act, LiveRun.Inv, Accounted, Ordered, Faithful, WholeLeft, Distance;
    if IsWork(a) {
      WorkerWinds(maxRetries, s, a);
    } else {
      ProducerWinds(maxRetries, s, a);
    }
  }

  lemma WholeIsBounded(maxRetries: nat, s: System)
    requires Inv(maxRetries, s)
    ensures WholeLeft(s) <= 3 * QUEUE_CAPACITY + 51
  {
    hide LiveRun.Inv, Faithful, Total;
  }

  /**
   * A stop signal ends the run, whoever gave it and wherever both threads stood: in every
   * interleaving that goes on the loop takes at most three more inputs and the system makes at most
   * 147 more moves, one of which is open until the worker has finished.
   */
  lemma {:induction false} StopEnds(maxRetries: nat, actions: seq<Action>, more: seq<Action>)
    requires After(maxRetries, actions).Some? && After(maxRetries, actions + more).Some?
    requires After(maxRetries, actions).value.cancel
    ensures var s, end := After(maxRetries, actions).value, After(maxRetries, actions + more).value;
            && end.cancel
            && Inputs(more) + Distance(end.run.at) <= Distance(s.run.at) <= 3
            && Moves(more) + WholeLeft(end) <= WholeLeft(s) <= 147
            && (end.worker != Finished ==> Act(maxRetries, end, NextStop(end)).Some? && NextStop(end) != Host)
    decreases |more|
  {
    hide Act, Inv, WholeLeft, NextStop;
    ReachableKeeps(maxRetries, actions);
    ReachableKeeps(maxRetries, actions + more);
    WholeIsBounded(maxRetries, After(maxRetries, actions).value);
    if more == [] {
      assert actions + more == actions;
    } else {
      var most, last := more[..|more| - 1], more[|more| - 1];
      assert (actions + more)[..|actions + more| - 1] == actions + most;
      StopEnds(maxRetries, actions, most);
      ReachableKeeps(maxRetries, actions + most);
      WindsDown(maxRetries, After(maxRetries, actions + most).value, last);
    }
    var end := After(maxRetries, actions + more).value;
    if end.worker != Finished {
      NeverStuck(maxRetries, end);
    }
  }

  // ----- What reaches the sink

  /** What the inputs of an interleaving have to be reported as. */
  function ReportsGiven(actions: seq<Action>): seq<Notice> {
    if actions == [] then []
    else
      var last := actions[|actions| - 1];
      ReportsGiven(actions[..|actions| - 1]) + if last.Loop? then Report(last.input) else []
  }

  function Batches(t: seq<Notice>): seq<Notice> {
    if t == [] then [] else (if t[0].Batch? then [t[0]] else []) + Batches(t[1..])
  }

  lemma {:induction false} BatchesConcat(a: seq<Notice>, b: seq<Notice>)
    ensures Batches(a + b) == Batches(a) + Batches(b)
  {
    if a == [] {
      assert a + b == b;
    } else {
      BatchesConcat(a[1..], b);
      ConcatHead(a, b);
      ConcatAssociates(if a[0].Batch? then [a[0]] else [], Batches(a[1..]), Batches(b));
    }
  }

  /** Leaving out announcements and flags leaves every batch. */
  lemma {:induction false} SpokenBatches(t: seq<Notice>)
    ensures Batches(Spoken(t)) == Batches(t)
  {
    if t != [] {
      SpokenBatches(t[1..]);
      BatchesConcat(Stripped(t[0]), Spoken(t[1..]));
      assert Batches(Stripped(t[0])) == if t[0].Batch? then [t[0]] else [] by {
        if !t[0].State? { assert Stripped(t[0])[1..] == []; }
      }
    }
  }

  lemma PrefixBatches(a: seq<Notice>, b: seq<Notice>)
    requires a <= b
    ensures Batches(a) <= Batches(b)
  {
    BatchesConcat(a, b[|a|..]);
    assert b == a + b[|a|..];
  }

  lemma PrefixSpoken(a: seq<Notice>, b: seq<Notice>)
    requires a <= b
    ensures Spoken(a) <= Spoken(b)
  {
    SpokenConcat(a, b[|a|..]);
    assert b == a + b[|a|..];
  }

  lemma ActSpeaks(maxRetries: nat, s: System, a: Action)
    requires Act(maxRetries, s, a).Some?
    ensures Spoken(Act(maxRetries, s, a).value.run.Trace()) ==
            Spoken(s.run.Trace()) + if a.Loop? then Report(a.input) else []
  {
    hide Step, Cost, Ready, Spoken, Report;
    var next := Act(maxRetries, s, a).value;
    if a.Loop? {
      AdvanceSpeaks(maxRetries, s.run, Take(a.input));
    } else if a.Hand? {
      AdvanceSpeaks(maxRetries, s.run, Send);
    }
  }

  lemma {:induction false} LoopReports(maxRetries: nat, actions: seq<Action>)
    requires After(maxRetries, actions).Some?
    ensures Spoken(After(maxRetries, actions).value.run.Trace()) == ReportsGiven(actions)
  {
    hide Act, Report;
    if actions == [] {
      assert START.Trace() == [];
    } else {
      var p := actions[..|actions| - 1];
      LoopReports(maxRetries, p);
      ActSpeaks(maxRetries, After(maxRetries, p).value, actions[|actions| - 1]);
    }
  }

  lemma SaturationHasNoBatch(k: nat)
    requires k <= |SATURATION|
    ensures Batches(SATURATION[..k]) == []
  {
    assert forall i :: 0 <= i < |SATURATION| ==> !SATURATION[i].Batch?;
    NoBatches(SATURATION[..k]);
  }

  lemma {:induction false} NoBatches(t: seq<Notice>)
    requires forall i :: 0 <= i < |t| ==> !t[i].Batch?
    ensures Batches(t) == []
  {
    if t != [] {
      NoBatches(t[1..]);
    }
  }

  /**
   * Every interleaving: what the sink has been told is, in order, a first part of what the inputs of
   * the loop have to be reported as, and so are the batches it was given, also after an overload. A
   * completed run without an overload has told it all of them.
   */
  lemma ReportsArrive(maxRetries: nat, actions: seq<Action>)
    requires After(maxRetries, actions).Some?
    ensures var s := After(maxRetries, actions).value;
            && (!s.worker.Flushing? && !s.worker.Finished? ==> Spoken(s.delivered) <= ReportsGiven(actions))
            && Batches(s.delivered) <= Batches(ReportsGiven(actions))
            && (s.worker == Finished && !s.overloaded ==>
                  && Spoken(s.delivered) == ReportsGiven(actions)
                  && Batches(s.delivered) == Batches(ReportsGiven(actions)))
  {
    hide After, Total, Spoken, Batches, ReportsGiven, LiveRun.Inv;
    LoopReports(maxRetries, actions);
    ReachableKeeps(maxRetries, actions);
    var s := After(maxRetries, actions).value;
    AcceptedIsSaid(s);
    PrefixSpoken(s.accepted, s.run.Trace());
    PrefixBatches(s.accepted, s.run.Trace());
    SpokenBatches(s.run.Trace());
    if s.worker.Flushing? || s.worker.Finished? {
      BatchesConcat(s.accepted, Own(s));
      OwnHasNoBatch(s);
      if !s.overloaded {
        assert s.delivered == s.accepted;
      }
    } else {
      assert s.delivered <= s.accepted by {
        assert s.delivered + (Held(s.worker) + s.queue) == s.accepted;
      }
      PrefixSpoken(s.delivered, s.accepted);
      PrefixBatches(s.delivered, s.accepted);
    }
  }

  lemma OwnHasNoBatch(s: System)
    ensures Batches(Own(s)) == []
  {
    assert SATURATION[..|SATURATION|] == SATURATION;
    SaturationHasNoBatch(|SATURATION|);
    SaturationHasNoBatch(0);
    if s.worker.Flushing? && s.worker.done <= |SATURATION| {
      SaturationHasNoBatch(s.worker.done);
    }
  }

  /** What was accepted is a first part of what the loop has said; all of it once it is gone and unsaturated. */
  lemma AcceptedIsSaid(s: System)
    requires Faithful(s) && Ordered(s)
    requires s.closed ==> s.producer == Idle && s.run.pending == []
    ensures s.accepted <= s.run.Trace()
    ensures s.worker == Finished && !s.overloaded ==> s.accepted == s.run.Trace()
  {
    assert s.run.emitted <= s.run.Trace();
  }

  // ----- What a batch costs

  /** The bytes that the batches of a list retain. */
  function Retained(t: seq<Notice>): nat {
    if t == [] then 0 else (if t[0].Batch? then t[0].retained else 0) + Retained(t[1..])
  }

  function CountStates(t: seq<Notice>): nat {
    if t == [] then 0 else (if t[0].State? then 1 else 0) + CountStates(t[1..])
  }

  /** The charge of a queue: what its batches retain, 512 for an announcement and 128 for anything else. */
  lemma {:induction false} ChargeIs(t: seq<Notice>)
    ensures Total(t) == Retained(t) + 512 * CountStates(t) + 128 * (|t| - |Batches(t)| - CountStates(t))
  {
    if t != [] {
      ChargeIs(t[1..]);
    }
  }

  /** In every interleaving the batches queued and in a callback retain at most 8 MiB. */
  lemma RetainedIsBounded(maxRetries: nat, actions: seq<Action>)
    requires After(maxRetries, actions).Some?
    ensures var s := After(maxRetries, actions).value;
            Retained(s.queue) + Retained(Held(s.worker)) <= 8 * 1024 * 1024
  {
    hide After, Batches;
    EveryInterleaving(maxRetries, actions);
    var s := After(maxRetries, actions).value;
    RetainedIsCharged(s.queue);
    if s.worker.Holding? {
      RetainedIsCharged([s.worker.n]);
      TotalOne(s.worker.n);
    }
  }

  lemma {:induction false} RetainedIsCharged(t: seq<Notice>)
    ensures Retained(t) <= Total(t)
  {
    if t != [] {
      RetainedIsCharged(t[1..]);
    }
  }
}
