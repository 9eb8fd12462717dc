/**
 The logger's goroutines (core/logx/rotatelogger.go:250-276 and 377-400) as interleaved steps: many
 writers put messages into a bounded channel, one worker takes them out and writes them to the file, and
 `Close` closes `done`, waits for the worker to drain the channel, and returns.
 */
module LoggerProtocol {
  import opened Wrappers
  import opened RotateNames
  import opened RotateLogger

  const BUFFER_SIZE := 100

  datatype Worker = Running | Draining | Stopped

  /**
   `done` and `returned` say whether `Close` has closed the channel `done` and whether it has returned.
   The last three components are history: messages accepted by `Write`, events handed to `write`, and how
   many messages had been accepted when `done` was closed.
   */
  datatype State = State(
    queue: seq<Bytes>, done: bool, returned: bool, worker: Worker, log: Log, at: Instant,
    accepted: seq<Bytes>, handled: seq<Event>, acceptedAtClose: nat)

  datatype Action =
    | Accept(msg: Bytes)     // a writer's send goes through
    | Reject                 // a writer finds `done` closed
    | Take(tick: Tick)       // the worker receives a message and writes it, while running or draining
    | SeeDone                // the running worker finds `done` closed
    | Drained                // the draining worker finds the channel empty
    | CloseDone              // `Close` closes `done`
    | CloseReturns           // `Close` has waited for the worker

  /** What an action does; None if it cannot happen in the state. */
  function Do(r: Rule, s: State, a: Action): Option<State>
    requires Ready(r, s.log, s.at)
  {
    match a
    case Accept(msg) =>
      if |s.queue| < BUFFER_SIZE then Some(s.(queue := s.queue + [msg], accepted := s.accepted + [msg])) else None
    case Reject => if s.done then Some(s) else None
    case Take(tick) =>
      if s.worker.Stopped? || s.queue == [] || !TickInRange(tick) then None
      else
        var e := Event(s.queue[0], tick);
        Some(s.(queue := s.queue[1..], handled := s.handled + [e],
                log := Next(r, s.log, s.at, e), at := NextAt(r, s.log, s.at, e)))
    case SeeDone => if s.worker.Running? && s.done then Some(s.(worker := Draining)) else None
    case Drained => if s.worker.Draining? && s.queue == [] then Some(s.(worker := Stopped)) else None
    case CloseDone => if !s.done then Some(s.(done := true, acceptedAtClose := |s.accepted|)) else None
    case CloseReturns => if s.done && s.worker.Stopped? then Some(s.(returned := true)) else None
  }

  function Start(log: Log, at: Instant): State
  {
    State([], false, false, Running, log, at, [], [], 0)
  }

  function Texts(events: seq<Event>): seq<Bytes>
  {
    seq(|events|, i requires 0 <= i < |events| => events[i].msg)
  }

  /** What holds in every reachable state, whatever the interleaving. */
  ghost predicate Invariant(r: Rule, first: Log, start: Instant, s: State)
  {
    Ready(r, first, start) && AllInRange(s.handled) && Ready(r, s.log, s.at) &&
    // messages are neither lost, duplicated nor reordered between acceptance and the file
    s.accepted == Texts(s.handled) + s.queue &&
    |s.queue| <= BUFFER_SIZE &&
    // the file is what the handled messages make it
    s.log == Final(r, first, start, s.handled) && s.at == FinalAt(r, first, start, s.handled) &&
    // the worker leaves its loop only after `done`, and stops only with everything before `done` handled
    (s.done ==> s.acceptedAtClose <= |s.accepted|) &&
    (!s.worker.Running? ==> s.done) &&
    (s.worker.Stopped? ==> s.acceptedAtClose <= |s.handled|) &&
    (s.returned ==> s.worker.Stopped?)
  }

  /** The time that the backup name in place after a run was made at. */
  function FinalAt(r: Rule, s: Log, at: Instant, events: seq<Event>): Instant
    requires Ready(r, s, at) && AllInRange(events)
    decreases events
  {
    if events == [] then at
    else (Effect(r, s, at, events[0]); FinalAt(r, Next(r, s, at, events[0]), NextAt(r, s, at, events[0]), events[1..]))
  }

  lemma FinalCons(r: Rule, s: Log, at: Instant, events: seq<Event>)
    requires Ready(r, s, at) && AllInRange(events) && events != []
    ensures TickInRange(events[0].tick) && AllInRange(events[1..])
    ensures var next, nextAt := Next(r, s, at, events[0]), NextAt(r, s, at, events[0]);
            Ready(r, next, nextAt) &&
            Final(r, s, at, events) == Final(r, next, nextAt, events[1..]) &&
            FinalAt(r, s, at, events) == FinalAt(r, next, nextAt, events[1..])
  {
    Effect(r, s, at, events[0]);
  }

  lemma {:induction false} FinalSnoc(r: Rule, s: Log, at: Instant, events: seq<Event>, e: Event)
    requires Ready(r, s, at) && AllInRange(events) && TickInRange(e.tick)
    ensures AllInRange(events + [e])
    ensures var end, endAt := Final(r, s, at, events), FinalAt(r, s, at, events);
            Ready(r, end, endAt) &&
            Final(r, s, at, events + [e]) == Next(r, end, endAt, e) &&
            FinalAt(r, s, at, events + [e]) == NextAt(r, end, endAt, e)
    decreases events
  {
    FinalCons(r, s, at, events + [e]);
    if events == [] {
      assert (events + [e])[0] == e && (events + [e])[1..] == [];
    } else {
      assert (events + [e])[0] == events[0] && (events + [e])[1..] == events[1..] + [e];
      FinalCons(r, s, at, events);
      FinalSnoc(r, Next(r, s, at, events[0]), NextAt(r, s, at, events[0]), events[1..], e);
    }
  }

  lemma TakePreserves(r: Rule, first: Log, start: Instant, s: State, tick: Tick)
    requires Invariant(r, first, start, s) && Do(r, s, Take(tick)).Some?
    ensures Invariant(r, first, start, Do(r, s, Take(tick)).value)
  {
    FinalSnoc(r, first, start, s.handled, Event(s.queue[0], tick));
    TakeMovesText(s.handled, s.queue, tick);
  }

  /** Handing over the first message of the channel leaves handled and queued messages, taken together, as they were. */
  lemma TakeMovesText(handled: seq<Event>, queue: seq<Bytes>, tick: Tick)
    requires queue != []
    ensures Texts(handled + [Event(queue[0], tick)]) + queue[1..] == Texts(handled) + queue
  {
    assert Texts(handled + [Event(queue[0], tick)]) == Texts(handled) + [queue[0]];
  }

  lemma AcceptPreserves(r: Rule, first: Log, start: Instant, s: State, msg: Bytes)
    requires Invariant(r, first, start, s) && Do(r, s, Accept(msg)).Some?
    ensures Invariant(r, first, start, Do(r, s, Accept(msg)).value)
  {
    assert Texts(s.handled) + s.queue + [msg] == Texts(s.handled) + (s.queue + [msg]);
  }

  lemma DrainedPreserves(r: Rule, first: Log, start: Instant, s: State)
    requires Invariant(r, first, start, s) && Do(r, s, Drained).Some?
    ensures Invariant(r, first, start, Do(r, s, Drained).value)
  {
    assert |s.accepted| == |s.handled| + |s.queue|;
  }

  /** Every action keeps the invariant. */
  lemma Preserved(r: Rule, first: Log, start: Instant, s: State, a: Action)
    requires Invariant(r, first, start, s) && Do(r, s, a).Some?
    ensures Invariant(r, first, start, Do(r, s, a).value)
  {
    match a
    case Accept(msg) => AcceptPreserves(r, first, start, s, msg);
    case Take(tick) => TakePreserves(r, first, start, s, tick);
    case Drained => DrainedPreserves(r, first, start, s);
    case Reject =>
    case SeeDone =>
    case CloseDone =>
    case CloseReturns =>
  }

  ghost predicate Step(r: Rule, s: State, s': State)
  {
    Ready(r, s.log, s.at) && exists a :: Do(r, s, a) == Some(s')
  }

  /** A run: every state but the first is made from the one before by some action. */
  ghost predicate IsRun(r: Rule, run: seq<State>)
  {
    |run| > 0 && forall i :: 0 < i < |run| ==> Step(r, run[i - 1], run[i])
  }

  /** What no action takes back. */
  lemma StepKeeps(r: Rule, s: State, s': State)
    requires Step(r, s, s')
    ensures s.accepted <= s'.accepted
    ensures s.done ==> s'.done && s'.acceptedAtClose == s.acceptedAtClose
    ensures !s.done && s'.done ==> s'.acceptedAtClose == |s.accepted|
    ensures s.worker.Stopped? ==> s'.worker.Stopped? && s'.handled == s.handled && s.queue <= s'.queue
  {
  }

  lemma RunCons(r: Rule, s: State, run: seq<State>)
    requires IsRun(r, run) && Step(r, s, run[0])
    ensures IsRun(r, [s] + run)
  {
  }

  lemma {:induction false} InvariantHolds(r: Rule, run: seq<State>, i: nat)
    requires IsRun(r, run) && i < |run|
    requires var first := run[0]; Ready(r, first.log, first.at) && first == Start(first.log, first.at)
    ensures Invariant(r, run[0].log, run[0].at, run[i])
    decreases i
  {
    if i > 0 {
      InvariantHolds(r, run, i - 1);
      assert Step(r, run[i - 1], run[i]);
      var a :| Do(r, run[i - 1], a) == Some(run[i]);
      Preserved(r, run[0].log, run[0].at, run[i - 1], a);
    }
  }

  /**
   In every interleaving, at every moment: what has been handed to the file, followed by the channel, is
   what was accepted, in order; and the files hold the initial content plus exactly what was handed over.
   */
  lemma HandledThenQueued(r: Rule, run: seq<State>, i: nat)
    requires IsRun(r, run) && i < |run|
    requires var first := run[0]; Ready(r, first.log, first.at) && first == Start(first.log, first.at)
    ensures var s := run[i];
            Texts(s.handled) + s.queue == s.accepted && |s.queue| <= BUFFER_SIZE && AllInRange(s.handled) &&
            LiveName(r) in s.log.files &&
            Contents(History(r, run[0].log, run[0].at, s.handled)) + s.log.files[LiveName(r)] ==
              run[0].log.files[LiveName(r)] + Messages(s.handled)
  {
    InvariantHolds(r, run, i);
    BytesConserved(r, run[0].log, run[0].at, run[i].handled);
  }

  /** When `Close` has returned, every message accepted before `done` was closed has been handed to the file, once. */
  lemma CloseLosesNothing(r: Rule, run: seq<State>, i: nat, j: nat)
    requires IsRun(r, run) && i <= j < |run|
    requires var first := run[0]; Ready(r, first.log, first.at) && first == Start(first.log, first.at)
    requires !run[i].done && run[j].returned
    ensures |run[i].accepted| <= |run[j].handled|
    ensures Texts(run[j].handled)[..|run[i].accepted|] == run[i].accepted
  {
    InvariantHolds(r, run, j);
    AcceptedBeforeClose(r, run, i, j);
    assert run[j].accepted == Texts(run[j].handled) + run[j].queue;
  }

  /** The history only grows, and what was accepted while `done` was open counts as accepted before it closed. */
  lemma {:induction false} AcceptedBeforeClose(r: Rule, run: seq<State>, i: nat, j: nat)
    requires IsRun(r, run) && i <= j < |run| && !run[i].done
    ensures run[i].accepted <= run[j].accepted
    ensures run[j].done ==> |run[i].accepted| <= run[j].acceptedAtClose
    decreases j
  {
    if i < j {
      AcceptedBeforeClose(r, run, i, j - 1);
      StepKeeps(r, run[j - 1], run[j]);
    }
  }

  /** The other side of it: a message accepted after the worker has stopped stays in the channel for good. */
  lemma {:induction false} StoppedIsForGood(r: Rule, run: seq<State>, i: nat, j: nat)
    requires IsRun(r, run) && i <= j < |run| && run[i].worker.Stopped?
    ensures run[j].worker.Stopped? && run[j].handled == run[i].handled && run[i].queue <= run[j].queue
    decreases j
  {
    if i < j {
      StoppedIsForGood(r, run, i, j - 1);
      StepKeeps(r, run[j - 1], run[j]);
      PrefixTransitive(run[i].queue, run[j - 1].queue, run[j].queue);
    }
  }

  lemma PrefixTransitive(a: seq<Bytes>, b: seq<Bytes>, c: seq<Bytes>)
    requires a <= b <= c
    ensures a <= c
  {
  }

  /** The last state of a run in which the worker has not stopped yet, if it stops at all. */
  lemma {:induction false} StopMoment(run: seq<State>, j: nat) returns (i: nat)
    requires j < |run| && !run[0].worker.Stopped? && run[j].worker.Stopped?
    ensures i < j && !run[i].worker.Stopped? && run[i + 1].worker.Stopped?
    decreases j
  {
    if run[j - 1].worker.Stopped? {
      i := StopMoment(run, j - 1);
    } else {
      i := j - 1;
    }
  }

  /** The worker stops with an empty channel: everything accepted so far has been handled. */
  lemma StopsEmpty(r: Rule, s: State, s': State)
    requires Step(r, s, s') && !s.worker.Stopped? && s'.worker.Stopped?
    ensures s.queue == [] && s'.handled == s.handled
  {
  }

  /**
   Which accepted messages are lost, in every run whose worker has stopped: a message is handed to the file
   if and only if it was accepted before the worker stopped. From then on this does not change.
   */
  lemma LostExactly(r: Rule, run: seq<State>, j: nat, k: nat)
    requires IsRun(r, run) && j < |run| && run[j].worker.Stopped? && k < |run[j].accepted|
    requires var first := run[0]; Ready(r, first.log, first.at) && first == Start(first.log, first.at)
    ensures k < |run[j].handled| <==> exists i :: 0 <= i < j && !run[i].worker.Stopped? && k < |run[i].accepted|
    ensures k < |run[j].handled| ==> run[j].handled[k].msg == run[j].accepted[k]
  {
    var stop := StopMoment(run, j);
    InvariantHolds(r, run, j);
    InvariantHolds(r, run, stop);
    assert Step(r, run[stop], run[stop + 1]);
    StopsEmpty(r, run[stop], run[stop + 1]);
    StoppedIsForGood(r, run, stop + 1, j);
    assert |run[j].handled| == |run[stop].accepted|;
    assert run[j].accepted == Texts(run[j].handled) + run[j].queue;
    forall i | 0 <= i < j && !run[i].worker.Stopped? ensures |run[i].accepted| <= |run[stop].accepted| {
      if i > stop { StoppedIsForGood(r, run, stop + 1, i); } else { AcceptedGrows(r, run, i, stop); }
    }
  }

  lemma {:induction false} Nondecreasing(counts: seq<nat>, i: nat, j: nat)
    requires i <= j < |counts| && forall k :: 0 < k < |counts| ==> counts[k - 1] <= counts[k]
    ensures counts[i] <= counts[j]
    decreases j
  {
    if i < j { Nondecreasing(counts, i, j - 1); }
  }

  lemma AcceptedGrows(r: Rule, run: seq<State>, i: nat, j: nat)
    requires IsRun(r, run) && i <= j < |run|
    ensures |run[i].accepted| <= |run[j].accepted|
  {
    var counts := seq(|run|, k requires 0 <= k < |run| => |run[k].accepted|);
    forall k | 0 < k < |counts| ensures counts[k - 1] <= counts[k] {
      AcceptedGrowsOnce(r, run, k - 1);
    }
    Nondecreasing(counts, i, j);
  }

  lemma AcceptedGrowsOnce(r: Rule, run: seq<State>, i: nat)
    requires IsRun(r, run) && i + 1 < |run|
    ensures |run[i].accepted| <= |run[i + 1].accepted|
  {
    StepKeeps(r, run[i], run[i + 1]);
  }

  /** And there is such a run: `Write` reports success after `Close` has returned. */
  lemma AcceptedAfterClose(r: Rule, log: Log, at: Instant, msg: Bytes) returns (run: seq<State>)
    requires Ready(r, log, at)
    ensures IsRun(r, run) && run[0] == Start(log, at)
    ensures var last := run[|run| - 1]; last.returned && last.accepted == [msg] && last.handled == []
  {
    var s0 := Start(log, at);
    var s1 := Do(r, s0, CloseDone).value;
    var s2 := Do(r, s1, SeeDone).value;
    var s3 := Do(r, s2, Drained).value;
    var s4 := Do(r, s3, CloseReturns).value;
    var s5 := Do(r, s4, Accept(msg)).value;
    assert Do(r, s4, Accept(msg)) == Some(s5) && Do(r, s3, CloseReturns) == Some(s4) && Do(r, s2, Drained) == Some(s3);
    assert Do(r, s1, SeeDone) == Some(s2) && Do(r, s0, CloseDone) == Some(s1);
    run := [s0, s1, s2, s3, s4, s5];
  }

  /** The steps still to be made by the worker once `done` is closed. */
  function StepsLeft(s: State): nat
  {
    if s.worker.Stopped? then 0 else |s.queue| + if s.worker.Running? then 2 else 1
  }

  predicate IsWorkerStep(a: Action)
  {
    a.Take? || a.SeeDone? || a.Drained?
  }

  predicate Quiet(s: State, a: Action, s': State)
  {
    s.done ==> s'.done && StepsLeft(s') == StepsLeft(s) - if IsWorkerStep(a) then 1 else 0
  }

  /** After `done` is closed, a step that accepts nothing brings the worker closer to its end or is not the worker's. */
  lemma StepsRunOut(r: Rule, s: State, a: Action, s': State)
    requires Makes(r, s, a, s') && !a.Accept?
    ensures Quiet(s, a, s')
  {
  }

  /** As long as it has not stopped, the worker can go on. */
  lemma WorkerIsNeverStuck(r: Rule, s: State, tick: Tick)
    requires Ready(r, s.log, s.at) && s.done && TickInRange(tick)
    ensures StepsLeft(s) == 0 || exists a :: IsWorkerStep(a) && Do(r, s, a).Some?
    ensures StepsLeft(s) == 0 <==> s.worker.Stopped?
  {
    if s.worker.Running? {
      assert IsWorkerStep(SeeDone) && Do(r, s, SeeDone).Some?;
    } else if s.worker.Draining? {
      assert if s.queue == [] then Do(r, s, Drained).Some? else Do(r, s, Take(tick)).Some?;
    }
  }

  /** The number of the worker's steps among the given actions. */
  function WorkerSteps(actions: seq<Action>): nat
  {
    if actions == [] then 0
    else WorkerSteps(actions[..|actions| - 1]) + if IsWorkerStep(actions[|actions| - 1]) then 1 else 0
  }

  /** The states of `run` are made by the given actions. */
  ghost predicate MadeBy(r: Rule, run: seq<State>, actions: seq<Action>)
  {
    |run| == |actions| + 1 && forall i :: 0 <= i < |actions| ==> Makes(r, run[i], actions[i], run[i + 1])
  }

  ghost predicate Makes(r: Rule, s: State, a: Action, s': State)
  {
    Ready(r, s.log, s.at) && Do(r, s, a) == Some(s')
  }

  /**
   From the moment `done` is closed and as long as nothing is accepted, every run has a bounded number of
   worker's steps, and when these are used up the worker has stopped, so that `Close` returns.
   */
  lemma SilentRunsEnd(r: Rule, run: seq<State>, actions: seq<Action>)
    requires MadeBy(r, run, actions) && run[0].done
    requires forall a :: a in actions ==> !a.Accept?
    ensures var last := run[|actions|];
            last.done && WorkerSteps(actions) + StepsLeft(last) == StepsLeft(run[0]) &&
            (WorkerSteps(actions) == StepsLeft(run[0]) <==> last.worker.Stopped?)
  {
    forall i | 0 <= i < |actions| ensures Quiet(run[i], actions[i], run[i + 1]) {
      StepsRunOut(r, run[i], actions[i], run[i + 1]);
    }
    QuietSteps(run, actions, |actions|);
    assert actions[..|actions|] == actions;
  }

  lemma {:induction false} QuietSteps(run: seq<State>, actions: seq<Action>, i: nat)
    requires i <= |actions| < |run| && run[0].done
    requires forall k :: 0 <= k < |actions| ==> Quiet(run[k], actions[k], run[k + 1])
    ensures run[i].done && WorkerSteps(actions[..i]) + StepsLeft(run[i]) == StepsLeft(run[0])
    decreases i
  {
    if i > 0 {
      QuietSteps(run, actions, i - 1);
      WorkerStepsSnoc(actions, i - 1);
      assert Quiet(run[i - 1], actions[i - 1], run[i]);
    }
  }

  lemma WorkerStepsSnoc(actions: seq<Action>, i: nat)
    requires i < |actions|
    ensures WorkerSteps(actions[..i + 1]) == WorkerSteps(actions[..i]) + if IsWorkerStep(actions[i]) then 1 else 0
  {
    assert actions[..i + 1][..i] == actions[..i];
  }

  /**
   Once `done` is closed and writers are silent, `Close` is not kept waiting: the worker empties the
   channel and stops.
   */
  lemma {:induction false} WorkerDrains(r: Rule, s: State, tick: Tick) returns (run: seq<State>)
    requires Ready(r, s.log, s.at) && s.done && s.worker.Draining? && TickInRange(tick)
    ensures IsRun(r, run) && run[0] == s && |run| == |s.queue| + 2
    ensures var last := run[|run| - 1];
            last.worker.Stopped? && last.queue == [] && last.accepted == s.accepted &&
            Texts(last.handled) + last.queue == Texts(s.handled) + s.queue
    decreases |s.queue|
  {
    if s.queue == [] {
      run := [s, Do(r, s, Drained).value];
      assert Do(r, s, Drained) == Some(run[1]);
    } else {
      var next := TakeOne(r, s, tick);
      var rest := WorkerDrains(r, next, tick);
      RunCons(r, s, rest);
      run := [s] + rest;
      assert run[|run| - 1] == rest[|rest| - 1];
    }
  }

  lemma TakeOne(r: Rule, s: State, tick: Tick) returns (next: State)
    requires Ready(r, s.log, s.at) && s.worker.Draining? && s.queue != [] && TickInRange(tick)
    ensures Step(r, s, next) && Ready(r, next.log, next.at)
    ensures next.worker == s.worker && next.done == s.done && next.accepted == s.accepted && next.queue == s.queue[1..]
    ensures Texts(next.handled) + next.queue == Texts(s.handled) + s.queue
  {
    next := Do(r, s, Take(tick)).value;
    Effect(r, s.log, s.at, Event(s.queue[0], tick));
    TakeMovesText(s.handled, s.queue, tick);
    assert Do(r, s, Take(tick)) == Some(next);
  }
}
