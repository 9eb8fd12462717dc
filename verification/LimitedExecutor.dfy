/** The rate limiter of core/logx/limitedexecutor.go. Times and the threshold are nanoseconds. */
module LimitedExecutor {

  const UINT32 := 0x1_0000_0000

  datatype State = State(lastTime: int, discarded: nat)

  const FRESH := State(0, 0)

  /** What one call did: whether it executed, and how many discards it reported before that. */
  datatype Outcome = Outcome(executed: bool, reported: nat)

  function NextState(threshold: int, s: State, now: int): State
  {
    if threshold <= 0 then s
    else if now - s.lastTime <= threshold then s.(discarded := (s.discarded + 1) % UINT32)
    else State(now, 0)
  }

  function OutcomeOf(threshold: int, s: State, now: int): Outcome
  {
    if threshold <= 0 then Outcome(true, 0)
    else if now - s.lastTime <= threshold then Outcome(false, 0)
    else Outcome(true, s.discarded)
  }

  class LimitedExecutor {
    const threshold: int
    var lastTime: int
    var discarded: nat

    constructor (milliseconds: int)
      ensures threshold == milliseconds * 1_000_000 && View() == FRESH
    {
      threshold := milliseconds * 1_000_000;
      lastTime := 0;
      discarded := 0;
    }

    function View(): State
      reads this
    {
      State(lastTime, discarded)
    }

    /** `logOrDiscard`, called at time `now`. The counter is a uint32. */
    method LogOrDiscard(now: int) returns (executed: bool, reported: nat)
      modifies this
      ensures View() == NextState(threshold, old(View()), now)
      ensures Outcome(executed, reported) == OutcomeOf(threshold, old(View()), now)
    {
      if threshold <= 0 {
        return true, 0;
      }
      if now - lastTime <= threshold {
        discarded := (discarded + 1) % UINT32;
        return false, 0;
      }
      lastTime := now;
      reported := discarded;
      discarded := 0;
      executed := true;
    }
  }

  // ---------- Sequential runs ----------

  function Final(threshold: int, s: State, times: seq<int>): State
  {
    if times == [] then s
    else NextState(threshold, Final(threshold, s, times[..|times| - 1]), times[|times| - 1])
  }

  /** The outcome of the last call of a non-empty run. */
  function Last(threshold: int, s: State, times: seq<int>): Outcome
    requires times != []
  {
    OutcomeOf(threshold, Final(threshold, s, times[..|times| - 1]), times[|times| - 1])
  }

  /** The times of the calls that executed. */
  function Executions(threshold: int, s: State, times: seq<int>): seq<int>
  {
    if times == [] then []
    else
      Executions(threshold, s, times[..|times| - 1]) +
      if Last(threshold, s, times).executed then [times[|times| - 1]] else []
  }

  function Reported(threshold: int, s: State, times: seq<int>): nat
  {
    if times == [] then 0
    else Reported(threshold, s, times[..|times| - 1]) + Last(threshold, s, times).reported
  }

  /** How often the pending counter has gone past its largest value. */
  function Wraps(threshold: int, s: State, times: seq<int>): nat
  {
    if times == [] then 0
    else
      Wraps(threshold, s, times[..|times| - 1]) +
      if !Last(threshold, s, times).executed &&
        Final(threshold, s, times[..|times| - 1]).discarded == UINT32 - 1 then 1 else 0
  }

  /**
   Every call is accounted for: it executed, or it was discarded, and a discard has been reported, is
   pending, or was lost when the 32-bit counter wrapped.
   */
  lemma {:induction false} CallsAccountedFor(threshold: int, times: seq<int>)
    requires threshold > 0
    ensures |times| == |Executions(threshold, FRESH, times)| + Reported(threshold, FRESH, times) +
                       Final(threshold, FRESH, times).discarded + UINT32 * Wraps(threshold, FRESH, times)
    ensures Final(threshold, FRESH, times).discarded < UINT32
  {
    if times != [] {
      CallsAccountedFor(threshold, times[..|times| - 1]);
      var d := Final(threshold, FRESH, times[..|times| - 1]).discarded;
      assert (d + 1) % UINT32 == if d == UINT32 - 1 then 0 else d + 1;
    }
  }

  /** The books balance exactly as long as the counter has not wrapped. */
  lemma CallsBalance(threshold: int, times: seq<int>)
    requires threshold > 0
    ensures |times| == |Executions(threshold, FRESH, times)| + Reported(threshold, FRESH, times) +
                       Final(threshold, FRESH, times).discarded
            <==> Wraps(threshold, FRESH, times) == 0
  {
    CallsAccountedFor(threshold, times);
  }

  /** Consecutive executions are more than the threshold apart, and the last one's time is remembered. */
  lemma {:induction false} ExecutionsApart(threshold: int, s: State, times: seq<int>)
    requires threshold > 0
    ensures var e := Executions(threshold, s, times);
            (forall i :: 0 < i < |e| ==> e[i] - e[i - 1] > threshold) &&
            Final(threshold, s, times).lastTime == (if e == [] then s.lastTime else e[|e| - 1]) &&
            (e != [] ==> e[0] - s.lastTime > threshold)
  {
    if times != [] {
      var now, before := times[|times| - 1], times[..|times| - 1];
      ExecutionsApart(threshold, s, before);
      var e := Executions(threshold, s, before);
      var state := Final(threshold, s, before);
      if now - state.lastTime > threshold {
        assert Executions(threshold, s, times) == e + [now] && Final(threshold, s, times) == State(now, 0);
        forall i | 0 < i < |e + [now]| ensures (e + [now])[i] - (e + [now])[i - 1] > threshold {
        }
      } else {
        assert Executions(threshold, s, times) == e && Final(threshold, s, times).lastTime == state.lastTime;
      }
    }
  }

  /** n executions, for n of at least 2, span more than n - 1 thresholds. */
  lemma {:induction false} ExecutionsSpan(threshold: int, s: State, times: seq<int>)
    requires threshold > 0
    ensures var e := Executions(threshold, s, times);
            |e| >= 2 ==> e[|e| - 1] - e[0] > (|e| - 1) * threshold
  {
    ExecutionsApart(threshold, s, times);
    var e := Executions(threshold, s, times);
    if |e| >= 2 {
      ApartSpans(threshold, e);
    }
  }

  lemma {:induction false} ApartSpans(threshold: int, e: seq<int>)
    requires |e| >= 2 && forall i :: 0 < i < |e| ==> e[i] - e[i - 1] > threshold
    ensures e[|e| - 1] - e[0] > (|e| - 1) * threshold
  {
    if |e| > 2 {
      var initial := e[..|e| - 1];
      ApartSpans(threshold, initial);
      assert (|e| - 1) * threshold == (|initial| - 1) * threshold + threshold;
    }
  }

  /** A call is discarded exactly if it comes within the threshold of the last execution. */
  lemma DiscardedExactly(threshold: int, times: seq<int>, now: int)
    requires threshold > 0
    ensures var e := Executions(threshold, FRESH, times);
            Executions(threshold, FRESH, times + [now]) ==
              e + if now - (if e == [] then 0 else e[|e| - 1]) <= threshold then [] else [now]
  {
    ExecutionsApart(threshold, FRESH, times);
    assert (times + [now])[..|times|] == times;
  }
}
