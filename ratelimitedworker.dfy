/**
  The quota gate of package ratelimitedworker: an `RLCtr` admits work at most `TargetRPM` times
  between two per-minute resets of its `history` counter, and starts its two ticker goroutines
  lazily on the first `Track`.

  The model is sequential. The pure functions below give the value of the struct after each
  operation; the class `RLCtr` holds the same fields, updates them in place and is proved
  against those functions. The limiter `RL`, the logger, goroutines, tickers and sleeps are
  not part of this model: the bodies of the two ticker loops become methods that may be
  called in any order once the counter is active.
 */
module RateLimitedWorker {
  import opened GoInt

  /** Seconds between two diagnostic ticks (`window` in start). */
  const WINDOW_SECONDS: uint32 := 5

  /** The value of an `RLCtr` struct, without its limiter and logger. */
  datatype State = State(
    ID: string,
    TargetRPM: uint32,
    targetRPS: int64,
    verbose: bool,
    history: uint32,
    active: bool)
  {
    /** The gate has not admitted past its quota in the current minute. */
    predicate WithinQuota() {
      history <= TargetRPM
    }
  }

  /**
    The per-second pace of Create: `targetRPM / 60` is a Go integer division, taken before the
    float conversion, so Ceil (hasty) and Floor (strict) both see a whole number.
   */
  function Pace(targetRPM: int64, hasty: bool): (targetRPS: int64)
    ensures targetRPS == Quo(targetRPM, 60)
  {
    var perSecond := Quo(targetRPM, 60);
    QuoTruncatesTowardZero(targetRPM, 60);
    WholeNumberUnrounded(perSecond);
    if hasty then Ceil(perSecond as real) else Floor(perSecond as real)
  }

  /** `Create(id, targetRPM, hasty, verbose)`: a fresh, inactive counter with an empty history. */
  function Create(id: string, targetRPM: int64, hasty: bool, verbose: bool): (s: State)
    ensures s.ID == id && s.verbose == verbose
    ensures s.history == 0 && !s.active && s.WithinQuota()
    ensures s.TargetRPM == ToUint32(targetRPM)
    ensures s.targetRPS == Quo(targetRPM, 60)
  {
    State(id, ToUint32(targetRPM), Pace(targetRPM, hasty), verbose, 0, false)
  }

  /** The `hasty` flag changes nothing: both rounding modes build the same counter. */
  lemma RoundingModeIsInert(id: string, targetRPM: int64, verbose: bool)
    ensures Create(id, targetRPM, true, verbose) == Create(id, targetRPM, false, verbose)
  {
  }

  /**
    Paces and quotas for a few targets: the pace truncates toward zero, also for negative targets,
    and the quota keeps only the low 32 bits of the target.
   */
  lemma CreateExamples()
    ensures Create("", 600, true, false).targetRPS == 10
    ensures Create("", 1000, true, false).targetRPS == 16
    ensures Create("", 59, true, false).targetRPS == 0
    ensures Create("", -59, false, false).targetRPS == 0
    ensures Create("", -61, true, false).targetRPS == -1
    ensures Create("", -1, true, false).TargetRPM == 0xFFFF_FFFF
    ensures Create("", 0x1_0000_0000, true, false).TargetRPM == 0
  {
  }

  /** `start`: marks the counter active; its goroutines are ResetTick and WindowTick below. */
  function Activate(s: State): (t: State)
    ensures t.active && t.history == s.history
  {
    s.(active := true)
  }

  /** What one call of TryTrack did. */
  datatype Attempt = Attempt(next: State, started: bool, admitted: bool)

  /**
    One pass through `Track` with the quota guard evaluated once: start on first use, then admit
    (take a pacer slot and add one to `history`) only if the quota has room. An attempt that is
    not admitted is the point where `Track` would sleep and test the guard again.
   */
  function Track(s: State): (a: Attempt)
    ensures a.started <==> !s.active
    ensures a.admitted <==> s.history < s.TargetRPM
    ensures a.next.history == if a.admitted then s.history + 1 else s.history
    ensures a.next == s.(history := a.next.history, active := true)
    ensures s.WithinQuota() ==> a.next.WithinQuota()
  {
    var s' := if s.active then s else Activate(s);
    if s'.history >= s'.TargetRPM then
      Attempt(s', !s.active, false)
    else
      Attempt(s'.(history := AddU32(s'.history, 1)), !s.active, true)
  }

  /** The body of the per-minute goroutine: `history` back to 0. */
  function Reset(s: State): (t: State)
    ensures t.history == 0 && t.WithinQuota()
  {
    s.(history := 0)
  }

  /**
    The admissions counted by one diagnostic tick: the growth of `history` since `prev`, or 0
    when it has not grown (after a reset). The `uint32` subtraction never wraps.
   */
  function WindowDelta(history: uint32, prev: uint32): (counter: uint32)
    ensures history > prev ==> prev + counter == history
    ensures history <= prev ==> counter == 0
    ensures counter <= history
  {
    if history > prev then SubU32(history, prev) else 0
  }

  /** `RLCtr`, a struct the Go code only uses through a pointer. */
  class RLCtr {
    const ID: string
    const TargetRPM: uint32
    const targetRPS: int64
    const verbose: bool
    var history: uint32
    var active: bool
    /** How often `start` has run, each run launching both ticker goroutines. */
    ghost var starts: nat

    ghost predicate Valid()
      reads this
    {
      history <= TargetRPM && starts == (if active then 1 else 0)
    }

    /** The current value of the struct. */
    function Snapshot(): State
      reads this
    {
      State(ID, TargetRPM, targetRPS, verbose, history, active)
    }

    /** `rlc := Create(id, targetRPM, hasty, verbose)`, used afterwards through `&rlc`. */
    constructor (id: string, targetRPM: int64, hasty: bool, verbose: bool)
      ensures Valid() && starts == 0
      ensures Snapshot() == Create(id, targetRPM, hasty, verbose)
    {
      var s := Create(id, targetRPM, hasty, verbose);
      ID, TargetRPM, targetRPS, this.verbose := s.ID, s.TargetRPM, s.targetRPS, s.verbose;
      history, active := s.history, s.active;
      starts := 0;
    }

    /** `start`, which `Track` only calls while the counter is inactive. */
    method Start()
      requires Valid() && !active
      modifies this
      ensures Valid() && starts == old(starts) + 1
      ensures Snapshot() == Activate(old(Snapshot()))
    {
      active := true;
      starts := starts + 1;
    }

    /**
      `Track` without the blocking wait: returns whether the call was admitted; a caller that was
      not admitted would sleep and call again.
     */
    method TryTrack() returns (admitted: bool)
      requires Valid()
      modifies this
      ensures Valid() && active && starts == 1
      ensures admitted <==> old(history) < TargetRPM
      ensures history == if admitted then old(history) + 1 else old(history)
      ensures var a := Track(old(Snapshot())); Snapshot() == a.next && admitted == a.admitted
    {
      if !active {
        Start();
      }
      if history >= TargetRPM {
        return false;
      }
      // RL.Take() waits for the pacer's next slot and touches none of the modelled fields.
      history := AddU32(history, 1);
      admitted := true;
    }

    /** One tick of the per-minute goroutine. */
    method ResetTick()
      requires Valid() && active
      modifies this
      ensures Valid() && starts == old(starts) && history == 0
      ensures Snapshot() == Reset(old(Snapshot()))
    {
      history := 0;
    }

    /**
      One tick of the diagnostic goroutine, whose loop variable `prev` is passed in and returned:
      the admissions since the previous tick, the rate per second it reports, and the next `prev`.
     */
    method WindowTick(prev: uint32) returns (counter: uint32, rate: uint32, newPrev: uint32)
      requires Valid()
      ensures counter == WindowDelta(history, prev)
      ensures counter <= TargetRPM
      ensures rate * WINDOW_SECONDS <= counter < rate * WINDOW_SECONDS + WINDOW_SECONDS
      ensures newPrev == history
    {
      counter := WindowDelta(history, prev);
      rate := DivU32(counter, WINDOW_SECONDS);
      newPrev := history;
    }
  }

  /** Sum of a sequence of counts. */
  function Sum(s: seq<int>): int
  {
    if s == [] then 0 else Sum(s[..|s| - 1]) + s[|s| - 1]
  }

  ghost predicate NonDecreasing(s: seq<int>)
  {
    forall i, j :: 0 <= i <= j < |s| ==> s[i] <= s[j]
  }

  /**
    The diagnostic goroutine's loop over its ticks: `prev` starts at `initial`, the value of
    `history` when the goroutine begins, and `samples[i]` is `history` as tick `i` reads it.
    When no reset falls between the ticks, the counts add up to the growth of `history`.
   */
  method WatchWindows(initial: uint32, samples: seq<uint32>) returns (counters: seq<uint32>)
    ensures |counters| == |samples|
    ensures forall i :: 0 <= i < |samples| ==> counters[i] == WindowDelta(samples[i], ([initial] + samples)[i])
    ensures NonDecreasing([initial] + samples) ==> Sum(counters) == ([initial] + samples)[|samples|] - initial
  {
    ghost var seen := [initial] + samples;
    var prev := initial;
    counters := [];
    var i := 0;
    while i < |samples|
      invariant 0 <= i <= |samples|
      invariant |counters| == i
      invariant prev == seen[i]
      invariant forall k :: 0 <= k < i ==> counters[k] == WindowDelta(samples[k], seen[k])
      invariant NonDecreasing(seen) ==> Sum(counters) == prev - initial
    {
      var counter := WindowDelta(samples[i], prev);
      SumAppend(counters, counter);
      assert NonDecreasing(seen) ==> seen[i] <= seen[i + 1];
      counters := counters + [counter];
      prev := samples[i];
      i := i + 1;
    }
  }

  lemma SumAppend(s: seq<int>, x: int)
    ensures Sum(s + [x]) == Sum(s) + x
  {
  }
}
