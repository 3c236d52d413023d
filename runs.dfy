/**
  Sequential runs of an `RLCtr`: any order of `Track` attempts and per-minute resets, with the
  tallies of how often `start` ran and how many attempts were admitted. The lemmas state what
  the gate promises over such runs: the quota per minute, the single start, the configuration
  that never changes, and the permanent block of a zero quota.
 */
module Runs {
  import opened GoInt
  import opened RateLimitedWorker

  /** What may happen to a counter: a caller's `Track` attempt, or a tick of the minute ticker. */
  datatype Event = CallTrack | MinuteReset

  /** The counter after a run, how many times `start` ran in it and how many attempts it admitted. */
  datatype Tally = Tally(final: State, starts: nat, admissions: nat)

  /** One event; the minute ticker exists only once `start` has run, so before that a tick is no event. */
  function Step(s: State, e: Event): (a: Attempt)
  {
    match e
    case CallTrack => Track(s)
    case MinuteReset => Attempt(if s.active then Reset(s) else s, false, false)
  }

  function Run(s: State, events: seq<Event>): Tally
    decreases |events|
  {
    if events == [] then Tally(s, 0, 0)
    else
      var a := Step(s, events[0]);
      var rest := Run(a.next, events[1..]);
      Tally(rest.final, rest.starts + (if a.started then 1 else 0),
            rest.admissions + (if a.admitted then 1 else 0))
  }

  /** `n` consecutive `Track` attempts. */
  function Tracks(n: nat): (events: seq<Event>)
    ensures |events| == n && MinuteReset !in events
  {
    if n == 0 then [] else [CallTrack] + Tracks(n - 1)
  }

  function Resets(events: seq<Event>): nat
  {
    if events == [] then 0
    else (if events[0] == MinuteReset then 1 else 0) + Resets(events[1..])
  }

  function Min(a: int, b: int): int
  {
    if a <= b then a else b
  }

  /** Neither `Track` nor the reset touches the identifier, the quota, the pace or `verbose`. */
  lemma {:induction false} RunKeepsConfiguration(s: State, events: seq<Event>)
    ensures var t := Run(s, events).final;
      t.ID == s.ID && t.TargetRPM == s.TargetRPM && t.targetRPS == s.targetRPS && t.verbose == s.verbose
    decreases |events|
  {
    if events != [] {
      RunKeepsConfiguration(Step(s, events[0]).next, events[1..]);
    }
  }

  /** `history <= TargetRPM` holds after every run that starts within the quota. */
  lemma {:induction false} RunStaysWithinQuota(s: State, events: seq<Event>)
    requires s.WithinQuota()
    ensures Run(s, events).final.WithinQuota()
    decreases |events|
  {
    if events != [] {
      RunStaysWithinQuota(Step(s, events[0]).next, events[1..]);
    }
  }

  /** The counter is active after a run exactly when it was before or the run called `Track`. */
  lemma {:induction false} RunActivation(s: State, events: seq<Event>)
    ensures Run(s, events).final.active <==> s.active || CallTrack in events
    decreases |events|
  {
    if events != [] {
      RunActivation(Step(s, events[0]).next, events[1..]);
      assert events == [events[0]] + events[1..];
    }
  }

  /** `start` runs once, on the first `Track` of an inactive counter, and never again. */
  lemma {:induction false} RunStartsOnce(s: State, events: seq<Event>)
    ensures Run(s, events).starts == if !s.active && CallTrack in events then 1 else 0
    decreases |events|
  {
    if events != [] {
      var a := Step(s, events[0]);
      RunStartsOnce(a.next, events[1..]);
      assert events == [events[0]] + events[1..];
      if a.started {
        assert a.next.active;
      }
    }
  }

  /**
    Between two resets the gate admits no more than the room left in its quota, and `history`
    counts exactly the admissions.
   */
  lemma {:induction false} MinuteAdmissions(s: State, events: seq<Event>)
    requires s.WithinQuota() && MinuteReset !in events
    ensures Run(s, events).admissions <= s.TargetRPM - s.history
    ensures Run(s, events).final.history == s.history + Run(s, events).admissions
    decreases |events|
  {
    if events != [] {
      assert events[0] == CallTrack by { assert events[0] in events; }
      MinuteAdmissions(Step(s, events[0]).next, events[1..]);
    }
  }

  /**
    The quota bound over any run: each minute admits at most `TargetRPM`, so a run with `k`
    resets admits at most the room left now plus `k` full quotas.
   */
  lemma {:induction false} RunAdmissionsBounded(s: State, events: seq<Event>)
    requires s.WithinQuota()
    ensures Run(s, events).admissions <= s.TargetRPM - s.history + Resets(events) * s.TargetRPM
    decreases |events|
  {
    if events != [] {
      var a := Step(s, events[0]);
      RunAdmissionsBounded(a.next, events[1..]);
      var quota, k := s.TargetRPM, Resets(events[1..]);
      assert a.next.TargetRPM == quota;
      var rest := Run(a.next, events[1..]).admissions;
      assert rest <= quota - a.next.history + k * quota;
      if events[0] == MinuteReset {
        assert Resets(events) == k + 1;
        MulStep(k, quota);
      } else {
        assert Resets(events) == k;
      }
    }
  }

  /** One more reset adds one more quota. */
  lemma MulStep(k: nat, quota: nat)
    ensures (k + 1) * quota == k * quota + quota
  {
  }

  /** With a zero quota the guard `history >= TargetRPM` always holds: nothing is ever admitted. */
  lemma {:induction false} ZeroQuotaNeverAdmits(s: State, events: seq<Event>)
    requires s.TargetRPM == 0
    ensures Run(s, events).admissions == 0
    decreases |events|
  {
    if events != [] {
      ZeroQuotaNeverAdmits(Step(s, events[0]).next, events[1..]);
    }
  }

  /** `n` attempts in one minute admit exactly the first `TargetRPM - history` of them. */
  lemma {:induction false} TracksAdmitUpToQuota(s: State, n: nat)
    requires s.WithinQuota()
    ensures Run(s, Tracks(n)).admissions == Min(n, s.TargetRPM - s.history)
    ensures Run(s, Tracks(n)).final.history == s.history + Min(n, s.TargetRPM - s.history)
    decreases n
  {
    if n > 0 {
      var events := Tracks(n);
      assert events[0] == CallTrack && events[1..] == Tracks(n - 1);
      TracksAdmitUpToQuota(Track(s).next, n - 1);
    }
  }

  /** Running two event sequences one after the other. */
  lemma {:induction false} RunAppend(s: State, first: seq<Event>, second: seq<Event>)
    ensures var r1 := Run(s, first); var r2 := Run(r1.final, second);
      Run(s, first + second) == Tally(r2.final, r1.starts + r2.starts, r1.admissions + r2.admissions)
    decreases |first|
  {
    if first != [] {
      assert (first + second)[0] == first[0];
      assert (first + second)[1..] == first[1..] + second;
      RunAppend(Step(s, first[0]).next, first[1..], second);
    } else {
      assert first + second == second;
    }
  }

  /**
    A burst of `n` attempts on an empty counter, with `n` between one and two quotas: the first
    `TargetRPM` pass, the rest wait for the reset, and the same number of attempts after it pass.
   */
  lemma {:induction false} BurstAcrossReset(s: State, n: nat)
    requires s.history == 0 && s.TargetRPM <= n <= 2 * s.TargetRPM
    ensures Run(s, Tracks(n)).admissions == s.TargetRPM
    ensures Run(s, Tracks(n) + [MinuteReset] + Tracks(n - s.TargetRPM)).admissions == n
  {
    var burst := Run(s, Tracks(n));
    TracksAdmitUpToQuota(s, n);
    RunKeepsConfiguration(s, Tracks(n));
    RunAppend(s, Tracks(n), [MinuteReset]);
    var reset := Run(s, Tracks(n) + [MinuteReset]).final;
    assert reset == if burst.final.active then Reset(burst.final) else burst.final;
    assert !burst.final.active ==> n == 0 by {
      RunActivation(s, Tracks(n));
      if n > 0 { assert Tracks(n)[0] == CallTrack; }
    }
    TracksAdmitUpToQuota(reset, n - s.TargetRPM);
    RunAppend(s, Tracks(n) + [MinuteReset], Tracks(n - s.TargetRPM));
  }

  /**
    A counter created for 600 per minute paces at 10 per second; of 1000 back-to-back calls the
    first 600 are admitted and the rest wait for the reset, after which the remaining 400 pass.
   */
  lemma Scenario600(n: nat)
    requires n == 1000
    ensures var s := Create("sampleId", 600, true, false);
      s.targetRPS == 10 &&
      Run(s, Tracks(n)).admissions == 600 &&
      Run(s, Tracks(n) + [MinuteReset] + Tracks(n - 600)).admissions == n
  {
    BurstAcrossReset(Create("sampleId", 600, true, false), n);
  }
}
