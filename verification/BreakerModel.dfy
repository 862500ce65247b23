/** The circuit breaker as one sequential machine: what each mutator does to the shared state, and what the
    state means in terms of the calls made so far. */
module BreakerModel {

  datatype CircuitState = Closed | Open | HalfOpen

  datatype BreakerState = BreakerState(
    state: CircuitState,
    failureCount: int,
    lastFailureTime: real,
    halfOpenSuccessCount: nat,
    halfOpenProbeCount: nat,
    totalOpens: nat,
    totalFailOpens: nat)

  const FRESH := BreakerState(Closed, 0, 0.0, 0, 0, 0, 0)

  datatype Config = Config(failureThreshold: int, resetTimeout: real, halfOpenMaxProbes: int)

  /** A call, with the clock readings its mutator takes: `now` when it checks the timeout, `stamp` when it
      records the failure time. `Touch` is the empty mutation of the constructor. */
  datatype Call =
    | Touch
    | ReadState(now: real)
    | IsOpen(now: real)
    | RecordSuccess(now: real)
    | RecordFailure(now: real, stamp: real)
    | ForceOpen(stamp: real)
    | ForceClose

  function Transition(cfg: Config, s: BreakerState, now: real): BreakerState {
    if s.state == Open && now - s.lastFailureTime >= cfg.resetTimeout
    then s.(state := HalfOpen, halfOpenSuccessCount := 0, halfOpenProbeCount := 0)
    else s
  }

  /** The state a call leaves, and whether it told its caller to fail open. */
  function Apply(cfg: Config, s: BreakerState, call: Call): (BreakerState, bool) {
    match call
    case Touch => (s, false)
    case ReadState(now) => (Transition(cfg, s, now), false)
    case IsOpen(now) =>
      var t := Transition(cfg, s, now);
      if t.state == HalfOpen && t.halfOpenProbeCount < cfg.halfOpenMaxProbes
      then (t.(halfOpenProbeCount := t.halfOpenProbeCount + 1), false)
      else if t.state == Closed then (t, false)
      else (t.(totalFailOpens := t.totalFailOpens + 1), true)
    case RecordSuccess(now) =>
      var t := Transition(cfg, s, now);
      if t.state == HalfOpen then
        if t.halfOpenSuccessCount + 1 >= cfg.halfOpenMaxProbes
        then (t.(state := Closed, failureCount := 0, halfOpenSuccessCount := 0, halfOpenProbeCount := 0), false)
        else (t.(halfOpenSuccessCount := t.halfOpenSuccessCount + 1), false)
      else (t.(failureCount := 0, state := Closed), false)
    case RecordFailure(now, stamp) =>
      var t := Transition(cfg, s, now);
      if t.state == HalfOpen then (Reopened(t, cfg.failureThreshold, stamp), false)
      else if t.failureCount + 1 >= cfg.failureThreshold then (Reopened(t, t.failureCount + 1, stamp), false)
      else (t.(failureCount := t.failureCount + 1, lastFailureTime := stamp), false)
    case ForceOpen(stamp) => (Reopened(s, s.failureCount, stamp), false)
    case ForceClose =>
        (s.(state := Closed, failureCount := 0, halfOpenSuccessCount := 0, halfOpenProbeCount := 0), false)
  }

  function Reopened(s: BreakerState, failures: int, stamp: real): BreakerState {
    s.(state := Open, failureCount := failures, lastFailureTime := stamp,
       halfOpenSuccessCount := 0, halfOpenProbeCount := 0, totalOpens := s.totalOpens + 1)
  }

  // ---------------------------------------------------------------------------------------------
  // Histories

  function StateAfter(cfg: Config, calls: seq<Call>): BreakerState {
    if calls == [] then FRESH
    else Apply(cfg, StateAfter(cfg, calls[..|calls| - 1]), calls[|calls| - 1]).0
  }

  /** The answer the k-th call gave. */
  function Answer(cfg: Config, calls: seq<Call>, k: nat): bool
    requires k < |calls|
  {
    Apply(cfg, StateAfter(cfg, calls[..k]), calls[k]).1
  }

  /** Failures recorded since the last recorded success or forced close. */
  function FailuresSinceReset(calls: seq<Call>): nat {
    if calls == [] then 0
    else
      var (before, last) := (calls[..|calls| - 1], calls[|calls| - 1]);
      if last.RecordSuccess? || last.ForceClose? then 0
      else FailuresSinceReset(before) + if last.RecordFailure? then 1 else 0
  }

  /** Successes recorded in the half-open episode the history ends in; zero when it does not end in one. */
  function EpisodeSuccesses(cfg: Config, calls: seq<Call>): nat {
    if calls == [] || StateAfter(cfg, calls).state != HalfOpen then 0
    else
      var n := |calls| - 1;
      EpisodeSuccesses(cfg, calls[..n]) + if calls[n].RecordSuccess? then 1 else 0
  }

  /** Requests let through in the half-open episode the history ends in. */
  function EpisodeProbes(cfg: Config, calls: seq<Call>): nat {
    if calls == [] || StateAfter(cfg, calls).state != HalfOpen then 0
    else
      var n := |calls| - 1;
      EpisodeProbes(cfg, calls[..n]) + if calls[n].IsOpen? && !Answer(cfg, calls, n) then 1 else 0
  }

  /** Requests among calls i..j that were told to fail open, or were let through. */
  function Answered(cfg: Config, calls: seq<Call>, i: nat, j: nat, failOpen: bool): nat
    requires i <= j <= |calls|
    decreases j
  {
    if i == j then 0
    else Answered(cfg, calls, i, j - 1, failOpen)
         + if calls[j - 1].IsOpen? && Answer(cfg, calls, j - 1) == failOpen then 1 else 0
  }

  ghost predicate Sensible(cfg: Config) {
    cfg.failureThreshold >= 1 && cfg.halfOpenMaxProbes >= 1
  }

  // ---------------------------------------------------------------------------------------------
  // Where a breaker starts, and how long it stays there

  ghost predicate AlwaysClosed(cfg: Config, calls: seq<Call>) {
    forall k :: 0 <= k <= |calls| ==> StateAfter(cfg, calls[..k]).state == Closed
  }

  /** Never forced open, and no recorded failure has completed the threshold since the last reset. */
  ghost predicate Untroubled(cfg: Config, calls: seq<Call>) {
    forall k :: 0 <= k < |calls| ==> Harmless(cfg, calls, k)
  }

  ghost predicate Harmless(cfg: Config, calls: seq<Call>, k: nat)
    requires k < |calls|
  {
    && !calls[k].ForceOpen?
    && (calls[k].RecordFailure? ==> FailuresSinceReset(calls[..k + 1]) < cfg.failureThreshold)
  }

  lemma AlwaysClosedBefore(cfg: Config, calls: seq<Call>)
    requires calls != []
    ensures var before := calls[..|calls| - 1];
            AlwaysClosed(cfg, calls) <==> AlwaysClosed(cfg, before) && StateAfter(cfg, calls).state == Closed
  {
    var before := calls[..|calls| - 1];
    assert calls[..|calls|] == calls;
    forall k | 0 <= k <= |before| ensures before[..k] == calls[..k] {}
  }

  lemma UntroubledBefore(cfg: Config, calls: seq<Call>)
    requires calls != []
    ensures Untroubled(cfg, calls) <==> Untroubled(cfg, calls[..|calls| - 1]) && Harmless(cfg, calls, |calls| - 1)
  {
    var before := calls[..|calls| - 1];
    forall k | 0 <= k < |before| ensures Harmless(cfg, before, k) == Harmless(cfg, calls, k) {
      assert before[..k + 1] == calls[..k + 1];
    }
  }

  lemma {:induction false} ClosedAllAlongCounts(cfg: Config, calls: seq<Call>)
    requires AlwaysClosed(cfg, calls)
    ensures StateAfter(cfg, calls).failureCount == FailuresSinceReset(calls)
  {
    if calls != [] {
      AlwaysClosedBefore(cfg, calls);
      ClosedAllAlongCounts(cfg, calls[..|calls| - 1]);
    }
  }

  lemma LeavesClosedIff(cfg: Config, calls: seq<Call>)
    requires calls != [] && AlwaysClosed(cfg, calls[..|calls| - 1])
    ensures StateAfter(cfg, calls).state == Closed <==> Harmless(cfg, calls, |calls| - 1)
  {
    var before := calls[..|calls| - 1];
    assert calls[..|calls|] == calls && before[..|before|] == before;
    ClosedAllAlongCounts(cfg, before);
    assert StateAfter(cfg, before).state == Closed;
  }

  /** A breaker starts closed and leaves that state exactly when it is forced open or a failure completes the
      threshold; until then no request fails open. */
  lemma {:induction false} NeverOpenedIff(cfg: Config, calls: seq<Call>)
    ensures AlwaysClosed(cfg, calls) <==> Untroubled(cfg, calls)
    ensures Untroubled(cfg, calls) ==> forall k :: 0 <= k < |calls| ==> !Answer(cfg, calls, k)
  {
    if calls != [] {
      var before := calls[..|calls| - 1];
      NeverOpenedIff(cfg, before);
      AlwaysClosedBefore(cfg, calls);
      UntroubledBefore(cfg, calls);
      if AlwaysClosed(cfg, before) { LeavesClosedIff(cfg, calls); }
      forall k | 0 <= k < |before| ensures Answer(cfg, before, k) == Answer(cfg, calls, k) {
        assert before[..k] == calls[..k];
      }
    }
  }

  /** Until a failure is recorded or the breaker is forced open, it is as it was created. */
  lemma {:induction false} UntouchedIsFresh(cfg: Config, calls: seq<Call>)
    requires forall k :: 0 <= k < |calls| ==> !calls[k].RecordFailure? && !calls[k].ForceOpen?
    ensures StateAfter(cfg, calls) == BreakerState(Closed, 0, 0.0, 0, 0, 0, 0)
  {
    if calls != [] { UntouchedIsFresh(cfg, calls[..|calls| - 1]); }
  }

  // ---------------------------------------------------------------------------------------------
  // What the fields mean

  /** While closed, the failure count is the failures since the last reset, and below the threshold. */
  lemma {:induction false} ClosedCountsFailures(cfg: Config, calls: seq<Call>)
    requires Sensible(cfg)
    ensures StateAfter(cfg, calls).state == Closed ==>
              StateAfter(cfg, calls).failureCount == FailuresSinceReset(calls) < cfg.failureThreshold
  {
    if calls != [] { ClosedCountsFailures(cfg, calls[..|calls| - 1]); }
  }

  /** The success counter counts the current half-open episode, and is zero outside one. */
  lemma {:induction false} EpisodeSuccessCounter(cfg: Config, calls: seq<Call>)
    requires Sensible(cfg)
    ensures var s := StateAfter(cfg, calls);
            s.halfOpenSuccessCount == EpisodeSuccesses(cfg, calls) < cfg.halfOpenMaxProbes
  {
    if calls != [] { EpisodeSuccessCounter(cfg, calls[..|calls| - 1]); }
  }

  /** So does the probe counter. */
  lemma {:induction false} EpisodeProbeCounter(cfg: Config, calls: seq<Call>)
    requires Sensible(cfg)
    ensures var s := StateAfter(cfg, calls);
            s.halfOpenProbeCount == EpisodeProbes(cfg, calls) <= cfg.halfOpenMaxProbes
  {
    if calls != [] { EpisodeProbeCounter(cfg, calls[..|calls| - 1]); }
  }

  lemma {:induction false} EpisodeCounters(cfg: Config, calls: seq<Call>)
    requires Sensible(cfg)
    ensures var s := StateAfter(cfg, calls);
      && s.halfOpenSuccessCount == EpisodeSuccesses(cfg, calls) < cfg.halfOpenMaxProbes
      && s.halfOpenProbeCount == EpisodeProbes(cfg, calls) <= cfg.halfOpenMaxProbes
      && (s.state != HalfOpen ==> s.halfOpenSuccessCount == s.halfOpenProbeCount == 0)
  {
    EpisodeSuccessCounter(cfg, calls);
    EpisodeProbeCounter(cfg, calls);
  }

  /** The fail-open counter is the number of requests that were told to fail open. */
  lemma {:induction false} FailOpensCounted(cfg: Config, calls: seq<Call>)
    ensures StateAfter(cfg, calls).totalFailOpens == Answered(cfg, calls, 0, |calls|, true)
  {
    if calls != [] {
      var before := calls[..|calls| - 1];
      FailOpensCounted(cfg, before);
      AnsweredPrefix(cfg, calls, 0, |before|, true);
    }
  }

  lemma {:induction false} AnsweredPrefix(cfg: Config, calls: seq<Call>, i: nat, j: nat, failOpen: bool)
    requires i <= j < |calls|
    ensures Answered(cfg, calls[..|calls| - 1], i, j, failOpen) == Answered(cfg, calls, i, j, failOpen)
    decreases j
  {
    if i < j {
      AnsweredPrefix(cfg, calls, i, j - 1, failOpen);
      assert calls[..|calls| - 1][..j - 1] == calls[..j - 1];
    }
  }

  /** The k-th call sets the failure count to zero. */
  ghost predicate ClearsFailures(cfg: Config, calls: seq<Call>, k: nat)
    requires k < |calls|
  {
    calls[k].ForceClose? || (calls[k].RecordSuccess? && StateAfter(cfg, calls[..k + 1]).state == Closed)
  }

  /** The k-th call records a failure while a reader would have seen the breaker half-open. */
  ghost predicate FailsProbe(cfg: Config, calls: seq<Call>, k: nat)
    requires k < |calls|
  {
    calls[k].RecordFailure? && StateAfter(cfg, calls[..k] + [ReadState(calls[k].now)]).state == HalfOpen
  }

  ghost predicate SetsCount(cfg: Config, calls: seq<Call>, k: nat)
    requires k < |calls|
  {
    ClearsFailures(cfg, calls, k) || FailsProbe(cfg, calls, k)
  }

  /** Failures recorded from the i-th call on. */
  function FailuresFrom(calls: seq<Call>, i: nat): nat
    requires i <= |calls|
    decreases |calls|
  {
    if i == |calls| then 0
    else FailuresFrom(calls[..|calls| - 1], i) + if calls[|calls| - 1].RecordFailure? then 1 else 0
  }

  lemma SameAmongLonger(cfg: Config, calls: seq<Call>, k: nat)
    requires k < |calls| - 1
    ensures var before := calls[..|calls| - 1];
      && ClearsFailures(cfg, before, k) == ClearsFailures(cfg, calls, k)
      && FailsProbe(cfg, before, k) == FailsProbe(cfg, calls, k)
  {
    assert calls[..|calls| - 1][..k + 1] == calls[..k + 1] && calls[..|calls| - 1][..k] == calls[..k];
  }

  lemma LastCallCounts(cfg: Config, calls: seq<Call>)
    requires calls != []
    ensures var n := |calls| - 1;
            StateAfter(cfg, calls).failureCount ==
              if ClearsFailures(cfg, calls, n) then 0
              else if FailsProbe(cfg, calls, n) then cfg.failureThreshold
              else StateAfter(cfg, calls[..n]).failureCount + if calls[n].RecordFailure? then 1 else 0
  {
    var n := |calls| - 1;
    assert calls[..n + 1] == calls;
    if calls[n].RecordFailure? {
      var read := ReadState(calls[n].now);
      assert (calls[..n] + [read])[..n] == calls[..n];
    }
  }

  /** In any state: the failures recorded since the call that last cleared the count, or on top of the threshold since
      the probe that last failed. */
  lemma {:induction false} FailureCountExact(cfg: Config, calls: seq<Call>, i: nat)
    requires i <= |calls| && (i > 0 ==> SetsCount(cfg, calls, i - 1))
    requires forall k :: i <= k < |calls| ==> !SetsCount(cfg, calls, k)
    ensures StateAfter(cfg, calls).failureCount
         == (if i > 0 && FailsProbe(cfg, calls, i - 1) then cfg.failureThreshold else 0) + FailuresFrom(calls, i)
    decreases |calls|
  {
    if calls != [] {
      LastCallCounts(cfg, calls);
      if i < |calls| {
        var before := calls[..|calls| - 1];
        forall k | 0 <= k < |before| ensures SetsCount(cfg, before, k) == SetsCount(cfg, calls, k) {
          SameAmongLonger(cfg, calls, k);
        }
        if i > 0 { SameAmongLonger(cfg, calls, i - 1); }
        FailureCountExact(cfg, before, i);
        assert !SetsCount(cfg, calls, |before|);
      }
    }
  }

  /** Forced openings, and recorded failures that leave the count at the threshold or above. */
  function Openings(cfg: Config, calls: seq<Call>): nat {
    if calls == [] then 0
    else
      var last := calls[|calls| - 1];
      Openings(cfg, calls[..|calls| - 1])
      + if last.ForceOpen? || (last.RecordFailure? && StateAfter(cfg, calls).failureCount >= cfg.failureThreshold)
        then 1 else 0
  }

  lemma {:induction false} OpensCounted(cfg: Config, calls: seq<Call>)
    ensures StateAfter(cfg, calls).totalOpens == Openings(cfg, calls)
  {
    if calls != [] { OpensCounted(cfg, calls[..|calls| - 1]); }
  }

  /** The clock reading of the latest recorded failure or forced opening. */
  function LatestStamp(calls: seq<Call>): real {
    if calls == [] then 0.0
    else
      var last := calls[|calls| - 1];
      if last.RecordFailure? || last.ForceOpen? then last.stamp else LatestStamp(calls[..|calls| - 1])
  }

  /** The reset timeout runs from there, whatever happens in between. */
  lemma {:induction false} TimeoutRunsFromLatestStamp(cfg: Config, calls: seq<Call>)
    ensures StateAfter(cfg, calls).lastFailureTime == LatestStamp(calls)
  {
    if calls != [] { TimeoutRunsFromLatestStamp(cfg, calls[..|calls| - 1]); }
  }

  /** Every transition, told in terms of the history that leads to it. */
  lemma NextStateExact(cfg: Config, calls: seq<Call>, call: Call)
    requires Sensible(cfg)
    ensures var s := StateAfter(cfg, calls);
            var next := StateAfter(cfg, calls + [call]).state;
      && (s.state == Closed ==>
            && (next == Open
                <==> call.ForceOpen? || (call.RecordFailure? && FailuresSinceReset(calls) + 1 >= cfg.failureThreshold))
            && next != HalfOpen)
      && (s.state == HalfOpen ==>
            && (next == Closed
                <==> call.ForceClose?
                     || (call.RecordSuccess? && EpisodeSuccesses(cfg, calls) + 1 == cfg.halfOpenMaxProbes))
            && (next == Open <==> call.ForceOpen? || call.RecordFailure?))
      && (s.state == Open ==>
            var elapsed := !call.Touch? && !call.ForceOpen? && !call.ForceClose?
                && call.now - LatestStamp(calls) >= cfg.resetTimeout;
            && (next == Closed
                <==> call.ForceClose? || (call.RecordSuccess? && (!elapsed || cfg.halfOpenMaxProbes == 1)))
            && (next == HalfOpen <==> elapsed && !call.RecordFailure? && next != Closed))
  {
    assert (calls + [call])[..|calls|] == calls;
    TimeoutRunsFromLatestStamp(cfg, calls);
    ClosedCountsFailures(cfg, calls);
    EpisodeCounters(cfg, calls);
  }

  /** Whether a request is told to fail open, in terms of the history before it. */
  lemma FailOpenExact(cfg: Config, calls: seq<Call>, now: real)
    requires Sensible(cfg)
    ensures var s := StateAfter(cfg, calls);
            Answer(cfg, calls + [IsOpen(now)], |calls|) <==>
              || (s.state == Open && now - LatestStamp(calls) < cfg.resetTimeout)
              || (s.state == HalfOpen && EpisodeProbes(cfg, calls) == cfg.halfOpenMaxProbes)
  {
    assert (calls + [IsOpen(now)])[..|calls|] == calls;
    TimeoutRunsFromLatestStamp(cfg, calls);
    EpisodeCounters(cfg, calls);
  }

  /** Calls i..j lie in one half-open episode. */
  ghost predicate InEpisode(cfg: Config, calls: seq<Call>, i: nat, j: nat) {
    i <= j <= |calls| && forall k :: i < k <= j ==> StateAfter(cfg, calls[..k]).state == HalfOpen
  }

  lemma {:induction false} EpisodeCounts(cfg: Config, calls: seq<Call>, i: nat, j: nat)
    requires InEpisode(cfg, calls, i, j)
    ensures Answered(cfg, calls, i, j, false) <= EpisodeProbes(cfg, calls[..j])
    decreases j
  {
    if i < j {
      EpisodeCounts(cfg, calls, i, j - 1);
      assert calls[..j][..j - 1] == calls[..j - 1];
    }
  }

  /** No half-open episode lets more than the configured number of probes through. */
  lemma ProbesBounded(cfg: Config, calls: seq<Call>, i: nat, j: nat)
    requires Sensible(cfg) && InEpisode(cfg, calls, i, j)
    ensures Answered(cfg, calls, i, j, false) <= cfg.halfOpenMaxProbes
  {
    EpisodeCounts(cfg, calls, i, j);
    EpisodeCounters(cfg, calls[..j]);
  }
}
