/** The breaker of one process: mutators that assign the fields of a state record, run by the local store on a
    copy that replaces the stored one. */
module CircuitBreaker {
  import opened BreakerModel

  class StateRecord {
    var state: CircuitState
    var failureCount: int
    var lastFailureTime: real
    var halfOpenSuccessCount: nat
    var halfOpenProbeCount: nat
    var totalOpens: nat
    var totalFailOpens: nat

    function Value(): BreakerState
      reads this
    {
      BreakerState(state, failureCount, lastFailureTime, halfOpenSuccessCount, halfOpenProbeCount, totalOpens,
          totalFailOpens)
    }

    constructor (s: BreakerState)
      ensures Value() == s
    {
      state, failureCount, lastFailureTime := s.state, s.failureCount, s.lastFailureTime;
      halfOpenSuccessCount, halfOpenProbeCount := s.halfOpenSuccessCount, s.halfOpenProbeCount;
      totalOpens, totalFailOpens := s.totalOpens, s.totalFailOpens;
    }
  }

  class LocalCircuitStateStore {
    var stored: BreakerState

    constructor ()
      ensures stored == FRESH
    {
      stored := FRESH;
    }

    method Load() returns (s: StateRecord)
      ensures fresh(s) && s.Value() == stored
    {
      s := new StateRecord(stored);
    }

    method Save(s: StateRecord)
      modifies this
      ensures stored == s.Value()
    {
      stored := s.Value();
    }
  }

  class CircuitBreaker {
    const cfg: Config
    const store: LocalCircuitStateStore
    ghost var history: seq<Call>

    /** The store holds what the calls so far leave, one after another. */
    ghost predicate Valid()
      reads this, store
    {
      store.stored == StateAfter(cfg, history)
    }

    constructor (cfg: Config)
      ensures Valid() && fresh(store) && this.cfg == cfg && history == [Touch]
    {
      this.cfg, history := cfg, [Touch];
      store := new LocalCircuitStateStore();
    }

    method TransitionIfResetTimeoutElapsed(s: StateRecord, now: real)
      modifies s
      ensures s.Value() == Transition(cfg, old(s.Value()), now)
    {
      if s.state != Open { return; }
      var elapsed := now - s.lastFailureTime;
      if elapsed >= cfg.resetTimeout {
        s.state := HalfOpen;
        s.halfOpenSuccessCount := 0;
        s.halfOpenProbeCount := 0;
      }
    }

    method CurrentState(now: real) returns (state: CircuitState)
      requires Valid()
      modifies this, store
      ensures Valid() && history == old(history) + [ReadState(now)]
      ensures state == StateAfter(cfg, history).state
    {
      var s := store.Load();
      TransitionIfResetTimeoutElapsed(s, now);
      state := s.state;
      store.Save(s);
      Recorded(ReadState(now));
    }

    method CheckOpen(now: real) returns (failOpen: bool)
      requires Valid()
      modifies this, store
      ensures Valid() && history == old(history) + [IsOpen(now)]
      ensures failOpen == Answer(cfg, history, |history| - 1)
    {
      var s := store.Load();
      TransitionIfResetTimeoutElapsed(s, now);
      failOpen := false;
      if s.state == Open {
        s.totalFailOpens := s.totalFailOpens + 1;
        failOpen := true;
      } else if s.state == HalfOpen {
        if s.halfOpenProbeCount < cfg.halfOpenMaxProbes {
          s.halfOpenProbeCount := s.halfOpenProbeCount + 1;
        } else {
          s.totalFailOpens := s.totalFailOpens + 1;
          failOpen := true;
        }
      }
      store.Save(s);
      Recorded(IsOpen(now));
    }

    method RecordSuccess(now: real)
      requires Valid()
      modifies this, store
      ensures Valid() && history == old(history) + [Call.RecordSuccess(now)]
    {
      var s := store.Load();
      TransitionIfResetTimeoutElapsed(s, now);
      if s.state == HalfOpen {
        s.halfOpenSuccessCount := s.halfOpenSuccessCount + 1;
        if s.halfOpenSuccessCount >= cfg.halfOpenMaxProbes {
          s.state := Closed;
          s.failureCount := 0;
          s.halfOpenSuccessCount := 0;
          s.halfOpenProbeCount := 0;
        }
      } else {
        s.failureCount := 0;
        s.state := Closed;
      }
      store.Save(s);
      Recorded(Call.RecordSuccess(now));
    }

    method RecordFailure(now: real, stamp: real)
      requires Valid()
      modifies this, store
      ensures Valid() && history == old(history) + [Call.RecordFailure(now, stamp)]
    {
      var s := store.Load();
      TransitionIfResetTimeoutElapsed(s, now);
      if s.state == HalfOpen {
        s.state := Open;
        s.halfOpenSuccessCount := 0;
        s.halfOpenProbeCount := 0;
        s.failureCount := cfg.failureThreshold;
        s.lastFailureTime := stamp;
        s.totalOpens := s.totalOpens + 1;
      } else {
        s.failureCount := s.failureCount + 1;
        s.lastFailureTime := stamp;
        if s.failureCount >= cfg.failureThreshold {
          s.state := Open;
          s.halfOpenSuccessCount := 0;
          s.halfOpenProbeCount := 0;
          s.totalOpens := s.totalOpens + 1;
        }
      }
      store.Save(s);
      Recorded(Call.RecordFailure(now, stamp));
    }

    method ForceOpen(stamp: real)
      requires Valid()
      modifies this, store
      ensures Valid() && history == old(history) + [Call.ForceOpen(stamp)]
    {
      var s := store.Load();
      s.state := Open;
      s.lastFailureTime := stamp;
      s.halfOpenSuccessCount := 0;
      s.halfOpenProbeCount := 0;
      s.totalOpens := s.totalOpens + 1;
      store.Save(s);
      Recorded(Call.ForceOpen(stamp));
    }

    method ForceClose()
      requires Valid()
      modifies this, store
      ensures Valid() && history == old(history) + [Call.ForceClose]
    {
      var s := store.Load();
      s.state := Closed;
      s.failureCount := 0;
      s.halfOpenSuccessCount := 0;
      s.halfOpenProbeCount := 0;
      store.Save(s);
      Recorded(Call.ForceClose);
    }

    ghost method Recorded(call: Call)
      requires store.stored == Apply(cfg, StateAfter(cfg, history), call).0
      modifies this`history
      ensures Valid() && history == old(history) + [call]
      ensures StateAfter(cfg, history[..|history| - 1]) == StateAfter(cfg, old(history))
    {
      assert (history + [call])[..|history|] == history;
      history := history + [call];
    }
  }
}
