/** Any number of pods sharing one breaker through an optimistic transaction: watch the key, read it, run the
    mutator, and commit only if nobody wrote the key in between; otherwise start over. */
module BreakerCluster {
  import opened Wrappers
  import opened BreakerModel

  datatype Request = AskTouch | AskState | AskIsOpen | AskSuccess | AskFailure | AskForceOpen | AskForceClose

  /** A mutator reads the clock each time it runs, so one request may run as several calls. */
  function RequestOf(call: Call): Request {
    match call
    case Touch => AskTouch
    case ReadState(_) => AskState
    case IsOpen(_) => AskIsOpen
    case RecordSuccess(_) => AskSuccess
    case RecordFailure(_, _) => AskFailure
    case ForceOpen(_) => AskForceOpen
    case ForceClose => AskForceClose
  }

  /** A request that runs as several calls runs the same mutator each time. */
  lemma RequestFixesMutator(call: Call, again: Call)
    requires RequestOf(call) == RequestOf(again)
    ensures call.Touch? == again.Touch? && call.ReadState? == again.ReadState? && call.IsOpen? == again.IsOpen?
    ensures call.RecordSuccess? == again.RecordSuccess? && call.RecordFailure? == again.RecordFailure?
    ensures call.ForceOpen? == again.ForceOpen? && call.ForceClose? == again.ForceClose?
  {
  }

  datatype Phase =
    | Idle
    | Started(request: Request)
    | Watching(request: Request, watched: nat)
    | Read(request: Request, watched: nat, read: BreakerState)
    | Computed(request: Request, watched: nat, call: Call, next: BreakerState)

  /** `captured` is the caller's variable that the mutator assigns; a retry does not clear it. `answers` are
      the results of the pod's completed requests. */
  datatype Pod = Pod(phase: Phase, captured: bool, answers: seq<bool>)

  datatype Commit = Commit(pod: nat, call: Call, answer: bool)

  /** `version` counts the writes of the key; `log` lists the committed calls. */
  datatype Cluster = Cluster(key: Option<BreakerState>, version: nat, pods: seq<Pod>, log: seq<Commit>)

  function Parse(raw: Option<BreakerState>): BreakerState {
    if raw.Some? then raw.value else FRESH
  }

  datatype Action =
    | Begin(pod: nat, request: Request)
    | Watch(pod: nat)
    | Get(pod: nat)
    | Mutate(pod: nat, call: Call)
    | Execute(pod: nat)

  ghost predicate Enabled(c: Cluster, a: Action) {
    && a.pod < |c.pods|
    && var phase := c.pods[a.pod].phase;
       match a
       case Begin(_, _) => phase.Idle?
       case Watch(_) => phase.Started?
       case Get(_) => phase.Watching?
       case Mutate(_, call) => phase.Read? && RequestOf(call) == phase.request
       case Execute(_) => phase.Computed?
  }

  function Step(cfg: Config, c: Cluster, a: Action): Cluster
    requires Enabled(c, a)
  {
    var pod := c.pods[a.pod];
    match a
    case Begin(p, request) => c.(pods := c.pods[p := pod.(phase := Started(request), captured := false)])
    case Watch(p) => c.(pods := c.pods[p := pod.(phase := Watching(pod.phase.request, c.version))])
    case Get(p) => c.(pods := c.pods[p := pod.(phase := Read(pod.phase.request, pod.phase.watched, Parse(c.key)))])
    case Mutate(p, call) =>
      var (next, answer) := Apply(cfg, pod.phase.read, call);
      c.(pods := c.pods[p := pod.(phase := Computed(pod.phase.request, pod.phase.watched, call, next),
                                  captured := if call.IsOpen? then answer else pod.captured)])
    case Execute(p) =>
      if pod.phase.watched == c.version then
        Cluster(Some(pod.phase.next), c.version + 1,
                c.pods[p := Pod(Idle, pod.captured, pod.answers + [pod.captured])],
                c.log + [Commit(p, pod.phase.call, pod.captured)])
      else c.(pods := c.pods[p := pod.(phase := Started(pod.phase.request))])
  }

  ghost predicate Initial(c: Cluster) {
    c.key == None && c.log == [] && forall p :: 0 <= p < |c.pods| ==> c.pods[p].phase == Idle && c.pods[p].answers == []
  }

  /** The actions lead from `start` to `c`, each enabled when taken. */
  ghost predicate Leads(cfg: Config, start: Cluster, actions: seq<Action>, c: Cluster)
    decreases |actions|
  {
    if actions == [] then c == start
    else
      var n := |actions| - 1;
      exists before :: Leads(cfg, start, actions[..n], before) && Enabled(before, actions[n])
          && c == Step(cfg, before, actions[n])
  }

  ghost predicate Reached(cfg: Config, start: Cluster, actions: seq<Action>, c: Cluster) {
    Initial(start) && Leads(cfg, start, actions, c)
  }

  function Calls(log: seq<Commit>): (r: seq<Call>)
    ensures |r| == |log| && forall k :: 0 <= k < |log| ==> r[k] == log[k].call
  {
    seq(|log|, k requires 0 <= k < |log| => log[k].call)
  }

  /** The answers the log gives to one pod, in order. */
  function AnswersTo(log: seq<Commit>, pod: nat): seq<bool> {
    if log == [] then []
    else
      var last := log[|log| - 1];
      AnswersTo(log[..|log| - 1], pod) + if last.pod == pod then [last.answer] else []
  }

  /** The log is a run of the sequential breaker, and the key holds the state that run ends in. */
  ghost predicate Sequential(cfg: Config, c: Cluster) {
    && Parse(c.key) == StateAfter(cfg, Calls(c.log))
    && forall k :: 0 <= k < |c.log| ==> c.log[k].answer == Answer(cfg, Calls(c.log), k)
  }

  /** Whoever watches the current version has read the current state. */
  ghost predicate PodConsistent(cfg: Config, c: Cluster, p: nat)
    requires p < |c.pods|
  {
    var pod := c.pods[p];
    && pod.answers == AnswersTo(c.log, p)
    && match pod.phase
       case Idle => true
       case Started(request) => request != AskIsOpen ==> !pod.captured
       case Watching(request, watched) => watched <= c.version && (request != AskIsOpen ==> !pod.captured)
       case Read(request, watched, read) =>
         watched <= c.version && (request != AskIsOpen ==> !pod.captured)
             && (watched == c.version ==> read == Parse(c.key))
       case Computed(request, watched, call, next) =>
         && watched <= c.version && RequestOf(call) == request && (request != AskIsOpen ==> !pod.captured)
         && (watched == c.version ==> Apply(cfg, Parse(c.key), call) == (next, pod.captured))
  }

  ghost predicate Consistent(cfg: Config, c: Cluster) {
    Sequential(cfg, c) && forall p :: 0 <= p < |c.pods| ==> PodConsistent(cfg, c, p)
  }

  lemma CommitExtends(cfg: Config, log: seq<Commit>, commit: Commit)
    requires forall k :: 0 <= k < |log| ==> log[k].answer == Answer(cfg, Calls(log), k)
    requires commit.answer == Apply(cfg, StateAfter(cfg, Calls(log)), commit.call).1
    ensures StateAfter(cfg, Calls(log + [commit])) == Apply(cfg, StateAfter(cfg, Calls(log)), commit.call).0
    ensures forall k :: 0 <= k < |log| + 1 ==> (log + [commit])[k].answer == Answer(cfg, Calls(log + [commit]), k)
    ensures forall p :: AnswersTo(log + [commit], p)
                     == AnswersTo(log, p) + if commit.pod == p then [commit.answer] else []
  {
    var calls, all := Calls(log), Calls(log + [commit]);
    assert all == calls + [commit.call];
    assert all[..|log|] == calls;
    assert (log + [commit])[..|log|] == log;
    forall k | 0 <= k < |log| + 1 ensures (log + [commit])[k].answer == Answer(cfg, all, k) {
      if k < |log| { assert all[..k] == calls[..k]; }
    }
  }

  /** A step that does not commit leaves the key, its version and the log alone. */
  lemma QuietStep(cfg: Config, c: Cluster, a: Action, p: nat)
    requires Consistent(cfg, c) && Enabled(c, a) && p < |c.pods|
    requires a.Execute? ==> c.pods[a.pod].phase.watched != c.version
    ensures PodConsistent(cfg, Step(cfg, c, a), p)
  {
    assert PodConsistent(cfg, c, p);
    assert p != a.pod ==> Step(cfg, c, a).pods[p] == c.pods[p];
  }

  /** A commit makes every other watcher stale. */
  lemma CommitStep(cfg: Config, c: Cluster, a: Action, p: nat)
    requires Consistent(cfg, c) && Enabled(c, a) && p < |c.pods|
    requires a.Execute? && c.pods[a.pod].phase.watched == c.version
    ensures PodConsistent(cfg, Step(cfg, c, a), p)
  {
    assert PodConsistent(cfg, c, p) && PodConsistent(cfg, c, a.pod);
    var pod := c.pods[a.pod];
    CommitExtends(cfg, c.log, Commit(a.pod, pod.phase.call, pod.captured));
    var after := Step(cfg, c, a);
    assert after.pods[p].answers == AnswersTo(after.log, p);
    if p != a.pod {
      assert after.pods[p] == c.pods[p] && after.version == c.version + 1;
    }
  }

  lemma StepSequential(cfg: Config, c: Cluster, a: Action)
    requires Consistent(cfg, c) && Enabled(c, a)
    ensures Sequential(cfg, Step(cfg, c, a))
  {
    assert PodConsistent(cfg, c, a.pod);
    var pod := c.pods[a.pod];
    if a.Execute? && pod.phase.watched == c.version {
      CommitExtends(cfg, c.log, Commit(a.pod, pod.phase.call, pod.captured));
    }
  }

  lemma StepConsistent(cfg: Config, c: Cluster, a: Action)
    requires Consistent(cfg, c) && Enabled(c, a)
    ensures Consistent(cfg, Step(cfg, c, a))
  {
    StepSequential(cfg, c, a);
    forall p | 0 <= p < |c.pods| ensures PodConsistent(cfg, Step(cfg, c, a), p) {
      if a.Execute? && c.pods[a.pod].phase.watched == c.version {
        CommitStep(cfg, c, a, p);
      } else {
        QuietStep(cfg, c, a, p);
      }
    }
  }

  /** The requests a pod began, in order. */
  function Begun(actions: seq<Action>, pod: nat): seq<Request> {
    if actions == [] then []
    else
      var last := actions[|actions| - 1];
      Begun(actions[..|actions| - 1], pod) + if last.Begin? && last.pod == pod then [last.request] else []
  }

  /** The requests the log has committed for a pod, in order. */
  function Committed(log: seq<Commit>, pod: nat): seq<Request> {
    if log == [] then []
    else
      var last := log[|log| - 1];
      Committed(log[..|log| - 1], pod) + if last.pod == pod then [RequestOf(last.call)] else []
  }

  function InProgress(phase: Phase): seq<Request> {
    if phase.Idle? then [] else [phase.request]
  }

  /** A pod commits what it began, once and in order, but for the request in progress. */
  ghost predicate PodServed(c: Cluster, actions: seq<Action>, p: nat)
    requires p < |c.pods|
  {
    Committed(c.log, p) + InProgress(c.pods[p].phase) == Begun(actions, p)
  }

  ghost predicate Served(c: Cluster, actions: seq<Action>) {
    forall p :: 0 <= p < |c.pods| ==> PodServed(c, actions, p)
  }

  lemma CommittedExtends(log: seq<Commit>, commit: Commit, p: nat)
    ensures Committed(log + [commit], p) == Committed(log, p) + if commit.pod == p then [RequestOf(commit.call)] else []
  {
    assert (log + [commit])[..|log|] == log;
  }

  lemma CommitServed(cfg: Config, c: Cluster, actions: seq<Action>, a: Action, p: nat)
    requires Enabled(c, a) && p < |c.pods| && PodServed(c, actions, p) && PodConsistent(cfg, c, a.pod)
    requires a.Execute? && c.pods[a.pod].phase.watched == c.version
    ensures PodServed(Step(cfg, c, a), actions + [a], p)
  {
    var pod := c.pods[a.pod];
    assert (actions + [a])[..|actions|] == actions;
    CommittedExtends(c.log, Commit(a.pod, pod.phase.call, pod.captured), p);
  }

  lemma QuietServed(cfg: Config, c: Cluster, actions: seq<Action>, a: Action, p: nat)
    requires Enabled(c, a) && p < |c.pods| && PodServed(c, actions, p)
    requires a.Execute? ==> c.pods[a.pod].phase.watched != c.version
    ensures PodServed(Step(cfg, c, a), actions + [a], p)
  {
    assert (actions + [a])[..|actions|] == actions;
    assert Step(cfg, c, a).log == c.log;
  }

  lemma StepServed(cfg: Config, c: Cluster, actions: seq<Action>, a: Action, p: nat)
    requires Enabled(c, a) && p < |c.pods| && PodServed(c, actions, p) && PodConsistent(cfg, c, a.pod)
    ensures PodServed(Step(cfg, c, a), actions + [a], p)
  {
    if a.Execute? && c.pods[a.pod].phase.watched == c.version {
      CommitServed(cfg, c, actions, a, p);
    } else {
      QuietServed(cfg, c, actions, a, p);
    }
  }

  /** No lost update, in any interleaving: the committed calls form one sequential history, the shared key is the
      state it ends in, and every pod has received the answers of its own commits, which are the requests it began, each
      exactly once and in order. */
  lemma {:induction false} ClusterIsSequential(cfg: Config, start: Cluster, actions: seq<Action>, c: Cluster)
    requires Reached(cfg, start, actions, c)
    ensures Consistent(cfg, c) && Served(c, actions)
    decreases |actions|
  {
    if actions != [] {
      var n := |actions| - 1;
      var before :| Leads(cfg, start, actions[..n], before) && Enabled(before, actions[n])
          && c == Step(cfg, before, actions[n]);
      ClusterIsSequential(cfg, start, actions[..n], before);
      StepConsistent(cfg, before, actions[n]);
      assert actions == actions[..n] + [actions[n]];
      forall p | 0 <= p < |c.pods| ensures PodServed(c, actions, p) {
        StepServed(cfg, before, actions[..n], actions[n], p);
      }
    }
  }

  // ---------------------------------------------------------------------------------------------
  // Which transactions commit

  lemma Extended(cfg: Config, start: Cluster, actions: seq<Action>, c: Cluster, a: Action)
    requires Leads(cfg, start, actions, c) && Enabled(c, a)
    ensures Leads(cfg, start, actions + [a], Step(cfg, c, a))
  {
    assert (actions + [a])[..|actions|] == actions;
  }

  /** One request from beginning to end, when nobody interferes. */
  lemma Attempt(cfg: Config, start: Cluster, actions: seq<Action>, c: Cluster, p: nat, call: Call)
    returns (end: Cluster)
    requires Leads(cfg, start, actions, c) && p < |c.pods| && c.pods[p].phase.Idle?
    ensures Leads(cfg, start,
                actions + [Begin(p, RequestOf(call))] + [Watch(p)] + [Get(p)] + [Mutate(p, call)] + [Execute(p)], end)
    ensures var next := Apply(cfg, Parse(c.key), call);
            var answer := call.IsOpen? && next.1;
      && end.key == Some(next.0) && end.log == c.log + [Commit(p, call, answer)]
      && end.pods == c.pods[p := Pod(Idle, answer, c.pods[p].answers + [answer])]
  {
    var computed := Prepared(cfg, start, actions, c, p, call);
    end := Step(cfg, computed, Execute(p));
    Extended(cfg, start, actions + [Begin(p, RequestOf(call))] + [Watch(p)] + [Get(p)] + [Mutate(p, call)],
        computed, Execute(p));
  }

  lemma Prepared(cfg: Config, start: Cluster, actions: seq<Action>, c: Cluster, p: nat, call: Call)
    returns (computed: Cluster)
    requires Leads(cfg, start, actions, c) && p < |c.pods| && c.pods[p].phase.Idle?
    ensures Leads(cfg, start,
                actions + [Begin(p, RequestOf(call))] + [Watch(p)] + [Get(p)] + [Mutate(p, call)], computed)
    ensures var next := Apply(cfg, Parse(c.key), call);
            var phase := Computed(RequestOf(call), c.version, call, next.0);
            computed == c.(pods := c.pods[p := Pod(phase, call.IsOpen? && next.1, c.pods[p].answers)])
  {
    var begun := Step(cfg, c, Begin(p, RequestOf(call)));
    var watching := Step(cfg, begun, Watch(p));
    var read := Step(cfg, watching, Get(p));
    computed := Step(cfg, read, Mutate(p, call));
    var run := actions + [Begin(p, RequestOf(call))];
    Extended(cfg, start, actions, c, Begin(p, RequestOf(call)));
    Extended(cfg, start, run, begun, Watch(p));
    Extended(cfg, start, run + [Watch(p)], watching, Get(p));
    Extended(cfg, start, run + [Watch(p)] + [Get(p)], read, Mutate(p, call));
  }

  /** A pod that nobody disturbs commits its request at the first attempt: the log grows by that one call, answered as
      the sequential breaker answers it, the key holds the state it leaves, and the pod is idle again. */
  lemma UndisturbedCommits(cfg: Config, start: Cluster, actions: seq<Action>, c: Cluster, p: nat, call: Call)
    returns (end: Cluster)
    requires Reached(cfg, start, actions, c) && p < |c.pods| && c.pods[p].phase.Idle?
    ensures Reached(cfg, start,
                actions + [Begin(p, RequestOf(call))] + [Watch(p)] + [Get(p)] + [Mutate(p, call)] + [Execute(p)], end)
    ensures var answer := Answer(cfg, Calls(c.log) + [call], |c.log|);
      && end.log == c.log + [Commit(p, call, answer)]
      && end.key == Some(StateAfter(cfg, Calls(c.log) + [call]))
      && end.pods == c.pods[p := Pod(Idle, answer, c.pods[p].answers + [answer])]
  {
    ClusterIsSequential(cfg, start, actions, c);
    var calls := Calls(c.log) + [call];
    assert calls[..|c.log|] == Calls(c.log);
    end := Attempt(cfg, start, actions, c, p, call);
  }

  predicate InTransaction(phase: Phase) { phase.Watching? || phase.Read? || phase.Computed? }

  /** Pod p, in a transaction since it watched in `seen`, watches that version and has not committed since. */
  ghost predicate Watched(seen: Cluster, c: Cluster, p: nat) {
    && p < |c.pods| && seen.log <= c.log && c.version - seen.version == |c.log| - |seen.log|
    && (InTransaction(c.pods[p].phase) ==>
          && c.pods[p].phase.watched == seen.version
          && forall k :: |seen.log| <= k < |c.log| ==> c.log[k].pod != p)
  }

  lemma StepWatched(cfg: Config, seen: Cluster, c: Cluster, a: Action, p: nat)
    requires Watched(seen, c, p) && Enabled(c, a) && a != Watch(p)
    ensures Watched(seen, Step(cfg, c, a), p)
  {
  }

  lemma {:induction false} StaysWatched(cfg: Config, seen: Cluster, later: seq<Action>, c: Cluster, p: nat)
    requires Leads(cfg, seen, later, c) && Watched(seen, seen, p) && Watch(p) !in later
    ensures Watched(seen, c, p)
    decreases |later|
  {
    if later != [] {
      var n := |later| - 1;
      var before :| Leads(cfg, seen, later[..n], before) && Enabled(before, later[n])
          && c == Step(cfg, before, later[n]);
      StaysWatched(cfg, seen, later[..n], before, p);
      assert later[n] in later;
      StepWatched(cfg, seen, before, later[n], p);
    }
  }

  /** A transaction commits exactly when nothing has been committed since its pod last watched the key; otherwise some
      other pod has made progress, and it starts over with the same request. */
  lemma CommitsIffUndisturbed(cfg: Config, c: Cluster, p: nat, later: seq<Action>, now: Cluster)
    requires Enabled(c, Watch(p)) && Leads(cfg, Step(cfg, c, Watch(p)), later, now) && Watch(p) !in later
    requires Enabled(now, Execute(p))
    ensures var (pod, after) := (now.pods[p], Step(cfg, now, Execute(p)));
      && c.log <= now.log && (forall k :: |c.log| <= k < |now.log| ==> now.log[k].pod != p)
      && (now.log == c.log ==>
            && after.log == c.log + [Commit(p, pod.phase.call, pod.captured)] && after.key == Some(pod.phase.next)
            && after.pods == now.pods[p := Pod(Idle, pod.captured, pod.answers + [pod.captured])])
      && (now.log != c.log ==>
            after == now.(pods := now.pods[p := pod.(phase := Started(pod.phase.request))]))
  {
    var seen := Step(cfg, c, Watch(p));
    StaysWatched(cfg, seen, later, now, p);
  }

  /** Requests let through by commits i..j of the whole cluster. */
  function LetThrough(log: seq<Commit>, i: nat, j: nat): nat
    requires i <= j <= |log|
    decreases j
  {
    if i == j then 0 else LetThrough(log, i, j - 1) + if log[j - 1].call.IsOpen? && !log[j - 1].answer then 1 else 0
  }

  lemma {:induction false} LetThroughAnswered(cfg: Config, log: seq<Commit>, i: nat, j: nat)
    requires i <= j <= |log|
    requires forall k :: 0 <= k < |log| ==> log[k].answer == Answer(cfg, Calls(log), k)
    ensures LetThrough(log, i, j) == Answered(cfg, Calls(log), i, j, false)
    decreases j
  {
    if i < j { LetThroughAnswered(cfg, log, i, j - 1); }
  }

  /** Across all pods together, one half-open episode lets at most the configured number of probes through. */
  lemma ClusterProbesBounded(cfg: Config, start: Cluster, actions: seq<Action>, c: Cluster, i: nat, j: nat)
    requires Sensible(cfg) && Reached(cfg, start, actions, c) && InEpisode(cfg, Calls(c.log), i, j)
    ensures LetThrough(c.log, i, j) <= cfg.halfOpenMaxProbes
  {
    ClusterIsSequential(cfg, start, actions, c);
    LetThroughAnswered(cfg, c.log, i, j);
    ProbesBounded(cfg, Calls(c.log), i, j);
  }
}
