/** One workload materialised by several threads: each bumps the local version under the lock and writes its copy
    to the durable record afterwards, in any order; the record refuses lower versions. Eviction forgets the version. */
module DurableIndex {
  import opened Wrappers

  datatype Copy = Copy(version: nat, payload: string)

  function VersionOf(c: Option<Copy>): nat { if c.Some? then c.value.version else 0 }

  /** The upsert script: an older incoming version is refused. */
  function Upsert(current: Option<Copy>, incoming: Copy): Copy {
    if incoming.version < VersionOf(current) then current.value else incoming
  }

  /** `local` is the resident entry with its version; `inFlight` are the copies whose upsert has not arrived yet. */
  datatype State = State(local: Option<Copy>, inFlight: seq<Copy>, durable: Option<Copy>)

  datatype Action =
    | Materialize(payload: string)
    | Arrive(which: nat)
    | Evict

  ghost predicate Enabled(s: State, a: Action) {
    a.Arrive? ==> a.which < |s.inFlight|
  }

  function Step(s: State, a: Action): State
    requires Enabled(s, a)
  {
    match a
    case Materialize(payload) =>
      var c := Copy(VersionOf(s.local) + 1, payload);
      State(Some(c), s.inFlight + [c], s.durable)
    case Arrive(i) =>
      s.(durable := Some(Upsert(s.durable, s.inFlight[i])), inFlight := s.inFlight[..i] + s.inFlight[i + 1..])
    case Evict => s.(local := None)
  }

  ghost predicate Runs(start: State, actions: seq<Action>, end: State)
    decreases |actions|
  {
    if actions == [] then end == start
    else Enabled(start, actions[0]) && Runs(Step(start, actions[0]), actions[1..], end)
  }

  function Materializations(actions: seq<Action>): nat {
    if actions == [] then 0 else (if actions[0].Materialize? then 1 else 0) + Materializations(actions[1..])
  }

  /** The workload stays resident. */
  ghost predicate Resident(actions: seq<Action>) {
    forall i :: 0 <= i < |actions| ==> !actions[i].Evict?
  }

  /** Since versions started at v0 and the record at `initial`: every copy on its way is newer than v0 and not newer
      than the local one; the record never goes back, and is untouched or holds one of them; and the local copy is on
      its way, or has arrived, or was refused by a record that is ahead. */
  ghost predicate Tracks(v0: nat, initial: Option<Copy>, s: State) {
    var v := VersionOf(s.local);
    && v0 <= v
    && (forall c :: c in s.inFlight ==> v0 < c.version <= v && (c.version == v ==> s.local == Some(c)))
    && VersionOf(initial) <= VersionOf(s.durable)
    && (s.durable == initial
        || (s.durable.Some? && v0 < VersionOf(s.durable) <= v && (VersionOf(s.durable) == v ==> s.durable == s.local)))
    && (v0 < v ==> s.local.Some? && (s.local.value in s.inFlight || s.durable == s.local || VersionOf(s.durable) > v))
  }

  lemma TakenOut<T>(s: seq<T>, i: nat)
    requires i < |s|
    ensures forall x :: x in s <==> x == s[i] || x in s[..i] + s[i + 1..]
  {
    assert s == s[..i] + [s[i]] + s[i + 1..];
  }

  lemma ArriveTracks(v0: nat, initial: Option<Copy>, s: State, i: nat)
    requires Tracks(v0, initial, s) && i < |s.inFlight|
    ensures Tracks(v0, initial, Step(s, Arrive(i)))
  {
    TakenOut(s.inFlight, i);
    assert s.inFlight[i] in s.inFlight;
  }

  lemma StepTracks(v0: nat, initial: Option<Copy>, s: State, a: Action)
    requires Tracks(v0, initial, s) && Enabled(s, a) && !a.Evict?
    ensures Tracks(v0, initial, Step(s, a))
  {
    var t := Step(s, a);
    match a
    case Materialize(payload) =>
      assert t.inFlight[|s.inFlight|] == t.local.value;
    case Arrive(i) => ArriveTracks(v0, initial, s, i);
  }

  lemma {:induction false} RunTracks(v0: nat, initial: Option<Copy>, s: State, actions: seq<Action>, end: State)
    requires Tracks(v0, initial, s) && Runs(s, actions, end) && Resident(actions)
    ensures Tracks(v0, initial, end)
    ensures VersionOf(end.local) == VersionOf(s.local) + Materializations(actions)
    decreases |actions|
  {
    if actions != [] {
      StepTracks(v0, initial, s, actions[0]);
      RunTracks(v0, initial, Step(s, actions[0]), actions[1..], end);
    }
  }

  /** While the workload stays resident: once every upsert has arrived, the record equals the local entry exactly when
      it was not, at the start, ahead of the version the local entry ends with. */
  lemma ConvergesIff(start: State, actions: seq<Action>, end: State)
    requires start.inFlight == [] && Runs(start, actions, end) && end.inFlight == []
    requires Materializations(actions) >= 1 && Resident(actions)
    ensures end.durable == end.local <==> VersionOf(start.durable) <= VersionOf(start.local) + Materializations(actions)
  {
    RunTracks(VersionOf(start.local), start.durable, start, actions, end);
  }

  /** In particular when the durable copy was not ahead of the resident one. */
  lemma ConvergesWhenNotAhead(start: State, actions: seq<Action>, end: State)
    requires start.inFlight == [] && Runs(start, actions, end) && end.inFlight == []
    requires Materializations(actions) >= 1 && Resident(actions) && VersionOf(start.durable) <= VersionOf(start.local)
    ensures end.local.Some? && end.durable == end.local
  {
    ConvergesIff(start, actions, end);
    RunTracks(VersionOf(start.local), start.durable, start, actions, end);
  }

  // ---------------------------------------------------------------------------------------------
  // With evictions

  /** The copies in the order in which their upserts arrive. */
  ghost function Arrivals(start: State, actions: seq<Action>): seq<Copy>
    decreases |actions|
  {
    if actions == [] || !Enabled(start, actions[0]) then []
    else
      (if actions[0].Arrive? then [start.inFlight[actions[0].which]] else [])
      + Arrivals(Step(start, actions[0]), actions[1..])
  }

  /** What the record holds after these arrivals. */
  ghost function Settled(initial: Option<Copy>, arrivals: seq<Copy>): Option<Copy>
    decreases |arrivals|
  {
    if arrivals == [] then initial else Settled(Some(Upsert(initial, arrivals[0])), arrivals[1..])
  }

  lemma {:induction false} RecordSettles(start: State, actions: seq<Action>, end: State)
    requires Runs(start, actions, end)
    ensures end.durable == Settled(start.durable, Arrivals(start, actions))
    decreases |actions|
  {
    if actions != [] {
      var next := Step(start, actions[0]);
      RecordSettles(next, actions[1..], end);
      var rest := Arrivals(next, actions[1..]);
      if actions[0].Arrive? {
        assert ([start.inFlight[actions[0].which]] + rest)[1..] == rest;
      } else {
        assert [] + rest == rest;
      }
    }
  }

  /** The copy arrives, no newer one does or was there, and no other copy of its version arrives after it. */
  ghost predicate Survives(initial: Option<Copy>, arrivals: seq<Copy>, c: Copy) {
    && VersionOf(initial) <= c.version
    && (forall a :: a in arrivals ==> a.version <= c.version)
    && exists k :: LastAt(arrivals, c, k)
  }

  ghost predicate LastAt(arrivals: seq<Copy>, c: Copy, k: int) {
    && 0 <= k < |arrivals| && arrivals[k] == c
    && forall j :: k < j < |arrivals| && arrivals[j].version == c.version ==> arrivals[j] == c
  }

  /** Exactly then does the record end with it. */
  lemma {:induction false} SettledIff(initial: Option<Copy>, arrivals: seq<Copy>, c: Copy)
    requires c in arrivals
    ensures Settled(initial, arrivals) == Some(c) <==> Survives(initial, arrivals, c)
    decreases |arrivals|
  {
    var next := Some(Upsert(initial, arrivals[0]));
    SettledNewest(initial, arrivals);
    if c in arrivals[1..] {
      SettledIff(next, arrivals[1..], c);
      SurvivesTail(initial, arrivals, c);
    } else {
      SurvivesHead(initial, arrivals, c);
    }
  }

  /** The record ends with one of the newest copies: the initial one while nothing at least as new arrives. */
  lemma {:induction false} SettledNewest(initial: Option<Copy>, arrivals: seq<Copy>)
    ensures var v := VersionOf(Settled(initial, arrivals));
            VersionOf(initial) <= v && forall a :: a in arrivals ==> a.version <= v
    ensures initial.Some? && (forall a :: a in arrivals ==> a.version < initial.value.version) ==>
              Settled(initial, arrivals) == initial
    decreases |arrivals|
  {
    if arrivals != [] {
      SettledNewest(Some(Upsert(initial, arrivals[0])), arrivals[1..]);
      assert arrivals == [arrivals[0]] + arrivals[1..];
    }
  }

  lemma LastAtTail(arrivals: seq<Copy>, c: Copy, k: nat)
    requires arrivals != []
    ensures LastAt(arrivals, c, k + 1) <==> LastAt(arrivals[1..], c, k)
  {
    var rest := arrivals[1..];
    if LastAt(arrivals, c, k + 1) { assert forall j :: k < j < |rest| ==> rest[j] == arrivals[j + 1]; }
    if LastAt(rest, c, k) { assert forall j :: k + 1 < j < |arrivals| ==> arrivals[j] == rest[j - 1]; }
  }

  lemma LastAtFirst(arrivals: seq<Copy>, c: Copy) returns (k: nat)
    requires arrivals != [] && LastAt(arrivals, c, 0) && c in arrivals[1..]
    ensures LastAt(arrivals[1..], c, k)
  {
    var rest := arrivals[1..];
    k :| 0 <= k < |rest| && rest[k] == c;
    assert forall j :: k < j < |rest| ==> rest[j] == arrivals[j + 1];
  }

  lemma SomeLastTail(arrivals: seq<Copy>, c: Copy)
    requires arrivals != [] && c in arrivals[1..]
    ensures (exists k :: LastAt(arrivals, c, k)) <==> (exists k :: LastAt(arrivals[1..], c, k))
  {
    if k: nat :| LastAt(arrivals, c, k) {
      if k == 0 { var i := LastAtFirst(arrivals, c); } else { LastAtTail(arrivals, c, k - 1); }
    }
    if k: nat :| LastAt(arrivals[1..], c, k) { LastAtTail(arrivals, c, k); }
  }

  lemma SurvivesTail(initial: Option<Copy>, arrivals: seq<Copy>, c: Copy)
    requires arrivals != [] && c in arrivals[1..]
    ensures Survives(initial, arrivals, c) <==> Survives(Some(Upsert(initial, arrivals[0])), arrivals[1..], c)
  {
    SomeLastTail(arrivals, c);
    assert arrivals == [arrivals[0]] + arrivals[1..];
  }

  lemma {:induction false} SurvivesHead(initial: Option<Copy>, arrivals: seq<Copy>, c: Copy)
    requires arrivals != [] && c == arrivals[0] && c !in arrivals[1..]
    ensures Settled(initial, arrivals) == Some(c) <==> Survives(initial, arrivals, c)
  {
    var (next, rest) := (Some(Upsert(initial, c)), arrivals[1..]);
    assert arrivals == [c] + rest;
    SettledNewest(initial, arrivals);
    SettledNewest(next, rest);
    if Survives(initial, arrivals, c) {
      var k :| LastAt(arrivals, c, k);
      forall a | a in rest ensures a.version < c.version {
        var j :| 0 <= j < |rest| && rest[j] == a;
        assert k == 0 && arrivals[j + 1] == a;
      }
    }
    if Settled(initial, arrivals) == Some(c) {
      SettledLater(next, rest, c);
      assert forall j :: 0 < j < |arrivals| ==> arrivals[j] == rest[j - 1] && rest[j - 1] in rest;
      assert LastAt(arrivals, c, 0);
    }
  }

  /** A copy that does not arrive any more survives only while every arrival is older. */
  lemma {:induction false} SettledLater(initial: Option<Copy>, arrivals: seq<Copy>, c: Copy)
    requires c !in arrivals && Settled(initial, arrivals) == Some(c)
    ensures initial == Some(c) && forall a :: a in arrivals ==> a.version < c.version
    decreases |arrivals|
  {
    if arrivals != [] {
      SettledLater(Some(Upsert(initial, arrivals[0])), arrivals[1..], c);
      assert arrivals == [arrivals[0]] + arrivals[1..];
    }
  }

  /** Some materialisation is not followed by an eviction. */
  ghost predicate Refreshed(actions: seq<Action>) {
    exists i :: RefreshedAt(actions, i)
  }

  ghost predicate RefreshedAt(actions: seq<Action>, i: int) {
    0 <= i < |actions| && actions[i].Materialize? && forall j :: i < j < |actions| ==> !actions[j].Evict?
  }

  /** No copy is lost on its way. */
  lemma {:induction false} CopiesArrive(start: State, actions: seq<Action>, end: State, c: Copy)
    requires Runs(start, actions, end) && c in start.inFlight
    ensures c in Arrivals(start, actions) || c in end.inFlight
    decreases |actions|
  {
    if actions != [] {
      if actions[0].Arrive? { TakenOut(start.inFlight, actions[0].which); }
      if !(actions[0].Arrive? && c == start.inFlight[actions[0].which]) {
        CopiesArrive(Step(start, actions[0]), actions[1..], end, c);
      }
    }
  }

  lemma {:induction false} LocalKept(start: State, actions: seq<Action>, end: State)
    requires Runs(start, actions, end) && forall i :: 0 <= i < |actions| ==> actions[i].Arrive?
    ensures end.local == start.local
    decreases |actions|
  {
    if actions != [] { LocalKept(Step(start, actions[0]), actions[1..], end); }
  }

  lemma RefreshedTail(actions: seq<Action>)
    requires Refreshed(actions) && !Refreshed(actions[1..])
    ensures actions[0].Materialize? && forall i :: 0 <= i < |actions[1..]| ==> actions[1..][i].Arrive?
  {
    var rest := actions[1..];
    var i :| RefreshedAt(actions, i);
    if i > 0 { assert RefreshedAt(rest, i - 1); }
    forall j | 0 <= j < |rest| ensures rest[j].Arrive? {
      assert !RefreshedAt(rest, j) && rest[j] == actions[j + 1];
      assert forall k :: j < k < |rest| ==> rest[k] == actions[k + 1];
    }
  }

  /** The resident copy is one that was issued and arrives. */
  lemma {:induction false} LocalArrives(start: State, actions: seq<Action>, end: State)
    requires Runs(start, actions, end) && Refreshed(actions) && end.inFlight == []
    ensures end.local.Some? && end.local.value in Arrivals(start, actions)
    decreases |actions|
  {
    var next := Step(start, actions[0]);
    if Refreshed(actions[1..]) {
      LocalArrives(next, actions[1..], end);
    } else {
      RefreshedTail(actions);
      LocalKept(next, actions[1..], end);
      assert next.inFlight[|start.inFlight|] == next.local.value;
      CopiesArrive(next, actions[1..], end, next.local.value);
    }
  }

  /** Once every upsert has arrived, with any evictions in between, the record equals the local entry exactly when no
      newer copy arrived or was there and no other copy of its version arrived after it. */
  lemma ConvergesAcrossEvictionsIff(start: State, actions: seq<Action>, end: State)
    requires start.inFlight == [] && Runs(start, actions, end) && end.inFlight == [] && Refreshed(actions)
    ensures end.local.Some?
    ensures end.durable == end.local <==> Survives(start.durable, Arrivals(start, actions), end.local.value)
  {
    LocalArrives(start, actions, end);
    RecordSettles(start, actions, end);
    SettledIff(start.durable, Arrivals(start, actions), end.local.value);
  }

  /** A copy from before an eviction that arrives last replaces one of the same version from after it. */
  lemma StaleAfterEviction(p: string, q: string)
    ensures var actions := [Materialize(p), Evict, Materialize(q), Arrive(1), Arrive(0)];
            Runs(State(None, [], None), actions, State(Some(Copy(1, q)), [], Some(Copy(1, p))))
  {
    var (s, x, y) := (State(None, [], None), Copy(1, p), Copy(1, q));
    RunStep(State(Some(y), [x], Some(y)), Arrive(0), [], State(Some(y), [], Some(x)));
    RunStep(State(Some(y), [x, y], None), Arrive(1), [Arrive(0)], State(Some(y), [], Some(x)));
    RunStep(State(None, [x], None), Materialize(q), [Arrive(1), Arrive(0)], State(Some(y), [], Some(x)));
    RunStep(State(Some(x), [x], None), Evict, [Materialize(q), Arrive(1), Arrive(0)], State(Some(y), [], Some(x)));
    RunStep(s, Materialize(p), [Evict, Materialize(q), Arrive(1), Arrive(0)], State(Some(y), [], Some(x)));
  }

  /** A workload that returns after an eviction is behind its record. */
  lemma BehindAfterEviction(p: string, q: string, r: string)
    ensures var actions := [Materialize(p), Materialize(q), Arrive(0), Arrive(0), Evict, Materialize(r), Arrive(0)];
            Runs(State(None, [], None), actions, State(Some(Copy(1, r)), [], Some(Copy(2, q))))
  {
    var (x, y, z) := (Copy(1, p), Copy(2, q), Copy(1, r));
    var end := State(Some(z), [], Some(y));
    ReturnedBehind(y, r);
    RunStep(State(Some(y), [y], Some(x)), Arrive(0), [Evict, Materialize(r), Arrive(0)], end);
    RunStep(State(Some(y), [x, y], None), Arrive(0), [Arrive(0), Evict, Materialize(r), Arrive(0)], end);
    RunStep(State(Some(x), [x], None), Materialize(q), [Arrive(0), Arrive(0), Evict, Materialize(r), Arrive(0)], end);
    RunStep(State(None, [], None), Materialize(p),
            [Materialize(q), Arrive(0), Arrive(0), Evict, Materialize(r), Arrive(0)], end);
  }

  lemma ReturnedBehind(y: Copy, r: string)
    requires y.version == 2
    ensures Runs(State(Some(y), [], Some(y)), [Evict, Materialize(r), Arrive(0)], State(Some(Copy(1, r)), [], Some(y)))
  {
    var (z, end) := (Copy(1, r), State(Some(Copy(1, r)), [], Some(y)));
    RunStep(State(Some(z), [z], Some(y)), Arrive(0), [], end);
    RunStep(State(None, [], Some(y)), Materialize(r), [Arrive(0)], end);
    RunStep(State(Some(y), [], Some(y)), Evict, [Materialize(r), Arrive(0)], end);
  }

  lemma RunStep(s: State, a: Action, rest: seq<Action>, end: State)
    requires Enabled(s, a) && Runs(Step(s, a), rest, end)
    ensures Runs(s, [a] + rest, end)
  {
    assert ([a] + rest)[1..] == rest;
  }
}
