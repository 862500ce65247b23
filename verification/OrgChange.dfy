/** Organisational changes driving the graph: closing the old team membership of a person, opening the new
    one, and reading back who belonged where at any instant. */
module OrgChange {
  import opened Wrappers
  import opened GraphModel
  import opened GraphStore

  /** Attributes of an org-change event; an absent attribute is the empty string. */
  datatype Change = Change(personId: string, previousTeam: string, newTeam: string, eventTime: Time)

  function PersonNode(personId: string): string { "person:" + personId }

  function TeamNode(team: string): Option<string> {
    if team == "" then None else Some("team:" + team)
  }

  lemma NodeIdsInjective(a: string, b: string)
    ensures PersonNode(a) == PersonNode(b) ==> a == b
    ensures TeamNode(a) == TeamNode(b) ==> a == b
  {
    assert PersonNode(a)[7..] == a && PersonNode(b)[7..] == b;
    assert ("team:" + a)[5..] == a && ("team:" + b)[5..] == b;
  }

  function Membership(person: string, team: string, since: Time): Edge {
    Edge(MemberOf, person, team, 1.0, 1.0, since, None)
  }

  /** A person leaves one team and joins another; `now` is the wall clock that adding an edge reads. */
  function Moved(edges: seq<Edge>, person: string, from: Option<string>, to: Option<string>, at: Time,
                 now: Time): seq<Edge> {
    var closed := if from.Some? then CloseOpen(edges, EdgeKey(person, from.value, MemberOf), at) else edges;
    if to.Some? then Added(closed, Membership(person, to.value, at), now) else closed
  }

  /** The edge list after one event. */
  function Handled(edges: seq<Edge>, c: Change, now: Time): seq<Edge> {
    if c.personId == "" || c.previousTeam == c.newTeam then edges
    else Moved(edges, PersonNode(c.personId), TeamNode(c.previousTeam), TeamNode(c.newTeam), c.eventTime, now)
  }

  class AttributionProcessor {
    const graph: InMemoryGraphStore
    var processedCount: nat

    constructor (graph: InMemoryGraphStore)
      ensures this.graph == graph && processedCount == 0
    {
      this.graph, processedCount := graph, 0;
    }

    method HandleOrgChange(c: Change, now: Time)
      requires graph.Valid()
      modifies this, graph`edges, graph`fromIndex, graph`toIndex, graph`activeEdgeIndex
      ensures graph.Valid()
      ensures graph.edges == Handled(old(graph.edges), c, now)
      ensures processedCount == old(processedCount) + 1
    {
      var personId := "person:" + c.personId;
      var oldTeam, newTeam := c.previousTeam, c.newTeam;
      if c.personId == "" {
        processedCount := processedCount + 1;
        return;
      }
      if oldTeam != "" && oldTeam != newTeam {
        var _ := graph.CloseEdge(MemberOf, personId, "team:" + oldTeam, Some(c.eventTime), now);
      }
      if newTeam != "" && oldTeam != newTeam {
        graph.AddEdge(Edge(MemberOf, personId, "team:" + newTeam, 1.0, 1.0, c.eventTime, None), now);
      }
      processedCount := processedCount + 1;
    }
  }

  // ---------------------------------------------------------------------------------------------
  // Reading memberships back

  predicate IsMembership(e: Edge, person: string) {
    e.edgeType == MemberOf && e.fromId == person
  }

  /** The teams the person belongs to at instant `t`, oldest membership first. */
  function MembershipsAt(edges: seq<Edge>, person: string, t: Time): seq<string> {
    if edges == [] then []
    else
      var n := |edges| - 1;
      MembershipsAt(edges[..n], person, t)
      + if IsMembership(edges[n], person) && edges[n].LiveAt(t) then [edges[n].toId] else []
  }

  function TeamsOf(edges: seq<Edge>): seq<string> {
    if edges == [] then []
    else
      var n := |edges| - 1;
      TeamsOf(edges[..n]) + if edges[n].edgeType == MemberOf then [edges[n].toId] else []
  }

  /** A caller reads them off the store's answer for the person's outgoing edges. */
  lemma {:induction false} MembershipsAreQueried(edges: seq<Edge>, person: string, t: Time)
    ensures MembershipsAt(edges, person, t) == TeamsOf(EdgesAt(edges, Source, person, t))
  {
    if edges != [] {
      var n := |edges| - 1;
      MembershipsAreQueried(edges[..n], person, t);
      if edges[n].fromId == person && edges[n].LiveAt(t) {
        TeamsOfAppend(EdgesAt(edges[..n], Source, person, t), edges[n]);
      } else {
        assert EdgesAt(edges, Source, person, t) == EdgesAt(edges[..n], Source, person, t);
      }
    }
  }

  lemma TeamsOfAppend(edges: seq<Edge>, e: Edge)
    ensures TeamsOf(edges + [e]) == TeamsOf(edges) + if e.edgeType == MemberOf then [e.toId] else []
  {
    assert (edges + [e])[..|edges|] == edges;
  }

  lemma MembershipsAppend(edges: seq<Edge>, e: Edge, person: string, t: Time)
    ensures MembershipsAt(edges + [e], person, t)
         == MembershipsAt(edges, person, t) + if IsMembership(e, person) && e.LiveAt(t) then [e.toId] else []
  {
    assert (edges + [e])[..|edges|] == edges;
  }

  /** Memberships depend only on the person's own membership edges and whether these are live. */
  lemma {:induction false} MembershipsDepend(a: seq<Edge>, b: seq<Edge>, person: string, t: Time)
    requires |a| == |b|
    requires forall i :: 0 <= i < |a| ==>
            a[i].toId == b[i].toId && IsMembership(a[i], person) == IsMembership(b[i], person)
    requires forall i :: 0 <= i < |a| && IsMembership(a[i], person) ==> a[i].LiveAt(t) == b[i].LiveAt(t)
    ensures MembershipsAt(a, person, t) == MembershipsAt(b, person, t)
  {
    if a != [] {
      var n := |a| - 1;
      MembershipsDepend(a[..n], b[..n], person, t);
    }
  }

  lemma {:induction false} NoMembershipsLive(edges: seq<Edge>, person: string, t: Time)
    requires forall i :: 0 <= i < |edges| && IsMembership(edges[i], person) ==> !edges[i].LiveAt(t)
    ensures MembershipsAt(edges, person, t) == []
  {
    if edges != [] {
      var n := |edges| - 1;
      NoMembershipsLive(edges[..n], person, t);
    }
  }

  // ---------------------------------------------------------------------------------------------
  // One move

  /** Nothing about the person is dated after `horizon`, and only `team` is open. */
  ghost predicate Settled(edges: seq<Edge>, person: string, team: Option<string>, horizon: Time) {
    forall i :: 0 <= i < |edges| && IsMembership(edges[i], person) ==>
      && edges[i].validFrom <= horizon
      && if edges[i].Open() then team == Some(edges[i].toId) else edges[i].validTo.value <= horizon
  }

  function AsSeq(team: Option<string>): seq<string> { if team.Some? then [team.value] else [] }

  /** Both edge lists hold the same memberships of the person. */
  ghost predicate SameFor(person: string, a: seq<Edge>, b: seq<Edge>) {
    && |a| <= |b|
    && (forall i :: 0 <= i < |a| ==> a[i].toId == b[i].toId && IsMembership(a[i], person) == IsMembership(b[i], person))
    && (forall i :: 0 <= i < |a| && IsMembership(a[i], person) ==> b[i] == a[i])
    && (forall i :: |a| <= i < |b| ==> !IsMembership(b[i], person))
  }

  lemma OthersUnaffected(edges: seq<Edge>, other: string, from: Option<string>, to: Option<string>, at: Time, now: Time,
                         person: string)
    requires other != person
    ensures SameFor(person, edges, Moved(edges, other, from, to, at, now))
  {
  }

  lemma SameForSettled(person: string, a: seq<Edge>, b: seq<Edge>, team: Option<string>, h: Time)
    requires SameFor(person, a, b) && Settled(a, person, team, h)
    ensures Settled(b, person, team, h)
  {
    forall i | 0 <= i < |b| && IsMembership(b[i], person)
      ensures b[i].validFrom <= h && if b[i].Open() then team == Some(b[i].toId) else b[i].validTo.value <= h
    {
      assert i < |a| && b[i] == a[i];
    }
  }

  /** Somebody else's move is invisible to the person. */
  lemma {:induction false} SameForInvisible(person: string, a: seq<Edge>, b: seq<Edge>, t: Time)
    requires SameFor(person, a, b)
    ensures MembershipsAt(b, person, t) == MembershipsAt(a, person, t)
    decreases |b|
  {
    if |b| > |a| {
      SameForInvisible(person, a, b[..|b| - 1], t);
    } else {
      MembershipsDepend(a, b, person, t);
    }
  }

  lemma MoveSettles(edges: seq<Edge>, person: string, from: Option<string>, to: Option<string>, at: Time, now: Time)
    requires Settled(edges, person, from, at) && from != to
    ensures Settled(Moved(edges, person, from, to, at, now), person, to, at)
    ensures to.Some? ==>
              Moved(edges, person, from, to, at, now)
                  == Moved(edges, person, from, None, at, now) + [Membership(person, to.value, at)]
  {
    var closed := Moved(edges, person, from, None, at, now);
    assert forall i :: 0 <= i < |edges| && IsMembership(closed[i], person) ==>
      closed[i].validFrom <= at && !closed[i].Open() && closed[i].validTo.value <= at;
    if to.Some? {
      assert CloseOpen(closed, Membership(person, to.value, at).Key(), now) == closed;
    }
  }

  /** A move away from the settled team: the past keeps its answer, the present shows the new team, and the
      wall clock plays no part. */
  lemma MoveFromCurrent(edges: seq<Edge>, person: string, from: Option<string>, to: Option<string>, at: Time, now: Time,
                        t: Time)
    requires Settled(edges, person, from, at) && from != to
    ensures Settled(Moved(edges, person, from, to, at, now), person, to, at)
    ensures MembershipsAt(Moved(edges, person, from, to, at, now), person, t)
         == if t < at then MembershipsAt(edges, person, t) else AsSeq(to)
    ensures to.Some? ==>
              Moved(edges, person, from, to, at, now)
                  == Moved(edges, person, from, None, at, now) + [Membership(person, to.value, at)]
  {
    MoveSettles(edges, person, from, to, at, now);
    var closed := Moved(edges, person, from, None, at, now);
    if t < at {
      MembershipsDepend(closed, edges, person, t);
    } else {
      NoMembershipsLive(closed, person, t);
    }
    if to.Some? {
      MembershipsAppend(closed, Membership(person, to.value, at), person, t);
    }
  }

  // ---------------------------------------------------------------------------------------------
  // Runs of events

  /** The team the events leave the person in; the empty string for none. */
  function TeamAfter(events: seq<Change>, personId: string): string {
    if events == [] then ""
    else
      var last := events[|events| - 1];
      if last.personId == personId then last.newTeam else TeamAfter(events[..|events| - 1], personId)
  }

  function UpTo(events: seq<Change>, t: Time): seq<Change> {
    if events == [] then []
    else
      var last := events[|events| - 1];
      UpTo(events[..|events| - 1], t) + if last.eventTime <= t then [last] else []
  }

  /** Each event names as previous team the one the person is in. */
  ghost predicate Consistent(events: seq<Change>) {
    events != [] ==>
      var (before, c) := (events[..|events| - 1], events[|events| - 1]);
      Consistent(before) && (c.personId != "" ==> c.previousTeam == TeamAfter(before, c.personId))
  }

  /** No event about the person is later than `horizon`. */
  ghost predicate Within(events: seq<Change>, personId: string, horizon: Time) {
    forall i :: 0 <= i < |events| && events[i].personId == personId ==> events[i].eventTime <= horizon
  }

  /** Events about the same person come in order of event time. */
  ghost predicate InOrder(events: seq<Change>) {
    events != [] ==>
      var (before, c) := (events[..|events| - 1], events[|events| - 1]);
      InOrder(before) && Within(before, c.personId, c.eventTime)
  }

  /** `clock(k)` is the wall clock while the k-th event is handled. */
  function Replay(start: seq<Edge>, events: seq<Change>, clock: nat -> Time): seq<Edge>
    decreases |events|
  {
    if events == [] then start
    else
      var n := |events| - 1;
      Handled(Replay(start, events[..n], clock), events[n], clock(n))
  }

  ghost predicate NoMemberships(edges: seq<Edge>) {
    forall i :: 0 <= i < |edges| ==> edges[i].edgeType != MemberOf
  }

  lemma {:induction false} TeamAfterUpTo(events: seq<Change>, personId: string, t: Time)
    requires Within(events, personId, t)
    ensures TeamAfter(UpTo(events, t), personId) == TeamAfter(events, personId)
  {
    if events != [] {
      var n := |events| - 1;
      TeamAfterUpTo(events[..n], personId, t);
      UpToLast(events, personId, t);
    }
  }

  lemma UpToLast(events: seq<Change>, personId: string, t: Time)
    requires events != []
    ensures TeamAfter(UpTo(events, t), personId)
         == (var (before, c) := (events[..|events| - 1], events[|events| - 1]);
             if c.eventTime <= t && c.personId == personId then c.newTeam else TeamAfter(UpTo(before, t), personId))
  {
    var u, c := UpTo(events[..|events| - 1], t), events[|events| - 1];
    if c.eventTime <= t {
      assert UpTo(events, t) == u + [c];
      assert (u + [c])[..|u + [c]| - 1] == u;
    } else {
      assert UpTo(events, t) == u;
    }
  }

  /** After a consistent run the person is settled in the current team. */
  lemma {:induction false} ReplaySettled(start: seq<Edge>, events: seq<Change>,
                                         clock: nat -> Time, personId: string, horizon: Time)
    requires NoMemberships(start) && Consistent(events) && InOrder(events) && personId != ""
            && Within(events, personId, horizon)
    ensures Settled(Replay(start, events, clock), PersonNode(personId), TeamNode(TeamAfter(events, personId)), horizon)
    decreases |events|
  {
    if events != [] {
      var n := |events| - 1;
      var (before, c) := (events[..n], events[n]);
      var edges := Replay(start, before, clock);
      var from, to := TeamNode(c.previousTeam), TeamNode(c.newTeam);
      NodeIdsInjective(c.personId, personId);
      NodeIdsInjective(c.previousTeam, c.newTeam);
      if c.personId != personId {
        ReplaySettled(start, before, clock, personId, horizon);
        if c.personId != "" && c.previousTeam != c.newTeam {
          OthersUnaffected(edges, PersonNode(c.personId), from, to, c.eventTime, clock(n), PersonNode(personId));
          SameForSettled(PersonNode(personId), edges, Replay(start, events, clock),
              TeamNode(TeamAfter(before, personId)), horizon);
        }
      } else {
        ReplaySettled(start, before, clock, personId, c.eventTime);
        if c.previousTeam != c.newTeam {
          MoveFromCurrent(edges, PersonNode(personId), from, to, c.eventTime, clock(n), horizon);
        }
        assert c.eventTime <= horizon;
      }
    }
  }

  /** Point-in-time reconstruction: the graph answers, for every instant, with the one team that replaying only
      the events up to that instant leaves the person in. */
  lemma {:induction false} PointInTime(start: seq<Edge>, events: seq<Change>,
                                       clock: nat -> Time, personId: string, t: Time)
    requires NoMemberships(start) && Consistent(events) && InOrder(events) && personId != ""
    ensures var team := TeamAfter(UpTo(events, t), personId);
            MembershipsAt(Replay(start, events, clock), "person:" + personId, t)
              == if team == "" then [] else ["team:" + team]
    decreases |events|
  {
    if events == [] {
      NoMembershipsLive(start, PersonNode(personId), t);
    } else {
      var n := |events| - 1;
      var (before, c) := (events[..n], events[n]);
      var edges := Replay(start, before, clock);
      var from, to := TeamNode(c.previousTeam), TeamNode(c.newTeam);
      PointInTime(start, before, clock, personId, t);
      UpToLast(events, personId, t);
      NodeIdsInjective(c.personId, personId);
      NodeIdsInjective(c.previousTeam, c.newTeam);
      if c.personId != "" && c.previousTeam != c.newTeam {
        if c.personId != personId {
          OthersUnaffected(edges, PersonNode(c.personId), from, to, c.eventTime, clock(n), PersonNode(personId));
          SameForInvisible(PersonNode(personId), edges, Replay(start, events, clock), t);
        } else {
          ReplaySettled(start, before, clock, personId, c.eventTime);
          MoveFromCurrent(edges, PersonNode(personId), from, to, c.eventTime, clock(n), t);
        }
      } else if c.personId == personId && c.eventTime <= t {
        TeamAfterUpTo(before, personId, t);
      }
    }
  }

  /** The edge is a membership that the event began, of full confidence and weight; it may have ended since. */
  ghost predicate BegunBy(e: Edge, c: Change) {
    && c.personId != "" && c.newTeam != "" && c.newTeam != c.previousTeam
    && e.(validTo := None) == Edge(MemberOf, "person:" + c.personId, "team:" + c.newTeam, 1.0, 1.0, c.eventTime, None)
  }

  lemma HandledKeeps(edges: seq<Edge>, c: Change, now: Time, i: nat)
    requires i < |Handled(edges, c, now)|
    ensures if i < |edges| then Handled(edges, c, now)[i].(validTo := None) == edges[i].(validTo := None)
            else BegunBy(Handled(edges, c, now)[i], c)
  {
  }

  /** Every membership in the graph was begun by one of the events, consistent or not. */
  lemma {:induction false} MembershipsBegun(start: seq<Edge>, events: seq<Change>, clock: nat -> Time, i: nat)
    returns (k: nat)
    requires NoMemberships(start) && i < |Replay(start, events, clock)|
    requires Replay(start, events, clock)[i].edgeType == MemberOf
    ensures k < |events| && BegunBy(Replay(start, events, clock)[i], events[k])
    decreases |events|
  {
    var n := |events| - 1;
    var edges := Replay(start, events[..n], clock);
    HandledKeeps(edges, events[n], clock(n), i);
    k := n;
    if i < |edges| {
      var e := Replay(start, events, clock)[i];
      assert e.edgeType == e.(validTo := None).edgeType == edges[i].edgeType;
      k := MembershipsBegun(start, events[..n], clock, i);
    }
  }

  // ---------------------------------------------------------------------------------------------
  // When the wall clock shows

  /** The event adds a membership that is still open, which adding then closes at the wall clock. */
  ghost predicate Readds(edges: seq<Edge>, c: Change) {
    && c.personId != "" && c.newTeam != "" && c.previousTeam != c.newTeam
    && HasOpen(edges, EdgeKey(PersonNode(c.personId), "team:" + c.newTeam, MemberOf))
  }

  ghost predicate NeverReadds(start: seq<Edge>, events: seq<Change>)
    decreases |events|
  {
    events != [] ==>
      var n := |events| - 1;
      NeverReadds(start, events[..n]) && !Readds(Replay(start, events[..n], k => 0), events[n])
  }

  lemma ClockUnread(edges: seq<Edge>, c: Change, now: Time, now': Time)
    requires !Readds(edges, c)
    ensures Handled(edges, c, now) == Handled(edges, c, now')
  {
    if c.personId != "" && c.newTeam != "" && c.previousTeam != c.newTeam {
      var person, from, to := PersonNode(c.personId), TeamNode(c.previousTeam), TeamNode(c.newTeam);
      var closed := Moved(edges, person, from, None, c.eventTime, now);
      var key := Membership(person, to.value, c.eventTime).Key();
      forall i | 0 <= i < |closed| ensures !(closed[i].Open() && closed[i].Key() == key) {
        assert closed[i].Open() ==> closed[i] == edges[i];
      }
      assert CloseOpen(closed, key, now) == closed == CloseOpen(closed, key, now');
    }
  }

  lemma {:induction false} UnreadClockIrrelevant(start: seq<Edge>, events: seq<Change>, clock: nat -> Time)
    requires NeverReadds(start, events)
    ensures Replay(start, events, clock) == Replay(start, events, k => 0)
    decreases |events|
  {
    if events != [] {
      var n := |events| - 1;
      UnreadClockIrrelevant(start, events[..n], clock);
      ClockUnread(Replay(start, events[..n], clock), events[n], clock(n), 0);
    }
  }

  /** Position i holds a closed edge in both lists, but with different ends. */
  ghost predicate EndsDiffer(a: seq<Edge>, b: seq<Edge>, i: nat) {
    i < |a| && i < |b| && !a[i].Open() && !b[i].Open() && a[i].validTo != b[i].validTo
  }

  /** A closed edge is never touched again. */
  lemma ClosedStays(edges: seq<Edge>, c: Change, now: Time, i: nat)
    requires i < |edges| && !edges[i].Open()
    ensures i < |Handled(edges, c, now)| && Handled(edges, c, now)[i] == edges[i]
  {
  }

  lemma ReaddClosesAtClock(edges: seq<Edge>, c: Change, now: Time, i: nat)
    requires Readds(edges, c)
    requires i < |edges| && edges[i].Open()
            && edges[i].Key() == EdgeKey(PersonNode(c.personId), "team:" + c.newTeam, MemberOf)
    ensures i < |Handled(edges, c, now)| && Handled(edges, c, now)[i].validTo == Some(now)
  {
    var key := EdgeKey(PersonNode(c.personId), "team:" + c.newTeam, MemberOf);
    NodeIdsInjective(c.previousTeam, c.newTeam);
    var closed := Moved(edges, PersonNode(c.personId), TeamNode(c.previousTeam), None, c.eventTime, now);
    assert closed[i] == edges[i];
    assert CloseOpen(closed, key, now)[i].validTo == Some(now);
  }

  lemma {:induction false} ReaddDiverges(start: seq<Edge>, events: seq<Change>) returns (i: nat)
    requires !NeverReadds(start, events)
    ensures EndsDiffer(Replay(start, events, k => 0), Replay(start, events, k => 1), i)
    decreases |events|
  {
    var n := |events| - 1;
    var (a, b) := (Replay(start, events[..n], k => 0), Replay(start, events[..n], k => 1));
    if NeverReadds(start, events[..n]) {
      UnreadClockIrrelevant(start, events[..n], k => 1);
      var c := events[n];
      i :| 0 <= i < |a| && a[i].Open() && a[i].Key() == EdgeKey(PersonNode(c.personId), "team:" + c.newTeam, MemberOf);
      ReaddClosesAtClock(a, c, 0, i);
      ReaddClosesAtClock(a, c, 1, i);
    } else {
      i := ReaddDiverges(start, events[..n]);
      ClosedStays(a, events[n], 0, i);
      ClosedStays(b, events[n], 1, i);
    }
  }

  /** A run of events rebuilds the same edges under every wall clock exactly when no event adds a membership that is
      still open. */
  lemma RebuildDeterministicIff(start: seq<Edge>, events: seq<Change>)
    ensures (forall clock, clock' :: Replay(start, events, clock) == Replay(start, events, clock'))
       <==> NeverReadds(start, events)
  {
    if NeverReadds(start, events) {
      forall clock, clock' ensures Replay(start, events, clock) == Replay(start, events, clock') {
        UnreadClockIrrelevant(start, events, clock);
        UnreadClockIrrelevant(start, events, clock');
      }
    } else {
      var i := ReaddDiverges(start, events);
      assert Replay(start, events, k => 0) != Replay(start, events, k => 1);
    }
  }

  /** Only the current team is open. */
  ghost predicate OnlyOpen(edges: seq<Edge>, person: string, team: Option<string>) {
    forall i :: 0 <= i < |edges| && IsMembership(edges[i], person) && edges[i].Open() ==> team == Some(edges[i].toId)
  }

  lemma MoveOnlyOpen(edges: seq<Edge>, person: string, from: Option<string>, to: Option<string>, at: Time, now: Time)
    requires OnlyOpen(edges, person, from) && from != to
    ensures OnlyOpen(Moved(edges, person, from, to, at, now), person, to)
    ensures Moved(edges, person, from, to, at, now)
         == Ended(edges, person, from, at) + if to.Some? then [Membership(person, to.value, at)] else []
  {
    var closed := Ended(edges, person, from, at);
    assert forall i :: 0 <= i < |closed| && IsMembership(closed[i], person) ==> !closed[i].Open();
    if to.Some? { assert CloseOpen(closed, Membership(person, to.value, at).Key(), now) == closed; }
  }

  /** The current membership, if any, ended at `at`. */
  function Ended(edges: seq<Edge>, person: string, team: Option<string>, at: Time): seq<Edge> {
    if team.Some? then CloseOpen(edges, EdgeKey(person, team.value, MemberOf), at) else edges
  }

  lemma SameForOpen(person: string, a: seq<Edge>, b: seq<Edge>, team: Option<string>, at: Time)
    requires SameFor(person, a, b)
    ensures OnlyOpen(a, person, team) ==> OnlyOpen(b, person, team)
    ensures SameFor(person, Ended(a, person, team, at), Ended(b, person, team, at))
  {
    if OnlyOpen(a, person, team) {
      forall i | 0 <= i < |b| && IsMembership(b[i], person) && b[i].Open() ensures team == Some(b[i].toId) {
        assert i < |a| && b[i] == a[i];
      }
    }
  }

  /** In a consistent run only the current team is open, whatever the event times. */
  lemma {:induction false} ReplayOnlyOpen(start: seq<Edge>, events: seq<Change>, clock: nat -> Time, personId: string)
    requires NoMemberships(start) && Consistent(events) && personId != ""
    ensures OnlyOpen(Replay(start, events, clock), PersonNode(personId), TeamNode(TeamAfter(events, personId)))
    decreases |events|
  {
    if events != [] {
      var n := |events| - 1;
      var (before, c) := (events[..n], events[n]);
      var (edges, team) := (Replay(start, before, clock), TeamNode(TeamAfter(before, personId)));
      var from, to := TeamNode(c.previousTeam), TeamNode(c.newTeam);
      ReplayOnlyOpen(start, before, clock, personId);
      NodeIdsInjective(c.personId, personId);
      NodeIdsInjective(c.previousTeam, c.newTeam);
      if c.personId != "" && c.previousTeam != c.newTeam {
        if c.personId == personId {
          MoveOnlyOpen(edges, PersonNode(personId), from, to, c.eventTime, clock(n));
        } else {
          OthersUnaffected(edges, PersonNode(c.personId), from, to, c.eventTime, clock(n), PersonNode(personId));
          SameForOpen(PersonNode(personId), edges, Replay(start, events, clock), team, c.eventTime);
        }
      }
    }
  }

  lemma {:induction false} ConsistentNeverReadds(start: seq<Edge>, events: seq<Change>)
    requires NoMemberships(start) && Consistent(events)
    ensures NeverReadds(start, events)
    decreases |events|
  {
    if events != [] {
      var n := |events| - 1;
      var (before, c) := (events[..n], events[n]);
      ConsistentNeverReadds(start, before);
      if c.personId != "" {
        ReplayOnlyOpen(start, before, k => 0, c.personId);
        OnlyOpenNotReadded(Replay(start, before, k => 0), c);
      }
    }
  }

  lemma OnlyOpenNotReadded(edges: seq<Edge>, c: Change)
    requires OnlyOpen(edges, PersonNode(c.personId), TeamNode(c.previousTeam))
    ensures !Readds(edges, c)
  {
    NodeIdsInjective(c.previousTeam, c.newTeam);
    if c.newTeam != "" && c.previousTeam != c.newTeam {
      var key := EdgeKey(PersonNode(c.personId), "team:" + c.newTeam, MemberOf);
      assert forall i :: 0 <= i < |edges| && IsMembership(edges[i], key.fromId) && edges[i].Open() ==>
          edges[i].toId != key.toId;
    }
  }

  /** Rebuilding the graph from the same consistent events gives the same edges whenever it is done. */
  lemma RebuildIsDeterministic(start: seq<Edge>, events: seq<Change>, clock: nat -> Time, clock': nat -> Time)
    requires NoMemberships(start) && Consistent(events)
    ensures Replay(start, events, clock) == Replay(start, events, clock')
  {
    ConsistentNeverReadds(start, events);
    RebuildDeterministicIff(start, events);
  }

  // ---------------------------------------------------------------------------------------------
  // Late events

  /** The events that move the person; the others leave the graph alone. */
  function Moves(events: seq<Change>, personId: string): (r: seq<Change>)
    ensures forall k :: 0 <= k < |r| ==> r[k].personId == personId
  {
    if events == [] then []
    else
      var c := events[|events| - 1];
      Moves(events[..|events| - 1], personId)
      + if c.personId == personId && c.previousTeam != c.newTeam then [c] else []
  }

  /** The k-th move's membership lasts from its own time to that of the next move, or to `until`. */
  ghost predicate Spans(moves: seq<Change>, until: Option<Time>, k: nat, t: Time) {
    && k < |moves| && moves[k].newTeam != "" && moves[k].eventTime <= t
    && var end := if k + 1 < |moves| then Some(moves[k + 1].eventTime) else until;
       end.None? || t < end.value
  }

  /** The teams of the moves that span t, in order. */
  ghost function Spanning(moves: seq<Change>, until: Option<Time>, t: Time): seq<string>
    decreases |moves|
  {
    if moves == [] then []
    else
      var n := |moves| - 1;
      Spanning(moves[..n], Some(moves[n].eventTime), t)
      + if Spans(moves, until, n, t) then ["team:" + moves[n].newTeam] else []
  }

  /** The current membership ended at `until`, if that is an instant. */
  function Clipped(edges: seq<Edge>, person: string, team: Option<string>, until: Option<Time>): seq<Edge> {
    if until.Some? then Ended(edges, person, team, until.value) else edges
  }

  lemma EndedMembership(edges: seq<Edge>, person: string, team: string, at: Time, until: Option<Time>, t: Time)
    requires forall i :: 0 <= i < |edges| && IsMembership(edges[i], person) ==> !edges[i].Open()
    ensures var all := edges + [Membership(person, team, at)];
            var after := Clipped(all, person, Some(team), until);
            MembershipsAt(after, person, t)
              == MembershipsAt(edges, person, t) + if at <= t && (until.None? || t < until.value) then [team] else []
  {
    var e := Membership(person, team, at);
    var last := if until.Some? then e.(validTo := until) else e;
    var all := edges + [e];
    if until.Some? {
      assert CloseOpen(all, e.Key(), until.value) == edges + [last];
    }
    MembershipsAppend(edges, last, person, t);
  }

  /** One move: the membership it ends ends, and the one it begins lasts until `until`. */
  lemma MoveSpans(edges: seq<Edge>, person: string, from: Option<string>, to: Option<string>, at: Time, now: Time,
                  until: Option<Time>, t: Time)
    requires OnlyOpen(edges, person, from) && from != to
    ensures var moved := Moved(edges, person, from, to, at, now);
            var after := Clipped(moved, person, to, until);
            MembershipsAt(after, person, t)
              == MembershipsAt(Ended(edges, person, from, at), person, t)
                 + if at <= t && (until.None? || t < until.value) then AsSeq(to) else []
  {
    MoveOnlyOpen(edges, person, from, to, at, now);
    var closed := Ended(edges, person, from, at);
    assert forall i :: 0 <= i < |closed| && IsMembership(closed[i], person) ==> !closed[i].Open();
    if to.Some? {
      EndedMembership(closed, person, to.value, at, until, t);
    } else {
      assert Moved(edges, person, from, to, at, now) == closed;
    }
  }

  lemma {:induction false} ReplaySpans(start: seq<Edge>, events: seq<Change>, clock: nat -> Time, personId: string,
                                       until: Option<Time>, t: Time)
    requires NoMemberships(start) && Consistent(events) && personId != ""
    ensures var (edges, person, team) :=
              (Replay(start, events, clock), PersonNode(personId), TeamNode(TeamAfter(events, personId)));
            MembershipsAt(Clipped(edges, person, team, until), person, t)
              == Spanning(Moves(events, personId), until, t)
    decreases |events|
  {
    if events == [] {
      NoMembershipsLive(start, PersonNode(personId), t);
    } else {
      var n := |events| - 1;
      var (before, c) := (events[..n], events[n]);
      NodeIdsInjective(c.personId, personId);
      NodeIdsInjective(c.previousTeam, c.newTeam);
      if c.personId == personId && c.previousTeam != c.newTeam {
        OwnMoveSpans(start, events, clock, until, t);
      } else {
        ReplaySpans(start, before, clock, personId, until, t);
        if c.personId != "" && c.previousTeam != c.newTeam {
          OtherMoveSpans(start, events, clock, personId, until, t);
        }
        NotMoved(events, personId);
      }
    }
  }

  lemma NotMoved(events: seq<Change>, personId: string)
    requires Consistent(events) && events != [] && personId != ""
    requires var c := events[|events| - 1]; c.personId != personId || c.previousTeam == c.newTeam
    ensures TeamAfter(events, personId) == TeamAfter(events[..|events| - 1], personId)
    ensures Moves(events, personId) == Moves(events[..|events| - 1], personId)
  {
  }

  lemma {:induction false} OwnMoveSpans(start: seq<Edge>, events: seq<Change>,
                                        clock: nat -> Time, until: Option<Time>, t: Time)
    requires NoMemberships(start) && Consistent(events) && events != []
    requires var c := events[|events| - 1]; c.personId != "" && c.previousTeam != c.newTeam
    ensures var c := events[|events| - 1];
            var (edges, person) := (Replay(start, events, clock), PersonNode(c.personId));
            MembershipsAt(Clipped(edges, person, TeamNode(c.newTeam), until), person, t)
              == Spanning(Moves(events, c.personId), until, t)
    decreases |events|, 0
  {
    var n := |events| - 1;
    var (before, c) := (events[..n], events[n]);
    var edges := Replay(start, before, clock);
    NodeIdsInjective(c.previousTeam, c.newTeam);
    ReplayOnlyOpen(start, before, clock, c.personId);
    ReplaySpans(start, before, clock, c.personId, Some(c.eventTime), t);
    MoveSpans(edges, PersonNode(c.personId), TeamNode(c.previousTeam), TeamNode(c.newTeam), c.eventTime, clock(n),
              until, t);
    OwnMoveAppended(events, until, t);
  }

  lemma OwnMoveAppended(events: seq<Change>, until: Option<Time>, t: Time)
    requires events != []
    requires var c := events[|events| - 1]; c.personId != "" && c.previousTeam != c.newTeam
    ensures var (before, c) := (events[..|events| - 1], events[|events| - 1]);
            Spanning(Moves(events, c.personId), until, t)
              == Spanning(Moves(before, c.personId), Some(c.eventTime), t)
                 + if c.eventTime <= t && (until.None? || t < until.value) then AsSeq(TeamNode(c.newTeam)) else []
  {
    var (before, c) := (events[..|events| - 1], events[|events| - 1]);
    assert Moves(events, c.personId) == Moves(before, c.personId) + [c];
    SpanAppended(Moves(before, c.personId), c, until, t);
  }

  lemma OtherMoveSpans(start: seq<Edge>, events: seq<Change>, clock: nat -> Time, personId: string,
                       until: Option<Time>, t: Time)
    requires events != []
    requires var c := events[|events| - 1]; c.personId != "" && c.personId != personId && c.previousTeam != c.newTeam
    ensures var (a, b) := (Replay(start, events[..|events| - 1], clock), Replay(start, events, clock));
            var (person, team) := (PersonNode(personId), TeamNode(TeamAfter(events, personId)));
            MembershipsAt(Clipped(b, person, team, until), person, t)
              == MembershipsAt(Clipped(a, person, team, until), person, t)
  {
    var n := |events| - 1;
    var c := events[n];
    var (a, b) := (Replay(start, events[..n], clock), Replay(start, events, clock));
    var (person, team) := (PersonNode(personId), TeamNode(TeamAfter(events, personId)));
    NodeIdsInjective(c.personId, personId);
    OthersUnaffected(a, PersonNode(c.personId), TeamNode(c.previousTeam), TeamNode(c.newTeam), c.eventTime, clock(n),
        person);
    SameForInvisible(person, a, b, t);
    if until.Some? {
      SameForOpen(person, a, b, team, until.value);
      SameForInvisible(person, Ended(a, person, team, until.value), Ended(b, person, team, until.value), t);
    }
  }

  /** Whatever the event times, the graph shows at t the teams of exactly those moves of the person that happened by t
      and were followed by one after t or by none. */
  lemma MembershipsExact(start: seq<Edge>, events: seq<Change>, clock: nat -> Time, personId: string, t: Time)
    requires NoMemberships(start) && Consistent(events) && personId != ""
    ensures MembershipsAt(Replay(start, events, clock), PersonNode(personId), t)
         == Spanning(Moves(events, personId), None, t)
  {
    ReplaySpans(start, events, clock, personId, None, t);
  }

  lemma SpansShorter(moves: seq<Change>, until: Option<Time>, k: nat, t: Time)
    requires k + 1 < |moves|
    ensures var n := |moves| - 1;
            Spans(moves, until, k, t) <==> Spans(moves[..n], Some(moves[n].eventTime), k, t)
  {
  }

  lemma {:induction false} OneSpans(moves: seq<Change>, until: Option<Time>, t: Time, l: int)
    requires forall k: nat :: Spans(moves, until, k, t) ==> k == l
    ensures Spanning(moves, until, t)
         == if 0 <= l && Spans(moves, until, l, t) then ["team:" + moves[l].newTeam] else []
    decreases |moves|
  {
    if moves != [] {
      var n := |moves| - 1;
      forall k: nat | Spans(moves[..n], Some(moves[n].eventTime), k, t)
        ensures k == l
      {
        SpansShorter(moves, until, k, t);
      }
      OneSpans(moves[..n], Some(moves[n].eventTime), t, l);
      if 0 <= l < n { SpansShorter(moves, until, l, t); }
    }
  }

  lemma {:induction false} SomeSpan(moves: seq<Change>, until: Option<Time>, t: Time, k: nat)
    requires Spans(moves, until, k, t)
    ensures |Spanning(moves, until, t)| >= 1
    ensures forall l: nat :: l > k && Spans(moves, until, l, t) ==> |Spanning(moves, until, t)| >= 2
    decreases |moves|
  {
    var n := |moves| - 1;
    if k < n {
      SpansShorter(moves, until, k, t);
      SomeSpan(moves[..n], Some(moves[n].eventTime), t, k);
      forall l: nat | l > k && Spans(moves, until, l, t) ensures |Spanning(moves, until, t)| >= 2 {
        if l < n { SpansShorter(moves, until, l, t); }
      }
    }
  }

  /** Move j comes in with a time before the end of the membership that move k began, which had lasted a while. */
  ghost predicate Late(moves: seq<Change>, k: nat, j: nat) {
    && k + 2 <= j < |moves| && moves[k].newTeam != ""
    && moves[k].eventTime < moves[k + 1].eventTime && moves[j].eventTime < moves[k + 1].eventTime
  }

  /** No move comes in with a time before the end of a membership that had lasted a while. */
  ghost predicate NoneLate(moves: seq<Change>) {
    forall k: nat, j: nat :: !Late(moves, k, j)
  }

  /** The last move by t, or -1. */
  function LastBy(moves: seq<Change>, t: Time): (l: int)
    ensures -1 <= l < |moves| && (l >= 0 ==> moves[l].eventTime <= t)
    ensures forall k :: l < k < |moves| ==> moves[k].eventTime > t
  {
    if moves == [] then -1
    else if moves[|moves| - 1].eventTime <= t then |moves| - 1
    else LastBy(moves[..|moves| - 1], t)
  }

  lemma {:induction false} TeamBy(moves: seq<Change>, personId: string, t: Time)
    requires forall k :: 0 <= k < |moves| ==> moves[k].personId == personId
    ensures TeamAfter(UpTo(moves, t), personId)
         == if LastBy(moves, t) >= 0 then moves[LastBy(moves, t)].newTeam else ""
  {
    if moves != [] {
      UpToLast(moves, personId, t);
      TeamBy(moves[..|moves| - 1], personId, t);
    }
  }

  lemma LastBySpans(moves: seq<Change>, t: Time)
    requires LastBy(moves, t) >= 0
    ensures Spans(moves, None, LastBy(moves, t), t) <==> moves[LastBy(moves, t)].newTeam != ""
  {
  }

  lemma NoneLateSpans(moves: seq<Change>, t: Time, k: nat)
    requires NoneLate(moves) && Spans(moves, None, k, t)
    ensures k == LastBy(moves, t)
  {
    assert k <= LastBy(moves, t);
    assert !Late(moves, k, LastBy(moves, t));
  }

  lemma LateSpans(moves: seq<Change>, k: nat, j: nat) returns (t: Time)
    requires Late(moves, k, j)
    ensures Spans(moves, None, k, t) && LastBy(moves, t) >= j
  {
    t := if moves[k].eventTime < moves[j].eventTime then moves[j].eventTime else moves[k].eventTime;
  }

  lemma LateShows(moves: seq<Change>, personId: string) returns (t: Time)
    requires !NoneLate(moves) && forall k :: 0 <= k < |moves| ==> moves[k].personId == personId
    ensures Spanning(moves, None, t) != AsSeq(TeamNode(TeamAfter(UpTo(moves, t), personId)))
  {
    var k: nat, j: nat :| Late(moves, k, j);
    t := LateSpans(moves, k, j);
    TwoAnswers(moves, personId, t, k);
  }

  lemma TwoAnswers(moves: seq<Change>, personId: string, t: Time, k: nat)
    requires Spans(moves, None, k, t) && k < LastBy(moves, t)
    requires forall k :: 0 <= k < |moves| ==> moves[k].personId == personId
    ensures Spanning(moves, None, t) != AsSeq(TeamNode(TeamAfter(UpTo(moves, t), personId)))
  {
    TeamBy(moves, personId, t);
    LastBySpans(moves, t);
    SomeSpan(moves, None, t, k);
  }

  /** The graph answers at every instant with the team of the last move by then exactly when no move comes late. */
  lemma PointInTimeIff(start: seq<Edge>, events: seq<Change>, clock: nat -> Time, personId: string)
    requires NoMemberships(start) && Consistent(events) && personId != ""
    ensures (forall t :: MembershipsAt(Replay(start, events, clock), PersonNode(personId), t)
                      == AsSeq(TeamNode(TeamAfter(UpTo(Moves(events, personId), t), personId))))
       <==> NoneLate(Moves(events, personId))
  {
    var (edges, moves) := (Replay(start, events, clock), Moves(events, personId));
    if NoneLate(moves) {
      forall t ensures MembershipsAt(edges, PersonNode(personId), t)
          == AsSeq(TeamNode(TeamAfter(UpTo(moves, t), personId))) {
        MembershipsExact(start, events, clock, personId, t);
        OnTime(moves, personId, t);
      }
    } else {
      var t := LateShows(moves, personId);
      MembershipsExact(start, events, clock, personId, t);
    }
  }

  lemma OnTime(moves: seq<Change>, personId: string, t: Time)
    requires NoneLate(moves) && forall k :: 0 <= k < |moves| ==> moves[k].personId == personId
    ensures Spanning(moves, None, t) == AsSeq(TeamNode(TeamAfter(UpTo(moves, t), personId)))
  {
    forall k: nat | Spans(moves, None, k, t) ensures k == LastBy(moves, t) { NoneLateSpans(moves, t, k); }
    OneSpans(moves, None, t, LastBy(moves, t));
    TeamBy(moves, personId, t);
    if LastBy(moves, t) >= 0 { LastBySpans(moves, t); }
  }

  /** A third move that comes in with a time before the second leaves the person in the first team and in the third,
      from then until the time of the second. */
  lemma LateEventShowsTwo(start: seq<Edge>, clock: nat -> Time, x: Change, y: Change, z: Change, t: Time)
    requires NoMemberships(start) && x.personId == y.personId == z.personId != ""
    requires x.previousTeam == "" != x.newTeam == y.previousTeam && y.newTeam == z.previousTeam
    requires x.newTeam != y.newTeam && y.newTeam != z.newTeam && z.newTeam != ""
    requires x.eventTime <= t && z.eventTime <= t < y.eventTime
    ensures Consistent([x, y, z])
    ensures MembershipsAt(Replay(start, [x, y, z], clock), PersonNode(x.personId), t)
         == ["team:" + x.newTeam, "team:" + z.newTeam]
  {
    ThreeMoves(x, y, z);
    MembershipsExact(start, [x, y, z], clock, x.personId, t);
    ThreeSpan(x, y, z, t);
  }

  lemma ThreeMoves(x: Change, y: Change, z: Change)
    requires x.personId == y.personId == z.personId != ""
    requires x.previousTeam == "" != x.newTeam == y.previousTeam && y.newTeam == z.previousTeam
    requires x.newTeam != y.newTeam && y.newTeam != z.newTeam
    ensures Consistent([x, y, z]) && Moves([x, y, z], x.personId) == [x, y, z]
  {
    var p := x.personId;
    assert [x, y, z] == [] + [x] + [y] + [z];
    EventAppended([], x, p);
    EventAppended([] + [x], y, p);
    EventAppended([] + [x] + [y], z, p);
  }

  lemma ThreeSpan(x: Change, y: Change, z: Change, t: Time)
    requires x.newTeam != "" && z.newTeam != "" && x.eventTime <= t && z.eventTime <= t < y.eventTime
    ensures Spanning([x, y, z], None, t) == ["team:" + x.newTeam, "team:" + z.newTeam]
  {
    assert [x, y, z] == [] + [x] + [y] + [z];
    SpanAppended([], x, Some(y.eventTime), t);
    SpanAppended([] + [x], y, Some(z.eventTime), t);
    SpanAppended([] + [x] + [y], z, None, t);
  }

  lemma EventAppended(events: seq<Change>, c: Change, personId: string)
    ensures TeamAfter(events + [c], personId)
         == if c.personId == personId then c.newTeam else TeamAfter(events, personId)
    ensures Moves(events + [c], personId)
         == Moves(events, personId) + if c.personId == personId && c.previousTeam != c.newTeam then [c] else []
    ensures Consistent(events + [c])
       <==> Consistent(events) && (c.personId != "" ==> c.previousTeam == TeamAfter(events, c.personId))
  {
    assert (events + [c])[..|events|] == events;
  }

  lemma SpanAppended(moves: seq<Change>, c: Change, until: Option<Time>, t: Time)
    ensures Spanning(moves + [c], until, t)
         == Spanning(moves, Some(c.eventTime), t)
            + (if c.newTeam != "" && c.eventTime <= t && (until.None? || t < until.value)
               then ["team:" + c.newTeam] else [])
  {
    assert (moves + [c])[..|moves|] == moves;
  }

  // ---------------------------------------------------------------------------------------------
  // Events that misname the previous team

  function AsSet(team: Option<string>): set<string> { if team.Some? then {team.value} else {} }

  ghost function OpenTeams(edges: seq<Edge>, person: string): set<string> {
    set i | 0 <= i < |edges| && edges[i].Open() && IsMembership(edges[i], person) :: edges[i].toId
  }

  lemma OpenTeamsAfterMove(edges: seq<Edge>, person: string, from: Option<string>, to: Option<string>, at: Time,
                           now: Time)
    ensures OpenTeams(Moved(edges, person, from, to, at, now), person)
         == OpenTeams(edges, person) - AsSet(from) + AsSet(to)
  {
    var closed := if from.Some? then CloseOpen(edges, EdgeKey(person, from.value, MemberOf), at) else edges;
    assert OpenTeams(closed, person) == OpenTeams(edges, person) - AsSet(from) by {
      forall t | t in OpenTeams(edges, person) && t !in AsSeq(from) ensures t in OpenTeams(closed, person) {
        var i :| 0 <= i < |edges| && edges[i].Open() && IsMembership(edges[i], person) && edges[i].toId == t;
        assert closed[i] == edges[i];
      }
    }
    if to.Some? {
      var e := Membership(person, to.value, at);
      var again := CloseOpen(closed, e.Key(), now);
      var all := again + [e];
      assert all[|again|] == e;
      forall t | t in OpenTeams(closed, person) && t != to.value ensures t in OpenTeams(all, person) {
        var i :| 0 <= i < |closed| && closed[i].Open() && IsMembership(closed[i], person) && closed[i].toId == t;
        assert all[i] == closed[i];
      }
      forall t | t in OpenTeams(all, person) && t != to.value ensures t in OpenTeams(closed, person) {
        var i :| 0 <= i < |all| && all[i].Open() && IsMembership(all[i], person) && all[i].toId == t;
        assert all[i] == closed[i];
      }
    }
  }

  /** The person ends up in the new team and no other exactly when the event names the current team as the
      previous one, or the person was in no team, or is in the new team already; in every other case the old
      membership stays open beside the new one, or the event is dropped. */
  lemma EventTakesEffectIff(edges: seq<Edge>, c: Change, now: Time, current: string)
    requires c.personId != "" && OpenTeams(edges, PersonNode(c.personId)) == AsSet(TeamNode(current))
    ensures OpenTeams(Handled(edges, c, now), PersonNode(c.personId)) == AsSet(TeamNode(c.newTeam))
        <==> c.newTeam == current || (c.previousTeam != c.newTeam && (c.previousTeam == current || current == ""))
  {
    var from, to, cur := TeamNode(c.previousTeam), TeamNode(c.newTeam), TeamNode(current);
    NodeIdsInjective(c.previousTeam, current);
    NodeIdsInjective(c.newTeam, current);
    NodeIdsInjective(c.previousTeam, c.newTeam);
    OpenTeamsAfterMove(edges, PersonNode(c.personId), from, to, c.eventTime, now);
    TakesEffect(from, to, cur);
  }

  lemma TakesEffect(from: Option<string>, to: Option<string>, cur: Option<string>)
    ensures AsSet(cur) - AsSet(from) + AsSet(to) == AsSet(to)
        <==> cur == to || cur == from || cur.None?
    ensures AsSet(cur) == AsSet(to) <==> cur == to
  {
    if cur.Some? && cur != to {
      assert cur.value !in AsSet(to);
      assert cur.value in AsSet(cur) - AsSet(from) + AsSet(to) <==> cur != from;
    }
    if cur == from || cur.None? || cur == to {
      assert AsSet(cur) - AsSet(from) + AsSet(to) == AsSet(to);
    }
    if cur.None? && to.Some? { assert to.value in AsSet(to); }
  }
}
