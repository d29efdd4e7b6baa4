/**
 * Attempts on one activity group that run side by side. Each reads the group and its link, later writes the whole group
 * from what it has read, and then inserts its link; nothing stops another attempt from writing in between.
 */
module GroupRaces {
  import opened Prelude
  import opened Seqs
  import opened Projection

  /** What an attempt has read, and how many writes there were before. */
  datatype Held = Held(group: Option<Group>, linked: bool, at: nat)

  /** The group's row, its linked events, what each attempt has read, and the attempts that have written, in order. */
  datatype Race = Race(group: Option<Group>, links: set<string>, held: map<nat, Held>, writes: seq<nat>)

  datatype Action = Read(attempt: nat) | Write(attempt: nat) | InsertLink(attempt: nat)

  /** An attempt that found its event counted writes nothing. */
  predicate Returns(h: Held) { h.group.Some? && h.linked }

  predicate Writes(r: Race, a: Action) { a.Write? && a.attempt in r.held && !Returns(r.held[a.attempt]) }

  function Next(r: Race, events: nat -> Event, a: Action): Race {
    match a
    case Read(i) => r.(held := r.held[i := Held(r.group, events(i).id in r.links, |r.writes|)])
    case Write(i) =>
      if !Writes(r, a) then r
      else r.(group := Some(NextGroup(r.held[i].group, r.held[i].linked, events(i))), writes := r.writes + [i])
    case InsertLink(i) => if i in r.writes then r.(links := r.links + {events(i).id}) else r
  }

  function Race0(group: Option<Group>, links: set<string>): Race { Race(group, links, map[], []) }

  function Run(r: Race, events: nat -> Event, actions: seq<Action>): Race {
    if actions == [] then r else Next(Run(r, events, actions[..|actions| - 1]), events, actions[|actions| - 1])
  }

  /** The attempt writes although another has written since it read. */
  predicate Overtaken(r: Race, a: Action) { Writes(r, a) && r.held[a.attempt].at < |r.writes| }

  predicate NeverOvertaken(r: Race, events: nat -> Event, actions: seq<Action>) {
    actions == [] ||
      var front, last := actions[..|actions| - 1], actions[|actions| - 1];
      NeverOvertaken(r, events, front) && !Overtaken(Run(r, events, front), last)
  }

  function Count(g: Option<Group>): nat { if g.None? then 0 else g.value.count }

  /** The group as attempts leave it that come one after another. */
  function InTurn(g: Option<Group>, events: nat -> Event, writes: seq<nat>): Option<Group> {
    if writes == [] then g
    else Some(NextGroup(InTurn(g, events, writes[..|writes| - 1]), false, events(writes[|writes| - 1])))
  }

  lemma {:induction false} InTurnCounts(g: Option<Group>, events: nat -> Event, writes: seq<nat>)
    ensures Count(InTurn(g, events, writes)) == Count(g) + |writes|
    decreases |writes|
  {
    if writes != [] {
      InTurnCounts(g, events, writes[..|writes| - 1]);
    }
  }

  /** What every attempt holds is no newer than the row, and the row itself if nothing was written since. */
  ghost predicate HoldsPast(r: Race, base: nat) {
    forall i <- r.held :: r.held[i].at <= |r.writes| && Count(r.held[i].group) <= base + r.held[i].at
                          && (r.held[i].at == |r.writes| ==> r.held[i].group == r.group)
  }

  lemma {:induction false} NextCounts(r: Race, events: nat -> Event, a: Action, base: nat)
    requires HoldsPast(r, base) && Count(r.group) <= base + |r.writes|
    ensures var s := Next(r, events, a);
            && HoldsPast(s, base) && Count(s.group) <= base + |s.writes|
            && (Count(s.group) == base + |s.writes| <==> Count(r.group) == base + |r.writes| && !Overtaken(r, a))
  {
    if Writes(r, a) {
      var h := r.held[a.attempt];
      assert Count(Next(r, events, a).group) == Count(h.group) + 1;
    }
  }

  lemma {:induction false} RaceCounts(g: Option<Group>, links: set<string>, events: nat -> Event, actions: seq<Action>)
    ensures var r := Run(Race0(g, links), events, actions);
            && HoldsPast(r, Count(g)) && Count(r.group) <= Count(g) + |r.writes|
            && (Count(r.group) == Count(g) + |r.writes| <==> NeverOvertaken(Race0(g, links), events, actions))
    decreases |actions|
  {
    if actions != [] {
      var front, last := actions[..|actions| - 1], actions[|actions| - 1];
      RaceCounts(g, links, events, front);
      NextCounts(Run(Race0(g, links), events, front), events, last, Count(g));
    }
  }

  lemma {:induction false} FreshRace(g: Option<Group>, links: set<string>, events: nat -> Event, actions: seq<Action>)
    requires NeverOvertaken(Race0(g, links), events, actions)
    ensures var r := Run(Race0(g, links), events, actions); r.group == InTurn(g, events, r.writes)
    decreases |actions|
  {
    if actions != [] {
      var front, last := actions[..|actions| - 1], actions[|actions| - 1];
      var r := Run(Race0(g, links), events, front);
      FreshRace(g, links, events, front);
      RaceCounts(g, links, events, front);
      if Writes(r, last) {
        assert (r.writes + [last.attempt])[..|r.writes|] == r.writes;
      }
    }
  }

  /**
   * However the attempts interleave: the group counts each write, and is what the attempts leave when they come one
   * after another in the order of their writes, exactly when none of them was overtaken between its read and its write.
   */
  lemma {:induction false} RaceIsInTurnExactlyWhen(g: Option<Group>, links: set<string>, events: nat -> Event,
                                                   actions: seq<Action>)
    ensures var r := Run(Race0(g, links), events, actions);
            && (r.group == InTurn(g, events, r.writes) <==> NeverOvertaken(Race0(g, links), events, actions))
            && (Count(r.group) == Count(g) + |r.writes| <==> NeverOvertaken(Race0(g, links), events, actions))
  {
    var r := Run(Race0(g, links), events, actions);
    RaceCounts(g, links, events, actions);
    InTurnCounts(g, events, r.writes);
    if NeverOvertaken(Race0(g, links), events, actions) {
      FreshRace(g, links, events, actions);
    }
  }

  // ---- in turn is what a replay does ----

  function Attempts(events: nat -> Event, writes: seq<nat>): seq<Attempt> {
    Map((i: nat) => Attempt(events(i), AfterLink), writes)
  }

  ghost predicate NewEvents(t: Tables, id: string, events: nat -> Event, writes: seq<nat>) {
    && (forall k :: 0 <= k < |writes| ==> events(writes[k]).groupId == id && !Linked(t, events(writes[k])))
    && (forall j, k :: 0 <= j < k < |writes| ==> events(writes[j]).id != events(writes[k]).id)
  }

  function LinksOf(id: string, events: nat -> Event, writes: seq<nat>): set<Link> {
    if writes == [] then {}
    else LinksOf(id, events, writes[..|writes| - 1]) + {Link(id, events(writes[|writes| - 1]).id)}
  }

  lemma {:induction false} OtherLinks(id: string, events: nat -> Event, writes: seq<nat>, event: string)
    requires forall k :: 0 <= k < |writes| ==> events(writes[k]).id != event
    ensures Link(id, event) !in LinksOf(id, events, writes)
    decreases |writes|
  {
    if writes != [] {
      OtherLinks(id, events, writes[..|writes| - 1], event);
    }
  }

  lemma {:induction false} NewAttempt(t: Tables, e: Event)
    requires !Linked(t, e)
    ensures var r := Project(t, e, AfterLink);
            && Existing(r, e.groupId) == Some(NextGroup(Existing(t, e.groupId), false, e))
            && r.links == t.links + {Link(e.groupId, e.id)}
  {
  }

  /** For different events not linked before: a replay of uninterrupted attempts leaves the group they leave in turn. */
  lemma {:induction false} InTurnIsReplay(t: Tables, id: string, events: nat -> Event, writes: seq<nat>)
    requires NewEvents(t, id, events, writes)
    ensures var r := Replay(t, Attempts(events, writes));
            Existing(r, id) == InTurn(Existing(t, id), events, writes)
            && r.links == t.links + LinksOf(id, events, writes)
    decreases |writes|
  {
    if writes == [] {
      assert Attempts(events, writes) == [];
    } else {
      var front, last := writes[..|writes| - 1], writes[|writes| - 1];
      InTurnIsReplay(t, id, events, front);
      AttemptsSnoc(events, writes);
      ReplaySnoc(t, Attempts(events, front), Attempt(events(last), AfterLink));
      OtherLinks(id, events, front, events(last).id);
      NewAttempt(Replay(t, Attempts(events, front)), events(last));
    }
  }

  lemma AttemptsSnoc(events: nat -> Event, writes: seq<nat>)
    requires writes != []
    ensures Attempts(events, writes)
            == Attempts(events, writes[..|writes| - 1]) + [Attempt(events(writes[|writes| - 1]), AfterLink)]
  {
  }

  // ---- an attempt alone is one of the projection ----

  lemma RunSnoc(r: Race, events: nat -> Event, actions: seq<Action>, a: Action)
    ensures Run(r, events, actions + [a]) == Next(Run(r, events, actions), events, a)
  {
    assert (actions + [a])[..|actions|] == actions;
  }

  lemma {:induction false} RunOfThree(r: Race, events: nat -> Event, a: Action, b: Action, c: Action)
    ensures Run(r, events, [a, b]) == Next(Next(r, events, a), events, b)
    ensures Run(r, events, [a, b, c]) == Next(Next(Next(r, events, a), events, b), events, c)
  {
    assert [a] == [] + [a] && [a, b] == [a] + [b] && [a, b, c] == [a, b] + [c];
    RunSnoc(r, events, [], a);
    RunSnoc(r, events, [a], b);
    RunSnoc(r, events, [a, b], c);
  }

  lemma {:induction false} RunOfFour(r: Race, events: nat -> Event, a: Action, b: Action, c: Action, d: Action)
    ensures Run(r, events, [a, b, c, d]) == Next(Next(Next(Next(r, events, a), events, b), events, c), events, d)
  {
    assert [a, b, c, d] == [a, b, c] + [d];
    RunOfThree(r, events, a, b, c);
    RunSnoc(r, events, [a, b, c], d);
  }

  ghost function LinkedTo(t: Tables, id: string): set<string> { set l | l in t.links && l.group == id :: l.event }

  /** Read, write and link without anyone in between, as far as the cut allows: the upsert of one attempt. */
  lemma {:induction false} AloneIsUpsert(t: Tables, e: Event, events: nat -> Event)
    requires events(0) == e
    ensures var id, r := e.groupId, Run(Race0(Existing(t, e.groupId), LinkedTo(t, e.groupId)), events,
                                        [Read(0), Write(0), InsertLink(0)]);
            r.group == Existing(UpsertGroup(t, e, AfterLink), id)
            && r.links == LinkedTo(UpsertGroup(t, e, AfterLink), id)
    ensures var id, r := e.groupId, Run(Race0(Existing(t, e.groupId), LinkedTo(t, e.groupId)), events,
                                        [Read(0), Write(0)]);
            r.group == Existing(UpsertGroup(t, e, AfterUpsert), id)
            && r.links == LinkedTo(UpsertGroup(t, e, AfterUpsert), id)
  {
    var r := Race0(Existing(t, e.groupId), LinkedTo(t, e.groupId));
    RunOfThree(r, events, Read(0), Write(0), InsertLink(0));
    assert Link(e.groupId, e.id) in t.links <==> e.id in r.links;
    LinkedToSnoc(t, e);
  }

  lemma LinkedToSnoc(t: Tables, e: Event)
    ensures LinkedTo(t.(links := t.links + {Link(e.groupId, e.id)}), e.groupId) == LinkedTo(t, e.groupId) + {e.id}
  {
    var more := t.(links := t.links + {Link(e.groupId, e.id)});
    forall x ensures x in LinkedTo(more, e.groupId) <==> x in LinkedTo(t, e.groupId) || x == e.id {
      if x == e.id {
        assert Link(e.groupId, e.id) in more.links;
      }
      if x in LinkedTo(t, e.groupId) {
        var l :| l in t.links && l.group == e.groupId && l.event == x;
        assert l in more.links;
      }
    }
  }

  // ---- an attempt that is lost ----

  /**
   * Two attempts that both read before either writes: the kind of the first to write is lost, and it is not counted.
   */
  lemma {:induction false} OvertakenAttemptIsLost(events: nat -> Event)
    requires events(0).kind != events(1).kind
    ensures var r := Run(Race0(None, {}), events, [Read(0), Read(1), Write(0), Write(1)]);
            && r.group == Some(NextGroup(None, false, events(1))) && r.writes == [0, 1]
            && events(0).kind !in r.group.value.kinds && r.group.value.count == 1
  {
    RunOfFour(Race0(None, {}), events, Read(0), Read(1), Write(0), Write(1));
  }
}
