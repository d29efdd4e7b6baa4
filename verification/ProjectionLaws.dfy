/**
 * What the projected tables hold after any sequence of attempts, told from the attempts alone:
 * which reached their group, which linked their event and which were cut off in between.
 */
module ProjectionLaws {
  import opened Prelude
  import opened Seqs
  import opened Projection

  function After(attempts: seq<Attempt>): Tables { Replay(EMPTY_TABLES, attempts) }

  /** Rows of the log are immutable: one id is one event. */
  ghost predicate OneEventPerId(attempts: seq<Attempt>) {
    forall a, b :: a in attempts && b in attempts && a.event.id == b.event.id ==> a.event == b.event
  }

  /** The attempt got as far as the group of `g`. */
  predicate Reaches(a: Attempt, g: string) { a.event.groupId == g && !a.cut.BeforeUpsert? }

  predicate LinksTo(a: Attempt, g: string) { a.event.groupId == g && Links(a.cut) }

  function REACHING(g: string): Attempt -> bool { (a: Attempt) => Reaches(a, g) }

  function Reaching(attempts: seq<Attempt>, g: string): seq<Attempt> { Filter(REACHING(g), attempts) }

  /** The events that some attempt linked to the group. */
  ghost function LinkedIds(attempts: seq<Attempt>, g: string): set<string> {
    set a | a in attempts && LinksTo(a, g) :: a.event.id
  }

  /** Attempts cut off between the group upsert and the link insert, on an event not linked before. */
  ghost function CutOffs(attempts: seq<Attempt>, g: string): nat
    decreases |attempts|
  {
    if attempts == [] then 0 else
      var front, last := attempts[..|attempts| - 1], attempts[|attempts| - 1];
      CutOffs(front, g) +
      if Reaches(last, g) && !LinksTo(last, g) && last.event.id !in LinkedIds(front, g) then 1 else 0
  }

  /** The links of a group in the table. */
  ghost function LinksOf(t: Tables, g: string): set<string> {
    set l | l in t.links && l.group == g :: l.event
  }

  lemma Snoc(attempts: seq<Attempt>) returns (front: seq<Attempt>, last: Attempt)
    requires attempts != []
    ensures attempts == front + [last]
    ensures front == attempts[..|attempts| - 1] && last == attempts[|attempts| - 1]
    ensures After(attempts) == Project(After(front), last.event, last.cut)
    ensures OneEventPerId(attempts) ==> OneEventPerId(front)
    ensures forall g :: Reaching(attempts, g) == Reaching(front, g) + if Reaches(last, g) then [last] else []
    ensures forall g :: LinkedIds(attempts, g) == LinkedIds(front, g) + if LinksTo(last, g) then {last.event.id} else {}
  {
    front, last := attempts[..|attempts| - 1], attempts[|attempts| - 1];
    assert attempts == front + [last];
    ReplaySnoc(EMPTY_TABLES, front, last);
    forall g ensures Reaching(attempts, g) == Reaching(front, g) + if Reaches(last, g) then [last] else [] {
      FilterSnoc(REACHING(g), front, last);
    }
    assert forall a :: a in attempts <==> a in front || a == last;
  }

  /** A group exists exactly when an attempt reached it; its links are exactly the linked events. */
  lemma {:induction false} GroupsAndLinks(attempts: seq<Attempt>, g: string)
    ensures g in After(attempts).groups <==> Reaching(attempts, g) != []
    ensures forall id :: Link(g, id) in After(attempts).links <==> id in LinkedIds(attempts, g)
    ensures LinkedIds(attempts, g) != {} ==> Reaching(attempts, g) != []
    decreases |attempts|
  {
    if attempts != [] {
      var front, last := Snoc(attempts);
      GroupsAndLinks(front, g);
      GroupsAndLinks(front, last.event.groupId);
      if LinksTo(last, g) {
        assert Reaches(last, g);
      }
    }
  }

  lemma LinksOfGroup(attempts: seq<Attempt>, g: string)
    ensures LinksOf(After(attempts), g) == LinkedIds(attempts, g)
  {
    GroupsAndLinks(attempts, g);
    forall id ensures id in LinksOf(After(attempts), g) <==> id in LinkedIds(attempts, g) {
      assert Link(g, id) in After(attempts).links <==> id in LinkedIds(attempts, g);
      if id in LinksOf(After(attempts), g) {
        var l :| l in After(attempts).links && l.group == g && l.event == id;
        assert l == Link(g, id);
      }
      if Link(g, id) in After(attempts).links {
        assert Link(g, id).group == g && Link(g, id).event == id;
      }
    }
  }

  /** event_count is the number of links plus the number of attempts cut off before their link. */
  lemma {:induction false} CountIsLinksPlusCutOffs(attempts: seq<Attempt>, g: string)
    requires g in After(attempts).groups
    ensures After(attempts).groups[g].count == |LinksOf(After(attempts), g)| + CutOffs(attempts, g)
  {
    CountByAttempts(attempts, g);
    LinksOfGroup(attempts, g);
  }

  lemma {:induction false} CountByAttempts(attempts: seq<Attempt>, g: string)
    ensures g in After(attempts).groups
            ==> After(attempts).groups[g].count == |LinkedIds(attempts, g)| + CutOffs(attempts, g)
    ensures g !in After(attempts).groups ==> |LinkedIds(attempts, g)| + CutOffs(attempts, g) == 0
    decreases |attempts|
  {
    if attempts != [] {
      var front, last := Snoc(attempts);
      CountByAttempts(front, g);
      if last.event.groupId == g {
        LinkedMeans(front, last.event);
        CountLast(front, last, g);
      } else {
        OtherGroupKept(After(front), last.event, last.cut, g);
      }
    }
  }

  lemma OtherGroupKept(t: Tables, e: Event, cut: Cut, g: string)
    requires e.groupId != g
    ensures g in Project(t, e, cut).groups <==> g in t.groups
    ensures g in t.groups ==> Project(t, e, cut).groups[g] == t.groups[g]
  {
  }

  lemma CountLast(front: seq<Attempt>, last: Attempt, g: string)
    requires last.event.groupId == g && Counted(front, g)
    requires Linked(After(front), last.event) <==> last.event.id in LinkedIds(front, g)
    requires Linked(After(front), last.event) ==> g in After(front).groups
    ensures var t := Project(After(front), last.event, last.cut);
            var count := if g in t.groups then t.groups[g].count else 0;
            count == |LinkedIds(front, g) + if LinksTo(last, g) then {last.event.id} else {}| + CutOffs(front, g)
                     + (if Reaches(last, g) && !LinksTo(last, g) && last.event.id !in LinkedIds(front, g) then 1 else 0)
  {
    var ids := LinkedIds(front, g);
    assert ids + {} == ids;
    if last.event.id in ids {
      CountStepLinked(front, last, g);
      assert ids + {last.event.id} == ids;
    } else {
      CountStepNew(front, last, g);
    }
  }

  lemma LinkedMeans(front: seq<Attempt>, e: Event)
    ensures Linked(After(front), e) <==> e.id in LinkedIds(front, e.groupId)
    ensures Linked(After(front), e) ==> e.groupId in After(front).groups
  {
    GroupsAndLinks(front, e.groupId);
    assert Link(e.groupId, e.id) in After(front).links <==> e.id in LinkedIds(front, e.groupId);
  }

  ghost predicate Counted(attempts: seq<Attempt>, g: string) {
    var before := if g in After(attempts).groups then After(attempts).groups[g].count else 0;
    before == |LinkedIds(attempts, g)| + CutOffs(attempts, g)
  }

  lemma {:induction false} CountStepLinked(front: seq<Attempt>, last: Attempt, g: string)
    requires last.event.groupId == g && last.event.id in LinkedIds(front, g) && Counted(front, g)
    requires Linked(After(front), last.event) && g in After(front).groups
    ensures var t := Project(After(front), last.event, last.cut);
            g in t.groups && t.groups[g].count == |LinkedIds(front, g)| + CutOffs(front, g)
  {
  }

  lemma {:induction false} CountStepNew(front: seq<Attempt>, last: Attempt, g: string)
    requires last.event.groupId == g && last.event.id !in LinkedIds(front, g) && Counted(front, g)
    requires !Linked(After(front), last.event)
    ensures var t := Project(After(front), last.event, last.cut);
            var count := if g in t.groups then t.groups[g].count else 0;
            count == |LinkedIds(front, g)| + CutOffs(front, g) + if Reaches(last, g) then 1 else 0
  {
  }

  // ---- what a group says about its events ----

  const KIND: Attempt -> string := (a: Attempt) => a.event.kind

  function EntitiesOf(e: Event): seq<Entity> { [e.subject] + e.related }

  function AllEntities(reaching: seq<Attempt>): seq<Entity>
    decreases |reaching|
  {
    if reaching == [] then [] else AllEntities(reaching[..|reaching| - 1]) + EntitiesOf(reaching[|reaching| - 1].event)
  }

  function Highest(reaching: seq<Attempt>): Severity
    requires reaching != []
    decreases |reaching|
  {
    var last := reaching[|reaching| - 1].event.severity;
    if |reaching| == 1 then last else MaxSeverity(Highest(reaching[..|reaching| - 1]), last)
  }

  ghost predicate Summarises(group: Group, reaching: seq<Attempt>) {
    && reaching != []
    && group.kinds == Firsts(Map(KIND, reaching))
    && group.severity == Highest(reaching)
    && group.related == UniqueEntities(AllEntities(reaching))
    && group.primaryKind == reaching[0].event.subject.kind && group.primaryId == reaching[0].event.subject.id
    && group.firstAt == reaching[0].event.occurredAt
  }

  lemma {:induction false} HighestBounds(reaching: seq<Attempt>)
    requires reaching != []
    ensures forall a <- reaching :: Rank(a.event.severity) <= Rank(Highest(reaching))
    ensures exists a :: a in reaching && a.event.severity == Highest(reaching)
    decreases |reaching|
  {
    var front, last := reaching[..|reaching| - 1], reaching[|reaching| - 1];
    assert reaching == front + [last];
    if front != [] {
      HighestBounds(front);
      var a :| a in front && a.event.severity == Highest(front);
      assert a in reaching && last in reaching;
    }
  }

  lemma UniqueSnoc(es: seq<Entity>, e: Entity)
    ensures UniqueEntities(es + [e]) ==
            if e.id == "" || HasKeyIn(UniqueEntities(es), EntityKey(e)) then UniqueEntities(es)
            else UniqueEntities(es) + [e]
  {
    assert (es + [e])[..|es|] == es;
  }

  lemma {:induction false} UniqueIdle(es: seq<Entity>)
    requires (forall i :: 0 <= i < |es| ==> es[i].id != "")
    requires forall i, j :: 0 <= i < j < |es| ==> EntityKey(es[i]) != EntityKey(es[j])
    ensures UniqueEntities(es) == es
    decreases |es|
  {
    if es != [] {
      UniqueIdle(es[..|es| - 1]);
      assert es == es[..|es| - 1] + [es[|es| - 1]];
    }
  }

  lemma UniqueSnocAgrees(l: seq<Entity>, r: seq<Entity>, e: Entity)
    requires UniqueEntities(l) == UniqueEntities(r)
    ensures UniqueEntities(l + [e]) == UniqueEntities(r + [e])
  {
    UniqueSnoc(l, e);
    UniqueSnoc(r, e);
  }

  /** Merging into an already unique list is uniqueness of the whole. */
  lemma {:induction false} UniqueConcat(a: seq<Entity>, b: seq<Entity>)
    ensures UniqueEntities(UniqueEntities(a) + b) == UniqueEntities(a + b)
    decreases |b|
  {
    var ua := UniqueEntities(a);
    if b == [] {
      assert a + b == a && ua + b == ua;
      UniqueIdle(ua);
    } else {
      var front, last := b[..|b| - 1], b[|b| - 1];
      UniqueConcat(a, front);
      UniqueSnocAgrees(a + front, ua + front, last);
      ConcatSnoc(a, b);
      ConcatSnoc(ua, b);
    }
  }

  /** Some entity with an id has the key. */
  ghost predicate Names(es: seq<Entity>, key: string) {
    exists i :: 0 <= i < |es| && es[i].id != "" && EntityKey(es[i]) == key
  }

  /** Exactly the keys of the entities with an id are kept. */
  lemma {:induction false} UniqueKeys(es: seq<Entity>, key: string)
    ensures HasKeyIn(UniqueEntities(es), key) <==> Names(es, key)
    decreases |es|
  {
    if es != [] {
      var front, last := es[..|es| - 1], es[|es| - 1];
      assert es == front + [last];
      UniqueKeys(front, key);
      NamesConcat(front, [last], key);
      if last.id != "" && !HasKeyIn(UniqueEntities(front), EntityKey(last)) {
        KeysSnoc(UniqueEntities(front), last);
      }
      assert Names([last], key) <==> [last][0].id != "" && EntityKey([last][0]) == key;
    }
  }

  lemma NamesConcat(a: seq<Entity>, b: seq<Entity>, key: string)
    ensures Names(a + b, key) <==> Names(a, key) || Names(b, key)
  {
    var all := a + b;
    if i :| 0 <= i < |a| && a[i].id != "" && EntityKey(a[i]) == key {
      assert all[i] == a[i];
    }
    if i :| 0 <= i < |b| && b[i].id != "" && EntityKey(b[i]) == key {
      assert all[|a| + i] == b[i];
    }
  }

  /** Entities whose keys are all present add nothing. */
  lemma {:induction false} UniqueAbsorbs(es: seq<Entity>, more: seq<Entity>)
    requires forall i :: 0 <= i < |more| ==> more[i].id == "" || HasKeyIn(UniqueEntities(es), EntityKey(more[i]))
    ensures UniqueEntities(es + more) == UniqueEntities(es)
    decreases |more|
  {
    if more == [] {
      assert es + more == es;
    } else {
      var front, last := more[..|more| - 1], more[|more| - 1];
      UniqueAbsorbs(es, front);
      assert es + more == (es + front) + [last];
      UniqueSnoc(es + front, last);
    }
  }

  ghost predicate NamedByOne(reaching: seq<Attempt>, key: string) {
    exists a :: a in reaching && Names(EntitiesOf(a.event), key)
  }

  lemma {:induction false} NamedByEvents(reaching: seq<Attempt>, key: string)
    ensures Names(AllEntities(reaching), key) <==> NamedByOne(reaching, key)
    decreases |reaching|
  {
    if reaching != [] {
      var front, last := reaching[..|reaching| - 1], reaching[|reaching| - 1];
      assert reaching == front + [last];
      NamedByEvents(front, key);
      NamesConcat(AllEntities(front), EntitiesOf(last.event), key);
      assert last in reaching;
    }
  }

  lemma SnocParts(reaching: seq<Attempt>, a: Attempt)
    ensures AllEntities(reaching + [a]) == AllEntities(reaching) + EntitiesOf(a.event)
    ensures Highest(reaching + [a]) == if reaching == [] then a.event.severity
                                       else MaxSeverity(Highest(reaching), a.event.severity)
    ensures Firsts(Map(KIND, reaching + [a])) ==
            if a.event.kind in Firsts(Map(KIND, reaching)) then Firsts(Map(KIND, reaching))
            else Firsts(Map(KIND, reaching)) + [a.event.kind]
  {
    assert (reaching + [a])[..|reaching|] == reaching;
    assert Map(KIND, reaching + [a]) == Map(KIND, reaching) + [KIND(a)];
    FirstsSnoc(Map(KIND, reaching), KIND(a));
  }

  /** An attempt on an event that already reached the group changes no summary. */
  lemma EntitiesAbsorbed(reaching: seq<Attempt>, b: Attempt)
    requires b in reaching
    ensures UniqueEntities(AllEntities(reaching) + EntitiesOf(b.event)) == UniqueEntities(AllEntities(reaching))
  {
    var es := EntitiesOf(b.event);
    forall k | 0 <= k < |es| && es[k].id != ""
      ensures HasKeyIn(UniqueEntities(AllEntities(reaching)), EntityKey(es[k])) {
      assert Names(es, EntityKey(es[k]));
      NamedByEvents(reaching, EntityKey(es[k]));
      UniqueKeys(AllEntities(reaching), EntityKey(es[k]));
    }
    UniqueAbsorbs(AllEntities(reaching), es);
  }

  lemma KindAbsorbed(reaching: seq<Attempt>, b: Attempt)
    requires b in reaching
    ensures b.event.kind in Firsts(Map(KIND, reaching))
  {
    var i :| 0 <= i < |reaching| && reaching[i] == b;
    assert Map(KIND, reaching)[i] == b.event.kind;
  }

  lemma SummaryAbsorbs(group: Group, reaching: seq<Attempt>, a: Attempt)
    requires Summarises(group, reaching)
    requires exists b :: b in reaching && b.event == a.event
    ensures Summarises(group, reaching + [a])
  {
    var b :| b in reaching && b.event == a.event;
    SnocParts(reaching, a);
    HighestBounds(reaching);
    KindAbsorbed(reaching, b);
    EntitiesAbsorbed(reaching, b);
  }

  lemma KindsExtend(kinds: seq<string>, reaching: seq<Attempt>, a: Attempt)
    requires kinds == Firsts(Map(KIND, reaching))
    ensures Firsts(kinds + [a.event.kind]) == Firsts(Map(KIND, reaching + [a]))
  {
    SnocParts(reaching, a);
    FirstsSnoc(kinds, a.event.kind);
    FirstsIdle(kinds);
  }

  lemma SummaryExtends(group: Group, reaching: seq<Attempt>, a: Attempt, linked: bool)
    requires Summarises(group, reaching)
    ensures Summarises(NextGroup(Some(group), linked, a.event), reaching + [a])
  {
    KindsExtend(group.kinds, reaching, a);
    SnocParts(reaching, a);
    UniqueConcat(AllEntities(reaching), EntitiesOf(a.event));
  }

  lemma {:induction false} FirstsIdle(ks: seq<string>)
    requires forall i, j :: 0 <= i < j < |ks| ==> ks[i] != ks[j]
    ensures Firsts(ks) == ks
    decreases |ks|
  {
    if ks != [] {
      FirstsIdle(ks[..|ks| - 1]);
      FirstsSnoc(ks[..|ks| - 1], ks[|ks| - 1]);
      assert ks == ks[..|ks| - 1] + [ks[|ks| - 1]];
    }
  }

  lemma SummaryStarts(a: Attempt)
    ensures Summarises(NextGroup(None, false, a.event), [a])
    ensures Summarises(NextGroup(None, true, a.event), [a])
  {
    SnocParts([], a);
    assert [] + [a] == [a];
    assert AllEntities([]) + EntitiesOf(a.event) == EntitiesOf(a.event);
  }

  /** An event that is linked was reached by an earlier attempt on the same event. */
  lemma LinkedWasReached(attempts: seq<Attempt>, e: Event)
    requires Linked(After(attempts), e)
    ensures exists b :: b in Reaching(attempts, e.groupId) && b.event.id == e.id
  {
    GroupsAndLinks(attempts, e.groupId);
    assert e.id in LinkedIds(attempts, e.groupId);
    var b :| b in attempts && LinksTo(b, e.groupId) && b.event.id == e.id;
    assert Reaches(b, e.groupId);
  }

  /** Every group summarises exactly the attempts that reached it, whatever was replayed, rewound or cut off. */
  lemma {:induction false} GroupSummarisesItsEvents(attempts: seq<Attempt>, g: string)
    requires OneEventPerId(attempts) && g in After(attempts).groups
    ensures Summarises(After(attempts).groups[g], Reaching(attempts, g))
    decreases |attempts|
  {
    var front, last := Snoc(attempts);
    GroupsAndLinks(attempts, g);
    GroupsAndLinks(front, g);
    var before := After(front);
    if g in before.groups {
      GroupSummarisesItsEvents(front, g);
    }
    if Reaches(last, g) {
      if AlreadyCounted(before, last.event) {
        LinkedWasReached(front, last.event);
        var b :| b in Reaching(front, g) && b.event.id == last.event.id;
        assert b in attempts && last in attempts;
        SummaryAbsorbs(before.groups[g], Reaching(front, g), last);
      } else if g in before.groups {
        SummaryExtends(before.groups[g], Reaching(front, g), last, Linked(before, last.event));
      } else {
        SummaryStarts(last);
        assert Reaching(front, g) + [last] == [last];
      }
    } else {
      assert Reaching(front, g) + [] == Reaching(front, g);
    }
  }

  /**
   * The same as sets: the event types, the maximal severity and the entity keys of the events that reached the group.
   */
  lemma GroupIsExactlyItsEvents(attempts: seq<Attempt>, g: string)
    requires OneEventPerId(attempts) && g in After(attempts).groups
    ensures var group := After(attempts).groups[g];
            && (forall k :: k in group.kinds <==> exists a :: a in attempts && Reaches(a, g) && a.event.kind == k)
            && (forall a :: a in attempts && Reaches(a, g) ==> Rank(a.event.severity) <= Rank(group.severity))
            && (exists a :: a in attempts && Reaches(a, g) && a.event.severity == group.severity)
            && (forall i, j ::
                  0 <= i < j < |group.related| ==> EntityKey(group.related[i]) != EntityKey(group.related[j]))
            && (forall key :: HasKeyIn(group.related, key) <==>
                 exists a :: a in attempts && Reaches(a, g) && Names(EntitiesOf(a.event), key))
  {
    var group, reaching := After(attempts).groups[g], Reaching(attempts, g);
    GroupSummarisesItsEvents(attempts, g);
    HighestBounds(reaching);
    forall k ensures k in group.kinds <==> exists a :: a in attempts && Reaches(a, g) && a.event.kind == k {
      KindsAreMembers(reaching, k);
      if a :| a in attempts && Reaches(a, g) && a.event.kind == k {
        assert a in reaching;
      }
    }
    var top :| top in reaching && top.event.severity == Highest(reaching);
    assert top in attempts && Reaches(top, g);
    forall key ensures HasKeyIn(group.related, key) <==>
      exists a :: a in attempts && Reaches(a, g) && Names(EntitiesOf(a.event), key)
    {
      UniqueKeys(AllEntities(reaching), key);
      NamedByEvents(reaching, key);
      if a :| a in attempts && Reaches(a, g) && Names(EntitiesOf(a.event), key) {
        assert a in reaching;
      }
    }
  }

  lemma KindsAreMembers(reaching: seq<Attempt>, k: string)
    ensures k in Map(KIND, reaching) <==> exists a :: a in reaching && a.event.kind == k
  {
    if k in Map(KIND, reaching) {
      var i :| 0 <= i < |reaching| && Map(KIND, reaching)[i] == k;
      assert reaching[i] in reaching;
    }
    if a :| a in reaching && a.event.kind == k {
      var i :| 0 <= i < |reaching| && reaching[i] == a;
      assert Map(KIND, reaching)[i] == k;
    }
  }

  // ---- workspace updates ----

  lemma LinkedKindPresent(attempts: seq<Attempt>, e: Event)
    requires OneEventPerId(attempts) && Linked(After(attempts), e)
    requires forall a <- attempts :: a.event.id == e.id ==> a.event == e
    ensures e.groupId in After(attempts).groups && e.kind in After(attempts).groups[e.groupId].kinds
  {
    LinkedWasReached(attempts, e);
    var b :| b in Reaching(attempts, e.groupId) && b.event.id == e.id;
    assert b in attempts && Reaches(b, e.groupId);
    GroupsAndLinks(attempts, e.groupId);
    GroupIsExactlyItsEvents(attempts, e.groupId);
  }

  /** Once one attempt on an event ran to its end the event is complete for good. */
  lemma {:induction false} DoneIsComplete(attempts: seq<Attempt>, a: Attempt)
    requires OneEventPerId(attempts) && a in attempts && a.cut.Done?
    ensures Complete(After(attempts), a.event)
    decreases |attempts|
  {
    var front, last := Snoc(attempts);
    if a == last {
      forall b | b in front && b.event.id == a.event.id ensures b.event == a.event {
        assert b in attempts && a in attempts;
      }
      if Linked(After(front), a.event) {
        LinkedKindPresent(front, a.event);
      }
      ProjectCompletes(After(front), a.event);
    } else {
      assert a in front;
      DoneIsComplete(front, a);
      ProjectKeepsComplete(After(front), last.event, last.cut, a.event);
    }
  }

  /** Every update row belongs to an attempted event and has one of the three types that event can produce. */
  lemma {:induction false} RowsHaveOwners(attempts: seq<Attempt>, key: UpdateKey)
    requires key in After(attempts).updates
    ensures exists a :: (a in attempts && a.event.id == key.event
            && (key.kind == UpdateTypeFor(a.event) || key.kind == ActivityCreated || key.kind == ActivityUpdated))
    decreases |attempts|
  {
    var front, last := Snoc(attempts);
    if key in After(front).updates {
      RowsHaveOwners(front, key);
    }
    assert last in attempts;
  }

  /** A complete event owns its domain-typed row and, besides it, only rows of the two activity types, one at least. */
  lemma OneDomainRow(attempts: seq<Attempt>, a: Attempt)
    requires OneEventPerId(attempts) && a in attempts && Complete(After(attempts), a.event)
    ensures var rows := After(attempts).updates;
            && UpdateKey(a.event.id, UpdateTypeFor(a.event)) in rows
            && (UpdateKey(a.event.id, ActivityCreated) in rows || UpdateKey(a.event.id, ActivityUpdated) in rows)
            && forall kind :: UpdateKey(a.event.id, kind) in rows ==>
                 kind == UpdateTypeFor(a.event) || kind == ActivityCreated || kind == ActivityUpdated
  {
    forall kind | UpdateKey(a.event.id, kind) in After(attempts).updates
      ensures kind == UpdateTypeFor(a.event) || kind == ActivityCreated || kind == ActivityUpdated
    {
      RowsHaveOwners(attempts, UpdateKey(a.event.id, kind));
    }
  }

  /** While a group counts one, every attempt that reached it is on the same event. */
  lemma {:induction false} CountOneMeansOneEvent(attempts: seq<Attempt>, g: string, id: string)
    requires |LinkedIds(attempts, g)| + CutOffs(attempts, g) <= 1 && id in LinkedIds(attempts, g)
    ensures forall a <- Reaching(attempts, g) :: a.event.id == id
    decreases |attempts|
  {
    SingleMember(LinkedIds(attempts, g), id);
    var front, last := Snoc(attempts);
    if id in LinkedIds(front, g) {
      OnlyMember(LinkedIds(front, g), id);
      CountOneMeansOneEvent(front, g, id);
    } else {
      assert LinkedIds(front, g) == {};
      NothingCutNothingLinked(front, g);
    }
  }

  lemma SingleMember(s: set<string>, id: string)
    requires id in s && |s| <= 1
    ensures s == {id}
  {
    assert s == (s - {id}) + {id};
    assert |s - {id}| == |s| - 1;
  }

  lemma OnlyMember(s: set<string>, id: string)
    requires id in s && (forall x <- s :: x == id)
    ensures |s| == 1
  {
    assert s == {id};
  }

  /** A group nobody linked and nobody was cut off in was never reached. */
  lemma {:induction false} NothingCutNothingLinked(attempts: seq<Attempt>, g: string)
    requires LinkedIds(attempts, g) == {} && CutOffs(attempts, g) == 0
    ensures Reaching(attempts, g) == []
    decreases |attempts|
  {
    if attempts != [] {
      var front, last := Snoc(attempts);
      NothingCutNothingLinked(front, g);
    }
  }

  /** An activity.created row can only belong to the event that opened its group. */
  lemma {:induction false} CreatedOpensTheGroup(attempts: seq<Attempt>, id: string)
    requires OneEventPerId(attempts) && UpdateKey(id, ActivityCreated) in After(attempts).updates
    ensures exists a :: (a in attempts && a.event.id == id && Reaching(attempts, a.event.groupId) != []
            && Reaching(attempts, a.event.groupId)[0].event == a.event)
    decreases |attempts|
  {
    var front, last := Snoc(attempts);
    var g := last.event.groupId;
    if UpdateKey(id, ActivityCreated) in After(front).updates {
      CreatedOpensTheGroup(front, id);
    } else {
      assert last in attempts && last.event.id == id && last.cut.Done?;
      GroupsAndLinks(front, g);
      if AlreadyCounted(After(front), last.event) {
        CountByAttempts(front, g);
        assert Link(g, id) in After(front).links;
        CountOneMeansOneEvent(front, g, id);
        var first := Reaching(front, g)[0];
        assert first in Reaching(front, g);
        assert first in attempts;
      }
    }
  }

  /** At most one event of a group ever owns an activity.created row. */
  lemma OneCreatedPerGroup(attempts: seq<Attempt>, a: Attempt, b: Attempt)
    requires OneEventPerId(attempts) && a in attempts && b in attempts && a.event.groupId == b.event.groupId
    requires UpdateKey(a.event.id, ActivityCreated) in After(attempts).updates
    requires UpdateKey(b.event.id, ActivityCreated) in After(attempts).updates
    ensures a.event == b.event
  {
    CreatedOpensTheGroup(attempts, a.event.id);
    CreatedOpensTheGroup(attempts, b.event.id);
  }

  // ---- which activity row an attempt writes ----

  /** Before the event nothing had reached its group, or the group held this linked event and nothing else. */
  ghost predicate Announces(before: seq<Attempt>, e: Event) {
    || Reaching(before, e.groupId) == []
    || (e.id in LinkedIds(before, e.groupId) && |LinkedIds(before, e.groupId)| + CutOffs(before, e.groupId) <= 1)
  }

  /** Some attempt on the event ran to its end, and announced its group or, as asked, did not. */
  ghost predicate EndedAs(attempts: seq<Attempt>, id: string, announcing: bool) {
    exists k :: 0 <= k < |attempts| && EndsAs(attempts, k, id, announcing)
  }

  ghost predicate EndsAs(attempts: seq<Attempt>, k: nat, id: string, announcing: bool)
    requires k < |attempts|
  {
    && attempts[k].event.id == id && attempts[k].cut.Done?
    && (Announces(attempts[..k], attempts[k].event) <==> announcing)
  }

  lemma {:induction false} EndedSnoc(front: seq<Attempt>, last: Attempt, id: string, announcing: bool)
    ensures EndedAs(front + [last], id, announcing)
            <==> EndedAs(front, id, announcing)
                 || (last.event.id == id && last.cut.Done? && (Announces(front, last.event) <==> announcing))
  {
    var all := front + [last];
    assert all[..|front|] == front;
    forall k | 0 <= k < |front| ensures EndsAs(all, k, id, announcing) <==> EndsAs(front, k, id, announcing) {
      assert all[..k] == front[..k];
    }
    if EndedAs(front, id, announcing) {
      var k :| 0 <= k < |front| && EndsAs(front, k, id, announcing);
      assert EndsAs(all, k, id, announcing);
    }
    if last.event.id == id && last.cut.Done? && (Announces(front, last.event) <==> announcing) {
      assert EndsAs(all, |front|, id, announcing);
    }
  }

  lemma AnnouncesExactlyWhen(before: seq<Attempt>, e: Event)
    ensures ActivityUpdateType(After(before), e) == if Announces(before, e) then ActivityCreated else ActivityUpdated
  {
    GroupsAndLinks(before, e.groupId);
    LinkedMeans(before, e);
    CountByAttempts(before, e.groupId);
  }

  lemma {:induction false} ActivityRowAfter(t: Tables, e: Event, cut: Cut, id: string, kind: UpdateType)
    requires kind == ActivityCreated || kind == ActivityUpdated
    ensures UpdateKey(id, kind) in Project(t, e, cut).updates
            <==> UpdateKey(id, kind) in t.updates || (e.id == id && cut.Done? && ActivityUpdateType(t, e) == kind)
  {
  }

  /**
   * An event owns an activity.created row exactly when one of its attempts ran to its end and announced the group: none
   * had reached the group before, or the group held only this event; and an activity.updated row exactly when one of
   * its attempts ran to its end and did not.
   */
  lemma {:induction false} ActivityRowsExactlyWhen(attempts: seq<Attempt>, id: string)
    ensures UpdateKey(id, ActivityCreated) in After(attempts).updates <==> EndedAs(attempts, id, true)
    ensures UpdateKey(id, ActivityUpdated) in After(attempts).updates <==> EndedAs(attempts, id, false)
    decreases |attempts|
  {
    if attempts != [] {
      var front, last := Snoc(attempts);
      ActivityRowsExactlyWhen(front, id);
      AnnouncesExactlyWhen(front, last.event);
      ActivityRowAfter(After(front), last.event, last.cut, id, ActivityCreated);
      ActivityRowAfter(After(front), last.event, last.cut, id, ActivityUpdated);
      EndedSnoc(front, last, id, true);
      EndedSnoc(front, last, id, false);
    }
  }
}
