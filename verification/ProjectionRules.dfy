/** What the rows of a projected event hold, told by the event's own fields and the attempts before. */
module ProjectionRules {
  import opened Projection
  import opened ProjectionLaws

  // ---- which entities are kept ----

  /** Entities are told apart by their kind and id, written with a colon between them. */
  predicate SameName(a: Entity, b: Entity) { a.kind + ":" + a.id == b.kind + ":" + b.id }

  /** The entity has an id, and none before it goes by its name. */
  ghost predicate FirstOfItsKey(es: seq<Entity>, i: nat) {
    i < |es| && es[i].id != "" && forall j :: 0 <= j < i ==> es[j].id == "" || !SameName(es[j], es[i])
  }

  lemma {:induction false} EntityKeptExactly(es: seq<Entity>, e: Entity)
    ensures e in UniqueEntities(es) <==> exists i: nat :: FirstOfItsKey(es, i) && es[i] == e
    decreases |es|
  {
    if es != [] {
      var front, n := es[..|es| - 1], |es| - 1;
      EntityKeptExactly(front, e);
      assert es == front + [es[n]];
      if es[n].id != "" {
        LastEntityIsNew(front, es[n]);
      }
      FirstsBeforeLast(front, es[n], e);
    }
  }

  lemma FirstsBeforeLast(front: seq<Entity>, last: Entity, e: Entity)
    ensures (exists i: nat :: FirstOfItsKey(front + [last], i) && (front + [last])[i] == e) <==>
            || (exists i: nat :: FirstOfItsKey(front, i) && front[i] == e)
            || (FirstOfItsKey(front + [last], |front|) && last == e)
  {
    var es := front + [last];
    forall i: nat | i < |front| ensures FirstOfItsKey(front, i) <==> FirstOfItsKey(es, i) {
      assert es[i] == front[i] && forall j :: 0 <= j < i ==> es[j] == front[j];
    }
    if i: nat :| FirstOfItsKey(front, i) && front[i] == e {
      assert es[i] == e;
    }
    if i: nat :| FirstOfItsKey(es, i) && es[i] == e {
      assert i < |front| ==> front[i] == e;
    }
  }

  lemma LastEntityIsNew(front: seq<Entity>, last: Entity)
    requires last.id != ""
    ensures HasKeyIn(UniqueEntities(front), EntityKey(last)) <==> !FirstOfItsKey(front + [last], |front|)
  {
    UniqueKeys(front, EntityKey(last));
    var es := front + [last];
    if !FirstOfItsKey(es, |front|) {
      var j :| 0 <= j < |front| && es[j].id != "" && EntityKey(es[j]) == EntityKey(last);
      assert front[j] in front;
    }
    if Names(front, EntityKey(last)) {
      var j :| 0 <= j < |front| && front[j].id != "" && EntityKey(front[j]) == EntityKey(last);
      assert es[j] == front[j];
    }
  }

  // ---- links ----

  /** The attempt was cut off only after the insert of its link, if at all. */
  predicate InsertsLink(a: Attempt) { a.cut == AfterLink || a.cut == AfterDomainUpdate || a.cut == Done }

  lemma LinkExactly(attempts: seq<Attempt>, g: string, id: string)
    ensures Link(g, id) in After(attempts).links <==>
            exists a :: a in attempts && a.event.groupId == g && a.event.id == id && InsertsLink(a)
  {
    GroupsAndLinks(attempts, g);
    if a :| a in attempts && a.event.groupId == g && a.event.id == id && InsertsLink(a) {
      assert LinksTo(a, g);
    }
    if id in LinkedIds(attempts, g) {
      var a :| a in attempts && LinksTo(a, g) && a.event.id == id;
      assert InsertsLink(a);
    }
  }

  // ---- the severity of a group ----

  ghost predicate SomeAt(reaching: seq<Attempt>, s: Severity) { exists a :: a in reaching && a.event.severity == s }

  /** A group is critical when any of its events is, else a warning when any is, else a success when any is. */
  lemma SeverityExactly(attempts: seq<Attempt>, g: string)
    requires OneEventPerId(attempts) && g in After(attempts).groups
    ensures var severity, mine := After(attempts).groups[g].severity, Reaching(attempts, g);
            && (severity == Critical <==> SomeAt(mine, Critical))
            && (severity == Warning <==> SomeAt(mine, Warning) && !SomeAt(mine, Critical))
            && (severity == Severity.Success
                <==> SomeAt(mine, Severity.Success) && !SomeAt(mine, Warning) && !SomeAt(mine, Critical))
  {
    GroupSummarisesItsEvents(attempts, g);
    HighestBounds(Reaching(attempts, g));
  }

  // ---- who wrote a group last ----

  /** The attempt reached the group with an event that was not linked to it yet. */
  ghost predicate Writes(attempts: seq<Attempt>, k: nat, g: string)
    requires k < |attempts|
  {
    Reaches(attempts[k], g) && attempts[k].event.id !in LinkedIds(attempts[..k], g)
  }

  ghost predicate WritesLast(attempts: seq<Attempt>, k: nat, g: string)
    requires k < |attempts|
  {
    Writes(attempts, k, g) && forall m :: k < m < |attempts| ==> !Writes(attempts, m, g)
  }

  lemma GroupWrittenExactly(front: seq<Attempt>, last: Attempt, g: string)
    ensures Reaches(last, g) && last.event.id !in LinkedIds(front, g)
            ==> g in Project(After(front), last.event, last.cut).groups
                && var group := Project(After(front), last.event, last.cut).groups[g];
                   group.lastAt == last.event.occurredAt && group.updatedBy == last.event.id
    ensures !(Reaches(last, g) && last.event.id !in LinkedIds(front, g)) && g in After(front).groups
            ==> g in Project(After(front), last.event, last.cut).groups
                && Project(After(front), last.event, last.cut).groups[g] == After(front).groups[g]
  {
    GroupsAndLinks(front, g);
    LinkedMeans(front, last.event);
  }

  /** The last time and the author of a group are those of the last attempt that counted or merged its event. */
  lemma {:induction false} LastWriterExactly(attempts: seq<Attempt>, g: string) returns (k: nat)
    requires g in After(attempts).groups
    ensures k < |attempts| && WritesLast(attempts, k, g)
    ensures var group := After(attempts).groups[g];
            group.lastAt == attempts[k].event.occurredAt && group.updatedBy == attempts[k].event.id
    decreases |attempts|
  {
    var front, last := Snoc(attempts);
    var n := |front|;
    assert attempts[..n] == front;
    GroupsAndLinks(attempts, g);
    GroupsAndLinks(front, g);
    GroupWrittenExactly(front, last, g);
    if Writes(attempts, n, g) {
      k := n;
    } else {
      k := LastWriterExactly(front, g);
      forall m | 0 <= m < n ensures Writes(attempts, m, g) <==> Writes(front, m, g) {
        assert attempts[..m] == front[..m];
      }
    }
  }

  // ---- domain rows ----

  /** The type of the row that announces the change itself, by how the event is named. */
  predicate AnnouncedAs(kind: string, t: UpdateType) {
    match t
    case WorkItemChanged => "work_item." <= kind
    case NotificationCreated => kind == "notification.created"
    case HealthChanged => "health." <= kind
    case MetricChanged => IsMoney(kind)
    case EntityChanged =>
      !("work_item." <= kind || kind == "notification.created" || "health." <= kind || IsMoney(kind))
    case _ => false
  }

  predicate IsMoney(kind: string) {
    "commission." <= kind || "purchase." <= kind || "refund." <= kind || "chargeback." <= kind
  }

  lemma TypeExactly(e: Event, t: UpdateType)
    ensures UpdateTypeFor(e) == t <==> AnnouncedAs(e.kind, t)
  {
    var k := e.kind;
    assert "work_item." <= k ==> k[0] == 'w';
    assert k == "notification.created" ==> k[0] == 'n';
    assert "health." <= k ==> k[0] == 'h';
    assert IsMoney(k) ==> k[0] == 'c' || k[0] == 'p' || k[0] == 'r';
  }

  predicate IsActivity(t: UpdateType) { t == ActivityCreated || t == ActivityUpdated }

  /** The attempt got as far as the event's own row. */
  ghost predicate WritesRow(a: Attempt, id: string, t: UpdateType) {
    a.event.id == id && (a.cut == AfterDomainUpdate || a.cut == Done) && AnnouncedAs(a.event.kind, t)
  }

  lemma {:induction false} DomainRowWritten(t: Tables, a: Attempt, id: string, kind: UpdateType)
    requires !IsActivity(kind)
    ensures var rows, key := Project(t, a.event, a.cut).updates, UpdateKey(id, kind);
            if WritesRow(a, id, kind) then key in rows && rows[key] == RowOf(a.event)
            else (key in rows <==> key in t.updates) && (key in rows ==> rows[key] == t.updates[key])
  {
    TypeExactly(a.event, kind);
  }

  function RowOf(e: Event): Update {
    Update(e.position, e.occurredAt, e.subject.kind, e.subject.id, e.groupId, e.severity)
  }

  /** An event owns a row of a type exactly when an attempt got that far, and the row repeats the event. */
  lemma {:induction false} DomainRowExactly(attempts: seq<Attempt>, id: string, kind: UpdateType)
    requires OneEventPerId(attempts) && !IsActivity(kind)
    ensures var rows, key := After(attempts).updates, UpdateKey(id, kind);
            && (key in rows <==> exists a :: a in attempts && WritesRow(a, id, kind))
            && forall a :: a in attempts && WritesRow(a, id, kind) ==> rows[key] == RowOf(a.event)
    decreases |attempts|
  {
    if attempts != [] {
      var front, last := Snoc(attempts);
      DomainRowExactly(front, id, kind);
      DomainRowWritten(After(front), last, id, kind);
      assert last in attempts && forall a :: a in attempts <==> a in front || a == last;
      forall a | a in attempts && WritesRow(a, id, kind)
        ensures UpdateKey(id, kind) in After(attempts).updates
        ensures After(attempts).updates[UpdateKey(id, kind)] == RowOf(a.event)
      {
        if WritesRow(last, id, kind) {
          assert a.event == last.event;
        }
      }
    }
  }

  // ---- activity rows ----

  /** The row repeats the event's place and time with the subject that opened its group and the severity so far. */
  ghost predicate ShowsGroup(row: Update, attempts: seq<Attempt>, k: nat)
    requires k < |attempts|
  {
    var e, reaching := attempts[k].event, Reaching(attempts[..k + 1], attempts[k].event.groupId);
    && reaching != []
    && row == Update(e.position, e.occurredAt, reaching[0].event.subject.kind, reaching[0].event.subject.id, e.groupId,
                     Highest(reaching))
  }

  ghost predicate EndsLast(attempts: seq<Attempt>, k: nat, id: string, announcing: bool)
    requires k < |attempts|
  {
    EndsAs(attempts, k, id, announcing) && forall m :: k < m < |attempts| ==> !EndsAs(attempts, m, id, announcing)
  }

  lemma ActivityRowWritten(front: seq<Attempt>, last: Attempt, id: string, announcing: bool)
    requires OneEventPerId(front + [last])
    ensures var rows, key := Project(After(front), last.event, last.cut).updates, UpdateKey(id, RowType(announcing));
            if EndsAs(front + [last], |front|, id, announcing)
            then key in rows && ShowsGroup(rows[key], front + [last], |front|)
            else (key in rows <==> key in After(front).updates)
                 && (key in rows ==> rows[key] == After(front).updates[key])
  {
    var all := front + [last];
    assert all[..|front|] == front && all[..|front| + 1] == all;
    AnnouncesExactlyWhen(front, last.event);
    if EndsAs(all, |front|, id, announcing) {
      var g := last.event.groupId;
      ReplaySnoc(EMPTY_TABLES, front, last);
      GroupsAndLinks(front, g);
      GroupSummarisesItsEvents(all, g);
    }
  }

  function RowType(announcing: bool): UpdateType { if announcing then ActivityCreated else ActivityUpdated }

  /** An activity row is that of the last attempt on its event that ended this way. */
  lemma {:induction false} ActivityRowExactly(attempts: seq<Attempt>, id: string, announcing: bool) returns (k: nat)
    requires OneEventPerId(attempts) && UpdateKey(id, RowType(announcing)) in After(attempts).updates
    ensures k < |attempts| && EndsLast(attempts, k, id, announcing)
    ensures ShowsGroup(After(attempts).updates[UpdateKey(id, RowType(announcing))], attempts, k)
    decreases |attempts|
  {
    var front, last := Snoc(attempts);
    var n := |front|;
    ActivityRowWritten(front, last, id, announcing);
    if EndsAs(attempts, n, id, announcing) {
      k := n;
    } else {
      k := ActivityRowExactly(front, id, announcing);
      EndsInFront(front, last, id, announcing);
      assert attempts[..k + 1] == front[..k + 1];
    }
  }

  lemma EndsInFront(front: seq<Attempt>, last: Attempt, id: string, announcing: bool)
    ensures forall m :: 0 <= m < |front| ==>
              (EndsAs(front + [last], m, id, announcing) <==> EndsAs(front, m, id, announcing))
  {
    forall m | 0 <= m < |front| ensures EndsAs(front + [last], m, id, announcing)
      <==> EndsAs(front, m, id, announcing) {
      assert (front + [last])[..m] == front[..m];
    }
  }
}
