/**
 * Projecting one domain event: the activity group it joins, the link that remembers it, and the
 * workspace updates it produces. A projection is not atomic; it can be cut off between any two writes.
 */
module Projection {
  import opened Prelude
  import opened Seqs

  datatype Severity = Info | Success | Warning | Critical

  function Rank(s: Severity): nat {
    match s
    case Critical => 4
    case Warning => 3
    case Success => 2
    case Info => 1
  }

  function MaxSeverity(a: Severity, b: Severity): Severity { if Rank(a) >= Rank(b) then a else b }

  /** A reference to an entity; `kind` is the normalised type and never blank. */
  datatype Entity = Entity(kind: string, id: string, displayName: Option<string>, relationship: Option<string>)

  function EntityKey(e: Entity): string { e.kind + ":" + e.id }

  predicate HasKeyIn(es: seq<Entity>, key: string) { exists i :: 0 <= i < |es| && EntityKey(es[i]) == key }

  /** Keeps the first entity of each key and drops entities without an id. */
  function UniqueEntities(es: seq<Entity>): (r: seq<Entity>)
    ensures forall i :: 0 <= i < |r| ==> r[i].id != ""
    ensures forall i, j :: 0 <= i < j < |r| ==> EntityKey(r[i]) != EntityKey(r[j])
  {
    if es == [] then [] else
      var front, last := UniqueEntities(es[..|es| - 1]), es[|es| - 1];
      if last.id == "" || HasKeyIn(front, EntityKey(last)) then front else front + [last]
  }

  /** The same in one pass over a set of seen keys. */
  method CollectUniqueEntities(es: seq<Entity>) returns (r: seq<Entity>)
    ensures r == UniqueEntities(es)
  {
    var seen: set<string> := {};
    r := [];
    for i := 0 to |es|
      invariant r == UniqueEntities(es[..i])
      invariant forall k :: k in seen <==> HasKeyIn(r, k)
    {
      assert es[..i + 1][..i] == es[..i];
      if es[i].id != "" && EntityKey(es[i]) !in seen {
        ghost var before := r;
        seen, r := seen + {EntityKey(es[i])}, r + [es[i]];
        assert forall k :: HasKeyIn(r, k) <==> HasKeyIn(before, k) || k == EntityKey(es[i]) by {
          KeysSnoc(before, es[i]);
        }
      }
    }
    assert es[..|es|] == es;
  }

  lemma KeysSnoc(es: seq<Entity>, e: Entity)
    ensures forall k :: HasKeyIn(es + [e], k) <==> HasKeyIn(es, k) || k == EntityKey(e)
  {
    forall k | HasKeyIn(es, k) ensures HasKeyIn(es + [e], k) {
      var i :| 0 <= i < |es| && EntityKey(es[i]) == k;
      assert (es + [e])[i] == es[i];
    }
    assert (es + [e])[|es|] == e;
  }

  /** A row of the event log. `groupId` is the activity group its correlation or subject selects. */
  datatype Event = Event(
    position: nat,
    id: string,
    kind: string,
    severity: Severity,
    subject: Entity,
    related: seq<Entity>,
    occurredAt: int,
    groupId: string)

  datatype UpdateType =
    | EntityChanged | MetricChanged | WorkItemChanged | NotificationCreated | HealthChanged
    | ActivityCreated | ActivityUpdated

  predicate StartsWith(s: string, prefix: string) { prefix <= s }

  function UpdateTypeFor(e: Event): (t: UpdateType)
    ensures t != ActivityCreated && t != ActivityUpdated
  {
    if StartsWith(e.kind, "work_item.") then WorkItemChanged
    else if e.kind == "notification.created" then NotificationCreated
    else if StartsWith(e.kind, "health.") then HealthChanged
    else if StartsWith(e.kind, "commission.") || StartsWith(e.kind, "purchase.") || StartsWith(e.kind, "refund.")
            || StartsWith(e.kind, "chargeback.") then MetricChanged
    else EntityChanged
  }

  datatype Group = Group(
    kinds: seq<string>,
    severity: Severity,
    related: seq<Entity>,
    count: nat,
    primaryKind: string,
    primaryId: string,
    firstAt: int,
    lastAt: int,
    updatedBy: string)

  datatype Link = Link(group: string, event: string)

  datatype UpdateKey = UpdateKey(event: string, kind: UpdateType)

  datatype Update = Update(position: nat, occurredAt: int, entityKind: string, entityId: string, group: string,
                           severity: Severity)

  /** The projected tables of one workspace. */
  datatype Tables = Tables(groups: map<string, Group>, links: set<Link>, updates: map<UpdateKey, Update>)

  const EMPTY_TABLES := Tables(map[], {}, map[])

  /** Where a projection attempt is cut off: before its first write, or after one of its writes. */
  datatype Cut = BeforeUpsert | AfterUpsert | AfterLink | AfterDomainUpdate | Done

  predicate Links(cut: Cut) { cut.AfterLink? || cut.AfterDomainUpdate? || cut.Done? }

  // ---- the steps ----

  function NextGroup(existing: Option<Group>, linked: bool, e: Event): Group {
    var entities := [e.subject] + e.related;
    match existing
    case None => Group([e.kind], MaxSeverity(e.severity, e.severity), UniqueEntities(entities), 1, e.subject.kind,
                       e.subject.id,
                       e.occurredAt, e.occurredAt, e.id)
    case Some(g) =>
      Group(Firsts(g.kinds + [e.kind]), MaxSeverity(g.severity, e.severity), UniqueEntities(g.related + entities),
            if linked then (if g.count == 0 then 1 else g.count) else g.count + 1,
            g.primaryKind, g.primaryId, g.firstAt, e.occurredAt, e.id)
  }

  function Existing(t: Tables, id: string): Option<Group> { if id in t.groups then Some(t.groups[id]) else None }

  predicate Linked(t: Tables, e: Event) { Link(e.groupId, e.id) in t.links }

  /** The event was linked before: the group is returned as it is. */
  predicate AlreadyCounted(t: Tables, e: Event) { e.groupId in t.groups && Linked(t, e) }

  /** The group upsert and the link insert, as far as the cut lets them run. */
  function UpsertGroup(t: Tables, e: Event, cut: Cut): Tables {
    if cut.BeforeUpsert? || AlreadyCounted(t, e) then t
    else
      t.(groups := t.groups[e.groupId := NextGroup(Existing(t, e.groupId), Linked(t, e), e)],
         links := if Links(cut) then t.links + {Link(e.groupId, e.id)} else t.links)
  }

  /** Created for the event that opens a group, and on replay for any event of a group that counts one. */
  function ActivityUpdateType(t: Tables, e: Event): UpdateType {
    if AlreadyCounted(t, e) then (if t.groups[e.groupId].count <= 1 then ActivityCreated else ActivityUpdated)
    else if e.groupId in t.groups then ActivityUpdated else ActivityCreated
  }

  function DomainUpdate(e: Event): Update {
    Update(e.position, e.occurredAt, e.subject.kind, e.subject.id, e.groupId, e.severity)
  }

  function ActivityUpdate(e: Event, g: Group): Update {
    Update(e.position, e.occurredAt, g.primaryKind, g.primaryId, e.groupId, g.severity)
  }

  /** One projection attempt, cut off at `cut`. */
  function Project(t: Tables, e: Event, cut: Cut): (r: Tables) {
    var grouped := UpsertGroup(t, e, cut);
    if !cut.AfterDomainUpdate? && !cut.Done? then grouped
    else
      var domain := grouped.(updates := grouped.updates[UpdateKey(e.id, UpdateTypeFor(e)) := DomainUpdate(e)]);
      if !cut.Done? then domain
      else
        var key := UpdateKey(e.id, ActivityUpdateType(t, e));
        domain.(updates := domain.updates[key := ActivityUpdate(e, grouped.groups[e.groupId])])
  }

  /** The event has left everything a finished projection leaves. */
  ghost predicate Complete(t: Tables, e: Event) {
    && e.groupId in t.groups && e.kind in t.groups[e.groupId].kinds
    && Linked(t, e)
    && UpdateKey(e.id, UpdateTypeFor(e)) in t.updates
    && (UpdateKey(e.id, ActivityCreated) in t.updates || UpdateKey(e.id, ActivityUpdated) in t.updates)
  }

  // ---- attempts ----

  datatype Attempt = Attempt(event: Event, cut: Cut)

  /** Any sequence of attempts: replays, rewinds, inline projections and crashes included. */
  function Replay(t: Tables, attempts: seq<Attempt>): Tables
    decreases |attempts|
  {
    if attempts == [] then t else
      var last := attempts[|attempts| - 1];
      Project(Replay(t, attempts[..|attempts| - 1]), last.event, last.cut)
  }

  lemma ReplaySnoc(t: Tables, attempts: seq<Attempt>, a: Attempt)
    ensures Replay(t, attempts + [a]) == Project(Replay(t, attempts), a.event, a.cut)
  {
    assert (attempts + [a])[..|attempts|] == attempts;
  }

  lemma {:induction false} ReplayConcat(t: Tables, a: seq<Attempt>, b: seq<Attempt>)
    ensures Replay(t, a + b) == Replay(Replay(t, a), b)
    decreases |b|
  {
    if b == [] {
      assert a + b == a;
    } else {
      var front, last := b[..|b| - 1], b[|b| - 1];
      assert a + b == (a + front) + [last];
      ReplaySnoc(t, a + front, last);
      ReplayConcat(t, a, front);
    }
  }

  /** Nothing a later attempt does undoes a finished projection. */
  lemma ProjectKeepsComplete(t: Tables, e: Event, cut: Cut, other: Event)
    requires Complete(t, other)
    ensures Complete(Project(t, e, cut), other)
  {
  }

  lemma ProjectCompletes(t: Tables, e: Event)
    requires Linked(t, e) ==> e.groupId in t.groups && e.kind in t.groups[e.groupId].kinds
    ensures Complete(Project(t, e, Done), e)
  {
  }
}
