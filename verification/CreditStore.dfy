/**
 * Persisting attribution credits: credits are grouped by a joined text key, and each group replaces
 * the stored rows of its conversion and model unless they are already equivalent.
 */
module CreditStore {
  import opened Prelude
  import opened Seqs
  import opened Attribution

  /** The columns by which stored credits are looked up and replaced. */
  datatype GroupId = GroupId(workspaceId: string, conversionId: string, model: Model, modelVersion: string)

  function IdOf(c: Credit): GroupId { GroupId(c.workspaceId, c.conversionId, c.model, c.modelVersion) }

  function ModelText(model: Model): string { if model.FirstTouch? then "first_touch" else "last_touch" }

  /** The text under which `persistAttributionCredits` collects a group. */
  function JoinedKey(id: GroupId): string {
    id.workspaceId + "|" + id.conversionId + "|" + ModelText(id.model) + "|" + id.modelVersion
  }

  const GROUP_KEY: Credit -> string := (c: Credit) => JoinedKey(IdOf(c))

  const GROUP_ID: Credit -> GroupId := (c: Credit) => IdOf(c)

  function RowsOf(table: seq<Credit>, id: GroupId): seq<Credit> { Group(GROUP_ID, id, table) }

  function OtherThan(id: GroupId): Credit -> bool { (c: Credit) => IdOf(c) != id }

  /** The stored form of a credit: the group columns come from the call, not from the credit. */
  function Under(id: GroupId, c: Credit): Credit {
    c.(workspaceId := id.workspaceId, conversionId := id.conversionId, model := id.model,
       modelVersion := id.modelVersion)
  }

  function UNDER(id: GroupId): Credit -> Credit { (c: Credit) => Under(id, c) }

  function Replaced(table: seq<Credit>, id: GroupId, credits: seq<Credit>): seq<Credit> {
    Filter(OtherThan(id), table) + Map(UNDER(id), credits)
  }

  /** A replacement leaves the credits under the id and every other row where it was. */
  lemma ReplacedUnder(table: seq<Credit>, id: GroupId, credits: seq<Credit>)
    ensures RowsOf(Replaced(table, id, credits), id) == Map(UNDER(id), credits)
    ensures forall other :: other != id ==> RowsOf(Replaced(table, id, credits), other) == RowsOf(table, other)
  {
    forall other ensures RowsOf(Replaced(table, id, credits), other) ==
                         if other == id then Map(UNDER(id), credits) else RowsOf(table, other)
    {
      ReplacedAt(table, id, credits, other);
    }
  }

  lemma ReplacedAt(table: seq<Credit>, id: GroupId, credits: seq<Credit>, other: GroupId)
    ensures RowsOf(Replaced(table, id, credits), other) == if other == id then Map(UNDER(id), credits)
                                                           else RowsOf(table, other)
  {
    var kept, stored := Filter(OtherThan(id), table), Map(UNDER(id), credits);
    FilterConcat(HasKey(GROUP_ID, other), kept, stored);
    assert forall c :: c in stored ==> IdOf(c) == id;
    if other == id {
      FilterNone(HasKey(GROUP_ID, id), kept);
      FilterAll(HasKey(GROUP_ID, id), stored);
    } else {
      FilterFilter(HasKey(GROUP_ID, other), OtherThan(id), HasKey(GROUP_ID, other), table);
      FilterNone(HasKey(GROUP_ID, other), stored);
    }
  }

  predicate IsHex(c: char) { '0' <= c <= '9' || 'a' <= c <= 'f' }

  /** The text of a uuid as the database returns it. */
  predicate IsUuid(s: string) {
    && |s| == 36
    && forall i :: 0 <= i < 36 ==> if i == 8 || i == 13 || i == 18 || i == 23 then s[i] == '-' else IsHex(s[i])
  }

  /** The unique indexes: under one id no touchpoint occurs twice, and at most one row has none. */
  predicate Insertable(credits: seq<Credit>) {
    forall i, j :: 0 <= i < j < |credits| ==> credits[i].touchpointId != credits[j].touchpointId
  }

  /** Everything of a credit but the time of its calculation. */
  function CreditKey(c: Credit): Credit { c.(calculatedAt := 0) }

  predicate Equivalent(existing: seq<Credit>, incoming: seq<Credit>) {
    |existing| == |incoming| && forall c <- incoming :: exists e :: e in existing && CreditKey(e) == CreditKey(c)
  }

  /** The counts a run reports and the credits it publishes as domain events. */
  datatype Report = Report(inserted: nat, replaced: nat, current: nat, published: seq<(Credit, bool)>)

  /** `failed`: some call of the database was refused, which ends the run; what it wrote before stays. */
  datatype Outcome = Outcome(table: seq<Credit>, report: Report, failed: bool)

  const NOTHING_DONE := Report(0, 0, 0, [])

  function Publish(group: seq<Credit>, changed: bool): (p: seq<(Credit, bool)>)
    ensures |p| == |group|
  {
    seq(|group|, i requires 0 <= i < |group| => (group[i], changed))
  }

  function AddCurrent(r: Report, n: nat): Report { r.(current := r.current + n) }

  function AddReplaced(r: Report, group: seq<Credit>, removed: nat): Report {
    Report(r.inserted + |group|, r.replaced + removed, r.current, r.published + Publish(group, removed > 0))
  }

  function PersistGroup(o: Outcome, group: seq<Credit>, force: bool): Outcome
    requires group != []
  {
    var id := IdOf(group[0]);
    var existing := RowsOf(o.table, id);
    if o.failed then o
    else if !IsUuid(id.conversionId) then o.(failed := true)
    else if !force && Equivalent(existing, group) then o.(report := AddCurrent(o.report, |group|))
    else if !Insertable(group) then o.(failed := true)
    else Outcome(Replaced(o.table, id, group), AddReplaced(o.report, group, |existing|), false)
  }

  predicate Inhabited(groups: seq<seq<Credit>>) { forall i :: 0 <= i < |groups| ==> groups[i] != [] }

  function PersistGroups(table: seq<Credit>, groups: seq<seq<Credit>>, force: bool): Outcome
    requires Inhabited(groups)
    decreases |groups|
  {
    if groups == [] then Outcome(table, NOTHING_DONE, false) else
      PersistGroup(PersistGroups(table, groups[..|groups| - 1], force), groups[|groups| - 1], force)
  }

  function KeysOf(credits: seq<Credit>): seq<string> { Firsts(Map(GROUP_KEY, credits)) }

  function GroupsOf(credits: seq<Credit>): (gs: seq<seq<Credit>>)
    ensures Inhabited(gs)
  {
    var gs := Groups(GROUP_KEY, KeysOf(credits), credits);
    assert forall i :: 0 <= i < |gs| ==> gs[i] != [] by {
      forall i | 0 <= i < |gs| ensures gs[i] != [] { GroupsInhabited(GROUP_KEY, credits, i); }
    }
    gs
  }

  function PersistAll(table: seq<Credit>, credits: seq<Credit>, force: bool): Outcome {
    PersistGroups(table, GroupsOf(credits), force)
  }

  lemma PersistNext(table: seq<Credit>, groups: seq<seq<Credit>>, i: nat, force: bool)
    requires Inhabited(groups) && i < |groups|
    ensures PersistGroups(table, groups[..i + 1], force)
            == PersistGroup(PersistGroups(table, groups[..i], force), groups[i], force)
  {
    assert groups[..i + 1][..i] == groups[..i];
  }

  /** The table of stored credits behind the repository interface. */
  class Repository {
    var table: seq<Credit>

    constructor ()
      ensures table == []
    {
      table := [];
    }

    method FindCredits(id: GroupId) returns (ok: bool, rows: seq<Credit>)
      ensures ok == IsUuid(id.conversionId)
      ensures ok ==> rows == RowsOf(table, id)
    {
      ok, rows := IsUuid(id.conversionId), RowsOf(table, id);
    }

    /** One transaction: the rows of the id give way to the credits, or the indexes refuse them and nothing changes. */
    method ReplaceCredits(id: GroupId, credits: seq<Credit>) returns (ok: bool, inserted: nat, replaced: nat)
      modifies this
      ensures ok == (IsUuid(id.conversionId) && Insertable(credits))
      ensures table == if ok then Replaced(old(table), id, credits) else old(table)
      ensures ok ==> RowsOf(table, id) == Map(UNDER(id), credits)
      ensures forall other :: other != id ==> RowsOf(table, other) == RowsOf(old(table), other)
      ensures inserted == |credits| && replaced == |RowsOf(old(table), id)|
    {
      ok := IsUuid(id.conversionId) && Insertable(credits);
      replaced := |RowsOf(table, id)|;
      inserted := |credits|;
      ReplacedUnder(table, id, credits);
      if ok {
        table := Replaced(table, id, credits);
      }
    }

    /** One group: kept when the stored rows are equivalent and nothing forces a recalculation, replaced otherwise. */
    method PersistOne(group: seq<Credit>, force: bool, report: Report) returns (failed: bool, next: Report)
      requires group != []
      modifies this
      ensures Outcome(table, next, failed) == PersistGroup(Outcome(old(table), report, false), group, force)
    {
      var id := IdOf(group[0]);
      var ok, existing := FindCredits(id);
      if !ok {
        return true, report;
      }
      if !force && Equivalent(existing, group) {
        return false, AddCurrent(report, |group|);
      }
      var inserted, replaced;
      ok, inserted, replaced := ReplaceCredits(id, group);
      if !ok {
        return true, report;
      }
      return false, AddReplaced(report, group, replaced);
    }

    method PersistEach(groups: seq<seq<Credit>>, force: bool) returns (failed: bool, report: Report)
      requires Inhabited(groups)
      modifies this
      ensures Outcome(table, report, failed) == PersistGroups(old(table), groups, force)
    {
      failed, report := false, NOTHING_DONE;
      for i := 0 to |groups|
        invariant Outcome(table, report, failed) == PersistGroups(old(table), groups[..i], force)
      {
        PersistNext(old(table), groups, i, force);
        if !failed {
          failed, report := PersistOne(groups[i], force, report);
        }
      }
      assert groups[..|groups|] == groups;
    }

    /** The report is lost when the run fails. */
    method Persist(credits: seq<Credit>, force: bool) returns (report: Option<Report>)
      modifies this
      ensures var o := PersistAll(old(table), credits, force);
              table == o.table && report == if o.failed then None else Some(o.report)
    {
      var _, groups := CollectGroups(GROUP_KEY, credits);
      assert groups == GroupsOf(credits);
      var failed, counts := PersistEach(groups, force);
      report := if failed then None else Some(counts);
    }
  }
}
