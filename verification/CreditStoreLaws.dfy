/** What persisting credits leaves in the table, and that persisting them again does nothing. */
module CreditStoreLaws {
  import opened Ordering
  import opened Seqs
  import opened Attribution
  import opened CreditStore

  ghost predicate AllUnder(group: seq<Credit>, id: GroupId) { forall i :: 0 <= i < |group| ==> IdOf(group[i]) == id }

  /** Each group belongs to one conversion and model, and no two groups to the same. */
  ghost predicate Separate(groups: seq<seq<Credit>>) {
    && Inhabited(groups)
    && (forall i :: 0 <= i < |groups| ==> AllUnder(groups[i], IdOf(groups[i][0])))
    && (forall i, j :: 0 <= i < j < |groups| ==> IdOf(groups[i][0]) != IdOf(groups[j][0]))
  }

  lemma UnderOwnId(id: GroupId, group: seq<Credit>)
    requires AllUnder(group, id)
    ensures Map(UNDER(id), group) == group
  {
    forall i | 0 <= i < |group| ensures Under(id, group[i]) == group[i] {
      assert IdOf(group[i]) == id;
    }
  }

  /** Replacing touches the rows of its own key only. */
  lemma ReplacedRows(table: seq<Credit>, id: GroupId, group: seq<Credit>, other: GroupId)
    requires AllUnder(group, id)
    ensures RowsOf(Replaced(table, id, group), other) == if other == id then group else RowsOf(table, other)
  {
    UnderOwnId(id, group);
    ReplacedAt(table, id, group, other);
  }

  /** The rows a group leaves under its key. */
  function Settled(existing: seq<Credit>, group: seq<Credit>, force: bool): seq<Credit> {
    if !force && Equivalent(existing, group) then existing else group
  }

  lemma GroupRows(o: Outcome, group: seq<Credit>, force: bool, id: GroupId)
    requires group != [] && AllUnder(group, IdOf(group[0]))
    ensures id != IdOf(group[0]) ==> RowsOf(PersistGroup(o, group, force).table, id) == RowsOf(o.table, id)
    ensures id == IdOf(group[0]) && !PersistGroup(o, group, force).failed ==>
              RowsOf(PersistGroup(o, group, force).table, id) == Settled(RowsOf(o.table, id), group, force)
  {
    ReplacedRows(o.table, IdOf(group[0]), group, id);
  }

  /** Rows under a key that no group has stay as they were. */
  lemma {:induction false} OtherRowsStay(table: seq<Credit>, groups: seq<seq<Credit>>, force: bool, id: GroupId)
    requires Separate(groups) && NoneUnder(groups, id)
    ensures RowsOf(PersistGroups(table, groups, force).table, id) == RowsOf(table, id)
    decreases |groups|
  {
    if groups != [] {
      var front := groups[..|groups| - 1];
      OtherRowsStay(table, front, force, id);
      GroupRows(PersistGroups(table, front, force), groups[|groups| - 1], force, id);
    }
  }

  ghost predicate NoneUnder(groups: seq<seq<Credit>>, id: GroupId)
    requires Inhabited(groups)
  {
    forall i :: 0 <= i < |groups| ==> IdOf(groups[i][0]) != id
  }

  lemma {:induction false} LastGroupSettles(table: seq<Credit>, front: seq<seq<Credit>>, last: seq<Credit>, force: bool)
    requires Separate(front) && last != [] && AllUnder(last, IdOf(last[0])) && NoneUnder(front, IdOf(last[0]))
    requires !PersistGroup(PersistGroups(table, front, force), last, force).failed
    ensures RowsOf(PersistGroup(PersistGroups(table, front, force), last, force).table, IdOf(last[0]))
            == Settled(RowsOf(table, IdOf(last[0])), last, force)
  {
    OtherRowsStay(table, front, force, IdOf(last[0]));
    GroupRows(PersistGroups(table, front, force), last, force, IdOf(last[0]));
  }

  /** Rows under the key of a group are what that group settles on. */
  lemma {:induction false} OwnRowsSettle(table: seq<Credit>, groups: seq<seq<Credit>>, force: bool, k: nat, id: GroupId)
    requires Separate(groups) && k < |groups| && id == IdOf(groups[k][0]) && !PersistGroups(table, groups, force).failed
    ensures RowsOf(PersistGroups(table, groups, force).table, id) == Settled(RowsOf(table, id), groups[k], force)
    decreases |groups|
  {
    var front, last := groups[..|groups| - 1], groups[|groups| - 1];
    if k == |groups| - 1 {
      LastGroupSettles(table, front, last, force);
    } else {
      OwnRowsSettle(table, front, force, k, id);
      OtherGroupKeeps(PersistGroups(table, front, force), last, force, id);
    }
  }

  lemma OtherGroupKeeps(o: Outcome, group: seq<Credit>, force: bool, id: GroupId)
    requires group != [] && AllUnder(group, IdOf(group[0])) && id != IdOf(group[0])
    ensures RowsOf(PersistGroup(o, group, force).table, id) == RowsOf(o.table, id)
  {
    GroupRows(o, group, force, id);
  }

  /** When every group is already equivalent to its stored rows, nothing is written, published or replaced. */
  lemma {:induction false} AllCurrent(table: seq<Credit>, groups: seq<seq<Credit>>)
    requires Separate(groups)
    requires forall i :: 0 <= i < |groups| ==>
               IsUuid(groups[i][0].conversionId) && Equivalent(RowsOf(table, IdOf(groups[i][0])), groups[i])
    ensures PersistGroups(table, groups, false) == Outcome(table, AddCurrent(NOTHING_DONE, TotalLength(groups)), false)
    decreases |groups|
  {
    if groups != [] {
      AllCurrent(table, groups[..|groups| - 1]);
    }
  }

  lemma SettlesEquivalent(table: seq<Credit>, groups: seq<seq<Credit>>, force: bool, k: nat, id: GroupId)
    requires Separate(groups) && k < |groups| && id == IdOf(groups[k][0]) && !PersistGroups(table, groups, force).failed
    ensures IsUuid(id.conversionId) && Equivalent(RowsOf(PersistGroups(table, groups, force).table, id), groups[k])
  {
    OwnRowsSettle(table, groups, force, k, id);
    GroupsHaveUuids(table, groups, force, k);
  }

  lemma {:induction false} GroupsHaveUuids(table: seq<Credit>, groups: seq<seq<Credit>>, force: bool, k: nat)
    requires Inhabited(groups) && k < |groups| && !PersistGroups(table, groups, force).failed
    ensures IsUuid(groups[k][0].conversionId)
    decreases |groups|
  {
    if k < |groups| - 1 {
      GroupsHaveUuids(table, groups[..|groups| - 1], force, k);
    }
  }

  lemma {:induction false} SecondRunIsIdle(table: seq<Credit>, groups: seq<seq<Credit>>, force: bool)
    requires Separate(groups) && !PersistGroups(table, groups, force).failed
    ensures var first := PersistGroups(table, groups, force).table;
            PersistGroups(first, groups, false) == Outcome(first, AddCurrent(NOTHING_DONE, TotalLength(groups)), false)
  {
    var first := PersistGroups(table, groups, force).table;
    forall i | 0 <= i < |groups|
      ensures IsUuid(groups[i][0].conversionId) && Equivalent(RowsOf(first, IdOf(groups[i][0])), groups[i])
    {
      SettlesEquivalent(table, groups, force, i, IdOf(groups[i][0]));
    }
    AllCurrent(first, groups);
  }

  // ---- from credits to groups ----

  /** No two credits of different conversions or models share a joined key. */
  ghost predicate Unambiguous(credits: seq<Credit>) {
    forall c, d :: c in credits && d in credits && GROUP_KEY(c) == GROUP_KEY(d) ==> IdOf(c) == IdOf(d)
  }

  lemma GroupMembers(credits: seq<Credit>, k: nat)
    requires k < |GroupsOf(credits)|
    ensures forall c <- GroupsOf(credits)[k] :: c in credits && GROUP_KEY(c) == KeysOf(credits)[k]
    ensures GroupsOf(credits)[k][0] in GroupsOf(credits)[k]
  {
  }

  lemma GroupsAreSeparate(credits: seq<Credit>)
    requires Unambiguous(credits)
    ensures Separate(GroupsOf(credits))
  {
    var gs := GroupsOf(credits);
    forall i | 0 <= i < |gs| ensures AllUnder(gs[i], IdOf(gs[i][0])) {
      GroupMembers(credits, i);
      forall j | 0 <= j < |gs[i]| ensures IdOf(gs[i][j]) == IdOf(gs[i][0]) {
        assert gs[i][j] in gs[i];
      }
    }
    forall i, j | 0 <= i < j < |gs| ensures IdOf(gs[i][0]) != IdOf(gs[j][0]) {
      GroupMembers(credits, i);
      GroupMembers(credits, j);
    }
  }

  /** The group that collects a credit is exactly the credits of its conversion and model. */
  lemma GroupOfCredit(credits: seq<Credit>, c: Credit) returns (k: nat)
    requires Unambiguous(credits) && c in credits
    ensures k < |GroupsOf(credits)| && GroupsOf(credits)[k] == RowsOf(credits, IdOf(c))
    ensures IdOf(GroupsOf(credits)[k][0]) == IdOf(c)
  {
    var i :| 0 <= i < |credits| && credits[i] == c;
    assert Map(GROUP_KEY, credits)[i] == GROUP_KEY(c);
    assert GROUP_KEY(c) in KeysOf(credits);
    k :| 0 <= k < |KeysOf(credits)| && KeysOf(credits)[k] == GROUP_KEY(c);
    FilterAgree(HasKey(GROUP_KEY, GROUP_KEY(c)), HasKey(GROUP_ID, IdOf(c)), credits);
    GroupMembers(credits, k);
  }

  /**
   * After persisting, the rows of each conversion and model are exactly its credits, or the
   * equivalent rows that were there before; rows of every other key are untouched.
   */
  lemma {:induction false} PersistLeavesExactly(table: seq<Credit>, credits: seq<Credit>, force: bool, id: GroupId)
    requires Unambiguous(credits) && !PersistAll(table, credits, force).failed
    ensures var mine := RowsOf(credits, id);
            RowsOf(PersistAll(table, credits, force).table, id) ==
            if mine == [] then RowsOf(table, id) else Settled(RowsOf(table, id), mine, force)
  {
    GroupsAreSeparate(credits);
    var gs := GroupsOf(credits);
    if RowsOf(credits, id) != [] {
      var c := RowsOf(credits, id)[0];
      assert c in RowsOf(credits, id);
      var k := GroupOfCredit(credits, c);
      OwnRowsSettle(table, gs, force, k, id);
    } else {
      forall i | 0 <= i < |gs| ensures IdOf(gs[i][0]) != id {
        GroupMembers(credits, i);
        assert gs[i][0] in credits;
        assert gs[i][0] !in RowsOf(credits, id);
      }
      OtherRowsStay(table, gs, force, id);
    }
  }

  /** An outcome in which nothing was replaced or published and every credit was already current. */
  ghost predicate Idle(o: Outcome, table: seq<Credit>, credits: seq<Credit>) {
    o == Outcome(table, Report(0, 0, |credits|, []), false)
  }

  /**
   * Persisting the same credits again replaces nothing, publishes nothing and reports all of them as already current.
   */
  lemma PersistIsIdempotent(table: seq<Credit>, credits: seq<Credit>, force: bool)
    requires Unambiguous(credits) && !PersistAll(table, credits, force).failed
    ensures var first := PersistAll(table, credits, force).table;
            Idle(PersistAll(first, credits, false), first, credits)
  {
    GroupsAreSeparate(credits);
    SecondRunIsIdle(table, GroupsOf(credits), force);
    AllCollected(credits);
  }

  /** Grouping loses and repeats no credit. */
  lemma AllCollected(credits: seq<Credit>)
    ensures TotalLength(GroupsOf(credits)) == |credits|
  {
    forall c | c in credits ensures GROUP_KEY(c) in KeysOf(credits) {
      KeyIsCollected(credits, c);
    }
    GroupsConserve(GROUP_KEY, KeysOf(credits), credits);
  }

  lemma KeyIsCollected(credits: seq<Credit>, c: Credit)
    requires c in credits
    ensures GROUP_KEY(c) in KeysOf(credits)
  {
    var i :| 0 <= i < |credits| && credits[i] == c;
    assert Map(GROUP_KEY, credits)[i] == GROUP_KEY(c);
  }

  /** A run that inserts nothing found every group equivalent to its rows. */
  lemma {:induction false} NothingInserted(table: seq<Credit>, groups: seq<seq<Credit>>)
    requires Inhabited(groups)
    requires !PersistGroups(table, groups, false).failed && PersistGroups(table, groups, false).report.inserted == 0
    ensures PersistGroups(table, groups, false).table == table
    ensures forall i :: 0 <= i < |groups| ==> Equivalent(RowsOf(table, IdOf(groups[i][0])), groups[i])
    decreases |groups|
  {
    if groups != [] {
      NothingInserted(table, groups[..|groups| - 1]);
    }
  }

  /** A group that holds a credit of another id is never equivalent to rows of its own. */
  lemma ForeignNeverEquivalent(rows: seq<Credit>, group: seq<Credit>, id: GroupId, c: Credit)
    requires (forall r <- rows :: IdOf(r) == id) && c in group && IdOf(c) != id
    ensures !Equivalent(rows, group)
  {
    assert IdOf(CreditKey(c)) == IdOf(c);
    forall e | e in rows ensures CreditKey(e) != CreditKey(c) {
      assert IdOf(CreditKey(e)) == IdOf(e);
    }
  }

  lemma IdleIsUnambiguous(table: seq<Credit>, credits: seq<Credit>, c: Credit, d: Credit)
    requires c in credits && d in credits && GROUP_KEY(c) == GROUP_KEY(d)
    requires !PersistAll(table, credits, false).failed && PersistAll(table, credits, false).report.inserted == 0
    ensures IdOf(c) == IdOf(d)
  {
    KeyIsCollected(credits, c);
    var k :| 0 <= k < |KeysOf(credits)| && KeysOf(credits)[k] == GROUP_KEY(c);
    var group := GroupsOf(credits)[k];
    var id := IdOf(group[0]);
    assert c in group && d in group;
    NothingInserted(table, GroupsOf(credits));
    if IdOf(c) != id {
      ForeignNeverEquivalent(RowsOf(table, id), group, id, c);
    }
    if IdOf(d) != id {
      ForeignNeverEquivalent(RowsOf(table, id), group, id, d);
    }
  }

  /** After a run that did not fail, running again is idle exactly when no joined key stands for two ids. */
  lemma PersistSettlesExactlyWhen(table: seq<Credit>, credits: seq<Credit>, force: bool)
    requires !PersistAll(table, credits, force).failed
    ensures var first := PersistAll(table, credits, force).table;
            Idle(PersistAll(first, credits, false), first, credits) <==> Unambiguous(credits)
  {
    var first := PersistAll(table, credits, force).table;
    if Unambiguous(credits) {
      PersistIsIdempotent(table, credits, force);
    }
    if Idle(PersistAll(first, credits, false), first, credits) {
      forall c, d | c in credits && d in credits && GROUP_KEY(c) == GROUP_KEY(d) ensures IdOf(c) == IdOf(d) {
        IdleIsUnambiguous(first, credits, c, d);
      }
    }
  }

  // ---- when a run succeeds ----

  /** The database takes the group: its id is a uuid, and its credits are current or insertable. */
  predicate Accepted(table: seq<Credit>, group: seq<Credit>, force: bool)
    requires group != []
  {
    && IsUuid(group[0].conversionId)
    && ((!force && Equivalent(RowsOf(table, IdOf(group[0])), group)) || Insertable(group))
  }

  lemma LastSucceeds(table: seq<Credit>, front: seq<seq<Credit>>, last: seq<Credit>, force: bool)
    requires Separate(front) && last != [] && NoneUnder(front, IdOf(last[0]))
    ensures !PersistGroup(PersistGroups(table, front, force), last, force).failed <==>
            !PersistGroups(table, front, force).failed && Accepted(table, last, force)
  {
    OtherRowsStay(table, front, force, IdOf(last[0]));
  }

  ghost predicate AllAccepted(table: seq<Credit>, groups: seq<seq<Credit>>, force: bool)
    requires Inhabited(groups)
  {
    forall i :: 0 <= i < |groups| ==> Accepted(table, groups[i], force)
  }

  lemma {:induction false} GroupsSucceed(table: seq<Credit>, groups: seq<seq<Credit>>, force: bool)
    requires Separate(groups)
    ensures !PersistGroups(table, groups, force).failed <==> AllAccepted(table, groups, force)
    decreases |groups|
  {
    if groups != [] {
      var front, last := groups[..|groups| - 1], groups[|groups| - 1];
      GroupsSucceed(table, front, force);
      LastSucceeds(table, front, last, force);
      assert groups == front + [last];
    }
  }

  /** The credits of the id of `c`. */
  function Siblings(credits: seq<Credit>, c: Credit): (r: seq<Credit>) { RowsOf(credits, IdOf(c)) }

  lemma SiblingsInhabited(credits: seq<Credit>, c: Credit)
    requires c in credits
    ensures Siblings(credits, c) != []
  {
    assert c in Siblings(credits, c);
  }

  /** A run succeeds exactly when the database takes the credits of every id. */
  lemma PersistSucceedsExactlyWhen(table: seq<Credit>, credits: seq<Credit>, force: bool)
    requires Unambiguous(credits)
    ensures !PersistAll(table, credits, force).failed <==>
            forall c <- credits :: Siblings(credits, c) != [] && Accepted(table, Siblings(credits, c), force)
  {
    GroupsAreSeparate(credits);
    var gs := GroupsOf(credits);
    GroupsSucceed(table, gs, force);
    forall c | c in credits ensures exists k :: 0 <= k < |gs| && gs[k] == Siblings(credits, c) {
      var k := GroupOfCredit(credits, c);
    }
    forall i | 0 <= i < |gs| ensures gs[i][0] in credits && gs[i] == Siblings(credits, gs[i][0]) {
      GroupMembers(credits, i);
      GroupIsSiblings(credits, i);
    }
  }

  lemma GroupIsSiblings(credits: seq<Credit>, i: nat)
    requires Unambiguous(credits) && i < |GroupsOf(credits)|
    ensures GroupsOf(credits)[i][0] in credits && GroupsOf(credits)[i] == Siblings(credits, GroupsOf(credits)[i][0])
  {
    GroupMembers(credits, i);
    var c := GroupsOf(credits)[i][0];
    FilterAgree(HasKey(GROUP_KEY, GROUP_KEY(c)), HasKey(GROUP_ID, IdOf(c)), credits);
  }

  lemma {:induction false} CountsAddUp(table: seq<Credit>, groups: seq<seq<Credit>>, force: bool)
    requires Inhabited(groups) && !PersistGroups(table, groups, force).failed
    ensures var r := PersistGroups(table, groups, force).report;
            && r.inserted + r.current == TotalLength(groups) && |r.published| == r.inserted
            && (force ==> r.current == 0)
    decreases |groups|
  {
    if groups != [] {
      CountsAddUp(table, groups[..|groups| - 1], force);
    }
  }

  // ---- when the joined key is unambiguous ----

  predicate NoBar(s: string) { '|' !in s }

  lemma LastBar(a: string, b: string, x: string, y: string)
    requires NoBar(x) && NoBar(y) && a + "|" + x == b + "|" + y
    ensures a == b && x == y
  {
    var whole := a + "|" + x;
    assert whole[|a|] == '|' && (b + "|" + y)[|b|] == '|';
    assert forall i :: |a| < i < |whole| ==> whole[i] == x[i - |a| - 1] && x[i - |a| - 1] in x;
    assert forall i :: |b| < i < |whole| ==> (b + "|" + y)[i] == y[i - |b| - 1] && y[i - |b| - 1] in y;
    assert |a| == |b|;
    assert a == whole[..|a|] && b == whole[..|a|] && x == whole[|a| + 1..] && y == whole[|a| + 1..];
  }

  /** Bars in a workspace id do no harm as long as conversion ids and versions have none. */
  lemma JoinedKeyInjective(a: GroupId, b: GroupId)
    requires NoBar(a.conversionId) && NoBar(a.modelVersion) && NoBar(b.conversionId) && NoBar(b.modelVersion)
    requires JoinedKey(a) == JoinedKey(b)
    ensures a == b
  {
    var wa, wb := a.workspaceId + "|" + a.conversionId, b.workspaceId + "|" + b.conversionId;
    LastBar(wa + "|" + ModelText(a.model), wb + "|" + ModelText(b.model), a.modelVersion, b.modelVersion);
    LastBar(wa, wb, ModelText(a.model), ModelText(b.model));
    LastBar(a.workspaceId, b.workspaceId, a.conversionId, b.conversionId);
    assert ModelText(a.model)[0] == ModelText(b.model)[0];
  }

  lemma BarFreeIsUnambiguous(credits: seq<Credit>)
    requires forall c <- credits :: NoBar(c.conversionId) && NoBar(c.modelVersion)
    ensures Unambiguous(credits)
  {
    forall c, d | c in credits && d in credits && GROUP_KEY(c) == GROUP_KEY(d) ensures IdOf(c) == IdOf(d) {
      JoinedKeyInjective(IdOf(c), IdOf(d));
    }
  }

  // ---- what equivalence of rows means ----

  ghost predicate DistinctCreditKeys(credits: seq<Credit>) {
    forall i, j :: 0 <= i < j < |credits| ==> CreditKey(credits[i]) != CreditKey(credits[j])
  }

  const KEY_OF: Credit -> Credit := (c: Credit) => CreditKey(c)

  /** A distinct sequence inside one of the same length has the same multiset. */
  lemma CoversWhenDistinct<T(!new)>(a: seq<T>, b: seq<T>)
    requires |a| == |b| && Distinct(b) && forall x <- b :: x in a
    ensures multiset(a) == multiset(b)
  {
    DistinctByCounts(b);
    forall x ensures multiset(b)[x] <= multiset(a)[x] {
      if x in multiset(b) {
        assert x in b && x in a && x in multiset(a);
      }
    }
    assert multiset(b) <= multiset(a);
    assert |multiset(a) - multiset(b)| == 0;
  }

  /** When the incoming credits differ in more than their calculation time, equivalence is equality of multisets. */
  lemma EquivalentExactlyWhen(existing: seq<Credit>, incoming: seq<Credit>)
    requires DistinctCreditKeys(incoming)
    ensures Equivalent(existing, incoming) <==> multiset(Map(KEY_OF, existing)) == multiset(Map(KEY_OF, incoming))
  {
    var a, b := Map(KEY_OF, existing), Map(KEY_OF, incoming);
    if Equivalent(existing, incoming) {
      forall x | x in b ensures x in a {
        var i :| 0 <= i < |b| && b[i] == x;
        assert incoming[i] in incoming;
        var e :| e in existing && CreditKey(e) == x;
        var m :| 0 <= m < |existing| && existing[m] == e;
        assert a[m] == x;
      }
      CoversWhenDistinct(a, b);
    }
    if multiset(a) == multiset(b) {
      SameElements(a, b);
      forall c | c in incoming ensures exists e :: e in existing && CreditKey(e) == CreditKey(c) {
        var i :| 0 <= i < |incoming| && incoming[i] == c;
        assert b[i] in a;
        var m :| 0 <= m < |a| && a[m] == b[i];
        assert existing[m] in existing;
      }
    }
  }
}
