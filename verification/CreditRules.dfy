/** What a run of persisting credits reports, publishes and is refused for, told by the stored rows and the credits. */
module CreditRules {
  import opened Prelude
  import opened Seqs
  import opened Attribution
  import opened CreditStore
  import opened CreditStoreLaws

  // ---- counts ----

  lemma {:induction false} SplitById(table: seq<Credit>, id: GroupId)
    ensures |Filter(OtherThan(id), table)| + |RowsOf(table, id)| == |table|
    decreases |table|
  {
    if table != [] {
      SplitById(table[..|table| - 1], id);
    }
  }

  lemma GroupConserves(o: Outcome, group: seq<Credit>, force: bool)
    requires group != []
    ensures var p := PersistGroup(o, group, force);
            |p.table| + p.report.replaced - p.report.inserted == |o.table| + o.report.replaced - o.report.inserted
  {
    SplitById(o.table, IdOf(group[0]));
  }

  lemma {:induction false} GroupsConserveRows(table: seq<Credit>, groups: seq<seq<Credit>>, force: bool)
    requires Inhabited(groups)
    ensures var o := PersistGroups(table, groups, force);
            |o.table| + o.report.replaced == |table| + o.report.inserted
    decreases |groups|
  {
    if groups != [] {
      GroupsConserveRows(table, groups[..|groups| - 1], force);
      GroupConserves(PersistGroups(table, groups[..|groups| - 1], force), groups[|groups| - 1], force);
    }
  }

  /** The rows after a run are those before, less the replaced and with the inserted ones, even when it fails. */
  lemma RowsAreConserved(table: seq<Credit>, credits: seq<Credit>, force: bool)
    ensures var o := PersistAll(table, credits, force);
            |o.table| + o.report.replaced == |table| + o.report.inserted
  {
    GroupsConserveRows(table, GroupsOf(credits), force);
  }

  // ---- what is published ----

  function PublishedFor(id: GroupId): ((Credit, bool)) -> bool { (p: (Credit, bool)) => IdOf(p.0) == id }

  /** The credits of one id are written unless they are already there. */
  predicate IsWritten(table: seq<Credit>, mine: seq<Credit>, id: GroupId, force: bool) {
    mine != [] && (force || !Equivalent(RowsOf(table, id), mine))
  }

  /** Each written credit is published once, as a change exactly when its id had rows before. */
  ghost predicate PublishedExactly(published: seq<(Credit, bool)>, table: seq<Credit>, mine: seq<Credit>, id: GroupId,
                                   force: bool)
  {
    var events := Filter(PublishedFor(id), published);
    && |events| == (if IsWritten(table, mine, id, force) then |mine| else 0)
    && forall i :: 0 <= i < |events| ==> events[i].0 == mine[i] && (events[i].1 <==> RowsOf(table, id) != [])
  }

  lemma PublishFilters(group: seq<Credit>, changed: bool, owner: GroupId, id: GroupId)
    requires AllUnder(group, owner)
    ensures Filter(PublishedFor(id), Publish(group, changed)) == if id == owner then Publish(group, changed) else []
  {
    var p := Publish(group, changed);
    forall x | x in p ensures IdOf(x.0) == owner {
      var i :| 0 <= i < |p| && p[i] == x;
      assert IdOf(group[i]) == owner;
    }
    if id == owner {
      FilterAll(PublishedFor(id), p);
    } else {
      FilterNone(PublishedFor(id), p);
    }
  }

  lemma PublishedNext(o: Outcome, group: seq<Credit>, force: bool)
    requires group != [] && !PersistGroup(o, group, force).failed
    ensures PersistGroup(o, group, force).report.published == o.report.published + Added(o.table, group, force)
  {
  }

  /** What a group adds to the published credits. */
  function Added(table: seq<Credit>, group: seq<Credit>, force: bool): seq<(Credit, bool)>
    requires group != []
  {
    var id := IdOf(group[0]);
    if IsWritten(table, group, id, force) then Publish(group, |RowsOf(table, id)| > 0) else []
  }

  lemma AddedFor(table: seq<Credit>, group: seq<Credit>, force: bool, id: GroupId)
    requires group != [] && AllUnder(group, IdOf(group[0]))
    ensures Filter(PublishedFor(id), Added(table, group, force))
            == if id == IdOf(group[0]) then Added(table, group, force) else []
  {
    var owner := IdOf(group[0]);
    PublishFilters(group, |RowsOf(table, owner)| > 0, owner, id);
  }

  lemma GroupPublishes(o: Outcome, group: seq<Credit>, force: bool, id: GroupId)
    requires group != [] && AllUnder(group, IdOf(group[0])) && !PersistGroup(o, group, force).failed
    ensures Filter(PublishedFor(id), PersistGroup(o, group, force).report.published)
            == Filter(PublishedFor(id), o.report.published)
               + if id == IdOf(group[0]) then Added(o.table, group, force) else []
  {
    PublishedNext(o, group, force);
    FilterConcat(PublishedFor(id), o.report.published, Added(o.table, group, force));
    AddedFor(o.table, group, force, id);
  }

  lemma {:induction false} NothingPublishedFor(table: seq<Credit>, groups: seq<seq<Credit>>, force: bool, id: GroupId)
    requires Separate(groups) && NoneUnder(groups, id) && !PersistGroups(table, groups, force).failed
    ensures Filter(PublishedFor(id), PersistGroups(table, groups, force).report.published) == []
    decreases |groups|
  {
    if groups != [] {
      var front := groups[..|groups| - 1];
      NothingPublishedFor(table, front, force, id);
      GroupPublishes(PersistGroups(table, front, force), groups[|groups| - 1], force, id);
    }
  }

  lemma {:induction false} OwnPublished(table: seq<Credit>, groups: seq<seq<Credit>>, force: bool, k: nat, id: GroupId)
    requires Separate(groups) && k < |groups| && id == IdOf(groups[k][0]) && !PersistGroups(table, groups, force).failed
    ensures PublishedExactly(PersistGroups(table, groups, force).report.published, table, groups[k], id, force)
    decreases |groups|
  {
    var front, last := groups[..|groups| - 1], groups[|groups| - 1];
    if k == |groups| - 1 {
      LastPublished(table, front, last, force);
    } else {
      OwnPublished(table, front, force, k, id);
      OthersPublish(PersistGroups(table, front, force), last, force, id);
    }
  }

  lemma OthersPublish(o: Outcome, group: seq<Credit>, force: bool, id: GroupId)
    requires group != [] && AllUnder(group, IdOf(group[0])) && !PersistGroup(o, group, force).failed
    requires id != IdOf(group[0])
    ensures Filter(PublishedFor(id), PersistGroup(o, group, force).report.published)
            == Filter(PublishedFor(id), o.report.published)
  {
    GroupPublishes(o, group, force, id);
  }

  lemma LastPublished(table: seq<Credit>, front: seq<seq<Credit>>, last: seq<Credit>, force: bool)
    requires Separate(front) && last != [] && AllUnder(last, IdOf(last[0])) && NoneUnder(front, IdOf(last[0]))
    requires !PersistGroup(PersistGroups(table, front, force), last, force).failed
    ensures PublishedExactly(PersistGroup(PersistGroups(table, front, force), last, force).report.published, table,
                             last,
                             IdOf(last[0]), force)
  {
    var id, before := IdOf(last[0]), PersistGroups(table, front, force);
    NothingPublishedFor(table, front, force, id);
    OtherRowsStay(table, front, force, id);
    GroupPublishes(before, last, force, id);
    PublishesGroup(PersistGroup(before, last, force).report.published, table, last, id, force);
  }

  lemma PublishesGroup(published: seq<(Credit, bool)>, table: seq<Credit>, group: seq<Credit>, id: GroupId, force: bool)
    requires Filter(PublishedFor(id), published)
             == [] + if IsWritten(table, group, id, force) then Publish(group, |RowsOf(table, id)| > 0) else []
    ensures PublishedExactly(published, table, group, id, force)
  {
  }

  /** Over a run: each id publishes its written credits and nothing else. */
  lemma {:induction false} RunPublishesExactly(table: seq<Credit>, credits: seq<Credit>, force: bool, id: GroupId)
    requires Unambiguous(credits) && !PersistAll(table, credits, force).failed
    ensures PublishedExactly(PersistAll(table, credits, force).report.published, table, RowsOf(credits, id), id, force)
  {
    GroupsAreSeparate(credits);
    var gs := GroupsOf(credits);
    if RowsOf(credits, id) != [] {
      var c := RowsOf(credits, id)[0];
      assert c in RowsOf(credits, id);
      var k := GroupOfCredit(credits, c);
      OwnPublished(table, gs, force, k, id);
    } else {
      forall i | 0 <= i < |gs| ensures IdOf(gs[i][0]) != id {
        GroupMembers(credits, i);
        assert gs[i][0] in credits;
        assert gs[i][0] !in RowsOf(credits, id);
      }
      NothingPublishedFor(table, gs, force, id);
    }
  }

  // ---- what the database refuses ----

  predicate Hex(s: string) { forall c <- s :: c in "0123456789abcdef" }

  /** Eight, four, four, four and twelve hexadecimal digits with dashes between them. */
  ghost predicate IsUuidText(s: string) {
    exists a, b, c, d, e ::
      && |a| == 8 && |b| == 4 && |c| == 4 && |d| == 4 && |e| == 12
      && Hex(a) && Hex(b) && Hex(c) && Hex(d) && Hex(e)
      && s == a + "-" + b + "-" + c + "-" + d + "-" + e
  }

  lemma HexExactly(c: char)
    ensures IsHex(c) <==> c in "0123456789abcdef"
  {
    var digits := "0123456789abcdef";
    if '0' <= c <= '9' {
      assert digits[c as int - '0' as int] == c;
    }
    if 'a' <= c <= 'f' {
      assert digits[c as int - 'a' as int + 10] == c;
    }
  }

  lemma HexPart(s: string, i: nat, j: nat)
    requires i <= j <= |s|
    ensures Hex(s[i..j]) <==> forall k :: i <= k < j ==> IsHex(s[k])
  {
    forall c ensures IsHex(c) <==> c in "0123456789abcdef" {
      HexExactly(c);
    }
    if Hex(s[i..j]) {
      forall k | i <= k < j ensures IsHex(s[k]) {
        assert s[i..j][k - i] == s[k];
      }
    }
  }

  /** Positions of one id with the same touchpoint, which the unique indexes refuse. */
  ghost predicate Clash(credits: seq<Credit>, id: GroupId) {
    exists i, j :: 0 <= i < j < |credits| && IdOf(credits[i]) == id && IdOf(credits[j]) == id
                   && credits[i].touchpointId == credits[j].touchpointId
  }

  lemma {:induction false} TouchpointOccurs(credits: seq<Credit>, id: GroupId, t: Option<string>)
    ensures (exists c :: c in RowsOf(credits, id) && c.touchpointId == t)
            <==> exists i :: 0 <= i < |credits| && IdOf(credits[i]) == id && credits[i].touchpointId == t
  {
    if c :| c in RowsOf(credits, id) && c.touchpointId == t {
      var i :| 0 <= i < |credits| && credits[i] == c;
    }
    if i :| 0 <= i < |credits| && IdOf(credits[i]) == id && credits[i].touchpointId == t {
      assert credits[i] in RowsOf(credits, id);
    }
  }

  lemma {:induction false} InsertableExactly(credits: seq<Credit>, id: GroupId)
    ensures Insertable(RowsOf(credits, id)) <==> !Clash(credits, id)
    decreases |credits|
  {
    if credits != [] {
      var front, last := credits[..|credits| - 1], credits[|credits| - 1];
      InsertableExactly(front, id);
      assert credits == front + [last];
      FilterSnoc(HasKey(GROUP_ID, id), front, last);
      TouchpointOccurs(front, id, last.touchpointId);
      ClashSnoc(front, last, id);
      if IdOf(last) == id {
        assert RowsOf(credits, id) == RowsOf(front, id) + [last];
        InsertableSnoc(RowsOf(front, id), last);
      } else {
        assert RowsOf(credits, id) == RowsOf(front, id);
      }
    }
  }

  lemma InsertableSnoc(s: seq<Credit>, c: Credit)
    ensures Insertable(s + [c]) <==> Insertable(s) && !exists d :: d in s && d.touchpointId == c.touchpointId
  {
    if Insertable(s + [c]) {
      forall i, j | 0 <= i < j < |s| ensures s[i].touchpointId != s[j].touchpointId {
        assert (s + [c])[i] == s[i] && (s + [c])[j] == s[j];
      }
      forall d | d in s ensures d.touchpointId != c.touchpointId {
        var i :| 0 <= i < |s| && s[i] == d;
        assert (s + [c])[i] == d && (s + [c])[|s|] == c;
      }
    }
  }

  lemma ClashSnoc(s: seq<Credit>, c: Credit, id: GroupId)
    ensures Clash(s + [c], id) <==>
            Clash(s, id) || (IdOf(c) == id && exists i ::
                               0 <= i < |s| && IdOf(s[i]) == id && s[i].touchpointId == c.touchpointId)
  {
    var t := s + [c];
    if i, j :| 0 <= i < j < |t| && IdOf(t[i]) == id && IdOf(t[j]) == id && t[i].touchpointId == t[j].touchpointId {
      assert t[i] == s[i];
    }
    if i, j :| 0 <= i < j < |s| && IdOf(s[i]) == id && IdOf(s[j]) == id && s[i].touchpointId == s[j].touchpointId {
      assert t[i] == s[i] && t[j] == s[j];
    }
    if i :| IdOf(c) == id && 0 <= i < |s| && IdOf(s[i]) == id && s[i].touchpointId == c.touchpointId {
      assert t[i] == s[i] && t[|s|] == c;
    }
  }

  lemma UuidTextIsUuid(s: string, a: string, b: string, c: string, d: string, e: string)
    requires |a| == 8 && |b| == 4 && |c| == 4 && |d| == 4 && |e| == 12
    requires Hex(a) && Hex(b) && Hex(c) && Hex(d) && Hex(e)
    requires s == a + "-" + b + "-" + c + "-" + d + "-" + e
    ensures IsUuid(s)
  {
    assert s[..8] == a && s[9..13] == b && s[14..18] == c && s[19..23] == d && s[24..] == e;
    assert s[0..8] == a && s[24..36] == e;
    HexPart(s, 0, 8);
    HexPart(s, 9, 13);
    HexPart(s, 14, 18);
    HexPart(s, 19, 23);
    HexPart(s, 24, 36);
  }

  lemma UuidExactly(s: string)
    ensures IsUuid(s) <==> IsUuidText(s)
  {
    if IsUuid(s) {
      HexPart(s, 0, 8);
      HexPart(s, 9, 13);
      HexPart(s, 14, 18);
      HexPart(s, 19, 23);
      HexPart(s, 24, 36);
      assert s == s[0..8] + "-" + s[9..13] + "-" + s[14..18] + "-" + s[19..23] + "-" + s[24..36];
    }
    if a, b, c, d, e :|
      && |a| == 8 && |b| == 4 && |c| == 4 && |d| == 4 && |e| == 12
      && Hex(a) && Hex(b) && Hex(c) && Hex(d) && Hex(e)
      && s == a + "-" + b + "-" + c + "-" + d + "-" + e
    {
      UuidTextIsUuid(s, a, b, c, d, e);
    }
  }

  /** The credits of the id of `c` cannot be written, or there is nothing the id could name. */
  ghost predicate IsRefused(table: seq<Credit>, credits: seq<Credit>, c: Credit, force: bool) {
    || !IsUuidText(c.conversionId)
    || (IsWritten(table, RowsOf(credits, IdOf(c)), IdOf(c), force) && Clash(credits, IdOf(c)))
  }

  /** A run fails exactly when a conversion id is no uuid or credits that must be written share a touchpoint. */
  lemma RunFailsExactlyWhen(table: seq<Credit>, credits: seq<Credit>, force: bool)
    requires Unambiguous(credits)
    ensures PersistAll(table, credits, force).failed
            <==> exists c :: c in credits && IsRefused(table, credits, c, force)
  {
    PersistSucceedsExactlyWhen(table, credits, force);
    forall c | c in credits
      ensures Siblings(credits, c) != []
              && (Accepted(table, Siblings(credits, c), force) <==> !IsRefused(table, credits, c, force))
    {
      SiblingsInhabited(credits, c);
      var first := Siblings(credits, c)[0];
      assert first in Siblings(credits, c) && IdOf(first) == IdOf(c);
      UuidExactly(c.conversionId);
      InsertableExactly(credits, IdOf(c));
    }
  }
}
