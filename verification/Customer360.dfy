/** The money groupings of a customer's view: orders counted once, and totals that the groups add up to. */
module Customer360 {
  import opened Prelude
  import opened Seqs

  /**
   * `key` is the order's own identity, if it has one; the status patterns are given as flags. Amounts are minor units.
   */
  datatype Order = Order(
    key: Option<string>, amount: int, chargebackWord: bool, refundWord: bool, cancelWord: bool, month: Option<string>,
    channel: Option<string>)

  datatype Credit = Credit(channel: string, amount: int, unattributed: bool)

  // ---- de-duplication ----

  datatype Keyed = Keyed(key: string, order: Order)

  const KEY: Keyed -> string := (k: Keyed) => k.key

  /** Orders with their keys; `fallback` names the order at a position that has no identity of its own. */
  function KeyedOrders(orders: seq<Order>, fallback: nat -> string): seq<Keyed> {
    seq(|orders|, i requires 0 <= i < |orders| =>
      Keyed(if orders[i].key.Some? then orders[i].key.value else fallback(i), orders[i]))
  }

  /** The first order of each key. */
  function FirstOfEach(ks: seq<Keyed>): seq<Keyed> {
    if ks == [] then [] else
      var front, last := ks[..|ks| - 1], ks[|ks| - 1];
      FirstOfEach(front) + if last.key in Map(KEY, front) then [] else [last]
  }

  lemma {:induction false} EachKeyOnce(ks: seq<Keyed>)
    ensures Map(KEY, FirstOfEach(ks)) == Firsts(Map(KEY, ks))
    ensures forall k <- FirstOfEach(ks) :: k in ks
    decreases |ks|
  {
    if ks != [] {
      var front, last := ks[..|ks| - 1], ks[|ks| - 1];
      assert ks == front + [last];
      EachKeyOnce(front);
      assert Map(KEY, ks) == Map(KEY, front) + [last.key];
      FirstsSnoc(Map(KEY, front), last.key);
      assert Map(KEY, FirstOfEach(front) + [last]) == Map(KEY, FirstOfEach(front)) + [last.key];
      assert FirstOfEach(front) + [] == FirstOfEach(front);
    }
  }

  method DedupeOrders(orders: seq<Order>, fallback: nat -> string) returns (kept: seq<Keyed>)
    ensures kept == FirstOfEach(KeyedOrders(orders, fallback))
    ensures Map(KEY, kept) == Firsts(Map(KEY, KeyedOrders(orders, fallback)))
  {
    ghost var all := KeyedOrders(orders, fallback);
    var seen: set<string> := {};
    kept := [];
    for i := 0 to |orders|
      invariant kept == FirstOfEach(all[..i])
      invariant forall k :: k in seen <==> k in Map(KEY, all[..i])
    {
      var key := if orders[i].key.Some? then orders[i].key.value else fallback(i);
      assert all[..i + 1][..i] == all[..i];
      assert all[i] == Keyed(key, orders[i]);
      assert Map(KEY, all[..i + 1]) == Map(KEY, all[..i]) + [key];
      if key !in seen {
        seen, kept := seen + {key}, kept + [Keyed(key, orders[i])];
      }
    }
    assert all[..|orders|] == all;
    EachKeyOnce(all);
  }

  // ---- the kinds of orders ----

  predicate IsChargeback(o: Order) { o.chargebackWord }

  predicate IsRefund(o: Order) { !o.chargebackWord && (o.refundWord || o.amount < 0) }

  predicate IsPositive(o: Order) { o.amount > 0 && !IsRefund(o) && !IsChargeback(o) && !o.cancelWord }

  function Abs(x: int): int { if x < 0 then -x else x }

  const REVENUE: Order -> int := (o: Order) => if IsPositive(o) then o.amount else 0

  const REFUNDED: Order -> int := (o: Order) => if IsRefund(o) then Abs(o.amount) else 0

  const CHARGED_BACK: Order -> int := (o: Order) => if IsChargeback(o) then Abs(o.amount) else 0

  function Sum<T(!new)>(weight: T -> int, s: seq<T>): int {
    if s == [] then 0 else Sum(weight, s[..|s| - 1]) + weight(s[|s| - 1])
  }

  lemma SumSnoc<T(!new)>(weight: T -> int, s: seq<T>, x: T)
    ensures Sum(weight, s + [x]) == Sum(weight, s) + weight(x)
  {
    assert (s + [x])[..|s|] == s;
  }

  lemma SumFilterSnoc<T(!new)>(weight: T -> int, keep: T -> bool, s: seq<T>, x: T)
    ensures Sum(weight, Filter(keep, s + [x])) == Sum(weight, Filter(keep, s)) + if keep(x) then weight(x) else 0
  {
    FilterSnoc(keep, s, x);
    if keep(x) {
      SumSnoc(weight, Filter(keep, s), x);
    } else {
      assert Filter(keep, s) + [] == Filter(keep, s);
    }
  }

  lemma {:induction false} SplitSum<T(!new)>(weight: T -> int, p: T -> bool, q: T -> bool, s: seq<T>)
    requires forall x <- s :: p(x) <==> !q(x)
    ensures Sum(weight, Filter(p, s)) + Sum(weight, Filter(q, s)) == Sum(weight, s)
    decreases |s|
  {
    if s != [] {
      var front, last := s[..|s| - 1], s[|s| - 1];
      assert s == front + [last];
      assert last in s;
      SplitSum(weight, p, q, front);
      SumFilterSnoc(weight, p, front, last);
      SumFilterSnoc(weight, q, front, last);
    }
  }

  const MAGNITUDE: Order -> int := (o: Order) => Abs(o.amount)

  const CANCELED: Order -> bool := (o: Order) => !IsPositive(o) && !IsRefund(o) && !IsChargeback(o)

  /** No order counts twice: what is sold, refunded, charged back or none of these is together every amount. */
  lemma {:induction false} KindsPartition(orders: seq<Order>)
    ensures Sum(REVENUE, orders) + Sum(REFUNDED, orders) + Sum(CHARGED_BACK, orders)
            + Sum(MAGNITUDE, Filter(CANCELED, orders))
            == Sum(MAGNITUDE, orders)
    decreases |orders|
  {
    if orders != [] {
      var front, last := orders[..|orders| - 1], orders[|orders| - 1];
      assert orders == front + [last];
      KindsPartition(front);
      SumFilterSnoc(MAGNITUDE, CANCELED, front, last);
    }
  }

  // ---- sums by group ----

  /** The sums of the groups with the given keys. */
  function GroupSums<T(!new)>(key: T -> string, weight: T -> int, ks: seq<string>, s: seq<T>): int {
    if ks == [] then 0 else GroupSums(key, weight, ks[..|ks| - 1], s) + Sum(weight, Group(key, ks[|ks| - 1], s))
  }

  lemma {:induction false} NoMembers<T(!new)>(key: T -> string, weight: T -> int, ks: seq<string>)
    ensures GroupSums(key, weight, ks, []) == 0
    decreases |ks|
  {
    if ks != [] {
      NoMembers(key, weight, ks[..|ks| - 1]);
    }
  }

  lemma {:induction false} MemberAdds<T(!new)>(key: T -> string, weight: T -> int, ks: seq<string>, s: seq<T>, x: T)
    requires forall i, j :: 0 <= i < j < |ks| ==> ks[i] != ks[j]
    ensures GroupSums(key, weight, ks, s + [x]) == GroupSums(key, weight, ks, s) + if key(x) in ks then weight(x) else 0
    decreases |ks|
  {
    if ks != [] {
      var front, last := ks[..|ks| - 1], ks[|ks| - 1];
      assert ks == front + [last];
      MemberAdds(key, weight, front, s, x);
      FilterSnoc(HasKey(key, last), s, x);
      if key(x) == last {
        SumSnoc(weight, Group(key, last, s), x);
      } else {
        assert Group(key, last, s) + [] == Group(key, last, s);
      }
    }
  }

  /** The groups of all keys that occur add up to the whole. */
  lemma {:induction false} GroupsAddUp<T(!new)>(key: T -> string, weight: T -> int, ks: seq<string>, s: seq<T>)
    requires forall i, j :: 0 <= i < j < |ks| ==> ks[i] != ks[j]
    requires forall x <- s :: key(x) in ks
    ensures GroupSums(key, weight, ks, s) == Sum(weight, s)
    decreases |s|
  {
    if s == [] {
      NoMembers(key, weight, ks);
    } else {
      var front, last := s[..|s| - 1], s[|s| - 1];
      assert s == front + [last];
      assert last in s;
      GroupsAddUp(key, weight, ks, front);
      MemberAdds(key, weight, ks, front, last);
    }
  }

  // ---- what a map holds in all ----

  function ValueAt(m: map<string, int>, k: string): int { if k in m then m[k] else 0 }

  /** The values under the keys, added up. */
  function TotalOf(keys: seq<string>, m: map<string, int>): int {
    if keys == [] then 0 else TotalOf(keys[..|keys| - 1], m) + ValueAt(m, keys[|keys| - 1])
  }

  /** A map that holds the sums of its groups holds the sums of the groups in all. */
  lemma {:induction false} TotalOfGroups<T(!new)>(
    key: T -> string, weight: T -> int, keys: seq<string>, m: map<string, int>, s: seq<T>)
    requires forall k <- keys :: k in m && m[k] == Sum(weight, Group(key, k, s))
    ensures TotalOf(keys, m) == GroupSums(key, weight, keys, s)
    decreases |keys|
  {
    if keys != [] {
      assert keys[|keys| - 1] in keys;
      TotalOfGroups(key, weight, keys[..|keys| - 1], m, s);
    }
  }

  // ---- months ----

  const DATED: Order -> bool := (o: Order) => o.month.Some?

  const UNDATED: Order -> bool := (o: Order) => o.month.None?

  const MONTH: Order -> string := (o: Order) => if o.month.Some? then o.month.value else ""

  datatype Month = Month(revenue: int, refunds: int)

  function MonthOfOrders(orders: seq<Order>): Month { Month(Sum(REVENUE, orders), Sum(REFUNDED, orders)) }

  function MonthOf(k: string, dated: seq<Order>): Month { MonthOfOrders(Group(MONTH, k, dated)) }

  ghost predicate DomainIs(keys: seq<string>, months: map<string, Month>) { forall k :: k in months <==> k in keys }

  ghost predicate ValuesAre(months: map<string, Month>, dated: seq<Order>) {
    forall k :: k in months ==> months[k] == MonthOf(k, dated)
  }

  ghost predicate MonthsOf(keys: seq<string>, months: map<string, Month>, dated: seq<Order>) {
    keys == Firsts(Map(MONTH, dated)) && DomainIs(keys, months) && ValuesAre(months, dated)
  }

  function AddOrder(m: Month, o: Order): Month {
    if IsRefund(o) then m.(refunds := m.refunds + Abs(o.amount))
    else if o.amount > 0 && !IsChargeback(o) && !o.cancelWord then m.(revenue := m.revenue + o.amount)
    else m
  }

  lemma MonthGrows(orders: seq<Order>, o: Order)
    ensures MonthOfOrders(orders + [o]) == AddOrder(MonthOfOrders(orders), o)
  {
    SumSnoc(REVENUE, orders, o);
    SumSnoc(REFUNDED, orders, o);
  }

  function MonthBefore(months: map<string, Month>, k: string): Month { if k in months then months[k] else Month(0, 0) }

  function AddToMonths(months: map<string, Month>, o: Order): map<string, Month> {
    months[MONTH(o) := AddOrder(MonthBefore(months, MONTH(o)), o)]
  }

  lemma MonthAfter(k: string, dated: seq<Order>, o: Order)
    ensures MonthOf(k, dated + [o]) == if MONTH(o) == k then AddOrder(MonthOf(k, dated), o) else MonthOf(k, dated)
  {
    FilterSnoc(HasKey(MONTH, k), dated, o);
    if MONTH(o) == k {
      MonthGrows(Group(MONTH, k, dated), o);
    } else {
      assert Group(MONTH, k, dated) + [] == Group(MONTH, k, dated);
    }
  }

  lemma NewMonth(dated: seq<Order>, k: string)
    requires k !in Firsts(Map(MONTH, dated))
    ensures MonthOf(k, dated) == Month(0, 0)
  {
    forall o | o in dated ensures MONTH(o) != k {
      var i :| 0 <= i < |dated| && dated[i] == o;
      assert Map(MONTH, dated)[i] == MONTH(o);
    }
    FilterNone(HasKey(MONTH, k), dated);
  }

  lemma MonthValue(keys: seq<string>, months: map<string, Month>, dated: seq<Order>, o: Order, k: string)
    requires MonthsOf(keys, months, dated) && k in AddToMonths(months, o)
    ensures AddToMonths(months, o)[k] == MonthOf(k, dated + [o])
  {
    MonthAfter(k, dated, o);
    if k !in months {
      NewMonth(dated, k);
    }
  }

  lemma MonthKeysGrow(dated: seq<Order>, o: Order)
    ensures var keys := Firsts(Map(MONTH, dated));
            Firsts(Map(MONTH, dated + [o])) == if MONTH(o) in keys then keys else keys + [MONTH(o)]
  {
    assert Map(MONTH, dated + [o]) == Map(MONTH, dated) + [MONTH(o)];
    FirstsSnoc(Map(MONTH, dated), MONTH(o));
  }

  lemma DomainGrows(keys: seq<string>, months: map<string, Month>, k: string, m: Month)
    requires DomainIs(keys, months)
    ensures DomainIs(if k in months then keys else keys + [k], months[k := m])
  {
  }

  lemma ValuesGrow(keys: seq<string>, months: map<string, Month>, dated: seq<Order>, o: Order)
    requires MonthsOf(keys, months, dated)
    ensures ValuesAre(AddToMonths(months, o), dated + [o])
  {
    forall k | k in AddToMonths(months, o) ensures AddToMonths(months, o)[k] == MonthOf(k, dated + [o]) {
      MonthValue(keys, months, dated, o, k);
    }
  }

  lemma MonthsGrow(keys: seq<string>, months: map<string, Month>, dated: seq<Order>, o: Order)
    requires MonthsOf(keys, months, dated)
    ensures MonthsOf(if MONTH(o) in months then keys else keys + [MONTH(o)], AddToMonths(months, o), dated + [o])
  {
    MonthKeysGrow(dated, o);
    DomainGrows(keys, months, MONTH(o), AddOrder(MonthBefore(months, MONTH(o)), o));
    ValuesGrow(keys, months, dated, o);
  }

  method ValueByMonth(orders: seq<Order>) returns (keys: seq<string>, months: map<string, Month>)
    ensures MonthsOf(keys, months, Filter(DATED, orders))
  {
    keys, months := [], map[];
    for i := 0 to |orders|
      invariant MonthsOf(keys, months, Filter(DATED, orders[..i]))
    {
      var o := orders[i];
      assert orders[..i + 1] == orders[..i] + [o];
      FilterSnoc(DATED, orders[..i], o);
      if o.month.Some? {
        MonthsGrow(keys, months, Filter(DATED, orders[..i]), o);
        var k := o.month.value;
        if k !in months {
          keys := keys + [k];
        }
        months := months[k := AddOrder(MonthBefore(months, k), o)];
      } else {
        assert Filter(DATED, orders[..i + 1]) == Filter(DATED, orders[..i]);
      }
    }
    assert orders[..|orders|] == orders;
  }

  function Revenues(months: map<string, Month>): map<string, int> { map k | k in months :: months[k].revenue }

  function Refunds(months: map<string, Month>): map<string, int> { map k | k in months :: months[k].refunds }

  /** The months of the map and the undated orders add up to the customer's totals, for revenue and for refunds. */
  lemma MonthsAddUp(orders: seq<Order>, keys: seq<string>, months: map<string, Month>)
    requires MonthsOf(keys, months, Filter(DATED, orders))
    ensures TotalOf(keys, Revenues(months)) + Sum(REVENUE, Filter(UNDATED, orders)) == Sum(REVENUE, orders)
    ensures TotalOf(keys, Refunds(months)) + Sum(REFUNDED, Filter(UNDATED, orders)) == Sum(REFUNDED, orders)
  {
    var dated := Filter(DATED, orders);
    TotalOfGroups(MONTH, REVENUE, keys, Revenues(months), dated);
    TotalOfGroups(MONTH, REFUNDED, keys, Refunds(months), dated);
    MonthGroupsAddUp(orders, REVENUE);
    MonthGroupsAddUp(orders, REFUNDED);
  }

  lemma MonthGroupsAddUp(orders: seq<Order>, weight: Order -> int)
    ensures var dated := Filter(DATED, orders);
            GroupSums(MONTH, weight, Firsts(Map(MONTH, dated)), dated) + Sum(weight, Filter(UNDATED, orders))
            == Sum(weight, orders)
  {
    var dated := Filter(DATED, orders);
    var months := Map(MONTH, dated);
    forall o | o in dated ensures MONTH(o) in Firsts(months) {
      var i :| 0 <= i < |dated| && dated[i] == o;
      assert months[i] == MONTH(o);
    }
    GroupsAddUp(MONTH, weight, Firsts(months), dated);
    SplitSum(weight, DATED, UNDATED, orders);
  }

  // ---- channels ----

  const CHANNEL: Credit -> string := (c: Credit) => c.channel

  const CREDITED: Credit -> int := (c: Credit) => c.amount

  ghost predicate ChannelsOf(revenue: map<string, int>, credits: seq<Credit>, ordered: set<string>) {
    && (forall k :: k in revenue <==> k in Map(CHANNEL, credits) || k in ordered)
    && (forall k :: k in revenue ==> revenue[k] == Sum(CREDITED, Group(CHANNEL, k, credits)))
  }

  function Ordered(orders: seq<Order>): set<string> { set o | o in orders && o.channel.Some? :: o.channel.value }

  function RevenueBefore(revenue: map<string, int>, k: string): int { if k in revenue then revenue[k] else 0 }

  lemma ChannelGrows(revenue: map<string, int>, credits: seq<Credit>, c: Credit, k: string)
    requires ChannelsOf(revenue, credits, {}) && (k in revenue || k == c.channel)
    ensures Sum(CREDITED, Group(CHANNEL, k, credits + [c]))
            == RevenueBefore(revenue, k) + if k == c.channel then c.amount else 0
  {
    SumFilterSnoc(CREDITED, HasKey(CHANNEL, k), credits, c);
    if k !in revenue {
      NoCredits(credits, k);
    }
  }

  lemma ChannelsGrow(revenue: map<string, int>, credits: seq<Credit>, c: Credit)
    requires ChannelsOf(revenue, credits, {})
    ensures ChannelsOf(revenue[c.channel := RevenueBefore(revenue, c.channel) + c.amount], credits + [c], {})
  {
    var next := revenue[c.channel := RevenueBefore(revenue, c.channel) + c.amount];
    assert Map(CHANNEL, credits + [c]) == Map(CHANNEL, credits) + [c.channel];
    assert forall k :: k in next <==> k in Map(CHANNEL, credits + [c]);
    forall k | k in next ensures next[k] == Sum(CREDITED, Group(CHANNEL, k, credits + [c])) {
      ChannelGrows(revenue, credits, c, k);
    }
  }

  /** The channels of a map in the order of their insertion. */
  ghost predicate Listed(keys: seq<string>, revenue: map<string, int>) {
    && (forall i, j :: 0 <= i < j < |keys| ==> keys[i] != keys[j])
    && (forall k :: k in keys <==> k in revenue)
  }

  function Listing(keys: seq<string>, revenue: map<string, int>, k: string): seq<string> {
    if k in revenue then keys else keys + [k]
  }

  lemma ListingGrows(keys: seq<string>, revenue: map<string, int>, k: string, amount: int)
    requires Listed(keys, revenue)
    ensures Listed(Listing(keys, revenue, k), revenue[k := amount])
  {
  }

  lemma CreditListed(keys: seq<string>, revenue: map<string, int>, credits: seq<Credit>, i: nat)
    requires i < |credits| && Listed(keys, revenue) && ChannelsOf(revenue, credits[..i], {})
    ensures var c := credits[i];
            var amount := RevenueBefore(revenue, c.channel) + c.amount;
            && Listed(Listing(keys, revenue, c.channel), revenue[c.channel := amount])
            && ChannelsOf(revenue[c.channel := amount], credits[..i + 1], {})
  {
    assert credits[..i + 1] == credits[..i] + [credits[i]];
    ChannelsGrow(revenue, credits[..i], credits[i]);
    ListingGrows(keys, revenue, credits[i].channel, RevenueBefore(revenue, credits[i].channel) + credits[i].amount);
  }

  /** Credits add to their channels; positive orders with a channel only make sure it is listed. */
  method Channels(credits: seq<Credit>, orders: seq<Order>) returns (keys: seq<string>, revenue: map<string, int>)
    ensures Listed(keys, revenue) && ChannelsOf(revenue, credits, Ordered(orders))
  {
    keys, revenue := ListCredits(credits);
    keys, revenue := ListOrders(credits, orders, keys, revenue);
  }

  method ListCredits(credits: seq<Credit>) returns (keys: seq<string>, revenue: map<string, int>)
    ensures Listed(keys, revenue) && ChannelsOf(revenue, credits, {})
  {
    keys, revenue := [], map[];
    for i := 0 to |credits|
      invariant Listed(keys, revenue) && ChannelsOf(revenue, credits[..i], {})
    {
      CreditListed(keys, revenue, credits, i);
      var c := credits[i];
      var amount := RevenueBefore(revenue, c.channel) + c.amount;
      keys := Listing(keys, revenue, c.channel);
      revenue := revenue[c.channel := amount];
    }
    assert credits[..|credits|] == credits;
  }

  method ListOrders(ghost credits: seq<Credit>, orders: seq<Order>, before: seq<string>, known: map<string, int>)
    returns (keys: seq<string>, revenue: map<string, int>)
    requires Listed(before, known) && ChannelsOf(known, credits, {})
    ensures Listed(keys, revenue) && ChannelsOf(revenue, credits, Ordered(orders))
  {
    keys, revenue := before, known;
    for i := 0 to |orders|
      invariant Listed(keys, revenue) && ChannelsOf(revenue, credits, Ordered(orders[..i]))
    {
      assert orders[..i + 1] == orders[..i] + [orders[i]];
      OrderedSnoc(orders[..i], orders[i]);
      if orders[i].channel.Some? && orders[i].channel.value !in revenue {
        var k := orders[i].channel.value;
        NoCredits(credits, k);
        ListingGrows(keys, revenue, k, 0);
        keys := keys + [k];
        revenue := revenue[k := 0];
      }
    }
    assert orders[..|orders|] == orders;
  }

  lemma OrderedSnoc(orders: seq<Order>, o: Order)
    ensures Ordered(orders + [o]) == Ordered(orders) + if o.channel.Some? then {o.channel.value} else {}
  {
  }

  lemma NoCredits(credits: seq<Credit>, k: string)
    requires k !in Map(CHANNEL, credits)
    ensures Sum(CREDITED, Group(CHANNEL, k, credits)) == 0
  {
    forall c | c in credits ensures c.channel != k {
      var i :| 0 <= i < |credits| && credits[i] == c;
      assert Map(CHANNEL, credits)[i] == c.channel;
    }
    FilterNone(HasKey(CHANNEL, k), credits);
  }

  const ATTRIBUTED: Credit -> bool := (c: Credit) => !c.unattributed

  const UNATTRIBUTED: Credit -> bool := (c: Credit) => c.unattributed

  /**
   * The channels of the map add up to all credits; they add up to the attributed revenue of the summary, which
   * leaves unattributed credits out, exactly when those come to nothing.
   */
  lemma ChannelsAddUp(credits: seq<Credit>, ordered: set<string>, keys: seq<string>, revenue: map<string, int>)
    requires Listed(keys, revenue) && ChannelsOf(revenue, credits, ordered)
    ensures TotalOf(keys, revenue) == Sum(CREDITED, credits)
    ensures TotalOf(keys, revenue) == Sum(CREDITED, Filter(ATTRIBUTED, credits))
            <==> Sum(CREDITED, Filter(UNATTRIBUTED, credits)) == 0
  {
    forall c | c in credits ensures CHANNEL(c) in keys {
      var i :| 0 <= i < |credits| && credits[i] == c;
      assert Map(CHANNEL, credits)[i] == c.channel;
    }
    TotalOfGroups(CHANNEL, CREDITED, keys, revenue, credits);
    GroupsAddUp(CHANNEL, CREDITED, keys, credits);
    SplitSum(CREDITED, ATTRIBUTED, UNATTRIBUTED, credits);
  }
}
