/** Which orders and credits the groupings of a customer's view count, and as what, told by their own fields. */
module CustomerRules {
  import opened Prelude
  import opened Seqs
  import opened Customer360

  // ---- which orders are kept ----

  /** An order stays exactly when no earlier one has its key. */
  ghost predicate FirstOfItsKey(ks: seq<Keyed>, i: nat) {
    i < |ks| && forall j :: 0 <= j < i ==> ks[j].key != ks[i].key
  }

  lemma {:induction false} KeptExactly(ks: seq<Keyed>, k: Keyed)
    ensures k in FirstOfEach(ks) <==> exists i: nat :: FirstOfItsKey(ks, i) && ks[i] == k
    decreases |ks|
  {
    if ks != [] {
      var front, n := ks[..|ks| - 1], |ks| - 1;
      KeptExactly(front, k);
      forall i: nat | i < n ensures FirstOfItsKey(front, i) <==> FirstOfItsKey(ks, i) {
      }
      LastIsKeptExactly(front, ks[n]);
      assert ks == front + [ks[n]];
    }
  }

  lemma LastIsKeptExactly(front: seq<Keyed>, last: Keyed)
    ensures last.key !in Map(KEY, front) <==> FirstOfItsKey(front + [last], |front|)
  {
    if last.key in Map(KEY, front) {
      var j :| 0 <= j < |front| && Map(KEY, front)[j] == last.key;
      assert (front + [last])[j].key == last.key;
    } else {
      forall j | 0 <= j < |front| ensures (front + [last])[j].key != last.key {
        assert Map(KEY, front)[j] == front[j].key;
      }
    }
  }

  // ---- what an order counts as ----

  /** A refund by its word or its sign, unless it is a chargeback. */
  predicate GivesBack(o: Order) { !o.chargebackWord && (o.refundWord || o.amount <= -1) }

  /** Money that came in: a positive amount without any of the three words. */
  predicate PaysIn(o: Order) { o.amount >= 1 && !o.chargebackWord && !o.refundWord && !o.cancelWord }

  function PaidIn(k: string): Order -> int {
    (o: Order) => if o.month == Some(k) && PaysIn(o) then o.amount else 0
  }

  function GivenBack(k: string): Order -> int {
    (o: Order) => if o.month == Some(k) && GivesBack(o) then Magnitude(o.amount) else 0
  }

  function Magnitude(x: int): int { if x >= 0 then x else -x }

  lemma {:induction false} SameSums<T(!new)>(v: T -> int, keep: T -> bool, w: T -> int, s: seq<T>)
    requires forall x :: w(x) == if keep(x) then v(x) else 0
    ensures Sum(v, Filter(keep, s)) == Sum(w, s)
    decreases |s|
  {
    if s != [] {
      var front, last := s[..|s| - 1], s[|s| - 1];
      assert s == front + [last];
      SameSums(v, keep, w, front);
      SumFilterSnoc(v, keep, front, last);
    }
  }

  function InMonth(k: string): Order -> bool { (o: Order) => o.month == Some(k) }

  /** A month holds what its orders paid in and gave back, and it is there exactly when some order falls in it. */
  lemma MonthExactly(orders: seq<Order>, keys: seq<string>, months: map<string, Month>, k: string)
    requires MonthsOf(keys, months, Filter(DATED, orders))
    ensures k in months <==> exists o :: o in orders && o.month == Some(k)
    ensures k in months ==> months[k] == Month(Sum(PaidIn(k), orders), Sum(GivenBack(k), orders))
  {
    var dated := Filter(DATED, orders);
    MonthIsThere(orders, k);
    if k in months {
      FilterFilter(HasKey(MONTH, k), DATED, InMonth(k), orders);
      SameSums(REVENUE, InMonth(k), PaidIn(k), orders);
      SameSums(REFUNDED, InMonth(k), GivenBack(k), orders);
    }
  }

  lemma MonthIsThere(orders: seq<Order>, k: string)
    ensures k in Map(MONTH, Filter(DATED, orders)) <==> exists o :: o in orders && o.month == Some(k)
  {
    var dated := Filter(DATED, orders);
    if k in Map(MONTH, dated) {
      var i :| 0 <= i < |dated| && Map(MONTH, dated)[i] == k;
      assert dated[i] in dated && dated[i].month == Some(k);
    }
    if o :| o in orders && o.month == Some(k) {
      assert o in dated;
      var i :| 0 <= i < |dated| && dated[i] == o;
      assert Map(MONTH, dated)[i] == k;
    }
  }

  // ---- channels ----

  function CreditedTo(k: string): Credit -> int { (c: Credit) => if c.channel == k then c.amount else 0 }

  /** A channel holds its credits; it is there exactly when a credit or an order names it. */
  lemma ChannelExactly(credits: seq<Credit>, orders: seq<Order>, revenue: map<string, int>, k: string)
    requires ChannelsOf(revenue, credits, Ordered(orders))
    ensures k in revenue
            <==> (exists c :: c in credits && c.channel == k) || exists o :: o in orders && o.channel == Some(k)
    ensures k in revenue ==> revenue[k] == Sum(CreditedTo(k), credits)
  {
    SameSums(CREDITED, HasKey(CHANNEL, k), CreditedTo(k), credits);
    if c :| c in credits && c.channel == k {
      var i :| 0 <= i < |credits| && credits[i] == c;
      assert Map(CHANNEL, credits)[i] == k;
    }
    if k in Map(CHANNEL, credits) {
      var i :| 0 <= i < |credits| && Map(CHANNEL, credits)[i] == k;
      assert credits[i] in credits;
    }
  }
}
