/**
 * Suggesting the order of a ledger row: an index of the orders by folded reference, and the first of
 * seven references that finds an order.
 */
module Reconciliation {
  import opened Prelude
  import opened Ordering
  import opened Seqs

  datatype Kind = TransactionId | PlatformOrderId | OrderId | CommerceReference

  /** Texts are trimmed and "" is a missing one; `tag` stands for everything else in the record. */
  datatype Order = Order(transactionId: string, platformOrderId: string, orderId: string, commerceReference: string,
                         tag: int)

  /** Lower-casing: any folding that keeps a text empty or not. */
  type Fold = string -> string

  ghost predicate KeepsEmptiness(fold: Fold) { forall s :: fold(s) == "" <==> s == "" }

  function Field(o: Order, k: Kind): string {
    match k
    case TransactionId => o.transactionId
    case PlatformOrderId => o.platformOrderId
    case OrderId => o.orderId
    case CommerceReference => o.commerceReference
  }

  // ---- the index and the scan ----

  datatype Reference = Reference(kind: Kind, value: string)

  type Index = map<Reference, seq<Order>>

  function Lookup(index: Index, r: Reference): seq<Order> { if r in index then index[r] else [] }

  function Hits(fold: Fold, k: Kind, value: string): Order -> bool {
    (o: Order) => fold(Field(o, k)) == fold(value) && fold(value) != ""
  }

  /** What a linear scan finds. */
  function Scan(fold: Fold, orders: seq<Order>, k: Kind, value: string): seq<Order> {
    Filter(Hits(fold, k, value), orders)
  }

  function Find(fold: Fold, index: Index, k: Kind, value: string): seq<Order> {
    Lookup(index, Reference(k, fold(value)))
  }

  function Add(fold: Fold, index: Index, k: Kind, o: Order): Index {
    var key := Reference(k, fold(Field(o, k)));
    if fold(Field(o, k)) == "" then index else index[key := Lookup(index, key) + [o]]
  }

  ghost predicate Agrees(fold: Fold, index: Index, orders: seq<Order>) {
    forall k, v :: Find(fold, index, k, v) == Scan(fold, orders, k, v)
  }

  lemma AddChanges(fold: Fold, index: Index, k: Kind, o: Order, l: Kind, value: string)
    ensures Find(fold, Add(fold, index, k, o), l, value)
            == Find(fold, index, l, value) + if l == k && Hits(fold, k, value)(o) then [o] else []
  {
  }

  function AddAll(fold: Fold, index: Index, o: Order): Index {
    Add(fold, Add(fold, Add(fold, Add(fold, index, TransactionId, o), PlatformOrderId, o), OrderId, o),
        CommerceReference, o)
  }

  lemma AddAllChanges(fold: Fold, index: Index, o: Order, k: Kind, value: string)
    ensures Find(fold, AddAll(fold, index, o), k, value)
            == Find(fold, index, k, value) + if Hits(fold, k, value)(o) then [o] else []
  {
    var second := Add(fold, index, TransactionId, o);
    var third := Add(fold, second, PlatformOrderId, o);
    var fourth := Add(fold, third, OrderId, o);
    AddChanges(fold, index, TransactionId, o, k, value);
    AddChanges(fold, second, PlatformOrderId, o, k, value);
    AddChanges(fold, third, OrderId, o, k, value);
    AddChanges(fold, fourth, CommerceReference, o, k, value);
  }

  lemma AddAllAgrees(fold: Fold, index: Index, orders: seq<Order>, o: Order)
    requires Agrees(fold, index, orders)
    ensures Agrees(fold, AddAll(fold, index, o), orders + [o])
  {
    forall k, v ensures Find(fold, AddAll(fold, index, o), k, v) == Scan(fold, orders + [o], k, v) {
      AddAllChanges(fold, index, o, k, v);
      FilterSnoc(Hits(fold, k, v), orders, o);
    }
  }

  /** The index answers every lookup as a linear scan of the orders would. */
  method GroupOrdersByReference(fold: Fold, orders: seq<Order>) returns (index: Index)
    ensures Agrees(fold, index, orders)
  {
    index := map[];
    for i := 0 to |orders|
      invariant Agrees(fold, index, orders[..i])
    {
      AddAllAgrees(fold, index, orders[..i], orders[i]);
      index := Add(fold, index, TransactionId, orders[i]);
      index := Add(fold, index, PlatformOrderId, orders[i]);
      index := Add(fold, index, OrderId, orders[i]);
      index := Add(fold, index, CommerceReference, orders[i]);
      assert orders[..i + 1] == orders[..i] + [orders[i]];
    }
    assert orders[..|orders|] == orders;
  }

  // ---- identities ----

  function OrderKey(o: Order): string {
    if o.platformOrderId != "" then o.platformOrderId else if o.orderId != "" then o.orderId
    else if o.transactionId != "" then o.transactionId else o.commerceReference
  }

  const ORDER_KEY: Order -> string := (o: Order) => OrderKey(o)

  const NAMED: string -> bool := (key: string) => key != ""

  /** The identities of the orders, in the order of their first occurrence. */
  function Identities(orders: seq<Order>): seq<string> { Filter(NAMED, Firsts(Map(ORDER_KEY, orders))) }

  /** One order an identity: at the place of its first occurrence, its last record. */
  function UniqueOrders(orders: seq<Order>): (r: seq<Order>)
    ensures |r| == |Identities(orders)|
  {
    var keys := Identities(orders);
    seq(|keys|, i requires 0 <= i < |keys| =>
      assert keys[i] in keys;
      LastOf(orders, keys[i]))
  }

  function LastOf(orders: seq<Order>, key: string): Order
    requires key in Map(ORDER_KEY, orders)
    decreases |orders|
  {
    var last := orders[|orders| - 1];
    if OrderKey(last) == key then last
    else
      assert Map(ORDER_KEY, orders) == Map(ORDER_KEY, orders[..|orders| - 1]) + [OrderKey(last)];
      LastOf(orders[..|orders| - 1], key)
  }

  lemma {:induction false} LastOfIsLast(orders: seq<Order>, key: string)
    requires key in Map(ORDER_KEY, orders)
    ensures var group := Group(ORDER_KEY, key, orders); group != [] && LastOf(orders, key) == group[|group| - 1]
    decreases |orders|
  {
    var front, last := orders[..|orders| - 1], orders[|orders| - 1];
    assert orders == front + [last];
    FilterSnoc(HasKey(ORDER_KEY, key), front, last);
    if OrderKey(last) != key {
      assert Map(ORDER_KEY, orders) == Map(ORDER_KEY, front) + [OrderKey(last)];
      LastOfIsLast(front, key);
    }
  }

  lemma KeptOrder(orders: seq<Order>, i: nat)
    requires i < |UniqueOrders(orders)|
    ensures UniqueOrders(orders)[i] in orders && OrderKey(UniqueOrders(orders)[i]) == Identities(orders)[i]
  {
    var key := Identities(orders)[i];
    assert key in Identities(orders);
    LastOfIsLast(orders, key);
    var group := Group(ORDER_KEY, key, orders);
    assert group[|group| - 1] in group;
  }

  /** Each named identity once: the kept orders are members, and two kept orders never share an identity. */
  lemma UniqueOrdersAreUnique(orders: seq<Order>)
    ensures forall o <- UniqueOrders(orders) :: o in orders
    ensures Map(ORDER_KEY, UniqueOrders(orders)) == Identities(orders)
    ensures Distinct(Identities(orders))
    ensures forall key :: key in Identities(orders) <==> Matched(orders, key)
  {
    forall i: nat | i < |UniqueOrders(orders)|
      ensures UniqueOrders(orders)[i] in orders && OrderKey(UniqueOrders(orders)[i]) == Identities(orders)[i]
    {
      KeptOrder(orders, i);
    }
    FilterKeepsDistinct(Firsts(Map(ORDER_KEY, orders)));
    forall key ensures key in Identities(orders) <==> Matched(orders, key) {
      IdentityIsMatched(orders, key);
    }
  }

  lemma {:induction false} FilterKeepsDistinct(s: seq<string>)
    requires forall i, j :: 0 <= i < j < |s| ==> s[i] != s[j]
    ensures forall i, j :: 0 <= i < j < |Filter(NAMED, s)| ==> Filter(NAMED, s)[i] != Filter(NAMED, s)[j]
    decreases |s|
  {
    if s != [] {
      var front, last := s[..|s| - 1], s[|s| - 1];
      assert s == front + [last];
      FilterKeepsDistinct(front);
      FilterSnoc(NAMED, front, last);
      assert last !in Filter(NAMED, front);
    }
  }

  ghost predicate Matched(orders: seq<Order>, key: string) {
    key != "" && exists o :: o in orders && OrderKey(o) == key
  }

  lemma IdentityIsMatched(orders: seq<Order>, key: string)
    ensures key in Identities(orders) <==> Matched(orders, key)
  {
    var keys := Map(ORDER_KEY, orders);
    if key in Identities(orders) {
      assert key in keys;
      var i :| 0 <= i < |keys| && keys[i] == key;
      assert orders[i] in orders;
    }
    if Matched(orders, key) {
      var o :| o in orders && OrderKey(o) == key;
      var n :| 0 <= n < |orders| && orders[n] == o;
      assert keys[n] == key;
    }
  }

  lemma NoIdentity(orders: seq<Order>)
    ensures |UniqueOrders(orders)| == 0 <==> forall key :: !Matched(orders, key)
  {
    var keys := Identities(orders);
    if |keys| > 0 {
      assert keys[0] in keys;
      IdentityIsMatched(orders, keys[0]);
    } else {
      forall key ensures !Matched(orders, key) {
        IdentityIsMatched(orders, key);
      }
    }
  }

  lemma SeveralIdentities(orders: seq<Order>)
    ensures |UniqueOrders(orders)| > 1 <==> exists a, b :: a != b && Matched(orders, a) && Matched(orders, b)
  {
    var keys := Identities(orders);
    if |keys| > 1 {
      FilterKeepsDistinct(Firsts(Map(ORDER_KEY, orders)));
      assert keys[0] in keys && keys[1] in keys;
      IdentityIsMatched(orders, keys[0]);
      IdentityIsMatched(orders, keys[1]);
    }
    if a, b :| a != b && Matched(orders, a) && Matched(orders, b) {
      IdentityIsMatched(orders, a);
      IdentityIsMatched(orders, b);
      TwoMembers(keys, a, b);
    }
  }

  lemma TwoMembers(s: seq<string>, a: string, b: string)
    requires a in s && b in s && a != b
    ensures |s| > 1
  {
  }

  // ---- the suggestion ----

  datatype Confidence = Exact | High | Medium | InConflict | NoConfidence

  datatype ReferenceName =
    | SellerTransaction
    | BuyerTransaction
    | ParentTransaction
    | PaymentTransaction
    | ByPlatformOrder
    | ByOrder
    | ByCommerceReference

  datatype Priority = Priority(reference: ReferenceName, kind: Kind, confidence: Confidence)

  const PRIORITY := [
    Priority(SellerTransaction, TransactionId, Exact),
    Priority(BuyerTransaction, TransactionId, High),
    Priority(ParentTransaction, TransactionId, High),
    Priority(PaymentTransaction, TransactionId, High),
    Priority(ByPlatformOrder, PlatformOrderId, Exact),
    Priority(ByOrder, OrderId, Exact),
    Priority(ByCommerceReference, CommerceReference, Medium)]

  /** The references of a ledger row; "" is a missing one. */
  type References = ReferenceName -> string

  datatype Suggestion =
    | OperatorConfirmed(order: Order)
    | Candidate(reference: ReferenceName, confidence: Confidence, order: Order)
    | Conflict(reference: ReferenceName, among: seq<Order>)
    | NoSuggestion

  /** What the reference finds, by a linear scan. */
  function Found(fold: Fold, orders: seq<Order>, refs: References, i: nat): seq<Order>
    requires i < |PRIORITY|
  {
    Scan(fold, orders, PRIORITY[i].kind, refs(PRIORITY[i].reference))
  }

  ghost predicate Silent(fold: Fold, orders: seq<Order>, refs: References, i: nat)
    requires i < |PRIORITY|
  {
    UniqueOrders(Found(fold, orders, refs, i)) == []
  }

  /** The suggestion comes from the first reference that finds an order: a candidate, or a conflict of several. */
  ghost predicate FromTheFirst(fold: Fold, orders: seq<Order>, refs: References, s: Suggestion, i: nat)
    requires i <= |PRIORITY|
  {
    && (forall j :: 0 <= j < i ==> Silent(fold, orders, refs, j))
    && if i == |PRIORITY| then s == NoSuggestion
       else
         var found := UniqueOrders(Found(fold, orders, refs, i));
         && found != []
         && s == SuggestionFrom(PRIORITY[i], found)
  }

  function SuggestionFrom(p: Priority, found: seq<Order>): Suggestion
    requires found != []
  {
    if |found| == 1 then Candidate(p.reference, p.confidence, found[0])
    else Conflict(p.reference, found[..Min(5, |found|)])
  }

  /** The orders one reference finds; a missing reference finds none. */
  method FindByReference(fold: Fold, ghost orders: seq<Order>, index: Index, refs: References, i: nat)
      returns (found: seq<Order>)
    requires KeepsEmptiness(fold) && Agrees(fold, index, orders) && i < |PRIORITY|
    ensures found == UniqueOrders(Found(fold, orders, refs, i))
  {
    var value := refs(PRIORITY[i].reference);
    if value == "" {
      MissingFindsNothing(fold, orders, refs, i);
      return [];
    }
    assert Find(fold, index, PRIORITY[i].kind, value) == Found(fold, orders, refs, i);
    found := UniqueOrders(Find(fold, index, PRIORITY[i].kind, value));
  }

  method SuggestionForEvent(fold: Fold, ghost orders: seq<Order>, index: Index, refs: References, manual: Option<Order>)
    returns (s: Suggestion, ghost at: nat)
    requires KeepsEmptiness(fold) && Agrees(fold, index, orders)
    ensures manual.Some? ==> s == OperatorConfirmed(manual.value)
    ensures manual.None? ==> at <= |PRIORITY| && FromTheFirst(fold, orders, refs, s, at)
  {
    at := |PRIORITY|;
    if manual.Some? {
      return OperatorConfirmed(manual.value), at;
    }
    for i := 0 to |PRIORITY|
      invariant at == |PRIORITY| && forall j :: 0 <= j < i ==> Silent(fold, orders, refs, j)
    {
      var found := FindByReference(fold, orders, index, refs, i);
      if found != [] {
        return SuggestionFrom(PRIORITY[i], found), i;
      }
    }
    s := NoSuggestion;
  }

  lemma MissingFindsNothing(fold: Fold, orders: seq<Order>, refs: References, i: nat)
    requires KeepsEmptiness(fold) && i < |PRIORITY| && refs(PRIORITY[i].reference) == ""
    ensures Silent(fold, orders, refs, i)
  {
    FilterNone(Hits(fold, PRIORITY[i].kind, ""), orders);
  }

  /**
   * An order that a reference finds always has an identity, so a reference is silent exactly when the scan is empty.
   */
  lemma SilentExactlyWhen(fold: Fold, orders: seq<Order>, refs: References, i: nat)
    requires KeepsEmptiness(fold) && i < |PRIORITY|
    ensures Silent(fold, orders, refs, i) <==> Found(fold, orders, refs, i) == []
  {
    var found := Found(fold, orders, refs, i);
    NoIdentity(found);
    if found != [] {
      var o := found[0];
      assert o in found;
      assert Field(o, PRIORITY[i].kind) != "";
      assert Matched(found, OrderKey(o));
    }
  }

  /**
   * What the suggestion means, in terms of the orders alone: none exactly when no reference finds an order;
   * a conflict exactly when two identities match at the first reference that finds one; otherwise the candidate
   * is the last record of the one identity there.
   */
  lemma SuggestionMeans(fold: Fold, orders: seq<Order>, refs: References, s: Suggestion, at: nat)
    requires KeepsEmptiness(fold) && at <= |PRIORITY| && FromTheFirst(fold, orders, refs, s, at)
    ensures s.NoSuggestion? <==> forall i :: 0 <= i < |PRIORITY| ==> Found(fold, orders, refs, i) == []
    ensures at < |PRIORITY| ==> Found(fold, orders, refs, at) != []
    ensures at < |PRIORITY| ==> forall j :: 0 <= j < at ==> Found(fold, orders, refs, j) == []
    ensures s.Conflict? <==> at < |PRIORITY| && exists a, b ::
              a != b && Matched(Found(fold, orders, refs, at), a) && Matched(Found(fold, orders, refs, at), b)
    ensures s.Candidate? ==> at < |PRIORITY| && CandidateStands(Found(fold, orders, refs, at), s.order)
  {
    forall i: nat | i < |PRIORITY| ensures Silent(fold, orders, refs, i) <==> Found(fold, orders, refs, i) == [] {
      SilentExactlyWhen(fold, orders, refs, i);
    }
    if at < |PRIORITY| {
      SeveralIdentities(Found(fold, orders, refs, at));
      if |UniqueOrders(Found(fold, orders, refs, at))| == 1 {
        OneIdentity(Found(fold, orders, refs, at));
      }
    }
  }

  /** All the orders found are records of one order, and the candidate is the last of those that name it. */
  ghost predicate CandidateStands(found: seq<Order>, candidate: Order) {
    && OrderKey(candidate) != ""
    && (forall o <- found :: OrderKey(o) == "" || OrderKey(o) == OrderKey(candidate))
    && candidate in found
    && var group := Group(ORDER_KEY, OrderKey(candidate), found); group != [] && candidate == group[|group| - 1]
  }

  lemma OneIdentity(found: seq<Order>)
    requires |UniqueOrders(found)| == 1
    ensures CandidateStands(found, UniqueOrders(found)[0])
  {
    var key := Identities(found)[0];
    assert key in Identities(found);
    KeptOrder(found, 0);
    LastOfIsLast(found, key);
    forall o | o in found && OrderKey(o) != "" ensures OrderKey(o) == key {
      IdentityIsMatched(found, OrderKey(o));
      OnlyMember(Identities(found), OrderKey(o));
    }
  }

  lemma OnlyMember(s: seq<string>, x: string)
    requires x in s && |s| == 1
    ensures x == s[0]
  {
  }

  // ---- the state of a row ----

  datatype State = Ignored | Manual | Removed | Automatic | Ambiguous | Unmatched

  /** An active decision's state, as far as the state of the row looks at it. */
  datatype Decision =
    | DecidedIgnored
    | DecidedManual(platformOrderId: string, orderId: string)
    | DecidedRemoved
    | DecidedOtherwise

  /** The order an active manual decision names, by its platform id and then by its order id. */
  function ActiveManualTarget(fold: Fold, index: Index, decision: Option<Decision>): Option<Order> {
    if decision.None? || !decision.value.DecidedManual? then None
    else
      var d := decision.value;
      var found := UniqueOrders((if d.platformOrderId == "" then []
                                 else Find(fold, index, PlatformOrderId, d.platformOrderId))
                                + if d.orderId == "" then [] else Find(fold, index, OrderId, d.orderId));
      if found == [] then None else Some(found[0])
  }

  /** `linked`: the row itself already names an order. */
  function StateFor(decision: Option<Decision>, linked: bool, s: Suggestion): State {
    if decision == Some(DecidedIgnored) then Ignored
    else if decision.Some? && decision.value.DecidedManual? then Manual
    else if decision == Some(DecidedRemoved) then Removed
    else if linked then Automatic
    else if s.Conflict? then Ambiguous
    else Unmatched
  }

  method ReconcileRow(fold: Fold, ghost orders: seq<Order>, index: Index, refs: References, decision: Option<Decision>,
                      linked: bool)
    returns (state: State, s: Suggestion, ghost at: nat)
    requires KeepsEmptiness(fold) && Agrees(fold, index, orders)
    ensures state == StateFor(decision, linked, s)
    ensures ActiveManualTarget(fold, index, decision).None?
            ==> at <= |PRIORITY| && FromTheFirst(fold, orders, refs, s, at)
    ensures ActiveManualTarget(fold, index, decision).Some?
            ==> s == OperatorConfirmed(ActiveManualTarget(fold, index, decision).value)
    ensures state.Ambiguous? <==> !linked && (decision.None? || decision.value.DecidedOtherwise?)
                                  && at < |PRIORITY| && FromTheFirst(fold, orders, refs, s, at)
                                  && |UniqueOrders(Found(fold, orders, refs, at))| > 1
  {
    var manual := ActiveManualTarget(fold, index, decision);
    s, at := SuggestionForEvent(fold, orders, index, refs, manual);
    state := StateFor(decision, linked, s);
  }

  /**
   * A manual target is a record that one of the two ids of the decision finds; there is none exactly when neither finds
   * any.
   */
  lemma ManualTargetIsFound(fold: Fold, index: Index, orders: seq<Order>, platformOrderId: string, orderId: string)
    requires KeepsEmptiness(fold) && Agrees(fold, index, orders)
    ensures var target := ActiveManualTarget(fold, index, Some(DecidedManual(platformOrderId, orderId)));
            var byPlatform, byOrder := Scan(fold, orders, PlatformOrderId, platformOrderId),
                                       Scan(fold, orders, OrderId, orderId);
            && (target.None? <==> byPlatform == [] && byOrder == [])
            && (target.Some? ==> target.value in byPlatform + byOrder)
            && (byPlatform != [] ==> target.Some? && OrderKey(target.value) == OrderKey(byPlatform[0]))
  {
    var byPlatform, byOrder := Scan(fold, orders, PlatformOrderId, platformOrderId),
                               Scan(fold, orders, OrderId, orderId);
    EmptyFindsNothing(fold, orders, PlatformOrderId);
    EmptyFindsNothing(fold, orders, OrderId);
    var found := byPlatform + byOrder;
    NoIdentity(found);
    if UniqueOrders(found) != [] {
      KeptOrder(found, 0);
    }
    if found != [] {
      FoundHasIdentity(fold, orders, platformOrderId, orderId, found[0]);
      FirstIdentity(found);
    }
  }

  lemma EmptyFindsNothing(fold: Fold, orders: seq<Order>, k: Kind)
    requires KeepsEmptiness(fold)
    ensures Scan(fold, orders, k, "") == []
  {
    FilterNone(Hits(fold, k, ""), orders);
  }

  lemma FoundHasIdentity(fold: Fold, orders: seq<Order>, platformOrderId: string, orderId: string, o: Order)
    requires KeepsEmptiness(fold)
    requires o in Scan(fold, orders, PlatformOrderId, platformOrderId) + Scan(fold, orders, OrderId, orderId)
    ensures OrderKey(o) != ""
  {
    if o in Scan(fold, orders, PlatformOrderId, platformOrderId) {
      assert Hits(fold, PlatformOrderId, platformOrderId)(o);
      assert Field(o, PlatformOrderId) != "";
    } else {
      assert Hits(fold, OrderId, orderId)(o);
      assert Field(o, OrderId) != "";
    }
  }

  lemma {:induction false} FirstsFirst(s: seq<string>)
    requires s != []
    ensures Firsts(s) != [] && Firsts(s)[0] == s[0]
    decreases |s|
  {
    if |s| > 1 {
      FirstsFirst(s[..|s| - 1]);
    }
  }

  lemma {:induction false} NamedFirst(s: seq<string>)
    requires s != [] && s[0] != ""
    ensures Filter(NAMED, s) != [] && Filter(NAMED, s)[0] == s[0]
    decreases |s|
  {
    if |s| > 1 {
      NamedFirst(s[..|s| - 1]);
    }
  }

  /** The first record's identity comes first. */
  lemma FirstIdentity(found: seq<Order>)
    requires found != [] && OrderKey(found[0]) != ""
    ensures Identities(found) != [] && Identities(found)[0] == OrderKey(found[0])
  {
    FirstsFirst(Map(ORDER_KEY, found));
    NamedFirst(Firsts(Map(ORDER_KEY, found)));
  }
}
