/**
 * The suggestion for a ledger row and the state of the row, by the names of the references and the fields of the
 * orders.
 */
module ReconciliationRules {
  import opened Prelude
  import opened Seqs
  import opened Reconciliation

  /** Which references are tried before which. */
  function Turn(name: ReferenceName): nat {
    match name
    case SellerTransaction => 0
    case BuyerTransaction => 1
    case ParentTransaction => 2
    case PaymentTransaction => 3
    case ByPlatformOrder => 4
    case ByOrder => 5
    case ByCommerceReference => 6
  }

  /** The order bears the text of the reference, in either case of letters, in the field that the reference is about. */
  predicate Bears(fold: Fold, refs: References, name: ReferenceName, o: Order) {
    var wanted := fold(refs(name));
    && wanted != ""
    && match name
       case ByPlatformOrder => fold(o.platformOrderId) == wanted
       case ByOrder => fold(o.orderId) == wanted
       case ByCommerceReference => fold(o.commerceReference) == wanted
       case _ => fold(o.transactionId) == wanted
  }

  /** The first of these texts of the order that is there. */
  predicate IsIdentity(o: Order, id: string) {
    if o.platformOrderId != "" then id == o.platformOrderId
    else if o.orderId != "" then id == o.orderId
    else if o.transactionId != "" then id == o.transactionId
    else id == o.commerceReference
  }

  /** The order comes last, among those that bear the reference and have its identity. */
  ghost predicate IsLast(fold: Fold, orders: seq<Order>, refs: References, name: ReferenceName, o: Order) {
    exists i :: 0 <= i < |orders| && orders[i] == o && Bears(fold, refs, name, o)
                && forall j ::
                     i < j < |orders| && Bears(fold, refs, name, orders[j]) ==> OrderKey(orders[j]) != OrderKey(o)
  }

  ghost predicate SomeBears(fold: Fold, orders: seq<Order>, refs: References, name: ReferenceName) {
    exists o :: o in orders && Bears(fold, refs, name, o)
  }

  /** No reference whose turn is before finds an order. */
  ghost predicate FirstTurn(fold: Fold, orders: seq<Order>, refs: References, name: ReferenceName) {
    SomeBears(fold, orders, refs, name)
    && forall other :: Turn(other) < Turn(name) ==> !SomeBears(fold, orders, refs, other)
  }

  ghost predicate TwoBear(fold: Fold, orders: seq<Order>, refs: References, name: ReferenceName) {
    exists a, b :: a in orders && b in orders && Bears(fold, refs, name, a) && Bears(fold, refs, name, b)
                   && OrderKey(a) != OrderKey(b)
  }

  function ConfidenceOf(name: ReferenceName): Confidence {
    if name in {SellerTransaction, ByPlatformOrder, ByOrder} then Exact
    else if name == ByCommerceReference then Medium
    else High
  }

  lemma IdentityExactly(o: Order)
    ensures IsIdentity(o, OrderKey(o))
  {
  }

  /** The reference that is tried in turn `i`. */
  lemma TurnsAreAll(i: nat)
    requires i < 7
    ensures |PRIORITY| == 7 && Turn(PRIORITY[i].reference) == i
            && PRIORITY[i].confidence == ConfidenceOf(PRIORITY[i].reference)
    ensures forall name :: Turn(name) == i ==> name == PRIORITY[i].reference
  {
  }

  function KindOf(name: ReferenceName): Kind {
    match name
    case ByPlatformOrder => PlatformOrderId
    case ByOrder => OrderId
    case ByCommerceReference => CommerceReference
    case _ => TransactionId
  }

  lemma KindsOnTurn(i: nat)
    requires i < 7
    ensures |PRIORITY| == 7 && PRIORITY[i].kind == KindOf(PRIORITY[i].reference)
  {
  }

  lemma BearsByKind(fold: Fold, refs: References, name: ReferenceName, o: Order)
    ensures Hits(fold, KindOf(name), refs(name))(o) <==> Bears(fold, refs, name, o)
  {
    match name
    case ByPlatformOrder => assert Field(o, KindOf(name)) == o.platformOrderId;
    case ByOrder => assert Field(o, KindOf(name)) == o.orderId;
    case ByCommerceReference => assert Field(o, KindOf(name)) == o.commerceReference;
    case _ => assert Field(o, KindOf(name)) == o.transactionId;
  }

  lemma BearsExactly(fold: Fold, refs: References, i: nat, o: Order)
    requires i < 7
    ensures |PRIORITY| == 7
    ensures Hits(fold, PRIORITY[i].kind, refs(PRIORITY[i].reference))(o)
            <==> Bears(fold, refs, PRIORITY[i].reference, o)
  {
    KindsOnTurn(i);
    BearsByKind(fold, refs, PRIORITY[i].reference, o);
  }

  lemma {:induction false} FoundExactly(fold: Fold, orders: seq<Order>, refs: References, i: nat, o: Order)
    requires i < 7
    ensures |PRIORITY| == 7
    ensures o in Found(fold, orders, refs, i) <==> o in orders && Bears(fold, refs, PRIORITY[i].reference, o)
  {
    BearsExactly(fold, refs, i, o);
  }

  lemma BearerHasIdentity(fold: Fold, refs: References, name: ReferenceName, o: Order)
    requires KeepsEmptiness(fold) && Bears(fold, refs, name, o)
    ensures OrderKey(o) != ""
  {
  }

  lemma {:induction false} FoundEmptyExactly(fold: Fold, orders: seq<Order>, refs: References, i: nat)
    requires i < 7
    ensures |PRIORITY| == 7
    ensures Found(fold, orders, refs, i) == [] <==> !SomeBears(fold, orders, refs, PRIORITY[i].reference)
  {
    if Found(fold, orders, refs, i) != [] {
      FoundExactly(fold, orders, refs, i, Found(fold, orders, refs, i)[0]);
    }
    if SomeBears(fold, orders, refs, PRIORITY[i].reference) {
      var o :| o in orders && Bears(fold, refs, PRIORITY[i].reference, o);
      FoundExactly(fold, orders, refs, i, o);
    }
  }

  lemma {:induction false} TwoBearExactly(fold: Fold, orders: seq<Order>, refs: References, i: nat)
    requires KeepsEmptiness(fold) && i < 7
    ensures |PRIORITY| == 7
    ensures (exists a, b ::
               a != b && Matched(Found(fold, orders, refs, i), a) && Matched(Found(fold, orders, refs, i), b))
            <==> TwoBear(fold, orders, refs, PRIORITY[i].reference)
  {
    var found, name := Found(fold, orders, refs, i), PRIORITY[i].reference;
    if a, b :| a != b && Matched(found, a) && Matched(found, b) {
      var x :| x in found && OrderKey(x) == a;
      var y :| y in found && OrderKey(y) == b;
      FoundExactly(fold, orders, refs, i, x);
      FoundExactly(fold, orders, refs, i, y);
    }
    if TwoBear(fold, orders, refs, name) {
      var x, y :| x in orders && y in orders && Bears(fold, refs, name, x) && Bears(fold, refs, name, y)
                  && OrderKey(x) != OrderKey(y);
      FoundExactly(fold, orders, refs, i, x);
      FoundExactly(fold, orders, refs, i, y);
      BearerHasIdentity(fold, refs, name, x);
      BearerHasIdentity(fold, refs, name, y);
      assert Matched(found, OrderKey(x)) && Matched(found, OrderKey(y));
    }
  }

  ghost predicate LastPass<T(!new)>(keep: T -> bool, s: seq<T>, i: nat) {
    i < |s| && keep(s[i]) && forall j :: i < j < |s| ==> !keep(s[j])
  }

  /** The last of a filtered sequence stands behind no other that passes. */
  lemma {:induction false} LastPasses<T(!new)>(keep: T -> bool, s: seq<T>) returns (i: nat)
    requires Filter(keep, s) != []
    ensures LastPass(keep, s, i) && s[i] == Filter(keep, s)[|Filter(keep, s)| - 1]
    decreases |s|
  {
    var front, last := s[..|s| - 1], s[|s| - 1];
    if keep(last) {
      i := |s| - 1;
    } else {
      i := LastPasses(keep, front);
    }
  }

  lemma {:induction false} LastOfFound(fold: Fold, orders: seq<Order>, refs: References, i: nat, o: Order)
    requires i < 7 && |PRIORITY| == 7
    requires var group := Group(ORDER_KEY, OrderKey(o), Found(fold, orders, refs, i));
             group != [] && group[|group| - 1] == o
    ensures IsLast(fold, orders, refs, PRIORITY[i].reference, o)
  {
    var name := PRIORITY[i].reference;
    var both := (x: Order) => Bears(fold, refs, name, x) && OrderKey(x) == OrderKey(o);
    var hits := Hits(fold, PRIORITY[i].kind, refs(name));
    forall x | x in orders ensures both(x) <==> HasKey(ORDER_KEY, OrderKey(o))(x) && hits(x) {
      BearsExactly(fold, refs, i, x);
    }
    FilterFilter(HasKey(ORDER_KEY, OrderKey(o)), hits, both, orders);
    var k := LastPasses(both, orders);
    assert orders[k] == o && both(o);
    forall j | k < j < |orders| && Bears(fold, refs, name, orders[j]) ensures OrderKey(orders[j]) != OrderKey(o) {
      assert !both(orders[j]);
    }
  }

  /** The candidate of a reference, in terms of the orders. */
  ghost predicate IsCandidate(fold: Fold, orders: seq<Order>, refs: References, s: Suggestion)
    requires s.Candidate?
  {
    && FirstTurn(fold, orders, refs, s.reference) && !TwoBear(fold, orders, refs, s.reference)
    && s.confidence == ConfidenceOf(s.reference) && IsLast(fold, orders, refs, s.reference, s.order)
  }

  ghost predicate IsConflict(fold: Fold, orders: seq<Order>, refs: References, s: Suggestion)
    requires s.Conflict?
  {
    && FirstTurn(fold, orders, refs, s.reference) && TwoBear(fold, orders, refs, s.reference)
    && 2 <= |s.among| <= 5 && KeptOf(fold, orders, refs, s.reference, s.among)
    && (|s.among| < 5 ==> KeepsAll(fold, orders, refs, s.reference, s.among))
  }

  /** Last records of different identities that bear the reference. */
  ghost predicate KeptOf(fold: Fold, orders: seq<Order>, refs: References, name: ReferenceName, kept: seq<Order>) {
    && (forall i :: 0 <= i < |kept| ==> IsLast(fold, orders, refs, name, kept[i]))
    && (forall i, j :: 0 <= i < j < |kept| ==> OrderKey(kept[i]) != OrderKey(kept[j]))
  }

  /** Every identity that bears the reference is kept. */
  ghost predicate KeepsAll(fold: Fold, orders: seq<Order>, refs: References, name: ReferenceName, kept: seq<Order>) {
    forall o <- orders :: Bears(fold, refs, name, o) ==> exists i :: 0 <= i < |kept| && OrderKey(kept[i]) == OrderKey(o)
  }

  /**
   * The suggestion for a row without a manual target, whatever turn it comes from: none exactly when no reference finds
   * an order; otherwise it is of the first reference that finds one: a conflict of at most five when two identities are
   * found, else the last record of the one identity, with the confidence of the reference.
   */
  lemma {:induction false} SuggestionExactly(fold: Fold, orders: seq<Order>, refs: References, s: Suggestion, at: nat)
    requires KeepsEmptiness(fold) && at <= |PRIORITY| && FromTheFirst(fold, orders, refs, s, at)
    ensures s.NoSuggestion? <==> forall name :: !SomeBears(fold, orders, refs, name)
    ensures s.Candidate? ==> IsCandidate(fold, orders, refs, s)
    ensures s.Conflict? ==> IsConflict(fold, orders, refs, s)
    ensures !s.OperatorConfirmed?
  {
    assert |PRIORITY| == 7;
    SuggestionMeans(fold, orders, refs, s, at);
    NoneExactly(fold, orders, refs);
    if at < 7 {
      OnTurnExactly(fold, orders, refs, s, at);
    }
  }

  lemma {:induction false} OnTurnExactly(fold: Fold, orders: seq<Order>, refs: References, s: Suggestion, at: nat)
    requires KeepsEmptiness(fold) && at < 7 && |PRIORITY| == 7
    requires Found(fold, orders, refs, at) != [] && forall j :: 0 <= j < at ==> Found(fold, orders, refs, j) == []
    requires var kept := UniqueOrders(Found(fold, orders, refs, at));
             kept != [] && s == SuggestionFrom(PRIORITY[at], kept)
    ensures s.Candidate? ==> IsCandidate(fold, orders, refs, s)
    ensures s.Conflict? ==> IsConflict(fold, orders, refs, s)
    ensures s.Candidate? || s.Conflict?
  {
    TwoBearExactly(fold, orders, refs, at);
    SeveralIdentities(Found(fold, orders, refs, at));
    OnTurn(fold, orders, refs, at);
    KeptAreLast(fold, orders, refs, at);
    FromKept(fold, orders, refs, PRIORITY[at], UniqueOrders(Found(fold, orders, refs, at)));
  }

  lemma {:induction false} FromKept(fold: Fold, orders: seq<Order>, refs: References, p: Priority, kept: seq<Order>)
    requires kept != [] && FirstTurn(fold, orders, refs, p.reference) && p.confidence == ConfidenceOf(p.reference)
    requires |kept| > 1 <==> TwoBear(fold, orders, refs, p.reference)
    requires KeptOf(fold, orders, refs, p.reference, kept) && KeepsAll(fold, orders, refs, p.reference, kept)
    ensures var s := SuggestionFrom(p, kept);
            && (s.Candidate? ==> IsCandidate(fold, orders, refs, s))
                && (s.Conflict? ==> IsConflict(fold, orders, refs, s))
            && (s.Candidate? || s.Conflict?)
  {
    if |kept| > 1 {
      var among := kept[..Min(5, |kept|)];
      assert KeptOf(fold, orders, refs, p.reference, among);
      assert |among| < 5 ==> among == kept;
    }
  }

  lemma {:induction false} NoneExactly(fold: Fold, orders: seq<Order>, refs: References)
    ensures |PRIORITY| == 7
    ensures (forall i :: 0 <= i < 7 ==> Found(fold, orders, refs, i) == [])
            <==> forall name :: !SomeBears(fold, orders, refs, name)
  {
    assert |PRIORITY| == 7;
    forall i | 0 <= i < 7
      ensures Found(fold, orders, refs, i) == [] <==> !SomeBears(fold, orders, refs, PRIORITY[i].reference) {
      FoundEmptyExactly(fold, orders, refs, i);
    }
    forall name ensures Turn(name) < 7 && PRIORITY[Turn(name)].reference == name {
      TurnsAreAll(Turn(name));
    }
    if forall i :: 0 <= i < 7 ==> Found(fold, orders, refs, i) == [] {
      forall name ensures !SomeBears(fold, orders, refs, name) {
        assert Found(fold, orders, refs, Turn(name)) == [];
      }
    }
  }

  lemma {:induction false} OnTurn(fold: Fold, orders: seq<Order>, refs: References, at: nat)
    requires at < 7 && |PRIORITY| == 7 && Found(fold, orders, refs, at) != []
    requires forall j :: 0 <= j < at ==> Found(fold, orders, refs, j) == []
    ensures FirstTurn(fold, orders, refs, PRIORITY[at].reference)
    ensures PRIORITY[at].confidence == ConfidenceOf(PRIORITY[at].reference)
  {
    FoundEmptyExactly(fold, orders, refs, at);
    TurnsAreAll(at);
    forall other | Turn(other) < at ensures !SomeBears(fold, orders, refs, other) {
      TurnsAreAll(Turn(other));
      FoundEmptyExactly(fold, orders, refs, Turn(other));
    }
  }

  /** The kept orders are last records of different identities, and all of the identities. */
  lemma {:induction false} KeptIsLast(fold: Fold, orders: seq<Order>, refs: References, at: nat, i: nat)
    requires KeepsEmptiness(fold) && at < 7 && |PRIORITY| == 7 && i < |UniqueOrders(Found(fold, orders, refs, at))|
    ensures var found := Found(fold, orders, refs, at);
            && i < |Identities(found)| && OrderKey(UniqueOrders(found)[i]) == Identities(found)[i]
            && IsLast(fold, orders, refs, PRIORITY[at].reference, UniqueOrders(found)[i])
  {
    var found := Found(fold, orders, refs, at);
    UniqueOrdersAreUnique(found);
    var key := Identities(found)[i];
    assert key in Identities(found);
    KeptOrder(found, i);
    LastOfIsLast(found, key);
    LastOfFound(fold, orders, refs, at, UniqueOrders(found)[i]);
  }

  lemma {:induction false} BearerIsKept(fold: Fold, orders: seq<Order>, refs: References, at: nat, o: Order)
    requires KeepsEmptiness(fold) && at < 7 && |PRIORITY| == 7
    requires o in orders && Bears(fold, refs, PRIORITY[at].reference, o)
    ensures var kept := UniqueOrders(Found(fold, orders, refs, at));
            exists i :: 0 <= i < |kept| && OrderKey(kept[i]) == OrderKey(o)
  {
    var found := Found(fold, orders, refs, at);
    UniqueOrdersAreUnique(found);
    FoundExactly(fold, orders, refs, at, o);
    BearerHasIdentity(fold, refs, PRIORITY[at].reference, o);
    assert Matched(found, OrderKey(o));
    var i :| 0 <= i < |Identities(found)| && Identities(found)[i] == OrderKey(o);
    KeptIsLast(fold, orders, refs, at, i);
    assert OrderKey(UniqueOrders(found)[i]) == OrderKey(o);
  }

  lemma {:induction false} KeptAreLast(fold: Fold, orders: seq<Order>, refs: References, at: nat)
    requires KeepsEmptiness(fold) && at < 7 && |PRIORITY| == 7
    ensures var kept, name := UniqueOrders(Found(fold, orders, refs, at)), PRIORITY[at].reference;
            KeptOf(fold, orders, refs, name, kept) && KeepsAll(fold, orders, refs, name, kept)
  {
    var found, name := Found(fold, orders, refs, at), PRIORITY[at].reference;
    var kept := UniqueOrders(found);
    UniqueOrdersAreUnique(found);
    forall i | 0 <= i < |kept|
      ensures IsLast(fold, orders, refs, name, kept[i]) && OrderKey(kept[i]) == Identities(found)[i]
    {
      KeptIsLast(fold, orders, refs, at, i);
    }
    forall o | o in orders && Bears(fold, refs, name, o)
      ensures exists i :: 0 <= i < |kept| && OrderKey(kept[i]) == OrderKey(o)
    {
      BearerIsKept(fold, orders, refs, at, o);
    }
  }

  /** The state of a row: the decision first, then a link of its own, then a conflict. */
  lemma StateExactly(decision: Option<Decision>, linked: bool, s: Suggestion)
    ensures var state := StateFor(decision, linked, s);
            var open := decision.None? || decision.value.DecidedOtherwise?;
            && (state == Ignored <==> decision.Some? && decision.value.DecidedIgnored?)
            && (state == Manual <==> decision.Some? && decision.value.DecidedManual?)
            && (state == Removed <==> decision.Some? && decision.value.DecidedRemoved?)
            && (state == Automatic <==> open && linked)
            && (state == Ambiguous <==> open && !linked && s.Conflict?)
            && (state == Unmatched <==> open && !linked && !s.Conflict?)
  {
  }
}
