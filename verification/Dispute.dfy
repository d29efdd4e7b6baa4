/**
 * The Commas dispute projection: a decision procedure over the incoming webhook event and the
 * retained current event, and the runs it gives under reordered and repeated deliveries.
 */
module CommasDispute {
  import opened Prelude

  /** The fields that two observations must share to count as the same provider state. */
  datatype DisputeState = DisputeState(
    providerDisputeId: string,
    processorDisputeId: Option<string>,
    paymentIntentId: Option<string>,
    paymentId: Option<string>,
    providerTransactionId: Option<string>,
    orderId: Option<string>,
    externalOrderId: Option<string>,
    amount: Option<real>,
    currency: string,
    fee: Option<real>,
    totalAmount: Option<real>,
    status: Option<string>,
    state: Option<string>,
    reason: Option<string>,
    reasonCode: Option<string>,
    responseDeadline: Option<string>,
    openedAt: Option<string>,
    closedAt: Option<string>,
    buyerReference: Option<string>,
    productReference: Option<string>)

  /** A normalized event; `updatedAt` is `None` when the timestamp is missing or does not parse. */
  datatype DisputeEvent = DisputeEvent(providerEventId: string, updatedAt: Option<int>, body: DisputeState)

  datatype Decision = Create | Advance | Stale | SafeTieNoop | AmbiguousTie | TerminalConflict

  datatype DisputeError = Unorderable

  const TERMINAL_RANK := 2

  function StatusRank(status: Option<string>): Option<nat> {
    if status == Some("needs_response") || status == Some("warning_needs_response") then Some(0)
    else if status == Some("under_review") || status == Some("warning_under_review") then Some(1)
    else if status == Some("won") || status == Some("lost") then Some(TERMINAL_RANK)
    else None
  }

  function Classify(incoming: DisputeEvent, current: Option<DisputeEvent>): Result<Decision, DisputeError> {
    if current.None? then Success(Create)
    else
      var prior := current.value;
      if incoming.updatedAt.None? || prior.updatedAt.None?
         || incoming.body.providerDisputeId != prior.body.providerDisputeId then Failure(Unorderable)
      else
        var nextRank, priorRank := StatusRank(incoming.body.status), StatusRank(prior.body.status);
        if (nextRank.None? || priorRank.None?) && incoming.body.status != prior.body.status then
          Success(AmbiguousTie)
        else if nextRank.Some? && priorRank.Some? && nextRank.value == TERMINAL_RANK && priorRank.value == TERMINAL_RANK
                && incoming.body.status != prior.body.status then
          Success(TerminalConflict)
        else if nextRank.Some? && priorRank.Some? && nextRank.value > priorRank.value then Success(Advance)
        else if nextRank.Some? && priorRank.Some? && nextRank.value < priorRank.value then Success(Stale)
        else if incoming.updatedAt.value > prior.updatedAt.value then Success(Advance)
        else if incoming.updatedAt.value < prior.updatedAt.value then Success(Stale)
        else Success(if incoming.body == prior.body then SafeTieNoop else AmbiguousTie)
  }

  /**
   * One delivery. Creating or advancing writes the projected values, which is refused without a
   * valid timestamp; every other decision, and every refusal, keeps the current row.
   */
  function Apply(current: Option<DisputeEvent>, incoming: DisputeEvent): Option<DisputeEvent> {
    match Classify(incoming, current)
    case Success(Create) => if incoming.updatedAt.Some? then Some(incoming) else current
    case Success(Advance) => if incoming.updatedAt.Some? then Some(incoming) else current
    case _ => current
  }

  function Deliver(current: Option<DisputeEvent>, events: seq<DisputeEvent>): Option<DisputeEvent>
    decreases |events|
  {
    if events == [] then current else Deliver(Apply(current, events[0]), events[1..])
  }

  // ---- What every run keeps, whatever is delivered ----

  ghost predicate NotRegressed(before: DisputeEvent, after: DisputeEvent) {
    && before.updatedAt.Some? && after.updatedAt.Some?
    && after.body.providerDisputeId == before.body.providerDisputeId
    && match StatusRank(before.body.status)
       case None => after.body.status == before.body.status && after.updatedAt.value >= before.updatedAt.value
       case Some(r) =>
         && StatusRank(after.body.status).Some?
         && StatusRank(after.body.status).value >= r
         && (StatusRank(after.body.status).value == r ==> after.updatedAt.value >= before.updatedAt.value)
         && (r == TERMINAL_RANK ==> after.body.status == before.body.status)
  }

  /** No run of deliveries, valid or not, lowers a known status, replaces a terminal one or leaves an unknown one. */
  lemma {:induction false} RunNeverRegresses(current: DisputeEvent, events: seq<DisputeEvent>)
    requires current.updatedAt.Some?
    ensures Deliver(Some(current), events).Some?
    ensures NotRegressed(current, Deliver(Some(current), events).value)
    decreases |events|
  {
    if events != [] {
      var next := Apply(Some(current), events[0]).value;
      assert NotRegressed(current, next);
      RunNeverRegresses(next, events[1..]);
    }
  }

  // ---- the stages, by the names of the statuses ----

  const TO_ANSWER: set<Option<string>> := {Some("needs_response"), Some("warning_needs_response")}
  const IN_REVIEW: set<Option<string>> := {Some("under_review"), Some("warning_under_review")}
  const CLOSED: set<Option<string>> := {Some("won"), Some("lost")}

  predicate LaterStage(next: Option<string>, prior: Option<string>) {
    (prior in TO_ANSWER && (next in IN_REVIEW || next in CLOSED)) || (prior in IN_REVIEW && next in CLOSED)
  }

  predicate SameStage(next: Option<string>, prior: Option<string>) {
    || next == prior
    || (next in TO_ANSWER && prior in TO_ANSWER)
    || (next in IN_REVIEW && prior in IN_REVIEW)
  }

  /** Two observations of one dispute, both at a time. */
  predicate InOrder(incoming: DisputeEvent, current: DisputeEvent) {
    incoming.updatedAt.Some? && current.updatedAt.Some?
    && incoming.body.providerDisputeId == current.body.providerDisputeId
  }

  /** An event replaces the current one exactly when it is of a later stage, or of the same stage and later. */
  lemma ReplacesExactlyWhen(current: DisputeEvent, incoming: DisputeEvent)
    ensures var next, prior := incoming.body.status, current.body.status;
            var wins := InOrder(incoming, current)
              && (LaterStage(next, prior)
                  || (SameStage(next, prior) && incoming.updatedAt.value > current.updatedAt.value));
            Apply(Some(current), incoming) == Some(if wins then incoming else current)
  {
  }

  /** The first event is kept exactly when it is at a time. */
  lemma FirstIsKeptExactlyWhen(incoming: DisputeEvent)
    ensures Apply(None, incoming) == if incoming.updatedAt.Some? then Some(incoming) else None
  {
  }

  /** When each decision is made, by the names of the statuses and the times. */
  lemma DecisionExactlyWhen(current: DisputeEvent, incoming: DisputeEvent)
    ensures Classify(incoming, None) == Success(Create)
    ensures var next, prior := incoming.body.status, current.body.status;
            var d := Classify(incoming, Some(current));
            && (d.Failure? <==> !InOrder(incoming, current))
            && (d.Success? ==>
                  var later, sooner := incoming.updatedAt.value > current.updatedAt.value,
                                       incoming.updatedAt.value < current.updatedAt.value;
                  && (d.value.Advance? <==> LaterStage(next, prior) || (SameStage(next, prior) && later))
                  && (d.value.Stale? <==> LaterStage(prior, next) || (SameStage(next, prior) && sooner))
                  && (d.value.TerminalConflict? <==> next in CLOSED && prior in CLOSED && next != prior)
                  && (d.value.SafeTieNoop? <==> !later && !sooner && incoming.body == current.body)
                  && !d.value.Create?)
  {
  }

  /** From review no run falls back to an answer being needed. */
  lemma {:induction false} ReviewNeverFallsBack(current: DisputeEvent, events: seq<DisputeEvent>)
    requires current.body.status in IN_REVIEW || current.body.status in CLOSED
    ensures Deliver(Some(current), events).Some? && Deliver(Some(current), events).value.body.status !in TO_ANSWER
    ensures Deliver(Some(current), events).value.body.status in IN_REVIEW
            || Deliver(Some(current), events).value.body.status in CLOSED
    decreases |events|
  {
    if events != [] {
      ReplacesExactlyWhen(current, events[0]);
      ReviewNeverFallsBack(Apply(Some(current), events[0]).value, events[1..]);
    }
  }

  /** A dispute that is won or lost stays so in every run. */
  lemma {:induction false} ClosedStaysClosed(current: DisputeEvent, events: seq<DisputeEvent>)
    requires current.body.status in CLOSED
    ensures Deliver(Some(current), events).Some?
    ensures Deliver(Some(current), events).value.body.status == current.body.status
    decreases |events|
  {
    if events != [] {
      ReplacesExactlyWhen(current, events[0]);
      ClosedStaysClosed(Apply(Some(current), events[0]).value, events[1..]);
    }
  }

  // ---- Convergence ----

  /** All events are about one dispute and carry a valid timestamp. */
  ghost predicate Orderable(events: set<DisputeEvent>) {
    && (forall e <- events :: e.updatedAt.Some?)
    && (forall a <- events, b <- events :: a.body.providerDisputeId == b.body.providerDisputeId)
  }

  /** A sequence of deliveries of exactly these events: any order, any number of repetitions. */
  ghost predicate Delivers(run: seq<DisputeEvent>, events: set<DisputeEvent>) {
    forall e :: e in run <==> e in events
  }

  ghost predicate SameOutcome(a: Option<DisputeEvent>, b: Option<DisputeEvent>) {
    if a.None? || b.None? then a == b else a.value.body == b.value.body && a.value.updatedAt == b.value.updatedAt
  }

  ghost predicate Convergent(events: set<DisputeEvent>) {
    forall xs, ys :: Delivers(xs, events) && Delivers(ys, events) ==> SameOutcome(Deliver(None, xs), Deliver(None, ys))
  }

  function RankOrZero(e: DisputeEvent): nat {
    if StatusRank(e.body.status).Some? then StatusRank(e.body.status).value else 0
  }

  function TimeOf(e: DisputeEvent): int {
    if e.updatedAt.Some? then e.updatedAt.value else 0
  }

  /** Strictly later in the (rank, time) order. */
  predicate Above(a: DisputeEvent, b: DisputeEvent) {
    RankOrZero(a) > RankOrZero(b) || (RankOrZero(a) == RankOrZero(b) && TimeOf(a) > TimeOf(b))
  }

  /** The same status, or two ranked statuses that are not won against lost. */
  predicate ComparablePair(a: DisputeEvent, b: DisputeEvent) {
    || a.body.status == b.body.status
    || (&& StatusRank(a.body.status).Some? && StatusRank(b.body.status).Some?
        && !(RankOrZero(a) == RankOrZero(b) == TERMINAL_RANK))
  }

  ghost predicate Comparable(events: set<DisputeEvent>) {
    forall a, b :: a in events && b in events ==> ComparablePair(a, b)
  }

  ghost predicate Top(events: set<DisputeEvent>, e: DisputeEvent) {
    e in events && forall x <- events :: !Above(x, e)
  }

  ghost predicate TopsAgree(events: set<DisputeEvent>) {
    forall a, b :: Top(events, a) && Top(events, b) ==> a.body == b.body
  }

  lemma {:induction false} DeliverAppend(current: Option<DisputeEvent>, xs: seq<DisputeEvent>, e: DisputeEvent)
    ensures Deliver(current, xs + [e]) == Apply(Deliver(current, xs), e)
    decreases |xs|
  {
    if xs == [] {
      assert xs + [e] == [e] && [e][1..] == [];
      assert Deliver(current, [e]) == Deliver(Apply(current, e), []);
    } else {
      assert (xs + [e])[0] == xs[0] && (xs + [e])[1..] == xs[1..] + [e];
      DeliverAppend(Apply(current, xs[0]), xs[1..], e);
    }
  }

  lemma ApplyTakesTheLater(held: DisputeEvent, e: DisputeEvent)
    requires held.updatedAt.Some? && e.updatedAt.Some?
    requires held.body.providerDisputeId == e.body.providerDisputeId
    requires ComparablePair(e, held)
    ensures Apply(Some(held), e) == Some(if Above(e, held) then e else held)
  {
  }

  /** On comparable events the fold ends in an event that no delivered event is above. */
  lemma {:induction false} DeliverReachesTop(events: set<DisputeEvent>, run: seq<DisputeEvent>)
    requires Orderable(events) && Comparable(events)
    requires run != [] && forall e <- run :: e in events
    ensures Deliver(None, run).Some? && Deliver(None, run).value in run
    ensures forall x <- run :: !Above(x, Deliver(None, run).value)
    decreases |run|
  {
    var last := run[|run| - 1];
    var front := run[..|run| - 1];
    assert run == front + [last];
    DeliverAppend(None, front, last);
    if front != [] {
      DeliverReachesTop(events, front);
      var held := Deliver(None, front).value;
      assert held in front && last in run;
      ApplyTakesTheLater(held, last);
      forall x | x in run ensures !Above(x, Deliver(None, run).value) {
        assert x in front || x == last;
      }
    }
  }

  /** When comparable, every order and repetition ends in the maximum by (rank, time). */
  lemma {:induction false} DeliverEndsAtMaximum(events: set<DisputeEvent>, run: seq<DisputeEvent>)
    requires Orderable(events) && Comparable(events) && events != {} && Delivers(run, events)
    ensures Deliver(None, run).Some? && Top(events, Deliver(None, run).value)
  {
    var e :| e in events;
    assert e in run;
    DeliverReachesTop(events, run);
  }

  ghost function AsRun(events: set<DisputeEvent>): (run: seq<DisputeEvent>)
    ensures Delivers(run, events)
  {
    if events == {} then [] else
      var e :| e in events;
      var rest := AsRun(events - {e});
      assert forall x :: x in [e] + rest <==> x == e || x in rest;
      [e] + rest
  }

  /** Delivering `first` ahead of everything is one of the runs convergence speaks about. */
  lemma {:induction false} FirstDelivered(events: set<DisputeEvent>, first: DisputeEvent)
    requires Orderable(events) && first in events
    ensures Delivers([first] + AsRun(events), events)
    ensures Deliver(None, [first] + AsRun(events)) == Deliver(Some(first), AsRun(events))
  {
    var run := AsRun(events);
    assert forall e :: e in [first] + run <==> e == first || e in run;
    assert ([first] + run)[1..] == run;
  }

  lemma {:induction false} TopIsKept(events: set<DisputeEvent>, top: DisputeEvent, run: seq<DisputeEvent>)
    requires Orderable(events) && Comparable(events) && Top(events, top)
    requires forall x <- run :: x in events
    ensures Deliver(Some(top), run) == Some(top)
    decreases |run|
  {
    if run != [] {
      assert run[0] in events && !Above(run[0], top);
      ApplyTakesTheLater(top, run[0]);
      TopIsKept(events, top, run[1..]);
    }
  }

  lemma RunsDiffer(events: set<DisputeEvent>, xs: seq<DisputeEvent>, ys: seq<DisputeEvent>)
    requires Delivers(xs, events) && Delivers(ys, events)
    requires !SameOutcome(Deliver(None, xs), Deliver(None, ys))
    ensures !Convergent(events)
  {
  }

  lemma HasFirst(run: seq<DisputeEvent>)
    ensures run != [] ==> exists e :: e in run
  {
    if run != [] {
      assert run[0] in run;
    }
  }

  /** What was reached from two clashing events keeps clashing. */
  lemma ClashRemains(a: DisputeEvent, b: DisputeEvent, x: DisputeEvent, y: DisputeEvent)
    requires a.updatedAt.Some? && b.updatedAt.Some? && !ComparablePair(a, b) && NotRegressed(a, x) && NotRegressed(b, y)
    ensures x.body.status != y.body.status
  {
  }

  lemma ClashingOutcomes(a: DisputeEvent, b: DisputeEvent, run: seq<DisputeEvent>)
    requires a.updatedAt.Some? && b.updatedAt.Some? && !ComparablePair(a, b)
    ensures !SameOutcome(Deliver(Some(a), run), Deliver(Some(b), run))
  {
    RunNeverRegresses(a, run);
    RunNeverRegresses(b, run);
    ClashRemains(a, b, Deliver(Some(a), run).value, Deliver(Some(b), run).value);
  }

  lemma {:induction false} DivergesFrom(events: set<DisputeEvent>, a: DisputeEvent, b: DisputeEvent)
    requires Orderable(events) && a in events && b in events && !ComparablePair(a, b)
    ensures !Convergent(events)
  {
    FirstDelivered(events, a);
    FirstDelivered(events, b);
    ClashingOutcomes(a, b, AsRun(events));
    RunsDiffer(events, [a] + AsRun(events), [b] + AsRun(events));
  }

  /** Whichever of two clashing statuses arrives first is the one that stays. */
  lemma {:induction false} IncomparableDiverges(events: set<DisputeEvent>)
    requires Orderable(events) && !Comparable(events)
    ensures !Convergent(events)
  {
    var a, b :| a in events && b in events && !ComparablePair(a, b);
    DivergesFrom(events, a, b);
  }

  lemma {:induction false} TiedTopsDiverge(events: set<DisputeEvent>)
    requires Orderable(events) && Comparable(events) && !TopsAgree(events)
    ensures !Convergent(events)
  {
    var a, b :| Top(events, a) && Top(events, b) && a.body != b.body;
    FirstDelivered(events, a);
    FirstDelivered(events, b);
    TopIsKept(events, a, AsRun(events));
    TopIsKept(events, b, AsRun(events));
    RunsDiffer(events, [a] + AsRun(events), [b] + AsRun(events));
  }

  /**
   * The exact condition for convergence: reordered and repeated deliveries of these events always
   * end in the same state if and only if the statuses are comparable and the events that are
   * maximal by (rank, time) agree on every state field.
   */
  lemma {:induction false} ConvergesExactlyWhen(events: set<DisputeEvent>)
    requires Orderable(events)
    ensures Convergent(events) <==> Comparable(events) && TopsAgree(events)
  {
    if !Comparable(events) {
      IncomparableDiverges(events);
    } else if !TopsAgree(events) {
      TiedTopsDiverge(events);
    } else {
      forall xs, ys | Delivers(xs, events) && Delivers(ys, events)
        ensures SameOutcome(Deliver(None, xs), Deliver(None, ys))
      {
        if events == {} {
          HasFirst(xs);
          HasFirst(ys);
        } else {
          DeliverEndsAtMaximum(events, xs);
          DeliverEndsAtMaximum(events, ys);
        }
      }
    }
  }
}
