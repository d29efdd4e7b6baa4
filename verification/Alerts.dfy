/**
 * The table of operational alerts. A row is opened when a condition is first seen active, updated while it
 * stays active and resolved when it is seen inactive; an operator may acknowledge a row in between.
 */
module Alerts {
  import opened Prelude
  import opened Seqs

  datatype Severity = Warning | Critical

  datatype Code =
    | ContinuousFailed | ProviderAccess | ContinuousDegraded | MissedSuccess
    | ExpiredLease | QuotaBootstrap | QuotaFloor | DeepReconciliation
    | ProductUnmapped(product: string) | ProductMappingConflict(product: string)

  datatype Status = Open | Acknowledged | Resolved

  datatype Row = Row(code: Code, status: Status, severity: Severity, firstObserved: int, lastObserved: int,
                     occurrences: nat)

  /** One evaluation of a condition. */
  datatype Observation = Observation(active: bool, severity: Severity, now: int)

  datatype Step = Saw(code: Code, o: Observation) | Acknowledge(code: Code)

  predicate Live(r: Row) { !r.status.Resolved? }

  function IsOf(c: Code): Row -> bool { (r: Row) => r.code == c }

  function RowsOf(rows: seq<Row>, c: Code): seq<Row> { Filter(IsOf(c), rows) }

  /** The newest open or acknowledged row of a code; rows stand in the order of their creation. */
  function Newest(rows: seq<Row>, c: Code): (i: Option<nat>)
    ensures i.Some? ==> i.value < |rows| && rows[i.value].code == c && Live(rows[i.value])
  {
    if rows == [] then None
    else if rows[|rows| - 1].code == c && Live(rows[|rows| - 1]) then Some(|rows| - 1)
    else Newest(rows[..|rows| - 1], c)
  }

  function Repeated(r: Row, o: Observation): Row {
    r.(severity := o.severity, lastObserved := o.now, occurrences := r.occurrences + 1)
  }

  function Recovered(r: Row, o: Observation): Row { r.(status := Resolved, lastObserved := o.now) }

  function Fresh(c: Code, o: Observation): Row { Row(c, Open, o.severity, o.now, o.now, 1) }

  function Observe(rows: seq<Row>, c: Code, o: Observation): seq<Row> {
    match Newest(rows, c)
    case None => if o.active then rows + [Fresh(c, o)] else rows
    case Some(i) => rows[i := if o.active then Repeated(rows[i], o) else Recovered(rows[i], o)]
  }

  function AcknowledgeRow(rows: seq<Row>, c: Code): seq<Row> {
    match Newest(rows, c)
    case None => rows
    case Some(i) => rows[i := rows[i].(status := Acknowledged)]
  }

  function Apply(rows: seq<Row>, step: Step): seq<Row> {
    match step
    case Saw(c, o) => Observe(rows, c, o)
    case Acknowledge(c) => AcknowledgeRow(rows, c)
  }

  function Run(rows: seq<Row>, steps: seq<Step>): seq<Row> {
    if steps == [] then rows else Apply(Run(rows, steps[..|steps| - 1]), steps[|steps| - 1])
  }

  lemma RunSnoc(rows: seq<Row>, steps: seq<Step>, step: Step)
    ensures Run(rows, steps + [step]) == Apply(Run(rows, steps), step)
  {
    assert (steps + [step])[..|steps|] == steps;
  }

  predicate Sees(step: Step, c: Code) { step.Saw? && step.code == c }

  function SEES(c: Code): Step -> bool { (step: Step) => Sees(step, c) }

  const OBSERVED: Step -> Observation := (step: Step) => if step.Saw? then step.o else Observation(false, Warning, 0)

  /** What a code's condition was seen to be, step by step. */
  function Seen(steps: seq<Step>, c: Code): seq<Observation> { Map(OBSERVED, Filter(SEES(c), steps)) }

  lemma SeenSnoc(steps: seq<Step>, step: Step, c: Code)
    ensures Seen(steps + [step], c) == Seen(steps, c) + if Sees(step, c) then [step.o] else []
  {
    FilterSnoc(SEES(c), steps, step);
    MapConcat(OBSERVED, Filter(SEES(c), steps), if Sees(step, c) then [step] else []);
  }

  lemma SeenConcat(s: seq<Step>, t: seq<Step>, c: Code)
    ensures Seen(s + t, c) == Seen(s, c) + Seen(t, c)
  {
    FilterConcat(SEES(c), s, t);
    MapConcat(OBSERVED, Filter(SEES(c), s), Filter(SEES(c), t));
  }

  ghost predicate NeverSeen(steps: seq<Step>, c: Code) { forall i :: 0 <= i < |steps| ==> !Sees(steps[i], c) }

  lemma SeenNever(steps: seq<Step>, c: Code)
    requires NeverSeen(steps, c)
    ensures Seen(steps, c) == []
  {
    FilterNone(SEES(c), steps);
  }

  ghost predicate OnlySeenAt(steps: seq<Step>, c: Code, k: nat) {
    forall i :: 0 <= i < |steps| && i != k ==> !Sees(steps[i], c)
  }

  lemma SeenOnce(steps: seq<Step>, c: Code, k: nat)
    requires k < |steps| && Sees(steps[k], c) && OnlySeenAt(steps, c, k)
    ensures Seen(steps, c) == [steps[k].o]
  {
    FilterOnly(SEES(c), steps, k);
  }

  // ---- the table, from the maximal runs of active evaluations ----

  /** Where a run of active evaluations begins. */
  function Starts(os: seq<Observation>): (starts: seq<nat>)
    ensures forall k :: 0 <= k < |starts| ==> starts[k] < |os| && os[starts[k]].active
  {
    if os == [] then [] else
      var n := |os| - 1;
      Starts(os[..n]) + if os[n].active && (n == 0 || !os[n - 1].active) then [n] else []
  }

  /** Where the run that holds position `a` ends. */
  function End(os: seq<Observation>, a: nat): (b: nat)
    requires a <= |os|
    ensures a <= b <= |os|
    ensures forall i :: a <= i < b ==> os[i].active
    ensures b < |os| ==> !os[b].active
    decreases |os| - a
  {
    if a == |os| || !os[a].active then a else End(os, a + 1)
  }

  /** The row of the run beginning at `a`, acknowledgement aside. */
  function Episode(c: Code, os: seq<Observation>, a: nat): Row
    requires a < |os| && os[a].active
  {
    var b := End(os, a);
    Row(c, if b < |os| then Resolved else Open, os[b - 1].severity, os[a].now, os[if b < |os| then b else b - 1].now,
        b - a)
  }

  function Episodes(c: Code, os: seq<Observation>): seq<Row> {
    var starts := Starts(os);
    seq(|starts|, k requires 0 <= k < |starts| => Episode(c, os, starts[k]))
  }

  function Face(r: Row): Row { if r.status.Acknowledged? then r.(status := Open) else r }

  const FACE: Row -> Row := (r: Row) => Face(r)

  lemma {:induction false} EndIsEnd(os: seq<Observation>, a: nat, b: nat)
    requires a <= b <= |os|
    requires forall i :: a <= i < b ==> os[i].active
    requires b < |os| ==> !os[b].active
    ensures End(os, a) == b
    decreases b - a
  {
    if a < b {
      EndIsEnd(os, a + 1, b);
    }
  }

  lemma EpisodeFinished(c: Code, os: seq<Observation>, o: Observation, a: nat)
    requires a < |os| && os[a].active && End(os, a) < |os|
    ensures Episode(c, os + [o], a) == Episode(c, os, a)
  {
    EndIsEnd(os + [o], a, End(os, a));
  }

  lemma EpisodeContinues(c: Code, os: seq<Observation>, o: Observation, a: nat)
    requires a < |os| && os[a].active && End(os, a) == |os|
    ensures Episode(c, os + [o], a) == Continued(Episode(c, os, a), o)
  {
    EndIsEnd(os + [o], a, if o.active then |os| + 1 else |os|);
    assert (os + [o])[|os|] == o && (os + [o])[|os| - 1] == os[|os| - 1] && (os + [o])[a] == os[a];
  }

  lemma EpisodeGrows(c: Code, os: seq<Observation>, o: Observation, a: nat)
    requires a < |os| && os[a].active
    ensures Episode(c, os + [o], a) == if End(os, a) < |os| then Episode(c, os, a) else Continued(Episode(c, os, a), o)
  {
    if End(os, a) < |os| {
      EpisodeFinished(c, os, o, a);
    } else {
      EpisodeContinues(c, os, o, a);
    }
  }

  lemma StartsSnoc(os: seq<Observation>, o: Observation)
    ensures Starts(os + [o]) == Starts(os) + if o.active && (os == [] || !os[|os| - 1].active) then [|os| as nat]
                                             else []
  {
    assert (os + [o])[..|os|] == os;
  }

  predicate LastActive(os: seq<Observation>) { os != [] && os[|os| - 1].active }

  lemma {:induction false} EndGrows(os: seq<Observation>, o: Observation, a: nat)
    requires a < |os|
    ensures End(os + [o], a) == EndAfter(os, o, a)
  {
    EndIsEnd(os + [o], a, EndAfter(os, o, a));
  }

  /** The runs that have ended: all of them, or all but the last, exactly when the last evaluation was active. */
  ghost predicate Finished(os: seq<Observation>) {
    var starts := Starts(os);
    var n := |starts|;
    && (LastActive(os) ==> n > 0 && End(os, starts[n - 1]) == |os|)
    && forall k :: 0 <= k < (if LastActive(os) then n - 1 else n) ==> End(os, starts[k]) < |os|
  }

  lemma FinishedNext(os: seq<Observation>, o: Observation)
    requires Finished(os)
    ensures Finished(os + [o])
  {
    StartsSnoc(os, o);
    forall k | 0 <= k < |Starts(os)| ensures End(os + [o], Starts(os)[k]) == EndAfter(os, o, Starts(os)[k]) {
      EndGrows(os, o, Starts(os)[k]);
    }
    if o.active && !LastActive(os) {
      EndIsEnd(os + [o], |os|, |os| + 1);
    }
  }

  lemma {:induction false} OnlyLastUnfinished(os: seq<Observation>)
    ensures Finished(os)
    decreases |os|
  {
    if os != [] {
      OnlyLastUnfinished(os[..|os| - 1]);
      FinishedNext(os[..|os| - 1], os[|os| - 1]);
      assert os == os[..|os| - 1] + [os[|os| - 1]];
    }
  }

  function EndAfter(os: seq<Observation>, o: Observation, a: nat): nat
    requires a <= |os|
  {
    if End(os, a) == |os| && o.active then |os| + 1 else End(os, a)
  }

  function Continued(r: Row, o: Observation): Row { if o.active then Repeated(r, o) else Recovered(r, o) }

  lemma {:induction false} EpisodeAt(c: Code, os: seq<Observation>, o: Observation, k: nat)
    requires k < |Starts(os)|
    ensures k < |Starts(os + [o])| && Starts(os + [o])[k] == Starts(os)[k]
    ensures Episodes(c, os + [o])[k] ==
            if LastActive(os) && k == |Starts(os)| - 1 then Continued(Episodes(c, os)[k], o) else Episodes(c, os)[k]
  {
    StartsSnoc(os, o);
    OnlyLastUnfinished(os);
    EpisodeGrows(c, os, o, Starts(os)[k]);
  }

  /** While the last evaluation was active, the next one goes on with the last episode. */
  lemma {:induction false} EpisodesContinue(c: Code, os: seq<Observation>, o: Observation)
    requires LastActive(os)
    ensures var es := Episodes(c, os);
            es != [] && Episodes(c, os + [o]) == es[|es| - 1 := Continued(es[|es| - 1], o)]
  {
    StartsSnoc(os, o);
    OnlyLastUnfinished(os);
    forall k | 0 <= k < |Starts(os)|
      ensures Episodes(c, os + [o])[k] == if k == |Starts(os)| - 1 then Continued(Episodes(c, os)[k], o)
                                          else Episodes(c, os)[k]
    {
      EpisodeAt(c, os, o, k);
    }
  }

  /** Otherwise the next one opens an episode or leaves them alone. */
  lemma EpisodesOpened(c: Code, os: seq<Observation>, o: Observation)
    requires !LastActive(os) && o.active
    ensures Episodes(c, os + [o]) == Episodes(c, os) + [Fresh(c, o)]
  {
    StartsSnoc(os, o);
    forall k | 0 <= k < |Starts(os)| ensures Episodes(c, os + [o])[k] == Episodes(c, os)[k] {
      EpisodeAt(c, os, o, k);
    }
    EndIsEnd(os + [o], |os|, |os| + 1);
  }

  lemma EpisodesQuiet(c: Code, os: seq<Observation>, o: Observation)
    requires !LastActive(os) && !o.active
    ensures Episodes(c, os + [o]) == Episodes(c, os)
  {
    StartsSnoc(os, o);
    forall k | 0 <= k < |Starts(os)| ensures Episodes(c, os + [o])[k] == Episodes(c, os)[k] {
      EpisodeAt(c, os, o, k);
    }
  }
}
