/** When the live row of an alert stands acknowledged. */
module AlertStatus {
  import opened Alerts
  import opened AlertLaws

  /** Step `k` acknowledges the alert while it is live, and it has only been seen active since. */
  ghost predicate AcknowledgedAt(steps: seq<Step>, c: Code, k: nat)
    requires k < |steps|
  {
    && steps[k] == Acknowledge(c) && LastActive(Seen(steps[..k], c))
    && forall m :: k < m < |steps| && Sees(steps[m], c) ==> steps[m].o.active
  }

  ghost predicate IsAcknowledged(steps: seq<Step>, c: Code) {
    exists k :: 0 <= k < |steps| && AcknowledgedAt(steps, c, k)
  }

  /** What is so after one more step. */
  predicate AfterStep(step: Step, c: Code, live: bool, acknowledged: bool) {
    (step == Acknowledge(c) && live) || (acknowledged && (Sees(step, c) ==> step.o.active))
  }

  lemma AcknowledgedBefore(front: seq<Step>, step: Step, c: Code, k: nat)
    requires k < |front|
    ensures AcknowledgedAt(front + [step], c, k)
            <==> AcknowledgedAt(front, c, k) && (Sees(step, c) ==> step.o.active)
  {
    var steps := front + [step];
    assert steps[..k] == front[..k] && steps[|front|] == step;
    assert forall m :: 0 <= m < |front| ==> steps[m] == front[m];
  }

  lemma {:induction false} AcknowledgedSnoc(front: seq<Step>, step: Step, c: Code)
    ensures IsAcknowledged(front + [step], c)
            <==> AfterStep(step, c, LastActive(Seen(front, c)), IsAcknowledged(front, c))
  {
    var steps, n := front + [step], |front|;
    assert steps[..n] == front;
    forall k | 0 <= k < n
      ensures AcknowledgedAt(steps, c, k) <==> AcknowledgedAt(front, c, k) && (Sees(step, c) ==> step.o.active)
    {
      AcknowledgedBefore(front, step, c, k);
    }
    if step == Acknowledge(c) && LastActive(Seen(front, c)) {
      assert AcknowledgedAt(steps, c, n);
    }
    if k :| 0 <= k < n && AcknowledgedAt(front, c, k) && (Sees(step, c) ==> step.o.active) {
      assert AcknowledgedAt(steps, c, k);
    }
  }

  ghost predicate ShowsAcknowledged(mine: seq<Row>, acknowledged: bool) {
    mine != [] && mine[|mine| - 1].status == if acknowledged then Acknowledged else Open
  }

  /** The last row tells it while the alert is live, and it is not acknowledged otherwise. */
  ghost predicate Tells(mine: seq<Row>, os: seq<Observation>, acknowledged: bool) {
    (LastActive(os) ==> ShowsAcknowledged(mine, acknowledged)) && (!LastActive(os) ==> !acknowledged)
  }

  lemma {:induction false} TellsSaw(mine: seq<Row>, c: Code, os: seq<Observation>, o: Observation, acknowledged: bool)
    requires Tracks(mine, c, os) && Tells(mine, os, acknowledged)
    ensures Tells(Observe(mine, c, o), os + [o], acknowledged && o.active)
  {
    NewestIsLast(mine, c, LastActive(os));
    assert (os + [o])[|os|] == o;
  }

  lemma {:induction false} TellsAcknowledge(mine: seq<Row>, c: Code, os: seq<Observation>, acknowledged: bool)
    requires Tracks(mine, c, os) && Tells(mine, os, acknowledged)
    ensures Tells(AcknowledgeRow(mine, c), os, acknowledged || LastActive(os))
  {
    NewestIsLast(mine, c, LastActive(os));
  }

  lemma {:induction false} TellsStep(mine: seq<Row>, step: Step, c: Code, os: seq<Observation>, acknowledged: bool)
    requires Tracks(mine, c, os) && Tells(mine, os, acknowledged)
    ensures Tells(if step.code == c then Apply(mine, step) else mine, os + if Sees(step, c) then [step.o] else [],
                  AfterStep(step, c, LastActive(os), acknowledged))
  {
    assert os + [] == os;
    if step.code == c {
      match step
      case Saw(_, o) => TellsSaw(mine, c, os, o, acknowledged);
      case Acknowledge(_) => TellsAcknowledge(mine, c, os, acknowledged);
    }
  }

  /**
   * The row of a live alert is acknowledged exactly when somebody acknowledged it since it was last opened; it is open
   * otherwise.
   */
  lemma {:induction false} AcknowledgedExactlyWhen(steps: seq<Step>, c: Code)
    ensures Tells(RowsOf(Run([], steps), c), Seen(steps, c), IsAcknowledged(steps, c))
    decreases |steps|
  {
    if steps != [] {
      var front, step := steps[..|steps| - 1], steps[|steps| - 1];
      assert steps == front + [step];
      AcknowledgedExactlyWhen(front, c);
      AcknowledgedSnoc(front, step, c);
      RowsAreEpisodes(front, c);
      SeenSnoc(front, step, c);
      StepRestricts(Run([], front), step, c);
      TellsStep(RowsOf(Run([], front), c), step, c, Seen(front, c), IsAcknowledged(front, c));
    }
  }
}
