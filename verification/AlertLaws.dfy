/**
 * What every table of alerts satisfies: the rows of a code are its runs of active evaluations, at most one of them
 * live.
 */
module AlertLaws {
  import opened Prelude
  import opened Seqs
  import opened Alerts

  lemma RowsOfSnoc(rows: seq<Row>, c: Code, r: Row)
    ensures RowsOf(rows + [r], c) == RowsOf(rows, c) + if r.code == c then [r] else []
  {
    FilterSnoc(IsOf(c), rows, r);
  }

  lemma {:induction false} NoneNewest(rows: seq<Row>, c: Code)
    ensures Newest(rows, c).None? <==> Newest(RowsOf(rows, c), c).None?
    decreases |rows|
  {
    if rows != [] {
      var front, last := rows[..|rows| - 1], rows[|rows| - 1];
      assert rows == front + [last];
      RowsOfSnoc(front, c, last);
      NoneNewest(front, c);
      assert RowsOf(front, c) + [] == RowsOf(front, c);
    }
  }

  /** The newest live row among the rows of the code is the newest live row, and `r` replaces both. */
  ghost predicate Replaces(rows: seq<Row>, c: Code, i: nat, r: Row)
    requires i < |rows|
  {
    var mine := RowsOf(rows, c);
    var j := Newest(mine, c);
    j.Some? && mine[j.value] == rows[i] && RowsOf(rows[i := r], c) == mine[j.value := r]
  }

  lemma ReplaceAtEnd(front: seq<Row>, last: Row, c: Code, r: Row)
    requires last.code == c && Live(last) && r.code == c
    ensures Replaces(front + [last], c, |front|, r)
  {
    RowsOfSnoc(front, c, last);
    RowsOfSnoc(front, c, r);
    assert (front + [last])[|front| := r] == front + [r];
  }

  lemma {:induction false} ReplaceBefore(front: seq<Row>, last: Row, c: Code, i: nat, r: Row)
    requires i < |front| && Replaces(front, c, i, r) && !(last.code == c && Live(last))
    ensures Replaces(front + [last], c, i, r)
  {
    RowsOfSnoc(front, c, last);
    RowsOfSnoc(front[i := r], c, last);
    assert (front + [last])[i := r] == front[i := r] + [last];
    var mine := RowsOf(front, c);
    var j := Newest(mine, c).value;
    if last.code == c {
      assert (mine + [last])[j := r] == mine[j := r] + [last];
    } else {
      assert mine + [] == mine && RowsOf(front[i := r], c) + [] == RowsOf(front[i := r], c);
    }
  }

  /** Replacing the newest live row of a code replaces the newest live row among the rows of that code. */
  lemma {:induction false} ReplaceNewest(rows: seq<Row>, c: Code, r: Row)
    requires Newest(rows, c).Some? && r.code == c
    ensures Replaces(rows, c, Newest(rows, c).value, r)
    decreases |rows|
  {
    var i := Newest(rows, c).value;
    var front, last := rows[..|rows| - 1], rows[|rows| - 1];
    assert rows == front + [last];
    if i == |rows| - 1 {
      ReplaceAtEnd(front, last, c, r);
    } else {
      ReplaceNewest(front, c, r);
      ReplaceBefore(front, last, c, i, r);
    }
  }

  lemma {:induction false} ReplaceOther(rows: seq<Row>, c: Code, i: nat, r: Row)
    requires i < |rows| && rows[i].code != c && r.code != c
    ensures RowsOf(rows[i := r], c) == RowsOf(rows, c)
    decreases |rows|
  {
    var front, last := rows[..|rows| - 1], rows[|rows| - 1];
    assert rows == front + [last];
    RowsOfSnoc(front, c, last);
    if i == |rows| - 1 {
      assert rows[i := r] == front + [r];
      RowsOfSnoc(front, c, r);
    } else {
      ReplaceOther(front, c, i, r);
      assert rows[i := r] == front[i := r] + [last];
      RowsOfSnoc(front[i := r], c, last);
    }
  }

  /** A step on one code is that step on the code's own rows and leaves the rows of other codes alone. */
  lemma {:induction false} StepRestricts(rows: seq<Row>, step: Step, c: Code)
    ensures RowsOf(Apply(rows, step), c) == if step.code == c then Apply(RowsOf(rows, c), step) else RowsOf(rows, c)
  {
    var d := step.code;
    NoneNewest(rows, d);
    if Newest(rows, d).None? {
      if step.Saw? && step.o.active {
        RowsOfSnoc(rows, c, Fresh(d, step.o));
      }
    } else {
      var i := Newest(rows, d).value;
      var r := if step.Acknowledge? then rows[i].(status := Acknowledged) else Continued(rows[i], step.o);
      assert Apply(rows, step) == rows[i := r];
      if d == c {
        ReplaceNewest(rows, c, r);
      } else {
        ReplaceOther(rows, c, i, r);
      }
    }
  }

  /** The rows of one code: all but the last are resolved, and the last is live exactly when asked. */
  ghost predicate LastLive(mine: seq<Row>, c: Code, live: bool) {
    && (forall k :: 0 <= k < |mine| ==> mine[k].code == c)
    && (forall k :: 0 <= k < |mine| - 1 ==> !Live(mine[k]))
    && (live ==> mine != [])
    && (mine != [] ==> (Live(mine[|mine| - 1]) <==> live))
  }

  lemma {:induction false} NoLive(mine: seq<Row>, c: Code)
    requires forall k :: 0 <= k < |mine| ==> !Live(mine[k])
    ensures Newest(mine, c).None?
    decreases |mine|
  {
    if mine != [] {
      NoLive(mine[..|mine| - 1], c);
    }
  }

  lemma NewestIsLast(mine: seq<Row>, c: Code, live: bool)
    requires LastLive(mine, c, live)
    ensures Newest(mine, c) == if live then Some(|mine| - 1) else None
  {
    if !live {
      NoLive(mine, c);
    }
  }

  ghost predicate Tracks(mine: seq<Row>, c: Code, os: seq<Observation>) {
    LastLive(mine, c, LastActive(os)) && Map(FACE, mine) == Episodes(c, os)
  }

  lemma LastReplaced(mine: seq<Row>, c: Code, r: Row)
    requires LastLive(mine, c, true) && r.code == c
    ensures LastLive(mine[|mine| - 1 := r], c, Live(r))
  {
  }

  lemma FacesContinued(mine: seq<Row>, c: Code, os: seq<Observation>, o: Observation)
    requires mine != [] && Map(FACE, mine) == Episodes(c, os) && LastActive(os) && Live(mine[|mine| - 1])
    ensures Map(FACE, mine[|mine| - 1 := Continued(mine[|mine| - 1], o)]) == Episodes(c, os + [o])
  {
    var n := |mine| - 1;
    EpisodesContinue(c, os, o);
    assert Face(Continued(mine[n], o)) == Continued(Face(mine[n]), o);
    MapUpdate(FACE, mine, n, Continued(mine[n], o));
  }

  lemma TracksContinued(mine: seq<Row>, c: Code, os: seq<Observation>, o: Observation)
    requires Tracks(mine, c, os) && LastActive(os)
    ensures var n := |mine| - 1; Tracks(mine[n := Continued(mine[n], o)], c, os + [o])
  {
    LastReplaced(mine, c, Continued(mine[|mine| - 1], o));
    FacesContinued(mine, c, os, o);
  }

  lemma {:induction false} TracksBegun(mine: seq<Row>, c: Code, os: seq<Observation>, o: Observation)
    requires Tracks(mine, c, os) && !LastActive(os) && o.active
    ensures Tracks(mine + [Fresh(c, o)], c, os + [o])
  {
    EpisodesOpened(c, os, o);
    MapSnoc(FACE, mine, Fresh(c, o));
  }

  lemma TracksQuiet(mine: seq<Row>, c: Code, os: seq<Observation>, o: Observation)
    requires Tracks(mine, c, os) && !LastActive(os) && !o.active
    ensures Tracks(mine, c, os + [o])
  {
    EpisodesQuiet(c, os, o);
  }

  lemma {:induction false} TracksSaw(mine: seq<Row>, c: Code, os: seq<Observation>, o: Observation)
    requires Tracks(mine, c, os)
    ensures Tracks(Observe(mine, c, o), c, os + [o])
  {
    NewestIsLast(mine, c, LastActive(os));
    if LastActive(os) {
      TracksContinued(mine, c, os, o);
    } else if o.active {
      TracksBegun(mine, c, os, o);
    } else {
      TracksQuiet(mine, c, os, o);
    }
  }

  lemma {:induction false} TracksAcknowledge(mine: seq<Row>, c: Code, os: seq<Observation>)
    requires Tracks(mine, c, os)
    ensures Tracks(AcknowledgeRow(mine, c), c, os)
  {
    NewestIsLast(mine, c, LastActive(os));
    if LastActive(os) {
      assert Map(FACE, AcknowledgeRow(mine, c)) == Map(FACE, mine);
    }
  }

  lemma {:induction false} TracksStep(rows: seq<Row>, step: Step, c: Code, os: seq<Observation>)
    requires Tracks(RowsOf(rows, c), c, os)
    ensures Tracks(RowsOf(Apply(rows, step), c), c, os + if Sees(step, c) then [step.o] else [])
  {
    StepRestricts(rows, step, c);
    assert os + [] == os;
    if step.code == c {
      if step.Saw? {
        TracksSaw(RowsOf(rows, c), c, os, step.o);
      } else {
        TracksAcknowledge(RowsOf(rows, c), c, os);
      }
    }
  }

  /** After any steps from an empty table, the rows of a code are its runs of active evaluations, in order. */
  lemma {:induction false} RowsAreEpisodes(steps: seq<Step>, c: Code)
    ensures Tracks(RowsOf(Run([], steps), c), c, Seen(steps, c))
    ensures Map(FACE, RowsOf(Run([], steps), c)) == Episodes(c, Seen(steps, c))
    decreases |steps|
  {
    if steps == [] {
      assert RowsOf([], c) == [] && Episodes(c, []) == [];
    } else {
      var front, last := steps[..|steps| - 1], steps[|steps| - 1];
      RowsAreEpisodes(front, c);
      TracksStep(Run([], front), last, c, Seen(front, c));
      assert steps == front + [last];
      SeenSnoc(front, last, c);
    }
  }

  ghost predicate IsLive(rows: seq<Row>, c: Code) { exists i :: 0 <= i < |rows| && rows[i].code == c && Live(rows[i]) }

  /** A code is live exactly when it was last seen active. */
  lemma {:induction false} LiveExactlyWhen(steps: seq<Step>, c: Code)
    ensures IsLive(Run([], steps), c) <==> LastActive(Seen(steps, c))
  {
    var rows := Run([], steps);
    var mine := RowsOf(rows, c);
    RowsAreEpisodes(steps, c);
    if LastActive(Seen(steps, c)) {
      assert mine[|mine| - 1] in mine;
    }
    if i :| 0 <= i < |rows| && rows[i].code == c && Live(rows[i]) {
      assert rows[i] in mine;
    }
  }

  /** No code ever has two live rows, so neither the lookup nor the unique index can meet a second one. */
  lemma {:induction false} AtMostOneLive(steps: seq<Step>, c: Code)
    ensures forall i :: 0 <= i < |RowsOf(Run([], steps), c)| - 1 ==> !Live(RowsOf(Run([], steps), c)[i])
  {
    RowsAreEpisodes(steps, c);
  }

  const ACTIVE: Observation -> bool := (o: Observation) => o.active

  lemma {:induction false} OneMoreOccurrence(c: Code, os: seq<Observation>, o: Observation)
    ensures TotalOccurrences(Episodes(c, os + [o])) == TotalOccurrences(Episodes(c, os)) + if o.active then 1 else 0
  {
    var es := Episodes(c, os);
    if LastActive(os) {
      EpisodesContinue(c, os, o);
      var n := |es| - 1;
      assert es == es[..n] + [es[n]] && es[n := Continued(es[n], o)] == es[..n] + [Continued(es[n], o)];
    } else if o.active {
      EpisodesOpened(c, os, o);
    } else {
      EpisodesQuiet(c, os, o);
    }
  }

  lemma {:induction false} EpisodesCount(c: Code, os: seq<Observation>)
    ensures TotalOccurrences(Episodes(c, os)) == |Filter(ACTIVE, os)|
    decreases |os|
  {
    if os == [] {
      assert Episodes(c, os) == [];
    } else {
      var front, o := os[..|os| - 1], os[|os| - 1];
      assert os == front + [o];
      EpisodesCount(c, front);
      OneMoreOccurrence(c, front, o);
      FilterSnoc(ACTIVE, front, o);
    }
  }

  function TotalOccurrences(rows: seq<Row>): nat {
    if rows == [] then 0 else TotalOccurrences(rows[..|rows| - 1]) + rows[|rows| - 1].occurrences
  }

  lemma {:induction false} FacesCount(mine: seq<Row>)
    ensures TotalOccurrences(Map(FACE, mine)) == TotalOccurrences(mine)
    decreases |mine|
  {
    if mine != [] {
      var n := |mine| - 1;
      FacesCount(mine[..n]);
      assert Map(FACE, mine)[..n] == Map(FACE, mine[..n]);
    }
  }

  /** The occurrences in a code's rows add up to how often it was seen active. */
  lemma OccurrencesAddUp(steps: seq<Step>, c: Code)
    ensures TotalOccurrences(RowsOf(Run([], steps), c)) == |Filter(ACTIVE, Seen(steps, c))|
  {
    RowsAreEpisodes(steps, c);
    FacesCount(RowsOf(Run([], steps), c));
    EpisodesCount(c, Seen(steps, c));
  }
}
