/** The counters of a backfill under dry run: real counts never show, and no count that came in is lost. */
module DryRun {

  /** The five real counters and the four preview counters; a missing one is 0. */
  datatype Counters = Counters(
    peopleCreated: int, peopleMatched: int, attached: int, reviewRequired: int, skipped: int,
    wouldCreate: int, wouldMatch: int, wouldReview: int, wouldSkip: int)

  datatype Metadata = Metadata(dryRun: bool, counters: Counters)

  /** Real counts are moved to their previews; `attached` has none and is dropped. */
  function Moved(c: Counters): Counters {
    Counters(0, 0, 0, 0, 0,
             c.wouldCreate + c.peopleCreated, c.wouldMatch + c.peopleMatched,
             c.wouldReview + c.reviewRequired, c.wouldSkip + c.skipped)
  }

  function NormalizeSummary(summary: Counters, parentDryRun: bool): Counters {
    if parentDryRun then Moved(summary) else summary
  }

  function NormalizeMetadata(m: Metadata): Metadata { if m.dryRun then m.(counters := Moved(m.counters)) else m }

  function Plus(a: Counters, b: Counters): Counters {
    Counters(a.peopleCreated + b.peopleCreated, a.peopleMatched + b.peopleMatched, a.attached + b.attached,
             a.reviewRequired + b.reviewRequired, a.skipped + b.skipped,
             a.wouldCreate + b.wouldCreate, a.wouldMatch + b.wouldMatch, a.wouldReview + b.wouldReview,
             a.wouldSkip + b.wouldSkip)
  }

  function Merge(m: Metadata, summary: Counters, parentDryRun: bool): Metadata {
    var base := if parentDryRun then NormalizeMetadata(m.(dryRun := true)) else m;
    base.(counters := Plus(base.counters, NormalizeSummary(summary, parentDryRun)))
  }

  /** The metrics read back: stored metadata of a dry run is repaired while reading. */
  function Metrics(m: Metadata): Counters {
    var c := m.counters;
    if m.dryRun then
      Counters(0, 0, 0, 0, 0, c.wouldCreate + c.peopleCreated, c.wouldMatch + c.peopleMatched,
               c.wouldReview + c.reviewRequired, c.wouldSkip + c.skipped)
    else c
  }

  function MergeAll(m: Metadata, summaries: seq<Counters>, parentDryRun: bool): Metadata {
    if summaries == [] then m
    else Merge(MergeAll(m, summaries[..|summaries| - 1], parentDryRun), summaries[|summaries| - 1], parentDryRun)
  }

  const NOTHING := Counters(0, 0, 0, 0, 0, 0, 0, 0, 0)

  function Total(summaries: seq<Counters>): Counters {
    if summaries == [] then NOTHING else Plus(Total(summaries[..|summaries| - 1]), summaries[|summaries| - 1])
  }

  /** Whatever was merged under dry run, real counters read zero and each preview is the sum of what came in. */
  lemma {:induction false} DryRunConserves(m: Metadata, summaries: seq<Counters>)
    requires m.dryRun
    ensures var r := MergeAll(m, summaries, true);
            && r.dryRun
            && (summaries != [] ==> r.counters == Moved(Plus(m.counters, Total(summaries))))
            && Metrics(r) == Moved(Plus(m.counters, Total(summaries)))
    decreases |summaries|
  {
    if summaries != [] {
      DryRunConserves(m, summaries[..|summaries| - 1]);
    }
  }

  /** Outside dry run, merging is plain addition. */
  lemma {:induction false} RealRunAdds(m: Metadata, summaries: seq<Counters>)
    requires !m.dryRun
    ensures MergeAll(m, summaries, false) == m.(counters := Plus(m.counters, Total(summaries)))
    decreases |summaries|
  {
    if summaries != [] {
      RealRunAdds(m, summaries[..|summaries| - 1]);
    }
  }

  /** Repairing on write and repairing on read agree, in any order and however often. */
  lemma RepairsAgree(m: Metadata)
    ensures NormalizeMetadata(NormalizeMetadata(m)) == NormalizeMetadata(m)
    ensures Metrics(NormalizeMetadata(m)) == Metrics(m)
    ensures Metrics(m) == NormalizeMetadata(m).counters
  {
  }

  lemma {:induction false} TotalConcat(s: seq<Counters>, t: seq<Counters>)
    ensures Total(s + t) == Plus(Total(s), Total(t))
    decreases |t|
  {
    if t == [] {
      assert s + t == s;
    } else {
      assert (s + t)[..|s + t| - 1] == s + t[..|t| - 1];
      TotalConcat(s, t[..|t| - 1]);
    }
  }

  /** The order in which tasks report does not matter. */
  lemma {:induction false} ReportsCommute(m: Metadata, s: seq<Counters>, t: seq<Counters>)
    requires m.dryRun && s + t != []
    ensures MergeAll(m, s + t, true) == MergeAll(m, t + s, true)
  {
    DryRunConserves(m, s + t);
    DryRunConserves(m, t + s);
    TotalConcat(s, t);
    TotalConcat(t, s);
  }
}
