/** The eight conditions of a connection and the two of a product, in the terms of what was observed. */
module AlertRules {
  import opened Alerts
  import opened AlertRounds

  const MINUTE_MS := 60_000

  /** The leading runs, at least `n` of them, pass the test. */
  ghost predicate LeadsWith(runs: seq<SyncRun>, n: nat, test: SyncRun -> bool) {
    n <= |runs| && forall i :: 0 <= i < n ==> test(runs[i])
  }

  lemma {:induction false} LeadingExactly(runs: seq<SyncRun>, n: nat, test: SyncRun -> bool)
    ensures Leading(runs, test) >= n <==> LeadsWith(runs, n, test)
    decreases |runs|
  {
    if n > 0 && runs != [] && test(runs[0]) {
      LeadingExactly(runs[1..], n - 1, test);
      assert forall i :: 0 <= i < n - 1 ==> i < |runs| - 1 ==> runs[1..][i] == runs[i + 1];
      if LeadsWith(runs[1..], n - 1, test) {
        forall i | 0 <= i < n ensures test(runs[i]) {
          assert i > 0 ==> runs[i] == runs[1..][i - 1];
        }
      }
      if LeadsWith(runs, n, test) {
        forall i | 0 <= i < n - 1 ensures test(runs[1..][i]) {
          assert runs[1..][i] == runs[i + 1];
        }
      }
    }
  }

  /** The run finished with warnings; the run looked deeper, saw a page shift or stopped at its bound. */
  const WARNED: SyncRun -> bool := (r: SyncRun) => r.status == "completed_with_warnings"
  const LOOKED_DEEP: SyncRun -> bool := (r: SyncRun) => r.boundedScan || r.deeper || r.pageShift

  /** The code of the latest failed run, if it has one, or else of the first warning. */
  ghost predicate IsFailureCode(s: Snapshot, code: string) {
    if exists i :: IsLatestFailure(s.recentRuns, i) && s.recentRuns[i].errorCode != "" then
      exists i :: IsLatestFailure(s.recentRuns, i) && code == s.recentRuns[i].errorCode
    else if s.warningCodes != [] then code == s.warningCodes[0]
    else code == ""
  }

  ghost predicate IsLatestFailure(runs: seq<SyncRun>, i: int) {
    0 <= i < |runs| && runs[i].status == "failed" && forall j :: 0 <= j < i ==> runs[j].status != "failed"
  }

  lemma {:induction false} FirstFailureExactly(runs: seq<SyncRun>)
    ensures (forall i :: !IsLatestFailure(runs, i)) ==> FirstFailure(runs) == ""
    ensures forall i :: IsLatestFailure(runs, i) ==> FirstFailure(runs) == runs[i].errorCode
    decreases |runs|
  {
    if runs != [] {
      var rest := runs[1..];
      FirstFailureExactly(rest);
      if runs[0].status == "failed" {
        assert IsLatestFailure(runs, 0);
      } else {
        forall i ensures IsLatestFailure(runs, i) <==> IsLatestFailure(rest, i - 1) {
          if IsLatestFailure(rest, i - 1) {
            assert runs[i] == rest[i - 1];
            forall j | 0 <= j < i ensures runs[j].status != "failed" {
              assert j > 0 ==> runs[j] == rest[j - 1];
            }
          }
          if IsLatestFailure(runs, i) {
            assert i > 0 && runs[i] == rest[i - 1];
            forall j | 0 <= j < i - 1 ensures rest[j].status != "failed" {
              assert rest[j] == runs[j + 1];
            }
          }
        }
        forall i | IsLatestFailure(runs, i) ensures FirstFailure(runs) == runs[i].errorCode {
          assert IsLatestFailure(rest, i - 1) && rest[i - 1] == runs[i];
        }
        if forall i :: !IsLatestFailure(runs, i) {
          forall i ensures !IsLatestFailure(rest, i) {
            assert IsLatestFailure(runs, i + 1) <==> IsLatestFailure(rest, i);
          }
        }
      }
    }
  }

  lemma FailureCodeExactly(s: Snapshot)
    ensures IsFailureCode(s, FailureCode(s))
  {
    FirstFailureExactly(s.recentRuns);
  }

  /** No synchronization succeeded for longer than so many minutes. */
  predicate Overdue(s: Snapshot, minutes: int) {
    s.lastSuccess.None? || s.now > s.lastSuccess.value + minutes * MINUTE_MS
  }

  /** The bootstrap failed, at the time given or else when it was claimed, more than so many minutes ago. */
  predicate FailedLongAgo(s: Snapshot, minutes: int) {
    && s.bootstrap.Some? && s.bootstrap.value.failed
    && var since := if s.bootstrap.value.failedAt.Some? then s.bootstrap.value.failedAt.value
                    else s.bootstrap.value.claimedAt;
       s.now > since + minutes * MINUTE_MS
  }

  ghost predicate IsCondition(c: Condition, code: Code, active: bool, critical: bool) {
    c.code == code && c.active == active && c.severity == if critical then Critical else Warning
  }

  /** The eight conditions: when each is active, and when critical. */
  ghost predicate AreConditions(cs: seq<Condition>, s: Snapshot, access: bool, warned: bool, deep: bool,
                                stillDeep: bool)
  {
    var failed, degraded := s.continuousStatus == "failed", s.continuousStatus == "degraded";
    && |cs| == 8
    && IsCondition(cs[0], ContinuousFailed, failed && !access, false)
    && IsCondition(cs[1], ProviderAccess, failed && access, true)
    && IsCondition(cs[2], ContinuousDegraded, degraded && !deep, warned)
    && IsCondition(cs[3], MissedSuccess, s.enabled && Overdue(s, 90), Overdue(s, 150))
    && IsCondition(cs[4], ExpiredLease, s.expiredLeases != 0, s.expiredLeases >= 2)
    && IsCondition(cs[5], QuotaBootstrap, s.bootstrap.Some? && s.bootstrap.value.failed, FailedLongAgo(s, 150))
    && IsCondition(cs[6], QuotaFloor, s.enabled && BelowQuota(s), Overdue(s, 150))
    && IsCondition(cs[7], DeepReconciliation, degraded && deep, stillDeep)
  }

  predicate BelowQuota(s: Snapshot) { s.quotaRemaining.Some? && s.quotaRemaining.value < s.quotaMinimum + 8 }

  /** The conditions of a snapshot, by its failure code and its latest one or two runs. */
  lemma {:induction false} ConditionsExactly(operator: OperatorTest, s: Snapshot)
    ensures IsFailureCode(s, FailureCode(s))
    ensures AreConditions(Conditions(operator, s), s, operator(FailureCode(s)), LeadsWith(s.recentRuns, 2, WARNED),
                          LeadsWith(s.recentRuns, 1, LOOKED_DEEP), LeadsWith(s.recentRuns, 2, LOOKED_DEEP))
  {
    FailureCodeExactly(s);
    SameLeading(s.recentRuns, 1, DEEP, LOOKED_DEEP);
    SameLeading(s.recentRuns, 2, DEEP, LOOKED_DEEP);
    SameLeading(s.recentRuns, 2, DEGRADED, WARNED);
    ConditionsByRuns(operator, s, Leading(s.recentRuns, DEGRADED), Leading(s.recentRuns, DEEP));
  }

  lemma SameLeading(runs: seq<SyncRun>, n: nat, test: SyncRun -> bool, same: SyncRun -> bool)
    requires forall r :: test(r) == same(r)
    ensures Leading(runs, test) >= n <==> LeadsWith(runs, n, same)
  {
    LeadingExactly(runs, n, test);
  }

  lemma ConditionsByRuns(operator: OperatorTest, s: Snapshot, warned: nat, deep: nat)
    ensures AreConditions(ConditionsFrom(operator, s, warned, deep), s, operator(FailureCode(s)), warned >= 2,
                          deep >= 1,
                          deep >= 2)
  {
  }

  /** An unmapped product has a warning, a conflicting one a critical alert of its own, any other product none. */
  lemma ProductPairExactly(p: Product, now: int)
    ensures var steps := ProductPair(p, now);
            && |steps| == 2 && steps[0].Saw? && steps[0].code == ProductUnmapped(p.id)
            && steps[1].Saw? && steps[1].code == ProductMappingConflict(p.id)
            && (steps[0].o.active <==> p.integrity == Unmapped)
                && (steps[0].o.active ==> steps[0].o.severity == Warning)
            && (steps[1].o.active <==> p.integrity == Conflict)
                && (steps[1].o.active ==> steps[1].o.severity == Critical)
            && steps[0].o.now == now && steps[1].o.now == now
  {
  }

  /** A health round shows each condition to the table, with its severity, at the time of the snapshot. */
  lemma HealthStepsExactly(operator: OperatorTest, s: Snapshot)
    ensures var cs, steps := Conditions(operator, s), HealthSteps(operator, s);
            |steps| == |cs| && forall i :: 0 <= i < |cs| ==>
              steps[i].Saw? && steps[i].code == cs[i].code && steps[i].o.active == cs[i].active
              && steps[i].o.severity == cs[i].severity && steps[i].o.now == s.now
  {
  }
}
