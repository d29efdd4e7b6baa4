/**
 * Evaluating the health of a connection and of its products, and reconciling the alert table with the result.
 */
module AlertRounds {
  import opened Prelude
  import opened Alerts
  import opened AlertLaws

  const MISSED_SYNC_WARNING_MS := 90 * 60_000
  const MISSED_SYNC_CRITICAL_MS := 150 * 60_000
  const REQUEST_BUDGET := 8

  datatype SyncRun = SyncRun(status: string, errorCode: string, boundedScan: bool, deeper: bool, pageShift: bool)

  datatype Bootstrap = Bootstrap(failed: bool, claimedAt: int, failedAt: Option<int>)

  datatype Snapshot = Snapshot(
    now: int, enabled: bool, lastSuccess: Option<int>, continuousStatus: string,
    warningCodes: seq<string>, recentRuns: seq<SyncRun>,
    quotaRemaining: Option<int>, quotaMinimum: int, bootstrap: Option<Bootstrap>, expiredLeases: nat)

  /** Whether a failure code asks for an operator: a pattern over the code, left abstract. */
  type OperatorTest = string -> bool

  datatype Condition = Condition(code: Code, active: bool, severity: Severity)

  const DEGRADED: SyncRun -> bool := (r: SyncRun) => r.status == "completed_with_warnings"

  const DEEP: SyncRun -> bool := (r: SyncRun) => r.deeper || r.pageShift || r.boundedScan

  /** The number of leading runs that satisfy the test. */
  method Consecutive(runs: seq<SyncRun>, test: SyncRun -> bool) returns (count: nat)
    ensures count <= |runs| && forall i :: 0 <= i < count ==> test(runs[i])
    ensures count < |runs| ==> !test(runs[count])
    ensures count == Leading(runs, test)
  {
    count := 0;
    while count < |runs| && test(runs[count])
      invariant count <= |runs| && forall i :: 0 <= i < count ==> test(runs[i])
      invariant Leading(runs, test) == count + Leading(runs[count..], test)
    {
      assert runs[count..][1..] == runs[count + 1..];
      count := count + 1;
    }
  }

  function Leading(runs: seq<SyncRun>, test: SyncRun -> bool): nat {
    if runs == [] || !test(runs[0]) then 0 else 1 + Leading(runs[1..], test)
  }

  function FirstFailure(runs: seq<SyncRun>): string {
    if runs == [] then "" else if runs[0].status == "failed" then runs[0].errorCode else FirstFailure(runs[1..])
  }

  function FailureCode(s: Snapshot): string {
    if FirstFailure(s.recentRuns) != "" then FirstFailure(s.recentRuns)
    else if s.warningCodes == [] then "" else s.warningCodes[0]
  }

  /** Whether the last success, if any, is older than the age. */
  predicate SuccessOlderThan(s: Snapshot, age: int) { s.lastSuccess.None? || s.now - s.lastSuccess.value > age }

  function CriticalIf(b: bool): Severity { if b then Critical else Warning }

  predicate BootstrapFailed(s: Snapshot) { s.bootstrap.Some? && s.bootstrap.value.failed }

  function BootstrapAge(s: Snapshot): int {
    if !BootstrapFailed(s) then 0
    else s.now - if s.bootstrap.value.failedAt.Some? then s.bootstrap.value.failedAt.value
                 else s.bootstrap.value.claimedAt
  }

  predicate QuotaSuppressed(s: Snapshot) {
    s.quotaRemaining.Some? && s.quotaRemaining.value - REQUEST_BUDGET < s.quotaMinimum
  }

  function Conditions(operator: OperatorTest, s: Snapshot): seq<Condition> {
    ConditionsFrom(operator, s, Leading(s.recentRuns, DEGRADED), Leading(s.recentRuns, DEEP))
  }

  method Evaluate(operator: OperatorTest, s: Snapshot) returns (conditions: seq<Condition>)
    ensures conditions == Conditions(operator, s)
  {
    var degradedRuns := Consecutive(s.recentRuns, DEGRADED);
    var deepRuns := Consecutive(s.recentRuns, DEEP);
    conditions := ConditionsFrom(operator, s, degradedRuns, deepRuns);
  }

  function ConditionsFrom(operator: OperatorTest, s: Snapshot, degradedRuns: nat, deepRuns: nat): seq<Condition> {
    var needsOperator := operator(FailureCode(s));
    var failed, degraded := s.continuousStatus == "failed", s.continuousStatus == "degraded";
    var outage := SuccessOlderThan(s, MISSED_SYNC_CRITICAL_MS);
    [Condition(ContinuousFailed, failed && !needsOperator, Warning),
     Condition(ProviderAccess, needsOperator && failed, Critical),
     Condition(ContinuousDegraded, degraded && deepRuns == 0, CriticalIf(degradedRuns >= 2)),
     Condition(MissedSuccess, s.enabled && SuccessOlderThan(s, MISSED_SYNC_WARNING_MS), CriticalIf(outage)),
     Condition(ExpiredLease, s.expiredLeases > 0, CriticalIf(s.expiredLeases > 1)),
     Condition(QuotaBootstrap, BootstrapFailed(s), CriticalIf(BootstrapAge(s) > MISSED_SYNC_CRITICAL_MS)),
     Condition(QuotaFloor, s.enabled && QuotaSuppressed(s), CriticalIf(outage)),
     Condition(DeepReconciliation, degraded && deepRuns > 0, CriticalIf(deepRuns >= 2))]
  }

  datatype Integrity = Unmapped | Conflict | OtherIntegrity

  datatype Product = Product(id: string, integrity: Integrity)

  function HealthSteps(operator: OperatorTest, s: Snapshot): seq<Step> {
    var cs := Conditions(operator, s);
    seq(|cs|, i requires 0 <= i < |cs| => Saw(cs[i].code, Observation(cs[i].active, cs[i].severity, s.now)))
  }

  /** Both alerts of a product are looked at, the unmapped one first, with the severity of the one that is active. */
  function ProductPair(p: Product, now: int): (steps: seq<Step>) {
    var severity := CriticalIf(p.integrity.Conflict?);
    [Saw(ProductUnmapped(p.id), Observation(p.integrity.Unmapped?, severity, now)),
     Saw(ProductMappingConflict(p.id), Observation(p.integrity.Conflict?, severity, now))]
  }

  function ProductSteps(products: seq<Product>, now: int): seq<Step> {
    if products == [] then []
    else ProductSteps(products[..|products| - 1], now) + ProductPair(products[|products| - 1], now)
  }

  lemma {:induction false} RunConcat(rows: seq<Row>, s: seq<Step>, t: seq<Step>)
    ensures Run(rows, s + t) == Run(Run(rows, s), t)
    decreases |t|
  {
    if t == [] {
      assert s + t == s;
    } else {
      var front := t[..|t| - 1];
      RunConcat(rows, s, front);
      assert (s + t)[..|s + t| - 1] == s + front;
    }
  }

  class AlertTable {
    var rows: seq<Row>

    constructor ()
      ensures rows == []
    {
      rows := [];
    }

    /** One condition: look up the newest live row, then update it, insert one or resolve it. */
    method Reconcile(code: Code, o: Observation)
      modifies this
      ensures rows == Observe(old(rows), code, o)
    {
      var current := Newest(rows, code);
      if o.active && current.Some? {
        var row := rows[current.value];
        rows := rows[current.value :=
                       row.(severity := o.severity, lastObserved := o.now, occurrences := row.occurrences + 1)];
      } else if o.active {
        rows := rows + [Row(code, Open, o.severity, o.now, o.now, 1)];
      } else if current.Some? {
        rows := rows[current.value := rows[current.value].(status := Resolved, lastObserved := o.now)];
      }
    }

    method ReconcileHealth(operator: OperatorTest, s: Snapshot) returns (conditions: seq<Condition>)
      modifies this
      ensures conditions == Conditions(operator, s)
      ensures rows == Run(old(rows), HealthSteps(operator, s))
    {
      conditions := Evaluate(operator, s);
      ghost var steps := HealthSteps(operator, s);
      for i := 0 to |conditions|
        invariant rows == Run(old(rows), steps[..i])
      {
        Reconcile(conditions[i].code, Observation(conditions[i].active, conditions[i].severity, s.now));
        RunSnoc(old(rows), steps[..i], steps[i]);
        assert steps[..i + 1] == steps[..i] + [steps[i]];
      }
      assert steps[..|conditions|] == steps;
    }

    method ReconcileProducts(products: seq<Product>, now: int) returns (evaluated: nat)
      modifies this
      ensures evaluated == |products|
      ensures rows == Run(old(rows), ProductSteps(products, now))
    {
      for i := 0 to |products|
        invariant rows == Run(old(rows), ProductSteps(products[..i], now))
      {
        ghost var before := rows;
        var severity := CriticalIf(products[i].integrity.Conflict?);
        Reconcile(ProductUnmapped(products[i].id), Observation(products[i].integrity.Unmapped?, severity, now));
        Reconcile(ProductMappingConflict(products[i].id), Observation(products[i].integrity.Conflict?, severity, now));
        PairRuns(before, products[i], now);
        RunConcat(old(rows), ProductSteps(products[..i], now), ProductPair(products[i], now));
        assert products[..i + 1][..i] == products[..i];
      }
      assert products[..|products|] == products;
      evaluated := |products|;
    }
  }

  lemma PairRuns(rows: seq<Row>, p: Product, now: int)
    ensures var pair := ProductPair(p, now); Run(rows, pair) == Apply(Apply(rows, pair[0]), pair[1])
  {
    var pair := ProductPair(p, now);
    RunSnoc(rows, [], pair[0]);
    RunSnoc(rows, [pair[0]], pair[1]);
    assert [] + [pair[0]] == [pair[0]] && pair == [pair[0]] + [pair[1]];
  }

  // ---- rounds of evaluation ----

  datatype Round =
    | HealthRound(snapshot: Snapshot)
    | ProductRound(products: seq<Product>, now: int)
    | OperatorAcknowledges(code: Code)

  function RoundSteps(operator: OperatorTest, r: Round): seq<Step> {
    match r
    case HealthRound(s) => HealthSteps(operator, s)
    case ProductRound(products, now) => ProductSteps(products, now)
    case OperatorAcknowledges(c) => [Acknowledge(c)]
  }

  function AllSteps(operator: OperatorTest, rounds: seq<Round>): seq<Step> {
    if rounds == [] then [] else AllSteps(operator, rounds[..|rounds| - 1]) + RoundSteps(operator, rounds[|rounds| - 1])
  }

  /** Evaluated together and never active together. */
  ghost predicate Exclusive(xs: seq<Observation>, ys: seq<Observation>) {
    |xs| == |ys| && forall i :: 0 <= i < |xs| ==> !(xs[i].active && ys[i].active)
  }

  predicate IsProductCode(c: Code) { c.ProductUnmapped? || c.ProductMappingConflict? }

  /** The pairs of codes that name mutually exclusive conditions. */
  predicate Rivals(c: Code, d: Code) {
    || (c.ContinuousFailed? && d.ProviderAccess?)
    || (c.ContinuousDegraded? && d.DeepReconciliation?)
    || (c.ProductUnmapped? && d.ProductMappingConflict? && c.product == d.product)
  }

  /** The health steps see each code once, so a prefix of them sees it once or not at all. */
  lemma HealthSeen(operator: OperatorTest, s: Snapshot, m: nat, k: nat)
    requires m <= 8 && k < 8
    ensures var steps := HealthSteps(operator, s);
            |steps| == 8 && Seen(steps[..m], steps[k].code) == if k < m then [steps[k].o] else []
  {
    var steps := HealthSteps(operator, s);
    HealthCodesDiffer(operator, s, k);
    if k < m {
      SeenOnce(steps[..m], steps[k].code, k);
    } else {
      SeenNever(steps[..m], steps[k].code);
    }
  }

  lemma HealthCodesDiffer(operator: OperatorTest, s: Snapshot, k: nat)
    requires k < 8
    ensures |HealthSteps(operator, s)| == 8
    ensures Sees(HealthSteps(operator, s)[k], HealthSteps(operator, s)[k].code)
    ensures OnlySeenAt(HealthSteps(operator, s), HealthSteps(operator, s)[k].code, k)
  {
  }

  lemma HealthSeesNoProduct(operator: OperatorTest, s: Snapshot, c: Code)
    requires IsProductCode(c)
    ensures Seen(HealthSteps(operator, s), c) == []
  {
    SeenNever(HealthSteps(operator, s), c);
  }

  lemma HealthExcludes(operator: OperatorTest, s: Snapshot, c: Code, d: Code)
    requires Rivals(c, d)
    ensures Exclusive(Seen(HealthSteps(operator, s), c), Seen(HealthSteps(operator, s), d))
  {
    assert HealthSteps(operator, s)[..8] == HealthSteps(operator, s);
    if c.ContinuousFailed? {
      HealthSeen(operator, s, 8, 0);
      HealthSeen(operator, s, 8, 1);
    } else if c.ContinuousDegraded? {
      HealthSeen(operator, s, 8, 2);
      HealthSeen(operator, s, 8, 7);
    } else {
      HealthSeesNoProduct(operator, s, c);
      HealthSeesNoProduct(operator, s, d);
    }
  }

  lemma PairSeen(p: Product, now: int, c: Code)
    ensures Seen(ProductPair(p, now), c) ==
            if c == ProductUnmapped(p.id) then [ProductPair(p, now)[0].o]
            else if c == ProductMappingConflict(p.id) then [ProductPair(p, now)[1].o] else []
  {
    if c == ProductUnmapped(p.id) {
      SeenOnce(ProductPair(p, now), c, 0);
    } else if c == ProductMappingConflict(p.id) {
      SeenOnce(ProductPair(p, now), c, 1);
    } else {
      SeenNever(ProductPair(p, now), c);
    }
  }

  lemma ExclusiveConcat(xs: seq<Observation>, ys: seq<Observation>, us: seq<Observation>, vs: seq<Observation>)
    requires Exclusive(xs, ys) && Exclusive(us, vs)
    ensures Exclusive(xs + us, ys + vs)
  {
  }

  lemma {:induction false} ProductsExclude(products: seq<Product>, now: int, c: Code, d: Code)
    requires Rivals(c, d)
    ensures Exclusive(Seen(ProductSteps(products, now), c), Seen(ProductSteps(products, now), d))
    decreases |products|
  {
    if products != [] {
      var front, last := products[..|products| - 1], products[|products| - 1];
      ProductsExclude(front, now, c, d);
      PairSeen(last, now, c);
      PairSeen(last, now, d);
      SeenConcat(ProductSteps(front, now), ProductPair(last, now), c);
      SeenConcat(ProductSteps(front, now), ProductPair(last, now), d);
      ExclusiveConcat(Seen(ProductSteps(front, now), c), Seen(ProductSteps(front, now), d),
                      Seen(ProductPair(last, now), c), Seen(ProductPair(last, now), d));
    }
  }

  lemma {:induction false} RoundsExclude(operator: OperatorTest, rounds: seq<Round>, c: Code, d: Code)
    requires Rivals(c, d)
    ensures Exclusive(Seen(AllSteps(operator, rounds), c), Seen(AllSteps(operator, rounds), d))
    decreases |rounds|
  {
    if rounds != [] {
      var front, last := rounds[..|rounds| - 1], rounds[|rounds| - 1];
      RoundsExclude(operator, front, c, d);
      var before, steps := AllSteps(operator, front), RoundSteps(operator, last);
      SeenConcat(before, steps, c);
      SeenConcat(before, steps, d);
      match last {
        case HealthRound(s) => HealthExcludes(operator, s, c, d);
        case ProductRound(products, now) => ProductsExclude(products, now, c, d);
        case OperatorAcknowledges(e) =>
          SeenNever(steps, c);
          SeenNever(steps, d);
      }
      ExclusiveConcat(Seen(before, c), Seen(before, d), Seen(steps, c), Seen(steps, d));
    }
  }

  /** After any rounds of reconciliation, two alerts that exclude each other are never both live. */
  lemma {:induction false} RivalsAreNeverBothLive(operator: OperatorTest, rounds: seq<Round>, c: Code, d: Code)
    requires Rivals(c, d)
    ensures !(IsLive(Run([], AllSteps(operator, rounds)), c) && IsLive(Run([], AllSteps(operator, rounds)), d))
  {
    var steps := AllSteps(operator, rounds);
    RoundsExclude(operator, rounds, c, d);
    LiveExactlyWhen(steps, c);
    LiveExactlyWhen(steps, d);
  }

  // ---- a round that stops halfway ----

  ghost predicate BothLive(rows: seq<Row>, c: Code, d: Code) { IsLive(rows, c) && IsLive(rows, d) }

  lemma {:induction false} ProductStepsCount(products: seq<Product>, now: int)
    ensures |ProductSteps(products, now)| == 2 * |products|
    decreases |products|
  {
    if products != [] {
      ProductStepsCount(products[..|products| - 1], now);
    }
  }

  /** The first `m` writes: all of the first `m / 2` products, and one more of the next when `m` is odd. */
  lemma {:induction false} FirstWrites(products: seq<Product>, now: int, m: nat)
    requires m <= |ProductSteps(products, now)|
    ensures m / 2 <= |products| && (m % 2 == 1 ==> m / 2 < |products|)
    ensures ProductSteps(products, now)[..m] ==
            ProductSteps(products[..m / 2], now) + if m % 2 == 1 then [ProductPair(products[m / 2], now)[0]] else []
    decreases |products|
  {
    ProductStepsCount(products, now);
    if products != [] {
      var n := |products| - 1;
      var front, pair := ProductSteps(products[..n], now), ProductPair(products[n], now);
      ProductStepsCount(products[..n], now);
      if m <= |front| {
        FirstWrites(products[..n], now, m);
        assert products[..n][..m / 2] == products[..m / 2];
        assert (front + pair)[..m] == front[..m];
      } else if m == |front| + 1 {
        assert (front + pair)[..m] == front + [pair[0]];
      } else {
        assert (front + pair)[..m] == front + pair && products[..n + 1] == products;
      }
    }
  }

  /** Between the two writes of a product: the unmapped alert follows the product, the conflict alert is as it was. */
  lemma AfterFirstWrite(steps: seq<Step>, p: Product, now: int, id: string)
    ensures var rows := Run([], steps + [ProductPair(p, now)[0]]);
            && (IsLive(rows, ProductUnmapped(id)) <==>
                if p.id == id then p.integrity.Unmapped? else IsLive(Run([], steps), ProductUnmapped(id)))
            && (IsLive(rows, ProductMappingConflict(id)) <==> IsLive(Run([], steps), ProductMappingConflict(id)))
  {
    var step := ProductPair(p, now)[0];
    var c, d := ProductUnmapped(id), ProductMappingConflict(id);
    OneMoreSeen(steps, step, c);
    OneMoreSeen(steps, step, d);
  }

  lemma OneMoreSeen(steps: seq<Step>, step: Step, c: Code)
    ensures IsLive(Run([], steps + [step]), c) <==> if Sees(step, c) then step.o.active else IsLive(Run([], steps), c)
  {
    SeenSnoc(steps, step, c);
    LiveExactlyWhen(steps + [step], c);
    LiveExactlyWhen(steps, c);
  }

  /**
   * A round of products that stops after `m` writes, after any complete rounds: both alerts of a product are live
   * exactly when the stop falls between its two writes, it was found unmapped, and its conflict alert was live.
   */
  lemma StoppedRoundExactlyWhen(operator: OperatorTest, rounds: seq<Round>, products: seq<Product>, now: int, m: nat,
                                id: string)
    requires m <= |ProductSteps(products, now)|
    ensures m / 2 <= |products|
    ensures var before := AllSteps(operator, rounds) + ProductSteps(products[..m / 2], now);
            BothLive(Run([], AllSteps(operator, rounds) + ProductSteps(products, now)[..m]), ProductUnmapped(id),
                     ProductMappingConflict(id))
            <==> m % 2 == 1 && m / 2 < |products| && products[m / 2] == Product(id, Unmapped)
                 && IsLive(Run([], before), ProductMappingConflict(id))
  {
    FirstWrites(products, now, m);
    var done := ProductSteps(products[..m / 2], now);
    var before := AllSteps(operator, rounds) + done;
    CompleteWrites(operator, rounds, products[..m / 2], now, id);
    if m % 2 == 1 {
      AfterFirstWrite(before, products[m / 2], now, id);
      assert AllSteps(operator, rounds) + (done + [ProductPair(products[m / 2], now)[0]])
             == before + [ProductPair(products[m / 2], now)[0]];
    } else {
      assert done + [] == done;
    }
  }

  lemma CompleteWrites(operator: OperatorTest, rounds: seq<Round>, products: seq<Product>, now: int, id: string)
    ensures !BothLive(Run([], AllSteps(operator, rounds) + ProductSteps(products, now)), ProductUnmapped(id),
                      ProductMappingConflict(id))
  {
    var all := rounds + [ProductRound(products, now)];
    assert all[..|rounds|] == rounds;
    RivalsAreNeverBothLive(operator, all, ProductUnmapped(id), ProductMappingConflict(id));
  }

  /** The positions in a health round at which the two alerts of a pair of rivals are written. */
  function RivalPositions(c: Code): (nat, nat) { if c.ContinuousFailed? then (0, 1) else (2, 7) }

  lemma PrefixLive(operator: OperatorTest, before: seq<Step>, s: Snapshot, m: nat, k: nat)
    requires m <= 8 && k < 8
    ensures |HealthSteps(operator, s)| == |Conditions(operator, s)| == 8
    ensures var code := Conditions(operator, s)[k].code;
            IsLive(Run([], before + HealthSteps(operator, s)[..m]), code) <==>
            if k < m then Conditions(operator, s)[k].active else IsLive(Run([], before), code)
  {
    var steps := HealthSteps(operator, s)[..m];
    var code := Conditions(operator, s)[k].code;
    HealthSeen(operator, s, m, k);
    SeenConcat(before, steps, code);
    LiveExactlyWhen(before + steps, code);
    LiveExactlyWhen(before, code);
    assert Seen(before, code) + [] == Seen(before, code);
  }

  /**
   * A health round that stops after `m` writes: two rival alerts are both live exactly when the stop falls between
   * their two writes, the first was found active, and the second was live before the round.
   */
  lemma StoppedHealthRoundExactlyWhen(operator: OperatorTest, rounds: seq<Round>, s: Snapshot, m: nat, c: Code, d: Code)
    requires m <= 8 && Rivals(c, d) && !c.ProductUnmapped?
    ensures |HealthSteps(operator, s)| == |Conditions(operator, s)| == 8
    ensures var (i, j) := RivalPositions(c);
            BothLive(Run([], AllSteps(operator, rounds) + HealthSteps(operator, s)[..m]), c, d)
            <==> i < m <= j && Conditions(operator, s)[i].active && IsLive(Run([], AllSteps(operator, rounds)), d)
  {
    var (i, j) := RivalPositions(c);
    var before := AllSteps(operator, rounds);
    PrefixLive(operator, before, s, m, i);
    PrefixLive(operator, before, s, m, j);
    RivalsAreNeverBothLive(operator, rounds, c, d);
    StatusRaisesOneAlert(operator, s);
  }

  /** After a health round, each condition's alert is live exactly when the round found the condition active. */
  lemma HealthRoundSettles(operator: OperatorTest, rounds: seq<Round>, s: Snapshot, k: nat)
    requires k < 8
    ensures |Conditions(operator, s)| == 8
    ensures var condition := Conditions(operator, s)[k];
            IsLive(Run([], AllSteps(operator, rounds + [HealthRound(s)])), condition.code) <==> condition.active
  {
    assert (rounds + [HealthRound(s)])[..|rounds|] == rounds;
    assert HealthSteps(operator, s)[..8] == HealthSteps(operator, s);
    PrefixLive(operator, AllSteps(operator, rounds), s, 8, k);
  }

  /** A failed synchronization raises exactly one of its two alerts, a degraded one exactly one of its two. */
  lemma StatusRaisesOneAlert(operator: OperatorTest, s: Snapshot)
    ensures var cs := Conditions(operator, s);
            && |cs| == 8
            && (s.continuousStatus == "failed" <==> cs[0].active != cs[1].active)
            && (s.continuousStatus == "degraded" <==> cs[2].active != cs[7].active)
            && forall i, j :: 0 <= i < j < 8 ==> cs[i].code != cs[j].code
  {
  }
}
