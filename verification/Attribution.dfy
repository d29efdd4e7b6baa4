/**
 * First-touch and last-touch attribution: which touchpoints a conversion may credit, which of them
 * wins, and the credits of a whole journey.
 */
module Attribution {
  import opened Prelude
  import opened CodeUnits
  import opened Ordering
  import opened Seqs
  import Decimal

  const DAY_MS := 86400000
  const MODEL_VERSION := "v1"
  const ELIGIBILITY_VERSION := "touchpoint_eligibility_v1"
  const DEFAULT_CLICK_DAYS := 30.0
  const DEFAULT_VIEW_DAYS := 1.0

  datatype Model = FirstTouch | LastTouch

  /** A journey event; texts are trimmed, source and medium also lower-cased, and "" stands for a missing text. */
  datatype JourneyEvent = JourneyEvent(
    id: string,
    time: int,
    eventType: string,
    workspaceId: string,
    journeyId: string,
    personId: string,
    platform: string,
    source: string,
    medium: string,
    affiliateId: string,
    campaignId: string,
    offerId: string,
    touchpointId: string,
    transactionId: string,
    amount: Option<int>,
    currency: string)

  datatype ChannelWindow = ChannelWindow(clickDays: Option<real>, viewDays: Option<real>)

  datatype WindowConfig = WindowConfig(
    clickDays: Option<real>, viewDays: Option<real>, channels: map<string, ChannelWindow>)

  datatype Journey = Journey(workspaceId: string, id: string, personId: string, windows: WindowConfig)

  datatype Metadata = Metadata(windowDays: Option<real>, conversionType: string, touchpointType: Option<string>)

  datatype Credit = Credit(
    workspaceId: string,
    journeyId: string,
    personId: string,
    conversionId: string,
    touchpointId: Option<string>,
    conversionTime: int,
    touchpointTime: Option<int>,
    model: Model,
    modelVersion: string,
    eligibilityVersion: string,
    attributed: bool,
    amount: Option<Text>,
    currency: string,
    channel: Option<string>,
    source: string,
    medium: string,
    campaignId: string,
    affiliateId: string,
    offerId: string,
    calculatedAt: int,
    metadata: Metadata)

  // ---- eligibility ----

  predicate IsTouchpointType(t: string) {
    t in {"click", "lead_created", "checkout_started", "email_click", "landing_page", "session_start", "page_view",
          "sms", "call"}
  }

  predicate IsConversion(e: JourneyEvent) {
    e.eventType in {"purchase", "upsell", "subscription_started", "subscription_renewed"}
  }

  predicate IsView(e: JourneyEvent) { e.eventType in {"landing_page", "session_start", "page_view"} }

  predicate HasAcquisitionContext(e: JourneyEvent) {
    e.affiliateId != "" || e.campaignId != "" || e.source != "" || e.medium != "" || e.offerId != ""
    || e.touchpointId != "" || e.transactionId != ""
  }

  predicate OccursAt(s: string, part: string, i: nat) { i + |part| <= |s| && s[i..i + |part|] == part }

  predicate Includes(s: string, part: string) { exists i :: 0 <= i <= |s| && OccursAt(s, part, i) }

  function Channel(e: JourneyEvent): string {
    if e.eventType == "email_click" || Includes(e.source, "email") || Includes(e.medium, "email") then "email"
    else if e.eventType == "sms" || Includes(e.source, "sms") || Includes(e.medium, "sms") then "sms"
    else if e.eventType == "call" || Includes(e.source, "call") || Includes(e.medium, "call") then "call"
    else if e.affiliateId != "" || e.offerId != "" then "affiliate"
    else if e.medium in {"cpc", "ppc", "paid_search", "sem"} then "paid_search"
    else if e.medium in {"paid_social", "social_paid"} then "paid_social"
    else if e.medium in {"organic", "organic_search"} then "organic_search"
    else if e.medium == "referral" then "referral"
    else if e.medium == "direct" || e.source == "direct" then "direct"
    else "other"
  }

  predicate IsTouchpoint(e: JourneyEvent) { IsTouchpointType(e.eventType) && HasAcquisitionContext(e) }

  function PositiveDays(value: Option<real>, fallback: real): real {
    if value.Some? && value.value > 0.0 then value.value else fallback
  }

  /** A channel's own window, else the journey's default, else the built-in default. */
  function WindowDays(e: JourneyEvent, journey: Journey): real {
    var config := journey.windows;
    var fallback := if IsView(e) then PositiveDays(config.viewDays, DEFAULT_VIEW_DAYS)
                    else PositiveDays(config.clickDays, DEFAULT_CLICK_DAYS);
    if IsTouchpoint(e) && Channel(e) in config.channels then
      var w := config.channels[Channel(e)];
      PositiveDays(if IsView(e) then w.viewDays else w.clickDays, fallback)
    else fallback
  }

  predicate InScope(journey: Journey, conversion: JourneyEvent, e: JourneyEvent) {
    && e.workspaceId == journey.workspaceId && conversion.workspaceId == journey.workspaceId
    && e.journeyId == journey.id && conversion.journeyId == journey.id
    && e.personId == journey.personId && conversion.personId == journey.personId
  }

  /** What the chain of filters keeps: another event in scope, a touchpoint, not later, within its window. */
  predicate Eligible(journey: Journey, conversion: JourneyEvent, e: JourneyEvent) {
    && e.id != conversion.id
    && InScope(journey, conversion, e)
    && IsTouchpoint(e)
    && e.time <= conversion.time
    && (conversion.time - e.time) as real <= WindowDays(e, journey) * DAY_MS as real
  }

  function EligibleTouchpoints(journey: Journey, events: seq<JourneyEvent>,
                               conversion: JourneyEvent): seq<JourneyEvent> {
    Filter(e => Eligible(journey, conversion, e), events)
  }

  // ---- the winner ----

  /** `localeCompare` on ids: some strict total order. */
  type Collation = (string, string) -> bool

  predicate Earlier(collate: Collation, a: JourneyEvent, b: JourneyEvent) {
    a.time < b.time || (a.time == b.time && collate(a.id, b.id))
  }

  function ModelOrder(collate: Collation, model: Model): (JourneyEvent, JourneyEvent) -> bool {
    if model.FirstTouch? then (a, b) => Earlier(collate, a, b) else (a, b) => Earlier(collate, b, a)
  }

  function Winner(collate: Collation, journey: Journey, events: seq<JourneyEvent>, conversion: JourneyEvent,
                  model: Model): Option<JourneyEvent> {
    var sorted := Sort(ModelOrder(collate, model), EligibleTouchpoints(journey, events, conversion));
    if sorted == [] then None else Some(sorted[0])
  }

  function BuildCredit(journey: Journey, conversion: JourneyEvent, touchpoint: Option<JourneyEvent>, model: Model,
                       calculatedAt: int): Credit {
    match touchpoint
    case None =>
      Credit(journey.workspaceId, journey.id, journey.personId, conversion.id, None, conversion.time, None, model,
             MODEL_VERSION,
             ELIGIBILITY_VERSION, false, None, conversion.currency, None, "", "", "", "", "", calculatedAt,
             Metadata(None, conversion.eventType, None))
    case Some(t) =>
      Credit(journey.workspaceId, journey.id, journey.personId, conversion.id, Some(t.id), conversion.time,
             Some(t.time), model, MODEL_VERSION,
             ELIGIBILITY_VERSION, true, if conversion.amount.None? then None
                                        else Some(Decimal.MicrosToDecimal(conversion.amount.value)),
             conversion.currency, if IsTouchpoint(t) then Some(Channel(t)) else None, t.source, t.medium,
             t.campaignId, t.affiliateId, t.offerId, calculatedAt,
             Metadata(Some(WindowDays(t, journey)), conversion.eventType, Some(t.eventType)))
  }

  function ConversionCredit(collate: Collation, journey: Journey, events: seq<JourneyEvent>, conversion: JourneyEvent,
                            model: Model, calculatedAt: int): Option<Credit> {
    if !IsConversion(conversion) then None
    else Some(BuildCredit(journey, conversion, Winner(collate, journey, events, conversion, model), model,
                          calculatedAt))
  }

  // ---- the credits of a journey ----

  predicate Converts(journey: Journey, platforms: set<string>, e: JourneyEvent) {
    InScope(journey, e, e) && IsConversion(e) && (platforms == {} || e.platform in platforms)
  }

  function Conversions(collate: Collation, journey: Journey, events: seq<JourneyEvent>,
                       platforms: set<string>): (cs: seq<JourneyEvent>) {
    Sort(ModelOrder(collate, FirstTouch), Filter(e => Converts(journey, platforms, e), events))
  }

  /** The credits of one conversion, one for each model, in the order of the models. */
  function ModelCredits(collate: Collation, journey: Journey, events: seq<JourneyEvent>, conversion: JourneyEvent,
                        models: seq<Model>, calculatedAt: int): (cs: seq<Credit>) {
    if models == [] then [] else
      var front := ModelCredits(collate, journey, events, conversion, models[..|models| - 1], calculatedAt);
      match ConversionCredit(collate, journey, events, conversion, models[|models| - 1], calculatedAt)
      case None => front
      case Some(c) => front + [c]
  }

  function Credits(collate: Collation, journey: Journey, events: seq<JourneyEvent>, conversions: seq<JourneyEvent>,
                   models: seq<Model>, calculatedAt: int): (cs: seq<Credit>) {
    if conversions == [] then [] else
      Credits(collate, journey, events, conversions[..|conversions| - 1], models, calculatedAt)
      + ModelCredits(collate, journey, events, conversions[|conversions| - 1], models, calculatedAt)
  }

  method CalculateJourney(collate: Collation, journey: Journey, events: seq<JourneyEvent>, models: seq<Model>,
                          platforms: set<string>, calculatedAt: int)
    returns (conversions: seq<JourneyEvent>, credits: seq<Credit>)
    ensures conversions == Conversions(collate, journey, events, platforms)
    ensures credits == Credits(collate, journey, events, conversions, models, calculatedAt)
  {
    conversions := Conversions(collate, journey, events, platforms);
    credits := [];
    for i := 0 to |conversions|
      invariant credits == Credits(collate, journey, events, conversions[..i], models, calculatedAt)
    {
      credits := AppendCredits(credits, collate, journey, events, conversions[i], models, calculatedAt);
      assert conversions[..i + 1][..i] == conversions[..i];
    }
    assert conversions[..|conversions|] == conversions;
  }

  function Listed(c: Option<Credit>): seq<Credit> { if c.None? then [] else [c.value] }

  lemma ModelCreditsNext(collate: Collation, journey: Journey, events: seq<JourneyEvent>, conversion: JourneyEvent,
                         models: seq<Model>, calculatedAt: int, j: nat)
    requires j < |models|
    ensures var credit := ConversionCredit(collate, journey, events, conversion, models[j], calculatedAt);
            ModelCredits(collate, journey, events, conversion, models[..j + 1], calculatedAt)
            == ModelCredits(collate, journey, events, conversion, models[..j], calculatedAt) + Listed(credit)
  {
    assert models[..j + 1][..j] == models[..j];
  }

  lemma Pushed(before: seq<Credit>, sofar: seq<Credit>, credit: Option<Credit>)
    ensures before + (sofar + Listed(credit))
            == if credit.None? then before + sofar else before + sofar + [credit.value]
  {
  }

  method AppendCredits(before: seq<Credit>, collate: Collation, journey: Journey, events: seq<JourneyEvent>,
                       conversion: JourneyEvent, models: seq<Model>, calculatedAt: int)
    returns (credits: seq<Credit>)
    ensures credits == before + ModelCredits(collate, journey, events, conversion, models, calculatedAt)
  {
    credits := before;
    for j := 0 to |models|
      invariant credits == before + ModelCredits(collate, journey, events, conversion, models[..j], calculatedAt)
    {
      ModelCreditsNext(collate, journey, events, conversion, models, calculatedAt, j);
      var credit := ConversionCredit(collate, journey, events, conversion, models[j], calculatedAt);
      Pushed(before, ModelCredits(collate, journey, events, conversion, models[..j], calculatedAt), credit);
      if credit.Some? {
        credits := credits + [credit.value];
      }
    }
    assert models[..|models|] == models;
  }

  // ---- what the winner is ----

  ghost predicate DistinctIds(events: seq<JourneyEvent>) {
    forall i, j :: 0 <= i < j < |events| ==> events[i].id != events[j].id
  }

  lemma ModelOrderWeak(collate: Collation, model: Model)
    requires StrictTotal(collate)
    ensures StrictWeak(ModelOrder(collate, model))
  {
    var less := ModelOrder(collate, FirstTouch);
    forall a, b, c | less(a, c) ensures less(a, b) || less(b, c) {
      if a.time == b.time == c.time && b.id != a.id && b.id != c.id {
        assert collate(a.id, b.id) || collate(b.id, a.id);
      }
    }
    assert StrictWeak(less);
    assert forall a, b :: ModelOrder(collate, LastTouch)(a, b) == less(b, a);
  }

  /**
   * The first-touch winner is minimal and the last-touch winner maximal by (time, id) among the eligible touchpoints.
   */
  lemma WinnerIsExtreme(collate: Collation, journey: Journey, events: seq<JourneyEvent>, conversion: JourneyEvent,
                        model: Model)
    requires StrictTotal(collate)
    ensures var w := Winner(collate, journey, events, conversion, model);
            && (w.None? <==> forall e <- events :: !Eligible(journey, conversion, e))
            && (w.Some? ==> w.value in events && Eligible(journey, conversion, w.value))
            && (w.Some? ==> forall e <- events :: Eligible(journey, conversion, e) ==>
                 if model.FirstTouch? then !Earlier(collate, e, w.value) else !Earlier(collate, w.value, e))
  {
    var eligible := EligibleTouchpoints(journey, events, conversion);
    var less := ModelOrder(collate, model);
    var sorted := Sort(less, eligible);
    ModelOrderWeak(collate, model);
    SortSorts(less, eligible);
    SortElements(less, eligible);
    forall e | e in events && Eligible(journey, conversion, e) ensures e in eligible {
    }
    if eligible != [] {
      assert eligible[0] in eligible;
      assert sorted[0] in sorted;
      forall e | e in events && Eligible(journey, conversion, e) ensures !less(e, sorted[0]) {
        assert e in eligible && e in sorted;
        var k :| 0 <= k < |sorted| && sorted[k] == e;
      }
    }
  }

  /** A credit is unattributed exactly when no touchpoint is eligible. */
  lemma UnattributedExactlyWhen(collate: Collation, journey: Journey, events: seq<JourneyEvent>,
                                conversion: JourneyEvent, model: Model, calculatedAt: int)
    requires StrictTotal(collate) && IsConversion(conversion)
    ensures var c := ConversionCredit(collate, journey, events, conversion, model, calculatedAt).value;
            && (!c.attributed <==> forall e <- events :: !Eligible(journey, conversion, e))
            && (c.attributed <==> c.touchpointId.Some?)
            && (c.touchpointId.Some? ==> exists e ::
                  e in events && Eligible(journey, conversion, e) && e.id == c.touchpointId.value)
  {
    WinnerIsExtreme(collate, journey, events, conversion, model);
  }

  // ---- the input order does not matter ----

  lemma FilterDistinct<T(!new)>(keep: T -> bool, s: seq<T>)
    requires Distinct(s)
    ensures Distinct(Filter(keep, s))
  {
    DistinctByCounts(s);
    DistinctByCounts(Filter(keep, s));
    forall x ensures multiset(Filter(keep, s))[x] <= 1 {
      FilterCounts(keep, s, x);
    }
  }

  lemma DistinctIdsSeparate(collate: Collation, model: Model, events: seq<JourneyEvent>, kept: seq<JourneyEvent>)
    requires StrictTotal(collate) && DistinctIds(events) && forall e <- kept :: e in events
    ensures Separates(ModelOrder(collate, model), kept)
  {
  }

  lemma {:induction false} FilterThenSortPermutes(collate: Collation, model: Model, keep: JourneyEvent -> bool,
                                                  s: seq<JourneyEvent>, t: seq<JourneyEvent>)
    requires StrictTotal(collate) && DistinctIds(s) && multiset(s) == multiset(t)
    ensures Sort(ModelOrder(collate, model), Filter(keep, s)) == Sort(ModelOrder(collate, model), Filter(keep, t))
  {
    assert Distinct(s);
    FilterDistinct(keep, s);
    FilterPermutes(keep, s, t);
    ModelOrderWeak(collate, model);
    DistinctIdsSeparate(collate, model, s, Filter(keep, s));
    SortIgnoresInputOrder(ModelOrder(collate, model), Filter(keep, s), Filter(keep, t));
  }

  lemma {:induction false} ModelCreditsPermute(collate: Collation, journey: Journey, s: seq<JourneyEvent>,
                                               t: seq<JourneyEvent>,
                                               conversion: JourneyEvent, models: seq<Model>, calculatedAt: int)
    requires StrictTotal(collate) && DistinctIds(s) && multiset(s) == multiset(t)
    ensures ModelCredits(collate, journey, s, conversion, models, calculatedAt)
            == ModelCredits(collate, journey, t, conversion, models, calculatedAt)
    decreases |models|
  {
    if models != [] {
      ModelCreditsPermute(collate, journey, s, t, conversion, models[..|models| - 1], calculatedAt);
      FilterThenSortPermutes(collate, models[|models| - 1], e => Eligible(journey, conversion, e), s, t);
    }
  }

  lemma {:induction false} CreditsPermute(collate: Collation, journey: Journey, s: seq<JourneyEvent>,
                                          t: seq<JourneyEvent>,
                                          conversions: seq<JourneyEvent>, models: seq<Model>, calculatedAt: int)
    requires StrictTotal(collate) && DistinctIds(s) && multiset(s) == multiset(t)
    ensures Credits(collate, journey, s, conversions, models, calculatedAt)
            == Credits(collate, journey, t, conversions, models, calculatedAt)
    decreases |conversions|
  {
    if conversions != [] {
      CreditsPermute(collate, journey, s, t, conversions[..|conversions| - 1], models, calculatedAt);
      ModelCreditsPermute(collate, journey, s, t, conversions[|conversions| - 1], models, calculatedAt);
    }
  }

  /** Permuting the events of a journey changes neither the conversions nor any credit. */
  lemma AttributionIgnoresInputOrder(collate: Collation, journey: Journey, s: seq<JourneyEvent>, t: seq<JourneyEvent>,
                                     models: seq<Model>, platforms: set<string>, calculatedAt: int)
    requires StrictTotal(collate) && DistinctIds(s) && multiset(s) == multiset(t)
    ensures Conversions(collate, journey, s, platforms) == Conversions(collate, journey, t, platforms)
    ensures var cs := Conversions(collate, journey, s, platforms);
            Credits(collate, journey, s, cs, models, calculatedAt)
            == Credits(collate, journey, t, cs, models, calculatedAt)
  {
    FilterThenSortPermutes(collate, FirstTouch, e => Converts(journey, platforms, e), s, t);
    CreditsPermute(collate, journey, s, t, Conversions(collate, journey, s, platforms), models, calculatedAt);
  }

  // ---- one credit per conversion and model ----

  lemma {:induction false} ModelCreditsAt(collate: Collation, journey: Journey, events: seq<JourneyEvent>,
                                          conversion: JourneyEvent, models: seq<Model>, calculatedAt: int)
    requires IsConversion(conversion)
    ensures var cs := ModelCredits(collate, journey, events, conversion, models, calculatedAt);
            && |cs| == |models|
            && forall j :: 0 <= j < |cs| ==> cs[j].conversionId == conversion.id && cs[j].model == models[j]
    decreases |models|
  {
    if models != [] {
      ModelCreditsAt(collate, journey, events, conversion, models[..|models| - 1], calculatedAt);
      ConversionCreditNames(collate, journey, events, conversion, models[|models| - 1], calculatedAt);
    }
  }

  lemma ConversionCreditNames(collate: Collation, journey: Journey, events: seq<JourneyEvent>, conversion: JourneyEvent,
                              model: Model, calculatedAt: int)
    requires IsConversion(conversion)
    ensures var c := ConversionCredit(collate, journey, events, conversion, model, calculatedAt);
            c.Some? && c.value.conversionId == conversion.id && c.value.model == model
  {
  }

  predicate CreditsPair(c: Credit, conversionId: string, model: Model) {
    c.conversionId == conversionId && c.model == model
  }

  /** The credits that belong to one conversion and one model. */
  function CreditsOf(credits: seq<Credit>, conversionId: string, model: Model): seq<Credit> {
    Filter(c => CreditsPair(c, conversionId, model), credits)
  }

  lemma {:induction false} OneInModelCredits(cs: seq<Credit>, conversionId: string, models: seq<Model>, model: Model)
    requires Distinct(models) && |cs| == |models|
    requires forall j :: 0 <= j < |cs| ==> cs[j].conversionId == conversionId && cs[j].model == models[j]
    ensures |CreditsOf(cs, conversionId, model)| == if model in models then 1 else 0
    decreases |cs|
  {
    if cs != [] {
      var front, last := cs[..|cs| - 1], cs[|cs| - 1];
      assert cs == front + [last];
      OneInModelCredits(front, conversionId, models[..|models| - 1], model);
      FilterSnoc((c: Credit) => CreditsPair(c, conversionId, model), front, last);
      assert models == models[..|models| - 1] + [models[|models| - 1]];
    }
  }

  /**
   * With distinct conversion ids and distinct models there is exactly one credit for each pair, and none for any other.
   */
  lemma {:induction false} ExactlyOneCredit(collate: Collation, journey: Journey, events: seq<JourneyEvent>,
                                            conversions: seq<JourneyEvent>,
                                            models: seq<Model>, calculatedAt: int, conversionId: string, model: Model)
    requires DistinctIds(conversions) && Distinct(models) && forall c <- conversions :: IsConversion(c)
    ensures |CreditsOf(Credits(collate, journey, events, conversions, models, calculatedAt), conversionId, model)|
            == if model in models && (exists c :: c in conversions && c.id == conversionId) then 1 else 0
    decreases |conversions|
  {
    if conversions != [] {
      var front, last := conversions[..|conversions| - 1], conversions[|conversions| - 1];
      assert conversions == front + [last];
      var before := Credits(collate, journey, events, front, models, calculatedAt);
      var mine := ModelCredits(collate, journey, events, last, models, calculatedAt);
      ExactlyOneCredit(collate, journey, events, front, models, calculatedAt, conversionId, model);
      ModelCreditsAt(collate, journey, events, last, models, calculatedAt);
      FilterConcat((c: Credit) => CreditsPair(c, conversionId, model), before, mine);
      if last.id == conversionId {
        OneInModelCredits(mine, last.id, models, model);
      } else {
        FilterNone((c: Credit) => CreditsPair(c, conversionId, model), mine);
      }
    }
  }

  /** The conversions of a journey are its converting events, each once. */
  lemma ConversionsAreDistinct(collate: Collation, journey: Journey, events: seq<JourneyEvent>, platforms: set<string>)
    requires DistinctIds(events)
    ensures var cs := Conversions(collate, journey, events, platforms);
            && DistinctIds(cs)
            && forall c :: c in cs <==> c in events && Converts(journey, platforms, c)
  {
    var keep := (x: JourneyEvent) => Converts(journey, platforms, x);
    var cs := Conversions(collate, journey, events, platforms);
    SortElements(ModelOrder(collate, FirstTouch), Filter(keep, events));
    assert Distinct(events);
    FilterDistinct(keep, events);
    DistinctByCounts(Filter(keep, events));
    DistinctByCounts(cs);
    forall i, j | 0 <= i < j < |cs| ensures cs[i].id != cs[j].id {
      assert cs[i] in cs && cs[j] in cs && cs[i] != cs[j];
    }
  }

  lemma SameIdSameEvent(events: seq<JourneyEvent>, a: JourneyEvent, b: JourneyEvent)
    requires DistinctIds(events) && a in events && b in events && a.id == b.id
    ensures a == b
  {
  }

  /** For a whole journey: one credit for every in-scope conversion and requested model. */
  lemma {:induction false} JourneyHasOneCreditEach(collate: Collation, journey: Journey, events: seq<JourneyEvent>,
                                                   models: seq<Model>, platforms: set<string>,
                                calculatedAt: int, e: JourneyEvent, model: Model)
    requires DistinctIds(events) && Distinct(models) && e in events && model in models
    ensures var credits := Credits(collate, journey, events, Conversions(collate, journey, events, platforms), models,
                                   calculatedAt);
            |CreditsOf(credits, e.id, model)| == if Converts(journey, platforms, e) then 1 else 0
  {
    var cs := Conversions(collate, journey, events, platforms);
    ConversionsAreDistinct(collate, journey, events, platforms);
    ExactlyOneCredit(collate, journey, events, cs, models, calculatedAt, e.id, model);
    if c :| c in cs && c.id == e.id {
      SameIdSameEvent(events, c, e);
    }
  }
}
