/** Which event a credit may name, stated for the credits of a whole journey in terms of the events alone. */
module AttributionRules {
  import opened Prelude
  import opened Ordering
  import opened Seqs
  import opened Attribution

  const TOUCHPOINT_TYPES := {
    "click", "lead_created", "checkout_started", "email_click", "landing_page", "session_start", "page_view", "sms",
    "call"}
  const VIEW_TYPES := {"landing_page", "session_start", "page_view"}
  const CONVERTING_TYPES := {"purchase", "upsell", "subscription_started", "subscription_renewed"}

  /** Days that are set, and positive. */
  predicate Set(days: Option<real>) { days.Some? && days.value > 0.0 }

  /** The days of a channel that its kind of event goes by. */
  function OwnDays(journey: Journey, e: JourneyEvent, channel: string): Option<real> {
    if channel !in journey.windows.channels then None
    else if e.eventType in VIEW_TYPES then journey.windows.channels[channel].viewDays
    else journey.windows.channels[channel].clickDays
  }

  function DefaultDays(journey: Journey, e: JourneyEvent): Option<real> {
    if e.eventType in VIEW_TYPES then journey.windows.viewDays else journey.windows.clickDays
  }

  /** The window of a touchpoint: its channel's, else the journey's, else one day for a view and thirty for a click. */
  ghost predicate WindowIs(journey: Journey, e: JourneyEvent, days: real) {
    var own := OwnDays(journey, e, Channel(e));
    && (Set(own) ==> days == own.value)
    && (!Set(own) && Set(DefaultDays(journey, e)) ==> days == DefaultDays(journey, e).value)
    && (!Set(own) && !Set(DefaultDays(journey, e)) ==> days == if e.eventType in VIEW_TYPES then 1.0 else 30.0)
  }

  ghost predicate OfJourney(journey: Journey, e: JourneyEvent) {
    e.workspaceId == journey.workspaceId && e.journeyId == journey.id && e.personId == journey.personId
  }

  /** The event says where it came from. */
  ghost predicate HasOrigin(e: JourneyEvent) {
    !(e.affiliateId == "" && e.campaignId == "" && e.source == "" && e.medium == "" && e.offerId == ""
      && e.touchpointId == "" && e.transactionId == "")
  }

  /** A touchpoint of the journey, other than the conversion, not after it and at most its window before it. */
  ghost predicate MayCredit(journey: Journey, conversion: JourneyEvent, e: JourneyEvent) {
    && e.id != conversion.id && OfJourney(journey, e)
    && e.eventType in TOUCHPOINT_TYPES && HasOrigin(e)
    && e.time <= conversion.time
    && exists days :: WindowIs(journey, e, days) && (conversion.time - e.time) as real <= days * 86400000.0
  }

  /** What the credit says of the event that it names. */
  ghost predicate CreditsEvent(c: Credit, journey: Journey, conversion: JourneyEvent, e: JourneyEvent) {
    && c.touchpointId == Some(e.id) && c.touchpointTime == Some(e.time)
    && c.channel == Some(Channel(e)) && c.source == e.source && c.medium == e.medium && c.campaignId == e.campaignId
    && c.affiliateId == e.affiliateId && c.offerId == e.offerId
    && (exists days :: WindowIs(journey, e, days) && c.metadata.windowDays == Some(days))
    && c.metadata.touchpointType == Some(e.eventType)
    && c.amount == (if conversion.amount.None? then None else Some(Decimal.MicrosToDecimal(conversion.amount.value)))
  }

  ghost predicate CreditsNothing(c: Credit) {
    && c.touchpointId == None && c.touchpointTime == None && c.amount == None && c.channel == None
    && c.source == c.medium == c.campaignId == c.affiliateId == c.offerId == ""
    && c.metadata.windowDays == None && c.metadata.touchpointType == None
  }

  /** What every credit says of its conversion. */
  ghost predicate CreditsConversion(c: Credit, journey: Journey, conversion: JourneyEvent) {
    && c.workspaceId == journey.workspaceId && c.journeyId == journey.id && c.personId == journey.personId
    && c.conversionId == conversion.id && c.conversionTime == conversion.time && c.currency == conversion.currency
    && c.metadata.conversionType == conversion.eventType
    && c.modelVersion == "v1" && c.eligibilityVersion == "touchpoint_eligibility_v1"
  }

  lemma WindowIsDays(journey: Journey, e: JourneyEvent, days: real)
    requires e.eventType in TOUCHPOINT_TYPES && HasOrigin(e)
    ensures WindowIs(journey, e, days) <==> days == WindowDays(e, journey)
  {
  }

  lemma {:induction false} EligibleExactlyWhen(journey: Journey, conversion: JourneyEvent, e: JourneyEvent)
    requires OfJourney(journey, conversion)
    ensures Eligible(journey, conversion, e) <==> MayCredit(journey, conversion, e)
  {
    if IsTouchpoint(e) {
      WindowIsDays(journey, e, WindowDays(e, journey));
      assert WindowIs(journey, e, WindowDays(e, journey));
      if MayCredit(journey, conversion, e) {
        var days :| WindowIs(journey, e, days) && (conversion.time - e.time) as real <= days * 86400000.0;
        WindowIsDays(journey, e, days);
      }
    }
  }

  // ---- where a credit comes from ----

  lemma {:induction false} ModelCreditIsBuilt(
    collate: Collation, journey: Journey, events: seq<JourneyEvent>, conversion: JourneyEvent, models: seq<Model>,
    calculatedAt: int, c: Credit)
    requires c in ModelCredits(collate, journey, events, conversion, models, calculatedAt)
    ensures IsConversion(conversion) && c.model in models
    ensures c == BuildCredit(journey, conversion, Winner(collate, journey, events, conversion, c.model), c.model,
                             calculatedAt)
    decreases |models|
  {
    var front, last := models[..|models| - 1], models[|models| - 1];
    if c in ModelCredits(collate, journey, events, conversion, front, calculatedAt) {
      ModelCreditIsBuilt(collate, journey, events, conversion, front, calculatedAt, c);
    }
  }

  lemma {:induction false} CreditIsBuilt(
    collate: Collation, journey: Journey, events: seq<JourneyEvent>, conversions: seq<JourneyEvent>,
    models: seq<Model>, calculatedAt: int, c: Credit) returns (conversion: JourneyEvent)
    requires c in Credits(collate, journey, events, conversions, models, calculatedAt)
    ensures conversion in conversions && IsConversion(conversion) && c.model in models
    ensures c == BuildCredit(journey, conversion, Winner(collate, journey, events, conversion, c.model), c.model,
                             calculatedAt)
    decreases |conversions|
  {
    var front, last := conversions[..|conversions| - 1], conversions[|conversions| - 1];
    if c in Credits(collate, journey, events, front, models, calculatedAt) {
      conversion := CreditIsBuilt(collate, journey, events, front, models, calculatedAt, c);
    } else {
      ModelCreditIsBuilt(collate, journey, events, last, models, calculatedAt, c);
      conversion := last;
    }
  }

  /** The event to credit: the earliest that may be credited for first touch, the latest for last touch, ties by id. */
  ghost predicate IsWinner(
    collate: Collation, journey: Journey, events: seq<JourneyEvent>, conversion: JourneyEvent, model: Model,
    e: JourneyEvent) {
    && e in events && MayCredit(journey, conversion, e)
    && forall other <- events :: MayCredit(journey, conversion, other) ==>
         (if model.FirstTouch? then e.time < other.time || (e.time == other.time && !collate(other.id, e.id))
          else other.time < e.time || (other.time == e.time && !collate(e.id, other.id)))
  }

  lemma {:induction false} BuiltCredit(
    collate: Collation, journey: Journey, events: seq<JourneyEvent>, conversion: JourneyEvent, model: Model,
    calculatedAt: int)
    requires StrictTotal(collate) && OfJourney(journey, conversion)
    ensures var winner := Winner(collate, journey, events, conversion, model);
            var c := BuildCredit(journey, conversion, winner, model, calculatedAt);
            && CreditsConversion(c, journey, conversion) && c.model == model && c.calculatedAt == calculatedAt
            && (c.attributed ==> winner.Some? && IsWinner(collate, journey, events, conversion, model, winner.value)
                                 && CreditsEvent(c, journey, conversion, winner.value))
            && (!c.attributed ==> CreditsNothing(c) && forall e <- events :: !MayCredit(journey, conversion, e))
  {
    WinnerIsExtreme(collate, journey, events, conversion, model);
    forall e | e in events ensures Eligible(journey, conversion, e) <==> MayCredit(journey, conversion, e) {
      EligibleExactlyWhen(journey, conversion, e);
    }
    var winner := Winner(collate, journey, events, conversion, model);
    if winner.Some? {
      WindowIsDays(journey, winner.value, WindowDays(winner.value, journey));
      assert WindowIs(journey, winner.value, WindowDays(winner.value, journey));
    }
  }

  /**
   * Every credit of a journey is for a converting event of it. It is attributed exactly when some event may be
   * credited, and then it names the first or the last such event, as its model asks, and carries its values.
   */
  lemma {:induction false} CreditsFollowRules(
    collate: Collation, journey: Journey, events: seq<JourneyEvent>, models: seq<Model>, platforms: set<string>,
    calculatedAt: int, c: Credit)
    requires StrictTotal(collate)
    requires c in Credits(collate, journey, events, Conversions(collate, journey, events, platforms), models,
                          calculatedAt)
    ensures exists conversion ::
              && conversion in events && conversion.eventType in CONVERTING_TYPES && OfJourney(journey, conversion)
              && (platforms == {} || conversion.platform in platforms) && CreditsConversion(c, journey, conversion)
              && c.model in models && c.calculatedAt == calculatedAt
              && (c.attributed ==> exists e ::
                    IsWinner(collate, journey, events, conversion, c.model, e)
                    && CreditsEvent(c, journey, conversion, e))
              && (!c.attributed ==> CreditsNothing(c) && forall e <- events :: !MayCredit(journey, conversion, e))
  {
    var conversions := Conversions(collate, journey, events, platforms);
    var conversion := CreditIsBuilt(collate, journey, events, conversions, models, calculatedAt, c);
    SortElements(ModelOrder(collate, FirstTouch), Filter(e => Converts(journey, platforms, e), events));
    assert Converts(journey, platforms, conversion);
    BuiltCredit(collate, journey, events, conversion, c.model, calculatedAt);
  }

  lemma {:induction false} ModelIsCredited(
    collate: Collation, journey: Journey, events: seq<JourneyEvent>, conversion: JourneyEvent, models: seq<Model>,
    calculatedAt: int, model: Model)
    requires model in models && conversion.eventType in CONVERTING_TYPES
    ensures exists c :: c in ModelCredits(collate, journey, events, conversion, models, calculatedAt)
                        && c.conversionId == conversion.id && c.model == model
    decreases |models|
  {
    var front, last := models[..|models| - 1], models[|models| - 1];
    assert models == front + [last];
    if model in front {
      ModelIsCredited(collate, journey, events, conversion, front, calculatedAt, model);
    } else {
      var c := ConversionCredit(collate, journey, events, conversion, last, calculatedAt).value;
      assert c in ModelCredits(collate, journey, events, conversion, models, calculatedAt);
    }
  }

  lemma {:induction false} ConversionIsCredited(
    collate: Collation, journey: Journey, events: seq<JourneyEvent>, conversions: seq<JourneyEvent>,
    models: seq<Model>, calculatedAt: int, conversion: JourneyEvent, model: Model)
    requires conversion in conversions && model in models && conversion.eventType in CONVERTING_TYPES
    ensures exists c :: c in Credits(collate, journey, events, conversions, models, calculatedAt)
                        && c.conversionId == conversion.id && c.model == model
    decreases |conversions|
  {
    var front, last := conversions[..|conversions| - 1], conversions[|conversions| - 1];
    assert conversions == front + [last];
    if conversion in front {
      ConversionIsCredited(collate, journey, events, front, models, calculatedAt, conversion, model);
    } else {
      ModelIsCredited(collate, journey, events, conversion, models, calculatedAt, model);
    }
  }

  /** Every converting event of the journey and of a requested platform has a credit under every requested model. */
  lemma EveryConversionIsCredited(
    collate: Collation, journey: Journey, events: seq<JourneyEvent>, models: seq<Model>, platforms: set<string>,
    calculatedAt: int, conversion: JourneyEvent, model: Model)
    requires conversion in events && conversion.eventType in CONVERTING_TYPES && OfJourney(journey, conversion)
    requires (platforms == {} || conversion.platform in platforms) && model in models
    ensures exists c ::
              && c in Credits(collate, journey, events, Conversions(collate, journey, events, platforms), models,
                              calculatedAt)
              && c.conversionId == conversion.id && c.model == model
  {
    var keep := (e: JourneyEvent) => Converts(journey, platforms, e);
    SortElements(ModelOrder(collate, FirstTouch), Filter(keep, events));
    assert keep(conversion) && conversion in Filter(keep, events);
    ConversionIsCredited(collate, journey, events, Conversions(collate, journey, events, platforms), models,
                         calculatedAt, conversion, model);
  }

  // ---- channels ----

  /** The source or the medium holds the word somewhere. */
  ghost predicate Mentions(e: JourneyEvent, word: string) {
    (exists a, b :: e.source == a + word + b) || (exists a, b :: e.medium == a + word + b)
  }

  lemma IncludesExactlyWhen(s: string, part: string)
    ensures Includes(s, part) <==> exists a, b :: s == a + part + b
  {
    if Includes(s, part) {
      var i :| 0 <= i <= |s| && OccursAt(s, part, i);
      assert s == s[..i] + part + s[i + |part|..];
    }
    if a, b :| s == a + part + b {
      assert OccursAt(s, part, |a|);
    }
  }

  ghost predicate ByMessage(e: JourneyEvent, eventType: string, word: string) {
    e.eventType == eventType || Mentions(e, word)
  }

  /** Email before text messages before calls, these before affiliates, and the medium only after them. */
  lemma {:induction false} ChannelExactlyWhen(e: JourneyEvent)
    ensures var email, sms, call := ByMessage(e, "email_click", "email"), ByMessage(e, "sms", "sms"),
            ByMessage(e, "call", "call");
            var partner := e.affiliateId != "" || e.offerId != "";
            && (email ==> Channel(e) == "email")
            && (!email && sms ==> Channel(e) == "sms")
            && (!email && !sms && call ==> Channel(e) == "call")
            && (!email && !sms && !call && partner ==> Channel(e) == "affiliate")
            && (!email && !sms && !call && !partner ==>
                  Channel(e) == if e.medium == "cpc" || e.medium == "ppc" || e.medium == "paid_search"
                  || e.medium == "sem"
                                then "paid_search"
                                else if e.medium == "paid_social" || e.medium == "social_paid" then "paid_social"
                                else if e.medium == "organic" || e.medium == "organic_search" then "organic_search"
                                else if e.medium == "referral" then "referral"
                                else if e.medium == "direct" || e.source == "direct" then "direct"
                                else "other")
  {
    IncludesExactlyWhen(e.source, "email");
    IncludesExactlyWhen(e.medium, "email");
    IncludesExactlyWhen(e.source, "sms");
    IncludesExactlyWhen(e.medium, "sms");
    IncludesExactlyWhen(e.source, "call");
    IncludesExactlyWhen(e.medium, "call");
  }
}
