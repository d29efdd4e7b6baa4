/**
 * Attribution and its store together: the credits of a journey always reach the table, one for each conversion and
 * model, and a second run over the same journey is idle.
 */
module JourneyCredits {
  import opened Seqs
  import opened Attribution
  import opened CreditStore
  import opened CreditStoreLaws

  /** What one recalculation computes from. Events come from the database, so their ids are uuids. */
  datatype Input = Input(collate: Collation, journey: Journey, events: seq<JourneyEvent>, platforms: set<string>,
                         models: seq<Model>)

  ghost predicate FromDatabase(input: Input) {
    DistinctIds(input.events) && forall e <- input.events :: IsUuid(e.id)
  }

  /** The models of a request, each once, as a `Set` keeps them. */
  function Requested(input: Input): seq<Model> { Firsts(input.models) }

  function ConversionsOf(input: Input): seq<JourneyEvent> {
    Conversions(input.collate, input.journey, input.events, input.platforms)
  }

  function CreditsOfJourney(input: Input, calculatedAt: int): seq<Credit> {
    Credits(input.collate, input.journey, input.events, ConversionsOf(input), Requested(input), calculatedAt)
  }

  /** A credit of this journey for one of these conversions and models. */
  predicate Belongs(c: Credit, journey: Journey, conversions: seq<JourneyEvent>, models: seq<Model>) {
    && c.workspaceId == journey.workspaceId && c.modelVersion == MODEL_VERSION && c.model in models
    && exists i :: 0 <= i < |conversions| && conversions[i].id == c.conversionId
  }

  lemma {:induction false} ModelCreditsBelong(input: Input, conversion: JourneyEvent, models: seq<Model>,
                                              calculatedAt: int)
    ensures forall c <- ModelCredits(input.collate, input.journey, input.events, conversion, models, calculatedAt) ::
              c.workspaceId == input.journey.workspaceId && c.modelVersion == MODEL_VERSION && c.model in models
              && c.conversionId == conversion.id
    decreases |models|
  {
    if models != [] {
      ModelCreditsBelong(input, conversion, models[..|models| - 1], calculatedAt);
    }
  }

  lemma {:induction false} CreditsBelong(input: Input, conversions: seq<JourneyEvent>, calculatedAt: int)
    ensures forall c | c in Credits(
              input.collate, input.journey, input.events, conversions, Requested(input), calculatedAt) ::
              Belongs(c, input.journey, conversions, Requested(input))
    decreases |conversions|
  {
    if conversions != [] {
      var front, last := conversions[..|conversions| - 1], conversions[|conversions| - 1];
      CreditsBelong(input, front, calculatedAt);
      ModelCreditsBelong(input, last, Requested(input), calculatedAt);
      forall c | Belongs(c, input.journey, front, Requested(input))
        ensures Belongs(c, input.journey, conversions, Requested(input)) {
        var i :| 0 <= i < |front| && front[i].id == c.conversionId;
        assert conversions[i] == front[i];
      }
      assert conversions[|front|].id == last.id;
    }
  }

  lemma UuidHasNoBar(s: string)
    requires IsUuid(s)
    ensures NoBar(s)
  {
  }

  /** Uuids keep the joined keys apart, so the hypothesis of the store's theorems always holds. */
  lemma UuidsAreUnambiguous(credits: seq<Credit>)
    requires forall c <- credits :: IsUuid(c.conversionId) && c.modelVersion == MODEL_VERSION
    ensures Unambiguous(credits)
  {
    forall c | c in credits ensures NoBar(c.conversionId) && NoBar(c.modelVersion) {
      UuidHasNoBar(c.conversionId);
    }
    BarFreeIsUnambiguous(credits);
  }

  lemma BelongingIsUuid(c: Credit, journey: Journey, conversions: seq<JourneyEvent>, models: seq<Model>)
    requires Belongs(c, journey, conversions, models) && forall e <- conversions :: IsUuid(e.id)
    ensures IsUuid(c.conversionId) && c.modelVersion == MODEL_VERSION
  {
    var i :| 0 <= i < |conversions| && conversions[i].id == c.conversionId;
    assert conversions[i] in conversions;
  }

  lemma ConversionsAreUuids(input: Input)
    requires FromDatabase(input)
    ensures forall e <- ConversionsOf(input) :: IsUuid(e.id)
  {
    ConversionsAreDistinct(input.collate, input.journey, input.events, input.platforms);
  }

  lemma JourneyCreditsAreUuids(input: Input, calculatedAt: int)
    requires FromDatabase(input)
    ensures forall c <- CreditsOfJourney(input, calculatedAt) ::
              IsUuid(c.conversionId) && c.modelVersion == MODEL_VERSION
  {
    CreditsBelong(input, ConversionsOf(input), calculatedAt);
    ConversionsAreUuids(input);
    forall c | c in CreditsOfJourney(input, calculatedAt)
      ensures IsUuid(c.conversionId) && c.modelVersion == MODEL_VERSION {
      BelongingIsUuid(c, input.journey, ConversionsOf(input), Requested(input));
    }
  }

  /** Under each id a journey has at most one credit. */
  lemma OneCreditPerId(input: Input, calculatedAt: int, c: Credit)
    requires FromDatabase(input) && c in CreditsOfJourney(input, calculatedAt)
    ensures |Siblings(CreditsOfJourney(input, calculatedAt), c)| == 1
  {
    var conversions, credits := ConversionsOf(input), CreditsOfJourney(input, calculatedAt);
    CreditsBelong(input, conversions, calculatedAt);
    ConversionsAreDistinct(input.collate, input.journey, input.events, input.platforms);
    forall x | x in conversions ensures IsConversion(x) {
    }
    ExactlyOneCredit(input.collate, input.journey, input.events, conversions, Requested(input), calculatedAt,
                     c.conversionId, c.model);
    SameFilter(input, calculatedAt, c);
    SiblingsInhabited(credits, c);
  }

  lemma SameFilter(input: Input, calculatedAt: int, c: Credit)
    requires c in CreditsOfJourney(input, calculatedAt)
    ensures var credits := CreditsOfJourney(input, calculatedAt);
            Siblings(credits, c) == CreditsOf(credits, c.conversionId, c.model)
  {
    var credits := CreditsOfJourney(input, calculatedAt);
    CreditsBelong(input, ConversionsOf(input), calculatedAt);
    FilterAgree(HasKey(GROUP_ID, IdOf(c)), (x: Credit) => CreditsPair(x, c.conversionId, c.model), credits);
  }

  /** The credits of a journey differ in more than the time of their calculation. */
  lemma JourneyCreditsDiffer(input: Input, calculatedAt: int)
    requires FromDatabase(input)
    ensures DistinctCreditKeys(CreditsOfJourney(input, calculatedAt))
  {
    var credits := CreditsOfJourney(input, calculatedAt);
    forall i, j | 0 <= i < j < |credits| ensures CreditKey(credits[i]) != CreditKey(credits[j]) {
      if IdOf(credits[i]) == IdOf(credits[j]) {
        OneCreditPerId(input, calculatedAt, credits[i]);
        TwoPass(HasKey(GROUP_ID, IdOf(credits[i])), credits, i, j);
      }
      assert IdOf(CreditKey(credits[i])) == IdOf(credits[i]) && IdOf(CreditKey(credits[j])) == IdOf(credits[j]);
    }
  }

  lemma {:induction false} TwoPass(keep: Credit -> bool, s: seq<Credit>, i: nat, j: nat)
    requires i < j < |s| && keep(s[i]) && keep(s[j])
    ensures |Filter(keep, s)| >= 2
    decreases |s|
  {
    var front, last := s[..|s| - 1], s[|s| - 1];
    if j < |s| - 1 {
      TwoPass(keep, front, i, j);
    } else {
      assert front[i] in Filter(keep, front);
    }
  }

  lemma SiblingsAreOne(input: Input, calculatedAt: int, c: Credit)
    requires FromDatabase(input) && c in CreditsOfJourney(input, calculatedAt)
    ensures Siblings(CreditsOfJourney(input, calculatedAt), c) == [c]
  {
    OneCreditPerId(input, calculatedAt, c);
    assert c in Siblings(CreditsOfJourney(input, calculatedAt), c);
  }

  lemma JourneyUnambiguous(input: Input, calculatedAt: int)
    requires FromDatabase(input)
    ensures Unambiguous(CreditsOfJourney(input, calculatedAt))
  {
    JourneyCreditsAreUuids(input, calculatedAt);
    UuidsAreUnambiguous(CreditsOfJourney(input, calculatedAt));
  }

  /** Persisting the credits of a journey never fails. */
  lemma JourneySucceeds(table: seq<Credit>, input: Input, calculatedAt: int, force: bool)
    requires FromDatabase(input)
    ensures !PersistAll(table, CreditsOfJourney(input, calculatedAt), force).failed
  {
    var credits := CreditsOfJourney(input, calculatedAt);
    JourneyUnambiguous(input, calculatedAt);
    JourneyCreditsAreUuids(input, calculatedAt);
    forall c | c in credits ensures Siblings(credits, c) != [] && Accepted(table, Siblings(credits, c), force) {
      SiblingsAreOne(input, calculatedAt, c);
    }
    PersistSucceedsExactlyWhen(table, credits, force);
  }

  /** Afterwards each id of the journey has its one credit, or the equivalent row it had before. */
  lemma JourneyLeaves(table: seq<Credit>, input: Input, calculatedAt: int, force: bool, c: Credit)
    requires FromDatabase(input) && c in CreditsOfJourney(input, calculatedAt)
    ensures RowsOf(PersistAll(table, CreditsOfJourney(input, calculatedAt), force).table, IdOf(c))
            == Settled(RowsOf(table, IdOf(c)), [c], force)
  {
    JourneyUnambiguous(input, calculatedAt);
    JourneySucceeds(table, input, calculatedAt, force);
    SiblingsAreOne(input, calculatedAt, c);
    PersistLeavesExactly(table, CreditsOfJourney(input, calculatedAt), force, IdOf(c));
  }

  // ---- calculating again, later ----

  function AT(time: int): Credit -> Credit { (c: Credit) => c.(calculatedAt := time) }

  lemma OneCreditLater(input: Input, conversion: JourneyEvent, model: Model, now: int, later: int)
    ensures Listed(ConversionCredit(input.collate, input.journey, input.events, conversion, model, later))
            == Map(AT(later),
                   Listed(ConversionCredit(input.collate, input.journey, input.events, conversion, model, now)))
  {
  }

  lemma {:induction false} ModelCreditsLater(input: Input, conversion: JourneyEvent, models: seq<Model>, now: int,
                                             later: int)
    ensures ModelCredits(input.collate, input.journey, input.events, conversion, models, later)
            == Map(AT(later), ModelCredits(input.collate, input.journey, input.events, conversion, models, now))
    decreases |models|
  {
    if models != [] {
      var front, model := models[..|models| - 1], models[|models| - 1];
      ModelCreditsLater(input, conversion, front, now, later);
      OneCreditLater(input, conversion, model, now, later);
      MapConcat(AT(later), ModelCredits(input.collate, input.journey, input.events, conversion, front, now),
                Listed(ConversionCredit(input.collate, input.journey, input.events, conversion, model, now)));
    }
  }

  lemma {:induction false} CreditsLater(input: Input, conversions: seq<JourneyEvent>, now: int, later: int)
    ensures Credits(input.collate, input.journey, input.events, conversions, Requested(input), later)
            == Map(AT(later), Credits(input.collate, input.journey, input.events, conversions, Requested(input), now))
    decreases |conversions|
  {
    if conversions != [] {
      var front, last := conversions[..|conversions| - 1], conversions[|conversions| - 1];
      CreditsLater(input, front, now, later);
      ModelCreditsLater(input, last, Requested(input), now, later);
      MapConcat(AT(later), Credits(input.collate, input.journey, input.events, front, Requested(input), now),
                ModelCredits(input.collate, input.journey, input.events, last, Requested(input), now));
    }
  }

  /** Every credit calculated later is one calculated before, but for its time. */
  lemma SameButForTime(input: Input, now: int, later: int, c: Credit) returns (was: Credit)
    requires c in CreditsOfJourney(input, later)
    ensures was in CreditsOfJourney(input, now) && CreditKey(was) == CreditKey(c) && IdOf(was) == IdOf(c)
  {
    CreditsLater(input, ConversionsOf(input), now, later);
    var i :| 0 <= i < |CreditsOfJourney(input, later)| && CreditsOfJourney(input, later)[i] == c;
    was := CreditsOfJourney(input, now)[i];
  }

  lemma StoredIsCurrent(rows: seq<Credit>, was: Credit, c: Credit, force: bool)
    requires CreditKey(was) == CreditKey(c)
    ensures Equivalent(Settled(rows, [was], force), [c])
  {
    assert was in [was];
  }

  /** Recalculating an unchanged journey at any later time writes nothing and finds every credit current. */
  lemma RecalculationIsIdle(table: seq<Credit>, input: Input, now: int, later: int, force: bool)
    requires FromDatabase(input)
    ensures var first := PersistAll(table, CreditsOfJourney(input, now), force).table;
            Idle(PersistAll(first, CreditsOfJourney(input, later), false), first, CreditsOfJourney(input, later))
  {
    var first, again := PersistAll(table, CreditsOfJourney(input, now), force).table, CreditsOfJourney(input, later);
    JourneyUnambiguous(input, later);
    JourneyCreditsAreUuids(input, later);
    GroupsAreSeparate(again);
    var gs: seq<seq<Credit>> := GroupsOf(again);
    forall i: nat | i < |gs| ensures IsUuid(gs[i][0].conversionId) && Equivalent(RowsOf(first, IdOf(gs[i][0])), gs[i]) {
      GroupIsSiblings(again, i);
      SiblingsAreOne(input, later, gs[i][0]);
      var was := SameButForTime(input, now, later, gs[i][0]);
      JourneyLeaves(table, input, now, force, was);
      StoredIsCurrent(RowsOf(table, IdOf(was)), was, gs[i][0], force);
    }
    AllCurrent(first, gs);
    AllCollected(again);
  }
}
