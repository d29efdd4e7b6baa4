/**
 * Aggregating the attribution evidence of a journey within fixed caps. The method keeps capped maps
 * and flags while it reads the events once; the reference states the same result over the uncapped lists.
 */
module Evidence {
  import opened Prelude
  import opened Ordering
  import opened Seqs

  const MAX_IDENTIFIERS := 100
  const MAX_DISTINCT_VALUES := 20
  const MAX_ORIGINS := 20
  const MAX_FLAGS := 20

  /** Texts are trimmed and "" is a missing text. */
  datatype Observation = Observation(
    rawParam: string, provider: string, category: string, identifierType: string, value: string, location: string)

  /** The schema version as a strict 1, as something that only converts to 1, or as anything else. */
  datatype Schema = StrictOne | ConvertsToOne | OtherSchema

  /** `origin` is the parsed origin of the referrer's origin, or of its client when it has none. */
  datatype Referrer = Referrer(missing: bool, client: string, origin: Option<string>)

  datatype EvidenceV1 = EvidenceV1(schema: Schema, identifiers: seq<Observation>, marketing: seq<Observation>,
                                   referrer: Referrer)

  datatype Event = Event(id: string, time: int, evidence: Option<EvidenceV1>, pageOrigin: Option<string>)

  // ---- what an event contributes ----

  datatype IdKey = IdKey(rawParam: string, provider: string, category: string, identifierType: string)

  datatype Item = Item(key: IdKey, at: int, value: string, location: Option<string>, eventId: string)

  datatype ProviderKey = ProviderKey(provider: string, category: string)

  datatype Sighting = Sighting(key: ProviderKey, at: int, eventId: string)

  function OrUnknown(s: string): string { if s == "" then "unknown" else s }

  function Present(s: string): Option<string> { if s == "" then None else Some(s) }

  predicate Counts(e: Event) { e.evidence.Some? && !e.evidence.value.schema.OtherSchema? }

  predicate Named(o: Observation) { o.rawParam != "" && o.value != "" }

  function ItemOf(e: Event, o: Observation): Item {
    Item(IdKey(o.rawParam, OrUnknown(o.provider), OrUnknown(o.category), OrUnknown(o.identifierType)), e.time, o.value,
         Present(o.location), e.id)
  }

  function SightingOf(e: Event, o: Observation): Sighting {
    Sighting(ProviderKey(OrUnknown(o.provider), OrUnknown(o.category)), e.time, e.id)
  }

  function EventItems(e: Event): seq<Item> {
    if !Counts(e) then [] else NamedItems(e, e.evidence.value.identifiers)
  }

  function NamedItems(e: Event, observations: seq<Observation>): seq<Item> {
    if observations == [] then [] else
      var front, last := observations[..|observations| - 1], observations[|observations| - 1];
      NamedItems(e, front) + if Named(last) then [ItemOf(e, last)] else []
  }

  function EventSightings(e: Event): seq<Sighting> {
    if !Counts(e) then []
    else Map((o: Observation) => SightingOf(e, o), e.evidence.value.identifiers + e.evidence.value.marketing)
  }

  function EventClients(e: Event): seq<string> {
    if !Counts(e) || e.evidence.value.referrer.client == "" then [] else [e.evidence.value.referrer.client]
  }

  /** The referrer's origin unless it is the page's own. */
  function EventOrigins(e: Event): seq<string> {
    if !Counts(e) || e.evidence.value.referrer.origin.None? || e.pageOrigin == e.evidence.value.referrer.origin then []
    else [e.evidence.value.referrer.origin.value]
  }

  predicate EventMissing(e: Event) { Counts(e) && e.evidence.value.referrer.missing }

  function Items(events: seq<Event>): seq<Item> {
    if events == [] then [] else Items(events[..|events| - 1]) + EventItems(events[|events| - 1])
  }

  function Sightings(events: seq<Event>): seq<Sighting> {
    if events == [] then [] else Sightings(events[..|events| - 1]) + EventSightings(events[|events| - 1])
  }

  function Clients(events: seq<Event>): seq<string> {
    if events == [] then [] else Clients(events[..|events| - 1]) + EventClients(events[|events| - 1])
  }

  function Origins(events: seq<Event>): seq<string> {
    if events == [] then [] else Origins(events[..|events| - 1]) + EventOrigins(events[|events| - 1])
  }

  // ---- the uncapped reference ----

  function Take<T>(s: seq<T>, n: nat): seq<T> { s[..Min(n, |s|)] }

  const ITEM_KEY: Item -> IdKey := (i: Item) => i.key
  const ITEM_VALUE: Item -> string := (i: Item) => i.value
  const SIGHTING_KEY: Sighting -> ProviderKey := (s: Sighting) => s.key

  function IdKeys(items: seq<Item>): seq<IdKey> { Firsts(Map(ITEM_KEY, items)) }

  function ItemsOf(items: seq<Item>, k: IdKey): seq<Item> { Group(ITEM_KEY, k, items) }

  function Values(mine: seq<Item>): seq<string> { Firsts(Map(ITEM_VALUE, mine)) }

  function ProviderKeys(sightings: seq<Sighting>): seq<ProviderKey> { Firsts(Map(SIGHTING_KEY, sightings)) }

  function SightingsOf(sightings: seq<Sighting>, k: ProviderKey): seq<Sighting> { Group(SIGHTING_KEY, k, sightings) }

  datatype IdRow = IdRow(
    key: IdKey, firstSeen: int, lastSeen: int, firstValue: string, latestValue: string, distinctValues: nat,
    changed: bool,
    firstLocation: Option<string>, latestLocation: Option<string>, eventCount: nat)

  datatype ProviderRow = ProviderRow(key: ProviderKey, firstSeen: int, lastSeen: int, eventCount: nat)

  datatype Truncation = Truncation(identifiers: bool, distinctValues: bool, origins: bool, flags: bool, events: bool)

  datatype Summary = Summary(
    providers: seq<ProviderRow>,
    identifiers: seq<IdRow>,
    firstClient: Option<string>, latestClient: Option<string>,
    firstOrigin: Option<string>, latestOrigin: Option<string>,
    origins: seq<string>, missing: bool, originChanged: bool,
    flags: set<string>,
    evidenceEvents: nat,
    truncation: Truncation)

  function EventIds(mine: seq<Item>): set<string> { set i | i in mine :: i.eventId }

  function SightingIds(mine: seq<Sighting>): set<string> { set s | s in mine :: s.eventId }

  /** The row of a key, from everything ever observed under it. */
  function RefIdRow(k: IdKey, mine: seq<Item>): IdRow
    requires mine != []
  {
    var first, last := mine[0], mine[|mine| - 1];
    IdRow(k, first.at, last.at, first.value, last.value, Min(MAX_DISTINCT_VALUES, |Values(mine)|), |Values(mine)| > 1,
          first.location, last.location, |EventIds(mine)|)
  }

  function RefProviderRow(k: ProviderKey, mine: seq<Sighting>): ProviderRow
    requires mine != []
  {
    ProviderRow(k, mine[0].at, mine[|mine| - 1].at, |SightingIds(mine)|)
  }

  function RefIdRows(items: seq<Item>): seq<IdRow> {
    var ks := IdKeys(items);
    seq(Min(MAX_IDENTIFIERS, |ks|), i requires 0 <= i < |ks| =>
      GroupsInhabited(ITEM_KEY, items, i);
      RefIdRow(ks[i], ItemsOf(items, ks[i])))
  }

  function RefProviderRows(sightings: seq<Sighting>): seq<ProviderRow> {
    var ks := ProviderKeys(sightings);
    seq(|ks|, i requires 0 <= i < |ks| =>
      GroupsInhabited(SIGHTING_KEY, sightings, i);
      RefProviderRow(ks[i], SightingsOf(sightings, ks[i])))
  }

  /** Some retained identifier has more values than are kept. */
  predicate ValuesOverflow(items: seq<Item>) {
    exists i ::
      0 <= i < Min(MAX_IDENTIFIERS, |IdKeys(items)|) && |Values(ItemsOf(items, IdKeys(items)[i]))| > MAX_DISTINCT_VALUES
  }

  function AffiliateNetworks(rows: seq<ProviderRow>): set<string> {
    set r | r in rows && r.key.category == "affiliate_network" :: r.key.provider
  }

  function Trackers(rows: seq<IdRow>): set<(string, string)> {
    set r | r in rows && r.key.category == "tracker" :: (r.key.provider, r.key.rawParam)
  }

  predicate HasCategory(rows: seq<ProviderRow>, category: string) {
    exists i :: 0 <= i < |rows| && rows[i].key.category == category
  }

  predicate AnyChanged(rows: seq<IdRow>) { exists i :: 0 <= i < |rows| && rows[i].changed }

  function FlagIf(b: bool, flag: string): (f: set<string>)
    ensures |f| <= 1
  {
    if b then {flag} else {}
  }

  function Flags(providers: seq<ProviderRow>, identifiers: seq<IdRow>, originChanged: bool,
                 missing: bool): set<string> {
    FlagIf(AnyChanged(identifiers), "identifier_value_changed")
    + FlagIf(|AffiliateNetworks(providers)| > 1, "multiple_affiliate_networks_observed")
    + FlagIf(|Trackers(identifiers)| > 1, "multiple_trackers_observed")
    + FlagIf(HasCategory(providers, "paid_media") && HasCategory(providers, "affiliate_network"),
             "paid_media_and_affiliate_observed")
    + FlagIf(originChanged, "external_referrer_changed")
    + FlagIf(missing, "referrer_missing_observed")
  }

  function FirstOf(s: seq<string>): Option<string> { if s == [] then None else Some(s[0]) }

  function LastOf(s: seq<string>): Option<string> { if s == [] then None else Some(s[|s| - 1]) }

  type Collation = (string, string) -> bool

  function EventOrder(collate: Collation): (Event, Event) -> bool {
    (a: Event, b: Event) => a.time < b.time || (a.time == b.time && collate(a.id, b.id))
  }

  const IS_STRICT: Event -> bool := (e: Event) => e.evidence.Some? && e.evidence.value.schema.StrictOne?

  // ---- rows are presented by key ----

  /** One key of a chain of comparisons; the rest decides between keys that do not compare. */
  predicate Then(collate: Collation, a: string, b: string, rest: bool) { collate(a, b) || (!collate(b, a) && rest) }

  predicate IdKeyBefore(collate: Collation, a: IdKey, b: IdKey) {
    Then(collate, a.rawParam, b.rawParam,
         Then(collate, a.provider, b.provider,
              Then(collate, a.category, b.category, collate(a.identifierType, b.identifierType))))
  }

  predicate ProviderKeyBefore(collate: Collation, a: ProviderKey, b: ProviderKey) {
    Then(collate, a.provider, b.provider, collate(a.category, b.category))
  }

  function IdRowOrder(collate: Collation): (IdRow, IdRow) -> bool {
    (a: IdRow, b: IdRow) => IdKeyBefore(collate, a.key, b.key)
  }

  function ProviderRowOrder(collate: Collation): (ProviderRow, ProviderRow) -> bool {
    (a: ProviderRow, b: ProviderRow) => ProviderKeyBefore(collate, a.key, b.key)
  }

  function Presented(collate: Collation, r: Summary): Summary {
    r.(providers := Sort(ProviderRowOrder(collate), r.providers),
       identifiers := Sort(IdRowOrder(collate), r.identifiers))
  }

  /** The summary of events in time order, stated over everything they contain. */
  function RefSummary(events: seq<Event>, sourceTruncated: bool): Summary {
    var items, origins := Items(events), Origins(events);
    var providers, identifiers := RefProviderRows(Sightings(events)), RefIdRows(items);
    var originChanged := |Firsts(origins)| > 1;
    var missing := exists i :: 0 <= i < |events| && EventMissing(events[i]);
    Summary(providers, identifiers, FirstOf(Clients(events)), LastOf(Clients(events)), FirstOf(origins),
            LastOf(origins),
            Take(Firsts(origins), MAX_ORIGINS), missing, originChanged,
            Flags(providers, identifiers, originChanged, missing),
            |Filter(IS_STRICT, events)|,
            Truncation(|IdKeys(items)| > MAX_IDENTIFIERS, ValuesOverflow(items), |Firsts(origins)| > MAX_ORIGINS, false,
                       sourceTruncated))
  }

  function Reference(collate: Collation, input: seq<Event>, sourceTruncated: bool): Summary {
    Presented(collate, RefSummary(Sort(EventOrder(collate), input), sourceTruncated))
  }

  // ---- the capped accumulators ----

  /** A capped list of distinct values and whether one had to be dropped. */
  datatype Capped = Capped(kept: seq<string>, truncated: bool)

  function AddCapped(c: Capped, x: string, cap: nat): Capped {
    if x in c.kept then c else if |c.kept| < cap then c.(kept := c.kept + [x]) else c.(truncated := true)
  }

  ghost predicate CapsOf(c: Capped, xs: seq<string>, cap: nat) {
    c.kept == Take(Firsts(xs), cap) && (c.truncated <==> |Firsts(xs)| > cap)
  }

  lemma AddCappedKeeps(c: Capped, xs: seq<string>, x: string, cap: nat)
    requires CapsOf(c, xs, cap)
    ensures CapsOf(AddCapped(c, x, cap), xs + [x], cap)
  {
    FirstsSnoc(xs, x);
    if x in c.kept {
      assert x in Firsts(xs);
    }
  }

  datatype IdState = IdState(
    firstSeen: int, lastSeen: int, firstValue: string, latestValue: string, firstLocation: Option<string>,
    latestLocation: Option<string>,
    eventIds: set<string>, values: Capped)

  ghost predicate StateOf(s: IdState, mine: seq<Item>) {
    && mine != []
    && s.firstSeen == mine[0].at && s.firstValue == mine[0].value && s.firstLocation == mine[0].location
    && s.lastSeen == mine[|mine| - 1].at && s.latestValue == mine[|mine| - 1].value
    && s.latestLocation == mine[|mine| - 1].location
    && s.eventIds == EventIds(mine)
    && CapsOf(s.values, Map(ITEM_VALUE, mine), MAX_DISTINCT_VALUES)
  }

  function FreshState(i: Item): IdState {
    IdState(i.at, i.at, i.value, i.value, i.location, i.location, {}, Capped([], false))
  }

  function Observe(s: IdState, i: Item): IdState {
    s.(lastSeen := i.at, latestValue := i.value, latestLocation := i.location, eventIds := s.eventIds + {i.eventId},
       values := AddCapped(s.values, i.value, MAX_DISTINCT_VALUES))
  }

  lemma FreshStateOf(i: Item)
    ensures StateOf(Observe(FreshState(i), i), [i])
  {
    AddCappedKeeps(Capped([], false), [], i.value, MAX_DISTINCT_VALUES);
    assert Map(ITEM_VALUE, [i]) == [] + [i.value];
  }

  lemma ObserveKeeps(s: IdState, mine: seq<Item>, i: Item)
    requires StateOf(s, mine)
    ensures StateOf(Observe(s, i), mine + [i])
  {
    AddCappedKeeps(s.values, Map(ITEM_VALUE, mine), i.value, MAX_DISTINCT_VALUES);
    assert Map(ITEM_VALUE, mine + [i]) == Map(ITEM_VALUE, mine) + [i.value];
  }

  /** The identifier map with its insertion order, and the two flags it raises. */
  datatype IdTable = IdTable(keys: seq<IdKey>, states: map<IdKey, IdState>, truncated: bool, valuesTruncated: bool)

  ghost predicate TableOf(t: IdTable, items: seq<Item>) {
    && t.keys == Take(IdKeys(items), MAX_IDENTIFIERS)
    && (forall k :: k in t.states <==> k in t.keys)
    && (forall k :: k in t.states ==> StateOf(t.states[k], ItemsOf(items, k)))
    && (t.truncated <==> |IdKeys(items)| > MAX_IDENTIFIERS)
    && (t.valuesTruncated <==> exists k :: k in t.states && t.states[k].values.truncated)
  }

  /** One identifier observation; a new key beyond the cap only raises the flag. */
  function AddItem(t: IdTable, i: Item): IdTable {
    if i.key !in t.states && |t.states| >= MAX_IDENTIFIERS then t.(truncated := true)
    else
      var isNew := i.key !in t.states;
      var s := Observe(if isNew then FreshState(i) else t.states[i.key], i);
      IdTable(if isNew then t.keys + [i.key] else t.keys, t.states[i.key := s], t.truncated,
              t.valuesTruncated || s.values.truncated)
  }

  lemma {:induction false} KeyCount<K, V>(keys: seq<K>, m: map<K, V>)
    requires forall i, j :: 0 <= i < j < |keys| ==> keys[i] != keys[j]
    requires forall k :: k in m <==> k in keys
    ensures |m| == |keys|
    decreases |keys|
  {
    if keys == [] {
      assert m == map[];
    } else {
      var front, last := keys[..|keys| - 1], keys[|keys| - 1];
      assert keys == front + [last];
      KeyCount(front, m - {last});
      assert |m.Keys - {last}| == |m| - 1;
    }
  }

  lemma AddItemFlags(t: IdTable, i: Item)
    requires t.valuesTruncated <==> exists k :: k in t.states && t.states[k].values.truncated
    ensures var next := AddItem(t, i);
            next.valuesTruncated <==> exists k :: k in next.states && next.states[k].values.truncated
  {
    var next := AddItem(t, i);
    if i.key in next.states && t.valuesTruncated {
      var k :| k in t.states && t.states[k].values.truncated;
      assert k in next.states && next.states[k].values.truncated;
    }
  }

  lemma ItemsAfter(items: seq<Item>, i: Item)
    ensures ItemsOf(items + [i], i.key) == ItemsOf(items, i.key) + [i]
    ensures i.key !in IdKeys(items) ==> ItemsOf(items, i.key) == []
  {
    GroupSnoc(ITEM_KEY, items, i);
  }

  lemma {:induction false} StateAfter(t: IdTable, items: seq<Item>, i: Item)
    requires TableOf(t, items) && (i.key in t.states || |IdKeys(items)| < MAX_IDENTIFIERS)
    ensures i.key in AddItem(t, i).states && StateOf(AddItem(t, i).states[i.key], ItemsOf(items + [i], i.key))
  {
    ItemsAfter(items, i);
    KeyCount(t.keys, t.states);
    if i.key in t.states {
      ObserveKeeps(t.states[i.key], ItemsOf(items, i.key), i);
    } else {
      FreshStateOf(i);
      assert i.key !in IdKeys(items);
      assert [] + [i] == [i];
    }
  }

  lemma KeysSnoc(items: seq<Item>, i: Item)
    ensures IdKeys(items + [i]) == if i.key in IdKeys(items) then IdKeys(items) else IdKeys(items) + [i.key]
  {
    GroupSnoc(ITEM_KEY, items, i);
  }

  /** The keys and the truncation flag of the table. */
  ghost predicate KeysOf(t: IdTable, ks: seq<IdKey>) {
    && t.keys == Take(ks, MAX_IDENTIFIERS) && |t.states| == |t.keys|
    && (forall k :: k in t.states <==> k in t.keys)
    && (t.truncated <==> |ks| > MAX_IDENTIFIERS)
  }

  lemma KeysAfter(t: IdTable, ks: seq<IdKey>, i: Item)
    requires KeysOf(t, ks)
    ensures KeysOf(AddItem(t, i), if i.key in ks then ks else ks + [i.key])
  {
    if i.key in t.states {
      KnownKeyAfter(t, ks, i);
    } else if |t.states| < MAX_IDENTIFIERS {
      NewKeyAfter(t, ks, i);
    } else {
      DroppedKeyAfter(t, ks, i);
    }
  }

  lemma KnownKeyAfter(t: IdTable, ks: seq<IdKey>, i: Item)
    requires KeysOf(t, ks) && i.key in t.states
    ensures i.key in ks && KeysOf(AddItem(t, i), ks)
  {
    assert AddItem(t, i).keys == t.keys;
  }

  lemma NewKeyAfter(t: IdTable, ks: seq<IdKey>, i: Item)
    requires KeysOf(t, ks) && i.key !in t.states && |t.states| < MAX_IDENTIFIERS
    ensures i.key !in ks && KeysOf(AddItem(t, i), ks + [i.key])
  {
    assert t.keys == ks;
    assert AddItem(t, i).keys == ks + [i.key];
  }

  lemma DroppedKeyAfter(t: IdTable, ks: seq<IdKey>, i: Item)
    requires KeysOf(t, ks) && i.key !in t.states && |t.states| >= MAX_IDENTIFIERS
    ensures KeysOf(AddItem(t, i), if i.key in ks then ks else ks + [i.key])
  {
    assert |ks| >= MAX_IDENTIFIERS;
    assert i.key in ks ==> |ks| > MAX_IDENTIFIERS;
    assert (ks + [i.key])[..MAX_IDENTIFIERS] == ks[..MAX_IDENTIFIERS];
  }

  lemma RoomForNewKey(t: IdTable, items: seq<Item>, i: Item)
    requires TableOf(t, items) && i.key in AddItem(t, i).states
    ensures i.key in t.states || |IdKeys(items)| < MAX_IDENTIFIERS
  {
    KeyCount(t.keys, t.states);
  }

  lemma StateAt(t: IdTable, items: seq<Item>, i: Item, k: IdKey)
    requires TableOf(t, items) && k in AddItem(t, i).states
    ensures StateOf(AddItem(t, i).states[k], ItemsOf(items + [i], k))
  {
    if k == i.key {
      RoomForNewKey(t, items, i);
      StateAfter(t, items, i);
    } else {
      OtherGroup(items, i, k);
      assert k in t.states && AddItem(t, i).states[k] == t.states[k];
    }
  }

  lemma AddItemStates(t: IdTable, items: seq<Item>, i: Item)
    requires TableOf(t, items)
    ensures forall k :: k in AddItem(t, i).states ==> StateOf(AddItem(t, i).states[k], ItemsOf(items + [i], k))
  {
    forall k | k in AddItem(t, i).states ensures StateOf(AddItem(t, i).states[k], ItemsOf(items + [i], k)) {
      StateAt(t, items, i, k);
    }
  }

  lemma {:induction false} AddItemKeeps(t: IdTable, items: seq<Item>, i: Item)
    requires TableOf(t, items)
    ensures TableOf(AddItem(t, i), items + [i])
  {
    KeysSnoc(items, i);
    KeyCount(t.keys, t.states);
    KeysAfter(t, IdKeys(items), i);
    AddItemFlags(t, i);
    AddItemStates(t, items, i);
  }

  lemma OtherGroup(items: seq<Item>, i: Item, k: IdKey)
    requires k != i.key
    ensures ItemsOf(items + [i], k) == ItemsOf(items, k)
  {
    GroupSnoc(ITEM_KEY, items, i);
  }

  datatype ProviderState = ProviderState(firstSeen: int, lastSeen: int, eventIds: set<string>)

  datatype ProviderTable = ProviderTable(keys: seq<ProviderKey>, states: map<ProviderKey, ProviderState>)

  ghost predicate ProviderStateOf(s: ProviderState, mine: seq<Sighting>) {
    mine != [] && s.firstSeen == mine[0].at && s.lastSeen == mine[|mine| - 1].at && s.eventIds == SightingIds(mine)
  }

  ghost predicate ProvidersOf(t: ProviderTable, sightings: seq<Sighting>) {
    && t.keys == ProviderKeys(sightings)
    && (forall k :: k in t.states <==> k in t.keys)
    && (forall k :: k in t.states ==> ProviderStateOf(t.states[k], SightingsOf(sightings, k)))
  }

  function AddSighting(t: ProviderTable, s: Sighting): ProviderTable {
    var isNew := s.key !in t.states;
    var state := if isNew then ProviderState(s.at, s.at, {}) else t.states[s.key];
    ProviderTable(if isNew then t.keys + [s.key] else t.keys,
                  t.states[s.key := state.(lastSeen := s.at, eventIds := state.eventIds + {s.eventId})])
  }

  lemma SightedAgain(state: ProviderState, mine: seq<Sighting>, s: Sighting)
    requires ProviderStateOf(state, mine)
    ensures ProviderStateOf(state.(lastSeen := s.at, eventIds := state.eventIds + {s.eventId}), mine + [s])
  {
    assert SightingIds(mine + [s]) == SightingIds(mine) + {s.eventId};
  }

  lemma SightedFirst(s: Sighting)
    ensures ProviderStateOf(ProviderState(s.at, s.at, {} + {s.eventId}), [s])
  {
    assert SightingIds([s]) == {s.eventId};
  }

  lemma SightingsAfter(sightings: seq<Sighting>, s: Sighting, k: ProviderKey)
    ensures SightingsOf(sightings + [s], k) == SightingsOf(sightings, k) + if s.key == k then [s] else []
    ensures s.key !in ProviderKeys(sightings) ==> SightingsOf(sightings, s.key) == []
  {
    GroupSnoc(SIGHTING_KEY, sightings, s);
  }

  lemma SightedState(t: ProviderTable, sightings: seq<Sighting>, s: Sighting, k: ProviderKey)
    requires ProvidersOf(t, sightings) && k in AddSighting(t, s).states
    ensures ProviderStateOf(AddSighting(t, s).states[k], SightingsOf(sightings + [s], k))
  {
    SightingsAfter(sightings, s, k);
    if k == s.key && k in t.states {
      SightedAgain(t.states[k], SightingsOf(sightings, k), s);
    } else if k == s.key {
      SightedFirst(s);
      assert [] + [s] == [s];
    }
  }

  lemma {:induction false} AddSightingKeeps(t: ProviderTable, sightings: seq<Sighting>, s: Sighting)
    requires ProvidersOf(t, sightings)
    ensures ProvidersOf(AddSighting(t, s), sightings + [s])
  {
    GroupSnoc(SIGHTING_KEY, sightings, s);
    forall k | k in AddSighting(t, s).states
      ensures ProviderStateOf(AddSighting(t, s).states[k], SightingsOf(sightings + [s], k)) {
      SightedState(t, sightings, s, k);
    }
  }

  // ---- the one pass over the events ----

  lemma NamedItemsSnoc(e: Event, observations: seq<Observation>, j: nat)
    requires j < |observations|
    ensures NamedItems(e, observations[..j + 1])
            == NamedItems(e, observations[..j]) + if Named(observations[j]) then [ItemOf(e, observations[j])] else []
  {
    assert observations[..j + 1][..j] == observations[..j];
  }

  const ADD_ITEM: (IdTable, Item) -> IdTable := (t: IdTable, i: Item) => AddItem(t, i)

  function AddItems(t: IdTable, items: seq<Item>): IdTable { Fold(ADD_ITEM, t, items) }

  lemma AddItemsKeeps(t: IdTable, before: seq<Item>, items: seq<Item>)
    requires TableOf(t, before)
    ensures TableOf(AddItems(t, items), before + items)
  {
    var holds := (u: IdTable, s: seq<Item>) => TableOf(u, s);
    forall u, s, i | holds(u, s) ensures holds(ADD_ITEM(u, i), s + [i]) {
      AddItemKeeps(u, s, i);
    }
    FoldKeeps(ADD_ITEM, holds, t, before, items);
  }

  lemma AddItemsNext(t: IdTable, e: Event, observations: seq<Observation>, j: nat)
    requires j < |observations|
    ensures AddItems(t, NamedItems(e, observations[..j + 1]))
            == if Named(observations[j]) then
                 AddItem(AddItems(t, NamedItems(e, observations[..j])), ItemOf(e, observations[j]))
               else AddItems(t, NamedItems(e, observations[..j]))
  {
    var items := NamedItems(e, observations[..j]);
    NamedItemsSnoc(e, observations, j);
    if Named(observations[j]) {
      FoldSnoc(ADD_ITEM, t, items, ItemOf(e, observations[j]));
    } else {
      assert items + [] == items;
    }
  }

  method ObserveIdentifiers(table: IdTable, e: Event) returns (t: IdTable)
    requires Counts(e)
    ensures t == AddItems(table, EventItems(e))
  {
    var observations := e.evidence.value.identifiers;
    t := table;
    for j := 0 to |observations|
      invariant t == AddItems(table, NamedItems(e, observations[..j]))
    {
      AddItemsNext(table, e, observations, j);
      if Named(observations[j]) {
        t := AddItem(t, ItemOf(e, observations[j]));
      }
    }
    assert observations[..|observations|] == observations;
  }

  const ADD_SIGHTING: (ProviderTable, Sighting) -> ProviderTable := (t: ProviderTable, s: Sighting) => AddSighting(t, s)

  function AddSightings(t: ProviderTable, sightings: seq<Sighting>): ProviderTable { Fold(ADD_SIGHTING, t, sightings) }

  lemma AddSightingsKeeps(t: ProviderTable, before: seq<Sighting>, sightings: seq<Sighting>)
    requires ProvidersOf(t, before)
    ensures ProvidersOf(AddSightings(t, sightings), before + sightings)
  {
    var holds := (u: ProviderTable, s: seq<Sighting>) => ProvidersOf(u, s);
    forall u, s, x | holds(u, s) ensures holds(ADD_SIGHTING(u, x), s + [x]) {
      AddSightingKeeps(u, s, x);
    }
    FoldKeeps(ADD_SIGHTING, holds, t, before, sightings);
  }

  method ObserveProviders(table: ProviderTable, e: Event) returns (t: ProviderTable)
    requires Counts(e)
    ensures t == AddSightings(table, EventSightings(e))
  {
    var observations := e.evidence.value.identifiers + e.evidence.value.marketing;
    ghost var sightings := EventSightings(e);
    t := table;
    for j := 0 to |observations|
      invariant t == AddSightings(table, sightings[..j])
    {
      FoldNext(ADD_SIGHTING, table, sightings, j);
      t := AddSighting(t, SightingOf(e, observations[j]));
    }
    assert sightings[..|observations|] == sightings;
  }

  function IdRowOf(k: IdKey, s: IdState): IdRow {
    IdRow(k, s.firstSeen, s.lastSeen, s.firstValue, s.latestValue, |s.values.kept|,
          |s.values.kept| > 1 || s.values.truncated,
          s.firstLocation, s.latestLocation, |s.eventIds|)
  }

  function ProviderRowOf(k: ProviderKey, s: ProviderState): ProviderRow {
    ProviderRow(k, s.firstSeen, s.lastSeen, |s.eventIds|)
  }

  lemma IdRowMatches(k: IdKey, s: IdState, mine: seq<Item>)
    requires StateOf(s, mine)
    ensures IdRowOf(k, s) == RefIdRow(k, mine)
  {
  }

  lemma StatesOfKeys(t: IdTable, items: seq<Item>, i: nat)
    requires TableOf(t, items) && i < |t.keys|
    ensures i < |IdKeys(items)| && t.keys[i] == IdKeys(items)[i]
    ensures t.keys[i] in t.states && StateOf(t.states[t.keys[i]], ItemsOf(items, t.keys[i]))
  {
  }

  function IdRowsOf(t: IdTable): seq<IdRow>
    requires forall k <- t.keys :: k in t.states
  {
    seq(|t.keys|, i requires 0 <= i < |t.keys| => IdRowOf(t.keys[i], t.states[t.keys[i]]))
  }

  lemma IdRowsMatch(t: IdTable, items: seq<Item>)
    requires TableOf(t, items)
    ensures IdRowsOf(t) == RefIdRows(items)
  {
    forall i | 0 <= i < |t.keys| ensures IdRowsOf(t)[i] == RefIdRows(items)[i] {
      StatesOfKeys(t, items, i);
      IdRowMatches(t.keys[i], t.states[t.keys[i]], ItemsOf(items, t.keys[i]));
    }
  }

  function ProviderRowsOf(t: ProviderTable): seq<ProviderRow>
    requires forall k <- t.keys :: k in t.states
  {
    seq(|t.keys|, i requires 0 <= i < |t.keys| => ProviderRowOf(t.keys[i], t.states[t.keys[i]]))
  }

  lemma ProviderRowsMatch(t: ProviderTable, sightings: seq<Sighting>)
    requires ProvidersOf(t, sightings)
    ensures ProviderRowsOf(t) == RefProviderRows(sightings)
  {
    forall i | 0 <= i < |t.keys| ensures ProviderRowsOf(t)[i] == RefProviderRows(sightings)[i] {
      assert t.keys[i] in t.keys;
    }
  }

  lemma OverflowAt(t: IdTable, items: seq<Item>, i: nat)
    requires TableOf(t, items) && i < |t.keys|
    ensures t.states[t.keys[i]].values.truncated <==> |Values(ItemsOf(items, IdKeys(items)[i]))| > MAX_DISTINCT_VALUES
  {
    StatesOfKeys(t, items, i);
  }

  lemma OverflowSeen(t: IdTable, items: seq<Item>, i: nat)
    requires TableOf(t, items) && i < Min(MAX_IDENTIFIERS, |IdKeys(items)|)
    requires |Values(ItemsOf(items, IdKeys(items)[i]))| > MAX_DISTINCT_VALUES
    ensures t.valuesTruncated
  {
    StatesOfKeys(t, items, i);
    OverflowAt(t, items, i);
  }

  lemma OverflowFound(t: IdTable, items: seq<Item>, k: IdKey)
    requires TableOf(t, items) && k in t.states && t.states[k].values.truncated
    ensures ValuesOverflow(items)
  {
    var i :| 0 <= i < |t.keys| && t.keys[i] == k;
    StatesOfKeys(t, items, i);
    OverflowAt(t, items, i);
  }

  lemma OverflowMatches(t: IdTable, items: seq<Item>)
    requires TableOf(t, items)
    ensures t.valuesTruncated <==> ValuesOverflow(items)
  {
    if t.valuesTruncated {
      var k :| k in t.states && t.states[k].values.truncated;
      OverflowFound(t, items, k);
    }
    if ValuesOverflow(items) {
      var i :| 0 <= i < Min(MAX_IDENTIFIERS, |IdKeys(items)|)
               && |Values(ItemsOf(items, IdKeys(items)[i]))| > MAX_DISTINCT_VALUES;
      OverflowSeen(t, items, i);
    }
  }

  lemma UnionSize(a: set<string>, b: set<string>)
    ensures |a + b| <= |a| + |b|
  {
    assert |a + b| + |a * b| == |a| + |b|;
  }

  /** Six flags exist, so the cap of twenty never cuts any. */
  lemma FlagsAreFew(providers: seq<ProviderRow>, identifiers: seq<IdRow>, originChanged: bool, missing: bool)
    ensures |Flags(providers, identifiers, originChanged, missing)| <= 6
  {
    var changed := FlagIf(AnyChanged(identifiers), "identifier_value_changed");
    var networks := FlagIf(|AffiliateNetworks(providers)| > 1, "multiple_affiliate_networks_observed");
    var trackers := FlagIf(|Trackers(identifiers)| > 1, "multiple_trackers_observed");
    var both := FlagIf(HasCategory(providers, "paid_media") && HasCategory(providers, "affiliate_network"),
                       "paid_media_and_affiliate_observed");
    var origin := FlagIf(originChanged, "external_referrer_changed");
    UnionSize(changed, networks);
    UnionSize(changed + networks, trackers);
    UnionSize(changed + networks + trackers, both);
    UnionSize(changed + networks + trackers + both, origin);
    UnionSize(changed + networks + trackers + both + origin, FlagIf(missing, "referrer_missing_observed"));
  }

  lemma CappedOriginsChanged(c: Capped, origins: seq<string>)
    requires CapsOf(c, origins, MAX_ORIGINS)
    ensures |c.kept| > 1 || c.truncated <==> |Firsts(origins)| > 1
  {
  }

  /** The referrer part of the loop's state. */
  datatype Referrers = Referrers(clients: seq<string>, origins: seq<string>, distinct: Capped, missing: bool)

  predicate AnyMissing(events: seq<Event>) {
    events != [] && (AnyMissing(events[..|events| - 1]) || EventMissing(events[|events| - 1]))
  }

  lemma {:induction false} AnyMissingMeans(events: seq<Event>)
    ensures AnyMissing(events) <==> exists i :: 0 <= i < |events| && EventMissing(events[i])
    decreases |events|
  {
    if events != [] {
      var front := events[..|events| - 1];
      AnyMissingMeans(front);
      if i :| 0 <= i < |front| && EventMissing(front[i]) {
        assert EventMissing(events[i]);
      }
    }
  }

  ghost predicate ReferrersOf(r: Referrers, events: seq<Event>) {
    && r.clients == Clients(events) && r.origins == Origins(events) && CapsOf(r.distinct, Origins(events), MAX_ORIGINS)
    && (r.missing <==> AnyMissing(events))
  }

  function NextReferrers(r: Referrers, e: Event): Referrers {
    Referrers(r.clients + EventClients(e), r.origins + EventOrigins(e),
              if EventOrigins(e) == [] then r.distinct else AddCapped(r.distinct, EventOrigins(e)[0], MAX_ORIGINS),
              r.missing || EventMissing(e))
  }

  lemma OriginsKept(distinct: Capped, origins: seq<string>, e: Event)
    requires CapsOf(distinct, origins, MAX_ORIGINS)
    ensures CapsOf(if EventOrigins(e) == [] then distinct else AddCapped(distinct, EventOrigins(e)[0], MAX_ORIGINS),
                   origins + EventOrigins(e), MAX_ORIGINS)
  {
    if EventOrigins(e) == [] {
      assert origins + EventOrigins(e) == origins;
    } else {
      AddCappedKeeps(distinct, origins, EventOrigins(e)[0], MAX_ORIGINS);
      assert EventOrigins(e) == [EventOrigins(e)[0]];
    }
  }

  lemma NextReferrersOf(r: Referrers, e: Event, before: seq<Event>)
    requires ReferrersOf(r, before)
    ensures ReferrersOf(NextReferrers(r, e), before + [e])
  {
    EventAdds(e, before);
    OriginsKept(r.distinct, r.origins, e);
  }

  method ObserveReferrer(table: Referrers, e: Event) returns (r: Referrers)
    requires Counts(e)
    ensures r == NextReferrers(table, e)
  {
    r := table;
    var referrer := e.evidence.value.referrer;
    if referrer.missing {
      r := r.(missing := true);
    }
    if referrer.client != "" {
      r := r.(clients := r.clients + [referrer.client]);
    }
    if referrer.origin.Some? && (e.pageOrigin.None? || referrer.origin.value != e.pageOrigin.value) {
      r := r.(origins := r.origins + [referrer.origin.value],
              distinct := AddCapped(r.distinct, referrer.origin.value, MAX_ORIGINS));
    }
  }

  lemma EventAdds(e: Event, before: seq<Event>)
    ensures Items(before + [e]) == Items(before) + EventItems(e)
    ensures Sightings(before + [e]) == Sightings(before) + EventSightings(e)
    ensures Clients(before + [e]) == Clients(before) + EventClients(e)
    ensures Origins(before + [e]) == Origins(before) + EventOrigins(e)
    ensures AnyMissing(before + [e]) <==> AnyMissing(before) || EventMissing(e)
  {
    assert (before + [e])[..|before|] == before;
  }

  /** What the loop holds after the events read so far. */
  datatype Observed = Observed(ids: IdTable, sighted: ProviderTable, referrers: Referrers)

  const NOTHING_OBSERVED := Observed(IdTable([], map[], false, false), ProviderTable([], map[]),
                                     Referrers([], [], Capped([], false), false))

  ghost predicate ObservedIn(o: Observed, events: seq<Event>) {
    TableOf(o.ids, Items(events)) && ProvidersOf(o.sighted, Sightings(events)) && ReferrersOf(o.referrers, events)
  }

  function NextObserved(o: Observed, e: Event): Observed {
    Observed(AddItems(o.ids, EventItems(e)), AddSightings(o.sighted, EventSightings(e)), NextReferrers(o.referrers, e))
  }

  const NEXT_OBSERVED: (Observed, Event) -> Observed := (o: Observed, e: Event) => NextObserved(o, e)

  function ObservedAfter(events: seq<Event>): Observed { Fold(NEXT_OBSERVED, NOTHING_OBSERVED, events) }

  lemma {:induction false} NextObservedIn(o: Observed, e: Event, events: seq<Event>)
    requires ObservedIn(o, events)
    ensures ObservedIn(NextObserved(o, e), events + [e])
  {
    EventAdds(e, events);
    AddItemsKeeps(o.ids, Items(events), EventItems(e));
    AddSightingsKeeps(o.sighted, Sightings(events), EventSightings(e));
    NextReferrersOf(o.referrers, e, events);
  }

  lemma NothingObservedIn()
    ensures ObservedIn(NOTHING_OBSERVED, [])
  {
    assert IdKeys([]) == [] && ProviderKeys([]) == [];
  }

  lemma ObservedAfterAll(events: seq<Event>)
    ensures ObservedIn(ObservedAfter(events), events)
  {
    var holds := (o: Observed, s: seq<Event>) => ObservedIn(o, s);
    NothingObservedIn();
    forall o, s, e | holds(o, s) ensures holds(NEXT_OBSERVED(o, e), s + [e]) {
      NextObservedIn(o, e, s);
    }
    assert holds(NOTHING_OBSERVED, []);
    FoldKeeps(NEXT_OBSERVED, holds, NOTHING_OBSERVED, [], events);
    assert [] + events == events;
  }

  method ObserveEvent(before: Observed, e: Event) returns (o: Observed)
    ensures o == NextObserved(before, e)
  {
    o := before;
    if Counts(e) {
      var sighted := ObserveProviders(before.sighted, e);
      var ids := ObserveIdentifiers(before.ids, e);
      var referrers := ObserveReferrer(before.referrers, e);
      o := Observed(ids, sighted, referrers);
    }
  }

  method ObserveEvents(events: seq<Event>) returns (o: Observed)
    ensures o == ObservedAfter(events)
  {
    o := NOTHING_OBSERVED;
    for i := 0 to |events|
      invariant o == ObservedAfter(events[..i])
    {
      FoldNext(NEXT_OBSERVED, NOTHING_OBSERVED, events, i);
      o := ObserveEvent(o, events[i]);
    }
    assert events[..|events|] == events;
  }

  /** Every part of the summary, from the capped state and from the whole. */
  ghost predicate Means(o: Observed, events: seq<Event>) {
    var origins := Firsts(Origins(events));
    && (forall k <- o.ids.keys :: k in o.ids.states) && (forall k <- o.sighted.keys :: k in o.sighted.states)
    && IdRowsOf(o.ids) == RefIdRows(Items(events)) && ProviderRowsOf(o.sighted) == RefProviderRows(Sightings(events))
    && (o.ids.truncated <==> |IdKeys(Items(events))| > MAX_IDENTIFIERS)
    && (o.ids.valuesTruncated <==> ValuesOverflow(Items(events)))
    && o.referrers.clients == Clients(events) && o.referrers.origins == Origins(events)
    && o.referrers.distinct.kept == Take(origins, MAX_ORIGINS)
    && (o.referrers.distinct.truncated <==> |origins| > MAX_ORIGINS)
    && (|o.referrers.distinct.kept| > 1 || o.referrers.distinct.truncated <==> |origins| > 1)
    && (o.referrers.missing <==> exists i :: 0 <= i < |events| && EventMissing(events[i]))
  }

  lemma {:induction false} ObservedMeans(o: Observed, events: seq<Event>)
    requires ObservedIn(o, events)
    ensures Means(o, events)
  {
    IdRowsMatch(o.ids, Items(events));
    ProviderRowsMatch(o.sighted, Sightings(events));
    OverflowMatches(o.ids, Items(events));
    CappedOriginsChanged(o.referrers.distinct, o.referrers.origins);
    AnyMissingMeans(events);
  }

  lemma MeansTruncation(o: Observed, events: seq<Event>, flags: set<string>, sourceTruncated: bool)
    requires Means(o, events) && |flags| <= MAX_FLAGS
    ensures Truncation(o.ids.truncated, o.ids.valuesTruncated, o.referrers.distinct.truncated, |flags| > MAX_FLAGS,
                       sourceTruncated)
            == RefSummary(events, sourceTruncated).truncation
  {
  }

  method Finish(o: Observed, evidenceEvents: nat, sourceTruncated: bool, ghost events: seq<Event>) returns (r: Summary)
    requires Means(o, events) && evidenceEvents == |Filter(IS_STRICT, events)|
    ensures r == RefSummary(events, sourceTruncated)
  {
    var identifiers, providers, referrers := IdRowsOf(o.ids), ProviderRowsOf(o.sighted), o.referrers;
    var originChanged := |referrers.distinct.kept| > 1 || referrers.distinct.truncated;
    var flags := Flags(providers, identifiers, originChanged, referrers.missing);
    FlagsAreFew(providers, identifiers, originChanged, referrers.missing);
    MeansTruncation(o, events, flags, sourceTruncated);
    r := Summary(providers, identifiers, FirstOf(referrers.clients), LastOf(referrers.clients),
                 FirstOf(referrers.origins), LastOf(referrers.origins),
                 referrers.distinct.kept, referrers.missing, originChanged, flags, evidenceEvents,
                 Truncation(o.ids.truncated, o.ids.valuesTruncated, referrers.distinct.truncated, |flags| > MAX_FLAGS,
                            sourceTruncated));
  }

  method Aggregate(collate: Collation, input: seq<Event>, sourceTruncated: bool) returns (r: Summary)
    ensures r == Reference(collate, input, sourceTruncated)
  {
    var events := Sort(EventOrder(collate), input);
    var observed := ObserveEvents(events);
    ObservedAfterAll(events);
    ObservedMeans(observed, events);
    r := Finish(observed, |Filter(IS_STRICT, events)|, sourceTruncated, events);
    r := r.(providers := Sort(ProviderRowOrder(collate), r.providers),
            identifiers := Sort(IdRowOrder(collate), r.identifiers));
  }
}
