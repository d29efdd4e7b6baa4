/**
 * What each part of the summary of a journey says, told by the places of its events at which something was observed:
 * the first and the latest of these give a row its values, and every flag has its own condition on the rows.
 */
module EvidenceRules {
  import opened Prelude
  import opened Ordering
  import opened Seqs
  import opened Evidence
  import opened EvidenceLaws

  /** The `at`-th observation of the `event`-th event. */
  datatype Place = Place(event: nat, at: nat)

  predicate Precedes(p: Place, q: Place) { p.event < q.event || (p.event == q.event && p.at < q.at) }

  /** The list `xs` holds what can be read at the places `ps`, which are all there are, in their order. */
  ghost predicate Lists<T(!new)>(xs: seq<T>, ps: seq<Place>, read: Place -> Option<T>) {
    && |xs| == |ps|
    && (forall n :: 0 <= n < |ps| ==> read(ps[n]) == Some(xs[n]))
    && (forall m, n :: 0 <= m < n < |ps| ==> Precedes(ps[m], ps[n]))
    && (forall p :: read(p).Some? ==> p in ps)
  }

  lemma ListsConcat<T(!new)>(xs: seq<T>, ps: seq<Place>, left: Place -> Option<T>, ys: seq<T>, qs: seq<Place>,
                             right: Place -> Option<T>, read: Place -> Option<T>)
    requires Lists(xs, ps, left) && Lists(ys, qs, right)
    requires forall p <- ps, q <- qs :: Precedes(p, q)
    requires forall p :: read(p) == if left(p).Some? then left(p) else right(p)
    ensures Lists(xs + ys, ps + qs, read)
  {
    forall n | 0 <= n < |ps + qs| ensures read((ps + qs)[n]) == Some((xs + ys)[n]) {
      if n >= |ps| {
        var q := qs[n - |ps|];
        assert q in qs && !Precedes(q, q);
      }
    }
  }

  // ---- what is read at a place ----

  function Text(s: string): string { if s == "" then "unknown" else s }

  predicate IsRead(e: Event) {
    e.evidence.Some? && (e.evidence.value.schema == StrictOne || e.evidence.value.schema == ConvertsToOne)
  }

  /** Both a parameter and a value are needed. */
  function ItemIn(e: Event, j: nat): Option<Item> {
    if IsRead(e) && j < |e.evidence.value.identifiers| then
      var o := e.evidence.value.identifiers[j];
      if o.rawParam == "" || o.value == "" then None
      else
        Some(Item(IdKey(o.rawParam, Text(o.provider), Text(o.category), Text(o.identifierType)), e.time, o.value,
                  if o.location == "" then None else Some(o.location), e.id))
    else None
  }

  /** Identifiers come before the marketing observations. */
  function SightingIn(e: Event, j: nat): Option<Sighting> {
    if !IsRead(e) then None
    else
      var ids, ads := e.evidence.value.identifiers, e.evidence.value.marketing;
      if j < |ids| then Some(Sighting(ProviderKey(Text(ids[j].provider), Text(ids[j].category)), e.time, e.id))
      else if j - |ids| < |ads| then
        Some(Sighting(ProviderKey(Text(ads[j - |ids|].provider), Text(ads[j - |ids|].category)), e.time, e.id))
      else None
  }

  function ClientIn(e: Event, j: nat): Option<string> {
    if IsRead(e) && j == 0 && e.evidence.value.referrer.client != "" then Some(e.evidence.value.referrer.client)
    else None
  }

  function OriginIn(e: Event, j: nat): Option<string> {
    if IsRead(e) && j == 0 then
      match e.evidence.value.referrer.origin
      case Some(o) => if e.pageOrigin == Some(o) then None else Some(o)
      case None => None
    else None
  }

  function At<T>(events: seq<Event>, inOne: (Event, nat) -> Option<T>, p: Place): Option<T> {
    if p.event < |events| then inOne(events[p.event], p.at) else None
  }

  function AtOf<T>(n: nat, e: Event, bound: nat, inOne: (Event, nat) -> Option<T>, p: Place): Option<T> {
    if p.event == n && p.at < bound then inOne(e, p.at) else None
  }

  /** Reading a whole journey by what is read in one event. */
  function Reading<T>(events: seq<Event>, inOne: (Event, nat) -> Option<T>): Place -> Option<T> {
    (p: Place) => At(events, inOne, p)
  }

  /** Reading the first observations of one event. */
  function ReadingOf<T>(n: nat, e: Event, bound: nat, inOne: (Event, nat) -> Option<T>): Place -> Option<T> {
    (p: Place) => AtOf(n, e, bound, inOne, p)
  }

  const ITEM_IN: (Event, nat) -> Option<Item> := (e: Event, j: nat) => ItemIn(e, j)
  const SIGHTING_IN: (Event, nat) -> Option<Sighting> := (e: Event, j: nat) => SightingIn(e, j)
  const CLIENT_IN: (Event, nat) -> Option<string> := (e: Event, j: nat) => ClientIn(e, j)
  const ORIGIN_IN: (Event, nat) -> Option<string> := (e: Event, j: nat) => OriginIn(e, j)

  // ---- the lists of the reference hold what is read ----

  lemma ListsOne<T(!new)>(n: nat, e: Event, j: nat, inOne: (Event, nat) -> Option<T>, xs: seq<T>, ps: seq<Place>)
    returns (qs: seq<Place>)
    requires Lists(xs, ps, ReadingOf(n, e, j, inOne)) && (forall p <- ps :: p.event == n && p.at < j)
    ensures Lists(xs + (if inOne(e, j).Some? then [inOne(e, j).value] else []), qs, ReadingOf(n, e, j + 1, inOne))
    ensures forall p <- qs :: p.event == n && p.at < j + 1
  {
    var left, read := ReadingOf(n, e, j, inOne), ReadingOf(n, e, j + 1, inOne);
    if inOne(e, j).Some? {
      var right := (p: Place) => if p == Place(n, j) then inOne(e, j) else None;
      assert Lists([inOne(e, j).value], [Place(n, j)], right);
      ListsConcat(xs, ps, left, [inOne(e, j).value], [Place(n, j)], right, read);
      qs := ps + [Place(n, j)];
    } else {
      qs := ps;
      forall p | read(p).Some? ensures p in ps {
        assert left(p).Some?;
      }
      assert xs + [] == xs;
    }
  }

  lemma ListsEvent<T(!new)>(events: seq<Event>, e: Event, inOne: (Event, nat) -> Option<T>, bound: nat, xs: seq<T>,
                            ps: seq<Place>, ys: seq<T>, qs: seq<Place>)
    requires Lists(xs, ps, Reading(events, inOne)) && (forall p <- ps :: p.event < |events|)
    requires Lists(ys, qs, ReadingOf(|events|, e, bound, inOne)) && (forall q <- qs :: q.event == |events|)
    requires forall j: nat :: inOne(e, j).Some? ==> j < bound
    ensures Lists(xs + ys, ps + qs, Reading(events + [e], inOne))
    ensures forall p <- ps + qs :: p.event < |events| + 1
  {
    var left, right := Reading(events, inOne), ReadingOf(|events|, e, bound, inOne);
    var read := Reading(events + [e], inOne);
    forall p ensures read(p) == if left(p).Some? then left(p) else right(p) {
      if p.event == |events| && p.at >= bound {
        assert inOne(e, p.at).None?;
      }
    }
    ListsConcat(xs, ps, left, ys, qs, right, read);
  }

  lemma ListsNothing<T(!new)>(n: nat, e: Event, bound: nat, inOne: (Event, nat) -> Option<T>)
    requires forall j: nat :: j < bound ==> inOne(e, j).None?
    ensures Lists([], [], ReadingOf(n, e, bound, inOne))
  {
    var read := ReadingOf(n, e, bound, inOne);
    forall p: Place ensures read(p).None? {
    }
  }

  lemma ListsNoEvents<T(!new)>(inOne: (Event, nat) -> Option<T>)
    ensures Lists([], [], Reading([], inOne))
  {
    var read := Reading([], inOne);
    forall p: Place ensures read(p).None? {
    }
  }

  lemma {:induction false} NamedItemsListed(n: nat, e: Event, j: nat) returns (ps: seq<Place>)
    requires Counts(e) && j <= |e.evidence.value.identifiers|
    ensures Lists(NamedItems(e, e.evidence.value.identifiers[..j]), ps, ReadingOf(n, e, j, ITEM_IN))
    ensures forall p <- ps :: p.event == n && p.at < j
  {
    var ids := e.evidence.value.identifiers;
    if j == 0 {
      ps := [];
      ListsNothing(n, e, 0, ITEM_IN);
    } else {
      var front := NamedItemsListed(n, e, j - 1);
      assert ids[..j][..j - 1] == ids[..j - 1] && ids[..j][j - 1] == ids[j - 1];
      ps := ListsOne(n, e, j - 1, ITEM_IN, NamedItems(e, ids[..j - 1]), front);
    }
  }

  lemma EventItemsListed(n: nat, e: Event) returns (ps: seq<Place>, bound: nat)
    ensures Lists(EventItems(e), ps, ReadingOf(n, e, bound, ITEM_IN)) && (forall p <- ps :: p.event == n)
    ensures forall j: nat :: ITEM_IN(e, j).Some? ==> j < bound
  {
    if Counts(e) {
      var ids := e.evidence.value.identifiers;
      bound := |ids|;
      ps := NamedItemsListed(n, e, bound);
      assert ids[..bound] == ids;
    } else {
      ps, bound := [], 0;
    }
  }

  lemma {:induction false} ItemsListed(events: seq<Event>) returns (ps: seq<Place>)
    ensures Lists(Items(events), ps, Reading(events, ITEM_IN)) && (forall p <- ps :: p.event < |events|)
    decreases |events|
  {
    if events == [] {
      ps := [];
      ListsNoEvents(ITEM_IN);
    } else {
      var front, last := events[..|events| - 1], events[|events| - 1];
      var before := ItemsListed(front);
      var here, bound := EventItemsListed(|front|, last);
      ListsEvent(front, last, ITEM_IN, bound, Items(front), before, EventItems(last), here);
      assert front + [last] == events;
      ps := before + here;
    }
  }

  lemma EventSightingsListed(n: nat, e: Event) returns (ps: seq<Place>, bound: nat)
    ensures Lists(EventSightings(e), ps, ReadingOf(n, e, bound, SIGHTING_IN)) && (forall p <- ps :: p.event == n)
    ensures forall j: nat :: SIGHTING_IN(e, j).Some? ==> j < bound
  {
    bound := |EventSightings(e)|;
    ps := seq(bound, j requires 0 <= j < bound => Place(n, j));
    var read := ReadingOf(n, e, bound, SIGHTING_IN);
    forall p | read(p).Some? ensures p in ps {
      assert ps[p.at] == p;
    }
  }

  lemma {:induction false} SightingsListed(events: seq<Event>) returns (ps: seq<Place>)
    ensures Lists(Sightings(events), ps, Reading(events, SIGHTING_IN)) && (forall p <- ps :: p.event < |events|)
    decreases |events|
  {
    if events == [] {
      ps := [];
      ListsNoEvents(SIGHTING_IN);
    } else {
      var front, last := events[..|events| - 1], events[|events| - 1];
      var before := SightingsListed(front);
      var here, bound := EventSightingsListed(|front|, last);
      ListsEvent(front, last, SIGHTING_IN, bound, Sightings(front), before, EventSightings(last), here);
      assert front + [last] == events;
      ps := before + here;
    }
  }

  lemma EventClientsListed(n: nat, e: Event) returns (ps: seq<Place>)
    ensures Lists(EventClients(e), ps, ReadingOf(n, e, 1, CLIENT_IN)) && (forall p <- ps :: p.event == n)
    ensures forall j: nat :: CLIENT_IN(e, j).Some? ==> j < 1
  {
    ListsNothing(n, e, 0, CLIENT_IN);
    ps := ListsOne(n, e, 0, CLIENT_IN, [], []);
    assert [] + EventClients(e) == EventClients(e);
  }

  lemma {:induction false} ClientsListed(events: seq<Event>) returns (ps: seq<Place>)
    ensures Lists(Clients(events), ps, Reading(events, CLIENT_IN)) && (forall p <- ps :: p.event < |events|)
    decreases |events|
  {
    if events == [] {
      ps := [];
      ListsNoEvents(CLIENT_IN);
    } else {
      var front, last := events[..|events| - 1], events[|events| - 1];
      var before := ClientsListed(front);
      var here := EventClientsListed(|front|, last);
      ListsEvent(front, last, CLIENT_IN, 1, Clients(front), before, EventClients(last), here);
      assert front + [last] == events;
      ps := before + here;
    }
  }

  lemma EventOriginsListed(n: nat, e: Event) returns (ps: seq<Place>)
    ensures Lists(EventOrigins(e), ps, ReadingOf(n, e, 1, ORIGIN_IN)) && (forall p <- ps :: p.event == n)
    ensures forall j: nat :: ORIGIN_IN(e, j).Some? ==> j < 1
  {
    ListsNothing(n, e, 0, ORIGIN_IN);
    ps := ListsOne(n, e, 0, ORIGIN_IN, [], []);
    assert [] + EventOrigins(e) == EventOrigins(e);
  }

  lemma {:induction false} OriginsListed(events: seq<Event>) returns (ps: seq<Place>)
    ensures Lists(Origins(events), ps, Reading(events, ORIGIN_IN)) && (forall p <- ps :: p.event < |events|)
    decreases |events|
  {
    if events == [] {
      ps := [];
      ListsNoEvents(ORIGIN_IN);
    } else {
      var front, last := events[..|events| - 1], events[|events| - 1];
      var before := OriginsListed(front);
      var here := EventOriginsListed(|front|, last);
      ListsEvent(front, last, ORIGIN_IN, 1, Origins(front), before, EventOrigins(last), here);
      assert front + [last] == events;
      ps := before + here;
    }
  }

  // ---- the first and the latest under a key ----

  ghost predicate Under<T(!new), K(!new)>(key: T -> K, k: K, read: Place -> Option<T>, p: Place) {
    read(p).Some? && key(read(p).value) == k
  }

  ghost predicate IsFirst<T(!new), K(!new)>(key: T -> K, k: K, read: Place -> Option<T>, p: Place) {
    Under(key, k, read, p) && forall q :: Under(key, k, read, q) ==> p == q || Precedes(p, q)
  }

  ghost predicate IsLatest<T(!new), K(!new)>(key: T -> K, k: K, read: Place -> Option<T>, p: Place) {
    Under(key, k, read, p) && forall q :: Under(key, k, read, q) ==> p == q || Precedes(q, p)
  }

  lemma {:induction false} FilterFirst<T(!new)>(keep: T -> bool, s: seq<T>) returns (n: nat)
    requires Filter(keep, s) != []
    ensures n < |s| && keep(s[n]) && Filter(keep, s)[0] == s[n] && forall m :: 0 <= m < n ==> !keep(s[m])
    decreases |s|
  {
    var front := s[..|s| - 1];
    if Filter(keep, front) != [] {
      n := FilterFirst(keep, front);
    } else {
      n := |front|;
      forall m | 0 <= m < n ensures !keep(s[m]) {
        assert s[m] == front[m] && front[m] in front && front[m] !in Filter(keep, front);
      }
    }
  }

  lemma {:induction false} FilterLatest<T(!new)>(keep: T -> bool, s: seq<T>) returns (n: nat)
    requires Filter(keep, s) != []
    ensures n < |s| && keep(s[n]) && Filter(keep, s)[|Filter(keep, s)| - 1] == s[n]
    ensures forall m :: n < m < |s| ==> !keep(s[m])
    decreases |s|
  {
    var front := s[..|s| - 1];
    if keep(s[|s| - 1]) {
      n := |s| - 1;
    } else {
      n := FilterLatest(keep, front);
    }
  }

  lemma FirstPlace<T(!new), K(!new)>(key: T -> K, k: K, xs: seq<T>, ps: seq<Place>, read: Place -> Option<T>)
    returns (p: Place)
    requires Lists(xs, ps, read) && Group(key, k, xs) != []
    ensures IsFirst(key, k, read, p) && read(p) == Some(Group(key, k, xs)[0])
  {
    var n := FilterFirst(HasKey(key, k), xs);
    p := ps[n];
    forall q | Under(key, k, read, q) ensures p == q || Precedes(p, q) {
      var m :| 0 <= m < |ps| && ps[m] == q;
      assert HasKey(key, k)(xs[m]);
    }
  }

  lemma LatestPlace<T(!new), K(!new)>(key: T -> K, k: K, xs: seq<T>, ps: seq<Place>, read: Place -> Option<T>)
    returns (p: Place)
    requires Lists(xs, ps, read) && Group(key, k, xs) != []
    ensures IsLatest(key, k, read, p) && read(p) == Some(Group(key, k, xs)[|Group(key, k, xs)| - 1])
  {
    var n := FilterLatest(HasKey(key, k), xs);
    p := ps[n];
    forall q | Under(key, k, read, q) ensures p == q || Precedes(q, p) {
      var m :| 0 <= m < |ps| && ps[m] == q;
      assert HasKey(key, k)(xs[m]);
    }
  }

  lemma MemberHasPlace<T(!new), K(!new)>(key: T -> K, k: K, xs: seq<T>, ps: seq<Place>, read: Place -> Option<T>, x: T)
    requires Lists(xs, ps, read)
    ensures x in Group(key, k, xs) <==> exists p :: Under(key, k, read, p) && read(p) == Some(x)
  {
    if x in Group(key, k, xs) {
      var n :| 0 <= n < |xs| && xs[n] == x;
      assert Under(key, k, read, ps[n]) && read(ps[n]) == Some(x);
    }
    if p :| Under(key, k, read, p) && read(p) == Some(x) {
      var n :| 0 <= n < |ps| && ps[n] == p;
      assert xs[n] == x;
    }
  }

  // ---- identifier rows ----

  /** A text is held by the set exactly when it is read, by `what`, at some place of the key. */
  ghost predicate Gathers<T(!new), K(!new)>(held: set<string>, what: T -> string, key: T -> K, k: K,
                                            read: Place -> Option<T>)
  {
    forall v :: v in held <==> exists p :: Under(key, k, read, p) && what(read(p).value) == v
  }

  const ITEM_EVENT: Item -> string := (i: Item) => i.eventId
  const SIGHTING_EVENT: Sighting -> string := (s: Sighting) => s.eventId

  ghost predicate IdRowBounds(row: IdRow, read: Place -> Option<Item>, first: Place, latest: Place) {
    && IsFirst(ITEM_KEY, row.key, read, first) && IsLatest(ITEM_KEY, row.key, read, latest)
    && var a, z := read(first).value, read(latest).value;
    && row.firstSeen == a.at && row.firstValue == a.value && row.firstLocation == a.location
    && row.lastSeen == z.at && row.latestValue == z.value && row.latestLocation == z.location
  }

  ghost predicate IdRowCounts(row: IdRow, read: Place -> Option<Item>, values: set<string>, ids: set<string>) {
    && Gathers(values, ITEM_VALUE, ITEM_KEY, row.key, read) && Gathers(ids, ITEM_EVENT, ITEM_KEY, row.key, read)
    && row.distinctValues == (if |values| <= 20 then |values| else 20) && row.eventCount == |ids|
  }

  ghost predicate ValuesDiffer(read: Place -> Option<Item>, k: IdKey) {
    exists p, q ::
      Under(ITEM_KEY, k, read, p) && Under(ITEM_KEY, k, read, q) && read(p).value.value != read(q).value.value
  }

  /** First and latest values, the number of values up to twenty, whether they differ, and the number of events. */
  ghost predicate IdRowExactly(row: IdRow, read: Place -> Option<Item>) {
    && (exists first, latest :: IdRowBounds(row, read, first, latest))
    && (exists values, ids :: IdRowCounts(row, read, values, ids))
    && (row.changed <==> ValuesDiffer(read, row.key))
  }

  lemma GathersGroup<T(!new), K(!new)>(held: set<string>, what: T -> string, key: T -> K, k: K, xs: seq<T>,
                                       ps: seq<Place>, read: Place -> Option<T>)
    requires Lists(xs, ps, read)
    requires forall v :: v in held <==> exists x :: x in Group(key, k, xs) && what(x) == v
    ensures Gathers(held, what, key, k, read)
  {
    forall v ensures v in held <==> exists p :: Under(key, k, read, p) && what(read(p).value) == v {
      if v in held {
        var x :| x in Group(key, k, xs) && what(x) == v;
        MemberHasPlace(key, k, xs, ps, read, x);
      }
      if p :| Under(key, k, read, p) && what(read(p).value) == v {
        MemberHasPlace(key, k, xs, ps, read, read(p).value);
      }
    }
  }

  lemma ValuesGathered(k: IdKey, items: seq<Item>, ps: seq<Place>, read: Place -> Option<Item>)
    returns (values: set<string>)
    requires Lists(items, ps, read)
    ensures Gathers(values, ITEM_VALUE, ITEM_KEY, k, read) && |values| == |Values(ItemsOf(items, k))|
  {
    var mine := ItemsOf(items, k);
    values := Elements(Map(ITEM_VALUE, mine));
    FirstsCount(Map(ITEM_VALUE, mine));
    forall v ensures v in values <==> exists x :: x in mine && ITEM_VALUE(x) == v {
      ValueOccurs(mine, v);
      if x :| x in mine && ITEM_VALUE(x) == v {
        var i :| 0 <= i < |mine| && mine[i] == x;
        assert mine[i].value == v;
      }
      if i :| 0 <= i < |mine| && mine[i].value == v {
        assert mine[i] in mine;
      }
    }
    GathersGroup(values, ITEM_VALUE, ITEM_KEY, k, items, ps, read);
  }

  lemma IdsGathered(k: IdKey, items: seq<Item>, ps: seq<Place>, read: Place -> Option<Item>)
    requires Lists(items, ps, read)
    ensures Gathers(EventIds(ItemsOf(items, k)), ITEM_EVENT, ITEM_KEY, k, read)
  {
    var mine := ItemsOf(items, k);
    forall v ensures v in EventIds(mine) <==> exists x :: x in mine && ITEM_EVENT(x) == v {
    }
    GathersGroup(EventIds(mine), ITEM_EVENT, ITEM_KEY, k, items, ps, read);
  }

  lemma ChangedExactly(k: IdKey, items: seq<Item>, ps: seq<Place>, read: Place -> Option<Item>)
    requires Lists(items, ps, read)
    ensures |Values(ItemsOf(items, k))| > 1 <==> ValuesDiffer(read, k)
  {
    var mine := ItemsOf(items, k);
    ChangedMeansTwoValues(mine);
    if a, b :| a in mine && b in mine && a.value != b.value {
      MemberHasPlace(ITEM_KEY, k, items, ps, read, a);
      MemberHasPlace(ITEM_KEY, k, items, ps, read, b);
    }
    if p, q :| Under(ITEM_KEY, k, read, p) && Under(ITEM_KEY, k, read,
                                                    q) && read(p).value.value != read(q).value.value {
      MemberHasPlace(ITEM_KEY, k, items, ps, read, read(p).value);
      MemberHasPlace(ITEM_KEY, k, items, ps, read, read(q).value);
    }
  }

  lemma IdRowIsExact(k: IdKey, items: seq<Item>, ps: seq<Place>, read: Place -> Option<Item>)
    requires Lists(items, ps, read) && ItemsOf(items, k) != []
    ensures IdRowExactly(RefIdRow(k, ItemsOf(items, k)), read)
  {
    var row := RefIdRow(k, ItemsOf(items, k));
    var first := FirstPlace(ITEM_KEY, k, items, ps, read);
    var latest := LatestPlace(ITEM_KEY, k, items, ps, read);
    assert IdRowBounds(row, read, first, latest);
    var values := ValuesGathered(k, items, ps, read);
    IdsGathered(k, items, ps, read);
    assert IdRowCounts(row, read, values, EventIds(ItemsOf(items, k)));
    ChangedExactly(k, items, ps, read);
  }

  // ---- provider rows ----

  ghost predicate ProviderRowExactly(row: ProviderRow, read: Place -> Option<Sighting>) {
    && (exists first, latest ::
          && IsFirst(SIGHTING_KEY, row.key, read, first) && IsLatest(SIGHTING_KEY, row.key, read, latest)
          && row.firstSeen == read(first).value.at && row.lastSeen == read(latest).value.at)
    && (exists ids :: Gathers(ids, SIGHTING_EVENT, SIGHTING_KEY, row.key, read) && row.eventCount == |ids|)
  }

  lemma ProviderRowIsExact(k: ProviderKey, sightings: seq<Sighting>, ps: seq<Place>, read: Place -> Option<Sighting>)
    requires Lists(sightings, ps, read) && SightingsOf(sightings, k) != []
    ensures ProviderRowExactly(RefProviderRow(k, SightingsOf(sightings, k)), read)
  {
    var mine := SightingsOf(sightings, k);
    var row := RefProviderRow(k, mine);
    var first := FirstPlace(SIGHTING_KEY, k, sightings, ps, read);
    var latest := LatestPlace(SIGHTING_KEY, k, sightings, ps, read);
    forall v ensures v in SightingIds(mine) <==> exists x :: x in mine && SIGHTING_EVENT(x) == v {
    }
    GathersGroup(SightingIds(mine), SIGHTING_EVENT, SIGHTING_KEY, k, sightings, ps, read);
    assert row.eventCount == |SightingIds(mine)|;
    assert IsFirst(SIGHTING_KEY, row.key, read, first) && IsLatest(SIGHTING_KEY, row.key, read, latest);
  }

  // ---- which keys have rows, and in which order ----

  /** The keys that are read before a place. */
  ghost predicate KeysBefore(keys: set<IdKey>, read: Place -> Option<Item>, first: Place) {
    forall k :: k in keys <==> exists q :: Under(ITEM_KEY, k, read, q) && Precedes(q, first)
  }

  ghost predicate HasIdRow(rows: seq<IdRow>, k: IdKey) { exists row :: row in rows && row.key == k }

  ghost predicate ComesEarly(k: IdKey, read: Place -> Option<Item>) {
    exists first, keys :: IsFirst(ITEM_KEY, k, read, first) && KeysBefore(keys, read, first) && |keys| < 100
  }

  /** A key has a row exactly when it is read and fewer than a hundred keys are read before it. */
  ghost predicate KeysExactly(rows: seq<IdRow>, read: Place -> Option<Item>) {
    forall k :: HasIdRow(rows, k) <==> ComesEarly(k, read)
  }

  lemma KeysBeforeFirst(items: seq<Item>, ps: seq<Place>, read: Place -> Option<Item>, n: nat)
    requires Lists(items, ps, read) && n < |items|
    ensures KeysBefore(Elements(Map(ITEM_KEY, items)[..n]), read, ps[n])
  {
    var ks := Map(ITEM_KEY, items);
    forall k ensures k in Elements(ks[..n]) <==> exists q :: Under(ITEM_KEY, k, read, q) && Precedes(q, ps[n]) {
      if k in Elements(ks[..n]) {
        var m :| 0 <= m < n && ks[m] == k;
        assert Under(ITEM_KEY, k, read, ps[m]);
      }
      if q :| Under(ITEM_KEY, k, read, q) && Precedes(q, ps[n]) {
        var m :| 0 <= m < |ps| && ps[m] == q;
        assert !Precedes(ps[n], q);
        assert ks[..n][m] == k;
      }
    }
  }

  lemma FirstIsUnique<T(!new), K(!new)>(key: T -> K, k: K, read: Place -> Option<T>, p: Place, q: Place)
    requires IsFirst(key, k, read, p) && IsFirst(key, k, read, q)
    ensures p == q
  {
  }

  lemma KeyExactly(items: seq<Item>, ps: seq<Place>, read: Place -> Option<Item>, k: IdKey)
    requires Lists(items, ps, read)
    ensures HasIdRow(RefIdRows(items), k) <==> ComesEarly(k, read)
  {
    if ItemsOf(items, k) != [] {
      var n := FilterFirst(HasKey(ITEM_KEY, k), items);
      KeyAt(items, ps, read, n);
    } else {
      forall row | row in RefIdRows(items) ensures row.key != k {
        var i :| 0 <= i < |RefIdRows(items)| && RefIdRows(items)[i] == row;
        GroupsInhabited(ITEM_KEY, items, i);
      }
      forall p ensures !Under(ITEM_KEY, k, read, p) {
        if Under(ITEM_KEY, k, read, p) {
          MemberHasPlace(ITEM_KEY, k, items, ps, read, read(p).value);
        }
      }
    }
  }

  lemma KeyAt(items: seq<Item>, ps: seq<Place>, read: Place -> Option<Item>, n: nat)
    requires Lists(items, ps, read) && n < |items| && forall m :: 0 <= m < n ==> items[m].key != items[n].key
    ensures HasIdRow(RefIdRows(items), items[n].key) <==> ComesEarly(items[n].key, read)
  {
    var k, before, rows := items[n].key, Elements(Map(ITEM_KEY, items)[..n]), RefIdRows(items);
    RetainedExactlyWhen(items, n);
    KeysBeforeFirst(items, ps, read, n);
    assert IsFirst(ITEM_KEY, k, read, ps[n]) by {
      forall q | Under(ITEM_KEY, k, read, q) ensures ps[n] == q || Precedes(ps[n], q) {
        var m :| 0 <= m < |ps| && ps[m] == q;
        assert m >= n;
      }
    }
    if first, keys :| IsFirst(ITEM_KEY, k, read, first) && KeysBefore(keys, read, first) && |keys| < 100 {
      FirstIsUnique(ITEM_KEY, k, read, first, ps[n]);
      assert keys == before;
    }
    if row :| row in rows && row.key == k {
      var i :| 0 <= i < |rows| && rows[i] == row;
      assert rows[i].key == k;
    }
    if i :| 0 <= i < |rows| && rows[i].key == k {
      assert rows[i] in rows;
    }
  }

  ghost predicate HasProviderRow(rows: seq<ProviderRow>, k: ProviderKey) { exists row :: row in rows && row.key == k }

  /** A provider has a row exactly when it is sighted. */
  ghost predicate ProvidersExactly(rows: seq<ProviderRow>, read: Place -> Option<Sighting>) {
    forall k :: HasProviderRow(rows, k) <==> exists p :: Under(SIGHTING_KEY, k, read, p)
  }

  lemma ProviderExactly(sightings: seq<Sighting>, ps: seq<Place>, read: Place -> Option<Sighting>, k: ProviderKey)
    requires Lists(sightings, ps, read)
    ensures HasProviderRow(RefProviderRows(sightings), k) <==> exists p :: Under(SIGHTING_KEY, k, read, p)
  {
    var ks, rows := ProviderKeys(sightings), RefProviderRows(sightings);
    if row :| row in rows && row.key == k {
      var i :| 0 <= i < |rows| && rows[i] == row;
      GroupsInhabited(SIGHTING_KEY, sightings, i);
      var p := FirstPlace(SIGHTING_KEY, k, sightings, ps, read);
    }
    if p :| Under(SIGHTING_KEY, k, read, p) {
      var n :| 0 <= n < |ps| && ps[n] == p;
      assert Map(SIGHTING_KEY, sightings)[n] == k;
      assert k in ks;
      var i :| 0 <= i < |ks| && ks[i] == k;
      assert rows[i].key == k;
    }
  }

  /** By parameter, then provider, then category, then type. */
  predicate ByIdKey(collate: Collation, a: IdKey, b: IdKey) {
    if a.rawParam != b.rawParam then collate(a.rawParam, b.rawParam)
    else if a.provider != b.provider then collate(a.provider, b.provider)
    else if a.category != b.category then collate(a.category, b.category)
    else collate(a.identifierType, b.identifierType)
  }

  predicate ByProviderKey(collate: Collation, a: ProviderKey, b: ProviderKey) {
    if a.provider != b.provider then collate(a.provider, b.provider) else collate(a.category, b.category)
  }

  ghost predicate IdRowsInOrder(collate: Collation, rows: seq<IdRow>) {
    forall i, j :: 0 <= i < j < |rows| ==> ByIdKey(collate, rows[i].key, rows[j].key)
  }

  ghost predicate ProviderRowsInOrder(collate: Collation, rows: seq<ProviderRow>) {
    forall i, j :: 0 <= i < j < |rows| ==> ByProviderKey(collate, rows[i].key, rows[j].key)
  }

  lemma IdRowsAreOrdered(collate: Collation, items: seq<Item>)
    requires StrictTotal(collate)
    ensures IdRowsInOrder(collate, Sort(IdRowOrder(collate), RefIdRows(items)))
  {
    var less, rows := IdRowOrder(collate), RefIdRows(items);
    IdRowOrderWeak(collate);
    forall i, j | 0 <= i < j < |rows| ensures rows[i] != rows[j] && (less(rows[i], rows[j]) || less(rows[j], rows[i])) {
      IdKeyTotal(collate, rows[i].key, rows[j].key);
    }
    SortIsStrict(less, rows);
    var sorted := Sort(less, rows);
    forall i, j | 0 <= i < j < |sorted| ensures ByIdKey(collate, sorted[i].key, sorted[j].key) {
      assert less(sorted[i], sorted[j]);
    }
  }

  lemma ProviderRowOrderWeak(collate: Collation)
    requires StrictTotal(collate)
    ensures StrictWeak(ProviderRowOrder(collate))
  {
    var less := ProviderRowOrder(collate);
    forall a: ProviderRow, b: ProviderRow, c: ProviderRow | less(a, c) ensures less(a, b) || less(b, c) {
      assert a.key.provider == b.key.provider || collate(a.key.provider, b.key.provider)
             || collate(b.key.provider, a.key.provider);
      assert a.key.category == b.key.category || collate(a.key.category, b.key.category)
             || collate(b.key.category, a.key.category);
    }
    assert Irreflexive(less) && Transitive(less) && Weak(less);
  }

  lemma ProviderRowsAreOrdered(collate: Collation, sightings: seq<Sighting>)
    requires StrictTotal(collate)
    ensures ProviderRowsInOrder(collate, Sort(ProviderRowOrder(collate), RefProviderRows(sightings)))
  {
    var less, rows := ProviderRowOrder(collate), RefProviderRows(sightings);
    ProviderRowOrderWeak(collate);
    forall i, j | 0 <= i < j < |rows| ensures rows[i] != rows[j] && (less(rows[i], rows[j]) || less(rows[j], rows[i])) {
      var a, b := rows[i].key, rows[j].key;
      assert a.provider == b.provider || collate(a.provider, b.provider) || collate(b.provider, a.provider);
      assert a.category == b.category || collate(a.category, b.category) || collate(b.category, a.category);
    }
    SortIsStrict(less, rows);
    var sorted := Sort(less, rows);
    forall i, j | 0 <= i < j < |sorted| ensures ByProviderKey(collate, sorted[i].key, sorted[j].key) {
      assert less(sorted[i], sorted[j]);
    }
  }

  // ---- referrers ----

  ghost predicate IsEarliestText(text: Option<string>, read: Place -> Option<string>) {
    (text.None? && forall p :: read(p).None?)
    || exists p :: read(p) == text && text.Some? && forall q :: read(q).Some? ==> p == q || Precedes(p, q)
  }

  ghost predicate IsLatestText(text: Option<string>, read: Place -> Option<string>) {
    (text.None? && forall p :: read(p).None?)
    || exists p :: read(p) == text && text.Some? && forall q :: read(q).Some? ==> p == q || Precedes(q, p)
  }

  lemma TextsBound(xs: seq<string>, ps: seq<Place>, read: Place -> Option<string>)
    requires Lists(xs, ps, read)
    ensures IsEarliestText(FirstOf(xs), read) && IsLatestText(LastOf(xs), read)
  {
    if xs != [] {
      assert read(ps[0]) == FirstOf(xs);
      assert read(ps[|ps| - 1]) == LastOf(xs);
    }
  }

  /** The texts read before a place are those given. */
  ghost predicate TextsBefore(texts: seq<string>, read: Place -> Option<string>, p: Place) {
    forall t :: t in texts <==> exists q :: read(q) == Some(t) && Precedes(q, p)
  }

  ghost predicate IsNew(texts: seq<string>, i: int, read: Place -> Option<string>)
    requires 0 <= i < |texts|
  {
    texts[i] !in texts[..i] && exists p :: read(p) == Some(texts[i]) && TextsBefore(texts[..i], read, p)
  }

  ghost predicate IsKept(texts: seq<string>, p: Place, read: Place -> Option<string>) {
    read(p).Some? ==> read(p).value in texts
  }

  /** Each text is read where just the ones before it had been read; all are there, or as many as may be. */
  ghost predicate DistinctExactly(texts: seq<string>, read: Place -> Option<string>, cap: nat) {
    && (forall i :: 0 <= i < |texts| ==> IsNew(texts, i, read))
    && ((forall p :: IsKept(texts, p, read)) || |texts| == cap)
  }

  lemma TextsBeforePlace(xs: seq<string>, ps: seq<Place>, read: Place -> Option<string>, n: nat)
    requires Lists(xs, ps, read) && n < |xs|
    ensures TextsBefore(Firsts(xs[..n]), read, ps[n])
  {
    forall t ensures t in xs[..n] <==> exists q :: read(q) == Some(t) && Precedes(q, ps[n]) {
      if t in xs[..n] {
        var m :| 0 <= m < n && xs[m] == t;
        assert read(ps[m]) == Some(t);
      }
      if q :| read(q) == Some(t) && Precedes(q, ps[n]) {
        var m :| 0 <= m < |ps| && ps[m] == q;
        assert !Precedes(ps[n], q);
        assert xs[..n][m] == t;
      }
    }
  }

  lemma FirstsBefore(xs: seq<string>, i: nat) returns (n: nat)
    requires i < |Firsts(xs)|
    ensures n < |xs| && xs[n] == Firsts(xs)[i] && Firsts(xs)[..i] == Firsts(xs[..n])
  {
    var texts := Firsts(xs);
    assert texts[i] in texts;
    n := FirstIndex(xs, texts[i]);
    FirstsRank(xs, n);
    assert texts[|Elements(xs[..n])|] == texts[i];
    FirstsCount(xs[..n]);
    FirstsPrefix(xs, n);
  }

  lemma FirstTextIsNew(xs: seq<string>, ps: seq<Place>, read: Place -> Option<string>, i: nat)
    requires Lists(xs, ps, read) && i < |Firsts(xs)|
    ensures IsNew(Firsts(xs), i, read)
  {
    var n := FirstsBefore(xs, i);
    TextsBeforePlace(xs, ps, read, n);
    assert read(ps[n]) == Some(Firsts(xs)[i]) && TextsBefore(Firsts(xs)[..i], read, ps[n]);
  }

  lemma {:induction false} FirstIndex(xs: seq<string>, x: string) returns (n: nat)
    requires x in xs
    ensures n < |xs| && xs[n] == x && x !in xs[..n]
    decreases |xs|
  {
    var front := xs[..|xs| - 1];
    if x in front {
      n := FirstIndex(front, x);
      assert front[..n] == xs[..n];
    } else {
      n := |front|;
    }
  }

  lemma DistinctTextsExactly(xs: seq<string>, ps: seq<Place>, read: Place -> Option<string>, cap: nat)
    requires Lists(xs, ps, read)
    ensures DistinctExactly(Take(Firsts(xs), cap), read, cap)
    ensures |Firsts(xs)| > cap <==> exists p :: !IsKept(Take(Firsts(xs), cap), p, read)
  {
    var all, texts := Firsts(xs), Take(Firsts(xs), cap);
    forall i | 0 <= i < |texts| ensures IsNew(texts, i, read) {
      FirstTextIsNew(xs, ps, read, i);
      assert texts[..i] == all[..i];
    }
    if |all| > cap {
      assert all[cap] in all;
      var n :| 0 <= n < |xs| && xs[n] == all[cap];
      assert !IsKept(texts, ps[n], read);
    } else {
      assert texts == all;
      forall p ensures IsKept(texts, p, read) {
        if read(p).Some? {
          var n :| 0 <= n < |ps| && ps[n] == p;
          assert xs[n] in xs;
        }
      }
    }
  }

  ghost predicate TextsDiffer(read: Place -> Option<string>) {
    exists p, q :: read(p).Some? && read(q).Some? && read(p) != read(q)
  }

  lemma TextsDifferExactly(xs: seq<string>, ps: seq<Place>, read: Place -> Option<string>)
    requires Lists(xs, ps, read)
    ensures |Firsts(xs)| > 1 <==> TextsDiffer(read)
  {
    if |Firsts(xs)| > 1 {
      TwoTexts(xs, ps, read);
    }
    if p, q :| read(p).Some? && read(q).Some? && read(p) != read(q) {
      var m :| 0 <= m < |ps| && ps[m] == p;
      var n :| 0 <= n < |ps| && ps[n] == q;
      OneTextAtMost(xs, m, n);
    }
  }

  lemma TwoTexts(xs: seq<string>, ps: seq<Place>, read: Place -> Option<string>)
    requires Lists(xs, ps, read) && |Firsts(xs)| > 1
    ensures TextsDiffer(read)
  {
    var x, y := Firsts(xs)[0], Firsts(xs)[1];
    assert x in Firsts(xs) && y in Firsts(xs);
    var m :| 0 <= m < |xs| && xs[m] == x;
    var n :| 0 <= n < |xs| && xs[n] == y;
    assert read(ps[m]) == Some(x) && read(ps[n]) == Some(y);
  }

  lemma OneTextAtMost(xs: seq<string>, m: nat, n: nat)
    requires m < |xs| && n < |xs| && xs[m] != xs[n]
    ensures |Firsts(xs)| > 1
  {
    assert xs[m] in Firsts(xs) && xs[n] in Firsts(xs);
  }

  // ---- flags ----

  ghost predicate NetworksDiffer(rows: seq<ProviderRow>) {
    exists a, b :: a in rows && b in rows && a.key.provider != b.key.provider
                   && a.key.category == "affiliate_network" && b.key.category == "affiliate_network"
  }

  ghost predicate TrackersDiffer(rows: seq<IdRow>) {
    exists a, b :: a in rows && b in rows && a.key.category == "tracker" && b.key.category == "tracker"
                   && (a.key.provider != b.key.provider || a.key.rawParam != b.key.rawParam)
  }

  ghost predicate SeenIn(rows: seq<ProviderRow>, category: string) {
    exists row :: row in rows && row.key.category == category
  }

  ghost predicate SomeChanged(rows: seq<IdRow>) { exists row :: row in rows && row.changed }

  /** Each of the six flags has its own condition. */
  ghost predicate Raised(f: string, providers: seq<ProviderRow>, identifiers: seq<IdRow>, originChanged: bool,
                         missing: bool)
  {
    || (f == "identifier_value_changed" && SomeChanged(identifiers))
    || (f == "multiple_affiliate_networks_observed" && NetworksDiffer(providers))
    || (f == "multiple_trackers_observed" && TrackersDiffer(identifiers))
    || (f == "paid_media_and_affiliate_observed" && SeenIn(providers, "paid_media")
        && SeenIn(providers, "affiliate_network"))
    || (f == "external_referrer_changed" && originChanged)
    || (f == "referrer_missing_observed" && missing)
  }

  ghost predicate FlagsExactly(flags: set<string>, providers: seq<ProviderRow>, identifiers: seq<IdRow>,
                               originChanged: bool, missing: bool)
  {
    forall f :: f in flags <==> Raised(f, providers, identifiers, originChanged, missing)
  }

  lemma {:induction false} TwoElements<T>(s: set<T>)
    ensures |s| > 1 <==> exists a, b :: a in s && b in s && a != b
  {
    if |s| > 1 {
      var a :| a in s;
      assert |s - {a}| > 0;
      var b :| b in s - {a};
      assert a in s && b in s && a != b;
    }
    if a, b :| a in s && b in s && a != b {
      assert {a, b} <= s;
      assert |s| == |{a, b}| + |s - {a, b}|;
    }
  }

  lemma NetworksExactly(rows: seq<ProviderRow>)
    ensures |AffiliateNetworks(rows)| > 1 <==> NetworksDiffer(rows)
  {
    TwoElements(AffiliateNetworks(rows));
    if NetworksDiffer(rows) {
      var a, b :| a in rows && b in rows && a.key.provider != b.key.provider
                  && a.key.category == "affiliate_network" && b.key.category == "affiliate_network";
      assert a.key.provider in AffiliateNetworks(rows) && b.key.provider in AffiliateNetworks(rows);
    }
    if p, q :| p in AffiliateNetworks(rows) && q in AffiliateNetworks(rows) && p != q {
      var a :| a in rows && a.key.category == "affiliate_network" && a.key.provider == p;
      var b :| b in rows && b.key.category == "affiliate_network" && b.key.provider == q;
      assert a.key.provider != b.key.provider;
    }
  }

  lemma TrackersExactly(rows: seq<IdRow>)
    ensures |Trackers(rows)| > 1 <==> TrackersDiffer(rows)
  {
    TwoElements(Trackers(rows));
    if TrackersDiffer(rows) {
      var a, b :| a in rows && b in rows && a.key.category == "tracker" && b.key.category == "tracker"
                  && (a.key.provider != b.key.provider || a.key.rawParam != b.key.rawParam);
      assert (a.key.provider, a.key.rawParam) in Trackers(rows) && (b.key.provider, b.key.rawParam) in Trackers(rows);
    }
    if p, q :| p in Trackers(rows) && q in Trackers(rows) && p != q {
      var a :| a in rows && a.key.category == "tracker" && (a.key.provider, a.key.rawParam) == p;
      var b :| b in rows && b.key.category == "tracker" && (b.key.provider, b.key.rawParam) == q;
      assert a.key.provider != b.key.provider || a.key.rawParam != b.key.rawParam;
    }
  }

  lemma CategoryExactly(rows: seq<ProviderRow>, category: string)
    ensures HasCategory(rows, category) <==> SeenIn(rows, category)
  {
    if i :| 0 <= i < |rows| && rows[i].key.category == category {
      assert rows[i] in rows;
    }
  }

  lemma SomeChangedExactly(rows: seq<IdRow>)
    ensures AnyChanged(rows) <==> SomeChanged(rows)
  {
    if i :| 0 <= i < |rows| && rows[i].changed {
      assert rows[i] in rows;
    }
  }

  lemma FlagIfExactly(f: string, b: bool, flag: string)
    ensures f in FlagIf(b, flag) <==> f == flag && b
  {
  }

  lemma FlagsAreExact(providers: seq<ProviderRow>, identifiers: seq<IdRow>, originChanged: bool, missing: bool)
    ensures FlagsExactly(Flags(providers, identifiers, originChanged, missing), providers, identifiers, originChanged,
                         missing)
  {
    SomeChangedExactly(identifiers);
    NetworksExactly(providers);
    TrackersExactly(identifiers);
    CategoryExactly(providers, "paid_media");
    CategoryExactly(providers, "affiliate_network");
    forall f ensures f in Flags(providers, identifiers, originChanged, missing)
                     <==> Raised(f, providers, identifiers, originChanged, missing)
    {
      FlagIfExactly(f, AnyChanged(identifiers), "identifier_value_changed");
      FlagIfExactly(f, |AffiliateNetworks(providers)| > 1, "multiple_affiliate_networks_observed");
      FlagIfExactly(f, |Trackers(identifiers)| > 1, "multiple_trackers_observed");
      FlagIfExactly(f, HasCategory(providers, "paid_media") && HasCategory(providers, "affiliate_network"),
                    "paid_media_and_affiliate_observed");
      FlagIfExactly(f, originChanged, "external_referrer_changed");
      FlagIfExactly(f, missing, "referrer_missing_observed");
    }
  }

  // ---- the whole summary ----

  /** The input by time, and by identifier among equal times. */
  ghost predicate InTimeOrder(collate: Collation, input: seq<Event>, events: seq<Event>) {
    && multiset(events) == multiset(input)
    && forall i, j :: 0 <= i < j < |events| ==> Earlier(collate, events[i], events[j])
  }

  predicate Earlier(collate: Collation, a: Event, b: Event) {
    a.time < b.time || (a.time == b.time && !collate(b.id, a.id))
  }

  lemma SortedInTimeOrder(collate: Collation, input: seq<Event>)
    requires StrictTotal(collate)
    ensures InTimeOrder(collate, input, Sort(EventOrder(collate), input))
  {
    EventOrderWeak(collate);
    SortSorts(EventOrder(collate), input);
    var events := Sort(EventOrder(collate), input);
    forall i, j | 0 <= i < j < |events| ensures Earlier(collate, events[i], events[j]) {
      assert !EventOrder(collate)(events[j], events[i]);
    }
  }

  ghost predicate IdentifiersExactly(collate: Collation, rows: seq<IdRow>, read: Place -> Option<Item>) {
    && (forall row <- rows :: IdRowExactly(row, read)) && KeysExactly(rows, read) && IdRowsInOrder(collate, rows)
  }

  ghost predicate ProviderPartExactly(collate: Collation, rows: seq<ProviderRow>, read: Place -> Option<Sighting>) {
    && (forall row <- rows :: ProviderRowExactly(row, read)) && ProvidersExactly(rows, read)
    && ProviderRowsInOrder(collate, rows)
  }

  /** The first and the latest client and origin, the first twenty different origins, and whether any two differ. */
  ghost predicate ReferrersExactly(r: Summary, clients: Place -> Option<string>, origins: Place -> Option<string>) {
    && IsEarliestText(r.firstClient, clients) && IsLatestText(r.latestClient, clients)
    && IsEarliestText(r.firstOrigin, origins) && IsLatestText(r.latestOrigin, origins)
    && DistinctExactly(r.origins, origins, 20) && (r.originChanged <==> TextsDiffer(origins))
  }

  /** A part is truncated exactly when something that is read is not in it. */
  ghost predicate TruncationExactly(r: Summary, items: Place -> Option<Item>, origins: Place -> Option<string>,
                                    sourceTruncated: bool)
  {
    && (r.truncation.identifiers <==> exists p :: items(p).Some? && !HasIdRow(r.identifiers, items(p).value.key))
    && (r.truncation.distinctValues <==> exists row :: row in r.identifiers && Overflows(row, items))
    && (r.truncation.origins <==> exists p :: !IsKept(r.origins, p, origins))
    && !r.truncation.flags && r.truncation.events == sourceTruncated
  }

  ghost predicate EventsExactly(r: Summary, events: seq<Event>) {
    && (r.missing <==> exists e :: e in events && IsRead(e) && e.evidence.value.referrer.missing)
    && r.evidenceEvents == |StrictPlaces(events)|
  }

  predicate IsStrict(e: Event) { e.evidence.Some? && e.evidence.value.schema == StrictOne }

  ghost predicate SummaryExactly(collate: Collation, r: Summary, events: seq<Event>, sourceTruncated: bool) {
    var items, origins := Reading(events, ITEM_IN), Reading(events, ORIGIN_IN);
    && IdentifiersExactly(collate, r.identifiers, items)
    && ProviderPartExactly(collate, r.providers, Reading(events, SIGHTING_IN))
    && ReferrersExactly(r, Reading(events, CLIENT_IN), origins)
    && TruncationExactly(r, items, origins, sourceTruncated)
    && EventsExactly(r, events)
    && FlagsExactly(r.flags, r.providers, r.identifiers, r.originChanged, r.missing)
  }

  lemma IdentifiersAreExact(collate: Collation, items: seq<Item>, ps: seq<Place>, read: Place -> Option<Item>)
    requires StrictTotal(collate) && Lists(items, ps, read)
    ensures IdentifiersExactly(collate, Sort(IdRowOrder(collate), RefIdRows(items)), read)
  {
    var rows := Sort(IdRowOrder(collate), RefIdRows(items));
    SortElements(IdRowOrder(collate), RefIdRows(items));
    IdRowsAreOrdered(collate, items);
    forall row | row in rows ensures IdRowExactly(row, read) {
      IdRowAt(items, ps, read, row);
    }
    forall k ensures HasIdRow(rows, k) <==> ComesEarly(k, read) {
      KeyExactly(items, ps, read, k);
      SameIdKeys(RefIdRows(items), rows, k);
    }
  }

  lemma IdRowAt(items: seq<Item>, ps: seq<Place>, read: Place -> Option<Item>, row: IdRow)
    requires Lists(items, ps, read) && row in RefIdRows(items)
    ensures IdRowExactly(row, read)
  {
    var i :| 0 <= i < |RefIdRows(items)| && RefIdRows(items)[i] == row;
    GroupsInhabited(ITEM_KEY, items, i);
    IdRowIsExact(row.key, items, ps, read);
  }

  lemma SameIdKeys(s: seq<IdRow>, t: seq<IdRow>, k: IdKey)
    requires forall row :: row in s <==> row in t
    ensures HasIdRow(s, k) <==> HasIdRow(t, k)
  {
  }

  lemma ProvidersAreExact(collate: Collation, sightings: seq<Sighting>, ps: seq<Place>,
                          read: Place -> Option<Sighting>)
    requires StrictTotal(collate) && Lists(sightings, ps, read)
    ensures ProviderPartExactly(collate, Sort(ProviderRowOrder(collate), RefProviderRows(sightings)), read)
  {
    var rows := Sort(ProviderRowOrder(collate), RefProviderRows(sightings));
    SortElements(ProviderRowOrder(collate), RefProviderRows(sightings));
    ProviderRowsAreOrdered(collate, sightings);
    forall row | row in rows ensures ProviderRowExactly(row, read) {
      ProviderRowAt(sightings, ps, read, row);
    }
    forall k ensures HasProviderRow(rows, k) <==> exists p :: Under(SIGHTING_KEY, k, read, p) {
      ProviderExactly(sightings, ps, read, k);
      SameProviderKeys(RefProviderRows(sightings), rows, k);
    }
  }

  lemma ProviderRowAt(sightings: seq<Sighting>, ps: seq<Place>, read: Place -> Option<Sighting>, row: ProviderRow)
    requires Lists(sightings, ps, read) && row in RefProviderRows(sightings)
    ensures ProviderRowExactly(row, read)
  {
    var i :| 0 <= i < |RefProviderRows(sightings)| && RefProviderRows(sightings)[i] == row;
    GroupsInhabited(SIGHTING_KEY, sightings, i);
    ProviderRowIsExact(row.key, sightings, ps, read);
  }

  lemma SameProviderKeys(s: seq<ProviderRow>, t: seq<ProviderRow>, k: ProviderKey)
    requires forall row :: row in s <==> row in t
    ensures HasProviderRow(s, k) <==> HasProviderRow(t, k)
  {
  }

  lemma KeyLeftOut(items: seq<Item>, ps: seq<Place>, read: Place -> Option<Item>)
    requires Lists(items, ps, read) && |IdKeys(items)| > MAX_IDENTIFIERS
    ensures exists p :: read(p).Some? && !HasIdRow(RefIdRows(items), read(p).value.key)
  {
    var k := IdKeys(items)[MAX_IDENTIFIERS];
    assert k in IdKeys(items);
    var n :| 0 <= n < |items| && Map(ITEM_KEY, items)[n] == k;
    assert read(ps[n]) == Some(items[n]);
    assert !HasIdRow(RefIdRows(items), k);
  }

  lemma KeyKept(items: seq<Item>, k: IdKey)
    requires |IdKeys(items)| <= MAX_IDENTIFIERS && k in IdKeys(items)
    ensures HasIdRow(RefIdRows(items), k)
  {
    var i :| 0 <= i < |IdKeys(items)| && IdKeys(items)[i] == k;
    assert RefIdRows(items)[i] in RefIdRows(items);
  }

  lemma KeysTruncated(items: seq<Item>, ps: seq<Place>, read: Place -> Option<Item>)
    requires Lists(items, ps, read)
    ensures |IdKeys(items)| > MAX_IDENTIFIERS
            <==> exists p :: read(p).Some? && !HasIdRow(RefIdRows(items), read(p).value.key)
  {
    if |IdKeys(items)| > MAX_IDENTIFIERS {
      KeyLeftOut(items, ps, read);
    } else {
      forall p | read(p).Some? ensures HasIdRow(RefIdRows(items), read(p).value.key) {
        var n :| 0 <= n < |ps| && ps[n] == p;
        assert Map(ITEM_KEY, items)[n] in IdKeys(items);
        KeyKept(items, items[n].key);
      }
    }
  }

  ghost predicate Overflows(row: IdRow, read: Place -> Option<Item>) {
    exists values :: Gathers(values, ITEM_VALUE, ITEM_KEY, row.key, read) && |values| > 20
  }

  lemma OverflowsExactly(row: IdRow, items: seq<Item>, ps: seq<Place>, read: Place -> Option<Item>)
    requires Lists(items, ps, read)
    ensures Overflows(row, read) <==> |Values(ItemsOf(items, row.key))| > MAX_DISTINCT_VALUES
  {
    var held := ValuesGathered(row.key, items, ps, read);
    if values :| Gathers(values, ITEM_VALUE, ITEM_KEY, row.key, read) && |values| > 20 {
      assert values == held;
    }
  }

  lemma ValuesTruncated(items: seq<Item>, ps: seq<Place>, read: Place -> Option<Item>)
    requires Lists(items, ps, read)
    ensures ValuesOverflow(items) <==> exists row :: row in RefIdRows(items) && Overflows(row, read)
  {
    var ks, rows := IdKeys(items), RefIdRows(items);
    if i :| 0 <= i < Min(MAX_IDENTIFIERS, |ks|) && |Values(ItemsOf(items, ks[i]))| > MAX_DISTINCT_VALUES {
      OverflowsExactly(rows[i], items, ps, read);
      assert rows[i] in rows;
    }
    if row :| row in rows && Overflows(row, read) {
      var i :| 0 <= i < |rows| && rows[i] == row;
      OverflowsExactly(row, items, ps, read);
      assert |Values(ItemsOf(items, ks[i]))| > MAX_DISTINCT_VALUES;
    }
  }

  function StrictPlaces(events: seq<Event>): set<nat> { set i: nat | i < |events| && IsStrict(events[i]) }

  lemma StrictSnoc(front: seq<Event>, last: Event)
    ensures StrictPlaces(front + [last]) == StrictPlaces(front) + if IsStrict(last) then {|front|} else {}
    ensures |front| !in StrictPlaces(front)
  {
    var all := front + [last];
    forall i: nat ensures i in StrictPlaces(all)
                          <==> i in StrictPlaces(front) || (IsStrict(last) && i == |front|)
    {
      assert i < |front| ==> all[i] == front[i];
    }
  }

  lemma {:induction false} StrictCounted(events: seq<Event>)
    ensures |Filter(IS_STRICT, events)| == |StrictPlaces(events)|
    decreases |events|
  {
    if events != [] {
      var front, last := events[..|events| - 1], events[|events| - 1];
      assert events == front + [last];
      StrictCounted(front);
      StrictSnoc(front, last);
    }
  }

  lemma MissingExactly(events: seq<Event>)
    ensures (exists i :: 0 <= i < |events| && EventMissing(events[i]))
            <==> exists e :: e in events && IsRead(e) && e.evidence.value.referrer.missing
  {
    if i :| 0 <= i < |events| && EventMissing(events[i]) {
      assert events[i] in events && IsRead(events[i]);
    }
    if e :| e in events && IsRead(e) && e.evidence.value.referrer.missing {
      var i :| 0 <= i < |events| && events[i] == e;
      assert EventMissing(events[i]);
    }
  }

  lemma SameIdRows(s: seq<IdRow>, t: seq<IdRow>)
    requires forall row :: row in s <==> row in t
    ensures SomeChanged(s) <==> SomeChanged(t)
    ensures TrackersDiffer(s) <==> TrackersDiffer(t)
  {
  }

  lemma SameProviderRows(s: seq<ProviderRow>, t: seq<ProviderRow>)
    requires forall row :: row in s <==> row in t
    ensures NetworksDiffer(s) <==> NetworksDiffer(t)
    ensures forall c :: SeenIn(s, c) <==> SeenIn(t, c)
  {
  }

  lemma FlagsOfPresented(collate: Collation, providers: seq<ProviderRow>, identifiers: seq<IdRow>, originChanged: bool,
                         missing: bool)
    ensures FlagsExactly(Flags(providers, identifiers, originChanged, missing),
                         Sort(ProviderRowOrder(collate), providers),
                         Sort(IdRowOrder(collate), identifiers), originChanged, missing)
  {
    var ps, ids := Sort(ProviderRowOrder(collate), providers), Sort(IdRowOrder(collate), identifiers);
    SortElements(ProviderRowOrder(collate), providers);
    SortElements(IdRowOrder(collate), identifiers);
    SameProviderRows(providers, ps);
    SameIdRows(identifiers, ids);
    FlagsAreExact(providers, identifiers, originChanged, missing);
    forall f ensures Raised(f, providers, identifiers, originChanged, missing)
                     <==> Raised(f, ps, ids, originChanged, missing)
    {
    }
  }

  lemma TruncationIsExact(collate: Collation, events: seq<Event>, sourceTruncated: bool, ps: seq<Place>, qs: seq<Place>)
    requires Lists(Items(events), ps, Reading(events, ITEM_IN))
             && Lists(Origins(events), qs, Reading(events, ORIGIN_IN))
    ensures TruncationExactly(Presented(collate, RefSummary(events, sourceTruncated)), Reading(events, ITEM_IN),
                              Reading(events, ORIGIN_IN), sourceTruncated)
  {
    var items, read := Items(events), Reading(events, ITEM_IN);
    var rows := Sort(IdRowOrder(collate), RefIdRows(items));
    SortElements(IdRowOrder(collate), RefIdRows(items));
    KeysTruncated(items, ps, read);
    ValuesTruncated(items, ps, read);
    forall k ensures HasIdRow(RefIdRows(items), k) <==> HasIdRow(rows, k) {
      SameIdKeys(RefIdRows(items), rows, k);
    }
    assert (exists row :: row in RefIdRows(items) && Overflows(row, read))
      <==> exists row :: row in rows && Overflows(row, read);
    DistinctTextsExactly(Origins(events), qs, Reading(events, ORIGIN_IN), MAX_ORIGINS);
  }

  lemma ReferrersAreExact(collate: Collation, events: seq<Event>, sourceTruncated: bool, ps: seq<Place>, qs: seq<Place>)
    requires Lists(Clients(events), ps, Reading(events, CLIENT_IN))
    requires Lists(Origins(events), qs, Reading(events, ORIGIN_IN))
    ensures ReferrersExactly(Presented(collate, RefSummary(events, sourceTruncated)), Reading(events, CLIENT_IN),
                             Reading(events, ORIGIN_IN))
  {
    var read := Reading(events, ORIGIN_IN);
    TextsBound(Clients(events), ps, Reading(events, CLIENT_IN));
    TextsBound(Origins(events), qs, read);
    DistinctTextsExactly(Origins(events), qs, read, MAX_ORIGINS);
    TextsDifferExactly(Origins(events), qs, read);
  }

  lemma EventsAreExact(collate: Collation, events: seq<Event>, sourceTruncated: bool)
    ensures EventsExactly(Presented(collate, RefSummary(events, sourceTruncated)), events)
  {
    StrictCounted(events);
    MissingExactly(events);
  }

  lemma FlagsOfSummary(collate: Collation, events: seq<Event>, sourceTruncated: bool)
    ensures var r := Presented(collate, RefSummary(events, sourceTruncated));
            FlagsExactly(r.flags, r.providers, r.identifiers, r.originChanged, r.missing)
  {
    var r := RefSummary(events, sourceTruncated);
    FlagsOfPresented(collate, r.providers, r.identifiers, r.originChanged, r.missing);
  }

  /** The summary is what is read in the input in time order. */
  lemma SummaryIsExact(collate: Collation, input: seq<Event>, sourceTruncated: bool) returns (events: seq<Event>)
    requires StrictTotal(collate)
    ensures InTimeOrder(collate, input, events)
    ensures SummaryExactly(collate, Reference(collate, input, sourceTruncated), events, sourceTruncated)
  {
    events := Sort(EventOrder(collate), input);
    SortedInTimeOrder(collate, input);
    var ps := ItemsListed(events);
    var qs := SightingsListed(events);
    var cs := ClientsListed(events);
    var os := OriginsListed(events);
    IdentifiersAreExact(collate, Items(events), ps, Reading(events, ITEM_IN));
    ProvidersAreExact(collate, Sightings(events), qs, Reading(events, SIGHTING_IN));
    ReferrersAreExact(collate, events, sourceTruncated, cs, os);
    TruncationIsExact(collate, events, sourceTruncated, ps, os);
    EventsAreExact(collate, events, sourceTruncated);
    FlagsOfSummary(collate, events, sourceTruncated);
  }
}
