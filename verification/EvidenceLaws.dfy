/** What the summary of a journey says about its events, and that their order of arrival does not matter. */
module EvidenceLaws {
  import opened Ordering
  import opened Seqs
  import opened Evidence

  ghost predicate DistinctTimesAndIds(events: seq<Event>) {
    forall i, j :: 0 <= i < j < |events| ==> events[i].time != events[j].time || events[i].id != events[j].id
  }

  lemma EventOrderWeak(collate: Collation)
    requires StrictTotal(collate)
    ensures StrictWeak(EventOrder(collate))
  {
    var less := EventOrder(collate);
    forall a: Event ensures !less(a, a) {
      assert !collate(a.id, a.id);
    }
    forall a: Event, b: Event, c: Event | less(a, b) && less(b, c) ensures less(a, c) {
      assert collate(a.id, b.id) && collate(b.id, c.id) ==> collate(a.id, c.id);
    }
    forall a: Event, b: Event, c: Event | less(a, c) ensures less(a, b) || less(b, c) {
      if a.id != b.id {
        assert collate(a.id, b.id) || collate(b.id, a.id);
      }
    }
    assert Irreflexive(less) && Transitive(less) && Weak(less);
  }

  lemma IdRowOrderWeak(collate: Collation)
    requires StrictTotal(collate)
    ensures StrictWeak(IdRowOrder(collate))
  {
    var less := IdRowOrder(collate);
    forall a: IdRow, b: IdRow, c: IdRow | less(a, b) && less(b, c) ensures less(a, c) {
      IdKeyTransitive(collate, a.key, b.key, c.key);
    }
    forall a: IdRow, b: IdRow, c: IdRow | less(a, c) ensures less(a, b) || less(b, c) {
      IdKeyTotal(collate, a.key, b.key);
      IdKeyTotal(collate, b.key, c.key);
      if !less(a, b) && a.key != b.key {
        IdKeyTransitive(collate, b.key, a.key, c.key);
      }
    }
    assert Irreflexive(less) && Transitive(less) && Weak(less);
  }

  lemma IdKeyTotal(collate: Collation, a: IdKey, b: IdKey)
    requires StrictTotal(collate)
    ensures a == b || IdKeyBefore(collate, a, b) || IdKeyBefore(collate, b, a)
  {
    if a.rawParam != b.rawParam {
      assert collate(a.rawParam, b.rawParam) || collate(b.rawParam, a.rawParam);
    } else if a.provider != b.provider {
      assert collate(a.provider, b.provider) || collate(b.provider, a.provider);
    } else if a.category != b.category {
      assert collate(a.category, b.category) || collate(b.category, a.category);
    }
  }

  lemma IdKeyTransitive(collate: Collation, a: IdKey, b: IdKey, c: IdKey)
    requires StrictTotal(collate) && IdKeyBefore(collate, a, b) && IdKeyBefore(collate, b, c)
    ensures IdKeyBefore(collate, a, c)
  {
  }

  /** The identifier rows are those of the retained keys, in the order of their keys. */
  lemma RowsAreInKeyOrder(collate: Collation, input: seq<Event>, sourceTruncated: bool)
    requires StrictTotal(collate)
    ensures var rows := Reference(collate, input, sourceTruncated).identifiers;
            && Sorted(IdRowOrder(collate), rows)
            && multiset(rows) == multiset(RefIdRows(Items(Sort(EventOrder(collate), input))))
  {
    IdRowOrderWeak(collate);
    SortSorts(IdRowOrder(collate), RefIdRows(Items(Sort(EventOrder(collate), input))));
  }

  /** Permuting the input changes nothing when (time, id) pairs are distinct. */
  lemma {:induction false} AggregateIgnoresInputOrder(collate: Collation, s: seq<Event>, t: seq<Event>,
                                                      sourceTruncated: bool)
    requires StrictTotal(collate) && DistinctTimesAndIds(s) && multiset(s) == multiset(t)
    ensures Reference(collate, s, sourceTruncated) == Reference(collate, t, sourceTruncated)
  {
    EventOrderWeak(collate);
    assert Distinct(s);
    forall a, b | a in s && b in s && a != b ensures EventOrder(collate)(a, b) || EventOrder(collate)(b, a) {
      assert a.time != b.time || a.id != b.id;
      if a.time == b.time {
        assert collate(a.id, b.id) || collate(b.id, a.id);
      }
    }
    SortIgnoresInputOrder(EventOrder(collate), s, t);
  }

  lemma ValueOccurs(mine: seq<Item>, value: string)
    ensures value in Values(mine) <==> exists i :: 0 <= i < |mine| && mine[i].value == value
  {
    var vs := Map(ITEM_VALUE, mine);
    if value in Values(mine) {
      var i :| 0 <= i < |vs| && vs[i] == value;
      assert mine[i].value == value;
    }
    if i :| 0 <= i < |mine| && mine[i].value == value {
      assert vs[i] == value;
    }
  }

  /** A key is marked as changed exactly when two observations under it differ in value. */
  lemma ChangedMeansTwoValues(mine: seq<Item>)
    ensures |Values(mine)| > 1 <==> exists a, b :: a in mine && b in mine && a.value != b.value
  {
    if |Values(mine)| > 1 {
      var x, y := Values(mine)[0], Values(mine)[1];
      ValueOccurs(mine, x);
      ValueOccurs(mine, y);
      var i :| 0 <= i < |mine| && mine[i].value == x;
      var j :| 0 <= j < |mine| && mine[j].value == y;
      assert mine[i] in mine && mine[j] in mine;
    }
    if a, b :| a in mine && b in mine && a.value != b.value {
      ValueOccurs(mine, a.value);
      ValueOccurs(mine, b.value);
    }
  }

  /** A key is retained exactly when fewer than a hundred other keys were observed before its first observation. */
  lemma RetainedExactlyWhen(items: seq<Item>, p: nat)
    requires p < |items| && forall q :: 0 <= q < p ==> items[q].key != items[p].key
    ensures (exists i :: 0 <= i < |RefIdRows(items)| && RefIdRows(items)[i].key == items[p].key)
            <==> |Elements(Map(ITEM_KEY, items)[..p])| < MAX_IDENTIFIERS
  {
    var keys, rows := Map(ITEM_KEY, items), RefIdRows(items);
    FirstsRank(keys, p);
    var rank := |Elements(keys[..p])|;
    if rank < MAX_IDENTIFIERS {
      assert rows[rank].key == items[p].key;
    }
    if i :| 0 <= i < |rows| && rows[i].key == items[p].key {
      assert IdKeys(items)[i] == IdKeys(items)[rank];
    }
  }

  const COUNTED: Event -> bool := (e: Event) => Counts(e)

  /**
   * The reported count is the number of counted events exactly when each of these has the very number one as its
   * schema.
   */
  lemma {:induction false} StrictCountExactlyWhen(events: seq<Event>)
    ensures |Filter(IS_STRICT, events)| <= |Filter(COUNTED, events)|
    ensures |Filter(IS_STRICT, events)| == |Filter(COUNTED, events)|
            <==> forall e <- events :: Counts(e) ==> e.evidence.value.schema.StrictOne?
    decreases |events|
  {
    if events != [] {
      var front, last := events[..|events| - 1], events[|events| - 1];
      assert events == front + [last];
      StrictCountExactlyWhen(front);
    }
  }
}
