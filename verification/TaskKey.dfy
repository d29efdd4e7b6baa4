/**
 * The other half of canonicity, and the dedupe key of connector runtime tasks: two plans share a
 * key exactly when their normalised parts agree and their payloads are equal up to key order.
 */
module TaskKey {
  import opened Prelude
  import opened CodeUnits
  import opened Ordering
  import opened StableJson

  // ---- equal values print the same text ----

  lemma {:induction false} KeyLessIrreflexive(a: Text)
    ensures !KeyLess(a, a)
    decreases |a|
  {
    if a != [] { KeyLessIrreflexive(a[1..]); }
  }

  lemma {:induction false} KeyLessTransitive(a: Text, b: Text, c: Text)
    requires KeyLess(a, b) && KeyLess(b, c)
    ensures KeyLess(a, c)
    decreases |a|
  {
    if a != [] && a[0] == b[0] == c[0] { KeyLessTransitive(a[1..], b[1..], c[1..]); }
  }

  lemma {:induction false} KeyLessTotal(a: Text, b: Text)
    ensures a == b || KeyLess(a, b) || KeyLess(b, a)
    decreases |a|
  {
    if a != [] && b != [] && a[0] == b[0] {
      KeyLessTotal(a[1..], b[1..]);
      assert a == [a[0]] + a[1..] && b == [b[0]] + b[1..];
    }
  }

  const KEY_ORDER: (Text, Text) -> bool := (a: Text, b: Text) => KeyLess(a, b)

  lemma KeyOrderTotal()
    ensures StrictTotal(KEY_ORDER) && StrictWeak(FIELD_ORDER)
  {
    forall a: Text ensures !KeyLess(a, a) { KeyLessIrreflexive(a); }
    forall a: Text, b: Text, c: Text | KeyLess(a, b) && KeyLess(b, c) ensures KeyLess(a, c) {
      KeyLessTransitive(a, b, c);
    }
    forall a: Text, b: Text ensures a == b || KeyLess(a, b) || KeyLess(b, a) { KeyLessTotal(a, b); }
  }

  function Keys(fields: seq<Field>): (ks: seq<Text>)
    ensures |ks| == |fields| && forall i :: 0 <= i < |ks| ==> ks[i] == fields[i].key
  {
    seq(|fields|, i requires 0 <= i < |fields| => fields[i].key)
  }

  /** The sorted keys of an object are strictly increasing. */
  lemma SortedKeysStrict(fields: seq<Field>)
    requires DistinctKeys(fields)
    ensures StrictlySorted(KEY_ORDER, Keys(SortFields(fields)))
    ensures DistinctKeys(SortFields(fields))
  {
    KeyOrderTotal();
    assert Separates(FIELD_ORDER, fields) by {
      forall f, g | f in fields && g in fields && f != g ensures KeyLess(f.key, g.key) || KeyLess(g.key, f.key) {
        assert f.key != g.key;
        KeyLessTotal(f.key, g.key);
      }
    }
    SortIsStrict(FIELD_ORDER, fields);
    forall i, j | 0 <= i < j < |fields| ensures SortFields(fields)[i].key != SortFields(fields)[j].key {
      assert FIELD_ORDER(SortFields(fields)[i], SortFields(fields)[j]);
      KeyLessIrreflexive(SortFields(fields)[i].key);
    }
  }

  ghost function KeySet(fields: seq<Field>): set<Text> { set f | f in fields :: f.key }

  lemma {:induction false} DistinctKeyCount(fields: seq<Field>)
    requires DistinctKeys(fields)
    ensures |KeySet(fields)| == |fields|
  {
    if fields != [] {
      DistinctKeyCount(fields[1..]);
      assert KeySet(fields) == KeySet(fields[1..]) + {fields[0].key};
      assert fields[0].key !in KeySet(fields[1..]);
    }
  }

  lemma {:induction false} SubsetOfSameSize<T>(a: set<T>, b: set<T>)
    requires a <= b && |a| == |b|
    ensures a == b
  {
    assert |b - a| == |b| - |a|;
  }

  lemma SameKeySets(a: Json, b: Json)
    requires a.Obj? && b.Obj? && Same(a, b) && DistinctKeys(a.fields) && DistinctKeys(b.fields)
    ensures KeySet(a.fields) == KeySet(b.fields)
  {
    DistinctKeyCount(a.fields);
    DistinctKeyCount(b.fields);
    SubsetOfSameSize(KeySet(a.fields), KeySet(b.fields));
  }

  /** Same objects have the same sorted keys. */
  lemma {:induction false} SameSortedKeys(a: Json, b: Json)
    requires a.Obj? && b.Obj? && Same(a, b) && DistinctKeys(a.fields) && DistinctKeys(b.fields)
    ensures Keys(SortFields(a.fields)) == Keys(SortFields(b.fields))
  {
    SameKeySets(a, b);
    SortedKeysMembers(a.fields);
    SortedKeysMembers(b.fields);
    SortedKeysStrict(a.fields);
    SortedKeysStrict(b.fields);
    KeyOrderTotal();
    StrictlySortedUnique(KEY_ORDER, Keys(SortFields(a.fields)), Keys(SortFields(b.fields)));
  }

  lemma SortedKeysMembers(fields: seq<Field>)
    ensures forall k :: k in Keys(SortFields(fields)) <==> k in KeySet(fields)
  {
    var fs := SortFields(fields);
    forall k ensures k in Keys(fs) <==> k in KeySet(fields) {
      if k in Keys(fs) {
        var i :| 0 <= i < |fs| && fs[i].key == k;
        assert fs[i] in fields;
      }
      if k in KeySet(fields) {
        var f :| f in fields && f.key == k;
        assert f in fs;
        var i :| 0 <= i < |fs| && fs[i] == f;
        assert Keys(fs)[i] == k;
      }
    }
  }

  lemma {:induction false} SamePrints(a: Json, b: Json)
    requires Valid(a) && Valid(b) && Same(a, b)
    ensures Print(a) == Print(b)
    decreases a
  {
    match a
    case Arr(items) => SameItems(a, items, b, b.items);
    case Obj(fields) =>
      var fs, gs := SortFields(fields), SortFields(b.fields);
      SameSortedKeys(a, b);
      SortedKeysStrict(b.fields);
      forall i | 0 <= i < |fs| ensures fs[i].key == gs[i].key && Same(fs[i].value, gs[i].value) {
        assert Keys(fs)[i] == Keys(gs)[i];
        assert fs[i] in fields;
        var g :| g in b.fields && fs[i].key == g.key && Same(fs[i].value, g.value);
        assert g in gs;
        var j :| 0 <= j < |gs| && gs[j] == g;
        assert i == j;
      }
      SameFields(a, fs, b, gs);
    case _ =>
  }

  lemma {:induction false} SameItems(a: Json, items: seq<Json>, b: Json, items': seq<Json>)
    requires a.Arr? && b.Arr? && Valid(a) && Valid(b)
    requires (forall i <- items :: i in a.items) && (forall i <- items' :: i in b.items)
    requires |items| == |items'| && forall i :: 0 <= i < |items| ==> Same(items[i], items'[i])
    ensures PrintItems(a, items) == PrintItems(b, items')
    decreases a, |items|
  {
    if items != [] {
      assert items[0] in a.items && items'[0] in b.items;
      SamePrints(items[0], items'[0]);
      SameItems(a, items[1..], b, items'[1..]);
    }
  }

  lemma {:induction false} SameFields(a: Json, fs: seq<Field>, b: Json, gs: seq<Field>)
    requires a.Obj? && b.Obj? && Valid(a) && Valid(b)
    requires (forall f <- fs :: f in a.fields) && (forall g <- gs :: g in b.fields)
    requires |fs| == |gs| && forall i :: 0 <= i < |fs| ==> fs[i].key == gs[i].key && Same(fs[i].value, gs[i].value)
    ensures PrintFields(a, fs) == PrintFields(b, gs)
    decreases a, |fs|
  {
    if fs != [] {
      assert fs[0] in a.fields && gs[0] in b.fields;
      SamePrints(fs[0].value, gs[0].value);
      SameFields(a, fs[1..], b, gs[1..]);
    }
  }

  /** The canonical text identifies a value exactly up to the order of object keys. */
  lemma {:induction false} PrintIsCanonical(a: Json, b: Json)
    requires Valid(a) && Valid(b)
    ensures Print(a) == Print(b) <==> Same(a, b)
  {
    if Same(a, b) {
      SamePrints(a, b);
    }
    if Print(a) == Print(b) {
      PrintPrefix(a, b, [], []);
    }
  }

  // ---- printed values are well-formed ----

  lemma WellFormedConcat(s: Text, t: Text)
    requires WellFormed(s) && WellFormed(t)
    ensures WellFormed(s + t)
  {
    forall i | 0 <= i < |s + t| ensures PairedAt(s + t, i) {
      if i < |s| {
        assert PairedAt(s, i);
      } else {
        assert PairedAt(t, i - |s|);
      }
    }
  }

  lemma PlainIsWellFormed(s: Text)
    requires forall u <- s :: !IsSurrogate(u)
    ensures WellFormed(s)
  {
  }

  lemma {:induction false} EscapeWellFormed(s: Text)
    ensures WellFormed(Escape(s))
    decreases |s|
  {
    if s != [] {
      assert WellFormed(EscapeHead(s));
      EscapeWellFormed(s[HeadWidth(s)..]);
      WellFormedConcat(EscapeHead(s), Escape(s[HeadWidth(s)..]));
    }
  }

  lemma QuotedWellFormed(s: Text)
    ensures WellFormed(Quoted(s))
  {
    EscapeWellFormed(s);
    PlainIsWellFormed([QUOTE]);
    WellFormedConcat([QUOTE], Escape(s));
    WellFormedConcat([QUOTE] + Escape(s), [QUOTE]);
  }

  lemma Enclosed(open: Unit, s: Text, close: Unit)
    requires !IsSurrogate(open) && !IsSurrogate(close) && WellFormed(s)
    ensures WellFormed([open] + s + [close])
  {
    PlainIsWellFormed([open]);
    PlainIsWellFormed([close]);
    WellFormedConcat([open], s);
    WellFormedConcat([open] + s, [close]);
  }

  lemma CommaSeparated(s: Text, t: Text)
    requires WellFormed(s) && WellFormed(t)
    ensures WellFormed(s + ([COMMA] + t))
  {
    PlainIsWellFormed([COMMA]);
    WellFormedConcat([COMMA], t);
    WellFormedConcat(s, [COMMA] + t);
  }

  /** Lone surrogates are escaped, so the canonical text never makes `encodeURIComponent` throw. */
  lemma {:induction false} PrintWellFormed(v: Json)
    ensures WellFormed(Print(v))
    decreases v
  {
    match v
    case Str(s) => QuotedWellFormed(s);
    case Arr(items) =>
      ItemsWellFormed(v, items);
      Enclosed(OPEN_BRACKET, PrintItems(v, items), CLOSE_BRACKET);
    case Obj(fields) =>
      FieldsWellFormed(v, SortFields(fields));
      Enclosed(OPEN_BRACE, PrintFields(v, SortFields(fields)), CLOSE_BRACE);
    case _ => PlainIsWellFormed(Print(v));
  }

  lemma {:induction false} ItemsWellFormed(v: Json, items: seq<Json>)
    requires v.Arr? && forall i <- items :: i in v.items
    ensures WellFormed(PrintItems(v, items))
    decreases v, |items|
  {
    if items != [] {
      assert items[0] in v.items;
      PrintWellFormed(items[0]);
      if |items| > 1 {
        ItemsWellFormed(v, items[1..]);
        CommaSeparated(Print(items[0]), PrintItems(v, items[1..]));
      } else {
        assert PrintItems(v, items) == Print(items[0]);
      }
    }
  }

  lemma {:induction false} FieldsWellFormed(v: Json, fields: seq<Field>)
    requires v.Obj? && forall f <- fields :: f in v.fields
    ensures WellFormed(PrintFields(v, fields))
    decreases v, |fields|
  {
    if fields != [] {
      assert fields[0] in v.fields;
      var key, value := Quoted(fields[0].key), Print(fields[0].value);
      QuotedWellFormed(fields[0].key);
      PrintWellFormed(fields[0].value);
      PlainIsWellFormed([COLON]);
      WellFormedConcat(key, [COLON]);
      WellFormedConcat(key + [COLON], value);
      if |fields| > 1 {
        FieldsWellFormed(v, fields[1..]);
        CommaSeparated(key + [COLON] + value, PrintFields(v, fields[1..]));
      } else {
        assert PrintFields(v, fields) == key + [COLON] + value;
      }
    }
  }

  // ---- the dedupe key ----

  /** The text of a JavaScript number. */
  type PageText = t: Text | t != [] && forall u <- t :: u < 128 witness [48]

  datatype Page = NoPage | NotANumber | PageNumber(text: PageText)

  datatype TaskPlan = TaskPlan(taskType: Text, phase: Option<Text>, cursor: Option<Text>, page: Page,
                               payload: Option<seq<Field>>)

  function CleanText(t: Option<Text>): Text { if t.None? then [] else Trim(t.value) }

  function PageKey(page: Page): Text {
    match page
    case NoPage => []
    case NotANumber => [48]
    case PageNumber(t) => t
  }

  function Payload(plan: TaskPlan): Json { Obj(if plan.payload.None? then [] else plan.payload.value) }

  function KeyParts(plan: TaskPlan): (parts: seq<Text>)
    ensures |parts| == 5
  {
    [Trim(plan.taskType), CleanText(plan.phase), CleanText(plan.cursor), PageKey(plan.page), Print(Payload(plan))]
  }

  function JoinEncoded(parts: seq<Text>): Result<Text, UriError>
    requires parts != []
  {
    match EncodeComponent(parts[0])
    case Failure(e) => Failure(e)
    case Success(head) =>
      if |parts| == 1 then Success(head) else
        match JoinEncoded(parts[1..])
        case Failure(e) => Failure(e)
        case Success(rest) => Success(head + [COLON] + rest)
  }

  function DedupeKey(plan: TaskPlan): Result<Text, UriError> { JoinEncoded(KeyParts(plan)) }

  lemma {:induction false} ColonSplit(a: Text, b: Text, x: Text, y: Text)
    requires COLON !in a && COLON !in b && a + [COLON] + x == b + [COLON] + y
    ensures a == b && x == y
  {
    var whole := a + [COLON] + x;
    assert whole[|a|] == COLON && (b + [COLON] + y)[|b|] == COLON;
    assert forall i :: 0 <= i < |a| ==> whole[i] == a[i] && a[i] in a;
    assert forall i :: 0 <= i < |b| ==> (b + [COLON] + y)[i] == b[i] && b[i] in b;
    assert |a| == |b|;
    assert a == whole[..|a|] && x == whole[|a| + 1..] && b == whole[..|a|] && y == whole[|a| + 1..];
  }

  /** Joining percent-encoded parts with colons loses nothing. */
  lemma {:induction false} JoinInjective(s: seq<Text>, t: seq<Text>)
    requires |s| == |t| && s != [] && JoinEncoded(s).Success? && JoinEncoded(s) == JoinEncoded(t)
    ensures s == t
    decreases |s|
  {
    EncodeHasNoColon(s[0]);
    EncodeHasNoColon(t[0]);
    if |s| > 1 {
      ColonSplit(EncodeComponent(s[0]).value, EncodeComponent(t[0]).value, JoinEncoded(s[1..]).value,
                 JoinEncoded(t[1..]).value);
      JoinInjective(s[1..], t[1..]);
    }
    EncodeInjective(s[0], t[0]);
    assert s == [s[0]] + s[1..] && t == [t[0]] + t[1..];
  }

  /**
   * Two plans get the same key exactly when their normalised task type, phase, cursor and page
   * agree and their payloads are equal up to the order of object keys.
   */
  lemma {:induction false} SameKeyExactlyWhen(p: TaskPlan, q: TaskPlan)
    requires Valid(Payload(p)) && Valid(Payload(q))
    requires DedupeKey(p).Success? && DedupeKey(q).Success?
    ensures DedupeKey(p) == DedupeKey(q) <==>
            && Trim(p.taskType) == Trim(q.taskType) && CleanText(p.phase) == CleanText(q.phase)
            && CleanText(p.cursor) == CleanText(q.cursor) && PageKey(p.page) == PageKey(q.page)
            && Same(Payload(p), Payload(q))
  {
    PrintIsCanonical(Payload(p), Payload(q));
    var s, t := KeyParts(p), KeyParts(q);
    if DedupeKey(p) == DedupeKey(q) {
      JoinInjective(s, t);
      assert s[0] == t[0] && s[1] == t[1] && s[2] == t[2] && s[3] == t[3] && s[4] == t[4];
    }
  }

  lemma {:induction false} JoinSucceeds(parts: seq<Text>)
    requires parts != []
    ensures JoinEncoded(parts).Success? <==> forall i :: 0 <= i < |parts| ==> WellFormed(parts[i])
    decreases |parts|
  {
    EncodesExactlyWellFormed(parts[0]);
    if |parts| > 1 {
      JoinSucceeds(parts[1..]);
      assert forall i :: 1 <= i < |parts| ==> parts[i] == parts[1..][i - 1];
    }
  }

  /**
   * The key is refused exactly when the task type, phase or cursor holds a lone surrogate; the payload never is the
   * reason.
   */
  lemma KeyRefusedExactlyWhen(plan: TaskPlan)
    ensures DedupeKey(plan).Failure? <==>
            !(WellFormed(Trim(plan.taskType)) && WellFormed(CleanText(plan.phase))
              && WellFormed(CleanText(plan.cursor)))
  {
    LastPartsWellFormed(plan);
    JoinSucceeds(KeyParts(plan));
    FiveWellFormed(KeyParts(plan));
  }

  lemma LastPartsWellFormed(plan: TaskPlan)
    ensures var parts := KeyParts(plan);
            && parts[0] == Trim(plan.taskType) && parts[1] == CleanText(plan.phase)
            && parts[2] == CleanText(plan.cursor)
            && WellFormed(parts[3]) && WellFormed(parts[4])
  {
    PrintWellFormed(Payload(plan));
    PlainIsWellFormed(PageKey(plan.page));
  }

  lemma FiveWellFormed(parts: seq<Text>)
    requires |parts| == 5
    ensures (forall i :: 0 <= i < |parts| ==> WellFormed(parts[i])) <==>
            WellFormed(parts[0]) && WellFormed(parts[1]) && WellFormed(parts[2]) && WellFormed(parts[3])
            && WellFormed(parts[4])
  {
  }
}
