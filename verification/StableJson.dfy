/**
 * The canonical JSON text of the connector runtime: object keys sorted by code unit, everything
 * else as `JSON.stringify` prints it. The text identifies a value up to the order of object keys.
 */
module StableJson {
  import opened CodeUnits
  import opened Ordering

  /** The decimal text of a finite number: it starts with a digit or a minus sign. */
  type NumberText = t: Text | t != [] && (48 <= t[0] <= 57 || t[0] == 45) && (forall u <- t :: IsNumberUnit(u))
    witness [48]

  predicate IsNumberUnit(u: Unit) { 48 <= u <= 57 || u == 43 || u == 45 || u == 46 || u == 101 }

  /** A JavaScript value; the fields of an object are in insertion order. */
  datatype Json =
    | Undefined
    | Null
    | NonFinite
    | Bool(b: bool)
    | Number(text: NumberText)
    | Str(s: Text)
    | Arr(items: seq<Json>)
    | Obj(fields: seq<Field>)

  datatype Field = Field(key: Text, value: Json)

  const QUOTE: Unit := 34
  const BACKSLASH: Unit := 92
  const COMMA: Unit := 44
  const OPEN_BRACKET: Unit := 91
  const CLOSE_BRACKET: Unit := 93
  const OPEN_BRACE: Unit := 123
  const CLOSE_BRACE: Unit := 125
  const TRUE_TEXT: Text := [116, 114, 117, 101]
  const FALSE_TEXT: Text := [102, 97, 108, 115, 101]
  const NULL_TEXT: Text := [110, 117, 108, 108]

  // ---- strings ----

  function LowerHex(d: int): Unit
    requires 0 <= d < 16
  {
    if d < 10 then 48 + d else 87 + d
  }

  function UnicodeEscape(u: Unit): Text {
    [BACKSLASH, 117, LowerHex(u / 0x1000), LowerHex(u / 0x100 % 16), LowerHex(u / 16 % 16), LowerHex(u % 16)]
  }

  /** What the front of a non-empty string is printed as; a surrogate pair is copied, a lone surrogate escaped. */
  function EscapeHead(s: Text): Text
    requires s != []
  {
    if StartsWithPair(s) then [s[0], s[1]]
    else if IsSurrogate(s[0]) || (s[0] < 32 && s[0] !in {8, 9, 10, 12, 13}) then UnicodeEscape(s[0])
    else if s[0] == QUOTE || s[0] == BACKSLASH then [BACKSLASH, s[0]]
    else if s[0] == 8 then [BACKSLASH, 98]
    else if s[0] == 9 then [BACKSLASH, 116]
    else if s[0] == 10 then [BACKSLASH, 110]
    else if s[0] == 12 then [BACKSLASH, 102]
    else if s[0] == 13 then [BACKSLASH, 114]
    else [s[0]]
  }

  function HeadWidth(s: Text): nat { if StartsWithPair(s) then 2 else 1 }

  function Escape(s: Text): Text
    decreases |s|
  {
    if s == [] then [] else EscapeHead(s) + Escape(s[HeadWidth(s)..])
  }

  function Quoted(s: Text): Text { [QUOTE] + Escape(s) + [QUOTE] }

  // ---- values ----

  /** Code-unit order, the default order of `sort` on strings. */
  predicate KeyLess(a: Text, b: Text)
    decreases |a|
  {
    b != [] && (a == [] || a[0] < b[0] || (a[0] == b[0] && KeyLess(a[1..], b[1..])))
  }

  const FIELD_ORDER: (Field, Field) -> bool := (f: Field, g: Field) => KeyLess(f.key, g.key)

  function SortFields(fields: seq<Field>): (r: seq<Field>)
    ensures forall f :: f in r <==> f in fields
    ensures |r| == |fields|
  {
    var r := Sort(FIELD_ORDER, fields);
    SameElements(r, fields);
    r
  }

  function Print(v: Json): Text
    decreases v
  {
    match v
    case Undefined => NULL_TEXT
    case Null => NULL_TEXT
    case NonFinite => NULL_TEXT
    case Bool(b) => if b then TRUE_TEXT else FALSE_TEXT
    case Number(t) => t
    case Str(s) => Quoted(s)
    case Arr(items) => [OPEN_BRACKET] + PrintItems(v, items) + [CLOSE_BRACKET]
    case Obj(fields) => [OPEN_BRACE] + PrintFields(v, SortFields(fields)) + [CLOSE_BRACE]
  }

  function PrintItems(v: Json, items: seq<Json>): Text
    requires v.Arr? && forall i <- items :: i in v.items
    decreases v, |items|
  {
    if items == [] then [] else
      assert items[0] in v.items;
      Print(items[0]) + if |items| == 1 then [] else [COMMA] + PrintItems(v, items[1..])
  }

  function PrintField(v: Json, f: Field): Text
    requires v.Obj? && f in v.fields
    decreases v, 0
  {
    Quoted(f.key) + [COLON] + Print(f.value)
  }

  function PrintFields(v: Json, fields: seq<Field>): Text
    requires v.Obj? && forall f <- fields :: f in v.fields
    decreases v, |fields|
  {
    if fields == [] then [] else
      PrintField(v, fields[0]) + if |fields| == 1 then [] else [COMMA] + PrintFields(v, fields[1..])
  }

  // ---- equality up to key order ----

  ghost predicate DistinctKeys(fields: seq<Field>) {
    forall i, j :: 0 <= i < j < |fields| ==> fields[i].key != fields[j].key
  }

  /** The keys of an object are distinct, at every depth. */
  ghost predicate Valid(v: Json) {
    match v
    case Arr(items) => forall i <- items :: Valid(i)
    case Obj(fields) => DistinctKeys(fields) && forall f <- fields :: Valid(f.value)
    case _ => true
  }

  predicate Nullish(v: Json) { v.Undefined? || v.Null? || v.NonFinite? }

  /** Equal up to the order of object keys, with undefined and non-finite numbers read as null. */
  ghost predicate Same(a: Json, b: Json)
    decreases a
  {
    match a
    case Arr(items) => b.Arr? && |items| == |b.items| && forall i :: 0 <= i < |items| ==> Same(items[i], b.items[i])
    case Obj(fields) =>
      && b.Obj? && |fields| == |b.fields|
      && forall f <- fields :: exists g :: g in b.fields && f.key == g.key && Same(f.value, g.value)
    case _ => (Nullish(a) && Nullish(b)) || a == b
  }

  // ---- printed strings can be read back in one way ----

  lemma {:induction false} HexDigits(u: Unit, w: Unit)
    requires LowerHex(u / 0x1000) == LowerHex(w / 0x1000) && LowerHex(u / 0x100 % 16) == LowerHex(w / 0x100 % 16)
    requires LowerHex(u / 16 % 16) == LowerHex(w / 16 % 16) && LowerHex(u % 16) == LowerHex(w % 16)
    ensures u == w
  {
    assert u / 16 / 16 == u / 0x100 && u / 0x100 / 16 == u / 0x1000;
    assert w / 16 / 16 == w / 0x100 && w / 0x100 / 16 == w / 0x1000;
  }

  lemma {:induction false} EscapeHeadInjective(s: Text, t: Text)
    requires s != [] && t != [] && EscapeHead(s) == EscapeHead(t)
    ensures HeadWidth(s) == HeadWidth(t) && s[..HeadWidth(s)] == t[..HeadWidth(t)]
  {
    var l, r := EscapeHead(s), EscapeHead(t);
    assert l[0] == r[0];
    if |l| == 6 {
      assert l[2] == r[2] && l[3] == r[3] && l[4] == r[4] && l[5] == r[5];
      HexDigits(s[0], t[0]);
    } else if |l| == 2 {
      assert l[1] == r[1];
    }
  }

  /** An escaped head can be cut off the front of a text in one way only. */
  lemma EscapeHeadPrefix(s: Text, t: Text, x: Text, y: Text)
    requires s != [] && t != [] && x != [] && y != []
    requires EscapeHead(s) + x == EscapeHead(t) + y
    ensures EscapeHead(s) == EscapeHead(t) && x == y
  {
    var whole, n := EscapeHead(s) + x, |EscapeHead(s)|;
    assert EscapeHead(s) == whole[..n] && x == whole[n..];
    assert EscapeHead(t) == whole[..n] && y == whole[n..];
  }

  /** An escaped string, its closing quote and what follows. */
  ghost function Closed(s: Text, x: Text): (t: Text)
    ensures t != []
  {
    Escape(s) + [QUOTE] + x
  }

  lemma ClosedStep(s: Text, x: Text)
    ensures s != [] ==> Closed(s, x) == EscapeHead(s) + Closed(s[HeadWidth(s)..], x)
    ensures s == [] ==> Closed(s, x) == [QUOTE] + x && Closed(s, x)[1..] == x
    ensures Closed(s, x)[0] == QUOTE <==> s == []
  {
  }

  lemma {:induction false} ClosedPrefix(s: Text, t: Text, x: Text, y: Text)
    requires Closed(s, x) == Closed(t, y)
    ensures s == t && x == y
    decreases |s|
  {
    ClosedStep(s, x);
    ClosedStep(t, y);
    if s != [] {
      var s', t' := s[HeadWidth(s)..], t[HeadWidth(t)..];
      EscapeHeadPrefix(s, t, Closed(s', x), Closed(t', y));
      EscapeHeadInjective(s, t);
      ClosedPrefix(s', t', x, y);
      assert s == s[..HeadWidth(s)] + s' && t == t[..HeadWidth(t)] + t';
    }
  }

  lemma QuotedPrefix(s: Text, t: Text, x: Text, y: Text)
    requires Quoted(s) + x == Quoted(t) + y
    ensures s == t && x == y
  {
    var l, r := Quoted(s) + x, Quoted(t) + y;
    assert l[1..] == Closed(s, x) && r[1..] == Closed(t, y);
    ClosedPrefix(s, t, x, y);
  }

  // ---- printed values can be read back in one way ----

  /** What may follow a printed value: nothing, a comma or a closing bracket. */
  predicate Delimited(x: Text) { x == [] || x[0] == COMMA || x[0] == CLOSE_BRACKET || x[0] == CLOSE_BRACE }

  /** The first unit of a printed value tells its kind. */
  lemma FirstUnit(v: Json)
    ensures Print(v) != [] && !Delimited(Print(v))
    ensures Print(v)[0] == 110 <==> Nullish(v)
    ensures Print(v)[0] == 116 <==> v == Bool(true)
    ensures Print(v)[0] == 102 <==> v == Bool(false)
    ensures Print(v)[0] == QUOTE <==> v.Str?
    ensures Print(v)[0] == OPEN_BRACKET <==> v.Arr?
    ensures Print(v)[0] == OPEN_BRACE <==> v.Obj?
  {
  }

  lemma NumberPrefix(a: NumberText, b: NumberText, x: Text, y: Text)
    requires Delimited(x) && Delimited(y) && a + x == b + y
    ensures a == b && x == y
  {
    var whole := a + x;
    assert forall i :: 0 <= i < |a| ==> whole[i] == a[i] && a[i] in a;
    assert forall i :: 0 <= i < |b| ==> whole[i] == b[i] && b[i] in b;
    assert |a| < |whole| ==> whole[|a|] == x[0];
    assert |b| < |whole| ==> whole[|b|] == y[0];
    assert |a| == |b|;
    assert a == whole[..|a|] && x == whole[|a|..] && b == whole[..|a|] && y == whole[|a|..];
  }

  /** The items of an array, its closing bracket and what follows. */
  ghost function ItemsTail(v: Json, items: seq<Json>, x: Text): (t: Text)
    requires v.Arr? && forall i <- items :: i in v.items
    ensures t != []
  {
    PrintItems(v, items) + [CLOSE_BRACKET] + x
  }

  /** What follows the first item. */
  ghost function AfterItem(v: Json, items: seq<Json>, x: Text): (t: Text)
    requires v.Arr? && items != [] && forall i <- items :: i in v.items
    ensures Delimited(t) && t != []
  {
    if |items| == 1 then [CLOSE_BRACKET] + x else [COMMA] + ItemsTail(v, items[1..], x)
  }

  lemma ItemsStep(v: Json, items: seq<Json>, x: Text)
    requires v.Arr? && forall i <- items :: i in v.items
    ensures items == [] ==> ItemsTail(v, items, x) == [CLOSE_BRACKET] + x
    ensures items != [] ==> items[0] in v.items && ItemsTail(v, items, x) == Print(items[0]) + AfterItem(v, items, x)
    ensures ItemsTail(v, items, x)[0] == CLOSE_BRACKET <==> items == []
  {
    if items != [] {
      assert items[0] in v.items;
      FirstUnit(items[0]);
    }
  }

  ghost function FieldsTail(v: Json, fields: seq<Field>, x: Text): (t: Text)
    requires v.Obj? && forall f <- fields :: f in v.fields
    ensures t != []
  {
    PrintFields(v, fields) + [CLOSE_BRACE] + x
  }

  ghost function AfterField(v: Json, fields: seq<Field>, x: Text): (t: Text)
    requires v.Obj? && fields != [] && forall f <- fields :: f in v.fields
    ensures Delimited(t) && t != []
  {
    if |fields| == 1 then [CLOSE_BRACE] + x else [COMMA] + FieldsTail(v, fields[1..], x)
  }

  lemma FieldsStep(v: Json, fields: seq<Field>, x: Text)
    requires v.Obj? && forall f <- fields :: f in v.fields
    ensures fields == [] ==> FieldsTail(v, fields, x) == [CLOSE_BRACE] + x
    ensures fields != [] ==> fields[0] in v.fields
    ensures fields != [] ==>
      FieldsTail(v, fields, x)
      == Quoted(fields[0].key) + ([COLON] + (Print(fields[0].value) + AfterField(v, fields, x)))
    ensures FieldsTail(v, fields, x)[0] == CLOSE_BRACE <==> fields == []
  {
    if fields != [] {
      assert fields[0] in v.fields;
      var key, value, after := Quoted(fields[0].key), Print(fields[0].value), AfterField(v, fields, x);
      FirstField(v, fields, x);
      Regroup(key, [COLON], value, after);
    }
  }

  lemma Regroup(p: Text, q: Text, r: Text, s: Text)
    ensures p + q + r + s == p + (q + (r + s))
    ensures p + q + r + s == p + (q + r + s)
  {
  }

  lemma FirstField(v: Json, fields: seq<Field>, x: Text)
    requires v.Obj? && fields != [] && forall f <- fields :: f in v.fields
    ensures FieldsTail(v, fields, x) == PrintField(v, fields[0]) + AfterField(v, fields, x)
  {
    assert fields[0] in v.fields;
    var rest := if |fields| == 1 then [] else [COMMA] + PrintFields(v, fields[1..]);
    assert PrintFields(v, fields) == PrintField(v, fields[0]) + rest;
    Regroup(PrintField(v, fields[0]), rest, [CLOSE_BRACE], x);
    if |fields| > 1 {
      Regroup([COMMA], PrintFields(v, fields[1..]), [CLOSE_BRACE], x);
    }
  }

  lemma DropFirst(u: Unit, x: Text, y: Text)
    requires [u] + x == [u] + y
    ensures x == y
  {
    assert x == ([u] + x)[1..] && y == ([u] + y)[1..];
  }

  /** A printed value can be cut off the front of a text in one way, up to key order. */
  lemma {:induction false} PrintPrefix(a: Json, b: Json, x: Text, y: Text)
    requires Delimited(x) && Delimited(y) && Print(a) + x == Print(b) + y
    ensures Same(a, b) && x == y
    decreases a
  {
    FirstUnit(a);
    FirstUnit(b);
    assert (Print(a) + x)[0] == Print(a)[0] && (Print(b) + y)[0] == Print(b)[0];
    match a
    case Number(t) => NumberPrefix(t, b.text, x, y);
    case Str(s) => QuotedPrefix(s, b.s, x, y);
    case Arr(_) => ArrayPrefix(a, b, x, y);
    case Obj(_) => ObjectPrefix(a, b, x, y);
    case _ =>
      assert x == (Print(a) + x)[|Print(a)|..] && y == (Print(b) + y)[|Print(b)|..];
  }

  lemma {:induction false} ArrayPrefix(a: Json, b: Json, x: Text, y: Text)
    requires a.Arr? && b.Arr? && Delimited(x) && Delimited(y) && Print(a) + x == Print(b) + y
    ensures Same(a, b) && x == y
    decreases a, |a.items| + 1
  {
    assert Print(a) + x == [OPEN_BRACKET] + ItemsTail(a, a.items, x);
    assert Print(b) + y == [OPEN_BRACKET] + ItemsTail(b, b.items, y);
    DropFirst(OPEN_BRACKET, ItemsTail(a, a.items, x), ItemsTail(b, b.items, y));
    ItemsPrefix(a, a.items, b, b.items, x, y);
  }

  lemma {:induction false} ObjectPrefix(a: Json, b: Json, x: Text, y: Text)
    requires a.Obj? && b.Obj? && Delimited(x) && Delimited(y) && Print(a) + x == Print(b) + y
    ensures Same(a, b) && x == y
    decreases a, |a.fields| + 1
  {
    var fs, gs := SortFields(a.fields), SortFields(b.fields);
    assert Print(a) + x == [OPEN_BRACE] + FieldsTail(a, fs, x);
    assert Print(b) + y == [OPEN_BRACE] + FieldsTail(b, gs, y);
    DropFirst(OPEN_BRACE, FieldsTail(a, fs, x), FieldsTail(b, gs, y));
    FieldsPrefix(a, fs, b, gs, x, y);
    forall f | f in a.fields ensures exists g :: g in b.fields && f.key == g.key && Same(f.value, g.value) {
      var i :| 0 <= i < |fs| && fs[i] == f;
      assert gs[i] in b.fields;
    }
  }

  lemma {:induction false} ItemsPrefix(a: Json, items: seq<Json>, b: Json, items': seq<Json>, x: Text, y: Text)
    requires a.Arr? && b.Arr? && (forall i <- items :: i in a.items) && (forall i <- items' :: i in b.items)
    requires ItemsTail(a, items, x) == ItemsTail(b, items', y)
    requires Delimited(x) && Delimited(y)
    ensures |items| == |items'| && x == y
    ensures forall i :: 0 <= i < |items| ==> Same(items[i], items'[i])
    decreases a, |items|
  {
    ItemsStep(a, items, x);
    ItemsStep(b, items', y);
    if items == [] {
      DropFirst(CLOSE_BRACKET, x, y);
    } else {
      PrintPrefix(items[0], items'[0], AfterItem(a, items, x), AfterItem(b, items', y));
      if |items| == 1 {
        DropFirst(CLOSE_BRACKET, x, y);
      } else {
        DropFirst(COMMA, ItemsTail(a, items[1..], x), ItemsTail(b, items'[1..], y));
        ItemsPrefix(a, items[1..], b, items'[1..], x, y);
        assert forall i :: 1 <= i < |items| ==> items[i] == items[1..][i - 1] && items'[i] == items'[1..][i - 1];
      }
    }
  }

  lemma {:induction false} FieldsPrefix(a: Json, fs: seq<Field>, b: Json, gs: seq<Field>, x: Text, y: Text)
    requires a.Obj? && b.Obj? && (forall f <- fs :: f in a.fields) && (forall g <- gs :: g in b.fields)
    requires FieldsTail(a, fs, x) == FieldsTail(b, gs, y)
    requires Delimited(x) && Delimited(y)
    ensures |fs| == |gs| && x == y
    ensures forall i :: 0 <= i < |fs| ==> fs[i].key == gs[i].key && Same(fs[i].value, gs[i].value)
    decreases a, |fs|
  {
    FieldsStep(a, fs, x);
    FieldsStep(b, gs, y);
    if fs == [] {
      DropFirst(CLOSE_BRACE, x, y);
    } else {
      var l, r := Print(fs[0].value) + AfterField(a, fs, x), Print(gs[0].value) + AfterField(b, gs, y);
      QuotedPrefix(fs[0].key, gs[0].key, [COLON] + l, [COLON] + r);
      DropFirst(COLON, l, r);
      PrintPrefix(fs[0].value, gs[0].value, AfterField(a, fs, x), AfterField(b, gs, y));
      if |fs| == 1 {
        DropFirst(CLOSE_BRACE, x, y);
      } else {
        DropFirst(COMMA, FieldsTail(a, fs[1..], x), FieldsTail(b, gs[1..], y));
        FieldsPrefix(a, fs[1..], b, gs[1..], x, y);
        assert forall i :: 1 <= i < |fs| ==> fs[i] == fs[1..][i - 1] && gs[i] == gs[1..][i - 1];
      }
    }
  }
}
