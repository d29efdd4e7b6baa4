/**
 * Canonical texts read back by the grammar of RFC 8259: what `stableJson` prints is JSON for the value, with its
 * nullish parts read as null and the keys of its objects in order.
 */
module JsonReading {
  import opened Prelude
  import opened CodeUnits
  import opened StableJson

  // ---- strings, section 7 ----

  datatype Read<T> = Read(value: T, rest: Text)

  function HexDigit(u: Unit): Option<nat> {
    if '0' as int <= u <= '9' as int then Some(u - '0' as int)
    else if 'a' as int <= u <= 'f' as int then Some(u - 'a' as int + 10)
    else if 'A' as int <= u <= 'F' as int then Some(u - 'A' as int + 10)
    else None
  }

  predicate AreHexDigits(t: Text) { forall u <- t :: HexDigit(u).Some? }

  function HexValue(t: Text): nat
    requires AreHexDigits(t)
  {
    if t == [] then 0
    else
      assert t[|t| - 1] in t;
      HexValue(t[..|t| - 1]) * 16 + HexDigit(t[|t| - 1]).value
  }

  /** The unit that a backslash and the given unit stand for. */
  function Unescaped(u: Unit): Option<Unit> {
    if u == '"' as int || u == '\\' as int || u == '/' as int then Some(u)
    else if u == 'b' as int then Some(8)
    else if u == 't' as int then Some(9)
    else if u == 'n' as int then Some(10)
    else if u == 'f' as int then Some(12)
    else if u == 'r' as int then Some(13)
    else None
  }

  /** The unit at the front of a string, and how much of the text it takes. */
  function UnitAt(t: Text): (r: Option<(Unit, nat)>)
    ensures r.Some? ==> 1 <= r.value.1 <= |t|
  {
    if t == [] || t[0] < 32 || t[0] == '"' as int then None
    else if t[0] != '\\' as int then Some((t[0], 1))
    else if |t| >= 2 && Unescaped(t[1]).Some? then Some((Unescaped(t[1]).value, 2))
    else if |t| >= 6 && t[1] == 'u' as int && AreHexDigits(t[2..6]) && HexValue(t[2..6]) < 0x10000 then
      Some((HexValue(t[2..6]), 6))
    else None
  }

  /** The units of a string up to its closing quote. */
  function ReadUnits(t: Text): (r: Option<Read<Text>>)
    ensures r.Some? ==> |r.value.rest| < |t|
    decreases |t|
  {
    if t != [] && t[0] == '"' as int then Some(Read([], t[1..]))
    else
      match UnitAt(t)
      case None => None
      case Some(u) =>
        match ReadUnits(t[u.1..])
        case None => None
        case Some(r) => Some(Read([u.0] + r.value, r.rest))
  }

  lemma HexReads(u: Unit)
    ensures var t := UnicodeEscape(u)[2..6]; AreHexDigits(t) && HexValue(t) == u
  {
    var t := UnicodeEscape(u)[2..6];
    var a, b, c, d := u / 0x1000, u / 0x100 % 16, u / 16 % 16, u % 16;
    FourDigits(LowerHex(a), LowerHex(b), LowerHex(c), LowerHex(d));
    assert t == [LowerHex(a), LowerHex(b), LowerHex(c), LowerHex(d)];
    Sixteens(u);
  }

  lemma Sixteens(u: Unit)
    ensures ((u / 0x1000 * 16 + u / 0x100 % 16) * 16 + u / 16 % 16) * 16 + u % 16 == u
  {
    assert u / 16 / 16 == u / 0x100 && u / 0x100 / 16 == u / 0x1000;
  }

  lemma FourDigits(a: Unit, b: Unit, c: Unit, d: Unit)
    requires HexDigit(a).Some? && HexDigit(b).Some? && HexDigit(c).Some? && HexDigit(d).Some?
    ensures AreHexDigits([a, b, c, d])
    ensures HexValue([a, b, c, d])
            == ((HexDigit(a).value * 16 + HexDigit(b).value) * 16 + HexDigit(c).value) * 16 + HexDigit(d).value
  {
    HexSnoc([], a);
    HexSnoc([a], b);
    HexSnoc([a, b], c);
    HexSnoc([a, b, c], d);
    assert [a, b, c] + [d] == [a, b, c, d] && [a, b] + [c] == [a, b, c] && [a] + [b] == [a, b] && [] + [a] == [a];
  }

  lemma HexSnoc(t: Text, u: Unit)
    requires AreHexDigits(t) && HexDigit(u).Some?
    ensures AreHexDigits(t + [u]) && HexValue(t + [u]) == HexValue(t) * 16 + HexDigit(u).value
  {
    assert (t + [u])[..|t|] == t;
  }

  /** The front of an escaped string is read as the unit it was printed for, or the first of the pair. */
  lemma HeadReads(s: Text, x: Text)
    requires s != [] && !StartsWithPair(s)
    ensures UnitAt(EscapeHead(s) + x) == Some((s[0], |EscapeHead(s)|))
    ensures EscapeHead(s)[0] != '"' as int && |EscapeHead(s)| >= 1
  {
    if |EscapeHead(s)| == 6 {
      HexReads(s[0]);
      assert (EscapeHead(s) + x)[2..6] == UnicodeEscape(s[0])[2..6];
    }
  }

  /** Nothing is escaped that need not be: no shorter text is read as the unit, lone surrogates aside. */
  lemma EscapesAreShortest(s: Text, t: Text)
    requires s != [] && !IsSurrogate(s[0]) && UnitAt(t).Some? && UnitAt(t).value.0 == s[0]
    ensures |EscapeHead(s)| <= UnitAt(t).value.1
  {
  }

  lemma OneMoreUnit(head: Text, u: Unit, x: Text)
    requires head != [] && head[0] != '"' as int && UnitAt(head + x) == Some((u, |head|)) && ReadUnits(x).Some?
    ensures ReadUnits(head + x) == Some(Read([u] + ReadUnits(x).value.value, ReadUnits(x).value.rest))
  {
    assert (head + x)[|head|..] == x;
  }

  lemma {:induction false} ClosedReads(s: Text, x: Text)
    ensures ReadUnits(Closed(s, x)) == Some(Read(s, x))
    decreases |s|
  {
    ClosedStep(s, x);
    if s != [] {
      var w := HeadWidth(s);
      var rest := Closed(s[w..], x);
      ClosedReads(s[w..], x);
      assert s == s[..w] + s[w..];
      if w == 1 {
        HeadReads(s, rest);
        OneMoreUnit(EscapeHead(s), s[0], rest);
        assert s[..1] == [s[0]];
      } else {
        PairReads(s[0], s[1], rest);
        assert s[..2] == [s[0], s[1]];
      }
    }
  }

  lemma PlainReads(u: Unit, x: Text)
    requires u >= 32 && u != '"' as int && u != '\\' as int && ReadUnits(x).Some?
    ensures ReadUnits([u] + x) == Some(Read([u] + ReadUnits(x).value.value, ReadUnits(x).value.rest))
  {
    OneMoreUnit([u], u, x);
  }

  lemma PairReads(high: Unit, low: Unit, x: Text)
    requires IsHighSurrogate(high) && IsLowSurrogate(low) && ReadUnits(x).Some?
    ensures ReadUnits([high, low] + x) == Some(Read([high, low] + ReadUnits(x).value.value, ReadUnits(x).value.rest))
  {
    var r := ReadUnits(x).value;
    PlainReads(low, x);
    PlainReads(high, [low] + x);
    JoinTwo(high, low, x);
    JoinTwo(high, low, r.value);
  }

  lemma JoinTwo(u: Unit, w: Unit, x: Text)
    ensures [u, w] + x == [u] + ([w] + x)
  {
  }

  // ---- values, sections 2 to 6 ----

  const NULL_WORD: Text := ['n' as int, 'u' as int, 'l' as int, 'l' as int]
  const TRUE_WORD: Text := ['t' as int, 'r' as int, 'u' as int, 'e' as int]
  const FALSE_WORD: Text := ['f' as int, 'a' as int, 'l' as int, 's' as int, 'e' as int]

  predicate InNumber(u: Unit) {
    '0' as int <= u <= '9' as int || u == '-' as int || u == '+' as int || u == '.' as int || u == 'e' as int
  }

  /** How many units at the front may belong to a number. */
  function NumberLength(t: Text): (n: nat)
    ensures n <= |t| && forall u <- t[..n] :: InNumber(u)
  {
    if t == [] || !InNumber(t[0]) then 0
    else
      var n := NumberLength(t[1..]);
      assert t[..n + 1] == [t[0]] + t[1..][..n];
      n + 1
  }

  function ReadNumber(t: Text): (r: Option<Read<Json>>)
    ensures r.Some? ==> |r.value.rest| < |t|
  {
    var n := NumberLength(t);
    if n > 0 && ('0' as int <= t[0] <= '9' as int || t[0] == '-' as int) then
      assert t[..n][0] == t[0];
      Some(Read(Number(t[..n]), t[n..]))
    else None
  }

  function ReadWord(t: Text): (r: Option<Read<Json>>)
    ensures r.Some? ==> |r.value.rest| < |t|
  {
    if NULL_WORD <= t then Some(Read(Null, t[4..]))
    else if TRUE_WORD <= t then Some(Read(Bool(true), t[4..]))
    else if FALSE_WORD <= t then Some(Read(Bool(false), t[5..]))
    else None
  }

  function ReadValue(t: Text): (r: Option<Read<Json>>)
    ensures r.Some? ==> |r.value.rest| < |t|
    decreases |t|, 0
  {
    if t == [] then None
    else if t[0] == '"' as int then
      match ReadUnits(t[1..])
      case None => None
      case Some(r) => Some(Read(Str(r.value), r.rest))
    else if t[0] == '[' as int then
      if |t| > 1 && t[1] == ']' as int then Some(Read(Arr([]), t[2..]))
      else
        match ReadItems(t[1..])
        case None => None
        case Some(r) => Some(Read(Arr(r.value), r.rest))
    else if t[0] == '{' as int then
      if |t| > 1 && t[1] == '}' as int then Some(Read(Obj([]), t[2..]))
      else
        match ReadFields(t[1..])
        case None => None
        case Some(r) => Some(Read(Obj(r.value), r.rest))
    else if ReadWord(t).Some? then ReadWord(t)
    else ReadNumber(t)
  }

  /** One value or more with commas between them, and the closing bracket. */
  function ReadItems(t: Text): (r: Option<Read<seq<Json>>>)
    ensures r.Some? ==> |r.value.rest| < |t|
    decreases |t|, 1
  {
    match ReadValue(t)
    case None => None
    case Some(r) =>
      if r.rest == [] then None
      else if r.rest[0] == ']' as int then Some(Read([r.value], r.rest[1..]))
      else if r.rest[0] != ',' as int then None
      else
        match ReadItems(r.rest[1..])
        case None => None
        case Some(more) => Some(Read([r.value] + more.value, more.rest))
  }

  /** One quoted key with its value behind a colon. */
  function ReadField(t: Text): (r: Option<Read<Field>>)
    ensures r.Some? ==> |r.value.rest| < |t|
    decreases |t|, 1
  {
    if t == [] || t[0] != '"' as int then None
    else
      match ReadUnits(t[1..])
      case None => None
      case Some(key) =>
        if key.rest == [] || key.rest[0] != ':' as int then None
        else
          match ReadValue(key.rest[1..])
          case None => None
          case Some(r) => Some(Read(Field(key.value, r.value), r.rest))
  }

  function ReadFields(t: Text): (r: Option<Read<seq<Field>>>)
    ensures r.Some? ==> |r.value.rest| < |t|
    decreases |t|, 2
  {
    match ReadField(t)
    case None => None
    case Some(r) =>
      if r.rest == [] then None
      else if r.rest[0] == '}' as int then Some(Read([r.value], r.rest[1..]))
      else if r.rest[0] != ',' as int then None
      else
        match ReadFields(r.rest[1..])
        case None => None
        case Some(more) => Some(Read([r.value] + more.value, more.rest))
  }

  // ---- what a printed value is read as ----

  /** The value with its nullish parts null and the fields of its objects in the order of their keys. */
  function Canon(v: Json): Json
    decreases v
  {
    match v
    case Undefined => Null
    case NonFinite => Null
    case Arr(items) => Arr(CanonItems(v, items))
    case Obj(fields) => Obj(CanonFields(v, SortFields(fields)))
    case _ => v
  }

  function CanonItems(v: Json, items: seq<Json>): seq<Json>
    requires v.Arr? && forall i <- items :: i in v.items
    decreases v, |items|
  {
    if items == [] then []
    else
      assert items[0] in v.items;
      [Canon(items[0])] + CanonItems(v, items[1..])
  }

  function CanonFields(v: Json, fields: seq<Field>): seq<Field>
    requires v.Obj? && forall f <- fields :: f in v.fields
    decreases v, |fields|
  {
    if fields == [] then []
    else
      assert fields[0] in v.fields;
      [Field(fields[0].key, Canon(fields[0].value))] + CanonFields(v, fields[1..])
  }

  ghost predicate Reads(v: Json, x: Text) { ReadValue(Print(v) + x) == Some(Read(Canon(v), x)) }

  lemma WordReads(v: Json, x: Text)
    requires Nullish(v) || v.Bool?
    ensures Reads(v, x)
  {
    var t := Print(v) + x;
    assert NULL_WORD == NULL_TEXT && TRUE_WORD == TRUE_TEXT && FALSE_WORD == FALSE_TEXT;
    assert t[..|Print(v)|] == Print(v) && t[|Print(v)|..] == x;
    if v.Bool? {
      assert t[0] != 'n' as int && (!v.b ==> t[0] != 't' as int);
    }
  }

  lemma {:induction false} NumberReads(v: Json, x: Text)
    requires v.Number? && Delimited(x)
    ensures Reads(v, x)
  {
    var t := v.text + x;
    LengthOfNumber(v.text, x);
    assert t[..|v.text|] == v.text && t[|v.text|..] == x && t[0] == v.text[0];
    assert NULL_WORD[0] == 'n' as int && TRUE_WORD[0] == 't' as int && FALSE_WORD[0] == 'f' as int;
  }

  lemma {:induction false} LengthOfNumber(n: Text, x: Text)
    requires Delimited(x) && forall u <- n :: IsNumberUnit(u)
    ensures NumberLength(n + x) == |n|
    decreases |n|
  {
    if n == [] {
      assert n + x == x;
    } else {
      assert n[0] in n;
      LengthOfNumber(n[1..], x);
      assert (n + x)[1..] == n[1..] + x;
    }
  }

  lemma QuotedStep(s: Text, x: Text)
    ensures Quoted(s) + x != [] && (Quoted(s) + x)[0] == '"' as int && (Quoted(s) + x)[1..] == Closed(s, x)
  {
  }

  lemma StringReads(v: Json, x: Text)
    requires v.Str?
    ensures Reads(v, x)
  {
    QuotedStep(v.s, x);
    ClosedReads(v.s, x);
  }

  lemma ItemThen(v: Json, after: Text)
    requires Reads(v, after) && after != []
    ensures after[0] == ']' as int ==> ReadItems(Print(v) + after) == Some(Read([Canon(v)], after[1..]))
    ensures after[0] == ',' as int && ReadItems(after[1..]).Some? ==>
              var more := ReadItems(after[1..]).value;
              ReadItems(Print(v) + after) == Some(Read([Canon(v)] + more.value, more.rest))
  {
  }

  lemma {:induction false} ItemsRead(v: Json, items: seq<Json>, x: Text)
    requires v.Arr? && items != [] && (forall i <- items :: i in v.items) && Delimited(x)
    ensures ReadItems(ItemsTail(v, items, x)) == Some(Read(CanonItems(v, items), x))
    decreases v, |items|
  {
    var after := AfterItem(v, items, x);
    ItemsStep(v, items, x);
    PrintReads(items[0], after);
    ItemThen(items[0], after);
    assert CanonItems(v, items) == [Canon(items[0])] + CanonItems(v, items[1..]);
    if |items| == 1 {
      assert after[1..] == x && CanonItems(v, items) == [Canon(items[0])];
    } else {
      ItemsRead(v, items[1..], x);
      assert after[1..] == ItemsTail(v, items[1..], x);
    }
  }

  lemma {:induction false} FieldReads(f: Field, after: Text)
    requires Reads(f.value, after)
    ensures ReadField(Quoted(f.key) + ([COLON] + (Print(f.value) + after)))
            == Some(Read(Field(f.key, Canon(f.value)), after))
  {
    var rest := [COLON] + (Print(f.value) + after);
    QuotedStep(f.key, rest);
    ClosedReads(f.key, rest);
    assert rest[1..] == Print(f.value) + after;
  }

  lemma FieldThen(t: Text, f: Field, after: Text)
    requires ReadField(t) == Some(Read(f, after)) && after != []
    ensures after[0] == '}' as int ==> ReadFields(t) == Some(Read([f], after[1..]))
    ensures after[0] == ',' as int && ReadFields(after[1..]).Some? ==>
              var more := ReadFields(after[1..]).value; ReadFields(t) == Some(Read([f] + more.value, more.rest))
  {
  }

  lemma {:induction false} FieldsRead(v: Json, fields: seq<Field>, x: Text)
    requires v.Obj? && fields != [] && (forall f <- fields :: f in v.fields) && Delimited(x)
    ensures ReadFields(FieldsTail(v, fields, x)) == Some(Read(CanonFields(v, fields), x))
    decreases v, |fields|
  {
    var f, after := fields[0], AfterField(v, fields, x);
    FieldsStep(v, fields, x);
    PrintReads(f.value, after);
    FieldReads(f, after);
    FieldThen(FieldsTail(v, fields, x), Field(f.key, Canon(f.value)), after);
    assert CanonFields(v, fields) == [Field(f.key, Canon(f.value))] + CanonFields(v, fields[1..]);
    if |fields| == 1 {
      assert after[1..] == x && CanonFields(v, fields) == [Field(f.key, Canon(f.value))];
    } else {
      FieldsRead(v, fields[1..], x);
      assert after[1..] == FieldsTail(v, fields[1..], x);
    }
  }

  lemma ArrayOpens(t: Text, tail: Text)
    requires tail != [] && t == [OPEN_BRACKET] + tail
    ensures tail[0] == ']' as int ==> ReadValue(t) == Some(Read(Arr([]), tail[1..]))
    ensures tail[0] != ']' as int && ReadItems(tail).Some? ==>
              ReadValue(t) == Some(Read(Arr(ReadItems(tail).value.value), ReadItems(tail).value.rest))
  {
    assert t[1..] == tail && t[2..] == tail[1..];
  }

  lemma ObjectOpens(t: Text, tail: Text)
    requires tail != [] && t == [OPEN_BRACE] + tail
    ensures tail[0] == '}' as int ==> ReadValue(t) == Some(Read(Obj([]), tail[1..]))
    ensures tail[0] != '}' as int && ReadFields(tail).Some? ==>
              ReadValue(t) == Some(Read(Obj(ReadFields(tail).value.value), ReadFields(tail).value.rest))
  {
    assert t[1..] == tail && t[2..] == tail[1..];
  }

  lemma PrintOpens(v: Json, x: Text)
    ensures v.Arr? ==> Print(v) + x == [OPEN_BRACKET] + ItemsTail(v, v.items, x)
    ensures v.Obj? ==> Print(v) + x == [OPEN_BRACE] + FieldsTail(v, SortFields(v.fields), x)
  {
    if v.Arr? {
      Regroup([OPEN_BRACKET], PrintItems(v, v.items), [CLOSE_BRACKET], x);
    }
    if v.Obj? {
      Regroup([OPEN_BRACE], PrintFields(v, SortFields(v.fields)), [CLOSE_BRACE], x);
    }
  }

  lemma {:induction false} ArrayReads(v: Json, x: Text)
    requires v.Arr? && Delimited(x)
    ensures Reads(v, x)
    decreases v, |v.items| + 1
  {
    PrintOpens(v, x);
    ItemsStep(v, v.items, x);
    ArrayOpens(Print(v) + x, ItemsTail(v, v.items, x));
    if v.items != [] {
      ItemsRead(v, v.items, x);
    }
  }

  lemma {:induction false} ObjectReads(v: Json, x: Text)
    requires v.Obj? && Delimited(x)
    ensures Reads(v, x)
    decreases v, |v.fields| + 1
  {
    var fs := SortFields(v.fields);
    PrintOpens(v, x);
    FieldsStep(v, fs, x);
    ObjectOpens(Print(v) + x, FieldsTail(v, fs, x));
    if fs != [] {
      FieldsRead(v, fs, x);
    }
  }

  /** A printed value is read back, whatever may follow it. */
  lemma {:induction false} PrintReads(v: Json, x: Text)
    requires Delimited(x)
    ensures Reads(v, x)
    decreases v
  {
    match v
    case Str(_) => StringReads(v, x);
    case Number(_) => NumberReads(v, x);
    case Arr(_) => ArrayReads(v, x);
    case Obj(_) => ObjectReads(v, x);
    case _ => WordReads(v, x);
  }

  /** The canonical text is JSON for the value in its canonical form. */
  lemma CanonicalTextReads(v: Json)
    ensures ReadValue(Print(v)) == Some(Read(Canon(v), []))
  {
    PrintReads(v, []);
    assert Print(v) + [] == Print(v);
  }

  // ---- the canonical form ----

  /** Where two keys part: the first ends there or has the smaller unit. */
  ghost predicate PartsAt(a: Text, b: Text, k: nat) {
    k <= |a| && k < |b| && a[..k] == b[..k] && (k == |a| || a[k] < b[k])
  }

  /** Keys are in the order of their first different unit. */
  lemma {:induction false} KeyOrderExactly(a: Text, b: Text)
    ensures KeyLess(a, b) <==> exists k: nat :: PartsAt(a, b, k)
    decreases |a|
  {
    if a == [] || b == [] || a[0] != b[0] {
      if KeyLess(a, b) {
        assert PartsAt(a, b, 0);
      }
    } else {
      KeyOrderExactly(a[1..], b[1..]);
      if k: nat :| PartsAt(a[1..], b[1..], k) {
        assert a[..k + 1] == [a[0]] + a[1..][..k] && b[..k + 1] == [b[0]] + b[1..][..k];
        assert PartsAt(a, b, k + 1);
      }
      if k: nat :| PartsAt(a, b, k) {
        assert k > 0 && a[1..][..k - 1] == a[..k][1..] && b[1..][..k - 1] == b[..k][1..];
        assert PartsAt(a[1..], b[1..], k - 1);
      }
    }
  }

  lemma {:induction false} CanonItemsSame(v: Json, items: seq<Json>)
    requires v.Arr? && forall i <- items :: i in v.items
    ensures var cs := CanonItems(v, items);
            |cs| == |items| && forall i :: 0 <= i < |items| ==> Same(items[i], cs[i])
    decreases v, |items|
  {
    if items != [] {
      assert items[0] in v.items;
      CanonIsSame(items[0]);
      CanonItemsSame(v, items[1..]);
    }
  }

  lemma {:induction false} CanonFieldsSame(v: Json, fields: seq<Field>)
    requires v.Obj? && forall f <- fields :: f in v.fields
    ensures var cs := CanonFields(v, fields);
            |cs| == |fields| && forall i :: 0 <= i < |fields| ==>
                                  fields[i].key == cs[i].key && Same(fields[i].value, cs[i].value)
    decreases v, |fields|
  {
    if fields != [] {
      assert fields[0] in v.fields;
      CanonIsSame(fields[0].value);
      CanonFieldsSame(v, fields[1..]);
    }
  }

  /** The canonical form is the same value, up to nullish parts and the order of keys. */
  lemma {:induction false} CanonIsSame(v: Json)
    ensures Same(v, Canon(v))
    decreases v
  {
    match v
    case Arr(items) => CanonItemsSame(v, items);
    case Obj(fields) =>
      var fs := SortFields(fields);
      CanonFieldsSame(v, fs);
      forall f | f in fields
        ensures exists g :: g in CanonFields(v, fs) && f.key == g.key && Same(f.value, g.value)
      {
        var i :| 0 <= i < |fs| && fs[i] == f;
        assert CanonFields(v, fs)[i] in CanonFields(v, fs);
      }
    case _ =>
  }
}
