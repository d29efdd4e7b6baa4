/**
 * JavaScript strings as sequences of UTF-16 code units, with `trim` and `encodeURIComponent`.
 * A lone surrogate is an ordinary code unit; it is what makes `encodeURIComponent` throw.
 */
module CodeUnits {
  import opened Prelude

  type Unit = u: int | 0 <= u < 0x10000

  type Text = seq<Unit>

  predicate IsHighSurrogate(u: Unit) { 0xD800 <= u < 0xDC00 }

  predicate IsLowSurrogate(u: Unit) { 0xDC00 <= u < 0xE000 }

  predicate IsSurrogate(u: Unit) { 0xD800 <= u < 0xE000 }

  predicate StartsWithPair(s: Text) { |s| >= 2 && IsHighSurrogate(s[0]) && IsLowSurrogate(s[1]) }

  // ---- trim ----

  /** The WhiteSpace and LineTerminator code units of ECMAScript. */
  predicate IsWhite(u: Unit) {
    9 <= u <= 13 || u == 32 || u == 0xA0 || u == 0x1680 || 0x2000 <= u <= 0x200A
    || u == 0x2028 || u == 0x2029 || u == 0x202F || u == 0x205F || u == 0x3000 || u == 0xFEFF
  }

  function TrimStart(s: Text): Text {
    if s != [] && IsWhite(s[0]) then TrimStart(s[1..]) else s
  }

  function TrimEnd(s: Text): Text {
    if s != [] && IsWhite(s[|s| - 1]) then TrimEnd(s[..|s| - 1]) else s
  }

  function Trim(s: Text): Text { TrimEnd(TrimStart(s)) }

  // ---- encodeURIComponent ----

  const COLON: Unit := 58
  const PERCENT: Unit := 37

  datatype UriError = MalformedUri

  datatype Point = Point(value: nat, width: nat)

  function PairValue(high: int, low: int): int { 0x10000 + (high - 0xD800) * 0x400 + (low - 0xDC00) }

  /** The code point at the front of a non-empty string, or `None` at a lone surrogate. */
  function PointAt(s: Text): (p: Option<Point>)
    requires s != []
    ensures p.Some? ==> 1 <= p.value.width <= |s| && IsScalar(p.value.value)
  {
    if StartsWithPair(s) then Some(Point(PairValue(s[0], s[1]), 2))
    else if IsSurrogate(s[0]) then None
    else Some(Point(s[0], 1))
  }

  predicate IsScalar(n: int) { 0 <= n < 0xD800 || 0xE000 <= n < 0x110000 }

  /** ALPHA, DIGIT and the marks - _ . ! ~ * ' ( ) stay as they are. */
  predicate IsUnescaped(n: int) {
    48 <= n <= 57 || 65 <= n <= 90 || 97 <= n <= 122 || n == 45 || n == 95 || n == 46 || n == 33 || n == 126
    || n == 42 || n == 39 || n == 40 || n == 41
  }

  type Byte = b: int | 0 <= b < 256

  function Utf8(n: nat): (bytes: seq<Byte>)
    requires IsScalar(n)
    ensures 1 <= |bytes| <= 4
  {
    if n < 0x80 then [n]
    else if n < 0x800 then [0xC0 + n / 0x40, 0x80 + n % 0x40]
    else if n < 0x10000 then [0xE0 + n / 0x1000, 0x80 + n / 0x40 % 0x40, 0x80 + n % 0x40]
    else [0xF0 + n / 0x40000, 0x80 + n / 0x1000 % 0x40, 0x80 + n / 0x40 % 0x40, 0x80 + n % 0x40]
  }

  function UpperHex(d: int): Unit
    requires 0 <= d < 16
  {
    if d < 10 then 48 + d else 55 + d
  }

  function PercentBytes(bytes: seq<Byte>): (t: Text)
    ensures |t| == 3 * |bytes|
  {
    if bytes == [] then [] else
      [PERCENT, UpperHex(bytes[0] / 16), UpperHex(bytes[0] % 16)] + PercentBytes(bytes[1..])
  }

  function EncodePoint(n: nat): (t: Text)
    requires IsScalar(n)
  {
    if IsUnescaped(n) then [n] else PercentBytes(Utf8(n))
  }

  function EncodeComponent(s: Text): Result<Text, UriError>
    decreases |s|
  {
    if s == [] then Success([]) else
      match PointAt(s)
      case None => Failure(MalformedUri)
      case Some(p) =>
        match EncodeComponent(s[p.width..])
        case Failure(e) => Failure(e)
        case Success(rest) => Success(EncodePoint(p.value) + rest)
  }

  /** The lead byte alone fixes the length of a UTF-8 sequence. */
  function Utf8Length(lead: Byte): nat {
    if lead < 0x80 then 1 else if lead < 0xE0 then 2 else if lead < 0xF0 then 3 else 4
  }

  /** Six bits at a time, a number is its quotients and remainders. */
  lemma SixBits(n: nat)
    ensures n / 0x40 / 0x40 == n / 0x1000
    ensures n / 0x1000 / 0x40 == n / 0x40000
  {
  }

  lemma {:induction false} Utf8Injective(a: nat, b: nat)
    requires IsScalar(a) && IsScalar(b) && Utf8(a) == Utf8(b)
    ensures a == b
  {
    var x, y := Utf8(a), Utf8(b);
    assert |x| == Utf8Length(x[0]) && |y| == Utf8Length(y[0]);
    if |x| >= 2 {
      assert x[1] == y[1];
      if |x| >= 3 {
        assert x[2] == y[2];
        SixBits(a);
        SixBits(b);
        if |x| == 4 {
          assert x[3] == y[3];
        }
      }
    }
  }

  lemma {:induction false} PercentBytesPrefix(a: seq<Byte>, b: seq<Byte>, x: Text, y: Text)
    requires |a| == |b| && PercentBytes(a) + x == PercentBytes(b) + y
    ensures a == b && x == y
    decreases |a|
  {
    if a == [] {
      assert PercentBytes(a) + x == x && PercentBytes(b) + y == y;
    } else {
      var l, r := PercentBytes(a) + x, PercentBytes(b) + y;
      assert l[1] == r[1] && l[2] == r[2];
      assert a[0] == b[0];
      assert l[3..] == PercentBytes(a[1..]) + x && r[3..] == PercentBytes(b[1..]) + y;
      PercentBytesPrefix(a[1..], b[1..], x, y);
    }
  }

  lemma {:induction false} LeadFromPercent(bytes: seq<Byte>, bytes': seq<Byte>, x: Text, y: Text)
    requires bytes != [] && bytes' != [] && PercentBytes(bytes) + x == PercentBytes(bytes') + y
    ensures bytes[0] == bytes'[0]
  {
    var l, r := PercentBytes(bytes) + x, PercentBytes(bytes') + y;
    assert l[1] == r[1] && l[2] == r[2];
  }

  /** An encoded code point can be cut off the front of any text in one way only. */
  lemma EncodePointPrefix(a: nat, b: nat, x: Text, y: Text)
    requires IsScalar(a) && IsScalar(b)
    requires EncodePoint(a) + x == EncodePoint(b) + y
    ensures a == b && x == y
  {
    var l, r := EncodePoint(a) + x, EncodePoint(b) + y;
    assert l[0] == r[0];
    if IsUnescaped(a) {
      assert l[1..] == x && r[1..] == y;
    } else {
      LeadFromPercent(Utf8(a), Utf8(b), x, y);
      assert |Utf8(a)| == Utf8Length(Utf8(a)[0]) && |Utf8(b)| == Utf8Length(Utf8(b)[0]);
      PercentBytesPrefix(Utf8(a), Utf8(b), x, y);
      Utf8Injective(a, b);
    }
  }

  lemma PointAtInjective(s: Text, t: Text)
    requires s != [] && t != [] && PointAt(s).Some? && PointAt(t).Some?
    requires PointAt(s).value.value == PointAt(t).value.value
    ensures PointAt(s).value.width == PointAt(t).value.width
    ensures s[..PointAt(s).value.width] == t[..PointAt(t).value.width]
  {
  }

  /** `encodeURIComponent` loses nothing. */
  lemma {:induction false} EncodeInjective(s: Text, t: Text)
    requires EncodeComponent(s).Success? && EncodeComponent(s) == EncodeComponent(t)
    ensures s == t
    decreases |s|
  {
    if s != [] && t != [] {
      FirstPointsAgree(s, t);
      var width := PointAt(s).value.width;
      EncodeInjective(s[width..], t[width..]);
      assert s == s[..width] + s[width..] && t == t[..width] + t[width..];
    }
  }

  lemma {:induction false} FirstPointsAgree(s: Text, t: Text)
    requires s != [] && t != [] && EncodeComponent(s).Success? && EncodeComponent(s) == EncodeComponent(t)
    ensures PointAt(s).Some? && PointAt(t).Some? && PointAt(s).value.width == PointAt(t).value.width
    ensures var width := PointAt(s).value.width;
            && s[..width] == t[..width]
            && EncodeComponent(s[width..]).Success? && EncodeComponent(s[width..]) == EncodeComponent(t[width..])
  {
    var p, q := PointAt(s).value, PointAt(t).value;
    EncodePointPrefix(p.value, q.value, EncodeComponent(s[p.width..]).value, EncodeComponent(t[q.width..]).value);
    PointAtInjective(s, t);
  }

  /** No encoded text contains the separator. */
  lemma {:induction false} EncodeHasNoColon(s: Text)
    requires EncodeComponent(s).Success?
    ensures COLON !in EncodeComponent(s).value
    decreases |s|
  {
    if s != [] {
      var p := PointAt(s).value;
      if !IsUnescaped(p.value) {
        PercentHasNoColon(Utf8(p.value));
      }
      EncodeHasNoColon(s[p.width..]);
    }
  }

  lemma {:induction false} PercentHasNoColon(bytes: seq<Byte>)
    ensures COLON !in PercentBytes(bytes)
    decreases |bytes|
  {
    if bytes != [] {
      PercentHasNoColon(bytes[1..]);
    }
  }

  /** The code unit at `i` is no surrogate, or half of a surrogate pair. */
  predicate PairedAt(s: Text, i: nat)
    requires i < |s|
  {
    || !IsSurrogate(s[i])
    || (IsHighSurrogate(s[i]) && i + 1 < |s| && IsLowSurrogate(s[i + 1]))
    || (IsLowSurrogate(s[i]) && i > 0 && IsHighSurrogate(s[i - 1]))
  }

  ghost predicate WellFormed(s: Text) {
    forall i :: 0 <= i < |s| ==> PairedAt(s, i)
  }

  /** `encodeURIComponent` throws exactly on strings with a lone surrogate. */
  lemma {:induction false} EncodesExactlyWellFormed(s: Text)
    ensures EncodeComponent(s).Success? <==> WellFormed(s)
    decreases |s|
  {
    if s != [] {
      var w := if StartsWithPair(s) then 2 else 1;
      EncodesExactlyWellFormed(s[w..]);
      if PairedAt(s, 0) {
        forall i | w <= i < |s| ensures PairedAt(s, i) <==> PairedAt(s[w..], i - w) { }
        assert StartsWithPair(s) ==> PairedAt(s, 1);
        if WellFormed(s[w..]) {
          forall i | 0 <= i < |s| ensures PairedAt(s, i) {
            if i >= w { assert PairedAt(s[w..], i - w); }
          }
        } else {
          var k :| 0 <= k < |s[w..]| && !PairedAt(s[w..], k);
          assert !PairedAt(s, k + w);
        }
      }
    }
  }
}
