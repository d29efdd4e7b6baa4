/**
 * Exact money: decimal texts with at most six fractional digits as integers of millionths, and back.
 */
module Decimal {
  import opened Prelude
  import opened CodeUnits

  const MICROS_PER_UNIT := 1000000
  const MINUS: Unit := 45
  const DOT: Unit := 46
  const ZERO: Unit := 48
  const THOUSANDS_SEPARATOR: Unit := 44

  function PowerOfTwo(n: nat): nat { if n == 0 then 1 else 2 * PowerOfTwo(n - 1) }

  /** Decimals from here on read as an infinite double. */
  const DOUBLE_OVERFLOW: int := PowerOfTwo(1024) - PowerOfTwo(970)

  datatype AmountError = InvalidAmount

  predicate IsDigit(u: Unit) { 48 <= u <= 57 }

  predicate AllDigits(s: Text) { forall u <- s :: IsDigit(u) }

  function ParseDigits(s: Text): nat
    requires AllDigits(s)
  {
    if s == [] then 0 else
      assert s[|s| - 1] in s;
      var last: int := s[|s| - 1];
      ParseDigits(s[..|s| - 1]) * 10 + (last - 48)
  }

  /** The decimal text of a natural number, without leading zeros. */
  function Digits(n: nat): (s: Text)
    ensures s != [] && AllDigits(s)
  {
    if n < 10 then [ZERO + n] else Digits(n / 10) + [ZERO + n % 10]
  }

  /** The last `width` decimal digits, padded with leading zeros. */
  function PaddedDigits(n: nat, width: nat): (s: Text)
    ensures |s| == width && AllDigits(s)
  {
    if width == 0 then [] else PaddedDigits(n / 10, width - 1) + [ZERO + n % 10]
  }

  function PadEnd(s: Text, width: nat): (t: Text)
    ensures AllDigits(s) ==> AllDigits(t)
    ensures |s| <= width ==> |t| == width
    decreases width - |s|
  {
    if |s| >= width then s else PadEnd(s + [ZERO], width)
  }

  function StripZeros(s: Text): (t: Text)
    ensures t <= s
    ensures t != [] ==> t[|t| - 1] != ZERO
  {
    if s != [] && s[|s| - 1] == ZERO then StripZeros(s[..|s| - 1]) else s
  }

  function RemoveSeparators(s: Text): (t: Text)
    ensures THOUSANDS_SEPARATOR !in s ==> t == s
  {
    if s == [] then [] else
      (if s[0] == THOUSANDS_SEPARATOR then [] else [s[0]]) + RemoveSeparators(s[1..])
  }

  function DotIndex(s: Text): (i: nat)
    ensures i <= |s| && DOT !in s[..i] && (i < |s| ==> s[i] == DOT)
  {
    if s == [] || s[0] == DOT then 0 else
      var i := DotIndex(s[1..]);
      assert s[..i + 1] == [s[0]] + s[1..][..i];
      i + 1
  }

  function Unsigned(t: Text): Text { if t != [] && t[0] == MINUS then t[1..] else t }

  function Whole(t: Text): Text { Unsigned(t)[..DotIndex(Unsigned(t))] }

  function Fraction(t: Text): Text {
    var i := DotIndex(Unsigned(t));
    if i < |Unsigned(t)| then Unsigned(t)[i + 1..] else []
  }

  /** An optional minus sign, digits, and optionally a point with one to six digits. */
  predicate IsDecimal(t: Text) {
    && Whole(t) != [] && AllDigits(Whole(t)) && AllDigits(Fraction(t)) && |Fraction(t)| <= 6
    && (DotIndex(Unsigned(t)) < |Unsigned(t)| ==> Fraction(t) != [])
  }

  function Magnitude(t: Text): int
    requires IsDecimal(t)
  {
    ParseDigits(Whole(t)) * MICROS_PER_UNIT + ParseDigits(PadEnd(Fraction(t), 6))
  }

  /** Missing and blank amounts are null; anything that is no finite decimal is refused. */
  function NormalizeAmount(value: Option<Text>): Result<Option<Text>, AmountError> {
    var cleaned := if value.None? then [] else Trim(value.value);
    if cleaned == [] then Success(None)
    else
      var t := RemoveSeparators(cleaned);
      if IsDecimal(t) && Magnitude(t) < DOUBLE_OVERFLOW * MICROS_PER_UNIT then Success(Some(t))
      else Failure(InvalidAmount)
  }

  function SignedMicros(t: Text): int
    requires IsDecimal(t)
  {
    if t[0] == MINUS then -Magnitude(t) else Magnitude(t)
  }

  function DecimalToMicros(value: Option<Text>): Result<Option<int>, AmountError> {
    match NormalizeAmount(value)
    case Failure(e) => Failure(e)
    case Success(None) => Success(None)
    case Success(Some(t)) =>
      assert IsDecimal(t);
      Success(Some(SignedMicros(t)))
  }

  function MicrosToDecimal(micros: int): Text {
    var absolute: nat := if micros < 0 then -micros else micros;
    var fraction := StripZeros(PaddedDigits(absolute % MICROS_PER_UNIT, 6));
    (if micros < 0 then [MINUS] else [])
    + Digits(absolute / MICROS_PER_UNIT)
    + (if fraction == [] then [] else [DOT] + fraction)
  }

  // ---- printing, then parsing ----

  lemma {:induction false} ParseAfterDigits(n: nat)
    ensures ParseDigits(Digits(n)) == n
  {
    if n >= 10 {
      ParseAfterDigits(n / 10);
      assert Digits(n)[..|Digits(n)| - 1] == Digits(n / 10);
    }
  }

  function Pow10(k: nat): nat { if k == 0 then 1 else 10 * Pow10(k - 1) }

  lemma {:induction false} ParseAfterPadding(n: nat, width: nat)
    requires n < Pow10(width)
    ensures ParseDigits(PaddedDigits(n, width)) == n
  {
    if width > 0 {
      ParseAfterPadding(n / 10, width - 1);
      assert PaddedDigits(n, width)[..width - 1] == PaddedDigits(n / 10, width - 1);
    }
  }

  /** Stripping trailing zeros and padding them back restores the digits. */
  lemma {:induction false} PadRestoresStripped(s: Text)
    ensures PadEnd(StripZeros(s), |s|) == s
    decreases |s|
  {
    if s != [] && s[|s| - 1] == ZERO {
      var front := s[..|s| - 1];
      PadRestoresStripped(front);
      PadOneMore(StripZeros(front), |front|);
      assert s == front + [ZERO];
    }
  }

  lemma {:induction false} PadOneMore(s: Text, width: nat)
    requires |s| <= width
    ensures PadEnd(s, width + 1) == PadEnd(s, width) + [ZERO]
    decreases width - |s|
  {
    if |s| < width {
      PadOneMore(s + [ZERO], width);
    }
  }

  /** A sign, whole digits and a fraction, put together as a decimal text. */
  function Assemble(negative: bool, whole: Text, fraction: Text): Text {
    (if negative then [MINUS] else []) + whole + (if fraction == [] then [] else [DOT] + fraction)
  }

  /** The parts of an assembled text are what it was assembled from. */
  lemma AssembledParts(negative: bool, whole: Text, fraction: Text)
    requires whole != [] && AllDigits(whole) && AllDigits(fraction)
    ensures var t := Assemble(negative, whole, fraction);
            && t != [] && (t[0] == MINUS <==> negative)
            && Whole(t) == whole && Fraction(t) == fraction
            && (DotIndex(Unsigned(t)) < |Unsigned(t)| ==> fraction != [])
  {
    var t := Assemble(negative, whole, fraction);
    var tail := if fraction == [] then [] else [DOT] + fraction;
    assert whole[0] in whole;
    assert Unsigned(t) == whole + tail;
    DotAfter(whole, tail);
    assert fraction != [] ==> (whole + tail)[|whole| + 1..] == fraction;
  }

  lemma AssembledIsPlain(negative: bool, whole: Text, fraction: Text)
    requires whole != [] && AllDigits(whole) && AllDigits(fraction)
    ensures var t := Assemble(negative, whole, fraction);
            && t != [] && !IsWhite(t[0]) && !IsWhite(t[|t| - 1]) && THOUSANDS_SEPARATOR !in t
  {
    var t := Assemble(negative, whole, fraction);
    assert whole[0] in whole && whole[|whole| - 1] in whole;
    if fraction != [] {
      assert fraction[|fraction| - 1] in fraction && t[|t| - 1] == fraction[|fraction| - 1];
    }
  }

  function Absolute(micros: int): nat { if micros < 0 then -micros else micros }

  function WholeOf(micros: int): (t: Text)
    ensures t != [] && AllDigits(t)
  {
    Digits(Absolute(micros) / MICROS_PER_UNIT)
  }

  function FractionOf(micros: int): (t: Text)
    ensures AllDigits(t) && |t| <= 6 && (t != [] ==> t[|t| - 1] != ZERO)
  {
    StripZeros(PaddedDigits(Absolute(micros) % MICROS_PER_UNIT, 6))
  }

  lemma PrintAssembles(micros: int)
    ensures MicrosToDecimal(micros) == Assemble(micros < 0, WholeOf(micros), FractionOf(micros))
  {
  }

  lemma {:induction false} DotAfter(whole: Text, tail: Text)
    requires AllDigits(whole) && (tail == [] || tail[0] == DOT)
    ensures DotIndex(whole + tail) == |whole|
    decreases |whole|
  {
    if whole == [] {
      assert whole + tail == tail;
    } else {
      assert whole[0] in whole;
      assert (whole + tail)[1..] == whole[1..] + tail;
      DotAfter(whole[1..], tail);
    }
  }

  lemma PartsParse(micros: int)
    ensures ParseDigits(WholeOf(micros)) == Absolute(micros) / MICROS_PER_UNIT
    ensures ParseDigits(PadEnd(FractionOf(micros), 6)) == Absolute(micros) % MICROS_PER_UNIT
  {
    ParseAfterDigits(Absolute(micros) / MICROS_PER_UNIT);
    assert Pow10(6) == MICROS_PER_UNIT;
    ParseAfterPadding(Absolute(micros) % MICROS_PER_UNIT, 6);
    PadRestoresStripped(PaddedDigits(Absolute(micros) % MICROS_PER_UNIT, 6));
  }

  lemma {:induction false} AssembledMagnitude(negative: bool, whole: Text, fraction: Text)
    requires whole != [] && AllDigits(whole) && AllDigits(fraction) && |fraction| <= 6
    ensures var t := Assemble(negative, whole, fraction);
            && IsDecimal(t)
            && Magnitude(t) == ParseDigits(whole) * MICROS_PER_UNIT + ParseDigits(PadEnd(fraction, 6))
  {
    AssembledParts(negative, whole, fraction);
  }

  lemma PrintedMicros(micros: int)
    ensures IsDecimal(MicrosToDecimal(micros)) && Magnitude(MicrosToDecimal(micros)) == Absolute(micros)
    ensures SignedMicros(MicrosToDecimal(micros)) == micros
  {
    PrintAssembles(micros);
    PartsParse(micros);
    AssembledMagnitude(micros < 0, WholeOf(micros), FractionOf(micros));
    AssembledParts(micros < 0, WholeOf(micros), FractionOf(micros));
  }

  /** Printing and parsing back returns the same integer exactly when it is no amount that overflows a double. */
  lemma PrintThenParse(micros: int)
    ensures DecimalToMicros(Some(MicrosToDecimal(micros))) ==
            if Absolute(micros) < DOUBLE_OVERFLOW * MICROS_PER_UNIT then Success(Some(micros))
            else Failure(InvalidAmount)
  {
    PrintedMicros(micros);
    PrintAssembles(micros);
    AssembledIsPlain(micros < 0, WholeOf(micros), FractionOf(micros));
  }

  // ---- parsing, then printing ----

  /** The value of a decimal text in millionths, read off all its digits at once. */
  function ScaledValue(t: Text): int
    requires IsDecimal(t)
  {
    assert AllDigits(Whole(t) + Fraction(t));
    var magnitude: int := ParseDigits(Whole(t) + Fraction(t)) * Pow10(6 - |Fraction(t)|);
    if t[0] == MINUS then -magnitude else magnitude
  }

  lemma {:induction false} ParseConcat(a: Text, b: Text)
    requires AllDigits(a) && AllDigits(b)
    ensures AllDigits(a + b) && ParseDigits(a + b) == ParseDigits(a) * Pow10(|b|) + ParseDigits(b)
    decreases |b|
  {
    if b == [] {
      assert a + b == a;
    } else {
      var front := b[..|b| - 1];
      ParseConcat(a, front);
      assert (a + b)[..|a + b| - 1] == a + front;
      ShiftDigits(ParseDigits(a), ParseDigits(front), Pow10(|front|));
    }
  }

  lemma ShiftDigits(a: int, b: int, p: int)
    ensures 10 * (a * p + b) == a * (10 * p) + 10 * b
  {
  }

  lemma {:induction false} ParsePadded(s: Text, width: nat)
    requires AllDigits(s) && |s| <= width
    ensures ParseDigits(PadEnd(s, width)) == ParseDigits(s) * Pow10(width - |s|)
    decreases width - |s|
  {
    if |s| < width {
      ParsePadded(s + [ZERO], width);
      assert (s + [ZERO])[..|s|] == s;
      assert ParseDigits(s + [ZERO]) == ParseDigits(s) * 10;
      TimesTen(ParseDigits(s), Pow10(width - |s| - 1));
    }
  }

  lemma TimesTen(a: int, b: int)
    ensures (a * 10) * b == a * (10 * b)
  {
  }

  lemma {:induction false} Pow10Add(j: nat, k: nat)
    ensures Pow10(j + k) == Pow10(j) * Pow10(k)
  {
    if j > 0 {
      Pow10Add(j - 1, k);
      assert Pow10(j) * Pow10(k) == 10 * (Pow10(j - 1) * Pow10(k));
    }
  }

  lemma Regroup(w: int, f: int, p: int, q: int, unit: int)
    requires p * q == unit
    ensures (w * p + f) * q == w * unit + f * q
  {
    assert (w * p + f) * q == w * (p * q) + f * q;
  }

  lemma MicrosAreExact(t: Text)
    requires IsDecimal(t)
    ensures SignedMicros(t) == ScaledValue(t)
  {
    var w, f := ParseDigits(Whole(t)), ParseDigits(Fraction(t));
    var p, q := Pow10(|Fraction(t)|), Pow10(6 - |Fraction(t)|);
    ParseConcat(Whole(t), Fraction(t));
    ParsePadded(Fraction(t), 6);
    Pow10Add(|Fraction(t)|, 6 - |Fraction(t)|);
    assert Pow10(6) == MICROS_PER_UNIT;
    Regroup(w, f, p, q, MICROS_PER_UNIT);
  }

  /** Parsing an accepted amount and printing it gives a decimal of the same value, without trailing zeros. */
  lemma ParseThenPrint(value: Text)
    requires DecimalToMicros(Some(value)).Success? && DecimalToMicros(Some(value)).value.Some?
    ensures var t := RemoveSeparators(Trim(value));
            var printed := MicrosToDecimal(DecimalToMicros(Some(value)).value.value);
            && IsDecimal(t) && IsDecimal(printed) && ScaledValue(printed) == ScaledValue(t)
            && (Fraction(printed) != [] ==> Fraction(printed)[|Fraction(printed)| - 1] != ZERO)
  {
    var t := RemoveSeparators(Trim(value));
    var micros := DecimalToMicros(Some(value)).value.value;
    MicrosAreExact(t);
    PrintedMicros(micros);
    PrintedFraction(micros);
    MicrosAreExact(MicrosToDecimal(micros));
  }

  lemma PrintedFraction(micros: int)
    ensures Fraction(MicrosToDecimal(micros)) == FractionOf(micros)
  {
    PrintAssembles(micros);
    AssembledParts(micros < 0, WholeOf(micros), FractionOf(micros));
  }
}
