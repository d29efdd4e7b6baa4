/** Which amounts are read, told by their characters, and from which size on they are refused. */
module DecimalRules {
  import opened Prelude
  import opened CodeUnits
  import opened Decimal

  predicate IsNumeral(s: Text) { forall u <- s :: '0' as int <= u <= '9' as int }

  /** A sign or none, digits, and a point with up to six digits or none. */
  predicate IsWritten(t: Text, negative: bool, whole: Text, fraction: Text) {
    && whole != [] && IsNumeral(whole) && IsNumeral(fraction) && |fraction| <= 6
    && t == (if negative then ['-' as int] else []) + whole + (if fraction == [] then [] else ['.' as int] + fraction)
  }

  lemma NumeralExactly(s: Text)
    ensures IsNumeral(s) <==> AllDigits(s)
  {
  }

  lemma CutAt(u: Text, i: nat)
    requires i < |u|
    ensures u == u[..i] + ([u[i]] + u[i + 1..])
  {
  }

  lemma Grouped(a: Text, b: Text, c: Text)
    ensures a + b + c == a + (b + c)
  {
  }

  lemma SignOf(t: Text)
    requires t != []
    ensures t == (if t[0] == MINUS then [MINUS] else []) + Unsigned(t)
  {
  }

  lemma Reassembled(t: Text)
    requires IsDecimal(t)
    ensures t == Assemble(t[0] == MINUS, Whole(t), Fraction(t))
  {
    var u := Unsigned(t);
    var i := DotIndex(u);
    SignOf(t);
    if i < |u| {
      CutAt(u, i);
      Grouped(if t[0] == MINUS then [MINUS] else [], u[..i], [DOT] + u[i + 1..]);
    } else {
      assert u == u[..i];
    }
  }

  // ---- thousands separators ----

  lemma OneSeparator(u: Unit)
    ensures RemoveSeparators([u]) == if u == ',' as int then [] else [u]
  {
    assert [u][1..] == [];
  }

  /** Commas vanish and everything else stays in its place. */
  lemma {:induction false} SeparatorsExactly(s: Text, u: Unit)
    ensures RemoveSeparators(s + [u]) == RemoveSeparators(s) + if u == ',' as int then [] else [u]
    decreases |s|
  {
    OneSeparator(u);
    if s == [] {
      assert s + [u] == [u];
    } else {
      SeparatorsExactly(s[1..], u);
      assert (s + [u])[1..] == s[1..] + [u];
      Grouped(if s[0] == THOUSANDS_SEPARATOR then [] else [s[0]], RemoveSeparators(s[1..]),
              if u == ',' as int then [] else [u]);
    }
  }

  // ---- the size that is refused ----

  lemma {:induction false} PowersMultiply(m: nat, n: nat)
    ensures PowerOfTwo(m + n) == PowerOfTwo(m) * PowerOfTwo(n)
    ensures PowerOfTwo(1) == 2
    decreases m
  {
    if m > 0 {
      PowersMultiply(m - 1, n);
      Doubled(PowerOfTwo(m - 1), PowerOfTwo(n));
    }
  }

  lemma Doubled(a: int, b: int)
    ensures 2 * (a * b) == 2 * a * b
  {
  }

  /** Half a step above the largest double, whose 53 binary digits are all ones. */
  lemma OverflowExactly()
    ensures DOUBLE_OVERFLOW == (0x40_0000_0000_0000 - 1) * PowerOfTwo(970)
  {
    PowersMultiply(54, 970);
    FiftyFour();
  }

  lemma FiftyFour()
    ensures PowerOfTwo(54) == 0x40_0000_0000_0000
  {
    assert PowerOfTwo(9) == 512;
    PowersMultiply(9, 9);
    PowersMultiply(18, 18);
    PowersMultiply(36, 18);
  }

  lemma MagnitudeExactly(t: Text)
    requires IsDecimal(t)
    ensures AllDigits(Whole(t) + Fraction(t))
    ensures Magnitude(t) == ParseDigits(Whole(t) + Fraction(t)) * Pow10(6 - |Fraction(t)|)
  {
    MicrosAreExact(t);
  }

  /** Digits and fraction digits come to less than so many millionths. */
  predicate IsBelow(whole: Text, fraction: Text, bound: int)
    requires IsNumeral(whole) && IsNumeral(fraction) && |fraction| <= 6
  {
    NumeralExactly(whole + fraction);
    ParseDigits(whole + fraction) * Pow10(6 - |fraction|) < bound
  }

  /** The text is written as a decimal of less than so many millionths. */
  ghost predicate IsAmountBelow(t: Text, bound: int) {
    exists negative, whole, fraction :: IsWritten(t, negative, whole, fraction) && IsBelow(whole, fraction, bound)
  }

  lemma PartsAreUnique(t: Text, negative: bool, whole: Text, fraction: Text)
    requires IsWritten(t, negative, whole, fraction)
    ensures IsDecimal(t) && whole == Whole(t) && fraction == Fraction(t)
  {
    NumeralExactly(whole);
    NumeralExactly(fraction);
    AssembledParts(negative, whole, fraction);
    assert t == Assemble(negative, whole, fraction);
  }

  lemma DecimalIsWritten(t: Text, bound: int)
    requires IsDecimal(t)
    ensures IsWritten(t, t[0] == MINUS, Whole(t), Fraction(t))
    ensures IsBelow(Whole(t), Fraction(t), bound) <==> Magnitude(t) < bound
  {
    Reassembled(t);
    MagnitudeExactly(t);
  }

  lemma AmountBelowExactly(t: Text, bound: int)
    ensures IsAmountBelow(t, bound) <==> IsDecimal(t) && Magnitude(t) < bound
  {
    if IsDecimal(t) {
      DecimalIsWritten(t, bound);
    }
    forall negative, whole, fraction | IsWritten(t, negative, whole, fraction)
      ensures IsDecimal(t) && whole == Whole(t) && fraction == Fraction(t)
    {
      PartsAreUnique(t, negative, whole, fraction);
    }
  }

  /**
   * An amount is nothing when it is blank; it is read exactly when without commas it is written as a decimal of less
   * than that size, and refused otherwise.
   */
  lemma AmountExactly(value: Text)
    ensures var t := RemoveSeparators(Trim(value));
            NormalizeAmount(Some(value))
            == if Trim(value) == [] then Success(None)
               else if IsAmountBelow(t, DOUBLE_OVERFLOW * 1_000_000) then Success(Some(t))
               else Failure(InvalidAmount)
  {
    AmountBelowExactly(RemoveSeparators(Trim(value)), DOUBLE_OVERFLOW * 1_000_000);
  }
}
