/** The portfolio balance display, which really rounds (mercury/alchemy/portfolio.py). */
module Portfolio {
  import opened Outcomes
  import opened Positional
  import opened Text
  import opened Decimals
  import opened Amounts
  import opened AmountLaws

  const MAX_DISPLAY_DECIMALS := 256

  /** `s.rstrip(c)`. */
  function RStrip(s: string, c: char): (r: string)
    ensures |r| <= |s| && r == s[..|r|]
    ensures r != "" ==> r[|r| - 1] != c
    ensures forall i | |r| <= i < |s| :: s[i] == c
  {
    if s != "" && s[|s| - 1] == c then RStrip(s[..|s| - 1], c) else s
  }

  function Magnitude(n: int): nat {
    if n < 0 then -n else n
  }

  function Signed(n: int, text: string): string {
    if n < 0 then "-" + text else text
  }

  /** `_format_units_to_display`. */
  function DisplayUnits(raw: int, decimals: int): Try<string> {
    if decimals < 0 || decimals > MAX_DISPLAY_DECIMALS then
      var text :- IntText(Magnitude(raw));
      Ok(Signed(raw, text))
    else
      var scale :- PowerOfTen(decimals, DEFAULT);
      var _ :- Check(scale.coeff > 0, "DivisionByZero");
      var quotient :- Divide(Dec(Magnitude(raw), 0), scale, DEFAULT);
      if quotient.coeff == 0 then Ok("0") else Ok(Shown(Signed(raw, FormatFixed(quotient))))
  }

  /** The text of a quotient without the trailing zeros of its fraction. */
  function Shown(text: string): string {
    var shown := if '.' in text then RStrip(RStrip(text, '0'), '.') else text;
    if shown == "" then "0" else shown
  }

  /** `raw` rounded half to even to 28 significant digits. */
  function Rounded(raw: nat): nat {
    var n := DigitCount(raw);
    if n <= DEFAULT_PREC then raw else Append(HalfEven(raw, n - DEFAULT_PREC), n - DEFAULT_PREC)
  }

  /** `x` times ten to the `d` is the integer `units`. */
  ghost predicate Denotes(x: Dec, d: nat, units: nat) {
    x.exp + d >= 0 && Append(x.coeff, x.exp + d) == units
  }

  // ---------------------------------------------------------------- rounding once

  lemma HalfEvenScaled(c: nat, drop: nat, j: nat)
    ensures HalfEven(Append(c, j), drop + j) == HalfEven(c, drop)
  {
    var unit, p := Pow10(drop), Pow10(j);
    Pow10Adds(drop, j);
    CommonFactor(c, unit, p);
    ScaledComparison(2 * (c % unit), unit, p);
    assert 2 * ((c % unit) * p) == (2 * (c % unit)) * p by {
      MulAssociates(2, c % unit, p);
    }
  }

  lemma ScaledComparison(a: nat, b: nat, p: nat)
    requires p > 0
    ensures a * p > b * p <==> a > b
    ensures a * p == b * p <==> a == b
  {
    if a < b {
      MulMonotone(a + 1, b, p);
    } else if b < a {
      MulMonotone(b + 1, a, p);
    }
  }

  /** The sticky digit makes the second rounding agree with a single rounding. */
  lemma StickyRounding(raw: nat, k: nat)
    requires raw % Pow10(k) != 0
    ensures var q := Chop(raw, k);
      HalfEven(if q % 5 == 0 then q + 1 else q, 2) == HalfEven(raw, k + 2)
  {
    assert Pow10(2) == 100 by {
      assert Pow10(1) == 10;
    }
    Pow10Adds(2, k);
    hide Pow10, RoundedDivision;
    DivisionIsNatural(raw, Pow10(k));
    StickyDivision(raw, Pow10(k));
  }

  lemma StickyDivision(raw: nat, unit: nat)
    requires unit > 0 && raw % unit != 0 && raw / unit >= 0
    ensures var q := raw / unit;
      RoundedDivision(if q % 5 == 0 then q + 1 else q, 100) == RoundedDivision(raw, 100 * unit)
  {
    TwoStepDivision(raw, unit);
  }

  /** Dividing by `unit` and then by a hundred: where the remainder lies. */
  lemma TwoStepDivision(raw: nat, unit: nat)
    requires unit > 0 && raw % unit != 0
    ensures var q, r := raw / unit, raw % (100 * unit);
      && raw / (100 * unit) == q / 100
      && (q % 100 < 50 ==> 2 * r < 100 * unit)
      && (q % 100 >= 50 ==> 2 * r > 100 * unit)
  {
    var q, t := raw / unit, raw % unit;
    DivisionIsNatural(raw, unit);
    var a, s := q / 100, q % 100;
    Regroup(raw, q, t, a, s, unit);
    RemainderHalves(s, t, unit);
    QuotientAndRemainder(a, 100 * unit, s * unit + t);
  }

  lemma RemainderHalves(s: nat, t: nat, unit: nat)
    requires s < 100 && 0 < t < unit
    ensures s * unit + t < 100 * unit
    ensures if s < 50 then 2 * (s * unit + t) < 100 * unit else 2 * (s * unit + t) > 100 * unit
  {
    MulMonotone(s + 1, 100, unit);
    if s < 50 {
      MulMonotone(s + 1, 50, unit);
    } else {
      MulMonotone(50, s, unit);
    }
  }

  lemma Regroup(raw: nat, q: nat, t: nat, a: nat, s: nat, unit: nat)
    requires raw == q * unit + t && q == a * 100 + s
    ensures raw == a * (100 * unit) + (s * unit + t)
  {
    MulAssociates(a, 100, unit);
  }

  lemma AppendTwice(n: nat, j: nat, k: nat)
    ensures Append(Append(n, j), k) == Append(n, j + k)
  {
    AppendSplits(n, j, k);
  }

  lemma AppendedEndsInZeros(c: nat, j: nat)
    ensures EndsInZeros(Append(c, j), j)
  {
    QuotientAndRemainder(c, Pow10(j), 0);
  }

  /** Rounding to significant digits commutes with appending zeros. */
  lemma RoundedScaled(c: nat, j: nat)
    requires c > 0
    ensures Rounded(Append(c, j)) == Append(Rounded(c), j)
  {
    var n := DigitCount(c);
    AppendDigits(c, j);
    if n > DEFAULT_PREC {
      HalfEvenScaled(c, n - DEFAULT_PREC, j);
      AppendTwice(HalfEven(c, n - DEFAULT_PREC), n - DEFAULT_PREC, j);
    } else if n + j > DEFAULT_PREC {
      AppendedEndsInZeros(c, j);
      DropZeros(Append(c, j), n + j - DEFAULT_PREC, j);
    }
  }

  /** Fitting a number into the default context rounds it once. */
  lemma FixRounds(x: Dec, d: nat)
    requires x.coeff > 0 && x.exp + d >= 0 && Adjusted(x) >= EMIN
    ensures match Fix(x, DEFAULT)
      case Ok(y) => y.coeff > 0 && Denotes(y, d, Append(Rounded(x.coeff), x.exp + d))
      case Raised(_) => Adjusted(x) >= EMAX
  {
    if DigitCount(x.coeff) > DEFAULT_PREC {
      LongFixRounds(x, d);
    }
  }

  lemma LongFixRounds(x: Dec, d: nat)
    requires DigitCount(x.coeff) > DEFAULT_PREC && x.exp + d >= 0 && Adjusted(x) >= EMIN
    ensures match Fix(x, DEFAULT)
      case Ok(y) => y.coeff > 0 && Denotes(y, d, Append(Rounded(x.coeff), x.exp + d))
      case Raised(_) => Adjusted(x) >= EMAX
  {
    hide Fix, HalfEven, DigitCount, Append, Pow10;
    LongFix(x);
    var drop, k := DigitCount(x.coeff) - DEFAULT_PREC, x.exp + d;
    AppendTwice(HalfEven(x.coeff, drop), drop, k);
    AppendTwice(Pow10(DEFAULT_PREC - 1), 1, drop + k);
    AppendIsProduct(Pow10(DEFAULT_PREC - 1), 1);
    Pow10Adds(DEFAULT_PREC - 1, 1);
  }

  /** A 28-digit rounding, renormalised when it carried. */
  function Settled(h: nat, e: int): Dec {
    if h == Pow10(DEFAULT_PREC) then Dec(Pow10(DEFAULT_PREC - 1), e + 1) else Dec(h, e)
  }

  lemma LongIsPositive(c: nat)
    requires DigitCount(c) > 1
    ensures c > 0
  {
  }

  lemma LongFix(x: Dec)
    requires DigitCount(x.coeff) > DEFAULT_PREC && Adjusted(x) >= EMIN
    ensures var drop := DigitCount(x.coeff) - DEFAULT_PREC;
      var h := HalfEven(x.coeff, drop);
      && h > 0
      && (Fix(x, DEFAULT).Raised? ==> Adjusted(x) >= EMAX)
      && (Fix(x, DEFAULT).Ok? ==> Fix(x, DEFAULT).value == Settled(h, x.exp + drop))
  {
    hide HalfEven, DigitCount, Pow10;
    LongIsPositive(x.coeff);
    var drop := DigitCount(x.coeff) - DEFAULT_PREC;
    var h := HalfEven(x.coeff, drop);
    HalfEvenDigits(x.coeff, drop);
    if h == Pow10(DEFAULT_PREC) {
      PowerDigits(DEFAULT_PREC);
      NextPower(DEFAULT_PREC - 1);
    } else {
      DigitCountAtMost(h, DEFAULT_PREC);
    }
  }

  // ---------------------------------------------------------------- the division

  lemma ScaleOfTen(d: nat)
    requires d <= MAX_DISPLAY_DECIMALS
    ensures var m := if d < DEFAULT_PREC then d else DEFAULT_PREC - 1;
      PowerOfTen(d, DEFAULT) == Ok(Dec(Pow10(m), d - m))
  {
    hide Pow10, DigitCount;
    PowerDigits(d);
    if d >= DEFAULT_PREC {
      var drop := d - (DEFAULT_PREC - 1);
      Pow10Adds(DEFAULT_PREC - 1, drop);
      QuotientAndRemainder(Pow10(DEFAULT_PREC - 1), Pow10(drop), 0);
      PowerDigits(DEFAULT_PREC - 1);
    }
  }

  /** The integer quotient the division rounds: `raw` cut to thirty digits. */
  lemma LongQuotient(raw: nat, m: nat, k: nat)
    ensures var shift := m - k;
      var top := if shift >= 0 then Append(raw, shift) else raw;
      var bottom := if shift >= 0 then Pow10(m) else Append(Pow10(m), -shift);
      bottom > 0 && top / bottom == Chop(raw, k) && (top % bottom == 0 <==> EndsInZeros(raw, k))
  {
    if m >= k {
      Pow10Adds(k, m - k);
      CommonFactor(raw, Pow10(k), Pow10(m - k));
      ScaledComparison(raw % Pow10(k), 0, Pow10(m - k));
    } else {
      Pow10Adds(m, k - m);
    }
  }

  lemma StripDenotes(c: nat, e: int, limit: int, d: nat)
    requires c > 0 && e + d >= 0
    ensures var z := StripZeros(c, e, limit);
      Denotes(z, d, Append(c, e + d)) && Adjusted(z) == Adjusted(Dec(c, e))
  {
    if e <= limit {
      var z := StripZeros(c, e, limit);
      StripKeepsNumber(c, e, limit);
      AppendTwice(z.coeff, z.exp - e, e + d);
    }
  }

  /** A division that yields `raw` units rounded once; it raises only beyond the range. */
  ghost predicate RoundsOnce(quotient: Try<Dec>, raw: nat, d: nat) {
    match quotient
    case Ok(y) => y.coeff > 0 && Denotes(y, d, Rounded(raw))
    case Raised(_) => DigitCount(raw) > EMAX
  }

  lemma FitsRounded(z: Dec, raw: nat, d: nat)
    requires z.coeff > 0 && Denotes(z, d, raw)
    requires raw > 0 && d <= MAX_DISPLAY_DECIMALS && Adjusted(z) == Adjusted(Units(raw, d))
    ensures RoundsOnce(Fix(z, DEFAULT), raw, d)
  {
    FixRounds(z, d);
    RoundedScaled(z.coeff, z.exp + d);
  }

  lemma DivideLong(raw: nat, unit: nat, ideal: int, shift: int)
    requires raw > 0 && unit > 0 && shift == DigitCount(unit) - DigitCount(raw) + DEFAULT_PREC + 1
    ensures Divide(Dec(raw, 0), Dec(unit, -ideal), DEFAULT)
         == Quotient(if shift >= 0 then Append(raw, shift) else raw,
                     if shift >= 0 then unit else Append(unit, -shift), ideal - shift, ideal, DEFAULT)
  {
    hide Quotient, Append;
  }

  lemma ShortQuotient(raw: nat, d: nat, m: nat, pad: nat)
    requires raw > 0 && m <= d <= MAX_DISPLAY_DECIMALS && DigitCount(raw) + pad == 30
    ensures RoundsOnce(Divide(Dec(raw, 0), Dec(Pow10(m), d - m), DEFAULT), raw, d)
  {
    hide Quotient, Divide, Fix, Append;
    var e, limit := -(d as int), m - d;
    PowerDigits(m);
    DivideLong(raw, Pow10(m), limit, m + pad);
    AppendSplits(raw, pad, m);
    ExactQuotientStrips(Append(raw, pad), Pow10(m), e - pad, limit, DEFAULT);
    StripAppended(raw, pad, e, limit);
    assert Divide(Dec(raw, 0), Dec(Pow10(m), d - m), DEFAULT) == Fix(StripZeros(raw, e, limit), DEFAULT);
    StrippedFits(raw, d, limit);
  }

  lemma StrippedFits(raw: nat, d: nat, limit: int)
    requires raw > 0 && d <= MAX_DISPLAY_DECIMALS
    ensures RoundsOnce(Fix(StripZeros(raw, -(d as int), limit), DEFAULT), raw, d)
  {
    StripDenotes(raw, -(d as int), limit, d);
    assert Append(raw, 0) == raw;
    FitsRounded(StripZeros(raw, -(d as int), limit), raw, d);
  }

  lemma LongQuotientRounds(raw: nat, d: nat, m: nat, k: nat)
    requires raw > 0 && k > 0 && m <= d <= MAX_DISPLAY_DECIMALS && DigitCount(raw) == 30 + k
    ensures RoundsOnce(Divide(Dec(raw, 0), Dec(Pow10(m), d - m), DEFAULT), raw, d)
  {
    hide Quotient, Divide, Append, Fix;
    PowerDigits(m);
    DivideLong(raw, Pow10(m), m - d, m - k);
    LongQuotient(raw, m, k);
    ThirtyDigits(raw, k);
    RoundedQuotient(raw, k, d, m - d, if m >= k then Append(raw, m - k) else raw,
                    if m >= k then Pow10(m) else Append(Pow10(m), k - m));
  }

  /** What is cut off a number that ends in zeros is only zeros. */
  lemma ChopIsAppended(raw: nat, k: nat)
    ensures EndsInZeros(raw, k) ==> Append(Chop(raw, k), k) == raw
  {
    DivisionIsNatural(raw, Pow10(k));
    AppendIsProduct(Chop(raw, k), k);
  }

  lemma RoundedQuotient(raw: nat, k: nat, d: nat, ideal: int, top: nat, bottom: nat)
    requires raw > 0 && k > 0 && d <= MAX_DISPLAY_DECIMALS && DigitCount(raw) == 30 + k
    requires bottom > 0 && top / bottom == Chop(raw, k) && (top % bottom == 0 <==> EndsInZeros(raw, k))
    ensures RoundsOnce(Quotient(top, bottom, k - d, ideal, DEFAULT), raw, d)
  {
    hide Fix, Pow10, DigitCount, HalfEven, Append, Rounded, Denotes, Chop, EndsInZeros, StripZeros;
    var q := Chop(raw, k);
    ThirtyDigits(raw, k);
    ChopIsAppended(raw, k);
    assert q - 1 >= 0;
    if EndsInZeros(raw, k) {
      StripDenotes(q, k - d, ideal, d);
      FitsRounded(StripZeros(q, k - d, ideal), raw, d);
    } else {
      StickyFits(raw, k, d);
    }
  }

  lemma StickyFits(raw: nat, k: nat, d: nat)
    requires raw > 0 && k > 0 && d <= MAX_DISPLAY_DECIMALS && DigitCount(raw) == 30 + k
    requires !EndsInZeros(raw, k)
    ensures var q := Chop(raw, k);
      RoundsOnce(Fix(Dec(if q % 5 == 0 then q + 1 else q, k - d), DEFAULT), raw, d)
  {
    hide Fix;
    var q := Chop(raw, k);
    var z := Dec(if q % 5 == 0 then q + 1 else q, k - d);
    ThirtyDigits(raw, k);
    FixRounds(z, d);
    StickyRounding(raw, k);
    AppendTwice(HalfEven(z.coeff, 2), 2, k);
  }

  lemma ThirtyDigits(raw: nat, k: nat)
    requires DigitCount(raw) == 30 + k
    ensures var q := Chop(raw, k);
      q > 0 && DigitCount(q) == 30 && (q % 5 == 0 ==> DigitCount(q + 1) == 30)
  {
    hide DigitCount, Pow10;
    LongIsPositive(raw);
    var q := Chop(raw, k);
    DigitCountBounds(raw);
    Pow10Adds(29, k);
    Pow10Adds(30, k);
    QuotientBetween(Pow10(29), raw, Pow10(30), Pow10(k));
    DigitCountUnique(q, 30);
    if q % 5 == 0 {
      NextStaysBelow(q);
      DigitCountUnique(q + 1, 30);
    }
  }

  lemma NextStaysBelow(q: nat)
    requires q < Pow10(30) && q % 5 == 0
    ensures q + 1 < Pow10(30)
  {
    assert Pow10(30) == 10 * Pow10(29);
  }

  /** The quotient the display shows is the exact one rounded half to even, once, to 28
      significant digits. */
  lemma DisplayQuotient(raw: nat, d: nat)
    requires d <= MAX_DISPLAY_DECIMALS && raw > 0
    ensures var m := if d < DEFAULT_PREC then d else DEFAULT_PREC - 1;
      RoundsOnce(Divide(Dec(raw, 0), Dec(Pow10(m), d - m), DEFAULT), raw, d)
  {
    hide Divide;
    var m := if d < DEFAULT_PREC then d else DEFAULT_PREC - 1;
    if DigitCount(raw) <= 30 {
      ShortQuotient(raw, d, m, 30 - DigitCount(raw));
    } else {
      LongQuotientRounds(raw, d, m, DigitCount(raw) - 30);
    }
  }

  // ---------------------------------------------------------------- the text

  lemma {:induction false} RStripZerosOfFraction(prefix: string, fraction: string)
    requires prefix != "" && prefix[|prefix| - 1] == '.'
    ensures RStrip(prefix + fraction, '0') == prefix + RStrip(fraction, '0')
  {
    var s := prefix + fraction;
    if fraction != "" {
      assert s[..|s| - 1] == prefix + fraction[..|fraction| - 1];
      RStripZerosOfFraction(prefix, fraction[..|fraction| - 1]);
    } else {
      assert s == prefix && prefix + "" == prefix;
    }
  }

  lemma RStripStays(s: string, c: char)
    requires s != "" && s[|s| - 1] != c
    ensures RStrip(s, c) == s && RStrip(s + [c], c) == s
  {
    assert (s + [c])[..|s|] == s;
  }

  lemma KeptEndsInDigit(fraction: string)
    requires AllDigits(fraction)
    ensures var kept := RStrip(fraction, '0'); kept != "" ==> IsDigit(kept[|kept| - 1])
  {
  }

  lemma ShownText(whole: string, fraction: string)
    requires whole != "" && whole[|whole| - 1] != '.' && AllDigits(fraction)
    ensures var kept := RStrip(fraction, '0');
      Shown(whole + "." + fraction) == if kept == "" then whole else whole + "." + kept
  {
    hide RStrip;
    var kept := RStrip(fraction, '0');
    RStripZerosOfFraction(whole + ".", fraction);
    KeptEndsInDigit(fraction);
    assert (whole + "." + fraction)[|whole|] == '.';
    assert whole + "." + fraction == (whole + ".") + fraction;
    var text := whole + "." + kept;
    assert text == (whole + ".") + kept;
    if kept == "" {
      RStripStays(whole, '.');
      assert text == whole + ['.'];
    } else {
      assert text[|text| - 1] == kept[|kept| - 1];
      RStripStays(text, '.');
    }
  }

  /** Trailing zeros of a fraction only scale the digits. */
  lemma StrippedDigits(whole: string, fraction: string)
    requires AllDigits(whole) && AllDigits(fraction)
    ensures var kept := RStrip(fraction, '0');
      Append(NatOf(whole + kept), |fraction| - |kept|) == NatOf(whole + fraction)
  {
    hide NatOf, Append, RStrip, Pow10;
    var kept := RStrip(fraction, '0');
    var j := |fraction| - |kept|;
    AppendIsProduct(NatOf(whole + kept), j);
    assert fraction == kept + Zeros(j);
    assert whole + fraction == (whole + kept) + Zeros(j);
    NatOfZeros(j);
    NatOfConcatenation(whole + kept, Zeros(j));
  }

  /** A plain text whose number is `units` of a token with `d` decimals. */
  ghost predicate Shows(text: string, d: nat, units: nat) {
    Plain(text) &&
    match ParseMantissa(text)
    case Some(y) => Denotes(y, d, units)
    case None => false
  }

  /** Stripping trailing zeros, and the point when no fraction is left, keeps the number. */
  lemma StrippingKeepsValue(digits: string, k: nat, d: nat, units: nat)
    requires AllDigits(digits) && digits != "" && Denotes(Dec(NatOf(digits), -(k as int)), d, units)
    ensures Shows(Shown(Pointed(digits, k)), d, units)
  {
    hide Pointed, Shown, Append, NatOf, RStrip, ParseMantissa, Plain;
    var whole, fraction := PointedParts(digits, k);
    var kept := RStrip(fraction, '0');
    ShownText(whole, fraction);
    StrippedDigits(whole, fraction);
    AppendTwice(NatOf(whole + kept), k - |kept|, d - k);
    if kept == "" {
      assert whole + kept == whole;
      WholeMantissa(whole);
    } else {
      PointedMantissa(whole, kept);
    }
  }

  lemma ShownDenotes(x: Dec, d: nat, units: nat)
    requires Denotes(x, d, units)
    ensures Shows(Shown(FormatFixed(x)), d, units)
  {
    hide Append, NatOf, Str, Pointed, RStrip;
    if x.exp >= 0 {
      var n := Append(x.coeff, x.exp);
      NatOfStr(n);
      WholeMantissa(Str(n));
      AppendTwice(x.coeff, x.exp, d);
      assert '.' !in Str(n);
    } else {
      NatOfStr(x.coeff);
      StrippingKeepsValue(Str(x.coeff), -x.exp, d, units);
    }
  }

  // ---------------------------------------------------------------- the promise

  lemma RoundedError(raw: nat)
    ensures raw < Pow10(DEFAULT_PREC) ==> Rounded(raw) == raw
    ensures -5 * raw <= (Rounded(raw) - raw) * Pow10(DEFAULT_PREC) <= 5 * raw
  {
    hide Pow10, HalfEven, DigitCount, Append;
    if raw < Pow10(DEFAULT_PREC) {
      DigitCountAtMost(raw, DEFAULT_PREC);
    }
    if DigitCount(raw) > DEFAULT_PREC {
      LongError(raw);
    } else {
      assert Rounded(raw) - raw == 0;
      assert (Rounded(raw) - raw) * Pow10(DEFAULT_PREC) == 0;
    }
  }

  lemma LongError(raw: nat)
    requires DigitCount(raw) > DEFAULT_PREC
    ensures -5 * raw <= (Rounded(raw) - raw) * Pow10(DEFAULT_PREC) <= 5 * raw
  {
    hide Pow10, HalfEven, DigitCount, Append;
    LongIsPositive(raw);
    var drop := DigitCount(raw) - DEFAULT_PREC;
    DigitCountBounds(raw);
    Pow10Adds(DEFAULT_PREC - 1, drop);
    HalfEvenBounds(raw, drop);
    AppendIsProduct(HalfEven(raw, drop), drop);
    ScaledError(Rounded(raw) - raw, Pow10(drop), Pow10(DEFAULT_PREC - 1), raw);
    NextPower(DEFAULT_PREC - 1);
  }

  lemma NextPower(n: nat)
    ensures Pow10(n + 1) == 10 * Pow10(n)
  {
  }

  lemma ScaledError(error: int, unit: nat, lead: nat, raw: nat)
    requires -(unit as int) <= 2 * error <= unit && lead * unit <= raw
    ensures -5 * raw <= error * (10 * lead) <= 5 * raw
  {
    MulMonotone(2 * error, unit, lead);
    MulMonotone(-(unit as int), 2 * error, lead);
    assert error * (10 * lead) == 5 * (2 * error * lead);
  }

  /** For every balance the displayed text denotes the balance rounded once to 28
      significant digits: exact below ten to the 28, and never further off than
      5 * 10^-28 of the balance. Only a balance of a million digits raises. */
  lemma DisplayIsAccurate(raw: nat, d: nat)
    requires d <= MAX_DISPLAY_DECIMALS
    ensures match DisplayUnits(raw, d)
      case Raised(_) => DigitCount(raw) > EMAX
      case Ok(text) =>
        match Denoted(text)
        case Some(y) => Denotes(y, d, Rounded(raw))
        case None => false
    ensures raw < Pow10(DEFAULT_PREC) ==> Rounded(raw) == raw
    ensures -5 * raw <= (Rounded(raw) - raw) * Pow10(DEFAULT_PREC) <= 5 * raw
  {
    RoundedError(raw);
    DisplayText(raw, d);
    if DisplayUnits(raw, d).Ok? {
      PlainParses(DisplayUnits(raw, d).value);
    }
  }

  lemma DisplayText(raw: nat, d: nat)
    requires d <= MAX_DISPLAY_DECIMALS
    ensures match DisplayUnits(raw, d)
      case Raised(_) => DigitCount(raw) > EMAX
      case Ok(text) => Shows(text, d, Rounded(raw))
  {
    hide Divide, Shown, FormatFixed, Shows, Denotes, Rounded, Pow10, PowerOfTen;
    ScaleOfTen(d);
    if raw == 0 {
      ZeroDisplay(d);
    } else {
      DisplayQuotient(raw, d);
      var m := if d < DEFAULT_PREC then d else DEFAULT_PREC - 1;
      var quotient := Divide(Dec(raw, 0), Dec(Pow10(m), d - m), DEFAULT);
      if quotient.Ok? {
        ShownDenotes(quotient.value, d, Rounded(raw));
      }
    }
  }

  lemma ZeroDisplay(d: nat)
    requires d <= MAX_DISPLAY_DECIMALS
    ensures DisplayUnits(0, d) == Ok("0")
    ensures Shows("0", d, Rounded(0))
  {
    ScaleOfTen(d);
    assert Str(0) == "0";
    NatOfStr(0);
    WholeMantissa("0");
  }

  /** Below ten to the 28 the displayed text parses back to the balance. */
  lemma DisplayParsesBack(raw: nat, d: nat)
    requires d <= MAX_DECIMALS && raw < Pow10(DEFAULT_PREC)
    ensures DisplayUnits(raw, d).Ok? && ParseUnits(DisplayUnits(raw, d).value, d) == Ok(raw)
  {
    RoundedError(raw);
    DigitCountAtMost(raw, DEFAULT_PREC);
    DisplayText(raw, d);
    ShownParses(DisplayUnits(raw, d).value, d, raw);
  }

  lemma ShownParses(text: string, d: nat, raw: nat)
    requires d <= MAX_DECIMALS && DigitCount(raw) <= DEFAULT_PREC && Shows(text, d, raw)
    ensures ParseUnits(text, d) == Ok(raw)
  {
    hide TooLarge, Vanishes, Denotes, Append, ToRaw;
    PlainParses(text);
    LiteralDigits(text);
    var y := ParseMantissa(text).value;
    UnitsInRange(y, |text|, d, raw);
    ToRawExact(y, |text|, d);
  }

  lemma UnitsInRange(y: Dec, length: nat, d: nat, raw: nat)
    requires d <= MAX_DECIMALS && DigitCount(raw) <= DEFAULT_PREC && Denotes(y, d, raw)
    ensures y.coeff > 0 ==> !TooLarge(y, d) && !Vanishes(y, length, d)
    ensures IsIntegral(Shifted(y, d)) && IntOf(Shifted(y, d)) == raw
  {
    if y.coeff > 0 {
      AppendDigits(y.coeff, y.exp + d);
    }
  }

  /** A negative balance shows its amount behind a minus. */
  lemma NegativeDisplay(raw: nat, d: int)
    requires raw > 0
    ensures DisplayUnits(-(raw as int), d) == match DisplayUnits(raw, d)
      case Ok(text) => Ok("-" + text)
      case Raised(message) => Raised(message)
  {
    hide FormatFixed, Divide, PowerOfTen, Shown, IntText;
    if 0 <= d <= MAX_DISPLAY_DECIMALS {
      ScaleOfTen(d);
      DisplayQuotient(raw, d);
      var quotient := Divide(Dec(raw, 0), PowerOfTen(d, DEFAULT).value, DEFAULT);
      if quotient.Ok? {
        MinusIsShown(quotient.value);
      }
    }
  }

  lemma MinusIsShown(x: Dec)
    ensures Shown("-" + FormatFixed(x)) == "-" + Shown(FormatFixed(x))
  {
    hide Str, Pointed, Append, NatOf, Shown, RStrip;
    if x.exp >= 0 {
      WholeIsShown("", Str(Append(x.coeff, x.exp)));
      WholeIsShown("-", Str(Append(x.coeff, x.exp)));
      assert "" + Str(Append(x.coeff, x.exp)) == Str(Append(x.coeff, x.exp));
    } else {
      var whole, fraction := PointedParts(Str(x.coeff), -x.exp);
      MinusPointIsShown(whole, fraction);
    }
  }

  lemma MinusPointIsShown(whole: string, fraction: string)
    requires AllDigits(whole) && AllDigits(fraction) && whole != ""
    ensures Shown("-" + (whole + "." + fraction)) == "-" + Shown(whole + "." + fraction)
  {
    hide Shown, RStrip;
    var kept, minus := RStrip(fraction, '0'), "-" + whole;
    assert minus[|minus| - 1] == whole[|whole| - 1];
    ShownText(whole, fraction);
    ShownText(minus, fraction);
    Regrouped("-", whole, ".", fraction);
    Regrouped("-", whole, ".", kept);
  }

  lemma Regrouped(a: string, b: string, c: string, d: string)
    ensures a + (b + c + d) == (a + b) + c + d
  {
  }

  lemma WholeIsShown(sign: string, digits: string)
    requires AllDigits(digits) && digits != "" && (sign == "" || sign == "-")
    ensures Shown(sign + digits) == sign + digits
  {
    assert '.' !in sign + digits;
  }

  /** Decimals that are none leave the balance as it is. */
  lemma OddDecimalsShowRaw(raw: nat, d: int)
    requires (d < 0 || d > 256) && DigitCount(raw) <= MAX_STR_DIGITS
    ensures DisplayUnits(raw, d) == Ok(Str(raw))
  {
  }
}
