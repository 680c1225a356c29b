/** `parse_units` on the texts people write (digits, perhaps a point, perhaps a minus), and the
    texts that `format_units` writes. */
module PlainAmounts {
  import opened Outcomes
  import opened Positional
  import opened Text
  import opened TextLaws
  import opened Decimals
  import opened Amounts
  import opened LiteralLaws
  import opened AmountLaws

  /** Digits, a point and digits. */
  predicate IsPointed(whole: string, fraction: string) {
    AllDigits(whole) && AllDigits(fraction) && whole != ""
  }

  /** A text without blanks at its ends, plus in front or underscores is taken as it is. */
  lemma TakenAsItIs(t: string)
    requires Inked(t) && t != "" && t[0] != '+' && '_' !in t
    ensures Candidate(t) == t && Squeezed(t) == t && Strip(t) == t
  {
    hide Candidate, Strip;
    assert t == "" + t + "";
    CandidateMeans("", t, "");
    StripMeans("", t, "");
    WithoutAbsent(t, '_');
  }

  lemma PointedIsPlain(sign: Sign, whole: string, fraction: string)
    requires IsPointed(whole, fraction) && sign != Plus
    ensures var t := sign.Text() + (whole + "." + fraction); Inked(t) && t != "" && t[0] != '+' && '_' !in t
  {
    var t := sign.Text() + (whole + "." + fraction);
    assert t[|t| - 1] == if fraction == "" then '.' else fraction[|fraction| - 1];
    assert t[0] == if sign == Minus then '-' else whole[0];
  }

  lemma PointedIsWritten(sign: Sign, whole: string, fraction: string)
    requires IsPointed(whole, fraction)
    ensures AllDigits(whole + fraction)
    ensures var s := Spelling(sign, whole, Some(fraction), Unscaled);
      && s.Valid() && s.Text() == sign.Text() + (whole + "." + fraction)
      && s.Value() == Dec(NatOf(whole + fraction), -|fraction|)
  {
    hide NatOf;
    JoinedDigits(whole, fraction);
    assert whole + "." + fraction == whole + ("." + fraction);
    assert whole + ("." + fraction) + "" == whole + ("." + fraction);
  }

  lemma PointedDenotes(sign: Sign, whole: string, fraction: string)
    requires IsPointed(whole, fraction) && sign != Plus
    ensures AllDigits(whole + fraction)
    ensures var t, x := sign.Text() + (whole + "." + fraction), Dec(NatOf(whole + fraction), -|fraction|);
      && Candidate(t) == t && Strip(t) != "" && ParseLiteral(t) == Finite(sign == Minus, x)
  {
    hide ParseLiteral, Squeezed, Candidate, NatOf, Strip;
    PointedIsWritten(sign, whole, fraction);
    PointedIsPlain(sign, whole, fraction);
    TakenAsItIs(sign.Text() + (whole + "." + fraction));
    SpellingIsRead(sign.Text() + (whole + "." + fraction), Spelling(sign, whole, Some(fraction), Unscaled));
  }

  /** A minus in front of anything but zero is refused. */
  lemma NegativeIsRefused(whole: string, fraction: string, d: int)
    requires IsPointed(whole, fraction) && exists i :: 0 <= i < |whole + fraction| && (whole + fraction)[i] != '0'
    ensures ParseUnits("-" + (whole + "." + fraction), d).Raised?
  {
    hide ParseLiteral, Candidate, NatOf, Strip;
    PointedDenotes(Minus, whole, fraction);
    SomeDigitCounts(whole + fraction);
  }

  lemma {:induction false} SomeDigitCounts(s: string)
    requires AllDigits(s) && exists i :: 0 <= i < |s| && s[i] != '0'
    ensures NatOf(s) > 0
  {
    hide NatOf;
    var before, last := s[..|s| - 1], s[|s| - 1];
    assert s == before + [last];
    NatOfAppends(before, last);
    if last == '0' {
      var i :| 0 <= i < |s| && s[i] != '0';
      assert before[i] == s[i];
      SomeDigitCounts(before);
    }
  }

  /** With no more fractional digits than the token has decimals, the units are the digits,
      filled up with zeros. */
  lemma PlainParsesExactly(whole: string, fraction: string, d: nat)
    requires IsPointed(whole, fraction) && |fraction| <= d <= MAX_DECIMALS && |whole| + d <= EMAX
    ensures AllDigits(whole + fraction)
    ensures ParseUnits(whole + "." + fraction, d) == Ok(NatOf(whole + fraction) * Pow10(d - |fraction|))
  {
    hide ParseLiteral, Candidate, NatOf, Strip, TooLarge, Vanishes, IsIntegral, IntOf, ParseUnits;
    PointedDenotes(Bare, whole, fraction);
    var t, x := whole + "." + fraction, Dec(NatOf(whole + fraction), -|fraction|);
    assert Bare.Text() + t == t;
    ParsingDenoted(t, d);
    PlainIsModerate(whole + fraction, |fraction|, |t|, d);
    IntegralMeans(Shifted(x, d), NatOf(whole + fraction) * Pow10(d - |fraction|));
    assert NatOf(whole + fraction) * Pow10(d - |fraction|) * Pow10(0) == NatOf(whole + fraction) * Pow10(d - |fraction|);
  }

  lemma PlainIsModerate(digits: string, k: nat, length: nat, d: nat)
    requires AllDigits(digits) && digits != "" && k <= d <= MAX_DECIMALS && k <= |digits| && |digits| - k + d <= EMAX
    ensures var x := Dec(NatOf(digits), -(k as int)); !TooLarge(x, d) && !Vanishes(x, length, d)
  {
    hide NatOf, CarriesOut, Pow10;
    NatOfBelowPower(digits);
    DigitCountAtMost(NatOf(digits), |digits|);
  }

  /** More fractional digits than decimals are accepted only when the extra ones are zeros. */
  lemma ExtraDigitsAreRefused(whole: string, fraction: string, d: nat)
    requires IsPointed(whole, fraction) && d <= MAX_DECIMALS && d < |fraction| < 900000 && |whole| + d <= EMAX
    ensures AllDigits(whole + fraction)
    ensures ParseUnits(whole + "." + fraction, d).Ok? <==> EndsInZeros(NatOf(whole + fraction), |fraction| - d)
  {
    hide ParseLiteral, Candidate, NatOf, Strip, TooLarge, Vanishes, IntOf, ParseUnits, EndsInZeros;
    PointedDenotes(Bare, whole, fraction);
    var t, x := whole + "." + fraction, Dec(NatOf(whole + fraction), -|fraction|);
    assert Bare.Text() + t == t;
    ParsingDenoted(t, d);
    LongIsModerate(whole + fraction, |fraction|, |t|, d);
  }

  lemma LongIsModerate(digits: string, k: nat, length: nat, d: nat)
    requires AllDigits(digits) && digits != "" && k < 900000 && k <= |digits| && |digits| - k + d <= EMAX
    ensures var x := Dec(NatOf(digits), -(k as int)); !TooLarge(x, d) && !Vanishes(x, length, d)
  {
    hide NatOf, CarriesOut, Pow10;
    NatOfBelowPower(digits);
    DigitCountAtMost(NatOf(digits), |digits|);
  }

  /** Decimals outside 0 to 77 are refused, whatever the amount. */
  lemma OddDecimalsAreRefused(amount: string, raw: int, decimals: int)
    requires decimals < 0 || decimals > 77
    ensures ParseUnits(amount, decimals).Raised? && FormatUnits(raw, decimals).Raised?
  {
  }

  // ---------------------------------------------------------------- formatting

  /** Stripping stops only at a digit that is not zero, or at the limit. */
  lemma {:induction false} StripStops(c: nat, e: int, limit: int)
    requires c > 0 && e <= limit
    ensures var r := StripZeros(c, e, limit); r.exp == limit || r.coeff % 10 != 0
    decreases c
  {
    if c % 10 == 0 && e < limit {
      StripStops(c / 10, e + 1, limit);
    }
  }

  lemma {:induction false} FirstDigit(n: nat)
    requires n > 0
    ensures FixedWidth(n, 10, DigitCount(n))[0] > 0
  {
    if n >= 10 {
      FirstDigit(n / 10);
    } else {
      assert FixedWidth(n, 10, 1) == [n];
    }
  }

  /** A number is written without a zero in front, and its last character is its last digit. */
  lemma StrShape(n: nat)
    requires n > 0
    ensures Str(n)[0] != '0'
    ensures Str(n)[|Str(n)| - 1] == '0' <==> n % 10 == 0
  {
    FirstDigit(n);
    var k := DigitCount(n);
    assert FixedWidth(n, 10, k)[k - 1] == n % 10;
  }

  /** No zero in front but a single one, none behind the point at the end. */
  predicate IsShortest(whole: string, fraction: string) {
    && IsPointed(whole, fraction) && (whole == "0" || whole[0] != '0')
    && fraction != "" && fraction[|fraction| - 1] != '0'
  }

  lemma PointedShape(digits: string, k: nat) returns (whole: string, fraction: string)
    requires AllDigits(digits) && digits != "" && digits[0] != '0' && digits[|digits| - 1] != '0' && k > 0
    ensures Pointed(digits, k) == whole + "." + fraction && IsShortest(whole, fraction) && |fraction| == k
    ensures AllDigits(whole + fraction) && NatOf(whole + fraction) == NatOf(digits)
  {
    hide NatOf;
    var pad := if |digits| > k then 0 else k + 1 - |digits|;
    var padded := Zeros(pad) + digits;
    whole, fraction := padded[..|padded| - k], padded[|padded| - k..];
    assert whole + fraction == padded;
    PaddingKeepsValue(digits, pad);
    if pad > 0 {
      assert whole == "0";
    } else {
      assert whole[0] == digits[0];
    }
    assert fraction[k - 1] == digits[|digits| - 1];
  }

  lemma DisplayedShape(raw: nat, d: nat)
    requires raw > 0 && d <= MAX_DECIMALS
    ensures var x := Displayed(raw, d);
      && x.coeff > 0 && -(d as int) <= x.exp <= 0 && x.coeff * Pow10(x.exp + d) == raw
      && (x.exp == 0 <==> EndsInZeros(raw, d)) && (x.exp < 0 ==> x.coeff % 10 != 0)
  {
    hide StripZeros, EndsInZeros;
    var x := Displayed(raw, d);
    StripKeepsNumber(raw, -(d as int), 0);
    StripStops(raw, -(d as int), 0);
    if EndsInZeros(raw, d) {
      StripReaches(raw, -(d as int), 0, d);
    }
    if x.exp == 0 {
      WholeEndsInZeros(x.coeff, d);
    }
  }

  lemma WholeEndsInZeros(c: nat, d: nat)
    ensures EndsInZeros(c * Pow10(d), d) && Chop(c * Pow10(d), d) == c
  {
    QuotientAndRemainder(c, Pow10(d), 0);
  }

  /** The text that stands for so many units: the whole tokens alone when there is nothing behind
      the point, and otherwise the shortest digits on both sides of it. */
  ghost predicate WritesUnits(text: string, raw: nat, d: nat) {
    if EndsInZeros(raw, d) then text == Str(Chop(raw, d))
    else
      exists whole, fraction ::
        && text == whole + "." + fraction && IsShortest(whole, fraction) && |fraction| <= d
        && AllDigits(whole + fraction) && NatOf(whole + fraction) * Pow10(d - |fraction|) == raw
  }

  /** `format_units` writes exactly this text. */
  lemma FormatUnitsText(raw: nat, d: nat)
    requires d <= MAX_DECIMALS && DigitCount(raw) <= MAX_STR_DIGITS
    ensures FormatUnits(raw, d).Ok? && WritesUnits(FormatUnits(raw, d).value, raw, d)
  {
    hide Displayed, Str, Pointed, NatOf, EndsInZeros, Chop, FormatUnits, Pow10;
    FormatUnitsExact(raw, d);
    if raw == 0 {
      ZeroIsWhole(d);
    } else {
      var x := Displayed(raw, d);
      DisplayedShape(raw, d);
      if x.exp == 0 {
        WholeEndsInZeros(x.coeff, d);
        AppendIsProduct(x.coeff, 0);
        assert Append(x.coeff, 0) == x.coeff by {
          PowerOfNothing();
        }
      } else {
        StrShape(x.coeff);
        NatOfStr(x.coeff);
        var whole, fraction := PointedShape(Str(x.coeff), -x.exp);
        assert FormatUnits(raw, d).value == whole + "." + fraction;
      }
    }
  }

  lemma PowerOfNothing()
    ensures Pow10(0) == 1
  {
  }

  lemma ZeroIsWhole(d: nat)
    ensures EndsInZeros(0, d) && Chop(0, d) == 0 && FormatFixed(Displayed(0, d)) == Str(0)
  {
    hide Str;
    WholeEndsInZeros(0, d);
    assert 0 * Pow10(d) == 0;
  }
}
