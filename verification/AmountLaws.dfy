/** What `format_units` and `parse_units` promise, for every amount. */
module AmountLaws {
  import opened Outcomes
  import opened Positional
  import opened Text
  import opened Decimals
  import opened Amounts
  import opened LiteralLaws

  /** `x` times ten to the `d`, exactly. */
  function Shifted(x: Dec, d: nat): Dec {
    Dec(x.coeff, x.exp + d)
  }

  /** The scaled amount lies beyond the largest exponent, or (only without decimals) the
      28-digit rounding of `normalize()` carries past it. */
  predicate TooLarge(x: Dec, d: nat) {
    Adjusted(x) + d > EMAX || (d == 0 && Adjusted(x) == EMAX && CarriesOut(x.coeff))
  }

  /** Rounding `c` to 28 digits carries into a new leading digit. */
  predicate CarriesOut(c: nat) {
    DigitCount(c) > DEFAULT_PREC && HalfEven(c, DigitCount(c) - DEFAULT_PREC) == Pow10(DEFAULT_PREC)
  }

  /** At most half of the smallest positive number of a context. */
  predicate Underflows(x: Dec, ctx: Context) {
    x.exp < ctx.Etiny() && 2 * x.coeff <= Pow10(ctx.Etiny() - x.exp)
  }

  /** A positive amount so small that both `normalize()` and the product become zero. */
  predicate Vanishes(x: Dec, length: nat, d: nat) {
    x.coeff > 0 && Underflows(x, DEFAULT) && Underflows(Dec(Append(x.coeff, d), x.exp), ProductContext(length, d))
  }

  // ---------------------------------------------------------------- arithmetic

  lemma CommonFactor(c: nat, q: nat, p: nat)
    requires q > 0 && p > 0
    ensures q * p > 0
    ensures (c * p) / (q * p) == c / q
    ensures (c * p) % (q * p) == (c % q) * p
  {
    ProductPositive(q, p);
    var a, b := c / q, c % q;
    assert c * p == a * (q * p) + b * p by {
      assert c == a * q + b;
      MulAssociates(a, q, p);
    }
    MulMonotone(b + 1, q, p);
    QuotientAndRemainder(a, q * p, b * p);
  }

  /** Appending `d` zeros to the coefficient is the same as raising the exponent by `d`. */
  lemma AppendIsShift(c: nat, d: nat, e: int)
    ensures IsIntegral(Dec(Append(c, d), e)) <==> IsIntegral(Dec(c, e + d))
    ensures IsIntegral(Dec(c, e + d)) ==> IntOf(Dec(Append(c, d), e)) == IntOf(Dec(c, e + d))
  {
    if e >= 0 {
      Pow10Adds(d, e);
      MulAssociates(c, Pow10(d), Pow10(e));
    } else if e + d >= 0 {
      Pow10Adds(e + d, -e);
      MulAssociates(c, Pow10(e + d), Pow10(-e));
      QuotientAndRemainder(c * Pow10(e + d), Pow10(-e), 0);
    } else {
      Pow10Adds(-(e + d), d);
      CommonFactor(c, Pow10(-(e + d)), Pow10(d));
      var r := c % Pow10(-(e + d));
      if r > 0 {
        ProductPositive(r, Pow10(d));
      }
    }
  }

  lemma AppendDigits(c: nat, d: nat)
    requires c > 0
    ensures DigitCount(Append(c, d)) == DigitCount(c) + d
  {
    DigitCountScaled(c, d);
  }

  lemma SmallQuotient(c: nat, unit: nat)
    requires unit > 0
    ensures c / unit == 0 <==> c < unit
    ensures c < unit ==> c % unit == c
    ensures unit >= 10 ==> 10 * (c / unit) <= c
  {
    assert c == c / unit * unit + c % unit;
    if c < unit {
      QuotientAndRemainder(0, unit, c);
    } else if unit >= 10 {
      MulMonotone(10, unit, c / unit);
    }
  }

  lemma PowerDigits(d: nat)
    ensures DigitCount(Pow10(d)) == d + 1
  {
    AppendDigits(1, d);
    assert Append(1, d) == Pow10(d);
  }

  lemma HalfEvenVanishes(c: nat, drop: nat)
    requires drop >= 1
    ensures HalfEven(c, drop) == 0 <==> 2 * c <= Pow10(drop)
    ensures HalfEven(c, drop) <= c
  {
    SmallQuotient(c, Pow10(drop));
  }

  lemma SmallRemainder(c: nat, k: nat)
    requires 0 < c < Pow10(k)
    ensures !EndsInZeros(c, k)
  {
    QuotientAndRemainder(0, Pow10(k), c);
  }

  /** A multiple of ten to the `k` loses nothing when fewer digits are dropped. */
  lemma DropZeros(c: nat, drop: nat, k: nat)
    requires drop <= k && EndsInZeros(c, k)
    ensures Append(HalfEven(c, drop), drop) == c
    ensures EndsInZeros(HalfEven(c, drop), k - drop)
  {
    var a := Chop(c, k);
    var p, q := Pow10(k - drop), Pow10(drop);
    Pow10Adds(k - drop, drop);
    ExactQuotient(c, a, p, q);
    assert HalfEven(c, drop) == a * p;
    QuotientAndRemainder(a, p, 0);
  }

  lemma ExactQuotient(c: nat, a: nat, p: nat, q: nat)
    requires p > 0 && q > 0 && p * q > 0
    requires c / (p * q) == a && c % (p * q) == 0
    ensures c / q == a * p && c % q == 0 && c == a * p * q
  {
    assert c == a * (p * q);
    MulAssociates(a, p, q);
    QuotientAndRemainder(a * p, q, 0);
  }

  // ---------------------------------------------------------------- the product

  lemma ScaleFits(length: nat, d: nat)
    requires d <= MAX_DECIMALS
    ensures PowerOfTen(d, ProductContext(length, d)) == Ok(Dec(Pow10(d), 0))
  {
    PowerDigits(d);
    FixExact(Dec(Pow10(d), 0), ProductContext(length, d));
  }

  /** The precision of the product never rounds it; only the exponent limits can. */
  lemma ProductIsExact(x: Dec, length: nat, d: nat)
    requires d <= MAX_DECIMALS && 0 < x.coeff && DigitCount(x.coeff) <= length
    ensures var ctx, y := ProductContext(length, d), Dec(Append(x.coeff, d), x.exp);
      Multiply(x, Dec(Pow10(d), 0), ctx)
      == if Adjusted(x) + d > EMAX then Raised("Overflow")
         else if x.exp >= ctx.Etiny() then Ok(y)
         else Ok(Dec(HalfEven(y.coeff, ctx.Etiny() - x.exp), ctx.Etiny()))
  {
    hide Pow10, HalfEven, DigitCount, Append;
    var ctx, y := ProductContext(length, d), Dec(Append(x.coeff, d), x.exp);
    AppendIsProduct(x.coeff, d);
    AppendDigits(x.coeff, d);
    assert Multiply(x, Dec(Pow10(d), 0), ctx) == Fix(y, ctx);
    assert y.coeff > 0;
    if x.exp < ctx.Etiny() {
      HalfEvenVanishes(y.coeff, ctx.Etiny() - x.exp);
      DigitCountMonotone(HalfEven(y.coeff, ctx.Etiny() - x.exp), y.coeff);
    }
  }

  /** A product pushed below the smallest exponent is no integer, before and after. */
  lemma TinyProduct(x: Dec, length: nat, d: nat)
    requires d <= MAX_DECIMALS && 0 < x.coeff && DigitCount(x.coeff) <= length
    requires x.exp < ProductContext(length, d).Etiny()
    ensures !IsIntegral(Shifted(x, d))
    ensures var low := ProductContext(length, d).Etiny();
      var h := HalfEven(Append(x.coeff, d), low - x.exp);
      (h == 0 <==> Underflows(Dec(Append(x.coeff, d), x.exp), ProductContext(length, d)))
      && (h > 0 ==> !IsIntegral(Dec(h, low)))
  {
    hide HalfEven, Pow10, DigitCount, Append, EndsInZeros;
    var ctx := ProductContext(length, d);
    var low, y := ctx.Etiny(), Append(x.coeff, d);
    AppendDigits(x.coeff, d);
    DigitCountBounds(y);
    Pow10Monotone(DigitCount(y), -low);
    Pow10Monotone(-low, -x.exp);
    SmallRemainder(y, -x.exp);
    AppendIsShift(x.coeff, d, x.exp);
    HalfEvenVanishes(y, low - x.exp);
    var h := HalfEven(y, low - x.exp);
    if h > 0 {
      SmallRemainder(h, -low);
    }
  }

  // ---------------------------------------------------------------- normalize()

  /** The 28-digit rounding never adds fractional digits to an amount that has at most `d`. */
  lemma NormalizeKeepsScale(x: Dec, d: nat)
    requires d <= MAX_DECIMALS && x.coeff > 0
    requires IsIntegral(Shifted(x, d)) && !TooLarge(x, d)
    ensures Reduce(x, DEFAULT).Ok? && Reduce(x, DEFAULT).value.exp >= -(d as int)
  {
    FixNeverLowers(x, DEFAULT);
    if x.exp < -(d as int) {
      var n, k := DigitCount(x.coeff), -(x.exp + d);
      AtLeastPower(x.coeff, k);
      if n <= DEFAULT_PREC {
        StripReaches(x.coeff, x.exp, EMAX, k);
      } else if n - DEFAULT_PREC < k {
        RoundedStrip(x, k);
      }
    }
    NormalizeRaises(x);
  }

  lemma FixNeverLowers(x: Dec, ctx: Context)
    requires x.coeff > 0
    ensures match Fix(x, ctx)
      case Ok(y) => y.exp >= x.exp && (DigitCount(x.coeff) > ctx.prec ==> y.exp >= x.exp + DigitCount(x.coeff) - ctx.prec)
      case Raised(_) => true
  {
  }

  /** `normalize()` raises only above the exponent range, or when its rounding carries there. */
  lemma NormalizeRaises(x: Dec)
    requires x.coeff > 0
    ensures Reduce(x, DEFAULT).Raised?
      <==> Adjusted(x) > EMAX || (Adjusted(x) == EMAX && CarriesOut(x.coeff))
  {
    assert Reduce(x, DEFAULT).Raised? <==> Fix(x, DEFAULT).Raised?;
    var n := DigitCount(x.coeff);
    if n > DEFAULT_PREC && Adjusted(x) == EMAX {
      CarryDigits(x.coeff);
    }
  }

  lemma CarryDigits(c: nat)
    requires c > 0 && DigitCount(c) > DEFAULT_PREC
    ensures DigitCount(HalfEven(c, DigitCount(c) - DEFAULT_PREC)) > DEFAULT_PREC <==> CarriesOut(c)
  {
    hide HalfEven, Pow10, DigitCount;
    var h := HalfEven(c, DigitCount(c) - DEFAULT_PREC);
    HalfEvenDigits(c, DigitCount(c) - DEFAULT_PREC);
    PowerDigits(DEFAULT_PREC);
    if h < Pow10(DEFAULT_PREC) {
      DigitCountAtMost(h, DEFAULT_PREC);
    }
  }

  lemma AtLeastPower(c: nat, k: nat)
    requires c > 0 && EndsInZeros(c, k)
    ensures DigitCount(c) > k
  {
    DigitCountBounds(c);
    if DigitCount(c) <= k {
      Pow10Monotone(DigitCount(c), k);
      SmallRemainder(c, k);
    }
  }

  lemma RoundedStrip(x: Dec, k: nat)
    requires DigitCount(x.coeff) > DEFAULT_PREC && EndsInZeros(x.coeff, k)
    requires x.coeff > 0 && DigitCount(x.coeff) - DEFAULT_PREC < k
    requires -200 <= Adjusted(x) <= EMAX && x.exp + k <= 0
    ensures Reduce(x, DEFAULT).Ok? && Reduce(x, DEFAULT).value.exp >= x.exp + k
  {
    hide HalfEven, Pow10, DigitCount, EndsInZeros, StripZeros;
    var drop := DigitCount(x.coeff) - DEFAULT_PREC;
    var h := HalfEven(x.coeff, drop);
    HalfEvenDigits(x.coeff, drop);
    DropZeros(x.coeff, drop, k);
    DigitCountBounds(x.coeff);
    if h == Pow10(DEFAULT_PREC) {
      Pow10Adds(DEFAULT_PREC, drop);
    }
    DigitCountAtMost(h, DEFAULT_PREC);
    StripReaches(h, x.exp + drop, EMAX, k - drop);
  }

  /** An amount whose product underflows keeps too many digits unless it vanishes altogether. */
  lemma TinyNormalize(x: Dec, length: nat, d: nat)
    requires d <= MAX_DECIMALS && x.coeff > 0 && DigitCount(x.coeff) <= length
    requires Underflows(Dec(Append(x.coeff, d), x.exp), ProductContext(length, d))
    ensures Underflows(x, DEFAULT) ==> Reduce(x, DEFAULT) == Ok(Dec(0, 0))
    ensures !Underflows(x, DEFAULT) ==> Reduce(x, DEFAULT).Ok? && Reduce(x, DEFAULT).value.exp < -MAX_DECIMALS
  {
    var low, n := DEFAULT.Etiny(), DigitCount(x.coeff);
    AppendDigits(x.coeff, d);
    UnderflowDigits(Append(x.coeff, d), ProductContext(length, d).Etiny() - x.exp);
    assert Adjusted(x) < EMIN - 4;
    if x.exp >= low {
      StripKeepsNumber(x.coeff, x.exp, EMAX);
    } else {
      var h := HalfEven(x.coeff, low - x.exp);
      HalfEvenVanishes(x.coeff, low - x.exp);
      RoundedDigits(x.coeff, low - x.exp, DEFAULT_PREC - 1);
      if h > 0 {
        StripKeepsNumber(h, low, EMAX);
      }
    }
  }

  lemma UnderflowDigits(c: nat, k: nat)
    requires c > 0 && 2 * c <= Pow10(k)
    ensures DigitCount(c) <= k
  {
    if k == 0 {
      assert false;
    }
    DigitCountAtMost(c, k);
  }

  lemma RoundedDigits(c: nat, drop: nat, keep: nat)
    requires keep >= 1 && DigitCount(c) - drop <= keep
    ensures DigitCount(HalfEven(c, drop)) <= keep + 1
  {
    DigitCountBounds(c);
    HalfEvenBounds(c, drop);
    if DigitCount(c) > drop {
      Pow10Adds(DigitCount(c) - drop, drop);
      QuotientBetween(0, c, Pow10(DigitCount(c) - drop), Pow10(drop));
      Pow10Monotone(DigitCount(c) - drop, keep);
    } else {
      Pow10Monotone(DigitCount(c), drop);
      SmallQuotient(c, Pow10(drop));
    }
    DigitCountAtMost(HalfEven(c, drop), keep + 1);
  }

  // ---------------------------------------------------------------- parse_units

  /** `ToRaw` on every amount: exact inside the exponent range, an exception above it, and
      zero for the amounts that vanish below it. */
  lemma ToRawExact(x: Dec, length: nat, d: nat)
    requires d <= MAX_DECIMALS && DigitCount(x.coeff) <= length
    ensures TooLarge(x, d) && x.coeff > 0 ==> ToRaw(x, length, d).Raised?
    ensures Vanishes(x, length, d) ==> ToRaw(x, length, d) == Ok(0) && !IsIntegral(Shifted(x, d))
    ensures x.coeff == 0 || (!TooLarge(x, d) && !Vanishes(x, length, d)) ==>
              if IsIntegral(Shifted(x, d)) then ToRaw(x, length, d) == Ok(IntOf(Shifted(x, d)))
              else ToRaw(x, length, d).Raised?
  {
    hide HalfEven, Pow10, DigitCount, Append, EndsInZeros, StripZeros, Reduce, Multiply, PowerOfTen, CarriesOut;
    ScaleFits(length, d);
    if x.coeff == 0 {
      ZeroToRaw(x, length, d);
    } else {
      ProductIsExact(x, length, d);
      NormalizeRaises(x);
      if !TooLarge(x, d) {
        AppendIsShift(x.coeff, d, x.exp);
        if IsIntegral(Shifted(x, d)) {
          NormalizeKeepsScale(x, d);
        }
        if x.exp < ProductContext(length, d).Etiny() {
          TinyProduct(x, length, d);
          ZeroIsIntegral(ProductContext(length, d).Etiny());
        }
        if Underflows(Dec(Append(x.coeff, d), x.exp), ProductContext(length, d)) {
          TinyNormalize(x, length, d);
        }
      } else {
        UnderflowIsSmall(x, length, d);
      }
    }
  }

  lemma UnderflowIsSmall(x: Dec, length: nat, d: nat)
    requires d <= MAX_DECIMALS && TooLarge(x, d) && x.coeff > 0
    ensures !Underflows(x, DEFAULT)
  {
    if Underflows(x, DEFAULT) {
      UnderflowDigits(x.coeff, DEFAULT.Etiny() - x.exp);
    }
  }

  lemma ZeroIsIntegral(e: int)
    ensures IsIntegral(Dec(0, e)) && IntOf(Dec(0, e)) == 0
  {
    if e < 0 {
      QuotientAndRemainder(0, Pow10(-e), 0);
    }
  }

  lemma ZeroToRaw(x: Dec, length: nat, d: nat)
    requires d <= MAX_DECIMALS && x.coeff == 0
    ensures IsIntegral(Shifted(x, d)) && IntOf(Shifted(x, d)) == 0
    ensures ToRaw(x, length, d) == Ok(0)
  {
    ScaleFits(length, d);
    forall e
      ensures IsIntegral(Dec(0, e)) && IntOf(Dec(0, e)) == 0
    {
      ZeroIsIntegral(e);
    }
  }

  lemma LiteralDigits(text: string)
    ensures match ParseLiteral(text)
      case Finite(_, x) => DigitCount(x.coeff) <= |text|
      case _ => true
  {
    var t := Lower(Without(Strip(text), '_'));
    var body := if t != "" && (t[0] == '+' || t[0] == '-') then t[1..] else t;
    MantissaDigits(body[..IndexOf(body, 'e')]);
  }

  lemma MantissaDigits(m: string)
    ensures match ParseMantissa(m)
      case Some(x) => DigitCount(x.coeff) <= |m|
      case None => true
  {
    var dot := IndexOf(m, '.');
    var digits := m[..dot] + if dot < |m| then m[dot + 1..] else "";
    if AllDigits(digits) && digits != "" {
      NatOfBelowPower(digits);
      DigitCountAtMost(NatOf(digits), |digits|);
      Pow10IsPower(|digits|);
    }
  }

  /** The nonnegative finite amount a string denotes, if it denotes one. */
  function Denoted(amount: string): Option<Dec> {
    match ParseLiteral(Candidate(amount))
    case Finite(negative, x) => if negative && x.coeff > 0 then None else Some(x)
    case _ => None
  }

  /** The amount spells this number, and no negative one. */
  ghost predicate SpellsAmount(amount: string, x: Dec) {
    SpellsNumber(Candidate(amount), false, x) || (SpellsNumber(Candidate(amount), true, x) && x.coeff == 0)
  }

  /** So many units are what the amount spells. */
  ghost predicate SpellsUnits(amount: string, d: nat, raw: nat) {
    exists x :: SpellsAmount(amount, x) && SameNumber(Dec(raw, 0), Shifted(x, d))
  }

  /** The promise: accept exactly the spellings of nonnegative numbers whose value times ten to
      the `d` is a whole number, and return that number. */
  ghost predicate ParsesFaithfully(amount: string, d: nat) {
    forall raw: nat :: ParseUnits(amount, d) == Ok(raw) <==> SpellsUnits(amount, d, raw)
  }

  /** The inputs on which the promise fails: an integral amount beyond the exponent range
      of the default context, or one that vanishes below it. */
  ghost predicate OutsideExponentRange(amount: string, d: nat) {
    exists x :: SpellsAmount(amount, x) && x.coeff > 0
      && ((TooLarge(x, d) && exists raw: nat :: SameNumber(Dec(raw, 0), Shifted(x, d)))
          || Vanishes(x, |Candidate(amount)|, d))
  }

  lemma DenotedMeans(amount: string, x: Dec)
    ensures Denoted(amount) == Some(x) <==> SpellsAmount(amount, x)
  {
    hide ParseLiteral, SpellsNumber, Candidate;
    LiteralMeans(Candidate(amount), false, x);
    LiteralMeans(Candidate(amount), true, x);
  }

  /** `int(x)` of a whole number is that number. */
  lemma IntegralMeans(x: Dec, raw: nat)
    ensures SameNumber(Dec(raw, 0), x) <==> IsIntegral(x) && IntOf(x) == raw
  {
    if x.exp < 0 {
      DivisionIsNatural(x.coeff, Pow10(-x.exp));
      QuotientAndRemainder(raw, Pow10(-x.exp), 0);
    } else {
      AppendIsProduct(x.coeff, x.exp);
      assert raw * Pow10(0) == raw;
    }
  }

  /** `parse_units` keeps its promise exactly when the amount stays inside the exponent
      range; its chosen precisions are never the reason for a failure. */
  lemma ParseUnitsFaithful(amount: string, d: nat)
    requires d <= MAX_DECIMALS
    ensures ParsesFaithfully(amount, d) <==> !OutsideExponentRange(amount, d)
  {
    hide SpellsAmount, ParseUnits, SameNumber, TooLarge, Vanishes, IsIntegral, IntOf, Candidate, Denoted;
    forall x ensures Denoted(amount) == Some(x) <==> SpellsAmount(amount, x) {
      DenotedMeans(amount, x);
    }
    ParsingDenoted(amount, d);
    if Denoted(amount).Some? {
      var x := Denoted(amount).value;
      forall raw: nat
        ensures SameNumber(Dec(raw, 0), Shifted(x, d)) <==> IsIntegral(Shifted(x, d)) && IntOf(Shifted(x, d)) == raw
      {
        IntegralMeans(Shifted(x, d), raw);
      }
      FaithfulWhenDenoted(amount, d, x);
    } else {
      assert forall raw: nat :: !SpellsUnits(amount, d, raw);
    }
  }

  /** What parsing makes of the number an amount denotes. */
  lemma ParsingDenoted(amount: string, d: nat)
    requires d <= MAX_DECIMALS
    ensures match Denoted(amount)
      case None => ParseUnits(amount, d).Raised?
      case Some(x) =>
        if x.coeff > 0 && TooLarge(x, d) then ParseUnits(amount, d).Raised?
        else if Vanishes(x, |Candidate(amount)|, d) then
          ParseUnits(amount, d) == Ok(0) && x.coeff > 0 && !IsIntegral(Shifted(x, d))
        else if IsIntegral(Shifted(x, d)) then ParseUnits(amount, d) == Ok(IntOf(Shifted(x, d)))
        else ParseUnits(amount, d).Raised?
  {
    hide TooLarge, Vanishes, IsIntegral, IntOf, ToRaw, ParseLiteral, Candidate;
    BlankDenotesNothing(amount);
    LiteralDigits(Candidate(amount));
    match Denoted(amount)
    case Some(x) =>
      ToRawExact(x, |Candidate(amount)|, d);
      VanishingIsPositive(x, |Candidate(amount)|, d);
    case None =>
  }

  lemma VanishingIsPositive(x: Dec, length: nat, d: nat)
    ensures Vanishes(x, length, d) ==> x.coeff > 0
  {
  }

  lemma BlankDenotesNothing(amount: string)
    ensures Strip(amount) == "" ==> Denoted(amount).None?
  {
    assert Strip("") == "" && Without("", '_') == "";
  }

  lemma FaithfulWhenDenoted(amount: string, d: nat, x: Dec)
    requires d <= MAX_DECIMALS && Denoted(amount) == Some(x)
    requires forall y :: SpellsAmount(amount, y) <==> y == x
    requires forall raw: nat ::
      SameNumber(Dec(raw, 0), Shifted(x, d)) <==> IsIntegral(Shifted(x, d)) && IntOf(Shifted(x, d)) == raw
    ensures ParsesFaithfully(amount, d) <==> !OutsideExponentRange(amount, d)
  {
    hide SpellsAmount, ParseUnits, SameNumber, TooLarge, Vanishes, IsIntegral, IntOf, Candidate, Denoted;
    ParsingDenoted(amount, d);
    assert forall raw: nat :: SpellsUnits(amount, d, raw) <==> IsIntegral(Shifted(x, d)) && IntOf(Shifted(x, d)) == raw;
    if IsIntegral(Shifted(x, d)) {
      assert SameNumber(Dec(IntOf(Shifted(x, d)), 0), Shifted(x, d));
    }
    assert OutsideExponentRange(amount, d) <==> IsOutside(x, |Candidate(amount)|, d);
    if IsOutside(x, |Candidate(amount)|, d) {
      if TooLarge(x, d) {
        LargeNeverVanishes(x, |Candidate(amount)|, d);
        assert IsIntegral(Shifted(x, d)) ==> ParseUnits(amount, d) != Ok(IntOf(Shifted(x, d)));
      } else {
        assert ParseUnits(amount, d) == Ok(0) && !SpellsUnits(amount, d, 0);
      }
    }
  }

  lemma LargeNeverVanishes(x: Dec, length: nat, d: nat)
    requires d <= MAX_DECIMALS && TooLarge(x, d)
    ensures !Vanishes(x, length, d)
  {
    if x.coeff > 0 {
      UnderflowIsSmall(x, length, d);
    }
  }

  predicate IsOutside(x: Dec, length: nat, d: nat) {
    x.coeff > 0 && ((TooLarge(x, d) && IsIntegral(Shifted(x, d))) || Vanishes(x, length, d))
  }

  lemma OutsideIsUnfaithful(amount: string, d: nat, x: Dec)
    requires d <= MAX_DECIMALS && Denoted(amount) == Some(x) && IsOutside(x, |Candidate(amount)|, d)
    ensures !ParsesFaithfully(amount, d)
  {
    hide SpellsAmount, ParseUnits, SameNumber, TooLarge, Vanishes, IsIntegral, IntOf, Candidate, Denoted, ParsesFaithfully;
    ParseUnitsFaithful(amount, d);
    DenotedMeans(amount, x);
    if IsIntegral(Shifted(x, d)) {
      IntegralMeans(Shifted(x, d), IntOf(Shifted(x, d)));
    }
  }


  /** The amount spells a positive number too small for the arithmetic to tell from zero. */
  ghost predicate SpellsTiny(amount: string, d: nat) {
    exists x :: SpellsAmount(amount, x) && Vanishes(x, |Candidate(amount)|, d)
  }

  lemma WholeNumberDigits(x: Dec, d: nat, raw: nat)
    requires x.coeff > 0 && SameNumber(Dec(raw, 0), Shifted(x, d))
    ensures DigitCount(raw) == Adjusted(x) + d + 1
  {
    hide DigitCount, Pow10;
    var e := x.exp + d;
    if e >= 0 {
      DigitCountScaled(x.coeff, e);
    } else {
      DigitCountScaled(raw, -e);
    }
  }

  /** For a number of units with no more digits than the exponent range: it is what parsing
      yields exactly when the amount spells it, or when it is zero and the amount is tiny. */
  lemma ParseUnitsMeans(amount: string, d: nat, raw: nat)
    requires d <= MAX_DECIMALS && DigitCount(raw) <= EMAX
    ensures ParseUnits(amount, d) == Ok(raw) <==> SpellsUnits(amount, d, raw) || (raw == 0 && SpellsTiny(amount, d))
  {
    hide SpellsAmount, ParseUnits, SameNumber, Vanishes, IsIntegral, IntOf, Candidate, Denoted, CarriesOut, DigitCount;
    forall x ensures Denoted(amount) == Some(x) <==> SpellsAmount(amount, x) {
      DenotedMeans(amount, x);
    }
    ParsingDenoted(amount, d);
    if Denoted(amount).Some? {
      var x := Denoted(amount).value;
      IntegralMeans(Shifted(x, d), raw);
      if x.coeff > 0 && TooLarge(x, d) {
        LargeNeverVanishes(x, |Candidate(amount)|, d);
        if SameNumber(Dec(raw, 0), Shifted(x, d)) {
          WholeNumberDigits(x, d, raw);
        }
      }
    }
  }

  lemma PowerAtLeastTen(k: nat)
    requires k >= 1
    ensures Pow10(k) >= 10
  {
    Pow10Monotone(1, k);
  }

  // ---------------------------------------------------------------- format_units

  /** Text that starts with a digit and has nothing but digits, points and exponent parts. */
  predicate Numeral(s: string) {
    s != "" && IsDigit(s[0]) && forall c | c in s :: IsDigit(c) || c == '.' || c == 'e' || c == '-'
  }

  predicate Plain(s: string) {
    Numeral(s) && 'e' !in s
  }

  /** Nothing of a numeral is dropped before its digits are read. */
  lemma NumeralParses(s: string)
    requires Numeral(s)
    ensures Candidate(s) == s && Strip(s) == s
    ensures ParseLiteral(s) == ParseNumeral(false, s)
  {
    NumeralIsStripped(s);
    WithoutAbsent(s, '_');
    NumeralIsLower(s);
    NumeralIsNotSpecial(s);
    hide Strip, Without, Lower, IsSpecial, ParseNumeral;
  }

  lemma NumeralIsStripped(s: string)
    requires Numeral(s)
    ensures Strip(s) == s
  {
    assert s[|s| - 1] in s;
  }

  lemma NumeralIsLower(s: string)
    requires Numeral(s)
    ensures Lower(s) == s
  {
    forall i | 0 <= i < |s|
      ensures LowerChar(s[i]) == s[i]
    {
      assert s[i] in s;
    }
  }

  lemma NumeralIsNotSpecial(s: string)
    requires Numeral(s)
    ensures !IsSpecial(s)
  {
  }

  lemma PlainParses(s: string)
    requires Plain(s)
    ensures Candidate(s) == s && Strip(s) == s
    ensures ParseLiteral(s) == match ParseMantissa(s)
      case Some(x) => Finite(false, x)
      case None => Malformed
  {
    NumeralParses(s);
    assert IndexOf(s, 'e') == |s| && s[..|s|] == s;
  }

  lemma PointedMantissa(whole: string, fraction: string)
    requires AllDigits(whole) && AllDigits(fraction) && whole != ""
    ensures Plain(whole + "." + fraction)
    ensures ParseMantissa(whole + "." + fraction) == Some(Dec(NatOf(whole + fraction), -|fraction|))
  {
    var s := whole + "." + fraction;
    assert s[|whole|] == '.';
    assert IndexOf(s, '.') == |whole|;
    assert s[..|whole|] == whole;
    assert s[|whole| + 1..] == fraction;
  }

  lemma WholeMantissa(whole: string)
    requires AllDigits(whole) && whole != ""
    ensures Plain(whole)
    ensures ParseMantissa(whole) == Some(Dec(NatOf(whole), 0))
  {
    assert IndexOf(whole, '.') == |whole|;
    assert whole[..|whole|] + "" == whole;
  }

  /** `Decimal(format(x, "f"))` is `x`, with a positive exponent written out. */
  lemma FormatFixedParses(x: Dec)
    ensures Plain(FormatFixed(x))
    ensures ParseLiteral(FormatFixed(x))
         == Finite(false, if x.exp >= 0 then Dec(Append(x.coeff, x.exp), 0) else x)
  {
    hide Append, NatOf, Str, Pointed, ParseMantissa, ParseLiteral, Plain;
    if x.exp >= 0 {
      NatOfStr(Append(x.coeff, x.exp));
      WholeMantissa(FormatFixed(x));
    } else {
      NatOfStr(x.coeff);
      PointedFormat(Str(x.coeff), -x.exp);
    }
    PlainParses(FormatFixed(x));
  }

  lemma PointedFormat(digits: string, k: nat)
    requires AllDigits(digits) && digits != ""
    ensures Plain(Pointed(digits, k))
    ensures ParseMantissa(Pointed(digits, k)) == Some(Dec(NatOf(digits), -(k as int)))
  {
    var whole, fraction := PointedParts(digits, k);
    PointedMantissa(whole, fraction);
  }

  lemma PointedParts(digits: string, k: nat) returns (whole: string, fraction: string)
    requires AllDigits(digits) && digits != ""
    ensures Pointed(digits, k) == whole + "." + fraction
    ensures AllDigits(whole) && AllDigits(fraction) && whole != "" && |fraction| == k
    ensures NatOf(whole + fraction) == NatOf(digits)
  {
    var pad := if |digits| > k then 0 else k + 1 - |digits|;
    var padded := Zeros(pad) + digits;
    whole, fraction := padded[..|padded| - k], padded[|padded| - k..];
    assert whole + fraction == padded;
    PaddingKeepsValue(digits, pad);
  }

  lemma PaddingKeepsValue(digits: string, k: nat)
    requires AllDigits(digits)
    ensures AllDigits(Zeros(k) + digits) && NatOf(Zeros(k) + digits) == NatOf(digits)
  {
    NatOfZeros(k);
    NatOfConcatenation(Zeros(k), digits);
    assert 0 * Pow10(|digits|) == 0;
  }

  /** `raw` units of a token with `d` decimals, as an exact number. */
  function Units(raw: nat, d: nat): Dec {
    Dec(raw, -(d as int))
  }

  /** The digits `format_units` shows: the exact number without trailing zeros of the
      fraction. */
  function Displayed(raw: nat, d: nat): Dec {
    if raw == 0 then Dec(0, 0) else StripZeros(raw, Units(raw, d).exp, 0)
  }

  /** The precision chosen for the division makes it exact for every raw amount that Python
      writes out at all. */
  lemma FormatUnitsExact(raw: nat, d: nat)
    requires d <= MAX_DECIMALS
    ensures DigitCount(raw) > MAX_STR_DIGITS ==> FormatUnits(raw, d).Raised?
    ensures DigitCount(raw) <= MAX_STR_DIGITS ==> FormatUnits(raw, d) == Ok(FormatFixed(Displayed(raw, d)))
  {
    hide PowerOfTen, Divide, FormatFixed, StripZeros, Pow10, Str;
    if d > 0 {
      var n := DigitCount(raw);
      var ctx := DEFAULT.(prec := (if n > d then n else d) + 2);
      ScaleFitsContext(d, ctx);
      if raw > 0 {
        PositiveFormat(raw, d, ctx);
      } else {
        ZeroFormat(d, ctx);
      }
    } else {
      WholeFormat(raw);
    }
  }

  lemma WholeFormat(raw: nat)
    ensures FormatFixed(Displayed(raw, 0)) == Str(raw)
  {
    assert Append(raw, 0) == raw;
  }

  lemma ScaleFitsContext(d: nat, ctx: Context)
    requires ctx.emax == EMAX && ctx.emin == EMIN && d < ctx.prec && d <= MAX_DECIMALS
    ensures PowerOfTen(d, ctx) == Ok(Dec(Pow10(d), 0))
  {
    PowerDigits(d);
    FixExact(Dec(Pow10(d), 0), ctx);
  }

  lemma ZeroFormat(d: nat, ctx: Context)
    requires ctx.emax == EMAX && ctx.emin == EMIN && 0 < d < ctx.prec && d <= MAX_DECIMALS
    ensures Divide(Dec(0, 0), Dec(Pow10(d), 0), ctx) == Ok(Dec(0, 0))
  {
  }

  lemma PositiveFormat(raw: nat, d: nat, ctx: Context)
    requires raw > 0 && 0 < d <= MAX_DECIMALS
    requires ctx.emax == EMAX && ctx.emin == EMIN && DigitCount(raw) <= ctx.prec && d <= ctx.prec
    ensures Divide(Dec(raw, 0), Dec(Pow10(d), 0), ctx)
         == if Adjusted(Units(raw, d)) > EMAX then Raised("Overflow") else Ok(Displayed(raw, d))
  {
    ExactDivision(raw, d, ctx);
    DisplayedFits(raw, d, ctx);
    hide Pow10, DigitCount, Divide, Fix;
  }

  lemma DisplayedFits(raw: nat, d: nat, ctx: Context)
    requires raw > 0 && 0 < d <= MAX_DECIMALS
    requires ctx.emax == EMAX && ctx.emin == EMIN && DigitCount(raw) <= ctx.prec
    ensures Fix(Displayed(raw, d), ctx)
         == if Adjusted(Units(raw, d)) > EMAX then Raised("Overflow") else Ok(Displayed(raw, d))
  {
    StripKeepsNumber(raw, -(d as int), 0);
    DigitCountMonotone(Displayed(raw, d).coeff, raw);
  }

  /** With more digits than the dividend, dividing by ten to the `d` leaves no remainder. */
  lemma ExactDivision(raw: nat, d: nat, ctx: Context)
    requires raw > 0 && ctx.prec >= DigitCount(raw) && ctx.prec >= d
    ensures Divide(Dec(raw, 0), Dec(Pow10(d), 0), ctx) == Fix(Displayed(raw, d), ctx)
  {
    var extra := ctx.prec + 2 - DigitCount(raw);
    hide Quotient, Append, Divide, Fix;
    PowerDigits(d);
    DivideScalesUp(raw, Pow10(d), extra + d, ctx);
    AppendSplits(raw, extra, d);
    ExactQuotientStrips(Append(raw, extra), Pow10(d), -(d as int) - extra, 0, ctx);
    StripAppended(raw, extra, -(d as int), 0);
  }

  lemma DivideScalesUp(raw: nat, unit: nat, shift: nat, ctx: Context)
    requires raw > 0 && unit > 0 && shift == DigitCount(unit) - DigitCount(raw) + ctx.prec + 1
    ensures Divide(Dec(raw, 0), Dec(unit, 0), ctx) == Quotient(Append(raw, shift), unit, -(shift as int), 0, ctx)
  {
    hide Quotient, Append;
  }

  lemma AppendSplits(n: nat, j: nat, k: nat)
    ensures Append(n, j + k) == Append(n, j) * Pow10(k)
  {
    Pow10Adds(j, k);
    MulAssociates(n, Pow10(j), Pow10(k));
  }

  lemma ExactQuotientStrips(q: nat, unit: nat, exp: int, ideal: int, ctx: Context)
    requires q > 0 && unit > 0
    ensures Quotient(q * unit, unit, exp, ideal, ctx) == Fix(StripZeros(q, exp, ideal), ctx)
  {
    QuotientAndRemainder(q, unit, 0);
  }

  /** Formatting and parsing back is the identity exactly for the raw amounts that Python
      writes out: every uint256, and far beyond. */
  lemma FormatParseRoundTrip(raw: nat, d: nat)
    requires d <= MAX_DECIMALS
    ensures (FormatUnits(raw, d).Ok? && ParseUnits(FormatUnits(raw, d).value, d) == Ok(raw))
       <==> DigitCount(raw) <= MAX_STR_DIGITS
  {
    FormatUnitsExact(raw, d);
    if FormatUnits(raw, d).Ok? {
      var x := Displayed(raw, d);
      DisplayedParses(raw, d);
      DisplayedValue(raw, d, |FormatFixed(x)|);
      ToRawExact(x, |FormatFixed(x)|, d);
      assert raw > 0 ==> !TooLarge(x, d);
    }
  }

  lemma DisplayedParses(raw: nat, d: nat)
    requires d <= MAX_DECIMALS
    ensures var x := Displayed(raw, d);
      && ParseUnits(FormatFixed(x), d) == ToRaw(x, |FormatFixed(x)|, d)
      && DigitCount(x.coeff) <= |FormatFixed(x)|
  {
    var x := Displayed(raw, d);
    FormatFixedParses(x);
    PlainParses(FormatFixed(x));
    LiteralDigits(FormatFixed(x));
    assert Append(x.coeff, 0) == x.coeff;
  }

  lemma DisplayedValue(raw: nat, d: nat, length: nat)
    requires d <= MAX_DECIMALS
    ensures var x := Displayed(raw, d);
      && (raw > 0 ==> x.coeff > 0 && Adjusted(x) == Adjusted(Units(raw, d)) && (d == 0 ==> x == Units(raw, d)))
      && !Vanishes(x, length, d)
      && IsIntegral(Shifted(x, d)) && IntOf(Shifted(x, d)) == raw
  {
    if raw > 0 {
      StripKeepsNumber(raw, -(d as int), 0);
    } else {
      ZeroToRaw(Displayed(raw, d), length, d);
    }
  }

  // ---------------------------------------------------------------- where the promise fails

  /** The literal of ten to a given exponent. */
  function PowerLiteral(negative: bool, exponent: nat): string {
    "1e" + (if negative then "-" else "") + Str(exponent)
  }

  /** Far below the exponent range an amount is accepted as zero, although ten to the
      minus `k` is never a whole number of units. */
  lemma TinyAmountsParseAsZero(k: nat, d: nat)
    requires d <= MAX_DECIMALS && k >= 2000000
    ensures ParseUnits(PowerLiteral(true, k), d) == Ok(0)
    ensures !ParsesFaithfully(PowerLiteral(true, k), d)
  {
    hide ParseLiteral, Strip, ParsesFaithfully, ParseUnits, Vanishes;
    var t := PowerLiteral(true, k);
    PowerLiteralDenotes(true, k);
    LiteralDigits(t);
    FewDigits(k);
    TinyUnit(Dec(1, -(k as int)), |t|, d);
    ParsingDenoted(t, d);
    OutsideIsUnfaithful(t, d, Dec(1, -(k as int)));
  }

  /** Beyond it a whole number of units is refused. */
  lemma HugeAmountsAreRefused(k: nat, d: nat)
    requires d <= MAX_DECIMALS && k + d > EMAX
    ensures ParseUnits(PowerLiteral(false, k), d).Raised?
    ensures !ParsesFaithfully(PowerLiteral(false, k), d)
  {
    hide PowerLiteral, ParseLiteral, Strip, ParsesFaithfully, ParseUnits;
    var t := PowerLiteral(false, k);
    PowerLiteralDenotes(false, k);
    ParsingDenoted(t, d);
    OutsideIsUnfaithful(t, d, Dec(1, k));
  }

  /** A single digit far below the exponent range underflows even after scaling. */
  lemma TinyUnit(x: Dec, length: nat, d: nat)
    requires x.coeff == 1 && x.exp < DEFAULT.Etiny() && x.exp + d < ProductContext(length, d).Etiny()
    ensures Vanishes(x, length, d)
  {
    var low := ProductContext(length, d).Etiny();
    PowerAtLeastTen(DEFAULT.Etiny() - x.exp);
    PowerAtLeastTen(low - x.exp - d);
    Pow10Adds(low - x.exp - d, d);
    MulMonotone(2, Pow10(low - x.exp - d), Pow10(d));
  }

  lemma {:induction false} FewDigits(n: nat)
    ensures DigitCount(n) <= n / 10 + 1
  {
    if n >= 10 {
      FewDigits(n / 10);
    }
  }

  lemma PowerLiteralDenotes(negative: bool, exponent: nat)
    ensures var t := PowerLiteral(negative, exponent);
      && Candidate(t) == t && Strip(t) == t
      && ParseLiteral(t) == Finite(false, Dec(1, if negative then -(exponent as int) else exponent))
  {
    var t := PowerLiteral(negative, exponent);
    assert Numeral(t);
    NumeralParses(t);
    PowerNumeral(negative, exponent);
  }

  lemma PowerNumeral(negative: bool, exponent: nat)
    ensures ParseNumeral(false, PowerLiteral(negative, exponent))
         == Finite(false, Dec(1, if negative then -(exponent as int) else exponent))
  {
    hide NatOf, Str, ParseMantissa, ParseExponent, ParseNumeral;
    var rest := (if negative then "-" else "") + Str(exponent);
    OneIsWritten();
    NatOfStr(1);
    WholeMantissa(Str(1));
    NatOfStr(exponent);
    SignedExponent(negative, Str(exponent));
    ScientificNumeral(Str(1), rest);
    assert PowerLiteral(negative, exponent) == Str(1) + "e" + rest;
  }

  lemma OneIsWritten()
    ensures Str(1) == "1"
  {
    assert FixedWidth(1, 10, 1) == [1];
  }

  lemma SignedExponent(negative: bool, digits: string)
    requires AllDigits(digits) && digits != ""
    ensures ParseExponent((if negative then "-" else "") + digits)
         == Some(if negative then -(NatOf(digits) as int) else NatOf(digits))
  {
    assert ("-" + digits)[1..] == digits;
    assert "" + digits == digits;
  }

  lemma ScientificNumeral(whole: string, rest: string)
    requires AllDigits(whole) && whole != ""
    ensures ParseNumeral(false, whole + "e" + rest) == match ParseExponent(rest)
      case Some(e) => Finite(false, Dec(NatOf(whole), e))
      case None => Malformed
  {
    var t := whole + "e" + rest;
    assert t[|whole|] == 'e';
    assert IndexOf(t, 'e') == |whole|;
    assert t[..|whole|] == whole && t[|whole| + 1..] == rest;
    WholeMantissa(whole);
  }
}
