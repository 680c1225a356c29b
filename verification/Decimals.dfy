/** Nonnegative finite decimals and the operations of the General Decimal Arithmetic
    Specification that the amount helpers use, as Python's `decimal` performs them:
    round-half-even to the context's precision, with its exponent limits. */
module Decimals {
  import opened Outcomes
  import opened Positional
  import opened Text

  /** The number `coeff` times ten to the `exp`. */
  datatype Dec = Dec(coeff: nat, exp: int)

  datatype Context = Context(prec: nat, emin: int, emax: int) {
    function Etiny(): int {
      emin - prec + 1
    }

    function Etop(): int {
      emax - prec + 1
    }
  }

  /** Exponent limits of `decimal.getcontext()`, which `localcontext()` copies. */
  const EMAX := 999999
  const EMIN := -999999
  const DEFAULT_PREC := 28
  const DEFAULT := Context(DEFAULT_PREC, EMIN, EMAX)

  /** Exponent of the leading digit. */
  function Adjusted(x: Dec): int {
    DigitCount(x.coeff) + x.exp - 1
  }

  /** `c` divided by `unit`, rounded half to even. */
  function RoundedDivision(c: nat, unit: nat): nat
    requires unit > 0
  {
    DivisionIsNatural(c, unit);
    var q, r := c / unit, c % unit;
    if 2 * r > unit || (2 * r == unit && q % 2 == 1) then q + 1 else q
  }

  /** The nearest whole number, and of two nearest ones the even one. */
  lemma RoundsToNearestEven(c: nat, unit: nat)
    requires unit > 0
    ensures var error := 2 * (RoundedDivision(c, unit) * unit - c);
      -(unit as int) <= error <= unit && (error == unit || error == -(unit as int) ==> RoundedDivision(c, unit) % 2 == 0)
  {
    NeighbouringMultiples(c, unit);
  }

  /** `c` divided by ten to the `drop`, rounded half to even. */
  function HalfEven(c: nat, drop: nat): nat {
    RoundedDivision(c, Pow10(drop))
  }

  /** Fit a result into a context; only `Overflow` raises under the default traps. */
  function Fix(x: Dec, ctx: Context): Try<Dec> {
    if x.coeff == 0 then
      Ok(Dec(0, if x.exp < ctx.Etiny() then ctx.Etiny() else if x.exp > ctx.emax then ctx.emax else x.exp))
    else
      var lowest := DigitCount(x.coeff) + x.exp - ctx.prec;
      if lowest > ctx.Etop() then
        Raised("Overflow")
      else
        var target := if lowest < ctx.Etiny() then ctx.Etiny() else lowest;
        if x.exp >= target then
          Ok(x)
        else
          var rounded := HalfEven(x.coeff, target - x.exp);
          if DigitCount(rounded) <= ctx.prec then
            Ok(Dec(rounded, target))
          else if target + 1 > ctx.Etop() then
            Raised("Overflow")
          else
            Ok(Dec(rounded / 10, target + 1))
  }

  /** Remove trailing zeros while the exponent stays at or below `limit`. */
  function StripZeros(c: nat, e: int, limit: int): (r: Dec)
    requires c > 0
    decreases c
    ensures r.coeff > 0
    ensures e <= limit ==> e <= r.exp <= limit
  {
    if c % 10 == 0 && e < limit then StripZeros(c / 10, e + 1, limit) else Dec(c, e)
  }

  /** `Decimal.normalize()`. */
  function Reduce(x: Dec, ctx: Context): Try<Dec> {
    var y :- Fix(x, ctx);
    if y.coeff == 0 then Ok(Dec(0, 0)) else Ok(StripZeros(y.coeff, y.exp, ctx.emax))
  }

  function Multiply(x: Dec, y: Dec, ctx: Context): Try<Dec> {
    Fix(Dec(x.coeff * y.coeff, x.exp + y.exp), ctx)
  }

  /** `Decimal(10) ** d`: an exact power with ideal exponent zero, then fitted. */
  function PowerOfTen(d: nat, ctx: Context): Try<Dec> {
    Fix(Dec(Pow10(d), 0), ctx)
  }

  /** `n` with `k` zeros appended. */
  function Append(n: nat, k: nat): (r: nat)
    ensures n > 0 ==> r > 0
  {
    if n == 0 then 0 else
      ProductPositive(n, Pow10(k));
      n * Pow10(k)
  }

  /** `n` without its last `k` digits. */
  function Chop(n: nat, k: nat): nat {
    var unit := Pow10(k);
    DivisionIsNatural(n, unit);
    n / unit
  }

  /** The last `k` digits of `n` are zeros. */
  predicate EndsInZeros(n: nat, k: nat) {
    var unit := Pow10(k);
    n % unit == 0
  }

  /** `x / y`: one guard digit beyond the precision, made sticky when the division is
      inexact; an exact quotient is brought towards the ideal exponent. */
  function Divide(x: Dec, y: Dec, ctx: Context): Try<Dec>
    requires y.coeff > 0
  {
    if x.coeff == 0 then
      Fix(Dec(0, x.exp - y.exp), ctx)
    else
      var shift := DigitCount(y.coeff) - DigitCount(x.coeff) + ctx.prec + 1;
      var top := if shift >= 0 then Append(x.coeff, shift) else x.coeff;
      var bottom := if shift >= 0 then y.coeff else Append(y.coeff, -shift);
      Quotient(top, bottom, x.exp - y.exp - shift, x.exp - y.exp, ctx)
  }

  /** The integer division inside `Divide`, its rounding and its ideal exponent. */
  function Quotient(top: nat, bottom: nat, exp: int, ideal: int, ctx: Context): Try<Dec>
    requires bottom > 0
  {
    var q, r := top / bottom, top % bottom;
    if r != 0 then
      Fix(Dec(if q % 5 == 0 then q + 1 else q, exp), ctx)
    else if q == 0 then
      Fix(Dec(0, exp), ctx)
    else
      Fix(StripZeros(q, exp, ideal), ctx)
  }

  /** Both decimals denote the same number. */
  ghost predicate SameNumber(x: Dec, y: Dec) {
    if x.exp <= y.exp then x.coeff == y.coeff * Pow10(y.exp - x.exp)
    else y.coeff == x.coeff * Pow10(x.exp - y.exp)
  }

  /** A coefficient within the precision and exponents within the limits is left alone. */
  lemma FixExact(x: Dec, ctx: Context)
    requires x.coeff > 0
    requires DigitCount(x.coeff) <= ctx.prec
    requires Adjusted(x) <= ctx.emax && ctx.Etiny() <= x.exp
    ensures Fix(x, ctx) == Ok(x)
  {
  }

  /** Stripping keeps the number and the position of the leading digit. */
  lemma {:induction false} StripKeepsNumber(c: nat, e: int, limit: int)
    requires c > 0 && e <= limit
    ensures SameNumber(Dec(c, e), StripZeros(c, e, limit))
    ensures Adjusted(StripZeros(c, e, limit)) == Adjusted(Dec(c, e))
    ensures StripZeros(c, e, limit).coeff <= c
    decreases c
  {
    if c % 10 == 0 && e < limit {
      var r := StripZeros(c / 10, e + 1, limit);
      StripKeepsNumber(c / 10, e + 1, limit);
      assert c == c / 10 * 10;
      assert r.coeff * Pow10(r.exp - e) == 10 * (r.coeff * Pow10(r.exp - e - 1)) by {
        MulAssociates(r.coeff, 10, Pow10(r.exp - e - 1));
      }
    } else {
      assert c * Pow10(0) == c;
    }
  }

  /** Stripping reaches every exponent the coefficient allows. */
  lemma {:induction false} StripReaches(c: nat, e: int, limit: int, k: nat)
    requires c > 0 && e + k <= limit
    requires EndsInZeros(c, k)
    ensures StripZeros(c, e, limit).exp >= e + k
    decreases k
  {
    if k > 0 {
      DivisibleByPower(c, k);
      StripReaches(c / 10, e + 1, limit, k - 1);
    }
  }

  lemma DivisibleByPower(c: nat, k: nat)
    requires c > 0 && k > 0
    requires EndsInZeros(c, k)
    ensures c % 10 == 0 && c / 10 > 0 && EndsInZeros(c / 10, k - 1)
  {
    var p := Pow10(k - 1);
    var q := c / Pow10(k);
    assert c == q * (10 * p);
    assert c == 10 * (q * p) by {
      MulAssociates(q, 10, p);
    }
    QuotientAndRemainder(q, p, 0);
  }

  lemma AppendIsProduct(n: nat, k: nat)
    ensures Append(n, k) == n * Pow10(k)
  {
  }

  lemma AppendStep(c: nat, k: nat)
    requires c > 0 && k > 0
    ensures Append(c, k) == 10 * Append(c, k - 1) && Append(c, k - 1) > 0
  {
    MulAssociates(c, 10, Pow10(k - 1));
  }

  /** Zeros appended to a coefficient are stripped again. */
  lemma {:induction false} StripAppended(c: nat, k: nat, e: int, limit: int)
    requires c > 0 && e <= limit
    ensures Append(c, k) > 0
    ensures StripZeros(Append(c, k), e - k, limit) == StripZeros(c, e, limit)
  {
    if k > 0 {
      hide Append, Pow10;
      AppendStep(c, k);
      StripAppended(c, k - 1, e, limit);
    } else {
      AppendIsProduct(c, 0);
      assert Append(c, 0) == c;
    }
  }

  lemma HalfEvenBounds(c: nat, drop: nat)
    ensures var unit := Pow10(drop);
      var q := HalfEven(c, drop);
      -(unit as int) <= 2 * (q * unit - c) <= unit
    ensures HalfEven(c, drop) <= c / Pow10(drop) + 1
  {
    NeighbouringMultiples(c, Pow10(drop));
    hide Pow10;
  }

  lemma NeighbouringMultiples(c: nat, unit: nat)
    requires unit > 0
    ensures var q, r := c / unit, c % unit;
      0 <= r < unit && q * unit == c - r && (q + 1) * unit == c - r + unit
  {
    DivisionIsNatural(c, unit);
  }

  /** Rounding to fewer digits gives that many digits, or the next power of ten. */
  lemma HalfEvenDigits(c: nat, drop: nat)
    requires c > 0 && drop < DigitCount(c)
    ensures var keep := DigitCount(c) - drop;
      Pow10(keep - 1) <= HalfEven(c, drop) <= Pow10(keep)
  {
    var keep := DigitCount(c) - drop;
    var unit := Pow10(drop);
    DigitCountBounds(c);
    Pow10Adds(keep - 1, drop);
    Pow10Adds(keep, drop);
    QuotientBetween(Pow10(keep - 1), c, Pow10(keep), unit);
  }

  lemma QuotientBetween(low: nat, c: nat, high: nat, unit: nat)
    requires unit > 0 && low * unit <= c < high * unit
    ensures low <= c / unit < high
  {
    assert c == c / unit * unit + c % unit;
    if c / unit < low {
      MulMonotone(c / unit + 1, low, unit);
    }
    if high <= c / unit {
      MulMonotone(high, c / unit, unit);
    }
  }
}
