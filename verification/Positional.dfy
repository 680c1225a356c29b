/** Positional numerals, most significant digit first, in any base of at least two. */
module Positional {

  function Power(base: nat, n: nat): nat {
    if n == 0 then 1 else base * Power(base, n - 1)
  }

  /** Powers of ten, the ones decimal arithmetic needs. */
  function Pow10(n: nat): (p: nat)
    ensures p > 0
  {
    if n == 0 then 1 else 10 * Pow10(n - 1)
  }

  lemma {:induction false} Pow10IsPower(n: nat)
    ensures Pow10(n) == Power(10, n)
  {
    if n > 0 {
      Pow10IsPower(n - 1);
    }
  }

  lemma {:induction false} Pow10Adds(m: nat, n: nat)
    ensures Pow10(m + n) == Pow10(m) * Pow10(n)
  {
    if m > 0 {
      Pow10Adds(m - 1, n);
      MulAssociates(10, Pow10(m - 1), Pow10(n));
    }
  }

  lemma {:induction false} Pow10Monotone(m: nat, n: nat)
    requires m <= n
    ensures Pow10(m) <= Pow10(n)
  {
    if m < n {
      Pow10Monotone(m, n - 1);
    }
  }

  ghost predicate Digits(ds: seq<nat>, base: nat) {
    forall i | 0 <= i < |ds| :: ds[i] < base
  }

  function Value(ds: seq<nat>, base: nat): nat {
    if ds == [] then 0 else Value(ds[..|ds| - 1], base) * base + ds[|ds| - 1]
  }

  /** The numeral of `n` with exactly `width` digits. */
  function FixedWidth(n: nat, base: nat, width: nat): (ds: seq<nat>)
    requires base >= 2
    ensures |ds| == width
    ensures Digits(ds, base)
  {
    if width == 0 then [] else FixedWidth(n / base, base, width - 1) + [n % base]
  }

  lemma {:induction false} PowerAdds(base: nat, m: nat, n: nat)
    ensures Power(base, m + n) == Power(base, m) * Power(base, n)
  {
    if m > 0 {
      PowerAdds(base, m - 1, n);
      MulAssociates(base, Power(base, m - 1), Power(base, n));
    }
  }

  lemma ProductPositive(x: nat, y: nat)
    requires x > 0 && y > 0
    ensures x * y > 0
  {
  }

  lemma MulAssociates(x: int, y: int, z: int)
    ensures x * (y * z) == (x * y) * z
  {
  }

  lemma ValueAppended(head: seq<nat>, last: nat, base: nat)
    ensures Value(head + [last], base) == Value(head, base) * base + last
  {
    assert (head + [last])[..|head|] == head;
  }

  lemma DivisionIsNatural(n: nat, m: nat)
    requires m > 0
    ensures n / m >= 0 && 0 <= n % m < m
    ensures n == (n / m) * m + n % m
  {
  }

  /** Reading back a fixed-width numeral loses nothing that fits. */
  lemma {:induction false} FixedWidthRoundTrip(n: nat, base: nat, width: nat)
    requires base >= 2
    requires n < Power(base, width)
    ensures Value(FixedWidth(n, base, width), base) == n
  {
    hide Value, FixedWidth, Power;
    if width > 0 {
      PowerStep(base, width);
      DivisionIsNatural(n, base);
      DivisionShrinks(n, base, Power(base, width - 1));
      FixedWidthRoundTrip(n / base, base, width - 1);
      LastDigitReadsBack(n, base, width);
    } else {
      NoDigits(n, base);
    }
  }

  lemma PowerStep(base: nat, width: nat)
    requires width > 0
    ensures Power(base, width) == base * Power(base, width - 1)
  {
  }

  lemma NoDigits(n: nat, base: nat)
    requires base >= 2 && n < Power(base, 0)
    ensures Value(FixedWidth(n, base, 0), base) == n
  {
  }

  lemma LastDigitReadsBack(n: nat, base: nat, width: nat)
    requires base >= 2 && width > 0
    requires Value(FixedWidth(n / base, base, width - 1), base) == n / base
    ensures Value(FixedWidth(n, base, width), base) == n
  {
    hide Value;
    DivisionIsNatural(n, base);
    ValueAppended(FixedWidth(n / base, base, width - 1), n % base, base);
  }

  lemma DivisionShrinks(n: nat, base: nat, bound: nat)
    requires base >= 1
    requires n < base * bound
    ensures n / base < bound
  {
    assert n == (n / base) * base + n % base;
    if n / base >= bound {
      MulMonotone(bound, n / base, base);
    }
  }

  lemma MulMonotone(a: int, b: int, c: nat)
    requires a <= b
    ensures a * c <= b * c
  {
  }

  lemma {:induction false} ValueBelowPower(ds: seq<nat>, base: nat)
    requires base >= 1 && Digits(ds, base)
    ensures Value(ds, base) < Power(base, |ds|)
  {
    if ds != [] {
      var head := ds[..|ds| - 1];
      ValueBelowPower(head, base);
      AppendedBelow(Value(head, base), Power(base, |head|), base, ds[|head|]);
    }
  }

  lemma AppendedBelow(v: nat, bound: nat, base: nat, last: nat)
    requires v < bound && last < base
    ensures v * base + last < base * bound
  {
    MulMonotone(v + 1, bound, base);
  }

  lemma QuotientAndRemainder(q: nat, base: nat, r: nat)
    requires r < base
    ensures (q * base + r) / base == q && (q * base + r) % base == r
  {
    var n := q * base + r;
    assert n == (n / base) * base + n % base;
    var d := n / base - q;
    assert d * base == r - n % base;
    if d >= 1 {
      MulMonotone(1, d, base);
      assert false;
    } else if d <= -1 {
      MulMonotone(d, -1, base);
      assert false;
    }
  }

  lemma {:induction false} ValueOfConcatenation(a: seq<nat>, b: seq<nat>, base: nat)
    ensures Value(a + b, base) == Value(a, base) * Power(base, |b|) + Value(b, base)
  {
    if b == [] {
      assert a + b == a;
    } else {
      var head := b[..|b| - 1];
      ValueOfConcatenation(a, head, base);
      assert (a + b)[..|a + b| - 1] == a + head;
      MulAssociates(Value(a, base), Power(base, |head|), base);
      assert (Value(a, base) * Power(base, |head|) + Value(head, base)) * base
          == Value(a, base) * (Power(base, |head|) * base) + Value(head, base) * base;
    }
  }
}
