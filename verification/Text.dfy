/** The Python string operations the repository relies on, over ASCII text. */
module Text {
  import opened Positional

  predicate IsSpace(c: char) {
    c == ' ' || '\t' <= c <= '\r' || '\U{1C}' <= c <= '\U{1F}'
  }

  predicate IsDigit(c: char) {
    '0' <= c <= '9'
  }

  predicate AllDigits(s: string) {
    forall i | 0 <= i < |s| :: IsDigit(s[i])
  }

  predicate StartsWith(s: string, prefix: string) {
    |prefix| <= |s| && s[..|prefix|] == prefix
  }

  function StripLeft(s: string): string {
    if s != "" && IsSpace(s[0]) then StripLeft(s[1..]) else s
  }

  function StripRight(s: string): string {
    if s != "" && IsSpace(s[|s| - 1]) then StripRight(s[..|s| - 1]) else s
  }

  /** `str.strip()`. */
  function Strip(s: string): (r: string)
    ensures |r| <= |s|
  {
    StripNeverGrows(s);
    StripRight(StripLeft(s))
  }

  lemma StripNeverGrows(s: string)
    ensures |StripLeft(s)| <= |s|
    ensures |StripRight(StripLeft(s))| <= |StripLeft(s)|
  {
    StripLeftNeverGrows(s);
    StripRightNeverGrows(StripLeft(s));
  }

  lemma StripLeftNeverGrows(s: string)
    ensures |StripLeft(s)| <= |s|
  {
  }

  lemma StripRightNeverGrows(s: string)
    ensures |StripRight(s)| <= |s|
  {
  }

  function LowerChar(c: char): char {
    if 'A' <= c <= 'Z' then c - 'A' + 'a' else c
  }

  /** `str.lower()`. */
  function Lower(s: string): (r: string)
    ensures |r| == |s|
  {
    seq(|s|, i requires 0 <= i < |s| => LowerChar(s[i]))
  }

  /** Index of the first `c`, or the length when there is none. */
  function IndexOf(s: string, c: char): (i: nat)
    ensures i <= |s|
    ensures i < |s| ==> s[i] == c
    ensures forall j | 0 <= j < i :: s[j] != c
  {
    if s == "" || s[0] == c then 0 else 1 + IndexOf(s[1..], c)
  }

  function Without(s: string, c: char): (r: string)
    ensures |r| <= |s|
  {
    if s == "" then "" else (if s[0] == c then "" else [s[0]]) + Without(s[1..], c)
  }

  lemma {:induction false} WithoutAbsent(s: string, c: char)
    requires c !in s
    ensures Without(s, c) == s
  {
    if s != "" {
      WithoutAbsent(s[1..], c);
    }
  }

  function DigitValues(s: string): (ds: seq<nat>)
    requires AllDigits(s)
    ensures |ds| == |s|
    ensures Digits(ds, 10)
  {
    seq(|s|, i requires 0 <= i < |s| => (s[i] - '0') as nat)
  }

  function Render(ds: seq<nat>): (s: string)
    requires Digits(ds, 10)
    ensures |s| == |ds|
    ensures AllDigits(s)
  {
    seq(|ds|, i requires 0 <= i < |ds| => '0' + ds[i] as char)
  }

  /** `int(s)` on a string of decimal digits; the empty string counts as zero. */
  function NatOf(s: string): nat
    requires AllDigits(s)
  {
    Value(DigitValues(s), 10)
  }

  /** How many decimal digits `str(n)` has. */
  function DigitCount(n: nat): (k: nat)
    ensures k >= 1
  {
    if n < 10 then 1 else 1 + DigitCount(n / 10)
  }

  /** `str(n)`. */
  function Str(n: nat): (s: string)
    ensures |s| == DigitCount(n)
    ensures AllDigits(s)
  {
    Render(FixedWidth(n, 10, DigitCount(n)))
  }

  lemma {:induction false} DigitCountBounds(n: nat)
    ensures n < Pow10(DigitCount(n))
    ensures n > 0 ==> Pow10(DigitCount(n) - 1) <= n
  {
    if n >= 10 {
      DigitCountBounds(n / 10);
      assert n == n / 10 * 10 + n % 10;
    } else {
      assert Pow10(1) == 10 * Pow10(0);
    }
  }

  lemma {:induction false} DigitCountUnique(n: nat, k: nat)
    requires k >= 1
    requires Pow10(k - 1) <= n < Pow10(k)
    ensures DigitCount(n) == k
  {
    DigitCountBounds(n);
    if DigitCount(n) < k {
      Pow10Monotone(DigitCount(n), k - 1);
    } else if DigitCount(n) > k {
      Pow10Monotone(k, DigitCount(n) - 1);
    }
  }

  /** A number below ten to the k has at most k digits. */
  lemma DigitCountAtMost(n: nat, k: nat)
    requires k >= 1 && n < Pow10(k)
    ensures DigitCount(n) <= k
  {
    DigitCountBounds(n);
    if DigitCount(n) > k {
      Pow10Monotone(k, DigitCount(n) - 1);
    }
  }

  lemma DigitCountMonotone(m: nat, n: nat)
    requires m <= n
    ensures DigitCount(m) <= DigitCount(n)
  {
    DigitCountBounds(n);
    DigitCountAtMost(m, DigitCount(n));
  }

  lemma DigitCountScaled(n: nat, k: nat)
    requires n > 0
    ensures n * Pow10(k) > 0
    ensures DigitCount(n * Pow10(k)) == DigitCount(n) + k
  {
    var d := DigitCount(n);
    var scale := Pow10(k);
    DigitCountBounds(n);
    ScaledBetween(Pow10(d - 1), n, Pow10(d), scale);
    Pow10Adds(d - 1, k);
    Pow10Adds(d, k);
    DigitCountUnique(n * scale, d + k);
  }

  lemma ScaledBetween(low: nat, n: nat, high: nat, scale: nat)
    requires low <= n < high && 0 < n && 0 < scale
    ensures low * scale <= n * scale < high * scale
    ensures 0 < n * scale
  {
    MulMonotone(low, n, scale);
    MulMonotone(n + 1, high, scale);
    MulMonotone(1, n, scale);
  }

  /** Python converts no integer of more digits to or from text, by default. */
  const MAX_STR_DIGITS := 4300

  /** Reading back what `str` wrote. */
  lemma NatOfStr(n: nat)
    ensures NatOf(Str(n)) == n
  {
    var ds := FixedWidth(n, 10, DigitCount(n));
    DigitCountBounds(n);
    Pow10IsPower(DigitCount(n));
    FixedWidthRoundTrip(n, 10, DigitCount(n));
    assert DigitValues(Render(ds)) == ds;
  }

  lemma NatOfConcatenation(a: string, b: string)
    requires AllDigits(a) && AllDigits(b)
    ensures AllDigits(a + b)
    ensures NatOf(a + b) == NatOf(a) * Pow10(|b|) + NatOf(b)
  {
    var x, y := DigitValues(a), DigitValues(b);
    assert DigitValues(a + b) == x + y;
    Pow10IsPower(|b|);
    ValueOfConcatenation(x, y, 10);
  }

  function Zeros(k: nat): (s: string)
    ensures |s| == k
    ensures AllDigits(s)
  {
    seq(k, _ => '0')
  }

  lemma {:induction false} NatOfZeros(k: nat)
    ensures NatOf(Zeros(k)) == 0
  {
    if k > 0 {
      NatOfZeros(k - 1);
      assert Zeros(k) == Zeros(k - 1) + "0";
      NatOfConcatenation(Zeros(k - 1), "0");
      assert Value(DigitValues("0"), 10) == 0;
    }
  }

  lemma NatOfBelowPower(s: string)
    requires AllDigits(s)
    ensures NatOf(s) < Pow10(|s|)
  {
    Pow10IsPower(|s|);
    ValueBelowPower(DigitValues(s), 10);
  }
}
