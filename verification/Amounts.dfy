/** Human decimal amounts and raw token units (mercury/models/amounts.py). */
module Amounts {
  import opened Outcomes
  import opened Positional
  import opened Text
  import opened Decimals

  const MAX_DECIMALS := 77

  function ValidateTokenDecimals(decimals: int): Try<nat> {
    if decimals < 0 || decimals > MAX_DECIMALS then Raised("Token decimals must be between 0 and 77.")
    else Ok(decimals)
  }

  // ---------------------------------------------------------------- literals

  /** What `Decimal(text)` makes of a string. */
  datatype Literal = Finite(negative: bool, value: Dec) | NonFinite | Malformed

  /** Digits with at most one point, at least one digit. */
  function ParseMantissa(m: string): Option<Dec> {
    var dot := IndexOf(m, '.');
    var whole := m[..dot];
    var fraction := if dot < |m| then m[dot + 1..] else "";
    if AllDigits(whole) && AllDigits(fraction) && |whole| + |fraction| > 0 then
      Some(Dec(NatOf(whole + fraction), -|fraction|))
    else None
  }

  function ParseExponent(e: string): Option<int> {
    var signed := e != "" && (e[0] == '+' || e[0] == '-');
    var digits := if signed then e[1..] else e;
    if digits == "" || !AllDigits(digits) then None
    else Some(if signed && e[0] == '-' then -(NatOf(digits) as int) else NatOf(digits))
  }

  predicate IsSpecial(t: string) {
    || t == "inf" || t == "infinity"
    || (StartsWith(t, "nan") && AllDigits(t[3..]))
    || (StartsWith(t, "snan") && AllDigits(t[4..]))
  }

  function ParseNumeral(negative: bool, t: string): Literal {
    var mark := IndexOf(t, 'e');
    var mantissa := ParseMantissa(t[..mark]);
    var exponent := if mark < |t| then ParseExponent(t[mark + 1..]) else Some(0);
    if mantissa.Some? && exponent.Some? then
      Finite(negative, Dec(mantissa.value.coeff, mantissa.value.exp + exponent.value))
    else Malformed
  }

  /** `Decimal(text)`: surrounding blanks and underscores are ignored, letter case too. */
  function ParseLiteral(text: string): Literal {
    var t := Lower(Without(Strip(text), '_'));
    var signed := t != "" && (t[0] == '+' || t[0] == '-');
    var body := if signed then t[1..] else t;
    if IsSpecial(body) then NonFinite else ParseNumeral(signed && t[0] == '-', body)
  }

  /** `digits` with a point before the last `k`, padded to at least one whole digit. */
  function Pointed(digits: string, k: nat): string
    requires digits != ""
  {
    var padded := Zeros(if |digits| > k then 0 else k + 1 - |digits|) + digits;
    padded[..|padded| - k] + "." + padded[|padded| - k..]
  }

  /** `format(x, "f")`. */
  function FormatFixed(x: Dec): string {
    if x.exp >= 0 then Str(Append(x.coeff, x.exp)) else Pointed(Str(x.coeff), -x.exp)
  }

  // ---------------------------------------------------------------- the two helpers

  /** `str(n)`, with Python's default limit. */
  function IntText(n: nat): Try<string> {
    if DigitCount(n) > MAX_STR_DIGITS then Raised("Exceeds the limit (4300 digits) for integer string conversion")
    else Ok(Str(n))
  }

  function FormatUnits(raw: int, decimals: int): Try<string> {
    var d :- ValidateTokenDecimals(decimals);
    if raw < 0 then Raised("Raw amount must not be negative.")
    else if d == 0 then IntText(raw)
    else
      var text :- IntText(raw);
      var digits := |text|;
      var ctx := DEFAULT.(prec := (if digits > d then digits else d) + 2);
      var scale :- PowerOfTen(d, ctx);
      var _ :- Check(scale.coeff > 0, "DivisionByZero");
      var formatted :- Divide(Dec(raw, 0), scale, ctx);
      Ok(FormatFixed(formatted))
  }

  /** The amount as `parse_units` hands it to `Decimal`. */
  function Candidate(amount: string): string {
    var c := Strip(amount);
    if StartsWith(c, "+") then c[1..] else c
  }

  /** `raw == raw.to_integral_value()`. */
  predicate IsIntegral(x: Dec) {
    x.exp >= 0 || EndsInZeros(x.coeff, -x.exp)
  }

  /** `int(x)`. */
  function IntOf(x: Dec): nat {
    if x.exp >= 0 then Append(x.coeff, x.exp) else Chop(x.coeff, -x.exp)
  }

  /** The precision `parse_units` picks for its multiplication. */
  function ProductContext(length: nat, decimals: nat): Context {
    DEFAULT.(prec := (if length > decimals then length else decimals) + decimals + 4)
  }

  /** `parse_units` once the string is known to denote `x`. */
  function ToRaw(x: Dec, length: nat, decimals: nat): Try<nat> {
    var normalized :- Reduce(x, DEFAULT);
    var fractional := if normalized.exp < 0 then -normalized.exp else 0;
    var _ :- Check(fractional <= decimals, "Amount has too many decimal places for token decimals.");
    var ctx := ProductContext(length, decimals);
    var scale :- PowerOfTen(decimals, ctx);
    var raw :- Multiply(x, scale, ctx);
    if IsIntegral(raw) then Ok(IntOf(raw))
    else Raised("Amount has too many decimal places for token decimals.")
  }

  function ParseUnits(amount: string, decimals: int): Try<nat> {
    var d :- ValidateTokenDecimals(decimals);
    var _ :- Check(Strip(amount) != "", "Amount must not be empty.");
    match ParseLiteral(Candidate(amount))
    case Malformed => Raised("Amount must be a valid decimal string.")
    case NonFinite => Raised("Amount must be finite.")
    case Finite(negative, x) =>
      var _ :- Check(!negative || x.coeff == 0, "Amount must not be negative.");
      ToRaw(x, |Candidate(amount)|, d)
  }

  /** `parse_integer_raw_amount`. */
  function ParseIntegerRawAmount(amount: string): Try<nat> {
    var _ :- Check(Strip(amount) != "", "Amount must not be empty.");
    var candidate := Candidate(amount);
    if candidate == "" || !AllDigits(candidate) then
      Raised("Raw amount must be a nonnegative integer decimal string without fractional digits.")
    else if |candidate| > MAX_STR_DIGITS then Raised("Exceeds the limit (4300 digits) for integer string conversion")
    else Ok(NatOf(candidate))
  }
}
