/** What a string denotes, said from its characters: the strings that `Decimal(text)` reads as
    finite numbers, and the numbers it reads. */
module LiteralLaws {
  import opened Outcomes
  import opened Positional
  import opened Text
  import opened Decimals
  import opened Amounts

  // ---------------------------------------------------------------- spellings

  datatype Sign = Bare | Plus | Minus {
    function Text(): string {
      match this
      case Bare => ""
      case Plus => "+"
      case Minus => "-"
    }
  }

  datatype Exponent = Unscaled | Scaled(marker: char, sign: Sign, digits: string) {
    predicate Valid() {
      Scaled? ==> (marker == 'e' || marker == 'E') && AllDigits(digits) && digits != ""
    }

    function Text(): string {
      match this
      case Unscaled => ""
      case Scaled(marker, sign, digits) => [marker] + sign.Text() + digits
    }

    function Value(): int
      requires Valid()
    {
      match this
      case Unscaled => 0
      case Scaled(_, sign, digits) => if sign == Minus then -(NatOf(digits) as int) else NatOf(digits)
    }
  }

  /** A sign, digits with at most one point among them, and an exponent. */
  datatype Spelling = Spelling(sign: Sign, whole: string, fraction: Option<string>, exponent: Exponent) {
    function Fraction(): string {
      if fraction.Some? then fraction.value else ""
    }

    predicate Valid() {
      AllDigits(whole) && AllDigits(Fraction()) && whole + Fraction() != "" && exponent.Valid()
    }

    function Mantissa(): string {
      whole + if fraction.Some? then "." + fraction.value else ""
    }

    function Text(): string {
      sign.Text() + (Mantissa() + exponent.Text())
    }

    /** All the digits, times ten to the exponent, less one for every digit behind the point. */
    function Value(): Dec
      requires Valid()
    {
      JoinedDigits(whole, Fraction());
      Dec(NatOf(whole + Fraction()), exponent.Value() - |Fraction()|)
    }
  }

  lemma JoinedDigits(a: string, b: string)
    requires AllDigits(a) && AllDigits(b)
    ensures AllDigits(a + b)
  {
  }

  /** A text without its surrounding blanks and all underscores. */
  function Squeezed(text: string): string {
    Without(Strip(text), '_')
  }

  /** The text spells this number. */
  ghost predicate SpellsNumber(text: string, negative: bool, x: Dec) {
    exists s: Spelling :: s.Valid() && s.Text() == Squeezed(text) && s.Value() == x && (s.sign == Minus <==> negative)
  }

  // ---------------------------------------------------------------- every spelling is read

  lemma LowerJoins(a: string, b: string)
    ensures Lower(a + b) == Lower(a) + Lower(b)
  {
  }

  lemma DigitsAreLower(s: string)
    requires AllDigits(s)
    ensures Lower(s) == s && 'e' !in s && '.' !in s
  {
  }

  lemma IndexSkips(a: string, c: char, rest: string)
    requires c !in a
    ensures IndexOf(a, c) == |a|
    ensures IndexOf(a + [c] + rest, c) == |a|
  {
    var s := a + [c] + rest;
    assert s[|a|] == c;
    assert forall i | 0 <= i < |a| :: s[i] == a[i] && a[i] in a;
  }

  lemma MantissaIsRead(whole: string, fraction: Option<string>)
    requires AllDigits(whole) && (fraction.Some? ==> AllDigits(fraction.value))
    ensures var f := if fraction.Some? then fraction.value else "";
      var m := whole + if fraction.Some? then "." + fraction.value else "";
      && AllDigits(whole + f) && 'e' !in m && Lower(m) == m
      && (whole + f != "" ==> ParseMantissa(m) == Some(Dec(NatOf(whole + f), -|f|)))
  {
    DigitsAreLower(whole);
    match fraction {
      case Some(f) =>
        DigitsAreLower(f);
        JoinedDigits(whole, f);
        IndexSkips(whole, '.', f);
        var m := whole + "." + f;
        assert whole + ("." + f) == m;
        assert m[..|whole|] == whole && m[|whole| + 1..] == f;
        assert Lower(m) == m;
      case None =>
        IndexSkips(whole, '.', "");
        assert whole + "" == whole && whole[..|whole|] == whole;
    }
  }

  lemma SignedIsRead(sign: Sign, digits: string)
    requires AllDigits(digits) && digits != ""
    ensures ParseExponent(sign.Text() + digits)
         == Some(if sign == Minus then -(NatOf(digits) as int) else NatOf(digits))
  {
    hide NatOf;
    var rest := sign.Text() + digits;
    if sign == Bare {
      assert rest == digits;
    } else {
      assert rest[1..] == digits;
    }
  }

  lemma ExponentIsLower(e: Exponent)
    requires e.Valid() && e.Scaled?
    ensures Lower(e.Text()) == "e" + (e.sign.Text() + e.digits)
  {
    var rest := e.sign.Text() + e.digits;
    DigitsAreLower(e.digits);
    LowerJoins(e.sign.Text(), e.digits);
    SignIsLower(e.sign);
    LowerJoins([e.marker], rest);
    assert e.Text() == [e.marker] + rest;
    assert Lower([e.marker]) == "e";
    hide Lower;
  }

  lemma SignIsLower(sign: Sign)
    ensures Lower(sign.Text()) == sign.Text()
  {
  }

  /** A text that starts with a digit or a point is no sign and no word. */
  lemma FigureStart(body: string)
    requires body != "" && (body[0] == '.' || IsDigit(body[0]))
    ensures body[0] != '+' && body[0] != '-' && !IsSpecial(body)
  {
  }

  lemma BodyStart(s: Spelling)
    requires s.Valid()
    ensures var m := s.Mantissa(); m != "" && (m[0] == '.' || IsDigit(m[0]))
  {
    assert s.whole != "" ==> s.Mantissa()[0] == s.whole[0];
    assert s.whole == "" && s.fraction.Some? ==> s.Mantissa()[0] == '.';
  }

  lemma ScaledBody(m: string, rest: string, negative: bool)
    requires 'e' !in m
    ensures ParseNumeral(negative, m + ("e" + rest)) == match (ParseMantissa(m), ParseExponent(rest))
      case (Some(x), Some(e)) => Finite(negative, Dec(x.coeff, x.exp + e))
      case _ => Malformed
    ensures ParseNumeral(negative, m) == match ParseMantissa(m)
      case Some(x) => Finite(negative, x)
      case None => Malformed
  {
    hide ParseMantissa, ParseExponent;
    var body := m + ("e" + rest);
    assert body == m + ['e'] + rest;
    IndexSkips(m, 'e', rest);
    assert body[..|m|] == m && body[|m| + 1..] == rest;
    assert m[..|m|] == m;
  }

  lemma BodyIsRead(s: Spelling, negative: bool)
    requires s.Valid()
    ensures var body := Lower(s.Mantissa() + s.exponent.Text());
      && body != "" && body[0] != '+' && body[0] != '-' && !IsSpecial(body)
      && ParseNumeral(negative, body) == Finite(negative, s.Value())
  {
    hide ParseMantissa, ParseExponent, ParseNumeral, NatOf, Lower, IsSpecial;
    var m := s.Mantissa();
    MantissaIsRead(s.whole, s.fraction);
    LowerJoins(m, s.exponent.Text());
    BodyStart(s);
    var body := Lower(m + s.exponent.Text());
    if s.exponent.Unscaled? {
      assert m + "" == m;
      ScaledBody(m, "", negative);
    } else {
      ExponentIsLower(s.exponent);
      SignedIsRead(s.exponent.sign, s.exponent.digits);
      ScaledBody(m, s.exponent.sign.Text() + s.exponent.digits, negative);
    }
    assert body[0] == m[0];
    FigureStart(body);
  }

  lemma SpellingIsRead(text: string, s: Spelling)
    requires s.Valid() && s.Text() == Squeezed(text)
    ensures ParseLiteral(text) == Finite(s.sign == Minus, s.Value())
  {
    hide ParseNumeral, Strip, Without, IsSpecial, NatOf;
    var rest := s.Mantissa() + s.exponent.Text();
    BodyIsRead(s, s.sign == Minus);
    LowerJoins(s.sign.Text(), rest);
    match s.sign {
      case Bare => assert "" + rest == rest;
      case Plus => assert Lower(s.Text())[1..] == Lower(rest) && Lower(s.Text())[0] == '+';
      case Minus => assert Lower(s.Text())[1..] == Lower(rest) && Lower(s.Text())[0] == '-';
    }
  }

  // ---------------------------------------------------------------- nothing else is

  /** A character that lower-casing leaves behind was there before, unless it is a letter. */
  lemma LowerKeepsInk(c: char)
    ensures !('a' <= LowerChar(c) <= 'z') ==> LowerChar(c) == c
    ensures LowerChar(c) == 'e' ==> c == 'e' || c == 'E'
  {
  }

  lemma LowerDigits(s: string)
    requires AllDigits(Lower(s))
    ensures Lower(s) == s
  {
    forall i | 0 <= i < |s| ensures Lower(s)[i] == s[i] {
      LowerKeepsInk(s[i]);
      assert IsDigit(Lower(s)[i]);
    }
  }

  lemma MantissaHasParts(m: string) returns (whole: string, fraction: Option<string>)
    requires ParseMantissa(Lower(m)).Some?
    ensures AllDigits(whole) && (fraction.Some? ==> AllDigits(fraction.value))
    ensures m == whole + if fraction.Some? then "." + fraction.value else ""
    ensures whole + (if fraction.Some? then fraction.value else "") != ""
  {
    var t := Lower(m);
    var dot := IndexOf(t, '.');
    whole := m[..dot];
    assert Lower(whole) == t[..dot];
    LowerDigits(whole);
    if dot < |m| {
      assert Lower(m[dot + 1..]) == t[dot + 1..];
      LowerDigits(m[dot + 1..]);
      LowerKeepsInk(m[dot]);
      fraction := Some(m[dot + 1..]);
    } else {
      fraction := None;
    }
  }

  lemma ExponentHasParts(e: string) returns (sign: Sign, digits: string)
    requires ParseExponent(Lower(e)).Some?
    ensures AllDigits(digits) && digits != "" && e == sign.Text() + digits
  {
    LowerKeepsInk(e[0]);
    var t := Lower(e);
    if t[0] == '+' || t[0] == '-' {
      sign := if t[0] == '+' then Plus else Minus;
      digits := e[1..];
      assert Lower(digits) == t[1..];
    } else {
      sign := Bare;
      digits := e;
    }
    LowerDigits(digits);
  }

  lemma BodyHasParts(body: string, negative: bool) returns (whole: string, fraction: Option<string>, exponent: Exponent)
    requires ParseNumeral(negative, Lower(body)).Finite?
    ensures AllDigits(whole) && (fraction.Some? ==> AllDigits(fraction.value)) && exponent.Valid()
    ensures whole + (if fraction.Some? then fraction.value else "") != ""
    ensures body == (whole + if fraction.Some? then "." + fraction.value else "") + exponent.Text()
  {
    hide ParseMantissa, ParseExponent;
    var t := Lower(body);
    var mark := IndexOf(t, 'e');
    assert Lower(body[..mark]) == t[..mark];
    whole, fraction := MantissaHasParts(body[..mark]);
    if mark < |t| {
      assert Lower(body[mark + 1..]) == t[mark + 1..];
      var sign, digits := ExponentHasParts(body[mark + 1..]);
      LowerKeepsInk(body[mark]);
      exponent := Scaled(body[mark], sign, digits);
      assert body == body[..mark] + ([body[mark]] + sign.Text() + digits);
    } else {
      exponent := Unscaled;
    }
  }

  lemma ReadIsSpelling(text: string) returns (s: Spelling)
    requires ParseLiteral(text).Finite?
    ensures s.Valid() && s.Text() == Squeezed(text)
  {
    hide ParseNumeral, Strip, Without, IsSpecial;
    var u := Squeezed(text);
    var t := Lower(u);
    var sign := if t != "" && t[0] == '+' then Plus else if t != "" && t[0] == '-' then Minus else Bare;
    if u != "" {
      LowerKeepsInk(u[0]);
    }
    var body := if sign == Bare then u else u[1..];
    assert Lower(body) == if sign == Bare then t else t[1..];
    var whole, fraction, exponent := BodyHasParts(body, sign == Minus);
    s := Spelling(sign, whole, fraction, exponent);
    assert u == sign.Text() + body;
  }

  /** `Decimal(text)` reads exactly the spellings as finite numbers, and as the numbers they
      spell. */
  lemma LiteralMeans(text: string, negative: bool, x: Dec)
    ensures ParseLiteral(text) == Finite(negative, x) <==> SpellsNumber(text, negative, x)
  {
    hide ParseLiteral, Squeezed;
    if ParseLiteral(text) == Finite(negative, x) {
      var s := ReadIsSpelling(text);
      SpellingIsRead(text, s);
    }
    if SpellsNumber(text, negative, x) {
      var s: Spelling :| s.Valid() && s.Text() == Squeezed(text) && s.Value() == x && (s.sign == Minus <==> negative);
      SpellingIsRead(text, s);
    }
  }
}
