/** What the string operations do, said from the characters. */
module TextLaws {
  import opened Outcomes
  import opened Positional
  import opened Text
  import opened Amounts

  const BLANKS := " \t\n\U{B}\U{C}\r\U{1C}\U{1D}\U{1E}\U{1F}"

  lemma BlanksAreBlank(c: char)
    ensures IsSpace(c) <==> c in BLANKS
  {
    assert c in BLANKS <==> exists i | 0 <= i < |BLANKS| :: BLANKS[i] == c;
  }

  predicate Blank(s: string) {
    forall i | 0 <= i < |s| :: IsSpace(s[i])
  }

  /** Neither starts nor ends with a blank. */
  predicate Inked(s: string) {
    s != "" ==> !IsSpace(s[0]) && !IsSpace(s[|s| - 1])
  }

  lemma {:induction false} LeftBlanksGo(before: string, rest: string)
    requires Blank(before) && (rest != "" ==> !IsSpace(rest[0]))
    ensures StripLeft(before + rest) == rest
  {
    if before == "" {
      assert before + rest == rest;
    } else {
      assert (before + rest)[1..] == before[1..] + rest;
      LeftBlanksGo(before[1..], rest);
    }
  }

  lemma {:induction false} RightBlanksGo(rest: string, after: string)
    requires Blank(after) && (rest != "" ==> !IsSpace(rest[|rest| - 1]))
    ensures StripRight(rest + after) == rest
  {
    if after == "" {
      assert rest + after == rest;
    } else {
      assert (rest + after)[..|rest + after| - 1] == rest + after[..|after| - 1];
      RightBlanksGo(rest, after[..|after| - 1]);
    }
  }

  lemma {:induction false} OnlyBlanksGo(s: string)
    requires Blank(s)
    ensures StripLeft(s) == ""
  {
    if s != "" {
      OnlyBlanksGo(s[1..]);
    }
  }

  /** Stripping removes the blanks around a text and nothing else. */
  lemma StripMeans(before: string, core: string, after: string)
    requires Blank(before) && Blank(after) && Inked(core)
    ensures Strip(before + core + after) == core
  {
    if core == "" {
      OnlyBlanksGo(before + core + after);
    } else {
      assert before + core + after == before + (core + after);
      LeftBlanksGo(before, core + after);
      RightBlanksGo(core, after);
    }
  }

  lemma {:induction false} LeftParts(s: string) returns (before: string, rest: string)
    ensures s == before + rest && Blank(before) && (rest != "" ==> !IsSpace(rest[0]))
  {
    if s != "" && IsSpace(s[0]) {
      before, rest := LeftParts(s[1..]);
      before := [s[0]] + before;
    } else {
      before, rest := "", s;
    }
  }

  lemma {:induction false} RightParts(s: string) returns (rest: string, after: string)
    ensures s == rest + after && Blank(after) && (rest != "" ==> !IsSpace(rest[|rest| - 1]))
  {
    if s != "" && IsSpace(s[|s| - 1]) {
      rest, after := RightParts(s[..|s| - 1]);
      after := after + [s[|s| - 1]];
    } else {
      rest, after := s, "";
    }
  }

  /** Every text is a core between blanks. */
  lemma TextHasCore(s: string) returns (before: string, core: string, after: string)
    ensures s == before + core + after && Blank(before) && Blank(after) && Inked(core) && core == Strip(s)
  {
    var rest;
    before, rest := LeftParts(s);
    core, after := RightParts(rest);
    assert core != "" ==> core[0] == rest[0];
    assert s == before + core + after;
    StripMeans(before, core, after);
  }

  lemma WithoutOne(x: char, c: char)
    ensures Without([x], c) == if x == c then "" else [x]
  {
    assert Without([x][1..], c) == "";
  }

  /** Leaving a character out, piece by piece. */
  lemma {:induction false} WithoutJoins(a: string, b: string, c: char)
    ensures Without(a + b, c) == Without(a, c) + Without(b, c)
  {
    if a == "" {
      assert a + b == b;
    } else {
      assert (a + b)[1..] == a[1..] + b;
      WithoutJoins(a[1..], b, c);
    }
  }

  /** The value of digits, digit by digit. */
  lemma NatOfAppends(s: string, c: char)
    requires AllDigits(s) && IsDigit(c)
    ensures AllDigits(s + [c]) && NatOf(s + [c]) == 10 * NatOf(s) + (c - '0') as nat
    ensures NatOf("") == 0
  {
    assert DigitValues(s + [c])[..|s|] == DigitValues(s);
  }

  /** `parse_units` and its sibling hand on the text between the blanks, less one plus. */
  lemma CandidateMeans(before: string, core: string, after: string)
    requires Blank(before) && Blank(after) && Inked(core)
    ensures Candidate(before + core + after) == if core != "" && core[0] == '+' then core[1..] else core
  {
    StripMeans(before, core, after);
    hide Strip;
    assert core != "" ==> core[..1] == [core[0]];
  }

  // ---------------------------------------------------------------- raw amounts

  /** Digits that Python reads as a whole number. */
  predicate RawDigits(s: string) {
    AllDigits(s) && 1 <= |s| <= MAX_STR_DIGITS
  }

  /** Blanks, at most one plus, and digits that spell the number. */
  ghost predicate SpellsRaw(amount: string, raw: nat) {
    exists before, plus, digits, after ::
      && Blank(before) && Blank(after) && (plus == "" || plus == "+") && RawDigits(digits) && NatOf(digits) == raw
      && amount == before + (plus + digits) + after
  }

  lemma DigitsAreInked(plus: string, digits: string)
    requires AllDigits(digits) && digits != "" && (plus == "" || plus == "+")
    ensures Inked(plus + digits)
    ensures var core := plus + digits; core != "" && (if core[0] == '+' then core[1..] else core) == digits
  {
    var core := plus + digits;
    assert core[|core| - 1] == digits[|digits| - 1];
    if plus == "" {
      assert core == digits;
    } else {
      assert core[1..] == digits;
    }
  }

  /** A raw amount is read exactly when it is such a text, and then as the number spelled. */
  lemma RawAmountMeans(amount: string, raw: nat)
    ensures ParseIntegerRawAmount(amount) == Ok(raw) <==> SpellsRaw(amount, raw)
  {
    hide Strip, NatOf, Candidate;
    if ParseIntegerRawAmount(amount) == Ok(raw) {
      var before, core, after := TextHasCore(amount);
      CandidateMeans(before, core, after);
      var plus := if core != "" && core[0] == '+' then "+" else "";
      var digits := Candidate(amount);
      assert core == plus + digits;
      assert SpellsRaw(amount, raw);
    }
    if SpellsRaw(amount, raw) {
      var before, plus, digits, after :|
        && Blank(before) && Blank(after) && (plus == "" || plus == "+") && RawDigits(digits) && NatOf(digits) == raw
        && amount == before + (plus + digits) + after;
      DigitsAreInked(plus, digits);
      CandidateMeans(before, plus + digits, after);
      StripMeans(before, plus + digits, after);
    }
  }

  /** What Python writes for a number of units is read back as that number. */
  lemma RawAmountRoundTrip(n: nat)
    requires DigitCount(n) <= MAX_STR_DIGITS
    ensures ParseIntegerRawAmount(Str(n)) == Ok(n)
  {
    hide Str, NatOf, ParseIntegerRawAmount;
    NatOfStr(n);
    var none, digits := "", Str(n);
    assert Blank(none) && RawDigits(digits);
    assert digits == none + (none + digits) + none;
    RawAmountMeans(Str(n), n);
  }
}
