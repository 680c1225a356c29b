/** Which texts name an address, and which name a chain. */
module AddressLaws {
  import opened Outcomes
  import opened Positional
  import opened Text
  import opened Calldata
  import opened Transactions

  // ---------------------------------------------------------------- addresses

  lemma DigitIgnoresCase(c: char)
    ensures HexDigitValue(LowerChar(c)) == HexDigitValue(c)
    ensures HexDigitValue(c).Some? ==> LowerChar(c) == HexDigit(HexDigitValue(c).value)
  {
  }

  lemma LowerTail(s: string, n: nat)
    requires n <= |s|
    ensures Lower(s)[n..] == Lower(s[n..])
  {
  }

  lemma {:induction false} BytesIgnoreCase(s: string)
    ensures BytesOfHex(Lower(s)) == BytesOfHex(s)
  {
    if |s| >= 2 {
      DigitIgnoresCase(s[0]);
      DigitIgnoresCase(s[1]);
      LowerTail(s, 2);
      BytesIgnoreCase(s[2..]);
      hide HexDigitValue, LowerChar;
    }
  }

  /** The bytes a hex text spells, written out again, give the text back in lower case. */
  lemma {:induction false} HexOfBytes(s: string)
    ensures match BytesOfHex(s)
      case Some(bytes) => Digits(bytes, 256) && HexOf(bytes) == Lower(s) && |s| == 2 * |bytes|
      case None => true
  {
    if |s| >= 2 && BytesOfHex(s).Some? {
      HexOfBytes(s[2..]);
      DigitIgnoresCase(s[0]);
      DigitIgnoresCase(s[1]);
      LowerTail(s, 2);
      var high, low := HexDigitValue(s[0]).value, HexDigitValue(s[1]).value;
      var bytes := BytesOfHex(s).value;
      assert bytes[0] == high * 16 + low && bytes[1..] == BytesOfHex(s[2..]).value;
      assert bytes[0] / 16 == high && bytes[0] % 16 == low;
      assert Lower(s) == [LowerChar(s[0]), LowerChar(s[1])] + Lower(s[2..]);
    }
  }

  lemma {:induction false} FixedWidthOfValue(ds: seq<nat>, base: nat)
    requires base >= 2 && Digits(ds, base)
    ensures FixedWidth(Value(ds, base), base, |ds|) == ds
  {
    if ds != [] {
      var head, last := ds[..|ds| - 1], ds[|ds| - 1];
      FixedWidthOfValue(head, base);
      QuotientAndRemainder(Value(head, base), base, last);
      assert ds == head + [last];
    }
  }

  /** Forty hex digits that stand for an address. */
  lemma DigitsName(digits: string, a: Address)
    ensures |digits| == 40 && BytesOfHex(digits).Some? && Value(BytesOfHex(digits).value, 256) == a
       <==> "0x" + Lower(digits) == AddressText(a)
  {
    hide BytesOfHex, HexOf, Value, FixedWidth, Lower, Power;
    var bytes := FixedWidth(a, 256, 20);
    var written := "0x" + Lower(digits);
    HexOfBytes(digits);
    BytesIgnoreCase(digits);
    PowersOf256();
    FixedWidthRoundTrip(a, 256, 20);
    HexRoundTrip(bytes);
    if |digits| == 40 && BytesOfHex(digits).Some? && Value(BytesOfHex(digits).value, 256) == a {
      FixedWidthOfValue(BytesOfHex(digits).value, 256);
    }
    if written == AddressText(a) {
      assert written[2..] == Lower(digits) && AddressText(a)[2..] == HexOf(bytes);
    }
  }

  /** A text names an address exactly when it is the address's forty hex digits, in any letter
      case, with or without "0x", with any blanks around them. */
  lemma AddressMeans(s: string, a: Address)
    ensures NormalizeAddress(s) == Ok(a)
       <==> Lower(Strip(s)) == AddressText(a) || "0x" + Lower(Strip(s)) == AddressText(a)
  {
    hide Strip, BytesOfHex, HexOf, Value, FixedWidth, AddressText;
    var c := Strip(s);
    if StartsWith(Lower(c), "0x") {
      DigitsName(c[2..], a);
      LowerTail(c, 2);
      assert Lower(c) == "0x" + Lower(c)[2..];
      NamesHaveOnePrefix(a);
      assert ("0x" + Lower(c))[3] == 'x';
    } else {
      DigitsName(c, a);
      NamesHavePrefix(a);
    }
    if NormalizeAddress(s) == Ok(a) {
      assert a < ADDRESS_SPACE;
    }
  }

  lemma NamesHavePrefix(a: Address)
    ensures AddressText(a)[..2] == "0x" && |AddressText(a)| == 42
  {
  }

  lemma NamesHaveOnePrefix(a: Address)
    ensures |AddressText(a)| == 42 && AddressText(a)[3] != 'x'
  {
    hide HexOf, FixedWidth, LowerChar, IsSpace;
    var bytes := FixedWidth(a, 256, 20);
    HexRoundTrip(bytes);
    assert AddressText(a)[3] == HexOf(bytes)[1];
    assert HexOf(bytes)[1] in HexOf(bytes);
  }

  const HEX_DIGITS := "0123456789abcdefABCDEF"

  lemma HexDigitsAre(c: char)
    ensures HexDigitValue(c).Some? <==> c in HEX_DIGITS
  {
    assert c in HEX_DIGITS <==> exists i | 0 <= i < |HEX_DIGITS| :: HEX_DIGITS[i] == c;
  }

  /** Hex data is "0x" and hex digits of either case. */
  lemma HexDataMeans(s: string)
    ensures IsHexData(s) <==> |s| >= 2 && s[..2] == "0x" && forall i | 2 <= i < |s| :: s[i] in HEX_DIGITS
  {
    hide HexDigitValue, HEX_DIGITS;
    forall i | 2 <= i < |s| ensures HexDigitValue(s[i]).Some? <==> s[i] in HEX_DIGITS {
      HexDigitsAre(s[i]);
    }
  }

  // ---------------------------------------------------------------- chains

  lemma ChainsDiffer(c: ChainConfig, d: ChainConfig)
    requires c in CHAINS && d in CHAINS && (c.name == d.name || c.chainId == d.chainId)
    ensures c == d
  {
    assert c.name == d.name ==> c.name[0] == d.name[0];
  }

  /** A chain is found by exactly its name, in any letter case and with any blanks. */
  lemma ChainNameMeans(name: string, c: ChainConfig)
    ensures ChainByName(name) == Ok(c) <==> c in CHAINS && c.name == Lower(Strip(name))
  {
    hide Lower, Strip, FirstChain, CHAINS;
    if c in CHAINS && c.name == Lower(Strip(name)) {
      forall d | d in CHAINS && d.name == Lower(Strip(name)) ensures d == c {
        ChainsDiffer(c, d);
      }
      OnlyMatchIsFirst(CHAINS, (d: ChainConfig) => d.name == Lower(Strip(name)), c);
    }
  }

  /** And by exactly its number. */
  lemma ChainIdMeans(chainId: int, c: ChainConfig)
    ensures ChainById(chainId) == Ok(c) <==> c in CHAINS && c.chainId == chainId
  {
    hide FirstChain, CHAINS;
    if c in CHAINS && c.chainId == chainId {
      forall d | d in CHAINS && d.chainId == chainId ensures d == c {
        ChainsDiffer(c, d);
      }
      OnlyMatchIsFirst(CHAINS, (d: ChainConfig) => d.chainId == chainId, c);
    }
  }
}
