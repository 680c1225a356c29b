/** Addresses, hex text and the calldata of the two ERC20 calls
    (mercury/tools/erc20_transactions.py, encoders). */
module Calldata {
  import opened Outcomes
  import opened Positional
  import opened Text

  const ADDRESS_SPACE := 0x1_0000000000_0000000000_0000000000_0000000000
  const MAX_UINT256 := 0xffffffff_ffffffff_ffffffff_ffffffff_ffffffff_ffffffff_ffffffff_ffffffff

  /** An EVM address as the number its hex digits spell. */
  type Address = a: nat | a < ADDRESS_SPACE witness 0

  const ZERO_ADDRESS: Address := 0

  // ---------------------------------------------------------------- hex text

  function HexDigit(d: nat): (c: char)
    requires d < 16
    ensures LowerChar(c) == c && !IsSpace(c)
    ensures HexDigitValue(c) == Some(d)
  {
    if d < 10 then '0' + d as char else 'a' + (d - 10) as char
  }

  function HexDigitValue(c: char): (d: Option<nat>)
    ensures d.Some? ==> d.value < 16
  {
    if '0' <= c <= '9' then Some((c - '0') as nat)
    else if 'a' <= c <= 'f' then Some((c - 'a') as nat + 10)
    else if 'A' <= c <= 'F' then Some((c - 'A') as nat + 10)
    else None
  }

  predicate IsHexData(s: string) {
    StartsWith(s, "0x") && forall i | 2 <= i < |s| :: HexDigitValue(s[i]).Some?
  }

  /** Text of the form the models accept as hex data. */
  type HexData = s: string | IsHexData(s) witness "0x"

  /** `bytes.hex()`. */
  function HexOf(bytes: seq<nat>): (s: string)
    requires Digits(bytes, 256)
    ensures |s| == 2 * |bytes|
  {
    if bytes == [] then ""
    else [HexDigit(bytes[0] / 16), HexDigit(bytes[0] % 16)] + HexOf(bytes[1..])
  }

  function BytesOfHex(s: string): Option<seq<nat>> {
    if s == "" then Some([])
    else if |s| == 1 then None
    else
      match (HexDigitValue(s[0]), HexDigitValue(s[1]), BytesOfHex(s[2..]))
      case (Some(high), Some(low), Some(rest)) => Some([high * 16 + low] + rest)
      case _ => None
  }

  lemma {:induction false} HexRoundTrip(bytes: seq<nat>)
    requires Digits(bytes, 256)
    ensures BytesOfHex(HexOf(bytes)) == Some(bytes)
    ensures forall c | c in HexOf(bytes) :: LowerChar(c) == c && !IsSpace(c) && HexDigitValue(c).Some?
  {
    if bytes != [] {
      HexRoundTrip(bytes[1..]);
      var s := HexOf(bytes);
      assert s[2..] == HexOf(bytes[1..]);
      assert s[0] == HexDigit(bytes[0] / 16) && s[1] == HexDigit(bytes[0] % 16);
      assert [bytes[0]] + bytes[1..] == bytes;
    }
  }

  lemma {:induction false} HexConcatenates(a: seq<nat>, b: seq<nat>)
    requires Digits(a, 256) && Digits(b, 256)
    ensures Digits(a + b, 256)
    ensures HexOf(a + b) == HexOf(a) + HexOf(b)
  {
    if a == [] {
      assert a + b == b;
    } else {
      HexConcatenates(a[1..], b);
      assert (a + b)[1..] == a[1..] + b;
    }
  }

  // ---------------------------------------------------------------- address text

  function AddressText(a: Address): string {
    "0x" + HexOf(FixedWidth(a, 256, 20))
  }

  /** `normalize_evm_address`, without its checksum: forty hex digits, with or without "0x". */
  function NormalizeAddress(s: string): Try<Address> {
    var c := Strip(s);
    var digits := if StartsWith(Lower(c), "0x") then c[2..] else c;
    if |digits| != 40 then Raised("Invalid EVM address.")
    else
      match BytesOfHex(digits)
      case Some(bytes) =>
        var a := Value(bytes, 256);
        if a < ADDRESS_SPACE then Ok(a) else Raised("Invalid EVM address.")
      case None => Raised("Invalid EVM address.")
  }

  lemma AddressTextRoundTrip(a: Address)
    ensures NormalizeAddress(AddressText(a)) == Ok(a)
  {
    hide HexOf, BytesOfHex, Value, FixedWidth, Power, StripLeft;
    var bytes := FixedWidth(a, 256, 20);
    PowersOf256();
    FixedWidthRoundTrip(a, 256, 20);
    HexRoundTrip(bytes);
    var s := AddressText(a);
    assert s[2..] == HexOf(bytes);
    assert s[|s| - 1] in HexOf(bytes);
    InkIsNotStripped(s);
    assert Lower(s)[..2] == "0x";
  }

  lemma InkIsNotStripped(s: string)
    requires s != "" && !IsSpace(s[0]) && !IsSpace(s[|s| - 1])
    ensures Strip(s) == s
  {
  }

  lemma PowersOf256()
    ensures Power(256, 20) == ADDRESS_SPACE
    ensures Power(256, 32) == MAX_UINT256 + 1
  {
    assert Power(256, 2) == 0x10000;
    PowerAdds(256, 2, 2);
    PowerAdds(256, 4, 4);
    PowerAdds(256, 8, 8);
    PowerAdds(256, 16, 4);
    PowerAdds(256, 16, 16);
  }

  // ---------------------------------------------------------------- calls

  const TRANSFER_SELECTOR: seq<nat> := [0xa9, 0x05, 0x9c, 0xbb]
  const APPROVE_SELECTOR: seq<nat> := [0x09, 0x5e, 0xa7, 0xb3]

  function Word(n: nat): (bytes: seq<nat>)
    ensures |bytes| == 32 && Digits(bytes, 256)
  {
    FixedWidth(n, 256, 32)
  }

  /** A call with two static arguments, as the Contract ABI Specification lays it out:
      the selector, then one 32-byte word each. */
  function EncodeCall(selector: seq<nat>, who: Address, amount: nat): string
    requires Digits(selector, 256)
  {
    "0x" + HexOf(selector + Word(who) + Word(amount))
  }

  function ValidateUint256(value: int): Try<nat> {
    if value < 0 || value > MAX_UINT256 then Raised("ERC20 amount must fit uint256.") else Ok(value)
  }

  function EncodeTransfer(recipient: Address, amount: int): Try<string> {
    var value :- ValidateUint256(amount);
    Ok(EncodeCall(TRANSFER_SELECTOR, recipient, value))
  }

  function EncodeApproval(spender: Address, amount: int): Try<string> {
    var value :- ValidateUint256(amount);
    Ok(EncodeCall(APPROVE_SELECTOR, spender, value))
  }

  /** What the contract reads: selector, address word, amount word. */
  function DecodeCall(data: string): Option<(seq<nat>, nat, nat)> {
    if !StartsWith(data, "0x") then None
    else
      match BytesOfHex(data[2..])
      case Some(bytes) =>
        if |bytes| == 68 then Some((bytes[..4], Value(bytes[4..36], 256), Value(bytes[36..], 256))) else None
      case None => None
  }

  /** Every call has 138 characters, starts with its selector and decodes to exactly its
      arguments. */
  lemma CallRoundTrip(selector: seq<nat>, who: Address, amount: nat)
    requires |selector| == 4 && Digits(selector, 256) && amount <= MAX_UINT256
    ensures var data := EncodeCall(selector, who, amount);
      && |data| == 138 && IsHexData(data) && data != "0x"
      && StartsWith(Lower(data), "0x" + HexOf(selector))
      && DecodeCall(data) == Some((selector, who, amount))
  {
    hide HexOf, BytesOfHex, Value, FixedWidth, Power;
    var bytes := selector + Word(who) + Word(amount);
    var data := EncodeCall(selector, who, amount);
    PowersOf256();
    FixedWidthRoundTrip(who, 256, 32);
    FixedWidthRoundTrip(amount, 256, 32);
    HexRoundTrip(bytes);
    assert bytes == selector + (Word(who) + Word(amount));
    HexConcatenates(selector, Word(who) + Word(amount));
    assert data[2..] == HexOf(bytes);
    assert forall i | 2 <= i < |data| :: data[i] in HexOf(bytes);
    assert data[..10] == "0x" + HexOf(selector);
    LowerTextStays(data, 10);
    assert bytes[..4] == selector && bytes[4..36] == Word(who) && bytes[36..] == Word(amount);
  }

  lemma LowerTextStays(s: string, n: nat)
    requires n <= |s| && forall i | 0 <= i < n :: LowerChar(s[i]) == s[i]
    ensures Lower(s)[..n] == s[..n]
  {
  }

  /** The two encoders accept exactly the uint256 amounts, and what they produce carries the
      selector text that policy looks for. */
  lemma EncodersMeetPolicy(who: Address, amount: int)
    ensures EncodeTransfer(who, amount).Ok? <==> 0 <= amount <= MAX_UINT256
    ensures EncodeApproval(who, amount).Ok? <==> 0 <= amount <= MAX_UINT256
    ensures 0 <= amount <= MAX_UINT256 ==>
              && |EncodeTransfer(who, amount).value| == 138
              && |EncodeApproval(who, amount).value| == 138
              && StartsWith(Lower(EncodeTransfer(who, amount).value), "0xa9059cbb")
              && StartsWith(Lower(EncodeApproval(who, amount).value), "0x095ea7b3")
              && DecodeCall(EncodeTransfer(who, amount).value) == Some((TRANSFER_SELECTOR, who, amount))
              && DecodeCall(EncodeApproval(who, amount).value) == Some((APPROVE_SELECTOR, who, amount))
  {
    if 0 <= amount <= MAX_UINT256 {
      CallRoundTrip(TRANSFER_SELECTOR, who, amount);
      CallRoundTrip(APPROVE_SELECTOR, who, amount);
      SelectorTexts();
    }
  }

  lemma SelectorTexts()
    ensures "0x" + HexOf(TRANSFER_SELECTOR) == "0xa9059cbb"
    ensures "0x" + HexOf(APPROVE_SELECTOR) == "0x095ea7b3"
  {
    hide HexOf, HexDigitValue, LowerChar;
    HexOfFour(0xa9, 0x05, 0x9c, 0xbb);
    HexOfFour(0x09, 0x5e, 0xa7, 0xb3);
  }

  lemma HexOfOne(a: nat)
    requires a < 256
    ensures HexOf([a]) == [HexDigit(a / 16), HexDigit(a % 16)]
  {
    assert HexOf([]) == "";
  }

  lemma HexOfFour(a: nat, b: nat, c: nat, d: nat)
    requires a < 256 && b < 256 && c < 256 && d < 256
    ensures HexOf([a, b, c, d]) == [HexDigit(a / 16), HexDigit(a % 16), HexDigit(b / 16), HexDigit(b % 16),
                                    HexDigit(c / 16), HexDigit(c % 16), HexDigit(d / 16), HexDigit(d % 16)]
  {
    hide HexDigit, HexOf;
    HexOfOne(a);
    HexOfOne(b);
    HexOfOne(c);
    HexOfOne(d);
    assert [a, b, c, d] == [a] + ([b] + ([c] + [d]));
    HexConcatenates([a], [b] + ([c] + [d]));
    HexConcatenates([b], [c] + [d]);
    HexConcatenates([c], [d]);
  }
}
