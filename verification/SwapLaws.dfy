/** What swap preparation promises, over one invocation and over two. */
module SwapLaws {
  import opened Outcomes
  import opened Text
  import opened Amounts
  import opened Calldata
  import opened Transactions
  import opened AddressLaws
  import opened Builders
  import opened BuilderLaws
  import opened Swaps

  /** Where the chain keeps the allowance a quote depends on. */
  function AllowanceKey(quote: SwapQuote): (string, Address, Address, Address)
    requires quote.route.spender.Some?
  {
    (quote.request.chain, quote.route.fromToken, quote.request.walletAddress, quote.route.spender.value)
  }

  // ---------------------------------------------------------------- one invocation: what was asked

  predicate Letters(c: string) {
    c != "" && forall i | 0 <= i < |c| :: 'a' <= LowerChar(c[i]) <= 'z'
  }

  lemma UnlimitedIsLetters(c: string)
    requires Lower(c) == "max" || Lower(c) == "unlimited"
    ensures Letters(c)
  {
    forall i | 0 <= i < |c| ensures 'a' <= LowerChar(c[i]) <= 'z' {
      assert Lower(c)[i] == LowerChar(c[i]);
    }
  }

  lemma LettersStay(c: string)
    requires Letters(c)
    ensures Strip(c) == c && Without(c, '_') == c && c[0] != '+' && c[0] != '-'
    ensures Lower(c)[0] != '+' && Lower(c)[0] != '-'
  {
    WithoutAbsent(c, '_');
  }

  lemma WordNeverParses(c: string)
    requires Lower(c) == "max" || Lower(c) == "unlimited"
    ensures ParseLiteral(c) == Malformed
  {
    UnlimitedIsLetters(c);
    LettersStay(c);
    WordsAreMalformed();
    WordsAreNotSpecial();
    hide Strip, Without, Lower, ParseNumeral, IsSpecial;
    assert ParseLiteral(c) == ParseNumeral(false, Lower(c));
  }

  /** The words that mean an unlimited approval never parse as an amount. */
  lemma UnlimitedTextNeverParses(amount: string, decimals: int)
    requires IsUnlimitedText(amount)
    ensures ParseUnits(amount, decimals).Raised?
  {
    var c := Strip(amount);
    UnlimitedIsLetters(c);
    LettersStay(c);
    WordNeverParses(c);
    hide Strip, Lower, ParseLiteral, ToRaw;
    assert Candidate(amount) == c;
  }

  lemma WordsAreMalformed()
    ensures ParseNumeral(false, "max") == Malformed
    ensures ParseNumeral(false, "unlimited") == Malformed
  {
    assert !IsDigit("max"[0]);
    WordIsMalformed("max");
    WordIsMalformed("unlimited");
  }

  lemma WordsAreNotSpecial()
    ensures !IsSpecial("max") && !IsSpecial("unlimited")
  {
    assert "max"[0] == 'm' && "unlimited"[0] == 'u';
  }

  lemma WordIsMalformed(t: string)
    requires t != "" && t[0] != 'e' && t[0] != '.' && !IsDigit(t[0])
    ensures ParseNumeral(false, t) == Malformed
  {
    var mark := IndexOf(t, 'e');
    var m := t[..mark];
    assert m[0] == t[0];
    var dot := IndexOf(m, '.');
    assert dot > 0;
    assert m[..dot][0] == t[0];
  }

  /** The swap goes nowhere else, or to a configured chain that bears the name and the number
      the intent gives, as far as it gives them. */
  ghost predicate Heads(intent: SwapIntent, toChain: Option<string>, toChainId: Option<int>) {
    if intent.toChain.None? && intent.toChainId.None? then toChain.None? && toChainId.None?
    else
      exists c :: c in CHAINS && toChain == Some(c.name) && toChainId == Some(c.chainId)
        && (intent.toChain.Some? ==> c.name == Lower(Strip(intent.toChain.value)))
        && (intent.toChainId.Some? ==> c.chainId == intent.toChainId.value)
  }

  lemma DestinationMeans(intent: SwapIntent, toChain: Option<string>, toChainId: Option<int>)
    ensures Destination(intent) == Ok((toChain, toChainId)) <==> Heads(intent, toChain, toChainId)
  {
    hide ChainByName, ChainById, Lower, Strip;
    if intent.toChain.Some? {
      forall c
        ensures ChainByName(intent.toChain.value) == Ok(c) <==> c in CHAINS && c.name == Lower(Strip(intent.toChain.value))
      {
        ChainNameMeans(intent.toChain.value, c);
      }
      hide CHAINS;
      NamedDestination(intent, toChain, toChainId);
    } else if intent.toChainId.Some? {
      forall c ensures ChainById(intent.toChainId.value) == Ok(c) <==> c in CHAINS && c.chainId == intent.toChainId.value {
        ChainIdMeans(intent.toChainId.value, c);
      }
      hide CHAINS;
      NumberedDestination(intent, toChain, toChainId);
    }
  }

  lemma NamedDestination(intent: SwapIntent, toChain: Option<string>, toChainId: Option<int>)
    requires intent.toChain.Some?
    requires forall c ::
      ChainByName(intent.toChain.value) == Ok(c) <==> c in CHAINS && c.name == Lower(Strip(intent.toChain.value))
    ensures Destination(intent) == Ok((toChain, toChainId)) <==> Heads(intent, toChain, toChainId)
  {
    hide ChainByName, ChainById, Lower, Strip, CHAINS;
    if Heads(intent, toChain, toChainId) {
      var c :| c in CHAINS && toChain == Some(c.name) && toChainId == Some(c.chainId)
        && (intent.toChain.Some? ==> c.name == Lower(Strip(intent.toChain.value)))
        && (intent.toChainId.Some? ==> c.chainId == intent.toChainId.value);
      assert ChainByName(intent.toChain.value) == Ok(c);
    }
  }

  lemma NumberedDestination(intent: SwapIntent, toChain: Option<string>, toChainId: Option<int>)
    requires intent.toChain.None? && intent.toChainId.Some?
    requires forall c :: ChainById(intent.toChainId.value) == Ok(c) <==> c in CHAINS && c.chainId == intent.toChainId.value
    ensures Destination(intent) == Ok((toChain, toChainId)) <==> Heads(intent, toChain, toChainId)
  {
    hide ChainByName, ChainById, Lower, Strip, CHAINS;
    if Heads(intent, toChain, toChainId) {
      var c :| c in CHAINS && toChain == Some(c.name) && toChainId == Some(c.chainId)
        && (intent.toChainId.Some? ==> c.chainId == intent.toChainId.value);
      assert ChainById(intent.toChainId.value) == Ok(c);
    }
  }

  /** So many units are sold: of the native coin, with eighteen decimals and a wrapped token, or
      of a token with the decimals the chain reports. */
  ghost predicate Sells(intent: SwapIntent, chain: ChainConfig, ledger: Ledger, units: nat, wrapped: Option<Address>) {
    if intent.fromToken == 0 then
      chain.wrappedNative.Some? && wrapped == chain.wrappedNative && ParseUnits(intent.amountIn, 18) == Ok(units)
    else
      && wrapped.None? && (chain.name, intent.fromToken) in ledger.decimals
      && ParseUnits(intent.amountIn, ledger.decimals[(chain.name, intent.fromToken)]) == Ok(units)
  }

  lemma SellMeans(intent: SwapIntent, chain: ChainConfig, ledger: Ledger, units: nat, wrapped: Option<Address>)
    requires chain in CHAINS
    ensures var sold := SellAmount(intent, chain, ledger);
      (sold.Ok? && sold.value.0.raw == units && sold.value.1 == wrapped) <==> Sells(intent, chain, ledger, units, wrapped)
  {
    hide ParseUnits, AmountFromHuman, GetMetadata;
    if intent.fromToken == 0 {
      HumanAmountMeans(intent.amountIn, 18, units);
    } else {
      TokenHasDecimals(ledger, chain, intent.fromToken);
      if (chain.name, intent.fromToken) in ledger.decimals {
        HumanAmountMeans(intent.amountIn, ledger.decimals[(chain.name, intent.fromToken)], units);
        EmptyOrOddNeverParses(ledger.decimals[(chain.name, intent.fromToken)]);
      }
    }
  }

  lemma HumanAmountMeans(amount: string, decimals: int, units: nat)
    ensures (AmountFromHuman(amount, decimals).Ok? && AmountFromHuman(amount, decimals).value.raw == units)
       <==> ParseUnits(amount, decimals) == Ok(units)
  {
    EmptyOrOddNeverParses(decimals);
    hide ParseUnits;
  }

  lemma TokenHasDecimals(ledger: Ledger, chain: ChainConfig, token: Address)
    requires chain in CHAINS
    ensures var entry, metadata := (chain.name, token), GetMetadata(ledger, chain.name, token);
      && (metadata.Ok? <==> entry in ledger.decimals && ValidateTokenDecimals(ledger.decimals[entry]).Ok?)
      && (metadata.Ok? ==> metadata.value.decimals == ledger.decimals[entry])
  {
    ConfiguredChainFound(chain);
    hide ChainByName;
  }

  lemma EmptyOrOddNeverParses(decimals: int)
    ensures ParseUnits("", decimals).Raised?
    ensures ValidateTokenDecimals(decimals).Raised? ==> forall amount :: ParseUnits(amount, decimals).Raised?
  {
    if decimals >= 0 {
      EmptyNeverParses(decimals);
    }
  }

  /** What a request for this intent says: the intent's parts, from its wallet, on its chain. */
  ghost predicate Requests(intent: SwapIntent, wallets: Wallets, ledger: Ledger, r: SwapQuoteRequest) {
    && r.walletId == intent.walletId != "" && r.walletId in wallets && r.walletAddress == wallets[r.walletId]
    && r.fromToken == intent.fromToken && r.toToken == intent.toToken && r.amountIn == intent.amountIn
    && r.recipient == intent.recipient && r.minAmountOut == intent.minAmountOut
    && r.maxSlippageBps == intent.maxSlippageBps && r.key == intent.key && Heads(intent, r.toChain, r.toChainId)
    && r.fromTokenIsNative == (intent.fromToken == 0)
    && exists chain :: chain in CHAINS && chain.name == Lower(Strip(intent.chain)) && r.chain == chain.name
         && r.chainId == chain.chainId && Sells(intent, chain, ledger, r.amountInRaw, r.wrappedFromToken)
         && r.amountInRaw > 0
  }

  /** The request sent out says what the intent says, for the number of units its amount
      denotes; and one is sent out whenever there is such a request. */
  lemma RequestMeans(intent: SwapIntent, wallets: Wallets, ledger: Ledger, r: SwapQuoteRequest)
    ensures QuoteRequest(intent, wallets, ledger) == Ok(r) <==> Requests(intent, wallets, ledger, r)
  {
    hide ChainByName, Destination, SellAmount, SwapQuoteRequest.Valid, Heads, Sells, Lower, Strip, CHAINS;
    if QuoteRequest(intent, wallets, ledger) == Ok(r) {
      RequestParts(intent, wallets, ledger);
      RequestKeepsKey(intent, wallets, ledger);
      RequestIsFrom(r);
      var chain := ChainByName(intent.chain).value;
      ChainNameMeans(intent.chain, chain);
      DestinationMeans(intent, r.toChain, r.toChainId);
      SellMeans(intent, chain, ledger, r.amountInRaw, r.wrappedFromToken);
    }
    if Requests(intent, wallets, ledger, r) {
      var chain :| chain in CHAINS && chain.name == Lower(Strip(intent.chain)) && r.chain == chain.name
        && r.chainId == chain.chainId && Sells(intent, chain, ledger, r.amountInRaw, r.wrappedFromToken)
        && r.amountInRaw > 0;
      ChainNameMeans(intent.chain, chain);
      DestinationMeans(intent, r.toChain, r.toChainId);
      SellMeans(intent, chain, ledger, r.amountInRaw, r.wrappedFromToken);
      RequestedIsValid(intent, wallets, ledger, chain, r);
    }
  }

  lemma RequestIsFrom(r: SwapQuoteRequest)
    requires r.Valid()
    ensures r.walletId != "" && r.amountInRaw > 0
  {
  }

  lemma RequestedIsValid(intent: SwapIntent, wallets: Wallets, ledger: Ledger, chain: ChainConfig, r: SwapQuoteRequest)
    requires Requests(intent, wallets, ledger, r)
    requires chain in CHAINS && r.chain == chain.name && r.chainId == chain.chainId
    requires Sells(intent, chain, ledger, r.amountInRaw, r.wrappedFromToken) && r.amountInRaw > 0
    ensures r.Valid()
  {
    hide ChainByName, ParseUnits, Lower, Strip;
    ChainsAreNamed(chain);
    if intent.fromToken == 0 {
      EmptyOrOddNeverParses(18);
    } else {
      EmptyOrOddNeverParses(ledger.decimals[(chain.name, intent.fromToken)]);
    }
    if r.toChain.Some? && r.toChainId.Some? {
      var c :| c in CHAINS && r.toChain == Some(c.name) && r.toChainId == Some(c.chainId);
      ConfiguredChainFound(c);
    }
  }

  /** The parts of a request, as they are put together. */
  lemma RequestParts(intent: SwapIntent, wallets: Wallets, ledger: Ledger)
    requires QuoteRequest(intent, wallets, ledger).Ok?
    ensures var r := QuoteRequest(intent, wallets, ledger).value;
      && intent.walletId in wallets && r.walletAddress == wallets[intent.walletId] && r.walletId == intent.walletId
      && ChainByName(intent.chain).Ok? && r.chain == ChainByName(intent.chain).value.name
      && r.chainId == ChainByName(intent.chain).value.chainId
      && r.fromToken == intent.fromToken && r.toToken == intent.toToken && r.amountIn == intent.amountIn
      && r.recipient == intent.recipient && r.minAmountOut == intent.minAmountOut
      && r.maxSlippageBps == intent.maxSlippageBps && r.key == intent.key
      && Destination(intent).Ok? && Destination(intent).value.0 == r.toChain && Destination(intent).value.1 == r.toChainId
      && r.fromTokenIsNative == (intent.fromToken == ZERO_ADDRESS)
      && var sold := SellAmount(intent, ChainByName(intent.chain).value, ledger);
         sold.Ok? && r.amountInRaw == sold.value.0.raw && r.wrappedFromToken == sold.value.1
  {
    hide ChainByName, Destination, SellAmount, SwapQuoteRequest.Valid;
  }

  lemma SellAmountIsApprovable(intent: SwapIntent, chain: ChainConfig, ledger: Ledger)
    requires chain in CHAINS && intent.fromToken != ZERO_ADDRESS && SellAmount(intent, chain, ledger).Ok?
    ensures var metadata := GetMetadata(ledger, chain.name, intent.fromToken);
      && metadata.Ok?
      && ApprovalAmount(intent.amountIn, metadata.value.decimals, false, false)
         == Ok(ERC20Amount(intent.amountIn, metadata.value.decimals, SellAmount(intent, chain, ledger).value.0.raw))
  {
    hide ParseUnits, ChainByName, IsUnlimitedText;
    var decimals := GetMetadata(ledger, chain.name, intent.fromToken).value.decimals;
    if IsUnlimitedText(intent.amountIn) {
      UnlimitedTextNeverParses(intent.amountIn, decimals);
    }
  }

  /** For an ERC20 sell, the allowance check and the approval parse the very amount that was
      quoted, for the very token. */
  lemma SameAmountEverywhere(intent: SwapIntent, wallets: Wallets, ledger: Ledger, quote: SwapQuote)
    requires QuoteRequest(intent, wallets, ledger) == Ok(quote.request) && quote.Valid()
    requires !quote.request.fromTokenIsNative
    ensures GetMetadata(ledger, quote.request.chain, quote.route.fromToken).Ok?
    ensures var decimals := GetMetadata(ledger, quote.request.chain, quote.route.fromToken).value.decimals;
      ApprovalAmount(quote.request.amountIn, decimals, false, false)
      == Ok(ERC20Amount(quote.request.amountIn, decimals, quote.amountInRaw))
    ensures ChainByName(quote.request.chain).Ok? && ChainByName(quote.request.chain).value.name == quote.request.chain
    ensures quote.request.walletId in wallets && wallets[quote.request.walletId] == quote.request.walletAddress
  {
    RequestParts(intent, wallets, ledger);
    var chain := ChainByName(intent.chain).value;
    ConfiguredChainFound(chain);
    SellAmountIsApprovable(intent, chain, ledger);
    hide QuoteRequest, SellAmount, ApprovalAmount, GetMetadata, ChainByName;
  }

  /** The check reports the chain's own allowance, against exactly the quoted amount. */
  lemma AllowanceIsJudged(intent: SwapIntent, wallets: Wallets, ledger: Ledger, quote: SwapQuote)
    requires QuoteRequest(intent, wallets, ledger) == Ok(quote.request) && quote.Valid()
    requires !quote.request.fromTokenIsNative
    ensures CheckSwapAllowance(quote, ledger).Ok? <==>
              && quote.route.spender.Some? && quote.route.spender.value != ZERO_ADDRESS
              && quote.amountInRaw != MAX_UINT256 && AllowanceKey(quote) in ledger.allowances
    ensures CheckSwapAllowance(quote, ledger).Ok? ==>
              var current := ledger.allowances[AllowanceKey(quote)];
              CheckSwapAllowance(quote, ledger).value
              == SwapAllowanceCheck(quote.route.spender.value, quote.amountInRaw, current, current >= quote.amountInRaw)
  {
    hide NormalizeAddress, AddressText, QuoteRequest, ApprovalAmount, ChainByName;
    SameAmountEverywhere(intent, wallets, ledger, quote);
    AddressTextRoundTrip(quote.route.fromToken);
    if quote.route.spender.Some? {
      AddressTextRoundTrip(quote.route.spender.value);
    }
  }

  /** The preconditions that both the check and the approval builder compute. */
  function QuoteChecks(quote: SwapQuote, ledger: Ledger): Try<ApprovalPreconditions>
    requires quote.route.spender.Some?
  {
    CheckApprovalPreconditions(ledger, quote.request.chain, AddressText(quote.route.fromToken),
                               quote.request.walletAddress, AddressText(quote.route.spender.value),
                               quote.request.amountIn, true, false, false)
  }

  lemma ChecksAreAboutTheQuote(intent: SwapIntent, wallets: Wallets, ledger: Ledger, quote: SwapQuote)
    requires QuoteRequest(intent, wallets, ledger) == Ok(quote.request) && quote.Valid()
    requires !quote.request.fromTokenIsNative && quote.route.spender.Some? && QuoteChecks(quote, ledger).Ok?
    ensures var p := QuoteChecks(quote, ledger).value;
      && p.metadata.chain.name == quote.request.chain && p.metadata.token == quote.route.fromToken
      && p.owner == quote.request.walletAddress && p.spender == quote.route.spender.value
      && p.amount.raw == quote.amountInRaw
      && p.metadata.chain in CHAINS
  {
    hide NormalizeAddress, AddressText, QuoteRequest, ApprovalAmount, ChainByName;
    SameAmountEverywhere(intent, wallets, ledger, quote);
    AddressTextRoundTrip(quote.route.fromToken);
    AddressTextRoundTrip(quote.route.spender.value);
  }

  lemma CheckUsesQuoteChecks(quote: SwapQuote, ledger: Ledger)
    requires CheckSwapAllowance(quote, ledger).Ok?
    ensures quote.route.spender.Some? && QuoteChecks(quote, ledger).Ok?
    ensures var p, c := QuoteChecks(quote, ledger).value, CheckSwapAllowance(quote, ledger).value;
      c == SwapAllowanceCheck(p.spender, p.amount.raw, p.currentAllowance, p.allowanceSufficient)
  {
    hide CheckApprovalPreconditions, AddressText;
  }

  /** The approval is for exactly the quoted amount, to the quoted spender, on the sold token,
      under its own key; it can be built exactly when the amount fits a uint256. */
  lemma ApprovalIsExact(intent: SwapIntent, around: Surroundings, quote: SwapQuote)
    requires QuoteRequest(intent, around.wallets, around.ledger) == Ok(quote.request) && quote.Valid()
    requires !quote.request.fromTokenIsNative && CheckSwapAllowance(quote, around.ledger).Ok?
    requires !CheckSwapAllowance(quote, around.ledger).value.allowanceSufficient
    ensures var approval := SwapApproval(quote, CheckSwapAllowance(quote, around.ledger).value, around);
      && (approval.Ok? <==> quote.amountInRaw <= MAX_UINT256)
      && (approval.Ok? ==>
            && approval.value.to == quote.route.fromToken && approval.value.valueWei == 0
            && approval.value.chain == quote.request.chain
            && approval.value.fromAddress == Some(quote.request.walletAddress)
            && approval.value.idempotencyKey == Some(ApprovalKey(intent.key))
            && DecodeCall(approval.value.data) == Some((APPROVE_SELECTOR, quote.route.spender.value, quote.amountInRaw)))
  {
    hide AddressText, QuoteRequest, CheckApprovalPreconditions, CheckSwapAllowance, ApprovalTransaction, DecodeCall,
      ChainByName, GetMetadata;
    CheckUsesQuoteChecks(quote, around.ledger);
    ChecksAreAboutTheQuote(intent, around.wallets, around.ledger, quote);
    SameAmountEverywhere(intent, around.wallets, around.ledger, quote);
    RequestKeepsKey(intent, around.wallets, around.ledger);
    ApprovalFromChecks(quote.request.walletId, Some(ApprovalKey(quote.request.key)), QuoteChecks(quote, around.ledger).value);
  }

  lemma RequestKeepsKey(intent: SwapIntent, wallets: Wallets, ledger: Ledger)
    requires QuoteRequest(intent, wallets, ledger).Ok?
    ensures QuoteRequest(intent, wallets, ledger).value.key == intent.key
    ensures QuoteRequest(intent, wallets, ledger).value.Valid()
  {
    hide QuoteRequest;
  }
}
