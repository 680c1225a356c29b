/** What the builders build: exactly what was asked for, exactly when it may be. */
module BuilderLaws {
  import opened Outcomes
  import opened Positional
  import opened Text
  import opened TextLaws
  import opened Amounts
  import opened AmountLaws
  import opened Calldata
  import opened Transactions
  import opened Builders

  /** The amount asks for so many units: blanks, at most one plus and digits that spell them, or
      a decimal that is as many times ten to the minus `decimals`. A decimal too small for the
      arithmetic asks for none. */
  ghost predicate Asks(amount: string, decimals: nat, smallestUnits: bool, n: nat) {
    if smallestUnits then SpellsRaw(amount, n)
    else SpellsUnits(amount, decimals, n) || (n == 0 && SpellsTiny(amount, decimals))
  }

  lemma Uint256HasFewDigits(n: nat)
    requires n <= MAX_UINT256
    ensures DigitCount(n) <= 78
  {
    TenToThe78();
    DigitCountAtMost(n, 78);
  }

  /** What is built is what the text asks for: neither the amount model's own validation nor
      anything else in between turns a uint256 down or changes it. */
  lemma AmountIsAsAsked(amount: string, decimals: nat, smallestUnits: bool, n: nat)
    requires decimals <= MAX_DECIMALS && n <= MAX_UINT256
    ensures var built := PreconditionAmount(amount, decimals, smallestUnits);
      (built.Ok? && built.value.raw == n) <==> Asks(amount, decimals, smallestUnits, n)
  {
    hide ParseUnits, SpellsRaw, SpellsUnits, SpellsTiny, AmountFromRawText;
    if smallestUnits {
      SmallestUnitsAlwaysBuild(amount, decimals, n);
    } else {
      Uint256HasFewDigits(n);
      ParseUnitsMeans(amount, decimals, n);
      EmptyNeverParses(decimals);
    }
  }

  lemma EmptyNeverParses(decimals: nat)
    ensures ParseUnits("", decimals).Raised?
  {
    assert Strip("") == "";
  }

  // ---------------------------------------------------------------- what moves

  /** Units of a token of a wallet, and whom they go to. */
  datatype Move = Move(chain: ChainConfig, token: Address, owner: Address, who: Address, units: nat)

  /** The texts name the chain, the token and the other party. */
  predicate NamesParties(chain: string, token: string, who: string, m: Move) {
    ChainByName(chain) == Ok(m.chain) && NormalizeAddress(token) == Ok(m.token) && NormalizeAddress(who) == Ok(m.who)
  }

  /** The chain knows the token's decimals. */
  predicate HasDecimals(ledger: Ledger, m: Move) {
    && (m.chain.name, m.token) in ledger.decimals
    && 0 <= ledger.decimals[(m.chain.name, m.token)] <= MAX_DECIMALS
  }

  function DecimalsOf(ledger: Ledger, m: Move): nat
    requires HasDecimals(ledger, m)
  {
    ledger.decimals[(m.chain.name, m.token)]
  }

  lemma MetadataMeans(ledger: Ledger, chain: string, token: Address, m: Move)
    requires ChainByName(chain) == Ok(m.chain) && m.token == token
    ensures GetMetadata(ledger, chain, token).Ok? <==> HasDecimals(ledger, m)
    ensures HasDecimals(ledger, m) ==>
              var metadata := GetMetadata(ledger, chain, token).value;
              metadata.chain == m.chain && metadata.token == token && metadata.decimals == DecimalsOf(ledger, m)
  {
    hide ChainByName;
  }

  lemma MetadataNeedsChain(ledger: Ledger, chain: string, token: Address)
    ensures GetMetadata(ledger, chain, token).Ok? ==> ChainByName(chain) == Ok(GetMetadata(ledger, chain, token).value.chain)
  {
    hide ChainByName;
  }

  lemma ChainsAreNamed(chain: ChainConfig)
    requires chain in CHAINS
    ensures chain.name != "" && chain.chainId > 0
  {
  }

  /** A call of the token, from the wallet, with exactly these units and this party. */
  predicate IsCall(p: PreparedTransaction, walletId: string, selector: seq<nat>, m: Move, key: Option<string>) {
    && p.to == m.token && p.valueWei == 0 && p.fromAddress == Some(m.owner) && p.walletId == walletId
    && p.chain == m.chain.name && p.chainId == Some(m.chain.chainId) && p.nonce.None? && p.idempotencyKey == key
    && DecodeCall(p.data) == Some((selector, m.who, m.units))
  }

  // ---------------------------------------------------------------- transfers

  /** Every condition on a transfer, in the caller's terms. */
  ghost predicate TransferAllowed(ledger: Ledger, chain: string, token: string, recipient: string, amount: string,
                                  smallestUnits: bool, m: Move)
  {
    && NamesParties(chain, token, recipient, m) && m.who != ZERO_ADDRESS && m.who != m.owner
    && HasDecimals(ledger, m) && Asks(amount, DecimalsOf(ledger, m), smallestUnits, m.units)
    && (m.chain.name, m.token, m.owner) in ledger.balances
    && 0 < m.units <= ledger.balances[(m.chain.name, m.token, m.owner)] && m.units <= MAX_UINT256
  }

  /** A transfer is prepared exactly when some move is allowed, and then it is a call of the
      named token that makes exactly that move. */
  lemma TransferIsAsAsked(ledger: Ledger, wallets: Wallets, chain: string, walletId: string, token: string,
                          recipient: string, amount: string, key: Option<string>, smallestUnits: bool, m: Move)
    ensures var p := PrepareErc20Transfer(ledger, wallets, chain, walletId, token, recipient, amount, key, smallestUnits);
      && (walletId != "" && walletId in wallets && m.owner == wallets[walletId]
          && TransferAllowed(ledger, chain, token, recipient, amount, smallestUnits, m) ==>
            p.Ok? && IsCall(p.value, walletId, TRANSFER_SELECTOR, m, key))
      && (p.Ok? ==>
            && walletId != "" && walletId in wallets
            && exists made: Move ::
                 && made.owner == wallets[walletId]
                 && TransferAllowed(ledger, chain, token, recipient, amount, smallestUnits, made))
  {
    hide CheckTransferPreconditions, TransferTransaction, TransferAllowed, DecodeCall, IsCall;
    if walletId in wallets {
      var owner := wallets[walletId];
      var checked := CheckTransferPreconditions(ledger, chain, token, owner, recipient, amount, smallestUnits);
      TransferChecksAsAsked(ledger, chain, token, recipient, amount, smallestUnits, m.(owner := owner));
      if checked.Ok? {
        TransferFromChecks(walletId, key, checked.value);
        TransferChecksAsAsked(ledger, chain, token, recipient, amount, smallestUnits, MoveOfTransfer(checked.value));
      }
    }
  }

  function MoveOfTransfer(p: TransferPreconditions): Move {
    Move(p.metadata.chain, p.metadata.token, p.owner, p.recipient, p.amount.raw)
  }

  /** What `prepare_erc20_transfer` makes of its preconditions. */
  lemma TransferFromChecks(walletId: string, key: Option<string>, p: TransferPreconditions)
    requires p.metadata.chain in CHAINS
    ensures var transfer := TransferTransaction(walletId, key, p);
      && (transfer.Ok? <==> walletId != "" && p.amount.raw <= MAX_UINT256)
      && (transfer.Ok? ==> IsCall(transfer.value, walletId, TRANSFER_SELECTOR, MoveOfTransfer(p), key))
  {
    hide EncodeTransfer, DecodeCall, TransferMetadata, IsHexData, CHAINS;
    ChainsAreNamed(p.metadata.chain);
    TransferDataIsExact(p.recipient, p.amount.raw);
  }

  lemma TransferChecksAsAsked(ledger: Ledger, chain: string, token: string, recipient: string, amount: string,
                              smallestUnits: bool, m: Move)
    ensures var checked := CheckTransferPreconditions(ledger, chain, token, m.owner, recipient, amount, smallestUnits);
      checked.Ok? && MoveOfTransfer(checked.value) == m && m.units <= MAX_UINT256
      <==> TransferAllowed(ledger, chain, token, recipient, amount, smallestUnits, m)
  {
    hide NormalizeAddress, GetMetadata, PreconditionAmount, Asks, ChainByName, CHAINS, HasDecimals, DecimalsOf, ZERO_RECIPIENT,
      SELF_TRANSFER, NOTHING_TO_SEND, SHORT_BALANCE;
    if NamesParties(chain, token, recipient, m) {
      MetadataMeans(ledger, chain, m.token, m);
      if HasDecimals(ledger, m) && m.units <= MAX_UINT256 {
        AmountIsAsAsked(amount, DecimalsOf(ledger, m), smallestUnits, m.units);
      }
    } else if NormalizeAddress(token).Ok? {
      MetadataNeedsChain(ledger, chain, NormalizeAddress(token).value);
    }
  }

  lemma TransferDataIsExact(who: Address, amount: nat)
    ensures EncodeTransfer(who, amount).Ok? <==> amount <= MAX_UINT256
    ensures EncodeTransfer(who, amount).Ok? ==>
              var data := EncodeTransfer(who, amount).value;
              IsHexData(data) && DecodeCall(data) == Some((TRANSFER_SELECTOR, who, amount))
  {
    hide EncodeCall, IsHexData, DecodeCall;
    if amount <= MAX_UINT256 {
      CallRoundTrip(TRANSFER_SELECTOR, who, amount);
    }
  }

  /** A number of smallest units as Python writes it, with any blanks around it and a plus or
      not, moves exactly that many units. */
  lemma WrittenUnitsMove(ledger: Ledger, wallets: Wallets, chain: string, walletId: string, token: string,
                         recipient: string, key: Option<string>, before: string, plus: string, after: string, n: nat)
    requires Blank(before) && Blank(after) && (plus == "" || plus == "+") && n <= MAX_UINT256
    ensures var amount := before + (plus + Str(n)) + after;
      var p := PrepareErc20Transfer(ledger, wallets, chain, walletId, token, recipient, amount, key, true);
      p.Ok? ==> NormalizeAddress(recipient).Ok?
                && DecodeCall(p.value.data) == Some((TRANSFER_SELECTOR, NormalizeAddress(recipient).value, n))
  {
    hide PrepareErc20Transfer, DecodeCall, NormalizeAddress, SpellsRaw, Str, ChainByName;
    var amount := before + (plus + Str(n)) + after;
    WrittenUnitsSpell(before, plus, after, n);
    var p := PrepareErc20Transfer(ledger, wallets, chain, walletId, token, recipient, amount, key, true);
    TransferIsAsAsked(ledger, wallets, chain, walletId, token, recipient, amount, key, true,
                      Move(CHAINS[0], 0, 0, 0, 0));
    if p.Ok? {
      var m: Move :| m.owner == wallets[walletId]
                     && TransferAllowed(ledger, chain, token, recipient, amount, true, m);
      TransferIsAsAsked(ledger, wallets, chain, walletId, token, recipient, amount, key, true, m);
      RawAmountMeans(amount, n);
      RawAmountMeans(amount, m.units);
    }
  }

  lemma WrittenUnitsSpell(before: string, plus: string, after: string, n: nat)
    requires Blank(before) && Blank(after) && (plus == "" || plus == "+") && n <= MAX_UINT256
    ensures SpellsRaw(before + (plus + Str(n)) + after, n)
  {
    hide Str, NatOf;
    NatOfStr(n);
    Uint256HasFewDigits(n);
    var digits := Str(n);
    assert RawDigits(digits);
  }

  // ---------------------------------------------------------------- approvals

  lemma UnlimitedBuilds()
    ensures MakeAmount(Str(MAX_UINT256), 0, MAX_UINT256) == Ok(ERC20Amount(Str(MAX_UINT256), 0, MAX_UINT256))
  {
    Uint256Fits(MAX_UINT256, 0);
    hide ParseUnits, Str;
  }

  /** The same letters, in either case. */
  predicate SameLetters(s: string, word: string) {
    |s| == |word| && forall i | 0 <= i < |word| :: s[i] == word[i] || s[i] as int + 32 == word[i] as int
  }

  lemma LettersAreSame(s: string, word: string)
    requires forall i | 0 <= i < |word| :: 'a' <= word[i] <= 'z'
    ensures Lower(s) == word <==> SameLetters(s, word)
  {
    if SameLetters(s, word) {
      forall i | 0 <= i < |s| ensures Lower(s)[i] == word[i] {
        assert 'a' <= word[i] <= 'z';
      }
    }
    if Lower(s) == word {
      assert forall i | 0 <= i < |s| :: LowerChar(s[i]) == Lower(s)[i] == word[i];
    }
  }

  /** The two words that ask for an unlimited approval, in any case and with any blanks. */
  lemma UnlimitedMeans(before: string, core: string, after: string)
    requires Blank(before) && Blank(after) && Inked(core)
    ensures IsUnlimitedText(before + core + after) <==> SameLetters(core, "max") || SameLetters(core, "unlimited")
  {
    hide Strip, Lower, SameLetters;
    StripMeans(before, core, after);
    LettersAreSame(core, "max");
    LettersAreSame(core, "unlimited");
  }

  /** The units an approval grants: for the two words the largest uint256, and that only when
      the caller allows it. */
  ghost predicate AsksAllowance(amount: string, decimals: nat, allowUnlimited: bool, smallestUnits: bool, n: nat) {
    && (if IsUnlimitedText(amount) then n == MAX_UINT256 else Asks(amount, decimals, smallestUnits, n))
    && (n == MAX_UINT256 ==> allowUnlimited)
  }

  lemma AllowanceIsAsAsked(amount: string, decimals: nat, allowUnlimited: bool, smallestUnits: bool, n: nat)
    requires decimals <= MAX_DECIMALS && n <= MAX_UINT256
    ensures var built := ApprovalAmount(amount, decimals, allowUnlimited, smallestUnits);
      (built.Ok? && built.value.raw == n && (n == MAX_UINT256 ==> allowUnlimited))
      <==> AsksAllowance(amount, decimals, allowUnlimited, smallestUnits, n)
  {
    hide ParseUnits, ParseIntegerRawAmount, IsUnlimitedText, Str, MakeAmount, AmountFromHuman, AmountFromRawText, Asks;
    AmountIsAsAsked(amount, decimals, smallestUnits, n);
    UnlimitedBuilds();
  }

  /** Every condition on an approval, in the caller's terms: a revocation needs none, a grant a
      short allowance. */
  ghost predicate ApprovalAllowed(ledger: Ledger, chain: string, token: string, spender: string, amount: string,
                                  allowUnlimited: bool, smallestUnits: bool, m: Move)
  {
    && NamesParties(chain, token, spender, m) && m.who != ZERO_ADDRESS && m.units <= MAX_UINT256
    && HasDecimals(ledger, m) && AsksAllowance(amount, DecimalsOf(ledger, m), allowUnlimited, smallestUnits, m.units)
    && (m.chain.name, m.token, m.owner, m.who) in ledger.allowances
    && (ledger.allowances[(m.chain.name, m.token, m.owner, m.who)] < m.units || m.units == 0)
  }

  /** An approval is prepared exactly when some grant is allowed, and then it makes exactly that
      grant. */
  lemma ApprovalIsAsAsked(ledger: Ledger, wallets: Wallets, chain: string, walletId: string, token: string, spender: string,
                          amount: string, key: Option<string>, spenderKnown: bool, allowUnlimited: bool,
                          smallestUnits: bool, m: Move)
    ensures var p := PrepareErc20Approval(ledger, wallets, chain, walletId, token, spender, amount, key, spenderKnown,
                                          allowUnlimited, smallestUnits);
      && (walletId != "" && walletId in wallets && m.owner == wallets[walletId]
          && ApprovalAllowed(ledger, chain, token, spender, amount, allowUnlimited, smallestUnits, m) ==>
            p.Ok? && IsCall(p.value, walletId, APPROVE_SELECTOR, m, key))
      && (p.Ok? ==>
            && walletId != "" && walletId in wallets
            && exists made: Move ::
                 && made.owner == wallets[walletId]
                 && ApprovalAllowed(ledger, chain, token, spender, amount, allowUnlimited, smallestUnits, made))
  {
    hide CheckApprovalPreconditions, ApprovalTransaction, ApprovalAllowed, DecodeCall, IsCall;
    if walletId in wallets {
      var owner := wallets[walletId];
      var checked := CheckApprovalPreconditions(ledger, chain, token, owner, spender, amount, spenderKnown, allowUnlimited,
                                                smallestUnits);
      ApprovalChecksAsAsked(ledger, chain, token, spender, amount, spenderKnown, allowUnlimited, smallestUnits,
                            m.(owner := owner));
      if checked.Ok? {
        ApprovalFromChecks(walletId, key, checked.value);
        ApprovalChecksAsAsked(ledger, chain, token, spender, amount, spenderKnown, allowUnlimited, smallestUnits,
                              MoveOfApproval(checked.value));
      }
    }
  }

  function MoveOfApproval(p: ApprovalPreconditions): Move {
    Move(p.metadata.chain, p.metadata.token, p.owner, p.spender, p.amount.raw)
  }

  /** The allowance is short, or this is a revocation. */
  predicate IsNeeded(p: ApprovalPreconditions) {
    !p.allowanceSufficient || p.amount.raw == 0
  }

  /** What `prepare_erc20_approval` makes of its preconditions. */
  lemma ApprovalFromChecks(walletId: string, key: Option<string>, p: ApprovalPreconditions)
    requires p.metadata.chain in CHAINS
    ensures var approval := ApprovalTransaction(walletId, key, p);
      && (approval.Ok? <==> walletId != "" && IsNeeded(p) && p.amount.raw <= MAX_UINT256)
      && (approval.Ok? ==> IsCall(approval.value, walletId, APPROVE_SELECTOR, MoveOfApproval(p), key))
  {
    hide EncodeApproval, DecodeCall, ApprovalMetadata, IsHexData, CHAINS;
    ChainsAreNamed(p.metadata.chain);
    ApprovalDataIsExact(p.spender, p.amount.raw);
  }

  lemma ApprovalChecksAsAsked(ledger: Ledger, chain: string, token: string, spender: string, amount: string,
                              spenderKnown: bool, allowUnlimited: bool, smallestUnits: bool, m: Move)
    ensures var checked := CheckApprovalPreconditions(ledger, chain, token, m.owner, spender, amount, spenderKnown,
                                                      allowUnlimited, smallestUnits);
      checked.Ok? && MoveOfApproval(checked.value) == m && IsNeeded(checked.value) && m.units <= MAX_UINT256
      <==> ApprovalAllowed(ledger, chain, token, spender, amount, allowUnlimited, smallestUnits, m)
  {
    hide NormalizeAddress, GetMetadata, ApprovalAmount, Asks, AsksAllowance, ChainByName, CHAINS,
      HasDecimals, DecimalsOf, ZERO_SPENDER, UNLIMITED_REFUSED;
    if NamesParties(chain, token, spender, m) {
      MetadataMeans(ledger, chain, m.token, m);
      if HasDecimals(ledger, m) && m.units <= MAX_UINT256 {
        AllowanceIsAsAsked(amount, DecimalsOf(ledger, m), allowUnlimited, smallestUnits, m.units);
      }
    } else if NormalizeAddress(token).Ok? {
      MetadataNeedsChain(ledger, chain, NormalizeAddress(token).value);
    }
  }

  lemma ApprovalDataIsExact(spender: Address, amount: nat)
    ensures EncodeApproval(spender, amount).Ok? <==> amount <= MAX_UINT256
    ensures EncodeApproval(spender, amount).Ok? ==>
              var data := EncodeApproval(spender, amount).value;
              IsHexData(data) && DecodeCall(data) == Some((APPROVE_SELECTOR, spender, amount))
  {
    hide EncodeCall, IsHexData, DecodeCall;
    if amount <= MAX_UINT256 {
      CallRoundTrip(APPROVE_SELECTOR, spender, amount);
    }
  }

  // ---------------------------------------------------------------- what the metadata tells

  /** The amount shown, with the decimals shown, is the number of units. */
  predicate ShowsUnits(metadata: Metadata, units: nat) {
    var amount, decimals := Get(metadata, "amount"), Get(metadata, "decimals");
    && amount.Text? && decimals.Number? && ParseUnits(amount.text, decimals.number) == Ok(units)
    && Get(metadata, "amount_raw") == Number(units)
  }

  /** The token's own labels, as far as the chain has any. */
  predicate ShowsLabels(metadata: Metadata, ledger: Ledger, m: Move) {
    var entry := (m.chain.name, m.token);
    && Get(metadata, "symbol") == (if entry in ledger.labels then ledger.labels[entry].0 else Null)
    && Get(metadata, "name") == (if entry in ledger.labels then ledger.labels[entry].1 else Null)
  }

  /** What a human is shown of a prepared transfer is true of the move it makes and of the
      chain. */
  lemma TransferMetadataIsTrue(ledger: Ledger, wallets: Wallets, chain: string, walletId: string, token: string,
                               recipient: string, amount: string, key: Option<string>, smallestUnits: bool, m: Move)
    requires var p := PrepareErc20Transfer(ledger, wallets, chain, walletId, token, recipient, amount, key, smallestUnits);
      p.Ok? && IsCall(p.value, walletId, TRANSFER_SELECTOR, m, key)
    ensures var metadata := PrepareErc20Transfer(ledger, wallets, chain, walletId, token, recipient, amount, key,
                                                 smallestUnits).value.metadata;
      && ShowsUnits(metadata, m.units) && ShowsLabels(metadata, ledger, m)
      && (m.chain.name, m.token, m.owner) in ledger.balances
      && Get(metadata, "balance_raw") == Number(ledger.balances[(m.chain.name, m.token, m.owner)])
  {
    hide CheckTransferPreconditions, TransferTransaction, TransferMetadata, DecodeCall;
    var checked := CheckTransferPreconditions(ledger, chain, token, wallets[walletId], recipient, amount, smallestUnits);
    TransferFromChecks(walletId, key, checked.value);
    TransferShows(walletId, key, checked.value);
    TransferChecksShow(ledger, chain, token, wallets[walletId], recipient, amount, smallestUnits);
  }

  lemma TransferShows(walletId: string, key: Option<string>, p: TransferPreconditions)
    requires TransferTransaction(walletId, key, p).Ok?
    ensures var metadata := TransferTransaction(walletId, key, p).value.metadata;
      && Get(metadata, "amount") == Text(p.amount.human) && Get(metadata, "decimals") == Number(p.amount.decimals)
      && Get(metadata, "amount_raw") == Number(p.amount.raw) && Get(metadata, "balance_raw") == Number(p.balanceRaw)
      && Get(metadata, "symbol") == p.metadata.symbol && Get(metadata, "name") == p.metadata.name
  {
    hide EncodeTransfer, AddressText;
  }

  lemma TransferChecksShow(ledger: Ledger, chain: string, token: string, owner: Address, recipient: string,
                           amount: string, smallestUnits: bool)
    ensures var checked := CheckTransferPreconditions(ledger, chain, token, owner, recipient, amount, smallestUnits);
      checked.Ok? ==>
        var p := checked.value;
        && ParseUnits(p.amount.human, p.amount.decimals) == Ok(p.amount.raw)
        && (p.metadata.chain.name, p.metadata.token, owner) in ledger.balances
        && p.balanceRaw == ledger.balances[(p.metadata.chain.name, p.metadata.token, owner)]
        && LabelsAre(ledger, p.metadata)
  {
    hide NormalizeAddress, GetMetadata, PreconditionAmount, ParseUnits;
    if NormalizeAddress(token).Ok? {
      MetadataIsLabelled(ledger, chain, NormalizeAddress(token).value);
      var metadata := GetMetadata(ledger, chain, NormalizeAddress(token).value);
      if metadata.Ok? {
        BuiltAmountsParse(amount, metadata.value.decimals, smallestUnits);
      }
    }
  }

  predicate LabelsAre(ledger: Ledger, t: TokenMetadata) {
    var entry := (t.chain.name, t.token);
    && t.symbol == (if entry in ledger.labels then ledger.labels[entry].0 else Null)
    && t.name == (if entry in ledger.labels then ledger.labels[entry].1 else Null)
  }

  lemma MetadataIsLabelled(ledger: Ledger, chain: string, token: Address)
    ensures GetMetadata(ledger, chain, token).Ok? ==> LabelsAre(ledger, GetMetadata(ledger, chain, token).value)
  {
    hide ChainByName;
  }

  lemma BuiltAmountsParse(amount: string, decimals: int, smallestUnits: bool)
    ensures var built := PreconditionAmount(amount, decimals, smallestUnits);
      built.Ok? ==> ParseUnits(built.value.human, built.value.decimals) == Ok(built.value.raw)
  {
    hide ParseUnits, ParseIntegerRawAmount, FormatUnits;
  }

  /** So is what a human is shown of a prepared approval. */
  lemma ApprovalMetadataIsTrue(ledger: Ledger, wallets: Wallets, chain: string, walletId: string, token: string,
                               spender: string, amount: string, key: Option<string>, spenderKnown: bool,
                               allowUnlimited: bool, smallestUnits: bool, m: Move)
    requires var p := PrepareErc20Approval(ledger, wallets, chain, walletId, token, spender, amount, key, spenderKnown,
                                           allowUnlimited, smallestUnits);
      p.Ok? && IsCall(p.value, walletId, APPROVE_SELECTOR, m, key)
    ensures var metadata := PrepareErc20Approval(ledger, wallets, chain, walletId, token, spender, amount, key, spenderKnown,
                                                 allowUnlimited, smallestUnits).value.metadata;
      && ShowsUnits(metadata, m.units) && ShowsLabels(metadata, ledger, m)
      && (m.chain.name, m.token, m.owner, m.who) in ledger.allowances
      && var current := ledger.allowances[(m.chain.name, m.token, m.owner, m.who)];
         && Get(metadata, "current_allowance_raw") == Number(current)
         && Get(metadata, "allowance_sufficient") == Flag(current >= m.units)
         && Get(metadata, "unlimited_approval") == Flag(m.units == MAX_UINT256)
         && Get(metadata, "spender_known") == Flag(spenderKnown)
  {
    hide CheckApprovalPreconditions, ApprovalTransaction, ApprovalMetadata, DecodeCall;
    var checked := CheckApprovalPreconditions(ledger, chain, token, wallets[walletId], spender, amount, spenderKnown,
                                              allowUnlimited, smallestUnits);
    ApprovalFromChecks(walletId, key, checked.value);
    ApprovalShows(walletId, key, checked.value);
    ApprovalChecksShow(ledger, chain, token, wallets[walletId], spender, amount, spenderKnown, allowUnlimited, smallestUnits);
  }

  lemma ApprovalShows(walletId: string, key: Option<string>, p: ApprovalPreconditions)
    requires ApprovalTransaction(walletId, key, p).Ok?
    ensures var metadata := ApprovalTransaction(walletId, key, p).value.metadata;
      && Get(metadata, "amount") == Text(p.amount.human) && Get(metadata, "decimals") == Number(p.amount.decimals)
      && Get(metadata, "amount_raw") == Number(p.amount.raw)
      && Get(metadata, "current_allowance_raw") == Number(p.currentAllowance)
      && Get(metadata, "symbol") == p.metadata.symbol && Get(metadata, "name") == p.metadata.name
      && Get(metadata, "allowance_sufficient") == Flag(p.allowanceSufficient)
      && Get(metadata, "unlimited_approval") == Flag(p.unlimitedApproval)
      && Get(metadata, "spender_known") == Flag(p.spenderKnown)
  {
    hide EncodeApproval, AddressText;
  }

  lemma ApprovalChecksShow(ledger: Ledger, chain: string, token: string, owner: Address, spender: string, amount: string,
                           spenderKnown: bool, allowUnlimited: bool, smallestUnits: bool)
    ensures var checked := CheckApprovalPreconditions(ledger, chain, token, owner, spender, amount, spenderKnown,
                                                      allowUnlimited, smallestUnits);
      checked.Ok? ==>
        var p := checked.value;
        && ParseUnits(p.amount.human, p.amount.decimals) == Ok(p.amount.raw)
        && (p.metadata.chain.name, p.metadata.token, owner, p.spender) in ledger.allowances
        && p.currentAllowance == ledger.allowances[(p.metadata.chain.name, p.metadata.token, owner, p.spender)]
        && LabelsAre(ledger, p.metadata) && p.spenderKnown == spenderKnown
  {
    hide NormalizeAddress, GetMetadata, ApprovalAmount, ParseUnits;
    if NormalizeAddress(token).Ok? {
      MetadataIsLabelled(ledger, chain, NormalizeAddress(token).value);
      var metadata := GetMetadata(ledger, chain, NormalizeAddress(token).value);
      if metadata.Ok? {
        BuiltAllowancesParse(amount, metadata.value.decimals, allowUnlimited, smallestUnits);
      }
    }
  }

  lemma BuiltAllowancesParse(amount: string, decimals: int, allowUnlimited: bool, smallestUnits: bool)
    ensures var built := ApprovalAmount(amount, decimals, allowUnlimited, smallestUnits);
      built.Ok? ==> ParseUnits(built.value.human, built.value.decimals) == Ok(built.value.raw)
  {
    hide ParseUnits, ParseIntegerRawAmount, FormatUnits, IsUnlimitedText, Str;
  }

  // ---------------------------------------------------------------- native transfers

  /** A native transfer is prepared exactly when it is allowed, and then it moves exactly the
      wei asked for, from the wallet, to the recipient, without calldata; and so its metadata
      shows. */
  lemma NativeIsAsAsked(wallets: Wallets, chain: string, walletId: string, recipient: string, amount: string,
                        key: Option<string>)
    ensures var p := PrepareNativeTransfer(wallets, chain, walletId, recipient, amount, key);
      && (p.Ok? <==>
            && ChainByName(chain).Ok? && walletId != "" && walletId in wallets && NormalizeAddress(recipient).Ok?
            && NormalizeAddress(recipient).value != ZERO_ADDRESS && NormalizeAddress(recipient).value != wallets[walletId]
            && ParseUnits(Strip(amount), 18).Ok? && ParseUnits(Strip(amount), 18).value > 0)
      && (p.Ok? ==>
            && p.value.to == NormalizeAddress(recipient).value && Ok(p.value.valueWei) == ParseUnits(Strip(amount), 18)
            && p.value.data == "0x" && p.value.fromAddress == Some(wallets[walletId]) && p.value.idempotencyKey == key
            && p.value.chain == ChainByName(chain).value.name && p.value.chainId == Some(ChainByName(chain).value.chainId)
            && Get(p.value.metadata, "amount_eth").Text?
            && ParseUnits(Get(p.value.metadata, "amount_eth").text, 18) == Ok(p.value.valueWei))
  {
    hide NormalizeAddress, ParseUnits, ChainByName, Strip, AddressText, CHAINS;
    if ChainByName(chain).Ok? {
      ChainsAreNamed(ChainByName(chain).value);
    }
  }
}
