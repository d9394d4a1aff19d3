/**
 * useDerivedSwapInfo as one deterministic evaluation: what the hooks fetch
 * goes in as `SwapInputs`, the helpers whose code is not part of this model
 * come in as an `Environment`, and the result is a `SwapInfo`.
 *
 * `Derive` states the result declaratively (the error is the winner of the
 * ordered checks); `DerivedSwapInfo` computes it the way the hook does, by
 * reassigning locals step by step, and is proved equal to it.
 */
module DerivedSwap {
  import opened Wrappers
  import opened Units
  import opened SwapTypes
  import opened Recipients
  import opened ErrorOrder

  /** The collaborators the hook calls but whose code is not modelled. */
  datatype Environment = Environment(
    gasLimit: nat,                                  // MISTX_DEFAULT_GAS_LIMIT
    weth: nat -> Currency,                          // WETH[chainId]
    betterThan: (Trade, Trade) -> bool,             // isTradeBetter(a, b, BETTER_TRADE_LESS_HOPS_THRESHOLD) for two quotes
    maximumAmountIn: (Trade, nat) -> Option<Amount>, // computeSlippageAdjustedAmounts(trade, slippage)[Field.INPUT]
    isETHTrade: Option<Trade> -> Option<bool>,
    isETHOutTrade: Option<Trade> -> Option<bool>,
    isAddress: string -> Option<string>)            // checksummed address, or false

  /** Everything the hook reads from the store and from the other hooks. */
  datatype SwapInputs = SwapInputs(
    account: Option<string>,
    chainId: Option<nat>,
    independentField: Field,
    typedValue: string,
    inputCurrency: Option<Currency>,
    outputCurrency: Option<Currency>,
    recipient: Option<string>,        // the swap state's recipient; None is null
    recipientLookup: Option<string>,  // useENS(recipient).address
    inputBalance: Option<Amount>,
    outputBalance: Option<Amount>,
    ethBalance: Option<Amount>,
    minTradeAmounts: MinTradeEstimates,
    uniExactIn: Option<Trade>,
    sushiExactIn: Option<Trade>,
    uniExactOut: Option<Trade>,
    sushiExactOut: Option<Trade>,
    allowedSlippage: nat,
    eip1559: bool,
    baseFeePerGas: Option<nat>)       // a number: 0 is falsy

  datatype ByField<T> = ByField(input: T, output: T)

  /** What the hook returns. */
  datatype SwapInfo = SwapInfo(
    currencies: ByField<Option<Currency>>,
    currencyBalances: ByField<Option<Amount>>,
    parsedAmount: Option<Amount>,
    trade: Option<Trade>,
    minTradeAmounts: MinTradeEstimates,
    inputError: Option<string>,
    minAmountError: Option<bool>)

  const CONNECT_WALLET := "Connect Wallet"
  const SWAP := "Swap"
  const UNDEFINED_BASE_FEE := "Undefined base fee per "
  const ENTER_RECIPIENT := "Enter a recipient"
  const INVALID_RECIPIENT := "Invalid recipient"
  const MIN_TRADE_NOT_MET := "Min trade amount not met"
  const BRIBE_UNDEFINED := "Insufficient ETH for miner bribe is undefined"

  function BalanceMessage(symbol: Option<string>): string {
    "Insufficient " + SymbolText(symbol) + " balance"
  }

  function FeesMessage(ethBalance: Option<Amount>): string {
    "Insufficient " + SymbolText(if ethBalance.Some? then ethBalance.value.currency.Symbol() else None) + " balance (fees)"
  }

  predicate IsTrue(b: Option<bool>) { b == Some(true) }

  /** `chainId || 1` */
  function ChainOr1(chainId: Option<nat>): nat {
    if chainId.Some? && chainId.value != 0 then chainId.value else 1
  }

  // ----- trade selection -----

  /**
   * isTradeBetter(a, b): whether b is the better trade. A quote that exists
   * beats a missing one; with both missing the answer is falsy; two quotes
   * are compared by the environment.
   */
  predicate IsTradeBetter(a: Option<Trade>, b: Option<Trade>, env: Environment) {
    if a.Some? && b.Some? then env.betterThan(a.value, b.value) else b.Some?
  }

  /** The quote for one direction: UNI when it beats SUSHI, else SUSHI; none when neither exists. */
  function PickQuote(uni: Option<Trade>, sushi: Option<Trade>, env: Environment): (r: Option<Trade>)
    ensures r.None? <==> uni.None? && sushi.None?
    ensures uni.Some? && sushi.None? ==> r == uni
    ensures uni.None? && sushi.Some? ==> r == sushi
    ensures uni.Some? && sushi.Some? ==> r == if env.betterThan(sushi.value, uni.value) then uni else sushi
  {
    if uni.Some? || sushi.Some? then (if IsTradeBetter(sushi, uni, env) then uni else sushi) else None
  }

  /** Lines 199-213: only the active direction's two quotes are consulted. */
  function SelectTrade(inp: SwapInputs, env: Environment): (r: Option<Trade>)
    // These ensures only unfold the body case by case; the properties are proved as lemmas.
    ensures inp.independentField == Input ==> r == PickQuote(inp.uniExactIn, inp.sushiExactIn, env)
    ensures inp.independentField == Output ==> r == PickQuote(inp.uniExactOut, inp.sushiExactOut, env)
  {
    if inp.independentField == Input then PickQuote(inp.uniExactIn, inp.sushiExactIn, env)
    else PickQuote(inp.uniExactOut, inp.sushiExactOut, env)
  }

  // ----- the pieces the checks read -----

  function ParsedAmount(inp: SwapInputs): Option<Amount> {
    TryParseAmount(Some(inp.typedValue), if inp.independentField == Input then inp.inputCurrency else inp.outputCurrency)
  }

  /** `to`: the account when no recipient is set, else what the name lookup resolved. */
  function To(inp: SwapInputs): Option<string> {
    if inp.recipient.None? then inp.account else inp.recipientLookup
  }

  /** `!to || !isAddress(to)` */
  predicate RecipientMissing(inp: SwapInputs, env: Environment) {
    !Truthy(To(inp)) || !Truthy(env.isAddress(To(inp).value))
  }

  /** The checksummed recipient is on the denylist or inside the UNI exact-in or exact-out quote. */
  predicate RecipientRefused(inp: SwapInputs, env: Environment)
    requires !RecipientMissing(inp, env)
  {
    var a := env.isAddress(To(inp).value).value;
    a in BAD_RECIPIENT_ADDRESSES ||
    (inp.uniExactIn.Some? && InvolvesAddress(inp.uniExactIn.value, a)) ||
    (inp.uniExactOut.Some? && InvolvesAddress(inp.uniExactOut.value, a))
  }

  /** The slippage-adjusted input; a slippage of 0 is falsy and leaves none. */
  function AmountIn(inp: SwapInputs, env: Environment): Option<Amount> {
    var trade := SelectTrade(inp, env);
    if trade.Some? && inp.allowedSlippage != 0 then env.maximumAmountIn(trade.value, inp.allowedSlippage) else None
  }

  /** The base fee in wei: gas limit times base fee per gas. */
  function BaseFeeWei(env: Environment, baseFeePerGas: nat): nat
  {
    env.gasLimit * baseFeePerGas
  }

  /**
   * What the input balance must cover: the slippage-adjusted input, raised
   * by the base fee (and re-denominated in Ether) when its symbol is "ETH".
   */
  function RequiredAmountIn(amountIn: Option<Amount>, baseFee: nat, chain: nat): (r: Option<Amount>)
    ensures r.Some? <==> amountIn.Some?
    ensures r.Some? && amountIn.value.currency.Symbol() == Some("ETH") ==>
              r.value == Amount(Native(chain), amountIn.value.raw + baseFee)
    ensures r.Some? && amountIn.value.currency.Symbol() != Some("ETH") ==> r == amountIn
    ensures r.Some? ==> r.value.raw >= amountIn.value.raw &&
                        r.value.currency.Symbol() == amountIn.value.currency.Symbol()
  {
    if amountIn.Some? && amountIn.value.currency.Symbol() == Some("ETH") then
      Some(Amount(Native(chain), amountIn.value.raw + baseFee))
    else amountIn
  }

  predicate BalanceShort(balanceIn: Option<Amount>, required: Option<Amount>) {
    balanceIn.Some? && required.Some? && LessThan(balanceIn.value, required.value)
  }

  /** Lines 298-311: the minimum-trade flag. */
  function MinAmountError(m: MinTradeEstimates, trade: Option<Trade>, exactIn: bool, parsed: Option<Amount>): bool
  {
    var entry := EntryFor(m, if trade.Some? then trade.value.exchange else UndefinedExchange);
    var threshold := if entry.Some? then entry.value.ForType(if exactIn then ExactInput else ExactOutput) else None;
    if entry.Some? && parsed.Some? then threshold.Some? && GreaterThan(threshold.value, parsed.value)
    else parsed.Some? && (EntryFor(m, Uni).Some? || EntryFor(m, Sushi).Some?)
  }

  /** Line 322: the fee block runs for a known non-ETH trade, or an ETH-out trade under EIP-1559. */
  predicate FeeBlockRuns(ethTrade: Option<bool>, ethOutTrade: Option<bool>, eip1559: bool) {
    ethTrade.Some? && (!ethTrade.value || (IsTrue(ethOutTrade) && eip1559))
  }

  /** The ETH the wallet must hold for fees: the bribe when strictly above the base fee, else the base fee. */
  function RequiredEth(bribe: Amount, forWallet: Amount): (r: Amount)
    ensures r.raw >= bribe.raw && r.raw >= forWallet.raw
    ensures r == bribe || r == forWallet
    ensures bribe.raw == forWallet.raw ==> r == forWallet
  {
    if GreaterThan(bribe, forWallet) then bribe else forWallet
  }

  // ----- the checks, in the hook's order -----

  /** Lines 246-261: wallet, amount, currencies, base fee. */
  function EarlyChecks(inp: SwapInputs, parsed: Option<Amount>, baseFeePerGas: nat): (cs: seq<Check>)
    ensures |cs| == 4
  {
    [ Override(!Truthy(inp.account), CONNECT_WALLET),
      Keep(parsed.None?, SWAP),
      Keep(inp.inputCurrency.None? || inp.outputCurrency.None?, SWAP),
      Override(baseFeePerGas == 0, UNDEFINED_BASE_FEE) ]
  }

  /** Lines 263-274: a missing recipient, else a refused one; both keep an earlier error. */
  function RecipientChecks(inp: SwapInputs, env: Environment): (cs: seq<Check>)
    ensures |cs| == 2
  {
    var missing := RecipientMissing(inp, env);
    [ Keep(missing, ENTER_RECIPIENT),
      Keep(!missing && RecipientRefused(inp, env), INVALID_RECIPIENT) ]
  }

  /** Lines 276-295: the input balance against what the swap requires. */
  function BalanceCheckFor(balanceIn: Option<Amount>, amountIn: Option<Amount>, baseFee: nat, chain: nat): Check {
    var required := RequiredAmountIn(amountIn, baseFee, chain);
    Override(BalanceShort(balanceIn, required),
             BalanceMessage(if required.Some? then required.value.currency.Symbol() else None))
  }

  function BalanceCheck(inp: SwapInputs, env: Environment, baseFeePerGas: nat): Check {
    BalanceCheckFor(inp.inputBalance, AmountIn(inp, env), BaseFeeWei(env, baseFeePerGas), ChainOr1(inp.chainId))
  }

  /** Lines 313-315 */
  function MinAmountCheck(inp: SwapInputs, env: Environment, parsed: Option<Amount>): Check {
    Override(MinAmountError(inp.minTradeAmounts, SelectTrade(inp, env), inp.independentField == Input, parsed),
             MIN_TRADE_NOT_MET)
  }

  /** Lines 322-350: a missing bribe, else an ETH balance below the larger of bribe and base fee. */
  function FeeChecksFor(trade: Option<Trade>, runs: bool, baseFeePerGas: nat, baseFee: nat, chain: nat,
                        ethBalance: Option<Amount>): (cs: seq<Check>)
    ensures |cs| == 2
  {
    var forWallet := Amount(Native(chain), baseFee);
    [ Override(runs && trade.None?, BRIBE_UNDEFINED),
      Override(runs && trade.Some? && baseFeePerGas == 0 && ethBalance.Some? &&
               ethBalance.value.raw < RequiredEth(trade.value.minerBribe, forWallet).raw,
               FeesMessage(ethBalance)) ]
  }

  function FeeChecks(inp: SwapInputs, env: Environment, baseFeePerGas: nat): (cs: seq<Check>)
    ensures |cs| == 2
  {
    var trade := SelectTrade(inp, env);
    FeeChecksFor(trade, FeeBlockRuns(env.isETHTrade(trade), env.isETHOutTrade(trade), inp.eip1559),
                 baseFeePerGas, BaseFeeWei(env, baseFeePerGas), ChainOr1(inp.chainId), inp.ethBalance)
  }

  /** All ten checks, in the order the hook runs them, for the amount `parsed` the typed value parsed to. */
  function Checks(inp: SwapInputs, env: Environment, parsed: Option<Amount>): (cs: seq<Check>)
    requires inp.baseFeePerGas.Some?
    ensures |cs| == 10
  {
    var b := inp.baseFeePerGas.value;
    EarlyChecks(inp, parsed, b) + RecipientChecks(inp, env) +
    [BalanceCheck(inp, env, b), MinAmountCheck(inp, env, parsed)] + FeeChecks(inp, env, b)
  }

  /** The result of the hook for a given parsed amount, stated through the winner of the ordered checks. */
  function DeriveWith(inp: SwapInputs, env: Environment, parsed: Option<Amount>): SwapInfo
  {
    var currencies := ByField(inp.inputCurrency, inp.outputCurrency);
    var balances := ByField(inp.inputBalance, inp.outputBalance);
    if inp.baseFeePerGas.None? then
      SwapInfo(currencies, balances, None, None, map[], None, None)
    else
      var trade := SelectTrade(inp, env);
      SwapInfo(currencies, balances, parsed, trade, inp.minTradeAmounts,
               Winner(Checks(inp, env, parsed)),
               Some(MinAmountError(inp.minTradeAmounts, trade, inp.independentField == Input, parsed)))
  }

  /** The result of the hook. */
  function Derive(inp: SwapInputs, env: Environment): SwapInfo
  {
    DeriveWith(inp, env, ParsedAmount(inp))
  }

  // ----- the hook, step by step -----

  /** The error after the first k checks. */
  lemma RunPrefix(cs: seq<Check>, k: nat)
    requires k < |cs|
    ensures Run(cs[..k + 1]) == Apply(Run(cs[..k]), cs[k])
  {
    assert cs[..k + 1][..k] == cs[..k];
  }

  /** isTradeBetter between the SUSHI and UNI quotes of one direction. */
  method CompareQuotes(uni: Option<Trade>, sushi: Option<Trade>, env: Environment) returns (trade: Option<Trade>)
    ensures trade == PickQuote(uni, sushi, env)
  {
    trade := None;
    if uni.Some? || sushi.Some? {
      trade := if IsTradeBetter(sushi, uni, env) then uni else sushi;
    }
  }

  /** The wallet, amount, currency and base-fee checks, from no error. */
  method CheckEarly(inp: SwapInputs, parsedAmount: Option<Amount>, baseFeePerGas: nat) returns (err: Option<string>)
    ensures err == Run(EarlyChecks(inp, parsedAmount, baseFeePerGas))
  {
    ghost var cs := EarlyChecks(inp, parsedAmount, baseFeePerGas);
    err := None;
    if !Truthy(inp.account) {
      err := Some(CONNECT_WALLET);
    }
    RunPrefix(cs, 0);
    if parsedAmount.None? {
      err := Some(err.OrElse(SWAP));
    }
    RunPrefix(cs, 1);
    if inp.inputCurrency.None? || inp.outputCurrency.None? {
      err := Some(err.OrElse(SWAP));
    }
    RunPrefix(cs, 2);
    if baseFeePerGas == 0 {
      err := Some(UNDEFINED_BASE_FEE);
    }
    RunPrefix(cs, 3);
    assert cs[..4] == cs;
  }

  /** The recipient checks; both keep an earlier error. */
  method CheckRecipient(inp: SwapInputs, env: Environment, inputError: Option<string>) returns (err: Option<string>)
    ensures err == RunFrom(inputError, RecipientChecks(inp, env))
  {
    RunFromTwo(inputError, RecipientChecks(inp, env));
    var to := if inp.recipient.None? then inp.account else inp.recipientLookup;
    var formattedTo := if to.Some? then env.isAddress(to.value) else None;
    err := inputError;
    if !Truthy(to) || !Truthy(formattedTo) {
      err := Some(err.OrElse(ENTER_RECIPIENT));
    } else {
      var a := formattedTo.value;
      if a in BAD_RECIPIENT_ADDRESSES ||
         (inp.uniExactIn.Some? && InvolvesAddress(inp.uniExactIn.value, a)) ||
         (inp.uniExactOut.Some? && InvolvesAddress(inp.uniExactOut.value, a)) {
        err := Some(err.OrElse(INVALID_RECIPIENT));
      }
    }
  }

  /** The input balance against the slippage-adjusted input, raised by the base fee for ETH. */
  method CheckInputBalance(balanceIn: Option<Amount>, amountIn: Option<Amount>, baseFeeInEth: Amount, chain: nat,
                           inputError: Option<string>)
    returns (err: Option<string>)
    ensures err == Apply(inputError, BalanceCheckFor(balanceIn, amountIn, baseFeeInEth.raw, chain))
  {
    err := inputError;
    var requiredAmountIn := amountIn;
    if requiredAmountIn.Some? && requiredAmountIn.value.currency.Symbol() == Some("ETH") {
      requiredAmountIn := Some(Amount(Native(chain), requiredAmountIn.value.raw + baseFeeInEth.raw));
    }
    if balanceIn.Some? && requiredAmountIn.Some? && LessThan(balanceIn.value, requiredAmountIn.value) {
      err := Some(BalanceMessage(requiredAmountIn.value.currency.Symbol()));
    }
  }

  /** The minimum-trade flag of lines 298-311. */
  method CheckMinAmount(m: MinTradeEstimates, trade: Option<Trade>, exactIn: bool, parsed: Option<Amount>)
    returns (minAmountError: bool)
    ensures minAmountError == MinAmountError(m, trade, exactIn, parsed)
  {
    minAmountError := false;
    var entry := EntryFor(m, if trade.Some? then trade.value.exchange else UndefinedExchange);
    if entry.Some? && parsed.Some? {
      var threshold := entry.value.ForType(if exactIn then ExactInput else ExactOutput);
      if threshold.Some? && GreaterThan(threshold.value, parsed.value) {
        minAmountError := true;
      }
    } else if parsed.Some? && (EntryFor(m, Uni).Some? || EntryFor(m, Sushi).Some?) {
      minAmountError := true;
    }
  }

  /** `requiredEthBalance && bribe ? requiredEthBalance.add(bribe) : bribe` */
  function AddBribe(required: Option<Amount>, trade: Option<Trade>): (r: Option<Amount>)
    // These ensures only unfold the body case by case; the properties are proved as lemmas.
    ensures required.None? ==> r == if trade.Some? then Some(trade.value.minerBribe) else None
    ensures required.Some? && trade.Some? ==> r.Some? && r.value.raw == required.value.raw + trade.value.minerBribe.raw
  {
    match (required, trade)
    case (Some(a), Some(t)) => Some(Amount(a.currency, a.raw + t.minerBribe.raw))
    case (_, Some(t)) => Some(t.minerBribe)
    case _ => None
  }

  /**
   * `parseUnits(amount.toExact(), 18)` for an 18-decimal amount: the decimal
   * string and back, which gives the raw value again.
   */
  method ExactRoundTrip(raw: nat) returns (r: nat)
    ensures r == raw
  {
    FormatParseRoundTrip(raw, 18);
    var parsed := ParseUnits(FormatUnits(raw, 18), 18);
    r := parsed.value as nat;
  }

  /**
   * The fee block of lines 322-351. The ghost `requiredEthBalance` is the
   * block's local of that name when the block ends; nothing reads it.
   */
  method CheckFees(trade: Option<Trade>, ethTrade: Option<bool>, ethOutTrade: Option<bool>, eip1559: bool,
                   baseFeePerGas: nat, baseFeeInEth: Amount, chain: nat, ethBalance: Option<Amount>,
                   inputError: Option<string>)
    returns (err: Option<string>, ghost requiredEthBalance: Option<Amount>)
    ensures err == RunFrom(inputError, FeeChecksFor(trade, FeeBlockRuns(ethTrade, ethOutTrade, eip1559), baseFeePerGas,
                                                    baseFeeInEth.raw, chain, ethBalance))
    ensures requiredEthBalance ==
              if FeeBlockRuns(ethTrade, ethOutTrade, eip1559) && !IsTrue(ethOutTrade) && trade.Some?
              then Some(trade.value.minerBribe) else None
  {
    RunFromTwo(inputError, FeeChecksFor(trade, FeeBlockRuns(ethTrade, ethOutTrade, eip1559), baseFeePerGas,
                                        baseFeeInEth.raw, chain, ethBalance));
    err := inputError;
    requiredEthBalance := None;
    if ethTrade.Some? && (!ethTrade.value || (IsTrue(ethOutTrade) && eip1559)) {
      if eip1559 && baseFeePerGas != 0 && requiredEthBalance.Some? {
        requiredEthBalance := Some(baseFeeInEth);
      }
      if !IsTrue(ethOutTrade) {
        requiredEthBalance := AddBribe(requiredEthBalance, trade);
      }

      var requiredEthForMinerBribe := if trade.Some? then Some(trade.value.minerBribe) else None;
      var baseFeeInEthParsed := ExactRoundTrip(baseFeeInEth.raw);
      var requiredEthForWallet := Amount(Native(chain), baseFeeInEthParsed);

      if requiredEthForMinerBribe.None? {
        err := Some(BRIBE_UNDEFINED);
      } else {
        var requiredEth := if GreaterThan(requiredEthForMinerBribe.value, requiredEthForWallet)
                           then requiredEthForMinerBribe.value else requiredEthForWallet;
        if baseFeePerGas == 0 && ethBalance.Some? && ethBalance.value.raw < requiredEth.raw {
          err := Some(FeesMessage(ethBalance));
        }
      }
    }
  }

  /** With a base fee, the hook's fields are the parts DeriveWith names and the error the run of the checks. */
  lemma DeriveOfRun(inp: SwapInputs, env: Environment, parsed: Option<Amount>, err: Option<string>)
    requires inp.baseFeePerGas.Some? && err == Run(Checks(inp, env, parsed))
    ensures DeriveWith(inp, env, parsed) ==
              SwapInfo(ByField(inp.inputCurrency, inp.outputCurrency), ByField(inp.inputBalance, inp.outputBalance),
                       parsed, SelectTrade(inp, env), inp.minTradeAmounts, err,
                       Some(MinAmountError(inp.minTradeAmounts, SelectTrade(inp, env), inp.independentField == Input, parsed)))
  {
    RunIsWinner(Checks(inp, env, parsed));
  }

  /** useDerivedSwapInfo once `parsedAmount` is known: lines 155-366, after the typed value is parsed at 156. */
  method DeriveFromParsed(inp: SwapInputs, env: Environment, parsedAmount: Option<Amount>)
    returns (info: SwapInfo, ghost requiredEthBalance: Option<Amount>)
    ensures info == DeriveWith(inp, env, parsedAmount)
    ensures var trade := SelectTrade(inp, env);
            requiredEthBalance ==
              if inp.baseFeePerGas.Some? &&
                 FeeBlockRuns(env.isETHTrade(trade), env.isETHOutTrade(trade), inp.eip1559) &&
                 !IsTrue(env.isETHOutTrade(trade)) && trade.Some?
              then Some(trade.value.minerBribe) else None
  {
    var isExactIn := inp.independentField == Input;
    var v2Trade;
    if isExactIn {
      v2Trade := CompareQuotes(inp.uniExactIn, inp.sushiExactIn, env);
    } else {
      v2Trade := CompareQuotes(inp.uniExactOut, inp.sushiExactOut, env);
    }
    var currencyBalances := ByField(inp.inputBalance, inp.outputBalance);
    var currencies := ByField(inp.inputCurrency, inp.outputCurrency);

    if inp.baseFeePerGas.None? {
      info := SwapInfo(currencies, currencyBalances, None, None, map[], None, None);
      requiredEthBalance := None;
      return;
    }
    var baseFeePerGas := inp.baseFeePerGas.value;
    var chain := ChainOr1(inp.chainId);
    var baseFeeInEth := Amount(env.weth(chain), BaseFeeWei(env, baseFeePerGas));

    var inputError := CheckEarly(inp, parsedAmount, baseFeePerGas);
    inputError := CheckRecipient(inp, env, inputError);

    var amountIn := if v2Trade.Some? && inp.allowedSlippage != 0 then env.maximumAmountIn(v2Trade.value, inp.allowedSlippage) else None;
    inputError := CheckInputBalance(inp.inputBalance, amountIn, baseFeeInEth, chain, inputError);

    var minAmountError := CheckMinAmount(inp.minTradeAmounts, v2Trade, isExactIn, parsedAmount);
    if minAmountError {
      inputError := Some(MIN_TRADE_NOT_MET);
    }

    inputError, requiredEthBalance :=
      CheckFees(v2Trade, env.isETHTrade(v2Trade), env.isETHOutTrade(v2Trade), inp.eip1559,
                baseFeePerGas, baseFeeInEth, chain, inp.ethBalance, inputError);

    ghost var early := EarlyChecks(inp, parsedAmount, baseFeePerGas);
    ghost var recipient := RecipientChecks(inp, env);
    ghost var middle := [BalanceCheck(inp, env, baseFeePerGas), MinAmountCheck(inp, env, parsedAmount)];
    RunAppend(early, recipient);
    RunAppend(early + recipient, middle);
    RunFromTwo(Run(early + recipient), middle);
    RunAppend(early + recipient + middle, FeeChecks(inp, env, baseFeePerGas));
    DeriveOfRun(inp, env, parsedAmount, inputError);
    info := SwapInfo(currencies, currencyBalances, parsedAmount, v2Trade, inp.minTradeAmounts, inputError, Some(minAmountError));
  }

  /** useDerivedSwapInfo. The ghost `requiredEthBalance` is the hook's local of that name; nothing reads it. */
  method DerivedSwapInfo(inp: SwapInputs, env: Environment) returns (info: SwapInfo, ghost requiredEthBalance: Option<Amount>)
    ensures info == Derive(inp, env)
    ensures var trade := SelectTrade(inp, env);
            requiredEthBalance ==
              if inp.baseFeePerGas.Some? &&
                 FeeBlockRuns(env.isETHTrade(trade), env.isETHOutTrade(trade), inp.eip1559) &&
                 !IsTrue(env.isETHOutTrade(trade)) && trade.Some?
              then Some(trade.value.minerBribe) else None
  {
    var parsedAmount := TryParseAmount(Some(inp.typedValue), if inp.independentField == Input then inp.inputCurrency else inp.outputCurrency);
    info, requiredEthBalance := DeriveFromParsed(inp, env, parsedAmount);
  }
}
