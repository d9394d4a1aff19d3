/**
 * What useDerivedSwapInfo promises, proved about `DeriveWith`. Each lemma
 * holds for every parsed amount, so in particular for the one the hook uses
 * (`Derive(inp, env) == DeriveWith(inp, env, ParsedAmount(inp))`).
 */
module SwapProperties {
  import opened Wrappers
  import opened SwapTypes
  import opened Recipients
  import opened ErrorOrder
  import opened DerivedSwap

  /** The checks after the recipient's: balance, minimum trade, fees. */
  function LateChecks(inp: SwapInputs, env: Environment, parsed: Option<Amount>): seq<Check>
    requires inp.baseFeePerGas.Some?
  {
    var b := inp.baseFeePerGas.value;
    [BalanceCheck(inp, env, b), MinAmountCheck(inp, env, parsed)] + FeeChecks(inp, env, b)
  }

  /** The error, block by block. */
  lemma ErrorByBlocks(inp: SwapInputs, env: Environment, parsed: Option<Amount>)
    requires inp.baseFeePerGas.Some?
    ensures var b := inp.baseFeePerGas.value;
            DeriveWith(inp, env, parsed).inputError ==
              RunFrom(RunFrom(Run(EarlyChecks(inp, parsed, b)), RecipientChecks(inp, env)), LateChecks(inp, env, parsed))
  {
    var b := inp.baseFeePerGas.value;
    var e, r, l := EarlyChecks(inp, parsed, b), RecipientChecks(inp, env), LateChecks(inp, env, parsed);
    assert Checks(inp, env, parsed) == e + r + l;
    RunIsWinner(e + r + l);
    RunAppend(e, r);
    RunAppend(e + r, l);
  }

  /** Lines 228-237: without a base fee the hook returns nothing but the currencies and balances. */
  lemma BaseFeeUndefinedGivesEmptyResult(inp: SwapInputs, env: Environment, parsed: Option<Amount>)
    requires inp.baseFeePerGas.None?
    ensures var info := DeriveWith(inp, env, parsed);
            info.parsedAmount.None? && info.trade.None? && info.inputError.None? && info.minAmountError.None? &&
            (forall ex :: EntryFor(info.minTradeAmounts, ex).None?) &&
            info.currencies == ByField(inp.inputCurrency, inp.outputCurrency) &&
            info.currencyBalances == ByField(inp.inputBalance, inp.outputBalance)
  {
  }

  /**
   * Lines 199-213: the trade is undefined exactly when both quotes of the
   * active direction are; with two quotes UNI is chosen exactly when
   * isTradeBetter(SUSHI, UNI) holds.
   */
  lemma TradeSelection(inp: SwapInputs, env: Environment, parsed: Option<Amount>)
    requires inp.baseFeePerGas.Some?
    ensures var t := DeriveWith(inp, env, parsed).trade;
            var uni := if inp.independentField == Input then inp.uniExactIn else inp.uniExactOut;
            var sushi := if inp.independentField == Input then inp.sushiExactIn else inp.sushiExactOut;
            (t.None? <==> uni.None? && sushi.None?) &&
            (uni.Some? && sushi.None? ==> t == uni) &&
            (uni.None? && sushi.Some? ==> t == sushi) &&
            (uni.Some? && sushi.Some? && env.betterThan(sushi.value, uni.value) ==> t == uni) &&
            (uni.Some? && sushi.Some? && !env.betterThan(sushi.value, uni.value) ==> t == sushi)
  {
  }

  /** The quotes of the inactive direction never influence the trade. */
  lemma OtherDirectionIgnored(inp: SwapInputs, env: Environment, uni: Option<Trade>, sushi: Option<Trade>)
    ensures inp.independentField == Input ==>
              SelectTrade(inp.(uniExactOut := uni, sushiExactOut := sushi), env) == SelectTrade(inp, env)
    ensures inp.independentField == Output ==>
              SelectTrade(inp.(uniExactIn := uni, sushiExactIn := sushi), env) == SelectTrade(inp, env)
  {
  }

  /**
   * Lines 263-274 use `??`: once the wallet, amount, currency or base-fee
   * check has set an error, the recipient checks keep it, and unless a later
   * check replaces it, it is the hook's error.
   */
  lemma EarlierErrorSurvivesRecipientChecks(inp: SwapInputs, env: Environment, parsed: Option<Amount>)
    requires inp.baseFeePerGas.Some?
    requires var b := inp.baseFeePerGas.value;
             !Truthy(inp.account) || parsed.None? || inp.inputCurrency.None? || inp.outputCurrency.None? || b == 0
    requires Quiet(LateChecks(inp, env, parsed))
    ensures DeriveWith(inp, env, parsed).inputError ==
              Some(if inp.baseFeePerGas.value == 0 then UNDEFINED_BASE_FEE
                   else if !Truthy(inp.account) then CONNECT_WALLET else SWAP)
  {
    var b := inp.baseFeePerGas.value;
    var e := EarlyChecks(inp, parsed, b);
    ErrorByBlocks(inp, env, parsed);
    assert e[..4] == e && e[..3][..2] == e[..2] && e[..2][..1] == e[..1] && e[..1][..0] == [];
    assert Run(e) == Some(if b == 0 then UNDEFINED_BASE_FEE else if !Truthy(inp.account) then CONNECT_WALLET else SWAP) by {
      RunPrefix(e, 0);
      RunPrefix(e, 1);
      RunPrefix(e, 2);
      RunPrefix(e, 3);
    }
    RunFromKeeps(Run(e), RecipientChecks(inp, env));
    RunFromQuiet(Run(e), LateChecks(inp, env, parsed));
  }

  /**
   * With a wallet, an amount, both currencies and a non-zero base fee, and
   * no later check firing, the error is the recipient's: missing, else
   * refused, else none.
   */
  lemma RecipientError(inp: SwapInputs, env: Environment, parsed: Option<Amount>)
    requires inp.baseFeePerGas.Some? && inp.baseFeePerGas.value != 0
    requires Truthy(inp.account) && parsed.Some? && inp.inputCurrency.Some? && inp.outputCurrency.Some?
    requires Quiet(LateChecks(inp, env, parsed))
    ensures DeriveWith(inp, env, parsed).inputError ==
              if RecipientMissing(inp, env) then Some(ENTER_RECIPIENT)
              else if RecipientRefused(inp, env) then Some(INVALID_RECIPIENT)
              else None
  {
    var b := inp.baseFeePerGas.value;
    ErrorByBlocks(inp, env, parsed);
    RunQuiet(EarlyChecks(inp, parsed, b));
    RunFromTwo(None, RecipientChecks(inp, env));
    RunFromQuiet(RunFrom(None, RecipientChecks(inp, env)), LateChecks(inp, env, parsed));
  }

  /**
   * A recipient is refused exactly when it is on the denylist, or is a token
   * on the path or a pair's liquidity token of the UNI exact-in or exact-out
   * quote.
   */
  lemma RefusedRecipients(inp: SwapInputs, env: Environment)
    requires !RecipientMissing(inp, env)
    ensures var a := env.isAddress(To(inp).value).value;
            RecipientRefused(inp, env) <==>
              a in BAD_RECIPIENT_ADDRESSES ||
              (inp.uniExactIn.Some? && (a in inp.uniExactIn.value.route.path ||
                                        a in inp.uniExactIn.value.route.pairLiquidityTokens)) ||
              (inp.uniExactOut.Some? && (a in inp.uniExactOut.value.route.path ||
                                         a in inp.uniExactOut.value.route.pairLiquidityTokens))
  {
  }

  /** The error of a refused recipient comes from either quote's route, path tokens and liquidity tokens alike. */
  lemma RouteAddressRefused(inp: SwapInputs, env: Environment, parsed: Option<Amount>, t: Trade, i: nat)
    requires inp.baseFeePerGas.Some? && inp.baseFeePerGas.value != 0
    requires Truthy(inp.account) && parsed.Some? && inp.inputCurrency.Some? && inp.outputCurrency.Some?
    requires Quiet(LateChecks(inp, env, parsed))
    requires !RecipientMissing(inp, env)
    requires inp.uniExactIn == Some(t) || inp.uniExactOut == Some(t)
    requires var a := env.isAddress(To(inp).value).value;
             (i < |t.route.path| && t.route.path[i] == a) ||
             (i < |t.route.pairLiquidityTokens| && t.route.pairLiquidityTokens[i] == a)
    ensures DeriveWith(inp, env, parsed).inputError == Some(INVALID_RECIPIENT)
  {
    RecipientError(inp, env, parsed);
  }

  /**
   * Lines 276-295: an input balance below the slippage-adjusted input (plus
   * gas limit times base fee per gas when that input is ETH) replaces any
   * earlier error, the recipient's included, unless a later check fires.
   */
  lemma InsufficientBalance(inp: SwapInputs, env: Environment, parsed: Option<Amount>)
    requires inp.baseFeePerGas.Some?
    requires AmountIn(inp, env).Some? && inp.inputBalance.Some?
    requires var a := AmountIn(inp, env).value;
             inp.inputBalance.value.raw <
               a.raw + (if a.currency.Symbol() == Some("ETH") then env.gasLimit * inp.baseFeePerGas.value else 0)
    requires !MinAmountCheck(inp, env, parsed).fires && Quiet(FeeChecks(inp, env, inp.baseFeePerGas.value))
    ensures DeriveWith(inp, env, parsed).inputError == Some(BalanceMessage(AmountIn(inp, env).value.currency.Symbol()))
  {
    var b := inp.baseFeePerGas.value;
    ErrorByBlocks(inp, env, parsed);
    var l := LateChecks(inp, env, parsed);
    var before := RunFrom(Run(EarlyChecks(inp, parsed, b)), RecipientChecks(inp, env));
    assert l == [l[0], l[1]] + l[2..];
    assert RunFrom(before, l) == RunFrom(Apply(Apply(before, l[0]), l[1]), l[2..]) by {
      RunFromAppend(before, [l[0], l[1]], l[2..]);
      RunFromTwo(before, [l[0], l[1]]);
    }
    RunFromQuiet(Apply(Apply(before, l[0]), l[1]), l[2..]);
  }

  /** A balance that covers the requirement leaves the error as if no balance were known. */
  lemma CoveredBalanceRaisesNoError(inp: SwapInputs, env: Environment, parsed: Option<Amount>)
    requires inp.baseFeePerGas.Some?
    requires AmountIn(inp, env).Some? && inp.inputBalance.Some?
    requires var a := AmountIn(inp, env).value;
             inp.inputBalance.value.raw >=
               a.raw + (if a.currency.Symbol() == Some("ETH") then env.gasLimit * inp.baseFeePerGas.value else 0)
    ensures DeriveWith(inp, env, parsed).inputError == DeriveWith(inp.(inputBalance := None), env, parsed).inputError
  {
    var inp' := inp.(inputBalance := None);
    ErrorByBlocks(inp, env, parsed);
    ErrorByBlocks(inp', env, parsed);
    assert LateChecks(inp, env, parsed) == LateChecks(inp', env, parsed);
  }

  /**
   * Lines 298-315: the minimum-trade flag. For a known entry of the winning
   * exchange (none without a trade) and an amount, the threshold for the
   * trade type must exceed the amount; otherwise an amount and an entry for
   * UNI or SUSHI suffice.
   */
  lemma MinTradeAmountFlag(inp: SwapInputs, env: Environment, parsed: Option<Amount>)
    requires inp.baseFeePerGas.Some?
    ensures var info := DeriveWith(inp, env, parsed);
            var t := info.trade;
            var entry := EntryFor(inp.minTradeAmounts, if t.Some? then t.value.exchange else UndefinedExchange);
            var threshold := if entry.Some? then entry.value.ForType(if inp.independentField == Input then ExactInput else ExactOutput) else None;
            info.minAmountError == Some(
              if entry.Some? && parsed.Some? then threshold.Some? && threshold.value.raw > parsed.value.raw
              else parsed.Some? && (Uni in inp.minTradeAmounts || Sushi in inp.minTradeAmounts))
  {
  }

  /** A raised minimum-trade flag replaces any earlier error unless the fee block sets one. */
  lemma MinTradeAmountError(inp: SwapInputs, env: Environment, parsed: Option<Amount>)
    requires inp.baseFeePerGas.Some?
    requires MinAmountError(inp.minTradeAmounts, SelectTrade(inp, env), inp.independentField == Input, parsed)
    requires Quiet(FeeChecks(inp, env, inp.baseFeePerGas.value))
    ensures DeriveWith(inp, env, parsed).inputError == Some(MIN_TRADE_NOT_MET)
    ensures DeriveWith(inp, env, parsed).minAmountError == Some(true)
  {
    var b := inp.baseFeePerGas.value;
    ErrorByBlocks(inp, env, parsed);
    var l := LateChecks(inp, env, parsed);
    var before := RunFrom(Run(EarlyChecks(inp, parsed, b)), RecipientChecks(inp, env));
    assert l == [l[0], l[1]] + l[2..];
    RunFromAppend(before, [l[0], l[1]], l[2..]);
    RunFromTwo(before, [l[0], l[1]]);
    RunFromQuiet(Apply(Apply(before, l[0]), l[1]), l[2..]);
  }

  /** Lines 322 and 340-341: when the fee block runs without a trade, the bribe error wins outright. */
  lemma BribeUndefinedError(inp: SwapInputs, env: Environment, parsed: Option<Amount>)
    requires inp.baseFeePerGas.Some? && SelectTrade(inp, env).None?
    requires FeeBlockRuns(env.isETHTrade(None), env.isETHOutTrade(None), inp.eip1559)
    ensures DeriveWith(inp, env, parsed).inputError == Some(BRIBE_UNDEFINED)
  {
    var b := inp.baseFeePerGas.value;
    ErrorByBlocks(inp, env, parsed);
    var l := LateChecks(inp, env, parsed);
    var before := RunFrom(Run(EarlyChecks(inp, parsed, b)), RecipientChecks(inp, env));
    assert l == l[..2] + FeeChecks(inp, env, b);
    RunFromAppend(before, l[..2], FeeChecks(inp, env, b));
    RunFromTwo(RunFrom(before, l[..2]), FeeChecks(inp, env, b));
  }

  /**
   * Lines 346-349: with a zero base fee, an ETH balance below the miner
   * bribe is the error (the wallet's own share, gas limit times 0, is 0).
   */
  lemma FeesErrorWithZeroBaseFee(inp: SwapInputs, env: Environment, parsed: Option<Amount>)
    requires inp.baseFeePerGas == Some(0)
    requires SelectTrade(inp, env).Some?
    requires var t := SelectTrade(inp, env);
             FeeBlockRuns(env.isETHTrade(t), env.isETHOutTrade(t), inp.eip1559)
    requires inp.ethBalance.Some? && inp.ethBalance.value.raw < SelectTrade(inp, env).value.minerBribe.raw
    ensures DeriveWith(inp, env, parsed).inputError == Some(FeesMessage(inp.ethBalance))
  {
    var b := inp.baseFeePerGas.value;
    ErrorByBlocks(inp, env, parsed);
    var l := LateChecks(inp, env, parsed);
    var before := RunFrom(Run(EarlyChecks(inp, parsed, b)), RecipientChecks(inp, env));
    assert l == l[..2] + FeeChecks(inp, env, b);
    RunFromAppend(before, l[..2], FeeChecks(inp, env, b));
    RunFromTwo(RunFrom(before, l[..2]), FeeChecks(inp, env, b));
  }

  /**
   * Lines 322 and 340-341: the miner-bribe check fires exactly when the fee
   * block runs without a trade.
   */
  lemma BribeCheckFiresIff(inp: SwapInputs, env: Environment, baseFeePerGas: nat)
    ensures var t := SelectTrade(inp, env);
            FeeChecks(inp, env, baseFeePerGas)[0].fires <==>
              FeeBlockRuns(env.isETHTrade(t), env.isETHOutTrade(t), inp.eip1559) && t.None?
  {
  }

  /** Line 322: when its guard fails, the fee block sets no error. */
  lemma FeeBlockSkippedIsQuiet(inp: SwapInputs, env: Environment, baseFeePerGas: nat)
    requires var t := SelectTrade(inp, env);
             !FeeBlockRuns(env.isETHTrade(t), env.isETHOutTrade(t), inp.eip1559)
    ensures Quiet(FeeChecks(inp, env, baseFeePerGas))
  {
  }

  /**
   * Lines 345-349: the "(fees)" check fires exactly when the fee block runs
   * with a trade, the base fee per gas is 0 (falsy) and a known ETH balance
   * is below the miner bribe; a covering or unknown balance never fires it.
   */
  lemma FeesCheckFiresIff(inp: SwapInputs, env: Environment, baseFeePerGas: nat)
    ensures var t := SelectTrade(inp, env);
            FeeChecks(inp, env, baseFeePerGas)[1].fires <==>
              FeeBlockRuns(env.isETHTrade(t), env.isETHOutTrade(t), inp.eip1559) && t.Some? &&
              baseFeePerGas == 0 && inp.ethBalance.Some? && inp.ethBalance.value.raw < t.value.minerBribe.raw
  {
  }

  /**
   * Line 348 tests `!baseFeePerGas`: with a non-zero base fee the ETH
   * balance is never consulted, however small it is.
   */
  lemma EthBalanceIgnoredWithPositiveBaseFee(inp: SwapInputs, env: Environment, parsed: Option<Amount>,
                                             ethBalance: Option<Amount>)
    requires inp.baseFeePerGas.Some? && inp.baseFeePerGas.value != 0
    ensures DeriveWith(inp.(ethBalance := ethBalance), env, parsed) == DeriveWith(inp, env, parsed)
  {
    var inp' := inp.(ethBalance := ethBalance);
    var b := inp.baseFeePerGas.value;
    ErrorByBlocks(inp, env, parsed);
    ErrorByBlocks(inp', env, parsed);
    var l, l' := LateChecks(inp, env, parsed), LateChecks(inp', env, parsed);
    assert l[..3] == l'[..3];
    assert l == l[..3] + [l[3]] && l' == l'[..3] + [l'[3]];
    var before := RunFrom(Run(EarlyChecks(inp, parsed, b)), RecipientChecks(inp, env));
    assert before == RunFrom(Run(EarlyChecks(inp', parsed, b)), RecipientChecks(inp', env));
    RunFromAppend(before, l[..3], [l[3]]);
    RunFromAppend(before, l'[..3], [l'[3]]);
    RunFromQuiet(RunFrom(before, l[..3]), [l[3]]);
    RunFromQuiet(RunFrom(before, l'[..3]), [l'[3]]);
  }

  /** A zero base fee always leaves an error; with no later check firing it is the base-fee one. */
  lemma ZeroBaseFeeAlwaysErrs(inp: SwapInputs, env: Environment, parsed: Option<Amount>)
    requires inp.baseFeePerGas == Some(0)
    ensures DeriveWith(inp, env, parsed).inputError.Some?
    ensures Quiet(LateChecks(inp, env, parsed)) ==> DeriveWith(inp, env, parsed).inputError == Some(UNDEFINED_BASE_FEE)
  {
    var e := EarlyChecks(inp, parsed, 0);
    ErrorByBlocks(inp, env, parsed);
    assert e[..4] == e;
    RunPrefix(e, 3);
    RunFromStaysSet(Run(e), RecipientChecks(inp, env));
    RunFromStaysSet(RunFrom(Run(e), RecipientChecks(inp, env)), LateChecks(inp, env, parsed));
    RunFromKeeps(Run(e), RecipientChecks(inp, env));
    if Quiet(LateChecks(inp, env, parsed)) {
      RunFromQuiet(Run(e), LateChecks(inp, env, parsed));
    }
  }
}
